// What the Python interface remembers of the event lines it reads: devices by
// MAC, aliases from names to MACs, and tool lists.
module Registry {
  import opened Types
  import opened Decimal
  import opened CommandLine
  import opened EventLine
  import opened EventStream
  import opened HostEvents
  import opened MacAddress
  import HostInterface

  // A parsed line.  `hasReason` tells whether it has a "reason" field; `info` is
  // the JSON object's text if the line carries an object, `name` its "name"
  // member if that is a string.
  datatype Line = Line(kind: string, xid: Option<int>, mac: Option<string>, rssi: Option<int>,
                       cmd: Option<string>, hasReason: bool, info: Option<string>, name: Option<string>)

  datatype Entry = Entry(mac: string, name: Option<string>, rssi: Option<int>, info: string, lastSeen: int)

  datatype State = State(devices: map<string, Entry>, aliases: map<string, string>, toolCache: map<string, string>)

  function LowerChar(c: char): char {
    if 'A' <= c <= 'Z' then c - 'A' + 'a' else c
  }

  function Lower(s: string): (r: string)
    ensures |r| == |s|
  {
    seq(|s|, i requires 0 <= i < |s| => LowerChar(s[i]))
  }

  predicate IsHex(c: char) {
    '0' <= c <= '9' || 'a' <= c <= 'f' || 'A' <= c <= 'F'
  }

  // Six pairs of hex digits with colons between them.
  predicate IsMac(s: string) {
    |s| == 17 && forall i | 0 <= i < 17 :: if i % 3 == 2 then s[i] == ':' else IsHex(s[i])
  }

  // The MAC of a line, in lower case; empty if it has none.
  function MacOf(line: Line): string {
    Lower(line.mac.GetOr([]))
  }

  predicate NamesDevice(line: Line) {
    line.kind == "device" && IsMac(MacOf(line))
  }

  function NonEmpty(name: Option<string>): Option<string> {
    if name == Some([]) then None else name
  }

  function Or(a: Option<string>, b: Option<string>): Option<string> {
    if NonEmpty(a).Some? then a else b
  }

  class Interface {
    var devices: map<string, Entry>
    var aliases: map<string, string>
    var toolCache: map<string, string>

    ghost function Contents(): State
      reads this
    {
      State(devices, aliases, toolCache)
    }

    constructor ()
      ensures Contents() == State(map[], map[], map[])
    {
      devices, aliases, toolCache := map[], map[], map[];
    }

    method DeviceFromLine(line: Line, now: int) returns (entry: Option<Entry>)
      modifies this
      ensures Contents() == if IsMac(MacOf(line)) then SeenDevice(old(Contents()), line, now) else old(Contents())
      ensures entry == if IsMac(MacOf(line)) then Some(devices[MacOf(line)]) else None
    {
      var mac := Lower(if line.mac.Some? then line.mac.value else []);
      if !IsMac(mac) {
        return None;
      }
      var e := if mac in devices then devices[mac] else Entry(mac, None, None, [], 0);
      var name := if line.info.Some? then line.name else None;
      if name.Some? && name.value != [] {
        e := e.(name := name);
      }
      e := e.(rssi := line.rssi, info := if line.info.Some? then line.info.value else [], lastSeen := now);
      devices := devices[mac := e];
      if e.name.Some? && e.name.value != [] {
        aliases := aliases[e.name.value := mac];
      }
      return Some(e);
    }

    method RememberLine(line: Line, now: int)
      modifies this
      ensures Contents() == Remember(old(Contents()), line, now)
    {
      if line.kind == "device" {
        var entry := DeviceFromLine(line, now);
        return;
      }
      if line.mac.None? || line.mac.value == [] {
        return;
      }
      var mac := Lower(line.mac.value);
      if mac in devices {
        var e := devices[mac];
        if line.rssi.Some? {
          e := e.(rssi := line.rssi);
        }
        devices := devices[mac := e.(lastSeen := now)];
      }
      if line.kind == "tools" && line.info.Some? {
        toolCache := toolCache[mac := line.info.value];
      }
    }

    // Reads lines until one answers the request, or the deadline cuts the input
    // off; every line read is remembered, and the rest is left unread.
    method WaitForEvent(input: seq<(Line, int)>, kinds: set<string>, xid: int) returns (found: Option<nat>)
      modifies this
      ensures found.Some? ==> found.value < |input| && Answers(input[found.value].0, kinds, xid)
      ensures forall i | 0 <= i < (if found.Some? then found.value else |input|) :: !Answers(input[i].0, kinds, xid)
      ensures Contents() == RememberAll(old(Contents()), if found.Some? then input[..found.value + 1] else input)
    {
      for i := 0 to |input|
        invariant forall j | 0 <= j < i :: !Answers(input[j].0, kinds, xid)
        invariant Contents() == RememberAll(old(Contents()), input[..i])
      {
        RememberLine(input[i].0, input[i].1);
        assert input[..i + 1][..i] == input[..i];
        if input[i].0.xid == Some(xid) && input[i].0.kind in kinds {
          return Some(i);
        }
      }
      assert input[..|input|] == input;
      return None;
    }

    // Reads lines until one settles whether the command was accepted; `read` is
    // how many that took.
    method WaitForOk(input: seq<(Line, int)>, cmd: string) returns (xid: Result<int, OkError>, read: nat)
      modifies this
      ensures var k := DecisionIn(input, cmd);
              && (k < |input| ==> xid == Verdict(input[k].0, cmd) && read == k + 1)
              && (k == |input| ==> xid == Err(TimedOut) && read == k)
      ensures Contents() == RememberAll(old(Contents()), input[..read])
    {
      for i := 0 to |input|
        invariant forall j | 0 <= j < i :: !Decides(input[j].0, cmd)
        invariant Contents() == RememberAll(old(Contents()), input[..i])
      {
        var line := input[i].0;
        RememberLine(line, input[i].1);
        assert input[..i + 1][..i] == input[..i];
        if line.kind == "ok" && line.cmd == Some(cmd) {
          return if line.xid.None? then Err(NoXid) else Ok(line.xid.value), i + 1;
        }
        if line.kind == "error" && (line.cmd == Some(cmd) || line.hasReason) {
          return Err(Refused), i + 1;
        }
      }
      return Err(TimedOut), |input|;
    }

    // Reads on from line `from`; a reply is remembered once more, at time `now`.
    method WaitForReply(input: seq<(Line, int)>, from: nat, eventBy: nat, xid: int, now: int)
      returns (at: Option<nat>)
      requires from <= eventBy <= |input|
      modifies this
      ensures at == ReplyIn(input, from, eventBy, xid)
      ensures Contents() == RememberAll(old(Contents()), ReplyLines(input, from, eventBy, at, now))
    {
      ghost var before := Contents();
      var tail := input[from..eventBy];
      var found := WaitForEvent(tail, CALL_EVENTS, xid);
      FoundIsAnswer(tail, CALL_EVENTS, xid, found);
      if found.None? {
        return None;
      }
      at := Some(from + found.value);
      RememberLine(input[at.value].0, now);
      RememberOneMore(before, tail[..found.value + 1], (input[at.value].0, now));
      assert tail[..found.value + 1] == input[from..at.value + 1];
    }

    // The first deadline lets okBy lines of the input be read, the second eventBy.
    method AwaitReply(input: seq<(Line, int)>, okBy: nat, eventBy: nat, now: int) returns (outcome: Called)
      requires okBy <= eventBy <= |input|
      modifies this
      ensures outcome == CallOutcome(input, okBy, eventBy)
      ensures Contents() == RememberAll(old(Contents()), LinesRead(input, okBy, eventBy, now))
    {
      ghost var before := Contents();
      var xid, read := WaitForOk(input[..okBy], "call");
      assert input[..okBy][..read] == input[..read];
      if xid.Err? {
        return NotAccepted(xid.error);
      }
      var at := WaitForReply(input, read, eventBy, xid.value, now);
      RememberMore(before, input[..read], ReplyLines(input, read, eventBy, at, now));
      outcome := OutcomeOf(input, at);
    }

    method CallTool(id: string, tool: string, payload: string, input: seq<(Line, int)>, okBy: nat, eventBy: nat,
                    now: int) returns (sent: string, outcome: Called)
      requires okBy <= eventBy <= |input|
      modifies this
      ensures var mac := Resolve(old(Contents()), id);
              if mac.None? then
                sent == [] && outcome == UnknownDevice && Contents() == old(Contents())
              else
                && sent == HostInterface.CallSent(mac.value, tool, payload)
                && outcome == CallOutcome(input, okBy, eventBy)
                && Contents() == RememberAll(old(Contents()), LinesRead(input, okBy, eventBy, now))
    {
      if !IsMac(id) && id !in aliases {
        return [], UnknownDevice;
      }
      sent := HostInterface.CallSent(if IsMac(id) then Lower(id) else aliases[id], tool, payload);
      outcome := AwaitReply(input, okBy, eventBy, now);
    }
  }

  // ---------------------------------------------------------------------
  // One request and its reply

  datatype OkError = TimedOut | NoXid | Refused

  datatype Called = UnknownDevice | NotAccepted(why: OkError) | NoEvent | ErrorLine(at: nat) | Reply(at: nat)

  const CALL_EVENTS := {"result", "error"}

  predicate IsOk(line: Line, cmd: string) {
    line.kind == "ok" && line.cmd == Some(cmd)
  }

  // The line settles whether the command was accepted.
  predicate Decides(line: Line, cmd: string) {
    IsOk(line, cmd) || (line.kind == "error" && (line.cmd == Some(cmd) || line.hasReason))
  }

  function Verdict(line: Line, cmd: string): Result<int, OkError> {
    if !IsOk(line, cmd) then Err(Refused) else if line.xid.None? then Err(NoXid) else Ok(line.xid.value)
  }

  // The first line that settles it, or the number of lines.
  function DecisionIn(input: seq<(Line, int)>, cmd: string): (k: nat)
    ensures k <= |input| && (k < |input| ==> Decides(input[k].0, cmd))
    ensures forall i | 0 <= i < k :: !Decides(input[i].0, cmd)
  {
    if input == [] || Decides(input[0].0, cmd) then 0 else 1 + DecisionIn(input[1..], cmd)
  }

  // The first line that answers the request, or the number of lines.
  function AnswerIn(input: seq<(Line, int)>, kinds: set<string>, xid: int): (k: nat)
    ensures k <= |input| && (k < |input| ==> Answers(input[k].0, kinds, xid))
    ensures forall i | 0 <= i < k :: !Answers(input[i].0, kinds, xid)
  {
    if input == [] || Answers(input[0].0, kinds, xid) then 0 else 1 + AnswerIn(input[1..], kinds, xid)
  }

  function ReplyIn(input: seq<(Line, int)>, from: nat, eventBy: nat, xid: int): (at: Option<nat>)
    requires from <= eventBy <= |input|
    ensures at.Some? ==> from <= at.value < eventBy
  {
    var e := from + AnswerIn(input[from..eventBy], CALL_EVENTS, xid);
    if e == eventBy then None else Some(e)
  }

  // The lines read for it, the last one twice if it is the reply.
  function ReplyLines(input: seq<(Line, int)>, from: nat, eventBy: nat, at: Option<nat>, now: int): seq<(Line, int)>
    requires from <= eventBy <= |input| && (at.Some? ==> from <= at.value < eventBy)
  {
    if at.None? then input[from..eventBy] else input[from..at.value + 1] + [(input[at.value].0, now)]
  }

  function OutcomeOf(input: seq<(Line, int)>, at: Option<nat>): Called
    requires at.Some? ==> at.value < |input|
  {
    if at.None? then NoEvent
    else if input[at.value].0.kind == "error" then ErrorLine(at.value) else Reply(at.value)
  }

  function CallOutcome(input: seq<(Line, int)>, okBy: nat, eventBy: nat): Called
    requires okBy <= eventBy <= |input|
  {
    var k := DecisionIn(input[..okBy], "call");
    if k == okBy then NotAccepted(TimedOut)
    else
      match Verdict(input[k].0, "call")
      case Err(why) => NotAccepted(why)
      case Ok(xid) => OutcomeOf(input, ReplyIn(input, k + 1, eventBy, xid))
  }

  // The lines a call reads and remembers.
  function LinesRead(input: seq<(Line, int)>, okBy: nat, eventBy: nat, now: int): seq<(Line, int)>
    requires okBy <= eventBy <= |input|
  {
    var k := DecisionIn(input[..okBy], "call");
    if k == okBy then input[..okBy]
    else
      match Verdict(input[k].0, "call")
      case Err(why) => input[..k + 1]
      case Ok(xid) => input[..k + 1] + ReplyLines(input, k + 1, eventBy, ReplyIn(input, k + 1, eventBy, xid), now)
  }

  // A call reads on up to its reply, which it remembers twice, or to a deadline.
  lemma CallReads(input: seq<(Line, int)>, okBy: nat, eventBy: nat, now: int)
    requires okBy <= eventBy <= |input|
    ensures var read := LinesRead(input, okBy, eventBy, now);
            match CallOutcome(input, okBy, eventBy)
            case Reply(e) => e < |input| && read == input[..e + 1] + [(input[e].0, now)]
            case ErrorLine(e) => e < |input| && read == input[..e + 1] + [(input[e].0, now)]
            case NoEvent => read == input[..eventBy]
            case NotAccepted(why) => (why == TimedOut ==> read == input[..okBy]) && read <= input[..okBy]
            case UnknownDevice => false
  {
    var k := DecisionIn(input[..okBy], "call");
    if k < okBy {
      assert input[..okBy][k] == input[k];
      if Verdict(input[k].0, "call").Ok? {
        var at := ReplyIn(input, k + 1, eventBy, Verdict(input[k].0, "call").value);
        JoinedReads(input, k + 1, eventBy, at, now);
      } else {
        assert input[..k + 1] <= input[..okBy];
      }
    }
  }

  lemma JoinedReads(input: seq<(Line, int)>, from: nat, eventBy: nat, at: Option<nat>, now: int)
    requires from <= eventBy <= |input| && (at.Some? ==> from <= at.value < eventBy)
    ensures input[..from] + ReplyLines(input, from, eventBy, at, now)
            == if at.None? then input[..eventBy] else input[..at.value + 1] + [(input[at.value].0, now)]
  {
    if at.Some? {
      assert input[..from] + input[from..at.value + 1] == input[..at.value + 1];
    }
  }

  lemma {:induction false} RememberMore(s: State, first: seq<(Line, int)>, second: seq<(Line, int)>)
    ensures RememberAll(RememberAll(s, first), second) == RememberAll(s, first + second)
  {
    if second == [] {
      assert first + second == first;
    } else {
      RememberMore(s, first, second[..|second| - 1]);
      assert (first + second)[..|first + second| - 1] == first + second[..|second| - 1];
    }
  }

  lemma RememberOneMore(s: State, lines: seq<(Line, int)>, last: (Line, int))
    ensures RememberAll(s, lines + [last]) == Remember(RememberAll(s, lines), last.0, last.1)
  {
    assert (lines + [last])[..|lines|] == lines;
  }

  lemma FoundIsAnswer(input: seq<(Line, int)>, kinds: set<string>, xid: int, found: Option<nat>)
    requires found.Some? ==> found.value < |input| && Answers(input[found.value].0, kinds, xid)
    requires forall i | 0 <= i < found.GetOr(|input|) :: !Answers(input[i].0, kinds, xid)
    ensures AnswerIn(input, kinds, xid) == found.GetOr(|input|)
  {
  }

  // Once the command is accepted, by the line at k, the call returns the line at
  // e exactly if that is the first to answer it after k.  Answers read before
  // are lost: the call then waits in vain exactly if there is none after k.
  lemma CallReturnsIff(input: seq<(Line, int)>, okBy: nat, eventBy: nat, k: nat, xid: int, e: nat)
    requires k < okBy <= eventBy <= |input|
    requires IsOk(input[k].0, "call") && input[k].0.xid == Some(xid)
    requires forall i | 0 <= i < k :: !Decides(input[i].0, "call")
    ensures CallOutcome(input, okBy, eventBy) == Reply(e)
            <==> && k < e < eventBy && Answers(input[e].0, {"result"}, xid)
                 && forall i | k < i < e :: !Answers(input[i].0, CALL_EVENTS, xid)
    ensures CallOutcome(input, okBy, eventBy) == NoEvent
            <==> forall i | k < i < eventBy :: !Answers(input[i].0, CALL_EVENTS, xid)
  {
    var tail := input[k + 1..eventBy];
    var d, a := DecisionIn(input[..okBy], "call"), AnswerIn(tail, CALL_EVENTS, xid);
    assert input[..okBy][k] == input[k];
    assert d == k;
    assert forall i | 0 <= i < |tail| :: tail[i] == input[k + 1 + i];
    assert forall i | k < i < eventBy :: input[i] == tail[i - k - 1];
  }

  // For instance, of the two lines of one call the order decides.
  lemma EarlyReplyIsLost(ok: Line, reply: Line, xid: int, early: int, now: int)
    requires IsOk(ok, "call") && ok.xid == Some(xid) && Answers(reply, {"result"}, xid)
    ensures CallOutcome([(ok, early), (reply, now)], 2, 2) == Reply(1)
    ensures CallOutcome([(reply, early), (ok, now)], 2, 2) == NoEvent
  {
    CallReturnsIff([(ok, early), (reply, now)], 2, 2, 0, xid, 1);
    CallReturnsIff([(reply, early), (ok, now)], 2, 2, 1, xid, 0);
  }

  // ---------------------------------------------------------------------
  // The tables

  // The line is the event a request with that xid waits for.
  predicate Answers(line: Line, kinds: set<string>, xid: int) {
    line.xid == Some(xid) && line.kind in kinds
  }

  // A valid MAC or a known alias; None is the KeyError.  The id is given stripped.
  function Resolve(s: State, id: string): Option<string> {
    if IsMac(id) then Some(Lower(id)) else if id in s.aliases then Some(s.aliases[id]) else None
  }

  function SeenDevice(s: State, line: Line, now: int): State {
    var mac := MacOf(line);
    var e := if mac in s.devices then s.devices[mac] else Entry(mac, None, None, [], 0);
    var name := Or(if line.info.Some? then line.name else None, e.name);
    s.(devices := s.devices[mac := e.(name := name, rssi := line.rssi, info := line.info.GetOr([]), lastSeen := now)],
       aliases := if NonEmpty(name).Some? then s.aliases[name.value := mac] else s.aliases)
  }

  function Remember(s: State, line: Line, now: int): State {
    var mac := MacOf(line);
    if NamesDevice(line) then SeenDevice(s, line, now)
    else if line.kind == "device" || mac == [] then s
    else
      var heard := if mac !in s.devices then s
                   else
                     var e := s.devices[mac];
                     s.(devices := s.devices[mac := e.(rssi := if line.rssi.Some? then line.rssi else e.rssi,
                                                       lastSeen := now)]);
      if line.kind == "tools" && line.info.Some? then heard.(toolCache := s.toolCache[mac := line.info.value]) else heard
  }

  function RememberAll(s: State, lines: seq<(Line, int)>): State {
    if lines == [] then s
    else
      var last := lines[|lines| - 1];
      Remember(RememberAll(s, lines[..|lines| - 1]), last.0, last.1)
  }

  // ---------------------------------------------------------------------
  // What the tables mean, told from the history of lines alone

  function After(lines: seq<(Line, int)>): State {
    RememberAll(State(map[], map[], map[]), lines)
  }

  predicate Announces(line: Line, mac: string) {
    NamesDevice(line) && MacOf(line) == mac
  }

  predicate Mentions(line: Line, mac: string) {
    line.kind != "device" && MacOf(line) == mac != []
  }

  // What was last heard of a device: any line about it counts once it has
  // announced itself.  An announcement replaces signal strength and data.
  datatype Heard = Heard(rssi: Option<int>, info: string, time: int)

  function LastHeard(lines: seq<(Line, int)>, mac: string): Heard {
    if lines == [] then Heard(None, [], 0)
    else
      var (line, now) := lines[|lines| - 1];
      var before := lines[..|lines| - 1];
      if Announces(line, mac) then Heard(line.rssi, line.info.GetOr([]), now)
      else if Mentions(line, mac) && Announced(before, mac) then
        var h := LastHeard(before, mac);
        Heard(if line.rssi.Some? then line.rssi else h.rssi, h.info, now)
      else LastHeard(before, mac)
  }

  // The last tool list seen from that address.
  function LastTools(lines: seq<(Line, int)>, mac: string): Option<string> {
    if lines == [] then None
    else
      var line := lines[|lines| - 1].0;
      if Mentions(line, mac) && line.kind == "tools" && line.info.Some? then line.info
      else LastTools(lines[..|lines| - 1], mac)
  }

  // The last name a device gave itself.
  function NameOf(lines: seq<(Line, int)>, mac: string): (r: Option<string>)
    ensures r != Some([])
  {
    if lines == [] then None
    else
      var line := lines[|lines| - 1].0;
      if Announces(line, mac) && line.info.Some? && NonEmpty(line.name).Some? then line.name
      else NameOf(lines[..|lines| - 1], mac)
  }

  // The device that last announced itself while going by that name.
  function LastKnownAs(lines: seq<(Line, int)>, name: string): Option<string> {
    if lines == [] then None
    else
      var line := lines[|lines| - 1].0;
      if NamesDevice(line) && NameOf(lines, MacOf(line)) == Some(name) then Some(MacOf(line))
      else LastKnownAs(lines[..|lines| - 1], name)
  }

  predicate Announced(lines: seq<(Line, int)>, mac: string) {
    exists i | 0 <= i < |lines| :: Announces(lines[i].0, mac)
  }

  function Known(lines: seq<(Line, int)>, mac: string): Entry {
    var h := LastHeard(lines, mac);
    Entry(mac, NameOf(lines, mac), h.rssi, h.info, h.time)
  }

  // The device table holds who announced themselves, with what was last heard.
  ghost predicate DeviceOk(s: State, lines: seq<(Line, int)>, mac: string) {
    (if mac in s.devices then Some(s.devices[mac]) else None)
    == if Announced(lines, mac) then Some(Known(lines, mac)) else None
  }

  ghost predicate ToolsOk(s: State, lines: seq<(Line, int)>, mac: string) {
    (if mac in s.toolCache then Some(s.toolCache[mac]) else None) == LastTools(lines, mac)
  }

  // An alias leads to the device that last went by it.
  ghost predicate AliasOk(s: State, lines: seq<(Line, int)>, name: string) {
    (if name in s.aliases then Some(s.aliases[name]) else None) == LastKnownAs(lines, name)
  }

  ghost predicate Faithful(s: State, lines: seq<(Line, int)>) {
    forall text: string :: DeviceOk(s, lines, text) && ToolsOk(s, lines, text) && AliasOk(s, lines, text)
  }

  // After any lines whatever, the device table holds exactly the devices that
  // announced themselves, each with the last name it gave and what was last
  // heard of it, the tool cache the last list of each address, and an alias
  // leads to the device that last announced itself while going by it.
  lemma {:induction false} TablesTellHistory(lines: seq<(Line, int)>)
    ensures Faithful(After(lines), lines)
  {
    if lines != [] {
      var before, last := lines[..|lines| - 1], lines[|lines| - 1];
      TablesTellHistory(before);
      var s := After(before);
      assert lines == before + [last];
      forall text: string
        ensures DeviceOk(After(lines), lines, text) && ToolsOk(After(lines), lines, text)
             && AliasOk(After(lines), lines, text)
      {
        assert DeviceOk(s, before, MacOf(last.0));
        DeviceStaysOk(s, before, last, text);
        ToolsStayOk(s, before, last, text);
        AliasStaysOk(s, before, last, text);
      }
    }
  }

  lemma DeviceStaysOk(s: State, before: seq<(Line, int)>, last: (Line, int), mac: string)
    requires DeviceOk(s, before, mac)
    ensures DeviceOk(Remember(s, last.0, last.1), before + [last], mac)
  {
    assert (before + [last])[..|before|] == before;
    AnnouncedOneMore(before, last, mac);
    if NameOf(before, mac).Some? {
      NamedWasAnnounced(before, mac);
    }
  }

  lemma ToolsStayOk(s: State, before: seq<(Line, int)>, last: (Line, int), mac: string)
    requires ToolsOk(s, before, mac)
    ensures ToolsOk(Remember(s, last.0, last.1), before + [last], mac)
  {
    assert (before + [last])[..|before|] == before;
  }

  lemma AliasStaysOk(s: State, before: seq<(Line, int)>, last: (Line, int), name: string)
    requires AliasOk(s, before, name) && DeviceOk(s, before, MacOf(last.0))
    ensures AliasOk(Remember(s, last.0, last.1), before + [last], name)
  {
    assert (before + [last])[..|before|] == before;
    if NamesDevice(last.0) {
      DeviceStaysOk(s, before, last, MacOf(last.0));
    }
  }

  lemma {:induction false} NamedWasAnnounced(lines: seq<(Line, int)>, mac: string)
    requires NameOf(lines, mac).Some?
    ensures Announced(lines, mac)
  {
    var last := |lines| - 1;
    assert lines[..last] + [lines[last]] == lines;
    AnnouncedOneMore(lines[..last], lines[last], mac);
    if !Announces(lines[last].0, mac) {
      NamedWasAnnounced(lines[..last], mac);
    }
  }

  lemma AnnouncedOneMore(before: seq<(Line, int)>, last: (Line, int), mac: string)
    ensures Announced(before + [last], mac)
            <==> Announced(before, mac) || Announces(last.0, mac)
  {
    var lines := before + [last];
    if Announced(before, mac) {
      var i :| 0 <= i < |before| && Announces(before[i].0, mac);
      assert lines[i] == before[i];
    }
    assert lines[|before|] == last;
  }

  // Any other name leads to the device last known by it, if there is one, and
  // that is a known device.
  lemma ResolvedIsKnown(lines: seq<(Line, int)>, name: string)
    requires !IsMac(name)
    ensures Resolve(After(lines), name) == LastKnownAs(lines, name)
    ensures Resolve(After(lines), name).Some? ==> Resolve(After(lines), name).value in After(lines).devices
  {
    TablesTellHistory(lines);
    assert AliasOk(After(lines), lines, name);
    if LastKnownAs(lines, name).Some? {
      KnownWasAnnounced(lines, name);
      assert DeviceOk(After(lines), lines, LastKnownAs(lines, name).value);
    }
  }

  lemma {:induction false} KnownWasAnnounced(lines: seq<(Line, int)>, name: string)
    requires LastKnownAs(lines, name).Some?
    ensures Announced(lines, LastKnownAs(lines, name).value)
  {
    var last := |lines| - 1;
    if !(NamesDevice(lines[last].0) && NameOf(lines, MacOf(lines[last].0)) == Some(name)) {
      KnownWasAnnounced(lines[..last], name);
      AnnouncedOneMore(lines[..last], lines[last], LastKnownAs(lines, name).value);
      assert lines[..last] + [lines[last]] == lines;
    }
  }

  // Reading a device line twice, as a scan does, changes nothing but the time.
  lemma DeviceLineTwice(s: State, line: Line, now: int, later: int)
    requires NamesDevice(line)
    ensures Remember(Remember(s, line, now), line, later) == Remember(s, line, later)
  {
    var mac := MacOf(line);
    var once, twice := Remember(s, line, now), Remember(Remember(s, line, now), line, later);
    assert twice.devices == s.devices[mac := twice.devices[mac]];
    assert twice.aliases == once.aliases;
  }

  // The addresses the firmware prints are valid keys, already in lower case.
  lemma PrintedMacIsAccepted(mac: Mac)
    ensures IsMac(MacText(mac)) && Lower(MacText(mac)) == MacText(mac)
  {
    MacTextShape(mac);
  }

  lemma PairScans(s: string)
    requires |s| >= 2 && IsHex(s[0]) && IsHex(s[1])
    ensures HexValue(s[0]).Some? && HexValue(s[1]).Some?
    ensures ScanOctet(s) == Some((16 * HexValue(s[0]).value + HexValue(s[1]).value, s[2..]))
    ensures OctetText(16 * HexValue(s[0]).value + HexValue(s[1]).value) == [LowerChar(s[0]), LowerChar(s[1])]
  {
    PairText(HexValue(s[0]).value, HexValue(s[1]).value);
    DigitLower(s[0]);
    DigitLower(s[1]);
  }

  lemma PairText(h: nat, l: nat)
    requires h < 16 && l < 16
    ensures OctetText(16 * h + l) == [HexDigit(h), HexDigit(l)]
  {
    assert (16 * h + l) / 16 == h && (16 * h + l) % 16 == l;
  }

  lemma DigitLower(c: char)
    requires IsHex(c)
    ensures HexValue(c).Some? && HexDigit(HexValue(c).value) == LowerChar(c)
  {
  }

  predicate IsPattern(s: string, n: nat) {
    0 < n && |s| == 3 * n - 1
    && forall i | 0 <= i < |s| :: if i % 3 == 2 then s[i] == ':' else IsHex(s[i])
  }

  lemma PatternRest(s: string, n: nat)
    requires IsPattern(s, n) && n > 1
    ensures IsHex(s[0]) && IsHex(s[1]) && s[2] == ':' && s[2..][1..] == s[3..] && IsPattern(s[3..], n - 1)
  {
    var t := s[3..];
    forall i | 0 <= i < |t|
      ensures if i % 3 == 2 then t[i] == ':' else IsHex(t[i])
    {
      assert t[i] == s[i + 3];
    }
  }

  // What matches the interface's pattern is an address to the firmware, and its
  // lower case is the text the firmware prints for that address.
  lemma {:induction false} PatternIsText(s: string, n: nat)
    requires IsPattern(s, n)
    ensures ScanMac(s, n).Some? && MacText(ScanMac(s, n).value) == Lower(s)
  {
    assert IsHex(s[0]) && IsHex(s[1]);
    PairScans(s);
    if n > 1 {
      PatternRest(s, n);
      PatternIsText(s[3..], n - 1);
      MacTextCons(ScanOctet(s).value.0, ScanMac(s[3..], n - 1).value);
      LowerPieces(s);
      assert ScanMac(s, n) == Some([ScanOctet(s).value.0] + ScanMac(s[3..], n - 1).value);
    } else {
      assert s == [s[0], s[1]];
    }
  }

  lemma MacTextCons(b: byte, rest: seq<byte>)
    requires rest != []
    ensures MacText([b] + rest) == OctetText(b) + (":" + MacText(rest))
  {
    assert ([b] + rest)[1..] == rest;
  }

  lemma LowerPieces(s: string)
    requires |s| > 2 && s[2] == ':'
    ensures Lower(s) == [LowerChar(s[0]), LowerChar(s[1])] + (":" + Lower(s[3..]))
  {
  }

  lemma MacIsTarget(mac: string)
    requires IsMac(mac)
    ensures HostInterface.CWord(mac) && HostInterface.Utf8(mac) == mac && IsMacText(mac)
  {
    HostInterface.Utf8Ascii(mac);
    PatternIsText(mac, 6);
  }

  // An id that is a MAC resolves to the firmware's text for the same six octets,
  // whatever its case; one the firmware has printed resolves to itself.
  lemma ResolvedMac(s: State, id: string, mac: Mac)
    ensures IsMac(id) ==> ScanMac(id, 6).Some? && Resolve(s, id) == Some(MacText(ScanMac(id, 6).value))
    ensures Resolve(s, MacText(mac)) == Some(MacText(mac))
  {
    if IsMac(id) {
      PatternIsText(id, 6);
    }
    PrintedMacIsAccepted(mac);
  }

  lemma ResolvedIsMac(lines: seq<(Line, int)>, id: string)
    requires Resolve(After(lines), id).Some?
    ensures IsMac(Resolve(After(lines), id).value)
  {
    if !IsMac(id) {
      ResolvedIsKnown(lines, id);
      KnownIsMac(lines, id);
    }
  }

  lemma {:induction false} KnownIsMac(lines: seq<(Line, int)>, name: string)
    requires LastKnownAs(lines, name).Some?
    ensures IsMac(LastKnownAs(lines, name).value)
  {
    var last := lines[|lines| - 1].0;
    if !(NamesDevice(last) && NameOf(lines, MacOf(last)) == Some(name)) {
      KnownIsMac(lines[..|lines| - 1], name);
    }
  }

  // From the caller of the interface to the firmware: whatever lines were read
  // before, a device id that resolves names an address the firmware accepts, and
  // the call is handled as it was meant exactly under the conditions on tool
  // name, payload and length.
  lemma CallToolArrivesIff(lines: seq<(Line, int)>, id: string, tool: string, payload: string)
    requires Resolve(After(lines), id).Some? && HostInterface.JsonEdges(payload)
    ensures IsMac(id) ==> ScanMac(id, 6).Some? && Resolve(After(lines), id) == Some(MacText(ScanMac(id, 6).value))
    ensures !IsMac(id) ==> Resolve(After(lines), id) == LastKnownAs(lines, id)
    ensures var mac := Resolve(After(lines), id).value;
            HostInterface.CallReceived((s: string) => IsMacText(s), mac, tool, payload)
            == [Handled(Call(mac, HostInterface.Utf8(tool), HostInterface.Utf8(payload)))]
            <==> && HostInterface.CWord(tool) && HostInterface.PyTight(payload) && IsPlain(payload)
                 && |HostInterface.CallSent(mac, tool, payload)| <= LINE_BUF_LEN
  {
    var mac := Resolve(After(lines), id).value;
    ResolvedIsMac(lines, id);
    if IsMac(id) {
      ResolvedMac(After(lines), id, [0, 0, 0, 0, 0, 0]);
    } else {
      ResolvedIsKnown(lines, id);
    }
    MacIsTarget(mac);
    HostInterface.CallRoundTripIff((s: string) => IsMacText(s), mac, tool, payload);
  }

  // A parsed line as the tables see it; `info` and `name` come from its JSON text.
  function LineOf(p: ParsedLine, info: Option<string>, name: Option<string>): Line {
    Line(p.kind, IntField(p.fields, "xid"), if "mac" in p.fields then Some(p.fields["mac"]) else None,
         IntField(p.fields, "rssi"), if "cmd" in p.fields then Some(p.fields["cmd"]) else None,
         "reason" in p.fields, info, name)
  }

  // From the firmware's event to the interface.  Whatever line Python reads
  // first after the event was printed answers exactly the requests with its xid
  // that wait for its kind, and concerns exactly the device it came from; and it
  // carries the event's JSON text exactly if that arrives whole and tight.
  lemma PrintedEventIsUnderstood(decode: string -> string, k: EventKind, xid: u16, mac: Mac, rssi: int, json: string,
                                 later: string, info: Option<string>, name: Option<string>,
                                 kinds: set<string>, waited: int)
    requires IsDecoder(decode) && IsInt32(rssi)
    ensures var p := Received(decode, Stream(k, xid, mac, rssi, json, later));
            && (Arrives(k, xid, mac, rssi, json) ==> p.Some?)
            && (p.Some? ==>
                  && var line := LineOf(p.value, info, name);
                  && (Answers(line, kinds, waited) <==> waited == xid && KindText(k) in kinds)
                  && (Answers(line, {"result"}, waited) <==> waited == xid && k == ToolResult)
                  && (Answers(line, {"result", "error"}, waited) <==> waited == xid && k in {ToolResult, ErrorEvent})
                  && (Answers(line, {"tools"}, waited) <==> waited == xid && k == ToolsListed)
                  && (Answers(line, {"pong"}, waited) <==> waited == xid && k == Pong)
                  && MacOf(line) == MacText(mac) && line.rssi == Some(rssi)
                  && (NamesDevice(line) <==> k == DeviceFound)
                  && (p.value.json == Some(decode(Visible(json)))
                      <==> Arrives(k, xid, mac, rssi, json) && TightEnd(decode(Visible(json)))))
  {
    NumbersRead(xid, mac, rssi);
    PrintedMacIsAccepted(mac);
    FramedIff(k, xid, mac, rssi, json, later);
    EventArrivesIff(decode, k, xid, mac, rssi, json, later);
    if ReadLine(Stream(k, xid, mac, rssi, json, later)).Some? {
      var body := EventIsRecognised(decode, k, xid, mac, rssi, json, later);
    }
  }

  // ---------------------------------------------------------------------
  // The firmware's answer to a command, as the interface reads it

  lemma XidShape(xid: u16)
    ensures NoSpace(PrintNat(xid)) && IsPrintable(PrintNat(xid)) && |PrintNat(xid)| <= 5
    ensures PyInt(PrintNat(xid)) == Some(xid)
  {
    PrintNatLength(xid, 5);
    PyIntPrintInt(xid);
    assert PrintInt(xid) == PrintNat(xid);
    assert forall i | 0 <= i < |PrintNat(xid)| :: IsDigit(PrintNat(xid)[i]);
  }

  // A short printable word.
  predicate IsName(s: string) {
    s != [] && |s| <= 20 && NoSpace(s) && IsPrintable(s)
  }

  lemma NamedField(name: string, value: string)
    requires IsName(name) && name[0] != 'j' && IsName(value)
    ensures var f := Field(name, value); f != [] && f[0] != 'j' && NoSpace(f) && IsPrintable(f) && |f| <= 41
  {
  }

  // The line the firmware prints when it has sent a request.
  function OkText(cmd: string, xid: u16): string {
    "ok cmd=" + cmd + " xid=" + PrintNat(xid)
  }

  lemma OkSpaced(cmd: string, number: string)
    ensures Spaced(["ok", Field("cmd", cmd), Field("xid", number)]) == "ok cmd=" + cmd + " xid=" + number
  {
    var c, x := Field("cmd", cmd), Field("xid", number);
    assert ["ok", c, x][1..] == [c, x] && [c, x][1..] == [x];
    assert Spaced([c, x]) == c + " " + x;
    assert "ok" + " " + (c + " " + x) == "ok cmd=" + cmd + " xid=" + number;
  }

  lemma OkAreTokens(cmd: string, number: string)
    requires IsName(cmd) && IsName(number)
    ensures AreTokens(["ok", Field("cmd", cmd), Field("xid", number)])
  {
    NamedField("cmd", cmd);
    NamedField("xid", number);
  }

  lemma OkShape(cmd: string, number: string)
    requires IsName(cmd) && IsName(number)
    ensures IsPrintable("ok cmd=" + cmd + " xid=" + number) && |"ok cmd=" + cmd + " xid=" + number| < 100
  {
    JoinShape("ok cmd=", cmd, " xid=", number);
  }

  lemma OkArrives(decode: string -> string, cmd: string, xid: u16, later: string)
    requires IsDecoder(decode) && IsName(cmd)
    ensures var stream := SerialPrintf(OkText(cmd, xid) + "\r\n") + later;
            && ReadLine(stream) == Some((OkText(cmd, xid) + "\r\n", later))
            && Received(decode, stream) == Some(ParsedLine("ok", map["cmd" := cmd, "xid" := PrintNat(xid)], None))
  {
    var number := PrintNat(xid);
    var tokens := ["ok", Field("cmd", cmd), Field("xid", number)];
    XidShape(xid);
    OkSpaced(cmd, number);
    OkAreTokens(cmd, number);
    OkShape(cmd, number);
    TokensArrive(decode, OkText(cmd, xid), tokens, later);
    OkFields(cmd, xid);
    assert tokens[1..] == [Field("cmd", cmd), Field("xid", number)];
  }

  lemma OkFields(cmd: string, xid: u16)
    ensures Fields([Field("cmd", cmd), Field("xid", PrintNat(xid))]) == map["cmd" := cmd, "xid" := PrintNat(xid)]
  {
    var c, x := Field("cmd", cmd), Field("xid", PrintNat(xid));
    FieldAdded([], "cmd", cmd);
    FieldAdded([c], "xid", PrintNat(xid));
    assert [] + [c] == [c] && [c] + [x] == [c, x];
  }

  // It settles the command it names, with its xid, and no other; nor is it taken
  // for an event.
  lemma PrintedOkIsAccepted(decode: string -> string, cmd: string, xid: u16, later: string)
    requires IsDecoder(decode) && IsName(cmd)
    ensures var stream := SerialPrintf(OkText(cmd, xid) + "\r\n") + later;
            && ReadLine(stream).Some? && ReadLine(stream).value.1 == later
            && Received(decode, stream).Some?
            && var line := LineOf(Received(decode, stream).value, None, None);
            && (forall other :: IsOk(line, other) <==> other == cmd)
            && Verdict(line, cmd) == Ok(xid)
            && (forall waited: int :: !Answers(line, CALL_EVENTS, waited))
  {
    OkArrives(decode, cmd, xid, later);
    XidShape(xid);
  }

  // The line "error reason=..." refuses whatever command is waited for.
  lemma PrintedErrorIsRefused(decode: string -> string, reason: string, cmd: string, later: string)
    requires IsDecoder(decode) && IsName(reason)
    ensures var stream := SerialPrintf("error reason=" + reason + "\r\n") + later;
            && ReadLine(stream).Some? && ReadLine(stream).value.1 == later
            && Received(decode, stream).Some?
            && var line := LineOf(Received(decode, stream).value, None, None);
            Decides(line, cmd) && Verdict(line, cmd) == Err(Refused)
  {
    ErrorArrives(decode, reason, later);
  }

  lemma ErrorArrives(decode: string -> string, reason: string, later: string)
    requires IsDecoder(decode) && IsName(reason)
    ensures var stream := SerialPrintf("error reason=" + reason + "\r\n") + later;
            && ReadLine(stream) == Some(("error reason=" + reason + "\r\n", later))
            && Received(decode, stream) == Some(ParsedLine("error", map["reason" := reason], None))
  {
    var f := Field("reason", reason);
    var tokens := ["error", f];
    NamedField("reason", reason);
    ErrorSpaced(reason);
    TokensArrive(decode, "error reason=" + reason, tokens, later);
    FieldAdded([], "reason", reason);
    assert [] + [f] == [f] == tokens[1..];
  }

  lemma ErrorSpaced(reason: string)
    ensures Spaced(["error", Field("reason", reason)]) == "error reason=" + reason
  {
    var f := Field("reason", reason);
    assert ["error", f][1..] == [f];
    assert "error" + " " + f == "error reason=" + reason;
  }

  // When a call is refused, and when it ends with an error the device reported.
  lemma CallFailsIff(input: seq<(Line, int)>, okBy: nat, eventBy: nat, k: nat, e: nat)
    requires k < okBy <= eventBy <= |input| && Decides(input[k].0, "call")
    requires forall i | 0 <= i < k :: !Decides(input[i].0, "call")
    ensures CallOutcome(input, okBy, eventBy) == NotAccepted(Refused)
            <==> input[k].0.kind == "error" && (input[k].0.cmd == Some("call") || input[k].0.hasReason)
    ensures CallOutcome(input, okBy, eventBy) == NotAccepted(NoXid)
            <==> input[k].0.kind == "ok" && input[k].0.xid.None?
    ensures CallOutcome(input, okBy, eventBy) == ErrorLine(e)
            <==> && input[k].0.kind == "ok" && input[k].0.xid.Some?
                 && var xid := input[k].0.xid.value;
                 && k < e < eventBy && Answers(input[e].0, {"error"}, xid)
                 && forall i | k < i < e :: !Answers(input[i].0, {"result", "error"}, xid)
  {
    assert input[..okBy][k] == input[k];
    assert DecisionIn(input[..okBy], "call") == k;
    if input[k].0.kind == "ok" && input[k].0.xid.Some? {
      ErrorLineIff(input, okBy, eventBy, k, input[k].0.xid.value, e);
    }
  }

  lemma ErrorLineIff(input: seq<(Line, int)>, okBy: nat, eventBy: nat, k: nat, xid: int, e: nat)
    requires k < okBy <= eventBy <= |input| && DecisionIn(input[..okBy], "call") == k
    requires IsOk(input[k].0, "call") && input[k].0.xid == Some(xid)
    ensures CallOutcome(input, okBy, eventBy) == ErrorLine(e)
            <==> && k < e < eventBy && Answers(input[e].0, {"error"}, xid)
                 && forall i | k < i < e :: !Answers(input[i].0, {"result", "error"}, xid)
  {
    var tail := input[k + 1..eventBy];
    var a := AnswerIn(tail, CALL_EVENTS, xid);
    assert forall i | 0 <= i < |tail| :: tail[i] == input[k + 1 + i];
    assert forall i | k < i < eventBy :: input[i] == tail[i - k - 1];
  }

  // From the firmware's two lines to the caller: if a call is accepted, and the
  // next thing printed is an event under its xid, then the call returns that
  // event if it is a result, fails with it if it is an error, and waits in vain
  // if it is of any other kind.
  lemma PrintedReplyIsReturned(decode: string -> string, k: EventKind, xid: u16, mac: Mac, rssi: int, json: string,
                               later: string, info: Option<string>, name: Option<string>, early: int, now: int)
    requires IsDecoder(decode) && IsInt32(rssi) && Arrives(k, xid, mac, rssi, json)
    ensures var rest := Stream(k, xid, mac, rssi, json, later);
            var stream := SerialPrintf(OkText("call", xid) + "\r\n") + rest;
            && ReadLine(stream).Some? && ReadLine(stream).value.1 == rest
            && Received(decode, stream).Some? && Received(decode, rest).Some?
            && var input := [(LineOf(Received(decode, stream).value, None, None), early),
                             (LineOf(Received(decode, rest).value, info, name), now)];
            CallOutcome(input, 2, 2)
            == if k == ToolResult then Reply(1) else if k == ErrorEvent then ErrorLine(1) else NoEvent
  {
    var rest := Stream(k, xid, mac, rssi, json, later);
    var stream := SerialPrintf(OkText("call", xid) + "\r\n") + rest;
    PrintedOkIsAccepted(decode, "call", xid, rest);
    PrintedEventIsUnderstood(decode, k, xid, mac, rssi, json, later, info, name, CALL_EVENTS, xid);
    TwoLines(LineOf(Received(decode, stream).value, None, None), LineOf(Received(decode, rest).value, info, name),
             xid, early, now);
  }

  lemma TwoLines(ok: Line, event: Line, xid: int, early: int, now: int)
    requires IsOk(ok, "call") && Verdict(ok, "call") == Ok(xid)
    ensures CallOutcome([(ok, early), (event, now)], 2, 2)
            == if Answers(event, {"result"}, xid) then Reply(1)
               else if Answers(event, {"result", "error"}, xid) then ErrorLine(1) else NoEvent
  {
    var input := [(ok, early), (event, now)];
    CallReturnsIff(input, 2, 2, 0, xid, 1);
    CallFailsIff(input, 2, 2, 0, 1);
  }
}
