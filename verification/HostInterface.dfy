// The Python side of the serial line: the commands it writes, and what the
// firmware makes of them.
module HostInterface {
  import opened Types
  import opened Decimal
  import opened Words
  import opened CommandLine
  import opened MacAddress

  // White space as str.strip and str.split see it.
  predicate PySpace(c: char) {
    var v := c as int;
    || 0x09 <= v <= 0x0d || 0x1c <= v <= 0x20 || v == 0x85 || v == 0xa0 || v == 0x1680
    || 0x2000 <= v <= 0x200a || v == 0x2028 || v == 0x2029 || v == 0x202f || v == 0x205f || v == 0x3000
  }

  // ---------------------------------------------------------------------
  // UTF-8, one octet a character

  function Utf8Char(c: char): (r: string)
    ensures r != []
    ensures c as int < 0x80 ==> r == [c]
    ensures c as int >= 0x80 ==> forall i | 0 <= i < |r| :: 0x80 <= r[i] as int < 0x100
  {
    var v := c as int;
    if v < 0x80 then [c]
    else if v < 0x800 then [(0xc0 + v / 0x40) as char, (0x80 + v % 0x40) as char]
    else if v < 0x1_0000 then
      [(0xe0 + v / 0x1000) as char, (0x80 + v / 0x40 % 0x40) as char, (0x80 + v % 0x40) as char]
    else
      [(0xf0 + v / 0x4_0000) as char, (0x80 + v / 0x1000 % 0x40) as char,
       (0x80 + v / 0x40 % 0x40) as char, (0x80 + v % 0x40) as char]
  }

  function Utf8(s: string): string {
    if s == [] then [] else Utf8Char(s[0]) + Utf8(s[1..])
  }

  lemma {:induction false} Utf8Concat(a: string, b: string)
    ensures Utf8(a + b) == Utf8(a) + Utf8(b)
  {
    if a == [] {
      assert a + b == b;
    } else {
      assert (a + b)[1..] == a[1..] + b;
      Utf8Concat(a[1..], b);
    }
  }

  // Every octet is an ASCII character of the text or lies outside ASCII.
  lemma {:induction false} Utf8Octets(s: string)
    ensures forall i | 0 <= i < |Utf8(s)| :: Utf8(s)[i] in s || Utf8(s)[i] as int >= 0x80
  {
    if s != [] {
      Utf8Octets(s[1..]);
      assert s[0] in s;
      assert Utf8(s) == Utf8Char(s[0]) + Utf8(s[1..]);
    }
  }

  predicate IsAscii(s: string) {
    forall i | 0 <= i < |s| :: s[i] as int < 0x80
  }

  // ASCII text is its own encoding.
  lemma {:induction false} Utf8Ascii(s: string)
    requires IsAscii(s)
    ensures Utf8(s) == s
  {
    if s != [] {
      Utf8Ascii(s[1..]);
    }
  }

  lemma Utf8Plain(s: string)
    requires IsPlain(s)
    ensures IsPlain(Utf8(s))
  {
    Utf8Octets(s);
    forall i | 0 <= i < |Utf8(s)|
      ensures !EndsLine(Utf8(s)[i]) && !Erases(Utf8(s)[i]) && Utf8(s)[i] != '\0'
    {
      if Utf8(s)[i] in s {
        var j :| 0 <= j < |s| && s[j] == Utf8(s)[i];
      }
    }
  }

  // Text with no white space around it.
  predicate PyTight(s: string) {
    s != [] && !PySpace(s[0]) && !PySpace(s[|s| - 1])
  }

  lemma Utf8Head(s: string)
    requires s != []
    ensures Utf8(s) != [] && Utf8(s)[0] == Utf8Char(s[0])[0]
  {
    assert Utf8(s) == Utf8Char(s[0]) + Utf8(s[1..]);
  }

  lemma Utf8Last(s: string)
    requires s != []
    ensures var last := Utf8Char(s[|s| - 1]);
            Utf8(s) != [] && Utf8(s)[|Utf8(s)| - 1] == last[|last| - 1]
  {
    var n := |s| - 1;
    assert s == s[..n] + [s[n]];
    Utf8Concat(s[..n], [s[n]]);
    Utf8Single(s[n]);
  }

  lemma Utf8Single(c: char)
    ensures Utf8([c]) == Utf8Char(c)
  {
    assert Utf8([c]) == Utf8Char(c) + Utf8([]);
  }

  // White space is one octet, and the octets of other characters are not white space.
  lemma Utf8Edges(s: string)
    requires s != []
    ensures Utf8(s) != []
    ensures IsSpace(Utf8(s)[0]) <==> IsSpace(s[0])
    ensures IsSpace(Utf8(s)[|Utf8(s)| - 1]) <==> IsSpace(s[|s| - 1])
  {
    Utf8Head(s);
    Utf8Last(s);
  }

  lemma Utf8Tight(s: string)
    requires PyTight(s)
    ensures var u := Utf8(s); u != [] && !IsSpace(u[0]) && !IsSpace(u[|u| - 1])
  {
    Utf8Edges(s);
  }

  // ---------------------------------------------------------------------
  // Commands

  function RStrip(s: string): string {
    if s != [] && PySpace(s[|s| - 1]) then RStrip(s[..|s| - 1]) else s
  }

  function WriteCommand(command: string): string {
    Utf8(RStrip(command) + "\n")
  }

  function CallCommand(mac: string, tool: string, payload: string): string {
    "call " + mac + " " + tool + " " + payload
  }

  // One word to the firmware.
  predicate CWord(s: string) {
    IsPlain(s) && IsWord(Utf8(s))
  }

  predicate GoodTarget(macOk: string -> bool, mac: string, tool: string) {
    CWord(mac) && CWord(tool) && macOk(Utf8(mac))
  }

  lemma MacTextIsWord(mac: Mac)
    ensures CWord(MacText(mac)) && Utf8(MacText(mac)) == MacText(mac)
  {
    MacTextShape(mac);
    Utf8Ascii(MacText(mac));
  }

  lemma MacTextScans(mac: Mac)
    ensures IsMacText(MacText(mac))
  {
    MacRoundTrip(mac, []);
    assert MacText(mac) + [] == MacText(mac);
  }

  // Every address the firmware prints makes a good target.
  lemma PrintedMacIsGoodTarget(mac: Mac, tool: string)
    requires CWord(tool)
    ensures GoodTarget((s: string) => IsMacText(s), MacText(mac), tool)
  {
    MacTextIsWord(mac);
    MacTextScans(mac);
  }

  // The octets of a call command, and what the firmware does on receiving them.
  function CallSent(mac: string, tool: string, payload: string): string {
    WriteCommand(CallCommand(mac, tool, payload))
  }

  function CallReceived(macOk: string -> bool, mac: string, tool: string, payload: string): seq<Event> {
    Assemble(macOk, [], CallSent(mac, tool, payload))
  }

  // The octets of a call command that is written.
  lemma CallOctets(mac: string, tool: string, payload: string)
    requires PyTight(payload)
    ensures CallSent(mac, tool, payload)
            == "call " + Utf8(mac) + " " + Utf8(tool) + " " + Utf8(payload) + "\n"
  {
    var command := CallCommand(mac, tool, payload);
    assert command[|command| - 1] == payload[|payload| - 1];
    Utf8Concat(command, "\n");
    Utf8Concat("call " + mac + " " + tool + " ", payload);
    Utf8Concat("call " + mac + " " + tool, " ");
    Utf8Concat("call " + mac + " ", tool);
    Utf8Concat("call " + mac, " ");
    Utf8Concat("call ", mac);
    Utf8Ascii("call ");
    Utf8Ascii(" ");
    Utf8Ascii("\n");
  }

  lemma ArgumentsAreParsed(macOk: string -> bool, mac: string, tool: string, payload: string)
    requires IsWord(mac) && IsWord(tool) && macOk(mac) && payload != [] && !IsSpace(payload[0])
    ensures ParseCall(macOk, mac + " " + tool + " " + payload) == Call(mac, tool, payload)
  {
    assert mac + " " + tool + " " + payload == [] + mac + [' '] + (tool + " " + payload);
    FirstWord([], mac, ' ', tool + " " + payload);
    assert tool + " " + payload == [] + tool + [' '] + payload;
    FirstWord([], tool, ' ', payload);
  }

  // How the firmware takes a call command apart.
  lemma CallIsParsed(macOk: string -> bool, mac: string, tool: string, payload: string, spaces: string)
    requires IsWord(mac) && IsWord(tool) && macOk(mac) && AllSpaces(spaces)
    requires payload != [] && !IsSpace(payload[0]) && !IsSpace(payload[|payload| - 1])
    ensures Parse(macOk, Trim("call " + mac + " " + tool + " " + (payload + spaces))) == Call(mac, tool, payload)
  {
    var args := mac + " " + tool + " " + payload;
    var line := "call " + args;
    assert "call " + mac + " " + tool + " " + (payload + spaces) == [] + line + spaces;
    assert line[|line| - 1] == payload[|payload| - 1];
    TrimExact([], line, spaces);
    CallName(macOk, args);
    ArgumentsAreParsed(macOk, mac, tool, payload);
  }

  // What the firmware makes of a call command up to a line break, if any.
  lemma CallUpToBreak(macOk: string -> bool, mac: string, tool: string, payload: string, spaces: string,
                      break_: char, rest: string)
    requires IsWord(mac) && IsWord(tool) && macOk(mac) && AllSpaces(spaces) && EndsLine(break_)
    requires payload != [] && !IsSpace(payload[0]) && !IsSpace(payload[|payload| - 1])
    requires IsPlain(mac) && IsPlain(tool) && IsPlain(payload) && IsPlain(spaces)
    requires |"call " + mac + " " + tool + " " + (payload + spaces)| < LINE_BUF_LEN
    ensures Assemble(macOk, [], "call " + mac + " " + tool + " " + (payload + spaces) + [break_] + rest)
            == [Handled(Call(mac, tool, payload))] + Assemble(macOk, [], rest)
  {
    var line := "call " + mac + " " + tool + " " + (payload + spaces);
    PlainCall(mac, tool, payload + spaces);
    LineIsDelivered(macOk, line, break_, rest);
    CallIsParsed(macOk, mac, tool, payload, spaces);
  }

  lemma PlainCall(mac: string, tool: string, payload: string)
    requires IsPlain(mac) && IsPlain(tool) && IsPlain(payload)
    ensures IsPlain("call " + mac + " " + tool + " " + payload)
  {
    assert IsPlain("call ") && IsPlain(" ");
  }

  // A call command that fits the line buffer reaches the firmware as the three
  // texts it was made of, white space inside the payload included.
  lemma CallRoundTrip(macOk: string -> bool, mac: string, tool: string, payload: string)
    requires GoodTarget(macOk, mac, tool) && PyTight(payload) && IsPlain(payload)
    requires |CallSent(mac, tool, payload)| <= LINE_BUF_LEN
    ensures CallReceived(macOk, mac, tool, payload) == [Handled(Call(Utf8(mac), Utf8(tool), Utf8(payload)))]
  {
    CallOctets(mac, tool, payload);
    GoodOctets(macOk, mac, tool);
    Utf8Plain(payload);
    Utf8Tight(payload);
    var p := Utf8(payload);
    assert p + [] == p;
    CallUpToBreak(macOk, Utf8(mac), Utf8(tool), p, [], '\n', []);
    var octets := "call " + Utf8(mac) + " " + Utf8(tool) + " " + p + "\n";
    assert octets == octets + [];
  }

  lemma GoodOctets(macOk: string -> bool, mac: string, tool: string)
    requires GoodTarget(macOk, mac, tool)
    ensures IsWord(Utf8(mac)) && IsWord(Utf8(tool)) && IsPlain(Utf8(mac)) && IsPlain(Utf8(tool))
  {
    Utf8Plain(mac);
    Utf8Plain(tool);
  }

  // The same for payload octets that may end in white space.
  lemma CutAtBreak(macOk: string -> bool, mac: string, tool: string, payload: string, break_: char, rest: string)
    requires IsWord(mac) && IsWord(tool) && macOk(mac) && EndsLine(break_)
    requires payload != [] && !IsSpace(payload[0])
    requires IsPlain(mac) && IsPlain(tool) && IsPlain(payload)
    requires |"call " + mac + " " + tool + " " + payload| < LINE_BUF_LEN
    ensures Assemble(macOk, [], "call " + mac + " " + tool + " " + payload + [break_] + rest)
            == [Handled(Call(mac, tool, DropTrailing(payload)))] + Assemble(macOk, [], rest)
  {
    var p := DropTrailing(payload);
    DropKeepsFirst(payload);
    var spaces := payload[|p|..];
    assert payload == p + spaces;
    CallUpToBreak(macOk, mac, tool, p, spaces, break_, rest);
  }

  lemma FirstIsSound(first: string, break_: char, rest: string)
    requires PyTight(first + [break_] + rest) && EndsLine(break_)
    ensures Utf8(first) != [] && !IsSpace(Utf8(first)[0])
  {
    assert (first + [break_] + rest)[0] == if first == [] then break_ else first[0];
    Utf8Edges(first);
  }

  lemma BrokenOctets(mac: string, tool: string, first: string, break_: char, rest: string)
    requires PyTight(first + [break_] + rest) && EndsLine(break_)
    ensures CallSent(mac, tool, first + [break_] + rest)
            == "call " + Utf8(mac) + " " + Utf8(tool) + " " + Utf8(first) + [break_] + (Utf8(rest) + "\n")
    ensures |"call " + Utf8(mac) + " " + Utf8(tool) + " " + Utf8(first)|
            < |CallSent(mac, tool, first + [break_] + rest)|
    ensures Utf8(first) != [] && !IsSpace(Utf8(first)[0])
  {
    FirstIsSound(first, break_, rest);
    CallOctets(mac, tool, first + [break_] + rest);
    BreakOctets(first, break_, rest);
    var before := "call " + Utf8(mac) + " " + Utf8(tool) + " ";
    assert before + (Utf8(first) + [break_] + Utf8(rest)) + "\n"
        == before + Utf8(first) + [break_] + (Utf8(rest) + "\n");
  }

  // A payload with a line break in it is cut there, and what follows the break
  // is read as a command of its own.
  lemma BrokenCall(macOk: string -> bool, mac: string, tool: string, first: string, break_: char, rest: string)
    requires GoodTarget(macOk, mac, tool) && PyTight(first + [break_] + rest) && IsPlain(first) && EndsLine(break_)
    requires |CallSent(mac, tool, first + [break_] + rest)| <= LINE_BUF_LEN
    ensures CallReceived(macOk, mac, tool, first + [break_] + rest)
            == [Handled(Call(Utf8(mac), Utf8(tool), DropTrailing(Utf8(first))))]
             + Assemble(macOk, [], Utf8(rest) + "\n")
  {
    BrokenOctets(mac, tool, first, break_, rest);
    GoodOctets(macOk, mac, tool);
    Utf8Plain(first);
    CutAtBreak(macOk, Utf8(mac), Utf8(tool), Utf8(first), break_, Utf8(rest) + "\n");
  }

  lemma BreakOctets(first: string, break_: char, rest: string)
    requires EndsLine(break_)
    ensures Utf8(first + [break_] + rest) == Utf8(first) + [break_] + Utf8(rest)
  {
    Utf8Concat(first + [break_], rest);
    Utf8Concat(first, [break_]);
    Utf8Ascii([break_]);
  }

  lemma {:induction false} DropKeepsFirst(s: string)
    requires s != [] && !IsSpace(s[0])
    ensures DropTrailing(s) != [] && DropTrailing(s)[0] == s[0]
  {
    if IsSpace(s[|s| - 1]) {
      DropKeepsFirst(s[..|s| - 1]);
    }
  }

  // ---------------------------------------------------------------------
  // The exact condition

  // A buffer never holds characters that end lines or erase.
  predicate Typed(s: string) {
    forall i | 0 <= i < |s| :: !EndsLine(s[i]) && !Erases(s[i])
  }

  lemma {:induction false} VisibleIsPlain(s: string)
    requires Typed(s)
    ensures IsPlain(Visible(s))
  {
    assert forall i | 0 <= i < |Visible(s)| :: Visible(s)[i] in Visible(s);
  }

  lemma {:induction false} SkippedIsPlain(s: string)
    requires IsPlain(s)
    ensures IsPlain(SkipSpaces(s))
  {
    if s != [] && IsSpace(s[0]) {
      SkippedIsPlain(s[1..]);
    }
  }

  lemma RestIsPlain(s: string)
    requires IsPlain(s)
    ensures IsPlain(Rest(s))
  {
    SkippedIsPlain(s);
  }

  predicate EndsTight(s: string) {
    s != [] ==> !IsSpace(s[|s| - 1])
  }

  lemma {:induction false} SkippedEndsTight(s: string)
    requires EndsTight(s)
    ensures EndsTight(SkipSpaces(s))
  {
    if s != [] && IsSpace(s[0]) {
      SkippedEndsTight(s[1..]);
    }
  }

  lemma RestEndsTight(s: string)
    requires EndsTight(s)
    ensures EndsTight(Rest(s))
  {
    SkippedEndsTight(s);
  }

  // Text with no white space around it, as the firmware sees it.
  predicate CTight(s: string) {
    s != [] && !IsSpace(s[0]) && EndsTight(s)
  }

  // The arguments of a call are cut from its line, or are the empty object.
  lemma ArgumentsAreTight(macOk: string -> bool, line: string)
    requires EndsTight(line) && Parse(macOk, line).Call?
    ensures CTight(Parse(macOk, line).arguments)
  {
    RestEndsTight(line);
    RestEndsTight(Rest(line));
    RestEndsTight(Rest(Rest(line)));
    SkippedEndsTight(Rest(Rest(Rest(line))));
  }

  lemma ArgumentsArePlain(macOk: string -> bool, line: string)
    requires IsPlain(line) && Parse(macOk, line).Call?
    ensures IsPlain(Parse(macOk, line).arguments)
  {
    RestIsPlain(line);
    RestIsPlain(Rest(line));
    RestIsPlain(Rest(Rest(line)));
    SkippedIsPlain(Rest(Rest(Rest(line))));
  }

  // So is the tool's name, which is one word.
  lemma ToolIsPlainWord(macOk: string -> bool, line: string)
    requires IsPlain(line) && Parse(macOk, line).Call?
    ensures IsPlain(Parse(macOk, line).tool) && IsWord(Parse(macOk, line).tool)
  {
    RestIsPlain(line);
    RestIsPlain(Rest(line));
    SkippedIsPlain(Rest(Rest(line)));
    HeadIsWord(SkipSpaces(Rest(Rest(line))));
  }

  predicate IsPlainCall(e: Event) {
    e.Handled? && e.command.Call? ==>
      && IsPlain(e.command.tool) && IsWord(e.command.tool)
      && IsPlain(e.command.arguments) && CTight(e.command.arguments)
  }

  lemma ByteKeepsTyped(macOk: string -> bool, text: string, c: char)
    requires Typed(text)
    ensures Typed(FeedByte(macOk, text, c).0)
    ensures forall e <- FeedByte(macOk, text, c).1 :: IsPlainCall(e)
  {
    VisibleIsPlain(text);
    SkippedIsPlain(Visible(text));
    var line := Trim(Visible(text));
    if EndsLine(c) && text != [] && Parse(macOk, line).Call? {
      ArgumentsArePlain(macOk, line);
      ArgumentsAreTight(macOk, line);
      ToolIsPlainWord(macOk, line);
    }
  }

  // Whatever is sent, no call the firmware makes of it has line breaks, erasing
  // characters or NULs in the tool's name or the arguments; nor is there white
  // space in the one or around the other.
  lemma {:induction false} CallsArePlain(macOk: string -> bool, text: string, input: string)
    requires Typed(text)
    ensures forall e <- Assemble(macOk, text, input) :: IsPlainCall(e)
    decreases |input|
  {
    if input != [] {
      ByteKeepsTyped(macOk, text, input[0]);
      CallsArePlain(macOk, FeedByte(macOk, text, input[0]).0, input[1..]);
    }
  }

  // Text that is plain in UTF-8 is plain.
  lemma {:induction false} PlainFromUtf8(s: string)
    requires IsPlain(Utf8(s))
    ensures IsPlain(s)
  {
    if s != [] {
      var u := Utf8(s);
      assert u == Utf8Char(s[0]) + Utf8(s[1..]);
      assert u[0] == Utf8Char(s[0])[0];
      assert forall i | 0 <= i < |Utf8(s[1..])| :: Utf8(s[1..])[i] == u[|Utf8Char(s[0])| + i];
      PlainFromUtf8(s[1..]);
      assert s == [s[0]] + s[1..];
    }
  }

  // A plain command that does not fit is reported as too long before anything else.
  lemma LongCallIsRefused(macOk: string -> bool, mac: string, tool: string, payload: string)
    requires GoodTarget(macOk, mac, tool) && PyTight(payload) && IsPlain(payload)
    requires |CallSent(mac, tool, payload)| > LINE_BUF_LEN
    ensures CallReceived(macOk, mac, tool, payload) != []
    ensures CallReceived(macOk, mac, tool, payload)[0] == LineTooLong
  {
    CallOctets(mac, tool, payload);
    GoodOctets(macOk, mac, tool);
    Utf8Plain(payload);
    PlainCall(Utf8(mac), Utf8(tool), Utf8(payload));
    var line := "call " + Utf8(mac) + " " + Utf8(tool) + " " + Utf8(payload);
    var n := LINE_BUF_LEN;
    assert line + "\n" == line[..n] + (line[n..] + "\n");
    LongLineIsSplit(macOk, line[..n], line[n..] + "\n");
  }

  // What is true of any text the JSON parser accepts: there is something, and
  // white space at either end is such to the firmware, too.
  predicate JsonEdges(payload: string) {
    && payload != []
    && (PySpace(payload[0]) ==> IsSpace(payload[0]))
    && (PySpace(payload[|payload| - 1]) ==> IsSpace(payload[|payload| - 1]))
  }

  lemma TightFromUtf8(s: string)
    requires JsonEdges(s) && CTight(Utf8(s))
    ensures PyTight(s)
  {
    Utf8Edges(s);
  }

  lemma TightRoundTripIff(macOk: string -> bool, mac: string, tool: string, payload: string)
    requires GoodTarget(macOk, mac, tool) && PyTight(payload) && IsPlain(payload)
    ensures CallReceived(macOk, mac, tool, payload) == [Handled(Call(Utf8(mac), Utf8(tool), Utf8(payload)))]
            <==> |CallSent(mac, tool, payload)| <= LINE_BUF_LEN
  {
    if |CallSent(mac, tool, payload)| <= LINE_BUF_LEN {
      CallRoundTrip(macOk, mac, tool, payload);
    } else {
      LongCallIsRefused(macOk, mac, tool, payload);
    }
  }

  // The round trip of a call works exactly for a tool name that is one word and
  // a payload with no white space around it, both without line breaks, erasing
  // characters and NULs, in a command that fits the line buffer.
  lemma CallRoundTripIff(macOk: string -> bool, mac: string, tool: string, payload: string)
    requires CWord(mac) && macOk(Utf8(mac)) && JsonEdges(payload)
    ensures CallReceived(macOk, mac, tool, payload) == [Handled(Call(Utf8(mac), Utf8(tool), Utf8(payload)))]
            <==> CWord(tool) && PyTight(payload) && IsPlain(payload) && |CallSent(mac, tool, payload)| <= LINE_BUF_LEN
  {
    var events, wanted := CallReceived(macOk, mac, tool, payload), Handled(Call(Utf8(mac), Utf8(tool), Utf8(payload)));
    if CWord(tool) && PyTight(payload) && IsPlain(payload) {
      TightRoundTripIff(macOk, mac, tool, payload);
    } else if events == [wanted] {
      CallsArePlain(macOk, [], CallSent(mac, tool, payload));
      assert wanted in events;
      PlainFromUtf8(tool);
      PlainFromUtf8(payload);
      TightFromUtf8(payload);
    }
  }

  // For instance, of a tool name of two words the second is taken for the start
  // of the arguments.
  lemma ToolNameIsSplit(macOk: string -> bool, mac: string, first: string, second: string, payload: string)
    requires GoodTarget(macOk, mac, first) && CWord(second) && PyTight(second + " " + payload) && IsPlain(payload)
    requires |CallSent(mac, first + " " + second, payload)| <= LINE_BUF_LEN
    ensures CallReceived(macOk, mac, first + " " + second, payload)
            == [Handled(Call(Utf8(mac), Utf8(first), Utf8(second + " " + payload)))]
  {
    assert CallCommand(mac, first + " " + second, payload) == CallCommand(mac, first, second + " " + payload);
    CallRoundTrip(macOk, mac, first, second + " " + payload);
  }

  lemma {:induction false} RStripPadding(s: string, padding: string)
    requires forall i | 0 <= i < |padding| :: PySpace(padding[i])
    ensures RStrip(s + padding) == RStrip(s)
  {
    if padding == [] {
      assert s + padding == s;
    } else {
      assert (s + padding)[..|s + padding| - 1] == s + padding[..|padding| - 1];
      RStripPadding(s, padding[..|padding| - 1]);
    }
  }

  // White space after the payload does no harm: it is not even sent.
  lemma TrailingSpaceIsNotSent(mac: string, tool: string, payload: string, padding: string)
    requires forall i | 0 <= i < |padding| :: PySpace(padding[i])
    ensures CallSent(mac, tool, payload + padding) == CallSent(mac, tool, payload)
  {
    RStripPadding(CallCommand(mac, tool, payload), padding);
    assert CallCommand(mac, tool, payload + padding) == CallCommand(mac, tool, payload) + padding;
  }

  // For instance, a character followed by DEL inside a JSON string, which the
  // JSON parser lets pass, is gone when the command is executed.
  lemma ErasedInCall(macOk: string -> bool, mac: string, tool: string, a: string, c: char, erase: char, b: string)
    requires GoodTarget(macOk, mac, tool) && PyTight(a + [c, erase] + b) && PyTight(a + b)
    requires IsPlain(a) && IsPlain([c]) && c as int < 0x80 && Erases(erase)
    requires |CallSent(mac, tool, a + [c, erase] + b)| <= LINE_BUF_LEN
    ensures CallReceived(macOk, mac, tool, a + [c, erase] + b) == CallReceived(macOk, mac, tool, a + b)
  {
    var typed, rest := "call " + Utf8(mac) + " " + Utf8(tool) + " " + Utf8(a), Utf8(b) + "\n";
    ErasedOctets(mac, tool, a, [c, erase], b);
    ErasedOctets(mac, tool, a, [], b);
    assert a + [] + b == a + b && [] + rest == rest;
    GoodOctets(macOk, mac, tool);
    Utf8Plain(a);
    PlainCall(Utf8(mac), Utf8(tool), Utf8(a));
    ErasedLater(macOk, typed, c, erase, rest);
  }

  lemma ErasedOctets(mac: string, tool: string, a: string, middle: string, b: string)
    requires PyTight(a + middle + b) && IsAscii(middle)
    ensures CallSent(mac, tool, a + middle + b)
            == "call " + Utf8(mac) + " " + Utf8(tool) + " " + Utf8(a) + (middle + (Utf8(b) + "\n"))
  {
    CallOctets(mac, tool, a + middle + b);
    Utf8Concat(a + middle, b);
    Utf8Concat(a, middle);
    Utf8Ascii(middle);
    Regroup("call " + Utf8(mac) + " " + Utf8(tool) + " ", Utf8(a), middle, Utf8(b), "\n");
  }

  lemma Regroup(before: string, a: string, middle: string, b: string, after: string)
    ensures before + (a + middle + b) + after == before + a + (middle + (b + after))
  {
  }

  lemma ErasedLater(macOk: string -> bool, typed: string, c: char, erase: char, rest: string)
    requires IsPlain(typed) && IsPlain([c]) && Erases(erase) && |typed| + 1 < LINE_BUF_LEN
    ensures Assemble(macOk, [], typed + ([c, erase] + rest)) == Assemble(macOk, [], typed + rest)
  {
    PlainIsKept(macOk, [], typed, [c, erase] + rest);
    PlainIsKept(macOk, [], typed, rest);
    assert [] + typed == typed;
    EraseUndoes(macOk, typed, c, erase, rest);
  }

  // ---------------------------------------------------------------------
  // The other commands

  lemma NamedCommand(name: string, args: string)
    requires name == "scan" || name == "tools" || name == "ping"
    ensures Word(name + " " + args) == name && Rest(name + " " + args) == args
  {
    assert name + " " + args == [] + name + [' '] + args;
    FirstWord([], name, ' ', args);
  }

  lemma TwoWords(first: string, second: string)
    requires IsWord(first) && IsWord(second)
    ensures Word(first + " " + second) == first && Rest(first + " " + second) == second
    ensures Word(second) == second && Rest(second) == []
  {
    assert first + " " + second == [] + first + [' '] + second;
    FirstWord([], first, ' ', second);
    assert [] + second == second;
    LastWord([], second);
  }

  lemma OneWord(word: string)
    requires IsWord(word)
    ensures Word(word) == word && Rest(word) == [] && Word(Rest(word)) == []
  {
    assert [] + word == word;
    LastWord([], word);
    NoWord([]);
  }

  // "scan name 3000" filters by prefix and sets the window, "scan 3000" sets
  // the window alone, and "scan name" filters alone.
  lemma ScanForms(macOk: string -> bool, prefix: string, window: string)
    requires IsWord(prefix) && IsWord(window)
    ensures Parse(macOk, "scan" + " " + (prefix + " " + window)) == Scan(Some(prefix), Some(window))
    ensures Parse(macOk, "scan" + " " + window)
            == if IsUint(window) then Scan(None, Some(window)) else Scan(Some(window), None)
  {
    NamedCommand("scan", prefix + " " + window);
    NamedCommand("scan", window);
    ScanArguments(prefix, window);
  }

  lemma ScanArguments(prefix: string, window: string)
    requires IsWord(prefix) && IsWord(window)
    ensures ParseScan(prefix + " " + window) == Scan(Some(prefix), Some(window))
    ensures ParseScan(window) == if IsUint(window) then Scan(None, Some(window)) else Scan(Some(window), None)
  {
    TwoWords(prefix, window);
    OneWord(window);
  }

  // The forms the interface writes for tools and ping name the device, and the
  // limit of tools is passed on.
  lemma ToolsForm(macOk: string -> bool, mac: string, limit: string)
    requires IsWord(mac) && IsWord(limit) && macOk(mac)
    ensures Parse(macOk, "tools" + " " + (mac + " " + limit)) == Tools(mac, Some(limit))
  {
    NamedCommand("tools", mac + " " + limit);
    TwoWords(mac, limit);
  }

  lemma PingForm(macOk: string -> bool, mac: string)
    requires IsWord(mac) && macOk(mac)
    ensures Parse(macOk, "ping" + " " + mac) == Ping(mac)
  {
    NamedCommand("ping", mac);
    OneWord(mac);
  }
}
