// Event lines on the serial stream: what the print buffer lets through, what
// readline returns, and what the Python interface makes of it.
module EventStream {
  import opened Types
  import opened Decimal
  import opened CommandLine
  import opened HostEvents
  import opened HostInterface
  import opened MacAddress
  import opened EventLine

  const PRINT_BUF_LEN := 512

  // What reaches the wire of a formatted text: all of it if it is shorter than
  // the buffer, otherwise the buffer, terminator included.
  function SerialPrintf(text: string): string {
    if |text| < PRINT_BUF_LEN then text else text[..PRINT_BUF_LEN - 1] + ['\0']
  }

  // readline: everything up to and including the first line feed.
  function ReadLine(stream: string): Option<(string, string)> {
    if stream == [] then None
    else if stream[0] == '\n' then Some(([stream[0]], stream[1..]))
    else
      var r := ReadLine(stream[1..]);
      if r.None? then None else Some(([stream[0]] + r.value.0, r.value.1))
  }

  lemma {:induction false} ReadLineOf(line: string, rest: string)
    requires '\n' !in line
    ensures ReadLine(line + "\n" + rest) == Some((line + "\n", rest))
  {
    if line == [] {
      assert line + "\n" + rest == "\n" + rest && ("\n" + rest)[1..] == rest;
    } else {
      var stream := line + "\n" + rest;
      assert stream[1..] == line[1..] + "\n" + rest;
      ReadLineOf(line[1..], rest);
      assert [stream[0]] + (line[1..] + "\n") == line + "\n";
    }
  }

  // A stream starting with text free of line feeds is read on past that text,
  // up to a line feed that is the only one.
  lemma {:induction false} LineContinues(start: string, rest: string) returns (body: string)
    requires '\n' !in start && ReadLine(start + rest).Some?
    ensures ReadLine(start + rest).value.0 == start + body + "\n" && '\n' !in body
    decreases |start|, |rest|
  {
    if start != [] {
      assert (start + rest)[1..] == start[1..] + rest;
      body := LineContinues(start[1..], rest);
    } else {
      assert start + rest == rest;
      if rest[0] == '\n' {
        body := [];
      } else {
        assert [] + rest[1..] == rest[1..];
        var more := LineContinues([], rest[1..]);
        body := [rest[0]] + more;
      }
    }
  }

  // ---------------------------------------------------------------------
  // Decoding

  ghost predicate Splits(decode: string -> string, a: string, c: char, b: string) {
    decode(a + [c] + b) == decode(a) + [c] + decode(b)
  }

  ghost predicate InventsNoAscii(decode: string -> string, s: string) {
    forall i | 0 <= i < |decode(s)| && decode(s)[i] as int < 0x80 :: decode(s)[i] in s
  }

  // What is used of UTF-8 decoding with replacement characters: an ASCII octet
  // always stands for itself, between whatever its neighbours decode to, and
  // nothing else decodes to ASCII.
  ghost predicate IsDecoder(decode: string -> string) {
    && decode([]) == []
    && (forall a, c, b | c as int < 0x80 :: Splits(decode, a, c, b))
    && (forall s :: InventsNoAscii(decode, s))
  }

  lemma {:induction false} DecodeAfterAscii(decode: string -> string, s: string, rest: string)
    requires IsDecoder(decode) && IsAscii(s)
    ensures decode(s + rest) == s + decode(rest)
  {
    if s == [] {
      assert s + rest == rest;
    } else {
      assert s + rest == [] + [s[0]] + (s[1..] + rest);
      assert Splits(decode, [], s[0], s[1..] + rest);
      DecodeAfterAscii(decode, s[1..], rest);
    }
  }

  lemma DecodeBeforeAscii(decode: string -> string, s: string, c: char)
    requires IsDecoder(decode) && c as int < 0x80
    ensures decode(s + [c]) == decode(s) + [c]
  {
    assert Splits(decode, s, c, []);
    assert s + [c] + [] == s + [c];
  }

  // An ASCII character is in the decoded text exactly if it is in the octets.
  lemma DecodedHas(decode: string -> string, s: string, c: char)
    requires IsDecoder(decode) && c as int < 0x80
    ensures c in decode(s) <==> c in s
  {
    if c in s {
      var i :| 0 <= i < |s| && s[i] == c;
      assert s == s[..i] + [c] + s[i + 1..];
      assert Splits(decode, s[..i], c, s[i + 1..]);
    }
    if c in decode(s) {
      var i :| 0 <= i < |decode(s)| && decode(s)[i] == c;
      assert InventsNoAscii(decode, s);
    }
  }

  // ---------------------------------------------------------------------
  // Reading an event

  // The range of the C int that carries the signal strength.
  predicate IsInt32(n: int) {
    -0x8000_0000 <= n < 0x8000_0000
  }

  predicate IsPrintable(s: string) {
    forall i | 0 <= i < |s| :: 0x20 <= s[i] as int < 0x7f
  }

  lemma IntShape(n: int)
    requires IsInt32(n)
    ensures IsPrintable(PrintInt(n)) && |PrintInt(n)| <= 11
  {
    var m := if n < 0 then -n else n;
    PrintNatLength(m, 10);
    assert forall i | 0 <= i < |PrintNat(m)| :: IsDigit(PrintNat(m)[i]);
  }

  lemma FieldShape(name: string, value: string)
    requires IsPrintable(name) && IsPrintable(value)
    ensures IsPrintable(" " + Field(name, value)) && |" " + Field(name, value)| == |name| + |value| + 2
  {
  }

  lemma JoinShape(a: string, b: string, c: string, d: string)
    requires IsPrintable(a) && IsPrintable(b) && IsPrintable(c) && IsPrintable(d)
    ensures IsPrintable(a + b + c + d + MARKER) && |a + b + c + d + MARKER| == |a| + |b| + |c| + |d| + 6
  {
  }

  lemma PartsShape(kind: string, xid: string, mac: string, rssi: string)
    requires IsPrintable(kind) && IsPrintable(xid) && IsPrintable(mac) && IsPrintable(rssi)
    requires 0 < |kind| <= 6 && |xid| <= 11 && |mac| == 17 && |rssi| <= 11
    ensures var s := kind + (" " + Field("xid", xid)) + (" " + Field("mac", mac)) + (" " + Field("rssi", rssi)) + MARKER;
            IsPrintable(s) && 0 < |s| < 80
  {
    FieldShape("xid", xid);
    FieldShape("mac", mac);
    FieldShape("rssi", rssi);
    JoinShape(kind, " " + Field("xid", xid), " " + Field("mac", mac), " " + Field("rssi", rssi));
  }

  // What is printed up to the JSON text is short and plain.
  lemma StartShape(k: EventKind, xid: u16, mac: Mac, rssi: int)
    requires IsInt32(rssi)
    ensures IsPrintable(Start(k, xid, mac, rssi)) && 0 < |Start(k, xid, mac, rssi)| < 80
  {
    var kind, x, m, r := KindText(k), PrintNat(xid), MacText(mac), PrintInt(rssi);
    KindShape(k);
    NatShape(xid);
    IntShape(rssi);
    MacShape(mac);
    PartsShape(kind, x, m, r);
    assert Prefix(k, xid, mac, rssi)
        == kind + (" " + Field("xid", x)) + (" " + Field("mac", m)) + (" " + Field("rssi", r));
  }

  lemma KindShape(k: EventKind)
    ensures IsPrintable(KindText(k)) && 0 < |KindText(k)| <= 6
  {
  }

  lemma NatShape(xid: u16)
    ensures IsPrintable(PrintNat(xid)) && |PrintNat(xid)| <= 11
  {
    IntShape(xid);
    assert PrintInt(xid) == PrintNat(xid);
  }

  lemma MacShape(mac: Mac)
    ensures IsPrintable(MacText(mac)) && |MacText(mac)| == 17
  {
    MacTextShape(mac);
  }

  // ---------------------------------------------------------------------
  // A line of text: a plain start, and octets without NUL after it

  predicate IsStart(start: string) {
    IsPrintable(start) && 0 < |start| < 80
  }

  function Line(start: string, shown: string): string {
    start + shown + "\r\n"
  }

  function Printed(start: string, shown: string, later: string): string {
    SerialPrintf(Line(start, shown)) + later
  }

  // The octets fit the print buffer, and there is no line feed among them.
  predicate Fits(start: string, shown: string) {
    |Line(start, shown)| < PRINT_BUF_LEN && '\n' !in shown
  }

  lemma WholeLine(start: string, shown: string, later: string)
    requires IsStart(start) && Fits(start, shown)
    ensures ReadLine(Printed(start, shown, later)) == Some((Line(start, shown), later))
  {
    var line := start + shown + "\r";
    ReadLineOf(line, later);
    assert Line(start, shown) == line + "\n";
  }

  // What is printed of a line that is too long.
  lemma CutText(start: string, shown: string) returns (kept: string)
    requires IsStart(start) && |Line(start, shown)| >= PRINT_BUF_LEN && '\n' !in shown
    ensures SerialPrintf(Line(start, shown)) == start + kept + ['\0'] && '\n' !in kept
    ensures |start + kept| == PRINT_BUF_LEN - 1
  {
    var n := PRINT_BUF_LEN - 1;
    kept := (shown + "\r\n")[..n - |start|];
    assert Line(start, shown) == start + (shown + "\r\n");
    assert Line(start, shown)[..n] == start + kept;
    assert kept <= shown + "\r";
  }

  // What Python reads then starts with that, terminator included.
  lemma CutLine(start: string, shown: string, later: string) returns (kept: string, more: string)
    requires IsStart(start) && |Line(start, shown)| >= PRINT_BUF_LEN && '\n' !in shown
    requires ReadLine(Printed(start, shown, later)).Some?
    ensures |start + kept| == PRINT_BUF_LEN - 1
    ensures ReadLine(Printed(start, shown, later)).value.0 == start + (kept + ['\0'] + more) + "\n"
  {
    kept := CutText(start, shown);
    more := LineContinues(start + kept + ['\0'], later);
    assert start + kept + ['\0'] + more + "\n" == start + (kept + ['\0'] + more) + "\n";
  }

  // A line that is read goes on from the start up to its only line feed.
  lemma LineRead(start: string, shown: string, later: string) returns (body: string)
    requires IsStart(start) && ReadLine(Printed(start, shown, later)).Some?
    ensures ReadLine(Printed(start, shown, later)).value.0 == start + body + "\n" && '\n' !in body
  {
    var stream := Printed(start, shown, later);
    assert start <= SerialPrintf(Line(start, shown)) <= stream;
    assert stream == start + stream[|start|..];
    body := LineContinues(start, stream[|start|..]);
  }

  lemma SameBody(start: string, a: string, b: string)
    requires start + a + "\n" == start + b + "\n"
    ensures a == b
  {
    assert (start + a + "\n")[|start|..|start + a|] == a;
    assert (start + b + "\n")[|start|..|start + b|] == b;
  }

  // The line read is the line printed, and nothing of what follows is touched,
  // exactly if it fits and holds no other line feed.
  lemma LineFramedIff(start: string, shown: string, later: string)
    requires IsStart(start) && '\0' !in shown
    ensures ReadLine(Printed(start, shown, later)) == Some((Line(start, shown), later)) <==> Fits(start, shown)
  {
    if Fits(start, shown) {
      WholeLine(start, shown, later);
    } else if ReadLine(Printed(start, shown, later)).Some? {
      var body := LineRead(start, shown, later);
      if '\n' !in shown {
        var kept, more := CutLine(start, shown, later);
        SameBody(start, body, kept + ['\0'] + more);
        assert body[|kept|] == '\0';
      }
      BodyOfLine(start, shown, body);
    }
  }

  lemma BodyOfLine(start: string, shown: string, body: string)
    ensures Line(start, shown) == start + body + "\n" ==> body == shown + ['\r']
  {
    assert Line(start, shown) == start + (shown + ['\r']) + "\n";
    if Line(start, shown) == start + body + "\n" {
      SameBody(start, body, shown + ['\r']);
    }
  }

  predicate TightEnd(s: string) {
    s == [] || !PySpace(s[|s| - 1])
  }

  lemma {:induction false} RStripIsTight(s: string)
    ensures TightEnd(RStrip(s)) && (RStrip(s) == s <==> TightEnd(s)) && RStrip(s) <= s
  {
    if s != [] && PySpace(s[|s| - 1]) {
      RStripIsTight(s[..|s| - 1]);
    }
  }

  // What is left of a decoded body is the decoded text exactly if the text came
  // whole and does not end in white space.
  lemma BodyIff(decode: string -> string, start: string, shown: string, later: string, body: string)
    requires IsDecoder(decode) && IsStart(start) && '\0' !in shown && '\n' !in body
    requires var r := ReadLine(Printed(start, shown, later)); r.Some? && r.value.0 == start + body + "\n"
    ensures RStrip(decode(body)) == decode(shown) <==> Fits(start, shown) && TightEnd(decode(shown))
  {
    RStripIsTight(decode(body));
    RStripIsTight(decode(shown));
    if Fits(start, shown) {
      WholeLine(start, shown, later);
      BodyOfLine(start, shown, body);
      DecodeBeforeAscii(decode, shown, '\r');
      assert (decode(shown) + ['\r'])[..|decode(shown)|] == decode(shown);
    } else if '\n' in shown {
      DecodedHas(decode, body, '\n');
      DecodedHas(decode, shown, '\n');
    } else {
      var kept, more := CutLine(start, shown, later);
      SameBody(start, body, kept + ['\0'] + more);
      NulSurvives(decode, kept, more);
      DecodedHas(decode, shown, '\0');
    }
  }

  lemma NulSurvives(decode: string -> string, kept: string, more: string)
    requires IsDecoder(decode)
    ensures '\0' in RStrip(decode(kept + ['\0'] + more))
  {
    assert Splits(decode, kept, '\0', more);
    var seen := decode(kept) + ['\0'];
    RStripTail(seen, decode(more));
    assert (seen + RStrip(decode(more)))[|seen| - 1] == '\0';
  }

  // ---------------------------------------------------------------------
  // Events

  // The next line Python reads from the stream, as the interface parses it.
  function Received(decode: string -> string, stream: string): Option<ParsedLine> {
    var r := ReadLine(stream);
    if r.None? then None else ParseLine(decode(r.value.0))
  }

  // The stream when the firmware prints an event and then `later`.
  function Stream(k: EventKind, xid: u16, mac: Mac, rssi: int, json: string, later: string): string {
    SerialPrintf(EventOctets(k, xid, mac, rssi, json)) + later
  }

  // The octets of the payload that are printed arrive whole.
  predicate Arrives(k: EventKind, xid: u16, mac: Mac, rssi: int, json: string) {
    Fits(Start(k, xid, mac, rssi), Visible(json))
  }

  lemma FramedIff(k: EventKind, xid: u16, mac: Mac, rssi: int, json: string, later: string)
    requires IsInt32(rssi)
    ensures ReadLine(Stream(k, xid, mac, rssi, json, later)) == Some((EventOctets(k, xid, mac, rssi, json), later))
            <==> Arrives(k, xid, mac, rssi, json)
  {
    StartShape(k, xid, mac, rssi);
    LineFramedIff(Start(k, xid, mac, rssi), Visible(json), later);
  }

  // If a line is read at all it is taken for this event: whatever happens to the
  // JSON text, kind, xid, address and signal strength come through.
  lemma EventIsRecognised(decode: string -> string, k: EventKind, xid: u16, mac: Mac, rssi: int, json: string,
                          later: string) returns (body: string)
    requires IsDecoder(decode) && IsInt32(rssi)
    requires ReadLine(Stream(k, xid, mac, rssi, json, later)).Some?
    ensures '\n' !in body
    ensures ReadLine(Stream(k, xid, mac, rssi, json, later)).value.0 == Start(k, xid, mac, rssi) + body + "\n"
    ensures Received(decode, Stream(k, xid, mac, rssi, json, later))
            == Some(ParsedLine(KindText(k), EventFields(xid, mac, rssi), Some(RStrip(decode(body)))))
  {
    StartShape(k, xid, mac, rssi);
    body := LineRead(Start(k, xid, mac, rssi), Visible(json), later);
    BodyIsParsed(decode, k, xid, mac, rssi, body);
  }

  lemma BodyIsParsed(decode: string -> string, k: EventKind, xid: u16, mac: Mac, rssi: int, body: string)
    requires IsDecoder(decode) && IsInt32(rssi)
    ensures ParseLine(decode(Start(k, xid, mac, rssi) + body + "\n"))
            == Some(ParsedLine(KindText(k), EventFields(xid, mac, rssi), Some(RStrip(decode(body)))))
  {
    var start := Start(k, xid, mac, rssi);
    StartShape(k, xid, mac, rssi);
    assert start + body + "\n" == start + (body + ['\n']);
    DecodeAfterAscii(decode, start, body + ['\n']);
    DecodeBeforeAscii(decode, body, '\n');
    ParsePrefixed(k, xid, mac, rssi, decode(body) + ['\n']);
    assert (decode(body) + ['\n'])[..|decode(body)|] == decode(body);
  }

  // The event's JSON text arrives exactly if its octets arrive whole and it does
  // not end in white space; the text is what is printed of the payload, that is,
  // all of it up to a NUL.
  lemma EventArrivesIff(decode: string -> string, k: EventKind, xid: u16, mac: Mac, rssi: int, json: string,
                        later: string)
    requires IsDecoder(decode) && IsInt32(rssi)
    ensures Received(decode, Stream(k, xid, mac, rssi, json, later))
            == Some(ParsedLine(KindText(k), EventFields(xid, mac, rssi), Some(decode(Visible(json)))))
            <==> Arrives(k, xid, mac, rssi, json) && TightEnd(decode(Visible(json)))
  {
    StartShape(k, xid, mac, rssi);
    if ReadLine(Stream(k, xid, mac, rssi, json, later)).Some? {
      var body := EventIsRecognised(decode, k, xid, mac, rssi, json, later);
      BodyIff(decode, Start(k, xid, mac, rssi), Visible(json), later, body);
    } else {
      LineFramedIff(Start(k, xid, mac, rssi), Visible(json), later);
    }
  }

  // An event too long for the buffer takes the next one with it: Python reads
  // both as one line, which it takes for the first, with a JSON text that is not
  // its own.
  lemma LongEventSwallowsNext(decode: string -> string,
                              k: EventKind, xid: u16, mac: Mac, rssi: int, json: string,
                              k2: EventKind, xid2: u16, mac2: Mac, rssi2: int, json2: string, later: string)
    requires IsDecoder(decode) && IsInt32(rssi) && IsInt32(rssi2) && '\n' !in Visible(json)
    requires |EventOctets(k, xid, mac, rssi, json)| >= PRINT_BUF_LEN && Arrives(k2, xid2, mac2, rssi2, json2)
    ensures var stream := Stream(k, xid, mac, rssi, json, Stream(k2, xid2, mac2, rssi2, json2, later));
            && ReadLine(stream).Some? && ReadLine(stream).value.1 == later
            && Received(decode, stream).Some?
            && Received(decode, stream).value.kind == KindText(k)
            && Received(decode, stream).value.fields == EventFields(xid, mac, rssi)
            && Received(decode, stream).value.json != Some(decode(Visible(json)))
  {
    StartShape(k, xid, mac, rssi);
    StartShape(k2, xid2, mac2, rssi2);
    Glued(Start(k, xid, mac, rssi), Visible(json), Start(k2, xid2, mac2, rssi2), Visible(json2), later);
    var tail := Stream(k2, xid2, mac2, rssi2, json2, later);
    var body := EventIsRecognised(decode, k, xid, mac, rssi, json, tail);
    EventArrivesIff(decode, k, xid, mac, rssi, json, tail);
  }

  // A line that is cut runs on into the next one.
  lemma Glued(start: string, shown: string, start2: string, shown2: string, later: string)
    requires IsStart(start) && |Line(start, shown)| >= PRINT_BUF_LEN && '\n' !in shown
    requires IsStart(start2) && Fits(start2, shown2)
    ensures var r := ReadLine(Printed(start, shown, Printed(start2, shown2, later))); r.Some? && r.value.1 == later
  {
    var kept := CutText(start, shown);
    var glued := start + kept + ['\0'] + (start2 + shown2 + "\r");
    assert Printed(start, shown, Printed(start2, shown2, later)) == glued + "\n" + later;
    ReadLineOf(glued, later);
  }

  // ---------------------------------------------------------------------
  // Other lines

  // A line of printable tokens that fits the buffer is read whole, as itself.
  lemma TokensArrive(decode: string -> string, text: string, tokens: seq<string>, later: string)
    requires IsDecoder(decode) && AreTokens(tokens) && text == Spaced(tokens)
    requires IsPrintable(text) && |text| < PRINT_BUF_LEN - 2
    ensures var stream := SerialPrintf(text + "\r\n") + later;
            && ReadLine(stream) == Some((text + "\r\n", later))
            && Received(decode, stream) == Some(ParsedLine(tokens[0], Fields(tokens[1..]), None))
  {
    assert text + "\r\n" == text + "\r" + "\n";
    ReadLineOf(text + "\r", later);
    DecodeAfterAscii(decode, text + "\r\n", []);
    assert text + "\r\n" + [] == text + "\r\n";
    ParseTokens(tokens);
  }
}
