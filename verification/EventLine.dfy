// The event lines the host firmware prints and the Python interface parses.
module EventLine {
  import opened Types
  import opened Decimal
  import opened CommandLine
  import opened HostEvents
  import opened HostInterface
  import opened MacAddress

  // ---------------------------------------------------------------------
  // Printing

  function KindText(k: EventKind): string {
    match k
    case DeviceFound => "device"
    case ToolsListed => "tools"
    case ToolResult => "result"
    case Pong => "pong"
    case ErrorEvent => "error"
    case Raw => "raw"
  }

  function Field(name: string, value: string): string {
    name + "=" + value
  }

  function Prefix(k: EventKind, xid: u16, mac: Mac, rssi: int): string {
    KindText(k) + (" " + Field("xid", PrintNat(xid))) + (" " + Field("mac", MacText(mac)))
    + (" " + Field("rssi", PrintInt(rssi)))
  }

  // What is printed up to the JSON text.
  function Start(k: EventKind, xid: u16, mac: Mac, rssi: int): string {
    Prefix(k, xid, mac, rssi) + MARKER
  }

  // The octets of an event line; %.*s stops at a NUL in the payload.
  function EventOctets(k: EventKind, xid: u16, mac: Mac, rssi: int, json: string): string {
    Start(k, xid, mac, rssi) + Visible(json) + "\r\n"
  }

  // ---------------------------------------------------------------------
  // Parsing

  function LStrip(s: string): string {
    if s != [] && PySpace(s[0]) then LStrip(s[1..]) else s
  }

  function Strip(s: string): string {
    RStrip(LStrip(s))
  }

  const MARKER := " json="

  // Index of the first occurrence of the marker, or the length of the text.
  function Find(s: string): (r: nat)
    ensures r <= |s| && (r < |s| ==> MARKER <= s[r..])
  {
    if s == [] || MARKER <= s then 0 else 1 + Find(s[1..])
  }

  function PyHead(s: string): (r: string)
    ensures r <= s && (s != [] && !PySpace(s[0]) ==> r != [])
  {
    if s == [] || PySpace(s[0]) then [] else [s[0]] + PyHead(s[1..])
  }

  // str.split with no separator.
  function Split(s: string): seq<string>
    decreases |s|
  {
    if s == [] then []
    else if PySpace(s[0]) then Split(s[1..])
    else [PyHead(s)] + Split(s[|PyHead(s)|..])
  }

  // Index of the first '=', or the length of the token.
  function FindEquals(s: string): (r: nat)
    ensures r <= |s| && (r < |s| ==> s[r] == '=')
  {
    if s == [] || s[0] == '=' then 0 else 1 + FindEquals(s[1..])
  }

  function Fields(tokens: seq<string>): map<string, string> {
    if tokens == [] then map[]
    else
      var token := tokens[|tokens| - 1];
      var k := FindEquals(token);
      var before := Fields(tokens[..|tokens| - 1]);
      if k < |token| then before[token[..k] := token[k + 1..]] else before
  }

  datatype ParsedLine = ParsedLine(kind: string, fields: map<string, string>, json: Option<string>)

  function ParseLine(line: string): Option<ParsedLine> {
    var raw := Strip(line);
    if raw == [] then None
    else
      var k := Find(raw);
      var parts := Split(raw[..k]);
      if parts == [] then None
      else
        Some(ParsedLine(parts[0], Fields(parts[1..]), if k < |raw| then Some(raw[k + |MARKER|..]) else None))
  }

  // int(text, 0) on decimal text; prefixed bases and underscores are not modelled.
  function PyInt(s: string): Option<int> {
    if s != [] && s[0] == '-' then
      if DecimalText(s[1..]) then Some(0 - DigitsValue(s[1..])) else None
    else if DecimalText(s) then Some(DigitsValue(s)) else None
  }

  // Digits, with no leading zero unless they are all zero.
  predicate DecimalText(s: string) {
    && s != [] && (forall i | 0 <= i < |s| :: IsDigit(s[i]))
    && (s[0] == '0' ==> forall i | 0 <= i < |s| :: s[i] == '0')
  }

  function IntField(fields: map<string, string>, name: string): Option<int> {
    if name in fields then PyInt(fields[name]) else None
  }

  // ---------------------------------------------------------------------
  // The two ends agree

  lemma {:induction false} PrintNatFirst(n: nat)
    ensures PrintNat(n)[0] == '0' <==> n == 0
  {
    if n >= 10 {
      PrintNatFirst(n / 10);
    }
  }

  // Python reads back every number the firmware prints.
  lemma PyIntPrintInt(n: int)
    ensures PyInt(PrintInt(n)) == Some(n)
  {
    var m := if n < 0 then -n else n;
    PrintNatFirst(m);
    PrintNatValue(m);
    assert PrintNat(0) == "0";
    assert DecimalText(PrintNat(m));
    if n < 0 {
      assert PrintInt(n)[1..] == PrintNat(m);
    }
  }

  predicate NoSpace(s: string) {
    forall i | 0 <= i < |s| :: !PySpace(s[i])
  }

  lemma MacTextNoSpace(mac: Mac)
    ensures NoSpace(MacText(mac))
  {
    MacTextShape(mac);
  }

  // No marker starts inside the text, whatever follows it.
  predicate NoMarker(s: string) {
    forall i | 0 <= i < |s| && s[i] == ' ' :: i + 1 < |s| && s[i + 1] != 'j'
  }

  lemma {:induction false} FindAfter(s: string, rest: string)
    requires NoMarker(s) && MARKER <= rest
    ensures Find(s + rest) == |s|
  {
    if s == [] {
      assert s + rest == rest;
    } else {
      assert (s + rest)[1..] == s[1..] + rest;
      assert (s + rest)[0] == MARKER[0] ==> (s + rest)[1] == s[1] != MARKER[1];
      FindAfter(s[1..], rest);
    }
  }

  lemma {:induction false} PyHeadOf(w: string, rest: string)
    requires NoSpace(w) && (rest != [] ==> PySpace(rest[0]))
    ensures PyHead(w + rest) == w
  {
    if w == [] {
      assert w + rest == rest;
    } else {
      assert (w + rest)[1..] == w[1..] + rest;
      PyHeadOf(w[1..], rest);
    }
  }

  lemma SplitFirst(w: string, rest: string)
    requires w != [] && NoSpace(w)
    ensures Split(w + " " + rest) == [w] + Split(rest)
  {
    assert w + " " + rest == w + (" " + rest);
    PyHeadOf(w, " " + rest);
    assert (w + (" " + rest))[|w|..] == " " + rest;
    assert (" " + rest)[1..] == rest;
  }

  lemma SplitLast(w: string)
    requires w != [] && NoSpace(w)
    ensures Split(w) == [w]
  {
    assert w + [] == w;
    PyHeadOf(w, []);
  }

  // Stripping stops at the last character that is not white space.
  lemma {:induction false} RStripTail(s: string, after: string)
    requires s != [] && !PySpace(s[|s| - 1])
    ensures RStrip(s + after) == s + RStrip(after)
  {
    if after == [] {
      assert s + after == s;
    } else if PySpace(after[|after| - 1]) {
      assert (s + after)[..|s + after| - 1] == s + after[..|after| - 1];
      RStripTail(s, after[..|after| - 1]);
    }
  }

  // ---------------------------------------------------------------------
  // Round trip

  function Tokens(k: EventKind, xid: u16, mac: Mac, rssi: int): seq<string> {
    [KindText(k), Field("xid", PrintNat(xid)), Field("mac", MacText(mac)), Field("rssi", PrintInt(rssi))]
  }

  lemma NoMarkerIn(a: string, b: string)
    requires NoMarker(a) && NoMarker(b)
    ensures NoMarker(a + b)
  {
    forall i | 0 <= i < |a + b| && (a + b)[i] == ' '
      ensures i + 1 < |a + b| && (a + b)[i + 1] != 'j'
    {
      if i < |a| {
        assert a[i] == ' ';
      } else {
        assert b[i - |a|] == ' ' && (a + b)[i + 1] == b[i + 1 - |a|];
      }
    }
  }

  lemma FieldText(name: string, value: string)
    requires NoSpace(name) && name != [] && name[0] != 'j' && NoSpace(value)
    ensures NoMarker(" " + Field(name, value)) && NoSpace(Field(name, value))
  {
  }

  lemma IntNoSpace(n: int)
    ensures NoSpace(PrintInt(n))
  {
    var m := if n < 0 then -n else n;
    assert forall i | 0 <= i < |PrintNat(m)| :: IsDigit(PrintNat(m)[i]);
  }

  // The printed prefix splits into its four tokens, and no marker starts in it.
  lemma PrefixTokens(k: EventKind, xid: u16, mac: Mac, rssi: int)
    ensures Split(Prefix(k, xid, mac, rssi)) == Tokens(k, xid, mac, rssi)
    ensures NoMarker(Prefix(k, xid, mac, rssi))
  {
    var t := Tokens(k, xid, mac, rssi);
    IntNoSpace(xid);
    IntNoSpace(rssi);
    MacTextNoSpace(mac);
    FieldText("xid", PrintNat(xid));
    FieldText("mac", MacText(mac));
    FieldText("rssi", PrintInt(rssi));
    FourTokens(t[0], t[1], t[2], t[3]);
    assert NoMarker(t[0]);
    FourUnmarked(t[0], " " + t[1], " " + t[2], " " + t[3]);
  }

  lemma FourTokens(a: string, b: string, c: string, d: string)
    requires NoSpace(a) && NoSpace(b) && NoSpace(c) && NoSpace(d)
    requires a != [] && b != [] && c != [] && d != []
    ensures Split(a + (" " + b) + (" " + c) + (" " + d)) == [a, b, c, d]
  {
    TwoTokens(c, d);
    var cd := c + " " + d;
    SplitFirst(b, cd);
    var bcd := b + " " + cd;
    SplitFirst(a, bcd);
    assert Split(a + " " + bcd) == [a, b, c, d];
    JoinFour(a, b, c, d);
  }

  lemma JoinFour(a: string, b: string, c: string, d: string)
    ensures a + (" " + b) + (" " + c) + (" " + d) == a + " " + (b + " " + (c + " " + d))
  {
  }

  lemma TwoTokens(c: string, d: string)
    requires NoSpace(c) && NoSpace(d) && c != [] && d != []
    ensures Split(c + " " + d) == [c, d]
  {
    SplitFirst(c, d);
    SplitLast(d);
  }

  lemma FourUnmarked(a: string, b: string, c: string, d: string)
    requires NoMarker(a) && NoMarker(b) && NoMarker(c) && NoMarker(d)
    ensures NoMarker(a + b + c + d)
  {
    NoMarkerIn(a, b);
    NoMarkerIn(a + b, c);
    NoMarkerIn(a + b + c, d);
  }

  lemma {:induction false} FindEqualsOf(name: string, value: string)
    requires forall i | 0 <= i < |name| :: name[i] != '='
    ensures FindEquals(Field(name, value)) == |name|
  {
    if name != [] {
      assert Field(name, value)[1..] == Field(name[1..], value);
      FindEqualsOf(name[1..], value);
    }
  }

  // Adding a "name=value" token to the fields.
  lemma FieldAdded(tokens: seq<string>, name: string, value: string)
    requires forall i | 0 <= i < |name| :: name[i] != '='
    ensures Fields(tokens + [Field(name, value)]) == Fields(tokens)[name := value]
  {
    var token := Field(name, value);
    FindEqualsOf(name, value);
    assert (tokens + [token])[..|tokens|] == tokens;
    assert token[..|name|] == name && token[|name| + 1..] == value;
  }

  // The fields the tokens stand for.
  lemma TokenFields(k: EventKind, xid: u16, mac: Mac, rssi: int)
    ensures Fields(Tokens(k, xid, mac, rssi)[1..])
            == EventFields(xid, mac, rssi)
  {
    var x, m, r := Field("xid", PrintNat(xid)), Field("mac", MacText(mac)), Field("rssi", PrintInt(rssi));
    FieldAdded([], "xid", PrintNat(xid));
    FieldAdded([x], "mac", MacText(mac));
    FieldAdded([x, m], "rssi", PrintInt(rssi));
    assert [] + [x] == [x] && [x] + [m] == [x, m];
    assert [x, m] + [r] == Tokens(k, xid, mac, rssi)[1..];
  }

  function EventFields(xid: u16, mac: Mac, rssi: int): map<string, string> {
    map["xid" := PrintNat(xid), "mac" := MacText(mac), "rssi" := PrintInt(rssi)]
  }

  // Whatever follows the printed prefix and its marker is the JSON text, less
  // white space at the end of the line, even if it contains the marker itself.
  lemma ParsePrefixed(k: EventKind, xid: u16, mac: Mac, rssi: int, text: string)
    ensures ParseLine(Start(k, xid, mac, rssi) + text)
            == Some(ParsedLine(KindText(k), EventFields(xid, mac, rssi), Some(RStrip(text))))
  {
    var prefix := Prefix(k, xid, mac, rssi);
    PrefixTokens(k, xid, mac, rssi);
    TokenFields(k, xid, mac, rssi);
    assert prefix[0] == KindText(k)[0];
    ParseMarked(prefix, text);
  }

  lemma ParseMarked(prefix: string, text: string)
    requires prefix != [] && !PySpace(prefix[0]) && NoMarker(prefix) && Split(prefix) != []
    ensures ParseLine(prefix + MARKER + text)
            == Some(ParsedLine(Split(prefix)[0], Fields(Split(prefix)[1..]), Some(RStrip(text))))
  {
    var start := prefix + MARKER;
    RStripTail(start, text);
    MarkedAt(prefix, RStrip(text));
  }

  lemma MarkedAt(prefix: string, text: string)
    requires NoMarker(prefix)
    ensures var raw := prefix + MARKER + text;
            && Find(raw) == |prefix| && raw[..|prefix|] == prefix && raw[|prefix| + |MARKER|..] == text
  {
    assert prefix + MARKER + text == prefix + (MARKER + text);
    FindAfter(prefix, MARKER + text);
  }

  lemma NumbersRead(xid: u16, mac: Mac, rssi: int)
    ensures IntField(EventFields(xid, mac, rssi), "xid") == Some(xid)
    ensures IntField(EventFields(xid, mac, rssi), "rssi") == Some(rssi)
  {
    PyIntPrintInt(xid);
    PyIntPrintInt(rssi);
    assert PrintInt(xid) == PrintNat(xid);
  }

  // ---------------------------------------------------------------------
  // Lines without JSON text

  // Words with single spaces between them.
  function Spaced(tokens: seq<string>): string
    requires tokens != []
  {
    if |tokens| == 1 then tokens[0] else tokens[0] + " " + Spaced(tokens[1..])
  }

  // Tokens that cannot be taken for white space or for the start of a marker.
  predicate AreTokens(tokens: seq<string>) {
    && tokens != []
    && (forall i | 0 <= i < |tokens| :: tokens[i] != [] && NoSpace(tokens[i]))
    && (forall i | 0 < i < |tokens| :: tokens[i][0] != 'j')
  }

  lemma {:induction false} SplitSpaced(tokens: seq<string>)
    requires tokens != [] && forall i | 0 <= i < |tokens| :: tokens[i] != [] && NoSpace(tokens[i])
    ensures Split(Spaced(tokens)) == tokens
    ensures var s := Spaced(tokens); s != [] && !PySpace(s[0]) && !PySpace(s[|s| - 1])
  {
    if |tokens| == 1 {
      SplitLast(tokens[0]);
      assert tokens == [tokens[0]];
    } else {
      SplitSpaced(tokens[1..]);
      SplitFirst(tokens[0], Spaced(tokens[1..]));
      assert tokens == [tokens[0]] + tokens[1..];
    }
  }

  lemma {:induction false} SpacedHasNoMarker(tokens: seq<string>)
    requires AreTokens(tokens)
    ensures NoMarker(Spaced(tokens)) && Spaced(tokens)[0] == tokens[0][0]
  {
    assert NoMarker(tokens[0]);
    if |tokens| > 1 {
      var rest := Spaced(tokens[1..]);
      SpacedHasNoMarker(tokens[1..]);
      assert rest[0] == tokens[1][0] && (" " + rest)[1] == rest[0];
      assert forall i | 0 < i < |rest| + 1 :: (" " + rest)[i] == rest[i - 1];
      NoMarkerIn(tokens[0], " " + rest);
      assert tokens[0] + (" " + rest) == Spaced(tokens);
    }
  }

  lemma {:induction false} FindNone(s: string)
    requires NoMarker(s)
    ensures Find(s) == |s|
  {
    if s != [] {
      assert s[0] == MARKER[0] ==> |s| > 1 && s[1] != MARKER[1];
      FindNone(s[1..]);
    }
  }

  // A line of such tokens is read as its kind and its fields, without JSON text.
  lemma ParseTokens(tokens: seq<string>)
    requires AreTokens(tokens)
    ensures ParseLine(Spaced(tokens) + "\r\n") == Some(ParsedLine(tokens[0], Fields(tokens[1..]), None))
  {
    var s := Spaced(tokens);
    SplitSpaced(tokens);
    SpacedHasNoMarker(tokens);
    FindNone(s);
    RStripTail(s, "\r\n");
    StripBreak();
    assert s + [] == s && s[..|s|] == s;
  }

  lemma StripBreak()
    ensures RStrip("\r\n") == []
  {
    assert "\r\n"[..1] == "\r" && "\r"[..0] == "";
    assert RStrip("\r") == RStrip("");
  }
}
