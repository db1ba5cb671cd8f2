// The host firmware's serial command line: bytes are gathered into a bounded
// buffer, and each finished line is cut up in place.
module CommandLine {
  import opened Types
  import opened Decimal
  import opened Words

  const LINE_BUF_LEN := 768

  datatype Command =
    | Nothing
    | Scan(prefix: Option<string>, window: Option<string>)
    | Tools(mac: string, limit: Option<string>)
    | Call(mac: string, tool: string, arguments: string)
    | Ping(mac: string)
    | Help
    | BadMac
    | MissingTool
    | Unknown(name: string)

  function Optional(word: string): Option<string> {
    if word == [] then None else Some(word)
  }

  predicate IsUint(s: string) {
    s != [] && forall i | 0 <= i < |s| :: IsDigit(s[i])
  }

  function ParseScan(args: string): Command {
    var first, second := Word(args), Word(Rest(args));
    if first != [] && second == [] && IsUint(first) then Scan(None, Some(first))
    else Scan(Optional(first), Optional(second))
  }

  function ParseCall(macOk: string -> bool, args: string): Command {
    var mac, tool, payload := Word(args), Word(Rest(args)), SkipSpaces(Rest(Rest(args)));
    if mac == [] || !macOk(mac) then BadMac
    else if tool == [] then MissingTool
    else Call(mac, tool, if payload == [] then "{}" else payload)
  }

  // The command on a trimmed line; macOk says which texts are MAC addresses.
  function Parse(macOk: string -> bool, line: string): Command {
    var name, args := Word(line), Rest(line);
    if name == [] then Nothing
    else if name == "scan" then ParseScan(args)
    else if name == "tools" then
      if Word(args) == [] || !macOk(Word(args)) then BadMac else Tools(Word(args), Optional(Word(Rest(args))))
    else if name == "call" then ParseCall(macOk, args)
    else if name == "ping" then
      if Word(args) == [] || !macOk(Word(args)) then BadMac else Ping(Word(args))
    else if name == "help" then Help
    else Unknown(name)
  }

  method ReadString(line: array<char>, at: nat, ghost s: string) returns (r: string)
    requires CString(line[..], at, s)
    ensures r == s
  {
    var n := Strlen(line, at, s);
    r := line[at..at + n];
  }

  // The text of a token that may be missing, as the empty text then.
  method TextAt(line: array<char>, token: Option<nat>, ghost word: string) returns (text: string)
    requires if token.None? then word == [] else CString(line[..], token.value, word)
    ensures text == word
  {
    text := [];
    if token.Some? {
      text := ReadString(line, token.value, word);
    }
  }

  // A token that is read at once.
  method Token(line: array<char>, cursor: nat, ghost s: string) returns (word: string, next: nat)
    requires CString(line[..], cursor, s)
    modifies line
    ensures word == Word(s) && CString(line[..], next, Rest(s))
  {
    var token;
    token, next := NextToken(line, cursor, s);
    word := TextAt(line, token, Word(s));
  }

  method IsUintToken(token: string) returns (r: bool)
    ensures r == IsUint(token)
  {
    if token == [] {
      return false;
    }
    for i := 0 to |token|
      invariant forall j | 0 <= j < i :: IsDigit(token[j])
    {
      if !IsDigit(token[i]) {
        return false;
      }
    }
    return true;
  }

  method HandleScan(line: array<char>, at: nat, ghost s: string) returns (r: Command)
    requires CString(line[..], at, s)
    modifies line
    ensures r == ParseScan(s)
  {
    var first, second, cursor;
    first, cursor := NextToken(line, at, s);
    ghost var was := line[..];
    second, cursor := NextToken(line, cursor, Rest(s));
    if first.Some? && second.Some? {
      CutKeeps(was, first.value, Word(s), second.value + |Word(Rest(s))|);
    }
    var prefix := TextAt(line, first, Word(s));
    var window := TextAt(line, second, Word(Rest(s)));
    if first.Some? && second.None? {
      var number := IsUintToken(prefix);
      if number {
        return Scan(None, Some(prefix));
      }
    }
    return Scan(Optional(prefix), Optional(window));
  }

  method HandleCall(macOk: string -> bool, line: array<char>, at: nat, ghost s: string) returns (r: Command)
    requires CString(line[..], at, s)
    modifies line
    ensures r == ParseCall(macOk, s)
  {
    var mac, cursor := Token(line, at, s);
    if mac == [] || !macOk(mac) {
      return BadMac;
    }
    var token;
    token, cursor := NextToken(line, cursor, Rest(s));
    if token.None? {
      return MissingTool;
    }
    cursor := SkipFrom(line, cursor, Rest(Rest(s)));
    var tool := TextAt(line, token, Word(Rest(s)));
    var payload := ReadString(line, cursor, SkipSpaces(Rest(Rest(s))));
    if payload == [] {
      payload := "{}";
    }
    return Call(mac, tool, payload);
  }

  method HandleTools(macOk: string -> bool, line: array<char>, at: nat, ghost s: string) returns (r: Command)
    requires CString(line[..], at, s)
    modifies line
    ensures r == if Word(s) == [] || !macOk(Word(s)) then BadMac else Tools(Word(s), Optional(Word(Rest(s))))
  {
    var mac, limit, cursor;
    mac, cursor := Token(line, at, s);
    if mac == [] || !macOk(mac) {
      return BadMac;
    }
    limit, cursor := Token(line, cursor, Rest(s));
    return Tools(mac, Optional(limit));
  }

  method HandleLine(macOk: string -> bool, line: array<char>, ghost s: string) returns (r: Command)
    requires CString(line[..], 0, s)
    modifies line
    ensures r == Parse(macOk, Trim(s))
  {
    TrimLine(line, s);
    ghost var t := Trim(s);
    var name, cursor := Token(line, 0, t);
    if name == [] {
      return Nothing;
    }
    if name == "scan" {
      r := HandleScan(line, cursor, Rest(t));
    } else if name == "tools" {
      r := HandleTools(macOk, line, cursor, Rest(t));
    } else if name == "call" {
      r := HandleCall(macOk, line, cursor, Rest(t));
    } else if name == "ping" {
      var mac;
      mac, cursor := Token(line, cursor, Rest(t));
      r := if mac == [] || !macOk(mac) then BadMac else Ping(mac);
    } else if name == "help" {
      r := Help;
    } else {
      r := Unknown(name);
    }
  }

  // ---------------------------------------------------------------------
  // Gathering lines

  datatype Event = Handled(command: Command) | LineTooLong

  predicate EndsLine(c: char) {
    c == '\r' || c == '\n'
  }

  predicate Erases(c: char) {
    c as int == 0x08 || c as int == 0x7f
  }

  predicate IsPlain(s: string) {
    forall i | 0 <= i < |s| :: !EndsLine(s[i]) && !Erases(s[i]) && s[i] != '\0'
  }

  // What C string functions see of a text.
  function Visible(s: string): (r: string)
    ensures r <= s && '\0' !in r
    ensures |r| < |s| ==> s[|r|] == '\0'
    ensures '\0' !in s ==> r == s
  {
    if s == [] || s[0] == '\0' then [] else [s[0]] + Visible(s[1..])
  }

  // One more byte when `text` is in the buffer: the new text, and what happened.
  function FeedByte(macOk: string -> bool, text: string, c: char): (string, seq<Event>) {
    if EndsLine(c) then
      ([], if text == [] then [] else [Handled(Parse(macOk, Trim(Visible(text))))])
    else if Erases(c) then
      (if text == [] then [] else text[..|text| - 1], [])
    else if |text| + 1 < LINE_BUF_LEN then
      (text + [c], [])
    else
      ([], [LineTooLong])
  }

  // Everything that comes of `input` when `text` is already in the buffer.
  function Assemble(macOk: string -> bool, text: string, input: string): seq<Event>
    decreases |input|
  {
    if input == [] then []
    else
      var (after, events) := FeedByte(macOk, text, input[0]);
      events + Assemble(macOk, after, input[1..])
  }

  method Feed(macOk: string -> bool, line: array<char>, pos: nat, ch: char) returns (next: nat, events: seq<Event>)
    requires line.Length == LINE_BUF_LEN && pos < LINE_BUF_LEN
    modifies line
    ensures next < LINE_BUF_LEN && (line[..next], events) == FeedByte(macOk, old(line[..pos]), ch)
  {
    ghost var text := line[..pos];
    next, events := pos, [];
    if EndsLine(ch) {
      if pos > 0 {
        line[pos] := '\0';
        Terminated(line[..], text);
        var command := HandleLine(macOk, line, Visible(text));
        next, events := 0, [Handled(command)];
      }
    } else if Erases(ch) {
      if pos > 0 {
        next := pos - 1;
        assert line[..next] == text[..next];
      }
    } else if pos + 1 < LINE_BUF_LEN {
      line[pos] := ch;
      next := pos + 1;
      assert line[..next] == text + [ch];
    } else {
      next, events := 0, [LineTooLong];
    }
  }

  // The main loop of the firmware over everything it is sent.
  method AppMain(macOk: string -> bool, input: string) returns (events: seq<Event>)
    ensures events == Assemble(macOk, [], input)
  {
    var line := new char[LINE_BUF_LEN](_ => '\0');
    var pos := 0;
    events := [];
    for i := 0 to |input|
      invariant 0 <= pos < LINE_BUF_LEN
      invariant Assemble(macOk, [], input) == events + Assemble(macOk, line[..pos], input[i..])
    {
      assert input[i..][1..] == input[i + 1..];
      var more;
      pos, more := Feed(macOk, line, pos, input[i]);
      events := events + more;
    }
    assert input[|input|..] == [];
  }

  lemma Terminated(buffer: seq<char>, text: string)
    requires |text| < |buffer| && buffer[..|text|] == text && buffer[|text|] == '\0'
    ensures CString(buffer, 0, Visible(text))
  {
    var v := Visible(text);
    assert buffer[0..|v|] == text[..|v|];
    assert |v| < |text| ==> buffer[|v|] == text[|v|];
  }

  // Plain characters are kept as long as the buffer has room for them.
  lemma {:induction false} PlainIsKept(macOk: string -> bool, text: string, typed: string, rest: string)
    requires IsPlain(typed) && |text| + |typed| < LINE_BUF_LEN
    ensures Assemble(macOk, text, typed + rest) == Assemble(macOk, text + typed, rest)
    decreases |typed|
  {
    if typed == [] {
      assert typed + rest == rest && text + typed == text;
    } else {
      assert (typed + rest)[1..] == typed[1..] + rest;
      PlainIsKept(macOk, text + [typed[0]], typed[1..], rest);
      assert text + [typed[0]] + typed[1..] == text + typed;
    }
  }

  lemma OneByte(macOk: string -> bool, text: string, c: char, rest: string)
    ensures Assemble(macOk, text, [c] + rest)
            == FeedByte(macOk, text, c).1 + Assemble(macOk, FeedByte(macOk, text, c).0, rest)
  {
    assert ([c] + rest)[1..] == rest;
  }

  // A backspace takes back the character typed last.
  lemma EraseUndoes(macOk: string -> bool, text: string, c: char, erase: char, rest: string)
    requires IsPlain([c]) && Erases(erase) && |text| + 1 < LINE_BUF_LEN
    ensures Assemble(macOk, text, [c, erase] + rest) == Assemble(macOk, text, rest)
  {
    assert [c, erase] + rest == [c] + ([erase] + rest);
    assert !EndsLine([c][0]) && !Erases([c][0]);
    OneByte(macOk, text, c, [erase] + rest);
    OneByte(macOk, text + [c], erase, rest);
    assert (text + [c])[..|text|] == text;
  }

  // A line that fits is delivered whole.
  lemma LineIsDelivered(macOk: string -> bool, line: string, break_: char, rest: string)
    requires IsPlain(line) && 0 < |line| < LINE_BUF_LEN && EndsLine(break_)
    ensures Assemble(macOk, [], line + [break_] + rest)
            == [Handled(Parse(macOk, Trim(line)))] + Assemble(macOk, [], rest)
  {
    assert line + [break_] + rest == line + ([break_] + rest);
    PlainIsKept(macOk, [], line, [break_] + rest);
    assert [] + line == line;
    OneByte(macOk, line, break_, rest);
    PlainIsVisible(line);
  }

  lemma PlainIsVisible(s: string)
    requires IsPlain(s)
    ensures Visible(s) == s
  {
  }

  // A line that does not fit is reported, and what follows its 768th character
  // is taken for a new line.
  lemma LongLineIsSplit(macOk: string -> bool, line: string, rest: string)
    requires IsPlain(line) && |line| == LINE_BUF_LEN
    ensures Assemble(macOk, [], line + rest) == [LineTooLong] + Assemble(macOk, [], rest)
  {
    var n := LINE_BUF_LEN - 1;
    assert line + rest == line[..n] + ([line[n]] + rest);
    PlainIsKept(macOk, [], line[..n], [line[n]] + rest);
    assert [] + line[..n] == line[..n];
    OneByte(macOk, line[..n], line[n], rest);
  }

  // ---------------------------------------------------------------------
  // What is refused, and what is left out

  lemma NameAndWord(name: string, word: string, tail: string)
    requires IsWord(name) && IsWord(word) && (tail != [] ==> IsSpace(tail[0]))
    ensures Word(name + " " + word + tail) == name && Rest(name + " " + word + tail) == word + tail
    ensures Word(word + tail) == word && Rest(word + tail) == if tail == [] then [] else tail[1..]
  {
    assert name + " " + word + tail == [] + name + [' '] + (word + tail);
    FirstWord([], name, ' ', word + tail);
    if tail == [] {
      assert word + tail == [] + word;
      LastWord([], word);
    } else {
      assert word + tail == [] + word + [tail[0]] + tail[1..];
      FirstWord([], word, tail[0], tail[1..]);
    }
  }

  lemma NameAlone(name: string)
    requires IsWord(name)
    ensures Word(name) == name && Rest(name) == [] && Word([]) == []
  {
    assert [] + name == name;
    LastWord([], name);
    NoWord([]);
  }

  // A command for a device is refused for its address exactly if there is none
  // or it is not one, whatever follows.
  lemma BadMacIsRefused(macOk: string -> bool, name: string, mac: string, tail: string)
    requires name in {"tools", "call", "ping"} && IsWord(mac) && (tail != [] ==> IsSpace(tail[0]))
    ensures Parse(macOk, name + " " + mac + tail) == BadMac <==> !macOk(mac)
    ensures Parse(macOk, name) == BadMac
  {
    NameAndWord(name, mac, tail);
    NameAlone(name);
  }

  lemma CallName(macOk: string -> bool, args: string)
    ensures Parse(macOk, "call " + args) == ParseCall(macOk, args)
  {
    assert "call " + args == [] + "call" + [' '] + args;
    FirstWord([], "call", ' ', args);
  }

  // A call needs a tool's name.
  lemma CallNeedsTool(macOk: string -> bool, mac: string)
    requires IsWord(mac) && macOk(mac)
    ensures Parse(macOk, "call " + mac) == MissingTool
  {
    CallName(macOk, mac);
    NameAlone(mac);
  }

  // Without arguments it gets the empty object.
  lemma CallWithoutArguments(macOk: string -> bool, mac: string, tool: string)
    requires IsWord(mac) && macOk(mac) && IsWord(tool)
    ensures Parse(macOk, "call " + (mac + " " + tool)) == Call(mac, tool, "{}")
  {
    CallName(macOk, mac + " " + tool);
    WordsOfTwo(mac, tool);
  }

  lemma WordsOfTwo(first: string, second: string)
    requires IsWord(first) && IsWord(second)
    ensures var s := first + " " + second;
            Word(s) == first && Word(Rest(s)) == second && SkipSpaces(Rest(Rest(s))) == []
  {
    assert first + " " + second == [] + first + [' '] + second;
    FirstWord([], first, ' ', second);
    NameAlone(second);
  }

  // A tools command may leave out the limit.
  lemma ToolsWithoutLimit(macOk: string -> bool, mac: string)
    requires IsWord(mac) && macOk(mac)
    ensures Parse(macOk, "tools " + mac) == Tools(mac, None)
  {
    NameAndWord("tools", mac, []);
    assert "tools" + " " + mac + [] == "tools " + mac;
    NoWord([]);
  }

  // Words on their own.
  lemma NameOnly(macOk: string -> bool, name: string)
    requires IsWord(name) && name !in {"tools", "call", "ping"}
    ensures Parse(macOk, name)
            == if name == "scan" then Scan(None, None) else if name == "help" then Help else Unknown(name)
    ensures Parse(macOk, []) == Nothing
  {
    NameAlone(name);
  }

  // The second character of a line break of two gives nothing.
  lemma BlankLineIsIgnored(macOk: string -> bool, break_: char, rest: string)
    requires EndsLine(break_)
    ensures Assemble(macOk, [], [break_] + rest) == Assemble(macOk, [], rest)
  {
    OneByte(macOk, [], break_, rest);
  }
}
