// Words of a command line, and the in-place C routines that cut them out of a
// NUL-terminated buffer.
module Words {
  import opened Types
  import opened Decimal

  // The C string at offset `at` of the buffer is s.
  predicate CString(buffer: seq<char>, at: nat, s: string) {
    at + |s| < |buffer| && buffer[at..at + |s|] == s && buffer[at + |s|] == '\0' && '\0' !in s
  }

  // What the character at the start of a C string says, and what follows it.
  lemma CStringHead(buffer: seq<char>, at: nat, s: string)
    requires CString(buffer, at, s)
    ensures buffer[at] == if s == [] then '\0' else s[0]
    ensures s != [] ==> CString(buffer, at + 1, s[1..])
  {
    if s != [] {
      assert buffer[at..at + |s|][0] == buffer[at];
      assert buffer[at + 1..at + |s|] == buffer[at..at + |s|][1..];
    }
  }

  function SkipSpaces(s: string): (r: string)
    ensures |r| <= |s| && (r != [] ==> !IsSpace(r[0]))
  {
    if s == [] || !IsSpace(s[0]) then s else SkipSpaces(s[1..])
  }

  function DropTrailing(s: string): (r: string)
    ensures r <= s
    ensures forall i | |r| <= i < |s| :: IsSpace(s[i])
    ensures r != [] ==> !IsSpace(r[|r| - 1])
  {
    if s == [] || !IsSpace(s[|s| - 1]) then s else DropTrailing(s[..|s| - 1])
  }

  function Trim(s: string): string {
    DropTrailing(SkipSpaces(s))
  }

  // The longest prefix without white space.
  function Head(s: string): (r: string)
    ensures r <= s && (|r| < |s| ==> IsSpace(s[|r|]))
    ensures s != [] && !IsSpace(s[0]) ==> r != []
  {
    if s == [] || IsSpace(s[0]) then [] else [s[0]] + Head(s[1..])
  }

  // The first word of s and what follows it and one separator.
  function Word(s: string): string {
    Head(SkipSpaces(s))
  }

  function Rest(s: string): (r: string)
    ensures Word(s) != [] ==> |r| < |s|
    ensures |r| <= |s|
  {
    AfterHead(SkipSpaces(s))
  }

  // ---------------------------------------------------------------------
  // The buffer routines

  method Strlen(line: array<char>, at: nat, ghost s: string) returns (n: nat)
    requires CString(line[..], at, s)
    ensures n == |s|
  {
    n := 0;
    ghost var t := s;
    CStringHead(line[..], at, t);
    while line[at + n] != '\0'
      invariant n + |t| == |s| && CString(line[..], at + n, t)
      decreases |t|
    {
      CStringHead(line[..], at + n, t);
      n, t := n + 1, t[1..];
    }
    CStringHead(line[..], at + n, t);
  }

  // memmove of n characters from offset `from` to the start of the buffer.
  method MoveDown(line: array<char>, from: nat, n: nat)
    requires from + n <= line.Length
    modifies line
    ensures line[..] == old(line[from..from + n]) + old(line[n..])
  {
    for i := 0 to n
      invariant forall j | 0 <= j < line.Length :: line[j] == if j < i then old(line[from + j]) else old(line[j])
    {
      line[i] := line[from + i];
    }
  }

  // Index of the first character at or after `at` that is not white space.
  method SkipFrom(line: array<char>, at: nat, ghost s: string) returns (p: nat)
    requires CString(line[..], at, s)
    ensures p == at + |s| - |SkipSpaces(s)| && CString(line[..], p, SkipSpaces(s))
  {
    p := at;
    ghost var t := s;
    CStringHead(line[..], p, t);
    while line[p] != '\0' && IsSpace(line[p])
      invariant p + |t| == at + |s| && CString(line[..], p, t) && SkipSpaces(t) == SkipSpaces(s)
      decreases |t|
    {
      CStringHead(line[..], p, t);
      p, t := p + 1, t[1..];
    }
    CStringHead(line[..], p, t);
  }

  lemma CStringAt(buffer: seq<char>, at: nat, s: string, n: nat)
    requires CString(buffer, at, s) && n <= |s|
    ensures buffer[at + n] == if n == |s| then '\0' else s[n]
    ensures CString(buffer, at + n, s[n..]) && '\0' !in s
  {
    assert buffer[at + n..at + |s|] == buffer[at..at + |s|][n..];
    assert n < |s| ==> buffer[at..at + |s|][n] == buffer[at + n];
  }

  lemma {:induction false} HeadLength(s: string, n: nat)
    requires n <= |s| && (forall i | 0 <= i < n :: !IsSpace(s[i])) && (n < |s| ==> IsSpace(s[n]))
    ensures |Head(s)| == n
  {
    if n > 0 {
      HeadLength(s[1..], n - 1);
    }
  }

  // Index of the first character at or after `at` that ends the word there.
  method EndOfWord(line: array<char>, at: nat, ghost s: string) returns (p: nat)
    requires CString(line[..], at, s)
    ensures p == at + |Head(s)| && CString(line[..], p, s[|Head(s)|..])
  {
    p := at;
    ghost var buffer := line[..];
    while line[p] != '\0' && !IsSpace(line[p])
      invariant WordSoFar(buffer, at, s, p)
      decreases at + |s| - p
    {
      OneFurther(buffer, at, s, p);
      p := p + 1;
    }
    WordEnds(buffer, at, s, p);
  }

  // Between `at` and p there is only the word at the start of s.
  ghost predicate WordSoFar(buffer: seq<char>, at: nat, s: string, p: nat) {
    && CString(buffer, at, s) && at <= p <= at + |s|
    && forall i | 0 <= i < p - at :: !IsSpace(s[i])
  }

  lemma OneFurther(buffer: seq<char>, at: nat, s: string, p: nat)
    requires WordSoFar(buffer, at, s, p) && buffer[p] != '\0' && !IsSpace(buffer[p])
    ensures p < at + |s| && WordSoFar(buffer, at, s, p + 1)
  {
    CStringAt(buffer, at, s, p - at);
  }

  lemma WordEnds(buffer: seq<char>, at: nat, s: string, p: nat)
    requires WordSoFar(buffer, at, s, p) && (buffer[p] == '\0' || IsSpace(buffer[p]))
    ensures p == at + |Head(s)| && CString(buffer, p, s[|Head(s)|..])
  {
    CStringAt(buffer, at, s, p - at);
    assert p - at < |s| ==> s[p - at] in s;
    HeadLength(s, p - at);
  }

  // Ending the string one character earlier.
  lemma CStringCut(buffer: seq<char>, at: nat, s: string, n: nat)
    requires CString(buffer, at, s) && n <= |s|
    ensures CString(buffer[at + n := '\0'], at, s[..n])
  {
    var cut := buffer[at + n := '\0'];
    assert cut[at..at + n] == buffer[at..at + |s|][..n];
  }

  method TrimLine(line: array<char>, ghost s: string)
    requires CString(line[..], 0, s)
    modifies line
    ensures CString(line[..], 0, Trim(s))
  {
    var start := SkipFrom(line, 0, s);
    ghost var t := SkipSpaces(s);
    if start != 0 {
      var n := Strlen(line, start, t);
      ghost var was := line[..];
      MoveDown(line, start, n + 1);
      assert line[..] == was[start..start + n + 1] + was[n + 1..];
      assert was[start..start + n + 1] == t + ['\0'];
    }
    TrimEnd(line, t);
  }

  method TrimEnd(line: array<char>, ghost t: string)
    requires CString(line[..], 0, t)
    modifies line
    ensures CString(line[..], 0, DropTrailing(t))
  {
    var len := Strlen(line, 0, t);
    ghost var u := t;
    while len > 0 && IsSpace(line[len - 1])
      invariant len == |u| && CString(line[..], 0, u) && DropTrailing(u) == DropTrailing(t)
      decreases len
    {
      CStringCut(line[..], 0, u, len - 1);
      assert line[len - 1] == u[len - 1];
      len := len - 1;
      line[len] := '\0';
      u := u[..len];
    }
    if len > 0 {
      assert line[len - 1] == u[len - 1];
    }
  }

  // Cuts off the first word: `token` is where it now sits as a C string and
  // `next` is where the unread remainder starts.  Of the whole buffer only the
  // separator after the word is overwritten.
  method NextToken(line: array<char>, cursor: nat, ghost s: string) returns (token: Option<nat>, next: nat)
    requires CString(line[..], cursor, s)
    modifies line
    ensures CString(line[..], next, Rest(s)) && cursor <= next
    ensures Word(s) == [] ==> token == None && line[..] == old(line[..])
    ensures Word(s) != [] ==>
              && token.Some? && cursor <= token.value && token.value + |Word(s)| <= next
              && CString(line[..], token.value, Word(s))
              && line[..] == old(line[..])[token.value + |Word(s)| := '\0']
  {
    var p := SkipFrom(line, cursor, s);
    ghost var t := SkipSpaces(s);
    CStringHead(line[..], p, t);
    if line[p] == '\0' {
      return None, p;
    }
    token := Some(p);
    next := CutWord(line, p, t);
  }

  function AfterHead(t: string): (r: string) {
    if |Head(t)| < |t| then t[|Head(t)| + 1..] else []
  }

  method CutWord(line: array<char>, at: nat, ghost t: string) returns (next: nat)
    requires CString(line[..], at, t)
    modifies line
    ensures at + |Head(t)| <= next && line[..] == old(line[..])[at + |Head(t)| := '\0']
    ensures CString(line[..], at, Head(t)) && CString(line[..], next, AfterHead(t))
  {
    next := EndOfWord(line, at, t);
    ghost var q := next;
    ghost var was := line[..];
    WordCut(was, at, t);
    if line[next] != '\0' {
      line[next] := '\0';
      next := next + 1;
    }
    assert line[..] == was[q := '\0'];
  }

  // Writing the terminator after the first word leaves the word in front of it
  // and the rest behind it.
  lemma WordCut(buffer: seq<char>, at: nat, t: string)
    requires CString(buffer, at, t)
    ensures var q := at + |Head(t)|;
            var cut := buffer[q := '\0'];
            && CString(cut, at, Head(t))
            && (buffer[q] == '\0' <==> |Head(t)| == |t|)
            && (|Head(t)| < |t| ==> CString(cut, q + 1, t[|Head(t)| + 1..]))
            && (|Head(t)| == |t| ==> CString(cut, q, []))
  {
    var n := |Head(t)|;
    var cut := buffer[at + n := '\0'];
    assert cut[at..at + n] == buffer[at..at + |t|][..n] == t[..n];
    if n < |t| {
      assert buffer[at + n] == buffer[at..at + |t|][n] == t[n];
      assert cut[at + n + 1..at + |t|] == buffer[at..at + |t|][n + 1..];
    }
  }

  // A later cut leaves an earlier string alone.
  lemma CutKeeps(buffer: seq<char>, at: nat, s: string, q: nat)
    requires CString(buffer, at, s) && at + |s| <= q < |buffer|
    ensures CString(buffer[q := '\0'], at, s)
  {
    assert buffer[q := '\0'][at..at + |s|] == buffer[at..at + |s|];
  }

  // The words sit at their offsets, each ended before the cursor.
  predicate TokensAt(buffer: seq<char>, cursor: nat, offsets: seq<nat>, words: seq<string>) {
    && |offsets| == |words|
    && forall i | 0 <= i < |offsets| :: CString(buffer, offsets[i], words[i]) && offsets[i] + |words[i]| <= cursor
  }

  lemma TokensStay(buffer: seq<char>, cursor: nat, offsets: seq<nat>, words: seq<string>, at: nat, word: string,
                   next: nat)
    requires TokensAt(buffer, cursor, offsets, words) && cursor <= at && at + |word| <= next && at + |word| < |buffer|
    requires CString(buffer[at + |word| := '\0'], at, word)
    ensures TokensAt(buffer[at + |word| := '\0'], next, offsets + [at], words + [word])
  {
    forall i | 0 <= i < |offsets|
      ensures CString(buffer[at + |word| := '\0'], offsets[i], words[i])
    {
      CutKeeps(buffer, offsets[i], words[i], at + |word|);
    }
  }

  // ---------------------------------------------------------------------
  // What the routines compute, said without them

  predicate AllSpaces(s: string) {
    forall i | 0 <= i < |s| :: IsSpace(s[i])
  }

  predicate IsWord(s: string) {
    s != [] && forall i | 0 <= i < |s| :: !IsSpace(s[i])
  }

  lemma {:induction false} SkipGap(gap: string, t: string)
    requires AllSpaces(gap) && (t != [] ==> !IsSpace(t[0]))
    ensures SkipSpaces(gap + t) == t
  {
    if gap == [] {
      assert gap + t == t;
    } else {
      assert (gap + t)[1..] == gap[1..] + t;
      SkipGap(gap[1..], t);
    }
  }

  lemma {:induction false} HeadOfWord(w: string, tail: string)
    requires (forall i | 0 <= i < |w| :: !IsSpace(w[i])) && (tail != [] ==> IsSpace(tail[0]))
    ensures Head(w + tail) == w
  {
    if w == [] {
      assert w + tail == tail;
    } else {
      assert (w + tail)[1..] == w[1..] + tail;
      HeadOfWord(w[1..], tail);
    }
  }

  // A line that starts with a gap, a word and a separator.
  lemma FirstWord(gap: string, w: string, separator: char, rest: string)
    requires AllSpaces(gap) && IsWord(w) && IsSpace(separator)
    ensures Word(gap + w + [separator] + rest) == w && Rest(gap + w + [separator] + rest) == rest
  {
    var t := w + ([separator] + rest);
    assert gap + w + [separator] + rest == gap + t;
    SkipGap(gap, t);
    HeadOfWord(w, [separator] + rest);
  }

  lemma LastWord(gap: string, w: string)
    requires AllSpaces(gap) && IsWord(w)
    ensures Word(gap + w) == w && Rest(gap + w) == []
  {
    SkipGap(gap, w);
    HeadOfWord(w, []);
    assert w + [] == w;
  }

  lemma NoWord(gap: string)
    requires AllSpaces(gap)
    ensures Word(gap) == [] && Rest(gap) == []
  {
    SkipGap(gap, []);
    assert gap + [] == gap;
  }

  // The words that calling the tokeniser again and again returns.
  function AllWords(s: string): seq<string>
    decreases |s|
  {
    if Word(s) == [] then [] else
      WordShortens(s);
      [Word(s)] + AllWords(Rest(s))
  }

  // Every call that returns a word shortens what is left to read.
  lemma WordShortens(s: string)
    requires Word(s) != []
    ensures |Rest(s)| < |s|
  {
  }

  // Some words have been taken, each sits at its offset, and `rest` is unread.
  ghost predicate Taken(s: string, buffer: seq<char>, cursor: nat, offsets: seq<nat>, words: seq<string>,
                        rest: string) {
    && CString(buffer, cursor, rest) && TokensAt(buffer, cursor, offsets, words)
    && AllWords(s) == words + AllWords(rest)
  }

  lemma TakeOne(s: string, was: seq<char>, cursor: nat, offsets: seq<nat>, words: seq<string>, rest: string,
                buffer: seq<char>, at: nat, next: nat)
    requires Taken(s, was, cursor, offsets, words, rest) && Word(rest) != [] && CString(buffer, next, Rest(rest))
    requires cursor <= at && at + |Word(rest)| <= next && CString(buffer, at, Word(rest))
    requires at + |Word(rest)| < |was| && buffer == was[at + |Word(rest)| := '\0']
    ensures Taken(s, buffer, next, offsets + [at], words + [Word(rest)], Rest(rest))
  {
    TokensStay(was, cursor, offsets, words, at, Word(rest), next);
    FirstOfAllWords(words, rest);
  }

  lemma FirstOfAllWords(words: seq<string>, rest: string)
    requires Word(rest) != []
    ensures words + AllWords(rest) == words + [Word(rest)] + AllWords(Rest(rest))
  {
    assert AllWords(rest) == [Word(rest)] + AllWords(Rest(rest));
  }

  // Taking token after token and reading none of them until the end: the later
  // cuts in the shared buffer spoil no earlier token.
  method AllTokens(line: array<char>, at: nat, ghost s: string) returns (offsets: seq<nat>)
    requires CString(line[..], at, s)
    modifies line
    ensures |offsets| == |AllWords(s)|
    ensures forall i | 0 <= i < |offsets| :: CString(line[..], offsets[i], AllWords(s)[i])
  {
    offsets := [];
    var token, cursor := None, at;
    ghost var words, rest := [], s;
    while true
      invariant Taken(s, line[..], cursor, offsets, words, rest)
      decreases |rest|
    {
      ghost var was, from := line[..], cursor;
      token, cursor := NextToken(line, cursor, rest);
      if token.None? {
        return offsets;
      }
      TakeOne(s, was, from, offsets, words, rest, line[..], token.value, cursor);
      WordShortens(rest);
      offsets, words, rest := offsets + [token.value], words + [Word(rest)], Rest(rest);
    }
  }

  // gaps[0] words[0] gaps[1] words[1] ... gaps[n]
  function Layout(words: seq<string>, gaps: seq<string>): string
    requires |gaps| == |words| + 1
  {
    if words == [] then gaps[0] else gaps[0] + words[0] + Layout(words[1..], gaps[1..])
  }

  predicate ProperLayout(words: seq<string>, gaps: seq<string>) {
    && |gaps| == |words| + 1
    && (forall i | 0 <= i < |words| :: IsWord(words[i]))
    && (forall i | 0 <= i < |gaps| :: AllSpaces(gaps[i]))
    && (forall i | 0 < i < |words| :: gaps[i] != [])
  }

  // Tokenising any arrangement of words and gaps gives back exactly the words.
  lemma {:induction false} AllWordsOfLayout(words: seq<string>, gaps: seq<string>)
    requires ProperLayout(words, gaps)
    ensures AllWords(Layout(words, gaps)) == words
  {
    if words == [] {
      NoWord(gaps[0]);
    } else {
      var shorter := NextOfLayout(words, gaps);
      AllWordsOfLayout(words[1..], shorter);
    }
  }

  // Reading one word leaves an arrangement of the others.
  lemma NextOfLayout(words: seq<string>, gaps: seq<string>) returns (shorter: seq<string>)
    requires ProperLayout(words, gaps) && words != []
    ensures Word(Layout(words, gaps)) == words[0]
    ensures ProperLayout(words[1..], shorter) && Rest(Layout(words, gaps)) == Layout(words[1..], shorter)
  {
    var tail := Layout(words[1..], gaps[1..]);
    if tail == [] {
      TailIsEmpty(words[1..], gaps[1..]);
      LastWord(gaps[0], words[0]);
      assert gaps[0] + words[0] + [] == gaps[0] + words[0];
      shorter := [[]];
    } else {
      shorter := [gaps[1][1..]] + gaps[1..][1..];
      TailStartsWithGap(words[1..], gaps[1..]);
      FirstWord(gaps[0], words[0], tail[0], tail[1..]);
      assert gaps[0] + words[0] + [tail[0]] + tail[1..] == gaps[0] + words[0] + tail;
    }
  }

  lemma TailIsEmpty(words: seq<string>, gaps: seq<string>)
    requires |gaps| == |words| + 1 && Layout(words, gaps) == []
    requires forall i | 0 <= i < |words| :: IsWord(words[i])
    ensures words == []
  {
  }

  // The part after a word starts with white space, and losing that one
  // separator leaves an arrangement of the same words.
  lemma TailStartsWithGap(words: seq<string>, gaps: seq<string>)
    requires |gaps| == |words| + 1 && Layout(words, gaps) != []
    requires forall i | 0 <= i < |words| :: IsWord(words[i])
    requires forall i | 0 <= i < |gaps| :: AllSpaces(gaps[i])
    requires forall i | 0 <= i < |words| :: gaps[i] != []
    ensures gaps[0] != [] && IsSpace(Layout(words, gaps)[0])
    ensures Layout(words, gaps)[1..] == Layout(words, [gaps[0][1..]] + gaps[1..])
    ensures ProperLayout(words, [gaps[0][1..]] + gaps[1..])
  {
    var shorter := [gaps[0][1..]] + gaps[1..];
    assert shorter[1..] == gaps[1..];
    if words != [] {
      assert Layout(words, gaps) == gaps[0] + words[0] + Layout(words[1..], gaps[1..]);
    }
  }

  // And every line is such an arrangement of its words.
  lemma {:induction false} LineIsLayout(s: string) returns (gaps: seq<string>)
    ensures ProperLayout(AllWords(s), gaps) && s == Layout(AllWords(s), gaps)
    decreases |s|
  {
    if Word(s) == [] {
      var gap := SplitGap(s);
      assert gap + [] == gap;
      gaps := [gap];
    } else {
      WordShortens(s);
      var rest := LineIsLayout(Rest(s));
      gaps := PutBack(s, AllWords(Rest(s)), rest);
      assert AllWords(s) == [Word(s)] + AllWords(Rest(s));
    }
  }

  lemma PutBack(s: string, words: seq<string>, rest: seq<string>) returns (gaps: seq<string>)
    requires Word(s) != [] && ProperLayout(words, rest) && Rest(s) == Layout(words, rest)
    ensures ProperLayout([Word(s)] + words, gaps) && s == Layout([Word(s)] + words, gaps)
  {
    var gap, separator := FirstPieces(s);
    if separator == [] {
      TailIsEmpty(words, rest);
    }
    LayoutPrefix(separator, words, rest);
    gaps := AddWord(gap, Word(s), [separator + rest[0]] + rest[1..], words);
  }

  // A line is a gap, its first word, at most one separator, and the rest.
  lemma FirstPieces(s: string) returns (gap: string, separator: string)
    requires Word(s) != []
    ensures AllSpaces(gap) && AllSpaces(separator) && IsWord(Word(s))
    ensures s == gap + Word(s) + (separator + Rest(s)) && (separator == [] ==> Rest(s) == [])
  {
    gap := SplitGap(s);
    separator := SplitHead(SkipSpaces(s));
    assert gap + (Word(s) + (separator + Rest(s))) == gap + Word(s) + (separator + Rest(s));
  }

  lemma SplitHead(t: string) returns (separator: string)
    requires Head(t) != []
    ensures AllSpaces(separator) && IsWord(Head(t)) && t == Head(t) + (separator + AfterHead(t))
    ensures separator == [] ==> AfterHead(t) == []
  {
    HeadIsWord(t);
    var n := |Head(t)|;
    separator := if n < |t| then [t[n]] else [];
    assert t == t[..n] + t[n..];
    assert n < |t| ==> t[n..] == [t[n]] + t[n + 1..];
  }

  lemma AddWord(gap: string, word: string, rest: seq<string>, words: seq<string>) returns (gaps: seq<string>)
    requires AllSpaces(gap) && IsWord(word) && ProperLayout(words, rest) && (words != [] ==> rest[0] != [])
    ensures ProperLayout([word] + words, gaps)
    ensures Layout([word] + words, gaps) == gap + word + Layout(words, rest)
  {
    gaps := [gap] + rest;
    assert gaps[1..] == rest && ([word] + words)[1..] == words;
  }

  lemma LayoutPrefix(prefix: string, words: seq<string>, gaps: seq<string>)
    requires |gaps| == |words| + 1
    ensures Layout(words, [prefix + gaps[0]] + gaps[1..]) == prefix + Layout(words, gaps)
  {
    assert ([prefix + gaps[0]] + gaps[1..])[1..] == gaps[1..];
  }

  lemma {:induction false} SplitGap(s: string) returns (gap: string)
    ensures AllSpaces(gap) && s == gap + SkipSpaces(s)
  {
    if s == [] || !IsSpace(s[0]) {
      gap := [];
    } else {
      var more := SplitGap(s[1..]);
      gap := [s[0]] + more;
    }
  }

  lemma {:induction false} HeadIsWord(t: string)
    ensures forall i | 0 <= i < |Head(t)| :: !IsSpace(Head(t)[i])
  {
    if t != [] && !IsSpace(t[0]) {
      HeadIsWord(t[1..]);
    }
  }

  // Trimming removes exactly the white space around a text.
  lemma TrimExact(before: string, t: string, after: string)
    requires AllSpaces(before) && AllSpaces(after)
    requires t != [] ==> !IsSpace(t[0]) && !IsSpace(t[|t| - 1])
    ensures Trim(before + t + after) == t
  {
    if t == [] {
      assert before + t + after == before + after + [];
      SkipGap(before + after, []);
    } else {
      assert before + t + after == before + (t + after);
      SkipGap(before, t + after);
      DropGap(t, after);
    }
  }

  lemma {:induction false} DropGap(t: string, gap: string)
    requires AllSpaces(gap) && t != [] && !IsSpace(t[|t| - 1])
    ensures DropTrailing(t + gap) == t
  {
    if gap == [] {
      assert t + gap == t;
    } else {
      assert (t + gap)[..|t + gap| - 1] == t + gap[..|gap| - 1];
      DropGap(t, gap[..|gap| - 1]);
    }
  }
}
