// tools/list: the tool table, one page per request, chained by cursors.
module ToolsList {
  import opened Types
  import opened Decimal

  const DEFAULT_LIMIT := 8
  const INT_MAX := 0x7fff_ffff
  const CURSOR_BUFFER := 16

  datatype ToolInfo = ToolInfo(name: CText, description: CText, destructive: bool, inputSchema: CText)

  // The members of the request that count: a cursor string and a numeric limit.
  datatype Request = Request(cursor: Option<string>, limit: Option<int>)

  datatype Page = Page(tools: seq<ToolInfo>, nextCursor: Option<string>)

  // The cast from int to a 32-bit size_t.
  function ToSize(x: int): u32 {
    x % 0x1_0000_0000
  }

  predicate IsInt(x: int) {
    -INT_MAX - 1 <= x <= INT_MAX
  }

  function StartOf(r: Request): int {
    if r.cursor.Some? then Atoi(r.cursor.value) else 0
  }

  // The limit in force: what was asked for, if it is between 1 and 8.
  function Limit(asked: Option<int>): (limit: nat)
    ensures 1 <= limit <= DEFAULT_LIMIT
  {
    if asked.Some? && 0 < asked.value <= DEFAULT_LIMIT then asked.value else DEFAULT_LIMIT
  }

  // A page is the stretch of the table from `start`, at most `limit` long; a
  // start outside the table yields an empty last page.
  function PageAt(tools: seq<ToolInfo>, start: int, limit: nat): Page {
    var lo := if 0 <= start <= |tools| then start else |tools|;
    var hi := if lo + limit <= |tools| then lo + limit else |tools|;
    Page(tools[lo..hi], if hi < |tools| then Some(PrintInt(hi)) else None)
  }

  // The table fits the address space, so its indices are ints.
  method ListTools(tools: seq<ToolInfo>, r: Request) returns (page: Page)
    requires |tools| <= INT_MAX && IsInt(StartOf(r))
    ensures page == PageAt(tools, StartOf(r), Limit(r.limit))
  {
    var start := 0;
    if r.cursor.Some? {
      start := Atoi(r.cursor.value);
    }
    var limit := DEFAULT_LIMIT;
    if r.limit.Some? && r.limit.value > 0 {
      limit := r.limit.value;
    }
    if limit > DEFAULT_LIMIT {
      limit := DEFAULT_LIMIT;
    }
    page := ListFrom(tools, start, limit);
  }

  method ListFrom(tools: seq<ToolInfo>, start: int, limit: nat) returns (page: Page)
    requires |tools| <= INT_MAX && IsInt(start)
    ensures page == PageAt(tools, start, limit)
  {
    var listed: seq<ToolInfo> := [];
    var emitted := 0;
    var i: int := ToSize(start);
    ghost var lo: int := if i <= |tools| then i else |tools|;
    while i < |tools| && emitted < limit
      invariant 0 <= emitted <= limit && i == ToSize(start) + emitted
      invariant i <= |tools| ==> lo + emitted == i
      invariant i > |tools| ==> emitted == 0
      invariant 0 <= lo <= lo + emitted <= |tools| && listed == tools[lo..lo + emitted]
    {
      listed := listed + [tools[i]];
      emitted := emitted + 1;
      i := i + 1;
    }
    var next := start + emitted;
    CastBack(start, emitted, |tools|);
    page := Page(listed, if ToSize(next) < |tools| then Some(PrintInt(next)) else None);
  }

  // The page, told without the functions that compute it: the tools from the
  // cursor's position on, as many as asked for if that is 1 to 8 and otherwise
  // eight, as far as there are any; a next cursor exactly if some are left; and
  // nothing at all for a position outside the table.
  lemma PageContents(tools: seq<ToolInfo>, r: Request, start: int, limit: nat)
    requires if r.cursor.None? then start == 0 else start == Atoi(r.cursor.value)
    requires if r.limit.Some? && 1 <= r.limit.value <= 8 then limit == r.limit.value else limit == 8
    ensures var page := PageAt(tools, StartOf(r), Limit(r.limit));
            if start < 0 || start >= |tools| then
              page == Page([], None)
            else
              var count := if start + limit < |tools| then limit else |tools| - start;
              && page.tools == tools[start..start + count]
              && page.nextCursor == if start + limit < |tools| then Some(PrintInt(start + limit)) else None
  {
    assert Limit(r.limit) == limit && StartOf(r) == start;
    if start < 0 || start >= |tools| {
      assert tools[|tools|..|tools|] == [];
    }
  }

  // Casting does not move a position that may lie in the table, and puts every
  // other one outside.
  lemma CastBack(start: int, emitted: nat, total: nat)
    requires IsInt(start) && total <= INT_MAX && (emitted > 0 ==> ToSize(start) + emitted <= total)
    ensures 0 <= start <= total <==> ToSize(start) <= total
    ensures 0 <= start <= total ==> ToSize(start) == start
    ensures ToSize(start + emitted) < total <==> 0 <= start && start + emitted < total
  {
  }

  // The cursor text fits its buffer, terminator included, and names the same
  // position when it comes back.
  lemma CursorRoundTrip(next: nat)
    requires next <= INT_MAX
    ensures |PrintInt(next)| < CURSOR_BUFFER && Atoi(PrintInt(next)) == next
  {
    PrintNatLength(next, 10);
    AtoiPrintNat(next, []);
    assert PrintInt(next) == PrintNat(next) + [];
  }

  // A client that starts at `start` and asks again with every cursor it is
  // given; limits(k) is the limit it sends with its request number k.
  ghost function Follow(tools: seq<ToolInfo>, start: nat, limits: nat -> Option<int>, k: nat): (r: seq<Page>)
    requires start <= |tools| <= INT_MAX
    ensures r != []
    decreases |tools| - start
  {
    var page := PageAt(tools, start, Limit(limits(k)));
    if page.nextCursor.None? then [page]
    else
      CursorRoundTrip(start + Limit(limits(k)));
      [page] + Follow(tools, Atoi(page.nextCursor.value), limits, k + 1)
  }

  ghost function Joined(pages: seq<Page>): seq<ToolInfo> {
    if pages == [] then [] else pages[0].tools + Joined(pages[1..])
  }

  lemma JoinedCons(page: Page, rest: seq<Page>)
    ensures Joined([page] + rest) == page.tools + Joined(rest)
  {
    assert ([page] + rest)[1..] == rest;
  }

  // The client's second request starts where its first page ended.
  lemma FollowStep(tools: seq<ToolInfo>, start: nat, limits: nat -> Option<int>, k: nat)
    requires start <= |tools| <= INT_MAX
    ensures var next := start + Limit(limits(k));
            Follow(tools, start, limits, k)
            == if next < |tools| then
                 [Page(tools[start..next], Some(PrintInt(next)))] + Follow(tools, next, limits, k + 1)
               else
                 [Page(tools[start..], None)]
  {
    var next := start + Limit(limits(k));
    if next < |tools| {
      CursorRoundTrip(next);
    } else {
      assert PageAt(tools, start, Limit(limits(k))).tools == tools[start..];
    }
  }

  // Wherever it starts, following the cursors lists the rest of the table in
  // order, every tool once.
  lemma {:induction false} FollowListsRest(tools: seq<ToolInfo>, start: nat, limits: nat -> Option<int>, k: nat)
    requires start <= |tools| <= INT_MAX
    ensures Joined(Follow(tools, start, limits, k)) == tools[start..]
    decreases |tools| - start
  {
    JoinedStep(tools, start, limits, k);
    var next := start + Limit(limits(k));
    if next < |tools| {
      FollowListsRest(tools, next, limits, k + 1);
      Slices(tools, start, next);
    }
  }

  lemma Slices(tools: seq<ToolInfo>, lo: nat, hi: nat)
    requires lo <= hi <= |tools|
    ensures tools[lo..hi] + tools[hi..] == tools[lo..]
  {
  }

  lemma JoinedStep(tools: seq<ToolInfo>, start: nat, limits: nat -> Option<int>, k: nat)
    requires start <= |tools| <= INT_MAX
    ensures var next := start + Limit(limits(k));
            Joined(Follow(tools, start, limits, k))
            == if next < |tools| then tools[start..next] + Joined(Follow(tools, next, limits, k + 1)) else tools[start..]
  {
    FollowStep(tools, start, limits, k);
    var next := start + Limit(limits(k));
    if next < |tools| {
      JoinedCons(Page(tools[start..next], Some(PrintInt(next))), Follow(tools, next, limits, k + 1));
    } else {
      JoinedCons(Page(tools[start..], None), []);
      assert [Page(tools[start..], None)] + [] == [Page(tools[start..], None)];
    }
  }

  // A client that sends no cursor first gets the whole table.
  lemma FollowListsTable(tools: seq<ToolInfo>, limits: nat -> Option<int>)
    requires |tools| <= INT_MAX
    ensures StartOf(Request(None, limits(0))) == 0 && Joined(Follow(tools, 0, limits, 0)) == tools
  {
    FollowListsRest(tools, 0, limits, 0);
  }

  // The pages of l tools that `rest` tools take; one even if there are none.
  function PagesNeeded(rest: nat, l: nat): nat
    requires 0 < l
  {
    if rest <= l then 1 else 1 + PagesNeeded(rest - l, l)
  }

  // That is the quotient rounded up.
  lemma {:induction false} PagesNeededRoundsUp(rest: nat, l: nat)
    requires 0 < l && 0 < rest
    ensures (PagesNeeded(rest, l) - 1) * l < rest <= PagesNeeded(rest, l) * l
  {
    if rest > l {
      PagesNeededRoundsUp(rest - l, l);
      OneMorePage(PagesNeeded(rest - l, l), rest, l);
    }
  }

  lemma OneMorePage(pages: nat, rest: nat, l: nat)
    requires (pages - 1) * l < rest - l <= pages * l
    ensures (pages + 1 - 1) * l < rest <= (pages + 1) * l
  {
    assert (pages + 1) * l == pages * l + l;
    assert (pages - 1) * l == pages * l - l;
  }

  // Where the pages of one client start, if every limit is l.
  ghost function Starts(total: nat, start: nat, l: nat): (r: seq<nat>)
    requires 0 < l
    decreases total - start
  {
    if start + l < total then [start] + Starts(total, start + l, l) else [start]
  }

  lemma {:induction false} FollowVisitsStarts(tools: seq<ToolInfo>, start: nat, limits: nat -> Option<int>, l: nat, k: nat)
    returns (n: nat)
    requires start <= |tools| <= INT_MAX && 0 < l && forall i: nat :: Limit(limits(i)) == l
    ensures n == |Follow(tools, start, limits, k)|
    ensures n == |Starts(|tools|, start, l)|
    decreases |tools| - start
  {
    n := 1;
    assert Limit(limits(k)) == l;
    var next := start + l;
    if next < |tools| {
      n := FollowVisitsStarts(tools, next, limits, l, k + 1);
      n := n + 1;
    }
    FollowLength(tools, start, limits, k);
    StartsStep(|tools|, start, next, l);
  }

  lemma StartsStep(total: nat, start: nat, next: nat, l: nat)
    requires 0 < l && next == start + l
    ensures |Starts(total, start, l)| == if next < total then 1 + |Starts(total, next, l)| else 1
  {
  }

  lemma FollowLength(tools: seq<ToolInfo>, start: nat, limits: nat -> Option<int>, k: nat)
    requires start <= |tools| <= INT_MAX
    ensures var next := start + Limit(limits(k));
            |Follow(tools, start, limits, k)|
            == if next < |tools| then 1 + |Follow(tools, next, limits, k + 1)| else 1
  {
    FollowStep(tools, start, limits, k);
  }

  lemma {:induction false} StartsNeeded(total: nat, start: nat, l: nat)
    requires 0 < l && start <= total
    ensures |Starts(total, start, l)| == PagesNeeded(total - start, l)
    decreases total - start
  {
    if start + l < total {
      StartsNeeded(total, start + l, l);
      assert total - start - l == total - (start + l);
    }
  }

  // With one limit l throughout, exactly as many pages as that limit requires.
  lemma PageCount(tools: seq<ToolInfo>, limits: nat -> Option<int>, l: nat)
    requires |tools| <= INT_MAX && 0 < l && forall i: nat :: Limit(limits(i)) == l
    ensures var pages := |Follow(tools, 0, limits, 0)|;
            if tools == [] then pages == 1 else (pages - 1) * l < |tools| <= pages * l
  {
    var pages := FollowVisitsStarts(tools, 0, limits, l, 0);
    StartsNeeded(|tools|, 0, l);
    if tools != [] {
      PagesNeededRoundsUp(|tools|, l);
    }
  }
}
