/**
 Cursor pagination of the leaderboard: sort by score and user id, find the cursor, cut a page, encode
 the cursors of the neighbouring pages. A cursor is the encoded (score, userId) pair; user ids are
 compared by their rank in the collation order.
 */
module CursorPages {
  import opened Common

  /** `userId` is the position of the id in the collation order. */
  datatype Entry = Entry(userId: int, score: int, username: string)

  datatype Cursor = Cursor(score: int, userId: int)

  datatype Page = Page(data: seq<Entry>, nextCursor: Option<Cursor>, prevCursor: Option<Cursor>,
                       hasNext: bool, hasPrev: bool)

  datatype Error = NoEntryToEncode

  function EncodeCursor(e: Entry): Cursor {
    Cursor(e.score, e.userId)
  }

  // ---- The order ------------------------------------------------------------------------------

  predicate Before(a: Entry, b: Entry) {
    a.score > b.score || (a.score == b.score && a.userId < b.userId)
  }

  ghost predicate DistinctUsers(entries: seq<Entry>) {
    forall i, j | 0 <= i < j < |entries| :: entries[i].userId != entries[j].userId
  }

  ghost predicate Sorted(entries: seq<Entry>) {
    forall i, j | 0 <= i < j < |entries| :: !Before(entries[j], entries[i])
  }

  function Insert(e: Entry, sorted: seq<Entry>): (r: seq<Entry>)
    requires Sorted(sorted)
    ensures Sorted(r) && multiset(r) == multiset(sorted) + multiset{e}
  {
    if sorted == [] || Before(e, sorted[0]) then
      assert multiset([e] + sorted) == multiset(sorted) + multiset{e};
      [e] + sorted
    else
      var rest := Insert(e, sorted[1..]);
      InsertAfterHead(e, sorted, rest);
      [sorted[0]] + rest
  }

  lemma InsertAfterHead(e: Entry, sorted: seq<Entry>, rest: seq<Entry>)
    requires Sorted(sorted) && sorted != [] && !Before(e, sorted[0])
    requires Sorted(rest) && multiset(rest) == multiset(sorted[1..]) + multiset{e}
    ensures Sorted([sorted[0]] + rest) && multiset([sorted[0]] + rest) == multiset(sorted) + multiset{e}
  {
    assert sorted == [sorted[0]] + sorted[1..];
    forall j | 0 <= j < |rest|
      ensures !Before(rest[j], sorted[0])
    {
      assert rest[j] in multiset(rest);
      if rest[j] != e {
        assert rest[j] in sorted[1..];
      }
    }
  }

  /** What `Array.prototype.sort` does with the page's comparator. */
  function Sort(entries: seq<Entry>): (r: seq<Entry>)
    ensures Sorted(r) && multiset(r) == multiset(entries)
  {
    if entries == [] then []
    else
      assert entries == entries[..|entries| - 1] + [entries[|entries| - 1]];
      Insert(entries[|entries| - 1], Sort(entries[..|entries| - 1]))
  }

  lemma SortKeepsDistinct(entries: seq<Entry>)
    requires DistinctUsers(entries)
    ensures DistinctUsers(Sort(entries)) && |Sort(entries)| == |entries|
  {
    var r := Sort(entries);
    assert |multiset(r)| == |multiset(entries)|;
    forall i, j | 0 <= i < j < |r|
      ensures r[i].userId != r[j].userId
    {
      if r[i].userId == r[j].userId {
        DistinctOccurOnce(entries, r[i], r[j]);
        BothCounted(r, i, j);
        assert false;
      }
    }
  }

  lemma BothCounted(r: seq<Entry>, i: nat, j: nat)
    requires i < j < |r|
    ensures (if r[i] == r[j] then multiset(r)[r[i]] else multiset(r)[r[i]] + multiset(r)[r[j]]) >= 2
  {
    assert r == r[..j] + r[j..];
    assert r[..j][i] == r[i] && r[j..][0] == r[j];
    assert multiset(r[..j])[r[i]] >= 1 && multiset(r[j..])[r[j]] >= 1;
  }

  lemma {:induction false} DistinctOccurOnce(entries: seq<Entry>, a: Entry, b: Entry)
    requires DistinctUsers(entries) && a.userId == b.userId
    ensures (if a == b then multiset(entries)[a] else multiset(entries)[a] + multiset(entries)[b]) <= 1
  {
    if entries != [] {
      var n := |entries| - 1;
      assert entries == entries[..n] + [entries[n]];
      DistinctOccurOnce(entries[..n], a, b);
      if entries[n].userId == a.userId {
        assert a !in entries[..n] && b !in entries[..n];
      }
    }
  }

  /** With distinct users the comparator is a strict total order, so any sorting gives the same list. */
  lemma {:induction false} SortIsDetermined(entries: seq<Entry>, other: seq<Entry>)
    requires DistinctUsers(entries) && Sorted(other) && multiset(other) == multiset(entries)
    ensures other == Sort(entries)
  {
    SortKeepsDistinct(entries);
    SortedListsAgree(Sort(entries), other);
  }

  lemma HeadsAgree(a: seq<Entry>, b: seq<Entry>)
    requires Sorted(a) && Sorted(b) && DistinctUsers(a) && multiset(a) == multiset(b) && a != [] && b != []
    ensures a[0] == b[0]
  {
    assert a[0] in multiset(b) && b[0] in multiset(a);
    var i :| 0 <= i < |b| && b[i] == a[0];
    var j :| 0 <= j < |a| && a[j] == b[0];
  }

  lemma {:induction false} SortedListsAgree(a: seq<Entry>, b: seq<Entry>)
    requires Sorted(a) && Sorted(b) && DistinctUsers(a) && multiset(a) == multiset(b)
    ensures a == b
  {
    assert |multiset(a)| == |multiset(b)|;
    if a != [] {
      HeadsAgree(a, b);
      DropHead(a);
      DropHead(b);
      SortedListsAgree(a[1..], b[1..]);
    }
  }

  lemma DropHead(a: seq<Entry>)
    requires a != []
    ensures a == [a[0]] + a[1..] && multiset(a[1..]) == multiset(a) - multiset{a[0]}
  {
    assert a == [a[0]] + a[1..];
  }

  // ---- One page -------------------------------------------------------------------------------

  /** `slice(from, to)` of an array, where a negative end counts from the right. */
  function Slice(s: seq<Entry>, from: nat, to: int): seq<Entry>
    requires from <= |s|
  {
    var end := if to < 0 then Max(|s| + to, 0) else Min(to, |s|);
    if end <= from then [] else s[from..end]
  }

  /** The first position whose cursor matches; -1 when there is none. */
  method FindCursor(sorted: seq<Entry>, cursor: Cursor) returns (index: int)
    ensures -1 <= index < |sorted|
    ensures index >= 0 ==> EncodeCursor(sorted[index]) == cursor
    ensures forall i | 0 <= i < (if index < 0 then |sorted| else index) :: EncodeCursor(sorted[i]) != cursor
  {
    for i := 0 to |sorted|
      invariant forall j | 0 <= j < i :: EncodeCursor(sorted[j]) != cursor
    {
      if EncodeCursor(sorted[i]) == cursor {
        return i;
      }
    }
    return -1;
  }

  /** The page that starts right after an entry of the sorted list, and which one that entry is. */
  ghost predicate StartsAfter(sorted: seq<Entry>, cursor: Option<Cursor>, start: nat) {
    && start <= |sorted|
    && (start == 0 ==> cursor.None? || forall i | 0 <= i < |sorted| :: EncodeCursor(sorted[i]) != cursor.value)
    && (start > 0 ==> && cursor == Some(EncodeCursor(sorted[start - 1]))
                      && forall i | 0 <= i < start - 1 :: EncodeCursor(sorted[i]) != cursor.value)
  }

  ghost predicate IsAnswer(sorted: seq<Entry>, limit: int, cursor: Option<Cursor>, r: Result<Page, Error>) {
    exists start: nat :: StartsAfter(sorted, cursor, start) && PageAt(sorted, start, limit) == r
  }

  /** The page after the cursor. A limit of zero fails while entries remain: there is no last entry to encode. */
  method CutPage(sorted: seq<Entry>, cursor: Option<Cursor>, limit: int) returns (r: Result<Page, Error>)
    ensures IsAnswer(sorted, limit, cursor, r)
  {
    var startIndex := 0;
    if cursor.Some? {
      var cursorIndex := FindCursor(sorted, cursor.value);
      if cursorIndex != -1 {
        startIndex := cursorIndex + 1;
      }
    }
    assert StartsAfter(sorted, cursor, startIndex);
    var endIndex := Min(startIndex + limit, |sorted|);
    var data := Slice(sorted, startIndex, endIndex);
    if endIndex < |sorted| && data == [] {
      return Err(NoEntryToEncode);
    }
    var nextCursor := if endIndex < |sorted| then Some(EncodeCursor(data[|data| - 1])) else None;
    var prevCursor := if startIndex > 0 then Some(EncodeCursor(sorted[startIndex - 1])) else None;
    r := Ok(Page(data, nextCursor, prevCursor, endIndex < |sorted|, startIndex > 0));
  }

  /** Higher scores come first, and equal scores in the order of the user ids. */
  ghost predicate Ranked(entries: seq<Entry>) {
    forall i, j | 0 <= i < j < |entries| ::
      entries[i].score >= entries[j].score
      && (entries[i].score == entries[j].score ==> entries[i].userId <= entries[j].userId)
  }

  /** Every filter in use accepts the entry. */
  predicate Passes(e: Entry, filters: Option<seq<Entry -> bool>>) {
    filters.None? || forall i | 0 <= i < |filters.value| :: filters.value[i](e)
  }

  /** Exactly the entries that every filter accepts, as often as they occur. */
  ghost predicate Selects(listed: seq<Entry>, entries: seq<Entry>, filters: Option<seq<Entry -> bool>>) {
    forall e :: multiset(listed)[e] == if Passes(e, filters) then multiset(entries)[e] else 0
  }

  /**
   One request: a page of the entries that pass the filters, ranked. The caller's own array is ranked in place
   when no filter is given, and is left alone otherwise.
   */
  method GetCursorPage(entries: array<Entry>, cursor: Option<Cursor>, limit: int, filters: Option<seq<Entry -> bool>>)
    returns (r: Result<Page, Error>, ghost listed: seq<Entry>)
    modifies entries
    ensures Selects(listed, old(entries[..]), filters) && Ranked(listed)
    ensures listed == Listed(old(entries[..]), filters)
    ensures entries[..] == if filters.Some? then old(entries[..]) else listed
    ensures IsAnswer(listed, limit, cursor, r)
  {
    ListedSelects(entries[..], filters);
    listed := Listed(entries[..], filters);
    if filters.Some? {
      var filtered := ApplyFilters(entries[..], filters.value);
      r := CutPage(Sort(filtered), cursor, limit);
    } else {
      SortInPlace(entries);
      r := CutPage(entries[..], cursor, limit);
    }
  }

  /** The list that the pages of a request are cut from. */
  function Listed(entries: seq<Entry>, filters: Option<seq<Entry -> bool>>): seq<Entry> {
    Sort(if filters.Some? then ApplyFilters(entries, filters.value) else entries)
  }

  /** The filters in use, one pass after the other. */
  function ApplyFilters(entries: seq<Entry>, filters: seq<Entry -> bool>): seq<Entry> {
    if filters == [] then entries
    else Filter(ApplyFilters(entries, filters[..|filters| - 1]), filters[|filters| - 1])
  }

  lemma {:induction false} FilterKeeps(entries: seq<Entry>, keep: Entry -> bool, e: Entry)
    ensures multiset(Filter(entries, keep))[e] == if keep(e) then multiset(entries)[e] else 0
  {
    if entries != [] {
      var n := |entries| - 1;
      FilterKeeps(entries[..n], keep, e);
      assert entries == entries[..n] + [entries[n]];
    }
  }

  lemma {:induction false} AllFiltersKeep(entries: seq<Entry>, filters: seq<Entry -> bool>, e: Entry)
    ensures multiset(ApplyFilters(entries, filters))[e] == if Passes(e, Some(filters)) then multiset(entries)[e] else 0
  {
    if filters != [] {
      var n := |filters| - 1;
      AllFiltersKeep(entries, filters[..n], e);
      FilterKeeps(ApplyFilters(entries, filters[..n]), filters[n], e);
      PassesSplit(e, filters);
    }
  }

  lemma PassesSplit(e: Entry, filters: seq<Entry -> bool>)
    requires filters != []
    ensures var n := |filters| - 1;
            Passes(e, Some(filters)) <==> Passes(e, Some(filters[..n])) && filters[n](e)
  {
    var n := |filters| - 1;
    assert forall i | 0 <= i < n :: filters[..n][i] == filters[i];
    if Passes(e, Some(filters[..n])) && filters[n](e) {
      forall i | 0 <= i < |filters|
        ensures filters[i](e)
      {
        assert i < n ==> filters[..n][i](e);
      }
    }
  }

  lemma ListedSelects(entries: seq<Entry>, filters: Option<seq<Entry -> bool>>)
    ensures Selects(Listed(entries, filters), entries, filters) && Ranked(Listed(entries, filters))
  {
    if filters.Some? {
      forall e
        ensures multiset(ApplyFilters(entries, filters.value))[e]
          == if Passes(e, filters) then multiset(entries)[e] else 0
      {
        AllFiltersKeep(entries, filters.value, e);
      }
    }
  }

  method SortInPlace(entries: array<Entry>)
    modifies entries
    ensures entries[..] == Sort(old(entries[..]))
  {
    var sorted := Sort(entries[..]);
    assert |multiset(sorted)| == |multiset(entries[..])|;
    forall i | 0 <= i < entries.Length {
      entries[i] := sorted[i];
    }
  }

  function Filter(entries: seq<Entry>, keep: Entry -> bool): seq<Entry> {
    if entries == [] then []
    else Filter(entries[..|entries| - 1], keep)
         + (if keep(entries[|entries| - 1]) then [entries[|entries| - 1]] else [])
  }

  function PageAt(sorted: seq<Entry>, start: nat, limit: int): Result<Page, Error>
    requires start <= |sorted|
  {
    var end := Min(start + limit, |sorted|);
    var data := Slice(sorted, start, end);
    if end < |sorted| && data == [] then Err(NoEntryToEncode)
    else Ok(Page(data,
                 if end < |sorted| then Some(EncodeCursor(data[|data| - 1])) else None,
                 if start > 0 then Some(EncodeCursor(sorted[start - 1])) else None,
                 end < |sorted|,
                 start > 0))
  }

  /** Whether some end index `slice` is given leaves nothing of the list from `start`. */
  lemma EmptySlice(sorted: seq<Entry>, start: nat, to: int)
    requires start <= |sorted|
    ensures Slice(sorted, start, to) == []
      <==> 0 <= to <= start || start == |sorted| || (to < 0 && |sorted| + to <= start)
  {
  }

  /**
   When a request fails, in the caller's terms: with a limit of zero or more, exactly when it is zero and
   entries remain; with a negative one, unless the page's end falls before the start of the list and
   counting it from the right comes out after the page's start.
   */
  lemma RequestFails(sorted: seq<Entry>, limit: int, cursor: Option<Cursor>, r: Result<Page, Error>, start: nat)
    requires IsAnswer(sorted, limit, cursor, r) && StartsAfter(sorted, cursor, start)
    ensures limit >= 0 ==> (r.Err? <==> limit == 0 && start < |sorted|)
    ensures limit < 0 ==> (r.Ok? <==> start + limit < 0 < |sorted| + limit)
  {
    var s: nat :| StartsAfter(sorted, cursor, s) && PageAt(sorted, s, limit) == r;
    StartIsUnique(sorted, cursor, s, start);
    EmptySlice(sorted, start, Min(start + limit, |sorted|));
  }

  // ---- Following the cursors ------------------------------------------------------------------

  lemma StartIsUnique(sorted: seq<Entry>, cursor: Option<Cursor>, a: nat, b: nat)
    requires StartsAfter(sorted, cursor, a) && StartsAfter(sorted, cursor, b)
    ensures a == b
  {
  }

  /** A client's walk: each page is the service's answer to the cursor of the page before it. */
  ghost predicate IsWalk(sorted: seq<Entry>, limit: int, pages: seq<Page>) {
    Linked(sorted, limit, pages) && IsPage(sorted, limit, None, pages[0])
  }

  /** Page `k` answers the cursor of the page before it. */
  ghost predicate Follows(sorted: seq<Entry>, limit: int, pages: seq<Page>, k: nat)
    requires k < |pages|
  {
    IsPage(sorted, limit, CursorInto(pages, k), pages[k])
  }

  ghost predicate Linked(sorted: seq<Entry>, limit: int, pages: seq<Page>) {
    && pages != []
    && (forall k: nat | 0 < k < |pages| :: Follows(sorted, limit, pages, k))
    && (forall k | 0 <= k < |pages| - 1 :: pages[k].nextCursor.Some?)
    && pages[|pages| - 1].nextCursor.None?
  }

  function CursorInto(pages: seq<Page>, k: nat): Option<Cursor>
    requires k <= |pages|
  {
    if k == 0 then None else pages[k - 1].nextCursor
  }

  ghost predicate IsPage(sorted: seq<Entry>, limit: int, cursor: Option<Cursor>, page: Page) {
    IsAnswer(sorted, limit, cursor, Ok(page))
  }

  function Concat(pages: seq<Page>): seq<Entry> {
    if pages == [] then [] else Concat(pages[..|pages| - 1]) + pages[|pages| - 1].data
  }

  /** The next cursor leads exactly to where the page ended. */
  lemma NextCursorContinues(sorted: seq<Entry>, start: nat, limit: int, page: Page)
    requires DistinctUsers(sorted) && start <= |sorted| && limit >= 1
    requires PageAt(sorted, start, limit) == Ok(page) && page.nextCursor.Some?
    ensures start + limit < |sorted| && StartsAfter(sorted, page.nextCursor, start + limit)
    ensures page.data == sorted[start..start + limit]
  {
    assert page.data[|page.data| - 1] == sorted[start + limit - 1];
  }

  /** Page `k` of a walk starts where the pages before it end. */
  ghost predicate PageStarts(sorted: seq<Entry>, limit: int, pages: seq<Page>, k: nat, start: nat)
    requires k < |pages|
  {
    && start <= |sorted|
    && (k > 0 ==> 0 < start < |sorted|)
    && StartsAfter(sorted, CursorInto(pages, k), start)
    && PageAt(sorted, start, limit) == Ok(pages[k])
    && Concat(pages[..k]) == sorted[..start]
  }

  lemma PageIsAt(sorted: seq<Entry>, limit: int, pages: seq<Page>, k: nat, start: nat)
    requires k < |pages| && IsPage(sorted, limit, CursorInto(pages, k), pages[k])
    requires StartsAfter(sorted, CursorInto(pages, k), start)
    ensures PageAt(sorted, start, limit) == Ok(pages[k])
  {
    var s: nat :| StartsAfter(sorted, CursorInto(pages, k), s) && PageAt(sorted, s, limit) == Ok(pages[k]);
    StartIsUnique(sorted, CursorInto(pages, k), s, start);
  }

  lemma NextPageStarts(sorted: seq<Entry>, limit: int, pages: seq<Page>, k: nat, start: nat)
    requires DistinctUsers(sorted) && limit >= 1 && 0 < k < |pages|
    requires pages[k - 1].nextCursor.Some? && IsPage(sorted, limit, pages[k - 1].nextCursor, pages[k])
    requires PageStarts(sorted, limit, pages, k - 1, start)
    ensures PageStarts(sorted, limit, pages, k, start + limit)
  {
    NextCursorContinues(sorted, start, limit, pages[k - 1]);
    PageIsAt(sorted, limit, pages, k, start + limit);
    ConcatNext(pages, k - 1, sorted, start, start + limit);
  }

  lemma ConcatNext(pages: seq<Page>, k: nat, sorted: seq<Entry>, start: nat, end: nat)
    requires k < |pages| && start <= end <= |sorted|
    requires Concat(pages[..k]) == sorted[..start] && pages[k].data == sorted[start..end]
    ensures Concat(pages[..k + 1]) == sorted[..end]
  {
    assert pages[..k + 1][..k] == pages[..k];
  }

  lemma FirstPageStarts(sorted: seq<Entry>, limit: int, pages: seq<Page>)
    requires pages != [] && IsPage(sorted, limit, None, pages[0])
    ensures PageStarts(sorted, limit, pages, 0, 0)
  {
    PageIsAt(sorted, limit, pages, 0, 0);
    assert Concat(pages[..0]) == sorted[..0];
  }

  lemma {:induction false} WalkPrefix(sorted: seq<Entry>, limit: int, pages: seq<Page>, k: nat) returns (start: nat)
    requires DistinctUsers(sorted) && limit >= 1 && IsWalk(sorted, limit, pages) && k < |pages|
    ensures PageStarts(sorted, limit, pages, k, start) && start == Offset(k, limit)
  {
    if k == 0 {
      WalkLinks(sorted, limit, pages, 0);
      FirstPageStarts(sorted, limit, pages);
      start := 0;
    } else {
      var before := WalkPrefix(sorted, limit, pages, k - 1);
      WalkLinks(sorted, limit, pages, k);
      NextPageStarts(sorted, limit, pages, k, before);
      start := before + limit;
    }
  }

  lemma WalkLinks(sorted: seq<Entry>, limit: int, pages: seq<Page>, k: nat)
    requires IsWalk(sorted, limit, pages) && k < |pages|
    ensures k == 0 ==> IsPage(sorted, limit, None, pages[0])
    ensures k > 0 ==> pages[k - 1].nextCursor.Some? && IsPage(sorted, limit, pages[k - 1].nextCursor, pages[k])
  {
    if k > 0 {
      assert Follows(sorted, limit, pages, k);
    }
  }

  function Offset(k: nat, limit: int): int {
    if k == 0 then 0 else Offset(k - 1, limit) + limit
  }

  lemma {:induction false} OffsetIsProduct(k: nat, limit: int)
    ensures Offset(k, limit) == k * limit && (k + 1) * limit == k * limit + limit
  {
    if k > 0 {
      OffsetIsProduct(k - 1, limit);
    }
  }

  /**
   Following `nextCursor` from the start until it is absent yields exactly the entries that pass the filters,
   each once and by rank, in max(1, ceil(n / limit)) pages. Each page's `prevCursor` is the cursor that was
   passed in, its flags say whether there are pages before and after it, and all but the last are full.
   */
  lemma WalkEnumerates(entries: seq<Entry>, filters: Option<seq<Entry -> bool>>, limit: int, pages: seq<Page>)
    requires DistinctUsers(entries) && limit >= 1 && IsWalk(Listed(entries, filters), limit, pages)
    ensures Selects(Concat(pages), entries, filters) && Ranked(Concat(pages)) && DistinctUsers(Concat(pages))
    ensures var n := |Concat(pages)|; if n == 0 then |pages| == 1 else (|pages| - 1) * limit < n <= |pages| * limit
    ensures forall k | 0 <= k < |pages| ::
      && pages[k].prevCursor == CursorInto(pages, k)
      && (pages[k].hasPrev <==> k > 0) && (pages[k].hasNext <==> k < |pages| - 1)
      && |pages[k].data| <= limit && (k < |pages| - 1 ==> |pages[k].data| == limit)
  {
    var listed := Listed(entries, filters);
    ListedSelects(entries, filters);
    SelectedAreDistinct(listed, entries, filters);
    forall k | 0 <= k < |pages|
      ensures pages[k].prevCursor == CursorInto(pages, k)
      ensures (pages[k].hasPrev <==> k > 0) && (pages[k].hasNext <==> k < |pages| - 1)
      ensures |pages[k].data| <= limit && (k < |pages| - 1 ==> |pages[k].data| == limit)
    {
      var start := WalkPrefix(listed, limit, pages, k);
      PageShape(listed, start, limit, pages[k]);
      if k < |pages| - 1 {
        WalkLinks(listed, limit, pages, k + 1);
      }
    }
    WalkCoversAll(listed, limit, pages);
  }

  lemma PageShape(sorted: seq<Entry>, start: nat, limit: int, page: Page)
    requires limit >= 1 && start <= |sorted| && PageAt(sorted, start, limit) == Ok(page)
    ensures (page.hasNext <==> page.nextCursor.Some?) && (page.hasPrev <==> start > 0)
    ensures |page.data| <= limit && (page.nextCursor.Some? ==> |page.data| == limit)
  {
  }

  /** A selection from a list of distinct users has distinct users. */
  lemma SelectedAreDistinct(listed: seq<Entry>, entries: seq<Entry>, filters: Option<seq<Entry -> bool>>)
    requires DistinctUsers(entries) && Selects(listed, entries, filters)
    ensures DistinctUsers(listed)
  {
    forall i, j | 0 <= i < j < |listed|
      ensures listed[i].userId != listed[j].userId
    {
      if listed[i].userId == listed[j].userId {
        DistinctOccurOnce(entries, listed[i], listed[j]);
        BothCounted(listed, i, j);
        assert false;
      }
    }
  }

  lemma WalkCoversAll(sorted: seq<Entry>, limit: int, pages: seq<Page>)
    requires DistinctUsers(sorted) && limit >= 1 && IsWalk(sorted, limit, pages)
    ensures Concat(pages) == sorted
    ensures if sorted == [] then |pages| == 1 else (|pages| - 1) * limit < |sorted| <= |pages| * limit
  {
    var last := |pages| - 1;
    var start := WalkPrefix(sorted, limit, pages, last);
    LastPageEnds(sorted, start, limit, pages[last]);
    OffsetIsProduct(last, limit);
    assert Concat(pages) == Concat(pages[..last]) + pages[last].data;
  }

  lemma LastPageEnds(sorted: seq<Entry>, start: nat, limit: int, page: Page)
    requires limit >= 1 && start <= |sorted| && PageAt(sorted, start, limit) == Ok(page) && page.nextCursor.None?
    ensures sorted[..start] + page.data == sorted && |sorted| <= start + limit
  {
  }

  /** Such a walk exists: from any list the cursors lead to an end. */
  lemma CursorsLeadToTheEnd(sorted: seq<Entry>, limit: int) returns (pages: seq<Page>)
    requires DistinctUsers(sorted) && limit >= 1
    ensures IsWalk(sorted, limit, pages)
  {
    pages := WalkFrom(sorted, limit, 0);
    assert StartsAfter(sorted, None, 0);
  }

  lemma {:induction false} WalkFrom(sorted: seq<Entry>, limit: int, start: nat) returns (pages: seq<Page>)
    requires DistinctUsers(sorted) && limit >= 1 && start <= |sorted|
    ensures Linked(sorted, limit, pages) && PageAt(sorted, start, limit) == Ok(pages[0])
    decreases |sorted| - start
  {
    var page := PageAt(sorted, start, limit).value;
    if page.nextCursor.None? {
      return [page];
    }
    NextCursorContinues(sorted, start, limit, page);
    var rest := WalkFrom(sorted, limit, start + limit);
    assert IsPage(sorted, limit, page.nextCursor, rest[0]);
    LinkInFront(sorted, limit, page, rest);
    return [page] + rest;
  }

  lemma LinkInFront(sorted: seq<Entry>, limit: int, page: Page, rest: seq<Page>)
    requires Linked(sorted, limit, rest)
    requires page.nextCursor.Some? && IsPage(sorted, limit, page.nextCursor, rest[0])
    ensures Linked(sorted, limit, [page] + rest)
  {
    var pages := [page] + rest;
    forall k: nat | 0 < k < |pages|
      ensures Follows(sorted, limit, pages, k)
    {
      LinkAt(page, rest, k);
      assert k > 1 ==> Follows(sorted, limit, rest, k - 1);
    }
    forall k | 0 <= k < |pages| - 1
      ensures pages[k].nextCursor.Some?
    {
      if k > 0 {
        assert rest[k - 1].nextCursor.Some?;
      }
    }
  }

  lemma LinkAt(page: Page, rest: seq<Page>, k: nat)
    requires 0 < k <= |rest|
    ensures ([page] + rest)[k] == rest[k - 1]
    ensures CursorInto([page] + rest, k) == if k == 1 then page.nextCursor else CursorInto(rest, k - 1)
  {
  }
}
