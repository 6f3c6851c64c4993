/** Keyset pagination over entries, on one table and on tables that change between fetches. */
module Paging {
  import opened Prelude
  import opened Ordering
  import opened Tables
  import opened Database
  import opened Like
  import opened Protocol

  datatype SortField = Path | LastAccessed | Size | CreatedAt

  datatype Query = Query(
    project: int, kind: Option<Kind>, pinned: Option<bool>, pathPrefix: Option<string>,
    sort: Option<SortField>, desc: Option<bool>, limit: Option<int>)

  /** The cursor is the last row's sort value and id; `rows` are the page's rows with the values they had. */
  datatype Page = Page(rows: seq<Rank>, nextCursor: Option<Rank>, hasMore: bool)

  function SortOf(q: Query): SortField {
    if q.sort.Some? then q.sort.value else LastAccessed
  }

  function DescOf(q: Query): bool {
    if q.desc.Some? then q.desc.value else true
  }

  function LimitOf(q: Query): nat {
    var asked := if q.limit.Some? then q.limit.value else 100;
    if asked < 1 then 1 else if asked > 1000 then 1000 else asked
  }

  /** The column a row is sorted by; creation order is the id. */
  function SortColumn(e: Entry, id: int, sort: SortField): SortValue {
    match sort
    case Path => Text(e.key.path)
    case LastAccessed => Num(e.accessed)
    case Size => Num(e.size)
    case CreatedAt => Num(id)
  }

  predicate Matches(e: Entry, q: Query) {
    && e.key.project == q.project
    && (q.kind.Some? ==> e.key.kind == q.kind.value)
    && (q.pinned.Some? ==> e.pinned == q.pinned.value)
    && (q.pathPrefix.Some? ==> PrefixFilter(q.pathPrefix.value, e.key.path))
  }

  function RankOf(t: Db, id: int, q: Query): Rank
    requires id in t.entries
  {
    Rank(SortColumn(t.entries[id], id, SortOf(q)), id)
  }

  function Matching(t: Db, q: Query): set<Rank> {
    set id | id in t.entries && Matches(t.entries[id], q) :: RankOf(t, id, q)
  }

  /** The matching rows strictly after the cursor. */
  function Remaining(t: Db, q: Query, cursor: Option<Rank>): set<Rank> {
    set r | r in Matching(t, q) && (cursor.Some? ==> Before(cursor.value, r, DescOf(q)))
  }

  /** The first `limit` of the remaining rows in order, and a cursor exactly when there are more. */
  function PageAt(t: Db, q: Query, cursor: Option<Rank>): Page {
    var all := Sorted(Remaining(t, q, cursor), DescOf(q));
    if |all| <= LimitOf(q) then Page(all, None, false)
    else Page(all[..LimitOf(q)], Some(all[LimitOf(q) - 1]), true)
  }

  // ----- what a page is, column by column -----

  /** `y` comes after `x` in the given direction, ids breaking ties. */
  predicate NumOrder(x: int, xid: int, y: int, yid: int, desc: bool) {
    if desc then y < x || (y == x && yid < xid) else x < y || (x == y && xid < yid)
  }

  ghost predicate PathOrder(x: string, xid: int, y: string, yid: int, desc: bool) {
    if desc then (exists n: nat :: DiffersAt(y, x, n)) || (y == x && yid < xid)
    else (exists n: nat :: DiffersAt(x, y, n)) || (x == y && xid < yid)
  }

  /** A cursor of the kind the query's sort produces: text for paths, a number for everything else. */
  predicate Fits(c: Rank, q: Query) {
    c.key.Text? <==> q.sort == Some(Path)
  }

  /** The row comes after the cursor: by last access unless another column is asked for, and downwards by default. */
  ghost predicate Past(c: Rank, e: Entry, id: int, q: Query)
    requires Fits(c, q)
  {
    var desc := q.desc != Some(false);
    match q.sort
    case None => NumOrder(c.key.n, c.id, e.accessed, id, desc)
    case Some(LastAccessed) => NumOrder(c.key.n, c.id, e.accessed, id, desc)
    case Some(Size) => NumOrder(c.key.n, c.id, e.size, id, desc)
    case Some(CreatedAt) => NumOrder(c.key.n, c.id, id, id, desc)
    case Some(Path) => PathOrder(c.key.s, c.id, e.key.path, id, desc)
  }

  /** The cursor that points at the row. */
  predicate PointsAt(c: Rank, e: Entry, id: int, q: Query) {
    && c.id == id
    && match q.sort
       case None => c.key == Num(e.accessed)
       case Some(LastAccessed) => c.key == Num(e.accessed)
       case Some(Size) => c.key == Num(e.size)
       case Some(CreatedAt) => c.key == Num(id)
       case Some(Path) => c.key == Text(e.key.path)
  }

  /** The row is of the project asked for, and of the kind, pin and path prefix if those are asked for. */
  predicate Wanted(e: Entry, q: Query) {
    && e.key.project == q.project
    && (q.kind == Some(Sstate) ==> e.key.kind == Sstate) && (q.kind == Some(Downloads) ==> e.key.kind == Downloads)
    && (q.pinned == Some(true) ==> e.pinned) && (q.pinned == Some(false) ==> !e.pinned)
    && (q.pathPrefix.Some? ==> PrefixFilter(q.pathPrefix.value, e.key.path))
  }

  function PageLength(q: Query): nat {
    match q.limit
    case None => 100
    case Some(n) => if 1 <= n <= 1000 then n else if n < 1 then 1 else 1000
  }

  /**
   What a page promises about the rows of the table: its rows are wanted, lie after the cursor and follow one another
   in order; a wanted row after the cursor is on the page or after its last row; and the page is full, and ends in a
   cursor at its last row, exactly if there are rows after it.
   */
  ghost predicate PageMeans(t: Db, q: Query, cursor: Option<Rank>, p: Page)
    requires cursor.Some? ==> Fits(cursor.value, q)
  {
    && |p.rows| <= PageLength(q) && (p.hasMore ==> |p.rows| == PageLength(q))
    && (p.hasMore <==> p.nextCursor.Some?) && (p.hasMore ==> p.nextCursor.value == p.rows[|p.rows| - 1])
    && (forall i :: 0 <= i < |p.rows| ==> RowMeans(t, q, cursor, p, i))
    && (forall id :: id in t.entries && Wanted(t.entries[id], q)
                     && (cursor.Some? ==> Past(cursor.value, t.entries[id], id, q)) ==>
          OnPageOrAfter(t, q, p, id))
    && (p.hasMore ==> exists id :: id in t.entries && Wanted(t.entries[id], q) && IsAfter(t, q, p, id))
  }

  ghost predicate RowMeans(t: Db, q: Query, cursor: Option<Rank>, p: Page, i: nat)
    requires i < |p.rows| && (cursor.Some? ==> Fits(cursor.value, q))
  {
    var id := p.rows[i].id;
    && id in t.entries && Wanted(t.entries[id], q) && PointsAt(p.rows[i], t.entries[id], id, q)
    && (cursor.Some? ==> Past(cursor.value, t.entries[id], id, q))
    && (i > 0 ==> Fits(p.rows[i - 1], q) && Past(p.rows[i - 1], t.entries[id], id, q))
  }

  ghost predicate IsAfter(t: Db, q: Query, p: Page, id: int)
    requires id in t.entries
  {
    p.nextCursor.Some? && Fits(p.nextCursor.value, q) && Past(p.nextCursor.value, t.entries[id], id, q)
  }

  ghost predicate OnPageOrAfter(t: Db, q: Query, p: Page, id: int)
    requires id in t.entries
  {
    (exists i :: 0 <= i < |p.rows| && p.rows[i].id == id) || IsAfter(t, q, p, id)
  }

  lemma WantedIff(e: Entry, q: Query)
    ensures Matches(e, q) <==> Wanted(e, q)
  {
    hide PrefixFilter;
  }

  lemma PastIff(t: Db, q: Query, c: Rank, id: int)
    requires id in t.entries && Fits(c, q)
    ensures Before(c, RankOf(t, id, q), DescOf(q)) <==> Past(c, t.entries[id], id, q)
  {
    hide TextLess, DiffersAt;
    if c.key.Text? {
      TextLessIff(c.key.s, t.entries[id].key.path);
      TextLessIff(t.entries[id].key.path, c.key.s);
    }
  }

  lemma RankPoints(t: Db, q: Query, id: int)
    requires id in t.entries
    ensures PointsAt(RankOf(t, id, q), t.entries[id], id, q) && Fits(RankOf(t, id, q), q)
  {
  }

  lemma LengthIs(q: Query)
    ensures PageLength(q) == LimitOf(q)
  {
  }

  lemma RemainingMeans(t: Db, q: Query, cursor: Option<Rank>, r: Rank)
    requires cursor.Some? ==> Fits(cursor.value, q)
    ensures r in Remaining(t, q, cursor)
            <==> && r.id in t.entries && r == RankOf(t, r.id, q) && Wanted(t.entries[r.id], q)
                 && (cursor.Some? ==> Past(cursor.value, t.entries[r.id], r.id, q))
  {
    hide *;
    RemainingIs(t, q, cursor, r);
    MatchingIs(t, q, r);
    if r.id in t.entries {
      WantedIff(t.entries[r.id], q);
      if cursor.Some? {
        PastIff(t, q, cursor.value, r.id);
      }
    }
  }

  /** Every page means what it should. */
  lemma PageMeaning(t: Db, q: Query, cursor: Option<Rank>)
    requires cursor.Some? ==> Fits(cursor.value, q)
    ensures PageMeans(t, q, cursor, PageAt(t, q, cursor))
  {
    hide *;
    var p := PageAt(t, q, cursor);
    PageShape(t, q, cursor);
    LengthIs(q);
    forall i | 0 <= i < |p.rows| ensures RowMeans(t, q, cursor, p, i) {
      RowMeaning(t, q, cursor, i);
    }
    forall id | id in t.entries && Wanted(t.entries[id], q)
                && (cursor.Some? ==> Past(cursor.value, t.entries[id], id, q))
      ensures OnPageOrAfter(t, q, p, id)
    {
      WantedIsListed(t, q, cursor, id);
    }
    if p.hasMore {
      MoreIsAfter(t, q, cursor);
    }
    PageIsMeant(t, q, cursor, p);
  }

  lemma PageIsMeant(t: Db, q: Query, cursor: Option<Rank>, p: Page)
    requires cursor.Some? ==> Fits(cursor.value, q)
    requires |p.rows| <= PageLength(q) && (p.hasMore ==> |p.rows| == PageLength(q))
    requires p.hasMore <==> p.nextCursor.Some?
    requires p.hasMore ==> |p.rows| > 0 && p.nextCursor.value == p.rows[|p.rows| - 1]
    requires forall i :: 0 <= i < |p.rows| ==> RowMeans(t, q, cursor, p, i)
    requires forall id :: id in t.entries && Wanted(t.entries[id], q)
                          && (cursor.Some? ==> Past(cursor.value, t.entries[id], id, q)) ==>
               OnPageOrAfter(t, q, p, id)
    requires p.hasMore ==> exists id :: id in t.entries && Wanted(t.entries[id], q) && IsAfter(t, q, p, id)
    ensures PageMeans(t, q, cursor, p)
  {
    hide Wanted, Past, OnPageOrAfter, IsAfter, RowMeans, PageLength;
  }

  lemma PageShape(t: Db, q: Query, cursor: Option<Rank>)
    ensures var p := PageAt(t, q, cursor);
            && |p.rows| <= LimitOf(q) && (p.hasMore ==> |p.rows| == LimitOf(q))
            && (p.hasMore <==> p.nextCursor.Some?)
            && (p.hasMore ==> |p.rows| > 0 && p.nextCursor.value == p.rows[|p.rows| - 1])
  {
    hide Sorted, Remaining, LimitOf, StrictlySorted, Elements;
    LimitIsPositive(q);
  }

  lemma RowMeaning(t: Db, q: Query, cursor: Option<Rank>, i: nat)
    requires (cursor.Some? ==> Fits(cursor.value, q)) && i < |PageAt(t, q, cursor).rows|
    ensures RowMeans(t, q, cursor, PageAt(t, q, cursor), i)
  {
    hide PageAt, Remaining, Before, Past, Wanted, PointsAt, RankOf, Fits;
    var p := PageAt(t, q, cursor);
    PageFacts(t, q, cursor);
    var r := p.rows[i];
    RemainingMeans(t, q, cursor, r);
    RankPoints(t, q, r.id);
    if i > 0 {
      var before := p.rows[i - 1];
      RemainingMeans(t, q, cursor, before);
      RankPoints(t, q, before.id);
      PastIff(t, q, before, r.id);
    }
  }

  lemma WantedIsListed(t: Db, q: Query, cursor: Option<Rank>, id: int)
    requires (cursor.Some? ==> Fits(cursor.value, q)) && id in t.entries && Wanted(t.entries[id], q)
    requires cursor.Some? ==> Past(cursor.value, t.entries[id], id, q)
    ensures OnPageOrAfter(t, q, PageAt(t, q, cursor), id)
  {
    hide PageAt, Remaining, Before, Past, Wanted, PointsAt, RankOf, Fits, StrictlySorted;
    var p, r := PageAt(t, q, cursor), RankOf(t, id, q);
    PageFacts(t, q, cursor);
    RankHasId(t, id, q);
    RemainingMeans(t, q, cursor, r);
    if r in p.rows {
      var i :| 0 <= i < |p.rows| && p.rows[i] == r;
      assert p.rows[i].id == id;
    } else {
      var last := p.rows[|p.rows| - 1];
      RemainingMeans(t, q, cursor, last);
      RankPoints(t, q, last.id);
      PastIff(t, q, last, id);
    }
  }

  /** A page with a cursor leaves a row out, and that row lies after it. */
  lemma MoreIsAfter(t: Db, q: Query, cursor: Option<Rank>)
    requires (cursor.Some? ==> Fits(cursor.value, q)) && PageAt(t, q, cursor).hasMore
    ensures exists id :: id in t.entries && Wanted(t.entries[id], q) && IsAfter(t, q, PageAt(t, q, cursor), id)
  {
    hide *;
    var p := PageAt(t, q, cursor);
    var all := Sorted(Remaining(t, q, cursor), DescOf(q));
    var k := LimitOf(q);
    LimitIsPositive(q);
    PageShape(t, q, cursor);
    PageCases(t, q, cursor);
    IsElement(all, k);
    IsElement(all, k - 1);
    RemainingMeans(t, q, cursor, all[k]);
    RemainingMeans(t, q, cursor, all[k - 1]);
    RankPoints(t, q, all[k - 1].id);
    PastIff(t, q, all[k - 1], all[k].id);
    InSequence(all, k - 1, k, DescOf(q));
    AfterIf(t, q, p, all[k].id);
  }

  lemma AfterIf(t: Db, q: Query, p: Page, id: int)
    requires id in t.entries && p.nextCursor.Some? && Fits(p.nextCursor.value, q)
    requires Past(p.nextCursor.value, t.entries[id], id, q)
    ensures IsAfter(t, q, p, id)
  {
  }

  lemma InSequence(s: seq<Rank>, i: nat, j: nat, desc: bool)
    requires StrictlySorted(s, desc) && i < j < |s|
    ensures Before(s[i], s[j], desc)
  {
  }

  // ----- one request -----

  /** A cursor as it arrives: what `encode` produced, or text that does not decode. */
  datatype CursorText = Encoded(at: Rank) | Garbage

  function Decoded(cursor: Option<CursorText>): Option<Rank> {
    if cursor.Some? && cursor.value.Encoded? then Some(cursor.value.at) else None
  }

  /**
   `Entries::list`: fetch one row more than the limit, truncate, and point the cursor at the last row kept. `rows`
   are the full rows of the page. Only a cursor that does not decode is an error.
   */
  method List(db: Pool, q: Query, cursor: Option<CursorText>) returns (r: Result<Page>, rows: seq<Entry>)
    ensures r.Err? <==> cursor == Some(Garbage)
    ensures r.Err? ==> r.error == InvalidInput
    ensures r.Ok? ==>
              && r.value == PageAt(db.View(), q, Decoded(cursor)) && |rows| == |r.value.rows|
              && (forall i :: 0 <= i < |rows| ==>
                    r.value.rows[i].id in db.entries && rows[i] == db.entries[r.value.rows[i].id])
    ensures cursor == None ==> r.Ok? && PageMeans(db.View(), q, None, r.value)
    ensures forall c: Rank :: cursor == Some(Encoded(c)) && Fits(c, q) ==>
              r.Ok? && PageMeans(db.View(), q, Some(c), r.value)
  {
    hide Matching, Matches, RankOf, StrictlySorted, Remaining, Sorted, Elements, PageMeans, Fits;
    rows := [];
    if cursor.Some? && cursor.value.Garbage? {
      return Err(InvalidInput), [];
    }
    var limit := LimitOf(q);
    var all := Sorted(Remaining(db.View(), q, Decoded(cursor)), DescOf(q));
    var fetched := if |all| > limit + 1 then all[..limit + 1] else all;
    var hasMore := |fetched| > limit;
    if hasMore {
      fetched := fetched[..limit];
    }
    r := Ok(Page(fetched, if hasMore then Some(fetched[|fetched| - 1]) else None, hasMore));
    if Decoded(cursor).Some? ==> Fits(Decoded(cursor).value, q) {
      PageMeaning(db.View(), q, Decoded(cursor));
    }
    var es := db.entries;
    ListedRows(db.View(), q, Decoded(cursor), all);
    forall i | 0 <= i < |fetched| ensures fetched[i].id in es && Matches(es[fetched[i].id], q) {
      assert fetched[i] == all[i];
    }
    rows := seq(|fetched|, i requires 0 <= i < |fetched| && fetched[i].id in es => es[fetched[i].id]);
  }

  lemma ListedRows(t: Db, q: Query, cursor: Option<Rank>, all: seq<Rank>)
    requires all == Sorted(Remaining(t, q, cursor), DescOf(q))
    ensures forall i :: 0 <= i < |all| ==> all[i].id in t.entries && Matches(t.entries[all[i].id], q)
  {
    hide Matching, Matches, RankOf, StrictlySorted, Remaining, Sorted;
    forall i | 0 <= i < |all| ensures all[i].id in t.entries && Matches(t.entries[all[i].id], q) {
      assert all[i] in Elements(all);
      RemainingIs(t, q, cursor, all[i]);
      MatchingIs(t, q, all[i]);
    }
  }

  // ----- traversals -----

  ghost function Emitted(pages: seq<Page>): seq<Rank> {
    if pages == [] then [] else Emitted(pages[..|pages| - 1]) + pages[|pages| - 1].rows
  }

  ghost function CursorBefore(pages: seq<Page>, i: nat): Option<Rank>
    requires i < |pages|
  {
    if i == 0 then None else pages[i - 1].nextCursor
  }

  /** Page `i` was fetched from tables `ts[i]` with the cursor of the page before it. */
  ghost predicate PageStep(ts: seq<Db>, q: Query, pages: seq<Page>, i: nat)
    requires i < |pages| && |ts| == |pages|
  {
    (i > 0 ==> pages[i - 1].nextCursor.Some?) && pages[i] == PageAt(ts[i], q, CursorBefore(pages, i))
  }

  ghost predicate IsTraversal(ts: seq<Db>, q: Query, pages: seq<Page>) {
    |ts| == |pages| && forall i :: 0 <= i < |pages| ==> PageStep(ts, q, pages, i)
  }

  ghost predicate Completed(pages: seq<Page>) {
    pages != [] && pages[|pages| - 1].nextCursor.None?
  }

  /** What one fetch guarantees: sorted rows after the cursor, and everything left out lies after the next cursor. */
  ghost predicate GoodPage(p: Page, rest: set<Rank>, desc: bool) {
    && StrictlySorted(p.rows, desc)
    && (forall i :: 0 <= i < |p.rows| ==> p.rows[i] in rest)
    && (p.nextCursor.Some? ==> p.rows != [] && p.nextCursor.value == p.rows[|p.rows| - 1])
    && (forall r :: r in rest && r !in p.rows ==> p.nextCursor.Some? && Before(p.nextCursor.value, r, desc))
  }

  lemma CutIsGoodPage(s: set<Rank>, desc: bool, k: nat)
    requires k > 0
    ensures var all := Sorted(s, desc);
            GoodPage(if |all| <= k then Page(all, None, false) else Page(all[..k], Some(all[k - 1]), true), s, desc)
  {
    hide Sorted, Before, StrictlySorted, Elements;
    var all := Sorted(s, desc);
    forall i | 0 <= i < |all| ensures all[i] in s {
      IsElement(all, i);
    }
    forall r | r in s ensures r in all && (|all| > k && r !in all[..k] ==> Before(all[k - 1], r, desc)) {
      ElementIsIn(all, r);
      if |all| > k && r !in all[..k] {
        BehindTheCut(all, k, r, desc);
      }
    }
    if |all| > k {
      PrefixSorted(all, k, desc);
    }
  }

  lemma IsElement(all: seq<Rank>, i: nat)
    requires i < |all|
    ensures all[i] in Elements(all)
  {
  }

  lemma ElementIsIn(all: seq<Rank>, r: Rank)
    requires r in Elements(all)
    ensures r in all
  {
  }

  lemma PrefixSorted(all: seq<Rank>, k: nat, desc: bool)
    requires StrictlySorted(all, desc) && k <= |all|
    ensures StrictlySorted(all[..k], desc)
  {
    hide Before;
  }

  lemma BehindTheCut(all: seq<Rank>, k: nat, r: Rank, desc: bool)
    requires StrictlySorted(all, desc) && 0 < k < |all| && r in all && r !in all[..k]
    ensures Before(all[k - 1], r, desc)
  {
    hide Before;
    var i :| 0 <= i < |all| && all[i] == r;
    assert all == all[..k] + all[k..];
  }

  lemma PageFacts(t: Db, q: Query, cursor: Option<Rank>)
    ensures GoodPage(PageAt(t, q, cursor), Remaining(t, q, cursor), DescOf(q))
  {
    hide Sorted, Remaining, GoodPage;
    CutIsGoodPage(Remaining(t, q, cursor), DescOf(q), LimitOf(q));
  }

  lemma RemainingIs(t: Db, q: Query, cursor: Option<Rank>, r: Rank)
    ensures r in Remaining(t, q, cursor) <==>
              r in Matching(t, q) && (cursor.Some? ==> Before(cursor.value, r, DescOf(q)))
  {
    hide Matching;
  }

  lemma MatchingIs(t: Db, q: Query, r: Rank)
    ensures r in Matching(t, q) <==>
              r.id in t.entries && Matches(t.entries[r.id], q) && r == RankOf(t, r.id, q)
  {
    hide Matches, SortColumn;
  }

  lemma TraversalStep(ts: seq<Db>, q: Query, pages: seq<Page>, i: nat)
    requires IsTraversal(ts, q, pages) && i < |pages|
    ensures |ts| == |pages| && (i > 0 ==> pages[i - 1].nextCursor.Some?)
    ensures GoodPage(pages[i], Remaining(ts[i], q, CursorBefore(pages, i)), DescOf(q))
  {
    hide PageAt, Remaining, GoodPage;
    assert PageStep(ts, q, pages, i);
    PageFacts(ts[i], q, CursorBefore(pages, i));
  }

  lemma PrefixTraversal(ts: seq<Db>, q: Query, pages: seq<Page>)
    requires IsTraversal(ts, q, pages) && pages != []
    ensures IsTraversal(ts[..|ts| - 1], q, pages[..|pages| - 1])
    ensures |pages| > 1 ==> pages[..|pages| - 1] != [] && pages[..|pages| - 1][|pages| - 2].nextCursor.Some?
  {
    hide PageAt;
    var us, ps := ts[..|ts| - 1], pages[..|pages| - 1];
    forall i | 0 <= i < |ps| ensures PageStep(us, q, ps, i) {
      assert PageStep(ts, q, pages, i);
    }
    if |pages| > 1 {
      assert PageStep(ts, q, pages, |pages| - 1);
    }
  }

  lemma LastIsLast(rows: seq<Rank>, r: Rank, desc: bool)
    requires StrictlySorted(rows, desc) && r in rows
    ensures r == rows[|rows| - 1] || Before(r, rows[|rows| - 1], desc)
  {
    hide Before;
    var i :| 0 <= i < |rows| && rows[i] == r;
  }

  /** Everything emitted so far is at or before the cursor. */
  lemma {:induction false} EmittedUpToCursor(ts: seq<Db>, q: Query, pages: seq<Page>)
    requires IsTraversal(ts, q, pages) && pages != [] && pages[|pages| - 1].nextCursor.Some?
    ensures forall r :: r in Emitted(pages) ==>
              r == pages[|pages| - 1].nextCursor.value || Before(r, pages[|pages| - 1].nextCursor.value, DescOf(q))
    decreases |pages|
  {
    hide Remaining, Before, PageStep, StrictlySorted;
    var n := |pages| - 1;
    var desc := DescOf(q);
    var cursor := CursorBefore(pages, n);
    TraversalStep(ts, q, pages, n);
    var rows := pages[n].rows;
    var c := rows[|rows| - 1];
    RemainingIs(ts[n], q, cursor, c);
    assert n == 0 ==> Emitted(pages) == rows;
    if n > 0 {
      PrefixTraversal(ts, q, pages);
      EmittedUpToCursor(ts[..n], q, pages[..n]);
    }
    forall r | r in Emitted(pages) ensures r == c || Before(r, c, desc) {
      if r in rows {
        LastIsLast(rows, r, desc);
      } else if n > 0 && r != cursor.value {
        BeforeTransitive(r, cursor.value, c, desc);
      }
    }
  }

  lemma AppendSorted(a: seq<Rank>, b: seq<Rank>, c: Rank, desc: bool)
    requires StrictlySorted(a, desc) && StrictlySorted(b, desc)
    requires forall r :: r in a ==> r == c || Before(r, c, desc)
    requires forall j :: 0 <= j < |b| ==> Before(c, b[j], desc)
    ensures StrictlySorted(a + b, desc)
  {
    hide Before;
    forall i, j | 0 <= i < |a| && 0 <= j < |b| ensures Before(a[i], b[j], desc) {
      assert a[i] in a;
      if a[i] != c {
        BeforeTransitive(a[i], c, b[j], desc);
      }
    }
  }

  /** However the tables change between fetches, the output is strictly ordered by (sort value, id). */
  lemma {:induction false} OutputOrdered(ts: seq<Db>, q: Query, pages: seq<Page>)
    requires IsTraversal(ts, q, pages)
    ensures StrictlySorted(Emitted(pages), DescOf(q))
    decreases |pages|
  {
    hide Remaining, Before, IsTraversal, StrictlySorted;
    if pages == [] {
      EmptySorted(DescOf(q));
    } else {
      var n := |pages| - 1;
      TraversalStep(ts, q, pages, n);
      var cursor, rows := CursorBefore(pages, n), pages[n].rows;
      if n == 0 {
        assert Emitted(pages) == rows;
      } else {
        PrefixTraversal(ts, q, pages);
        OutputOrdered(ts[..n], q, pages[..n]);
        EmittedUpToCursor(ts[..n], q, pages[..n]);
        forall j | 0 <= j < |rows| ensures Before(cursor.value, rows[j], DescOf(q)) {
          RemainingIs(ts[n], q, cursor, rows[j]);
        }
        AppendSorted(Emitted(pages[..n]), rows, cursor.value, DescOf(q));
      }
    }
  }

  lemma EmptySorted(desc: bool)
    ensures StrictlySorted([], desc)
  {
  }

  /** Rows keep the value they are sorted by for as long as they exist. */
  ghost predicate StableSort(ts: seq<Db>, q: Query) {
    forall i, j, id :: 0 <= i < |ts| && 0 <= j < |ts| && id in ts[i].entries && id in ts[j].entries ==>
      RankOf(ts[i], id, q) == RankOf(ts[j], id, q)
  }

  lemma {:induction false} EmittedFrom(ts: seq<Db>, q: Query, pages: seq<Page>, r: Rank)
    requires IsTraversal(ts, q, pages) && r in Emitted(pages)
    ensures exists i :: 0 <= i < |ts| && r.id in ts[i].entries && r == RankOf(ts[i], r.id, q)
    decreases |pages|
  {
    hide Remaining, Before, Matching, RankOf, StrictlySorted;
    var n := |pages| - 1;
    if r in pages[n].rows {
      TraversalStep(ts, q, pages, n);
      RemainingIs(ts[n], q, CursorBefore(pages, n), r);
      MatchingIs(ts[n], q, r);
    } else {
      PrefixTraversal(ts, q, pages);
      EmittedFrom(ts[..n], q, pages[..n], r);
      var i :| 0 <= i < n && r.id in ts[..n][i].entries && r == RankOf(ts[..n][i], r.id, q);
      assert ts[..n][i] == ts[i];
    }
  }

  /** No id is emitted twice when sort values are stable. */
  lemma NoIdTwice(ts: seq<Db>, q: Query, pages: seq<Page>, i: nat, j: nat)
    requires IsTraversal(ts, q, pages) && StableSort(ts, q) && i < j < |Emitted(pages)|
    ensures Emitted(pages)[i].id != Emitted(pages)[j].id
  {
    hide Before, RankOf, IsTraversal, Emitted;
    var out := Emitted(pages);
    OutputOrdered(ts, q, pages);
    EmittedFrom(ts, q, pages, out[i]);
    EmittedFrom(ts, q, pages, out[j]);
    BeforeTotal(out[i], out[j], DescOf(q));
  }

  /**
   A row that matched at every fetch with one and the same sort value has been emitted, or is still ahead of the
   cursor, whatever happened to the rows around it.
   */
  lemma {:induction false} SteadyRowEmitted(ts: seq<Db>, q: Query, pages: seq<Page>, r: Rank)
    requires IsTraversal(ts, q, pages) && pages != []
    requires forall i :: 0 <= i < |ts| ==> r in Matching(ts[i], q)
    ensures r in Emitted(pages)
            || (pages[|pages| - 1].nextCursor.Some? && Before(pages[|pages| - 1].nextCursor.value, r, DescOf(q)))
    decreases |pages|
  {
    hide Remaining, Before, Matching, StrictlySorted, IsTraversal;
    var n := |pages| - 1;
    TraversalStep(ts, q, pages, n);
    if n > 0 {
      PrefixTraversal(ts, q, pages);
      assert forall i :: 0 <= i < n ==> ts[..n][i] == ts[i];
      SteadyRowEmitted(ts[..n], q, pages[..n], r);
    }
    RemainingIs(ts[n], q, CursorBefore(pages, n), r);
  }

  /** Paths and ids never change and ids are never reused, so over any run those two sorts are stable. */
  lemma StableOverRuns(states: seq<Sys>, steps: seq<Step>, at: seq<nat>, ts: seq<Db>, q: Query)
    requires IsRun(states, steps) && SysInv(states[0])
    requires |at| == |ts| && forall i :: 0 <= i < |at| ==> at[i] < |states| && ts[i] == states[at[i]].db
    requires SortOf(q) == Path || SortOf(q) == CreatedAt
    ensures StableSort(ts, q)
  {
    forall i, j, id | 0 <= i < |ts| && 0 <= j < |ts| && id in ts[i].entries && id in ts[j].entries
      ensures RankOf(ts[i], id, q) == RankOf(ts[j], id, q)
    {
      var m, n := if at[i] <= at[j] then at[i] else at[j], if at[i] <= at[j] then at[j] else at[i];
      AlwaysInv(states, steps, m);
      RowsKeepIdentity(states, steps, m, n);
      assert states[m].db.entries[id].key == states[n].db.entries[id].key;
    }
  }

  ghost predicate MatchedThroughout(ts: seq<Db>, q: Query, id: int) {
    forall i :: 0 <= i < |ts| ==> id in ts[i].entries && Matches(ts[i].entries[id], q)
  }

  lemma SteadyIdEmitted(ts: seq<Db>, q: Query, pages: seq<Page>, id: int)
    requires IsTraversal(ts, q, pages) && Completed(pages) && StableSort(ts, q) && MatchedThroughout(ts, q, id)
    ensures exists r :: r in Emitted(pages) && r.id == id
  {
    hide Matching, RankOf, Matches, PageStep, Emitted;
    var r := RankOf(ts[0], id, q);
    RankHasId(ts[0], id, q);
    forall i | 0 <= i < |ts| ensures r in Matching(ts[i], q) {
      MatchingIs(ts[i], q, r);
    }
    SteadyRowEmitted(ts, q, pages, r);
  }

  lemma RankHasId(t: Db, id: int, q: Query)
    requires id in t.entries
    ensures RankOf(t, id, q).id == id
  {
  }

  /**
   Paging by path or creation order while the server runs: fetch each page from any state of any run. The output
   is strictly ordered, repeats no id, and a completed traversal contains every row that matched at each fetch.
   */
  lemma PagingOverRuns(states: seq<Sys>, steps: seq<Step>, at: seq<nat>, ts: seq<Db>, q: Query, pages: seq<Page>)
    requires IsRun(states, steps) && SysInv(states[0])
    requires |at| == |ts| && forall i :: 0 <= i < |at| ==> at[i] < |states| && ts[i] == states[at[i]].db
    requires SortOf(q) == Path || SortOf(q) == CreatedAt
    requires IsTraversal(ts, q, pages) && Completed(pages)
    ensures StrictlySorted(Emitted(pages), DescOf(q))
    ensures forall i, j :: 0 <= i < j < |Emitted(pages)| ==> Emitted(pages)[i].id != Emitted(pages)[j].id
    ensures forall id :: MatchedThroughout(ts, q, id) ==> exists r :: r in Emitted(pages) && r.id == id
  {
    hide Matching, RankOf, Matches, IsTraversal, Emitted, StrictlySorted, IsRun, SysInv, StableSort;
    OutputOrdered(ts, q, pages);
    StableOverRuns(states, steps, at, ts, q);
    forall i, j | 0 <= i < j < |Emitted(pages)| ensures Emitted(pages)[i].id != Emitted(pages)[j].id {
      NoIdTwice(ts, q, pages, i, j);
    }
    forall id | MatchedThroughout(ts, q, id) ensures exists r :: r in Emitted(pages) && r.id == id {
      SteadyIdEmitted(ts, q, pages, id);
    }
  }

  // ----- sort values that move -----

  /**
   Between fetches a row's rank never moves later in the output order: with the default sort, accesses only add up.
   */
  ghost predicate MovesUp(ts: seq<Db>, q: Query) {
    forall i, j, id :: 0 <= i <= j < |ts| && id in ts[i].entries && id in ts[j].entries ==>
      AtOrBefore(RankOf(ts[j], id, q), RankOf(ts[i], id, q), DescOf(q))
  }

  predicate AtOrBefore(a: Rank, b: Rank, desc: bool) {
    a == b || Before(a, b, desc)
  }

  /** The default sort moves rows up as long as no access time goes backwards. */
  lemma DefaultSortMovesUp(ts: seq<Db>, q: Query)
    requires SortOf(q) == LastAccessed && DescOf(q)
    requires forall i, j, id :: 0 <= i <= j < |ts| && id in ts[i].entries && id in ts[j].entries ==>
               ts[i].entries[id].accessed <= ts[j].entries[id].accessed
    ensures MovesUp(ts, q)
  {
  }

  ghost predicate EmittedAt(pages: seq<Page>, id: int, i: nat)
    requires i < |pages|
  {
    exists r :: r in pages[i].rows && r.id == id
  }

  /** The row was still ahead of the cursor when page `i` was cut, and no longer when page `i + 1` was fetched. */
  ghost predicate Crosses(ts: seq<Db>, q: Query, pages: seq<Page>, id: int, i: nat)
    requires i + 1 < |pages| && |ts| == |pages| && forall j :: 0 <= j < |ts| ==> id in ts[j].entries
  {
    && pages[i].nextCursor.Some?
    && Before(pages[i].nextCursor.value, RankOf(ts[i], id, q), DescOf(q))
    && !Before(pages[i].nextCursor.value, RankOf(ts[i + 1], id, q), DescOf(q))
  }

  /** A row that matched is ahead of the next cursor, or was emitted, or was behind the cursor already. */
  lemma OnePageOfRow(ts: seq<Db>, q: Query, pages: seq<Page>, id: int, i: nat)
    requires IsTraversal(ts, q, pages) && i < |pages| && id in ts[i].entries && Matches(ts[i].entries[id], q)
    ensures var rank, c := RankOf(ts[i], id, q), CursorBefore(pages, i);
            (c.Some? && !Before(c.value, rank, DescOf(q)))
            || EmittedAt(pages, id, i)
            || (pages[i].nextCursor.Some? && Before(pages[i].nextCursor.value, rank, DescOf(q)))
  {
    hide Remaining, Before, Matching, Matches, RankOf, PageStep, StrictlySorted;
    var rank := RankOf(ts[i], id, q);
    TraversalStep(ts, q, pages, i);
    RankHasId(ts[i], id, q);
    MatchingIs(ts[i], q, rank);
    RemainingIs(ts[i], q, CursorBefore(pages, i), rank);
  }

  /** An emitted row lies after the cursor its page was fetched with and not after the next one. */
  lemma EmittedBetween(ts: seq<Db>, q: Query, pages: seq<Page>, id: int, i: nat)
    requires IsTraversal(ts, q, pages) && i < |pages| && EmittedAt(pages, id, i)
    ensures id in ts[i].entries
    ensures var rank := RankOf(ts[i], id, q);
            && (i > 0 ==> pages[i - 1].nextCursor.Some? && Before(pages[i - 1].nextCursor.value, rank, DescOf(q)))
            && (pages[i].nextCursor.Some? ==> AtOrBefore(rank, pages[i].nextCursor.value, DescOf(q)))
  {
    hide Remaining, Before, Matching, Matches, RankOf, PageStep;
    var r :| r in pages[i].rows && r.id == id;
    TraversalStep(ts, q, pages, i);
    RemainingIs(ts[i], q, CursorBefore(pages, i), r);
    MatchingIs(ts[i], q, r);
    LastIsLast(pages[i].rows, r, DescOf(q));
  }

  /** Cursors move forward. */
  lemma {:induction false} CursorsAdvance(ts: seq<Db>, q: Query, pages: seq<Page>, i: nat, j: nat)
    requires IsTraversal(ts, q, pages) && i <= j < |pages| && pages[j].nextCursor.Some?
    ensures pages[i].nextCursor.Some? && AtOrBefore(pages[i].nextCursor.value, pages[j].nextCursor.value, DescOf(q))
    decreases j - i
  {
    hide Remaining, Before, StrictlySorted, PageStep;
    if i < j {
      TraversalStep(ts, q, pages, j);
      CursorsAdvance(ts, q, pages, i, j - 1);
      var last := pages[j].nextCursor.value;
      RemainingIs(ts[j], q, CursorBefore(pages, j), last);
      var c := pages[j - 1].nextCursor.value;
      if pages[i].nextCursor.value != c {
        BeforeTransitive(pages[i].nextCursor.value, c, last, DescOf(q));
      }
    }
  }

  lemma Chain(a: Rank, b: Rank, c: Rank, desc: bool)
    ensures AtOrBefore(a, b, desc) && Before(b, c, desc) ==> Before(a, c, desc)
    ensures Before(a, b, desc) && AtOrBefore(b, c, desc) ==> Before(a, c, desc)
    ensures AtOrBefore(a, b, desc) && AtOrBefore(b, c, desc) ==> AtOrBefore(a, c, desc)
    ensures AtOrBefore(a, b, desc) ==> !Before(b, a, desc)
  {
    hide Before;
    BeforeTotal(a, b, desc);
    if Before(a, b, desc) && Before(b, c, desc) {
      BeforeTransitive(a, b, c, desc);
    }
  }

  lemma {:induction false} AheadOrCrossed(ts: seq<Db>, q: Query, pages: seq<Page>, id: int, n: nat)
    requires IsTraversal(ts, q, pages) && MatchedThroughout(ts, q, id) && n < |pages|
    requires forall i :: 0 <= i < |pages| ==> !EmittedAt(pages, id, i)
    requires forall i :: 0 <= i < n ==> !Crosses(ts, q, pages, id, i)
    ensures pages[n].nextCursor.Some? && Before(pages[n].nextCursor.value, RankOf(ts[n], id, q), DescOf(q))
    decreases n
  {
    hide Before, RankOf, PageStep, EmittedAt;
    OnePageOfRow(ts, q, pages, id, n);
    if n > 0 {
      AheadOrCrossed(ts, q, pages, id, n - 1);
      assert !Crosses(ts, q, pages, id, n - 1);
    }
  }

  lemma CrossedIsNotEmitted(ts: seq<Db>, q: Query, pages: seq<Page>, id: int, i: nat, j: nat)
    requires IsTraversal(ts, q, pages) && MatchedThroughout(ts, q, id) && MovesUp(ts, q)
    requires i + 1 < |pages| && Crosses(ts, q, pages, id, i) && j < |pages|
    ensures !EmittedAt(pages, id, j)
  {
    hide Before, RankOf, PageStep, EmittedAt, Matches, AtOrBefore;
    if EmittedAt(pages, id, j) {
      var desc := DescOf(q);
      var c := pages[i].nextCursor.value;
      EmittedBetween(ts, q, pages, id, j);
      var was := RankOf(ts[j], id, q);
      if j <= i {
        CursorsAdvance(ts, q, pages, j, i);
        var d := pages[j].nextCursor.value;
        var now := RankOf(ts[i], id, q);
        assert AtOrBefore(now, was, desc);
        Chain(now, was, d, desc);
        Chain(now, d, c, desc);
        Chain(now, c, now, desc);
      } else {
        CursorsAdvance(ts, q, pages, i, j - 1);
        var d := pages[j - 1].nextCursor.value;
        var now := RankOf(ts[i + 1], id, q);
        assert AtOrBefore(was, now, desc);
        Chain(c, d, was, desc);
        Chain(c, was, now, desc);
      }
    }
  }

  /**
   Paging by a sort value that moves, such as the default `last_accessed DESC`: a completed traversal misses a row
   that matched at every fetch if and only if the row was moved across the cursor between two fetches.
   */
  lemma MissedIffCrosses(ts: seq<Db>, q: Query, pages: seq<Page>, id: int)
    requires IsTraversal(ts, q, pages) && Completed(pages) && MatchedThroughout(ts, q, id) && MovesUp(ts, q)
    ensures (forall i :: 0 <= i < |pages| ==> !EmittedAt(pages, id, i))
            <==> exists i :: 0 <= i < |pages| - 1 && Crosses(ts, q, pages, id, i)
  {
    hide RankOf, PageStep, EmittedAt, Matches, MovesUp, Crosses;
    if i :| 0 <= i < |pages| - 1 && Crosses(ts, q, pages, id, i) {
      forall j | 0 <= j < |pages| ensures !EmittedAt(pages, id, j) {
        CrossedIsNotEmitted(ts, q, pages, id, i, j);
      }
    } else if forall i :: 0 <= i < |pages| ==> !EmittedAt(pages, id, i) {
      AheadOrCrossed(ts, q, pages, id, |pages| - 1);
    }
  }

  /** And no row is emitted by two fetches. */
  lemma EmittedByOneFetch(ts: seq<Db>, q: Query, pages: seq<Page>, id: int, i: nat, j: nat)
    requires IsTraversal(ts, q, pages) && MovesUp(ts, q) && i < j < |pages|
    ensures !(EmittedAt(pages, id, i) && EmittedAt(pages, id, j))
  {
    hide Before, RankOf, PageStep, EmittedAt, AtOrBefore;
    if EmittedAt(pages, id, i) && EmittedAt(pages, id, j) {
      var desc := DescOf(q);
      EmittedBetween(ts, q, pages, id, i);
      EmittedBetween(ts, q, pages, id, j);
      CursorsAdvance(ts, q, pages, i, j - 1);
      var c, d := pages[i].nextCursor.value, pages[j - 1].nextCursor.value;
      var old_, new_ := RankOf(ts[i], id, q), RankOf(ts[j], id, q);
      Chain(c, d, new_, desc);
      Chain(old_, c, new_, desc);
      Chain(new_, old_, new_, desc);
    }
  }

  /**
   A row that matches at a fetch is emitted by it if and only if it lies after the cursor and not after the next one.
   */
  lemma EmittedAtIff(ts: seq<Db>, q: Query, pages: seq<Page>, id: int, i: nat)
    requires IsTraversal(ts, q, pages) && i < |pages| && id in ts[i].entries && Matches(ts[i].entries[id], q)
    ensures var rank, next := RankOf(ts[i], id, q), pages[i].nextCursor;
            EmittedAt(pages, id, i)
            <==> (i > 0 ==> pages[i - 1].nextCursor.Some? && Before(pages[i - 1].nextCursor.value, rank, DescOf(q)))
                 && (next.Some? ==> !Before(next.value, rank, DescOf(q)))
  {
    hide Before, RankOf, PageStep, EmittedAt, Matches;
    OnePageOfRow(ts, q, pages, id, i);
    if EmittedAt(pages, id, i) {
      EmittedBetween(ts, q, pages, id, i);
      if pages[i].nextCursor.Some? {
        var rank, next := RankOf(ts[i], id, q), pages[i].nextCursor.value;
        Chain(rank, next, rank, DescOf(q));
      }
    }
  }

  /** Between fetches a row's rank never moves earlier: the same accesses under `last_accessed ASC`. */
  ghost predicate MovesDown(ts: seq<Db>, q: Query) {
    forall i, j, id :: 0 <= i <= j < |ts| && id in ts[i].entries && id in ts[j].entries ==>
      AtOrBefore(RankOf(ts[i], id, q), RankOf(ts[j], id, q), DescOf(q))
  }

  /** Ascending order of access or of size moves rows down as long as the value never decreases. */
  lemma AscendingMovesDown(ts: seq<Db>, q: Query)
    requires (SortOf(q) == LastAccessed || SortOf(q) == Size) && !DescOf(q)
    requires forall i, j, id :: 0 <= i <= j < |ts| && id in ts[i].entries && id in ts[j].entries ==>
               ts[i].entries[id].accessed <= ts[j].entries[id].accessed
                   && ts[i].entries[id].size <= ts[j].entries[id].size
    ensures MovesDown(ts, q)
  {
  }

  /** The row was not ahead of the cursor when page `i` was cut, and is ahead of it when page `i + 1` is fetched. */
  ghost predicate Jumps(ts: seq<Db>, q: Query, pages: seq<Page>, id: int, i: nat)
    requires i + 1 < |pages| && |ts| == |pages| && forall j :: 0 <= j < |ts| ==> id in ts[j].entries
  {
    && pages[i].nextCursor.Some?
    && !Before(pages[i].nextCursor.value, RankOf(ts[i], id, q), DescOf(q))
    && Before(pages[i].nextCursor.value, RankOf(ts[i + 1], id, q), DescOf(q))
  }

  lemma {:induction false} BehindUntilJump(ts: seq<Db>, q: Query, pages: seq<Page>, id: int, i: nat, n: nat)
    requires IsTraversal(ts, q, pages) && MatchedThroughout(ts, q, id) && i <= n < |pages| - 1
    requires EmittedAt(pages, id, i) && forall j :: i <= j < n ==> !Jumps(ts, q, pages, id, j)
    ensures pages[n].nextCursor.Some? && !Before(pages[n].nextCursor.value, RankOf(ts[n], id, q), DescOf(q))
    decreases n
  {
    hide Before, RankOf, EmittedAt, Matches, PageAt;
    assert PageStep(ts, q, pages, n + 1);
    if n == i {
      EmittedAtIff(ts, q, pages, id, i);
    } else {
      BehindUntilJump(ts, q, pages, id, i, n - 1);
      CursorsAdvance(ts, q, pages, n - 1, n);
      assert !Jumps(ts, q, pages, id, n - 1);
      Chain(pages[n - 1].nextCursor.value, pages[n].nextCursor.value, RankOf(ts[n], id, q), DescOf(q));
    }
  }

  /** A row ahead of the cursor at a fetch is emitted by that fetch or a later one, if it only moves down. */
  lemma {:induction false} AheadIsEmitted(ts: seq<Db>, q: Query, pages: seq<Page>, id: int, n: nat)
    requires IsTraversal(ts, q, pages) && Completed(pages) && MatchedThroughout(ts, q, id) && MovesDown(ts, q)
    requires n < |pages| && (n > 0 ==> pages[n - 1].nextCursor.Some?)
    requires n > 0 ==> Before(pages[n - 1].nextCursor.value, RankOf(ts[n], id, q), DescOf(q))
    ensures exists j :: n <= j < |pages| && EmittedAt(pages, id, j)
    decreases |pages| - n
  {
    hide Before, RankOf, EmittedAt, Matches, PageStep, AtOrBefore;
    OnePageOfRow(ts, q, pages, id, n);
    if !EmittedAt(pages, id, n) {
      var was, now := RankOf(ts[n], id, q), RankOf(ts[n + 1], id, q);
      assert AtOrBefore(was, now, DescOf(q));
      Chain(pages[n].nextCursor.value, was, now, DescOf(q));
      AheadIsEmitted(ts, q, pages, id, n + 1);
    }
  }

  /** Sort values that only move down lose no row: a row that matched at every fetch is emitted. */
  lemma MovingDownMissesNothing(ts: seq<Db>, q: Query, pages: seq<Page>, id: int)
    requires IsTraversal(ts, q, pages) && Completed(pages) && MatchedThroughout(ts, q, id) && MovesDown(ts, q)
    ensures exists j :: 0 <= j < |pages| && EmittedAt(pages, id, j)
  {
    AheadIsEmitted(ts, q, pages, id, 0);
  }

  /** But they repeat: an emitted row is emitted again if and only if it is moved ahead of the cursor afterwards. */
  lemma RepeatedIffJumps(ts: seq<Db>, q: Query, pages: seq<Page>, id: int, i: nat)
    requires IsTraversal(ts, q, pages) && Completed(pages) && MatchedThroughout(ts, q, id) && MovesDown(ts, q)
    requires i < |pages| && EmittedAt(pages, id, i)
    ensures (exists j :: i < j < |pages| && EmittedAt(pages, id, j))
            <==> exists j :: i <= j < |pages| - 1 && Jumps(ts, q, pages, id, j)
  {
    hide Before, RankOf, EmittedAt, Matches, PageStep, MovesDown;
    if j :| i <= j < |pages| - 1 && Jumps(ts, q, pages, id, j) {
      AheadIsEmitted(ts, q, pages, id, j + 1);
    } else {
      forall j | i < j < |pages| ensures !EmittedAt(pages, id, j) {
        NoJumpNoRepeat(ts, q, pages, id, i, j);
      }
    }
  }

  lemma NoJumpNoRepeat(ts: seq<Db>, q: Query, pages: seq<Page>, id: int, i: nat, j: nat)
    requires IsTraversal(ts, q, pages) && MatchedThroughout(ts, q, id) && i < j < |pages| && EmittedAt(pages, id, i)
    requires forall n :: i <= n < |pages| - 1 ==> !Jumps(ts, q, pages, id, n)
    ensures !EmittedAt(pages, id, j)
  {
    hide Before, RankOf, EmittedAt, Matches, PageStep;
    BehindUntilJump(ts, q, pages, id, i, j - 1);
    assert !Jumps(ts, q, pages, id, j - 1);
    EmittedAtIff(ts, q, pages, id, j);
  }

  // ----- one unchanging table -----

  /** Following cursors to the end. */
  ghost function AllPages(t: Db, q: Query, cursor: Option<Rank>): seq<Page>
    decreases |Remaining(t, q, cursor)|
  {
    var p := PageAt(t, q, cursor);
    if p.nextCursor.None? then [p]
    else
      NextIsSmaller(t, q, cursor);
      [p] + AllPages(t, q, p.nextCursor)
  }

  lemma LimitIsPositive(q: Query)
    ensures 1 <= LimitOf(q) <= 1000
  {
  }

  lemma PageCases(t: Db, q: Query, cursor: Option<Rank>)
    ensures var p := PageAt(t, q, cursor);
            var all := Sorted(Remaining(t, q, cursor), DescOf(q));
            && (p.nextCursor.None? <==> |all| <= LimitOf(q))
            && p.rows == (if |all| <= LimitOf(q) then all else all[..LimitOf(q)])
            && (|all| > LimitOf(q) ==> p.nextCursor == Some(all[LimitOf(q) - 1]))
  {
    hide Sorted, Remaining;
  }

  lemma SuffixSorted(all: seq<Rank>, k: nat, desc: bool)
    requires StrictlySorted(all, desc) && k <= |all|
    ensures StrictlySorted(all[k..], desc)
  {
    hide Before;
  }

  lemma SuffixElements(all: seq<Rank>, k: nat, r: Rank, desc: bool)
    requires StrictlySorted(all, desc) && 0 < k < |all|
    ensures r in Elements(all[k..]) <==> r in Elements(all) && Before(all[k - 1], r, desc)
  {
    hide Before;
    if r in all[k..] {
      var i :| 0 <= i < |all[k..]| && all[k..][i] == r;
      assert all[k + i] == r;
    }
    if r in all && Before(all[k - 1], r, desc) {
      var i :| 0 <= i < |all| && all[i] == r;
      BeforeTotal(all[k - 1], r, desc);
      assert i >= k ==> all[k..][i - k] == r;
    }
  }

  lemma NextRemaining(t: Db, q: Query, cursor: Option<Rank>, next: Rank, r: Rank)
    requires next in Remaining(t, q, cursor)
    ensures r in Remaining(t, q, Some(next)) <==> r in Remaining(t, q, cursor) && Before(next, r, DescOf(q))
  {
    hide Remaining, Before, Matching;
    RemainingIs(t, q, cursor, next);
    RemainingIs(t, q, cursor, r);
    RemainingIs(t, q, Some(next), r);
    if cursor.Some? && Before(next, r, DescOf(q)) {
      BeforeTransitive(cursor.value, next, r, DescOf(q));
    }
  }

  /** The rows after the cursor of a page are the sorted rows that follow the page. */
  lemma RestOfList(t: Db, q: Query, cursor: Option<Rank>)
    requires PageAt(t, q, cursor).nextCursor.Some?
    ensures var all := Sorted(Remaining(t, q, cursor), DescOf(q));
            |all| > LimitOf(q) && Sorted(Remaining(t, q, PageAt(t, q, cursor).nextCursor), DescOf(q))
                == all[LimitOf(q)..]
  {
    hide *;
    LimitIsPositive(q);
    PageCases(t, q, cursor);
    var desc := DescOf(q);
    var all := Sorted(Remaining(t, q, cursor), desc);
    var k := LimitOf(q);
    var next := all[k - 1];
    var rest := Remaining(t, q, Some(next));
    IsElement(all, k - 1);
    forall r ensures r in Elements(all[k..]) <==> r in rest {
      SuffixElements(all, k, r, desc);
      NextRemaining(t, q, cursor, next, r);
    }
    SuffixSorted(all, k, desc);
    SortedUnique(Sorted(rest, desc), all[k..], desc);
  }

  lemma NextIsSmaller(t: Db, q: Query, cursor: Option<Rank>)
    requires PageAt(t, q, cursor).nextCursor.Some?
    ensures |Remaining(t, q, PageAt(t, q, cursor).nextCursor)| < |Remaining(t, q, cursor)|
  {
    hide Before, Remaining;
    RestOfList(t, q, cursor);
  }

  lemma {:induction false} EmittedCons(p: Page, pages: seq<Page>)
    ensures Emitted([p] + pages) == p.rows + Emitted(pages)
    decreases |pages|
  {
    var all := [p] + pages;
    if pages == [] {
      assert all[..0] == [] && all == [p];
    } else {
      assert all[..|all| - 1] == [p] + pages[..|pages| - 1];
      EmittedCons(p, pages[..|pages| - 1]);
    }
  }

  /**
   With nothing changing, following the cursors ends, takes max(1, ceil(n / limit)) pages, and concatenates to
   the filtered table sorted once: every row exactly once, for every filter, sort, order and limit.
   */
  lemma {:induction false} AllPagesIsSortedTable(t: Db, q: Query, cursor: Option<Rank>)
    ensures var n := |Remaining(t, q, cursor)|;
            var pages := AllPages(t, q, cursor);
            && Emitted(pages) == Sorted(Remaining(t, q, cursor), DescOf(q))
            && Completed(pages)
            && |pages| == if n == 0 then 1 else (n + LimitOf(q) - 1) / LimitOf(q)
    decreases |Remaining(t, q, cursor)|
  {
    hide *;
    var p := PageAt(t, q, cursor);
    var all := Sorted(Remaining(t, q, cursor), DescOf(q));
    LimitIsPositive(q);
    AllPagesStep(t, q, cursor);
    PageCases(t, q, cursor);
    if p.nextCursor.None? {
      OnePage(p);
      CeilSmall(|all|, LimitOf(q));
    } else {
      RestOfList(t, q, cursor);
      NextIsSmaller(t, q, cursor);
      AllPagesIsSortedTable(t, q, p.nextCursor);
      JoinPages(p, AllPages(t, q, p.nextCursor), all, LimitOf(q));
    }
  }

  lemma JoinPages(p: Page, rest: seq<Page>, all: seq<Rank>, k: nat)
    requires 0 < k < |all| && p.rows == all[..k]
    requires Emitted(rest) == all[k..] && Completed(rest) && |rest| == (|all| - k + k - 1) / k
    ensures Emitted([p] + rest) == all && Completed([p] + rest) && |[p] + rest| == (|all| + k - 1) / k
  {
    hide *;
    EmittedCons(p, rest);
    CompletedCons(p, rest);
    assert all == all[..k] + all[k..];
    CeilStep(|all|, k);
  }

  lemma AllPagesStep(t: Db, q: Query, cursor: Option<Rank>)
    ensures var p := PageAt(t, q, cursor);
            AllPages(t, q, cursor) == if p.nextCursor.None? then [p] else [p] + AllPages(t, q, p.nextCursor)
  {
    hide PageAt;
  }

  lemma OnePage(p: Page)
    ensures Emitted([p]) == p.rows
    ensures p.nextCursor.None? ==> Completed([p])
  {
    assert [p][..0] == [];
  }

  lemma CompletedCons(p: Page, pages: seq<Page>)
    requires Completed(pages)
    ensures Completed([p] + pages) && |[p] + pages| == 1 + |pages|
  {
  }

  lemma {:induction false} AllPagesAt(t: Db, q: Query, cursor: Option<Rank>, i: nat)
    requires i < |AllPages(t, q, cursor)|
    ensures var ps := AllPages(t, q, cursor);
            && (i > 0 ==> ps[i - 1].nextCursor.Some?)
            && ps[i] == PageAt(t, q, if i == 0 then cursor else ps[i - 1].nextCursor)
            && (i == |ps| - 1 <==> ps[i].nextCursor.None?)
    decreases i
  {
    hide *;
    AllPagesStep(t, q, cursor);
    var p := PageAt(t, q, cursor);
    if p.nextCursor.Some? {
      var rest := AllPages(t, q, p.nextCursor);
      AllPagesStep(t, q, p.nextCursor);
      if i > 0 {
        AllPagesAt(t, q, p.nextCursor, i - 1);
      }
    }
  }

  /** A client that follows cursors over an unchanging table until there is none fetches exactly `AllPages`. */
  lemma FollowingCursorsIsAllPages(t: Db, q: Query, ts: seq<Db>, pages: seq<Page>)
    requires IsTraversal(ts, q, pages) && Completed(pages)
    requires forall i :: 0 <= i < |ts| ==> ts[i] == t
    ensures pages == AllPages(t, q, None)
  {
    hide PageAt, AllPages;
    var all := AllPages(t, q, None);
    FollowedSoFar(t, q, ts, pages, |pages| - 1);
    AllPagesAt(t, q, None, |pages| - 1);
    forall i | 0 <= i < |pages| ensures pages[i] == all[i] {
      FollowedSoFar(t, q, ts, pages, i);
    }
  }

  lemma {:induction false} FollowedSoFar(t: Db, q: Query, ts: seq<Db>, pages: seq<Page>, i: nat)
    requires IsTraversal(ts, q, pages) && i < |pages|
    requires forall j :: 0 <= j < |ts| ==> ts[j] == t
    ensures i < |AllPages(t, q, None)| && pages[i] == AllPages(t, q, None)[i]
    decreases i
  {
    hide PageAt, AllPages;
    AllPagesStep(t, q, None);
    assert PageStep(ts, q, pages, i);
    if i > 0 {
      FollowedSoFar(t, q, ts, pages, i - 1);
      AllPagesAt(t, q, None, i - 1);
    }
    AllPagesAt(t, q, None, i);
  }

  lemma CeilSmall(n: nat, k: nat)
    requires 0 < k && n <= k
    ensures n > 0 ==> (n + k - 1) / k == 1
  {
  }

  lemma DivStep(x: nat, k: nat)
    requires 0 < k
    ensures (x + k) / k == x / k + 1
  {
    var a, b := x / k, (x + k) / k;
    assert x == a * k + x % k && x + k == b * k + (x + k) % k;
    assert (a + 1 - b) * k == (x + k) % k - x % k;
    SmallMultiple(a + 1 - b, k);
  }

  lemma SmallMultiple(d: int, k: nat)
    requires 0 - k < d * k < k
    ensures d == 0
  {
    MultipleAtLeast(d, k);
    MultipleAtLeast(-d, k);
  }

  lemma MultipleAtLeast(d: int, k: nat)
    ensures d >= 1 ==> d * k >= k
  {
  }

  lemma CeilStep(n: nat, k: nat)
    requires 0 < k < n
    ensures (n + k - 1) / k == 1 + (n - k + k - 1) / k
  {
    DivStep(n - 1, k);
  }

  // ----- the default sort -----

  /**
   The default sort by last access is not stable: a GET between two fetches moves an unread row past the cursor,
   and a completed traversal misses a row that matched at every fetch.
   */
  lemma TouchedRowIsMissed()
    ensures var q := Query(1, None, None, None, None, None, Some(1));
            var old_ := TwoRows(5, 3);
            var new_ := Touch(old_, 2, 9);
            exists pages :: IsTraversal([old_, new_], q, pages) && Completed(pages)
                            && Matches(old_.entries[2], q) && Matches(new_.entries[2], q)
                            && forall r :: r in Emitted(pages) ==> r.id != 2
  {
    hide Matching, PageAt, Sorted;
    var q := Query(1, None, None, None, None, None, Some(1));
    var old_ := TwoRows(5, 3);
    var new_ := Touch(old_, 2, 9);
    var a, b, c := Rank(Num(5), 1), Rank(Num(3), 2), Rank(Num(9), 2);
    forall r ensures r in Matching(old_, q) <==> r in {a, b} {
      MatchingIs(old_, q, r);
    }
    forall r ensures r in Matching(new_, q) <==> r in {a, c} {
      MatchingIs(new_, q, r);
    }
    FirstPageOfTwo(old_, q, a, b);
    LastPageEmpty(new_, q, a, c);
    var p1, p2 := Page([a], Some(a), true), Page([], None, false);
    var ts, pages := [old_, new_], [p1, p2];
    assert PageStep(ts, q, pages, 0) && PageStep(ts, q, pages, 1);
    OnePage(p1);
    assert pages[..1] == [p1];
    assert Emitted(pages) == [a];
    assert IsTraversal(ts, q, pages) && Completed(pages);
  }

  function TwoRows(x: int, y: int): Db {
    Db(map[1 := Project("p", None, None)],
       map[1 := Entry(CacheKey(1, Sstate, "a"), Digest([1]), 1, 0, x, false),
           2 := Entry(CacheKey(1, Sstate, "b"), Digest([1]), 1, 0, y, false)],
       map[Digest([1]) := Blob(1, 2)],
       2)
  }

  lemma FirstPageOfTwo(t: Db, q: Query, a: Rank, b: Rank)
    requires Matching(t, q) == {a, b} && Before(a, b, DescOf(q)) && LimitOf(q) == 1
    ensures PageAt(t, q, None) == Page([a], Some(a), true)
  {
    hide Sorted, Matching, Before, LimitOf;
    assert Remaining(t, q, None) == {a, b};
    assert Elements([a, b]) == {a, b};
    SortedUnique(Sorted({a, b}, DescOf(q)), [a, b], DescOf(q));
  }

  lemma LastPageEmpty(t: Db, q: Query, a: Rank, c: Rank)
    requires Matching(t, q) == {a, c} && Before(c, a, DescOf(q)) && LimitOf(q) == 1
    ensures PageAt(t, q, Some(a)) == Page([], None, false)
  {
    hide Sorted, Matching, Before, LimitOf;
    BeforeTotal(a, c, DescOf(q));
    BeforeTotal(a, a, DescOf(q));
    assert Remaining(t, q, Some(a)) == {};
  }
}
