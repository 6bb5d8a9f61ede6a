/** The blob index and its cursor: `index_since` on the server (blobdb.py, server.py) and the
    cursor a reader keeps per transpeer (reader.py). */
module Paging {
  import opened BlobDb
  import opened Bytes
  import opened Sequences
  import opened Sorting

  const MAX_PAGE := 500

  datatype IndexRow = IndexRow(hash: Digest, firstSeen: int, commitments: seq<Commitment>)

  /** An empty `after` stands for a cursor that only has a time. */
  datatype Cursor = Cursor(since: int, after: Bytes)

  /** The answer of `/blobs`: `next` is there when the page is full. */
  datatype Page = Page(rows: seq<IndexRow>, next: Option<Cursor>)

  const START := Cursor(0, [])

  predicate After(c: Cursor, row: IndexRow) {
    row.firstSeen > c.since || (c.after != [] && row.firstSeen == c.since && Less(c.after, row.hash))
  }

  /** The rows after the cursor, in the order of the list. */
  function RowsAfter(rows: seq<IndexRow>, c: Cursor): (r: seq<IndexRow>)
    ensures |r| <= |rows|
  {
    if rows == [] then []
    else if After(c, rows[0]) then [rows[0]] + RowsAfter(rows[1..], c)
    else RowsAfter(rows[1..], c)
  }

  /** Order of the index: by time, then by hash. */
  predicate IndexOrder(a: IndexRow, b: IndexRow) {
    a.firstSeen < b.firstSeen || (a.firstSeen == b.firstSeen && !Less(b.hash, a.hash))
  }

  predicate OtherHash(a: IndexRow, b: IndexRow) {
    a.hash != b.hash
  }

  /** All that follows the cursor, in index order. */
  function Pending(rows: seq<IndexRow>, c: Cursor): seq<IndexRow> {
    SortBy(IndexOrder, RowsAfter(rows, c))
  }

  /** `index_since`. */
  function IndexSince(rows: seq<IndexRow>, c: Cursor, limit: nat): seq<IndexRow> {
    First(Pending(rows, c), limit)
  }

  function CursorAt(row: IndexRow): Cursor {
    Cursor(row.firstSeen, row.hash)
  }

  function ClampLimit(asked: int): (n: nat)
    ensures 1 <= n <= MAX_PAGE
  {
    if asked < 1 then 1 else if asked > MAX_PAGE then MAX_PAGE else asked
  }

  /** `handle_blobs_index`, for a query that parses. */
  function Serve(rows: seq<IndexRow>, c: Cursor, asked: int): Page {
    var page := IndexSince(rows, c, ClampLimit(asked));
    Page(page, if |page| == ClampLimit(asked) then Some(CursorAt(page[|page| - 1])) else None)
  }

  /** The cursor `gossip` keeps after a page all of whose rows were processed. */
  function Advance(c: Cursor, page: Page): Cursor {
    if page.rows == [] then c
    else if page.next.Some? then page.next.value
    else CursorAt(page.rows[|page.rows| - 1])
  }

  /** The rows processed by a run of `gossip` calls on an unchanged database; `oks` says in which
      calls every row of the page was processed. */
  function Follow(rows: seq<IndexRow>, c: Cursor, asked: int, oks: seq<bool>): seq<IndexRow>
    decreases |oks|
  {
    if oks == [] then []
    else if !oks[0] then Follow(rows, c, asked, oks[1..])
    else
      var page := Serve(rows, c, asked);
      page.rows + Follow(rows, Advance(c, page), asked, oks[1..])
  }

  /** The cursor kept after that run. */
  function FollowCursor(rows: seq<IndexRow>, c: Cursor, asked: int, oks: seq<bool>): Cursor
    decreases |oks|
  {
    if oks == [] then c
    else if !oks[0] then FollowCursor(rows, c, asked, oks[1..])
    else FollowCursor(rows, Advance(c, Serve(rows, c, asked)), asked, oks[1..])
  }

  function Count(oks: seq<bool>): nat {
    if oks == [] then 0 else (if oks[0] then 1 else 0) + Count(oks[1..])
  }

  /** The cursors a reader keeps, one for each transpeer it gossips with. */
  class CursorTable {
    var cursors: map<string, Cursor>

    constructor ()
      ensures cursors == map[]
    {
      cursors := map[];
    }

    function CursorFor(peer: string): Cursor
      reads this
    {
      if peer in cursors then cursors[peer] else START
    }

    /** `gossip` with a transpeer whose index holds `rows`; `ok` says whether every row of the page
        was processed. The calls of one transpeer are one `Follow`. */
    method Gossip(peer: string, rows: seq<IndexRow>, asked: int, ok: bool) returns (processed: seq<IndexRow>)
      modifies this
      ensures forall p :: p != peer ==> CursorFor(p) == old(CursorFor(p))
      ensures forall later :: processed + Follow(rows, CursorFor(peer), asked, later)
                           == Follow(rows, old(CursorFor(peer)), asked, [ok] + later)
    {
      hide Serve;
      var c := CursorFor(peer);
      var page := Serve(rows, c, asked);
      if ok {
        processed := page.rows;
        if page.rows != [] {
          if page.next.Some? {
            cursors := cursors[peer := page.next.value];
          } else {
            cursors := cursors[peer := CursorAt(page.rows[|page.rows| - 1])];
          }
        }
      } else {
        processed := [];
      }
      forall later: seq<bool>
        ensures processed + Follow(rows, CursorFor(peer), asked, later) == Follow(rows, c, asked, [ok] + later)
      {
        assert ([ok] + later)[1..] == later;
      }
    }
  }

  /** The rows of a blob store, in the order of its dictionary. */
  function RowsOf(order: seq<Digest>, blobs: map<Digest, Row>): (rows: seq<IndexRow>)
    requires forall h :: h in order ==> h in blobs
    ensures |rows| == |order|
    ensures forall i :: 0 <= i < |rows| ==>
              rows[i] == IndexRow(order[i], blobs[order[i]].firstSeen, blobs[order[i]].commitments)
  {
    seq(|order|, i requires 0 <= i < |order| =>
      IndexRow(order[i], blobs[order[i]].firstSeen, blobs[order[i]].commitments))
  }

  /* ---------- Proofs ---------- */

  lemma IndexOrderTotal()
    ensures Total(IndexOrder)
  {
    hide Less;
    forall a: IndexRow, b: IndexRow
      ensures IndexOrder(a, b) || IndexOrder(b, a)
    {
      LessTrichotomy(a.hash, b.hash);
    }
    forall a: IndexRow, b: IndexRow, c: IndexRow | IndexOrder(a, b) && IndexOrder(b, c)
      ensures IndexOrder(a, c)
    {
      NotLessTransitive(a.hash, b.hash, c.hash);
    }
  }

  lemma NotLessTransitive(a: Bytes, b: Bytes, c: Bytes)
    ensures !Less(b, a) && !Less(c, b) ==> !Less(c, a)
  {
    hide Less;
    LessTrichotomy(a, b);
    if !Less(b, a) && Less(c, a) && a != b {
      LessTransitive(c, a, b);
    }
  }

  lemma RowsAfterIn(rows: seq<IndexRow>, c: Cursor, row: IndexRow)
    ensures row in RowsAfter(rows, c) <==> row in rows && After(c, row)
  {
    hide After;
    if rows != [] {
      RowsAfterIn(rows[1..], c, row);
    }
  }

  /** Inserting into an ordered list and then filtering is filtering and then inserting. */
  lemma {:induction false} InsertThenAfter(rows: seq<IndexRow>, x: IndexRow, c: Cursor)
    requires Total(IndexOrder) && Ordered(IndexOrder, rows)
    ensures RowsAfter(Insert(IndexOrder, rows, x), c)
         == if After(c, x) then Insert(IndexOrder, RowsAfter(rows, c), x) else RowsAfter(rows, c)
  {
    hide After, IndexOrder;
    if rows != [] {
      if IndexOrder(x, rows[0]) {
        var r := RowsAfter(rows, c);
        if r != [] {
          RowsAfterIn(rows, c, r[0]);
          assert IndexOrder(rows[0], r[0]) || rows[0] == r[0];
        }
        assert ([x] + rows)[1..] == rows;
      } else {
        InsertThenAfter(rows[1..], x, c);
        var t := Insert(IndexOrder, rows[1..], x);
        assert ([rows[0]] + t)[1..] == t;
        assert After(c, rows[0]) ==> ([rows[0]] + RowsAfter(rows[1..], c))[1..] == RowsAfter(rows[1..], c);
      }
    }
  }

  /** Filtering the sorted index is sorting the filtered one. */
  lemma {:induction false} SortThenAfter(rows: seq<IndexRow>, c: Cursor)
    ensures RowsAfter(SortBy(IndexOrder, rows), c) == Pending(rows, c)
  {
    hide After, IndexOrder;
    if rows != [] {
      SortThenAfter(rows[1..], c);
      IndexOrderTotal();
      SortSorts(IndexOrder, rows[1..]);
      InsertThenAfter(SortBy(IndexOrder, rows[1..]), rows[0], c);
    }
  }

  /** A later cursor leaves fewer rows: filtering by both is filtering by the later one. */
  lemma {:induction false} AfterTwice(rows: seq<IndexRow>, c: Cursor, d: Cursor)
    requires forall row :: row in rows && After(d, row) ==> After(c, row)
    ensures RowsAfter(RowsAfter(rows, c), d) == RowsAfter(rows, d)
  {
    hide After;
    if rows != [] {
      AfterTwice(rows[1..], c, d);
    }
  }

  /** A list whose first `m` rows are not after the cursor and the others are. */
  lemma {:induction false} AfterSuffix(rows: seq<IndexRow>, c: Cursor, m: nat)
    requires m <= |rows|
    requires forall i :: 0 <= i < |rows| ==> (After(c, rows[i]) <==> m <= i)
    ensures RowsAfter(rows, c) == rows[m..]
  {
    hide After;
    if rows != [] {
      AfterSuffix(rows[1..], c, if m == 0 then 0 else m - 1);
      HeadTail(rows);
    }
  }

  /** In the sorted index the rows after a row's own cursor are the ones that stand behind it. */
  lemma BehindIsAfter(rows: seq<IndexRow>, i: nat, j: nat)
    requires Ordered(IndexOrder, rows) && Apart(OtherHash, rows) && i < |rows| && j < |rows|
    ensures After(CursorAt(rows[i]), rows[j]) <==> i < j
  {
    hide Less;
    LessTrichotomy(rows[i].hash, rows[j].hash);
    if i < j {
      assert IndexOrder(rows[i], rows[j]) && OtherHash(rows[i], rows[j]);
    } else if j < i {
      assert IndexOrder(rows[j], rows[i]) && OtherHash(rows[j], rows[i]);
    }
  }

  lemma LaterCursor(c: Cursor, row: IndexRow, other: IndexRow)
    requires After(c, row) && After(CursorAt(row), other)
    ensures After(c, other)
  {
    hide Less;
    if c.after != [] && row.firstSeen == c.since == other.firstSeen {
      LessTransitive(c.after, row.hash, other.hash);
    }
  }

  /** The rows pending at the cursor of the `m`th pending row are those behind it. */
  lemma PendingAdvances(rows: seq<IndexRow>, c: Cursor, m: nat)
    requires Apart(OtherHash, rows) && 0 < m <= |Pending(rows, c)|
    ensures Pending(rows, CursorAt(Pending(rows, c)[m - 1])) == Pending(rows, c)[m..]
  {
    hide After, IndexOrder, SortBy, OtherHash;
    var all := SortBy(IndexOrder, rows);
    var p := Pending(rows, c);
    var d := CursorAt(p[m - 1]);
    IndexOrderTotal();
    SortSorts(IndexOrder, rows);
    SortApart(IndexOrder, OtherHash, rows);
    SortThenAfter(rows, c);
    SortThenAfter(rows, d);
    AfterSublist(all, c);
    RowsAfterIn(all, c, p[m - 1]);
    forall row | row in all && After(d, row)
      ensures After(c, row)
    {
      LaterCursor(c, p[m - 1], row);
    }
    AfterTwice(all, c, d);
    forall i | 0 <= i < |p|
      ensures After(d, p[i]) <==> m <= i
    {
      BehindIsAfter(p, m - 1, i);
    }
    AfterSuffix(p, d, m);
  }

  /** Filtering keeps the order and keeps rows apart. */
  lemma {:induction false} AfterSublist(rows: seq<IndexRow>, c: Cursor)
    requires Ordered(IndexOrder, rows) && Apart(OtherHash, rows)
    ensures Ordered(IndexOrder, RowsAfter(rows, c)) && Apart(OtherHash, RowsAfter(rows, c))
  {
    hide After, IndexOrder, OtherHash;
    if rows != [] {
      AfterSublist(rows[1..], c);
      forall row | row in RowsAfter(rows[1..], c)
        ensures IndexOrder(rows[0], row) && OtherHash(rows[0], row) && OtherHash(row, rows[0])
      {
        RowsAfterIn(rows[1..], c, row);
        var k :| 1 <= k < |rows| && rows[k] == row;
      }
    }
  }

  /** The cursor kept after a page is the one of its last row. */
  lemma AdvanceToLast(rows: seq<IndexRow>, c: Cursor, asked: int)
    ensures
      var page := Serve(rows, c, asked);
      Advance(c, page) == if page.rows == [] then c else CursorAt(page.rows[|page.rows| - 1])
  {
    hide Pending;
  }

  /** Nothing is skipped and nothing comes twice, from any cursor and whatever calls fail: the rows
      processed are the first ones of what was pending, as many as the successful pages hold. */
  lemma {:induction false} FollowIsPrefix(rows: seq<IndexRow>, c: Cursor, asked: int, oks: seq<bool>)
    requires Apart(OtherHash, rows)
    ensures Follow(rows, c, asked, oks) == First(Pending(rows, c), Count(oks) * ClampLimit(asked))
    decreases |oks|
  {
    hide Pending, ClampLimit, Apart, Serve, Advance, First;
    if oks == [] {
      TakeNone(Pending(rows, c));
    } else if !oks[0] {
      FollowIsPrefix(rows, c, asked, oks[1..]);
    } else {
      var limit, n := ClampLimit(asked), Count(oks[1..]) * ClampLimit(asked);
      var page := Serve(rows, c, asked);
      FollowIsPrefix(rows, Advance(c, page), asked, oks[1..]);
      PageThenRest(rows, c, asked, n);
      OneMore(Count(oks[1..]), limit);
    }
  }

  lemma OneMore(k: nat, limit: nat)
    ensures (1 + k) * limit == limit + k * limit
  {
  }

  /** A page and what is pending after it. */
  lemma PageThenRest(rows: seq<IndexRow>, c: Cursor, asked: int, n: nat)
    requires Apart(OtherHash, rows)
    ensures
      var page := Serve(rows, c, asked);
      page.rows + First(Pending(rows, Advance(c, page)), n) == First(Pending(rows, c), ClampLimit(asked) + n)
  {
    hide Pending, ClampLimit, Apart, Advance;
    var p := Pending(rows, c);
    var page := Serve(rows, c, asked);
    AdvanceToLast(rows, c, asked);
    if p == [] {
    } else {
      PendingAdvances(rows, c, |page.rows|);
      TakeTwice(p, ClampLimit(asked), n);
    }
  }

  /** Pagination is complete: enough pages from the start give every row with a positive time
      exactly once and in index order, however many share a time across a page boundary. */
  lemma EveryRowOnce(rows: seq<IndexRow>, asked: int, oks: seq<bool>)
    requires Apart(OtherHash, rows) && Count(oks) * ClampLimit(asked) >= |rows|
    ensures
      var got := Follow(rows, START, asked, oks);
      && Ordered(IndexOrder, got) && Apart(OtherHash, got)
      && forall row :: row in got <==> row in rows && row.firstSeen > 0
  {
    hide IndexOrder, OtherHash, Follow, SortBy, Count, ClampLimit;
    FollowIsPrefix(rows, START, asked, oks);
    var all := SortBy(IndexOrder, rows);
    var got := Pending(rows, START);
    IndexOrderTotal();
    SortSorts(IndexOrder, rows);
    SortApart(IndexOrder, OtherHash, rows);
    SortThenAfter(rows, START);
    AfterSublist(all, START);
    SortAdds(IndexOrder, RowsAfter(rows, START));
    forall row
      ensures row in got <==> row in rows && row.firstSeen > 0
    {
      assert row in got <==> row in multiset(got);
      RowsAfterIn(rows, START, row);
    }
  }

  /** From any cursor, enough successful calls deliver exactly the rows after it. */
  lemma DeliveredIff(rows: seq<IndexRow>, c: Cursor, asked: int, oks: seq<bool>, row: IndexRow)
    requires Apart(OtherHash, rows) && Count(oks) * ClampLimit(asked) >= |rows|
    ensures row in Follow(rows, c, asked, oks) <==> row in rows && After(c, row)
  {
    hide After, Follow, Count, ClampLimit, SortBy;
    FollowIsPrefix(rows, c, asked, oks);
    var got := Pending(rows, c);
    SortAdds(IndexOrder, RowsAfter(rows, c));
    assert row in got <==> row in multiset(got);
    RowsAfterIn(rows, c, row);
  }

  /* ---------- A database that grows between the calls ---------- */

  /** Every row of `rows` is still there, perhaps with more commitments. */
  ghost predicate Grown(rows: seq<IndexRow>, grown: seq<IndexRow>) {
    forall row :: row in rows ==> exists g :: g in grown && SameKey(g, row)
  }

  predicate SameKey(a: IndexRow, b: IndexRow) {
    a.hash == b.hash && a.firstSeen == b.firstSeen
  }

  /** Some processed row has this hash. */
  ghost predicate Processed(rows: seq<IndexRow>, hash: Digest) {
    exists i :: 0 <= i < |rows| && rows[i].hash == hash
  }

  /** The cursor left by a run is that of the last row processed, and everything processed is not
      after it. */
  lemma {:induction false} CursorLeft(rows: seq<IndexRow>, c: Cursor, asked: int, oks: seq<bool>)
    requires Apart(OtherHash, rows)
    ensures
      var got := Follow(rows, c, asked, oks);
      && |got| <= |Pending(rows, c)|
      && FollowCursor(rows, c, asked, oks) == (if got == [] then c else CursorAt(got[|got| - 1]))
      && Pending(rows, FollowCursor(rows, c, asked, oks)) == Pending(rows, c)[|got|..]
    decreases |oks|
  {
    hide Pending, ClampLimit, Apart, CursorAt;
    FollowIsPrefix(rows, c, asked, oks);
    if oks == [] {
      assert Pending(rows, c)[0..] == Pending(rows, c);
    } else if !oks[0] {
      CursorLeft(rows, c, asked, oks[1..]);
    } else {
      var page := Serve(rows, c, asked);
      var next := Advance(c, page);
      AdvanceToLast(rows, c, asked);
      CursorLeft(rows, next, asked, oks[1..]);
      if page.rows != [] {
        PendingAdvances(rows, c, |page.rows|);
        DropTwice(Pending(rows, c), |page.rows|, |Follow(rows, next, asked, oks[1..])|);
      } else {
        FollowIsPrefix(rows, c, asked, oks[1..]);
      }
    }
  }

  lemma DropTwice<T>(s: seq<T>, a: nat, b: nat)
    requires a <= |s| && b <= |s[a..]|
    ensures s[a..][b..] == s[a + b..]
  {
  }

  /** What the earlier run processed is not after the cursor it left; of what it had pending, the
      rest is. */
  lemma ProcessedOrPending(rows: seq<IndexRow>, c: Cursor, asked: int, oks: seq<bool>, row: IndexRow)
    requires Apart(OtherHash, rows) && row in rows && After(c, row)
    ensures
      var left := FollowCursor(rows, c, asked, oks);
      row in Follow(rows, c, asked, oks) <==> !After(left, row)
  {
    hide After, Follow, FollowCursor, Count, ClampLimit, IndexOrder, OtherHash, SortBy;
    var p, got, left := Pending(rows, c), Follow(rows, c, asked, oks), FollowCursor(rows, c, asked, oks);
    FollowIsPrefix(rows, c, asked, oks);
    CursorLeft(rows, c, asked, oks);
    PendingOrdered(rows, c);
    InPending(rows, c, row);
    var x :| 0 <= x < |p| && p[x] == row;
    if got != [] {
      BehindIsAfter(p, |got| - 1, x);
      assert got[|got| - 1] == p[|got| - 1];
      if x < |got| {
        assert got[x] == row;
      } else if row in got {
        var y :| 0 <= y < |got| && got[y] == row;
        assert p[y] == row && OtherHash(p[x], p[y]);
        SelfSame(row);
      }
    }
  }

  lemma SelfSame(row: IndexRow)
    ensures !OtherHash(row, row)
  {
  }

  lemma PendingOrdered(rows: seq<IndexRow>, c: Cursor)
    requires Apart(OtherHash, rows)
    ensures Ordered(IndexOrder, Pending(rows, c)) && Apart(OtherHash, Pending(rows, c))
  {
    hide After, IndexOrder, OtherHash, SortBy;
    IndexOrderTotal();
    SortSorts(IndexOrder, rows);
    SortApart(IndexOrder, OtherHash, rows);
    SortThenAfter(rows, c);
    AfterSublist(SortBy(IndexOrder, rows), c);
  }

  lemma InPending(rows: seq<IndexRow>, c: Cursor, row: IndexRow)
    ensures row in Pending(rows, c) <==> row in rows && After(c, row)
  {
    hide After, IndexOrder, SortBy;
    SortAdds(IndexOrder, RowsAfter(rows, c));
    assert row in Pending(rows, c) <==> row in multiset(Pending(rows, c));
    RowsAfterIn(rows, c, row);
  }

  /** A reader follows `rows` from `c`, then the grown database from the cursor it was left with. A row
      of the grown database is processed the second time exactly when it is after that cursor, and
      never both times; one that was pending at the start is processed in neither run exactly when it
      is new and not after the cursor. */
  lemma GrowthDelivered(rows: seq<IndexRow>, grown: seq<IndexRow>, c: Cursor, asked: int, oks: seq<bool>,
                        later: seq<bool>, g: IndexRow)
    requires Apart(OtherHash, rows) && Apart(OtherHash, grown) && Grown(rows, grown) && g in grown
    requires Count(later) * ClampLimit(asked) >= |grown|
    ensures
      var left := FollowCursor(rows, c, asked, oks);
      var first, second := Follow(rows, c, asked, oks), Follow(grown, left, asked, later);
      && (Processed(second, g.hash) <==> After(left, g))
      && !(Processed(first, g.hash) && Processed(second, g.hash))
      && (After(c, g) ==>
            (!Processed(first, g.hash) && !Processed(second, g.hash)
             <==> !Processed(rows, g.hash) && !After(left, g)))
  {
    hide After, Follow, FollowCursor, Count, ClampLimit, Grown;
    var left := FollowCursor(rows, c, asked, oks);
    var first, second := Follow(rows, c, asked, oks), Follow(grown, left, asked, later);
    SecondIffAfter(grown, left, asked, later, g);
    if Processed(rows, g.hash) {
      var row := OldRow(rows, grown, g);
      KeyDecides(left, g, row);
      KeyDecides(c, g, row);
      OldProcessed(rows, c, asked, oks, row);
      if After(c, row) {
        ProcessedOrPending(rows, c, asked, oks, row);
      }
    } else if Processed(first, g.hash) {
      FirstFromRows(rows, c, asked, oks, g.hash);
    }
  }

  lemma SecondIffAfter(grown: seq<IndexRow>, left: Cursor, asked: int, later: seq<bool>, g: IndexRow)
    requires Apart(OtherHash, grown) && g in grown && Count(later) * ClampLimit(asked) >= |grown|
    ensures Processed(Follow(grown, left, asked, later), g.hash) <==> After(left, g)
  {
    hide After, Follow, Count, ClampLimit;
    var second := Follow(grown, left, asked, later);
    DeliveredIff(grown, left, asked, later, g);
    if g in second {
      var i :| 0 <= i < |second| && second[i] == g;
    }
    if Processed(second, g.hash) {
      var i :| 0 <= i < |second| && second[i].hash == g.hash;
      DeliveredIff(grown, left, asked, later, second[i]);
      HashDecides(grown, second[i], g);
    }
  }

  lemma HashDecides(rows: seq<IndexRow>, a: IndexRow, b: IndexRow)
    requires Apart(OtherHash, rows) && a in rows && b in rows && a.hash == b.hash
    ensures a == b
  {
    var i :| 0 <= i < |rows| && rows[i] == a;
    var j :| 0 <= j < |rows| && rows[j] == b;
    assert i != j ==> OtherHash(rows[i], rows[j]);
  }

  /** The earlier row with the hash of `g`. */
  lemma OldRow(rows: seq<IndexRow>, grown: seq<IndexRow>, g: IndexRow) returns (row: IndexRow)
    requires Apart(OtherHash, grown) && Grown(rows, grown) && g in grown && Processed(rows, g.hash)
    ensures row in rows && SameKey(g, row)
  {
    var i :| 0 <= i < |rows| && rows[i].hash == g.hash;
    row := rows[i];
    assert row in rows;
    var other :| other in grown && SameKey(other, row);
    HashDecides(grown, other, g);
  }

  lemma KeyDecides(c: Cursor, a: IndexRow, b: IndexRow)
    requires SameKey(a, b)
    ensures After(c, a) <==> After(c, b)
  {
  }

  lemma FirstFromRows(rows: seq<IndexRow>, c: Cursor, asked: int, oks: seq<bool>, hash: Digest)
    requires Apart(OtherHash, rows) && Processed(Follow(rows, c, asked, oks), hash)
    ensures Processed(rows, hash)
    ensures exists row :: row in Follow(rows, c, asked, oks) && row in rows && row.hash == hash && After(c, row)
  {
    hide After, Follow, Count, ClampLimit;
    var first := Follow(rows, c, asked, oks);
    var i :| 0 <= i < |first| && first[i].hash == hash;
    FollowIsPrefix(rows, c, asked, oks);
    assert first[i] == Pending(rows, c)[i];
    hide Pending;
    InPending(rows, c, first[i]);
    var j :| 0 <= j < |rows| && rows[j] == first[i];
  }

  /** For a row of the earlier database: processed by hash is processed itself, and then it was
      pending and is not after the cursor left. */
  lemma OldProcessed(rows: seq<IndexRow>, c: Cursor, asked: int, oks: seq<bool>, row: IndexRow)
    requires Apart(OtherHash, rows) && row in rows
    ensures
      var first := Follow(rows, c, asked, oks);
      && (Processed(first, row.hash) <==> row in first)
      && (row in first ==> After(c, row) && !After(FollowCursor(rows, c, asked, oks), row))
  {
    hide After, Follow, FollowCursor;
    var first := Follow(rows, c, asked, oks);
    if row in first {
      var i :| 0 <= i < |first| && first[i] == row;
    }
    if Processed(first, row.hash) {
      FirstFromRows(rows, c, asked, oks, row.hash);
      var other :| other in first && other in rows && other.hash == row.hash && After(c, other);
      HashDecides(rows, other, row);
      ProcessedOrPending(rows, c, asked, oks, row);
    }
  }

  /** The lost row: added later, with the time of the last row processed and a smaller hash. No number
      of further calls brings it. */
  lemma LateRowLost(rows: seq<IndexRow>, late: IndexRow, c: Cursor, asked: int, oks: seq<bool>, later: seq<bool>)
    requires Apart(OtherHash, rows) && !Processed(rows, late.hash)
    requires Follow(rows, c, asked, oks) != []
    requires
      var first := Follow(rows, c, asked, oks);
      var last := first[|first| - 1];
      late.firstSeen == last.firstSeen && Less(late.hash, last.hash)
    ensures
      var left := FollowCursor(rows, c, asked, oks);
      && !Processed(Follow(rows, c, asked, oks), late.hash)
      && !Processed(Follow(rows + [late], left, asked, later), late.hash)
  {
    hide After, Follow, FollowCursor, Less, Count, ClampLimit;
    var first, left := Follow(rows, c, asked, oks), FollowCursor(rows, c, asked, oks);
    var last := first[|first| - 1];
    var grown := rows + [late];
    if Processed(first, late.hash) {
      FirstFromRows(rows, c, asked, oks, late.hash);
      assert false;
    }
    CursorLeft(rows, c, asked, oks);
    NotAfterSmaller(last, late);
    AppendApart(rows, late);
    if Processed(Follow(grown, left, asked, later), late.hash) {
      FirstFromRows(grown, left, asked, later, late.hash);
      var row :| row in grown && row.hash == late.hash && After(left, row);
      HashDecides(grown, row, late);
      assert false;
    }
  }

  lemma NotAfterSmaller(last: IndexRow, late: IndexRow)
    requires late.firstSeen == last.firstSeen && Less(late.hash, last.hash)
    ensures !After(CursorAt(last), late)
  {
    hide Less;
    LessTrichotomy(late.hash, last.hash);
  }

  lemma AppendApart(rows: seq<IndexRow>, late: IndexRow)
    requires Apart(OtherHash, rows) && !Processed(rows, late.hash)
    ensures Apart(OtherHash, rows + [late]) && late in rows + [late]
  {
    var grown := rows + [late];
    forall i, j | 0 <= i < |grown| && 0 <= j < |grown| && i != j
      ensures OtherHash(grown[i], grown[j])
    {
      if i < |rows| && j < |rows| {
        assert OtherHash(rows[i], rows[j]);
      }
    }
    assert grown[|rows|] == late;
  }

  /** A database of one row, and a second row of the same second that comes after the first page. */
  lemma LateRowExample(asked: int, later: seq<bool>)
    ensures
      var first: Digest, second: Digest := [1] + Zeros(31), Zeros(32);
      var old_, late := IndexRow(first, 1_700_000_000, []), IndexRow(second, 1_700_000_000, []);
      var left := FollowCursor([old_], START, asked, [true]);
      && Follow([old_], START, asked, [true]) == [old_] && After(START, late)
      && !Processed(Follow([old_, late], left, asked, later), second)
  {
    var first: Digest, second: Digest := [1] + Zeros(31), Zeros(32);
    var old_, late := IndexRow(first, 1_700_000_000, []), IndexRow(second, 1_700_000_000, []);
    assert SortBy(IndexOrder, [old_]) == [old_] by {
      assert SortBy(IndexOrder, []) == [];
    }
    assert RowsAfter([old_], START) == [old_];
    FollowIsPrefix([old_], START, asked, [true]);
    assert Count([true]) == 1;
    assert Follow([old_], START, asked, [true]) == [old_];
    assert Less(second, first);
    hide Follow, FollowCursor, SortBy;
    LateRowLost([old_], late, START, asked, [true], later);
    assert [old_] + [late] == [old_, late];
  }

  /** The rows of a store have different hashes. */
  lemma StoreRowsApart(order: seq<Digest>, blobs: map<Digest, Row>)
    requires Lists(order, blobs)
    ensures Apart(OtherHash, RowsOf(order, blobs))
  {
    var rows := RowsOf(order, blobs);
    forall i, j | 0 <= i < |rows| && 0 <= j < |rows| && i != j
      ensures OtherHash(rows[i], rows[j])
    {
      assert i < j ==> order[i] != order[j];
      assert j < i ==> order[j] != order[i];
    }
  }

  /** A page has as many rows as were asked for, from one to 500. */
  lemma PageSize(rows: seq<IndexRow>, c: Cursor, asked: int)
    ensures 1 <= asked <= 500 ==> ClampLimit(asked) == asked
    ensures asked < 1 ==> ClampLimit(asked) == 1
    ensures asked > 500 ==> ClampLimit(asked) == 500
    ensures |Serve(rows, c, asked).rows| == if |Pending(rows, c)| <= ClampLimit(asked) then |Pending(rows, c)| else ClampLimit(asked)
  {
    hide Pending;
  }
}
