/** Paging header rows from an untrusted source and choosing among the verified views
    (transpeer/anchor/reader.py, transpeer/anchor/headers.py). */
module HeaderFetch {
  import opened Bytes
  import opened Headers
  import opened HeadersTheorems

  const HEADER_PAGE := 720

  /** What a source answers to the k-th request, for `count` rows from a height on: anything. */
  type Pages = (nat, int, int) -> seq<HeaderRow>

  /** The rows of a page up to `tip`. */
  function UpTo(page: seq<HeaderRow>, tip: int): (r: seq<HeaderRow>)
    ensures |r| <= |page| && forall i :: 0 <= i < |r| ==> r[i].height <= tip
  {
    if page == [] then []
    else if page[0].height <= tip then [page[0]] + UpTo(page[1..], tip)
    else UpTo(page[1..], tip)
  }

  /** Rows for the heights from `from` on, one each, none above `tip`. */
  predicate Ranges(rows: seq<HeaderRow>, from: int, tip: int) {
    from + |rows| <= tip + 1 && forall i :: 0 <= i < |rows| ==> rows[i].height == from + i
  }

  /** The source serves `chain`, its rows from `from` to `tip`, in pages of up to 720. */
  ghost predicate Serves(pages: Pages, chain: seq<HeaderRow>, from: int, tip: int) {
    && Ranges(chain, from, tip) && from + |chain| == tip + 1
    && forall k: nat, at: int, n: nat :: from <= at && 0 < n <= 720 && n <= tip + 1 - at ==>
         pages(k, at, n) == chain[at - from..at - from + n]
  }

  /** `_fetch_header_range`: whatever the source answers, it ends, and what it returns is a gapless
      range from the first height asked for, none of it above the tip; from a source that serves a
      chain it is the whole range. */
  method FetchHeaderRange(from: int, tip: int, pages: Pages, ghost chain: seq<HeaderRow>) returns (rows: seq<HeaderRow>)
    ensures rows == [] || Ranges(rows, from, tip)
    ensures Serves(pages, chain, from, tip) ==> rows == chain
  {
    hide Ranges, Serves, UpTo;
    rows := [];
    var cur := from;
    var k: nat := 0;
    ServesAll(pages, chain, from, tip);
    while cur <= tip
      invariant cur == from + |rows| && (rows == [] || Ranges(rows, from, tip))
      invariant Serves(pages, chain, from, tip) ==> |rows| <= |chain| && rows == chain[..|rows|]
      decreases tip + 1 - cur
    {
      var count := if tip - cur + 1 < HEADER_PAGE then tip - cur + 1 else HEADER_PAGE;
      var page := pages(k, cur, count);
      if Serves(pages, chain, from, tip) {
        ServedPage(pages, chain, from, tip, k, rows, count);
      }
      k := k + 1;
      if page == [] || page[0].height != cur {
        return [];
      }
      for i := 1 to |page|
        invariant forall j :: 0 <= j < i ==> page[j].height == cur + j
      {
        if page[i].height != page[i - 1].height + 1 {
          return [];
        }
      }
      GaplessPage(page, cur, tip);
      page := UpTo(page, tip);
      RangesJoin(rows, page, from, tip);
      rows := rows + page;
      cur := page[|page| - 1].height + 1;
      if |page| < count {
        return;
      }
    }
  }

  lemma ServesAll(pages: Pages, chain: seq<HeaderRow>, from: int, tip: int)
    ensures Serves(pages, chain, from, tip) ==> from + |chain| == tip + 1
  {
  }

  /** An honest page is gapless, full, within the tip, and the next part of the chain. */
  lemma ServedPage(pages: Pages, chain: seq<HeaderRow>, from: int, tip: int, k: nat, rows: seq<HeaderRow>, count: nat)
    requires Serves(pages, chain, from, tip) && rows <= chain && 0 < count <= 720 && count <= tip + 1 - (from + |rows|)
    ensures
      var page := pages(k, from + |rows|, count);
      && |page| == count && Ranges(page, from + |rows|, tip) && UpTo(page, tip) == page
      && |rows| + count <= |chain| && rows + page == chain[..|rows| + count]
  {
    var page := pages(k, from + |rows|, count);
    assert page == chain[|rows|..|rows| + count];
    UpToIsPrefix(page, from + |rows|, tip);
  }

  lemma GaplessPage(page: seq<HeaderRow>, cur: int, tip: int)
    requires page != [] && cur <= tip && forall i :: 0 <= i < |page| ==> page[i].height == cur + i
    ensures UpTo(page, tip) != [] && Ranges(UpTo(page, tip), cur, tip)
  {
    UpToIsPrefix(page, cur, tip);
  }

  lemma RangesJoin(rows: seq<HeaderRow>, page: seq<HeaderRow>, from: int, tip: int)
    requires rows == [] || Ranges(rows, from, tip)
    requires page != [] && Ranges(page, from + |rows|, tip)
    ensures Ranges(rows + page, from, tip) && page[|page| - 1].height + 1 == from + |rows + page| <= tip + 1
  {
  }

  /** Of a gapless page that starts within the tip, the rows up to the tip are a prefix. */
  lemma {:induction false} UpToIsPrefix(page: seq<HeaderRow>, cur: int, tip: int)
    requires forall i :: 0 <= i < |page| ==> page[i].height == cur + i
    ensures var n := if tip + 1 - cur < 0 then 0 else if tip + 1 - cur < |page| then tip + 1 - cur else |page|;
            UpTo(page, tip) == page[..n]
  {
    if page != [] {
      UpToIsPrefix(page[1..], cur + 1, tip);
    }
  }

  /** A fetched range that starts at the lookback and reaches the checkpoint has the shape a full
      verification asks for. */
  lemma FetchedShaped(rows: seq<HeaderRow>, tip: int, checkpoint: Checkpoint)
    requires rows != []
    requires Ranges(rows, if checkpoint.height > HEADER_LOOKBACK then checkpoint.height - HEADER_LOOKBACK else 0, tip)
    requires rows[|rows| - 1].height >= checkpoint.height
    ensures Shaped(rows, checkpoint)
  {
  }

  /** A fetched range that starts behind a view's tip has the heights an extension asks for. */
  lemma FetchedContinues(rows: seq<HeaderRow>, more: seq<HeaderRow>, tip: int)
    requires rows != [] && rows[|rows| - 1].height == rows[0].height + |rows| - 1
    requires more != [] && Ranges(more, rows[|rows| - 1].height + 1, tip)
    ensures Continues(rows, more)
  {
  }

  /* ---------- The best view ---------- */

  /** `(-work, tip_id)` of `v` is not above that of `w`. */
  predicate NoWorse(v: ChainView, w: ChainView)
    requires v.cumulative != [] && w.cumulative != [] && v.ids != [] && w.ids != []
  {
    ViewWork(v) > ViewWork(w) || (ViewWork(v) == ViewWork(w) && !Less(w.ids[|w.ids| - 1], v.ids[|v.ids| - 1]))
  }

  /** `best_view`: most work, and the least tip id among those. */
  method BestView(views: seq<ChainView>) returns (best: Option<ChainView>)
    requires forall i :: 0 <= i < |views| ==> views[i].ids != [] && views[i].cumulative != []
    ensures best.None? <==> views == []
    ensures best.Some? ==> best.value in views && forall i :: 0 <= i < |views| ==> NoWorse(best.value, views[i])
  {
    hide Less, ViewWork;
    if views == [] {
      return None;
    }
    var v := views[0];
    Reflexive(v);
    for i := 1 to |views|
      invariant v in views && v.ids != [] && v.cumulative != []
      invariant forall j :: 0 <= j < i ==> NoWorse(v, views[j])
    {
      if !NoWorse(v, views[i]) {
        forall j | 0 <= j < i
          ensures NoWorse(views[i], views[j])
        {
          BetterThanAll(views[i], v, views[j]);
        }
        v := views[i];
        Reflexive(v);
      }
    }
    return Some(v);
  }

  lemma Reflexive(v: ChainView)
    requires v.ids != [] && v.cumulative != []
    ensures NoWorse(v, v)
  {
    hide Less, ViewWork;
    LessTrichotomy(v.ids[|v.ids| - 1], v.ids[|v.ids| - 1]);
  }

  lemma BetterThanAll(better: ChainView, v: ChainView, w: ChainView)
    requires better.ids != [] && better.cumulative != [] && v.ids != [] && v.cumulative != []
    requires w.ids != [] && w.cumulative != []
    requires !NoWorse(v, better) && NoWorse(v, w)
    ensures NoWorse(better, w)
  {
    hide Less, ViewWork;
    var a, b, c := better.ids[|better.ids| - 1], v.ids[|v.ids| - 1], w.ids[|w.ids| - 1];
    LessTrichotomy(a, b);
    LessTrichotomy(b, c);
    if Less(c, a) && Less(a, b) {
      LessTransitive(c, a, b);
    }
  }
}
