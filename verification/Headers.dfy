/** Header-chain verification (transpeer/anchor/headers.py): the full check against a
    checkpoint and the incremental extension of a verified view. */
module Headers {
  import opened Bytes
  import opened Monero
  import Sorting

  const STALE_TIP := 1800
  const HEADER_LOOKBACK := DIFFICULTY_BLOCKS_COUNT + SEEDHASH_EPOCH_BLOCKS + SEEDHASH_EPOCH_LAG + 1
  const MEDIAN_WINDOW := 60

  datatype HeaderRow = HeaderRow(height: int, blob: Bytes, difficulty: int)

  datatype Checkpoint = Checkpoint(height: nat, hash: Digest)

  datatype ChainView = ChainView(first: int, ids: seq<Digest>, timestamps: seq<int>,
                                 difficulties: seq<int>, cumulative: seq<int>, blobs: seq<Bytes>,
                                 checkpointHeight: int)

  /** The proof-of-work function: blob, height, seed hash. */
  type Pow = (Bytes, int, Digest) -> Bytes

  /** What never changes during a run: the hash, the proof-of-work and the checkpoint. */
  datatype Rules = Rules(H: Hash, pow: Pow, checkpoint: Checkpoint)

  /* ---------- Rows and what is read out of them ---------- */

  function Ids(H: Hash, rows: seq<HeaderRow>): (ids: seq<Digest>)
    ensures |ids| == |rows|
  {
    seq(|rows|, i requires 0 <= i < |rows| => BlockId(H, rows[i].blob))
  }

  /** The timestamp of a row; 0 where the blob does not parse. */
  function Time(row: HeaderRow): int {
    match ParseHashingBlob(row.blob)
    case Some(head) => head.timestamp
    case None => 0
  }

  function Times(rows: seq<HeaderRow>): (ts: seq<int>)
    ensures |ts| == |rows|
  {
    seq(|rows|, i requires 0 <= i < |rows| => Time(rows[i]))
  }

  function Difficulties(rows: seq<HeaderRow>): (ds: seq<int>)
    ensures |ds| == |rows|
  {
    seq(|rows|, i requires 0 <= i < |rows| => rows[i].difficulty)
  }

  function Blobs(rows: seq<HeaderRow>): (bs: seq<Bytes>)
    ensures |bs| == |rows|
  {
    seq(|rows|, i requires 0 <= i < |rows| => rows[i].blob)
  }

  /** Difficulties summed over the first `n` rows. */
  function Work(rows: seq<HeaderRow>, n: nat): int
    requires n <= |rows|
  {
    if n == 0 then 0 else Work(rows, n - 1) + rows[n - 1].difficulty
  }

  function Cumulative(rows: seq<HeaderRow>): (cs: seq<int>)
    ensures |cs| == |rows|
  {
    seq(|rows|, i requires 0 <= i < |rows| => Work(rows, i + 1))
  }

  /** The view that belongs to a list of rows. */
  function View(H: Hash, rows: seq<HeaderRow>, checkpoint: Checkpoint): ChainView
    requires rows != []
  {
    ChainView(rows[0].height, Ids(H, rows), Times(rows), Difficulties(rows), Cumulative(rows),
              Blobs(rows), checkpoint.height)
  }

  /** The last `n` elements, or all of them. */
  function Last<T>(s: seq<T>, n: nat): (r: seq<T>)
    ensures |r| == if |s| <= n then |s| else n
  {
    if |s| <= n then s else s[|s| - n..]
  }

  /** `_median`: for an even count the floored mean of the two middle values. */
  function Median(values: seq<int>): int
    requires values != []
  {
    var s := Sorting.Sort(values);
    var mid := |s| / 2;
    if |s| % 2 == 1 then s[mid] else (s[mid - 1] + s[mid]) / 2
  }

  /* ---------- The deterministic rules, each for one row given the rows before it ---------- */

  predicate FollowsHeight(before: seq<HeaderRow>, row: HeaderRow) {
    before != [] ==> row.height == before[|before| - 1].height + 1
  }

  predicate Links(H: Hash, before: seq<HeaderRow>, row: HeaderRow) {
    && ParseHashingBlob(row.blob).Some?
    && (before != [] ==>
          ParseHashingBlob(row.blob).value.prevId == BlockId(H, before[|before| - 1].blob))
  }

  predicate Timely(before: seq<HeaderRow>, row: HeaderRow, now: int) {
    && Time(row) <= now + BLOCK_FUTURE_TIME_LIMIT
    && (|before| >= MEDIAN_WINDOW ==> Time(row) >= Median(Last(Times(before), MEDIAN_WINDOW)))
  }

  predicate DifficultyHolds(before: seq<HeaderRow>, row: HeaderRow, checkpoint: Checkpoint) {
    if row.height <= checkpoint.height then row.difficulty >= 1
    else
      NextDifficulty(Last(Times(before), DIFFICULTY_BLOCKS_COUNT),
                     Last(Cumulative(before), DIFFICULTY_BLOCKS_COUNT)) == Some(row.difficulty)
  }

  /** Contiguity, linkage, timestamps and difficulty of one row. */
  predicate RowHolds(rules: Rules, before: seq<HeaderRow>, row: HeaderRow, now: int) {
    && FollowsHeight(before, row)
    && Links(rules.H, before, row)
    && Timely(before, row, now)
    && DifficultyHolds(before, row, rules.checkpoint)
  }

  ghost predicate RowsHold(rules: Rules, rows: seq<HeaderRow>, now: int) {
    forall i :: 0 <= i < |rows| ==> RowHolds(rules, rows[..i], rows[i], now)
  }

  /** Where the checkpoint stands in the rows, and how far back they reach. */
  predicate SpansCheckpoint(H: Hash, rows: seq<HeaderRow>, checkpoint: Checkpoint) {
    && rows != []
    && rows[0].height <= checkpoint.height <= rows[|rows| - 1].height
    && rows[0].height <= (if checkpoint.height > HEADER_LOOKBACK then checkpoint.height - HEADER_LOOKBACK else 0)
    && checkpoint.height - rows[0].height < |rows|
    && BlockId(H, rows[checkpoint.height - rows[0].height].blob) == checkpoint.hash
  }

  predicate Fresh(rows: seq<HeaderRow>, now: int)
    requires rows != []
  {
    now - Time(rows[|rows| - 1]) <= STALE_TIP
  }

  /** The deterministic part of the full check. */
  ghost predicate Deterministic(rules: Rules, rows: seq<HeaderRow>, now: int) {
    && SpansCheckpoint(rules.H, rows, rules.checkpoint)
    && RowsHold(rules, rows, now)
    && Fresh(rows, now)
  }

  /* ---------- Proof-of-work ---------- */

  /** `_seed_lookup`: None stands for its HeaderError. */
  function SeedFor(ids: seq<Digest>, first: int, height: int): Option<Digest> {
    var i := SeedHeight(height) - first;
    if 0 <= i < |ids| then Some(ids[i]) else None
  }

  predicate PowHolds(rules: Rules, ids: seq<Digest>, first: int, row: HeaderRow) {
    match SeedFor(ids, first, row.height)
    case None => false
    case Some(seed) => CheckHash(rules.pow(row.blob, row.height, seed), row.difficulty)
  }

  /** `_pow_required`; `sampled` stands for the outcomes of the random draw, row by row. */
  predicate PowRequired(row: HeaderRow, i: nat, n: nat, checkpoint: Checkpoint, sampled: set<nat>,
                        recent: nat)
  {
    if row.height <= checkpoint.height then row.height > checkpoint.height - DIFFICULTY_BLOCKS_COUNT
    else i >= n - recent || i in sampled
  }

  ghost predicate RequiredPowHolds(rules: Rules, rows: seq<HeaderRow>, sampled: set<nat>, recent: nat)
  {
    rows != [] ==>
    forall i :: 0 <= i < |rows| ==>
      PowRequired(rows[i], i, |rows|, rules.checkpoint, sampled, recent) ==>
      PowHolds(rules, Ids(rules.H, rows), rows[0].height, rows[i])
  }

  /** What a full verification returns; None stands for any of its errors. */
  ghost function FullView(rules: Rules, rows: seq<HeaderRow>, now: int, sampled: set<nat>, recent: nat)
    : Option<ChainView>
  {
    if Deterministic(rules, rows, now) && RequiredPowHolds(rules, rows, sampled, recent) then
      Some(View(rules.H, rows, rules.checkpoint))
    else None
  }

  /* ---------- The full check, loop by loop ---------- */

  /** `_check_shape`; rows are not empty. */
  method CheckShape(rows: seq<HeaderRow>, checkpoint: Checkpoint) returns (ok: bool)
    requires rows != []
    ensures ok <==>
      && (forall i :: 0 <= i < |rows| ==> FollowsHeight(rows[..i], rows[i]))
      && rows[0].height <= checkpoint.height <= rows[|rows| - 1].height
      && rows[0].height <= (if checkpoint.height > HEADER_LOOKBACK then checkpoint.height - HEADER_LOOKBACK else 0)
  {
    assert FollowsHeight(rows[..0], rows[0]);
    for i := 1 to |rows|
      invariant forall j :: 0 <= j < i ==> FollowsHeight(rows[..j], rows[j])
    {
      assert rows[..i][|rows[..i]| - 1] == rows[i - 1];
      if rows[i].height != rows[i - 1].height + 1 {
        assert !FollowsHeight(rows[..i], rows[i]);
        return false;
      }
    }
    var first, last := rows[0].height, rows[|rows| - 1].height;
    if !(first <= checkpoint.height <= last) {
      return false;
    }
    var start := if checkpoint.height > HEADER_LOOKBACK then checkpoint.height - HEADER_LOOKBACK else 0;
    return first <= start;
  }

  /** Contiguous rows: a row's height is the first height plus its index. */
  lemma {:induction false} HeightAt(rows: seq<HeaderRow>, i: nat)
    requires i < |rows|
    requires forall j :: 0 <= j < |rows| ==> FollowsHeight(rows[..j], rows[j])
    ensures rows[i].height == rows[0].height + i
  {
    if i > 0 {
      HeightAt(rows, i - 1);
      assert FollowsHeight(rows[..i], rows[i]);
      assert rows[..i][|rows[..i]| - 1] == rows[i - 1];
    }
  }

  lemma LinksAt(H: Hash, rows: seq<HeaderRow>, i: nat)
    requires i < |rows|
    ensures Links(H, rows[..i], rows[i])
       <==> ParseHashingBlob(rows[i].blob).Some?
            && (i > 0 ==> ParseHashingBlob(rows[i].blob).value.prevId == BlockId(H, rows[i - 1].blob))
  {
    hide ParseHashingBlob, BlockId;
    if i > 0 {
      assert rows[..i][|rows[..i]| - 1] == rows[i - 1];
    }
  }

  /** `_check_linkage`: the ids, or None for its HeaderErrors. */
  method CheckLinkage(H: Hash, rows: seq<HeaderRow>, checkpoint: Checkpoint)
    returns (r: Option<(seq<int>, seq<Digest>)>)
    requires rows != [] && 0 <= checkpoint.height - rows[0].height < |rows|
    ensures r.Some? <==>
      && (forall i :: 0 <= i < |rows| ==> Links(H, rows[..i], rows[i]))
      && BlockId(H, rows[checkpoint.height - rows[0].height].blob) == checkpoint.hash
    ensures r.Some? ==> r.value == (Times(rows), Ids(H, rows))
  {
    hide ParseHashingBlob, BlockId, Links;
    var times: seq<int>, ids: seq<Digest> := [], [];
    for i := 0 to |rows|
      invariant |times| == |ids| == i
      invariant forall j :: 0 <= j < i ==> Links(H, rows[..j], rows[j])
      invariant forall j :: 0 <= j < i ==> times[j] == Time(rows[j]) && ids[j] == BlockId(H, rows[j].blob)
    {
      var head := ParseHashingBlob(rows[i].blob);
      LinksAt(H, rows, i);
      if head.None? {
        assert !Links(H, rows[..i], rows[i]);
        return None;
      }
      if i > 0 {
        if head.value.prevId != ids[i - 1] {
          assert !Links(H, rows[..i], rows[i]);
          return None;
        }
      }
      assert Links(H, rows[..i], rows[i]);
      times := times + [head.value.timestamp];
      ids := ids + [BlockId(H, rows[i].blob)];
    }
    if ids[checkpoint.height - rows[0].height] != checkpoint.hash {
      return None;
    }
    assert times == Times(rows) && ids == Ids(H, rows);
    return Some((times, ids));
  }

  lemma TimesPrefix(rows: seq<HeaderRow>, i: nat)
    requires i <= |rows|
    ensures Times(rows[..i]) == Times(rows)[..i]
  {
  }

  lemma CumulativePrefix(rows: seq<HeaderRow>, i: nat)
    requires i <= |rows|
    ensures Cumulative(rows[..i]) == Cumulative(rows)[..i]
  {
    forall j | 0 <= j < i
      ensures Cumulative(rows[..i])[j] == Cumulative(rows)[j]
    {
      WorkPrefix(rows, i, j + 1);
    }
  }

  lemma {:induction false} WorkPrefix(rows: seq<HeaderRow>, i: nat, n: nat)
    requires n <= i <= |rows|
    ensures Work(rows[..i], n) == Work(rows, n)
    decreases n
  {
    if n > 0 {
      WorkPrefix(rows, i, n - 1);
    }
  }

  /** The rule for row `i`, on the list of times. */
  lemma TimelyAt(rows: seq<HeaderRow>, times: seq<int>, now: int, i: nat)
    requires times == Times(rows) && i < |rows|
    ensures Timely(rows[..i], rows[i], now)
       <==> times[i] <= now + BLOCK_FUTURE_TIME_LIMIT
            && (i >= MEDIAN_WINDOW ==> times[i] >= Median(times[i - MEDIAN_WINDOW..i]))
  {
    hide Median, Last;
    TimesPrefix(rows, i);
    WindowOf(times, i, MEDIAN_WINDOW);
  }

  /** `_check_timestamps`. */
  method CheckTimestamps(rows: seq<HeaderRow>, times: seq<int>, now: int) returns (ok: bool)
    requires times == Times(rows)
    ensures ok <==> forall i :: 0 <= i < |rows| ==> Timely(rows[..i], rows[i], now)
  {
    hide Timely, Median;
    var limit := now + BLOCK_FUTURE_TIME_LIMIT;
    for i := 0 to |rows|
      invariant forall j :: 0 <= j < i ==> Timely(rows[..j], rows[j], now)
    {
      TimelyAt(rows, times, now, i);
      if times[i] > limit {
        assert !Timely(rows[..i], rows[i], now);
        return false;
      }
      if i >= MEDIAN_WINDOW {
        var window := times[i - MEDIAN_WINDOW..i];
        if times[i] < Median(window) {
          assert !Timely(rows[..i], rows[i], now);
          return false;
        }
      }
    }
    return true;
  }

  lemma WindowOf<T>(s: seq<T>, i: nat, n: nat)
    requires i <= |s|
    ensures Last(s[..i], n) == s[if i > n then i - n else 0..i]
  {
  }

  /** The window of `_check_difficulty` before row `i`. */
  method ExpectedDifficulty(rows: seq<HeaderRow>, times: seq<int>, cumulative: seq<int>, i: nat)
    returns (expected: Option<nat>)
    requires i < |rows| && times == Times(rows) && cumulative == Cumulative(rows)[..i + 1]
    ensures expected == NextDifficulty(Last(Times(rows[..i]), DIFFICULTY_BLOCKS_COUNT),
                                       Last(Cumulative(rows[..i]), DIFFICULTY_BLOCKS_COUNT))
  {
    hide NextDifficulty;
    TimesPrefix(rows, i);
    CumulativePrefix(rows, i);
    var lo := if i > DIFFICULTY_BLOCKS_COUNT then i - DIFFICULTY_BLOCKS_COUNT else 0;
    WindowOf(times, i, DIFFICULTY_BLOCKS_COUNT);
    WindowOf(Cumulative(rows), i, DIFFICULTY_BLOCKS_COUNT);
    PrefixWindow(cumulative, Cumulative(rows), i, lo);
    expected := NextDifficulty(times[lo..i], cumulative[lo..i]);
  }

  /** `_check_difficulty`: the cumulative difficulties, or None for its errors. */
  method CheckDifficulty(rows: seq<HeaderRow>, times: seq<int>, checkpoint: Checkpoint)
    returns (r: Option<seq<int>>)
    requires times == Times(rows)
    ensures r.Some? <==> forall i :: 0 <= i < |rows| ==> DifficultyHolds(rows[..i], rows[i], checkpoint)
    ensures r.Some? ==> r.value == Cumulative(rows)
  {
    hide NextDifficulty, Last, Times;
    var cumulative: seq<int>, running := [], 0;
    for i := 0 to |rows|
      invariant cumulative == Cumulative(rows)[..i] && running == Work(rows, i)
      invariant forall j :: 0 <= j < i ==> DifficultyHolds(rows[..j], rows[j], checkpoint)
    {
      var row := rows[i];
      running := running + row.difficulty;
      TakeOneMore(Cumulative(rows), i);
      cumulative := cumulative + [running];
      if row.height <= checkpoint.height {
        if row.difficulty < 1 {
          assert !DifficultyHolds(rows[..i], rows[i], checkpoint);
          return None;
        }
      } else {
        var expected := ExpectedDifficulty(rows, times, cumulative, i);
        if expected != Some(row.difficulty) {
          assert !DifficultyHolds(rows[..i], rows[i], checkpoint);
          return None;
        }
      }
      assert DifficultyHolds(rows[..i], rows[i], checkpoint);
    }
    assert Cumulative(rows)[..|rows|] == Cumulative(rows);
    return Some(cumulative);
  }

  lemma TakeOneMore<T>(s: seq<T>, i: nat)
    requires i < |s|
    ensures s[..i + 1] == s[..i] + [s[i]]
  {
  }

  lemma PrefixWindow<T>(s: seq<T>, whole: seq<T>, i: nat, lo: nat)
    requires lo <= i < |whole| && s == whole[..i + 1]
    ensures s[lo..i] == whole[lo..i]
  {
  }

  /** `_check_pow`. */
  method CheckPow(rules: Rules, rows: seq<HeaderRow>, ids: seq<Digest>, sampled: set<nat>, recent: nat)
    returns (ok: bool)
    requires rows != [] && ids == Ids(rules.H, rows)
    ensures ok <==> RequiredPowHolds(rules, rows, sampled, recent)
  {
    for i := 0 to |rows|
      invariant forall j :: 0 <= j < i ==>
        PowRequired(rows[j], j, |rows|, rules.checkpoint, sampled, recent) ==>
        PowHolds(rules, ids, rows[0].height, rows[j])
    {
      if PowRequired(rows[i], i, |rows|, rules.checkpoint, sampled, recent) {
        var seed := SeedFor(ids, rows[0].height, rows[i].height);
        if seed.None? {
          return false;
        }
        if !CheckHash(rules.pow(rows[i].blob, rows[i].height, seed.value), rows[i].difficulty) {
          return false;
        }
      }
    }
    return true;
  }

  /** `verify_headers` without a trusted view. */
  method VerifyHeaders(rules: Rules, rows: seq<HeaderRow>, now: int, sampled: set<nat>, recent: nat)
    returns (view: Option<ChainView>)
    ensures view == FullView(rules, rows, now, sampled, recent)
  {
    hide FollowsHeight, Links, Timely, DifficultyHolds, PowHolds, PowRequired, ParseHashingBlob;
    if rows == [] {
      return None;
    }
    RowsSplit(rules, rows, now);
    var shape := CheckShape(rows, rules.checkpoint);
    if !shape {
      NotShaped(rules, rows, now);
      return None;
    }
    HeightAt(rows, |rows| - 1);
    var linkage := CheckLinkage(rules.H, rows, rules.checkpoint);
    if linkage.None? {
      return None;
    }
    var (times, ids) := linkage.value;
    var timely := CheckTimestamps(rows, times, now);
    if !timely {
      return None;
    }
    var cumulative := CheckDifficulty(rows, times, rules.checkpoint);
    if cumulative.None? {
      return None;
    }
    var powOk := CheckPow(rules, rows, ids, sampled, recent);
    if !powOk {
      return None;
    }
    if now - times[|times| - 1] > STALE_TIP {
      return None;
    }
    return Some(ChainView(rows[0].height, ids, times, Difficulties(rows), cumulative.value, Blobs(rows),
                          rules.checkpoint.height));
  }

  /** The rules for all rows are the four loops' rules for all rows. */
  lemma RowsSplit(rules: Rules, rows: seq<HeaderRow>, now: int)
    ensures RowsHold(rules, rows, now) <==>
      && (forall i :: 0 <= i < |rows| ==> FollowsHeight(rows[..i], rows[i]))
      && (forall i :: 0 <= i < |rows| ==> Links(rules.H, rows[..i], rows[i]))
      && (forall i :: 0 <= i < |rows| ==> Timely(rows[..i], rows[i], now))
      && (forall i :: 0 <= i < |rows| ==> DifficultyHolds(rows[..i], rows[i], rules.checkpoint))
  {
    hide FollowsHeight, Links, Timely, DifficultyHolds;
    if RowsHold(rules, rows, now) {
      forall i | 0 <= i < |rows|
        ensures FollowsHeight(rows[..i], rows[i]) && Links(rules.H, rows[..i], rows[i])
             && Timely(rows[..i], rows[i], now) && DifficultyHolds(rows[..i], rows[i], rules.checkpoint)
      {
        assert RowHolds(rules, rows[..i], rows[i], now);
      }
    }
  }

  lemma NotShaped(rules: Rules, rows: seq<HeaderRow>, now: int)
    requires rows != []
    requires !(
      && (forall i :: 0 <= i < |rows| ==> FollowsHeight(rows[..i], rows[i]))
      && rows[0].height <= rules.checkpoint.height <= rows[|rows| - 1].height
      && rows[0].height <= (if rules.checkpoint.height > HEADER_LOOKBACK
                            then rules.checkpoint.height - HEADER_LOOKBACK else 0))
    ensures !Deterministic(rules, rows, now)
  {
    hide FollowsHeight, Links, Timely, DifficultyHolds;
    RowsSplit(rules, rows, now);
  }

  /* ---------- The extension of a verified view ---------- */

  /** One round of the loop of `_extend`: the view with `row` appended, or None. */
  function ExtendRow(rules: Rules, view: ChainView, row: HeaderRow, now: int): Option<ChainView>
  {
    var head := ParseHashingBlob(row.blob);
    if view.ids == [] || view.cumulative == [] || head.None? then None
    else if head.value.prevId != view.ids[|view.ids| - 1] then None
    else if head.value.timestamp > now + BLOCK_FUTURE_TIME_LIMIT then None
    else if |view.timestamps| >= MEDIAN_WINDOW
         && head.value.timestamp < Median(Last(view.timestamps, MEDIAN_WINDOW)) then None
    else if row.height > rules.checkpoint.height
         && NextDifficulty(Last(view.timestamps, DIFFICULTY_BLOCKS_COUNT),
                           Last(view.cumulative, DIFFICULTY_BLOCKS_COUNT)) != Some(row.difficulty) then None
    else if row.height <= rules.checkpoint.height && row.difficulty < 1 then None
    else if !PowHolds(rules, view.ids, view.first, row) then None
    else
      Some(view.(ids := view.ids + [BlockId(rules.H, row.blob)],
                 timestamps := view.timestamps + [head.value.timestamp],
                 difficulties := view.difficulties + [row.difficulty],
                 cumulative := view.cumulative + [view.cumulative[|view.cumulative| - 1] + row.difficulty],
                 blobs := view.blobs + [row.blob]))
  }

  /** The whole loop. */
  function ExtendRows(rules: Rules, view: ChainView, rows: seq<HeaderRow>, now: int): Option<ChainView>
    decreases |rows|
  {
    if rows == [] then Some(view)
    else
      var before :- ExtendRows(rules, view, rows[..|rows| - 1], now);
      ExtendRow(rules, before, rows[|rows| - 1], now)
  }

  predicate Contiguous(rows: seq<HeaderRow>) {
    forall i :: 1 <= i < |rows| ==> rows[i].height == rows[i - 1].height + 1
  }

  /** What `_extend` returns; None stands for its errors. */
  function Extension(rules: Rules, trusted: ChainView, rows: seq<HeaderRow>, now: int): Option<ChainView>
  {
    if rows == [] || rows[0].height != trusted.first + |trusted.ids| || !Contiguous(rows) then None
    else
      var view :- ExtendRows(rules, trusted, rows, now);
      if view.timestamps == [] || now - view.timestamps[|view.timestamps| - 1] > STALE_TIP then None
      else Some(view.(checkpointHeight := rules.checkpoint.height))
  }

  /** The body of the loop of `_extend`. */
  method CheckExtendRow(rules: Rules, view: ChainView, row: HeaderRow, now: int)
    returns (r: Option<ChainView>)
    requires view.ids != [] && view.cumulative != []
    ensures r == ExtendRow(rules, view, row, now)
    ensures r.Some? ==> r.value.ids != [] && r.value.timestamps != [] && r.value.cumulative != []
  {
    hide ParseHashingBlob, BlockId, NextDifficulty, Median, Last, PowHolds;
    var limit := now + BLOCK_FUTURE_TIME_LIMIT;
    var head := ParseHashingBlob(row.blob);
    if head.None? {
      return None;
    }
    var time := head.value.timestamp;
    if head.value.prevId != view.ids[|view.ids| - 1] || time > limit {
      return None;
    }
    if |view.timestamps| >= MEDIAN_WINDOW && time < Median(Last(view.timestamps, MEDIAN_WINDOW)) {
      return None;
    }
    if row.height > rules.checkpoint.height {
      var expected := NextDifficulty(Last(view.timestamps, DIFFICULTY_BLOCKS_COUNT),
                                     Last(view.cumulative, DIFFICULTY_BLOCKS_COUNT));
      if expected != Some(row.difficulty) {
        return None;
      }
    } else if row.difficulty < 1 {
      return None;
    }
    if !PowHolds(rules, view.ids, view.first, row) {
      return None;
    }
    var work := view.cumulative[|view.cumulative| - 1] + row.difficulty;
    return Some(ChainView(view.first, view.ids + [BlockId(rules.H, row.blob)], view.timestamps + [time],
                          view.difficulties + [row.difficulty], view.cumulative + [work],
                          view.blobs + [row.blob], view.checkpointHeight));
  }

  method CheckContiguous(rows: seq<HeaderRow>) returns (ok: bool)
    ensures ok == Contiguous(rows)
  {
    if rows == [] {
      return true;
    }
    for i := 1 to |rows|
      invariant forall j :: 1 <= j < i ==> rows[j].height == rows[j - 1].height + 1
    {
      if rows[i].height != rows[i - 1].height + 1 {
        return false;
      }
    }
    return true;
  }

  /** `verify_headers` with a trusted view, that is `_extend`. */
  method Extend(rules: Rules, trusted: ChainView, rows: seq<HeaderRow>, now: int)
    returns (r: Option<ChainView>)
    requires trusted.ids != [] && trusted.timestamps != [] && trusted.cumulative != []
    ensures r == Extension(rules, trusted, rows, now)
  {
    if rows == [] {
      return None;
    }
    if rows[0].height != trusted.first + |trusted.ids| {
      return None;
    }
    var contiguous := CheckContiguous(rows);
    if !contiguous {
      return None;
    }
    hide ExtendRow;
    var view := trusted;
    assert rows[..0] == [];
    for i := 0 to |rows|
      invariant view.ids != [] && view.timestamps != [] && view.cumulative != []
      invariant ExtendRows(rules, trusted, rows[..i], now) == Some(view)
    {
      ExtendRowsStep(rules, trusted, rows, i, now);
      var next := CheckExtendRow(rules, view, rows[i], now);
      if next.None? {
        ExtendRowsFail(rules, trusted, rows, i + 1, now);
        return None;
      }
      view := next.value;
    }
    assert rows[..|rows|] == rows;
    if now - view.timestamps[|view.timestamps| - 1] > STALE_TIP {
      return None;
    }
    return Some(view.(checkpointHeight := rules.checkpoint.height));
  }

  lemma ExtendRowsStep(rules: Rules, view: ChainView, rows: seq<HeaderRow>, i: nat, now: int)
    requires i < |rows|
    ensures ExtendRows(rules, view, rows[..i + 1], now)
         == match ExtendRows(rules, view, rows[..i], now)
            case None => None
            case Some(before) => ExtendRow(rules, before, rows[i], now)
  {
    hide ExtendRow;
    assert rows[..i + 1][..|rows[..i + 1]| - 1] == rows[..i];
  }

  /** Once a row is refused the whole run is. */
  lemma {:induction false} ExtendRowsFail(rules: Rules, view: ChainView, rows: seq<HeaderRow>, i: nat, now: int)
    requires i <= |rows| && ExtendRows(rules, view, rows[..i], now) == None
    ensures ExtendRows(rules, view, rows, now) == None
    decreases |rows| - i
  {
    hide ExtendRow;
    if i == |rows| {
      assert rows[..i] == rows;
    } else {
      ExtendRowsStep(rules, view, rows, i, now);
      ExtendRowsFail(rules, view, rows, i + 1, now);
    }
  }
}
