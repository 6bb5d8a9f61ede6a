/** What an accepted header chain is, in plain terms: the rules spelled out row by row, the heights whose
    proof-of-work is checked, the work that is compared, and the history that a checkpoint fixes. */
module HeaderMeaning {
  import opened Bytes
  import opened Headers
  import opened HeadersTheorems
  import opened Median
  import opened MerkleTheorems
  import opened Monero
  import opened Sequences
  import Sorting
  import Varint

  /* ---------- The deterministic rules ---------- */

  /** The rows are of consecutive heights, start far enough before the checkpoint, and have the
      checkpoint's block at its height. */
  predicate Placed(H: Hash, rows: seq<HeaderRow>, checkpoint: Checkpoint) {
    && rows != []
    && (forall i :: 0 <= i < |rows| ==> rows[i].height == rows[0].height + i)
    && (rows[0].height <= 0 || rows[0].height <= checkpoint.height - 2848)
    && 0 <= checkpoint.height - rows[0].height < |rows|
    && var blob := rows[checkpoint.height - rows[0].height].blob;
       H(Varint.Encoding(|blob|) + blob) == checkpoint.hash
  }

  /** The blob of row `i` parses and names the hash of the blob before it. */
  predicate ChainedAt(H: Hash, rows: seq<HeaderRow>, i: nat)
    requires i < |rows|
  {
    && ParseHashingBlob(rows[i].blob).Some?
    && (i > 0 ==> ParseHashingBlob(rows[i].blob).value.prevId == H(Varint.Encoding(|rows[i - 1].blob|) + rows[i - 1].blob))
  }

  predicate Chained(H: Hash, rows: seq<HeaderRow>) {
    forall i :: 0 <= i < |rows| ==> ChainedAt(H, rows, i)
  }

  /** No timestamp is more than two hours ahead, and from the sixtieth row on none is below the median of
      the sixty before it. */
  predicate Timed(rows: seq<HeaderRow>, now: int) {
    forall i :: 0 <= i < |rows| ==>
      && Time(rows[i]) <= now + 7200
      && (i >= 60 ==> Time(rows[i]) >= Headers.Median(Times(rows)[i - 60..i]))
  }

  /** Up to the checkpoint a difficulty is at least one; above it is the one that follows from the 735
      rows before it, or as many as there are. */
  predicate Targeted(rows: seq<HeaderRow>, checkpoint: Checkpoint) {
    forall i :: 0 <= i < |rows| ==>
      if rows[i].height <= checkpoint.height then rows[i].difficulty >= 1
      else
        var from := if i >= 735 then i - 735 else 0;
        NextDifficulty(Times(rows)[from..i], Cumulative(rows)[from..i]) == Some(rows[i].difficulty)
  }

  lemma WindowIs<T>(s: seq<T>, whole: seq<T>, i: nat, n: nat)
    requires i <= |whole| && s == whole[..i]
    ensures Last(s, n) == whole[if i >= n then i - n else 0..i]
  {
  }

  /** The rules for one row, on the whole list. */
  lemma RowIs(rules: Rules, rows: seq<HeaderRow>, i: nat, now: int)
    requires i < |rows|
    ensures Timely(rows[..i], rows[i], now)
       <==> Time(rows[i]) <= now + 7200 && (i >= 60 ==> Time(rows[i]) >= Headers.Median(Times(rows)[i - 60..i]))
    ensures DifficultyHolds(rows[..i], rows[i], rules.checkpoint)
       <==> if rows[i].height <= rules.checkpoint.height then rows[i].difficulty >= 1
            else
              var from := if i >= 735 then i - 735 else 0;
              NextDifficulty(Times(rows)[from..i], Cumulative(rows)[from..i]) == Some(rows[i].difficulty)
  {
    hide Headers.Median, NextDifficulty, Last, Times, Cumulative, Time;
    TimesPrefix(rows, i);
    CumulativePrefix(rows, i);
    WindowIs(Times(rows[..i]), Times(rows), i, 60);
    WindowIs(Times(rows[..i]), Times(rows), i, 735);
    WindowIs(Cumulative(rows[..i]), Cumulative(rows), i, 735);
  }

  lemma LinkIs(H: Hash, rows: seq<HeaderRow>, i: nat)
    requires i < |rows|
    ensures Links(H, rows[..i], rows[i]) <==> ChainedAt(H, rows, i)
  {
    hide ParseHashingBlob;
    LinksAt(H, rows, i);
  }

  /** The deterministic part of the full check accepts exactly the rows that are placed, chained, timed and
      targeted, with a tip at most half an hour old. */
  lemma DeterministicIs(rules: Rules, rows: seq<HeaderRow>, now: int)
    ensures Deterministic(rules, rows, now) <==>
      && Placed(rules.H, rows, rules.checkpoint) && Chained(rules.H, rows) && Timed(rows, now)
      && Targeted(rows, rules.checkpoint) && now - Time(rows[|rows| - 1]) <= 1800
  {
    hide FollowsHeight, Links, Timely, DifficultyHolds, ParseHashingBlob, Headers.Median, NextDifficulty, Time, Varint.Encoding;
    RowsSplit(rules, rows, now);
    forall i | 0 <= i < |rows|
      ensures Timely(rows[..i], rows[i], now)
         <==> Time(rows[i]) <= now + 7200 && (i >= 60 ==> Time(rows[i]) >= Headers.Median(Times(rows)[i - 60..i]))
    {
      RowIs(rules, rows, i, now);
    }
    TargetedIs(rules, rows, now);
    ChainedIs(rules.H, rows);
    PlacedIs(rules.H, rows, rules.checkpoint);
  }

  lemma TargetedIs(rules: Rules, rows: seq<HeaderRow>, now: int)
    ensures Targeted(rows, rules.checkpoint)
       <==> forall i :: 0 <= i < |rows| ==> DifficultyHolds(rows[..i], rows[i], rules.checkpoint)
  {
    hide DifficultyHolds, Timely, NextDifficulty, Headers.Median, Time;
    forall i | 0 <= i < |rows|
      ensures DifficultyHolds(rows[..i], rows[i], rules.checkpoint)
         <==> if rows[i].height <= rules.checkpoint.height then rows[i].difficulty >= 1
              else
                var from := if i >= 735 then i - 735 else 0;
                NextDifficulty(Times(rows)[from..i], Cumulative(rows)[from..i]) == Some(rows[i].difficulty)
    {
      RowIs(rules, rows, i, now);
    }
  }

  lemma ChainedIs(H: Hash, rows: seq<HeaderRow>)
    ensures Chained(H, rows) <==> forall i :: 0 <= i < |rows| ==> Links(H, rows[..i], rows[i])
  {
    hide Links, ChainedAt;
    forall i | 0 <= i < |rows|
      ensures Links(H, rows[..i], rows[i]) <==> ChainedAt(H, rows, i)
    {
      LinkIs(H, rows, i);
    }
  }

  lemma PlacedIs(H: Hash, rows: seq<HeaderRow>, checkpoint: Checkpoint)
    ensures Placed(H, rows, checkpoint)
       <==> SpansCheckpoint(H, rows, checkpoint)
            && forall i :: 0 <= i < |rows| ==> FollowsHeight(rows[..i], rows[i])
  {
    hide FollowsHeight, Varint.Encoding;
    if Placed(H, rows, checkpoint) {
      forall i | 0 <= i < |rows|
        ensures FollowsHeight(rows[..i], rows[i])
      {
        Follows(rows, i);
      }
    } else if SpansCheckpoint(H, rows, checkpoint) && forall i :: 0 <= i < |rows| ==> FollowsHeight(rows[..i], rows[i]) {
      forall i | 0 <= i < |rows|
        ensures rows[i].height == rows[0].height + i
      {
        HeightAt(rows, i);
      }
    }
  }

  lemma Follows(rows: seq<HeaderRow>, i: nat)
    requires i < |rows| && forall j :: 0 <= j < |rows| ==> rows[j].height == rows[0].height + j
    ensures FollowsHeight(rows[..i], rows[i])
  {
  }

  /* ---------- What follows from the rules ---------- */

  /** No row is dated before more than half of the sixty rows before it. */
  lemma TimesRise(rows: seq<HeaderRow>, now: int, i: nat)
    requires Timed(rows, now) && 60 <= i < |rows|
    ensures CountAbove(Times(rows)[i - 60..i], Time(rows[i])) <= 30
  {
    hide CountAbove, Headers.Median, Time, Times;
    var before := Times(rows)[i - 60..i];
    MedianInTheMiddle(before);
    AboveFewer(before, Headers.Median(before), Time(rows[i]));
  }

  lemma {:induction false} AboveFewer(values: seq<int>, m: int, n: int)
    requires m <= n
    ensures CountAbove(values, n) <= CountAbove(values, m)
  {
    if values != [] {
      AboveFewer(values[1..], m, n);
    }
  }

  /** The difficulty of a row above the checkpoint, from the rows of its window: the least that would take
      120 seconds per block for the work of the rows kept over the time they took. */
  lemma DifficultyFollows(rows: seq<HeaderRow>, checkpoint: Checkpoint, i: nat, from: nat, sorted: seq<int>, b: nat, e: nat)
    requires Targeted(rows, checkpoint) && 2 <= i < |rows| && rows[i].height > checkpoint.height
    requires from == (if i >= 735 then i - 735 else 0) && |sorted| == (if i <= 720 then i else 720)
    requires sorted == Sorting.Sort(Times(rows)[from..from + |sorted|]) && Middle(|sorted|, b, e)
    ensures
      var time, work := sorted[e - 1] - sorted[b], Work(rows, from + e) - Work(rows, from + b + 1);
      var span := if time >= 1 then time else 1;
      var d := rows[i].difficulty;
      && work > 0 && d >= 0
      && (d > 0 ==> (d - 1) * span < work * 120 <= d * span)
      && (d == 0 ==> (U64 * U64 - 1) * span < work * 120)
  {
    hide NextDifficulty, Sorting.SortBy, Work;
    var ts, cs := Times(rows)[from..i], Cumulative(rows)[from..i];
    assert NextDifficulty(ts, cs) == Some(rows[i].difficulty);
    assert ts[..|sorted|] == Times(rows)[from..from + |sorted|];
    assert cs[e - 1] == Work(rows, from + e) && cs[b] == Work(rows, from + b + 1);
    hide Targeted, Times, Cumulative, Middle;
    DifficultyIsLeast(ts, cs, b, e);
  }

  /* ---------- Proof-of-work ---------- */

  /** The seed block of row `i` is one of the rows, and the row's hash under it meets its difficulty. */
  ghost predicate WorkShown(rules: Rules, rows: seq<HeaderRow>, i: nat)
    requires i < |rows|
  {
    exists j :: 0 <= j < |rows| && rows[j].height == SeedHeight(rows[i].height)
                && CheckHash(rules.pow(rows[i].blob, rows[i].height, BlockId(rules.H, rows[j].blob)), rows[i].difficulty)
  }

  /** The heights that must show their work: the 735 up to the checkpoint, and above it the `recent` last
      ones and those sampled. */
  predicate MustShow(rows: seq<HeaderRow>, checkpoint: Checkpoint, sampled: set<nat>, recent: nat, i: nat)
    requires i < |rows|
  {
    var h, tip := rows[i].height, rows[|rows| - 1].height;
    || checkpoint.height - 735 < h <= checkpoint.height
    || (h > checkpoint.height && (h > tip - recent || i in sampled))
  }

  lemma ShownIff(rules: Rules, rows: seq<HeaderRow>, i: nat)
    requires i < |rows| && forall k :: 0 <= k < |rows| ==> rows[k].height == rows[0].height + k
    ensures PowHolds(rules, Ids(rules.H, rows), rows[0].height, rows[i]) <==> WorkShown(rules, rows, i)
  {
    hide CheckHash, BlockId, SeedHeight;
    var j := SeedHeight(rows[i].height) - rows[0].height;
    if 0 <= j < |rows| {
      assert rows[j].height == SeedHeight(rows[i].height);
    }
  }

  /** A full verification accepts exactly when the deterministic rules hold and every row that must has
      shown its work. */
  lemma FullViewIff(rules: Rules, rows: seq<HeaderRow>, now: int, sampled: set<nat>, recent: nat)
    ensures FullView(rules, rows, now, sampled, recent).Some? <==>
      && Deterministic(rules, rows, now)
      && forall i :: 0 <= i < |rows| && MustShow(rows, rules.checkpoint, sampled, recent, i) ==> WorkShown(rules, rows, i)
  {
    hide Placed, Chained, Timed, Targeted, PowHolds, WorkShown, RowsHold, SpansCheckpoint, Time, Fresh;
    DeterministicIs(rules, rows, now);
    if Deterministic(rules, rows, now) {
      Heights(rules.H, rows, rules.checkpoint);
      forall i | 0 <= i < |rows|
        ensures PowHolds(rules, Ids(rules.H, rows), rows[0].height, rows[i]) <==> WorkShown(rules, rows, i)
        ensures MustShow(rows, rules.checkpoint, sampled, recent, i)
           <==> PowRequired(rows[i], i, |rows|, rules.checkpoint, sampled, recent)
      {
        ShownIff(rules, rows, i);
      }
    }
  }

  lemma Heights(H: Hash, rows: seq<HeaderRow>, checkpoint: Checkpoint)
    requires Placed(H, rows, checkpoint)
    ensures rows != [] && forall k :: 0 <= k < |rows| ==> rows[k].height == rows[0].height + k
  {
  }

  /* ---------- The work that is compared ---------- */

  /** The difficulties of the rows above a height, summed. */
  function WorkAbove(rows: seq<HeaderRow>, height: int): int {
    if rows == [] then 0
    else (if rows[0].height > height then rows[0].difficulty else 0) + WorkAbove(rows[1..], height)
  }

  lemma {:induction false} WorkAboveLast(rows: seq<HeaderRow>, row: HeaderRow, height: int)
    ensures WorkAbove(rows + [row], height) == WorkAbove(rows, height) + if row.height > height then row.difficulty else 0
  {
    if rows == [] {
      assert rows + [row] == [row];
    } else {
      assert (rows + [row])[1..] == rows[1..] + [row];
      WorkAboveLast(rows[1..], row, height);
    }
  }

  lemma {:induction false} WorkAboveIs(rows: seq<HeaderRow>, height: int, n: nat)
    requires n <= |rows| && rows != [] && forall k :: 0 <= k < |rows| ==> rows[k].height == rows[0].height + k
    requires 0 <= height - rows[0].height < |rows|
    ensures
      var below := height - rows[0].height + 1;
      WorkAbove(rows[..n], height) == if n <= below then 0 else Work(rows, n) - Work(rows, below)
  {
    if n > 0 {
      WorkAboveIs(rows, height, n - 1);
      assert rows[..n] == rows[..n - 1] + [rows[n - 1]];
      WorkAboveLast(rows[..n - 1], rows[n - 1], height);
    }
  }

  /** The work of a view is that of the rows above the checkpoint: difficulties served for older rows do not
      count. */
  lemma ViewWorkIs(H: Hash, rows: seq<HeaderRow>, checkpoint: Checkpoint)
    requires Placed(H, rows, checkpoint)
    ensures ViewWork(View(H, rows, checkpoint)) == WorkAbove(rows, checkpoint.height)
  {
    hide WorkAbove, Varint.Encoding;
    WorkAboveIs(rows, checkpoint.height, |rows|);
    assert rows[..|rows|] == rows;
  }

  /** Two lists that agree above the checkpoint have views of equal work, whatever they say of older rows. */
  lemma OldRowsBuyNothing(H: Hash, a: seq<HeaderRow>, b: seq<HeaderRow>, checkpoint: Checkpoint)
    requires Placed(H, a, checkpoint) && Placed(H, b, checkpoint)
    requires a[checkpoint.height - a[0].height + 1..] == b[checkpoint.height - b[0].height + 1..]
    ensures ViewWork(View(H, a, checkpoint)) == ViewWork(View(H, b, checkpoint))
  {
    hide Placed, ViewWork, View;
    ViewWorkIs(H, a, checkpoint);
    ViewWorkIs(H, b, checkpoint);
    OnlyAbove(H, a, checkpoint);
    OnlyAbove(H, b, checkpoint);
  }

  lemma OnlyAbove(H: Hash, rows: seq<HeaderRow>, checkpoint: Checkpoint)
    requires Placed(H, rows, checkpoint)
    ensures 0 <= checkpoint.height - rows[0].height < |rows|
    ensures WorkAbove(rows, checkpoint.height)
         == WorkAbove(rows[checkpoint.height - rows[0].height + 1..], checkpoint.height)
  {
    hide WorkAbove, Varint.Encoding;
    SkipBelow(rows, checkpoint.height, checkpoint.height - rows[0].height + 1);
  }

  lemma {:induction false} SkipBelow(rows: seq<HeaderRow>, height: int, n: nat)
    requires n <= |rows| && forall k :: 0 <= k < n ==> rows[k].height <= height
    ensures WorkAbove(rows, height) == WorkAbove(rows[n..], height)
    decreases n
  {
    if n == 0 {
      assert rows[0..] == rows;
    } else {
      assert rows[1..][n - 1..] == rows[n..];
      SkipBelow(rows[1..], height, n - 1);
    }
  }

  /* ---------- The history a block fixes ---------- */

  /** What the id of a blob is the hash of. */
  ghost function IdInput(blob: Bytes): Bytes {
    Varint.Encoding(|blob|) + blob
  }

  ghost function IdInputs(rows: seq<HeaderRow>): set<Bytes> {
    set i | 0 <= i < |rows| :: IdInput(rows[i].blob)
  }

  lemma {:induction false} EncodingsPrefixFree(a: nat, b: nat, x: Bytes, y: Bytes)
    requires Varint.Encoding(a) + x == Varint.Encoding(b) + y
    ensures a == b && x == y
    decreases a
  {
    var s, t := Varint.Encoding(a) + x, Varint.Encoding(b) + y;
    assert s[0] == t[0];
    assert s[1..] == Varint.Encoding(a)[1..] + x && t[1..] == Varint.Encoding(b)[1..] + y;
    if a >= 128 {
      EncodingsPrefixFree(a / 128, b / 128, x, y);
    } else {
      assert s[1..] == x && t[1..] == y;
    }
  }

  /** Equal ids: equal blobs, or a collision. */
  lemma SameIdSameBlob(H: Hash, a: seq<HeaderRow>, b: seq<HeaderRow>, i: nat, j: nat)
    requires i < |a| && j < |b| && H(IdInput(a[i].blob)) == H(IdInput(b[j].blob))
    ensures a[i].blob == b[j].blob || Collide(H, IdInputs(a), IdInputs(b))
  {
    hide Varint.Encoding;
    var x, y := IdInput(a[i].blob), IdInput(b[j].blob);
    if x == y {
      EncodingsPrefixFree(|a[i].blob|, |b[j].blob|, a[i].blob, b[j].blob);
    } else {
      assert x in IdInputs(a) && y in IdInputs(b);
    }
  }

  /** Two chained lists that have one block in common have the same blobs all the way back from it, as far
      as both go, or two of the inputs hashed for their ids collide. */
  lemma {:induction false} HistoryFixed(H: Hash, a: seq<HeaderRow>, b: seq<HeaderRow>, i: nat, j: nat, back: nat)
    requires Chained(H, a) && Chained(H, b) && i < |a| && j < |b| && back <= i && back <= j
    requires H(IdInput(a[i].blob)) == H(IdInput(b[j].blob))
    ensures a[i - back].blob == b[j - back].blob || Collide(H, IdInputs(a), IdInputs(b))
    decreases back
  {
    hide IdInputs, Varint.Encoding, ParseHashingBlob, Collide;
    SameIdSameBlob(H, a, b, i, j);
    if back > 0 && a[i].blob == b[j].blob {
      assert ChainedAt(H, a, i) && ChainedAt(H, b, j);
      HistoryFixed(H, a, b, i - 1, j - 1, back - 1);
    }
  }

  /** A checkpoint fixes the past: two lists accepted under it have the same blobs at all heights up to it
      that both have, or a collision is exhibited. */
  lemma CheckpointFixes(rules: Rules, a: seq<HeaderRow>, b: seq<HeaderRow>, nowA: int, nowB: int, height: int)
    requires Deterministic(rules, a, nowA) && Deterministic(rules, b, nowB)
    requires a[0].height <= height && b[0].height <= height && height <= rules.checkpoint.height
    ensures height - a[0].height < |a| && height - b[0].height < |b|
    ensures a[height - a[0].height].blob == b[height - b[0].height].blob || Collide(rules.H, IdInputs(a), IdInputs(b))
  {
    hide Chained, Timed, Targeted, Deterministic, IdInputs, Varint.Encoding, Time, Collide;
    DeterministicIs(rules, a, nowA);
    DeterministicIs(rules, b, nowB);
    var i, j := rules.checkpoint.height - a[0].height, rules.checkpoint.height - b[0].height;
    HistoryFixed(rules.H, a, b, i, j, rules.checkpoint.height - height);
  }

  /** The view row by row. */
  lemma ViewAt(H: Hash, rows: seq<HeaderRow>, checkpoint: Checkpoint, i: nat)
    requires Placed(H, rows, checkpoint) && Chained(H, rows) && i < |rows|
    ensures ParseHashingBlob(rows[i].blob).Some?
    ensures
      var v := View(H, rows, checkpoint);
      && v.first + i == rows[i].height && v.checkpointHeight == checkpoint.height
      && |v.ids| == |v.timestamps| == |v.difficulties| == |v.cumulative| == |v.blobs| == |rows|
      && v.ids[i] == H(IdInput(rows[i].blob)) && v.blobs[i] == rows[i].blob && v.difficulties[i] == rows[i].difficulty
      && v.timestamps[i] == ParseHashingBlob(rows[i].blob).value.timestamp
      && v.cumulative[i] == (if i == 0 then 0 else v.cumulative[i - 1]) + rows[i].difficulty
  {
    hide ParseHashingBlob, Varint.Encoding;
    assert ChainedAt(H, rows, i);
    assert Work(rows, i + 1) == Work(rows, i) + rows[i].difficulty;
  }
}
