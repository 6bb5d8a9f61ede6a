/** What header verification promises over a run: extending a verified view accepts exactly
    what the full rules accept on all rows together, builds the same view, and only adds
    work; and the lookback always holds the seed blocks and the difficulty history. */
module HeadersTheorems {
  import opened Bytes
  import opened Headers
  import opened Monero
  import opened Sequences

  /* ---------- The lookback suffices ---------- */

  /** The heights `_check_shape` accepts. */
  ghost predicate Shaped(rows: seq<HeaderRow>, checkpoint: Checkpoint) {
    && rows != []
    && (forall i :: 0 <= i < |rows| ==> FollowsHeight(rows[..i], rows[i]))
    && rows[0].height <= checkpoint.height <= rows[|rows| - 1].height
    && rows[0].height <= (if checkpoint.height > HEADER_LOOKBACK then checkpoint.height - HEADER_LOOKBACK else 0)
  }

  /** Every row whose proof-of-work can be required has its seed block in the view, whatever
      the checkpoint, the sample and the number of recent rows. */
  lemma SeedInView(H: Hash, rows: seq<HeaderRow>, checkpoint: Checkpoint, i: nat, sampled: set<nat>, recent: nat)
    requires Shaped(rows, checkpoint) && i < |rows|
    requires PowRequired(rows[i], i, |rows|, checkpoint, sampled, recent)
    ensures SeedFor(Ids(H, rows), rows[0].height, rows[i].height).Some?
  {
    hide FollowsHeight;
    HeightAt(rows, i);
    HeightAt(rows, |rows| - 1);
  }

  /** Every row after the checkpoint has its whole difficulty window in view, or a view that
      starts at the genesis block. */
  lemma HistoryInView(rows: seq<HeaderRow>, checkpoint: Checkpoint, i: nat)
    requires Shaped(rows, checkpoint) && i < |rows| && rows[i].height > checkpoint.height
    ensures i >= DIFFICULTY_BLOCKS_COUNT || rows[0].height <= 0
  {
    hide FollowsHeight;
    HeightAt(rows, i);
  }

  /* ---------- One extension ---------- */

  lemma IdsAppend(H: Hash, rows: seq<HeaderRow>, row: HeaderRow)
    ensures Ids(H, rows + [row]) == Ids(H, rows) + [BlockId(H, row.blob)]
    ensures Times(rows + [row]) == Times(rows) + [Time(row)]
    ensures Difficulties(rows + [row]) == Difficulties(rows) + [row.difficulty]
    ensures Blobs(rows + [row]) == Blobs(rows) + [row.blob]
  {
    hide BlockId, Time;
  }

  lemma CumulativeAppend(rows: seq<HeaderRow>, row: HeaderRow)
    requires rows != []
    ensures Cumulative(rows + [row])
         == Cumulative(rows) + [Cumulative(rows)[|rows| - 1] + row.difficulty]
  {
    var all := rows + [row];
    CumulativePrefix(all, |rows|);
    assert all[..|rows|] == rows;
    assert Cumulative(all)[..|rows|] == Cumulative(rows);
    assert Cumulative(all)[|rows|] == Work(all, |rows|) + row.difficulty;
    assert Cumulative(all)[|rows| - 1] == Work(all, |rows|);
    TakeOneMore(Cumulative(all), |rows|);
    assert Cumulative(all)[..|rows| + 1] == Cumulative(all);
  }

  /** A block's seed is below it, so the rows before it are enough to find the seed. */
  lemma SeedBelow(height: int)
    requires height >= 1
    ensures SeedHeight(height) < height
  {
  }

  /** `_extend` on one row accepts exactly when the full rules hold for that row and its
      proof-of-work does, and the new view is that of the longer list. */
  lemma ExtendRowIff(rules: Rules, rows: seq<HeaderRow>, row: HeaderRow, now: int)
    requires rows != [] && FollowsHeight(rows, row)
    requires row.height == rows[0].height + |rows| && row.height >= 1
    ensures ExtendRow(rules, View(rules.H, rows, rules.checkpoint), row, now)
         == if RowHolds(rules, rows, row, now)
               && PowHolds(rules, Ids(rules.H, rows + [row]), rows[0].height, row)
            then Some(View(rules.H, rows + [row], rules.checkpoint)) else None
  {
    hide ParseHashingBlob, BlockId, NextDifficulty, Median, Last, CheckHash, Ids, Times, Cumulative;
    IdsAppend(rules.H, rows, row);
    CumulativeAppend(rows, row);
    SeedBelow(row.height);
    assert SeedFor(Ids(rules.H, rows + [row]), rows[0].height, row.height)
        == SeedFor(Ids(rules.H, rows), rows[0].height, row.height);
    var view := View(rules.H, rows, rules.checkpoint);
    LastId(rules.H, rows);
  }

  lemma LastId(H: Hash, rows: seq<HeaderRow>)
    requires rows != []
    ensures Ids(H, rows)[|rows| - 1] == BlockId(H, rows[|rows| - 1].blob)
  {
  }

  /** The rules and the proof-of-work of the rows from index `n` on. */
  ghost predicate NewRowsHold(rules: Rules, all: seq<HeaderRow>, n: nat, now: int) {
    all != [] ==>
    forall i :: n <= i < |all| ==>
      RowHolds(rules, all[..i], all[i], now)
      && PowHolds(rules, Ids(rules.H, all), all[0].height, all[i])
  }

  /** More rows behind do not change a proof-of-work check whose seed block is there. */
  lemma PowStable(rules: Rules, rows: seq<HeaderRow>, n: nat, first: int, row: HeaderRow)
    requires n <= |rows|
    ensures PowHolds(rules, Ids(rules.H, rows[..n]), first, row) ==> PowHolds(rules, Ids(rules.H, rows), first, row)
    ensures SeedHeight(row.height) - first < n && PowHolds(rules, Ids(rules.H, rows), first, row)
        ==> PowHolds(rules, Ids(rules.H, rows[..n]), first, row)
  {
    hide CheckHash, BlockId;
  }

  /** The heights of `more` go on where `rows` end. */
  ghost predicate Continues(rows: seq<HeaderRow>, more: seq<HeaderRow>)
    requires rows != []
  {
    forall i :: 0 <= i < |more| ==> more[i].height == rows[0].height + |rows| + i
  }

  lemma {:induction false} ExtendRowsIff(rules: Rules, rows: seq<HeaderRow>, more: seq<HeaderRow>, now: int)
    requires rows != [] && rows[0].height + |rows| >= 1
    requires Continues(rows, more)
    requires rows[|rows| - 1].height == rows[0].height + |rows| - 1
    ensures ExtendRows(rules, View(rules.H, rows, rules.checkpoint), more, now)
         == if NewRowsHold(rules, rows + more, |rows|, now)
            then Some(View(rules.H, rows + more, rules.checkpoint)) else None
    decreases |more|
  {
    hide ExtendRow, View, RowHolds, PowHolds, NewRowsHold;
    if more == [] {
      assert rows + more == rows;
      NoNewRows(rules, rows, now);
    } else {
      var n := |more| - 1;
      var less, row := more[..n], more[n];
      var most := rows + less;
      PeelLast(rows, more);
      ExtendRowsIff(rules, rows, less, now);
      LastContinues(rows, more);
      NewRowsPeel(rules, most, row, |rows|, now);
      hide Continues;
      if NewRowsHold(rules, most, |rows|, now) {
        ExtendRowIff(rules, most, row, now);
      }
    }
  }

  lemma NoNewRows(rules: Rules, rows: seq<HeaderRow>, now: int)
    ensures NewRowsHold(rules, rows, |rows|, now)
  {
  }

  /** The rows before the last new one, and the height of that one. */
  lemma LastContinues(rows: seq<HeaderRow>, more: seq<HeaderRow>)
    requires rows != [] && more != [] && Continues(rows, more) && rows[0].height + |rows| >= 1
    requires rows[|rows| - 1].height == rows[0].height + |rows| - 1
    ensures
      var most, row := rows + more[..|more| - 1], more[|more| - 1];
      && FollowsHeight(most, row) && row.height == most[0].height + |most| >= 1
      && forall i :: |rows| <= i < |most| ==> most[i].height == most[0].height + i >= 1
  {
    var most := rows + more[..|more| - 1];
    forall i | |rows| <= i < |most|
      ensures most[i].height == rows[0].height + i
    {
      assert most[i] == more[i - |rows|];
    }
    if |more| == 1 {
      assert most == rows;
    } else {
      assert most[|most| - 1] == more[|more| - 2];
    }
  }

  lemma PeelLast<T>(a: seq<T>, b: seq<T>)
    requires b != []
    ensures a + b == (a + b[..|b| - 1]) + [b[|b| - 1]] && (a + b)[..|a| + |b| - 1] == a + b[..|b| - 1]
  {
    assert b == b[..|b| - 1] + [b[|b| - 1]];
    Assoc(a, b[..|b| - 1], [b[|b| - 1]]);
  }

  lemma NewRowsPeel(rules: Rules, most: seq<HeaderRow>, row: HeaderRow, n: nat, now: int)
    requires most != [] && n <= |most|
    requires forall i :: n <= i < |most| ==> most[i].height == most[0].height + i >= 1
    ensures NewRowsHold(rules, most + [row], n, now) <==>
      && NewRowsHold(rules, most, n, now)
      && RowHolds(rules, most, row, now)
      && PowHolds(rules, Ids(rules.H, most + [row]), most[0].height, row)
  {
    hide RowHolds, PowHolds, Ids;
    var all := most + [row];
    assert all[..|most|] == most;
    forall i | n <= i < |most|
      ensures all[..i] == most[..i]
      ensures PowHolds(rules, Ids(rules.H, all), all[0].height, all[i])
         <==> PowHolds(rules, Ids(rules.H, most), most[0].height, most[i])
    {
      SeedBelow(most[i].height);
      PowStable(rules, all, |most|, most[0].height, most[i]);
    }
    assert RowHolds(rules, all[..|most|], all[|most|], now) == RowHolds(rules, most, row, now);
  }

  /** Rows verified at `now` are still verified later. */
  lemma RowsHoldLater(rules: Rules, rows: seq<HeaderRow>, now: int, later: int)
    requires RowsHold(rules, rows, now) && now <= later
    ensures RowsHold(rules, rows, later)
  {
    hide FollowsHeight, Links, DifficultyHolds, Median, Time;
    forall i | 0 <= i < |rows|
      ensures RowHolds(rules, rows[..i], rows[i], later)
    {
      assert RowHolds(rules, rows[..i], rows[i], now);
    }
  }

  lemma RowsHoldConcat(rules: Rules, rows: seq<HeaderRow>, more: seq<HeaderRow>, now: int)
    ensures RowsHold(rules, rows + more, now) <==>
      && RowsHold(rules, rows, now)
      && (forall i :: |rows| <= i < |rows + more| ==> RowHolds(rules, (rows + more)[..i], (rows + more)[i], now))
  {
    hide RowHolds;
    var all := rows + more;
    forall i | 0 <= i < |rows|
      ensures all[..i] == rows[..i] && all[i] == rows[i]
    {
    }
    if RowsHold(rules, all, now) {
      forall i | 0 <= i < |rows|
        ensures RowHolds(rules, rows[..i], rows[i], now)
      {
        assert RowHolds(rules, all[..i], all[i], now);
      }
    }
  }

  /** The heights the head of `_extend` accepts are those that continue the view. */
  lemma HeightsContinue(rows: seq<HeaderRow>, more: seq<HeaderRow>)
    requires rows != [] && more != [] && rows[|rows| - 1].height == rows[0].height + |rows| - 1
    ensures (more[0].height == rows[0].height + |rows| && Contiguous(more)) <==> Continues(rows, more)
    ensures (forall i :: |rows| <= i < |rows + more| ==> FollowsHeight((rows + more)[..i], (rows + more)[i]))
        ==> Continues(rows, more)
  {
    if more[0].height == rows[0].height + |rows| && Contiguous(more) {
      forall i | 0 <= i < |more|
        ensures more[i].height == rows[0].height + |rows| + i
      {
        ContiguousHeight(more, i);
      }
    }
    var all := rows + more;
    if forall i :: |rows| <= i < |all| ==> FollowsHeight(all[..i], all[i]) {
      forall i | 0 <= i < |more|
        ensures more[i].height == rows[0].height + |rows| + i
      {
        FollowedHeight(rows, more, i);
      }
    }
  }

  lemma {:induction false} ContiguousHeight(rows: seq<HeaderRow>, i: nat)
    requires i < |rows| && Contiguous(rows)
    ensures rows[i].height == rows[0].height + i
  {
    if i > 0 {
      ContiguousHeight(rows, i - 1);
    }
  }

  lemma {:induction false} FollowedHeight(rows: seq<HeaderRow>, more: seq<HeaderRow>, i: nat)
    requires rows != [] && i < |more| && rows[|rows| - 1].height == rows[0].height + |rows| - 1
    requires forall j :: |rows| <= j < |rows + more| ==> FollowsHeight((rows + more)[..j], (rows + more)[j])
    ensures more[i].height == rows[0].height + |rows| + i
  {
    var all := rows + more;
    var j := |rows| + i;
    if i > 0 {
      FollowedHeight(rows, more, i - 1);
    }
    assert FollowsHeight(all[..j], all[j]);
    assert all[..j][|all[..j]| - 1] == all[j - 1];
  }

  /** Incremental equals full: on the view of verified rows, `_extend` accepts new rows exactly
      when the deterministic rules accept the rows together and every new row passes
      proof-of-work, and it yields the view of the rows together. */
  lemma ExtensionIff(rules: Rules, rows: seq<HeaderRow>, more: seq<HeaderRow>, now: int, later: int)
    requires SpansCheckpoint(rules.H, rows, rules.checkpoint) && RowsHold(rules, rows, now)
    requires more != [] && now <= later
    ensures Extension(rules, View(rules.H, rows, rules.checkpoint), more, later)
         == if Deterministic(rules, rows + more, later) && NewRowsHold(rules, rows + more, |rows|, later)
            then Some(View(rules.H, rows + more, rules.checkpoint)) else None
  {
    hide Extension, Deterministic, NewRowsHold, View, RowsHold, Continues;
    LastHeight(rules, rows, now);
    RowsHoldLater(rules, rows, now, later);
    if Continues(rows, more) {
      ExtensionFollowing(rules, rows, more, later);
    } else {
      ExtensionNotFollowing(rules, rows, more, later);
    }
  }

  lemma LastHeight(rules: Rules, rows: seq<HeaderRow>, now: int)
    requires rows != [] && RowsHold(rules, rows, now)
    ensures rows[|rows| - 1].height == rows[0].height + |rows| - 1
  {
    hide FollowsHeight, Links, Timely, DifficultyHolds;
    RowsSplit(rules, rows, now);
    HeightAt(rows, |rows| - 1);
  }

  lemma ExtensionFollowing(rules: Rules, rows: seq<HeaderRow>, more: seq<HeaderRow>, now: int)
    requires SpansCheckpoint(rules.H, rows, rules.checkpoint) && RowsHold(rules, rows, now)
    requires rows[|rows| - 1].height == rows[0].height + |rows| - 1
    requires more != [] && Continues(rows, more)
    ensures Extension(rules, View(rules.H, rows, rules.checkpoint), more, now)
         == if Deterministic(rules, rows + more, now) && NewRowsHold(rules, rows + more, |rows|, now)
            then Some(View(rules.H, rows + more, rules.checkpoint)) else None
  {
    hide RowHolds, ExtendRows, PowHolds, BlockId, Time, Deterministic, NewRowsHold, RowsHold;
    var all := rows + more;
    HeightsContinue(rows, more);
    ExtendRowsIff(rules, rows, more, now);
    SpansMore(rules.H, rows, more, rules.checkpoint);
    Reassemble(rules, rows, more, now);
    LastTime(all);
  }

  lemma LastTime(rows: seq<HeaderRow>)
    requires rows != []
    ensures Times(rows)[|rows| - 1] == Time(rows[|rows| - 1])
  {
  }

  lemma SpansMore(H: Hash, rows: seq<HeaderRow>, more: seq<HeaderRow>, checkpoint: Checkpoint)
    requires SpansCheckpoint(H, rows, checkpoint) && more != []
    requires more[|more| - 1].height >= rows[|rows| - 1].height
    ensures SpansCheckpoint(H, rows + more, checkpoint)
  {
    hide BlockId;
  }

  lemma Reassemble(rules: Rules, rows: seq<HeaderRow>, more: seq<HeaderRow>, now: int)
    requires rows != [] && RowsHold(rules, rows, now) && SpansCheckpoint(rules.H, rows + more, rules.checkpoint)
    ensures (NewRowsHold(rules, rows + more, |rows|, now) && Fresh(rows + more, now))
       <==> (Deterministic(rules, rows + more, now) && NewRowsHold(rules, rows + more, |rows|, now))
  {
    hide RowHolds, PowHolds, SpansCheckpoint, Fresh;
    RowsHoldConcat(rules, rows, more, now);
  }

  lemma ExtensionNotFollowing(rules: Rules, rows: seq<HeaderRow>, more: seq<HeaderRow>, now: int)
    requires rows != [] && more != [] && rows[|rows| - 1].height == rows[0].height + |rows| - 1
    requires !Continues(rows, more)
    ensures !Deterministic(rules, rows + more, now)
    ensures Extension(rules, View(rules.H, rows, rules.checkpoint), more, now) == None
  {
    hide FollowsHeight, Links, Timely, DifficultyHolds, Contiguous;
    HeightsContinue(rows, more);
    RowsSplit(rules, rows + more, now);
  }

  /* ---------- Runs of extensions ---------- */

  datatype Batch = Batch(rows: seq<HeaderRow>, now: int)

  /** `_extend`, batch after batch. */
  function ExtendRun(rules: Rules, view: ChainView, batches: seq<Batch>): Option<ChainView>
    decreases |batches|
  {
    if batches == [] then Some(view)
    else
      var next :- Extension(rules, view, batches[0].rows, batches[0].now);
      ExtendRun(rules, next, batches[1..])
  }

  function AllRows(rows: seq<HeaderRow>, batches: seq<Batch>): seq<HeaderRow>
    decreases |batches|
  {
    if batches == [] then rows else AllRows(rows + batches[0].rows, batches[1..])
  }

  function LastNow(now: int, batches: seq<Batch>): int {
    if batches == [] then now else batches[|batches| - 1].now
  }

  predicate ClockRuns(now: int, batches: seq<Batch>)
    decreases |batches|
  {
    batches != [] ==> now <= batches[0].now && ClockRuns(batches[0].now, batches[1..])
  }

  /** After an accepted extension, a full verification of all rows accepts and returns the
      same view, for every sample that draws no row the first verification left out. */
  lemma FullAfterExtension(rules: Rules, rows: seq<HeaderRow>, more: seq<HeaderRow>, now: int, later: int,
                           sampled: set<nat>, sampledLater: set<nat>, recent: nat)
    requires FullView(rules, rows, now, sampled, recent).Some? && now <= later
    requires forall i :: i in sampledLater && i < |rows| ==> i in sampled
    requires Extension(rules, View(rules.H, rows, rules.checkpoint), more, later).Some?
    ensures FullView(rules, rows + more, later, sampledLater, recent)
         == Extension(rules, View(rules.H, rows, rules.checkpoint), more, later)
  {
    hide RowHolds, PowHolds, Extension, View, SpansCheckpoint, Fresh;
    var all := rows + more;
    SpansNonEmpty(rules.H, rows, rules.checkpoint);
    ExtensionOfNothing(rules, View(rules.H, rows, rules.checkpoint), later);
    ExtensionIff(rules, rows, more, now, later);
    assert rows[0] == all[0] && all[..|rows|] == rows;
    forall i | 0 <= i < |all| && PowRequired(all[i], i, |all|, rules.checkpoint, sampledLater, recent)
      ensures PowHolds(rules, Ids(rules.H, all), all[0].height, all[i])
    {
      if i < |rows| {
        assert PowRequired(rows[i], i, |rows|, rules.checkpoint, sampled, recent);
        PowStable(rules, all, |rows|, all[0].height, all[i]);
      }
    }
  }

  lemma ExtensionOfNothing(rules: Rules, view: ChainView, now: int)
    ensures Extension(rules, view, [], now) == None
  {
  }

  lemma SpansNonEmpty(H: Hash, rows: seq<HeaderRow>, checkpoint: Checkpoint)
    requires SpansCheckpoint(H, rows, checkpoint)
    ensures rows != []
  {
  }

  /** The first batch of a run. */
  lemma RunStep(rules: Rules, rows: seq<HeaderRow>, now: int, batches: seq<Batch>, sampled: set<nat>, recent: nat)
    requires batches != []
    requires FullView(rules, rows, now, sampled, recent).Some? && ClockRuns(now, batches)
    requires ExtendRun(rules, View(rules.H, rows, rules.checkpoint), batches).Some?
    ensures
      var b := batches[0];
      && ClockRuns(b.now, batches[1..]) && FullView(rules, rows + b.rows, b.now, sampled, recent).Some?
      && ExtendRun(rules, View(rules.H, rows, rules.checkpoint), batches)
         == ExtendRun(rules, View(rules.H, rows + b.rows, rules.checkpoint), batches[1..])
  {
    hide Extension, View, FullView;
    var b := batches[0];
    FullAfterExtension(rules, rows, b.rows, now, b.now, sampled, sampled, recent);
    FullIsView(rules, rows + b.rows, b.now, sampled, recent);
  }

  lemma FullIsView(rules: Rules, rows: seq<HeaderRow>, now: int, sampled: set<nat>, recent: nat)
    ensures FullView(rules, rows, now, sampled, recent).Some? ==>
              FullView(rules, rows, now, sampled, recent) == Some(View(rules.H, rows, rules.checkpoint))
  {
    hide View, RowsHold, RequiredPowHolds, SpansCheckpoint, Fresh;
  }

  /** By induction: after any number of accepted extensions the view is the one a full
      verification of all the rows builds. */
  lemma {:induction false} RunIsFull(rules: Rules, rows: seq<HeaderRow>, now: int, batches: seq<Batch>,
                                     sampled: set<nat>, recent: nat)
    requires FullView(rules, rows, now, sampled, recent).Some? && ClockRuns(now, batches)
    requires ExtendRun(rules, View(rules.H, rows, rules.checkpoint), batches).Some?
    ensures FullView(rules, AllRows(rows, batches), LastNow(now, batches), sampled, recent)
         == ExtendRun(rules, View(rules.H, rows, rules.checkpoint), batches)
    decreases |batches|
  {
    hide FullView, View, ClockRuns, Extension;
    if batches == [] {
      FullIsView(rules, rows, now, sampled, recent);
    } else {
      RunStep(rules, rows, now, batches, sampled, recent);
      hide ExtendRun;
      RunIsFull(rules, rows + batches[0].rows, batches[0].now, batches[1..], sampled, recent);
    }
  }

  /* ---------- Work ---------- */

  /** `ChainView.work`: cumulative difficulty after the checkpoint. */
  function ViewWork(view: ChainView): int
    requires view.cumulative != []
  {
    var i := view.checkpointHeight - view.first;
    view.cumulative[|view.cumulative| - 1] - (if 0 <= i < |view.cumulative| then view.cumulative[i] else 0)
  }

  lemma {:induction false} WorkAdds(rows: seq<HeaderRow>, more: seq<HeaderRow>, n: nat)
    requires n <= |more| && forall i :: 0 <= i < n ==> more[i].difficulty >= 1
    ensures Work(rows + more, |rows| + n) >= Work(rows, |rows|) + n
    decreases n
  {
    var all := rows + more;
    if n == 0 {
      WorkPrefix(all, |rows|, |rows|);
      assert all[..|rows|] == rows;
    } else {
      WorkAdds(rows, more, n - 1);
      assert all[|rows| + n - 1] == more[n - 1];
    }
  }

  /** Every extension raises the work by at least its number of rows. */
  lemma ExtensionAddsWork(rules: Rules, rows: seq<HeaderRow>, more: seq<HeaderRow>, now: int, later: int)
    requires SpansCheckpoint(rules.H, rows, rules.checkpoint) && RowsHold(rules, rows, now)
    requires more != [] && now <= later
    requires Extension(rules, View(rules.H, rows, rules.checkpoint), more, later).Some?
    ensures Extension(rules, View(rules.H, rows, rules.checkpoint), more, later).value.cumulative != []
    ensures ViewWork(Extension(rules, View(rules.H, rows, rules.checkpoint), more, later).value)
         >= ViewWork(View(rules.H, rows, rules.checkpoint)) + |more|
  {
    hide RowHolds, Extension, Deterministic, SpansCheckpoint, PowHolds, Ids, Times, Difficulties, Blobs, NewRowsHold,
         Cumulative, RowsHold;
    ExtensionIff(rules, rows, more, now, later);
    SpansInRange(rules.H, rows, rules.checkpoint);
    NewDifficulties(rules, rows, more, later);
    WorkAdds(rows, more, |more|);
    CumulativeKept(rows, more, rules.checkpoint.height - rows[0].height);
    hide Work;
  }

  lemma SpansInRange(H: Hash, rows: seq<HeaderRow>, checkpoint: Checkpoint)
    requires SpansCheckpoint(H, rows, checkpoint)
    ensures rows != [] && 0 <= checkpoint.height - rows[0].height < |rows|
  {
  }

  lemma NewDifficulties(rules: Rules, rows: seq<HeaderRow>, more: seq<HeaderRow>, now: int)
    requires more != [] && NewRowsHold(rules, rows + more, |rows|, now)
    ensures forall i :: 0 <= i < |more| ==> more[i].difficulty >= 1
  {
    hide RowHolds, Ids;
    var all := rows + more;
    forall i | 0 <= i < |more|
      ensures more[i].difficulty >= 1
    {
      assert PowHolds(rules, Ids(rules.H, all), all[0].height, all[|rows| + i]);
    }
  }

  lemma CumulativeKept(rows: seq<HeaderRow>, more: seq<HeaderRow>, c: nat)
    requires c < |rows|
    ensures Cumulative(rows + more)[c] == Cumulative(rows)[c]
    ensures Cumulative(rows)[|rows| - 1] == Work(rows, |rows|)
    ensures Cumulative(rows + more)[|rows + more| - 1] == Work(rows + more, |rows| + |more|)
  {
    var all := rows + more;
    CumulativePrefix(all, |rows|);
    assert all[..|rows|] == rows;
  }
}
