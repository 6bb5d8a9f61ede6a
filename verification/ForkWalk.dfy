/** The share store of one venue (transpeer/anchor/stores.py) and the reader's walk back from
    a venue's tip through shares that untrusted sources serve (transpeer/anchor/reader.py). */
module ForkWalk {
  import opened Bytes
  import opened Sequences

  const VENUE_WINDOW := 2160
  const MAX_SHARE_BATCHES := 40
  const SHARE_PAGE := 64

  /** The parts of a parsed share the store and the walk use. */
  datatype Share = Share(id: Digest, parent: Digest, height: nat, root: Digest)

  type Shares = map<Digest, Share>

  /** Every share is filed under its own id. */
  ghost predicate Filed(shares: Shares) {
    forall id :: id in shares ==> shares[id].id == id
  }

  /** The index by root only leads to stored shares with that root. */
  ghost predicate RootsOk(shares: Shares, byRoot: map<Digest, Digest>) {
    forall r :: r in byRoot ==> byRoot[r] in shares && shares[byRoot[r]].root == r
  }

  /** The index has the root of every stored share. */
  ghost predicate RootsComplete(shares: Shares, byRoot: map<Digest, Digest>) {
    forall id :: id in shares ==> shares[id].root in byRoot
  }

  /** The shares `prune` drops. */
  function StaleShares(shares: Shares, cutoff: int): set<Digest> {
    set id | id in shares && shares[id].height < cutoff
  }

  function RootsOf(shares: Shares, ids: set<Digest>): set<Digest> {
    set id | id in ids && id in shares :: shares[id].root
  }

  /** The roots of what `prune` drops, which leave the index whoever they lead to. */
  function StaleRoots(shares: Shares, cutoff: int): set<Digest> {
    RootsOf(shares, StaleShares(shares, cutoff))
  }

  lemma RootsOfAdd(shares: Shares, ids: set<Digest>, id: Digest)
    requires id in shares
    ensures RootsOf(shares, ids + {id}) == RootsOf(shares, ids) + {shares[id].root}
  {
    var more, roots := RootsOf(shares, ids + {id}), RootsOf(shares, ids);
    forall r | r in more
      ensures r in roots + {shares[id].root}
    {
      var k :| k in ids + {id} && k in shares && shares[k].root == r;
    }
    assert shares[id].root in more;
    forall r | r in roots
      ensures r in more
    {
      var k :| k in ids && k in shares && shares[k].root == r;
      assert k in ids + {id};
    }
  }

  /** One round of the loop of `prune`. */
  lemma PruneOne(shares: Shares, byRoot: map<Digest, Digest>, done: set<Digest>, id: Digest)
    requires id in shares && id !in done
    ensures id in shares - done && (shares - done)[id] == shares[id]
    ensures (shares - done) - {id} == shares - (done + {id})
    ensures (byRoot - RootsOf(shares, done)) - {shares[id].root} == byRoot - RootsOf(shares, done + {id})
  {
    hide RootsOf;
    RootsOfAdd(shares, done, id);
  }

  lemma NoRoots(shares: Shares)
    ensures RootsOf(shares, {}) == {}
  {
  }

  lemma StaleIn(shares: Shares, cutoff: int)
    ensures StaleShares(shares, cutoff) <= shares.Keys
  {
  }

  lemma FiledFewer(shares: Shares, ids: set<Digest>)
    requires Filed(shares)
    ensures Filed(shares - ids)
  {
  }

  /** Dropping shares together with their roots leaves a sound index. */
  lemma PruneKeepsRoots(shares: Shares, byRoot: map<Digest, Digest>, ids: set<Digest>)
    requires RootsOk(shares, byRoot)
    ensures RootsOk(shares - ids, byRoot - RootsOf(shares, ids))
  {
    forall id | id in ids && id in shares
      ensures shares[id].root in RootsOf(shares, ids)
    {
    }
  }

  /** Pruning keeps the index complete exactly when no share that stays has the root of one that
      goes. */
  lemma PruneKeepsIndexIff(shares: Shares, byRoot: map<Digest, Digest>, cutoff: int)
    requires RootsComplete(shares, byRoot)
    ensures
      var shares' := shares - StaleShares(shares, cutoff);
      RootsComplete(shares', byRoot - StaleRoots(shares, cutoff))
      <==> forall id :: id in shares' ==> shares'[id].root !in StaleRoots(shares, cutoff)
  {
    hide StaleRoots;
  }

  /** Where it fails: of two shares with one root the newer one stays and cannot be found any more. */
  lemma PruneLosesRoot(shares: Shares, byRoot: map<Digest, Digest>, cutoff: int, goes: Digest, stays: Digest)
    requires goes in shares && stays in shares && shares[goes].root == shares[stays].root
    requires shares[goes].height < cutoff <= shares[stays].height
    ensures stays in shares - StaleShares(shares, cutoff)
    ensures shares[stays].root !in byRoot - StaleRoots(shares, cutoff)
  {
    assert goes in StaleShares(shares, cutoff);
  }

  /** With a root of its own for each share nothing is lost. */
  lemma DistinctRootsKept(shares: Shares, byRoot: map<Digest, Digest>, cutoff: int)
    requires RootsOk(shares, byRoot) && RootsComplete(shares, byRoot)
    requires forall a, b :: a in shares && b in shares && shares[a].root == shares[b].root ==> a == b
    ensures
      var shares', byRoot' := shares - StaleShares(shares, cutoff), byRoot - StaleRoots(shares, cutoff);
      RootsComplete(shares', byRoot') && forall id :: id in shares' ==> byRoot'[shares'[id].root] == id
  {
    PruneKeepsRoots(shares, byRoot, StaleShares(shares, cutoff));
  }

  /** `walk`: up to `count` shares from `from` along parent links, as far as they are stored. */
  function Walk(shares: Shares, from: Digest, count: nat): (chain: seq<Share>)
    ensures |chain| <= count
    decreases count
  {
    if count == 0 || from !in shares then []
    else [shares[from]] + Walk(shares, shares[from].parent, count - 1)
  }

  /** Is `id` reached from `tip` by following at most `steps` parent links between stored
      shares? */
  ghost predicate Ancestor(shares: Shares, tip: Digest, id: Digest, steps: nat)
    decreases steps
  {
    && tip in shares
    && (tip == id || (steps > 0 && Ancestor(shares, shares[tip].parent, id, steps - 1)))
  }

  class ShareStore {
    var shares: Shares
    var byRoot: map<Digest, Digest>

    ghost predicate Valid()
      reads this
    {
      Filed(shares) && RootsOk(shares, byRoot)
    }

    constructor ()
      ensures Valid() && shares == map[]
    {
      shares, byRoot := map[], map[];
    }

    /** `add`: False for an id that is already there. */
    method Add(share: Share) returns (added: bool)
      requires Valid()
      modifies this
      ensures Valid() && added == (share.id !in old(shares))
      ensures shares == if added then old(shares)[share.id := share] else old(shares)
      ensures byRoot == if added then old(byRoot)[share.root := share.id] else old(byRoot)
    {
      if share.id in shares {
        return false;
      }
      shares := shares[share.id := share];
      byRoot := byRoot[share.root := share.id];
      return true;
    }

    /** `by_root`. */
    method ByRoot(root: Digest) returns (share: Option<Share>)
      requires Valid()
      ensures share.Some? <==> root in byRoot
      ensures share.Some? ==> share.value.root == root && share.value.id in shares && shares[share.value.id] == share.value
    {
      if root !in byRoot {
        return None;
      }
      return Some(shares[byRoot[root]]);
    }

    /** `prune`. */
    method Prune(tipHeight: int, window: int)
      requires Valid()
      modifies this
      ensures Valid()
      ensures shares == old(shares) - StaleShares(old(shares), tipHeight - 4 * window)
      ensures byRoot == old(byRoot) - StaleRoots(old(shares), tipHeight - 4 * window)
    {
      hide StaleShares, RootsOf, RootsOk, Filed;
      var cutoff := tipHeight - 4 * window;
      ghost var shares0, roots0 := shares, byRoot;
      var stale := StaleShares(shares, cutoff);
      ghost var all, done: set<Digest> := stale, {};
      StaleIn(shares, cutoff);
      NoRoots(shares);
      while stale != {}
        invariant stale + done == all && stale !! done
        invariant shares == shares0 - done && byRoot == roots0 - RootsOf(shares0, done)
        decreases |stale|
      {
        var id :| id in stale;
        PruneOne(shares0, roots0, done, id);
        byRoot := byRoot - {shares[id].root};
        shares := shares - {id};
        done := done + {id};
        stale := stale - {id};
      }
      assert done == all;
      PruneKeepsRoots(shares0, roots0, all);
      FiledFewer(shares0, all);
    }

    /** `walk`. */
    method WalkFrom(from: Digest, count: nat) returns (chain: seq<Share>)
      ensures chain == Walk(shares, from, count)
    {
      chain := [];
      var id := from;
      while |chain| < count
        invariant |chain| <= count
        invariant chain + Walk(shares, id, count - |chain|) == Walk(shares, from, count)
      {
        if id !in shares {
          assert chain + [] == chain;
          return;
        }
        Shift(chain, shares[id], Walk(shares, shares[id].parent, count - |chain| - 1));
        chain := chain + [shares[id]];
        id := chain[|chain| - 1].parent;
      }
      assert chain + [] == chain;
    }
  }

  /* ---------- The walk over a source's answers ---------- */

  /** One item of a batch: None stands for bytes that do not parse, name a height outside the
      view, or fail proof-of-work. */
  type Served = Option<Share>

  /** What sources answer: the k-th request of the walk, for shares from `parent` on. It is
      any function, so a source may answer anything at any time. */
  type Answers = (nat, Digest) -> seq<Served>

  /** What one batch leaves: the shares and the number of them that were new. */
  datatype Taken = Taken(shares: Shares, added: nat)

  /** The loop over a batch: items are taken while they parse, continue the chain and go down
      one height at a time; `room` is how many new shares the window still has place for. */
  function TakeBatch(shares: Shares, batch: seq<Served>, expected: Digest, height: Option<nat>, room: nat): Taken
    decreases |batch|
  {
    if batch == [] || batch[0].None? then Taken(shares, 0)
    else
      var s := batch[0].value;
      if s.id != expected || (height.Some? && s.height != height.value - 1) then Taken(shares, 0)
      else
        var isNew := s.id !in shares;
        var next := if isNew then shares[s.id := s] else shares;
        var left := if isNew && room > 0 then room - 1 else room;
        if left == 0 then Taken(next, if isNew then 1 else 0)
        else
          var rest := TakeBatch(next, batch[1..], s.parent, Some(s.height), left);
          Taken(rest.shares, rest.added + if isNew then 1 else 0)
  }

  /** Two shares with the same id name different parents: a collision of the id hash. */
  ghost predicate Conflict(shares: Shares, s: Share) {
    s.id in shares && shares[s.id].parent != s.parent
  }

  /** The first item the loop over a batch takes that conflicts with a stored share, if any; items
      behind the point where the loop stops do not matter. */
  ghost function MetConflict(shares: Shares, batch: seq<Served>, expected: Digest, height: Option<nat>, room: nat)
    : Option<Share>
    decreases |batch|
  {
    if batch == [] || batch[0].None? then None
    else
      var s := batch[0].value;
      if s.id != expected || (height.Some? && s.height != height.value - 1) then None
      else if Conflict(shares, s) then Some(s)
      else
        var isNew := s.id !in shares;
        var next := if isNew then shares[s.id := s] else shares;
        var left := if isNew && room > 0 then room - 1 else room;
        if left == 0 then None else MetConflict(next, batch[1..], s.parent, Some(s.height), left)
  }

  /** Does the loop over a batch take its first item? */
  predicate Takes(batch: seq<Served>, expected: Digest, height: Option<nat>) {
    batch != [] && batch[0].Some? && batch[0].value.id == expected
    && (height.Some? ==> batch[0].value.height == height.value - 1)
  }

  /** The first `k` items begin with the share expected, and each is the parent of the one before it, one
      height lower. */
  ghost predicate Descends(batch: seq<Served>, expected: Digest, height: Option<nat>, k: nat) {
    && k <= |batch| && (forall i :: 0 <= i < k ==> batch[i].Some?)
    && (k > 0 ==> batch[0].value.id == expected && (height.Some? ==> batch[0].value.height + 1 == height.value))
    && forall i :: 0 < i < k ==>
         batch[i].value.id == batch[i - 1].value.parent && batch[i].value.height + 1 == batch[i - 1].value.height
  }

  lemma DescendsTail(batch: seq<Served>, expected: Digest, height: Option<nat>, k: nat)
    ensures Descends(batch, expected, height, 0)
    ensures Descends(batch, expected, height, k + 1)
       <==> Takes(batch, expected, height)
            && Descends(batch[1..], batch[0].value.parent, Some(batch[0].value.height), k)
  {
    if Takes(batch, expected, height) {
      var rest := batch[1..];
      if Descends(batch, expected, height, k + 1) {
        forall i | 0 <= i < k
          ensures rest[i].Some?
        {
          assert rest[i] == batch[i + 1];
        }
        forall i | 0 < i < k
          ensures rest[i].value.id == rest[i - 1].value.parent && rest[i].value.height + 1 == rest[i - 1].value.height
        {
          assert rest[i] == batch[i + 1] && rest[i - 1] == batch[i];
        }
      } else if Descends(rest, batch[0].value.parent, Some(batch[0].value.height), k) {
        forall i | 0 <= i < k + 1
          ensures batch[i].Some?
          ensures i > 0 ==> batch[i].value.id == batch[i - 1].value.parent && batch[i].value.height + 1 == batch[i - 1].value.height
        {
          assert i > 0 ==> batch[i] == rest[i - 1];
          assert i > 1 ==> batch[i - 1] == rest[i - 2];
        }
      }
    }
  }

  /** The conflicting item stands in the batch at the end of an anchored prefix, and conflicts with
      what the store holds after the batch. */
  lemma {:induction false} MetConflictShown(shares: Shares, batch: seq<Served>, expected: Digest, height: Option<nat>, room: nat)
      returns (i: nat)
    requires Filed(shares) && MetConflict(shares, batch, expected, height, room).Some?
    ensures
      var s := MetConflict(shares, batch, expected, height, room).value;
      && i < |batch| && batch[i] == Some(s) && Descends(batch, expected, height, i + 1)
      && Conflict(TakeBatch(shares, batch, expected, height, room).shares, s)
    decreases |batch|
  {
    var head := batch[0].value;
    TakeBatchExtends(shares, batch, expected, height, room);
    hide Descends;
    assert Takes(batch, expected, height);
    if Conflict(shares, head) {
      i := 0;
      DescendsTail(batch[1..], head.parent, Some(head.height), 0);
      DescendsTail(batch, expected, height, 0);
    } else {
      var isNew := head.id !in shares;
      var next := if isNew then shares[head.id := head] else shares;
      var left := if isNew && room > 0 then room - 1 else room;
      i := MetConflictShown(next, batch[1..], head.parent, Some(head.height), left);
      DescendsTail(batch, expected, height, i + 1);
      i := i + 1;
    }
  }

  /** Shares only grow, and what was there stays as it was. */
  ghost predicate Extends(before: Shares, after: Shares) {
    forall id :: id in before ==> id in after && after[id] == before[id]
  }

  lemma NextExtends(shares: Shares, s: Share)
    requires Filed(shares)
    ensures
      var next := if s.id !in shares then shares[s.id := s] else shares;
      Filed(next) && Extends(shares, next) && s.id in next && |next| == |shares| + if s.id in shares then 0 else 1
  {
  }

  lemma TakeStep(shares: Shares, batch: seq<Served>, expected: Digest, height: Option<nat>, room: nat)
    ensures
      var t := TakeBatch(shares, batch, expected, height, room);
      if !Takes(batch, expected, height) then t == Taken(shares, 0)
      else
        var s := batch[0].value;
        var next := if s.id !in shares then shares[s.id := s] else shares;
        var left := if s.id !in shares && room > 0 then room - 1 else room;
        var rest := if left == 0 then Taken(next, 0) else TakeBatch(next, batch[1..], s.parent, Some(s.height), left);
        t == Taken(rest.shares, rest.added + if s.id !in shares then 1 else 0)
  {
  }

  lemma {:induction false} TakeBatchExtends(shares: Shares, batch: seq<Served>, expected: Digest, height: Option<nat>, room: nat)
    requires Filed(shares)
    ensures
      var t := TakeBatch(shares, batch, expected, height, room);
      && Filed(t.shares) && Extends(shares, t.shares)
      && |t.shares| == |shares| + t.added && (room > 0 ==> t.added <= room)
      && (t.added > 0 ==> expected in t.shares)
    decreases |batch|
  {
    TakeStep(shares, batch, expected, height, room);
    if Takes(batch, expected, height) {
      hide TakeBatch, Filed;
      var s := batch[0].value;
      var isNew := s.id !in shares;
      var next := if isNew then shares[s.id := s] else shares;
      var left := if isNew && room > 0 then room - 1 else room;
      NextExtends(shares, s);
      if left > 0 {
        TakeBatchExtends(next, batch[1..], s.parent, Some(s.height), left);
      }
    }
  }

  /** The ids of the first `k` items. */
  ghost function IdsOf(batch: seq<Served>, k: nat): set<Digest>
    requires k <= |batch| && forall i :: 0 <= i < k ==> batch[i].Some?
  {
    set i | 0 <= i < k :: batch[i].value.id
  }

  lemma IdsOfTail(batch: seq<Served>, k: nat)
    requires k < |batch| && forall i :: 0 <= i <= k ==> batch[i].Some?
    ensures forall i :: 0 <= i < k ==> batch[1..][i].Some?
    ensures IdsOf(batch, k + 1) == {batch[0].value.id} + IdsOf(batch[1..], k)
  {
    var rest := batch[1..];
    forall id | id in IdsOf(batch, k + 1)
      ensures id in {batch[0].value.id} + IdsOf(rest, k)
    {
      var i :| 0 <= i < k + 1 && batch[i].value.id == id;
      assert i > 0 ==> rest[i - 1] == batch[i];
    }
    forall id | id in IdsOf(rest, k)
      ensures id in IdsOf(batch, k + 1)
    {
      var i :| 0 <= i < k && rest[i].value.id == id;
      assert batch[i + 1] == rest[i];
    }
  }

  lemma DescendsMeans(batch: seq<Served>, expected: Digest, height: Option<nat>, k: nat)
    requires Descends(batch, expected, height, k)
    ensures k <= |batch| && forall i :: 0 <= i < k ==> batch[i].Some?
  {
  }

  /** What a batch leaves in the store: the items of its longest prefix that descends from the share asked
      for, or as many of them as there is room for. */
  lemma {:induction false} BatchTaken(shares: Shares, batch: seq<Served>, expected: Digest, height: Option<nat>, room: nat)
      returns (k: nat)
    requires room > 0
    ensures
      var t := TakeBatch(shares, batch, expected, height, room);
      && Descends(batch, expected, height, k) && t.shares.Keys == shares.Keys + IdsOf(batch, k)
      && (k == |batch| || t.added == room || !Descends(batch, expected, height, k + 1))
    decreases |batch|
  {
    hide TakeBatch, Descends, IdsOf;
    TakeStep(shares, batch, expected, height, room);
    if !Takes(batch, expected, height) {
      k := 0;
      DescendsTail(batch, expected, height, 0);
      NoIds(batch);
    } else {
      var s := batch[0].value;
      var next := if s.id !in shares then shares[s.id := s] else shares;
      var left := if s.id !in shares then room - 1 else room;
      if left == 0 {
        k := 0;
        DescendsTail(batch[1..], s.parent, Some(s.height), 0);
        NoIds(batch[1..]);
      } else {
        k := BatchTaken(next, batch[1..], s.parent, Some(s.height), left);
        DescendsTail(batch, expected, height, k + 1);
      }
      DescendsTail(batch, expected, height, k);
      DescendsMeans(batch, expected, height, k + 1);
      IdsOfTail(batch, k);
      k := k + 1;
    }
  }

  lemma NoIds(batch: seq<Served>)
    ensures IdsOf(batch, 0) == {}
  {
  }

  lemma {:induction false} AncestorGrows(before: Shares, after: Shares, tip: Digest, id: Digest, steps: nat, more: nat)
    requires Ancestor(before, tip, id, steps) && Extends(before, after) && steps <= more
    ensures Ancestor(after, tip, id, more)
    decreases steps
  {
    if tip != id {
      AncestorGrows(before, after, before[tip].parent, id, steps - 1, more - 1);
    }
  }

  lemma {:induction false} AncestorThen(shares: Shares, tip: Digest, mid: Digest, id: Digest, a: nat, b: nat)
    requires Ancestor(shares, tip, mid, a) && Ancestor(shares, mid, id, b)
    ensures Ancestor(shares, tip, id, a + b)
    decreases a
  {
    if tip == mid {
      AncestorGrows(shares, shares, tip, id, b, a + b);
    } else {
      AncestorThen(shares, shares[tip].parent, mid, id, a - 1, b);
    }
  }

  /** Every share a batch adds is reached from the requested parent, unless the loop met a share
      that conflicts with a stored one. */
  lemma {:induction false} BatchAddsAncestors(shares: Shares, batch: seq<Served>, expected: Digest, height: Option<nat>, room: nat)
    requires Filed(shares) && MetConflict(shares, batch, expected, height, room).None?
    ensures
      var after := TakeBatch(shares, batch, expected, height, room).shares;
      forall id :: id in after && id !in shares ==> Ancestor(after, expected, id, |batch|)
    decreases |batch|
  {
    var after := TakeBatch(shares, batch, expected, height, room).shares;
    if after != shares {
      var s := batch[0].value;
      var isNew := s.id !in shares;
      var next := if isNew then shares[s.id := s] else shares;
      var left := if isNew && room > 0 then room - 1 else room;
      if left > 0 {
        StillFiled(shares, s);
        BatchAddsAncestors(next, batch[1..], s.parent, Some(s.height), left);
        FirstKept(shares, batch, expected, height, room);
        forall id | id in after && id !in shares
          ensures Ancestor(after, expected, id, |batch|)
        {
          if id != s.id {
            assert Ancestor(after, s.parent, id, |batch| - 1);
          }
        }
      }
    }
  }

  /* ---------- Walks ---------- */

  /** The i-th share of a walk is stored under its id, is i parent links above its start, and
      names the next one as its parent. */
  lemma {:induction false} WalkLinks(shares: Shares, from: Digest, count: nat, i: nat)
    requires Filed(shares) && i < |Walk(shares, from, count)|
    ensures
      var chain := Walk(shares, from, count);
      && chain[i].id in shares && shares[chain[i].id] == chain[i]
      && Ancestor(shares, from, chain[i].id, i)
      && (i == 0 ==> chain[i].id == from)
      && (i + 1 < |chain| ==> chain[i + 1].id == chain[i].parent)
    decreases i
  {
    var chain := Walk(shares, from, count);
    var rest := Walk(shares, shares[from].parent, count - 1);
    if i > 0 {
      WalkLinks(shares, shares[from].parent, count - 1, i - 1);
      assert chain[i] == rest[i - 1];
    } else if |chain| > 1 {
      WalkHead(shares, shares[from].parent, count - 1);
      assert chain[1] == rest[0];
    }
  }

  lemma WalkHead(shares: Shares, from: Digest, count: nat)
    requires Filed(shares) && Walk(shares, from, count) != []
    ensures Walk(shares, from, count)[0].id == from
  {
  }

  lemma WalkStep(shares: Shares, from: Digest, count: nat)
    requires from in shares && count > 0
    ensures Walk(shares, from, count) == [shares[from]] + Walk(shares, shares[from].parent, count - 1)
  {
  }

  lemma WalkNone(shares: Shares, from: Digest, count: nat)
    requires from !in shares || count == 0
    ensures Walk(shares, from, count) == []
  {
  }

  /** A walk that ended before its count goes on, in a larger store, from where it ended. */
  lemma {:induction false} WalkGoesOn(before: Shares, after: Shares, from: Digest, count: nat)
    requires Extends(before, after)
    ensures
      var chain := Walk(before, from, count);
      chain != [] && |chain| < count ==>
        Walk(after, from, count) == chain + Walk(after, chain[|chain| - 1].parent, count - |chain|)
    decreases count
  {
    hide Walk;
    if from !in before || count == 0 {
      WalkNone(before, from, count);
    } else {
      assert from in after && after[from] == before[from];
      hide Extends;
      var parent := before[from].parent;
      WalkStep(before, from, count);
      WalkStep(after, from, count);
      WalkGoesOn(before, after, parent, count - 1);
      var rest := Walk(before, parent, count - 1);
      if rest != [] && |rest| < count - 1 {
        Assoc([before[from]], rest, Walk(after, rest[|rest| - 1].parent, count - 1 - |rest|));
      }
    }
  }

  /** After a batch the walk from the requested parent is at least as long as the number of
      shares added, as far as it is allowed to go. */
  lemma {:induction false} BatchLengthens(shares: Shares, batch: seq<Served>, expected: Digest, height: Option<nat>,
                                          room: nat, count: nat)
    requires Filed(shares) && MetConflict(shares, batch, expected, height, room).None?
    ensures
      var t := TakeBatch(shares, batch, expected, height, room);
      |Walk(t.shares, expected, count)| >= if t.added < count then t.added else count
    decreases |batch|
  {
    hide Walk, Conflict, Filed, Extends;
    var t := TakeBatch(shares, batch, expected, height, room);
    if t.added > 0 && count > 0 {
      var s := batch[0].value;
      var isNew := s.id !in shares;
      var next := if isNew then shares[s.id := s] else shares;
      var left := if isNew && room > 0 then room - 1 else room;
      AddedChanges(shares, batch, expected, height, room);
      FirstKept(shares, batch, expected, height, room);
      WalkStep(t.shares, expected, count);
      if left > 0 {
        StillFiled(shares, s);
        BatchLengthens(next, batch[1..], s.parent, Some(s.height), left, count - 1);
      }
    }
  }

  lemma StillFiled(shares: Shares, s: Share)
    requires Filed(shares)
    ensures Filed(shares[s.id := s])
  {
  }

  /** The first item of a batch that changed the store is stored, with its own parent. */
  lemma FirstKept(shares: Shares, batch: seq<Served>, expected: Digest, height: Option<nat>, room: nat)
    requires Filed(shares) && TakeBatch(shares, batch, expected, height, room).shares != shares
    requires MetConflict(shares, batch, expected, height, room).None?
    ensures
      var after := TakeBatch(shares, batch, expected, height, room).shares;
      expected in after && after[expected].parent == batch[0].value.parent
  {
    var s := batch[0].value;
    var isNew := s.id !in shares;
    var next := if isNew then shares[s.id := s] else shares;
    var left := if isNew && room > 0 then room - 1 else room;
    assert next[expected].parent == s.parent;
    if left > 0 {
      StillFiled(shares, s);
      TakeBatchExtends(next, batch[1..], s.parent, Some(s.height), left);
    }
  }

  lemma AddedChanges(shares: Shares, batch: seq<Served>, expected: Digest, height: Option<nat>, room: nat)
    requires Filed(shares) && TakeBatch(shares, batch, expected, height, room).added > 0
    ensures TakeBatch(shares, batch, expected, height, room).shares != shares
  {
    TakeBatchExtends(shares, batch, expected, height, room);
  }

  ghost predicate IsAncestor(shares: Shares, tip: Digest, id: Digest) {
    exists steps: nat :: Ancestor(shares, tip, id, steps)
  }

  /** Every share that is in `after` but not in `before` is an ancestor of `tip`. */
  ghost predicate OnlyAncestorsAdded(before: Shares, after: Shares, tip: Digest) {
    forall id :: id in after && id !in before ==> IsAncestor(after, tip, id)
  }

  /** One batch, requested from where the walk ended, adds only ancestors of the tip. */
  lemma BatchKeepsAncestors(first: Shares, shares: Shares, tip: Digest, batch: seq<Served>, room: nat)
    requires Filed(shares) && OnlyAncestorsAdded(first, shares, tip)
    requires
      var chain := Walk(shares, tip, VENUE_WINDOW);
      && chain != [] && |chain| < VENUE_WINDOW
      && MetConflict(shares, batch, chain[|chain| - 1].parent, None, room).None?
    ensures
      var chain := Walk(shares, tip, VENUE_WINDOW);
      var t := TakeBatch(shares, batch, chain[|chain| - 1].parent, None, room);
      && OnlyAncestorsAdded(first, t.shares, tip)
      && (t.added <= VENUE_WINDOW - |chain| ==> |Walk(t.shares, tip, VENUE_WINDOW)| >= |chain| + t.added)
  {
    hide Walk, TakeBatch, MetConflict, Ancestor, OnlyAncestorsAdded, Filed, Extends;
    BatchExtendsWalk(shares, tip, batch, room);
    var chain := Walk(shares, tip, VENUE_WINDOW);
    var n := |chain|;
    var parent := chain[n - 1].parent;
    var t := TakeBatch(shares, batch, parent, None, room);
    TakeBatchExtends(shares, batch, parent, None, room);
    BatchAddsAncestors(shares, batch, parent, None, room);
    WalkLinks(shares, tip, VENUE_WINDOW, n - 1);
    AncestorsJoin(first, shares, t.shares, tip, chain[n - 1].id, n - 1, |batch|);
  }

  /** What was added before stays an ancestor, and what is an ancestor of the last share's parent is one
      of the tip. */
  lemma AncestorsJoin(first: Shares, shares: Shares, after: Shares, tip: Digest, last: Digest, a: nat, b: nat)
    requires OnlyAncestorsAdded(first, shares, tip) && Extends(shares, after)
    requires last in shares && Ancestor(shares, tip, last, a)
    requires forall id :: id in after && id !in shares ==> Ancestor(after, shares[last].parent, id, b)
    ensures OnlyAncestorsAdded(first, after, tip)
  {
    hide Ancestor, IsAncestor;
    AncestorGrows(shares, after, tip, last, a, a);
    forall id | id in after && id !in first
      ensures IsAncestor(after, tip, id)
    {
      if id in shares {
        OldAncestor(shares, after, tip, id);
      } else {
        AncestorThrough(after, tip, last, id, a, b);
      }
    }
  }

  /** The walk from the tip grows by what the batch added. */
  lemma BatchExtendsWalk(shares: Shares, tip: Digest, batch: seq<Served>, room: nat)
    requires Filed(shares)
    requires
      var chain := Walk(shares, tip, VENUE_WINDOW);
      && chain != [] && |chain| < VENUE_WINDOW
      && MetConflict(shares, batch, chain[|chain| - 1].parent, None, room).None?
    ensures
      var chain := Walk(shares, tip, VENUE_WINDOW);
      var t := TakeBatch(shares, batch, chain[|chain| - 1].parent, None, room);
      t.added <= VENUE_WINDOW - |chain| ==> |Walk(t.shares, tip, VENUE_WINDOW)| >= |chain| + t.added
  {
    hide Walk, TakeBatch, MetConflict, Filed, Extends;
    var chain := Walk(shares, tip, VENUE_WINDOW);
    var n := |chain|;
    var parent := chain[n - 1].parent;
    TakeBatchExtends(shares, batch, parent, None, room);
    BatchLengthens(shares, batch, parent, None, room, VENUE_WINDOW - n);
    WalkGoesOn(shares, TakeBatch(shares, batch, parent, None, room).shares, tip, VENUE_WINDOW);
  }

  /** An ancestor of the parent of an ancestor. */
  lemma AncestorThrough(shares: Shares, tip: Digest, mid: Digest, id: Digest, a: nat, b: nat)
    requires Ancestor(shares, tip, mid, a) && mid in shares && Ancestor(shares, shares[mid].parent, id, b)
    ensures IsAncestor(shares, tip, id)
  {
    hide Ancestor;
    StepToParent(shares, mid, id, b);
    AncestorThen(shares, tip, mid, id, a, b + 1);
  }

  lemma OldAncestor(shares: Shares, after: Shares, tip: Digest, id: Digest)
    requires IsAncestor(shares, tip, id) && Extends(shares, after)
    ensures IsAncestor(after, tip, id)
  {
    var steps: nat :| Ancestor(shares, tip, id, steps);
    AncestorGrows(shares, after, tip, id, steps, steps);
  }

  lemma StepToParent(shares: Shares, child: Digest, id: Digest, steps: nat)
    requires child in shares && Ancestor(shares, shares[child].parent, id, steps)
    ensures Ancestor(shares, child, id, steps + 1)
  {
  }

  /** A request of the walk: how many were made up to it, and the parent it asks for. */
  datatype Request = Request(number: nat, parent: Digest)

  /* ---------- Progress ---------- */

  /** An answer that does not begin with the share asked for. */
  predicate Useless(batch: seq<Served>, parent: Digest) {
    batch == [] || batch[0].None? || batch[0].value.id != parent
  }

  lemma UselessAddsNothing(shares: Shares, batch: seq<Served>, parent: Digest, room: nat)
    requires Filed(shares) && parent !in shares && room > 0
    ensures TakeBatch(shares, batch, parent, None, room).added == 0 <==> Useless(batch, parent)
  {
    hide Filed;
    TakeStep(shares, batch, parent, None, room);
  }

  /** The last `n` requests asked for `parent` and got nothing of use. */
  ghost predicate NothingFrom(answers: Answers, asked: seq<Request>, parent: Digest, n: nat) {
    n <= |asked|
    && forall i :: |asked| - n <= i < |asked| ==>
         asked[i].parent == parent && Useless(answers(asked[i].number, parent), parent)
  }

  lemma NothingAgain(answers: Answers, asked: seq<Request>, r: Request, n: nat)
    requires NothingFrom(answers, asked, r.parent, n) && Useless(answers(r.number, r.parent), r.parent)
    ensures NothingFrom(answers, asked + [r], r.parent, n + 1)
  {
  }

  /** Only parents that are not the zero id, and not stored at the start, are asked for. */
  ghost predicate AskedRightly(first: Shares, asked: seq<Request>) {
    forall i :: 0 <= i < |asked| ==> asked[i].parent != Zeros(32) && asked[i].parent !in first
  }

  /** Shares linked by their parents, one height at a time, with different ids. */
  ghost predicate Line(line: seq<Share>) {
    && line != []
    && (forall i :: 0 <= i < |line| - 1 ==> line[i].parent == line[i + 1].id && line[i].height == line[i + 1].height + 1)
    && (forall i, j :: 0 <= i < j < |line| ==> line[i].id != line[j].id)
    && (forall i :: 0 <= i < |line| ==> line[i].id != Zeros(32) && line[i].id != line[|line| - 1].parent)
  }

  /** Up to 64 shares of the line from the `i`-th on. */
  function Page(line: seq<Share>, i: nat): (page: seq<Served>)
    requires i <= |line|
    ensures |page| == if |line| - i <= SHARE_PAGE then |line| - i else SHARE_PAGE
  {
    seq(if |line| - i <= SHARE_PAGE then |line| - i else SHARE_PAGE, j requires 0 <= j < |line| - i => Some(line[i + j]))
  }

  /** Every answer is the next page of the line; behind its end nothing is served. */
  ghost predicate ServesLine(answers: Answers, line: seq<Share>) {
    && line != []
    && (forall k: nat, i: nat :: 0 < i < |line| ==> answers(k, line[i].id) == Page(line, i))
    && ServesNothing(answers, line[|line| - 1].parent)
  }

  ghost predicate ServesNothing(answers: Answers, parent: Digest) {
    forall k: nat :: Useless(answers(k, parent), parent)
  }

  /** What the store has of the line is as in the line, and it has its first share; it does not go on
      behind it. */
  ghost predicate OnLine(shares: Shares, line: seq<Share>) {
    && line != [] && line[0].id in shares && line[|line| - 1].parent !in shares
    && forall i :: 0 <= i < |line| && line[i].id in shares ==> shares[line[i].id] == line[i]
  }

  /** The walk runs along the line until something is missing or it is long enough. */
  lemma SliceStep<T>(s: seq<T>, i: nat, n: nat)
    requires i + 1 + n <= |s|
    ensures [s[i]] + s[i + 1..i + 1 + n] == s[i..i + 1 + n]
  {
  }

  /** The walk follows the line from its `i`-th share as far as it is stored. */
  ghost predicate FollowsLine(shares: Shares, line: seq<Share>, i: nat, count: nat, chain: seq<Share>) {
    && i + |chain| <= |line| && chain == line[i..i + |chain|]
    && (|chain| < count && i + |chain| < |line| ==> line[i + |chain|].id !in shares)
  }

  lemma FollowsStep(shares: Shares, line: seq<Share>, i: nat, count: nat, rest: seq<Share>)
    requires i < |line| && count > 0 && FollowsLine(shares, line, i + 1, count - 1, rest)
    ensures FollowsLine(shares, line, i, count, [line[i]] + rest)
  {
    SliceStep(line, i, |rest|);
  }

  lemma {:induction false} WalkOnLine(shares: Shares, line: seq<Share>, i: nat, count: nat)
    requires Line(line) && OnLine(shares, line) && i < |line|
    ensures FollowsLine(shares, line, i, count, Walk(shares, line[i].id, count))
    decreases |line| - i
  {
    if count == 0 || line[i].id !in shares {
      WalkNone(shares, line[i].id, count);
    } else {
      hide Walk, FollowsLine;
      WalkStep(shares, line[i].id, count);
      assert shares[line[i].id] == line[i];
      if i + 1 < |line| {
        LineNext(line, i);
        hide Line, OnLine;
        WalkOnLine(shares, line, i + 1, count - 1);
        FollowsStep(shares, line, i, count, Walk(shares, line[i + 1].id, count - 1));
      } else {
        WalkNone(shares, line[i].parent, count - 1);
        NothingFollows(shares, line, count - 1);
        FollowsStep(shares, line, i, count, []);
      }
    }
  }

  lemma NothingFollows(shares: Shares, line: seq<Share>, count: nat)
    ensures FollowsLine(shares, line, |line|, count, [])
  {
  }

  lemma OnLineAdd(shares: Shares, line: seq<Share>, i: nat)
    requires Line(line) && OnLine(shares, line) && i < |line|
    ensures OnLine(if line[i].id !in shares then shares[line[i].id := line[i]] else shares, line)
  {
  }

  /** The next share of a line continues it. */
  lemma LineNext(line: seq<Share>, i: nat)
    requires Line(line) && i + 1 < |line|
    ensures line[i].parent == line[i + 1].id && line[i].height == line[i + 1].height + 1
  {
  }

  /** The batch is the line from `i` on. */
  ghost predicate OfLine(batch: seq<Served>, line: seq<Share>, i: nat) {
    i + |batch| <= |line| && forall j :: 0 <= j < |batch| ==> batch[j] == Some(line[i + j])
  }

  lemma OfLineTail(batch: seq<Served>, line: seq<Share>, i: nat)
    requires OfLine(batch, line, i) && batch != []
    ensures i < |line| && batch[0] == Some(line[i]) && OfLine(batch[1..], line, i + 1)
    ensures |batch| == 1 ==> batch[1..] == []
    ensures |batch| > 1 ==> i + 1 < |line|
  {
  }

  function WithShare(shares: Shares, s: Share): Shares {
    if s.id !in shares then shares[s.id := s] else shares
  }

  function RoomAfter(shares: Shares, s: Share, room: nat): nat
    requires room > 0
  {
    if s.id !in shares then room - 1 else room
  }

  /** The first share of a page is taken, and the rest of the page from there. */
  lemma FirstTaken(shares: Shares, line: seq<Share>, i: nat, batch: seq<Served>, height: Option<nat>, room: nat)
    requires Line(line) && Filed(shares) && OnLine(shares, line) && OfLine(batch, line, i) && batch != [] && room > 0
    requires i < |line| && (height.Some? ==> height.value == line[i].height + 1)
    ensures
      var s := line[i];
      var next, left := WithShare(shares, s), RoomAfter(shares, s, room);
      && Filed(next) && OnLine(next, line) && s.id in next && OfLine(batch[1..], line, i + 1) && left >= room - 1
      && (|batch| > 1 ==> i + 1 < |line| && s.parent == line[i + 1].id && s.height == line[i + 1].height + 1)
      && TakeBatch(shares, batch, s.id, height, room).shares
         == if left == 0 || |batch| == 1 then next else TakeBatch(next, batch[1..], s.parent, Some(s.height), left).shares
  {
    hide TakeBatch, Filed, Line, OnLine, OfLine, Extends;
    var s := line[i];
    TakeStep(shares, batch, s.id, height, room);
    OfLineTail(batch, line, i);
    NextExtends(shares, s);
    OnLineAdd(shares, line, i);
    if |batch| > 1 {
      LineNext(line, i);
    } else {
      TakeNone(WithShare(shares, s), s.parent, Some(s.height), RoomAfter(shares, s, room));
    }
  }

  /** The loop over a page stores it, as far as the window has room. */
  lemma {:induction false} TakePage(shares: Shares, line: seq<Share>, i: nat, batch: seq<Served>, height: Option<nat>, room: nat)
      returns (k: nat)
    requires Line(line) && Filed(shares) && OnLine(shares, line) && OfLine(batch, line, i) && room > 0
    requires i < |line| && (height.Some? ==> height.value == line[i].height + 1)
    ensures
      var t := TakeBatch(shares, batch, line[i].id, height, room);
      OnLine(t.shares, line) && k <= |batch| && (k == |batch| || k >= room) && HasPart(t.shares, line, i, i + k)
    decreases |batch|
  {
    hide TakeBatch, Filed, Line, OnLine, HasPart, OfLine, Extends, WithShare, RoomAfter;
    if batch == [] {
      k := 0;
      TakeNone(shares, line[i].id, height, room);
      NoPart(shares, line, i);
    } else {
      FirstTaken(shares, line, i, batch, height, room);
      var s := line[i];
      var next, left := WithShare(shares, s), RoomAfter(shares, s, room);
      if left == 0 || |batch| == 1 {
        k := 1;
        OnePart(next, next, line, i, 1);
      } else {
        TakeBatchExtends(next, batch[1..], s.parent, Some(s.height), left);
        k := TakePage(next, line, i + 1, batch[1..], Some(s.height), left);
        k := k + 1;
        OnePart(next, TakeBatch(next, batch[1..], s.parent, Some(s.height), left).shares, line, i, k);
      }
    }
  }

  /** The store has the shares `from` up to `to` of the line. */
  ghost predicate HasPart(shares: Shares, line: seq<Share>, from: nat, to: nat) {
    to <= |line| && forall j :: from <= j < to ==> line[j].id in shares
  }

  lemma NoPart(shares: Shares, line: seq<Share>, i: nat)
    requires i <= |line|
    ensures HasPart(shares, line, i, i)
  {
  }

  lemma OnePart(shares: Shares, after: Shares, line: seq<Share>, i: nat, k: nat)
    requires 1 <= k && i < |line| && line[i].id in shares
    requires Extends(shares, after) || shares == after
    requires k == 1 || HasPart(after, line, i + 1, i + k)
    ensures HasPart(after, line, i, i + k)
  {
  }

  lemma TakeNone(shares: Shares, expected: Digest, height: Option<nat>, room: nat)
    ensures TakeBatch(shares, [], expected, height, room) == Taken(shares, 0)
  {
  }

  /** One request while the line goes on: a page more, or the window is full. */
  lemma PageLengthens(shares: Shares, line: seq<Share>, answers: Answers, number: nat)
    requires Line(line) && Filed(shares) && OnLine(shares, line) && ServesLine(answers, line)
    requires
      var n := |Walk(shares, line[0].id, VENUE_WINDOW)|;
      0 < n < VENUE_WINDOW && n < |line|
    ensures
      var n := |Walk(shares, line[0].id, VENUE_WINDOW)|;
      var t := TakeBatch(shares, answers(number, line[n].id), line[n].id, None, VENUE_WINDOW - n);
      && line[n].id !in shares && t.added > 0 && OnLine(t.shares, line)
      && Reaches(|Walk(t.shares, line[0].id, VENUE_WINDOW)|, |line|, n + SHARE_PAGE)
  {
    hide Walk, TakeBatch, Filed, Line, OnLine, Extends, HasPart;
    var n := |Walk(shares, line[0].id, VENUE_WINDOW)|;
    var batch := answers(number, line[n].id);
    var room := VENUE_WINDOW - n;
    FirstOfLine(shares, line);
    WalkOnLine(shares, line, 0, VENUE_WINDOW);
    assert batch == Page(line, n) && OfLine(batch, line, n);
    hide ServesLine, OfLine, Page;
    UselessAddsNothing(shares, batch, line[n].id, room);
    TakeBatchExtends(shares, batch, line[n].id, None, room);
    var k := TakePage(shares, line, n, batch, None, room);
    var after := TakeBatch(shares, batch, line[n].id, None, room).shares;
    WalkStored(shares, after, line, 0, VENUE_WINDOW);
    JoinParts(after, line, n, n + k);
    WalkOnLine(after, line, 0, VENUE_WINDOW);
    WalkPast(after, line, n + k);
  }

  lemma FirstOfLine(shares: Shares, line: seq<Share>)
    requires OnLine(shares, line)
    ensures line != [] && line[0].id in shares
  {
  }

  lemma JoinParts(shares: Shares, line: seq<Share>, n: nat, m: nat)
    requires HasPart(shares, line, 0, n) && HasPart(shares, line, n, m) && n <= m
    ensures HasPart(shares, line, 0, m)
  {
  }

  /** The walk passes everything of the line that is stored without a gap. */
  lemma WalkPast(shares: Shares, line: seq<Share>, m: nat)
    requires Line(line) && OnLine(shares, line) && HasPart(shares, line, 0, m)
    ensures Reaches(|Walk(shares, line[0].id, VENUE_WINDOW)|, |line|, m)
  {
    hide Walk, Line, OnLine;
    FirstOfLine(shares, line);
    WalkOnLine(shares, line, 0, VENUE_WINDOW);
  }

  /** What was walked over is stored, and stays. */
  lemma {:induction false} WalkStored(shares: Shares, after: Shares, line: seq<Share>, i: nat, count: nat)
    requires Line(line) && OnLine(shares, line) && Extends(shares, after) && i < |line|
    ensures HasPart(after, line, i, i + |Walk(shares, line[i].id, count)|)
    decreases |line| - i
  {
    WalkOnLine(shares, line, i, count);
    if line[i].id in shares && count > 0 {
      hide Walk;
      WalkStep(shares, line[i].id, count);
      assert shares[line[i].id] == line[i] && line[i].id in after;
      if i + 1 < |line| {
        LineNext(line, i);
        hide Line, OnLine, Extends;
        WalkStored(shares, after, line, i + 1, count - 1);
      } else {
        WalkNone(shares, line[i].parent, count - 1);
      }
    }
  }

  /** `length` is as long as a line and the window allow, or at least `target`. */
  predicate Reaches(length: nat, line: nat, target: nat) {
    length >= target || length >= line || length >= VENUE_WINDOW
  }

  /** A request made while the store is on the line. */
  lemma RequestOnLine(shares: Shares, line: seq<Share>, answers: Answers, tip: Digest, number: nat)
    requires Line(line) && Filed(shares) && OnLine(shares, line) && ServesLine(answers, line) && line[0].id == tip
    requires 0 < |Walk(shares, tip, VENUE_WINDOW)| < VENUE_WINDOW
    ensures
      var chain := Walk(shares, tip, VENUE_WINDOW);
      var n, parent := |chain|, chain[|chain| - 1].parent;
      var t := TakeBatch(shares, answers(number, parent), parent, None, VENUE_WINDOW - n);
      && n <= |line| && OnLine(t.shares, line) && (t.added == 0 <==> n == |line|)
      && (n < |line| ==> Reaches(|Walk(t.shares, tip, VENUE_WINDOW)|, |line|, n + SHARE_PAGE))
  {
    hide Walk, TakeBatch, Filed, Line, OnLine, Reaches;
    var chain := Walk(shares, tip, VENUE_WINDOW);
    var n := |chain|;
    WalkOnLine(shares, line, 0, VENUE_WINDOW);
    var parent := chain[n - 1].parent;
    assert chain[n - 1] == line[n - 1];
    if n < |line| {
      LineNext(line, n - 1);
      PageLengthens(shares, line, answers, number);
    } else {
      EndNotStored(shares, line);
      UselessAddsNothing(shares, answers(number, parent), parent, VENUE_WINDOW - n);
      TakeStep(shares, answers(number, parent), parent, None, VENUE_WINDOW - n);
    }
  }

  lemma EndNotStored(shares: Shares, line: seq<Share>)
    requires OnLine(shares, line)
    ensures line != [] && line[|line| - 1].parent !in shares
  {
  }

  /** The tip is the first share of a line that every source serves and the store is on. */
  ghost predicate LineServed(shares: Shares, tip: Digest, sources: nat, answers: Answers, line: seq<Share>) {
    sources > 0 && Line(line) && OnLine(shares, line) && ServesLine(answers, line) && line[0].id == tip
  }

  /** While the line is served: the store stays on it, and each request made reached a page further. */
  ghost predicate LineFollowed(shares: Shares, tip: Digest, line: seq<Share>, requests: nat) {
    OnLine(shares, line) && Reaches(|Walk(shares, tip, VENUE_WINDOW)|, |line|, 1 + SHARE_PAGE * requests)
  }

  /* ---------- step 4 of the reader ---------- */

  /** The inner loop over one batch, on the store. */
  method AddBatch(store: ShareStore, batch: seq<Served>, parent: Digest, chainLength: nat) returns (added: nat)
    requires store.Valid() && chainLength < VENUE_WINDOW
    modifies store
    ensures store.Valid()
    ensures
      var t := TakeBatch(old(store.shares), batch, parent, None, VENUE_WINDOW - chainLength);
      store.shares == t.shares && added == t.added
  {
    added := 0;
    var expected, height: Option<nat> := parent, None;
    ghost var whole := TakeBatch(store.shares, batch, parent, None, VENUE_WINDOW - chainLength);
    assert batch[0..] == batch;
    for i := 0 to |batch|
      invariant store.Valid() && chainLength + added < VENUE_WINDOW
      invariant
        var t := TakeBatch(store.shares, batch[i..], expected, height, VENUE_WINDOW - chainLength - added);
        whole == Taken(t.shares, added + t.added)
    {
      DropOne(batch, i);
      if batch[i].None? {
        return;
      }
      var share := batch[i].value;
      if share.id != expected || (height.Some? && share.height != height.value - 1) {
        return;
      }
      var isNew := store.Add(share);
      if isNew {
        added := added + 1;
      }
      expected, height := share.parent, Some(share.height);
      if chainLength + added >= VENUE_WINDOW {
        return;
      }
    }
  }

  /** `s` stands in the answer to the request, at the end of a prefix the loop accepts. */
  ghost predicate Serves(answers: Answers, r: Request, s: Share) {
    var batch := answers(r.number, r.parent);
    exists i :: 0 <= i < |batch| && batch[i] == Some(s) && Descends(batch, r.parent, None, i + 1)
  }

  /** A conflict is a share that one of the requests made brought in and the loop took. */
  ghost predicate ConflictShown(shares: Shares, answers: Answers, asked: seq<Request>, conflict: Option<Share>) {
    conflict.Some? ==>
      Conflict(shares, conflict.value) && exists i :: 0 <= i < |asked| && Serves(answers, asked[i], conflict.value)
  }

  ghost predicate Numbered(asked: seq<Request>) {
    forall i :: 0 <= i < |asked| ==> asked[i].number == i + 1
  }

  /** The walk stopped for a reason: it is empty or a window long, its last parent is the zero id or
      stored, all requests are used up, or every source was asked for that parent last and in vain. */
  ghost predicate Exhausted(shares: Shares, chain: seq<Share>, sources: nat, answers: Answers, asked: seq<Request>) {
    || chain == [] || |chain| >= VENUE_WINDOW || |asked| >= MAX_SHARE_BATCHES
    || chain[|chain| - 1].parent == Zeros(32) || chain[|chain| - 1].parent in shares
    || NothingFrom(answers, asked, chain[|chain| - 1].parent, sources)
  }

  /** `_step4_canonical_fork` for one venue, against any answers: it ends, the chain it returns
      is the walk on the store it leaves, linked from the tip and at most one window long, and
      every share it added is an ancestor of the tip, at most a window's worth of them; unless
      the loop took, from the answer to a request it made, a share that has the id of a stored one
      and another parent. It asks for what is missing and only that, and stops for a reason; when every
      source serves one line of shares from the tip on, the chain is that line, as far as a window
      goes: the bound on requests is never what ends it. */
  method CanonicalFork(store: ShareStore, tip: Digest, sources: nat, answers: Answers, ghost line: seq<Share>)
    returns (chain: seq<Share>, ghost asked: seq<Request>, ghost conflict: Option<Share>)
    requires store.Valid()
    modifies store
    ensures store.Valid() && Extends(old(store.shares), store.shares)
    ensures chain == Walk(store.shares, tip, VENUE_WINDOW)
    ensures Numbered(asked) && |asked| < MAX_SHARE_BATCHES + sources
    ensures ConflictShown(store.shares, answers, asked, conflict)
    ensures conflict.None? ==>
      && OnlyAncestorsAdded(old(store.shares), store.shares, tip)
      && |store.shares| - |old(store.shares)| + |Walk(old(store.shares), tip, VENUE_WINDOW)| <= VENUE_WINDOW
    ensures AskedRightly(old(store.shares), asked) && Exhausted(store.shares, chain, sources, answers, asked)
    ensures LineServed(old(store.shares), tip, sources, answers, line) ==>
      chain == line[..if |line| <= VENUE_WINDOW then |line| else VENUE_WINDOW]
  {
    hide Walk, TakeBatch, OnlyAncestorsAdded, Progress, ConflictShown, Filed, Extends, LineServed, LineFollowed,
         NothingFrom, AskedRightly;
    chain := store.WalkFrom(tip, VENUE_WINDOW);
    conflict, asked := None, [];
    var batches: nat := 0;
    ghost var first := store.shares;
    ghost var base := |chain|;
    StartOfWalk(first, tip, answers);
    StartOfLine(first, tip, sources, answers, line);
    while chain != [] && |chain| < VENUE_WINDOW && batches < MAX_SHARE_BATCHES
      invariant store.Valid() && Extends(first, store.shares)
      invariant chain == Walk(store.shares, tip, VENUE_WINDOW)
      invariant Numbered(asked) && |asked| == batches < MAX_SHARE_BATCHES + sources
      invariant ConflictShown(store.shares, answers, asked, conflict)
      invariant conflict.None? ==> Progress(first, store.shares, tip, base)
      invariant AskedRightly(first, asked)
      invariant LineServed(first, tip, sources, answers, line) ==> LineFollowed(store.shares, tip, line, batches)
      decreases MAX_SHARE_BATCHES - batches
    {
      var parent := chain[|chain| - 1].parent;
      if parent == Zeros(32) || parent in store.shares {
        break;
      }
      var added: nat, count: nat;
      added, count, asked, conflict :=
        AskSources(store, tip, chain, sources, answers, batches, first, base, asked, conflict, line);
      batches := batches + count;
      if added == 0 {
        break;
      }
      chain := store.WalkFrom(tip, VENUE_WINDOW);
    }
    EndOfWalk(first, store.shares, tip, base, conflict);
    EndOfLine(first, store.shares, tip, sources, answers, line, asked);
  }

  lemma StartOfLine(shares: Shares, tip: Digest, sources: nat, answers: Answers, line: seq<Share>)
    ensures AskedRightly(shares, [])
    ensures LineServed(shares, tip, sources, answers, line) ==> LineFollowed(shares, tip, line, 0)
  {
  }

  /** Where the walk can stop on a line that is served. */
  lemma EndOfLine(first: Shares, shares: Shares, tip: Digest, sources: nat, answers: Answers, line: seq<Share>,
                  asked: seq<Request>)
    requires Exhausted(shares, Walk(shares, tip, VENUE_WINDOW), sources, answers, asked)
    requires LineServed(first, tip, sources, answers, line) ==> LineFollowed(shares, tip, line, |asked|)
    ensures LineServed(first, tip, sources, answers, line) ==>
      Walk(shares, tip, VENUE_WINDOW) == line[..if |line| <= VENUE_WINDOW then |line| else VENUE_WINDOW]
  {
    hide Walk, Line, OnLine, ServesLine, NothingFrom;
    if LineServed(first, tip, sources, answers, line) {
      var chain := Walk(shares, tip, VENUE_WINDOW);
      FirstOfLine(shares, line);
      WalkOnLine(shares, line, 0, VENUE_WINDOW);
      if chain != [] && |chain| < VENUE_WINDOW && |chain| < |line| {
        assert chain[|chain| - 1] == line[|chain| - 1];
        LineNext(line, |chain| - 1);
        LineIds(line, |chain|);
        GoesOn(answers, line, |chain|, asked, sources);
      }
    }
  }

  lemma LineIds(line: seq<Share>, i: nat)
    requires Line(line) && i < |line|
    ensures line[i].id != Zeros(32)
  {
  }

  /** No source is in vain while the line goes on. */
  lemma GoesOn(answers: Answers, line: seq<Share>, i: nat, asked: seq<Request>, sources: nat)
    requires ServesLine(answers, line) && 0 < i < |line| && sources > 0
    ensures !NothingFrom(answers, asked, line[i].id, sources)
  {
    if asked != [] {
      assert answers(asked[|asked| - 1].number, line[i].id) == Page(line, i);
    }
  }

  lemma StartOfWalk(shares: Shares, tip: Digest, answers: Answers)
    ensures Extends(shares, shares) && ConflictShown(shares, answers, [], None)
    ensures Progress(shares, shares, tip, |Walk(shares, tip, VENUE_WINDOW)|)
  {
  }

  lemma EndOfWalk(first: Shares, shares: Shares, tip: Digest, base: nat, conflict: Option<Share>)
    requires conflict.None? ==> Progress(first, shares, tip, base)
    ensures conflict.None? ==>
      OnlyAncestorsAdded(first, shares, tip) && |shares| - |first| + base <= VENUE_WINDOW
  {
  }

  /** The sources are asked in turn until one batch adds a share; every request counts, so at
      least one is counted when something was added, and all of them when nothing was. */
  method AskSources(store: ShareStore, tip: Digest, chain: seq<Share>, sources: nat, answers: Answers, batches: nat,
                    ghost first: Shares, ghost base: nat, ghost asked0: seq<Request>, ghost conflict0: Option<Share>,
                    ghost line: seq<Share>)
    returns (added: nat, count: nat, ghost asked: seq<Request>, ghost conflict: Option<Share>)
    requires store.Valid() && Extends(first, store.shares) && ConflictShown(store.shares, answers, asked0, conflict0)
    requires conflict0.None? ==> Progress(first, store.shares, tip, base)
    requires chain == Walk(store.shares, tip, VENUE_WINDOW) && chain != [] && |chain| < VENUE_WINDOW
    requires Numbered(asked0) && batches == |asked0| && AskedRightly(first, asked0)
    requires chain[|chain| - 1].parent != Zeros(32) && chain[|chain| - 1].parent !in store.shares
    requires LineServed(first, tip, sources, answers, line) ==> LineFollowed(store.shares, tip, line, batches)
    modifies store
    ensures store.Valid() && Extends(first, store.shares) && ConflictShown(store.shares, answers, asked, conflict)
    ensures conflict.None? ==> Progress(first, store.shares, tip, base)
    ensures Numbered(asked) && asked0 <= asked && |asked| == |asked0| + count && count <= sources
    ensures added > 0 ==> count > 0
    ensures added == 0 ==> store.shares == old(store.shares)
                           && NothingFrom(answers, asked, chain[|chain| - 1].parent, sources)
    ensures AskedRightly(first, asked)
    ensures LineServed(first, tip, sources, answers, line) ==> LineFollowed(store.shares, tip, line, batches + count)
  {
    hide Walk, TakeBatch, OnlyAncestorsAdded, Progress, ConflictShown, Filed, Extends, LineServed, LineFollowed,
         NothingFrom, AskedRightly, Useless;
    var parent := chain[|chain| - 1].parent;
    added, count, asked, conflict := 0, 0, asked0, conflict0;
    NothingYet(answers, asked0, parent);
    while count < sources
      invariant count <= sources && added == 0 && store.Valid() && Extends(first, store.shares)
      invariant Numbered(asked) && asked0 <= asked && |asked| == |asked0| + count
      invariant store.shares == old(store.shares)
      invariant ConflictShown(store.shares, answers, asked, conflict)
      invariant conflict.None? ==> Progress(first, store.shares, tip, base)
      invariant NothingFrom(answers, asked, parent, count) && AskedRightly(first, asked)
      invariant LineServed(first, tip, sources, answers, line) ==> LineFollowed(store.shares, tip, line, batches + count)
    {
      count := count + 1;
      ghost var before := store.shares;
      var batch := answers(batches + count, parent);
      added := AddBatch(store, batch, parent, |chain|);
      BatchOutcome(first, before, tip, answers, asked, base, conflict);
      LineOutcome(first, before, tip, sources, answers, line, asked, parent);
      conflict := NextConflict(before, tip, answers, asked, conflict);
      asked := asked + [Request(|asked| + 1, parent)];
      if added > 0 {
        return;
      }
    }
  }

  lemma NothingYet(answers: Answers, asked: seq<Request>, parent: Digest)
    ensures NothingFrom(answers, asked, parent, 0)
  {
  }

  /** What one request does to the record of requests, and on a line that is served. */
  lemma LineOutcome(first: Shares, before: Shares, tip: Digest, sources: nat, answers: Answers, line: seq<Share>,
                    asked: seq<Request>, parent: Digest)
    requires Filed(before) && Extends(first, before) && 0 < |Walk(before, tip, VENUE_WINDOW)| < VENUE_WINDOW
    requires parent == NextRequest(before, tip, asked).parent && parent != Zeros(32) && parent !in before
    requires AskedRightly(first, asked)
    requires LineServed(first, tip, sources, answers, line) ==> LineFollowed(before, tip, line, |asked|)
    ensures
      var r := Request(|asked| + 1, parent);
      var t := TakeBatch(before, answers(r.number, parent), parent, None, VENUE_WINDOW - |Walk(before, tip, VENUE_WINDOW)|);
      && AskedRightly(first, asked + [r]) && (t.added == 0 <==> Useless(answers(r.number, parent), parent))
      && (forall n: nat :: NothingFrom(answers, asked, parent, n) && t.added == 0
                           ==> NothingFrom(answers, asked + [r], parent, n + 1))
      && (LineServed(first, tip, sources, answers, line) ==> LineFollowed(t.shares, tip, line, |asked| + 1))
  {
    hide Walk, TakeBatch, Filed, NothingFrom, Useless, Line, OnLine, ServesLine;
    var r := Request(|asked| + 1, parent);
    var batch := answers(r.number, parent);
    var n := |Walk(before, tip, VENUE_WINDOW)|;
    UselessAddsNothing(before, batch, parent, VENUE_WINDOW - n);
    if Useless(batch, parent) {
      forall m: nat | NothingFrom(answers, asked, parent, m)
        ensures NothingFrom(answers, asked + [r], parent, m + 1)
      {
        NothingAgain(answers, asked, r, m);
      }
    }
    if LineServed(first, tip, sources, answers, line) {
      RequestOnLine(before, line, answers, tip, r.number);
      NothingAdded(before, batch, parent, VENUE_WINDOW - n);
    }
  }

  /** The request made next, when the walk on `shares` has come to its end. */
  ghost function NextRequest(shares: Shares, tip: Digest, asked: seq<Request>): Request
    requires Walk(shares, tip, VENUE_WINDOW) != []
  {
    var chain := Walk(shares, tip, VENUE_WINDOW);
    Request(|asked| + 1, chain[|chain| - 1].parent)
  }

  /** The conflict known after the answer to that request. */
  ghost function NextConflict(shares: Shares, tip: Digest, answers: Answers, asked: seq<Request>, conflict: Option<Share>)
    : Option<Share>
    requires 0 < |Walk(shares, tip, VENUE_WINDOW)| < VENUE_WINDOW
  {
    var r := NextRequest(shares, tip, asked);
    if conflict.Some? then conflict
    else MetConflict(shares, answers(r.number, r.parent), r.parent, None, VENUE_WINDOW - |Walk(shares, tip, VENUE_WINDOW)|)
  }

  /** Only ancestors were added, and each lengthened the walk. */
  ghost predicate Progress(first: Shares, shares: Shares, tip: Digest, base: nat) {
    && OnlyAncestorsAdded(first, shares, tip)
    && |shares| - |first| + base <= |Walk(shares, tip, VENUE_WINDOW)|
  }

  /** What one batch does to the invariants of the walk. */
  lemma BatchOutcome(first: Shares, before: Shares, tip: Digest, answers: Answers, asked: seq<Request>,
                     base: nat, conflict: Option<Share>)
    requires Filed(before) && Extends(first, before) && ConflictShown(before, answers, asked, conflict)
    requires conflict.None? ==> Progress(first, before, tip, base)
    requires 0 < |Walk(before, tip, VENUE_WINDOW)| < VENUE_WINDOW
    ensures
      var r := NextRequest(before, tip, asked);
      var t := TakeBatch(before, answers(r.number, r.parent), r.parent, None,
                         VENUE_WINDOW - |Walk(before, tip, VENUE_WINDOW)|);
      var now := NextConflict(before, tip, answers, asked, conflict);
      && Extends(first, t.shares) && (t.added == 0 ==> t.shares == before)
      && ConflictShown(t.shares, answers, asked + [r], now)
      && (now.None? ==> Progress(first, t.shares, tip, base))
  {
    hide Walk, TakeBatch, Conflict, Filed, MetConflict, Extends, Progress, ConflictShown;
    var r := NextRequest(before, tip, asked);
    var batch := answers(r.number, r.parent);
    var room := VENUE_WINDOW - |Walk(before, tip, VENUE_WINDOW)|;
    var t := TakeBatch(before, batch, r.parent, None, room);
    TakeBatchExtends(before, batch, r.parent, None, room);
    ExtendsTransitive(first, before, t.shares);
    NothingAdded(before, batch, r.parent, room);
    if conflict.Some? {
      ConflictKept(before, t.shares, answers, asked, r, conflict);
    } else if MetConflict(before, batch, r.parent, None, room).Some? {
      ConflictMet(before, answers, asked, r, room);
    } else {
      NoConflictShown(t.shares, answers, asked + [r]);
      ProgressKept(first, before, tip, batch, base);
    }
  }

  lemma ExtendsTransitive(a: Shares, b: Shares, c: Shares)
    requires Extends(a, b) && Extends(b, c)
    ensures Extends(a, c)
  {
  }

  lemma ProgressKept(first: Shares, before: Shares, tip: Digest, batch: seq<Served>, base: nat)
    requires Filed(before) && Progress(first, before, tip, base)
    requires
      var chain := Walk(before, tip, VENUE_WINDOW);
      && chain != [] && |chain| < VENUE_WINDOW
      && MetConflict(before, batch, chain[|chain| - 1].parent, None, VENUE_WINDOW - |chain|).None?
    ensures
      var chain := Walk(before, tip, VENUE_WINDOW);
      var t := TakeBatch(before, batch, chain[|chain| - 1].parent, None, VENUE_WINDOW - |chain|);
      Progress(first, t.shares, tip, base)
  {
    hide Walk, TakeBatch, OnlyAncestorsAdded, MetConflict;
    var chain := Walk(before, tip, VENUE_WINDOW);
    TakeBatchExtends(before, batch, chain[|chain| - 1].parent, None, VENUE_WINDOW - |chain|);
    BatchKeepsAncestors(first, before, tip, batch, VENUE_WINDOW - |chain|);
  }

  lemma ConflictKept(before: Shares, after: Shares, answers: Answers, asked: seq<Request>, r: Request, conflict: Option<Share>)
    requires Extends(before, after) && ConflictShown(before, answers, asked, conflict)
    ensures ConflictShown(after, answers, asked + [r], conflict)
  {
    hide Serves;
    if conflict.Some? {
      var i :| 0 <= i < |asked| && Serves(answers, asked[i], conflict.value);
      assert (asked + [r])[i] == asked[i];
    }
  }

  lemma ConflictMet(before: Shares, answers: Answers, asked: seq<Request>, r: Request, room: nat)
    requires Filed(before) && MetConflict(before, answers(r.number, r.parent), r.parent, None, room).Some?
    ensures
      var batch := answers(r.number, r.parent);
      ConflictShown(TakeBatch(before, batch, r.parent, None, room).shares, answers, asked + [r],
                    MetConflict(before, batch, r.parent, None, room))
  {
    hide TakeBatch, MetConflict, Descends, Filed;
    var i := MetConflictShown(before, answers(r.number, r.parent), r.parent, None, room);
    assert (asked + [r])[|asked|] == r;
  }

  lemma NoConflictShown(shares: Shares, answers: Answers, asked: seq<Request>)
    ensures ConflictShown(shares, answers, asked, None)
  {
  }

  lemma NothingAdded(shares: Shares, batch: seq<Served>, parent: Digest, room: nat)
    requires Filed(shares) && room > 0
    ensures
      var t := TakeBatch(shares, batch, parent, None, room);
      t.added == 0 ==> t.shares == shares
  {
    TakeBatchSame(shares, batch, parent, None, room);
  }

  lemma {:induction false} TakeBatchSame(shares: Shares, batch: seq<Served>, expected: Digest, height: Option<nat>, room: nat)
    ensures
      var t := TakeBatch(shares, batch, expected, height, room);
      t.added == 0 ==> t.shares == shares
    decreases |batch|
  {
    if batch != [] && batch[0].Some? {
      var s := batch[0].value;
      if room > 0 && s.id in shares {
        TakeBatchSame(shares, batch[1..], s.parent, Some(s.height), room);
      }
    }
  }
}
