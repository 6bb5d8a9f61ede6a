/** A run on which newcomers from a few buckets take the place of as many entries of others as the
    bound of `Transpeers.FloodDisplaces` allows. */
module FloodWitness {
  import opened Bytes
  import opened Sequences
  import opened Transpeers

  /** Bucketed, without tried table or anchor reading; every address is a bucket of its own. */
  const PLAIN: Config := Config(true, false, false, (a: Address) => a)

  function Name(i: nat): Address {
    seq(i, _ => 'x')
  }

  /** Three ports for each address. */
  function KeyOf(i: nat): Key {
    Key(Name(i / 3), i % 3)
  }

  /** The `j`-th entry to go: the first of its bucket. */
  function VictimKey(j: nat): Key {
    KeyOf(3 * j)
  }

  /** The `j`-th newcomer: three for each flooding bucket. */
  function NewKey(j: nat): Key {
    KeyOf(600 + j)
  }

  function Entry(k: Key): Transpeer {
    Transpeer(k, [], 0, 0, 0, 0, false, false, false, 0, map[])
  }

  lemma KeysApart(i: nat, j: nat)
    ensures KeyOf(i) == KeyOf(j) <==> i == j
  {
    assert |Name(i / 3)| == i / 3 && |Name(j / 3)| == j / 3;
  }

  /** The first `n` values of `f`. */
  function Image(f: nat -> Key, n: nat): (r: set<Key>)
  {
    if n == 0 then {} else Image(f, n - 1) + {f(n - 1)}
  }

  lemma {:induction false} InCrowd(n: nat, i: nat)
    ensures KeyOf(i) in Image(KeyOf, n) <==> i < n
  {
    hide KeyOf;
    if n > 0 {
      InCrowd(n - 1, i);
      KeysApart(n - 1, i);
    }
  }

  lemma {:induction false} InVictims(n: nat, i: nat)
    ensures KeyOf(i) in Image(VictimKey, n) <==> i % 3 == 0 && i < 3 * n
  {
    hide KeyOf;
    if n > 0 {
      InVictims(n - 1, i);
      KeysApart(3 * (n - 1), i);
    }
  }

  lemma {:induction false} InNew(n: nat, i: nat)
    ensures KeyOf(i) in Image(NewKey, n) <==> 600 <= i < 600 + n
  {
    hide KeyOf;
    if n > 0 {
      InNew(n - 1, i);
      KeysApart(600 + n - 1, i);
    }
  }

  /** Every key of an image has one of the three ports. */
  lemma {:induction false} ImagePorts(f: nat -> Key, n: nat)
    requires forall i: nat :: 0 <= f(i).port < 3
    ensures forall k :: k in Image(f, n) ==> 0 <= k.port < 3
  {
    if n > 0 {
      ImagePorts(f, n - 1);
    }
  }

  /** Five hundred entries, the first `j` victims gone and the first `j` newcomers in. */
  function KeysAfter(j: nat): set<Key> {
    Image(KeyOf, 500) - Image(VictimKey, j) + Image(NewKey, j)
  }

  function After(j: nat): Store {
    map k | k in KeysAfter(j) :: Entry(k)
  }

  lemma InKeysAfter(j: nat, i: nat)
    ensures KeyOf(i) in KeysAfter(j) <==> (i < 500 && (i % 3 == 0 ==> 3 * j <= i)) || 600 <= i < 600 + j
  {
    hide KeyOf, Image;
    InCrowd(500, i);
    InVictims(j, i);
    InNew(j, i);
  }

  lemma PortsAfter(j: nat)
    ensures forall k :: k in KeysAfter(j) ==> 0 <= k.port < 3
  {
    ImagePorts(KeyOf, 500);
    ImagePorts(NewKey, j);
  }

  lemma {:induction false} ImageSize(n: nat)
    ensures |Image(KeyOf, n)| == n
  {
    hide KeyOf;
    if n > 0 {
      ImageSize(n - 1);
      InCrowd(n - 1, n - 1);
    }
  }

  /* ---------- One step ---------- */

  /** The next newcomer takes the place of the next victim. */
  lemma KeysStep(j: nat)
    requires j < 166
    ensures VictimKey(j) in KeysAfter(j) && NewKey(j) !in KeysAfter(j)
    ensures KeysAfter(j + 1) == KeysAfter(j) - {VictimKey(j)} + {NewKey(j)}
  {
    hide KeyOf;
    InKeysAfter(j, 3 * j);
    InKeysAfter(j, 600 + j);
    InNew(j, 3 * j);
  }

  lemma {:induction false} SizeAfter(j: nat)
    requires j <= 166
    ensures |KeysAfter(j)| == 500
  {
    if j == 0 {
      ImageSize(500);
      assert KeysAfter(0) == Image(KeyOf, 500);
    } else {
      hide KeysAfter, VictimKey, NewKey;
      SizeAfter(j - 1);
      KeysStep(j - 1);
    }
  }

  /** No bucket has more than three entries. */
  lemma FewMembers(j: nat, b: Bucket)
    ensures Members(PLAIN, KeysAfter(j), b) <= {Key(b, 0), Key(b, 1), Key(b, 2)}
    ensures |Members(PLAIN, KeysAfter(j), b)| <= 3
  {
    hide KeysAfter;
    PortsAfter(j);
    SubsetSize(Members(PLAIN, KeysAfter(j), b), {Key(b, 0), Key(b, 1), Key(b, 2)});
  }

  /** The victim's bucket is full. */
  lemma VictimBucket(j: nat)
    requires j < 166
    ensures |Members(PLAIN, KeysAfter(j), Name(j))| == 3
  {
    hide KeysAfter;
    FewMembers(j, Name(j));
    InKeysAfter(j, 3 * j);
    InKeysAfter(j, 3 * j + 1);
    InKeysAfter(j, 3 * j + 2);
    assert KeyOf(3 * j) == Key(Name(j), 0) && KeyOf(3 * j + 1) == Key(Name(j), 1) && KeyOf(3 * j + 2) == Key(Name(j), 2);
    assert Members(PLAIN, KeysAfter(j), Name(j)) == {Key(Name(j), 0), Key(Name(j), 1), Key(Name(j), 2)};
  }

  /** The newcomer's bucket is not. */
  lemma NewBucket(j: nat)
    requires j < 166
    ensures |Members(PLAIN, KeysAfter(j), NewKey(j).addr)| < 3
  {
    hide KeysAfter, NewKey, Members;
    FewMembers(j, NewKey(j).addr);
    KeysStep(j);
    NewPort(j);
    OneMissing(Members(PLAIN, KeysAfter(j), NewKey(j).addr), NewKey(j));
  }

  lemma OneMissing(m: set<Key>, k: Key)
    requires m <= {Key(k.addr, 0), Key(k.addr, 1), Key(k.addr, 2)} && k !in m && 0 <= k.port < 3
    ensures |m| < 3
  {
    var all := {Key(k.addr, 0), Key(k.addr, 1), Key(k.addr, 2)};
    assert k in all && |all - {k}| == 2;
    SubsetSize(m, all - {k});
  }

  lemma NewPort(j: nat)
    ensures NewKey(j) == Key(NewKey(j).addr, NewKey(j).port) && 0 <= NewKey(j).port < 3
  {
  }

  lemma VictimMayGo(j: nat)
    requires j < 166
    ensures MayEvict(PLAIN, After(j), NewKey(j).addr, Some(VictimKey(j)))
  {
    hide KeysAfter, KeyOf, Members;
    var s := After(j);
    var pool := Pool(PLAIN, s);
    assert pool == KeysAfter(j);
    KeysStep(j);
    VictimBucket(j);
    VictimName(j);
    forall k | k in pool
      ensures |Members(PLAIN, pool, BucketOf(PLAIN, k))| <= |Members(PLAIN, pool, Name(j))|
    {
      FewMembers(j, BucketOf(PLAIN, k));
    }
    OwnBucket(PLAIN, pool, VictimKey(j));
  }

  lemma VictimName(j: nat)
    requires j < 166
    ensures VictimKey(j).addr == Name(j) && NewKey(j).addr != Name(j)
  {
    assert |Name((600 + j) / 3)| == (600 + j) / 3 && |Name(j)| == j;
  }

  function Arrival(j: nat): Op {
    Add(Entry(NewKey(j)), true, 0)
  }

  lemma StepAfter(j: nat)
    requires j < 166
    ensures Step(PLAIN, After(j), Arrival(j), After(j + 1))
  {
    hide KeysAfter, KeyOf, Members, MayEvict, VictimKey, NewKey;
    var s, next, entry := After(j), After(j + 1), Entry(NewKey(j));
    KeysStep(j);
    SizeAfter(j);
    NewBucket(j);
    VictimMayGo(j);
    assert s.Keys == KeysAfter(j) && |s| == |s.Keys|;
    assert next == (s - {VictimKey(j)})[NewKey(j) := Admitted(entry, 0)];
    Displaced(PLAIN, s, entry, 0, Some(VictimKey(j)));
    assert AddStep(PLAIN, s, entry, true, 0, next, true);
  }

  /* ---------- The whole run ---------- */

  /** The states while newcomers `from` up to `to` arrive. */
  function States(from: nat, to: nat): (states: seq<Store>)
    requires from <= to
    ensures |states| == to - from + 1
  {
    seq(to - from + 1, i requires 0 <= i => After(from + i))
  }

  function Arrivals(from: nat, to: nat): (ops: seq<Op>)
    requires from <= to
    ensures |ops| == to - from
  {
    seq(to - from, i requires 0 <= i => Arrival(from + i))
  }

  lemma StatesEnds(from: nat, to: nat)
    requires from <= to
    ensures States(from, to)[0] == After(from) && States(from, to)[to - from] == After(to)
  {
    hide After;
  }

  lemma ArrivalsRun(from: nat, to: nat)
    requires from <= to <= 166
    ensures Run(PLAIN, States(from, to), Arrivals(from, to))
  {
    hide Step, After, Arrival;
    forall i | 0 <= i < to - from
      ensures Step(PLAIN, States(from, to)[i], Arrivals(from, to)[i], States(from, to)[i + 1])
    {
      StepAfter(from + i);
    }
  }

  lemma CapsAfter(j: nat)
    requires j <= 166
    ensures WithinCaps(PLAIN, After(j))
  {
    hide KeysAfter, Members;
    SizeAfter(j);
    assert After(j).Keys == KeysAfter(j) && |After(j)| == |After(j).Keys|;
    forall b: Bucket
      ensures |Members(PLAIN, After(j).Keys, b)| <= 3
    {
      FewMembers(j, b);
    }
  }

  /** The flooding buckets. */
  function Flood(m: nat): set<Bucket> {
    if m == 0 then {} else Flood(m - 1) + {Name(200 + m - 1)}
  }

  lemma {:induction false} InFlood(m: nat, i: nat)
    ensures Name(i) in Flood(m) <==> 200 <= i < 200 + m
    ensures |Flood(m)| == m
  {
    if m > 0 {
      InFlood(m - 1, i);
      InFlood(m - 1, 200 + m - 1);
      assert |Name(i)| == i && |Name(200 + m - 1)| == 200 + m - 1;
    }
  }

  lemma ArrivalFromFlood(m: nat, j: nat)
    requires j < 3 * m
    ensures BucketOf(PLAIN, NewKey(j)) in Flood(m)
  {
    hide Name;
    InFlood(m, (600 + j) / 3);
  }

  lemma FromFlood(m: nat, held: nat)
    requires held <= 3 * m
    ensures FloodFrom(PLAIN, Arrivals(held, 3 * m), Flood(m))
  {
    hide NewKey, Flood;
    var ops := Arrivals(held, 3 * m);
    forall i | 0 <= i < |ops|
      ensures !ops[i].Prune? && (ops[i].Add? ==> BucketOf(PLAIN, ops[i].entry.key) in Flood(m))
    {
      assert ops[i] == Arrival(held + i);
      ArrivalFromFlood(m, held + i);
    }
  }

  /** Of the keys after `j` arrivals, the newcomers are the flood's. */
  lemma InsideAfterArrivals(m: nat, j: nat)
    requires j <= 3 * m <= 166
    ensures Inside(PLAIN, KeysAfter(j), Flood(m)) == Image(NewKey, j)
  {
    hide Flood;
    CrowdOutside(m, 500);
    NewInside(m, j);
  }

  lemma {:induction false} CrowdOutside(m: nat, n: nat)
    requires n <= 500
    ensures forall k :: k in Image(KeyOf, n) ==> k.addr !in Flood(m)
  {
    hide Name, Flood;
    if n > 0 {
      CrowdOutside(m, n - 1);
      InFlood(m, (n - 1) / 3);
    }
  }

  lemma {:induction false} NewInside(m: nat, n: nat)
    requires n <= 3 * m
    ensures forall k :: k in Image(NewKey, n) ==> k.addr in Flood(m)
  {
    hide Name, Flood;
    if n > 0 {
      NewInside(m, n - 1);
      InFlood(m, (600 + n - 1) / 3);
    }
  }

  lemma {:induction false} NewSize(n: nat)
    ensures |Image(NewKey, n)| == n
  {
    hide KeyOf;
    if n > 0 {
      NewSize(n - 1);
      InNew(n - 1, 600 + n - 1);
    }
  }

  lemma OneMore<T>(s: set<T>, part: set<T>, x: T)
    requires x !in s && x !in part
    ensures |s + {x} - part| == |s - part| + 1
  {
    assert s + {x} - part == (s - part) + {x};
  }

  /** Of the first `to` victims, those before `from` are gone already. */
  lemma {:induction false} VictimsBetween(from: nat, to: nat)
    requires from <= to
    ensures Image(VictimKey, from) <= Image(VictimKey, to)
    ensures |Image(VictimKey, to) - Image(VictimKey, from)| == to - from
  {
    hide VictimKey;
    if from < to {
      VictimsBetween(from, to - 1);
      NextVictim(from, to - 1);
      var before, part := Image(VictimKey, to - 1), Image(VictimKey, from);
      assert Image(VictimKey, to) == before + {VictimKey(to - 1)};
      hide Image;
      OneMore(before, part, VictimKey(to - 1));
    } else {
      assert Image(VictimKey, to) - Image(VictimKey, from) == {};
    }
  }

  lemma NextVictim(from: nat, n: nat)
    requires from <= n
    ensures VictimKey(n) !in Image(VictimKey, n) && VictimKey(n) !in Image(VictimKey, from)
  {
    hide KeyOf, Image;
    InVictims(n, 3 * n);
    InVictims(from, 3 * n);
  }

  /** What the arrivals from `held` on cost the crowd. */
  lemma CrowdLost(held: nat, to: nat)
    requires held <= to <= 166
    ensures KeysAfter(held) - Image(NewKey, held) - KeysAfter(to) == Image(VictimKey, to) - Image(VictimKey, held)
  {
    hide KeyOf, Image;
    forall k | k in Image(VictimKey, to)
      ensures k in Image(KeyOf, 500) && k !in Image(NewKey, to) && k !in Image(NewKey, held)
    {
      VictimApart(to, held, k);
    }
    NewGrow(held, to);
  }

  lemma {:induction false} VictimApart(to: nat, held: nat, k: Key)
    requires to <= 166 && k in Image(VictimKey, to)
    ensures k in Image(KeyOf, 500) && k !in Image(NewKey, to) && k !in Image(NewKey, held)
  {
    var i := VictimIndex(to, k);
    hide Image, KeyOf;
    InCrowd(500, 3 * i);
    InNew(to, 3 * i);
    InNew(held, 3 * i);
  }

  lemma {:induction false} VictimIndex(n: nat, k: Key) returns (i: nat)
    requires k in Image(VictimKey, n)
    ensures i < n && k == VictimKey(i)
  {
    i := n - 1;
    if k != VictimKey(n - 1) {
      i := VictimIndex(n - 1, k);
    }
  }

  lemma {:induction false} NewGrow(from: nat, to: nat)
    requires from <= to
    ensures Image(NewKey, from) <= Image(NewKey, to)
  {
    if from < to {
      NewGrow(from, to - 1);
    }
  }

  lemma FloodCost(m: nat, held: nat)
    requires held <= 3 * m <= 166
    ensures
      var inside := Inside(PLAIN, KeysAfter(held), Flood(m));
      |inside| == held && |KeysAfter(held) - inside - KeysAfter(3 * m)| == 3 * m - held
  {
    hide Inside, KeysAfter, Image, Flood;
    InsideAfterArrivals(m, held);
    NewSize(held);
    CrowdLost(held, 3 * m);
    VictimsBetween(held, 3 * m);
  }

  lemma AfterKeys(j: nat)
    ensures After(j).Keys == KeysAfter(j)
  {
  }

  /** The bound of `FloodDisplaces` is reached: for up to 55 flooding buckets and whatever they
      already hold, some run costs the others three entries for each bucket, less what was held. */
  lemma FloodReached(m: nat, held: nat)
    requires m <= 55 && held <= MAX_TRANSPEERS_PER_SUBNET * m
    ensures
      var states, ops, own := States(held, 3 * m), Arrivals(held, 3 * m), Flood(m);
      && Run(PLAIN, states, ops) && WithinCaps(PLAIN, states[0]) && FloodFrom(PLAIN, ops, own)
      && |own| == m && |Inside(PLAIN, states[0].Keys, own)| == held
      && var others := states[0].Keys - Inside(PLAIN, states[0].Keys, own);
         |others - states[|ops|].Keys| == MAX_TRANSPEERS_PER_SUBNET * |own| - held
  {
    hide Run, WithinCaps, FloodFrom, Inside, KeysAfter, Image, Flood, Arrivals, States, After;
    StatesEnds(held, 3 * m);
    AfterKeys(held);
    AfterKeys(3 * m);
    ArrivalsRun(held, 3 * m);
    CapsAfter(held);
    FromFlood(m, held);
    InFlood(m, 0);
    FloodCost(m, held);
  }
}
