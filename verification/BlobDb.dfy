/** The blob store (transpeer/anchor/blobdb.py): bodies are kept once and blobs are rebuilt from
    them by period. It is compared with a plain map from hash to the bytes that were added. */
module BlobDb {
  import opened Blob
  import opened Bytes

  const KINDS: set<string> := {"share", "block", "template"}

  datatype Commitment = Commitment(hash: Bytes, kind: string, venue: string, ref: string, publisher: string,
                                   difficulty: int, timestamp: int, proof: seq<Bytes>, path: int)

  /** `_BlobRow`. */
  datatype Row = Row(bodyHash: Digest, period: int, firstSeen: int, commitments: seq<Commitment>)

  /** What `to_json` writes, without the hex text. */
  datatype Saved = Saved(version: int, bodies: map<Digest, Bytes>, blobs: seq<(Digest, Row)>)

  /** The row with one more commitment, if it is new. */
  function Commit(row: Row, c: Commitment): Row {
    if c in row.commitments then row else row.(commitments := row.commitments + [c])
  }

  /** Each commitment is kept once, in the order of arrival; nothing else of the row changes. */
  lemma CommittedOnce(row: Row, c: Commitment)
    ensures
      var next := Commit(row, c);
      && row.commitments <= next.commitments && c in next.commitments
      && |next.commitments| == |row.commitments| + (if c in row.commitments then 0 else 1)
      && next.(commitments := row.commitments) == row
  {
  }

  function EntriesOf(utf8: Utf8, data: Bytes): set<Entry> {
    var b := Decode(utf8, data);
    if b.None? then {} else set e | e in b.value.entries
  }

  /** The union of the entries of all blobs in a plain map. */
  ghost function AllEntries(utf8: Utf8, plain: map<Digest, Bytes>): set<Entry> {
    set h, e | h in plain && e in EntriesOf(utf8, plain[h]) :: e
  }

  /** Two different inputs with the same hash. */
  ghost predicate SameHash(sha: Hash, a: Bytes, b: Bytes) {
    a != b && sha(a) == sha(b)
  }

  /** The row stands for the blob `data` under its hash. */
  ghost predicate RowFor(sha: Hash, utf8: Utf8, bodies: map<Digest, Bytes>, h: Digest, row: Row, data: Bytes) {
    && Decode(utf8, data).Some? && sha(data) == h
    && row.period == Decode(utf8, data).value.period
    && HasPeriod(data) && row.bodyHash == sha(Body(data))
    && row.bodyHash in bodies && HasPeriod(bodies[row.bodyHash]) && sha(bodies[row.bodyHash]) == row.bodyHash
  }

  /** The store refines the plain map. */
  ghost predicate Refines(sha: Hash, utf8: Utf8, bodies: map<Digest, Bytes>, blobs: map<Digest, Row>,
                          entries: set<Entry>, plain: map<Digest, Bytes>)
  {
    && plain.Keys == blobs.Keys
    && (forall h :: h in plain ==> RowFor(sha, utf8, bodies, h, blobs[h], plain[h]))
    && (forall b :: b in bodies ==> exists h :: h in plain && blobs[h].bodyHash == b)
    && entries == AllEntries(utf8, plain)
  }

  /** The body kept for `h` is the body of the blob that was added under `h`. */
  ghost predicate OwnBody(bodies: map<Digest, Bytes>, row: Row, data: Bytes) {
    HasPeriod(data) && row.bodyHash in bodies && bodies[row.bodyHash] == Body(data)
  }

  /** No body was kept in place of another one. */
  ghost predicate OwnBodies(bodies: map<Digest, Bytes>, blobs: map<Digest, Row>, plain: map<Digest, Bytes>) {
    plain.Keys == blobs.Keys && forall h :: h in plain ==> OwnBody(bodies, blobs[h], plain[h])
  }

  /** `get` on a row: None stands for the exceptions of `with_period` and of the lookup. */
  function Restore(bodies: map<Digest, Bytes>, row: Row): Option<Bytes> {
    if row.bodyHash !in bodies || !HasPeriod(bodies[row.bodyHash]) || !(0 <= row.period < U64) then None
    else Some(WithPeriod(bodies[row.bodyHash], row.period))
  }

  /** A row is rebuilt exactly when its body is stored and reaches past the period, and its period fits. */
  lemma RestoresIff(bodies: map<Digest, Bytes>, row: Row)
    ensures Restore(bodies, row).Some? <==>
      && row.bodyHash in bodies && |bodies[row.bodyHash]| >= 6
      && |bodies[row.bodyHash]| >= 14 + (bodies[row.bodyHash][5] as int) && 0 <= row.period <= 0xffff_ffff_ffff_ffff
  {
  }

  lemma PeriodFits(utf8: Utf8, data: Bytes)
    requires Decode(utf8, data).Some?
    ensures HasPeriod(data) && Decode(utf8, data).value.period < U64
  {
    hide Decode, FromLE, ToLE;
    PeriodField(utf8, data);
    var n := NameLength(data);
    ToFromLE(data[6 + n..14 + n]);
    EightBytes();
  }

  /** A row that stands for a blob restores it, or its body and the kept one are a collision. */
  lemma RestoresOrCollides(sha: Hash, utf8: Utf8, bodies: map<Digest, Bytes>, h: Digest, row: Row, data: Bytes)
    requires RowFor(sha, utf8, bodies, h, row, data)
    ensures Restore(bodies, row).Some?
    ensures OwnBody(bodies, row, data) ==> Restore(bodies, row) == Some(data)
    ensures OwnBody(bodies, row, data) || SameHash(sha, bodies[row.bodyHash], Body(data))
  {
    hide Decode, Body, WithPeriod, HasPeriod;
    PeriodFits(utf8, data);
    if OwnBody(bodies, row, data) {
      BodyRestores(utf8, data);
    }
  }

  /** Adding a new blob adds its entries to the union. */
  lemma EntriesGrow(utf8: Utf8, plain: map<Digest, Bytes>, h: Digest, data: Bytes)
    requires h !in plain
    ensures AllEntries(utf8, plain[h := data]) == AllEntries(utf8, plain) + EntriesOf(utf8, data)
  {
    hide EntriesOf;
    var after := plain[h := data];
    forall e | e in AllEntries(utf8, after)
      ensures e in AllEntries(utf8, plain) + EntriesOf(utf8, data)
    {
      var k :| k in after && e in EntriesOf(utf8, after[k]);
      assert k == h || (k in plain && plain[k] == after[k]);
    }
    forall e | e in AllEntries(utf8, plain)
      ensures e in AllEntries(utf8, after)
    {
      var k :| k in plain && e in EntriesOf(utf8, plain[k]);
      assert k in after && after[k] == plain[k];
    }
    assert after[h] == data;
  }

  /** Storing a new blob keeps the refinement. */
  lemma RefinesAdded(sha: Hash, utf8: Utf8, bodies: map<Digest, Bytes>, blobs: map<Digest, Row>, entries: set<Entry>,
                     plain: map<Digest, Bytes>, data: Bytes, row: Row)
    requires Refines(sha, utf8, bodies, blobs, entries, plain)
    requires Decode(utf8, data).Some? && sha(data) !in plain
    requires HasPeriod(data) && row.bodyHash == sha(Body(data)) && row.period == Decode(utf8, data).value.period
    ensures
      var bodies' := if row.bodyHash in bodies then bodies else bodies[row.bodyHash := Body(data)];
      Refines(sha, utf8, bodies', blobs[sha(data) := row], entries + EntriesOf(utf8, data), plain[sha(data) := data])
  {
    hide Decode, EntriesOf, AllEntries, WithPeriod;
    var bodies' := if row.bodyHash in bodies then bodies else bodies[row.bodyHash := Body(data)];
    var h: Digest := sha(data);
    var blobs', plain' := blobs[h := row], plain[h := data];
    EntriesGrow(utf8, plain, h, data);
    BodyHasPeriod(data);
    forall k | k in plain'
      ensures RowFor(sha, utf8, bodies', k, blobs'[k], plain'[k])
    {
      if k == h {
        if row.bodyHash in bodies {
          var j :| j in plain && blobs[j].bodyHash == row.bodyHash;
          assert RowFor(sha, utf8, bodies, j, blobs[j], plain[j]);
        }
      } else {
        assert RowFor(sha, utf8, bodies, k, blobs[k], plain[k]);
      }
    }
    forall b | b in bodies'
      ensures exists k :: k in plain' && blobs'[k].bodyHash == b
    {
      if b in bodies {
        var k :| k in plain && blobs[k].bodyHash == b;
        assert k in plain' && blobs'[k].bodyHash == b;
      } else {
        assert h in plain' && blobs'[h].bodyHash == b;
      }
    }
  }

  lemma BodyHasPeriod(data: Bytes)
    requires HasPeriod(data)
    ensures HasPeriod(Body(data))
  {
    PeriodReplaced(data, 0);
  }

  /** The commitments of a row do not matter to the refinement. */
  lemma RefinesCommitted(sha: Hash, utf8: Utf8, bodies: map<Digest, Bytes>, blobs: map<Digest, Row>, entries: set<Entry>,
                         plain: map<Digest, Bytes>, h: Digest, c: Commitment)
    requires Refines(sha, utf8, bodies, blobs, entries, plain) && h in blobs
    ensures Refines(sha, utf8, bodies, blobs[h := Commit(blobs[h], c)], entries, plain)
  {
    hide RowFor, AllEntries;
    var blobs' := blobs[h := Commit(blobs[h], c)];
    RowForCommitted(sha, utf8, bodies, h, blobs[h], c, plain[h]);
    forall b | b in bodies
      ensures exists k :: k in plain && blobs'[k].bodyHash == b
    {
      var k :| k in plain && blobs[k].bodyHash == b;
      assert blobs'[k].bodyHash == b;
    }
  }

  lemma RowForCommitted(sha: Hash, utf8: Utf8, bodies: map<Digest, Bytes>, h: Digest, row: Row, c: Commitment, data: Bytes)
    requires RowFor(sha, utf8, bodies, h, row, data)
    ensures RowFor(sha, utf8, bodies, h, Commit(row, c), data)
  {
    hide Decode, HasPeriod, Body;
  }

  /* ---------- Saving and loading ---------- */

  /** `from_json` keeps the last row of each hash. */
  function LoadedRows(rows: seq<(Digest, Row)>): map<Digest, Row> {
    if rows == [] then map[]
    else LoadedRows(rows[..|rows| - 1])[rows[|rows| - 1].0 := rows[|rows| - 1].1]
  }

  /** The order of the keys of the loaded dictionary: of their first appearance. */
  function LoadedOrder(rows: seq<(Digest, Row)>): seq<Digest> {
    if rows == [] then []
    else
      var before := LoadedOrder(rows[..|rows| - 1]);
      if rows[|rows| - 1].0 in before then before else before + [rows[|rows| - 1].0]
  }

  /** Every row can be rebuilt and decoded; otherwise `from_json` raises. */
  predicate Loads(utf8: Utf8, bodies: map<Digest, Bytes>, rows: seq<(Digest, Row)>) {
    forall i :: 0 <= i < |rows| ==> Rebuilds(utf8, bodies, rows[i].1)
  }

  predicate Rebuilds(utf8: Utf8, bodies: map<Digest, Bytes>, row: Row) {
    Restore(bodies, row).Some? && Decode(utf8, Restore(bodies, row).value).Some?
  }

  function RowEntries(utf8: Utf8, bodies: map<Digest, Bytes>, row: Row): set<Entry> {
    if Restore(bodies, row).None? then {} else EntriesOf(utf8, Restore(bodies, row).value)
  }

  /** The entries collected while loading. */
  function LoadedEntries(utf8: Utf8, bodies: map<Digest, Bytes>, rows: seq<(Digest, Row)>): set<Entry> {
    if rows == [] then {}
    else LoadedEntries(utf8, bodies, rows[..|rows| - 1]) + RowEntries(utf8, bodies, rows[|rows| - 1].1)
  }

  /** `order` lists each key once. */
  ghost predicate Lists(order: seq<Digest>, blobs: map<Digest, Row>) {
    && (forall h :: h in order <==> h in blobs)
    && (forall i, j :: 0 <= i < j < |order| ==> order[i] != order[j])
  }

  lemma ListsUpdated(order: seq<Digest>, blobs: map<Digest, Row>, h: Digest, row: Row)
    requires Lists(order, blobs) && h in blobs
    ensures Lists(order, blobs[h := row])
  {
  }

  lemma ListsAdded(order: seq<Digest>, blobs: map<Digest, Row>, h: Digest, row: Row)
    requires Lists(order, blobs) && h !in blobs
    ensures Lists(order + [h], blobs[h := row])
  {
  }

  function SavedRows(order: seq<Digest>, blobs: map<Digest, Row>): (rows: seq<(Digest, Row)>)
    requires forall h :: h in order ==> h in blobs
    ensures |rows| == |order|
  {
    seq(|order|, i requires 0 <= i < |order| => (order[i], blobs[order[i]]))
  }

  lemma {:induction false} SavedRowsLoad(order: seq<Digest>, blobs: map<Digest, Row>, n: nat)
    requires Lists(order, blobs) && n <= |order|
    ensures
      var rows := SavedRows(order, blobs)[..n];
      && LoadedOrder(rows) == order[..n]
      && (forall h :: h in LoadedRows(rows) <==> h in order[..n])
      && forall i :: 0 <= i < n ==> LoadedRows(rows)[order[i]] == blobs[order[i]]
  {
    var rows := SavedRows(order, blobs);
    if n > 0 {
      assert rows[n - 1] == (order[n - 1], blobs[order[n - 1]]);
      hide SavedRows, LoadedRows, LoadedOrder, Lists;
      SavedRowsLoad(order, blobs, n - 1);
      LoadedRowsStep(rows, n - 1);
      FirstTime(order, blobs, n - 1);
      OneMoreRow(rows, order, blobs, n - 1, n);
    }
  }

  lemma OneMoreRow(rows: seq<(Digest, Row)>, order: seq<Digest>, blobs: map<Digest, Row>, n: nat, m: nat)
    requires m == n + 1 && n < |order| && n < |rows| && order[n] in blobs
    requires rows[n] == (order[n], blobs[order[n]]) && order[n] !in order[..n]
    requires LoadedOrder(rows[..n]) == order[..n] && forall h :: h in LoadedRows(rows[..n]) <==> h in order[..n]
    requires forall i :: 0 <= i < n ==> order[i] in blobs && LoadedRows(rows[..n])[order[i]] == blobs[order[i]]
    requires LoadedRows(rows[..m]) == LoadedRows(rows[..n])[rows[n].0 := rows[n].1]
    requires LoadedOrder(rows[..m])
          == LoadedOrder(rows[..n]) + if rows[n].0 in LoadedOrder(rows[..n]) then [] else [rows[n].0]
    ensures LoadedOrder(rows[..m]) == order[..m]
    ensures forall h :: h in LoadedRows(rows[..m]) <==> h in order[..m]
    ensures forall i :: 0 <= i <= n ==> LoadedRows(rows[..m])[order[i]] == blobs[order[i]]
  {
    hide LoadedRows, LoadedOrder;
    PrefixGrows(order, m);
    forall i | 0 <= i <= n
      ensures LoadedRows(rows[..m])[order[i]] == blobs[order[i]]
    {
      assert i < n ==> order[..n][i] == order[i];
    }
  }

  /** One more row is loaded. */
  lemma LoadedRowsStep(rows: seq<(Digest, Row)>, i: nat)
    requires i < |rows|
    ensures LoadedRows(rows[..i + 1]) == LoadedRows(rows[..i])[rows[i].0 := rows[i].1]
    ensures LoadedOrder(rows[..i + 1])
         == LoadedOrder(rows[..i]) + if rows[i].0 in LoadedOrder(rows[..i]) then [] else [rows[i].0]
  {
    assert rows[..i + 1][..i] == rows[..i];
  }

  lemma PrefixGrows<T>(s: seq<T>, n: nat)
    requires 0 < n <= |s|
    ensures s[..n] == s[..n - 1] + [s[n - 1]]
  {
  }

  lemma FirstTime(order: seq<Digest>, blobs: map<Digest, Row>, i: nat)
    requires Lists(order, blobs) && i < |order|
    ensures order[i] !in order[..i]
  {
  }

  /** `e` is an entry of one of the first `n` blobs in order. */
  ghost predicate EntryOfFirst(utf8: Utf8, order: seq<Digest>, plain: map<Digest, Bytes>, n: nat, e: Entry) {
    exists i :: 0 <= i < n && i < |order| && order[i] in plain && e in EntriesOf(utf8, plain[order[i]])
  }

  lemma EntryOfNext(utf8: Utf8, order: seq<Digest>, plain: map<Digest, Bytes>, n: nat, e: Entry)
    requires n < |order| && order[n] in plain
    ensures EntryOfFirst(utf8, order, plain, n + 1, e)
       <==> EntryOfFirst(utf8, order, plain, n, e) || e in EntriesOf(utf8, plain[order[n]])
  {
    hide EntriesOf;
  }

  lemma {:induction false} SavedEntriesLoad(utf8: Utf8, bodies: map<Digest, Bytes>, order: seq<Digest>,
                                            blobs: map<Digest, Row>, plain: map<Digest, Bytes>, n: nat)
    requires Lists(order, blobs) && n <= |order| && plain.Keys == blobs.Keys
    requires forall h :: h in plain ==> Restore(bodies, blobs[h]) == Some(plain[h])
    ensures forall e :: e in LoadedEntries(utf8, bodies, SavedRows(order, blobs)[..n])
                   <==> EntryOfFirst(utf8, order, plain, n, e)
  {
    hide EntriesOf, Restore, EntryOfFirst;
    var rows := SavedRows(order, blobs)[..n];
    if n == 0 {
      NoFirst(utf8, order, plain);
    } else {
      assert rows[..n - 1] == SavedRows(order, blobs)[..n - 1];
      assert rows[n - 1] == (order[n - 1], blobs[order[n - 1]]);
      assert order[n - 1] in plain;
      LoadedEntriesStep(utf8, bodies, rows, n - 1, plain[order[n - 1]]);
      hide LoadedEntries, SavedRows, Lists;
      SavedEntriesLoad(utf8, bodies, order, blobs, plain, n - 1);
      forall e
        ensures e in LoadedEntries(utf8, bodies, rows) <==> EntryOfFirst(utf8, order, plain, n, e)
      {
        EntryOfNext(utf8, order, plain, n - 1, e);
      }
    }
  }

  lemma NoFirst(utf8: Utf8, order: seq<Digest>, plain: map<Digest, Bytes>)
    ensures forall e :: !EntryOfFirst(utf8, order, plain, 0, e)
  {
  }

  /** One more row gives its entries. */
  lemma LoadedEntriesStep(utf8: Utf8, bodies: map<Digest, Bytes>, rows: seq<(Digest, Row)>, n: nat, data: Bytes)
    requires |rows| == n + 1 && Restore(bodies, rows[n].1) == Some(data)
    ensures LoadedEntries(utf8, bodies, rows) == LoadedEntries(utf8, bodies, rows[..n]) + EntriesOf(utf8, data)
  {
    hide EntriesOf, Restore;
  }

  /** Without a collision, saving and loading gives back the rows, their order and the entries. */
  lemma LoadAfterSave(sha: Hash, utf8: Utf8, bodies: map<Digest, Bytes>, order: seq<Digest>, blobs: map<Digest, Row>,
                      entries: set<Entry>, plain: map<Digest, Bytes>)
    requires Refines(sha, utf8, bodies, blobs, entries, plain) && Lists(order, blobs) && OwnBodies(bodies, blobs, plain)
    ensures
      var rows := SavedRows(order, blobs);
      && Loads(utf8, bodies, rows) && LoadedRows(rows) == blobs && LoadedOrder(rows) == order
      && LoadedEntries(utf8, bodies, rows) == entries
  {
    hide RowFor, EntriesOf, Restore, Loads, LoadedRows, LoadedOrder, LoadedEntries, OwnBody, AllEntries, Rebuilds,
         SavedRows;
    forall h | h in plain
      ensures Restore(bodies, blobs[h]) == Some(plain[h]) && Rebuilds(utf8, bodies, blobs[h])
    {
      RestoresOwn(sha, utf8, bodies, h, blobs[h], plain[h]);
    }
    AllLoad(utf8, bodies, order, blobs);
    hide Refines, OwnBodies;
    AllRowsLoad(order, blobs);
    AllEntriesLoad(utf8, bodies, order, blobs, plain);
  }

  lemma AllRowsLoad(order: seq<Digest>, blobs: map<Digest, Row>)
    requires Lists(order, blobs)
    ensures LoadedRows(SavedRows(order, blobs)) == blobs && LoadedOrder(SavedRows(order, blobs)) == order
  {
    hide LoadedRows, LoadedOrder, SavedRows;
    var rows := SavedRows(order, blobs);
    SavedRowsLoad(order, blobs, |order|);
    assert rows[..|order|] == rows && order[..|order|] == order;
    assert LoadedRows(rows).Keys == blobs.Keys;
    forall h | h in blobs
      ensures LoadedRows(rows)[h] == blobs[h]
    {
      var i :| 0 <= i < |order| && order[i] == h;
    }
  }

  lemma AllEntriesLoad(utf8: Utf8, bodies: map<Digest, Bytes>, order: seq<Digest>, blobs: map<Digest, Row>,
                       plain: map<Digest, Bytes>)
    requires Lists(order, blobs) && plain.Keys == blobs.Keys
    requires forall h :: h in plain ==> Restore(bodies, blobs[h]) == Some(plain[h])
    ensures LoadedEntries(utf8, bodies, SavedRows(order, blobs)) == AllEntries(utf8, plain)
  {
    hide EntriesOf, Restore, LoadedEntries, AllEntries, SavedRows;
    var rows := SavedRows(order, blobs);
    SavedEntriesLoad(utf8, bodies, order, blobs, plain, |order|);
    assert rows[..|order|] == rows;
    EntriesListed(utf8, order, blobs, plain);
  }

  lemma RestoresOwn(sha: Hash, utf8: Utf8, bodies: map<Digest, Bytes>, h: Digest, row: Row, data: Bytes)
    requires RowFor(sha, utf8, bodies, h, row, data) && OwnBody(bodies, row, data)
    ensures Restore(bodies, row) == Some(data) && Rebuilds(utf8, bodies, row)
  {
    hide Decode, Body, Restore, HasPeriod;
    RestoresOrCollides(sha, utf8, bodies, h, row, data);
  }

  lemma AllLoad(utf8: Utf8, bodies: map<Digest, Bytes>, order: seq<Digest>, blobs: map<Digest, Row>)
    requires Lists(order, blobs) && forall h :: h in blobs ==> Rebuilds(utf8, bodies, blobs[h])
    ensures Loads(utf8, bodies, SavedRows(order, blobs))
  {
    hide Rebuilds;
  }

  lemma EntriesListed(utf8: Utf8, order: seq<Digest>, blobs: map<Digest, Row>, plain: map<Digest, Bytes>)
    requires Lists(order, blobs) && plain.Keys == blobs.Keys
    ensures forall e :: e in AllEntries(utf8, plain)
                   <==> exists i :: 0 <= i < |order| && e in EntriesOf(utf8, plain[order[i]])
  {
    hide EntriesOf;
    forall e
      ensures e in AllEntries(utf8, plain) <==> exists i :: 0 <= i < |order| && e in EntriesOf(utf8, plain[order[i]])
    {
      if e in AllEntries(utf8, plain) {
        var h :| h in plain && e in EntriesOf(utf8, plain[h]);
        var i :| 0 <= i < |order| && order[i] == h;
        assert e in EntriesOf(utf8, plain[order[i]]);
      }
      if i :| 0 <= i < |order| && e in EntriesOf(utf8, plain[order[i]]) {
        assert order[i] in plain;
      }
    }
  }

  /* ---------- The store ---------- */

  class BlobDB {
    const sha: Hash
    const utf8: Utf8
    var bodies: map<Digest, Bytes>
    var blobs: map<Digest, Row>
    /** The order in which the keys of `blobs` were inserted. */
    var order: seq<Digest>
    var entries: set<Entry>
    /** The bytes first added under each hash. */
    ghost var plain: map<Digest, Bytes>

    ghost predicate Valid()
      reads this
    {
      Refines(sha, utf8, bodies, blobs, entries, plain) && Lists(order, blobs)
    }

    constructor (sha: Hash, utf8: Utf8)
      ensures Valid() && plain == map[] && bodies == map[] && blobs == map[] && entries == {} && order == []
      ensures this.sha == sha && this.utf8 == utf8
    {
      this.sha, this.utf8 := sha, utf8;
      bodies, blobs, order, entries, plain := map[], map[], [], {}, map[];
    }

    method Add(blob: Bytes, commitment: Commitment, now: int) returns (ok: bool)
      requires Valid()
      modifies this
      ensures Valid()
      ensures ok == (commitment.hash == sha(blob) && commitment.kind in KINDS && Decode(utf8, blob).Some?)
      ensures !ok ==> bodies == old(bodies) && blobs == old(blobs) && entries == old(entries)
                      && order == old(order) && plain == old(plain)
      ensures ok && sha(blob) in old(blobs) ==>
                && blobs == old(blobs)[sha(blob) := Commit(old(blobs)[sha(blob)], commitment)]
                && bodies == old(bodies) && entries == old(entries) && order == old(order) && plain == old(plain)
      ensures ok && sha(blob) !in old(blobs) ==>
                && HasPeriod(blob)
                && blobs == old(blobs)[sha(blob) := Row(sha(Body(blob)), Decode(utf8, blob).value.period, now, [commitment])]
                && plain == old(plain)[sha(blob) := blob] && order == old(order) + [sha(blob)]
                && entries == old(entries) + EntriesOf(utf8, blob)
                && bodies == if sha(Body(blob)) in old(bodies) then old(bodies) else old(bodies)[sha(Body(blob)) := Body(blob)]
    {
      hide Refines, Decode, Body, WithPeriod, EntriesOf, HasPeriod, Lists;
      var h: Digest := sha(blob);
      if commitment.hash != h || commitment.kind !in KINDS {
        return false;
      }
      var decoded := Decode(utf8, blob);
      if decoded.None? {
        return false;
      }
      SameKeys(sha, utf8, bodies, blobs, entries, plain);
      if h !in blobs {
        StoreBlob(blob, now);
      }
      RefinesCommitted(sha, utf8, bodies, blobs, entries, plain, h, commitment);
      ListsUpdated(order, blobs, h, Commit(blobs[h], commitment));
      var row := blobs[h];
      if commitment !in row.commitments {
        assert row.commitments == [] ==> row.commitments + [commitment] == [commitment];
        blobs := blobs[h := row.(commitments := row.commitments + [commitment])];
      } else {
        assert blobs == blobs[h := row];
      }
      return true;
    }

    /** The branch of `add` for a hash seen for the first time. */
    method StoreBlob(blob: Bytes, now: int)
      requires Valid() && sha(blob) !in blobs && Decode(utf8, blob).Some?
      modifies this
      ensures Valid() && HasPeriod(blob)
      ensures blobs == old(blobs)[sha(blob) := Row(sha(Body(blob)), Decode(utf8, blob).value.period, now, [])]
      ensures plain == old(plain)[sha(blob) := blob] && order == old(order) + [sha(blob)]
      ensures entries == old(entries) + EntriesOf(utf8, blob)
      ensures bodies == if sha(Body(blob)) in old(bodies) then old(bodies) else old(bodies)[sha(Body(blob)) := Body(blob)]
    {
      hide Refines, Decode, Body, WithPeriod, EntriesOf, HasPeriod, Lists;
      PeriodFits(utf8, blob);
      SameKeys(sha, utf8, bodies, blobs, entries, plain);
      EntriesOfDecoded(utf8, blob);
      var decoded := Decode(utf8, blob).value;
      var body := Body(blob);
      var bh: Digest := sha(body);
      var row := Row(bh, decoded.period, now, []);
      RefinesAdded(sha, utf8, bodies, blobs, entries, plain, blob, row);
      ListsAdded(order, blobs, sha(blob), row);
      if bh !in bodies {
        bodies := bodies[bh := body];
      }
      blobs := blobs[sha(blob) := row];
      order := order + [sha(blob)];
      entries := entries + set e | e in decoded.entries;
      plain := plain[sha(blob) := blob];
    }

    /** The bytes added under `h`, unless the body kept for them is another one with the same hash. */
    function Get(h: Digest): (r: Option<Bytes>)
      requires Valid()
      reads this
      ensures r.Some? <==> h in plain
      ensures r.Some? && !SameHash(sha, bodies[blobs[h].bodyHash], Body(plain[h])) ==>
                r == Some(plain[h]) && sha(r.value) == h
    {
      if h !in blobs then None
      else
        RestoresOrCollides(sha, utf8, bodies, h, blobs[h], plain[h]);
        Restore(bodies, blobs[h])
    }

    predicate HasBodyEntry(e: Entry)
      reads this
    {
      e in entries
    }

    function ToJson(): (d: Saved)
      requires Valid()
      reads this
      ensures d.version == 1 && d.bodies == bodies && d.blobs == SavedRows(order, blobs)
    {
      Saved(1, bodies, SavedRows(order, blobs))
    }

    /** Null stands for the exceptions raised on rows that cannot be rebuilt or decoded. */
    static method FromJson(sha: Hash, utf8: Utf8, d: Saved) returns (db: BlobDB?)
      ensures db == null <==> d.version == 1 && !Loads(utf8, d.bodies, d.blobs)
      ensures db != null ==> fresh(db) && db.sha == sha && db.utf8 == utf8
      ensures db != null && d.version == 1 ==>
                && db.bodies == d.bodies && db.blobs == LoadedRows(d.blobs) && db.order == LoadedOrder(d.blobs)
                && db.entries == LoadedEntries(utf8, d.bodies, d.blobs)
      ensures db != null && d.version != 1 ==> db.Valid() && db.plain == map[]
    {
      hide Refines, Restore, EntriesOf, LoadedRows, LoadedOrder, LoadedEntries, Loads, Decode;
      var new_ := new BlobDB(sha, utf8);
      if d.version != 1 {
        return new_;
      }
      new_.bodies := d.bodies;
      NoneLoaded(utf8, d.bodies, d.blobs[..0]);
      for i := 0 to |d.blobs|
        invariant new_.bodies == d.bodies
        invariant new_.blobs == LoadedRows(d.blobs[..i]) && new_.order == LoadedOrder(d.blobs[..i])
        invariant new_.entries == LoadedEntries(utf8, d.bodies, d.blobs[..i])
        invariant Loads(utf8, d.bodies, d.blobs[..i])
      {
        var h, row := d.blobs[i].0, d.blobs[i].1;
        LoadedRowsStep(d.blobs, i);
        LoadedStep(utf8, d.bodies, d.blobs, i);
        new_.blobs := new_.blobs[h := row];
        if h !in new_.order {
          new_.order := new_.order + [h];
        }
        var data := Restore(d.bodies, row);
        if data.None? || Decode(utf8, data.value).None? {
          LoadFails(utf8, d.bodies, d.blobs, i);
          return null;
        }
        new_.entries := new_.entries + EntriesOf(utf8, data.value);
      }
      assert d.blobs[..|d.blobs|] == d.blobs;
      return new_;
    }

    /** `load` after `save`: the same store, as long as no two bodies collide. */
    method Reload() returns (db: BlobDB?)
      requires Valid() && forall h :: h in plain ==> !SameHash(sha, bodies[blobs[h].bodyHash], Body(plain[h]))
      ensures db != null && fresh(db) && db.Valid() && db.sha == sha && db.utf8 == utf8
      ensures db.plain == plain && db.bodies == bodies && db.blobs == blobs && db.order == order && db.entries == entries
    {
      hide Decode, Restore, WithPeriod, LoadedRows, LoadedOrder, LoadedEntries, Loads, HasPeriod;
      hide RowFor, OwnBody, SameHash, Body;
      forall h | h in plain
        ensures OwnBody(bodies, blobs[h], plain[h])
      {
        RestoresOrCollides(sha, utf8, bodies, h, blobs[h], plain[h]);
      }
      hide Refines;
      LoadAfterSave(sha, utf8, bodies, order, blobs, entries, plain);
      db := FromJson(sha, utf8, ToJson());
      db.plain := plain;
    }
  }

  lemma LoadedStep(utf8: Utf8, bodies: map<Digest, Bytes>, rows: seq<(Digest, Row)>, i: nat)
    requires i < |rows|
    ensures LoadedEntries(utf8, bodies, rows[..i + 1])
         == LoadedEntries(utf8, bodies, rows[..i]) + RowEntries(utf8, bodies, rows[i].1)
    ensures Loads(utf8, bodies, rows[..i + 1]) <==> Loads(utf8, bodies, rows[..i]) && Rebuilds(utf8, bodies, rows[i].1)
  {
    hide Rebuilds, RowEntries;
    assert rows[..i + 1][..i] == rows[..i];
  }

  lemma NoneLoaded(utf8: Utf8, bodies: map<Digest, Bytes>, rows: seq<(Digest, Row)>)
    requires rows == []
    ensures LoadedRows(rows) == map[] && LoadedOrder(rows) == [] && LoadedEntries(utf8, bodies, rows) == {}
    ensures Loads(utf8, bodies, rows)
  {
  }

  lemma LoadFails(utf8: Utf8, bodies: map<Digest, Bytes>, rows: seq<(Digest, Row)>, i: nat)
    requires i < |rows| && !Rebuilds(utf8, bodies, rows[i].1)
    ensures !Loads(utf8, bodies, rows)
  {
    hide Rebuilds;
  }

  lemma SameKeys(sha: Hash, utf8: Utf8, bodies: map<Digest, Bytes>, blobs: map<Digest, Row>,
                 entries: set<Entry>, plain: map<Digest, Bytes>)
    requires Refines(sha, utf8, bodies, blobs, entries, plain)
    ensures plain.Keys == blobs.Keys
  {
  }

  lemma EntriesOfDecoded(utf8: Utf8, data: Bytes)
    requires Decode(utf8, data).Some?
    ensures EntriesOf(utf8, data) == set e | e in Decode(utf8, data).value.entries
  {
  }
}
