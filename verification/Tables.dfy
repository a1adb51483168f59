/**
 * The semantics of one table of the entity store, as the core uses it:
 * records in insertion order, a find-first lookup by identity, `create`
 * with a fresh id, `update` by id, and the find-then-update-or-create
 * step ("upsert") the reconciler performs on every table it touches.
 */
module Tables {
  import opened Wrappers

  /** One stored record: the id the store assigned, the identity the core
      looks it up by, the attributes fixed when it is created, and the one
      attribute the core overwrites. */
  datatype Row<K, A, V> = Row(id: nat, key: K, fixed: A, val: V)

  /** A table: its records in insertion order and the id its next record gets. */
  datatype TableState<K, A, V> = TableState(rows: seq<Row<K, A, V>>, nextId: nat)

  /** One upsert request: make the record for `key` carry `val`, creating it
      with `fixed` when there is none. */
  datatype Write<K, A, V> = Write(key: K, fixed: A, val: V)

  /** Index of the first record whose identity is k: the record a findFirst
      lookup returns. */
  function IndexOf<K(==), A, V>(rows: seq<Row<K, A, V>>, k: K): (r: Option<nat>)
    ensures r.Some? ==> r.value < |rows| && rows[r.value].key == k
    ensures r.Some? ==> forall j :: 0 <= j < r.value ==> rows[j].key != k
    ensures r.None? ==> forall j :: 0 <= j < |rows| ==> rows[j].key != k
  {
    if rows == [] then None
    else if rows[0].key == k then Some(0)
    else match IndexOf(rows[1..], k)
      case None => None
      case Some(i) => Some(i + 1)
  }

  predicate Has<K(==), A, V>(t: TableState<K, A, V>, k: K) {
    IndexOf(t.rows, k).Some?
  }

  /** The id of the record a lookup of k finds. */
  function IdOf<K(==), A, V>(t: TableState<K, A, V>, k: K): nat
    requires Has(t, k)
  {
    t.rows[IndexOf(t.rows, k).value].id
  }

  /** Every id is below the counter, and no two records share an id. */
  ghost predicate FreshIds<K, A, V>(t: TableState<K, A, V>) {
    && (forall i :: 0 <= i < |t.rows| ==> t.rows[i].id < t.nextId)
    && (forall i, j :: 0 <= i < j < |t.rows| ==> t.rows[i].id != t.rows[j].id)
  }

  /** At most one record per identity. */
  ghost predicate UniqueKeys<K, A, V>(t: TableState<K, A, V>) {
    forall i, j :: 0 <= i < j < |t.rows| ==> t.rows[i].key != t.rows[j].key
  }

  /** `create`: append a record carrying the next id. */
  function Insert<K, A, V>(t: TableState<K, A, V>, k: K, a: A, v: V): TableState<K, A, V> {
    TableState(t.rows + [Row(t.nextId, k, a, v)], t.nextId + 1)
  }

  /** `update where id`: overwrite the attribute of the record with that id. */
  function SetById<K, A, V>(t: TableState<K, A, V>, id: nat, v: V): TableState<K, A, V> {
    TableState(
      seq(|t.rows|, i requires 0 <= i < |t.rows| =>
        if t.rows[i].id == id then t.rows[i].(val := v) else t.rows[i]),
      t.nextId)
  }

  /** Find the first record with the write's identity; overwrite its
      attribute if there is one, create it otherwise. */
  function Upsert<K(==), A, V>(t: TableState<K, A, V>, w: Write<K, A, V>): (r: TableState<K, A, V>)
    ensures Has(r, w.key)
  {
    match IndexOf(t.rows, w.key)
    case Some(i) =>
      var r := t.(rows := t.rows[i := t.rows[i].(val := w.val)]);
      assert r.rows[i].key == w.key;
      r
    case None =>
      var r := Insert(t, w.key, w.fixed, w.val);
      assert r.rows[|t.rows|].key == w.key;
      r
  }

  /** A sequence of upserts, applied first to last. */
  function UpsertAll<K(==), A, V>(t: TableState<K, A, V>, ws: seq<Write<K, A, V>>): TableState<K, A, V> {
    if ws == [] then t else Upsert(UpsertAll(t, ws[..|ws| - 1]), ws[|ws| - 1])
  }

  /** Some write of ws is about identity k. */
  predicate Writes<K(==), A, V>(ws: seq<Write<K, A, V>>, k: K) {
    exists j :: 0 <= j < |ws| && ws[j].key == k
  }

  /** The position of the last write about k. */
  function LastIndex<K(==), A, V>(ws: seq<Write<K, A, V>>, k: K): (r: nat)
    requires Writes(ws, k)
    ensures r < |ws| && ws[r].key == k
    ensures forall j :: r < j < |ws| ==> ws[j].key != k
  {
    if ws[|ws| - 1].key == k then |ws| - 1
    else
      assert Writes(ws[..|ws| - 1], k) by {
        var j :| 0 <= j < |ws| && ws[j].key == k;
        assert ws[..|ws| - 1][j].key == k;
      }
      LastIndex(ws[..|ws| - 1], k)
  }

  /** t2 keeps every record of t1 in place with its id, identity and fixed
      attributes; it may have overwritten attributes and appended records. */
  ghost predicate Extends<K, A, V>(t1: TableState<K, A, V>, t2: TableState<K, A, V>) {
    && |t1.rows| <= |t2.rows|
    && t1.nextId <= t2.nextId
    && forall i :: 0 <= i < |t1.rows| ==>
         t2.rows[i].id == t1.rows[i].id && t2.rows[i].key == t1.rows[i].key && t2.rows[i].fixed == t1.rows[i].fixed
  }

  /** rows2 is rows1 followed by one new record per write, in order, each
      carrying its write's identity and attributes. */
  ghost predicate AppendedAre<K, A, V>(rows1: seq<Row<K, A, V>>, rows2: seq<Row<K, A, V>>, ws: seq<Write<K, A, V>>) {
    && rows1 <= rows2
    && |rows2| == |rows1| + |ws|
    && forall i :: 0 <= i < |ws| ==>
         rows2[|rows1| + i].key == ws[i].key && rows2[|rows1| + i].fixed == ws[i].fixed && rows2[|rows1| + i].val == ws[i].val
  }

  /** Appending two batches of records one after the other appends their
      concatenation. */
  lemma AppendedTrans<K, A, V>(rows1: seq<Row<K, A, V>>, rows2: seq<Row<K, A, V>>, rows3: seq<Row<K, A, V>>,
                               ws1: seq<Write<K, A, V>>, ws2: seq<Write<K, A, V>>)
    requires AppendedAre(rows1, rows2, ws1) && AppendedAre(rows2, rows3, ws2)
    ensures AppendedAre(rows1, rows3, ws1 + ws2)
  {
    forall i | 0 <= i < |ws1 + ws2|
      ensures rows3[|rows1| + i].key == (ws1 + ws2)[i].key
      ensures rows3[|rows1| + i].fixed == (ws1 + ws2)[i].fixed
      ensures rows3[|rows1| + i].val == (ws1 + ws2)[i].val
    {
      if i < |ws1| {
        assert rows3[|rows1| + i] == rows2[|rows1| + i];
      } else {
        assert rows3[|rows1| + i] == rows3[|rows2| + (i - |ws1|)];
      }
    }
  }

  /** A lookup that succeeds keeps finding the same record as the table grows. */
  lemma IndexStable<K, A, V>(t1: TableState<K, A, V>, t2: TableState<K, A, V>, k: K)
    requires Extends(t1, t2) && Has(t1, k)
    ensures IndexOf(t2.rows, k) == IndexOf(t1.rows, k)
    ensures Has(t2, k) && IdOf(t2, k) == IdOf(t1, k)
  {
    var i := IndexOf(t1.rows, k).value;
    assert t2.rows[i].key == k;
  }

  lemma ExtendsTrans<K, A, V>(t1: TableState<K, A, V>, t2: TableState<K, A, V>, t3: TableState<K, A, V>)
    requires Extends(t1, t2) && Extends(t2, t3)
    ensures Extends(t1, t3)
  {
  }

  /** One upsert changes only the first record with the written identity, or
      appends one record with that identity. */
  lemma UpsertShape<K, A, V>(t: TableState<K, A, V>, w: Write<K, A, V>)
    ensures Extends(t, Upsert(t, w))
    ensures forall i :: 0 <= i < |t.rows| && t.rows[i].key != w.key ==> Upsert(t, w).rows[i] == t.rows[i]
    ensures forall i :: |t.rows| <= i < |Upsert(t, w).rows| ==> Upsert(t, w).rows[i].key == w.key
    ensures Has(t, w.key) ==> Upsert(t, w).nextId == t.nextId && |Upsert(t, w).rows| == |t.rows|
    ensures !Has(t, w.key) ==> |Upsert(t, w).rows| == |t.rows| + 1
    ensures Upsert(t, w).rows[IndexOf(Upsert(t, w).rows, w.key).value].val == w.val
  {
    if Has(t, w.key) {
      IndexStable(t, Upsert(t, w), w.key);
    } else {
      assert Upsert(t, w).rows[|t.rows|].key == w.key;
    }
  }

  /** Frame of a whole batch: every record keeps its place, id, identity and
      fixed attributes; a record whose identity the batch never writes is
      unchanged; every appended record has an identity the batch writes. */
  lemma {:induction false} UpsertAllShape<K, A, V>(t: TableState<K, A, V>, ws: seq<Write<K, A, V>>)
    ensures Extends(t, UpsertAll(t, ws))
    ensures forall i :: 0 <= i < |t.rows| && !Writes(ws, t.rows[i].key) ==> UpsertAll(t, ws).rows[i] == t.rows[i]
    ensures forall i :: |t.rows| <= i < |UpsertAll(t, ws).rows| ==> Writes(ws, UpsertAll(t, ws).rows[i].key)
  {
    if ws != [] {
      var init, w := ws[..|ws| - 1], ws[|ws| - 1];
      var mid := UpsertAll(t, init);
      UpsertAllShape(t, init);
      UpsertShape(mid, w);
      ExtendsTrans(t, mid, UpsertAll(t, ws));
      forall i | 0 <= i < |t.rows| && !Writes(ws, t.rows[i].key)
        ensures UpsertAll(t, ws).rows[i] == t.rows[i]
      {
        assert ws[|ws| - 1].key != t.rows[i].key;
      }
      forall i | |t.rows| <= i < |UpsertAll(t, ws).rows|
        ensures Writes(ws, UpsertAll(t, ws).rows[i].key)
      {
        var k := UpsertAll(t, ws).rows[i].key;
        if i < |mid.rows| {
          assert mid.rows[i].key == k;
          var j :| 0 <= j < |init| && init[j].key == k;
          assert ws[j].key == k;
        } else {
          assert ws[|ws| - 1].key == k;
        }
      }
    }
  }

  /** Every written identity has a record afterwards, and the record a lookup
      finds carries the value of the LAST write about it. */
  lemma {:induction false} LastWriteWins<K, A, V>(t: TableState<K, A, V>, ws: seq<Write<K, A, V>>, k: K)
    requires Writes(ws, k)
    ensures Has(UpsertAll(t, ws), k)
    ensures UpsertAll(t, ws).rows[IndexOf(UpsertAll(t, ws).rows, k).value].val == ws[LastIndex(ws, k)].val
  {
    var init, w := ws[..|ws| - 1], ws[|ws| - 1];
    var mid := UpsertAll(t, init);
    if w.key != k {
      var j :| 0 <= j < |ws| && ws[j].key == k;
      assert init[j].key == k;
      LastWriteWins(t, init, k);
      UpsertShape(mid, w);
      IndexStable(mid, Upsert(mid, w), k);
      assert LastIndex(ws, k) == LastIndex(init, k);
    } else {
      UpsertShape(mid, w);
    }
  }

  /** Upserting a batch and then another is upserting their concatenation. */
  lemma {:induction false} UpsertAllAppend<K, A, V>(t: TableState<K, A, V>, ws1: seq<Write<K, A, V>>, ws2: seq<Write<K, A, V>>)
    ensures UpsertAll(t, ws1 + ws2) == UpsertAll(UpsertAll(t, ws1), ws2)
  {
    if ws2 != [] {
      UpsertAllAppend(t, ws1, ws2[..|ws2| - 1]);
      assert (ws1 + ws2)[..|ws1 + ws2| - 1] == ws1 + ws2[..|ws2| - 1];
      assert (ws1 + ws2)[|ws1 + ws2| - 1] == ws2[|ws2| - 1];
    } else {
      assert ws1 + ws2 == ws1;
    }
  }

  /** Every identity the batch writes is present in t. */
  ghost predicate Covers<K, A, V>(t: TableState<K, A, V>, ws: seq<Write<K, A, V>>) {
    forall j :: 0 <= j < |ws| ==> Has(t, ws[j].key)
  }

  /** What record i of t becomes under a batch that creates nothing: the
      first record of each written identity takes the last value written for
      it; every other record stays as it is. */
  ghost function Overwritten<K, A, V>(t: TableState<K, A, V>, ws: seq<Write<K, A, V>>, i: nat): Row<K, A, V>
    requires i < |t.rows|
  {
    var k := t.rows[i].key;
    if Writes(ws, k) && IndexOf(t.rows, k) == Some(i) then t.rows[i].(val := ws[LastIndex(ws, k)].val)
    else t.rows[i]
  }

  /** On a table that already holds every written identity, a batch creates
      nothing and allocates no id. */
  lemma {:induction false} UpsertAllCoveredSize<K, A, V>(t: TableState<K, A, V>, ws: seq<Write<K, A, V>>)
    requires Covers(t, ws)
    ensures UpsertAll(t, ws).nextId == t.nextId && |UpsertAll(t, ws).rows| == |t.rows|
    ensures Extends(t, UpsertAll(t, ws))
  {
    if ws != [] {
      var init, w := ws[..|ws| - 1], ws[|ws| - 1];
      UpsertAllCoveredSize(t, init);
      UpsertAllShape(t, ws);
      IndexStable(t, UpsertAll(t, init), w.key);
    }
  }

  /** One more write changes Overwritten only at the first record of its identity. */
  lemma OverwrittenStep<K, A, V>(t: TableState<K, A, V>, ws: seq<Write<K, A, V>>, i: nat)
    requires ws != [] && i < |t.rows|
    ensures Overwritten(t, ws, i) ==
      if IndexOf(t.rows, ws[|ws| - 1].key) == Some(i) then Overwritten(t, ws[..|ws| - 1], i).(val := ws[|ws| - 1].val)
      else Overwritten(t, ws[..|ws| - 1], i)
  {
    var init, w, k := ws[..|ws| - 1], ws[|ws| - 1], t.rows[i].key;
    if k != w.key {
      if Writes(ws, k) {
        var j :| 0 <= j < |ws| && ws[j].key == k;
        assert init[j].key == k;
        assert LastIndex(ws, k) == LastIndex(init, k);
      }
    } else if IndexOf(t.rows, k) == Some(i) {
      assert LastIndex(ws, k) == |ws| - 1;
    }
  }

  /** With the written identity present, an upsert overwrites its first record. */
  lemma UpsertFound<K, A, V>(t: TableState<K, A, V>, w: Write<K, A, V>)
    requires Has(t, w.key)
    ensures Upsert(t, w) == t.(rows := t.rows[IndexOf(t.rows, w.key).value := t.rows[IndexOf(t.rows, w.key).value].(val := w.val)])
  {
  }

  /** On a table that already holds every written identity, a batch only
      overwrites: record i ends up as Overwritten(t, ws, i). */
  lemma {:induction false} UpsertAllCoveredAt<K, A, V>(t: TableState<K, A, V>, ws: seq<Write<K, A, V>>, i: nat)
    requires Covers(t, ws) && i < |t.rows|
    ensures i < |UpsertAll(t, ws).rows| && UpsertAll(t, ws).rows[i] == Overwritten(t, ws, i)
  {
    UpsertAllCoveredSize(t, ws);
    if ws != [] {
      var init, w := ws[..|ws| - 1], ws[|ws| - 1];
      var mid := UpsertAll(t, init);
      assert Covers(t, init);
      UpsertAllCoveredSize(t, init);
      UpsertAllCoveredAt(t, init, i);
      IndexStable(t, mid, w.key);
      UpsertFound(mid, w);
      OverwrittenStep(t, ws, i);
    }
  }

  /** Applying the same batch twice leaves the table as applying it once. */
  lemma UpsertAllIdempotent<K, A, V>(t: TableState<K, A, V>, ws: seq<Write<K, A, V>>)
    ensures UpsertAll(UpsertAll(t, ws), ws) == UpsertAll(t, ws)
  {
    var once := UpsertAll(t, ws);
    forall j | 0 <= j < |ws| ensures Has(once, ws[j].key) {
      LastWriteWins(t, ws, ws[j].key);
    }
    UpsertAllCoveredSize(once, ws);
    var twice := UpsertAll(once, ws);
    forall i | 0 <= i < |once.rows| ensures twice.rows[i] == once.rows[i] {
      UpsertAllCoveredAt(once, ws, i);
      var k := once.rows[i].key;
      if Writes(ws, k) && IndexOf(once.rows, k) == Some(i) {
        LastWriteWins(t, ws, k);
      }
    }
    assert twice.rows == once.rows;
  }

  /** Upserts keep identities unique. */
  lemma {:induction false} UpsertAllUnique<K, A, V>(t: TableState<K, A, V>, ws: seq<Write<K, A, V>>)
    requires UniqueKeys(t)
    ensures UniqueKeys(UpsertAll(t, ws))
  {
    if ws != [] {
      var mid := UpsertAll(t, ws[..|ws| - 1]);
      UpsertAllUnique(t, ws[..|ws| - 1]);
      UpsertShape(mid, ws[|ws| - 1]);
    }
  }

  /** Upserts keep ids fresh and distinct. */
  lemma {:induction false} UpsertAllFresh<K, A, V>(t: TableState<K, A, V>, ws: seq<Write<K, A, V>>)
    requires FreshIds(t)
    ensures FreshIds(UpsertAll(t, ws))
  {
    if ws != [] {
      UpsertAllFresh(t, ws[..|ws| - 1]);
    }
  }

  /** Under unique identities, the record a lookup finds is the only record
      with that identity. */
  lemma OnlyRecord<K, A, V>(t: TableState<K, A, V>, k: K, j: nat)
    requires UniqueKeys(t) && j < |t.rows| && t.rows[j].key == k
    ensures IndexOf(t.rows, k) == Some(j)
  {
  }

  /** With distinct ids, updating the found record by its id is the upsert's
      overwrite. */
  lemma SetByIdIsUpsert<K, A, V>(t: TableState<K, A, V>, w: Write<K, A, V>)
    requires FreshIds(t) && Has(t, w.key)
    ensures SetById(t, IdOf(t, w.key), w.val) == Upsert(t, w)
  {
    var i := IndexOf(t.rows, w.key).value;
    assert SetById(t, IdOf(t, w.key), w.val).rows == t.rows[i := t.rows[i].(val := w.val)];
  }

  /** `create` keeps ids fresh and distinct, and the new record is the only
      one carrying the id it was given. */
  lemma InsertFresh<K, A, V>(t: TableState<K, A, V>, k: K, a: A, v: V)
    requires FreshIds(t)
    ensures FreshIds(Insert(t, k, a, v))
    ensures forall i :: 0 <= i < |t.rows| ==> t.rows[i].id != t.nextId
  {
  }

  /** `update` keeps ids fresh and distinct. */
  lemma SetByIdFresh<K, A, V>(t: TableState<K, A, V>, id: nat, v: V)
    requires FreshIds(t)
    ensures FreshIds(SetById(t, id, v))
  {
    var r := SetById(t, id, v);
    assert forall i :: 0 <= i < |t.rows| ==> r.rows[i].id == t.rows[i].id;
  }

  /** The id an upsert leaves behind for its identity: the existing one, or
      the counter's value when it created the record. */
  lemma UpsertId<K, A, V>(t: TableState<K, A, V>, w: Write<K, A, V>)
    ensures IdOf(Upsert(t, w), w.key) == if Has(t, w.key) then IdOf(t, w.key) else t.nextId
  {
    UpsertShape(t, w);
    if Has(t, w.key) {
      IndexStable(t, Upsert(t, w), w.key);
    } else {
      assert IndexOf(Upsert(t, w).rows, w.key) == Some(|t.rows|);
    }
  }

  /** Upserting the value a record already carries changes nothing. */
  lemma UpsertSame<K, A, V>(t: TableState<K, A, V>, w: Write<K, A, V>)
    requires Has(t, w.key) && t.rows[IndexOf(t.rows, w.key).value].val == w.val
    ensures Upsert(t, w) == t
  {
    var i := IndexOf(t.rows, w.key).value;
    assert t.rows[i := t.rows[i].(val := w.val)] == t.rows;
  }

  /** With distinct ids, distinct identities are found under distinct ids. */
  lemma IdOfInjective<K, A, V>(t: TableState<K, A, V>, k1: K, k2: K)
    requires FreshIds(t) && Has(t, k1) && Has(t, k2) && k1 != k2
    ensures IdOf(t, k1) != IdOf(t, k2)
  {
  }

  /** Upserting one write and then a batch is upserting their concatenation. */
  lemma UpsertAllCons<K, A, V>(t: TableState<K, A, V>, w: Write<K, A, V>, ws: seq<Write<K, A, V>>)
    ensures UpsertAll(t, [w] + ws) == UpsertAll(Upsert(t, w), ws)
  {
    UpsertAllAppend(t, [w], ws);
    assert [w][..0] == [];
  }

  /** Exactly one record with identity k: the one a lookup finds. */
  ghost predicate ExactlyOne<K, A, V>(t: TableState<K, A, V>, k: K) {
    Has(t, k) && forall i :: 0 <= i < |t.rows| && t.rows[i].key == k ==> IndexOf(t.rows, k) == Some(i)
  }

  /** Under unique identities, a record that is found is the only one. */
  lemma UniqueExactlyOne<K, A, V>(t: TableState<K, A, V>, k: K)
    requires UniqueKeys(t) && Has(t, k)
    ensures ExactlyOne(t, k)
  {
    forall i | 0 <= i < |t.rows| && t.rows[i].key == k
      ensures IndexOf(t.rows, k) == Some(i)
    {
      OnlyRecord(t, k, i);
    }
  }

  /** Creating a record for an identity that has none keeps identities
      unique, and leaves exactly one record for it. */
  lemma InsertUnique<K, A, V>(t: TableState<K, A, V>, k: K, a: A, v: V)
    requires UniqueKeys(t) && !Has(t, k)
    ensures UniqueKeys(Insert(t, k, a, v)) && ExactlyOne(Insert(t, k, a, v), k)
  {
    var r := Insert(t, k, a, v);
    assert r.rows[|t.rows|].key == k;
    assert IndexOf(r.rows, k) == Some(|t.rows|);
  }

  /** The find-first lookup, as a loop over the records. */
  method FindFirst<K(==), A, V>(t: TableState<K, A, V>, k: K) returns (r: Option<Row<K, A, V>>)
    ensures r.Some? <==> Has(t, k)
    ensures r.Some? ==> r.value == t.rows[IndexOf(t.rows, k).value]
  {
    var i := 0;
    while i < |t.rows|
      invariant 0 <= i <= |t.rows|
      invariant forall j :: 0 <= j < i ==> t.rows[j].key != k
    {
      if t.rows[i].key == k {
        return Some(t.rows[i]);
      }
      i := i + 1;
    }
    return None;
  }
}
