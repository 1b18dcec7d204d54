/** The spots table behind the repository interface: the map semantics the
    spot service relies on (find, exists, save, delete, list), with
    identity-generated keys. */
module SpotRepository {
  import opened Wrappers
  import opened SpotModel

  /** The stored rows by id, the order in which `findAll` lists them
      (insertion order), and the next value of the identity column. */
  datatype SpotTable = SpotTable(rows: map<SpotId, Spot>, order: seq<SpotId>, nextId: SpotId)

  /** No id is listed twice. */
  predicate Distinct(ids: seq<SpotId>) {
    forall i, j | 0 <= i < j < |ids| :: ids[i] != ids[j]
  }

  /** The table invariant: the listing holds every stored id exactly once,
      every row carries its own key, and every key was handed out already. */
  ghost predicate Valid(t: SpotTable) {
    && Distinct(t.order)
    && (forall k :: k in t.order <==> k in t.rows)
    && (forall k | k in t.rows :: t.rows[k].id == Some(k) && FirstId <= k < t.nextId)
    && FirstId <= t.nextId
  }

  /** The table before anything was saved. */
  function Empty(): (t: SpotTable)
    ensures Valid(t) && |t.rows| == 0 && t.order == []
  {
    SpotTable(map[], [], FirstId)
  }

  /** `findById`: the row with that key, if any. The key asked for is any
      `Long`, negative ones included; a row is found exactly when `findAll`
      lists that key, and the row found carries it. */
  function FindById(t: SpotTable, id: int): (r: Option<Spot>)
    requires Valid(t)
    ensures r.Some? <==> id in t.order
    ensures r.Some? ==> r.value.id == Some(id) && r.value == t.rows[id]
  {
    if id >= 0 && id in t.rows then Some(t.rows[id]) else None
  }

  /** `existsById` agrees with `findById`. */
  function ExistsById(t: SpotTable, id: int): (b: bool)
    requires Valid(t)
    ensures b <==> FindById(t, id).Some?
  {
    id >= 0 && id in t.rows
  }

  /** `save`: a spot without an id is inserted under a fresh key from the
      identity column and listed last; a spot with an id overwrites the row
      with that key and keeps its place in the listing. Returns the new table
      and the saved spot, which always has an id. */
  function Save(t: SpotTable, spot: Spot): (res: (SpotTable, Spot))
    requires Valid(t)
    requires spot.id.Some? ==> spot.id.value in t.rows
    ensures Valid(res.0)
    ensures res.1.id.Some? && res.1 == spot.(id := res.1.id)
    ensures res.0.rows == t.rows[res.1.id.value := res.1]
    ensures spot.id.Some? ==> res.1 == spot && res.0.order == t.order && res.0.nextId == t.nextId
    ensures spot.id.None? ==> res.1.id.value !in t.rows && res.0.order == t.order + [res.1.id.value]
    ensures spot.id.None? ==> res.1.id == Some(t.nextId) && res.0.nextId == t.nextId + 1
  {
    match spot.id
    case None =>
      var key := t.nextId;
      var saved := spot.(id := Some(key));
      assert key !in t.order;
      (SpotTable(t.rows[key := saved], t.order + [key], key + 1), saved)
    case Some(key) =>
      (t.(rows := t.rows[key := spot]), spot)
  }

  /** `ids` with `id` taken out, everything else in its original order. */
  function RemoveId(ids: seq<SpotId>, id: SpotId): (r: seq<SpotId>)
    ensures forall k :: k in r <==> k in ids && k != id
    ensures |r| <= |ids|
    ensures Distinct(ids) ==> Distinct(r)
    ensures id !in ids ==> r == ids
  {
    if ids == [] then []
    else if ids[0] == id then RemoveId(ids[1..], id)
    else
      var rest := RemoveId(ids[1..], id);
      DistinctTail(ids);
      DistinctCons(ids[0], rest);
      [ids[0]] + rest
  }

  /** Dropping the head of a listing without repetitions keeps it so, and
      the head does not occur again. */
  lemma DistinctTail(ids: seq<SpotId>)
    requires ids != []
    ensures Distinct(ids) ==> Distinct(ids[1..]) && ids[0] !in ids[1..]
  {
  }

  /** Prepending an id that does not occur keeps a listing without repetitions. */
  lemma DistinctCons(x: SpotId, ids: seq<SpotId>)
    ensures Distinct(ids) && x !in ids ==> Distinct([x] + ids)
  {
  }

  /** In a listing without repetitions, removing an id cuts out exactly the
      one position that holds it. */
  lemma {:induction false} RemoveIdAt(ids: seq<SpotId>, p: nat)
    requires Distinct(ids) && p < |ids|
    ensures RemoveId(ids, ids[p]) == ids[..p] + ids[p + 1..]
  {
    var id := ids[p];
    if p == 0 {
      assert id !in ids[1..];
    } else {
      assert ids[0] != id;
      var tail := ids[1..];
      assert Distinct(tail);
      RemoveIdAt(tail, p - 1);
      assert tail[p - 1] == id;
      assert RemoveId(ids, id) == [ids[0]] + RemoveId(tail, id);
      assert [ids[0]] + tail[..p - 1] == ids[..p];
      assert tail[p..] == ids[p + 1..];
    }
  }

  /** `deleteById`: the row with that key is gone and nothing else changes;
      a missing key is ignored. Keys are not reused. */
  function DeleteById(t: SpotTable, id: int): (t': SpotTable)
    requires Valid(t)
    ensures Valid(t')
    ensures t'.rows == t.rows - {id} && t'.nextId == t.nextId
    ensures forall k :: k in t'.order <==> k in t.order && k != id
    ensures id !in t.rows ==> t' == t
  {
    if id < 0 then t else SpotTable(t.rows - {id}, RemoveId(t.order, id), t.nextId)
  }

  /** A listing without repetitions has as many distinct ids as positions. */
  lemma {:induction false} DistinctCard(ids: seq<SpotId>)
    requires Distinct(ids)
    ensures |IdSet(ids)| == |ids|
  {
    if ids != [] {
      var tail := ids[1..];
      DistinctTail(ids);
      DistinctCard(tail);
      assert ids[0] !in IdSet(tail);
      assert IdSet(ids) == {ids[0]} + IdSet(tail);
    }
  }

  /** The ids a listing mentions. */
  function IdSet(ids: seq<SpotId>): set<SpotId> {
    set k | k in ids
  }

  /** The listing has one entry per stored row. */
  lemma ListingCoversTable(t: SpotTable)
    requires Valid(t)
    ensures |t.order| == |t.rows|
  {
    DistinctCard(t.order);
    assert t.rows.Keys == IdSet(t.order);
  }

  /** The rows under the keys of `order`, in that order. */
  function Rows(rows: map<SpotId, Spot>, order: seq<SpotId>): (spots: seq<Spot>)
    requires forall k | k in order :: k in rows
    ensures |spots| == |order|
    ensures forall i | 0 <= i < |order| :: spots[i] == rows[order[i]]
  {
    seq(|order|, i requires 0 <= i < |order| => rows[order[i]])
  }

  /** `findAll`: every stored spot once, in listing order. */
  function FindAll(t: SpotTable): (spots: seq<Spot>)
    requires Valid(t)
    ensures |spots| == |t.order| == |t.rows|
    ensures forall i | 0 <= i < |spots| :: spots[i].id == Some(t.order[i]) && spots[i] == t.rows[t.order[i]]
    ensures forall k | k in t.rows :: t.rows[k] in spots
  {
    ListingCoversTable(t);
    var spots := Rows(t.rows, t.order);
    assert forall k | k in t.rows :: exists i | 0 <= i < |t.order| :: t.order[i] == k;
    spots
  }

  /** Inserting a new spot lists it after all spots stored before. */
  lemma FindAllAfterInsert(t: SpotTable, spot: Spot)
    requires Valid(t) && spot.id.None?
    ensures FindAll(Save(t, spot).0) == FindAll(t) + [Save(t, spot).1]
  {
    var (t', saved) := Save(t, spot);
    RowsAppend(t.rows, t.order, saved.id.value, saved);
  }

  /** Overwriting a stored spot replaces it at its position in the listing
      and leaves every other entry as it was. */
  lemma FindAllAfterOverwrite(t: SpotTable, spot: Spot, p: nat)
    requires Valid(t) && p < |t.order| && spot.id == Some(t.order[p])
    ensures FindAll(Save(t, spot).0) == FindAll(t)[p := spot]
  {
    RowsUpdate(t.rows, t.order, p, spot);
  }

  /** Deleting a stored spot cuts exactly its entry out of the listing;
      the others keep their relative order. */
  lemma {:induction false} FindAllAfterDelete(t: SpotTable, p: nat)
    requires Valid(t) && p < |t.order|
    ensures FindAll(DeleteById(t, t.order[p])) == FindAll(t)[..p] + FindAll(t)[p + 1..]
  {
    RemoveIdAt(t.order, p);
    RowsCut(t.rows, t.order, p);
  }

  /** A key not listed yet, stored and appended, adds its row at the end. */
  lemma RowsAppend(rows: map<SpotId, Spot>, order: seq<SpotId>, key: SpotId, spot: Spot)
    requires forall k | k in order :: k in rows
    requires key !in order
    ensures Rows(rows[key := spot], order + [key]) == Rows(rows, order) + [spot]
  {
    var after, expected := Rows(rows[key := spot], order + [key]), Rows(rows, order) + [spot];
    forall i | 0 <= i < |after|
      ensures after[i] == expected[i]
    {
      if i < |order| {
        assert (order + [key])[i] == order[i] != key;
      }
    }
  }

  /** Overwriting the row of the key listed at `p`, in a listing without
      repetitions, changes the rows listed at `p` and nowhere else. */
  lemma RowsUpdate(rows: map<SpotId, Spot>, order: seq<SpotId>, p: nat, spot: Spot)
    requires forall k | k in order :: k in rows
    requires Distinct(order) && p < |order|
    ensures Rows(rows[order[p] := spot], order) == Rows(rows, order)[p := spot]
  {
    var after, expected := Rows(rows[order[p] := spot], order), Rows(rows, order)[p := spot];
    forall i | 0 <= i < |after|
      ensures after[i] == expected[i]
    {
      if i != p {
        assert order[i] != order[p];
      }
    }
  }

  /** Cutting the key listed at `p` out of a listing without repetitions,
      and its row out of the rows, cuts exactly that entry out of the rows
      listed. */
  lemma RowsCut(rows: map<SpotId, Spot>, order: seq<SpotId>, p: nat)
    requires forall k | k in order :: k in rows
    requires Distinct(order) && p < |order|
    ensures forall k | k in order[..p] + order[p + 1..] :: k in rows - {order[p]}
    ensures Rows(rows - {order[p]}, order[..p] + order[p + 1..]) == Rows(rows, order)[..p] + Rows(rows, order)[p + 1..]
  {
    var cut := order[..p] + order[p + 1..];
    forall k | k in cut
      ensures k in rows - {order[p]}
    {
      var i :| 0 <= i < |cut| && cut[i] == k;
      var j := if i < p then i else i + 1;
      assert cut[i] == order[j] && j != p;
    }
    var before := Rows(rows, order);
    var after, expected := Rows(rows - {order[p]}, cut), before[..p] + before[p + 1..];
    forall i | 0 <= i < |after|
      ensures after[i] == expected[i]
    {
      var j := if i < p then i else i + 1;
      assert cut[i] == order[j] && j != p;
      assert expected[i] == before[j];
    }
  }
}
