/**
 * The structured row store (`RowMap` in collab-database/src/rows/row_map.rs):
 * rows projected onto a document's generic map container, keyed by row id.
 *
 * The container is a map from row id to a value of the document's generic
 * value type. A well-formed row entry is a nested map holding the row's id,
 * height, visibility and cells under separate keys, so that edits to
 * different fields of one row touch different keys. Any other value stored
 * in the container is an entry that does not decode to a row.
 */
module Rows {
  import opened Wrappers

  /** The document's generic (JSON-like) value. */
  datatype Any = AInt(i: int) | ABool(b: bool) | AStr(s: string) | AMap(m: map<string, Any>)

  /** A cell is an opaque structured value, such as `{ "data": ... }`. */
  type Cell = map<string, Any>

  /** A row; `cells` is sparse: a field without a value has no key at all. */
  datatype Row = Row(id: string, height: int, visibility: bool, cells: map<string, Cell>)

  /** The keys of a row entry. */
  const ROW_ID := "id"
  const HEIGHT := "height"
  const VISIBILITY := "visibility"
  const CELLS := "cells"

  /** What a row entry decodes to when a field is missing. */
  const DEFAULT_ROW_HEIGHT := 60
  const DEFAULT_ROW_VISIBILITY := true

  /** The cells of a row as the nested map written under `CELLS`: one key per cell. */
  function EncodeCells(cells: map<string, Cell>): Any
  {
    AMap(map f | f in cells :: AMap(cells[f]))
  }

  /** The entry that inserting `row` leaves under `row.id`. */
  function EncodeRow(row: Row): Any
  {
    AMap(map[ROW_ID := AStr(row.id), HEIGHT := AInt(row.height),
             VISIBILITY := ABool(row.visibility), CELLS := EncodeCells(row.cells)])
  }

  /** Decodes a cells value; every cell must itself be a map. */
  function DecodeCells(v: Any): (r: Option<map<string, Cell>>)
    ensures r.Some? ==> v.AMap? && r.value.Keys == v.m.Keys
  {
    if v.AMap? && (forall f | f in v.m :: v.m[f].AMap?) then Some(map f | f in v.m :: v.m[f].m)
    else None
  }

  /**
   * Decodes the fields of a nested row map (`row_from_map_ref`). The id is
   * mandatory; a missing height, visibility or cells field takes its default;
   * a field holding a value of the wrong kind makes the entry undecodable.
   */
  function RowFromFields(fields: map<string, Any>): (r: Option<Row>)
    ensures r.Some? ==> ROW_ID in fields && fields[ROW_ID] == AStr(r.value.id)
  {
    if ROW_ID !in fields || !fields[ROW_ID].AStr? then None
    else if HEIGHT in fields && !fields[HEIGHT].AInt? then None
    else if VISIBILITY in fields && !fields[VISIBILITY].ABool? then None
    else
      var cells := if CELLS in fields then DecodeCells(fields[CELLS]) else Some(map[]);
      if cells.None? then None
      else
        Some(Row(fields[ROW_ID].s,
                 if HEIGHT in fields then fields[HEIGHT].i else DEFAULT_ROW_HEIGHT,
                 if VISIBILITY in fields then fields[VISIBILITY].b else DEFAULT_ROW_VISIBILITY,
                 cells.value))
  }

  /** Decodes one stored value (`row_from_value`): only a nested map can be a row. */
  function RowFromValue(v: Any): (r: Option<Row>)
    ensures r.Some? ==> v.AMap?
  {
    if v.AMap? then RowFromFields(v.m) else None
  }

  /** The decoded entry under `k`, if there is one and it decodes. */
  function DecodeAt(snapshot: map<string, Any>, k: string): Option<Row>
  {
    if k in snapshot then RowFromValue(snapshot[k]) else None
  }

  /** The keys whose entries decode to a row. */
  ghost function DecodableKeys(snapshot: map<string, Any>): set<string>
  {
    set k | k in snapshot && RowFromValue(snapshot[k]).Some?
  }

  /** The rows the decodable entries hold. */
  ghost function DecodedRows(snapshot: map<string, Any>): set<Row>
  {
    set k | k in snapshot && RowFromValue(snapshot[k]).Some? :: RowFromValue(snapshot[k]).value
  }

  /** `order` lists every key of `snapshot` exactly once. */
  predicate EnumeratesKeys(order: seq<string>, snapshot: map<string, Any>)
  {
    && (forall i, j | 0 <= i < j < |order| :: order[i] != order[j])
    && (forall k | k in order :: k in snapshot)
    && (forall k | k in snapshot :: k in order)
  }

  /**
   * A read transaction: the state of the container it observes, and the
   * container's own iteration order over that state.
   */
  datatype ReadTxn = ReadTxn(snapshot: map<string, Any>, order: seq<string>)
  {
    predicate Valid()
    {
      EnumeratesKeys(order, snapshot)
    }
  }

  /**
   * `get_row_with_txn`: the row stored under `rowId`. None when there is no
   * nested map under that id or when the entry does not decode.
   */
  function GetRowWithTxn(txn: ReadTxn, rowId: string): (r: Option<Row>)
    ensures rowId !in txn.snapshot ==> r.None?
    ensures rowId in txn.snapshot && !txn.snapshot[rowId].AMap? ==> r.None?
    ensures r.Some? <==> rowId in txn.snapshot && RowFromValue(txn.snapshot[rowId]).Some?
    ensures r.Some? ==> r.value in DecodedRows(txn.snapshot)
    ensures r == DecodeAt(txn.snapshot, rowId)
  {
    if rowId in txn.snapshot && txn.snapshot[rowId].AMap? then RowFromFields(txn.snapshot[rowId].m)
    else None
  }

  /** The iteration of `get_all_rows_with_txn`: decode each key in turn, skip failures. */
  function RowsInOrder(snapshot: map<string, Any>, order: seq<string>): (rows: seq<Row>)
    ensures |rows| <= |order|
  {
    if order == [] then []
    else
      var head := DecodeAt(snapshot, order[0]);
      (if head.Some? then [head.value] else []) + RowsInOrder(snapshot, order[1..])
  }

  /** Every row of the scan is the decoding of a key it visited. */
  lemma {:induction false} RowsInOrderSound(snapshot: map<string, Any>, order: seq<string>)
    ensures forall r | r in RowsInOrder(snapshot, order) :: r in DecodedRows(snapshot)
  {
    if order != [] {
      RowsInOrderSound(snapshot, order[1..]);
    }
  }

  /** Every decodable key the scan visits contributes its row. */
  lemma {:induction false} RowsInOrderComplete(snapshot: map<string, Any>, order: seq<string>, k: string)
    requires k in order && DecodeAt(snapshot, k).Some?
    ensures DecodeAt(snapshot, k).value in RowsInOrder(snapshot, order)
  {
    if order[0] != k {
      RowsInOrderComplete(snapshot, order[1..], k);
    }
  }

  /** The keys of `order` whose entries decode. */
  ghost function DecodableIn(snapshot: map<string, Any>, order: seq<string>): set<string>
  {
    set k | k in order && DecodeAt(snapshot, k).Some?
  }

  /** The decodable keys of a list are those of its head and of its tail, which are disjoint when the head is not repeated. */
  lemma DecodableInSplit(snapshot: map<string, Any>, order: seq<string>)
    requires order != [] && order[0] !in order[1..]
    ensures var head := if DecodeAt(snapshot, order[0]).Some? then {order[0]} else {};
      && DecodableIn(snapshot, order) == head + DecodableIn(snapshot, order[1..])
      && head !! DecodableIn(snapshot, order[1..])
  {
    forall k ensures k in order <==> k == order[0] || k in order[1..] {
      assert order == [order[0]] + order[1..];
    }
  }

  /** On keys listed once, the scan yields one row per decodable key. */
  lemma {:induction false} RowsInOrderCount(snapshot: map<string, Any>, order: seq<string>)
    requires forall i, j | 0 <= i < j < |order| :: order[i] != order[j]
    ensures |RowsInOrder(snapshot, order)| == |DecodableIn(snapshot, order)|
  {
    if order != [] {
      var tail := order[1..];
      assert forall i, j | 0 <= i < j < |tail| :: tail[i] == order[i + 1] && tail[j] == order[j + 1];
      RowsInOrderCount(snapshot, tail);
      assert order[0] !in tail by {
        forall i | 0 <= i < |tail| ensures tail[i] != order[0] {
          assert tail[i] == order[1 + i];
        }
      }
      DecodableInSplit(snapshot, order);
    }
  }

  /** The keys of `snapshot` whose entries decode to `r`. */
  ghost function KeysDecodingTo(snapshot: map<string, Any>, r: Row): set<string>
  {
    set k | k in snapshot && RowFromValue(snapshot[k]) == Some(r)
  }

  /** The keys of `order` whose entries decode to `r`. */
  ghost function KeysInDecodingTo(snapshot: map<string, Any>, order: seq<string>, r: Row): set<string>
  {
    set k | k in order && DecodeAt(snapshot, k) == Some(r)
  }

  /** The keys of a list decoding to `r` are those of its head and of its tail, disjoint when the head is not repeated. */
  lemma KeysInDecodingToSplit(snapshot: map<string, Any>, order: seq<string>, r: Row)
    requires order != [] && order[0] !in order[1..]
    ensures var head := if DecodeAt(snapshot, order[0]) == Some(r) then {order[0]} else {};
      && KeysInDecodingTo(snapshot, order, r) == head + KeysInDecodingTo(snapshot, order[1..], r)
      && head !! KeysInDecodingTo(snapshot, order[1..], r)
  {
    forall k ensures k in order <==> k == order[0] || k in order[1..] {
      assert order == [order[0]] + order[1..];
    }
  }

  /** On keys listed once, the scan yields each row as often as there are keys decoding to it. */
  lemma {:induction false} RowsInOrderMultiplicity(snapshot: map<string, Any>, order: seq<string>, r: Row)
    requires forall i, j | 0 <= i < j < |order| :: order[i] != order[j]
    ensures multiset(RowsInOrder(snapshot, order))[r] == |KeysInDecodingTo(snapshot, order, r)|
  {
    if order != [] {
      var tail := order[1..];
      assert forall i, j | 0 <= i < j < |tail| :: tail[i] == order[i + 1] && tail[j] == order[j + 1];
      RowsInOrderMultiplicity(snapshot, tail, r);
      assert order[0] !in tail by {
        forall i | 0 <= i < |tail| ensures tail[i] != order[0] {
          assert tail[i] == order[1 + i];
        }
      }
      KeysInDecodingToSplit(snapshot, order, r);
      var head := DecodeAt(snapshot, order[0]);
      assert RowsInOrder(snapshot, order)
             == (if head.Some? then [head.value] else []) + RowsInOrder(snapshot, tail);
    }
  }

  /**
   * `get_all_rows_with_txn`: the scan yields exactly the rows of the
   * decodable entries, one per entry, so a row appears as often as there
   * are entries decoding to it; entries that do not decode are skipped
   * rather than aborting the scan.
   */
  function GetAllRowsWithTxn(txn: ReadTxn): (rows: seq<Row>)
    requires txn.Valid()
    ensures forall r | r in rows :: r in DecodedRows(txn.snapshot)
    ensures forall k | k in txn.snapshot && RowFromValue(txn.snapshot[k]).Some? ::
              RowFromValue(txn.snapshot[k]).value in rows
    ensures forall r :: multiset(rows)[r] == |KeysDecodingTo(txn.snapshot, r)|
    ensures |rows| == |DecodableKeys(txn.snapshot)| <= |txn.snapshot|
  {
    var rows := RowsInOrder(txn.snapshot, txn.order);
    RowsInOrderSound(txn.snapshot, txn.order);
    forall k | k in txn.snapshot && RowFromValue(txn.snapshot[k]).Some?
      ensures RowFromValue(txn.snapshot[k]).value in rows
    {
      RowsInOrderComplete(txn.snapshot, txn.order, k);
    }
    forall r ensures multiset(rows)[r] == |KeysDecodingTo(txn.snapshot, r)| {
      RowsInOrderMultiplicity(txn.snapshot, txn.order, r);
      assert KeysInDecodingTo(txn.snapshot, txn.order, r) == KeysDecodingTo(txn.snapshot, r);
    }
    RowsInOrderCount(txn.snapshot, txn.order);
    assert DecodableIn(txn.snapshot, txn.order) == DecodableKeys(txn.snapshot);
    SubsetNoLarger(DecodableKeys(txn.snapshot), txn.snapshot.Keys);
    rows
  }

  lemma SubsetNoLarger<T>(a: set<T>, b: set<T>)
    requires a <= b
    ensures |a| <= |b|
  {
    assert b == a + (b - a);
    assert a !! (b - a);
  }

  /** The cells written by an insertion decode back to the same cells. */
  lemma CellsRoundTrip(cells: map<string, Cell>)
    ensures DecodeCells(EncodeCells(cells)) == Some(cells)
  {
    var v := EncodeCells(cells);
    assert forall f | f in v.m :: v.m[f] == AMap(cells[f]);
    assert (map f | f in v.m :: v.m[f].m) == cells;
  }

  /** Inserting then reading back yields the inserted row (round trip). */
  lemma InsertThenGet(container: map<string, Any>, row: Row, order: seq<string>)
    ensures GetRowWithTxn(ReadTxn(container[row.id := EncodeRow(row)], order), row.id) == Some(row)
  {
    CellsRoundTrip(row.cells);
  }

  /** After an insertion, a full scan of the container includes the inserted row. */
  lemma InsertThenScan(container: map<string, Any>, row: Row, order: seq<string>)
    requires EnumeratesKeys(order, container[row.id := EncodeRow(row)])
    ensures row in GetAllRowsWithTxn(ReadTxn(container[row.id := EncodeRow(row)], order))
  {
    var c := container[row.id := EncodeRow(row)];
    InsertThenGet(container, row, order);
    assert RowFromValue(c[row.id]) == Some(row);
  }

  /** Inserting a row leaves every other id reading back as before. */
  lemma InsertLeavesOtherRows(container: map<string, Any>, row: Row, other: string, order: seq<string>, order': seq<string>)
    requires other != row.id
    ensures GetRowWithTxn(ReadTxn(container[row.id := EncodeRow(row)], order'), other)
            == GetRowWithTxn(ReadTxn(container, order), other)
  {
  }

  /**
   * Because each field is its own key, writing only the height of an
   * inserted row keeps its visibility and cells.
   */
  lemma HeightEditKeepsOtherFields(row: Row, height: int)
    ensures RowFromValue(AMap(EncodeRow(row).m[HEIGHT := AInt(height)])) == Some(row.(height := height))
  {
    CellsRoundTrip(row.cells);
  }

  /** A text cell of the test fixture. */
  function TextCell(data: string): Cell
  {
    map["data" := AStr(data)]
  }

  /** The three rows of the database fixture: row "2" has no f3 cell, row "3" no f2 cell. */
  const FIXTURE_ROW_1 := Row("1", 60, true, map["f1" := TextCell("1f1cell"), "f2" := TextCell("1f2cell"), "f3" := TextCell("1f3cell")])
  const FIXTURE_ROW_2 := Row("2", 60, true, map["f1" := TextCell("2f1cell"), "f2" := TextCell("2f2cell")])
  const FIXTURE_ROW_3 := Row("3", 60, true, map["f1" := TextCell("3f1cell"), "f3" := TextCell("3f3cell")])

  /** The container after inserting the three fixture rows into an empty one. */
  function FixtureContainer(): map<string, Any>
  {
    map[][FIXTURE_ROW_1.id := EncodeRow(FIXTURE_ROW_1)]
         [FIXTURE_ROW_2.id := EncodeRow(FIXTURE_ROW_2)]
         [FIXTURE_ROW_3.id := EncodeRow(FIXTURE_ROW_3)]
  }

  /** Each fixture row reads back as inserted. */
  lemma FixtureRowsReadBack(order: seq<string>)
    ensures GetRowWithTxn(ReadTxn(FixtureContainer(), order), "1") == Some(FIXTURE_ROW_1)
    ensures GetRowWithTxn(ReadTxn(FixtureContainer(), order), "2") == Some(FIXTURE_ROW_2)
    ensures GetRowWithTxn(ReadTxn(FixtureContainer(), order), "3") == Some(FIXTURE_ROW_3)
  {
    var c1 := map[][FIXTURE_ROW_1.id := EncodeRow(FIXTURE_ROW_1)];
    var c2 := c1[FIXTURE_ROW_2.id := EncodeRow(FIXTURE_ROW_2)];
    InsertThenGet(map[], FIXTURE_ROW_1, order);
    InsertThenGet(c1, FIXTURE_ROW_2, order);
    InsertThenGet(c2, FIXTURE_ROW_3, order);
    InsertLeavesOtherRows(c1, FIXTURE_ROW_2, "1", order, order);
    InsertLeavesOtherRows(c2, FIXTURE_ROW_3, "1", order, order);
    InsertLeavesOtherRows(c2, FIXTURE_ROW_3, "2", order, order);
  }

  /** The cells the fixture gives rows "2" and "3". */
  lemma FixtureCellKeys()
    ensures FIXTURE_ROW_2.cells.Keys == {"f1", "f2"}
    ensures FIXTURE_ROW_3.cells.Keys == {"f1", "f3"}
  {
  }

  /**
   * Cells stay sparse through insertion and reading back: a field a row has
   * no cell for is absent from its cells rather than stored as a placeholder.
   */
  lemma FixtureCellsStaySparse(order: seq<string>)
    ensures var row2 := GetRowWithTxn(ReadTxn(FixtureContainer(), order), "2");
      row2.Some? && row2.value.cells.Keys == {"f1", "f2"}
    ensures var row3 := GetRowWithTxn(ReadTxn(FixtureContainer(), order), "3");
      row3.Some? && row3.value.cells.Keys == {"f1", "f3"}
  {
    FixtureRowsReadBack(order);
    FixtureCellKeys();
  }

  /** A scan over three keys whose entries all decode yields their rows in that order. */
  lemma ScanOfThree(c: map<string, Any>, k1: string, k2: string, k3: string, r1: Row, r2: Row, r3: Row)
    requires DecodeAt(c, k1) == Some(r1) && DecodeAt(c, k2) == Some(r2) && DecodeAt(c, k3) == Some(r3)
    ensures RowsInOrder(c, [k1, k2, k3]) == [r1, r2, r3]
  {
    assert [k1, k2, k3][1..] == [k2, k3];
    assert [k2, k3][1..] == [k3];
    assert RowsInOrder(c, [k3]) == [r3];
  }

  /** Insertion order lists each key of the fixture container once. */
  lemma FixtureOrderValid()
    ensures ReadTxn(FixtureContainer(), ["1", "2", "3"]).Valid()
  {
    assert FixtureContainer().Keys == {"1", "2", "3"};
  }

  /** Scanning the fixture in insertion order returns the three rows as inserted. */
  lemma FixtureScan()
    ensures ReadTxn(FixtureContainer(), ["1", "2", "3"]).Valid()
    ensures GetAllRowsWithTxn(ReadTxn(FixtureContainer(), ["1", "2", "3"]))
            == [FIXTURE_ROW_1, FIXTURE_ROW_2, FIXTURE_ROW_3]
  {
    var txn := ReadTxn(FixtureContainer(), ["1", "2", "3"]);
    FixtureOrderValid();
    FixtureRowsReadBack(txn.order);
    ScanOfThree(txn.snapshot, "1", "2", "3", FIXTURE_ROW_1, FIXTURE_ROW_2, FIXTURE_ROW_3);
    assert GetAllRowsWithTxn(txn) == RowsInOrder(txn.snapshot, txn.order);
  }

  /** A handle on the existing entry of one row, handed to an update's mutator. */
  datatype RowUpdate = RowUpdate(rowId: string, fields: map<string, Any>)

  /** What a mutator does: the fields it writes, and the value it returns. */
  datatype Mutation = Mutation(edits: map<string, Any>, result: Option<Row>)

  class RowMap {
    /** The row container: row id to stored value. */
    var container: map<string, Any>
    /** Every update handle given to a mutator so far, in order. */
    ghost var handles: seq<RowUpdate>

    /** `new`: wraps an existing container. */
    constructor (container: map<string, Any>)
      ensures this.container == container && handles == []
    {
      this.container := container;
      handles := [];
    }

    /** Writes one field of the nested map under `rowId`. */
    method SetField(rowId: string, key: string, value: Any)
      requires rowId in container && container[rowId].AMap?
      modifies this
      ensures container == old(container)[rowId := AMap(old(container)[rowId].m[key := value])]
      ensures handles == old(handles)
    {
      container := container[rowId := AMap(container[rowId].m[key := value])];
    }

    /**
     * `insert_row_with_txn`: a fresh nested map under `row.id`, replacing any
     * previous entry, then id, height, visibility and cells written as
     * separate fields of it. The second postcondition is a corollary of the
     * first, spelled out: no other key of the container changes.
     */
    method InsertRowWithTxn(row: Row)
      modifies this
      ensures container == old(container)[row.id := EncodeRow(row)]
      ensures forall k | k in old(container) && k != row.id :: k in container && container[k] == old(container)[k]
      ensures handles == old(handles)
    {
      container := container[row.id := AMap(map[])];
      SetField(row.id, ROW_ID, AStr(row.id));
      SetField(row.id, HEIGHT, AInt(row.height));
      SetField(row.id, VISIBILITY, ABool(row.visibility));
      SetField(row.id, CELLS, EncodeCells(row.cells));
    }

    /** `insert_row`: the same insertion inside its own write transaction. */
    method InsertRow(row: Row)
      modifies this
      ensures container == old(container)[row.id := EncodeRow(row)]
      ensures handles == old(handles)
    {
      InsertRowWithTxn(row);
    }

    /**
     * `get_all_rows`: the whole scan runs in one read transaction, a
     * snapshot of the container's current state, so the rows it yields are
     * exactly those of the decodable entries at that one moment.
     */
    function GetAllRows(order: seq<string>): (rows: seq<Row>)
      reads this
      requires EnumeratesKeys(order, container)
      ensures forall r | r in rows :: r in DecodedRows(container)
      ensures forall k | k in container && RowFromValue(container[k]).Some? ::
                RowFromValue(container[k]).value in rows
      ensures forall r :: multiset(rows)[r] == |KeysDecodingTo(container, r)|
      ensures |rows| == |DecodableKeys(container)|
    {
      GetAllRowsWithTxn(ReadTxn(container, order))
    }

    /**
     * `update_row`: no upsert. Without a nested map under `rowId` it returns
     * None, calls no mutator and changes nothing. Otherwise the mutator gets
     * a handle on that entry, its field writes are applied to the entry, and
     * its result is returned unchanged.
     */
    method UpdateRow(rowId: string, f: RowUpdate -> Mutation) returns (r: Option<Row>)
      modifies this
      ensures !(rowId in old(container) && old(container)[rowId].AMap?) ==>
                r.None? && container == old(container) && handles == old(handles)
      ensures rowId in old(container) && old(container)[rowId].AMap? ==>
                var update := RowUpdate(rowId, old(container)[rowId].m);
                && handles == old(handles) + [update]
                && r == f(update).result
                && container == old(container)[rowId := AMap(update.fields + f(update).edits)]
    {
      if !(rowId in container && container[rowId].AMap?) {
        return None;
      }
      var update := RowUpdate(rowId, container[rowId].m);
      handles := handles + [update];
      var mutation := f(update);
      container := container[rowId := AMap(update.fields + mutation.edits)];
      r := mutation.result;
    }
  }
}
