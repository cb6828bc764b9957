/** Rows of the two-column membership tables and the queries `Group` runs on them. */
module GroupTables {
  import opened GroupGraph

  ghost function RowSet(rows: seq<Edge>): set<Edge> {
    set r | r in rows
  }

  ghost predicate NoDuplicates<T>(s: seq<T>) {
    forall i, j :: 0 <= i < j < |s| ==> s[i] != s[j]
  }

  /** SELECT second WHERE first = key, in row order. */
  function Select(rows: seq<Edge>, key: int): seq<int> {
    if rows == [] then [] else
      var last := rows[|rows| - 1];
      var found := Select(rows[..|rows| - 1], key);
      if last.0 == key then found + [last.1] else found
  }

  /** DELETE WHERE first = key. */
  function DeleteParent(rows: seq<Edge>, key: int): seq<Edge> {
    if rows == [] then [] else
      var last := rows[|rows| - 1];
      var rest := DeleteParent(rows[..|rows| - 1], key);
      if last.0 == key then rest else rest + [last]
  }

  /** DELETE WHERE first = id OR second = id. */
  function DeleteEither(rows: seq<Edge>, id: int): (kept: seq<Edge>)
    ensures forall r :: r in kept <==> r in rows && r.0 != id && r.1 != id
    ensures NoDuplicates(rows) ==> NoDuplicates(kept)
  {
    if rows == [] then [] else
      var last := rows[|rows| - 1];
      assert rows == rows[..|rows| - 1] + [last];
      var rest := DeleteEither(rows[..|rows| - 1], id);
      if last.0 == id || last.1 == id then rest else rest + [last]
  }

  /** One row (id, v) for every v in a list. */
  function MappingRows(id: int, values: seq<int>): (rows: seq<Edge>)
    ensures |rows| == |values| && forall i :: 0 <= i < |rows| ==> rows[i] == (id, values[i])
  {
    seq(|values|, i requires 0 <= i < |values| => (id, values[i]))
  }

  lemma {:induction false} SelectConcat(first: seq<Edge>, second: seq<Edge>, key: int)
    ensures Select(first + second, key) == Select(first, key) + Select(second, key)
    decreases |second|
  {
    if second == [] {
      assert first + second == first;
    } else {
      var init := second[..|second| - 1];
      SelectConcat(first, init, key);
      assert (first + second)[..|first + second| - 1] == first + init;
    }
  }

  lemma {:induction false} SelectMappingRows(id: int, values: seq<int>)
    ensures Select(MappingRows(id, values), id) == values
  {
    if values != [] {
      var init := values[..|values| - 1];
      SelectMappingRows(id, init);
      assert MappingRows(id, values)[..|values| - 1] == MappingRows(id, init);
    }
  }

  /** What `update` writes for a group is what `loadData` reads back for it, in
      order, and the rows of every other group are as they were. */
  lemma WriteThenRead(rows: seq<Edge>, id: int, values: seq<int>)
    ensures Select(DeleteParent(rows, id) + MappingRows(id, values), id) == values
    ensures forall other :: other != id ==>
              Select(DeleteParent(rows, id) + MappingRows(id, values), other) == Select(rows, other)
  {
    var kept, written := DeleteParent(rows, id), MappingRows(id, values);
    DeleteParentKeeps(rows, id);
    SelectConcat(kept, written, id);
    SelectMappingRows(id, values);
    NothingSelected(kept, id);
    forall other | other != id ensures Select(kept + written, other) == Select(rows, other) {
      SelectConcat(kept, written, other);
      NothingSelected(written, other);
      SelectOther(rows, id, other);
    }
  }

  lemma {:induction false} SelectFinds(rows: seq<Edge>, key: int)
    ensures forall v :: v in Select(rows, key) <==> (key, v) in rows
  {
    if rows != [] {
      SelectFinds(rows[..|rows| - 1], key);
      assert rows == rows[..|rows| - 1] + [rows[|rows| - 1]];
    }
  }

  lemma {:induction false} DeleteParentKeeps(rows: seq<Edge>, key: int)
    ensures forall r :: r in DeleteParent(rows, key) <==> r in rows && r.0 != key
  {
    if rows != [] {
      DeleteParentKeeps(rows[..|rows| - 1], key);
      assert rows == rows[..|rows| - 1] + [rows[|rows| - 1]];
    }
  }

  lemma {:induction false} NothingSelected(rows: seq<Edge>, key: int)
    requires forall r :: r in rows ==> r.0 != key
    ensures Select(rows, key) == []
  {
    if rows != [] {
      NothingSelected(rows[..|rows| - 1], key);
    }
  }

  lemma {:induction false} SelectOther(rows: seq<Edge>, id: int, other: int)
    requires other != id
    ensures Select(DeleteParent(rows, id), other) == Select(rows, other)
  {
    if rows != [] {
      var init, last := rows[..|rows| - 1], rows[|rows| - 1];
      SelectOther(init, id, other);
      if last.0 != id {
        var kept := DeleteParent(init, id);
        assert (kept + [last])[..|kept|] == kept;
      }
    }
  }
}
