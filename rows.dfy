/** The rows of the table and the three list operations the component applies
    to them: filter by id (delete), replace by id (edit) and append (add). */
module Rows {

  /** One record of the table. `value` is a JavaScript number; it is modelled
      as a real (NaN and the infinities are not modelled). */
  datatype Row = Row(id: int, name: string, date: string, value: real)

  datatype Option<T> = None | Some(value: T)

  /** The three rows the table starts with. */
  function SeedRows(): (rows: seq<Row>)
    ensures |rows| == 3 && DistinctIds(rows)
  {
    [ Row(1, "Иван", "2025-08-19", 42.0),
      Row(2, "Мария", "2025-08-18", 73.0),
      Row(3, "Анна", "2025-08-15", 15.0) ]
  }

  /** The blank record the draft is reset to: the given id, no name, today's date, value 0. */
  function BlankDraft(id: int, today: string): (d: Row)
  {
    Row(id, "", today, 0.0)
  }

  predicate HasId(rows: seq<Row>, id: int)
  {
    exists i :: 0 <= i < |rows| && rows[i].id == id
  }

  /** No two rows share an id. */
  predicate DistinctIds(rows: seq<Row>)
  {
    forall i, j :: 0 <= i < j < |rows| ==> rows[i].id != rows[j].id
  }

  /** Array.prototype.find with the predicate "row.id equals id": a row
      carrying that id when there is one. */
  function Find(rows: seq<Row>, id: int): (r: Option<Row>)
    ensures r.Some? <==> HasId(rows, id)
    ensures r.Some? ==> r.value in rows && r.value.id == id
  {
    if rows == [] then None
    else if rows[0].id == id then Some(rows[0])
    else
      var r := Find(rows[1..], id);
      assert HasId(rows[1..], id) <==> HasId(rows, id) by {
        if HasId(rows, id) {
          var i :| 0 <= i < |rows| && rows[i].id == id;
          assert rows[1..][i - 1] == rows[i];
        }
      }
      r
  }

  /** Find returns the FIRST row carrying the id. */
  lemma {:induction false} FindIsFirst(rows: seq<Row>, id: int)
    requires HasId(rows, id)
    ensures exists k :: 0 <= k < |rows| && rows[k] == Find(rows, id).value && !HasId(rows[..k], id)
  {
    if rows[0].id == id {
      assert rows[..0] == [];
    } else {
      FindIsFirst(rows[1..], id);
      var k :| 0 <= k < |rows[1..]| && rows[1..][k] == Find(rows[1..], id).value && !HasId(rows[1..][..k], id);
      assert rows[..k + 1] == [rows[0]] + rows[1..][..k];
      assert rows[k + 1] == Find(rows, id).value;
    }
  }

  /** Array.prototype.filter keeping the rows whose id differs from `id`. */
  function DeleteById(rows: seq<Row>, id: int): (r: seq<Row>)
    ensures |r| <= |rows|
    ensures !HasId(r, id)
  {
    if rows == [] then []
    else
      var tail := DeleteById(rows[1..], id);
      if rows[0].id == id then tail else [rows[0]] + tail
  }

  /** Deleting removes every occurrence of the rows carrying `id` and keeps
      every other row as often as it occurred. */
  lemma {:induction false} DeleteContents(rows: seq<Row>, id: int)
    ensures forall x :: multiset(DeleteById(rows, id))[x] == if x.id == id then 0 else multiset(rows)[x]
  {
    if rows != [] {
      DeleteContents(rows[1..], id);
      assert rows == [rows[0]] + rows[1..];
    }
  }

  /** Deleting from a concatenation deletes from each part: together with
      DeleteSingle this fixes the result, order included. */
  lemma {:induction false} DeleteConcat(a: seq<Row>, b: seq<Row>, id: int)
    ensures DeleteById(a + b, id) == DeleteById(a, id) + DeleteById(b, id)
  {
    if a == [] {
      assert a + b == b;
    } else {
      assert (a + b)[1..] == a[1..] + b;
      DeleteConcat(a[1..], b, id);
    }
  }

  lemma DeleteSingle(x: Row, id: int)
    ensures DeleteById([x], id) == if x.id == id then [] else [x]
  {
    assert [x][1..] == [];
  }

  /** Deleting an id no row carries changes nothing. */
  lemma {:induction false} DeleteAbsent(rows: seq<Row>, id: int)
    requires !HasId(rows, id)
    ensures DeleteById(rows, id) == rows
  {
    if rows != [] {
      assert rows[0].id != id;
      assert !HasId(rows[1..], id) by {
        forall i | 0 <= i < |rows[1..]| ensures rows[1..][i].id != id {
          assert rows[1..][i] == rows[i + 1];
        }
      }
      DeleteAbsent(rows[1..], id);
      assert rows == [rows[0]] + rows[1..];
    }
  }

  /** Every row left after deleting is a row of the input. */
  lemma DeleteFromInput(rows: seq<Row>, id: int, x: Row)
    requires x in DeleteById(rows, id)
    ensures x in rows && x.id != id
  {
    DeleteContents(rows, id);
    assert x in multiset(DeleteById(rows, id));
  }

  /** Deleting keeps ids distinct. */
  lemma {:induction false} DeleteKeepsDistinct(rows: seq<Row>, id: int)
    requires DistinctIds(rows)
    ensures DistinctIds(DeleteById(rows, id))
  {
    if rows != [] {
      var tail := DeleteById(rows[1..], id);
      assert DistinctIds(rows[1..]) by {
        forall i, j | 0 <= i < j < |rows[1..]| ensures rows[1..][i].id != rows[1..][j].id {
          assert rows[1..][i] == rows[i + 1] && rows[1..][j] == rows[j + 1];
        }
      }
      DeleteKeepsDistinct(rows[1..], id);
      if rows[0].id != id {
        var r := [rows[0]] + tail;
        forall j | 0 <= j < |tail| ensures tail[j].id != rows[0].id {
          DeleteFromInput(rows[1..], id, tail[j]);
          var k :| 0 <= k < |rows[1..]| && rows[1..][k] == tail[j];
          assert rows[k + 1] == tail[j];
        }
        forall i, j | 0 <= i < j < |r| ensures r[i].id != r[j].id {
          assert r[j] == tail[j - 1];
          if i > 0 {
            assert r[i] == tail[i - 1];
          }
        }
      }
    }
  }

  /** Array.prototype.map replacing every row whose id equals the draft's by
      the draft ({...item, ...draft} keeps none of the row's own fields,
      since the draft carries all four). */
  function EditById(rows: seq<Row>, draft: Row): (r: seq<Row>)
    ensures |r| == |rows|
    ensures forall i :: 0 <= i < |rows| ==> r[i] == if rows[i].id == draft.id then draft else rows[i]
  {
    if rows == [] then []
    else [if rows[0].id == draft.id then draft else rows[0]] + EditById(rows[1..], draft)
  }

  /** Editing keeps the set of ids, hence distinct ids stay distinct. */
  lemma EditKeepsIds(rows: seq<Row>, draft: Row)
    ensures forall i :: 0 <= i < |rows| ==> EditById(rows, draft)[i].id == rows[i].id
    ensures DistinctIds(rows) ==> DistinctIds(EditById(rows, draft))
  {
    var r := EditById(rows, draft);
    forall i, j | 0 <= i < j < |r| && DistinctIds(rows) ensures r[i].id != r[j].id {
      assert r[i].id == rows[i].id && r[j].id == rows[j].id;
    }
  }

  /** Editing under an id some row carries puts the draft in the table. */
  lemma EditStoresDraft(rows: seq<Row>, draft: Row)
    requires HasId(rows, draft.id)
    ensures draft in EditById(rows, draft)
  {
    var i :| 0 <= i < |rows| && rows[i].id == draft.id;
    assert EditById(rows, draft)[i] == draft;
  }

  /** The commit of the OK handler: edit when some row already carries the
      draft's id, append otherwise. Either way the draft ends up in the table,
      and the table grows by one row exactly when the id was unused. */
  function Commit(rows: seq<Row>, draft: Row): (r: seq<Row>)
    ensures draft in r
    ensures |r| == if HasId(rows, draft.id) then |rows| else |rows| + 1
  {
    if Find(rows, draft.id).Some? then
      EditStoresDraft(rows, draft);
      EditById(rows, draft)
    else
      rows + [draft]
  }

  /** A draft whose id is in use replaces every row carrying that id and
      leaves the length and every other row unchanged. */
  lemma CommitEdits(rows: seq<Row>, draft: Row)
    requires HasId(rows, draft.id)
    ensures |Commit(rows, draft)| == |rows|
    ensures forall i :: 0 <= i < |rows| ==>
      Commit(rows, draft)[i] == if rows[i].id == draft.id then draft else rows[i]
  {
    assert Find(rows, draft.id).Some?;
  }

  /** A draft whose id is not in use is appended as the last row. */
  lemma CommitAppends(rows: seq<Row>, draft: Row)
    requires !HasId(rows, draft.id)
    ensures Commit(rows, draft) == rows + [draft]
  {
    assert Find(rows, draft.id).None?;
  }

  /** Committing never creates a second row with the same id. */
  lemma CommitKeepsDistinct(rows: seq<Row>, draft: Row)
    requires DistinctIds(rows)
    ensures DistinctIds(Commit(rows, draft))
  {
    if HasId(rows, draft.id) {
      EditKeepsIds(rows, draft);
      CommitEdits(rows, draft);
    } else {
      CommitAppends(rows, draft);
      var r := rows + [draft];
      forall i, j | 0 <= i < j < |r| ensures r[i].id != r[j].id {
        if j == |rows| {
          assert r[i] == rows[i];
        } else {
          assert r[i] == rows[i] && r[j] == rows[j];
        }
      }
    }
  }

  /** Two commits under the same fresh id: the first appends, the second
      finds that id in use and overwrites the first instead of adding a row. */
  lemma SameIdOverwrites(rows: seq<Row>, first: Row, second: Row)
    requires !HasId(rows, first.id) && second.id == first.id
    ensures Commit(Commit(rows, first), second) == rows + [second]
  {
    CommitAppends(rows, first);
    var mid := rows + [first];
    assert mid[|rows|] == first;
    CommitEdits(mid, second);
    var r := Commit(mid, second);
    forall i | 0 <= i < |rows| ensures r[i] == rows[i] {
      assert mid[i] == rows[i];
    }
    assert r == rows + [second];
  }

  /** The largest id in the table, or 0 when it is larger than every id. */
  function MaxId(rows: seq<Row>): (m: int)
    ensures m >= 0
    ensures forall i :: 0 <= i < |rows| ==> rows[i].id <= m
    ensures m > 0 ==> HasId(rows, m)
  {
    if rows == [] then 0
    else
      var m := MaxId(rows[1..]);
      if rows[0].id > m then rows[0].id
      else
        assert HasId(rows[1..], m) ==> HasId(rows, m) by {
          if HasId(rows[1..], m) {
            var i :| 0 <= i < |rows[1..]| && rows[1..][i].id == m;
            assert rows[i + 1].id == m;
          }
        }
        m
  }

  /** An id no row carries: one more than the largest id in use. */
  function FreshId(rows: seq<Row>): (id: int)
    ensures !HasId(rows, id)
    ensures id >= 1
  {
    MaxId(rows) + 1
  }

  /** Committing a draft whose id is FreshId always appends. */
  lemma CommitFreshAppends(rows: seq<Row>, draft: Row)
    requires draft.id == FreshId(rows)
    ensures Commit(rows, draft) == rows + [draft]
  {
    CommitAppends(rows, draft);
  }

  /** The corrected numbering over two creations: when each draft is numbered
      with FreshId of the table it is committed into (the table after the
      previous commit), both drafts are appended. */
  lemma FreshTwiceAppends(rows: seq<Row>, first: Row, second: Row)
    requires first.id == FreshId(rows) && second.id == FreshId(rows + [first])
    ensures Commit(Commit(rows, first), second) == rows + [first, second]
  {
    CommitFreshAppends(rows, first);
    CommitFreshAppends(rows + [first], second);
    assert rows + [first] + [second] == rows + [first, second];
  }
}
