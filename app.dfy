/** The state holder of the App component: the table's rows, the draft record
    edited in the modal, whether the modal is open and the validator's error
    map, with one method per event handler. Each handler is one atomic step
    that reads the state as it was when the handler started. */
module AppState {
  import opened Rows
  import opened Validation

  class App {
    /** The strings Date.parse turns into a number (not NaN). */
    const parseable: iset<string>

    var open: bool
    var errors: map<Field, string>
    var rows: seq<Row>
    var draft: Row

    /** The table never holds two rows with the same id. Every handler keeps
        this, because a draft whose id is already taken is committed as an
        edit, never appended. */
    ghost predicate Valid()
      reads this
    {
      DistinctIds(rows)
    }

    /** The initial render: the three seed rows, a blank draft numbered after
        them, the modal closed and no errors. */
    constructor (today: string, parseable: iset<string>)
      ensures Valid()
      ensures rows == SeedRows() && draft == BlankDraft(|SeedRows()| + 1, today)
      ensures !open && errors == map[] && this.parseable == parseable
    {
      this.parseable := parseable;
      open := false;
      errors := map[];
      rows := SeedRows();
      draft := BlankDraft(|SeedRows()| + 1, today);
    }

    /** Runs the three checks on the draft, replaces the error map by their
        findings and reports whether there were none. */
    method Validate() returns (ok: bool)
      modifies this`errors
      ensures errors == ErrorsOf(draft, parseable)
      ensures ok <==> ValidDraft(draft, parseable)
      ensures ok <==> errors == map[]
    {
      errors := ErrorsOf(draft, parseable);
      ok := |errors| == 0;
    }

    /** The per-row delete button: drops every row carrying `id`. */
    method DeleteRow(id: int)
      modifies this`rows
      ensures rows == DeleteById(old(rows), id)
      ensures old(Valid()) ==> Valid()
    {
      if Valid() {
        DeleteKeepsDistinct(rows, id);
      }
      rows := DeleteById(rows, id);
    }

    /** Appends the draft. It is only called when no row carries the
        draft's id. */
    method AddRow()
      requires !HasId(rows, draft.id)
      modifies this`rows
      ensures rows == old(rows) + [draft]
      ensures old(Valid()) ==> Valid()
    {
      if Valid() {
        CommitAppends(rows, draft);
        CommitKeepsDistinct(rows, draft);
      }
      rows := rows + [draft];
    }

    /** Replaces every row carrying the draft's id by the draft. */
    method EditRow()
      modifies this`rows
      ensures rows == EditById(old(rows), draft)
      ensures old(Valid()) ==> Valid()
    {
      EditKeepsIds(rows, draft);
      rows := EditById(rows, draft);
    }

    /** The commit step of the OK button: edit when a row already carries the
        draft's id, append otherwise. */
    method CommitDraft()
      modifies this`rows
      ensures rows == Commit(old(rows), draft)
      ensures old(Valid()) ==> Valid()
    {
      if Valid() {
        CommitKeepsDistinct(rows, draft);
      }
      if Find(rows, draft.id).Some? {
        EditRow();
      } else {
        AddRow();
      }
    }

    /** The modal's OK button. An invalid draft only replaces the error map.
        A valid one is committed, then the draft is reset to a blank record
        numbered after the table as it was BEFORE the commit, and the modal
        closes. */
    method Ok(today: string)
      modifies this`rows, this`draft, this`open, this`errors
      ensures errors == ErrorsOf(old(draft), parseable)
      ensures if ValidDraft(old(draft), parseable)
        then rows == Commit(old(rows), old(draft)) && draft == BlankDraft(|old(rows)| + 1, today) && !open
        else rows == old(rows) && draft == old(draft) && open == old(open)
      ensures old(Valid()) ==> Valid()
    {
      var ok := Validate();
      if !ok {
        return;
      }
      var n := |rows|;
      CommitDraft();
      draft := BlankDraft(n + 1, today);
      open := false;
    }

    /** The modal's Cancel button: resets the draft and closes the modal; the
        rows and the error map stay as they are. */
    method Cancel(today: string)
      modifies this`draft, this`open
      ensures draft == BlankDraft(|rows| + 1, today) && !open
    {
      draft := BlankDraft(|rows| + 1, today);
      open := false;
    }

    /** The per-row edit button: loads the row into the draft and opens the modal. */
    method EditButton(record: Row)
      modifies this`draft, this`open
      ensures draft == record && open
    {
      open := true;
      draft := record;
    }

    /** The add button: only opens the modal; the draft is left as it is. */
    method AddButton()
      modifies this`open
      ensures open
    {
      open := true;
    }

    /** The name field of the form. */
    method SetName(name: string)
      modifies this`draft
      ensures draft == old(draft).(name := name)
    {
      draft := draft.(name := name);
    }

    /** The date picker of the form. */
    method SetDate(date: string)
      modifies this`draft
      ensures draft == old(draft).(date := date)
    {
      draft := draft.(date := date);
    }

    /** The value field of the form (after the string-to-number conversion). */
    method SetValue(value: real)
      modifies this`draft
      ensures draft == old(draft).(value := value)
    {
      draft := draft.(value := value);
    }
  }
}
