/** Sequences of user events driven through the App component, with what the
    table and the form hold afterwards. Each method is a client of
    AppState.App that relies only on the handlers' contracts. */
module Scenarios {
  import opened Rows
  import opened Validation
  import opened AppState

  /** The seed table with the row of id 2 removed. */
  lemma DeleteSecondOfSeed()
    ensures DeleteById(SeedRows(), 2) == [SeedRows()[0], SeedRows()[2]]
  {
    var s := SeedRows();
    assert s == [s[0]] + ([s[1]] + [s[2]]);
    DeleteConcat([s[0]], [s[1]] + [s[2]], 2);
    DeleteConcat([s[1]], [s[2]], 2);
    DeleteSingle(s[0], 2);
    DeleteSingle(s[1], 2);
    DeleteSingle(s[2], 2);
  }

  /** Deleting id 2 from the seed table leaves the rows with ids 1 and 3, in
      that order. */
  method DeleteSecond(today: string, parseable: iset<string>) returns (rows: seq<Row>)
    ensures |rows| == 2 && rows[0].id == 1 && rows[1].id == 3
    ensures rows == [SeedRows()[0], SeedRows()[2]]
  {
    var app := new App(today, parseable);
    app.DeleteRow(2);
    DeleteSecondOfSeed();
    rows := app.rows;
  }

  /** Fills the form with a valid record and presses OK: the record, under
      the draft's id, is committed and a blank draft numbered after the table
      as it was before takes its place. */
  method Create(app: App, today: string, name: string, date: string, value: real)
    requires ValidDraft(app.draft.(name := name, date := date, value := value), app.parseable)
    modifies app
    ensures app.rows == Commit(old(app.rows), old(app.draft).(name := name, date := date, value := value))
    ensures app.draft == BlankDraft(|old(app.rows)| + 1, today) && !app.open
  {
    app.SetName(name);
    app.SetDate(date);
    app.SetValue(value);
    app.Ok(today);
  }

  /** Creating {Pavel, 2025-09-01, 10} on the seed table appends it with id 4;
      the next blank draft is numbered 4 again. */
  method CreateOne(today: string, parseable: iset<string>) returns (rows: seq<Row>, next: Row, open: bool)
    requires "2025-09-01" in parseable
    ensures rows == SeedRows() + [Row(4, "Pavel", "2025-09-01", 10.0)]
    ensures next == BlankDraft(4, today) && !open
  {
    var app := new App(today, parseable);
    var seed := app.rows;
    app.AddButton();
    assert !IsWhitespace("Pavel"[0]);
    Create(app, today, "Pavel", "2025-09-01", 10.0);
    assert !HasId(seed, 4);
    rows, next, open := app.rows, app.draft, app.open;
  }

  /** Submitting an empty name reports exactly the name error and leaves the
      table, the draft and the open modal as they were. */
  method RejectEmptyName(today: string, parseable: iset<string>)
    returns (errors: map<Field, string>, rows: seq<Row>, open: bool)
    requires "2025-09-01" in parseable
    ensures errors == map[Name := NameRequired]
    ensures rows == SeedRows() && open
  {
    var app := new App(today, parseable);
    app.AddButton();
    app.SetName("");
    app.SetDate("2025-09-01");
    app.SetValue(10.0);
    ghost var d := app.draft;
    assert d == Row(4, "", "2025-09-01", 10.0);
    OnlyNameError(d, parseable);
    app.Ok(today);
    errors, rows, open := app.errors, app.rows, app.open;
  }

  /** Cancel after a rejected OK: the modal closes and the draft is reset,
      but the name error of the rejected attempt is still in the error map. */
  method StaleErrorsAfterCancel(today: string, parseable: iset<string>)
    returns (errors: map<Field, string>, draft: Row, open: bool)
    requires "2025-09-01" in parseable
    ensures errors == map[Name := NameRequired]
    ensures draft == BlankDraft(4, today) && !open
  {
    var app := new App(today, parseable);
    app.AddButton();
    app.SetName(" ");
    app.SetDate("2025-09-01");
    app.SetValue(10.0);
    ghost var d := app.draft;
    assert d == Row(4, " ", "2025-09-01", 10.0);
    assert IsBlank(d.name) by {
      assert d.name[0] == ' ';
    }
    OnlyNameError(d, parseable);
    app.Ok(today);
    app.Cancel(today);
    errors, draft, open := app.errors, app.draft, app.open;
  }

  /** Editing row 1 to value 100 changes that value only. */
  method EditFirstValue(today: string, parseable: iset<string>) returns (rows: seq<Row>)
    requires "2025-08-19" in parseable
    ensures rows == [SeedRows()[0].(value := 100.0)] + SeedRows()[1..]
  {
    var app := new App(today, parseable);
    var seed := app.rows;
    app.EditButton(seed[0]);
    app.SetValue(100.0);
    ghost var d := app.draft;
    assert d == seed[0].(value := 100.0);
    assert !IsWhitespace(d.name[0]);
    assert ValidDraft(d, parseable);
    assert HasId(seed, d.id) by {
      assert seed[0].id == d.id;
    }
    app.Ok(today);
    assert app.rows == Commit(seed, d);
    assert |app.rows| == 3;
    assert app.rows[0] == d && app.rows[1] == seed[1] && app.rows[2] == seed[2];
    rows := app.rows;
  }

  /** Two creations in a row: the second blank draft reuses id 4, which the
      first creation has just taken, so the second OK edits that row instead
      of appending: Pavel is overwritten by Olga. */
  method CreateTwice(today: string, parseable: iset<string>) returns (rows: seq<Row>)
    requires "2025-09-01" in parseable && "2025-09-02" in parseable
    ensures |rows| == 4
    ensures rows == SeedRows() + [Row(4, "Olga", "2025-09-02", 20.0)]
  {
    var app := new App(today, parseable);
    var seed := app.rows;
    var pavel := Row(4, "Pavel", "2025-09-01", 10.0);
    var olga := Row(4, "Olga", "2025-09-02", 20.0);
    app.AddButton();
    assert !IsWhitespace("Pavel"[0]);
    Create(app, today, "Pavel", "2025-09-01", 10.0);
    CommitAppends(seed, pavel);
    assert app.draft.id == 4;
    app.AddButton();
    assert !IsWhitespace("Olga"[0]);
    Create(app, today, "Olga", "2025-09-02", 20.0);
    SameIdOverwrites(seed, pavel, olga);
    rows := app.rows;
  }

  /** Delete id 2, then create twice: the first creation keeps the initial
      draft id 4 and appends; the blank draft after it is numbered 2 + 1 = 3,
      the id of Анна, so the second creation overwrites Анна. */
  method DeleteThenCreateTwice(today: string, parseable: iset<string>) returns (rows: seq<Row>)
    requires "2025-09-01" in parseable && "2025-09-02" in parseable
    ensures rows == [SeedRows()[0], Row(3, "Olga", "2025-09-02", 20.0), Row(4, "Pavel", "2025-09-01", 10.0)]
  {
    var app := new App(today, parseable);
    var seed := app.rows;
    var pavel := Row(4, "Pavel", "2025-09-01", 10.0);
    var olga := Row(3, "Olga", "2025-09-02", 20.0);
    app.DeleteRow(2);
    DeleteSecondOfSeed();
    var afterDelete := app.rows;
    assert afterDelete == [seed[0], seed[2]];
    app.AddButton();
    assert !IsWhitespace("Pavel"[0]);
    Create(app, today, "Pavel", "2025-09-01", 10.0);
    assert !HasId(afterDelete, 4) by {
      assert afterDelete[0].id == 1 && afterDelete[1].id == 3;
    }
    CommitAppends(afterDelete, pavel);
    var afterFirst := app.rows;
    assert afterFirst == [seed[0], seed[2], pavel];
    assert app.draft.id == 3;
    app.AddButton();
    assert !IsWhitespace("Olga"[0]);
    Create(app, today, "Olga", "2025-09-02", 20.0);
    assert afterFirst[1].id == 3;
    CommitEdits(afterFirst, olga);
    assert app.rows[0] == seed[0] && app.rows[1] == olga && app.rows[2] == pavel;
    rows := app.rows;
  }
}
