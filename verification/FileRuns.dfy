/** Runs in which names or rollbacks outside the usual pattern defeat the marker. */
module FileRuns {
  import opened Strings
  import opened FileHistory
  import opened FileSafety

  /** Some run ends with these tables; a proper one, if that is asked for. */
  ghost predicate Reachable(t: Tables, proper: bool) {
    exists ops :: Run(ops) == t && (proper ==> ProperRun(ops))
  }

  lemma EmptyReachable(proper: bool)
    ensures Reachable(EMPTY, proper)
  {
    assert Run([]) == EMPTY && ProperRun([]);
  }

  lemma Next(t: Tables, op: Op, proper: bool)
    requires Reachable(t, proper) && (proper ==> Proper(t, op))
    ensures Reachable(Apply(t, op), proper)
  {
    hide Apply, Proper;
    var ops :| Run(ops) == t && (proper ==> ProperRun(ops));
    assert (ops + [op])[..|ops + [op]| - 1] == ops;
    assert Run(ops + [op]) == Apply(t, op) && (proper ==> ProperRun(ops + [op]));
  }

  lemma Lookups(f: FileRow, g: FileRow)
    requires f.id != g.id
    ensures FindFile([f], f.id) == f && FindFile([f, g], f.id) == f && FindFile([f, g], g.id) == g
  {
    assert [f, g][1..] == [g];
  }

  lemma NoNameIsClean()
    ensures CleanName("")
  {
  }

  lemma UpdatedOnce(name: string, proper: bool)
    requires name != "" && !Contains(name, LATEST) && (proper ==> CleanName(name))
    ensures Reachable(Tables([FileRow(1, name, "new")], [HistoryRow(1, 1, name, "old")], 2, 2), proper)
  {
    NoNameIsClean();
    hide Reachable, Contains, CleanName;
    EmptyReachable(proper);
    Next(EMPTY, CreateOp(name, "old"), proper);
    var t1 := Tables([FileRow(1, name, "old")], [], 2, 1);
    assert Apply(EMPTY, CreateOp(name, "old")) == t1;
    Next(t1, UpdateOp(1, "", "new"), proper);
    var t2 := Tables([FileRow(1, name, "new")], [HistoryRow(1, 1, name, "old")], 2, 2);
    assert name + "" == name;
    assert Save(t1, 1, "").history == t2.history;
    assert LatestRow(t2.history, 1) == NotFound;
    assert Apply(t1, UpdateOp(1, "", "new")) == t2;
  }

  /** A file that was updated once and rolled back to its own first row, for any name without "latest"; the run is
      proper when the name is clean. */
  lemma RolledBackOnce(name: string, proper: bool)
    requires name != "" && !Contains(name, LATEST) && (proper ==> CleanName(name))
    ensures Reachable(Tables([FileRow(1, name, "old")],
                             [HistoryRow(1, 1, name, "old"), HistoryRow(2, 1, name + MARK, "new")], 2, 3), proper)
  {
    hide Reachable, Contains, CleanName, BeforeDash;
    UpdatedOnce(name, proper);
    var first := HistoryRow(1, 1, name, "old");
    var t2 := Tables([FileRow(1, name, "new")], [first], 2, 2);
    var t3 := Tables([FileRow(1, name, "old")], [first, HistoryRow(2, 1, name + MARK, "new")], 2, 3);
    assert t2.files[0].id == 1 && t2.history[0].id == 1;
    Next(t2, RollbackOp(1, 1), proper);
    assert [first][..0] == [];
    assert LatestRow([first], 1) == NotFound;
    assert Save(t2, 1, MARK).history == t3.history;
    assert UpdateFile(t2.files, 1, "", "old") == t3.files;
    assert Apply(t2, RollbackOp(1, 1)) == t3;
  }

  /** A file named "-a" keeps its marker after an update. */
  lemma LeadingDashKeepsMarker()
    ensures exists t ::
              && Reachable(t, false) && LatestRow(t.history, 1).Found?
              && LatestRow(Update(t, 1, "", "next").history, 1).Found?
  {
    var name := "-a";
    assert !Contains(name, LATEST);
    RolledBackOnce(name, false);
    var t := Tables([FileRow(1, name, "old")],
                    [HistoryRow(1, 1, name, "old"), HistoryRow(2, 1, name + MARK, "new")], 2, 3);
    DashName(name);
    hide Reachable, Contains, BeforeDash, CleanName;
    assert LatestRow(t.history, 1) == Found(t.history[1]);
    MarkerClearedIff(t, 1, "", "next");
  }

  lemma DashName(name: string)
    requires name == "-a"
    ensures Contains(name + MARK, LATEST) && BeforeDash(name + MARK) == ""
  {
    MarkedName(name);
  }

  lemma MarkedName(name: string)
    ensures Contains(name + MARK, LATEST)
  {
    var s, i := name + MARK, |name| + 1;
    assert MARK == "-" + LATEST;
    assert s == name + "-" + LATEST;
    assert At(s, LATEST, i);
  }

  /** A second update and a second rollback of that file, again to its own first row, lose what the update wrote. */
  lemma LeadingDashLosesText()
    ensures exists t ::
              && Reachable(t, false) && HasFile(t.files, 1) && FindHistory(t.history, 1).fileId == 1
              && FindFile(t.files, 1).text == "next" && !Kept(Rollback(t, 1, 1), 1, "next")
  {
    var name := "-a";
    assert !Contains(name, LATEST);
    RolledBackOnce(name, false);
    DashName(name);
    var first, mark := HistoryRow(1, 1, name, "old"), HistoryRow(2, 1, name + MARK, "new");
    AfterSecondUpdate(Tables([FileRow(1, name, "old")], [first, mark], 2, 3), name, first, mark);
  }

  lemma AfterSecondUpdate(t: Tables, name: string, first: HistoryRow, mark: HistoryRow)
    requires first == HistoryRow(1, 1, name, "old") && mark == HistoryRow(2, 1, name + MARK, "new")
    requires Reachable(t, false) && t == Tables([FileRow(1, name, "old")], [first, mark], 2, 3)
    requires !Contains(name, LATEST) && Contains(name + MARK, LATEST) && BeforeDash(name + MARK) == ""
    ensures exists t' ::
              && Reachable(t', false) && HasFile(t'.files, 1) && FindHistory(t'.history, 1).fileId == 1
              && FindFile(t'.files, 1).text == "next" && !Kept(Rollback(t', 1, 1), 1, "next")
  {
    hide Reachable, Contains, BeforeDash;
    Next(t, UpdateOp(1, "", "next"), false);
    var t' := Tables([FileRow(1, name, "next")], [first, mark, HistoryRow(3, 1, name, "old")], 2, 4);
    assert name + "" == name;
    assert Save(t, 1, "").history == t'.history;
    assert t'.history[..2] == [first, mark];
    assert LatestRow(t'.history[..2], 1) == Found(mark) == LatestRow(t'.history, 1);
    assert Rename(t'.history, 2, "") == t'.history;
    assert Apply(t, UpdateOp(1, "", "next")) == t';
    assert t'.files[0].id == 1;
    MarkedRollbackKeepsIff(t', 1, 1);
  }

  lemma UpdatedUnderWord(name: string)
    requires Contains(name, LATEST) && '-' !in name
    ensures Reachable(Tables([FileRow(1, name, "new")], [HistoryRow(1, 1, name, "old")], 2, 2), false)
  {
    hide Reachable, Contains;
    NotEmpty(name);
    EmptyReachable(false);
    Next(EMPTY, CreateOp(name, "old"), false);
    var t1 := Tables([FileRow(1, name, "old")], [], 2, 1);
    assert Apply(EMPTY, CreateOp(name, "old")) == t1;
    Next(t1, UpdateOp(1, "", "new"), false);
    var row := HistoryRow(1, 1, name, "old");
    var t2 := Tables([FileRow(1, name, "new")], [row], 2, 2);
    assert name + "" == name;
    SplitJoin([name], '-');
    assert Save(t1, 1, "").history == [row] && LatestRow([row], 1) == Found(row);
    assert Rename([row], 1, name) == [row];
    assert Apply(t1, UpdateOp(1, "", "new")) == t2;
  }

  /** A file whose own name contains the word, and no dash, counts as rolled back from its first update on, and no
      update changes that. */
  lemma NameIsTakenForMarker(name: string, text: string)
    requires Contains(name, LATEST) && '-' !in name && text != ""
    ensures exists t ::
              && Reachable(t, false) && LatestRow(t.history, 1).Found?
              && LatestRow(Update(t, 1, "", text).history, 1).Found?
  {
    UpdatedUnderWord(name);
    hide Reachable, Contains;
    var t := Tables([FileRow(1, name, "new")], [HistoryRow(1, 1, name, "old")], 2, 2);
    assert LatestRow(t.history, 1) == Found(t.history[0]);
    MarkerClearedIff(t, 1, "", text);
  }

  /** Created, updated once and rolled back to its own only row, such a file has lost its current text. */
  lemma NameWithWordLosesText(name: string)
    requires Contains(name, LATEST) && '-' !in name
    ensures exists t ::
              && Reachable(t, false) && HasFile(t.files, 1) && FindHistory(t.history, 1).fileId == 1
              && FindFile(t.files, 1).text == "new" && !Kept(Rollback(t, 1, 1), 1, "new")
  {
    UpdatedUnderWord(name);
    hide Reachable, Contains;
    var t := Tables([FileRow(1, name, "new")], [HistoryRow(1, 1, name, "old")], 2, 2);
    assert t.files[0].id == 1 && LatestRow(t.history, 1) == Found(t.history[0]);
    MarkedRollbackKeepsIff(t, 1, 1);
  }

  lemma NotEmpty(name: string)
    requires Contains(name, LATEST)
    ensures name != ""
  {
  }

  /** A marked file rolled back to another file's row, and then to a row of its own, loses the text in between. */
  lemma ForeignRollbackLosesText()
    ensures exists t ::
              && Reachable(t, false) && LatestRow(t.history, 1).Found?
              && !Kept(Rollback(t, 2, 1), 1, FindFile(t.files, 1).text)
  {
    hide Reachable, Contains;
    EmptyReachable(false);
    Next(EMPTY, CreateOp("a", "x"), false);
    var a, b := FileRow(1, "a", "x"), FileRow(2, "b", "w");
    var t1 := Tables([a], [], 2, 1);
    assert Apply(EMPTY, CreateOp("a", "x")) == t1;
    Next(t1, CreateOp("b", "w"), false);
    var t2 := Tables([a, b], [], 3, 1);
    assert Apply(t1, CreateOp("b", "w")) == t2;
    Lookups(a, b);
    Next(t2, UpdateOp(2, "", "v"), false);
    var saved := HistoryRow(1, 2, "b", "w");
    var t3 := Tables([a, b.(text := "v")], [saved], 3, 2);
    ShortName();
    assert "b" + "" == "b";
    assert Save(t2, 2, "").history == [saved];
    assert Apply(t2, UpdateOp(2, "", "v")) == t3;
    RollbackToForeignRow(t3, a, b, saved);
  }

  lemma ShortName()
    ensures !Contains("a", LATEST) && !Contains("b", LATEST) && Contains("a" + MARK, LATEST)
  {
    MarkedName("a");
  }

  lemma RollbackToForeignRow(t: Tables, a: FileRow, b: FileRow, saved: HistoryRow)
    requires a == FileRow(1, "a", "x") && b == FileRow(2, "b", "w") && saved == HistoryRow(1, 2, "b", "w")
    requires Reachable(t, false) && t == Tables([a, b.(text := "v")], [saved], 3, 2)
    ensures exists t' ::
              && Reachable(t', false) && LatestRow(t'.history, 1).Found?
              && !Kept(Rollback(t', 2, 1), 1, FindFile(t'.files, 1).text)
  {
    hide Reachable, Contains;
    Lookups(a, b.(text := "v"));
    ShortName();
    Next(t, RollbackOp(1, 1), false);
    var mark := HistoryRow(2, 1, "a" + MARK, "x");
    var t' := Tables([a.(text := "w"), b.(text := "v")], [saved, mark], 3, 3);
    assert [saved][..0] == [];
    assert LatestRow([saved], 1) == NotFound;
    assert Apply(t, RollbackOp(1, 1)) == t';
    Lookups(a.(text := "w"), b.(text := "v"));
    assert LatestRow([saved, mark], 1) == Found(mark);
    assert [saved, mark][1..] == [mark] && FindHistory([saved, mark], 2) == mark;
    Lookups(a, b.(text := "v"));
    assert Rollback(t', 2, 1).files == [a, b.(text := "v")];
    assert Rollback(t', 2, 1).history == [saved, mark];
    assert "w" != "x";
  }

  /** A proper run that rolls back: the file has its first text again, its marker and both texts in its history. */
  lemma ProperRunRollsBack()
    ensures exists ops :: ProperRun(ops) && HasFile(Run(ops).files, 1) && LatestRow(Run(ops).history, 1).Found?
                          && FindFile(Run(ops).files, 1).text == "old" && InHistory(Run(ops).history, 1, "new")
  {
    ShortName();
    NoNameIsClean();
    RolledBackOnce("a", true);
    var t := Tables([FileRow(1, "a", "old")],
                    [HistoryRow(1, 1, "a", "old"), HistoryRow(2, 1, "a" + MARK, "new")], 2, 3);
    var ops :| Run(ops) == t && ProperRun(ops);
    assert t.files[0].id == 1 && t.history[1].text == "new";
    assert LatestRow(t.history, 1) == Found(t.history[1]);
  }
}
