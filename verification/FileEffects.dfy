/** What each request leaves in the two tables, after every run
    (pkg/app/server/service/file/file.go:64-196, pkg/app/server/dao/filedao.go:75-151). */
module FileEffects {
  import opened Strings
  import opened FileHistory
  import opened FileSafety

  // ----- Lookups -----

  lemma {:induction false} FindHistoryIff(history: seq<HistoryRow>, id: int)
    ensures (exists i :: 0 <= i < |history| && history[i].id == id) ==>
              FindHistory(history, id) in history && FindHistory(history, id).id == id
    ensures !(exists i :: 0 <= i < |history| && history[i].id == id) ==>
              FindHistory(history, id) == HistoryRow(0, 0, "", "")
  {
    if history != [] {
      FindHistoryIff(history[1..], id);
      if i :| 0 <= i < |history| && history[i].id == id {
        if i > 0 { assert history[1..][i - 1].id == id; }
      }
    }
  }

  /** `cut` is the front of the name up to its first dash, or the whole name. */
  predicate CutAtDash(name: string, cut: string) {
    cut <= name && '-' !in cut && (cut == name || name[|cut|] == '-')
  }

  lemma BeforeDashIff(name: string, cut: string)
    ensures BeforeDash(name) == cut <==> CutAtDash(name, cut)
  {
    BeforeDashCuts(name);
    if CutAtDash(name, cut) {
      CutOnce(name, BeforeDash(name), cut);
      CutOnce(name, cut, BeforeDash(name));
    }
  }

  lemma CutOnce(name: string, a: string, b: string)
    requires CutAtDash(name, a) && CutAtDash(name, b)
    ensures |a| <= |b|
  {
    assert forall i :: 0 <= i < |a| ==> name[i] == a[i] != '-';
  }

  lemma {:induction false} BeforeDashCuts(name: string)
    ensures CutAtDash(name, BeforeDash(name))
  {
    if name != "" && name[0] != '-' {
      BeforeDashCuts(name[1..]);
      assert BeforeDash(name) == [name[0]] + BeforeDash(name[1..]);
    }
  }

  // ----- Writing to a file -----

  /** Every lookup after a write: the file written has what is not empty of the new name and text. */
  lemma {:induction false} FindUpdated(files: seq<FileRow>, id: int, name: string, text: string, g: int)
    ensures HasFile(UpdateFile(files, id, name, text), g) <==> HasFile(files, g)
    ensures var f, f' := FindFile(files, g), FindFile(UpdateFile(files, id, name, text), g);
            if g == id && HasFile(files, g)
            then f' == FileRow(id, if name != "" then name else f.name, if text != "" then text else f.text)
            else f' == f
  {
    var files' := UpdateFile(files, id, name, text);
    if files != [] {
      FindUpdated(files[1..], id, name, text, g);
      assert files'[1..] == UpdateFile(files[1..], id, name, text);
      HasFileRest(files, g);
      HasFileRest(files', g);
    }
  }

  lemma HasFileRest(files: seq<FileRow>, g: int)
    requires files != []
    ensures HasFile(files, g) <==> files[0].id == g || HasFile(files[1..], g)
  {
    if i :| 0 <= i < |files| && files[i].id == g && i > 0 {
      assert files[1..][i - 1].id == g;
    }
  }

  lemma RunHasNoZero(ops: seq<Op>, id: int)
    ensures FindFile(Run(ops).files, id).id != 0 <==> HasFile(Run(ops).files, id)
  {
    EveryRunNumbered(ops);
    FindFileIff(Run(ops).files, id);
    if HasFile(Run(ops).files, id) {
      var i :| 0 <= i < |Run(ops).files| && Run(ops).files[i] == FindFile(Run(ops).files, id);
    }
  }

  /** After every run, an update gives the file the new name and the new text, where they are not empty, and leaves
      every other file alone; an update of an unknown file changes no file. */
  lemma UpdateWrites(ops: seq<Op>, id: int, name: string, text: string, g: int)
    ensures var files, files' := Run(ops).files, Update(Run(ops), id, name, text).files;
            var f, f' := FindFile(files, g), FindFile(files', g);
            && (HasFile(files', g) <==> HasFile(files, g))
            && f' == (if g == id && HasFile(files, g)
                      then FileRow(id, if name != "" then name else f.name, if text != "" then text else f.text)
                      else f)
  {
    RunHasNoZero(ops, id);
    FindUpdated(Run(ops).files, id, name, text, g);
    hide FindFile, HasFile, UpdateFile, Run, LatestRow, Rename, BeforeDash;
  }

  /** The history as an update writes it: the file's old name and text in a new row at the end; then the last of the
      file's marked rows, counting the new one, takes its name up to the first dash, unless that is empty. */
  lemma UpdateSavesRow(ops: seq<Op>, id: int, name: string, text: string)
    requires HasFile(Run(ops).files, id)
    ensures var t, t' := Run(ops), Update(Run(ops), id, name, text);
            var f := FindFile(t.files, id);
            var h := t.history + [HistoryRow(t.nextHistory, id, f.name, f.text)];
            && |t'.history| == |h| && t'.nextHistory == t.nextHistory + 1
            && forall i :: 0 <= i < |h| ==>
                 if Newest(h, id, i) && BeforeDash(h[i].name) != ""
                 then t'.history[i] == HistoryRow(h[i].id, id, BeforeDash(h[i].name), h[i].text)
                 else t'.history[i] == h[i]
  {
    var t := Run(ops);
    var f := FindFile(t.files, id);
    var saved := Save(t, id, "");
    assert f.name + "" == f.name;
    RunHasNoZero(ops, id);
    EveryRunNumbered(ops);
    RenamedNewest(saved.history, id);
  }

  lemma RenamedNewest(h: seq<HistoryRow>, id: int)
    requires forall i, j :: 0 <= i < j < |h| ==> h[i].id < h[j].id
    ensures var h' := match LatestRow(h, id)
                      case NotFound => h
                      case Found(row) => Rename(h, row.id, BeforeDash(row.name));
            && |h'| == |h|
            && forall i :: 0 <= i < |h| ==>
                 if Newest(h, id, i) && BeforeDash(h[i].name) != ""
                 then h'[i] == HistoryRow(h[i].id, id, BeforeDash(h[i].name), h[i].text)
                 else h'[i] == h[i]
  {
    hide Contains, BeforeDash, LatestRow;
    LatestRowIff(h, id);
    match LatestRow(h, id) {
      case NotFound =>
      case Found(row) =>
        NewestExists(h, id);
        var k :| Newest(h, id, k);
        LatestRowNewest(h, id, k);
        forall i | 0 <= i < |h| && i != k
          ensures !Newest(h, id, i) && h[i].id != row.id
        {
        }
    }
  }

  lemma {:induction false} NewestExists(h: seq<HistoryRow>, id: int)
    requires !NoMark(h, id)
    ensures exists k: nat :: Newest(h, id, k)
  {
    var n := |h| - 1;
    if Marked(h[n], id) {
      assert Newest(h, id, n);
    } else {
      NewestExists(h[..n], id);
      var k: nat :| Newest(h[..n], id, k);
      assert Newest(h, id, k);
    }
  }

  /** An update of an unknown file still saves a row, without name or text, and renames none. */
  lemma StrayUpdate(ops: seq<Op>, id: int, name: string, text: string)
    requires !HasFile(Run(ops).files, id)
    ensures var t, t' := Run(ops), Update(Run(ops), id, name, text);
            && t'.files == t.files && t'.nextFile == t.nextFile && t'.nextHistory == t.nextHistory + 1
            && t'.history == t.history + [HistoryRow(t.nextHistory, id, "", "")]
  {
    RunHasNoZero(ops, id);
    FindFileIff(Run(ops).files, id);
    assert "" + "" == "";
  }

  /** A rollback leaves every name alone and gives the file the text of the history row with that id, unless there is
      none or its text is empty. */
  lemma RollbackWrites(t: Tables, historyId: int, id: int, g: int)
    ensures var t', f, text := Rollback(t, historyId, id), FindFile(t.files, g), FindHistory(t.history, historyId).text;
            && (HasFile(t'.files, g) <==> HasFile(t.files, g))
            && FindFile(t'.files, g) == (if g == id && HasFile(t.files, g) && text != "" then f.(text := text) else f)
  {
    FindUpdated(t.files, id, "", FindHistory(t.history, historyId).text, g);
    FindFileIff(t.files, g);
    hide FindFile, HasFile, UpdateFile, FindHistory, LatestRow;
  }

  /** A rollback saves the file as it is under its name with "-latest" behind it, if no row of the file is marked;
      otherwise the history stays as it is. */
  lemma RollbackSavesRow(t: Tables, historyId: int, id: int)
    ensures var t', f := Rollback(t, historyId, id), FindFile(t.files, id);
            && (NoMark(t.history, id) ==>
                  t'.history == t.history + [HistoryRow(t.nextHistory, id, f.name + "-latest", f.text)]
                  && t'.nextHistory == t.nextHistory + 1)
            && (!NoMark(t.history, id) ==> t'.history == t.history && t'.nextHistory == t.nextHistory)
  {
    LatestRowIff(t.history, id);
  }

  // ----- Creating and deleting -----

  /** A file is created exactly if its name is not empty and no file has it, and its text is not empty; it gets the
      next number and is listed last. */
  lemma CreatedIff(t: Tables, name: string, text: string)
    ensures var t' := Create(t, name, text);
            && (name != "" && text != "" && (forall f :: f in t.files ==> f.name != name) <==>
                  t'.files == t.files + [FileRow(t.nextFile, name, text)])
            && t'.nextFile - t.nextFile == |t'.files| - |t.files|
            && (t'.files == t.files || |t'.files| == |t.files| + 1)
            && t'.history == t.history && t'.nextHistory == t.nextHistory
  {
    if i :| 0 <= i < |t.files| && t.files[i].name == name {
      assert t.files[i] in t.files;
    }
  }

  /** Deleting a file takes its row and its history and nothing else. */
  lemma DeleteTakes(ops: seq<Op>, id: int)
    ensures var t, t' := Run(ops), Delete(Run(ops), id);
            && (forall f :: f in t'.files <==> f in t.files && f.id != id)
            && (forall r :: r in t'.history <==> r in t.history && r.fileId != id)
            && t'.nextFile == t.nextFile && t'.nextHistory == t.nextHistory && Numbered(t')
  {
    var t := Run(ops);
    EveryRunNumbered(ops);
    DeleteNumbered(t, id);
    forall f
      ensures f in Delete(t, id).files <==> f in t.files && f.id != id
    {
      WithoutFileMember(t.files, id, f);
    }
    forall r
      ensures r in Delete(t, id).history <==> r in t.history && r.fileId != id
    {
      WithoutHistoryMember(t.history, id, r);
    }
  }
}
