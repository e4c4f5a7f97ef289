/** Safety of the version history over whole runs. */
module FileSafety {
  import opened Strings
  import opened FileHistory

  // ----- The newest marked row -----

  predicate NoMark(history: seq<HistoryRow>, fileId: int) {
    forall i :: 0 <= i < |history| ==> !Marked(history[i], fileId)
  }

  /** No file has two marked rows. */
  predicate OneMark(history: seq<HistoryRow>) {
    forall i, j :: 0 <= i < j < |history| && Marked(history[i], history[i].fileId) ==>
      !Marked(history[j], history[i].fileId)
  }

  lemma {:induction false} LatestRowIff(history: seq<HistoryRow>, fileId: int)
    ensures LatestRow(history, fileId) == NotFound <==> NoMark(history, fileId)
    ensures LatestRow(history, fileId).Found? ==>
              LatestRow(history, fileId).row in history && Marked(LatestRow(history, fileId).row, fileId)
  {
    if history != [] && !Marked(history[|history| - 1], fileId) {
      LatestRowIff(history[..|history| - 1], fileId);
    }
  }

  /** Row `k` is marked for the file and no later row is. */
  predicate Newest(history: seq<HistoryRow>, fileId: int, k: nat) {
    k < |history| && Marked(history[k], fileId) && forall j :: k < j < |history| ==> !Marked(history[j], fileId)
  }

  /** The row found is the last of the file's marked rows. */
  lemma {:induction false} LatestRowNewest(history: seq<HistoryRow>, fileId: int, k: nat)
    requires Newest(history, fileId, k)
    ensures LatestRow(history, fileId) == Found(history[k])
  {
    var n := |history| - 1;
    if k < n {
      assert !Marked(history[n], fileId);
      LatestRowNewest(history[..n], fileId, k);
    }
  }

  // ----- What every run keeps -----

  predicate CleanName(name: string) {
    !Contains(name, LATEST) && (name == "" || name[0] != '-')
  }

  predicate FileOk(f: FileRow) {
    f.name != "" && CleanName(f.name) && f.text != ""
  }

  predicate HasFile(files: seq<FileRow>, id: int) {
    exists i :: 0 <= i < |files| && files[i].id == id
  }

  predicate FilesOk(t: Tables) {
    && t.nextFile > 0
    && (forall i :: 0 <= i < |t.files| ==> FileOk(t.files[i]) && 0 < t.files[i].id < t.nextFile)
    && (forall i, j :: 0 <= i < j < |t.files| ==> t.files[i].id < t.files[j].id)
  }

  /** A name that loses its marker when cut at the first dash. */
  predicate Clearable(name: string) {
    BeforeDash(name) != "" && !Contains(BeforeDash(name), LATEST)
  }

  predicate RowOk(t: Tables, r: HistoryRow) {
    && r.id < t.nextHistory
    && (Contains(r.name, LATEST) ==> Clearable(r.name) && HasFile(t.files, r.fileId))
  }

  predicate HistoryOk(t: Tables) {
    && (forall i :: 0 <= i < |t.history| ==> RowOk(t, t.history[i]))
    && (forall i, j :: 0 <= i < j < |t.history| ==> t.history[i].id < t.history[j].id)
  }

  predicate InHistory(history: seq<HistoryRow>, fileId: int, text: string) {
    exists i :: 0 <= i < |history| && history[i].fileId == fileId && history[i].text == text
  }

  /** While a file is marked as rolled back, its current text is also in its history. */
  predicate CurrentSaved(t: Tables) {
    forall i :: 0 <= i < |t.files| && LatestRow(t.history, t.files[i].id).Found? ==>
      InHistory(t.history, t.files[i].id, t.files[i].text)
  }

  predicate Sound(t: Tables) {
    FilesOk(t) && HistoryOk(t) && OneMark(t.history) && CurrentSaved(t)
  }

  /** Requests that keep to the service's own screens: names free of "latest" and of a leading dash, and
      rollbacks of an existing file to one of its own history rows. */
  predicate Proper(t: Tables, op: Op) {
    match op
    case CreateOp(name, text) => CleanName(name)
    case UpdateOp(id, name, text) => CleanName(name)
    case RollbackOp(historyId, fileId) =>
      && HasFile(t.files, fileId)
      && exists i :: 0 <= i < |t.history| && t.history[i].id == historyId && t.history[i].fileId == fileId
    case DeleteOp(id) => true
  }

  predicate ProperRun(ops: seq<Op>) {
    ops == [] || (ProperRun(ops[..|ops| - 1]) && Proper(Run(ops[..|ops| - 1]), ops[|ops| - 1]))
  }

  // ----- Looking rows up -----

  lemma {:induction false} FindFileIff(files: seq<FileRow>, id: int)
    ensures HasFile(files, id) ==> FindFile(files, id) in files && FindFile(files, id).id == id
    ensures !HasFile(files, id) ==> FindFile(files, id) == FileRow(0, "", "")
  {
    if files != [] {
      FindFileIff(files[1..], id);
      if i :| 0 <= i < |files| && files[i].id == id {
        if i > 0 { assert files[1..][i - 1].id == id; }
      }
    }
  }

  lemma FindFileAt(t: Tables, i: nat)
    requires FilesOk(t) && i < |t.files|
    ensures FindFile(t.files, t.files[i].id) == t.files[i]
  {
    FindFileIff(t.files, t.files[i].id);
    var f := FindFile(t.files, t.files[i].id);
    var j :| 0 <= j < |t.files| && t.files[j] == f;
  }

  lemma {:induction false} FindHistoryAt(history: seq<HistoryRow>, i: nat)
    requires i < |history|
    requires forall j, k :: 0 <= j < k < |history| ==> history[j].id < history[k].id
    ensures FindHistory(history, history[i].id) == history[i]
  {
    if i > 0 {
      FindHistoryAt(history[1..], i - 1);
    }
  }

  // ----- Names -----

  lemma CleanNameMark(name: string)
    requires name != "" && CleanName(name)
    ensures Contains(name + MARK, LATEST) && Clearable(name + MARK)
  {
    var s := name + MARK;
    assert At(s, LATEST, |name| + 1);
    BeforeDashIsPrefix(name, MARK);
  }

  lemma {:induction false} BeforeDashIsPrefix(name: string, rest: string)
    requires name != "" && CleanName(name) && rest != "" && rest[0] == '-'
    ensures BeforeDash(name + rest) != "" && BeforeDash(name + rest) <= name
    ensures !Contains(BeforeDash(name + rest), LATEST)
  {
    var p := BeforeDash(name + rest);
    FirstPart(name, rest);
    if Contains(p, LATEST) {
      PrefixContains(p, name, LATEST);
    }
  }

  lemma {:induction false} FirstPart(name: string, rest: string)
    requires rest != "" && rest[0] == '-'
    ensures Split(name + rest, '-')[0] <= name
    ensures name != "" && name[0] != '-' ==> Split(name + rest, '-')[0] != ""
  {
    var s := name + rest;
    if name != "" && name[0] != '-' {
      assert s[1..] == name[1..] + rest;
      FirstPart(name[1..], rest);
      var p := Split(s[1..], '-')[0];
    }
  }

  // ----- Update -----

  /** Appending a row that is not marked changes no lookup; appending a marked one makes it the newest. */
  lemma LatestAfterAppend(history: seq<HistoryRow>, r: HistoryRow, fileId: int)
    ensures LatestRow(history + [r], fileId) == if Marked(r, fileId) then Found(r) else LatestRow(history, fileId)
  {
  }

  /** Renaming the marked row of a file takes the marker away and leaves every other row alone. */
  lemma RenameClears(t: Tables, r: HistoryRow)
    requires HistoryOk(t) && OneMark(t.history) && r in t.history && Marked(r, r.fileId)
    ensures var h := Rename(t.history, r.id, BeforeDash(r.name));
            && NoMark(h, r.fileId)
            && forall i :: 0 <= i < |h| ==>
                 h[i] == if t.history[i] == r then r.(name := BeforeDash(r.name)) else t.history[i]
  {
  }

  /** The history after an update of an existing file: one row more, and no marker for that file. */
  lemma UpdateHistory(t: Tables, id: int, name: string, text: string)
    requires FilesOk(t) && HistoryOk(t) && OneMark(t.history) && HasFile(t.files, id)
    ensures var h, h' := t.history, Update(t, id, name, text).history;
            && |h'| == |h| + 1
            && h'[|h|].fileId == id && h'[|h|].text == FindFile(t.files, id).text && h'[|h|].id == t.nextHistory
            && NoMark(h', id)
            && forall i :: 0 <= i < |h| ==>
                 && h'[i].id == h[i].id && h'[i].fileId == h[i].fileId && h'[i].text == h[i].text
                 && (h'[i].fileId != id ==> h'[i].name == h[i].name)
  {
    hide Contains, FindFile, LatestRow, OneMark, HistoryOk, FilesOk, BeforeDash, Rename;
    var saved := Save(t, id, "");
    SavedRow(t, id);
    var added := saved.history[|t.history|];
    SaveSound(t, added);
    LatestRowIff(saved.history, id);
    match LatestRow(saved.history, id)
    case NotFound =>
    case Found(row) => RenameClears(saved, row);
  }

  /** Saving an existing file before an update adds a row that is not marked. */
  lemma SavedRow(t: Tables, id: int)
    requires FilesOk(t) && HasFile(t.files, id)
    ensures FindFile(t.files, id).id != 0
    ensures var r := HistoryRow(t.nextHistory, id, FindFile(t.files, id).name, FindFile(t.files, id).text);
            Save(t, id, "").history == t.history + [r] && !Contains(r.name, LATEST)
  {
    FindFileIff(t.files, id);
    var file := FindFile(t.files, id);
    var k :| 0 <= k < |t.files| && t.files[k] == file;
    assert file.name + "" == file.name;
  }

  lemma SaveSound(t: Tables, r: HistoryRow)
    requires HistoryOk(t) && OneMark(t.history) && r.id == t.nextHistory && !Contains(r.name, LATEST)
    ensures HistoryOk(t.(history := t.history + [r], nextHistory := t.nextHistory + 1))
    ensures OneMark(t.history + [r])
  {
  }

  /** `h'` continues `h`: every row keeps its id, its file and its text. */
  predicate Grows(h: seq<HistoryRow>, h': seq<HistoryRow>) {
    && |h| <= |h'|
    && forall i :: 0 <= i < |h| ==> h'[i].id == h[i].id && h'[i].fileId == h[i].fileId && h'[i].text == h[i].text
  }

  lemma GrowsKeepsTexts(h: seq<HistoryRow>, h': seq<HistoryRow>, fileId: int, text: string)
    requires Grows(h, h') && InHistory(h, fileId, text)
    ensures InHistory(h', fileId, text)
  {
  }

  /** Changes to other files' rows do not move the newest marked row of a file. */
  lemma {:induction false} LatestUntouched(h: seq<HistoryRow>, h': seq<HistoryRow>, fileId: int)
    requires Grows(h, h')
    requires forall i :: 0 <= i < |h| && h[i].fileId == fileId ==> h'[i] == h[i]
    requires forall i :: |h| <= i < |h'| ==> !Marked(h'[i], fileId)
    ensures LatestRow(h', fileId) == LatestRow(h, fileId)
  {
    if |h'| > |h| {
      LatestUntouched(h, h'[..|h'| - 1], fileId);
    } else if h != [] {
      LatestUntouched(h[..|h| - 1], h'[..|h| - 1], fileId);
    }
  }

  /** After an update the file has no marker, every other file has the one it had, nothing is lost. */
  lemma UpdateMarks(t: Tables, id: int, name: string, text: string, fileId: int)
    requires FilesOk(t) && HistoryOk(t) && OneMark(t.history) && HasFile(t.files, id)
    ensures LatestRow(Update(t, id, name, text).history, fileId)
         == if fileId == id then NotFound else LatestRow(t.history, fileId)
    ensures Grows(t.history, Update(t, id, name, text).history)
    ensures InHistory(Update(t, id, name, text).history, id, FindFile(t.files, id).text)
  {
    UpdateHistory(t, id, name, text);
    var h' := Update(t, id, name, text).history;
    if fileId == id {
      LatestRowIff(h', id);
    } else {
      LatestUntouched(t.history, h', fileId);
    }
  }

  lemma UpdateFileKeeps(t: Tables, id: int, name: string, text: string)
    requires FilesOk(t) && CleanName(name)
    ensures FilesOk(t.(files := UpdateFile(t.files, id, name, text)))
    ensures forall g :: HasFile(UpdateFile(t.files, id, name, text), g) <==> HasFile(t.files, g)
  {
    var files := UpdateFile(t.files, id, name, text);
    forall g
      ensures HasFile(files, g) <==> HasFile(t.files, g)
    {
      if i :| 0 <= i < |files| && files[i].id == g { assert t.files[i].id == g; }
      if i :| 0 <= i < |files| && t.files[i].id == g { assert files[i].id == g; }
    }
  }

  lemma UpdateSound(t: Tables, id: int, name: string, text: string)
    requires Sound(t) && CleanName(name)
    ensures Sound(Update(t, id, name, text))
  {
    FindFileIff(t.files, id);
    var t' := Update(t, id, name, text);
    UpdateFileKeeps(t, id, name, text);
    if HasFile(t.files, id) {
      assert FindFile(t.files, id).id != 0;
      UpdateHistoryOk(t, id, name, text);
      forall i | 0 <= i < |t'.files| && LatestRow(t'.history, t'.files[i].id).Found?
        ensures InHistory(t'.history, t'.files[i].id, t'.files[i].text)
      {
        UpdateMarks(t, id, name, text, t'.files[i].id);
        GrowsKeepsTexts(t.history, t'.history, t.files[i].id, t.files[i].text);
      }
    } else {
      StraySound(t, id);
    }
  }

  lemma UpdateHistoryOk(t: Tables, id: int, name: string, text: string)
    requires Sound(t) && CleanName(name) && HasFile(t.files, id)
    ensures HistoryOk(Update(t, id, name, text)) && OneMark(Update(t, id, name, text).history)
  {
    hide Contains, FindFile, LatestRow, FilesOk, BeforeDash, Rename, CurrentSaved, CleanName;
    var t' := Update(t, id, name, text);
    UpdateHistory(t, id, name, text);
    UpdateFileKeeps(t, id, name, text);
    SavedRow(t, id);
    var n := |t.history|;
    forall i | 0 <= i < |t'.history|
      ensures RowOk(t', t'.history[i])
    {
      if i < n { assert RowOk(t, t.history[i]); }
    }
    forall i, j | 0 <= i < j < |t'.history| && Marked(t'.history[i], t'.history[i].fileId)
      ensures !Marked(t'.history[j], t'.history[i].fileId)
    {
    }
  }

  /** An update of an unknown id leaves a nameless row behind and nothing else. */
  lemma StraySound(t: Tables, id: int)
    requires Sound(t) && !HasFile(t.files, id)
    ensures Sound(Save(t, id, "")) && Grows(t.history, Save(t, id, "").history)
    ensures forall g :: LatestRow(Save(t, id, "").history, g) == LatestRow(t.history, g)
  {
    FindFileIff(t.files, id);
    var t' := Save(t, id, "");
    var r := t'.history[|t.history|];
    SaveSound(t, r);
    forall g
      ensures LatestRow(t'.history, g) == LatestRow(t.history, g)
    {
    }
    forall i | 0 <= i < |t'.files| && LatestRow(t'.history, t'.files[i].id).Found?
      ensures InHistory(t'.history, t'.files[i].id, t'.files[i].text)
    {
      GrowsKeepsTexts(t.history, t'.history, t.files[i].id, t.files[i].text);
    }
  }

  // ----- Rollback -----

  /** The state between saving and overwriting: the file is marked, and its text is in its history. */
  lemma MarkSaved(t: Tables, fileId: int)
    requires Sound(t) && HasFile(t.files, fileId)
    ensures var saved := if LatestRow(t.history, fileId) == NotFound then Save(t, fileId, MARK) else t;
            && FilesOk(saved) && HistoryOk(saved) && OneMark(saved.history) && saved.files == t.files
            && Grows(t.history, saved.history)
            && InHistory(saved.history, fileId, FindFile(t.files, fileId).text)
            && LatestRow(saved.history, fileId).Found?
            && (LatestRow(t.history, fileId) == NotFound ==>
                  LatestRow(saved.history, fileId).row.text == FindFile(t.files, fileId).text)
            && forall g :: g != fileId || LatestRow(t.history, fileId).Found? ==>
                 LatestRow(saved.history, g) == LatestRow(t.history, g)
  {
    var k :| 0 <= k < |t.files| && t.files[k].id == fileId;
    FindFileAt(t, k);
    if LatestRow(t.history, fileId) == NotFound {
      var saved := Save(t, fileId, MARK);
      var r := saved.history[|t.history|];
      CleanNameMark(t.files[k].name);
      LatestRowIff(t.history, fileId);
      MarkSound(t, r);
      forall g
        ensures LatestRow(saved.history, g) == if g == fileId then Found(r) else LatestRow(t.history, g)
      {
        LatestAfterAppend(t.history, r, g);
      }
    }
  }

  lemma MarkSound(t: Tables, r: HistoryRow)
    requires HistoryOk(t) && OneMark(t.history) && r.id == t.nextHistory
    requires NoMark(t.history, r.fileId) && Clearable(r.name) && HasFile(t.files, r.fileId)
    ensures HistoryOk(t.(history := t.history + [r], nextHistory := t.nextHistory + 1))
    ensures OneMark(t.history + [r])
  {
  }

  lemma RollbackSound(t: Tables, historyId: int, fileId: int)
    requires Sound(t) && Proper(t, RollbackOp(historyId, fileId))
    ensures Sound(Rollback(t, historyId, fileId))
  {
    var saved := if LatestRow(t.history, fileId) == NotFound then Save(t, fileId, MARK) else t;
    var k :| 0 <= k < |t.history| && t.history[k].id == historyId && t.history[k].fileId == fileId;
    var t', text := Rollback(t, historyId, fileId), t.history[k].text;
    FindHistoryAt(t.history, k);
    MarkSaved(t, fileId);
    UpdateFileKeeps(saved, fileId, "", text);
    SameHistoryOk(saved, t');
    RollbackCurrentSaved(t, saved, fileId, text);
  }

  lemma RollbackCurrentSaved(t: Tables, saved: Tables, fileId: int, text: string)
    requires FilesOk(t) && CurrentSaved(t) && saved.files == t.files && Grows(t.history, saved.history)
    requires InHistory(saved.history, fileId, FindFile(t.files, fileId).text)
    requires InHistory(saved.history, fileId, text)
    requires forall g :: g != fileId ==> LatestRow(saved.history, g) == LatestRow(t.history, g)
    ensures CurrentSaved(saved.(files := UpdateFile(saved.files, fileId, "", text)))
  {
    hide LatestRow, InHistory, FileOk, Grows;
    var files := UpdateFile(saved.files, fileId, "", text);
    forall i | 0 <= i < |files| && LatestRow(saved.history, files[i].id).Found?
      ensures InHistory(saved.history, files[i].id, files[i].text)
    {
      FindFileAt(t, i);
      if t.files[i].id != fileId {
        GrowsKeepsTexts(t.history, saved.history, t.files[i].id, t.files[i].text);
      }
    }
  }

  lemma SameHistoryOk(t: Tables, t': Tables)
    requires HistoryOk(t) && t'.history == t.history && t'.nextHistory == t.nextHistory
    requires forall g :: HasFile(t'.files, g) <==> HasFile(t.files, g)
    ensures HistoryOk(t')
  {
  }

  // ----- Create and delete -----

  lemma CreateSound(t: Tables, name: string, text: string)
    requires Sound(t) && CleanName(name)
    ensures Sound(Create(t, name, text))
  {
    var t' := Create(t, name, text);
    if t' != t {
      forall g | HasFile(t.files, g)
        ensures HasFile(t'.files, g)
      {
        var i :| 0 <= i < |t.files| && t.files[i].id == g;
        assert t'.files[i].id == g;
      }
      forall i | 0 <= i < |t'.history|
        ensures RowOk(t', t'.history[i])
      {
        assert RowOk(t, t.history[i]);
      }
      NewFileUnmarked(t, t.nextFile);
      forall i | 0 <= i < |t'.files| && LatestRow(t'.history, t'.files[i].id).Found?
        ensures InHistory(t'.history, t'.files[i].id, t'.files[i].text)
      {
      }
    }
  }

  /** A file that does not exist has no marked row. */
  lemma NewFileUnmarked(t: Tables, id: int)
    requires HistoryOk(t) && (!HasFile(t.files, id) || (FilesOk(t) && id >= t.nextFile))
    ensures LatestRow(t.history, id) == NotFound
  {
    LatestRowIff(t.history, id);
    forall i | 0 <= i < |t.history|
      ensures !Marked(t.history[i], id)
    {
    }
  }

  lemma {:induction false} WithoutFileMember(files: seq<FileRow>, id: int, f: FileRow)
    ensures f in WithoutFile(files, id) <==> f in files && f.id != id
  {
    if files != [] {
      WithoutFileMember(files[1..], id, f);
    }
  }

  lemma {:induction false} WithoutFileOrdered(files: seq<FileRow>, id: int)
    requires forall i, j :: 0 <= i < j < |files| ==> files[i].id < files[j].id
    ensures var r := WithoutFile(files, id); forall i, j :: 0 <= i < j < |r| ==> r[i].id < r[j].id
  {
    if files != [] {
      WithoutFileOrdered(files[1..], id);
      var rest := WithoutFile(files[1..], id);
      forall j | 0 <= j < |rest|
        ensures files[0].id < rest[j].id
      {
        WithoutFileMember(files[1..], id, rest[j]);
      }
    }
  }

  lemma {:induction false} WithoutHistoryMember(history: seq<HistoryRow>, id: int, r: HistoryRow)
    ensures r in WithoutHistory(history, id) <==> r in history && r.fileId != id
  {
    if history != [] {
      WithoutHistoryMember(history[..|history| - 1], id, r);
    }
  }

  lemma WithoutHistoryLast(history: seq<HistoryRow>, id: int)
    requires history != []
    ensures var n := |history| - 1;
            WithoutHistory(history, id) == (if history[n].fileId == id then WithoutHistory(history[..n], id)
                                            else WithoutHistory(history[..n], id) + [history[n]])
  {
  }

  lemma {:induction false} WithoutHistoryOrdered(history: seq<HistoryRow>, id: int)
    requires forall i, j :: 0 <= i < j < |history| ==> history[i].id < history[j].id
    ensures var h := WithoutHistory(history, id); forall i, j :: 0 <= i < j < |h| ==> h[i].id < h[j].id
  {
    if history != [] {
      var n := |history| - 1;
      WithoutHistoryOrdered(history[..n], id);
      var h := WithoutHistory(history[..n], id);
      forall i | 0 <= i < |h|
        ensures h[i].id < history[n].id
      {
        WithoutHistoryMember(history[..n], id, h[i]);
      }
    }
  }

  lemma {:induction false} WithoutHistoryOneMark(history: seq<HistoryRow>, id: int)
    requires OneMark(history)
    ensures OneMark(WithoutHistory(history, id))
  {
    hide Contains;
    if history != [] {
      var n := |history| - 1;
      WithoutHistoryOneMark(history[..n], id);
      var h := WithoutHistory(history[..n], id);
      forall i | 0 <= i < |h| && Marked(h[i], h[i].fileId)
        ensures !Marked(history[n], h[i].fileId)
      {
        WithoutHistoryMember(history[..n], id, h[i]);
        var k :| 0 <= k < n && history[k] == h[i];
      }
    }
  }

  /** Removing one file's rows keeps the newest marked row of every other file. */
  lemma {:induction false} WithoutHistoryLatest(history: seq<HistoryRow>, id: int, fileId: int)
    requires fileId != id
    ensures LatestRow(WithoutHistory(history, id), fileId) == LatestRow(history, fileId)
  {
    hide Contains;
    if history != [] {
      var n := |history| - 1;
      WithoutHistoryLatest(history[..n], id, fileId);
      WithoutHistoryLast(history, id);
    }
  }

  lemma DeleteSound(t: Tables, id: int)
    requires Sound(t)
    ensures Sound(Delete(t, id))
    ensures forall g, x :: g != id && InHistory(t.history, g, x) ==> InHistory(Delete(t, id).history, g, x)
  {
    var t' := Delete(t, id);
    WithoutHistoryOrdered(t.history, id);
    WithoutHistoryOneMark(t.history, id);
    forall g, x | g != id && InHistory(t.history, g, x)
      ensures InHistory(t'.history, g, x)
    {
      DeleteKeepsText(t, id, g, x);
    }
    DeleteFilesOk(t, id);
    forall i | 0 <= i < |t'.history|
      ensures RowOk(t', t'.history[i])
    {
      DeleteRowOk(t, id, t'.history[i]);
    }
    forall i | 0 <= i < |t'.files| && LatestRow(t'.history, t'.files[i].id).Found?
      ensures InHistory(t'.history, t'.files[i].id, t'.files[i].text)
    {
      var f := t'.files[i];
      WithoutFileMember(t.files, id, f);
      WithoutHistoryLatest(t.history, id, f.id);
      var j :| 0 <= j < |t.files| && t.files[j] == f;
    }
  }

  lemma DeleteKeepsText(t: Tables, id: int, g: int, x: string)
    requires g != id && InHistory(t.history, g, x)
    ensures InHistory(Delete(t, id).history, g, x)
  {
    var i :| 0 <= i < |t.history| && t.history[i].fileId == g && t.history[i].text == x;
    WithoutHistoryMember(t.history, id, t.history[i]);
    var h := WithoutHistory(t.history, id);
    var j :| 0 <= j < |h| && h[j] == t.history[i];
  }

  lemma DeleteFilesOk(t: Tables, id: int)
    requires FilesOk(t)
    ensures FilesOk(Delete(t, id))
  {
    var files := WithoutFile(t.files, id);
    WithoutFileOrdered(t.files, id);
    forall i | 0 <= i < |files|
      ensures FileOk(files[i]) && 0 < files[i].id < t.nextFile
    {
      WithoutFileMember(t.files, id, files[i]);
      var j :| 0 <= j < |t.files| && t.files[j] == files[i];
    }
  }

  lemma DeleteRowOk(t: Tables, id: int, r: HistoryRow)
    requires HistoryOk(t) && r in Delete(t, id).history
    ensures RowOk(Delete(t, id), r)
  {
    WithoutHistoryMember(t.history, id, r);
    var k :| 0 <= k < |t.history| && t.history[k] == r;
    if Contains(r.name, LATEST) {
      var i :| 0 <= i < |t.files| && t.files[i].id == r.fileId;
      WithoutFileMember(t.files, id, t.files[i]);
      var files := WithoutFile(t.files, id);
      var j :| 0 <= j < |files| && files[j] == t.files[i];
    }
  }

  // ----- Runs -----

  /** Every proper run leaves the tables sound; in particular no file ever has two "-latest" rows. */
  lemma {:induction false} ProperRunSound(ops: seq<Op>)
    requires ProperRun(ops)
    ensures Sound(Run(ops))
  {
    if ops != [] {
      var n := |ops| - 1;
      ProperRunSound(ops[..n]);
      ApplySound(Run(ops[..n]), ops[n]);
    }
  }

  lemma ApplySound(t: Tables, op: Op)
    requires Sound(t) && Proper(t, op)
    ensures Sound(Apply(t, op))
  {
    match op
    case CreateOp(name, text) => CreateSound(t, name, text);
    case UpdateOp(id, name, text) => UpdateSound(t, id, name, text);
    case RollbackOp(historyId, fileId) => RollbackSound(t, historyId, fileId);
    case DeleteOp(id) => DeleteSound(t, id);
  }

  /** Every text the file has had since it was created. */
  function Held(ops: seq<Op>, id: int): set<string> {
    if ops == [] then {}
    else
      var before, t := Held(ops[..|ops| - 1], id), Run(ops);
      if HasFile(t.files, id) then before + {FindFile(t.files, id).text} else before
  }

  /** The text from before the first rollback since the last update of the file, if it has been rolled back. */
  function Base(ops: seq<Op>, id: int): set<string> {
    if ops == [] then {}
    else NextBase(Run(ops[..|ops| - 1]), ops[|ops| - 1], Base(ops[..|ops| - 1], id), id)
  }

  function NextBase(t: Tables, op: Op, base: set<string>, id: int): set<string> {
    match op
    case UpdateOp(g, _, _) => if g == id && HasFile(t.files, id) then {} else base
    case RollbackOp(_, g) => if g == id && base == {} then {FindFile(t.files, id).text} else base
    case DeleteOp(g) => if g == id then {} else base
    case CreateOp(_, _) => base
  }

  predicate Kept(t: Tables, id: int, text: string) {
    text == FindFile(t.files, id).text || InHistory(t.history, id, text)
  }

  // ----- What one request loses -----

  /** A rollback that finds the marker does not save the current text: the text is lost unless it is in the history
      already or the rollback does not change it. */
  predicate Loses(t: Tables, op: Op, id: int) {
    && op.RollbackOp? && op.fileId == id && LatestRow(t.history, id).Found?
    && !InHistory(t.history, id, FindFile(t.files, id).text)
    && FindHistory(t.history, op.historyId).text !in {"", FindFile(t.files, id).text}
  }

  /** For any tables and any request: of a file that exists before and after it, every text that was current or in
      the history still is, unless the request is a rollback that loses the current text. */
  lemma StepKeepsIff(t: Tables, op: Op, id: int)
    requires HasFile(t.files, id) && HasFile(Apply(t, op).files, id)
    ensures (forall text :: Kept(t, id, text) ==> Kept(Apply(t, op), id, text)) <==> !Loses(t, op, id)
    ensures Loses(t, op, id) ==> !Kept(Apply(t, op), id, FindFile(t.files, id).text)
  {
    hide FindFile, UpdateFile, LatestRow;
    match op
    case CreateOp(name, x) => CreateKeepsRow(t, name, x, id);
    case UpdateOp(g, name, x) => UpdateKeepsTexts(t, g, name, x, id);
    case RollbackOp(historyId, g) => RollbackKeepsIff(t, historyId, g, id);
    case DeleteOp(g) => DeleteKeepsFile(t, g, id);
  }

  lemma {:induction false} AppendKeepsRow(files: seq<FileRow>, f: FileRow, id: int)
    requires HasFile(files, id)
    ensures FindFile(files + [f], id) == FindFile(files, id)
  {
    assert (files + [f])[1..] == files[1..] + [f];
    if files[0].id != id {
      var i :| 0 <= i < |files| && files[i].id == id;
      assert files[1..][i - 1].id == id;
      AppendKeepsRow(files[1..], f, id);
    }
  }

  lemma CreateKeepsRow(t: Tables, name: string, x: string, id: int)
    requires HasFile(t.files, id)
    ensures FindFile(Create(t, name, x).files, id) == FindFile(t.files, id) && Create(t, name, x).history == t.history
  {
    AppendKeepsRow(t.files, FileRow(t.nextFile, name, x), id);
  }

  lemma {:induction false} TextAfterUpdateFile(files: seq<FileRow>, g: int, name: string, x: string, id: int)
    requires HasFile(files, id)
    ensures FindFile(UpdateFile(files, g, name, x), id).text
         == if g == id && x != "" then x else FindFile(files, id).text
  {
    if files[0].id != id {
      var i :| 0 <= i < |files| && files[i].id == id;
      assert files[1..][i - 1].id == id;
      TextAfterUpdateFile(files[1..], g, name, x, id);
      assert UpdateFile(files, g, name, x)[1..] == UpdateFile(files[1..], g, name, x);
    }
  }

  /** An update saves the text of the file first and changes no text in the history. */
  lemma UpdateSaves(t: Tables, g: int, name: string, x: string)
    ensures Grows(t.history, Update(t, g, name, x).history)
    ensures InHistory(Update(t, g, name, x).history, g, FindFile(t.files, g).text)
  {
    hide FindFile, LatestRow, Contains, BeforeDash;
    var h, n := Update(t, g, name, x).history, |t.history|;
    assert h[n].fileId == g && h[n].text == FindFile(t.files, g).text;
  }

  lemma UpdateKeepsTexts(t: Tables, g: int, name: string, x: string, id: int)
    requires HasFile(t.files, id)
    ensures forall text :: Kept(t, id, text) ==> Kept(Update(t, g, name, x), id, text)
  {
    UpdateSaves(t, g, name, x);
    TextAfterUpdateFile(t.files, g, name, x, id);
    hide FindFile, LatestRow, UpdateFile, Contains, BeforeDash, InHistory;
    forall text | InHistory(t.history, id, text)
      ensures InHistory(Update(t, g, name, x).history, id, text)
    {
      GrowsKeepsTexts(t.history, Update(t, g, name, x).history, id, text);
    }
  }

  lemma RollbackKeepsIff(t: Tables, historyId: int, g: int, id: int)
    requires HasFile(t.files, id)
    ensures (forall text :: Kept(t, id, text) ==> Kept(Rollback(t, historyId, g), id, text))
       <==> !Loses(t, RollbackOp(historyId, g), id)
    ensures Loses(t, RollbackOp(historyId, g), id) ==> !Kept(Rollback(t, historyId, g), id, FindFile(t.files, id).text)
  {
    var t', x, current := Rollback(t, historyId, g), FindHistory(t.history, historyId).text, FindFile(t.files, id).text;
    TextAfterUpdateFile(t.files, g, "", x, id);
    RollbackSaves(t, historyId, g);
    hide FindFile, LatestRow, UpdateFile, FindHistory, InHistory;
    forall text | InHistory(t.history, id, text)
      ensures InHistory(t'.history, id, text)
    {
      GrowsKeepsTexts(t.history, t'.history, id, text);
    }
    if Loses(t, RollbackOp(historyId, g), id) {
      assert Kept(t, id, current) && !Kept(t', id, current);
    }
  }

  lemma RollbackSaves(t: Tables, historyId: int, g: int)
    ensures Grows(t.history, Rollback(t, historyId, g).history)
    ensures if LatestRow(t.history, g) == NotFound
            then InHistory(Rollback(t, historyId, g).history, g, FindFile(t.files, g).text)
            else Rollback(t, historyId, g).history == t.history
  {
    hide FindFile, LatestRow;
    if LatestRow(t.history, g) == NotFound {
      var h, n := Rollback(t, historyId, g).history, |t.history|;
      assert h[n].fileId == g && h[n].text == FindFile(t.files, g).text;
    }
  }

  lemma {:induction false} WithoutFileKeepsRow(files: seq<FileRow>, g: int, id: int)
    requires g != id
    ensures FindFile(WithoutFile(files, g), id) == FindFile(files, id)
  {
    if files != [] {
      WithoutFileKeepsRow(files[1..], g, id);
      var rest := WithoutFile(files[1..], g);
      assert [] + rest == rest && ([files[0]] + rest)[1..] == rest;
    }
  }

  lemma DeleteKeepsFile(t: Tables, g: int, id: int)
    requires HasFile(Delete(t, g).files, id)
    ensures g != id && FindFile(Delete(t, g).files, id) == FindFile(t.files, id)
    ensures forall x :: InHistory(t.history, id, x) ==> InHistory(Delete(t, g).history, id, x)
  {
    if g == id {
      DeletedIsGone(t, g);
    } else {
      WithoutFileKeepsRow(t.files, g, id);
      forall x | InHistory(t.history, id, x)
        ensures InHistory(Delete(t, g).history, id, x)
      {
        DeleteKeepsText(t, g, id, x);
      }
    }
  }

  // ----- What a run loses -----

  /** Numbers are never given twice. */
  predicate Numbered(t: Tables) {
    && (forall i :: 0 <= i < |t.files| ==> 0 < t.files[i].id < t.nextFile) && t.nextFile > 0
    && (forall i, j :: 0 <= i < j < |t.files| ==> t.files[i].id < t.files[j].id)
    && (forall i :: 0 <= i < |t.history| ==> t.history[i].id < t.nextHistory)
    && (forall i, j :: 0 <= i < j < |t.history| ==> t.history[i].id < t.history[j].id)
  }

  lemma {:induction false} EveryRunNumbered(ops: seq<Op>)
    ensures Numbered(Run(ops))
    ensures ops != [] ==> Run(ops[..|ops| - 1]).nextFile <= Run(ops).nextFile
  {
    if ops != [] {
      var n := |ops| - 1;
      EveryRunNumbered(ops[..n]);
      StepNumbered(Run(ops[..n]), ops[n]);
    }
  }

  lemma StepNumbered(t: Tables, op: Op)
    requires Numbered(t)
    ensures Numbered(Apply(t, op)) && t.nextFile <= Apply(t, op).nextFile
  {
    hide FindFile, LatestRow, Contains, BeforeDash, FindHistory, Numbered, Update, Rollback, Delete;
    match op
    case CreateOp(name, x) => CreateNumbered(t, name, x);
    case UpdateOp(g, name, x) => UpdateNumbered(t, g, name, x);
    case RollbackOp(historyId, g) => RollbackNumbered(t, historyId, g);
    case DeleteOp(g) => DeleteNumbered(t, g);
  }

  lemma CreateNumbered(t: Tables, name: string, x: string)
    requires Numbered(t)
    ensures Numbered(Create(t, name, x)) && t.nextFile <= Create(t, name, x).nextFile
  {
  }

  lemma UpdateNumbered(t: Tables, g: int, name: string, x: string)
    requires Numbered(t)
    ensures Numbered(Update(t, g, name, x)) && Update(t, g, name, x).nextFile == t.nextFile
  {
    hide FindFile, LatestRow, Contains, BeforeDash;
  }

  lemma RollbackNumbered(t: Tables, historyId: int, g: int)
    requires Numbered(t)
    ensures Numbered(Rollback(t, historyId, g)) && Rollback(t, historyId, g).nextFile == t.nextFile
  {
    hide FindFile, LatestRow, FindHistory;
  }

  lemma DeleteNumbered(t: Tables, g: int)
    requires Numbered(t)
    ensures Numbered(Delete(t, g)) && Delete(t, g).nextFile == t.nextFile
  {
    WithoutHistoryOrdered(t.history, g);
    WithoutFileOrdered(t.files, g);
    var t' := Delete(t, g);
    forall i | 0 <= i < |t'.history|
      ensures t'.history[i].id < t.nextHistory
    {
      WithoutHistoryMember(t.history, g, t'.history[i]);
    }
    forall i | 0 <= i < |t'.files|
      ensures 0 < t'.files[i].id < t.nextFile
    {
      WithoutFileMember(t.files, g, t'.files[i]);
    }
  }

  lemma {:induction false} NotYetHeld(ops: seq<Op>, id: int)
    requires id >= Run(ops).nextFile
    ensures Held(ops, id) == {}
  {
    if ops != [] {
      EveryRunNumbered(ops);
      NotYetHeld(ops[..|ops| - 1], id);
    }
  }

  /** A file that appears was created, under a number never used before. */
  lemma OnlyCreateAdds(t: Tables, op: Op, id: int)
    requires !HasFile(t.files, id) && HasFile(Apply(t, op).files, id)
    ensures id == t.nextFile
  {
    match op
    case CreateOp(name, x) =>
    case UpdateOp(g, name, x) => SameFiles(t.files, UpdateFile(t.files, g, name, x), id);
    case RollbackOp(historyId, g) =>
      SameFiles(t.files, UpdateFile(t.files, g, "", FindHistory(t.history, historyId).text), id);
    case DeleteOp(g) => DeleteAddsNone(t, g, id);
  }

  lemma SameFiles(files: seq<FileRow>, files': seq<FileRow>, id: int)
    requires |files| == |files'| && forall i :: 0 <= i < |files| ==> files[i].id == files'[i].id
    ensures HasFile(files, id) <==> HasFile(files', id)
  {
  }

  lemma DeleteAddsNone(t: Tables, g: int, id: int)
    ensures HasFile(Delete(t, g).files, id) ==> HasFile(t.files, id)
  {
    var files := WithoutFile(t.files, g);
    if j :| 0 <= j < |files| && files[j].id == id {
      WithoutFileMember(t.files, g, files[j]);
      var i :| 0 <= i < |t.files| && t.files[i] == files[j];
    }
  }

  /** At no time during the run had an existing file lost a text it once had. */
  ghost predicate NothingLost(ops: seq<Op>, id: int) {
    && (HasFile(Run(ops).files, id) ==> forall text :: text in Held(ops, id) ==> Kept(Run(ops), id, text))
    && (ops == [] || NothingLost(ops[..|ops| - 1], id))
  }

  /** No rollback of the run lost the current text. */
  predicate LosslessRun(ops: seq<Op>, id: int) {
    ops == [] || (
      var n := |ops| - 1;
      LosslessRun(ops[..n], id) && !(HasFile(Run(ops[..n]).files, id) && Loses(Run(ops[..n]), ops[n], id)))
  }

  /** Over all runs whatsoever, names and rollbacks of any kind: a file loses no text if and only if no rollback on the
      way found the marker while the current text was not in the history. */
  lemma {:induction false} NothingLostIff(ops: seq<Op>, id: int)
    ensures NothingLost(ops, id) <==> LosslessRun(ops, id)
  {
    if ops != [] {
      var n := |ops| - 1;
      NothingLostIff(ops[..n], id);
      if NothingLost(ops[..n], id) { LastStepLosesIff(ops, id); }
    }
  }

  lemma LastStepLosesIff(ops: seq<Op>, id: int)
    requires ops != [] && NothingLost(ops[..|ops| - 1], id)
    ensures NothingLost(ops, id)
       <==> !(HasFile(Run(ops[..|ops| - 1]).files, id) && Loses(Run(ops[..|ops| - 1]), ops[|ops| - 1], id))
  {
    hide Loses, Apply, FindFile, HasFile, InHistory;
    var n := |ops| - 1;
    var t, t' := Run(ops[..n]), Run(ops);
    if HasFile(t.files, id) && HasFile(t'.files, id) {
      StepKeepsIff(t, ops[n], id);
      HeldNow(ops[..n], id);
    } else if HasFile(t.files, id) {
      LosingKeepsFile(t, ops[n], id);
    } else if HasFile(t'.files, id) {
      OnlyCreateAdds(t, ops[n], id);
      NotYetHeld(ops[..n], id);
    }
  }

  lemma HeldNow(ops: seq<Op>, id: int)
    requires HasFile(Run(ops).files, id)
    ensures FindFile(Run(ops).files, id).text in Held(ops, id)
  {
  }

  lemma LosingKeepsFile(t: Tables, op: Op, id: int)
    requires HasFile(t.files, id)
    ensures Loses(t, op, id) ==> HasFile(Apply(t, op).files, id)
  {
    if Loses(t, op, id) {
      SameFiles(t.files, Apply(t, op).files, id);
    }
  }

  lemma {:induction false} ProperRunIsLossless(ops: seq<Op>, id: int)
    requires ProperRun(ops)
    ensures LosslessRun(ops, id)
  {
    if ops != [] {
      var n := |ops| - 1;
      ProperRunIsLossless(ops[..n], id);
      ProperRunSound(ops[..n]);
      var t := Run(ops[..n]);
      if i :| 0 <= i < |t.files| && t.files[i].id == id {
        FindFileAt(t, i);
      }
    }
  }

  /** No text is lost: after every proper run, every text an existing file ever had is its current text or is
      in its history. */
  lemma NoTextLost(ops: seq<Op>, id: int, text: string)
    requires ProperRun(ops) && HasFile(Run(ops).files, id) && text in Held(ops, id)
    ensures Kept(Run(ops), id, text)
  {
    ProperRunIsLossless(ops, id);
    NothingLostIff(ops, id);
  }

  function TextOf(found: Found): set<string> {
    match found
    case NotFound => {}
    case Found(row) => {row.text}
  }

  /** The newest "-latest" row of a file always holds the text from before the first rollback since its last
      update, and there is such a row exactly when there was such a rollback. */
  lemma {:induction false} LatestRowIsBase(ops: seq<Op>, id: int)
    requires ProperRun(ops)
    ensures TextOf(LatestRow(Run(ops).history, id)) == Base(ops, id)
    ensures "" !in Base(ops, id)
  {
    if ops != [] {
      hide Sound, Proper, Apply, LatestRow, NextBase;
      var n := |ops| - 1;
      LatestRowIsBase(ops[..n], id);
      ProperRunSound(ops[..n]);
      BaseStep(Run(ops[..n]), ops[n], Base(ops[..n], id), id);
    }
  }

  lemma BaseStep(t: Tables, op: Op, base: set<string>, id: int)
    requires Sound(t) && Proper(t, op)
    requires TextOf(LatestRow(t.history, id)) == base && "" !in base
    ensures TextOf(LatestRow(Apply(t, op).history, id)) == NextBase(t, op, base, id)
    ensures "" !in NextBase(t, op, base, id)
  {
    hide LatestRow, OneMark, CurrentSaved;
    match op
    case CreateOp(name, x) =>
    case UpdateOp(g, name, x) =>
      FindFileIff(t.files, g);
      if HasFile(t.files, g) {
        UpdateMarks(t, g, name, x, id);
      } else {
        StraySound(t, g);
      }
    case RollbackOp(historyId, g) =>
      MarkSaved(t, g);
      TextNotEmpty(t, g);
    case DeleteOp(g) =>
      if g == id {
        DeletedIsGone(t, g);
        DeleteSound(t, g);
        NewFileUnmarked(Delete(t, g), id);
      } else {
        WithoutHistoryLatest(t.history, g, id);
      }
  }

  lemma TextNotEmpty(t: Tables, id: int)
    requires FilesOk(t) && HasFile(t.files, id)
    ensures FindFile(t.files, id).text != "" && FindFile(t.files, id).id != 0
  {
    var k :| 0 <= k < |t.files| && t.files[k].id == id;
    FindFileAt(t, k);
  }

  lemma DeletedIsGone(t: Tables, id: int)
    ensures !HasFile(Delete(t, id).files, id)
  {
    var files := WithoutFile(t.files, id);
    forall i | 0 <= i < |files|
      ensures files[i].id != id
    {
      WithoutFileMember(t.files, id, files[i]);
    }
  }

  /** Rolling back to the "-latest" row restores the text from before the first rollback since the last update. */
  lemma RollbackToLatestRestores(ops: seq<Op>, id: int)
    requires ProperRun(ops) && HasFile(Run(ops).files, id) && LatestRow(Run(ops).history, id).Found?
    ensures var t := Run(ops);
            {FindFile(Rollback(t, LatestRow(t.history, id).row.id, id).files, id).text} == Base(ops, id)
  {
    var t := Run(ops);
    ProperRunSound(ops);
    LatestRowIsBase(ops, id);
    LatestRowIff(t.history, id);
    var r := LatestRow(t.history, id).row;
    var k :| 0 <= k < |t.history| && t.history[k] == r;
    FindHistoryAt(t.history, k);
    TextAfterUpdateFile(t.files, id, "", r.text, id);
  }

  // ----- What the conditions on names are for -----

  /** No row of the file is marked but the given one. */
  predicate OnlyMark(history: seq<HistoryRow>, r: HistoryRow) {
    forall i :: 0 <= i < |history| && Marked(history[i], r.fileId) ==> history[i] == r
  }

  /** An update takes the marker of its file away exactly when the file's own name does not contain "latest", the
      marked row's name up to the first dash is neither empty nor contains "latest", and no other row of the file
      is marked. */
  lemma MarkerClearedIff(t: Tables, id: int, name: string, text: string)
    requires LatestRow(t.history, id).Found? && FindFile(t.files, id).id != 0 && Numbered(t)
    ensures LatestRow(Update(t, id, name, text).history, id) == NotFound
       <==> && !Contains(FindFile(t.files, id).name, LATEST) && Clearable(LatestRow(t.history, id).row.name)
            && OnlyMark(t.history, LatestRow(t.history, id).row)
  {
    var file, r := FindFile(t.files, id), LatestRow(t.history, id).row;
    var saved := Save(t, id, "");
    var added := saved.history[|t.history|];
    assert added.name == file.name + "" == file.name;
    LatestRowIff(t.history, id);
    var k :| 0 <= k < |t.history| && t.history[k] == r;
    var h := Update(t, id, name, text).history;
    LatestRowIff(h, id);
    if Marked(added, id) {
      assert h[k] == r;
    } else {
      RenamedOnly(t.history, saved.history, r, k, id);
    }
  }

  lemma RenamedOnly(h: seq<HistoryRow>, s: seq<HistoryRow>, r: HistoryRow, k: nat, id: int)
    requires k < |h| && h[k] == r && Marked(r, id) && |s| == |h| + 1 && s[..|h|] == h
    requires !Marked(s[|h|], id)
    requires forall i, j :: 0 <= i < j < |s| ==> s[i].id < s[j].id
    ensures NoMark(Rename(s, r.id, BeforeDash(r.name)), id) <==> Clearable(r.name) && OnlyMark(h, r)
  {
    hide Contains;
    var renamed := Rename(s, r.id, BeforeDash(r.name));
    assert renamed[k] == if BeforeDash(r.name) != "" then r.(name := BeforeDash(r.name)) else r;
    assert forall i :: 0 <= i < |h| ==> s[i] == h[i];
    forall i | 0 <= i < |s| && i != k
      ensures renamed[i] == s[i] && renamed[i] != r
    {
    }
  }

  /** A rollback that finds the marker does not save the current text first: it is lost unless it is in the
      history already or the rollback does not change it. */
  lemma MarkedRollbackKeepsIff(t: Tables, historyId: int, id: int)
    requires HasFile(t.files, id) && LatestRow(t.history, id).Found?
    ensures Kept(Rollback(t, historyId, id), id, FindFile(t.files, id).text)
       <==> InHistory(t.history, id, FindFile(t.files, id).text)
            || FindHistory(t.history, historyId).text in {"", FindFile(t.files, id).text}
  {
    TextAfterUpdateFile(t.files, id, "", FindHistory(t.history, historyId).text, id);
  }
}
