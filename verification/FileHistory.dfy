/** Configuration files and their version history (pkg/app/server/service/file/file.go:64-196,
    pkg/app/server/dao/filedao.go): updates save the old text, the first rollback after an update saves the
    current text in a row whose name ends in "-latest", and the next update takes that marker away again. */
module FileHistory {
  import opened Strings

  /** A file row; the columns that only travel along are not part of this model. */
  datatype FileRow = FileRow(id: int, name: string, text: string)

  datatype HistoryRow = HistoryRow(id: int, fileId: int, name: string, text: string)

  /** Rows are listed by increasing id. */
  datatype Tables = Tables(files: seq<FileRow>, history: seq<HistoryRow>, nextFile: int, nextHistory: int)

  const LATEST := "latest"
  const MARK := "-latest"

  /** The row with this id, or the zero row. */
  function FindFile(files: seq<FileRow>, id: int): FileRow {
    if files == [] then FileRow(0, "", "") else if files[0].id == id then files[0] else FindFile(files[1..], id)
  }

  function FindHistory(history: seq<HistoryRow>, id: int): HistoryRow {
    if history == [] then HistoryRow(0, 0, "", "")
    else if history[0].id == id then history[0] else FindHistory(history[1..], id)
  }

  predicate Marked(r: HistoryRow, fileId: int) {
    r.fileId == fileId && Contains(r.name, LATEST)
  }

  datatype Found = NotFound | Found(row: HistoryRow)

  /** `IsExistFileLatest`: the newest history row of the file whose name contains "latest". */
  function LatestRow(history: seq<HistoryRow>, fileId: int): Found {
    if history == [] then NotFound
    else if Marked(history[|history| - 1], fileId) then Found(history[|history| - 1])
    else LatestRow(history[..|history| - 1], fileId)
  }

  /** `strings.Split(name, "-")[0]`. */
  function BeforeDash(name: string): string {
    Split(name, '-')[0]
  }

  /** `Updates` with a patch of the name only, and of name and text: empty strings are not written. */
  function Rename(history: seq<HistoryRow>, id: int, name: string): (r: seq<HistoryRow>)
    ensures |r| == |history|
  {
    seq(|history|, i requires 0 <= i < |history| =>
      if history[i].id == id && name != "" then history[i].(name := name) else history[i])
  }

  function UpdateFile(files: seq<FileRow>, id: int, name: string, text: string): (r: seq<FileRow>)
    ensures |r| == |files|
  {
    seq(|files|, i requires 0 <= i < |files| =>
      if files[i].id == id
      then files[i].(name := if name != "" then name else files[i].name,
                     text := if text != "" then text else files[i].text)
      else files[i])
  }

  /** `SaveHistoryFile` and `SaveLatestFile`: a copy of the file as it is. */
  function Save(t: Tables, id: int, suffix: string): Tables {
    var file := FindFile(t.files, id);
    t.(history := t.history + [HistoryRow(t.nextHistory, id, file.name + suffix, file.text)],
       nextHistory := t.nextHistory + 1)
  }

  predicate NameTaken(files: seq<FileRow>, name: string) {
    exists i :: 0 <= i < |files| && files[i].name == name
  }

  /** `SaveToDatabase`, for the columns modelled. */
  function Create(t: Tables, name: string, text: string): Tables {
    if name == "" || NameTaken(t.files, name) || text == "" then t
    else t.(files := t.files + [FileRow(t.nextFile, name, text)], nextFile := t.nextFile + 1)
  }

  /** `Update`: the history row is written before the id is checked. */
  function Update(t: Tables, id: int, name: string, text: string): Tables {
    var saved := Save(t, id, "");
    if FindFile(t.files, id).id == 0 then saved
    else
      var history := match LatestRow(saved.history, id)
                     case NotFound => saved.history
                     case Found(row) => Rename(saved.history, row.id, BeforeDash(row.name));
      saved.(history := history, files := UpdateFile(saved.files, id, name, text))
  }

  /** `LastFileRollBack`. */
  function Rollback(t: Tables, historyId: int, fileId: int): Tables {
    var text := FindHistory(t.history, historyId).text;
    var saved := if LatestRow(t.history, fileId) == NotFound then Save(t, fileId, MARK) else t;
    saved.(files := UpdateFile(saved.files, fileId, "", text))
  }

  function WithoutFile(files: seq<FileRow>, id: int): seq<FileRow> {
    if files == [] then [] else (if files[0].id == id then [] else [files[0]]) + WithoutFile(files[1..], id)
  }

  function WithoutHistory(history: seq<HistoryRow>, fileId: int): seq<HistoryRow> {
    if history == [] then []
    else WithoutHistory(history[..|history| - 1], fileId)
         + if history[|history| - 1].fileId == fileId then [] else [history[|history| - 1]]
  }

  /** `Delete` on one id. */
  function Delete(t: Tables, id: int): Tables {
    t.(files := WithoutFile(t.files, id), history := WithoutHistory(t.history, id))
  }

  datatype Op =
    | CreateOp(name: string, text: string)
    | UpdateOp(id: int, name: string, text: string)
    | RollbackOp(historyId: int, fileId: int)
    | DeleteOp(id: int)

  function Apply(t: Tables, op: Op): Tables {
    match op
    case CreateOp(name, text) => Create(t, name, text)
    case UpdateOp(id, name, text) => Update(t, id, name, text)
    case RollbackOp(historyId, fileId) => Rollback(t, historyId, fileId)
    case DeleteOp(id) => Delete(t, id)
  }

  const EMPTY := Tables([], [], 1, 1)

  function Run(ops: seq<Op>): Tables {
    if ops == [] then EMPTY else Apply(Run(ops[..|ops| - 1]), ops[|ops| - 1])
  }

  // ----- The services as they run -----

  class FileDb {
    var files: seq<FileRow>
    var history: seq<HistoryRow>
    var nextFile: int
    var nextHistory: int

    ghost function Contents(): Tables
      reads this
    {
      Tables(files, history, nextFile, nextHistory)
    }

    /** The scan of `IsExistFileLatest`, newest row first. */
    method IsExistFileLatest(fileId: int) returns (ok: bool, id: int, name: string)
      ensures ok <==> LatestRow(history, fileId).Found?
      ensures ok ==> LatestRow(history, fileId).row.id == id && LatestRow(history, fileId).row.name == name
    {
      var i := |history|;
      assert history[..i] == history;
      while i > 0
        invariant 0 <= i <= |history|
        invariant LatestRow(history, fileId) == LatestRow(history[..i], fileId)
      {
        i := i - 1;
        assert history[..i + 1][..i] == history[..i];
        var file := history[i];
        if file.fileId == fileId && Contains(file.name, LATEST) {
          return true, file.id, file.name;
        }
      }
      return false, 0, "";
    }

    method SaveRow(id: int, suffix: string)
      modifies this`history, this`nextHistory
      ensures Contents() == Save(old(Contents()), id, suffix)
    {
      var file := FindFile(files, id);
      history := history + [HistoryRow(nextHistory, id, file.name + suffix, file.text)];
      nextHistory := nextHistory + 1;
    }

    method UpdateService(id: int, name: string, text: string) returns (ok: bool)
      modifies this
      ensures Contents() == Update(old(Contents()), id, name, text)
      ensures ok <==> FindFile(old(files), id).id != 0
    {
      SaveRow(id, "");
      assert FindFile(old(files), id).name + "" == FindFile(old(files), id).name;
      var existId := FindFile(files, id).id != 0;
      if !existId {
        return false;
      }
      var found, lastId, lastName := IsExistFileLatest(id);
      if found {
        history := Rename(history, lastId, Split(lastName, '-')[0]);
      }
      files := UpdateFile(files, id, name, text);
      return true;
    }

    method LastFileRollBack(historyId: int, fileId: int)
      modifies this
      ensures Contents() == Rollback(old(Contents()), historyId, fileId)
    {
      var text := FindHistory(history, historyId).text;
      var found, _, _ := IsExistFileLatest(fileId);
      if !found {
        SaveRow(fileId, MARK);
      }
      files := UpdateFile(files, fileId, "", text);
    }
  }
}
