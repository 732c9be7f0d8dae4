/** Fetching one note by an identifier: a Spaces id, then a Spaces title in
    any case, then a path under a result label, then a path under each
    folder, then a `.md` and then a `.txt` file with that stem or name. */
module Resolver {
  import opened Wrappers
  import opened Text
  import opened DeepLink
  import opened NoteFields
  import opened Sources

  /** A row of the Spaces database as the fetch queries see it. */
  datatype DbNote = DbNote(id: string, title: Option<string>, content: Option<string>, notePath: Option<string>)

  /** What `get_note` gives back: nothing found, a Spaces note, a Markdown
      file, or an error it does not catch (reading a directory whose name
      looks like a note file). */
  datatype NoteResult =
    | NotFound(identifier: string)
    | SpacesNote(id: string, rowTitle: Option<string>, path: string, content: string, link: Option<string>)
    | MarkdownNote(title: string, path: string, content: string, url: string)
    | Raised(path: string)

  // ---------------------------------------------------------------------
  // The database

  /** `WHERE id = ?`. */
  predicate IdMatches(n: DbNote, ident: string) {
    n.id == ident
  }

  /** `WHERE LOWER(title) = LOWER(?)`: a missing title matches nothing. */
  predicate TitleMatches(n: DbNote, ident: string) {
    n.title.Some? && Lower(n.title.value) == Lower(ident)
  }

  /** The first row from `from` on that matches by id (`byTitle` false) or by
      title (`byTitle` true), as `fetchone` returns it. */
  function FirstRow(table: seq<DbNote>, ident: string, byTitle: bool, from: nat): (r: Option<DbNote>)
    decreases |table| - from
    ensures r.Some? ==> r.value in table && RowMatches(r.value, ident, byTitle)
  {
    if from >= |table| then None
    else if RowMatches(table[from], ident, byTitle) then Some(table[from])
    else FirstRow(table, ident, byTitle, from + 1)
  }

  predicate RowMatches(n: DbNote, ident: string, byTitle: bool) {
    if byTitle then TitleMatches(n, ident) else IdMatches(n, ident)
  }

  /** The first row is found exactly when some row matches, and it is the
      earliest. */
  lemma {:induction false} FirstRowIsFirst(table: seq<DbNote>, ident: string, byTitle: bool, from: nat, j: nat)
    requires from <= j < |table| && RowMatches(table[j], ident, byTitle)
    requires forall k :: from <= k < j ==> !RowMatches(table[k], ident, byTitle)
    ensures FirstRow(table, ident, byTitle, from) == Some(table[j])
    decreases j - from
  {
    if from < j {
      FirstRowIsFirst(table, ident, byTitle, from + 1, j);
    }
  }

  lemma {:induction false} FirstRowNone(table: seq<DbNote>, ident: string, byTitle: bool, from: nat)
    requires FirstRow(table, ident, byTitle, from).None?
    ensures forall k :: from <= k < |table| ==> !RowMatches(table[k], ident, byTitle)
    decreases |table| - from
  {
    if from < |table| {
      FirstRowNone(table, ident, byTitle, from + 1);
    }
  }

  /** The id query, then the title query when the id finds nothing. */
  function DbLookup(table: seq<DbNote>, ident: string): Option<DbNote> {
    var byId := FirstRow(table, ident, false, 0);
    if byId.Some? then byId else FirstRow(table, ident, true, 0)
  }

  /** The result for a Spaces row: path with the cloud marker removed (or
      ""), content or "", and a link by title when there is a title. */
  function SpacesNoteOf(n: DbNote): NoteResult {
    SpacesNote(n.id, n.title, CloudPath(n.notePath, ""),
               if Truthy(n.content) then n.content.value else "",
               if Truthy(n.title) then Some(MakeNoteplanUrl(n.title, None, None)) else None)
  }

  /** `cursor.fetchone()` after one of the two queries. */
  method FetchOne(table: seq<DbNote>, ident: string, byTitle: bool) returns (row: Option<DbNote>)
    ensures row == FirstRow(table, ident, byTitle, 0)
  {
    var i := 0;
    while i < |table|
      invariant 0 <= i <= |table|
      invariant FirstRow(table, ident, byTitle, 0) == FirstRow(table, ident, byTitle, i)
    {
      if RowMatches(table[i], ident, byTitle) {
        return Some(table[i]);
      }
      i := i + 1;
    }
    return None;
  }

  // ---------------------------------------------------------------------
  // The folders

  /** `(base_dir / rel).exists() and is_file()`, then a successful read: the
      walked entry at that relative path, if it is a readable file. */
  function ReadableAt(d: Dir, rel: string): (r: Option<FileEntry>)
    ensures r.Some? ==> d.present && r.value in d.entries && RelPath(r.value) == rel && r.value.isFile && r.value.body.Some?
  {
    if !d.present then None else FindPath(d.entries, rel, 0)
  }

  function FindPath(es: seq<FileEntry>, rel: string, from: nat): (r: Option<FileEntry>)
    decreases |es| - from
    ensures r.Some? ==> r.value in es && RelPath(r.value) == rel && r.value.isFile && r.value.body.Some?
  {
    if from >= |es| then None
    else if RelPath(es[from]) == rel then
      (if es[from].isFile && es[from].body.Some? then Some(es[from]) else None)
    else FindPath(es, rel, from + 1)
  }

  /** The result for a readable Markdown file; `relPath` is what the link
      is built from. */
  function MarkdownNoteOf(d: Dir, e: FileEntry, relPath: string): NoteResult
    requires e.body.Some?
  {
    var title := NoteTitle(e.body.value, Stem(FileName(e)));
    MarkdownNote(title, d.path + "/" + RelPath(e), e.body.value,
                 MakeNoteplanUrl(Some(title), Some(FileName(e)), Some(relPath)))
  }

  /** The labels search results show paths under, with their folders. */
  function LabelMap(st: Store): seq<Root> {
    [Root("Notes", st.notes), Root("Calendar", st.calendar),
     Root("iCloud/Notes", st.icloudNotes), Root("iCloud/Calendar", st.icloudCalendar)]
  }

  /** In a store the file system can produce, the folders the search walks
      are exactly the labelled folders that exist. */
  lemma SearchRootsAreLabels(st: Store)
    requires ValidStore(st)
    ensures forall r :: r in SearchRoots(st) <==> r in LabelMap(st) && r.dir.present
  {
    SearchRootsOrder(st);
  }

  /** What one label decides: the identifier starts with `label/` and the
      rest names a readable file of that folder. */
  function LabelStep(ident: string, root: Root): (r: Option<NoteResult>)
    ensures r.Some? ==> r.value.MarkdownNote?
  {
    var prefix := root.tag + "/";
    if prefix <= ident then
      var rel := ident[|prefix|..];
      var f := ReadableAt(root.dir, rel);
      if f.Some? then Some(MarkdownNoteOf(root.dir, f.value, rel)) else None
    else None
  }

  /** The labels in order, stopping at the first that finds a file. */
  function LabelScan(ident: string, labels: seq<Root>, from: nat): (r: Option<NoteResult>)
    decreases |labels| - from
    ensures r.Some? ==> r.value.MarkdownNote?
  {
    if from >= |labels| then None
    else if LabelStep(ident, labels[from]).Some? then LabelStep(ident, labels[from])
    else LabelScan(ident, labels, from + 1)
  }

  /** The file's stem or its name equals the identifier, ignoring case. */
  predicate NameMatches(e: FileEntry, ident: string) {
    Lower(Stem(FileName(e))) == Lower(ident) || Lower(FileName(e)) == Lower(ident)
  }

  /** What `rglob("*" + ext)` reports with a matching name. */
  predicate GlobMatches(e: FileEntry, ident: string, ext: string) {
    Snippet.EndsWith(FileName(e), ext) && NameMatches(e, ident)
  }

  /** What one walked entry decides: an error for a matching directory,
      the note for a matching readable file, nothing otherwise. */
  function GlobStep(d: Dir, e: FileEntry, ident: string, ext: string): (r: Option<NoteResult>)
    ensures r.Some? ==> r.value.MarkdownNote? || r.value.Raised?
  {
    if GlobMatches(e, ident, ext) && !e.isFile then Some(Raised(d.path + "/" + RelPath(e)))
    else if GlobMatches(e, ident, ext) && e.body.Some? then Some(MarkdownNoteOf(d, e, RelPath(e)))
    else None
  }

  /** The walk for `*.md` or `*.txt`: the first matching entry that can be
      read; a matching directory stops everything with an error. */
  function GlobScan(d: Dir, ident: string, ext: string, from: nat): (r: Option<NoteResult>)
    decreases |d.entries| - from
    ensures r.Some? ==> r.value.MarkdownNote? || r.value.Raised?
  {
    if from >= |d.entries| then None
    else if GlobStep(d, d.entries[from], ident, ext).Some? then GlobStep(d, d.entries[from], ident, ext)
    else GlobScan(d, ident, ext, from + 1)
  }

  /** The folders tried by path and by name, in order. */
  function BaseDirs(st: Store): seq<Dir> {
    [st.notes, st.calendar, st.icloudNotes, st.icloudCalendar]
  }

  /** What one folder decides, when it exists: the identifier as a path
      under it, then `*.md`, then `*.txt` files named by it. */
  function DirStep(ident: string, d: Dir): (r: Option<NoteResult>)
    ensures r.Some? ==> r.value.MarkdownNote? || r.value.Raised?
  {
    if !d.present then None
    else
      var f := ReadableAt(d, ident);
      if f.Some? then Some(MarkdownNoteOf(d, f.value, ident))
      else if GlobScan(d, ident, ".md", 0).Some? then GlobScan(d, ident, ".md", 0)
      else GlobScan(d, ident, ".txt", 0)
  }

  /** The folders in order, stopping at the first that finds something. */
  function BaseScan(ident: string, dirs: seq<Dir>, from: nat): (r: Option<NoteResult>)
    decreases |dirs| - from
    ensures r.Some? ==> r.value.MarkdownNote? || r.value.Raised?
  {
    if from >= |dirs| then None
    else if DirStep(ident, dirs[from]).Some? then DirStep(ident, dirs[from])
    else BaseScan(ident, dirs, from + 1)
  }

  /** `get_note(identifier, ...)`, as one expression of the rules above. */
  function GetNoteSpec(ident: string, dbExists: bool, table: seq<DbNote>, st: Store): NoteResult {
    var db := if dbExists then DbLookup(table, ident) else None;
    if db.Some? then SpacesNoteOf(db.value)
    else
      var byLabel := LabelScan(ident, LabelMap(st), 0);
      if byLabel.Some? then byLabel.value
      else
        var byPath := BaseScan(ident, BaseDirs(st), 0);
        if byPath.Some? then byPath.value else NotFound(ident)
  }

  // ---------------------------------------------------------------------
  // What the rules promise

  /** An id match wins over everything else: the first row with that id. */
  lemma IdComesFirst(ident: string, table: seq<DbNote>, st: Store, j: nat)
    requires j < |table| && table[j].id == ident
    requires forall k :: 0 <= k < j ==> table[k].id != ident
    ensures GetNoteSpec(ident, true, table, st) == SpacesNoteOf(table[j])
  {
    FirstRowIsFirst(table, ident, false, 0, j);
  }

  /** Without an id match, the first row whose title equals the identifier
      in any case wins over every file. */
  lemma TitleComesNext(ident: string, table: seq<DbNote>, st: Store, j: nat)
    requires forall k :: 0 <= k < |table| ==> table[k].id != ident
    requires j < |table| && TitleMatches(table[j], ident)
    requires forall k :: 0 <= k < j ==> !TitleMatches(table[k], ident)
    ensures GetNoteSpec(ident, true, table, st) == SpacesNoteOf(table[j])
  {
    FirstRowIsFirst(table, ident, true, 0, j);
  }

  lemma LabelScanNoneStep(ident: string, labels: seq<Root>, from: nat)
    requires from < |labels| && LabelScan(ident, labels, from).None?
    ensures LabelStep(ident, labels[from]).None? && LabelScan(ident, labels, from + 1).None?
  {
  }

  /** When the label scan from `from` finds nothing, no later label finds
      anything on its own. */
  lemma {:induction false} LabelScanNone(ident: string, labels: seq<Root>, from: nat, i: nat)
    requires from <= i < |labels| && LabelScan(ident, labels, from).None?
    ensures LabelStep(ident, labels[i]).None?
    decreases i - from
  {
    LabelScanNoneStep(ident, labels, from);
    if from < i {
      LabelScanNone(ident, labels, from + 1, i);
    }
  }

  /** No entry that the walk can read or that stops it matches the name. */
  predicate NoGlobMatch(d: Dir, ident: string, ext: string) {
    forall e :: e in d.entries && GlobMatches(e, ident, ext) ==> e.isFile && e.body.None?
  }

  lemma GlobScanNoneStep(d: Dir, ident: string, ext: string, from: nat)
    requires from < |d.entries| && GlobScan(d, ident, ext, from).None?
    ensures GlobStep(d, d.entries[from], ident, ext).None? && GlobScan(d, ident, ext, from + 1).None?
  {
  }

  lemma {:induction false} GlobScanNone(d: Dir, ident: string, ext: string, from: nat, j: nat)
    requires from <= j < |d.entries| && GlobScan(d, ident, ext, from).None?
    ensures GlobStep(d, d.entries[j], ident, ext).None?
    decreases j - from
  {
    GlobScanNoneStep(d, ident, ext, from);
    if from < j {
      GlobScanNone(d, ident, ext, from + 1, j);
    }
  }

  lemma GlobScanNoneAll(d: Dir, ident: string, ext: string)
    requires GlobScan(d, ident, ext, 0).None?
    ensures NoGlobMatch(d, ident, ext)
  {
    forall e | e in d.entries && GlobMatches(e, ident, ext) ensures e.isFile && e.body.None? {
      var j :| 0 <= j < |d.entries| && d.entries[j] == e;
      GlobScanNone(d, ident, ext, 0, j);
    }
  }

  /** Nothing under an existing folder is found by path or by name. */
  predicate NothingUnder(d: Dir, ident: string) {
    d.present ==> ReadableAt(d, ident).None? && NoGlobMatch(d, ident, ".md") && NoGlobMatch(d, ident, ".txt")
  }

  lemma DirStepNone(ident: string, d: Dir)
    requires DirStep(ident, d).None?
    ensures NothingUnder(d, ident)
  {
    if d.present {
      GlobScanNoneAll(d, ident, ".md");
      GlobScanNoneAll(d, ident, ".txt");
    }
  }

  lemma BaseScanNoneStep(ident: string, dirs: seq<Dir>, from: nat)
    requires from < |dirs| && BaseScan(ident, dirs, from).None?
    ensures DirStep(ident, dirs[from]).None? && BaseScan(ident, dirs, from + 1).None?
  {
  }

  lemma {:induction false} BaseScanNone(ident: string, dirs: seq<Dir>, from: nat, i: nat)
    requires from <= i < |dirs| && BaseScan(ident, dirs, from).None?
    ensures DirStep(ident, dirs[i]).None?
    decreases i - from
  {
    BaseScanNoneStep(ident, dirs, from);
    if from < i {
      BaseScanNone(ident, dirs, from + 1, i);
    }
  }

  /** "Not found" means that no rule applies: no row matches by id or title,
      no labelled path names a readable file, and under no existing folder
      is there a readable file at that path or with that stem or name. */
  lemma NotFoundMeansNoMatch(ident: string, dbExists: bool, table: seq<DbNote>, st: Store)
    requires GetNoteSpec(ident, dbExists, table, st) == NotFound(ident)
    ensures dbExists ==> forall k :: 0 <= k < |table| ==> table[k].id != ident && !TitleMatches(table[k], ident)
    ensures forall i :: 0 <= i < |LabelMap(st)| && LabelMap(st)[i].tag + "/" <= ident ==>
      ReadableAt(LabelMap(st)[i].dir, ident[|LabelMap(st)[i].tag + "/"|..]).None?
    ensures forall i :: 0 <= i < |BaseDirs(st)| ==> NothingUnder(BaseDirs(st)[i], ident)
  {
    if dbExists {
      FirstRowNone(table, ident, false, 0);
      FirstRowNone(table, ident, true, 0);
    }
    var labels, dirs := LabelMap(st), BaseDirs(st);
    forall i | 0 <= i < |labels| && labels[i].tag + "/" <= ident
      ensures ReadableAt(labels[i].dir, ident[|labels[i].tag + "/"|..]).None?
    {
      LabelScanNone(ident, labels, 0, i);
    }
    forall i | 0 <= i < |dirs| ensures NothingUnder(dirs[i], ident) {
      BaseScanNone(ident, dirs, 0, i);
      DirStepNone(ident, dirs[i]);
    }
  }

  /** A Markdown note that the file rules found is a readable file of an
      existing folder whose relative path is the identifier, or whose stem
      or name matches it and whose name ends in `.md` or `.txt`; its content
      is the file's text, its title comes from that text or the file's stem,
      its path is the folder's path joined with the file's relative path,
      and its link is built from the title, the file name and that relative
      path. An error comes from a directory whose name matched in the same
      way. */
  predicate FoundIn(res: NoteResult, d: Dir, ident: string) {
    && d.present
    && (res.MarkdownNote? ==> exists e :: e in d.entries && FileOf(res, d, e) && NamedBy(e, ident))
    && (res.Raised? ==> exists e :: e in d.entries && DirectoryOf(res, d, e, ident))
  }

  /** The identifier names `e` as the direct path or through the globs. */
  predicate NamedBy(e: FileEntry, ident: string) {
    RelPath(e) == ident || GlobMatches(e, ident, ".md") || GlobMatches(e, ident, ".txt")
  }

  /** A Markdown note that the label rule found is the readable file of the
      existing labelled folder whose relative path follows the label and
      `/`. */
  predicate FoundByLabel(res: NoteResult, root: Root, ident: string) {
    res.MarkdownNote? && root.dir.present &&
    exists e :: e in root.dir.entries && FileOf(res, root.dir, e) && ident == root.tag + "/" + RelPath(e)
  }

  predicate FileOf(res: NoteResult, d: Dir, e: FileEntry)
    requires res.MarkdownNote?
  {
    e.isFile && e.body == Some(res.content) && res.title == NoteTitle(res.content, Stem(FileName(e))) &&
    res.path == d.path + "/" + RelPath(e) &&
    res.url == MakeNoteplanUrl(Some(res.title), Some(FileName(e)), Some(RelPath(e)))
  }

  predicate DirectoryOf(res: NoteResult, d: Dir, e: FileEntry, ident: string)
    requires res.Raised?
  {
    !e.isFile && (GlobMatches(e, ident, ".md") || GlobMatches(e, ident, ".txt")) &&
    res.path == d.path + "/" + RelPath(e)
  }

  lemma MarkdownNoteOfFile(d: Dir, e: FileEntry, rel: string, ident: string)
    requires d.present && e in d.entries && e.isFile && e.body.Some? && NamedBy(e, ident) && rel == RelPath(e)
    ensures FoundIn(MarkdownNoteOf(d, e, rel), d, ident)
  {
    assert FileOf(MarkdownNoteOf(d, e, rel), d, e);
  }

  lemma GlobStepSound(d: Dir, e: FileEntry, ident: string, ext: string)
    requires d.present && (ext == ".md" || ext == ".txt")
    requires e in d.entries && GlobStep(d, e, ident, ext).Some?
    ensures FoundIn(GlobStep(d, e, ident, ext).value, d, ident)
  {
    if GlobMatches(e, ident, ext) && !e.isFile {
      assert DirectoryOf(Raised(d.path + "/" + RelPath(e)), d, e, ident);
    } else {
      MarkdownNoteOfFile(d, e, RelPath(e), ident);
    }
  }

  lemma {:induction false} GlobScanSound(d: Dir, ident: string, ext: string, from: nat)
    requires d.present && (ext == ".md" || ext == ".txt")
    requires GlobScan(d, ident, ext, from).Some?
    ensures FoundIn(GlobScan(d, ident, ext, from).value, d, ident)
    decreases |d.entries| - from
  {
    if GlobStep(d, d.entries[from], ident, ext).Some? {
      GlobStepSound(d, d.entries[from], ident, ext);
    } else {
      GlobScanSound(d, ident, ext, from + 1);
    }
  }

  lemma DirStepSound(ident: string, d: Dir)
    requires DirStep(ident, d).Some?
    ensures FoundIn(DirStep(ident, d).value, d, ident)
  {
    if ReadableAt(d, ident).Some? {
      MarkdownNoteOfFile(d, ReadableAt(d, ident).value, ident, ident);
    } else if GlobScan(d, ident, ".md", 0).Some? {
      GlobScanSound(d, ident, ".md", 0);
    } else {
      GlobScanSound(d, ident, ".txt", 0);
    }
  }

  lemma {:induction false} BaseScanSound(ident: string, dirs: seq<Dir>, from: nat)
    requires BaseScan(ident, dirs, from).Some?
    ensures exists i :: from <= i < |dirs| && FoundIn(BaseScan(ident, dirs, from).value, dirs[i], ident)
    decreases |dirs| - from
  {
    var res := BaseScan(ident, dirs, from).value;
    if DirStep(ident, dirs[from]).Some? {
      DirStepSound(ident, dirs[from]);
    } else {
      BaseScanSound(ident, dirs, from + 1);
      var i :| from + 1 <= i < |dirs| && FoundIn(res, dirs[i], ident);
    }
  }

  lemma LabelStepSound(ident: string, root: Root)
    requires LabelStep(ident, root).Some?
    ensures FoundByLabel(LabelStep(ident, root).value, root, ident)
  {
    var prefix := root.tag + "/";
    var rel := ident[|prefix|..];
    var e := ReadableAt(root.dir, rel).value;
    assert LabelStep(ident, root).value == MarkdownNoteOf(root.dir, e, rel);
    LabelSplit(ident, prefix);
    LabelledFile(root, e, rel, ident);
  }

  lemma LabelSplit(ident: string, prefix: string)
    requires prefix <= ident
    ensures ident == prefix + ident[|prefix|..]
  {
  }

  lemma LabelledFile(root: Root, e: FileEntry, rel: string, ident: string)
    requires root.dir.present && e in root.dir.entries && e.isFile && e.body.Some? && RelPath(e) == rel
    requires ident == root.tag + "/" + rel
    ensures FoundByLabel(MarkdownNoteOf(root.dir, e, rel), root, ident)
  {
    assert FileOf(MarkdownNoteOf(root.dir, e, rel), root.dir, e);
  }

  lemma {:induction false} LabelScanSound(ident: string, labels: seq<Root>, from: nat)
    requires LabelScan(ident, labels, from).Some?
    ensures exists i :: from <= i < |labels| && FoundByLabel(LabelScan(ident, labels, from).value, labels[i], ident)
    decreases |labels| - from
  {
    var res := LabelScan(ident, labels, from).value;
    if LabelStep(ident, labels[from]).Some? {
      LabelStepSound(ident, labels[from]);
      assert FoundByLabel(res, labels[from], ident);
    } else {
      LabelScanSound(ident, labels, from + 1);
      var i :| from + 1 <= i < |labels| && FoundByLabel(res, labels[i], ident);
    }
  }

  /** What the label rule finds is the readable file at the path that follows
      one folder's label in the identifier. */
  lemma LabelRuleSound(ident: string, st: Store)
    requires LabelScan(ident, LabelMap(st), 0).Some?
    ensures exists i :: 0 <= i < 4 && FoundByLabel(LabelScan(ident, LabelMap(st), 0).value, LabelMap(st)[i], ident)
  {
    LabelScanSound(ident, LabelMap(st), 0);
  }

  /** Whatever `get_note` finds among the files is named by the identifier:
      either the file at the path after one folder's label, or, in one of
      the four folders, the file at that path or a `.md`/`.txt` file (or,
      for an error, a directory) whose stem or name matches it. */
  lemma GetNoteSound(ident: string, dbExists: bool, table: seq<DbNote>, st: Store)
    ensures var res := GetNoteSpec(ident, dbExists, table, st);
      (res.MarkdownNote? || res.Raised?) ==>
        (exists i :: 0 <= i < 4 && FoundByLabel(res, LabelMap(st)[i], ident)) ||
        (exists i :: 0 <= i < 4 && FoundIn(res, BaseDirs(st)[i], ident))
  {
    var db := if dbExists then DbLookup(table, ident) else None;
    if db.None? {
      if LabelScan(ident, LabelMap(st), 0).Some? {
        LabelRuleSound(ident, st);
      } else if BaseScan(ident, BaseDirs(st), 0).Some? {
        BaseScanSound(ident, BaseDirs(st), 0);
      }
    }
  }

  // ---------------------------------------------------------------------
  // The procedure

  lemma GlobScanStep(d: Dir, ident: string, ext: string, j: nat)
    requires j < |d.entries|
    ensures GlobScan(d, ident, ext, j) ==
      if GlobStep(d, d.entries[j], ident, ext).Some? then GlobStep(d, d.entries[j], ident, ext)
      else GlobScan(d, ident, ext, j + 1)
  {
  }

  /** The walk for `*.md` or `*.txt` in one folder. */
  method GlobFind(d: Dir, ident: string, ext: string) returns (r: Option<NoteResult>)
    ensures r == GlobScan(d, ident, ext, 0)
  {
    var j := 0;
    while j < |d.entries|
      invariant 0 <= j <= |d.entries|
      invariant GlobScan(d, ident, ext, 0) == GlobScan(d, ident, ext, j)
    {
      GlobScanStep(d, ident, ext, j);
      var hit := GlobStep(d, d.entries[j], ident, ext);
      if hit.Some? {
        return hit;
      }
      j := j + 1;
    }
    return None;
  }

  lemma LabelScanStep(ident: string, labels: seq<Root>, i: nat)
    requires i < |labels|
    ensures LabelScan(ident, labels, i) ==
      if LabelStep(ident, labels[i]).Some? then LabelStep(ident, labels[i]) else LabelScan(ident, labels, i + 1)
  {
  }

  /** The label rule: a path under `Notes/`, `Calendar/`, `iCloud/Notes/`
      or `iCloud/Calendar/`. */
  method LabelFind(ident: string, labels: seq<Root>) returns (r: Option<NoteResult>)
    ensures r == LabelScan(ident, labels, 0)
  {
    var i := 0;
    while i < |labels|
      invariant 0 <= i <= |labels|
      invariant LabelScan(ident, labels, 0) == LabelScan(ident, labels, i)
    {
      LabelScanStep(ident, labels, i);
      var prefix := labels[i].tag + "/";
      if prefix <= ident {
        var rel := ident[|prefix|..];
        var f := ReadableAt(labels[i].dir, rel);
        if f.Some? {
          return Some(MarkdownNoteOf(labels[i].dir, f.value, rel));
        }
      }
      i := i + 1;
    }
    return None;
  }

  /** The path rule and the two name walks in one existing folder. */
  method DirFind(ident: string, d: Dir) returns (r: Option<NoteResult>)
    ensures r == DirStep(ident, d)
  {
    if !d.present {
      return None;
    }
    var f := ReadableAt(d, ident);
    if f.Some? {
      return Some(MarkdownNoteOf(d, f.value, ident));
    }
    r := GlobFind(d, ident, ".md");
    if r.None? {
      r := GlobFind(d, ident, ".txt");
    }
  }

  lemma BaseScanStep(ident: string, dirs: seq<Dir>, k: nat)
    requires k < |dirs|
    ensures BaseScan(ident, dirs, k) ==
      if DirStep(ident, dirs[k]).Some? then DirStep(ident, dirs[k]) else BaseScan(ident, dirs, k + 1)
  {
  }

  /** The folders in turn. */
  method BaseFind(ident: string, dirs: seq<Dir>) returns (r: Option<NoteResult>)
    ensures r == BaseScan(ident, dirs, 0)
  {
    var k := 0;
    while k < |dirs|
      invariant 0 <= k <= |dirs|
      invariant BaseScan(ident, dirs, 0) == BaseScan(ident, dirs, k)
    {
      BaseScanStep(ident, dirs, k);
      var hit := DirFind(ident, dirs[k]);
      if hit.Some? {
        return hit;
      }
      k := k + 1;
    }
    return None;
  }

  /** `get_note`: each rule in turn, returning at the first that finds a
      note. */
  method GetNote(ident: string, dbExists: bool, table: seq<DbNote>, st: Store) returns (res: NoteResult)
    ensures res == GetNoteSpec(ident, dbExists, table, st)
  {
    if dbExists {
      var row := FetchOne(table, ident, false);
      if row.None? {
        row := FetchOne(table, ident, true);
      }
      if row.Some? {
        return SpacesNoteOf(row.value);
      }
    }
    var byLabel := LabelFind(ident, LabelMap(st));
    if byLabel.Some? {
      return byLabel.value;
    }
    var byPath := BaseFind(ident, BaseDirs(st));
    if byPath.Some? {
      return byPath.value;
    }
    return NotFound(ident);
  }
}
