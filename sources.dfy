/** The two places notes come from: Markdown files under the Notes and
    Calendar folders (locally and in iCloud Drive), and the rows of the Spaces
    database. Each is searched for a term and listed. */
module Sources {
  import opened Wrappers
  import opened Text
  import Snippet
  import opened DeepLink
  import opened DateFilter
  import opened NoteFields
  import opened Results
  import opened Recency

  // ---------------------------------------------------------------------
  // The file tree

  /** One path that the recursive walk of a folder reports, in walk order:
      its components relative to the folder, whether it is a regular file,
      its modification time in ISO form, and its text, or `None` when it
      cannot be read as UTF-8 or is not permitted. */
  datatype FileEntry = FileEntry(parts: seq<string>, isFile: bool, modifiedAt: string, body: Option<string>)

  /** A folder: whether it is there, and what its walk reports. */
  datatype Dir = Dir(path: string, present: bool, entries: seq<FileEntry>)

  /** The local Notes and Calendar folders, and NotePlan's iCloud Drive folder
      with its own Notes and Calendar. */
  datatype Store = Store(notes: Dir, calendar: Dir, icloudPresent: bool, icloudNotes: Dir, icloudCalendar: Dir)

  /** A store the file system can produce: the iCloud subfolders exist only
      when the iCloud folder does. The type admits other stores; for those
      the search (which tests the iCloud folder) and `get_note` (which only
      tests the subfolders) see different folders. */
  predicate ValidStore(st: Store) {
    !st.icloudPresent ==> !st.icloudNotes.present && !st.icloudCalendar.present
  }

  /** A folder to walk and the label (`tag`) its results are shown under. */
  datatype Root = Root(tag: string, dir: Dir)

  /** The folders the search and the listing walk, in order: Notes, Calendar,
      then the iCloud ones when the iCloud folder exists; only the ones that
      exist. */
  function SearchRoots(st: Store): (r: seq<Root>)
    ensures forall i :: 0 <= i < |r| ==> r[i].dir.present
    ensures st.notes.present <==> |r| > 0 && r[0] == Root("Notes", st.notes)
    ensures Root("iCloud/Notes", st.icloudNotes) in r <==> st.icloudPresent && st.icloudNotes.present
    ensures Root("iCloud/Calendar", st.icloudCalendar) in r <==> st.icloudPresent && st.icloudCalendar.present
    ensures |r| <= 4
  {
    Keep(st.notes.present, Root("Notes", st.notes)) +
    Keep(st.calendar.present, Root("Calendar", st.calendar)) +
    Keep(st.icloudPresent && st.icloudNotes.present, Root("iCloud/Notes", st.icloudNotes)) +
    Keep(st.icloudPresent && st.icloudCalendar.present, Root("iCloud/Calendar", st.icloudCalendar))
  }

  /** `[x]` when `b` holds, otherwise nothing. */
  function Keep(b: bool, x: Root): seq<Root> {
    if b then [x] else []
  }

  /** The Calendar folder is walked exactly when it exists, and the
      folders come in the order Notes, Calendar, iCloud/Notes,
      iCloud/Calendar. */
  lemma SearchRootsOrder(st: Store)
    ensures var r := SearchRoots(st);
      Root("Calendar", st.calendar) in r <==> st.calendar.present
    ensures RanksAscend(SearchRoots(st))
  {
    var a := Keep(st.notes.present, Root("Notes", st.notes));
    var b := Keep(st.calendar.present, Root("Calendar", st.calendar));
    var c := Keep(st.icloudPresent && st.icloudNotes.present, Root("iCloud/Notes", st.icloudNotes));
    var d := Keep(st.icloudPresent && st.icloudCalendar.present, Root("iCloud/Calendar", st.icloudCalendar));
    assert Root("Calendar", st.calendar) in a + b + c + d <==> st.calendar.present by {
      assert Root("Calendar", st.calendar) !in a && Root("Calendar", st.calendar) !in c + d;
    }
    RootRanks();
    KeepWithin(st.notes.present, Root("Notes", st.notes), 0, 1);
    KeepWithin(st.calendar.present, Root("Calendar", st.calendar), 1, 2);
    KeepWithin(st.icloudPresent && st.icloudNotes.present, Root("iCloud/Notes", st.icloudNotes), 2, 3);
    KeepWithin(st.icloudPresent && st.icloudCalendar.present, Root("iCloud/Calendar", st.icloudCalendar), 3, 4);
    RanksAscendConcat(a, b, 0, 1, 2);
    RanksAscendConcat(a + b, c, 0, 2, 3);
    RanksAscendConcat(a + b + c, d, 0, 3, 4);
  }

  lemma KeepWithin(b: bool, x: Root, lo: nat, hi: nat)
    requires lo <= RootRank(x.tag) < hi
    ensures RanksAscend(Keep(b, x)) && RanksWithin(Keep(b, x), lo, hi)
  {
  }

  /** Each folder label comes after the ones before it. */
  predicate RanksAscend(r: seq<Root>) {
    forall i, j :: 0 <= i < j < |r| ==> RootRank(r[i].tag) < RootRank(r[j].tag)
  }

  /** Every label of `r` has a rank in `[lo, hi)`. */
  predicate RanksWithin(r: seq<Root>, lo: nat, hi: nat) {
    forall i :: 0 <= i < |r| ==> lo <= RootRank(r[i].tag) < hi
  }

  /** Two ascending runs, the first with ranks in `[lo, k)` and the second
      in `[k, hi)`, ascend together, with ranks in `[lo, hi)`. */
  lemma RanksAscendConcat(xs: seq<Root>, ys: seq<Root>, lo: nat, k: nat, hi: nat)
    requires lo <= k <= hi
    requires RanksAscend(xs) && RanksAscend(ys) && RanksWithin(xs, lo, k) && RanksWithin(ys, k, hi)
    ensures RanksAscend(xs + ys) && RanksWithin(xs + ys, lo, hi)
  {
    var r := xs + ys;
    forall i, j | 0 <= i < j < |r| ensures RootRank(r[i].tag) < RootRank(r[j].tag) {
      if j < |xs| {
        assert r[i] == xs[i] && r[j] == xs[j];
      } else if i < |xs| {
        assert r[i] == xs[i] && r[j] == ys[j - |xs|];
      } else {
        assert r[i] == ys[i - |xs|] && r[j] == ys[j - |xs|];
      }
    }
    forall i | 0 <= i < |r| ensures lo <= RootRank(r[i].tag) < hi {
      if i < |xs| {
        assert r[i] == xs[i];
      } else {
        assert r[i] == ys[i - |xs|];
      }
    }
  }

  lemma RootRanks()
    ensures RootRank("Notes") == 0 && RootRank("Calendar") == 1
    ensures RootRank("iCloud/Notes") == 2 && RootRank("iCloud/Calendar") == 3
  {
  }

  /** The position of a folder label in the walk: Notes, Calendar,
      iCloud/Notes, iCloud/Calendar. */
  function RootRank(tag: string): nat {
    if tag == "Notes" then 0
    else if tag == "Calendar" then 1
    else if tag == "iCloud/Notes" then 2
    else if tag == "iCloud/Calendar" then 3
    else 4
  }

  /** The path relative to the walked folder, as `str(rel_path)` writes it. */
  function RelPath(e: FileEntry): string {
    Join(e.parts, "/")
  }

  /** `filepath.name`: the last component. */
  function FileName(e: FileEntry): string {
    if e.parts == [] then "" else e.parts[|e.parts| - 1]
  }

  /** A regular file whose suffix, in any case, is `.md` or `.txt`. */
  predicate IsNoteFile(e: FileEntry) {
    Lower(Suffix(FileName(e))) in {".md", ".txt"} && e.isFile
  }

  lemma NoteFileHasPath(e: FileEntry)
    requires IsNoteFile(e)
    ensures FileName(e) != "" && RelPath(e) != ""
  {
    JoinCoversLast(e.parts, "/");
  }

  /** What a search asks for: the term, the date bounds with the parser used
      on timestamps, and whether `@` folders are searched too. */
  datatype Query = Query(term: string, bounds: Bounds, iso: Parser, includeSpecial: bool)

  // ---------------------------------------------------------------------
  // Searching Markdown files

  /** The hit for one walked path, if it is one. The checks run in the
      source's order, and the date is checked before the text is read. */
  function MarkdownHit(tag: string, e: FileEntry, q: Query): (r: Option<SearchResult>)
    ensures r.Some? <==>
      && IsNoteFile(e)
      && !SkipSpecial(e.parts, q.includeSpecial)
      && MatchesDateFilter(Some(e.modifiedAt), q.bounds, q.iso)
      && e.body.Some?
      && Contains(Lower(e.body.value), Lower(q.term))
    ensures r.Some? ==> MarkdownShape(r.value)
    ensures r.Some? ==> r.value.path == tag + "/" + RelPath(e) && r.value.modifiedAt == Some(e.modifiedAt)
    ensures r.Some? ==> r.value.title == ShortTitle(NoteTitle(e.body.value, Stem(FileName(e))))
    ensures r.Some? ==>
      var sn := Snippet.GetContextSnippet(e.body.value, q.term, Snippet.ContextChars);
      r.value.snippet == sn.text && r.value.lineNumber == sn.lineNumber
    ensures r.Some? && CalendarDate(Some(FileName(e))).Some? ==>
      ReadLink(r.value.url.value) == Some(ByDate(CalendarDate(Some(FileName(e))).value))
    ensures r.Some? && CalendarDate(Some(FileName(e))).None? ==>
      ReadLink(r.value.url.value) == Some(ByFilename(EncodeUtf8(RelPath(e))))
  {
    if !IsNoteFile(e) || SkipSpecial(e.parts, q.includeSpecial) then None
    else if !MatchesDateFilter(Some(e.modifiedAt), q.bounds, q.iso) then None
    else if e.body.None? || !Contains(Lower(e.body.value), Lower(q.term)) then None
    else
      var content := e.body.value;
      var sn := Snippet.GetContextSnippet(content, q.term, Snippet.ContextChars);
      var title := NoteTitle(content, Stem(FileName(e)));
      var url := MakeNoteplanUrl(Some(title), Some(FileName(e)), Some(RelPath(e)));
      HitLineNumber(content, q.term);
      Snippet.SnippetShape(content, q.term, Snippet.ContextChars);
      NoteFileHasPath(e);
      LinkPrecedence(Some(title), Some(FileName(e)), Some(RelPath(e)));
      Some(SearchResult(Markdown, ShortTitle(title), tag + "/" + RelPath(e), sn.text, sn.lineNumber,
                        None, Some(e.modifiedAt), Some(url)))
  }

  /** A text that contains the term has a snippet with a line number. */
  lemma HitLineNumber(content: string, term: string)
    requires Contains(Lower(content), Lower(term))
    ensures var l := Snippet.GetContextSnippet(content, term, Snippet.ContextChars).lineNumber;
      l.Some? && l.value >= 1
  {
    ContainsIffFound(Lower(content), Lower(term));
    var pos := Snippet.MatchPos(content, term);
    assert Snippet.IsFirstMatch(content, term, pos);
    Snippet.SnippetLineNumber(content, term, Snippet.ContextChars, pos);
  }

  /** What every Markdown hit looks like: no note id, a line number of at
      least 1, a title of at most 63 characters, a one-line snippet, a
      timestamp and a non-empty link. */
  predicate MarkdownShape(r: SearchResult) {
    && r.source == Markdown
    && r.noteId.None?
    && r.lineNumber.Some? && r.lineNumber.value >= 1
    && |r.title| <= TitleWidth + 3
    && '\n' !in r.snippet
    && r.modifiedAt.Some?
    && r.url.Some? && r.url.value != ""
  }

  function OptionToSeq<T>(o: Option<T>): seq<T> {
    if o.Some? then [o.value] else []
  }

  /** The hits of one walked folder, in walk order. */
  function EntryHits(tag: string, es: seq<FileEntry>, q: Query): (r: seq<SearchResult>)
    ensures forall i :: 0 <= i < |r| ==> MarkdownShape(r[i])
  {
    if es == [] then [] else EntryHits(tag, es[..|es| - 1], q) + OptionToSeq(MarkdownHit(tag, es[|es| - 1], q))
  }

  /** The hits of all walked folders, folder by folder. */
  function RootHits(roots: seq<Root>, q: Query): (r: seq<SearchResult>)
    ensures forall i :: 0 <= i < |r| ==> MarkdownShape(r[i])
  {
    if roots == [] then []
    else RootHits(roots[..|roots| - 1], q) + EntryHits(roots[|roots| - 1].tag, roots[|roots| - 1].dir.entries, q)
  }

  /** `search_markdown_files`: walk each folder and collect the hits. */
  method SearchMarkdownFiles(st: Store, q: Query) returns (hits: seq<SearchResult>)
    ensures hits == RootHits(SearchRoots(st), q)
  {
    var roots := SearchRoots(st);
    hits := [];
    var i := 0;
    while i < |roots|
      invariant 0 <= i <= |roots|
      invariant hits == RootHits(roots[..i], q)
    {
      var found := SearchFolder(roots[i].tag, roots[i].dir.entries, q);
      RootHitsStep(roots, q, i);
      hits := hits + found;
      i := i + 1;
    }
    assert roots[..i] == roots;
  }

  /** The walk of one folder during a search. */
  method SearchFolder(tag: string, entries: seq<FileEntry>, q: Query) returns (hits: seq<SearchResult>)
    ensures hits == EntryHits(tag, entries, q)
  {
    hits := [];
    var j := 0;
    while j < |entries|
      invariant 0 <= j <= |entries|
      invariant hits == EntryHits(tag, entries[..j], q)
    {
      var hit := MarkdownHit(tag, entries[j], q);
      EntryHitsStep(tag, entries, q, j);
      hits := hits + OptionToSeq(hit);
      j := j + 1;
    }
    assert entries[..j] == entries;
  }

  lemma RootHitsStep(roots: seq<Root>, q: Query, i: nat)
    requires i < |roots|
    ensures RootHits(roots[..i + 1], q) == RootHits(roots[..i], q) + EntryHits(roots[i].tag, roots[i].dir.entries, q)
  {
    assert roots[..i + 1][..i] == roots[..i];
  }

  lemma EntryHitsStep(tag: string, entries: seq<FileEntry>, q: Query, j: nat)
    requires j < |entries|
    ensures EntryHits(tag, entries[..j + 1], q) == EntryHits(tag, entries[..j], q) + OptionToSeq(MarkdownHit(tag, entries[j], q))
  {
    assert entries[..j + 1][..j] == entries[..j];
  }

  // ---------------------------------------------------------------------
  // Searching the Spaces database

  /** A row the search query returns. */
  datatype NoteRow = NoteRow(id: string, title: Option<string>, filename: Option<string>,
                             content: Option<string>, notePath: Option<string>, modifiedAt: Option<string>)

  const NoContent: string := "(no content)"

  /** The hit for one returned row, unless its date is outside the bounds. */
  function SpacesHit(row: NoteRow, q: Query): (r: Option<SearchResult>)
    ensures r.Some? <==> MatchesDateFilter(row.modifiedAt, q.bounds, q.iso)
    ensures r.Some? ==> SpacesShape(r.value, row)
    ensures r.Some? && Truthy(row.content) ==>
      var sn := Snippet.GetContextSnippet(row.content.value, q.term, Snippet.ContextChars);
      r.value.snippet == sn.text && r.value.lineNumber == sn.lineNumber
    ensures r.Some? && Truthy(row.notePath) ==> r.value.path == CloudPath(row.notePath, row.id)
  {
    if !MatchesDateFilter(row.modifiedAt, q.bounds, q.iso) then None
    else
      var title := SpacesTitle(row.title, row.filename, row.id);
      var sn := if Truthy(row.content) then Snippet.GetContextSnippet(row.content.value, q.term, Snippet.ContextChars)
                else Snippet.Snippet(NoContent, None);
      LinkPrecedence(Some(title), None, None);
      Some(SearchResult(Spaces, title, CloudPath(row.notePath, row.id), sn.text, sn.lineNumber,
                        Some(row.id), row.modifiedAt, Some(MakeNoteplanUrl(Some(title), None, None))))
  }

  /** What the hit for a row looks like: it carries the row's id and
      timestamp, an empty note shows "(no content)" without a line number,
      a note without a path shows its id as the path, and the link opens
      the note by the title shown (when there is one). */
  predicate SpacesShape(r: SearchResult, row: NoteRow) {
    && r.source == Spaces
    && r.noteId == Some(row.id)
    && r.modifiedAt == row.modifiedAt
    && (!Truthy(row.content) ==> r.snippet == NoContent && r.lineNumber.None?)
    && (!Truthy(row.notePath) ==> r.path == row.id)
    && r.title == SpacesTitle(row.title, row.filename, row.id)
    && r.url.Some?
    && (r.title != "" ==> ReadLink(r.url.value) == Some(ByTitle(EncodeUtf8(r.title))))
    && (r.title == "" ==> r.url.value == "")
  }

  /** The hits of the returned rows, in row order. */
  function RowHits(rows: seq<NoteRow>, q: Query): (r: seq<SearchResult>)
    ensures |r| <= |rows|
  {
    if rows == [] then [] else RowHits(rows[..|rows| - 1], q) + OptionToSeq(SpacesHit(rows[|rows| - 1], q))
  }

  /** `search_spaces_db`: nothing when there is no database, otherwise the
      hit of each returned row. */
  method SearchSpacesDb(dbExists: bool, rows: seq<NoteRow>, q: Query) returns (hits: seq<SearchResult>)
    ensures hits == if dbExists then RowHits(rows, q) else []
  {
    hits := [];
    if !dbExists {
      return;
    }
    var i := 0;
    while i < |rows|
      invariant 0 <= i <= |rows|
      invariant hits == RowHits(rows[..i], q)
    {
      var hit := SpacesHit(rows[i], q);
      RowHitsStep(rows, q, i);
      hits := hits + OptionToSeq(hit);
      i := i + 1;
    }
    assert rows[..i] == rows;
  }

  lemma RowHitsStep(rows: seq<NoteRow>, q: Query, i: nat)
    requires i < |rows|
    ensures RowHits(rows[..i + 1], q) == RowHits(rows[..i], q) + OptionToSeq(SpacesHit(rows[i], q))
  {
    assert rows[..i + 1][..i] == rows[..i];
  }

  /** A row is dropped only by the date filter: with no bounds every
      returned row is a hit. */
  lemma {:induction false} RowHitsWithoutBounds(rows: seq<NoteRow>, q: Query)
    requires q.bounds.after.None? && q.bounds.before.None?
    ensures |RowHits(rows, q)| == |rows|
  {
    if rows != [] {
      RowHitsWithoutBounds(rows[..|rows| - 1], q);
    }
  }

  // ---------------------------------------------------------------------
  // Listing

  /** A row the listing query returns (already ordered newest first by the
      database). */
  datatype ListRow = ListRow(id: string, title: Option<string>, noteType: Option<int>,
                             notePath: Option<string>, modifiedAt: Option<string>)

  datatype SpacesEntry = SpacesEntry(id: string, title: Option<string>, kind: NoteKind, path: string,
                                     modifiedAt: Option<string>, url: Option<string>)

  datatype MarkdownEntry = MarkdownEntry(path: string, filename: string, modifiedAt: string, url: string)

  datatype Listing = Listing(spaces: seq<SpacesEntry>, markdown: seq<MarkdownEntry>)

  /** The listing entry for a row, unless its date is outside the bounds. */
  function SpacesListEntry(row: ListRow, q: Query): (r: Option<SpacesEntry>)
    ensures r.Some? <==> MatchesDateFilter(row.modifiedAt, q.bounds, q.iso)
    ensures r.Some? ==> r.value.id == row.id && r.value.title == row.title
    ensures r.Some? ==> (r.value.kind == Folder <==> row.noteType == Some(FolderNoteType))
    ensures r.Some? ==> (r.value.url.Some? <==> Truthy(row.title) && r.value.kind == Note)
    ensures r.Some? && !Truthy(row.notePath) ==> r.value.path == ""
    ensures r.Some? && Truthy(row.notePath) ==> r.value.path == CloudPath(row.notePath, "")
    ensures r.Some? ==> r.value.modifiedAt == row.modifiedAt
    ensures r.Some? && r.value.url.Some? ==> ReadLink(r.value.url.value) == Some(ByTitle(EncodeUtf8(row.title.value)))
  {
    if !MatchesDateFilter(row.modifiedAt, q.bounds, q.iso) then None
    else Some(SpacesEntry(row.id, row.title, KindOf(row.noteType), CloudPath(row.notePath, ""),
                          row.modifiedAt, ListingUrl(row.title, row.noteType)))
  }

  function SpacesListing(rows: seq<ListRow>, q: Query): (r: seq<SpacesEntry>)
    ensures |r| <= |rows|
  {
    if rows == [] then [] else SpacesListing(rows[..|rows| - 1], q) + OptionToSeq(SpacesListEntry(rows[|rows| - 1], q))
  }

  /** The listing entry for a walked path: any note file outside the
      skipped folders whose date is in bounds; its text is not read, so an
      unreadable file is still listed. */
  function MarkdownListEntry(tag: string, e: FileEntry, q: Query): (r: Option<MarkdownEntry>)
    ensures r.Some? <==>
      IsNoteFile(e) && !SkipSpecial(e.parts, q.includeSpecial) && MatchesDateFilter(Some(e.modifiedAt), q.bounds, q.iso)
    ensures r.Some? ==> r.value.path == tag + "/" + RelPath(e) && r.value.filename == FileName(e)
    ensures r.Some? ==> r.value.modifiedAt == e.modifiedAt
    ensures r.Some? && CalendarDate(Some(FileName(e))).Some? ==>
      ReadLink(r.value.url) == Some(ByDate(CalendarDate(Some(FileName(e))).value))
    ensures r.Some? && CalendarDate(Some(FileName(e))).None? ==>
      ReadLink(r.value.url) == Some(ByFilename(EncodeUtf8(RelPath(e))))
  {
    if !IsNoteFile(e) || SkipSpecial(e.parts, q.includeSpecial) then None
    else if !MatchesDateFilter(Some(e.modifiedAt), q.bounds, q.iso) then None
    else
      NoteFileHasPath(e);
      LinkPrecedence(Some(Stem(FileName(e))), Some(FileName(e)), Some(RelPath(e)));
      Some(MarkdownEntry(tag + "/" + RelPath(e), FileName(e), e.modifiedAt,
                         MakeNoteplanUrl(Some(Stem(FileName(e))), Some(FileName(e)), Some(RelPath(e)))))
  }

  function EntryListing(tag: string, es: seq<FileEntry>, q: Query): seq<MarkdownEntry> {
    if es == [] then [] else EntryListing(tag, es[..|es| - 1], q) + OptionToSeq(MarkdownListEntry(tag, es[|es| - 1], q))
  }

  function RootListing(roots: seq<Root>, q: Query): seq<MarkdownEntry> {
    if roots == [] then []
    else RootListing(roots[..|roots| - 1], q) + EntryListing(roots[|roots| - 1].tag, roots[|roots| - 1].dir.entries, q)
  }

  /** The key the Markdown listing is sorted on. */
  function ListingKey(m: MarkdownEntry): string {
    m.modifiedAt
  }

  /** `list_notes`: the Spaces rows in database order unless only Markdown
      is asked for, and the Markdown files newest first unless only Spaces
      is asked for. */
  method ListNotes(spacesOnly: bool, mdOnly: bool, dbExists: bool, rows: seq<ListRow>, st: Store, q: Query)
    returns (listing: Listing)
    ensures listing.spaces == if mdOnly || !dbExists then [] else SpacesListing(rows, q)
    ensures listing.markdown == if spacesOnly then [] else SortDesc(RootListing(SearchRoots(st), q), ListingKey)
  {
    var spaces: seq<SpacesEntry> := [];
    if !mdOnly && dbExists {
      spaces := ListSpaces(rows, q);
    }
    var markdown: seq<MarkdownEntry> := [];
    if !spacesOnly {
      var files := ListMarkdownFiles(st, q);
      var a := new MarkdownEntry[|files|](k requires 0 <= k < |files| => files[k]);
      assert a[..] == files;
      SortByRecency(a, ListingKey);
      markdown := a[..];
    }
    listing := Listing(spaces, markdown);
  }

  /** The Spaces part of the listing: the entry of each returned row. */
  method ListSpaces(rows: seq<ListRow>, q: Query) returns (spaces: seq<SpacesEntry>)
    ensures spaces == SpacesListing(rows, q)
  {
    spaces := [];
    var i := 0;
    while i < |rows|
      invariant 0 <= i <= |rows|
      invariant spaces == SpacesListing(rows[..i], q)
    {
      var entry := SpacesListEntry(rows[i], q);
      SpacesListingStep(rows, q, i);
      spaces := spaces + OptionToSeq(entry);
      i := i + 1;
    }
    assert rows[..i] == rows;
  }

  lemma SpacesListingStep(rows: seq<ListRow>, q: Query, i: nat)
    requires i < |rows|
    ensures SpacesListing(rows[..i + 1], q) == SpacesListing(rows[..i], q) + OptionToSeq(SpacesListEntry(rows[i], q))
  {
    assert rows[..i + 1][..i] == rows[..i];
  }

  /** The walk of the listing, before sorting. */
  method ListMarkdownFiles(st: Store, q: Query) returns (files: seq<MarkdownEntry>)
    ensures files == RootListing(SearchRoots(st), q)
  {
    var roots := SearchRoots(st);
    files := [];
    var i := 0;
    while i < |roots|
      invariant 0 <= i <= |roots|
      invariant files == RootListing(roots[..i], q)
    {
      var found := ListFolder(roots[i].tag, roots[i].dir.entries, q);
      RootListingStep(roots, q, i);
      files := files + found;
      i := i + 1;
    }
    assert roots[..i] == roots;
  }

  /** The walk of one folder during a listing. */
  method ListFolder(tag: string, entries: seq<FileEntry>, q: Query) returns (files: seq<MarkdownEntry>)
    ensures files == EntryListing(tag, entries, q)
  {
    files := [];
    var j := 0;
    while j < |entries|
      invariant 0 <= j <= |entries|
      invariant files == EntryListing(tag, entries[..j], q)
    {
      var entry := MarkdownListEntry(tag, entries[j], q);
      EntryListingStep(tag, entries, q, j);
      files := files + OptionToSeq(entry);
      j := j + 1;
    }
    assert entries[..j] == entries;
  }

  lemma RootListingStep(roots: seq<Root>, q: Query, i: nat)
    requires i < |roots|
    ensures RootListing(roots[..i + 1], q) ==
      RootListing(roots[..i], q) + EntryListing(roots[i].tag, roots[i].dir.entries, q)
  {
    assert roots[..i + 1][..i] == roots[..i];
  }

  lemma EntryListingStep(tag: string, entries: seq<FileEntry>, q: Query, j: nat)
    requires j < |entries|
    ensures EntryListing(tag, entries[..j + 1], q) ==
      EntryListing(tag, entries[..j], q) + OptionToSeq(MarkdownListEntry(tag, entries[j], q))
  {
    assert entries[..j + 1][..j] == entries[..j];
  }

  /** The Markdown listing is newest first, holds exactly the files the walk
      found, and keeps walk order among files with the same timestamp. */
  lemma MarkdownListingOrder(st: Store, q: Query, k: string)
    ensures var found := RootListing(SearchRoots(st), q);
      var sorted := SortDesc(found, ListingKey);
      && Descending(sorted, ListingKey)
      && multiset(sorted) == multiset(found)
      && WithKey(sorted, ListingKey, k) == WithKey(found, ListingKey, k)
  {
    var found := RootListing(SearchRoots(st), q);
    SortDescSortedPermutation(found, ListingKey);
    SortDescStable(found, ListingKey, k);
  }
}
