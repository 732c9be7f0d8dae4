/** The search command: collect the Markdown hits unless only Spaces is
    asked for, then the Spaces hits unless only Markdown is asked for, and
    sort the merged list newest first. */
module SearchFlow {
  import opened Wrappers
  import opened Results
  import opened Recency
  import opened Sources

  /** The hits in the order they are collected, before sorting. */
  function Collected(st: Store, dbExists: bool, rows: seq<NoteRow>, q: Query, spacesOnly: bool, mdOnly: bool):
    seq<SearchResult>
  {
    (if spacesOnly then [] else RootHits(SearchRoots(st), q)) +
    (if mdOnly || !dbExists then [] else RowHits(rows, q))
  }

  /** `results.extend(...)` for each source and `results.sort(key=modified_at or "",
      reverse=True)`. */
  method RunSearch(st: Store, dbExists: bool, rows: seq<NoteRow>, q: Query, spacesOnly: bool, mdOnly: bool)
    returns (results: seq<SearchResult>)
    ensures results == SortDesc(Collected(st, dbExists, rows, q, spacesOnly, mdOnly), RecencyKey)
  {
    var md: seq<SearchResult> := [];
    if !spacesOnly {
      md := SearchMarkdownFiles(st, q);
    }
    var spaces: seq<SearchResult> := [];
    if !mdOnly {
      spaces := SearchSpacesDb(dbExists, rows, q);
    }
    var collected := md + spaces;
    results := SortResults(collected);
  }

  /** Sorts a list of hits through an array, as `list.sort` does in place. */
  method SortResults(collected: seq<SearchResult>) returns (results: seq<SearchResult>)
    ensures results == SortDesc(collected, RecencyKey)
  {
    var a := new SearchResult[|collected|](k requires 0 <= k < |collected| => collected[k]);
    assert a[..] == collected;
    SortByRecency(a, RecencyKey);
    results := a[..];
  }

  /** The sorted hits are the collected hits, newest first, with every hit
      that has no timestamp after all that have one. Among hits with the
      same timestamp the Markdown hits come first, each source in its own
      order. */
  lemma SearchOrder(st: Store, dbExists: bool, rows: seq<NoteRow>, q: Query, spacesOnly: bool, mdOnly: bool, k: string)
    ensures var md := if spacesOnly then [] else RootHits(SearchRoots(st), q);
      var spaces := if mdOnly || !dbExists then [] else RowHits(rows, q);
      var sorted := SortDesc(md + spaces, RecencyKey);
      && multiset(sorted) == multiset(md + spaces)
      && Descending(sorted, RecencyKey)
      && (forall i, j :: 0 <= i < j < |sorted| && RecencyKey(sorted[i]) == "" ==> RecencyKey(sorted[j]) == "")
      && WithKey(sorted, RecencyKey, k) == WithKey(md, RecencyKey, k) + WithKey(spaces, RecencyKey, k)
  {
    var md := if spacesOnly then [] else RootHits(SearchRoots(st), q);
    var spaces := if mdOnly || !dbExists then [] else RowHits(rows, q);
    SortDescSortedPermutation(md + spaces, RecencyKey);
    MissingLast(md + spaces, RecencyKey);
    SortDescStable(md + spaces, RecencyKey, k);
    WithKeyConcat(md, spaces, RecencyKey, k);
  }

  /** With `--md` no Spaces hit is reported, and with `--spaces` no
      Markdown hit. */
  lemma SourceFlags(st: Store, dbExists: bool, rows: seq<NoteRow>, q: Query, spacesOnly: bool, mdOnly: bool)
    ensures var sorted := SortDesc(Collected(st, dbExists, rows, q, spacesOnly, mdOnly), RecencyKey);
      && (mdOnly ==> forall i :: 0 <= i < |sorted| ==> sorted[i].source == Markdown)
      && (spacesOnly ==> forall i :: 0 <= i < |sorted| ==> sorted[i].source == Spaces)
  {
    var c := Collected(st, dbExists, rows, q, spacesOnly, mdOnly);
    var sorted := SortDesc(c, RecencyKey);
    SortDescSortedPermutation(c, RecencyKey);
    RowHitsAreSpaces(rows, q);
    forall i | 0 <= i < |sorted| ensures sorted[i] in c {
      assert sorted[i] in multiset(sorted);
    }
  }

  lemma {:induction false} RowHitsAreSpaces(rows: seq<NoteRow>, q: Query)
    ensures forall i :: 0 <= i < |RowHits(rows, q)| ==> RowHits(rows, q)[i].source == Spaces
  {
    if rows != [] {
      RowHitsAreSpaces(rows[..|rows| - 1], q);
    }
  }
}
