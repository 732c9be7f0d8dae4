# npq: NotePlan query, modelled in Dafny

`npq` searches a person's NotePlan notes. The notes live in two places:

- Markdown files under the Notes and Calendar folders, locally and in
  iCloud Drive;
- the rows of the Spaces SQLite database.

The tool searches both for a term, filters by modification date, shows a
snippet around the first match, builds `noteplan://` deep links, lists every
note, and fetches one note by id, title or path.

This project models the logic of `noteplan/scripts/npq.py` that decides what
is reported, and proves what that logic promises.

- **Data, not I/O.** The folder walk, the file contents and the database
  rows are plain data. A `Dir` holds the entries its recursive walk reports
  in walk order. The rows are what the SQL queries return.
- **Date parsing is a parameter.** `datetime.fromisoformat` and
  `strptime("%Y-%m-%d")` are functions from strings to optional datetimes.
- **Form follows the source.** Code that only computes a value is modelled
  by functions and lemmas. The loops of the source are methods with
  invariants, proved equal to specification functions:
  - the searches and the listing;
  - the rules of `get_note`, each returning early;
  - the in-place sort, an insertion sort on an array.

Modules, one per file:

| module | file | models |
|---|---|---|
| `Wrappers` | wrappers.dfy | Python `None` and `or` on optional strings |
| `Text` | text.dfy | `lower`, `strip`, `lstrip`, `find`, `count`, `replace`, `split(c)[0]`, `join` |
| `Snippet` | snippet.dfy | `get_context_snippet` |
| `DeepLink` | deep_link.dfy | `make_noteplan_url`, with `quote(s, safe='')` per section 2.1 of RFC 3986 |
| `DateFilter` | date_filter.dfy | `parse_date_filters`, `matches_date_filter` |
| `NoteFields` | note_fields.dfy | title, 60-character truncation, cloud marker, folder type, `@` folders |
| `Results` | results.dfy | `SearchResult`, its sort key, `format_result` |
| `Recency` | recency.dfy | the stable descending sort by timestamp |
| `Sources` | sources.dfy | `search_markdown_files`, `search_spaces_db`, `list_notes` |
| `SearchFlow` | search_flow.dfy | the search path of `main` |
| `Resolver` | resolver.dfy | `get_note` |

## Model

| member | source | states |
|---|---|---|
| Snippet.SnippetLineNumber | noteplan/scripts/npq.py:134-139 | With a match at the first case-insensitive position `pos`, the line number is one more than the number of newlines before `pos`, so it is at least 1. |
| Snippet.SnippetWindow | noteplan/scripts/npq.py:142-143 | The window starts at or before the match, ends at or after it, and lies inside the text. |
| Snippet.SnippetWithoutMatch | noteplan/scripts/npq.py:134-136 | With no match there is no line number. The snippet is the first 150 characters on one line plus `...`, so it has at most 153 characters. |
| Snippet.SnippetShape | noteplan/scripts/npq.py:136-150 | The snippet never holds a newline. It starts with `...` when the window was cut at the front, and ends with `...` when it was cut at the back or there was no match. |
| Snippet.SnippetShowsMatch | noteplan/scripts/npq.py:134-152 | For a non-empty term that holds no newline and neither starts nor ends with whitespace (so multi-word terms such as `meeting notes` are covered), the snippet itself contains the term, ignoring case. |
| Snippet.MatchPosIsFirst | noteplan/scripts/npq.py:134 | The position `find` reports is the unique first match. |
| Text.ContainsIffFound | noteplan/scripts/npq.py:197 | `term in text` holds exactly when `text.find(term)` is not -1. |
| DeepLink.LinkPrecedence | noteplan/scripts/npq.py:96-126 | Reading the link back gives the precedence: a calendar file name (8 digits) opens by date; otherwise the relative path, then the file name, then the title opens by file name or title. Each value decodes to the UTF-8 bytes of the input. The link is empty exactly when all three are empty or missing. |
| DeepLink.CalendarLinkIgnoresOthers | noteplan/scripts/npq.py:105-109 | For a calendar file name, the link is `noteDate=<stem>` whatever title and path are given. |
| DeepLink.UnquoteQuote | noteplan/scripts/npq.py:114 | Percent-decoding the output of `quote` gives the UTF-8 encoding of the input, so `quote` loses nothing. |
| DeepLink.QuoteEncodesSlashAndSpace | noteplan/scripts/npq.py:114 | With `safe=''`, the output holds only unreserved characters and `%XX` triples, so no `/` and no space is left. |
| DeepLink.QuoteUnreserved | noteplan/scripts/npq.py:114 | A string of unreserved ASCII characters is left unchanged. |
| DeepLink.QuoteConcat | noteplan/scripts/npq.py:114 | `quote` works piece by piece: `quote(a + b) == quote(a) + quote(b)`. |
| DeepLink.QuoteSlashAndSpace | noteplan/scripts/npq.py:114 | `/` is written `%2F` and a space `%20`. |
| DateFilter.ParseDateFilters | noteplan/scripts/npq.py:34-59 | An empty or missing argument sets no bound. The ISO form is tried first. The bare-date form is the fallback, and only `before` moves to 23:59:59. A value neither form accepts is the `--after` or `--before` error, and `after` is checked first. |
| DateFilter.MatchesDateFilter | noteplan/scripts/npq.py:62-80 | With no bound everything matches. With a bound, a missing or unparsable timestamp never matches. Otherwise it matches exactly when the timestamp, cut at the first `Z` or `+`, lies between the bounds, both inclusive. |
| DateFilter.TimestampTextCuts | noteplan/scripts/npq.py:71 | Replacing `Z` by `+00:00` and splitting at `+` is cutting at the first `Z` or `+`. |
| DateFilter.InRangeUnlessOutside | noteplan/scripts/npq.py:75-78 | The two exclusion tests fail exactly when the time is in the inclusive range. |
| DateFilter.LessTotalOrder | noteplan/scripts/npq.py:75-77 | Datetime comparison, field by field, is a strict total order. |
| DateFilter.BareBeforeDateIsMidnight | noteplan/scripts/npq.py:49-51 | `fromisoformat` accepts `2025-01-15`, so that before bound is midnight at the start of the day, and a note changed at 10:00 that day is excluded. |
| DateFilter.UnpaddedBeforeDateIsEndOfDay | noteplan/scripts/npq.py:52-54 | A date that `fromisoformat` refuses and `strptime("%Y-%m-%d")` reads, such as `2025-1-15`, gets the fallback bound 23:59:59, and the same note is included. |
| NoteFields.NoteTitleFacts | noteplan/scripts/npq.py:201-202 | A blank first line gives the stem. Otherwise the title lies within the first line, holds no newline, and neither starts nor ends with whitespace. It is empty exactly when the stripped first line is all `#`. It is the stripped first line with its longest leading run of `#` removed, then stripped again. |
| NoteFields.ShortTitle | noteplan/scripts/npq.py:208 | A title of at most 60 characters is shown as it is. A longer one is shown as its first 60 characters followed by `...`. Either way the shown title has at most 63 characters. |
| NoteFields.ShortTitleFixpoint | noteplan/scripts/npq.py:208 | A title is shown unchanged exactly when it fits in 60 characters or is 63 characters ending in `...`. Shortening twice is shortening once. |
| NoteFields.SpacesTitle | noteplan/scripts/npq.py:255 | `title or filename or note_id`: the first truthy one, and empty only when all three are. |
| NoteFields.CloudPath | noteplan/scripts/npq.py:251 | A missing or empty path gives the fallback. Otherwise the result is no longer than the path. |
| NoteFields.CloudPathMarker | noteplan/scripts/npq.py:295 | A path without `%%NotePlanCloud%%/` is shown unchanged. A path that starts with it, and holds no other, is shown without it. |
| NoteFields.ListingUrl | noteplan/scripts/npq.py:426 | A listing entry has a link exactly when its title is truthy and it is not a folder. The link opens the note by that title. |
| NoteFields.AnySpecialIff | noteplan/scripts/npq.py:184 | `any(part.startswith('@') ...)` holds exactly when some path component starts with `@`. |
| NoteFields.SkipSpecial | noteplan/scripts/npq.py:181-185 | With `--all` nothing is skipped. Otherwise a file is skipped exactly when some component of its relative path starts with `@`. |
| Recency.SortDescSortedPermutation | noteplan/scripts/npq.py:634 | The sort returns a permutation of its input with non-increasing keys. |
| Recency.SortDescStable | noteplan/scripts/npq.py:634 | The sort is stable: for every key, the elements with that key keep their input order. |
| Recency.MissingLast | noteplan/scripts/npq.py:634 | After the sort, results without a timestamp (key `""`) come after every result that has one. |
| Recency.StrLeTotal | noteplan/scripts/npq.py:469 | Python's string order is total. |
| Recency.StrLeTrans | noteplan/scripts/npq.py:469 | Python's string order is transitive. |
| Recency.StrLeAntisym | noteplan/scripts/npq.py:469 | Python's string order is antisymmetric. |
| Recency.SortByRecency | noteplan/scripts/npq.py:469 | The in-place insertion sort leaves the array equal to the stable descending sort of its old contents. |
| Recency.InsertAt | noteplan/scripts/npq.py:469 | Moving one element left past the smaller keys inserts it into the sorted prefix and leaves the rest of the array unchanged. |
| Results.NatToStringRoundTrip | noteplan/scripts/npq.py:516 | The printed line number reads back as the number. |
| Results.FormatLineCount | noteplan/scripts/npq.py:505-530 | A hit whose fields are single lines prints with four newlines when it has a note id, and three otherwise. |
| Results.PlainFormatHasNoEscape | noteplan/scripts/npq.py:507-513 | Without colour, no escape character is printed unless a field holds one. |
| Results.PlainFormatStartsWithTag | noteplan/scripts/npq.py:515-527 | Without colour, the output starts with `[MARKDOWN] ` or `[SPACES] `. |
| Results.FormatLines | noteplan/scripts/npq.py:505-530 | With or without colour, when no field holds a newline, splitting the output at `\n` gives exactly: the header line (tag, title, date); four spaces, the path and ` (line n)` when there is a line number; four spaces and `id: ` with the id (in the dim colour) when there is an id; four spaces and the snippet; and an empty last piece left by the closing newline. |
| Results.FormatEndsWithSnippet | noteplan/scripts/npq.py:527-530 | With or without colour, the last printed line is the snippet. |
| Sources.SearchRoots | noteplan/scripts/npq.py:161-176 | Only existing folders are walked. Notes is first exactly when it exists. The iCloud folders are walked only when the iCloud folder exists. |
| Sources.SearchRootsOrder | noteplan/scripts/npq.py:164-176 | Calendar is walked exactly when it exists, and the folders come in the order Notes, Calendar, iCloud/Notes, iCloud/Calendar. |
| Resolver.SearchRootsAreLabels | noteplan/scripts/npq.py:164-176 | When the iCloud subfolders exist only with the iCloud folder, the folders the search walks are exactly those of `get_note`'s label map (npq.py:307-312) that exist. |
| Sources.MarkdownHit | noteplan/scripts/npq.py:179-214 | A walked path is a hit exactly when all of these hold: it is a `.md`/`.txt` file (suffix in any case); it is outside skipped `@` folders; its date is in bounds; it can be read; it contains the term in any case. A hit has no id and has the label-prefixed path and the file's timestamp. Its title is the shortened note title of the text. Its snippet and line number are those of the context snippet of the text. Its link opens a calendar note by date and any other note by its relative path. |
| Sources.SearchMarkdownFiles | noteplan/scripts/npq.py:155-216 | The walk's hits equal the folder-by-folder, walk-order specification. |
| Sources.SpacesHit | noteplan/scripts/npq.py:238-262 | A returned row is a hit exactly when its date is in bounds. The hit has the row's id and timestamp. Content gives the context snippet and its line number; empty content shows `(no content)` without a line number. A path is shown without the cloud marker; a missing path shows the id. The link opens the shown title. |
| Sources.SearchSpacesDb | noteplan/scripts/npq.py:219-262 | No database gives no hits. Otherwise the hits are those of the returned rows, in row order. |
| Sources.RowHitsWithoutBounds | noteplan/scripts/npq.py:241-243 | Only the date filter drops a returned row: with no bounds, every row is a hit. |
| Sources.SpacesListEntry | noteplan/scripts/npq.py:415-427 | A row is listed exactly when its date is in bounds. The entry keeps id, title and timestamp, and is a folder exactly for type 10. It has a link exactly for a titled non-folder, and the link opens that title. A path is shown without the cloud marker, and a missing path shows as `""`. |
| Sources.MarkdownListEntry | noteplan/scripts/npq.py:447-467 | A walked path is listed exactly when it is a note file outside skipped `@` folders with its date in bounds. Its text is never read. The entry has the file's timestamp. Its link opens a calendar note by date and any other note by its relative path. |
| Sources.ListNotes | noteplan/scripts/npq.py:399-470 | The listing is the Spaces rows in database order (unless `--md`, or there is no database), and the Markdown files sorted newest first (unless `--spaces`). |
| Sources.ListSpaces | noteplan/scripts/npq.py:405-431 | The Spaces part of the listing loop keeps, in row order, the entry of each returned row whose date is in bounds. |
| Sources.MarkdownListingOrder | noteplan/scripts/npq.py:469 | The Markdown listing is descending, holds exactly the walked entries, and keeps walk order among equal timestamps. |
| SearchFlow.RunSearch | noteplan/scripts/npq.py:625-634 | The results are the Markdown hits (unless `--spaces`) followed by the Spaces hits (unless `--md`), stably sorted newest first. |
| SearchFlow.SearchOrder | noteplan/scripts/npq.py:625-634 | The sorted results are a permutation of the collected hits and are descending, with hits without a timestamp last. For equal timestamps, the Markdown hits come first and each source keeps its own order. |
| SearchFlow.SourceFlags | noteplan/scripts/npq.py:627-631 | With `--md` every result is a Markdown hit. With `--spaces` every result is a Spaces hit. |
| Resolver.FetchOne | noteplan/scripts/npq.py:280-286 | `fetchone` returns the first row matching by id (or by title, in any case). |
| Resolver.IdComesFirst | noteplan/scripts/npq.py:279-300 | With the database present, the first row whose id is the identifier wins over every other rule. |
| Resolver.TitleComesNext | noteplan/scripts/npq.py:283-300 | Without an id match, the first row whose title equals the identifier in any case wins over every file. |
| Resolver.NotFoundMeansNoMatch | noteplan/scripts/npq.py:269-396 | "Not found" means no rule applied. No row matches by id or title. No labelled path names a readable file. No existing folder has a readable file at that path, or a `.md`/`.txt` file or directory with that stem or name. |
| Resolver.GetNoteSound | noteplan/scripts/npq.py:314-394 | Every Markdown note found among the files is one the identifier names. Either it is a readable file of a labelled folder and the identifier is the label, `/` and the file's relative path. Or it is a readable file of one of the four folders whose relative path is the identifier, or whose stem or name matches it case-insensitively and whose name ends in `.md` or `.txt`. The folder exists. Its content is the file's text, and its title is derived from that text or the stem. Its path is the folder joined with the file's relative path, and its link is built from the title, the file name and that relative path. A raised error comes from a directory whose name matched in the same way. |
| Resolver.LabelRuleSound | noteplan/scripts/npq.py:314-333 | A note found through a `Notes/`, `Calendar/`, `iCloud/Notes/` or `iCloud/Calendar/` prefix is the readable file of that folder whose relative path is the rest of the identifier: the identifier equals the label, `/` and the file's relative path. That folder exists, and the note's link is built from the title, the file name and that relative path. |
| Resolver.GetNote | noteplan/scripts/npq.py:269-396 | The early-return procedure computes exactly the rule-by-rule specification: id, title, label path, direct path, `*.md` name, `*.txt` name. |
| Resolver.GlobFind | noteplan/scripts/npq.py:359-394 | The name walk returns the first matching entry that can be read, or the error of a matching directory. |

## Left out

- File system, SQLite, clock and terminal: not modelled.
  - A folder's existence, its recursive walk (in the order `rglob` yields),
    each file's modification timestamp, and its text (or the read error) are
    given as data.
  - The rows the SQL queries return are given as input. The `WHERE` and
    `ORDER BY` clauses are not modelled, so SQL `LIKE` matching is not either
    (including `%` and `_` in the term acting as wildcards).
  - A `sqlite3.Error` is not modelled. The source treats it differently at
    each site. `search_spaces_db` always prints `Database error: …` on stderr
    and keeps the hits it has already yielded (npq.py:265-266). `list_notes`
    prints it only without `--json` (npq.py:430-431). `get_note` ignores it
    without a message, and the lookup falls through to the file rules
    (npq.py:303-304). The model computes that fall-through when `dbExists` is
    false.
- Date parsing: `datetime.fromisoformat` and `strptime` are abstract
  parameters, and `datetime.fromtimestamp(...).isoformat()` is the given
  timestamp string. Datetimes carry no time zone. The note's timestamp has a
  trailing `Z` or `+hh:mm` cut off before parsing, but the `--after` and
  `--before` values are parsed as given. So `--after 2025-01-01T00:00:00+00:00`,
  or a stored timestamp ending in `-05:00`, yields a zone-aware datetime. The
  comparison with a naive one then raises an uncaught `TypeError`. The model
  has no such crash: it compares the fields.
- Unicode: `lower()` is ASCII-only, and `strip()` removes ASCII whitespace
  only. `quote` encodes Dafny `char` values, which are Unicode scalar
  values, so Python strings holding lone surrogates (where `quote` raises)
  are not covered. The calendar test `\d{8}` matches any Unicode decimal
  digit in Python, while `IsCalendarStem` accepts ASCII digits only.
- Paths: no `pathlib` normalisation (`..`, repeated or trailing slashes,
  absolute identifiers in `get_note`). A relative path is its components
  joined by `/`. `base_dir / identifier` is looked up as that relative path
  among the walked entries.
- Errors in `get_note`: reading a directory that `rglob("*.md")` matched
  raises `IsADirectoryError`, which the source does not catch. The model
  returns it as the `Raised` result instead of crashing.
- The Spaces database in `get_note` is given as one table that both queries
  read.
- Command-line handling: `argparse`, `print`, JSON output and the
  human-readable listing of `list_notes` are not modelled. The `-c` flag is
  not modelled either: the source parses it but never uses it. The process
  exit on a bad date is the `Failure` of `ParseDateFilters`.
- The listing's Spaces rows are taken in the order the database returns
  them: the `ORDER BY modified_at DESC` is the database's work.
- Generators: `search_markdown_files` and `search_spaces_db` are modelled
  as functions returning the whole list, which is what `results.extend`
  consumes.
- NoteFields.CloudPath: states only that the marker-free result is no longer
  than the path, and (through CloudPathMarker) the cases of no marker and of
  one leading marker. It does not characterise `replace` for paths holding
  the marker several times.
- Snippet.SnippetShowsMatch: does not cover a term that holds a newline
  (the snippet turns it into a space) or that starts or ends with
  whitespace (`strip()` can cut it at the window's ends).
- Results.FormatLineCount: assumes fields without newlines, because a title,
  path or snippet holding one prints extra lines.
- Results.FormatLines: assumes fields without newlines, for the same reason.

## Notes

- `datetime.fromisoformat` accepts a bare date such as `2025-01-15` and
  returns midnight. So `--before 2025-01-15` means the start of that day,
  not 23:59:59, and notes changed later that day are excluded
  (DateFilter.BareBeforeDateIsMidnight). The end-of-day adjustment is
  reached only by a value that `fromisoformat` refuses and
  `strptime("%Y-%m-%d")` accepts, such as the unpadded `2025-1-15`
  (DateFilter.UnpaddedBeforeDateIsEndOfDay). The model follows the code.
