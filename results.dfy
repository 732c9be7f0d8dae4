/** A search hit, its sort key, and how it is printed for a person. */
module Results {
  import opened Wrappers
  import opened Text

  datatype Source = Markdown | Spaces

  /** One search hit. `noteId` is set for Spaces notes only. */
  datatype SearchResult = SearchResult(
    source: Source,
    title: string,
    path: string,
    snippet: string,
    lineNumber: Option<nat>,
    noteId: Option<string>,
    modifiedAt: Option<string>,
    url: Option<string>)

  /** The key the merged results are sorted on: `modified_at or ""`. */
  function RecencyKey(r: SearchResult): (k: string)
    ensures Truthy(r.modifiedAt) ==> k == r.modifiedAt.value
    ensures !Truthy(r.modifiedAt) ==> k == ""
  {
    if Truthy(r.modifiedAt) then r.modifiedAt.value else ""
  }

  // ---------------------------------------------------------------------
  // Decimal numerals

  function DigitChar(d: nat): char
    requires d < 10
  {
    ('0' as int + d) as char
  }

  /** `str(n)` for a natural number. */
  function NatToString(n: nat): (s: string)
    ensures |s| >= 1
    ensures forall i :: 0 <= i < |s| ==> '0' <= s[i] <= '9'
  {
    if n < 10 then [DigitChar(n)] else NatToString(n / 10) + [DigitChar(n % 10)]
  }

  /** `int(s)` for a string of decimal digits. */
  function ParseNat(s: string): nat
    requires forall i :: 0 <= i < |s| ==> '0' <= s[i] <= '9'
  {
    if s == [] then 0 else ParseNat(s[..|s| - 1]) * 10 + (s[|s| - 1] as int - '0' as int)
  }

  /** Reading back the printed number gives the number. */
  lemma {:induction false} NatToStringRoundTrip(n: nat)
    ensures ParseNat(NatToString(n)) == n
  {
    if n >= 10 {
      NatToStringRoundTrip(n / 10);
      var s := NatToString(n);
      assert s[..|s| - 1] == NatToString(n / 10);
    }
  }

  // ---------------------------------------------------------------------
  // Printing a hit

  const Esc: char := '\U{1B}'
  const Cyan: string := [Esc] + "[36m"
  const Yellow: string := [Esc] + "[33m"
  const Reset: string := [Esc] + "[0m"
  const Bold: string := [Esc] + "[1m"
  const Dim: string := [Esc] + "[2m"

  /** `[SPACES]` or `[MARKDOWN]`: the source name upper-cased, in brackets. */
  function SourceTag(s: Source): string {
    match s
    case Spaces => "[SPACES]"
    case Markdown => "[MARKDOWN]"
  }

  /** Python truthiness of an optional line number. */
  predicate HasLine(n: Option<nat>) {
    n.Some? && n.value != 0
  }

  function LineInfo(n: Option<nat>): string {
    if HasLine(n) then " (line " + NatToString(n.value) + ")" else ""
  }

  function IdInfo(id: Option<string>, dim: string, reset: string): string {
    if Truthy(id) then "\n    " + dim + "id: " + id.value + reset else ""
  }

  /** The date part of the timestamp: its first ten characters. */
  function ModDate(m: Option<string>, dim: string, reset: string): string {
    if Truthy(m) then " " + dim + "[" + m.value[..Min(10, |m.value|)] + "]" + reset else ""
  }

  /** The four terminal codes `format_result` uses; all empty without
      colour. */
  datatype Palette = Palette(color: string, reset: string, bold: string, dim: string)

  function PaletteFor(source: Source, useColor: bool): Palette {
    if !useColor then Palette("", "", "", "")
    else Palette(if source == Spaces then Cyan else Yellow, Reset, Bold, Dim)
  }

  /** The first line of a printed hit: source tag, title and date. */
  function Header(r: SearchResult, p: Palette): string {
    p.color + SourceTag(r.source) + p.reset + " " + p.bold + r.title + p.reset + ModDate(r.modifiedAt, p.dim, p.reset)
  }

  /** The second line of a printed hit: path, line number and note id. */
  function Location(r: SearchResult, p: Palette): string {
    r.path + LineInfo(r.lineNumber) + IdInfo(r.noteId, p.dim, p.reset)
  }

  const Indent: string := "\n    "

  /** `format_result(result, use_color)`: a header line with the source tag,
      the title and the date, a line with the path, the line number and (for
      Spaces) the id, and a line with the snippet. */
  function FormatResult(r: SearchResult, useColor: bool): string {
    var p := PaletteFor(r.source, useColor);
    Header(r, p) + Indent + Location(r, p) + Indent + r.snippet + "\n"
  }

  /** The characters that the fields of a hit bring into its printout. */
  predicate FieldsAvoid(r: SearchResult, c: char) {
    c !in r.title && c !in r.path && c !in r.snippet &&
    (r.noteId.Some? ==> c !in r.noteId.value) &&
    (r.modifiedAt.Some? ==> c !in r.modifiedAt.value)
  }

  predicate PaletteAvoids(p: Palette, c: char) {
    c !in p.color && c !in p.reset && c !in p.bold && c !in p.dim
  }

  lemma DigitsAvoid(n: nat, c: char)
    requires !('0' <= c <= '9')
    ensures c !in NatToString(n)
  {
    var s := NatToString(n);
    forall i | 0 <= i < |s| ensures s[i] != c {
    }
  }

  lemma PrefixAvoids(s: string, k: nat, c: char)
    requires c !in s
    ensures c !in s[..Min(k, |s|)]
  {
    var p := s[..Min(k, |s|)];
    forall i | 0 <= i < |p| ensures p[i] != c {
      assert p[i] == s[i];
    }
  }

  /** The pieces of a hit that can bring a character into the printout,
      other than the id line's own newline. */
  lemma PiecesAvoid(r: SearchResult, p: Palette, c: char)
    requires FieldsAvoid(r, c) && PaletteAvoids(p, c) && !('0' <= c <= '9')
    requires c !in "[SPACES]" && c !in "[MARKDOWN]" && c !in " (line )" && c !in " []" && c !in "id: "
    ensures c !in Header(r, p)
    ensures c !in r.path + LineInfo(r.lineNumber)
    ensures Truthy(r.noteId) ==> c !in p.dim + "id: " + r.noteId.value + p.reset
  {
    DigitsAvoid(if r.lineNumber.Some? then r.lineNumber.value else 0, c);
    if r.modifiedAt.Some? { PrefixAvoids(r.modifiedAt.value, 10, c); }
    assert c !in SourceTag(r.source);
  }

  lemma PlainPaletteAvoids(source: Source, c: char)
    ensures PaletteAvoids(PaletteFor(source, false), c)
  {
  }

  /** The colour codes hold no newline. */
  lemma PaletteHasNoNewline(source: Source, useColor: bool)
    ensures PaletteAvoids(PaletteFor(source, useColor), '\n')
  {
    assert '\n' !in "[36m" && '\n' !in "[33m" && '\n' !in "[0m" && '\n' !in "[1m" && '\n' !in "[2m";
  }

  /** Without colour, a hit whose fields hold no escape character prints
      without any: no terminal control codes reach a pipe or a file. */
  lemma PlainFormatHasNoEscape(r: SearchResult)
    requires FieldsAvoid(r, Esc)
    ensures Esc !in FormatResult(r, false)
  {
    var p := PaletteFor(r.source, false);
    PlainPaletteAvoids(r.source, Esc);
    PiecesAvoid(r, p, Esc);
    assert Esc !in IdInfo(r.noteId, p.dim, p.reset);
  }

  /** A hit printed without colour starts with its source tag and a space. */
  lemma PlainFormatStartsWithTag(r: SearchResult)
    ensures SourceTag(r.source) + " " <= FormatResult(r, false)
  {
  }

  /** The location line holds a newline only when the note has an id, and
      then one. */
  lemma LocationNewlines(r: SearchResult, p: Palette)
    requires FieldsAvoid(r, '\n') && PaletteAvoids(p, '\n')
    ensures multiset(Location(r, p))['\n'] == if Truthy(r.noteId) then 1 else 0
  {
    PiecesAvoid(r, p, '\n');
    var head := r.path + LineInfo(r.lineNumber);
    assert multiset(head)['\n'] == 0;
    assert Location(r, p) == head + IdInfo(r.noteId, p.dim, p.reset);
    IdInfoNewlines(r.noteId, p);
  }

  lemma IdInfoNewlines(id: Option<string>, p: Palette)
    requires PaletteAvoids(p, '\n') && (id.Some? ==> '\n' !in id.value)
    ensures multiset(IdInfo(id, p.dim, p.reset))['\n'] == if Truthy(id) then 1 else 0
  {
    if Truthy(id) {
      var tail := p.dim + "id: " + id.value + p.reset;
      assert '\n' !in tail;
      assert multiset(tail)['\n'] == 0;
      assert IdInfo(id, p.dim, p.reset) == ['\n'] + "    " + tail;
      assert multiset("    ")['\n'] == 0;
    }
  }

  /** Three single-line parts joined as `format_result` joins them. */
  lemma JoinedNewlines(h: string, l: string, snippet: string)
    requires '\n' !in h && '\n' !in snippet
    ensures multiset(h + Indent + l + Indent + snippet + "\n")['\n'] == 3 + multiset(l)['\n']
  {
    assert multiset(Indent)['\n'] == 1 by {
      assert Indent == ['\n'] + "    ";
      assert '\n' !in "    ";
    }
    assert multiset(h)['\n'] == 0 && multiset(snippet)['\n'] == 0;
  }

  /** A hit whose fields are single lines prints as three lines, or four
      when it carries a note id, each ended by a newline. */
  lemma FormatLineCount(r: SearchResult, useColor: bool)
    requires FieldsAvoid(r, '\n')
    ensures multiset(FormatResult(r, useColor))['\n'] == if Truthy(r.noteId) then 4 else 3
  {
    var p := PaletteFor(r.source, useColor);
    PaletteHasNoNewline(r.source, useColor);
    PiecesAvoid(r, p, '\n');
    LocationNewlines(r, p);
    JoinedNewlines(Header(r, p), Location(r, p), r.snippet);
  }

  /** A hit whose fields are single lines prints, line by line, as the
      header (tag, title, date), the indented path with the line number
      (when there is one), the indented id (when there is one) and the
      indented snippet; its closing newline leaves an empty last piece. */
  lemma FormatLines(r: SearchResult, useColor: bool)
    requires FieldsAvoid(r, '\n')
    ensures var p := PaletteFor(r.source, useColor);
      Split(FormatResult(r, useColor), '\n') ==
        [Header(r, p), "    " + r.path + LineInfo(r.lineNumber)] +
        (if Truthy(r.noteId) then ["    " + p.dim + "id: " + r.noteId.value + p.reset] else []) +
        ["    " + r.snippet, ""]
  {
    var p := PaletteFor(r.source, useColor);
    PaletteHasNoNewline(r.source, useColor);
    PiecesAvoid(r, p, '\n');
    var ids := if Truthy(r.noteId) then ["    " + p.dim + "id: " + r.noteId.value + p.reset] else [];
    var loc := "    " + r.path + LineInfo(r.lineNumber);
    var last := "    " + r.snippet;
    assert '\n' !in loc && '\n' !in last by {
      assert '\n' !in "    ";
    }
    FormatAsPieces(r, p, ids);
    SplitPieces(Header(r, p), loc, ids, last);
  }

  lemma FormatAsPieces(r: SearchResult, p: Palette, ids: seq<string>)
    requires ids == if Truthy(r.noteId) then ["    " + p.dim + "id: " + r.noteId.value + p.reset] else []
    ensures var idPart := if ids == [] then "" else "\n" + ids[0];
      Header(r, p) + Indent + Location(r, p) + Indent + r.snippet + "\n" ==
      Header(r, p) + "\n" + ("    " + r.path + LineInfo(r.lineNumber)) + idPart + "\n" + ("    " + r.snippet) + "\n"
  {
    var idPart := if ids == [] then "" else "\n" + ids[0];
    assert IdInfo(r.noteId, p.dim, p.reset) == idPart;
    IndentedJoin(Header(r, p), r.path + LineInfo(r.lineNumber), idPart, r.snippet);
  }

  lemma IndentedJoin(h: string, loc: string, idPart: string, snippet: string)
    ensures h + Indent + (loc + idPart) + Indent + snippet + "\n" ==
      h + "\n" + ("    " + loc) + idPart + "\n" + ("    " + snippet) + "\n"
  {
    assert Indent == "\n" + "    ";
  }

  /** Newline-free pieces joined as `format_result` joins them split back
      into those pieces. */
  lemma SplitPieces(h: string, loc: string, ids: seq<string>, last: string)
    requires |ids| <= 1
    requires '\n' !in h && '\n' !in loc && '\n' !in last && (ids != [] ==> '\n' !in ids[0])
    ensures var idPart := if ids == [] then "" else "\n" + ids[0];
      Split(h + "\n" + loc + idPart + "\n" + last + "\n", '\n') == [h, loc] + ids + [last, ""]
  {
    var idPart := if ids == [] then "" else "\n" + ids[0];
    var tail := idPart + "\n" + last + "\n";
    assert h + "\n" + loc + idPart + "\n" + last + "\n" == h + "\n" + loc + tail;
    SplitRest(ids, last);
    SplitLead(h, loc, tail, tail[1..]);
  }

  lemma SplitLead(h: string, loc: string, tail: string, rest: string)
    requires '\n' !in h && '\n' !in loc
    requires |tail| > 0 && tail[0] == '\n' && rest == tail[1..]
    ensures Split(h + "\n" + loc + tail, '\n') == [h, loc] + Split(rest, '\n')
  {
    assert tail == ['\n'] + rest;
    assert h + "\n" + loc + tail == h + ['\n'] + (loc + ['\n'] + rest);
    SplitCons(h, '\n', loc + ['\n'] + rest);
    SplitCons(loc, '\n', rest);
  }

  lemma SplitRest(ids: seq<string>, last: string)
    requires |ids| <= 1
    requires '\n' !in last && (ids != [] ==> '\n' !in ids[0])
    ensures var idPart := if ids == [] then "" else "\n" + ids[0];
      Split((idPart + "\n" + last + "\n")[1..], '\n') == ids + [last, ""]
  {
    var idPart := if ids == [] then "" else "\n" + ids[0];
    SplitLast(last);
    if ids != [] {
      assert ("\n" + ids[0] + "\n" + last + "\n")[1..] == ids[0] + ['\n'] + (last + "\n");
      SplitCons(ids[0], '\n', last + "\n");
    } else {
      assert (idPart + "\n" + last + "\n")[1..] == last + "\n";
      assert ids + [last, ""] == [last, ""];
    }
  }

  lemma SplitLast(last: string)
    requires '\n' !in last
    ensures Split(last + "\n", '\n') == [last, ""]
  {
    assert last + "\n" == last + ['\n'] + "";
    SplitCons(last, '\n', "");
    SplitNone("", '\n');
  }

  /** Whatever the colours, the last line printed is the snippet. */
  lemma FormatEndsWithSnippet(r: SearchResult, useColor: bool)
    ensures var out := FormatResult(r, useColor);
      |Indent + r.snippet + "\n"| <= |out| && out[|out| - |Indent + r.snippet + "\n"|..] == Indent + r.snippet + "\n"
  {
    var p := PaletteFor(r.source, useColor);
    assert FormatResult(r, useColor) == (Header(r, p) + Indent + Location(r, p)) + (Indent + r.snippet + "\n");
  }
}
