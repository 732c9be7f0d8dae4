/** The small string rules that turn a note into the fields of a result:
    its title, the shortened title shown in a search hit, the path shown for
    a Spaces note, the kind of a Spaces row and whether a Markdown file lies
    in a special `@` folder. */
module NoteFields {
  import opened Wrappers
  import opened Text
  import opened DeepLink

  // ---------------------------------------------------------------------
  // Title of a Markdown note

  const Hashes: set<char> := {'#'}

  /** The first line of the text, stripped. */
  function FirstLine(content: string): string {
    Strip(TakeUntil(content, '\n'))
  }

  /** The title of a Markdown note: its first line with leading `#` marks
      and surrounding whitespace removed, or the file stem when that first
      line is blank. */
  function NoteTitle(content: string, stem: string): string {
    var line := FirstLine(content);
    if line != "" then Strip(LStrip(line, Hashes)) else stem
  }

  /** A blank first line gives the stem. Otherwise the title is taken from
      the first line, holds no newline, does not start or end with
      whitespace, and is empty exactly when the stripped first line is made
      of `#` marks only (a bare heading marker). */
  lemma NoteTitleFacts(content: string, stem: string)
    ensures FirstLine(content) == "" ==> NoteTitle(content, stem) == stem
    ensures FirstLine(content) != "" ==>
      var t := NoteTitle(content, stem);
      && Contains(TakeUntil(content, '\n'), t)
      && '\n' !in t
      && (t != "" ==> t[0] !in Whitespace && t[|t| - 1] !in Whitespace)
      && (t == "" <==> forall i :: 0 <= i < |FirstLine(content)| ==> FirstLine(content)[i] == '#')
    ensures FirstLine(content) != "" ==>
      var line := FirstLine(content);
      exists k :: 0 <= k <= |line| && (forall i :: 0 <= i < k ==> line[i] == '#') &&
        (k < |line| ==> line[k] != '#') && NoteTitle(content, stem) == Strip(line[k..])
  {
    if FirstLine(content) != "" {
      TitleDropsHashRun(content, stem);
      TitleFromFirstLine(content);
      StripTrimmed(LStrip(FirstLine(content), Hashes));
      StripTrimmed(TakeUntil(content, '\n'));
      TitleEmptyIff(FirstLine(content));
    }
  }

  lemma TitleDropsHashRun(content: string, stem: string)
    requires FirstLine(content) != ""
    ensures var line := FirstLine(content);
      exists k :: 0 <= k <= |line| && (forall i :: 0 <= i < k ==> line[i] == '#') &&
        (k < |line| ==> line[k] != '#') && NoteTitle(content, stem) == Strip(line[k..])
  {
    var line := FirstLine(content);
    HashRunRemoved(line);
    var k := LeadingIn(line, Hashes);
    assert NoteTitle(content, stem) == Strip(line[k..]);
  }

  /** Removing the leading `#` marks drops exactly the longest run of `#`
      at the front of the line. */
  lemma HashRunRemoved(line: string)
    ensures var k := LeadingIn(line, Hashes);
      && (forall i :: 0 <= i < k ==> line[i] == '#')
      && (k < |line| ==> line[k] != '#')
      && LStrip(line, Hashes) == line[k..]
  {
    var k := LeadingIn(line, Hashes);
    forall i | 0 <= i < k ensures line[i] == '#' {
      assert line[i] in Hashes;
    }
  }

  /** The title cut from a non-blank first line lies within that line. */
  lemma TitleFromFirstLine(content: string)
    ensures Contains(TakeUntil(content, '\n'), Strip(LStrip(FirstLine(content), Hashes)))
    ensures '\n' !in Strip(LStrip(FirstLine(content), Hashes))
  {
    var raw := TakeUntil(content, '\n');
    var t := Strip(LStrip(FirstLine(content), Hashes));
    StripInside(raw);
    LStripStripInside(FirstLine(content), Hashes);
    ContainsTrans(raw, FirstLine(content), t);
    ContainedAvoids(raw, t, '\n');
  }

  lemma StripInside(s: string)
    ensures Contains(s, Strip(s))
  {
    ContainsSlice(s, StripStart(s), StripEnd(s));
  }

  lemma LStripStripInside(s: string, cs: set<char>)
    ensures Contains(s, Strip(LStrip(s, cs)))
  {
    var u := LStrip(s, cs);
    ContainsSlice(s, LeadingIn(s, cs), |s|);
    assert s[LeadingIn(s, cs)..|s|] == u;
    StripInside(u);
    ContainsTrans(s, u, Strip(u));
  }

  /** For a stripped, non-blank line, removing the leading `#` marks and
      stripping again leaves nothing exactly when the line is all marks. */
  lemma TitleEmptyIff(line: string)
    requires line != "" && line[|line| - 1] !in Whitespace
    ensures Strip(LStrip(line, Hashes)) == "" <==> forall i :: 0 <= i < |line| ==> line[i] == '#'
  {
    var n := LeadingIn(line, Hashes);
    var u := LStrip(line, Hashes);
    if forall i :: 0 <= i < |line| ==> line[i] == '#' {
      assert n == |line|;
    } else {
      assert n < |line|;
      assert u[|u| - 1] == line[|line| - 1];
      StripFacts(u);
      assert StripStart(u) < |u|;
    }
  }

  // ---------------------------------------------------------------------
  // Title shown in a search hit

  const TitleWidth: nat := 60

  /** `title[:60] + "..." if len(title) > 60 else title`. */
  function ShortTitle(title: string): (r: string)
    ensures |r| <= TitleWidth + 3
    ensures title[..Min(|title|, TitleWidth)] <= r
    ensures |title| <= TitleWidth ==> r == title
    ensures |title| > TitleWidth ==> r == title[..TitleWidth] + "..."
  {
    if |title| > TitleWidth then title[..TitleWidth] + "..." else title
  }

  /** A title is shown unchanged exactly when it fits in 60 characters or is
      already a shortened title (63 characters ending in `...`); shortening
      twice is shortening once. */
  lemma ShortTitleFixpoint(title: string)
    ensures ShortTitle(title) == title <==>
      |title| <= TitleWidth || (|title| == TitleWidth + 3 && title[TitleWidth..] == "...")
    ensures ShortTitle(ShortTitle(title)) == ShortTitle(title)
  {
    if |title| > TitleWidth {
      var r := ShortTitle(title);
      assert r[TitleWidth..] == "...";
      if |title| == TitleWidth + 3 && title[TitleWidth..] == "..." {
        assert title == title[..TitleWidth] + title[TitleWidth..];
      }
    }
  }

  // ---------------------------------------------------------------------
  // Spaces notes

  /** `title or filename or note_id`: the first of title and file name that
      is present and non-empty, else the id. */
  function SpacesTitle(title: Option<string>, filename: Option<string>, id: string): (r: string)
    ensures Truthy(title) ==> r == title.value
    ensures !Truthy(title) && Truthy(filename) ==> r == filename.value
    ensures !Truthy(title) && !Truthy(filename) ==> r == id
    ensures r == "" <==> !Truthy(title) && !Truthy(filename) && id == ""
  {
    Or(Or(title, filename), Some(id)).value
  }

  /** The marker that NotePlan puts in front of cloud-synced paths. */
  const CloudMarker: string := "%%NotePlanCloud%%/"

  /** `note_path.replace('%%NotePlanCloud%%/', '') if note_path else fallback`;
      the fallback is the note id in search hits and "" elsewhere. */
  function CloudPath(notePath: Option<string>, fallback: string): (r: string)
    ensures !Truthy(notePath) ==> r == fallback
    ensures Truthy(notePath) ==> |r| <= |notePath.value|
  {
    if Truthy(notePath) then
      RemoveAllShrinks(notePath.value, CloudMarker);
      ReplaceAll(notePath.value, CloudMarker, "")
    else fallback
  }

  /** Removing every occurrence never lengthens a text. */
  lemma {:induction false} RemoveAllShrinks(s: string, pat: string)
    requires pat != []
    ensures |ReplaceAll(s, pat, "")| <= |s|
    decreases |s|
  {
    if |s| >= |pat| {
      if s[..|pat|] == pat {
        RemoveAllShrinks(s[|pat|..], pat);
      } else {
        RemoveAllShrinks(s[1..], pat);
      }
    }
  }

  /** Replacing leaves a text in which the pattern does not occur unchanged. */
  lemma {:induction false} ReplaceAllAbsent(s: string, pat: string, rep: string)
    requires pat != []
    requires !Contains(s, pat)
    ensures ReplaceAll(s, pat, rep) == s
    decreases |s|
  {
    if |s| >= |pat| {
      assert !OccursAt(s, pat, 0);
      assert s[..|pat|] != pat;
      assert !Contains(s[1..], pat) by {
        if Contains(s[1..], pat) {
          ContainsSlice(s, 1, |s|);
          assert s[1..|s|] == s[1..];
          ContainsTrans(s, s[1..], pat);
        }
      }
      ReplaceAllAbsent(s[1..], pat, rep);
    }
  }

  /** A path without the marker is shown as it is; a path that starts with
      the marker, and holds no other, is shown without it. */
  lemma CloudPathMarker(rest: string, fallback: string)
    requires !Contains(rest, CloudMarker)
    ensures rest != "" ==> CloudPath(Some(rest), fallback) == rest
    ensures CloudPath(Some(CloudMarker + rest), fallback) == rest
  {
    ReplaceAllAbsent(rest, CloudMarker, "");
    var s := CloudMarker + rest;
    assert s[..|CloudMarker|] == CloudMarker;
    assert s[|CloudMarker|..] == rest;
  }

  /** The `note_type` of a Spaces folder. */
  const FolderNoteType: int := 10

  datatype NoteKind = Folder | Note

  /** `"folder" if note_type == 10 else "note"`. */
  function KindOf(noteType: Option<int>): (k: NoteKind)
    ensures k == Folder <==> noteType == Some(FolderNoteType)
  {
    if noteType == Some(FolderNoteType) then Folder else Note
  }

  /** The link in a Spaces listing entry: only a titled row that is not a
      folder gets one, and it opens the note by its title. */
  function ListingUrl(title: Option<string>, noteType: Option<int>): (r: Option<string>)
    ensures r.Some? <==> Truthy(title) && KindOf(noteType) == Note
    ensures r.Some? ==> ReadLink(r.value) == Some(ByTitle(EncodeUtf8(title.value)))
  {
    if Truthy(title) && noteType != Some(FolderNoteType) then
      LinkPrecedence(title, None, None);
      Some(MakeNoteplanUrl(title, None, None))
    else None
  }

  // ---------------------------------------------------------------------
  // Special folders

  /** Some component of the path starts with `@` (templates, trash, archive). */
  predicate InSpecialFolder(parts: seq<string>) {
    exists i :: 0 <= i < |parts| && StartsWithAt(parts[i])
  }

  predicate StartsWithAt(part: string) {
    part != "" && part[0] == '@'
  }

  /** `any(part.startswith('@') for part in parts)`, scanning the parts in
      order. */
  function AnySpecial(parts: seq<string>): bool {
    if parts == [] then false
    else StartsWithAt(parts[0]) || AnySpecial(parts[1..])
  }

  lemma {:induction false} AnySpecialIff(parts: seq<string>)
    ensures AnySpecial(parts) <==> InSpecialFolder(parts)
  {
    if parts != [] {
      AnySpecialIff(parts[1..]);
      if InSpecialFolder(parts) && !StartsWithAt(parts[0]) {
        var i :| 0 <= i < |parts| && StartsWithAt(parts[i]);
        assert parts[1..][i - 1] == parts[i];
      }
      if AnySpecial(parts[1..]) {
        var i :| 0 <= i < |parts[1..]| && StartsWithAt(parts[1..][i]);
        assert parts[i + 1] == parts[1..][i];
      }
    }
  }

  /** Whether a file is skipped for lying in a special folder: never with
      `--all`, and otherwise exactly when some component of its path
      relative to the searched directory starts with `@`. */
  function SkipSpecial(parts: seq<string>, includeSpecial: bool): (r: bool)
    ensures includeSpecial ==> !r
    ensures !includeSpecial ==> (r <==> InSpecialFolder(parts))
  {
    AnySpecialIff(parts);
    !includeSpecial && AnySpecial(parts)
  }
}
