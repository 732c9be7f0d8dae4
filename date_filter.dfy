/** The date filter: parsing the `--after` and `--before` bounds, and testing
    a note's modification timestamp against them. Parsing itself (Python's
    `datetime.fromisoformat` and `datetime.strptime(s, "%Y-%m-%d")`) is
    abstract: each parser is a parameter. */
module DateFilter {
  import opened Wrappers
  import opened Text

  /** A naive `datetime`; Python orders these field by field. */
  datatype DateTime = DateTime(year: int, month: int, day: int,
                               hour: int, minute: int, second: int, microsecond: int)

  function Fields(d: DateTime): seq<int> {
    [d.year, d.month, d.day, d.hour, d.minute, d.second, d.microsecond]
  }

  /** Strict lexicographic order on sequences of equal length. */
  predicate LexLess(xs: seq<int>, ys: seq<int>)
    requires |xs| == |ys|
  {
    |xs| > 0 && (xs[0] < ys[0] || (xs[0] == ys[0] && LexLess(xs[1..], ys[1..])))
  }

  lemma {:induction false} LexLessIrreflexive(xs: seq<int>)
    ensures !LexLess(xs, xs)
  {
    if |xs| > 0 {
      LexLessIrreflexive(xs[1..]);
    }
  }

  lemma {:induction false} LexLessTransitive(xs: seq<int>, ys: seq<int>, zs: seq<int>)
    requires |xs| == |ys| == |zs|
    requires LexLess(xs, ys) && LexLess(ys, zs)
    ensures LexLess(xs, zs)
  {
    if xs[0] == ys[0] == zs[0] {
      LexLessTransitive(xs[1..], ys[1..], zs[1..]);
    }
  }

  lemma {:induction false} LexLessTrichotomy(xs: seq<int>, ys: seq<int>)
    requires |xs| == |ys|
    ensures LexLess(xs, ys) || xs == ys || LexLess(ys, xs)
  {
    if |xs| > 0 && xs[0] == ys[0] {
      LexLessTrichotomy(xs[1..], ys[1..]);
      if xs[1..] == ys[1..] {
        assert xs == [xs[0]] + xs[1..] && ys == [ys[0]] + ys[1..];
      }
    }
  }

  /** `a < b` on datetimes. */
  predicate Less(a: DateTime, b: DateTime) {
    LexLess(Fields(a), Fields(b))
  }

  /** `a <= b` on datetimes. */
  predicate LessEq(a: DateTime, b: DateTime) {
    Less(a, b) || a == b
  }

  lemma FieldsInjective(a: DateTime, b: DateTime)
    requires Fields(a) == Fields(b)
    ensures a == b
  {
    assert Fields(a)[0] == Fields(b)[0] && Fields(a)[6] == Fields(b)[6];
  }

  /** Datetimes are totally ordered: `Less` is a strict total order. */
  lemma LessTotalOrder(a: DateTime, b: DateTime, c: DateTime)
    ensures !Less(a, a)
    ensures Less(a, b) && Less(b, c) ==> Less(a, c)
    ensures Less(a, b) || a == b || Less(b, a)
    ensures !(Less(a, b) && Less(b, a))
  {
    LexLessIrreflexive(Fields(a));
    if Less(a, b) && Less(b, c) {
      LexLessTransitive(Fields(a), Fields(b), Fields(c));
    }
    LexLessTrichotomy(Fields(a), Fields(b));
    if Fields(a) == Fields(b) {
      FieldsInjective(a, b);
    }
    if Less(a, b) && Less(b, a) {
      LexLessTransitive(Fields(a), Fields(b), Fields(a));
    }
  }

  /** `not (t < bound)` is `bound <= t`. */
  lemma NotLessIsLessEq(a: DateTime, b: DateTime)
    ensures !Less(a, b) <==> LessEq(b, a)
  {
    LessTotalOrder(a, b, a);
  }

  /** A parser of timestamps; `None` stands for the `ValueError` it raises. */
  type Parser = string -> Option<DateTime>

  datatype Bounds = Bounds(after: Option<DateTime>, before: Option<DateTime>)

  /** The user-input error of a malformed bound; the tool reports it and
      exits with status 1. */
  datatype DateError = InvalidAfter(value: string) | InvalidBefore(value: string)

  /** `.replace(hour=23, minute=59, second=59)`. */
  function EndOfDay(d: DateTime): DateTime {
    d.(hour := 23, minute := 59, second := 59)
  }

  /** One bound: `fromisoformat` first, then the bare-date format; a bare
      `before` date is moved to 23:59:59 of that day. */
  function ParseBound(s: string, iso: Parser, ymd: Parser, isBefore: bool): Option<DateTime> {
    match iso(s)
    case Some(d) => Some(d)
    case None =>
      match ymd(s)
      case Some(d) => Some(if isBefore then EndOfDay(d) else d)
      case None => None
  }

  /** `parse_date_filters(after, before)`; a failure stands for the error
      message and `sys.exit(1)`. */
  function ParseDateFilters(after: Option<string>, before: Option<string>, iso: Parser, ymd: Parser):
    (r: Result<Bounds, DateError>)
    // an argument that is absent or empty sets no bound
    ensures r.Success? ==> (r.value.after.Some? <==> Truthy(after))
    ensures r.Success? ==> (r.value.before.Some? <==> Truthy(before))
    // the ISO form is tried first, for both bounds
    ensures r.Success? && Truthy(after) && iso(after.value).Some? ==> r.value.after == iso(after.value)
    ensures r.Success? && Truthy(before) && iso(before.value).Some? ==> r.value.before == iso(before.value)
    // the bare-date form is the fallback; only `before` moves to 23:59:59
    ensures r.Success? && Truthy(after) && iso(after.value).None? ==> r.value.after == ymd(after.value)
    ensures r.Success? && Truthy(before) && iso(before.value).None? ==>
      ymd(before.value).Some? && r.value.before == Some(EndOfDay(ymd(before.value).value))
    // a value neither form accepts is fatal; `after` is checked first
    ensures Truthy(after) && iso(after.value).None? && ymd(after.value).None? ==>
      r == Failure(InvalidAfter(after.value))
    ensures r.Failure? ==>
      (r.error.InvalidAfter? && Truthy(after) && r.error.value == after.value &&
       iso(after.value).None? && ymd(after.value).None?) ||
      (r.error.InvalidBefore? && Truthy(before) && r.error.value == before.value &&
       iso(before.value).None? && ymd(before.value).None?)
    ensures Truthy(before) && iso(before.value).None? && ymd(before.value).None? ==> r.Failure?
  {
    var a := if Truthy(after) then ParseBound(after.value, iso, ymd, false) else None;
    var b := if Truthy(before) then ParseBound(before.value, iso, ymd, true) else None;
    if Truthy(after) && a.None? then Failure(InvalidAfter(after.value))
    else if Truthy(before) && b.None? then Failure(InvalidBefore(before.value))
    else Success(Bounds(a, b))
  }

  /** Everything before the first `Z` or `+`. */
  function CutAtOffset(s: string): (r: string)
    ensures r <= s && 'Z' !in r && '+' !in r
    ensures |r| < |s| ==> s[|r|] == 'Z' || s[|r|] == '+'
  {
    if s == [] || s[0] == 'Z' || s[0] == '+' then [] else [s[0]] + CutAtOffset(s[1..])
  }

  /** `modified_at.replace('Z', '+00:00').split('+')[0]`. */
  function TimestampText(s: string): string {
    TakeUntil(ReplaceAll(s, "Z", "+00:00"), '+')
  }

  /** Replacing `Z` by `+00:00` and cutting at the first `+` is cutting at
      the first `Z` or `+`. */
  lemma {:induction false} TimestampTextCuts(s: string)
    ensures TimestampText(s) == CutAtOffset(s)
  {
    if s != [] {
      if s[0] == 'Z' {
        assert s[..1] == "Z";
      } else {
        assert s[..1] != "Z";
        TimestampTextCuts(s[1..]);
      }
    }
  }

  lemma {:induction false} CutAtOffsetWithoutMarker(s: string)
    requires 'Z' !in s && '+' !in s
    ensures CutAtOffset(s) == s
  {
    if s != [] {
      CutAtOffsetWithoutMarker(s[1..]);
    }
  }

  /** `t` lies between the bounds that are given, both inclusive. */
  predicate InRange(t: DateTime, b: Bounds) {
    (b.after.None? || LessEq(b.after.value, t)) && (b.before.None? || LessEq(t, b.before.value))
  }

  /** The source's exclusion tests, `t < after` and `t > before`, fail
      exactly when `t` is in range. */
  lemma InRangeUnlessOutside(t: DateTime, b: Bounds)
    ensures InRange(t, b) <==>
      !(b.after.Some? && Less(t, b.after.value)) && !(b.before.Some? && Less(b.before.value, t))
  {
    if b.after.Some? { NotLessIsLessEq(t, b.after.value); }
    if b.before.Some? { NotLessIsLessEq(b.before.value, t); }
  }

  /** `matches_date_filter(modified_at, after_dt, before_dt)`. */
  function MatchesDateFilter(modifiedAt: Option<string>, b: Bounds, iso: Parser): (r: bool)
    ensures b.after.None? && b.before.None? ==> r
    ensures (b.after.Some? || b.before.Some?) && !Truthy(modifiedAt) ==> !r
    ensures (b.after.Some? || b.before.Some?) && Truthy(modifiedAt) ==>
      (r <==> iso(CutAtOffset(modifiedAt.value)).Some? && InRange(iso(CutAtOffset(modifiedAt.value)).value, b))
  {
    if b.after.None? && b.before.None? then true
    else if !Truthy(modifiedAt) then false
    else
      TimestampTextCuts(modifiedAt.value);
      match iso(TimestampText(modifiedAt.value))
      case None => false
      case Some(t) =>
        InRangeUnlessOutside(t, b);
        if b.after.Some? && Less(t, b.after.value) then false
        else if b.before.Some? && Less(b.before.value, t) then false
        else true
  }

  const Midnight15 := DateTime(2025, 1, 15, 0, 0, 0, 0)
  const TenOClock15 := DateTime(2025, 1, 15, 10, 0, 0, 0)
  const NoteTime := "2025-01-15T10:00:00"

  /** On the same day, an earlier hour is earlier. */
  lemma LessByHour(a: DateTime, b: DateTime)
    requires a.year == b.year && a.month == b.month && a.day == b.day && a.hour < b.hour
    ensures Less(a, b)
  {
    var xs, ys := Fields(a), Fields(b);
    assert LexLess(xs[3..], ys[3..]) by {
      assert xs[3..][0] == a.hour && ys[3..][0] == b.hour;
    }
    assert LexLess(xs[2..], ys[2..]) by {
      assert xs[2..][1..] == xs[3..] && ys[2..][1..] == ys[3..];
    }
    assert LexLess(xs[1..], ys[1..]) by {
      assert xs[1..][1..] == xs[2..] && ys[1..][1..] == ys[2..];
    }
  }

  lemma NoteTimeHasNoOffset()
    ensures CutAtOffset(NoteTime) == NoteTime
  {
    assert forall i :: 0 <= i < |NoteTime| ==> NoteTime[i] != 'Z' && NoteTime[i] != '+';
    CutAtOffsetWithoutMarker(NoteTime);
  }

  /** With only a `before` value, the bounds are that one bound. */
  lemma BeforeOnly(s: string, iso: Parser, ymd: Parser)
    requires s != "" && ParseBound(s, iso, ymd, true).Some?
    ensures ParseDateFilters(None, Some(s), iso, ymd) == Success(Bounds(None, ParseBound(s, iso, ymd, true)))
  {
  }

  /** `fromisoformat` accepts a bare date (in every Python version that
      has it), so `--before 2025-01-15` is midnight at the start of that
      day, and a note modified at 10:00 that day is not included. */
  lemma BareBeforeDateIsMidnight(iso: Parser, ymd: Parser)
    requires iso("2025-01-15") == Some(Midnight15)
    requires iso(NoteTime) == Some(TenOClock15)
    ensures ParseDateFilters(None, Some("2025-01-15"), iso, ymd) == Success(Bounds(None, Some(Midnight15)))
    ensures !MatchesDateFilter(Some(NoteTime), Bounds(None, Some(Midnight15)), iso)
  {
    BeforeOnly("2025-01-15", iso, ymd);
    assert !MatchesDateFilter(Some(NoteTime), Bounds(None, Some(Midnight15)), iso) by {
      NoteTimeHasNoOffset();
      LessByHour(Midnight15, TenOClock15);
      NotLessIsLessEq(Midnight15, TenOClock15);
    }
  }

  /** Only a date that `fromisoformat` refuses but `strptime("%Y-%m-%d")`
      reads, such as the unpadded `2025-1-15`, reaches the fallback, which
      moves it to 23:59:59; the same note is then included. */
  lemma UnpaddedBeforeDateIsEndOfDay(iso: Parser, ymd: Parser)
    requires iso("2025-1-15") == None
    requires ymd("2025-1-15") == Some(Midnight15)
    requires iso(NoteTime) == Some(TenOClock15)
    ensures ParseDateFilters(None, Some("2025-1-15"), iso, ymd) ==
      Success(Bounds(None, Some(EndOfDay(Midnight15))))
    ensures MatchesDateFilter(Some(NoteTime), Bounds(None, Some(EndOfDay(Midnight15))), iso)
  {
    assert ParseBound("2025-1-15", iso, ymd, true) == Some(EndOfDay(Midnight15));
    BeforeOnly("2025-1-15", iso, ymd);
    assert MatchesDateFilter(Some(NoteTime), Bounds(None, Some(EndOfDay(Midnight15))), iso) by {
      NoteTimeHasNoOffset();
      LessByHour(TenOClock15, EndOfDay(Midnight15));
    }
  }
}
