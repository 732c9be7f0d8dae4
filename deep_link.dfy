/** The deep-link builder: `noteplan://x-callback-url/openNote?...` links
    that open a note by calendar date, by file name or by title, with the
    value percent-encoded as `urllib.parse.quote(value, safe='')` does
    (section 2.1 of RFC 3986, keeping only the unreserved characters of
    section 2.3). */
module DeepLink {
  import opened Wrappers
  import opened Text

  type byte = x: int | 0 <= x < 256

  // ---------------------------------------------------------------------
  // UTF-8, as `quote` encodes a `str` before escaping it

  /** The UTF-8 encoding of one Unicode scalar value. */
  function Utf8(c: char): (bs: seq<byte>)
    ensures 1 <= |bs| <= 4
    ensures (c as int < 0x80) == (|bs| == 1)
    ensures c as int < 0x80 ==> bs == [c as int]
    ensures c as int >= 0x80 ==> forall i :: 0 <= i < |bs| ==> bs[i] >= 0x80
  {
    var n := c as int;
    if n < 0x80 then [n]
    else if n < 0x800 then [0xC0 + n / 64, 0x80 + n % 64]
    else if n < 0x10000 then [0xE0 + n / 4096, 0x80 + (n / 64) % 64, 0x80 + n % 64]
    else [0xF0 + n / 262144, 0x80 + (n / 4096) % 64, 0x80 + (n / 64) % 64, 0x80 + n % 64]
  }

  function EncodeUtf8(s: string): seq<byte> {
    if s == [] then [] else Utf8(s[0]) + EncodeUtf8(s[1..])
  }

  // ---------------------------------------------------------------------
  // Percent-encoding

  /** The unreserved characters of RFC 3986 section 2.3, as byte values:
      ASCII letters, digits and `-._~`. */
  predicate IsUnreservedByte(b: byte) {
    (0x41 <= b <= 0x5A) || (0x61 <= b <= 0x7A) || (0x30 <= b <= 0x39) ||
    b == 0x2D || b == 0x2E || b == 0x5F || b == 0x7E
  }

  predicate IsUnreservedChar(c: char) {
    c as int < 0x80 && IsUnreservedByte(c as int)
  }

  /** `quote` writes hexadecimal digits in upper case. */
  const HexDigits: string := "0123456789ABCDEF"

  function PercentTriple(b: byte): string {
    ['%', HexDigits[b / 16], HexDigits[b % 16]]
  }

  function QuoteByte(b: byte): string {
    if IsUnreservedByte(b) then [b as char] else PercentTriple(b)
  }

  function QuoteBytes(bs: seq<byte>): string {
    if bs == [] then "" else QuoteByte(bs[0]) + QuoteBytes(bs[1..])
  }

  /** `quote(s, safe='')`. */
  function Quote(s: string): string {
    QuoteBytes(EncodeUtf8(s))
  }

  /** The value of a hexadecimal digit, in either case. */
  function HexValue(c: char): (r: Option<nat>)
    ensures r.Some? ==> r.value < 16
  {
    if '0' <= c <= '9' then Some(c as int - '0' as int)
    else if 'A' <= c <= 'F' then Some(c as int - 'A' as int + 10)
    else if 'a' <= c <= 'f' then Some(c as int - 'a' as int + 10)
    else None
  }

  /** Percent-decoding of a string made of unreserved characters and `%XX`
      triples; `None` for anything else. */
  function Unquote(s: string): Option<seq<byte>>
    decreases |s|
  {
    if s == [] then Some([])
    else if s[0] == '%' then
      if |s| >= 3 && HexValue(s[1]).Some? && HexValue(s[2]).Some? then
        match Unquote(s[3..])
        case None => None
        case Some(rest) => Some([HexValue(s[1]).value * 16 + HexValue(s[2]).value] + rest)
      else None
    else if IsUnreservedChar(s[0]) then
      match Unquote(s[1..])
      case None => None
      case Some(rest) => Some([s[0] as int] + rest)
    else None
  }

  /** A string that holds only unreserved characters and `%XX` triples
      written with upper-case hexadecimal digits. */
  predicate PercentEncoded(s: string)
    decreases |s|
  {
    s == [] ||
    (IsUnreservedChar(s[0]) && PercentEncoded(s[1..])) ||
    (|s| >= 3 && s[0] == '%' && s[1] in HexDigits && s[2] in HexDigits && PercentEncoded(s[3..]))
  }

  lemma HexDigitValue(n: nat)
    requires n < 16
    ensures HexValue(HexDigits[n]) == Some(n)
  {
  }

  /** Decoding undoes the encoding of one byte followed by anything. */
  lemma UnquoteByte(b: byte, rest: string)
    ensures Unquote(QuoteByte(b) + rest) ==
      match Unquote(rest)
      case None => None
      case Some(r) => Some([b] + r)
  {
    var s := QuoteByte(b) + rest;
    if IsUnreservedByte(b) {
      assert s[0] == b as char && s[1..] == rest;
    } else {
      HexDigitValue(b / 16);
      HexDigitValue(b % 16);
      assert s[0] == '%' && s[3..] == rest;
    }
  }

  /** Percent-decoding the output of `quote` gives back the bytes. */
  lemma {:induction false} UnquoteQuoteBytes(bs: seq<byte>)
    ensures Unquote(QuoteBytes(bs)) == Some(bs)
  {
    if bs != [] {
      UnquoteQuoteBytes(bs[1..]);
      UnquoteByte(bs[0], QuoteBytes(bs[1..]));
      assert [bs[0]] + bs[1..] == bs;
    }
  }

  /** So `quote` loses nothing: decoding it gives the UTF-8 encoding of the
      original string. */
  lemma UnquoteQuote(s: string)
    ensures Unquote(Quote(s)) == Some(EncodeUtf8(s))
  {
    UnquoteQuoteBytes(EncodeUtf8(s));
  }

  /** An unreserved first character followed by a percent-encoded rest. */
  lemma PercentEncodedUnreserved(a: string, b: string)
    requires a != [] && IsUnreservedChar(a[0]) && PercentEncoded(a[1..] + b)
    ensures PercentEncoded(a + b)
  {
    assert (a + b)[1..] == a[1..] + b;
  }

  /** A leading `%XX` triple followed by a percent-encoded rest. */
  lemma PercentEncodedTriple(a: string, b: string)
    requires |a| >= 3 && a[0] == '%' && a[1] in HexDigits && a[2] in HexDigits
    requires PercentEncoded(a[3..] + b)
    ensures PercentEncoded(a + b)
  {
    assert (a + b)[3..] == a[3..] + b;
  }

  lemma {:induction false} PercentEncodedConcat(a: string, b: string)
    requires PercentEncoded(a) && PercentEncoded(b)
    ensures PercentEncoded(a + b)
    decreases |a|
  {
    if a == [] {
      assert a + b == b;
    } else if IsUnreservedChar(a[0]) && PercentEncoded(a[1..]) {
      PercentEncodedConcat(a[1..], b);
      PercentEncodedUnreserved(a, b);
    } else {
      assert |a| >= 3 && a[0] == '%' && a[1] in HexDigits && a[2] in HexDigits && PercentEncoded(a[3..]);
      PercentEncodedConcat(a[3..], b);
      PercentEncodedTriple(a, b);
    }
  }

  /** The output of `quote` holds only unreserved characters and `%XX`
      triples. */
  lemma {:induction false} QuoteBytesIsPercentEncoded(bs: seq<byte>)
    ensures PercentEncoded(QuoteBytes(bs))
  {
    if bs != [] {
      var b := bs[0];
      QuoteBytesIsPercentEncoded(bs[1..]);
      var q := QuoteByte(b);
      if IsUnreservedByte(b) {
        assert PercentEncoded(q) by { assert q[1..] == []; }
      } else {
        assert PercentEncoded(q) by { assert q[3..] == []; }
      }
      PercentEncodedConcat(q, QuoteBytes(bs[1..]));
    }
  }

  /** A percent-encoded string has no reserved or non-ASCII character
      outside its `%XX` triples; in particular it holds no `/` and no
      space. */
  lemma {:induction false} PercentEncodedCharset(s: string)
    requires PercentEncoded(s)
    ensures forall i :: 0 <= i < |s| ==> IsUnreservedChar(s[i]) || s[i] == '%'
    ensures '/' !in s && ' ' !in s
    decreases |s|
  {
    if s != [] {
      if IsUnreservedChar(s[0]) && PercentEncoded(s[1..]) {
        PercentEncodedCharset(s[1..]);
        assert forall i :: 1 <= i < |s| ==> s[i] == s[1..][i - 1];
      } else {
        PercentEncodedCharset(s[3..]);
        assert forall i :: 3 <= i < |s| ==> s[i] == s[3..][i - 3];
        assert s[1] in HexDigits && s[2] in HexDigits;
      }
    }
  }

  /** `quote(s, safe='')` encodes every `/` and every space. */
  lemma QuoteEncodesSlashAndSpace(s: string)
    ensures PercentEncoded(Quote(s))
    ensures '/' !in Quote(s) && ' ' !in Quote(s)
  {
    QuoteBytesIsPercentEncoded(EncodeUtf8(s));
    PercentEncodedCharset(Quote(s));
  }

  /** A string of unreserved ASCII characters is left unchanged. */
  lemma {:induction false} QuoteUnreserved(s: string)
    requires forall i :: 0 <= i < |s| ==> IsUnreservedChar(s[i])
    ensures Quote(s) == s
  {
    if s != [] {
      QuoteUnreserved(s[1..]);
      assert EncodeUtf8(s) == [s[0] as int] + EncodeUtf8(s[1..]);
      assert QuoteBytes(EncodeUtf8(s)) == [s[0]] + QuoteBytes(EncodeUtf8(s[1..])) by {
        assert EncodeUtf8(s)[1..] == EncodeUtf8(s[1..]);
      }
    }
  }

  lemma {:induction false} EncodeUtf8Concat(a: string, b: string)
    ensures EncodeUtf8(a + b) == EncodeUtf8(a) + EncodeUtf8(b)
  {
    if a == [] {
      assert a + b == b;
    } else {
      var ab := a + b;
      assert ab[0] == a[0] && ab[1..] == a[1..] + b;
      EncodeUtf8Concat(a[1..], b);
      assert EncodeUtf8(ab) == Utf8(a[0]) + EncodeUtf8(a[1..] + b);
    }
  }

  lemma {:induction false} QuoteBytesConcat(a: seq<byte>, b: seq<byte>)
    ensures QuoteBytes(a + b) == QuoteBytes(a) + QuoteBytes(b)
  {
    if a == [] {
      assert a + b == b;
    } else {
      var ab := a + b;
      assert ab[0] == a[0] && ab[1..] == a[1..] + b;
      QuoteBytesConcat(a[1..], b);
      assert QuoteBytes(ab) == QuoteByte(a[0]) + QuoteBytes(a[1..] + b);
    }
  }

  /** `quote` works piece by piece. */
  lemma QuoteConcat(a: string, b: string)
    ensures Quote(a + b) == Quote(a) + Quote(b)
  {
    EncodeUtf8Concat(a, b);
    QuoteBytesConcat(EncodeUtf8(a), EncodeUtf8(b));
  }

  /** The slash and the space, as `quote` writes them. */
  lemma QuoteSlashAndSpace()
    ensures Quote("/") == "%2F" && Quote(" ") == "%20"
  {
    assert EncodeUtf8("/") == [0x2F];
    assert EncodeUtf8(" ") == [0x20];
  }

  // ---------------------------------------------------------------------
  // File names

  /** `Path(p).name`: the part after the last `/`. */
  function BaseName(p: string): string {
    p[LastIndexOf(p, '/') + 1..]
  }

  /** `Path(name).stem`: the name without its last suffix; a leading dot or a
      trailing dot does not start a suffix. */
  function Stem(name: string): (r: string)
    ensures r <= name
  {
    var i := LastIndexOf(name, '.');
    if 0 < i < |name| - 1 then name[..i] else name
  }

  /** `Path(name).suffix`: the last suffix, dot included, or "". */
  function Suffix(name: string): (r: string)
    ensures Stem(name) + r == name
  {
    var i := LastIndexOf(name, '.');
    if 0 < i < |name| - 1 then name[i..] else ""
  }

  predicate IsAsciiDigit(c: char) {
    '0' <= c <= '9'
  }

  /** `re.match(r'^\d{8}$', stem)`: eight digits, and (because `$` also
      matches before a final newline) optionally one trailing newline. */
  predicate IsCalendarStem(stem: string) {
    (|stem| == 8 || (|stem| == 9 && stem[8] == '\n')) &&
    forall i :: 0 <= i < 8 ==> IsAsciiDigit(stem[i])
  }

  // ---------------------------------------------------------------------
  // The link

  const OpenNote: string := "noteplan://x-callback-url/openNote?"
  const DatePrefix: string := OpenNote + "noteDate="
  const FilePrefix: string := OpenNote + "filename="
  const TitlePrefix: string := OpenNote + "noteTitle="

  /** The stem of a calendar note's file name, if it is one. */
  function CalendarDate(filename: Option<string>): Option<string> {
    if Truthy(filename) && IsCalendarStem(Stem(BaseName(filename.value)))
    then Some(Stem(BaseName(filename.value)))
    else None
  }

  /** `make_noteplan_url(title, filename, relative_path)`. */
  function MakeNoteplanUrl(title: Option<string>, filename: Option<string>, relPath: Option<string>): string {
    if CalendarDate(filename).Some? then DatePrefix + CalendarDate(filename).value
    else if Truthy(relPath) then FilePrefix + Quote(relPath.value)
    else if Truthy(filename) then FilePrefix + Quote(filename.value)
    else if Truthy(title) then TitlePrefix + Quote(title.value)
    else ""
  }

  /** What a link asks NotePlan to open. */
  datatype Target = ByDate(date: string) | ByFilename(name: seq<byte>) | ByTitle(title: seq<byte>)

  /** Reads a link back: the kind of target and its decoded value. */
  function ReadLink(url: string): Option<Target> {
    if DatePrefix <= url then Some(ByDate(url[|DatePrefix|..]))
    else if FilePrefix <= url then
      match Unquote(url[|FilePrefix|..])
      case None => None
      case Some(v) => Some(ByFilename(v))
    else if TitlePrefix <= url then
      match Unquote(url[|TitlePrefix|..])
      case None => None
      case Some(v) => Some(ByTitle(v))
    else None
  }

  lemma PrefixOf(p: string, x: string)
    ensures p <= p + x && (p + x)[|p|..] == x
  {
  }

  /** The precedence of `make_noteplan_url`, read back from the link it
      builds: a calendar file name wins over everything, then a relative
      path, then the file name, then the title; with none of them the link
      is empty. Each encoded value decodes to the UTF-8 bytes of the input. */
  lemma LinkPrecedence(title: Option<string>, filename: Option<string>, relPath: Option<string>)
    ensures var url := MakeNoteplanUrl(title, filename, relPath);
      && (CalendarDate(filename).Some? ==>
          ReadLink(url) == Some(ByDate(CalendarDate(filename).value)))
      && (CalendarDate(filename).None? && Truthy(relPath) ==>
          ReadLink(url) == Some(ByFilename(EncodeUtf8(relPath.value))))
      && (CalendarDate(filename).None? && !Truthy(relPath) && Truthy(filename) ==>
          ReadLink(url) == Some(ByFilename(EncodeUtf8(filename.value))))
      && (!Truthy(relPath) && !Truthy(filename) && Truthy(title) ==>
          ReadLink(url) == Some(ByTitle(EncodeUtf8(title.value))))
      && (url == "" <==> !Truthy(title) && !Truthy(filename) && !Truthy(relPath))
  {
    var url := MakeNoteplanUrl(title, filename, relPath);
    if CalendarDate(filename).Some? {
      PrefixOf(DatePrefix, CalendarDate(filename).value);
    } else if Truthy(relPath) {
      PrefixOf(FilePrefix, Quote(relPath.value));
      UnquoteQuote(relPath.value);
      assert !(DatePrefix <= url) by { assert DatePrefix[|OpenNote|] != url[|OpenNote|]; }
    } else if Truthy(filename) {
      PrefixOf(FilePrefix, Quote(filename.value));
      UnquoteQuote(filename.value);
      assert !(DatePrefix <= url) by { assert DatePrefix[|OpenNote|] != url[|OpenNote|]; }
    } else if Truthy(title) {
      PrefixOf(TitlePrefix, Quote(title.value));
      UnquoteQuote(title.value);
      assert !(DatePrefix <= url) by { assert DatePrefix[|OpenNote| + 4] != url[|OpenNote| + 4]; }
      assert !(FilePrefix <= url) by { assert FilePrefix[|OpenNote|] != url[|OpenNote|]; }
    }
  }

  /** A calendar note's link names its date, whatever title and relative
      path are also given. */
  lemma CalendarLinkIgnoresOthers(title: Option<string>, filename: Option<string>, relPath: Option<string>)
    requires Truthy(filename) && IsCalendarStem(Stem(BaseName(filename.value)))
    ensures MakeNoteplanUrl(title, filename, relPath) == DatePrefix + Stem(BaseName(filename.value))
    ensures MakeNoteplanUrl(title, filename, relPath) == MakeNoteplanUrl(None, filename, None)
  {
  }
}
