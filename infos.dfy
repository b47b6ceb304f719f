/**
 * The naming codec of lib/infos.js: a name template holding one `[DATE]` token becomes a
 * concrete backup name and a matching pattern; a file name or object key is decoded back into
 * a backup record; path and key-prefix segments are joined with single `/` separators; and
 * record lists are sorted youngest first.
 */
module Infos {
  import opened Wrappers
  import opened Dates

  /** The three retention tiers, with the literal folder / prefix segment of each. */
  datatype Generation = Daily | Weekly | Monthly {
    function Name(): string {
      match this
      case Daily => "daily"
      case Weekly => "weekly"
      case Monthly => "monthly"
    }
  }

  /** One value per generation: folder paths, key prefixes, retention counts. */
  datatype ByGeneration<T> = ByGeneration(daily: T, weekly: T, monthly: T) {
    function Get(g: Generation): T {
      match g
      case Daily => daily
      case Weekly => weekly
      case Monthly => monthly
    }
  }

  /**
   * A backup record. For a local file `location` is its full path and `container` its folder;
   * for a remote object `location` is its key and `container` its generation prefix.
   */
  datatype Info = Info(name: string, location: string, container: string, date: CalendarDate, generation: Generation) {
    /** The comparable instant of the record's date (the source's `stamp`). */
    function Stamp(): int {
      DayNumber(date)
    }
  }

  // ---------------------------------------------------------------------------------------
  // Digits

  predicate IsDigit(c: char) {
    '0' <= c <= '9'
  }

  predicate IsDigitString(s: string) {
    forall i :: 0 <= i < |s| ==> IsDigit(s[i])
  }

  function Pow10(n: nat): (p: nat)
    ensures p >= 1
  {
    if n == 0 then 1 else 10 * Pow10(n - 1)
  }

  /** The decimal value of a digit string (the source's `parseInt` on a captured group). */
  function DigitsValue(s: string): (v: nat)
    requires IsDigitString(s)
    ensures v < Pow10(|s|)
  {
    if s == [] then 0
    else DigitsValue(s[..|s| - 1]) * 10 + ((s[|s| - 1] as int) - ('0' as int))
  }

  function DigitChar(n: nat): (c: char)
    requires n < 10
    ensures IsDigit(c) && (c as int) - ('0' as int) == n
  {
    (('0' as int) + n) as char
  }

  /** The last `width` decimal digits of `n`, zero-padded. */
  function PadDigits(n: nat, width: nat): (s: string)
    ensures |s| == width && IsDigitString(s)
  {
    if width == 0 then [] else PadDigits(n / 10, width - 1) + [DigitChar(n % 10)]
  }

  /** Reading back a zero-padded number that fits its width gives the number. */
  lemma {:induction false} PadDigitsValue(n: nat, width: nat)
    requires n < Pow10(width)
    ensures DigitsValue(PadDigits(n, width)) == n
  {
    if width > 0 {
      var s := PadDigits(n, width);
      assert s[..|s| - 1] == PadDigits(n / 10, width - 1);
      PadDigitsValue(n / 10, width - 1);
    }
  }

  /** The last decimal digit of `x * 10 + d` is `d` and the rest is `x`. */
  lemma LastDigit(x: nat, d: nat)
    requires d < 10
    ensures (x * 10 + d) / 10 == x && (x * 10 + d) % 10 == d
  {
  }

  /** Padding the value of a digit string to its own width gives the string back. */
  lemma {:induction false} DigitsValuePad(s: string)
    requires IsDigitString(s)
    ensures PadDigits(DigitsValue(s), |s|) == s
  {
    if s != [] {
      var init := s[..|s| - 1];
      DigitsValuePad(init);
      var x := DigitsValue(init);
      var d := (s[|s| - 1] as int) - ('0' as int);
      assert DigitsValue(s) == x * 10 + d;
      LastDigit(x, d);
      assert PadDigits(x * 10 + d, |s|) == PadDigits(x, |init|) + [DigitChar(d)];
      assert DigitChar(d) == s[|s| - 1];
      assert s == init + [s[|s| - 1]];
    }
  }

  // ---------------------------------------------------------------------------------------
  // Dates in names

  /** The zero-padded calendar `YYYYMMDD` string of a date. */
  function DateDigits(d: CalendarDate): (s: string)
    ensures |s| == 8 && IsDigitString(s)
  {
    PadDigits(d.year, 4) + PadDigits(d.month, 2) + PadDigits(d.day, 2)
  }

  /** The date the three captured groups (4, 2 and 2 digits) spell, valid or not. */
  function DigitsDate(s: string): Date
    requires |s| == 8 && IsDigitString(s)
  {
    Date(DigitsValue(s[..4]), DigitsValue(s[4..6]), DigitsValue(s[6..]))
  }

  /** Encoding a date as digits and reading the digits back gives the date. */
  lemma DateDigitsRoundTrip(d: CalendarDate)
    ensures DigitsDate(DateDigits(d)) == d
  {
    var s := DateDigits(d);
    assert s[..4] == PadDigits(d.year, 4);
    assert s[4..6] == PadDigits(d.month, 2);
    assert s[6..] == PadDigits(d.day, 2);
    assert Pow10(2) == 100 && Pow10(4) == 10000;
    PadDigitsValue(d.year, 4);
    PadDigitsValue(d.month, 2);
    PadDigitsValue(d.day, 2);
  }

  /** A date whose fields are the values of three digit strings of widths 4, 2 and 2 is written as those strings. */
  lemma DateDigitsOfPieces(d: CalendarDate, y: string, m: string, dd: string)
    requires IsDigitString(y) && IsDigitString(m) && IsDigitString(dd)
    requires |y| == 4 && |m| == 2 && |dd| == 2
    requires d.year == DigitsValue(y) && d.month == DigitsValue(m) && d.day == DigitsValue(dd)
    ensures DateDigits(d) == y + m + dd
  {
    DigitsValuePad(y);
    DigitsValuePad(m);
    DigitsValuePad(dd);
  }

  /** Eight digits that spell a valid date are that date's canonical digits. */
  lemma DigitsDateCanonical(s: string)
    requires |s| == 8 && IsDigitString(s) && IsValidDate(DigitsDate(s))
    ensures DateDigits(DigitsDate(s)) == s
  {
    DateDigitsOfPieces(DigitsDate(s), s[..4], s[4..6], s[6..]);
    assert s == s[..4] + s[4..6] + s[6..];
  }

  // ---------------------------------------------------------------------------------------
  // String search and replacement (JavaScript's `String.prototype.replace` with a string pattern)

  predicate OccursAt(s: string, pat: string, i: int) {
    0 <= i && i + |pat| <= |s| && s[i..i + |pat|] == pat
  }

  /** The index of the first occurrence of `pat` in `s` at or after `from`. */
  function FindFrom(s: string, pat: string, from: nat): (r: Option<nat>)
    ensures r.Some? ==> from <= r.value && OccursAt(s, pat, r.value)
    ensures r.Some? ==> forall j :: from <= j < r.value ==> !OccursAt(s, pat, j)
    ensures r.None? ==> forall j :: from <= j ==> !OccursAt(s, pat, j)
    decreases |s| - from
  {
    if from + |pat| > |s| then None
    else if s[from..from + |pat|] == pat then Some(from)
    else FindFrom(s, pat, from + 1)
  }

  function Find(s: string, pat: string): (r: Option<nat>)
    ensures r.Some? ==> OccursAt(s, pat, r.value) && forall j :: 0 <= j < r.value ==> !OccursAt(s, pat, j)
    ensures r.None? ==> forall j :: !OccursAt(s, pat, j)
  {
    FindFrom(s, pat, 0)
  }

  /** `s` with the first occurrence of `pat` replaced by `rep`; `s` itself when there is none. */
  function ReplaceFirst(s: string, pat: string, rep: string): string
  {
    match Find(s, pat)
    case Some(i) => s[..i] + rep + s[i + |pat|..]
    case None => s
  }

  /** A prefix that starts with `pat` has its first occurrence at index 0. */
  lemma FindAtStart(s: string, pat: string)
    requires |pat| <= |s| && s[..|pat|] == pat
    ensures Find(s, pat) == Some(0)
  {
    assert OccursAt(s, pat, 0);
  }

  /** No occurrence of `pat` in `a + b` starts inside `a` when `a` ends with a separator `pat` lacks. */
  lemma NoOccurrenceAcross(a: string, b: string, pat: string, sep: char, j: int)
    requires |a| > 0 && a[|a| - 1] == sep && sep !in pat
    requires !OccursAt(a, pat, j) && 0 <= j < |a|
    ensures !OccursAt(a + b, pat, j)
  {
    var s := a + b;
    if j + |pat| <= |a| {
      assert s[j..j + |pat|] == a[j..j + |pat|];
    } else if j + |pat| <= |s| {
      assert s[j..j + |pat|][|a| - 1 - j] == sep;
      assert sep in s[j..j + |pat|];
    }
  }

  /** Occurrences in `b` are the occurrences in `a + b` shifted by `|a|`. */
  lemma OccurrenceShift(a: string, b: string, pat: string, j: nat)
    ensures OccursAt(a + b, pat, |a| + j) <==> OccursAt(b, pat, j)
  {
    if |a| + j + |pat| <= |a + b| {
      assert (a + b)[|a| + j..|a| + j + |pat|] == b[j..j + |pat|];
    }
  }

  /**
   * When `a` ends with a character that `pat` does not contain and `pat` does not occur in `a`,
   * the first occurrence of `pat` in `a + b` is the first occurrence in `b`, shifted.
   */
  lemma FindAfterSeparator(a: string, b: string, pat: string, sep: char)
    requires |a| > 0 && a[|a| - 1] == sep && sep !in pat && |pat| > 0
    requires Find(a, pat).None?
    ensures Find(a + b, pat) == (match Find(b, pat) case Some(i) => Some(|a| + i) case None => None)
  {
    var s := a + b;
    forall j | 0 <= j < |a| ensures !OccursAt(s, pat, j) {
      NoOccurrenceAcross(a, b, pat, sep, j);
    }
    forall j: nat ensures OccursAt(s, pat, |a| + j) <==> OccursAt(b, pat, j) {
      OccurrenceShift(a, b, pat, j);
    }
    match Find(b, pat)
    case Some(i) =>
      assert OccursAt(s, pat, |a| + i);
      var r := Find(s, pat).value;
      assert OccursAt(b, pat, r - |a|);
    case None =>
      forall j ensures !OccursAt(s, pat, j) {
        if j >= |a| {
          assert !OccursAt(b, pat, j - |a|);
        }
      }
  }

  /** Slicing `a + b` around a range of `b`. */
  lemma SliceAround(a: string, b: string, i: nat, n: nat)
    requires i + n <= |b|
    ensures (a + b)[..|a| + i] == a + b[..i]
    ensures (a + b)[|a| + i + n..] == b[i + n..]
  {
  }

  /** Replacing at a known first occurrence. */
  lemma ReplaceFirstAt(s: string, pat: string, rep: string, i: nat)
    requires Find(s, pat) == Some(i)
    ensures i + |pat| <= |s| && ReplaceFirst(s, pat, rep) == s[..i] + rep + s[i + |pat|..]
  {
  }

  /** Cutting `a + b` around a range of `b` and splicing `rep` in is splicing it into `b`. */
  lemma SpliceShifted(a: string, b: string, rep: string, i: nat, n: nat)
    requires i + n <= |b|
    ensures (a + b)[..|a| + i] + rep + (a + b)[|a| + i + n..] == a + (b[..i] + rep + b[i + n..])
  {
    SliceAround(a, b, i, n);
  }

  /** Replacing at an occurrence found at the same place in `b` and, shifted, in `a + b`. */
  lemma ReplaceShifted(a: string, b: string, pat: string, rep: string, i: nat)
    requires Find(b, pat) == Some(i) && Find(a + b, pat) == Some(|a| + i)
    ensures ReplaceFirst(a + b, pat, rep) == a + ReplaceFirst(b, pat, rep)
  {
    ReplaceFirstAt(a + b, pat, rep, |a| + i);
    ReplaceFirstAt(b, pat, rep, i);
    SpliceShifted(a, b, rep, i, |pat|);
  }

  lemma ReplaceAfterSeparator(a: string, b: string, pat: string, rep: string, sep: char)
    requires |a| > 0 && a[|a| - 1] == sep && sep !in pat && |pat| > 0
    requires Find(a, pat).None?
    ensures ReplaceFirst(a + b, pat, rep) == a + ReplaceFirst(b, pat, rep)
  {
    FindAfterSeparator(a, b, pat, sep);
    match Find(b, pat)
    case Some(i) =>
      ReplaceShifted(a, b, pat, rep, i);
    case None =>
      assert ReplaceFirst(a + b, pat, rep) == a + b;
  }

  /** The first occurrence in `s` is also the first occurrence in any extension of `s`. */
  lemma FindExtended(s: string, t: string, pat: string)
    requires Find(s, pat).Some?
    ensures Find(s + t, pat) == Find(s, pat)
  {
    var i := Find(s, pat).value;
    assert (s + t)[i..i + |pat|] == s[i..i + |pat|];
    assert OccursAt(s + t, pat, i);
    var r := Find(s + t, pat);
    if r.value < i {
      assert (s + t)[r.value..r.value + |pat|] == s[r.value..r.value + |pat|];
      assert OccursAt(s, pat, r.value);
    }
  }

  // ---------------------------------------------------------------------------------------
  // Templates and patterns

  const DateToken: string := "[DATE]"

  /**
   * The anchored pattern built from a template: the text before and after the first `[DATE]`
   * must match literally and the token itself matches exactly eight digits, captured as
   * YYYY, MM and DD. A template without the token matches only itself and captures nothing.
   */
  datatype Pattern = Templated(before: string, after: string) | Literal(text: string)

  function NameFormatToRegex(nameFormat: string): (p: Pattern)
    ensures p.Templated? <==> Find(nameFormat, DateToken).Some?
    ensures p.Templated? ==> nameFormat == p.before + DateToken + p.after && Find(p.before, DateToken).None?
    ensures p.Literal? ==> p.text == nameFormat
  {
    match Find(nameFormat, DateToken)
    case Some(i) =>
      var p := Templated(nameFormat[..i], nameFormat[i + 6..]);
      assert nameFormat == p.before + DateToken + p.after;
      assert forall j :: OccursAt(p.before, DateToken, j) ==> OccursAt(nameFormat, DateToken, j) by {
        forall j | OccursAt(p.before, DateToken, j) ensures OccursAt(nameFormat, DateToken, j) {
          assert nameFormat[j..j + 6] == p.before[j..j + 6];
        }
      }
      p
    case None => Literal(nameFormat)
  }

  /** The whole of `name` matches the pattern: no partial matches. */
  predicate Matches(p: Pattern, name: string) {
    match p
    case Templated(before, after) =>
      |name| == |before| + 8 + |after|
      && name[..|before|] == before
      && IsDigitString(name[|before|..|before| + 8])
      && name[|before| + 8..] == after
    case Literal(text) => name == text
  }

  /** The eight captured digits of a templated match. */
  function Captured(p: Pattern, name: string): (ds: string)
    requires p.Templated? && Matches(p, name)
    ensures |ds| == 8 && IsDigitString(ds)
    ensures name == p.before + ds + p.after
  {
    var ds := name[|p.before|..|p.before| + 8];
    assert name == name[..|p.before|] + ds + name[|p.before| + 8..];
    ds
  }

  /**
   * The concrete name for a date: the first `[DATE]` replaced by the zero-padded calendar
   * `YYYYMMDD` of the date, every other character of the template unchanged.
   */
  function NameFormatToFileName(nameFormat: string, date: CalendarDate): (name: string)
    ensures Find(nameFormat, DateToken).None? ==> name == nameFormat
    ensures Find(nameFormat, DateToken).Some? ==>
      var i := Find(nameFormat, DateToken).value;
      && |name| == |nameFormat| + 2
      && (forall k :: 0 <= k < i ==> name[k] == nameFormat[k])
      && name[i..i + 8] == DateDigits(date)
      && (forall k :: i + 8 <= k < |name| ==> name[k] == nameFormat[k - 2])
  {
    ReplaceFirst(nameFormat, DateToken, DateDigits(date))
  }

  /**
   * A name matches the pattern of a template that holds the token exactly when it is the
   * template with its first token replaced by eight digits.
   */
  lemma MatchesIffTemplated(nameFormat: string, name: string)
    requires Find(nameFormat, DateToken).Some?
    ensures Matches(NameFormatToRegex(nameFormat), name) <==>
      exists ds :: |ds| == 8 && IsDigitString(ds) && name == ReplaceFirst(nameFormat, DateToken, ds)
  {
    var p := NameFormatToRegex(nameFormat);
    var i := Find(nameFormat, DateToken).value;
    assert p.before == nameFormat[..i] && p.after == nameFormat[i + 6..];
    if Matches(p, name) {
      var ds := Captured(p, name);
      assert name == ReplaceFirst(nameFormat, DateToken, ds);
    }
    if exists ds :: |ds| == 8 && IsDigitString(ds) && name == ReplaceFirst(nameFormat, DateToken, ds) {
      var ds :| |ds| == 8 && IsDigitString(ds) && name == ReplaceFirst(nameFormat, DateToken, ds);
      assert name == p.before + ds + p.after;
      assert name[..|p.before|] == p.before;
      assert name[|p.before|..|p.before| + 8] == ds;
      assert name[|p.before| + 8..] == p.after;
    }
  }

  /** Every generated name matches its template's pattern and captures the date's digits. */
  lemma GeneratedNameMatches(nameFormat: string, date: CalendarDate)
    requires Find(nameFormat, DateToken).Some?
    ensures var p := NameFormatToRegex(nameFormat); var name := NameFormatToFileName(nameFormat, date);
      Matches(p, name) && Captured(p, name) == DateDigits(date)
  {
    var p := NameFormatToRegex(nameFormat);
    var name := NameFormatToFileName(nameFormat, date);
    var ds := DateDigits(date);
    assert name == p.before + ds + p.after;
    assert name[..|p.before|] == p.before;
    assert name[|p.before|..|p.before| + 8] == ds;
    assert name[|p.before| + 8..] == p.after;
  }

  /** `addExtension`: the name and the extension joined by a dot. */
  function AddExtension(name: string, extension: string): (r: string)
    ensures |r| == |name| + 1 + |extension| && r[|name|] == '.'
    ensures r[..|name|] == name && r[|name| + 1..] == extension
  {
    name + "." + extension
  }

  /** Adding an extension to a template and then naming equals naming and then extending. */
  lemma AddExtensionCommutes(nameFormat: string, extension: string, date: CalendarDate)
    requires Find(nameFormat, DateToken).Some?
    ensures NameFormatToFileName(AddExtension(nameFormat, extension), date)
         == AddExtension(NameFormatToFileName(nameFormat, date), extension)
  {
    FindExtended(nameFormat, "." + extension, DateToken);
    assert AddExtension(nameFormat, extension) == nameFormat + ("." + extension);
    var i := Find(nameFormat, DateToken).value;
    var ext := "." + extension;
    assert (nameFormat + ext)[..i] == nameFormat[..i];
    assert (nameFormat + ext)[i + 6..] == nameFormat[i + 6..] + ext;
  }

  // ---------------------------------------------------------------------------------------
  // Paths and key prefixes

  function DropTrailingSlash(s: string): (r: string)
    ensures s == r || s == r + "/"
    ensures |s| > 0 && s[|s| - 1] == '/' ==> s == r + "/"
  {
    if |s| > 0 && s[|s| - 1] == '/' then s[..|s| - 1] else s
  }

  function DropLeadingSlash(s: string): (r: string)
    ensures s == r || s == "/" + r
    ensures |s| > 0 && s[0] == '/' ==> s == "/" + r
  {
    if |s| > 0 && s[0] == '/' then s[1..] else s
  }

  /** Element `i` of a list being joined: no leading `/` unless first, no trailing `/` unless last. */
  function Segment(xs: seq<string>, i: nat): string
    requires i < |xs|
  {
    var x := if i != 0 then DropLeadingSlash(xs[i]) else xs[i];
    if i != |xs| - 1 then DropTrailingSlash(x) else x
  }

  function Segments(xs: seq<string>): (r: seq<string>)
    ensures |r| == |xs| && forall i :: 0 <= i < |xs| ==> r[i] == Segment(xs, i)
  {
    seq(|xs|, i requires 0 <= i < |xs| => Segment(xs, i))
  }

  function Join(parts: seq<string>, sep: string): string
  {
    if |parts| == 0 then ""
    else if |parts| == 1 then parts[0]
    else parts[0] + sep + Join(parts[1..], sep)
  }

  /** `joinPrefix`: segments joined by `/`, with one separator slash trimmed at each boundary. */
  function JoinPrefix(xs: seq<string>): (r: string)
    ensures |xs| == 1 ==> r == xs[0]
  {
    if |xs| == 1 then xs[0]
    else Join(Segments(xs), "/")
  }

  /** Two segments: one trailing `/` dropped from the first, one leading `/` from the second. */
  lemma JoinPrefixPair(a: string, b: string)
    ensures JoinPrefix([a, b]) == DropTrailingSlash(a) + "/" + DropLeadingSlash(b)
  {
    var segs := Segments([a, b]);
    assert segs == [DropTrailingSlash(a), DropLeadingSlash(b)];
    assert segs[1..] == [DropLeadingSlash(b)];
    assert Join(segs[1..], "/") == DropLeadingSlash(b);
  }

  /** Three segments: the middle one loses one slash at each end. */
  lemma JoinPrefixTriple(a: string, b: string, c: string)
    ensures JoinPrefix([a, b, c]) == DropTrailingSlash(a) + "/" + DropTrailingSlash(DropLeadingSlash(b)) + "/" + DropLeadingSlash(c)
  {
    var segs := Segments([a, b, c]);
    assert segs == [DropTrailingSlash(a), DropTrailingSlash(DropLeadingSlash(b)), DropLeadingSlash(c)];
    assert segs[1..] == [DropTrailingSlash(DropLeadingSlash(b)), DropLeadingSlash(c)];
    assert segs[1..][1..] == [DropLeadingSlash(c)];
    assert Join(segs[1..][1..], "/") == DropLeadingSlash(c);
    assert Join(segs[1..], "/") == DropTrailingSlash(DropLeadingSlash(b)) + "/" + DropLeadingSlash(c);
  }

  /** Node's `path.join` for two already-normalised parts. */
  function PathJoin(a: string, b: string): (r: string)
    ensures a != "" && b != "" ==> r == JoinPrefix([a, b])
    ensures a == "" ==> r == b
  {
    JoinPrefixPair(a, b);
    if a == "" then b else if b == "" then a else DropTrailingSlash(a) + "/" + DropLeadingSlash(b)
  }

  predicate HasNoSlash(s: string) {
    '/' !in s
  }

  /** The index of the last `/` in `s`. */
  function LastSlash(s: string): (r: Option<nat>)
    ensures r.Some? ==> r.value < |s| && s[r.value] == '/' && HasNoSlash(s[r.value + 1..])
    ensures r.None? ==> HasNoSlash(s)
  {
    if s == [] then None
    else if s[|s| - 1] == '/' then Some(|s| - 1)
    else
      var r := LastSlash(s[..|s| - 1]);
      assert s == s[..|s| - 1] + [s[|s| - 1]];
      match r
      case Some(i) =>
        assert s[i + 1..] == s[..|s| - 1][i + 1..] + [s[|s| - 1]];
        r
      case None => None
  }

  /** Node's `path.dirname` for a path without a trailing `/`. */
  function Dirname(s: string): string
  {
    match LastSlash(s)
    case None => "."
    case Some(i) => if i == 0 then "/" else s[..i]
  }

  /** Node's `path.basename` for a path without a trailing `/`. */
  function Basename(s: string): string
  {
    match LastSlash(s)
    case None => s
    case Some(i) => s[i + 1..]
  }

  /** The last `/` of `s + "/" + t`, when `t` has none, is the one between them. */
  lemma {:induction false} LastSlashBeforePlain(s: string, t: string)
    requires HasNoSlash(t)
    ensures LastSlash(s + "/" + t) == Some(|s|)
    decreases |t|
  {
    var p := s + "/" + t;
    if t != [] {
      var t' := t[..|t| - 1];
      assert t[|t| - 1] in t;
      assert p[..|p| - 1] == s + "/" + t';
      assert HasNoSlash(t') by {
        forall c | c in t' ensures c in t {
          var k :| 0 <= k < |t'| && t'[k] == c;
          assert t[k] == c;
        }
      }
      LastSlashBeforePlain(s, t');
    }
  }

  /** A folder joined with a plain name splits back into the (normalised) folder and the name. */
  lemma PathJoinSplits(folder: string, name: string)
    requires DropTrailingSlash(folder) != "" && name != "" && HasNoSlash(name)
    ensures Basename(PathJoin(folder, name)) == name
    ensures Dirname(PathJoin(folder, name)) == DropTrailingSlash(folder)
  {
    var f := DropTrailingSlash(folder);
    assert DropLeadingSlash(name) == name;
    assert PathJoin(folder, name) == f + "/" + name;
    SplitsAtLastSlash(f, name);
  }

  lemma SplitsAtLastSlash(f: string, name: string)
    requires f != "" && HasNoSlash(name)
    ensures Basename(f + "/" + name) == name && Dirname(f + "/" + name) == f
  {
    var p := f + "/" + name;
    LastSlashBeforePlain(f, name);
    assert p[|f| + 1..] == name;
    assert p[..|f|] == f;
  }

  /** `backupSubFolderPathsFromDest`: the `daily`, `weekly` and `monthly` folders of a destination. */
  function BackupSubFolderPathsFromDest(backupDest: string): (r: ByGeneration<string>)
    ensures forall g :: r.Get(g) == PathJoin(backupDest, g.Name())
  {
    ByGeneration(PathJoin(backupDest, "daily"), PathJoin(backupDest, "weekly"), PathJoin(backupDest, "monthly"))
  }

  /** `frequencyPrefixesFromPrefix`: the key prefix of each generation under a user prefix. */
  function FrequencyPrefixesFromPrefix(prefix: string): (r: ByGeneration<string>)
    ensures forall g :: r.Get(g) == JoinPrefix([prefix, g.Name()])
  {
    ByGeneration(JoinPrefix([prefix, "daily"]), JoinPrefix([prefix, "weekly"]), JoinPrefix([prefix, "monthly"]))
  }

  /** Each generation folder and prefix ends in the generation's literal segment. */
  lemma GenerationPathsShape(dest: string, prefix: string, g: Generation)
    requires DropTrailingSlash(dest) != ""
    ensures BackupSubFolderPathsFromDest(dest).Get(g) == DropTrailingSlash(dest) + "/" + g.Name()
    ensures Basename(BackupSubFolderPathsFromDest(dest).Get(g)) == g.Name()
    ensures Dirname(BackupSubFolderPathsFromDest(dest).Get(g)) == DropTrailingSlash(dest)
    ensures FrequencyPrefixesFromPrefix(prefix).Get(g) == DropTrailingSlash(prefix) + "/" + g.Name()
  {
    PathJoinSplits(dest, g.Name());
    JoinPrefixPair(prefix, g.Name());
  }

  /** `objectKeyFromFileName`: the key of a named backup in a generation under a user prefix. */
  function ObjectKeyFromFileName(prefix: string, frequency: Generation, fileName: string): (key: string)
    ensures key == JoinPrefix([prefix, frequency.Name(), fileName])
    ensures key == FrequencyPrefixesFromPrefix(prefix).Get(frequency) + "/" + DropLeadingSlash(fileName)
  {
    JoinPrefixTriple(prefix, frequency.Name(), fileName);
    JoinPrefixPair(prefix, frequency.Name());
    JoinPrefix([prefix, frequency.Name(), fileName])
  }

  // ---------------------------------------------------------------------------------------
  // Decoding names and keys into records

  /** The date captured by a match, when it is a valid calendar date. */
  function CapturedDate(p: Pattern, name: string): (r: Option<CalendarDate>)
    ensures r.Some? ==> p.Templated? && Matches(p, name) && r.value == DigitsDate(Captured(p, name))
    ensures p.Templated? && Matches(p, name) && IsValidDate(DigitsDate(Captured(p, name))) ==> r.Some?
  {
    if p.Templated? && Matches(p, name) then
      var d := DigitsDate(Captured(p, name));
      if IsValidDate(d) then Some(d) else None
    else None
  }

  /**
   * `fileInfoFromName`: the record of a backup file. Defined only on names that match the
   * template (and spell a valid date); the folder loses one trailing `/`.
   */
  function FileInfoFromName(frequency: Generation, nameFormat: string, folder: string, fileName: string): (r: Option<Info>)
    ensures r.Some? ==> Matches(NameFormatToRegex(nameFormat), fileName)
    ensures r.Some? ==> r.value.name == fileName && r.value.generation == frequency
    ensures r.Some? ==> r.value.container == DropTrailingSlash(folder)
    ensures r.Some? ==> r.value.location == DropTrailingSlash(folder) + "/" + fileName
    ensures r.Some? ==> fileName == NameFormatToFileName(nameFormat, r.value.date)
  {
    var p := NameFormatToRegex(nameFormat);
    match CapturedDate(p, fileName)
    case None => None
    case Some(date) =>
      CanonicalName(nameFormat, fileName);
      var folderNormalized := DropTrailingSlash(folder);
      Some(Info(fileName, folderNormalized + "/" + fileName, folderNormalized, date, frequency))
  }

  /** A matching name that spells a valid date is the name generated for that date. */
  lemma CanonicalName(nameFormat: string, name: string)
    requires CapturedDate(NameFormatToRegex(nameFormat), name).Some?
    ensures name == NameFormatToFileName(nameFormat, CapturedDate(NameFormatToRegex(nameFormat), name).value)
  {
    var p := NameFormatToRegex(nameFormat);
    var ds := Captured(p, name);
    DigitsDateCanonical(ds);
  }

  /** Decoding the name generated for a date gives back the date and the name. */
  lemma FileInfoRoundTrip(frequency: Generation, nameFormat: string, folder: string, date: CalendarDate)
    requires Find(nameFormat, DateToken).Some?
    ensures var name := NameFormatToFileName(nameFormat, date);
      FileInfoFromName(frequency, nameFormat, folder, name)
        == Some(Info(name, DropTrailingSlash(folder) + "/" + name, DropTrailingSlash(folder), date, frequency))
  {
    GeneratedNameMatches(nameFormat, date);
    DateDigitsRoundTrip(date);
  }

  /**
   * `objectInfoFromKey`: the record of a remote object. The key must match the template
   * prefixed by the generation's key prefix; the name is the key with the first occurrence of
   * that prefix and a `/` removed.
   */
  function ObjectInfoFromKey(frequency: Generation, nameFormat: string, prefix: string, key: string): (r: Option<Info>)
    ensures r.Some? ==> Matches(NameFormatToRegex(ObjectKeyFromFileName(prefix, frequency, nameFormat)), key)
    ensures r.Some? ==> r.value.location == key && r.value.generation == frequency
    ensures r.Some? ==> r.value.container == FrequencyPrefixesFromPrefix(prefix).Get(frequency)
    ensures r.Some? ==> r.value.name == ReplaceFirst(key, r.value.container + "/", "")
    ensures r.Some? ==> key == NameFormatToFileName(ObjectKeyFromFileName(prefix, frequency, nameFormat), r.value.date)
  {
    var frequencyPrefix := FrequencyPrefixesFromPrefix(prefix).Get(frequency);
    var p := NameFormatToRegex(ObjectKeyFromFileName(prefix, frequency, nameFormat));
    match CapturedDate(p, key)
    case None => None
    case Some(date) =>
      CanonicalName(ObjectKeyFromFileName(prefix, frequency, nameFormat), key);
      Some(Info(ReplaceFirst(key, frequencyPrefix + "/", ""), key, frequencyPrefix, date, frequency))
  }

  /**
   * Decoding the key of a generated name gives back the date and the plain name, provided the
   * user prefix holds no `[DATE]` and the template does not start with `/`.
   */
  lemma ObjectInfoRoundTrip(frequency: Generation, nameFormat: string, prefix: string, date: CalendarDate)
    requires Find(nameFormat, DateToken).Some? && Find(prefix, DateToken).None?
    requires DropLeadingSlash(nameFormat) == nameFormat
    ensures var name := NameFormatToFileName(nameFormat, date);
      var key := ObjectKeyFromFileName(prefix, frequency, name);
      ObjectInfoFromKey(frequency, nameFormat, prefix, key)
        == Some(Info(name, key, FrequencyPrefixesFromPrefix(prefix).Get(frequency), date, frequency))
  {
    var name := NameFormatToFileName(nameFormat, date);
    var head := FrequencyPrefixesFromPrefix(prefix).Get(frequency) + "/";
    KeyTemplate(frequency, nameFormat, prefix, date);
    var keyFormat := head + nameFormat;
    var key := head + name;
    GeneratedNameMatches(keyFormat, date);
    DateDigitsRoundTrip(date);
    assert CapturedDate(NameFormatToRegex(keyFormat), key) == Some(date);
    StripHead(head, name);
  }

  /** Removing the first occurrence of a prefix from a string that starts with it. */
  lemma StripHead(head: string, name: string)
    ensures ReplaceFirst(head + name, head, "") == name
  {
    FindAtStart(head + name, head);
    assert (head + name)[|head|..] == name;
  }

  /**
   * The key template is the generation prefix, a `/` and the template, and naming it for a date
   * gives the key of the name generated for that date.
   */
  lemma KeyTemplate(frequency: Generation, nameFormat: string, prefix: string, date: CalendarDate)
    requires Find(nameFormat, DateToken).Some? && Find(prefix, DateToken).None?
    requires DropLeadingSlash(nameFormat) == nameFormat
    ensures var head := FrequencyPrefixesFromPrefix(prefix).Get(frequency) + "/";
      && ObjectKeyFromFileName(prefix, frequency, nameFormat) == head + nameFormat
      && ObjectKeyFromFileName(prefix, frequency, NameFormatToFileName(nameFormat, date)) == head + NameFormatToFileName(nameFormat, date)
      && Find(head + nameFormat, DateToken).Some?
      && NameFormatToFileName(head + nameFormat, date) == head + NameFormatToFileName(nameFormat, date)
  {
    var head := FrequencyPrefixesFromPrefix(prefix).Get(frequency) + "/";
    JoinPrefixPair(prefix, frequency.Name());
    assert head == DropTrailingSlash(prefix) + "/" + frequency.Name() + "/";
    NameStartsPlain(nameFormat, date);
    HeadHasNoToken(prefix, frequency);
    FindAfterSeparator(head, nameFormat, DateToken, '/');
    ReplaceAfterSeparator(head, nameFormat, DateToken, DateDigits(date), '/');
  }

  /** A generated name starts like its template, so a template without a leading `/` gives such a name. */
  lemma NameStartsPlain(nameFormat: string, date: CalendarDate)
    requires Find(nameFormat, DateToken).Some? && DropLeadingSlash(nameFormat) == nameFormat
    ensures DropLeadingSlash(NameFormatToFileName(nameFormat, date)) == NameFormatToFileName(nameFormat, date)
  {
  }

  /** `[DATE]` cannot end inside a suffix without `]`, so it occurs in `p + suffix` only inside `p`. */
  lemma TokenNotAcross(p: string, suffix: string, j: int)
    requires ']' !in suffix
    requires j + |DateToken| <= |p| ==> !OccursAt(p, DateToken, j)
    ensures !OccursAt(p + suffix, DateToken, j)
  {
    var h := p + suffix;
    if 0 <= j && j + 6 <= |p| {
      assert h[j..j + 6] == p[j..j + 6];
    } else if 0 <= j && j + 6 <= |h| {
      var k := j + 5 - |p|;
      assert 0 <= k < |suffix| && h[j + 5] == suffix[k];
      assert suffix[k] in suffix;
      assert h[j..j + 6][5] == h[j + 5];
      assert DateToken[5] == ']';
    }
  }

  lemma HeadHasNoToken(prefix: string, frequency: Generation)
    requires Find(prefix, DateToken).None?
    ensures Find(DropTrailingSlash(prefix) + "/" + frequency.Name() + "/", DateToken).None?
  {
    var p := DropTrailingSlash(prefix);
    var suffix := "/" + frequency.Name() + "/";
    var h := p + suffix;
    assert h == DropTrailingSlash(prefix) + "/" + frequency.Name() + "/";
    assert ']' !in suffix by {
      match frequency
      case Daily => assert suffix == "/daily/";
      case Weekly => assert suffix == "/weekly/";
      case Monthly => assert suffix == "/monthly/";
    }
    forall j | 0 <= j ensures !OccursAt(h, DateToken, j) {
      if j + 6 <= |p| {
        assert p[j..j + 6] == prefix[j..j + 6];
        assert !OccursAt(prefix, DateToken, j);
      }
      TokenNotAcross(p, suffix, j);
    }
  }

  // ---------------------------------------------------------------------------------------
  // Youngest-first order

  predicate SortedNewestFirst(xs: seq<Info>) {
    forall i, j :: 0 <= i < j < |xs| ==> xs[i].Stamp() >= xs[j].Stamp()
  }

  /** A record at least as young as the head of a sorted list keeps the list sorted when put in front. */
  lemma ConsSorted(a: Info, rest: seq<Info>)
    requires SortedNewestFirst(rest)
    requires rest != [] ==> a.Stamp() >= rest[0].Stamp()
    ensures SortedNewestFirst([a] + rest)
  {
    var r := [a] + rest;
    forall i, j | 0 <= i < j < |r| ensures r[i].Stamp() >= r[j].Stamp() {
      assert r[j] == rest[j - 1];
      if i > 0 {
        assert r[i] == rest[i - 1];
      } else if j > 1 {
        assert rest[0].Stamp() >= rest[j - 1].Stamp();
      }
    }
  }

  /** Place `x` before the first element that is not younger than it. */
  function Insert(x: Info, xs: seq<Info>): (r: seq<Info>)
    requires SortedNewestFirst(xs)
    ensures SortedNewestFirst(r)
    ensures multiset(r) == multiset(xs) + multiset{x}
    ensures xs == [] ==> r == [x]
    ensures xs != [] ==> r[0] == x || r[0] == xs[0]
  {
    if xs == [] then [x]
    else if xs[0].Stamp() <= x.Stamp() then
      ConsSorted(x, xs);
      [x] + xs
    else
      var rest := Insert(x, xs[1..]);
      assert xs == [xs[0]] + xs[1..];
      ConsSorted(xs[0], rest);
      [xs[0]] + rest
  }

  /**
   * `sortInfoNewestFirst`: a fresh list holding the same records, ordered by stamp
   * non-increasing (a stable sort: records with equal stamps keep their input order).
   */
  function SortInfoNewestFirst(xs: seq<Info>): (r: seq<Info>)
    ensures SortedNewestFirst(r)
    ensures multiset(r) == multiset(xs)
    ensures |r| == |xs|
  {
    if xs == [] then []
    else
      assert xs == [xs[0]] + xs[1..];
      Insert(xs[0], SortInfoNewestFirst(xs[1..]))
  }

  function SameStamp(xs: seq<Info>, t: int): seq<Info>
  {
    if xs == [] then []
    else if xs[0].Stamp() == t then [xs[0]] + SameStamp(xs[1..], t)
    else SameStamp(xs[1..], t)
  }

  lemma {:induction false} InsertSameStamp(x: Info, xs: seq<Info>, t: int)
    requires SortedNewestFirst(xs)
    ensures SameStamp(Insert(x, xs), t) == if x.Stamp() == t then [x] + SameStamp(xs, t) else SameStamp(xs, t)
  {
    if xs != [] && xs[0].Stamp() > x.Stamp() {
      InsertSameStamp(x, xs[1..], t);
      var r := Insert(x, xs);
      assert r[0] == xs[0] && r[1..] == Insert(x, xs[1..]);
      if x.Stamp() == t {
        assert SameStamp(xs, t) == SameStamp(xs[1..], t);
      }
    }
  }

  /** The sort is stable: the records of any one stamp appear in their input order. */
  lemma {:induction false} SortIsStable(xs: seq<Info>, t: int)
    ensures SameStamp(SortInfoNewestFirst(xs), t) == SameStamp(xs, t)
  {
    if xs != [] {
      SortIsStable(xs[1..], t);
      InsertSameStamp(xs[0], SortInfoNewestFirst(xs[1..]), t);
    }
  }

  /**
   * The head of the sorted list is the first record of the input with the largest stamp: every
   * record before it in the input is strictly older, as with a stable sort.
   */
  lemma {:induction false} SortHeadIsFirstYoungest(xs: seq<Info>)
    requires xs != []
    ensures exists k :: (0 <= k < |xs| && xs[k] == SortInfoNewestFirst(xs)[0] &&
      forall j :: 0 <= j < k ==> xs[j].Stamp() < xs[k].Stamp())
  {
    var s := SortInfoNewestFirst(xs[1..]);
    var head := SortInfoNewestFirst(xs)[0];
    if s == [] || s[0].Stamp() <= xs[0].Stamp() {
      assert head == xs[0];
    } else {
      SortHeadIsFirstYoungest(xs[1..]);
      var k :| 0 <= k < |xs[1..]| && xs[1..][k] == s[0] && forall j :: 0 <= j < k ==> xs[1..][j].Stamp() < xs[1..][k].Stamp();
      assert head == s[0];
      assert xs[k + 1] == head;
      forall j | 0 <= j < k + 1 ensures xs[j].Stamp() < xs[k + 1].Stamp() {
        if j > 0 {
          assert xs[j] == xs[1..][j - 1];
        }
      }
    }
  }

  /** The sort keeps exactly the records it was given. */
  lemma SortKeepsMembers(xs: seq<Info>)
    ensures forall x :: x in SortInfoNewestFirst(xs) <==> x in xs
  {
    var r := SortInfoNewestFirst(xs);
    forall x
      ensures x in r <==> x in xs
    {
      assert x in r <==> x in multiset(r);
    }
  }
}
