/** The naming rules of utils/paths.py: `slugify`, which turns a title into a directory
    name, and the unit choice of `format_file_size`. */
module Paths {
  import opened Wrappers
  import opened Text

  // ---- slugify ------------------------------------------------------------------------

  /** `[\w\s-]`: the characters the first substitution keeps. */
  predicate Kept(c: char) { IsWordChar(c) || IsSpace(c) || c == '-' }

  /** `[\s_-]`: the characters a run of which becomes one `-`. */
  predicate IsSeparator(c: char) { IsSpace(c) || c == '_' || c == '-' }

  predicate IsDash(c: char) { c == '-' }

  /** `re.sub(r'[^\w\s-]', '', s)`. */
  function KeepOnly(s: string): (r: string)
    ensures |r| <= |s|
    ensures forall i :: 0 <= i < |r| ==> Kept(r[i])
  {
    if s == [] then []
    else (if Kept(s[0]) then [s[0]] else []) + KeepOnly(s[1..])
  }

  /** Text made only of kept characters passes unchanged. */
  lemma {:induction false} KeepOnlyOfKept(s: string)
    requires forall i :: 0 <= i < |s| ==> Kept(s[i])
    ensures KeepOnly(s) == s
  {
    if s != [] {
      KeepOnlyOfKept(s[1..]);
      assert [s[0]] + s[1..] == s;
    }
  }

  /** `slugify`: lower-case and trim, drop everything but word characters, spaces and
      hyphens, turn each run of spaces, underscores and hyphens into one hyphen
      (`re.sub(r'[\s_-]+', '-', s)`), trim hyphens, and fall back to `"untitled"`. */
  function Slugify(title: string): string {
    var slug := Strip(CollapseRuns(Filtered(title), IsSeparator, '-'), IsDash);
    if slug == [] then Untitled else slug
  }

  const Untitled := "untitled"

  /** The title lower-cased and trimmed, with only word characters, spaces and hyphens
      left. */
  function Filtered(title: string): string {
    KeepOnly(Strip(Lower(title), IsSpace))
  }

  /** The characters a slug may hold. */
  predicate SlugChar(c: char) { IsLower(c) || IsDigit(c) || c == '-' }

  predicate SlugChars(s: string) {
    forall i :: 0 <= i < |s| ==> SlugChar(s[i])
  }

  predicate NoDoubleDash(s: string) {
    forall i :: 0 <= i < |s| - 1 ==> !(s[i] == '-' && s[i + 1] == '-')
  }

  /** What `slugify` promises of its result: not empty; only lower-case letters, digits
      and hyphens; no hyphen at either end and never two in a row. */
  predicate IsSlug(s: string) {
    && |s| >= 1
    && SlugChars(s)
    && s[0] != '-' && s[|s| - 1] != '-'
    && NoDoubleDash(s)
  }

  /** Characters that passed the filter, with no upper-case letter. */
  predicate LowerKept(s: string) {
    forall i :: 0 <= i < |s| ==> Kept(s[i]) && !IsUpper(s[i])
  }

  lemma {:induction false} KeepOnlyLower(s: string)
    requires NoUpper(s)
    ensures LowerKept(KeepOnly(s))
  {
    if s != [] {
      KeepOnlyLower(s[1..]);
    }
  }

  lemma LowerKeptSuffix(s: string, k: int)
    requires LowerKept(s) && 0 <= k <= |s|
    ensures LowerKept(s[k..])
  {
    forall i | 0 <= i < |s[k..]| ensures Kept(s[k..][i]) && !IsUpper(s[k..][i]) {
      assert s[k..][i] == s[k + i];
    }
  }

  /** Putting one slug character in front of a slug-shaped text keeps its shape unless it
      makes two hyphens meet. */
  lemma ConsShape(x: char, c: string)
    requires SlugChar(x) && SlugChars(c) && NoDoubleDash(c)
    requires x == '-' ==> c == [] || c[0] != '-'
    ensures SlugChars([x] + c) && NoDoubleDash([x] + c)
  {
    var r := [x] + c;
    forall i | 1 <= i < |r| ensures r[i] == c[i - 1] {}
  }

  /** After collapsing, only slug characters remain and no two hyphens touch. */
  lemma {:induction false} CollapseShape(s: string)
    requires LowerKept(s)
    ensures SlugChars(CollapseRuns(s, IsSeparator, '-')) && NoDoubleDash(CollapseRuns(s, IsSeparator, '-'))
    decreases |s|, 1
  {
    if s != [] {
      if IsSeparator(s[0]) {
        CollapseShapeRun(s);
      } else {
        CollapseShapeKeep(s);
      }
    }
  }

  /** A leading run of separators becomes one hyphen in front of the collapsed rest. */
  lemma {:induction false} CollapseShapeRun(s: string)
    requires LowerKept(s) && s != [] && IsSeparator(s[0])
    ensures SlugChars(CollapseRuns(s, IsSeparator, '-')) && NoDoubleDash(CollapseRuns(s, IsSeparator, '-'))
    decreases |s|, 0
  {
    var t := StripLeft(s[1..], IsSeparator);
    assert CollapseRuns(s, IsSeparator, '-') == ['-'] + CollapseRuns(t, IsSeparator, '-');
    LowerKeptSuffix(s, |s| - |t|);
    assert s[|s| - |t|..] == t;
    CollapseShape(t);
    ConsShape('-', CollapseRuns(t, IsSeparator, '-'));
  }

  /** A leading kept character stays in front of the collapsed rest. */
  lemma {:induction false} CollapseShapeKeep(s: string)
    requires LowerKept(s) && s != [] && !IsSeparator(s[0])
    ensures SlugChars(CollapseRuns(s, IsSeparator, '-')) && NoDoubleDash(CollapseRuns(s, IsSeparator, '-'))
    decreases |s|, 0
  {
    assert CollapseRuns(s, IsSeparator, '-') == [s[0]] + CollapseRuns(s[1..], IsSeparator, '-');
    LowerKeptSuffix(s, 1);
    CollapseShape(s[1..]);
    ConsShape(s[0], CollapseRuns(s[1..], IsSeparator, '-'));
  }

  /** A slice keeps the character set and the no-double-hyphen rule. */
  lemma SliceKeepsShape(s: string, r: string, k: int)
    requires SlugChars(s) && NoDoubleDash(s)
    requires OccursAt(s, r, k)
    ensures SlugChars(r) && NoDoubleDash(r)
  {
    forall i | 0 <= i < |r| ensures r[i] == s[k + i] {}
  }

  predicate NoUpper(s: string) {
    forall i :: 0 <= i < |s| ==> !IsUpper(s[i])
  }

  lemma NoUpperSlice(s: string, r: string, k: int)
    requires NoUpper(s) && OccursAt(s, r, k)
    ensures NoUpper(r)
  {
    forall i | 0 <= i < |r| ensures r[i] == s[k + i] {}
  }

  /** The text `slugify` filters has no upper-case letter and keeps only filtered
      characters. */
  lemma FilteredIsLowerKept(title: string)
    ensures LowerKept(Filtered(title))
  {
    var lowered := Lower(title);
    assert NoUpper(lowered);
    var stripped := Strip(lowered, IsSpace);
    StripIsSlice(lowered, IsSpace);
    var k0 :| OccursAt(lowered, stripped, k0);
    NoUpperSlice(lowered, stripped, k0);
    KeepOnlyLower(stripped);
  }

  /** Trimming hyphens from a slug-shaped text leaves nothing or a slug. */
  lemma TrimmedIsSlug(collapsed: string)
    requires SlugChars(collapsed) && NoDoubleDash(collapsed)
    ensures var slug := Strip(collapsed, IsDash); slug == [] || IsSlug(slug)
  {
    var slug := Strip(collapsed, IsDash);
    StripIsSlice(collapsed, IsDash);
    var k :| OccursAt(collapsed, slug, k);
    SliceKeepsShape(collapsed, slug, k);
  }

  /** The fallback name is itself a slug. */
  lemma UntitledIsSlug()
    ensures IsSlug(Untitled)
  {
    assert forall i :: 0 <= i < |Untitled| ==> IsLower(Untitled[i]);
  }

  /** Every result of `slugify` is a slug. */
  lemma SlugifyIsSlug(title: string)
    ensures IsSlug(Slugify(title))
  {
    var filtered := Filtered(title);
    FilteredIsLowerKept(title);
    CollapseShape(filtered);
    TrimmedIsSlug(CollapseRuns(filtered, IsSeparator, '-'));
    UntitledIsSlug();
  }

  /** In a slug the only separator is a lone hyphen, so collapsing changes nothing. */
  lemma CollapseOfSlug(s: string)
    requires SlugChars(s) && NoDoubleDash(s)
    ensures CollapseRuns(s, IsSeparator, '-') == s
  {
    assert SingleRuns(s, IsSeparator, '-');
    CollapseRunsOfSingle(s, IsSeparator, '-');
  }

  /** Lower-casing, trimming spaces and filtering leave a slug as it is. */
  lemma SlugFiltersToSelf(s: string)
    requires IsSlug(s)
    ensures Filtered(s) == s
  {
    assert Lower(s) == s;
    NoSpaceStripsToSelf(s);
    assert forall i :: 0 <= i < |s| ==> Kept(s[i]);
    KeepOnlyOfKept(s);
  }

  /** Trimming hyphens leaves a slug as it is. */
  lemma SlugTrimsToSelf(s: string)
    requires IsSlug(s)
    ensures Strip(s, IsDash) == s
  {
    assert StripLeft(s, IsDash) == s;
    assert StripRight(s, IsDash) == s;
  }

  /** A slug is its own `slugify`. */
  lemma SlugIsFixed(s: string)
    requires IsSlug(s)
    ensures Slugify(s) == s
  {
    SlugFiltersToSelf(s);
    CollapseOfSlug(s);
    SlugTrimsToSelf(s);
  }

  /** `slugify(slugify(t)) == slugify(t)`. */
  lemma SlugifyIdempotent(title: string)
    ensures Slugify(Slugify(title)) == Slugify(title)
  {
    SlugifyIsSlug(title);
    SlugIsFixed(Slugify(title));
  }

  // ---- format_file_size ---------------------------------------------------------------

  /** What `format_file_size` prints: the exact count of bytes, or a scaled amount with
      its unit (the decimal formatting of the amount is not modelled). */
  datatype SizeText = Exact(text: string) | Scaled(amount: real, unit: string)

  const KiB: int := 1024
  const MiB: int := 1024 * 1024
  const GiB: int := 1024 * 1024 * 1024

  function FormatFileSize(size: int): SizeText {
    if size < KiB then Exact(IntToString(size) + " B")
    else if size < MiB then Scaled(size as real / KiB as real, "KB")
    else if size < GiB then Scaled(size as real / MiB as real, "MB")
    else Scaled(size as real / GiB as real, "GB")
  }

  /** The unit is the largest of B, KB, MB and GB that the size reaches, the amount times
      the unit gives the size back, and the amount is below 1024 unless it is in GB. A
      size in bytes reads back as the size. */
  lemma FormatFileSizeUnits(size: int)
    ensures FormatFileSize(size).Exact? <==> size < KiB
    ensures FormatFileSize(size).Exact? ==> ParseInt(FormatFileSize(size).text[..|FormatFileSize(size).text| - 2]) == Some(size)
    ensures FormatFileSize(size).Scaled? ==>
      var r := FormatFileSize(size);
      && (r.unit == "KB" <==> KiB <= size < MiB)
      && (r.unit == "MB" <==> MiB <= size < GiB)
      && (r.unit == "GB" <==> GiB <= size)
      && 1.0 <= r.amount
      && (r.unit != "GB" ==> r.amount < 1024.0)
      && r.amount * (if r.unit == "KB" then KiB else if r.unit == "MB" then MiB else GiB) as real == size as real
  {
    if size < KiB {
      var t := IntToString(size) + " B";
      assert t[..|t| - 2] == IntToString(size);
      IntToStringRoundTrip(size);
    }
  }
}
