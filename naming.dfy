/** The file-name rules of ui/add_movie_dialog.py: the natural sort key that orders picked
    episode files, the episode title guessed from a file name, the title filled in from a
    picked movie file and the per-episode directory name; with the `os.path.basename` and
    `os.path.splitext` they rely on (POSIX separators). */
module Naming {
  import opened Text
  import opened Sorting

  // ---- os.path ------------------------------------------------------------------------

  /** `s.rfind(c)`: the last index of `c`, or -1. */
  function LastIndexOf(s: string, c: char): (k: int)
    ensures -1 <= k < |s|
    ensures k >= 0 ==> s[k] == c
    ensures forall i :: k < i < |s| ==> s[i] != c
  {
    if s == [] then -1
    else if s[|s| - 1] == c then |s| - 1
    else LastIndexOf(s[..|s| - 1], c)
  }

  /** The last index is the only index with those two properties. */
  lemma LastIndexOfIs(s: string, c: char, k: int)
    requires -1 <= k < |s|
    requires k >= 0 ==> s[k] == c
    requires forall i :: k < i < |s| ==> s[i] != c
    ensures LastIndexOf(s, c) == k
  {
  }

  /** `os.path.basename(p)`: what follows the last `/`. */
  function Basename(p: string): (r: string)
    ensures |r| <= |p| && r == p[|p| - |r|..]
    ensures forall i :: 0 <= i < |r| ==> r[i] != '/'
  {
    p[LastIndexOf(p, '/') + 1..]
  }

  predicate AllDots(s: string) {
    forall i :: 0 <= i < |s| ==> s[i] == '.'
  }

  predicate NoDotOrSlash(s: string) {
    forall i :: 0 <= i < |s| ==> s[i] != '.' && s[i] != '/'
  }

  /** `os.path.splitext(p)`: the extension is the text from the last `.` of the base name,
      unless everything before that `.` in the base name is dots (`.bashrc` has none). */
  function SplitExt(p: string): (r: (string, string))
    ensures r.0 + r.1 == p
  {
    var sep := LastIndexOf(p, '/');
    var dot := LastIndexOf(p, '.');
    if dot > sep && !AllDots(p[sep + 1..dot]) then (p[..dot], p[dot..]) else (p, "")
  }

  /** What follows the last `.` after the last `/` holds neither. */
  lemma AfterLastDot(p: string, sep: int, dot: int)
    requires sep == LastIndexOf(p, '/') && dot == LastIndexOf(p, '.') && sep < dot
    ensures NoDotOrSlash(p[dot + 1..])
  {
    var q := p[dot + 1..];
    forall i | 0 <= i < |q| ensures q[i] == p[dot + 1 + i] {}
  }

  /** The extension is empty or a `.` followed by no further `.` or `/`. */
  lemma SplitExtShape(p: string)
    ensures var e := SplitExt(p).1; e == [] || (e[0] == '.' && NoDotOrSlash(e[1..]))
  {
    var sep := LastIndexOf(p, '/');
    var dot := LastIndexOf(p, '.');
    if dot > sep && !AllDots(p[sep + 1..dot]) {
      AfterLastDot(p, sep, dot);
      assert p[dot..][1..] == p[dot + 1..];
    }
  }

  /** A base name with a character other than `.` before the extension splits there. */
  lemma SplitExtOf(stem: string, w: string)
    requires !AllDots(Basename(stem))
    requires NoDotOrSlash(w)
    ensures SplitExt(stem + ("." + w)) == (stem, "." + w)
  {
    var p := stem + ("." + w);
    var sep := LastIndexOf(stem, '/');
    forall i | sep < i < |p| ensures p[i] != '/' {
      if i > |stem| {
        assert p[i] == w[i - |stem| - 1];
      }
    }
    LastIndexOfIs(p, '/', sep);
    forall i | |stem| < i < |p| ensures p[i] != '.' {
      assert p[i] == w[i - |stem| - 1];
    }
    LastIndexOfIs(p, '.', |stem|);
    assert p[sep + 1..|stem|] == Basename(stem);
    assert p[..|stem|] == stem;
  }

  /** A hidden file such as `.srt` has no extension. */
  lemma DotFileHasNoExtension(w: string)
    requires NoDotOrSlash(w)
    ensures SplitExt("." + w) == ("." + w, "")
  {
    var p := "." + w;
    LastIndexOfIs(p, '/', -1);
    LastIndexOfIs(p, '.', 0);
  }

  /** A name without a slash is its own base name. */
  lemma BasenameOfName(dir: string, name: string)
    requires forall i :: 0 <= i < |name| ==> name[i] != '/'
    ensures Basename(name) == name
    ensures Basename(dir + ("/" + name)) == name
  {
    LastIndexOfIs(name, '/', -1);
    var p := dir + ("/" + name);
    forall i | |dir| < i < |p| ensures p[i] != '/' {
      assert p[i] == name[i - |dir| - 1];
    }
    LastIndexOfIs(p, '/', |dir|);
  }

  // ---- _natural_sort_key --------------------------------------------------------------

  /** One element of the key: a lower-cased text piece or the value of a run of digits. */
  datatype KeyPart = Chunk(text: string) | Num(value: nat)

  predicate NotDigit(c: char) { !IsDigit(c) }

  predicate NoDigits(s: string) {
    forall i :: 0 <= i < |s| ==> !IsDigit(s[i])
  }

  /** `[int(c) if c.isdigit() else c.lower() for c in re.split(r'(\d+)', s)]`: text pieces
      and digit runs alternate, starting and ending with a (possibly empty) text piece. */
  function NaturalKey(s: string): seq<KeyPart>
    decreases |s|
  {
    var t := Run(s, NotDigit);
    if t == |s| then [Chunk(Lower(s))]
    else
      var rest := s[t..];
      var d := Run(rest, IsDigit);
      assert rest[..d] == rest[..d] && AllDigits(rest[..d]);
      [Chunk(Lower(s[..t])), Num(DigitsValue(rest[..d]))] + NaturalKey(rest[d..])
  }

  predicate Alternates(k: seq<KeyPart>) {
    && |k| % 2 == 1
    && forall i :: 0 <= i < |k| ==> (k[i].Chunk? <==> i % 2 == 0)
  }

  lemma AlternatesCons(a: KeyPart, b: KeyPart, k: seq<KeyPart>)
    requires a.Chunk? && b.Num? && Alternates(k)
    ensures Alternates([a, b] + k)
  {
    var r := [a, b] + k;
    forall i | 2 <= i < |r| ensures r[i] == k[i - 2] {}
  }

  /** The key alternates text and numbers, starting and ending with text, so two keys
      never hold a text and a number at the same place. */
  lemma {:induction false} NaturalKeyAlternates(s: string)
    ensures Alternates(NaturalKey(s))
    decreases |s|
  {
    var t := Run(s, NotDigit);
    if t < |s| {
      var rest := s[t..];
      var d := Run(rest, IsDigit);
      NaturalKeyAlternates(rest[d..]);
      AlternatesCons(Chunk(Lower(s[..t])), Num(DigitsValue(rest[..d])), NaturalKey(rest[d..]));
    }
  }

  /** A name without digits is one text piece. */
  lemma NaturalKeyOfText(t: string)
    requires NoDigits(t)
    ensures NaturalKey(t) == [Chunk(Lower(t))]
  {
    RunOfPrefix(t, [], NotDigit);
    assert t + [] == t;
  }

  /** A number written after a digit-free text becomes the key's next two elements. */
  lemma NaturalKeyStep(t: string, n: nat, rest: string)
    requires NoDigits(t)
    requires rest == [] || !IsDigit(rest[0])
    ensures NaturalKey(t + (NatToString(n) + rest)) == [Chunk(Lower(t)), Num(n)] + NaturalKey(rest)
  {
    var d := NatToString(n);
    var s := t + (d + rest);
    RunOfPrefix(t, d + rest, NotDigit);
    assert s[..|t|] == t;
    assert s[|t|..] == d + rest;
    RunOfPrefix(d, rest, IsDigit);
    assert (d + rest)[..|d|] == d;
    assert (d + rest)[|d|..] == rest;
    NatToStringRoundTrip(n);
  }

  /** Python's ordering of two key elements. Keys compared by `list.sort` alternate text
      and numbers in the same places, so a text is never compared with a number; the
      mixed case, where Python would raise, is given an arbitrary fixed answer. */
  predicate PartLe(x: KeyPart, y: KeyPart) {
    match (x, y)
    case (Chunk(a), Chunk(b)) => StrLe(a, b)
    case (Num(m), Num(n)) => m <= n
    case (Num(_), Chunk(_)) => true
    case (Chunk(_), Num(_)) => false
  }

  /** Python's ordering of lists: the first differing element decides, and a prefix comes
      first. */
  predicate KeyLe(a: seq<KeyPart>, b: seq<KeyPart>) {
    if a == [] then true
    else if b == [] then false
    else if a[0] == b[0] then KeyLe(a[1..], b[1..])
    else PartLe(a[0], b[0])
  }

  lemma PartLeAntisymmetric(x: KeyPart, y: KeyPart)
    requires PartLe(x, y) && PartLe(y, x)
    ensures x == y
  {
    if x.Chunk? && y.Chunk? {
      StrLeAntisymmetric(x.text, y.text);
    }
  }

  lemma PartLeTransitive(x: KeyPart, y: KeyPart, z: KeyPart)
    requires PartLe(x, y) && PartLe(y, z)
    ensures PartLe(x, z)
  {
    if x.Chunk? && y.Chunk? && z.Chunk? {
      StrLeTransitive(x.text, y.text, z.text);
    }
  }

  lemma {:induction false} KeyLeTotal(a: seq<KeyPart>, b: seq<KeyPart>)
    ensures KeyLe(a, b) || KeyLe(b, a)
  {
    if a != [] && b != [] {
      if a[0] == b[0] {
        KeyLeTotal(a[1..], b[1..]);
      } else if a[0].Chunk? && b[0].Chunk? {
        StrLeTotal(a[0].text, b[0].text);
      }
    }
  }

  lemma {:induction false} KeyLeTransitive(a: seq<KeyPart>, b: seq<KeyPart>, c: seq<KeyPart>)
    requires KeyLe(a, b) && KeyLe(b, c)
    ensures KeyLe(a, c)
  {
    if a != [] && b != [] && c != [] {
      if a[0] == b[0] && b[0] == c[0] {
        KeyLeTransitive(a[1..], b[1..], c[1..]);
      } else if a[0] != b[0] && b[0] != c[0] {
        PartLeTransitive(a[0], b[0], c[0]);
        if a[0] == c[0] {
          PartLeAntisymmetric(a[0], b[0]);
        }
      }
    }
  }

  /** Names that differ only in a number after the same digit-free text are ordered by the
      number's value, not its digits: `"Ep 2"` comes strictly before `"Ep 10"`. */
  lemma NumbersOrderNumerically(t: string, m: nat, n: nat, r1: string, r2: string)
    requires NoDigits(t) && m < n
    requires r1 == [] || !IsDigit(r1[0])
    requires r2 == [] || !IsDigit(r2[0])
    ensures KeyLe(NaturalKey(t + (NatToString(m) + r1)), NaturalKey(t + (NatToString(n) + r2)))
    ensures !KeyLe(NaturalKey(t + (NatToString(n) + r2)), NaturalKey(t + (NatToString(m) + r1)))
  {
    NaturalKeyStep(t, m, r1);
    NaturalKeyStep(t, n, r2);
    SecondPartDecides(Chunk(Lower(t)), Num(m), Num(n), NaturalKey(r1), NaturalKey(r2));
    SecondPartDecides(Chunk(Lower(t)), Num(n), Num(m), NaturalKey(r2), NaturalKey(r1));
  }

  /** Keys that agree on their first element and differ on the second are ordered by the
      second. */
  lemma SecondPartDecides(c: KeyPart, x: KeyPart, y: KeyPart, k1: seq<KeyPart>, k2: seq<KeyPart>)
    requires x != y
    ensures KeyLe([c, x] + k1, [c, y] + k2) == PartLe(x, y)
  {
    var a := [c, x] + k1;
    var b := [c, y] + k2;
    assert a[0] == b[0];
    assert a[1..][0] == x && b[1..][0] == y;
  }

  /** The comparison `paths.sort(key=...)` uses: natural keys of the base names. */
  function ByNaturalName(): (string, string) -> bool {
    (p: string, q: string) => KeyLe(NaturalKey(Basename(p)), NaturalKey(Basename(q)))
  }

  lemma ByNaturalNameIsTotalPreorder()
    ensures TotalPreorder(ByNaturalName())
  {
    var le := ByNaturalName();
    forall a, b ensures le(a, b) || le(b, a) {
      KeyLeTotal(NaturalKey(Basename(a)), NaturalKey(Basename(b)));
    }
    forall a, b, c | le(a, b) && le(b, c) ensures le(a, c) {
      KeyLeTransitive(NaturalKey(Basename(a)), NaturalKey(Basename(b)), NaturalKey(Basename(c)));
    }
  }

  /** The picked episode files in the order `_browse_episodes` appends them. */
  function EpisodeOrder(paths: seq<string>): seq<string> {
    Sort(paths, ByNaturalName())
  }

  /** The picked files are all kept, each once, in ascending natural order. */
  lemma EpisodeOrderSorted(paths: seq<string>)
    ensures multiset(EpisodeOrder(paths)) == multiset(paths)
    ensures Sorted(EpisodeOrder(paths), ByNaturalName())
  {
    ByNaturalNameIsTotalPreorder();
    SortSorted(paths, ByNaturalName());
  }

  // ---- _extract_episode_title ---------------------------------------------------------

  /** `name.replace(".", " ").replace("_", " ")`. */
  function Spaced(s: string): (r: string)
    ensures |r| == |s|
    ensures forall i :: 0 <= i < |s| ==> r[i] == (if s[i] == '.' || s[i] == '_' then ' ' else s[i])
  {
    ReplaceChar(ReplaceChar(s, '.', ' '), '_', ' ')
  }

  /** The length of a `[Ss]\d+[Ee]\d+` match at the start of `s`, 0 for none. */
  function SeasonEpisodeAt(s: string): (n: nat)
    ensures n <= |s|
  {
    if s == [] || (s[0] != 'S' && s[0] != 's') then 0
    else
      var d1 := Run(s[1..], IsDigit);
      if d1 == 0 || 1 + d1 == |s| || (s[1 + d1] != 'E' && s[1 + d1] != 'e') then 0
      else
        var d2 := Run(s[2 + d1..], IsDigit);
        if d2 == 0 then 0 else 2 + d1 + d2
  }

  /** The length of a `\d+[xX]\d+` match at the start of `s`, 0 for none. */
  function CrossCodeAt(s: string): (n: nat)
    ensures n <= |s|
  {
    var d1 := Run(s, IsDigit);
    if d1 == 0 || d1 == |s| || (s[d1] != 'x' && s[d1] != 'X') then 0
    else
      var d2 := Run(s[d1 + 1..], IsDigit);
      if d2 == 0 then 0 else d1 + 1 + d2
  }

  /** A character the lazy `.*?` of `[\[\(].*?[\]\)]` passes over: not a closing bracket
      and, since `.` does not match it, not a line break. */
  predicate Inside(c: char) { c != ']' && c != ')' && c != '\n' }

  /** The length of a `[\[\(].*?[\]\)]` match at the start of `s`, 0 for none: from an
      opening bracket to the first closing one, with no line break between. */
  function BracketedAt(s: string): (n: nat)
    ensures n <= |s|
  {
    if s == [] || (s[0] != '[' && s[0] != '(') then 0
    else
      var k := Run(s[1..], Inside);
      if 1 + k == |s| || s[1 + k] == '\n' then 0 else k + 2
  }

  /** `re.sub(pattern, '', s)`, where `at(t)` is the length of the pattern's match at the
      start of `t` (0 for none): scanning left to right, each match is removed and the
      scan resumes after it. */
  function RemoveAll(s: string, at: string -> nat): (r: string)
    requires forall t :: at(t) <= |t|
    ensures |r| <= |s|
    ensures forall c :: c in r ==> c in s
    decreases |s|
  {
    if s == [] then []
    else if at(s) > 0 then
      var r := RemoveAll(s[at(s)..], at);
      assert forall c :: c in s[at(s)..] ==> c in s;
      r
    else [s[0]] + RemoveAll(s[1..], at)
  }

  /** Text where no match starts before `y` passes through unchanged. */
  lemma {:induction false} RemoveAllPrefix(x: string, y: string, at: string -> nat)
    requires forall t :: at(t) <= |t|
    requires forall k :: 0 <= k < |x| ==> at(x[k..] + y) == 0
    ensures RemoveAll(x + y, at) == x + RemoveAll(y, at)
    decreases |x|
  {
    if x == [] {
      assert x + y == y;
    } else {
      assert x[0..] + y == x + y;
      forall k | 0 <= k < |x[1..]| ensures at(x[1..][k..] + y) == 0 {
        assert x[1..][k..] == x[k + 1..];
      }
      RemoveAllPrefix(x[1..], y, at);
      assert (x + y)[1..] == x[1..] + y;
      assert RemoveAll(x + y, at) == [x[0]] + RemoveAll(x[1..] + y, at);
      assert [x[0]] + (x[1..] + RemoveAll(y, at)) == x + RemoveAll(y, at);
    }
  }

  /** `os.path.splitext(filename)[0]`. */
  function Stem(filename: string): string {
    SplitExt(filename).0
  }

  /** The three deletions, after dots and underscores have become spaces. */
  function EpisodeTitleSteps(name: string): string {
    var a := RemoveAll(Spaced(name), SeasonEpisodeAt);
    var b := RemoveAll(a, CrossCodeAt);
    RemoveAll(b, BracketedAt)
  }

  /** `re.sub(r'\s+', ' ', name).strip(" -")`. */
  function TidyUp(s: string): string {
    Strip(CollapseRuns(s, IsSpace, ' '), IsSpaceOrHyphen)
  }

  /** `_extract_episode_title`: drop the extension, turn dots and underscores into spaces,
      delete `S01E02`-style codes, `1x02`-style codes and bracketed or parenthesised
      groups, collapse whitespace to single spaces and trim spaces and hyphens. */
  function ExtractEpisodeTitle(filename: string): string {
    TidyUp(EpisodeTitleSteps(Stem(filename)))
  }

  /** What the guessed title looks like: no dots or underscores, no whitespace but single
      spaces, and no space or hyphen at either end. */
  predicate TidyTitle(r: string) {
    && (forall i :: 0 <= i < |r| ==> r[i] != '.' && r[i] != '_')
    && SingleRuns(r, IsSpace, ' ')
    && (r == [] || (!IsSpaceOrHyphen(r[0]) && !IsSpaceOrHyphen(r[|r| - 1])))
  }

  lemma TidySlice(s: string, r: string, k: int)
    requires '.' !in s && '_' !in s
    requires SingleRuns(s, IsSpace, ' ')
    requires OccursAt(s, r, k)
    ensures forall i :: 0 <= i < |r| ==> r[i] != '.' && r[i] != '_'
    ensures SingleRuns(r, IsSpace, ' ')
  {
    forall i | 0 <= i < |r| ensures r[i] == s[k + i] && r[i] in s {}
  }

  /** The deletions bring in no dot or underscore. */
  lemma StepsHaveNoDots(name: string)
    ensures '.' !in EpisodeTitleSteps(name) && '_' !in EpisodeTitleSteps(name)
  {
    var spaced := Spaced(name);
    assert '.' !in spaced && '_' !in spaced;
  }

  /** Every tidied text is tidy. */
  lemma TidyUpIsTidy(s: string)
    requires '.' !in s && '_' !in s
    ensures TidyTitle(TidyUp(s))
  {
    var collapsed := CollapseRuns(s, IsSpace, ' ');
    CollapseRunsSingle(s, IsSpace, ' ');
    CollapseRunsKeeps(s, '.');
    CollapseRunsKeeps(s, '_');
    var r := Strip(collapsed, IsSpaceOrHyphen);
    StripIsSlice(collapsed, IsSpaceOrHyphen);
    var k :| OccursAt(collapsed, r, k);
    TidySlice(collapsed, r, k);
  }

  /** Every guessed episode title is tidy. */
  lemma ExtractedTitleIsTidy(filename: string)
    ensures TidyTitle(ExtractEpisodeTitle(filename))
  {
    StepsHaveNoDots(Stem(filename));
    TidyUpIsTidy(EpisodeTitleSteps(Stem(filename)));
  }

  /** Collapsing whitespace brings in no character but the space. */
  lemma {:induction false} CollapseRunsKeeps(s: string, c: char)
    requires c != ' ' && c !in s
    ensures c !in CollapseRuns(s, IsSpace, ' ')
    decreases |s|
  {
    if s != [] {
      if IsSpace(s[0]) {
        var t := StripLeft(s[1..], IsSpace);
        assert c !in t by {
          assert t == s[|s| - |t|..];
        }
        CollapseRunsKeeps(t, c);
      } else {
        CollapseRunsKeeps(s[1..], c);
      }
    }
  }

  /** A title as a person would write it: letters separated by single spaces. */
  predicate CleanTitle(t: string) {
    && |t| >= 1
    && (forall i :: 0 <= i < |t| ==> IsLetter(t[i]) || t[i] == ' ')
    && IsLetter(t[0]) && IsLetter(t[|t| - 1])
    && SingleRuns(t, IsSpace, ' ')
  }

  /** `S{a:02d}E{b:02d}` followed by `rest`. */
  function SeasonEpisodeText(a: nat, b: nat, rest: string): string {
    "S" + (Pad2(a) + ("E" + (Pad2(b) + rest)))
  }

  lemma Pad2Digits(n: nat)
    ensures AllDigits(Pad2(n))
  {
  }

  lemma SeasonEpisodeAtCode(a: nat, b: nat, rest: string)
    requires rest == [] || !IsDigit(rest[0])
    ensures SeasonEpisodeAt(SeasonEpisodeText(a, b, rest)) == |SeasonEpisodeText(a, b, rest)| - |rest|
  {
    var pa := Pad2(a);
    var pb := Pad2(b);
    Pad2Digits(a);
    Pad2Digits(b);
    var s := SeasonEpisodeText(a, b, rest);
    assert s[1..] == pa + ("E" + (pb + rest));
    RunOfPrefix(pa, "E" + (pb + rest), IsDigit);
    assert s[1 + |pa|] == 'E';
    assert s[2 + |pa|..] == pb + rest;
    RunOfPrefix(pb, rest, IsDigit);
  }

  /** No pattern can start inside digit-free text without brackets, as long as what
      follows it is not a digit. */
  lemma NoMatchBefore(x: string, y: string)
    requires NoDigits(x)
    requires forall i :: 0 <= i < |x| ==> x[i] != '[' && x[i] != '('
    requires y == [] || !IsDigit(y[0])
    ensures forall k :: 0 <= k < |x| ==> SeasonEpisodeAt(x[k..] + y) == 0
    ensures forall k :: 0 <= k < |x| ==> CrossCodeAt(x[k..] + y) == 0
    ensures forall k :: 0 <= k < |x| ==> BracketedAt(x[k..] + y) == 0
  {
    forall k | 0 <= k < |x| ensures SeasonEpisodeAt(x[k..] + y) == 0 {
      var s := x[k..] + y;
      assert s[0] == x[k];
      if |s| > 1 {
        assert s[1..][0] == (if k + 1 < |x| then x[k + 1] else y[0]);
      }
    }
    forall k | 0 <= k < |x| ensures CrossCodeAt(x[k..] + y) == 0 {
      assert (x[k..] + y)[0] == x[k];
    }
    forall k | 0 <= k < |x| ensures BracketedAt(x[k..] + y) == 0 {
      assert (x[k..] + y)[0] == x[k];
    }
  }

  /** Digit-free text without brackets passes every removal unchanged. */
  lemma StepsKeepPlain(x: string)
    requires NoDigits(x)
    requires forall i :: 0 <= i < |x| ==> x[i] != '[' && x[i] != '('
    ensures RemoveAll(x, SeasonEpisodeAt) == x
    ensures RemoveAll(x, CrossCodeAt) == x
    ensures RemoveAll(x, BracketedAt) == x
  {
    NoMatchBefore(x, []);
    assert x + [] == x;
    RemoveAllPrefix(x, [], SeasonEpisodeAt);
    RemoveAllPrefix(x, [], CrossCodeAt);
    RemoveAllPrefix(x, [], BracketedAt);
  }

  /** The separators of a file name: letters joined by single dots, underscores or
      spaces, which `Spaced` turns into a clean title. */
  predicate DottedTitle(u: string) {
    && (forall i :: 0 <= i < |u| ==> u[i] != '/')
    && CleanTitle(Spaced(u))
  }

  lemma DottedTitlePlain(u: string)
    requires DottedTitle(u)
    ensures NoDigits(u) && NoDigits(Spaced(u))
    ensures forall i :: 0 <= i < |Spaced(u)| ==> Spaced(u)[i] != '[' && Spaced(u)[i] != '('
    ensures !AllDots(u)
  {
    assert u[0] != '.';
  }

  /** A clean title, alone or after a space, tidies up to itself. */
  lemma TidyUpOfClean(t: string)
    requires CleanTitle(t)
    ensures TidyUp(t) == t && TidyUp(" " + t) == t
  {
    CollapseRunsOfSingle(t, IsSpace, ' ');
    StripOfTrimmed(t, IsSpace);
    assert (" " + t)[1..] == t;
    assert CollapseRuns(" " + t, IsSpace, ' ') == " " + t;
    StripOfTrimmed(t, IsSpaceOrHyphen);
    StripLeftCons(' ', t, IsSpaceOrHyphen);
    assert StripRight(t, IsSpaceOrHyphen) == t;
  }

  /** A base name that does not start with a dot, followed by an extension, has that
      base name as its stem. */
  lemma StemOfName(u: string, w: string)
    requires |u| >= 1 && u[0] != '.' && (forall i :: 0 <= i < |u| ==> u[i] != '/')
    requires NoDotOrSlash(w)
    ensures Stem(u + ("." + w)) == u
  {
    BasenameOfName([], u);
    SplitExtOf(u, w);
  }

  lemma StepsOfPlain(u: string)
    requires DottedTitle(u)
    ensures EpisodeTitleSteps(u) == Spaced(u)
  {
    DottedTitlePlain(u);
    StepsKeepPlain(Spaced(u));
  }

  /** A file named after its episode, words joined by dots, underscores or spaces, gives
      that title back: `The.Pilot.mkv` gives `The Pilot`. */
  lemma ExtractOfPlainName(u: string, w: string)
    requires DottedTitle(u) && NoDotOrSlash(w)
    ensures ExtractEpisodeTitle(u + ("." + w)) == Spaced(u)
  {
    DottedTitlePlain(u);
    StemOfName(u, w);
    StepsOfPlain(u);
    TidyUpOfClean(Spaced(u));
  }

  /** Dots and underscores become spaces piece by piece. */
  lemma SpacedCoded(a: nat, b: nat, u: string)
    ensures Spaced(SeasonEpisodeText(a, b, "." + u)) == SeasonEpisodeText(a, b, " " + Spaced(u))
  {
    Pad2Digits(a);
    Pad2Digits(b);
    var x := SeasonEpisodeText(a, b, "." + u);
    var y := SeasonEpisodeText(a, b, " " + Spaced(u));
    var c := SeasonEpisodeText(a, b, []);
    var n := |c|;
    assert x == c + ("." + u) && y == c + (" " + Spaced(u));
    forall i | 0 <= i < |x| ensures Spaced(x)[i] == y[i] {
      if i < n {
        assert x[i] == c[i] == y[i];
      } else if i > n {
        assert x[i] == u[i - n - 1] && y[i] == Spaced(u)[i - n - 1];
      }
    }
  }

  /** A match covering everything before `rest` is removed whole. */
  lemma RemoveFront(s: string, rest: string, at: string -> nat)
    requires forall t :: at(t) <= |t|
    requires |rest| < |s| && at(s) == |s| - |rest|
    requires s[|s| - |rest|..] == rest
    ensures RemoveAll(s, at) == RemoveAll(rest, at)
  {
  }

  lemma SeasonEpisodeTextEnds(a: nat, b: nat, rest: string)
    ensures |rest| < |SeasonEpisodeText(a, b, rest)|
    ensures SeasonEpisodeText(a, b, rest)[|SeasonEpisodeText(a, b, rest)| - |rest|..] == rest
  {
  }

  /** A code at the front is one match and is removed whole. */
  lemma CodeRemoved(a: nat, b: nat, rest: string)
    requires rest == [] || !IsDigit(rest[0])
    ensures RemoveAll(SeasonEpisodeText(a, b, rest), SeasonEpisodeAt) == RemoveAll(rest, SeasonEpisodeAt)
  {
    SeasonEpisodeAtCode(a, b, rest);
    SeasonEpisodeTextEnds(a, b, rest);
    RemoveFront(SeasonEpisodeText(a, b, rest), rest, SeasonEpisodeAt);
  }

  lemma SpacedTitlePlain(t: string)
    requires NoDigits(t) && forall i :: 0 <= i < |t| ==> t[i] != '[' && t[i] != '('
    ensures NoDigits(" " + t) && forall i :: 0 <= i < |" " + t| ==> (" " + t)[i] != '[' && (" " + t)[i] != '('
  {
    forall i | 1 <= i < |" " + t| ensures (" " + t)[i] == t[i - 1] {}
  }

  /** The deletions remove a leading season and episode code and nothing else. */
  lemma StepsOfCoded(a: nat, b: nat, u: string)
    requires DottedTitle(u)
    ensures EpisodeTitleSteps(SeasonEpisodeText(a, b, "." + u)) == " " + Spaced(u)
  {
    DottedTitlePlain(u);
    var t := Spaced(u);
    SpacedCoded(a, b, u);
    CodeRemoved(a, b, " " + t);
    SpacedTitlePlain(t);
    StepsKeepPlain(" " + t);
  }

  /** A season and episode code in front of the title is removed: `S01E02.The.Pilot.mkv`
      gives `The Pilot`. */
  lemma ExtractOfCodedName(a: nat, b: nat, u: string, w: string)
    requires DottedTitle(u) && NoDotOrSlash(w)
    ensures ExtractEpisodeTitle(SeasonEpisodeText(a, b, "." + (u + ("." + w)))) == Spaced(u)
  {
    CodedNameStem(a, b, u, w);
    StepsOfCoded(a, b, u);
    TidyUpOfClean(Spaced(u));
  }

  /** The extension is cut off after the title, whatever the code in front of it. */
  lemma CodedNameStem(a: nat, b: nat, u: string, w: string)
    requires (forall i :: 0 <= i < |u| ==> u[i] != '/') && NoDotOrSlash(w)
    ensures Stem(SeasonEpisodeText(a, b, "." + (u + ("." + w)))) == SeasonEpisodeText(a, b, "." + u)
  {
    CodedTextOfName(a, b, u, w);
    CodedStemHasNoSlash(a, b, u);
    StemOfJoined(SeasonEpisodeText(a, b, "." + u), w, SeasonEpisodeText(a, b, "." + (u + ("." + w))));
  }

  lemma StemOfJoined(stem: string, w: string, n: string)
    requires |stem| >= 1 && stem[0] != '.' && (forall i :: 0 <= i < |stem| ==> stem[i] != '/')
    requires NoDotOrSlash(w)
    requires n == stem + ("." + w)
    ensures Stem(n) == stem
  {
    StemOfName(stem, w);
  }

  /** The coded name is the coded stem followed by `.` and the extension. */
  lemma CodedTextOfName(a: nat, b: nat, u: string, w: string)
    ensures SeasonEpisodeText(a, b, "." + (u + ("." + w))) == SeasonEpisodeText(a, b, "." + u) + ("." + w)
  {
    CodedTextSplit(a, b, "." + (u + ("." + w)));
    CodedTextSplit(a, b, "." + u);
    DotAssoc(SeasonEpisodeText(a, b, []), u, w);
  }

  lemma DotAssoc(c: string, u: string, w: string)
    ensures c + ("." + (u + ("." + w))) == (c + ("." + u)) + ("." + w)
  {
  }

  lemma NestedAssoc(s: string, p: string, e: string, q: string, r: string)
    ensures s + (p + (e + (q + r))) == (s + (p + (e + q))) + r
  {
  }

  /** The code text is the bare code followed by whatever comes after it. */
  lemma CodedTextSplit(a: nat, b: nat, r: string)
    ensures SeasonEpisodeText(a, b, r) == SeasonEpisodeText(a, b, []) + r
  {
    var q := Pad2(b);
    assert q + [] == q;
    NestedAssoc("S", Pad2(a), "E", q, r);
  }

  lemma CodedStemHasNoSlash(a: nat, b: nat, u: string)
    requires forall i :: 0 <= i < |u| ==> u[i] != '/'
    ensures var stem := SeasonEpisodeText(a, b, "." + u);
      stem[0] == 'S' && forall i :: 0 <= i < |stem| ==> stem[i] != '/'
  {
    Pad2Digits(a);
    Pad2Digits(b);
    var c := SeasonEpisodeText(a, b, []);
    var stem := SeasonEpisodeText(a, b, "." + u);
    assert stem == c + ("." + u);
    forall i | 0 <= i < |stem| ensures stem[i] != '/' {
      if i < |c| {
        assert stem[i] == c[i];
      } else if i > |c| {
        assert stem[i] == u[i - |c| - 1];
      }
    }
  }

  // ---- _browse_movie: the title filled in from the file name -------------------------

  predicate NameSeparator(c: char) { c == '.' || c == '_' || c == '-' }

  /** `name_no_ext.replace(".", " ").replace("_", " ").replace("-", " ")`. */
  function Unhyphenated(s: string): (r: string)
    ensures |r| == |s|
    ensures forall i :: 0 <= i < |s| ==> r[i] == (if NameSeparator(s[i]) then ' ' else s[i])
  {
    ReplaceChar(Spaced(s), '-', ' ')
  }

  /** The title field after a movie file is picked: kept when it holds anything but
      whitespace, otherwise the file's base name without extension, with dots,
      underscores and hyphens turned into spaces and the ends trimmed. */
  function AutoTitle(current: string, path: string): string {
    if Strip(current, IsSpace) != [] then current
    else Strip(Unhyphenated(Stem(Basename(path))), IsSpace)
  }

  predicate NoNameSeparator(s: string) {
    forall i :: 0 <= i < |s| ==> !NameSeparator(s[i])
  }

  lemma UnhyphenatedHasNoSeparator(name: string)
    ensures NoNameSeparator(Unhyphenated(name))
  {
  }

  /** Trimming the spaced-out name leaves no separator and no whitespace at the ends. */
  lemma FilledTitleShape(name: string)
    ensures var r := Strip(Unhyphenated(name), IsSpace);
      && NoNameSeparator(r)
      && (r == [] || (!IsSpace(r[0]) && !IsSpace(r[|r| - 1])))
  {
    UnhyphenatedHasNoSeparator(name);
    StripKeeps(Unhyphenated(name), IsSpace, c => !NameSeparator(c));
  }

  /** A typed title is never replaced; a filled-in one has no dot, underscore or hyphen
      and no whitespace at either end. */
  lemma AutoTitleShape(current: string, path: string)
    ensures Strip(current, IsSpace) != [] ==> AutoTitle(current, path) == current
    ensures Strip(current, IsSpace) == [] ==>
      var r := AutoTitle(current, path);
      && NoNameSeparator(r)
      && (r == [] || (!IsSpace(r[0]) && !IsSpace(r[|r| - 1])))
  {
    FilledTitleShape(Stem(Basename(path)));
  }

  /** The stem of `dir/u.w` is `u` when `u` starts with a letter and has no slash. */
  lemma StemOfPath(dir: string, u: string, w: string)
    requires |u| >= 1 && IsLetter(u[0]) && (forall i :: 0 <= i < |u| ==> u[i] != '/')
    requires NoDotOrSlash(w)
    ensures Stem(Basename(dir + ("/" + (u + ("." + w))))) == u
  {
    NameHasNoSlash(u, w);
    BasenameOfName(dir, u + ("." + w));
    StemOfName(u, w);
  }

  lemma NameHasNoSlash(u: string, w: string)
    requires forall i :: 0 <= i < |u| ==> u[i] != '/'
    requires NoDotOrSlash(w)
    ensures var name := u + ("." + w); forall i :: 0 <= i < |name| ==> name[i] != '/'
  {
    var name := u + ("." + w);
    forall i | 0 <= i < |name| ensures name[i] != '/' {
      if i > |u| {
        assert name[i] == w[i - |u| - 1];
      }
    }
  }

  /** Spacing out a name that starts and ends with a letter leaves nothing to trim. */
  lemma UnhyphenatedIsTrimmed(u: string)
    requires |u| >= 1 && IsLetter(u[0]) && IsLetter(u[|u| - 1])
    ensures Strip(Unhyphenated(u), IsSpace) == Unhyphenated(u)
  {
    var r := Unhyphenated(u);
    assert !IsSpace(r[0]) && !IsSpace(r[|r| - 1]);
    StripOfTrimmed(r, IsSpace);
  }

  /** A blank title field is filled with the trimmed, spaced-out stem of the picked file. */
  lemma BlankTitleFilled(path: string)
    ensures AutoTitle("", path) == Strip(Unhyphenated(Stem(Basename(path))), IsSpace)
  {
    StripOfTrimmed("", IsSpace);
  }

  /** `Big_Buck-Bunny.mkv` picked from any directory fills in `Big Buck Bunny`. */
  lemma AutoTitleOfName(dir: string, u: string, w: string)
    requires forall i :: 0 <= i < |u| ==> IsLetter(u[i]) || NameSeparator(u[i])
    requires |u| >= 1 && IsLetter(u[0]) && IsLetter(u[|u| - 1])
    requires NoDotOrSlash(w)
    ensures AutoTitle("", dir + ("/" + (u + ("." + w)))) == Unhyphenated(u)
  {
    StemOfPath(dir, u, w);
    BlankTitleFilled(dir + ("/" + (u + ("." + w))));
    UnhyphenatedIsTrimmed(u);
  }

  // ---- Episode directories -------------------------------------------------------------

  /** `f"s{season_num:02d}e{ep_num:02d}"`. */
  function EpisodeSlug(season: int, episode: int): string {
    SeasonPrefix(season) + Pad2(episode)
  }

  /** `s{season_num:02d}e`. */
  function SeasonPrefix(season: int): string {
    "s" + Pad2(season) + "e"
  }

  lemma Pad2Value(n: nat)
    ensures AllDigits(Pad2(n)) && DigitsValue(Pad2(n)) == n
  {
    NatToStringRoundTrip(n);
    if n < 10 {
      var p := Pad2(n);
      assert p[..|p| - 1] == "0";
    }
  }

  /** Within one season, different episode numbers get different directories. */
  lemma EpisodeSlugInjective(season: int, a: nat, b: nat)
    requires EpisodeSlug(season, a) == EpisodeSlug(season, b)
    ensures a == b
  {
    var pre := SeasonPrefix(season);
    assert Pad2(a) == EpisodeSlug(season, a)[|pre|..];
    assert Pad2(b) == EpisodeSlug(season, b)[|pre|..];
    Pad2Value(a);
    Pad2Value(b);
  }
}
