/** The import side of the add dialog (ui/add_movie_dialog.py): where a new title's files
    go below the library root, the episode queue a show import works through, the
    aggregate progress shown while it runs, and the dialog's own state machine that
    starts one transcode job at a time and writes to the catalog only on success. */
module BatchImport {
  import opened Wrappers
  import opened Text
  import opened Sorting
  import opened Paths
  import opened Naming
  import opened Compression
  import opened CatalogModel

  // ---- Paths below the library root ----------------------------------------------------

  /** POSIX `os.path.join(a, b)`: an absolute `b` replaces `a`; otherwise one `/` goes
      between the two unless `a` is empty or already ends with one. */
  function PathJoin(a: string, b: string): string {
    if |b| > 0 && b[0] == '/' then b
    else if a == [] || a[|a| - 1] == '/' then a + b
    else a + ("/" + b)
  }

  /** `os.path.relpath(path, root)` for a path inside `root`: what follows `root/`. */
  function RelativeTo(path: string, root: string): string {
    if |path| > |root| && path[..|root|] == root && path[|root|] == '/' then path[|root| + 1..]
    else path
  }

  /** A library root as `get_library_root` returns it: `<drive>/library`. */
  predicate LibraryRoot(root: string) {
    |root| >= 1 && root[|root| - 1] != '/'
  }

  /** A path component that `os.path.join` puts a single `/` in front of and after. */
  predicate Component(s: string) {
    |s| >= 1 && s[0] != '/' && s[|s| - 1] != '/'
  }

  const MoviesDirName: string := "movies"

  /** `make_movie_dir(slug)`: `<root>/movies/<slug>`. */
  function TitleDir(root: string, slug: string): string {
    PathJoin(PathJoin(root, MoviesDirName), slug)
  }

  lemma JoinPlain(a: string, b: string)
    requires |a| >= 1 && a[|a| - 1] != '/' && |b| >= 1 && b[0] != '/'
    ensures PathJoin(a, b) == a + ("/" + b)
  {
  }

  /** Joining is associative on plain components, so a path built one directory at a
      time is the root joined with the whole relative path. */
  lemma JoinAssoc(a: string, b: string, c: string)
    requires |a| >= 1 && a[|a| - 1] != '/'
    requires Component(b)
    requires |c| >= 1 && c[0] != '/'
    ensures PathJoin(PathJoin(a, b), c) == PathJoin(a, PathJoin(b, c))
  {
    var ab := a + ("/" + b);
    assert ab[|ab| - 1] == b[|b| - 1];
    var bc := b + ("/" + c);
    assert bc[0] == b[0];
  }

  /** A path joined below the root is seen again, relative to the root, as what was joined. */
  lemma RelativeOfJoin(root: string, rel: string)
    requires LibraryRoot(root)
    requires |rel| >= 1 && rel[0] != '/'
    ensures RelativeTo(PathJoin(root, rel), root) == rel
  {
    var p := root + ("/" + rel);
    assert p[..|root|] == root;
    assert p[|root| + 1..] == rel;
  }

  lemma SlugIsComponent(slug: string)
    requires IsSlug(slug)
    ensures Component(slug)
  {
    assert SlugChar(slug[0]) && SlugChar(slug[|slug| - 1]);
  }

  /** `<root>/movies/<slug>/<name>` lies below the root at `movies/<slug>/<name>`. */
  lemma TitleFile(root: string, slug: string, name: string)
    requires LibraryRoot(root) && IsSlug(slug)
    requires |name| >= 1 && name[0] != '/'
    ensures PathJoin(TitleDir(root, slug), name)
      == PathJoin(root, PathJoin(MoviesDirName, PathJoin(slug, name)))
    ensures RelativeTo(PathJoin(TitleDir(root, slug), name), root)
      == PathJoin(MoviesDirName, PathJoin(slug, name))
  {
    SlugIsComponent(slug);
    JoinAssoc(root, MoviesDirName, slug);
    JoinAssoc(PathJoin(root, MoviesDirName), slug, name);
    var sn := PathJoin(slug, name);
    assert sn == slug + ("/" + name) && sn[0] == slug[0];
    JoinAssoc(root, MoviesDirName, sn);
    var rel := PathJoin(MoviesDirName, sn);
    assert rel[0] == 'm';
    RelativeOfJoin(root, rel);
  }

  // ---- The episode queue ---------------------------------------------------------------

  /** One entry of `_episode_queue`. */
  datatype QueuedEpisode = QueuedEpisode(
    source: string, dest: string, relPath: string, seasonId: int,
    episodeNumber: nat, title: string, preset: Option<Preset>)

  /** What a show import fixes before the queue is built. */
  datatype Batch = Batch(
    root: string, showSlug: string, seasonNumber: int, seasonId: int, presetKey: string)

  /** The destination's extension: the source's own under the `copy` preset, which copies
      the file unchanged, and `.mp4` for every transcode. */
  function OutputExtension(presetKey: string, source: string): string {
    if presetKey == "copy" then SplitExt(source).1 else ".mp4"
  }

  /** `os.path.join(get_movies_dir(), show_slug, ep_slug)`. */
  function EpisodeDir(b: Batch, number: nat): string {
    PathJoin(TitleDir(b.root, b.showSlug), EpisodeSlug(b.seasonNumber, number))
  }

  /** `os.path.join(ep_dir, f"episode{ext}")`. */
  function EpisodeDest(b: Batch, number: nat, source: string): string {
    PathJoin(EpisodeDir(b, number), "episode" + OutputExtension(b.presetKey, source))
  }

  /** The queue entry for the `i`-th picked file (counting from 0). */
  function QueueEntry(b: Batch, i: nat, source: string): QueuedEpisode {
    var dest := EpisodeDest(b, i + 1, source);
    QueuedEpisode(source, dest, RelativeTo(dest, b.root), b.seasonId, i + 1,
      ExtractEpisodeTitle(Basename(source)), PresetFor(b.presetKey))
  }

  /** Each item mapped together with its position. */
  function Indexed<T, U>(xs: seq<T>, f: (nat, T) -> U): (r: seq<U>)
    ensures |r| == |xs|
  {
    if xs == [] then [] else Indexed(xs[..|xs| - 1], f) + [f(|xs| - 1, xs[|xs| - 1])]
  }

  lemma IndexedSnoc<T, U>(xs: seq<T>, f: (nat, T) -> U, i: nat)
    requires i < |xs|
    ensures Indexed(xs[..i + 1], f) == Indexed(xs[..i], f) + [f(i, xs[i])]
  {
    assert xs[..i + 1][..i] == xs[..i];
  }

  /** Item `i` of the result is item `i` of the input, mapped with its position. */
  lemma {:induction false} IndexedAt<T, U>(xs: seq<T>, f: (nat, T) -> U, i: nat)
    requires i < |xs|
    ensures Indexed(xs, f)[i] == f(i, xs[i])
    decreases |xs|
  {
    var n := |xs| - 1;
    if i < n {
      IndexedAt(xs[..n], f, i);
    }
  }

  function EntryOf(b: Batch): (nat, string) -> QueuedEpisode {
    (i: nat, source: string) => QueueEntry(b, i, source)
  }

  /** The queue `_start_show_add` builds from the picked files, in their order. */
  function QueueOf(b: Batch, paths: seq<string>): (q: seq<QueuedEpisode>)
    ensures |q| == |paths|
  {
    Indexed(paths, EntryOf(b))
  }

  /** The `i`-th file becomes episode `i + 1`, read from that file, titled from its name,
      with the batch's season and preset. */
  lemma QueueNumbering(b: Batch, paths: seq<string>, i: int)
    requires 0 <= i < |paths|
    ensures var e := QueueOf(b, paths)[i];
      && e.episodeNumber == i + 1 && e.source == paths[i]
      && e.seasonId == b.seasonId && e.preset == PresetFor(b.presetKey)
      && e.dest == EpisodeDest(b, i + 1, paths[i])
      && e.title == ExtractEpisodeTitle(Basename(paths[i])) && TidyTitle(e.title)
  {
    IndexedAt(paths, EntryOf(b), i);
    ExtractedTitleIsTidy(Basename(paths[i]));
  }

  lemma EpisodeSlugIsComponent(season: int, number: nat)
    ensures Component(EpisodeSlug(season, number))
    ensures EpisodeSlug(season, number)[0] == 's'
  {
    var e := EpisodeSlug(season, number);
    var p := Pad2(number);
    Pad2Digits(number);
    assert e[|e| - 1] == p[|p| - 1];
  }

  /** Every destination is `<root>/<rel>`, and what `relpath` records for it is `rel`,
      namely `movies/<show>/sNNeMM/episode<ext>`. */
  lemma QueueDestination(b: Batch, i: nat, source: string)
    requires LibraryRoot(b.root) && IsSlug(b.showSlug)
    ensures var d := EpisodeDest(b, i + 1, source);
      var name := "episode" + OutputExtension(b.presetKey, source);
      var rel := PathJoin(MoviesDirName, PathJoin(b.showSlug, PathJoin(EpisodeSlug(b.seasonNumber, i + 1), name)));
      d == PathJoin(b.root, rel) && RelativeTo(d, b.root) == rel
  {
    var name := "episode" + OutputExtension(b.presetKey, source);
    var ep := EpisodeSlug(b.seasonNumber, i + 1);
    EpisodeSlugIsComponent(b.seasonNumber, i + 1);
    TitleDirShape(b.root, b.showSlug);
    JoinAssoc(TitleDir(b.root, b.showSlug), ep, name);
    var en := PathJoin(ep, name);
    assert en == ep + ("/" + name) && en[0] == 's';
    TitleFile(b.root, b.showSlug, en);
  }

  /** `<root>/movies/<slug>` ends in the slug, never in a `/`. */
  lemma TitleDirShape(root: string, slug: string)
    requires LibraryRoot(root) && IsSlug(slug)
    ensures var d := TitleDir(root, slug); |d| >= 1 && d[|d| - 1] != '/'
  {
    SlugIsComponent(slug);
    TitleDirEnds(root, slug);
  }

  lemma JoinDistinct(dir: string, x: string, y: string)
    requires |dir| >= 1 && dir[|dir| - 1] != '/'
    requires Component(x) && Component(y) && x != y
    ensures PathJoin(dir, x) != PathJoin(dir, y)
  {
    var pre := dir + "/";
    assert PathJoin(dir, x) == pre + x;
    assert PathJoin(dir, y) == pre + y;
    assert x == (pre + x)[|pre|..];
    assert y == (pre + y)[|pre|..];
  }

  /** Two different episode numbers of one season name different directories under the
      same parent. */
  lemma EpisodeDirsDistinct(dir: string, season: int, a: nat, c: nat)
    requires |dir| >= 1 && dir[|dir| - 1] != '/'
    requires a != c
    ensures PathJoin(dir, EpisodeSlug(season, a)) != PathJoin(dir, EpisodeSlug(season, c))
  {
    var x, y := EpisodeSlug(season, a), EpisodeSlug(season, c);
    EpisodeSlugIsComponent(season, a);
    EpisodeSlugIsComponent(season, c);
    if x == y {
      EpisodeSlugInjective(season, a, c);
    }
    JoinDistinct(dir, x, y);
  }

  /** Different episodes of a batch get different directories. */
  lemma QueueDirsDistinct(b: Batch, i: nat, j: nat)
    requires LibraryRoot(b.root) && IsSlug(b.showSlug)
    requires i != j
    ensures EpisodeDir(b, i + 1) != EpisodeDir(b, j + 1)
  {
    SlugIsComponent(b.showSlug);
    EpisodeDirsApart(b, i, j);
  }

  lemma EpisodeDirsApart(b: Batch, i: nat, j: nat)
    requires LibraryRoot(b.root) && Component(b.showSlug)
    requires i != j
    ensures EpisodeDir(b, i + 1) != EpisodeDir(b, j + 1)
  {
    TitleDirEnds(b.root, b.showSlug);
    EpisodeDirsDistinct(TitleDir(b.root, b.showSlug), b.seasonNumber, i + 1, j + 1);
  }

  lemma TitleDirEnds(root: string, slug: string)
    requires LibraryRoot(root) && Component(slug)
    ensures var d := TitleDir(root, slug); |d| >= 1 && d[|d| - 1] != '/'
  {
    var d := TitleDir(root, slug);
    assert d == PathJoin(root, MoviesDirName) + ("/" + slug);
    assert d[|d| - 1] == slug[|slug| - 1];
  }

  lemma JoinEndsWith(dir: string, name: string, ext: string)
    requires |name| >= 1 && name[0] != '/'
    requires |ext| < |name| && name[|name| - |ext|..] == ext
    ensures var p := PathJoin(dir, name); |ext| < |p| && p[|p| - |ext|..] == ext
  {
    var p := PathJoin(dir, name);
    if p == dir + name {
      assert p[|p| - |ext|..] == name[|name| - |ext|..];
    } else {
      assert p == (dir + "/") + name;
      assert p[|p| - |ext|..] == name[|name| - |ext|..];
    }
  }

  /** The destination ends in the source's own extension only under `copy`. */
  lemma QueueExtension(b: Batch, i: nat, source: string)
    ensures var dest := EpisodeDest(b, i + 1, source);
      var ext := if b.presetKey == "copy" then SplitExt(source).1 else ".mp4";
      |ext| < |dest| && dest[|dest| - |ext|..] == ext
  {
    EpisodeFileEnds(EpisodeDir(b, i + 1), OutputExtension(b.presetKey, source));
  }

  lemma EpisodeFileEnds(dir: string, ext: string)
    ensures var p := PathJoin(dir, "episode" + ext); |ext| < |p| && p[|p| - |ext|..] == ext
  {
    EpisodeNameEnds(ext);
    JoinEndsWith(dir, "episode" + ext, ext);
  }

  lemma EpisodeNameEnds(ext: string)
    ensures var name := "episode" + ext;
      name[0] != '/' && |ext| < |name| && name[|name| - |ext|..] == ext
  {
    var name := "episode" + ext;
    assert name[|name| - |ext|..] == ext;
  }

  // ---- Keeping the items whose step succeeded ------------------------------------------

  /** The items whose flag is set, each mapped together with its position, in order. */
  function Flagged<T, U>(xs: seq<T>, ok: seq<bool>, f: (nat, T) -> U): (r: seq<U>)
    requires |xs| == |ok|
    ensures |r| <= |xs|
  {
    if xs == [] then []
    else
      Flagged(xs[..|xs| - 1], ok[..|ok| - 1], f)
      + (if ok[|ok| - 1] then [f(|xs| - 1, xs[|xs| - 1])] else [])
  }

  /** Extending both lists by one item extends the kept images by that item's image
      when its flag is set. */
  lemma FlaggedStep<T, U>(xs: seq<T>, ok: seq<bool>, f: (nat, T) -> U, i: nat)
    requires |xs| == |ok| && i < |xs|
    ensures Flagged(xs[..i + 1], ok[..i + 1], f)
      == Flagged(xs[..i], ok[..i], f) + (if ok[i] then [f(i, xs[i])] else [])
  {
    assert xs[..i + 1][..i] == xs[..i];
    assert ok[..i + 1][..i] == ok[..i];
  }

  /** Something is kept exactly when it is the image of an item whose flag is set. */
  lemma {:induction false} FlaggedMembers<T, U>(xs: seq<T>, ok: seq<bool>, f: (nat, T) -> U, u: U)
    requires |xs| == |ok|
    ensures u in Flagged(xs, ok, f) <==> exists k :: 0 <= k < |xs| && ok[k] && u == f(k, xs[k])
    decreases |xs|
  {
    if xs != [] {
      var n := |xs| - 1;
      FlaggedMembers(xs[..n], ok[..n], f, u);
      if u in Flagged(xs[..n], ok[..n], f) {
        var k :| 0 <= k < n && ok[..n][k] && u == f(k, xs[..n][k]);
        assert ok[k] && u == f(k, xs[k]);
      }
      if exists k :: 0 <= k < |xs| && ok[k] && u == f(k, xs[k]) {
        var k :| 0 <= k < |xs| && ok[k] && u == f(k, xs[k]);
        if k < n {
          assert ok[..n][k] && xs[..n][k] == xs[k];
        }
      }
    }
  }

  /** One item is kept per set flag. */
  lemma {:induction false} FlaggedCount<T, U>(xs: seq<T>, ok: seq<bool>, f: (nat, T) -> U)
    requires |xs| == |ok|
    ensures |Flagged(xs, ok, f)| == multiset(ok)[true]
    decreases |xs|
  {
    if xs != [] {
      var n := |xs| - 1;
      FlaggedCount(xs[..n], ok[..n], f);
      assert ok == ok[..n] + [ok[n]];
    }
  }

  // ---- Commits of a batch --------------------------------------------------------------

  /** A catalog write the dialog makes. */
  datatype CatalogCall =
    | AddShow(title: string, thumbPath: string)
    | AddSeason(showId: int, seasonNumber: int)
    | AddEpisode(seasonId: int, episodeNumber: int, title: string, moviePath: string)
    | AddMovie(title: string, moviePath: string, thumbPath: string, entries: seq<SubtitleEntry>)

  /** `db.add_episode(...)` for a finished queue entry. */
  function EpisodeWrite(e: QueuedEpisode): CatalogCall {
    AddEpisode(e.seasonId, e.episodeNumber, e.title, e.relPath)
  }

  /** The episodes written for the processed part of a queue, given each job's outcome:
      one row per success, in queue order. */
  function Commits(q: seq<QueuedEpisode>, outcomes: seq<bool>): (r: seq<CatalogCall>)
    requires |q| == |outcomes|
    ensures |r| <= |q|
  {
    if q == [] then []
    else
      Commits(q[..|q| - 1], outcomes[..|q| - 1])
      + (if outcomes[|q| - 1] then [EpisodeWrite(q[|q| - 1])] else [])
  }

  /** A row is written exactly when it is the row of an entry whose job succeeded. */
  lemma {:induction false} CommitMembers(q: seq<QueuedEpisode>, outcomes: seq<bool>, c: CatalogCall)
    requires |q| == |outcomes|
    ensures c in Commits(q, outcomes) <==>
      exists k :: 0 <= k < |q| && outcomes[k] && c == EpisodeWrite(q[k])
    decreases |q|
  {
    if q != [] {
      var n := |q| - 1;
      CommitMembers(q[..n], outcomes[..n], c);
      if c in Commits(q[..n], outcomes[..n]) {
        var k :| 0 <= k < n && outcomes[..n][k] && c == EpisodeWrite(q[..n][k]);
        assert outcomes[k] && c == EpisodeWrite(q[k]);
      }
      if exists k :: 0 <= k < |q| && outcomes[k] && c == EpisodeWrite(q[k]) {
        var k :| 0 <= k < |q| && outcomes[k] && c == EpisodeWrite(q[k]);
        if k < n {
          assert outcomes[..n][k] && q[..n][k] == q[k];
        }
      }
    }
  }

  /** One row per successful job. */
  lemma {:induction false} CommitCount(q: seq<QueuedEpisode>, outcomes: seq<bool>)
    requires |q| == |outcomes|
    ensures |Commits(q, outcomes)| == multiset(outcomes)[true]
    decreases |q|
  {
    if q != [] {
      var n := |q| - 1;
      CommitCount(q[..n], outcomes[..n]);
      assert outcomes == outcomes[..n] + [outcomes[n]];
    }
  }

  /** The `i`-th entry of the queue carries episode number `i + 1`. */
  predicate Numbered(q: seq<QueuedEpisode>) {
    forall i :: 0 <= i < |q| ==> q[i].episodeNumber == i + 1
  }

  lemma QueueIsNumbered(b: Batch, paths: seq<string>)
    ensures Numbered(QueueOf(b, paths))
  {
    forall i | 0 <= i < |paths| ensures QueueOf(b, paths)[i].episodeNumber == i + 1 {
      IndexedAt(paths, EntryOf(b), i);
    }
  }

  /** Episode `k + 1` of a batch is in the catalog exactly when its job succeeded: a
      failed file leaves a gap in the numbering instead of renumbering the rest, and
      one row is written per success. */
  lemma CommittedExactly(q: seq<QueuedEpisode>, outcomes: seq<bool>, k: int)
    requires |q| == |outcomes| && 0 <= k < |q| && Numbered(q)
    ensures outcomes[k] <==>
      exists c :: c in Commits(q, outcomes) && c.AddEpisode? && c.episodeNumber == k + 1
    ensures outcomes[k] ==> EpisodeWrite(q[k]) in Commits(q, outcomes)
    ensures |Commits(q, outcomes)| == multiset(outcomes)[true]
  {
    CommitCount(q, outcomes);
    CommitMembers(q, outcomes, EpisodeWrite(q[k]));
    if c :| c in Commits(q, outcomes) && c.AddEpisode? && c.episodeNumber == k + 1 {
      CommitMembers(q, outcomes, c);
      var j :| 0 <= j < |q| && outcomes[j] && c == EpisodeWrite(q[j]);
      assert q[j].episodeNumber == j + 1;
    }
  }

  /** Every write is an episode row, and rows are written in queue order: episode
      numbers strictly increase. */
  lemma {:induction false} CommitsInOrder(q: seq<QueuedEpisode>, outcomes: seq<bool>, x: int, y: int)
    requires |q| == |outcomes| && Numbered(q)
    requires 0 <= x < y < |Commits(q, outcomes)|
    ensures var cs := Commits(q, outcomes);
      cs[x].AddEpisode? && cs[y].AddEpisode? && cs[x].episodeNumber < cs[y].episodeNumber
    decreases |q|
  {
    var n := |q| - 1;
    var cs := Commits(q, outcomes);
    var prev := Commits(q[..n], outcomes[..n]);
    assert Numbered(q[..n]);
    CommitMembers(q[..n], outcomes[..n], prev[x]);
    var j :| 0 <= j < n && outcomes[..n][j] && prev[x] == EpisodeWrite(q[..n][j]);
    assert cs[x] == prev[x];
    if y < |prev| {
      CommitsInOrder(q[..n], outcomes[..n], x, y);
    } else {
      assert cs[y] == EpisodeWrite(q[n]);
    }
  }

  // ---- Aggregate progress --------------------------------------------------------------

  /** `((index + percent / 100) / total) * 100`. */
  function Overall(index: nat, percent: real, total: nat): real
    requires total > 0
  {
    ((index as real + percent / 100.0) / total as real) * 100.0
  }

  /** Python's `int(x)`: truncation toward zero. */
  function IntOf(x: real): int {
    if x >= 0.0 then x.Floor else -((-x).Floor)
  }

  lemma OverallForm(index: nat, percent: real, total: nat)
    requires total > 0
    ensures Overall(index, percent, total) == (100.0 * index as real + percent) / total as real
  {
  }

  lemma DivideMonotone(x: real, y: real, t: real)
    requires t > 0.0 && x <= y
    ensures x / t <= y / t
  {
  }

  /** While item `index` runs from 0% to 100%, the bar stays between the share of the
      items before it and the share including it. */
  lemma OverallBounds(index: nat, percent: real, total: nat)
    requires total > 0 && 0.0 <= percent <= 100.0
    ensures 100.0 * index as real / total as real <= Overall(index, percent, total)
    ensures Overall(index, percent, total) <= 100.0 * (index + 1) as real / total as real
  {
    OverallForm(index, percent, total);
    DivideMonotone(100.0 * index as real, 100.0 * index as real + percent, total as real);
    DivideMonotone(100.0 * index as real + percent, 100.0 * (index + 1) as real, total as real);
  }

  /** Progress never goes back: later items, or more of the same item, show at least as much. */
  lemma OverallMonotone(i: nat, p: real, j: nat, q: real, total: nat)
    requires total > 0 && 0.0 <= p <= 100.0 && 0.0 <= q <= 100.0
    requires i < j || (i == j && p <= q)
    ensures Overall(i, p, total) <= Overall(j, q, total)
  {
    OverallForm(i, p, total);
    OverallForm(j, q, total);
    DivideMonotone(100.0 * i as real + p, 100.0 * j as real + q, total as real);
  }

  /** The value set on the bar is a whole percentage within 0..100 for every item of the
      batch, and it does not go back either. */
  lemma BarValue(i: nat, p: real, j: nat, q: real, total: nat)
    requires 0 <= i < total && 0.0 <= p <= 100.0 && 0.0 <= q <= 100.0
    requires i < j < total || (i == j && p <= q)
    ensures 0 <= IntOf(Overall(i, p, total)) <= 100
    ensures IntOf(Overall(i, p, total)) <= IntOf(Overall(j, q, total))
  {
    OverallBounds(i, p, total);
    OverallMonotone(i, p, j, q, total);
    OverallForm(j, q, total);
    DivideMonotone(100.0 * (i + 1) as real, 100.0 * total as real, total as real);
  }

  // ---- Subtitle files of a movie ---------------------------------------------------------

  /** The entry recorded for the `i`-th picked subtitle file once it has been copied into
      the movie's directory as `subtitle_<i><ext>`: labelled with the file's own name
      without extension, not embedded, track 0. */
  function SubtitleCopy(root: string, movieDir: string): (nat, string) -> SubtitleEntry {
    (i: nat, path: string) =>
      SubtitleEntry(
        Some(RelativeTo(PathJoin(movieDir, "subtitle_" + NatToString(i) + SplitExt(path).1), root)),
        Some(Stem(Basename(path))), Some(false), Some(0))
  }

  /** The copy of subtitle file `i` is recorded at `movies/<slug>/subtitle_<i><ext>`. */
  lemma SubtitleCopyPath(root: string, slug: string, i: nat, path: string)
    requires LibraryRoot(root) && IsSlug(slug)
    ensures SubtitleCopy(root, TitleDir(root, slug))(i, path).subPath
      == Some(PathJoin(MoviesDirName, PathJoin(slug, "subtitle_" + NatToString(i) + SplitExt(path).1)))
  {
    var name := "subtitle_" + NatToString(i) + SplitExt(path).1;
    assert name[0] == 's';
    TitleFile(root, slug, name);
  }

  /** Every subtitle file whose copy succeeded is recorded, and nothing else: one entry
      per successful copy. */
  lemma CopiedSubtitles(root: string, dir: string, paths: seq<string>, copied: seq<bool>, k: nat)
    requires |paths| == |copied| && k < |paths|
    ensures var entries := Flagged(paths, copied, SubtitleCopy(root, dir));
      && |entries| == multiset(copied)[true]
      && (copied[k] ==> SubtitleCopy(root, dir)(k, paths[k]) in entries)
      && (forall e :: e in entries ==> e.isEmbedded == Some(false) && e.trackIndex == Some(0))
  {
    var copy := SubtitleCopy(root, dir);
    FlaggedCount(paths, copied, copy);
    FlaggedMembers(paths, copied, copy, copy(k, paths[k]));
    forall e: SubtitleEntry | e in Flagged(paths, copied, copy)
      ensures e.isEmbedded == Some(false) && e.trackIndex == Some(0)
    {
      FlaggedMembers(paths, copied, copy, e);
    }
  }

  // ---- Checks before an import starts ----------------------------------------------------

  /** `_validate_movie`: the warning shown, or None when the movie import may start. */
  function MovieProblem(title: string, moviePath: string, movieExists: bool,
                        thumbPath: string, thumbExists: bool): Option<string> {
    if Strip(title, IsSpace) == [] then Some("Please enter a movie title.")
    else if moviePath == [] || !movieExists then Some("Please select a valid movie file.")
    else if thumbPath == [] || !thumbExists then Some("Please select a poster/thumbnail image.")
    else None
  }

  /** `_validate_show`: a new show (nothing picked in the show selector) needs a name and
      a poster; every show import needs at least one episode file. */
  function ShowProblem(selected: Option<(int, string)>, showTitle: string, thumbPath: string,
                       thumbExists: bool, episodePaths: seq<string>): Option<string> {
    if selected.None? && Strip(showTitle, IsSpace) == [] then Some("Please enter a show name.")
    else if selected.None? && (thumbPath == [] || !thumbExists) then
      Some("Please select a poster image for the new show.")
    else if episodePaths == [] then Some("Please select at least one episode file.")
    else None
  }

  /** A movie import starts exactly when the title is not blank and both files were picked
      and exist. */
  lemma MovieProblemIff(title: string, moviePath: string, movieExists: bool, thumbPath: string, thumbExists: bool)
    ensures MovieProblem(title, moviePath, movieExists, thumbPath, thumbExists).None? <==>
      Strip(title, IsSpace) != [] && moviePath != [] && movieExists && thumbPath != [] && thumbExists
  {
  }

  /** A show import starts exactly when there are episode files and, for a new show, a
      name that is not blank and an existing poster. */
  lemma ShowProblemIff(selected: Option<(int, string)>, showTitle: string, thumbPath: string,
                       thumbExists: bool, episodePaths: seq<string>)
    ensures ShowProblem(selected, showTitle, thumbPath, thumbExists, episodePaths).None? <==>
      && episodePaths != []
      && (selected.None? ==> Strip(showTitle, IsSpace) != [] && thumbPath != [] && thumbExists)
  {
  }

  // ---- The dialog ------------------------------------------------------------------------

  /** A transcode (or copy) job: source file, destination and the preset looked up. */
  datatype Job = Job(source: string, dest: string, preset: Option<Preset>)

  function JobOf(e: QueuedEpisode): Job {
    Job(e.source, e.dest, e.preset)
  }

  /** `_pending_data`: what is written to the catalog once the running job succeeds. */
  datatype Pending =
    | NothingPending
    | MoviePending(title: string, relMovie: string, relThumb: string,
                   entries: seq<SubtitleEntry>, movieDir: string)
    | ShowPending(showId: int)

  /** The `movie_added` and `show_added` signals. */
  datatype Added = MovieAdded(movieId: int) | ShowAdded(showId: int)

  /** How the dialog was closed, if it was. */
  datatype Closing = Open | Accepted | Rejected

  /** The widget values an import reads when Add is pressed. */
  datatype Form = Form(
    showMode: bool, title: string, selected: Option<(int, string)>, showTitle: string,
    seasonNumber: int, presetKey: string, embeddedChecked: bool)

  /** What the filesystem and the catalog answer while an import starts: the library root,
      whether the picked files exist, the error of the poster or thumbnail copy (None when
      it succeeds), which subtitle copies succeed, and the ids the catalog hands out. */
  datatype World = World(
    root: string, movieExists: bool, thumbExists: bool, copyError: Option<string>,
    subtitleCopied: seq<bool>, newShowId: int, newSeasonId: int)

  /** The files picked with the browse buttons. */
  datatype Picks = Picks(
    moviePath: string, thumbPath: string, subtitlePaths: seq<string>,
    embeddedSubs: seq<SubtitleEntry>, episodePaths: seq<string>)

  /** What the dialog has done outside itself, in order: the jobs it started and the ones
      it cancelled, its catalog writes, the message boxes it showed, the directories it
      removed, the progress bar's value, the signals it emitted and how it was closed. */
  datatype Effects = Effects(
    jobs: seq<Job>, cancelled: seq<Job>, calls: seq<CatalogCall>, messages: seq<string>,
    removedDirs: seq<string>, progress: int, announced: seq<Added>, closing: Closing)

  /** Bookkeeping for the proofs: the outcome of each finished job of the running show
      import, and where that import's episode writes begin in `calls`. */
  datatype Track = Track(outcomes: seq<bool>, batchStart: nat)

  /** The warning shown when an episode's job fails. */
  function EpisodeFailure(index: nat, message: string): string {
    "Episode " + NatToString(index + 1) + " failed:\n" + message + "\n\nSkipping..."
  }

  /** The show title an import uses: the trimmed name typed for a new show, or the
      selector's text for an existing one. */
  function ShowTitleOf(f: Form): string {
    if f.selected.None? then Strip(f.showTitle, IsSpace) else f.selected.value.1
  }

  function ShowIdOf(f: Form, w: World): int {
    if f.selected.None? then w.newShowId else f.selected.value.0
  }

  /** `os.path.join(show_dir, f"poster{thumb_ext}")`, relative to the root. */
  function PosterRel(root: string, slug: string, thumbPath: string): string {
    RelativeTo(PathJoin(TitleDir(root, slug), "poster" + SplitExt(thumbPath).1), root)
  }

  /** The catalog writes before the queue is built: the new show, if any, then the season. */
  function SetupCalls(f: Form, w: World, thumbPath: string): seq<CatalogCall> {
    var title := ShowTitleOf(f);
    (if f.selected.None? then [AddShow(title, PosterRel(w.root, Slugify(title), thumbPath))] else [])
    + [AddSeason(ShowIdOf(f, w), f.seasonNumber)]
  }

  function BatchOf(f: Form, w: World): Batch {
    Batch(w.root, Slugify(ShowTitleOf(f)), f.seasonNumber, w.newSeasonId, f.presetKey)
  }

  /** The movie import's `_pending_data`. */
  function MoviePendingOf(f: Form, w: World, p: Picks, entries: seq<SubtitleEntry>): Pending {
    var title := Strip(f.title, IsSpace);
    var dir := TitleDir(w.root, Slugify(title));
    MoviePending(title,
      RelativeTo(PathJoin(dir, "movie" + OutputExtension(f.presetKey, p.moviePath)), w.root),
      RelativeTo(PathJoin(dir, "thumbnail" + SplitExt(p.thumbPath).1), w.root),
      entries, dir)
  }

  /** The subtitle rows of a movie import: the copied external files, numbered by their
      place among the picks, then the embedded streams when they are to be kept. */
  function MovieEntriesOf(f: Form, w: World, p: Picks): seq<SubtitleEntry>
    requires |w.subtitleCopied| == |p.subtitlePaths|
  {
    Flagged(p.subtitlePaths, w.subtitleCopied, SubtitleCopy(w.root, TitleDir(w.root, Slugify(Strip(f.title, IsSpace)))))
      + (if f.embeddedChecked then p.embeddedSubs else [])
  }

  function MovieJobOf(f: Form, w: World, p: Picks): Job {
    var dir := TitleDir(w.root, Slugify(Strip(f.title, IsSpace)));
    Job(p.moviePath, PathJoin(dir, "movie" + OutputExtension(f.presetKey, p.moviePath)), PresetFor(f.presetKey))
  }

  /** `AddMovieDialog`'s import state. The catalog is not held here: its writes are kept
      in `out.calls`, in order, and the ids it returns come in with the `World`. */
  class AddDialog {
    /** `_movie_path`, `_thumb_path`, `_subtitle_paths`, `_embedded_subs`, `_episode_paths`. */
    var picks: Picks
    var isProcessing: bool
    /** `_compression_thread`: the last job started, until a cancel drops it. */
    var thread: Option<Job>
    var queue: seq<QueuedEpisode>
    var currentIndex: nat
    var pending: Pending
    var out: Effects
    ghost var track: Track

    /** A show import has written exactly the episodes whose jobs succeeded, for the
        queue entries before the current one. */
    ghost predicate Valid()
      reads this`queue, this`currentIndex, this`pending, this`out, this`track
    {
      pending.ShowPending? ==>
        && currentIndex <= |queue| && |track.outcomes| == currentIndex && Numbered(queue)
        && track.batchStart <= |out.calls|
        && out.calls[track.batchStart..] == Commits(queue[..currentIndex], track.outcomes)
    }

    constructor()
      ensures Valid() && picks == Picks("", "", [], [], [])
      ensures !isProcessing && thread == None && queue == [] && currentIndex == 0
      ensures pending == NothingPending && out == Effects([], [], [], [], [], 0, [], Open)
    {
      picks := Picks("", "", [], [], []);
      isProcessing, thread, queue, currentIndex, pending := false, None, [], 0, NothingPending;
      out := Effects([], [], [], [], [], 0, [], Open);
      track := Track([], 0);
    }

    // ---- Browse handlers ----

    /** `_browse_movie`: remembers the file, fills in a blank title from its name and,
        when asked to, reads the embedded subtitle tracks from ffmpeg's banner `probe`. */
    method BrowseMovie(path: string, title: string, embeddedChecked: bool, probe: string)
      returns (newTitle: string)
      modifies this`picks
      ensures path == [] ==> picks == old(picks) && newTitle == title
      ensures path != [] ==>
        && picks == old(picks).(moviePath := path,
             embeddedSubs := if embeddedChecked then EmbeddedSubtitles(probe) else old(picks.embeddedSubs))
        && newTitle == AutoTitle(title, path)
    {
      newTitle := title;
      if path != [] {
        picks := picks.(moviePath := path);
        newTitle := AutoTitle(title, path);
        if embeddedChecked {
          picks := picks.(embeddedSubs := EmbeddedSubtitles(probe));
        }
      }
    }

    /** `_browse_thumbnail` and `_browse_show_thumbnail`. */
    method BrowseThumbnail(path: string)
      modifies this`picks
      ensures picks == if path == [] then old(picks) else old(picks).(thumbPath := path)
    {
      if path != [] {
        picks := picks.(thumbPath := path);
      }
    }

    /** `_browse_subtitles`: a new pick replaces the old one. */
    method BrowseSubtitles(paths: seq<string>)
      modifies this`picks
      ensures picks == if paths == [] then old(picks) else old(picks).(subtitlePaths := paths)
    {
      if paths != [] {
        picks := picks.(subtitlePaths := paths);
      }
    }

    /** `_browse_episodes`: the picked files, in natural order of their names, go after
        the ones already listed. */
    method BrowseEpisodes(paths: seq<string>)
      modifies this`picks
      ensures picks == old(picks).(episodePaths := picks.episodePaths)
      ensures paths == [] ==> picks == old(picks)
      ensures paths != [] ==>
        && picks.episodePaths == old(picks.episodePaths) + EpisodeOrder(paths)
        && multiset(picks.episodePaths[|old(picks.episodePaths)|..]) == multiset(paths)
        && Sorted(picks.episodePaths[|old(picks.episodePaths)|..], ByNaturalName())
    {
      if paths != [] {
        var ordered := EpisodeOrder(paths);
        EpisodeOrderSorted(paths);
        picks := picks.(episodePaths := picks.episodePaths + ordered);
        assert picks.episodePaths[|old(picks.episodePaths)|..] == ordered;
      }
    }

    /** `_clear_episodes`. */
    method ClearEpisodes()
      modifies this`picks
      ensures picks == old(picks).(episodePaths := [])
    {
      picks := picks.(episodePaths := []);
    }

    // ---- Starting an import ----

    /** `_on_add`: nothing happens while an import is running; otherwise the form is
        checked and, when it passes, the show or movie import starts. */
    method OnAdd(f: Form, w: World)
      requires Valid()
      requires |w.subtitleCopied| == |picks.subtitlePaths|
      modifies this`isProcessing, this`thread, this`queue, this`currentIndex, this`pending
      modifies this`out, this`track
      ensures Valid()
      ensures old(isProcessing) ==>
        && isProcessing && thread == old(thread) && queue == old(queue)
        && currentIndex == old(currentIndex) && pending == old(pending)
        && out == old(out) && track == old(track)
      ensures !old(isProcessing) && f.showMode ==>
        var problem := ShowProblem(f.selected, f.showTitle, old(picks).thumbPath, w.thumbExists, old(picks).episodePaths);
        && (problem.Some? ==>
              && !isProcessing && thread == old(thread) && queue == old(queue) && pending == old(pending)
              && out == old(out).(messages := old(out.messages) + [problem.value]) && track == old(track))
        && (problem.None? && f.selected.None? && w.copyError.Some? ==>
              && !isProcessing && thread == old(thread) && queue == old(queue) && pending == old(pending)
              && track == old(track)
              && out == old(out).(progress := 0,
                   messages := old(out.messages) + ["Failed to copy poster: " + w.copyError.value]))
        && (problem.None? && (f.selected.Some? || w.copyError.None?) ==>
              && isProcessing && pending == ShowPending(ShowIdOf(f, w)) && currentIndex == 0
              && queue == QueueOf(BatchOf(f, w), old(picks).episodePaths)
              && out.calls == old(out.calls) + SetupCalls(f, w, old(picks).thumbPath)
              && out.messages == old(out.messages) && out.cancelled == old(out.cancelled)
              && out.removedDirs == old(out.removedDirs)
              && (queue != [] ==>
                    && thread == Some(JobOf(queue[0])) && out.jobs == old(out.jobs) + [JobOf(queue[0])]
                    && out.progress == old(out.progress) && out.announced == old(out.announced)
                    && out.closing == old(out.closing))
              && (queue == [] ==>
                    && thread == old(thread) && out.jobs == old(out.jobs) && out.progress == 100
                    && out.announced == old(out.announced) + [ShowAdded(ShowIdOf(f, w))]
                    && out.closing == Accepted))
      ensures !old(isProcessing) && !f.showMode ==>
        var problem := MovieProblem(f.title, old(picks).moviePath, w.movieExists, old(picks).thumbPath, w.thumbExists);
        && (problem.Some? ==>
              && !isProcessing && thread == old(thread) && queue == old(queue) && pending == old(pending)
              && out == old(out).(messages := old(out.messages) + [problem.value]) && track == old(track))
        && (problem.None? && w.copyError.Some? ==>
              && !isProcessing && thread == old(thread) && queue == old(queue) && pending == old(pending)
              && track == old(track)
              && out == old(out).(progress := 0,
                   messages := old(out.messages) + ["Failed to copy thumbnail: " + w.copyError.value]))
        && (problem.None? && w.copyError.None? ==>
              var job := MovieJobOf(f, w, old(picks));
              && isProcessing && pending == MoviePendingOf(f, w, old(picks), MovieEntriesOf(f, w, old(picks)))
              && thread == Some(job)
              && queue == old(queue) && track == old(track)
              && out == old(out).(jobs := old(out.jobs) + [job]))
    {
      if isProcessing {
        return;
      }
      if f.showMode {
        CheckAndStartShow(f, w);
      } else {
        CheckAndStartMovie(f, w);
      }
    }

    /** The show branch of `_on_add`: the show form is checked, then the import starts. */
    method CheckAndStartShow(f: Form, w: World)
      requires Valid() && !isProcessing
      modifies this`isProcessing, this`thread, this`queue, this`currentIndex, this`pending
      modifies this`out, this`track
      ensures Valid()
      ensures
        var problem := ShowProblem(f.selected, f.showTitle, old(picks).thumbPath, w.thumbExists, old(picks).episodePaths);
        && (problem.Some? ==>
              && !isProcessing && thread == old(thread) && queue == old(queue) && pending == old(pending)
              && out == old(out).(messages := old(out.messages) + [problem.value]) && track == old(track))
        && (problem.None? && f.selected.None? && w.copyError.Some? ==>
              && !isProcessing && thread == old(thread) && queue == old(queue) && pending == old(pending)
              && track == old(track)
              && out == old(out).(progress := 0,
                   messages := old(out.messages) + ["Failed to copy poster: " + w.copyError.value]))
        && (problem.None? && (f.selected.Some? || w.copyError.None?) ==>
              && isProcessing && pending == ShowPending(ShowIdOf(f, w)) && currentIndex == 0
              && queue == QueueOf(BatchOf(f, w), old(picks).episodePaths)
              && out.calls == old(out.calls) + SetupCalls(f, w, old(picks).thumbPath)
              && out.messages == old(out.messages) && out.cancelled == old(out.cancelled)
              && out.removedDirs == old(out.removedDirs)
              && (queue != [] ==>
                    && thread == Some(JobOf(queue[0])) && out.jobs == old(out.jobs) + [JobOf(queue[0])]
                    && out.progress == old(out.progress) && out.announced == old(out.announced)
                    && out.closing == old(out.closing))
              && (queue == [] ==>
                    && thread == old(thread) && out.jobs == old(out.jobs) && out.progress == 100
                    && out.announced == old(out.announced) + [ShowAdded(ShowIdOf(f, w))]
                    && out.closing == Accepted))
    {
      var problem := ShowProblem(f.selected, f.showTitle, picks.thumbPath, w.thumbExists, picks.episodePaths);
      if problem.Some? {
        out := out.(messages := out.messages + [problem.value]);
        return;
      }
      StartShowAdd(f, w);
    }

    /** The movie branch of `_on_add`: the movie form is checked, then the import starts. */
    method CheckAndStartMovie(f: Form, w: World)
      requires Valid() && !isProcessing
      requires |w.subtitleCopied| == |picks.subtitlePaths|
      modifies this`isProcessing, this`thread, this`pending, this`out
      ensures Valid()
      ensures
        var problem := MovieProblem(f.title, old(picks).moviePath, w.movieExists, old(picks).thumbPath, w.thumbExists);
        && (problem.Some? ==>
              && !isProcessing && thread == old(thread) && pending == old(pending)
              && out == old(out).(messages := old(out.messages) + [problem.value]))
        && (problem.None? && w.copyError.Some? ==>
              && !isProcessing && thread == old(thread) && pending == old(pending)
              && out == old(out).(progress := 0,
                   messages := old(out.messages) + ["Failed to copy thumbnail: " + w.copyError.value]))
        && (problem.None? && w.copyError.None? ==>
              var job := MovieJobOf(f, w, old(picks));
              && isProcessing && pending == MoviePendingOf(f, w, old(picks), MovieEntriesOf(f, w, old(picks)))
              && thread == Some(job)
              && out == old(out).(jobs := old(out.jobs) + [job]))
    {
      var problem := MovieProblem(f.title, picks.moviePath, w.movieExists, picks.thumbPath, w.thumbExists);
      if problem.Some? {
        out := out.(messages := out.messages + [problem.value]);
        return;
      }
      StartMovieAdd(f, w);
    }

    /** `_start_movie_add`: the thumbnail is copied first (a failure ends the import), then
        the subtitle files, and the movie's job is started; the catalog row waits for it. */
    method StartMovieAdd(f: Form, w: World)
      requires Valid()
      requires |w.subtitleCopied| == |picks.subtitlePaths|
      modifies this`isProcessing, this`thread, this`pending, this`out
      ensures Valid()
      ensures w.copyError.Some? ==>
        && !isProcessing && thread == old(thread) && pending == old(pending)
        && out == old(out).(progress := 0,
             messages := old(out.messages) + ["Failed to copy thumbnail: " + w.copyError.value])
      ensures w.copyError.None? ==>
        var job := MovieJobOf(f, w, old(picks));
        && isProcessing && pending == MoviePendingOf(f, w, old(picks), MovieEntriesOf(f, w, old(picks)))
        && thread == Some(job)
        && out == old(out).(jobs := old(out.jobs) + [job])
    {
      if w.copyError.Some? {
        Abandon("Failed to copy thumbnail: " + w.copyError.value);
        return;
      }
      var dir := TitleDir(w.root, Slugify(Strip(f.title, IsSpace)));
      var entries := SubtitleEntriesFor(w.root, dir, w.subtitleCopied, f.embeddedChecked);
      Launch(MoviePendingOf(f, w, picks, entries), MovieJobOf(f, w, picks));
    }

    /** A start that fails before any job runs: the dialog is marked processing, the
        warning is shown and `_reset_ui` undoes the rest. */
    method Abandon(message: string)
      requires Valid()
      modifies this`isProcessing, this`out
      ensures Valid() && !isProcessing
      ensures out == old(out).(progress := 0, messages := old(out.messages) + [message])
    {
      isProcessing := true;
      out := out.(messages := out.messages + [message]);
      ResetUi();
    }

    /** The end of `_start_movie_add`: the pending row is kept and the job started. */
    method Launch(p: Pending, job: Job)
      requires p.MoviePending?
      modifies this`isProcessing, this`thread, this`pending, this`out
      ensures Valid() && isProcessing && pending == p && thread == Some(job)
      ensures out == old(out).(jobs := old(out.jobs) + [job])
    {
      isProcessing := true;
      pending := p;
      thread := Some(job);
      out := out.(jobs := out.jobs + [job]);
    }

    /** The subtitle loop of `_start_movie_add`: every picked file whose copy succeeded,
        in order, then the embedded tracks when their checkbox is set. */
    method SubtitleEntriesFor(root: string, dir: string, copied: seq<bool>, embeddedChecked: bool)
      returns (entries: seq<SubtitleEntry>)
      requires |copied| == |picks.subtitlePaths|
      ensures entries == Flagged(picks.subtitlePaths, copied, SubtitleCopy(root, dir))
        + (if embeddedChecked then picks.embeddedSubs else [])
    {
      var paths := picks.subtitlePaths;
      var copy := SubtitleCopy(root, dir);
      entries := [];
      var i := 0;
      while i < |paths|
        invariant 0 <= i <= |paths|
        invariant entries == Flagged(paths[..i], copied[..i], copy)
      {
        FlaggedStep(paths, copied, copy, i);
        if copied[i] {
          entries := entries + [copy(i, paths[i])];
        }
        i := i + 1;
      }
      assert paths[..i] == paths && copied[..i] == copied;
      var copies := entries;
      if embeddedChecked {
        var embedded := picks.embeddedSubs;
        var j := 0;
        while j < |embedded|
          invariant 0 <= j <= |embedded|
          invariant entries == copies + embedded[..j]
        {
          assert embedded[..j + 1] == embedded[..j] + [embedded[j]];
          entries := entries + [embedded[j]];
          j := j + 1;
        }
        assert embedded[..j] == embedded;
      }
    }

    /** `_start_show_add`: a new show gets its poster copied (a failure ends the import)
        and its row; then the season row is added, the queue is built and the first
        episode's job is started. */
    method StartShowAdd(f: Form, w: World)
      requires Valid()
      modifies this`isProcessing, this`thread, this`queue, this`currentIndex, this`pending
      modifies this`out, this`track
      ensures Valid()
      ensures f.selected.None? && w.copyError.Some? ==>
        && !isProcessing && thread == old(thread) && queue == old(queue) && pending == old(pending)
        && track == old(track)
        && out == old(out).(progress := 0,
             messages := old(out.messages) + ["Failed to copy poster: " + w.copyError.value])
      ensures f.selected.Some? || w.copyError.None? ==>
        && isProcessing && pending == ShowPending(ShowIdOf(f, w)) && currentIndex == 0
        && queue == QueueOf(BatchOf(f, w), old(picks).episodePaths)
        && out.calls == old(out.calls) + SetupCalls(f, w, old(picks).thumbPath)
        && out.messages == old(out.messages) && out.cancelled == old(out.cancelled)
        && out.removedDirs == old(out.removedDirs)
        && (queue != [] ==>
              && thread == Some(JobOf(queue[0])) && out.jobs == old(out.jobs) + [JobOf(queue[0])]
              && out.progress == old(out.progress) && out.announced == old(out.announced)
              && out.closing == old(out.closing))
        && (queue == [] ==>
              && thread == old(thread) && out.jobs == old(out.jobs) && out.progress == 100
              && out.announced == old(out.announced) + [ShowAdded(ShowIdOf(f, w))]
              && out.closing == Accepted)
    {
      if f.selected.None? && w.copyError.Some? {
        Abandon("Failed to copy poster: " + w.copyError.value);
        return;
      }
      var b := BatchOf(f, w);
      var q := BuildQueue(b);
      QueueIsNumbered(b, picks.episodePaths);
      BeginBatch(SetupCalls(f, w, picks.thumbPath), q, ShowIdOf(f, w));
    }

    /** The rest of `_start_show_add` once the catalog rows `setup` are written: the
        queue is kept, the show's announcement waits for the batch, and the first entry
        comes up. */
    method BeginBatch(setup: seq<CatalogCall>, q: seq<QueuedEpisode>, showId: int)
      requires Numbered(q)
      modifies this`isProcessing, this`thread, this`queue, this`currentIndex, this`pending
      modifies this`out, this`track
      ensures Valid() && isProcessing && pending == ShowPending(showId) && queue == q && currentIndex == 0
      ensures q != [] ==>
        && thread == Some(JobOf(q[0]))
        && out == old(out).(calls := old(out.calls) + setup, jobs := old(out.jobs) + [JobOf(q[0])])
      ensures q == [] ==>
        && thread == old(thread)
        && out == old(out).(calls := old(out.calls) + setup, progress := 100,
             announced := old(out.announced) + [ShowAdded(showId)], closing := Accepted)
    {
      isProcessing := true;
      out := out.(calls := out.calls + setup);
      queue := q;
      pending := ShowPending(showId);
      currentIndex := 0;
      track := Track([], |out.calls|);
      ProcessNext();
    }

    /** The queue loop of `_start_show_add`. */
    method BuildQueue(b: Batch) returns (q: seq<QueuedEpisode>)
      ensures q == QueueOf(b, picks.episodePaths)
    {
      var paths := picks.episodePaths;
      var entry := EntryOf(b);
      q := [];
      var i := 0;
      while i < |paths|
        invariant 0 <= i <= |paths|
        invariant q == Indexed(paths[..i], entry)
      {
        IndexedSnoc(paths, entry, i);
        q := q + [entry(i, paths[i])];
        i := i + 1;
      }
      assert paths[..i] == paths;
    }

    // ---- Running a show import ----

    /** `_process_next_episode`: with entries left, the current one's job is started;
        otherwise the import is finished, announced and the dialog accepted. Nothing here
        looks at `_is_processing`. */
    method ProcessNext()
      requires Valid() && pending.ShowPending?
      modifies this`thread, this`out
      ensures Valid()
      ensures currentIndex < |queue| ==>
        && thread == Some(JobOf(queue[currentIndex]))
        && out == old(out).(jobs := old(out.jobs) + [JobOf(queue[currentIndex])])
      ensures currentIndex >= |queue| ==>
        && thread == old(thread)
        && out == old(out).(progress := 100,
             announced := old(out.announced) + [ShowAdded(pending.showId)], closing := Accepted)
    {
      if currentIndex >= |queue| {
        out := out.(progress := 100, announced := out.announced + [ShowAdded(pending.showId)],
          closing := Accepted);
        return;
      }
      var job := JobOf(queue[currentIndex]);
      thread := Some(job);
      out := out.(jobs := out.jobs + [job]);
    }

    /** `_update_episode_progress`: the bar shows the whole batch's progress. */
    method UpdateEpisodeProgress(percent: real, index: nat, total: nat)
      requires total > 0
      modifies this`out
      ensures out == old(out).(progress := IntOf(Overall(index, percent, total)))
    {
      out := out.(progress := IntOf(Overall(index, percent, total)));
    }

    /** `_on_episode_complete`: a failure is reported and skipped, a success is written
        with its queued number; either way the next entry comes up. The slot runs for
        every finished job, also for one whose import was cancelled, and it does not look
        at `_is_processing`. An index past the queue makes the lookup raise, which ends
        the slot after the warning. */
    method OnEpisodeComplete(success: bool, message: string)
      requires Valid() && pending.ShowPending?
      modifies this`currentIndex, this`thread, this`out, this`track
      ensures Valid()
      ensures old(currentIndex) >= |queue| ==>
        && currentIndex == old(currentIndex) && thread == old(thread) && track == old(track)
        && out == old(out).(messages := old(out.messages)
             + (if success then [] else [EpisodeFailure(old(currentIndex), message)]))
      ensures old(currentIndex) < |queue| ==>
        && currentIndex == old(currentIndex) + 1
        && track.outcomes == old(track.outcomes) + [success]
        && out.calls == old(out.calls) + (if success then [EpisodeWrite(queue[old(currentIndex)])] else [])
        && out.messages == old(out.messages)
             + (if success then [] else [EpisodeFailure(old(currentIndex), message)])
        && out.cancelled == old(out.cancelled) && out.removedDirs == old(out.removedDirs)
        && (currentIndex < |queue| ==>
              && thread == Some(JobOf(queue[currentIndex]))
              && out.jobs == old(out.jobs) + [JobOf(queue[currentIndex])]
              && out.progress == old(out.progress) && out.announced == old(out.announced)
              && out.closing == old(out.closing))
        && (currentIndex == |queue| ==>
              && thread == old(thread) && out.jobs == old(out.jobs) && out.progress == 100
              && out.closing == Accepted && out.announced == old(out.announced) + [ShowAdded(pending.showId)])
    {
      var found := RecordOutcome(success, message);
      if found {
        ProcessNext();
      }
    }

    /** The first half of `_on_episode_complete`: a failure is reported, then the finished
        entry is looked up (`found` is false when that raises), written if its job
        succeeded, and the index moves past it. */
    method RecordOutcome(success: bool, message: string) returns (found: bool)
      requires Valid() && pending.ShowPending?
      modifies this`currentIndex, this`out, this`track
      ensures Valid()
      ensures found <==> old(currentIndex) < |queue|
      ensures out.messages == old(out.messages)
        + (if success then [] else [EpisodeFailure(old(currentIndex), message)])
      ensures !found ==> currentIndex == old(currentIndex) && track == old(track)
      ensures !found ==> out == old(out).(messages := out.messages)
      ensures found ==>
        && currentIndex == old(currentIndex) + 1
        && track == old(track).(outcomes := old(track.outcomes) + [success])
        && out == old(out).(messages := out.messages,
             calls := old(out.calls) + (if success then [EpisodeWrite(queue[old(currentIndex)])] else []))
    {
      var idx := currentIndex;
      if !success {
        out := out.(messages := out.messages + [EpisodeFailure(idx, message)]);
      }
      if idx >= |queue| {
        return false;
      }
      var e := queue[idx];
      if success {
        out := out.(calls := out.calls + [EpisodeWrite(e)]);
      }
      assert queue[..idx + 1][..idx] == queue[..idx];
      assert (track.outcomes + [success])[..idx] == track.outcomes;
      track := track.(outcomes := track.outcomes + [success]);
      currentIndex := idx + 1;
      return true;
    }

    /** `_on_episode_complete` as evidently intended: a job that finishes after the
        import was cancelled is ignored, so a cancel stops the batch. */
    method OnEpisodeCompleteIntended(success: bool, message: string)
      requires Valid() && pending.ShowPending?
      modifies this`currentIndex, this`thread, this`out, this`track
      ensures Valid()
      ensures !old(isProcessing) ==>
        && currentIndex == old(currentIndex) && thread == old(thread) && out == old(out)
        && track == old(track)
      ensures old(isProcessing) && old(currentIndex) < |queue| ==>
        && currentIndex == old(currentIndex) + 1
        && out.calls == old(out.calls) + (if success then [EpisodeWrite(queue[old(currentIndex)])] else [])
        && (currentIndex < |queue| ==> out.jobs == old(out.jobs) + [JobOf(queue[currentIndex])])
    {
      if !isProcessing {
        return;
      }
      OnEpisodeComplete(success, message);
    }

    // ---- Finishing a movie import ----

    /** `_update_progress`. */
    method UpdateProgress(percent: real)
      modifies this`out
      ensures out == old(out).(progress := IntOf(percent))
    {
      out := out.(progress := IntOf(percent));
    }

    /** `_on_single_complete`: on failure the movie's directory is removed (when it was
        made) and the dialog resets; on success the movie is written, announced and the
        dialog accepted. Like the show slot, it also runs for a job whose import was
        cancelled. */
    method OnSingleComplete(success: bool, message: string, dirExists: bool, newMovieId: int)
      requires Valid() && pending.MoviePending?
      modifies this`isProcessing, this`out
      ensures Valid()
      ensures !success ==>
        && !isProcessing
        && out == old(out).(progress := 0,
             messages := old(out.messages) + ["Failed to process movie:\n" + message],
             removedDirs := old(out.removedDirs)
               + (if pending.movieDir != [] && dirExists then [pending.movieDir] else []))
      ensures success ==>
        && isProcessing == old(isProcessing)
        && out == old(out).(progress := 100, closing := Accepted,
             calls := old(out.calls) + [AddMovie(pending.title, pending.relMovie, pending.relThumb, pending.entries)],
             announced := old(out.announced) + [MovieAdded(newMovieId)])
    {
      if !success {
        out := out.(messages := out.messages + ["Failed to process movie:\n" + message],
          removedDirs := out.removedDirs
            + (if pending.movieDir != [] && dirExists then [pending.movieDir] else []));
        ResetUi();
        return;
      }
      out := out.(progress := 100, closing := Accepted,
        calls := out.calls + [AddMovie(pending.title, pending.relMovie, pending.relThumb, pending.entries)],
        announced := out.announced + [MovieAdded(newMovieId)]);
    }

    // ---- Cancel and reset ----

    /** `_on_cancel`: while importing, the running job is cancelled and dropped and the
        dialog resets; otherwise the dialog is rejected. The job's finished signal stays
        connected, so its completion still reaches the slots above. */
    method OnCancel()
      requires Valid()
      modifies this`isProcessing, this`thread, this`out
      ensures Valid()
      ensures old(isProcessing) ==>
        && !isProcessing && thread == None
        && out == old(out).(progress := 0,
             cancelled := old(out.cancelled) + (if old(thread).Some? then [old(thread).value] else []))
      ensures !old(isProcessing) ==>
        && !isProcessing && thread == old(thread)
        && out == old(out).(closing := Rejected)
    {
      if isProcessing {
        if thread.Some? {
          out := out.(cancelled := out.cancelled + [thread.value]);
        }
        thread := None;
        ResetUi();
      } else {
        out := out.(closing := Rejected);
      }
    }

    /** `_reset_ui`. */
    method ResetUi()
      requires Valid()
      modifies this`isProcessing, this`out
      ensures Valid() && !isProcessing && out == old(out).(progress := 0)
    {
      isProcessing := false;
      out := out.(progress := 0);
    }
  }

  /** A cancel during any episode but the last, followed by the cancelled job's own
      completion: the failure is reported as skipped and the next episode's job starts,
      although the dialog is no longer importing. */
  method CancelledBatchGoesOn(d: AddDialog)
    requires d.Valid() && d.isProcessing && d.pending.ShowPending?
    requires d.currentIndex + 1 < |d.queue|
    modifies d
    ensures d.queue == old(d.queue)
    ensures !d.isProcessing && d.currentIndex == old(d.currentIndex) + 1
    ensures d.thread == Some(JobOf(d.queue[d.currentIndex]))
    ensures d.out.jobs == old(d.out.jobs) + [JobOf(d.queue[old(d.currentIndex) + 1])]
    ensures d.out.messages == old(d.out.messages) + [EpisodeFailure(old(d.currentIndex), "Compression cancelled.")]
  {
    d.OnCancel();
    d.OnEpisodeComplete(false, "Compression cancelled.");
  }

  /** With the intended slot the same cancel stops the batch: no job starts and nothing
      is reported or written. */
  method CancelledBatchStops(d: AddDialog)
    requires d.Valid() && d.isProcessing && d.pending.ShowPending?
    modifies d
    ensures !d.isProcessing && d.thread == None && d.currentIndex == old(d.currentIndex)
    ensures d.out.jobs == old(d.out.jobs) && d.out.calls == old(d.out.calls)
    ensures d.out.messages == old(d.out.messages)
  {
    d.OnCancel();
    d.OnEpisodeCompleteIntended(false, "Compression cancelled.");
  }
}
