/** The library window (ui/main_window.py): where the poster grid places each card, the
    merged and sorted list a library refresh shows with its count label, the flat episode
    list handed to playback, and what deleting a movie or a show removes. The catalog's
    answers (query results, counts, the row a delete returned) come in as parameters; the
    window's own writes and file removals are kept, in order, in `effects`. */
module LibraryView {
  import opened Wrappers
  import opened Text
  import opened Sorting
  import opened Paths
  import opened Naming
  import opened CatalogModel
  import opened BatchImport

  // ---- Grid placement -----------------------------------------------------------------

  /** `POSTER_WIDTH` of the card widget. */
  const PosterWidth: int := 180
  /** One grid column: a poster and its spacing. */
  const ColumnWidth: int := PosterWidth + 30
  /** The part of the parent's width the grid never uses. */
  const SideMargin: int := 60
  const DefaultColumns: int := 4

  /** `max(2, (width - 60) // 210)`: as many columns as fit, but at least two. Python's
      `//` rounds down, and with a positive divisor so does Dafny's `/`, negative widths
      included. */
  function ColumnsFor(width: int): (c: int)
    ensures c >= 2
    ensures c == 2 || c * ColumnWidth <= width - SideMargin
    ensures width - SideMargin < (c + 1) * ColumnWidth
  {
    var fit := (width - SideMargin) / ColumnWidth;
    if fit < 2 then 2 else fit
  }

  /** A grid position. */
  datatype Cell = Cell(row: int, col: int)

  /** Where the `i`-th card goes: `(i // columns, i % columns)`. */
  function CellOf(i: nat, columns: int): (c: Cell)
    requires columns >= 1
    ensures c.row >= 0 && 0 <= c.col < columns
    ensures c.row * columns + c.col == i
  {
    Cell(i / columns, i % columns)
  }

  /** Reading order: earlier row, or the same row and an earlier column. */
  predicate Before(a: Cell, b: Cell) {
    a.row < b.row || (a.row == b.row && a.col < b.col)
  }

  /** A card in an earlier row has a smaller index. */
  lemma RowOrder(i: nat, j: nat, columns: int)
    requires columns >= 1
    requires CellOf(i, columns).row < CellOf(j, columns).row
    ensures i < j
  {
    var a, b := CellOf(i, columns), CellOf(j, columns);
    assert (a.row + 1) * columns <= b.row * columns by {
      MultiplyLe(a.row + 1, b.row, columns);
    }
  }

  lemma MultiplyLe(x: int, y: int, k: int)
    requires x <= y && k >= 0
    ensures x * k <= y * k
  {
  }

  /** Placement is row-major and one-to-one: card `i` comes before card `j` in reading
      order exactly when `i < j`, so no two cards share a cell. */
  lemma CellsRowMajor(i: nat, j: nat, columns: int)
    requires columns >= 1
    ensures i < j <==> Before(CellOf(i, columns), CellOf(j, columns))
    ensures i != j ==> CellOf(i, columns) != CellOf(j, columns)
  {
    var a, b := CellOf(i, columns), CellOf(j, columns);
    if a.row < b.row {
      RowOrder(i, j, columns);
    } else if b.row < a.row {
      RowOrder(j, i, columns);
    }
  }

  /** A poster card: `MovieCard(item)` or `ShowCard(item)`. */
  datatype Card = MovieCard(movie: Movie) | ShowCard(show: Show)

  /** `FlowLayout`: the cards in the order they were added, the column count, and the
      cell the grid layout holds for each card. */
  class FlowLayout {
    var cards: seq<Card>
    var columns: int
    var placed: seq<Cell>

    /** Every card sits at its row-major cell for the current column count. */
    ghost predicate Valid()
      reads this`cards, this`columns, this`placed
    {
      && columns >= 2
      && |placed| == |cards|
      && forall i :: 0 <= i < |placed| ==> placed[i] == CellOf(i, columns)
    }

    constructor()
      ensures Valid() && cards == [] && columns == DefaultColumns && placed == []
    {
      cards := [];
      columns := DefaultColumns;
      placed := [];
    }

    /** `clear`: every card leaves the grid; the column count stays. */
    method Clear()
      requires Valid()
      modifies this`cards, this`placed
      ensures Valid() && cards == [] && placed == []
    {
      cards := [];
      placed := [];
    }

    /** `_rearrange`: with a parent, the column count follows its width; every card is
        then placed again. */
    method Rearrange(parentWidth: Option<int>)
      requires Valid()
      modifies this`columns, this`placed
      ensures Valid()
      ensures columns == if parentWidth.Some? then ColumnsFor(parentWidth.value) else old(columns)
    {
      if parentWidth.Some? {
        columns := ColumnsFor(parentWidth.value);
      }
      var cells: seq<Cell> := [];
      for i := 0 to |cards|
        invariant |cells| == i
        invariant forall k :: 0 <= k < i ==> cells[k] == CellOf(k, columns)
      {
        cells := cells + [CellOf(i, columns)];
      }
      placed := cells;
    }

    /** `add_card`: the card goes last and the grid is rearranged. */
    method AddCard(card: Card, parentWidth: Option<int>)
      requires Valid()
      modifies this`cards, this`columns, this`placed
      ensures Valid() && cards == old(cards) + [card]
      ensures columns == if parentWidth.Some? then ColumnsFor(parentWidth.value) else old(columns)
    {
      cards := cards + [card];
      placed := placed + [CellOf(|placed|, columns)];
      Rearrange(parentWidth);
    }

    /** `resizeEvent`: the grid follows the new width. */
    method Resize(parentWidth: Option<int>)
      requires Valid()
      modifies this`columns, this`placed
      ensures Valid()
      ensures columns == if parentWidth.Some? then ColumnsFor(parentWidth.value) else old(columns)
    {
      Rearrange(parentWidth);
    }
  }

  // ---- The merged list ----------------------------------------------------------------

  function CardTitle(c: Card): string {
    match c
    case MovieCard(m) => m.title
    case ShowCard(s) => s.title
  }

  function CardAdded(c: Card): Timestamp {
    match c
    case MovieCard(m) => m.dateAdded
    case ShowCard(s) => s.dateAdded
  }

  /** The sort key of the merged list: the lower-cased title under `"title"`, the date
      added otherwise. */
  function CardOrder(sortBy: string): (Card, Card) -> bool {
    CatalogOrder(sortBy, CardTitle, CardAdded)
  }

  /** All movies, then all shows, in the order the queries returned them. */
  function Merged(movies: seq<Movie>, shows: seq<Show>): seq<Card> {
    seq(|movies|, i requires 0 <= i < |movies| => MovieCard(movies[i]))
    + seq(|shows|, j requires 0 <= j < |shows| => ShowCard(shows[j]))
  }

  /** A card is in the merged list exactly when it shows one of the movies or one of the
      shows; the movie cards come first. */
  lemma MergedMembers(movies: seq<Movie>, shows: seq<Show>, c: Card)
    ensures c in Merged(movies, shows) <==>
      (c.MovieCard? && c.movie in movies) || (c.ShowCard? && c.show in shows)
    ensures forall i, j ::
      (0 <= i < j < |Merged(movies, shows)| && Merged(movies, shows)[j].MovieCard?
       ==> Merged(movies, shows)[i].MovieCard?)
  {
    var r := Merged(movies, shows);
    if c.MovieCard? && c.movie in movies {
      var i :| 0 <= i < |movies| && movies[i] == c.movie;
      assert r[i] == c;
    }
    if c.ShowCard? && c.show in shows {
      var j :| 0 <= j < |shows| && shows[j] == c.show;
      assert r[|movies| + j] == c;
    }
  }

  /** The two loops that build `items`. */
  method MergeItems(movies: seq<Movie>, shows: seq<Show>) returns (items: seq<Card>)
    ensures items == Merged(movies, shows)
  {
    items := [];
    for i := 0 to |movies|
      invariant |items| == i
      invariant forall k :: 0 <= k < i ==> items[k] == MovieCard(movies[k])
    {
      items := items + [MovieCard(movies[i])];
    }
    for j := 0 to |shows|
      invariant |items| == |movies| + j
      invariant forall k :: 0 <= k < |movies| ==> items[k] == MovieCard(movies[k])
      invariant forall k :: 0 <= k < j ==> items[|movies| + k] == ShowCard(shows[k])
    {
      items := items + [ShowCard(shows[j])];
    }
  }

  /** The merged list sorted in place: by the chosen key, reversed when not ascending.
      The result holds every merged card, and each is `le` every later one. */
  method OrderedItems(movies: seq<Movie>, shows: seq<Show>, sortBy: string, ascending: bool)
    returns (items: seq<Card>)
    ensures Sorted(items, Direction(CardOrder(sortBy), ascending))
    ensures multiset(items) == multiset(Merged(movies, shows))
  {
    var merged := MergeItems(movies, shows);
    CatalogOrderTotal(sortBy, CardTitle, CardAdded);
    SortDirectionSorted(merged, CardOrder(sortBy), ascending);
    items := Sort(merged, Direction(CardOrder(sortBy), ascending));
  }

  // ---- The count label ----------------------------------------------------------------

  /** `f"{n} {noun}{'s' if n != 1 else ''}"`. */
  function CountText(n: nat, noun: string): string {
    NatToString(n) + " " + noun + (if n != 1 then "s" else "")
  }

  /** The label above the grid: in search mode the number of results; otherwise the
      non-zero movie and show counts joined by `", "`, or `"Empty"`. */
  function CountLabel(movieCount: nat, showCount: nat, searching: bool, total: nat): string {
    var parts := (if movieCount != 0 then [CountText(movieCount, "movie")] else [])
      + (if showCount != 0 then [CountText(showCount, "show")] else []);
    if searching then CountText(total, "result")
    else if parts == [] then "Empty"
    else Join(parts, ", ")
  }

  /** The number the text starts with, if it starts with a digit. */
  function LeadingCount(s: string): Option<nat> {
    var k := Run(s, IsDigit);
    if k == 0 then None
    else
      assert AllDigits(s[..k]) by {
        forall i | 0 <= i < k ensures IsDigit(s[..k][i]) {
          assert s[..k][i] == s[i];
        }
      }
      Some(DigitsValue(s[..k]))
  }

  /** A count text, whatever follows it, reads back as its count, and ends in `s` exactly
      when the count is not 1. */
  lemma CountTextReads(n: nat, noun: string, rest: string)
    requires |noun| >= 1 && noun[|noun| - 1] != 's'
    ensures LeadingCount(CountText(n, noun) + rest) == Some(n)
    ensures var t := CountText(n, noun); t[|t| - 1] == 's' <==> n != 1
  {
    var digits := NatToString(n);
    var after := " " + noun + (if n != 1 then "s" else "") + rest;
    var s := CountText(n, noun) + rest;
    assert s == digits + after;
    RunOfPrefix(digits, after, IsDigit);
    assert s[..|digits|] == digits;
    NatToStringRoundTrip(n);
  }

  /** What the label says: in search mode it starts with the number of results; otherwise
      it is `"Empty"` exactly when both counts are 0, starts with the movie count when
      there are movies and with the show count when there are only shows, and ends with
      the show count's text when there are shows. */
  lemma CountLabelReads(movieCount: nat, showCount: nat, searching: bool, total: nat)
    ensures searching ==> LeadingCount(CountLabel(movieCount, showCount, searching, total)) == Some(total)
    ensures !searching ==>
      (CountLabel(movieCount, showCount, searching, total) == "Empty" <==> movieCount == 0 && showCount == 0)
    ensures !searching && movieCount != 0 ==>
      LeadingCount(CountLabel(movieCount, showCount, searching, total)) == Some(movieCount)
    ensures !searching && movieCount == 0 && showCount != 0 ==>
      LeadingCount(CountLabel(movieCount, showCount, searching, total)) == Some(showCount)
    ensures !searching && showCount != 0 ==>
      var r := CountLabel(movieCount, showCount, searching, total);
      var t := CountText(showCount, "show");
      |t| <= |r| && r[|r| - |t|..] == t
  {
    var r := CountLabel(movieCount, showCount, searching, total);
    var m, s := CountText(movieCount, "movie"), CountText(showCount, "show");
    if searching {
      CountTextReads(total, "result", []);
      assert CountText(total, "result") + [] == r;
    } else if movieCount != 0 && showCount != 0 {
      assert r == Join([m, s], ", ");
      assert Join([m, s], ", ") == m + ", " + Join([s], ", ");
      assert r == m + (", " + s);
      CountTextReads(movieCount, "movie", ", " + s);
      assert r[|r| - |s|..] == s;
    } else if movieCount != 0 {
      assert r == m + [];
      CountTextReads(movieCount, "movie", []);
    } else if showCount != 0 {
      assert r == s + [];
      CountTextReads(showCount, "show", []);
      assert r[|r| - |s|..] == s;
    }
    if !searching && (movieCount != 0 || showCount != 0) {
      assert LeadingCount(r).Some?;
      assert LeadingCount("Empty") == None by {
        assert !IsDigit("Empty"[0]);
      }
    }
  }

  // ---- Episode playback ---------------------------------------------------------------

  /** The episodes of all seasons, season by season. */
  function Flatten(seasons: seq<Season>): seq<Episode>
    decreases |seasons|
  {
    if seasons == [] then []
    else Flatten(seasons[..|seasons| - 1]) + seasons[|seasons| - 1].episodes
  }

  /** An episode is in the flat list exactly when one of the seasons holds it. */
  lemma {:induction false} FlattenMembers(seasons: seq<Season>, e: Episode)
    ensures e in Flatten(seasons) <==> exists i :: 0 <= i < |seasons| && e in seasons[i].episodes
    decreases |seasons|
  {
    if seasons != [] {
      var init := seasons[..|seasons| - 1];
      FlattenMembers(init, e);
      if e in Flatten(init) {
        var i :| 0 <= i < |init| && e in init[i].episodes;
        assert seasons[i] == init[i];
      }
      if i :| 0 <= i < |seasons| && e in seasons[i].episodes {
        if i < |init| {
          assert init[i] == seasons[i];
        }
      }
    }
  }

  /** `index` is the last position of an episode with that id, or -1 when there is none. */
  predicate LastMatch(list: seq<Episode>, id: int, index: int) {
    if index == -1 then (forall k :: 0 <= k < |list| ==> list[k].id != id)
    else
      && 0 <= index < |list|
      && list[index].id == id
      && (forall k :: index < k < |list| ==> list[k].id != id)
  }

  /** `_on_play_episode`: the open show's episodes, season by season, and the position of
      the one to play (-1 when no show is open or the episode is not in it). */
  method EpisodeList(show: Option<Show>, episode: Episode) returns (list: seq<Episode>, index: int)
    ensures list == if show.Some? then Flatten(show.value.seasons) else []
    ensures LastMatch(list, episode.id, index)
  {
    list := [];
    index := -1;
    if show.Some? {
      var seasons := show.value.seasons;
      for s := 0 to |seasons|
        invariant list == Flatten(seasons[..s])
        invariant LastMatch(list, episode.id, index)
      {
        var eps := seasons[s].episodes;
        for j := 0 to |eps|
          invariant list == Flatten(seasons[..s]) + eps[..j]
          invariant LastMatch(list, episode.id, index)
        {
          if eps[j].id == episode.id {
            index := |list|;
          }
          list := list + [eps[j]];
          assert eps[..j + 1] == eps[..j] + [eps[j]];
        }
        assert seasons[..s + 1][..s] == seasons[..s];
        assert eps[..|eps|] == eps;
      }
      assert seasons[..|seasons|] == seasons;
    }
  }

  // ---- Deleting -----------------------------------------------------------------------

  predicate IsSlash(c: char) { c == '/' }

  predicate NoSlash(s: string) {
    forall i :: 0 <= i < |s| ==> s[i] != '/'
  }

  /** POSIX `os.path.dirname(p)`: everything up to the last `/`, with the trailing `/`s
      removed unless nothing else is left. */
  function Dirname(p: string): string {
    var head := p[..LastIndexOf(p, '/') + 1];
    if head != [] && exists i | 0 <= i < |head| :: head[i] != '/' then StripRight(head, IsSlash)
    else head
  }

  /** Joining a name without `/` onto a directory that does not end in `/` puts exactly
      one `/` between them, and it is the last one. */
  lemma JoinLastSlash(dir: string, name: string)
    requires |dir| >= 1 && dir[|dir| - 1] != '/'
    requires NoSlash(name)
    ensures PathJoin(dir, name) == dir + ("/" + name)
    ensures LastIndexOf(PathJoin(dir, name), '/') == |dir|
  {
    var p := dir + ("/" + name);
    assert PathJoin(dir, name) == p by {
      assert name == [] || name[0] != '/';
    }
    forall i | |dir| < i < |p| ensures p[i] != '/' {
      assert p[i] == name[i - |dir| - 1];
    }
    LastIndexOfIs(p, '/', |dir|);
  }

  /** Removing the trailing `/`s of a directory followed by one `/` gives the directory
      back. */
  lemma StripOneSlash(dir: string)
    requires |dir| >= 1 && dir[|dir| - 1] != '/'
    ensures StripRight(dir + "/", IsSlash) == dir
  {
    var head := dir + "/";
    assert head[..|dir|] == dir;
  }

  /** The directory of a name joined onto a directory is that directory. */
  lemma DirnameOfJoin(dir: string, name: string)
    requires |dir| >= 1 && dir[|dir| - 1] != '/'
    requires NoSlash(name)
    ensures Dirname(PathJoin(dir, name)) == dir
  {
    JoinLastSlash(dir, name);
    var p := dir + ("/" + name);
    var head := p[..|dir| + 1];
    assert head == dir + "/";
    assert head[|dir| - 1] != '/';
    StripOneSlash(dir);
  }

  /** The directory a refresh removes when it deletes a movie imported as `name` into
      `<root>/movies/<slug>` is that title directory. */
  lemma ImportedFileDir(root: string, slug: string, name: string)
    requires LibraryRoot(root) && IsSlug(slug)
    requires |name| >= 1 && NoSlash(name)
    ensures Dirname(PathJoin(root, RelativeTo(PathJoin(TitleDir(root, slug), name), root)))
      == TitleDir(root, slug)
  {
    TitleFile(root, slug, name);
    TitleDirShape(root, slug);
    DirnameOfJoin(TitleDir(root, slug), name);
  }

  /** An import's output extension never holds a `/`. */
  lemma OutputExtensionNoSlash(presetKey: string, source: string)
    ensures NoSlash(OutputExtension(presetKey, source))
  {
    if presetKey == "copy" {
      SplitExtShape(source);
      var e := SplitExt(source).1;
      forall i | 0 <= i < |e| ensures e[i] != '/' {
        if i > 0 {
          assert e[i] == e[1..][i - 1];
        }
      }
    }
  }

  lemma NoSlashConcat(a: string, b: string)
    requires NoSlash(a) && NoSlash(b)
    ensures NoSlash(a + b)
  {
    forall i | 0 <= i < |a + b| ensures (a + b)[i] != '/' {
      if i >= |a| {
        assert (a + b)[i] == b[i - |a|];
      }
    }
  }

  /** Deleting a movie removes the directory its import created. */
  lemma DeletedMovieDir(root: string, slug: string, presetKey: string, source: string)
    requires LibraryRoot(root) && IsSlug(slug)
    ensures var name := "movie" + OutputExtension(presetKey, source);
      Dirname(PathJoin(root, RelativeTo(PathJoin(TitleDir(root, slug), name), root)))
        == TitleDir(root, slug)
  {
    OutputExtensionNoSlash(presetKey, source);
    NoSlashConcat("movie", OutputExtension(presetKey, source));
    ImportedFileDir(root, slug, "movie" + OutputExtension(presetKey, source));
  }

  lemma Pad2NoSlash(n: int)
    ensures NoSlash(Pad2(n))
  {
    var p := Pad2(n);
    var m: nat := if n < 0 then -n else n;
    var d := NatToString(m);
    forall i | 0 <= i < |p| ensures p[i] != '/' {
      if 0 <= n < 10 {
        assert p == "0" + d;
        if i > 0 { assert p[i] == d[i - 1]; }
      } else if n < 0 {
        assert p == "-" + d;
        if i > 0 { assert p[i] == d[i - 1]; }
      } else {
        assert p == d;
      }
    }
  }

  lemma EpisodeSlugNoSlash(season: int, number: int)
    ensures NoSlash(EpisodeSlug(season, number))
  {
    Pad2NoSlash(season);
    Pad2NoSlash(number);
    NoSlashConcat("s", Pad2(season));
    NoSlashConcat("s" + Pad2(season), "e");
    NoSlashConcat(SeasonPrefix(season), Pad2(number));
  }

  /** Deleting a show removes, for each episode its import queued, that episode's own
      directory `<root>/movies/<show>/sNNeMM`. */
  lemma DeletedEpisodeDir(b: Batch, i: nat, source: string)
    requires LibraryRoot(b.root) && IsSlug(b.showSlug)
    ensures Dirname(PathJoin(b.root, QueueEntry(b, i, source).relPath)) == EpisodeDir(b, i + 1)
  {
    var d := EpisodeDest(b, i + 1, source);
    assert PathJoin(b.root, QueueEntry(b, i, source).relPath) == d by {
      QueueDestination(b, i, source);
    }
    EpisodeFileDir(b, i + 1, source);
  }

  /** An episode file's directory is its episode directory. */
  lemma EpisodeFileDir(b: Batch, number: nat, source: string)
    requires LibraryRoot(b.root) && IsSlug(b.showSlug)
    ensures Dirname(EpisodeDest(b, number, source)) == EpisodeDir(b, number)
  {
    var name := "episode" + OutputExtension(b.presetKey, source);
    OutputExtensionNoSlash(b.presetKey, source);
    NoSlashConcat("episode", OutputExtension(b.presetKey, source));
    EpisodeDirShape(b, number);
    DirnameOfJoin(EpisodeDir(b, number), name);
  }

  /** `<root>/movies/<show>/sNNeMM` ends in the episode slug. */
  lemma EpisodeDirShape(b: Batch, number: nat)
    requires LibraryRoot(b.root) && IsSlug(b.showSlug)
    ensures var d := EpisodeDir(b, number); |d| >= 1 && d[|d| - 1] != '/'
  {
    var ep := EpisodeSlug(b.seasonNumber, number);
    EpisodeSlugIsComponent(b.seasonNumber, number);
    TitleDirShape(b.root, b.showSlug);
    JoinPlain(TitleDir(b.root, b.showSlug), ep);
    var d := EpisodeDir(b, number);
    assert d[|d| - 1] == ep[|ep| - 1];
  }

  /** What deleting a show removes: the directory of every episode file and, when the
      show has a poster, the poster's directory. */
  function ShowDirs(root: string, show: Show): set<string> {
    (set e | e in Flatten(show.seasons) :: Dirname(PathJoin(root, e.moviePath)))
    + (if show.thumbPath != "" then {Dirname(PathJoin(root, show.thumbPath))} else {})
  }

  /** Every episode of every season has its directory among those removed. */
  lemma ShowDirsCover(root: string, show: Show, i: int, e: Episode)
    requires 0 <= i < |show.seasons| && e in show.seasons[i].episodes
    ensures Dirname(PathJoin(root, e.moviePath)) in ShowDirs(root, show)
  {
    FlattenMembers(show.seasons, e);
  }

  /** The loops of `_on_delete_show` that gather the directories into a set. */
  method CollectShowDirs(root: string, show: Show) returns (dirs: set<string>)
    ensures dirs == ShowDirs(root, show)
  {
    dirs := {};
    var seasons := show.seasons;
    for s := 0 to |seasons|
      invariant dirs == set e | e in Flatten(seasons[..s]) :: Dirname(PathJoin(root, e.moviePath))
    {
      var eps := seasons[s].episodes;
      ghost var before := Flatten(seasons[..s]);
      for j := 0 to |eps|
        invariant dirs == set e | e in before + eps[..j] :: Dirname(PathJoin(root, e.moviePath))
      {
        assert before + eps[..j + 1] == (before + eps[..j]) + [eps[j]];
        dirs := dirs + {Dirname(PathJoin(root, eps[j].moviePath))};
      }
      assert seasons[..s + 1][..s] == seasons[..s];
      assert eps[..|eps|] == eps;
    }
    assert seasons[..|seasons|] == seasons;
    if show.thumbPath != "" {
      dirs := dirs + {Dirname(PathJoin(root, show.thumbPath))};
    }
  }

  // ---- The show directory left behind -------------------------------------------------

  /** `os.path.join(get_movies_dir(), show.title.lower().replace(" ", "-"))`, the
      directory `_on_delete_show` removes when it is empty, as the code names it. */
  function ShowSlugDirAsWritten(root: string, title: string): string {
    PathJoin(PathJoin(root, MoviesDirName), ReplaceChar(Lower(title), ' ', '-'))
  }

  /** The directory the import put the show's episodes in: `<root>/movies/<slugify(title)>`. */
  function ShowSlugDir(root: string, title: string): string {
    TitleDir(root, Slugify(title))
  }

  /** The corrected name is the parent of every episode directory a show import of that
      title creates, so the emptiness check looks at the right directory. */
  lemma ShowSlugDirIsParent(b: Batch, title: string, number: nat)
    requires LibraryRoot(b.root) && b.showSlug == Slugify(title)
    ensures Dirname(EpisodeDir(b, number)) == ShowSlugDir(b.root, title)
  {
    SlugifyIsSlug(title);
    TitleDirShape(b.root, b.showSlug);
    EpisodeSlugNoSlash(b.seasonNumber, number);
    DirnameOfJoin(TitleDir(b.root, b.showSlug), EpisodeSlug(b.seasonNumber, number));
  }

  /** For the title `"A.B"` the code looks at `<root>/movies/a.b`, while the import put the
      episodes under `<root>/movies/ab`. A show added through the import always has a
      poster in `<root>/movies/ab`, and that directory is removed as one of the gathered
      ones; so the wrong name leaves `<root>/movies/ab` behind only for a show without a
      poster path, or when removing the poster's directory failed. */
  lemma ShowSlugDirMismatch(root: string)
    ensures ShowSlugDirAsWritten(root, "A.B") != ShowSlugDir(root, "A.B")
  {
    assert ReplaceChar(Lower("A.B"), ' ', '-') == "a.b" by {
      var l := Lower("A.B");
      assert l[0] == 'a' && l[1] == '.' && l[2] == 'b';
    }
    SlugifyIsSlug("A.B");
    DottedNameIsNoSlug(root, "a.b", Slugify("A.B"), 1);
  }

  /** A name with a `.` is never a slug, so the two directories differ. */
  lemma DottedNameIsNoSlug(root: string, naive: string, slug: string, k: int)
    requires IsSlug(slug) && Component(naive)
    requires 0 <= k < |naive| && naive[k] == '.'
    ensures PathJoin(PathJoin(root, MoviesDirName), naive) != TitleDir(root, slug)
  {
    var movies := PathJoin(root, MoviesDirName);
    assert |movies| >= 1 && movies[|movies| - 1] == 's';
    SlugIsComponent(slug);
    assert !SlugChar(naive[k]);
    assert naive != slug;
    JoinDistinct(movies, naive, slug);
  }

  // ---- The window ---------------------------------------------------------------------

  /** The search text and the sort chosen in the combo box. */
  datatype View = View(query: string, sortBy: string, ascending: bool)

  /** What the window does outside itself. */
  datatype Effect =
    | DeleteMovieRow(movieId: int)
    | DeleteShowRow(showId: int)
    | RemoveTree(dir: string)
    | RemoveIfEmpty(dir: string)
    | Warned(text: string)
    | Refreshed

  function RemoveTrees(dirs: seq<string>): seq<Effect> {
    seq(|dirs|, i requires 0 <= i < |dirs| => RemoveTree(dirs[i]))
  }

  /** The warning shown when a deleted movie's files could not all be removed. */
  function RemoveWarning(error: string): string {
    "Removed from library but some files could not be deleted:\n" + error
  }

  /** The two lines shown instead of an empty grid. */
  function EmptyNotice(query: string): (string, string) {
    if query != "" then ("No results for \"" + query + "\"", "Try a different search term")
    else ("Your library is empty!", "Click '+ Add' to add movies or TV shows")
  }

  /** `MainWindow`'s library page. */
  class LibraryWindow {
    const grid: FlowLayout
    var view: View
    var countLabel: string
    /** The empty-library notice, when it is visible instead of the grid. */
    var emptyNotice: Option<(string, string)>
    var effects: seq<Effect>

    /** `__init__`: sorted by date added, newest first, with no query; the library is
        refreshed once the pages are set up. */
    constructor()
      ensures grid.Valid() && grid.cards == []
      ensures view == View("", "date_added", false)
      ensures countLabel == "" && emptyNotice == None && effects == [Refreshed]
    {
      grid := new FlowLayout();
      view := View("", "date_added", false);
      countLabel := "";
      emptyNotice := None;
      effects := [Refreshed];
    }

    /** `_on_search_changed`: the query is the trimmed search text (the refresh that a
        timer starts later is a separate `Refresh`). */
    method SearchChanged(text: string)
      modifies this`view
      ensures view == old(view).(query := Strip(text, IsSpace))
    {
      view := view.(query := Strip(text, IsSpace));
    }

    /** `_on_sort_changed`: a combo entry with data sets the sort key and direction and
        refreshes the library at once; an entry without data changes nothing. */
    method SortChanged(data: Option<(string, bool)>)
      modifies this`view, this`effects
      ensures view == if data.Some? then old(view).(sortBy := data.value.0, ascending := data.value.1) else old(view)
      ensures effects == old(effects) + (if data.Some? then [Refreshed] else [])
    {
      if data.Some? {
        view := view.(sortBy := data.value.0, ascending := data.value.1);
        effects := effects + [Refreshed];
      }
    }

    /** `_refresh_library`, given what the catalog returned: the movies and shows of the
        search (or of the whole library when there is no query) and the two counts. The
        grid shows every movie and every show, sorted by the chosen key in the chosen
        direction, placed row-major; the empty notice shows exactly when there is
        nothing; the label reports the counts. */
    method Refresh(movies: seq<Movie>, shows: seq<Show>, movieCount: nat, showCount: nat,
                   parentWidth: Option<int>)
      requires grid.Valid()
      modifies grid`cards, grid`columns, grid`placed, this`countLabel, this`emptyNotice
      ensures grid.Valid()
      ensures Sorted(grid.cards, Direction(CardOrder(view.sortBy), view.ascending))
      ensures multiset(grid.cards) == multiset(Merged(movies, shows))
      ensures emptyNotice == if movies == [] && shows == [] then Some(EmptyNotice(view.query)) else None
      ensures countLabel == CountLabel(movieCount, showCount, view.query != "", |movies| + |shows|)
    {
      grid.Clear();
      var items := OrderedItems(movies, shows, view.sortBy, view.ascending);
      if items == [] {
        emptyNotice := Some(EmptyNotice(view.query));
      } else {
        emptyNotice := None;
        ShowCards(items, parentWidth);
      }
      countLabel := CountLabel(movieCount, showCount, view.query != "", |movies| + |shows|);
    }

    /** The loop of `_refresh_library` that adds one card per item to the cleared grid. */
    method ShowCards(items: seq<Card>, parentWidth: Option<int>)
      requires grid.Valid() && grid.cards == []
      modifies grid`cards, grid`columns, grid`placed
      ensures grid.Valid() && grid.cards == items
    {
      for k := 0 to |items|
        invariant grid.Valid() && grid.cards == items[..k]
      {
        grid.AddCard(items[k], parentWidth);
        assert items[..k + 1] == items[..k] + [items[k]];
      }
      assert items[..|items|] == items;
    }

    /** `_on_delete_movie`, after the question was answered: on yes the row is deleted
        and, only when the catalog returned the deleted movie, the directory of its file
        is removed, with a warning when that fails (`removeError`); the library is then
        refreshed. */
    method DeleteMovie(root: string, movie: Movie, confirmed: bool, deleted: Option<Movie>,
                       removeError: Option<string>)
      modifies this`effects
      ensures effects == old(effects) + (if !confirmed then [] else
        [DeleteMovieRow(movie.id)]
        + (if deleted.Some? then [RemoveTree(Dirname(PathJoin(root, movie.moviePath)))] else [])
        + (if deleted.Some? && removeError.Some? then [Warned(RemoveWarning(removeError.value))] else [])
        + [Refreshed])
    {
      if confirmed {
        effects := effects + [DeleteMovieRow(movie.id)];
        if deleted.Some? {
          effects := effects + [RemoveTree(Dirname(PathJoin(root, movie.moviePath)))];
          if removeError.Some? {
            effects := effects + [Warned(RemoveWarning(removeError.value))];
          }
        }
        effects := effects + [Refreshed];
      }
    }

    /** The loop of `_on_delete_show` over the gathered set: each directory is removed
        once, in an order nothing fixes. */
    method RemoveEach(dirs: set<string>) returns (ghost order: seq<string>)
      modifies this`effects
      ensures forall d :: d in order <==> d in dirs
      ensures |order| == |dirs|
      ensures effects == old(effects) + RemoveTrees(order)
    {
      order := [];
      var todo := dirs;
      while todo != {}
        invariant todo <= dirs
        invariant forall d :: d in order <==> d in dirs && d !in todo
        invariant |order| + |todo| == |dirs|
        invariant effects == old(effects) + RemoveTrees(order)
        decreases |todo|
      {
        var d :| d in todo;
        assert RemoveTrees(order + [d]) == RemoveTrees(order) + [RemoveTree(d)];
        effects := effects + [RemoveTree(d)];
        order := order + [d];
        todo := todo - {d};
      }
    }

    /** `_on_delete_show`, after the question was answered: on yes the directories are
        gathered from the show as it was shown, the row is deleted, every gathered
        directory is removed once (in the set's order, which nothing fixes), the directory
        named after the lower-cased title is removed if it is empty, and the library is
        refreshed. */
    method DeleteShow(root: string, show: Show, confirmed: bool) returns (ghost order: seq<string>)
      modifies this`effects
      ensures !confirmed ==> effects == old(effects)
      ensures confirmed ==>
        && (forall d :: d in order <==> d in ShowDirs(root, show))
        && |order| == |ShowDirs(root, show)|
        && effects == old(effects) + [DeleteShowRow(show.id)] + RemoveTrees(order)
             + [RemoveIfEmpty(ShowSlugDirAsWritten(root, show.title)), Refreshed]
    {
      order := [];
      if confirmed {
        var dirs := CollectShowDirs(root, show);
        effects := effects + [DeleteShowRow(show.id)];
        order := RemoveEach(dirs);
        effects := effects + [RemoveIfEmpty(ShowSlugDirAsWritten(root, show.title)), Refreshed];
      }
    }
  }
}
