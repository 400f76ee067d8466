/** The catalog's tables and the values its queries return (BebeFlix/database.py and the
    older movie-only database.py). A table is a map from row id to row; ids come from an
    AUTOINCREMENT counter, so every key lies in [1, counter). `date_added` is an abstract
    ordered timestamp supplied by the caller's clock. Rows come back in row-id order
    before any `ORDER BY` is applied, which is SQLite's table-scan order. */
module CatalogModel {
  import opened Wrappers
  import opened Text
  import opened Sorting
  import opened SqlLike

  type Timestamp = int

  /** A subtitle dict handed to `add_movie`; any of its keys may be missing. */
  datatype SubtitleEntry = SubtitleEntry(
    subPath: Option<string>, caption: Option<string>,
    isEmbedded: Option<bool>, trackIndex: Option<int>)

  datatype SubtitleRow = SubtitleRow(
    movieId: int, subPath: string, caption: string, isEmbedded: bool, trackIndex: int)

  datatype MovieRow = MovieRow(
    title: string, moviePath: string, thumbPath: string, dateAdded: Timestamp,
    lastPosition: real, duration: real)

  /** The `Movie` dataclass a query returns: the row plus its `(sub_path, label)` pairs. */
  datatype Movie = Movie(
    id: int, title: string, moviePath: string, thumbPath: string, dateAdded: Timestamp,
    lastPosition: real, duration: real, subtitlePaths: seq<(string, string)>)

  datatype ShowRow = ShowRow(title: string, thumbPath: string, dateAdded: Timestamp)

  datatype SeasonRow = SeasonRow(showId: int, seasonNumber: int, dateAdded: Timestamp)

  datatype EpisodeRow = EpisodeRow(
    seasonId: int, episodeNumber: int, title: string, moviePath: string,
    lastPosition: real, duration: real, dateAdded: Timestamp)

  datatype Episode = Episode(
    id: int, seasonId: int, episodeNumber: int, title: string, moviePath: string,
    lastPosition: real, duration: real, dateAdded: Timestamp)

  datatype Season = Season(
    id: int, showId: int, seasonNumber: int, dateAdded: Timestamp, episodes: seq<Episode>)

  datatype Show = Show(
    id: int, title: string, thumbPath: string, dateAdded: Timestamp, seasons: seq<Season>)

  // ---- Table scans --------------------------------------------------------------------

  /** `SELECT view FROM m WHERE keep` over the row ids below `n`, in row-id order. */
  function Scan<R, V>(m: map<int, R>, n: nat, keep: (int, R) -> bool, view: (int, R) -> V): seq<V>
  {
    if n == 0 then []
    else
      Scan(m, n - 1, keep, view)
      + (if n - 1 in m && keep(n - 1, m[n - 1]) then [view(n - 1, m[n - 1])] else [])
  }

  /** `s` holds exactly the kept rows of `m` below `n`, each once, in increasing id
      order, as seen through `view`; `idOf` reads a row's id back from its view. */
  ghost predicate ExactScan<R, V>(
    s: seq<V>, m: map<int, R>, n: nat, keep: (int, R) -> bool, view: (int, R) -> V, idOf: V -> int)
  {
    && (forall i :: 0 <= i < |s| ==>
          0 <= idOf(s[i]) < n && idOf(s[i]) in m && keep(idOf(s[i]), m[idOf(s[i])])
          && s[i] == view(idOf(s[i]), m[idOf(s[i])]))
    && (forall k :: 0 <= k < n && k in m && keep(k, m[k]) ==> view(k, m[k]) in s)
    && (forall i, j :: 0 <= i < j < |s| ==> idOf(s[i]) < idOf(s[j]))
  }

  /** A scan returns exactly the kept rows below `n`, when every view records the id of
      its row. */
  lemma {:induction false} ScanExact<R, V>(
    m: map<int, R>, n: nat, keep: (int, R) -> bool, view: (int, R) -> V, idOf: V -> int)
    requires forall k, row :: idOf(view(k, row)) == k
    ensures ExactScan(Scan(m, n, keep, view), m, n, keep, view, idOf)
  {
    if n > 0 {
      ScanExact(m, n - 1, keep, view, idOf);
      var prev := Scan(m, n - 1, keep, view);
      if n - 1 in m && keep(n - 1, m[n - 1]) {
        ScanExactStep(prev, m, n, keep, view, idOf);
      } else {
        ScanExactSkip(prev, m, n, keep, view, idOf);
      }
    }
  }

  /** No kept row at id `n - 1`: an exact scan below `n - 1` is one below `n`. */
  lemma ScanExactSkip<R, V>(
    prev: seq<V>, m: map<int, R>, n: nat, keep: (int, R) -> bool, view: (int, R) -> V, idOf: V -> int)
    requires n > 0 && !(n - 1 in m && keep(n - 1, m[n - 1]))
    requires ExactScan(prev, m, n - 1, keep, view, idOf)
    ensures ExactScan(prev, m, n, keep, view, idOf)
  {
  }

  /** One kept row at id `n - 1` extends an exact scan below `n - 1` to one below `n`. */
  lemma ScanExactStep<R, V>(
    prev: seq<V>, m: map<int, R>, n: nat, keep: (int, R) -> bool, view: (int, R) -> V, idOf: V -> int)
    requires n > 0 && n - 1 in m && keep(n - 1, m[n - 1])
    requires idOf(view(n - 1, m[n - 1])) == n - 1
    requires ExactScan(prev, m, n - 1, keep, view, idOf)
    ensures ExactScan(prev + [view(n - 1, m[n - 1])], m, n, keep, view, idOf)
  {
    var s := prev + [view(n - 1, m[n - 1])];
    assert forall i :: 0 <= i < |prev| ==> s[i] == prev[i];
    assert s[|prev|] == view(n - 1, m[n - 1]);
  }

  /** A permutation of a list holds the same members. */
  lemma SameMembers<T>(r: seq<T>, l: seq<T>)
    requires multiset(r) == multiset(l)
    ensures forall x :: x in r <==> x in l
  {
    forall x
      ensures x in r <==> x in l
    {
      assert x in r <==> x in multiset(r);
      assert x in l <==> x in multiset(l);
    }
  }

  /** Two scans agree when they keep the same ids below the bound and see the same view
      of each kept row. */
  lemma {:induction false} ScanAgree<R, V>(
    m1: map<int, R>, m2: map<int, R>, n: nat,
    keep1: (int, R) -> bool, keep2: (int, R) -> bool, view1: (int, R) -> V, view2: (int, R) -> V)
    requires forall k :: 0 <= k < n ==> (k in m1 && keep1(k, m1[k])) == (k in m2 && keep2(k, m2[k]))
    requires forall k :: 0 <= k < n && k in m1 && keep1(k, m1[k]) ==>
      k in m2 && view1(k, m1[k]) == view2(k, m2[k])
    ensures Scan(m1, n, keep1, view1) == Scan(m2, n, keep2, view2)
  {
    if n > 0 {
      ScanAgree(m1, m2, n - 1, keep1, keep2, view1, view2);
    }
  }

  /** Raising the bound over ids with no kept row leaves the scan unchanged. */
  lemma {:induction false} ScanNoneAbove<R, V>(
    m: map<int, R>, lo: nat, hi: nat, keep: (int, R) -> bool, view: (int, R) -> V)
    requires lo <= hi
    requires forall k :: lo <= k < hi && k in m ==> !keep(k, m[k])
    ensures Scan(m, hi, keep, view) == Scan(m, lo, keep, view)
    decreases hi
  {
    if lo < hi {
      ScanNoneAbove(m, lo, hi - 1, keep, view);
    }
  }

  function AnyRow<R>(): (int, R) -> bool {
    (k: int, row: R) => true
  }

  // ---- Movies and subtitles -----------------------------------------------------------

  /** The row `add_movie` inserts for one entry: `sub.get(key, default)` for each column. */
  function SubtitleRowOf(movieId: int, e: SubtitleEntry): (r: SubtitleRow)
    ensures r.movieId == movieId
    ensures r.subPath == e.subPath.GetOr("") && r.caption == e.caption.GetOr("")
    ensures r.isEmbedded == e.isEmbedded.GetOr(false) && r.trackIndex == e.trackIndex.GetOr(0)
  {
    SubtitleRow(movieId, e.subPath.GetOr(""), e.caption.GetOr(""),
                e.isEmbedded.GetOr(false), e.trackIndex.GetOr(0))
  }

  /** The subtitle rows `add_movie` inserts, one per entry, at ids `next`, `next + 1`, ... */
  function InsertSubtitles(subs: map<int, SubtitleRow>, next: int, movieId: int, entries: seq<SubtitleEntry>)
    : map<int, SubtitleRow>
  {
    if entries == [] then subs
    else
      InsertSubtitles(subs, next, movieId, entries[..|entries| - 1])
        [next + |entries| - 1 := SubtitleRowOf(movieId, entries[|entries| - 1])]
  }

  function OwnedBy(movieId: int): (int, SubtitleRow) -> bool {
    (k: int, r: SubtitleRow) => r.movieId == movieId
  }

  function PathAndLabel(): (int, SubtitleRow) -> (string, string) {
    (k: int, r: SubtitleRow) => (r.subPath, r.caption)
  }

  /** `SELECT sub_path, label FROM subtitles WHERE movie_id = ?`. */
  function SubtitlePairs(subs: map<int, SubtitleRow>, subBound: nat, movieId: int): seq<(string, string)> {
    Scan(subs, subBound, OwnedBy(movieId), PathAndLabel())
  }

  /** The `(sub_path, label)` pairs of the entries, with the defaults for missing keys. */
  function EntryPairs(entries: seq<SubtitleEntry>): (r: seq<(string, string)>)
    ensures |r| == |entries|
    ensures forall i :: 0 <= i < |entries| ==>
      r[i] == (entries[i].subPath.GetOr(""), entries[i].caption.GetOr(""))
  {
    seq(|entries|, i requires 0 <= i < |entries| =>
      (entries[i].subPath.GetOr(""), entries[i].caption.GetOr("")))
  }

  function MovieOf(id: int, row: MovieRow, pairs: seq<(string, string)>): Movie {
    Movie(id, row.title, row.moviePath, row.thumbPath, row.dateAdded,
          row.lastPosition, row.duration, pairs)
  }

  /** The `Movie` built from a row and its own subtitle rows. */
  function MovieView(subs: map<int, SubtitleRow>, subBound: nat): (int, MovieRow) -> Movie {
    (k: int, row: MovieRow) => MovieOf(k, row, SubtitlePairs(subs, subBound, k))
  }

  /** `get_movie(id)`: `None` when there is no row with that id. */
  function MovieValue(movies: map<int, MovieRow>, subs: map<int, SubtitleRow>, subBound: nat, id: int)
    : Option<Movie>
  {
    if id in movies then Some(MovieView(subs, subBound)(id, movies[id])) else None
  }

  /** The rows of `SELECT * FROM movies` before ordering. */
  function MovieList(movies: map<int, MovieRow>, movieBound: nat, subs: map<int, SubtitleRow>, subBound: nat)
    : seq<Movie>
  {
    Scan(movies, movieBound, AnyRow(), MovieView(subs, subBound))
  }

  function TitleMatches(query: string): (int, MovieRow) -> bool {
    (k: int, row: MovieRow) => Like(SearchPattern(query), row.title)
  }

  /** The rows of `SELECT * FROM movies WHERE title LIKE '%query%'` before ordering. */
  function MovieSearchList(
    movies: map<int, MovieRow>, movieBound: nat, subs: map<int, SubtitleRow>, subBound: nat, query: string)
    : seq<Movie>
  {
    Scan(movies, movieBound, TitleMatches(query), MovieView(subs, subBound))
  }

  /** `ON DELETE CASCADE` from a movie to its subtitles. */
  function SubtitlesWithout(subs: map<int, SubtitleRow>, movieId: int): map<int, SubtitleRow> {
    map k | k in subs && subs[k].movieId != movieId :: subs[k]
  }

  /** Any ordering of `get_all_movies`' rows holds exactly the stored movies, each as
      `get_movie` returns it. */
  lemma MovieListMembers(
    movies: map<int, MovieRow>, movieBound: nat, subs: map<int, SubtitleRow>, subBound: nat, r: seq<Movie>)
    requires forall id :: id in movies ==> 0 <= id < movieBound
    requires multiset(r) == multiset(MovieList(movies, movieBound, subs, subBound))
    ensures forall m :: m in r <==> m.id in movies && MovieValue(movies, subs, subBound, m.id) == Some(m)
  {
    SameMembers(r, MovieList(movies, movieBound, subs, subBound));
    ScanExact(movies, movieBound, AnyRow(), MovieView(subs, subBound), MovieId);
  }

  /** Any ordering of `search_movies`' rows holds exactly the stored movies whose title
      matches the pattern. */
  lemma MovieSearchMembers(
    movies: map<int, MovieRow>, movieBound: nat, subs: map<int, SubtitleRow>, subBound: nat, query: string,
    r: seq<Movie>)
    requires forall id :: id in movies ==> 0 <= id < movieBound
    requires multiset(r) == multiset(MovieSearchList(movies, movieBound, subs, subBound, query))
    ensures forall m :: m in r <==>
      m.id in movies && MovieValue(movies, subs, subBound, m.id) == Some(m) && Like(SearchPattern(query), m.title)
  {
    SameMembers(r, MovieSearchList(movies, movieBound, subs, subBound, query));
    ScanExact(movies, movieBound, TitleMatches(query), MovieView(subs, subBound), MovieId);
  }

  /** `get_all_movies` in either direction: sorted, a permutation of the stored rows,
      and holding exactly the stored movies, each as `get_movie` returns it. */
  lemma MovieListOrdered(
    movies: map<int, MovieRow>, movieBound: nat, subs: map<int, SubtitleRow>, subBound: nat,
    sortBy: string, ascending: bool)
    requires forall id :: id in movies ==> 0 <= id < movieBound
    ensures Sorted(Sort(MovieList(movies, movieBound, subs, subBound), Direction(MovieOrder(sortBy), ascending)),
                   Direction(MovieOrder(sortBy), ascending))
    ensures multiset(Sort(MovieList(movies, movieBound, subs, subBound), Direction(MovieOrder(sortBy), ascending)))
         == multiset(MovieList(movies, movieBound, subs, subBound))
    ensures forall m :: (m in Sort(MovieList(movies, movieBound, subs, subBound), Direction(MovieOrder(sortBy), ascending))
      <==> m.id in movies && MovieValue(movies, subs, subBound, m.id) == Some(m))
  {
    var l := MovieList(movies, movieBound, subs, subBound);
    MovieAndShowOrdersTotal(sortBy);
    SortDirectionSorted(l, MovieOrder(sortBy), ascending);
    MovieListMembers(movies, movieBound, subs, subBound, Sort(l, Direction(MovieOrder(sortBy), ascending)));
  }

  /** `search_movies` in either direction: sorted, a permutation of the matching rows,
      and holding exactly the stored movies whose title matches. */
  lemma MovieSearchOrdered(
    movies: map<int, MovieRow>, movieBound: nat, subs: map<int, SubtitleRow>, subBound: nat, query: string,
    sortBy: string, ascending: bool)
    requires forall id :: id in movies ==> 0 <= id < movieBound
    ensures Sorted(Sort(MovieSearchList(movies, movieBound, subs, subBound, query), Direction(MovieOrder(sortBy), ascending)),
                   Direction(MovieOrder(sortBy), ascending))
    ensures multiset(Sort(MovieSearchList(movies, movieBound, subs, subBound, query), Direction(MovieOrder(sortBy), ascending)))
         == multiset(MovieSearchList(movies, movieBound, subs, subBound, query))
    ensures forall m :: (m in Sort(MovieSearchList(movies, movieBound, subs, subBound, query), Direction(MovieOrder(sortBy), ascending))
      <==> m.id in movies && MovieValue(movies, subs, subBound, m.id) == Some(m) && Like(SearchPattern(query), m.title))
  {
    var l := MovieSearchList(movies, movieBound, subs, subBound, query);
    MovieAndShowOrdersTotal(sortBy);
    SortDirectionSorted(l, MovieOrder(sortBy), ascending);
    MovieSearchMembers(movies, movieBound, subs, subBound, query, Sort(l, Direction(MovieOrder(sortBy), ascending)));
  }

  /** `InsertSubtitles` keeps the earlier rows and adds the entry rows at ids
      `next .. next + |entries| - 1`, and nothing else. */
  lemma {:induction false} InsertSubtitlesShape(
    subs: map<int, SubtitleRow>, next: int, movieId: int, entries: seq<SubtitleEntry>)
    requires forall key :: key in subs ==> key < next
    ensures forall k ::
      k in InsertSubtitles(subs, next, movieId, entries) <==> k in subs || next <= k < next + |entries|
    ensures forall k :: k in subs ==> InsertSubtitles(subs, next, movieId, entries)[k] == subs[k]
    ensures forall k :: next <= k < next + |entries| ==>
      InsertSubtitles(subs, next, movieId, entries)[k] == SubtitleRowOf(movieId, entries[k - next])
  {
    if entries != [] {
      var init := entries[..|entries| - 1];
      InsertSubtitlesShape(subs, next, movieId, init);
      assert forall i :: 0 <= i < |init| ==> init[i] == entries[i];
    }
  }

  /** The insertion made by `add_movie` is read back by `get_movie`: the subtitle pairs of
      the new movie are exactly those of its entries, in entry order, when no earlier
      subtitle row belongs to the new id. */
  lemma {:induction false} InsertedPairs(
    subs: map<int, SubtitleRow>, next: nat, movieId: int, entries: seq<SubtitleEntry>)
    requires forall key :: key in subs ==> key < next && subs[key].movieId != movieId
    ensures SubtitlePairs(InsertSubtitles(subs, next, movieId, entries), next + |entries|, movieId)
         == EntryPairs(entries)
  {
    if entries == [] {
      NoOwnedBelow(subs, next, movieId);
    } else {
      var init := entries[..|entries| - 1];
      var before := InsertSubtitles(subs, next, movieId, init);
      InsertedPairs(subs, next, movieId, init);
      PairsAfterAppend(before, next + |init|, movieId, SubtitleRowOf(movieId, entries[|init|]));
      assert EntryPairs(entries) == EntryPairs(init) + [EntryPairs(entries)[|init|]];
    }
  }

  /** A row of movie `movieId` stored at id `n` adds its pair at the end of the movie's
      subtitle pairs. */
  lemma PairsAfterAppend(subs: map<int, SubtitleRow>, n: nat, movieId: int, row: SubtitleRow)
    requires row.movieId == movieId
    ensures SubtitlePairs(subs[n := row], n + 1, movieId) == SubtitlePairs(subs, n, movieId) + [(row.subPath, row.caption)]
  {
    ScanAgree(subs[n := row], subs, n, OwnedBy(movieId), OwnedBy(movieId), PathAndLabel(), PathAndLabel());
  }

  lemma {:induction false} NoOwnedBelow(subs: map<int, SubtitleRow>, n: nat, movieId: int)
    requires forall key :: key in subs && key < n ==> subs[key].movieId != movieId
    ensures SubtitlePairs(subs, n, movieId) == []
  {
    if n > 0 {
      NoOwnedBelow(subs, n - 1, movieId);
    }
  }

  /** `add_movie` followed by `get_movie(id)` returns the given fields, position and
      duration 0, and the entries' `(sub_path, label)` pairs. */
  lemma AddMovieRoundTrip(
    movies: map<int, MovieRow>, subs: map<int, SubtitleRow>, subBound: nat,
    id: int, title: string, moviePath: string, thumbPath: string, now: Timestamp,
    entries: seq<SubtitleEntry>)
    requires forall key :: key in subs ==> key < subBound && subs[key].movieId != id
    ensures MovieValue(movies[id := MovieRow(title, moviePath, thumbPath, now, 0.0, 0.0)],
                       InsertSubtitles(subs, subBound, id, entries), subBound + |entries|, id)
         == Some(Movie(id, title, moviePath, thumbPath, now, 0.0, 0.0, EntryPairs(entries)))
  {
    InsertedPairs(subs, subBound, id, entries);
  }

  /** Adding a movie leaves what `get_movie` returns for every other id unchanged: the
      new subtitle rows all belong to the new movie. */
  lemma AddMovieKeepsOthers(
    movies: map<int, MovieRow>, subs: map<int, SubtitleRow>, subBound: nat,
    id: int, row: MovieRow, entries: seq<SubtitleEntry>, k: int)
    requires forall key :: key in subs ==> key < subBound
    requires k != id
    ensures MovieValue(movies[id := row], InsertSubtitles(subs, subBound, id, entries), subBound + |entries|, k)
         == MovieValue(movies, subs, subBound, k)
  {
    var subs' := InsertSubtitles(subs, subBound, id, entries);
    InsertSubtitlesShape(subs, subBound, id, entries);
    ScanNoneAbove(subs', subBound, subBound + |entries|, OwnedBy(k), PathAndLabel());
    ScanAgree(subs', subs, subBound, OwnedBy(k), OwnedBy(k), PathAndLabel(), PathAndLabel());
    assert SubtitlePairs(subs', subBound + |entries|, k) == SubtitlePairs(subs, subBound, k);
  }

  /** Both effects of `add_movie` at once, as the method relies on them. */
  lemma AddMovieEffect(
    movies: map<int, MovieRow>, subs: map<int, SubtitleRow>, subBound: nat,
    id: int, title: string, moviePath: string, thumbPath: string, now: Timestamp,
    entries: seq<SubtitleEntry>)
    requires forall key :: key in subs ==> key < subBound && subs[key].movieId in movies
    requires id !in movies
    ensures MovieValue(movies[id := MovieRow(title, moviePath, thumbPath, now, 0.0, 0.0)],
                       InsertSubtitles(subs, subBound, id, entries), subBound + |entries|, id)
         == Some(Movie(id, title, moviePath, thumbPath, now, 0.0, 0.0, EntryPairs(entries)))
    ensures forall k :: k != id ==>
      MovieValue(movies[id := MovieRow(title, moviePath, thumbPath, now, 0.0, 0.0)],
                 InsertSubtitles(subs, subBound, id, entries), subBound + |entries|, k)
      == MovieValue(movies, subs, subBound, k)
  {
    AddMovieRoundTrip(movies, subs, subBound, id, title, moviePath, thumbPath, now, entries);
    forall k | k != id
      ensures MovieValue(movies[id := MovieRow(title, moviePath, thumbPath, now, 0.0, 0.0)],
                         InsertSubtitles(subs, subBound, id, entries), subBound + |entries|, k)
           == MovieValue(movies, subs, subBound, k)
    {
      AddMovieKeepsOthers(movies, subs, subBound, id, MovieRow(title, moviePath, thumbPath, now, 0.0, 0.0), entries, k);
    }
  }

  /** After `delete_movie(id)` and its cascade, `get_movie(id)` finds nothing and every
      other movie reads back as before. */
  lemma DeleteMovieEffect(movies: map<int, MovieRow>, subs: map<int, SubtitleRow>, subBound: nat, id: int, k: int)
    ensures MovieValue(movies - {id}, SubtitlesWithout(subs, id), subBound, id) == None
    ensures k != id ==>
      MovieValue(movies - {id}, SubtitlesWithout(subs, id), subBound, k) == MovieValue(movies, subs, subBound, k)
  {
    if k != id {
      ScanAgree(SubtitlesWithout(subs, id), subs, subBound, OwnedBy(k), OwnedBy(k), PathAndLabel(), PathAndLabel());
      assert SubtitlePairs(SubtitlesWithout(subs, id), subBound, k) == SubtitlePairs(subs, subBound, k);
    }
  }

  /** A movie's `subtitle_paths` holds the `(sub_path, label)` pair of each of its own
      subtitle rows and no other pair. */
  lemma {:induction false} SubtitlePairsOwn(subs: map<int, SubtitleRow>, n: nat, movieId: int)
    ensures forall p :: p in SubtitlePairs(subs, n, movieId) ==>
      exists k :: 0 <= k < n && k in subs && subs[k].movieId == movieId && p == (subs[k].subPath, subs[k].caption)
    ensures forall k :: 0 <= k < n && k in subs && subs[k].movieId == movieId ==>
      (subs[k].subPath, subs[k].caption) in SubtitlePairs(subs, n, movieId)
  {
    if n > 0 {
      SubtitlePairsOwn(subs, n - 1, movieId);
      var prev := SubtitlePairs(subs, n - 1, movieId);
      forall p | p in SubtitlePairs(subs, n, movieId)
        ensures exists k :: 0 <= k < n && k in subs && subs[k].movieId == movieId
                            && p == (subs[k].subPath, subs[k].caption)
      {
        if p !in prev {
          assert n - 1 in subs && p == (subs[n - 1].subPath, subs[n - 1].caption);
        }
      }
    }
  }

  // ---- Shows, seasons, episodes -------------------------------------------------------

  function EpisodeOf(id: int, r: EpisodeRow): Episode {
    Episode(id, r.seasonId, r.episodeNumber, r.title, r.moviePath,
            r.lastPosition, r.duration, r.dateAdded)
  }

  function InSeason(seasonId: int): (int, EpisodeRow) -> bool {
    (k: int, r: EpisodeRow) => r.seasonId == seasonId
  }

  function EpisodeView(): (int, EpisodeRow) -> Episode {
    (k: int, r: EpisodeRow) => EpisodeOf(k, r)
  }

  /** `ORDER BY episode_number ASC`. */
  function EpisodeNumberLe(): (Episode, Episode) -> bool {
    (a: Episode, b: Episode) => a.episodeNumber <= b.episodeNumber
  }

  /** `ORDER BY season_number ASC`. */
  function SeasonNumberLe(): (Season, Season) -> bool {
    (a: Season, b: Season) => a.seasonNumber <= b.seasonNumber
  }

  /** `SELECT * FROM episodes WHERE season_id = ? ORDER BY episode_number ASC`. */
  function SeasonEpisodes(episodes: map<int, EpisodeRow>, episodeBound: nat, seasonId: int): seq<Episode> {
    Sort(Scan(episodes, episodeBound, InSeason(seasonId), EpisodeView()), EpisodeNumberLe())
  }

  function OfShow(showId: int): (int, SeasonRow) -> bool {
    (k: int, r: SeasonRow) => r.showId == showId
  }

  function SeasonOf(id: int, r: SeasonRow, episodes: seq<Episode>): Season {
    Season(id, r.showId, r.seasonNumber, r.dateAdded, episodes)
  }

  /** The `Season` built from a row and its own episodes. */
  function SeasonView(episodes: map<int, EpisodeRow>, episodeBound: nat): (int, SeasonRow) -> Season {
    (k: int, r: SeasonRow) => SeasonOf(k, r, SeasonEpisodes(episodes, episodeBound, k))
  }

  /** `_get_seasons(show_id)`: the show's seasons by ascending number, each holding its
      episodes by ascending number. */
  function ShowSeasons(
    seasons: map<int, SeasonRow>, seasonBound: nat, episodes: map<int, EpisodeRow>, episodeBound: nat,
    showId: int): seq<Season>
  {
    Sort(Scan(seasons, seasonBound, OfShow(showId), SeasonView(episodes, episodeBound)), SeasonNumberLe())
  }

  function ShowOf(id: int, r: ShowRow, seasons: seq<Season>): Show {
    Show(id, r.title, r.thumbPath, r.dateAdded, seasons)
  }

  /** The `Show` built from a row and its own season tree. */
  function ShowView(
    seasons: map<int, SeasonRow>, seasonBound: nat, episodes: map<int, EpisodeRow>, episodeBound: nat)
    : (int, ShowRow) -> Show
  {
    (k: int, r: ShowRow) => ShowOf(k, r, ShowSeasons(seasons, seasonBound, episodes, episodeBound, k))
  }

  /** `get_show(id)`: `None` when there is no row with that id. */
  function ShowValue(
    shows: map<int, ShowRow>, seasons: map<int, SeasonRow>, seasonBound: nat,
    episodes: map<int, EpisodeRow>, episodeBound: nat, id: int): Option<Show>
  {
    if id in shows then Some(ShowView(seasons, seasonBound, episodes, episodeBound)(id, shows[id])) else None
  }

  /** The rows of `SELECT * FROM shows` before ordering. */
  function ShowList(
    shows: map<int, ShowRow>, showBound: nat, seasons: map<int, SeasonRow>, seasonBound: nat,
    episodes: map<int, EpisodeRow>, episodeBound: nat): seq<Show>
  {
    Scan(shows, showBound, AnyRow(), ShowView(seasons, seasonBound, episodes, episodeBound))
  }

  function ShowTitleMatches(query: string): (int, ShowRow) -> bool {
    (k: int, row: ShowRow) => Like(SearchPattern(query), row.title)
  }

  /** The rows of `SELECT * FROM shows WHERE title LIKE '%query%'` before ordering. */
  function ShowSearchList(
    shows: map<int, ShowRow>, showBound: nat, seasons: map<int, SeasonRow>, seasonBound: nat,
    episodes: map<int, EpisodeRow>, episodeBound: nat, query: string): seq<Show>
  {
    Scan(shows, showBound, ShowTitleMatches(query), ShowView(seasons, seasonBound, episodes, episodeBound))
  }

  function IdAndTitle(): (int, ShowRow) -> (int, string) {
    (k: int, r: ShowRow) => (k, r.title)
  }

  function PairId(p: (int, string)): int { p.0 }

  /** `SELECT id, title FROM shows` before ordering. */
  function ShowTitleList(shows: map<int, ShowRow>, showBound: nat): seq<(int, string)> {
    Scan(shows, showBound, AnyRow(), IdAndTitle())
  }

  /** `ORDER BY LOWER(title) ASC` on `(id, title)` pairs. */
  function PairTitleLe(): ((int, string), (int, string)) -> bool {
    (a: (int, string), b: (int, string)) => StrLe(Lower(a.1), Lower(b.1))
  }

  /** `SELECT MAX(season_number) FROM seasons WHERE show_id = ?` over ids below `n`. */
  function MaxSeasonNumber(seasons: map<int, SeasonRow>, n: nat, showId: int): Option<int> {
    if n == 0 then None
    else
      var below := MaxSeasonNumber(seasons, n - 1, showId);
      if n - 1 in seasons && seasons[n - 1].showId == showId then
        var x := seasons[n - 1].seasonNumber;
        Some(if below.Some? && below.value > x then below.value else x)
      else below
  }

  /** `(MAX(season_number) or 0) + 1`. */
  function NextSeasonNumber(seasons: map<int, SeasonRow>, seasonBound: nat, showId: int): int {
    MaxSeasonNumber(seasons, seasonBound, showId).GetOr(0) + 1
  }

  predicate HasSeason(seasons: map<int, SeasonRow>, n: nat, showId: int, k: int) {
    0 <= k < n && k in seasons && seasons[k].showId == showId
  }

  /** The maximum is attained by one of the show's seasons and bounds all of them; it is
      `None` exactly when the show has no season. */
  lemma {:induction false} MaxSeasonNumberIsMax(seasons: map<int, SeasonRow>, n: nat, showId: int)
    ensures var mx := MaxSeasonNumber(seasons, n, showId);
      && (mx.None? <==> forall k :: !HasSeason(seasons, n, showId, k))
      && (mx.Some? ==> exists k :: HasSeason(seasons, n, showId, k) && seasons[k].seasonNumber == mx.value)
      && (forall k :: HasSeason(seasons, n, showId, k) ==> mx.Some? && seasons[k].seasonNumber <= mx.value)
  {
    if n > 0 {
      MaxSeasonNumberIsMax(seasons, n - 1, showId);
      var below := MaxSeasonNumber(seasons, n - 1, showId);
      if n - 1 in seasons && seasons[n - 1].showId == showId {
        assert HasSeason(seasons, n, showId, n - 1);
        if below.Some? {
          var k :| HasSeason(seasons, n - 1, showId, k) && seasons[k].seasonNumber == below.value;
          assert HasSeason(seasons, n, showId, k);
        }
      } else if below.Some? {
        var k :| HasSeason(seasons, n - 1, showId, k) && seasons[k].seasonNumber == below.value;
        assert HasSeason(seasons, n, showId, k);
      }
    }
  }

  /** `get_next_season_number`: 1 for a show without seasons, otherwise one more than
      the largest season number of that show (seasons {1, 2, 4} give 5). */
  lemma NextSeasonNumberSpec(seasons: map<int, SeasonRow>, seasonBound: nat, showId: int)
    ensures var r := NextSeasonNumber(seasons, seasonBound, showId);
      && ((forall k :: !HasSeason(seasons, seasonBound, showId, k)) ==> r == 1)
      && (forall k :: HasSeason(seasons, seasonBound, showId, k) ==> seasons[k].seasonNumber < r)
      && ((exists k :: HasSeason(seasons, seasonBound, showId, k)) ==>
            exists k :: HasSeason(seasons, seasonBound, showId, k) && seasons[k].seasonNumber == r - 1)
  {
    MaxSeasonNumberIsMax(seasons, seasonBound, showId);
  }

  function EpisodeId(e: Episode): int { e.id }
  function SeasonId(s: Season): int { s.id }

  /** One season's episode list: sorted by number, and each episode belongs to the
      season and is stored. */
  lemma SeasonEpisodesOrdered(episodes: map<int, EpisodeRow>, episodeBound: nat, k: int)
    ensures Sorted(SeasonEpisodes(episodes, episodeBound, k), EpisodeNumberLe())
    ensures forall e :: e in SeasonEpisodes(episodes, episodeBound, k) ==> e.seasonId == k && e.id in episodes
  {
    var eps := Scan(episodes, episodeBound, InSeason(k), EpisodeView());
    SortSorted(eps, EpisodeNumberLe());
    ScanExact(episodes, episodeBound, InSeason(k), EpisodeView(), EpisodeId);
    forall e | e in SeasonEpisodes(episodes, episodeBound, k)
      ensures e.seasonId == k && e.id in episodes
    {
      assert e in multiset(eps);
    }
  }

  /** Every season `SeasonView` builds for a stored season row of the show holds its
      own episodes in order. */
  ghost predicate SeasonInTree(
    seasons: map<int, SeasonRow>, episodes: map<int, EpisodeRow>, showId: int, s: Season)
  {
    && s.showId == showId && s.id in seasons
    && Sorted(s.episodes, EpisodeNumberLe())
    && (forall e :: e in s.episodes ==> e.seasonId == s.id && e.id in episodes)
  }

  lemma ScannedSeasonsInTree(
    seasons: map<int, SeasonRow>, seasonBound: nat, episodes: map<int, EpisodeRow>, episodeBound: nat,
    showId: int)
    ensures forall s :: s in Scan(seasons, seasonBound, OfShow(showId), SeasonView(episodes, episodeBound)) ==>
      SeasonInTree(seasons, episodes, showId, s)
  {
    var view := SeasonView(episodes, episodeBound);
    var scan := Scan(seasons, seasonBound, OfShow(showId), view);
    ScanExact(seasons, seasonBound, OfShow(showId), view, SeasonId);
    forall s | s in scan
      ensures SeasonInTree(seasons, episodes, showId, s)
    {
      var i :| 0 <= i < |scan| && scan[i] == s;
      assert s == SeasonOf(s.id, seasons[s.id], SeasonEpisodes(episodes, episodeBound, s.id));
      SeasonEpisodesOrdered(episodes, episodeBound, s.id);
    }
  }

  /** `get_show` orders the tree: seasons by ascending number and, inside each season,
      episodes by ascending number; each season and episode belongs to its parent. */
  lemma ShowTreeOrdered(
    seasons: map<int, SeasonRow>, seasonBound: nat, episodes: map<int, EpisodeRow>, episodeBound: nat,
    showId: int)
    ensures Sorted(ShowSeasons(seasons, seasonBound, episodes, episodeBound, showId), SeasonNumberLe())
    ensures forall s :: s in ShowSeasons(seasons, seasonBound, episodes, episodeBound, showId) ==>
      && s.showId == showId && s.id in seasons
      && Sorted(s.episodes, EpisodeNumberLe())
      && (forall e :: e in s.episodes ==> e.seasonId == s.id && e.id in episodes)
  {
    var scan := Scan(seasons, seasonBound, OfShow(showId), SeasonView(episodes, episodeBound));
    SortSorted(scan, SeasonNumberLe());
    ScannedSeasonsInTree(seasons, seasonBound, episodes, episodeBound, showId);
    forall s | s in Sort(scan, SeasonNumberLe())
      ensures SeasonInTree(seasons, episodes, showId, s)
    {
      assert s in multiset(scan);
    }
  }

  /** `ON DELETE CASCADE` from a show to its seasons. */
  function SeasonsWithout(seasons: map<int, SeasonRow>, showId: int): map<int, SeasonRow> {
    map k | k in seasons && seasons[k].showId != showId :: seasons[k]
  }

  /** `ON DELETE CASCADE` from the removed seasons to their episodes. */
  function EpisodesWithout(episodes: map<int, EpisodeRow>, seasons: map<int, SeasonRow>, showId: int)
    : map<int, EpisodeRow>
  {
    map k | k in episodes && !(episodes[k].seasonId in seasons && seasons[episodes[k].seasonId].showId == showId)
      :: episodes[k]
  }

  /** Any ordering of `get_all_shows`' rows holds exactly the stored shows, each as
      `get_show` returns it. */
  lemma ShowListMembers(
    shows: map<int, ShowRow>, showBound: nat, seasons: map<int, SeasonRow>, seasonBound: nat,
    episodes: map<int, EpisodeRow>, episodeBound: nat, r: seq<Show>)
    requires forall id :: id in shows ==> 0 <= id < showBound
    requires multiset(r) == multiset(ShowList(shows, showBound, seasons, seasonBound, episodes, episodeBound))
    ensures forall s :: s in r <==>
      s.id in shows && ShowValue(shows, seasons, seasonBound, episodes, episodeBound, s.id) == Some(s)
  {
    SameMembers(r, ShowList(shows, showBound, seasons, seasonBound, episodes, episodeBound));
    ScanExact(shows, showBound, AnyRow(), ShowView(seasons, seasonBound, episodes, episodeBound), ShowId);
  }

  /** `get_all_shows` in either direction: sorted, a permutation of the stored rows, and
      holding exactly the stored shows, each as `get_show` returns it. */
  lemma ShowListOrdered(
    shows: map<int, ShowRow>, showBound: nat, seasons: map<int, SeasonRow>, seasonBound: nat,
    episodes: map<int, EpisodeRow>, episodeBound: nat, sortBy: string, ascending: bool)
    requires forall id :: id in shows ==> 0 <= id < showBound
    ensures Sorted(Sort(ShowList(shows, showBound, seasons, seasonBound, episodes, episodeBound),
                        Direction(ShowOrder(sortBy), ascending)),
                   Direction(ShowOrder(sortBy), ascending))
    ensures multiset(Sort(ShowList(shows, showBound, seasons, seasonBound, episodes, episodeBound),
                          Direction(ShowOrder(sortBy), ascending)))
         == multiset(ShowList(shows, showBound, seasons, seasonBound, episodes, episodeBound))
    ensures forall s :: s in Sort(ShowList(shows, showBound, seasons, seasonBound, episodes, episodeBound),
                                  Direction(ShowOrder(sortBy), ascending)) <==>
      s.id in shows && ShowValue(shows, seasons, seasonBound, episodes, episodeBound, s.id) == Some(s)
  {
    var l := ShowList(shows, showBound, seasons, seasonBound, episodes, episodeBound);
    MovieAndShowOrdersTotal(sortBy);
    SortDirectionSorted(l, ShowOrder(sortBy), ascending);
    ShowListMembers(shows, showBound, seasons, seasonBound, episodes, episodeBound,
                    Sort(l, Direction(ShowOrder(sortBy), ascending)));
  }

  /** Any ordering of `search_shows`' rows holds exactly the stored shows whose title
      matches the pattern. */
  lemma ShowSearchMembers(
    shows: map<int, ShowRow>, showBound: nat, seasons: map<int, SeasonRow>, seasonBound: nat,
    episodes: map<int, EpisodeRow>, episodeBound: nat, query: string, r: seq<Show>)
    requires forall id :: id in shows ==> 0 <= id < showBound
    requires multiset(r) == multiset(ShowSearchList(shows, showBound, seasons, seasonBound, episodes, episodeBound, query))
    ensures forall s :: s in r <==>
      && s.id in shows && ShowValue(shows, seasons, seasonBound, episodes, episodeBound, s.id) == Some(s)
      && Like(SearchPattern(query), s.title)
  {
    SameMembers(r, ShowSearchList(shows, showBound, seasons, seasonBound, episodes, episodeBound, query));
    ScanExact(shows, showBound, ShowTitleMatches(query), ShowView(seasons, seasonBound, episodes, episodeBound), ShowId);
  }

  /** `search_shows` in either direction: sorted, a permutation of the matching rows,
      and holding exactly the stored shows whose title matches. */
  lemma ShowSearchOrdered(
    shows: map<int, ShowRow>, showBound: nat, seasons: map<int, SeasonRow>, seasonBound: nat,
    episodes: map<int, EpisodeRow>, episodeBound: nat, query: string, sortBy: string, ascending: bool)
    requires forall id :: id in shows ==> 0 <= id < showBound
    ensures Sorted(Sort(ShowSearchList(shows, showBound, seasons, seasonBound, episodes, episodeBound, query),
                        Direction(ShowOrder(sortBy), ascending)),
                   Direction(ShowOrder(sortBy), ascending))
    ensures multiset(Sort(ShowSearchList(shows, showBound, seasons, seasonBound, episodes, episodeBound, query),
                          Direction(ShowOrder(sortBy), ascending)))
         == multiset(ShowSearchList(shows, showBound, seasons, seasonBound, episodes, episodeBound, query))
    ensures forall s :: s in Sort(ShowSearchList(shows, showBound, seasons, seasonBound, episodes, episodeBound, query),
                                  Direction(ShowOrder(sortBy), ascending)) <==>
      && s.id in shows && ShowValue(shows, seasons, seasonBound, episodes, episodeBound, s.id) == Some(s)
      && Like(SearchPattern(query), s.title)
  {
    var l := ShowSearchList(shows, showBound, seasons, seasonBound, episodes, episodeBound, query);
    MovieAndShowOrdersTotal(sortBy);
    SortDirectionSorted(l, ShowOrder(sortBy), ascending);
    ShowSearchMembers(shows, showBound, seasons, seasonBound, episodes, episodeBound, query,
                      Sort(l, Direction(ShowOrder(sortBy), ascending)));
  }

  /** Any ordering of `get_existing_show_titles`' rows holds exactly the stored
      `(id, title)` pairs. */
  lemma ShowTitleMembers(shows: map<int, ShowRow>, showBound: nat, r: seq<(int, string)>)
    requires forall id :: id in shows ==> 0 <= id < showBound
    requires multiset(r) == multiset(ShowTitleList(shows, showBound))
    ensures forall p :: p in r <==> p.0 in shows && shows[p.0].title == p.1
  {
    SameMembers(r, ShowTitleList(shows, showBound));
    ScanExact(shows, showBound, AnyRow(), IdAndTitle(), PairId);
    forall p: (int, string) | p.0 in shows && shows[p.0].title == p.1
      ensures p in r
    {
      assert IdAndTitle()(p.0, shows[p.0]) == p;
    }
  }

  /** A show none of whose seasons is stored reads back with no seasons. */
  lemma NoSeasonsOfShow(
    seasons: map<int, SeasonRow>, seasonBound: nat, episodes: map<int, EpisodeRow>, episodeBound: nat, showId: int)
    requires forall k :: k in seasons ==> seasons[k].showId != showId
    ensures ShowSeasons(seasons, seasonBound, episodes, episodeBound, showId) == []
  {
    ScanNoneAbove(seasons, 0, seasonBound, OfShow(showId), SeasonView(episodes, episodeBound));
  }

  /** A season none of whose episodes is stored reads back with no episodes. */
  lemma NoEpisodesOfSeason(episodes: map<int, EpisodeRow>, episodeBound: nat, seasonId: int)
    requires forall k :: k in episodes ==> episodes[k].seasonId != seasonId
    ensures SeasonEpisodes(episodes, episodeBound, seasonId) == []
  {
    ScanNoneAbove(episodes, 0, episodeBound, InSeason(seasonId), EpisodeView());
  }

  /** The scan behind `_get_seasons` of another show does not see a season added at
      id `seasonBound`. */
  lemma {:induction false} AddSeasonScan(
    seasons: map<int, SeasonRow>, seasonBound: nat, episodes: map<int, EpisodeRow>, episodeBound: nat,
    row: SeasonRow, k: int)
    requires forall key :: key in seasons ==> key < seasonBound
    requires k != row.showId
    ensures Scan(seasons[seasonBound := row], seasonBound + 1, OfShow(k), SeasonView(episodes, episodeBound))
         == Scan(seasons, seasonBound, OfShow(k), SeasonView(episodes, episodeBound))
  {
    var seasons' := seasons[seasonBound := row];
    var view := SeasonView(episodes, episodeBound);
    ScanAgree(seasons', seasons, seasonBound, OfShow(k), OfShow(k), view, view);
    ScanNoneAbove(seasons', seasonBound, seasonBound + 1, OfShow(k), view);
  }

  /** `add_season` stored at id `seasonBound` leaves the seasons of every other show as
      they were. */
  lemma AddSeasonKeepsOthers(
    seasons: map<int, SeasonRow>, seasonBound: nat, episodes: map<int, EpisodeRow>, episodeBound: nat,
    row: SeasonRow, k: int)
    requires forall key :: key in seasons ==> key < seasonBound
    requires k != row.showId
    ensures ShowSeasons(seasons[seasonBound := row], seasonBound + 1, episodes, episodeBound, k)
         == ShowSeasons(seasons, seasonBound, episodes, episodeBound, k)
  {
    AddSeasonScan(seasons, seasonBound, episodes, episodeBound, row, k);
  }

  /** `add_season` stored at id `seasonBound`: the show gains exactly one season, which
      has no episodes. */
  lemma AddSeasonAddsOne(
    seasons: map<int, SeasonRow>, seasonBound: nat, episodes: map<int, EpisodeRow>, episodeBound: nat,
    row: SeasonRow)
    requires forall key :: key in seasons ==> key < seasonBound
    requires forall key :: key in episodes ==> episodes[key].seasonId in seasons
    ensures multiset(ShowSeasons(seasons[seasonBound := row], seasonBound + 1, episodes, episodeBound, row.showId))
         == multiset(ShowSeasons(seasons, seasonBound, episodes, episodeBound, row.showId))
            + multiset{Season(seasonBound, row.showId, row.seasonNumber, row.dateAdded, [])}
  {
    var seasons' := seasons[seasonBound := row];
    var view := SeasonView(episodes, episodeBound);
    var keep := OfShow(row.showId);
    ScanAgree(seasons', seasons, seasonBound, keep, keep, view, view);
    NoEpisodesOfSeason(episodes, episodeBound, seasonBound);
    var added := Season(seasonBound, row.showId, row.seasonNumber, row.dateAdded, []);
    assert view(seasonBound, row) == added;
    assert Scan(seasons', seasonBound + 1, keep, view) == Scan(seasons, seasonBound, keep, view) + [added];
  }

  /** The scan behind another season's episode list does not see an episode added at
      id `episodeBound`. */
  lemma AddEpisodeScan(episodes: map<int, EpisodeRow>, episodeBound: nat, row: EpisodeRow, j: int)
    requires forall key :: key in episodes ==> key < episodeBound
    requires j != row.seasonId
    ensures Scan(episodes[episodeBound := row], episodeBound + 1, InSeason(j), EpisodeView())
         == Scan(episodes, episodeBound, InSeason(j), EpisodeView())
  {
    var episodes' := episodes[episodeBound := row];
    ScanAgree(episodes', episodes, episodeBound, InSeason(j), InSeason(j), EpisodeView(), EpisodeView());
    ScanNoneAbove(episodes', episodeBound, episodeBound + 1, InSeason(j), EpisodeView());
  }

  /** `add_episode` stored at id `episodeBound` leaves the episodes of every other season
      as they were. */
  lemma AddEpisodeKeepsOthers(episodes: map<int, EpisodeRow>, episodeBound: nat, row: EpisodeRow, j: int)
    requires forall key :: key in episodes ==> key < episodeBound
    requires j != row.seasonId
    ensures SeasonEpisodes(episodes[episodeBound := row], episodeBound + 1, j) == SeasonEpisodes(episodes, episodeBound, j)
  {
    AddEpisodeScan(episodes, episodeBound, row, j);
  }

  /** `add_episode` stored at id `episodeBound`: its season gains exactly that episode. */
  lemma AddEpisodeAddsOne(episodes: map<int, EpisodeRow>, episodeBound: nat, row: EpisodeRow)
    requires forall key :: key in episodes ==> key < episodeBound
    ensures multiset(SeasonEpisodes(episodes[episodeBound := row], episodeBound + 1, row.seasonId))
         == multiset(SeasonEpisodes(episodes, episodeBound, row.seasonId)) + multiset{EpisodeOf(episodeBound, row)}
  {
    var episodes' := episodes[episodeBound := row];
    var keep := InSeason(row.seasonId);
    ScanAgree(episodes', episodes, episodeBound, keep, keep, EpisodeView(), EpisodeView());
    assert Scan(episodes', episodeBound + 1, keep, EpisodeView())
        == Scan(episodes, episodeBound, keep, EpisodeView()) + [EpisodeOf(episodeBound, row)];
  }

  /** The cascade of `delete_show` keeps every episode of a season of another show. */
  lemma SeasonEpisodesAfterDelete(
    episodes: map<int, EpisodeRow>, episodeBound: nat, seasons: map<int, SeasonRow>, showId: int, j: int)
    requires j in seasons && seasons[j].showId != showId
    ensures SeasonEpisodes(EpisodesWithout(episodes, seasons, showId), episodeBound, j)
         == SeasonEpisodes(episodes, episodeBound, j)
  {
    ScanAgree(EpisodesWithout(episodes, seasons, showId), episodes, episodeBound,
              InSeason(j), InSeason(j), EpisodeView(), EpisodeView());
  }

  /** After `delete_show(id)` and its cascades, `get_show(id)` finds nothing and every
      other show reads back as before, with all its seasons and episodes. */
  lemma DeleteShowEffect(
    shows: map<int, ShowRow>, seasons: map<int, SeasonRow>, seasonBound: nat,
    episodes: map<int, EpisodeRow>, episodeBound: nat, id: int, k: int)
    ensures ShowValue(shows - {id}, SeasonsWithout(seasons, id), seasonBound,
                      EpisodesWithout(episodes, seasons, id), episodeBound, id) == None
    ensures k != id ==>
      ShowValue(shows - {id}, SeasonsWithout(seasons, id), seasonBound,
                EpisodesWithout(episodes, seasons, id), episodeBound, k)
      == ShowValue(shows, seasons, seasonBound, episodes, episodeBound, k)
  {
    if k != id {
      var seasons' := SeasonsWithout(seasons, id);
      var episodes' := EpisodesWithout(episodes, seasons, id);
      forall j | 0 <= j < seasonBound && j in seasons' && OfShow(k)(j, seasons'[j])
        ensures SeasonView(episodes', episodeBound)(j, seasons'[j]) == SeasonView(episodes, episodeBound)(j, seasons[j])
      {
        SeasonEpisodesAfterDelete(episodes, episodeBound, seasons, id, j);
      }
      ScanAgree(seasons', seasons, seasonBound, OfShow(k), OfShow(k),
                SeasonView(episodes', episodeBound), SeasonView(episodes, episodeBound));
      assert ShowSeasons(seasons', seasonBound, episodes', episodeBound, k)
          == ShowSeasons(seasons, seasonBound, episodes, episodeBound, k);
    }
  }

  // ---- Orderings ----------------------------------------------------------------------

  /** `ORDER BY LOWER(title)` when `sort_by == "title"`, otherwise `ORDER BY date_added`. */
  function CatalogOrder<T>(sortBy: string, title: T -> string, added: T -> Timestamp): (T, T) -> bool {
    if sortBy == "title" then (a: T, b: T) => StrLe(Lower(title(a)), Lower(title(b)))
    else (a: T, b: T) => added(a) <= added(b)
  }

  lemma CatalogOrderTotal<T(!new)>(sortBy: string, title: T -> string, added: T -> Timestamp)
    ensures TotalPreorder(CatalogOrder(sortBy, title, added))
  {
    var le := CatalogOrder(sortBy, title, added);
    if sortBy == "title" {
      forall a, b
        ensures le(a, b) || le(b, a)
      {
        StrLeTotal(Lower(title(a)), Lower(title(b)));
      }
      forall a, b, c | le(a, b) && le(b, c)
        ensures le(a, c)
      {
        StrLeTransitive(Lower(title(a)), Lower(title(b)), Lower(title(c)));
      }
    }
  }

  function MovieTitle(m: Movie): string { m.title }
  function MovieId(m: Movie): int { m.id }
  function MovieAdded(m: Movie): Timestamp { m.dateAdded }
  function ShowTitle(s: Show): string { s.title }
  function ShowId(s: Show): int { s.id }
  function ShowAdded(s: Show): Timestamp { s.dateAdded }

  function MovieOrder(sortBy: string): (Movie, Movie) -> bool {
    CatalogOrder(sortBy, MovieTitle, MovieAdded)
  }

  function ShowOrder(sortBy: string): (Show, Show) -> bool {
    CatalogOrder(sortBy, ShowTitle, ShowAdded)
  }

  lemma MovieAndShowOrdersTotal(sortBy: string)
    ensures TotalPreorder(MovieOrder(sortBy)) && TotalPreorder(ShowOrder(sortBy))
  {
    CatalogOrderTotal(sortBy, MovieTitle, MovieAdded);
    CatalogOrderTotal(sortBy, ShowTitle, ShowAdded);
  }

  lemma PairTitleLeTotal()
    ensures TotalPreorder(PairTitleLe())
  {
    var le := PairTitleLe();
    forall a, b
      ensures le(a, b) || le(b, a)
    {
      StrLeTotal(Lower(a.1), Lower(b.1));
    }
    forall a, b, c | le(a, b) && le(b, c)
      ensures le(a, c)
    {
      StrLeTransitive(Lower(a.1), Lower(b.1), Lower(c.1));
    }
  }
}
