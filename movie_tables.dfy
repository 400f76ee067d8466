/** The movie half of the catalog: the `movies` and `subtitles` tables with their
    AUTOINCREMENT counters, and the movie methods of the `Database` class. The older
    movie-only database.py and BebeFlix/database.py carry the same text for these
    methods, so one class models both. */
module MovieCatalog {
  import opened Wrappers
  import opened Sorting
  import opened SqlLike
  import opened CatalogModel

  class MovieTables {
    var movies: map<int, MovieRow>
    var subtitles: map<int, SubtitleRow>
    /** The id the next inserted row receives. */
    var nextMovieId: nat
    var nextSubtitleId: nat

    /** Ids lie below their counters, and `FOREIGN KEY (movie_id)` holds. */
    ghost predicate Valid()
      reads this
    {
      && 1 <= nextMovieId && 1 <= nextSubtitleId
      && (forall id :: id in movies ==> 1 <= id < nextMovieId)
      && (forall id :: id in subtitles ==> 1 <= id < nextSubtitleId && subtitles[id].movieId in movies)
    }

    /** What `get_movie(id)` returns in the current state. */
    ghost function Value(id: int): Option<Movie>
      reads this
    {
      MovieValue(movies, subtitles, nextSubtitleId, id)
    }

    /** `_init_db` on an empty file. */
    constructor ()
      ensures Valid()
      ensures movies == map[] && subtitles == map[]
    {
      movies := map[];
      subtitles := map[];
      nextMovieId := 1;
      nextSubtitleId := 1;
    }

    /** `add_movie`: one movie row with position and duration 0, then one subtitle row per
        entry, in entry order; returns the new id. */
    method AddMovie(title: string, moviePath: string, thumbPath: string, entries: seq<SubtitleEntry>, now: Timestamp)
      returns (id: int)
      requires Valid()
      modifies this
      ensures Valid()
      ensures id == old(nextMovieId) && id !in old(movies) && nextMovieId == id + 1
      ensures movies == old(movies)[id := MovieRow(title, moviePath, thumbPath, now, 0.0, 0.0)]
      ensures |movies| == old(|movies|) + 1
      ensures subtitles == InsertSubtitles(old(subtitles), old(nextSubtitleId), id, entries)
      ensures nextSubtitleId == old(nextSubtitleId) + |entries|
      ensures Value(id) == Some(Movie(id, title, moviePath, thumbPath, now, 0.0, 0.0, EntryPairs(entries)))
      ensures forall k :: k != id ==> Value(k) == old(Value(k))
    {
      id := nextMovieId;
      movies := movies[id := MovieRow(title, moviePath, thumbPath, now, 0.0, 0.0)];
      nextMovieId := nextMovieId + 1;
      InsertSubtitleRows(id, entries);
      AddMovieEffect(old(movies), old(subtitles), old(nextSubtitleId), id, title, moviePath, thumbPath, now, entries);
    }

    /** The `for sub in subtitle_entries` loop of `add_movie`: one `subtitles` row per
        entry, under consecutive ids, all owned by movie `id`. */
    method InsertSubtitleRows(id: int, entries: seq<SubtitleEntry>)
      requires id in movies && 1 <= nextSubtitleId
      requires forall k :: k in subtitles ==> 1 <= k < nextSubtitleId && subtitles[k].movieId in movies
      modifies this
      ensures subtitles == InsertSubtitles(old(subtitles), old(nextSubtitleId), id, entries)
      ensures nextSubtitleId == old(nextSubtitleId) + |entries|
      ensures forall k :: k in subtitles ==> 1 <= k < nextSubtitleId && subtitles[k].movieId in movies
      ensures movies == old(movies) && nextMovieId == old(nextMovieId)
    {
      var i := 0;
      while i < |entries|
        invariant 0 <= i <= |entries|
        invariant movies == old(movies) && nextMovieId == old(nextMovieId)
        invariant subtitles == InsertSubtitles(old(subtitles), old(nextSubtitleId), id, entries[..i])
        invariant nextSubtitleId == old(nextSubtitleId) + i
        invariant forall k :: k in subtitles ==> 1 <= k < nextSubtitleId && subtitles[k].movieId in movies
      {
        assert entries[..i + 1][..i] == entries[..i];
        subtitles := subtitles[nextSubtitleId := SubtitleRowOf(id, entries[i])];
        nextSubtitleId := nextSubtitleId + 1;
        i := i + 1;
      }
      assert entries[..i] == entries;
    }

    /** `get_all_movies`: every stored movie once, each with its own subtitle pairs,
        ordered by lowercased title when `sortBy == "title"` and by `date_added`
        otherwise, ascending iff `ascending`. */
    method GetAllMovies(sortBy: string, ascending: bool) returns (r: seq<Movie>)
      requires Valid()
      ensures Sorted(r, Direction(MovieOrder(sortBy), ascending))
      ensures multiset(r) == multiset(MovieList(movies, nextMovieId, subtitles, nextSubtitleId))
      ensures forall m :: m in r <==> m.id in movies && Value(m.id) == Some(m)
    {
      var view := MovieView(subtitles, nextSubtitleId);
      var found := [];
      var k := 0;
      while k < nextMovieId
        invariant 0 <= k <= nextMovieId
        invariant found == Scan(movies, k, AnyRow(), view)
      {
        if k in movies {
          assert Scan(movies, k + 1, AnyRow(), view) == found + [view(k, movies[k])];
          found := found + [MovieOf(k, movies[k], SubtitlePairs(subtitles, nextSubtitleId, k))];
        }
        k := k + 1;
      }
      assert found == MovieList(movies, nextMovieId, subtitles, nextSubtitleId);
      r := Sort(found, Direction(MovieOrder(sortBy), ascending));
      MovieListOrdered(movies, nextMovieId, subtitles, nextSubtitleId, sortBy, ascending);
    }

    /** `search_movies`: exactly the movies whose title matches `LIKE '%query%'`, in the
        order `get_all_movies` uses. */
    method SearchMovies(query: string, sortBy: string, ascending: bool) returns (r: seq<Movie>)
      requires Valid()
      ensures Sorted(r, Direction(MovieOrder(sortBy), ascending))
      ensures multiset(r) == multiset(MovieSearchList(movies, nextMovieId, subtitles, nextSubtitleId, query))
      ensures forall m :: m in r <==>
        m.id in movies && Value(m.id) == Some(m) && Like(SearchPattern(query), m.title)
    {
      var view := MovieView(subtitles, nextSubtitleId);
      var found := [];
      var k := 0;
      while k < nextMovieId
        invariant 0 <= k <= nextMovieId
        invariant found == Scan(movies, k, TitleMatches(query), view)
      {
        if k in movies && Like(SearchPattern(query), movies[k].title) {
          assert Scan(movies, k + 1, TitleMatches(query), view) == found + [view(k, movies[k])];
          found := found + [MovieOf(k, movies[k], SubtitlePairs(subtitles, nextSubtitleId, k))];
        }
        k := k + 1;
      }
      assert found == MovieSearchList(movies, nextMovieId, subtitles, nextSubtitleId, query);
      r := Sort(found, Direction(MovieOrder(sortBy), ascending));
      MovieSearchOrdered(movies, nextMovieId, subtitles, nextSubtitleId, query, sortBy, ascending);
    }

    /** `get_movie`: `None` for an id without a row, otherwise the row's fields and the
        pairs of exactly that movie's subtitle rows. */
    method GetMovie(id: int) returns (r: Option<Movie>)
      requires Valid()
      ensures r == Value(id)
      ensures r.None? <==> id !in movies
      ensures r.Some? ==> r.value == MovieOf(id, movies[id], r.value.subtitlePaths)
      ensures r.Some? ==> forall p :: p in r.value.subtitlePaths ==>
        exists k :: k in subtitles && subtitles[k].movieId == id && p == (subtitles[k].subPath, subtitles[k].caption)
      ensures r.Some? ==> forall k :: k in subtitles && subtitles[k].movieId == id ==>
        (subtitles[k].subPath, subtitles[k].caption) in r.value.subtitlePaths
    {
      if id !in movies {
        return None;
      }
      var pairs := SubtitlePairs(subtitles, nextSubtitleId, id);
      SubtitlePairsOwn(subtitles, nextSubtitleId, id);
      r := Some(MovieOf(id, movies[id], pairs));
    }

    /** `update_playback_position`: only that movie's `last_position` changes; an unknown
        id changes nothing. */
    method UpdatePlaybackPosition(id: int, position: real)
      requires Valid()
      modifies this
      ensures Valid()
      ensures movies == if id in old(movies) then old(movies)[id := old(movies)[id].(lastPosition := position)]
                        else old(movies)
      ensures subtitles == old(subtitles) && nextMovieId == old(nextMovieId) && nextSubtitleId == old(nextSubtitleId)
      ensures forall k :: Value(k) == if k == id && old(Value(k)).Some?
                                      then Some(old(Value(k)).value.(lastPosition := position))
                                      else old(Value(k))
    {
      if id in movies {
        movies := movies[id := movies[id].(lastPosition := position)];
      }
    }

    /** `update_duration`: only that movie's `duration` changes; an unknown id changes
        nothing. */
    method UpdateDuration(id: int, duration: real)
      requires Valid()
      modifies this
      ensures Valid()
      ensures movies == if id in old(movies) then old(movies)[id := old(movies)[id].(duration := duration)]
                        else old(movies)
      ensures subtitles == old(subtitles) && nextMovieId == old(nextMovieId) && nextSubtitleId == old(nextSubtitleId)
      ensures forall k :: Value(k) == if k == id && old(Value(k)).Some?
                                      then Some(old(Value(k)).value.(duration := duration))
                                      else old(Value(k))
    {
      if id in movies {
        movies := movies[id := movies[id].(duration := duration)];
      }
    }

    /** `delete_movie`: the snapshot `get_movie` saw before the delete, or `None` (and no
        change) for an unknown id; the cascade removes the movie's subtitle rows. */
    method DeleteMovie(id: int) returns (r: Option<Movie>)
      requires Valid()
      modifies this
      ensures Valid()
      ensures r == old(Value(id))
      ensures r.None? ==> movies == old(movies) && subtitles == old(subtitles)
      ensures r.Some? ==> movies == old(movies) - {id} && subtitles == SubtitlesWithout(old(subtitles), id)
      ensures r.Some? ==> |movies| == old(|movies|) - 1
      ensures nextMovieId == old(nextMovieId) && nextSubtitleId == old(nextSubtitleId)
      ensures Value(id) == None
      ensures forall k :: k != id ==> Value(k) == old(Value(k))
    {
      r := GetMovie(id);
      if r.None? {
        return;
      }
      movies := movies - {id};
      subtitles := SubtitlesWithout(subtitles, id);
      forall k
        ensures Value(id) == None
        ensures k != id ==> Value(k) == old(Value(k))
      {
        DeleteMovieEffect(old(movies), old(subtitles), nextSubtitleId, id, k);
      }
    }

    /** `get_movie_count`: `SELECT COUNT(*) FROM movies`. */
    method GetMovieCount() returns (n: nat)
      requires Valid()
      ensures n == |movies|
    {
      n := |movies|;
    }
  }
}
