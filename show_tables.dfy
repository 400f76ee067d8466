/** The show half of BebeFlix/database.py: the `shows`, `seasons` and `episodes` tables
    with their AUTOINCREMENT counters, and the show methods of the `Database` class. */
module ShowCatalog {
  import opened Wrappers
  import opened Text
  import opened Sorting
  import opened SqlLike
  import opened CatalogModel

  class ShowTables {
    var shows: map<int, ShowRow>
    var seasons: map<int, SeasonRow>
    var episodes: map<int, EpisodeRow>
    /** The id the next inserted row receives. */
    var nextShowId: nat
    var nextSeasonId: nat
    var nextEpisodeId: nat

    /** Ids lie below their counters, and both foreign keys hold. */
    ghost predicate Valid()
      reads this
    {
      && 1 <= nextShowId && 1 <= nextSeasonId && 1 <= nextEpisodeId
      && (forall id :: id in shows ==> 1 <= id < nextShowId)
      && (forall id :: id in seasons ==> 1 <= id < nextSeasonId && seasons[id].showId in shows)
      && (forall id :: id in episodes ==> 1 <= id < nextEpisodeId && episodes[id].seasonId in seasons)
    }

    /** What `get_show(id)` returns in the current state. */
    ghost function Value(id: int): Option<Show>
      reads this
    {
      ShowValue(shows, seasons, nextSeasonId, episodes, nextEpisodeId, id)
    }

    /** What `_get_seasons(show_id)` returns in the current state. */
    ghost function SeasonsOf(showId: int): seq<Season>
      reads this
    {
      ShowSeasons(seasons, nextSeasonId, episodes, nextEpisodeId, showId)
    }

    /** The episodes of season `seasonId`, by ascending number. */
    ghost function EpisodesOf(seasonId: int): seq<Episode>
      reads this
    {
      SeasonEpisodes(episodes, nextEpisodeId, seasonId)
    }

    /** `_init_db` on an empty file. */
    constructor ()
      ensures Valid()
      ensures shows == map[] && seasons == map[] && episodes == map[]
    {
      shows, seasons, episodes := map[], map[], map[];
      nextShowId, nextSeasonId, nextEpisodeId := 1, 1, 1;
    }

    /** `add_show`: one show row, which reads back with no seasons; returns its id. */
    method AddShow(title: string, thumbPath: string, now: Timestamp) returns (id: int)
      requires Valid()
      modifies this
      ensures Valid()
      ensures id == old(nextShowId) && id !in old(shows) && nextShowId == id + 1
      ensures shows == old(shows)[id := ShowRow(title, thumbPath, now)]
      ensures seasons == old(seasons) && episodes == old(episodes)
      ensures nextSeasonId == old(nextSeasonId) && nextEpisodeId == old(nextEpisodeId)
      ensures Value(id) == Some(Show(id, title, thumbPath, now, []))
      ensures forall k :: k != id ==> Value(k) == old(Value(k))
    {
      id := nextShowId;
      NoSeasonsOfShow(seasons, nextSeasonId, episodes, nextEpisodeId, id);
      shows := shows[id := ShowRow(title, thumbPath, now)];
      nextShowId := nextShowId + 1;
    }

    /** `add_season`: with `PRAGMA foreign_keys = ON` an unknown `show_id` raises
        `IntegrityError` (here `None`) and inserts nothing; otherwise one row is stored
        under the next id. What that does to the show trees is stated by
        `AddSeasonAddsOne` and `AddSeasonKeepsOthers`. Season numbers need not be unique. */
    method AddSeason(showId: int, seasonNumber: int, now: Timestamp) returns (r: Option<int>)
      requires Valid()
      modifies this
      ensures Valid()
      ensures r.None? <==> showId !in old(shows)
      ensures r.None? ==> seasons == old(seasons) && nextSeasonId == old(nextSeasonId)
      ensures r.Some? ==> r.value == old(nextSeasonId) && r.value !in old(seasons) && nextSeasonId == r.value + 1
      ensures r.Some? ==> seasons == old(seasons)[r.value := SeasonRow(showId, seasonNumber, now)]
      ensures shows == old(shows) && episodes == old(episodes)
      ensures nextShowId == old(nextShowId) && nextEpisodeId == old(nextEpisodeId)
    {
      if showId !in shows {
        return None;
      }
      var id := nextSeasonId;
      seasons, nextSeasonId := seasons[id := SeasonRow(showId, seasonNumber, now)], id + 1;
      r := Some(id);
    }

    /** `add_episode`: an unknown `season_id` raises `IntegrityError` (here `None`) and
        inserts nothing; otherwise one row with position and duration 0 is stored under
        the next id. What that does to the seasons' episode lists is stated by
        `AddEpisodeAddsOne` and `AddEpisodeKeepsOthers`. Episode numbers need not be
        unique. */
    method AddEpisode(seasonId: int, episodeNumber: int, title: string, moviePath: string, now: Timestamp)
      returns (r: Option<int>)
      requires Valid()
      modifies this
      ensures Valid()
      ensures r.None? <==> seasonId !in old(seasons)
      ensures r.None? ==> episodes == old(episodes) && nextEpisodeId == old(nextEpisodeId)
      ensures r.Some? ==> r.value == old(nextEpisodeId) && r.value !in old(episodes) && nextEpisodeId == r.value + 1
      ensures r.Some? ==>
        episodes == old(episodes)[r.value := EpisodeRow(seasonId, episodeNumber, title, moviePath, 0.0, 0.0, now)]
      ensures shows == old(shows) && seasons == old(seasons)
      ensures nextShowId == old(nextShowId) && nextSeasonId == old(nextSeasonId)
    {
      if seasonId !in seasons {
        return None;
      }
      var id := nextEpisodeId;
      episodes, nextEpisodeId := episodes[id := EpisodeRow(seasonId, episodeNumber, title, moviePath, 0.0, 0.0, now)], id + 1;
      r := Some(id);
    }

    /** `_get_seasons`: the show's seasons by ascending season number, each holding its
        own episodes by ascending episode number. */
    method GetSeasons(showId: int) returns (r: seq<Season>)
      requires Valid()
      ensures r == SeasonsOf(showId)
      ensures Sorted(r, SeasonNumberLe())
      ensures forall s :: s in r ==>
        && s.showId == showId && s.id in seasons
        && Sorted(s.episodes, EpisodeNumberLe())
        && (forall e :: e in s.episodes ==> e.seasonId == s.id && e.id in episodes)
    {
      var view := SeasonView(episodes, nextEpisodeId);
      var found := [];
      var k := 0;
      while k < nextSeasonId
        invariant 0 <= k <= nextSeasonId
        invariant found == Scan(seasons, k, OfShow(showId), view)
      {
        if k in seasons && seasons[k].showId == showId {
          assert Scan(seasons, k + 1, OfShow(showId), view) == found + [view(k, seasons[k])];
          found := found + [SeasonOf(k, seasons[k], SeasonEpisodes(episodes, nextEpisodeId, k))];
        }
        k := k + 1;
      }
      r := Sort(found, SeasonNumberLe());
      ShowTreeOrdered(seasons, nextSeasonId, episodes, nextEpisodeId, showId);
    }

    /** `get_all_shows`: every stored show once, each with its season tree, ordered by
        lowercased title when `sortBy == "title"` and by `date_added` otherwise,
        ascending iff `ascending`. */
    method GetAllShows(sortBy: string, ascending: bool) returns (r: seq<Show>)
      requires Valid()
      ensures Sorted(r, Direction(ShowOrder(sortBy), ascending))
      ensures multiset(r) == multiset(ShowList(shows, nextShowId, seasons, nextSeasonId, episodes, nextEpisodeId))
      ensures forall s :: s in r <==> s.id in shows && Value(s.id) == Some(s)
    {
      var found := CollectShows(AnyRow());
      r := Sort(found, Direction(ShowOrder(sortBy), ascending));
      ShowListOrdered(shows, nextShowId, seasons, nextSeasonId, episodes, nextEpisodeId, sortBy, ascending);
    }

    /** `search_shows`: exactly the shows whose title matches `LIKE '%query%'`, in the
        order `get_all_shows` uses. */
    method SearchShows(query: string, sortBy: string, ascending: bool) returns (r: seq<Show>)
      requires Valid()
      ensures Sorted(r, Direction(ShowOrder(sortBy), ascending))
      ensures multiset(r)
        == multiset(ShowSearchList(shows, nextShowId, seasons, nextSeasonId, episodes, nextEpisodeId, query))
      ensures forall s :: s in r <==>
        s.id in shows && Value(s.id) == Some(s) && Like(SearchPattern(query), s.title)
    {
      var found := CollectShows(ShowTitleMatches(query));
      r := Sort(found, Direction(ShowOrder(sortBy), ascending));
      ShowSearchOrdered(shows, nextShowId, seasons, nextSeasonId, episodes, nextEpisodeId, query, sortBy, ascending);
    }

    /** The loop `get_all_shows` and `search_shows` share: over the rows the query's
        `WHERE` clause `keep` selects, in row-id order, each show is built with
        `_get_seasons`. */
    method CollectShows(keep: (int, ShowRow) -> bool) returns (found: seq<Show>)
      requires Valid()
      ensures found == Scan(shows, nextShowId, keep, ShowView(seasons, nextSeasonId, episodes, nextEpisodeId))
    {
      var view := ShowView(seasons, nextSeasonId, episodes, nextEpisodeId);
      found := [];
      var k := 0;
      while k < nextShowId
        invariant 0 <= k <= nextShowId
        invariant found == Scan(shows, k, keep, view)
      {
        if k in shows && keep(k, shows[k]) {
          var ss := GetSeasons(k);
          assert view(k, shows[k]) == ShowOf(k, shows[k], ss);
          assert Scan(shows, k + 1, keep, view) == found + [view(k, shows[k])];
          found := found + [ShowOf(k, shows[k], ss)];
        }
        k := k + 1;
      }
    }

    /** `get_show`: `None` for an id without a row, otherwise the show with its ordered
        season tree. */
    method GetShow(id: int) returns (r: Option<Show>)
      requires Valid()
      ensures r == Value(id)
      ensures r.None? <==> id !in shows
      ensures r.Some? ==> (r.value.id == id && r.value.title == shows[id].title
        && r.value.thumbPath == shows[id].thumbPath && r.value.dateAdded == shows[id].dateAdded)
      ensures r.Some? ==> (Sorted(r.value.seasons, SeasonNumberLe())
        && forall s :: s in r.value.seasons ==> s.showId == id && Sorted(s.episodes, EpisodeNumberLe()))
    {
      if id !in shows {
        return None;
      }
      var ss := GetSeasons(id);
      r := Some(ShowOf(id, shows[id], ss));
    }

    /** `get_show_count`: `SELECT COUNT(*) FROM shows`. */
    method GetShowCount() returns (n: nat)
      requires Valid()
      ensures n == |shows|
    {
      n := |shows|;
    }

    /** `get_existing_show_titles`: every `(id, title)` pair once, by lowercased title. */
    method GetExistingShowTitles() returns (r: seq<(int, string)>)
      requires Valid()
      ensures Sorted(r, PairTitleLe())
      ensures multiset(r) == multiset(ShowTitleList(shows, nextShowId))
      ensures forall p :: p in r <==> p.0 in shows && shows[p.0].title == p.1
    {
      var found := [];
      var k := 0;
      while k < nextShowId
        invariant 0 <= k <= nextShowId
        invariant found == Scan(shows, k, AnyRow(), IdAndTitle())
      {
        if k in shows {
          assert Scan(shows, k + 1, AnyRow(), IdAndTitle()) == found + [IdAndTitle()(k, shows[k])];
          found := found + [(k, shows[k].title)];
        }
        k := k + 1;
      }
      r := Sort(found, PairTitleLe());
      PairTitleLeTotal();
      SortSorted(found, PairTitleLe());
      ShowTitleMembers(shows, nextShowId, r);
    }

    /** `get_next_season_number`: `(MAX(season_number) or 0) + 1` over the show's
        seasons, so 1 for a show without seasons and otherwise one more than the largest
        number. */
    method GetNextSeasonNumber(showId: int) returns (n: int)
      requires Valid()
      ensures (forall k :: k in seasons ==> seasons[k].showId != showId) ==> n == 1
      ensures forall k :: k in seasons && seasons[k].showId == showId ==> seasons[k].seasonNumber < n
      ensures (exists k :: k in seasons && seasons[k].showId == showId) ==>
        exists k :: k in seasons && seasons[k].showId == showId && seasons[k].seasonNumber == n - 1
    {
      n := NextSeasonNumber(seasons, nextSeasonId, showId);
      NextSeasonNumberSpec(seasons, nextSeasonId, showId);
      assert forall k :: k in seasons && seasons[k].showId == showId ==> HasSeason(seasons, nextSeasonId, showId, k);
    }

    /** `update_episode_position`: only that episode's `last_position` changes; an unknown
        id changes nothing. */
    method UpdateEpisodePosition(id: int, position: real)
      requires Valid()
      modifies this
      ensures Valid()
      ensures episodes == if id in old(episodes) then old(episodes)[id := old(episodes)[id].(lastPosition := position)]
                          else old(episodes)
      ensures shows == old(shows) && seasons == old(seasons)
      ensures nextShowId == old(nextShowId) && nextSeasonId == old(nextSeasonId) && nextEpisodeId == old(nextEpisodeId)
    {
      if id in episodes {
        episodes := episodes[id := episodes[id].(lastPosition := position)];
      }
    }

    /** `update_episode_duration`: only that episode's `duration` changes; an unknown id
        changes nothing. */
    method UpdateEpisodeDuration(id: int, duration: real)
      requires Valid()
      modifies this
      ensures Valid()
      ensures episodes == if id in old(episodes) then old(episodes)[id := old(episodes)[id].(duration := duration)]
                          else old(episodes)
      ensures shows == old(shows) && seasons == old(seasons)
      ensures nextShowId == old(nextShowId) && nextSeasonId == old(nextSeasonId) && nextEpisodeId == old(nextEpisodeId)
    {
      if id in episodes {
        episodes := episodes[id := episodes[id].(duration := duration)];
      }
    }

    /** `delete_show`: the snapshot `get_show` saw before the delete, or `None` (and no
        change) for an unknown id; the cascades remove the show's seasons and their
        episodes. */
    method DeleteShow(id: int) returns (r: Option<Show>)
      requires Valid()
      modifies this
      ensures Valid()
      ensures r == old(Value(id))
      ensures r.None? ==> shows == old(shows) && seasons == old(seasons) && episodes == old(episodes)
      ensures r.Some? ==> (shows == old(shows) - {id} && seasons == SeasonsWithout(old(seasons), id)
        && episodes == EpisodesWithout(old(episodes), old(seasons), id))
      ensures nextShowId == old(nextShowId) && nextSeasonId == old(nextSeasonId) && nextEpisodeId == old(nextEpisodeId)
      ensures Value(id) == None
      ensures forall k :: k != id ==> Value(k) == old(Value(k))
    {
      r := GetShow(id);
      if r.None? {
        return;
      }
      forall k
        ensures ShowValue(shows - {id}, SeasonsWithout(seasons, id), nextSeasonId,
                          EpisodesWithout(episodes, seasons, id), nextEpisodeId, id) == None
        ensures k != id ==>
          ShowValue(shows - {id}, SeasonsWithout(seasons, id), nextSeasonId,
                    EpisodesWithout(episodes, seasons, id), nextEpisodeId, k)
          == ShowValue(shows, seasons, nextSeasonId, episodes, nextEpisodeId, k)
      {
        DeleteShowEffect(shows, seasons, nextSeasonId, episodes, nextEpisodeId, id, k);
      }
      shows, seasons, episodes := shows - {id}, SeasonsWithout(seasons, id), EpisodesWithout(episodes, seasons, id);
    }
  }
}
