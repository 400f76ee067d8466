# BebeFlix core, modelled in Dafny

BebeFlix is a desktop media library for movies and TV shows kept on a portable drive.
A SQLite catalog records every title: movies with their subtitle tracks, and shows
with their seasons and episodes. An import dialog copies the chosen files into
`library/movies/<slug>/...`, transcoding them with ffmpeg through one of five presets.
The library window shows all titles as a grid of poster cards, with search, sorting
and deletion. A playback page drives VLC and saves the resume position.

This project models that core and proves what it promises:

- `CatalogModel`, `MovieCatalog.MovieTables` and `ShowCatalog.ShowTables` model the
  catalog. Tables are maps from row id to row, and ids come from AUTOINCREMENT
  counters. The query methods are loops over the row ids, proved against reference
  functions on the tables. `SqlLike` models SQLite's `LIKE` and `Sorting` models
  `ORDER BY`. The older movie-only `database.py` has the same text for its movie
  methods as `BebeFlix/database.py`, so `MovieTables` models both.
- `Paths` models `slugify` and the unit choice of `format_file_size`.
- `Compression` holds the presets, the ffmpeg argument list and the three readers of
  ffmpeg's text output. `CompressionJob.CompressionWorker` is the job object: its
  progress and completion callbacks become an event log, and its file removals
  become a removal log.
- `Naming` holds the natural sort key, the episode-title guess and the title filled
  in from a file name. `BatchImport` holds the destination paths, the episode queue,
  the overall progress, and the `AddDialog` class that steps through the import.
- `LibraryView` holds the poster grid (`FlowLayout`), the merged and sorted card list,
  the count label, the flat episode list used for playback, and what deleting a
  movie or a show removes (`LibraryWindow`).
- `Player` holds the clock text and the `PlayerWidget` state that the buttons,
  sliders and update timer change.

Some inputs come from outside the program: the clock behind `date_added`, the file
dialogs, ffmpeg's output and exit code, VLC's answers, and whether a file copy
raises. They are parameters. Writes to the catalog, jobs started, directories
removed and messages shown are appended to log fields, in order, so the contracts
can state them.

Notes on the source:

- The "copy" preset does not delete a partial output when the copy fails
  (utils/compression.py:137-149). Only the transcoding path calls `_cleanup`.
- Stored relative paths come from `os.path.relpath`/`os.path.join`, which use
  `os.sep`; on Windows they hold backslashes. The model uses POSIX `/`.
- ui/add_movie_dialog.py constructs a `CompressionThread` with a `progress` and a
  `finished_signal` signal, but utils/compression.py defines only
  `CompressionWorker`. The dialog is modelled on the contract those signals imply:
  progress callbacks, then one completion `(success, message)`.

## Model

| member | source | states |
|---|---|---|
| Text.Lower | BebeFlix/database.py:158 | `LOWER(...)`/`str.lower` maps each character, keeping length; no upper-case letter survives |
| Text.Strip | ui/main_window.py:281 | `str.strip()` leaves no droppable character at either end |
| Text.StripIsSlice | ui/main_window.py:281 | the stripped text is a contiguous piece of the original |
| Text.StrLeTotal | ui/main_window.py:235 | ordering strings (the `LOWER(title)` sort key) is total |
| Text.StrLeTransitive | ui/main_window.py:235 | ordering strings is transitive |
| Text.StrLeAntisymmetric | ui/main_window.py:235 | ordering strings is antisymmetric |
| Text.NatToStringRoundTrip | ui/main_window.py:269 | the decimal text of a count reads back as that count |
| Text.IntToStringRoundTrip | utils/compression.py:182 | `int(str(i)) == i` for every integer, signed or not |
| Text.CollapseRunsSingle | utils/paths.py:78 | after collapsing separator runs no two separators are adjacent |
| Text.CollapseRunsOfSingle | utils/paths.py:78 | collapsing text with no run of separators changes nothing |
| Sorting.Sort | ui/main_window.py:234-237 | the sorted list is a permutation of the input |
| Sorting.SortSorted | ui/main_window.py:234-237 | for any total preorder, the sorted list is ordered by it |
| Sorting.SortDirectionSorted | BebeFlix/database.py:156-160 | ascending or descending (`reverse`/`DESC`) sorting yields an ordered permutation |
| SqlLike.PercentMatchesAll | BebeFlix/database.py:197 | the pattern `%` (an empty query) matches every title |
| SqlLike.PrefixPattern | BebeFlix/database.py:197 | `q%` with no wildcard in q matches exactly the titles starting with q, ignoring ASCII case |
| SqlLike.LeadingPercent | BebeFlix/database.py:197 | `%x` matches exactly when x matches from some position |
| SqlLike.MatchesAtOccurs | BebeFlix/database.py:197 | matching `q%` at position i is the same as q occurring at i, ignoring case |
| SqlLike.SearchIsSubstring | BebeFlix/database.py:196-197 | `title LIKE '%q%'` holds exactly when q, ignoring case, is a substring of the title (q without wildcards) |
| CatalogModel.ScanExact | BebeFlix/database.py:164-181 | a scan of a table by row id lists exactly the kept rows, once each, in id order |
| CatalogModel.SubtitleRowOf | BebeFlix/database.py:143-149 | a subtitle row takes each entry key, or its default (`""`, `""`, False, 0) when absent |
| CatalogModel.EntryPairs | BebeFlix/database.py:180 | one `(sub_path, label)` pair per entry, in order |
| CatalogModel.MovieListMembers | BebeFlix/database.py:155-184 | any permutation of the movie list holds exactly the stored movies, each with its own subtitle pairs |
| CatalogModel.MovieSearchMembers | BebeFlix/database.py:186-216 | a search result holds exactly the stored movies whose title matches `%query%` |
| CatalogModel.MovieListOrdered | BebeFlix/database.py:155-166 | the movie list, sorted by date or lower-cased title in either direction, is ordered and holds exactly the stored movies |
| CatalogModel.MovieSearchOrdered | BebeFlix/database.py:186-198 | the sorted search result is ordered and holds exactly the matching movies |
| CatalogModel.InsertSubtitlesShape | BebeFlix/database.py:141-149 | inserting subtitles gives each entry the next free id in order and leaves older rows alone |
| CatalogModel.InsertedPairs | BebeFlix/database.py:141-149 | a new movie's subtitle pairs are exactly its entries' pairs, in order |
| CatalogModel.NoOwnedBelow | BebeFlix/database.py:176-180 | a movie with no subtitle rows reads back with no subtitle pairs |
| CatalogModel.AddMovieRoundTrip | BebeFlix/database.py:132-153 | reading back a movie just added gives its title, paths, stamp, zero position and duration, and its entries' pairs |
| CatalogModel.AddMovieKeepsOthers | BebeFlix/database.py:132-153 | adding a movie changes no other movie's value |
| CatalogModel.AddMovieEffect | BebeFlix/database.py:132-153 | adding a movie reads back as added and leaves every other movie as it was |
| CatalogModel.DeleteMovieEffect | BebeFlix/database.py:263-273 | after a delete the movie is gone, its subtitles with it (cascade), and every other movie is unchanged |
| CatalogModel.SubtitlePairsOwn | BebeFlix/database.py:232-236 | a movie's subtitle pairs are exactly those of the rows it owns |
| CatalogModel.MaxSeasonNumberIsMax | BebeFlix/database.py:434-443 | `MAX(season_number)` is None exactly when the show has no season, and otherwise is the largest season number |
| CatalogModel.NextSeasonNumberSpec | BebeFlix/database.py:434-443 | the next season number is 1 for a show without seasons, otherwise one more than the largest |
| CatalogModel.SeasonEpisodesOrdered | BebeFlix/database.py:400-403 | a season's episodes come ordered by episode number and all belong to it |
| CatalogModel.ShowTreeOrdered | BebeFlix/database.py:389-413 | a show's seasons come ordered by season number, each with its own episodes in order |
| CatalogModel.ShowListMembers | BebeFlix/database.py:323-345 | any permutation of the show list holds exactly the stored shows with their season trees |
| CatalogModel.ShowListOrdered | BebeFlix/database.py:323-334 | the sorted show list is ordered and holds exactly the stored shows |
| CatalogModel.ShowSearchMembers | BebeFlix/database.py:347-370 | a show search result holds exactly the shows whose title matches `%query%` |
| CatalogModel.ShowSearchOrdered | BebeFlix/database.py:347-358 | the sorted show search result is ordered and holds exactly the matching shows |
| CatalogModel.ShowTitleMembers | BebeFlix/database.py:423-432 | the title list pairs each stored show's id with its title, and nothing else |
| CatalogModel.NoSeasonsOfShow | BebeFlix/database.py:285-295 | a show without season rows reads back with no seasons |
| CatalogModel.AddSeasonKeepsOthers | BebeFlix/database.py:297-307 | adding a season changes no other show's seasons |
| CatalogModel.AddSeasonAddsOne | BebeFlix/database.py:297-307 | adding a season adds exactly one empty season to its show |
| CatalogModel.AddEpisodeKeepsOthers | BebeFlix/database.py:309-321 | adding an episode changes no other season's episodes |
| CatalogModel.AddEpisodeAddsOne | BebeFlix/database.py:309-321 | adding an episode adds exactly that episode to its season |
| CatalogModel.SeasonEpisodesAfterDelete | BebeFlix/database.py:467-477 | deleting a show leaves the episodes of other shows' seasons as they were |
| CatalogModel.DeleteShowEffect | BebeFlix/database.py:467-477 | after a delete the show is gone, its seasons and episodes with it, and every other show is unchanged |
| CatalogModel.CatalogOrderTotal | BebeFlix/database.py:156-160 | ordering by date added or by lower-cased title is a total preorder |
| CatalogModel.MovieAndShowOrdersTotal | BebeFlix/database.py:156-160 | the movie and show orderings are total preorders |
| CatalogModel.PairTitleLeTotal | BebeFlix/database.py:428 | ordering `(id, title)` pairs by `LOWER(title)` is a total preorder |
| MovieCatalog.MovieTables.constructor | BebeFlix/database.py:75-97 | a new catalog has empty movie and subtitle tables |
| MovieCatalog.MovieTables.AddMovie | BebeFlix/database.py:132-153 | returns the next id, stores the row with zero position and duration, and inserts the subtitle rows; the movie reads back as added and no other movie changes |
| MovieCatalog.MovieTables.InsertSubtitleRows | BebeFlix/database.py:141-149 | inserts one row per entry under consecutive ids, keeping every row owned by a stored movie |
| MovieCatalog.MovieTables.GetAllMovies | BebeFlix/database.py:155-184 | the result is ordered by the chosen key and direction and holds exactly the stored movies |
| MovieCatalog.MovieTables.SearchMovies | BebeFlix/database.py:186-216 | the result is ordered and holds exactly the stored movies whose title matches `%query%` |
| MovieCatalog.MovieTables.GetMovie | BebeFlix/database.py:218-239 | None exactly for a missing id; otherwise the row with exactly the subtitle pairs it owns |
| MovieCatalog.MovieTables.UpdatePlaybackPosition | BebeFlix/database.py:241-250 | sets only that movie's resume position; a missing id changes nothing |
| MovieCatalog.MovieTables.UpdateDuration | BebeFlix/database.py:252-261 | sets only that movie's duration; a missing id changes nothing |
| MovieCatalog.MovieTables.DeleteMovie | BebeFlix/database.py:263-273 | returns the movie as it was (None if missing) and removes it with its subtitles; other movies unchanged |
| MovieCatalog.MovieTables.GetMovieCount | BebeFlix/database.py:275-281 | the number of stored movies |
| ShowCatalog.ShowTables.constructor | BebeFlix/database.py:75-130 | a new catalog has empty show, season and episode tables |
| ShowCatalog.ShowTables.AddShow | BebeFlix/database.py:285-295 | returns the next id; the show reads back with no seasons and no other show changes |
| ShowCatalog.ShowTables.AddSeason | BebeFlix/database.py:297-307 | a season of an existing show gets the next id; an unknown show is refused (foreign key) and changes nothing |
| ShowCatalog.ShowTables.AddEpisode | BebeFlix/database.py:309-321 | an episode of an existing season gets the next id; an unknown season is refused and changes nothing |
| ShowCatalog.ShowTables.GetSeasons | BebeFlix/database.py:389-413 | the show's seasons ordered by number, each holding its episodes ordered by number |
| ShowCatalog.ShowTables.GetAllShows | BebeFlix/database.py:323-345 | the result is ordered by the chosen key and direction and holds exactly the stored shows |
| ShowCatalog.ShowTables.SearchShows | BebeFlix/database.py:347-370 | the result is ordered and holds exactly the shows whose title matches `%query%` |
| ShowCatalog.ShowTables.CollectShows | BebeFlix/database.py:336-343 | the loop over rows builds exactly the id-ordered scan of the kept shows |
| ShowCatalog.ShowTables.GetShow | BebeFlix/database.py:372-387 | None exactly for a missing id; otherwise the row with its ordered season tree |
| ShowCatalog.ShowTables.GetShowCount | BebeFlix/database.py:415-421 | the number of stored shows |
| ShowCatalog.ShowTables.GetExistingShowTitles | BebeFlix/database.py:423-432 | exactly the stored `(id, title)` pairs, ordered by lower-cased title |
| ShowCatalog.ShowTables.GetNextSeasonNumber | BebeFlix/database.py:434-443 | 1 for a show without seasons, otherwise one more than its largest season number |
| ShowCatalog.ShowTables.UpdateEpisodePosition | BebeFlix/database.py:445-454 | sets only that episode's resume position; a missing id changes nothing |
| ShowCatalog.ShowTables.UpdateEpisodeDuration | BebeFlix/database.py:456-465 | sets only that episode's duration; a missing id changes nothing |
| ShowCatalog.ShowTables.DeleteShow | BebeFlix/database.py:467-477 | returns the show as it was (None if missing) and removes it with its seasons and episodes; other shows unchanged |
| Paths.KeepOnly | utils/paths.py:77 | removing `[^\w\s-]` keeps only word characters, spaces and dashes, never growing the text |
| Paths.KeepOnlyOfKept | utils/paths.py:77 | text made only of kept characters passes through unchanged |
| Paths.CollapseShape | utils/paths.py:78 | after collapsing `[\s_-]+` into `-`, only slug characters remain and no two dashes touch |
| Paths.TrimmedIsSlug | utils/paths.py:79 | trimming dashes from collapsed text leaves a slug or nothing |
| Paths.SlugifyIsSlug | utils/paths.py:74-80 | every title yields a non-empty slug: lower-case letters, digits and `-`, without leading, trailing or doubled dashes |
| Paths.SlugIsFixed | utils/paths.py:74-80 | a slug is its own slug |
| Paths.SlugifyIdempotent | utils/paths.py:74-80 | `slugify(slugify(t)) == slugify(t)` |
| Paths.FormatFileSizeUnits | utils/paths.py:89-97 | bytes below 1 KiB are printed exactly; otherwise the unit is KB, MB or GB by range and the amount times the unit is the size |
| Naming.LastIndexOf | ui/add_movie_dialog.py:306 | the last index of a character, or -1 when it does not occur |
| Naming.Basename | ui/add_movie_dialog.py:302 | `os.path.basename` is a suffix with no `/` |
| Naming.SplitExt | ui/add_movie_dialog.py:306 | `os.path.splitext` splits the path into two parts that concatenate back to it |
| Naming.SplitExtShape | ui/add_movie_dialog.py:423 | the extension is empty or a dot followed by no dot or slash |
| Naming.SplitExtOf | ui/add_movie_dialog.py:423 | `stem.ext` splits into `stem` and `.ext` |
| Naming.DotFileHasNoExtension | ui/add_movie_dialog.py:423 | a hidden file name like `.ext` has no extension |
| Naming.BasenameOfName | ui/add_movie_dialog.py:302 | the base name of `dir/name` is `name` |
| Naming.NaturalKeyAlternates | ui/add_movie_dialog.py:350-351 | the natural key alternates text and number parts |
| Naming.NaturalKeyOfText | ui/add_movie_dialog.py:350-351 | text without digits keys as its lower-case form |
| Naming.NaturalKeyStep | ui/add_movie_dialog.py:350-351 | `text + number + rest` keys as the lower-case text, the number's value, then rest's key |
| Naming.KeyLeTotal | ui/add_movie_dialog.py:335 | any two natural keys compare |
| Naming.KeyLeTransitive | ui/add_movie_dialog.py:335 | comparing natural keys is transitive |
| Naming.NumbersOrderNumerically | ui/add_movie_dialog.py:334-335 | names differing in a number order by its value (`Episode 2` before `Episode 10`), strictly |
| Naming.ByNaturalNameIsTotalPreorder | ui/add_movie_dialog.py:335 | ordering paths by the natural key of their base name is a total preorder |
| Naming.EpisodeOrderSorted | ui/add_movie_dialog.py:335 | picked episode files come back as a permutation ordered by natural name |
| Naming.RemoveAll | ui/add_movie_dialog.py:536-538 | removing every match of a pattern never grows the text nor adds a character |
| Naming.ExtractedTitleIsTidy | ui/add_movie_dialog.py:531-540 | a guessed episode title has no `.` or `_`, no doubled space, and no space or `-` at either end |
| Naming.ExtractOfPlainName | ui/add_movie_dialog.py:531-540 | `The.Pilot.mkv` gives `The Pilot` |
| Naming.ExtractOfCodedName | ui/add_movie_dialog.py:531-540 | `S01E02.The.Pilot.mkv` gives `The Pilot`: the season-episode code is removed |
| Naming.Unhyphenated | ui/add_movie_dialog.py:307 | each `.`, `_` and `-` becomes a space and nothing else changes |
| Naming.FilledTitleShape | ui/add_movie_dialog.py:306-308 | the filled-in title has no separator and no space at either end |
| Naming.AutoTitleShape | ui/add_movie_dialog.py:305-308 | a title already typed is kept; a blank one is replaced by the cleaned file stem |
| Naming.BlankTitleFilled | ui/add_movie_dialog.py:305-308 | a blank title field becomes the trimmed stem of the picked file's base name with `.`, `_` and `-` turned into spaces |
| Naming.AutoTitleOfName | ui/add_movie_dialog.py:305-308 | picking `dir/The-Big_Movie.mkv` with a blank title fills in `The Big Movie` |
| Naming.Pad2Value | ui/add_movie_dialog.py:508 | `{n:02d}` is all digits and reads back as n |
| Naming.EpisodeSlugInjective | ui/add_movie_dialog.py:508 | different episode numbers of a season give different `sNNeMM` names |
| BatchImport.RelativeOfJoin | ui/add_movie_dialog.py:426 | `relpath(join(root, rel), root) == rel` for a relative path below the root |
| BatchImport.TitleFile | ui/add_movie_dialog.py:425-426 | a file in a title directory lies at `movies/<slug>/<name>` relative to the root |
| BatchImport.QueueOf | ui/add_movie_dialog.py:506-524 | one queue entry per picked episode file |
| BatchImport.QueueNumbering | ui/add_movie_dialog.py:506-524 | entry i is episode i+1 of the batch's season, from file i, with its destination, preset and a tidy guessed title |
| BatchImport.QueueDestination | ui/add_movie_dialog.py:508-514 | episode i+1 goes to `movies/<show>/sNNeMM/episode<ext>` and is stored by that relative path |
| BatchImport.QueueDirsDistinct | ui/add_movie_dialog.py:508-510 | two episodes of one batch never share a directory |
| BatchImport.QueueExtension | ui/add_movie_dialog.py:512-513 | an episode keeps its source extension under "copy" and ends in `.mp4` otherwise |
| BatchImport.FlaggedMembers | ui/add_movie_dialog.py:439-450 | the entries kept are exactly those whose copy succeeded |
| BatchImport.FlaggedCount | ui/add_movie_dialog.py:439-450 | one entry is kept per successful copy |
| BatchImport.CommitMembers | ui/add_movie_dialog.py:572-587 | the catalog receives an `add_episode` exactly for the episodes whose job succeeded |
| BatchImport.CommitCount | ui/add_movie_dialog.py:572-587 | the number of episodes written is the number of successes |
| BatchImport.QueueIsNumbered | ui/add_movie_dialog.py:507 | queue entries are numbered 1, 2, 3, ... in order |
| BatchImport.CommittedExactly | ui/add_movie_dialog.py:572-587 | episode k+1 is written if and only if its job succeeded |
| BatchImport.CommitsInOrder | ui/add_movie_dialog.py:586-587 | episodes are written in increasing episode number |
| BatchImport.OverallForm | ui/add_movie_dialog.py:565 | overall progress is `(100*index + percent) / total` |
| BatchImport.OverallBounds | ui/add_movie_dialog.py:565 | while episode `index` runs, overall progress stays within its share of the bar |
| BatchImport.OverallMonotone | ui/add_movie_dialog.py:565 | overall progress never moves back as episodes and percentages advance |
| BatchImport.BarValue | ui/add_movie_dialog.py:566 | the bar's `int(overall)` stays in 0..100 and never decreases |
| BatchImport.SubtitleCopyPath | ui/add_movie_dialog.py:440-445 | subtitle i is stored as `movies/<slug>/subtitle_<i><ext>` |
| BatchImport.CopiedSubtitles | ui/add_movie_dialog.py:438-450 | one entry per copied file, each external with track 0; a failed copy is skipped |
| BatchImport.MovieProblemIff | ui/add_movie_dialog.py:370-380 | a movie import starts exactly when the title is not blank and the movie and poster files exist |
| BatchImport.ShowProblemIff | ui/add_movie_dialog.py:382-395 | a show import starts exactly when there are episode files and, for a new show, a non-blank name and an existing poster |
| BatchImport.AddDialog.constructor | ui/add_movie_dialog.py:31-46 | the dialog starts idle with nothing picked and empty logs |
| BatchImport.AddDialog.BrowseMovie | ui/add_movie_dialog.py:298-311 | a cancelled pick changes nothing; a pick records the file, probes embedded subtitles if asked and fills a blank title |
| BatchImport.AddDialog.BrowseThumbnail | ui/add_movie_dialog.py:313-317 | a pick replaces the poster path; a cancelled pick changes nothing |
| BatchImport.AddDialog.BrowseSubtitles | ui/add_movie_dialog.py:325-329 | a pick replaces the subtitle list; a cancelled pick changes nothing |
| BatchImport.AddDialog.BrowseEpisodes | ui/add_movie_dialog.py:331-337 | picked files are appended, naturally ordered, as a permutation of the pick |
| BatchImport.AddDialog.ClearEpisodes | ui/add_movie_dialog.py:339-341 | the episode list becomes empty and nothing else changes |
| BatchImport.AddDialog.OnAdd | ui/add_movie_dialog.py:399-410 | ignored while importing; an invalid form only shows its message; a failed poster or thumbnail copy resets the dialog with the copy error; a valid movie form records exactly the pending movie and starts its job; a valid show form writes the setup rows, builds the queue and starts episode 1 or finishes |
| BatchImport.AddDialog.CheckAndStartShow | ui/add_movie_dialog.py:403-406 | the show branch: a failed check only shows its message; otherwise the outcome of `_start_show_add` |
| BatchImport.AddDialog.CheckAndStartMovie | ui/add_movie_dialog.py:407-410 | the movie branch: a failed check only shows its message; otherwise the outcome of `_start_movie_add` |
| BatchImport.AddDialog.StartMovieAdd | ui/add_movie_dialog.py:412-468 | a failed poster copy resets the dialog; otherwise the pending movie is recorded and one job starts |
| BatchImport.AddDialog.SubtitleEntriesFor | ui/add_movie_dialog.py:438-450 | the subtitle entries are exactly those of the copied files |
| BatchImport.AddDialog.StartShowAdd | ui/add_movie_dialog.py:470-528 | creates the show if new, adds the season, builds the queue and starts the first job, or finishes at once on an empty queue |
| BatchImport.AddDialog.BeginBatch | ui/add_movie_dialog.py:526-528 | records the setup writes and starts episode 1, or finishes at once |
| BatchImport.AddDialog.BuildQueue | ui/add_movie_dialog.py:504-524 | the loop builds exactly the queue of the picked episodes |
| BatchImport.AddDialog.ProcessNext | ui/add_movie_dialog.py:542-561 | starts the job of the current episode, or finishes the import when none is left, whether or not the dialog is still importing |
| BatchImport.AddDialog.UpdateEpisodeProgress | ui/add_movie_dialog.py:563-569 | the bar shows `int` of the overall progress |
| BatchImport.AddDialog.OnEpisodeComplete | ui/add_movie_dialog.py:571-587 | for any completion, also one arriving after a cancel: warns on failure, writes the episode only on success, moves to the next episode and starts its job or finishes; an index past the queue stops after the warning |
| BatchImport.AddDialog.RecordOutcome | ui/add_movie_dialog.py:572-585 | warns on failure; the lookup succeeds exactly when the index is inside the queue, and then the catalog log gains the episode exactly when it succeeded, keeping the batch invariant |
| BatchImport.AddDialog.OnEpisodeCompleteIntended | ui/add_movie_dialog.py:571-587 | (corrected) a completion arriving when the dialog is no longer importing changes nothing; otherwise as `_on_episode_complete` |
| BatchImport.CancelledBatchGoesOn | ui/add_movie_dialog.py:571-587 | (as written) cancelling during an episode that is not the last, then receiving that job's "Compression cancelled." completion, starts the next episode's job while the dialog is idle |
| BatchImport.CancelledBatchStops | ui/add_movie_dialog.py:629-638 | (corrected) with the intended slot the same cancel leaves no new job, no new write and no new message |
| BatchImport.AddDialog.UpdateProgress | ui/add_movie_dialog.py:598-602 | the bar shows `int(percent)` |
| BatchImport.AddDialog.OnSingleComplete | ui/add_movie_dialog.py:604-625 | for any completion of the movie's job, also after a cancel: a failure shows the error, removes the title directory when made and resets; a success writes the movie and closes the dialog |
| BatchImport.AddDialog.OnCancel | ui/add_movie_dialog.py:629-638 | while importing it cancels and drops the running job and resets, leaving the queue and pending import as they were; otherwise it closes the dialog |
| BatchImport.AddDialog.ResetUi | ui/add_movie_dialog.py:640-646 | the dialog is idle and the bar is back at 0 |
| Compression.PresetOrderIsComplete | utils/compression.py:31-64 | the preset list names each of the five presets once, and only "copy" copies |
| Compression.BuildCommand | utils/compression.py:153-163 | the command starts with ffmpeg, ends with the output, and has the expected length |
| Compression.CommandInput | utils/compression.py:153 | `-i` gives the input path |
| Compression.CommandCodec | utils/compression.py:154 | `-c:v` gives the preset's video codec |
| Compression.CommandCrf | utils/compression.py:155-156 | `-crf` is present exactly when the preset has one, with its value |
| Compression.CommandExtraArgs | utils/compression.py:153-157 | the preset's extra arguments appear unchanged, in order, between the codec and CRF arguments and `-c:a` |
| Compression.CommandAudio | utils/compression.py:158-160 | `-c:a` gives the audio codec; `-b:a` is present exactly when the preset has a bitrate |
| Compression.CommandSubtitlesAndProgress | utils/compression.py:161-162 | subtitles are copied and progress goes to `pipe:1` |
| Compression.ClockRoundTrip | utils/compression.py:75-78 | `H:M:S.f` parses back to its fields |
| Compression.FoundDurationHasTag | utils/compression.py:75 | a duration is found only where `Duration:` occurs |
| Compression.DurationRoundTrip | utils/compression.py:67-82 | a `Duration: H:M:S.f` banner after any text in which no earlier place reads as a banner yields `h*3600 + m*60 + s` |
| Compression.BannerMatches | utils/compression.py:75 | the banner pattern matches a well-formed banner |
| Compression.EmbeddedEntry | utils/compression.py:97-105 | an embedded entry is marked embedded, with an empty path, its track index and a `LANG (codec)` label |
| Compression.EmbeddedEntriesShape | utils/compression.py:84-110 | every detected subtitle entry has that shape |
| Compression.StreamLineRoundTrip | utils/compression.py:93-106 | a `Stream #a:b(lang): Subtitle: codec` line yields one entry for track b, then those of the rest |
| Compression.StreamLineMatches | utils/compression.py:93-99 | the stream pattern matches such a line, language optional |
| Compression.PercentProperties | utils/compression.py:183-185 | the reported percent is capped at 99.9, non-negative for non-negative times and monotone in time |
| Compression.LineProgressSpec | utils/compression.py:180-189 | a line reports progress exactly when it is a well-formed `out_time_ms=` line and the duration is known and positive |
| Compression.ProgressLineRoundTrip | utils/compression.py:180-187 | `out_time_ms=<t>` reports the percent of t |
| CompressionJob.Truncate | utils/compression.py:202 | `stderr[:500]` is a prefix of at most 500 characters, the whole text when shorter |
| CompressionJob.ReportBound | utils/compression.py:184-187 | no progress line reports more than 99.9 |
| CompressionJob.LineEventsAreProgress | utils/compression.py:172-189 | reading output lines only reports progress, at most one report per line |
| CompressionJob.TranscodeOutcome | utils/compression.py:165-212 | a transcode ends with exactly one completion, which succeeds exactly when ffmpeg ran uncancelled and exited 0 |
| CompressionJob.JobOutcome | utils/compression.py:117-212 | every job ends with one completion after progress reports of at most 100; its success condition is stated |
| CompressionJob.JobRemovesOnlyOnFailure | utils/compression.py:165-212 | the output is removed only on failure, and always on a transcoding failure after launch |
| CompressionJob.CancelStopsProgress | utils/compression.py:172-178 | a cancel seen at line k stops the job with "Compression cancelled." after at most k reports |
| CompressionJob.ErrorMessageBound | utils/compression.py:198-202 | an ffmpeg failure reports `FFmpeg error: ` and the first 500 characters of stderr at most |
| CompressionJob.CompressionWorker.constructor | utils/compression.py:113-115 | a new worker is not cancelled and runs nothing |
| CompressionJob.CompressionWorker.Cancel | utils/compression.py:214-220 | sets the cancelled flag and changes nothing else |
| CompressionJob.CompressionWorker.Cleanup | utils/compression.py:222-227 | removes the output file |
| CompressionJob.CompressionWorker.Compress | utils/compression.py:117-132 | an unknown preset completes with failure; otherwise the job's events and removals are those of the reference run |
| CompressionJob.CompressionWorker.RunCompression | utils/compression.py:134-212 | copy or transcode, with the events, removals and ffmpeg command of the reference run |
| CompressionJob.CompressionWorker.ReadOutput | utils/compression.py:165-212 | the output-reading loop emits exactly the reference events and removes the output exactly when the reference says |
| CompressionJob.CancelledEvents | utils/compression.py:172-178 | a cancel seen before the last line ends the callbacks with `Compression cancelled.` after the progress of the lines read so far, and deletes the output |
| CompressionJob.FinishedEvents | utils/compression.py:190-201 | without a cancel, a zero exit code reports 100 and success after the lines' progress, any other code reports the stderr text, and only the latter deletes the output |
| CompressionJob.CompressionWorker.ReadLines | utils/compression.py:172-189 | the stdout loop stops exactly when a cancel arrives before the last line; then it has deleted the output and reported the progress of the lines before the cancel followed by `Compression cancelled.`, and otherwise it has reported every line's progress and deleted nothing |
| LibraryView.ColumnsFor | ui/main_window.py:47-49 | at least 2 columns, and the largest count whose cards fit the width, when that is 2 or more |
| LibraryView.CellOf | ui/main_window.py:50-53 | card i sits in a cell within the columns, at `row*columns + col == i` |
| LibraryView.RowOrder | ui/main_window.py:50-53 | a card on an earlier row comes earlier in the list |
| LibraryView.CellsRowMajor | ui/main_window.py:50-53 | cards fill the grid row by row, left to right, never sharing a cell |
| LibraryView.FlowLayout.constructor | ui/main_window.py:25-32 | an empty grid with 4 columns |
| LibraryView.FlowLayout.Clear | ui/main_window.py:34-38 | the grid holds no card |
| LibraryView.FlowLayout.Rearrange | ui/main_window.py:44-53 | recomputes the columns when there is a parent and places every card at its cell |
| LibraryView.FlowLayout.AddCard | ui/main_window.py:40-42 | appends the card and re-places all cards |
| LibraryView.FlowLayout.Resize | ui/main_window.py:55-57 | a resize re-places all cards for the new width |
| LibraryView.MergedMembers | ui/main_window.py:227-232 | the merged list holds exactly the movies' and the shows' cards, movie cards first |
| LibraryView.MergeItems | ui/main_window.py:228-232 | the two loops build exactly the merged list |
| LibraryView.OrderedItems | ui/main_window.py:227-237 | the cards come as an ordered permutation of the merged list, by date or lower-cased title, in the chosen direction |
| LibraryView.CountTextReads | ui/main_window.py:269-273 | a count text starts with the count, and ends in `s` exactly when the count is not 1 |
| LibraryView.CountLabelReads | ui/main_window.py:265-275 | when searching the label leads with the number of results; otherwise it is "Empty" exactly when there is nothing, and leads with the movie count (or the show count) |
| LibraryView.FlattenMembers | ui/main_window.py:311-316 | the flat episode list holds exactly the episodes of the show's seasons |
| LibraryView.EpisodeList | ui/main_window.py:306-318 | the list is the flattened season tree (empty without a show), and the index is the last position of the clicked episode, or -1 |
| LibraryView.DirnameOfJoin | ui/main_window.py:349-350 | `dirname(join(dir, name)) == dir` |
| LibraryView.ImportedFileDir | ui/main_window.py:349-350 | the directory of a file imported into a title directory is that title directory |
| LibraryView.DeletedMovieDir | ui/main_window.py:349-353 | deleting a movie removes exactly the directory its import created |
| LibraryView.DeletedEpisodeDir | ui/main_window.py:373-374 | for an imported episode, the directory removed is exactly the `sNNeMM` directory its import created |
| LibraryView.EpisodeFileDir | ui/main_window.py:373-374 | an episode file's directory is its episode directory |
| LibraryView.ShowDirsCover | ui/main_window.py:369-379 | every episode's directory is among those a show delete removes |
| LibraryView.CollectShowDirs | ui/main_window.py:369-379 | the loops collect exactly the episode directories and, with a poster, the poster's directory |
| LibraryView.ShowSlugDirIsParent | ui/main_window.py:391-394 | (corrected) the show directory checked for emptiness is the parent of every episode directory the import created |
| LibraryView.ShowSlugDirMismatch | ui/main_window.py:391 | (as written) for the title `A.B` the directory checked is not the one the import created |
| LibraryView.LibraryWindow.constructor | ui/main_window.py:73-83 | sorted by date added, newest first, with no query; the library is refreshed once |
| LibraryView.LibraryWindow.SearchChanged | ui/main_window.py:280-286 | the query becomes the stripped search text |
| LibraryView.LibraryWindow.SortChanged | ui/main_window.py:289-293 | a chosen sort sets key and direction and refreshes the library at once; no data changes nothing |
| LibraryView.LibraryWindow.Refresh | ui/main_window.py:217-275 | the grid shows an ordered permutation of all matching titles, the empty notice appears exactly when there are none, and the count label is set |
| LibraryView.LibraryWindow.ShowCards | ui/main_window.py:250-263 | the grid ends up holding exactly the given cards, in order |
| LibraryView.LibraryWindow.DeleteMovie | ui/main_window.py:339-357 | after confirming: delete the row, remove the movie's directory only if the catalog returned the movie, warn when that removal failed, refresh |
| LibraryView.LibraryWindow.RemoveEach | ui/main_window.py:383-388 | removes every collected directory exactly once, in some order |
| LibraryView.LibraryWindow.DeleteShow | ui/main_window.py:360-398 | after confirming: delete the row, remove each collected directory once, try `movies/` + the lower-cased, dash-joined title if empty, refresh |
| Player.WholeSeconds | ui/player_widget.py:24-26 | `int(seconds)` after clamping negatives to 0 is the whole number of seconds |
| Player.FormatTimeHours | ui/player_widget.py:23-30 | an hour or more prints as `h:mm:ss`, reading back as the whole seconds |
| Player.FormatTimeMinutes | ui/player_widget.py:23-30 | less than an hour prints as `m:ss`, reading back as the whole seconds |
| Player.FormatTimeRoundTrip | ui/player_widget.py:23-30 | the clock text reads back as the whole seconds, with 3 fields from an hour on and 2 below |
| Player.ClockSplit | ui/player_widget.py:27-29 | hours, minutes and seconds recombine to the total; minutes stay below 60 |
| Player.Clamp | ui/player_widget.py:388 | `min(hi, max(lo, v))` lies in range and keeps in-range values |
| Player.SeekFractionBounds | ui/player_widget.py:411-413 | the seek bar value is the floor of the played share in thousandths, monotone, and in 0..1000 |
| Player.PlayerWidget.constructor | ui/player_widget.py:38-51 | no player, no movie, not playing, volume 100, empty logs |
| Player.PlayerWidget.LoadMovie | ui/player_widget.py:232-264 | without VLC nothing changes; otherwise the movie plays and the update timer runs |
| Player.PlayerWidget.SavePosition | ui/player_widget.py:328-336 | with a player and a movie, appends exactly the saving writes; otherwise nothing |
| Player.SaveWrites | ui/player_widget.py:328-336 | what saving writes: only for that movie, a position exactly when the time is positive, a length exactly when it is positive and unknown, never a negative value |
| Player.PlayerWidget.Stop | ui/player_widget.py:266-272 | with a player and a movie, appends exactly the saving writes; then stops playing and the timer |
| Player.PlayerWidget.TogglePlayPause | ui/player_widget.py:274-284 | flips playing when there is a player |
| Player.PlayerWidget.SkipForward | ui/player_widget.py:286-290 | seeks 10 s ahead when the time is known |
| Player.PlayerWidget.SkipBackward | ui/player_widget.py:292-296 | seeks 10 s back, not below 0, when the time is known |
| Player.PlayerWidget.ToggleFullscreen | ui/player_widget.py:298-307 | flips full screen |
| Player.PlayerWidget.Cleanup | ui/player_widget.py:309-318 | stops the timer; with a player and a movie appends exactly the saving writes; releases the player |
| Player.PlayerWidget.SliderMoved | ui/player_widget.py:134-138 | a drag of the seek bar leaves its value at the dragged position, kept in the range 0..1000 |
| Player.PlayerWidget.OnSeekStart | ui/player_widget.py:356-357 | marks a seek in progress |
| Player.PlayerWidget.OnSeekEnd | ui/player_widget.py:363-366 | ends the seek and, with a player and a known duration, seeks to a fraction within 0..1 |
| Player.PlayerWidget.VolumeUp | ui/player_widget.py:387-388 | volume up by 5, capped at 100 |
| Player.PlayerWidget.VolumeDown | ui/player_widget.py:390-391 | volume down by 5, not below 0 |
| Player.PlayerWidget.UpdateUi | ui/player_widget.py:400-425 | follows the media's length and time, stops at the end saving position 0, and saves the position while playing |
| Player.PlayerWidget.FollowMedia | ui/player_widget.py:403-414 | a known length becomes the duration; the seek bar follows the time unless the user is seeking |
| Player.PlayerWidget.CheckEnd | ui/player_widget.py:415-419 | at the end of the media, playing and the timer stop |

## Left out

- SQLite itself (connections, transactions, SQL text, column types) is not modelled. Tables are maps, and a foreign-key failure is an `Option` result.
- `ORDER BY` and `list.sort` promise an ordered permutation; the model does not fix the order of equal keys (SQLite's choice, Python's stability).
- Subtitle rows come back in row-id order, which is SQLite's table-scan order; the SQL itself promises no order.
- `date_added` is an integer stamp given by the caller's clock, never NULL, so the `x[2] or ""` fallback at ui/main_window.py:237 has no case to cover.
- Python's `\w`, `\s`, `lower()` and `strip()` are Unicode-aware; the model covers ASCII only.
- Paths use POSIX `/`; Windows drive letters and backslashes are not modelled, and `relpath` is modelled only for paths below the library root.
- `format_file_size` is modelled by its unit choice and exact value; the `.1f`/`.2f` rounding is not.
- The seek fraction and the overall progress are computed on exact reals and integers; floating-point rounding is not modelled.
- ffmpeg, the worker thread and its process are inputs: the launch result, the output lines, the exit code, stderr and the line at which a cancel arrives. Concurrency between `cancel()` and the reading loop is reduced to that one line index.
- `get_ffmpeg_path`, `get_drive_root`, `get_drive_free_space`, `os.makedirs` and `os.path.exists` are not modelled; existence checks are boolean inputs.
- A failed `shutil.rmtree` in `_on_delete_movie` is an input and shows its warning (`LibraryWindow.DeleteMovie`). Elsewhere the source swallows failures of `shutil.rmtree`, `os.rmdir` and `os.remove`, and the model logs the attempt only.
- The poster and subtitle copies succeed or fail by input; their file contents are not modelled.
- CompressionJob.CompressionWorker.Compress, CompressionJob.CompressionWorker.RunCompression: the source's `on_progress` and `on_complete` default to `None` and every call is guarded; the event log is what the callbacks receive when they are given.
- Text.ParseInt: Python's `int()` also accepts `_` between digits (`int("1_000")`) and non-ASCII digits; the model accepts ASCII digits only and returns `None` for those.
- VLC is not modelled: its answers are parameters. `set_time` and `set_position` are logged (`timeSets`, `positionSets`); `play`, `pause`, `stop` and `release` appear only as the `isPlaying`/`hasPlayer` flags; the volume sent through `audio_set_volume` is the `volume` field. The mute, speed (`set_rate`) and subtitle-track (`video_set_spu`) calls are not modelled. `load_movie` does not model the subtitle slaves, the 500 ms resume timer, the speed combo or the window handle.
- `PlayerWidget.load_episode`, which ui/main_window.py:318 calls, is not defined in ui/player_widget.py and is not part of this model.
- Status texts, button labels, message-box titles, timers and widget visibility are not modelled, except where a message is the result (completion messages, validation problems). So `_on_seek_moved`, which only retitles the time label during a drag, is not modelled; the drag itself is `PlayerWidget.SliderMoved`.
- The 200 ms search debounce in `_on_search_changed` is not modelled; the query is updated at once.
- `_on_movie_clicked`, `_on_show_clicked`, `_on_add_season` and `_on_show_updated` only navigate between pages or open the dialog, so they are not modelled; `get_next_season_number` is.
- Card widgets are values (`MovieCard`, `ShowCard`), without their signals or painting.
- `EpisodeList` returns the last matching position; with unique episode ids that is the only one.
- `RemoveEach`/`DeleteShow`: Python's set iteration order is unspecified, so the order of the removals is a ghost result constrained only to list each directory once.
- `get_video_duration` reads seconds as `\d+\.?\d*`; the model represents that value as its digits and scale, not as a float.
- The dialog keeps its widget state (`picks`, the log `out`, the job tracker) in records; the catalog it writes to is represented by a log of calls.
- utils/sleep_inhibit.py, ui/movie_card.py, ui/show_detail_widget.py, main.py and build.py are not modelled: they are platform calls, widgets and packaging.

## Findings

| source | as written | input that shows it | evidently intended | confidence | as-written member | corrected member |
|---|---|---|---|---|---|---|
| ui/main_window.py:391-394 | the show directory checked for emptiness after a show delete is `movies/` + `title.lower().replace(" ", "-")` | title `A.B`: the import created `movies/ab`, but the delete checks `movies/a.b`. An imported show's poster also lives in `movies/ab`, which the delete already removes (ui/main_window.py:377-386), so `movies/ab` is left behind only for a show without a poster path or when that removal failed | the directory the import created, `movies/<slugify(title)>` | not executed | LibraryView.ShowSlugDirMismatch | LibraryView.ShowSlugDirIsParent |
| ui/add_movie_dialog.py:571-587, 629-638 | `_on_cancel` cancels the job but leaves its finished signal connected, and `_on_episode_complete` does not check `_is_processing` | cancel during episode 1 of 3: the job reports "Compression cancelled.", the slot warns, skips episode 1 and starts episode 2's job although the dialog is idle | a completion after a cancel is ignored, so the batch stops | not executed | BatchImport.CancelledBatchGoesOn | BatchImport.AddDialog.OnEpisodeCompleteIntended |
