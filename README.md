# Lollypop track catalogue and radio cycling, modelled in Dafny

This project models two pieces of the Lollypop music player:

- **The track catalogue** (`TracksDatabase`, `src/database_tracks.py`). The
  catalogue keeps its data in three SQLite tables: `tracks`, `track_artists`
  and `track_genres`. Here those tables are in-memory state:
  - `tracks` is a sequence of rows in rowid order;
  - each link table is a sequence of (track id, other id) pairs in insertion order;
  - the `albums`, `artists` and `genres` tables belong to other repositories.
    The class holds them as read-only maps for its joins.

  Every method of the class is modelled except `get_never_listened_to` and
  `get_randoms`, which order by `random()` (see Left out):
  - an `INSERT`, `UPDATE` or `DELETE` is a method that reassigns the table it
    touches;
  - a method that only runs a `SELECT` is a function that reads the tables;
  - `get_mtimes` and `search_track` loop over the fetched rows in Python, so
    they are methods with a `while` loop.
- **Radio cycling** (`RadioPlayer.next` / `prev`, `src/player_radio.py`). Each
  method picks the radio after or before the one playing, wrapping around at
  the ends. It then returns a track for that radio's first URI.

Files:

| file | module | contents |
|---|---|---|
| `wrappers.dfy` | `Wrappers` | `Option` |
| `track_table.dfy` | `TrackTable` | rows, links, lookups by rowid/path/name, the single-table updates and what each changes |
| `track_queries.dfy` | `TrackQueries` | `ORDER BY ... DESC LIMIT n`, the average popularity, `LIKE` search, the guest-artist join |
| `database_tracks.dfy` | `DatabaseTracks` | the class `TracksDatabase` with all of its methods |
| `player_radio.dfy` | `PlayerRadio` | `next`, `prev`, their index functions and the cycle lemmas |

Modelling choices:

- **Row order.** A table scan visits rows in rowid order. A rowid is unique.
  The class invariant `Valid()` therefore requires:
  - ids strictly ascending;
  - filepaths unique (the uniqueness the schema gives `filepath`; the schema
    itself is not part of this model);
  - no (track, other) pair stored twice. `add_artist` and `add_genre` keep
    this property.
- **Inserting.** `add` gives the new row SQLite's default rowid: one more than
  the largest rowid, or 1 in an empty table. An insert fails when:
  - the path is already stored (the uniqueness constraint), or
  - the store rejects it, which is the `storeFails` parameter (e.g. a path it
    cannot encode).

  Either failure is swallowed and leaves the table unchanged.
- **Failing updates.** `set_popularity` on a locked database is the `locked`
  parameter. Its exception is also swallowed.
- **Commits.** The ghost field `pendingWrites` says whether statements have
  run since the last commit. `set_more_popular`, `set_listened_at` and
  `set_popularity(commit=True)` commit. Every other mutator leaves the commit
  to its caller.
- **Comparisons.** `COLLATE NOCASE` is SQLite's documented collation: it
  folds the 26 ASCII capitals and nothing else. `LIKE` is a parameter
  `like(value, pattern)`, and `search` builds the pattern `%searched%` as the
  source does.
- **Calls into other code** are parameters, bundled in the `Foreign` value:
  `Type.COMPILATIONS`, `_("Unknown")`, `translate_artist_name` and
  `Lp.artists.get_name`. `next` and `prev` take as parameters:
  - the value of `Type.RADIOS`;
  - the radio list;
  - `RadiosManager.get_tracks`.

  `src/define.py`, `src/objects.py` and `src/playlists.py` are not part of
  this model.
- **Python behaviour.** `radios[i]` follows Python's index rule. On an empty
  radio list that index raises `IndexError`, and the model returns it as the
  `IndexError` outcome rather than forbidding the input.

Three behaviours of the code are worth stating, because a reader might
expect otherwise:

- `get_avg_popularity` raises TypeError on an empty table (`None > 5`).
  `TrackQueries.AvgPopularityAsWritten` models the code as written; the
  class's `GetAvgPopularity` answers 5 there, as the `return 5` fallback
  implies (see Findings and Left out).
- `set_ltime` and `set_popularity` write any value, so popularity and ltime
  may go down, and the model writes any value too.
- `add_artist` does not check that the track exists, and neither does the
  model.

## Model

| member | source | states |
|---|---|---|
| `TrackTable.Lookup` | src/database_tracks.py:135-141 | a rowid lookup finds nothing exactly when no row has that id; otherwise it returns a row of the table with that id, the only one when ids ascend |
| `TrackTable.IdByPath` | src/database_tracks.py:112-125 | None exactly when no row has that filepath; otherwise the id of a row with exactly that path, the only such row when paths are unique |
| `TrackTable.IdsForName` | src/database_tracks.py:99-110 | an id is listed exactly when some row with that id has a name equal to the argument up to ASCII case |
| `TrackTable.LinkedIds` | src/database_tracks.py:208-218 | an id is listed exactly when the pair (track, id) is in the link table |
| `TrackTable.KnownIds` | src/database_tracks.py:228-231 | an id is kept exactly when it is linked and has a row in the name table, so an inner join drops the others |
| `TrackTable.NamesOf` | src/database_tracks.py:228-232 | one name per joined id, as many as the ids that have a row in the name table, the i-th being `f` of the i-th such id's name |
| `TrackTable.JoinSplitRoundTrip` | src/database_tracks.py:232-233 | splitting `", ".join(names)` at every ", " gives back a non-empty list of names none of which holds a comma |
| `TrackTable.WithoutTrack` | src/database_tracks.py:533-536 | a link survives exactly when it belongs to another track |
| `TrackTable.RemoveRow` | src/database_tracks.py:586-587 | a row survives exactly when its id differs from the deleted one |
| `TrackTable.NextRowId` | src/database_tracks.py:53-65 | the rowid given to an inserted row is larger than every rowid in the table |
| `TrackTable.Paths` | src/database_tracks.py:314-323 | one path per row; a path is listed exactly when it resolves to an id |
| `TrackTable.UpdateColumnFrame` | src/database_tracks.py:429-430 | an UPDATE by rowid keeps the table well formed, rewrites only the named column of the row with that id, and every other id looks up to the same row as before |
| `TrackTable.RemoveRowFrame` | src/database_tracks.py:586-587 | deleting a rowid keeps the table well formed, leaves no row with that id, and every other id looks up as before |
| `TrackTable.RemoveForgetsPath` | src/database_tracks.py:581-587 | after deleting the row a path resolved to, that path resolves to nothing |
| `TrackTable.AppendRowFound` | src/database_tracks.py:53-65 | an inserted row with a fresh path keeps the table well formed, is found by its rowid and by its path, and no other id moves |
| `TrackTable.AddLinkSpec` | src/database_tracks.py:78-82 | after check-then-insert the id is linked; the track's list gains the id only if it was absent; other tracks' lists are unchanged; on a duplicate-free table the pair occurs exactly once |
| `TrackTable.AddLinkIdempotent` | src/database_tracks.py:93-97 | linking the same id twice gives the same table as linking it once |
| `TrackTable.WithoutTrackFrame` | src/database_tracks.py:533-536 | after the DELETE the track has no links, every other track keeps its list, and pairs stay unique |
| `TrackTable.IntStringRoundTrip` | src/database_tracks.py:154-155 | the decimal text `str(year)` reads back as the year, so distinct years print differently |
| `TrackQueries.SortDesc` | src/database_tracks.py:394-396 | `ORDER BY ... DESC` is a permutation of its input with keys non-increasing |
| `TrackQueries.NonZero` | src/database_tracks.py:395 | `WHERE key != 0` keeps exactly the rows with a non-zero key, and only rows of the input |
| `TrackQueries.TopRows` | src/database_tracks.py:406-407 | `ORDER BY key DESC LIMIT n` keeps min(n, size) rows of the input, largest key first, and no row left out has a larger key than a row kept |
| `TrackQueries.TopListSpec` | src/database_tracks.py:464-466 | a top list holds at most 100 rows of the table, all with non-zero key, largest first; a list shorter than 100 holds every non-zero row; no row left out beats a row kept |
| `TrackQueries.TopIdsSpec` | src/database_tracks.py:394-397 | each id a top list returns looks up to a stored row with a non-zero key, at most 100 of them, in non-increasing key order |
| `TrackQueries.TopIdsComplete` | src/database_tracks.py:394-396 | `ListsEveryNonZero`: a top list shorter than 100 names every stored id whose key is non-zero |
| `TrackQueries.TopIdsDominate` | src/database_tracks.py:394-396 | `NoneLeftOutBeats`: no stored id with a non-zero key that a top list leaves out has a larger key than an id it names |
| `TrackQueries.TopIds` | src/database_tracks.py:394-396 | `WHERE key != 0 ORDER BY key DESC LIMIT 100`: at most 100 distinct stored ids with non-zero keys, largest first, every such id when fewer than 100, and no id left out beats an id listed |
| `TrackQueries.TopIdsDistinct` | src/database_tracks.py:394-396 | `NoRepeats`: a top list names each rowid at most once, because each stored row is selected at most once |
| `TrackQueries.AvgPopularityAsWritten` | src/database_tracks.py:406-411 | the code as written raises exactly on the empty table, and otherwise returns at least 5 |
| `TrackQueries.AvgPopularity` | src/database_tracks.py:399-411 | the average popularity is never below 5: it is 5 on an empty table or when the mean of the 100 most popular rows is at most 5, and that mean when it exceeds 5 |
| `TrackQueries.AvgPopularityEmptyTable` | src/database_tracks.py:406-411 | on the empty table the code as written raises while the corrected query answers 5 |
| `TrackQueries.AvgPopularityAgrees` | src/database_tracks.py:406-411 | on every non-empty table the corrected query returns what the code as written returns |
| `TrackQueries.AvgPopularityAtMostMax` | src/database_tracks.py:406-411 | the average never exceeds the largest popularity in the table unless the floor 5 does |
| `TrackQueries.Matching` | src/database_tracks.py:547-549 | `WHERE name LIKE pattern` keeps exactly the rows whose name matches, each no more often than the table holds it |
| `TrackQueries.MatchingAscending` | src/database_tracks.py:547-549 | the matching rows keep scan order, so their rowids still ascend |
| `TrackQueries.Search` | src/database_tracks.py:538-550 | at most 25 results, as many as there are matches up to 25, each the (id, name) of a table row whose name is LIKE `%searched%`, with rowids strictly ascending, so no row is listed twice (`MatchedPair` names the row property) |
| `TrackQueries.AsNonAlbumArtist` | src/database_tracks.py:370-385 | a pair is listed exactly when a row with that id and name is linked to the artist and has an album whose artist is someone else |
| `DatabaseTracks.TracksDatabase.constructor` | src/database_tracks.py:26-30 | `__init__` keeps no state of its own (`pass`); starting from empty tables and taking the `albums`, `artists` and `genres` tables as parameters are choices of the model, and the result is well formed with nothing pending |
| `DatabaseTracks.TracksDatabase.Add` | src/database_tracks.py:32-67 | a failing insert (duplicate path or store error) changes nothing; otherwise the row is appended with the next rowid, is found by path, and reads back its name, path and duration; no other id changes |
| `DatabaseTracks.TracksDatabase.AddArtist` | src/database_tracks.py:69-82 | the artist link table becomes the check-then-insert of the pair; the artist is then linked; the tracks table is untouched |
| `DatabaseTracks.TracksDatabase.AddGenre` | src/database_tracks.py:84-97 | the genre link table becomes the check-then-insert of the pair; the genre is then linked; the tracks table is untouched |
| `DatabaseTracks.TracksDatabase.GetIdsForName` | src/database_tracks.py:99-110 | the ids of exactly the rows whose name equals the argument up to ASCII case |
| `DatabaseTracks.TracksDatabase.GetIdByPath` | src/database_tracks.py:112-125 | None exactly when no row has the path; otherwise the id of the row with that path |
| `DatabaseTracks.TracksDatabase.GetName` | src/database_tracks.py:127-141 | "" for an unknown id, else that row's name |
| `DatabaseTracks.TracksDatabase.GetYear` | src/database_tracks.py:143-157 | "" exactly when the row is missing or its year is NULL or 0; otherwise the year in decimal |
| `DatabaseTracks.TracksDatabase.GetPath` | src/database_tracks.py:159-173 | "" for an unknown id, else that row's filepath |
| `DatabaseTracks.TracksDatabase.GetAlbumId` | src/database_tracks.py:175-189 | -1 for an unknown id, else that row's album id |
| `DatabaseTracks.TracksDatabase.GetAlbumName` | src/database_tracks.py:191-206 | the joined album's name, or the "Unknown" label when the track or its album row is missing |
| `DatabaseTracks.TracksDatabase.GetArtistIds` | src/database_tracks.py:208-218 | exactly the artist ids linked to the track |
| `DatabaseTracks.TracksDatabase.GetArtistNames` | src/database_tracks.py:220-233 | "" when the join yields no artist names (no links, or none with a row in `artists`), as `", ".join([])`; otherwise, when no translated name holds a comma, splitting the text at ", " gives back exactly the translated names of the linked artists that have a row in `artists` |
| `DatabaseTracks.TracksDatabase.GetGenreIds` | src/database_tracks.py:235-245 | exactly the genre ids linked to the track |
| `DatabaseTracks.TracksDatabase.GetGenreNames` | src/database_tracks.py:247-260 | "" when the join yields no genre names (no links, or none with a row in `genres`), as `", ".join([])`; otherwise, when no name holds a comma, splitting the text at ", " gives back exactly the names of the linked genres that have a row in `genres` |
| `DatabaseTracks.TracksDatabase.GetMtimes` | src/database_tracks.py:262-275 | the dictionary's keys are exactly the stored paths, and each path maps to the mtime of the last row carrying it |
| `DatabaseTracks.TracksDatabase.GetInfos` | src/database_tracks.py:277-293 | None exactly for an unknown id, else that row's name, path, duration and album id |
| `DatabaseTracks.TracksDatabase.GetAlbumArtistId` | src/database_tracks.py:295-312 | the joined album's artist id, or the compilations id when the track or its album row is missing |
| `DatabaseTracks.TracksDatabase.GetPaths` | src/database_tracks.py:314-323 | one path per row; a path is listed exactly when it resolves to an id |
| `DatabaseTracks.TracksDatabase.GetNumber` | src/database_tracks.py:325-339 | 0 for an unknown id, else that row's track number |
| `DatabaseTracks.TracksDatabase.GetDuration` | src/database_tracks.py:341-355 | 0 for an unknown id, else that row's duration |
| `DatabaseTracks.TracksDatabase.IsEmpty` | src/database_tracks.py:357-368 | true exactly when no rowid resolves to a row |
| `DatabaseTracks.TracksDatabase.GetAsNonAlbumArtist` | src/database_tracks.py:370-385 | exactly the (id, name) of tracks linked to the artist on an album whose artist is someone else |
| `DatabaseTracks.TracksDatabase.GetPopulars` | src/database_tracks.py:387-397 | at most 100 distinct ids, each of a stored track with popularity != 0, in non-increasing popularity; fewer than 100 only when every such track is listed; no track left out is more popular than one listed |
| `DatabaseTracks.TracksDatabase.GetAvgPopularity` | src/database_tracks.py:399-411 | never below 5; 5 on an empty table, where the code as written raises; on every other table exactly what the code as written returns |
| `DatabaseTracks.TracksDatabase.SetMorePopular` | src/database_tracks.py:413-431 | the row's popularity becomes the value read before (0 for a missing row) plus one; no other column or row changes; a missing row stays missing; committed afterwards |
| `DatabaseTracks.TracksDatabase.SetListenedAt` | src/database_tracks.py:433-443 | only the row's ltime changes, to the given time; every other row is unchanged; committed afterwards |
| `DatabaseTracks.TracksDatabase.GetRecentlyListenedTo` | src/database_tracks.py:457-467 | at most 100 distinct ids, each of a stored track with ltime != 0, in non-increasing ltime; fewer than 100 only when every such track is listed; no track left out has a later ltime than one listed |
| `DatabaseTracks.TracksDatabase.SetLtime` | src/database_tracks.py:480-490 | only the row's ltime changes; every other row is unchanged; a commit is left pending |
| `DatabaseTracks.TracksDatabase.SetPopularity` | src/database_tracks.py:492-507 | when the database is locked nothing changes; otherwise only the row's popularity changes, and a commit is pending exactly when none was asked for |
| `DatabaseTracks.TracksDatabase.GetPopularity` | src/database_tracks.py:509-523 | 0 for an unknown id, else that row's popularity |
| `DatabaseTracks.TracksDatabase.Clean` | src/database_tracks.py:525-536 | the track has no artist or genre links afterwards; other tracks' links and the tracks table are unchanged |
| `DatabaseTracks.TracksDatabase.Search` | src/database_tracks.py:538-550 | at most 25 rows, as many as the matching rows up to 25, each the (id, name) of a stored track whose name is LIKE `%searched%`, with rowids strictly ascending on a well-formed table |
| `DatabaseTracks.TracksDatabase.SearchTrack` | src/database_tracks.py:552-572 | None exactly when no candidate named `title` matches the artist; otherwise the first candidate, in scan order, whose album artist's name or joined artist names equal `artist` |
| `DatabaseTracks.TracksDatabase.Remove` | src/database_tracks.py:574-587 | for an unknown path nothing is deleted; otherwise the genre links, the artist links and the row of that id are deleted and every other row and link is unchanged; afterwards the path resolves to nothing |
| `PlayerRadio.PyIndex` | src/player_radio.py:73 | Python's `radios[i]` succeeds exactly when -n <= i < n, and then names a position in [0, n) |
| `PlayerRadio.FirstIndex` | src/player_radio.py:63-67 | the forward scan stops at the first radio with the name, or finds none |
| `PlayerRadio.LastIndex` | src/player_radio.py:90-94 | the reversed scan stops at the last radio with the name, or finds none |
| `PlayerRadio.NextIndex` | src/player_radio.py:62-73 | in [0, n); k + 1 when the name first occurs at k < n - 1; 0 when it first occurs at n - 1 or is absent |
| `PlayerRadio.PrevIndex` | src/player_radio.py:89-100 | in [0, n); k - 1 when the name last occurs at k > 0; n - 1 when it last occurs at 0 or is absent |
| `PlayerRadio.Next` | src/player_radio.py:52-77 | a blank track unless the current track is a radio; IndexError on an empty list; otherwise the radio at NextIndex with its first URI, or a blank track when it has none |
| `PlayerRadio.Prev` | src/player_radio.py:79-104 | a blank track unless the current track is a radio; IndexError on an empty list; otherwise the radio at PrevIndex with its first URI, or a blank track when it has none |
| `PlayerRadio.PrevAfterNext` | src/player_radio.py:62-100 | with distinct names, `prev` of the radio `next` chose is the radio started from |
| `PlayerRadio.NextAfterPrev` | src/player_radio.py:62-100 | with distinct names, `next` of the radio `prev` chose is the radio started from |
| `PlayerRadio.NextStepsAdvance` | src/player_radio.py:62-73 | with distinct names, each `next` moves one place forward around the circle |
| `PlayerRadio.NextFullCircle` | src/player_radio.py:62-73 | with distinct names, n presses of `next` come back to the starting radio |

## Left out

- `get_never_listened_to` and `get_randoms` (src/database_tracks.py:445-478) order by `random()`; they are nondeterministic and are not modelled.
- The sqlite cursor, the connection, the `Lp.sql` default handle and the per-thread `sql` argument are not modelled; a commit is only the ghost flag `pendingWrites`.
- The diagnostic `print` in `add` is not modelled; a failed insert only leaves the table unchanged.
- `DatabaseTracks.TracksDatabase.SetPopularity`: a commit that raises after a successful UPDATE is not distinguished; `locked` models only the UPDATE raising.
- SQLite's `LIKE` is a parameter: its case folding and its `%` and `_` wildcards inside the searched text are the engine's behaviour.
- Among rows with equal keys, `ORDER BY ... DESC` keeps scan order here; SQLite leaves that order unspecified.
- The output order of the joins in `get_artist_names`, `get_genre_names` and `get_as_non_album_artist` follows link order and scan order here; SQLite does not fix it.
- The rows `get_ids_for_name` returns come in rowid order here, so `search_track` picks the first match in rowid order; the query has no `ORDER BY`, and SQLite does not fix that order.
- `DatabaseTracks.TracksDatabase.GetArtistNames`: the names come back in link order, which SQLite does not fix. When a translated name holds a comma, the text does not split back into the names, and the contract then states only that the text is empty when no name joins.
- `DatabaseTracks.TracksDatabase.GetGenreNames`: the same limits as `GetArtistNames`.
- `DatabaseTracks.TracksDatabase.GetAvgPopularity`: answers the corrected query, so on an empty table it returns 5 where the code raises TypeError (see Findings). `TrackQueries.AvgPopularityAsWritten` is the code as written, and on every non-empty table the two agree.
- SQLite's fallback for a table whose largest rowid is already 2^63-1 (a random unused rowid) is not modelled. The 64-bit limit of SQLite integers is not modelled either; integers are unbounded.
- `AVG` returns a floating-point REAL; the model uses exact reals.
- `RadioPlayer.load`, `_on_entry_parsed` and `_on_parsing_finished` (src/player_radio.py:34-50, 109-137) are asynchronous playlist-parser and playbin callbacks, and are not modelled. `BasePlayer` and the storage behind `RadiosManager` are not part of this model either.
- `Track` and `Track.set_radio` are defined in `src/objects.py`, which is not part of this model. A returned track is only the (name, uri) pair passed to `set_radio`.

## Findings

| source | as written | input that shows it | evidently intended | confidence | as-written member | corrected member |
|---|---|---|---|---|---|---|
| src/database_tracks.py:406-411 | `AVG` over an empty `tracks` table is NULL, so the fetched row is `(None,)`, and `v[0] > 5` compares `None > 5`, which raises TypeError in Python 3 | an empty `tracks` table (`TrackQueries.AvgPopularityEmptyTable`) | return the floor 5, as the `return 5` line and the `if v and …` guard intend | high (not executed) | `TrackQueries.AvgPopularityAsWritten` | `TrackQueries.AvgPopularity` |
