/**
 * The track catalogue (`TracksDatabase`): the `tracks` table and its two link
 * tables held in memory, with every statement the catalogue issues modelled
 * as an update of that state or a read of it. The `albums`, `artists` and
 * `genres` tables belong to other repositories; here they are read-only.
 */
module DatabaseTracks {
  import opened Wrappers
  import opened TrackTable
  import opened TrackQueries

  /**
   * What the catalogue calls but does not own: the id `Type.COMPILATIONS`,
   * the localised `_("Unknown")`, `translate_artist_name` and the artist
   * repository's `get_name`.
   */
  datatype Foreign = Foreign(
    compilations: int,
    unknown: string,
    translate: string -> string,
    artistName: int -> string)

  /** The row `get_infos` fetches: name, filepath, duration, album id. */
  datatype Infos = Infos(name: string, filepath: string, duration: int, albumId: int)

  class TracksDatabase {
    var tracks: seq<TrackRow>
    var trackArtists: seq<Link>
    var trackGenres: seq<Link>
    const albums: map<int, Album>
    const artists: map<int, string>
    const genres: map<int, string>
    /** Whether statements have run since the last commit. */
    ghost var pendingWrites: bool

    ghost predicate Valid()
      reads this
    {
      ValidRows(tracks) && LinksUnique(trackArtists) && LinksUnique(trackGenres)
    }

    constructor (albums: map<int, Album>, artists: map<int, string>, genres: map<int, string>)
      ensures Valid()
      ensures tracks == [] && trackArtists == [] && trackGenres == []
      ensures this.albums == albums && this.artists == artists && this.genres == genres
      ensures !pendingWrites
    {
      tracks, trackArtists, trackGenres := [], [], [];
      this.albums, this.artists, this.genres := albums, artists, genres;
      pendingWrites := false;
    }

    // -------------------------------------------------------------------------
    // Single-row reads by rowid: each answers a fixed default for an unknown id.
    // -------------------------------------------------------------------------

    /** Ids of the rows whose name equals `name` up to ASCII case. */
    function GetIdsForName(name: string): (r: seq<int>)
      reads this
      ensures forall x :: x in r <==>
        exists k :: 0 <= k < |tracks| && tracks[k].id == x && NoCaseEqual(tracks[k].name, name)
    {
      IdsForName(tracks, name)
    }

    /** The id of the row stored under exactly this path, or None. */
    function GetIdByPath(filepath: string): (r: Option<int>)
      reads this
      ensures r.None? <==> forall k :: 0 <= k < |tracks| ==> tracks[k].filepath != filepath
      ensures PathsUnique(tracks) ==>
        forall k :: 0 <= k < |tracks| && tracks[k].filepath == filepath ==> r == Some(tracks[k].id)
    {
      IdByPath(tracks, filepath)
    }

    function GetName(trackId: int): (r: string)
      reads this
      requires Valid()
      ensures !HasId(tracks, trackId) ==> r == ""
      ensures forall k :: 0 <= k < |tracks| && tracks[k].id == trackId ==> r == tracks[k].name
    {
      match Lookup(tracks, trackId)
      case Some(row) => row.name
      case None => ""
    }

    /** The year in decimal, or "" when the row is missing or its year is NULL or 0. */
    function GetYear(trackId: int): (r: string)
      reads this
      requires Valid()
      ensures r == "" <==>
        !HasId(tracks, trackId) || Lookup(tracks, trackId).value.year in {None, Some(0)}
      ensures forall k :: 0 <= k < |tracks| && tracks[k].id == trackId && tracks[k].year.Some? ==>
        r == (if tracks[k].year.value == 0 then "" else IntString(tracks[k].year.value))
    {
      match Lookup(tracks, trackId)
      case Some(row) =>
        (match row.year
         case Some(y) => if y != 0 then IntString(y) else ""
         case None => "")
      case None => ""
    }

    function GetPath(trackId: int): (r: string)
      reads this
      requires Valid()
      ensures !HasId(tracks, trackId) ==> r == ""
      ensures forall k :: 0 <= k < |tracks| && tracks[k].id == trackId ==> r == tracks[k].filepath
    {
      match Lookup(tracks, trackId)
      case Some(row) => row.filepath
      case None => ""
    }

    function GetAlbumId(trackId: int): (r: int)
      reads this
      requires Valid()
      ensures !HasId(tracks, trackId) ==> r == -1
      ensures forall k :: 0 <= k < |tracks| && tracks[k].id == trackId ==> r == tracks[k].albumId
    {
      match Lookup(tracks, trackId)
      case Some(row) => row.albumId
      case None => -1
    }

    /** Join with `albums`; no track, or no album row, gives the "Unknown" label. */
    function GetAlbumName(trackId: int, foreign: Foreign): (r: string)
      reads this
      requires Valid()
      ensures forall k :: 0 <= k < |tracks| && tracks[k].id == trackId && tracks[k].albumId in albums ==>
        r == albums[tracks[k].albumId].name
      ensures (forall k :: 0 <= k < |tracks| && tracks[k].id == trackId ==> tracks[k].albumId !in albums) ==>
        r == foreign.unknown
    {
      match Lookup(tracks, trackId)
      case Some(row) => if row.albumId in albums then albums[row.albumId].name else foreign.unknown
      case None => foreign.unknown
    }

    function GetArtistIds(trackId: int): (r: seq<int>)
      reads this
      ensures forall x :: x in r <==> Link(trackId, x) in trackArtists
    {
      LinkedIds(trackArtists, trackId)
    }

    /** Join with `artists`: the translated names, comma separated. */
    function GetArtistNames(trackId: int, foreign: Foreign): (r: string)
      reads this
      ensures var names := NamesOf(GetArtistIds(trackId), artists, foreign.translate);
        (names == [] ==> r == "") && (names != [] && NoComma(names) ==> SplitComma(r) == names)
    {
      JoinSplitRoundTrip(NamesOf(LinkedIds(trackArtists, trackId), artists, foreign.translate));
      JoinComma(NamesOf(LinkedIds(trackArtists, trackId), artists, foreign.translate))
    }

    function GetGenreIds(trackId: int): (r: seq<int>)
      reads this
      ensures forall x :: x in r <==> Link(trackId, x) in trackGenres
    {
      LinkedIds(trackGenres, trackId)
    }

    /** Join with `genres`: the names, comma separated. */
    function GetGenreNames(trackId: int): (r: string)
      reads this
      ensures var names := NamesOf(GetGenreIds(trackId), genres, s => s);
        (names == [] ==> r == "") && (names != [] && NoComma(names) ==> SplitComma(r) == names)
    {
      JoinSplitRoundTrip(NamesOf(LinkedIds(trackGenres, trackId), genres, s => s));
      JoinComma(NamesOf(LinkedIds(trackGenres, trackId), genres, s => s))
    }

    /** `{filepath: mtime}` built row by row; a later row for the same path overwrites an earlier one. */
    method GetMtimes() returns (mtimes: map<string, int>)
      ensures forall p :: p in mtimes <==> GetIdByPath(p).Some?
      ensures forall k :: 0 <= k < |tracks| && LastWithPath(tracks, k) ==>
        tracks[k].filepath in mtimes && mtimes[tracks[k].filepath] == tracks[k].mtime
    {
      mtimes := map[];
      var i := 0;
      while i < |tracks|
        invariant 0 <= i <= |tracks|
        invariant forall p :: p in mtimes <==> exists k :: 0 <= k < i && tracks[k].filepath == p
        invariant forall k :: 0 <= k < i && LastBefore(tracks, k, i) ==> mtimes[tracks[k].filepath] == tracks[k].mtime
      {
        mtimes := mtimes[tracks[i].filepath := tracks[i].mtime];
        i := i + 1;
      }
    }

    function GetInfos(trackId: int): (r: Option<Infos>)
      reads this
      requires Valid()
      ensures r.None? <==> !HasId(tracks, trackId)
      ensures forall k :: 0 <= k < |tracks| && tracks[k].id == trackId ==>
        r == Some(Infos(tracks[k].name, tracks[k].filepath, tracks[k].duration, tracks[k].albumId))
    {
      match Lookup(tracks, trackId)
      case Some(row) => Some(Infos(row.name, row.filepath, row.duration, row.albumId))
      case None => None
    }

    /** Join with `albums`; no track, or no album row, gives the compilations id. */
    function GetAlbumArtistId(trackId: int, foreign: Foreign): (r: int)
      reads this
      requires Valid()
      ensures forall k :: 0 <= k < |tracks| && tracks[k].id == trackId && tracks[k].albumId in albums ==>
        r == albums[tracks[k].albumId].artistId
      ensures (forall k :: 0 <= k < |tracks| && tracks[k].id == trackId ==> tracks[k].albumId !in albums) ==>
        r == foreign.compilations
    {
      match Lookup(tracks, trackId)
      case Some(row) => if row.albumId in albums then albums[row.albumId].artistId else foreign.compilations
      case None => foreign.compilations
    }

    /** One path per row; a path is listed exactly when it resolves to an id. */
    function GetPaths(): (r: seq<string>)
      reads this
      ensures |r| == |tracks|
      ensures forall p :: p in r <==> IdByPath(tracks, p).Some?
    {
      Paths(tracks)
    }

    function GetNumber(trackId: int): (r: int)
      reads this
      requires Valid()
      ensures !HasId(tracks, trackId) ==> r == 0
      ensures forall k :: 0 <= k < |tracks| && tracks[k].id == trackId ==> r == tracks[k].tracknumber
    {
      match Lookup(tracks, trackId)
      case Some(row) => row.tracknumber
      case None => 0
    }

    function GetDuration(trackId: int): (r: int)
      reads this
      requires Valid()
      ensures !HasId(tracks, trackId) ==> r == 0
      ensures forall k :: 0 <= k < |tracks| && tracks[k].id == trackId ==> r == tracks[k].duration
    {
      match Lookup(tracks, trackId)
      case Some(row) => row.duration
      case None => 0
    }

    /** `SELECT COUNT(*)` is 0 exactly when no rowid resolves. */
    function IsEmpty(): (r: bool)
      reads this
      ensures r <==> forall id :: !HasId(tracks, id)
    {
      assert |tracks| > 0 ==> HasId(tracks, tracks[0].id);
      |tracks| == 0
    }

    /** The (id, name) of each track linked to the artist on an album whose artist is someone else. */
    function GetAsNonAlbumArtist(artistId: int): (r: seq<(int, string)>)
      reads this
      ensures forall p :: p in r <==>
        exists row :: row in tracks && p == (row.id, row.name) && Link(row.id, artistId) in trackArtists
          && row.albumId in albums && albums[row.albumId].artistId != artistId
    {
      AsNonAlbumArtist(tracks, trackArtists, albums, artistId)
    }

    function GetPopularity(trackId: int): (r: int)
      reads this
      requires Valid()
      ensures !HasId(tracks, trackId) ==> r == 0
      ensures forall k :: 0 <= k < |tracks| && tracks[k].id == trackId ==> r == tracks[k].popularity
    {
      match Lookup(tracks, trackId)
      case Some(row) => row.popularity
      case None => 0
    }

    // -------------------------------------------------------------------------
    // Multi-row reads.
    // -------------------------------------------------------------------------

    /**
     * The 100 most popular tracks, most popular first: every listed id has
     * popularity != 0, a list shorter than 100 names them all, and no track
     * left out is more popular than one listed.
     */
    function GetPopulars(): (r: seq<int>)
      reads this
      requires Valid()
      ensures |r| <= TopLimit
      ensures forall i :: 0 <= i < |r| ==> Lookup(tracks, r[i]).Some? && Key(Lookup(tracks, r[i]).value, ByPopularity) != 0
      ensures forall i, j :: 0 <= i < j < |r| ==>
        Lookup(tracks, r[i]).Some? && Lookup(tracks, r[j]).Some? &&
        Key(Lookup(tracks, r[i]).value, ByPopularity) >= Key(Lookup(tracks, r[j]).value, ByPopularity)
      ensures ListsEveryNonZero(tracks, ByPopularity, r)
      ensures NoneLeftOutBeats(tracks, ByPopularity, r)
      ensures NoRepeats(r)
    {
      TopIds(tracks, ByPopularity)
    }

    /**
     * The average popularity of the 100 most popular tracks, never below 5.
     * This is the corrected query: on an empty table it answers 5 where the
     * code as written raises (`AvgPopularityAsWritten`); on every other table
     * the two agree.
     */
    function GetAvgPopularity(): (r: real)
      reads this
      ensures r >= PopularityFloor
      ensures tracks == [] ==> r == PopularityFloor
      ensures tracks != [] ==> AvgPopularityAsWritten(tracks) == Returns(r)
    {
      AvgPopularity(tracks)
    }

    /**
     * The 100 most recently listened tracks, most recent first: every listed
     * id has ltime != 0, a list shorter than 100 names them all, and no track
     * left out was listened to later than one listed.
     */
    function GetRecentlyListenedTo(): (r: seq<int>)
      reads this
      requires Valid()
      ensures |r| <= TopLimit
      ensures forall i :: 0 <= i < |r| ==> Lookup(tracks, r[i]).Some? && Key(Lookup(tracks, r[i]).value, ByLtime) != 0
      ensures forall i, j :: 0 <= i < j < |r| ==>
        Lookup(tracks, r[i]).Some? && Lookup(tracks, r[j]).Some? &&
        Key(Lookup(tracks, r[i]).value, ByLtime) >= Key(Lookup(tracks, r[j]).value, ByLtime)
      ensures ListsEveryNonZero(tracks, ByLtime, r)
      ensures NoneLeftOutBeats(tracks, ByLtime, r)
      ensures NoRepeats(r)
    {
      TopIds(tracks, ByLtime)
    }

    /** At most 25 (id, name) rows whose name is LIKE `%searched%`. */
    function Search(searched: string, like: (string, string) -> bool): (r: seq<(int, string)>)
      reads this
      ensures |r| <= SearchLimit
      ensures var all := Matching(tracks, "%" + searched + "%", like);
        |r| == if |all| < SearchLimit then |all| else SearchLimit
      ensures forall i :: 0 <= i < |r| ==>
        MatchedPair(tracks, "%" + searched + "%", like, r[i])
      ensures Valid() ==> forall i, j :: 0 <= i < j < |r| ==> r[i].0 < r[j].0
    {
      TrackQueries.Search(tracks, searched, like)
    }

    /** The test `search_track` applies to each candidate. */
    predicate ArtistMatches(trackId: int, artist: string, foreign: Foreign)
      reads this
      requires Valid()
    {
      foreign.artistName(GetAlbumArtistId(trackId, foreign)) == artist
      || GetArtistNames(trackId, foreign) == artist
    }

    /** The first candidate named `title`, in scan order, whose album artist or artist list is `artist`. */
    method SearchTrack(artist: string, title: string, foreign: Foreign) returns (r: Option<int>)
      requires Valid()
      ensures r.None? ==> forall id :: id in GetIdsForName(title) ==> !ArtistMatches(id, artist, foreign)
      ensures r.Some? ==>
        exists k :: && 0 <= k < |GetIdsForName(title)|
                    && GetIdsForName(title)[k] == r.value
                    && ArtistMatches(r.value, artist, foreign)
                    && (forall j :: 0 <= j < k ==> !ArtistMatches(GetIdsForName(title)[j], artist, foreign))
    {
      var trackIds := GetIdsForName(title);
      var i := 0;
      while i < |trackIds|
        invariant 0 <= i <= |trackIds|
        invariant forall j :: 0 <= j < i ==> !ArtistMatches(trackIds[j], artist, foreign)
      {
        var trackId := trackIds[i];
        var albumArtist := GetAlbumArtistId(trackId, foreign);
        var albumArtistName := foreign.artistName(albumArtist);
        if albumArtistName == artist {
          return Some(trackId);
        }
        var artistName := GetArtistNames(trackId, foreign);
        if artistName == artist {
          return Some(trackId);
        }
        i := i + 1;
      }
      return None;
    }

    // -------------------------------------------------------------------------
    // Statements that change the tables.
    // -------------------------------------------------------------------------

    /**
     * INSERT one row. The engine rejects a duplicate filepath, and may reject
     * a path it cannot encode (`storeFails`); either exception is swallowed and
     * nothing is inserted. No commit.
     */
    method Add(name: string, filepath: string, duration: int, tracknumber: int, discnumber: int,
               albumId: int, year: Option<int>, popularity: int, ltime: int, mtime: int,
               storeFails: bool)
      requires Valid()
      modifies this`tracks, this`pendingWrites
      ensures Valid()
      ensures storeFails || old(GetIdByPath(filepath)).Some? ==>
        tracks == old(tracks) && pendingWrites == old(pendingWrites)
      ensures !storeFails && old(GetIdByPath(filepath)).None? ==>
        && tracks == old(tracks) + [TrackRow(old(NextRowId(tracks)), name, filepath, duration, tracknumber,
                                             discnumber, albumId, year, popularity, ltime, mtime)]
        && pendingWrites
        && GetIdByPath(filepath) == Some(old(NextRowId(tracks)))
        && GetName(old(NextRowId(tracks))) == name
        && GetPath(old(NextRowId(tracks))) == filepath
        && GetDuration(old(NextRowId(tracks))) == duration
      ensures forall other :: other != old(NextRowId(tracks)) ==> Lookup(tracks, other) == old(Lookup(tracks, other))
    {
      var row := TrackRow(NextRowId(tracks), name, filepath, duration, tracknumber,
                          discnumber, albumId, year, popularity, ltime, mtime);
      if !storeFails && IdByPath(tracks, filepath).None? {
        AppendRowFound(tracks, row);
        tracks := tracks + [row];
        pendingWrites := true;
      }
      // otherwise the INSERT raised and the exception was only logged
    }

    /** Link an artist to a track unless already linked. No commit. */
    method AddArtist(trackId: int, artistId: int)
      requires Valid()
      modifies this`trackArtists, this`pendingWrites
      ensures Valid()
      ensures trackArtists == AddLink(old(trackArtists), trackId, artistId)
      ensures artistId in GetArtistIds(trackId)
      ensures pendingWrites == (old(pendingWrites) || artistId !in old(GetArtistIds(trackId)))
    {
      AddLinkSpec(trackArtists, trackId, artistId);
      var linked := GetArtistIds(trackId);
      if artistId !in linked {
        trackArtists := trackArtists + [Link(trackId, artistId)];
        pendingWrites := true;
      }
    }

    /** Link a genre to a track unless already linked. No commit. */
    method AddGenre(trackId: int, genreId: int)
      requires Valid()
      modifies this`trackGenres, this`pendingWrites
      ensures Valid()
      ensures trackGenres == AddLink(old(trackGenres), trackId, genreId)
      ensures genreId in GetGenreIds(trackId)
      ensures pendingWrites == (old(pendingWrites) || genreId !in old(GetGenreIds(trackId)))
    {
      AddLinkSpec(trackGenres, trackId, genreId);
      var linked := GetGenreIds(trackId);
      if genreId !in linked {
        trackGenres := trackGenres + [Link(trackId, genreId)];
        pendingWrites := true;
      }
    }

    /** Read the popularity (0 for a missing row), write it back plus one, commit. */
    method SetMorePopular(trackId: int)
      requires Valid()
      modifies this`tracks, this`pendingWrites
      ensures Valid()
      ensures tracks == UpdateColumn(old(tracks), trackId, Popularity, old(GetPopularity(trackId)) + 1)
      ensures HasId(tracks, trackId) == old(HasId(tracks, trackId))
      ensures HasId(tracks, trackId) ==>
        Lookup(tracks, trackId) == Some(old(Lookup(tracks, trackId)).value.(popularity := old(GetPopularity(trackId)) + 1))
      ensures forall other :: other != trackId ==> Lookup(tracks, other) == old(Lookup(tracks, other))
      ensures !pendingWrites
    {
      var pop := Lookup(tracks, trackId);
      var current := if pop.Some? then pop.value.popularity else 0;
      current := current + 1;
      var before := tracks;
      assert current == GetPopularity(trackId) + 1;
      UpdateColumnFrame(before, trackId, Popularity, current);
      tracks := UpdateColumn(before, trackId, Popularity, current);
      pendingWrites := false;
    }

    /** Overwrite ltime, commit. */
    method SetListenedAt(trackId: int, time: int)
      requires Valid()
      modifies this`tracks, this`pendingWrites
      ensures Valid()
      ensures tracks == UpdateColumn(old(tracks), trackId, Ltime, time)
      ensures HasId(tracks, trackId) == old(HasId(tracks, trackId))
      ensures HasId(tracks, trackId) ==>
        Lookup(tracks, trackId) == Some(old(Lookup(tracks, trackId)).value.(ltime := time))
      ensures forall other :: other != trackId ==> Lookup(tracks, other) == old(Lookup(tracks, other))
      ensures !pendingWrites
    {
      UpdateColumnFrame(tracks, trackId, Ltime, time);
      tracks := UpdateColumn(tracks, trackId, Ltime, time);
      pendingWrites := false;
    }

    /** Overwrite ltime. No commit. */
    method SetLtime(trackId: int, ltime: int)
      requires Valid()
      modifies this`tracks, this`pendingWrites
      ensures Valid()
      ensures tracks == UpdateColumn(old(tracks), trackId, Ltime, ltime)
      ensures HasId(tracks, trackId) == old(HasId(tracks, trackId))
      ensures HasId(tracks, trackId) ==>
        Lookup(tracks, trackId) == Some(old(Lookup(tracks, trackId)).value.(ltime := ltime))
      ensures forall other :: other != trackId ==> Lookup(tracks, other) == old(Lookup(tracks, other))
      ensures pendingWrites
    {
      UpdateColumnFrame(tracks, trackId, Ltime, ltime);
      tracks := UpdateColumn(tracks, trackId, Ltime, ltime);
      pendingWrites := true;
    }

    /**
     * Overwrite popularity, committing when asked. A locked database makes the
     * UPDATE raise (`locked`); the exception is swallowed and nothing changes.
     */
    method SetPopularity(trackId: int, popularity: int, commit: bool, locked: bool)
      requires Valid()
      modifies this`tracks, this`pendingWrites
      ensures Valid()
      ensures locked ==> tracks == old(tracks) && pendingWrites == old(pendingWrites)
      ensures !locked ==> tracks == UpdateColumn(old(tracks), trackId, Popularity, popularity)
      ensures !locked ==> pendingWrites == !commit
      ensures HasId(tracks, trackId) == old(HasId(tracks, trackId))
      ensures !locked && HasId(tracks, trackId) ==>
        Lookup(tracks, trackId) == Some(old(Lookup(tracks, trackId)).value.(popularity := popularity))
      ensures forall other :: other != trackId ==> Lookup(tracks, other) == old(Lookup(tracks, other))
    {
      if !locked {
        UpdateColumnFrame(tracks, trackId, Popularity, popularity);
        tracks := UpdateColumn(tracks, trackId, Popularity, popularity);
        pendingWrites := true;
        if commit {
          pendingWrites := false;
        }
      }
      // otherwise the UPDATE raised and the exception was ignored
    }

    /** Delete every artist and genre link of the track; the track row stays. No commit. */
    method Clean(trackId: int)
      requires Valid()
      modifies this`trackArtists, this`trackGenres, this`pendingWrites
      ensures Valid()
      ensures trackArtists == WithoutTrack(old(trackArtists), trackId)
      ensures trackGenres == WithoutTrack(old(trackGenres), trackId)
      ensures GetArtistIds(trackId) == [] && GetGenreIds(trackId) == []
      ensures forall u :: u != trackId ==> GetArtistIds(u) == old(GetArtistIds(u)) && GetGenreIds(u) == old(GetGenreIds(u))
      ensures tracks == old(tracks)
      ensures pendingWrites
    {
      WithoutTrackFrame(trackArtists, trackId);
      WithoutTrackFrame(trackGenres, trackId);
      trackArtists := WithoutTrack(trackArtists, trackId);
      trackGenres := WithoutTrack(trackGenres, trackId);
      pendingWrites := true;
    }

    /**
     * Resolve the path to an id, then delete its genre links, its artist links
     * and its row, in that order. An unknown path gives a NULL id, which no
     * row matches, so nothing is deleted.
     */
    method Remove(path: string)
      requires Valid()
      modifies this`tracks, this`trackArtists, this`trackGenres, this`pendingWrites
      ensures Valid()
      ensures old(GetIdByPath(path)).None? ==>
        tracks == old(tracks) && trackArtists == old(trackArtists) && trackGenres == old(trackGenres)
      ensures old(GetIdByPath(path)).Some? ==>
        var id := old(GetIdByPath(path)).value;
        && trackGenres == WithoutTrack(old(trackGenres), id)
        && trackArtists == WithoutTrack(old(trackArtists), id)
        && tracks == RemoveRow(old(tracks), id)
        && !HasId(tracks, id) && GetArtistIds(id) == [] && GetGenreIds(id) == []
        && (forall other :: other != id ==> Lookup(tracks, other) == old(Lookup(tracks, other)))
        && (forall u :: u != id ==> GetArtistIds(u) == old(GetArtistIds(u)) && GetGenreIds(u) == old(GetGenreIds(u)))
      ensures GetIdByPath(path) == None
      ensures pendingWrites
    {
      var trackId := GetIdByPath(path);
      if trackId.Some? {
        var id := trackId.value;
        RemoveForgetsPath(tracks, path);
        WithoutTrackFrame(trackGenres, id);
        WithoutTrackFrame(trackArtists, id);
        RemoveRowFrame(tracks, id);
        trackGenres := WithoutTrack(trackGenres, id);
        trackArtists := WithoutTrack(trackArtists, id);
        tracks := RemoveRow(tracks, id);
      }
      pendingWrites := true;
    }
  }

  /** No row after `k` has the same filepath, so the dictionary keeps row `k`'s mtime. */
  ghost predicate LastWithPath(rows: seq<TrackRow>, k: int)
    requires 0 <= k < |rows|
  {
    LastBefore(rows, k, |rows|)
  }

  ghost predicate LastBefore(rows: seq<TrackRow>, k: int, end: int)
    requires 0 <= k < |rows| && end <= |rows|
  {
    forall j :: k < j < end ==> rows[j].filepath != rows[k].filepath
  }
}
