/**
 * The multi-row read queries of the track catalogue: the ordered top-N lists,
 * the average popularity, the LIKE search and the guest-artist join.
 */
module TrackQueries {
  import opened Wrappers
  import opened TrackTable

  /** Number of ids the top lists return (`LIMIT 100`). */
  const TopLimit: nat := 100
  /** Number of rows `search` returns (`LIMIT 25`). */
  const SearchLimit: nat := 25
  /** The lowest average popularity reported. */
  const PopularityFloor: real := 5.0

  datatype SortKey = ByPopularity | ByLtime

  function Key(row: TrackRow, k: SortKey): int
  {
    match k
    case ByPopularity => row.popularity
    case ByLtime => row.ltime
  }

  ghost predicate SortedDesc(s: seq<TrackRow>, k: SortKey)
  {
    forall i, j :: 0 <= i < j < |s| ==> Key(s[i], k) >= Key(s[j], k)
  }

  function Insert(x: TrackRow, s: seq<TrackRow>, k: SortKey): (r: seq<TrackRow>)
    ensures multiset(r) == multiset(s) + multiset{x}
    ensures forall y :: y in r ==> y == x || y in s
  {
    if s == [] || Key(x, k) >= Key(s[0], k) then [x] + s
    else
      assert s == [s[0]] + s[1..];
      [s[0]] + Insert(x, s[1..], k)
  }

  lemma {:induction false} InsertSorted(x: TrackRow, s: seq<TrackRow>, k: SortKey)
    requires SortedDesc(s, k)
    ensures SortedDesc(Insert(x, s, k), k)
  {
    if s == [] || Key(x, k) >= Key(s[0], k) {
      HeadThenSorted(x, s, k);
    } else {
      SortedTail(s, k);
      InsertSorted(x, s[1..], k);
      var rest := Insert(x, s[1..], k);
      forall y | y in rest ensures Key(y, k) <= Key(s[0], k) {
        if y != x {
          var j :| 0 <= j < |s[1..]| && s[1..][j] == y;
          assert s[j + 1] == y;
        }
      }
      HeadThenSorted(s[0], rest, k);
    }
  }

  lemma SortedTail(s: seq<TrackRow>, k: SortKey)
    requires SortedDesc(s, k)
    requires s != []
    ensures SortedDesc(s[1..], k)
  {
    forall i, j | 0 <= i < j < |s[1..]| ensures Key(s[1..][i], k) >= Key(s[1..][j], k) {
      assert s[1..][i] == s[i + 1] && s[1..][j] == s[j + 1];
    }
  }

  /** A head no smaller than any row after it keeps a sorted list sorted. */
  lemma HeadThenSorted(h: TrackRow, s: seq<TrackRow>, k: SortKey)
    requires SortedDesc(s, k)
    requires forall y :: y in s ==> Key(y, k) <= Key(h, k)
    ensures SortedDesc([h] + s, k)
  {
    var r := [h] + s;
    forall i, j | 0 <= i < j < |r| ensures Key(r[i], k) >= Key(r[j], k) {
      assert r[j] == s[j - 1];
      if i == 0 {
        assert r[j] in s;
      } else {
        assert r[i] == s[i - 1];
      }
    }
  }

  /** `ORDER BY <key> DESC`; rows with equal keys keep their scan order. */
  function SortDesc(s: seq<TrackRow>, k: SortKey): (r: seq<TrackRow>)
    ensures multiset(r) == multiset(s)
    ensures SortedDesc(r, k)
  {
    if s == [] then []
    else
      assert s == [s[0]] + s[1..];
      InsertSorted(s[0], SortDesc(s[1..], k), k);
      Insert(s[0], SortDesc(s[1..], k), k)
  }

  /** `WHERE <key>!=0` */
  function NonZero(rows: seq<TrackRow>, k: SortKey): (r: seq<TrackRow>)
    ensures forall y :: y in r <==> y in rows && Key(y, k) != 0
    ensures multiset(r) <= multiset(rows)
  {
    if rows == [] then []
    else
      assert rows == [rows[0]] + rows[1..];
      var rest := NonZero(rows[1..], k);
      if Key(rows[0], k) != 0 then [rows[0]] + rest else rest
  }

  lemma SortedPrefixDominates(s: seq<TrackRow>, k: SortKey, n: nat)
    requires SortedDesc(s, k)
    requires n <= |s|
    ensures forall x, y :: x in s[..n] && y in multiset(s) - multiset(s[..n]) ==> Key(y, k) <= Key(x, k)
  {
    assert s == s[..n] + s[n..];
    assert multiset(s) - multiset(s[..n]) == multiset(s[n..]);
    PrefixBeatsSuffix(s, k, n);
  }

  lemma PrefixBeatsSuffix(s: seq<TrackRow>, k: SortKey, n: nat)
    requires SortedDesc(s, k)
    requires n <= |s|
    ensures forall x, y :: x in s[..n] && y in s[n..] ==> Key(y, k) <= Key(x, k)
  {
    forall x, y | x in s[..n] && y in s[n..] ensures Key(y, k) <= Key(x, k) {
      var i :| 0 <= i < n && s[..n][i] == x;
      var j :| 0 <= j < |s| - n && s[n..][j] == y;
      assert s[i] == x && s[n + j] == y;
    }
  }

  /** `ORDER BY <key> DESC LIMIT cap`: the cap rows with the largest keys, largest first. */
  function TopRows(s: seq<TrackRow>, k: SortKey, cap: nat): (r: seq<TrackRow>)
    ensures |r| == if |s| < cap then |s| else cap
    ensures multiset(r) <= multiset(s)
    ensures SortedDesc(r, k)
    ensures forall x, y :: x in r && y in multiset(s) - multiset(r) ==> Key(y, k) <= Key(x, k)
  {
    var sorted := SortDesc(s, k);
    var n := if |s| < cap then |s| else cap;
    assert |sorted| == |s| by {
      assert |multiset(sorted)| == |multiset(s)|;
    }
    SortedPrefixDominates(sorted, k, n);
    assert sorted == sorted[..n] + sorted[n..];
    assert multiset(sorted[..n]) <= multiset(sorted);
    sorted[..n]
  }

  function Ids(s: seq<TrackRow>): (r: seq<int>)
    ensures |r| == |s|
    ensures forall i :: 0 <= i < |s| ==> r[i] == s[i].id
  {
    seq(|s|, i requires 0 <= i < |s| => s[i].id)
  }

  /**
   * The shape both top lists share: at most 100 rows of the table, none with a
   * zero key, largest key first, and no row left out has a larger key than a
   * row kept.
   */
  lemma TopListSpec(rows: seq<TrackRow>, k: SortKey)
    ensures var r := TopRows(NonZero(rows, k), k, TopLimit);
      && |r| <= TopLimit
      && (|r| < TopLimit ==> multiset(r) == multiset(NonZero(rows, k)))
      && (forall y :: y in r ==> y in rows && Key(y, k) != 0)
      && SortedDesc(r, k)
      && (forall x, y :: x in r && y in multiset(NonZero(rows, k)) - multiset(r) ==> Key(y, k) <= Key(x, k))
  {
    var nz := NonZero(rows, k);
    var r := TopRows(nz, k, TopLimit);
    forall y | y in r ensures y in rows && Key(y, k) != 0 {
      assert y in multiset(r);
      assert y in multiset(nz);
    }
    if |r| < TopLimit {
      assert |r| == |nz|;
      assert |multiset(r)| == |multiset(nz)|;
      MultisetSubsetSameSize(multiset(r), multiset(nz));
    }
  }

  /** A top list shorter than 100 names every stored row with a non-zero key. */
  ghost predicate ListsEveryNonZero(rows: seq<TrackRow>, k: SortKey, r: seq<int>)
  {
    |r| < TopLimit ==>
      forall id :: Lookup(rows, id).Some? && Key(Lookup(rows, id).value, k) != 0 ==> id in r
  }

  /** No stored row with a non-zero key left out of a top list has a larger key than a row it names. */
  ghost predicate NoneLeftOutBeats(rows: seq<TrackRow>, k: SortKey, r: seq<int>)
  {
    forall i, id :: 0 <= i < |r| && Lookup(rows, id).Some? && Key(Lookup(rows, id).value, k) != 0 && id !in r ==>
      Lookup(rows, r[i]).Some? && Key(Lookup(rows, id).value, k) <= Key(Lookup(rows, r[i]).value, k)
  }

  /** The ids a top list returns: each looks up to a row with a non-zero key, largest key first. */
  lemma TopIdsSpec(rows: seq<TrackRow>, k: SortKey, r: seq<int>)
    requires IdsAscending(rows)
    requires r == Ids(TopRows(NonZero(rows, k), k, TopLimit))
    ensures |r| <= TopLimit
    ensures forall i :: 0 <= i < |r| ==> Lookup(rows, r[i]).Some? && Key(Lookup(rows, r[i]).value, k) != 0
    ensures forall i, j :: 0 <= i < j < |r| ==>
      Lookup(rows, r[i]).Some? && Lookup(rows, r[j]).Some? &&
      Key(Lookup(rows, r[i]).value, k) >= Key(Lookup(rows, r[j]).value, k)
  {
    var top := TopRows(NonZero(rows, k), k, TopLimit);
    forall y | y in top ensures y in rows && Key(y, k) != 0 {
      assert y in multiset(top);
      assert y in multiset(NonZero(rows, k));
    }
    LookupMembers(rows, top);
    forall i | 0 <= i < |r| ensures Lookup(rows, r[i]) == Some(top[i]) && Key(top[i], k) != 0 {
      assert top[i] in top;
    }
    forall i, j | 0 <= i < j < |r|
      ensures Key(Lookup(rows, r[i]).value, k) >= Key(Lookup(rows, r[j]).value, k)
    {
      assert Lookup(rows, r[i]) == Some(top[i]) && Lookup(rows, r[j]) == Some(top[j]);
    }
  }

  /** The query's top list is complete whenever it is shorter than the limit. */
  lemma TopIdsComplete(rows: seq<TrackRow>, k: SortKey, r: seq<int>)
    requires IdsAscending(rows)
    requires r == Ids(TopRows(NonZero(rows, k), k, TopLimit))
    ensures ListsEveryNonZero(rows, k, r)
  {
    if |r| < TopLimit {
      forall id | Lookup(rows, id).Some? && Key(Lookup(rows, id).value, k) != 0 ensures id in r {
        TopIdListed(rows, k, id);
      }
    }
  }

  lemma TopIdListed(rows: seq<TrackRow>, k: SortKey, id: int)
    requires Lookup(rows, id).Some? && Key(Lookup(rows, id).value, k) != 0
    requires |TopRows(NonZero(rows, k), k, TopLimit)| < TopLimit
    ensures id in Ids(TopRows(NonZero(rows, k), k, TopLimit))
  {
    var nz := NonZero(rows, k);
    var top := TopRows(nz, k, TopLimit);
    var y := Lookup(rows, id).value;
    assert |top| == |nz|;
    assert |multiset(top)| == |multiset(nz)|;
    MultisetSubsetSameSize(multiset(top), multiset(nz));
    assert y in nz;
    assert y in multiset(top);
    var j :| 0 <= j < |top| && top[j] == y;
    assert Ids(top)[j] == id;
  }

  /** Every row the query's top list leaves out is dominated by every row it names. */
  lemma TopIdsDominate(rows: seq<TrackRow>, k: SortKey, r: seq<int>)
    requires IdsAscending(rows)
    requires r == Ids(TopRows(NonZero(rows, k), k, TopLimit))
    ensures NoneLeftOutBeats(rows, k, r)
  {
    forall i, id | 0 <= i < |r| && Lookup(rows, id).Some? && Key(Lookup(rows, id).value, k) != 0 && id !in r
      ensures Lookup(rows, r[i]).Some? && Key(Lookup(rows, id).value, k) <= Key(Lookup(rows, r[i]).value, k)
    {
      TopIdBeats(rows, k, i, id);
    }
  }

  lemma TopIdBeats(rows: seq<TrackRow>, k: SortKey, i: int, id: int)
    requires IdsAscending(rows)
    requires 0 <= i < |TopRows(NonZero(rows, k), k, TopLimit)|
    requires Lookup(rows, id).Some? && Key(Lookup(rows, id).value, k) != 0
    requires id !in Ids(TopRows(NonZero(rows, k), k, TopLimit))
    ensures var r := Ids(TopRows(NonZero(rows, k), k, TopLimit));
      Lookup(rows, r[i]) == Some(TopRows(NonZero(rows, k), k, TopLimit)[i])
      && Key(Lookup(rows, id).value, k) <= Key(Lookup(rows, r[i]).value, k)
  {
    var nz := NonZero(rows, k);
    var top := TopRows(nz, k, TopLimit);
    var r := Ids(top);
    var y := Lookup(rows, id).value;
    assert y in nz;
    forall j | 0 <= j < |top| ensures top[j] != y {
      assert r[j] in r;
    }
    assert multiset(top)[y] == 0;
    assert y in multiset(nz) - multiset(top);
    var x := top[i];
    assert x in top;
    assert x in multiset(nz);
    var m :| 0 <= m < |rows| && rows[m] == x;
  }

  /** No id occurs twice in `r`. */
  ghost predicate NoRepeats(r: seq<int>)
  {
    forall i, j :: 0 <= i < j < |r| ==> r[i] != r[j]
  }

  /** A top list names each rowid at most once. */
  lemma TopIdsDistinct(rows: seq<TrackRow>, k: SortKey, r: seq<int>)
    requires IdsAscending(rows)
    requires r == Ids(TopRows(NonZero(rows, k), k, TopLimit))
    ensures NoRepeats(r)
  {
    forall i, j | 0 <= i < j < |r| ensures r[i] != r[j] {
      TopIdsPairDistinct(rows, k, i, j);
    }
  }

  lemma TopIdsPairDistinct(rows: seq<TrackRow>, k: SortKey, i: int, j: int)
    requires IdsAscending(rows)
    requires 0 <= i < j < |TopRows(NonZero(rows, k), k, TopLimit)|
    ensures Ids(TopRows(NonZero(rows, k), k, TopLimit))[i] != Ids(TopRows(NonZero(rows, k), k, TopLimit))[j]
  {
    var top := TopRows(NonZero(rows, k), k, TopLimit);
    assert multiset(top) <= multiset(rows);
    SubRowsIdsDistinct(rows, top, i, j);
  }

  /**
   * `SELECT rowid FROM tracks WHERE <key>!=0 ORDER BY <key> DESC LIMIT 100`:
   * at most 100 stored ids with a non-zero key, largest key first; a list
   * shorter than 100 names every such id, no id left out has a larger key
   * than one listed, and no id is listed twice.
   */
  function TopIds(rows: seq<TrackRow>, k: SortKey): (r: seq<int>)
    requires IdsAscending(rows)
    ensures |r| <= TopLimit
    ensures forall i :: 0 <= i < |r| ==> Lookup(rows, r[i]).Some? && Key(Lookup(rows, r[i]).value, k) != 0
    ensures forall i, j :: 0 <= i < j < |r| ==>
      Lookup(rows, r[i]).Some? && Lookup(rows, r[j]).Some? &&
      Key(Lookup(rows, r[i]).value, k) >= Key(Lookup(rows, r[j]).value, k)
    ensures ListsEveryNonZero(rows, k, r)
    ensures NoneLeftOutBeats(rows, k, r)
    ensures NoRepeats(r)
  {
    var r := Ids(TopRows(NonZero(rows, k), k, TopLimit));
    TopIdsSpec(rows, k, r);
    TopIdsDistinct(rows, k, r);
    TopIdsComplete(rows, k, r);
    TopIdsDominate(rows, k, r);
    r
  }

  lemma MultisetSubsetSameSize<T>(a: multiset<T>, b: multiset<T>)
    requires a <= b
    requires |a| == |b|
    ensures a == b
  {
    assert |b - a| == |b| - |a|;
    assert b - a == multiset{};
    assert b == a + (b - a);
  }

  function SumPopularity(s: seq<TrackRow>): int
  {
    if s == [] then 0 else s[0].popularity + SumPopularity(s[1..])
  }

  /** `AVG(popularity)` over a non-empty set of rows, as an exact real. */
  function MeanPopularity(s: seq<TrackRow>): real
    requires |s| > 0
  {
    SumPopularity(s) as real / |s| as real
  }

  /** What a Python comparison `None > 5` does: raise instead of returning. */
  datatype Evaluated<T> = Returns(value: T) | TypeError

  /**
   * `get_avg_popularity` as written: `AVG` over no rows is NULL, fetched as
   * `(None,)`, and `None > 5` raises in Python 3.
   */
  function AvgPopularityAsWritten(rows: seq<TrackRow>): (r: Evaluated<real>)
    ensures r.TypeError? <==> rows == []
    ensures r.Returns? ==> r.value >= PopularityFloor
  {
    var top := TopRows(rows, ByPopularity, TopLimit);
    if top == [] then TypeError
    else if MeanPopularity(top) > PopularityFloor then Returns(MeanPopularity(top))
    else Returns(PopularityFloor)
  }

  /**
   * `get_avg_popularity` with the empty table answered by the floor: the mean
   * popularity of the 100 most popular rows, but never below 5.
   */
  function AvgPopularity(rows: seq<TrackRow>): (r: real)
    ensures r >= PopularityFloor
    ensures rows == [] ==> r == PopularityFloor
    ensures rows != [] && MeanPopularity(TopRows(rows, ByPopularity, TopLimit)) > PopularityFloor ==>
      r == MeanPopularity(TopRows(rows, ByPopularity, TopLimit))
    ensures rows != [] && MeanPopularity(TopRows(rows, ByPopularity, TopLimit)) <= PopularityFloor ==>
      r == PopularityFloor
  {
    var top := TopRows(rows, ByPopularity, TopLimit);
    if top != [] && MeanPopularity(top) > PopularityFloor then MeanPopularity(top) else PopularityFloor
  }

  /** The empty table makes the code as written raise where the floor was meant. */
  lemma AvgPopularityEmptyTable()
    ensures AvgPopularityAsWritten([]) == TypeError
    ensures AvgPopularity([]) == PopularityFloor
  {
  }

  /** On every non-empty table the corrected query answers what the code as written answers. */
  lemma AvgPopularityAgrees(rows: seq<TrackRow>)
    requires rows != []
    ensures AvgPopularityAsWritten(rows) == Returns(AvgPopularity(rows))
  {
  }

  lemma {:induction false} SumAtMost(s: seq<TrackRow>, m: int)
    requires forall y :: y in s ==> y.popularity <= m
    ensures SumPopularity(s) <= |s| * m
  {
    if s != [] {
      assert s[0] in s;
      forall y | y in s[1..] ensures y.popularity <= m {
        assert y in s;
      }
      SumAtMost(s[1..], m);
      assert |s| * m == |s[1..]| * m + m;
    }
  }

  lemma QuotientAtMost(sum: int, n: nat, m: int)
    requires n > 0
    requires sum <= n * m
    ensures sum as real / n as real <= m as real
  {
    var q := sum as real / n as real;
    assert q * n as real == sum as real;
    assert (n * m) as real == n as real * m as real;
    if q > m as real {
      assert q * n as real > m as real * n as real;
    }
  }

  /** The average never exceeds the most popular track's popularity, unless the floor does. */
  lemma AvgPopularityAtMostMax(rows: seq<TrackRow>, m: int)
    requires forall y :: y in rows ==> y.popularity <= m
    ensures AvgPopularity(rows) <= if PopularityFloor < m as real then m as real else PopularityFloor
  {
    var top := TopRows(rows, ByPopularity, TopLimit);
    if top != [] {
      forall y | y in top ensures y.popularity <= m {
        assert y in multiset(top);
      }
      SumAtMost(top, m);
      QuotientAtMost(SumPopularity(top), |top|, m);
    }
  }

  /** `WHERE name LIKE pattern`, in scan order; `like` stands for SQLite's LIKE operator. */
  function Matching(rows: seq<TrackRow>, pattern: string, like: (string, string) -> bool): (r: seq<TrackRow>)
    ensures forall y :: y in r <==> y in rows && like(y.name, pattern)
    ensures multiset(r) <= multiset(rows)
  {
    if rows == [] then []
    else
      var rest := Matching(rows[1..], pattern, like);
      assert rows == [rows[0]] + rows[1..];
      if like(rows[0].name, pattern) then [rows[0]] + rest else rest
  }

  /** The rows that match keep their scan order, so their rowids still ascend. */
  lemma {:induction false} MatchingAscending(rows: seq<TrackRow>, pattern: string, like: (string, string) -> bool)
    ensures IdsAscending(rows) ==> IdsAscending(Matching(rows, pattern, like))
  {
    if rows != [] && IdsAscending(rows) {
      var tail := rows[1..];
      TailAscending(rows);
      MatchingAscending(tail, pattern, like);
      var rest := Matching(tail, pattern, like);
      if like(rows[0].name, pattern) {
        assert forall y :: y in rest ==> y in tail;
        ConsAscending(rows[0], rest);
      }
    }
  }

  /** `p` is the (rowid, name) of a stored row whose name is LIKE `pattern`. */
  ghost predicate MatchedPair(rows: seq<TrackRow>, pattern: string, like: (string, string) -> bool, p: (int, string))
  {
    exists row :: row in rows && like(row.name, pattern) && p == (row.id, row.name)
  }

  /** `SELECT rowid, name FROM tracks WHERE name LIKE '%searched%' LIMIT 25` */
  function Search(rows: seq<TrackRow>, searched: string, like: (string, string) -> bool): (r: seq<(int, string)>)
    ensures |r| <= SearchLimit
    ensures var all := Matching(rows, "%" + searched + "%", like);
      |r| == if |all| < SearchLimit then |all| else SearchLimit
    ensures forall i :: 0 <= i < |r| ==> MatchedPair(rows, "%" + searched + "%", like, r[i])
    ensures IdsAscending(rows) ==> forall i, j :: 0 <= i < j < |r| ==> r[i].0 < r[j].0
  {
    var all := Matching(rows, "%" + searched + "%", like);
    var n := if |all| < SearchLimit then |all| else SearchLimit;
    var r := seq(n, i requires 0 <= i < n => (all[i].id, all[i].name));
    assert forall i :: 0 <= i < n ==> all[i] in all && r[i] == (all[i].id, all[i].name);
    MatchingAscending(rows, "%" + searched + "%", like);
    r
  }

  /**
   * `get_as_non_album_artist`: tracks linked to the artist whose album's
   * artist is someone else; a track with no album row does not join.
   */
  function AsNonAlbumArtist(rows: seq<TrackRow>, links: seq<Link>, albums: map<int, Album>, artistId: int)
    : (r: seq<(int, string)>)
    ensures forall p :: p in r <==>
      exists row :: row in rows && p == (row.id, row.name) && Link(row.id, artistId) in links
        && row.albumId in albums && albums[row.albumId].artistId != artistId
  {
    if rows == [] then []
    else
      var rest := AsNonAlbumArtist(rows[1..], links, albums, artistId);
      assert rows == [rows[0]] + rows[1..];
      var row := rows[0];
      if Link(row.id, artistId) in links && row.albumId in albums && albums[row.albumId].artistId != artistId
      then [(row.id, row.name)] + rest
      else rest
  }
}
