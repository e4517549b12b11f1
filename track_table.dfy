/**
 * The tables owned by the track catalogue, as values: the `tracks` relation
 * (rows kept in rowid order) and the two link relations `track_artists` and
 * `track_genres` (pairs kept in insertion order), with the single-statement
 * queries and updates that the catalogue issues against them.
 */
module TrackTable {
  import opened Wrappers

  /** One row of `tracks`; `id` is the SQLite rowid. `year` may be NULL. */
  datatype TrackRow = TrackRow(
    id: int,
    name: string,
    filepath: string,
    duration: int,
    tracknumber: int,
    discnumber: int,
    albumId: int,
    year: Option<int>,
    popularity: int,
    ltime: int,
    mtime: int)

  /** One row of `albums`, as far as the joins here read it. */
  datatype Album = Album(artistId: int, name: string)

  /** One row of `track_artists` (otherId = artist_id) or `track_genres` (otherId = genre_id). */
  datatype Link = Link(trackId: int, otherId: int)

  /** A table scan visits rows in rowid order, and a rowid is unique. */
  ghost predicate IdsAscending(rows: seq<TrackRow>)
  {
    forall i, j :: 0 <= i < j < |rows| ==> rows[i].id < rows[j].id
  }

  /** The schema keeps `filepath` unique. */
  ghost predicate PathsUnique(rows: seq<TrackRow>)
  {
    forall i, j :: 0 <= i < j < |rows| ==> rows[i].filepath != rows[j].filepath
  }

  ghost predicate ValidRows(rows: seq<TrackRow>)
  {
    IdsAscending(rows) && PathsUnique(rows)
  }

  /** No (track, other) pair is stored twice. */
  ghost predicate LinksUnique(links: seq<Link>)
  {
    forall i, j :: 0 <= i < j < |links| ==> links[i] != links[j]
  }

  ghost predicate HasId(rows: seq<TrackRow>, id: int)
  {
    exists k :: 0 <= k < |rows| && rows[k].id == id
  }

  /** `SELECT ... FROM tracks WHERE rowid=?` followed by `fetchone()`. */
  function Lookup(rows: seq<TrackRow>, id: int): (r: Option<TrackRow>)
    ensures r.None? <==> !HasId(rows, id)
    ensures r.Some? ==> r.value in rows && r.value.id == id
    ensures IdsAscending(rows) ==>
      forall k :: 0 <= k < |rows| && rows[k].id == id ==> r == Some(rows[k])
  {
    if rows == [] then None
    else if rows[0].id == id then Some(rows[0])
    else
      var r := Lookup(rows[1..], id);
      assert forall k :: 1 <= k < |rows| ==> rows[k] == rows[1..][k - 1];
      r
  }

  /** `SELECT rowid FROM tracks WHERE filepath=?` followed by `fetchone()`. */
  function IdByPath(rows: seq<TrackRow>, path: string): (r: Option<int>)
    ensures r.None? <==> forall k :: 0 <= k < |rows| ==> rows[k].filepath != path
    ensures r.Some? ==> exists k :: 0 <= k < |rows| && rows[k].filepath == path && rows[k].id == r.value
    ensures PathsUnique(rows) ==>
      forall k :: 0 <= k < |rows| && rows[k].filepath == path ==> r == Some(rows[k].id)
  {
    if rows == [] then None
    else if rows[0].filepath == path then Some(rows[0].id)
    else
      var r := IdByPath(rows[1..], path);
      assert forall k :: 1 <= k < |rows| ==> rows[k] == rows[1..][k - 1];
      r
  }

  /** SQLite's NOCASE collation folds the 26 upper-case ASCII letters and nothing else. */
  function FoldAscii(c: char): char
  {
    if 'A' <= c <= 'Z' then (c as int + 32) as char else c
  }

  function Fold(s: string): string
  {
    seq(|s|, i requires 0 <= i < |s| => FoldAscii(s[i]))
  }

  predicate NoCaseEqual(a: string, b: string)
  {
    Fold(a) == Fold(b)
  }

  /** `SELECT rowid FROM tracks WHERE name=? COLLATE NOCASE`, in scan order. */
  function IdsForName(rows: seq<TrackRow>, name: string): (r: seq<int>)
    ensures |r| <= |rows|
    ensures forall x :: x in r <==>
      exists k :: 0 <= k < |rows| && rows[k].id == x && NoCaseEqual(rows[k].name, name)
  {
    if rows == [] then []
    else
      var rest := IdsForName(rows[1..], name);
      assert forall k :: 1 <= k < |rows| ==> rows[k] == rows[1..][k - 1];
      if NoCaseEqual(rows[0].name, name) then [rows[0].id] + rest else rest
  }

  /** `SELECT other_id FROM link_table WHERE track_id=?`, in insertion order. */
  function LinkedIds(links: seq<Link>, trackId: int): (r: seq<int>)
    ensures forall x :: x in r <==> Link(trackId, x) in links
  {
    if links == [] then []
    else
      var rest := LinkedIds(links[1..], trackId);
      if links[0].trackId == trackId then [links[0].otherId] + rest else rest
  }

  /** `add_artist` / `add_genre`: insert the pair only when the id is not already linked. */
  function AddLink(links: seq<Link>, trackId: int, otherId: int): seq<Link>
  {
    if otherId in LinkedIds(links, trackId) then links else links + [Link(trackId, otherId)]
  }

  /** `DELETE FROM link_table WHERE track_id=?` */
  function WithoutTrack(links: seq<Link>, trackId: int): (r: seq<Link>)
    ensures forall l :: l in r <==> l in links && l.trackId != trackId
  {
    if links == [] then []
    else
      var rest := WithoutTrack(links[1..], trackId);
      if links[0].trackId == trackId then rest else [links[0]] + rest
  }

  /** `DELETE FROM tracks WHERE rowid=?` */
  function RemoveRow(rows: seq<TrackRow>, id: int): (r: seq<TrackRow>)
    ensures forall row :: row in r <==> row in rows && row.id != id
  {
    if rows == [] then []
    else
      var rest := RemoveRow(rows[1..], id);
      if rows[0].id == id then rest else [rows[0]] + rest
  }

  /** The two columns the catalogue updates by rowid. */
  datatype Column = Popularity | Ltime

  function WithColumn(row: TrackRow, c: Column, v: int): TrackRow
  {
    match c
    case Popularity => row.(popularity := v)
    case Ltime => row.(ltime := v)
  }

  /** `UPDATE tracks SET <column>=? WHERE rowid=?` */
  function UpdateColumn(rows: seq<TrackRow>, id: int, c: Column, v: int): (r: seq<TrackRow>)
    ensures |r| == |rows|
  {
    if rows == [] then []
    else
      [if rows[0].id == id then WithColumn(rows[0], c, v) else rows[0]]
      + UpdateColumn(rows[1..], id, c, v)
  }

  /** The rowid SQLite gives an inserted row: one more than the largest, 1 in an empty table. */
  function NextRowId(rows: seq<TrackRow>): (r: int)
    ensures IdsAscending(rows) ==> forall k :: 0 <= k < |rows| ==> rows[k].id < r
  {
    if rows == [] then 1 else rows[|rows| - 1].id + 1
  }

  /** `SELECT filepath FROM tracks`, in scan order. */
  function Paths(rows: seq<TrackRow>): (r: seq<string>)
    ensures |r| == |rows|
    ensures forall p :: p in r <==> IdByPath(rows, p).Some?
  {
    var r := seq(|rows|, k requires 0 <= k < |rows| => rows[k].filepath);
    assert forall k :: 0 <= k < |rows| ==> r[k] == rows[k].filepath;
    r
  }

  /** The ids that join the name table, in their order. */
  function KnownIds(ids: seq<int>, table: map<int, string>): (r: seq<int>)
    ensures forall x :: x in r <==> x in ids && x in table
    ensures |r| <= |ids|
  {
    if ids == [] then []
    else
      var rest := KnownIds(ids[1..], table);
      assert ids == [ids[0]] + ids[1..];
      if ids[0] in table then [ids[0]] + rest else rest
  }

  /**
   * The join of linked ids with a name table: one name per id that has a row
   * there, in link order, each passed through `f`; an id with no row drops out.
   */
  function NamesOf(ids: seq<int>, table: map<int, string>, f: string -> string): (r: seq<string>)
    ensures |r| == |KnownIds(ids, table)|
    ensures forall i :: 0 <= i < |r| ==> KnownIds(ids, table)[i] in table && r[i] == f(table[KnownIds(ids, table)[i]])
  {
    if ids == [] then []
    else
      var rest := NamesOf(ids[1..], table, f);
      if ids[0] in table then [f(table[ids[0]])] + rest else rest
  }

  /** Python's `", ".join(names)`. */
  function JoinComma(names: seq<string>): string
  {
    if names == [] then ""
    else if |names| == 1 then names[0]
    else names[0] + ", " + JoinComma(names[1..])
  }

  /** Cutting a text at every ", ", the inverse of `JoinComma` for names without commas. */
  function SplitComma(s: string): (r: seq<string>)
    ensures |r| >= 1
  {
    if s == [] then [""]
    else if |s| >= 2 && s[0] == ',' && s[1] == ' ' then [""] + SplitComma(s[2..])
    else
      var rest := SplitComma(s[1..]);
      [[s[0]] + rest[0]] + rest[1..]
  }

  ghost predicate NoComma(names: seq<string>)
  {
    forall i :: 0 <= i < |names| ==> ',' !in names[i]
  }

  /** A comma-free prefix joins the first piece of whatever follows it. */
  lemma {:induction false} SplitCommaFree(w: string, t: string)
    requires ',' !in w
    ensures SplitComma(w + t) == [w + SplitComma(t)[0]] + SplitComma(t)[1..]
  {
    var st := SplitComma(t);
    if w == [] {
      assert w + t == t;
      assert w + st[0] == st[0];
      assert st == [st[0]] + st[1..];
    } else {
      assert (w + t)[0] == w[0] != ',';
      assert (w + t)[1..] == w[1..] + t;
      assert ',' !in w[1..] by {
        forall c | c in w[1..] ensures c != ',' {
          assert c in w;
        }
      }
      SplitCommaFree(w[1..], t);
      var rest := SplitComma(w[1..] + t);
      assert rest == [w[1..] + st[0]] + st[1..];
      assert [w[0]] + rest[0] == w + st[0];
    }
  }

  /** Splitting the joined names at ", " gives the names back when none holds a comma. */
  lemma {:induction false} JoinSplitRoundTrip(names: seq<string>)
    ensures names != [] && NoComma(names) ==> SplitComma(JoinComma(names)) == names
  {
    if names != [] && NoComma(names) {
      assert ',' !in names[0];
      if |names| == 1 {
        SplitCommaFree(names[0], "");
        assert names[0] + "" == names[0];
      } else {
        var tail := names[1..];
        assert NoComma(tail) by {
          forall i | 0 <= i < |tail| ensures ',' !in tail[i] {
            assert tail[i] == names[i + 1];
          }
        }
        JoinSplitRoundTrip(tail);
        var t := ", " + JoinComma(tail);
        assert JoinComma(names) == names[0] + t;
        SplitCommaFree(names[0], t);
        assert t[0] == ',' && t[1] == ' ' && t[2..] == JoinComma(tail);
        var st := SplitComma(t);
        assert st == [""] + tail;
        assert st[0] == "" && st[1..] == tail;
        assert names[0] + "" == names[0];
        assert names == [names[0]] + tail;
      }
    }
  }

  function Digit(d: nat): char
    requires d < 10
  {
    (d + '0' as int) as char
  }

  function DigitValue(c: char): int
  {
    c as int - '0' as int
  }

  /** Python's `str(n)` for a non-negative integer. */
  function NatString(n: nat): (s: string)
    ensures |s| >= 1
    ensures forall i :: 0 <= i < |s| ==> '0' <= s[i] <= '9'
    decreases n
  {
    if n < 10 then [Digit(n)] else NatString(n / 10) + [Digit(n % 10)]
  }

  /** Python's `str(i)` for an integer. */
  function IntString(i: int): (s: string)
    ensures |s| >= 1
  {
    if i < 0 then "-" + NatString(-i) else NatString(i)
  }

  /** Reads a string of decimal digits, most significant first. */
  function DigitsValue(s: string): int
  {
    if s == [] then 0 else DigitsValue(s[..|s| - 1]) * 10 + DigitValue(s[|s| - 1])
  }

  function ParseInt(s: string): int
  {
    if |s| > 0 && s[0] == '-' then -DigitsValue(s[1..]) else DigitsValue(s)
  }

  lemma {:induction false} NatStringRoundTrip(n: nat)
    ensures DigitsValue(NatString(n)) == n
    decreases n
  {
    var s := NatString(n);
    if n < 10 {
      assert s[..|s| - 1] == [];
    } else {
      NatStringRoundTrip(n / 10);
      assert s[..|s| - 1] == NatString(n / 10);
      assert DigitValue(s[|s| - 1]) == n % 10;
    }
  }

  /** The decimal text of an integer reads back as that integer, so distinct years print differently. */
  lemma IntStringRoundTrip(i: int)
    ensures ParseInt(IntString(i)) == i
  {
    if i < 0 {
      NatStringRoundTrip(-i);
      assert IntString(i)[1..] == NatString(-i);
    } else {
      NatStringRoundTrip(i);
    }
  }

  /** Every row of `s` that is in a table with unique ids is what a rowid lookup returns. */
  lemma LookupMembers(rows: seq<TrackRow>, s: seq<TrackRow>)
    requires IdsAscending(rows)
    requires forall y :: y in s ==> y in rows
    ensures forall i :: 0 <= i < |s| ==> Lookup(rows, s[i].id) == Some(s[i])
  {
    forall i | 0 <= i < |s| ensures Lookup(rows, s[i].id) == Some(s[i]) {
      assert s[i] in rows;
      var k :| 0 <= k < |rows| && rows[k] == s[i];
    }
  }

  // ---------------------------------------------------------------------------
  // What each statement changes, seen through rowid lookups and link scans.
  // ---------------------------------------------------------------------------

  lemma {:induction false} UpdateColumnAt(rows: seq<TrackRow>, id: int, c: Column, v: int, k: int)
    requires 0 <= k < |rows|
    ensures UpdateColumn(rows, id, c, v)[k] ==
      if rows[k].id == id then WithColumn(rows[k], c, v) else rows[k]
  {
    if k > 0 {
      UpdateColumnAt(rows[1..], id, c, v, k - 1);
    }
  }

  lemma UpdateColumnKeepsValid(rows: seq<TrackRow>, id: int, c: Column, v: int)
    requires ValidRows(rows)
    ensures ValidRows(UpdateColumn(rows, id, c, v))
  {
    var r := UpdateColumn(rows, id, c, v);
    forall k | 0 <= k < |rows|
      ensures r[k].id == rows[k].id && r[k].filepath == rows[k].filepath
    {
      UpdateColumnAt(rows, id, c, v, k);
    }
  }

  /** An UPDATE by rowid rewrites one column of the row with that id and leaves every other row alone. */
  lemma UpdateColumnFrame(rows: seq<TrackRow>, id: int, c: Column, v: int)
    requires ValidRows(rows)
    ensures ValidRows(UpdateColumn(rows, id, c, v))
    ensures Lookup(UpdateColumn(rows, id, c, v), id) ==
      if Lookup(rows, id).Some? then Some(WithColumn(Lookup(rows, id).value, c, v)) else None
    ensures forall other :: other != id ==>
      Lookup(UpdateColumn(rows, id, c, v), other) == Lookup(rows, other)
  {
    var r := UpdateColumn(rows, id, c, v);
    UpdateColumnKeepsValid(rows, id, c, v);
    if HasId(rows, id) {
      var k :| 0 <= k < |rows| && rows[k].id == id;
      UpdateColumnAt(rows, id, c, v, k);
    } else {
      forall k | 0 <= k < |r| ensures r[k].id != id {
        UpdateColumnAt(rows, id, c, v, k);
      }
    }
    forall other | other != id
      ensures Lookup(r, other) == Lookup(rows, other)
    {
      if HasId(rows, other) {
        var k :| 0 <= k < |rows| && rows[k].id == other;
        UpdateColumnAt(rows, id, c, v, k);
      } else {
        forall k | 0 <= k < |r| ensures r[k].id != other {
          UpdateColumnAt(rows, id, c, v, k);
        }
      }
    }
  }

  lemma {:induction false} RemoveRowKeepsValid(rows: seq<TrackRow>, id: int)
    requires ValidRows(rows)
    ensures ValidRows(RemoveRow(rows, id))
  {
    if rows != [] {
      var tail := rows[1..];
      TailValid(rows);
      RemoveRowKeepsValid(tail, id);
      if rows[0].id != id {
        var rest := RemoveRow(tail, id);
        forall y | y in rest ensures rows[0].id < y.id && rows[0].filepath != y.filepath {
          var m :| 0 <= m < |tail| && tail[m] == y;
          assert rows[m + 1] == y;
        }
        ConsValid(rows[0], rest);
      }
    }
  }

  lemma TailValid(rows: seq<TrackRow>)
    requires ValidRows(rows)
    requires rows != []
    ensures ValidRows(rows[1..])
  {
    var tail := rows[1..];
    forall i, j | 0 <= i < j < |tail|
      ensures tail[i].id < tail[j].id && tail[i].filepath != tail[j].filepath
    {
      assert tail[i] == rows[i + 1] && tail[j] == rows[j + 1];
    }
  }

  lemma TailAscending(rows: seq<TrackRow>)
    requires IdsAscending(rows)
    requires rows != []
    ensures IdsAscending(rows[1..])
    ensures forall y :: y in rows[1..] ==> rows[0].id < y.id
  {
    var tail := rows[1..];
    forall i, j | 0 <= i < j < |tail| ensures tail[i].id < tail[j].id {
      assert tail[i] == rows[i + 1] && tail[j] == rows[j + 1];
    }
    forall y | y in tail ensures rows[0].id < y.id {
      var m :| 0 <= m < |tail| && tail[m] == y;
      assert rows[m + 1] == y;
    }
  }

  /** With rowids ascending, no row occurs twice. */
  lemma {:induction false} AscendingOnce(rows: seq<TrackRow>, x: TrackRow)
    requires IdsAscending(rows)
    ensures multiset(rows)[x] <= 1
  {
    if rows != [] {
      TailAscending(rows);
      AscendingOnce(rows[1..], x);
      assert rows == [rows[0]] + rows[1..];
      if x == rows[0] {
        assert x !in rows[1..];
      }
    }
  }

  /** Rows drawn from a table with ascending rowids, each no more often than the table holds it, have distinct rowids. */
  lemma SubRowsIdsDistinct(rows: seq<TrackRow>, sub: seq<TrackRow>, i: int, j: int)
    requires IdsAscending(rows)
    requires multiset(sub) <= multiset(rows)
    requires 0 <= i < j < |sub|
    ensures sub[i].id != sub[j].id
  {
    var x, y := sub[i], sub[j];
    if x.id == y.id {
      assert x in multiset(rows) && y in multiset(rows);
      var m :| 0 <= m < |rows| && rows[m] == x;
      var n :| 0 <= n < |rows| && rows[n] == y;
      assert m == n;
      assert sub == sub[..j] + sub[j..];
      assert x in sub[..j] && x in sub[j..];
      assert multiset(sub)[x] == multiset(sub[..j])[x] + multiset(sub[j..])[x];
      AscendingOnce(rows, x);
      assert false;
    }
  }

  /** A row with a smaller rowid than every other keeps the rowids ascending. */
  lemma ConsAscending(h: TrackRow, rows: seq<TrackRow>)
    requires IdsAscending(rows)
    requires forall y :: y in rows ==> h.id < y.id
    ensures IdsAscending([h] + rows)
  {
    var r := [h] + rows;
    forall i, j | 0 <= i < j < |r| ensures r[i].id < r[j].id {
      assert r[j] == rows[j - 1];
      if i == 0 {
        assert r[j] in rows;
      } else {
        assert r[i] == rows[i - 1];
      }
    }
  }

  /** A row before every other in rowid order, with a path none of them has, keeps the table well formed. */
  lemma ConsValid(h: TrackRow, rows: seq<TrackRow>)
    requires ValidRows(rows)
    requires forall y :: y in rows ==> h.id < y.id && h.filepath != y.filepath
    ensures ValidRows([h] + rows)
  {
    var r := [h] + rows;
    forall i, j | 0 <= i < j < |r|
      ensures r[i].id < r[j].id && r[i].filepath != r[j].filepath
    {
      assert r[j] == rows[j - 1];
      if i == 0 {
        assert r[j] in rows;
      } else {
        assert r[i] == rows[i - 1];
      }
    }
  }

  /** Deleting a rowid removes exactly that row and keeps the table well formed. */
  lemma RemoveRowFrame(rows: seq<TrackRow>, id: int)
    requires ValidRows(rows)
    ensures ValidRows(RemoveRow(rows, id))
    ensures Lookup(RemoveRow(rows, id), id) == None
    ensures forall other :: other != id ==> Lookup(RemoveRow(rows, id), other) == Lookup(rows, other)
  {
    var r := RemoveRow(rows, id);
    RemoveRowKeepsValid(rows, id);
    forall k | 0 <= k < |r| ensures r[k].id != id {
      assert r[k] in r;
    }
    forall other | other != id
      ensures Lookup(r, other) == Lookup(rows, other)
    {
      if HasId(rows, other) {
        var k :| 0 <= k < |rows| && rows[k].id == other;
        assert rows[k] in r;
        var j :| 0 <= j < |r| && r[j] == rows[k];
      } else {
        forall j | 0 <= j < |r| ensures r[j].id != other {
          assert r[j] in rows;
        }
      }
    }
  }

  /** After deleting the row a path resolved to, the path no longer resolves. */
  lemma RemoveForgetsPath(rows: seq<TrackRow>, path: string)
    requires ValidRows(rows)
    requires IdByPath(rows, path).Some?
    ensures IdByPath(RemoveRow(rows, IdByPath(rows, path).value), path) == None
  {
    var id := IdByPath(rows, path).value;
    var r := RemoveRow(rows, id);
    forall k | 0 <= k < |r| ensures r[k].filepath != path {
      assert r[k] in rows;
      var j :| 0 <= j < |rows| && rows[j] == r[k];
    }
  }

  /** A row after every other in rowid order, with a path none of them has, keeps the table well formed. */
  lemma SnocValid(rows: seq<TrackRow>, h: TrackRow)
    requires ValidRows(rows)
    requires forall y :: y in rows ==> y.id < h.id && y.filepath != h.filepath
    ensures ValidRows(rows + [h])
  {
    var r := rows + [h];
    forall i, j | 0 <= i < j < |r|
      ensures r[i].id < r[j].id && r[i].filepath != r[j].filepath
    {
      assert r[i] == rows[i];
      if j < |rows| {
        assert r[j] == rows[j];
      } else {
        assert r[i] in rows;
      }
    }
  }

  /** Appending a row with the next rowid and a fresh path: it is found by id and by path, and nothing else moves. */
  lemma AppendRowFound(rows: seq<TrackRow>, row: TrackRow)
    requires ValidRows(rows)
    requires row.id == NextRowId(rows)
    requires IdByPath(rows, row.filepath) == None
    ensures ValidRows(rows + [row])
    ensures Lookup(rows + [row], row.id) == Some(row)
    ensures IdByPath(rows + [row], row.filepath) == Some(row.id)
    ensures forall other :: other != row.id ==> Lookup(rows + [row], other) == Lookup(rows, other)
  {
    var r := rows + [row];
    assert r[|rows|] == row;
    forall y | y in rows ensures y.id < row.id && y.filepath != row.filepath {
      var m :| 0 <= m < |rows| && rows[m] == y;
    }
    SnocValid(rows, row);
    forall other | other != row.id
      ensures Lookup(r, other) == Lookup(rows, other)
    {
      if HasId(rows, other) {
        var k :| 0 <= k < |rows| && rows[k].id == other;
        assert r[k] == rows[k];
      } else {
        assert !HasId(r, other);
      }
    }
  }

  lemma {:induction false} LinkedIdsAppend(links: seq<Link>, l: Link, trackId: int)
    ensures LinkedIds(links + [l], trackId) ==
      LinkedIds(links, trackId) + (if l.trackId == trackId then [l.otherId] else [])
  {
    if links != [] {
      assert (links + [l])[1..] == links[1..] + [l];
      LinkedIdsAppend(links[1..], l, trackId);
    }
  }

  lemma {:induction false} UniqueOccursOnce(links: seq<Link>, l: Link)
    requires LinksUnique(links)
    requires l in links
    ensures multiset(links)[l] == 1
  {
    assert links == [links[0]] + links[1..];
    if links[0] == l {
      assert l !in links[1..];
    } else {
      UniqueOccursOnce(links[1..], l);
    }
  }

  /**
   * Check-then-insert: afterwards the id is linked to the track exactly once,
   * the track's other links keep their order, and no other track's links change.
   */
  lemma AddLinkSpec(links: seq<Link>, trackId: int, otherId: int)
    ensures otherId in LinkedIds(AddLink(links, trackId, otherId), trackId)
    ensures LinkedIds(AddLink(links, trackId, otherId), trackId) ==
      LinkedIds(links, trackId) + (if otherId in LinkedIds(links, trackId) then [] else [otherId])
    ensures forall u :: u != trackId ==>
      LinkedIds(AddLink(links, trackId, otherId), u) == LinkedIds(links, u)
    ensures LinksUnique(links) ==>
      LinksUnique(AddLink(links, trackId, otherId)) &&
      multiset(AddLink(links, trackId, otherId))[Link(trackId, otherId)] == 1
  {
    var l := Link(trackId, otherId);
    var r := AddLink(links, trackId, otherId);
    if otherId !in LinkedIds(links, trackId) {
      LinkedIdsAppend(links, l, trackId);
      forall u | u != trackId ensures LinkedIds(r, u) == LinkedIds(links, u) {
        LinkedIdsAppend(links, l, u);
      }
    }
    if LinksUnique(links) {
      UniqueOccursOnce(r, l);
    }
  }

  /** Linking the same id twice leaves the link table as linking it once. */
  lemma AddLinkIdempotent(links: seq<Link>, trackId: int, otherId: int)
    ensures AddLink(AddLink(links, trackId, otherId), trackId, otherId) == AddLink(links, trackId, otherId)
  {
    AddLinkSpec(links, trackId, otherId);
  }

  /** Deleting a track's links empties its link list, keeps everyone else's, and keeps pairs unique. */
  lemma {:induction false} WithoutTrackFrame(links: seq<Link>, trackId: int)
    ensures LinkedIds(WithoutTrack(links, trackId), trackId) == []
    ensures forall u :: u != trackId ==> LinkedIds(WithoutTrack(links, trackId), u) == LinkedIds(links, u)
    ensures LinksUnique(links) ==> LinksUnique(WithoutTrack(links, trackId))
  {
    if links != [] {
      WithoutTrackFrame(links[1..], trackId);
      assert LinksUnique(links) ==> links[0] !in links[1..];
    }
  }
}
