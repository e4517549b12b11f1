/**
 * `RadioPlayer.next` and `RadioPlayer.prev`: pick the radio after (or before)
 * the one playing, cyclically, from the list of (id, name) radios, and return
 * a track for that radio's first URI.
 */
module PlayerRadio {
  import opened Wrappers

  datatype Radio = Radio(id: int, name: string)

  /** What the two methods read of `current_track`. */
  datatype CurrentTrack = CurrentTrack(id: int, albumArtist: string)

  /** A fresh `Track()`, or one on which `set_radio(name, uri)` was called. */
  datatype Track = Blank | RadioTrack(name: string, uri: string)

  /** What a call does: return a track, or raise IndexError on `radios[i]`. */
  datatype Outcome = Returned(track: Track) | IndexError

  /** Python's `seq[i]` index rule: negative indices count from the end. */
  function PyIndex(i: int, n: nat): (r: Option<nat>)
    ensures r.Some? ==> r.value < n
    ensures r.None? <==> (i >= n || i < -(n as int))
  {
    if 0 <= i < n then Some(i) else if -(n as int) <= i < 0 then Some(i + n) else None
  }

  ghost predicate FirstOccurrence(radios: seq<Radio>, name: string, k: int)
  {
    0 <= k < |radios| && radios[k].name == name && forall j :: 0 <= j < k ==> radios[j].name != name
  }

  ghost predicate LastOccurrence(radios: seq<Radio>, name: string, k: int)
  {
    0 <= k < |radios| && radios[k].name == name && forall j :: k < j < |radios| ==> radios[j].name != name
  }

  ghost predicate Absent(radios: seq<Radio>, name: string)
  {
    forall j :: 0 <= j < |radios| ==> radios[j].name != name
  }

  /** Index of the first radio called `name`, scanning forward. */
  function FirstIndex(radios: seq<Radio>, name: string): (r: Option<nat>)
    ensures r.Some? ==> FirstOccurrence(radios, name, r.value)
    ensures r.None? ==> Absent(radios, name)
  {
    if radios == [] then None
    else if radios[0].name == name then Some(0)
    else match FirstIndex(radios[1..], name)
      case Some(k) =>
        assert forall j :: 1 <= j <= k + 1 ==> radios[j] == radios[1..][j - 1];
        Some(k + 1)
      case None =>
        assert forall j :: 1 <= j < |radios| ==> radios[j] == radios[1..][j - 1];
        None
  }

  /** Index of the last radio called `name`, scanning backward. */
  function LastIndex(radios: seq<Radio>, name: string): (r: Option<nat>)
    ensures r.Some? ==> LastOccurrence(radios, name, r.value)
    ensures r.None? ==> Absent(radios, name)
  {
    if radios == [] then None
    else if radios[|radios| - 1].name == name then Some(|radios| - 1)
    else
      var init := radios[..|radios| - 1];
      assert forall j :: 0 <= j < |init| ==> radios[j] == init[j];
      LastIndex(init, name)
  }

  /** The radio `next` selects: the one after the first radio named `name`, wrapping to 0. */
  function NextIndex(radios: seq<Radio>, name: string): (i: nat)
    requires |radios| > 0
    ensures i < |radios|
    ensures forall k :: FirstOccurrence(radios, name, k) && k < |radios| - 1 ==> i == k + 1
    ensures forall k :: FirstOccurrence(radios, name, k) && k == |radios| - 1 ==> i == 0
    ensures Absent(radios, name) ==> i == 0
  {
    match FirstIndex(radios, name)
    case Some(k) => if k + 1 < |radios| then k + 1 else 0
    case None => 0
  }

  /** The radio `prev` selects: the one before the last radio named `name`, wrapping to the end. */
  function PrevIndex(radios: seq<Radio>, name: string): (i: nat)
    requires |radios| > 0
    ensures i < |radios|
    ensures forall k :: LastOccurrence(radios, name, k) && k > 0 ==> i == k - 1
    ensures forall k :: LastOccurrence(radios, name, k) && k == 0 ==> i == |radios| - 1
    ensures Absent(radios, name) ==> i == |radios| - 1
  {
    match LastIndex(radios, name)
    case Some(k) => if k > 0 then k - 1 else |radios| - 1
    case None => |radios| - 1
  }

  /** The track for the radio at `i`: its name and first URI, or a blank track when it has none. */
  function RadioAt(radios: seq<Radio>, i: nat, uris: string -> seq<string>): Track
    requires i < |radios|
  {
    var name := radios[i].name;
    if |uris(name)| > 0 then RadioTrack(name, uris(name)[0]) else Blank
  }

  /**
   * `next`: count the radios up to and including the first one named like the
   * current track's album artist; past the end, start again at 0.
   */
  method Next(current: CurrentTrack, radiosType: int, radios: seq<Radio>, uris: string -> seq<string>)
    returns (r: Outcome)
    ensures current.id != radiosType ==> r == Returned(Blank)
    ensures current.id == radiosType && radios == [] ==> r == IndexError
    ensures current.id == radiosType && radios != [] ==>
      r == Returned(RadioAt(radios, NextIndex(radios, current.albumArtist), uris))
  {
    var track := Blank;
    if current.id != radiosType {
      return Returned(track);
    }
    var i := 0;
    var j := 0;
    while j < |radios|
      invariant 0 <= j <= |radios|
      invariant i == j
      invariant forall m :: 0 <= m < j ==> radios[m].name != current.albumArtist
    {
      i := i + 1;
      if current.albumArtist == radios[j].name {
        assert FirstOccurrence(radios, current.albumArtist, j);
        break;
      }
      j := j + 1;
    }
    if i >= |radios| {
      i := 0;
    }
    var at := PyIndex(i, |radios|);
    if at.None? {
      return IndexError;
    }
    var name := radios[at.value].name;
    var radioUris := uris(name);
    if |radioUris| > 0 {
      track := RadioTrack(name, radioUris[0]);
    }
    return Returned(track);
  }

  /**
   * `prev`: count down from the last index while scanning the radios in
   * reverse up to the last one named like the current track's album artist;
   * below 0, start again at the last index.
   */
  method Prev(current: CurrentTrack, radiosType: int, radios: seq<Radio>, uris: string -> seq<string>)
    returns (r: Outcome)
    ensures current.id != radiosType ==> r == Returned(Blank)
    ensures current.id == radiosType && radios == [] ==> r == IndexError
    ensures current.id == radiosType && radios != [] ==>
      r == Returned(RadioAt(radios, PrevIndex(radios, current.albumArtist), uris))
  {
    var track := Blank;
    if current.id != radiosType {
      return Returned(track);
    }
    var i := |radios| - 1;
    var j := |radios|;
    while j > 0
      invariant 0 <= j <= |radios|
      invariant i == j - 1
      invariant forall m :: j <= m < |radios| ==> radios[m].name != current.albumArtist
    {
      i := i - 1;
      if current.albumArtist == radios[j - 1].name {
        assert LastOccurrence(radios, current.albumArtist, j - 1);
        break;
      }
      j := j - 1;
    }
    if i < 0 {
      i := |radios| - 1;
    }
    var at := PyIndex(i, |radios|);
    if at.None? {
      return IndexError;
    }
    var name := radios[at.value].name;
    var radioUris := uris(name);
    if |radioUris| > 0 {
      track := RadioTrack(name, radioUris[0]);
    }
    return Returned(track);
  }

  ghost predicate DistinctNames(radios: seq<Radio>)
  {
    forall i, j :: 0 <= i < j < |radios| ==> radios[i].name != radios[j].name
  }

  /** With distinct names, the first and the last occurrence of a listed name are its position. */
  lemma DistinctOccurrence(radios: seq<Radio>, k: nat)
    requires DistinctNames(radios)
    requires k < |radios|
    ensures FirstOccurrence(radios, radios[k].name, k)
    ensures LastOccurrence(radios, radios[k].name, k)
  {
  }

  /** With distinct names, `prev` undoes `next`: both walk the same cycle in opposite directions. */
  lemma PrevAfterNext(radios: seq<Radio>, k: nat)
    requires DistinctNames(radios)
    requires k < |radios|
    ensures PrevIndex(radios, radios[NextIndex(radios, radios[k].name)].name) == k
  {
    DistinctOccurrence(radios, k);
    var i := NextIndex(radios, radios[k].name);
    DistinctOccurrence(radios, i);
  }

  /** With distinct names, `next` undoes `prev`. */
  lemma NextAfterPrev(radios: seq<Radio>, k: nat)
    requires DistinctNames(radios)
    requires k < |radios|
    ensures NextIndex(radios, radios[PrevIndex(radios, radios[k].name)].name) == k
  {
    DistinctOccurrence(radios, k);
    var i := PrevIndex(radios, radios[k].name);
    DistinctOccurrence(radios, i);
  }

  /** `steps` presses of "next" starting from radio `k`. */
  function NextSteps(radios: seq<Radio>, k: nat, steps: nat): (i: nat)
    requires DistinctNames(radios)
    requires k < |radios|
    ensures i < |radios|
    decreases steps
  {
    if steps == 0 then k
    else NextSteps(radios, NextIndex(radios, radios[k].name), steps - 1)
  }

  /** With distinct names, each "next" advances one place around the circle. */
  lemma {:induction false} NextStepsAdvance(radios: seq<Radio>, k: nat, steps: nat)
    requires DistinctNames(radios)
    requires k < |radios|
    ensures k + steps < |radios| ==> NextSteps(radios, k, steps) == k + steps
    ensures |radios| <= k + steps < 2 * |radios| ==> NextSteps(radios, k, steps) == k + steps - |radios|
    decreases steps
  {
    if steps > 0 {
      DistinctOccurrence(radios, k);
      var i := NextIndex(radios, radios[k].name);
      NextStepsAdvance(radios, i, steps - 1);
    }
  }

  /** Pressing "next" once per radio comes back to the radio playing. */
  lemma NextFullCircle(radios: seq<Radio>, k: nat)
    requires DistinctNames(radios)
    requires k < |radios|
    ensures NextSteps(radios, k, |radios|) == k
  {
    NextStepsAdvance(radios, k, |radios|);
  }
}
