/**
 * The queue navigation of the player (components/playerContent.tsx,
 * `onPlayNext` and `onPlayPrevious`), as functions from the store's
 * `ids` and `activeId` to the id that `player.setId` receives.
 *
 * The store keeps an ordered list of track ids (duplicates allowed) and an
 * optional active id. Navigation finds the FIRST index of the active id
 * (-1 when it is absent), looks at its neighbour, and wraps around when
 * that neighbour is falsy in JavaScript: out of range (`undefined`) or the
 * empty string.
 */
module Queue {
  import opened Wrappers

  /** JavaScript's `ids[k]`: the element when `k` is in range, `undefined` otherwise. */
  function Lookup(ids: seq<string>, k: int): (r: Option<string>)
    ensures r.Some? <==> 0 <= k < |ids|
    ensures r.Some? ==> r.value == ids[k]
  {
    if 0 <= k < |ids| then Some(ids[k]) else None
  }

  /** JavaScript truthiness of a looked-up id: `undefined` and `""` are falsy. */
  function Truthy(o: Option<string>): (b: bool)
    ensures !b <==> o == None || o == Some("")
  {
    o.Some? && o.value != ""
  }

  /** `k` is the first position of `x` in `ids`. */
  predicate IsFirstIndex(ids: seq<string>, k: int, x: string)
  {
    0 <= k < |ids| && ids[k] == x && forall j :: 0 <= j < k ==> ids[j] != x
  }

  /** Every id is non-empty and no id occurs twice. */
  predicate WellFormed(ids: seq<string>)
  {
    && (forall i :: 0 <= i < |ids| ==> ids[i] != "")
    && (forall i, j :: 0 <= i < j < |ids| ==> ids[i] != ids[j])
  }

  /**
   * `ids.findIndex((id) => id === activeId)`: the first index holding the
   * active id, or -1 when there is no active id or it is not in the list.
   */
  function FindIndex(ids: seq<string>, active: Option<string>): (r: int)
    ensures -1 <= r < |ids|
    ensures r == -1 <==> active.None? || active.value !in ids
    ensures r != -1 ==> IsFirstIndex(ids, r, active.value)
  {
    if ids == [] then -1
    else if active == Some(ids[0]) then 0
    else
      var k := FindIndex(ids[1..], active);
      if k == -1 then -1 else k + 1
  }

  /** Two first positions of the same id coincide. */
  lemma FirstIndexUnique(ids: seq<string>, k: int, k': int, x: string)
    requires IsFirstIndex(ids, k, x) && IsFirstIndex(ids, k', x)
    ensures k == k'
  {
  }

  /** In a list without duplicates every position is the first position of its id. */
  lemma WellFormedFirstIndex(ids: seq<string>, k: int)
    requires WellFormed(ids) && 0 <= k < |ids|
    ensures IsFirstIndex(ids, k, ids[k])
  {
  }

  /** The active id after `onPlayNext`: unchanged on an empty list, otherwise what `setId` receives. */
  function PlayNext(ids: seq<string>, active: Option<string>): (r: Option<string>)
    ensures ids == [] ==> r == active
    ensures ids != [] ==> r.Some? && r.value in ids
  {
    if ids == [] then active
    else
      var next := Lookup(ids, FindIndex(ids, active) + 1);
      Some(if Truthy(next) then next.value else ids[0])
  }

  /** The active id after `onPlayPrevious`: unchanged on an empty list, otherwise what `setId` receives. */
  function PlayPrevious(ids: seq<string>, active: Option<string>): (r: Option<string>)
    ensures ids == [] ==> r == active
    ensures ids != [] ==> r.Some? && r.value in ids
  {
    if ids == [] then active
    else
      var previous := Lookup(ids, FindIndex(ids, active) - 1);
      Some(if Truthy(previous) then previous.value else ids[|ids| - 1])
  }

  /** From the first occurrence of an id, next moves one place on when that neighbour is a non-empty id. */
  lemma PlayNextAdvances(ids: seq<string>, k: int)
    requires 0 <= k < |ids| && IsFirstIndex(ids, k, ids[k]) && k + 1 < |ids| && ids[k + 1] != ""
    ensures PlayNext(ids, Some(ids[k])) == Some(ids[k + 1])
  {
    FirstIndexUnique(ids, FindIndex(ids, Some(ids[k])), k, ids[k]);
  }

  /** From the first occurrence of an id at the last index, next wraps to the first id. */
  lemma PlayNextWrapsAtEnd(ids: seq<string>)
    requires ids != [] && IsFirstIndex(ids, |ids| - 1, ids[|ids| - 1])
    ensures PlayNext(ids, Some(ids[|ids| - 1])) == Some(ids[0])
  {
    FirstIndexUnique(ids, FindIndex(ids, Some(ids[|ids| - 1])), |ids| - 1, ids[|ids| - 1]);
  }

  /** An empty-string neighbour is falsy, so next wraps to the first id instead of stepping onto it. */
  lemma PlayNextWrapsOverEmptyId(ids: seq<string>, k: int)
    requires 0 <= k < |ids| && IsFirstIndex(ids, k, ids[k]) && k + 1 < |ids| && ids[k + 1] == ""
    ensures PlayNext(ids, Some(ids[k])) == Some(ids[0])
  {
    FirstIndexUnique(ids, FindIndex(ids, Some(ids[k])), k, ids[k]);
  }

  /** An absent (or unset) active id counts as index -1, so next goes to the first id. */
  lemma PlayNextFromAbsent(ids: seq<string>, active: Option<string>)
    requires ids != [] && (active.None? || active.value !in ids)
    ensures PlayNext(ids, active) == Some(ids[0])
  {
  }

  /** From the first occurrence of an id, previous moves one place back when that neighbour is a non-empty id. */
  lemma PlayPreviousRetreats(ids: seq<string>, k: int)
    requires 0 <= k < |ids| && IsFirstIndex(ids, k, ids[k]) && 1 <= k && ids[k - 1] != ""
    ensures PlayPrevious(ids, Some(ids[k])) == Some(ids[k - 1])
  {
    FirstIndexUnique(ids, FindIndex(ids, Some(ids[k])), k, ids[k]);
  }

  /** From the first id, previous wraps to the last id. */
  lemma PlayPreviousWrapsAtStart(ids: seq<string>)
    requires ids != []
    ensures PlayPrevious(ids, Some(ids[0])) == Some(ids[|ids| - 1])
  {
    FirstIndexUnique(ids, FindIndex(ids, Some(ids[0])), 0, ids[0]);
  }

  /** An empty-string neighbour is falsy, so previous wraps to the last id instead of stepping onto it. */
  lemma PlayPreviousWrapsOverEmptyId(ids: seq<string>, k: int)
    requires 0 <= k < |ids| && IsFirstIndex(ids, k, ids[k]) && 1 <= k && ids[k - 1] == ""
    ensures PlayPrevious(ids, Some(ids[k])) == Some(ids[|ids| - 1])
  {
    FirstIndexUnique(ids, FindIndex(ids, Some(ids[k])), k, ids[k]);
  }

  /** An absent (or unset) active id counts as index -1, so previous goes to the last id. */
  lemma PlayPreviousFromAbsent(ids: seq<string>, active: Option<string>)
    requires ids != [] && (active.None? || active.value !in ids)
    ensures PlayPrevious(ids, active) == Some(ids[|ids| - 1])
  {
  }

  /** A one-track queue stays on that track in both directions, whatever the active id was. */
  lemma SingleTrackStays(ids: seq<string>, active: Option<string>)
    requires |ids| == 1
    ensures PlayNext(ids, active) == Some(ids[0])
    ensures PlayPrevious(ids, active) == Some(ids[0])
  {
  }

  /** On a list of distinct non-empty ids, next is the cyclic successor of the active position. */
  lemma {:induction false} PlayNextCyclic(ids: seq<string>, k: int)
    requires WellFormed(ids) && 0 <= k < |ids|
    ensures PlayNext(ids, Some(ids[k])) == Some(ids[(k + 1) % |ids|])
  {
    var n := |ids|;
    WellFormedFirstIndex(ids, k);
    if k + 1 < n {
      assert ids[k + 1] != "";
      PlayNextAdvances(ids, k);
      ModBelow(k + 1, n);
    } else {
      PlayNextWrapsAtEnd(ids);
      ModBelow(0, n);
      assert (k + 1) % n == 0;
    }
  }

  /** On a list of distinct non-empty ids, previous is the cyclic predecessor of the active position. */
  lemma {:induction false} PlayPreviousCyclic(ids: seq<string>, k: int)
    requires WellFormed(ids) && 0 <= k < |ids|
    ensures PlayPrevious(ids, Some(ids[k])) == Some(ids[(k + |ids| - 1) % |ids|])
  {
    var n := |ids|;
    WellFormedFirstIndex(ids, k);
    if 1 <= k {
      assert ids[k - 1] != "";
      PlayPreviousRetreats(ids, k);
      ModBelow(k - 1, n);
      assert (k + n - 1) % n == k - 1;
    } else {
      PlayPreviousWrapsAtStart(ids);
      ModBelow(n - 1, n);
    }
  }

  lemma ModBelow(j: int, n: int)
    requires 0 <= j < n
    ensures j % n == j && (j + n) % n == j
  {
  }

  /** On a list of distinct non-empty ids, previous undoes next and next undoes previous. */
  lemma {:induction false} NextPreviousInverse(ids: seq<string>, x: string)
    requires WellFormed(ids) && x in ids
    ensures PlayPrevious(ids, PlayNext(ids, Some(x))) == Some(x)
    ensures PlayNext(ids, PlayPrevious(ids, Some(x))) == Some(x)
  {
    var k :| 0 <= k < |ids| && ids[k] == x;
    PreviousAfterNext(ids, k);
    NextAfterPrevious(ids, k);
  }

  lemma {:induction false} PreviousAfterNext(ids: seq<string>, k: int)
    requires WellFormed(ids) && 0 <= k < |ids|
    ensures PlayPrevious(ids, PlayNext(ids, Some(ids[k]))) == Some(ids[k])
  {
    WellFormedFirstIndex(ids, k);
    if k + 1 < |ids| {
      assert ids[k + 1] != "" && ids[k] != "";
      PlayNextAdvances(ids, k);
      WellFormedFirstIndex(ids, k + 1);
      PlayPreviousRetreats(ids, k + 1);
    } else {
      PlayNextWrapsAtEnd(ids);
      PlayPreviousWrapsAtStart(ids);
    }
  }

  lemma {:induction false} NextAfterPrevious(ids: seq<string>, k: int)
    requires WellFormed(ids) && 0 <= k < |ids|
    ensures PlayNext(ids, PlayPrevious(ids, Some(ids[k]))) == Some(ids[k])
  {
    WellFormedFirstIndex(ids, k);
    if 1 <= k {
      assert ids[k - 1] != "" && ids[k] != "";
      PlayPreviousRetreats(ids, k);
      WellFormedFirstIndex(ids, k - 1);
      PlayNextAdvances(ids, k - 1);
    } else {
      PlayPreviousWrapsAtStart(ids);
      WellFormedFirstIndex(ids, |ids| - 1);
      PlayNextWrapsAtEnd(ids);
    }
  }

  /** The walk through `[s1, s2, s3]` starting at `s2`: next, next, previous visits s3, s1, s3. */
  lemma {:induction false} ThreeTrackWalk(s1: string, s2: string, s3: string)
    requires s1 != "" && s2 != "" && s3 != ""
    requires s1 != s2 && s2 != s3 && s1 != s3
    ensures PlayNext([s1, s2, s3], Some(s2)) == Some(s3)
    ensures PlayNext([s1, s2, s3], Some(s3)) == Some(s1)
    ensures PlayPrevious([s1, s2, s3], Some(s1)) == Some(s3)
  {
    var ids := [s1, s2, s3];
    assert WellFormed(ids);
    PlayNextCyclic(ids, 1);
    PlayNextCyclic(ids, 2);
    PlayPreviousCyclic(ids, 0);
  }

  /**
   * Because the position is the FIRST occurrence, a duplicated id traps
   * next: in `[a, b, a, c]` next from `a` always goes to `b` and next from
   * `b` goes back to `a`, so `c` is never reached by next from `a` or `b`.
   */
  lemma {:induction false} DuplicateTrapsNext(a: string, b: string, c: string)
    requires a != "" && b != "" && a != b && a != c && b != c
    ensures PlayNext([a, b, a, c], Some(a)) == Some(b)
    ensures PlayNext([a, b, a, c], Some(b)) == Some(a)
  {
    var ids := [a, b, a, c];
    PlayNextAdvances(ids, 0);
    PlayNextAdvances(ids, 1);
  }
}
