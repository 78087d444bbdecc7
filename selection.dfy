/** The selection policy the library applies twice: keep the candidates that
    pass a caller-supplied filter, then pick the best one under a
    caller-supplied preference.

    The two call sites break ties differently:
    - the physical-device loop replaces its favourite only when
      `preference(new, favourite) == Greater`, so among equally preferred
      candidates the FIRST one wins (`FirstMaxIndex`);
    - `Iterator::max_by`, used for queue families, keeps its accumulator
      `x` only when `compare(x, new) == Greater`, so the LAST of the equally
      maximal candidates wins (`LastMaxIndex`).

    Both are left folds over the candidate sequence, written here on its
    prefixes so that they follow the enumeration order. */
module Selection {
  import opened Wrappers

  /** `std::cmp::Ordering`. */
  datatype Ordering = Less | Equal | Greater

  /** `pref` is a consistent total preorder on the elements of `s`: swapping
      the arguments swaps `Greater` and `Less`, and "at least as preferred"
      (anything but `Less`) is transitive. */
  ghost predicate ConsistentOn<T>(s: seq<T>, pref: (T, T) -> Ordering) {
    && (forall i, j :: 0 <= i < |s| && 0 <= j < |s| ==>
          (pref(s[i], s[j]) == Greater <==> pref(s[j], s[i]) == Less))
    && (forall i, j, k {:trigger pref(s[i], s[j]), pref(s[j], s[k]), pref(s[i], s[k])} ::
          (0 <= i < |s| && 0 <= j < |s| && 0 <= k < |s| &&
           pref(s[i], s[j]) != Less && pref(s[j], s[k]) != Less) ==>
          pref(s[i], s[k]) != Less)
  }

  /** The candidate at an optional index. */
  function Pick<T>(s: seq<T>, k: Option<nat>): (r: Option<T>)
    requires k.Some? ==> k.value < |s|
    ensures r.Some? <==> k.Some?
    ensures r.Some? ==> r.value == s[k.value]
  {
    match k
    case None => None
    case Some(i) => Some(s[i])
  }

  /** Index chosen by the physical-device loop: the first passing candidate
      becomes the favourite, and a later passing one replaces it only when
      it is strictly preferred to it. `None` exactly when nothing passes. */
  function FirstMaxIndex<T>(s: seq<T>, filter: T -> bool, pref: (T, T) -> Ordering): (r: Option<nat>)
    ensures r.Some? ==> r.value < |s| && filter(s[r.value])
    ensures r.None? <==> forall i :: 0 <= i < |s| ==> !filter(s[i])
  {
    if |s| == 0 then None
    else
      var prev := FirstMaxIndex(s[..|s| - 1], filter, pref);
      var d := s[|s| - 1];
      if !filter(d) then prev
      else if prev.None? || pref(d, s[prev.value]) == Greater then Some(|s| - 1)
      else prev
  }

  /** Index chosen by `filter(..).max_by(pref)`: the accumulator survives a
      new passing candidate only when it compares `Greater` to it.
      `None` exactly when nothing passes. */
  function LastMaxIndex<T>(s: seq<T>, filter: T -> bool, pref: (T, T) -> Ordering): (r: Option<nat>)
    ensures r.Some? ==> r.value < |s| && filter(s[r.value])
    ensures r.None? <==> forall i :: 0 <= i < |s| ==> !filter(s[i])
  {
    if |s| == 0 then None
    else
      var prev := LastMaxIndex(s[..|s| - 1], filter, pref);
      var d := s[|s| - 1];
      if !filter(d) then prev
      else if prev.None? || pref(s[prev.value], d) != Greater then Some(|s| - 1)
      else prev
  }

  /** The candidate chosen by the physical-device policy. */
  function FirstMax<T>(s: seq<T>, filter: T -> bool, pref: (T, T) -> Ordering): Option<T> {
    Pick(s, FirstMaxIndex(s, filter, pref))
  }

  /** The candidate chosen by `max_by`. */
  function LastMax<T>(s: seq<T>, filter: T -> bool, pref: (T, T) -> Ordering): Option<T> {
    Pick(s, LastMaxIndex(s, filter, pref))
  }

  /** One step of the physical-device loop on the current favourite. */
  function FirstMaxStep<T>(favorite: Option<T>, d: T, filter: T -> bool, pref: (T, T) -> Ordering): Option<T> {
    if !filter(d) then favorite
    else if favorite.None? || pref(d, favorite.value) == Greater then Some(d)
    else favorite
  }

  /** The favourite after one more candidate depends only on the favourite
      before it and on that candidate: a candidate that fails the filter
      leaves it unchanged, and a passing one takes over only when it is
      strictly preferred. */
  lemma FirstMaxAppend<T>(s: seq<T>, d: T, filter: T -> bool, pref: (T, T) -> Ordering)
    ensures FirstMax(s + [d], filter, pref) == FirstMaxStep(FirstMax(s, filter, pref), d, filter, pref)
    ensures !filter(d) ==> FirstMaxIndex(s + [d], filter, pref) == FirstMaxIndex(s, filter, pref)
  {
    assert (s + [d])[..|s|] == s;
  }

  /** Removing a candidate that fails the filter, wherever it stands in the
      enumeration, does not change the chosen candidate. */
  lemma {:induction false} FirstMaxIgnoresRejected<T>(s1: seq<T>, d: T, s2: seq<T>, filter: T -> bool, pref: (T, T) -> Ordering)
    requires !filter(d)
    ensures FirstMax(s1 + [d] + s2, filter, pref) == FirstMax(s1 + s2, filter, pref)
    decreases |s2|
  {
    if s2 == [] {
      assert s1 + [d] + s2 == s1 + [d];
      assert s1 + s2 == s1;
      FirstMaxAppend(s1, d, filter, pref);
    } else {
      var init, e := s2[..|s2| - 1], s2[|s2| - 1];
      assert s2 == init + [e];
      FirstMaxIgnoresRejected(s1, d, init, filter, pref);
      assert s1 + [d] + s2 == (s1 + [d] + init) + [e];
      assert s1 + s2 == (s1 + init) + [e];
      FirstMaxAppend(s1 + [d] + init, e, filter, pref);
      FirstMaxAppend(s1 + init, e, filter, pref);
    }
  }

  /** Independent description of the physical-device choice among the first
      `n` candidates: `k` passes the filter, no passing candidate is
      strictly preferred to it, and every passing candidate enumerated
      before it is strictly less preferred (so ties go to the earliest). */
  ghost predicate IsFirstBestAmong<T>(s: seq<T>, n: nat, filter: T -> bool, pref: (T, T) -> Ordering, k: nat) {
    && k < n <= |s| && filter(s[k])
    && (forall j :: 0 <= j < n && filter(s[j]) ==> pref(s[j], s[k]) != Greater)
    && (forall j :: 0 <= j < k && filter(s[j]) ==> pref(s[k], s[j]) == Greater)
  }

  /** Independent description of the `max_by` choice among the first `n`
      candidates: as `IsFirstBestAmong`, but every passing candidate
      enumerated AFTER it is strictly less preferred (so ties go to the
      latest). */
  ghost predicate IsLastBestAmong<T>(s: seq<T>, n: nat, filter: T -> bool, pref: (T, T) -> Ordering, k: nat) {
    && k < n <= |s| && filter(s[k])
    && (forall j :: 0 <= j < n && filter(s[j]) ==> pref(s[j], s[k]) != Greater)
    && (forall j :: k < j < n && filter(s[j]) ==> pref(s[k], s[j]) == Greater)
  }

  ghost predicate IsFirstBest<T>(s: seq<T>, filter: T -> bool, pref: (T, T) -> Ordering, k: nat) {
    IsFirstBestAmong(s, |s|, filter, pref, k)
  }

  ghost predicate IsLastBest<T>(s: seq<T>, filter: T -> bool, pref: (T, T) -> Ordering, k: nat) {
    IsLastBestAmong(s, |s|, filter, pref, k)
  }

  /** The physical-device fold over the first `n` candidates, unfolded once. */
  lemma FirstMaxPrefixStep<T>(s: seq<T>, filter: T -> bool, pref: (T, T) -> Ordering, n: nat)
    requires 0 < n <= |s|
    ensures var prev := FirstMaxIndex(s[..n - 1], filter, pref);
      FirstMaxIndex(s[..n], filter, pref) ==
        if !filter(s[n - 1]) then prev
        else if prev.None? || pref(s[n - 1], s[prev.value]) == Greater then Some(n - 1)
        else prev
  {
    assert s[..n][..n - 1] == s[..n - 1];
  }

  /** The `max_by` fold over the first `n` candidates, unfolded once. */
  lemma LastMaxPrefixStep<T>(s: seq<T>, filter: T -> bool, pref: (T, T) -> Ordering, n: nat)
    requires 0 < n <= |s|
    ensures var prev := LastMaxIndex(s[..n - 1], filter, pref);
      LastMaxIndex(s[..n], filter, pref) ==
        if !filter(s[n - 1]) then prev
        else if prev.None? || pref(s[prev.value], s[n - 1]) != Greater then Some(n - 1)
        else prev
  {
    assert s[..n][..n - 1] == s[..n - 1];
  }

  /** A passing candidate strictly preferred to the first best of the first
      `n` candidates is the first best of the first `n + 1`. */
  lemma FirstBestTakeover<T>(s: seq<T>, filter: T -> bool, pref: (T, T) -> Ordering, n: nat, k: nat)
    requires n < |s| && ConsistentOn(s, pref)
    requires IsFirstBestAmong(s, n, filter, pref, k)
    requires filter(s[n]) && pref(s[n], s[k]) == Greater
    ensures IsFirstBestAmong(s, n + 1, filter, pref, n)
  {
    forall j | 0 <= j < n && filter(s[j])
      ensures pref(s[n], s[j]) == Greater
    {
      assert pref(s[j], s[k]) != Greater;
      assert pref(s[k], s[j]) != Less;
      assert pref(s[j], s[n]) == Less;
    }
  }

  /** A passing candidate not strictly preferred to the first best of the
      first `n` candidates leaves it the first best of the first `n + 1`. */
  lemma FirstBestKept<T>(s: seq<T>, filter: T -> bool, pref: (T, T) -> Ordering, n: nat, k: nat)
    requires n < |s|
    requires IsFirstBestAmong(s, n, filter, pref, k)
    requires !filter(s[n]) || pref(s[n], s[k]) != Greater
    ensures IsFirstBestAmong(s, n + 1, filter, pref, k)
  {
  }

  /** A passing candidate at least as preferred as the last best of the
      first `n` candidates is the last best of the first `n + 1`. */
  lemma LastBestTakeover<T>(s: seq<T>, filter: T -> bool, pref: (T, T) -> Ordering, n: nat, k: nat)
    requires n < |s| && ConsistentOn(s, pref)
    requires IsLastBestAmong(s, n, filter, pref, k)
    requires filter(s[n]) && pref(s[k], s[n]) != Greater
    ensures IsLastBestAmong(s, n + 1, filter, pref, n)
  {
    forall j | 0 <= j < n && filter(s[j])
      ensures pref(s[j], s[n]) != Greater
    {
      assert pref(s[j], s[k]) != Greater;
      assert pref(s[k], s[j]) != Less;
      assert pref(s[n], s[k]) != Less;
      assert pref(s[n], s[j]) != Less;
    }
  }

  /** A passing candidate that the last best of the first `n` candidates is
      strictly preferred to leaves it the last best of the first `n + 1`. */
  lemma LastBestKept<T>(s: seq<T>, filter: T -> bool, pref: (T, T) -> Ordering, n: nat, k: nat)
    requires n < |s| && ConsistentOn(s, pref)
    requires IsLastBestAmong(s, n, filter, pref, k)
    requires !filter(s[n]) || pref(s[k], s[n]) == Greater
    ensures IsLastBestAmong(s, n + 1, filter, pref, k)
  {
    if filter(s[n]) {
      assert pref(s[n], s[k]) == Less;
    }
  }

  /** The first of the first `n + 1` candidates to pass, when none of the
      first `n` does, is the best of both kinds. */
  lemma OnlyPassing<T>(s: seq<T>, filter: T -> bool, pref: (T, T) -> Ordering, n: nat)
    requires n < |s| && ConsistentOn(s, pref) && filter(s[n])
    requires forall j :: 0 <= j < n ==> !filter(s[..n][j])
    ensures IsFirstBestAmong(s, n + 1, filter, pref, n)
    ensures IsLastBestAmong(s, n + 1, filter, pref, n)
  {
    forall j | 0 <= j < n
      ensures !filter(s[j])
    {
      assert s[..n][j] == s[j];
    }
    assert pref(s[n], s[n]) != Greater;
  }

  /** The physical-device fold over the first `n` candidates meets
      `IsFirstBestAmong`, when `pref` is consistent on the whole sequence. */
  lemma {:induction false} FirstMaxPrefixIsBest<T>(s: seq<T>, filter: T -> bool, pref: (T, T) -> Ordering, n: nat)
    requires n <= |s| && ConsistentOn(s, pref)
    requires FirstMaxIndex(s[..n], filter, pref).Some?
    ensures IsFirstBestAmong(s, n, filter, pref, FirstMaxIndex(s[..n], filter, pref).value)
  {
    FirstMaxPrefixStep(s, filter, pref, n);
    var prev := FirstMaxIndex(s[..n - 1], filter, pref);
    if prev.None? {
      OnlyPassing(s, filter, pref, n - 1);
    } else {
      FirstMaxPrefixIsBest(s, filter, pref, n - 1);
      if filter(s[n - 1]) && pref(s[n - 1], s[prev.value]) == Greater {
        FirstBestTakeover(s, filter, pref, n - 1, prev.value);
      } else {
        FirstBestKept(s, filter, pref, n - 1, prev.value);
      }
    }
  }

  /** The `max_by` fold over the first `n` candidates meets
      `IsLastBestAmong`, when `pref` is consistent on the whole sequence. */
  lemma {:induction false} LastMaxPrefixIsBest<T>(s: seq<T>, filter: T -> bool, pref: (T, T) -> Ordering, n: nat)
    requires n <= |s| && ConsistentOn(s, pref)
    requires LastMaxIndex(s[..n], filter, pref).Some?
    ensures IsLastBestAmong(s, n, filter, pref, LastMaxIndex(s[..n], filter, pref).value)
  {
    LastMaxPrefixStep(s, filter, pref, n);
    var prev := LastMaxIndex(s[..n - 1], filter, pref);
    if prev.None? {
      OnlyPassing(s, filter, pref, n - 1);
    } else {
      LastMaxPrefixIsBest(s, filter, pref, n - 1);
      if filter(s[n - 1]) && pref(s[prev.value], s[n - 1]) != Greater {
        LastBestTakeover(s, filter, pref, n - 1, prev.value);
      } else {
        LastBestKept(s, filter, pref, n - 1, prev.value);
      }
    }
  }

  /** With a consistent preference, the physical-device choice is a first
      best candidate: nothing passing is strictly preferred to it, and it is
      strictly preferred to every passing candidate before it. */
  lemma FirstMaxIsBest<T>(s: seq<T>, filter: T -> bool, pref: (T, T) -> Ordering)
    requires ConsistentOn(s, pref)
    requires FirstMaxIndex(s, filter, pref).Some?
    ensures IsFirstBest(s, filter, pref, FirstMaxIndex(s, filter, pref).value)
  {
    assert s[..|s|] == s;
    FirstMaxPrefixIsBest(s, filter, pref, |s|);
  }

  /** With a consistent preference, the `max_by` choice is a last best
      candidate: nothing passing is strictly preferred to it, and it is
      strictly preferred to every passing candidate after it. */
  lemma LastMaxIsBest<T>(s: seq<T>, filter: T -> bool, pref: (T, T) -> Ordering)
    requires ConsistentOn(s, pref)
    requires LastMaxIndex(s, filter, pref).Some?
    ensures IsLastBest(s, filter, pref, LastMaxIndex(s, filter, pref).value)
  {
    assert s[..|s|] == s;
    LastMaxPrefixIsBest(s, filter, pref, |s|);
  }

  /** The independent descriptions pin the index down: at most one index is
      a first best candidate. */
  lemma FirstBestUnique<T>(s: seq<T>, filter: T -> bool, pref: (T, T) -> Ordering, k1: nat, k2: nat)
    requires ConsistentOn(s, pref)
    requires IsFirstBest(s, filter, pref, k1) && IsFirstBest(s, filter, pref, k2)
    ensures k1 == k2
  {
  }

  /** At most one index is a last best candidate. */
  lemma LastBestUnique<T>(s: seq<T>, filter: T -> bool, pref: (T, T) -> Ordering, k1: nat, k2: nat)
    requires ConsistentOn(s, pref)
    requires IsLastBest(s, filter, pref, k1) && IsLastBest(s, filter, pref, k2)
    ensures k1 == k2
  {
  }

  /** When no two distinct passing candidates are equally preferred, the two
      tie-breaks agree. */
  lemma TieFreeSelectionsAgree<T>(s: seq<T>, filter: T -> bool, pref: (T, T) -> Ordering)
    requires ConsistentOn(s, pref)
    requires forall i, j :: 0 <= i < |s| && 0 <= j < |s| && i != j && filter(s[i]) && filter(s[j]) ==>
               pref(s[i], s[j]) != Equal
    ensures FirstMaxIndex(s, filter, pref) == LastMaxIndex(s, filter, pref)
  {
    var f, l := FirstMaxIndex(s, filter, pref), LastMaxIndex(s, filter, pref);
    if f.Some? {
      FirstMaxIsBest(s, filter, pref);
      LastMaxIsBest(s, filter, pref);
    }
  }

  /** The two tie-breaks differ: of two equally preferred passing
      candidates, the device loop keeps the first and `max_by` the last. */
  lemma TieBreaksDiffer()
    ensures FirstMaxIndex([10, 20], (x: int) => true, (x: int, y: int) => Equal) == Some(0)
    ensures LastMaxIndex([10, 20], (x: int) => true, (x: int, y: int) => Equal) == Some(1)
  {
    var s := [10, 20];
    assert s[..1] == [10];
    assert s[..1][..0] == [];
  }
}
