/**
 Stable sorting by a key and filtering, as `sort_by_key` and `retain` do them, with the
 declarative characterisation that determines the result.
 */
module StableSort {

  /** The elements of s with key k, in order. */
  function WithKey<T>(s: seq<T>, key: T -> int, k: int): seq<T> {
    if s == [] then []
    else (if key(s[0]) == k then [s[0]] else []) + WithKey(s[1..], key, k)
  }

  ghost predicate Sorted<T>(s: seq<T>, key: T -> int) {
    forall i, j :: 0 <= i < j < |s| ==> key(s[i]) <= key(s[j])
  }

  /** r is ordered by key and keeps the elements of s, those of equal key in their order. */
  ghost predicate StablySorts<T>(r: seq<T>, s: seq<T>, key: T -> int) {
    Sorted(r, key) && forall k :: WithKey(r, key, k) == WithKey(s, key, k)
  }

  function SortByKey<T>(s: seq<T>, key: T -> int): seq<T> {
    if s == [] then [] else Insert(s[0], SortByKey(s[1..], key), key)
  }

  function Insert<T>(x: T, s: seq<T>, key: T -> int): seq<T> {
    if s == [] || key(x) <= key(s[0]) then [x] + s else [s[0]] + Insert(x, s[1..], key)
  }

  function Retain<T>(s: seq<T>, keep: T -> bool): seq<T> {
    if s == [] then []
    else (if keep(s[0]) then [s[0]] else []) + Retain(s[1..], keep)
  }

  // ----- SortByKey meets the characterisation

  lemma {:induction false} InsertKeepsOrder<T>(x: T, s: seq<T>, key: T -> int)
    requires Sorted(s, key)
    ensures Sorted(Insert(x, s, key), key)
    ensures forall y <- Insert(x, s, key) :: y == x || y in s
  {
    if s == [] || key(x) <= key(s[0]) {
      SortedCons(x, s, key);
    } else {
      InsertKeepsOrder(x, s[1..], key);
      SortedCons(s[0], Insert(x, s[1..], key), key);
    }
  }

  lemma SortedCons<T>(x: T, s: seq<T>, key: T -> int)
    requires Sorted(s, key)
    requires forall y <- s :: key(x) <= key(y)
    ensures Sorted([x] + s, key)
  {
    forall i, j | 0 <= i < j < |[x] + s| ensures key(([x] + s)[i]) <= key(([x] + s)[j]) {
      assert ([x] + s)[j] == s[j - 1];
      assert s[j - 1] in s;
    }
  }

  /** An element is inserted in front of those of its own key, so it passes only others. */
  lemma {:induction false} InsertIsStable<T>(x: T, s: seq<T>, key: T -> int, k: int)
    ensures WithKey(Insert(x, s, key), key, k) == WithKey([x] + s, key, k)
  {
    if s != [] && key(x) > key(s[0]) {
      var rest := s[1..];
      InsertIsStable(x, rest, key, k);
      SwapIsStable(x, s[0], rest, Insert(x, rest, key), key, k);
      assert [s[0]] + rest == s;
    }
  }

  lemma WithKeyCons<T>(x: T, s: seq<T>, key: T -> int, k: int)
    ensures WithKey([x] + s, key, k) == (if key(x) == k then [x] else []) + WithKey(s, key, k)
  {
    assert ([x] + s)[1..] == s;
  }

  lemma SwapIsStable<T>(x: T, y: T, s: seq<T>, r: seq<T>, key: T -> int, k: int)
    requires key(x) != key(y) && WithKey(r, key, k) == WithKey([x] + s, key, k)
    ensures WithKey([y] + r, key, k) == WithKey([x] + ([y] + s), key, k)
  {
    WithKeyCons(y, r, key, k);
    WithKeyCons(x, s, key, k);
    WithKeyCons(x, [y] + s, key, k);
    WithKeyCons(y, s, key, k);
    hide WithKey;
    var others := WithKey(s, key, k);
    assert [] + others == others && [] + ([x] + others) == [x] + others && [] + ([y] + others) == [y] + others;
  }

  lemma {:induction false} SortByKeyStablySorts<T>(s: seq<T>, key: T -> int)
    ensures StablySorts(SortByKey(s, key), s, key)
  {
    if s != [] {
      var rest := SortByKey(s[1..], key);
      SortByKeyStablySorts(s[1..], key);
      InsertKeepsOrder(s[0], rest, key);
      forall k ensures WithKey(SortByKey(s, key), key, k) == WithKey(s, key, k) {
        InsertIsStable(s[0], rest, key, k);
        assert ([s[0]] + rest)[1..] == rest;
      }
    }
  }

  // ----- The same by positions

  /** `list` consists of the elements of s at the given positions. */
  ghost predicate PicksAt<T>(list: seq<T>, s: seq<T>, at: seq<nat>) {
    && |at| == |list|
    && forall i :: 0 <= i < |at| ==> at[i] < |s| && list[i] == s[at[i]]
  }

  ghost predicate Increasing(at: seq<nat>) {
    forall i, j :: 0 <= i < j < |at| ==> at[i] < at[j]
  }

  lemma {:induction false} InsertSplits<T>(x: T, s: seq<T>, key: T -> int) returns (p: nat)
    ensures p <= |s| && Insert(x, s, key) == s[..p] + [x] + s[p..]
    ensures forall i :: 0 <= i < p ==> key(s[i]) < key(x)
    ensures p < |s| ==> key(x) <= key(s[p])
  {
    if s == [] || key(x) <= key(s[0]) {
      p := 0;
    } else {
      var q := InsertSplits(x, s[1..], key);
      p := q + 1;
      assert s == [s[0]] + s[1..];
      assert s[..p] == [s[0]] + s[1..][..q] && s[p..] == s[1..][q..];
    }
  }

  /** By smaller key first, and then by earlier position. */
  ghost predicate Ranked<T>(r: seq<T>, at: seq<nat>, key: T -> int)
    requires |at| == |r|
  {
    forall i, j :: 0 <= i < j < |r| ==> key(r[i]) < key(r[j]) || (key(r[i]) == key(r[j]) && at[i] < at[j])
  }

  ghost predicate Covers(at: seq<nat>, n: nat) {
    forall t: nat :: t < n ==> t in at
  }

  function Shifted(at: seq<nat>): (up: seq<nat>)
    ensures |up| == |at| && forall i :: 0 <= i < |at| ==> up[i] == at[i] + 1
  {
    seq(|at|, i requires 0 <= i < |at| => at[i] + 1)
  }

  lemma ShiftedContains(at: seq<nat>, t: nat)
    ensures t in Shifted(at) <==> t > 0 && t - 1 in at
  {
    if t > 0 && t - 1 in at {
      var i :| 0 <= i < |at| && at[i] == t - 1;
      assert Shifted(at)[i] == t;
    }
  }

  /** The sort moves every position once, by smaller key first and then by earlier position. */
  lemma {:induction false} SortPositions<T>(s: seq<T>, key: T -> int) returns (at: seq<nat>)
    ensures PicksAt(SortByKey(s, key), s, at)
    ensures Covers(at, |s|) && Ranked(SortByKey(s, key), at, key)
  {
    if s == [] {
      at := [];
    } else {
      var rest := SortByKey(s[1..], key);
      var before := SortPositions(s[1..], key);
      SortByKeyStablySorts(s[1..], key);
      var p := InsertSplits(s[0], rest, key);
      var up := Shifted(before);
      at := up[..p] + [0] + up[p..];
      hide Ranked, Covers, Shifted, SortByKey, Insert, StablySorts, Sorted, PicksAt;
      assert |rest| == |before| by { PicksAsMany(rest, s[1..], before); }
      CoversAfterShift(before, p, |s| - 1);
      RankedAfterInsert(s[0], rest, before, p, key);
      PicksAfterInsert(s, rest, before, p);
    }
  }

  lemma PicksAsMany<T>(list: seq<T>, s: seq<T>, at: seq<nat>)
    requires PicksAt(list, s, at)
    ensures |list| == |at|
  {
  }

  lemma PicksAfterInsert<T>(s: seq<T>, rest: seq<T>, before: seq<nat>, p: nat)
    requires s != [] && PicksAt(rest, s[1..], before) && p <= |rest|
    ensures var up := Shifted(before);
            PicksAt(rest[..p] + [s[0]] + rest[p..], s, up[..p] + [0] + up[p..])
  {
    var up := Shifted(before);
    var r, at := rest[..p] + [s[0]] + rest[p..], up[..p] + [0] + up[p..];
    forall i | 0 <= i < |at| ensures at[i] < |s| && r[i] == s[at[i]] {
      if i != p {
        var k := if i < p then i else i - 1;
        assert r[i] == rest[k] && at[i] == up[k] == before[k] + 1;
        assert rest[k] == s[1..][before[k]] == s[at[i]];
      }
    }
  }

  lemma CoversAfterShift(before: seq<nat>, p: nat, n: nat)
    requires p <= |before| && Covers(before, n)
    ensures Covers(Shifted(before)[..p] + [0] + Shifted(before)[p..], n + 1)
  {
    var up := Shifted(before);
    forall t: nat | t < n + 1 ensures t in up[..p] + [0] + up[p..] {
      ShiftedContains(before, t);
      assert up == up[..p] + up[p..];
    }
  }

  lemma RankedAfterInsert<T>(x: T, rest: seq<T>, before: seq<nat>, p: nat, key: T -> int)
    requires |before| == |rest| && p <= |rest| && Ranked(rest, before, key)
    requires forall i :: 0 <= i < p ==> key(rest[i]) < key(x)
    requires p < |rest| ==> key(x) <= key(rest[p])
    ensures var up := Shifted(before);
            Ranked(rest[..p] + [x] + rest[p..], up[..p] + [0] + up[p..], key)
  {
    var up := Shifted(before);
    var r, at := rest[..p] + [x] + rest[p..], up[..p] + [0] + up[p..];
    forall i, j | 0 <= i < j < |r|
      ensures key(r[i]) < key(r[j]) || (key(r[i]) == key(r[j]) && at[i] < at[j])
    {
      var i', j' := if i > p then i - 1 else i, if j > p then j - 1 else j;
      if i != p {
        assert r[i] == rest[i'] && at[i] == up[i'];
      }
      if j != p {
        assert r[j] == rest[j'] && at[j] == up[j'];
      }
      if i == p && p < j' {
        assert key(rest[p]) <= key(rest[j']);
      }
    }
  }

  lemma {:induction false} RetainAppends<T>(s: seq<T>, x: T, keep: T -> bool)
    ensures Retain(s + [x], keep) == Retain(s, keep) + (if keep(x) then [x] else [])
  {
    if s == [] {
      assert s + [x] == [x] && [x][1..] == [];
    } else {
      assert (s + [x])[1..] == s[1..] + [x];
      RetainAppends(s[1..], x, keep);
      var first, last := if keep(s[0]) then [s[0]] else [], if keep(x) then [x] else [];
      assert first + (Retain(s[1..], keep) + last) == (first + Retain(s[1..], keep)) + last;
    }
  }

  /** Filtering keeps exactly the positions whose element it keeps, in order. */
  lemma {:induction false} RetainPositions<T>(s: seq<T>, keep: T -> bool) returns (at: seq<nat>)
    ensures PicksAt(Retain(s, keep), s, at) && Increasing(at)
    ensures forall t: nat :: t in at <==> t < |s| && keep(s[t])
  {
    if s == [] {
      at := [];
    } else {
      var front, n := s[..|s| - 1], |s| - 1;
      at := RetainPositions(front, keep);
      RetainAppends(front, s[n], keep);
      assert front + [s[n]] == s;
      hide Retain;
      assert Retain(s, keep) == Retain(front, keep) + (if keep(s[n]) then [s[n]] else []);
      assert forall t: nat :: t in at ==> t < n;
      if keep(s[n]) {
        at := at + [n];
      }
    }
  }

  // ----- The characterisation determines the result

  lemma {:induction false} KeyIsPresent<T>(s: seq<T>, key: T -> int, i: nat)
    requires i < |s|
    ensures s[i] in WithKey(s, key, key(s[i]))
  {
    if i > 0 {
      KeyIsPresent(s[1..], key, i - 1);
    }
  }

  lemma {:induction false} WithKeySelects<T>(s: seq<T>, key: T -> int, k: int)
    ensures forall x <- WithKey(s, key, k) :: x in s && key(x) == k
  {
    if s != [] {
      WithKeySelects(s[1..], key, k);
    }
  }

  lemma SmallestKeysAgree<T>(r: seq<T>, r': seq<T>, key: T -> int)
    requires r != [] && Sorted(r', key)
    requires forall k :: WithKey(r, key, k) == WithKey(r', key, k)
    ensures r' != [] && key(r'[0]) <= key(r[0])
  {
    KeyIsPresent(r, key, 0);
    WithKeySelects(r', key, key(r[0]));
    var x :| x in r' && key(x) == key(r[0]);
  }

  lemma {:induction false} StableSortIsUnique<T>(r: seq<T>, r': seq<T>, s: seq<T>, key: T -> int)
    requires StablySorts(r, s, key) && StablySorts(r', s, key)
    ensures r == r'
  {
    if r == [] {
      if r' != [] {
        SmallestKeysAgree(r', r, key);
      }
    } else {
      SmallestKeysAgree(r, r', key);
      SmallestKeysAgree(r', r, key);
      var k0 := key(r[0]);
      assert r[0] == WithKey(r, key, k0)[0] == WithKey(r', key, k0)[0] == r'[0];
      forall k ensures WithKey(r'[1..], key, k) == WithKey(r[1..], key, k) {
        var d := if k == k0 then 1 else 0;
        assert WithKey(r[1..], key, k) == WithKey(r, key, k)[d..];
        assert WithKey(r'[1..], key, k) == WithKey(r', key, k)[d..];
      }
      StableSortIsUnique(r[1..], r'[1..], r[1..], key);
      assert r == [r[0]] + r[1..] && r' == [r'[0]] + r'[1..];
    }
  }

  // ----- Sorting again after a push, and filtering a sorted list

  lemma {:induction false} WithKeyAppends<T>(s: seq<T>, x: T, key: T -> int, k: int)
    ensures WithKey(s + [x], key, k) == WithKey(s, key, k) + (if key(x) == k then [x] else [])
  {
    if s == [] {
      assert s + [x] == [x] && [x][1..] == [];
    } else {
      assert (s + [x])[1..] == s[1..] + [x];
      WithKeyAppends(s[1..], x, key, k);
      var first, last := if key(s[0]) == k then [s[0]] else [], if key(x) == k then [x] else [];
      assert first + (WithKey(s[1..], key, k) + last) == (first + WithKey(s[1..], key, k)) + last;
    }
  }

  /** Re-sorting a sorted list after a push is sorting the whole insertion order once. */
  lemma ResortAfterPush<T>(s: seq<T>, x: T, key: T -> int)
    ensures SortByKey(SortByKey(s, key) + [x], key) == SortByKey(s + [x], key)
  {
    var sorted := SortByKey(s, key);
    SortByKeyStablySorts(s, key);
    SortByKeyStablySorts(sorted + [x], key);
    SortByKeyStablySorts(s + [x], key);
    forall k ensures WithKey(sorted + [x], key, k) == WithKey(s + [x], key, k) {
      WithKeyAppends(sorted, x, key, k);
      WithKeyAppends(s, x, key, k);
    }
    StableSortIsUnique(SortByKey(sorted + [x], key), SortByKey(s + [x], key), s + [x], key);
  }

  lemma {:induction false} RetainSelects<T>(s: seq<T>, keep: T -> bool)
    ensures forall x <- Retain(s, keep) :: x in s && keep(x)
    ensures forall x <- s :: keep(x) ==> x in Retain(s, keep)
    ensures |Retain(s, keep)| <= |s|
    ensures |Retain(s, keep)| == |s| <==> forall x <- s :: keep(x)
  {
    if s != [] {
      RetainSelects(s[1..], keep);
      assert s == [s[0]] + s[1..];
    }
  }

  lemma {:induction false} RetainKeepsOrder<T>(s: seq<T>, keep: T -> bool, key: T -> int)
    requires Sorted(s, key)
    ensures Sorted(Retain(s, keep), key)
  {
    if s != [] {
      var rest := Retain(s[1..], keep);
      RetainKeepsOrder(s[1..], keep, key);
      RetainSelects(s[1..], keep);
      forall y <- rest ensures key(s[0]) <= key(y) {
        assert y in s[1..];
        var j :| 0 <= j < |s[1..]| && s[1..][j] == y;
        assert y == s[j + 1];
      }
      SortedCons(s[0], rest, key);
      assert [] + rest == rest;
    }
  }

  lemma {:induction false} RetainCommutes<T>(s: seq<T>, keep: T -> bool, key: T -> int, k: int)
    ensures WithKey(Retain(s, keep), key, k) == Retain(WithKey(s, key, k), keep)
  {
    if s != [] {
      RetainCommutes(s[1..], keep, key, k);
      var rest, tail := Retain(s[1..], keep), WithKey(s[1..], key, k);
      assert ([s[0]] + rest)[1..] == rest && [] + rest == rest;
      assert ([s[0]] + tail)[1..] == tail && [] + tail == tail;
      assert [] + WithKey(rest, key, k) == WithKey(rest, key, k);
    }
  }

  /** Filtering commutes with sorting. */
  lemma RetainAfterSort<T>(s: seq<T>, keep: T -> bool, key: T -> int)
    ensures Retain(SortByKey(s, key), keep) == SortByKey(Retain(s, keep), key)
  {
    var sorted := SortByKey(s, key);
    SortByKeyStablySorts(s, key);
    SortByKeyStablySorts(Retain(s, keep), key);
    RetainKeepsOrder(sorted, keep, key);
    forall k ensures WithKey(Retain(sorted, keep), key, k) == WithKey(Retain(s, keep), key, k) {
      RetainCommutes(sorted, keep, key, k);
      RetainCommutes(s, keep, key, k);
    }
    StableSortIsUnique(Retain(sorted, keep), SortByKey(Retain(s, keep), key), Retain(s, keep), key);
  }
}
