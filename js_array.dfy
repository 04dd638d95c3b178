/** The two JavaScript array primitives the popup's logic is built from:
    `Array.prototype.filter` (order-preserving selection) and
    `Array.prototype.sort` with a "descending by a numeric key" comparator,
    which the language requires to be stable. */
module JsArray {

  /** `s.filter(f)`: the elements of `s` that satisfy `f`, in their original order.
      Defined as a left fold, the order in which `filter` visits the array. */
  function Filter<T>(s: seq<T>, f: T -> bool): (r: seq<T>)
    ensures |r| <= |s|
    ensures multiset(r) <= multiset(s)
  {
    if s == [] then []
    else
      var init := Filter(s[..|s| - 1], f);
      assert s == s[..|s| - 1] + [s[|s| - 1]];
      if f(s[|s| - 1]) then init + [s[|s| - 1]] else init
  }

  /** An element is kept exactly when it is in `s` and passes `f`. */
  lemma {:induction false} FilterMembers<T>(s: seq<T>, f: T -> bool)
    ensures forall i :: 0 <= i < |Filter(s, f)| ==> Filter(s, f)[i] in s && f(Filter(s, f)[i])
    ensures forall i :: 0 <= i < |s| && f(s[i]) ==> s[i] in Filter(s, f)
  {
    if s != [] {
      var s' := s[..|s| - 1];
      FilterMembers(s', f);
      FilterDropLast(s, f);
      forall i | 0 <= i < |Filter(s, f)| ensures Filter(s, f)[i] in s && f(Filter(s, f)[i]) {
        if i < |Filter(s', f)| {
          assert Filter(s, f)[i] == Filter(s', f)[i];
        }
      }
      forall i | 0 <= i < |s| && f(s[i]) ensures s[i] in Filter(s, f) {
        if i < |s'| {
          assert s'[i] == s[i];
        }
      }
    }
  }

  /** Every element of the sorted filter is an element of `s` that passes `f`. */
  lemma SortedFilterMembers<T>(s: seq<T>, f: T -> bool, key: T -> nat)
    ensures forall x :: x in SortDesc(Filter(s, f), key) ==> x in s && f(x)
  {
    var fs := Filter(s, f);
    FilterMembers(s, f);
    forall x | x in SortDesc(fs, key) ensures x in s && f(x) {
      assert x in multiset(fs);
      var j :| 0 <= j < |fs| && fs[j] == x;
    }
  }

  /** Every element of `s` that passes `f` is in the sorted filter. */
  lemma SortedFilterKeeps<T>(s: seq<T>, f: T -> bool, key: T -> nat)
    ensures forall x :: x in s && f(x) ==> x in SortDesc(Filter(s, f), key)
  {
    var fs := Filter(s, f);
    FilterMembers(s, f);
    forall x | x in s && f(x) ensures x in SortDesc(fs, key) {
      var j :| 0 <= j < |s| && s[j] == x;
      assert x in multiset(fs);
    }
  }

  /** Filtering distributes over concatenation: it never reorders. */
  lemma {:induction false} FilterConcat<T>(a: seq<T>, b: seq<T>, f: T -> bool)
    ensures Filter(a + b, f) == Filter(a, f) + Filter(b, f)
  {
    if b == [] {
      assert a + b == a;
    } else {
      var b', x := b[..|b| - 1], b[|b| - 1];
      assert (a + b)[..|a + b| - 1] == a + b';
      assert (a + b)[|a + b| - 1] == x;
      FilterConcat(a, b', f);
    }
  }

  /** Filtering a one-element sequence. */
  lemma FilterSingleton<T>(x: T, f: T -> bool)
    ensures Filter([x], f) == if f(x) then [x] else []
  {
    assert [x][..0] == [];
  }

  /** Filtering out one element that fails `f` joins what is kept on either side of it. */
  lemma FilterSplit<T>(a: seq<T>, x: T, b: seq<T>, f: T -> bool)
    requires !f(x)
    ensures Filter(a + [x] + b, f) == Filter(a, f) + Filter(b, f)
  {
    FilterConcat(a + [x], b, f);
    FilterConcat(a, [x], f);
    FilterSingleton(x, f);
  }

  /** A filter that every element passes keeps the whole sequence. */
  lemma {:induction false} FilterAll<T>(s: seq<T>, f: T -> bool)
    requires forall i :: 0 <= i < |s| ==> f(s[i])
    ensures Filter(s, f) == s
  {
    if s != [] {
      FilterAll(s[..|s| - 1], f);
      assert s == s[..|s| - 1] + [s[|s| - 1]];
    }
  }

  /** Two filters with the same verdict on every element give the same result. */
  lemma {:induction false} FilterSameVerdict<T>(s: seq<T>, f: T -> bool, g: T -> bool)
    requires forall i :: 0 <= i < |s| ==> f(s[i]) == g(s[i])
    ensures Filter(s, f) == Filter(s, g)
  {
    if s != [] {
      FilterSameVerdict(s[..|s| - 1], f, g);
    }
  }

  /** Applying two filters one after the other does not depend on their order. */
  lemma {:induction false} FilterCommutes<T>(s: seq<T>, f: T -> bool, g: T -> bool)
    ensures Filter(Filter(s, f), g) == Filter(Filter(s, g), f)
  {
    if s != [] {
      var s', x := s[..|s| - 1], s[|s| - 1];
      FilterCommutes(s', f, g);
      FilterConcat(Filter(s', f), if f(x) then [x] else [], g);
      FilterConcat(Filter(s', g), if g(x) then [x] else [], f);
      FilterSingleton(x, f);
      FilterSingleton(x, g);
    }
  }

  /** The predicate "the key of this element is `k`". */
  function KeyIs<T>(key: T -> nat, k: nat): T -> bool
  {
    x => key(x) == k
  }

  /** `s` is ordered by non-increasing key. */
  ghost predicate SortedDesc<T>(s: seq<T>, key: T -> nat)
  {
    forall i, j :: 0 <= i < j < |s| ==> key(s[i]) >= key(s[j])
  }

  /** `r` is a stable rearrangement of `s`: for every key value, the elements
      carrying that key appear in `r` in exactly the order they have in `s`. */
  ghost predicate StableFor<T>(r: seq<T>, s: seq<T>, key: T -> nat)
  {
    forall k: nat :: Filter(r, KeyIs(key, k)) == Filter(s, KeyIs(key, k))
  }

  /** Places `x` after every element of `t` whose key is at least `key(x)`. */
  function InsertDesc<T>(t: seq<T>, x: T, key: T -> nat): (r: seq<T>)
    ensures |r| == |t| + 1
    ensures multiset(r) == multiset(t) + multiset{x}
  {
    if t == [] || key(t[|t| - 1]) >= key(x) then t + [x]
    else
      var t', last := t[..|t| - 1], t[|t| - 1];
      assert t == t' + [last];
      InsertDesc(t', x, key) + [last]
  }

  /** Inserting into a sequence in descending order keeps it in descending order. */
  lemma {:induction false} InsertDescSorted<T>(t: seq<T>, x: T, key: T -> nat)
    requires SortedDesc(t, key)
    ensures SortedDesc(InsertDesc(t, x, key), key)
  {
    if t == [] || key(t[|t| - 1]) >= key(x) {
      AppendSmallest(t, x, key);
    } else {
      var t', last := t[..|t| - 1], t[|t| - 1];
      assert t == t' + [last];
      InsertDescSorted(t', x, key);
      var r' := InsertDesc(t', x, key);
      forall i | 0 <= i < |r'| ensures key(r'[i]) >= key(last) {
        InsertedAtLeast(t, x, key, r'[i]);
      }
      AppendSmallest(r', last, key);
    }
  }

  /** An element of the insertion into the front of `t` has a key no smaller than
      the last element of `t`, which is smaller than `key(x)`. */
  lemma InsertedAtLeast<T>(t: seq<T>, x: T, key: T -> nat, y: T)
    requires SortedDesc(t, key) && t != [] && key(t[|t| - 1]) < key(x)
    requires y in multiset(InsertDesc(t[..|t| - 1], x, key))
    ensures key(y) >= key(t[|t| - 1])
  {
    if y != x {
      assert y in multiset(t[..|t| - 1]);
      var j :| 0 <= j < |t| - 1 && t[..|t| - 1][j] == y;
      assert t[j] == y;
    }
  }

  /** Appending an element whose key is at most the last key keeps a descending
      sequence descending. */
  lemma AppendSmallest<T>(t: seq<T>, x: T, key: T -> nat)
    requires SortedDesc(t, key)
    requires t == [] || key(t[|t| - 1]) >= key(x)
    ensures SortedDesc(t + [x], key)
  {
    var r := t + [x];
    forall i, j | 0 <= i < j < |r| ensures key(r[i]) >= key(r[j]) {
      if j == |t| && t != [] {
        assert r[i] == t[i];
        assert key(t[i]) >= key(t[|t| - 1]) || i == |t| - 1;
      }
    }
  }

  /** `s.sort((a, b) => key(b) - key(a))`: a stable sort by descending key,
      written as insertion sort from the left. */
  function SortDesc<T>(s: seq<T>, key: T -> nat): (r: seq<T>)
    ensures |r| == |s|
    ensures multiset(r) == multiset(s)
    ensures SortedDesc(r, key)
  {
    if s == [] then []
    else
      assert s == s[..|s| - 1] + [s[|s| - 1]];
      InsertDescSorted(SortDesc(s[..|s| - 1], key), s[|s| - 1], key);
      InsertDesc(SortDesc(s[..|s| - 1], key), s[|s| - 1], key)
  }

  /** `InsertDesc` places `x` at the position `j` that follows every element of key at
      least `key(x)` in a sorted `p`: exactly before the elements of smaller key. */
  lemma {:induction false} InsertDescAt<T>(p: seq<T>, x: T, key: T -> nat, j: nat)
    requires j <= |p| && (j == 0 || key(p[j - 1]) >= key(x))
    requires forall k :: j <= k < |p| ==> key(p[k]) < key(x)
    ensures InsertDesc(p, x, key) == p[..j] + [x] + p[j..]
    decreases |p|
  {
    if j == |p| {
      assert p[..j] == p && p[j..] == [];
    } else {
      var p', last := p[..|p| - 1], p[|p| - 1];
      assert key(last) < key(x);
      assert InsertDesc(p, x, key) == InsertDesc(p', x, key) + [last];
      forall k | j <= k < |p'| ensures key(p'[k]) < key(x) {
        assert p'[k] == p[k];
      }
      InsertDescAt(p', x, key, j);
      InsertThenSnoc(p, x, j);
    }
  }

  /** Inserting `x` at `j` and then appending the last element of `p` is inserting `x`
      at `j` into the whole of `p`. */
  lemma InsertThenSnoc<T>(p: seq<T>, x: T, j: nat)
    requires j < |p|
    ensures p[..|p| - 1][..j] + [x] + p[..|p| - 1][j..] + [p[|p| - 1]] == p[..j] + [x] + p[j..]
  {
    var p', last := p[..|p| - 1], p[|p| - 1];
    assert p'[..j] == p[..j];
    assert p == p' + [last];
    assert p[j..] == p'[j..] + [last];
  }

  /** One step of the insertion sort: `a[i]` moves left past every element of smaller key
      in the sorted prefix `a[..i]`; the elements after `i` are not touched. */
  method InsertInPlace<T>(a: array<T>, i: nat, key: T -> nat)
    requires i < a.Length
    modifies a
    ensures a[..i + 1] == InsertDesc(old(a[..i]), old(a[i]), key)
    ensures forall k :: i < k < a.Length ==> a[k] == old(a[k])
  {
    var x := a[i];
    ghost var p := a[..i];
    var j := i;
    while j > 0 && key(a[j - 1]) < key(x)
      invariant 0 <= j <= i
      invariant forall k :: 0 <= k < j ==> a[k] == p[k]
      invariant forall k :: j < k <= i ==> a[k] == p[k - 1]
      invariant forall k :: i < k < a.Length ==> a[k] == old(a[k])
      invariant forall k :: j <= k < i ==> key(p[k]) < key(x)
      decreases j
    {
      a[j] := a[j - 1];
      j := j - 1;
    }
    a[j] := x;
    InsertDescAt(p, x, key, j);
    Shifted(a[..i + 1], p, x, j);
  }

  /** A sequence that agrees with `p` before `j`, holds `x` at `j` and `p` shifted one
      place right after `j` is `p` with `x` inserted at `j`. */
  lemma Shifted<T>(q: seq<T>, p: seq<T>, x: T, j: nat)
    requires j <= |p| && |q| == |p| + 1
    requires forall k :: 0 <= k < j ==> q[k] == p[k]
    requires q[j] == x
    requires forall k :: j < k < |q| ==> q[k] == p[k - 1]
    ensures q == p[..j] + [x] + p[j..]
  {
  }

  /** Sorting one more element is inserting it into the sorted prefix. */
  lemma SortDescSnoc<T>(s: seq<T>, i: nat, key: T -> nat)
    requires i < |s|
    ensures SortDesc(s[..i + 1], key) == InsertDesc(SortDesc(s[..i], key), s[i], key)
  {
    assert s[..i + 1][..i] == s[..i];
  }

  /** `array.sort((a, b) => key(b) - key(a))` in place, as insertion sort. */
  method SortDescInPlace<T>(a: array<T>, key: T -> nat)
    modifies a
    ensures a[..] == SortDesc(old(a[..]), key)
  {
    ghost var s := a[..];
    for i := 0 to a.Length
      invariant a[..i] == SortDesc(s[..i], key)
      invariant forall k :: i <= k < a.Length ==> a[k] == s[k]
    {
      SortDescSnoc(s, i, key);
      InsertInPlace(a, i, key);
    }
    assert a[..a.Length] == a[..] && s[..a.Length] == s;
  }

  /** Inserting keeps, for every key, the elements with that key in the order "old ones, then `x`". */
  lemma {:induction false} InsertDescStable<T>(t: seq<T>, x: T, key: T -> nat, k: nat)
    ensures Filter(InsertDesc(t, x, key), KeyIs(key, k)) == Filter(t + [x], KeyIs(key, k))
  {
    var f := KeyIs(key, k);
    if t == [] || key(t[|t| - 1]) >= key(x) {
    } else {
      var t', last := t[..|t| - 1], t[|t| - 1];
      assert t == t' + [last];
      InsertDescStable(t', x, key, k);
      FilterConcat(InsertDesc(t', x, key), [last], f);
      FilterConcat(t', [x], f);
      FilterConcat(t', [last], f);
      FilterConcat(t, [x], f);
      FilterSingleton(x, f);
      FilterSingleton(last, f);
    }
  }

  /** The sort is stable. */
  lemma {:induction false} SortDescStable<T>(s: seq<T>, key: T -> nat)
    ensures StableFor(SortDesc(s, key), s, key)
  {
    forall k: nat ensures Filter(SortDesc(s, key), KeyIs(key, k)) == Filter(s, KeyIs(key, k)) {
      SortDescStableAt(s, key, k);
    }
  }

  lemma {:induction false} SortDescStableAt<T>(s: seq<T>, key: T -> nat, k: nat)
    ensures Filter(SortDesc(s, key), KeyIs(key, k)) == Filter(s, KeyIs(key, k))
  {
    if s != [] {
      var s', x := s[..|s| - 1], s[|s| - 1];
      assert s == s' + [x];
      SortDescStableAt(s', key, k);
      InsertDescStable(SortDesc(s', key), x, key, k);
      FilterConcat(SortDesc(s', key), [x], KeyIs(key, k));
      FilterConcat(s', [x], KeyIs(key, k));
    }
  }

  /** Dropping the last element of a sequence drops it from every filter that keeps it. */
  lemma FilterDropLast<T>(s: seq<T>, f: T -> bool)
    requires s != []
    ensures Filter(s, f) == Filter(s[..|s| - 1], f) + (if f(s[|s| - 1]) then [s[|s| - 1]] else [])
  {
  }

  /** A non-empty sequence has a non-empty filter for the key of its last element. */
  lemma LastKeyFilterNonEmpty<T>(s: seq<T>, key: T -> nat)
    requires s != []
    ensures Filter(s, KeyIs(key, key(s[|s| - 1]))) != []
  {
    FilterDropLast(s, KeyIs(key, key(s[|s| - 1])));
  }

  /** If the filter for the key of `a`'s last element agrees with `b`'s, then that key
      is at least the key of `b`'s last element, the smallest key of sorted `b`. */
  lemma LastKeyAtLeast<T>(a: seq<T>, b: seq<T>, key: T -> nat)
    requires a != [] && b != [] && SortedDesc(b, key)
    requires Filter(a, KeyIs(key, key(a[|a| - 1]))) == Filter(b, KeyIs(key, key(a[|a| - 1])))
    ensures key(a[|a| - 1]) >= key(b[|b| - 1])
  {
    var x := a[|a| - 1];
    var f := KeyIs(key, key(x));
    FilterDropLast(a, f);
    var fa := Filter(a, f);
    assert fa[|fa| - 1] == x;
    FilterMembers(b, f);
    assert x in b;
    var i :| 0 <= i < |b| && b[i] == x;
    SortedLastIsSmallest(b, key, i);
  }

  /** In a sequence sorted by descending key, no key is below the last one. */
  lemma SortedLastIsSmallest<T>(s: seq<T>, key: T -> nat, i: nat)
    requires SortedDesc(s, key) && i < |s|
    ensures key(s[i]) >= key(s[|s| - 1])
  {
    if i < |s| - 1 {
      assert 0 <= i < |s| - 1 < |s|;
    }
  }

  /** Two sorted sequences that agree on every key's filter end with the same element. */
  lemma SameLast<T>(a: seq<T>, b: seq<T>, key: T -> nat)
    requires a != [] && b != []
    requires SortedDesc(a, key) && SortedDesc(b, key)
    requires forall k: nat :: Filter(a, KeyIs(key, k)) == Filter(b, KeyIs(key, k))
    ensures a[|a| - 1] == b[|b| - 1]
  {
    var x, y := a[|a| - 1], b[|b| - 1];
    LastKeyAtLeast(a, b, key);
    LastKeyAtLeast(b, a, key);
    var f := KeyIs(key, key(x));
    FilterDropLast(a, f);
    FilterDropLast(b, f);
    var fa := Filter(a, f);
    assert fa[|fa| - 1] == x;
  }

  /** Dropping the last element keeps a sequence sorted. */
  lemma SortedInit<T>(s: seq<T>, key: T -> nat)
    requires s != [] && SortedDesc(s, key)
    ensures SortedDesc(s[..|s| - 1], key)
  {
  }

  /** Removing a shared last element keeps every key's filter in agreement. */
  lemma InitsAgree<T>(a: seq<T>, b: seq<T>, key: T -> nat, k: nat)
    requires a != [] && b != [] && a[|a| - 1] == b[|b| - 1]
    requires Filter(a, KeyIs(key, k)) == Filter(b, KeyIs(key, k))
    ensures Filter(a[..|a| - 1], KeyIs(key, k)) == Filter(b[..|b| - 1], KeyIs(key, k))
  {
    FilterDropLast(a, KeyIs(key, k));
    FilterDropLast(b, KeyIs(key, k));
    var fa := Filter(a, KeyIs(key, k));
    if KeyIs(key, k)(a[|a| - 1]) {
      assert Filter(a[..|a| - 1], KeyIs(key, k)) == fa[..|fa| - 1];
      assert Filter(b[..|b| - 1], KeyIs(key, k)) == fa[..|fa| - 1];
    }
  }

  /** Only the empty sequence has every key's filter empty. */
  lemma OnlyEmptyAgreesWithEmpty<T>(a: seq<T>, b: seq<T>, key: T -> nat)
    requires a == []
    requires forall k: nat :: Filter(a, KeyIs(key, k)) == Filter(b, KeyIs(key, k))
    ensures b == []
  {
    if b != [] {
      LastKeyFilterNonEmpty(b, key);
    }
  }

  /** Every key's filter agreeing, with both sides sorted, keeps agreeing once the
      (shared) last element is removed from both. */
  lemma InitsAgreeAll<T>(a: seq<T>, b: seq<T>, key: T -> nat)
    requires a != [] && b != []
    requires SortedDesc(a, key) && SortedDesc(b, key)
    requires forall k: nat :: Filter(a, KeyIs(key, k)) == Filter(b, KeyIs(key, k))
    ensures a[|a| - 1] == b[|b| - 1]
    ensures forall k: nat :: Filter(a[..|a| - 1], KeyIs(key, k)) == Filter(b[..|b| - 1], KeyIs(key, k))
  {
    SameLast(a, b, key);
    forall k: nat ensures Filter(a[..|a| - 1], KeyIs(key, k)) == Filter(b[..|b| - 1], KeyIs(key, k)) {
      InitsAgree(a, b, key, k);
    }
  }

  /** Sortedness together with stability determines the result: two sequences that are
      both ordered by descending key and agree on the order within every key are equal. */
  lemma {:induction false} SortedStableUnique<T>(a: seq<T>, b: seq<T>, key: T -> nat)
    requires SortedDesc(a, key) && SortedDesc(b, key)
    requires forall k: nat :: Filter(a, KeyIs(key, k)) == Filter(b, KeyIs(key, k))
    ensures a == b
    decreases |a|
  {
    if a == [] {
      OnlyEmptyAgreesWithEmpty(a, b, key);
    } else if b == [] {
      OnlyEmptyAgreesWithEmpty(b, a, key);
    } else {
      InitsAgreeAll(a, b, key);
      SortedInit(a, key);
      SortedInit(b, key);
      SortedStableUnique(a[..|a| - 1], b[..|b| - 1], key);
      assert a == a[..|a| - 1] + [a[|a| - 1]];
      assert b == b[..|b| - 1] + [b[|b| - 1]];
    }
  }

  /** Whatever algorithm a JavaScript engine uses, its stable descending sort yields
      exactly `SortDesc`: any sorted, stable rearrangement of `s` is `SortDesc(s, key)`. */
  lemma StableSortIsSortDesc<T>(s: seq<T>, r: seq<T>, key: T -> nat)
    requires SortedDesc(r, key)
    requires forall k: nat :: Filter(r, KeyIs(key, k)) == Filter(s, KeyIs(key, k))
    ensures r == SortDesc(s, key)
  {
    SortDescStable(s, key);
    SortedStableUnique(r, SortDesc(s, key), key);
  }

  /** Filtering a stably sorted sequence gives the stable sort of the filtered sequence:
      selection and a stable sort commute. */
  lemma SortFilterCommute<T>(s: seq<T>, f: T -> bool, key: T -> nat)
    ensures Filter(SortDesc(s, key), f) == SortDesc(Filter(s, f), key)
  {
    var r := Filter(SortDesc(s, key), f);
    FilterKeepsSortedDesc(SortDesc(s, key), f, key);
    forall k: nat ensures Filter(r, KeyIs(key, k)) == Filter(Filter(s, f), KeyIs(key, k)) {
      FilterCommutes(SortDesc(s, key), f, KeyIs(key, k));
      SortDescStableAt(s, key, k);
      FilterCommutes(s, f, KeyIs(key, k));
    }
    StableSortIsSortDesc(Filter(s, f), r, key);
  }

  /** A sequence already in descending order is left as it is. */
  lemma SortDescOfSorted<T>(s: seq<T>, key: T -> nat)
    requires SortedDesc(s, key)
    ensures SortDesc(s, key) == s
  {
    StableSortIsSortDesc(s, s, key);
  }

  /** Any filter of a sequence in descending order is still in descending order. */
  lemma {:induction false} FilterKeepsSortedDesc<T>(s: seq<T>, f: T -> bool, key: T -> nat)
    requires SortedDesc(s, key)
    ensures SortedDesc(Filter(s, f), key)
  {
    if s != [] {
      var s', x := s[..|s| - 1], s[|s| - 1];
      FilterKeepsSortedDesc(s', f, key);
      var r' := Filter(s', f);
      forall i | 0 <= i < |r'| ensures key(r'[i]) >= key(x) {
        assert r'[i] in multiset(s');
      }
    }
  }
}
