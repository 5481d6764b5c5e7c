/**
 * Generic sequence operations behind `Array.prototype.filter` and
 * `Array.prototype.sort`, with the order facts the listing relies on.
 */
module Seqs {
  import opened Wrappers

  /** `a` is `b` with some elements left out, the rest in their original order. */
  predicate IsSubseq<T(==)>(a: seq<T>, b: seq<T>)
    decreases |b|
  {
    a == [] || (b != [] && ((a[0] == b[0] && IsSubseq(a[1..], b[1..])) || IsSubseq(a, b[1..])))
  }

  lemma {:induction false} SubseqRefl<T>(s: seq<T>)
    ensures IsSubseq(s, s)
  {
    if s != [] {
      SubseqRefl(s[1..]);
    }
  }

  /** Everything in a subsequence is in the sequence. */
  lemma {:induction false} SubseqElems<T>(a: seq<T>, b: seq<T>)
    requires IsSubseq(a, b)
    ensures forall x :: x in a ==> x in b
    decreases |b|
  {
    if a != [] {
      if a[0] == b[0] && IsSubseq(a[1..], b[1..]) {
        SubseqElems(a[1..], b[1..]);
        forall x | x in a ensures x in b {
          if x != a[0] {
            assert x in a[1..];
          }
        }
      } else {
        SubseqElems(a, b[1..]);
      }
    }
  }

  /** Leaving elements out twice is leaving elements out once. */
  lemma {:induction false} SubseqTrans<T>(a: seq<T>, b: seq<T>, c: seq<T>)
    requires IsSubseq(a, b) && IsSubseq(b, c)
    ensures IsSubseq(a, c)
    decreases |c|
  {
    if a != [] {
      if IsSubseq(b, c[1..]) {
        SubseqTrans(a, b, c[1..]);
      } else {
        assert b[0] == c[0] && IsSubseq(b[1..], c[1..]);
        if a[0] == b[0] && IsSubseq(a[1..], b[1..]) {
          SubseqTrans(a[1..], b[1..], c[1..]);
        } else {
          SubseqTrans(a, b[1..], c[1..]);
        }
      }
    }
  }

  /** `Array.prototype.filter`: keeps the elements satisfying `p`, in order. */
  function Filter<T(!new)>(s: seq<T>, p: T -> bool): (r: seq<T>)
    ensures |r| <= |s|
    ensures forall i | 0 <= i < |r| :: p(r[i])
  {
    if s == [] then []
    else if p(s[0]) then
      assert s == [s[0]] + s[1..];
      [s[0]] + Filter(s[1..], p)
    else
      assert s == [s[0]] + s[1..];
      Filter(s[1..], p)
  }

  /** A filter keeps the surviving elements in their original order. */
  lemma {:induction false} FilterIsSubseq<T(!new)>(s: seq<T>, p: T -> bool)
    ensures IsSubseq(Filter(s, p), s)
  {
    if s != [] {
      FilterIsSubseq(s[1..], p);
      if p(s[0]) {
        assert Filter(s, p)[1..] == Filter(s[1..], p);
      }
    }
  }

  /** A filter keeps every accepted element as often as it occurs, and nothing else. */
  lemma {:induction false} FilterCounts<T(!new)>(s: seq<T>, p: T -> bool)
    ensures forall x :: multiset(Filter(s, p))[x] == if p(x) then multiset(s)[x] else 0
  {
    if s != [] {
      FilterCounts(s[1..], p);
      assert s == [s[0]] + s[1..];
    }
  }

  /** Membership in a filtered sequence, both directions. */
  lemma FilterMembers<T(!new)>(s: seq<T>, p: T -> bool)
    ensures forall x :: x in Filter(s, p) <==> x in s && p(x)
  {
    var r := Filter(s, p);
    FilterCounts(s, p);
    forall x ensures x in r <==> x in s && p(x) {
      assert x in r <==> multiset(r)[x] > 0;
      assert x in s <==> multiset(s)[x] > 0;
    }
  }

  /** The conjunction of two predicates. */
  function Both<T>(p: T -> bool, q: T -> bool): T -> bool {
    x => p(x) && q(x)
  }

  /** Two filters in a row keep exactly what their conjunction keeps, in either order. */
  lemma {:induction false} FilterFilter<T(!new)>(s: seq<T>, p: T -> bool, q: T -> bool)
    ensures Filter(Filter(s, p), q) == Filter(s, Both(p, q))
    ensures Filter(Filter(s, p), q) == Filter(Filter(s, q), p)
  {
    if s != [] {
      FilterFilter(s[1..], p, q);
    }
  }

  /** A filter that keeps everything changes nothing. */
  lemma {:induction false} FilterAll<T(!new)>(s: seq<T>, p: T -> bool)
    requires forall i | 0 <= i < |s| :: p(s[i])
    ensures Filter(s, p) == s
  {
    if s != [] {
      FilterAll(s[1..], p);
    }
  }

  // ---- keeping the first of each key ----

  /** Pairwise different keys among the elements that have one. */
  predicate DistinctSomeKeys<T, K(==)>(s: seq<T>, key: T -> Option<K>) {
    forall i, j | 0 <= i < j < |s| && key(s[i]).Some? && key(s[j]).Some? :: key(s[i]) != key(s[j])
  }

  /**
   * The `seen`-set filter: an element with a key already in `seen` is dropped,
   * otherwise kept and its key added; elements without a key always stay.
   */
  function DedupBy<T, K>(s: seq<T>, key: T -> Option<K>, seen: set<K>): (r: seq<T>)
    ensures forall i | 0 <= i < |r| && key(r[i]).Some? :: key(r[i]).value !in seen
    ensures DistinctSomeKeys(r, key)
  {
    if s == [] then []
    else if key(s[0]).None? then
      [s[0]] + DedupBy(s[1..], key, seen)
    else if key(s[0]).value in seen then
      DedupBy(s[1..], key, seen)
    else
      var rest := DedupBy(s[1..], key, seen + {key(s[0]).value});
      [s[0]] + rest
  }

  /** Duplicate removal only leaves elements out; the rest keep their order. */
  lemma {:induction false} DedupIsSubseq<T, K>(s: seq<T>, key: T -> Option<K>, seen: set<K>)
    ensures IsSubseq(DedupBy(s, key, seen), s)
  {
    if s != [] {
      var seen' := if key(s[0]).Some? && key(s[0]).value !in seen then seen + {key(s[0]).value} else seen;
      DedupIsSubseq(s[1..], key, seen');
      if key(s[0]).None? || key(s[0]).value !in seen {
        assert DedupBy(s, key, seen)[1..] == DedupBy(s[1..], key, seen');
      }
    }
  }

  /** One step of `DedupBy`, for loops that walk the input. */
  lemma DedupHead<T, K>(s: seq<T>, key: T -> Option<K>, seen: set<K>)
    requires s != []
    ensures key(s[0]).None? ==> DedupBy(s, key, seen) == [s[0]] + DedupBy(s[1..], key, seen)
    ensures key(s[0]).Some? && key(s[0]).value in seen ==> DedupBy(s, key, seen) == DedupBy(s[1..], key, seen)
    ensures key(s[0]).Some? && key(s[0]).value !in seen ==>
      DedupBy(s, key, seen) == [s[0]] + DedupBy(s[1..], key, seen + {key(s[0]).value})
  {
  }

  function Unkeyed<T, K>(key: T -> Option<K>): T -> bool {
    x => key(x).None?
  }

  function KeySet<T, K>(s: seq<T>, key: T -> Option<K>): set<K> {
    set i | 0 <= i < |s| && key(s[i]).Some? :: key(s[i]).value
  }

  /** The first element of `s` whose key is `k`. */
  function FirstWithKey<T, K(==)>(s: seq<T>, key: T -> Option<K>, k: K): Option<T> {
    if s == [] then None
    else if key(s[0]) == Some(k) then Some(s[0])
    else FirstWithKey(s[1..], key, k)
  }

  /** Elements without a key pass through untouched and in order. */
  lemma {:induction false} DedupKeepsUnkeyed<T(!new), K>(s: seq<T>, key: T -> Option<K>, seen: set<K>)
    ensures Filter(DedupBy(s, key, seen), Unkeyed(key)) == Filter(s, Unkeyed(key))
  {
    if s != [] {
      if key(s[0]).None? {
        DedupKeepsUnkeyed(s[1..], key, seen);
        assert ([s[0]] + DedupBy(s[1..], key, seen))[1..] == DedupBy(s[1..], key, seen);
      } else if key(s[0]).value in seen {
        DedupKeepsUnkeyed(s[1..], key, seen);
      } else {
        var seen' := seen + {key(s[0]).value};
        DedupKeepsUnkeyed(s[1..], key, seen');
        assert ([s[0]] + DedupBy(s[1..], key, seen'))[1..] == DedupBy(s[1..], key, seen');
      }
    }
  }

  lemma KeySetCons<T, K>(x: T, s: seq<T>, key: T -> Option<K>)
    ensures KeySet([x] + s, key) == KeySet(s, key) + (if key(x).Some? then {key(x).value} else {})
  {
    var t := [x] + s;
    forall k | k in KeySet(t, key)
      ensures k in KeySet(s, key) + (if key(x).Some? then {key(x).value} else {})
    {
      var i :| 0 <= i < |t| && key(t[i]).Some? && key(t[i]).value == k;
      if i > 0 { assert t[i] == s[i - 1]; }
    }
    forall k | k in KeySet(s, key) ensures k in KeySet(t, key) {
      var i :| 0 <= i < |s| && key(s[i]).Some? && key(s[i]).value == k;
      assert t[i + 1] == s[i];
    }
    if key(x).Some? {
      assert t[0] == x;
      assert key(x).value in KeySet(t, key);
    }
  }

  /** Every key not already seen survives, and no key is invented. */
  lemma {:induction false} DedupKeepsKeys<T, K>(s: seq<T>, key: T -> Option<K>, seen: set<K>)
    ensures KeySet(DedupBy(s, key, seen), key) == KeySet(s, key) - seen
  {
    if s != [] {
      assert s == [s[0]] + s[1..];
      KeySetCons(s[0], s[1..], key);
      if key(s[0]).None? {
        DedupKeepsKeys(s[1..], key, seen);
        KeySetCons(s[0], DedupBy(s[1..], key, seen), key);
      } else if key(s[0]).value in seen {
        DedupKeepsKeys(s[1..], key, seen);
      } else {
        var seen' := seen + {key(s[0]).value};
        DedupKeepsKeys(s[1..], key, seen');
        KeySetCons(s[0], DedupBy(s[1..], key, seen'), key);
      }
    }
  }

  /** Every keyed element of `r` is the first element of `s` with its key. */
  ghost predicate AreFirstsOf<T, K>(r: seq<T>, s: seq<T>, key: T -> Option<K>) {
    forall i | 0 <= i < |r| && key(r[i]).Some? :: FirstWithKey(s, key, key(r[i]).value) == Some(r[i])
  }

  lemma {:induction false} DedupKeepsFirst<T, K>(s: seq<T>, key: T -> Option<K>, seen: set<K>)
    ensures AreFirstsOf(DedupBy(s, key, seen), s, key)
  {
    if s != [] {
      var r := DedupBy(s, key, seen);
      var seen' := if key(s[0]).Some? && key(s[0]).value !in seen then seen + {key(s[0]).value} else seen;
      var rest := DedupBy(s[1..], key, seen');
      DedupKeepsFirst(s[1..], key, seen');
      assert AreFirstsOf(rest, s[1..], key);
      forall i | 0 <= i < |r| && key(r[i]).Some?
        ensures FirstWithKey(s, key, key(r[i]).value) == Some(r[i])
      {
        var k := key(r[i]).value;
        if key(s[0]).Some? && key(s[0]).value !in seen && i == 0 {
          assert r[0] == s[0];
        } else {
          var j := if key(s[0]).Some? && key(s[0]).value in seen then i else i - 1;
          assert 0 <= j < |rest| && r[i] == rest[j];
          assert key(rest[j]).Some? && key(rest[j]).value == k;
          assert FirstWithKey(s[1..], key, key(rest[j]).value) == Some(rest[j]);
          assert key(rest[j]).value !in seen';
          assert key(s[0]) != Some(k);
        }
      }
    }
  }

  /** Input already free of duplicates, none of them seen: nothing is removed. */
  lemma {:induction false} DedupOfDistinct<T, K>(s: seq<T>, key: T -> Option<K>, seen: set<K>)
    requires DistinctSomeKeys(s, key)
    requires forall i | 0 <= i < |s| && key(s[i]).Some? :: key(s[i]).value !in seen
    ensures DedupBy(s, key, seen) == s
  {
    if s != [] {
      if key(s[0]).None? {
        DedupOfDistinct(s[1..], key, seen);
      } else {
        var seen' := seen + {key(s[0]).value};
        forall i | 0 <= i < |s[1..]| && key(s[1..][i]).Some? ensures key(s[1..][i]).value !in seen' {
          assert s[1..][i] == s[i + 1];
        }
        DedupOfDistinct(s[1..], key, seen');
      }
    }
  }

  /** Keeping the first of each key twice is doing it once. */
  lemma DedupIdempotent<T, K>(s: seq<T>, key: T -> Option<K>)
    ensures DedupBy(DedupBy(s, key, {}), key, {}) == DedupBy(s, key, {})
  {
    DedupOfDistinct(DedupBy(s, key, {}), key, {});
  }

  /**
   * The loop form of `DedupBy(s, key, {})`: a `for` loop over `s` that skips
   * an element whose key is already in its `seen` set and adds the key otherwise.
   */
  method DedupLoop<T, K(==)>(s: seq<T>, key: T -> Option<K>) returns (r: seq<T>)
    ensures r == DedupBy(s, key, {})
  {
    var seen: set<K> := {};
    r := [];
    var i := 0;
    while i < |s|
      invariant 0 <= i <= |s|
      invariant r + DedupBy(s[i..], key, seen) == DedupBy(s, key, {})
    {
      DedupLoopStep(s, i, key, seen, r);
      var k := key(s[i]);
      if k.None? {
        r := r + [s[i]];
      } else if k.value !in seen {
        seen := seen + {k.value};
        r := r + [s[i]];
      } else {
        assert Kept(s[i], key, seen) == [];
        assert r + [] == r;
      }
      i := i + 1;
    }
  }

  /** What `DedupLoop` appends for `x`: `x` itself unless its key was already seen. */
  function Kept<T, K>(x: T, key: T -> Option<K>, seen: set<K>): seq<T> {
    if key(x).None? || key(x).value !in seen then [x] else []
  }

  /** The `seen` set after `DedupLoop` has looked at `x`. */
  function NextSeen<T, K>(x: T, key: T -> Option<K>, seen: set<K>): set<K> {
    if key(x).Some? && key(x).value !in seen then seen + {key(x).value} else seen
  }

  /** One round of `DedupLoop` keeps its invariant. */
  lemma DedupLoopStep<T, K>(s: seq<T>, i: int, key: T -> Option<K>, seen: set<K>, r: seq<T>)
    requires 0 <= i < |s|
    requires r + DedupBy(s[i..], key, seen) == DedupBy(s, key, {})
    ensures (r + Kept(s[i], key, seen)) + DedupBy(s[i + 1..], key, NextSeen(s[i], key, seen)) == DedupBy(s, key, {})
  {
    var tail := s[i..];
    assert tail[1..] == s[i + 1..];
    DedupHead(tail, key, seen);
    var rest := DedupBy(s[i + 1..], key, NextSeen(s[i], key, seen));
    assert DedupBy(tail, key, seen) == Kept(s[i], key, seen) + rest;
    Assoc(r, Kept(s[i], key, seen), rest);
  }

  lemma Assoc<T>(a: seq<T>, b: seq<T>, c: seq<T>)
    ensures a + (b + c) == (a + b) + c
  {
  }

  function Map<T, U>(s: seq<T>, f: T -> U): (r: seq<U>)
    ensures |r| == |s|
  {
    if s == [] then [] else [f(s[0])] + Map(s[1..], f)
  }

  lemma {:induction false} MapAt<T, U>(s: seq<T>, f: T -> U, i: int)
    requires 0 <= i < |s|
    ensures Map(s, f)[i] == f(s[i])
    decreases i
  {
    if i > 0 {
      MapAt(s[1..], f, i - 1);
    }
  }

  lemma {:induction false} MapAppend<T, U>(a: seq<T>, b: seq<T>, f: T -> U)
    ensures Map(a + b, f) == Map(a, f) + Map(b, f)
  {
    if a == [] {
      assert a + b == b;
    } else {
      MapAppend(a[1..], b, f);
      assert (a + b)[1..] == a[1..] + b;
      calc {
        Map(a + b, f);
        [f(a[0])] + Map(a[1..] + b, f);
        [f(a[0])] + (Map(a[1..], f) + Map(b, f));
        { Assoc([f(a[0])], Map(a[1..], f), Map(b, f)); }
        Map(a, f) + Map(b, f);
      }
    }
  }

  /**
   * The elements of `s` that `keep` accepts, first of each key, each turned
   * into `make` of it.
   */
  function FilterDedupMap<T(!new), K, U>(s: seq<T>, keep: T -> bool, key: T -> Option<K>,
                                          make: T -> U, seen: set<K>): seq<U>
  {
    Map(DedupBy(Filter(s, keep), key, seen), make)
  }

  /** The `seen` set after the loop has looked at `x`. */
  function SeenAfter<T, K>(seen: set<K>, keep: T -> bool, key: T -> Option<K>, x: T): set<K> {
    if keep(x) && key(x).Some? && key(x).value !in seen then seen + {key(x).value} else seen
  }

  /** One round of the loop: `x` contributes `make(x)` exactly when it is kept and its key is new. */
  lemma FilterDedupMapHead<T(!new), K, U>(t: seq<T>, keep: T -> bool, key: T -> Option<K>, make: T -> U, seen: set<K>)
    requires t != []
    ensures FilterDedupMap(t, keep, key, make, seen)
         == (if keep(t[0]) && (key(t[0]).None? || key(t[0]).value !in seen) then [make(t[0])] else [])
            + FilterDedupMap(t[1..], keep, key, make, SeenAfter(seen, keep, key, t[0]))
  {
    var rest := Filter(t[1..], keep);
    var seen' := SeenAfter(seen, keep, key, t[0]);
    if keep(t[0]) {
      assert Filter(t, keep) == [t[0]] + rest;
      DedupHead([t[0]] + rest, key, seen);
      assert ([t[0]] + rest)[1..] == rest;
      if key(t[0]).None? || key(t[0]).value !in seen {
        var d := DedupBy(rest, key, seen');
        assert DedupBy(Filter(t, keep), key, seen) == [t[0]] + d;
        MapAppend([t[0]], d, make);
        assert Map([t[0]], make) == [make(t[0])];
      } else {
        assert DedupBy(Filter(t, keep), key, seen) == DedupBy(rest, key, seen');
      }
    } else {
      assert Filter(t, keep) == rest;
    }
  }

  /**
   * A `for` loop that skips what `keep` rejects and what has a key already in
   * its `seen` set, and appends `make(x)` for the rest.
   */
  method FilterDedupMapLoop<T(!new), K(==), U>(s: seq<T>, keep: T -> bool, key: T -> Option<K>, make: T -> U)
    returns (r: seq<U>)
    ensures r == FilterDedupMap(s, keep, key, make, {})
  {
    var seen: set<K> := {};
    r := [];
    var i := 0;
    while i < |s|
      invariant 0 <= i <= |s|
      invariant r + FilterDedupMap(s[i..], keep, key, make, seen) == FilterDedupMap(s, keep, key, make, {})
    {
      FilterDedupMapLoopStep(s, i, keep, key, make, seen, r);
      var x := s[i];
      if keep(x) {
        var k := key(x);
        if k.None? || k.value !in seen {
          if k.Some? {
            seen := seen + {k.value};
          }
          r := r + [make(x)];
        }
      }
      i := i + 1;
    }
    assert s[i..] == [];
  }

  /** One round of `FilterDedupMapLoop` keeps its invariant. */
  lemma FilterDedupMapLoopStep<T(!new), K, U>(s: seq<T>, i: int, keep: T -> bool, key: T -> Option<K>, make: T -> U,
                                               seen: set<K>, r: seq<U>)
    requires 0 <= i < |s|
    requires r + FilterDedupMap(s[i..], keep, key, make, seen) == FilterDedupMap(s, keep, key, make, {})
    ensures var x := s[i];
      var r' := if keep(x) && (key(x).None? || key(x).value !in seen) then r + [make(x)] else r;
      r' + FilterDedupMap(s[i + 1..], keep, key, make, SeenAfter(seen, keep, key, x)) == FilterDedupMap(s, keep, key, make, {})
  {
    var x := s[i];
    FilterDedupMapHead(s[i..], keep, key, make, seen);
    assert s[i..][1..] == s[i + 1..];
    var tail := FilterDedupMap(s[i + 1..], keep, key, make, SeenAfter(seen, keep, key, x));
    if keep(x) && (key(x).None? || key(x).value !in seen) {
      Assoc(r, [make(x)], tail);
    } else {
      assert [] + tail == tail;
    }
  }

  // ---- ordering ----

  /** `leq` is total and transitive: the contract a sort comparator must honour. */
  ghost predicate TotalPreorder<T(!new)>(leq: (T, T) -> bool) {
    && (forall x, y :: leq(x, y) || leq(y, x))
    && (forall x, y, z :: leq(x, y) && leq(y, z) ==> leq(x, z))
  }

  predicate Sorted<T>(s: seq<T>, leq: (T, T) -> bool) {
    forall i, j | 0 <= i < j < |s| :: leq(s[i], s[j])
  }

  /** Lexicographic order on integer sequences; a proper prefix comes first. */
  predicate LexLeq(a: seq<int>, b: seq<int>)
    decreases |a|
  {
    a == [] || (b != [] && (a[0] < b[0] || (a[0] == b[0] && LexLeq(a[1..], b[1..]))))
  }

  lemma {:induction false} LexTotal(a: seq<int>, b: seq<int>)
    ensures LexLeq(a, b) || LexLeq(b, a)
    decreases |a|
  {
    if a != [] && b != [] && a[0] == b[0] {
      LexTotal(a[1..], b[1..]);
    }
  }

  lemma {:induction false} LexTrans(a: seq<int>, b: seq<int>, c: seq<int>)
    requires LexLeq(a, b) && LexLeq(b, c)
    ensures LexLeq(a, c)
    decreases |a|
  {
    if a != [] && a[0] == b[0] && b[0] == c[0] {
      LexTrans(a[1..], b[1..], c[1..]);
    }
  }

  /** Places `x` before the first element it is not after; equal elements keep `x` in front. */
  function Insert<T(!new)>(x: T, s: seq<T>, leq: (T, T) -> bool): (r: seq<T>)
    requires TotalPreorder(leq)
    requires Sorted(s, leq)
    ensures multiset(r) == multiset(s) + multiset{x}
    ensures Sorted(r, leq)
  {
    if s == [] then [x]
    else if leq(x, s[0]) then
      ConsSorted(x, s, leq);
      [x] + s
    else
      var rest := Insert(x, s[1..], leq);
      assert s == [s[0]] + s[1..];
      HeadBelowInserted(x, s, rest, leq);
      ConsSorted(s[0], rest, leq);
      [s[0]] + rest
  }

  /** Putting in front of a sorted sequence an element below all of it keeps it sorted. */
  lemma ConsSorted<T(!new)>(h: T, s: seq<T>, leq: (T, T) -> bool)
    requires TotalPreorder(leq) && Sorted(s, leq)
    requires s == [] || leq(h, s[0])
    ensures Sorted([h] + s, leq)
  {
    forall i, j | 0 <= i < j < |[h] + s| ensures leq(([h] + s)[i], ([h] + s)[j]) {
      if i == 0 && j > 1 {
        assert leq(h, s[0]) && leq(s[0], s[j - 1]);
      }
    }
  }

  /** When `x` goes after the head of sorted `s`, that head is below everything inserted behind it. */
  lemma HeadBelowInserted<T(!new)>(x: T, s: seq<T>, rest: seq<T>, leq: (T, T) -> bool)
    requires TotalPreorder(leq)
    requires Sorted(s, leq) && s != [] && !leq(x, s[0])
    requires multiset(rest) == multiset(s[1..]) + multiset{x}
    ensures forall j | 0 <= j < |rest| :: leq(s[0], rest[j])
  {
    forall j | 0 <= j < |rest| ensures leq(s[0], rest[j]) {
      assert rest[j] in multiset(rest);
      if rest[j] != x {
        assert rest[j] in multiset(s[1..]);
        var k :| 0 <= k < |s[1..]| && s[1..][k] == rest[j];
        assert s[k + 1] == rest[j];
      }
    }
  }

  /**
   * A stable sort: `Array.prototype.sort` with a comparator answering
   * `leq(a, b)` exactly when it returns a value <= 0.
   */
  function SortBy<T(!new)>(s: seq<T>, leq: (T, T) -> bool): (r: seq<T>)
    requires TotalPreorder(leq)
    ensures multiset(r) == multiset(s)
    ensures |r| == |s|
    ensures Sorted(r, leq)
  {
    if s == [] then []
    else
      assert s == [s[0]] + s[1..];
      Insert(s[0], SortBy(s[1..], leq), leq)
  }

  /** A subsequence of a sorted sequence is sorted. */
  lemma {:induction false} SubseqSorted<T>(a: seq<T>, b: seq<T>, leq: (T, T) -> bool)
    requires IsSubseq(a, b) && Sorted(b, leq)
    ensures Sorted(a, leq)
    decreases |b|
  {
    if a != [] {
      if a[0] == b[0] && IsSubseq(a[1..], b[1..]) {
        SubseqSorted(a[1..], b[1..], leq);
        SubseqElems(a[1..], b[1..]);
        forall i, j | 0 <= i < j < |a| ensures leq(a[i], a[j]) {
          if i == 0 {
            assert a[j] in a[1..];
            var k :| 0 <= k < |b[1..]| && b[1..][k] == a[j];
            assert b[k + 1] == a[j];
          } else {
            assert a[1..][i - 1] == a[i] && a[1..][j - 1] == a[j];
          }
        }
      } else {
        SubseqSorted(a, b[1..], leq);
      }
    }
  }

  /** Keys that are pairwise different. */
  predicate DistinctKeys<T, K(==)>(s: seq<T>, key: T -> K) {
    forall i, j | 0 <= i < j < |s| :: key(s[i]) != key(s[j])
  }

  lemma {:induction false} InsertKeepsDistinctKeys<T(!new), K>(x: T, s: seq<T>, leq: (T, T) -> bool, key: T -> K)
    requires TotalPreorder(leq) && Sorted(s, leq)
    requires DistinctKeys(s, key)
    requires forall i | 0 <= i < |s| :: key(s[i]) != key(x)
    ensures DistinctKeys(Insert(x, s, leq), key)
  {
    if s != [] && !leq(x, s[0]) {
      InsertKeepsDistinctKeys(x, s[1..], leq, key);
      var rest := Insert(x, s[1..], leq);
      forall j | 0 <= j < |rest| ensures key(s[0]) != key(rest[j]) {
        assert rest[j] in multiset(rest);
        if rest[j] != x {
          var k :| 0 <= k < |s[1..]| && s[1..][k] == rest[j];
          assert s[k + 1] == rest[j];
        }
      }
      assert Insert(x, s, leq) == [s[0]] + rest;
    }
  }

  /** Sorting cannot create a duplicate key. */
  lemma {:induction false} SortKeepsDistinctKeys<T(!new), K>(s: seq<T>, leq: (T, T) -> bool, key: T -> K)
    requires TotalPreorder(leq)
    requires DistinctKeys(s, key)
    ensures DistinctKeys(SortBy(s, leq), key)
  {
    if s != [] {
      SortKeepsDistinctKeys(s[1..], leq, key);
      var sorted := SortBy(s[1..], leq);
      forall i | 0 <= i < |sorted| ensures key(sorted[i]) != key(s[0]) {
        assert sorted[i] in multiset(s[1..]);
        var k :| 0 <= k < |s[1..]| && s[1..][k] == sorted[i];
        assert s[k + 1] == sorted[i];
      }
      InsertKeepsDistinctKeys(s[0], sorted, leq, key);
    }
  }
}
