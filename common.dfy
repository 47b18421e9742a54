/** Small shared vocabulary: an optional value and order-preserving
    sequence filtering, as Swift's `Optional` and `Array.filter`. */
module Common {

  datatype Option<+T> = None | Some(value: T)

  /** The elements of `s` that satisfy `p`, in their original order
      (Swift's `filter`). */
  function Filter<T(!new)>(s: seq<T>, p: T -> bool): (r: seq<T>)
    ensures |r| <= |s|
    ensures forall i :: 0 <= i < |r| ==> p(r[i])
    ensures forall x :: multiset(r)[x] == if p(x) then multiset(s)[x] else 0
    ensures forall x :: x in r <==> x in s && p(x)
  {
    if s == [] then []
    else
      assert s == [s[0]] + s[1..];
      if p(s[0]) then [s[0]] + Filter(s[1..], p) else Filter(s[1..], p)
  }

  /** Filtering distributes over concatenation, so it keeps relative order. */
  lemma {:induction false} FilterAppend<T(!new)>(a: seq<T>, b: seq<T>, p: T -> bool)
    ensures Filter(a + b, p) == Filter(a, p) + Filter(b, p)
  {
    if a == [] {
      assert a + b == b;
    } else {
      assert (a + b)[1..] == a[1..] + b;
      FilterAppend(a[1..], b, p);
    }
  }

  /** Filtering by a predicate that every element meets changes nothing. */
  lemma {:induction false} FilterAll<T(!new)>(s: seq<T>, p: T -> bool)
    requires forall i :: 0 <= i < |s| ==> p(s[i])
    ensures Filter(s, p) == s
  {
    if s != [] {
      FilterAll(s[1..], p);
    }
  }

  /** Filtering twice keeps the elements that pass both predicates. */
  lemma {:induction false} FilterFilter<T(!new)>(s: seq<T>, p: T -> bool, q: T -> bool, both: T -> bool)
    requires forall x :: both(x) == (p(x) && q(x))
    ensures Filter(Filter(s, p), q) == Filter(s, both)
  {
    if s != [] {
      FilterFilter(s[1..], p, q, both);
      if p(s[0]) {
        assert Filter(s, p) == [s[0]] + Filter(s[1..], p);
        assert ([s[0]] + Filter(s[1..], p))[1..] == Filter(s[1..], p);
      }
    }
  }

  /** The days lo, lo + 1, ..., hi - 1 (empty when hi <= lo). */
  function Range(lo: int, hi: int): (r: seq<int>)
    ensures |r| == if hi <= lo then 0 else hi - lo
    ensures forall i :: 0 <= i < |r| ==> r[i] == lo + i
  {
    if hi <= lo then [] else seq(hi - lo, i requires 0 <= i < hi - lo => lo + i)
  }

  lemma RangeSplit(lo: int, mid: int, hi: int)
    requires lo <= mid <= hi
    ensures Range(lo, hi) == Range(lo, mid) + Range(mid, hi)
  {
  }

  lemma RangeSnoc(lo: int, hi: int)
    requires lo <= hi
    ensures Range(lo, hi) + [hi] == Range(lo, hi + 1)
  {
  }

  /** Concatenation of a sequence of rows. */
  function Flatten<T>(rows: seq<seq<T>>): seq<T>
  {
    if rows == [] then [] else rows[0] + Flatten(rows[1..])
  }

  lemma {:induction false} FlattenAppend<T>(a: seq<seq<T>>, b: seq<seq<T>>)
    ensures Flatten(a + b) == Flatten(a) + Flatten(b)
  {
    if a == [] {
      assert a + b == b;
    } else {
      assert (a + b)[1..] == a[1..] + b;
      FlattenAppend(a[1..], b);
    }
  }

  /** f(0) + f(1) + ... + f(n - 1). */
  function SumTo(f: int -> nat, n: nat): nat
  {
    if n == 0 then 0 else SumTo(f, n - 1) + f(n - 1)
  }

  /** Raising one term of a sum by one raises the sum by one when that term
      is among the first `n`. */
  lemma {:induction false} SumToBump(f: int -> nat, g: int -> nat, c: bool, k: int, n: nat)
    requires forall h :: f(h) == g(h) + if c && h == k then 1 else 0
    ensures SumTo(f, n) == SumTo(g, n) + if c && 0 <= k < n then 1 else 0
  {
    if n > 0 {
      SumToBump(f, g, c, k, n - 1);
    }
  }

  lemma {:induction false} SumToZero(f: int -> nat, n: nat)
    requires forall h :: f(h) == 0
    ensures SumTo(f, n) == 0
  {
    if n > 0 {
      SumToZero(f, n - 1);
    }
  }

  /** How many of `items` have key `k`. */
  function KeyCount(items: set<int>, key: int -> int, k: int): nat
  {
    |set v | v in items && key(v) == k|
  }

  lemma KeyCountStep(done: set<int>, key: int -> int, x: int, k: int)
    requires x !in done
    ensures KeyCount(done + {x}, key, k) == KeyCount(done, key, k) + if key(x) == k then 1 else 0
  {
    var before := set v | v in done && key(v) == k;
    var after := set v | v in done + {x} && key(v) == k;
    if key(x) == k {
      assert after == before + {x};
    } else {
      assert after == before;
    }
  }

  lemma KeyPresent(items: set<int>, key: int -> int, v: int)
    requires v in items
    ensures KeyCount(items, key, key(v)) > 0
  {
    var same := set u | u in items && key(u) == key(v);
    assert v in same;
    assert same != {};
  }

  /** A non-empty set has an element. */
  lemma ElementOf(s: set<int>) returns (x: int)
    requires s != {}
    ensures x in s
  {
    if forall y :: y !in s {
      assert false;
    }
    x :| x in s;
  }

  /** `tally` maps every key that occurs among `items` to the summed weight
      of its items, where each item with key `k` weighs `unit(k)`. */
  ghost predicate Tallies(tally: map<int, nat>, items: set<int>, key: int -> int, unit: int -> nat)
  {
    (forall k :: k in tally <==> KeyCount(items, key, k) > 0) &&
    (forall k :: k in tally ==> tally[k] == unit(k) * KeyCount(items, key, k))
  }

  /** Adding one more item to a tally adds its weight under its own key. */
  lemma TallyStep(tally: map<int, nat>, done: set<int>, key: int -> int, unit: int -> nat, x: int)
    requires Tallies(tally, done, key, unit) && x !in done
    ensures Tallies(tally[key(x) := (if key(x) in tally then tally[key(x)] else 0) + unit(key(x))],
                    done + {x}, key, unit)
  {
    var next := tally[key(x) := (if key(x) in tally then tally[key(x)] else 0) + unit(key(x))];
    forall k
      ensures k in next <==> KeyCount(done + {x}, key, k) > 0
      ensures k in next ==> next[k] == unit(k) * KeyCount(done + {x}, key, k)
    {
      KeyCountStep(done, key, x, k);
    }
  }

  /** The loop step of `TallyByKey`: moving `x` from the remaining items
      to the tallied ones. */
  lemma TallyNext(tally: map<int, nat>, items: set<int>, remaining: set<int>, key: int -> int, unit: int -> nat, x: int)
    requires remaining <= items && x in remaining && Tallies(tally, items - remaining, key, unit)
    ensures Tallies(tally[key(x) := (if key(x) in tally then tally[key(x)] else 0) + unit(key(x))],
                    items - (remaining - {x}), key, unit)
  {
    TallyStep(tally, items - remaining, key, unit, x);
    assert items - (remaining - {x}) == (items - remaining) + {x};
  }

  /** Swift's `reduce(into: [:]) { $0[key($1), default: 0] += weight($1) }`
      over a set, where an item's weight depends only on its key. */
  method TallyByKey(items: set<int>, key: int -> int, weight: int -> nat, ghost unit: int -> nat)
    returns (tally: map<int, nat>)
    requires forall v :: v in items ==> weight(v) == unit(key(v))
    ensures Tallies(tally, items, key, unit)
    ensures forall v :: v in items ==> key(v) in tally
  {
    tally := map[];
    var remaining := items;
    while remaining != {}
      invariant remaining <= items
      invariant Tallies(tally, items - remaining, key, unit)
      decreases |remaining|
    {
      ghost var some := ElementOf(remaining);
      var x :| x in remaining;
      TallyNext(tally, items, remaining, key, unit, x);
      tally := tally[key(x) := (if key(x) in tally then tally[key(x)] else 0) + weight(x)];
      remaining := remaining - {x};
    }
    assert items - remaining == items;
    forall v | v in items ensures key(v) in tally {
      KeyPresent(items, key, v);
    }
  }

  /** Swift's `max(by:)` on a dictionary's values: a key of greatest value,
      or `found == false` for an empty dictionary. */
  method MaxEntry(counts: map<int, nat>) returns (found: bool, key: int)
    ensures found <==> counts.Keys != {}
    ensures found ==> key in counts && forall k :: k in counts ==> counts[k] <= counts[key]
  {
    found, key := false, 0;
    var keys := counts.Keys;
    ghost var seen: set<int> := {};
    while keys != {}
      invariant seen !! keys && seen + keys == counts.Keys
      invariant found <==> seen != {}
      invariant found ==> key in seen
      invariant forall j :: j in seen ==> counts[j] <= counts[key]
      decreases |keys|
    {
      ghost var some := ElementOf(keys);
      var k :| k in keys;
      if !found || counts[key] < counts[k] {
        found, key := true, k;
      }
      keys := keys - {k};
      seen := seen + {k};
    }
  }
}
