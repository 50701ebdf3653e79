/** Generic sequence operations standing for JavaScript's `Array.prototype.filter`
    and `Array.prototype.find`, with the facts the pages rely on. */
module Sequences {
  import opened Options

  /** The complement of a predicate (the `q => !p(q)` callbacks of the sources). */
  function Not<T(!new)>(p: T -> bool): (notP: T -> bool)
    ensures forall x :: notP(x) == !p(x)
  {
    x => !p(x)
  }

  /** The elements of `s` satisfying `p`, in their original order. */
  function Filter<T(!new)>(p: T -> bool, s: seq<T>): (kept: seq<T>)
    ensures |kept| <= |s|
    ensures forall i :: 0 <= i < |kept| ==> p(kept[i])
    ensures forall x :: x in kept <==> x in s && p(x)
    decreases |s|
  {
    if s == [] then []
    else if p(s[0]) then [s[0]] + Filter(p, s[1..])
    else Filter(p, s[1..])
  }

  /** `s` is a merge of `a` and `b`: every element of `s` is taken, in order, from the
      front of exactly one of them, so each of `a` and `b` keeps the relative order it has in `s`. */
  ghost predicate Interleaving<T(!new)>(s: seq<T>, a: seq<T>, b: seq<T>)
    decreases |s|
  {
    if s == [] then a == [] && b == []
    else
      || (a != [] && a[0] == s[0] && Interleaving(s[1..], a[1..], b))
      || (b != [] && b[0] == s[0] && Interleaving(s[1..], a, b[1..]))
  }

  lemma FilterCons<T(!new)>(p: T -> bool, x: T, s: seq<T>)
    ensures Filter(p, [x] + s) == if p(x) then [x] + Filter(p, s) else Filter(p, s)
  {
    assert ([x] + s)[1..] == s;
  }

  /** Filtering by `p` and by its complement splits `s` into two ordered parts. */
  lemma {:induction false} FilterInterleaves<T(!new)>(p: T -> bool, s: seq<T>)
    ensures Interleaving(s, Filter(p, s), Filter(Not(p), s))
    decreases |s|
  {
    if s != [] {
      FilterInterleaves(p, s[1..]);
      if p(s[0]) {
        assert Filter(p, s)[1..] == Filter(p, s[1..]);
      } else {
        assert Filter(Not(p), s)[1..] == Filter(Not(p), s[1..]);
      }
    }
  }

  lemma {:induction false} InterleavingSwap<T(!new)>(s: seq<T>, a: seq<T>, b: seq<T>)
    requires Interleaving(s, a, b)
    ensures Interleaving(s, b, a)
    decreases |s|
  {
    if s != [] {
      if a != [] && a[0] == s[0] && Interleaving(s[1..], a[1..], b) {
        InterleavingSwap(s[1..], a[1..], b);
      } else {
        InterleavingSwap(s[1..], a, b[1..]);
      }
    }
  }

  /** A merge loses and invents nothing. */
  lemma {:induction false} InterleavingCounts<T(!new)>(s: seq<T>, a: seq<T>, b: seq<T>)
    requires Interleaving(s, a, b)
    ensures |a| + |b| == |s|
    ensures multiset(a) + multiset(b) == multiset(s)
    decreases |s|
  {
    if s != [] {
      assert s == [s[0]] + s[1..];
      if a != [] && a[0] == s[0] && Interleaving(s[1..], a[1..], b) {
        InterleavingCounts(s[1..], a[1..], b);
        assert a == [a[0]] + a[1..];
      } else {
        InterleavingCounts(s[1..], a, b[1..]);
        assert b == [b[0]] + b[1..];
      }
    }
  }

  /** The split by `p` is the only merge whose left part satisfies `p` throughout and whose
      right part fails it throughout. */
  lemma {:induction false} InterleavingUnique<T(!new)>(p: T -> bool, s: seq<T>, a: seq<T>, b: seq<T>)
    requires Interleaving(s, a, b)
    requires forall i :: 0 <= i < |a| ==> p(a[i])
    requires forall i :: 0 <= i < |b| ==> !p(b[i])
    ensures a == Filter(p, s) && b == Filter(Not(p), s)
    decreases |s|
  {
    if s != [] {
      if p(s[0]) {
        assert !(b != [] && b[0] == s[0]);
        assert a != [] && a[0] == s[0] && Interleaving(s[1..], a[1..], b);
        InterleavingUnique(p, s[1..], a[1..], b);
        assert a == [a[0]] + a[1..];
      } else {
        assert !(a != [] && a[0] == s[0]);
        assert b != [] && b[0] == s[0] && Interleaving(s[1..], a, b[1..]);
        InterleavingUnique(p, s[1..], a, b[1..]);
        assert b == [b[0]] + b[1..];
      }
    }
  }

  /** Filtering a sequence whose elements all pass changes nothing. */
  lemma {:induction false} FilterAllPass<T(!new)>(p: T -> bool, s: seq<T>)
    requires forall i :: 0 <= i < |s| ==> p(s[i])
    ensures Filter(p, s) == s
    decreases |s|
  {
    if s != [] {
      FilterAllPass(p, s[1..]);
      assert s == [s[0]] + s[1..];
    }
  }

  /** Two filters may be applied in either order. */
  lemma {:induction false} FilterCommutes<T(!new)>(p: T -> bool, q: T -> bool, s: seq<T>)
    ensures Filter(p, Filter(q, s)) == Filter(q, Filter(p, s))
    decreases |s|
  {
    if s != [] {
      FilterCommutes(p, q, s[1..]);
      var x, t := s[0], s[1..];
      if q(x) {
        FilterCons(p, x, Filter(q, t));
      }
      if p(x) {
        FilterCons(q, x, Filter(p, t));
      }
    }
  }

  /** The index of the first element of `s` satisfying `p` (the position `find` stops at). */
  function FindFirst<T(!new)>(p: T -> bool, s: seq<T>): (found: Option<nat>)
    ensures found.None? <==> forall i :: 0 <= i < |s| ==> !p(s[i])
    ensures found.Some? ==> found.value < |s| && p(s[found.value])
    ensures found.Some? ==> forall j :: 0 <= j < found.value ==> !p(s[j])
    decreases |s|
  {
    if s == [] then None
    else if p(s[0]) then Some(0)
    else match FindFirst(p, s[1..])
      case None => None
      case Some(i) => Some(i + 1)
  }
}
