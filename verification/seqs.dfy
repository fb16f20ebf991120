/** Sequence facts shared by the selection store and the catalogue filter. */
module Seqs {

  /** `a` is obtained from `b` by deleting entries: every entry of `a` comes
      from `b`, in the same relative order. Matching greedily is complete. */
  predicate IsSubsequence<T(==,!new)>(a: seq<T>, b: seq<T>)
    decreases |b|
  {
    if a == [] then true
    else if b == [] then false
    else if a[0] == b[0] then IsSubsequence(a[1..], b[1..])
    else IsSubsequence(a, b[1..])
  }

  /** `Array.prototype.filter`: the entries of `s` that satisfy `keep`, in order. */
  function Keep<T(==,!new)>(s: seq<T>, keep: T -> bool): (r: seq<T>)
    ensures IsSubsequence(r, s)
    ensures forall i :: 0 <= i < |r| ==> keep(r[i])
    ensures forall x :: x in r <==> x in s && keep(x)
    ensures forall x :: multiset(r)[x] == if keep(x) then multiset(s)[x] else 0
    ensures (forall x :: x in s ==> keep(x)) <==> r == s
    ensures r == s || |r| < |s|
  {
    if s == [] then []
    else
      var rest := Keep(s[1..], keep);
      assert s == [s[0]] + s[1..];
      if keep(s[0]) then
        assert ([s[0]] + rest)[1..] == rest;
        [s[0]] + rest
      else
        rest
  }

  /** Filtering commutes with concatenation. */
  lemma {:induction false} KeepConcat<T(!new)>(a: seq<T>, b: seq<T>, keep: T -> bool)
    ensures Keep(a + b, keep) == Keep(a, keep) + Keep(b, keep)
  {
    if a == [] {
      assert a + b == b;
    } else {
      assert (a + b)[0] == a[0];
      assert (a + b)[1..] == a[1..] + b;
      KeepConcat(a[1..], b, keep);
    }
  }

  /** A filter that accepts every entry returns its input. */
  lemma KeepAll<T(!new)>(s: seq<T>, keep: T -> bool)
    requires forall i :: 0 <= i < |s| ==> keep(s[i])
    ensures Keep(s, keep) == s
  {
    assert forall x :: x in s ==> keep(x);
  }

  /** A subsequence never holds an entry more often than the sequence it is drawn from. */
  lemma {:induction false} SubsequenceMultiset<T(!new)>(a: seq<T>, b: seq<T>)
    requires IsSubsequence(a, b)
    ensures multiset(a) <= multiset(b)
    decreases |b|
  {
    if a == [] {
    } else if a[0] == b[0] {
      SubsequenceMultiset(a[1..], b[1..]);
      assert a == [a[0]] + a[1..];
      assert b == [b[0]] + b[1..];
    } else {
      SubsequenceMultiset(a, b[1..]);
      assert b == [b[0]] + b[1..];
    }
  }

  /** The filter is the only order-preserving subsequence holding exactly the
      accepted entries, each as often as in the input: an independent
      characterisation of `Keep`. */
  lemma {:induction false} KeepIsUnique<T(!new)>(s: seq<T>, keep: T -> bool, r: seq<T>)
    requires IsSubsequence(r, s)
    requires forall x :: multiset(r)[x] == if keep(x) then multiset(s)[x] else 0
    ensures r == Keep(s, keep)
    decreases |s|
  {
    if s == [] {
    } else {
      var x := s[0];
      assert s == [x] + s[1..];
      if r != [] && r[0] == x {
        assert r == [x] + r[1..];
        forall y
          ensures multiset(r[1..])[y] == if keep(y) then multiset(s[1..])[y] else 0
        {
        }
        KeepIsUnique(s[1..], keep, r[1..]);
      } else {
        assert IsSubsequence(r, s[1..]);
        SubsequenceMultiset(r, s[1..]);
        if keep(x) {
          assert false;
        }
        forall y
          ensures multiset(r)[y] == if keep(y) then multiset(s[1..])[y] else 0
        {
          if keep(y) {
            assert y != x;
          }
        }
        KeepIsUnique(s[1..], keep, r);
      }
    }
  }
}
