/** Order-preserving filtering of sequences: the list comprehension
    `[x for x in s if keep(x)]`. */
module Seqs {

  /** `a` is `b` with some elements deleted: same relative order. */
  ghost predicate Subsequence<T>(a: seq<T>, b: seq<T>)
    decreases |b|
  {
    if a == [] then true
    else if b == [] then false
    else (a[0] == b[0] && Subsequence(a[1..], b[1..])) || Subsequence(a, b[1..])
  }

  /** The elements of `s` that satisfy `keep`, in their original order. */
  function Keep<T(!new)>(s: seq<T>, keep: T -> bool): (r: seq<T>)
    ensures |r| <= |s|
    ensures forall x :: x in r <==> x in s && keep(x)
  {
    if s == [] then []
    else if keep(s[0]) then
      var rest := Keep(s[1..], keep);
      assert s == [s[0]] + s[1..];
      assert ([s[0]] + rest)[1..] == rest;
      [s[0]] + rest
    else
      assert s == [s[0]] + s[1..];
      Keep(s[1..], keep)
  }

  /** Filtering only deletes elements: the order of the rest is kept. */
  lemma {:induction false} KeepSubsequence<T(!new)>(s: seq<T>, keep: T -> bool)
    ensures Subsequence(Keep(s, keep), s)
  {
    if s != [] {
      KeepSubsequence(s[1..], keep);
    }
  }

  /** Filtering distributes over concatenation. */
  lemma {:induction false} KeepAppend<T(!new)>(a: seq<T>, b: seq<T>, keep: T -> bool)
    ensures Keep(a + b, keep) == Keep(a, keep) + Keep(b, keep)
  {
    if a != [] {
      var ab := a + b;
      assert ab[0] == a[0] && ab[1..] == a[1..] + b;
      KeepAppend(a[1..], b, keep);
      if keep(a[0]) {
        calc {
          Keep(ab, keep);
          [a[0]] + Keep(a[1..] + b, keep);
          [a[0]] + (Keep(a[1..], keep) + Keep(b, keep));
          ([a[0]] + Keep(a[1..], keep)) + Keep(b, keep);
        }
      }
    } else {
      assert a + b == b;
    }
  }

  /** Filtering keeps every occurrence of a kept value and none of the others. */
  lemma {:induction false} KeepMultiset<T(!new)>(s: seq<T>, keep: T -> bool, x: T)
    ensures multiset(Keep(s, keep))[x] == if keep(x) then multiset(s)[x] else 0
  {
    if s != [] {
      assert s == [s[0]] + s[1..];
      KeepMultiset(s[1..], keep, x);
    }
  }

  /** Nothing is kept from a sequence none of whose elements qualify. */
  lemma {:induction false} KeepNone<T(!new)>(s: seq<T>, keep: T -> bool)
    requires forall x :: x in s ==> !keep(x)
    ensures Keep(s, keep) == []
  {
    if s != [] {
      assert forall x :: x in s[1..] ==> x in s;
      KeepNone(s[1..], keep);
    }
  }

  /** Deleting elements twice is deleting elements once. */
  lemma {:induction false} SubsequenceTransitive<T>(a: seq<T>, b: seq<T>, c: seq<T>)
    requires Subsequence(a, b) && Subsequence(b, c)
    ensures Subsequence(a, c)
    decreases |c|
  {
    if a != [] {
      assert b != [] && c != [];
      if b[0] == c[0] && Subsequence(b[1..], c[1..]) {
        if a[0] == b[0] && Subsequence(a[1..], b[1..]) {
          SubsequenceTransitive(a[1..], b[1..], c[1..]);
        } else {
          SubsequenceTransitive(a, b[1..], c[1..]);
        }
      } else {
        SubsequenceTransitive(a, b, c[1..]);
      }
    }
  }
}
