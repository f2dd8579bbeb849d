/** Sequence facts shared by the generators and the gallery: optional values,
    duplicate-freedom, de-duplication in insertion order, and subsequences. */
module Seqs {

  /** A value that may be absent: JavaScript's `null` or a present value. */
  datatype Option<T> = None | Some(value: T)

  /** No element occurs twice. */
  predicate Distinct<T(==)>(s: seq<T>) {
    forall i, j :: 0 <= i < j < |s| ==> s[i] != s[j]
  }

  /** Both halves of a duplicate-free concatenation are duplicate-free. */
  lemma DistinctSplit<T>(a: seq<T>, b: seq<T>)
    requires Distinct(a + b)
    ensures Distinct(a) && Distinct(b)
  {
    forall i, j | 0 <= i < j < |a| ensures a[i] != a[j] {
      assert (a + b)[i] == a[i] && (a + b)[j] == a[j];
    }
    forall i, j | 0 <= i < j < |b| ensures b[i] != b[j] {
      assert (a + b)[|a| + i] == b[i] && (a + b)[|a| + j] == b[j];
    }
  }

  /** In a duplicate-free sequence every element occurs at most once. */
  lemma {:induction false} DistinctOccursOnce<T>(s: seq<T>, x: T)
    requires Distinct(s)
    ensures multiset(s)[x] == if x in s then 1 else 0
  {
    if s != [] {
      assert s == [s[0]] + s[1..];
      assert Distinct(s[1..]) by {
        forall i, j | 0 <= i < j < |s[1..]| ensures s[1..][i] != s[1..][j] {
          assert s[1..][i] == s[i + 1] && s[1..][j] == s[j + 1];
        }
      }
      DistinctOccursOnce(s[1..], x);
      if s[0] == x {
        assert x !in s[1..] by {
          forall k | 0 <= k < |s[1..]| ensures s[1..][k] != x {
            assert s[1..][k] == s[k + 1];
          }
        }
      }
    }
  }

  /** An element found at two positions occurs at least twice. */
  lemma RepeatOccursTwice<T>(s: seq<T>, i: nat, j: nat)
    requires i < j < |s| && s[i] == s[j]
    ensures multiset(s)[s[i]] >= 2
  {
    var x := s[i];
    assert s == s[..i] + [x] + s[i + 1..j] + [x] + s[j + 1..];
    assert multiset(s) == multiset(s[..i]) + multiset{x} + multiset(s[i + 1..j]) + multiset{x} + multiset(s[j + 1..]);
  }

  /** Permuting a duplicate-free sequence keeps it duplicate-free. */
  lemma PermutationKeepsDistinct<T>(a: seq<T>, b: seq<T>)
    requires multiset(a) == multiset(b) && Distinct(a)
    ensures Distinct(b)
  {
    forall i, j | 0 <= i < j < |b| ensures b[i] != b[j] {
      if b[i] == b[j] {
        RepeatOccursTwice(b, i, j);
        DistinctOccursOnce(a, b[i]);
        assert false;
      }
    }
  }

  /** The elements of `s` in the order a JavaScript `Set` built from `s`
      iterates them: each element at its first occurrence, later copies dropped. */
  function Dedup<T(==,!new)>(s: seq<T>): (r: seq<T>)
    ensures Distinct(r)
    ensures forall x :: x in r <==> x in s
    ensures |r| <= |s|
  {
    if s == [] then []
    else
      var d := Dedup(s[..|s| - 1]);
      var x := s[|s| - 1];
      if x in d then d else d + [x]
  }

  /** De-duplicating after appending one element keeps what was there and
      adds the element at the end only if it is new. */
  lemma DedupSnoc<T(!new)>(s: seq<T>, x: T)
    ensures Dedup(s + [x]) == if x in Dedup(s) then Dedup(s) else Dedup(s) + [x]
  {
    assert (s + [x])[..|s + [x]| - 1] == s;
  }

  /** De-duplication leaves a sequence that has no duplicates as it is. */
  lemma {:induction false} DedupOfDistinct<T(!new)>(s: seq<T>)
    requires Distinct(s)
    ensures Dedup(s) == s
  {
    if s != [] {
      var init := s[..|s| - 1];
      assert Distinct(init);
      DedupOfDistinct(init);
      assert s[|s| - 1] !in init;
    }
  }

  /** The elements of `s`, in order, that are not in `drop`. */
  function Without<T(==,!new)>(s: seq<T>, drop: seq<T>): (r: seq<T>)
    ensures forall x :: x in r <==> x in s && x !in drop
    ensures Distinct(s) ==> Distinct(r)
  {
    if s == [] then []
    else
      var rest := Without(s[1..], drop);
      if s[0] in drop then rest
      else
        assert Distinct(s) ==> s[0] !in s[1..] by {
          if Distinct(s) {
            forall k | 0 <= k < |s[1..]| ensures s[1..][k] != s[0] {
              assert s[1..][k] == s[k + 1];
            }
          }
        }
        assert Distinct(s) ==> Distinct(s[1..]) by {
          if Distinct(s) {
            forall i, j | 0 <= i < j < |s[1..]| ensures s[1..][i] != s[1..][j] {
              assert s[1..][i] == s[i + 1] && s[1..][j] == s[j + 1];
            }
          }
        }
        [s[0]] + rest
  }

  /** Dropping elements works piece by piece. */
  lemma {:induction false} WithoutAppend<T(!new)>(a: seq<T>, b: seq<T>, drop: seq<T>)
    ensures Without(a + b, drop) == Without(a, drop) + Without(b, drop)
  {
    if a == [] {
      assert a + b == b;
    } else {
      assert (a + b)[0] == a[0] && (a + b)[1..] == a[1..] + b;
      WithoutAppend(a[1..], b, drop);
    }
  }

  /** `Dedup` read from the front: the first element is kept, and after it
      come the de-duplicated rest with every copy of that first element
      removed. So each element stands at its first occurrence and the
      elements appear in the order in which they first occur. */
  lemma {:induction false} DedupFromFront<T(!new)>(s: seq<T>)
    requires s != []
    ensures Dedup(s) == [s[0]] + Without(Dedup(s[1..]), [s[0]])
    decreases |s|
  {
    var x := s[|s| - 1];
    if |s| == 1 {
      assert s[..0] == [] && s[1..] == [];
    } else {
      var init := s[..|s| - 1];
      var first := s[0];
      assert init[0] == first;
      assert s[1..] == init[1..] + [x];
      assert s == init + [x];
      DedupFromFront(init);
      var e := Dedup(init[1..]);
      var d := Dedup(init);
      assert d == [first] + Without(e, [first]);
      DedupSnoc(init, x);
      DedupSnoc(init[1..], x);
      WithoutAppend(e, [x], [first]);
      assert Without([x], [first]) == if x == first then [] else [x];
      if x != first {
        assert x in d <==> x in e;
      } else {
        assert x in d;
      }
    }
  }

  /** A duplicate-free concatenation: both halves duplicate-free, no element in both. */
  lemma DistinctConcat<T>(a: seq<T>, b: seq<T>)
    requires Distinct(a) && Distinct(b)
    requires forall x :: x in a ==> x !in b
    ensures Distinct(a + b)
  {
    var c := a + b;
    forall i, j | 0 <= i < j < |c| ensures c[i] != c[j] {
      if j < |a| {
        assert c[i] == a[i] && c[j] == a[j];
      } else if i >= |a| {
        assert c[i] == b[i - |a|] && c[j] == b[j - |a|];
      } else {
        assert c[i] == a[i] && c[j] == b[j - |a|] && a[i] in a;
      }
    }
  }

  /** For a duplicate-free `a`, being a permutation of `a` means having no
      duplicates and exactly its elements; the length then agrees too. */
  lemma DistinctPermutation<T>(a: seq<T>, b: seq<T>)
    requires Distinct(a)
    ensures multiset(b) == multiset(a) <==>
      Distinct(b) && (forall x :: x in b ==> x in a) && (forall x :: x in a ==> x in b)
    ensures multiset(b) == multiset(a) ==> |b| == |a|
  {
    if multiset(b) == multiset(a) {
      assert |b| == |multiset(b)|;
      PermutationKeepsDistinct(a, b);
      assert forall x :: x in b ==> x in multiset(a);
      assert forall x :: x in a ==> x in multiset(b);
    }
    if Distinct(b) && (forall x :: x in b ==> x in a) && (forall x :: x in a ==> x in b) {
      forall x ensures multiset(b)[x] == multiset(a)[x] {
        DistinctOccursOnce(a, x);
        DistinctOccursOnce(b, x);
      }
      assert multiset(b) == multiset(a);
    }
  }

  /** A duplicate-free selection from a duplicate-free `s`, followed by the
      rest of `s`, is an arrangement of `s`. */
  lemma SelectionThenRest<T(!new)>(s: seq<T>, chosen: seq<T>)
    requires Distinct(s) && Distinct(chosen)
    requires forall x :: x in chosen ==> x in s
    ensures var r := chosen + Without(s, chosen);
      |r| == |s| && Distinct(r) && (forall x :: x in r ==> x in s) && (forall x :: x in s ==> x in r)
  {
    var rest := Without(s, chosen);
    DistinctConcat(chosen, rest);
    var r := chosen + rest;
    assert forall x :: x in r <==> x in s;
    DistinctPermutation(s, r);
  }

  /** `r` can be obtained from `s` by deleting elements: the elements of `r`
      occur in `s` in the same relative order. */
  ghost predicate IsSubsequence<T>(r: seq<T>, s: seq<T>)
    decreases |s|
  {
    if r == [] then true
    else if s == [] then false
    else if r[0] == s[0] then IsSubsequence(r[1..], s[1..])
    else IsSubsequence(r, s[1..])
  }
}
