/** Small facts about sequences shared by the card engine: an optional value,
    pairwise distinctness and how it survives taking a sub-multiset. */
module Seqs {

  datatype Option<+T> = None | Some(value: T)

  function Min(a: int, b: int): int { if a <= b then a else b }

  /** No item occurs twice (a JS `Set` seen in insertion order, or a card's cells). */
  predicate Distinct<T(==)>(s: seq<T>)
  {
    forall i, j :: 0 <= i < j < |s| ==> s[i] != s[j]
  }

  /** In a sequence without repeats every item has multiplicity at most one. */
  lemma {:induction false} DistinctMultiplicity<T>(s: seq<T>, x: T)
    requires Distinct(s)
    ensures multiset(s)[x] <= 1
  {
    if s != [] {
      var t := s[1..];
      assert s == [s[0]] + t;
      assert Distinct(t) by {
        forall i, j | 0 <= i < j < |t| ensures t[i] != t[j] {
          assert t[i] == s[i + 1] && t[j] == s[j + 1];
        }
      }
      DistinctMultiplicity(t, x);
      if x == s[0] {
        assert x !in t;
      }
    }
  }

  /** An item found at two positions has multiplicity at least two. */
  lemma RepeatMultiplicity<T>(s: seq<T>, i: nat, j: nat)
    requires i < j < |s| && s[i] == s[j]
    ensures multiset(s)[s[i]] >= 2
  {
    assert s == s[..j] + [s[j]] + s[j + 1..];
    assert s[..j][i] == s[i];
    assert multiset(s[..j])[s[i]] >= 1;
  }

  /** Items taken (with multiplicity) from a sequence without repeats do not repeat. */
  lemma SubMultisetDistinct<T>(r: seq<T>, s: seq<T>)
    requires multiset(r) <= multiset(s) && Distinct(s)
    ensures Distinct(r)
  {
    forall i, j | 0 <= i < j < |r| ensures r[i] != r[j] {
      if r[i] == r[j] {
        RepeatMultiplicity(r, i, j);
        DistinctMultiplicity(s, r[i]);
        assert false;
      }
    }
  }

  /** A suffix is its first part followed by the rest. */
  lemma SuffixSplit<T>(s: seq<T>, lo: nat, hi: nat)
    requires lo <= hi <= |s|
    ensures s[lo..] == s[lo..hi] + s[hi..]
  {
  }
}
