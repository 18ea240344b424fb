/** Sequence helpers: counting, boolean masks and order-preserving selection.
    A boolean mask is how pandas selects rows (`df[mask]`) and how the model
    selects columns to keep; `Kept` names the selected positions. */
module Seqs {

  /** No element occurs twice. */
  predicate Distinct<T(==)>(s: seq<T>)
  {
    forall i, j :: 0 <= i < j < |s| ==> s[i] != s[j]
  }

  /** Number of `true` entries of a mask (pandas' `mask.sum()`). */
  function CountTrue(b: seq<bool>): (k: nat)
    ensures k <= |b|
    ensures k == 0 <==> forall i :: 0 <= i < |b| ==> !b[i]
  {
    if |b| == 0 then 0
    else CountTrue(b[..|b| - 1]) + (if b[|b| - 1] then 1 else 0)
  }

  /** The positions of the `true` entries of a mask, in increasing order. */
  function Kept(keep: seq<bool>): (ks: seq<nat>)
    ensures |ks| == CountTrue(keep)
    ensures forall j :: 0 <= j < |ks| ==> ks[j] < |keep| && keep[ks[j]]
    ensures forall j, k :: 0 <= j < k < |ks| ==> ks[j] < ks[k]
  {
    if |keep| == 0 then []
    else
      var rest := Kept(keep[..|keep| - 1]);
      if keep[|keep| - 1] then rest + [|keep| - 1] else rest
  }

  /** Every selected position is listed by `Kept`. */
  lemma {:induction false} KeptComplete(keep: seq<bool>, i: nat)
    requires i < |keep| && keep[i]
    ensures i in Kept(keep)
  {
    var n := |keep| - 1;
    if i < n {
      KeptComplete(keep[..n], i);
    }
  }

  /** An element of a nonempty sequence is its head or lies in its tail. */
  lemma InTail<T>(s: seq<T>)
    requires |s| > 0
    ensures forall x :: x in s <==> x == s[0] || x in s[1..]
  {
    assert s == [s[0]] + s[1..];
  }

  /** The entries of `s` whose mask entry is true, in their original order. */
  function Pick<T>(s: seq<T>, keep: seq<bool>): (r: seq<T>)
    requires |keep| == |s|
    ensures |r| == |Kept(keep)|
    ensures forall j :: 0 <= j < |r| ==> r[j] == s[Kept(keep)[j]]
  {
    var ks := Kept(keep);
    seq(|ks|, j requires 0 <= j < |ks| => s[ks[j]])
  }

  /** An all-true mask keeps every position. */
  lemma {:induction false} KeptAll(keep: seq<bool>)
    requires forall i :: 0 <= i < |keep| ==> keep[i]
    ensures |Kept(keep)| == |keep|
    ensures forall j :: 0 <= j < |keep| ==> Kept(keep)[j] == j
  {
    if |keep| > 0 {
      var n := |keep| - 1;
      KeptAll(keep[..n]);
      var ks := Kept(keep);
      assert ks == Kept(keep[..n]) + [n];
      forall j | 0 <= j < |keep|
        ensures ks[j] == j
      {
        if j < n {
          assert ks[j] == Kept(keep[..n])[j];
        }
      }
    }
  }

  /** Selecting with an all-true mask is the identity. */
  lemma PickAll<T>(s: seq<T>, keep: seq<bool>)
    requires |keep| == |s|
    requires forall i :: 0 <= i < |keep| ==> keep[i]
    ensures Pick(s, keep) == s
  {
    KeptAll(keep);
  }

  /** Selection keeps exactly the elements at the selected positions. */
  lemma PickMembers<T>(s: seq<T>, keep: seq<bool>, x: T)
    requires |keep| == |s|
    ensures x in Pick(s, keep) <==> exists i :: 0 <= i < |s| && keep[i] && s[i] == x
  {
    var r := Pick(s, keep);
    var ks := Kept(keep);
    if x in r {
      var j :| 0 <= j < |r| && r[j] == x;
      assert keep[ks[j]] && s[ks[j]] == x;
    }
    if exists i :: 0 <= i < |s| && keep[i] && s[i] == x {
      var i :| 0 <= i < |s| && keep[i] && s[i] == x;
      KeptComplete(keep, i);
      var j :| 0 <= j < |ks| && ks[j] == i;
      assert r[j] == x;
    }
  }

  /** Selection from a sequence without repetitions has none either. */
  lemma PickDistinct<T>(s: seq<T>, keep: seq<bool>)
    requires |keep| == |s|
    requires Distinct(s)
    ensures Distinct(Pick(s, keep))
  {
    var r := Pick(s, keep);
    var ks := Kept(keep);
    forall i, j | 0 <= i < j < |r|
      ensures r[i] != r[j]
    {
      assert ks[i] < ks[j];
    }
  }

  /** Position of the first occurrence of `x`. */
  function IndexOf<T(==)>(s: seq<T>, x: T): (i: nat)
    requires x in s
    ensures i < |s| && s[i] == x
    ensures forall j :: 0 <= j < i ==> s[j] != x
  {
    if s[0] == x then 0 else 1 + IndexOf(s[1..], x)
  }

  /** In a sequence without repetitions, `IndexOf` inverts indexing. */
  lemma IndexOfDistinct<T>(s: seq<T>, i: nat)
    requires Distinct(s) && i < |s|
    ensures IndexOf(s, s[i]) == i
  {
  }

  lemma {:induction false} IndexOfPrefix<T>(s: seq<T>, y: T, x: T)
    requires x in s
    ensures IndexOf(s + [y], x) == IndexOf(s, x)
  {
    if s[0] != x {
      assert (s + [y])[1..] == s[1..] + [y];
      IndexOfPrefix(s[1..], y, x);
    }
  }

  lemma {:induction false} IndexOfLast<T>(s: seq<T>, y: T)
    requires y !in s
    ensures IndexOf(s + [y], y) == |s|
  {
    if |s| > 0 {
      assert (s + [y])[1..] == s[1..] + [y];
      IndexOfLast(s[1..], y);
    }
  }

  /** Selection from a sequence without repetitions keeps the elements in
      their original relative order. */
  lemma PickOrdered<T>(s: seq<T>, keep: seq<bool>)
    requires |keep| == |s| && Distinct(s)
    ensures forall a, b :: 0 <= a < b < |Pick(s, keep)| ==> IndexOf(s, Pick(s, keep)[a]) < IndexOf(s, Pick(s, keep)[b])
  {
    var r := Pick(s, keep);
    var ks := Kept(keep);
    forall a, b | 0 <= a < b < |r|
      ensures IndexOf(s, r[a]) < IndexOf(s, r[b])
    {
      IndexOfDistinct(s, ks[a]);
      IndexOfDistinct(s, ks[b]);
    }
  }

  /** A value occurring at two positions is counted at least twice. */
  lemma CountTwice<T>(s: seq<T>, i: nat, j: nat)
    requires i < j < |s| && s[i] == s[j]
    ensures multiset(s)[s[i]] >= 2
  {
    assert s == s[..i] + [s[i]] + s[i + 1..j] + [s[j]] + s[j + 1..];
  }

  /** In a sequence without repetitions every value is counted at most once. */
  lemma {:induction false} DistinctAtMostOnce<T>(s: seq<T>, x: T)
    requires Distinct(s)
    ensures multiset(s)[x] <= 1
  {
    if |s| > 0 {
      assert s == [s[0]] + s[1..];
      assert Distinct(s[1..]);
      DistinctAtMostOnce(s[1..], x);
      if s[0] == x {
        assert x !in s[1..];
      }
    }
  }
}
