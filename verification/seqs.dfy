/** Sequence helpers the controllers' list comprehensions and `chain` need:
    element-wise mapping, flattening, and the fact that both respect
    "same elements in another order" (Python 2 dicts iterate in an
    unspecified order). */
module Seqs {

  /** `[f(x) for x in s]`. */
  function Map<A, B>(f: A -> B, s: seq<A>): (r: seq<B>)
    ensures |r| == |s| && forall i :: 0 <= i < |s| ==> r[i] == f(s[i])
  {
    seq(|s|, i requires 0 <= i < |s| => f(s[i]))
  }

  /** Mapping distributes over concatenation. */
  lemma MapConcat<A, B>(f: A -> B, a: seq<A>, b: seq<A>)
    ensures Map(f, a + b) == Map(f, a) + Map(f, b)
  {
  }

  /** `s2` is `s1` with its first element moved to position `k`; what is
      left of both once that element is taken out has the same elements. */
  lemma RemoveFirst<A>(s1: seq<A>, s2: seq<A>) returns (k: nat)
    requires multiset(s1) == multiset(s2) && |s1| > 0
    ensures k < |s2| && s2[k] == s1[0]
    ensures s2 == s2[..k] + [s1[0]] + s2[k + 1..]
    ensures multiset(s1[1..]) == multiset(s2[..k] + s2[k + 1..])
  {
    var t := s1[0];
    assert t in multiset(s2);
    k :| 0 <= k < |s2| && s2[k] == t;
    var pre, post := s2[..k], s2[k + 1..];
    assert s2 == pre + [t] + post;
    assert s1 == [t] + s1[1..];
    forall x ensures multiset(s1[1..])[x] == multiset(pre + post)[x] {
      assert multiset(s1)[x] == multiset(s2)[x];
    }
  }

  /** Mapping preserves "same elements, any order". */
  lemma {:induction false} MapPermutation<A, B>(f: A -> B, s1: seq<A>, s2: seq<A>)
    requires multiset(s1) == multiset(s2)
    ensures multiset(Map(f, s1)) == multiset(Map(f, s2))
    decreases |s1|
  {
    if |s1| == 0 {
      assert |multiset(s2)| == 0;
      assert s2 == [];
    } else {
      var t := s1[0];
      var k := RemoveFirst(s1, s2);
      var pre, post := s2[..k], s2[k + 1..];
      MapPermutation(f, s1[1..], pre + post);
      assert s1 == [t] + s1[1..];
      MapConcat(f, [t], s1[1..]);
      MapConcat(f, pre + [t], post);
      MapConcat(f, pre, [t]);
      MapConcat(f, pre, post);
    }
  }

  /** The summed lengths of the parts. */
  function Total(parts: seq<seq<string>>): nat
  {
    if |parts| == 0 then 0 else |parts[0]| + Total(parts[1..])
  }

  /** `list(chain(*parts))`: the lists of strings one after another. */
  function Flatten(parts: seq<seq<string>>): (r: seq<string>)
    ensures |r| == Total(parts)
    ensures forall x :: x in r <==> exists i :: 0 <= i < |parts| && x in parts[i]
  {
    if |parts| == 0 then []
    else
      var rest := Flatten(parts[1..]);
      assert forall i :: 1 <= i < |parts| ==> parts[i] == parts[1..][i - 1];
      assert forall x :: x in parts[0] + rest <==> x in parts[0] || x in rest;
      parts[0] + rest
  }

  /** Flattening distributes over concatenation. */
  lemma {:induction false} FlattenConcat(a: seq<seq<string>>, b: seq<seq<string>>)
    ensures Flatten(a + b) == Flatten(a) + Flatten(b)
    decreases |a|
  {
    if |a| == 0 {
      assert a + b == b;
    } else {
      assert (a + b)[1..] == a[1..] + b;
      FlattenConcat(a[1..], b);
    }
  }

  /** One list flattens to itself; with `FlattenConcat` this fixes
      `Flatten` as concatenation. */
  lemma FlattenSingle(p: seq<string>)
    ensures Flatten([p]) == p
  {
    assert [p][1..] == [];
  }

  /** Part `i` sits in the flattened list, whole and in order, right after
      the parts before it. */
  lemma {:induction false} FlattenPlaces(parts: seq<seq<string>>, i: nat)
    requires i < |parts|
    ensures var at := Total(parts[..i]);
      at + |parts[i]| <= |Flatten(parts)| && Flatten(parts)[at..at + |parts[i]|] == parts[i]
    decreases i
  {
    var r := Flatten(parts);
    assert r == parts[0] + Flatten(parts[1..]);
    if i == 0 {
      assert parts[..0] == [];
    } else {
      FlattenPlaces(parts[1..], i - 1);
      assert parts[..i][1..] == parts[1..][..i - 1];
      assert parts[1..][i - 1] == parts[i];
      var at := Total(parts[1..][..i - 1]);
      assert Total(parts[..i]) == |parts[0]| + at;
      assert r[|parts[0]| + at..|parts[0]| + at + |parts[i]|] == Flatten(parts[1..])[at..at + |parts[i]|];
    }
  }

  /** Flattening the same parts in another order gives the same elements
      in another order. */
  lemma {:induction false} FlattenPermutation(s1: seq<seq<string>>, s2: seq<seq<string>>)
    requires multiset(s1) == multiset(s2)
    ensures multiset(Flatten(s1)) == multiset(Flatten(s2))
    decreases |s1|
  {
    if |s1| == 0 {
      assert |multiset(s2)| == 0;
      assert s2 == [];
    } else {
      var t := s1[0];
      var k := RemoveFirst(s1, s2);
      var pre, post := s2[..k], s2[k + 1..];
      FlattenPermutation(s1[1..], pre + post);
      FlattenConcat(pre + [t], post);
      FlattenConcat(pre, [t]);
      FlattenConcat(pre, post);
      assert Flatten([t]) == t + Flatten([]);
    }
  }

  /** A middle part between a common prefix and a common suffix is determined. */
  lemma CancelAround<A>(pre: seq<A>, x: seq<A>, y: seq<A>, suf: seq<A>)
    requires pre + x + suf == pre + y + suf
    ensures x == y
  {
    var s1, s2 := pre + x + suf, pre + y + suf;
    assert |x| == |y|;
    assert x == s1[|pre|..|pre| + |x|];
    assert y == s2[|pre|..|pre| + |y|];
  }
}
