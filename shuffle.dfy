/**
 * The per-epoch shuffle: `zip(x, y)` is shuffled in place and unzipped into
 * `sequences` and `labels`. The random order is an input here, a permutation of the
 * example indices.
 */
module Shuffle {

  /** No index is taken twice. */
  predicate Injective(p: seq<nat>)
  {
    forall i, j :: 0 <= i < j < |p| ==> p[i] != p[j]
  }

  /** `p` lists each of `0 .. n-1` once: position `i` of the shuffled list holds example `p[i]`. */
  predicate IsPermutation(p: seq<nat>, n: nat)
  {
    |p| == n && (forall i :: 0 <= i < n ==> p[i] < n) && Injective(p)
  }

  /** The list `s` in the order `p`. */
  function Permute<T>(s: seq<T>, p: seq<nat>): (r: seq<T>)
    requires IsPermutation(p, |s|)
    ensures |r| == |s|
    ensures forall i :: 0 <= i < |r| ==> r[i] == s[p[i]]
  {
    seq(|s|, i requires 0 <= i < |s| => s[p[i]])
  }

  /** `zip(x, y)`: each example's sequence paired with its label. */
  function Zip<X, Y>(x: seq<X>, y: seq<Y>): (ps: seq<(X, Y)>)
    requires |x| == |y|
    ensures |ps| == |x|
    ensures forall i :: 0 <= i < |ps| ==> ps[i].0 == x[i] && ps[i].1 == y[i]
  {
    seq(|x|, i requires 0 <= i < |x| => (x[i], y[i]))
  }

  /** `zip(*ps)`: the first and the second components, each in the order of `ps`. */
  function Unzip<X, Y>(ps: seq<(X, Y)>): (r: (seq<X>, seq<Y>))
    ensures |r.0| == |ps| && |r.1| == |ps|
    ensures forall i :: 0 <= i < |ps| ==> r.0[i] == ps[i].0 && r.1[i] == ps[i].1
  {
    (seq(|ps|, i requires 0 <= i < |ps| => ps[i].0), seq(|ps|, i requires 0 <= i < |ps| => ps[i].1))
  }

  /** Indices above `v` shifted down by one, closing the gap `v` leaves. */
  function Squeeze(p: seq<nat>, v: nat): (q: seq<nat>)
    ensures |q| == |p|
    ensures forall i :: 0 <= i < |p| ==> q[i] == if p[i] > v then p[i] - 1 else p[i]
  {
    seq(|p|, i requires 0 <= i < |p| => if p[i] > v then p[i] - 1 else p[i])
  }

  /** Pigeonhole: `|p|` distinct indices below `m` need `|p| <= m`. */
  lemma {:induction false} InjectiveBound(p: seq<nat>, m: nat)
    requires Injective(p)
    requires forall i :: 0 <= i < |p| ==> p[i] < m
    ensures |p| <= m
    decreases |p|
  {
    if |p| > 0 {
      var last := |p| - 1;
      var v := p[last];
      var q := Squeeze(p[..last], v);
      forall i | 0 <= i < |q|
        ensures q[i] < m - 1
      {
        assert p[..last][i] == p[i] != v;
      }
      InjectiveBound(q, m - 1);
    }
  }

  /** A permutation of `0 .. n-1` takes every value below `n`. */
  lemma PermutationCovers(p: seq<nat>, n: nat, v: nat)
    requires IsPermutation(p, n) && v < n
    ensures exists j :: 0 <= j < n && p[j] == v
  {
    if forall j :: 0 <= j < n ==> p[j] != v {
      var q := Squeeze(p, v);
      InjectiveBound(q, n - 1);
      assert false;
    }
  }

  /** Removing the position that holds `n - 1` leaves a permutation of `0 .. n-2`. */
  lemma DropTop(p: seq<nat>, n: nat, j: nat)
    requires IsPermutation(p, n) && j < n && p[j] == n - 1
    ensures IsPermutation(p[..j] + p[j + 1..], n - 1)
  {
    var p' := p[..j] + p[j + 1..];
    forall i | 0 <= i < n - 1
      ensures p'[i] == if i < j then p[i] else p[i + 1]
    {
    }
  }

  /** Shuffling all but the last element by the order without `n - 1` is the shuffle with position `j` cut out. */
  lemma PermuteDropTop<T>(s: seq<T>, p: seq<nat>, j: nat)
    requires IsPermutation(p, |s|) && j < |s| && p[j] == |s| - 1
    requires IsPermutation(p[..j] + p[j + 1..], |s| - 1)
    ensures Permute(s[..|s| - 1], p[..j] + p[j + 1..]) == Permute(s, p)[..j] + Permute(s, p)[j + 1..]
  {
    var p' := p[..j] + p[j + 1..];
    var r := Permute(s, p);
    var r' := Permute(s[..|s| - 1], p');
    var cut := r[..j] + r[j + 1..];
    forall i | 0 <= i < |r'|
      ensures r'[i] == cut[i]
    {
      if i < j {
        assert p'[i] == p[i];
      } else {
        assert p'[i] == p[i + 1];
      }
    }
  }

  /** Shuffling neither loses nor duplicates an element. */
  lemma {:induction false} PermutePreservesMultiset<T>(s: seq<T>, p: seq<nat>)
    requires IsPermutation(p, |s|)
    ensures multiset(Permute(s, p)) == multiset(s)
  {
    var n := |s|;
    if n > 0 {
      PermutationCovers(p, n, n - 1);
      var j :| 0 <= j < n && p[j] == n - 1;
      var p' := p[..j] + p[j + 1..];
      DropTop(p, n, j);
      var init := s[..n - 1];
      PermutePreservesMultiset(init, p');
      PermuteDropTop(s, p, j);
      MultisetCut(Permute(s, p), j);
      assert s == init + [s[n - 1]];
    }
  }

  /** Cutting position `j` out of a list removes one occurrence of its element. */
  lemma MultisetCut<T>(r: seq<T>, j: nat)
    requires j < |r|
    ensures multiset(r) == multiset(r[..j] + r[j + 1..]) + multiset{r[j]}
  {
    assert r == r[..j] + [r[j]] + r[j + 1..];
  }

  /**
   * Shuffling the zipped pairs and unzipping them puts sequences and labels in the same
   * order, so every sequence stays with its own label, and the shuffled pairs are the
   * original pairs, each once.
   */
  lemma ShuffleKeepsPairs<X, Y>(x: seq<X>, y: seq<Y>, p: seq<nat>)
    requires |x| == |y| && IsPermutation(p, |x|)
    ensures Unzip(Permute(Zip(x, y), p)) == (Permute(x, p), Permute(y, p))
    ensures multiset(Permute(Zip(x, y), p)) == multiset(Zip(x, y))
  {
    var u := Unzip(Permute(Zip(x, y), p));
    assert u.0 == Permute(x, p);
    assert u.1 == Permute(y, p);
    PermutePreservesMultiset(Zip(x, y), p);
  }
}
