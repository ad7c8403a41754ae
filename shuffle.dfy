/** Fisher–Yates shuffle (`shuffleArray`, app/page.tsx).
    The random draws `Math.floor(Math.random() * (i + 1))` are replaced by an
    explicit oracle: `draws[i]` is the index drawn when the loop variable is `i`. */
module Shuffle {

  /** The draws a Fisher–Yates pass over `n` elements may take: the draw for
      loop index `i` lies in `[0, i]`. The loop never reaches `i == 0`, so
      `draws[0]` is never used (and can only be 0). */
  predicate ValidDraws(draws: seq<nat>, n: nat) {
    |draws| == n && forall i :: 0 <= i < n ==> draws[i] <= i
  }

  /** Exchange the elements at two in-bounds positions. */
  function Swap<T>(s: seq<T>, i: nat, j: nat): (r: seq<T>)
    requires i < |s| && j < |s|
    ensures |r| == |s| && r[i] == s[j] && r[j] == s[i]
    ensures forall k :: 0 <= k < |s| && k != i && k != j ==> r[k] == s[k]
  {
    s[i := s[j]][j := s[i]]
  }

  /** The loop iterations for `i`, `i - 1`, ..., `1` applied to `s`. */
  function Rounds<T>(s: seq<T>, draws: seq<nat>, i: int): (r: seq<T>)
    requires ValidDraws(draws, |s|) && i < |s|
    ensures |r| == |s|
    decreases i
  {
    if i <= 0 then s else Rounds(Swap(s, i, draws[i]), draws, i - 1)
  }

  /** The whole pass: the loop runs `i` from `|s| - 1` down to `1`. */
  function FisherYates<T>(s: seq<T>, draws: seq<nat>): (r: seq<T>)
    requires ValidDraws(draws, |s|)
    ensures |r| == |s|
    ensures |s| <= 1 ==> r == s
  {
    Rounds(s, draws, |s| - 1)
  }

  /** `0, 1, ..., n - 1` */
  function Range(n: nat): (r: seq<nat>)
    ensures |r| == n && forall k :: 0 <= k < n ==> r[k] == k
  {
    seq(n, k => k)
  }

  /** Where each output position of a pass over `n` elements takes its element from. */
  function ShuffleOrder(n: nat, draws: seq<nat>): (r: seq<nat>)
    requires ValidDraws(draws, n)
    ensures |r| == n
  {
    FisherYates(Range(n), draws)
  }

  /** No element occurs twice. */
  predicate Distinct<T(==)>(s: seq<T>) {
    forall a, b :: 0 <= a < b < |s| ==> s[a] != s[b]
  }

  /** `p` lists every index below `n` exactly once. */
  predicate IsPermutation(p: seq<nat>, n: nat) {
    && |p| == n
    && (forall k :: 0 <= k < n ==> p[k] < n)
    && Distinct(p)
    && (forall m :: 0 <= m < n ==> m in p)
  }

  /** A swap keeps the multiset of elements. Kept out of `Swap`'s contract
      so that only the proofs that need it see it. */
  lemma SwapPermutes<T>(s: seq<T>, i: nat, j: nat)
    requires i < |s| && j < |s|
    ensures multiset(Swap(s, i, j)) == multiset(s)
  {
  }

  lemma {:induction false} RoundsPermutes<T>(s: seq<T>, draws: seq<nat>, i: int)
    requires ValidDraws(draws, |s|) && i < |s|
    ensures multiset(Rounds(s, draws, i)) == multiset(s)
    decreases i
  {
    if i > 0 {
      SwapPermutes(s, i, draws[i]);
      RoundsPermutes(Swap(s, i, draws[i]), draws, i - 1);
    }
  }

  /** The shuffle returns the same elements, each as often as in the input. */
  lemma FisherYatesPermutes<T>(s: seq<T>, draws: seq<nat>)
    requires ValidDraws(draws, |s|)
    ensures multiset(FisherYates(s, draws)) == multiset(s)
    ensures forall x :: x in FisherYates(s, draws) <==> x in s
  {
    RoundsPermutes(s, draws, |s| - 1);
    forall x ensures x in FisherYates(s, draws) <==> x in s {
      assert x in FisherYates(s, draws) <==> x in multiset(FisherYates(s, draws));
      assert x in s <==> x in multiset(s);
    }
  }

  lemma {:induction false} RoundsKeepsDistinct<T>(s: seq<T>, draws: seq<nat>, i: int)
    requires ValidDraws(draws, |s|) && i < |s|
    requires Distinct(s)
    ensures Distinct(Rounds(s, draws, i))
    decreases i
  {
    if i > 0 {
      var t := Swap(s, i, draws[i]);
      forall a, b | 0 <= a < b < |t| ensures t[a] != t[b] {
        var a' := if a == i then draws[i] else if a == draws[i] then i else a;
        var b' := if b == i then draws[i] else if b == draws[i] then i else b;
        assert t[a] == s[a'] && t[b] == s[b'] && a' != b';
      }
      RoundsKeepsDistinct(t, draws, i - 1);
    }
  }

  /** Shuffling `s` alongside a sequence `idx` of positions in `base` keeps
      the relation `s[k] == base[idx[k]]`: the same swaps move both. */
  lemma {:induction false} RoundsTracks<T>(base: seq<T>, s: seq<T>, idx: seq<nat>, draws: seq<nat>, i: int)
    requires |idx| == |s| && ValidDraws(draws, |s|) && i < |s|
    requires forall k :: 0 <= k < |s| ==> idx[k] < |base| && s[k] == base[idx[k]]
    ensures forall k :: 0 <= k < |s| ==>
      var j := Rounds(idx, draws, i)[k]; j < |base| && Rounds(s, draws, i)[k] == base[j]
    decreases i
  {
    if i > 0 {
      RoundsTracks(base, Swap(s, i, draws[i]), Swap(idx, i, draws[i]), draws, i - 1);
    }
  }

  /** The shuffle reorders by a permutation that depends on the draws alone:
      output position `k` holds input element `ShuffleOrder(|s|, draws)[k]`. */
  lemma ShuffleOrderIsPermutation<T>(s: seq<T>, draws: seq<nat>)
    requires ValidDraws(draws, |s|)
    ensures IsPermutation(ShuffleOrder(|s|, draws), |s|)
    ensures forall k :: 0 <= k < |s| ==> FisherYates(s, draws)[k] == s[ShuffleOrder(|s|, draws)[k]]
  {
    var n := |s|;
    var p := ShuffleOrder(n, draws);
    RoundsTracks(s, s, Range(n), draws, n - 1);
    RoundsTracks(Range(n), Range(n), Range(n), draws, n - 1);
    RoundsKeepsDistinct(Range(n), draws, n - 1);
    FisherYatesPermutes(Range(n), draws);
    forall m | 0 <= m < n ensures m in p {
      assert Range(n)[m] == m;
    }
  }

  /** The position a permutation sends to `m` (a proof helper). */
  lemma SourcePosition(p: seq<nat>, n: nat, m: nat) returns (k: nat)
    requires IsPermutation(p, n) && m < n
    ensures k < n && p[k] == m
  {
    assert m in p;
    k :| k < |p| && p[k] == m;
  }

  /** `shuffleArray`: copies the input (`[...array]`) and shuffles the copy in
      place. The input is only read; the fresh result is returned as a value. */
  method ShuffleArray<T>(input: array<T>, draws: seq<nat>) returns (r: seq<T>)
    requires ValidDraws(draws, input.Length)
    ensures r == FisherYates(input[..], draws)
    ensures multiset(r) == multiset(input[..])
  {
    var shuffled := new T[input.Length](k requires 0 <= k < input.Length reads input => input[k]);
    assert shuffled[..] == input[..];
    var i := shuffled.Length - 1;
    while i > 0
      invariant -1 <= i < shuffled.Length == input.Length
      invariant Rounds(shuffled[..], draws, i) == FisherYates(input[..], draws)
      decreases i
    {
      var j := draws[i];
      ghost var before := shuffled[..];
      shuffled[i], shuffled[j] := shuffled[j], shuffled[i];
      assert shuffled[..] == Swap(before, i, j);
      i := i - 1;
    }
    r := shuffled[..];
    FisherYatesPermutes(input[..], draws);
  }
}
