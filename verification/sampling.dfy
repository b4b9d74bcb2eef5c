/** Drawing the questions of a run: a Fisher-Yates shuffle of a copy of the
    loaded list, then its first five elements. The random draws are given as
    `picks`: `picks[i]` is the swap partner chosen when the loop is at `i`. */
module Sampling {
  import opened QuizData

  /** How many questions a run takes. */
  const QuestionsPerRun: nat := 5

  /** What `Math.floor(Math.random() * (i + 1))` can give for every `i` the
      loop visits: a partner in `[0, i]`. `picks[0]` is never drawn. */
  predicate ValidPicks(picks: seq<nat>, n: nat) {
    |picks| == n && forall i :: 0 < i < n ==> picks[i] <= i
  }

  /** Where position `k` takes its element from when positions `i` and `j`
      are swapped. */
  function Transposed(k: nat, i: nat, j: nat): nat {
    if k == i then j else if k == j then i else k
  }

  function Swap<T>(s: seq<T>, i: nat, j: nat): (r: seq<T>)
    requires i < |s| && j < |s|
    ensures |r| == |s|
    ensures forall k :: 0 <= k < |s| ==> r[k] == s[Transposed(k, i, j)]
    ensures multiset(r) == multiset(s)
  {
    s[i := s[j]][j := s[i]]
  }

  /** The loop's remaining iterations: `i` runs from `n - 1` down to 1. */
  function ShuffleSteps<T>(s: seq<T>, picks: seq<nat>, n: nat): seq<T>
    requires n <= |s| && ValidPicks(picks, |s|)
    decreases n
  {
    if n <= 1 then s
    else ShuffleSteps(Swap(s, n - 1, picks[n - 1]), picks, n - 1)
  }

  /** The list `shuffleArray` returns for the draws `picks`: a permutation
      of `s`, and `s` itself when it has at most one element. */
  function FisherYates<T>(s: seq<T>, picks: seq<nat>): (r: seq<T>)
    requires ValidPicks(picks, |s|)
    ensures |r| == |s|
    ensures multiset(r) == multiset(s)
    ensures |s| <= 1 ==> r == s
  {
    ShuffleStepsPermutes(s, picks, |s|);
    ShuffleSteps(s, picks, |s|)
  }

  /** `shuffleArray`: copy the list into a fresh array and, for `i` from the
      last index down to 1, swap element `i` with element `picks[i]`. */
  method ShuffleArray<T>(input: seq<T>, picks: seq<nat>) returns (shuffled: seq<T>)
    requires ValidPicks(picks, |input|)
    ensures shuffled == FisherYates(input, picks)
  {
    var a := new T[|input|](k requires 0 <= k < |input| => input[k]);
    var i := a.Length - 1;
    assert a[..] == input;
    while i > 0
      invariant -1 <= i < a.Length
      invariant |a[..]| == |input|
      invariant ShuffleSteps(a[..], picks, if i < 0 then 0 else i + 1) == FisherYates(input, picks)
    {
      var j := picks[i];
      ghost var before := a[..];
      a[i], a[j] := a[j], a[i];
      assert a[..] == Swap(before, i, j);
      i := i - 1;
    }
    shuffled := a[..];
  }

  /** Each step only swaps, so the length and the multiset of elements stay. */
  lemma {:induction false} ShuffleStepsPermutes<T>(s: seq<T>, picks: seq<nat>, n: nat)
    requires n <= |s| && ValidPicks(picks, |s|)
    ensures |ShuffleSteps(s, picks, n)| == |s|
    ensures multiset(ShuffleSteps(s, picks, n)) == multiset(s)
    decreases n
  {
    if n > 1 {
      ShuffleStepsPermutes(Swap(s, n - 1, picks[n - 1]), picks, n - 1);
    }
  }

  /** The steps below `n` read no draw at or above `n`. */
  lemma {:induction false} ShuffleStepsLocal<T>(s: seq<T>, picks: seq<nat>, other: seq<nat>, n: nat)
    requires n <= |s| && ValidPicks(picks, |s|) && ValidPicks(other, |s|)
    requires forall i :: 0 <= i < n ==> picks[i] == other[i]
    ensures ShuffleSteps(s, picks, n) == ShuffleSteps(s, other, n)
    decreases n
  {
    if n > 1 {
      ShuffleStepsLocal(Swap(s, n - 1, picks[n - 1]), picks, other, n - 1);
    }
  }

  lemma SamePrefixBag<T>(s: seq<T>, t: seq<T>, n: nat)
    requires |s| == |t| && n <= 1 && n <= |s|
    requires s[n..] == t[n..] && multiset(s[..n]) == multiset(t[..n])
    ensures s == t
  {
    if n == 1 {
      assert s[..1] == [s[0]] && t[..1] == [t[0]];
      assert s[0] in multiset(t[..1]);
      assert s == s[..1] + s[1..] && t == t[..1] + t[1..];
    } else {
      assert s == s[0..] && t == t[0..];
    }
  }

  lemma BagCancel<T>(a: seq<T>, b: seq<T>, x: T)
    requires multiset(a) + multiset{x} == multiset(b) + multiset{x}
    ensures multiset(a) == multiset(b)
  {
    assert multiset(a) == (multiset(a) + multiset{x}) - multiset{x};
    assert multiset(b) == (multiset(b) + multiset{x}) - multiset{x};
  }

  lemma SwapSplit<T>(s: seq<T>, n: nat, i: nat, j: nat)
    requires i < n && j < n && n <= |s|
    ensures Swap(s, i, j)[..n] == Swap(s[..n], i, j)
    ensures Swap(s, i, j)[n..] == s[n..]
  {
  }

  /** Swapping position `n - 1` with `j` below it puts `s[j]` in front of the
      untouched tail... */
  lemma SwapLastTail<T>(s: seq<T>, n: nat, j: nat)
    requires 0 < n <= |s| && j < n
    ensures Swap(s, n - 1, j)[n - 1..] == [s[j]] + s[n..]
  {
    var r := Swap(s, n - 1, j);
    assert r[n - 1..] == [r[n - 1]] + r[n..];
  }

  /** ... and keeps the other elements of the first `n` in front of it. */
  lemma SwapLastBag<T>(s: seq<T>, n: nat, j: nat)
    requires 0 < n <= |s| && j < n
    ensures multiset(Swap(s, n - 1, j)[..n - 1]) + multiset{s[j]} == multiset(s[..n])
  {
    var r := Swap(s, n - 1, j);
    var h := Swap(s[..n], n - 1, j);
    SwapSplit(s, n, n - 1, j);
    assert r[..n - 1] == h[..n - 1] by { assert r[..n - 1] == r[..n][..n - 1]; }
    assert h == h[..n - 1] + [s[j]];
  }

  /** The first step: swap into position `n - 1` an element equal to `t[n - 1]`. */
  lemma SwapIntoPlace<T>(s: seq<T>, t: seq<T>, n: nat) returns (j: nat)
    requires |s| == |t| && 1 < n <= |s|
    requires s[n..] == t[n..] && multiset(s[..n]) == multiset(t[..n])
    ensures j < n
    ensures Swap(s, n - 1, j)[n - 1..] == t[n - 1..]
    ensures multiset(Swap(s, n - 1, j)[..n - 1]) == multiset(t[..n - 1])
  {
    var last := t[n - 1];
    assert t[..n] == t[..n - 1] + [last];
    assert multiset(t[..n]) == multiset(t[..n - 1]) + multiset{last};
    assert last in multiset(s[..n]);
    var k :| 0 <= k < n && s[..n][k] == last;
    j := k;
    SwapLastTail(s, n, j);
    SwapLastBag(s, n, j);
    BagCancel(Swap(s, n - 1, j)[..n - 1], t[..n - 1], last);
    assert t[n - 1..] == [last] + t[n..];
  }

  /** Drawing `j` at `n - 1` in front of the draws `rest` runs the swap of
      `n - 1` with `j` and then the steps of `rest` below it. */
  lemma PrependDraw<T>(s: seq<T>, rest: seq<nat>, j: nat, n: nat) returns (picks: seq<nat>)
    requires 1 < n <= |s| && j < n && ValidPicks(rest, |s|)
    ensures ValidPicks(picks, |s|)
    ensures ShuffleSteps(s, picks, n) == ShuffleSteps(Swap(s, n - 1, j), rest, n - 1)
  {
    picks := rest[n - 1 := j];
    assert picks[n - 1] == j;
    ShuffleStepsLocal(Swap(s, n - 1, j), picks, rest, n - 1);
  }

  /** Whatever the first `n` elements of `s` are, some draws put them in the
      order of `t`. */
  lemma {:induction false} ReachablePrefix<T>(s: seq<T>, t: seq<T>, n: nat) returns (picks: seq<nat>)
    requires |s| == |t| && n <= |s|
    requires s[n..] == t[n..] && multiset(s[..n]) == multiset(t[..n])
    ensures ValidPicks(picks, |s|) && ShuffleSteps(s, picks, n) == t
    decreases n
  {
    if n <= 1 {
      SamePrefixBag(s, t, n);
      picks := seq(|s|, i => 0);
    } else {
      var j := SwapIntoPlace(s, t, n);
      var rest := ReachablePrefix(Swap(s, n - 1, j), t, n - 1);
      picks := PrependDraw(s, rest, j, n);
    }
  }

  /** Every ordering of the input is some run of the shuffle: the draws in
      `[0, i]` leave no permutation out. */
  lemma EveryOrderReachable<T>(s: seq<T>, t: seq<T>)
    requires multiset(s) == multiset(t)
    ensures exists picks :: ValidPicks(picks, |s|) && FisherYates(s, picks) == t
  {
    assert |s| == |multiset(s)| == |t|;
    assert s[..|s|] == s && t[..|t|] == t;
    var picks := ReachablePrefix(s, t, |s|);
  }

  predicate Distinct<T(==)>(s: seq<T>) {
    forall i, j :: 0 <= i < j < |s| ==> s[i] != s[j]
  }

  lemma SwapKeepsDistinct<T>(s: seq<T>, i: nat, j: nat)
    requires i < |s| && j < |s| && Distinct(s)
    ensures Distinct(Swap(s, i, j))
  {
    var r := Swap(s, i, j);
    forall a, b | 0 <= a < b < |r|
      ensures r[a] != r[b]
    {
      var ta, tb := Transposed(a, i, j), Transposed(b, i, j);
      assert ta != tb;
      if ta < tb { assert s[ta] != s[tb]; } else { assert s[tb] != s[ta]; }
    }
  }

  lemma {:induction false} ShuffleStepsKeepDistinct<T>(s: seq<T>, picks: seq<nat>, n: nat)
    requires n <= |s| && ValidPicks(picks, |s|) && Distinct(s)
    ensures Distinct(ShuffleSteps(s, picks, n))
    decreases n
  {
    if n > 1 {
      SwapKeepsDistinct(s, n - 1, picks[n - 1]);
      ShuffleStepsKeepDistinct(Swap(s, n - 1, picks[n - 1]), picks, n - 1);
    }
  }

  /** `slice(0, 5)`: the first five elements, or all of them when fewer. */
  function FirstQuestions<T>(s: seq<T>): (r: seq<T>)
    ensures |r| == if |s| < QuestionsPerRun then |s| else QuestionsPerRun
    ensures forall k :: 0 <= k < |r| ==> r[k] == s[k]
  {
    if |s| < QuestionsPerRun then s else s[..QuestionsPerRun]
  }

  /** The questions of a run drawn from `pool` with the draws `picks`:
      `min(n, 5)` of them, all from the pool. */
  function Sample<T>(pool: seq<T>, picks: seq<nat>): (r: seq<T>)
    requires ValidPicks(picks, |pool|)
    ensures |r| == if |pool| < 5 then |pool| else 5
    ensures forall x :: x in r ==> x in pool
  {
    var shuffled := FisherYates(pool, picks);
    assert forall x :: x in shuffled ==> x in multiset(pool);
    var first := FirstQuestions(shuffled);
    assert forall k :: 0 <= k < |first| ==> first[k] in shuffled;
    first
  }

  /** No question comes twice in a run when the pool has none twice. */
  lemma SampleNoRepeats<T>(pool: seq<T>, picks: seq<nat>)
    requires ValidPicks(picks, |pool|)
    ensures Distinct(pool) ==> Distinct(Sample(pool, picks))
  {
    if Distinct(pool) {
      ShuffleStepsKeepDistinct(pool, picks, |pool|);
    }
  }

  /** `getQuestions`: the loaded list (`None` when the fetch or the parse
      failed, in which case the callback never runs) is shuffled and cut to
      the first five. */
  method GetQuestions<T>(loaded: Option<seq<T>>, picks: seq<nat>) returns (selected: Option<seq<T>>)
    requires loaded.Some? ==> ValidPicks(picks, |loaded.value|)
    ensures loaded.None? ==> selected.None?
    ensures loaded.Some? ==> selected == Some(Sample(loaded.value, picks))
  {
    if loaded.None? {
      return None;
    }
    var shuffledQuestions := ShuffleArray(loaded.value, picks);
    selected := Some(FirstQuestions(shuffledQuestions));
  }
}
