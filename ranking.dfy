/** Ranking of process samples by a score: the in-place bubble sort that
    `getProcessInfo` (by CPU) and `analyzeMemory` (by memory) run, and the
    prefix of the sorted list that each of them displays. */
module Ranking {
  import opened Seqs

  /** Scores never increase from left to right. */
  ghost predicate SortedDesc<T>(s: seq<T>, score: T -> real) {
    forall k, l | 0 <= k < l < |s| :: score(s[k]) >= score(s[l])
  }

  /** The elements of `s` whose score is exactly `v`, in their order in `s`. */
  function WithScore<T>(s: seq<T>, score: T -> real, v: real): seq<T>
    decreases |s|
  {
    if |s| == 0 then []
    else (if score(s[0]) == v then [s[0]] else []) + WithScore(s[1..], score, v)
  }

  /** `t` keeps the relative order that `s` gives to every group of equal scores. */
  ghost predicate SameTies<T>(t: seq<T>, s: seq<T>, score: T -> real) {
    forall v :: WithScore(t, score, v) == WithScore(s, score, v)
  }

  /** Puts `x` into a descending list after every element whose score is at least its own. */
  function InsertDesc<T>(x: T, s: seq<T>, score: T -> real): (r: seq<T>)
    ensures |r| == |s| + 1
    ensures multiset(r) == multiset(s) + multiset{x}
    decreases |s|
  {
    if |s| == 0 then [x]
    else if score(x) > score(s[0]) then [x] + s
    else
      assert s == [s[0]] + s[1..];
      [s[0]] + InsertDesc(x, s[1..], score)
  }

  /** The reference ranking: a stable sort by descending score (insertion sort). */
  function SortDesc<T>(s: seq<T>, score: T -> real): (r: seq<T>)
    ensures |r| == |s|
    ensures multiset(r) == multiset(s)
    decreases |s|
  {
    if |s| == 0 then []
    else
      assert s == s[..|s| - 1] + [s[|s| - 1]];
      InsertDesc(s[|s| - 1], SortDesc(s[..|s| - 1], score), score)
  }

  /** The `k` highest-ranked samples of `s`, in ranking order. */
  function TopK<T>(s: seq<T>, score: T -> real, k: nat): seq<T> {
    SortDesc(s, score)[..Min(k, |s|)]
  }

  lemma {:induction false} WithScoreConcat<T>(a: seq<T>, b: seq<T>, score: T -> real, v: real)
    ensures WithScore(a + b, score, v) == WithScore(a, score, v) + WithScore(b, score, v)
    decreases |a|
  {
    if |a| == 0 {
      assert a + b == b;
    } else {
      var c := a + b;
      assert c[0] == a[0] && c[1..] == a[1..] + b;
      WithScoreConcat(a[1..], b, score, v);
      var head := if score(a[0]) == v then [a[0]] else [];
      assert WithScore(c, score, v) == head + WithScore(a[1..], score, v) + WithScore(b, score, v);
    }
  }

  lemma WithScoreSingleton<T>(x: T, score: T -> real, v: real)
    ensures WithScore([x], score, v) == if score(x) == v then [x] else []
  {
    assert [x][1..] == [];
  }

  lemma {:induction false} WithScoreAbsent<T>(s: seq<T>, score: T -> real, v: real)
    requires forall k | 0 <= k < |s| :: score(s[k]) != v
    ensures WithScore(s, score, v) == []
    decreases |s|
  {
    if |s| > 0 {
      WithScoreAbsent(s[1..], score, v);
    }
  }

  /** The ties of `pre + [x, y] + post`, piece by piece. */
  lemma WithScoreAround<T>(pre: seq<T>, x: T, y: T, post: seq<T>, score: T -> real, v: real)
    ensures WithScore(pre + [x, y] + post, score, v)
         == WithScore(pre, score, v) + WithScore([x], score, v) + WithScore([y], score, v) + WithScore(post, score, v)
  {
    assert [x, y] == [x] + [y];
    assert pre + [x, y] + post == pre + ([x] + ([y] + post));
    WithScoreConcat(pre, [x] + ([y] + post), score, v);
    WithScoreConcat([x], [y] + post, score, v);
    WithScoreConcat([y], post, score, v);
  }

  /** Swapping two neighbours with different scores changes no group of equal scores. */
  lemma SwapKeepsTies<T>(s: seq<T>, j: nat, score: T -> real)
    requires j + 1 < |s|
    requires score(s[j]) != score(s[j + 1])
    ensures SameTies(s[j := s[j + 1]][j + 1 := s[j]], s, score)
  {
    var t := s[j := s[j + 1]][j + 1 := s[j]];
    var pre, x, y, post := s[..j], s[j], s[j + 1], s[j + 2..];
    assert s == pre + [x, y] + post;
    assert t == pre + [y, x] + post;
    forall v ensures WithScore(t, score, v) == WithScore(s, score, v) {
      WithScoreAround(pre, x, y, post, score, v);
      WithScoreAround(pre, y, x, post, score, v);
      WithScoreSingleton(x, score, v);
      WithScoreSingleton(y, score, v);
    }
  }

  lemma {:induction false} InsertDescSorted<T>(x: T, s: seq<T>, score: T -> real)
    requires SortedDesc(s, score)
    ensures SortedDesc(InsertDesc(x, s, score), score)
    decreases |s|
  {
    if |s| > 0 && score(x) <= score(s[0]) {
      var tail := InsertDesc(x, s[1..], score);
      InsertDescSorted(x, s[1..], score);
      forall l | 0 <= l < |tail| ensures score(s[0]) >= score(tail[l]) {
        assert tail[l] in multiset(s[1..]) + multiset{x};
        if tail[l] != x {
          assert tail[l] in s[1..];
        }
      }
    }
  }

  /** Inside a descending list no element reaches a score above the head's. */
  lemma BelowHeadAbsent<T>(s: seq<T>, score: T -> real, v: real)
    requires |s| > 0 && SortedDesc(s, score)
    requires score(s[0]) < v
    ensures WithScore(s, score, v) == []
  {
    forall k | 0 <= k < |s| ensures score(s[k]) != v {
      assert k == 0 || score(s[0]) >= score(s[k]);
    }
    WithScoreAbsent(s, score, v);
  }

  /** The tail of a descending list is descending. */
  lemma SortedDescTail<T>(s: seq<T>, score: T -> real)
    requires |s| > 0 && SortedDesc(s, score)
    ensures SortedDesc(s[1..], score)
  {
    var rest := s[1..];
    forall k, l | 0 <= k < l < |rest| ensures score(rest[k]) >= score(rest[l]) {
      assert rest[k] == s[k + 1] && rest[l] == s[l + 1];
    }
  }

  /** Inserting in front of the head adds `x` at the front of its own group. */
  lemma InsertDescTiesFront<T>(x: T, s: seq<T>, score: T -> real, v: real)
    requires |s| > 0 && SortedDesc(s, score) && score(x) > score(s[0])
    ensures WithScore(InsertDesc(x, s, score), score, v)
         == WithScore(s, score, v) + (if score(x) == v then [x] else [])
  {
    assert InsertDesc(x, s, score) == [x] + s;
    WithScoreConcat([x], s, score, v);
    WithScoreSingleton(x, score, v);
    if score(x) == v {
      BelowHeadAbsent(s, score, v);
    }
  }

  lemma WithScoreCons<T>(x: T, t: seq<T>, score: T -> real, v: real)
    ensures WithScore([x] + t, score, v) == (if score(x) == v then [x] else []) + WithScore(t, score, v)
  {
    assert ([x] + t)[0] == x && ([x] + t)[1..] == t;
  }

  /** Inserting behind the head: the head's contribution is unchanged. */
  lemma InsertDescTiesLater<T>(x: T, s: seq<T>, score: T -> real, v: real)
    requires |s| > 0 && score(x) <= score(s[0])
    requires WithScore(InsertDesc(x, s[1..], score), score, v)
          == WithScore(s[1..], score, v) + (if score(x) == v then [x] else [])
    ensures WithScore(InsertDesc(x, s, score), score, v)
         == WithScore(s, score, v) + (if score(x) == v then [x] else [])
  {
    var head, rest := s[0], s[1..];
    var inserted := InsertDesc(x, rest, score);
    var own := if score(x) == v then [x] else [];
    var hs := if score(head) == v then [head] else [];
    assert WithScore(InsertDesc(x, s, score), score, v) == hs + WithScore(inserted, score, v) by {
      assert InsertDesc(x, s, score) == [head] + inserted;
      WithScoreCons(head, inserted, score, v);
    }
    assert WithScore(s, score, v) == hs + WithScore(rest, score, v) by {
      assert s == [head] + rest;
      WithScoreCons(head, rest, score, v);
    }
    ConcatAssoc(hs, WithScore(rest, score, v), own);
  }

  /** Inserting into a descending list puts `x` last among the entries of its score. */
  lemma {:induction false} InsertDescTies<T>(x: T, s: seq<T>, score: T -> real, v: real)
    requires SortedDesc(s, score)
    ensures WithScore(InsertDesc(x, s, score), score, v)
         == WithScore(s, score, v) + (if score(x) == v then [x] else [])
    decreases |s|
  {
    if |s| == 0 {
      WithScoreSingleton(x, score, v);
    } else if score(x) > score(s[0]) {
      InsertDescTiesFront(x, s, score, v);
    } else {
      SortedDescTail(s, score);
      InsertDescTies(x, s[1..], score, v);
      InsertDescTiesLater(x, s, score, v);
    }
  }

  /** The reference ranking is in non-increasing score order. */
  lemma {:induction false} SortDescSorted<T>(s: seq<T>, score: T -> real)
    ensures SortedDesc(SortDesc(s, score), score)
    decreases |s|
  {
    if |s| > 0 {
      SortDescSorted(s[..|s| - 1], score);
      InsertDescSorted(s[|s| - 1], SortDesc(s[..|s| - 1], score), score);
    }
  }

  /** The reference ranking is stable: samples with equal scores keep their input order. */
  lemma {:induction false} SortDescStable<T>(s: seq<T>, score: T -> real)
    ensures SameTies(SortDesc(s, score), s, score)
    decreases |s|
  {
    if |s| > 0 {
      var front, last := s[..|s| - 1], s[|s| - 1];
      SortDescStable(front, score);
      SortDescSorted(front, score);
      assert s == front + [last];
      forall v ensures WithScore(SortDesc(s, score), score, v) == WithScore(s, score, v) {
        InsertDescTies(last, SortDesc(front, score), score, v);
        WithScoreConcat(front, [last], score, v);
        WithScoreSingleton(last, score, v);
      }
    }
  }

  /** Two descending arrangements of the same samples that agree on every
      group of equal scores start with the same sample. */
  lemma SameHead<T>(s1: seq<T>, s2: seq<T>, score: T -> real)
    requires |s1| > 0 && |s2| > 0
    requires SortedDesc(s1, score) && SortedDesc(s2, score)
    requires multiset(s1) == multiset(s2)
    requires SameTies(s1, s2, score)
    ensures s1[0] == s2[0]
  {
    assert s1[0] in multiset(s2) && s2[0] in multiset(s1);
    var m :| 0 <= m < |s2| && s2[m] == s1[0];
    var m' :| 0 <= m' < |s1| && s1[m'] == s2[0];
    var v := score(s1[0]);
    assert score(s2[0]) == v;
    assert WithScore(s1, score, v)[0] == s1[0];
    assert WithScore(s2, score, v)[0] == s2[0];
    assert WithScore(s1, score, v) == WithScore(s2, score, v);
  }

  /** A descending arrangement of given samples that keeps every group of
      equal scores in a given order is unique. */
  lemma {:induction false} SortedArrangementUnique<T>(s1: seq<T>, s2: seq<T>, score: T -> real)
    requires SortedDesc(s1, score) && SortedDesc(s2, score)
    requires multiset(s1) == multiset(s2)
    requires SameTies(s1, s2, score)
    ensures s1 == s2
    decreases |s1|
  {
    assert |s1| == |multiset(s1)| == |multiset(s2)| == |s2|;
    if |s1| > 0 {
      SameHead(s1, s2, score);
      var x, t1, t2 := s1[0], s1[1..], s2[1..];
      assert s1 == [x] + t1 && s2 == [x] + t2;
      assert multiset(t1) == multiset(t2) by {
        assert multiset(s1) == multiset{x} + multiset(t1);
        assert multiset(s2) == multiset{x} + multiset(t2);
        forall y ensures multiset(t1)[y] == multiset(t2)[y] {
          assert multiset(s1)[y] == multiset{x}[y] + multiset(t1)[y];
          assert multiset(s2)[y] == multiset{x}[y] + multiset(t2)[y];
        }
      }
      assert SortedDesc(t1, score) && SortedDesc(t2, score) by {
        forall k, l | 0 <= k < l < |t1| ensures score(t1[k]) >= score(t1[l]) {
          assert t1[k] == s1[k + 1] && t1[l] == s1[l + 1];
        }
        forall k, l | 0 <= k < l < |t2| ensures score(t2[k]) >= score(t2[l]) {
          assert t2[k] == s2[k + 1] && t2[l] == s2[l + 1];
        }
      }
      forall w ensures WithScore(t1, score, w) == WithScore(t2, score, w) {
        var h := if score(x) == w then [x] else [];
        assert WithScore(s1, score, w) == h + WithScore(t1, score, w);
        assert WithScore(s2, score, w) == h + WithScore(t2, score, w);
        assert WithScore(s1, score, w) == WithScore(s2, score, w);
        assert WithScore(t1, score, w) == WithScore(s1, score, w)[|h|..];
        assert WithScore(t2, score, w) == WithScore(s2, score, w)[|h|..];
      }
      SortedArrangementUnique(t1, t2, score);
    }
  }

  /** A ranking that is descending, a permutation and stable is the reference ranking. */
  lemma CharacterizesSortDesc<T>(t: seq<T>, s: seq<T>, score: T -> real)
    requires SortedDesc(t, score)
    requires multiset(t) == multiset(s)
    requires SameTies(t, s, score)
    ensures t == SortDesc(s, score)
  {
    SortDescSorted(s, score);
    SortDescStable(s, score);
    SortedArrangementUnique(t, SortDesc(s, score), score);
  }

  /** Ranking an already ranked list changes nothing. */
  lemma SortDescOfSorted<T>(s: seq<T>, score: T -> real)
    requires SortedDesc(s, score)
    ensures SortDesc(s, score) == s
  {
    CharacterizesSortDesc(s, s, score);
  }

  /** Taking the top `k` twice is the same as taking it once. */
  lemma TopKIdempotent<T>(s: seq<T>, score: T -> real, k: nat)
    ensures TopK(TopK(s, score, k), score, k) == TopK(s, score, k)
  {
    var top := TopK(s, score, k);
    var sorted := SortDesc(s, score);
    SortDescSorted(s, score);
    assert top == sorted[..|top|];
    assert SortedDesc(top, score) by {
      forall k, l | 0 <= k < l < |top| ensures score(top[k]) >= score(top[l]) {
        assert top[k] == sorted[k] && top[l] == sorted[l];
      }
    }
    SortDescOfSorted(top, score);
  }

  /** Scores never increase within `s[lo..]`. */
  ghost predicate SortedFrom<T>(s: seq<T>, lo: int, score: T -> real) {
    forall k, l | 0 <= lo <= k < l < |s| :: score(s[k]) >= score(s[l])
  }

  /** Every score before index `lo` is at least every score from `lo` on. */
  ghost predicate Dominates<T>(s: seq<T>, lo: int, score: T -> real) {
    forall k, l | 0 <= k < lo <= l < |s| :: score(s[k]) >= score(s[l])
  }

  /** The in-place bubble sort of `getProcessInfo` and `analyzeMemory`: passes
      of adjacent swaps, swapping only when the left score is strictly smaller. */
  method BubbleSortDesc<T>(a: array<T>, score: T -> real)
    modifies a
    ensures SortedDesc(a[..], score)
    ensures multiset(a[..]) == multiset(old(a[..]))
    ensures SameTies(a[..], old(a[..]), score)
    ensures a[..] == SortDesc(old(a[..]), score)
  {
    var n := a.Length;
    var i := 0;
    while i < n - 1
      invariant 0 <= i <= n && (n > 0 ==> i <= n - 1)
      invariant multiset(a[..]) == multiset(old(a[..]))
      invariant SameTies(a[..], old(a[..]), score)
      invariant SortedFrom(a[..], n - i, score)
      invariant Dominates(a[..], n - i, score)
    {
      ghost var before := a[..];
      BubblePass(a, n - i - 1, score);
      forall v ensures WithScore(a[..], score, v) == WithScore(old(a[..]), score, v) {
        assert WithScore(a[..], score, v) == WithScore(before, score, v);
      }
      i := i + 1;
    }
    assert SortedDesc(a[..], score) by {
      if n > 0 {
        assert SortedFrom(a[..], 1, score) && Dominates(a[..], 1, score);
      }
    }
    CharacterizesSortDesc(a[..], old(a[..]), score);
  }

  /** One pass of the inner loop, `for j := 0; j < bound; j++`: it carries the
      lowest score of `a[..bound + 1]` to index `bound`. */
  method BubblePass<T>(a: array<T>, bound: nat, score: T -> real)
    requires bound < a.Length
    requires SortedFrom(a[..], bound + 1, score) && Dominates(a[..], bound + 1, score)
    modifies a
    ensures multiset(a[..]) == multiset(old(a[..]))
    ensures SameTies(a[..], old(a[..]), score)
    ensures SortedFrom(a[..], bound, score) && Dominates(a[..], bound, score)
  {
    var j := 0;
    while j < bound
      invariant 0 <= j <= bound
      invariant multiset(a[..]) == multiset(old(a[..]))
      invariant SameTies(a[..], old(a[..]), score)
      invariant SortedFrom(a[..], bound + 1, score) && Dominates(a[..], bound + 1, score)
      invariant LowestAt(a[..], j, score)
    {
      ghost var before := a[..];
      if score(a[j]) < score(a[j + 1]) {
        a[j], a[j + 1] := a[j + 1], a[j];
        SwapStep(before, j, bound, score);
        assert a[..] == before[j := before[j + 1]][j + 1 := before[j]];
        forall v ensures WithScore(a[..], score, v) == WithScore(old(a[..]), score, v) {
          assert WithScore(before, score, v) == WithScore(old(a[..]), score, v);
        }
      }
      j := j + 1;
    }
    SortedFromExtend(a[..], bound, score);
  }

  /** No score in `s[..j + 1]` is below the one at `j`. */
  ghost predicate LowestAt<T>(s: seq<T>, j: int, score: T -> real) {
    forall k | 0 <= k <= j < |s| :: score(s[k]) >= score(s[j])
  }

  /** What one swap of the inner loop preserves and establishes. */
  lemma SwapStep<T>(s: seq<T>, j: nat, bound: nat, score: T -> real)
    requires j < bound < |s|
    requires score(s[j]) < score(s[j + 1])
    requires SortedFrom(s, bound + 1, score) && Dominates(s, bound + 1, score)
    requires LowestAt(s, j, score)
    ensures var t := s[j := s[j + 1]][j + 1 := s[j]];
      && multiset(t) == multiset(s)
      && SameTies(t, s, score)
      && SortedFrom(t, bound + 1, score) && Dominates(t, bound + 1, score)
      && LowestAt(t, j + 1, score)
  {
    var t := s[j := s[j + 1]][j + 1 := s[j]];
    SwapKeepsTies(s, j, score);
    assert forall k | 0 <= k < |s| && k != j && k != j + 1 :: t[k] == s[k];
    assert Dominates(t, bound + 1, score) by {
      forall k, l | 0 <= k < bound + 1 <= l < |t| ensures score(t[k]) >= score(t[l]) {
        assert t[l] == s[l];
        if k == j { assert score(s[j + 1]) >= score(s[l]); }
        else if k == j + 1 { assert score(s[j]) >= score(s[l]); }
      }
    }
  }

  /** When the pass ends, index `bound` holds the lowest score of the prefix. */
  lemma SortedFromExtend<T>(s: seq<T>, bound: nat, score: T -> real)
    requires bound < |s|
    requires SortedFrom(s, bound + 1, score) && Dominates(s, bound + 1, score)
    requires LowestAt(s, bound, score)
    ensures SortedFrom(s, bound, score) && Dominates(s, bound, score)
  {
  }

  /** The display loops `for i := 0; i < limit && i < len(list); i++`: the first
      `min(limit, n)` entries of the list, in list order. */
  method TopN<T>(a: array<T>, limit: nat) returns (shown: seq<T>)
    ensures |shown| == Min(limit, a.Length)
    ensures forall k | 0 <= k < |shown| :: shown[k] == a[k]
  {
    shown := [];
    var i := 0;
    while i < limit && i < a.Length
      invariant 0 <= i <= Min(limit, a.Length)
      invariant shown == a[..i]
    {
      shown := shown + [a[i]];
      i := i + 1;
    }
  }

  function Second(p: (string, real)): real {
    p.1
  }

  const TieA: (string, real) := ("A", 10.0)
  const TieB: (string, real) := ("B", 30.0)
  const TieC: (string, real) := ("C", 30.0)
  const TieD: (string, real) := ("D", 5.0)

  lemma SortDescAppend<T>(s: seq<T>, x: T, score: T -> real)
    ensures SortDesc(s + [x], score) == InsertDesc(x, SortDesc(s, score), score)
  {
    assert (s + [x])[..|s + [x]| - 1] == s;
  }

  lemma TieStepB()
    ensures InsertDesc(TieB, [TieA], Second) == [TieB, TieA]
  {
  }

  lemma TieStepC()
    ensures InsertDesc(TieC, [TieB, TieA], Second) == [TieB, TieC, TieA]
  {
    assert [TieB, TieA][1..] == [TieA];
    assert InsertDesc(TieC, [TieA], Second) == [TieC, TieA];
  }

  lemma TieStepD()
    ensures InsertDesc(TieD, [TieB, TieC, TieA], Second) == [TieB, TieC, TieA, TieD]
  {
    assert [TieB, TieC, TieA][1..] == [TieC, TieA] && [TieC, TieA][1..] == [TieA];
    assert InsertDesc(TieD, [TieA], Second) == [TieA] + InsertDesc(TieD, [], Second);
  }

  lemma SortTieInput()
    ensures SortDesc([TieA, TieB, TieC, TieD], Second) == [TieB, TieC, TieA, TieD]
  {
    var s3 := [TieA, TieB, TieC];
    assert [TieA, TieB, TieC, TieD] == s3 + [TieD];
    SortDescAppend(s3, TieD, Second);
    SortTieFront();
    TieStepD();
  }

  lemma SortTieFront()
    ensures SortDesc([TieA, TieB, TieC], Second) == [TieB, TieC, TieA]
  {
    var s2 := [TieA, TieB];
    assert [TieA, TieB, TieC] == s2 + [TieC];
    assert s2 == [TieA] + [TieB];
    SortDescAppend([TieA], TieB, Second);
    assert SortDesc([TieA], Second) == [TieA] by {
      SortDescAppend([], TieA, Second);
    }
    TieStepB();
    SortDescAppend(s2, TieC, Second);
    TieStepC();
  }

  /** Ties keep their input order: of A 10, B 30, C 30, D 5 the top two are B then C. */
  lemma TopKTieScenario()
    ensures TopK([TieA, TieB, TieC, TieD], Second, 2) == [TieB, TieC]
  {
    SortTieInput();
    assert [TieB, TieC, TieA, TieD][..2] == [TieB, TieC];
  }
}
