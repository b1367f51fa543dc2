/**
 * Test assembly: the bank is split into its 3-, 4- and 5-point tiers, each
 * tier is shuffled and cut to its first eight questions, and the three blocks
 * are concatenated in the fixed order 3, 4, 5 points.
 */
module TestGeneration {
  import opened Questions
  import opened FisherYates

  /** How many questions each tier contributes (`slice(0, 8)`). */
  const PerTier: nat := 8

  function Min(a: int, b: int): int
  {
    if a <= b then a else b
  }

  /** `allQuestions.filter(q => q.points === p)`: the questions of one tier, in bank order. */
  function Tier(all: seq<Question>, p: int): seq<Question>
  {
    if all == [] then []
    else (if all[0].points == p then [all[0]] else []) + Tier(all[1..], p)
  }

  /**
   * The filter keeps every question of the tier as often as the bank holds it,
   * and nothing else.
   */
  lemma {:induction false} TierCounts(all: seq<Question>, p: int)
    ensures forall q :: multiset(Tier(all, p))[q] == if q.points == p then multiset(all)[q] else 0
  {
    if all != [] {
      assert all == [all[0]] + all[1..];
      TierCounts(all[1..], p);
    }
  }

  /** `s.slice(0, n)` for n >= 0: the first n elements, or all of them when there are fewer. */
  function Take<T>(s: seq<T>, n: nat): seq<T>
  {
    s[..Min(n, |s|)]
  }

  /** The block a tier contributes: its shuffled questions, cut to eight. */
  function Block(all: seq<Question>, p: int, d: seq<int>): seq<Question>
    requires ValidDraws(d, |Tier(all, p)|)
  {
    Take(Shuffle(Tier(all, p), d), PerTier)
  }

  /** The draws are a possible outcome for the three tiers of `all`. */
  predicate ValidTestDraws(all: seq<Question>, d3: seq<int>, d4: seq<int>, d5: seq<int>)
  {
    ValidDraws(d3, |Tier(all, 3)|) && ValidDraws(d4, |Tier(all, 4)|) && ValidDraws(d5, |Tier(all, 5)|)
  }

  /** The test `generateTest` assembles from `all` for the given draws. */
  function TestOf(all: seq<Question>, d3: seq<int>, d4: seq<int>, d5: seq<int>): seq<Question>
    requires ValidTestDraws(all, d3, d4, d5)
  {
    Block(all, 3, d3) + Block(all, 4, d4) + Block(all, 5, d5)
  }

  /** Size of the block that tier `p` of `all` contributes. */
  function BlockSize(all: seq<Question>, p: int): nat
  {
    Min(PerTier, |Tier(all, p)|)
  }

  lemma TakeSub<T>(s: seq<T>, n: nat)
    ensures multiset(Take(s, n)) <= multiset(s)
    ensures |s| <= n ==> Take(s, n) == s
  {
    var k := Min(n, |s|);
    assert s == s[..k] + s[k..];
  }

  /** A tier's block has min(8, tier size) questions, all of that tier. */
  lemma BlockFacts(all: seq<Question>, p: int, d: seq<int>)
    requires ValidDraws(d, |Tier(all, p)|)
    ensures |Block(all, p, d)| == BlockSize(all, p)
    ensures AllWorth(Block(all, p, d), p)
  {
    var t := Tier(all, p);
    TierCounts(all, p);
    ShufflePermutes(t, d);
    var sh := Shuffle(t, d);
    TakeSub(sh, PerTier);
    var b := Block(all, p, d);
    forall i | 0 <= i < |b|
      ensures b[i].points == p
    {
      assert b[i] in multiset(t);
    }
  }

  /**
   * A tier's block holds no question more often than the bank does, and only
   * questions of the tier; when the tier has at most eight questions it holds
   * all of them.
   */
  lemma BlockCounts(all: seq<Question>, p: int, d: seq<int>)
    requires ValidDraws(d, |Tier(all, p)|)
    ensures forall q :: multiset(Block(all, p, d))[q] <= if q.points == p then multiset(all)[q] else 0
    ensures |Tier(all, p)| <= PerTier ==>
      forall q :: multiset(Block(all, p, d))[q] == if q.points == p then multiset(all)[q] else 0
  {
    var t := Tier(all, p);
    TierCounts(all, p);
    ShufflePermutes(t, d);
    TakeSub(Shuffle(t, d), PerTier);
  }

  /** All questions of `b` are worth `p` points. */
  predicate AllWorth(b: seq<Question>, p: int)
  {
    forall i :: 0 <= i < |b| ==> b[i].points == p
  }

  /** The layout of three blocks laid end to end. */
  lemma ConcatShape(b3: seq<Question>, b4: seq<Question>, b5: seq<Question>)
    requires AllWorth(b3, 3) && AllWorth(b4, 4) && AllWorth(b5, 5)
    ensures var test := b3 + b4 + b5;
      && (forall i :: 0 <= i < |b3| ==> test[i].points == 3)
      && (forall i :: |b3| <= i < |b3| + |b4| ==> test[i].points == 4)
      && (forall i :: |b3| + |b4| <= i < |test| ==> test[i].points == 5)
  {
    var test := b3 + b4 + b5;
    forall i | |b3| <= i < |b3| + |b4|
      ensures test[i].points == 4
    {
      assert test[i] == b4[i - |b3|];
    }
    forall i | |b3| + |b4| <= i < |test|
      ensures test[i].points == 5
    {
      assert test[i] == b5[i - |b3| - |b4|];
    }
  }

  /**
   * The test is made of three contiguous blocks: min(8, tier size) questions
   * of 3 points, then of 4 points, then of 5 points.
   */
  lemma TestShape(all: seq<Question>, d3: seq<int>, d4: seq<int>, d5: seq<int>)
    requires ValidTestDraws(all, d3, d4, d5)
    ensures var test, n3, n4 := TestOf(all, d3, d4, d5), BlockSize(all, 3), BlockSize(all, 4);
      && |test| == n3 + n4 + BlockSize(all, 5)
      && (forall i :: 0 <= i < n3 ==> test[i].points == 3)
      && (forall i :: n3 <= i < n3 + n4 ==> test[i].points == 4)
      && (forall i :: n3 + n4 <= i < |test| ==> test[i].points == 5)
  {
    BlockFacts(all, 3, d3);
    BlockFacts(all, 4, d4);
    BlockFacts(all, 5, d5);
    ConcatShape(Block(all, 3, d3), Block(all, 4, d4), Block(all, 5, d5));
  }

  /** Points never decrease along the test. */
  lemma PointsNonDecreasing(all: seq<Question>, d3: seq<int>, d4: seq<int>, d5: seq<int>)
    requires ValidTestDraws(all, d3, d4, d5)
    ensures var test := TestOf(all, d3, d4, d5);
      forall i, j :: 0 <= i <= j < |test| ==> test[i].points <= test[j].points
  {
    TestShape(all, d3, d4, d5);
  }

  /** The test has the intended 24 questions exactly when every tier has at least eight. */
  lemma FullTestIff(all: seq<Question>, d3: seq<int>, d4: seq<int>, d5: seq<int>)
    requires ValidTestDraws(all, d3, d4, d5)
    ensures |TestOf(all, d3, d4, d5)| == 24
        <==> |Tier(all, 3)| >= 8 && |Tier(all, 4)| >= 8 && |Tier(all, 5)| >= 8
  {
    BlockFacts(all, 3, d3);
    BlockFacts(all, 4, d4);
    BlockFacts(all, 5, d5);
  }

  /** Questions are drawn without replacement: none appears more often than in the bank. */
  lemma DrawnFromBank(all: seq<Question>, d3: seq<int>, d4: seq<int>, d5: seq<int>)
    requires ValidTestDraws(all, d3, d4, d5)
    ensures multiset(TestOf(all, d3, d4, d5)) <= multiset(all)
  {
    BlockCounts(all, 3, d3);
    BlockCounts(all, 4, d4);
    BlockCounts(all, 5, d5);
    var m3, m4, m5 := multiset(Block(all, 3, d3)), multiset(Block(all, 4, d4)), multiset(Block(all, 5, d5));
    assert multiset(TestOf(all, d3, d4, d5)) == m3 + m4 + m5;
    forall q
      ensures (m3 + m4 + m5)[q] <= multiset(all)[q]
    {
    }
  }

  /** Three per-tier selections that each hold their whole tier together hold every 3-, 4- and 5-point question. */
  lemma TiersMakeBank(m3: multiset<Question>, m4: multiset<Question>, m5: multiset<Question>, bank: multiset<Question>)
    requires forall q :: m3[q] == if q.points == 3 then bank[q] else 0
    requires forall q :: m4[q] == if q.points == 4 then bank[q] else 0
    requires forall q :: m5[q] == if q.points == 5 then bank[q] else 0
    ensures forall q :: (m3 + m4 + m5)[q] == if 3 <= q.points <= 5 then bank[q] else 0
  {
  }

  /**
   * When every tier has exactly eight questions, the test holds every 3-, 4-
   * and 5-point question of the bank exactly as often as the bank does.
   */
  lemma ExactTiersUseWholeBank(all: seq<Question>, d3: seq<int>, d4: seq<int>, d5: seq<int>)
    requires ValidTestDraws(all, d3, d4, d5)
    requires |Tier(all, 3)| == 8 && |Tier(all, 4)| == 8 && |Tier(all, 5)| == 8
    ensures forall q :: multiset(TestOf(all, d3, d4, d5))[q]
                        == if 3 <= q.points <= 5 then multiset(all)[q] else 0
  {
    BlockCounts(all, 3, d3);
    BlockCounts(all, 4, d4);
    BlockCounts(all, 5, d5);
    var m3, m4, m5 := multiset(Block(all, 3, d3)), multiset(Block(all, 4, d4)), multiset(Block(all, 5, d5));
    assert multiset(TestOf(all, d3, d4, d5)) == m3 + m4 + m5;
    TiersMakeBank(m3, m4, m5, multiset(all));
  }

  /** Three blocks of 3-, 4- and 5-point questions are worth 3, 4 and 5 points per question. */
  lemma ConcatPoints(b3: seq<Question>, b4: seq<Question>, b5: seq<Question>)
    requires AllWorth(b3, 3) && AllWorth(b4, 4) && AllWorth(b5, 5)
    ensures TotalPoints(b3 + b4 + b5) == 3 * |b3| + 4 * |b4| + 5 * |b5|
  {
    TotalPointsAppend(b3 + b4, b5);
    TotalPointsAppend(b3, b4);
    TotalPointsUniform(b3, 3);
    TotalPointsUniform(b4, 4);
    TotalPointsUniform(b5, 5);
  }

  /**
   * The hard-coded maximum of 96 points: no generated test is worth more, and
   * a test is worth exactly 96 when every tier has at least eight questions.
   */
  lemma MaxScoreMatchesTest(all: seq<Question>, d3: seq<int>, d4: seq<int>, d5: seq<int>)
    requires ValidTestDraws(all, d3, d4, d5)
    ensures TotalPoints(TestOf(all, d3, d4, d5)) <= 96
    ensures TotalPoints(TestOf(all, d3, d4, d5)) == 96
        <==> |Tier(all, 3)| >= 8 && |Tier(all, 4)| >= 8 && |Tier(all, 5)| >= 8
  {
    BlockFacts(all, 3, d3);
    BlockFacts(all, 4, d4);
    BlockFacts(all, 5, d5);
    ConcatPoints(Block(all, 3, d3), Block(all, 4, d4), Block(all, 5, d5));
  }

  /**
   * `generateTest` without its final assignment: filter the three tiers,
   * shuffle each with `shuffleArray`, keep eight of each, concatenate.
   */
  method DrawTest(all: seq<Question>, d3: seq<int>, d4: seq<int>, d5: seq<int>) returns (test: seq<Question>)
    requires ValidTestDraws(all, d3, d4, d5)
    ensures test == TestOf(all, d3, d4, d5)
    ensures forall i, j :: 0 <= i <= j < |test| ==> test[i].points <= test[j].points
    ensures multiset(test) <= multiset(all)
    ensures |test| == 24 <==> |Tier(all, 3)| >= 8 && |Tier(all, 4)| >= 8 && |Tier(all, 5)| >= 8
  {
    var questions3pt := Tier(all, 3);
    var questions4pt := Tier(all, 4);
    var questions5pt := Tier(all, 5);
    var shuffled3pt := ShuffleArray(questions3pt, d3);
    var shuffled4pt := ShuffleArray(questions4pt, d4);
    var shuffled5pt := ShuffleArray(questions5pt, d5);
    test := Take(shuffled3pt, PerTier) + Take(shuffled4pt, PerTier) + Take(shuffled5pt, PerTier);
    PointsNonDecreasing(all, d3, d4, d5);
    DrawnFromBank(all, d3, d4, d5);
    FullTestIff(all, d3, d4, d5);
  }
}
