/**
 * The Fisher–Yates shuffle the page uses to randomise each tier of the bank.
 * The random source is made explicit: `js[i]` is the index in 0..i that
 * `Math.floor(Math.random() * (i + 1))` picked when the loop was at position i.
 */
module FisherYates {

  /** `js` is a possible outcome of the random draws for a list of length `n`. */
  predicate ValidDraws(js: seq<int>, n: nat)
  {
    |js| == n && forall i :: 0 <= i < n ==> 0 <= js[i] <= i
  }

  /** `s` with the elements at `i` and `j` exchanged. */
  function Swap<T>(s: seq<T>, i: nat, j: nat): (r: seq<T>)
    requires i < |s| && j < |s|
    ensures |r| == |s| && r[i] == s[j] && r[j] == s[i]
    ensures forall k :: 0 <= k < |s| && k != i && k != j ==> r[k] == s[k]
    ensures multiset(r) == multiset(s)
  {
    s[i := s[j]][j := s[i]]
  }

  /**
   * The shuffle from the point where positions m-1 down to 1 are still to be
   * visited: each visit swaps position i with the drawn position js[i].
   */
  function Steps<T>(s: seq<T>, js: seq<int>, m: nat): seq<T>
    requires m <= |s| && ValidDraws(js, |s|)
    decreases m
  {
    if m <= 1 then s else Steps(Swap(s, m - 1, js[m - 1]), js, m - 1)
  }

  /** The list the shuffle returns for input `s` and draws `js`. */
  function Shuffle<T>(s: seq<T>, js: seq<int>): seq<T>
    requires ValidDraws(js, |s|)
  {
    Steps(s, js, |s|)
  }

  lemma {:induction false} StepsPermutes<T>(s: seq<T>, js: seq<int>, m: nat)
    requires m <= |s| && ValidDraws(js, |s|)
    ensures |Steps(s, js, m)| == |s|
    ensures multiset(Steps(s, js, m)) == multiset(s)
    decreases m
  {
    if m > 1 {
      StepsPermutes(Swap(s, m - 1, js[m - 1]), js, m - 1);
    }
  }

  /** Whatever the draws, the shuffle returns a permutation of its input. */
  lemma ShufflePermutes<T>(s: seq<T>, js: seq<int>)
    requires ValidDraws(js, |s|)
    ensures |Shuffle(s, js)| == |s|
    ensures multiset(Shuffle(s, js)) == multiset(s)
  {
    StepsPermutes(s, js, |s|);
  }

  /** Only the draws for the positions still to be visited matter. */
  lemma {:induction false} StepsFrame<T>(s: seq<T>, js: seq<int>, js': seq<int>, m: nat)
    requires m <= |s| && ValidDraws(js, |s|) && ValidDraws(js', |s|)
    requires forall i :: 0 <= i < m ==> js[i] == js'[i]
    ensures Steps(s, js, m) == Steps(s, js', m)
    decreases m
  {
    if m > 1 {
      StepsFrame(Swap(s, m - 1, js[m - 1]), js, js', m - 1);
    }
  }

  /** A position below `m` holds the element that `t` places at position m-1. */
  lemma FindSource<T>(s: seq<T>, t: seq<T>, m: nat) returns (j: nat)
    requires 0 < m <= |s| && m <= |t|
    requires multiset(s[..m]) == multiset(t[..m])
    ensures j < m && s[j] == t[m - 1]
  {
    assert t[m - 1] in t[..m];
    assert t[m - 1] in multiset(s[..m]);
    j :| 0 <= j < m && s[..m][j] == t[m - 1];
  }

  /** Removing the same last element from two lists with equal multisets keeps them equal. */
  lemma DropLast<T>(u: seq<T>, v: seq<T>, x: T)
    requires multiset(u + [x]) == multiset(v + [x])
    ensures multiset(u) == multiset(v)
  {
    assert multiset(u + [x]) == multiset(u) + multiset{x};
    assert multiset(v + [x]) == multiset(v) + multiset{x};
    assert multiset(u) == multiset(u + [x]) - multiset{x};
  }

  /** Swapping inside the first `m` positions is swapping inside the prefix. */
  lemma SwapPrefix<T>(s: seq<T>, m: nat, i: nat, j: nat)
    requires m <= |s| && i < m && j < m
    ensures Swap(s, i, j)[..m] == Swap(s[..m], i, j)
  {
  }

  /** Swapping the element `u` wants last into last place leaves equal multisets before it. */
  lemma SwapLast<T>(p: seq<T>, u: seq<T>, j: nat)
    requires 0 < |p| == |u| && j < |p| && p[j] == u[|p| - 1]
    requires multiset(p) == multiset(u)
    ensures multiset(Swap(p, |p| - 1, j)[..|p| - 1]) == multiset(u[..|u| - 1])
  {
    var n := |p|;
    var p' := Swap(p, n - 1, j);
    assert p' == p'[..n - 1] + [u[n - 1]];
    assert u == u[..n - 1] + [u[n - 1]];
    DropLast(p'[..n - 1], u[..n - 1], u[n - 1]);
  }

  lemma PrefixOfPrefix<T>(u: seq<T>, a: nat, b: nat)
    requires a <= b <= |u|
    ensures u[..b][..a] == u[..a]
  {
  }

  /** After swapping the element `t` wants at m-1 into place, the prefixes still agree as multisets. */
  lemma SwapKeepsPrefix<T>(s: seq<T>, t: seq<T>, m: nat, j: nat)
    requires 0 < m <= |s| && |t| == |s| && j < m && s[j] == t[m - 1]
    requires multiset(s[..m]) == multiset(t[..m])
    ensures multiset(Swap(s, m - 1, j)[..m - 1]) == multiset(t[..m - 1])
  {
    var p, u := s[..m], t[..m];
    var q, q' := Swap(s, m - 1, j), Swap(p, m - 1, j);
    SwapPrefix(s, m, m - 1, j);
    SwapLast(p, u, j);
    PrefixOfPrefix(t, m - 1, m);
    PrefixOfPrefix(q, m - 1, m);
    assert q[..m - 1] == q'[..m - 1];
    assert u[..m - 1] == t[..m - 1];
  }

  /** After swapping the element `t` wants at m-1 into place, the suffixes from m-1 agree. */
  lemma SwapKeepsSuffix<T>(s: seq<T>, t: seq<T>, m: nat, j: nat)
    requires 0 < m <= |s| && |t| == |s| && j < m && s[j] == t[m - 1]
    requires s[m..] == t[m..]
    ensures Swap(s, m - 1, j)[m - 1..] == t[m - 1..]
  {
    var s' := Swap(s, m - 1, j);
    forall k | m - 1 <= k < |s|
      ensures s'[k] == t[k]
    {
      if k >= m {
        assert s[m..][k - m] == t[m..][k - m];
      }
    }
  }

  /** With at most one position left, agreeing prefixes and suffixes make the lists equal. */
  lemma ShortPrefixEqual<T>(s: seq<T>, t: seq<T>, m: nat)
    requires m <= 1 && m <= |s| && |t| == |s|
    requires multiset(s[..m]) == multiset(t[..m]) && s[m..] == t[m..]
    ensures s == t
  {
    if m == 1 {
      assert s[..1] == [s[0]] && t[..1] == [t[0]];
      assert s[0] in multiset(t[..1]);
    }
    assert s == s[..m] + s[m..] && t == t[..m] + t[m..];
  }

  /**
   * For every rearrangement `t` of the first `m` elements of `s`, some draws
   * make the remaining steps produce `t`.
   */
  lemma {:induction false} StepsReach<T>(s: seq<T>, t: seq<T>, m: nat, js0: seq<int>) returns (js: seq<int>)
    requires m <= |s| && |t| == |s| && ValidDraws(js0, |s|)
    requires multiset(s[..m]) == multiset(t[..m]) && s[m..] == t[m..]
    ensures ValidDraws(js, |s|) && Steps(s, js, m) == t
    decreases m
  {
    if m <= 1 {
      ShortPrefixEqual(s, t, m);
      js := js0;
    } else {
      var j := FindSource(s, t, m);
      SwapKeepsPrefix(s, t, m, j);
      SwapKeepsSuffix(s, t, m, j);
      var s' := Swap(s, m - 1, j);
      var js1 := StepsReach(s', t, m - 1, js0);
      js := js1[m - 1 := j];
      StepsFrame(s', js, js1, m - 1);
    }
  }

  /**
   * Every permutation of the input is the result of some outcome of the
   * random draws: the shuffle can produce each ordering.
   */
  lemma ShuffleReachesEvery<T>(s: seq<T>, t: seq<T>) returns (js: seq<int>)
    requires multiset(t) == multiset(s)
    ensures ValidDraws(js, |s|) && Shuffle(s, js) == t
  {
    assert |t| == |multiset(t)| == |s|;
    assert s[..|s|] == s && t[..|t|] == t;
    js := StepsReach(s, t, |s|, seq(|s|, i => 0));
  }

  /**
   * `shuffleArray`: copies `items` into a fresh array and runs the downward
   * Fisher–Yates loop on the copy; the caller's list is a value and is not changed.
   */
  method ShuffleArray<T>(items: seq<T>, js: seq<int>) returns (shuffled: seq<T>)
    requires ValidDraws(js, |items|)
    ensures shuffled == Shuffle(items, js)
    ensures |shuffled| == |items| && multiset(shuffled) == multiset(items)
  {
    var a := new T[|items|](k requires 0 <= k < |items| => items[k]);
    assert a[..] == items;
    var i := a.Length - 1;
    while i > 0
      invariant -1 <= i < a.Length
      invariant Steps(a[..], js, i + 1) == Shuffle(items, js)
    {
      var j := js[i];
      ghost var before := a[..];
      a[i], a[j] := a[j], a[i];
      assert a[..] == before[i := before[j]][j := before[i]];
      i := i - 1;
    }
    shuffled := a[..];
    ShufflePermutes(items, js);
  }
}
