/**
 * The in-place Fisher-Yates shuffle `shuffleArray` (Casino/casino.js:404-409)
 * and the facts about permutations the decks and the board rely on.
 *
 * Each `Math.random()` draw of the source becomes an explicit index: the
 * swap partner chosen when the loop is at position i is `draws[i]`, and the
 * source's `Math.floor(Math.random() * (i + 1))` is exactly an integer in
 * [0, i], which is what `ValidDraws` demands.
 */
module Shuffle {

  /** The elements of `s` are pairwise distinct. */
  ghost predicate Distinct<T>(s: seq<T>) {
    forall i, j :: 0 <= i < j < |s| ==> s[i] != s[j]
  }

  /** `draws[i]` is a legal swap partner for position i, for every i the loop visits. */
  predicate ValidDraws(draws: seq<nat>, n: nat) {
    |draws| == n && forall i :: 0 < i < n ==> draws[i] <= i
  }

  /** Exchange the elements at positions i and j. */
  function SwapAt<T>(s: seq<T>, i: nat, j: nat): (r: seq<T>)
    requires i < |s| && j < |s|
    ensures |r| == |s| && r[i] == s[j] && r[j] == s[i]
    ensures forall k :: 0 <= k < |s| && k != i && k != j ==> r[k] == s[k]
  {
    s[i := s[j]][j := s[i]]
  }

  /** The swaps the loop performs at positions i, i-1, ..., 1, in that order. */
  function ShuffleDown<T>(s: seq<T>, draws: seq<nat>, i: nat): (r: seq<T>)
    requires i < |s| && ValidDraws(draws, |s|)
    ensures |r| == |s|
    decreases i
  {
    if i == 0 then s else ShuffleDown(SwapAt(s, i, draws[i]), draws, i - 1)
  }

  /** What `shuffleArray` leaves in an array that held `s`. */
  function Shuffled<T>(s: seq<T>, draws: seq<nat>): (r: seq<T>)
    requires ValidDraws(draws, |s|)
    ensures |r| == |s|
  {
    if |s| == 0 then s else ShuffleDown(s, draws, |s| - 1)
  }

  /** The swaps at positions i and below never touch a position above i. */
  lemma {:induction false} ShuffleDownKeepsAbove<T>(s: seq<T>, draws: seq<nat>, i: nat, k: nat)
    requires i < k < |s| && ValidDraws(draws, |s|)
    ensures ShuffleDown(s, draws, i)[k] == s[k]
    decreases i
  {
    if i > 0 {
      ShuffleDownKeepsAbove(SwapAt(s, i, draws[i]), draws, i - 1, k);
    }
  }

  /**
   * The last position is settled by the loop's first swap and left alone
   * afterwards: it ends up holding the element drawn for it.
   */
  lemma ShuffledLast<T>(s: seq<T>, draws: seq<nat>)
    requires |s| >= 2 && ValidDraws(draws, |s|)
    ensures Shuffled(s, draws)[|s| - 1] == s[draws[|s| - 1]]
  {
    ShuffleDownKeepsAbove(SwapAt(s, |s| - 1, draws[|s| - 1]), draws, |s| - 2, |s| - 1);
  }

  /** The source's `shuffleArray`: for i from length-1 down to 1, swap a[i] with a[draws[i]]. */
  method ShuffleArray<T>(a: array<T>, draws: seq<nat>)
    requires ValidDraws(draws, a.Length)
    modifies a
    ensures a[..] == Shuffled(old(a[..]), draws)
    ensures multiset(a[..]) == multiset(old(a[..]))
  {
    var i := a.Length - 1;
    while i > 0
      invariant -1 <= i < a.Length
      invariant a.Length > 0 ==> 0 <= i && ShuffleDown(a[..], draws, i) == Shuffled(old(a[..]), draws)
    {
      var j := draws[i];
      ghost var before := a[..];
      a[i], a[j] := a[j], a[i];
      assert a[..] == SwapAt(before, i, j);
      i := i - 1;
    }
    ShuffledPermutes(old(a[..]), draws);
  }

  /** One swap permutes the elements. */
  lemma SwapPermutes<T>(s: seq<T>, i: nat, j: nat)
    requires i < |s| && j < |s|
    ensures multiset(SwapAt(s, i, j)) == multiset(s)
  {
  }

  /** Every run of the shuffle is a permutation: same length, same multiset of elements. */
  lemma {:induction false} ShuffleDownPermutes<T>(s: seq<T>, draws: seq<nat>, i: nat)
    requires i < |s| && ValidDraws(draws, |s|)
    ensures |ShuffleDown(s, draws, i)| == |s|
    ensures multiset(ShuffleDown(s, draws, i)) == multiset(s)
    decreases i
  {
    if i > 0 {
      SwapPermutes(s, i, draws[i]);
      ShuffleDownPermutes(SwapAt(s, i, draws[i]), draws, i - 1);
    }
  }

  lemma ShuffledPermutes<T>(s: seq<T>, draws: seq<nat>)
    requires ValidDraws(draws, |s|)
    ensures |Shuffled(s, draws)| == |s|
    ensures multiset(Shuffled(s, draws)) == multiset(s)
  {
    if |s| > 0 {
      ShuffleDownPermutes(s, draws, |s| - 1);
    }
  }

  /** The elementwise image of a sequence under `f`. */
  function Project<T, U>(s: seq<T>, f: T -> U): (r: seq<U>)
    ensures |r| == |s| && forall k :: 0 <= k < |s| ==> r[k] == f(s[k])
  {
    seq(|s|, k requires 0 <= k < |s| => f(s[k]))
  }

  /** Shuffling commutes with taking a projection of every element. */
  lemma {:induction false} ShuffleDownProject<T, U>(s: seq<T>, draws: seq<nat>, i: nat, f: T -> U)
    requires i < |s| && ValidDraws(draws, |s|)
    ensures Project(ShuffleDown(s, draws, i), f) == ShuffleDown(Project(s, f), draws, i)
    decreases i
  {
    if i > 0 {
      var j := draws[i];
      assert Project(SwapAt(s, i, j), f) == SwapAt(Project(s, f), i, j);
      ShuffleDownProject(SwapAt(s, i, j), draws, i - 1, f);
    }
  }

  lemma ShuffledProject<T, U>(s: seq<T>, draws: seq<nat>, f: T -> U)
    requires ValidDraws(draws, |s|)
    ensures Project(Shuffled(s, draws), f) == Shuffled(Project(s, f), draws)
  {
    if |s| > 0 {
      ShuffleDownProject(s, draws, |s| - 1, f);
    }
  }

  /** In a sequence without repeats no element occurs more than once. */
  lemma {:induction false} DistinctMultiplicity<T>(s: seq<T>, x: T)
    requires Distinct(s)
    ensures multiset(s)[x] <= 1
  {
    if |s| > 0 {
      assert s == [s[0]] + s[1..];
      assert Distinct(s[1..]) by {
        forall i, j | 0 <= i < j < |s[1..]| ensures s[1..][i] != s[1..][j] {
          assert s[1..][i] == s[i + 1] && s[1..][j] == s[j + 1];
        }
      }
      DistinctMultiplicity(s[1..], x);
      if x == s[0] {
        assert x !in s[1..] by {
          forall k | 0 <= k < |s[1..]| ensures s[1..][k] != x {
            assert s[1..][k] == s[k + 1];
          }
        }
      }
    }
  }

  /** A value at two positions occurs at least twice. */
  lemma RepeatMultiplicity<T>(s: seq<T>, i: nat, j: nat)
    requires i < j < |s| && s[i] == s[j]
    ensures multiset(s)[s[i]] >= 2
  {
    assert s == s[..i] + [s[i]] + s[i + 1..j] + [s[j]] + s[j + 1..];
  }

  /** Whatever is contained, element by element, in a sequence without repeats has none either. */
  lemma DistinctSub<T>(s: seq<T>, t: seq<T>)
    requires multiset(s) <= multiset(t) && Distinct(t)
    ensures Distinct(s)
  {
    forall i, j | 0 <= i < j < |s| ensures s[i] != s[j] {
      if s[i] == s[j] {
        RepeatMultiplicity(s, i, j);
        DistinctMultiplicity(t, s[i]);
      }
    }
  }

  /** The two parts of a sequence without repeats share no element. */
  lemma DistinctAppendDisjoint<T>(a: seq<T>, b: seq<T>)
    requires Distinct(a + b)
    ensures forall x :: x in b ==> x !in a
  {
    forall x | x in b ensures x !in a {
      var j :| 0 <= j < |b| && b[j] == x;
      assert x == (a + b)[|a| + j];
      forall i | 0 <= i < |a| ensures a[i] != x {
        assert a[i] == (a + b)[i];
      }
    }
  }

  /** Shuffling keeps a sequence free of repeats. */
  lemma ShuffledDistinct<T>(s: seq<T>, draws: seq<nat>)
    requires ValidDraws(draws, |s|) && Distinct(s)
    ensures Distinct(Shuffled(s, draws))
  {
    ShuffledPermutes(s, draws);
    DistinctSub(Shuffled(s, draws), s);
  }
}
