/** The (frequency, norm) pairs that may produce competitive scores
    (core/index/competitiveimpactaccumulator.go), for norms of a byte. */
module Impacts {

  datatype Impact = Impact(freq: int, norm: int)

  /** At least as frequent, in a field that is not longer. */
  predicate Dominates(a: Impact, b: Impact) {
    a.freq >= b.freq && a.norm <= b.norm
  }

  /** A pair that can be competitive: no other of the pairs dominates it. */
  ghost predicate Competitive(added: set<Impact>, x: Impact) {
    x in added && x.freq > 0 && forall y <- added :: Dominates(y, x) ==> y == x
  }

  ghost predicate Increasing(s: seq<Impact>) {
    forall i, j | 0 <= i < j < |s| :: s[i].freq < s[j].freq && s[i].norm < s[j].norm
  }

  /** The array holds the largest frequency of each norm. */
  ghost predicate Accumulated(maxFreqs: seq<int>, added: set<Impact>) {
    && |maxFreqs| == 256
    && (forall x <- added :: 0 <= x.norm < 128 && x.freq <= maxFreqs[x.norm])
    && (forall i | 0 <= i < 256 :: maxFreqs[i] >= 0 && (maxFreqs[i] > 0 ==> Impact(maxFreqs[i], i) in added))
  }

  function Max(a: int, b: int): int {
    if a < b then b else a
  }

  /** A largest frequency that no smaller norm reaches. */
  ghost predicate Record(maxFreqs: seq<int>, x: Impact) {
    && 0 <= x.norm < |maxFreqs| && 0 < x.freq == maxFreqs[x.norm]
    && forall i | 0 <= i < x.norm :: maxFreqs[i] < x.freq
  }

  /** One of the pairs dominates x. */
  ghost predicate Covered(s: seq<Impact>, x: Impact) {
    exists k :: 0 <= k < |s| && Dominates(s[k], x)
  }

  function Top(s: seq<Impact>): int {
    if s == [] then 0 else s[|s| - 1].freq
  }

  /** The pairs that the first n norms give. */
  function Front(maxFreqs: seq<int>, n: nat): seq<Impact>
    requires n <= |maxFreqs|
  {
    if n == 0 then []
    else
      var s := Front(maxFreqs, n - 1);
      if maxFreqs[n - 1] > Top(s) then s + [Impact(maxFreqs[n - 1], n - 1)] else s
  }

  lemma {:induction false} FrontTop(maxFreqs: seq<int>, n: nat)
    requires n <= |maxFreqs|
    ensures var s := Front(maxFreqs, n);
            && Top(s) >= 0 && (forall i | 0 <= i < n :: maxFreqs[i] <= Top(s))
            && forall k | 0 <= k < |s| :: Record(maxFreqs, s[k]) && s[k].norm < n && s[k].freq <= Top(s)
  {
    if n > 0 {
      FrontTop(maxFreqs, n - 1);
    }
  }

  lemma {:induction false} FrontIncreases(maxFreqs: seq<int>, n: nat)
    requires n <= |maxFreqs|
    ensures Increasing(Front(maxFreqs, n))
  {
    if n > 0 {
      FrontIncreases(maxFreqs, n - 1);
      FrontTop(maxFreqs, n - 1);
    }
  }

  lemma {:induction false} FrontHas(maxFreqs: seq<int>, n: nat, x: Impact)
    requires n <= |maxFreqs| && Record(maxFreqs, x) && x.norm < n
    ensures x in Front(maxFreqs, n)
  {
    var s := Front(maxFreqs, n - 1);
    if x.norm < n - 1 {
      FrontHas(maxFreqs, n - 1, x);
    } else {
      FrontTop(maxFreqs, n - 1);
      if s != [] {
        assert Record(maxFreqs, s[|s| - 1]) && s[|s| - 1].norm < x.norm;
      }
      assert Front(maxFreqs, n) == s + [x];
    }
  }

  lemma CoveredGrows(s: seq<Impact>, y: Impact, x: Impact)
    requires Covered(s, x)
    ensures Covered(s + [y], x)
  {
    var k :| 0 <= k < |s| && Dominates(s[k], x);
    assert (s + [y])[k] == s[k];
  }

  lemma {:induction false} FrontCovers(maxFreqs: seq<int>, n: nat, i: nat)
    requires i < n <= |maxFreqs| && maxFreqs[i] > 0
    ensures Covered(Front(maxFreqs, n), Impact(maxFreqs[i], i))
  {
    var s, y, x := Front(maxFreqs, n - 1), Impact(maxFreqs[n - 1], n - 1), Impact(maxFreqs[i], i);
    if i < n - 1 {
      FrontCovers(maxFreqs, n - 1, i);
      CoveredGrows(s, y, x);
    } else if maxFreqs[i] > Top(s) {
      assert (s + [y])[|s|] == x;
    } else {
      FrontTop(maxFreqs, n - 1);
      assert Dominates(s[|s| - 1], x);
    }
  }

  /** Records are the competitive pairs. */
  lemma RecordIffCompetitive(maxFreqs: seq<int>, added: set<Impact>, x: Impact)
    requires Accumulated(maxFreqs, added)
    ensures Record(maxFreqs, x) && x.norm < 256 <==> Competitive(added, x)
  {
    if Record(maxFreqs, x) {
      forall y <- added | Dominates(y, x) ensures y == x {
        assert y.freq <= maxFreqs[y.norm];
      }
    }
    if Competitive(added, x) {
      assert Dominates(Impact(maxFreqs[x.norm], x.norm), x);
      forall i | 0 <= i < x.norm ensures maxFreqs[i] < x.freq {
        if maxFreqs[i] >= x.freq {
          assert Dominates(Impact(maxFreqs[i], i), x);
        }
      }
    }
  }

  /** The front of all norms is exactly the competitive pairs, and covers every pair. */
  lemma FrontIsCompetitive(maxFreqs: seq<int>, added: set<Impact>)
    requires Accumulated(maxFreqs, added)
    ensures var s := Front(maxFreqs, 256);
            && (forall x :: x in s <==> Competitive(added, x))
            && forall x <- added :: x.freq > 0 ==> Covered(s, x)
  {
    hide Front, Record, Competitive;
    var s := Front(maxFreqs, 256);
    forall x ensures x in s <==> Competitive(added, x) {
      RecordIffCompetitive(maxFreqs, added, x);
      FrontTop(maxFreqs, 256);
      if Competitive(added, x) {
        FrontHas(maxFreqs, 256, x);
      }
    }
    forall x <- added | x.freq > 0 ensures Covered(s, x) {
      FrontCovers(maxFreqs, 256, x.norm);
      var k :| 0 <= k < |s| && Dominates(s[k], Impact(maxFreqs[x.norm], x.norm));
      assert Dominates(s[k], x);
    }
  }

  lemma MaxAccumulates(a: seq<int>, b: seq<int>, c: seq<int>, x: set<Impact>, y: set<Impact>)
    requires Accumulated(a, x) && Accumulated(b, y) && |c| == 256
    requires forall k | 0 <= k < 256 :: c[k] == Max(a[k], b[k])
    ensures Accumulated(c, x + y)
  {
  }

  class CompetitiveImpactAccumulator {
    const maxFreqs: array<int>
    ghost var added: set<Impact>

    ghost predicate Valid()
      reads this, maxFreqs
    {
      maxFreqs.Length == 256 && Accumulated(maxFreqs[..], added)
    }

    constructor ()
      ensures Valid() && added == {} && fresh(maxFreqs)
    {
      maxFreqs := new int[256](_ => 0);
      added := {};
    }

    method Clear()
      requires Valid()
      modifies this, maxFreqs
      ensures Valid() && added == {}
    {
      for i := 0 to maxFreqs.Length
        invariant forall k | 0 <= k < i :: maxFreqs[k] == 0
      {
        maxFreqs[i] := 0;
      }
      added := {};
    }

    /** Add, for norms of a byte: a negative one has no place in the array. */
    method Add(freq: int, norm: int) returns (ok: bool)
      requires Valid() && -128 <= norm <= 127
      modifies this, maxFreqs
      ensures Valid() && ok == (norm >= 0)
      ensures added == if ok then old(added) + {Impact(freq, norm)} else old(added)
    {
      if norm < 0 {
        return false;
      }
      maxFreqs[norm] := Max(maxFreqs[norm], freq);
      added := added + {Impact(freq, norm)};
      return true;
    }

    /** AddAll: as if all pairs of the other had been added to this one. */
    method AddAll(acc: CompetitiveImpactAccumulator)
      requires Valid() && acc.Valid() && (acc != this ==> acc.maxFreqs != maxFreqs)
      modifies this, maxFreqs
      ensures Valid() && added == old(added) + old(acc.added)
      ensures acc != this ==> acc.Valid() && acc.added == old(acc.added)
    {
      ghost var mine, theirs, others := maxFreqs[..], acc.maxFreqs[..], acc.added;
      for i := 0 to maxFreqs.Length
        invariant added == old(added) && (acc != this ==> acc.maxFreqs[..] == theirs)
        invariant forall k | 0 <= k < 256 :: maxFreqs[k] == if k < i then Max(mine[k], theirs[k]) else mine[k]
      {
        maxFreqs[i] := Max(maxFreqs[i], acc.maxFreqs[i]);
      }
      MaxAccumulates(mine, theirs, maxFreqs[..], added, others);
      added := added + acc.added;
    }

    /** GetCompetitiveFreqNormPairs: ordered by frequency and norm, exactly the pairs that
        no other dominates. */
    method GetCompetitiveFreqNormPairs() returns (impacts: seq<Impact>)
      requires Valid()
      ensures Increasing(impacts)
      ensures forall x :: x in impacts <==> Competitive(added, x)
      ensures forall x <- added :: x.freq > 0 ==> Covered(impacts, x)
    {
      hide Increasing, Accumulated;
      impacts := [];
      var maxFreqForLowerNorms := 0;
      for i := 0 to maxFreqs.Length
        invariant impacts == Front(maxFreqs[..], i) && maxFreqForLowerNorms == Top(impacts)
      {
        var maxFreq := maxFreqs[i];
        if maxFreq > maxFreqForLowerNorms {
          impacts := impacts + [Impact(maxFreq, i)];
          maxFreqForLowerNorms := maxFreq;
        }
      }
      FrontIsCompetitive(maxFreqs[..], added);
      FrontIncreases(maxFreqs[..], 256);
    }
  }
}
