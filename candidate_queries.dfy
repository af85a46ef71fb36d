/**
  The search-plan gating that `test_query_expander.py` computes itself:
  synonym generation only for short topics, the N-1 fallback stage only from
  three keywords on, its candidates as `itertools.combinations(keywords, N-1)`,
  at most two ranked candidates, and each candidate rendered as an AND query.
  Keyword extraction, synonym generation and ranking are not part of this model.
*/
module CandidateQueries {
  import opened Wrappers
  import opened Text
  import opened QueryExpander

  /** Synonyms are requested only for topics of fewer than 10 words. */
  predicate WantsSynonyms(topic: string)
  {
    |SplitWhitespace(topic)| < 10
  }

  /** A topic of fewer than 10 characters cannot have 10 words, so it always gets synonyms. */
  lemma ShortTopicWantsSynonyms(topic: string)
    requires |topic| < 10
    ensures WantsSynonyms(topic)
  {
    WordCountAtMostLength(topic);
  }

  /**
    `itertools.combinations(s, r)`: every subsequence of length `r`, in
    lexicographic order of the chosen positions.
  */
  function Combinations<T>(s: seq<T>, r: nat): (cs: seq<seq<T>>)
    ensures forall k :: 0 <= k < |cs| ==> |cs[k]| == r
    ensures r > |s| ==> cs == []
    decreases |s|
  {
    if r == 0 then [[]]
    else if |s| < r then []
    else Prepend(s[0], Combinations(s[1..], r - 1)) + Combinations(s[1..], r)
  }

  function Prepend<T>(x: T, cs: seq<seq<T>>): (r: seq<seq<T>>)
    ensures |r| == |cs| && forall k :: 0 <= k < |cs| ==> r[k] == [x] + cs[k]
  {
    seq(|cs|, k requires 0 <= k < |cs| => [x] + cs[k])
  }

  /** `s` without its element at position `i`. */
  function RemoveAt<T>(s: seq<T>, i: nat): (r: seq<T>)
    requires i < |s|
    ensures |r| == |s| - 1
  {
    s[..i] + s[i + 1..]
  }

  /** The only way to choose all elements is the sequence itself. */
  lemma {:induction false} CombinationsAll<T>(s: seq<T>)
    ensures Combinations(s, |s|) == [s]
    decreases |s|
  {
    if |s| > 0 {
      CombinationsAll(s[1..]);
      assert Combinations(s[1..], |s|) == [];
      assert [s[0]] + s[1..] == s;
    }
  }

  /**
    The N-1 candidates: exactly N of them, the one at index N-1-i being the
    keyword list with position i removed, order preserved (so the first drops
    the last keyword).
  */
  lemma {:induction false} DropOneCombinations<T>(s: seq<T>)
    requires |s| >= 1
    ensures |Combinations(s, |s| - 1)| == |s|
    ensures forall i :: 0 <= i < |s| ==> Combinations(s, |s| - 1)[|s| - 1 - i] == RemoveAt(s, i)
    decreases |s|
  {
    var n := |s|;
    if n == 1 {
      assert RemoveAt(s, 0) == [];
    } else {
      var tail := s[1..];
      assert |tail| - 1 == n - 2;
      DropOneCombinations(tail);
      var inner := Combinations(tail, |tail| - 1);
      var cs := Combinations(s, n - 1);
      UnfoldDropOne(s);
      assert cs == Prepend(s[0], inner) + [tail];
      DropOneStep(s, inner, cs);
    }
  }

  /** The inductive step of DropOneCombinations, stated without `Combinations`. */
  lemma DropOneStep<T>(s: seq<T>, inner: seq<seq<T>>, cs: seq<seq<T>>)
    requires |s| >= 2
    requires |inner| == |s| - 1
    requires forall i :: 0 <= i < |s| - 1 ==> inner[|s| - 2 - i] == RemoveAt(s[1..], i)
    requires cs == Prepend(s[0], inner) + [s[1..]]
    ensures |cs| == |s|
    ensures forall i :: 0 <= i < |s| ==> cs[|s| - 1 - i] == RemoveAt(s, i)
  {
    var n := |s|;
    var pre := Prepend(s[0], inner);
    forall i | 0 <= i < n
      ensures cs[n - 1 - i] == RemoveAt(s, i)
    {
      if i == 0 {
        assert cs[n - 1] == s[1..];
      } else {
        var j := n - 1 - i;
        assert cs[j] == pre[j] == [s[0]] + inner[j];
        assert inner[j] == RemoveAt(s[1..], i - 1);
        RemoveAtCons(s, i);
      }
    }
  }

  /** Choosing all but one from `x :: tail`: those keeping `x`, then `tail` itself. */
  lemma UnfoldDropOne<T>(s: seq<T>)
    requires |s| >= 2
    ensures Combinations(s, |s| - 1) == Prepend(s[0], Combinations(s[1..], |s| - 2)) + [s[1..]]
  {
    var t := s[1..];
    var r := |s| - 1;
    assert r != 0 && |s| >= r && |t| == r && r - 1 == |s| - 2;
    calc {
      Combinations(s, r);
      Prepend(s[0], Combinations(t, r - 1)) + Combinations(t, r);
      { CombinationsAll(t); }
      Prepend(s[0], Combinations(t, |s| - 2)) + [t];
    }
  }

  lemma RemoveAtCons<T>(s: seq<T>, i: nat)
    requires 0 < i < |s|
    ensures [s[0]] + RemoveAt(s[1..], i - 1) == RemoveAt(s, i)
  {
  }

  /** The N-1 stage: skipped (`None`) below three keywords, else all N-1 combinations. */
  function FallbackCandidates(keywords: seq<string>): (r: Option<seq<seq<string>>>)
    ensures r.None? <==> |keywords| < 3
    ensures r.Some? ==> |r.value| == |keywords|
    ensures r.Some? ==> forall i :: 0 <= i < |keywords| ==> r.value[|keywords| - 1 - i] == RemoveAt(keywords, i)
  {
    if |keywords| < 3 then None
    else
      DropOneCombinations(keywords);
      Some(Combinations(keywords, |keywords| - 1))
  }

  /** A candidate rendered as its keywords, each quoted, joined by " AND ". */
  function RenderAnd(combo: seq<string>): (q: string)
    ensures (forall k :: 0 <= k < |combo| ==> NoQuote(combo[k])) ==> FindQuoted(q) == combo
  {
    assert (forall k :: 0 <= k < |combo| ==> NoQuote(combo[k])) ==> FindQuoted(JoinQuoted(combo, " AND ")) == combo by {
      if forall k :: 0 <= k < |combo| ==> NoQuote(combo[k]) {
        FindQuotedJoin(combo, " AND ");
      }
    }
    JoinQuoted(combo, " AND ")
  }

  /**
    The printed fallback queries: each ranked candidate rendered as its quoted
    keywords joined by " AND ". The ranking asks for two candidates, but the
    ranking function is not defined in the repository, so nothing bounds how
    many come back.
  */
  function RenderRanked(ranked: seq<seq<string>>): (qs: seq<string>)
    ensures |qs| == |ranked|
    ensures forall i :: 0 <= i < |ranked| ==>
      ((forall k :: 0 <= k < |ranked[i]| ==> NoQuote(ranked[i][k])) ==> FindQuoted(qs[i]) == ranked[i])
  {
    seq(|ranked|, i requires 0 <= i < |ranked| => RenderAnd(ranked[i]))
  }
}
