/**
 * The overlap score of one sentence against the query:
 * `sentenceTokens.filter(token => queryTokens.includes(token)).length`.
 */
module Scoring {

  /**
   * The two text operations the retriever borrows: `String.prototype.toLowerCase`
   * and the `tokenize` method of the word tokenizer. Both are left open, so
   * everything proved here holds for any lower-casing and any tokenizer.
   */
  datatype Analyzer = Analyzer(toLowerCase: string -> string, tokenize: string -> seq<string>)

  /** `tokenizer.tokenize(s.toLowerCase())` */
  function Tokens(a: Analyzer, s: string): seq<string> {
    a.tokenize(a.toLowerCase(s))
  }

  /** The tokens of the sentence, in order and with repeats, that occur anywhere in the query's tokens. */
  function Intersection(sentenceTokens: seq<string>, queryTokens: seq<string>): seq<string> {
    if sentenceTokens == [] then []
    else
      var last := sentenceTokens[|sentenceTokens| - 1];
      Intersection(sentenceTokens[..|sentenceTokens| - 1], queryTokens)
        + (if last in queryTokens then [last] else [])
  }

  function Score(sentenceTokens: seq<string>, queryTokens: seq<string>): nat {
    |Intersection(sentenceTokens, queryTokens)|
  }

  /** The positions of the sentence's tokens that match some query token. */
  function MatchPositions(sentenceTokens: seq<string>, queryTokens: seq<string>): set<nat> {
    set i: nat | i < |sentenceTokens| && sentenceTokens[i] in queryTokens
  }

  /** The score counts the matching positions of the sentence: a repeated sentence token counts each time. */
  lemma {:induction false} ScoreCountsPositions(sentenceTokens: seq<string>, queryTokens: seq<string>)
    ensures Score(sentenceTokens, queryTokens) == |MatchPositions(sentenceTokens, queryTokens)|
    decreases |sentenceTokens|
  {
    if sentenceTokens != [] {
      var n := |sentenceTokens| - 1;
      var init := sentenceTokens[..n];
      ScoreCountsPositions(init, queryTokens);
      var before := MatchPositions(init, queryTokens);
      var now := MatchPositions(sentenceTokens, queryTokens);
      if sentenceTokens[n] in queryTokens {
        assert now == before + {n};
        assert n !in before;
      } else {
        assert now == before;
      }
    }
  }

  /** Only which tokens the query holds matters, not how often or in what order. */
  lemma {:induction false} ScoreDependsOnQuerySet(sentenceTokens: seq<string>, q1: seq<string>, q2: seq<string>)
    requires forall t :: t in q1 <==> t in q2
    ensures Score(sentenceTokens, q1) == Score(sentenceTokens, q2)
    decreases |sentenceTokens|
  {
    if sentenceTokens != [] {
      var n := |sentenceTokens| - 1;
      ScoreDependsOnQuerySet(sentenceTokens[..n], q1, q2);
    }
  }

  /** The scores of two token runs add up. */
  lemma {:induction false} ScoreAppend(s1: seq<string>, s2: seq<string>, queryTokens: seq<string>)
    ensures Score(s1 + s2, queryTokens) == Score(s1, queryTokens) + Score(s2, queryTokens)
    decreases |s2|
  {
    if s2 == [] {
      assert s1 + s2 == s1;
    } else {
      var n := |s2| - 1;
      ScoreAppend(s1, s2[..n], queryTokens);
      assert (s1 + s2)[..|s1 + s2| - 1] == s1 + s2[..n];
    }
  }

  /** The score is at most the number of sentence tokens, and is positive exactly when some sentence token occurs in the query. */
  lemma {:induction false} ScoreBounds(sentenceTokens: seq<string>, queryTokens: seq<string>)
    ensures Score(sentenceTokens, queryTokens) <= |sentenceTokens|
    ensures Score(sentenceTokens, queryTokens) >= 1
            <==> exists i :: 0 <= i < |sentenceTokens| && sentenceTokens[i] in queryTokens
    decreases |sentenceTokens|
  {
    if sentenceTokens != [] {
      var n := |sentenceTokens| - 1;
      var init := sentenceTokens[..n];
      ScoreBounds(init, queryTokens);
      if exists i :: 0 <= i < |init| && init[i] in queryTokens {
        var i :| 0 <= i < |init| && init[i] in queryTokens;
        assert sentenceTokens[i] == init[i];
      }
      if exists i :: 0 <= i < |sentenceTokens| && sentenceTokens[i] in queryTokens {
        var i :| 0 <= i < |sentenceTokens| && sentenceTokens[i] in queryTokens;
        if i < n {
          assert init[i] == sentenceTokens[i];
        }
      }
    }
  }

  /** A query without tokens gives every sentence the score 0. */
  lemma {:induction false} ScoreEmptyQuery(sentenceTokens: seq<string>)
    ensures Score(sentenceTokens, []) == 0
    decreases |sentenceTokens|
  {
    if sentenceTokens != [] {
      ScoreEmptyQuery(sentenceTokens[..|sentenceTokens| - 1]);
    }
  }

  /** The score of a sentence against a query. */
  function LineScore(a: Analyzer, sentence: string, queryTokens: seq<string>): nat {
    Score(Tokens(a, sentence), queryTokens)
  }
}
