/**
 * `retrieveData(query, documents)`: a keyword-overlap scan over every
 * sentence of every document. It returns the earliest sentence with the
 * highest score, provided that score is at least 1: the running maximum
 * starts at 0 and only a strictly higher score replaces it.
 */
module Retriever {
  import opened Wrappers
  import opened Lines
  import opened Scoring

  /** A loaded document; `pageContent` is `None` when the field is null or undefined. */
  datatype Document = Document(pageContent: Option<string>)

  /** What `retrieveData` returns when no sentence shares a token with the query. */
  const NoMatch := "No relevant information found."

  /** `!document || !document.pageContent`: a missing entry, a missing content or an empty content. */
  predicate Skipped(d: Option<Document>) {
    d.None? || d.value.pageContent.None? || d.value.pageContent.value == ""
  }

  /** The sentences the scan visits in one entry of the document list. */
  function DocSentences(d: Option<Document>): seq<string> {
    if Skipped(d) then [] else Sentences(d.value.pageContent.value)
  }

  /** A skipped entry has no sentences; any other has those of its content. */
  lemma DocSentencesOfPresent(d: Option<Document>, l: string)
    ensures l in DocSentences(d) <==> !Skipped(d) && l in Sentences(d.value.pageContent.value)
  {
  }

  /** The lists `f(d)` of the entries `d` of `docs`, concatenated in order. */
  function Gather<D>(docs: seq<D>, f: D -> seq<string>): seq<string> {
    if docs == [] then []
    else Gather(docs[..|docs| - 1], f) + f(docs[|docs| - 1])
  }

  /** Every sentence the scan visits, in document order and then line order. */
  function Candidates(docs: seq<Option<Document>>): seq<string> {
    Gather(docs, DocSentences)
  }

  /** The two locals `bestMatch` and `highestScore` of the scan. */
  datatype Best = Best(bestMatch: Option<string>, highestScore: nat)

  /** The scan's state after visiting `lines`, from `bestMatch = null` and `highestScore = 0`. */
  function ScanLines(a: Analyzer, lines: seq<string>, queryTokens: seq<string>): Best {
    if lines == [] then Best(None, 0)
    else
      var b := ScanLines(a, lines[..|lines| - 1], queryTokens);
      var sentence := lines[|lines| - 1];
      var score := LineScore(a, sentence, queryTokens);
      if score > b.highestScore then Best(Some(sentence), score) else b
  }

  /** `bestMatch || "No relevant information found."`: null and the empty string are falsy. */
  function OrNoMatch(bestMatch: Option<string>): string {
    if bestMatch.Some? && bestMatch.value != "" then bestMatch.value else NoMatch
  }

  /** What `retrieveData(query, documents)` resolves to. */
  function Retrieve(a: Analyzer, query: string, docs: seq<Option<Document>>): string {
    OrNoMatch(ScanLines(a, Candidates(docs), Tokens(a, query)).bestMatch)
  }

  /**
   * Line `k` is the one the scan keeps: it scores at least 1, no line scores
   * more, and every line before it scores strictly less.
   */
  predicate IsFirstBest(a: Analyzer, lines: seq<string>, queryTokens: seq<string>, k: int) {
    && 0 <= k < |lines|
    && LineScore(a, lines[k], queryTokens) >= 1
    && (forall j :: 0 <= j < |lines| ==> LineScore(a, lines[j], queryTokens) <= LineScore(a, lines[k], queryTokens))
    && (forall j :: 0 <= j < k ==> LineScore(a, lines[j], queryTokens) < LineScore(a, lines[k], queryTokens))
  }

  /**
   * The scan keeps the highest score of all lines (0 when there are none), it
   * has kept a line exactly when that score is positive, and the line it kept
   * is the first one that reaches the score.
   */
  lemma {:induction false} ScanLinesKeepsFirstBest(a: Analyzer, lines: seq<string>, queryTokens: seq<string>)
    ensures var b := ScanLines(a, lines, queryTokens);
      && (b.bestMatch.None? <==> b.highestScore == 0)
      && (forall j :: 0 <= j < |lines| ==> LineScore(a, lines[j], queryTokens) <= b.highestScore)
      && (b.bestMatch.Some? ==>
            exists k :: IsFirstBest(a, lines, queryTokens, k) && lines[k] == b.bestMatch.value
                        && LineScore(a, lines[k], queryTokens) == b.highestScore)
    decreases |lines|
  {
    if lines != [] {
      var n := |lines| - 1;
      var init := lines[..n];
      ScanLinesKeepsFirstBest(a, init, queryTokens);
      var prev := ScanLines(a, init, queryTokens);
      var score := LineScore(a, lines[n], queryTokens);
      assert forall j :: 0 <= j < n ==> lines[j] == init[j];
      if score > prev.highestScore {
        NewBestIsFirstBest(a, lines, queryTokens, prev.highestScore);
      } else if prev.bestMatch.Some? {
        var k :| IsFirstBest(a, init, queryTokens, k) && init[k] == prev.bestMatch.value
                 && LineScore(a, init[k], queryTokens) == prev.highestScore;
        OldBestStaysFirstBest(a, lines, queryTokens, k);
      }
    }
  }

  /** A last line that strictly beats every earlier one is the first best. */
  lemma NewBestIsFirstBest(a: Analyzer, lines: seq<string>, queryTokens: seq<string>, highest: nat)
    requires |lines| >= 1
    requires forall j :: 0 <= j < |lines| - 1 ==> LineScore(a, lines[j], queryTokens) <= highest
    requires LineScore(a, lines[|lines| - 1], queryTokens) > highest
    ensures IsFirstBest(a, lines, queryTokens, |lines| - 1)
  {
  }

  /** The first best of the earlier lines stays first best when the last line does not beat it. */
  lemma OldBestStaysFirstBest(a: Analyzer, lines: seq<string>, queryTokens: seq<string>, k: int)
    requires |lines| >= 1
    requires IsFirstBest(a, lines[..|lines| - 1], queryTokens, k)
    requires LineScore(a, lines[|lines| - 1], queryTokens) <= LineScore(a, lines[k], queryTokens)
    ensures IsFirstBest(a, lines, queryTokens, k)
  {
    var init := lines[..|lines| - 1];
    assert forall j :: 0 <= j < |init| ==> lines[j] == init[j];
  }

  /** At most one line is the first best. */
  lemma FirstBestIsUnique(a: Analyzer, lines: seq<string>, queryTokens: seq<string>, k1: int, k2: int)
    requires IsFirstBest(a, lines, queryTokens, k1) && IsFirstBest(a, lines, queryTokens, k2)
    ensures k1 == k2
  {
  }

  /** A line the scan keeps is one of the scanned lines. */
  lemma {:induction false} ScanLinesKeepsALine(a: Analyzer, lines: seq<string>, queryTokens: seq<string>)
    ensures var b := ScanLines(a, lines, queryTokens);
      b.bestMatch.Some? ==> b.bestMatch.value in lines
    decreases |lines|
  {
    if lines != [] {
      ScanLinesKeepsALine(a, lines[..|lines| - 1], queryTokens);
    }
  }

  /** `l` is a sentence of entry `i`; that entry is then not skipped (see `DocSentencesOfPresent`). */
  predicate SentenceOf(docs: seq<Option<Document>>, i: int, l: string) {
    0 <= i < |docs| && l in DocSentences(docs[i])
  }

  /** The candidates are exactly the sentences of the entries that are not skipped. */
  lemma CandidatesMembers(docs: seq<Option<Document>>)
    ensures forall l :: l in Candidates(docs) <==> exists i :: SentenceOf(docs, i, l)
  {
    forall l ensures l in Candidates(docs) <==> exists i :: SentenceOf(docs, i, l) {
      GatherMember(docs, DocSentences, l);
      if l in Candidates(docs) {
        var i :| 0 <= i < |docs| && l in DocSentences(docs[i]);
        assert SentenceOf(docs, i, l);
      }
    }
  }

  /** A string is gathered exactly when it is in the list of some entry. */
  lemma GatherMember<D>(docs: seq<D>, f: D -> seq<string>, l: string)
    ensures l in Gather(docs, f) <==> exists i :: 0 <= i < |docs| && l in f(docs[i])
  {
    if l in Gather(docs, f) {
      GatheredComesFromEntry(docs, f, l);
    }
    if exists i :: 0 <= i < |docs| && l in f(docs[i]) {
      var i :| 0 <= i < |docs| && l in f(docs[i]);
      EntryIsGathered(docs, f, i, l);
    }
  }

  lemma {:induction false} GatheredComesFromEntry<D>(docs: seq<D>, f: D -> seq<string>, l: string)
    requires l in Gather(docs, f)
    ensures exists i :: 0 <= i < |docs| && l in f(docs[i])
    decreases |docs|
  {
    var n := |docs| - 1;
    var init := docs[..n];
    assert Gather(docs, f) == Gather(init, f) + f(docs[n]);
    if l in Gather(init, f) {
      GatheredComesFromEntry(init, f, l);
      var i :| 0 <= i < |init| && l in f(init[i]);
      assert docs[i] == init[i];
    } else {
      assert l in f(docs[n]);
    }
  }

  lemma {:induction false} EntryIsGathered<D>(docs: seq<D>, f: D -> seq<string>, i: int, l: string)
    requires 0 <= i < |docs| && l in f(docs[i])
    ensures l in Gather(docs, f)
    decreases |docs|
  {
    var n := |docs| - 1;
    var init := docs[..n];
    assert Gather(docs, f) == Gather(init, f) + f(docs[n]);
    if i < n {
      assert init[i] == docs[i];
      EntryIsGathered(init, f, i, l);
    }
  }

  /** Every candidate sentence is a non-blank line without terminators, so never empty. */
  lemma CandidatesAreCleanLines(docs: seq<Option<Document>>)
    ensures forall l :: l in Candidates(docs) ==> HasNoTerminator(l) && !IsBlank(l) && l != ""
  {
    forall l | l in Candidates(docs) ensures HasNoTerminator(l) && !IsBlank(l) && l != "" {
      GatherMember(docs, DocSentences, l);
      var i :| 0 <= i < |docs| && l in DocSentences(docs[i]);
      DocSentencesOfPresent(docs[i], l);
      SentencesAreCleanLines(docs[i].value.pageContent.value);
    }
  }

  /**
   * The result is either the fallback sentence or a non-blank line of a
   * document whose content is present and not empty; it is never empty.
   */
  lemma RetrieveIsNoMatchOrSentence(a: Analyzer, query: string, docs: seq<Option<Document>>)
    ensures var r := Retrieve(a, query, docs);
      && r != ""
      && (r == NoMatch || exists i :: SentenceOf(docs, i, r))
  {
    var lines := Candidates(docs);
    ScanLinesKeepsALine(a, lines, Tokens(a, query));
    CandidatesMembers(docs);
  }

  /**
   * When some sentence shares a token with the query, the result is the
   * first sentence, in document order and then line order, whose score is
   * the highest of all.
   */
  lemma RetrieveFindsFirstBest(a: Analyzer, query: string, docs: seq<Option<Document>>)
    requires exists j :: 0 <= j < |Candidates(docs)| && LineScore(a, Candidates(docs)[j], Tokens(a, query)) >= 1
    ensures exists k :: IsFirstBest(a, Candidates(docs), Tokens(a, query), k)
                        && Retrieve(a, query, docs) == Candidates(docs)[k]
  {
    var lines := Candidates(docs);
    var qt := Tokens(a, query);
    ScanLinesKeepsFirstBest(a, lines, qt);
    CandidatesAreCleanLines(docs);
    var b := ScanLines(a, lines, qt);
    assert b.bestMatch.Some?;
    var k :| IsFirstBest(a, lines, qt, k) && lines[k] == b.bestMatch.value;
    assert lines[k] in lines;
  }

  /** When no sentence shares a token with the query, the result is the fallback sentence. */
  lemma RetrieveNoOverlap(a: Analyzer, query: string, docs: seq<Option<Document>>)
    requires forall j :: 0 <= j < |Candidates(docs)| ==> LineScore(a, Candidates(docs)[j], Tokens(a, query)) == 0
    ensures Retrieve(a, query, docs) == NoMatch
  {
    ScanLinesKeepsFirstBest(a, Candidates(docs), Tokens(a, query));
  }

  /** A query without tokens, and an empty document list, both give the fallback sentence. */
  lemma RetrieveDegenerateInputs(a: Analyzer, query: string, docs: seq<Option<Document>>)
    ensures Tokens(a, query) == [] ==> Retrieve(a, query, docs) == NoMatch
    ensures Retrieve(a, query, []) == NoMatch
  {
    if Tokens(a, query) == [] {
      forall j | 0 <= j < |Candidates(docs)|
        ensures LineScore(a, Candidates(docs)[j], Tokens(a, query)) == 0
      {
        ScoreEmptyQuery(Tokens(a, Candidates(docs)[j]));
      }
      RetrieveNoOverlap(a, query, docs);
    }
  }

  /** The entries of `docs` for which `keep` holds, in order. */
  function Keep<D(!new)>(docs: seq<D>, keep: D -> bool): (kept: seq<D>)
    ensures forall i :: 0 <= i < |kept| ==> keep(kept[i])
  {
    if docs == [] then []
    else Keep(docs[..|docs| - 1], keep) + (if keep(docs[|docs| - 1]) then [docs[|docs| - 1]] else [])
  }

  /** An entry is kept exactly when it is one of the entries and `keep` holds of it. */
  lemma {:induction false} KeepMembers<D(!new)>(docs: seq<D>, keep: D -> bool)
    ensures forall d :: d in Keep(docs, keep) <==> d in docs && keep(d)
    decreases |docs|
  {
    if docs != [] {
      var n := |docs| - 1;
      KeepMembers(docs[..n], keep);
      assert docs == docs[..n] + [docs[n]];
    }
  }

  /** Keeping preserves the order: keeping from a concatenation keeps from each part. */
  lemma {:induction false} KeepAppend<D(!new)>(xs: seq<D>, ys: seq<D>, keep: D -> bool)
    ensures Keep(xs + ys, keep) == Keep(xs, keep) + Keep(ys, keep)
    decreases |ys|
  {
    if ys == [] {
      assert xs + ys == xs;
    } else {
      var n := |ys| - 1;
      KeepAppend(xs, ys[..n], keep);
      assert (xs + ys)[..|xs + ys| - 1] == xs + ys[..n];
      assert (xs + ys)[|xs + ys| - 1] == ys[n];
    }
  }

  predicate IsPresent(d: Option<Document>) {
    !Skipped(d)
  }

  /** The entries of `docs` that the scan does not skip, in order. */
  function Present(docs: seq<Option<Document>>): (kept: seq<Option<Document>>)
    ensures forall i :: 0 <= i < |kept| ==> !Skipped(kept[i])
    ensures forall d :: d in kept <==> d in docs && !Skipped(d)
  {
    KeepMembers(docs, IsPresent);
    Keep(docs, IsPresent)
  }

  /**
   * The guard keeps the order of the document list: the entries that pass
   * it in a concatenation are those of the first part, then those of the second.
   */
  lemma PresentKeepsOrder(xs: seq<Option<Document>>, ys: seq<Option<Document>>)
    ensures Present(xs + ys) == Present(xs) + Present(ys)
  {
    KeepAppend(xs, ys, IsPresent);
  }

  /** A single entry passes the guard exactly when it is not skipped. */
  lemma PresentSingle(d: Option<Document>)
    ensures Present([d]) == if Skipped(d) then [] else [d]
  {
    var one := [d];
    assert one[..|one| - 1] == [];
    assert one[|one| - 1] == d;
    assert Keep(one, IsPresent) == Keep([], IsPresent) + (if IsPresent(d) then [d] else []);
  }

  /** Entries whose lists are all empty gather nothing. */
  lemma {:induction false} GatherOfEmptyLists<D>(docs: seq<D>, f: D -> seq<string>)
    requires forall i :: 0 <= i < |docs| ==> f(docs[i]) == []
    ensures Gather(docs, f) == []
    decreases |docs|
  {
    if docs != [] {
      var n := |docs| - 1;
      var init := docs[..n];
      assert forall i :: 0 <= i < |init| ==> init[i] == docs[i];
      GatherOfEmptyLists(init, f);
    }
  }

  /** Appending one entry appends its list. */
  lemma GatherSnoc<D>(docs: seq<D>, d: D, f: D -> seq<string>)
    ensures Gather(docs + [d], f) == Gather(docs, f) + f(d)
  {
    var all := docs + [d];
    assert all[..|all| - 1] == docs;
    assert all[|all| - 1] == d;
  }

  /** Dropping entries whose lists are empty leaves the gathered strings as they are. */
  lemma {:induction false} KeepKeepsGather<D(!new)>(docs: seq<D>, keep: D -> bool, f: D -> seq<string>)
    requires forall d :: !keep(d) ==> f(d) == []
    ensures Gather(Keep(docs, keep), f) == Gather(docs, f)
    decreases |docs|
  {
    if docs != [] {
      var n := |docs| - 1;
      var init := docs[..n];
      KeepKeepsGather(init, keep, f);
      assert Gather(docs, f) == Gather(init, f) + f(docs[n]);
      if keep(docs[n]) {
        assert Keep(docs, keep) == Keep(init, keep) + [docs[n]];
        GatherSnoc(Keep(init, keep), docs[n], f);
      } else {
        assert Keep(docs, keep) == Keep(init, keep);
        assert Gather(docs, f) == Gather(init, f) + [];
      }
    }
  }

  /** Missing documents and documents without content do not affect the result. */
  lemma SkippedDocumentsIrrelevant(a: Analyzer, query: string, docs: seq<Option<Document>>)
    ensures Retrieve(a, query, Present(docs)) == Retrieve(a, query, docs)
  {
    KeepKeepsGather(docs, IsPresent, DocSentences);
  }

  /** One more entry adds its list at the end. */
  lemma GatherStep<D>(docs: seq<D>, i: nat, f: D -> seq<string>)
    requires i < |docs|
    ensures Gather(docs[..i + 1], f) == Gather(docs[..i], f) + f(docs[i])
  {
    var d := docs[..i + 1];
    assert d[..|d| - 1] == docs[..i];
    assert d[|d| - 1] == docs[i];
  }

  /** One more sentence is one more step of the scan. */
  lemma ScanLinesStep(a: Analyzer, done: seq<string>, sentences: seq<string>, j: nat, queryTokens: seq<string>)
    requires j < |sentences|
    ensures var b := ScanLines(a, done + sentences[..j], queryTokens);
      var score := LineScore(a, sentences[j], queryTokens);
      ScanLines(a, done + sentences[..j + 1], queryTokens)
        == if score > b.highestScore then Best(Some(sentences[j]), score) else b
  {
    var l := done + sentences[..j + 1];
    assert l[..|l| - 1] == done + sentences[..j];
    assert l[|l| - 1] == sentences[j];
  }

  /**
   * The inner loop of `retrieveData` over the sentences of one document:
   * continuing the scan from its state after `done`, it reaches the state
   * after `done` followed by `sentences`.
   */
  method ScanSentences(a: Analyzer, sentences: seq<string>, queryTokens: seq<string>,
                       bestMatch0: Option<string>, highestScore0: nat, ghost done: seq<string>)
    returns (bestMatch: Option<string>, highestScore: nat)
    requires Best(bestMatch0, highestScore0) == ScanLines(a, done, queryTokens)
    ensures Best(bestMatch, highestScore) == ScanLines(a, done + sentences, queryTokens)
  {
    bestMatch, highestScore := bestMatch0, highestScore0;
    var j := 0;
    assert done + sentences[..0] == done;
    while j < |sentences|
      invariant 0 <= j <= |sentences|
      invariant Best(bestMatch, highestScore) == ScanLines(a, done + sentences[..j], queryTokens)
    {
      var sentence := sentences[j];
      var score := Score(Tokens(a, sentence), queryTokens);
      ScanLinesStep(a, done, sentences, j, queryTokens);
      if score > highestScore {
        highestScore := score;
        bestMatch := Some(sentence);
      }
      j := j + 1;
    }
    assert sentences[..j] == sentences;
  }

  /**
   * `retrieveData` itself: tokenize the query once, then walk the documents
   * and their sentences. A sentence replaces the kept one only when its
   * score is strictly higher than the running maximum, which starts at 0.
   */
  method RetrieveData(a: Analyzer, query: string, documents: seq<Option<Document>>) returns (result: string)
    ensures result == Retrieve(a, query, documents)
    ensures result != ""
  {
    var queryTokens := Tokens(a, query);
    var bestMatch: Option<string> := None;
    var highestScore: nat := 0;
    var i := 0;
    while i < |documents|
      invariant 0 <= i <= |documents|
      invariant Best(bestMatch, highestScore) == ScanLines(a, Candidates(documents[..i]), queryTokens)
    {
      var document := documents[i];
      GatherStep(documents, i, DocSentences);
      if !Skipped(document) {
        var sentences := Sentences(document.value.pageContent.value);
        bestMatch, highestScore := ScanSentences(a, sentences, queryTokens, bestMatch, highestScore, Candidates(documents[..i]));
      } else {
        assert Candidates(documents[..i]) + [] == Candidates(documents[..i]);
      }
      i := i + 1;
    }
    assert documents[..i] == documents;
    result := if bestMatch.Some? && bestMatch.value != "" then bestMatch.value else NoMatch;
    RetrieveIsNoMatchOrSentence(a, query, documents);
  }
}
