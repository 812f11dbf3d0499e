/**
 * How the retriever cuts a document into sentences:
 * `pageContent.split(/[\r\n]+/).filter(line => line.trim() !== '')`.
 */
module Lines {

  /** The characters of the class `[\r\n]`. */
  predicate IsTerminator(c: char) {
    c == '\r' || c == '\n'
  }

  predicate HasNoTerminator(s: string) {
    forall i :: 0 <= i < |s| ==> !IsTerminator(s[i])
  }

  /** A non-empty string made of terminators only: one match of `[\r\n]+`. */
  predicate IsTerminatorRun(r: string) {
    |r| > 0 && forall i :: 0 <= i < |r| ==> IsTerminator(r[i])
  }

  /** The index of the first terminator at or after `k`, or `|s|` when there is none. */
  function NextTerminator(s: string, k: nat): (i: nat)
    requires k <= |s|
    ensures k <= i <= |s|
    ensures i < |s| ==> IsTerminator(s[i])
    decreases |s| - k
  {
    if k == |s| || IsTerminator(s[k]) then k else NextTerminator(s, k + 1)
  }

  /** Where the run of terminators starting at `k` ends (the greedy `+`). */
  function RunEnd(s: string, k: nat): (j: nat)
    requires k <= |s|
    ensures k <= j <= |s|
    ensures k < |s| && IsTerminator(s[k]) ==> j > k
    decreases |s| - k
  {
    if k < |s| && IsTerminator(s[k]) then RunEnd(s, k + 1) else k
  }

  /** The pieces of `s[start..]`. */
  function SplitFrom(s: string, start: nat): (pieces: seq<string>)
    requires start <= |s|
    ensures |pieces| >= 1
    decreases |s| - start
  {
    var i := NextTerminator(s, start);
    if i == |s| then [s[start..]]
    else [s[start..i]] + SplitFrom(s, RunEnd(s, i))
  }

  /**
   * `s.split(/[\r\n]+/)`: the pieces between maximal runs of terminators.
   * As in JavaScript, an empty string gives `[""]`, and a leading or
   * trailing run gives an empty first or last piece.
   */
  function Split(s: string): seq<string> {
    SplitFrom(s, 0)
  }

  /** `s` with every terminator removed. */
  function RemoveTerminators(s: string): string {
    if s == [] then []
    else (if IsTerminator(s[0]) then [] else [s[0]]) + RemoveTerminators(s[1..])
  }

  /** The pieces written one after another. */
  function Concat(pieces: seq<string>): string {
    if pieces == [] then [] else pieces[0] + Concat(pieces[1..])
  }

  /** The pieces joined with a single line feed. */
  function JoinLines(pieces: seq<string>): string
    requires |pieces| >= 1
  {
    if |pieces| == 1 then pieces[0] else pieces[0] + "\n" + JoinLines(pieces[1..])
  }

  /**
   * What `Split` can produce: at least one piece, no piece holds a
   * terminator, and only the first and the last piece may be empty.
   */
  predicate WellFormedPieces(pieces: seq<string>) {
    && |pieces| >= 1
    && (forall k :: 0 <= k < |pieces| ==> HasNoTerminator(pieces[k]))
    && (forall k :: 0 < k < |pieces| - 1 ==> pieces[k] != "")
  }

  /** No terminator lies between `k` and the next terminator. */
  lemma {:induction false} NextTerminatorIsNext(s: string, k: nat)
    requires k <= |s|
    ensures forall m :: k <= m < NextTerminator(s, k) ==> !IsTerminator(s[m])
    decreases |s| - k
  {
    if k < |s| && !IsTerminator(s[k]) {
      NextTerminatorIsNext(s, k + 1);
    }
  }

  /** Everything from `k` to the end of the run is a terminator, and the run cannot be extended. */
  lemma {:induction false} RunEndIsRunEnd(s: string, k: nat)
    requires k <= |s|
    ensures forall m :: k <= m < RunEnd(s, k) ==> IsTerminator(s[m])
    ensures RunEnd(s, k) < |s| ==> !IsTerminator(s[RunEnd(s, k)])
    decreases |s| - k
  {
    if k < |s| && IsTerminator(s[k]) {
      RunEndIsRunEnd(s, k + 1);
    }
  }

  /** The first piece after `start` holds no terminator. */
  lemma FirstPieceHasNoTerminator(s: string, start: nat)
    requires start <= |s|
    ensures HasNoTerminator(s[start..NextTerminator(s, start)])
  {
    NextTerminatorIsNext(s, start);
    var i := NextTerminator(s, start);
    forall m | 0 <= m < i - start ensures !IsTerminator(s[start..i][m]) {
      assert s[start..i][m] == s[start + m];
    }
  }

  lemma {:induction false} SplitFromPiecesHaveNoTerminator(s: string, start: nat)
    requires start <= |s|
    ensures forall k :: 0 <= k < |SplitFrom(s, start)| ==> HasNoTerminator(SplitFrom(s, start)[k])
    decreases |s| - start
  {
    var i := NextTerminator(s, start);
    FirstPieceHasNoTerminator(s, start);
    if i < |s| {
      var j := RunEnd(s, i);
      SplitFromPiecesHaveNoTerminator(s, j);
      var ps := SplitFrom(s, start);
      forall k | 0 <= k < |ps| ensures HasNoTerminator(ps[k]) {
        if k > 0 { assert ps[k] == SplitFrom(s, j)[k - 1]; }
      }
    } else {
      assert s[start..] == s[start..i];
    }
  }

  /** A piece that starts right after a run, on a character that is not a terminator, is not empty. */
  lemma {:induction false} SplitFromIsWellFormed(s: string, start: nat)
    requires start <= |s|
    ensures WellFormedPieces(SplitFrom(s, start))
    decreases |s| - start
  {
    SplitFromPiecesHaveNoTerminator(s, start);
    var i := NextTerminator(s, start);
    if i < |s| {
      var j := RunEnd(s, i);
      RunEndIsRunEnd(s, i);
      SplitFromIsWellFormed(s, j);
      var ps := SplitFrom(s, start);
      var tail := SplitFrom(s, j);
      assert ps == [s[start..i]] + tail;
      forall k | 0 < k < |ps| - 1
        ensures ps[k] != ""
      {
        assert ps[k] == tail[k - 1];
        if k == 1 {
          // the run is maximal, so the next piece starts on a character that is not a terminator
          assert j < |s|;
          assert NextTerminator(s, j) > j;
          assert tail[0] == s[j..NextTerminator(s, j)];
        }
      }
    }
  }

  /** Consecutive terminators count as one separator: no interior piece is empty, and none holds a terminator. */
  lemma SplitIsWellFormed(s: string)
    ensures WellFormedPieces(Split(s))
  {
    SplitFromIsWellFormed(s, 0);
  }

  lemma {:induction false} RemoveTerminatorsAppend(a: string, b: string)
    ensures RemoveTerminators(a + b) == RemoveTerminators(a) + RemoveTerminators(b)
    decreases |a|
  {
    if a == [] {
      assert a + b == b;
    } else {
      assert (a + b)[1..] == a[1..] + b;
      RemoveTerminatorsAppend(a[1..], b);
    }
  }

  lemma {:induction false} NoTerminatorUnchanged(s: string)
    requires HasNoTerminator(s)
    ensures RemoveTerminators(s) == s
    decreases |s|
  {
    if s != [] {
      NoTerminatorUnchanged(s[1..]);
    }
  }

  lemma {:induction false} RunRemoved(r: string)
    requires forall i :: 0 <= i < |r| ==> IsTerminator(r[i])
    ensures RemoveTerminators(r) == []
    decreases |r|
  {
    if r != [] {
      RunRemoved(r[1..]);
    }
  }

  /** Removing the terminators of a piece, a run and a rest. */
  lemma RemoveTerminatorsAtRun(s: string, start: nat, i: nat, j: nat)
    requires start <= i <= j <= |s|
    requires HasNoTerminator(s[start..i])
    requires forall m :: i <= m < j ==> IsTerminator(s[m])
    ensures RemoveTerminators(s[start..]) == s[start..i] + RemoveTerminators(s[j..])
  {
    var p, r, rest := s[start..i], s[i..j], s[j..];
    assert s[start..] == p + r + rest;
    RemoveTerminatorsAppend(p + r, rest);
    RemoveTerminatorsAppend(p, r);
    NoTerminatorUnchanged(p);
    forall m | 0 <= m < |r| ensures IsTerminator(r[m]) {
      assert r[m] == s[i + m];
    }
    RunRemoved(r);
  }

  lemma ConcatCons(p: string, pieces: seq<string>)
    ensures Concat([p] + pieces) == p + Concat(pieces)
  {
    assert ([p] + pieces)[1..] == pieces;
  }

  lemma {:induction false} SplitFromKeepsText(s: string, start: nat)
    requires start <= |s|
    ensures Concat(SplitFrom(s, start)) == RemoveTerminators(s[start..])
    decreases |s| - start
  {
    var i := NextTerminator(s, start);
    FirstPieceHasNoTerminator(s, start);
    if i == |s| {
      assert s[start..i] == s[start..];
      NoTerminatorUnchanged(s[start..]);
      assert Concat([s[start..]]) == s[start..] + Concat([]);
    } else {
      var j := RunEnd(s, i);
      RunEndIsRunEnd(s, i);
      SplitFromKeepsText(s, j);
      RemoveTerminatorsAtRun(s, start, i, j);
      ConcatCons(s[start..i], SplitFrom(s, j));
    }
  }

  /** No character other than a terminator is lost, and the pieces keep their order. */
  lemma SplitKeepsText(s: string)
    ensures Concat(Split(s)) == RemoveTerminators(s)
  {
    SplitFromKeepsText(s, 0);
    assert s[0..] == s;
  }

  /** The next terminator after `k + m` in `s` is the one after `m` in the suffix `t = s[k..]`, shifted by `k`. */
  lemma {:induction false} NextTerminatorShift(s: string, k: nat, t: string, m: nat)
    requires k <= |s| && s[k..] == t && m <= |t|
    ensures NextTerminator(s, k + m) == k + NextTerminator(t, m)
    decreases |t| - m
  {
    if m < |t| {
      assert s[k + m] == t[m];
      if !IsTerminator(t[m]) {
        NextTerminatorShift(s, k, t, m + 1);
      }
    }
  }

  lemma {:induction false} RunEndShift(s: string, k: nat, t: string, m: nat)
    requires k <= |s| && s[k..] == t && m <= |t|
    ensures RunEnd(s, k + m) == k + RunEnd(t, m)
    decreases |t| - m
  {
    if m < |t| {
      assert s[k + m] == t[m];
      if IsTerminator(t[m]) {
        RunEndShift(s, k, t, m + 1);
      }
    }
  }

  lemma SliceOfSuffix(s: string, k: nat, t: string, lo: nat, hi: nat)
    requires k <= |s| && s[k..] == t && lo <= hi <= |t|
    ensures s[k + lo..k + hi] == t[lo..hi]
  {
    forall x | 0 <= x < hi - lo
      ensures s[k + lo..k + hi][x] == t[lo..hi][x]
    {
      assert s[k + lo..k + hi][x] == s[k + lo + x];
      assert s[k..][lo + x] == s[k + lo + x];
    }
  }

  /** The split from position `k + m` of `s` depends only on the suffix `s[k..]`. */
  lemma {:induction false} SplitFromShift(s: string, k: nat, t: string, m: nat)
    requires k <= |s| && s[k..] == t && m <= |t|
    ensures SplitFrom(s, k + m) == SplitFrom(t, m)
    decreases |t| - m
  {
    NextTerminatorShift(s, k, t, m);
    var i := NextTerminator(t, m);
    SliceOfSuffix(s, k, t, m, i);
    if i == |t| {
      assert s[k + m..] == s[k + m..k + i];
    } else {
      RunEndShift(s, k, t, i);
      SplitFromShift(s, k, t, RunEnd(t, i));
    }
  }

  /** A run of terminators, however long, separates exactly once. */
  lemma SplitAtRun(p: string, r: string, rest: string)
    requires HasNoTerminator(p)
    requires IsTerminatorRun(r)
    requires rest == [] || !IsTerminator(rest[0])
    ensures Split(p + r + rest) == [p] + Split(rest)
  {
    var s := p + r + rest;
    var n := |p| + |r|;
    assert forall m :: 0 <= m < |p| ==> s[m] == p[m];
    assert forall m :: |p| <= m < n ==> s[m] == r[m - |p|];
    NextTerminatorAtRun(s, 0, |p|);
    RunEndAtRun(s, |p|, n);
    assert s[0..|p|] == p;
    assert s[n..] == rest;
    SplitFromShift(s, n, rest, 0);
  }

  lemma {:induction false} NextTerminatorAtRun(s: string, k: nat, i: nat)
    requires k <= i < |s|
    requires forall m :: k <= m < i ==> !IsTerminator(s[m])
    requires IsTerminator(s[i])
    ensures NextTerminator(s, k) == i
    decreases i - k
  {
    if k < i {
      NextTerminatorAtRun(s, k + 1, i);
    }
  }

  lemma {:induction false} RunEndAtRun(s: string, k: nat, j: nat)
    requires k <= j <= |s|
    requires forall m :: k <= m < j ==> IsTerminator(s[m])
    requires j == |s| || !IsTerminator(s[j])
    ensures RunEnd(s, k) == j
    decreases j - k
  {
    if k < j {
      RunEndAtRun(s, k + 1, j);
    }
  }

  /** Splitting undoes joining with a line feed, for every list `Split` can produce. */
  lemma {:induction false} SplitJoinLines(pieces: seq<string>)
    requires WellFormedPieces(pieces)
    ensures Split(JoinLines(pieces)) == pieces
    decreases |pieces|
  {
    if |pieces| == 1 {
      var s := pieces[0];
      NoTerminatorSplit(s);
    } else {
      var tail := pieces[1..];
      TailIsWellFormed(pieces);
      SplitJoinLines(tail);
      var rest := JoinLines(tail);
      JoinedTailStart(pieces);
      SplitAtRun(pieces[0], "\n", rest);
      assert JoinLines(pieces) == pieces[0] + "\n" + rest;
      assert [pieces[0]] + tail == pieces;
    }
  }

  /** A string without terminators is its own only piece. */
  lemma NoTerminatorSplit(s: string)
    requires HasNoTerminator(s)
    ensures Split(s) == [s]
  {
    assert NextTerminator(s, 0) == |s|;
    assert s[0..] == s;
  }

  lemma TailIsWellFormed(pieces: seq<string>)
    requires WellFormedPieces(pieces) && |pieces| > 1
    ensures WellFormedPieces(pieces[1..])
  {
    var tail := pieces[1..];
    forall k | 0 <= k < |tail| ensures HasNoTerminator(tail[k]) {
      assert tail[k] == pieces[k + 1];
    }
    forall k | 0 < k < |tail| - 1 ensures tail[k] != "" {
      assert tail[k] == pieces[k + 1];
    }
  }

  /** What follows the first separator of a joined text does not start with a terminator. */
  lemma JoinedTailStart(pieces: seq<string>)
    requires WellFormedPieces(pieces) && |pieces| > 1
    ensures var rest := JoinLines(pieces[1..]); rest == [] || !IsTerminator(rest[0])
  {
    var tail := pieces[1..];
    assert tail[0] == pieces[1];
    if tail[0] != "" {
      JoinLinesStart(tail);
      assert HasNoTerminator(tail[0]);
    } else {
      assert |tail| == 1;
    }
  }

  /** A joined text whose first piece is not empty starts with that piece's first character. */
  lemma JoinLinesStart(pieces: seq<string>)
    requires |pieces| >= 1 && pieces[0] != ""
    ensures JoinLines(pieces) != [] && JoinLines(pieces)[0] == pieces[0][0]
  {
  }

  // ---------------------- trim() and the blank-line filter ----------------------

  /**
   * The characters `String.prototype.trim` removes: ECMAScript's WhiteSpace
   * (tab, vertical tab, form feed, no-break space, the byte order mark and
   * every space separator) and its LineTerminators.
   */
  predicate IsWhiteSpace(c: char) {
    || c == '\t' || c == '\n' || c == '\U{000B}' || c == '\U{000C}' || c == '\r'
    || c == ' ' || c == '\U{00A0}' || c == '\U{1680}'
    || ('\U{2000}' <= c <= '\U{200A}')
    || c == '\U{2028}' || c == '\U{2029}' || c == '\U{202F}' || c == '\U{205F}'
    || c == '\U{3000}' || c == '\U{FEFF}'
  }

  predicate IsBlank(s: string) {
    forall i :: 0 <= i < |s| ==> IsWhiteSpace(s[i])
  }

  function TrimStart(s: string): string {
    if s != [] && IsWhiteSpace(s[0]) then TrimStart(s[1..]) else s
  }

  function TrimEnd(s: string): string {
    if s != [] && IsWhiteSpace(s[|s| - 1]) then TrimEnd(s[..|s| - 1]) else s
  }

  /** `s.trim()` */
  function Trim(s: string): string {
    TrimEnd(TrimStart(s))
  }

  lemma {:induction false} TrimStartEmptyIffBlank(s: string)
    ensures TrimStart(s) == [] <==> IsBlank(s)
    ensures TrimStart(s) != [] ==> !IsWhiteSpace(TrimStart(s)[0])
    decreases |s|
  {
    if s != [] && IsWhiteSpace(s[0]) {
      TrimStartEmptyIffBlank(s[1..]);
      assert IsBlank(s) <==> IsBlank(s[1..]) by {
        if IsBlank(s[1..]) {
          forall i | 0 <= i < |s| ensures IsWhiteSpace(s[i]) {
            if i > 0 { assert s[i] == s[1..][i - 1]; }
          }
        }
      }
    }
  }

  lemma {:induction false} TrimEndKeepsNonWhiteStart(s: string)
    requires s != [] && !IsWhiteSpace(s[0])
    ensures TrimEnd(s) != []
    decreases |s|
  {
    if IsWhiteSpace(s[|s| - 1]) {
      TrimEndKeepsNonWhiteStart(s[..|s| - 1]);
    }
  }

  /** `line.trim() !== ''` holds exactly of the lines that are not whitespace-only. */
  lemma TrimEmptyIffBlank(s: string)
    ensures Trim(s) == "" <==> IsBlank(s)
  {
    TrimStartEmptyIffBlank(s);
    if TrimStart(s) != [] {
      TrimEndKeepsNonWhiteStart(TrimStart(s));
    }
  }

  /** `lines.filter(line => line.trim() !== '')` */
  function KeepNonBlank(lines: seq<string>): seq<string> {
    if lines == [] then []
    else (if Trim(lines[0]) != "" then [lines[0]] else []) + KeepNonBlank(lines[1..])
  }

  /** The filter keeps exactly the lines that are not whitespace-only. */
  lemma {:induction false} KeepNonBlankMembers(lines: seq<string>)
    ensures forall l :: l in KeepNonBlank(lines) <==> l in lines && !IsBlank(l)
    decreases |lines|
  {
    if lines != [] {
      KeepNonBlankMembers(lines[1..]);
      TrimEmptyIffBlank(lines[0]);
      assert lines == [lines[0]] + lines[1..];
    }
  }

  /** The filter keeps the order: filtering a concatenation filters each part. */
  lemma {:induction false} KeepNonBlankAppend(a: seq<string>, b: seq<string>)
    ensures KeepNonBlank(a + b) == KeepNonBlank(a) + KeepNonBlank(b)
    decreases |a|
  {
    if a == [] {
      assert a + b == b;
    } else {
      assert (a + b)[1..] == a[1..] + b;
      KeepNonBlankAppend(a[1..], b);
    }
  }

  /** The sentences of one document's content. */
  function Sentences(content: string): seq<string> {
    KeepNonBlank(Split(content))
  }

  /**
   * Every sentence is a piece of the split, holds no terminator and is not
   * whitespace-only (so in particular is not empty); every such piece is a sentence.
   */
  lemma SentencesAreCleanLines(content: string)
    ensures forall l :: l in Sentences(content) <==> l in Split(content) && !IsBlank(l)
    ensures forall l :: l in Sentences(content) ==> HasNoTerminator(l) && l != ""
  {
    KeepNonBlankMembers(Split(content));
    SplitIsWellFormed(content);
  }

  /**
   * A line followed by a run of terminators contributes that line, unless it
   * is blank, ahead of the sentences of the rest of the content.
   */
  lemma SentencesAtRun(p: string, r: string, rest: string)
    requires HasNoTerminator(p)
    requires IsTerminatorRun(r)
    requires rest == [] || !IsTerminator(rest[0])
    ensures Sentences(p + r + rest) == (if IsBlank(p) then [] else [p]) + Sentences(rest)
  {
    SplitAtRun(p, r, rest);
    KeepNonBlankAppend([p], Split(rest));
    TrimEmptyIffBlank(p);
    assert KeepNonBlank([p]) == (if Trim(p) != "" then [p] else []) + KeepNonBlank([]);
  }
}
