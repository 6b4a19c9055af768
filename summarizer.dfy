/** The extractive summariser of rag_agent/memory/summarizer.py. */
module Summarizer {
  import opened Strings

  predicate IsTerminator(c: char) {
    c == '.' || c == '!' || c == '?'
  }

  /** Where the run of whitespace starting at `i` ends: the greedy `\s+`. */
  function SpaceRunEnd(s: string, i: nat): (e: nat)
    requires i < |s| && IsSpace(s[i])
    ensures i < e <= |s|
    ensures forall m :: i <= m < e ==> IsSpace(s[m])
    ensures e == |s| || !IsSpace(s[e])
    decreases |s| - i
  {
    if i + 1 < |s| && IsSpace(s[i + 1]) then SpaceRunEnd(s, i + 1) else i + 1
  }

  /** A match of `(?<=[.!?])\s+` starts at position `i`. */
  predicate SplitsAt(s: string, i: nat)
    requires i < |s|
  {
    i > 0 && IsTerminator(s[i - 1]) && IsSpace(s[i])
  }

  /** `re.split(r"(?<=[.!?])\s+", s)` once the scan has reached position `i` of the
      piece that began at `start`. */
  function SplitFrom(s: string, start: nat, i: nat): (pieces: seq<string>)
    requires start <= i <= |s|
    ensures |pieces| >= 1
    decreases |s| - i
  {
    if i == |s| then [s[start..]]
    else if SplitsAt(s, i) then
      var e := SpaceRunEnd(s, i);
      [s[start..i]] + SplitFrom(s, e, e)
    else SplitFrom(s, start, i + 1)
  }

  /** The separators that split removed, in order. */
  function SeparatorsFrom(s: string, start: nat, i: nat): seq<string>
    requires start <= i <= |s|
    decreases |s| - i
  {
    if i == |s| then []
    else if SplitsAt(s, i) then
      var e := SpaceRunEnd(s, i);
      [s[i..e]] + SeparatorsFrom(s, e, e)
    else SeparatorsFrom(s, start, i + 1)
  }

  function Sentences(s: string): seq<string> {
    SplitFrom(s, 0, 0)
  }

  /** `summarize(text, max_sentences)`: the first `max_sentences` pieces of the
      stripped text (a Python slice, so a negative count drops pieces from the
      end), joined by single spaces. */
  function Summarize(text: string, maxSentences: int): string {
    Join(" ", SliceTo(Sentences(Strip(text)), maxSentences))
  }

  // ----------------------------------------------------------- properties

  /** Putting each separator back between its neighbours gives back the text. */
  function Weave(pieces: seq<string>, separators: seq<string>): string
    requires |pieces| == |separators| + 1
  {
    if separators == [] then pieces[0]
    else pieces[0] + separators[0] + Weave(pieces[1..], separators[1..])
  }

  lemma {:induction false} SplitCounts(s: string, start: nat, i: nat)
    requires start <= i <= |s|
    ensures |SplitFrom(s, start, i)| == |SeparatorsFrom(s, start, i)| + 1
    decreases |s| - i
  {
    if i < |s| {
      if SplitsAt(s, i) {
        SplitCounts(s, SpaceRunEnd(s, i), SpaceRunEnd(s, i));
      } else {
        SplitCounts(s, start, i + 1);
      }
    }
  }

  /** Splitting loses nothing: the pieces and the removed separators interleave to
      the text. */
  lemma {:induction false} SplitRoundTrip(s: string, start: nat, i: nat)
    requires start <= i <= |s|
    ensures |SplitFrom(s, start, i)| == |SeparatorsFrom(s, start, i)| + 1
    ensures Weave(SplitFrom(s, start, i), SeparatorsFrom(s, start, i)) == s[start..]
    decreases |s| - i
  {
    SplitCounts(s, start, i);
    if i < |s| {
      if SplitsAt(s, i) {
        var e := SpaceRunEnd(s, i);
        SplitRoundTrip(s, e, e);
        var pieces, seps := SplitFrom(s, e, e), SeparatorsFrom(s, e, e);
        var all, allSeps := [s[start..i]] + pieces, [s[i..e]] + seps;
        assert all[1..] == pieces && allSeps[1..] == seps;
        assert Weave(all, allSeps) == s[start..i] + s[i..e] + Weave(pieces, seps);
        assert s[start..] == s[start..i] + s[i..e] + s[e..];
      } else {
        SplitRoundTrip(s, start, i + 1);
      }
    }
  }

  /** Separator `k` is a non-empty whitespace run and piece `k` before it ends
      with a sentence terminator. */
  predicate BoundaryAt(pieces: seq<string>, seps: seq<string>, k: nat)
    requires k < |pieces| && k < |seps|
  {
    seps[k] != [] && IsBlank(seps[k]) && IsTerminator(Last(pieces[k]))
  }

  /** Every separator of the split from `start` follows a terminated piece. */
  predicate Boundaries(s: string, start: nat, i: nat)
    requires start <= i <= |s|
  {
    forall k :: 0 <= k < |SeparatorsFrom(s, start, i)| && k < |SplitFrom(s, start, i)| ==>
      BoundaryAt(SplitFrom(s, start, i), SeparatorsFrom(s, start, i), k)
  }

  lemma {:induction false} SeparatorsFollowTerminators(s: string, start: nat, i: nat)
    requires start <= i <= |s|
    requires start < i || start == 0 || IsSpace(s[start - 1])
    ensures Boundaries(s, start, i)
    decreases |s| - i
  {
    if i < |s| {
      if SplitsAt(s, i) {
        var e := SpaceRunEnd(s, i);
        SeparatorsFollowTerminators(s, e, e);
        BoundaryStep(s, start, i);
      } else {
        SeparatorsFollowTerminators(s, start, i + 1);
        assert SplitFrom(s, start, i) == SplitFrom(s, start, i + 1);
        assert SeparatorsFrom(s, start, i) == SeparatorsFrom(s, start, i + 1);
      }
    }
  }

  /** A split at `i` puts a terminated piece and a whitespace run in front. */
  lemma BoundaryStep(s: string, start: nat, i: nat)
    requires start <= i < |s| && SplitsAt(s, i)
    requires start < i || start == 0 || IsSpace(s[start - 1])
    requires Boundaries(s, SpaceRunEnd(s, i), SpaceRunEnd(s, i))
    ensures Boundaries(s, start, i)
  {
    var e := SpaceRunEnd(s, i);
    var pieces, seps := SplitFrom(s, e, e), SeparatorsFrom(s, e, e);
    var all, allSeps := [s[start..i]] + pieces, [s[i..e]] + seps;
    assert SplitFrom(s, start, i) == all;
    assert SeparatorsFrom(s, start, i) == allSeps;
    assert i > start;
    assert Last(s[start..i]) == s[i - 1];
    assert BoundaryAt(all, allSeps, 0);
    forall k | 1 <= k < |allSeps| && k < |all|
      ensures BoundaryAt(all, allSeps, k)
    {
      assert all[k] == pieces[k - 1] && allSeps[k] == seps[k - 1];
      assert BoundaryAt(pieces, seps, k - 1);
    }
  }

  function Last(s: string): char {
    if s == [] then ' ' else s[|s| - 1]
  }

  lemma {:induction false} NoBoundaryOnePiece(s: string, start: nat, i: nat)
    requires start <= i <= |s|
    requires forall m :: i <= m < |s| ==> !SplitsAt(s, m)
    ensures SplitFrom(s, start, i) == [s[start..]]
    decreases |s| - i
  {
    if i < |s| {
      NoBoundaryOnePiece(s, start, i + 1);
    }
  }

  /** Without a `.`, `!` or `?` followed by whitespace, the summary is the whole
      stripped text. */
  lemma NoBoundaryKeepsText(text: string, maxSentences: int)
    requires maxSentences >= 1
    requires forall m :: 0 <= m < |Strip(text)| ==> !SplitsAt(Strip(text), m)
    ensures Summarize(text, maxSentences) == Strip(text)
  {
    NoBoundaryOnePiece(Strip(text), 0, 0);
    assert Strip(text)[0..] == Strip(text);
  }

  /** A summary of zero sentences is empty. (A negative count is a Python slice
      from the end, so it need not be.) */
  lemma NoSentencesNoSummary(text: string, maxSentences: int)
    requires maxSentences == 0
    ensures Summarize(text, maxSentences) == ""
  {
  }

  /** Somewhere inside `p` a `.`, `!` or `?` is directly followed by whitespace:
      a place where `re.split` would have cut. */
  predicate HasBoundary(p: string) {
    exists m :: 0 < m < |p| && IsTerminator(p[m - 1]) && IsSpace(p[m])
  }

  /** The split misses no boundary: once the scan has passed every position after
      `start` without a split, no piece it returns has a boundary inside it. */
  lemma {:induction false} PiecesHaveNoBoundary(s: string, start: nat, i: nat)
    requires start <= i <= |s|
    requires forall m :: start < m < i ==> !SplitsAt(s, m)
    ensures forall p :: p in SplitFrom(s, start, i) ==> !HasBoundary(p)
    decreases |s| - i
  {
    if i == |s| {
      NoBoundaryInside(s, start, |s|);
    } else if SplitsAt(s, i) {
      var e := SpaceRunEnd(s, i);
      PiecesHaveNoBoundary(s, e, e);
      NoBoundaryInside(s, start, i);
      assert SplitFrom(s, start, i) == [s[start..i]] + SplitFrom(s, e, e);
    } else {
      PiecesHaveNoBoundary(s, start, i + 1);
    }
  }

  /** A slice with no split position strictly inside it has no boundary. */
  lemma NoBoundaryInside(s: string, start: nat, j: nat)
    requires start <= j <= |s|
    requires forall m :: start < m < j ==> !SplitsAt(s, m)
    ensures !HasBoundary(s[start..j])
  {
    var p := s[start..j];
    forall m | 0 < m < |p|
      ensures !(IsTerminator(p[m - 1]) && IsSpace(p[m]))
    {
      assert !SplitsAt(s, start + m);
    }
  }

  /** Non-empty, and neither starts nor ends with whitespace. */
  predicate Trimmed(p: string) {
    p != [] && !IsSpace(p[0]) && !IsSpace(Last(p))
  }

  /** In a text that neither starts nor ends with whitespace, every piece is
      trimmed. */
  lemma {:induction false} PiecesAreTrimmed(s: string, start: nat, i: nat)
    requires start <= i <= |s|
    requires start < |s| && !IsSpace(s[start]) && !IsSpace(s[|s| - 1])
    ensures forall p :: p in SplitFrom(s, start, i) ==> Trimmed(p)
    decreases |s| - i
  {
    if i == |s| {
      assert Trimmed(s[start..]);
    } else if SplitsAt(s, i) {
      var e := SpaceRunEnd(s, i);
      assert e < |s|;
      PiecesAreTrimmed(s, e, e);
      assert SplitFrom(s, start, i) == [s[start..i]] + SplitFrom(s, e, e);
      assert Trimmed(s[start..i]);
    } else {
      PiecesAreTrimmed(s, start, i + 1);
      assert SplitFrom(s, start, i) == SplitFrom(s, start, i + 1);
    }
  }

  /** What the summariser promises of the sentences it picks from: every piece but
      the last ends with `.`, `!` or `?`; no piece holds a terminator followed by
      whitespace, so every such place was cut; for a non-blank text no piece is
      empty or starts or ends with whitespace. */
  lemma SentenceShape(text: string)
    ensures var pieces := Sentences(Strip(text));
      && (forall k :: 0 <= k < |pieces| - 1 ==> IsTerminator(Last(pieces[k])))
      && (forall p :: p in pieces ==> !HasBoundary(p))
      && (!IsBlank(text) ==> forall p :: p in pieces ==> Trimmed(p))
  {
    var s := Strip(text);
    SplitCounts(s, 0, 0);
    SeparatorsFollowTerminators(s, 0, 0);
    var pieces, seps := Sentences(s), SeparatorsFrom(s, 0, 0);
    assert Boundaries(s, 0, 0);
    forall k | 0 <= k < |pieces| - 1
      ensures IsTerminator(Last(pieces[k]))
    {
      assert BoundaryAt(pieces, seps, k);
    }
    PiecesHaveNoBoundary(s, 0, 0);
    if !IsBlank(text) {
      PiecesAreTrimmed(s, 0, 0);
    }
  }

  lemma {:induction false} SplitJoinShorter(s: string, start: nat, i: nat)
    requires start <= i <= |s|
    ensures |Join(" ", SplitFrom(s, start, i))| <= |s| - start
    decreases |s| - i
  {
    if i < |s| {
      if SplitsAt(s, i) {
        var e := SpaceRunEnd(s, i);
        SplitJoinShorter(s, e, e);
        var rest := SplitFrom(s, e, e);
        JoinAppend(" ", [s[start..i]], rest);
        assert SplitFrom(s, start, i) == [s[start..i]] + rest;
      } else {
        SplitJoinShorter(s, start, i + 1);
      }
    }
  }

  lemma JoinPrefixShorter(sep: string, parts: seq<string>, prefix: seq<string>)
    requires prefix <= parts
    ensures |Join(sep, prefix)| <= |Join(sep, parts)|
  {
    if prefix != [] && |prefix| < |parts| {
      assert parts == prefix + parts[|prefix|..];
      JoinAppend(sep, prefix, parts[|prefix|..]);
    }
  }

  /** The summary is never longer than the stripped text. */
  lemma SummaryNoLonger(text: string, maxSentences: int)
    ensures |Summarize(text, maxSentences)| <= |Strip(text)|
  {
    var s := Strip(text);
    SplitJoinShorter(s, 0, 0);
    JoinPrefixShorter(" ", Sentences(s), SliceTo(Sentences(s), maxSentences));
  }
}
