/** Tokenisation, Jaccard similarity and the shape of the text embedding
    (rag_agent/utils/text.py). */
module Text {
  import opened Strings

  // ------------------------------------------------------------ tokenize

  /** The two character classes of the pattern `[一-鿿]+|[a-zA-Z]+`. */
  datatype CharClass = Ideograph | Latin | Other

  predicate IsIdeograph(c: char) {
    '\U{4E00}' <= c <= '\U{9FFF}'
  }

  predicate IsAsciiLetter(c: char) {
    'a' <= c <= 'z' || 'A' <= c <= 'Z'
  }

  function ClassOf(c: char): CharClass {
    if IsIdeograph(c) then Ideograph else if IsAsciiLetter(c) then Latin else Other
  }

  /** `str.lower()` on one character of a token: only ASCII capitals change. */
  function Lower(c: char): char {
    if 'A' <= c <= 'Z' then (c as int + 32) as char else c
  }

  function LowerAll(s: string): (r: string)
    ensures |r| == |s|
    ensures forall i :: 0 <= i < |s| ==> r[i] == Lower(s[i])
  {
    seq(|s|, i requires 0 <= i < |s| => Lower(s[i]))
  }

  /** A half-open range `[start, end)` of positions in the text. */
  datatype Span = Span(start: nat, end: nat)

  predicate InText(s: string, sp: Span) {
    sp.start < sp.end <= |s|
  }

  /** Where the run of characters of `s[i]`'s class that starts at `i` ends: the
      greedy `+` of the pattern. */
  function RunEnd(s: string, i: nat): (j: nat)
    requires i < |s|
    ensures i < j <= |s|
    ensures forall m :: i <= m < j ==> ClassOf(s[m]) == ClassOf(s[i])
    ensures j == |s| || ClassOf(s[j]) != ClassOf(s[i])
    decreases |s| - i
  {
    if i + 1 < |s| && ClassOf(s[i + 1]) == ClassOf(s[i]) then RunEnd(s, i + 1) else i + 1
  }

  /** The spans `re.finditer(r"[一-鿿]+|[a-zA-Z]+", s)` reports when the scan
      is at position `i`: skip a character neither alternative matches, otherwise
      take the longest run of the class that matches. */
  function Matches(s: string, i: nat): (r: seq<Span>)
    requires i <= |s|
    ensures forall k :: 0 <= k < |r| ==> i <= r[k].start < r[k].end <= |s|
    decreases |s| - i
  {
    if i == |s| then []
    else if ClassOf(s[i]) == Other then Matches(s, i + 1)
    else var j := RunEnd(s, i); [Span(i, j)] + Matches(s, j)
  }

  function Lowered(s: string, spans: seq<Span>): (tokens: seq<string>)
    requires forall k :: 0 <= k < |spans| ==> spans[k].start <= spans[k].end <= |s|
    ensures |tokens| == |spans|
    ensures forall k :: 0 <= k < |spans| ==> tokens[k] == LowerAll(s[spans[k].start..spans[k].end])
  {
    if spans == [] then []
    else [LowerAll(s[spans[0].start..spans[0].end])] + Lowered(s, spans[1..])
  }

  /** `tokenize(text)`: the matched substrings, lower-cased. */
  function Tokenize(text: string): seq<string> {
    Lowered(text, Matches(text, 0))
  }

  predicate IsToken(t: string) {
    && |t| > 0
    && ((forall i :: 0 <= i < |t| ==> IsIdeograph(t[i]))
        || (forall i :: 0 <= i < |t| ==> 'a' <= t[i] <= 'z'))
  }

  /** A span covering a run of one significant class that can be extended by
      neither neighbour. */
  predicate IsMaximalRun(s: string, sp: Span)
    requires InText(s, sp)
  {
    && ClassOf(s[sp.start]) != Other
    && (forall m :: sp.start <= m < sp.end ==> ClassOf(s[m]) == ClassOf(s[sp.start]))
    && (sp.start == 0 || ClassOf(s[sp.start - 1]) != ClassOf(s[sp.start]))
    && (sp.end == |s| || ClassOf(s[sp.end]) != ClassOf(s[sp.start]))
  }

  /** No significant character in `s[a..b]`. */
  predicate Gap(s: string, a: nat, b: nat)
    requires a <= b <= |s|
  {
    forall m :: a <= m < b ==> ClassOf(s[m]) == Other
  }

  lemma FirstRunIsMaximal(s: string, i: nat)
    requires i < |s| && ClassOf(s[i]) != Other
    requires i == 0 || ClassOf(s[i - 1]) == Other || ClassOf(s[i - 1]) != ClassOf(s[i])
    ensures InText(s, Span(i, RunEnd(s, i))) && IsMaximalRun(s, Span(i, RunEnd(s, i)))
  {
  }

  /** Every match is a run of one significant class that neither neighbour extends. */
  lemma {:induction false} MatchesAreMaximalRuns(s: string, i: nat)
    requires i <= |s|
    requires i == 0 || i == |s| || ClassOf(s[i - 1]) == Other || ClassOf(s[i - 1]) != ClassOf(s[i])
    ensures forall k :: 0 <= k < |Matches(s, i)| ==> IsMaximalRun(s, Matches(s, i)[k])
    decreases |s| - i
  {
    if i < |s| {
      if ClassOf(s[i]) == Other {
        MatchesAreMaximalRuns(s, i + 1);
        assert Matches(s, i) == Matches(s, i + 1);
      } else {
        MatchesAreMaximalRuns(s, RunEnd(s, i));
        MaximalRunsStep(s, i);
      }
    }
  }

  lemma MaximalRunsStep(s: string, i: nat)
    requires i < |s| && ClassOf(s[i]) != Other
    requires i == 0 || ClassOf(s[i - 1]) == Other || ClassOf(s[i - 1]) != ClassOf(s[i])
    requires forall k :: 0 <= k < |Matches(s, RunEnd(s, i))| ==> IsMaximalRun(s, Matches(s, RunEnd(s, i))[k])
    ensures forall k :: 0 <= k < |Matches(s, i)| ==> IsMaximalRun(s, Matches(s, i)[k])
  {
    var r, rest := Matches(s, i), Matches(s, RunEnd(s, i));
    assert r == [Span(i, RunEnd(s, i))] + rest;
    FirstRunIsMaximal(s, i);
    forall k | 0 < k < |r|
      ensures IsMaximalRun(s, r[k])
    {
      assert r[k] == rest[k - 1];
      assert IsMaximalRun(s, rest[k - 1]);
    }
  }

  /** Nothing significant lies between the scan position and the first match. */
  lemma {:induction false} GapBeforeFirst(s: string, i: nat)
    requires i <= |s|
    ensures var r := Matches(s, i); Gap(s, i, if r == [] then |s| else r[0].start)
    decreases |s| - i
  {
    if i < |s| && ClassOf(s[i]) == Other {
      GapBeforeFirst(s, i + 1);
    }
  }

  /** Nothing significant lies after the last match. */
  lemma {:induction false} GapAfterLast(s: string, i: nat)
    requires i <= |s|
    ensures var r := Matches(s, i); r != [] ==> Gap(s, r[|r| - 1].end, |s|)
    decreases |s| - i
  {
    if i < |s| {
      if ClassOf(s[i]) == Other {
        GapAfterLast(s, i + 1);
      } else {
        var j := RunEnd(s, i);
        var rest := Matches(s, j);
        if rest == [] {
          GapBeforeFirst(s, j);
        } else {
          GapAfterLast(s, j);
          assert Matches(s, i)[|Matches(s, i)| - 1] == rest[|rest| - 1];
        }
      }
    }
  }

  /** Consecutive matches are in text order with nothing significant between them. */
  lemma {:induction false} GapsBetween(s: string, i: nat)
    requires i <= |s|
    ensures var r := Matches(s, i);
      forall k :: 0 <= k < |r| - 1 ==> r[k].end <= r[k + 1].start && Gap(s, r[k].end, r[k + 1].start)
    decreases |s| - i
  {
    if i < |s| {
      if ClassOf(s[i]) == Other {
        GapsBetween(s, i + 1);
        assert Matches(s, i) == Matches(s, i + 1);
      } else {
        var j := RunEnd(s, i);
        var rest := Matches(s, j);
        var r := Matches(s, i);
        GapsBetween(s, j);
        GapBeforeFirst(s, j);
        forall k | 0 <= k < |r| - 1
          ensures r[k].end <= r[k + 1].start && Gap(s, r[k].end, r[k + 1].start)
        {
          assert r[k + 1] == rest[k];
          if k > 0 {
            assert r[k] == rest[k - 1];
          }
        }
      }
    }
  }

  /** Matches come in text order, and nothing significant lies before the first,
      between two consecutive ones or after the last. With the lemma above: the
      matches are exactly the maximal runs of the text. */
  lemma MatchesCoverSignificant(s: string, i: nat)
    requires i <= |s|
    ensures var r := Matches(s, i);
      && (r == [] ==> Gap(s, i, |s|))
      && (r != [] ==> Gap(s, i, r[0].start) && Gap(s, r[|r| - 1].end, |s|))
      && (forall k :: 0 <= k < |r| - 1 ==> r[k].end <= r[k + 1].start && Gap(s, r[k].end, r[k + 1].start))
  {
    GapBeforeFirst(s, i);
    GapAfterLast(s, i);
    GapsBetween(s, i);
  }

  /** Lowering a non-empty run of one significant class gives a token. */
  lemma RunIsToken(w: string)
    requires w != [] && ClassOf(w[0]) != Other
    requires forall i :: 0 <= i < |w| ==> ClassOf(w[i]) == ClassOf(w[0])
    ensures IsToken(LowerAll(w))
  {
    var t := LowerAll(w);
    if ClassOf(w[0]) == Ideograph {
      assert forall i :: 0 <= i < |t| ==> IsIdeograph(t[i]) by {
        forall i | 0 <= i < |t| ensures IsIdeograph(t[i]) {
          assert ClassOf(w[i]) == Ideograph;
        }
      }
    } else {
      assert forall i :: 0 <= i < |t| ==> 'a' <= t[i] <= 'z' by {
        forall i | 0 <= i < |t| ensures 'a' <= t[i] <= 'z' {
          assert ClassOf(w[i]) == Latin;
        }
      }
    }
  }

  /** Every token is a non-empty run of ideographs or of lower-case ASCII letters. */
  lemma TokensAreWellFormed(text: string)
    ensures forall k :: 0 <= k < |Tokenize(text)| ==> IsToken(Tokenize(text)[k])
  {
    var r := Matches(text, 0);
    MatchesAreMaximalRuns(text, 0);
    forall k | 0 <= k < |r|
      ensures IsToken(Tokenize(text)[k])
    {
      var sp := r[k];
      assert IsMaximalRun(text, sp);
      var w := text[sp.start..sp.end];
      assert forall i :: 0 <= i < |w| ==> w[i] == text[sp.start + i];
      RunIsToken(w);
    }
  }

  /** The characters `tokenize` keeps, in order: ideographs and ASCII letters, lower-cased. */
  function Significant(s: string): string {
    if s == [] then []
    else (if ClassOf(s[0]) == Other then [] else [Lower(s[0])]) + Significant(s[1..])
  }

  lemma {:induction false} SignificantAppend(a: string, b: string)
    ensures Significant(a + b) == Significant(a) + Significant(b)
    decreases |a|
  {
    if a != [] {
      assert (a + b)[1..] == a[1..] + b;
      SignificantAppend(a[1..], b);
    } else {
      assert a + b == b;
    }
  }

  lemma {:induction false} SignificantOfRun(s: string)
    requires forall m :: 0 <= m < |s| ==> ClassOf(s[m]) != Other
    ensures Significant(s) == LowerAll(s)
    decreases |s|
  {
    if s != [] {
      SignificantOfRun(s[1..]);
      assert LowerAll(s) == [Lower(s[0])] + LowerAll(s[1..]);
    }
  }

  /** A run the scan takes contributes its lowered text to the concatenation. */
  lemma RunStep(s: string, i: nat)
    requires i < |s| && ClassOf(s[i]) != Other
    ensures var j := RunEnd(s, i);
      Join("", Lowered(s, Matches(s, i))) == LowerAll(s[i..j]) + Join("", Lowered(s, Matches(s, j)))
  {
    var j := RunEnd(s, i);
    var rest := Lowered(s, Matches(s, j));
    var head := LowerAll(s[i..j]);
    var all := Lowered(s, Matches(s, i));
    assert Matches(s, i)[1..] == Matches(s, j);
    assert all == [head] + rest;
    AppendEmpty(head);
    if rest != [] {
      JoinCons("", head, rest);
    } else {
      assert all == [head];
    }
  }

  lemma SignificantSplit(s: string, i: nat, j: nat)
    requires i <= j <= |s|
    requires forall m :: i <= m < j ==> ClassOf(s[m]) != Other
    ensures Significant(s[i..]) == LowerAll(s[i..j]) + Significant(s[j..])
  {
    assert s[i..] == s[i..j] + s[j..];
    SignificantAppend(s[i..j], s[j..]);
    SignificantOfRun(s[i..j]);
  }

  lemma SignificantSkip(s: string, i: nat)
    requires i < |s| && ClassOf(s[i]) == Other
    ensures Significant(s[i..]) == Significant(s[i + 1..])
  {
    assert s[i..][1..] == s[i + 1..];
  }

  lemma {:induction false} MatchesKeepSignificant(s: string, i: nat)
    requires i <= |s|
    ensures Join("", Lowered(s, Matches(s, i))) == Significant(s[i..])
    decreases |s| - i
  {
    if i == |s| {
      assert s[i..] == [];
    } else if ClassOf(s[i]) == Other {
      MatchesKeepSignificant(s, i + 1);
      SignificantSkip(s, i);
    } else {
      var j := RunEnd(s, i);
      MatchesKeepSignificant(s, j);
      RunStep(s, i);
      SignificantSplit(s, i, j);
    }
  }

  /** Concatenating the tokens gives the text with every character outside the two
      classes deleted and ASCII capitals lowered. */
  lemma TokensConcatenateToSignificant(text: string)
    ensures Join("", Tokenize(text)) == Significant(text)
  {
    MatchesKeepSignificant(text, 0);
    assert text[0..] == text;
  }

  lemma {:induction false} NoMatchesWithoutSignificant(s: string, i: nat)
    requires i <= |s|
    requires forall m :: i <= m < |s| ==> ClassOf(s[m]) == Other
    ensures Matches(s, i) == []
    decreases |s| - i
  {
    if i < |s| {
      NoMatchesWithoutSignificant(s, i + 1);
    }
  }

  /** Text with no ideograph and no ASCII letter has no tokens. */
  lemma NoTokensWithoutLetters(text: string)
    requires forall m :: 0 <= m < |text| ==> !IsIdeograph(text[m]) && !IsAsciiLetter(text[m])
    ensures Tokenize(text) == []
  {
    NoMatchesWithoutSignificant(text, 0);
  }

  /** A text of ideographs only is a single token: runs are not segmented further. */
  lemma IdeographRunIsOneToken(text: string)
    requires text != [] && forall m :: 0 <= m < |text| ==> IsIdeograph(text[m])
    ensures Tokenize(text) == [text]
  {
    var j := RunEnd(text, 0);
    assert j == |text|;
    assert Matches(text, 0) == [Span(0, |text|)] + Matches(text, |text|);
    assert text[0..|text|] == text;
    assert LowerAll(text) == text;
  }

  // ------------------------------------------------------------- jaccard

  function TokenSet(tokens: seq<string>): set<string> {
    set t | t in tokens
  }

  lemma {:induction false} SubsetCardinality<T>(a: set<T>, b: set<T>)
    requires a <= b
    ensures |a| <= |b|
    ensures |a| == |b| ==> a == b
    decreases b
  {
    if a != b {
      assert !(b <= a);
      var x :| x in b && x !in a;
      SubsetCardinality(a, b - {x});
    }
  }

  /** The two counts of a Jaccard ratio: the union of two sets, not both empty,
      is non-empty and no smaller than their intersection, and equally large only
      when the sets are equal. */
  lemma {:induction false} OverlapCounts<T>(sa: set<T>, sb: set<T>)
    requires sa + sb != {}
    ensures 1 <= |sa + sb|
    ensures |sa * sb| <= |sa + sb|
    ensures |sa * sb| == |sa + sb| <==> sa == sb
  {
    var x :| x in sa + sb;
    SubsetCardinality({x}, sa + sb);
    SubsetCardinality(sa * sb, sa + sb);
    if |sa * sb| == |sa + sb| {
      assert sa <= sa + sb && sb <= sa + sb;
    }
    if sa == sb {
      assert sa * sb == sa + sb;
    }
  }

  /** A fraction `n / d` with `n <= d` lies in [0, 1], is 1 exactly when `n == d`
      and 0 exactly when `n == 0`. */
  lemma Fraction(n: nat, d: nat)
    requires 1 <= d && n <= d
    ensures 0.0 <= (n as real) / (d as real) <= 1.0
    ensures (n as real) / (d as real) == 1.0 <==> n == d
    ensures (n as real) / (d as real) == 0.0 <==> n == 0
  {
    var q := (n as real) / (d as real);
    assert q * (d as real) == n as real;
  }

  /** `jaccard(a, b)`: shared over combined distinct tokens, 1 for two empty inputs. */
  function Jaccard(a: seq<string>, b: seq<string>): (r: real)
    ensures 0.0 <= r <= 1.0
    ensures r == 1.0 <==> TokenSet(a) == TokenSet(b)
    ensures r == 0.0 <==> TokenSet(a) * TokenSet(b) == {} && TokenSet(a) + TokenSet(b) != {}
  {
    var sa, sb := TokenSet(a), TokenSet(b);
    if sa == {} && sb == {} then 1.0
    else
      OverlapCounts(sa, sb);
      Fraction(|sa * sb|, |sa + sb|);
      (|sa * sb| as real) / (|sa + sb| as real)
  }

  lemma JaccardSymmetric(a: seq<string>, b: seq<string>)
    ensures Jaccard(a, b) == Jaccard(b, a)
  {
    assert TokenSet(a) * TokenSet(b) == TokenSet(b) * TokenSet(a);
    assert TokenSet(a) + TokenSet(b) == TokenSet(b) + TokenSet(a);
  }

  /** Order and repetition of tokens do not matter, only their sets. */
  lemma JaccardOfSetsOnly(a: seq<string>, a': seq<string>, b: seq<string>, b': seq<string>)
    requires TokenSet(a) == TokenSet(a') && TokenSet(b) == TokenSet(b')
    ensures Jaccard(a, b) == Jaccard(a', b')
  {
  }

  // ----------------------------------------------------------- embedding

  /** An embedding provider `embed(text, dim)`; being a function makes it deterministic. */
  type Embedder = (string, nat) -> seq<real>

  /** What `model_embedding` does with a non-empty token list: MD5-seeded per-token
      pseudo-random vectors, averaged and L2-normalised. */
  type Pooler = (seq<string>, nat) -> seq<real>

  ghost predicate KeepsDimension(pool: Pooler) {
    forall tokens, dim :: |pool(tokens, dim)| == dim
  }

  /** `model_embedding(text, dim)`: `dim` zeros for text without tokens, otherwise the
      pooled vector of its tokens; always `dim` long. */
  function ModelEmbedding(text: string, dim: nat, pool: Pooler): (v: seq<real>)
    requires KeepsDimension(pool)
    ensures |v| == dim
    ensures Tokenize(text) == [] ==> forall i :: 0 <= i < dim ==> v[i] == 0.0
  {
    var tokens := Tokenize(text);
    if tokens == [] then Fill(0.0, dim) else pool(tokens, dim)
  }
}
