/** Topic-change detection (rag_agent/detector/context_switch.py). */
module ContextSwitch {
  import opened Text

  /** `is_context_switch(current, previous_summary, threshold)`: the Jaccard
      similarity of the two token lists is strictly below `threshold`. */
  function IsContextSwitch(current: string, previousSummary: string, threshold: real): bool {
    Jaccard(Tokenize(current), Tokenize(previousSummary)) < threshold
  }

  /** Identical inputs are never a switch for a threshold of at most 1. */
  lemma SameInputNeverSwitches(text: string, threshold: real)
    requires threshold <= 1.0
    ensures !IsContextSwitch(text, text, threshold)
  {
  }

  /** Two inputs without tokens are maximally similar: no switch for a threshold of at most 1. */
  lemma NoTokensNoSwitch(current: string, previousSummary: string, threshold: real)
    requires Tokenize(current) == [] && Tokenize(previousSummary) == []
    requires threshold <= 1.0
    ensures !IsContextSwitch(current, previousSummary, threshold)
  {
  }

  /** Inputs with disjoint token sets, at least one non-empty, switch for every positive threshold. */
  lemma DisjointTokensSwitch(current: string, previousSummary: string, threshold: real)
    requires Tokenize(current) != []
    requires TokenSet(Tokenize(current)) * TokenSet(Tokenize(previousSummary)) == {}
    requires threshold > 0.0
    ensures IsContextSwitch(current, previousSummary, threshold)
  {
    assert Tokenize(current)[0] in TokenSet(Tokenize(current));
  }

  lemma SwitchIsSymmetric(current: string, previousSummary: string, threshold: real)
    ensures IsContextSwitch(current, previousSummary, threshold) == IsContextSwitch(previousSummary, current, threshold)
  {
    JaccardSymmetric(Tokenize(current), Tokenize(previousSummary));
  }

  /** A switch at one threshold is a switch at every higher threshold. */
  lemma SwitchIsMonotone(current: string, previousSummary: string, threshold: real, higher: real)
    requires threshold <= higher
    ensures IsContextSwitch(current, previousSummary, threshold) ==> IsContextSwitch(current, previousSummary, higher)
  {
  }

  /** The two cases of tests/test_context_switch.py. */
  lemma SwitchExamples()
    ensures IsContextSwitch("聊聊天气", "讨论机器学习", 0.5)
    ensures !IsContextSwitch("你好", "你好", 0.5)
  {
    IdeographRunIsOneToken("聊聊天气");
    IdeographRunIsOneToken("讨论机器学习");
    DisjointTokensSwitch("聊聊天气", "讨论机器学习", 0.5);
  }
}
