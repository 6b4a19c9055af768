/** The agent of rag_agent/app.py: one chat turn recalls memories and documents,
    builds the prompt, asks the language model, and then either extends the
    current topic buffer or, on a context switch, consolidates the buffer into a
    new memory and starts a fresh one. */
module App {
  import opened Strings
  import opened Text
  import opened FaissUtils
  import opened ContextSwitch
  import opened Summarizer
  import opened Memory
  import opened Retriever
  import opened RagPrompt

  datatype Option<T> = None | Some(value: T)

  /** The number of sentences `summarize` keeps by default. */
  const SummarySentences: int := 3

  /** The number of hits both retrievers return by default. */
  const RecallCount: int := 3

  /** `f"用户: {user_input}\n助手: {response}\n"` */
  function Turn(userInput: string, response: string): string {
    "用户: " + userInput + "\n助手: " + response + "\n"
  }

  /** `self.last_user_input and is_context_switch(user_input, self.last_user_input, threshold)`:
      a previous input that is neither `None` nor empty, and a switch away from it. */
  predicate Switches(lastUserInput: Option<string>, userInput: string, threshold: real) {
    lastUserInput.Some? && lastUserInput.value != "" && IsContextSwitch(userInput, lastUserInput.value, threshold)
  }

  /** The arguments of the `add_memory` call that consolidates a topic. */
  datatype Consolidation = Consolidation(summary: string, content: string, topic: string)

  /** The two fields of the agent that `chat` updates. */
  datatype Session = Session(buffer: string, lastUserInput: Option<string>)

  datatype Outcome = Outcome(next: Session, consolidated: Option<Consolidation>)

  /** The state `Agent()` starts in. */
  const Initial: Session := Session("", None)

  /** Lines 32-41 of `chat`: the new session after a turn, and the memory added on
      the way if any. */
  function Step(s: Session, userInput: string, response: string, threshold: real): Outcome {
    var switched := Switches(s.lastUserInput, userInput, threshold);
    var consolidated :=
      if switched && Strip(s.buffer) != [] then
        var summary := Summarize(s.buffer, SummarySentences);
        Some(Consolidation(summary, s.buffer, SliceTo(summary, 20)))
      else None;
    var kept := if switched then "" else s.buffer;
    Outcome(Session(kept + Turn(userInput, response), Some(userInput)), consolidated)
  }

  // ----------------------------------------------------------- properties

  /** After any turn the previous input is this turn's, and the buffer ends with
      this turn and is not blank. */
  lemma StepRecordsTurn(s: Session, userInput: string, response: string, threshold: real)
    ensures var n := Step(s, userInput, response, threshold).next; var t := Turn(userInput, response);
      && n.lastUserInput == Some(userInput)
      && |t| <= |n.buffer| && n.buffer[|n.buffer| - |t|..] == t
      && !IsBlank(n.buffer)
  {
    var n := Step(s, userInput, response, threshold).next;
    var t := Turn(userInput, response);
    var kept := if Switches(s.lastUserInput, userInput, threshold) then "" else s.buffer;
    assert n.buffer == kept + t;
    assert n.buffer[|kept|] == t[0] == '用';
  }

  /** Without a switch the buffer grows by exactly this turn; on a switch it becomes
      exactly this turn. */
  lemma StepBuffer(s: Session, userInput: string, response: string, threshold: real)
    ensures var n := Step(s, userInput, response, threshold).next;
      && (!Switches(s.lastUserInput, userInput, threshold) ==> n.buffer == s.buffer + Turn(userInput, response))
      && (Switches(s.lastUserInput, userInput, threshold) ==> n.buffer == Turn(userInput, response))
  {
    assert "" + Turn(userInput, response) == Turn(userInput, response);
  }

  /** A memory is added exactly on a switch away from a non-blank buffer. It holds
      the whole old buffer as content, its summary, which is never longer than the
      stripped buffer, and as topic the first (at most) 20 characters of that
      summary. */
  lemma StepConsolidation(s: Session, userInput: string, response: string, threshold: real)
    ensures var c := Step(s, userInput, response, threshold).consolidated;
      && (c.Some? <==> Switches(s.lastUserInput, userInput, threshold) && !IsBlank(s.buffer))
      && (c.Some? ==>
            && c.value.content == s.buffer
            && c.value.summary == Summarize(s.buffer, SummarySentences)
            && |c.value.summary| <= |Strip(s.buffer)|
            && c.value.topic <= c.value.summary
            && |c.value.topic| == (if |c.value.summary| <= 20 then |c.value.summary| else 20))
  {
    SummaryNoLonger(s.buffer, SummarySentences);
  }

  /** The first turn of a new agent never consolidates: there is no previous input. */
  lemma FirstTurnKeepsNothing(userInput: string, response: string, threshold: real)
    ensures Step(Initial, userInput, response, threshold)
         == Outcome(Session(Turn(userInput, response), Some(userInput)), None)
  {
    assert "" + Turn(userInput, response) == Turn(userInput, response);
  }

  /** Repeating the previous input never switches topic when the threshold is at most 1. */
  lemma RepeatedInputKeepsTopic(s: Session, userInput: string, response: string, threshold: real)
    requires s.lastUserInput == Some(userInput)
    requires threshold <= 1.0
    ensures Step(s, userInput, response, threshold)
         == Outcome(Session(s.buffer + Turn(userInput, response), Some(userInput)), None)
  {
    SameInputNeverSwitches(userInput, threshold);
  }

  function Summaries(chunks: seq<MemoryChunk>): seq<string> {
    seq(|chunks|, i requires 0 <= i < |chunks| => chunks[i].summary)
  }

  /** `Agent`. `generate` stands for `LLMRunner.generate`. */
  class Agent {
    const memoryStore: MemoryStore
    const retriever: DocumentRetriever
    const generate: string -> string
    const threshold: real
    var topicBuffer: string
    var lastUserInput: Option<string>

    ghost predicate Valid()
      reads this, memoryStore, memoryStore.index, retriever, retriever.index
    {
      memoryStore.Valid() && retriever.Valid() && memoryStore.index != retriever.index
    }

    /** `Agent(config)` once the store and the retriever have been built. */
    constructor (memoryStore: MemoryStore, retriever: DocumentRetriever, generate: string -> string, threshold: real)
      requires memoryStore.Valid() && retriever.Valid() && memoryStore.index != retriever.index
      ensures Valid()
      ensures this.memoryStore == memoryStore && this.retriever == retriever
      ensures this.generate == generate && this.threshold == threshold
      ensures Session(topicBuffer, lastUserInput) == Initial
    {
      this.memoryStore := memoryStore;
      this.retriever := retriever;
      this.generate := generate;
      this.threshold := threshold;
      topicBuffer := "";
      lastUserInput := None;
    }

    /** The prompt lines 26-28 of `chat` send to the language model, as a function
        of the state the turn starts in. */
    ghost function PromptFor(userInput: string): string
      requires Valid()
      reads this, memoryStore, memoryStore.index, retriever, retriever.index
    {
      Join("\n", PromptLines(userInput,
        Summaries(Pick(memoryStore.memories,
                       Hits(memoryStore.index.vectors, memoryStore.embed(userInput, memoryStore.dim), RecallCount))),
        Pick(retriever.docs,
             Hits(retriever.index.vectors, ModelEmbedding(userInput, retriever.dim, retriever.pool), RecallCount))))
    }

    /** Lines 26-29 of `chat`: recall up to three memories and three documents,
        build the prompt and generate the response. Nothing changes. */
    method Respond(userInput: string) returns (response: string)
      requires Valid()
      ensures response == generate(PromptFor(userInput))
    {
      var recalled := memoryStore.Retrieve(userInput, RecallCount);
      var memories := Summaries(recalled);
      var documents := retriever.Retrieve(userInput, RecallCount);
      var prompt := BuildPrompt(userInput, memories, documents);
      response := generate(prompt);
    }

    /** Lines 32-41 of `chat`: the topic buffer and the previous input move as `Step`
        says, and the memory store gains exactly the chunk `Step` consolidates. */
    method Remember(userInput: string, response: string, idClock: real, timestamp: real)
      requires Valid()
      modifies this, memoryStore, memoryStore.index
      ensures Valid()
      ensures var o := Step(Session(old(topicBuffer), old(lastUserInput)), userInput, response, threshold);
        && Session(topicBuffer, lastUserInput) == o.next
        && (o.consolidated.None? ==> memoryStore.memories == old(memoryStore.memories))
        && (o.consolidated.Some? ==>
              var c := o.consolidated.value;
              memoryStore.memories == old(memoryStore.memories)
                + [MemoryChunk(ChunkId(idClock, |old(memoryStore.memories)| + 1), timestamp, c.summary, c.content, c.topic)])
    {
      if lastUserInput.Some? && lastUserInput.value != "" && IsContextSwitch(userInput, lastUserInput.value, threshold) {
        if Strip(topicBuffer) != [] {
          var summary := Summarize(topicBuffer, SummarySentences);
          var _ := memoryStore.AddMemory(summary, topicBuffer, SliceTo(summary, 20), idClock, timestamp);
        }
        topicBuffer := "";
      }
      topicBuffer := topicBuffer + Turn(userInput, response);
      lastUserInput := Some(userInput);
    }

    /** `chat(user_input)`. `idClock` and `timestamp` are the two clock readings of
        an `add_memory` call. */
    method Chat(userInput: string, idClock: real, timestamp: real) returns (response: string)
      requires Valid()
      modifies this, memoryStore, memoryStore.index
      ensures Valid()
      ensures response == generate(old(PromptFor(userInput)))
      ensures var o := Step(Session(old(topicBuffer), old(lastUserInput)), userInput, response, threshold);
        && Session(topicBuffer, lastUserInput) == o.next
        && (o.consolidated.None? ==> memoryStore.memories == old(memoryStore.memories))
        && (o.consolidated.Some? ==>
              var c := o.consolidated.value;
              memoryStore.memories == old(memoryStore.memories)
                + [MemoryChunk(ChunkId(idClock, |old(memoryStore.memories)| + 1), timestamp, c.summary, c.content, c.topic)])
      ensures |old(memoryStore.memories)| <= |memoryStore.memories| <= |old(memoryStore.memories)| + 1
    {
      response := Respond(userInput);
      Remember(userInput, response, idClock, timestamp);
    }
  }
}
