/** The prompt builder of rag_agent/prompt/rag_prompt.py. */
module RagPrompt {
  import opened Strings

  const SystemPrompt: string := "你是一个有长期记忆的智能助手。"
  const MemoryHeader: string := "以下是你得到的记忆:"
  const NoMemories: string := "- (无)"
  const KnowledgeHeader: string := "知识:"
  const Closing: string := "请合理结合记忆和当前问题给出回复"
  const SnippetLimit: nat := 200

  function MemoryLine(m: string): string {
    "- " + m
  }

  /** `doc.strip().replace("\n", " ")[:200]` */
  function Snippet(doc: string): string {
    SliceTo(ReplaceChar(Strip(doc), '\n', ' '), SnippetLimit)
  }

  /** A snippet is the first (at most) 200 characters of the stripped document, with
      every newline turned into a space; so it holds no newline. */
  lemma SnippetShape(doc: string)
    ensures var r, t := Snippet(doc), Strip(doc);
      && |r| == (if |t| <= SnippetLimit then |t| else SnippetLimit)
      && (forall i :: 0 <= i < |r| ==> r[i] == (if t[i] == '\n' then ' ' else t[i]))
      && '\n' !in r
  {
  }

  /** `f"[文档{i}] {snippet}"` */
  function DocumentLine(i: nat, doc: string): string {
    "[文档" + NatToDecimal(i) + "] " + Snippet(doc)
  }

  function UserLine(userInput: string): string {
    "当前用户输入:\n" + userInput + "\n"
  }

  const Head: seq<string> := [SystemPrompt, "", MemoryHeader]

  /** One line per memory, or the "(无)" line when there are none. */
  function MemoryLines(memories: seq<string>): seq<string> {
    if memories == [] then [NoMemories] else MemoryItems(memories, |memories|)
  }

  /** The first `n` memory lines. */
  function MemoryItems(memories: seq<string>, n: nat): seq<string>
    requires n <= |memories|
  {
    seq(n, i requires 0 <= i < n => MemoryLine(memories[i]))
  }

  /** The first `n` document lines, numbered from 1. */
  function DocumentItems(documents: seq<string>, n: nat): seq<string>
    requires n <= |documents|
  {
    seq(n, i requires 0 <= i < n => DocumentLine(i + 1, documents[i]))
  }

  lemma MemoryItemsSnoc(memories: seq<string>, j: nat)
    requires j < |memories|
    ensures MemoryItems(memories, j + 1) == MemoryItems(memories, j) + [MemoryLine(memories[j])]
  {
  }

  lemma DocumentItemsSnoc(documents: seq<string>, j: nat)
    requires j < |documents|
    ensures DocumentItems(documents, j + 1) == DocumentItems(documents, j) + [DocumentLine(j + 1, documents[j])]
  {
    var longer := DocumentItems(documents, j + 1);
    var snoc := DocumentItems(documents, j) + [DocumentLine(j + 1, documents[j])];
    forall i | 0 <= i < j + 1
      ensures longer[i] == snoc[i]
    {
    }
  }

  /** The knowledge block: nothing without documents, otherwise a header, one line
      per document numbered from 1, and an empty line. */
  function DocumentLines(documents: seq<string>): seq<string> {
    if documents == [] then [] else [KnowledgeHeader] + DocumentItems(documents, |documents|) + [""]
  }

  /** The `lines` list `build_prompt` joins. */
  function PromptLines(userInput: string, memories: seq<string>, documents: seq<string>): seq<string> {
    Head + MemoryLines(memories) + [""] + DocumentLines(documents) + [UserLine(userInput), Closing]
  }

  /** `build_prompt(user_input, memories, documents)` */
  method BuildPrompt(userInput: string, memories: seq<string>, documents: seq<string>) returns (prompt: string)
    ensures prompt == Join("\n", PromptLines(userInput, memories, documents))
  {
    var lines := Head;
    if memories != [] {
      for j := 0 to |memories|
        invariant lines == Head + MemoryItems(memories, j)
      {
        MemoryItemsSnoc(memories, j);
        AppendAssoc(Head, MemoryItems(memories, j), [MemoryLine(memories[j])]);
        lines := lines + [MemoryLine(memories[j])];
      }
    } else {
      lines := lines + [NoMemories];
    }
    lines := lines + [""];
    ghost var beforeDocs := lines;
    if documents != [] {
      lines := lines + [KnowledgeHeader];
      ghost var start := lines;
      for j := 0 to |documents|
        invariant lines == start + DocumentItems(documents, j)
      {
        var line := DocumentLine(j + 1, documents[j]);
        DocumentItemsSnoc(documents, j);
        AppendAssoc(start, DocumentItems(documents, j), [line]);
        lines := lines + [line];
      }
      AppendAssoc(beforeDocs, [KnowledgeHeader], DocumentItems(documents, |documents|));
      AppendAssoc(beforeDocs, [KnowledgeHeader] + DocumentItems(documents, |documents|), [""]);
      lines := lines + [""];
    } else {
      AppendEmpty(beforeDocs);
    }
    lines := lines + [UserLine(userInput)];
    lines := lines + [Closing];
    PromptAssembly(userInput, memories, documents, beforeDocs, lines);
    prompt := Join("\n", lines);
  }

  lemma PromptAssembly(userInput: string, memories: seq<string>, documents: seq<string>,
                       beforeDocs: seq<string>, lines: seq<string>)
    requires beforeDocs == Head + MemoryLines(memories) + [""]
    requires lines == beforeDocs + DocumentLines(documents) + [UserLine(userInput)] + [Closing]
    ensures lines == PromptLines(userInput, memories, documents)
  {
  }

  // ----------------------------------------------------------- properties

  /** The prompt opens with the system prompt, an empty line and the memory header. */
  lemma PromptStart(userInput: string, memories: seq<string>, documents: seq<string>)
    ensures var lines := PromptLines(userInput, memories, documents);
      Join("\n", lines) == SystemPrompt + "\n" + "\n" + MemoryHeader + "\n" + Join("\n", lines[3..])
  {
    var lines := PromptLines(userInput, memories, documents);
    assert lines[0] == SystemPrompt && lines[1] == "" && lines[2] == MemoryHeader && |lines| > 4;
    JoinFirstThree(lines);
  }

  lemma JoinFirstThree(lines: seq<string>)
    requires |lines| > 3
    ensures Join("\n", lines) == lines[0] + "\n" + lines[1] + "\n" + lines[2] + "\n" + Join("\n", lines[3..])
  {
    TailTail(lines, 1);
    TailTail(lines, 2);
    assert Join("\n", lines[1..]) == lines[1] + "\n" + Join("\n", lines[2..]);
  }

  lemma TailTail<T>(xs: seq<T>, n: nat)
    requires n < |xs|
    ensures xs[n..][0] == xs[n] && xs[n..][1..] == xs[n + 1..]
  {
  }

  /** The prompt closes with the user line and the closing instruction, which holds
      no newline: it is the last line of the text. */
  lemma PromptEnd(userInput: string, memories: seq<string>, documents: seq<string>)
    ensures var lines := PromptLines(userInput, memories, documents);
      Join("\n", lines) == Join("\n", lines[..|lines| - 2]) + "\n" + UserLine(userInput) + "\n" + Closing
    ensures '\n' !in Closing
  {
    var lines := PromptLines(userInput, memories, documents);
    var tail := [UserLine(userInput), Closing];
    assert lines == lines[..|lines| - 2] + tail;
    JoinAppend("\n", lines[..|lines| - 2], tail);
    assert tail[1..] == [Closing];
  }

  /** The prompt opens with the three head lines, followed by the memory block
      (see MemoryLinesShape and MemoryLineAt) and an empty line. */
  lemma MemoryBlock(userInput: string, memories: seq<string>, documents: seq<string>)
    ensures var lines, m := PromptLines(userInput, memories, documents), |MemoryLines(memories)|;
      && lines[..3] == [SystemPrompt, "", MemoryHeader]
      && lines[3..3 + m] == MemoryLines(memories)
      && lines[3 + m] == ""
  {
    var ml, dl := MemoryLines(memories), DocumentLines(documents);
    Inner(Head, ml, [""], dl, [UserLine(userInput), Closing]);
  }

  /** The memory block holds one line per memory, or the single "(无)" line. */
  lemma MemoryLinesShape(memories: seq<string>)
    ensures |MemoryLines(memories)| == (if memories == [] then 1 else |memories|)
    ensures memories == [] ==> MemoryLines(memories) == [NoMemories]
  {
  }

  /** Line `i` of the memory block is `"- "` followed by memory `i`. */
  lemma MemoryLineAt(memories: seq<string>, i: nat)
    requires i < |memories|
    ensures MemoryLines(memories)[i] == "- " + memories[i]
  {
  }

  /** Slicing out the second of five appended parts, and the first three items. */
  lemma Inner<T>(a: seq<T>, b: seq<T>, c: seq<T>, d: seq<T>, e: seq<T>)
    ensures (a + b + c + d + e)[|a|..|a| + |b|] == b
    ensures (a + b + c + d + e)[..|a|] == a
    ensures c != [] ==> (a + b + c + d + e)[|a| + |b|] == c[0]
  {
    var all := a + b + c + d + e;
    assert all == a + (b + (c + d + e));
  }

  lemma DocumentLineAt(documents: seq<string>, i: nat)
    requires i < |documents|
    ensures DocumentItems(documents, |documents|)[i] == DocumentLine(i + 1, documents[i])
  {
  }

  /** Position `|a| + i` of `a + b + c` is position `i` of `b + c`. */
  lemma Middle<T>(a: seq<T>, b: seq<T>, c: seq<T>, i: nat)
    requires i < |b| + |c|
    ensures (a + b + c)[|a| + i] == (if i < |b| then b[i] else c[i - |b|])
  {
  }

  /** After the memory block's empty line come exactly the knowledge block's lines
      (see KnowledgeLines and KnowledgeItem), then the user line and the closing line. */
  lemma DocumentBlock(userInput: string, memories: seq<string>, documents: seq<string>)
    ensures var lines, m := PromptLines(userInput, memories, documents), |MemoryLines(memories)|;
      && |lines| == 6 + m + |DocumentLines(documents)|
      && lines[4 + m..|lines| - 2] == DocumentLines(documents)
      && lines[|lines| - 2] == UserLine(userInput) && lines[|lines| - 1] == Closing
  {
    var front := Head + MemoryLines(memories) + [""];
    SliceMiddle(front, DocumentLines(documents), [UserLine(userInput), Closing]);
  }

  lemma SliceMiddle<T>(a: seq<T>, b: seq<T>, c: seq<T>)
    ensures (a + b + c)[|a|..|a| + |b|] == b
  {
  }

  /** The knowledge block is empty without documents; otherwise it is the header,
      one line per document and an empty line. */
  lemma KnowledgeLines(documents: seq<string>)
    ensures var dl := DocumentLines(documents);
      && (documents == [] ==> dl == [])
      && (documents != [] ==>
            && |dl| == |documents| + 2 && dl[0] == KnowledgeHeader && dl[|documents| + 1] == "")
  {
  }

  /** Line `1 + i` of the knowledge block is the document line of document `i`
      numbered `i + 1`: numbering starts at 1 and follows document order. */
  lemma KnowledgeItem(documents: seq<string>, i: nat)
    requires i < |documents|
    ensures DocumentLines(documents)[1 + i] == DocumentLine(i + 1, documents[i])
  {
    var items := DocumentItems(documents, |documents|);
    Middle([KnowledgeHeader], items, [""], i);
    DocumentLineAt(documents, i);
  }

  /** The knowledge header is an entry of the `lines` list exactly when there are
      documents: no other entry can equal it. (In the joined text a user input of
      its own can still form a line that reads the same.) */
  lemma KnowledgeIffDocuments(userInput: string, memories: seq<string>, documents: seq<string>)
    ensures KnowledgeHeader in PromptLines(userInput, memories, documents) <==> documents != []
  {
    var lines := PromptLines(userInput, memories, documents);
    var m := |MemoryLines(memories)|;
    MemoryBlock(userInput, memories, documents);
    DocumentBlock(userInput, memories, documents);
    if documents == [] {
      assert |lines| == 6 + m;
      forall i | 0 <= i < |lines|
        ensures lines[i] != KnowledgeHeader
      {
        if 3 <= i < 3 + m {
          assert lines[i] == MemoryLines(memories)[i - 3];
          MemoryLinesShape(memories);
          if memories != [] {
            MemoryLineAt(memories, i - 3);
          }
          assert lines[i][0] == '-';
        } else if i == |lines| - 2 {
          assert lines[i][0] == '当';
        }
      }
    } else {
      KnowledgeLines(documents);
      assert lines[4 + m] == lines[4 + m..|lines| - 2][0];
    }
  }
}
