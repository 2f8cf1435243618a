/** The synthesis request `process_query` sends to the scheduler node. */
module Prompt {
  import opened Text

  /** `'-' * 40`. */
  const Rule: string := "----------------------------------------"

  /** The opening line of the request, up to the quote that opens the question. */
  const Lead: string := "\n        I received the following responses to the question: \""

  /** Text before the node blocks, with the triple-quoted literal's indentation
      of eight spaces per line. */
  function Header(question: string): string {
    Lead + question + Closing
  }

  /** The rest of the header: the closing quote, then the rule between blank lines. */
  const Closing: string := "\"\n        \n        " + Rule + "\n        \n        "

  /** Text after the node blocks. */
  const Footer: string :=
    "\n        \n        " + Rule + "\n        \n        "
    + "Please synthesize these responses into a comprehensive answer, highlighting agreements and differences.\n        "
    + "Provide a unified response that captures the key insights from all nodes.\n        "

  const BlockSeparator: string := "\n\n"

  /** `f"Node {position} Response:\n{response}"`. */
  function Block(position: nat, response: string): string {
    "Node " + NatToString(position) + " Response:\n" + response
  }

  /** The blocks of `responses`, the first labelled `first + 1`. */
  function Blocks(responses: seq<string>, first: nat): (blocks: seq<string>)
    ensures |blocks| == |responses|
  {
    seq(|responses|, j requires 0 <= j < |responses| => Block(first + j + 1, responses[j]))
  }

  /** The node blocks joined by blank lines: `"\n\n".join(...)`. */
  function Responses(responses: seq<string>): string {
    Join(Blocks(responses, 0), BlockSeparator)
  }

  /** The whole request: header quoting the question, the node blocks, footer. */
  function SynthesisPrompt(question: string, responses: seq<string>): string {
    Header(question) + Responses(responses) + Footer
  }

  /** The request opens by quoting the question verbatim between double quotes. */
  lemma PromptQuotesQuestion(question: string, responses: seq<string>)
    ensures var prompt := SynthesisPrompt(question, responses);
      && |prompt| > |Lead| + |question|
      && prompt[..|Lead|] == Lead
      && prompt[|Lead|..|Lead| + |question|] == question
      && prompt[|Lead| + |question|] == '"'
  {
    Framed(Lead, question, Closing, Responses(responses), Footer);
  }

  lemma Framed<T>(a: seq<T>, b: seq<T>, c: seq<T>, d: seq<T>, e: seq<T>)
    requires |c| > 0
    ensures var s := a + b + c + d + e;
      && |s| > |a| + |b|
      && s[..|a|] == a && s[|a|..|a| + |b|] == b && s[|a| + |b|] == c[0]
  {
    var s := a + b + c + d + e;
    assert s == a + (b + (c + d + e));
  }

  /** Response `i` sits among the node blocks as the block labelled `i + 1`,
      after the blocks of responses `0..i-1` and before those of the later ones. */
  lemma ResponsesListResponse(responses: seq<string>, i: nat)
    requires i < |responses|
    ensures Responses(responses) ==
      Join(Blocks(responses[..i], 0), BlockSeparator) + (if i == 0 then "" else BlockSeparator)
      + Block(i + 1, responses[i])
      + (if i + 1 == |responses| then "" else BlockSeparator) + Join(Blocks(responses[i + 1..], i + 1), BlockSeparator)
  {
    JoinAt(Blocks(responses, 0), BlockSeparator, i);
    BlocksSlices(responses, i);
  }

  lemma BlocksSlices(responses: seq<string>, i: nat)
    requires i < |responses|
    ensures Blocks(responses, 0)[..i] == Blocks(responses[..i], 0)
    ensures Blocks(responses, 0)[i] == Block(i + 1, responses[i])
    ensures Blocks(responses, 0)[i + 1..] == Blocks(responses[i + 1..], i + 1)
  {
  }

  /** The request for an empty pool has no blocks at all. */
  lemma PromptWithoutResponses(question: string)
    ensures SynthesisPrompt(question, []) == Header(question) + Footer
  {
    assert Blocks([], 0) == [];
    EmptyMiddle(Header(question), Responses([]), Footer);
  }

  lemma EmptyMiddle<T>(a: seq<T>, b: seq<T>, c: seq<T>)
    requires b == []
    ensures a + b + c == a + c
  {
  }

  /** Three nodes that all answer "X": three blocks labelled 1, 2, 3 in that
      order, separated by blank lines. */
  lemma ThreeEqualAnswers()
    ensures Responses(["X", "X", "X"]) ==
      "Node 1 Response:\nX" + "\n\n" + "Node 2 Response:\nX" + "\n\n" + "Node 3 Response:\nX"
  {
    assert Responses(["X", "X", "X"]) ==
      Block(1, "X") + BlockSeparator + Block(2, "X") + BlockSeparator + Block(3, "X") by {
      var blocks := Blocks(["X", "X", "X"], 0);
      assert blocks == [Block(1, "X"), Block(2, "X"), Block(3, "X")];
      assert blocks[1..][1..] == [Block(3, "X")];
    }
    assert Block(1, "X") == "Node 1 Response:\nX" by { assert NatToString(1) == "1"; }
    assert Block(2, "X") == "Node 2 Response:\nX" by { assert NatToString(2) == "2"; }
    assert Block(3, "X") == "Node 3 Response:\nX" by { assert NatToString(3) == "3"; }
  }
}
