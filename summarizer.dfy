/**
 * The prompt the feedback summarizer sends to the language model: a fixed
 * preamble, the expert examples for the requested kind of feedback (each
 * with its texts as bullet lines and the expert's summary), then the texts
 * to summarize as bullet lines and a closing instruction.
 */
module Summarization {
  import opened Wrappers
  import opened Strings
  import opened Frames

  /**
   * An expert example: its list-valued entries by key (`positive_texts`,
   * `constructive_texts`, the `texts` its documentation mentions, ...) and
   * its `summary` entry, absent when the dictionary lacks that key.
   */
  datatype Example = Example(lists: map<string, seq<string>>, summary: Option<string>)

  const Preamble: string :=
    "You are modelling an expert at summarizing feedback for separate student guides (teachers/educators). "
    + "We want you to provide insightful but tactful feedback in two forms: positive and constructive."
    + "You will summarize feedback into concise statements, separated by guide and type (positive/constructive), based on provided texts, "
    + "which will be separate (but possibly overlapping) for positive and constructive feedback statements and for each student guide."

  const TaskHeader: string := "Now summarize these texts:\n"

  const Closing: string := "\nProvide a concise summary:"

  /** The example entry read for the requested kind of feedback. */
  function TextsKey(isPositive: bool): (k: string)
    ensures isPositive <==> k == "positive_texts"
    ensures !isPositive <==> k == "constructive_texts"
  {
    if isPositive then "positive_texts" else "constructive_texts"
  }

  /** `f"- {text}\n"`. */
  function Line(text: string): string {
    "- " + text + "\n"
  }

  /** One line per text, in order. */
  function Bullets(texts: seq<string>): string {
    if texts == [] then "" else Bullets(texts[..|texts| - 1]) + Line(texts[|texts| - 1])
  }

  /** The lines for the first k texts begin the lines for all of them, and the next line follows them. */
  lemma {:induction false} BulletsPrefix(texts: seq<string>, k: nat)
    requires k < |texts|
    ensures Bullets(texts[..k]) + Line(texts[k]) <= Bullets(texts)
  {
    var init := texts[..|texts| - 1];
    if k == |texts| - 1 {
      assert texts[..k] == init;
    } else {
      BulletsPrefix(init, k);
      assert init[..k] == texts[..k];
      PrefixExtend([], Bullets(init[..k]), Line(init[k]), Bullets(init), Line(texts[|texts| - 1]));
    }
  }

  function ExampleHeader(k: nat): string {
    "Example " + ShowNat(k) + ":\n" + "Texts to summarize:\n"
  }

  function ExampleFooter(summary: string): string {
    "\nExpert Summary: " + summary + "\n\n"
  }

  /** The block for example number `k`. */
  function Block(k: nat, texts: seq<string>, summary: string): string {
    ExampleHeader(k) + Bullets(texts) + ExampleFooter(summary)
  }

  /**
   * The blocks of all examples, numbered from 1, or the `KeyError` of the
   * first example lacking the requested list or its summary (the list is
   * looked up first).
   */
  function Blocks(examples: seq<Example>, key: string): (r: Result<string, Error>)
    ensures r.Success? <==> forall k :: 0 <= k < |examples| ==> key in examples[k].lists && examples[k].summary.Some?
    ensures r.Failure? ==> r.error == KeyError(key) || r.error == KeyError("summary")
  {
    if examples == [] then Success("")
    else
      var init := examples[..|examples| - 1];
      var ex := examples[|examples| - 1];
      assert forall k :: 0 <= k < |init| ==> init[k] == examples[k];
      match Blocks(init, key)
      case Failure(e) => Failure(e)
      case Success(b) =>
        if key !in ex.lists then Failure(KeyError(key))
        else if ex.summary.None? then Failure(KeyError("summary"))
        else Success(b + Block(|examples|, ex.lists[key], ex.summary.value))
  }

  /** `create_prompt(texts, is_positive)` for the given expert examples. */
  function PromptFor(examples: seq<Example>, texts: seq<string>, isPositive: bool): (r: Result<string, Error>)
    ensures r.Failure? <==> Blocks(examples, TextsKey(isPositive)).Failure?
    ensures r.Failure? ==> r.error == Blocks(examples, TextsKey(isPositive)).error
  {
    match Blocks(examples, TextsKey(isPositive))
    case Failure(e) => Failure(e)
    case Success(b) => Success(Head(b) + Bullets(texts) + Closing)
  }

  /** The preamble, the example blocks and the "Now summarize these texts" header. */
  function Head(blocks: string): string {
    Preamble + blocks + TaskHeader
  }

  /** A summarizer and its expert examples; the language-model client is not part of this model. */
  class SimpleTextSummarizer {
    var expertExamples: seq<Example>

    /** `__init__` once an API key is known: no examples yet. */
    constructor ()
      ensures expertExamples == []
    {
      expertExamples := [];
    }

    /** `add_expert_examples`: the new list replaces the old one. */
    method AddExpertExamples(examples: seq<Example>)
      modifies this
      ensures expertExamples == examples
    {
      expertExamples := examples;
    }

    /** `create_prompt`: the string built by `+=` in the nested loops. */
    method CreatePrompt(texts: seq<string>, isPositive: bool) returns (r: Result<string, Error>)
      ensures r == PromptFor(expertExamples, texts, isPositive)
    {
      var withExamples := AppendBlocks(Preamble, expertExamples, TextsKey(isPositive));
      if withExamples.Failure? {
        return Failure(withExamples.error);
      }
      var prompt := withExamples.value + TaskHeader;
      prompt := AppendLines(prompt, texts);
      r := Success(prompt + Closing);
    }
  }

  /** The loop over the expert examples, appending each one's block to `prompt`. */
  method AppendBlocks(prompt: string, examples: seq<Example>, key: string) returns (r: Result<string, Error>)
    ensures Blocks(examples, key).Failure? ==> r == Failure(Blocks(examples, key).error)
    ensures Blocks(examples, key).Success? ==> r == Success(prompt + Blocks(examples, key).value)
  {
    var text := prompt;
    ghost var body := "";
    for i := 0 to |examples|
      invariant Blocks(examples[..i], key) == Success(body)
      invariant text == prompt + body
    {
      assert examples[..i + 1][..i] == examples[..i];
      var example := examples[i];
      text := text + ExampleHeader(i + 1);
      if key !in example.lists {
        BlocksFailed(examples, i + 1, key);
        return Failure(KeyError(key));
      }
      var items := example.lists[key];
      text := AppendLines(text, items);
      if example.summary.None? {
        BlocksFailed(examples, i + 1, key);
        return Failure(KeyError("summary"));
      }
      text := text + ExampleFooter(example.summary.value);
      Regroup(prompt, body, ExampleHeader(i + 1), Bullets(items), ExampleFooter(example.summary.value));
      body := body + Block(i + 1, items, example.summary.value);
    }
    assert examples[..|examples|] == examples;
    r := Success(text);
  }

  /** `for text in texts: prompt += f"- {text}\n"`. */
  method AppendLines(prompt: string, texts: seq<string>) returns (r: string)
    ensures r == prompt + Bullets(texts)
  {
    r := prompt;
    for j := 0 to |texts|
      invariant r == prompt + Bullets(texts[..j])
    {
      assert texts[..j + 1][..j] == texts[..j];
      r := r + Line(texts[j]);
    }
    assert texts[..|texts|] == texts;
  }

  /** What the `+=` steps of one example add, regrouped as one block. */
  lemma Regroup(p: string, b: string, h: string, u: string, f: string)
    ensures p + b + h + u + f == p + (b + (h + u + f))
  {
  }

  /** A failure among the first examples is the failure of all of them. */
  lemma {:induction false} BlocksFailed(examples: seq<Example>, n: nat, key: string)
    requires n <= |examples| && Blocks(examples[..n], key).Failure?
    ensures Blocks(examples, key) == Blocks(examples[..n], key)
  {
    if n < |examples| {
      var init := examples[..|examples| - 1];
      assert init[..n] == examples[..n];
      BlocksFailed(init, n, key);
    } else {
      assert examples[..n] == examples;
    }
  }

  /** `__init__`: raises when no API key is given. */
  method NewSummarizer(apiKey: Option<string>) returns (r: Result<SimpleTextSummarizer, Error>)
    ensures apiKey.None? <==> r.Failure?
    ensures r.Failure? ==> r.error == MissingApiKey
    ensures r.Success? ==> fresh(r.value) && r.value.expertExamples == []
  {
    if apiKey.None? {
      return Failure(MissingApiKey);
    }
    var s := new SimpleTextSummarizer();
    r := Success(s);
  }

  // ---------------------------------------------------------------------------
  // What the prompt promises

  /**
   * Without examples the prompt is the preamble, the "Now summarize these texts" header, one
   * bullet line per text and the closing instruction, whichever kind of
   * feedback is asked for.
   */
  lemma NoExamplesPrompt(texts: seq<string>, isPositive: bool)
    ensures PromptFor([], texts, isPositive) == Success(Preamble + TaskHeader + Bullets(texts) + Closing)
  {
    assert Preamble + "" == Preamble;
  }

  /** Every text to summarize appears as its own bullet line, after the lines of the texts before it. */
  lemma TaskLines(examples: seq<Example>, texts: seq<string>, isPositive: bool, j: nat)
    requires j < |texts| && PromptFor(examples, texts, isPositive).Success?
    ensures var b := Blocks(examples, TextsKey(isPositive)).value;
            Head(b) + Bullets(texts[..j]) + Line(texts[j]) <= PromptFor(examples, texts, isPositive).value
  {
    var b := Blocks(examples, TextsKey(isPositive)).value;
    BulletsPrefix(texts, j);
    PrefixExtend(Head(b), Bullets(texts[..j]), Line(texts[j]), Bullets(texts), Closing);
  }

  /**
   * Example number k + 1 starts right after the blocks of the k examples
   * before it, with its header.
   */
  lemma {:induction false} ExampleNumbering(examples: seq<Example>, key: string, k: nat)
    requires k < |examples| && Blocks(examples, key).Success?
    ensures Blocks(examples[..k], key).Success?
    ensures Blocks(examples[..k], key).value + ExampleHeader(k + 1) <= Blocks(examples, key).value
  {
    var init := examples[..|examples| - 1];
    var ex := examples[|examples| - 1];
    assert forall i :: 0 <= i < |init| ==> init[i] == examples[i];
    if k == |examples| - 1 {
      assert examples[..k] == init;
      PrefixExtend([], Blocks(init, key).value, ExampleHeader(k + 1), Blocks(init, key).value + ExampleHeader(k + 1),
                   Bullets(ex.lists[key]) + ExampleFooter(ex.summary.value));
    } else {
      ExampleNumbering(init, key, k);
      assert init[..k] == examples[..k];
      PrefixExtend([], Blocks(examples[..k], key).value, ExampleHeader(k + 1), Blocks(init, key).value,
                   Block(|examples|, ex.lists[key], ex.summary.value));
    }
  }

  /**
   * Only the requested list and the summary are read: an example that holds
   * its texts under the documented `texts` key alone makes the prompt fail.
   */
  lemma TextsKeyNeverRead(examples: seq<Example>, texts: seq<string>, isPositive: bool, k: nat)
    requires k < |examples| && examples[k].lists.Keys == {"texts"}
    ensures PromptFor(examples, texts, isPositive).Failure?
  {
    assert TextsKey(isPositive) !in examples[k].lists;
  }
}
