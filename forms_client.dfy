/**
 * Flattening of the Forms API responses into one record per response: a
 * map from question id to question title is built from the form's items,
 * then every response becomes a record holding its id, its submission time
 * and one entry per answer, keyed by the question's title.
 */
module FormsFlattening {
  import opened Wrappers
  import opened Strings
  import opened Frames

  /** A form item: its `title`, and the question id when it is a question item. */
  datatype Item = Item(title: Option<string>, questionId: Option<string>)

  /**
   * One answer as the API returns it: the optional `value` of each text
   * answer when `textAnswers` is present, whether `fileUploadAnswers` is
   * present, and `str(answer_data)` for the remaining kinds.
   */
  datatype AnswerData = AnswerData(textAnswers: Option<seq<Option<string>>>, fileUpload: bool, repr: string)

  /** One entry of a response's `answers` dict. */
  datatype Answer = Answer(questionId: string, data: AnswerData)

  /** A response: `responseId`, `lastSubmittedTime` and the entries of its `answers` dict in order. */
  datatype Response = Response(responseId: Option<string>, lastSubmitted: Option<string>, answers: seq<Answer>)

  /** A flattened response: column name to text. */
  type Record = map<string, string>

  // ---------------------------------------------------------------------------
  // The question map

  /** The position of the last occurrence of `x` in `xs`, or -1: where a later assignment to a key overrides an earlier one. */
  function LastIndex<T(==)>(xs: seq<T>, x: T): (k: int)
    ensures -1 <= k < |xs|
    ensures k >= 0 ==> xs[k] == x
    ensures forall j :: k < j < |xs| ==> xs[j] != x
  {
    if xs == [] then -1
    else if xs[|xs| - 1] == x then |xs| - 1
    else LastIndex(xs[..|xs| - 1], x)
  }

  function QuestionIds(items: seq<Item>): (r: seq<Option<string>>)
    ensures |r| == |items| && forall k :: 0 <= k < |r| ==> r[k] == items[k].questionId
  {
    seq(|items|, k requires 0 <= k < |items| => items[k].questionId)
  }

  /** The position of the last item that is the question `id`, or -1. */
  function LastQuestion(items: seq<Item>, id: string): (k: int)
    ensures -1 <= k < |items|
    ensures k >= 0 ==> items[k].questionId == Some(id)
    ensures forall j :: k < j < |items| ==> items[j].questionId != Some(id)
  {
    LastIndex(QuestionIds(items), Some(id))
  }

  /** Some question item has no title. */
  predicate UntitledQuestion(items: seq<Item>) {
    exists k :: 0 <= k < |items| && items[k].questionId.Some? && items[k].title.None?
  }

  /**
   * `questions[question_id] = item['title']` for every question item, in order.
   * A question item without a title raises `KeyError`; a question asked twice
   * keeps the title of its last item.
   */
  function QuestionMap(items: seq<Item>): (r: Result<map<string, string>, Error>)
    ensures r.Failure? <==> UntitledQuestion(items)
    ensures r.Failure? ==> r.error == KeyError("title")
    ensures r.Success? ==> forall id :: (id in r.value <==> LastQuestion(items, id) >= 0)
    ensures r.Success? ==> forall id :: id in r.value ==>
              r.value[id] == items[LastQuestion(items, id)].title.value
  {
    if items == [] then Success(map[])
    else
      var it := items[|items| - 1];
      var init := items[..|items| - 1];
      var m := QuestionMap(init);
      assert QuestionIds(init) == QuestionIds(items)[..|init|];
      if m.Failure? then m
      else if it.questionId.None? then m
      else if it.title.None? then Failure(KeyError("title"))
      else Success(m.value[it.questionId.value := it.title.value])
  }

  /** The loop over `form.get('items', [])`. */
  method BuildQuestionMap(items: seq<Item>) returns (r: Result<map<string, string>, Error>)
    ensures r == QuestionMap(items)
  {
    var questions: map<string, string> := map[];
    for i := 0 to |items|
      invariant QuestionMap(items[..i]) == Success(questions)
    {
      assert items[..i + 1][..i] == items[..i];
      var item := items[i];
      if item.questionId.Some? {
        if item.title.None? {
          assert items[..i + 1][i] == item;
          r := Failure(KeyError("title"));
          QuestionMapFailed(items, i + 1);
          return;
        }
        questions := questions[item.questionId.value := item.title.value];
      }
    }
    assert items[..|items|] == items;
    r := Success(questions);
  }

  /** Once a prefix fails, the whole map fails with the same error. */
  lemma QuestionMapFailed(items: seq<Item>, n: nat)
    requires n <= |items| && QuestionMap(items[..n]) == Failure(KeyError("title"))
    ensures QuestionMap(items) == Failure(KeyError("title"))
  {
    var k :| 0 <= k < n && items[..n][k].questionId.Some? && items[..n][k].title.None?;
    assert items[k] == items[..n][k];
  }

  // ---------------------------------------------------------------------------
  // One response

  /** `ta.get('value', '')` for every text answer. */
  function Values(vs: seq<Option<string>>): (r: seq<string>)
    ensures |r| == |vs| && forall i :: 0 <= i < |r| ==> r[i] == vs[i].GetOr("")
  {
    seq(|vs|, i requires 0 <= i < |vs| => vs[i].GetOr(""))
  }

  /** The text recorded for one answer: text answers take precedence over file uploads. */
  function AnswerText(a: AnswerData): (r: string)
    ensures a.textAnswers.Some? ==> r == Join("; ", Values(a.textAnswers.value))
    ensures a.textAnswers.None? && a.fileUpload ==> r == "File uploaded"
    ensures a.textAnswers.None? && !a.fileUpload ==> r == a.repr
  {
    match a.textAnswers
    case Some(answers) => Join("; ", Values(answers))
    case None => if a.fileUpload then "File uploaded" else a.repr
  }

  /** `questions.get(question_id, f'Question_{question_id}')`. */
  function QuestionTitle(questions: map<string, string>, id: string): (r: string)
    ensures id in questions ==> r == questions[id]
    ensures id !in questions ==> r == "Question_" + id
  {
    if id in questions then questions[id] else "Question_" + id
  }

  /** The record before any answer is added. */
  function BaseRecord(resp: Response): (r: Record)
    ensures r.Keys == {"response_id", "timestamp"}
    ensures r["response_id"] == resp.responseId.GetOr("") && r["timestamp"] == resp.lastSubmitted.GetOr("")
  {
    map["response_id" := resp.responseId.GetOr(""), "timestamp" := resp.lastSubmitted.GetOr("")]
  }

  /** The column each answer is filed under. */
  function Titles(questions: map<string, string>, answers: seq<Answer>): (r: seq<string>)
    ensures |r| == |answers| && forall k :: 0 <= k < |r| ==> r[k] == QuestionTitle(questions, answers[k].questionId)
  {
    seq(|answers|, k requires 0 <= k < |answers| => QuestionTitle(questions, answers[k].questionId))
  }

  /** The position of the last answer whose question carries `title`, or -1. */
  function LastAnswer(questions: map<string, string>, answers: seq<Answer>, title: string): (k: int)
    ensures -1 <= k < |answers|
    ensures k >= 0 ==> QuestionTitle(questions, answers[k].questionId) == title
    ensures forall j :: k < j < |answers| ==> QuestionTitle(questions, answers[j].questionId) != title
  {
    LastIndex(Titles(questions, answers), title)
  }

  /** `row[question_text] = ...` for the answers in order. */
  function Fill(questions: map<string, string>, row: Record, answers: seq<Answer>): (r: Record)
    ensures row.Keys <= r.Keys
  {
    if answers == [] then row
    else
      var last := answers[|answers| - 1];
      Fill(questions, row, answers[..|answers| - 1])[QuestionTitle(questions, last.questionId) := AnswerText(last.data)]
  }

  /**
   * After the answers are filled in, a column holds the text of the last
   * answer filed under its title, and a column no answer names keeps the
   * value it had.
   */
  lemma {:induction false} FillMeaning(questions: map<string, string>, row: Record, answers: seq<Answer>, t: string)
    ensures var k := LastAnswer(questions, answers, t);
            var r := Fill(questions, row, answers);
            && (t in r <==> t in row || k >= 0)
            && (k >= 0 ==> r[t] == AnswerText(answers[k].data))
            && (k < 0 && t in row ==> r[t] == row[t])
  {
    if answers != [] {
      var init := answers[..|answers| - 1];
      assert Titles(questions, init) == Titles(questions, answers)[..|init|];
      FillMeaning(questions, row, init, t);
    }
  }

  function Flattened(questions: map<string, string>, resp: Response): Record {
    Fill(questions, BaseRecord(resp), resp.answers)
  }

  // ---------------------------------------------------------------------------
  // All responses

  /** `_process_responses`: no responses give no records, and the question map is then never built. */
  function Process(items: seq<Item>, responses: seq<Response>): (r: Result<seq<Record>, Error>)
    ensures responses == [] ==> r == Success([])
    ensures r.Failure? ==> r == Failure(KeyError("title"))
    ensures r.Success? ==> |r.value| == |responses|
  {
    if responses == [] then Success([])
    else
      match QuestionMap(items)
      case Failure(e) => Failure(e)
      case Success(questions) => Success(seq(|responses|, i requires 0 <= i < |responses| => Flattened(questions, responses[i])))
  }

  /** The loop over one response's answers. */
  method FlattenResponse(questions: map<string, string>, response: Response) returns (row: Record)
    ensures row == Flattened(questions, response)
  {
    row := BaseRecord(response);
    for j := 0 to |response.answers|
      invariant row == Fill(questions, BaseRecord(response), response.answers[..j])
    {
      assert response.answers[..j + 1][..j] == response.answers[..j];
      var answer := response.answers[j];
      row := row[QuestionTitle(questions, answer.questionId) := AnswerText(answer.data)];
    }
    assert response.answers[..|response.answers|] == response.answers;
  }

  /** The loops of `_process_responses`. */
  method ProcessResponses(items: seq<Item>, responses: seq<Response>) returns (r: Result<seq<Record>, Error>)
    ensures r == Process(items, responses)
  {
    if responses == [] {
      return Success([]);
    }
    var q := BuildQuestionMap(items);
    if q.Failure? {
      return Failure(q.error);
    }
    var questions := q.value;
    var processed: seq<Record> := [];
    for i := 0 to |responses|
      invariant |processed| == i
      invariant forall k :: 0 <= k < i ==> processed[k] == Flattened(questions, responses[k])
    {
      var row := FlattenResponse(questions, responses[i]);
      processed := processed + [row];
    }
    assert processed == seq(|responses|, i requires 0 <= i < |responses| => Flattened(questions, responses[i]));
    r := Success(processed);
  }

  // ---------------------------------------------------------------------------
  // What the flattening promises

  /**
   * One record per response, in order, each with `response_id` and
   * `timestamp` (empty when absent) unless an answer's title overwrites
   * them, and a column for every answer; the only failure is a question
   * item without a title.
   */
  lemma ProcessMeaning(items: seq<Item>, responses: seq<Response>, i: nat)
    requires i < |responses|
    ensures Process(items, responses).Failure? <==> UntitledQuestion(items)
    ensures Process(items, responses).Success? ==>
              var rows := Process(items, responses).value;
              var resp := responses[i];
              var questions := QuestionMap(items).value;
              && |rows| == |responses|
              && "response_id" in rows[i] && "timestamp" in rows[i]
              && (LastAnswer(questions, resp.answers, "response_id") < 0 ==>
                    rows[i]["response_id"] == resp.responseId.GetOr(""))
              && (LastAnswer(questions, resp.answers, "timestamp") < 0 ==>
                    rows[i]["timestamp"] == resp.lastSubmitted.GetOr(""))
              && rows[i] == Flattened(questions, resp)
  {
    var q := QuestionMap(items);
    if q.Success? {
      var resp := responses[i];
      FillMeaning(q.value, BaseRecord(resp), resp.answers, "response_id");
      FillMeaning(q.value, BaseRecord(resp), resp.answers, "timestamp");
    }
  }

  /** No responses, no records, whatever the form holds. */
  lemma NoResponsesNoRecords(items: seq<Item>)
    ensures Process(items, []) == Success([])
  {
  }

  /** An answer filed under a question the form does not list lands in column `Question_<id>`. */
  lemma UnknownQuestionColumn(items: seq<Item>, resp: Response, k: nat)
    requires QuestionMap(items).Success? && k < |resp.answers|
    requires Some(resp.answers[k].questionId) !in QuestionIds(items)
    ensures "Question_" + resp.answers[k].questionId in Flattened(QuestionMap(items).value, resp)
  {
    var questions := QuestionMap(items).value;
    var id := resp.answers[k].questionId;
    assert QuestionTitle(questions, id) == "Question_" + id;
    FillMeaning(questions, BaseRecord(resp), resp.answers, "Question_" + id);
  }

  /**
   * Every answer gets a column, and answers whose titles coincide overwrite
   * one another: the column holds the text of the last of them.
   */
  lemma LastAnswerWins(questions: map<string, string>, resp: Response, k: nat)
    requires k < |resp.answers|
    requires forall j :: k < j < |resp.answers| ==>
               QuestionTitle(questions, resp.answers[j].questionId) != QuestionTitle(questions, resp.answers[k].questionId)
    ensures QuestionTitle(questions, resp.answers[k].questionId) in Flattened(questions, resp)
    ensures Flattened(questions, resp)[QuestionTitle(questions, resp.answers[k].questionId)] == AnswerText(resp.answers[k].data)
  {
    var t := QuestionTitle(questions, resp.answers[k].questionId);
    FillMeaning(questions, BaseRecord(resp), resp.answers, t);
  }

  /**
   * A question answered with a single text value is recorded as that value
   * alone, without separators, whatever the answer's other fields hold,
   * provided no later answer of the response maps to the same title.
   */
  lemma SingleTextAnswer(questions: map<string, string>, resp: Response, k: nat, v: string)
    requires k < |resp.answers| && resp.answers[k].data.textAnswers == Some([Some(v)])
    requires forall j :: k < j < |resp.answers| ==>
               QuestionTitle(questions, resp.answers[j].questionId) != QuestionTitle(questions, resp.answers[k].questionId)
    ensures var title := QuestionTitle(questions, resp.answers[k].questionId);
            title in Flattened(questions, resp) && Flattened(questions, resp)[title] == v
  {
    LastAnswerWins(questions, resp, k);
    assert Values([Some(v)]) == [v];
  }
}
