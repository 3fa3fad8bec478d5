/** The review-generation endpoint: it checks the request, builds a prompt from
    the questions and answers, asks a language model for review drafts and reads
    them out of the reply, as JSON when the reply parses and otherwise as its
    first three non-empty lines. The model call and `JSON.parse` are parameters. */
module GenerateReview {

  import opened Wrappers
  import opened JsonValue
  import Strings
  import Seqs

  /** One question as the endpoint reads it. */
  datatype QuestionInput = QuestionInput(id: string, title: string)

  /** The two fields of the request body; `None` when a field is missing or falsy. */
  datatype ReviewRequest = ReviewRequest(
    answers: Option<map<string, string>>,
    questions: Option<seq<QuestionInput>>)

  /** What the completion call does: it throws, or it returns a first choice whose
      message content may be absent. */
  datatype Completion = CallFailed | Replied(content: Option<string>)

  /** The HTTP response: a body `{ reviews }` (no `reviews` key when the parsed
      value has none), or an error status with its message. */
  datatype Response =
    | Reviews(reviews: Option<Json>)
    | ErrorResponse(status: int, error: string)

  /** The response together with the prompt sent to the model, `None` when the
      model was not called. */
  datatype Outcome = Outcome(response: Response, prompt: Option<string>)

  const InvalidRequest := ErrorResponse(400, "Invalid request")
  const GenerationFailed := ErrorResponse(500, "Failed to generate reviews")

  /** The fixed instructions that precede the question-and-answer block. */
  const PromptIntro: string :=
    "Using the following questions and answers, write three distinct short review messages in **first person**. \n"
    + "Each review should vary in **length** (short, medium, long) and **tone** (e.g., casual, professional, enthusiastic). \n"
    + "Reply in JSON format as: {\"reviews\": [\"review1\", \"review2\", \"review3\"]}.\n\n"

  // ---------------------------------------------------------------------------
  // The prompt

  /** `answers[id] ?? ''`. */
  function AnswerFor(answers: map<string, string>, id: string): string {
    if id in answers then answers[id] else ""
  }

  /** `Q: <title>\nA: <answer>` for one question. */
  function Segment(q: QuestionInput, answers: map<string, string>): string {
    "Q: " + q.title + "\n" + "A: " + AnswerFor(answers, q.id)
  }

  /** The `qa` block: one segment per question, in question order, joined by line
      breaks. */
  function QaBlock(questions: seq<QuestionInput>, answers: map<string, string>): string
    decreases |questions|
  {
    if |questions| == 0 then ""
    else if |questions| == 1 then Segment(questions[0], answers)
    else Segment(questions[0], answers) + "\n" + QaBlock(questions[1..], answers)
  }

  /** The lines of the `qa` block: a `Q:` line and an `A:` line per question. */
  function QaLines(questions: seq<QuestionInput>, answers: map<string, string>): (r: seq<string>)
    ensures |r| == 2 * |questions|
    decreases |questions|
  {
    if questions == [] then []
    else ["Q: " + questions[0].title, "A: " + AnswerFor(answers, questions[0].id)] + QaLines(questions[1..], answers)
  }

  /** Line `2k` of the block is question `k`'s title and line `2k + 1` its answer. */
  lemma {:induction false} QaLinesAt(questions: seq<QuestionInput>, answers: map<string, string>, k: nat)
    requires k < |questions|
    ensures QaLines(questions, answers)[2 * k] == "Q: " + questions[k].title
    ensures QaLines(questions, answers)[2 * k + 1] == "A: " + AnswerFor(answers, questions[k].id)
    decreases k
  {
    if k > 0 {
      QaLinesAt(questions[1..], answers, k - 1);
    }
  }

  lemma {:induction false} QaBlockIsJoinOfLines(questions: seq<QuestionInput>, answers: map<string, string>)
    ensures QaBlock(questions, answers) == Strings.Join(QaLines(questions, answers), "\n")
    decreases |questions|
  {
    if questions != [] {
      var lines := QaLines(questions, answers);
      var rest := QaLines(questions[1..], answers);
      assert lines[1..][1..] == rest;
      if |questions| > 1 {
        QaBlockIsJoinOfLines(questions[1..], answers);
      }
    }
  }

  /** When no title and no answer contains a line break, the block's lines are the
      `Q:` and `A:` lines of the questions in order, so each question and its answer
      can be read back from the prompt. */
  lemma QaBlockLines(questions: seq<QuestionInput>, answers: map<string, string>)
    requires |questions| >= 1
    requires forall k | 0 <= k < |questions| ::
      '\n' !in questions[k].title && '\n' !in AnswerFor(answers, questions[k].id)
    ensures Strings.Split(QaBlock(questions, answers), '\n') == QaLines(questions, answers)
  {
    var lines := QaLines(questions, answers);
    forall i | 0 <= i < |lines| ensures '\n' !in lines[i] {
      var k := i / 2;
      QaLinesAt(questions, answers, k);
      if i == 2 * k {
        assert lines[i] == "Q: " + questions[k].title;
      } else {
        assert lines[i] == "A: " + AnswerFor(answers, questions[k].id);
      }
    }
    QaBlockIsJoinOfLines(questions, answers);
    Strings.SplitJoin(lines, '\n');
  }

  /** `userPrompt`: the instructions followed by the `qa` block. */
  function Prompt(qa: string): (r: string)
    ensures |r| == |PromptIntro| + |qa|
    ensures r[..|PromptIntro|] == PromptIntro && r[|PromptIntro|..] == qa
  {
    PromptIntro + qa
  }

  // ---------------------------------------------------------------------------
  // Reading the reply

  /** The test of `filter(Boolean)` on strings: only `''` is falsy. */
  predicate NonEmpty(line: string) {
    line != ""
  }

  /** `content.split('\n').filter(Boolean).slice(0, 3)`: the first three non-empty
      lines of the content, unchanged and in order. */
  function FallbackReviews(content: string): (r: seq<string>)
    ensures |r| <= 3
    ensures forall k | 0 <= k < |r| :: r[k] != ""
    ensures r <= Seqs.Filter(NonEmpty, Strings.Split(content, '\n'))
    ensures |r| < 3 ==> r == Seqs.Filter(NonEmpty, Strings.Split(content, '\n'))
  {
    var lines := Seqs.Filter(NonEmpty, Strings.Split(content, '\n'));
    Seqs.FilterSpec(NonEmpty, Strings.Split(content, '\n'));
    var r := Seqs.Take(lines, 3);
    assert forall k | 0 <= k < |r| :: r[k] == lines[k] && lines[k] in lines;
    r
  }

  /** Empty content gives no reviews. */
  lemma FallbackOfEmpty()
    ensures FallbackReviews("") == []
  {
    assert Strings.Split("", '\n') == [""];
    assert Seqs.Filter(NonEmpty, [""]) == [];
  }

  /** For content made of non-empty lines, the fallback is its first three lines.
      A line of spaces is non-empty, so whitespace-only lines are kept. */
  lemma FallbackOfLines(lines: seq<string>)
    requires |lines| >= 1
    requires forall k | 0 <= k < |lines| :: lines[k] != "" && '\n' !in lines[k]
    ensures FallbackReviews(Strings.Join(lines, "\n")) == Seqs.Take(lines, 3)
  {
    Strings.SplitJoin(lines, '\n');
    Seqs.FilterKeepsAll(NonEmpty, lines);
  }

  /** `data.reviews`: reading a property of `null` throws; a value without the
      property gives `undefined`. */
  function ReviewsField(data: Json): (r: Option<Option<Json>>)
    ensures r.None? <==> data.JNull?
    ensures r == Some(None) <==> !data.JNull? && !(data.JObject? && "reviews" in data.fields)
  {
    match data
    case JNull => None
    case JObject(fields) => Some(if "reviews" in fields then Some(fields["reviews"]) else None)
    case _ => Some(None)
  }

  /** The fallback reviews as the JSON array the response carries. */
  function ReviewsArray(reviews: seq<string>): (r: Json)
    ensures r.JArray? && |r.items| == |reviews|
    ensures forall k | 0 <= k < |reviews| :: r.items[k] == JString(reviews[k])
  {
    JArray(seq(|reviews|, k requires 0 <= k < |reviews| => JString(reviews[k])))
  }

  // ---------------------------------------------------------------------------
  // The endpoint

  /** `POST`. `request` is `None` when reading the body throws; `complete` is the
      model call on a prompt and `parse` is `JSON.parse` (`None` when it throws). */
  function Post(request: Option<ReviewRequest>, complete: string -> Completion, parse: string -> Option<Json>): (out: Outcome)
    ensures request.None? ==> out == Outcome(GenerationFailed, None)
    ensures request.Some? && (request.value.answers.None? || request.value.questions.None?) ==>
              out == Outcome(InvalidRequest, None)
    ensures out.prompt.Some? <==>
              request.Some? && request.value.answers.Some? && request.value.questions.Some?
    ensures out.prompt.Some? ==>
              out.prompt.value == Prompt(QaBlock(request.value.questions.value, request.value.answers.value))
    ensures out.prompt.Some? && complete(out.prompt.value).CallFailed? ==> out.response == GenerationFailed
    ensures out.prompt.Some? && complete(out.prompt.value).Replied? ==>
              var content := complete(out.prompt.value).content.GetOr("");
              && (parse(content).None? ==> out.response == Reviews(Some(ReviewsArray(FallbackReviews(content)))))
              && (parse(content) == Some(JNull) ==> out.response == GenerationFailed)
              && (parse(content).Some? && parse(content) != Some(JNull) ==>
                    out.response == Reviews(ReviewsField(parse(content).value).value))
  {
    if request.None? then Outcome(GenerationFailed, None)
    else if request.value.answers.None? || request.value.questions.None? then Outcome(InvalidRequest, None)
    else
      var prompt := Prompt(QaBlock(request.value.questions.value, request.value.answers.value));
      var reply := complete(prompt);
      if reply.CallFailed? then Outcome(GenerationFailed, Some(prompt))
      else
        var content := reply.content.GetOr("");
        match parse(content)
        case None => Outcome(Reviews(Some(ReviewsArray(FallbackReviews(content)))), Some(prompt))
        case Some(data) =>
          match ReviewsField(data)
          case None => Outcome(GenerationFailed, Some(prompt))
          case Some(reviews) => Outcome(Reviews(reviews), Some(prompt))
  }

  /** A reply with no content is read as empty text; since `JSON.parse('')` throws,
      the answer is an empty review list. */
  lemma EmptyReplyGivesNoReviews(request: ReviewRequest, complete: string -> Completion, parse: string -> Option<Json>)
    requires request.answers.Some? && request.questions.Some?
    requires complete(Prompt(QaBlock(request.questions.value, request.answers.value))) == Replied(None)
    requires parse("") == None
    ensures Post(Some(request), complete, parse).response == Reviews(Some(JArray([])))
  {
    FallbackOfEmpty();
  }
}
