/**
 * The question validation schema: a zod object schema with field checks and a refinement
 * that exactly one answer is marked correct, seen as a parser from a JavaScript value to a
 * typed question plus the list of issues zod reports.
 *
 * zod (version 3) parses every field of an object and every element of an array, collecting
 * the issues in schema order. A child whose value has the wrong type (a missing field reads
 * as `undefined`, reported "Required") aborts its parent; a failed length or format check only
 * marks the result dirty. A refinement runs only on a result that did not abort. `safeParse`
 * succeeds exactly when no issue was recorded.
 */
module QuestionSchema {
  import opened Wrappers
  import opened Json

  datatype Segment = Key(name: string) | Index(i: nat)
  type Path = seq<Segment>
  datatype Issue = Issue(path: Path, message: string)

  /** One parser's outcome: `value` is None when the parse aborted. */
  datatype Parse<+T> = Parse(value: Option<T>, issues: seq<Issue>)

  datatype Answer = Answer(answerText: string, isCorrect: bool)

  datatype Question = Question(
    question: string,
    explanation: string,
    languageId: string,
    difficultyLevelId: Option<string>,
    categoryId: Option<string>,
    answers: seq<Answer>)

  const QuestionRequired := "Question is required"
  const InvalidLanguageId := "Invalid language ID"
  const InvalidDifficultyLevelId := "Invalid difficulty level ID"
  const InvalidCategoryId := "Invalid category ID"
  const AnswerTextRequired := "Answer text is required"
  const TooFewAnswers := "At least two answers are required."
  const NotExactlyOneCorrect := "Exactly one answer must be marked as correct."

  /** zod's invalid_type issue: "Required" for undefined, otherwise the two type names. */
  function TypeIssue(at: Path, expected: string, v: Value): Issue
  {
    Issue(at, if v.Undefined? then "Required" else "Expected " + expected + ", received " + TypeName(v))
  }

  predicate IsHexDigit(c: char)
  {
    '0' <= c <= '9' || 'a' <= c <= 'f' || 'A' <= c <= 'F'
  }

  /** zod's `uuid()` format: 8-4-4-4-12 hexadecimal digits, case-insensitive. */
  predicate IsUuid(s: string)
  {
    |s| == 36 &&
    forall i :: 0 <= i < 36 ==>
      if i == 8 || i == 13 || i == 18 || i == 23 then s[i] == '-' else IsHexDigit(s[i])
  }

  function StringField(v: Value, at: Path): Parse<string>
  {
    if v.Str? then Parse(Some(v.s), []) else Parse(None, [TypeIssue(at, "string", v)])
  }

  function BoolField(v: Value, at: Path): Parse<bool>
  {
    if v.Bool? then Parse(Some(v.b), []) else Parse(None, [TypeIssue(at, "boolean", v)])
  }

  /** `.min(1, message)` on a string. */
  function NonEmpty(p: Parse<string>, at: Path, message: string): Parse<string>
  {
    if p.value.Some? && |p.value.value| < 1 then Parse(p.value, p.issues + [Issue(at, message)]) else p
  }

  /** `.uuid(message)` on a string. */
  function Uuid(p: Parse<string>, at: Path, message: string): Parse<string>
  {
    if p.value.Some? && !IsUuid(p.value.value) then Parse(p.value, p.issues + [Issue(at, message)]) else p
  }

  /** `z.string().uuid(message).optional()`: undefined is accepted as absent. */
  function OptionalUuid(v: Value, at: Path, message: string): Parse<Option<string>>
  {
    if v.Undefined? then Parse(Some(None), [])
    else
      var p := Uuid(StringField(v, at), at, message);
      Parse(if p.value.Some? then Some(Some(p.value.value)) else None, p.issues)
  }

  /** One answer object `{ answerText: string.min(1), isCorrect: boolean }`. */
  function ParseAnswer(v: Value, at: Path): Parse<Answer>
  {
    if !v.Obj? then Parse(None, [TypeIssue(at, "object", v)])
    else
      var tAt := at + [Key("answerText")];
      var t := NonEmpty(StringField(Get(v.fields, "answerText"), tAt), tAt, AnswerTextRequired);
      var c := BoolField(Get(v.fields, "isCorrect"), at + [Key("isCorrect")]);
      Parse(if t.value.Some? && c.value.Some? then Some(Answer(t.value.value, c.value.value)) else None,
            t.issues + c.issues)
  }

  /** The elements of an answer array, each parsed at its own index path. */
  function AnswerParts(items: seq<Value>, at: Path): seq<Parse<Answer>>
  {
    seq(|items|, i requires 0 <= i < |items| => ParseAnswer(items[i], at + [Index(i)]))
  }

  /** `z.array(answer).min(2, ...)`: the length issue comes before the element issues. */
  function ParseAnswers(v: Value, at: Path): Parse<seq<Answer>>
  {
    if !v.Arr? then Parse(None, [TypeIssue(at, "array", v)])
    else
      var short := if |v.items| < 2 then [Issue(at, TooFewAnswers)] else [];
      var elems := Combine(AnswerParts(v.items, at));
      Parse(elems.value, short + elems.issues)
  }

  function CorrectCount(answers: seq<Answer>): nat
  {
    if answers == [] then 0
    else CorrectCount(answers[..|answers| - 1]) + (if answers[|answers| - 1].isCorrect then 1 else 0)
  }

  function QuestionField(f: map<string, Value>, at: Path): Parse<string>
  {
    NonEmpty(StringField(Get(f, "question"), at + [Key("question")]), at + [Key("question")], QuestionRequired)
  }

  function ExplanationField(f: map<string, Value>, at: Path): Parse<string>
  {
    StringField(Get(f, "explanation"), at + [Key("explanation")])
  }

  function LanguageIdField(f: map<string, Value>, at: Path): Parse<string>
  {
    Uuid(StringField(Get(f, "languageId"), at + [Key("languageId")]), at + [Key("languageId")], InvalidLanguageId)
  }

  function DifficultyLevelIdField(f: map<string, Value>, at: Path): Parse<Option<string>>
  {
    OptionalUuid(Get(f, "difficultyLevelId"), at + [Key("difficultyLevelId")], InvalidDifficultyLevelId)
  }

  function CategoryIdField(f: map<string, Value>, at: Path): Parse<Option<string>>
  {
    OptionalUuid(Get(f, "categoryId"), at + [Key("categoryId")], InvalidCategoryId)
  }

  function AnswersField(f: map<string, Value>, at: Path): Parse<seq<Answer>>
  {
    ParseAnswers(Get(f, "answers"), at + [Key("answers")])
  }

  /** The object part of the schema, fields in declaration order, before the refinement. */
  function ParseShape(v: Value, at: Path): Parse<Question>
  {
    if !v.Obj? then Parse(None, [TypeIssue(at, "object", v)])
    else
      var q := QuestionField(v.fields, at);
      var e := ExplanationField(v.fields, at);
      var l := LanguageIdField(v.fields, at);
      var d := DifficultyLevelIdField(v.fields, at);
      var c := CategoryIdField(v.fields, at);
      var a := AnswersField(v.fields, at);
      Parse(
        if q.value.Some? && e.value.Some? && l.value.Some? && d.value.Some? && c.value.Some? && a.value.Some?
        then Some(Question(q.value.value, e.value.value, l.value.value, d.value.value, c.value.value, a.value.value))
        else None,
        q.issues + e.issues + l.issues + d.issues + c.issues + a.issues)
  }

  /** Every field's issues are issues of the object, and the object's are issues of the schema. */
  lemma ShapeIssuesKept(v: Value, at: Path, iss: Issue)
    requires v.Obj?
    requires || iss in QuestionField(v.fields, at).issues
             || iss in ExplanationField(v.fields, at).issues
             || iss in LanguageIdField(v.fields, at).issues
             || iss in DifficultyLevelIdField(v.fields, at).issues
             || iss in CategoryIdField(v.fields, at).issues
             || iss in AnswersField(v.fields, at).issues
    ensures iss in ParseQuestion(v, at).issues
  {
  }

  /** `questionSchema` at path `at`: the shape, then the exactly-one-correct refinement. */
  function ParseQuestion(v: Value, at: Path): Parse<Question>
  {
    var p := ParseShape(v, at);
    if p.value.Some? && CorrectCount(p.value.value.answers) != 1
    then Parse(p.value, p.issues + [Issue(at + [Key("answers")], NotExactlyOneCorrect)])
    else p
  }

  /** `questionSchema.safeParse(v)`; a failure always carries at least one issue. */
  function SafeParseQuestion(v: Value): (r: Result<Question, seq<Issue>>)
    ensures r.Err? ==> r.error != []
  {
    QuestionReported(v, []);
    var p := ParseQuestion(v, []);
    if p.value.Some? && p.issues == [] then Ok(p.value.value) else Err(p.issues)
  }

  /** zod's merge of element results: aborted if any element aborted, issues in element order. */
  function Combine<T>(parts: seq<Parse<T>>): Parse<seq<T>>
  {
    if parts == [] then Parse(Some([]), [])
    else
      var prev := Combine(parts[..|parts| - 1]);
      var cur := parts[|parts| - 1];
      Parse(if prev.value.Some? && cur.value.Some? then Some(prev.value.value + [cur.value.value]) else None,
            prev.issues + cur.issues)
  }

  /** The elements of the `questions` array of the save request, each parsed at its index. */
  function QuestionParts(items: seq<Value>, at: Path): seq<Parse<Question>>
  {
    seq(|items|, i requires 0 <= i < |items| => ParseQuestion(items[i], at + [Index(i)]))
  }

  /** `z.object({ questions: z.array(questionSchema) }).safeParse(v)`. */
  function SafeParseSave(v: Value): (r: Result<seq<Question>, seq<Issue>>)
    ensures r.Err? ==> r.error != []
  {
    SaveItemsReported(v);
    var p :=
      if !v.Obj? then Parse(None, [TypeIssue([], "object", v)])
      else
        var qs := Get(v.fields, "questions");
        if !qs.Arr? then Parse(None, [TypeIssue([Key("questions")], "array", qs)])
        else Combine(QuestionParts(qs.items, [Key("questions")]));
    if p.value.Some? && p.issues == [] then Ok(p.value.value) else Err(p.issues)
  }

  // ---------------------------------------------------------------------------------------
  // An aborted parse always reports why.

  /** A parse that aborted recorded at least one issue. */
  predicate Reported<T>(p: Parse<T>)
  {
    p.value.None? ==> p.issues != []
  }

  lemma {:induction false} CombineReported<T>(parts: seq<Parse<T>>)
    requires forall i :: 0 <= i < |parts| ==> Reported(parts[i])
    ensures Reported(Combine(parts))
  {
    if parts != [] {
      var init := parts[..|parts| - 1];
      assert forall i :: 0 <= i < |init| ==> init[i] == parts[i];
      CombineReported(init);
    }
  }

  lemma AnswersReported(v: Value, at: Path)
    ensures Reported(ParseAnswers(v, at))
  {
    if v.Arr? {
      var parts := AnswerParts(v.items, at);
      assert forall i :: 0 <= i < |parts| ==> parts[i] == ParseAnswer(v.items[i], at + [Index(i)]);
      CombineReported(parts);
    }
  }

  lemma QuestionReported(v: Value, at: Path)
    ensures Reported(ParseQuestion(v, at))
  {
    if v.Obj? {
      AnswersReported(Get(v.fields, "answers"), at + [Key("answers")]);
    }
  }

  lemma QuestionItemsReported(items: seq<Value>, at: Path)
    ensures Reported(Combine(QuestionParts(items, at)))
  {
    var parts := QuestionParts(items, at);
    forall i | 0 <= i < |parts| ensures Reported(parts[i]) {
      QuestionReported(items[i], at + [Index(i)]);
    }
    CombineReported(parts);
  }

  lemma SaveItemsReported(v: Value)
    ensures v.Obj? && Get(v.fields, "questions").Arr? ==>
      Reported(Combine(QuestionParts(Get(v.fields, "questions").items, [Key("questions")])))
  {
    if v.Obj? && Get(v.fields, "questions").Arr? {
      QuestionItemsReported(Get(v.fields, "questions").items, [Key("questions")]);
    }
  }

  // ---------------------------------------------------------------------------------------
  // The same schema stated declaratively, field by field.

  predicate AnswerTyped(v: Value)
  {
    v.Obj? && Get(v.fields, "answerText").Str? && Get(v.fields, "isCorrect").Bool?
  }

  predicate AnswerValid(v: Value)
  {
    AnswerTyped(v) && |Get(v.fields, "answerText").s| >= 1
  }

  function DecodeAnswer(v: Value): Answer
    requires AnswerTyped(v)
  {
    Answer(Get(v.fields, "answerText").s, Get(v.fields, "isCorrect").b)
  }

  predicate OptionalUuidValid(v: Value)
  {
    v.Undefined? || (v.Str? && IsUuid(v.s))
  }

  predicate OptionalStringTyped(v: Value)
  {
    v.Undefined? || v.Str?
  }

  /** Every field has the type the schema asks for (nothing that would abort the parse). */
  predicate ShapeTyped(v: Value)
  {
    v.Obj? &&
    var f := v.fields;
    Get(f, "question").Str? && Get(f, "explanation").Str? && Get(f, "languageId").Str? &&
    OptionalStringTyped(Get(f, "difficultyLevelId")) && OptionalStringTyped(Get(f, "categoryId")) &&
    Get(f, "answers").Arr? &&
    forall i :: 0 <= i < |Get(f, "answers").items| ==> AnswerTyped(Get(f, "answers").items[i])
  }

  /** Number of answer values marked `isCorrect: true`. */
  function MarkedCorrect(items: seq<Value>): nat
  {
    if items == [] then 0
    else MarkedCorrect(items[..|items| - 1]) + (if IsMarked(items[|items| - 1]) then 1 else 0)
  }

  predicate IsMarked(v: Value)
  {
    v.Obj? && Get(v.fields, "isCorrect") == Bool(true)
  }

  /**
   * What the schema accepts: a non-empty question, a string explanation (possibly empty), a
   * UUID language id, optional UUID difficulty and category ids, and at least two answers,
   * each with non-empty text and a boolean flag, exactly one of them marked correct.
   */
  predicate Accepts(v: Value)
  {
    ShapeTyped(v) &&
    var f := v.fields;
    |Get(f, "question").s| >= 1 &&
    IsUuid(Get(f, "languageId").s) &&
    OptionalUuidValid(Get(f, "difficultyLevelId")) && OptionalUuidValid(Get(f, "categoryId")) &&
    |Get(f, "answers").items| >= 2 &&
    (forall i :: 0 <= i < |Get(f, "answers").items| ==> AnswerValid(Get(f, "answers").items[i])) &&
    MarkedCorrect(Get(f, "answers").items) == 1
  }

  function OptionalString(v: Value): Option<string>
  {
    if v.Str? then Some(v.s) else None
  }

  /** The typed question a well-typed value denotes (unknown keys are dropped). */
  function Decode(v: Value): Question
    requires ShapeTyped(v)
  {
    var f := v.fields;
    var items := Get(f, "answers").items;
    Question(Get(f, "question").s, Get(f, "explanation").s, Get(f, "languageId").s,
             OptionalString(Get(f, "difficultyLevelId")), OptionalString(Get(f, "categoryId")),
             seq(|items|, i requires 0 <= i < |items| => DecodeAnswer(items[i])))
  }

  // ---------------------------------------------------------------------------------------
  // The parser agrees with the declarative reading.

  /** One answer parses without aborting iff it is well typed, and then decodes it. */
  lemma AnswerTypedParses(v: Value, at: Path)
    ensures ParseAnswer(v, at).value.Some? <==> AnswerTyped(v)
    ensures AnswerTyped(v) ==> ParseAnswer(v, at).value == Some(DecodeAnswer(v))
  {
  }

  /** One answer parses with no issue iff it is valid. */
  lemma AnswerCleanParses(v: Value, at: Path)
    ensures (ParseAnswer(v, at).value.Some? && ParseAnswer(v, at).issues == []) <==> AnswerValid(v)
  {
  }

  /** The answers parse without aborting iff each is well typed; the values decode them. */
  lemma AnswerItemsTyped(items: seq<Value>, at: Path)
    ensures Combine(AnswerParts(items, at)).value.Some? <==> forall i :: 0 <= i < |items| ==> AnswerTyped(items[i])
    ensures Combine(AnswerParts(items, at)).value.Some? ==>
      |Combine(AnswerParts(items, at)).value.value| == |items| &&
      forall i :: 0 <= i < |items| ==> Combine(AnswerParts(items, at)).value.value[i] == DecodeAnswer(items[i])
  {
    var parts := AnswerParts(items, at);
    CombineSome(parts);
    forall i | 0 <= i < |items|
      ensures parts[i].value.Some? <==> AnswerTyped(items[i])
      ensures AnswerTyped(items[i]) ==> parts[i].value == Some(DecodeAnswer(items[i]))
    {
      AnswerTypedParses(items[i], at + [Index(i)]);
    }
    if Combine(parts).value.Some? {
      CombineValues(parts);
    }
  }

  /** The answers parse with no issue iff each is valid. */
  lemma AnswerItemsClean(items: seq<Value>, at: Path)
    ensures (Combine(AnswerParts(items, at)).value.Some? && Combine(AnswerParts(items, at)).issues == []) <==>
      forall i :: 0 <= i < |items| ==> AnswerValid(items[i])
  {
    var parts := AnswerParts(items, at);
    CombineClean(parts);
    forall i | 0 <= i < |items|
      ensures (parts[i].value.Some? && parts[i].issues == []) <==> AnswerValid(items[i])
    {
      AnswerCleanParses(items[i], at + [Index(i)]);
    }
  }

  lemma {:induction false} CorrectCountDecoded(items: seq<Value>, answers: seq<Answer>)
    requires |answers| == |items|
    requires forall i :: 0 <= i < |items| ==> AnswerTyped(items[i]) && answers[i] == DecodeAnswer(items[i])
    ensures CorrectCount(answers) == MarkedCorrect(items)
  {
    if items != [] {
      var k := |items| - 1;
      CorrectCountDecoded(items[..k], answers[..k]);
    }
  }

  /** The shape parse does not abort exactly when every field is well typed, and then decodes `v`. */
  lemma ShapeTypedParses(v: Value, at: Path)
    ensures ParseShape(v, at).value.Some? <==> ShapeTyped(v)
    ensures ShapeTyped(v) ==> ParseShape(v, at).value == Some(Decode(v))
  {
    if v.Obj? {
      ScalarFieldValues(v.fields, at);
      var a := Get(v.fields, "answers");
      if a.Arr? {
        AnswerItemsTyped(a.items, at + [Key("answers")]);
        var p := Combine(AnswerParts(a.items, at + [Key("answers")]));
        if ShapeTyped(v) {
          assert p.value.value == Decode(v).answers;
        }
      }
    }
  }

  /**
   * The schema accepts a value exactly when the declarative reading does, and an accepted
   * value parses to its decoding.
   */
  lemma ParseQuestionIffAccepts(v: Value, at: Path)
    ensures var p := ParseQuestion(v, at);
      (p.value.Some? && p.issues == []) <==> Accepts(v)
    ensures Accepts(v) ==> ParseQuestion(v, at).value == Some(Decode(v))
  {
    ShapeTypedParses(v, at);
    if v.Obj? {
      var a := Get(v.fields, "answers");
      if a.Arr? {
        var aAt := at + [Key("answers")];
        AnswerItemsTyped(a.items, aAt);
        AnswerItemsClean(a.items, aAt);
        var p := Combine(AnswerParts(a.items, aAt));
        if p.value.Some? {
          CorrectCountDecoded(a.items, p.value.value);
        }
      }
    }
  }

  lemma SafeParseQuestionIffAccepts(v: Value)
    ensures SafeParseQuestion(v).Ok? <==> Accepts(v)
    ensures Accepts(v) ==> SafeParseQuestion(v) == Ok(Decode(v))
  {
    ParseQuestionIffAccepts(v, []);
  }

  /** An accepted question has at least two answers, all with text, exactly one correct. */
  lemma AcceptedQuestionInvariant(v: Value)
    requires SafeParseQuestion(v).Ok?
    ensures var q := SafeParseQuestion(v).value;
      |q.question| >= 1 && IsUuid(q.languageId) && |q.answers| >= 2 &&
      (forall i :: 0 <= i < |q.answers| ==> |q.answers[i].answerText| >= 1) &&
      CorrectCount(q.answers) == 1
  {
    SafeParseQuestionIffAccepts(v);
    var items := Get(v.fields, "answers").items;
    var q := Decode(v);
    CorrectCountDecoded(items, q.answers);
  }

  // ---------------------------------------------------------------------------------------
  // The error paths and messages.

  /** An empty question string is rejected with 'Question is required' at `question`. */
  lemma EmptyQuestionRejected(v: Value)
    requires v.Obj? && Get(v.fields, "question") == Str("")
    ensures SafeParseQuestion(v).Err?
    ensures Issue([Key("question")], QuestionRequired) in SafeParseQuestion(v).error
  {
    var iss := Issue([Key("question")], QuestionRequired);
    var root: Path := [];
    assert root + [Key("question")] == [Key("question")];
    assert iss in QuestionField(v.fields, []).issues;
    ShapeIssuesKept(v, [], iss);
  }

  /** A missing or mistyped field is reported at its own path, e.g. "[languageId] Required". */
  lemma MissingLanguageIdRejected(v: Value)
    requires v.Obj? && !Get(v.fields, "languageId").Str?
    ensures SafeParseQuestion(v).Err?
    ensures TypeIssue([Key("languageId")], "string", Get(v.fields, "languageId")) in SafeParseQuestion(v).error
  {
    var iss := TypeIssue([Key("languageId")], "string", Get(v.fields, "languageId"));
    var root: Path := [];
    assert root + [Key("languageId")] == [Key("languageId")];
    assert iss in LanguageIdField(v.fields, []).issues;
    ShapeIssuesKept(v, [], iss);
  }

  lemma InvalidLanguageIdRejected(v: Value)
    requires v.Obj? && Get(v.fields, "languageId").Str? && !IsUuid(Get(v.fields, "languageId").s)
    ensures SafeParseQuestion(v).Err?
    ensures Issue([Key("languageId")], InvalidLanguageId) in SafeParseQuestion(v).error
  {
    var iss := Issue([Key("languageId")], InvalidLanguageId);
    var root: Path := [];
    assert root + [Key("languageId")] == [Key("languageId")];
    assert iss in LanguageIdField(v.fields, []).issues;
    ShapeIssuesKept(v, [], iss);
  }

  lemma MissingExplanationRejected(v: Value)
    requires v.Obj? && Get(v.fields, "explanation") == Undefined
    ensures SafeParseQuestion(v).Err?
    ensures Issue([Key("explanation")], "Required") in SafeParseQuestion(v).error
  {
    var iss := Issue([Key("explanation")], "Required");
    var root: Path := [];
    assert root + [Key("explanation")] == [Key("explanation")];
    assert iss in ExplanationField(v.fields, []).issues;
    ShapeIssuesKept(v, [], iss);
  }

  /** Fewer than two answers is reported at `answers`. */
  lemma TooFewAnswersRejected(v: Value)
    requires v.Obj? && Get(v.fields, "answers").Arr? && |Get(v.fields, "answers").items| < 2
    ensures SafeParseQuestion(v).Err?
    ensures Issue([Key("answers")], TooFewAnswers) in SafeParseQuestion(v).error
  {
    var iss := Issue([Key("answers")], TooFewAnswers);
    var root: Path := [];
    assert root + [Key("answers")] == [Key("answers")];
    assert iss in AnswersField(v.fields, []).issues;
    ShapeIssuesKept(v, [], iss);
  }

  /** An answer with empty text is reported at `answers.i.answerText`. */
  lemma EmptyAnswerTextRejected(v: Value, i: nat)
    requires v.Obj? && Get(v.fields, "answers").Arr?
    requires i < |Get(v.fields, "answers").items|
    requires Get(v.fields, "answers").items[i].Obj?
    requires Get(Get(v.fields, "answers").items[i].fields, "answerText") == Str("")
    ensures SafeParseQuestion(v).Err?
    ensures Issue([Key("answers"), Index(i), Key("answerText")], AnswerTextRequired) in SafeParseQuestion(v).error
  {
    var items := Get(v.fields, "answers").items;
    var aAt: Path := [Key("answers")];
    var iss := Issue([Key("answers"), Index(i), Key("answerText")], AnswerTextRequired);
    assert aAt + [Index(i)] + [Key("answerText")] == iss.path;
    assert iss in ParseAnswer(items[i], aAt + [Index(i)]).issues;
    assert AnswerParts(items, aAt)[i] == ParseAnswer(items[i], aAt + [Index(i)]);
    CombineIssuesKept(AnswerParts(items, aAt), i, iss);
    var root: Path := [];
    assert root + [Key("answers")] == [Key("answers")];
    assert iss in AnswersField(v.fields, []).issues;
    ShapeIssuesKept(v, [], iss);
  }

  /**
   * When every field is well typed, a count of correct answers other than one is reported at
   * `answers` with the refinement's message.
   */
  lemma WrongCorrectCountRejected(v: Value)
    requires ShapeTyped(v) && MarkedCorrect(Get(v.fields, "answers").items) != 1
    ensures SafeParseQuestion(v).Err?
    ensures Issue([Key("answers")], NotExactlyOneCorrect) in SafeParseQuestion(v).error
  {
    ShapeTypedParses(v, []);
    var items := Get(v.fields, "answers").items;
    CorrectCountDecoded(items, Decode(v).answers);
    var root: Path := [];
    assert root + [Key("answers")] == [Key("answers")];
  }

  // ---------------------------------------------------------------------------------------
  // The save request schema `{ questions: questionSchema[] }`.

  predicate SaveAccepts(v: Value)
  {
    v.Obj? && Get(v.fields, "questions").Arr? &&
    forall i :: 0 <= i < |Get(v.fields, "questions").items| ==> Accepts(Get(v.fields, "questions").items[i])
  }

  /** A merged result is clean exactly when every element is. */
  lemma {:induction false} CombineClean<T>(parts: seq<Parse<T>>)
    ensures var c := Combine(parts);
      (c.value.Some? && c.issues == []) <==> forall i :: 0 <= i < |parts| ==> parts[i].value.Some? && parts[i].issues == []
  {
    if parts != [] {
      var init := parts[..|parts| - 1];
      CombineClean(init);
      assert forall i :: 0 <= i < |init| ==> init[i] == parts[i];
    }
  }

  /** Merging the first `n` parses extends the merge of the first `n - 1` by the `n`-th. */
  lemma CombinePrefix<T>(parts: seq<Parse<T>>, n: nat)
    requires 0 < n <= |parts|
    ensures var prev, c := Combine(parts[..n - 1]), Combine(parts[..n]);
      c.issues == prev.issues + parts[n - 1].issues &&
      (c.value.Some? <==> prev.value.Some? && parts[n - 1].value.Some?) &&
      (c.value.Some? ==> c.value.value == prev.value.value + [parts[n - 1].value.value])
  {
    assert parts[..n][..n - 1] == parts[..n - 1];
  }

  /** The merge does not abort iff no element does. */
  lemma {:induction false} CombineSome<T>(parts: seq<Parse<T>>)
    ensures Combine(parts).value.Some? <==> forall i :: 0 <= i < |parts| ==> parts[i].value.Some?
  {
    if parts != [] {
      var init := parts[..|parts| - 1];
      CombineSome(init);
      assert forall i :: 0 <= i < |init| ==> init[i] == parts[i];
    }
  }

  /** Every issue of an element is an issue of the merge. */
  lemma {:induction false} CombineIssuesKept<T>(parts: seq<Parse<T>>, i: nat, iss: Issue)
    requires i < |parts| && iss in parts[i].issues
    ensures iss in Combine(parts).issues
  {
    var init := parts[..|parts| - 1];
    if i < |init| {
      assert init[i] == parts[i];
      CombineIssuesKept(init, i, iss);
    }
  }

  /** The merged value depends only on the element values. */
  lemma {:induction false} CombineValueOnly<T>(p1: seq<Parse<T>>, p2: seq<Parse<T>>)
    requires |p1| == |p2| && forall i :: 0 <= i < |p1| ==> p1[i].value == p2[i].value
    ensures Combine(p1).value == Combine(p2).value
  {
    if p1 != [] {
      var n := |p1| - 1;
      assert forall i :: 0 <= i < n ==> p1[..n][i] == p1[i] && p2[..n][i] == p2[i];
      CombineValueOnly(p1[..n], p2[..n]);
    }
  }

  /** A merged value lists the element values in order. */
  lemma {:induction false} CombineValues<T>(parts: seq<Parse<T>>)
    requires Combine(parts).value.Some?
    ensures var vs := Combine(parts).value.value;
      |vs| == |parts| && forall i :: 0 <= i < |parts| ==> parts[i].value == Some(vs[i])
  {
    if parts != [] {
      var init := parts[..|parts| - 1];
      CombineValues(init);
      var vs := Combine(parts).value.value;
      assert vs == Combine(init).value.value + [parts[|parts| - 1].value.value];
      forall i | 0 <= i < |parts|
        ensures parts[i].value == Some(vs[i])
      {
        if i < |init| {
          assert init[i] == parts[i];
        }
      }
    }
  }

  lemma QuestionItemsClean(items: seq<Value>, at: Path)
    ensures var p := Combine(QuestionParts(items, at));
      (p.value.Some? && p.issues == []) <==> forall i :: 0 <= i < |items| ==> Accepts(items[i])
  {
    var parts := QuestionParts(items, at);
    CombineClean(parts);
    forall i | 0 <= i < |items|
      ensures (parts[i].value.Some? && parts[i].issues == []) <==> Accepts(items[i])
    {
      ParseQuestionIffAccepts(items[i], at + [Index(i)]);
    }
  }

  /** The value one answer parses to does not depend on where it sits. */
  lemma AnswerValueAnyPath(v: Value, at1: Path, at2: Path)
    ensures ParseAnswer(v, at1).value == ParseAnswer(v, at2).value
  {
  }

  /** The value an optional UUID field parses to, wherever it sits. */
  function OptionalFieldValue(v: Value): Option<Option<string>>
  {
    if v.Undefined? then Some(None) else if v.Str? then Some(Some(v.s)) else None
  }

  lemma StringFieldValue(v: Value, at: Path, message: string)
    ensures NonEmpty(StringField(v, at), at, message).value == OptionalString(v)
    ensures Uuid(StringField(v, at), at, message).value == OptionalString(v)
    ensures StringField(v, at).value == OptionalString(v)
  {
  }

  lemma OptionalUuidValue(v: Value, at: Path, message: string)
    ensures OptionalUuid(v, at, message).value == OptionalFieldValue(v)
  {
    StringFieldValue(v, at, message);
  }

  /** The scalar fields parse to values that depend only on the fields, not on the path. */
  lemma ScalarFieldValues(f: map<string, Value>, at: Path)
    ensures QuestionField(f, at).value == OptionalString(Get(f, "question"))
    ensures ExplanationField(f, at).value == OptionalString(Get(f, "explanation"))
    ensures LanguageIdField(f, at).value == OptionalString(Get(f, "languageId"))
    ensures DifficultyLevelIdField(f, at).value == OptionalFieldValue(Get(f, "difficultyLevelId"))
    ensures CategoryIdField(f, at).value == OptionalFieldValue(Get(f, "categoryId"))
  {
    StringFieldValue(Get(f, "question"), at + [Key("question")], QuestionRequired);
    StringFieldValue(Get(f, "explanation"), at + [Key("explanation")], "");
    StringFieldValue(Get(f, "languageId"), at + [Key("languageId")], InvalidLanguageId);
    OptionalUuidValue(Get(f, "difficultyLevelId"), at + [Key("difficultyLevelId")], InvalidDifficultyLevelId);
    OptionalUuidValue(Get(f, "categoryId"), at + [Key("categoryId")], InvalidCategoryId);
  }

  /** The value a question parses to does not depend on where it sits. */
  lemma ParseQuestionValueAnyPath(v: Value, at1: Path, at2: Path)
    ensures ParseQuestion(v, at1).value == ParseQuestion(v, at2).value
  {
    if v.Obj? {
      var f := v.fields;
      if Get(f, "answers").Arr? {
        var items := Get(f, "answers").items;
        var p1, p2 := AnswerParts(items, at1 + [Key("answers")]), AnswerParts(items, at2 + [Key("answers")]);
        forall i | 0 <= i < |items|
          ensures p1[i].value == p2[i].value
        {
          AnswerValueAnyPath(items[i], at1 + [Key("answers")] + [Index(i)], at2 + [Key("answers")] + [Index(i)]);
        }
        CombineValueOnly(p1, p2);
      }
      assert AnswersField(f, at1).value == AnswersField(f, at2).value;
      ScalarFieldValues(f, at1);
      ScalarFieldValues(f, at2);
      assert ParseShape(v, at1).value == ParseShape(v, at2).value;
    }
  }

  /** A question that parses cleanly somewhere parses the same on its own. */
  lemma CleanAnywhere(v: Value, at: Path)
    requires ParseQuestion(v, at).value.Some? && ParseQuestion(v, at).issues == []
    ensures SafeParseQuestion(v) == Ok(ParseQuestion(v, at).value.value)
  {
    ParseQuestionIffAccepts(v, at);
    ParseQuestionIffAccepts(v, []);
    ParseQuestionValueAnyPath(v, at, []);
  }

  /**
   * The save request is accepted exactly when it is an object whose `questions` array holds
   * only acceptable questions, and then it yields, in order, what the question schema yields
   * for each element.
   */
  lemma SafeParseSaveIffAccepts(v: Value)
    ensures SafeParseSave(v).Ok? <==> SaveAccepts(v)
    ensures SafeParseSave(v).Ok? ==>
      var items := Get(v.fields, "questions").items;
      |SafeParseSave(v).value| == |items| &&
      forall i :: 0 <= i < |items| ==> SafeParseQuestion(items[i]) == Ok(SafeParseSave(v).value[i])
  {
    if v.Obj? && Get(v.fields, "questions").Arr? {
      var items := Get(v.fields, "questions").items;
      var parts := QuestionParts(items, [Key("questions")]);
      QuestionItemsClean(items, [Key("questions")]);
      if SafeParseSave(v).Ok? {
        CombineValues(parts);
        CombineClean(parts);
        forall i | 0 <= i < |items|
          ensures SafeParseQuestion(items[i]) == Ok(SafeParseSave(v).value[i])
        {
          assert parts[i] == ParseQuestion(items[i], [Key("questions")] + [Index(i)]);
          assert parts[i].value.Some? && parts[i].issues == [];
          CleanAnywhere(items[i], [Key("questions")] + [Index(i)]);
        }
      }
    }
  }
}
