/**
 * The quiz routes of the HTTP API (backend/routes/quiz.js): validating a submitted quiz,
 * storing it question by question and choice by choice inside a transaction, replacing
 * all of a quiz's questions on update, and deleting a quiz that no live session uses.
 *
 * A transaction works on a copy of the store; a failing statement makes the route
 * return the store it started from (the rollback). Which statement fails, if any, is the
 * parameter `failAt`: statements are numbered from 0 in the order the route runs them.
 */
module QuizRoutes {
  import opened Wrappers
  import opened Store
  import Scoring

  /*** Request payloads. A missing string is "", a missing `choices` array is [],
       a missing or zero time limit or point value is 0. ***/

  datatype ChoicePayload = ChoicePayload(content: string, isCorrect: bool)
  datatype QuestionPayload = QuestionPayload(content: string, choices: seq<ChoicePayload>,
                                             imageUrl: string, timeLimit: int, points: int)
  datatype QuizPayload = QuizPayload(title: string, description: string, isPublic: bool,
                                     questions: seq<QuestionPayload>)

  /*** Validation (quiz.js, lines 45-69 and 209-225) ***/

  /** `question.choices.filter(choice => choice.isCorrect).length`. */
  function CountCorrect(cs: seq<ChoicePayload>): (n: nat)
    ensures n <= |cs|
    ensures n == 0 <==> forall k :: 0 <= k < |cs| ==> !cs[k].isCorrect
  {
    if cs == [] then 0
    else
      assert forall k :: 1 <= k < |cs| ==> cs[k] == cs[1..][k - 1];
      (if cs[0].isCorrect then 1 else 0) + CountCorrect(cs[1..])
  }

  /** The question has content and exactly four choices. */
  predicate HasShape(q: QuestionPayload) {
    q.content != "" && |q.choices| == 4
  }

  predicate QuestionAccepted(q: QuestionPayload) {
    HasShape(q) && CountCorrect(q.choices) == 1
  }

  /** Everything the server demands of a quiz before it writes anything. */
  predicate ServerAccepts(p: QuizPayload) {
    && p.title != ""
    && |p.questions| > 0
    && forall i :: 0 <= i < |p.questions| ==> QuestionAccepted(p.questions[i])
  }

  /** The outcome of validation; question numbers are 1-based, as in the error messages. */
  datatype Verdict = Accepted | MissingTitleOrQuestions
                   | NeedsContentAndFourChoices(number: nat) | NeedsOneCorrect(number: nat)

  /** The validation loop: the first failing question decides the message. */
  method Validate(p: QuizPayload) returns (v: Verdict)
    ensures v == Accepted <==> ServerAccepts(p)
    ensures v == MissingTitleOrQuestions <==> p.title == "" || p.questions == []
    ensures v.NeedsContentAndFourChoices? ==>
              && p.title != "" && 1 <= v.number <= |p.questions|
              && (forall k :: 0 <= k < v.number - 1 ==> QuestionAccepted(p.questions[k]))
              && !HasShape(p.questions[v.number - 1])
    ensures v.NeedsOneCorrect? ==>
              && p.title != "" && 1 <= v.number <= |p.questions|
              && (forall k :: 0 <= k < v.number - 1 ==> QuestionAccepted(p.questions[k]))
              && HasShape(p.questions[v.number - 1]) && CountCorrect(p.questions[v.number - 1].choices) != 1
  {
    if p.title == "" || |p.questions| == 0 {
      return MissingTitleOrQuestions;
    }
    var i := 0;
    while i < |p.questions|
      invariant 0 <= i <= |p.questions|
      invariant forall k :: 0 <= k < i ==> QuestionAccepted(p.questions[k])
    {
      var q := p.questions[i];
      if q.content == "" || |q.choices| != 4 {
        return NeedsContentAndFourChoices(i + 1);
      }
      if CountCorrect(q.choices) != 1 {
        return NeedsOneCorrect(i + 1);
      }
      i := i + 1;
    }
    return Accepted;
  }

  /*** What a quiz looks like in the store ***/

  datatype ChoiceView = ChoiceView(content: string, isCorrect: int, orderIndex: int)
  datatype QuestionView = QuestionView(content: string, imageUrl: Option<string>, timeLimitS: int,
                                       points: int, orderIndex: int, choices: seq<ChoiceView>)

  /** The rows of one question's choices, in table order (`WHERE question_id = ?`). */
  function ChoicesOf(choices: seq<ChoiceRow>, questionId: nat): (r: seq<ChoiceRow>)
    ensures forall k :: 0 <= k < |r| ==> r[k] in choices && r[k].questionId == questionId
  {
    if choices == [] then []
    else
      var last := choices[|choices| - 1];
      ChoicesOf(choices[..|choices| - 1], questionId) + (if last.questionId == questionId then [last] else [])
  }

  /** Every choice row of the question is in its list: the lookup misses none. */
  lemma {:induction false} ChoicesOfComplete(choices: seq<ChoiceRow>, questionId: nat)
    ensures forall k :: 0 <= k < |choices| && choices[k].questionId == questionId ==> choices[k] in ChoicesOf(choices, questionId)
  {
    if choices != [] {
      var init := choices[..|choices| - 1];
      ChoicesOfComplete(init, questionId);
      assert forall k :: 0 <= k < |init| ==> choices[k] == init[k];
    }
  }

  lemma ChoicesOfAppend(choices: seq<ChoiceRow>, row: ChoiceRow, questionId: nat)
    ensures ChoicesOf(choices + [row], questionId)
         == ChoicesOf(choices, questionId) + (if row.questionId == questionId then [row] else [])
  {
    assert (choices + [row])[..|choices|] == choices;
  }

  /** A question no choice row points at has no choices. */
  lemma {:induction false} NoChoicesFor(choices: seq<ChoiceRow>, questionId: nat)
    requires forall k :: 0 <= k < |choices| ==> choices[k].questionId < questionId
    ensures ChoicesOf(choices, questionId) == []
  {
    if choices != [] {
      NoChoicesFor(choices[..|choices| - 1], questionId);
    }
  }

  /** A quiz no question row points at has no questions. */
  lemma {:induction false} NoQuestionsFor(questions: seq<QuestionRow>, quizId: nat)
    requires forall k :: 0 <= k < |questions| ==> questions[k].quizId < quizId
    ensures QuestionsOf(questions, quizId) == []
  {
    if questions != [] {
      NoQuestionsFor(questions[..|questions| - 1], quizId);
    }
  }

  function ChoiceViews(cs: seq<ChoiceRow>): seq<ChoiceView> {
    seq(|cs|, k requires 0 <= k < |cs| => ChoiceView(cs[k].content, cs[k].isCorrect, cs[k].orderIndex))
  }

  function ViewOf(q: QuestionRow, choices: seq<ChoiceRow>): QuestionView {
    QuestionView(q.content, q.imageUrl, q.timeLimitS, q.points, q.orderIndex, ChoiceViews(ChoicesOf(choices, q.id)))
  }

  function Views(rows: seq<QuestionRow>, choices: seq<ChoiceRow>): seq<QuestionView> {
    seq(|rows|, k requires 0 <= k < |rows| => ViewOf(rows[k], choices))
  }

  /** A quiz's questions with their choices, as the store holds them. */
  function StoredQuiz(db: Db, quizId: nat): seq<QuestionView> {
    Views(QuestionsOf(db.questions, quizId), db.choices)
  }

  /*** What the routes promise to store for a payload ***/

  /** `question.imageUrl || null`. */
  function ImageUrlOf(s: string): Option<string> {
    if s == "" then None else Some(s)
  }

  /** Choice j is stored with `is_correct` 1 or 0 and `order_index` j + 1. */
  function NormalizedChoices(cs: seq<ChoicePayload>): seq<ChoiceView> {
    seq(|cs|, j requires 0 <= j < |cs| => ChoiceView(cs[j].content, if cs[j].isCorrect then 1 else 0, j + 1))
  }

  /** A question is stored with the defaults 20 s and 1000 points and no image for "". */
  function NormalizedQuestion(q: QuestionPayload, orderIndex: int): (v: QuestionView)
    ensures v.content == q.content && v.orderIndex == orderIndex
    ensures v.imageUrl.None? <==> q.imageUrl == ""
    ensures v.timeLimitS == (if q.timeLimit == 0 then 20 else q.timeLimit)
    ensures v.points == (if q.points == 0 then 1000 else q.points)
    ensures |v.choices| == |q.choices|
    ensures forall j :: 0 <= j < |q.choices| ==>
              && v.choices[j].content == q.choices[j].content
              && (v.choices[j].isCorrect == 1 <==> q.choices[j].isCorrect)
              && v.choices[j].orderIndex == j + 1
  {
    QuestionView(q.content, ImageUrlOf(q.imageUrl),
                 Scoring.OrDefault(q.timeLimit, Scoring.DefaultTimeLimitS),
                 Scoring.OrDefault(q.points, Scoring.DefaultPoints),
                 orderIndex, NormalizedChoices(q.choices))
  }

  /** Question i is stored with `order_index` i + 1. */
  function Normalized(qs: seq<QuestionPayload>): (vs: seq<QuestionView>)
    ensures |vs| == |qs|
    ensures forall i :: 0 <= i < |qs| ==> vs[i].orderIndex == i + 1 && vs[i].content == qs[i].content
  {
    seq(|qs|, i requires 0 <= i < |qs| => NormalizedQuestion(qs[i], i + 1))
  }

  /*** The store's auto-increment guarantees ***/

  /** Every stored id is below the counter, question ids grow in table order, and every
      question and choice points at an id the counter has already handed out. */
  predicate WellFormed(db: Db) {
    && (forall k :: 0 <= k < |db.quizzes| ==> db.quizzes[k].id < db.nextId)
    && (forall k :: 0 <= k < |db.questions| ==> db.questions[k].id < db.nextId && db.questions[k].quizId < db.nextId)
    && IdsIncreasing(db.questions)
    && (forall k :: 0 <= k < |db.choices| ==> db.choices[k].questionId < db.nextId)
  }

  /** Question ids grow in table order, so no two rows share one. */
  predicate IdsIncreasing(questions: seq<QuestionRow>) {
    forall i, j :: 0 <= i < j < |questions| ==> questions[i].id < questions[j].id
  }

  predicate QuizExists(quizzes: seq<QuizRow>, id: nat) {
    exists k :: 0 <= k < |quizzes| && quizzes[k].id == id
  }

  /*** Inserting rows ***/

  /** `t'` is `t` with rows appended to `questions` and `choices` only, every appended
      question and choice pointing at an id `t` had not yet handed out. */
  predicate Extends(t: Db, t': Db) {
    && t' == t.(questions := t'.questions, choices := t'.choices, nextId := t'.nextId)
    && t'.nextId >= t.nextId
    && |t'.questions| >= |t.questions| && t'.questions[..|t.questions|] == t.questions
    && (forall k :: |t.questions| <= k < |t'.questions| ==> t'.questions[k].id >= t.nextId)
    && |t'.choices| >= |t.choices| && t'.choices[..|t.choices|] == t.choices
    && (forall k :: |t.choices| <= k < |t'.choices| ==> t'.choices[k].questionId >= t.nextId)
  }

  lemma ExtendsTrans(t0: Db, t1: Db, t2: Db)
    requires Extends(t0, t1) && Extends(t1, t2)
    ensures Extends(t0, t2)
  {
    assert t2.questions[..|t0.questions|] == t2.questions[..|t1.questions|][..|t0.questions|];
    assert t2.choices[..|t0.choices|] == t2.choices[..|t1.choices|][..|t0.choices|];
    forall k | |t0.questions| <= k < |t2.questions| ensures t2.questions[k].id >= t0.nextId {
      if k < |t1.questions| {
        assert t2.questions[k] == t2.questions[..|t1.questions|][k];
      }
    }
    forall k | |t0.choices| <= k < |t2.choices| ensures t2.choices[k].questionId >= t0.nextId {
      if k < |t1.choices| {
        assert t2.choices[k] == t2.choices[..|t1.choices|][k];
      }
    }
  }

  lemma ChoiceViewsAppend(cs: seq<ChoiceRow>, row: ChoiceRow)
    ensures ChoiceViews(cs + [row]) == ChoiceViews(cs) + [ChoiceView(row.content, row.isCorrect, row.orderIndex)]
  {
  }

  /** A question row with a fresh id keeps the store well formed, and has no choices yet. */
  lemma AddQuestionRow(t: Db, row: QuestionRow)
    requires WellFormed(t) && row.id == t.nextId && row.quizId < t.nextId
    ensures ChoicesOf(t.choices, row.id) == []
    ensures WellFormed(t.(questions := t.questions + [row], nextId := t.nextId + 1))
  {
    var t1 := t.(questions := t.questions + [row], nextId := t.nextId + 1);
    forall i, j | 0 <= i < j < |t1.questions| ensures t1.questions[i].id < t1.questions[j].id {
      assert t1.questions[i] == t.questions[i];
      if j < |t.questions| {
        assert t1.questions[j] == t.questions[j];
      }
    }
    NoChoicesFor(t.choices, row.id);
  }

  /** Choices added for the newest question change only that question's view. */
  lemma ViewsAfterChoices(init: seq<QuestionRow>, row: QuestionRow, c1: seq<ChoiceRow>, c2: seq<ChoiceRow>, quizId: nat)
    requires forall k :: 0 <= k < |init| ==> init[k].id < row.id
    requires forall id :: id != row.id ==> ChoicesOf(c2, id) == ChoicesOf(c1, id)
    ensures Views(QuestionsOf(init + [row], quizId), c2)
         == Views(QuestionsOf(init, quizId), c1) + (if row.quizId == quizId then [ViewOf(row, c2)] else [])
  {
    QuestionsOfAppend(init, row, quizId);
    var rows := QuestionsOf(init, quizId);
    forall k | 0 <= k < |rows| ensures ViewOf(rows[k], c2) == ViewOf(rows[k], c1) {
      assert rows[k] in init;
      assert rows[k].id != row.id;
    }
    ViewsAgree(rows, c1, c2);
    ViewsAppend(rows, row, c2);
  }

  /** Rows that view the same under two choice tables give the same views. */
  lemma ViewsAgree(rows: seq<QuestionRow>, c1: seq<ChoiceRow>, c2: seq<ChoiceRow>)
    requires forall k :: 0 <= k < |rows| ==> ViewOf(rows[k], c2) == ViewOf(rows[k], c1)
    ensures Views(rows, c2) == Views(rows, c1)
  {
  }

  /** One more row gives one more view. */
  lemma ViewsAppend(rows: seq<QuestionRow>, row: QuestionRow, choices: seq<ChoiceRow>)
    ensures Views(rows + [row], choices) == Views(rows, choices) + [ViewOf(row, choices)]
  {
  }

  /** Choices of an already issued question id keep the store well formed. */
  lemma ChoicesKeepWellFormed(t1: Db, t2: Db, questionId: nat)
    requires WellFormed(t1) && questionId < t1.nextId
    requires t2 == t1.(choices := t2.choices, nextId := t2.nextId) && t2.nextId >= t1.nextId
    requires |t2.choices| >= |t1.choices| && t2.choices[..|t1.choices|] == t1.choices
    requires forall k :: |t1.choices| <= k < |t2.choices| ==> t2.choices[k].questionId == questionId
    ensures WellFormed(t2)
  {
    forall k | 0 <= k < |t2.choices| ensures t2.choices[k].questionId < t2.nextId {
      if k < |t1.choices| {
        assert t2.choices[k] == t2.choices[..|t1.choices|][k];
      }
    }
  }

  /** A choice row of question `questionId` leaves every other question's choices alone. */
  lemma OtherChoicesKept(before: seq<ChoiceRow>, cur: seq<ChoiceRow>, questionId: nat, row: ChoiceRow)
    requires row.questionId == questionId
    requires forall id :: id != questionId ==> ChoicesOf(cur, id) == ChoicesOf(before, id)
    ensures forall id :: id != questionId ==> ChoicesOf(cur + [row], id) == ChoicesOf(before, id)
  {
    forall id | id != questionId
      ensures ChoicesOf(cur + [row], id) == ChoicesOf(before, id)
    {
      ChoicesOfAppend(cur, row, id);
    }
  }

  /** Storing choice j of question `questionId` as the next row extends that question's
      view by the normalised choice j. */
  lemma ChoiceViewStep(prefix: seq<ChoiceView>, cur: seq<ChoiceRow>, questionId: nat, cs: seq<ChoicePayload>, j: nat, row: ChoiceRow)
    requires j < |cs|
    requires row.questionId == questionId && row.content == cs[j].content
    requires row.isCorrect == (if cs[j].isCorrect then 1 else 0) && row.orderIndex == j + 1
    requires ChoiceViews(ChoicesOf(cur, questionId)) == prefix + NormalizedChoices(cs)[..j]
    ensures ChoiceViews(ChoicesOf(cur + [row], questionId)) == prefix + NormalizedChoices(cs)[..j + 1]
  {
    var nc := NormalizedChoices(cs);
    ChoicesOfAppend(cur, row, questionId);
    ChoiceViewsAppend(ChoicesOf(cur, questionId), row);
    assert nc[j] == ChoiceView(row.content, row.isCorrect, row.orderIndex);
    assert nc[..j + 1] == nc[..j] + [nc[j]];
    assert prefix + nc[..j + 1] == (prefix + nc[..j]) + [nc[j]];
  }

  /** The inner loop of the insertion: choice j of one question, `order_index` j + 1. */
  method InsertChoices(tx: Db, questionId: nat, cs: seq<ChoicePayload>, n: nat, failAt: Option<nat>)
    returns (tx': Db, n': nat, ok: bool)
    ensures failAt.None? ==> ok
    ensures ok ==> n' == n + |cs|
    ensures ok ==> tx' == tx.(choices := tx'.choices, nextId := tx'.nextId) && tx'.nextId >= tx.nextId
    ensures ok ==> |tx'.choices| >= |tx.choices| && tx'.choices[..|tx.choices|] == tx.choices
    ensures ok ==> forall k :: |tx.choices| <= k < |tx'.choices| ==> tx'.choices[k].questionId == questionId
    ensures ok ==> forall id :: id != questionId ==> ChoicesOf(tx'.choices, id) == ChoicesOf(tx.choices, id)
    ensures ok ==> (ChoiceViews(ChoicesOf(tx'.choices, questionId))
                    == ChoiceViews(ChoicesOf(tx.choices, questionId)) + NormalizedChoices(cs))
  {
    tx', n', ok := tx, n, true;
    var j := 0;
    while j < |cs|
      invariant 0 <= j <= |cs|
      invariant n' == n + j
      invariant tx' == tx.(choices := tx'.choices, nextId := tx'.nextId) && tx'.nextId >= tx.nextId
      invariant |tx'.choices| == |tx.choices| + j && tx'.choices[..|tx.choices|] == tx.choices
      invariant forall k :: |tx.choices| <= k < |tx'.choices| ==> tx'.choices[k].questionId == questionId
      invariant forall id :: id != questionId ==> ChoicesOf(tx'.choices, id) == ChoicesOf(tx.choices, id)
      invariant ChoiceViews(ChoicesOf(tx'.choices, questionId))
             == ChoiceViews(ChoicesOf(tx.choices, questionId)) + NormalizedChoices(cs)[..j]
    {
      if failAt == Some(n') {
        return tx', n', false;
      }
      var c := cs[j];
      var row := ChoiceRow(tx'.nextId, questionId, c.content, if c.isCorrect then 1 else 0, j + 1);
      OtherChoicesKept(tx.choices, tx'.choices, questionId, row);
      ChoiceViewStep(ChoiceViews(ChoicesOf(tx.choices, questionId)), tx'.choices, questionId, cs, j, row);
      assert (tx'.choices + [row])[..|tx.choices|] == tx'.choices[..|tx.choices|];
      tx' := tx'.(choices := tx'.choices + [row], nextId := tx'.nextId + 1);
      n' := n' + 1;
      j := j + 1;
    }
    assert NormalizedChoices(cs)[..|cs|] == NormalizedChoices(cs);
  }

  /** One pass of the outer loop: the question row, then its choices. */
  method InsertQuestion(tx: Db, quizId: nat, q: QuestionPayload, orderIndex: int, n: nat, failAt: Option<nat>)
    returns (tx': Db, n': nat, ok: bool)
    requires WellFormed(tx) && quizId < tx.nextId
    ensures failAt.None? ==> ok
    ensures ok ==> WellFormed(tx') && Extends(tx, tx')
    ensures ok ==> StoredQuiz(tx', quizId) == StoredQuiz(tx, quizId) + [NormalizedQuestion(q, orderIndex)]
    ensures ok ==> forall other :: other != quizId ==> StoredQuiz(tx', other) == StoredQuiz(tx, other)
  {
    if failAt == Some(n) {
      return tx, n, false;
    }
    var qid := tx.nextId;
    var row := QuestionRow(qid, quizId, q.content, ImageUrlOf(q.imageUrl),
                           Scoring.OrDefault(q.timeLimit, Scoring.DefaultTimeLimitS),
                           Scoring.OrDefault(q.points, Scoring.DefaultPoints), orderIndex);
    AddQuestionRow(tx, row);
    var t1 := tx.(questions := tx.questions + [row], nextId := qid + 1);
    tx', n', ok := InsertChoices(t1, qid, q.choices, n + 1, failAt);
    if !ok {
      return;
    }
    ChoicesKeepWellFormed(t1, tx', qid);
    QuestionInserted(tx, row, q, tx');
    assert Extends(tx, tx') by {
      assert tx'.questions[..|tx.questions|] == tx.questions;
      assert tx'.choices[..|tx.choices|] == tx.choices;
    }
  }

  /** The views after one question row and its choices went in. */
  lemma QuestionInserted(tx: Db, row: QuestionRow, q: QuestionPayload, tx': Db)
    requires WellFormed(tx) && row.id == tx.nextId && row.quizId < tx.nextId
    requires row.content == q.content && row.imageUrl == ImageUrlOf(q.imageUrl)
    requires row.timeLimitS == Scoring.OrDefault(q.timeLimit, Scoring.DefaultTimeLimitS)
    requires row.points == Scoring.OrDefault(q.points, Scoring.DefaultPoints)
    requires tx'.questions == tx.questions + [row]
    requires forall id :: id != row.id ==> ChoicesOf(tx'.choices, id) == ChoicesOf(tx.choices, id)
    requires ChoiceViews(ChoicesOf(tx'.choices, row.id)) == ChoiceViews(ChoicesOf(tx.choices, row.id)) + NormalizedChoices(q.choices)
    ensures StoredQuiz(tx', row.quizId) == StoredQuiz(tx, row.quizId) + [NormalizedQuestion(q, row.orderIndex)]
    ensures forall other :: other != row.quizId ==> StoredQuiz(tx', other) == StoredQuiz(tx, other)
  {
    AddQuestionRow(tx, row);
    forall other | other != row.quizId ensures StoredQuiz(tx', other) == StoredQuiz(tx, other) {
      ViewsAfterChoices(tx.questions, row, tx.choices, tx'.choices, other);
    }
    ViewsAfterChoices(tx.questions, row, tx.choices, tx'.choices, row.quizId);
    assert ViewOf(row, tx'.choices) == NormalizedQuestion(q, row.orderIndex);
  }

  /** The outer loop of the insertion: question i gets `order_index` i + 1. It appends
      exactly the submitted questions to the quiz and touches no other quiz. */
  method InsertQuestions(tx: Db, quizId: nat, qs: seq<QuestionPayload>, n: nat, failAt: Option<nat>)
    returns (tx': Db, n': nat, ok: bool)
    requires WellFormed(tx) && quizId < tx.nextId
    ensures failAt.None? ==> ok
    ensures ok ==> WellFormed(tx') && Extends(tx, tx')
    ensures ok ==> StoredQuiz(tx', quizId) == StoredQuiz(tx, quizId) + Normalized(qs)
    ensures ok ==> forall other :: other != quizId ==> StoredQuiz(tx', other) == StoredQuiz(tx, other)
  {
    tx', n', ok := tx, n, true;
    var i := 0;
    while i < |qs|
      invariant 0 <= i <= |qs|
      invariant WellFormed(tx') && Extends(tx, tx')
      invariant StoredQuiz(tx', quizId) == StoredQuiz(tx, quizId) + Normalized(qs)[..i]
      invariant forall other :: other != quizId ==> StoredQuiz(tx', other) == StoredQuiz(tx, other)
    {
      var t2, n2, ok2 := InsertQuestion(tx', quizId, qs[i], i + 1, n', failAt);
      if !ok2 {
        return t2, n2, false;
      }
      ExtendsTrans(tx, tx', t2);
      assert Normalized(qs)[..i + 1] == Normalized(qs)[..i] + [Normalized(qs)[i]];
      tx', n' := t2, n2;
      i := i + 1;
    }
    assert Normalized(qs)[..|qs|] == Normalized(qs);
  }

  /*** Deleting rows ***/

  /** `DELETE FROM questions WHERE quiz_id = ?`. */
  function DropQuestions(questions: seq<QuestionRow>, quizId: nat): (r: seq<QuestionRow>)
    ensures forall k :: 0 <= k < |r| ==> r[k] in questions && r[k].quizId != quizId
  {
    if questions == [] then []
    else
      var last := questions[|questions| - 1];
      DropQuestions(questions[..|questions| - 1], quizId) + (if last.quizId != quizId then [last] else [])
  }

  /** `SELECT id FROM questions WHERE quiz_id = ?`. */
  function QuestionIds(questions: seq<QuestionRow>, quizId: nat): set<nat> {
    set k | 0 <= k < |questions| && questions[k].quizId == quizId :: questions[k].id
  }

  /** `DELETE FROM choices WHERE question_id IN (...)`. */
  function DropChoices(choices: seq<ChoiceRow>, ids: set<nat>): (r: seq<ChoiceRow>)
    ensures forall k :: 0 <= k < |r| ==> r[k] in choices && r[k].questionId !in ids
  {
    if choices == [] then []
    else
      var last := choices[|choices| - 1];
      DropChoices(choices[..|choices| - 1], ids) + (if last.questionId !in ids then [last] else [])
  }

  /** `DELETE FROM quizzes WHERE id = ?`. */
  function DropQuiz(quizzes: seq<QuizRow>, id: nat): (r: seq<QuizRow>)
    ensures forall k :: 0 <= k < |r| ==> r[k] in quizzes && r[k].id != id
    ensures forall k :: 0 <= k < |quizzes| && quizzes[k].id != id ==> quizzes[k] in r
  {
    if quizzes == [] then []
    else
      var last := quizzes[|quizzes| - 1];
      var init := quizzes[..|quizzes| - 1];
      assert forall k :: 0 <= k < |init| ==> init[k] == quizzes[k];
      DropQuiz(init, id) + (if last.id != id then [last] else [])
  }

  /** After the delete the quiz has no questions and every other quiz keeps its own. */
  lemma {:induction false} DropQuestionsOf(questions: seq<QuestionRow>, quizId: nat, other: nat)
    ensures QuestionsOf(DropQuestions(questions, quizId), other)
         == if other == quizId then [] else QuestionsOf(questions, other)
  {
    if questions != [] {
      var init := questions[..|questions| - 1];
      var last := questions[|questions| - 1];
      DropQuestionsOf(init, quizId, other);
      assert QuestionsOf(questions, other) == QuestionsOf(init, other) + (if last.quizId == other then [last] else []);
      if last.quizId != quizId {
        assert DropQuestions(questions, quizId) == DropQuestions(init, quizId) + [last];
        QuestionsOfAppend(DropQuestions(init, quizId), last, other);
      } else {
        assert DropQuestions(questions, quizId) == DropQuestions(init, quizId);
      }
    }
  }

  /** After the delete the dropped ids have no choices and every other id keeps its own. */
  lemma {:induction false} DropChoicesOf(choices: seq<ChoiceRow>, ids: set<nat>, id: nat)
    ensures ChoicesOf(DropChoices(choices, ids), id) == if id in ids then [] else ChoicesOf(choices, id)
  {
    if choices != [] {
      var init := choices[..|choices| - 1];
      var last := choices[|choices| - 1];
      DropChoicesOf(init, ids, id);
      assert ChoicesOf(choices, id) == ChoicesOf(init, id) + (if last.questionId == id then [last] else []);
      if last.questionId !in ids {
        assert DropChoices(choices, ids) == DropChoices(init, ids) + [last];
        ChoicesOfAppend(DropChoices(init, ids), last, id);
      } else {
        assert DropChoices(choices, ids) == DropChoices(init, ids);
      }
    }
  }

  /** Dropping rows keeps question ids increasing in table order. */
  lemma {:induction false} DropQuestionsIncreasing(questions: seq<QuestionRow>, quizId: nat)
    requires IdsIncreasing(questions)
    ensures IdsIncreasing(DropQuestions(questions, quizId))
  {
    if questions != [] {
      var init := questions[..|questions| - 1];
      var last := questions[|questions| - 1];
      assert IdsIncreasing(init) by {
        assert forall k :: 0 <= k < |init| ==> init[k] == questions[k];
      }
      DropQuestionsIncreasing(init, quizId);
      var d := DropQuestions(init, quizId);
      forall k | 0 <= k < |d| ensures d[k].id < last.id {
        var m :| 0 <= m < |init| && init[m] == d[k];
        assert init[m] == questions[m];
      }
      var r := DropQuestions(questions, quizId);
      assert r == d + (if last.quizId != quizId then [last] else []);
      forall i, j | 0 <= i < j < |r| ensures r[i].id < r[j].id {
        assert r[i] == d[i];
        if j < |d| {
          assert r[j] == d[j];
        } else {
          assert r[j] == last;
        }
      }
    }
  }

  /** The store after removing a quiz's questions and the choices of those questions. */
  function WithoutQuestionsOf(db: Db, quizId: nat): Db {
    db.(questions := DropQuestions(db.questions, quizId),
        choices := DropChoices(db.choices, QuestionIds(db.questions, quizId)))
  }

  lemma DropKeepsWellFormed(db: Db, quizId: nat)
    requires WellFormed(db)
    ensures WellFormed(WithoutQuestionsOf(db, quizId))
  {
    DropQuestionsIncreasing(db.questions, quizId);
  }

  /** Another quiz keeps all its questions and their choices: question ids are unique, so
      none of its questions is among the removed ones. */
  lemma DropKeepsOtherQuiz(db: Db, quizId: nat, other: nat)
    requires WellFormed(db) && other != quizId
    ensures StoredQuiz(WithoutQuestionsOf(db, quizId), other) == StoredQuiz(db, other)
  {
    var ids := QuestionIds(db.questions, quizId);
    var db' := WithoutQuestionsOf(db, quizId);
    DropQuestionsOf(db.questions, quizId, other);
    var rows := QuestionsOf(db.questions, other);
    forall k | 0 <= k < |rows| ensures ViewOf(rows[k], db'.choices) == ViewOf(rows[k], db.choices) {
      OtherQuestionKept(db.questions, quizId, rows[k]);
      DropChoicesOf(db.choices, ids, rows[k].id);
    }
  }

  lemma OtherQuestionKept(questions: seq<QuestionRow>, quizId: nat, row: QuestionRow)
    requires IdsIncreasing(questions)
    requires row in questions && row.quizId != quizId
    ensures row.id !in QuestionIds(questions, quizId)
  {
    var m :| 0 <= m < |questions| && questions[m] == row;
    forall k | 0 <= k < |questions| && questions[k].quizId == quizId ensures questions[k].id != row.id {
      assert k != m;
    }
  }

  /** Removing a quiz's questions leaves it with none, every other quiz as it was, and
      no choice of a removed question. */
  lemma DropQuizRows(db: Db, quizId: nat)
    requires WellFormed(db)
    ensures var db' := WithoutQuestionsOf(db, quizId);
            && WellFormed(db')
            && StoredQuiz(db', quizId) == []
            && (forall other :: other != quizId ==> StoredQuiz(db', other) == StoredQuiz(db, other))
            && (forall k :: 0 <= k < |db'.choices| ==> db'.choices[k].questionId !in QuestionIds(db.questions, quizId))
  {
    DropKeepsWellFormed(db, quizId);
    DropQuestionsOf(db.questions, quizId, quizId);
    forall other | other != quizId
      ensures StoredQuiz(WithoutQuestionsOf(db, quizId), other) == StoredQuiz(db, other)
    {
      DropKeepsOtherQuiz(db, quizId, other);
    }
  }

  /*** The routes ***/

  datatype SaveResult = Rejected(verdict: Verdict) | SaveFailed | Saved(quizId: nat, questionCount: nat)
  {
    /** 400 for a rejected payload, 500 after a rollback, 201 or 200 once stored. */
    function Status(created: bool): int {
      match this
      case Rejected(_) => 400
      case SaveFailed => 500
      case Saved(_, _) => if created then 201 else 200
    }
  }

  /** POST /api/quiz (quiz.js, lines 39-129). */
  method CreateQuiz(db: Db, userId: nat, p: QuizPayload, failAt: Option<nat>) returns (r: SaveResult, db': Db)
    requires WellFormed(db)
    ensures r.Rejected? <==> !ServerAccepts(p)
    ensures r.SaveFailed? ==> failAt.Some?
    ensures !r.Saved? ==> db' == db
    ensures r.Saved? ==>
              && WellFormed(db')
              && r.quizId == db.nextId && r.questionCount == |p.questions|
              && db'.quizzes == db.quizzes + [QuizRow(db.nextId, userId, p.title, p.description, p.isPublic)]
              && StoredQuiz(db', r.quizId) == Normalized(p.questions)
              && (forall other :: other != r.quizId ==> StoredQuiz(db', other) == StoredQuiz(db, other))
              && db'.sessions == db.sessions && db'.players == db.players && db'.answers == db.answers
  {
    var v := Validate(p);
    if v != Accepted {
      return Rejected(v), db;
    }
    if failAt == Some(0) {
      return SaveFailed, db;
    }
    var quizId := db.nextId;
    var tx := db.(quizzes := db.quizzes + [QuizRow(quizId, userId, p.title, p.description, p.isPublic)],
                  nextId := quizId + 1);
    NoQuestionsFor(tx.questions, quizId);
    var tx', _, ok := InsertQuestions(tx, quizId, p.questions, 1, failAt);
    if !ok {
      return SaveFailed, db;
    }
    return Saved(quizId, |p.questions|), tx';
  }

  /** `UPDATE quizzes SET title = ?, description = ?, is_public = ? WHERE id = ?`. */
  function SetQuizFields(quizzes: seq<QuizRow>, id: nat, title: string, description: string, isPublic: bool): (r: seq<QuizRow>)
    ensures |r| == |quizzes|
    ensures forall k :: 0 <= k < |r| ==>
              r[k] == if quizzes[k].id == id then quizzes[k].(title := title, description := description, isPublic := isPublic)
                      else quizzes[k]
  {
    if quizzes == [] then []
    else [if quizzes[0].id == id then quizzes[0].(title := title, description := description, isPublic := isPublic) else quizzes[0]]
         + SetQuizFields(quizzes[1..], id, title, description, isPublic)
  }

  /** PUT /api/quiz/:id (quiz.js, lines 203-284), reached only after the ownership check,
      so the quiz exists. On success the quiz holds exactly the submitted questions: no
      earlier question of it survives, and no choice of an earlier question either. */
  method UpdateQuiz(db: Db, quizId: nat, p: QuizPayload, failAt: Option<nat>) returns (r: SaveResult, db': Db)
    requires WellFormed(db) && QuizExists(db.quizzes, quizId)
    ensures r.Rejected? <==> !ServerAccepts(p)
    ensures r.SaveFailed? ==> failAt.Some?
    ensures !r.Saved? ==> db' == db
    ensures r.Saved? ==>
              && WellFormed(db')
              && r.quizId == quizId && r.questionCount == |p.questions|
              && db'.quizzes == SetQuizFields(db.quizzes, quizId, p.title, p.description, p.isPublic)
              && StoredQuiz(db', quizId) == Normalized(p.questions)
              && (forall other :: other != quizId ==> StoredQuiz(db', other) == StoredQuiz(db, other))
              && (forall k :: 0 <= k < |db'.questions| && db'.questions[k].quizId == quizId ==> db'.questions[k].id >= db.nextId)
              && (forall k :: 0 <= k < |db'.choices| ==> db'.choices[k].questionId !in QuestionIds(db.questions, quizId))
              && db'.sessions == db.sessions && db'.players == db.players && db'.answers == db.answers
  {
    var v := Validate(p);
    if v != Accepted {
      return Rejected(v), db;
    }
    if failAt == Some(0) {
      return SaveFailed, db;
    }
    var tx := db.(quizzes := SetQuizFields(db.quizzes, quizId, p.title, p.description, p.isPublic));
    if failAt == Some(1) {
      return SaveFailed, db;
    }
    var ids := QuestionIds(tx.questions, quizId);
    tx := tx.(choices := DropChoices(tx.choices, ids));
    if failAt == Some(2) {
      return SaveFailed, db;
    }
    tx := tx.(questions := DropQuestions(tx.questions, quizId));
    assert tx == WithoutQuestionsOf(db, quizId).(quizzes := SetQuizFields(db.quizzes, quizId, p.title, p.description, p.isPublic));
    ClearedForUpdate(db, quizId, p.title, p.description, p.isPublic);
    var tx', _, ok := InsertQuestions(tx, quizId, p.questions, 3, failAt);
    if !ok {
      return SaveFailed, db;
    }
    QuestionsReplaced(db, quizId, p.questions, tx, tx');
    return Saved(quizId, |p.questions|), tx';
  }

  /** After the replace, every question of the quiz and every choice pointing at one of its
      former questions is a row the transaction inserted. */
  /** The store after the quiz's fields are set and its questions and choices deleted is well
      formed, and the quiz's id is already issued. */
  lemma ClearedForUpdate(db: Db, quizId: nat, title: string, description: string, isPublic: bool)
    requires WellFormed(db) && QuizExists(db.quizzes, quizId)
    ensures var tx := WithoutQuestionsOf(db, quizId).(quizzes := SetQuizFields(db.quizzes, quizId, title, description, isPublic));
            WellFormed(tx) && quizId < tx.nextId
  {
    DropKeepsWellFormed(db, quizId);
    var k :| 0 <= k < |db.quizzes| && db.quizzes[k].id == quizId;
    var quizzes := SetQuizFields(db.quizzes, quizId, title, description, isPublic);
    assert forall j :: 0 <= j < |quizzes| ==> quizzes[j].id == db.quizzes[j].id;
  }

  /** Deleting a quiz's questions and then inserting `qs` leaves exactly the normalised `qs` as
      that quiz's questions, every other quiz as stored, and only fresh rows behind them. */
  lemma QuestionsReplaced(db: Db, quizId: nat, qs: seq<QuestionPayload>, tx: Db, tx': Db)
    requires WellFormed(db)
    requires tx == WithoutQuestionsOf(db, quizId).(quizzes := tx.quizzes)
    requires Extends(tx, tx')
    requires StoredQuiz(tx', quizId) == StoredQuiz(tx, quizId) + Normalized(qs)
    requires forall other :: other != quizId ==> StoredQuiz(tx', other) == StoredQuiz(tx, other)
    ensures StoredQuiz(tx', quizId) == Normalized(qs)
    ensures forall other :: other != quizId ==> StoredQuiz(tx', other) == StoredQuiz(db, other)
    ensures forall k :: 0 <= k < |tx'.questions| && tx'.questions[k].quizId == quizId ==> tx'.questions[k].id >= db.nextId
    ensures forall k :: 0 <= k < |tx'.choices| ==> tx'.choices[k].questionId !in QuestionIds(db.questions, quizId)
  {
    DropQuizRows(db, quizId);
    forall q ensures StoredQuiz(tx, q) == StoredQuiz(WithoutQuestionsOf(db, quizId), q) {
    }
    assert StoredQuiz(tx, quizId) == [];
    ReplacedRowsAreFresh(db, quizId, tx, tx');
  }

  lemma ReplacedRowsAreFresh(db: Db, quizId: nat, tx: Db, tx': Db)
    requires WellFormed(db)
    requires tx == WithoutQuestionsOf(db, quizId).(quizzes := tx.quizzes)
    requires tx.nextId == db.nextId && Extends(tx, tx')
    ensures forall k :: 0 <= k < |tx'.questions| && tx'.questions[k].quizId == quizId ==> tx'.questions[k].id >= db.nextId
    ensures forall k :: 0 <= k < |tx'.choices| ==> tx'.choices[k].questionId !in QuestionIds(db.questions, quizId)
  {
    var ids := QuestionIds(db.questions, quizId);
    forall k | 0 <= k < |tx'.questions| && tx'.questions[k].quizId == quizId
      ensures tx'.questions[k].id >= db.nextId
    {
      if k < |tx.questions| {
        assert false;
      }
    }
    forall k | 0 <= k < |tx'.choices| ensures tx'.choices[k].questionId !in ids {
      if k < |tx.choices| {
        assert tx'.choices[k] == tx'.choices[..|tx.choices|][k];
        assert tx.choices[k] in tx.choices;
      } else {
        forall m | 0 <= m < |db.questions| && db.questions[m].quizId == quizId
          ensures db.questions[m].id != tx'.choices[k].questionId
        {
        }
      }
    }
  }

  /** `status IN ("active", "playing", "waiting", "in_progress")`. */
  predicate IsLiveStatus(status: string) {
    status == "active" || status == "playing" || status == Waiting || status == InProgress
  }

  /** Some session of the quiz is still live. */
  predicate HasLiveSession(sessions: seq<SessionRow>, quizId: nat) {
    exists k :: 0 <= k < |sessions| && sessions[k].quizId == quizId && IsLiveStatus(sessions[k].status)
  }

  datatype DeleteResult = QuizInUse | DeleteFailed | QuizDeleted
  {
    function Status(): int {
      match this
      case QuizInUse => 400
      case DeleteFailed => 500
      case QuizDeleted => 200
    }
  }

  /** DELETE /api/quiz/:id (quiz.js, lines 287-321), reached only after the ownership check. */
  method DeleteQuiz(db: Db, quizId: nat, failAt: Option<nat>) returns (r: DeleteResult, db': Db)
    requires WellFormed(db)
    ensures r == QuizInUse <==> HasLiveSession(db.sessions, quizId)
    ensures r == DeleteFailed ==> failAt.Some?
    ensures r != QuizDeleted ==> db' == db
    ensures r == QuizDeleted ==>
              && WellFormed(db')
              && !QuizExists(db'.quizzes, quizId)
              && (forall k :: 0 <= k < |db.quizzes| && db.quizzes[k].id != quizId ==> db.quizzes[k] in db'.quizzes)
              && StoredQuiz(db', quizId) == []
              && (forall other :: other != quizId ==> StoredQuiz(db', other) == StoredQuiz(db, other))
              && (forall k :: 0 <= k < |db'.choices| ==> db'.choices[k].questionId !in QuestionIds(db.questions, quizId))
              && db'.sessions == db.sessions && db'.players == db.players && db'.answers == db.answers
  {
    if exists k :: 0 <= k < |db.sessions| && db.sessions[k].quizId == quizId && IsLiveStatus(db.sessions[k].status) {
      return QuizInUse, db;
    }
    if failAt == Some(0) {
      return DeleteFailed, db;
    }
    var ids := QuestionIds(db.questions, quizId);
    var tx := db.(choices := DropChoices(db.choices, ids));
    if failAt == Some(1) {
      return DeleteFailed, db;
    }
    tx := tx.(questions := DropQuestions(tx.questions, quizId));
    if failAt == Some(2) {
      return DeleteFailed, db;
    }
    DropQuizRows(db, quizId);
    tx := tx.(quizzes := DropQuiz(tx.quizzes, quizId));
    assert WellFormed(tx) by {
      forall k | 0 <= k < |tx.quizzes| ensures tx.quizzes[k].id < tx.nextId {
        assert tx.quizzes[k] in db.quizzes;
      }
    }
    return QuizDeleted, tx;
  }
}
