/**
 * The MySQL database shared by the HTTP routes and the socket server, as a value.
 * Each table is a sequence of rows in insertion order; `nextId` is the
 * auto-increment counter (one counter for all tables, so every fresh row id is
 * larger than every id already stored). Id 0 never names a row: it stands for an
 * absent or falsy id in a request.
 */
module Store {
  import opened Wrappers

  const Waiting: string := "waiting"
  const InProgress: string := "in_progress"
  const Ended: string := "ended"

  datatype QuizRow = QuizRow(id: nat, ownerId: nat, title: string, description: string, isPublic: bool)
  datatype QuestionRow = QuestionRow(id: nat, quizId: nat, content: string, imageUrl: Option<string>,
                                     timeLimitS: int, points: int, orderIndex: int)
  datatype ChoiceRow = ChoiceRow(id: nat, questionId: nat, content: string, isCorrect: int, orderIndex: int)
  datatype SessionRow = SessionRow(id: nat, quizId: nat, hostId: nat, pin: string, status: string)
  datatype PlayerRow = PlayerRow(id: nat, sessionId: nat, nickname: string, joinedAt: int)
  datatype AnswerRow = AnswerRow(sessionId: nat, playerId: nat, questionId: nat, choiceId: nat,
                                 timeMs: int, isCorrect: int, score: int)

  datatype Db = Db(quizzes: seq<QuizRow>, questions: seq<QuestionRow>, choices: seq<ChoiceRow>,
                   sessions: seq<SessionRow>, players: seq<PlayerRow>, answers: seq<AnswerRow>,
                   nextId: nat)

  /** `SELECT ... FROM quiz_sessions WHERE id = ?`: the first row with that id. */
  function SessionById(sessions: seq<SessionRow>, id: nat): (r: Option<SessionRow>)
    ensures r.Some? ==> r.value in sessions && r.value.id == id
    ensures r.None? ==> forall k :: 0 <= k < |sessions| ==> sessions[k].id != id
  {
    if sessions == [] then None
    else if sessions[0].id == id then Some(sessions[0])
    else SessionById(sessions[1..], id)
  }

  /** The quiz a session plays, when the session row exists. */
  function QuizOfSession(db: Db, sessionId: nat): (r: Option<nat>)
    ensures r.None? <==> forall k :: 0 <= k < |db.sessions| ==> db.sessions[k].id != sessionId
    ensures r.Some? ==> exists s :: s in db.sessions && s.id == sessionId && s.quizId == r.value
  {
    match SessionById(db.sessions, sessionId)
    case Some(s) => Some(s.quizId)
    case None => None
  }

  /** `SELECT * FROM questions WHERE quiz_id = ? AND order_index = ? LIMIT 1`. */
  function QuestionAt(questions: seq<QuestionRow>, quizId: nat, orderIndex: int): (r: Option<QuestionRow>)
    ensures r.Some? ==> r.value in questions && r.value.quizId == quizId && r.value.orderIndex == orderIndex
    ensures r.None? ==> forall k :: 0 <= k < |questions| ==>
                          !(questions[k].quizId == quizId && questions[k].orderIndex == orderIndex)
  {
    if questions == [] then None
    else if questions[0].quizId == quizId && questions[0].orderIndex == orderIndex then Some(questions[0])
    else QuestionAt(questions[1..], quizId, orderIndex)
  }

  /** The rows of one quiz's questions, in table order (`WHERE quiz_id = ?`). */
  function QuestionsOf(questions: seq<QuestionRow>, quizId: nat): (r: seq<QuestionRow>)
    ensures |r| <= |questions|
    ensures forall k :: 0 <= k < |r| ==> r[k] in questions && r[k].quizId == quizId
  {
    if questions == [] then []
    else
      var last := questions[|questions| - 1];
      QuestionsOf(questions[..|questions| - 1], quizId) + (if last.quizId == quizId then [last] else [])
  }

  /** Every row of the quiz is in its list: the lookup misses none. */
  lemma {:induction false} QuestionsOfComplete(questions: seq<QuestionRow>, quizId: nat)
    ensures forall k :: 0 <= k < |questions| && questions[k].quizId == quizId ==> questions[k] in QuestionsOf(questions, quizId)
  {
    if questions != [] {
      var init := questions[..|questions| - 1];
      QuestionsOfComplete(init, quizId);
      assert forall k :: 0 <= k < |init| ==> questions[k] == init[k];
    }
  }

  /** A row appended to the table joins the end of its own quiz's list and no other. */
  lemma QuestionsOfAppend(questions: seq<QuestionRow>, row: QuestionRow, quizId: nat)
    ensures QuestionsOf(questions + [row], quizId)
         == QuestionsOf(questions, quizId) + (if row.quizId == quizId then [row] else [])
  {
    assert (questions + [row])[..|questions|] == questions;
  }

  /** `SELECT COUNT(*) FROM questions WHERE quiz_id = ?`. */
  function QuestionCount(db: Db, quizId: nat): (n: nat)
    ensures n <= |db.questions|
    ensures n == 0 <==> forall k :: 0 <= k < |db.questions| ==> db.questions[k].quizId != quizId
  {
    QuestionsOfComplete(db.questions, quizId);
    var qs := QuestionsOf(db.questions, quizId);
    assert qs != [] ==> qs[0] in db.questions;
    |qs|
  }

  /** `UPDATE quiz_sessions SET status = ? WHERE id = ?`. */
  function SetStatus(sessions: seq<SessionRow>, id: nat, status: string): (r: seq<SessionRow>)
    ensures |r| == |sessions|
    ensures forall k :: 0 <= k < |r| ==>
              r[k] == if sessions[k].id == id then sessions[k].(status := status) else sessions[k]
  {
    if sessions == [] then []
    else [if sessions[0].id == id then sessions[0].(status := status) else sessions[0]]
         + SetStatus(sessions[1..], id, status)
  }

  /** Writing a session's status does not change which quiz any session plays. */
  lemma {:induction false} SetStatusKeepsQuiz(sessions: seq<SessionRow>, id: nat, status: string, sid: nat)
    ensures SessionById(SetStatus(sessions, id, status), sid).Some? == SessionById(sessions, sid).Some?
    ensures SessionById(sessions, sid).Some? ==>
              SessionById(SetStatus(sessions, id, status), sid).value.quizId == SessionById(sessions, sid).value.quizId
  {
    if sessions != [] {
      SetStatusKeepsQuiz(sessions[1..], id, status, sid);
    }
  }

  /** No answer row belongs to that player of that session. */
  predicate NoAnswersOf(answers: seq<AnswerRow>, sessionId: nat, playerId: nat) {
    forall k :: 0 <= k < |answers| ==> !(answers[k].sessionId == sessionId && answers[k].playerId == playerId)
  }

  /** Every stored score is non-negative. */
  predicate ScoresNonNegative(answers: seq<AnswerRow>) {
    forall k :: 0 <= k < |answers| ==> answers[k].score >= 0
  }

  /** `COALESCE(SUM(score_earned), 0) ... WHERE session_id = ? AND player_id = ?`. */
  function TotalScore(answers: seq<AnswerRow>, sessionId: nat, playerId: nat): (total: int)
    ensures NoAnswersOf(answers, sessionId, playerId) ==> total == 0
    ensures ScoresNonNegative(answers) ==> total >= 0
  {
    if answers == [] then 0
    else
      var last := answers[|answers| - 1];
      assert forall k :: 0 <= k < |answers| - 1 ==> answers[..|answers| - 1][k] == answers[k];
      TotalScore(answers[..|answers| - 1], sessionId, playerId)
        + (if last.sessionId == sessionId && last.playerId == playerId then last.score else 0)
  }

  /** Appending a row of that player adds its score to the total, and a row of anyone else adds nothing. */
  lemma TotalScoreAppend(answers: seq<AnswerRow>, row: AnswerRow, sessionId: nat, playerId: nat)
    ensures TotalScore(answers + [row], sessionId, playerId)
         == TotalScore(answers, sessionId, playerId)
            + (if row.sessionId == sessionId && row.playerId == playerId then row.score else 0)
  {
    assert (answers + [row])[..|answers|] == answers;
  }
}
