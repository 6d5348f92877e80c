/**
 * The game routes of the HTTP API (backend/routes/game.js): creating a session
 * with a fresh PIN, admitting a player by PIN and nickname, admitting and scoring
 * an answer, and ranking the leaderboard. Each route is one atomic step over the
 * store: it reads, decides, and writes at most one row.
 */
module GameRoutes {
  import opened Wrappers
  import opened Store
  import Scoring

  /*** POST /session ***/

  /** A session whose PIN players may still use. */
  predicate IsActive(status: string) {
    status == Waiting || status == InProgress
  }

  /** Some waiting or running session already uses `pin`. */
  predicate PinInUse(sessions: seq<SessionRow>, pin: string) {
    exists k :: 0 <= k < |sessions| && sessions[k].pin == pin && IsActive(sessions[k].status)
  }

  /** No two waiting or running sessions share a PIN. */
  predicate ActivePinsUnique(sessions: seq<SessionRow>) {
    forall i, j :: 0 <= i < j < |sessions| && IsActive(sessions[i].status) && IsActive(sessions[j].status)
      ==> sessions[i].pin != sessions[j].pin
  }

  /** `SELECT id FROM quiz_sessions WHERE pin_code = ? AND status IN ("waiting","in_progress")`. */
  function ActiveSessionIdsWithPin(sessions: seq<SessionRow>, pin: string): (r: seq<nat>)
    ensures r == [] <==> !PinInUse(sessions, pin)
  {
    if sessions == [] then []
    else
      var rest := ActiveSessionIdsWithPin(sessions[1..], pin);
      assert PinInUse(sessions, pin) <==> (sessions[0].pin == pin && IsActive(sessions[0].status)) || PinInUse(sessions[1..], pin) by {
        if PinInUse(sessions[1..], pin) {
          var k :| 0 <= k < |sessions[1..]| && sessions[1..][k].pin == pin && IsActive(sessions[1..][k].status);
          assert sessions[k + 1] == sessions[1..][k];
        }
        if PinInUse(sessions, pin) && !(sessions[0].pin == pin && IsActive(sessions[0].status)) {
          var k :| 0 <= k < |sessions| && sessions[k].pin == pin && IsActive(sessions[k].status);
          assert sessions[1..][k - 1] == sessions[k];
        }
      }
      (if sessions[0].pin == pin && IsActive(sessions[0].status) then [sessions[0].id] else []) + rest
  }

  /** The quiz exists and belongs to the caller (`SELECT * FROM quizzes WHERE id = ? AND owner_id = ?`). */
  predicate OwnsQuiz(quizzes: seq<QuizRow>, userId: nat, quizId: nat) {
    exists k :: 0 <= k < |quizzes| && quizzes[k].id == quizId && quizzes[k].ownerId == userId
  }

  /** The loop `while (!isUnique)` (game.js, lines 31-42): draw a PIN, look it up among the
      waiting and running sessions, stop at the first one that is free. The random draws are
      the parameter `draws`; `None` means every draw so far collided, where the source would
      go on drawing. */
  method ChoosePin(sessions: seq<SessionRow>, draws: seq<string>) returns (pin: Option<string>)
    ensures pin.Some? ==> exists i :: 0 <= i < |draws| && draws[i] == pin.value
                            && forall j :: 0 <= j < i ==> PinInUse(sessions, draws[j])
    ensures pin.Some? ==> !PinInUse(sessions, pin.value)
    ensures pin.None? <==> forall j :: 0 <= j < |draws| ==> PinInUse(sessions, draws[j])
  {
    var i := 0;
    var isUnique := false;
    pin := None;
    while !isUnique && i < |draws|
      invariant 0 <= i <= |draws|
      invariant forall j :: 0 <= j < i - (if isUnique then 1 else 0) ==> PinInUse(sessions, draws[j])
      invariant isUnique ==> i >= 1 && pin == Some(draws[i - 1]) && !PinInUse(sessions, draws[i - 1])
      invariant !isUnique ==> pin == None
    {
      var candidate := draws[i];
      var existing := ActiveSessionIdsWithPin(sessions, candidate);
      if existing == [] {
        isUnique := true;
        pin := Some(candidate);
      }
      i := i + 1;
    }
  }

  datatype CreateResult = NotQuizOwner | NoFreePin | SessionCreated(sessionId: nat, pin: string, quizId: nat)
  {
    function Status(): int {
      match this
      case NotQuizOwner => 403
      case NoFreePin => 500
      case SessionCreated(_, _, _) => 200
    }
  }

  /** POST /session (game.js, lines 12-68): only the quiz's owner may open a session; the new
      session is `waiting` under a PIN no waiting or running session uses. */
  method CreateSession(db: Db, userId: nat, quizId: nat, draws: seq<string>) returns (r: CreateResult, db': Db)
    ensures r.NotQuizOwner? <==> !OwnsQuiz(db.quizzes, userId, quizId)
    ensures !r.SessionCreated? ==> db' == db
    ensures r.SessionCreated? ==>
              && r.sessionId == db.nextId && r.quizId == quizId
              && !PinInUse(db.sessions, r.pin)
              && db' == db.(sessions := db.sessions + [SessionRow(db.nextId, quizId, userId, r.pin, Waiting)],
                            nextId := db.nextId + 1)
    ensures ActivePinsUnique(db.sessions) ==> ActivePinsUnique(db'.sessions)
  {
    if !exists k :: 0 <= k < |db.quizzes| && db.quizzes[k].id == quizId && db.quizzes[k].ownerId == userId {
      return NotQuizOwner, db;
    }
    var pin := ChoosePin(db.sessions, draws);
    if pin.None? {
      return NoFreePin, db;
    }
    var row := SessionRow(db.nextId, quizId, userId, pin.value, Waiting);
    db' := db.(sessions := db.sessions + [row], nextId := db.nextId + 1);
    r := SessionCreated(db.nextId, pin.value, quizId);
    if ActivePinsUnique(db.sessions) {
      forall i, j | 0 <= i < j < |db'.sessions| && IsActive(db'.sessions[i].status) && IsActive(db'.sessions[j].status)
        ensures db'.sessions[i].pin != db'.sessions[j].pin
      {
        if j == |db.sessions| {
          assert db'.sessions[i] == db.sessions[i];
        }
      }
    }
  }

  /** Setting a session to `ended` never makes two active sessions share a PIN. */
  lemma EndingKeepsPinsUnique(sessions: seq<SessionRow>, id: nat)
    requires ActivePinsUnique(sessions)
    ensures ActivePinsUnique(SetStatus(sessions, id, Ended))
  {
    var s' := SetStatus(sessions, id, Ended);
    forall i, j | 0 <= i < j < |s'| && IsActive(s'[i].status) && IsActive(s'[j].status)
      ensures s'[i].pin != s'[j].pin
    {
      assert s'[i] == sessions[i] && s'[j] == sessions[j];
    }
  }

  /** The start route and `start_game` write `in_progress` without looking at the current
      status, so restarting an ended session can revive a PIN that a newer session already holds. */
  lemma RestartCanDuplicatePin()
    ensures var sessions := [SessionRow(1, 7, 3, "123456", Ended), SessionRow(2, 7, 3, "123456", Waiting)];
            ActivePinsUnique(sessions) && !ActivePinsUnique(SetStatus(sessions, 1, InProgress))
  {
    var sessions := [SessionRow(1, 7, 3, "123456", Ended), SessionRow(2, 7, 3, "123456", Waiting)];
    var s' := SetStatus(sessions, 1, InProgress);
    assert s'[0].status == InProgress && s'[1] == sessions[1];
  }

  /*** POST /join ***/

  datatype JoinResult = JoinMissingField | NoWaitingSession | NicknameTaken
                      | Joined(sessionId: nat, playerId: nat, nickname: string, pin: string)
  {
    function Status(): int {
      match this
      case JoinMissingField => 400
      case NoWaitingSession => 404
      case NicknameTaken => 400
      case Joined(_, _, _, _) => 200
    }
  }

  /** `SELECT id, quiz_id FROM quiz_sessions WHERE pin_code = ? AND status = "waiting"`, first row. */
  function WaitingSessionWithPin(sessions: seq<SessionRow>, pin: string): (r: Option<SessionRow>)
    ensures r.Some? ==> r.value in sessions && r.value.pin == pin && r.value.status == Waiting
    ensures r.None? ==> forall k :: 0 <= k < |sessions| ==> !(sessions[k].pin == pin && sessions[k].status == Waiting)
  {
    if sessions == [] then None
    else if sessions[0].pin == pin && sessions[0].status == Waiting then Some(sessions[0])
    else WaitingSessionWithPin(sessions[1..], pin)
  }

  /** A player of the session already goes by `nickname`. */
  predicate NicknameUsed(players: seq<PlayerRow>, sessionId: nat, nickname: string) {
    exists k :: 0 <= k < |players| && players[k].sessionId == sessionId && players[k].nickname == nickname
  }

  /** No two players of one session share a nickname. */
  predicate NicknamesUnique(players: seq<PlayerRow>) {
    forall i, j :: 0 <= i < j < |players| && players[i].sessionId == players[j].sessionId
      ==> players[i].nickname != players[j].nickname
  }

  /** POST /join (game.js, lines 121-187). `now` is the row's `joined_at`. */
  function Join(db: Db, pin: string, nickname: string, now: int): (out: (JoinResult, Db))
    ensures !out.0.Joined? ==> out.1 == db
    ensures out.0.Joined? ==>
              && pin != "" && nickname != ""
              && out.0.playerId == db.nextId && out.0.nickname == nickname && out.0.pin == pin
              && (exists k :: 0 <= k < |db.sessions| && db.sessions[k].id == out.0.sessionId
                                && db.sessions[k].pin == pin && db.sessions[k].status == Waiting)
              && !NicknameUsed(db.players, out.0.sessionId, nickname)
              && out.1 == db.(players := db.players + [PlayerRow(db.nextId, out.0.sessionId, nickname, now)],
                              nextId := db.nextId + 1)
  {
    if pin == "" || nickname == "" then (JoinMissingField, db)
    else match WaitingSessionWithPin(db.sessions, pin)
      case None => (NoWaitingSession, db)
      case Some(s) =>
        if NicknameUsed(db.players, s.id, nickname) then (NicknameTaken, db)
        else
          var row := PlayerRow(db.nextId, s.id, nickname, now);
          (Joined(s.id, db.nextId, nickname, pin), db.(players := db.players + [row], nextId := db.nextId + 1))
  }

  /** Each refusal happens exactly when its check fails and every earlier check passed, in the
      source's order (400 missing field, 404 no waiting session, 400 nickname taken), and a
      player is admitted exactly when all three pass. */
  lemma JoinCheckOrder(db: Db, pin: string, nickname: string, now: int)
    ensures var r := Join(db, pin, nickname, now).0;
            var fields := pin != "" && nickname != "";
            var found := WaitingSessionWithPin(db.sessions, pin);
      && (r == JoinMissingField <==> !fields)
      && (r == NoWaitingSession <==> fields && found.None?)
      && (r == NicknameTaken <==> fields && found.Some? && NicknameUsed(db.players, found.value.id, nickname))
      && (r.Joined? <==> fields && found.Some? && !NicknameUsed(db.players, found.value.id, nickname))
      && (r.Joined? ==> r.sessionId == found.value.id)
  {
  }

  /** Once a nickname has joined a session, the same join again (same PIN, same nickname) is
      refused with 400, since the nickname lookup now finds the admitted row. */
  lemma JoinTwiceRefused(db: Db, pin: string, nickname: string, now: int, later: int)
    requires Join(db, pin, nickname, now).0.Joined?
    ensures NicknameUsed(Join(db, pin, nickname, now).1.players, Join(db, pin, nickname, now).0.sessionId, nickname)
    ensures var db' := Join(db, pin, nickname, now).1;
            Join(db', pin, nickname, later).0 == NicknameTaken
  {
    var (r, db') := Join(db, pin, nickname, now);
    var s := WaitingSessionWithPin(db.sessions, pin).value;
    assert db'.sessions == db.sessions;
    assert db'.players[|db.players|] == PlayerRow(db.nextId, s.id, nickname, now);
  }

  /** Admission keeps nicknames unique within each session. */
  lemma JoinKeepsNicknamesUnique(db: Db, pin: string, nickname: string, now: int)
    requires NicknamesUnique(db.players)
    ensures NicknamesUnique(Join(db, pin, nickname, now).1.players)
  {
    var (r, db') := Join(db, pin, nickname, now);
    if r.Joined? {
      var ps := db'.players;
      forall i, j | 0 <= i < j < |ps| && ps[i].sessionId == ps[j].sessionId
        ensures ps[i].nickname != ps[j].nickname
      {
        if j == |db.players| {
          assert ps[i] == db.players[i];
        }
      }
    }
  }

  /*** POST /answer ***/

  datatype AnswerRequest = AnswerRequest(sessionId: nat, playerId: nat, questionId: nat, choiceId: nat, timeMs: int)

  datatype AnswerResult = AnswerMissingField | SessionNotInProgress | PlayerNotInSession
                        | AlreadyAnswered | InvalidChoice
                        | Answered(isCorrect: int, score: int, totalScore: int)
  {
    function Status(): int {
      if Answered? then 200 else 400
    }
  }

  predicate FieldsPresent(req: AnswerRequest) {
    req.sessionId != 0 && req.playerId != 0 && req.questionId != 0 && req.choiceId != 0
  }

  predicate SessionInProgress(db: Db, sessionId: nat) {
    match SessionById(db.sessions, sessionId)
    case Some(s) => s.status == InProgress
    case None => false
  }

  /** `SELECT id FROM player_sessions WHERE id = ? AND session_id = ?` finds a row. */
  predicate PlayerInSession(players: seq<PlayerRow>, sessionId: nat, playerId: nat) {
    exists k :: 0 <= k < |players| && players[k].id == playerId && players[k].sessionId == sessionId
  }

  /** An answer of this player to this question in this session is stored. */
  predicate HasAnswered(answers: seq<AnswerRow>, sessionId: nat, playerId: nat, questionId: nat) {
    exists k :: 0 <= k < |answers| && answers[k].sessionId == sessionId
                && answers[k].playerId == playerId && answers[k].questionId == questionId
  }

  /** At most one stored answer per (session, player, question). */
  predicate AnswersUnique(answers: seq<AnswerRow>) {
    forall i, j :: 0 <= i < j < |answers| ==>
      !(answers[i].sessionId == answers[j].sessionId && answers[i].playerId == answers[j].playerId
        && answers[i].questionId == answers[j].questionId)
  }

  function QuestionById(questions: seq<QuestionRow>, id: nat): (r: Option<QuestionRow>)
    ensures r.Some? ==> r.value in questions && r.value.id == id
    ensures r.None? <==> forall k :: 0 <= k < |questions| ==> questions[k].id != id
  {
    if questions == [] then None
    else if questions[0].id == id then Some(questions[0])
    else QuestionById(questions[1..], id)
  }

  function ChoiceOfQuestion(choices: seq<ChoiceRow>, id: nat, questionId: nat): (r: Option<ChoiceRow>)
    ensures r.Some? ==> r.value in choices && r.value.id == id && r.value.questionId == questionId
    ensures r.None? <==> forall k :: 0 <= k < |choices| ==> !(choices[k].id == id && choices[k].questionId == questionId)
  {
    if choices == [] then None
    else if choices[0].id == id && choices[0].questionId == questionId then Some(choices[0])
    else ChoiceOfQuestion(choices[1..], id, questionId)
  }

  /** The join of `questions` and `choices` on `q.id = ? AND c.id = ?` (lines 242-254). */
  function QuestionAndChoice(db: Db, questionId: nat, choiceId: nat): (r: Option<(QuestionRow, ChoiceRow)>)
    ensures r.Some? ==> && r.value.0 in db.questions && r.value.0.id == questionId
                        && r.value.1 in db.choices && r.value.1.id == choiceId && r.value.1.questionId == questionId
  {
    match QuestionById(db.questions, questionId)
    case None => None
    case Some(q) =>
      match ChoiceOfQuestion(db.choices, choiceId, q.id)
      case None => None
      case Some(c) => Some((q, c))
  }

  /** The join finds nothing exactly when no question has the id or no choice with that id
      belongs to it. */
  lemma QuestionAndChoiceNone(db: Db, questionId: nat, choiceId: nat)
    ensures QuestionAndChoice(db, questionId, choiceId).None? <==>
              (forall k :: 0 <= k < |db.questions| ==> db.questions[k].id != questionId)
              || (forall k :: 0 <= k < |db.choices| ==> !(db.choices[k].id == choiceId && db.choices[k].questionId == questionId))
  {
  }

  /** The row `/answer` stores for an admitted answer (lines 267-278). */
  function ScoredRow(req: AnswerRequest, q: QuestionRow, c: ChoiceRow): (row: AnswerRow)
    ensures row.sessionId == req.sessionId && row.playerId == req.playerId && row.questionId == req.questionId
    ensures c.isCorrect == 0 ==> row.isCorrect == 0 && row.score == 0
    ensures c.isCorrect != 0 ==> row.isCorrect == 1 && (Scoring.OrDefault(q.points, Scoring.DefaultPoints) >= 0 ==> row.score >= 0)
  {
    AnswerRow(req.sessionId, req.playerId, req.questionId, req.choiceId, req.timeMs,
              if c.isCorrect != 0 then 1 else 0,
              Scoring.Score(c.isCorrect != 0, q.timeLimitS, q.points, req.timeMs))
  }

  /** POST /answer (game.js, lines 190-302): five checks in a fixed order, then one insert. */
  function SubmitAnswer(db: Db, req: AnswerRequest): (out: (AnswerResult, Db))
    ensures !out.0.Answered? ==> out.1 == db
    ensures out.0.Answered? ==>
              exists q, c :: QuestionAndChoice(db, req.questionId, req.choiceId) == Some((q, c))
                && out.1 == db.(answers := db.answers + [ScoredRow(req, q, c)])
                && out.0.score == ScoredRow(req, q, c).score
                && out.0.totalScore == TotalScore(db.answers, req.sessionId, req.playerId) + out.0.score
  {
    if !FieldsPresent(req) then (AnswerMissingField, db)
    else if !SessionInProgress(db, req.sessionId) then (SessionNotInProgress, db)
    else if !PlayerInSession(db.players, req.sessionId, req.playerId) then (PlayerNotInSession, db)
    else if HasAnswered(db.answers, req.sessionId, req.playerId, req.questionId) then (AlreadyAnswered, db)
    else match QuestionAndChoice(db, req.questionId, req.choiceId)
      case None => (InvalidChoice, db)
      case Some((q, c)) =>
        var row := ScoredRow(req, q, c);
        var answers' := db.answers + [row];
        TotalScoreAppend(db.answers, row, req.sessionId, req.playerId);
        (Answered(c.isCorrect, row.score, TotalScore(answers', req.sessionId, req.playerId)),
         db.(answers := answers'))
  }

  /** Each check rejects exactly when it fails and every earlier one passed, and an answer is
      stored exactly when all five pass. */
  lemma SubmitAnswerCheckOrder(db: Db, req: AnswerRequest)
    ensures var r := SubmitAnswer(db, req).0;
      && (r == AnswerMissingField <==> !FieldsPresent(req))
      && (r == SessionNotInProgress <==> FieldsPresent(req) && !SessionInProgress(db, req.sessionId))
      && (r == PlayerNotInSession <==> FieldsPresent(req) && SessionInProgress(db, req.sessionId)
                                       && !PlayerInSession(db.players, req.sessionId, req.playerId))
      && (r == AlreadyAnswered <==> FieldsPresent(req) && SessionInProgress(db, req.sessionId)
                                    && PlayerInSession(db.players, req.sessionId, req.playerId)
                                    && HasAnswered(db.answers, req.sessionId, req.playerId, req.questionId))
      && (r.Answered? <==> FieldsPresent(req) && SessionInProgress(db, req.sessionId)
                           && PlayerInSession(db.players, req.sessionId, req.playerId)
                           && !HasAnswered(db.answers, req.sessionId, req.playerId, req.questionId)
                           && QuestionAndChoice(db, req.questionId, req.choiceId).Some?)
  {
  }

  /** An admitted answer never duplicates a stored (session, player, question). */
  lemma SubmitAnswerKeepsAnswersUnique(db: Db, req: AnswerRequest)
    requires AnswersUnique(db.answers)
    ensures AnswersUnique(SubmitAnswer(db, req).1.answers)
  {
    var (r, db') := SubmitAnswer(db, req);
    if r.Answered? {
      var a := db'.answers;
      assert !HasAnswered(db.answers, req.sessionId, req.playerId, req.questionId);
      forall i, j | 0 <= i < j < |a|
        ensures !(a[i].sessionId == a[j].sessionId && a[i].playerId == a[j].playerId
                  && a[i].questionId == a[j].questionId)
      {
        if j == |db.answers| {
          assert a[i] == db.answers[i];
          assert a[j].sessionId == req.sessionId && a[j].playerId == req.playerId && a[j].questionId == req.questionId;
        }
      }
    }
  }

  /** The requests that write the tables `/join` and `/answer` read: the two routes
      themselves and the status writes of the start and end routes and the socket server. */
  datatype GameRequest = JoinRequest(pin: string, nickname: string, now: int)
                       | AnswerRequestOf(req: AnswerRequest)
                       | StatusWrite(sessionId: nat, status: string)

  function Apply(db: Db, req: GameRequest): (r: Db)
    ensures r.quizzes == db.quizzes && r.questions == db.questions && r.choices == db.choices
    ensures !req.StatusWrite? ==> r.sessions == db.sessions
    ensures req.StatusWrite? ==> |r.sessions| == |db.sessions|
    ensures !req.JoinRequest? ==> r.players == db.players
    ensures !req.AnswerRequestOf? ==> r.answers == db.answers
  {
    match req
    case JoinRequest(pin, nickname, now) => Join(db, pin, nickname, now).1
    case AnswerRequestOf(req) => SubmitAnswer(db, req).1
    case StatusWrite(id, status) => db.(sessions := SetStatus(db.sessions, id, status))
  }

  function Replay(db: Db, rs: seq<GameRequest>): Db
    decreases |rs|
  {
    if rs == [] then db else Replay(Apply(db, rs[0]), rs[1..])
  }

  /** Whatever sequence of these requests runs, the store keeps at most one answer per
      (session, player, question) and unique nicknames per session. */
  lemma {:induction false} ReplayKeepsUniqueness(db: Db, rs: seq<GameRequest>)
    requires AnswersUnique(db.answers) && NicknamesUnique(db.players)
    ensures AnswersUnique(Replay(db, rs).answers) && NicknamesUnique(Replay(db, rs).players)
    decreases |rs|
  {
    if rs != [] {
      var db1 := Apply(db, rs[0]);
      if rs[0].JoinRequest? {
        JoinKeepsNicknamesUnique(db, rs[0].pin, rs[0].nickname, rs[0].now);
      } else if rs[0].AnswerRequestOf? {
        SubmitAnswerKeepsAnswersUnique(db, rs[0].req);
      }
      ReplayKeepsUniqueness(db1, rs[1..]);
    }
  }

  /*** GET /session/:sessionId/leaderboard ***/

  datatype Standing = Standing(playerId: nat, nickname: string, totalScore: int, joinedAt: int)
  datatype Ranked = Ranked(standing: Standing, rank: nat)

  /** A player's leaderboard row: nickname, summed score and join time. */
  function StandingOf(db: Db, p: PlayerRow, sessionId: nat): Standing {
    Standing(p.id, p.nickname, TotalScore(db.answers, sessionId, p.id), p.joinedAt)
  }

  /** One row per player of the session, with the sum of the player's scores in it. */
  function Standings(db: Db, players: seq<PlayerRow>, sessionId: nat): (r: seq<Standing>)
    ensures |r| <= |players|
  {
    if players == [] then []
    else
      (if players[0].sessionId == sessionId then [StandingOf(db, players[0], sessionId)] else [])
      + Standings(db, players[1..], sessionId)
  }

  /** `x` is the standing of some player row of the session. */
  predicate FromSessionRow(db: Db, players: seq<PlayerRow>, sessionId: nat, x: Standing) {
    exists j :: 0 <= j < |players| && players[j].sessionId == sessionId && x == StandingOf(db, players[j], sessionId)
  }

  /** Every player row of the session gives its standing, and every standing comes from such a row. */
  lemma {:induction false} StandingsComplete(db: Db, players: seq<PlayerRow>, sessionId: nat)
    ensures forall k :: 0 <= k < |players| && players[k].sessionId == sessionId ==>
              StandingOf(db, players[k], sessionId) in Standings(db, players, sessionId)
    ensures forall k :: 0 <= k < |Standings(db, players, sessionId)| ==>
              FromSessionRow(db, players, sessionId, Standings(db, players, sessionId)[k])
  {
    if players != [] {
      StandingsComplete(db, players[1..], sessionId);
      assert forall k :: 1 <= k < |players| ==> players[k] == players[1..][k - 1];
      var head := if players[0].sessionId == sessionId then [StandingOf(db, players[0], sessionId)] else [];
      var rest := Standings(db, players[1..], sessionId);
      var r := Standings(db, players, sessionId);
      assert r == head + rest;
      forall k | 0 <= k < |r|
        ensures FromSessionRow(db, players, sessionId, r[k])
      {
        if k < |head| {
          assert r[k] == StandingOf(db, players[0], sessionId);
        } else {
          assert r[k] == rest[k - |head|];
          assert FromSessionRow(db, players[1..], sessionId, rest[k - |head|]);
          var j :| 0 <= j < |players[1..]| && players[1..][j].sessionId == sessionId
                   && rest[k - |head|] == StandingOf(db, players[1..][j], sessionId);
          assert players[j + 1] == players[1..][j];
        }
      }
    }
  }

  /** `ORDER BY total_score DESC, MIN(ps.joined_at) ASC`: `a` may come before `b`. */
  predicate Precedes(a: Standing, b: Standing) {
    a.totalScore > b.totalScore || (a.totalScore == b.totalScore && a.joinedAt <= b.joinedAt)
  }

  predicate SortedStandings(s: seq<Standing>) {
    forall i, j :: 0 <= i < j < |s| ==> Precedes(s[i], s[j])
  }

  function InsertStanding(x: Standing, s: seq<Standing>): (r: seq<Standing>)
    requires SortedStandings(s)
    ensures SortedStandings(r)
    ensures multiset(r) == multiset(s) + multiset{x}
    ensures |r| == |s| + 1
  {
    if s == [] then [x]
    else if Precedes(x, s[0]) then [x] + s
    else
      var rest := InsertStanding(x, s[1..]);
      assert s == [s[0]] + s[1..];
      assert forall k :: 0 <= k < |rest| ==> Precedes(s[0], rest[k]) by {
        forall k | 0 <= k < |rest| ensures Precedes(s[0], rest[k]) {
          assert rest[k] in multiset(rest);
          assert rest[k] in multiset(s[1..]) || rest[k] == x;
        }
      }
      [s[0]] + rest
  }

  /** The standings in the database's order. */
  function SortStandings(s: seq<Standing>): (r: seq<Standing>)
    ensures SortedStandings(r)
    ensures multiset(r) == multiset(s)
  {
    if s == [] then []
    else
      assert s == [s[0]] + s[1..];
      InsertStanding(s[0], SortStandings(s[1..]))
  }

  /** `leaderboard.map((player, index) => ({...player, rank: index + 1}))` (lines 339-342). */
  function WithRanks(s: seq<Standing>): (r: seq<Ranked>)
  {
    seq(|s|, i requires 0 <= i < |s| => Ranked(s[i], i + 1))
  }

  /** The leaderboard, or `None` for a session that does not exist (404). */
  function Leaderboard(db: Db, sessionId: nat): (r: Option<seq<Ranked>>)
    ensures r.None? <==> SessionById(db.sessions, sessionId).None?
    ensures r.Some? ==> forall i :: 0 <= i < |r.value| ==> r.value[i].rank == i + 1
  {
    if SessionById(db.sessions, sessionId).None? then None
    else Some(WithRanks(SortStandings(Standings(db, db.players, sessionId))))
  }

  /** The ranks are exactly 1..n in the order returned, the order is by score descending and
      then by join time, and every player of the session appears once with their total. */
  lemma LeaderboardRanks(db: Db, sessionId: nat)
    requires SessionById(db.sessions, sessionId).Some?
    ensures var board := Leaderboard(db, sessionId).value;
      && |board| == |Standings(db, db.players, sessionId)|
      && (forall i :: 0 <= i < |board| ==> board[i].rank == i + 1)
      && (forall i, j :: 0 <= i < j < |board| ==> Precedes(board[i].standing, board[j].standing))
      && multiset(seq(|board|, i requires 0 <= i < |board| => board[i].standing))
         == multiset(Standings(db, db.players, sessionId))
  {
    var sorted := SortStandings(Standings(db, db.players, sessionId));
    var board := WithRanks(sorted);
    assert seq(|board|, i requires 0 <= i < |board| => board[i].standing) == sorted;
    assert |sorted| == |Standings(db, db.players, sessionId)| by {
      assert |multiset(sorted)| == |multiset(Standings(db, db.players, sessionId))|;
    }
  }
}
