/**
 * The socket handlers of the game server (backend/server.js, lines 63-286). Each handler
 * is one atomic step: it reads and updates the registry of live sessions and the per-socket
 * state, queries (and twice updates) the store, and emits events. The pure functions below
 * say what one step does; the class `LiveServer` performs the same steps in place and is
 * proved equal to them.
 */
module LiveServer {
  import opened Wrappers
  import opened Store
  import opened Registry

  /** Everything a handler reads or writes: the registry, the connected sockets and the store. */
  datatype Server = Server(sessions: map<nat, Session>, conns: map<SocketId, Conn>, db: Db)

  /** The state after a handler and the events it emitted, in order. */
  datatype Reaction = Reaction(server: Server, outs: seq<Out>)

  /*** emitQuestion ***/

  /** `emitQuestion` (lines 63-70): when the quiz has a question at that order, send it with
      the quiz's question count and report `true`; otherwise send nothing. */
  function EmitQuestion(db: Db, target: Target, quizId: nat, order: nat): (r: (bool, seq<Out>))
    ensures r.0 <==> QuestionAt(db.questions, quizId, order).Some?
    ensures !r.0 ==> r.1 == []
    ensures r.0 ==> r.1 == [Out(target, QuestionDisplayed(QuestionAt(db.questions, quizId, order).value,
                                                          QuestionCount(db, quizId), order))]
                    && r.1[0].event.question.quizId == quizId
  {
    match QuestionAt(db.questions, quizId, order)
    case None => (false, [])
    case Some(q) => (true, [Out(target, QuestionDisplayed(q, QuestionCount(db, quizId), order))])
  }

  /** Lines 127-133 and 139-142: the question on screen, sent to one socket, when a question
      is open and the session's row is in the store. */
  function ReplayQuestion(db: Db, sock: SocketId, sid: nat, s: Session): (r: seq<Out>)
    ensures s.currentOrder == 0 || s.questionClosed || QuizOfSession(db, sid).None? ==> r == []
    ensures forall k :: 0 <= k < |r| ==> r[k].target == Socket(sock) && r[k].event.QuestionDisplayed?
    ensures s.currentOrder != 0 && !s.questionClosed && QuizOfSession(db, sid).Some? ==>
              var quizId := QuizOfSession(db, sid).value;
              && (r != [] <==> QuestionAt(db.questions, quizId, s.currentOrder).Some?)
              && (r != [] ==> r == [Out(Socket(sock), QuestionDisplayed(QuestionAt(db.questions, quizId, s.currentOrder).value,
                                                                       QuestionCount(db, quizId), s.currentOrder))])
  {
    if s.currentOrder == 0 || s.questionClosed then []
    else match QuizOfSession(db, sid)
      case None => []
      case Some(quizId) => EmitQuestion(db, Socket(sock), quizId, s.currentOrder).1
  }

  /** The `question_progress` broadcast after a question closes (lines 212-216, 228-232). */
  function ProgressAfterClose(db: Db, sid: nat, s: Session): (r: seq<Out>)
    ensures QuizOfSession(db, sid).None? ==> r == []
    ensures QuizOfSession(db, sid).Some? ==>
              r == [Out(Room(sid), QuestionProgress(s.currentOrder, QuestionCount(db, QuizOfSession(db, sid).value), true))]
  {
    match QuizOfSession(db, sid)
    case None => []
    case Some(quizId) => [Out(Room(sid), QuestionProgress(s.currentOrder, QuestionCount(db, quizId), true))]
  }

  /*** join_session ***/

  /** The fields of a `join_session` message; a missing id is 0 and a missing nickname "". */
  datatype JoinData = JoinData(sessionId: nat, playerId: nat, nickname: string, isHost: bool)

  /** `join_session` (lines 76-134). */
  function Join(w: Server, sock: SocketId, d: JoinData, now: int): (r: Reaction)
    requires sock in w.conns
    ensures r.server.conns.Keys == w.conns.Keys
    ensures d.sessionId == 0 ==> r == Reaction(w, [Out(Socket(sock), AppError(MissingSessionId))])
    ensures d.sessionId != 0 ==>
              && d.sessionId in r.server.sessions
              && r.server.sessions == w.sessions[d.sessionId := r.server.sessions[d.sessionId]]
              && r.server.db == w.db
              && d.sessionId in r.server.conns[sock].rooms
    ensures d.sessionId != 0 && d.sessionId !in w.sessions ==>
              var s := r.server.sessions[d.sessionId];
              && s.status == Waiting && s.currentOrder == 0 && !s.questionClosed && s.answerSet == {}
              && (d.isHost ==> s.players == [])
              && (!d.isHost ==> s.host == None)
    ensures d.sessionId != 0 && d.isHost ==>
              var s' := r.server.sessions[d.sessionId];
              && s'.host == Some(sock)
              && r.outs == [Out(Room(d.sessionId), HostJoined), Out(Socket(sock), SessionPlayers(Listing(s'.players)))]
                           + ReplayQuestion(w.db, sock, d.sessionId, s')
    ensures d.sessionId != 0 && !d.isHost && (d.playerId == 0 || d.nickname == "") ==>
              && r.server.sessions[d.sessionId] == (if d.sessionId in w.sessions then w.sessions[d.sessionId] else NewSession())
              && r.outs == [Out(Socket(sock), AppError(MissingPlayerIdOrNickname))]
    ensures d.sessionId != 0 && !d.isHost && d.playerId != 0 && d.nickname != "" ==>
              var before := if d.sessionId in w.sessions then w.sessions[d.sessionId] else NewSession();
              var s' := before.(players := Put(before.players, Player(d.playerId, sock, d.nickname, now)));
              var list := SessionPlayers(Listing(s'.players));
              && r.server.sessions[d.sessionId] == s'
              && r.server.conns[sock].playerId == Some(d.playerId)
              && r.outs == [Out(RoomExceptSender(d.sessionId, sock), PlayerJoined(d.playerId, d.nickname, now)),
                            Out(Room(d.sessionId), list)]
                           + (if s'.host.Some? then [Out(Socket(s'.host.value), list)] else [])
                           + [Out(Socket(sock), list)]
                           + ReplayQuestion(w.db, sock, d.sessionId, s')
  {
    if d.sessionId == 0 then Reaction(w, [Out(Socket(sock), AppError(MissingSessionId))])
    else
      var sid := d.sessionId;
      var s := if sid in w.sessions then w.sessions[sid] else NewSession();
      var c := w.conns[sock].(sessionId := sid, rooms := w.conns[sock].rooms + {sid});
      if d.isHost then
        var s' := s.(host := Some(sock));
        Reaction(Server(w.sessions[sid := s'], w.conns[sock := c.(isHost := true)], w.db),
                 [Out(Room(sid), HostJoined), Out(Socket(sock), SessionPlayers(Listing(s'.players)))]
                 + ReplayQuestion(w.db, sock, sid, s'))
      else if d.playerId == 0 || d.nickname == "" then
        Reaction(Server(w.sessions[sid := s], w.conns[sock := c], w.db),
                 [Out(Socket(sock), AppError(MissingPlayerIdOrNickname))])
      else
        var s' := s.(players := Put(s.players, Player(d.playerId, sock, d.nickname, now)));
        var list := Listing(s'.players);
        Reaction(Server(w.sessions[sid := s'], w.conns[sock := c.(playerId := Some(d.playerId))], w.db),
                 [Out(RoomExceptSender(sid, sock), PlayerJoined(d.playerId, d.nickname, now)),
                  Out(Room(sid), SessionPlayers(list))]
                 + (if s'.host.Some? then [Out(Socket(s'.host.value), SessionPlayers(list))] else [])
                 + [Out(Socket(sock), SessionPlayers(list))]
                 + ReplayQuestion(w.db, sock, sid, s'))
  }

  /*** request_current and request_progress ***/

  /** `request_current` (lines 137-143): the open question, to the asking socket only. */
  function RequestCurrent(w: Server, sock: SocketId, sid: nat): (r: Reaction)
    ensures r.server == w
    ensures sid !in w.sessions ==> r.outs == []
    ensures sid in w.sessions ==> r.outs == ReplayQuestion(w.db, sock, sid, w.sessions[sid])
    ensures forall k :: 0 <= k < |r.outs| ==> r.outs[k].target == Socket(sock)
  {
    if sid !in w.sessions then Reaction(w, [])
    else Reaction(w, ReplayQuestion(w.db, sock, sid, w.sessions[sid]))
  }

  /** `request_progress` (lines 146-153): the current order (0 when unset), the quiz's question
      count and whether the question is closed, to the asking socket only. */
  function RequestProgress(w: Server, sock: SocketId, sid: nat): (r: Reaction)
    ensures r.server == w
    ensures sid in w.sessions && QuizOfSession(w.db, sid).Some? ==>
              r.outs == [Out(Socket(sock), QuestionProgress(w.sessions[sid].currentOrder,
                                                           QuestionCount(w.db, QuizOfSession(w.db, sid).value),
                                                           w.sessions[sid].questionClosed))]
    ensures !(sid in w.sessions && QuizOfSession(w.db, sid).Some?) ==> r.outs == []
  {
    if sid !in w.sessions then Reaction(w, [])
    else match QuizOfSession(w.db, sid)
      case None => Reaction(w, [])
      case Some(quizId) =>
        var s := w.sessions[sid];
        Reaction(w, [Out(Socket(sock), QuestionProgress(s.currentOrder, QuestionCount(w.db, quizId), s.questionClosed))])
  }

  /*** Host-only handlers ***/

  /** `session.host === socket.id` for an existing session. */
  predicate IsHostOf(w: Server, sock: SocketId, sid: nat) {
    sid in w.sessions && w.sessions[sid].host == Some(sock)
  }

  /** `start_game` (lines 156-173). The store row is set to running before its quiz is looked
      up; the first question goes out right after `game_started`. */
  function StartGame(w: Server, sock: SocketId, sid: nat): (r: Reaction)
    ensures !IsHostOf(w, sock, sid) ==> r == Reaction(w, [])
    ensures IsHostOf(w, sock, sid) ==> r.server.db == w.db.(sessions := SetStatus(w.db.sessions, sid, InProgress))
    ensures IsHostOf(w, sock, sid) && QuizOfSession(w.db, sid).None? ==> r.server.sessions == w.sessions && r.outs == []
    ensures IsHostOf(w, sock, sid) && QuizOfSession(w.db, sid).Some? ==>
              var quizId := QuizOfSession(w.db, sid).value;
              var first := QuestionAt(w.db.questions, quizId, 1);
              && sid in r.server.sessions
              && r.server.sessions == w.sessions[sid := w.sessions[sid].(currentOrder := 1, answerSet := {}, questionClosed := false)]
              && r.outs == [Out(Room(sid), GameStarted(sid))]
                           + (if first.Some? then [Out(Room(sid), QuestionDisplayed(first.value, QuestionCount(w.db, quizId), 1))] else [])
    ensures r.server.conns == w.conns
  {
    if !IsHostOf(w, sock, sid) then Reaction(w, [])
    else
      var db := w.db.(sessions := SetStatus(w.db.sessions, sid, InProgress));
      SetStatusKeepsQuiz(w.db.sessions, sid, InProgress, sid);
      match QuizOfSession(db, sid)
      case None => Reaction(w.(db := db), [])
      case Some(quizId) =>
        var s := w.sessions[sid].(currentOrder := 1, answerSet := {}, questionClosed := false);
        Reaction(Server(w.sessions[sid := s], w.conns, db),
                 [Out(Room(sid), GameStarted(sid))] + EmitQuestion(db, Room(sid), quizId, 1).1)
  }

  /** `(session.currentOrder || 1) + 1` */
  function NextOrder(currentOrder: nat): nat {
    (if currentOrder == 0 then 1 else currentOrder) + 1
  }

  /** `next_question` (lines 176-190). When the quiz has no question at the next order, the
      game ends: `game_ended` goes out and the store row is set to ended. */
  function NextQuestion(w: Server, sock: SocketId, sid: nat): (r: Reaction)
    ensures !IsHostOf(w, sock, sid) || QuizOfSession(w.db, sid).None? ==> r == Reaction(w, [])
    ensures IsHostOf(w, sock, sid) && QuizOfSession(w.db, sid).Some? ==>
              var s := w.sessions[sid];
              var quizId := QuizOfSession(w.db, sid).value;
              && sid in r.server.sessions
              && r.server.sessions == w.sessions[sid := r.server.sessions[sid]]
              && r.server.sessions[sid] == s.(currentOrder := NextOrder(s.currentOrder), answerSet := {}, questionClosed := false)
              && (QuestionAt(w.db.questions, quizId, NextOrder(s.currentOrder)).None? ==>
                    && r.outs == [Out(Room(sid), GameEnded(sid))]
                    && r.server.db == w.db.(sessions := SetStatus(w.db.sessions, sid, Ended)))
              && (QuestionAt(w.db.questions, quizId, NextOrder(s.currentOrder)).Some? ==>
                    && r.server.db == w.db
                    && r.outs == [Out(Room(sid), QuestionDisplayed(QuestionAt(w.db.questions, quizId, NextOrder(s.currentOrder)).value,
                                                                   QuestionCount(w.db, quizId), NextOrder(s.currentOrder)))])
    ensures r.server.conns == w.conns
  {
    if !IsHostOf(w, sock, sid) then Reaction(w, [])
    else match QuizOfSession(w.db, sid)
      case None => Reaction(w, [])
      case Some(quizId) =>
        var s := w.sessions[sid];
        var order := NextOrder(s.currentOrder);
        var s' := s.(currentOrder := order, answerSet := {}, questionClosed := false);
        var (found, outs) := EmitQuestion(w.db, Room(sid), quizId, order);
        if found then Reaction(Server(w.sessions[sid := s'], w.conns, w.db), outs)
        else Reaction(Server(w.sessions[sid := s'], w.conns, w.db.(sessions := SetStatus(w.db.sessions, sid, Ended))),
                      [Out(Room(sid), GameEnded(sid))])
  }

  /** `close_question` (lines 222-233): a closed question stays closed and nothing is sent. */
  function CloseQuestion(w: Server, sock: SocketId, sid: nat): (r: Reaction)
    ensures !IsHostOf(w, sock, sid) || w.sessions[sid].questionClosed ==> r == Reaction(w, [])
    ensures IsHostOf(w, sock, sid) && !w.sessions[sid].questionClosed ==>
              && r.server == w.(sessions := w.sessions[sid := w.sessions[sid].(questionClosed := true)])
              && r.outs == [Out(Room(sid), QuestionClosed(sid))] + ProgressAfterClose(w.db, sid, w.sessions[sid].(questionClosed := true))
  {
    if !IsHostOf(w, sock, sid) || w.sessions[sid].questionClosed then Reaction(w, [])
    else
      var s := w.sessions[sid].(questionClosed := true);
      Reaction(w.(sessions := w.sessions[sid := s]), [Out(Room(sid), QuestionClosed(sid))] + ProgressAfterClose(w.db, sid, s))
  }

  /** `kick_player` (lines 236-246). */
  function KickPlayer(w: Server, sock: SocketId, sid: nat, pid: nat): (r: Reaction)
    ensures !IsHostOf(w, sock, sid) || Get(w.sessions[sid].players, pid).None? ==> r == Reaction(w, [])
    ensures IsHostOf(w, sock, sid) && Get(w.sessions[sid].players, pid).Some? ==>
              var p := Get(w.sessions[sid].players, pid).value;
              && r.server == w.(sessions := w.sessions[sid := w.sessions[sid].(players := Remove(w.sessions[sid].players, pid))])
              && |r.outs| == 3 && r.outs[0] == Out(Socket(p.socketId), PlayerKicked)
              && r.outs[1] == Out(Room(sid), PlayerLeft(pid, p.nickname))
              && r.outs[2] == Out(Room(sid), SessionPlayers(Listing(Remove(w.sessions[sid].players, pid))))
  {
    if !IsHostOf(w, sock, sid) then Reaction(w, [])
    else
      var s := w.sessions[sid];
      match Get(s.players, pid)
      case None => Reaction(w, [])
      case Some(p) =>
        var s' := s.(players := Remove(s.players, pid));
        Reaction(w.(sessions := w.sessions[sid := s']),
                 [Out(Socket(p.socketId), PlayerKicked), Out(Room(sid), PlayerLeft(pid, p.nickname)),
                  Out(Room(sid), SessionPlayers(Listing(s'.players)))])
  }

  /*** submit_answer ***/

  datatype AnswerData = AnswerData(sessionId: nat, questionId: nat, choiceId: nat, timeMs: int)

  /** `submit_answer` (lines 193-219): record the sender's player id and tell the others; when
      the question is open and at least as many ids have answered as there are players,
      close it. Neither the question's state nor the game's status is checked first. */
  function SubmitAnswer(w: Server, sock: SocketId, d: AnswerData): (r: Reaction)
    requires sock in w.conns
    ensures d.sessionId !in w.sessions ==> r == Reaction(w, [])
    ensures d.sessionId in w.sessions ==>
              var s := w.sessions[d.sessionId];
              var answered := s.answerSet + {w.conns[sock].playerId};
              var closes := !s.questionClosed && |answered| >= |s.players|;
              && r.server == w.(sessions := w.sessions[d.sessionId := s.(answerSet := answered, questionClosed := s.questionClosed || closes)])
              && |r.outs| >= 1
              && r.outs[0] == Out(RoomExceptSender(d.sessionId, sock), PlayerAnswered(w.conns[sock].playerId, d.questionId, d.choiceId, d.timeMs))
              && (closes <==> |r.outs| >= 2 && r.outs[1] == Out(Room(d.sessionId), QuestionClosed(d.sessionId)))
              && r.outs == [r.outs[0]]
                           + (if closes then [Out(Room(d.sessionId), QuestionClosed(d.sessionId))]
                                             + ProgressAfterClose(w.db, d.sessionId, r.server.sessions[d.sessionId])
                              else [])
  {
    if d.sessionId !in w.sessions then Reaction(w, [])
    else
      var sid := d.sessionId;
      var pid := w.conns[sock].playerId;
      var s := w.sessions[sid].(answerSet := w.sessions[sid].answerSet + {pid});
      var told := [Out(RoomExceptSender(sid, sock), PlayerAnswered(pid, d.questionId, d.choiceId, d.timeMs))];
      if !s.questionClosed && |s.answerSet| >= |s.players| then
        var s' := s.(questionClosed := true);
        Reaction(w.(sessions := w.sessions[sid := s']), told + [Out(Room(sid), QuestionClosed(sid))] + ProgressAfterClose(w.db, sid, s'))
      else
        Reaction(w.(sessions := w.sessions[sid := s]), told)
  }

  /*** leave_session and disconnect ***/

  /** `leave_session` (lines 249-261): any socket may name any player; the roster loses that
      player, the sender leaves the room, and an emptied session is deleted even while a
      host is attached. */
  function LeaveSession(w: Server, sock: SocketId, sid: nat, pid: nat): (r: Reaction)
    requires sock in w.conns
    ensures sid !in w.sessions || Get(w.sessions[sid].players, pid).None? ==> r == Reaction(w, [])
    ensures sid in w.sessions && Get(w.sessions[sid].players, pid).Some? ==>
              var s := w.sessions[sid];
              var left := Remove(s.players, pid);
              && r.server.db == w.db
              && r.server.conns == w.conns[sock := w.conns[sock].(rooms := w.conns[sock].rooms - {sid})]
              && (left == [] ==> r.server.sessions == w.sessions - {sid})
              && (left != [] ==> r.server.sessions == w.sessions[sid := s.(players := left)])
              && |r.outs| == 2 && r.outs[0] == Out(Room(sid), PlayerLeft(pid, Get(s.players, pid).value.nickname))
              && r.outs[1] == Out(Room(sid), SessionPlayers(Listing(left)))
  {
    if sid !in w.sessions then Reaction(w, [])
    else
      var s := w.sessions[sid];
      match Get(s.players, pid)
      case None => Reaction(w, [])
      case Some(p) =>
        var s' := s.(players := Remove(s.players, pid));
        var conns := w.conns[sock := w.conns[sock].(rooms := w.conns[sock].rooms - {sid})];
        var sessions := if |s'.players| == 0 then w.sessions - {sid} else w.sessions[sid := s'];
        Reaction(Server(sessions, conns, w.db),
                 [Out(Room(sid), PlayerLeft(pid, p.nickname)), Out(Room(sid), SessionPlayers(Listing(s'.players)))])
  }

  /** The roster after a disconnect of a non-host socket, with the events it causes: the
      first player on that socket is removed (the `for ... break` loop, lines 276-284). */
  function DropSocket(s: Session, sid: nat, sock: SocketId): (r: (Session, seq<Out>))
    ensures FirstWithSocket(s.players, sock).None? ==> r == (s, [])
    ensures FirstWithSocket(s.players, sock).Some? ==>
              var p := s.players[FirstWithSocket(s.players, sock).value];
              && r.0 == s.(players := Remove(s.players, p.id))
              && r.1 == [Out(Room(sid), PlayerLeft(p.id, p.nickname)), Out(Room(sid), SessionPlayers(Listing(r.0.players)))]
  {
    match FirstWithSocket(s.players, sock)
    case None => (s, [])
    case Some(k) =>
      var p := s.players[k];
      var s' := s.(players := Remove(s.players, p.id));
      (s', [Out(Room(sid), PlayerLeft(p.id, p.nickname)), Out(Room(sid), SessionPlayers(Listing(s'.players)))])
  }

  /** `disconnect` (lines 263-286). The socket is gone afterwards. The current host only
      clears `host`; any other socket removes the first player it carries, and the session
      is deleted once it has neither players nor a host. */
  function Disconnect(w: Server, sock: SocketId): (r: Reaction)
    requires sock in w.conns
    ensures r.server.conns == w.conns - {sock}
    ensures r.server.db == w.db
    ensures var sid := w.conns[sock].sessionId;
            sid == 0 || sid !in w.sessions ==> r == Reaction(w.(conns := w.conns - {sock}), [])
    ensures var sid := w.conns[sock].sessionId;
            sid != 0 && sid in w.sessions && w.conns[sock].isHost && w.sessions[sid].host == Some(sock) ==>
              r == Reaction(w.(conns := w.conns - {sock}, sessions := w.sessions[sid := w.sessions[sid].(host := None)]), [])
    ensures var sid := w.conns[sock].sessionId;
            sid != 0 && sid in w.sessions && !(w.conns[sock].isHost && w.sessions[sid].host == Some(sock)) ==>
              var (s', outs) := DropSocket(w.sessions[sid], sid, sock);
              && r.outs == outs
              && (s'.players == [] && s'.host.None? ==> r.server.sessions == w.sessions - {sid})
              && (!(s'.players == [] && s'.host.None?) ==> r.server.sessions == w.sessions[sid := s'])
  {
    var c := w.conns[sock];
    var w' := w.(conns := w.conns - {sock});
    if c.sessionId == 0 || c.sessionId !in w.sessions then Reaction(w', [])
    else
      var sid := c.sessionId;
      var s := w.sessions[sid];
      if c.isHost && s.host == Some(sock) then
        Reaction(w'.(sessions := w.sessions[sid := s.(host := None)]), [])
      else
        var (s', outs) := DropSocket(s, sid, sock);
        var sessions := if |s'.players| == 0 && s'.host.None? then w.sessions - {sid} else w.sessions[sid := s'];
        Reaction(w'.(sessions := sessions), outs)
  }

  /** A new connection (`io.on('connection')`): a socket with no session, player or room. */
  function Connect(w: Server, sock: SocketId): (r: Reaction)
    ensures sock in r.server.conns && r.outs == []
    ensures sock !in w.conns ==> r.server == w.(conns := w.conns[sock := NewConn()])
    ensures sock in w.conns ==> r.server == w
  {
    if sock in w.conns then Reaction(w, []) else Reaction(w.(conns := w.conns[sock := NewConn()]), [])
  }

  /*** Properties across handlers ***/

  /** What every step keeps: id 0 names no session, each roster is a proper map, and the
      in-memory status is the `'waiting'` it was created with (no handler writes it). */
  ghost predicate Inv(w: Server) {
    && 0 !in w.sessions
    && forall sid :: sid in w.sessions ==> UniqueIds(w.sessions[sid].players) && w.sessions[sid].status == Waiting
  }

  /** One socket message, or a connection. */
  datatype Request =
    | ConnectReq
    | JoinReq(join: JoinData, now: int)
    | CurrentReq(sid: nat)
    | ProgressReq(sid: nat)
    | StartReq(sid: nat)
    | NextReq(sid: nat)
    | AnswerReq(answer: AnswerData)
    | CloseReq(sid: nat)
    | KickReq(sid: nat, pid: nat)
    | LeaveReq(sid: nat, pid: nat)
    | DisconnectReq

  /** The handler a message from `sock` runs; a message from a socket that is not connected
      does nothing. */
  function Dispatch(w: Server, sock: SocketId, req: Request): (r: Reaction)
    ensures !req.ConnectReq? && sock !in w.conns ==> r == Reaction(w, [])
    ensures r.server.db == w.db.(sessions := r.server.db.sessions)
    ensures |r.server.db.sessions| == |w.db.sessions|
  {
    if req.ConnectReq? then Connect(w, sock)
    else if sock !in w.conns then Reaction(w, [])
    else match req
      case ConnectReq => Reaction(w, [])
      case JoinReq(d, now) => Join(w, sock, d, now)
      case CurrentReq(sid) => RequestCurrent(w, sock, sid)
      case ProgressReq(sid) => RequestProgress(w, sock, sid)
      case StartReq(sid) => StartGame(w, sock, sid)
      case NextReq(sid) => NextQuestion(w, sock, sid)
      case AnswerReq(d) => SubmitAnswer(w, sock, d)
      case CloseReq(sid) => CloseQuestion(w, sock, sid)
      case KickReq(sid, pid) => KickPlayer(w, sock, sid, pid)
      case LeaveReq(sid, pid) => LeaveSession(w, sock, sid, pid)
      case DisconnectReq => Disconnect(w, sock)
  }

  /** The state after a sequence of messages, handled one at a time. */
  function Run(w: Server, msgs: seq<(SocketId, Request)>): Server {
    if msgs == [] then w
    else Dispatch(Run(w, msgs[..|msgs| - 1]), msgs[|msgs| - 1].0, msgs[|msgs| - 1].1).server
  }

  /** Joining puts the player into its roster with `set`, which keeps the ids unique. */
  lemma JoinKeepsInv(w: Server, sock: SocketId, d: JoinData, now: int)
    requires Inv(w) && sock in w.conns
    ensures Inv(Join(w, sock, d, now).server)
  {
    if d.sessionId != 0 && !d.isHost && d.playerId != 0 && d.nickname != "" {
      var before := if d.sessionId in w.sessions then w.sessions[d.sessionId] else NewSession();
      PutGet(before.players, Player(d.playerId, sock, d.nickname, now));
    }
  }

  lemma KickKeepsInv(w: Server, sock: SocketId, sid: nat, pid: nat)
    requires Inv(w)
    ensures Inv(KickPlayer(w, sock, sid, pid).server)
  {
    if IsHostOf(w, sock, sid) {
      RemoveGet(w.sessions[sid].players, pid, pid);
    }
  }

  lemma LeaveKeepsInv(w: Server, sock: SocketId, sid: nat, pid: nat)
    requires Inv(w) && sock in w.conns
    ensures Inv(LeaveSession(w, sock, sid, pid).server)
  {
    if sid in w.sessions {
      RemoveGet(w.sessions[sid].players, pid, pid);
    }
  }

  lemma DisconnectKeepsInv(w: Server, sock: SocketId)
    requires Inv(w) && sock in w.conns
    ensures Inv(Disconnect(w, sock).server)
  {
    var sid := w.conns[sock].sessionId;
    if sid in w.sessions {
      match FirstWithSocket(w.sessions[sid].players, sock)
      case None =>
      case Some(k) => RemoveGet(w.sessions[sid].players, w.sessions[sid].players[k].id, 0);
    }
  }

  /** The handlers that touch only the question state keep the invariant. */
  lemma QuestionHandlersKeepInv(w: Server, sock: SocketId, sid: nat, d: AnswerData)
    requires Inv(w) && sock in w.conns
    ensures Inv(StartGame(w, sock, sid).server)
    ensures Inv(NextQuestion(w, sock, sid).server)
    ensures Inv(CloseQuestion(w, sock, sid).server)
    ensures Inv(SubmitAnswer(w, sock, d).server)
  {
    StartKeepsInv(w, sock, sid);
    NextKeepsInv(w, sock, sid);
  }

  lemma StartKeepsInv(w: Server, sock: SocketId, sid: nat)
    requires Inv(w)
    ensures Inv(StartGame(w, sock, sid).server)
  {
  }

  lemma NextKeepsInv(w: Server, sock: SocketId, sid: nat)
    requires Inv(w)
    ensures Inv(NextQuestion(w, sock, sid).server)
  {
  }

  /** Every handler keeps the invariant. */
  lemma DispatchKeepsInv(w: Server, sock: SocketId, req: Request)
    requires Inv(w)
    ensures Inv(Dispatch(w, sock, req).server)
  {
    if sock in w.conns {
      match req
      case JoinReq(d, now) => JoinKeepsInv(w, sock, d, now);
      case KickReq(sid, pid) => KickKeepsInv(w, sock, sid, pid);
      case LeaveReq(sid, pid) => LeaveKeepsInv(w, sock, sid, pid);
      case DisconnectReq => DisconnectKeepsInv(w, sock);
      case StartReq(sid) => QuestionHandlersKeepInv(w, sock, sid, AnswerData(0, 0, 0, 0));
      case NextReq(sid) => QuestionHandlersKeepInv(w, sock, sid, AnswerData(0, 0, 0, 0));
      case CloseReq(sid) => QuestionHandlersKeepInv(w, sock, sid, AnswerData(0, 0, 0, 0));
      case AnswerReq(d) => QuestionHandlersKeepInv(w, sock, 0, d);
      case _ =>
    }
  }

  /** The invariant holds after any sequence of messages. */
  lemma {:induction false} RunKeepsInv(w: Server, msgs: seq<(SocketId, Request)>)
    requires Inv(w)
    ensures Inv(Run(w, msgs))
  {
    if msgs != [] {
      RunKeepsInv(w, msgs[..|msgs| - 1]);
      DispatchKeepsInv(Run(w, msgs[..|msgs| - 1]), msgs[|msgs| - 1].0, msgs[|msgs| - 1].1);
    }
  }

  /*** close_question and submit_answer close a question at most once ***/

  /** Closing a closed question changes nothing and sends nothing. */
  lemma CloseIdempotent(w: Server, sock: SocketId, sid: nat)
    ensures var once := CloseQuestion(w, sock, sid).server;
            CloseQuestion(once, sock, sid) == Reaction(once, [])
  {
  }

  /** A second submission from the same socket neither grows the answered set nor closes the
      question, whatever the question and choice. */
  lemma SubmitRepeat(w: Server, sock: SocketId, d: AnswerData, d': AnswerData)
    requires sock in w.conns && d'.sessionId == d.sessionId && d.sessionId in w.sessions
    ensures var once := SubmitAnswer(w, sock, d).server;
            var twice := SubmitAnswer(once, sock, d');
            && twice.server.sessions[d.sessionId] == once.sessions[d.sessionId]
            && |twice.outs| == 1
  {
  }

  /** How many `question_closed` events for session `sid` a list of events holds. */
  function CountClosed(outs: seq<Out>, sid: nat): (n: nat)
    ensures n <= |outs|
  {
    if outs == [] then 0
    else CountClosed(outs[..|outs| - 1], sid) + (if outs[|outs| - 1].event == QuestionClosed(sid) then 1 else 0)
  }

  lemma {:induction false} CountClosedAppend(a: seq<Out>, b: seq<Out>, sid: nat)
    ensures CountClosed(a + b, sid) == CountClosed(a, sid) + CountClosed(b, sid)
  {
    if b == [] {
      assert a + b == a;
    } else {
      CountClosedAppend(a, b[..|b| - 1], sid);
      assert (a + b)[..|a + b| - 1] == a + b[..|b| - 1];
      assert (a + b)[|a + b| - 1] == b[|b| - 1];
    }
  }

  /** 1 while session `sid` exists with its question open, else 0. */
  function OpenQuestions(w: Server, sid: nat): nat {
    if sid in w.sessions && !w.sessions[sid].questionClosed then 1 else 0
  }

  /** A list of events with no `question_closed` in it. */
  lemma {:induction false} NoClosed(outs: seq<Out>, sid: nat)
    requires forall k :: 0 <= k < |outs| ==> !outs[k].event.QuestionClosed?
    ensures CountClosed(outs, sid) == 0
  {
    if outs != [] {
      NoClosed(outs[..|outs| - 1], sid);
    }
  }

  /** One submission sends `question_closed` for `sid` only by closing its open question. */
  lemma SubmitClosesOnce(w: Server, sock: SocketId, d: AnswerData, sid: nat)
    requires sock in w.conns
    ensures var r := SubmitAnswer(w, sock, d);
            CountClosed(r.outs, sid) + OpenQuestions(r.server, sid) <= OpenQuestions(w, sid)
            && (sid in w.sessions ==> sid in r.server.sessions)
  {
    var r := SubmitAnswer(w, sock, d);
    if d.sessionId in w.sessions {
      var s := w.sessions[d.sessionId];
      var told := [r.outs[0]];
      NoClosed(told, sid);
      if !s.questionClosed && |s.answerSet + {w.conns[sock].playerId}| >= |s.players| {
        var closed := [Out(Room(d.sessionId), QuestionClosed(d.sessionId))];
        var progress := ProgressAfterClose(w.db, d.sessionId, r.server.sessions[d.sessionId]);
        NoClosed(progress, sid);
        CountClosedAppend(told, closed + progress, sid);
        CountClosedAppend(closed, progress, sid);
        assert closed[..0] == [];
      } else {
        assert r.outs == told + [];
      }
    }
  }

  /** `close_question` sends `question_closed` once when it closes an open question, and
      never otherwise. */
  lemma CloseSendsClosedOnce(w: Server, sock: SocketId, sid: nat)
    ensures var r := CloseQuestion(w, sock, sid);
            CountClosed(r.outs, sid) == (if IsHostOf(w, sock, sid) && !w.sessions[sid].questionClosed then 1 else 0)
  {
    if IsHostOf(w, sock, sid) && !w.sessions[sid].questionClosed {
      var closed := [Out(Room(sid), QuestionClosed(sid))];
      var progress := ProgressAfterClose(w.db, sid, w.sessions[sid].(questionClosed := true));
      NoClosed(progress, sid);
      CountClosedAppend(closed, progress, sid);
      assert closed[..0] == [];
    }
  }

  /** The events of a sequence of submissions, handled one at a time, and the final state. */
  function Submissions(w: Server, subs: seq<(SocketId, AnswerData)>): Reaction {
    if subs == [] then Reaction(w, [])
    else
      var before := Submissions(w, subs[..|subs| - 1]);
      var (sock, d) := subs[|subs| - 1];
      if sock !in before.server.conns then before
      else
        var step := SubmitAnswer(before.server, sock, d);
        Reaction(step.server, before.outs + step.outs)
  }

  /** However many answers arrive, an open question is auto-closed at most once, and a closed
      one never. */
  lemma {:induction false} AutoCloseAtMostOnce(w: Server, subs: seq<(SocketId, AnswerData)>, sid: nat)
    ensures var r := Submissions(w, subs);
            CountClosed(r.outs, sid) + OpenQuestions(r.server, sid) <= OpenQuestions(w, sid)
  {
    if subs != [] {
      var before := Submissions(w, subs[..|subs| - 1]);
      AutoCloseAtMostOnce(w, subs[..|subs| - 1], sid);
      var (sock, d) := subs[|subs| - 1];
      if sock in before.server.conns {
        SubmitClosesOnce(before.server, sock, d, sid);
        CountClosedAppend(before.outs, SubmitAnswer(before.server, sock, d).outs, sid);
      }
    }
  }

  /*** Removal ***/

  /** `leave_session` of the last player deletes the session even while a host is attached. */
  lemma LeaveDeletesHostedSession(w: Server, sock: SocketId, sid: nat, p: Player)
    requires sock in w.conns && sid in w.sessions
    requires w.sessions[sid].players == [p] && w.sessions[sid].host.Some?
    ensures sid !in LeaveSession(w, sock, sid, p.id).server.sessions
  {
    assert IndexOf([p], p.id) == Some(0);
  }

  /** Kicking or leaving removes the named player only; the other players keep their entries,
      and the answered set is not pruned. */
  lemma RemovalKeepsOthers(w: Server, sock: SocketId, sid: nat, pid: nat, other: nat)
    requires Inv(w) && sock in w.conns && sid in w.sessions && other != pid
    ensures var r := KickPlayer(w, sock, sid, pid).server;
            && sid in r.sessions
            && Get(r.sessions[sid].players, other) == Get(w.sessions[sid].players, other)
            && (IsHostOf(w, sock, sid) ==> !Has(r.sessions[sid].players, pid))
    ensures var r := LeaveSession(w, sock, sid, pid).server;
            sid in r.sessions ==>
              && Get(r.sessions[sid].players, other) == Get(w.sessions[sid].players, other)
              && !Has(r.sessions[sid].players, pid)
              && r.sessions[sid].answerSet == w.sessions[sid].answerSet
    ensures var r := KickPlayer(w, sock, sid, pid).server;
            r.sessions[sid].answerSet == w.sessions[sid].answerSet
  {
    RemoveGet(w.sessions[sid].players, pid, other);
  }

  /*** The server object ***/

  /** The socket server: `gameSessions`, the connected sockets' own fields (`socket.sessionId`,
      `socket.isHost`, `socket.playerId`, the rooms joined) and the store. Each handler
      updates them in place as the source does and returns the events it emitted. */
  class GameServer {
    var sessions: map<nat, Session>
    var conns: map<SocketId, Conn>
    var db: Db

    function State(): Server
      reads this
    {
      Server(sessions, conns, db)
    }

    /** A server with no live session and no connection, over the store `db`. */
    constructor (db: Db)
      ensures State() == Server(map[], map[], db) && Inv(State())
    {
      sessions := map[];
      conns := map[];
      this.db := db;
    }

    method OnConnection(sock: SocketId) returns (outs: seq<Out>)
      modifies this
      ensures Reaction(State(), outs) == Connect(old(State()), sock)
    {
      if sock !in conns {
        conns := conns[sock := NewConn()];
      }
      outs := [];
    }

    method OnJoinSession(sock: SocketId, d: JoinData, now: int) returns (outs: seq<Out>)
      requires sock in conns
      modifies this
      ensures Reaction(State(), outs) == Join(old(State()), sock, d, now)
    {
      ghost var w := State();
      if d.sessionId == 0 {
        outs := [Out(Socket(sock), AppError(MissingSessionId))];
        return;
      }
      var sid := d.sessionId;
      var session := if sid in sessions then sessions[sid] else NewSession();
      var conn := conns[sock].(sessionId := sid, rooms := conns[sock].rooms + {sid});
      if d.isHost {
        session := session.(host := Some(sock));
        sessions, conns := sessions[sid := session], conns[sock := conn.(isHost := true)];
        outs := [Out(Room(sid), HostJoined), Out(Socket(sock), SessionPlayers(Listing(session.players)))]
                + ReplayQuestion(db, sock, sid, session);
        assert Reaction(State(), outs) == Join(w, sock, d, now);
      } else if d.playerId == 0 || d.nickname == "" {
        sessions, conns := sessions[sid := session], conns[sock := conn];
        outs := [Out(Socket(sock), AppError(MissingPlayerIdOrNickname))];
        assert Reaction(State(), outs) == Join(w, sock, d, now);
      } else {
        session := session.(players := Put(session.players, Player(d.playerId, sock, d.nickname, now)));
        var list := Listing(session.players);
        outs := [Out(RoomExceptSender(sid, sock), PlayerJoined(d.playerId, d.nickname, now)), Out(Room(sid), SessionPlayers(list))];
        if session.host.Some? {
          outs := outs + [Out(Socket(session.host.value), SessionPlayers(list))];
        }
        outs := outs + [Out(Socket(sock), SessionPlayers(list))] + ReplayQuestion(db, sock, sid, session);
        sessions, conns := sessions[sid := session], conns[sock := conn.(playerId := Some(d.playerId))];
        assert Reaction(State(), outs) == Join(w, sock, d, now);
      }
    }

    method OnRequestCurrent(sock: SocketId, sid: nat) returns (outs: seq<Out>)
      ensures Reaction(State(), outs) == RequestCurrent(State(), sock, sid)
    {
      outs := [];
      if sid !in sessions {
        return;
      }
      var session := sessions[sid];
      if session.currentOrder == 0 || session.questionClosed {
        return;
      }
      var quiz := QuizOfSession(db, sid);
      if quiz.None? {
        return;
      }
      var (_, sent) := EmitQuestion(db, Socket(sock), quiz.value, session.currentOrder);
      outs := sent;
    }

    method OnRequestProgress(sock: SocketId, sid: nat) returns (outs: seq<Out>)
      ensures Reaction(State(), outs) == RequestProgress(State(), sock, sid)
    {
      outs := [];
      if sid !in sessions {
        return;
      }
      var session := sessions[sid];
      var quiz := QuizOfSession(db, sid);
      if quiz.None? {
        return;
      }
      var count := QuestionCount(db, quiz.value);
      outs := [Out(Socket(sock), QuestionProgress(session.currentOrder, count, session.questionClosed))];
    }

    method OnStartGame(sock: SocketId, sid: nat) returns (outs: seq<Out>)
      modifies this
      ensures Reaction(State(), outs) == StartGame(old(State()), sock, sid)
    {
      outs := [];
      if sid !in sessions || sessions[sid].host != Some(sock) {
        return;
      }
      db := db.(sessions := SetStatus(db.sessions, sid, InProgress));
      var quiz := QuizOfSession(db, sid);
      if quiz.None? {
        return;
      }
      var session := sessions[sid];
      session := session.(currentOrder := 1, answerSet := {}, questionClosed := false);
      sessions := sessions[sid := session];
      outs := [Out(Room(sid), GameStarted(sid))];
      var (_, sent) := EmitQuestion(db, Room(sid), quiz.value, session.currentOrder);
      outs := outs + sent;
    }

    method OnNextQuestion(sock: SocketId, sid: nat) returns (outs: seq<Out>)
      modifies this
      ensures Reaction(State(), outs) == NextQuestion(old(State()), sock, sid)
    {
      ghost var w := State();
      outs := [];
      if sid !in sessions || sessions[sid].host != Some(sock) {
        return;
      }
      var quiz := QuizOfSession(db, sid);
      if quiz.None? {
        return;
      }
      ghost var expected := NextQuestion(w, sock, sid);
      var session := sessions[sid];
      session := session.(currentOrder := NextOrder(session.currentOrder), answerSet := {}, questionClosed := false);
      sessions := sessions[sid := session];
      assert sessions == expected.server.sessions;
      var (ok, sent) := EmitQuestion(db, Room(sid), quiz.value, session.currentOrder);
      outs := sent;
      if !ok {
        outs := outs + [Out(Room(sid), GameEnded(sid))];
        db := db.(sessions := SetStatus(db.sessions, sid, Ended));
      }
      assert db == expected.server.db && outs == expected.outs;
    }

    method OnSubmitAnswer(sock: SocketId, d: AnswerData) returns (outs: seq<Out>)
      requires sock in conns
      modifies this
      ensures Reaction(State(), outs) == SubmitAnswer(old(State()), sock, d)
    {
      outs := [];
      var sid := d.sessionId;
      if sid !in sessions {
        return;
      }
      var session := sessions[sid];
      var pid := conns[sock].playerId;
      session := session.(answerSet := session.answerSet + {pid});
      outs := [Out(RoomExceptSender(sid, sock), PlayerAnswered(pid, d.questionId, d.choiceId, d.timeMs))];
      if !session.questionClosed && |session.answerSet| >= |session.players| {
        session := session.(questionClosed := true);
        outs := outs + [Out(Room(sid), QuestionClosed(sid))];
        outs := outs + ProgressAfterClose(db, sid, session);
      }
      sessions := sessions[sid := session];
    }

    method OnCloseQuestion(sock: SocketId, sid: nat) returns (outs: seq<Out>)
      modifies this
      ensures Reaction(State(), outs) == CloseQuestion(old(State()), sock, sid)
    {
      outs := [];
      if sid !in sessions || sessions[sid].host != Some(sock) {
        return;
      }
      var session := sessions[sid];
      if session.questionClosed {
        return;
      }
      session := session.(questionClosed := true);
      sessions := sessions[sid := session];
      outs := [Out(Room(sid), QuestionClosed(sid))] + ProgressAfterClose(db, sid, session);
    }

    method OnKickPlayer(sock: SocketId, sid: nat, pid: nat) returns (outs: seq<Out>)
      modifies this
      ensures Reaction(State(), outs) == KickPlayer(old(State()), sock, sid, pid)
    {
      outs := [];
      if sid !in sessions || sessions[sid].host != Some(sock) {
        return;
      }
      var session := sessions[sid];
      var player := Get(session.players, pid);
      if player.None? {
        return;
      }
      outs := [Out(Socket(player.value.socketId), PlayerKicked)];
      session := session.(players := Remove(session.players, pid));
      sessions := sessions[sid := session];
      outs := outs + [Out(Room(sid), PlayerLeft(pid, player.value.nickname))];
      outs := outs + [Out(Room(sid), SessionPlayers(Listing(session.players)))];
    }

    method OnLeaveSession(sock: SocketId, sid: nat, pid: nat) returns (outs: seq<Out>)
      requires sock in conns
      modifies this
      ensures Reaction(State(), outs) == LeaveSession(old(State()), sock, sid, pid)
    {
      outs := [];
      if sid !in sessions {
        return;
      }
      var session := sessions[sid];
      var player := Get(session.players, pid);
      if player.None? {
        return;
      }
      session := session.(players := Remove(session.players, pid));
      var conn := conns[sock].(rooms := conns[sock].rooms - {sid});
      outs := [Out(Room(sid), PlayerLeft(pid, player.value.nickname)), Out(Room(sid), SessionPlayers(Listing(session.players)))];
      if |session.players| == 0 {
        sessions, conns := sessions - {sid}, conns[sock := conn];
      } else {
        sessions, conns := sessions[sid := session], conns[sock := conn];
      }
    }

    method OnDisconnect(sock: SocketId) returns (outs: seq<Out>)
      requires sock in conns
      modifies this
      ensures Reaction(State(), outs) == Disconnect(old(State()), sock)
    {
      var conn := conns[sock];
      conns := conns - {sock};
      outs := [];
      if conn.sessionId == 0 || conn.sessionId !in sessions {
        return;
      }
      var sid := conn.sessionId;
      var session := sessions[sid];
      if conn.isHost && session.host == Some(sock) {
        sessions := sessions[sid := session.(host := None)];
        return;
      }
      var i := 0;
      while i < |session.players|
        invariant 0 <= i <= |session.players|
        invariant session == old(sessions)[sid] && outs == []
        invariant forall k :: 0 <= k < i ==> session.players[k].socketId != sock
      {
        var p := session.players[i];
        if p.socketId == sock {
          assert FirstWithSocket(session.players, sock) == Some(i);
          session := session.(players := Remove(session.players, p.id));
          outs := [Out(Room(sid), PlayerLeft(p.id, p.nickname)), Out(Room(sid), SessionPlayers(Listing(session.players)))];
          break;
        }
        i := i + 1;
      }
      assert (session, outs) == DropSocket(old(sessions)[sid], sid, sock);
      if |session.players| == 0 && session.host.None? {
        sessions := sessions - {sid};
      } else {
        sessions := sessions[sid := session];
      }
    }
  }
}
