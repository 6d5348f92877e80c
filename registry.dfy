/**
 * The in-memory registry of live game sessions kept by the socket server
 * (backend/server.js, `gameSessions`): for each session id, the roster of connected
 * players, the host's socket, and the state of the question on screen. The events the
 * handlers emit are values here, each with the room or socket it is addressed to.
 */
module Registry {
  import opened Wrappers
  import opened Store

  type SocketId = string

  /** One entry of `session.players`: the player id is the key of the JavaScript `Map`. */
  datatype Player = Player(id: nat, socketId: SocketId, nickname: string, joinedAt: int)

  /*** The roster: a `Map` keyed by player id, kept in insertion order ***/

  /** No player id occurs twice, as in a `Map`. */
  predicate UniqueIds(roster: seq<Player>) {
    forall i, j :: 0 <= i < j < |roster| ==> roster[i].id != roster[j].id
  }

  predicate Has(roster: seq<Player>, id: nat) {
    exists k :: 0 <= k < |roster| && roster[k].id == id
  }

  /** The position of the entry with that id. */
  function IndexOf(roster: seq<Player>, id: nat): (r: Option<nat>)
    ensures r.Some? ==> r.value < |roster| && roster[r.value].id == id
                        && forall k :: 0 <= k < r.value ==> roster[k].id != id
    ensures r.None? <==> !Has(roster, id)
  {
    if roster == [] then None
    else if roster[0].id == id then Some(0)
    else
      var rest := IndexOf(roster[1..], id);
      assert Has(roster, id) ==> Has(roster[1..], id) by {
        if Has(roster, id) {
          var k :| 0 <= k < |roster| && roster[k].id == id;
          assert roster[1..][k - 1] == roster[k];
        }
      }
      match rest
      case None => None
      case Some(k) => assert roster[k + 1] == roster[1..][k]; Some(k + 1)
  }

  /** `players.get(id)`. */
  function Get(roster: seq<Player>, id: nat): (r: Option<Player>)
    ensures r.Some? <==> Has(roster, id)
    ensures r.Some? ==> r.value in roster && r.value.id == id
  {
    match IndexOf(roster, id)
    case None => None
    case Some(k) => Some(roster[k])
  }

  /** `players.set(p.id, p)`: a known id keeps its place and takes the new value, a new id
      goes to the end. */
  function Put(roster: seq<Player>, p: Player): (r: seq<Player>)
    ensures Has(roster, p.id) ==> |r| == |roster|
    ensures !Has(roster, p.id) ==> r == roster + [p]
    ensures forall k :: 0 <= k < |roster| && roster[k].id != p.id ==> r[k] == roster[k]
  {
    match IndexOf(roster, p.id)
    case None => roster + [p]
    case Some(k) => roster[k := p]
  }

  /** `players.delete(id)`. */
  function Remove(roster: seq<Player>, id: nat): (r: seq<Player>)
    ensures !Has(roster, id) ==> r == roster
    ensures Has(roster, id) ==> |r| == |roster| - 1
  {
    match IndexOf(roster, id)
    case None => roster
    case Some(k) => roster[..k] + roster[k + 1..]
  }

  /** After a `set`, looking the id up gives the new entry. */
  lemma PutGet(roster: seq<Player>, p: Player)
    requires UniqueIds(roster)
    ensures UniqueIds(Put(roster, p))
    ensures Get(Put(roster, p), p.id) == Some(p)
  {
    var r := Put(roster, p);
    match IndexOf(roster, p.id)
    case None =>
      assert r[|roster|] == p;
    case Some(k) =>
      assert r[k] == p;
      forall i | 0 <= i < |r| && i != k ensures r[i].id != p.id {
        assert r[i] == roster[i];
      }
  }

  /** A `set` leaves every other player's entry as it was. */
  lemma PutOther(roster: seq<Player>, p: Player, id: nat)
    requires id != p.id
    ensures Get(Put(roster, p), id) == Get(roster, id)
  {
    var r := Put(roster, p);
    forall k | 0 <= k < |r| ensures (r[k].id == id) == (k < |roster| && roster[k].id == id) {
      if k < |roster| && roster[k].id != p.id {
        assert r[k] == roster[k];
      }
    }
    IndexAgree(roster, r, id);
  }

  /** Two rosters that hold `id` at the same places agree on its lookup. */
  lemma {:induction false} IndexAgree(a: seq<Player>, b: seq<Player>, id: nat)
    requires forall k :: 0 <= k < |b| ==> (b[k].id == id) == (k < |a| && a[k].id == id)
    requires |a| <= |b|
    requires forall k :: 0 <= k < |a| && a[k].id == id ==> b[k] == a[k]
    ensures Get(a, id) == Get(b, id)
  {
    match IndexOf(a, id)
    case Some(k) =>
      assert b[k].id == id;
    case None =>
  }

  /** A `delete` takes out the named player only: the others stay, in order. */
  lemma RemoveGet(roster: seq<Player>, id: nat, other: nat)
    requires UniqueIds(roster)
    ensures UniqueIds(Remove(roster, id))
    ensures !Has(Remove(roster, id), id)
    ensures other != id ==> Get(Remove(roster, id), other) == Get(roster, other)
  {
    match IndexOf(roster, id)
    case None =>
    case Some(k) =>
      RemovedAt(roster, id, k);
      RemovedKeepsUnique(roster, id, k);
      RemovedLacksId(roster, id, k);
      if other != id {
        RemovedKeepsOther(roster, id, k, other);
      }
  }

  /** Removing the entry at position k keeps the remaining ids unique. */
  lemma RemovedKeepsUnique(roster: seq<Player>, id: nat, k: nat)
    requires UniqueIds(roster) && IndexOf(roster, id) == Some(k)
    ensures UniqueIds(Remove(roster, id))
  {
    var r := Remove(roster, id);
    RemovedAt(roster, id, k);
    forall i, j | 0 <= i < j < |r| ensures r[i].id != r[j].id {
      var i', j' := if i < k then i else i + 1, if j < k then j else j + 1;
      assert r[i] == roster[i'] && r[j] == roster[j'];
    }
  }

  /** Removing the entry at position k leaves no entry with its id. */
  lemma RemovedLacksId(roster: seq<Player>, id: nat, k: nat)
    requires UniqueIds(roster) && IndexOf(roster, id) == Some(k)
    ensures !Has(Remove(roster, id), id)
  {
    var r := Remove(roster, id);
    RemovedAt(roster, id, k);
    forall i | 0 <= i < |r| ensures r[i].id != id {
      assert r[i] == roster[if i < k then i else i + 1];
    }
  }

  /** Removing the entry at position k leaves the lookup of every other id as it was. */
  lemma RemovedKeepsOther(roster: seq<Player>, id: nat, k: nat, other: nat)
    requires UniqueIds(roster) && IndexOf(roster, id) == Some(k) && other != id
    ensures Get(Remove(roster, id), other) == Get(roster, other)
  {
    var r := Remove(roster, id);
    RemovedAt(roster, id, k);
    RemovedKeepsUnique(roster, id, k);
    match IndexOf(roster, other)
    case None =>
      forall i | 0 <= i < |r| ensures r[i].id != other {
        assert r[i] == roster[if i < k then i else i + 1];
      }
    case Some(j) =>
      var j' := if j < k then j else j - 1;
      assert r[j'] == roster[j];
      GetOfUnique(roster, roster[j]);
      GetOfUnique(r, roster[j]);
  }

  /** The roster after removing the entry at position k. */
  lemma RemovedAt(roster: seq<Player>, id: nat, k: nat)
    requires IndexOf(roster, id) == Some(k)
    ensures |Remove(roster, id)| == |roster| - 1
    ensures forall i :: 0 <= i < |roster| - 1 ==> Remove(roster, id)[i] == (if i < k then roster[i] else roster[i + 1])
  {
  }

  /** In a roster with unique ids, looking up an entry's id finds that entry. */
  lemma GetOfUnique(roster: seq<Player>, p: Player)
    requires UniqueIds(roster) && p in roster
    ensures Get(roster, p.id) == Some(p)
  {
    var i :| 0 <= i < |roster| && roster[i] == p;
    var k := IndexOf(roster, p.id).value;
    assert k == i;
  }

  /** The position of the first player whose socket is `sock`. */
  function FirstWithSocket(roster: seq<Player>, sock: SocketId): (r: Option<nat>)
    ensures r.Some? ==> r.value < |roster| && roster[r.value].socketId == sock
                        && forall k :: 0 <= k < r.value ==> roster[k].socketId != sock
    ensures r.None? ==> forall k :: 0 <= k < |roster| ==> roster[k].socketId != sock
  {
    if roster == [] then None
    else if roster[0].socketId == sock then Some(0)
    else
      match FirstWithSocket(roster[1..], sock)
      case None => None
      case Some(k) => Some(k + 1)
  }

  /** One element of the `session_players` list. */
  datatype Listed = Listed(playerId: nat, nickname: string, joinedAt: int)

  /** `Array.from(players.entries()).map(...)`: the roster in insertion order. */
  function Listing(roster: seq<Player>): (r: seq<Listed>)
    ensures |r| == |roster|
    ensures forall k :: 0 <= k < |r| ==> r[k] == Listed(roster[k].id, roster[k].nickname, roster[k].joinedAt)
  {
    if roster == [] then []
    else Listing(roster[..|roster| - 1]) + [Listed(roster[|roster| - 1].id, roster[|roster| - 1].nickname, roster[|roster| - 1].joinedAt)]
  }

  /*** A live session ***/

  /** `{ players, host, status, currentOrder, questionClosed, answerSet }`. An unset
      `currentOrder` is 0, an unset `questionClosed` is false and an unset `answerSet` is
      empty, which every handler treats alike. An answer from a socket that never joined as
      a player adds `None` (the source's `undefined`). */
  datatype Session = Session(players: seq<Player>, host: Option<SocketId>, status: string,
                             currentOrder: nat, questionClosed: bool, answerSet: set<Option<nat>>)

  /** The entry the first join to an unknown id creates (server.js, line 84). */
  function NewSession(): (s: Session)
    ensures s.players == [] && s.host == None && s.status == Waiting
    ensures s.currentOrder == 0 && !s.questionClosed && s.answerSet == {}
  {
    Session([], None, Waiting, 0, false, {})
  }

  /** What the server remembers about one connected socket: the last session it joined, the
      sticky `isHost` flag, the player id it joined as, and the rooms it is in. */
  datatype Conn = Conn(sessionId: nat, isHost: bool, playerId: Option<nat>, rooms: set<nat>)

  function NewConn(): Conn {
    Conn(0, false, None, {})
  }

  /*** Emitted events ***/

  /** `io.to(room)`, `socket.to(room)` (the room without the sender) and `io.to(socketId)`
      or `socket.emit`. */
  datatype Target = Room(sessionId: nat) | RoomExceptSender(sessionId: nat, sender: SocketId) | Socket(socketId: SocketId)

  datatype ErrorReason = MissingSessionId | MissingPlayerIdOrNickname

  datatype Event =
    | AppError(reason: ErrorReason)
    | HostJoined
    | PlayerJoined(playerId: nat, nickname: string, joinedAt: int)
    | SessionPlayers(players: seq<Listed>)
    | QuestionDisplayed(question: QuestionRow, totalQuestions: nat, orderIndex: nat)
    | QuestionProgress(currentOrder: nat, totalQuestions: nat, questionClosed: bool)
    | GameStarted(sessionId: nat)
    | GameEnded(sessionId: nat)
    | PlayerAnswered(answeredBy: Option<nat>, questionId: nat, choiceId: nat, timeMs: int)
    | QuestionClosed(sessionId: nat)
    | PlayerKicked
    | PlayerLeft(playerId: nat, nickname: string)

  datatype Out = Out(target: Target, event: Event)
}
