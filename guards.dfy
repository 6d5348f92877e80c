/**
 * The request guards of the HTTP API (backend/middleware/auth.js): reading the bearer
 * token from the `Authorization` header, the quiz-ownership and session-host checks
 * that stand in front of the routes, and the per-address sliding-window rate limiter.
 */
module Guards {
  import opened Wrappers
  import opened Store
  import Text
  import QuizRoutes

  /*** authenticateToken ***/

  /** `authHeader && authHeader.split(' ')[1]`: the second space-separated field, when the
      header is present and that field exists and is not empty. The scheme word in front
      is not looked at. */
  function ExtractToken(header: Option<string>): (t: Option<string>)
    ensures t.Some? ==> t.value != "" && ' ' !in t.value
    ensures t.Some? <==> header.Some? && |Text.Split(header.value, ' ')| >= 2 && Text.Split(header.value, ' ')[1] != ""
  {
    match header
    case None => None
    case Some(h) =>
      var fields := Text.Split(h, ' ');
      if |fields| >= 2 && fields[1] != "" then Some(fields[1]) else None
  }

  /** `<scheme> <token>`, with or without further fields, yields the token. */
  lemma BearerTokenExtracted(scheme: string, token: string, rest: Option<string>)
    requires ' ' !in scheme && ' ' !in token && token != ""
    ensures var h := match rest case None => scheme + " " + token case Some(r) => scheme + " " + token + " " + r;
            ExtractToken(Some(h)) == Some(token)
  {
    match rest
    case None =>
      Text.SplitPrefix(scheme, token, ' ');
      Text.SplitNoSep(token, ' ');
    case Some(r) =>
      assert scheme + " " + token + " " + r == scheme + [' '] + (token + [' '] + r);
      Text.SplitPrefix(scheme, token + [' '] + r, ' ');
      Text.SplitPrefix(token, r, ' ');
  }

  /** A doubled space leaves the second field empty, so the request is refused. */
  lemma DoubleSpaceRefused(token: string)
    ensures ExtractToken(Some("Bearer  " + token)) == None
  {
    assert "Bearer  " + token == "Bearer" + [' '] + ("" + [' '] + token);
    Text.SplitPrefix("Bearer", "" + [' '] + token, ' ');
    Text.SplitPrefix("", token, ' ');
  }

  datatype AuthOutcome = Unauthorized | Authenticated(userId: nat)
  {
    function Status(): int {
      if Unauthorized? then 401 else 200
    }
  }

  /** The whole of `authenticateToken` (lines 7-60). Signature checking is the map `verified`:
      a token in it verifies and carries that user id; any other token is expired or
      invalid. `users` are the ids the user table holds. */
  function Authenticate(header: Option<string>, verified: map<string, nat>, users: set<nat>): (r: AuthOutcome)
    ensures r.Authenticated? <==>
              exists token :: ExtractToken(header) == Some(token) && token in verified && verified[token] in users
    ensures r.Authenticated? ==> r.userId in users
  {
    match ExtractToken(header)
    case None => Unauthorized
    case Some(token) =>
      if token !in verified then Unauthorized
      else if verified[token] !in users then Unauthorized
      else Authenticated(verified[token])
  }

  /*** checkQuizOwnership and checkSessionHost ***/

  datatype GuardOutcome = MissingId | NotPermitted | Next
  {
    function Status(): int {
      match this
      case MissingId => 400
      case NotPermitted => 403
      case Next => 200
    }
  }

  /** `checkQuizOwnership` (lines 63-95). The route parameter is `None` when it is absent or
      empty, the only falsy strings; otherwise it is the number the query compares `id` with,
      so a parameter `"0"` is present and is looked up like any other id. */
  function CheckQuizOwnership(quizzes: seq<QuizRow>, userId: nat, quizId: Option<nat>): (r: GuardOutcome)
    ensures r == MissingId <==> quizId.None?
    ensures r == NotPermitted <==>
              quizId.Some? && forall k :: 0 <= k < |quizzes| ==> !(quizzes[k].id == quizId.value && quizzes[k].ownerId == userId)
  {
    match quizId
    case None => MissingId
    case Some(id) =>
      if exists k :: 0 <= k < |quizzes| && quizzes[k].id == id && quizzes[k].ownerId == userId then Next
      else NotPermitted
  }

  /** `checkSessionHost` (lines 98-130), with the route parameter read as above. */
  function CheckSessionHost(sessions: seq<SessionRow>, userId: nat, sessionId: Option<nat>): (r: GuardOutcome)
    ensures r == MissingId <==> sessionId.None?
    ensures r == NotPermitted <==>
              sessionId.Some? && forall k :: 0 <= k < |sessions| ==> !(sessions[k].id == sessionId.value && sessions[k].hostId == userId)
  {
    match sessionId
    case None => MissingId
    case Some(id) =>
      if exists k :: 0 <= k < |sessions| && sessions[k].id == id && sessions[k].hostId == userId then Next
      else NotPermitted
  }

  /** Passing the ownership check is what the update and delete routes rely on: the quiz
      exists, and the caller owns it. */
  lemma OwnershipGuardsQuizRoutes(db: Db, userId: nat, quizId: nat)
    requires CheckQuizOwnership(db.quizzes, userId, Some(quizId)) == Next
    ensures QuizRoutes.QuizExists(db.quizzes, quizId)
    ensures exists k :: 0 <= k < |db.quizzes| && db.quizzes[k].id == quizId && db.quizzes[k].ownerId == userId
  {
  }

  /*** rateLimit ***/

  /** `timestamps.filter(timestamp => timestamp > windowStart)`: the timestamps after the
      window start, in their original order. */
  function Recent(ts: seq<int>, windowStart: int): (r: seq<int>)
    ensures |r| <= |ts|
  {
    if ts == [] then []
    else Recent(ts[..|ts| - 1], windowStart) + (if ts[|ts| - 1] > windowStart then [ts[|ts| - 1]] else [])
  }

  /** The filter keeps exactly the timestamps after the window start. */
  lemma {:induction false} RecentMembers(ts: seq<int>, windowStart: int, t: int)
    ensures t in Recent(ts, windowStart) <==> t in ts && t > windowStart
  {
    if ts != [] {
      var init := ts[..|ts| - 1];
      RecentMembers(init, windowStart, t);
      assert ts == init + [ts[|ts| - 1]];
    }
  }

  /** Filtering a list with one more timestamp filters the list and then that timestamp. */
  lemma RecentSnoc(ts: seq<int>, windowStart: int, t: int)
    ensures Recent(ts + [t], windowStart) == Recent(ts, windowStart) + (if t > windowStart then [t] else [])
  {
    assert (ts + [t])[..|ts|] == ts;
  }

  /** Filtering twice is filtering once against the later window start. */
  lemma {:induction false} RecentTwice(ts: seq<int>, early: int, late: int)
    requires early <= late
    ensures Recent(Recent(ts, early), late) == Recent(ts, late)
  {
    if ts != [] {
      var init, last := ts[..|ts| - 1], ts[|ts| - 1];
      assert ts == init + [last];
      RecentTwice(init, early, late);
      RecentSnoc(init, early, last);
      RecentSnoc(init, late, last);
      if last > early {
        RecentSnoc(Recent(init, early), late, last);
        assert Recent(ts, early) == Recent(init, early) + [last];
      } else {
        assert Recent(ts, early) == Recent(init, early);
        assert Recent(ts, late) == Recent(init, late);
      }
    }
  }

  /** A later window start keeps no more timestamps. */
  lemma {:induction false} RecentShrinks(ts: seq<int>, early: int, late: int)
    requires early <= late
    ensures |Recent(ts, late)| <= |Recent(ts, early)|
  {
    if ts != [] {
      RecentShrinks(ts[..|ts| - 1], early, late);
    }
  }

  /** `requests.get(ip) || []` after the pruning: the address's stored timestamps after the
      window start, or none for an unknown address. */
  function Current(requests: map<string, seq<int>>, ip: string, windowStart: int): (r: seq<int>)
    ensures ip !in requests ==> r == []
    ensures ip in requests ==> |r| <= |requests[ip]|
  {
    if ip in requests then Recent(requests[ip], windowStart) else []
  }

  /** Each stored list is every admitted request of that address after its last pruning,
      holds at most `max` entries, and was pruned no later than `windowStart`. */
  ghost predicate Consistent(requests: map<string, seq<int>>, admitted: map<string, seq<int>>,
                             since: map<string, int>, windowStart: int, max: int) {
    && admitted.Keys == requests.Keys && since.Keys == requests.Keys
    && forall ip :: ip in requests ==> EntryOk(requests, admitted, since, windowStart, max, ip)
  }

  /** The condition `Consistent` puts on one address that has a list. */
  ghost predicate EntryOk(requests: map<string, seq<int>>, admitted: map<string, seq<int>>,
                          since: map<string, int>, windowStart: int, max: int, ip: string)
    requires ip in requests && ip in admitted && ip in since
  {
    && requests[ip] == Recent(admitted[ip], since[ip])
    && |requests[ip]| <= max
    && since[ip] <= windowStart
  }

  /** A refused request only prunes the address's list, which keeps the limiter consistent
      for the later window start. */
  lemma RefuseConsistent(requests: map<string, seq<int>>, admitted: map<string, seq<int>>, since: map<string, int>,
                         oldStart: int, windowStart: int, max: int, ip: string)
    requires Consistent(requests, admitted, since, oldStart, max) && oldStart <= windowStart
    ensures ip in requests ==>
              Consistent(requests[ip := Current(requests, ip, windowStart)], admitted, since[ip := windowStart], windowStart, max)
    ensures ip !in requests ==> Consistent(requests, admitted, since, windowStart, max)
  {
    if ip in requests {
      RecentTwice(admitted[ip], since[ip], windowStart);
      RecentShrinks(requests[ip], since[ip], windowStart);
    }
  }

  /** An admitted request appends `now` to the pruned list and to the history. */
  lemma AdmitConsistent(requests: map<string, seq<int>>, admitted: map<string, seq<int>>, since: map<string, int>,
                        oldStart: int, windowStart: int, max: int, ip: string, now: int)
    requires Consistent(requests, admitted, since, oldStart, max) && oldStart <= windowStart < now
    requires |Current(requests, ip, windowStart)| < max
    ensures var before := if ip in admitted then admitted[ip] else [];
            Consistent(requests[ip := Current(requests, ip, windowStart) + [now]], admitted[ip := before + [now]],
                       since[ip := windowStart], windowStart, max)
  {
    var before := if ip in admitted then admitted[ip] else [];
    var requests' := requests[ip := Current(requests, ip, windowStart) + [now]];
    var admitted', since' := admitted[ip := before + [now]], since[ip := windowStart];
    RecentSnoc(before, windowStart, now);
    if ip in requests {
      assert EntryOk(requests, admitted, since, oldStart, max, ip);
      RecentTwice(admitted[ip], since[ip], windowStart);
      assert Current(requests, ip, windowStart) == Recent(before, windowStart);
    } else {
      assert before == [] && Current(requests, ip, windowStart) == [];
    }
    assert requests'[ip] == Recent(before, windowStart) + [now] == Recent(admitted'[ip], since'[ip]);
    assert EntryOk(requests', admitted', since', windowStart, max, ip);
    assert admitted'.Keys == requests'.Keys && since'.Keys == requests'.Keys;
    forall other | other in requests' && other != ip
      ensures EntryOk(requests', admitted', since', windowStart, max, other)
    {
      assert EntryOk(requests, admitted, since, oldStart, max, other);
    }
  }

  /** The limiter returned by `rateLimit(windowMs, max)`: the map from client address to the
      timestamps of its recent admitted requests. The ghost fields record every admitted
      request of each address, the window start at which its list was last pruned, and the
      latest clock reading, to state the sliding-window promise. */
  class RateLimiter {
    const windowMs: int
    const max: int
    var requests: map<string, seq<int>>
    ghost var admitted: map<string, seq<int>>
    ghost var since: map<string, int>
    ghost var clock: int

    /** Each stored list is every admitted request of that address after its last pruning,
        holds at most `max` entries, and was pruned no later than the current window start. */
    ghost predicate Valid()
      reads this
    {
      && windowMs > 0
      && Consistent(requests, admitted, since, clock - windowMs, max)
    }

    /** `rateLimit(windowMs, max)`; the clock starts at the epoch. */
    constructor (windowMs: int, max: int)
      requires windowMs > 0
      ensures this.windowMs == windowMs && this.max == max
      ensures requests == map[] && admitted == map[] && Valid()
    {
      this.windowMs := windowMs;
      this.max := max;
      requests := map[];
      admitted := map[];
      since := map[];
      clock := 0;
    }

    /** `rateLimit()`: a 15-minute window and 100 requests. */
    constructor Default()
      ensures windowMs == 15 * 60 * 1000 && max == 100
      ensures requests == map[] && admitted == map[] && Valid()
    {
      windowMs := 15 * 60 * 1000;
      max := 100;
      requests := map[];
      admitted := map[];
      since := map[];
      clock := 0;
    }

    /** The clock does not run backwards between requests. */
    ghost predicate Monotone(now: int)
      reads this
    {
      clock <= now
    }

    /** One request from `ip` at `now`: prune that address's list, refuse with 429 when the
        pruned list already holds `max` entries, otherwise record `now` and admit. */
    method Handle(ip: string, now: int) returns (admit: bool)
      requires Valid() && Monotone(now)
      modifies this
      ensures Valid() && clock == now
      ensures admit == (|Current(old(requests), ip, now - windowMs)| < max)
      ensures requests == if admit then old(requests)[ip := Current(old(requests), ip, now - windowMs) + [now]]
                          else if ip in old(requests) then old(requests)[ip := Current(old(requests), ip, now - windowMs)]
                          else old(requests)
      ensures admitted == if admit then old(admitted)[ip := (if ip in old(admitted) then old(admitted)[ip] else []) + [now]]
                          else old(admitted)
    {
      var windowStart := now - windowMs;
      var current := Current(requests, ip, windowStart);
      assert current == Current(old(requests), ip, now - windowMs);
      if |current| >= max {
        var requests' := if ip in requests then requests[ip := current] else requests;
        ghost var since' := if ip in requests then since[ip := windowStart] else since;
        RefuseConsistent(requests, admitted, since, clock - windowMs, windowStart, max, ip);
        assert Consistent(requests', admitted, since', now - windowMs, max);
        requests, since, clock := requests', since', now;
        return false;
      }
      ghost var before := if ip in admitted then admitted[ip] else [];
      var requests' := requests[ip := current + [now]];
      ghost var admitted', since' := admitted[ip := before + [now]], since[ip := windowStart];
      AdmitConsistent(requests, admitted, since, clock - windowMs, windowStart, max, ip, now);
      assert Consistent(requests', admitted', since', now - windowMs, max);
      requests, admitted, since, clock := requests', admitted', since', now;
      return true;
    }

    /** At every moment, an address has at most `max` admitted requests inside the window
        that ends at the latest clock reading. */
    lemma WindowBound(ip: string)
      requires Valid() && ip in admitted
      ensures |Recent(admitted[ip], clock - windowMs)| <= max
    {
      assert ip in requests;
      RecentShrinks(admitted[ip], since[ip], clock - windowMs);
    }
  }
}
