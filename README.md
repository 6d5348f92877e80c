# Kahoot-style quiz engine: a verified model

This project models the core of a live quiz game server and its host-side quiz editor:

- the socket server's in-memory registry of live sessions and its handlers (`join_session`,
  `request_current`, `request_progress`, `start_game`, `next_question`, `submit_answer`,
  `close_question`, `kick_player`, `leave_session`, `disconnect`), with every emitted
  event and the room or socket it goes to;
- the game HTTP routes: opening a session under a free PIN, joining by PIN, submitting an
  answer (the check pipeline, the time-bonus score, the running total) and the
  leaderboard ranks;
- the quiz HTTP routes: payload validation, storing questions and choices with their
  numbering and defaults inside a transaction that rolls back on failure, replace-all
  update, and the delete guard for quizzes with live sessions;
- the request guards: bearer-token extraction, authentication, the quiz-ownership and
  session-host checks, and the per-IP sliding-window rate limiter;
- the host page's quiz editor: its list operations, the check it runs before saving, and
  the request body it sends.

The database is a value (`Store.Db`: one sequence of rows per table and the
auto-increment counter). It is threaded through the route functions and methods. A
database failure inside a transaction is the parameter `failAt`. Each HTTP or socket
handler is one atomic step. The live registry is the class `LiveServer.GameServer`, whose
fields the handlers update in place. Each of its methods is proved equal to a pure step
function over `LiveServer.Server`, and the lemmas are stated over those functions. The rate
limiter is the class `Guards.RateLimiter`, with its map of timestamps per IP.

Files: `wrappers.dfy` (Option), `text.dfy` (JavaScript `trim` and `split`), `store.dfy`,
`scoring.dfy`, `game_routes.dfy`, `quiz_routes.dfy`, `guards.dfy`, `registry.dfy`,
`live_server.dfy`, `editor.dfy`.

## Model

| member | source | states |
|---|---|---|
| Text.TrimStartFacts | frontend/src/components/Host.jsx:189 | `trim` drops exactly the leading white space and keeps a suffix |
| Text.TrimEndFacts | frontend/src/components/Host.jsx:189 | `trim` drops exactly the trailing white space and keeps a prefix |
| Text.TrimEnds | frontend/src/components/Host.jsx:224 | a trimmed string neither starts nor ends with white space |
| Text.TrimEmptyIffBlank | frontend/src/components/Host.jsx:189 | `!s.trim()` holds exactly when every character of `s` is white space |
| Text.TrimIdempotent | frontend/src/components/Host.jsx:224 | trimming an already trimmed string changes nothing |
| Text.Split | backend/middleware/auth.js:10 | `split(' ')` always yields at least one piece, and no piece contains the separator |
| Text.JoinSplit | backend/middleware/auth.js:10 | joining the pieces of a split with the separator gives back the header |
| Text.SplitJoin | backend/middleware/auth.js:10 | splitting a join of separator-free pieces gives back those pieces |
| Text.SplitNoSep | backend/middleware/auth.js:10 | a string without the separator splits into itself alone |
| Text.SplitPrefix | backend/middleware/auth.js:10 | a separator-free word followed by the separator is the first piece |
| Text.Trim | frontend/src/components/Host.jsx:189 | a trimmed string is never longer than its input (what it drops is stated by the `Trim` lemmas above) |
| Store.SessionById | backend/routes/game.js:203-208 | the session row with that id, or none when no row has it |
| Store.QuestionAt | backend/server.js:56-57 | the question of the quiz at that order, or none when no row matches |
| Store.QuizOfSession | backend/server.js:140 | none exactly when no session row has the id; otherwise the quiz id of a row with that id |
| Store.QuestionCount | backend/server.js:66 | `COUNT(*)` of the quiz's questions: never more than the table holds, and 0 exactly when no question belongs to the quiz |
| Store.QuestionsOf | backend/routes/quiz.js:155-169 | only rows of that quiz, and never more rows than the table holds |
| Store.QuestionsOfComplete | backend/routes/quiz.js:155-169 | no question row of the quiz is missing from its list |
| Store.QuestionsOfAppend | backend/routes/quiz.js:87-90 | appending a question row adds it to its own quiz's questions only |
| Store.SetStatus | backend/server.js:161 | exactly the row with that id gets the new status; every other row is unchanged |
| Store.SetStatusKeepsQuiz | backend/server.js:160-161 | writing a status keeps every session and the quiz it plays |
| Store.TotalScore | backend/routes/game.js:280-284 | `COALESCE(SUM(score_earned),0)`: 0 for a player with no answers in the session, and never negative when no stored score is |
| Store.TotalScoreAppend | backend/routes/game.js:280-284 | storing a player's answer adds its score to that player's total and nothing to anyone else's |
| Scoring.Round | backend/routes/game.js:271 | `Math.round(x)` is the integer r with r <= x + 1/2 < r + 1 |
| Scoring.Score | backend/routes/game.js:266-272 | an incorrect answer scores 0; a correct one scores at least 0 whenever its points (after the 1000 default) are not negative |
| Scoring.MaxTimeMs | backend/routes/game.js:269 | the answer window `(time_limit_s \|\| 20) * 1000` is never 0, and is positive for a non-negative limit |
| Scoring.FloorOfQuotient | backend/routes/game.js:271 | the floor of an exact quotient is integer division |
| Scoring.RoundHalfBonus | backend/routes/game.js:270-271 | the rounded score equals the integer formula `(p*(m+left)+m) / (2m)` |
| Scoring.ScoreIntegerForm | backend/routes/game.js:266-272 | a correct answer's score is the integer formula with `left = max(0, M - t)` |
| Scoring.IntScoreBounds | backend/routes/game.js:269-271 | the integer score lies between round(P/2) and P |
| Scoring.IntScoreMonotone | backend/routes/game.js:270-271 | less time left never gives a higher score |
| Scoring.ScoreBounds | backend/routes/game.js:266-272 | a correct answer at any non-negative time scores between round(P/2) and P |
| Scoring.ScoreNonIncreasing | backend/routes/game.js:266-272 | a correct answer's score does not increase with the answer time |
| Scoring.ScoreAfterWindow | backend/routes/game.js:270-271 | from the end of the window on, a correct answer scores round(P/2) |
| Scoring.IncorrectScoresZero | backend/routes/game.js:267-268 | a wrong answer scores 0 |
| Scoring.ScoreExample | backend/routes/game.js:266-272 | P=1000, 20 s and t=2000 ms give 950, and so do the defaults for 0 points and 0 s |
| GameRoutes.ActiveSessionIdsWithPin | backend/routes/game.js:35-38 | the lookup is empty exactly when no waiting or running session uses the PIN |
| GameRoutes.ChoosePin | backend/routes/game.js:31-42 | the loop returns the first draw that no waiting or running session uses, and none exactly when every draw is taken |
| GameRoutes.CreateSession | backend/routes/game.js:12-68 | 403 exactly when the caller does not own the quiz; otherwise one waiting session is stored under a free PIN, and active PINs stay unique |
| GameRoutes.EndingKeepsPinsUnique | backend/routes/game.js:386-389 | ending a session keeps the active PINs unique |
| GameRoutes.RestartCanDuplicatePin | backend/routes/game.js:358-379 | moving an ended session back to running can make two active sessions share a PIN |
| GameRoutes.WaitingSessionWithPin | backend/routes/game.js:134-144 | a waiting session with that PIN, and none exactly when no waiting session has it |
| GameRoutes.Join | backend/routes/game.js:121-187 | a player is stored only with a PIN and a nickname, into a waiting session of that PIN, under a nickname unused in the session, as a new row with the next id; every refusal leaves the store unchanged |
| GameRoutes.JoinCheckOrder | backend/routes/game.js:125-166 | each refusal happens exactly when its check fails after the earlier ones passed, in the order missing field (400), no waiting session with the PIN (404), nickname taken (400); a player is admitted into the found session exactly when all three pass |
| GameRoutes.JoinKeepsNicknamesUnique | backend/routes/game.js:149-166 | nicknames stay unique within each session |
| GameRoutes.JoinTwiceRefused | backend/routes/game.js:149-159 | `NicknameUsed` finds an admitted nickname: after a successful join the nickname is used in that session, and the same PIN and nickname are then refused with 400 |
| GameRoutes.QuestionById | backend/routes/game.js:242-254 | the question row with that id, and none exactly when no row has it |
| GameRoutes.ChoiceOfQuestion | backend/routes/game.js:252-253 | a choice row with that id that belongs to that question, and none exactly when there is no such row |
| GameRoutes.QuestionAndChoice | backend/routes/game.js:241-263 | a found pair is a stored question with that id and a stored choice with that id belonging to it |
| GameRoutes.QuestionAndChoiceNone | backend/routes/game.js:256-261 | the lookup fails (400) exactly when no question has the id or no choice with that id belongs to it |
| GameRoutes.ScoredRow | backend/routes/game.js:263-278 | the stored answer keeps the request's session, player and question; an incorrect choice is stored with `is_correct` 0 and score 0, a correct one with 1 and a score that is not negative when the points are not |
| GameRoutes.SubmitAnswer | backend/routes/game.js:190-302 | an admitted answer stores exactly one row with the computed score, and the total is the earlier total plus that score; every refusal leaves the store unchanged |
| GameRoutes.SubmitAnswerCheckOrder | backend/routes/game.js:195-261 | which error is returned is decided in the fixed order: missing field, session not running, player not in session, already answered, no such question/choice pair |
| GameRoutes.SubmitAnswerKeepsAnswersUnique | backend/routes/game.js:228-239 | at most one answer per (session, player, question) after a submission |
| GameRoutes.ReplayKeepsUniqueness | backend/routes/game.js:121-302 | over any sequence of joins, answers and status changes, nicknames per session and answers per (session, player, question) stay unique |
| GameRoutes.Standings | backend/routes/game.js:323-336 | no more standings than player rows |
| GameRoutes.StandingsComplete | backend/routes/game.js:323-336 | every player row of the session gives a standing with its summed score and join time, and every standing comes from such a row |
| GameRoutes.InsertStanding | backend/routes/game.js:335 | inserting into an ordered board keeps it ordered and adds exactly that standing |
| GameRoutes.SortStandings | backend/routes/game.js:335 | the board is ordered by score descending, then earliest join, and is a permutation of the standings |
| GameRoutes.LeaderboardRanks | backend/routes/game.js:335-342 | ranks are exactly 1..n in the returned order, which is by score and then join time, and every player appears once |
| GameRoutes.Leaderboard | backend/routes/game.js:304-342 | 404 (none) exactly when no session has the id; otherwise the entry at position i has rank i + 1 |
| GameRoutes.Apply | backend/routes/game.js:358-389 | replaying a request never touches quizzes, questions or choices; only `/start` and `/end` write sessions, and only their status; only a join adds players; only an answer adds answers |
| QuizRoutes.CountCorrect | backend/routes/quiz.js:62 | the number of choices marked correct is 0 exactly when none is |
| QuizRoutes.Validate | backend/routes/quiz.js:45-69 | the verdict is accepted exactly when the title and questions are present and every question has content, four choices and one correct; otherwise it names the first failing question, 1-based |
| QuizRoutes.NormalizedQuestion | backend/routes/quiz.js:88-100 | the stored view of a question: its content and order, no image exactly when the URL is empty, time limit 20 and points 1000 when 0, and each choice's content, `is_correct` 1 exactly when marked correct and order j + 1 |
| QuizRoutes.Normalized | backend/routes/quiz.js:85-101 | one stored question per payload question, numbered from 1 in payload order with its content |
| QuizRoutes.ChoicesOf | backend/server.js:59 | only choice rows of that question |
| QuizRoutes.ChoicesOfComplete | backend/server.js:59 | no choice row of the question is missing from its list |
| QuizRoutes.ChoicesOfAppend | backend/routes/quiz.js:95-100 | appending a choice row adds it to its own question's choices only |
| QuizRoutes.NoChoicesFor | backend/routes/quiz.js:92 | a question id not yet handed out has no choices |
| QuizRoutes.NoQuestionsFor | backend/routes/quiz.js:82 | a quiz id not yet handed out has no questions |
| QuizRoutes.ExtendsTrans | backend/routes/quiz.js:85-102 | append-only growth of the question and choice tables composes |
| QuizRoutes.ChoiceViewsAppend | backend/routes/quiz.js:95-100 | one more choice row gives one more choice in the stored view |
| QuizRoutes.AddQuestionRow | backend/routes/quiz.js:87-92 | a freshly numbered question starts with no choices and keeps the store well formed |
| QuizRoutes.ViewsAfterChoices | backend/routes/quiz.js:85-101 | inserting a question and then its choices adds exactly that question's view |
| QuizRoutes.ChoicesKeepWellFormed | backend/routes/quiz.js:95-100 | choice rows of an existing question keep the store well formed |
| QuizRoutes.InsertChoices | backend/routes/quiz.js:95-101 | choice j is stored with `order_index` j+1 and `is_correct` 1/0, in order, and other questions' choices are untouched |
| QuizRoutes.InsertQuestion | backend/routes/quiz.js:86-101 | the quiz gains exactly the normalised question: defaults 20 s and 1000 points, no image for "", its choices; other quizzes are untouched |
| QuizRoutes.QuestionInserted | backend/routes/quiz.js:87-100 | the stored row and its choices make up the normalised question |
| QuizRoutes.InsertQuestions | backend/routes/quiz.js:85-102 | question i is stored with `order_index` i+1; the quiz gains exactly the normalised list; other quizzes are untouched |
| QuizRoutes.DropQuestions | backend/routes/quiz.js:240 | no question of the quiz is left |
| QuizRoutes.DropChoices | backend/routes/quiz.js:239 | no choice of those questions is left |
| QuizRoutes.DropQuiz | backend/routes/quiz.js:308 | exactly the quiz with that id is removed |
| QuizRoutes.DropQuestionsOf | backend/routes/quiz.js:240 | after the delete, the quiz has no questions and other quizzes keep theirs |
| QuizRoutes.DropChoicesOf | backend/routes/quiz.js:239 | after the delete, those questions have no choices and others keep theirs |
| QuizRoutes.DropQuestionsIncreasing | backend/routes/quiz.js:240 | deleting rows keeps question ids increasing |
| QuizRoutes.DropKeepsWellFormed | backend/routes/quiz.js:239-240 | deleting a quiz's questions and choices keeps the store well formed |
| QuizRoutes.DropKeepsOtherQuiz | backend/routes/quiz.js:239-240 | deleting one quiz's questions leaves every other quiz as stored |
| QuizRoutes.OtherQuestionKept | backend/routes/quiz.js:239 | a question of another quiz is not among the deleted ids |
| QuizRoutes.DropQuizRows | backend/routes/quiz.js:306-308 | after the delete, the quiz has neither questions nor choices |
| QuizRoutes.CreateQuiz | backend/routes/quiz.js:39-129 | rejected exactly when validation fails; a failure rolls back to the original store; on success the quiz row is added, the stored quiz equals the normalised payload, `questionCount` is the number of questions, and other quizzes are untouched |
| QuizRoutes.SetQuizFields | backend/routes/quiz.js:233-236 | only that quiz's title, description and visibility change |
| QuizRoutes.UpdateQuiz | backend/routes/quiz.js:203-284 | rejected exactly when validation fails; a failure rolls back; on success the quiz's questions are exactly the submitted list and no old question or choice survives |
| QuizRoutes.ReplacedRowsAreFresh | backend/routes/quiz.js:239-260 | every question stored by the update is new, and no choice row points at a deleted question |
| QuizRoutes.ClearedForUpdate | backend/routes/quiz.js:233-240 | after the quiz row is updated and its questions and choices are deleted, the store is still well formed and the quiz id is below the next fresh id |
| QuizRoutes.QuestionsReplaced | backend/routes/quiz.js:239-260 | delete-then-insert leaves exactly the normalised new questions under the quiz, every other quiz as stored, and only fresh question ids, with no choice pointing at a deleted question |
| QuizRoutes.DeleteQuiz | backend/routes/quiz.js:287-321 | refused exactly while a session of the quiz is active, playing, waiting or running; otherwise the quiz and all its questions and choices go |
| Guards.ExtractToken | backend/middleware/auth.js:9-17 | a token is the non-empty second space-separated field of the header, and there is one exactly then |
| Guards.BearerTokenExtracted | backend/middleware/auth.js:10 | `"<scheme> <token>"` (and anything after a further space) yields the token, whatever the scheme word |
| Guards.DoubleSpaceRefused | backend/middleware/auth.js:10-17 | two spaces after the scheme give an empty second field, hence no token |
| Guards.Authenticate | backend/middleware/auth.js:7-60 | authenticated exactly when a token is extracted, verifies, and names an existing user |
| Guards.CheckQuizOwnership | backend/middleware/auth.js:63-95 | 400 exactly when the route parameter is absent or empty; a present id, `0` included, is looked up, and the answer is 403 exactly when no quiz has that id and owner; otherwise next |
| Guards.CheckSessionHost | backend/middleware/auth.js:98-130 | 400 exactly when the route parameter is absent or empty; a present id, `0` included, is looked up, and the answer is 403 exactly when no session has that id and host; otherwise next |
| Guards.OwnershipGuardsQuizRoutes | backend/routes/quiz.js:203 | a request let through by the ownership check names an existing quiz of the caller |
| Guards.RecentMembers | backend/middleware/auth.js:170 | a timestamp survives the pruning exactly when it is later than the window start |
| Guards.RecentSnoc | backend/middleware/auth.js:170-182 | pruning after an append is pruning before it, plus the new time when it is in the window |
| Guards.RecentTwice | backend/middleware/auth.js:170 | pruning with an early window start and then a later one is pruning with the later one |
| Guards.RecentShrinks | backend/middleware/auth.js:170 | a later window start never keeps more timestamps |
| Guards.Current | backend/middleware/auth.js:169-173 | an unknown IP has no requests, and a known one never more than stored |
| Guards.RefuseConsistent | backend/middleware/auth.js:169-180 | a refused request keeps the stored lists equal to the pruned history of admitted times |
| Guards.AdmitConsistent | backend/middleware/auth.js:182-183 | an admitted request keeps that correspondence and keeps every list at most `max` long |
| Guards.RateLimiter.constructor | backend/middleware/auth.js:160-161 | a limiter starts with no requests |
| Guards.RateLimiter.Default | backend/middleware/auth.js:160 | the defaults are a 15-minute window and 100 requests |
| Guards.RateLimiter.Handle | backend/middleware/auth.js:163-185 | admitted exactly when the pruned list holds fewer than `max`; only this IP's entry changes: pruned, plus `now` when admitted; a refusal is not recorded |
| Guards.RateLimiter.WindowBound | backend/middleware/auth.js:175-183 | at most `max` requests of one IP are admitted within any window |
| Registry.IndexOf | backend/server.js:104 | the first position holding that player id, and none exactly when no entry has it |
| Registry.Get | backend/server.js:239 | `players.get(id)` finds an entry exactly when the id is present |
| Registry.Put | backend/server.js:104 | `players.set` replaces a known id in place or appends a new one, leaving the other entries as they were |
| Registry.Remove | backend/server.js:242 | `players.delete` removes one entry when the id is present and nothing otherwise |
| Registry.PutGet | backend/server.js:104 | after `set`, the id maps to the new entry and ids stay unique |
| Registry.PutOther | backend/server.js:104 | `set` does not change any other id's entry |
| Registry.IndexAgree | backend/server.js:104 | rosters holding an id at the same places agree on its lookup |
| Registry.RemoveGet | backend/server.js:242 | after `delete`, the id is gone, ids stay unique, and other ids' entries are unchanged |
| Registry.RemovedKeepsUnique | backend/server.js:242 | deleting the entry at its position keeps the remaining ids unique |
| Registry.RemovedLacksId | backend/server.js:242 | after deleting the entry at its position no entry has that id |
| Registry.RemovedKeepsOther | backend/server.js:242 | deleting one id leaves the lookup of every other id as it was |
| Registry.FirstWithSocket | backend/server.js:276-277 | the first roster position whose socket is the caller's, or none when no player uses it |
| Registry.Listing | backend/server.js:110 | the player list has one entry per roster entry, in insertion order |
| Registry.NewSession | backend/server.js:84 | a new session has no players, no host and status waiting |
| LiveServer.EmitQuestion | backend/server.js:55-70 | found exactly when the quiz has a question at that order; then exactly one event goes to the target, `question_displayed` with that question of that quiz, the quiz's question count and the order; otherwise nothing is sent |
| LiveServer.ReplayQuestion | backend/server.js:127-133 | nothing before the game starts, after the question closed, or for an unknown quiz; otherwise the open question is sent to the asking socket exactly when the quiz has a question at the current order, as one `question_displayed` with that question, the count and the order |
| LiveServer.ProgressAfterClose | backend/server.js:212-216 | one `question_progress` (current order, the quiz's question count, closed) to the room exactly when the session's quiz is known, nothing otherwise |
| LiveServer.Join | backend/server.js:76-134 | no session id: an `app_error` to the caller only and nothing else changes; otherwise the session is created (empty, hostless, waiting) if new; a host join sets the host and sends `host_joined` to the room, the roster to the caller, then the replay; a player join without id or nickname leaves the created entry and sends `app_error`; a complete player join puts the player under the caller's socket and sends `player_joined` to the room without the caller, the roster to the room, to the host when one is set and to the caller, then the replay |
| LiveServer.RequestCurrent | backend/server.js:137-143 | changes nothing, and sends the session's replay (the open question, when there is one) to the asking socket only; nothing for an unknown session |
| LiveServer.RequestProgress | backend/server.js:146-153 | changes nothing; for a known session of a known quiz the caller gets the current order (0 when unset), the question count and the closed flag |
| LiveServer.StartGame | backend/server.js:156-173 | only the session's host changes anything; for the host the stored row becomes `in_progress` and nothing else in the database changes; with an unknown quiz the live entry is kept and nothing is sent; otherwise `currentOrder` becomes 1, the answers are emptied, the question reopens, and the room gets exactly `game_started` followed by the order-1 `question_displayed` (question, count, order 1) when that question exists and by nothing otherwise |
| LiveServer.NextQuestion | backend/server.js:176-190 | only the host of a session with a known quiz changes anything; the order moves to `(currentOrder \|\| 1) + 1`, answers and closed flag reset; a missing question sends exactly `game_ended` and marks the row ended, otherwise the database is kept and exactly one `question_displayed` (that question, the count, the new order) goes to the room |
| LiveServer.CloseQuestion | backend/server.js:222-233 | only the host changes anything; an already closed question stays closed and nothing is sent; otherwise it closes and the room gets exactly `question_closed` followed by the progress of the closed question (nothing more for an unknown quiz) |
| LiveServer.KickPlayer | backend/server.js:236-246 | only the host, and only for a present player: that player is told, deleted, and the room gets `player_left` and then the roster without the player |
| LiveServer.SubmitAnswer | backend/server.js:193-219 | for a known session, the caller's player id joins the answer set with no closed or status check; the room without the sender gets `player_answered`; the question closes exactly when it was open and answers cover the roster, and then exactly `question_closed` and the progress follow; nothing else is sent |
| LiveServer.LeaveSession | backend/server.js:249-261 | any socket may remove any present player; the session is deleted when the roster becomes empty, even with a host attached; the room gets exactly `player_left` and then the roster without the player |
| LiveServer.DropSocket | backend/server.js:276-284 | removes the first player on the caller's socket, if any, and announces it |
| LiveServer.Disconnect | backend/server.js:263-286 | the socket is forgotten; the current host only clears the host; otherwise the first player on the socket goes, and the session is deleted when no player and no host remain |
| LiveServer.Connect | backend/server.js:72 | a new socket joins with no session, no host flag and no rooms |
| LiveServer.Dispatch | backend/server.js:74-286 | an event from a socket that never connected changes nothing and sends nothing; no handler touches any table but the sessions' status column, and none adds or removes a session row |
| LiveServer.JoinKeepsInv | backend/server.js:78-104 | no session under id 0, unique player ids, and status waiting are kept by a join |
| LiveServer.KickKeepsInv | backend/server.js:242 | the registry invariant is kept by a kick |
| LiveServer.LeaveKeepsInv | backend/server.js:254-259 | the registry invariant is kept by a leave |
| LiveServer.DisconnectKeepsInv | backend/server.js:270-285 | the registry invariant is kept by a disconnect |
| LiveServer.QuestionHandlersKeepInv | backend/server.js:156-233 | start, next, close and submit keep the registry invariant; in particular the in-memory status never changes |
| LiveServer.StartKeepsInv | backend/server.js:156-173 | `start_game` keeps the registry invariant |
| LiveServer.NextKeepsInv | backend/server.js:176-190 | `next_question` keeps the registry invariant |
| LiveServer.DispatchKeepsInv | backend/server.js:74-286 | every handler keeps the registry invariant |
| LiveServer.RunKeepsInv | backend/server.js:74-286 | the invariant holds after any sequence of socket events |
| LiveServer.CloseIdempotent | backend/server.js:225 | closing twice is closing once, and the second close sends nothing |
| LiveServer.SubmitRepeat | backend/server.js:199-200 | a repeated submission from the same socket does not grow the answer set |
| LiveServer.CountClosed | backend/server.js:211 | never more `question_closed` events than events |
| LiveServer.CountClosedAppend | backend/server.js:211 | counting `question_closed` events distributes over concatenation |
| LiveServer.NoClosed | backend/server.js:211 | a list without `question_closed` counts 0 |
| LiveServer.SubmitClosesOnce | backend/server.js:209-211 | one submission sends `question_closed` at most once, and only when it closes an open question |
| LiveServer.CloseSendsClosedOnce | backend/server.js:222-233 | `close_question` sends `question_closed` exactly once when the host closes an open question, and never otherwise |
| LiveServer.AutoCloseAtMostOnce | backend/server.js:209-211 | across any run of submissions a question is auto-closed at most once per opening |
| LiveServer.LeaveDeletesHostedSession | backend/server.js:259 | the last player leaving deletes the session although a host is attached |
| LiveServer.RemovalKeepsOthers | backend/server.js:242-259 | kick and leave remove only the named player, and the answer set is not pruned |
| LiveServer.GameServer.constructor | backend/server.js:39 | the registry starts empty and satisfies its invariant |
| LiveServer.GameServer.OnConnection | backend/server.js:74 | the new state and the events are those of `Connect` |
| LiveServer.GameServer.OnJoinSession | backend/server.js:76-134 | the new state and the events are those of `Join` |
| LiveServer.GameServer.OnRequestCurrent | backend/server.js:137-143 | the events are those of `RequestCurrent` and nothing changes |
| LiveServer.GameServer.OnRequestProgress | backend/server.js:146-153 | the events are those of `RequestProgress` and nothing changes |
| LiveServer.GameServer.OnStartGame | backend/server.js:156-173 | the new state and the events are those of `StartGame` |
| LiveServer.GameServer.OnNextQuestion | backend/server.js:176-190 | the new state and the events are those of `NextQuestion` |
| LiveServer.GameServer.OnSubmitAnswer | backend/server.js:193-219 | the new state and the events are those of `SubmitAnswer` |
| LiveServer.GameServer.OnCloseQuestion | backend/server.js:222-233 | the new state and the events are those of `CloseQuestion` |
| LiveServer.GameServer.OnKickPlayer | backend/server.js:236-246 | the new state and the events are those of `KickPlayer` |
| LiveServer.GameServer.OnLeaveSession | backend/server.js:249-261 | the new state and the events are those of `LeaveSession` |
| LiveServer.GameServer.OnDisconnect | backend/server.js:263-286 | the roster loop with `break` finds the first player on the socket; the new state and the events are those of `Disconnect` |
| Editor.Reset | frontend/src/components/Host.jsx:251-265 | the form is cleared to a blank title and description and one blank question |
| Editor.AddQuestion | frontend/src/components/Host.jsx:267-279 | one blank question is appended and the existing ones are unchanged |
| Editor.RemoveQuestion | frontend/src/components/Host.jsx:281-285 | the question at the index goes only when more than one exists, the others keep their order, and the list is never emptied |
| Editor.UpdateQuestion | frontend/src/components/Host.jsx:287-291 | exactly the named field of the named question changes |
| Editor.UpdateChoice | frontend/src/components/Host.jsx:293-300 | exactly the text of the named choice changes |
| Editor.MarkedCorrect | frontend/src/components/Host.jsx:302-308 | choice `ci` is the only one marked correct and every text is kept |
| Editor.SetCorrectChoice | frontend/src/components/Host.jsx:302-308 | the loop marks exactly choice `ci` of question `qi` correct and changes nothing else |
| Editor.LoadedQuestion | frontend/src/components/Host.jsx:107-112 | a loaded question has a non-zero time limit and point value, 20 and 1000 replacing 0, and its choices' correctness is the stored flag being non-zero |
| Editor.LoadForEdit | frontend/src/components/Host.jsx:105-113 | the stored questions in order, or one blank question when the quiz has none |
| Editor.Filled | frontend/src/components/Host.jsx:202 | the filter keeps only choices of the list with non-blank text |
| Editor.FilledComplete | frontend/src/components/Host.jsx:202 | every choice with non-blank text survives the filter |
| Editor.FilledAllText | frontend/src/components/Host.jsx:229 | a list of non-blank choices passes the filter whole |
| Editor.FilledTwice | frontend/src/components/Host.jsx:229 | filtering twice is filtering once |
| Editor.ClientValidate | frontend/src/components/Host.jsx:188-213 | ready exactly when the title is non-blank and every question has non-blank text, four non-blank choices and one correct among them; otherwise the first failing question and its reason, 1-based |
| Editor.Payload | frontend/src/components/Host.jsx:223-232 | the body has the trimmed title and description, is never public, and has one trimmed question per form question |
| Editor.QuestionBody | frontend/src/components/Host.jsx:227-232 | the trimmed content without an image, the time limit and points as edited, only choices with text, and every choice with text kept |
| Editor.QuestionBodyAccepted | frontend/src/components/Host.jsx:197-212 | the server accepts a question of the body exactly when the page accepts the question |
| Editor.ServerAcceptsPayload | frontend/src/components/Host.jsx:188-232 | the server's validation accepts the body exactly when the page's check passes and the form has a question |
| Editor.CorrectAmongFilled | frontend/src/components/Host.jsx:202-208 | with one choice marked, the non-blank choices hold one correct answer when that choice has text and none otherwise |
| Editor.CountCorrectCons | frontend/src/components/Host.jsx:208 | counting correct choices over a one-element prefix adds its count |
| Editor.MarkedCorrectCount | frontend/src/components/Host.jsx:302-308 | after `setCorrectChoice`, the correct-answer check counts one when the marked choice has text and zero otherwise |
| Editor.ReopenQuestion | frontend/src/components/Host.jsx:107-112 | a question sent, stored and loaded back is sent and stored the same way again |
| Editor.ReopenAndSave | frontend/src/components/Host.jsx:96-113 | saving, reopening and saving again stores the same title, description and questions |
| Editor.EditsKeepEditable | frontend/src/components/Host.jsx:251-308 | after any sequence of editor actions the form has a question, so a form the page accepts is never refused by the server's validation |

## Left out

- Socket.io transport, Express routing and JSON envelopes: events are `(target, event)` values and HTTP answers are result datatypes with their status codes.
- MySQL is a value `Store.Db` with one auto-increment counter shared by all tables. It is not a per-table counter. Concurrent handlers interleaving at `await` points are not modelled: each handler is one atomic step.
- A database error is the parameter `failAt` (which statement fails). Errors outside transactions (the 500 paths of the routes) are not modelled.
- The 250 ms `setTimeout` before the first question in `start_game`: the question is emitted right after `game_started`.
- The SIGTERM/SIGINT handlers, and the configuration constants in `backend/config/optimization.js`, which no modelled code reads.
- GameRoutes.ChoosePin: `generatePinCode` uses `Math.random`, so its draws are the parameter `draws`. The source loops until some draw is free; the model stops after the finite list, and `CreateSession` then returns `NoFreePin`.
- `Math.round` at exact halves: the score uses exact rationals, and halves round up as in `Math.round` for non-negative values.
- The `AVG`/`SUM`/`COUNT` statistics of `/end`, `/stats` and the leaderboard's answer counts. The leaderboard keeps only the total score and join time.
- `backend/routes/auth.js`, and JWT signature checking in `authenticateToken`: verification is the map `verified` from tokens to user ids.
- `checkAdminRole`, the GET routes (quiz lists, quiz details, session lookup, players) and the `/start` and `/end` routes: the latter two are only status writes (`GameRoutes.Apply`).
- The presentation components and `Question.jsx`.
- GameRoutes.NicknameUsed: nicknames are compared exactly. The source's `nickname = ?` compares under the column's collation, which in MySQL's default is case- and accent-insensitive; there "An" and "an" are one nickname, in the model two. The collation is not part of the modelled source.
- QuizRoutes.CreateQuiz and QuizRoutes.UpdateQuiz: a payload without `description` passes validation and the model stores `""`. The source binds `undefined` into the insert or update, which the MySQL driver refuses, so the source answers 500 after a rollback. The driver's behaviour is not part of the modelled source.
- Strings, ids and numbers that are missing or falsy in a request body are "" or 0 in the model. Every check treats them alike, so `null`, `undefined` and `NaN` are not told apart (for example `parseInt` giving `NaN` in the editor).
- GameRoutes.QuestionAndChoice: it takes the first question row with the id, assuming question ids are unique as the store's auto-increment makes them.
- LiveServer.EmitQuestion: the choices list attached to `question_displayed` is not modelled. The event carries the question row.
- LiveServer.Join: `joinedAt` is the parameter `now`.
- Guards.CheckQuizOwnership and Guards.CheckSessionHost: the route parameter is taken already converted to a number, `None` when it is absent or empty. MySQL's conversion of a non-numeric parameter such as `abc` to 0 in `WHERE id = ?` is not modelled.
- Guards.RateLimiter.constructor: it requires `windowMs > 0`. A zero or negative window is not modelled.
- Guards.RateLimiter.Handle: it requires a clock that does not go backwards (`Monotone`). `Date.now()` is the parameter `now`.
- Editor: the form is a value, and each operation returns the next form. `updateChoice` and `setCorrectChoice` mutate choice objects shared with the previous state through a shallow copy; that aliasing is not modelled.
- Editor.UpdateChoice: it requires indexes of an existing question and choice, the only ones the page offers. It models the field `content` only, the only field the page edits this way; correctness is set through `setCorrectChoice`.
- Editor.UpdateQuestion: it requires the index of an existing question. Out of range, the source would add a partial question; the page never does this.
- Editor.ReopenAndSave: it assumes `GET /api/quiz/:id` returns the stored questions and choices in `order_index` order, which is the order the routes store them in. The GET route itself is not modelled.
