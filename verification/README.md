# Quiz room state machine

This project is a Dafny model of the room and session logic of a small real-time quiz server (`backend/server.py`). Clients join named rooms, receive a trivia question, submit answers for +100 / −50 points, see a leaderboard, and leave by disconnecting. The last one out deletes the room.

The server keeps three process-wide dictionaries:

- `game_sessions`: room id → session. Each session holds a user list, a set of used question ids, a score dictionary, and the current question.
- `room_messages`: room id → message log.
- `usernames`: socket id → name.

The model turns them into one immutable `Server.State`. Each socket handler becomes a pure transition over that state:

| source | model |
|---|---|
| `QUESTIONS_DB` | `QuestionBank.QuestionsDb`. Handlers take the bank as a parameter of type `Bank`, a non-empty `map<int, Question>`. |
| `send_random_question` | `Session.Issue` |
| `handle_join` | `Server.Join`. Its room-level part is `Server.AddUser`. |
| `handle_check_answer` | `Server.CheckAnswer`. Its room-level part is `Server.Score`. |
| `send_leaderboard` (the sort) | `Scoreboard.Leaderboard` |
| `handle_disconnect` | `Server.Disconnect`. Its room-level part is `Server.Leave`. |

Files and modules:

- `wrappers.dfy` (`Wrappers`): `Option` and `Result`.
- `questions.dfy` (`QuestionBank`): the bank, the set of ids a random pick may return, and answer matching.
- `scoreboard.dfy` (`Scoreboard`): the score dictionary and the leaderboard sort. The dictionary is a sequence of `name: score` items in insertion order. Python dictionaries keep that order, and the leaderboard breaks ties by it.
- `session.dfy` (`Session`): one room's record, question issuance, and `list.remove`.
- `server.dfy` (`Server`): the global state and the three handlers.
- `events.dfy` (`Events`): runs of socket events and the invariant every reachable state keeps.
- `scenarios.dfy` (`Scenarios`): lemmas about behaviour worth knowing.

`random.choice` is modelled as an explicit `pick` argument. The caller must supply a pick from `QuestionBank.Eligible(bank, used)`. That set is the unused ids, or the whole bank once every id has been used (the used set is reset first). The requirement only applies when the handler actually issues a question: a join into a room with no outstanding question (`JoinPickOk`), or a correct answer from a scored name in an existing room (`AnswerPickOk`).

`check_answer` can raise `KeyError` on an unknown room or on a name with no score. Nothing is changed before the raise, so the model returns `Failure(UnknownRoom)` or `Failure(UnknownPlayer)`. A run of events keeps the state unchanged for such an event.

The handlers require `Consistent(s)`, meaning `game_sessions` and `room_messages` have the same keys. `Events.ReachableStatesAreWellFormed` proves that every state reached from start-up satisfies it.

## Behaviour worth knowing

- **Questions cycle forever.** There is no question cursor, no game total and no end of game.
- **Stale answers are not rejected.** `check_answer` never compares `question_id` with the current question. A correct answer to any question in the bank scores +100 and issues a new question (`Scenarios.StaleAnswerStillScores`). With the shipped bank, ids 0 and 3 share the answer "12", so "12" for id 3 scores while id 0 is outstanding (`Scenarios.SharedAnswerScoresOnShippedBank`).
- **Answers match exactly.** " 12" or "12.0" is wrong where "12" is right (`QuestionBank.ShippedAnswersMatchExactly`).
- **Immediate repeats are possible.** After the used set resets, the question just asked may be drawn again (`Session.ImmediateRepeatAfterReset`). Within a cycle no id repeats (`Session.NoRepeatWithinCycle`).
- **Names are not unique within a room.** `users` is a list, so joining twice lists the name twice while its score is reset to 0 (`Scenarios.RejoinListsNameTwice`).
- **Disconnect can leave a user without a score.** Disconnect removes one occurrence of the name from every room that lists it, and pops the name's score. With a duplicate, the name stays listed but has no score (`Events.DuplicateNameBreaksRoster`). That user's next answer raises `KeyError`.
- **"Listed users == scored names" is only partly guaranteed.** Join keeps the relation (`Events.JoinKeepsRoster`). Disconnect keeps it only in rooms without duplicate names (`Events.DisconnectKeepsRoster`). What every reachable state does satisfy is the one-way inclusion "every scored name is listed" (`Events.RoomOk`).
- **Join adds no log entry.** Only answers and departures are logged.

## Model

| member | source | states |
|---|---|---|
| QuestionBank.Eligible | backend/server.py:78-98 | The ids a pick may come from are bank ids. There is always at least one, so issuing terminates. While unused ids remain, the pick may be any of them and never a used one. Once every id is used, the pick may be any bank id. |
| QuestionBank.ExpectedAnswer | backend/server.py:108 | The expected answer exists exactly for ids in the bank, and it is that question's recorded answer. |
| QuestionBank.IsCorrect | backend/server.py:108-110 | An answer is correct exactly when the id is in the bank and the answer equals its recorded answer, character for character. |
| QuestionBank.ShippedAnswersMatchExactly | backend/server.py:15-21 | With the shipped bank, "12" is correct for both id 0 and id 3. " 12", "12.0" and "5.0" are wrong, and the missing id 5 has no correct answer. |
| Scoreboard.Lookup | backend/server.py:112-117 | `scores[name]` succeeds exactly when the name is a key, and the value read is that key's item in the dictionary. |
| Scoreboard.Put | backend/server.py:60 | Assigning a score adds the key and gives it exactly that value. Every other key's value is unchanged. |
| Scoreboard.PutKeepsPlace | backend/server.py:60 | An existing key keeps its place in insertion order, and a new key goes last. |
| Scoreboard.PutKeepsDistinct | backend/server.py:60 | Assigning a score never makes a key occur twice. |
| Scoreboard.Pop | backend/server.py:156 | Popping removes exactly that key. Every other key's value is unchanged, and keys stay distinct. |
| Scoreboard.PopKeepsOrder | backend/server.py:156 | After popping, the remaining keys keep their insertion order. |
| Scoreboard.LeaderboardIsDescending | backend/server.py:140 | The leaderboard lists scores from highest to lowest. |
| Scoreboard.LeaderboardIsPermutation | backend/server.py:140 | The leaderboard holds exactly the dictionary's items, each as often as in the dictionary. |
| Scoreboard.LeaderboardIsStable | backend/server.py:140 | For every score value, the items with that score appear in their insertion order (Python's `sorted` is stable, also with `reverse=True`). |
| Scoreboard.InsertKeepsDescending | backend/server.py:140 | Placing one item into a descending leaderboard keeps it descending. |
| Scoreboard.InsertKeepsTies | backend/server.py:140 | Inserting an item into a descending leaderboard orders each score's items as if the item had been placed first, ahead of every equal score. |
| Scoreboard.TiesFollowInsertionOrder | backend/server.py:140 | Scores A:100, B:100, C:50 rank A, B, C. The same scores inserted as C, B, A rank B, A, C. |
| Session.Issue | backend/server.py:76-98 | The pick becomes the current question, with the bank's prompt, and is recorded as used. An unused pick extends the used set by itself alone. When every id was used, the used set restarts as just the pick. Used ids stay within the bank. Users and scores are untouched. |
| Session.NoRepeatWithinCycle | backend/server.py:78-91 | While unused ids remain, successive picks are pairwise distinct and none was used before. |
| Session.CycleRecordsPicks | backend/server.py:90-91 | Within a cycle, the used set grows by exactly the picked ids. |
| Session.ImmediateRepeatAfterReset | backend/server.py:95-98 | Once every id is used, the outstanding question's id is eligible again, and picking it leaves the same question outstanding. |
| Session.RemoveFirst | backend/server.py:155 | `list.remove` takes away exactly one occurrence of the name, and the list shrinks by one. |
| Session.RemoveFirstDeletesFirstOccurrence | backend/server.py:155 | The occurrence removed is the first one; the rest keep their order. |
| Session.RemoveFirstMembers | backend/server.py:153-156 | Other names stay on the list. When names are distinct, the removed name is gone entirely. |
| Server.AddUser | backend/server.py:59-73 | The name is appended once and its score is exactly 0, even if it had one. No other score changes, and an existing score keeps its position. An outstanding question and the used set are kept. Without an outstanding question, the pick is issued: the used set gains exactly the pick, or restarts as just the pick when every id was used. |
| Server.NewNameGoesLast | backend/server.py:60 | A name joining for the first time is appended at the end of the score dictionary's insertion order, so ties rank it after everyone already scored. |
| Server.Join | backend/server.py:39-73 | The socket is bound to the name. An unknown room is created with `[name]`, `{pick}`, `name: 0`, the picked question and an empty log. A known room keeps its log. Other rooms are untouched, and both room maps keep equal key sets. |
| Server.Score | backend/server.py:108-118 | A correct answer adds exactly 100 and issues the pick: the used set gains exactly the pick, or restarts as just the pick when every id was used. A wrong one subtracts exactly 50 and leaves the question and used set alone. No other score and no user changes. |
| Server.CheckAnswer | backend/server.py:101-126 | An unknown room or unscored name fails with no change, and otherwise the call succeeds. On success, only that room's session changes, as `Score` describes. The room's log gains exactly one "got the answer correct/incorrect!" line, and other rooms and socket bindings are untouched. An id missing from the bank always scores −50. |
| Server.ResultEntry | backend/server.py:121-126 | The answer line is authored by the user and its text starts with the user's name and ends in "!". |
| Server.LeftEntry | backend/server.py:166-170 | The departure line is authored by the user and its text starts with the user's name and ends in ".". |
| Server.LeftTextIsNoResult | backend/server.py:121-168 | No departure text equals an answer text, whatever the names. |
| Server.ResultTextShowsOutcome | backend/server.py:121 | Two equal answer texts report the same outcome, whatever the names, so the text alone tells correct from incorrect. |
| Server.Leave | backend/server.py:153-157 | A room loses one occurrence of the name and its score entry. Other scores, the question and the used set are kept. |
| Server.RoomsEmptiedBy | backend/server.py:159-161 | A room is emptied exactly when the name was its only entry. |
| Server.Disconnect | backend/server.py:144-178 | An unbound socket changes nothing. Otherwise the binding is dropped and emptied rooms are deleted from both maps. Nothing else is deleted, and the two maps keep equal key sets. |
| Server.DisconnectSparesOtherRooms | backend/server.py:152-153 | A room not listing the name keeps its session and log. |
| Server.DisconnectLeavesRoom | backend/server.py:152-174 | A room listing the name disappears exactly when the name was its only user. Otherwise it has left the name once, as `Leave` describes, and its log gains one "has left the game." line. |
| Events.JoinKeepsInv | backend/server.py:39-73 | A join keeps every room well formed: it has a user, an outstanding bank question recorded as used, used ids within the bank, and distinct scored names that are all listed. |
| Events.CheckAnswerKeepsInv | backend/server.py:101-126 | An answer check keeps every room well formed. |
| Events.DisconnectKeepsInv | backend/server.py:144-178 | A disconnect keeps every room well formed, including "a room exists only while someone is listed". |
| Events.StepKeepsInv | backend/server.py:39-178 | Any single handled event keeps the invariant. |
| Events.ReachableStatesAreWellFormed | backend/server.py:23-30 | Every state reached by any run of join, answer and disconnect events is well formed. |
| Events.InitialIsWellFormed | backend/server.py:24-30 | The empty start-up state is well formed. |
| Events.JoinKeepsRoster | backend/server.py:59-60 | If a room's listed names equal its scored names, they still do after a join. |
| Events.DisconnectKeepsRoster | backend/server.py:152-157 | The same relation survives a disconnect in a room with no duplicate names. |
| Events.DuplicateNameBreaksRoster | backend/server.py:153-156 | A name listed twice is still listed after its socket disconnects but has no score, so the relation fails. |
| Scenarios.StaleAnswerStillScores | backend/server.py:103-114 | A correct answer to a question other than the outstanding one succeeds and is scored exactly as a correct answer. |
| Scenarios.SharedAnswerScoresOnShippedBank | backend/server.py:108-114 | With the shipped bank, "12" sent for id 3 while id 0 is outstanding succeeds and is scored as a correct answer, which `Score` states is exactly +100 and a new question. |
| Scenarios.RejoinListsNameTwice | backend/server.py:59-60 | Joining a room the name is already in lists it at least twice and resets its score to 0. |

## Left out

- Flask, Flask-SocketIO, CORS setup, `join_room`, and the `/rooms` route, which only lists the keys of `game_sessions`. These are transport.
- Every `emit`: `joined`, `room_messages`, `leaderboard`, `question`, `answer_result`, `user_left`. Only the state changes are modelled, not what is broadcast or to whom. For `send_leaderboard`, only its sort is modelled.
- The random `timestamp` string in each log entry. A log entry is just author and text.
- The unused `messages` field of each session.
- Concurrency. The server runs handlers on threads with no locks. The model is sequential, one handler at a time.
- The uniform distribution of `random.choice`. Only the set a pick may come from is modelled.
- An empty question bank. The `Bank` type excludes it. With no questions, `send_random_question` would recurse until Python's recursion limit.
- Payloads that are malformed or of other JSON types. A missing key raises `KeyError` before any change. Values such as a `null` answer or a string `question_id` are outside the model: names, room ids and answers are strings, and question ids are integers.
- States where the two room maps have different keys. The handlers require `Consistent`, which every reachable state satisfies. Outside it the code behaves in two ways. For a room with a session but no log, each handler raises after changing state: join at its log read, an answer check at its log append, and disconnect at its log append. For a room with a log but no session, nothing raises after a partial update: join creates the session and silently resets the log to empty, an answer check raises before any change, and disconnect never touches that log.
- The frontend (`frontend/src/*.jsx`). It is React UI. Its `game_end` and question-number handling refers to events the server never sends.
