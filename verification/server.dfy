/** The server's global state (`game_sessions`, `room_messages`, `usernames`)
    and the three socket handlers that change it: `join`, `check_answer` and
    `disconnect`. Every handler is a pure transition from one state to the next;
    broadcasts are left out. */
module Server {
  import opened Wrappers
  import opened QuestionBank
  import opened Scoreboard
  import opened Session

  /** One item of a room's message log; the random timestamp is dropped. */
  datatype LogEntry = LogEntry(author: string, text: string)

  /** `game_sessions` keyed by room id, `room_messages` keyed by room id and
      `usernames` keyed by socket id. */
  datatype State = State(
    sessions: map<string, Session>,
    messages: map<string, seq<LogEntry>>,
    usernames: map<string, string>)

  /** The `KeyError`s `check_answer` can raise before it changes anything. */
  datatype Failure = UnknownRoom | UnknownPlayer

  /** The state at start-up. */
  const Initial := State(map[], map[], map[])

  /** Every room has a message log and every log belongs to a room. */
  predicate Consistent(s: State)
  {
    s.sessions.Keys == s.messages.Keys
  }

  /** The log line for an answer: "<user> got the answer correct!" or "... incorrect!". */
  function ResultEntry(user: string, correct: bool): (r: LogEntry)
    ensures r.author == user
    ensures |r.text| > |user| && r.text[..|user|] == user && r.text[|r.text| - 1] == '!'
  {
    LogEntry(user, user + " got the answer " + (if correct then "correct" else "incorrect") + "!")
  }

  /** The log line for a departure: "<user> has left the game.". */
  function LeftEntry(user: string): (r: LogEntry)
    ensures r.author == user
    ensures |r.text| > |user| && r.text[..|user|] == user && r.text[|r.text| - 1] == '.'
  {
    LogEntry(user, user + " has left the game.")
  }

  /** A departure line never reads like an answer line. */
  lemma LeftTextIsNoResult(u: string, c: bool, v: string)
    ensures ResultEntry(u, c).text != LeftEntry(v).text
  {
    var t, w := ResultEntry(u, c).text, LeftEntry(v).text;
    assert t[|t| - 1] != w[|w| - 1];
  }

  /** An answer line's text tells a correct answer from a wrong one, whatever
      the names involved. */
  lemma ResultTextShowsOutcome(u: string, c: bool, v: string, d: bool)
    ensures ResultEntry(u, c).text == ResultEntry(v, d).text ==> c == d
  {
    if c != d {
      var good, bad := if c then u else v, if c then v else u;
      var a, b := good + " got the answer ", bad + " got the answer in";
      assert ResultEntry(good, true).text == a + "correct!";
      assert ResultEntry(bad, false).text == b + "correct!";
      TextsWithDifferentEndings(a, b, "correct!");
    }
  }

  /** `a + z` and `b + z` differ when `a` ends in a space and `b` in a letter. */
  lemma TextsWithDifferentEndings(a: string, b: string, z: string)
    requires |a| > 0 && |b| > 0 && a[|a| - 1] == ' ' && b[|b| - 1] == 'n'
    ensures a + z != b + z
  {
    if |a| == |b| {
      assert (a + z)[|a| - 1] != (b + z)[|a| - 1];
    }
  }

  /** The room's record, or the record a first join would create. */
  function SessionOf(s: State, room: string): Session
  {
    if room in s.sessions then s.sessions[room] else Fresh
  }

  /** The room-level part of a join: the name is appended to the user list,
      its score becomes 0, and a question is issued if none is outstanding. */
  function AddUser(bank: Bank, sess: Session, user: string, pick: int): (r: Session)
    requires sess.current.None? ==> pick in Eligible(bank, sess.used)
    ensures multiset(r.users) == multiset(sess.users) + multiset{user}
    ensures |r.users| == |sess.users| + 1 && r.users[..|sess.users|] == sess.users
    ensures Elements(r.users) == Elements(sess.users) + {user}
    ensures Names(r.scores) == Names(sess.scores) + {user}
    ensures Lookup(r.scores, user) == Some(0)
    ensures forall n | n != user :: Lookup(r.scores, n) == Lookup(sess.scores, n)
    ensures user in Names(sess.scores) ==> Order(r.scores) == Order(sess.scores)
    ensures Distinct(sess.scores) ==> Distinct(r.scores)
    ensures sess.current.Some? ==> r.current == sess.current && r.used == sess.used
    ensures sess.current.None? ==> r.current == Some(Current(pick, bank[pick].prompt)) && pick in r.used
    ensures sess.current.None? && bank.Keys - sess.used != {} ==> r.used == sess.used + {pick}
    ensures sess.current.None? && bank.Keys - sess.used == {} ==> r.used == {pick}
    ensures sess.used <= bank.Keys ==> r.used <= bank.Keys
  {
    var joined := sess.(users := sess.users + [user], scores := Put(sess.scores, user, 0));
    assert joined.users[..|sess.users|] == sess.users;
    assert Elements(joined.users) == Elements(sess.users) + {user};
    PutKeepsDistinct(sess.scores, user, 0);
    PutKeepsPlace(sess.scores, user, 0);
    if joined.current.Some? then joined else Issue(bank, joined, pick)
  }

  /** A name joining for the first time takes the last place in the score
      dictionary's insertion order; by `LeaderboardIsStable` it is then listed
      after every name it ties with. */
  lemma NewNameGoesLast(bank: Bank, sess: Session, user: string, pick: int)
    requires sess.current.None? ==> pick in Eligible(bank, sess.used)
    requires user !in Names(sess.scores)
    ensures Order(AddUser(bank, sess, user, pick).scores) == Order(sess.scores) + [user]
  {
    PutKeepsPlace(sess.scores, user, 0);
  }

  /** `pick` is a value `random.choice` could return if joining issues a question. */
  predicate JoinPickOk(bank: Bank, s: State, room: string, pick: int)
  {
    SessionOf(s, room).current.None? ==> pick in Eligible(bank, SessionOf(s, room).used)
  }

  /** `handle_join`: binds the socket to the name, creates the room and its
      empty log on first use, and adds the name to the room. */
  function Join(bank: Bank, s: State, sid: string, user: string, room: string, pick: int): (r: State)
    requires Consistent(s)
    requires JoinPickOk(bank, s, room, pick)
    ensures Consistent(r)
    ensures r.usernames == s.usernames[sid := user]
    ensures r.sessions.Keys == s.sessions.Keys + {room}
    ensures forall k | k in s.sessions && k != room ::
      r.sessions[k] == s.sessions[k] && r.messages[k] == s.messages[k]
    ensures r.sessions[room] == AddUser(bank, SessionOf(s, room), user, pick)
    ensures room in s.sessions ==> r.messages[room] == s.messages[room]
    ensures room !in s.sessions ==>
      r.messages[room] == [] &&
      r.sessions[room] == Session([user], {pick}, [Entry(user, 0)], Some(Current(pick, bank[pick].prompt)))
  {
    var log := if room in s.sessions then s.messages[room] else [];
    State(
      s.sessions[room := AddUser(bank, SessionOf(s, room), user, pick)],
      s.messages[room := log],
      s.usernames[sid := user])
  }

  /** The room-level part of an answer check: +100 and a new question when
      `correct`, -50 and nothing else otherwise. */
  function Score(bank: Bank, sess: Session, user: string, correct: bool, pick: int): (r: Session)
    requires user in Names(sess.scores)
    requires correct ==> pick in Eligible(bank, sess.used)
    ensures r.users == sess.users
    ensures Names(r.scores) == Names(sess.scores) && Order(r.scores) == Order(sess.scores)
    ensures forall n | n != user :: Lookup(r.scores, n) == Lookup(sess.scores, n)
    ensures Distinct(sess.scores) ==> Distinct(r.scores)
    ensures correct ==>
      && Lookup(r.scores, user) == Some(Lookup(sess.scores, user).value + 100)
      && r.current == Some(Current(pick, bank[pick].prompt))
      && pick in r.used
    ensures correct && bank.Keys - sess.used != {} ==> r.used == sess.used + {pick}
    ensures correct && bank.Keys - sess.used == {} ==> r.used == {pick}
    ensures !correct ==>
      && Lookup(r.scores, user) == Some(Lookup(sess.scores, user).value - 50)
      && r.current == sess.current
      && r.used == sess.used
    ensures sess.used <= bank.Keys ==> r.used <= bank.Keys
  {
    var was := Lookup(sess.scores, user).value;
    var scored := sess.(scores := Put(sess.scores, user, was + if correct then 100 else -50));
    PutKeepsDistinct(sess.scores, user, was + if correct then 100 else -50);
    PutKeepsPlace(sess.scores, user, was + if correct then 100 else -50);
    if correct then Issue(bank, scored, pick) else scored
  }

  /** `pick` is a value `random.choice` could return if the answer check
      issues the next question: the room exists, the name has a score and the
      answer is correct. */
  predicate AnswerPickOk(bank: Bank, s: State, room: string, user: string, qid: int, answer: string, pick: int)
  {
    (room in s.sessions && user in Names(s.sessions[room].scores) && IsCorrect(bank, qid, answer))
      ==> pick in Eligible(bank, s.sessions[room].used)
  }

  /** `handle_check_answer`: scores the answer against the bank's answer for
      `qid` and logs the outcome. `qid` is not compared with the outstanding
      question. An unknown room or an unscored name raises `KeyError` before
      anything changes. */
  function CheckAnswer(bank: Bank, s: State, room: string, user: string, qid: int, answer: string, pick: int)
    : (r: Result<State, Failure>)
    requires Consistent(s)
    requires AnswerPickOk(bank, s, room, user, qid, answer, pick)
    ensures room !in s.sessions ==> r == Failure(UnknownRoom)
    ensures room in s.sessions && user !in Names(s.sessions[room].scores) ==> r == Failure(UnknownPlayer)
    ensures r.Success? <==> room in s.sessions && user in Names(s.sessions[room].scores)
    ensures r.Success? ==>
      && Consistent(r.value)
      && r.value.usernames == s.usernames
      && r.value.sessions.Keys == s.sessions.Keys
      && (forall k | k in s.sessions && k != room ::
            r.value.sessions[k] == s.sessions[k] && r.value.messages[k] == s.messages[k])
      && r.value.sessions[room] == Score(bank, s.sessions[room], user, IsCorrect(bank, qid, answer), pick)
      && r.value.messages[room] == s.messages[room] + [ResultEntry(user, IsCorrect(bank, qid, answer))]
    ensures r.Success? && qid !in bank ==>
      Lookup(r.value.sessions[room].scores, user) == Some(Lookup(s.sessions[room].scores, user).value - 50)
  {
    if room !in s.sessions then Failure(UnknownRoom)
    else if user !in Names(s.sessions[room].scores) then Failure(UnknownPlayer)
    else
      var correct := IsCorrect(bank, qid, answer);
      Success(State(
        s.sessions[room := Score(bank, s.sessions[room], user, correct, pick)],
        s.messages[room := s.messages[room] + [ResultEntry(user, correct)]],
        s.usernames))
  }

  /** The room's record after one occurrence of `name` leaves it. */
  function Leave(sess: Session, name: string): (r: Session)
    requires name in sess.users
    ensures multiset(r.users) == multiset(sess.users) - multiset{name}
    ensures Names(r.scores) == Names(sess.scores) - {name}
    ensures forall n | n != name :: Lookup(r.scores, n) == Lookup(sess.scores, n)
    ensures r.current == sess.current && r.used == sess.used
  {
    sess.(users := RemoveFirst(sess.users, name), scores := Pop(sess.scores, name))
  }

  /** The rooms whose user list holds `name` (`user_sessions`). */
  function RoomsWith(s: State, name: string): set<string>
  {
    set k | k in s.sessions && name in s.sessions[k].users
  }

  /** The rooms `name` leaves with no users (`empty_sessions`). */
  function RoomsEmptiedBy(s: State, name: string): (r: set<string>)
    ensures forall k :: k in r <==> k in s.sessions && s.sessions[k].users == [name]
  {
    set k | k in RoomsWith(s, name) && |RemoveFirst(s.sessions[k].users, name)| == 0
  }

  /** `handle_disconnect`: an unbound socket changes nothing. Otherwise every
      room whose user list holds the bound name loses one occurrence of it and
      its score, and gets a "has left" line; rooms left with no users are
      deleted with their logs; the socket's binding is removed. */
  function Disconnect(s: State, sid: string): (r: State)
    requires Consistent(s)
    ensures sid !in s.usernames ==> r == s
    ensures r.usernames == s.usernames - {sid}
    ensures Consistent(r)
    ensures sid in s.usernames ==> r.sessions.Keys == s.sessions.Keys - RoomsEmptiedBy(s, s.usernames[sid])
  {
    if sid !in s.usernames then s
    else
      var name := s.usernames[sid];
      var left := RoomsWith(s, name);
      var emptied := RoomsEmptiedBy(s, name);
      State(
        map k | k in s.sessions && k !in emptied ::
          if k in left then Leave(s.sessions[k], name) else s.sessions[k],
        map k | k in s.messages && k !in emptied ::
          if k in left then s.messages[k] + [LeftEntry(name)] else s.messages[k],
        s.usernames - {sid})
  }

  /** A room without the departing name is untouched. */
  lemma DisconnectSparesOtherRooms(s: State, sid: string, k: string)
    requires Consistent(s)
    requires sid in s.usernames && k in s.sessions && s.usernames[sid] !in s.sessions[k].users
    ensures var r := Disconnect(s, sid);
      k in r.sessions && r.sessions[k] == s.sessions[k] && r.messages[k] == s.messages[k]
  {
  }

  /** A room holding the departing name is deleted exactly when the name was
      its only user; otherwise it loses one occurrence and the score, and
      logs the departure. */
  lemma DisconnectLeavesRoom(s: State, sid: string, k: string)
    requires Consistent(s)
    requires sid in s.usernames && k in s.sessions && s.usernames[sid] in s.sessions[k].users
    ensures var r, name := Disconnect(s, sid), s.usernames[sid];
      && (k !in r.sessions <==> s.sessions[k].users == [name])
      && (k in r.sessions ==>
            && r.sessions[k] == Leave(s.sessions[k], name)
            && r.messages[k] == s.messages[k] + [LeftEntry(name)])
  {
  }
}
