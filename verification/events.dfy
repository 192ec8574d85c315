/** Sequences of socket events applied to the server state, and the facts
    that hold in every state they reach. */
module Events {
  import opened QuestionBank
  import opened Scoreboard
  import opened Session
  import opened Server

  /** The socket events the server handles, each with the value its random
      pick would take. */
  datatype Event =
    | OnJoin(sid: string, user: string, room: string, pick: int)
    | OnCheckAnswer(room: string, user: string, qid: int, answer: string, pick: int)
    | OnDisconnect(sid: string)

  predicate PickOk(bank: Bank, s: State, e: Event)
  {
    match e
    case OnJoin(_, _, room, pick) => JoinPickOk(bank, s, room, pick)
    case OnCheckAnswer(room, user, qid, answer, pick) => AnswerPickOk(bank, s, room, user, qid, answer, pick)
    case OnDisconnect(_) => true
  }

  /** One event. A handler that raises leaves the state as it was. */
  function Step(bank: Bank, s: State, e: Event): State
    requires Consistent(s)
    requires PickOk(bank, s, e)
  {
    match e
    case OnJoin(sid, user, room, pick) => Join(bank, s, sid, user, room, pick)
    case OnCheckAnswer(room, user, qid, answer, pick) =>
      var r := CheckAnswer(bank, s, room, user, qid, answer, pick);
      if r.Success? then r.value else s
    case OnDisconnect(sid) => Disconnect(s, sid)
  }

  /** Every event's pick is possible in the state it meets. */
  predicate ValidRun(bank: Bank, s: State, events: seq<Event>)
    decreases |events|
  {
    events == [] ||
    (Consistent(s) && PickOk(bank, s, events[0]) && ValidRun(bank, Step(bank, s, events[0]), events[1..]))
  }

  function Run(bank: Bank, s: State, events: seq<Event>): State
    requires ValidRun(bank, s, events)
    decreases |events|
  {
    if events == [] then s else Run(bank, Step(bank, s, events[0]), events[1..])
  }

  /** What holds of every room the server keeps: it has a user, an
      outstanding question drawn from the bank and recorded as used, and no
      score for anyone off its user list. */
  predicate RoomOk(bank: Bank, sess: Session)
  {
    && |sess.users| > 0
    && sess.used <= bank.Keys
    && sess.current.Some?
    && sess.current.value.id in sess.used
    && sess.current.value.text == bank[sess.current.value.id].prompt
    && Names(sess.scores) <= Elements(sess.users)
    && Distinct(sess.scores)
  }

  predicate Inv(bank: Bank, s: State)
  {
    Consistent(s) && forall k | k in s.sessions :: RoomOk(bank, s.sessions[k])
  }

  lemma JoinKeepsInv(bank: Bank, s: State, sid: string, user: string, room: string, pick: int)
    requires Inv(bank, s)
    requires JoinPickOk(bank, s, room, pick)
    ensures Inv(bank, Join(bank, s, sid, user, room, pick))
  {
    var r := Join(bank, s, sid, user, room, pick);
    assert RoomOk(bank, r.sessions[room]);
  }

  lemma CheckAnswerKeepsInv(bank: Bank, s: State, room: string, user: string, qid: int, answer: string, pick: int)
    requires Inv(bank, s)
    requires AnswerPickOk(bank, s, room, user, qid, answer, pick)
    ensures var r := CheckAnswer(bank, s, room, user, qid, answer, pick);
      r.Success? ==> Inv(bank, r.value)
  {
  }

  lemma DisconnectKeepsInv(bank: Bank, s: State, sid: string)
    requires Inv(bank, s)
    ensures Inv(bank, Disconnect(s, sid))
  {
    var r := Disconnect(s, sid);
    if sid in s.usernames {
      var name := s.usernames[sid];
      forall k | k in r.sessions
        ensures RoomOk(bank, r.sessions[k])
      {
        if name in s.sessions[k].users {
          DisconnectLeavesRoom(s, sid, k);
          var before := s.sessions[k];
          RemoveFirstMembers(before.users, name);
          assert Names(r.sessions[k].scores) == Names(before.scores) - {name};
          assert Elements(r.sessions[k].users) - {name} == Elements(before.users) - {name};
          assert RoomOk(bank, before);
          forall x | x in Names(r.sessions[k].scores)
            ensures x in Elements(r.sessions[k].users)
          {
            assert x in Names(before.scores) && x != name;
            assert x in Elements(before.users) - {name};
          }
        } else {
          DisconnectSparesOtherRooms(s, sid, k);
        }
      }
    }
  }

  lemma StepKeepsInv(bank: Bank, s: State, e: Event)
    requires Inv(bank, s)
    requires PickOk(bank, s, e)
    ensures Inv(bank, Step(bank, s, e))
  {
    match e
    case OnJoin(sid, user, room, pick) => JoinKeepsInv(bank, s, sid, user, room, pick);
    case OnCheckAnswer(room, user, qid, answer, pick) => CheckAnswerKeepsInv(bank, s, room, user, qid, answer, pick);
    case OnDisconnect(sid) => DisconnectKeepsInv(bank, s, sid);
  }

  /** Every state the server can reach from start-up is well formed: the two
      room maps share their keys, and every room satisfies `RoomOk`, so in
      particular a room exists only while it has a user. */
  lemma {:induction false} ReachableStatesAreWellFormed(bank: Bank, s: State, events: seq<Event>)
    requires Inv(bank, s)
    requires ValidRun(bank, s, events)
    ensures Inv(bank, Run(bank, s, events))
    decreases |events|
  {
    if events != [] {
      StepKeepsInv(bank, s, events[0]);
      ReachableStatesAreWellFormed(bank, Step(bank, s, events[0]), events[1..]);
    }
  }

  lemma InitialIsWellFormed(bank: Bank)
    ensures Inv(bank, Initial)
  {
  }

  /** Joining keeps "the user list's names are exactly the scored names". */
  lemma JoinKeepsRoster(bank: Bank, sess: Session, user: string, pick: int)
    requires sess.current.None? ==> pick in Eligible(bank, sess.used)
    requires Roster(sess)
    ensures Roster(AddUser(bank, sess, user, pick))
  {
  }

  /** Disconnecting keeps the same relation in a room where no name is
      listed twice. */
  lemma DisconnectKeepsRoster(s: State, sid: string, k: string)
    requires Consistent(s)
    requires k in s.sessions && Roster(s.sessions[k]) && NoDuplicates(s.sessions[k].users)
    requires k in Disconnect(s, sid).sessions
    ensures Roster(Disconnect(s, sid).sessions[k])
  {
    if sid in s.usernames {
      var name := s.usernames[sid];
      if name in s.sessions[k].users {
        DisconnectLeavesRoom(s, sid, k);
        RemoveFirstMembers(s.sessions[k].users, name);
      } else {
        DisconnectSparesOtherRooms(s, sid, k);
      }
    }
  }

  /** A name listed twice in a room (one person joining twice) survives a
      disconnect on the user list but loses its score, so the relation fails. */
  lemma DuplicateNameBreaksRoster(s: State, sid: string, k: string)
    requires Consistent(s)
    requires sid in s.usernames && k in s.sessions
    requires multiset(s.sessions[k].users)[s.usernames[sid]] >= 2
    ensures var r := Disconnect(s, sid);
      && k in r.sessions
      && s.usernames[sid] in r.sessions[k].users
      && s.usernames[sid] !in Names(r.sessions[k].scores)
      && !Roster(r.sessions[k])
  {
    var name := s.usernames[sid];
    var users := s.sessions[k].users;
    assert name in users;
    DisconnectLeavesRoom(s, sid, k);
    var r := Disconnect(s, sid);
    assert users != [name];
    assert multiset(r.sessions[k].users)[name] >= 1;
  }
}
