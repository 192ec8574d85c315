/** How the handlers behave in cases a reader might not expect. */
module Scenarios {
  import opened Wrappers
  import opened QuestionBank
  import opened Scoreboard
  import opened Session
  import opened Server

  /** A correct answer to a question other than the outstanding one is
      scored like any correct answer (so it earns 100 and issues a new
      question): `check_answer` never compares `question_id` with
      `current_question`. */
  lemma StaleAnswerStillScores(bank: Bank, s: State, room: string, user: string, qid: int, answer: string, pick: int)
    requires Consistent(s)
    requires room in s.sessions && user in Names(s.sessions[room].scores)
    requires s.sessions[room].current.Some? && s.sessions[room].current.value.id != qid
    requires IsCorrect(bank, qid, answer)
    requires pick in Eligible(bank, s.sessions[room].used)
    ensures var r := CheckAnswer(bank, s, room, user, qid, answer, pick);
      && r.Success?
      && r.value.sessions[room] == Score(bank, s.sessions[room], user, true, pick)
  {
  }

  /** Joining a room the name is already in lists it a second time (the
      user list is a list, not a set), while its score is simply reset to 0. */
  lemma RejoinListsNameTwice(bank: Bank, sess: Session, user: string, pick: int)
    requires sess.current.None? ==> pick in Eligible(bank, sess.used)
    requires user in sess.users
    ensures var after := AddUser(bank, sess, user, pick);
      && multiset(after.users)[user] >= 2
      && Lookup(after.scores, user) == Some(0)
  {
    assert multiset(sess.users)[user] >= 1;
  }

  /** With the shipped bank, "12" sent for question 3 while question 0 is
      outstanding (both answers are "12") is scored as a correct answer:
      100 points and a new question. */
  lemma SharedAnswerScoresOnShippedBank(s: State, room: string, user: string, pick: int)
    requires Consistent(s)
    requires room in s.sessions && user in Names(s.sessions[room].scores)
    requires s.sessions[room].current.Some? && s.sessions[room].current.value.id == 0
    requires pick in Eligible(QuestionsDb, s.sessions[room].used)
    ensures var r := CheckAnswer(QuestionsDb, s, room, user, 3, "12", pick);
      && r.Success?
      && r.value.sessions[room] == Score(QuestionsDb, s.sessions[room], user, true, pick)
  {
    ShippedAnswersMatchExactly();
    StaleAnswerStillScores(QuestionsDb, s, room, user, 3, "12", pick);
  }
}
