/** The question bank (`QUESTIONS_DB`): a fixed table from question id to a
    prompt and its expected answer, and the policy for choosing the next id. */
module QuestionBank {
  import opened Wrappers

  datatype Question = Question(prompt: string, answer: string)

  /** A question table with at least one entry. With none, issuing a
      question would recurse without end. */
  type Bank = b: map<int, Question> | |b| > 0 witness map[0 := Question("", "")]

  /** The five questions the server ships with. */
  const QuestionsDb: Bank := map[
    0 := Question("What's 5 + 7?", "12"),
    1 := Question("What's 25 / 5?", "5"),
    2 := Question("What's 10 * 2?", "20"),
    3 := Question("What's 15 - 3?", "12"),
    4 := Question("What's 20 + 10?", "30")
  ]

  /** The ids a random pick may return when `used` ids have been issued:
      the unused ones, or every id once all have been used (the used set is
      then reset before picking). */
  function Eligible(bank: Bank, used: set<int>): (r: set<int>)
    ensures r <= bank.Keys
    ensures r != {}
    ensures bank.Keys - used != {} ==> r !! used
    ensures forall q | q in bank && q !in used :: q in r
    ensures bank.Keys <= used ==> r == bank.Keys
  {
    if bank.Keys - used != {} then bank.Keys - used else bank.Keys
  }

  /** `QUESTIONS_DB.get(qid, {}).get('answer')`: the recorded answer, or
      nothing for an id missing from the bank. */
  function ExpectedAnswer(bank: Bank, qid: int): (r: Option<string>)
    ensures r.Some? <==> qid in bank
    ensures r.Some? ==> r.value == bank[qid].answer
  {
    if qid in bank then Some(bank[qid].answer) else None
  }

  /** The answer equals the expected one. An answer is a string and never
      equals the missing answer, so an id missing from the bank is never
      answered correctly. */
  function IsCorrect(bank: Bank, qid: int, answer: string): (r: bool)
    ensures r <==> qid in bank && bank[qid].answer == answer
  {
    ExpectedAnswer(bank, qid) == Some(answer)
  }

  /** With the shipped bank, matching is exact (no trimming, no numeric
      comparison), and ids 0 and 3 share the answer "12", so "12" is correct
      for either of them. */
  lemma ShippedAnswersMatchExactly()
    ensures IsCorrect(QuestionsDb, 0, "12") && IsCorrect(QuestionsDb, 3, "12")
    ensures !IsCorrect(QuestionsDb, 0, " 12") && !IsCorrect(QuestionsDb, 0, "12.0")
    ensures !IsCorrect(QuestionsDb, 1, "5.0") && !IsCorrect(QuestionsDb, 5, "12")
  {
    assert QuestionsDb[0].answer == "12" && QuestionsDb[3].answer == "12";
    assert QuestionsDb[1].answer == "5";
    assert 5 !in QuestionsDb;
  }
}
