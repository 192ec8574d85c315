/** One room's entry in `game_sessions` and the question-issuance step
    (`send_random_question`). */
module Session {
  import opened Wrappers
  import opened QuestionBank
  import opened Scoreboard

  /** The `current_question` record: the id and the prompt that was sent. */
  datatype Current = Current(id: int, text: string)

  /** A room: its user list (a list, so a name may appear twice), the ids
      issued in the current cycle, the score dictionary and the outstanding
      question. The session's own `messages` field is never used and is left out. */
  datatype Session = Session(users: seq<string>, used: set<int>, scores: Board, current: Option<Current>)

  /** The record a first join creates. */
  const Fresh := Session([], {}, [], None)

  /** `send_random_question`: issues `pick`, which stands for the value
      `random.choice` returned among the eligible ids. When every id has been
      used the used set is emptied and the pick is made again. */
  function Issue(bank: Bank, sess: Session, pick: int): (r: Session)
    requires pick in Eligible(bank, sess.used)
    ensures r.current == Some(Current(pick, bank[pick].prompt))
    ensures pick in bank && pick in r.used
    ensures bank.Keys - sess.used != {} ==> pick !in sess.used && r.used == sess.used + {pick}
    ensures bank.Keys - sess.used == {} ==> r.used == {pick}
    ensures sess.used <= bank.Keys ==> r.used <= bank.Keys
    ensures r.users == sess.users && r.scores == sess.scores
    decreases if bank.Keys - sess.used == {} then 1 else 0
  {
    if bank.Keys - sess.used != {} then
      sess.(current := Some(Current(pick, bank[pick].prompt)), used := sess.used + {pick})
    else
      Issue(bank, sess.(used := {}), pick)
  }

  /** Each pick is one that `random.choice` could return at that point. */
  predicate ValidPicks(bank: Bank, sess: Session, picks: seq<int>)
    decreases |picks|
  {
    picks == [] ||
    (picks[0] in Eligible(bank, sess.used) && ValidPicks(bank, Issue(bank, sess, picks[0]), picks[1..]))
  }

  /** Issues one question per pick, in order. */
  function IssueAll(bank: Bank, sess: Session, picks: seq<int>): Session
    requires ValidPicks(bank, sess, picks)
    decreases |picks|
  {
    if picks == [] then sess else IssueAll(bank, Issue(bank, sess, picks[0]), picks[1..])
  }

  /** The values in a sequence: the ids of a run of picks, the names on a
      user list. */
  function Elements<T>(xs: seq<T>): set<T>
  {
    set x | x in xs
  }

  lemma ElementsCons<T>(xs: seq<T>)
    requires xs != []
    ensures Elements(xs) == {xs[0]} + Elements(xs[1..])
  {
    assert xs == [xs[0]] + xs[1..];
  }

  /** No value occurs twice in the sequence. */
  predicate NoDuplicates<T(==)>(xs: seq<T>)
  {
    forall i, j | 0 <= i < j < |xs| :: xs[i] != xs[j]
  }

  /** One step of a cycle: the first pick is fresh, the remaining picks are
      valid and still fit in what is left unused. */
  lemma CycleStep(bank: Bank, sess: Session, picks: seq<int>)
    requires picks != [] && ValidPicks(bank, sess, picks)
    requires |picks| <= |bank.Keys - sess.used|
    ensures var next := Issue(bank, sess, picks[0]);
      && picks[0] !in sess.used
      && next.used == sess.used + {picks[0]}
      && ValidPicks(bank, next, picks[1..])
      && |picks[1..]| <= |bank.Keys - next.used|
  {
    IssueUsesOneFreshId(bank, sess, picks[0]);
  }

  /** Within one cycle no id is issued twice: while unused ids remain, every
      pick is new. */
  lemma {:induction false} NoRepeatWithinCycle(bank: Bank, sess: Session, picks: seq<int>)
    requires ValidPicks(bank, sess, picks)
    requires |picks| <= |bank.Keys - sess.used|
    ensures Elements(picks) !! sess.used
    ensures NoDuplicates(picks)
    decreases |picks|
  {
    if picks != [] {
      var p, rest := picks[0], picks[1..];
      CycleStep(bank, sess, picks);
      NoRepeatWithinCycle(bank, Issue(bank, sess, p), rest);
      ElementsCons(picks);
      DistinctCons(picks);
    }
  }

  /** While unused ids remain, the used set grows by exactly the picks. */
  lemma {:induction false} CycleRecordsPicks(bank: Bank, sess: Session, picks: seq<int>)
    requires ValidPicks(bank, sess, picks)
    requires |picks| <= |bank.Keys - sess.used|
    ensures IssueAll(bank, sess, picks).used == sess.used + Elements(picks)
    decreases |picks|
  {
    if picks != [] {
      var p, rest := picks[0], picks[1..];
      var next := Issue(bank, sess, p);
      CycleStep(bank, sess, picks);
      CycleRecordsPicks(bank, next, rest);
      assert IssueAll(bank, sess, picks) == IssueAll(bank, next, rest);
      ElementsCons(picks);
    }
  }

  /** A first id that is not among distinct later ones keeps the whole distinct. */
  lemma DistinctCons(picks: seq<int>)
    requires picks != []
    requires picks[0] !in Elements(picks[1..]) && NoDuplicates(picks[1..])
    ensures NoDuplicates(picks)
  {
    var rest := picks[1..];
    forall i, j | 0 <= i < j < |picks|
      ensures picks[i] != picks[j]
    {
      assert picks[j] == rest[j - 1];
      if i > 0 {
        assert picks[i] == rest[i - 1];
      }
    }
  }

  /** While unused ids remain, an issue uses up exactly one of them. */
  lemma IssueUsesOneFreshId(bank: Bank, sess: Session, pick: int)
    requires pick in Eligible(bank, sess.used)
    requires bank.Keys - sess.used != {}
    ensures |bank.Keys - Issue(bank, sess, pick).used| == |bank.Keys - sess.used| - 1
  {
    var avail := bank.Keys - sess.used;
    assert pick in avail;
    assert bank.Keys - Issue(bank, sess, pick).used == avail - {pick};
    assert avail == (avail - {pick}) + {pick};
  }

  /** After a reset nothing keeps the outstanding question from being drawn
      again at once: the id just asked is eligible, and picking it leaves the
      same question outstanding. */
  lemma ImmediateRepeatAfterReset(bank: Bank, sess: Session)
    requires bank.Keys <= sess.used
    requires sess.current.Some? && sess.current.value.id in bank
    requires sess.current.value.text == bank[sess.current.value.id].prompt
    ensures sess.current.value.id in Eligible(bank, sess.used)
    ensures Issue(bank, sess, sess.current.value.id).current == sess.current
  {
  }

  /** `users.remove(name)`: deletes the first occurrence of `name` only. */
  function RemoveFirst(users: seq<string>, name: string): (r: seq<string>)
    requires name in users
    ensures multiset(r) == multiset(users) - multiset{name}
    ensures |r| == |users| - 1
  {
    assert users == [users[0]] + users[1..];
    if users[0] == name then users[1..]
    else [users[0]] + RemoveFirst(users[1..], name)
  }

  /** Where `name` first appears on the list. */
  function FirstIndex(users: seq<string>, name: string): (r: int)
    requires name in users
    ensures 0 <= r < |users| && users[r] == name
    ensures forall j | 0 <= j < r :: users[j] != name
  {
    if users[0] == name then 0 else 1 + FirstIndex(users[1..], name)
  }

  /** The other names keep their order and only the first `name` goes. */
  lemma {:induction false} RemoveFirstDeletesFirstOccurrence(users: seq<string>, name: string)
    requires name in users
    ensures var i := FirstIndex(users, name); RemoveFirst(users, name) == users[..i] + users[i + 1..]
  {
    if users[0] != name {
      var t := users[1..];
      RemoveFirstDeletesFirstOccurrence(t, name);
      var k := FirstIndex(t, name);
      assert FirstIndex(users, name) == k + 1;
      SkipOneAfterHead(users, k);
    }
  }

  lemma SkipOneAfterHead(users: seq<string>, k: nat)
    requires k + 1 < |users|
    ensures [users[0]] + (users[1..][..k] + users[1..][k + 1..]) == users[..k + 1] + users[k + 2..]
  {
    assert users[..k + 1] == [users[0]] + users[1..][..k];
    assert users[k + 2..] == users[1..][k + 1..];
  }

  /** Every listed name has a score and every scored name is listed. */
  predicate Roster(sess: Session)
  {
    Elements(sess.users) == Names(sess.scores)
  }

  lemma {:induction false} NoDuplicatesCountOnce(users: seq<string>, name: string)
    requires NoDuplicates(users)
    ensures multiset(users)[name] <= 1
  {
    if users != [] {
      var t := users[1..];
      assert NoDuplicates(t);
      NoDuplicatesCountOnce(t, name);
      assert users == [users[0]] + t;
    }
  }

  /** Removing one occurrence removes the name from the set of members
      exactly when it was there once. */
  lemma RemoveFirstMembers(users: seq<string>, name: string)
    requires name in users
    ensures Elements(RemoveFirst(users, name)) - {name} == Elements(users) - {name}
    ensures NoDuplicates(users) ==> Elements(RemoveFirst(users, name)) == Elements(users) - {name}
  {
    var r := RemoveFirst(users, name);
    RemoveFirstKeepsOthers(users, name);
    if NoDuplicates(users) {
      NoDuplicatesCountOnce(users, name);
      assert multiset(r)[name] == 0;
      assert name !in Elements(r);
    }
  }

  lemma RemoveFirstKeepsOthers(users: seq<string>, name: string)
    requires name in users
    ensures forall x | x != name :: x in RemoveFirst(users, name) <==> x in users
  {
    var r := RemoveFirst(users, name);
    forall x | x != name
      ensures x in r <==> x in users
    {
      assert multiset(r)[x] == multiset(users)[x];
    }
  }
}
