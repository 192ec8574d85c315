/** A room's `scores` dictionary and the leaderboard built from it.

    Python dictionaries keep their keys in insertion order, assigning to an
    existing key keeps its position, and the leaderboard's order among equal
    scores follows that order. So a board is the dictionary's items as a
    sequence, not a `map`. */
module Scoreboard {
  import opened Wrappers

  /** One `name: score` item. */
  datatype Entry = Entry(name: string, score: int)

  /** The items of a score dictionary, in insertion order. */
  type Board = seq<Entry>

  /** The dictionary's keys. */
  function Names(b: Board): set<string>
  {
    if b == [] then {} else {b[0].name} + Names(b[1..])
  }

  /** `names` with every `name` taken out, the rest in order. */
  function Omit(names: seq<string>, name: string): seq<string>
  {
    if names == [] then []
    else if names[0] == name then Omit(names[1..], name)
    else [names[0]] + Omit(names[1..], name)
  }

  /** The keys in insertion order. */
  function Order(b: Board): seq<string>
  {
    if b == [] then [] else [b[0].name] + Order(b[1..])
  }

  /** No key occurs twice, as in every dictionary. */
  predicate Distinct(b: Board)
  {
    b == [] || (b[0].name !in Names(b[1..]) && Distinct(b[1..]))
  }

  /** The value read by `scores[name]`, or nothing where that read raises
      `KeyError`. */
  function Lookup(b: Board, name: string): (r: Option<int>)
    ensures r.Some? <==> name in Names(b)
    ensures r.Some? ==> Entry(name, r.value) in b
  {
    if b == [] then None
    else if b[0].name == name then Some(b[0].score)
    else Lookup(b[1..], name)
  }

  /** `scores[name] = v`. */
  function Put(b: Board, name: string, v: int): (r: Board)
    ensures Names(r) == Names(b) + {name}
    ensures Lookup(r, name) == Some(v)
    ensures forall n | n != name :: Lookup(r, n) == Lookup(b, n)
  {
    if b == [] then [Entry(name, v)]
    else if b[0].name == name then [Entry(name, v)] + b[1..]
    else [b[0]] + Put(b[1..], name, v)
  }

  /** Assigning to an existing key keeps its place; a new key goes last. */
  lemma {:induction false} PutKeepsPlace(b: Board, name: string, v: int)
    ensures name in Names(b) ==> Order(Put(b, name, v)) == Order(b)
    ensures name !in Names(b) ==> Order(Put(b, name, v)) == Order(b) + [name]
  {
    if b != [] && b[0].name != name {
      PutKeepsPlace(b[1..], name, v);
      assert Put(b, name, v)[1..] == Put(b[1..], name, v);
    }
  }

  /** Assigning a score never makes a key occur twice. */
  lemma {:induction false} PutKeepsDistinct(b: Board, name: string, v: int)
    ensures Distinct(b) ==> Distinct(Put(b, name, v))
  {
    if b != [] && b[0].name != name {
      PutKeepsDistinct(b[1..], name, v);
      assert Put(b, name, v)[1..] == Put(b[1..], name, v);
    }
  }

  /** `scores.pop(name, None)`. */
  function Pop(b: Board, name: string): (r: Board)
    ensures Names(r) == Names(b) - {name}
    ensures forall n | n != name :: Lookup(r, n) == Lookup(b, n)
    ensures Distinct(b) ==> Distinct(r)
  {
    if b == [] then []
    else if b[0].name == name then Pop(b[1..], name)
    else [b[0]] + Pop(b[1..], name)
  }

  /** Popping a key leaves the other keys in their insertion order. */
  lemma {:induction false} PopKeepsOrder(b: Board, name: string)
    ensures Order(Pop(b, name)) == Omit(Order(b), name)
  {
    if b != [] {
      PopKeepsOrder(b[1..], name);
      assert Order(b)[1..] == Order(b[1..]);
      if b[0].name != name {
        assert Pop(b, name)[1..] == Pop(b[1..], name);
      }
    }
  }

  /** Every item scores at least as much as every item after it. */
  predicate Descending(b: Board)
  {
    forall i, j | 0 <= i < j < |b| :: b[i].score >= b[j].score
  }

  /** The items that score exactly `v`, in their order in `b`. */
  function WithScore(b: Board, v: int): Board
  {
    if b == [] then []
    else if b[0].score == v then [b[0]] + WithScore(b[1..], v)
    else WithScore(b[1..], v)
  }

  /** Puts `e` in front of the first item that does not score more than it. */
  function Insert(e: Entry, t: Board): Board
  {
    if t == [] then [e]
    else if e.score >= t[0].score then [e] + t
    else [t[0]] + Insert(e, t[1..])
  }

  /** `sorted(scores.items(), key=lambda x: x[1], reverse=True)`. */
  function Leaderboard(b: Board): Board
  {
    if b == [] then [] else Insert(b[0], Leaderboard(b[1..]))
  }

  lemma {:induction false} InsertKeepsItems(e: Entry, t: Board)
    ensures multiset(Insert(e, t)) == multiset{e} + multiset(t)
    ensures |Insert(e, t)| == |t| + 1
  {
    if t != [] && e.score < t[0].score {
      InsertKeepsItems(e, t[1..]);
      assert t == [t[0]] + t[1..];
    }
  }

  /** Inserting below `top` keeps everything at or below `top`. */
  lemma InsertStaysBelow(top: Entry, e: Entry, t: Board)
    requires e.score <= top.score
    requires forall x | x in t :: x.score <= top.score
    ensures forall x | x in Insert(e, t) :: x.score <= top.score
  {
    InsertKeepsItems(e, t);
    forall x | x in Insert(e, t)
      ensures x.score <= top.score
    {
      assert x in multiset(Insert(e, t));
    }
  }

  lemma {:induction false} InsertKeepsDescending(e: Entry, t: Board)
    requires Descending(t)
    ensures Descending(Insert(e, t))
  {
    if t != [] && e.score < t[0].score {
      var rest := Insert(e, t[1..]);
      InsertKeepsDescending(e, t[1..]);
      forall x | x in t[1..]
        ensures x.score <= t[0].score
      {
        var j :| 0 <= j < |t[1..]| && t[1..][j] == x;
        assert t[j + 1] == x;
      }
      InsertStaysBelow(t[0], e, t[1..]);
      var r := [t[0]] + rest;
      forall i, j | 0 <= i < j < |r|
        ensures r[i].score >= r[j].score
      {
        if i == 0 {
          assert r[j] in rest;
        } else {
          assert r[i] == rest[i - 1] && r[j] == rest[j - 1];
        }
      }
    }
  }

  lemma {:induction false} InsertKeepsTies(e: Entry, t: Board, v: int)
    requires Descending(t)
    ensures WithScore(Insert(e, t), v) == WithScore([e] + t, v)
  {
    if t != [] && e.score < t[0].score {
      var t' := t[1..];
      assert Descending(t');
      InsertKeepsTies(e, t', v);
      assert ([t[0]] + Insert(e, t'))[1..] == Insert(e, t');
      assert ([e] + t)[1..] == t;
      assert ([e] + t')[1..] == t';
      assert ([t[0]] + ([e] + t'))[1..] == [e] + t';
    }
  }

  /** The leaderboard ranks every item, highest score first. */
  lemma {:induction false} LeaderboardIsDescending(b: Board)
    ensures Descending(Leaderboard(b))
  {
    if b != [] {
      LeaderboardIsDescending(b[1..]);
      InsertKeepsDescending(b[0], Leaderboard(b[1..]));
    }
  }

  /** The leaderboard holds exactly the dictionary's items. */
  lemma {:induction false} LeaderboardIsPermutation(b: Board)
    ensures multiset(Leaderboard(b)) == multiset(b)
    ensures |Leaderboard(b)| == |b|
  {
    if b != [] {
      LeaderboardIsPermutation(b[1..]);
      InsertKeepsItems(b[0], Leaderboard(b[1..]));
      assert b == [b[0]] + b[1..];
    }
  }

  /** The sort is stable: items with equal scores keep their insertion order. */
  lemma {:induction false} LeaderboardIsStable(b: Board, v: int)
    ensures WithScore(Leaderboard(b), v) == WithScore(b, v)
  {
    if b != [] {
      LeaderboardIsStable(b[1..], v);
      LeaderboardIsDescending(b[1..]);
      InsertKeepsTies(b[0], Leaderboard(b[1..]), v);
      assert ([b[0]] + Leaderboard(b[1..]))[1..] == Leaderboard(b[1..]);
    }
  }

  /** Three players inserted as A, B, C with scores 100, 100, 50 rank A, B, C. */
  lemma TiesFollowInsertionOrder()
    ensures Leaderboard([Entry("A", 100), Entry("B", 100), Entry("C", 50)])
         == [Entry("A", 100), Entry("B", 100), Entry("C", 50)]
    ensures Leaderboard([Entry("C", 50), Entry("B", 100), Entry("A", 100)])
         == [Entry("B", 100), Entry("A", 100), Entry("C", 50)]
  {
  }
}
