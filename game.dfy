/** The game state object of the main backend (core/game.py). */
module GameCore {
  import opened Wrappers
  import opened Seqs
  import opened Players
  import Roles
  import Shuffling

  // ---------------------------------------------------------------------------
  // Vote tally: an ordered dictionary sid -> count, re-sorted after every vote.
  // ---------------------------------------------------------------------------

  type Tally = seq<(string, int)>

  predicate DistinctKeys(t: Tally)
  {
    forall i, j :: 0 <= i < j < |t| ==> t[i].0 != t[j].0
  }

  predicate SortedByCount(t: Tally)
  {
    forall i, j :: 0 <= i < j < |t| ==> t[i].1 >= t[j].1
  }

  function KeySet(t: Tally): set<string>
  {
    set i | 0 <= i < |t| :: t[i].0
  }

  /** The count stored under `k`, 0 when `k` is absent. */
  function CountOf(t: Tally, k: string): int
  {
    if t == [] then 0 else if t[0].0 == k then t[0].1 else CountOf(t[1..], k)
  }

  /** `d[k] += 1` if present, else `d[k] = 1` (a new key goes last). */
  function Bump(t: Tally, k: string): Tally
  {
    if t == [] then [(k, 1)]
    else if t[0].0 == k then [(k, t[0].1 + 1)] + t[1..]
    else [t[0]] + Bump(t[1..], k)
  }

  /** Insertion step of a stable sort by descending count. */
  function InsertByCount(x: (string, int), t: Tally): Tally
  {
    if t == [] || x.1 >= t[0].1 then [x] + t
    else [t[0]] + InsertByCount(x, t[1..])
  }

  /** `sorted(items, key=count, reverse=True)`: Python's sort is stable under `reverse`. */
  function SortByCount(t: Tally): Tally
  {
    if t == [] then [] else InsertByCount(t[0], SortByCount(t[1..]))
  }

  /** The entries whose count is `c`, in tally order. */
  function WithCount(t: Tally, c: int): Tally
  {
    if t == [] then []
    else (if t[0].1 == c then [t[0]] else []) + WithCount(t[1..], c)
  }

  /** `set_player_vote`: bump then re-sort. */
  function RecordVote(t: Tally, k: string): Tally
  {
    SortByCount(Bump(t, k))
  }

  function KeysWithCount(t: Tally, c: int): seq<string>
  {
    if t == [] then []
    else (if t[0].1 == c then [t[0].0] else []) + KeysWithCount(t[1..], c)
  }

  /** `get_top_voted_players`: the keys sharing the first entry's count. */
  function TopVoted(t: Tally): seq<string>
  {
    if t == [] then [] else KeysWithCount(t, t[0].1)
  }

  /** `k` has a count no other entry exceeds. */
  ghost predicate IsLeader(t: Tally, k: string)
  {
    exists i :: 0 <= i < |t| && t[i].0 == k && forall j :: 0 <= j < |t| ==> t[j].1 <= t[i].1
  }

  lemma {:induction false} BumpCounts(t: Tally, k: string)
    ensures KeySet(Bump(t, k)) == KeySet(t) + {k}
    ensures forall j :: CountOf(Bump(t, k), j) == CountOf(t, j) + (if j == k then 1 else 0)
    ensures DistinctKeys(t) ==> DistinctKeys(Bump(t, k))
    ensures k in KeySet(t) ==> |Bump(t, k)| == |t|
    ensures k !in KeySet(t) ==> Bump(t, k) == t + [(k, 1)]
    ensures forall j :: k !in KeySet(t) ==> CountOf(t, j) == 0 || j != k
  {
    if t == [] {
      KeySetCons(Bump(t, k));
      assert Bump(t, k)[1..] == [];
      assert KeySet([]) == {};
    } else if t[0].0 == k {
      assert KeySet(t) == {t[0].0} + KeySet(t[1..]) by { KeySetCons(t); }
      assert KeySet(Bump(t, k)) == {k} + KeySet(t[1..]) by { KeySetCons(Bump(t, k)); assert Bump(t, k)[1..] == t[1..]; }
      if DistinctKeys(t) {
        var b := Bump(t, k);
        forall i, j | 0 <= i < j < |b| ensures b[i].0 != b[j].0 {
          assert b[i].0 == t[i].0 && b[j].0 == t[j].0;
        }
      }
    } else {
      BumpCounts(t[1..], k);
      KeySetCons(t);
      KeySetCons(Bump(t, k));
      assert Bump(t, k)[1..] == Bump(t[1..], k);
      if DistinctKeys(t) {
        assert DistinctKeys(t[1..]) by { DistinctKeysTail(t); }
        assert t[0].0 !in KeySet(t[1..]) by { DistinctKeysHead(t); }
        DistinctKeysCons(t[0], Bump(t[1..], k));
      }
      if k !in KeySet(t) {
        assert k !in KeySet(t[1..]);
        assert [t[0]] + (t[1..] + [(k, 1)]) == t + [(k, 1)];
      }
    }
    forall j | k !in KeySet(t) ensures CountOf(t, j) == 0 || j != k {
      if j == k { CountAbsent(t, k); }
    }
  }

  lemma {:induction false} CountAbsent(t: Tally, k: string)
    requires k !in KeySet(t)
    ensures CountOf(t, k) == 0
  {
    if t != [] {
      KeySetCons(t);
      CountAbsent(t[1..], k);
    }
  }

  lemma KeySetCons(t: Tally)
    requires t != []
    ensures KeySet(t) == {t[0].0} + KeySet(t[1..])
  {
    forall x | x in KeySet(t) ensures x in {t[0].0} + KeySet(t[1..]) {
      var i :| 0 <= i < |t| && t[i].0 == x;
      if i > 0 { assert t[1..][i - 1].0 == x; }
    }
    forall x | x in KeySet(t[1..]) ensures x in KeySet(t) {
      var i :| 0 <= i < |t[1..]| && t[1..][i].0 == x;
      assert t[i + 1].0 == x;
    }
  }

  lemma DistinctKeysTail(t: Tally)
    requires t != [] && DistinctKeys(t)
    ensures DistinctKeys(t[1..])
  {
    forall i, j | 0 <= i < j < |t[1..]| ensures t[1..][i].0 != t[1..][j].0 {
      assert t[1..][i] == t[i + 1] && t[1..][j] == t[j + 1];
    }
  }

  lemma DistinctKeysHead(t: Tally)
    requires t != [] && DistinctKeys(t)
    ensures t[0].0 !in KeySet(t[1..])
  {
    forall i | 0 <= i < |t[1..]| ensures t[1..][i].0 != t[0].0 {
      assert t[1..][i] == t[i + 1];
    }
  }

  lemma DistinctKeysCons(x: (string, int), t: Tally)
    requires DistinctKeys(t) && x.0 !in KeySet(t)
    ensures DistinctKeys([x] + t)
  {
    var s := [x] + t;
    forall i, j | 0 <= i < j < |s| ensures s[i].0 != s[j].0 {
      if i == 0 {
        assert s[j] == t[j - 1];
        assert t[j - 1].0 in KeySet(t);
      } else {
        assert s[i] == t[i - 1] && s[j] == t[j - 1];
      }
    }
  }

  lemma SortedTail(t: Tally)
    requires t != [] && SortedByCount(t)
    ensures SortedByCount(t[1..])
  {
    var tail := t[1..];
    forall i, j | 0 <= i < j < |tail| ensures tail[i].1 >= tail[j].1 {
      assert tail[i] == t[i + 1] && tail[j] == t[j + 1];
    }
  }

  lemma SortedCons(x: (string, int), t: Tally)
    requires SortedByCount(t) && forall e :: e in t ==> e.1 <= x.1
    ensures SortedByCount([x] + t)
  {
    var r := [x] + t;
    forall i, j | 0 <= i < j < |r| ensures r[i].1 >= r[j].1 {
      assert r[j] == t[j - 1];
      if i > 0 { assert r[i] == t[i - 1]; } else { assert t[j - 1] in t; }
    }
  }

  /** Inserting keeps the tally sorted and adds exactly `x` to its entries. */
  lemma {:induction false} InsertSortedPermutes(x: (string, int), t: Tally)
    requires SortedByCount(t)
    ensures SortedByCount(InsertByCount(x, t))
    ensures multiset(InsertByCount(x, t)) == multiset{x} + multiset(t)
  {
    if t == [] || x.1 >= t[0].1 {
      forall e | e in t ensures e.1 <= x.1 {
        var k :| 0 <= k < |t| && t[k] == e;
        assert k == 0 || t[0].1 >= t[k].1;
      }
      SortedCons(x, t);
    } else {
      var tail := t[1..];
      SortedTail(t);
      InsertSortedPermutes(x, tail);
      var ri := InsertByCount(x, tail);
      assert t == [t[0]] + tail;
      forall e | e in ri ensures e.1 <= t[0].1 {
        assert e in multiset(ri);
        if e != x {
          assert e in multiset(tail);
          var k :| 0 <= k < |tail| && tail[k] == e;
          assert t[k + 1] == e;
        }
      }
      SortedCons(t[0], ri);
    }
  }

  lemma {:induction false} InsertKeys(x: (string, int), t: Tally)
    ensures KeySet(InsertByCount(x, t)) == {x.0} + KeySet(t)
  {
    var r := InsertByCount(x, t);
    KeySetCons(r);
    if t == [] || x.1 >= t[0].1 {
      assert r[1..] == t;
    } else {
      InsertKeys(x, t[1..]);
      KeySetCons(t);
      assert r[1..] == InsertByCount(x, t[1..]);
    }
  }

  lemma WithCountCons(e: (string, int), t: Tally, c: int)
    ensures WithCount([e] + t, c) == (if e.1 == c then [e] else []) + WithCount(t, c)
  {
    assert ([e] + t)[1..] == t;
  }

  /** Stability: `x` lands after every entry of its own count. */
  lemma {:induction false} InsertWithCount(x: (string, int), t: Tally, c: int)
    ensures WithCount(InsertByCount(x, t), c) == (if x.1 == c then [x] else []) + WithCount(t, c)
  {
    if t == [] || x.1 >= t[0].1 {
      WithCountCons(x, t, c);
    } else {
      var heads := if t[0].1 == c then [t[0]] else [];
      var xs := if x.1 == c then [x] else [];
      InsertWithCount(x, t[1..], c);
      WithCountCons(t[0], InsertByCount(x, t[1..]), c);
      WithCountCons(t[0], t[1..], c);
      assert [t[0]] + t[1..] == t;
      assert heads == [] || xs == [];
    }
  }

  lemma {:induction false} InsertCountOf(x: (string, int), t: Tally, k: string)
    requires x.0 !in KeySet(t)
    ensures CountOf(InsertByCount(x, t), k) == if k == x.0 then x.1 else CountOf(t, k)
  {
    var r := InsertByCount(x, t);
    if t == [] || x.1 >= t[0].1 {
      assert r[1..] == t;
      if k == x.0 {} else {}
    } else {
      KeySetCons(t);
      InsertCountOf(x, t[1..], k);
      assert r[1..] == InsertByCount(x, t[1..]);
    }
  }

  lemma {:induction false} InsertDistinct(x: (string, int), t: Tally)
    requires DistinctKeys(t) && x.0 !in KeySet(t)
    ensures DistinctKeys(InsertByCount(x, t))
  {
    if t == [] || x.1 >= t[0].1 {
      DistinctKeysCons(x, t);
    } else {
      KeySetCons(t);
      DistinctKeysTail(t);
      DistinctKeysHead(t);
      InsertDistinct(x, t[1..]);
      InsertKeys(x, t[1..]);
      DistinctKeysCons(t[0], InsertByCount(x, t[1..]));
    }
  }

  /** The re-sort orders by count, permutes the entries, and keeps ties in their prior order. */
  lemma {:induction false} SortByCountFacts(t: Tally)
    ensures SortedByCount(SortByCount(t))
    ensures multiset(SortByCount(t)) == multiset(t)
    ensures KeySet(SortByCount(t)) == KeySet(t)
    ensures forall c :: WithCount(SortByCount(t), c) == WithCount(t, c)
    ensures DistinctKeys(t) ==> DistinctKeys(SortByCount(t)) && forall k :: CountOf(SortByCount(t), k) == CountOf(t, k)
  {
    if t != [] {
      var st := SortByCount(t[1..]);
      SortByCountFacts(t[1..]);
      InsertSortedPermutes(t[0], st);
      InsertKeys(t[0], st);
      KeySetCons(t);
      assert t == [t[0]] + t[1..];
      forall c ensures WithCount(SortByCount(t), c) == WithCount(t, c) {
        InsertWithCount(t[0], st, c);
      }
      if DistinctKeys(t) {
        DistinctKeysTail(t);
        DistinctKeysHead(t);
        InsertDistinct(t[0], st);
        forall k ensures CountOf(SortByCount(t), k) == CountOf(t, k) {
          InsertCountOf(t[0], st, k);
        }
      }
    }
  }

  /**
   * One vote raises the target's count by exactly one and no other count, keeps the keys
   * distinct, leaves the tally sorted by descending count, and keeps every group of equal
   * counts in the order it had before the re-sort.
   */
  lemma RecordVoteFacts(t: Tally, k: string)
    requires DistinctKeys(t)
    ensures DistinctKeys(RecordVote(t, k)) && SortedByCount(RecordVote(t, k))
    ensures KeySet(RecordVote(t, k)) == KeySet(t) + {k}
    ensures forall j :: CountOf(RecordVote(t, k), j) == CountOf(t, j) + (if j == k then 1 else 0)
    ensures forall c :: WithCount(RecordVote(t, k), c) == WithCount(Bump(t, k), c)
  {
    BumpCounts(t, k);
    SortByCountFacts(Bump(t, k));
  }

  lemma {:induction false} KeysWithCountMembers(t: Tally, c: int, k: string)
    ensures k in KeysWithCount(t, c) <==> exists i :: 0 <= i < |t| && t[i].0 == k && t[i].1 == c
  {
    if t != [] {
      KeysWithCountMembers(t[1..], c, k);
      if exists i :: 0 <= i < |t[1..]| && t[1..][i].0 == k && t[1..][i].1 == c {
        var i :| 0 <= i < |t[1..]| && t[1..][i].0 == k && t[1..][i].1 == c;
        assert t[i + 1] == t[1..][i];
      }
      if exists i :: 0 <= i < |t| && t[i].0 == k && t[i].1 == c {
        var i :| 0 <= i < |t| && t[i].0 == k && t[i].1 == c;
        if i > 0 { assert t[1..][i - 1] == t[i]; }
      }
    }
  }

  /** On a sorted tally the top-voted list is empty exactly when there are no votes and otherwise holds exactly the leaders. */
  lemma TopVotedAreLeaders(t: Tally, k: string)
    requires SortedByCount(t)
    ensures TopVoted(t) == [] <==> t == []
    ensures k in TopVoted(t) <==> IsLeader(t, k)
  {
    if t != [] {
      KeysWithCountMembers(t, t[0].1, k);
      KeysWithCountMembers(t, t[0].1, t[0].0);
      if IsLeader(t, k) {
        var i :| 0 <= i < |t| && t[i].0 == k && forall j :: 0 <= j < |t| ==> t[j].1 <= t[i].1;
        assert t[0].1 <= t[i].1;
        assert i == 0 || t[0].1 >= t[i].1;
      }
      if k in TopVoted(t) {
        var i :| 0 <= i < |t| && t[i].0 == k && t[i].1 == t[0].1;
        assert forall j :: 0 <= j < |t| ==> t[j].1 <= t[i].1 by {
          forall j | 0 <= j < |t| ensures t[j].1 <= t[i].1 {
            if j > 0 { assert t[0].1 >= t[j].1; }
          }
        }
      }
    }
  }

  // ---------------------------------------------------------------------------
  // Roster: players keyed by sid, iterated in insertion order.
  // ---------------------------------------------------------------------------

  ghost predicate RosterValid(players: map<string, Player>, order: seq<string>)
  {
    && Distinct(order)
    && (forall k :: k in players <==> k in order)
    && (forall k :: k in players ==> players[k].sid == k)
  }

  lemma {:induction false} DistinctSetSize(s: seq<string>)
    requires Distinct(s)
    ensures |(set x | x in s)| == |s|
  {
    if s != [] {
      var t := s[1..];
      assert Distinct(t) by {
        forall i, j | 0 <= i < j < |t| ensures t[i] != t[j] { assert t[i] == s[i + 1] && t[j] == s[j + 1]; }
      }
      assert s[0] !in t by {
        forall i | 0 <= i < |t| ensures t[i] != s[0] { assert t[i] == s[i + 1]; }
      }
      assert s == [s[0]] + t;
      assert (set x | x in s) == {s[0]} + (set x | x in t);
      DistinctSetSize(t);
    }
  }

  lemma RosterSize(players: map<string, Player>, order: seq<string>)
    requires Distinct(order) && forall k :: k in players <==> k in order
    ensures |players| == |order|
  {
    assert players.Keys == (set x | x in order);
    DistinctSetSize(order);
  }

  /** Replacing a player by one with the same sid keeps the roster well formed. */
  lemma RosterUpdate(players: map<string, Player>, order: seq<string>, sid: string, p: Player)
    requires RosterValid(players, order) && sid in players && p.sid == sid
    ensures RosterValid(players[sid := p], order)
  {
  }

  /** The players holding `role`, in insertion order (`get_players_by_role`). */
  function AllWithRole(players: map<string, Player>, order: seq<string>, role: Roles.PlayerRole): (r: seq<Player>)
    requires forall k :: k in order ==> k in players
    ensures forall p :: p in r ==> p.role == Some(role)
    ensures forall k :: k in order && players[k].role == Some(role) ==> players[k] in r
    ensures |r| <= |order|
  {
    if order == [] then []
    else
      (if players[order[0]].role == Some(role) then [players[order[0]]] else [])
      + AllWithRole(players, order[1..], role)
  }

  /** The first player holding `role` in insertion order (`get_player_by_role`). */
  function FirstWithRole(players: map<string, Player>, order: seq<string>, role: Roles.PlayerRole): (r: Option<Player>)
    requires forall k :: k in order ==> k in players
    ensures r.Some? ==> r.value.role == Some(role)
    ensures r.None? <==> forall k :: k in order ==> players[k].role != Some(role)
    ensures r.Some? ==> exists j :: (0 <= j < |order| && players[order[j]] == r.value
      && forall i :: 0 <= i < j ==> players[order[i]].role != Some(role))
    decreases |order|
  {
    if order == [] then None
    else if players[order[0]].role == Some(role) then Some(players[order[0]])
    else
      var r := FirstWithRole(players, order[1..], role);
      assert r.Some? ==> exists j :: (0 <= j < |order| && players[order[j]] == r.value
        && forall i :: 0 <= i < j ==> players[order[i]].role != Some(role)) by {
        if r.Some? {
          var j :| 0 <= j < |order[1..]| && players[order[1..][j]] == r.value
            && forall i :: 0 <= i < j ==> players[order[1..][i]].role != Some(role);
          assert players[order[j + 1]] == r.value;
          forall i | 0 <= i < j + 1 ensures players[order[i]].role != Some(role) {
            if i > 0 { assert order[i] == order[1..][i - 1]; }
          }
        }
      }
      r
  }

  /** In a roster keyed by sid, the single-player query's answer comes no later than any other holder of the role. */
  lemma FirstWithRoleIsEarliest(players: map<string, Player>, order: seq<string>, role: Roles.PlayerRole)
    requires RosterValid(players, order)
    ensures var r := FirstWithRole(players, order, role);
      r.Some? ==> (&& r.value.sid in players && players[r.value.sid] == r.value
        && forall k :: k in players && players[k].role == Some(role) ==> IndexOf(order, r.value.sid) <= IndexOf(order, k))
  {
    var r := FirstWithRole(players, order, role);
    if r.Some? {
      var j :| 0 <= j < |order| && players[order[j]] == r.value
        && forall i :: 0 <= i < j ==> players[order[i]].role != Some(role);
      assert r.value.sid == order[j];
      assert IndexOf(order, order[j]) == j;
      forall k | k in players && players[k].role == Some(role) ensures j <= IndexOf(order, k) {
        var i := IndexOf(order, k);
        assert players[order[i]].role == Some(role);
      }
    }
  }

  /** The list query splits over a split of the insertion order, so it lists its players in that order. */
  lemma {:induction false} AllWithRoleAppend(players: map<string, Player>, o1: seq<string>, o2: seq<string>, role: Roles.PlayerRole)
    requires (forall k :: k in o1 ==> k in players) && (forall k :: k in o2 ==> k in players)
    ensures forall k :: k in o1 + o2 ==> k in players
    ensures AllWithRole(players, o1 + o2, role) == AllWithRole(players, o1, role) + AllWithRole(players, o2, role)
  {
    if o1 == [] {
      assert o1 + o2 == o2;
    } else {
      assert (o1 + o2)[0] == o1[0] && (o1 + o2)[1..] == o1[1..] + o2;
      AllWithRoleAppend(players, o1[1..], o2, role);
    }
  }

  /** With every player stored under its own sid, the list query lists players of the roster. */
  lemma {:induction false} AllWithRoleKeyed(players: map<string, Player>, order: seq<string>, role: Roles.PlayerRole)
    requires forall k :: k in order ==> k in players && players[k].sid == k
    ensures forall p :: p in AllWithRole(players, order, role) ==> p.sid in order && players[p.sid] == p
  {
    if order != [] {
      AllWithRoleKeyed(players, order[1..], role);
      assert AllWithRole(players, order, role) ==
        (if players[order[0]].role == Some(role) then [players[order[0]]] else []) + AllWithRole(players, order[1..], role);
    }
  }

  /** The players of `r` carry sids of `order`, listed in the order those sids take there. */
  predicate InOrder(order: seq<string>, r: seq<Player>)
  {
    && (forall p :: p in r ==> p.sid in order)
    && forall i, j :: 0 <= i < j < |r| ==> IndexOf(order, r[i].sid) < IndexOf(order, r[j].sid)
  }

  /** Putting the player of the head key in front of a list ordered by the tail keeps it ordered. */
  lemma InOrderCons(order: seq<string>, head: seq<Player>, rest: seq<Player>)
    requires order != [] && order[0] !in order[1..] && InOrder(order[1..], rest)
    requires head == [] || (|head| == 1 && head[0].sid == order[0])
    ensures InOrder(order, head + rest)
  {
    var tail := order[1..];
    var r := head + rest;
    forall p | p in rest ensures p.sid in order && IndexOf(order, p.sid) == 1 + IndexOf(tail, p.sid) {
      assert p.sid in tail;
    }
    forall i, j | 0 <= i < j < |r| ensures IndexOf(order, r[i].sid) < IndexOf(order, r[j].sid) {
      assert r[j] == rest[j - |head|] && r[j] in rest;
      if i >= |head| {
        assert r[i] == rest[i - |head|] && r[i] in rest;
      } else {
        assert r[i].sid == order[0];
      }
    }
  }

  /** With every player stored under its own sid and no key repeated, the list query follows insertion order. */
  lemma {:induction false} AllWithRoleInOrder(players: map<string, Player>, order: seq<string>, role: Roles.PlayerRole)
    requires Distinct(order) && forall k :: k in order ==> k in players && players[k].sid == k
    ensures InOrder(order, AllWithRole(players, order, role))
  {
    if order != [] {
      var tail := order[1..];
      assert Distinct(tail) by {
        forall i, j | 0 <= i < j < |tail| ensures tail[i] != tail[j] {
          assert tail[i] == order[i + 1] && tail[j] == order[j + 1];
        }
      }
      assert order[0] !in tail by {
        forall i | 0 <= i < |tail| ensures tail[i] != order[0] { assert tail[i] == order[i + 1]; }
      }
      AllWithRoleInOrder(players, tail, role);
      var head := if players[order[0]].role == Some(role) then [players[order[0]]] else [];
      assert AllWithRole(players, order, role) == head + AllWithRole(players, tail, role);
      InOrderCons(order, head, AllWithRole(players, tail, role));
    }
  }

  /** The single-player query returns the head of the list query. */
  lemma {:induction false} FirstIsHeadOfAll(players: map<string, Player>, order: seq<string>, role: Roles.PlayerRole)
    requires forall k :: k in order ==> k in players
    ensures FirstWithRole(players, order, role) ==
      if AllWithRole(players, order, role) == [] then None else Some(AllWithRole(players, order, role)[0])
    decreases |order|
  {
    if order != [] && players[order[0]].role != Some(role) {
      FirstIsHeadOfAll(players, order[1..], role);
    }
  }

  /** The sids one death takes: the player if known, then that player's lover if known. */
  function Victims(players: map<string, Player>, sid: string): seq<string>
  {
    if sid !in players then []
    else if HasLover(players[sid]) && players[sid].loverSid.value in players then [sid, players[sid].loverSid.value]
    else [sid]
  }

  /** No victim for an unknown sid; otherwise the player first, then the lover exactly when one is bonded and known. */
  lemma VictimsShape(players: map<string, Player>, sid: string)
    ensures Victims(players, sid) == [] <==> sid !in players
    ensures Victims(players, sid) != [] ==> Victims(players, sid)[0] == sid
    ensures |Victims(players, sid)| == 2 <==>
      sid in players && HasLover(players[sid]) && players[sid].loverSid.value in players
    ensures |Victims(players, sid)| <= 2 && forall v :: v in Victims(players, sid) ==> v in players
  {
  }

  // ---------------------------------------------------------------------------
  // Role assignment, team counters and the win check.
  // ---------------------------------------------------------------------------

  /** `[SEER, CUPID] + [VILLAGER] * (n - 2)`; a negative repeat count gives no villagers. */
  function BaseRoles(n: int): (r: seq<Roles.PlayerRole>)
    ensures |r| == if n > 2 then n else 2
    ensures multiset(r)[Roles.Seer] == 1 && multiset(r)[Roles.Cupid] == 1
    ensures multiset(r)[Roles.Werewolf] == 0
    ensures multiset(r)[Roles.Villager] == |r| - 2
  {
    var villagers := seq(if n > 2 then n - 2 else 0, _ => Roles.Villager);
    assert multiset(villagers)[Roles.Seer] == 0 && multiset(villagers)[Roles.Cupid] == 0 && multiset(villagers)[Roles.Werewolf] == 0 by {
      assert Roles.Seer !in villagers && Roles.Cupid !in villagers && Roles.Werewolf !in villagers;
    }
    assert multiset(villagers)[Roles.Villager] == |villagers| by {
      assert multiset(villagers) == multiset{} [Roles.Villager := |villagers|] by { VillagerMultiset(|villagers|); assert villagers == seq(|villagers|, _ => Roles.Villager); }
    }
    [Roles.Seer, Roles.Cupid] + villagers
  }

  lemma {:induction false} VillagerMultiset(n: nat)
    ensures multiset(seq(n, _ => Roles.Villager)) == multiset{}[Roles.Villager := n]
  {
    if n > 0 {
      VillagerMultiset(n - 1);
      assert seq(n, _ => Roles.Villager) == seq(n - 1, _ => Roles.Villager) + [Roles.Villager];
    }
  }

  /** Whatever the shuffle, the assigned roles cover every seat and hold one Seer, one Cupid and no Werewolf. */
  lemma AssignedRolesFacts(n: nat, draws: seq<nat>)
    ensures |Shuffling.Shuffle(BaseRoles(n), draws)| >= n
    ensures multiset(Shuffling.Shuffle(BaseRoles(n), draws)) == multiset(BaseRoles(n))
    ensures Roles.Werewolf !in Shuffling.Shuffle(BaseRoles(n), draws)
  {
    Shuffling.ShufflePermutes(BaseRoles(n), draws);
  }

  /** `update_team_counts`: a Werewolf's death lowers the werewolf count, any other death the villager count. */
  function CountsAfterDeath(p: Player, werewolves: int, villagers: int): (r: (int, int))
    ensures r.0 + r.1 == werewolves + villagers - 1
    ensures r.0 == werewolves - 1 <==> IsWerewolf(p)
  {
    if IsWerewolf(p) then (werewolves - 1, villagers) else (werewolves, villagers - 1)
  }

  datatype Winner = Villagers | Werewolves

  function WinnerName(w: Winner): string
  {
    match w
    case Villagers => "Villagers"
    case Werewolves => "Werewolves"
  }

  /**
   * `check_game_over`: no werewolf left means the village wins; otherwise the werewolves win
   * once they match the village count, which counts one villager fewer while the lovers flag is set.
   */
  function GameOutcome(werewolves: int, villagers: int, loversFlag: bool): Option<Winner>
  {
    var villageCount := if loversFlag then villagers - 1 else villagers;
    if werewolves == 0 then Some(Villagers)
    else if werewolves >= villageCount then Some(Werewolves)
    else None
  }

  /** The flag makes the werewolves win exactly as if one villager were already dead. */
  lemma LoversFlagDiscountsOneVillager(werewolves: int, villagers: int)
    ensures GameOutcome(werewolves, villagers, true) == GameOutcome(werewolves, villagers - 1, false)
    ensures GameOutcome(werewolves, villagers, false) == Some(Werewolves) ==> GameOutcome(werewolves, villagers, true) == Some(Werewolves)
    ensures werewolves > 0 && werewolves == villagers - 1 ==>
      GameOutcome(werewolves, villagers, true) == Some(Werewolves) && GameOutcome(werewolves, villagers, false) == None
  {
  }

  /** A mock player sid `mock_<i>` for a single-digit index. */
  function MockSid(i: nat): string
    requires i < 10
  {
    "mock_" + [(48 + i) as char]
  }

  const MockNames: seq<string> := ["Alice", "Bob", "Charlie", "Eve"]

  /** Length of Python's slice `xs[:count]` for a list of length `n`. */
  function SliceLength(n: nat, count: int): (r: nat)
    ensures r <= n
    ensures 0 <= count ==> r == if count < n then count else n
  {
    if count >= 0 then (if count < n then count else n)
    else if n + count > 0 then n + count else 0
  }

  // ---------------------------------------------------------------------------
  // The Game object.
  // ---------------------------------------------------------------------------

  class Game {
    var players: map<string, Player>
    /** Keys of `players` in insertion order (Python dict order). */
    var order: seq<string>
    var pendingDeaths: seq<string>
    var witchHealAvailable: bool
    var witchKillAvailable: bool
    /** `lovers` holds the two bonded players; here, their sids. */
    var lovers: seq<string>
    var vetoPlayer: Option<string>
    var playerVotesCount: Tally
    var werewolvesAlive: int
    var villagersAlive: int
    var winners: Option<Winner>
    /** `lovers_are_opposited_teams_and_alive` */
    var loversFlag: bool
    var loverIsHunter: bool
    /** Read by the segment manager; not initialised by the source, taken as `True` here. */
    var hunterIsAlive: bool
    /** The Cupid's sid; the source sets it only in a hard-coded test override. */
    var cupid: Option<string>

    ghost predicate Valid()
      reads this`players, this`order, this`lovers, this`pendingDeaths, this`playerVotesCount
    {
      && RosterValid(players, order)
      && (forall s :: s in lovers ==> s in players)
      && Distinct(pendingDeaths)
      && DistinctKeys(playerVotesCount)
      && SortedByCount(playerVotesCount)
    }

    constructor ()
      ensures Valid()
      ensures players == map[] && order == [] && pendingDeaths == [] && lovers == []
      ensures witchHealAvailable && witchKillAvailable && vetoPlayer == None
      ensures playerVotesCount == [] && werewolvesAlive == 0 && villagersAlive == 0
      ensures winners == None && loversFlag && !loverIsHunter && hunterIsAlive && cupid == None
    {
      players, order, pendingDeaths := map[], [], [];
      witchHealAvailable, witchKillAvailable := true, true;
      lovers, vetoPlayer, playerVotesCount := [], None, [];
      werewolvesAlive, villagersAlive, winners := 0, 0, None;
      loversFlag, loverIsHunter, hunterIsAlive, cupid := true, false, true, None;
    }

    /** Stores a fresh player under `sid`, replacing any earlier one but keeping its place in the order. */
    method AddPlayer(name: string, sid: string) returns (p: Player)
      requires Valid()
      modifies this`players, this`order
      ensures Valid()
      ensures p == NewPlayer(name, sid)
      ensures players == old(players)[sid := p]
      ensures order == AppendIfAbsent(old(order), sid)
    {
      p := NewPlayer(name, sid);
      players := players[sid := p];
      order := AppendIfAbsent(order, sid);
    }

    /** Adds `Alice`, `Bob`, `Charlie`, `Eve` (as many as `mock_names[:count]` keeps) under `mock_0`, `mock_1`, ... */
    method AddMockPlayers(count: int)
      requires Valid()
      modifies this`players, this`order
      ensures Valid()
      ensures old(players).Keys <= players.Keys
      ensures |players| <= |old(players)| + SliceLength(|MockNames|, count)
      ensures var n := SliceLength(|MockNames|, count);
        && (forall i :: 0 <= i < n ==> MockSid(i) in players && players[MockSid(i)] == NewPlayer(MockNames[i], MockSid(i)))
        && (forall k :: k in players <==> k in old(players) || exists i :: 0 <= i < n && k == MockSid(i))
        && (forall k :: k in old(players) && (forall i :: 0 <= i < n ==> k != MockSid(i)) ==> players[k] == old(players)[k])
    {
      var n := SliceLength(|MockNames|, count);
      var i := 0;
      while i < n
        invariant 0 <= i <= n && Valid()
        invariant |players| <= |old(players)| + i
        invariant forall j :: 0 <= j < i ==> MockSid(j) in players && players[MockSid(j)] == NewPlayer(MockNames[j], MockSid(j))
        invariant forall k :: k in players <==> k in old(players) || exists j :: 0 <= j < i && k == MockSid(j)
        invariant forall k :: k in old(players) && (forall j :: 0 <= j < i ==> k != MockSid(j)) ==> players[k] == old(players)[k]
      {
        MockSidsDistinct(i);
        var _ := AddPlayer(MockNames[i], MockSid(i));
        i := i + 1;
      }
    }

    function GetPlayer(sid: string): (r: Option<Player>)
      reads this
      ensures r.None? <==> sid !in players
      ensures r.Some? ==> r.value == players[sid]
    {
      if sid in players then Some(players[sid]) else None
    }

    function GetPlayerByRole(role: Roles.PlayerRole): (r: Option<Player>)
      reads this
      requires Valid()
      ensures r == (if GetPlayersByRole(role) == [] then None else Some(GetPlayersByRole(role)[0]))
      ensures r.None? <==> forall k :: k in players ==> players[k].role != Some(role)
      ensures r.Some? ==> (&& r.value.role == Some(role) && r.value.sid in players && players[r.value.sid] == r.value
        && forall k :: k in players && players[k].role == Some(role) ==> IndexOf(order, r.value.sid) <= IndexOf(order, k))
    {
      FirstIsHeadOfAll(players, order, role);
      FirstWithRoleIsEarliest(players, order, role);
      FirstWithRole(players, order, role)
    }

    /** `get_players_by_role`: exactly the holders of the role, listed in insertion order. */
    function GetPlayersByRole(role: Roles.PlayerRole): (r: seq<Player>)
      reads this
      requires Valid()
      ensures forall p :: p in r ==> p.role == Some(role) && p.sid in players && players[p.sid] == p
      ensures forall k :: k in players && players[k].role == Some(role) ==> players[k] in r
      ensures InOrder(order, r)
    {
      AllWithRoleKeyed(players, order, role);
      AllWithRoleInOrder(players, order, role);
      var r := AllWithRole(players, order, role);
      assert forall i :: 0 <= i < |r| ==> r[i] in r;
      r
    }

    function GetWerewolvesCount(): nat
      reads this
      requires Valid()
    {
      |GetPlayersByRole(Roles.Werewolf)|
    }

    /** Deals a shuffle of `BaseRoles(len(players))` to the players in insertion order, then sets the counters for one werewolf. */
    method AssignRoles(draws: seq<nat>)
      requires Valid()
      modifies this`players, this`werewolvesAlive, this`villagersAlive
      ensures Valid()
      ensures players.Keys == old(players).Keys
      ensures var dealt := Shuffling.Shuffle(BaseRoles(|old(players)|), draws);
        |dealt| >= |order| &&
        forall i :: 0 <= i < |order| ==> players[order[i]] == old(players)[order[i]].(role := Some(dealt[i]))
      ensures werewolvesAlive == 1 && villagersAlive == |players| - 1
    {
      var dealt := Shuffling.Shuffle(BaseRoles(|players|), draws);
      RosterSize(players, order);
      AssignedRolesFacts(|players|, draws);
      players := Deal(players, order, dealt);
      SetTeamsCount(1);
    }

    method SetTeamsCount(numberOfWerewolves: int)
      modifies this`werewolvesAlive, this`villagersAlive
      ensures werewolvesAlive == numberOfWerewolves
      ensures villagersAlive == |players| - numberOfWerewolves
    {
      werewolvesAlive := numberOfWerewolves;
      villagersAlive := |players| - numberOfWerewolves;
    }

    /** Bonds two players symmetrically and records them as the lovers. */
    method SetLovers(sid1: string, sid2: string)
      requires Valid() && sid1 in players && sid2 in players
      modifies this`players, this`lovers
      ensures Valid()
      ensures players.Keys == old(players).Keys
      ensures players[sid1] == old(players)[sid1].(loverSid := Some(sid2))
      ensures sid1 != sid2 ==> players[sid2] == old(players)[sid2].(loverSid := Some(sid1))
      ensures forall k :: k in players && k != sid1 && k != sid2 ==> players[k] == old(players)[k]
      ensures lovers == [sid1, sid2]
    {
      players := players[sid1 := players[sid1].(loverSid := Some(sid2))];
      players := players[sid2 := players[sid2].(loverSid := Some(sid1))];
      lovers := [sid1, sid2];
    }

    /** Records `player`'s sid as a pending death unless it is already there. */
    method AddPendingDeath(player: Player)
      requires Valid()
      modifies this`pendingDeaths
      ensures Valid()
      ensures pendingDeaths == AppendIfAbsent(old(pendingDeaths), player.sid)
    {
      pendingDeaths := AppendIfAbsent(pendingDeaths, player.sid);
    }

    /** Drops `player`'s sid from the pending deaths; an absent sid changes nothing. */
    method RemovePendingDeath(player: Player)
      requires Valid()
      modifies this`pendingDeaths
      ensures Valid()
      ensures pendingDeaths == RemoveFirst(old(pendingDeaths), player.sid)
      ensures forall s :: s in pendingDeaths <==> s in old(pendingDeaths) && s != player.sid
    {
      RemoveFirstOfDistinct(pendingDeaths, player.sid);
      pendingDeaths := RemoveFirst(pendingDeaths, player.sid);
    }

    method SetVetoPlayer(sid: string)
      modifies this`vetoPlayer
      ensures vetoPlayer == Some(sid)
    {
      vetoPlayer := Some(sid);
    }

    method SetPlayerVote(sid: string)
      requires Valid()
      modifies this`playerVotesCount
      ensures Valid()
      ensures playerVotesCount == RecordVote(old(playerVotesCount), sid)
      ensures forall k :: CountOf(playerVotesCount, k) == CountOf(old(playerVotesCount), k) + (if k == sid then 1 else 0)
    {
      RecordVoteFacts(playerVotesCount, sid);
      playerVotesCount := RecordVote(playerVotesCount, sid);
    }

    method UpdateTeamCounts(p: Player)
      modifies this`werewolvesAlive, this`villagersAlive
      ensures (werewolvesAlive, villagersAlive) == CountsAfterDeath(p, old(werewolvesAlive), old(villagersAlive))
    {
      if IsWerewolf(p) {
        werewolvesAlive := werewolvesAlive - 1;
      } else {
        villagersAlive := villagersAlive - 1;
      }
    }

    /** An unknown sid changes nothing; otherwise the player dies and one counter drops. */
    method KillPlayer(sid: string)
      requires Valid()
      modifies this`players, this`werewolvesAlive, this`villagersAlive
      ensures Valid()
      ensures sid !in old(players) ==> players == old(players) && werewolvesAlive == old(werewolvesAlive) && villagersAlive == old(villagersAlive)
      ensures sid in old(players) ==>
        && players == old(players)[sid := old(players)[sid].(isAlive := false)]
        && (werewolvesAlive, villagersAlive) == CountsAfterDeath(old(players)[sid], old(werewolvesAlive), old(villagersAlive))
    {
      var p := GetPlayer(sid);
      if p.None? {
        return;
      }
      players := players[sid := p.value.(isAlive := false)];
      UpdateTeamCounts(p.value);
    }

    function GetTopVotedPlayers(): (r: seq<string>)
      reads this
      requires Valid()
      ensures r == [] <==> playerVotesCount == []
      ensures forall k :: k in r <==> IsLeader(playerVotesCount, k)
    {
      forall k ensures k in TopVoted(playerVotesCount) <==> IsLeader(playerVotesCount, k) {
        TopVotedAreLeaders(playerVotesCount, k);
      }
      TopVotedAreLeaders(playerVotesCount, "");
      TopVoted(playerVotesCount)
    }

    /** Both `reset_player_votes` and `reset_top_voted_players`. */
    method ResetPlayerVotes()
      requires Valid()
      modifies this`playerVotesCount
      ensures Valid() && playerVotesCount == []
    {
      playerVotesCount := [];
    }

    /** Records and reports the winner; when the game goes on `winners` keeps its value. */
    method CheckGameOver() returns (over: bool)
      modifies this`winners
      ensures var w := GameOutcome(werewolvesAlive, villagersAlive, loversFlag);
        over == w.Some? && winners == (if over then w else old(winners))
    {
      var villageCount := if loversFlag then villagersAlive - 1 else villagersAlive;
      if werewolvesAlive == 0 {
        winners := Some(Villagers);
        return true;
      }
      if werewolvesAlive >= villageCount {
        winners := Some(Werewolves);
        return true;
      }
      return false;
    }
  }

  /** The `zip(players.values(), roles)` loop: seat `i` in insertion order receives `roles[i]`. */
  method Deal(players: map<string, Player>, order: seq<string>, roles: seq<Roles.PlayerRole>) returns (r: map<string, Player>)
    requires RosterValid(players, order) && |roles| >= |order|
    ensures RosterValid(r, order) && r.Keys == players.Keys
    ensures forall i :: 0 <= i < |order| ==> r[order[i]] == players[order[i]].(role := Some(roles[i]))
  {
    r := players;
    var i := 0;
    while i < |order| && i < |roles|
      invariant 0 <= i <= |order|
      invariant r.Keys == players.Keys
      invariant forall k :: k in r ==> r[k].sid == k
      invariant forall j :: 0 <= j < i ==> r[order[j]] == players[order[j]].(role := Some(roles[j]))
      invariant forall j :: i <= j < |order| ==> r[order[j]] == players[order[j]]
    {
      var sid := order[i];
      r := r[sid := r[sid].(role := Some(roles[i]))];
      i := i + 1;
    }
  }

  lemma MockSidsDistinct(i: nat)
    requires i < 4
    ensures forall j :: 0 <= j < 4 && j != i ==> MockSid(j) != MockSid(i)
  {
    forall j | 0 <= j < 4 && j != i ensures MockSid(j) != MockSid(i) {
      assert MockSid(j)[5] != MockSid(i)[5];
    }
  }
}
