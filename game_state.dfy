/** The older game state with its own vote tally (game_state.py). */
module GameStates {
  import opened Wrappers
  import opened Seqs
  import opened GameCore

  /** One entry of `night_actions`. */
  datatype NightAction = NightAction(action: string, target: string)

  /** The `vote_counts` dictionary built by `count_votes`: targets in order of their first ballot. */
  function TallyOf(ballots: seq<string>): Tally
    decreases |ballots|
  {
    if ballots == [] then [] else Bump(TallyOf(ballots[..|ballots| - 1]), ballots[|ballots| - 1])
  }

  /** The tally counts each target's ballots exactly, once per target. */
  lemma {:induction false} TallyCounts(ballots: seq<string>)
    ensures DistinctKeys(TallyOf(ballots))
    ensures KeySet(TallyOf(ballots)) == set b | b in ballots
    ensures forall k :: CountOf(TallyOf(ballots), k) == multiset(ballots)[k]
    decreases |ballots|
  {
    if ballots != [] {
      var front := ballots[..|ballots| - 1];
      var last := ballots[|ballots| - 1];
      TallyCounts(front);
      BumpCounts(TallyOf(front), last);
      assert ballots == front + [last];
      assert (set b | b in ballots) == (set b | b in front) + {last};
    }
  }

  /** On a tally with distinct keys the stored count of an entry is that entry's count. */
  lemma {:induction false} CountAtIndex(t: Tally, i: nat)
    requires DistinctKeys(t) && i < |t|
    ensures CountOf(t, t[i].0) == t[i].1
  {
    if i > 0 {
      DistinctKeysTail(t);
      CountAtIndex(t[1..], i - 1);
      assert t[1..][i - 1] == t[i];
    }
  }

  class GameState {
    var phase: string
    var round: int
    var playersAlive: set<string>
    /** `votes`: voter to target. */
    var votes: map<string, string>
    /** The voters in the dictionary's insertion order. */
    var voters: seq<string>
    var nightActions: map<string, NightAction>
    var cupidonSid: Option<string>
    var cupidonChoice: Option<string>

    ghost predicate Valid()
      reads this`votes, this`voters
    {
      Distinct(voters) && forall v :: v in votes <==> v in voters
    }

    /** The ballots in the order `votes.values()` yields them. */
    function Ballots(): (r: seq<string>)
      reads this`votes, this`voters
      requires Valid()
      ensures |r| == |voters| && forall i :: 0 <= i < |voters| ==> r[i] == votes[voters[i]]
    {
      ValuesInOrder(votes, voters)
    }

    lemma RosterSizeOfVotes()
      requires Valid()
      ensures |votes| == |voters|
    {
      assert votes.Keys == (set x | x in voters);
      DistinctSetSize(voters);
    }

    constructor ()
      ensures Valid()
      ensures phase == "waiting" && round == 0 && playersAlive == {}
      ensures votes == map[] && voters == [] && nightActions == map[]
      ensures cupidonSid == None && cupidonChoice == None
    {
      phase, round, playersAlive := "waiting", 0, {};
      votes, voters, nightActions := map[], [], map[];
      cupidonSid, cupidonChoice := None, None;
    }

    /** The joined sids become the living players and the first night begins; `handle_night` only emits. */
    method StartGame(players: set<string>)
      modifies this`playersAlive, this`phase, this`round
      ensures playersAlive == players && phase == "night" && round == 1
    {
      playersAlive := players;
      phase := "night";
      round := 1;
    }

    /** Only the latest action of each player is kept. */
    method ProcessNightAction(playerId: string, action: string, targetId: string)
      modifies this`nightActions
      ensures nightActions == old(nightActions)[playerId := NightAction(action, targetId)]
    {
      nightActions := nightActions[playerId := NightAction(action, targetId)];
    }

    /** A living voter's ballot replaces any earlier one of theirs; anyone else is ignored. */
    method ProcessVote(voterId: string, targetId: string)
      requires Valid()
      modifies this`votes, this`voters
      ensures Valid()
      ensures voterId !in playersAlive ==> votes == old(votes) && voters == old(voters)
      ensures voterId in playersAlive ==>
        && votes == old(votes)[voterId := targetId]
        && voters == AppendIfAbsent(old(voters), voterId)
    {
      if voterId in playersAlive {
        votes := votes[voterId := targetId];
        voters := AppendIfAbsent(voters, voterId);
      }
    }

    method SetCupidonSid(sid: string)
      modifies this`cupidonSid
      ensures cupidonSid == Some(sid)
    {
      cupidonSid := Some(sid);
    }

    /**
     * No ballots give `None`; otherwise a target no other target out-polls, and among the targets
     * sharing the top count the one tallied first.
     */
    method CountVotes() returns (r: Option<string>)
      requires Valid()
      ensures r.None? <==> votes == map[]
      ensures r.Some? ==> r.value in Ballots() && forall k :: multiset(Ballots())[k] <= multiset(Ballots())[r.value]
      ensures r.Some? ==> var t := TallyOf(Ballots());
        exists i :: 0 <= i < |t| && t[i].0 == r.value && forall j :: 0 <= j < i ==> t[j].1 < t[i].1
    {
      if |votes| == 0 {
        return None;
      }
      var ballots := Ballots();
      RosterSizeOfVotes();
      var voteCounts := TallyBallots(ballots);
      TallyCounts(ballots);
      assert ballots[0] in KeySet(voteCounts);
      var best := FirstMax(voteCounts);
      r := Some(voteCounts[best].0);
      CountAtIndex(voteCounts, best);
      forall k ensures multiset(ballots)[k] <= multiset(ballots)[r.value] {
        if k in KeySet(voteCounts) {
          var m :| 0 <= m < |voteCounts| && voteCounts[m].0 == k;
          CountAtIndex(voteCounts, m);
        } else {
          CountAbsent(voteCounts, k);
        }
      }
    }
  }

  /** The tallying loop of `count_votes`: `vote_counts[target] = vote_counts.get(target, 0) + 1`. */
  method TallyBallots(ballots: seq<string>) returns (voteCounts: Tally)
    ensures voteCounts == TallyOf(ballots)
  {
    voteCounts := [];
    var i := 0;
    while i < |ballots|
      invariant 0 <= i <= |ballots|
      invariant voteCounts == TallyOf(ballots[..i])
    {
      assert ballots[..i + 1][..i] == ballots[..i];
      voteCounts := Bump(voteCounts, ballots[i]);
      i := i + 1;
    }
    assert ballots[..|ballots|] == ballots;
  }

  /** `max(items, key=count)`: the first entry with the largest count. */
  method FirstMax(t: Tally) returns (best: nat)
    requires t != []
    ensures best < |t|
    ensures forall m :: 0 <= m < |t| ==> t[m].1 <= t[best].1
    ensures forall m :: 0 <= m < best ==> t[m].1 < t[best].1
  {
    best := 0;
    var j := 1;
    while j < |t|
      invariant 0 <= best < j <= |t|
      invariant forall m :: 0 <= m < j ==> t[m].1 <= t[best].1
      invariant forall m :: 0 <= m < best ==> t[m].1 < t[best].1
    {
      if t[j].1 > t[best].1 {
        best := j;
      }
      j := j + 1;
    }
  }
}
