/** The older single-file server (loup-garou-backend/server.py): its role deal and its handlers. */
module Server {
  import opened Wrappers
  import opened Seqs
  import opened Shuffling
  import opened LegacyPlayers
  import opened GameStates
  import GameCore

  /** One werewolf below six players, two from six on. */
  function WerewolfCount(numPlayers: nat): nat
  {
    if numPlayers < 6 then 1 else 2
  }

  /** `[x] * k`, which is empty for a negative `k`. */
  function Repeat(x: string, k: int): (r: seq<string>)
    ensures |r| == if k < 0 then 0 else k
    ensures forall i :: 0 <= i < |r| ==> r[i] == x
    decreases k
  {
    if k <= 0 then [] else [x] + Repeat(x, k - 1)
  }

  lemma {:induction false} RepeatCount(x: string, k: int, y: string)
    ensures multiset(Repeat(x, k))[y] == if y == x && k > 0 then k else 0
    decreases k
  {
    if k > 0 {
      RepeatCount(x, k - 1, y);
      assert multiset(Repeat(x, k)) == multiset{x} + multiset(Repeat(x, k - 1));
    }
  }

  /** `roles_to_assign` before the shuffle. */
  function RolesToAssign(numPlayers: nat): seq<string>
  {
    var nw := WerewolfCount(numPlayers);
    Repeat("werewolf", nw) + ["seer"] + Repeat("villager", numPlayers - nw - 1)
  }

  /** `role_assignment`, with the shuffle's random draws as a parameter. */
  function RoleAssignment(numPlayers: nat, draws: seq<nat>): seq<string>
  {
    Shuffle(RolesToAssign(numPlayers), draws)
  }

  /** The unshuffled list: the werewolf count, exactly one seer, and villagers for the rest. */
  lemma RolesToAssignCounts(numPlayers: nat)
    ensures var m := multiset(RolesToAssign(numPlayers)); var nw := WerewolfCount(numPlayers);
      && m["werewolf"] == nw && m["seer"] == 1
      && m["villager"] == (if numPlayers > nw + 1 then numPlayers - nw - 1 else 0)
      && |m| == |RolesToAssign(numPlayers)|
  {
    var nw := WerewolfCount(numPlayers);
    var rest := numPlayers - nw - 1;
    assert multiset(RolesToAssign(numPlayers)) == multiset(Repeat("werewolf", nw)) + multiset{"seer"} + multiset(Repeat("villager", rest));
    RepeatCount("werewolf", nw, "werewolf");
    RepeatCount("werewolf", nw, "seer");
    RepeatCount("werewolf", nw, "villager");
    RepeatCount("villager", rest, "werewolf");
    RepeatCount("villager", rest, "seer");
    RepeatCount("villager", rest, "villager");
  }

  /** Only the three dealt role names occur in the unshuffled list. */
  lemma RolesToAssignNames(numPlayers: nat)
    ensures forall x :: x in RolesToAssign(numPlayers) ==> x in {"werewolf", "seer", "villager"}
  {
    var nw := WerewolfCount(numPlayers);
    assert RolesToAssign(numPlayers) == Repeat("werewolf", nw) + ["seer"] + Repeat("villager", numPlayers - nw - 1);
  }

  /**
   * Whatever the draws, the deal holds the werewolf count, exactly one seer, and villagers
   * for the rest; it is a rearrangement of the unshuffled list, and its length is the
   * player count once there are enough players for the werewolves and the seer.
   */
  lemma RoleAssignmentCounts(numPlayers: nat, draws: seq<nat>)
    ensures var r := RoleAssignment(numPlayers, draws);
      && multiset(r) == multiset(RolesToAssign(numPlayers))
      && multiset(r)["werewolf"] == WerewolfCount(numPlayers)
      && multiset(r)["seer"] == 1
      && multiset(r)["villager"] == (if numPlayers > WerewolfCount(numPlayers) + 1 then numPlayers - WerewolfCount(numPlayers) - 1 else 0)
      && (numPlayers >= WerewolfCount(numPlayers) + 1 ==> |r| == numPlayers)
      && |r| >= numPlayers
      && forall i :: 0 <= i < |r| ==> r[i] in {"werewolf", "seer", "villager"}
  {
    var pre := RolesToAssign(numPlayers);
    ShufflePermutes(pre, draws);
    RolesToAssignCounts(numPlayers);
    RolesToAssignNames(numPlayers);
    var r := RoleAssignment(numPlayers, draws);
    forall i | 0 <= i < |r| ensures r[i] in {"werewolf", "seer", "villager"} {
      assert r[i] in multiset(pre);
    }
  }

  /** There are always at least as many roles as players, so `zip` never leaves a player out. */
  lemma RoleAssignmentCoversRoster(numPlayers: nat, draws: seq<nat>)
    ensures |RoleAssignment(numPlayers, draws)| >= numPlayers
  {
    ShufflePermutes(RolesToAssign(numPlayers), draws);
  }

  /** The sids and names of the mock players the first join adds. */
  const MockSids: seq<string> := ["2", "3", "4", "5", "6"]
  const MockNames: seq<string> := ["Alice", "Bob", "Charlie", "David", "Eve"]

  lemma MockSidsDistinct()
    ensures Distinct(MockSids) && |MockSids| == |MockNames| == 5
  {
  }

  /** The sids in `order` whose key the roster keeps. */
  ghost predicate Keyed(players: map<string, LegacyPlayer>, order: seq<string>)
  {
    Distinct(order) && (forall k :: k in players <==> k in order) && forall k :: k in players ==> players[k].sid == k
  }

  class Server {
    /** `players`, the module-level dictionary keyed by sid. */
    var players: map<string, LegacyPlayer>
    /** Its keys in insertion order. */
    var order: seq<string>
    const gameState: GameState

    ghost predicate Valid()
      reads this`players, this`order
    {
      Keyed(players, order)
    }

    constructor (gs: GameState)
      ensures Valid() && players == map[] && order == [] && gameState == gs
    {
      players, order := map[], [];
      gameState := gs;
    }

    /** Store a fresh player without a role under `sid`. */
    method Put(name: string, sid: string)
      requires Valid()
      modifies this`players, this`order
      ensures Valid()
      ensures players.Keys == old(players).Keys + {sid} && order == AppendIfAbsent(old(order), sid)
      ensures fresh(players[sid]) && players[sid].name == name && players[sid].role == NoRole && players[sid].lover == None
      ensures forall k :: k in old(players) && k != sid ==> players[k] == old(players)[k]
    {
      var p := new LegacyPlayer(name, sid, NoRole);
      players := players[sid := p];
      order := AppendIfAbsent(order, sid);
    }

    /** `handle_join` */
    method Join(name: string, sid: string)
      requires Valid()
      modifies this`players, this`order
      ensures Valid()
      ensures players.Keys == old(players).Keys + {sid} && order == AppendIfAbsent(old(order), sid)
      ensures fresh(players[sid]) && players[sid].name == name && players[sid].role == NoRole
      ensures forall k :: k in old(players) && k != sid ==> players[k] == old(players)[k]
    {
      Put(name, sid);
    }

    /** The five mock players, each replacing whatever its sid held. */
    method AddMocks()
      requires Valid()
      modifies this`players, this`order
      ensures Valid()
      ensures forall k :: k in players <==> k in old(players) || k in MockSids
      ensures forall i :: 0 <= i < 5 ==> fresh(players[MockSids[i]]) && players[MockSids[i]].name == MockNames[i] && players[MockSids[i]].role == NoRole
      ensures forall k :: k in old(players) && k !in MockSids ==> players[k] == old(players)[k]
      ensures |old(order)| <= |order| && order[..|old(order)|] == old(order)
    {
      MockSidsDistinct();
      var i := 0;
      while i < 5
        invariant 0 <= i <= 5
        invariant Valid()
        invariant forall k :: k in players <==> k in old(players) || k in MockSids[..i]
        invariant forall j :: 0 <= j < i ==> fresh(players[MockSids[j]]) && players[MockSids[j]].name == MockNames[j] && players[MockSids[j]].role == NoRole
        invariant forall k :: k in old(players) && k !in MockSids[..i] ==> players[k] == old(players)[k]
        invariant |old(order)| <= |order| && order[..|old(order)|] == old(order)
      {
        var m := new LegacyPlayer(MockNames[i], MockSids[i], NoRole);
        players := players[MockSids[i] := m];
        order := AppendIfAbsent(order, MockSids[i]);
        assert MockSids[..i + 1] == MockSids[..i] + [MockSids[i]];
        i := i + 1;
      }
      assert MockSids[..5] == MockSids;
    }

    /**
     * `handle_add_player`: store the player; when that leaves a single player, the
     * five mock players follow under sids "2" to "6", replacing the newcomer if it
     * holds one of those sids.
     */
    method AddPlayer(name: string, sid: string)
      requires Valid()
      modifies this`players, this`order
      ensures Valid()
      ensures |old(order)| <= |order| && order[..|old(order)|] == old(order)
      ensures old(players).Keys <= {sid} ==>
        && (forall k :: k in players <==> k == sid || k in MockSids)
        && (forall i :: 0 <= i < 5 ==> fresh(players[MockSids[i]]) && players[MockSids[i]].name == MockNames[i] && players[MockSids[i]].role == NoRole)
        && (sid !in MockSids ==> fresh(players[sid]) && players[sid].name == name && players[sid].role == NoRole && |players| == 6)
      ensures !(old(players).Keys <= {sid}) ==>
        && players.Keys == old(players).Keys + {sid}
        && fresh(players[sid]) && players[sid].name == name && players[sid].role == NoRole
        && forall k :: k in old(players) && k != sid ==> players[k] == old(players)[k]
    {
      Put(name, sid);
      FirstJoin(old(players).Keys, sid, players.Keys);
      if |players| == 1 {
        AddMocks();
        if sid !in MockSids {
          MockRosterSize(players.Keys, sid);
        }
      }
    }

    /** The mock sids and one more sid make six keys. */
    static lemma MockRosterSize(keys: set<string>, sid: string)
      requires sid !in MockSids && forall k :: k in keys <==> k == sid || k in MockSids
      ensures |keys| == 6
    {
      assert keys == {sid, "2", "3", "4", "5", "6"};
    }

    /** After storing `sid`, the roster holds a single player exactly when no other sid was there before. */
    static lemma FirstJoin(before: set<string>, sid: string, after: set<string>)
      requires after == before + {sid}
      ensures before <= {sid} <==> |after| == 1
    {
      if !(before <= {sid}) {
        var k :| k in before && k != sid;
        assert after == {k, sid} + (after - {k, sid});
      } else {
        assert after == {sid};
      }
    }

    /** Distinct sids hold distinct player objects. */
    lemma PlayersDistinct()
      requires Valid()
      ensures forall i, j :: 0 <= i < j < |order| ==> players[order[i]] != players[order[j]]
    {
      forall i, j | 0 <= i < j < |order| ensures players[order[i]] != players[order[j]] {
        assert players[order[i]].sid == order[i] && players[order[j]].sid == order[j];
      }
    }

    /**
     * `handle_assign_roles`: deal `role_assignment(len(players))` and hand the roles out
     * position by position in insertion order; `zip` drops the roles left over.
     */
    method AssignRoles(draws: seq<nat>) returns (roles: seq<string>)
      requires Valid()
      modifies players.Values
      ensures roles == RoleAssignment(|players|, draws) && |roles| >= |order|
      ensures forall i :: 0 <= i < |order| ==> players[order[i]].role == Text(roles[i])
      ensures forall i :: 0 <= i < |order| ==> players[order[i]].lover == old(players[order[i]].lover)
    {
      RosterSize();
      PlayersDistinct();
      roles := RoleAssignment(|players|, draws);
      RoleAssignmentCoversRoster(|players|, draws);
      var i := 0;
      while i < |order|
        invariant 0 <= i <= |order|
        invariant forall j :: 0 <= j < i ==> players[order[j]].role == Text(roles[j])
        invariant forall j :: 0 <= j < |order| ==> players[order[j]].lover == old(players[order[j]].lover)
      {
        players[order[i]].AssignRole(Text(roles[i]));
        i := i + 1;
      }
    }

    lemma RosterSize()
      requires Valid()
      ensures |players| == |order|
    {
      assert players.Keys == set k | k in order;
      GameCore.DistinctSetSize(order);
    }

    /** `handle_start_game`: the joined sids become the living players of the first night. */
    method StartGame()
      modifies gameState`playersAlive, gameState`phase, gameState`round
      ensures gameState.playersAlive == players.Keys && gameState.phase == "night" && gameState.round == 1
    {
      gameState.StartGame(players.Keys);
    }

    /**
     * `handle_cupidon_selection`: with fewer than two sids the lookup `sids[1]` fails before
     * any change; otherwise the first chosen player falls for the second and the second for the
     * first, and nobody else changes.
     */
    method CupidonSelection(sids: seq<string>) returns (o: Outcome<string>)
      requires Valid()
      modifies players.Values
      ensures |sids| < 2 <==> o.Fail?
      ensures forall k :: k in players ==> players[k].role == old(players[k].role)
      ensures forall k :: k in players ==> players[k].lover == LoverAfter(sids, k, old(players[k].lover))
    {
      if |sids| < 2 {
        return Fail("list index out of range");
      }
      PlayersDistinct();
      var i := 0;
      while i < |order|
        invariant 0 <= i <= |order|
        invariant forall k :: k in players ==> players[k].role == old(players[k].role)
        invariant forall j :: 0 <= j < i ==> players[order[j]].lover == LoverAfter(sids, order[j], old(players[order[j]].lover))
        invariant forall j :: i <= j < |order| ==> players[order[j]].lover == old(players[order[j]].lover)
      {
        var p := players[order[i]];
        if p.sid == sids[0] {
          p.lover := Some(sids[1]);
        } else if p.sid == sids[1] {
          p.lover := Some(sids[0]);
        }
        i := i + 1;
      }
      forall k | k in players
        ensures players[k].lover == LoverAfter(sids, k, old(players[k].lover))
      {
        assert players[order[IndexOf(order, k)]] == players[k];
      }
      return Pass;
    }
  }

  /** The lover a player holds after Cupid chose `sids`, given the one it held before. */
  function LoverAfter(sids: seq<string>, sid: string, prior: Option<string>): (r: Option<string>)
    ensures |sids| >= 2 && sid == sids[0] ==> r == Some(sids[1])
    ensures |sids| >= 2 && sid == sids[1] && sid != sids[0] ==> r == Some(sids[0])
    ensures |sids| < 2 || (sid != sids[0] && sid != sids[1]) ==> r == prior
  {
    if |sids| >= 2 && sid == sids[0] then Some(sids[1])
    else if |sids| >= 2 && sid == sids[1] then Some(sids[0])
    else prior
  }

  /** The chosen pair ends up bonded to each other whenever the two sids differ. */
  lemma PairingSymmetric(sids: seq<string>, p0: Option<string>, p1: Option<string>)
    requires |sids| >= 2 && sids[0] != sids[1]
    ensures LoverAfter(sids, sids[0], p0) == Some(sids[1]) && LoverAfter(sids, sids[1], p1) == Some(sids[0])
  {
  }
}
