/** The top-level prototype game object (Game.py), built on the older player object. */
module LegacyGames {
  import opened Wrappers
  import opened Seqs
  import opened LegacyPlayers

  /** `[p for p in ps if p.role == role]` */
  function Matching(ps: seq<LegacyPlayer>, role: RoleValue): seq<LegacyPlayer>
    reads ps
  {
    if ps == [] then [] else (if ps[0].role == role then [ps[0]] else []) + Matching(ps[1..], role)
  }

  /** `next((p for p in ps if p.role == role), None)`: the earliest holder of the role, if any. */
  function FirstMatching(ps: seq<LegacyPlayer>, role: RoleValue): (r: Option<LegacyPlayer>)
    reads ps
    ensures r.None? <==> forall j :: 0 <= j < |ps| ==> ps[j].role != role
    ensures r.Some? ==> exists j :: (0 <= j < |ps| && ps[j] == r.value && ps[j].role == role
      && forall i :: 0 <= i < j ==> ps[i].role != role)
  {
    if ps == [] then None
    else if ps[0].role == role then Some(ps[0])
    else
      var r := FirstMatching(ps[1..], role);
      assert r.None? <==> forall j :: 0 <= j < |ps| ==> ps[j].role != role by {
        forall j | 0 < j < |ps| ensures ps[j] == ps[1..][j - 1] { }
      }
      assert r.Some? ==> exists j :: (0 <= j < |ps| && ps[j] == r.value && ps[j].role == role
        && forall i :: 0 <= i < j ==> ps[i].role != role) by {
        if r.Some? {
          var j :| 0 <= j < |ps[1..]| && ps[1..][j] == r.value && ps[1..][j].role == role
            && forall i :: 0 <= i < j ==> ps[1..][i].role != role;
          assert ps[j + 1] == r.value;
          forall i | 0 <= i < j + 1 ensures ps[i].role != role {
            if i > 0 { assert ps[i] == ps[1..][i - 1]; }
          }
        }
      }
      r
  }

  /** The filter splits over concatenation, so the matches keep the list's order. */
  lemma {:induction false} MatchingAppend(a: seq<LegacyPlayer>, b: seq<LegacyPlayer>, role: RoleValue)
    ensures Matching(a + b, role) == Matching(a, role) + Matching(b, role)
  {
    if a == [] {
      assert a + b == b;
    } else {
      assert (a + b)[0] == a[0] && (a + b)[1..] == a[1..] + b;
      MatchingAppend(a[1..], b, role);
    }
  }

  /** The matches of a list are the matches before any split point followed by the matches after it. */
  lemma MatchingSplits(ps: seq<LegacyPlayer>, role: RoleValue)
    ensures forall j :: 0 <= j <= |ps| ==> Matching(ps, role) == Matching(ps[..j], role) + Matching(ps[j..], role)
  {
    forall j | 0 <= j <= |ps| ensures Matching(ps, role) == Matching(ps[..j], role) + Matching(ps[j..], role) {
      assert ps == ps[..j] + ps[j..];
      MatchingAppend(ps[..j], ps[j..], role);
    }
  }

  /** The matches are exactly the players holding the role. */
  lemma {:induction false} MatchingMembers(ps: seq<LegacyPlayer>, role: RoleValue)
    ensures forall i :: 0 <= i < |Matching(ps, role)| ==> Matching(ps, role)[i] in ps && Matching(ps, role)[i].role == role
    ensures forall j :: 0 <= j < |ps| && ps[j].role == role ==> ps[j] in Matching(ps, role)
    ensures |Matching(ps, role)| <= |ps|
    ensures (forall j :: 0 <= j < |ps| ==> ps[j].role == role) ==> Matching(ps, role) == ps
  {
    if ps != [] {
      MatchingMembers(ps[1..], role);
      assert ps == [ps[0]] + ps[1..];
    }
  }

  /** The matches are exactly the players holding the role, and they split at every split point of the list, so the filter keeps its order. */
  lemma MatchingFacts(ps: seq<LegacyPlayer>, role: RoleValue)
    ensures forall i :: 0 <= i < |Matching(ps, role)| ==> Matching(ps, role)[i] in ps && Matching(ps, role)[i].role == role
    ensures forall j :: 0 <= j < |ps| && ps[j].role == role ==> ps[j] in Matching(ps, role)
    ensures (forall j :: 0 <= j < |ps| ==> ps[j].role == role) ==> Matching(ps, role) == ps
    ensures forall j :: 0 <= j <= |ps| ==> Matching(ps, role) == Matching(ps[..j], role) + Matching(ps[j..], role)
  {
    MatchingMembers(ps, role);
    MatchingSplits(ps, role);
  }

  /** The single-player query answers the first element of the list query, or nothing when that list is empty. */
  lemma {:induction false} FirstMatchingIsHead(ps: seq<LegacyPlayer>, role: RoleValue)
    ensures FirstMatching(ps, role) == (if Matching(ps, role) == [] then None else Some(Matching(ps, role)[0]))
  {
    if ps != [] && ps[0].role != role {
      FirstMatchingIsHead(ps[1..], role);
    }
  }

  /** The matches over the roster are the matches before any split point of the key order, then those after it. */
  lemma MatchesSplit(players: map<string, LegacyPlayer>, order: seq<string>, role: RoleValue)
    requires forall k :: k in order ==> k in players
    ensures forall j :: 0 <= j <= |order| ==>
      Matching(ValuesInOrder(players, order), role) == Matching(ValuesInOrder(players, order[..j]), role) + Matching(ValuesInOrder(players, order[j..]), role)
  {
    forall j | 0 <= j <= |order|
      ensures Matching(ValuesInOrder(players, order), role) == Matching(ValuesInOrder(players, order[..j]), role) + Matching(ValuesInOrder(players, order[j..]), role)
    {
      ValuesInOrderSplit(players, order, j);
      MatchingAppend(ValuesInOrder(players, order[..j]), ValuesInOrder(players, order[j..]), role);
    }
  }

  /** Over the roster the matches are exactly the stored players holding the role. */
  lemma MatchesOverKeys(players: map<string, LegacyPlayer>, order: seq<string>, role: RoleValue)
    requires forall k :: k in players <==> k in order
    ensures var r := Matching(ValuesInOrder(players, order), role);
      && (forall i :: 0 <= i < |r| ==> r[i] in players.Values && r[i].role == role)
      && (forall k :: k in players && players[k].role == role ==> players[k] in r)
  {
    var ps := ValuesInOrder(players, order);
    MatchingFacts(ps, role);
    forall k | k in players ensures players[k] in ps {
      assert ps[IndexOf(order, k)] == players[k];
    }
    var r := Matching(ps, role);
    forall i | 0 <= i < |r| ensures r[i] in players.Values {
      var j :| 0 <= j < |ps| && ps[j] == r[i];
      assert order[j] in players && ps[j] == players[order[j]];
    }
  }

  /** Nobody in the listed values holds the role exactly when nobody in the roster does. */
  lemma NoHolderOverKeys(players: map<string, LegacyPlayer>, order: seq<string>, role: RoleValue)
    requires forall k :: k in players <==> k in order
    ensures var ps := ValuesInOrder(players, order);
      (forall j :: 0 <= j < |ps| ==> ps[j].role != role) <==> (forall k :: k in players ==> players[k].role != role)
  {
    var ps := ValuesInOrder(players, order);
    if forall j :: 0 <= j < |ps| ==> ps[j].role != role {
      forall k | k in players ensures players[k].role != role {
        assert ps[IndexOf(order, k)] == players[k];
      }
    }
  }

  /** Over the roster the single-player query answers the holder under the earliest key, or nothing when no one holds the role. */
  lemma FirstMatchingOverKeys(players: map<string, LegacyPlayer>, order: seq<string>, role: RoleValue)
    requires forall k :: k in players <==> k in order
    ensures FirstMatching(ValuesInOrder(players, order), role).None? <==> forall k :: k in players ==> players[k].role != role
    ensures FirstMatching(ValuesInOrder(players, order), role).Some? ==>
      exists j :: (0 <= j < |order| && players[order[j]] == FirstMatching(ValuesInOrder(players, order), role).value
        && players[order[j]].role == role && forall i :: 0 <= i < j ==> players[order[i]].role != role)
  {
    var ps := ValuesInOrder(players, order);
    var r := FirstMatching(ps, role);
    NoHolderOverKeys(players, order, role);
    if r.Some? {
      var j :| 0 <= j < |ps| && ps[j] == r.value && ps[j].role == role && forall i :: 0 <= i < j ==> ps[i].role != role;
      assert players[order[j]] == r.value;
      forall i | 0 <= i < j ensures players[order[i]].role != role {
        assert ps[i] == players[order[i]];
      }
      assert 0 <= j < |order| && players[order[j]] == r.value && players[order[j]].role == role
        && forall i :: 0 <= i < j ==> players[order[i]].role != role;
    }
  }

  /** `pending_deaths[-1] if pending_deaths else None` */
  function Last<T>(s: seq<T>): Option<T>
  {
    if s == [] then None else Some(s[|s| - 1])
  }

  /** The last entry is the one appended most recently, and there is none only for an empty list. */
  lemma LastOfAppend<T>(s: seq<T>, x: T)
    ensures Last(s + [x]) == Some(x)
    ensures Last(s).None? <==> s == []
    ensures s != [] ==> Last(s) == Some(s[|s| - 1]) && Last(s[..|s| - 1] + [s[|s| - 1]]) == Last(s)
  {
  }

  class LegacyGame {
    var players: map<string, LegacyPlayer>
    /** The roster's keys in insertion order. */
    var order: seq<string>
    /** Whatever was passed in, oldest first; duplicates are kept. */
    var pendingDeaths: seq<LegacyPlayer>
    /** Declared empty and never written. */
    var nightActions: map<string, string>

    ghost predicate Valid()
      reads this`players, this`order
    {
      Distinct(order) && forall k :: k in players <==> k in order
    }

    constructor ()
      ensures Valid() && players == map[] && order == [] && pendingDeaths == [] && nightActions == map[]
    {
      players, order, pendingDeaths, nightActions := map[], [], [], map[];
    }

    /** `add_player`: a fresh player without a role is stored under its sid, replacing any earlier one. */
    method AddPlayer(name: string, sid: string) returns (player: LegacyPlayer)
      requires Valid()
      modifies this`players, this`order
      ensures Valid()
      ensures fresh(player) && player.name == name && player.sid == sid && player.role == NoRole
      ensures players == old(players)[sid := player]
      ensures order == AppendIfAbsent(old(order), sid)
    {
      player := new LegacyPlayer(name, sid, NoRole);
      players := players[sid := player];
      order := AppendIfAbsent(order, sid);
    }

    /**
     * `get_players_by_role`, over the roster in insertion order: the matches among the keys before
     * any split point come before the matches among the keys after it.
     */
    function PlayersByRole(role: RoleValue): (r: seq<LegacyPlayer>)
      reads this`players, this`order, players.Values
      requires Valid()
      ensures forall i :: 0 <= i < |r| ==> r[i] in players.Values && r[i].role == role
      ensures forall k :: k in players && players[k].role == role ==> players[k] in r
      ensures forall j :: 0 <= j <= |order| ==>
        r == Matching(ValuesInOrder(players, order[..j]), role) + Matching(ValuesInOrder(players, order[j..]), role)
    {
      MatchesSplit(players, order, role);
      MatchesOverKeys(players, order, role);
      Matching(ValuesInOrder(players, order), role)
    }

    /** `get_player_by_role`: the first player in insertion order holding the role. */
    function PlayerByRole(role: RoleValue): (r: Option<LegacyPlayer>)
      reads this`players, this`order, players.Values
      requires Valid()
      ensures r == (if PlayersByRole(role) == [] then None else Some(PlayersByRole(role)[0]))
      ensures r.None? <==> forall k :: k in players ==> players[k].role != role
      ensures r.Some? ==> exists j :: (0 <= j < |order| && players[order[j]] == r.value && r.value.role == role
        && forall i :: 0 <= i < j ==> players[order[i]].role != role)
    {
      var ps := ValuesInOrder(players, order);
      FirstMatchingIsHead(ps, role);
      FirstMatchingOverKeys(players, order, role);
      FirstMatching(ps, role)
    }

    /** `add_pending_death`: a plain append. */
    method AddPendingDeath(player: LegacyPlayer)
      modifies this`pendingDeaths
      ensures pendingDeaths == old(pendingDeaths) + [player]
      ensures LastPendingDeath() == Some(player)
    {
      pendingDeaths := pendingDeaths + [player];
      LastOfAppend(old(pendingDeaths), player);
    }

    /** `get_last_pending_death` */
    function LastPendingDeath(): Option<LegacyPlayer>
      reads this`pendingDeaths
    {
      Last(pendingDeaths)
    }
  }
}
