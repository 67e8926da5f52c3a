/** The alternative death engine (core/death_manager.py). */
module Deaths {
  import opened Wrappers
  import opened Seqs
  import opened Players
  import opened GameCore

  /** What `kill_player` reads and writes: the roster, the two team counters and the list of the dead. */
  datatype Ledger = Ledger(players: map<string, Player>, werewolves: int, villagers: int, queued: seq<Player>)

  /** `kill_player`: an unknown sid changes nothing. */
  function Kill(l: Ledger, sid: string): (r: Ledger)
    ensures r.players.Keys == l.players.Keys
  {
    if sid !in l.players then l
    else
      var dead := l.players[sid].(isAlive := false);
      var counts := CountsAfterDeath(l.players[sid], l.werewolves, l.villagers);
      Ledger(l.players[sid := dead], counts.0, counts.1, l.queued + [dead])
  }

  /** `kill_player` on each sid of `sids`, in order. */
  function KillAll(l: Ledger, sids: seq<string>): (r: Ledger)
    ensures r.players.Keys == l.players.Keys
    decreases |sids|
  {
    if sids == [] then l else KillAll(Kill(l, sids[0]), sids[1..])
  }

  /**
   * A known player dies, exactly one counter drops (the werewolf count for a Werewolf, the villager
   * count for anyone else), the dead player is logged, and nobody else changes.
   */
  lemma KillEffect(l: Ledger, sid: string)
    ensures sid !in l.players ==> Kill(l, sid) == l
    ensures sid in l.players ==>
      var r := Kill(l, sid);
      && r.players[sid] == l.players[sid].(isAlive := false)
      && (forall k :: k in l.players && k != sid ==> r.players[k] == l.players[k])
      && (IsWerewolf(l.players[sid]) ==> r.werewolves == l.werewolves - 1 && r.villagers == l.villagers)
      && (!IsWerewolf(l.players[sid]) ==> r.werewolves == l.werewolves && r.villagers == l.villagers - 1)
      && r.queued == l.queued + [r.players[sid]]
  {
  }

  /**
   * Killing known sids one after another lowers the two counters together by one per kill, logs
   * one entry per kill in order, and leaves every killed player dead.
   */
  lemma {:induction false} KillAllEffect(l: Ledger, sids: seq<string>)
    requires forall s :: s in sids ==> s in l.players
    ensures KillAll(l, sids).werewolves + KillAll(l, sids).villagers == l.werewolves + l.villagers - |sids|
    ensures |KillAll(l, sids).queued| == |l.queued| + |sids| && KillAll(l, sids).queued[..|l.queued|] == l.queued
    ensures forall s :: s in sids ==> !KillAll(l, sids).players[s].isAlive
    ensures forall s :: s in l.players && s !in sids ==> KillAll(l, sids).players[s] == l.players[s]
    decreases |sids|
  {
    if sids != [] {
      var k := Kill(l, sids[0]);
      KillEffect(l, sids[0]);
      assert forall s :: s in sids[1..] ==> s in sids;
      KillAllEffect(k, sids[1..]);
      var r := KillAll(k, sids[1..]);
      assert r.queued[..|l.queued|] == k.queued[..|k.queued|][..|l.queued|];
      forall s | s in sids ensures !r.players[s].isAlive {
        if s !in sids[1..] {
          assert s == sids[0];
        }
      }
    }
  }

  /** A re-kill of a dead player still lowers a counter: `kill_player` does not check liveness. */
  lemma KillIgnoresLiveness(l: Ledger, sid: string)
    requires sid in l.players
    ensures var r := Kill(Kill(l, sid), sid);
      r.werewolves + r.villagers == l.werewolves + l.villagers - 2 && |r.queued| == |l.queued| + 2
  {
  }

  class DeathManager {
    const game: Game
    /** Sids only. */
    var pendingDeaths: seq<string>
    var awaitingSpecialPower: bool
    /** The Player objects `kill_player` appends, as they were right after dying. */
    var queudDeaths: seq<Player>

    ghost function Snapshot(): Ledger
      reads this`queudDeaths, game`players, game`werewolvesAlive, game`villagersAlive
    {
      Ledger(game.players, game.werewolvesAlive, game.villagersAlive, queudDeaths)
    }

    ghost predicate Valid()
      reads this`pendingDeaths, game`players, game`order, game`lovers, game`pendingDeaths, game`playerVotesCount
    {
      game.Valid() && Distinct(pendingDeaths)
    }

    constructor (g: Game)
      requires g.Valid()
      ensures Valid() && game == g
      ensures pendingDeaths == [] && !awaitingSpecialPower && queudDeaths == []
    {
      game := g;
      pendingDeaths, awaitingSpecialPower, queudDeaths := [], false, [];
    }

    method KillPlayer(playerSid: string)
      requires Valid()
      modifies this`queudDeaths, game`players, game`werewolvesAlive, game`villagersAlive
      ensures Valid() && Snapshot() == Kill(old(Snapshot()), playerSid)
    {
      var player := game.GetPlayer(playerSid);
      if player.None? {
        return;
      }
      RosterUpdate(game.players, game.order, playerSid, player.value.(isAlive := false));
      game.players := game.players[playerSid := player.value.(isAlive := false)];
      UpdateTeamCounts(player.value);
      queudDeaths := queudDeaths + [player.value.(isAlive := false)];
    }

    /**
     * Kills the target and then, when the target has a lover in the roster, the lover;
     * returns the sids it killed in that order.
     */
    method HandleKill(targetSid: string) returns (killedPlayers: seq<string>)
      requires Valid()
      modifies this`queudDeaths, game`players, game`werewolvesAlive, game`villagersAlive
      ensures Valid()
      ensures killedPlayers == Victims(old(game.players), targetSid)
      ensures Snapshot() == KillAll(old(Snapshot()), killedPlayers)
    {
      ghost var l0 := Snapshot();
      killedPlayers := [];
      var target := game.GetPlayer(targetSid);
      if target.Some? {
        KillPlayer(targetSid);
        killedPlayers := killedPlayers + [targetSid];
        ghost var l1 := Snapshot();
        assert l1.players.Keys == l0.players.Keys;
        assert KillAll(l0, killedPlayers) == KillAll(l1, []) == l1;
        if HasLover(target.value) {
          var lover := game.GetPlayer(target.value.loverSid.value);
          if lover.Some? {
            assert lover.value.sid == target.value.loverSid.value;
            KillPlayer(lover.value.sid);
            killedPlayers := killedPlayers + [lover.value.sid];
            assert KillAll(l0, killedPlayers) == KillAll(l1, [lover.value.sid]);
            assert KillAll(l1, [lover.value.sid]) == Kill(l1, lover.value.sid);
          }
        }
      }
    }

    /** `_update_team_counts` */
    method UpdateTeamCounts(player: Player)
      modifies game`werewolvesAlive, game`villagersAlive
      ensures (game.werewolvesAlive, game.villagersAlive) ==
        CountsAfterDeath(player, old(game.werewolvesAlive), old(game.villagersAlive))
    {
      if IsWerewolf(player) {
        game.werewolvesAlive := game.werewolvesAlive - 1;
      } else {
        game.villagersAlive := game.villagersAlive - 1;
      }
    }

    method AddPendingDeath(player: Player)
      requires Valid()
      modifies this`pendingDeaths
      ensures Valid() && pendingDeaths == AppendIfAbsent(old(pendingDeaths), player.sid)
    {
      if player.sid !in pendingDeaths {
        pendingDeaths := pendingDeaths + [player.sid];
      }
    }

    method RemovePendingDeath(player: Player)
      requires Valid()
      modifies this`pendingDeaths
      ensures Valid() && pendingDeaths == RemoveFirst(old(pendingDeaths), player.sid)
    {
      RemoveFirstOfDistinct(pendingDeaths, player.sid);
      if player.sid in pendingDeaths {
        pendingDeaths := RemoveFirst(pendingDeaths, player.sid);
      } else {
        RemoveFirstDeletesFirstOccurrence(pendingDeaths, player.sid);
      }
    }
  }
}
