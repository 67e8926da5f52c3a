/** The socket handlers of the main backend as state transitions (server/events.py). */
module Events {
  import opened Wrappers
  import opened Seqs
  import opened Players
  import opened GameCore
  import opened Segments
  import Shuffling

  // ---------------------------------------------------------------------------
  // Pending-death edits shared by the kill and heal handlers.
  // ---------------------------------------------------------------------------

  /** The order a kill queues its victims in: the known lover first, then the target. */
  function KillOrder(players: map<string, Player>, sid: string): (r: seq<string>)
  {
    var v := Victims(players, sid);
    if |v| == 2 then [v[1], v[0]] else v
  }

  /** The pending deaths after a kill on `sid`. */
  function WithKill(pending: seq<string>, players: map<string, Player>, sid: string): seq<string>
    requires sid in players
  {
    var p := players[sid];
    var withLover := if HasLover(p) && p.loverSid.value in players then AppendIfAbsent(pending, p.loverSid.value) else pending;
    AppendIfAbsent(withLover, sid)
  }

  /**
   * A kill appends its victims, lover first, each only if absent: nothing queued before moves or
   * disappears, the target is queued afterwards, and the list stays duplicate-free.
   */
  lemma WithKillFacts(pending: seq<string>, players: map<string, Player>, sid: string)
    requires sid in players
    ensures WithKill(pending, players, sid) == AppendAllIfAbsent(pending, KillOrder(players, sid))
    ensures forall s :: s in WithKill(pending, players, sid) <==> s in pending || s in Victims(players, sid)
    ensures Distinct(pending) ==> Distinct(WithKill(pending, players, sid))
    ensures |WithKill(pending, players, sid)| >= |pending| && WithKill(pending, players, sid)[..|pending|] == pending
  {
    var v := KillOrder(players, sid);
    var p := players[sid];
    if HasLover(p) && p.loverSid.value in players {
      assert v == [p.loverSid.value, sid];
      assert v[1..] == [sid] && v[1..][1..] == [];
      var s1 := AppendIfAbsent(pending, p.loverSid.value);
      assert AppendAllIfAbsent(pending, v) == AppendAllIfAbsent(s1, [sid]);
      assert AppendAllIfAbsent(s1, [sid]) == AppendAllIfAbsent(AppendIfAbsent(s1, sid), []);
    } else {
      assert v == [sid] && v[1..] == [];
      assert AppendAllIfAbsent(pending, v) == AppendAllIfAbsent(AppendIfAbsent(pending, sid), []);
    }
  }

  /**
   * The intended heal (the mock path, lines 76-84): the last queued victim's known lover leaves
   * the pending deaths, then the victim does. `None` when there is no victim to heal.
   */
  function Heal(pending: seq<string>, players: map<string, Player>): Option<seq<string>>
  {
    if pending == [] || pending[|pending| - 1] !in players then None
    else
      var last := pending[|pending| - 1];
      var p := players[last];
      var withoutLover := if HasLover(p) && p.loverSid.value in players then RemoveFirst(pending, p.loverSid.value) else pending;
      Some(RemoveFirst(withoutLover, last))
  }

  /**
   * `handle_witch_heal_victim` as written: the lover's sid, a string, is passed to
   * `remove_pending_death`, which reads `.sid` from it and raises, so any bonded victim makes the
   * handler fail before anything is removed.
   */
  function HealAsWritten(pending: seq<string>, players: map<string, Player>): Option<seq<string>>
  {
    if pending == [] || pending[|pending| - 1] !in players then None
    else
      var last := pending[|pending| - 1];
      if HasLover(players[last]) then None
      else Some(RemoveFirst(pending, last))
  }

  /** On a duplicate-free list the heal removes exactly the last victim and that victim's known lover. */
  lemma HealRemovesPair(pending: seq<string>, players: map<string, Player>)
    requires Distinct(pending) && pending != [] && pending[|pending| - 1] in players
    ensures Heal(pending, players).Some?
    ensures var last := pending[|pending| - 1]; var p := players[last]; var r := Heal(pending, players).value;
      && Distinct(r)
      && (forall s :: s in r <==> s in pending && s != last && !(HasLover(p) && p.loverSid.value in players && s == p.loverSid.value))
  {
    var last := pending[|pending| - 1];
    var p := players[last];
    if HasLover(p) && p.loverSid.value in players {
      RemoveFirstOfDistinct(pending, p.loverSid.value);
      RemoveFirstOfDistinct(RemoveFirst(pending, p.loverSid.value), last);
    } else {
      RemoveFirstOfDistinct(pending, last);
    }
  }

  /** Where the victim has no lover, the handler as written and the intended heal agree. */
  lemma HealAsWrittenWithoutLover(pending: seq<string>, players: map<string, Player>)
    requires pending != [] && pending[|pending| - 1] in players && !HasLover(players[pending[|pending| - 1]])
    ensures HealAsWritten(pending, players) == Heal(pending, players)
  {
  }

  /**
   * The discrepancy: a bonded last victim (lover known and queued) is healed by neither the
   * victim nor the lover leaving the list, while the intended heal removes both.
   */
  lemma HealAsWrittenKeepsLovers(pending: seq<string>, players: map<string, Player>)
    requires Distinct(pending) && pending != [] && pending[|pending| - 1] in players
    requires var p := players[pending[|pending| - 1]]; HasLover(p) && p.loverSid.value in players
    ensures HealAsWritten(pending, players) == None
    ensures var last := pending[|pending| - 1]; last !in Heal(pending, players).value
    ensures var lover := players[pending[|pending| - 1]].loverSid.value; lover !in Heal(pending, players).value
  {
    HealRemovesPair(pending, players);
  }

  /** `player1` bonded to `player2` with the pending list [player2, player1]. */
  lemma HealAsWrittenExample()
    ensures var a := NewPlayer("A", "a").(loverSid := Some("b"));
      var b := NewPlayer("B", "b").(loverSid := Some("a"));
      var players := map["a" := a, "b" := b];
      HealAsWritten(["b", "a"], players) == None && Heal(["b", "a"], players) == Some([])
  {
    var a := NewPlayer("A", "a").(loverSid := Some("b"));
    var b := NewPlayer("B", "b").(loverSid := Some("a"));
    var players := map["a" := a, "b" := b];
    assert HasLover(a);
    assert RemoveFirst(["b", "a"], "b") == ["a"];
    assert RemoveFirst(["a"], "a") == [];
  }

  // ---------------------------------------------------------------------------
  // Counters of the handler object.
  // ---------------------------------------------------------------------------

  /** One `lover_alert_closed`: the new counter and whether the segment advances. */
  function LoverAlert(closed: int): (int, bool)
  {
    (closed + 1, closed + 1 == 2)
  }

  /** How many of `n` successive alerts advance, from counter `closed`. */
  function AlertAdvances(closed: int, n: nat): nat
    decreases n
  {
    if n == 0 then 0 else (if LoverAlert(closed).1 then 1 else 0) + AlertAdvances(LoverAlert(closed).0, n - 1)
  }

  /** The counter is never reset, so from a fresh handler object only the second alert ever advances. */
  lemma {:induction false} LoverBarrierFiresOnce(closed: int, n: nat)
    requires 0 <= closed
    ensures AlertAdvances(closed, n) == if closed <= 1 && closed + n >= 2 then 1 else 0
    decreases n
  {
    if n > 0 {
      LoverBarrierFiresOnce(closed + 1, n - 1);
    }
  }

  /** One `vote_kill` on the counters: lazy alive count, then close when the votes reach it. */
  function VoteCounters(killVotes: int, alive: int, living: int): (r: (int, int, bool))
  {
    var a := if alive == 0 then living else alive;
    var k := killVotes + 1;
    if k == a then (0, 0, true) else (k, a, false)
  }

  /** Which of `m` successive votes close the vote, from counters `(killVotes, alive)`. */
  function Closings(killVotes: int, alive: int, living: int, m: nat): seq<bool>
    decreases m
  {
    if m == 0 then []
    else
      var r := VoteCounters(killVotes, alive, living);
      [r.2] + Closings(r.0, r.1, living, m - 1)
  }

  /**
   * With `living` players alive throughout, the vote closes on exactly the `living`-th vote
   * counted from reset counters, and both counters are back to 0 afterwards.
   */
  lemma {:induction false} VoteClosesAtAliveCount(killVotes: int, alive: int, living: int, m: nat)
    requires living >= 1 && m <= living - killVotes
    requires (killVotes == 0 && alive == 0) || (0 < killVotes < living && alive == living)
    ensures Closings(killVotes, alive, living, m) == seq(m, i => i == living - 1 - killVotes)
    decreases m
  {
    if m > 0 {
      var r := VoteCounters(killVotes, alive, living);
      if killVotes + 1 == living {
        assert m == 1;
      } else {
        VoteClosesAtAliveCount(r.0, r.1, living, m - 1);
      }
      var s := Closings(killVotes, alive, living, m);
      assert s == [r.2] + Closings(r.0, r.1, living, m - 1);
      forall i | 0 <= i < m ensures s[i] == (i == living - 1 - killVotes) {
        if i > 0 { assert s[i] == Closings(r.0, r.1, living, m - 1)[i - 1]; }
      }
    }
  }

  // ---------------------------------------------------------------------------
  // Kill and heal steps on the game, shared with the other handler set.
  // ---------------------------------------------------------------------------

  /** The lover of `target` (when bonded and known) and then `target` join the pending deaths. */
  method QueueKill(game: Game, target: Player)
    requires game.Valid() && target.sid in game.players && game.players[target.sid] == target
    modifies game`pendingDeaths
    ensures game.Valid() && game.pendingDeaths == WithKill(old(game.pendingDeaths), game.players, target.sid)
  {
    if HasLover(target) {
      var lover := game.GetPlayer(target.loverSid.value);
      if lover.Some? {
        game.AddPendingDeath(lover.value);
      }
    }
    game.AddPendingDeath(target);
  }

  /** The heal on a non-empty list: drop the last victim's known lover, then the victim, and spend the potion. */
  method HealLastVictim(game: Game) returns (healed: bool)
    requires game.Valid() && game.pendingDeaths != []
    modifies game`pendingDeaths, game`witchHealAvailable
    ensures game.Valid()
    ensures healed == Heal(old(game.pendingDeaths), game.players).Some?
    ensures healed ==> game.pendingDeaths == Heal(old(game.pendingDeaths), game.players).value && !game.witchHealAvailable
    ensures !healed ==> game.pendingDeaths == old(game.pendingDeaths) && game.witchHealAvailable == old(game.witchHealAvailable)
  {
    var lastVictim := game.GetPlayer(game.pendingDeaths[|game.pendingDeaths| - 1]);
    if lastVictim.None? {
      return false;
    }
    if HasLover(lastVictim.value) {
      var lastVictimLover := game.GetPlayer(lastVictim.value.loverSid.value);
      if lastVictimLover.Some? {
        game.RemovePendingDeath(lastVictimLover.value);
      }
    }
    game.RemovePendingDeath(lastVictim.value);
    game.witchHealAvailable := false;
    return true;
  }

  /** The game side of a kill: a known target is queued with its lover; the manager's view is untouched. */
  method QueueTarget(game: Game, segments: SegmentManager, targetSid: string) returns (found: bool)
    requires segments.game == game && segments.Valid()
    modifies game`pendingDeaths
    ensures segments.Valid() && segments.Snapshot() == old(segments.Snapshot())
    ensures found == (targetSid in game.players)
    ensures found ==> game.pendingDeaths == WithKill(old(game.pendingDeaths), game.players, targetSid)
    ensures !found ==> game.pendingDeaths == old(game.pendingDeaths)
  {
    var target := game.GetPlayer(targetSid);
    found := target.Some?;
    if found {
      QueueKill(game, target.value);
    }
  }

  /** The game side of a heal: an empty list fails, as does an unknown last victim. */
  method HealPending(game: Game, segments: SegmentManager) returns (o: Outcome<string>)
    requires segments.game == game && segments.Valid()
    modifies game`pendingDeaths, game`witchHealAvailable
    ensures segments.Valid() && segments.Snapshot() == old(segments.Snapshot())
    ensures var h := Heal(old(game.pendingDeaths), game.players);
      && (o == Pass <==> h.Some?)
      && (h.Some? ==> game.pendingDeaths == h.value && !game.witchHealAvailable)
      && (h.None? ==> game.pendingDeaths == old(game.pendingDeaths) && game.witchHealAvailable == old(game.witchHealAvailable))
  {
    if game.pendingDeaths == [] {
      return Fail("list index out of range");
    }
    var healed := HealLastVictim(game);
    o := if healed then Pass else Fail("no such player");
  }

  /**
   * The game side of `witch_heal_victim` as written: an empty list, an unknown last victim and a
   * bonded last victim (whose lover's sid, a string, reaches `remove_pending_death`) all raise
   * before any change; otherwise the victim leaves the list and the potion is spent.
   */
  method HealPendingAsWritten(game: Game, segments: SegmentManager) returns (o: Outcome<string>)
    requires segments.game == game && segments.Valid()
    modifies game`pendingDeaths, game`witchHealAvailable
    ensures segments.Valid() && segments.Snapshot() == old(segments.Snapshot())
    ensures var h := HealAsWritten(old(game.pendingDeaths), game.players);
      && (o == Pass <==> h.Some?)
      && (h.Some? ==> game.pendingDeaths == h.value && !game.witchHealAvailable)
      && (h.None? ==> game.pendingDeaths == old(game.pendingDeaths) && game.witchHealAvailable == old(game.witchHealAvailable))
  {
    if game.pendingDeaths == [] {
      return Fail("list index out of range");
    }
    var lastVictim := game.GetPlayer(game.pendingDeaths[|game.pendingDeaths| - 1]);
    if lastVictim.None? {
      return Fail("'NoneType' object has no attribute 'lover_sid'");
    }
    if HasLover(lastVictim.value) {
      return Fail("'str' object has no attribute 'sid'");
    }
    game.RemovePendingDeath(lastVictim.value);
    game.witchHealAvailable := false;
    return Pass;
  }

  /**
   * `players` is `joined` with a shuffle of `BaseRoles(len(joined))` dealt along `order`: the i-th
   * sid keeps its record but for the i-th role of the shuffle.
   */
  predicate DealtAlong(players: map<string, Player>, joined: map<string, Player>, order: seq<string>, dealt: seq<Roles.PlayerRole>)
  {
    && |dealt| >= |order|
    && forall i {:trigger dealt[i]} :: 0 <= i < |order| ==>
         order[i] in joined && order[i] in players && players[order[i]] == joined[order[i]].(role := Some(dealt[i]))
  }

  /**
   * What a deal leaves of each joined player: the same record but for a role drawn from
   * `BaseRoles`, whose shuffle keeps its multiset; so the deal itself hands out no werewolf card
   * (only the name override for "reda", left out of this model, does).
   */
  lemma DealtAlongFacts(players: map<string, Player>, joined: map<string, Player>, order: seq<string>, draws: seq<nat>)
    requires RosterValid(joined, order) && players.Keys == joined.Keys
    requires DealtAlong(players, joined, order, Shuffling.Shuffle(BaseRoles(|joined|), draws))
    ensures multiset(Shuffling.Shuffle(BaseRoles(|joined|), draws)) == multiset(BaseRoles(|joined|))
    ensures forall k :: k in players ==>
      && players[k] == joined[k].(role := players[k].role) && players[k].sid == k
      && players[k].role.Some? && players[k].role.value in multiset(BaseRoles(|joined|))
      && players[k].role != Some(Roles.Werewolf)
  {
    var dealt := Shuffling.Shuffle(BaseRoles(|joined|), draws);
    Shuffling.ShufflePermutes(BaseRoles(|joined|), draws);
    forall k | k in players
      ensures && players[k] == joined[k].(role := players[k].role) && players[k].sid == k
        && players[k].role.Some? && players[k].role.value in multiset(BaseRoles(|joined|))
        && players[k].role != Some(Roles.Werewolf)
    {
      var i := IndexOf(order, k);
      assert dealt[i] in multiset(dealt);
      assert players[k] == joined[k].(role := Some(dealt[i]));
    }
  }

  /**
   * Deal the roles (`draws` stands for the shuffle) and start the first night; `joined` names the
   * roster being dealt, as the caller states it.
   */
  method DealAndStart(game: Game, segments: SegmentManager, draws: seq<nat>, ghost joined: map<string, Player>)
    requires segments.game == game && segments.Valid() && game.players == joined
    modifies game`players, game`werewolvesAlive, game`villagersAlive, segments, game`loversFlag, game`loverIsHunter
    ensures segments.Valid()
    ensures game.players.Keys == old(game.players).Keys
    ensures DealtAlong(game.players, joined, game.order, Shuffling.Shuffle(BaseRoles(|joined|), draws))
    ensures game.werewolvesAlive == 1 && game.villagersAlive == |game.players| - 1
    ensures segments.Snapshot() == NightStarted(Dealt(old(segments.Snapshot()), game.players))
  {
    game.AssignRoles(draws);
    assert segments.Snapshot() == Dealt(old(segments.Snapshot()), game.players);
    segments.StartNight();
  }

  /** The closing test of both join handlers: six or more joined players are dealt and start a night, fewer change nothing. */
  method StartIfFull(game: Game, segments: SegmentManager, draws: seq<nat>, ghost joined: map<string, Player>)
    requires segments.game == game && segments.Valid() && game.players == joined
    modifies game`players, game`werewolvesAlive, game`villagersAlive, segments, game`loversFlag, game`loverIsHunter
    ensures segments.Valid()
    ensures game.players.Keys == joined.Keys
    ensures |joined| < 6 ==> game.players == joined && segments.Snapshot() == old(segments.Snapshot())
    ensures |joined| >= 6 ==>
      && DealtAlong(game.players, joined, game.order, Shuffling.Shuffle(BaseRoles(|joined|), draws))
      && game.werewolvesAlive == 1 && game.villagersAlive == |game.players| - 1
      && segments.Snapshot() == NightStarted(Dealt(old(segments.Snapshot()), game.players))
  {
    if |game.players| >= 6 {
      DealAndStart(game, segments, draws, joined);
    }
  }

  /** One `game.add_player`, seen from the manager: only its roster changes. */
  method JoinGame(game: Game, segments: SegmentManager, name: string, sid: string)
    requires segments.game == game && segments.Valid()
    modifies game`players, game`order
    ensures segments.Valid()
    ensures game.players == old(game.players)[sid := NewPlayer(name, sid)]
    ensures segments.Snapshot() == WithPlayers(old(segments.Snapshot()), game.players)
  {
    var _ := game.AddPlayer(name, sid);
  }

  /** The players `handle_add_mock_players` adds, one `add_player` each, later entries winning. */
  function WithMocks(players: map<string, Player>, mocks: seq<(string, string)>): (r: map<string, Player>)
    ensures r.Keys == players.Keys + set m | m in mocks :: m.1
    decreases |mocks|
  {
    if mocks == [] then players
    else
      var last := mocks[|mocks| - 1];
      WithMocks(players, mocks[..|mocks| - 1])[last.1 := NewPlayer(last.0, last.1)]
  }

  /** Every listed mock player joins, in order. */
  method JoinAll(game: Game, mocks: seq<(string, string)>)
    requires game.Valid()
    modifies game`players, game`order
    ensures game.Valid() && game.players == WithMocks(old(game.players), mocks)
  {
    var i := 0;
    while i < |mocks|
      invariant 0 <= i <= |mocks| && game.Valid()
      invariant game.players == WithMocks(old(game.players), mocks[..i])
    {
      assert mocks[..i + 1][..i] == mocks[..i];
      var _ := game.AddPlayer(mocks[i].0, mocks[i].1);
      i := i + 1;
    }
    assert mocks[..|mocks|] == mocks;
  }

  /** The manager's view once the game's roster has changed under it. */
  function WithPlayers(w: World, players: map<string, Player>): World
  {
    w.(roster := w.roster.(players := players))
  }

  /** The manager's view once the game's vote tally has changed under it. */
  function WithVotes(w: World, votes: Tally): World
  {
    w.(roster := w.roster.(votes := votes))
  }

  /** The manager's view once the roles are dealt: one werewolf, everyone else counted a villager. */
  function Dealt(w: World, players: map<string, Player>): World
  {
    w.(roster := w.roster.(players := players), werewolves := 1, villagers := |players| - 1)
  }

  // ---------------------------------------------------------------------------
  // The handler object.
  // ---------------------------------------------------------------------------

  class GameEvents {
    const game: Game
    const segments: SegmentManager
    var loverAlertsClosed: int
    var killVotesCount: int
    var alivePlayersCount: int
    /** Controller sid to the sids of the mock players it drives. */
    var mockControllers: map<string, seq<string>>

    ghost predicate Valid()
      reads segments`currentSegment, segments`deathQueue, game`players, game`order, game`lovers,
        game`pendingDeaths, game`playerVotesCount
    {
      segments.game == game && segments.Valid()
    }

    constructor (g: Game, s: SegmentManager)
      requires s.game == g && s.Valid()
      ensures Valid() && game == g && segments == s
      ensures loverAlertsClosed == 0 && killVotesCount == 0 && alivePlayersCount == 0 && mockControllers == map[]
    {
      game, segments := g, s;
      loverAlertsClosed, killVotesCount, alivePlayersCount, mockControllers := 0, 0, 0, map[];
    }

    /** `werewolf_kill`: an unknown target fails before any change; otherwise queue the kill and advance once. */
    method WerewolfKill(targetSid: string) returns (o: Outcome<string>)
      requires Valid()
      modifies game`pendingDeaths, segments, game`loversFlag, game`loverIsHunter
      ensures Valid()
      ensures targetSid !in game.players ==>
        o.Fail? && game.pendingDeaths == old(game.pendingDeaths) && segments.Snapshot() == old(segments.Snapshot())
      ensures targetSid in game.players ==>
        && o == Pass
        && game.pendingDeaths == WithKill(old(game.pendingDeaths), game.players, targetSid)
        && segments.Snapshot() == Advance(old(segments.Snapshot()))
    {
      var found := QueueTarget(game, segments, targetSid);
      if !found {
        return Fail("Invalid target player");
      }
      segments.AdvanceSegment();
      return Pass;
    }

    /**
     * `witch_heal_victim` as written: only an unbonded last victim is healed, spending the potion;
     * a failure leaves the list and the potion as they were; the segment advances either way.
     */
    method WitchHealVictim() returns (o: Outcome<string>)
      requires Valid()
      modifies game`pendingDeaths, game`witchHealAvailable, segments, game`loversFlag, game`loverIsHunter
      ensures Valid()
      ensures var h := HealAsWritten(old(game.pendingDeaths), game.players);
        && (o == Pass <==> h.Some?)
        && (h.Some? ==> game.pendingDeaths == h.value && !game.witchHealAvailable)
        && (h.None? ==> game.pendingDeaths == old(game.pendingDeaths) && game.witchHealAvailable == old(game.witchHealAvailable))
      ensures segments.Snapshot() == Advance(old(segments.Snapshot()))
    {
      o := HealPendingAsWritten(game, segments);
      segments.AdvanceSegment();
    }

    /** `witch_kill_victim`: a known target is queued with its lover and spends the potion; the segment advances either way. */
    method WitchKillVictim(targetSid: string) returns (o: Outcome<string>)
      requires Valid()
      modifies game`pendingDeaths, game`witchKillAvailable, segments, game`loversFlag, game`loverIsHunter
      ensures Valid()
      ensures targetSid !in game.players ==>
        o.Fail? && game.pendingDeaths == old(game.pendingDeaths) && game.witchKillAvailable == old(game.witchKillAvailable)
      ensures targetSid in game.players ==>
        o == Pass && game.pendingDeaths == WithKill(old(game.pendingDeaths), game.players, targetSid) && !game.witchKillAvailable
      ensures segments.Snapshot() == Advance(old(segments.Snapshot()))
    {
      var found := QueueTarget(game, segments, targetSid);
      if found {
        game.witchKillAvailable := false;
        o := Pass;
      } else {
        o := Fail("no such player");
      }
      segments.AdvanceSegment();
    }

    /** `witch_no_heal` and `witch_no_kill` */
    method WitchPass()
      requires Valid()
      modifies segments, game`loversFlag, game`loverIsHunter
      ensures Valid() && segments.Snapshot() == Advance(old(segments.Snapshot()))
    {
      segments.AdvanceSegment();
    }

    /** `cupidon_selection_complete`: the test-only bonding it calls is omitted, so the segment just advances. */
    method CupidonSelection()
      requires Valid()
      modifies segments, game`loversFlag, game`loverIsHunter
      ensures Valid() && segments.Snapshot() == Advance(old(segments.Snapshot()))
    {
      segments.AdvanceSegment();
    }

    /** `lover_alert_closed`: count the alert; only the second one advances. */
    method LoverAlertClosed()
      requires Valid()
      modifies this`loverAlertsClosed, segments, game`loversFlag, game`loverIsHunter
      ensures Valid()
      ensures (loverAlertsClosed, loverAlertsClosed == 2) == LoverAlert(old(loverAlertsClosed))
      ensures loverAlertsClosed == 2 ==> segments.Snapshot() == Advance(old(segments.Snapshot()))
      ensures loverAlertsClosed != 2 ==> segments.Snapshot() == old(segments.Snapshot())
    {
      loverAlertsClosed := loverAlertsClosed + 1;
      if loverAlertsClosed == 2 {
        segments.AdvanceSegment();
      }
    }

    method ResetCounters()
      modifies this`killVotesCount, this`alivePlayersCount
      ensures killVotesCount == 0 && alivePlayersCount == 0
    {
      killVotesCount := 0;
      alivePlayersCount := 0;
    }

    method SetAlivePlayersCount()
      modifies this`alivePlayersCount
      ensures alivePlayersCount == game.werewolvesAlive + game.villagersAlive
    {
      alivePlayersCount := game.werewolvesAlive + game.villagersAlive;
    }

    /** The counting half of `vote_kill`: record the vote and report whether it closes the vote. */
    method CountVote(playerSid: string) returns (closes: bool)
      requires Valid()
      modifies this`killVotesCount, this`alivePlayersCount, game`playerVotesCount
      ensures Valid()
      ensures game.playerVotesCount == RecordVote(old(game.playerVotesCount), playerSid)
      ensures (killVotesCount, alivePlayersCount, closes) ==
        VoteCounters(old(killVotesCount), old(alivePlayersCount), game.werewolvesAlive + game.villagersAlive)
      ensures segments.Snapshot() == WithVotes(old(segments.Snapshot()), game.playerVotesCount)
    {
      if alivePlayersCount == 0 {
        SetAlivePlayersCount();
      }
      killVotesCount := killVotesCount + 1;
      game.SetPlayerVote(playerSid);
      closes := killVotesCount == alivePlayersCount;
      if closes {
        ResetCounters();
      }
    }

    /**
     * `vote_kill`: record the vote; once the votes reach the alive count, reset both counters and
     * run the manager's game-over check (the vote count it calls first does not exist and is skipped).
     */
    method VoteKill(playerSid: string)
      requires Valid()
      modifies this`killVotesCount, this`alivePlayersCount, game`playerVotesCount, segments,
        game`loversFlag, game`loverIsHunter, game`winners
      ensures Valid()
      ensures game.playerVotesCount == RecordVote(old(game.playerVotesCount), playerSid)
      ensures var r := VoteCounters(old(killVotesCount), old(alivePlayersCount), old(game.werewolvesAlive + game.villagersAlive));
        && (killVotesCount, alivePlayersCount) == (r.0, r.1)
        && (r.2 ==> segments.Snapshot() == GameChecked(WithVotes(old(segments.Snapshot()), game.playerVotesCount)))
        && (!r.2 ==> segments.Snapshot() == WithVotes(old(segments.Snapshot()), game.playerVotesCount))
    {
      var closes := CountVote(playerSid);
      if closes {
        segments.CheckGameOver();
      }
    }

    /** `hunter_selection`: the shot player dies (the vote count it calls next does not exist and is skipped). */
    method HunterSelection(targetSid: string)
      requires Valid()
      modifies game`players, game`werewolvesAlive, game`villagersAlive
      ensures Valid()
      ensures targetSid !in old(game.players) ==>
        game.players == old(game.players) && game.werewolvesAlive == old(game.werewolvesAlive) && game.villagersAlive == old(game.villagersAlive)
      ensures targetSid in old(game.players) ==>
        && game.players == old(game.players)[targetSid := old(game.players)[targetSid].(isAlive := false)]
        && (game.werewolvesAlive, game.villagersAlive) == CountsAfterDeath(old(game.players)[targetSid], old(game.werewolvesAlive), old(game.villagersAlive))
    {
      game.KillPlayer(targetSid);
    }

    /**
     * `add_player`: a missing name fails before any change; otherwise the player joins, and once
     * the roster holds six or more the roles are dealt and a night starts.
     */
    method AddPlayer(name: Option<string>, sid: string, draws: seq<nat>) returns (o: Outcome<string>)
      requires Valid()
      modifies game`players, game`order, game`werewolvesAlive, game`villagersAlive, segments,
        game`loversFlag, game`loverIsHunter
      ensures Valid()
      ensures name.None? ==> o.Fail? && game.players == old(game.players) && segments.Snapshot() == old(segments.Snapshot())
      ensures name.Some? ==> o == Pass && game.players.Keys == old(game.players).Keys + {sid}
      ensures name.Some? && |game.players| < 6 ==>
        game.players == old(game.players)[sid := NewPlayer(name.value, sid)] &&
        segments.Snapshot() == WithPlayers(old(segments.Snapshot()), game.players)
      ensures name.Some? && |game.players| >= 6 ==>
        && game.werewolvesAlive == 1 && game.villagersAlive == |game.players| - 1
        && segments.Snapshot() == NightStarted(Dealt(old(segments.Snapshot()), game.players))
      ensures name.Some? && |game.players| >= 6 ==>
        DealtAlong(game.players, old(game.players)[sid := NewPlayer(name.value, sid)], game.order,
          Shuffling.Shuffle(BaseRoles(|old(game.players)[sid := NewPlayer(name.value, sid)]|), draws))
    {
      if name.None? {
        return Fail("Player name required");
      }
      JoinGame(game, segments, name.value, sid);
      ghost var joined := segments.Snapshot();
      StartIfFull(game, segments, draws, old(game.players)[sid := NewPlayer(name.value, sid)]);
      assert Dealt(joined, game.players) == Dealt(old(segments.Snapshot()), game.players);
      return Pass;
    }

    /**
     * `add_mock_players`: a missing controller fails before any change; otherwise the controller
     * takes the listed sids, every listed player joins in order, and six or more players start the game.
     */
    method AddMockPlayers(mocks: seq<(string, string)>, controllerSid: string, draws: seq<nat>) returns (o: Outcome<string>)
      requires Valid()
      modifies this`mockControllers, game`players, game`order, game`werewolvesAlive, game`villagersAlive, segments,
        game`loversFlag, game`loverIsHunter
      ensures Valid()
      ensures controllerSid == "" ==>
        o.Fail? && mockControllers == old(mockControllers) && game.players == old(game.players) && segments.Snapshot() == old(segments.Snapshot())
      ensures controllerSid != "" ==>
        && o == Pass
        && mockControllers == old(mockControllers)[controllerSid := seq(|mocks|, i requires 0 <= i < |mocks| => mocks[i].1)]
        && game.players.Keys == WithMocks(old(game.players), mocks).Keys
      ensures controllerSid != "" && |game.players| < 6 ==>
        game.players == WithMocks(old(game.players), mocks) && segments.Snapshot() == WithPlayers(old(segments.Snapshot()), game.players)
      ensures controllerSid != "" && |game.players| >= 6 ==>
        && game.werewolvesAlive == 1 && game.villagersAlive == |game.players| - 1
        && segments.Snapshot() == NightStarted(Dealt(old(segments.Snapshot()), game.players))
      ensures controllerSid != "" && |game.players| >= 6 ==>
        DealtAlong(game.players, WithMocks(old(game.players), mocks), game.order,
          Shuffling.Shuffle(BaseRoles(|WithMocks(old(game.players), mocks)|), draws))
    {
      if controllerSid == "" {
        return Fail("Controller SID required");
      }
      mockControllers := mockControllers[controllerSid := seq(|mocks|, i requires 0 <= i < |mocks| => mocks[i].1)];
      JoinAll(game, mocks);
      ghost var joined := segments.Snapshot();
      assert joined == WithPlayers(old(segments.Snapshot()), game.players);
      StartIfFull(game, segments, draws, WithMocks(old(game.players), mocks));
      assert Dealt(joined, game.players) == Dealt(old(segments.Snapshot()), game.players);
      return Pass;
    }

    /** The action half of `mock_player_action`; `false` when a heal finds no pending death. */
    method MockAction(action: string, choice: string) returns (proceeds: bool)
      requires Valid()
      modifies game`playerVotesCount, game`pendingDeaths, game`witchHealAvailable, game`witchKillAvailable
      ensures Valid()
      ensures proceeds <==> !(action == "witch_heal" && old(game.pendingDeaths) == [])
      ensures action == "vote" ==> game.playerVotesCount == RecordVote(old(game.playerVotesCount), choice)
      ensures action != "vote" ==> game.playerVotesCount == old(game.playerVotesCount)
      ensures segments.Snapshot() == WithVotes(old(segments.Snapshot()), game.playerVotesCount)
      ensures action == "werewolf_kill" && choice in game.players ==>
        game.pendingDeaths == WithKill(old(game.pendingDeaths), game.players, choice)
      ensures action == "witch_kill" && choice in game.players ==>
        game.pendingDeaths == WithKill(old(game.pendingDeaths), game.players, choice) && !game.witchKillAvailable
      ensures action == "witch_heal" && Heal(old(game.pendingDeaths), game.players).Some? ==>
        game.pendingDeaths == Heal(old(game.pendingDeaths), game.players).value && !game.witchHealAvailable
      ensures action == "witch_heal" && Heal(old(game.pendingDeaths), game.players).None? ==>
        game.pendingDeaths == old(game.pendingDeaths) && game.witchHealAvailable == old(game.witchHealAvailable)
      ensures action != "witch_heal" ==> game.witchHealAvailable == old(game.witchHealAvailable)
      ensures !(action == "witch_kill" && choice in game.players) ==> game.witchKillAvailable == old(game.witchKillAvailable)
      ensures (action != "werewolf_kill" && action != "witch_kill" && action != "witch_heal") || (action != "witch_heal" && choice !in game.players) ==>
        game.pendingDeaths == old(game.pendingDeaths)
    {
      proceeds := true;
      if action == "vote" {
        game.SetPlayerVote(choice);
      } else if action == "werewolf_kill" {
        var _ := QueueTarget(game, segments, choice);
      } else if action == "witch_heal" {
        if game.pendingDeaths == [] {
          return false;
        }
        var _ := HealPending(game, segments);
      } else if action == "witch_kill" {
        var found := QueueTarget(game, segments, choice);
        if found {
          game.witchKillAvailable := false;
        }
      }
    }

    /**
     * `mock_player_action`: an unknown controller, or a player it does not drive, fails before any
     * change; otherwise the action runs and the segment advances, except when a heal finds no
     * pending death, which fails before the advance.
     */
    method MockPlayerAction(playerId: string, action: string, choice: string, controllerSid: string) returns (o: Outcome<string>)
      requires Valid()
      modifies game`playerVotesCount, game`pendingDeaths, game`witchHealAvailable, game`witchKillAvailable,
        segments, game`loversFlag, game`loverIsHunter
      ensures Valid()
      ensures controllerSid !in mockControllers || playerId !in mockControllers[controllerSid] ==>
        && o.Fail?
        && game.playerVotesCount == old(game.playerVotesCount) && game.pendingDeaths == old(game.pendingDeaths)
        && game.witchHealAvailable == old(game.witchHealAvailable) && game.witchKillAvailable == old(game.witchKillAvailable)
        && segments.Snapshot() == old(segments.Snapshot())
      ensures controllerSid in mockControllers && playerId in mockControllers[controllerSid] ==>
        && (action == "vote" ==> game.playerVotesCount == RecordVote(old(game.playerVotesCount), choice))
        && (action != "vote" ==> game.playerVotesCount == old(game.playerVotesCount))
        && (action == "werewolf_kill" && choice in game.players ==>
              game.pendingDeaths == WithKill(old(game.pendingDeaths), game.players, choice))
        && (action == "witch_kill" && choice in game.players ==>
              game.pendingDeaths == WithKill(old(game.pendingDeaths), game.players, choice) && !game.witchKillAvailable)
        && (action == "witch_heal" && Heal(old(game.pendingDeaths), game.players).Some? ==>
              game.pendingDeaths == Heal(old(game.pendingDeaths), game.players).value && !game.witchHealAvailable)
        && (action == "witch_heal" && Heal(old(game.pendingDeaths), game.players).None? ==>
              game.pendingDeaths == old(game.pendingDeaths) && game.witchHealAvailable == old(game.witchHealAvailable))
        && (action != "witch_heal" ==> game.witchHealAvailable == old(game.witchHealAvailable))
        && (!(action == "witch_kill" && choice in game.players) ==> game.witchKillAvailable == old(game.witchKillAvailable))
        && (action == "witch_heal" && old(game.pendingDeaths) == [] ==>
              o.Fail? && segments.Snapshot() == old(segments.Snapshot()))
        && (!(action == "witch_heal" && old(game.pendingDeaths) == []) ==>
              o == Pass && segments.Snapshot() == Advance(WithVotes(old(segments.Snapshot()), game.playerVotesCount)))
    {
      if controllerSid !in mockControllers {
        return Fail("Invalid controller");
      }
      if playerId !in mockControllers[controllerSid] {
        return Fail("Invalid mock player");
      }
      var proceeds := MockAction(action, choice);
      if !proceeds {
        return Fail("list index out of range");
      }
      segments.AdvanceSegment();
      return Pass;
    }
  }
}
