/** The socket handlers of the temporary backend (loup-garou-backend-temp/server/events.py). */
module TempEvents {
  import opened Wrappers
  import opened Players
  import opened GameCore
  import opened Segments
  import opened Events

  /** How many mock players the join pads with: up to five players in all, counted after the join. */
  function PadCount(joined: nat): (r: nat)
    ensures joined < 5 ==> joined + r == 5
    ensures joined >= 5 ==> r == 0
  {
    if joined < 5 then 5 - joined else 0
  }

  /**
   * The sizes a run of joins passes through, starting from an empty roster, when every joiner is
   * new and no joiner takes a mock sid: the first join pads to five, the next reaches six.
   */
  function SizeAfterJoin(size: nat): nat
  {
    var joined := size + 1;
    joined + PadCount(joined)
  }

  /** From an empty room the second real player is the one that starts the game. */
  lemma SecondJoinStartsGame()
    ensures SizeAfterJoin(0) == 5 && SizeAfterJoin(SizeAfterJoin(0)) == 6
    ensures SizeAfterJoin(SizeAfterJoin(SizeAfterJoin(0))) == 7
  {
  }

  /** Every size below five pads to exactly five; from five on a join only adds the joiner. */
  lemma PaddingFillsToFive(size: nat)
    ensures size < 4 ==> SizeAfterJoin(size) == 5
    ensures size >= 4 ==> SizeAfterJoin(size) == size + 1
    ensures SizeAfterJoin(size) == 6 <==> size == 5
  {
  }

  /** `game.add_mock_players(count)`, seen from the manager: only its roster changes. */
  method PadWithMocks(game: Game, segments: SegmentManager, count: nat)
    requires segments.game == game && segments.Valid() && count <= |MockNames|
    modifies game`players, game`order
    ensures segments.Valid()
    ensures segments.Snapshot() == WithPlayers(old(segments.Snapshot()), game.players)
    ensures forall k :: k in old(game.players) ==> k in game.players
    ensures |game.players| <= |old(game.players)| + count
    ensures forall i :: 0 <= i < count ==> MockSid(i) in game.players && game.players[MockSid(i)] == NewPlayer(MockNames[i], MockSid(i))
    ensures forall k :: k in game.players <==> k in old(game.players) || exists i :: 0 <= i < count && k == MockSid(i)
    ensures forall k :: k in old(game.players) && (forall i :: 0 <= i < count ==> k != MockSid(i)) ==> game.players[k] == old(game.players)[k]
  {
    game.AddMockPlayers(count);
  }

  /** The closing test of the join: a roster of exactly six is dealt and starts a night; any other size changes nothing. */
  method StartAtSix(game: Game, segments: SegmentManager, draws: seq<nat>, ghost joined: map<string, Player>)
    requires segments.game == game && segments.Valid() && game.players == joined
    modifies game`players, game`werewolvesAlive, game`villagersAlive, segments, game`loversFlag, game`loverIsHunter
    ensures segments.Valid()
    ensures game.players.Keys == joined.Keys
    ensures |joined| != 6 ==> game.players == joined && segments.Snapshot() == old(segments.Snapshot())
    ensures |joined| == 6 ==>
      && DealtAlong(game.players, joined, game.order, Shuffling.Shuffle(BaseRoles(|joined|), draws))
      && game.werewolvesAlive == 1 && game.villagersAlive == 5
      && segments.Snapshot() == NightStarted(Dealt(old(segments.Snapshot()), game.players))
  {
    if |game.players| == 6 {
      DealAndStart(game, segments, draws, joined);
    }
  }

  /** The manager's view once the game's bonds have changed under it. */
  function Bonded(w: World, players: map<string, Player>, lovers: seq<string>): World
  {
    w.(roster := w.roster.(players := players, lovers := lovers))
  }

  /** `game.set_lovers`, seen from the manager: only the roster and the lovers change. */
  method Bond(game: Game, segments: SegmentManager, sid1: string, sid2: string)
    requires segments.game == game && segments.Valid() && sid1 in game.players && sid2 in game.players
    modifies game`players, game`lovers
    ensures segments.Valid()
    ensures segments.Snapshot() == Bonded(old(segments.Snapshot()), game.players, game.lovers)
    ensures game.players.Keys == old(game.players).Keys
    ensures game.players[sid1] == old(game.players)[sid1].(loverSid := Some(sid2))
    ensures sid1 != sid2 ==> game.players[sid2] == old(game.players)[sid2].(loverSid := Some(sid1))
    ensures forall k :: k in game.players && k != sid1 && k != sid2 ==> game.players[k] == old(game.players)[k]
    ensures game.lovers == [sid1, sid2]
  {
    game.SetLovers(sid1, sid2);
  }

  class TempGameEvents {
    const game: Game
    const segments: SegmentManager
    var loverAlertsClosed: int

    ghost predicate Valid()
      reads segments`currentSegment, segments`deathQueue, game`players, game`order, game`lovers,
        game`pendingDeaths, game`playerVotesCount
    {
      segments.game == game && segments.Valid()
    }

    constructor (g: Game, s: SegmentManager)
      requires s.game == g && s.Valid()
      ensures Valid() && game == g && segments == s && loverAlertsClosed == 0
    {
      game, segments := g, s;
      loverAlertsClosed := 0;
    }

    /** The join itself: add the player, then pad with `PadCount` mock players. */
    method Join(name: string, sid: string)
      requires Valid()
      modifies game`players, game`order
      ensures Valid()
      ensures segments.Snapshot() == WithPlayers(old(segments.Snapshot()), game.players)
      ensures var joined := old(game.players)[sid := NewPlayer(name, sid)];
        && (forall k :: k in joined ==> k in game.players)
        && (forall i :: 0 <= i < PadCount(|joined|) ==> MockSid(i) in game.players && game.players[MockSid(i)] == NewPlayer(MockNames[i], MockSid(i)))
        && (forall k :: k in game.players <==> k in joined || exists i :: 0 <= i < PadCount(|joined|) && k == MockSid(i))
        && (forall k :: k in joined && (forall i :: 0 <= i < PadCount(|joined|) ==> k != MockSid(i)) ==> game.players[k] == joined[k])
        && (|joined| >= 5 ==> game.players == joined)
        && |game.players| <= |joined| + PadCount(|joined|)
    {
      JoinGame(game, segments, name, sid);
      if |game.players| < 5 {
        PadWithMocks(game, segments, 5 - |game.players|);
      }
    }

    /**
     * `add_player`: a missing name fails before any change; otherwise the player joins, the roster
     * is padded with mock players up to five, and the roles are dealt and a night starts exactly
     * when the roster then holds six.
     */
    method AddPlayer(name: Option<string>, sid: string, draws: seq<nat>) returns (o: Outcome<string>)
      requires Valid()
      modifies game`players, game`order, game`werewolvesAlive, game`villagersAlive, segments,
        game`loversFlag, game`loverIsHunter
      ensures Valid()
      ensures name.None? ==> o.Fail? && game.players == old(game.players) && segments.Snapshot() == old(segments.Snapshot())
      ensures name.Some? ==> o == Pass && sid in game.players && old(game.players).Keys <= game.players.Keys
      ensures name.Some? ==>
        forall k :: k in game.players <==> k in old(game.players)[sid := NewPlayer(name.value, sid)] || exists i :: 0 <= i < PadCount(|old(game.players)[sid := NewPlayer(name.value, sid)]|) && k == MockSid(i)
      ensures name.Some? && |game.players| != 6 ==> segments.Snapshot() == WithPlayers(old(segments.Snapshot()), game.players)
      ensures name.Some? && |game.players| != 6 ==>
        && (forall i :: 0 <= i < PadCount(|old(game.players)[sid := NewPlayer(name.value, sid)]|) ==> game.players[MockSid(i)] == NewPlayer(MockNames[i], MockSid(i)))
        && (forall k :: k in old(game.players)[sid := NewPlayer(name.value, sid)] && (forall i :: 0 <= i < PadCount(|old(game.players)[sid := NewPlayer(name.value, sid)]|) ==> k != MockSid(i)) ==>
              game.players[k] == old(game.players)[sid := NewPlayer(name.value, sid)][k])
      ensures name.Some? && |game.players| == 6 ==>
        && game.werewolvesAlive == 1 && game.villagersAlive == 5
        && segments.Snapshot() == NightStarted(Dealt(old(segments.Snapshot()), game.players))
      ensures name.Some? && |game.players| == 6 ==>
        DealtAlong(game.players, old(game.players)[sid := NewPlayer(name.value, sid)], game.order,
          Shuffling.Shuffle(BaseRoles(|old(game.players)[sid := NewPlayer(name.value, sid)]|), draws))
    {
      if name.None? {
        return Fail("Player name required");
      }
      Join(name.value, sid);
      ghost var joined := segments.Snapshot();
      ghost var roster := game.players;
      assert |roster| == 6 ==> roster == old(game.players)[sid := NewPlayer(name.value, sid)];
      StartAtSix(game, segments, draws, roster);
      assert Dealt(joined, game.players) == Dealt(old(segments.Snapshot()), game.players);
      return Pass;
    }

    /**
     * `cupidon_selection_complete`: fewer than two selections, or either of the first two unknown,
     * fails with the bonds untouched; otherwise the first two are bonded to each other (the lovers'
     * alert it calls next does not exist and is skipped).
     */
    method CupidonSelection(sids: seq<string>) returns (o: Outcome<string>)
      requires Valid()
      modifies game`players, game`lovers
      ensures Valid()
      ensures |sids| < 2 || sids[0] !in old(game.players) || sids[1] !in old(game.players) ==>
        o.Fail? && game.players == old(game.players) && game.lovers == old(game.lovers)
      ensures |sids| >= 2 && sids[0] in old(game.players) && sids[1] in old(game.players) ==>
        && o == Pass
        && game.players.Keys == old(game.players).Keys
        && game.players[sids[0]] == old(game.players)[sids[0]].(loverSid := Some(sids[1]))
        && (sids[0] != sids[1] ==> game.players[sids[1]] == old(game.players)[sids[1]].(loverSid := Some(sids[0])))
        && (forall k :: k in game.players && k != sids[0] && k != sids[1] ==> game.players[k] == old(game.players)[k])
        && game.lovers == [sids[0], sids[1]]
      ensures segments.Snapshot() == Bonded(old(segments.Snapshot()), game.players, game.lovers)
    {
      if |sids| < 2 {
        return Fail("list index out of range");
      }
      var player1 := game.GetPlayer(sids[0]);
      var player2 := game.GetPlayer(sids[1]);
      if player1.None? || player2.None? {
        return Fail("Invalid player selection");
      }
      Bond(game, segments, sids[0], sids[1]);
      return Pass;
    }

    /** `lover_alert_closed`: count the alert; only the second one advances. */
    method LoverAlertClosed()
      requires Valid()
      modifies this`loverAlertsClosed, segments, game`loversFlag, game`loverIsHunter
      ensures Valid()
      ensures (loverAlertsClosed, loverAlertsClosed == 2) == LoverAlert(old(loverAlertsClosed))
      ensures loverAlertsClosed == 2 ==> segments.Snapshot() == Advance(old(segments.Snapshot()))
      ensures loverAlertsClosed != 2 ==> segments.Snapshot() == old(segments.Snapshot())
    {
      loverAlertsClosed := loverAlertsClosed + 1;
      if loverAlertsClosed == 2 {
        segments.AdvanceSegment();
      }
    }

    /** `werewolf_kill`: an unknown target fails before any change; otherwise queue the kill and advance once. */
    method WerewolfKill(targetSid: string) returns (o: Outcome<string>)
      requires Valid()
      modifies game`pendingDeaths, segments, game`loversFlag, game`loverIsHunter
      ensures Valid()
      ensures targetSid !in game.players ==>
        o.Fail? && game.pendingDeaths == old(game.pendingDeaths) && segments.Snapshot() == old(segments.Snapshot())
      ensures targetSid in game.players ==>
        && o == Pass
        && game.pendingDeaths == WithKill(old(game.pendingDeaths), game.players, targetSid)
        && segments.Snapshot() == Advance(old(segments.Snapshot()))
    {
      var found := QueueTarget(game, segments, targetSid);
      if !found {
        return Fail("Invalid target player");
      }
      segments.AdvanceSegment();
      return Pass;
    }

    /** `witch_heal_victim`, the same handler as in the main backend, as written. */
    method WitchHealVictim() returns (o: Outcome<string>)
      requires Valid()
      modifies game`pendingDeaths, game`witchHealAvailable, segments, game`loversFlag, game`loverIsHunter
      ensures Valid()
      ensures var h := HealAsWritten(old(game.pendingDeaths), game.players);
        && (o == Pass <==> h.Some?)
        && (h.Some? ==> game.pendingDeaths == h.value && !game.witchHealAvailable)
        && (h.None? ==> game.pendingDeaths == old(game.pendingDeaths) && game.witchHealAvailable == old(game.witchHealAvailable))
      ensures segments.Snapshot() == Advance(old(segments.Snapshot()))
    {
      o := HealPendingAsWritten(game, segments);
      segments.AdvanceSegment();
    }

    /** `witch_kill_victim`: a known target is queued with its lover and spends the potion; the segment advances either way. */
    method WitchKillVictim(targetSid: string) returns (o: Outcome<string>)
      requires Valid()
      modifies game`pendingDeaths, game`witchKillAvailable, segments, game`loversFlag, game`loverIsHunter
      ensures Valid()
      ensures targetSid !in game.players ==>
        o.Fail? && game.pendingDeaths == old(game.pendingDeaths) && game.witchKillAvailable == old(game.witchKillAvailable)
      ensures targetSid in game.players ==>
        o == Pass && game.pendingDeaths == WithKill(old(game.pendingDeaths), game.players, targetSid) && !game.witchKillAvailable
      ensures segments.Snapshot() == Advance(old(segments.Snapshot()))
    {
      var found := QueueTarget(game, segments, targetSid);
      if found {
        game.witchKillAvailable := false;
        o := Pass;
      } else {
        o := Fail("no such player");
      }
      segments.AdvanceSegment();
    }

    /** `witch_no_heal` and `witch_no_kill` */
    method WitchPass()
      requires Valid()
      modifies segments, game`loversFlag, game`loverIsHunter
      ensures Valid() && segments.Snapshot() == Advance(old(segments.Snapshot()))
    {
      segments.AdvanceSegment();
    }
  }
}
