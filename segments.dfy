/** The night cycle and the day-vote death queue (segments/segment_manager.py). */
module Segments {
  import opened Wrappers
  import opened Seqs
  import opened Players
  import opened GameCore
  import Roles

  datatype SegmentType = Cupid | Lovers | Werewolf | WitchHeal | WitchKill | Seer | Day

  /** The fixed cycle of one night followed by the day. */
  const SegmentOrder: seq<SegmentType> := [Cupid, Lovers, Seer, Werewolf, WitchHeal, WitchKill, Seer, Day]

  /** `segment_order[c]` with Python's negative indexing. */
  function SegmentAt(c: int): SegmentType
    requires -|SegmentOrder| <= c < |SegmentOrder|
  {
    if c >= 0 then SegmentOrder[c] else SegmentOrder[|SegmentOrder| + c]
  }

  lemma SegmentPositions(c: int)
    requires -1 <= c < 8
    ensures SegmentAt(c) == Cupid <==> c == 0
    ensures SegmentAt(c) == Lovers <==> c == 1
    ensures SegmentAt(c) == Day <==> c == -1 || c == 7
  {
    if c == -1 {} else if c == 0 {} else if c == 1 {} else if c == 2 {} else if c == 3 {}
    else if c == 4 {} else if c == 5 {} else if c == 6 {} else {}
  }

  /** The messages the manager sends, kept as an append-only log. */
  datatype Notice =
    | CupidonChoice(to: string)
    | AlertLovers(to: string, lover: string)
    | LoverCanClose(to: string)
    | DayVote
    | AlertDead(to: string)
    | HunterSelection(to: string)

  /** Everything the segment manager reads or writes, its own fields and the game's. */
  datatype World = World(
    cursor: int, firstNight: bool, runCupid: bool, queue: seq<string>, awaitingHunter: bool,
    log: seq<Notice>, roster: Roster, werewolves: int, villagers: int,
    loversFlag: bool, loverIsHunter: bool, hunterAlive: bool, winners: Option<Winner>)
  {
    const players: map<string, Player> := roster.players
    const lovers: seq<string> := roster.lovers
    const cupid: Option<string> := roster.cupid
    const votes: Tally := roster.votes
  }

  /** The game's players and the parts of the game the manager only reads. */
  datatype Roster = Roster(players: map<string, Player>, lovers: seq<string>, cupid: Option<string>, votes: Tally)

  predicate WorldValid(w: World)
  {
    && -1 <= w.cursor < 8
    && (forall s :: s in w.queue ==> s in w.players)
  }

  /** What the manager never changes about a player: liveness and cause of death are left out. */
  datatype Person = Person(sid: string, name: string, role: Option<Roles.PlayerRole>, loverSid: Option<string>)

  function PersonOf(p: Player): Person
  {
    Person(p.sid, p.name, p.role, p.loverSid)
  }

  function Skeleton(players: map<string, Player>): map<string, Person>
  {
    map k | k in players :: PersonOf(players[k])
  }

  lemma SkeletonUpdate(players: map<string, Player>, sid: string, p: Player)
    requires sid in players && PersonOf(p) == PersonOf(players[sid])
    ensures Skeleton(players[sid := p]) == Skeleton(players)
  {
  }

  lemma SkeletonFacts(m1: map<string, Player>, m2: map<string, Player>)
    requires Skeleton(m1) == Skeleton(m2)
    ensures m1.Keys == m2.Keys
    ensures forall k :: k in m1 ==> PersonOf(m1[k]) == PersonOf(m2[k])
  {
    forall k ensures k in m1 <==> k in m2 {
      assert k in m1 <==> k in Skeleton(m1);
    }
    forall k | k in m1 ensures PersonOf(m1[k]) == PersonOf(m2[k]) {
      assert Skeleton(m1)[k] == PersonOf(m1[k]);
    }
  }

  /** The roster keeps its keys, and every player keeps their sid, name, role and lover. */
  predicate SameRoster(w: World, r: World)
  {
    && Skeleton(r.players) == Skeleton(w.players)
    && r.lovers == w.lovers && r.cupid == w.cupid && r.runCupid == w.runCupid && r.votes == w.votes
  }

  /** Only the night's own state (cursor, first-night flag, lover flags, log) may differ. */
  predicate NightOnly(w: World, r: World)
  {
    && r.roster == w.roster && r.runCupid == w.runCupid && r.queue == w.queue
    && r.awaitingHunter == w.awaitingHunter && r.werewolves == w.werewolves && r.villagers == w.villagers
    && r.hunterAlive == w.hunterAlive && r.winners == w.winners
  }

  // ---------------------------------------------------------------------------
  // The night cycle.
  // ---------------------------------------------------------------------------

  /** `_run_cupid_segment`: the prompt goes to the Cupid; with no Cupid recorded the segment stops without one. */
  function RunCupid(w: World): (r: World)
    ensures NightOnly(w, r) && r.cursor == w.cursor && r.firstNight == w.firstNight
    ensures r.loversFlag == w.loversFlag && r.loverIsHunter == w.loverIsHunter
    ensures r.log == w.log + (if w.cupid.Some? then [CupidonChoice(w.cupid.value)] else [])
  {
    w.(log := w.log + if w.cupid.Some? then [CupidonChoice(w.cupid.value)] else [])
  }

  /** `set_if_lovers_are_opposite_teams`: two werewolves or two villagers set the flag; nothing clears it. */
  function SameTeamFlag(p1: Player, p2: Player, flag: bool): bool
  {
    if p1.role == Some(Roles.Werewolf) && p2.role == Some(Roles.Werewolf) then true
    else if p1.role == Some(Roles.Villager) && p2.role == Some(Roles.Villager) then true
    else flag
  }

  lemma SameTeamFlagNeverClears(p1: Player, p2: Player, flag: bool)
    ensures flag ==> SameTeamFlag(p1, p2, flag)
    ensures SameTeamFlag(p1, p2, flag) != flag ==>
      !flag && p1.role == p2.role && (p1.role == Some(Roles.Werewolf) || p1.role == Some(Roles.Villager))
  {
  }

  /** `player1, player2 = lovers`: the pair, or `None` where the unpacking fails. */
  function LoverPair(players: map<string, Player>, lovers: seq<string>): (r: Option<(Player, Player)>)
    ensures r.Some? <==> |lovers| == 2 && lovers[0] in players && lovers[1] in players
  {
    if |lovers| == 2 && lovers[0] in players && lovers[1] in players
    then Some((players[lovers[0]], players[lovers[1]]))
    else None
  }

  /** `_run_lovers_segment`; without exactly two lovers it stops before any change. */
  function RunLovers(w: World): (r: World)
    ensures SameRoster(w, r) && r.players == w.players && r.queue == w.queue
    ensures NightOnly(w, r) && r.cursor == w.cursor && r.firstNight == w.firstNight
    ensures LoverPair(w.players, w.lovers).None? ==> r == w
  {
    match LoverPair(w.players, w.lovers)
    case None => w
    case Some((p1, p2)) =>
      w.(loversFlag := SameTeamFlag(p1, p2, w.loversFlag),
         loverIsHunter := w.loverIsHunter || p1.role == Some(Roles.Hunter) || p2.role == Some(Roles.Hunter),
         log := w.log + [AlertLovers(p1.sid, p2.name), AlertLovers(p2.sid, p1.name),
                         LoverCanClose(p1.sid), LoverCanClose(p2.sid)])
  }

  /** `night_finished` and `start_day_vote`. */
  function NightEnded(w: World): (r: World)
    ensures NightOnly(w, r) && r.cursor == w.cursor && !r.firstNight && r.log == w.log + [DayVote]
  {
    w.(firstNight := false, log := w.log + [DayVote])
  }

  /** Whether `run_current_segment` at cursor `c` waits there instead of advancing. */
  predicate Halts(c: int, firstNight: bool, runCupid: bool)
    requires -1 <= c < 8
  {
    var s := SegmentAt(c);
    (s == Cupid && firstNight && runCupid) || (s == Lovers && firstNight) || s == Day
  }

  /** The cursor at which `run_current_segment`, following every immediate advance, stops. */
  function Halt(c: int, firstNight: bool, runCupid: bool): (r: int)
    requires -1 <= c < 8
    ensures c <= r < 8 && Halts(r, firstNight, runCupid)
    decreases 8 - c
  {
    SegmentPositions(c);
    if Halts(c, firstNight, runCupid) then c else Halt(c + 1, firstNight, runCupid)
  }

  /** `run_current_segment`: the segment at the stopping cursor runs. */
  function Settle(w: World): (r: World)
    requires WorldValid(w)
    ensures WorldValid(r) && NightOnly(w, r)
  {
    var m := w.(cursor := Halt(w.cursor, w.firstNight, w.runCupid));
    var s := SegmentAt(m.cursor);
    if s == Cupid && w.firstNight && w.runCupid then RunCupid(m)
    else if s == Lovers && w.firstNight then RunLovers(m)
    else NightEnded(m)
  }

  /** `advance_segment`: step the cursor modulo the cycle length, then run. */
  function Advance(w: World): (r: World)
    requires WorldValid(w)
    ensures WorldValid(r) && NightOnly(w, r)
  {
    Settle(w.(cursor := (w.cursor + 1) % |SegmentOrder|))
  }

  /** `start_night` */
  function NightStarted(w: World): (r: World)
    requires WorldValid(w)
    ensures WorldValid(r) && NightOnly(w, r)
  {
    Settle(w.(cursor := 0))
  }

  /**
   * From any started cursor the cycle halts at CUPID only when both `first_night` and `run_cupid`
   * hold, at LOVERS only on the first night, and otherwise runs through to DAY, where the night ends.
   */
  lemma {:induction false} HaltAt(c: int, firstNight: bool, runCupid: bool)
    requires 0 <= c < 8
    ensures Halt(c, firstNight, runCupid) ==
      if c == 0 && firstNight && runCupid then 0
      else if c <= 1 && firstNight then 1
      else 7
    decreases 8 - c
  {
    SegmentPositions(c);
    if !Halts(c, firstNight, runCupid) {
      HaltAt(c + 1, firstNight, runCupid);
    }
  }

  lemma SettleHaltsAt(w: World)
    requires WorldValid(w) && 0 <= w.cursor
    ensures Settle(w).cursor ==
      if w.cursor == 0 && w.firstNight && w.runCupid then 0
      else if w.cursor <= 1 && w.firstNight then 1
      else 7
    ensures Settle(w).cursor == 0 ==> Settle(w) == RunCupid(w)
    ensures Settle(w).cursor == 1 ==> Settle(w) == RunLovers(w.(cursor := 1))
    ensures Settle(w).cursor == 7 ==> Settle(w) == NightEnded(w.(cursor := 7))
    ensures Settle(w).firstNight == (w.firstNight && Settle(w).cursor != 7)
  {
    var h := Halt(w.cursor, w.firstNight, w.runCupid);
    HaltAt(w.cursor, w.firstNight, w.runCupid);
    SegmentPositions(h);
    if h == 0 {
      assert w.(cursor := h) == w;
    }
  }

  /** After the first night a new night runs straight to the day vote. */
  lemma LaterNightsGoStraightToDay(w: World)
    requires WorldValid(w) && !w.firstNight
    ensures NightStarted(w) == NightEnded(w.(cursor := 7))
  {
    SettleHaltsAt(w.(cursor := 0));
  }

  /** After the first night every advance runs straight to the day vote. */
  lemma LaterAdvancesGoStraightToDay(w: World)
    requires WorldValid(w) && !w.firstNight
    ensures Advance(w) == NightEnded(w.(cursor := 7))
  {
    SettleHaltsAt(w.(cursor := (w.cursor + 1) % |SegmentOrder|));
  }

  /** The first night with Cupid enabled stops at the Cupid's prompt. */
  lemma FirstNightStartsWithCupid(w: World)
    requires WorldValid(w) && w.firstNight && w.runCupid
    ensures NightStarted(w) == RunCupid(w.(cursor := 0))
    ensures NightStarted(w).cursor == 0 && NightStarted(w).firstNight
  {
    SettleHaltsAt(w.(cursor := 0));
  }

  // ---------------------------------------------------------------------------
  // The death queue.
  // ---------------------------------------------------------------------------

  /** `queue_death`: admit a sid once; its cause is set only on admission. */
  function WithDeathQueued(w: World, sid: string, cause: string): (r: World)
    requires WorldValid(w) && sid in w.players
    ensures WorldValid(r) && SameRoster(w, r)
    ensures r.queue == AppendIfAbsent(w.queue, sid)
    ensures sid in w.queue ==> r == w
    ensures sid !in w.queue ==> r.players == w.players[sid := w.players[sid].(deathCause := Some(cause))]
    ensures r == w.(roster := r.roster, queue := r.queue)
  {
    if sid in w.queue then w
    else
      SkeletonUpdate(w.players, sid, w.players[sid].(deathCause := Some(cause)));
      w.(roster := w.roster.(players := w.players[sid := w.players[sid].(deathCause := Some(cause))]), queue := AppendIfAbsent(w.queue, sid))
  }

  /** One iteration of `process_vote_deaths`: the voted player, then that player's lover. */
  function QueueVoteDeath(w: World, sid: string): (r: World)
    requires WorldValid(w)
    ensures WorldValid(r) && SameRoster(w, r)
    ensures r == w.(roster := r.roster, queue := r.queue)
  {
    if sid !in w.players then w
    else
      var w1 := WithDeathQueued(w, sid, "Vote");
      var p := w1.players[sid];
      if HasLover(p) && p.loverSid.value in w1.players then WithDeathQueued(w1, p.loverSid.value, "Love") else w1
  }

  lemma OneVoteQueue(w: World, sid: string)
    requires WorldValid(w)
    ensures QueueVoteDeath(w, sid).queue == AppendAllIfAbsent(w.queue, Victims(w.players, sid))
  {
    if sid in w.players {
      var w1 := WithDeathQueued(w, sid, "Vote");
      var p := w1.players[sid];
      SkeletonFacts(w1.players, w.players);
      assert PersonOf(p) == PersonOf(w.players[sid]);
      var vs := Victims(w.players, sid);
      assert AppendAllIfAbsent(w.queue, vs) == AppendAllIfAbsent(w1.queue, vs[1..]);
      if HasLover(p) && p.loverSid.value in w1.players {
        assert vs[1..] == [p.loverSid.value] && vs[1..][1..] == [];
      } else {
        assert vs[1..] == [];
      }
    }
  }

  /** `process_vote_deaths` over the sids `top`, in order. */
  function QueueVoteDeaths(w: World, top: seq<string>): (r: World)
    requires WorldValid(w)
    ensures WorldValid(r) && SameRoster(w, r)
    ensures r == w.(roster := r.roster, queue := r.queue)
  {
    if top == [] then w else QueueVoteDeath(QueueVoteDeaths(w, top[..|top| - 1]), top[|top| - 1])
  }

  /** The sids a vote on `top` sends to the queue, in order: each known player, then their known lover. */
  function VoteVictims(players: map<string, Player>, top: seq<string>): seq<string>
  {
    if top == [] then [] else VoteVictims(players, top[..|top| - 1]) + Victims(players, top[|top| - 1])
  }

  lemma VictimsBySkeleton(m1: map<string, Player>, m2: map<string, Player>, sid: string)
    requires Skeleton(m1) == Skeleton(m2)
    ensures Victims(m1, sid) == Victims(m2, sid)
  {
    SkeletonFacts(m1, m2);
  }

  /** `xs` appended one by one, each only if absent. */
  function AppendAllIfAbsent(s: seq<string>, xs: seq<string>): (r: seq<string>)
    ensures Distinct(s) ==> Distinct(r)
    ensures forall x :: x in r <==> x in s || x in xs
    ensures |r| >= |s| && r[..|s|] == s
    decreases |xs|
  {
    if xs == [] then s else AppendAllIfAbsent(AppendIfAbsent(s, xs[0]), xs[1..])
  }

  lemma {:induction false} AppendAllIfAbsentSplit(s: seq<string>, xs: seq<string>, ys: seq<string>)
    ensures AppendAllIfAbsent(s, xs + ys) == AppendAllIfAbsent(AppendAllIfAbsent(s, xs), ys)
    decreases |xs|
  {
    if xs != [] {
      assert (xs + ys)[1..] == xs[1..] + ys;
      AppendAllIfAbsentSplit(AppendIfAbsent(s, xs[0]), xs[1..], ys);
    } else {
      assert xs + ys == ys;
    }
  }

  /**
   * The vote queues every known top-voted player followed by that player's known lover,
   * each at most once, behind whatever was queued already.
   */
  lemma {:induction false} VoteDeathsQueue(w: World, top: seq<string>)
    requires WorldValid(w)
    ensures QueueVoteDeaths(w, top).queue == AppendAllIfAbsent(w.queue, VoteVictims(w.players, top))
    decreases |top|
  {
    if top != [] {
      var front := top[..|top| - 1];
      var sid := top[|top| - 1];
      VoteDeathsQueue(w, front);
      var w0 := QueueVoteDeaths(w, front);
      VictimsBySkeleton(w0.players, w.players, sid);
      OneVoteQueue(w0, sid);
      AppendAllIfAbsentSplit(w.queue, VoteVictims(w.players, front), Victims(w.players, sid));
    }
  }

  /** A werewolf or villager with a lover: a death that lowers the lovers flag. */
  predicate BreaksLoversFlag(p: Player)
  {
    (p.role == Some(Roles.Werewolf) || p.role == Some(Roles.Villager)) && HasLover(p)
  }

  /** `_execute_death_sequence` */
  function Execute(w: World, sid: string): (r: World)
    requires WorldValid(w) && sid in w.players
    ensures WorldValid(r) && SameRoster(w, r)
    ensures r.queue == w.queue && r.hunterAlive == w.hunterAlive && r.winners == w.winners
    ensures IsWerewolf(w.players[sid]) ==> r.werewolves == w.werewolves - 1 && r.villagers == w.villagers
    ensures !IsWerewolf(w.players[sid]) ==> r.werewolves == w.werewolves && r.villagers == w.villagers - 1
    ensures r.loversFlag <==> w.loversFlag && !BreaksLoversFlag(w.players[sid])
    ensures r.log == w.log + [AlertDead(sid)]
    ensures r.players == w.players[sid := w.players[sid].(isAlive := false)]
  {
    AfterDeath(MarkDead(w, sid), sid)
  }

  /** The bookkeeping once `sid` is marked dead: its team counter, the lovers flag, the death alert. */
  function AfterDeath(w: World, sid: string): (r: World)
    requires WorldValid(w) && sid in w.players
    ensures WorldValid(r) && r.roster == w.roster && r.queue == w.queue
    ensures IsWerewolf(w.players[sid]) ==> r.werewolves == w.werewolves - 1 && r.villagers == w.villagers
    ensures !IsWerewolf(w.players[sid]) ==> r.werewolves == w.werewolves && r.villagers == w.villagers - 1
    ensures r.loversFlag <==> w.loversFlag && !BreaksLoversFlag(w.players[sid])
    ensures r.log == w.log + [AlertDead(sid)]
  {
    var p := w.players[sid];
    var counts := CountsAfterDeath(p, w.werewolves, w.villagers);
    var flag := if (p.role == Some(Roles.Werewolf) || p.role == Some(Roles.Villager)) && HasLover(p) then false else w.loversFlag;
    w.(werewolves := counts.0, villagers := counts.1, loversFlag := flag, log := w.log + [AlertDead(sid)])
  }

  function MarkDead(w: World, sid: string): (r: World)
    requires WorldValid(w) && sid in w.players
    ensures WorldValid(r) && SameRoster(w, r)
    ensures r == w.(roster := w.roster.(players := w.players[sid := w.players[sid].(isAlive := false)]))
  {
    SkeletonUpdate(w.players, sid, w.players[sid].(isAlive := false));
    w.(roster := w.roster.(players := w.players[sid := w.players[sid].(isAlive := false)]))
  }

  /** Whether the queue's head is a Hunter whose shot is still owed. */
  predicate HunterWaits(w: World)
    requires WorldValid(w)
  {
    w.queue != [] && w.players[w.queue[0]].role == Some(Roles.Hunter) && w.hunterAlive
  }

  lemma DistinctTail(s: seq<string>)
    requires s != [] && Distinct(s)
    ensures s[0] !in s[1..]
  {
    forall i | 0 <= i < |s[1..]| ensures s[1..][i] != s[0] { assert s[1..][i] == s[i + 1]; }
  }

  /** The world after the queue's head is executed and popped. */
  function Popped(w: World): (r: World)
    requires WorldValid(w) && w.queue != []
    ensures WorldValid(r) && SameRoster(w, r) && r.queue == w.queue[1..]
  {
    Execute(w, w.queue[0]).(queue := w.queue[1..])
  }

  /** `process_death_queue` up to the point where it either empties the queue or stops for the Hunter. */
  function Drain(w: World): (r: World)
    requires WorldValid(w)
    ensures WorldValid(r) && SameRoster(w, r) && r.players.Keys == w.players.Keys
    decreases |w.queue|
  {
    if w.queue == [] then w
    else if HunterWaits(w) then w.(hunterAlive := false, log := w.log + [HunterSelection(w.queue[0])])
    else Drain(Popped(w))
  }

  /** Draining leaves the cursor, the night flags, the hunter wait and the winner as they were. */
  lemma {:induction false} DrainFrame(w: World)
    requires WorldValid(w)
    ensures var r := Drain(w);
      && r.cursor == w.cursor && r.firstNight == w.firstNight && r.runCupid == w.runCupid
      && r.awaitingHunter == w.awaitingHunter && r.loverIsHunter == w.loverIsHunter && r.winners == w.winners
    decreases |w.queue|
  {
    if w.queue != [] && !HunterWaits(w) {
      DrainFrame(Popped(w));
    }
  }

  /** How many queued players `Drain` executes. */
  function DrainCount(w: World): (k: nat)
    requires WorldValid(w)
    ensures k <= |w.queue|
    decreases |w.queue|
  {
    if w.queue == [] || HunterWaits(w) then 0 else 1 + DrainCount(Popped(w))
  }

  /** One `AlertDead` per sid, in order. */
  function DeathNotices(q: seq<string>): (r: seq<Notice>)
    ensures |r| == |q| && forall i :: 0 <= i < |q| ==> r[i] == AlertDead(q[i])
  {
    if q == [] then [] else [AlertDead(q[0])] + DeathNotices(q[1..])
  }

  /** FIFO: draining removes exactly the first `DrainCount` entries and leaves the rest queued. */
  lemma {:induction false} DrainQueue(w: World)
    requires WorldValid(w)
    ensures Drain(w).queue == w.queue[DrainCount(w)..]
    decreases |w.queue|
  {
    if w.queue != [] && !HunterWaits(w) {
      DrainQueue(Popped(w));
      assert w.queue[1..][DrainCount(Popped(w))..] == w.queue[DrainCount(w)..];
    }
  }

  /** Each executed death lowers exactly one of the two team counters by one. */
  lemma {:induction false} DrainCounters(w: World)
    requires WorldValid(w)
    ensures Drain(w).werewolves + Drain(w).villagers == w.werewolves + w.villagers - DrainCount(w)
    ensures Drain(w).werewolves <= w.werewolves && Drain(w).villagers <= w.villagers
    decreases |w.queue|
  {
    if w.queue != [] && !HunterWaits(w) {
      DrainCounters(Popped(w));
    }
  }

  /** How many of the sids in `q` belong to werewolves. */
  function WerewolvesAmong(players: map<string, Player>, q: seq<string>): (n: nat)
    requires forall s :: s in q ==> s in players
    ensures n <= |q|
  {
    if q == [] then 0 else (if IsWerewolf(players[q[0]]) then 1 else 0) + WerewolvesAmong(players, q[1..])
  }

  /** Whether some sid in `q` belongs to a werewolf or villager with a lover. */
  predicate SomeBreaksLoversFlag(players: map<string, Player>, q: seq<string>)
    requires forall s :: s in q ==> s in players
  {
    q != [] && (BreaksLoversFlag(players[q[0]]) || SomeBreaksLoversFlag(players, q[1..]))
  }

  /** Both queries read only the roles and lovers, which the manager never changes. */
  lemma {:induction false} AmongBySkeleton(m1: map<string, Player>, m2: map<string, Player>, q: seq<string>)
    requires Skeleton(m1) == Skeleton(m2) && forall s :: s in q ==> s in m1
    ensures forall s :: s in q ==> s in m2
    ensures WerewolvesAmong(m1, q) == WerewolvesAmong(m2, q)
    ensures SomeBreaksLoversFlag(m1, q) == SomeBreaksLoversFlag(m2, q)
  {
    SkeletonFacts(m1, m2);
    if q != [] {
      assert q[0] in q;
      assert PersonOf(m1[q[0]]) == PersonOf(m2[q[0]]);
      assert forall s :: s in q[1..] ==> s in q;
      AmongBySkeleton(m1, m2, q[1..]);
    }
  }

  /** The executed prefix of a drain that pops its head: the head, then what the rest executes. */
  lemma {:induction false} DrainStep(w: World)
    requires WorldValid(w) && w.queue != [] && !HunterWaits(w)
    ensures var p := Popped(w); var k := DrainCount(p);
      && DrainCount(w) == k + 1 && Drain(w) == Drain(p)
      && w.queue[..DrainCount(w)] == [w.queue[0]] + p.queue[..k]
      && (forall s :: s in p.queue[..k] ==> s in p.players)
      && WerewolvesAmong(p.players, p.queue[..k]) == WerewolvesAmong(w.players, p.queue[..k])
      && SomeBreaksLoversFlag(p.players, p.queue[..k]) == SomeBreaksLoversFlag(w.players, p.queue[..k])
      && var h := w.players[w.queue[0]];
      && p.werewolves == w.werewolves - (if IsWerewolf(h) then 1 else 0)
      && p.villagers == w.villagers - (if IsWerewolf(h) then 0 else 1)
      && (p.loversFlag <==> w.loversFlag && !BreaksLoversFlag(h))
  {
    var p := Popped(w);
    var k := DrainCount(p);
    assert DrainCount(w) == k + 1 && Drain(w) == Drain(p);
    assert p.werewolves == Execute(w, w.queue[0]).werewolves && p.villagers == Execute(w, w.queue[0]).villagers;
    assert p.loversFlag == Execute(w, w.queue[0]).loversFlag;
    assert w.queue[..k + 1] == [w.queue[0]] + p.queue[..k];
    assert forall s :: s in p.queue[..k] ==> s in p.queue;
    AmongBySkeleton(p.players, w.players, p.queue[..k]);
  }

  /** Draining lowers the werewolf counter once per executed werewolf and the villager counter once per other executed player. */
  lemma {:induction false} DrainTeamCounts(w: World)
    requires WorldValid(w)
    ensures var e := w.queue[..DrainCount(w)];
      && Drain(w).werewolves == w.werewolves - WerewolvesAmong(w.players, e)
      && Drain(w).villagers == w.villagers - (DrainCount(w) - WerewolvesAmong(w.players, e))
    decreases |w.queue|
  {
    if w.queue == [] || HunterWaits(w) {
      assert w.queue[..DrainCount(w)] == [];
    } else {
      var p := Popped(w);
      var k := DrainCount(p);
      DrainStep(w);
      DrainTeamCounts(p);
      var e := w.queue[..k + 1];
      assert e[1..] == p.queue[..k];
      assert WerewolvesAmong(w.players, e) == (if IsWerewolf(w.players[w.queue[0]]) then 1 else 0) + WerewolvesAmong(w.players, p.queue[..k]);
    }
  }

  /** The lovers flag survives draining only if no executed werewolf or villager had a lover. */
  lemma {:induction false} DrainLoversFlag(w: World)
    requires WorldValid(w)
    ensures Drain(w).loversFlag <==> w.loversFlag && !SomeBreaksLoversFlag(w.players, w.queue[..DrainCount(w)])
    decreases |w.queue|
  {
    if w.queue == [] || HunterWaits(w) {
      assert w.queue[..DrainCount(w)] == [];
    } else {
      var p := Popped(w);
      var k := DrainCount(p);
      DrainStep(w);
      DrainLoversFlag(p);
      var e := w.queue[..k + 1];
      assert e[1..] == p.queue[..k];
    }
  }

  lemma PrefixCons(s: seq<string>, k: nat)
    requires k < |s|
    ensures s[..k + 1] == [s[0]] + s[1..][..k]
  {
  }

  /** The Hunter's prompt, when draining stops at one. */
  function HunterNotice(w: World): seq<Notice>
    requires WorldValid(w)
  {
    if DrainCount(w) < |w.queue| then [HunterSelection(w.queue[DrainCount(w)])] else []
  }

  /** The deaths are announced in queue order, followed by the Hunter's prompt when draining stops at one. */
  lemma {:induction false} DrainLog(w: World)
    requires WorldValid(w)
    ensures Drain(w).log == w.log + DeathNotices(w.queue[..DrainCount(w)]) + HunterNotice(w)
    decreases |w.queue|
  {
    if w.queue == [] {
    } else if HunterWaits(w) {
      assert w.queue[..0] == [];
    } else {
      var p := Popped(w);
      DrainLog(p);
      var k := DrainCount(p);
      assert Drain(w) == Drain(p);
      assert p.queue == w.queue[1..];
      assert DrainCount(w) == k + 1;
      PrefixCons(w.queue, k);
      assert DeathNotices(w.queue[..k + 1]) == [AlertDead(w.queue[0])] + DeathNotices(p.queue[..k]);
      assert HunterNotice(w) == HunterNotice(p);
      LogStep(w.log, AlertDead(w.queue[0]), DeathNotices(p.queue[..k]), HunterNotice(p), p.log, Drain(p).log);
    }
  }

  lemma LogStep(wlog: seq<Notice>, a: Notice, dn: seq<Notice>, hn: seq<Notice>, plog: seq<Notice>, dlog: seq<Notice>)
    requires plog == wlog + [a] && dlog == plog + dn + hn
    ensures dlog == wlog + ([a] + dn) + hn
  {
  }

  /**
   * Hunter suspension: draining stops early only at a Hunter whose shot was owed; that flag is then
   * cleared and the Hunter stays at the head. A queue that empties leaves the flag as it was.
   */
  lemma {:induction false} DrainHunter(w: World)
    requires WorldValid(w)
    ensures DrainCount(w) < |w.queue| ==>
      w.hunterAlive && !Drain(w).hunterAlive && w.players[w.queue[DrainCount(w)]].role == Some(Roles.Hunter)
    ensures DrainCount(w) == |w.queue| ==> Drain(w).hunterAlive == w.hunterAlive
    decreases |w.queue|
  {
    if w.queue != [] && !HunterWaits(w) {
      var p := Popped(w);
      var k := DrainCount(p);
      assert DrainCount(w) == k + 1 && Drain(w) == Drain(p) && p.hunterAlive == w.hunterAlive;
      DrainHunter(p);
      if k < |p.queue| {
        var h := p.queue[k];
        assert h == w.queue[k + 1];
        SkeletonFacts(p.players, w.players);
        assert PersonOf(p.players[h]) == PersonOf(w.players[h]);
      }
    }
  }

  /** Every player draining does not execute is left untouched. */
  lemma {:induction false} DrainSpares(w: World)
    requires WorldValid(w)
    ensures forall s :: s in w.players && s !in w.queue[..DrainCount(w)] ==> Drain(w).players[s] == w.players[s]
    decreases |w.queue|
  {
    if w.queue != [] && !HunterWaits(w) {
      var p := Popped(w);
      DrainSpares(p);
      var k := DrainCount(p);
      assert w.queue[..k + 1] == [w.queue[0]] + p.queue[..k];
    } else {
      assert w.queue[..0] == [];
    }
  }

  lemma DistinctPop(s: seq<string>)
    requires s != [] && Distinct(s)
    ensures Distinct(s[1..]) && s[0] !in s[1..]
  {
    DistinctTail(s);
    forall i, j | 0 <= i < j < |s[1..]| ensures s[1..][i] != s[1..][j] {
      assert s[1..][i] == s[i + 1] && s[1..][j] == s[j + 1];
    }
  }

  /** Every player draining executes is dead afterwards. */
  lemma {:induction false} DrainKills(w: World)
    requires WorldValid(w) && Distinct(w.queue)
    ensures forall i :: 0 <= i < DrainCount(w) ==> !Drain(w).players[w.queue[i]].isAlive
    decreases |w.queue|
  {
    if w.queue != [] && !HunterWaits(w) {
      var p := Popped(w);
      DistinctPop(w.queue);
      DrainKills(p);
      DrainSpares(p);
      var k := DrainCount(p);
      forall i | 0 <= i < k + 1 ensures !Drain(p).players[w.queue[i]].isAlive {
        if i > 0 {
          assert w.queue[i] == p.queue[i - 1];
        } else {
          assert w.queue[0] !in p.queue[..k];
        }
      }
    }
  }

  /** `finish_death_queue_processing` on an empty queue: check the game, and advance only if it goes on. */
  function FinishEmpty(w: World): (r: World)
    requires WorldValid(w)
    ensures WorldValid(r) && SameRoster(w, r) && r.players == w.players && r.queue == w.queue && !r.awaitingHunter
    ensures var o := GameOutcome(w.werewolves, w.villagers, w.loversFlag);
      && (o.Some? ==> r == w.(awaitingHunter := false, winners := o))
      && (o.None? ==> r == Advance(w.(awaitingHunter := false)))
  {
    var w1 := w.(awaitingHunter := false);
    var o := GameOutcome(w1.werewolves, w1.villagers, w1.loversFlag);
    if o.Some? then w1.(winners := o) else Advance(w1)
  }

  /** `process_death_queue` */
  function Process(w: World): (r: World)
    requires WorldValid(w)
    ensures WorldValid(r) && SameRoster(w, r)
  {
    var d := Drain(w);
    if d.queue == [] then FinishEmpty(d) else d
  }

  /** `finish_death_queue_processing` */
  function Finish(w: World): (r: World)
    requires WorldValid(w)
    ensures WorldValid(r) && SameRoster(w, r)
  {
    if w.queue != [] then Process(w) else FinishEmpty(w)
  }

  /** `alternative_count_votes` */
  function CountVotes(w: World): (r: World)
    requires WorldValid(w)
    ensures WorldValid(r) && SameRoster(w, r)
  {
    var w1 := w.(queue := [], awaitingHunter := false);
    Process(QueueVoteDeaths(w1, TopVoted(w1.votes)))
  }

  /** `check_game_over` of the manager: a new night when the game goes on, else record the winner. */
  function GameChecked(w: World): (r: World)
    requires WorldValid(w)
    ensures WorldValid(r) && NightOnly(w.(winners := r.winners), r)
  {
    var o := GameOutcome(w.werewolves, w.villagers, w.loversFlag);
    if o.Some? then w.(winners := o) else NightStarted(w)
  }

  /**
   * When the queue drains completely the win check decides: a winner is recorded and the cursor
   * stays put, or there is no winner and the cycle advances with the winner left as it was.
   */
  lemma ProcessEndsTurn(w: World)
    requires WorldValid(w)
    ensures var d := Drain(w); var r := Process(w);
      && (d.queue != [] ==> r == d)
      && (d.queue == [] && GameOutcome(d.werewolves, d.villagers, d.loversFlag).Some? ==>
            r.winners == GameOutcome(d.werewolves, d.villagers, d.loversFlag) && r.cursor == w.cursor && !r.awaitingHunter)
      && (d.queue == [] && GameOutcome(d.werewolves, d.villagers, d.loversFlag).None? ==>
            r.winners == w.winners && r == Advance(d.(awaitingHunter := false)))
  {
    DrainFrame(w);
  }

  // ---------------------------------------------------------------------------
  // Bridges: one step of each manager method, stated on the world it leaves.
  // ---------------------------------------------------------------------------

  /** `run_current_segment` where the cursor waits: the segment there runs. */
  lemma SettleHere(w: World)
    requires WorldValid(w) && Halts(w.cursor, w.firstNight, w.runCupid)
    ensures var s := SegmentAt(w.cursor);
      && (s == Cupid && w.firstNight && w.runCupid ==> Settle(w) == RunCupid(w))
      && (s == Lovers && w.firstNight ==> Settle(w) == RunLovers(w))
      && (s == Day ==> Settle(w) == NightEnded(w))
  {
    SegmentPositions(w.cursor);
    assert w.(cursor := Halt(w.cursor, w.firstNight, w.runCupid)) == w;
  }

  /** `run_current_segment` at a segment that advances at once. */
  lemma SettlePasses(w: World)
    requires WorldValid(w) && !Halts(w.cursor, w.firstNight, w.runCupid)
    ensures Settle(w) == Advance(w)
  {
    SegmentPositions(w.cursor);
    assert (w.cursor + 1) % |SegmentOrder| == w.cursor + 1;
    var m := w.(cursor := w.cursor + 1);
    assert Halt(w.cursor, w.firstNight, w.runCupid) == Halt(m.cursor, m.firstNight, m.runCupid);
    assert w.(cursor := Halt(w.cursor, w.firstNight, w.runCupid)) == m.(cursor := Halt(m.cursor, m.firstNight, m.runCupid));
  }

  lemma AdvanceSettles(w: World, m: World)
    requires WorldValid(w) && m == w.(cursor := (w.cursor + 1) % |SegmentOrder|)
    ensures Advance(w) == Settle(m)
  {
  }

  lemma StartSettles(w: World, m: World)
    requires WorldValid(w) && m == w.(cursor := 0)
    ensures NightStarted(w) == Settle(m)
  {
  }

  lemma ProcessPops(w: World)
    requires WorldValid(w) && w.queue != [] && !HunterWaits(w)
    ensures Process(w) == Process(Popped(w))
  {
    assert Drain(w) == Drain(Popped(w));
  }

  lemma ProcessStopsForHunter(w: World, r: World)
    requires WorldValid(w) && HunterWaits(w)
    requires r == w.(hunterAlive := false, log := w.log + [HunterSelection(w.queue[0])])
    ensures r == Process(w)
  {
  }

  lemma FinishIsProcess(w: World)
    requires WorldValid(w)
    ensures Finish(w) == Process(w)
  {
  }

  lemma FinishSplits(w: World)
    requires WorldValid(w)
    ensures w.queue != [] ==> Finish(w) == Process(w)
    ensures w.queue == [] ==> Process(w) == FinishEmpty(w) && Finish(w) == FinishEmpty(w)
  {
  }

  lemma FinishEmptySteps(w: World, m: World)
    requires WorldValid(w) && m == w.(awaitingHunter := false)
    ensures var o := GameOutcome(w.werewolves, w.villagers, w.loversFlag);
      && (o.Some? ==> FinishEmpty(w) == m.(winners := o))
      && (o.None? ==> FinishEmpty(w) == Advance(m))
  {
  }

  lemma GameCheckedSteps(w: World)
    requires WorldValid(w)
    ensures var o := GameOutcome(w.werewolves, w.villagers, w.loversFlag);
      && (o.Some? ==> GameChecked(w) == w.(winners := o))
      && (o.None? ==> GameChecked(w) == NightStarted(w))
  {
  }

  lemma CountVotesSteps(w: World, m: World)
    requires WorldValid(w) && m == w.(queue := [], awaitingHunter := false)
    ensures CountVotes(w) == Process(QueueVoteDeaths(m, TopVoted(m.votes)))
  {
  }

  lemma VoteStep(w: World, top: seq<string>, i: nat)
    requires WorldValid(w) && i < |top|
    ensures QueueVoteDeaths(w, top[..i + 1]) == QueueVoteDeath(QueueVoteDeaths(w, top[..i]), top[i])
  {
    assert top[..i + 1][..i] == top[..i];
  }

  lemma VoteStepSteps(w: World, sid: string, m: World)
    requires WorldValid(w) && sid in w.players && m == WithDeathQueued(w, sid, "Vote")
    ensures var p := w.players[sid];
      && m.players[sid].loverSid == p.loverSid
      && (HasLover(p) && p.loverSid.value in w.players ==> QueueVoteDeath(w, sid) == WithDeathQueued(m, p.loverSid.value, "Love"))
      && (!(HasLover(p) && p.loverSid.value in w.players) ==> QueueVoteDeath(w, sid) == m)
  {
    SkeletonFacts(m.players, w.players);
    assert PersonOf(m.players[sid]) == PersonOf(w.players[sid]);
  }

  lemma VoteStepUnknown(w: World, sid: string)
    requires WorldValid(w) && sid !in w.players
    ensures QueueVoteDeath(w, sid) == w
  {
  }

  // ---------------------------------------------------------------------------
  // The manager object.
  // ---------------------------------------------------------------------------

  class SegmentManager {
    const game: Game
    var runningHunterSegment: bool
    var firstNight: bool
    var currentSegment: int
    var deathQueue: seq<string>
    var runCupid: bool
    /** Assigned by the vote and queue methods before any read; starts `false` here. */
    var awaitingHunter: bool
    var log: seq<Notice>

    ghost function Snapshot(): World
      reads this, game`players, game`lovers, game`cupid, game`playerVotesCount, game`werewolvesAlive,
        game`villagersAlive, game`loversFlag, game`loverIsHunter, game`hunterIsAlive, game`winners
    {
      World(currentSegment, firstNight, runCupid, deathQueue, awaitingHunter, log,
            Roster(game.players, game.lovers, game.cupid, game.playerVotesCount),
            game.werewolvesAlive, game.villagersAlive, game.loversFlag, game.loverIsHunter,
            game.hunterIsAlive, game.winners)
    }

    ghost predicate Valid()
      reads this`currentSegment, this`deathQueue, game`players, game`order, game`lovers,
        game`pendingDeaths, game`playerVotesCount
    {
      && game.Valid()
      && -1 <= currentSegment < 8
      && (forall s :: s in deathQueue ==> s in game.players)
    }

    constructor (g: Game)
      requires g.Valid()
      ensures Valid() && game == g
      ensures currentSegment == -1 && firstNight && runCupid && !runningHunterSegment
      ensures deathQueue == [] && !awaitingHunter && log == []
    {
      game := g;
      runningHunterSegment, firstNight, currentSegment := false, true, -1;
      deathQueue, runCupid, awaitingHunter, log := [], true, false, [];
    }

    method StartNight()
      requires Valid()
      modifies this, game`loversFlag, game`loverIsHunter
      ensures Valid() && Snapshot() == NightStarted(old(Snapshot()))
    {
      ghost var w0 := Snapshot();
      currentSegment := 0;
      StartSettles(w0, Snapshot());
      RunCurrentSegment();
    }

    method RunCurrentSegment()
      requires Valid()
      modifies this, game`loversFlag, game`loverIsHunter
      ensures Valid() && Snapshot() == Settle(old(Snapshot()))
      decreases 2 * (7 - currentSegment) + 1
    {
      ghost var w := Snapshot();
      assert w.cursor == currentSegment && w.firstNight == firstNight && w.runCupid == runCupid;
      SegmentPositions(currentSegment);
      var segment := SegmentAt(currentSegment);
      if segment == Cupid {
        if firstNight && runCupid {
          SettleHere(w);
          RunCupidSegment();
        } else {
          SettlePasses(w);
          AdvanceSegment();
        }
      } else if segment == Lovers {
        if firstNight {
          SettleHere(w);
          RunLoversSegment();
        } else {
          SettlePasses(w);
          AdvanceSegment();
        }
      } else if segment == Day {
        SettleHere(w);
        NightFinished();
      } else {
        SettlePasses(w);
        AdvanceSegment();
      }
    }

    method AdvanceSegment()
      requires Valid()
      modifies this, game`loversFlag, game`loverIsHunter
      ensures Valid() && Snapshot() == Advance(old(Snapshot()))
      decreases 2 * (7 - (currentSegment + 1) % |SegmentOrder|) + 2
    {
      ghost var w0 := Snapshot();
      currentSegment := (currentSegment + 1) % |SegmentOrder|;
      AdvanceSettles(w0, Snapshot());
      RunCurrentSegment();
    }

    method RunCupidSegment()
      requires Valid()
      modifies this`log
      ensures Valid() && Snapshot() == RunCupid(old(Snapshot()))
    {
      if game.cupid.Some? {
        log := log + [CupidonChoice(game.cupid.value)];
      }
    }

    method RunLoversSegment()
      requires Valid()
      modifies this`log, game`loversFlag, game`loverIsHunter
      ensures Valid() && Snapshot() == RunLovers(old(Snapshot()))
    {
      if |game.lovers| != 2 {
        return;
      }
      var player1 := game.players[game.lovers[0]];
      var player2 := game.players[game.lovers[1]];
      SetIfLoversAreOppositeTeams(player1, player2);
      if player1.role == Some(Roles.Hunter) || player2.role == Some(Roles.Hunter) {
        game.loverIsHunter := true;
      }
      log := log + [AlertLovers(player1.sid, player2.name), AlertLovers(player2.sid, player1.name),
                    LoverCanClose(player1.sid), LoverCanClose(player2.sid)];
    }

    method SetIfLoversAreOppositeTeams(player1: Player, player2: Player)
      requires Valid()
      modifies game`loversFlag
      ensures Valid() && game.loversFlag == SameTeamFlag(player1, player2, old(game.loversFlag))
    {
      if player1.role == Some(Roles.Werewolf) && player2.role == Some(Roles.Werewolf) {
        game.loversFlag := true;
      }
      if player1.role == Some(Roles.Villager) && player2.role == Some(Roles.Villager) {
        game.loversFlag := true;
      }
    }

    method NightFinished()
      requires Valid()
      modifies this`firstNight, this`log
      ensures Valid() && Snapshot() == NightEnded(old(Snapshot()))
    {
      firstNight := false;
      StartDayVote();
    }

    method StartDayVote()
      requires Valid()
      modifies this`log
      ensures Valid() && log == old(log) + [DayVote]
    {
      log := log + [DayVote];
    }

    method AlternativeCountVotes()
      requires Valid()
      modifies this, game`players, game`werewolvesAlive, game`villagersAlive, game`loversFlag,
        game`loverIsHunter, game`hunterIsAlive, game`winners
      ensures Valid() && Snapshot() == CountVotes(old(Snapshot()))
    {
      ghost var w0 := Snapshot();
      deathQueue := [];
      awaitingHunter := false;
      CountVotesSteps(w0, Snapshot());
      ProcessVoteDeaths();
      ProcessDeathQueue();
    }

    method ProcessVoteDeaths()
      requires Valid()
      modifies this`deathQueue, game`players
      ensures Valid() && Snapshot() == QueueVoteDeaths(old(Snapshot()), old(game.GetTopVotedPlayers()))
    {
      var topPlayers := game.GetTopVotedPlayers();
      var i := 0;
      while i < |topPlayers|
        invariant 0 <= i <= |topPlayers| && Valid()
        invariant Snapshot() == QueueVoteDeaths(old(Snapshot()), topPlayers[..i])
      {
        VoteStep(old(Snapshot()), topPlayers, i);
        QueueVotedPlayer(topPlayers[i]);
        i := i + 1;
      }
      assert topPlayers[..|topPlayers|] == topPlayers;
    }

    /** The body of the vote loop: queue the voted player, then that player's lover. */
    method QueueVotedPlayer(playerSid: string)
      requires Valid()
      modifies this`deathQueue, game`players
      ensures Valid() && Snapshot() == QueueVoteDeath(old(Snapshot()), playerSid)
    {
      ghost var before := Snapshot();
      var player := game.GetPlayer(playerSid);
      if player.Some? {
        QueueDeath(player.value, "Vote");
        VoteStepSteps(before, playerSid, Snapshot());
        if HasLover(player.value) {
          var lover := game.GetPlayer(player.value.loverSid.value);
          if lover.Some? {
            QueueDeath(lover.value, "Love");
          }
        }
      } else {
        VoteStepUnknown(before, playerSid);
      }
    }

    /** Queue `player` (a roster entry) unless a player with the same sid is already queued. */
    method QueueDeath(player: Player, cause: string)
      requires Valid() && player.sid in game.players && game.players[player.sid] == player
      modifies this`deathQueue, game`players
      ensures Valid() && Snapshot() == WithDeathQueued(old(Snapshot()), player.sid, cause)
    {
      if player.sid !in deathQueue {
        RosterUpdate(game.players, game.order, player.sid, player.(deathCause := Some(cause)));
        game.players := game.players[player.sid := player.(deathCause := Some(cause))];
        deathQueue := deathQueue + [player.sid];
      }
    }

    method ProcessDeathQueue()
      requires Valid()
      modifies this, game`players, game`werewolvesAlive, game`villagersAlive, game`loversFlag,
        game`loverIsHunter, game`hunterIsAlive, game`winners
      ensures Valid() && Snapshot() == Process(old(Snapshot()))
      decreases |deathQueue|, 1
    {
      ghost var w0 := Snapshot();
      if deathQueue == [] {
        FinishIsProcess(w0);
        FinishDeathQueueProcessing();
        return;
      }
      var currentPlayer := game.players[deathQueue[0]];
      if currentPlayer.role == Some(Roles.Hunter) && game.hunterIsAlive {
        game.hunterIsAlive := false;
        log := log + [HunterSelection(currentPlayer.sid)];
        ProcessStopsForHunter(w0, Snapshot());
        return;
      }
      ProcessPops(w0);
      ExecuteHead();
      ProcessDeathQueue();
    }

    /** The queue's head is executed, then popped. */
    method ExecuteHead()
      requires Valid() && deathQueue != []
      modifies this`log, this`deathQueue, game`players, game`werewolvesAlive, game`villagersAlive, game`loversFlag
      ensures Valid() && Snapshot() == Popped(old(Snapshot()))
      ensures |deathQueue| < old(|deathQueue|)
    {
      var currentPlayer := game.players[deathQueue[0]];
      ExecuteDeathSequence(currentPlayer);
      deathQueue := deathQueue[1..];
    }

    method ExecuteDeathSequence(player: Player)
      requires Valid() && player.sid in game.players && game.players[player.sid] == player
      modifies this`log, game`players, game`werewolvesAlive, game`villagersAlive, game`loversFlag
      ensures Valid() && Snapshot() == Execute(old(Snapshot()), player.sid)
    {
      MarkPlayerDead(player);
      RecordDeath(player);
    }

    /** The counters, the lovers flag and the alert that follow a death. */
    method RecordDeath(player: Player)
      requires Valid() && player.sid in game.players && game.players[player.sid] == player.(isAlive := false)
      modifies this`log, game`werewolvesAlive, game`villagersAlive, game`loversFlag
      ensures Valid() && Snapshot() == AfterDeath(old(Snapshot()), player.sid)
    {
      var counts := CountsAfterDeath(player, game.werewolvesAlive, game.villagersAlive);
      var flag := if (player.role == Some(Roles.Werewolf) || player.role == Some(Roles.Villager)) && HasLover(player) then false else game.loversFlag;
      game.werewolvesAlive, game.villagersAlive, game.loversFlag, log := counts.0, counts.1, flag, log + [AlertDead(player.sid)];
    }

    /** `player.is_alive = False` on the roster entry. */
    method MarkPlayerDead(player: Player)
      requires Valid() && player.sid in game.players && game.players[player.sid] == player
      modifies game`players
      ensures Valid() && Snapshot() == MarkDead(old(Snapshot()), player.sid)
    {
      RosterUpdate(game.players, game.order, player.sid, player.(isAlive := false));
      game.players := game.players[player.sid := player.(isAlive := false)];
    }

    method FinishDeathQueueProcessing()
      requires Valid()
      modifies this, game`players, game`werewolvesAlive, game`villagersAlive, game`loversFlag,
        game`loverIsHunter, game`hunterIsAlive, game`winners
      ensures Valid() && Snapshot() == Finish(old(Snapshot()))
      decreases |deathQueue|, if deathQueue == [] then 0 else 2
    {
      ghost var w0 := Snapshot();
      FinishSplits(w0);
      if deathQueue != [] {
        ProcessDeathQueue();
        return;
      }
      awaitingHunter := false;
      FinishEmptySteps(w0, Snapshot());
      var isGameOver := game.CheckGameOver();
      if !isGameOver {
        AdvanceSegment();
      }
    }

    method CheckGameOver()
      requires Valid()
      modifies this, game`loversFlag, game`loverIsHunter, game`winners
      ensures Valid() && Snapshot() == GameChecked(old(Snapshot()))
    {
      GameCheckedSteps(Snapshot());
      var isGameOver := game.CheckGameOver();
      if !isGameOver {
        StartNight();
      }
    }
  }
}
