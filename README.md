# Loup-garou game engine, modelled in Dafny

Loup-garou ("the werewolves of Millers Hollow") is a social deduction game. A roster of
players receives secret roles: werewolves, plain villagers, and villagers with powers (seer,
witch, hunter, Cupid). Play then alternates nights and days. The backend keeps the game
state in memory and reacts to socket events:

- joins, which fill the roster and deal the roles once it is large enough;
- Cupid's choice of two lovers;
- the werewolves' kill and the witch's heal or kill potion;
- the day vote, which kills the most-voted players and, in cascade, their lovers;
- the hunter's revenge shot.

A segment manager walks a fixed cycle of eight night and day segments. It suspends on a
death queue while the hunter chooses a target, and it decides after each round of deaths
whether the werewolves or the villagers have won. The repository also holds an older
backend (a role dealer, a vote tally kept beside the game, a legacy player and game), a
temporary copy of the event handlers, and a React Native frontend whose Cupid and Hunter
screens apply small selection rules before sending a choice.

The project models that core module by module:

- `Wrappers`, `Seqs` (wrappers.dfy, seqs.dfy): `Option`/`Result`/`Outcome`; Python list idioms (append if absent, remove first occurrence).
- `Roles` (roles.dfy): the `PlayerRole` enum and the team table of core/roles.py.
- `DeathTypes` (death_types.dfy): the `DeathTrigger` enum and the `DeathEffect` record.
- `Players` (player.dfy): the core `Player` dataclass and `to_dict`.
- `Shuffling` (shuffle.dfy): CPython's `random.shuffle`, with the random draws as a parameter.
- `GameCore` (game.dfy): the `Game` class: roster, role dealing, lovers, pending deaths, the sorted vote tally, kills, the win check.
- `Segments` (segments.dfy): the `SegmentManager` class: cursor, night gating, the death queue, the hunter suspension.
- `Deaths` (death_manager.dfy): the alternative `DeathManager`.
- `GameStates` (game_state.dfy): the older `GameState` with its last-vote-wins ballot box.
- `Events`, `TempEvents` (events.dfy, events_temp.dfy): the socket handlers of the two backends as state transitions.
- `Server`, `LegacyRoles`, `LegacyPlayers`, `LegacyGames` (server.dfy, legacy_roles.dfy, legacy_player.dfy, legacy_game.dfy): the older backend, with its module-level roster in a `Server` class.
- `FrontendPlayers`, `CupidonScreen`, `HunterScreen`, `FrontendRoles` (frontend_players.dfy, cupidon.dfy, hunter.dfy, frontend_roles.dfy): the candidate filter, the two selection screens and the French role cards.

Objects whose fields the source updates in place are classes with `modifies` frames:
`Game`, `SegmentManager`, `DeathManager`, `GameState`, both `GameEvents`, the legacy
`Player` and `Game`, and the `Server` module state. Each state-changing method is proved
against a function of the old state. For the segment manager that function is `World`, a
snapshot of every field it reads. Recursive Python call chains become functions on `World`:
`Settle` for `run_current_segment`, `Advance`, `Process` for `process_death_queue`, and
`Drain`. Lemmas then state what the source promises about those functions.

A few decisions follow the code rather than the game's rules or the names in the code:

- `set_if_lovers_are_opposite_teams` raises the lovers flag for two werewolves or two
  villagers, that is, for a same-team pair. It never lowers the flag, and the flag starts
  raised. The model keeps exactly that (`Segments.SameTeamFlagNeverClears`).
- `Game.assign_roles` deals seer, Cupid and villagers only; the werewolf entries are
  commented out. It still sets the counters to one werewolf.
- The main backend's `add_player` deals once the roster holds at least six players. The
  temporary backend pads the roster to five with mock players and deals only at exactly six.
- Python truthiness is written out. An empty `lover_sid` counts as no lover (`HasLover`), and
  an empty selection counts as none on the Hunter screen.

## Model

| member | source | states |
|---|---|---|
| Seqs.AppendIfAbsent | loup-garou-backend/core/game.py:85-87 | the sid ends up in the list; everything already there keeps its place; the list grows by at most one and stays duplicate-free |
| Seqs.RemoveFirstDeletesFirstOccurrence | loup-garou-backend/core/game.py:89-91 | `list.remove` deletes exactly the first occurrence and keeps every other entry in order; an absent sid changes nothing |
| Seqs.RemoveFirstOfDistinct | loup-garou-backend/core/game.py:89-91 | on a duplicate-free list, removal leaves exactly the other sids, still duplicate-free, one shorter when the sid was present |
| Shuffling.SwapPermutes | loup-garou-backend/core/game.py:57 | one exchange step of the shuffle keeps the multiset of roles |
| Shuffling.ShuffleDownPermutes | loup-garou-backend/core/game.py:57 | the downward Fisher-Yates loop keeps length and multiset, whatever the draws |
| Shuffling.ShufflePermutes | loup-garou-backend/server.py:33 | `random.shuffle` yields a permutation of its input for every sequence of draws |
| Roles.FromValue | loup-garou-backend/core/roles.py:4-10 | looking a role up by its string value gives a role that carries that value |
| Roles.AllRolesListed | loup-garou-backend/core/roles.py:4-10 | there are exactly six roles |
| Roles.ValuesDistinct | loup-garou-backend/core/roles.py:4-10 | two roles share a string value only when they are the same role, and the value lookup inverts `.value` |
| Roles.DescriptionsCoverRoles | loup-garou-backend/core/roles.py:20-47 | every role has a description; its team is "Werewolf" exactly for WEREWOLF and "Villager" for the other five |
| DeathTypes.TriggersDistinct | loup-garou-backend/core/death_types.py:5-10 | there are exactly five triggers, with pairwise distinct values |
| DeathTypes.NewEffect | loup-garou-backend/core/death_types.py:13-17 | a new effect starts unprocessed |
| DeathTypes.EffectEquality | loup-garou-backend/core/death_types.py:13-17 | two effects are equal iff sid, trigger and processed flag all agree; an effect equals a fresh one iff it is unprocessed |
| Players.ToDict | loup-garou-backend/core/player.py:14-20 | the dict has exactly the keys name, sid, role and is_alive and no lover_sid; it copies name, sid and liveness; role is null exactly when unassigned |
| Players.DictRoundTrip | loup-garou-backend/core/player.py:6-20 | the dict determines the player up to the fields it omits: reading it back gives the player without lover and death cause |
| Players.NewPlayerReport | loup-garou-backend/core/player.py:6-12 | a new player reports no role, reports alive, and has no lover |
| GameCore.BumpCounts | loup-garou-backend/core/game.py:98-101 | the increment raises the target's count by one and leaves every other count; a new target is appended with count 1 |
| GameCore.InsertSortedPermutes | loup-garou-backend/core/game.py:103-107 | inserting by count keeps the tally sorted descending and is a permutation of the entry plus the tally |
| GameCore.InsertWithCount | loup-garou-backend/core/game.py:103-107 | the insertion goes after every entry of equal count, so the entries of one count keep their order |
| GameCore.InsertCountOf | loup-garou-backend/core/game.py:103-107 | the insertion adds the count of the new key and changes no other count |
| GameCore.InsertDistinct | loup-garou-backend/core/game.py:103-107 | inserting a new key keeps the keys distinct |
| GameCore.InsertKeys | loup-garou-backend/core/game.py:103-107 | the insertion adds exactly the new key to the key set |
| GameCore.SortByCountFacts | loup-garou-backend/core/game.py:103-107 | the stable sort by count descending is sorted, a permutation, keeps the keys and every count, and keeps ties in their prior order |
| GameCore.RecordVoteFacts | loup-garou-backend/core/game.py:96-107 | a vote keeps the tally keyed and sorted, adds the target to the keys, raises its count by one only, and keeps ties in prior order |
| GameCore.KeysWithCountMembers | loup-garou-backend/core/game.py:127-132 | the comprehension keeps exactly the keys whose count equals the given one |
| GameCore.TopVotedAreLeaders | loup-garou-backend/core/game.py:124-133 | the leader query is empty iff there are no votes, and holds exactly the targets whose count is the maximum |
| GameCore.DistinctSetSize | loup-garou-backend/core/game.py:11 | a duplicate-free order has as many sids as elements |
| GameCore.RosterSize | loup-garou-backend/core/game.py:11 | the roster has as many players as the insertion order has sids |
| GameCore.RosterUpdate | loup-garou-backend/core/game.py:26-29 | overwriting an existing player keeps the roster consistent with its order |
| GameCore.AllWithRole | loup-garou-backend/core/game.py:43-44 | every player returned has the role, and every player in the roster with the role is returned |
| GameCore.AllWithRoleAppend | loup-garou-backend/core/game.py:43-44 | the list query over two consecutive parts of the order is the query over the first part followed by the query over the second |
| GameCore.AllWithRoleKeyed | loup-garou-backend/core/game.py:43-44 | with every player stored under its own sid, each returned player is the roster's entry for its sid |
| GameCore.AllWithRoleInOrder | loup-garou-backend/core/game.py:43-44 | with sids as keys and no key repeated, the returned players are listed in strictly increasing insertion position |
| GameCore.FirstWithRole | loup-garou-backend/core/game.py:40-41 | the result has the role and is None exactly when nobody does; when there is one, it is the player under some key of the order before which no key holds the role |
| GameCore.FirstWithRoleIsEarliest | loup-garou-backend/core/game.py:40-41 | in a roster keyed by sid the answer is stored under its own sid and comes no later in insertion order than any other holder of the role |
| GameCore.FirstIsHeadOfAll | loup-garou-backend/core/game.py:40-44 | the single query is the head of the list query, or None when that list is empty |
| GameCore.VictimsShape | loup-garou-backend/core/death_manager.py:27-47 | a kill's victims are empty iff the target is unknown; the target comes first; there are two exactly when it has a lover in the roster |
| GameCore.BaseRoles | loup-garou-backend/core/game.py:49-55 | the pre-shuffle list holds one seer, one Cupid, no werewolf, and villagers for the rest, with at least two entries |
| GameCore.VillagerMultiset | loup-garou-backend/core/game.py:55 | `[VILLAGER] * n` holds n villagers and nothing else |
| GameCore.AssignedRolesFacts | loup-garou-backend/core/game.py:49-57 | the shuffled list is a permutation of the base list, covers the roster, and holds no werewolf |
| GameCore.CountsAfterDeath | loup-garou-backend/core/game.py:109-113 | a death lowers the total by one, and lowers the werewolf count exactly when the player is a werewolf |
| GameCore.LoversFlagDiscountsOneVillager | loup-garou-backend/core/game.py:144-156 | the raised flag acts as one villager fewer, so it can only bring a werewolf win forward, never cancel one |
| GameCore.SliceLength | loup-garou-backend/core/game.py:33 | `mock_names[:count]` keeps min(count, 4) names and never more than the list holds |
| GameCore.MockSidsDistinct | loup-garou-backend/core/game.py:34 | the sids `mock_0` to `mock_3` are pairwise distinct |
| GameCore.Game.constructor | loup-garou-backend/core/game.py:10-24 | a new game has an empty roster, pending list, lovers and tally, both potions, zero counters, no winner, the lovers flag raised and the hunter alive |
| GameCore.Game.AddPlayer | loup-garou-backend/core/game.py:26-29 | the new player is stored under its sid, overwriting any earlier one, and the sid joins the insertion order once |
| GameCore.Game.AddMockPlayers | loup-garou-backend/core/game.py:31-35 | exactly the first min(count, 4) mock players are added under sids `mock_i`; every other player is unchanged, and the roster grows by at most that many |
| GameCore.Game.GetPlayer | loup-garou-backend/core/game.py:37-38 | None exactly when the sid is absent, otherwise the stored player |
| GameCore.Game.GetPlayerByRole | loup-garou-backend/core/game.py:40-41 | None exactly when nobody holds the role; otherwise a roster player with the role whose insertion position is no later than any other holder's, and the head of the list query |
| GameCore.Game.GetPlayersByRole | loup-garou-backend/core/game.py:43-44 | exactly the roster players with the role, listed in insertion order |
| GameCore.Game.AssignRoles | loup-garou-backend/core/game.py:46-71 | each player, in insertion order, gets the shuffled role at its position and nothing else changes; then one werewolf and the rest villagers are counted |
| GameCore.Game.SetTeamsCount | loup-garou-backend/core/game.py:73-75 | the counters split the roster into the given werewolf count and the rest |
| GameCore.Game.SetLovers | loup-garou-backend/core/game.py:77-80 | each of the two players points at the other, nobody else changes, and the lovers list is the pair in order |
| GameCore.Game.AddPendingDeath | loup-garou-backend/core/game.py:85-87 | the sid is appended only if absent |
| GameCore.Game.RemovePendingDeath | loup-garou-backend/core/game.py:89-91 | the sid's first occurrence is removed; exactly the other sids remain |
| GameCore.Game.SetVetoPlayer | loup-garou-backend/core/game.py:93-94 | the veto player is the given sid |
| GameCore.Game.SetPlayerVote | loup-garou-backend/core/game.py:96-107 | the tally becomes the sorted tally with the target's count raised by one, and no other count changes |
| GameCore.Game.UpdateTeamCounts | loup-garou-backend/core/game.py:109-113 | one counter falls by one, chosen by werewolf versus any other role |
| GameCore.Game.KillPlayer | loup-garou-backend/core/game.py:115-122 | an unknown sid changes nothing; otherwise the player is marked dead and the matching counter falls by one |
| GameCore.Game.GetTopVotedPlayers | loup-garou-backend/core/game.py:124-133 | empty iff no votes, otherwise exactly the targets with the maximal count |
| GameCore.Game.ResetPlayerVotes | loup-garou-backend/core/game.py:135-142 | both reset methods empty the tally |
| GameCore.Game.CheckGameOver | loup-garou-backend/core/game.py:144-156 | no werewolves gives "Villagers"; werewolves at least the villagers, less one when the flag is raised, gives "Werewolves"; otherwise false with the winner unchanged |
| GameCore.Deal | loup-garou-backend/core/game.py:58-70 | the zip gives each player in order the role at its position and keeps the roster's keys |
| Seqs.ValuesInOrder | loup-garou-backend/game_state.py:39 | a dictionary's `values()` (here `votes.values()`, and `players.values()` in Game.py) lists the value under each key in the order the keys were first inserted |
| GameStates.TallyCounts | loup-garou-backend/game_state.py:38-40 | the tally loop counts each target exactly as often as it was voted, with one entry per target |
| GameStates.CountAtIndex | loup-garou-backend/game_state.py:38-40 | in a keyed tally, an entry's count is the count of its key |
| GameStates.GameState.Ballots | loup-garou-backend/game_state.py:39 | the ballots are the recorded vote of each voter, in first-vote order |
| GameStates.GameState.RosterSizeOfVotes | loup-garou-backend/game_state.py:8 | there is one vote per recorded voter |
| GameStates.GameState.constructor | loup-garou-backend/game_state.py:3-11 | phase "waiting", round 0, nobody alive, and no votes, night actions or Cupid data |
| GameStates.GameState.StartGame | loup-garou-backend/game_state.py:13-17 | the joined sids are alive, the phase is "night" and the round is 1 |
| GameStates.GameState.ProcessNightAction | loup-garou-backend/game_state.py:19-20 | only the latest action per player is kept |
| GameStates.GameState.ProcessVote | loup-garou-backend/game_state.py:22-24 | a voter who is not alive changes nothing; otherwise the last vote wins and the voter is recorded once |
| GameStates.GameState.SetCupidonSid | loup-garou-backend/game_state.py:43-44 | Cupid's sid is recorded |
| GameStates.GameState.CountVotes | loup-garou-backend/game_state.py:35-41 | None exactly when nobody voted; otherwise a target with the maximal tally, the first-tallied one on a tie |
| GameStates.TallyBallots | loup-garou-backend/game_state.py:38-40 | the counting loop builds the tally function |
| GameStates.FirstMax | loup-garou-backend/game_state.py:41 | `max` by count returns the first entry of maximal count |
| Deaths.Kill | loup-garou-backend/core/death_manager.py:15-25 | a kill keeps the roster's keys |
| Deaths.KillAll | loup-garou-backend/core/death_manager.py:34-45 | a series of kills keeps the roster's keys |
| Deaths.KillEffect | loup-garou-backend/core/death_manager.py:15-25 | an unknown sid does nothing; otherwise only that player dies, exactly one counter falls by role, and the player is appended to the queued deaths |
| Deaths.KillAllEffect | loup-garou-backend/core/death_manager.py:34-45 | killing known sids lowers the total by their number, extends the queued deaths by as many, kills each of them and spares everybody else |
| Deaths.KillIgnoresLiveness | loup-garou-backend/core/death_manager.py:15-25 | killing a dead player counts again: two kills of one player lower the total by two |
| Deaths.DeathManager.constructor | loup-garou-backend/core/death_manager.py:9-13 | empty pending and queued deaths, not awaiting a special power |
| Deaths.DeathManager.KillPlayer | loup-garou-backend/core/death_manager.py:15-25 | the manager's state becomes the kill of the old state |
| Deaths.DeathManager.HandleKill | loup-garou-backend/core/death_manager.py:27-47 | it returns [] for an unknown target, [target] without a known lover, and [target, lover] otherwise, and kills each returned sid |
| Deaths.DeathManager.UpdateTeamCounts | loup-garou-backend/core/death_manager.py:49-54 | WEREWOLF lowers the werewolf count; every other role lowers the villager count |
| Deaths.DeathManager.AddPendingDeath | loup-garou-backend/core/death_manager.py:56-59 | the sid is appended only if absent |
| Deaths.DeathManager.RemovePendingDeath | loup-garou-backend/core/death_manager.py:61-64 | the sid's first occurrence is removed; an absent sid changes nothing |
| Segments.SegmentPositions | loup-garou-backend/segments/segment_manager.py:52-62 | CUPID is at 0, LOVERS at 1, and DAY at 7 (and at -1 through Python's negative index) |
| Segments.SkeletonUpdate | loup-garou-backend/segments/segment_manager.py:313-318 | changing a player's death cause or liveness leaves the roster's sids, roles and lovers alone |
| Segments.SkeletonFacts | loup-garou-backend/segments/segment_manager.py:313-318 | two rosters with the same skeleton have the same sids, roles and lovers |
| Segments.RunCupid | loup-garou-backend/segments/segment_manager.py:155-164 | Cupid's segment only notifies Cupid, and only when there is one; the cursor stays |
| Segments.SameTeamFlagNeverClears | loup-garou-backend/segments/segment_manager.py:384-395 | the flag is never lowered, and is raised only for two werewolves or two villagers |
| Segments.LoverPair | loup-garou-backend/segments/segment_manager.py:368-369 | the pair exists exactly when there are two lovers and both are in the roster |
| Segments.RunLovers | loup-garou-backend/segments/segment_manager.py:365-382 | the lovers segment changes only the flags and the notices, keeps the cursor, and does nothing without a pair |
| Segments.NightEnded | loup-garou-backend/segments/segment_manager.py:234-247 | reaching DAY ends the first night and announces the day vote |
| Segments.Halt | loup-garou-backend/segments/segment_manager.py:105-128 | the cursor's run of immediate advances stops at a segment that does something, before position 8 |
| Segments.Settle | loup-garou-backend/segments/segment_manager.py:105-128 | running the current segment keeps the state well formed and touches only the night fields |
| Segments.Advance | loup-garou-backend/segments/segment_manager.py:130-144 | advancing keeps the state well formed and touches only the night fields |
| Segments.NightStarted | loup-garou-backend/segments/segment_manager.py:98-103 | starting a night keeps the state well formed and touches only the night fields |
| Segments.HaltAt | loup-garou-backend/segments/segment_manager.py:108-128 | from position c the run stops at CUPID when first night and Cupid are on, else at LOVERS on the first night, else at DAY |
| Segments.SettleHaltsAt | loup-garou-backend/segments/segment_manager.py:105-144 | where running from a started cursor ends, which segment body then runs, and that the first night ends exactly at DAY |
| Segments.LaterNightsGoStraightToDay | loup-garou-backend/segments/segment_manager.py:98-128 | after the first night, starting a night runs straight to DAY |
| Segments.LaterAdvancesGoStraightToDay | loup-garou-backend/segments/segment_manager.py:130-144 | after the first night, any advance runs straight to DAY |
| Segments.FirstNightStartsWithCupid | loup-garou-backend/segments/segment_manager.py:98-110 | the first night with Cupid on stops at CUPID and runs its segment |
| Segments.WithDeathQueued | loup-garou-backend/segments/segment_manager.py:269-279 | each sid is queued at most once, and the death cause is set only when it is newly queued |
| Segments.QueueVoteDeath | loup-garou-backend/segments/segment_manager.py:257-267 | queueing one voted player changes only the roster and the queue |
| Segments.OneVoteQueue | loup-garou-backend/segments/segment_manager.py:257-267 | one voted player queues itself, then its lover when known, each only if absent |
| Segments.QueueVoteDeaths | loup-garou-backend/segments/segment_manager.py:257-267 | queueing the vote deaths changes only the roster and the queue |
| Segments.VictimsBySkeleton | loup-garou-backend/segments/segment_manager.py:257-267 | who a vote kills depends only on sids and lovers, not on liveness or causes |
| Segments.AppendAllIfAbsent | loup-garou-backend/segments/segment_manager.py:269-279 | appending several sids if absent keeps the old queue as a prefix, stays duplicate-free, and holds exactly the old and the new sids |
| Segments.AppendAllIfAbsentSplit | loup-garou-backend/segments/segment_manager.py:259-267 | appending two lists in a row is appending their concatenation |
| Segments.VoteDeathsQueue | loup-garou-backend/segments/segment_manager.py:257-267 | the queue after the vote is the old queue followed by every tied top-voted player and its lover, in that order, without repeats |
| Segments.Execute | loup-garou-backend/segments/segment_manager.py:305-329 | an execution marks the player dead, lowers the werewolf counter for a werewolf and the villager counter for anyone else, lowers the lovers flag exactly when a werewolf or villager with a lover dies, sends one death alert and leaves the queue alone |
| Segments.AfterDeath | loup-garou-backend/segments/segment_manager.py:308-327 | after the kill the counter matching the role falls by one, the lovers flag falls for a werewolf or villager with a lover and is otherwise kept, one death alert is sent, and the roster and queue are left alone |
| Segments.MarkDead | loup-garou-backend/segments/segment_manager.py:307 | only the player's liveness changes |
| Segments.Popped | loup-garou-backend/segments/segment_manager.py:300-301 | executing the head pops exactly the head |
| Segments.Drain | loup-garou-backend/segments/segment_manager.py:281-303 | processing the queue keeps the game state valid and changes in the roster only liveness and causes, over the same players |
| Segments.DrainFrame | loup-garou-backend/segments/segment_manager.py:281-303 | processing the queue leaves the cursor, the night flags, the hunter wait and the winner unchanged |
| Segments.DrainCount | loup-garou-backend/segments/segment_manager.py:281-303 | the pass executes at most the queue's length |
| Segments.DeathNotices | loup-garou-backend/segments/segment_manager.py:321 | one death alert per executed player in queue order |
| Segments.DrainQueue | loup-garou-backend/segments/segment_manager.py:281-303 | the queue is popped in FIFO order: what remains is a suffix of the old queue |
| Segments.DrainCounters | loup-garou-backend/segments/segment_manager.py:305-311 | each executed death lowers the total count by one and neither counter rises |
| Segments.DrainTeamCounts | loup-garou-backend/segments/segment_manager.py:281-311 | over a whole pass the werewolf counter falls by the number of executed werewolves and the villager counter by the number of other executed players |
| Segments.DrainLoversFlag | loup-garou-backend/segments/segment_manager.py:281-327 | after a pass the lovers flag is still raised exactly when it was raised before and no executed werewolf or villager had a lover |
| Segments.DrainLog | loup-garou-backend/segments/segment_manager.py:290-321 | the notices are one death alert per executed player, in queue order, then the hunter's selection request if it suspended |
| Segments.DrainHunter | loup-garou-backend/segments/segment_manager.py:290-298 | the pass stops early only at a hunter while the hunter flag is set, and then clears that flag |
| Segments.DrainSpares | loup-garou-backend/segments/segment_manager.py:281-303 | players not executed keep their state |
| Segments.DrainKills | loup-garou-backend/segments/segment_manager.py:300-307 | every executed player is dead afterwards |
| Segments.FinishEmpty | loup-garou-backend/segments/segment_manager.py:339-350 | on an empty queue the game-over check runs; a winner stops the cycle, otherwise the cursor advances |
| Segments.Process | loup-garou-backend/segments/segment_manager.py:281-303 | processing keeps the state well formed and the roster's skeleton |
| Segments.Finish | loup-garou-backend/segments/segment_manager.py:331-350 | finishing keeps the state well formed and the roster's skeleton |
| Segments.CountVotes | loup-garou-backend/segments/segment_manager.py:249-255 | the alternative count keeps the state well formed and the roster's skeleton |
| Segments.GameChecked | loup-garou-backend/segments/segment_manager.py:352-363 | the game-over step changes only the winner or starts a night |
| Segments.ProcessEndsTurn | loup-garou-backend/segments/segment_manager.py:281-350 | after the deaths, a non-empty queue means the hunter suspended it; otherwise a winner is recorded with the cursor halted, or the cycle advances |
| Segments.SettleHere | loup-garou-backend/segments/segment_manager.py:105-128 | at a halting segment, running it runs that segment's body |
| Segments.SettlePasses | loup-garou-backend/segments/segment_manager.py:111-126 | at any other segment, running it advances |
| Segments.AdvanceSettles | loup-garou-backend/segments/segment_manager.py:143-144 | advancing moves the cursor to (i + 1) mod 8 and runs it |
| Segments.StartSettles | loup-garou-backend/segments/segment_manager.py:100-103 | starting a night sets the cursor to 0 and runs it |
| Segments.ProcessPops | loup-garou-backend/segments/segment_manager.py:300-303 | without a waiting hunter, processing executes the head and continues with the rest |
| Segments.ProcessStopsForHunter | loup-garou-backend/segments/segment_manager.py:290-298 | a hunter at the head while the flag is set clears the flag, asks for a target and returns with the queue unchanged |
| Segments.FinishIsProcess | loup-garou-backend/segments/segment_manager.py:283-285 | finishing and processing agree |
| Segments.FinishSplits | loup-garou-backend/segments/segment_manager.py:334-350 | with deaths left, finishing processes them; on an empty queue both run the game-over step |
| Segments.FinishEmptySteps | loup-garou-backend/segments/segment_manager.py:340-350 | with a winner the state only records it; without one the cycle advances |
| Segments.GameCheckedSteps | loup-garou-backend/segments/segment_manager.py:352-363 | with a winner the state only records it; without one a new night starts |
| Segments.CountVotesSteps | loup-garou-backend/segments/segment_manager.py:249-255 | the alternative count clears the queue, queues the vote deaths and processes them |
| Segments.VoteStep | loup-garou-backend/segments/segment_manager.py:259-267 | the vote loop handles one top-voted player per step, in order |
| Segments.VoteStepSteps | loup-garou-backend/segments/segment_manager.py:261-267 | one step queues the player with cause "Vote", then its known lover with cause "Love" |
| Segments.VoteStepUnknown | loup-garou-backend/segments/segment_manager.py:261-262 | a voted sid missing from the roster queues nothing |
| Segments.SegmentManager.constructor | loup-garou-backend/segments/segment_manager.py:40-64 | the cursor is -1, first night and Cupid are on, the queue is empty, nobody waits for the hunter |
| Segments.SegmentManager.StartNight | loup-garou-backend/segments/segment_manager.py:98-103 | the state becomes the night started from the old one |
| Segments.SegmentManager.RunCurrentSegment | loup-garou-backend/segments/segment_manager.py:105-128 | the state becomes the settled old state |
| Segments.SegmentManager.AdvanceSegment | loup-garou-backend/segments/segment_manager.py:130-144 | the state becomes the advanced old state |
| Segments.SegmentManager.RunCupidSegment | loup-garou-backend/segments/segment_manager.py:155-164 | the state becomes Cupid's segment run on the old state |
| Segments.SegmentManager.RunLoversSegment | loup-garou-backend/segments/segment_manager.py:365-382 | the state becomes the lovers segment run on the old state |
| Segments.SegmentManager.SetIfLoversAreOppositeTeams | loup-garou-backend/segments/segment_manager.py:384-395 | the flag becomes the same-team rule applied to the old flag |
| Segments.SegmentManager.NightFinished | loup-garou-backend/segments/segment_manager.py:234-241 | the first night is over and the day vote is announced |
| Segments.SegmentManager.StartDayVote | loup-garou-backend/segments/segment_manager.py:243-247 | only the day-vote notice is added |
| Segments.SegmentManager.AlternativeCountVotes | loup-garou-backend/segments/segment_manager.py:249-255 | the state becomes the alternative count of the old state |
| Segments.SegmentManager.ProcessVoteDeaths | loup-garou-backend/segments/segment_manager.py:257-267 | every top-voted player and its lover are queued, in that order |
| Segments.SegmentManager.QueueVotedPlayer | loup-garou-backend/segments/segment_manager.py:259-267 | one voted player and its lover are queued |
| Segments.SegmentManager.QueueDeath | loup-garou-backend/segments/segment_manager.py:269-279 | the player is queued once, with its cause set only when newly queued |
| Segments.SegmentManager.ProcessDeathQueue | loup-garou-backend/segments/segment_manager.py:281-303 | the state becomes the processed old state |
| Segments.SegmentManager.ExecuteHead | loup-garou-backend/segments/segment_manager.py:300-301 | the head is executed and popped, and the queue shrinks |
| Segments.SegmentManager.ExecuteDeathSequence | loup-garou-backend/segments/segment_manager.py:305-329 | the state becomes the execution of that player, whose counter and lovers-flag rules Execute states |
| Segments.SegmentManager.RecordDeath | loup-garou-backend/segments/segment_manager.py:308-327 | the state becomes the bookkeeping after the kill, whose counter and lovers-flag rules AfterDeath states |
| Segments.SegmentManager.MarkPlayerDead | loup-garou-backend/segments/segment_manager.py:307 | only the player's liveness changes |
| Segments.SegmentManager.FinishDeathQueueProcessing | loup-garou-backend/segments/segment_manager.py:331-350 | the state becomes the finished old state |
| Segments.SegmentManager.CheckGameOver | loup-garou-backend/segments/segment_manager.py:352-363 | the state becomes the checked old state: a winner is recorded, or a new night starts |
| Events.WithKillFacts | loup-garou-backend/server/events.py:192-196 | a kill appends the known lover and then the target, each only if absent; nothing queued earlier moves; the list stays duplicate-free |
| Events.HealRemovesPair | loup-garou-backend/server/events.py:76-84 | the intended heal removes exactly the last victim and its known lover and keeps the list duplicate-free |
| Events.HealAsWrittenWithoutLover | loup-garou-backend/server/events.py:224-235 | for an unbonded victim the handler as written agrees with the intended heal |
| Events.HealAsWrittenKeepsLovers | loup-garou-backend/server/events.py:228-229 | for a bonded victim the handler as written removes nothing, while the intended heal removes both |
| Events.HealAsWrittenExample | loup-garou-backend/server/events.py:228-229 | two lovers pending: as written nothing is healed, intended both are |
| Events.LoverBarrierFiresOnce | loup-garou-backend/server/events.py:170-174 | the counter is never reset, so from a fresh handler only the second alert advances, once |
| Events.VoteClosesAtAliveCount | loup-garou-backend/server/events.py:264-287 | counted from reset counters, the vote closes on exactly the alive-count-th vote |
| Events.QueueKill | loup-garou-backend/server/events.py:192-196 | the pending deaths become the kill's list |
| Events.HealLastVictim | loup-garou-backend/server/events.py:76-84 | when there is a victim to heal, the pending deaths lose the victim and lover and the potion is spent; otherwise nothing changes |
| Events.QueueTarget | loup-garou-backend/server/events.py:188-196 | a known target is queued with its lover; an unknown one changes nothing; the manager's state is untouched |
| Events.HealPending | loup-garou-backend/server/events.py:76-84 | the mock heal succeeds exactly when there is a victim to heal, removing the victim and the known lover |
| Events.HealPendingAsWritten | loup-garou-backend/server/events.py:226-232 | an empty list, an unknown last victim and a bonded last victim fail with the list and potion unchanged; otherwise exactly the victim leaves and the potion is spent |
| Events.DealAndStart | loup-garou-backend/server/events.py:145-148 | the roster keeps its sids; the i-th player in insertion order keeps its record but for the i-th role of the shuffled base roles; one werewolf and the rest villagers are counted, and a night starts |
| Events.DealtAlongFacts | loup-garou-backend/core/game.py:47-70 | after a deal every player keeps its record but for the role, holds a role from the base list (never the werewolf), and the shuffled list is a permutation of the base list |
| Events.StartIfFull | loup-garou-backend/server/events.py:145-148 | six or more joined players are dealt as DealAndStart states and a night starts; fewer change neither the roster nor the manager |
| Events.JoinGame | loup-garou-backend/server/events.py:127 | the new player is stored under its sid |
| Events.WithMocks | loup-garou-backend/server/events.py:33-36 | the mock players' sids join the roster |
| Events.JoinAll | loup-garou-backend/server/events.py:33-36 | every listed mock player joins, in order, later entries winning |
| Events.GameEvents.constructor | loup-garou-backend/server/events.py:13-21 | all counters are 0 and there are no mock controllers |
| Events.GameEvents.WerewolfKill | loup-garou-backend/server/events.py:185-201 | an unknown target fails before any change and without advancing; otherwise the lover then the target are queued and the segment advances once |
| Events.GameEvents.WitchHealVictim | loup-garou-backend/server/events.py:224-235 | the heal as written: only an unbonded, known last victim leaves the pending deaths and spends the potion; every failure, a bonded victim included, leaves both as they were; the segment advances in every case |
| Events.GameEvents.WitchKillVictim | loup-garou-backend/server/events.py:237-254 | a known target is queued with its lover and the potion is spent; the segment advances even when the lookup fails |
| Events.GameEvents.WitchPass | loup-garou-backend/server/events.py:256-262 | the segment advances |
| Events.GameEvents.CupidonSelection | loup-garou-backend/server/events.py:153-168 | the segment advances |
| Events.GameEvents.LoverAlertClosed | loup-garou-backend/server/events.py:170-174 | the counter rises by one, and the segment advances exactly when it reaches 2 |
| Events.GameEvents.ResetCounters | loup-garou-backend/server/events.py:280-282 | both vote counters are 0 |
| Events.GameEvents.SetAlivePlayersCount | loup-garou-backend/server/events.py:284-287 | the alive count is werewolves plus villagers |
| Events.GameEvents.CountVote | loup-garou-backend/server/events.py:264-276 | the vote is tallied, the alive count is set lazily, and the vote closes when the count reaches it, resetting both counters |
| Events.GameEvents.VoteKill | loup-garou-backend/server/events.py:264-278 | as the vote count, then on closing the game-over check runs on the tallied state |
| Events.GameEvents.HunterSelection | loup-garou-backend/server/events.py:212-222 | an unknown target changes nothing; otherwise it dies and its counter falls |
| Events.GameEvents.AddPlayer | loup-garou-backend/server/events.py:121-151 | a missing name fails before any change; otherwise the joiner is added as a new player; below six that is the only change; from six on the joined roster is dealt position by position from the shuffled base roles, and a night starts |
| Events.GameEvents.AddMockPlayers | loup-garou-backend/server/events.py:25-51 | no controller fails before any change; otherwise the controller owns the listed sids, the mocks join; below six that is the only change; from six on the joined roster is dealt position by position from the shuffled base roles, and a night starts |
| Events.GameEvents.MockAction | loup-garou-backend/server/events.py:66-96 | each action kind has its effect (vote, kill with lover, heal, witch kill); a heal that finds no known last victim leaves the pending deaths and the heal potion; the heal potion changes only on a heal, the kill potion only on a witch kill of a known target, and the pending deaths only on a kill of a known target or a heal |
| Events.GameEvents.MockPlayerAction | loup-garou-backend/server/events.py:53-99 | an unknown controller or a mock it does not own is rejected before any change, both potions included; otherwise the action runs with MockAction's effects and frame, and the segment advances, except on a heal with nobody pending |
| TempEvents.PadCount | loup-garou-backend-temp/server/events.py:45-46 | a roster below five is padded to exactly five; five or more gets no mocks |
| TempEvents.SecondJoinStartsGame | loup-garou-backend-temp/server/events.py:45-68 | from an empty room, the first join pads to five and the second reaches six and starts the game; a third goes past six |
| TempEvents.PaddingFillsToFive | loup-garou-backend-temp/server/events.py:45-68 | every size below four pads to five; from four on a join only adds the joiner; six is reached only from five |
| TempEvents.PadWithMocks | loup-garou-backend-temp/server/events.py:46 | the first count mock players join, nobody leaves, every other player keeps its entry, and the roster grows by at most count |
| TempEvents.Bond | loup-garou-backend-temp/server/events.py:83 | the two players are bonded symmetrically and nobody else changes |
| TempEvents.TempGameEvents.constructor | loup-garou-backend-temp/server/events.py:37-93 | the lover-alert counter starts at 0 |
| TempEvents.TempGameEvents.Join | loup-garou-backend-temp/server/events.py:43-46 | the joiner is added, then the roster is padded with the padding count of mocks; the keys are exactly the old ones, the joiner and those mocks, every entry not overwritten by a mock is the joined one, and the roster holds at most the joined players plus the padding count |
| TempEvents.TempGameEvents.AddPlayer | loup-garou-backend-temp/server/events.py:37-71 | a missing name fails before any change; otherwise the keys are exactly the old ones, the joiner and the padding mocks; below six the joiner's new record, the mocks and the untouched earlier players are stated; at exactly six (reached only without padding) the joined roster is dealt position by position from the shuffled base roles, and a night starts |
| TempEvents.StartAtSix | loup-garou-backend-temp/server/events.py:63-68 | a roster of exactly six is dealt as DealAndStart states and a night starts; any other size changes neither the roster nor the manager |
| TempEvents.TempGameEvents.CupidonSelection | loup-garou-backend-temp/server/events.py:73-87 | fewer than two sids, or an unknown one among the first two, fails with the bonds untouched; otherwise the first two are bonded symmetrically |
| TempEvents.TempGameEvents.LoverAlertClosed | loup-garou-backend-temp/server/events.py:89-93 | the counter rises by one, and the segment advances exactly when it reaches 2 |
| TempEvents.TempGameEvents.WerewolfKill | loup-garou-backend-temp/server/events.py:104-121 | an unknown target fails before any change; otherwise the lover then the target are queued and the segment advances |
| TempEvents.TempGameEvents.WitchHealVictim | loup-garou-backend-temp/server/events.py:123-134 | the heal as written, as in the main backend: a bonded last victim is not healed and keeps the potion; one advance in every case |
| TempEvents.TempGameEvents.WitchKillVictim | loup-garou-backend-temp/server/events.py:136-154 | a known target is queued with its lover and the potion is spent; the segment advances in every case |
| TempEvents.TempGameEvents.WitchPass | loup-garou-backend-temp/server/events.py:156-162 | the segment advances |
| Server.Repeat | loup-garou-backend/server.py:28-30 | `[x] * k` has k entries, each x, and none for a negative k |
| Server.RepeatCount | loup-garou-backend/server.py:28-30 | `[x] * k` holds k copies of x and nothing else |
| Server.RolesToAssignCounts | loup-garou-backend/server.py:21-31 | the pre-shuffle list holds the werewolf count (1 below six players, 2 from six on), one seer, and villagers for the rest |
| Server.RolesToAssignNames | loup-garou-backend/server.py:27-31 | the list holds only "werewolf", "seer" and "villager" |
| Server.RoleAssignmentCounts | loup-garou-backend/server.py:21-34 | the result is a permutation of the pre-shuffle list, with one seer; its length is the player count whenever that exceeds the werewolf count |
| Server.RoleAssignmentCoversRoster | loup-garou-backend/server.py:87 | there is at least one role per player |
| Server.MockSidsDistinct | loup-garou-backend/server.py:46-48 | the mock sids "2" to "6" are distinct |
| Server.Server.constructor | loup-garou-backend/server.py:17-18 | an empty roster beside the vote box |
| Server.Server.Put | loup-garou-backend/server.py:42 | the player is stored under its sid |
| Server.Server.Join | loup-garou-backend/server.py:73-79 | the player is stored under its sid, without a role, and nobody else changes |
| Server.Server.AddMocks | loup-garou-backend/server.py:45-48 | the five mock players Alice to Eve are stored under "2" to "6" |
| Server.Server.AddPlayer | loup-garou-backend/server.py:37-52 | the first join adds the five mocks, giving six players unless the joiner took a mock sid; later joins only add the joiner |
| Server.Server.MockRosterSize | loup-garou-backend/server.py:44-48 | the first join's roster holds the joiner and the mocks |
| Server.Server.FirstJoin | loup-garou-backend/server.py:44 | the roster holds one player exactly on the first join |
| Server.Server.PlayersDistinct | loup-garou-backend/server.py:17 | different sids hold different player objects |
| Server.Server.AssignRoles | loup-garou-backend/server.py:82-94 | each player in roster order gets the role at its position, and lovers are untouched |
| Server.Server.RosterSize | loup-garou-backend/server.py:17 | the roster has one player per sid in join order |
| Server.Server.StartGame | loup-garou-backend/server.py:97-100 | the vote box starts with the roster's sids alive |
| Server.Server.CupidonSelection | loup-garou-backend/server.py:103-115 | fewer than two sids fails; otherwise the two chosen players point at each other, everybody else is unchanged, and roles are untouched |
| Server.LoverAfter | loup-garou-backend/server.py:107-111 | the first sid gets the second as lover, the second gets the first, anyone else keeps theirs |
| Server.PairingSymmetric | loup-garou-backend/server.py:107-111 | for two distinct sids the pairing is symmetric |
| LegacyRoles.GetRoleDescription | loup-garou-backend/roles.py:7-8 | a known key gives its description; an unknown key fails with a KeyError |
| LegacyRoles.DescriptionIgnoresReceiver | loup-garou-backend/roles.py:7-8 | the description does not depend on the role it is called on |
| LegacyRoles.TableShape | loup-garou-backend/roles.py:11-30 | the keys are exactly werewolf, villager, seer and cupidon, and only werewolf is on the Werewolf team |
| LegacyRoles.DealtRolesKnown | loup-garou-backend/roles.py:11-30 | every name the dealer hands out has a description |
| LegacyPlayers.RoleName | loup-garou-backend/roles.py:11-30 | a known key gives the table's display name |
| LegacyPlayers.ReprAgreesWhereWrittenWorks | loup-garou-backend/player.py:7-9 | wherever the repr as written succeeds, the corrected one gives the same text |
| LegacyPlayers.ReprAsWrittenRejectsAssignedRoles | loup-garou-backend/player.py:8 | as written, the repr fails for every non-empty role string |
| LegacyPlayers.ReprAsWrittenExample | loup-garou-backend/player.py:8 | "Ana" with role "seer": as written a TypeError, corrected "Ana - Seer" |
| LegacyPlayers.LegacyPlayer.constructor | loup-garou-backend/player.py:2-5 | name, sid and the given role (none by default) are stored, and there is no lover |
| LegacyPlayers.LegacyPlayer.AssignRole | loup-garou-backend/player.py:11-12 | the role is set and name and sid are unchanged |
| LegacyGames.MatchingMembers | Game.py:16-17 | the comprehension keeps only players with the role, keeps every one of them, and keeps the whole list when all have it |
| LegacyGames.MatchingAppend | Game.py:16-17 | the comprehension over a concatenation is the comprehension over each part, in order |
| LegacyGames.MatchingSplits | Game.py:16-17 | the matches of a list are the matches before any split point followed by those after it |
| LegacyGames.MatchingFacts | Game.py:16-17 | the comprehension keeps exactly the players with the role, and splits at every split point, so it keeps the list's order |
| LegacyGames.FirstMatching | Game.py:13-14 | `next(...)` is None exactly when no player holds the role; otherwise it is the holder at the earliest position |
| Seqs.ValuesInOrderSplit | Game.py:14-17 | the values of a split key order are the values of each part |
| LegacyGames.MatchesSplit | Game.py:16-17 | over the roster, the matches are those under the keys before any split point followed by those after it |
| LegacyGames.MatchesOverKeys | Game.py:16-17 | over the roster, the matches are exactly the stored players holding the role |
| LegacyGames.FirstMatchingOverKeys | Game.py:13-14 | over the roster, the single query is None exactly when nobody holds the role, and otherwise the holder under the earliest key holding it |
| LegacyGames.NoHolderOverKeys | Game.py:13-14 | nobody among the values listed in key order holds the role exactly when no stored player holds it |
| LegacyGames.FirstMatchingIsHead | Game.py:13-14 | the first match is the head of the matches, or None |
| LegacyGames.LastOfAppend | Game.py:19-23 | after an append, the last entry is the appended one |
| LegacyGames.LegacyGame.constructor | Game.py:2-6 | empty roster, pending deaths and night actions |
| LegacyGames.LegacyGame.AddPlayer | Game.py:8-11 | a fresh player is stored under its sid, overwriting, and joins the insertion order once |
| LegacyGames.LegacyGame.PlayersByRole | Game.py:16-17 | only players of the roster with the role, every one of them, and the matches under earlier keys before those under later keys |
| LegacyGames.LegacyGame.PlayerByRole | Game.py:13-14 | None exactly when nobody holds the role; otherwise the holder under a key before which no key holds it, and the head of the list query |
| LegacyGames.LegacyGame.AddPendingDeath | Game.py:19-20 | the player is appended without deduplication, so it becomes the last pending death |
| FrontendPlayers.CandidatesFacts | loup-garou-frontend/components/roles/Cupidon.tsx:37 | the candidates are exactly the players whose name differs from the excluded one, and nobody is dropped when nobody carries it |
| FrontendPlayers.CandidatesAppend | loup-garou-frontend/components/roles/Hunter.tsx:36 | the filter preserves list order: it splits over concatenation |
| CupidonScreen.WithoutMembers | loup-garou-frontend/components/roles/Cupidon.tsx:50 | deselecting drops exactly that sid, and shortens the selection only when it held it |
| CupidonScreen.WithoutDistinct | loup-garou-frontend/components/roles/Cupidon.tsx:50 | deselecting keeps the selection duplicate-free |
| CupidonScreen.ToggleCases | loup-garou-frontend/components/roles/Cupidon.tsx:47-57 | a selected sid is removed; an unselected one is appended below two; at two the selection is unchanged |
| CupidonScreen.ToggleKeepsSelectionValid | loup-garou-frontend/components/roles/Cupidon.tsx:47-57 | a toggle keeps the selection duplicate-free and at most two long |
| CupidonScreen.TapsKeepSelectionValid | loup-garou-frontend/components/roles/Cupidon.tsx:47-57 | any run of taps keeps the selection duplicate-free and at most two long |
| CupidonScreen.ToggleTwiceRestores | loup-garou-frontend/components/roles/Cupidon.tsx:49-52 | tapping an unselected player twice, with room, returns to the start |
| CupidonScreen.ChosenMembers | loup-garou-frontend/components/roles/Cupidon.tsx:60-62 | the chosen players are exactly the candidates whose sid is selected, and they are a subsequence of the candidate list |
| CupidonScreen.ChosenAppend | loup-garou-frontend/components/roles/Cupidon.tsx:60-62 | the filter over a concatenation is the filter over each part, in order |
| CupidonScreen.PairPositions | loup-garou-frontend/components/roles/Cupidon.tsx:60-62 | a two-element subsequence sits at two increasing positions of the list |
| CupidonScreen.SidsMembers | loup-garou-frontend/components/roles/Cupidon.tsx:60-62 | a sid is among the candidates' sids exactly when a candidate carries it |
| CupidonScreen.ChosenCount | loup-garou-frontend/components/roles/Cupidon.tsx:60-62 | with distinct candidate sids, one player is chosen per selected sid among the candidates |
| CupidonScreen.ConfirmSendsPair | loup-garou-frontend/components/roles/Cupidon.tsx:59-63 | confirming two selected candidates sends exactly those two players, as the list of the two candidates in candidate-list order |
| HunterScreen.Toggle | loup-garou-frontend/components/roles/Hunter.tsx:46 | tapping the selected sid clears the selection; tapping any other replaces it, so at most one is selected |
| HunterScreen.ChosenPlayerFacts | loup-garou-frontend/components/roles/Hunter.tsx:50-52 | the lookup finds the first candidate with the sid, and nothing exactly when none has it |
| HunterScreen.ConfirmSendsSelection | loup-garou-frontend/components/roles/Hunter.tsx:49-53 | nothing is sent without a selection; a selected candidate is sent itself |
| FrontendRoles.GetRoleDescription | loup-garou-frontend/constants/roles.ts:44-47 | a known key gives its description, and an unknown key gives undefined |
| FrontendRoles.TableShape | loup-garou-frontend/constants/roles.ts:6-42 | the table has exactly the seven keys, each with a non-empty description |
| FrontendRoles.CardForEveryCoreRole | loup-garou-frontend/constants/roles.ts:6-42 | every backend role value has a card, and the little girl has no backend role |

## Left out

- Sockets, emits, Flask routes, audio (`play_audio`, `playsound`), `print`, `socketio.sleep` and colorama are I/O. Notifications the manager sends appear at most as an appended notice log.
- `random.shuffle` is modelled as CPython's Fisher-Yates loop with the random draws as a parameter.
- The hard-coded name overrides are debug artifacts and are left out: "reda" and "carl" in `assign_roles`, `temporary_function`, and "test" in server.py's `handle_assign_roles`. Because of this, the main backend's `cupidon_selection_complete` only advances. The Cupid's sid is recorded only inside the "carl" override (core/game.py:64-65), so as written `_run_cupid_segment` reads an attribute that was never set and raises; the model's unset Cupid (`None`) stands for that case, and the segment then sends no prompt.
- `segments.count_votes` (server/events.py lines 222 and 277) and `segments.alert_lovers` (the temporary backend, line 84) do not exist in the manager. Calls to them are modelled as no-ops, not as the exceptions they raise.
- `hunter_is_alive` is not defined on `Game`. It is a `Game` field that starts true.
- Player objects are shared in Python: a stale object in the lovers list or the death queue aliases the roster entry. The model keeps players as values in the roster map and keeps sids in those lists.
- An exception caught by a handler is modelled as an `Outcome` failure that stops the state change at that point, except for the lovers segment (next line).
- Segments.RunLovers and Segments.SegmentManager.RunLoversSegment: without exactly two lovers, `player1, player2 = lovers` (segments/segment_manager.py:369) raises a ValueError. The handler that advanced into the segment catches it and reports it; in the main backend that is `cupidon_selection_complete` (server/events.py:153-168) on every first night, unless the left-out "reda"/"carl" override set the lovers. The model leaves the state exactly as the source does on that path: the cursor stays at LOVERS and the flags and notices are untouched. It returns no failure, so that error report is lost, and Events.GameEvents.CupidonSelection reports none.
- A falsy `controllerSid` (None or empty) is modelled as the empty string.
- These routes and helpers only read and emit, and are left out: `seer_check`, `get_players`, `get_werewolves`, `update_werewolf_selection_count`, `alert_player_for_roles`, `alert_dead_player`, and the unused `_run_werewolf_segment`, `_run_witch_heal_segment` and `_run_witch_kill_segment` and `_run_seer_segment`.
- `GameState.handle_night` only emits, so `StartGame` does not model it.
- `Game.get_lovers` only returns the field, and `get_werewolves_count` is the length of the by-role query; neither carries a contract of its own.
- Game.py builds a `GameState` it never imports, so its `game_state` attribute is dropped.
- LegacyGames.LegacyGame.AddPlayer: Game.py:9 calls `Player`, which Game.py never imports, so as written `add_player` raises a NameError; the model builds the legacy player of player.py as the evidently intended class, and does not model that failure.
- Server.Server.AddPlayer: server.py:38 reads `data["name"]`, which raises a KeyError when the name is missing; the model takes the name as given and does not model that failure. The two event modules do model a missing name, as an `Option`.
- Events.GameEvents.WitchHealVictim and TempEvents.TempGameEvents.WitchHealVictim follow the code as written (see Findings). The corrected heal, Events.Heal, is what the mock heal path (server/events.py:76-84) does, and Events.GameEvents.MockAction uses it.
- `json.loads` in server.py's `handle_cupidon_selection` is left out: the handler receives the sid list.
- The legacy `Player.role` can also hold a role record. Only a missing role, a role name and a mapping are modelled.
- The core `Player.__repr__` is text for printing and is not modelled.
- `DeathManager._check_special_powers` only prints and is not modelled.
- `DeathManager.handle_kill` calls `_check_special_powers(target)` a second time for the lover; that call has no effect.
- Frontend rendering, data fetching and navigation are left out; only the selection rules are modelled.
- GameCore.AllWithRole: its own contract states membership only; the insertion order it keeps is stated by GameCore.AllWithRoleAppend and GameCore.AllWithRoleInOrder, and by GameCore.Game.GetPlayersByRole.
- Deaths.Kill: its own contract states only that the roster keys are kept; what a kill does is stated by Deaths.KillEffect.
- Deaths.KillAll: its own contract states only that the roster keys are kept; the effect of the series is stated by Deaths.KillAllEffect.

## Findings

| source | as written | input that shows it | evidently intended | confidence | as-written member | corrected member |
|---|---|---|---|---|---|---|
| loup-garou-backend/server/events.py:228-229 (also loup-garou-backend-temp/server/events.py:127-128) | `remove_pending_death(last_victim.lover_sid)` passes a sid string; the method reads `.sid` from it and raises, so a bonded victim is never healed and the potion is not spent | lovers "a" and "b", pending deaths ["b", "a"]: the heal removes nothing | remove the victim's lover and then the victim, as the mock heal path (lines 76-84) does | not executed | Events.HealAsWritten (Events.HealAsWrittenKeepsLovers, Events.HealAsWrittenExample, Events.HealPendingAsWritten) | Events.Heal (Events.HealRemovesPair) |
| loup-garou-backend/player.py:8 | `self.role["name"]` indexes the role, but the dealer in server.py assigns role names, which are strings; `str(player)` then raises a TypeError, and so does every later `players_update` broadcast | player "Ana" with role "seer" | show the role's display name from the roles table | not executed | LegacyPlayers.ReprAsWritten (LegacyPlayers.ReprAsWrittenRejectsAssignedRoles, LegacyPlayers.ReprAsWrittenExample) | LegacyPlayers.Repr (LegacyPlayers.ReprAgreesWhereWrittenWorks) |
