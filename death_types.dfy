/** Death triggers and pending-death records (core/death_types.py). */
module DeathTypes {

  datatype DeathTrigger = WerewolfKill | WitchKill | VillageVote | HunterRevenge | LoverDeath

  const AllTriggers: seq<DeathTrigger> := [WerewolfKill, WitchKill, VillageVote, HunterRevenge, LoverDeath]

  function TriggerValue(t: DeathTrigger): string
  {
    match t
    case WerewolfKill => "werewolf_kill"
    case WitchKill => "witch_kill"
    case VillageVote => "village_vote"
    case HunterRevenge => "hunter_revenge"
    case LoverDeath => "lover_death"
  }

  /** Exactly five triggers, each with its own value. */
  lemma TriggersDistinct(t1: DeathTrigger, t2: DeathTrigger)
    ensures t1 in AllTriggers && |AllTriggers| == 5
    ensures TriggerValue(t1) == TriggerValue(t2) <==> t1 == t2
  {
  }

  /** A dataclass with value equality: one player, one trigger, a processed flag. */
  datatype DeathEffect = DeathEffect(playerSid: string, trigger: DeathTrigger, processed: bool)

  /** `DeathEffect(player_sid, trigger)` with the default `processed=False`. */
  function NewEffect(playerSid: string, trigger: DeathTrigger): (e: DeathEffect)
    ensures !e.processed
  {
    DeathEffect(playerSid, trigger, false)
  }

  /** Dataclass equality compares all three fields. */
  lemma EffectEquality(a: DeathEffect, b: DeathEffect)
    ensures a == b <==> a.playerSid == b.playerSid && a.trigger == b.trigger && a.processed == b.processed
    ensures NewEffect(a.playerSid, a.trigger) == a <==> !a.processed
  {
  }
}
