/** The closed role enumeration and its description table (core/roles.py). */
module Roles {
  import opened Wrappers

  datatype PlayerRole = Villager | Werewolf | Witch | Seer | Hunter | Cupid

  /** Every member of the enumeration, in declaration order. */
  const AllRoles: seq<PlayerRole> := [Villager, Werewolf, Witch, Seer, Hunter, Cupid]

  /** The enum member's string value (`role.value`). */
  function Value(r: PlayerRole): string
  {
    match r
    case Villager => "villager"
    case Werewolf => "werewolf"
    case Witch => "witch"
    case Seer => "seer"
    case Hunter => "hunter"
    case Cupid => "cupid"
  }

  /** Lookup by value (`PlayerRole(v)`); `None` where Python raises ValueError. */
  function FromValue(v: string): (r: Option<PlayerRole>)
    ensures r.Some? ==> Value(r.value) == v
  {
    if v == "villager" then Some(Villager)
    else if v == "werewolf" then Some(Werewolf)
    else if v == "witch" then Some(Witch)
    else if v == "seer" then Some(Seer)
    else if v == "hunter" then Some(Hunter)
    else if v == "cupid" then Some(Cupid)
    else None
  }

  lemma AllRolesListed(r: PlayerRole)
    ensures r in AllRoles && |AllRoles| == 6
  {
  }

  /** The six values are pairwise distinct, and lookup by value inverts `Value`. */
  lemma ValuesDistinct(r1: PlayerRole, r2: PlayerRole)
    ensures Value(r1) == Value(r2) <==> r1 == r2
    ensures FromValue(Value(r1)) == Some(r1)
  {
  }

  /** A row of the description table. */
  datatype Role = Role(name: string, description: string, team: string)

  const RoleDescriptions: map<PlayerRole, Role> := map[
    Werewolf := Role("Werewolf", "Each night, vote with other werewolves to eat a villager", "Werewolf"),
    Villager := Role("Villager", "Vote during the day to eliminate suspected werewolves", "Villager"),
    Seer := Role("Seer", "Each night, check one player to reveal if they are a werewolf", "Villager"),
    Cupid := Role("Cupidon", "On the first night, choose two players to fall in love. If one dies, the other dies too.", "Villager"),
    Hunter := Role("Hunter", "If you die, you can choose to take someone down with you", "Villager"),
    Witch := Role("Witch", "You have two potions: one to save, one to kill. Use each only once.", "Villager")
  ]

  /** The table covers every role, and only the Werewolf sits on the "Werewolf" team. */
  lemma DescriptionsCoverRoles(r: PlayerRole)
    ensures r in RoleDescriptions
    ensures RoleDescriptions[r].team == "Werewolf" <==> r == Werewolf
    ensures r != Werewolf ==> RoleDescriptions[r].team == "Villager"
  {
  }
}
