/** The older backend's role table (loup-garou-backend/roles.py). */
module LegacyRoles {
  import opened Wrappers

  /** `Role(name, description, team)` */
  datatype Role = Role(name: string, description: string, team: string)

  /** `roles`, keyed by the string the server hands out as a role. */
  const Roles: map<string, Role> := map[
    "werewolf" := Role("Werewolf", "Each night, vote with other werewolves to eat a villager", "Werewolf"),
    "villager" := Role("Villager", "Vote during the day to eliminate suspected werewolves", "Villager"),
    "seer" := Role("Seer", "Each night, check one player to reveal if they are a werewolf", "Villager"),
    "cupidon" := Role("Cupidon", "On the first night, choose two players to fall in love. If one dies, the other dies too.", "Villager")
  ]

  /**
   * `Role.get_role_description`: an instance method that ignores its receiver and
   * looks the key up in the table; an unknown key raises KeyError.
   */
  function GetRoleDescription(receiver: Role, roleName: string): (r: Result<string, string>)
    ensures r.Ok? <==> roleName in Roles
    ensures r.Ok? ==> r.value == Roles[roleName].description
    ensures r.Err? ==> r.error == "KeyError"
  {
    if roleName in Roles then Ok(Roles[roleName].description) else Err("KeyError")
  }

  /** The receiver plays no part in the answer. */
  lemma DescriptionIgnoresReceiver(a: Role, b: Role, roleName: string)
    ensures GetRoleDescription(a, roleName) == GetRoleDescription(b, roleName)
  {
  }

  /** The table holds exactly four keys, and only the werewolf sits on the "Werewolf" team. */
  lemma TableShape()
    ensures Roles.Keys == {"werewolf", "villager", "seer", "cupidon"}
    ensures forall k :: k in Roles ==> (Roles[k].team == "Werewolf" <==> k == "werewolf")
    ensures forall k :: k in Roles && k != "werewolf" ==> Roles[k].team == "Villager"
  {
  }

  /** Every role the server's role assignment hands out has a table entry. */
  lemma DealtRolesKnown(k: string)
    requires k == "werewolf" || k == "seer" || k == "villager"
    ensures k in Roles && GetRoleDescription(Roles[k], k).Ok?
  {
  }
}
