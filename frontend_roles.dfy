/** The role cards the frontend shows (loup-garou-frontend/constants/roles.ts). */
module FrontendRoles {
  import opened Wrappers
  import CoreRoles = Roles

  /** `Role`: the French display name and the rule text. */
  datatype Role = Role(name: string, description: string)

  /** `roles`, keyed by the role identifier. */
  const Roles: map<string, Role> := map[
    "werewolf" := Role("Loup-Garou", "Chaque nuit, votez avec les autres loups-garous pour dévorer un villageois"),
    "villager" := Role("Villageois", "Votez pendant la journée pour éliminer les loups-garous suspects"),
    "seer" := Role("Voyante", "Chaque nuit, inspectez un joueur pour découvrir s'il est un loup-garou"),
    "cupid" := Role("Cupidon", "La première nuit, choisissez deux joueurs qui tomberont amoureux. Si l'un meurt, l'autre meurt aussi."),
    "hunter" := Role("Chasseur", "Si vous mourez, vous pouvez immédiatement tuer un autre joueur en utilisant votre dernière balle"),
    "witch" := Role("Sorcière", "Vous avez deux potions : une pour sauver un joueur tué par les loups-garous, une pour éliminer un joueur. Utilisable une seule fois chacune"),
    "littleGirl" := Role("Petite Fille", "Chaque nuit, vous pouvez espionner les loups-garous, mais attention à ne pas vous faire repérer")
  ]

  /**
   * `getRoleDescription`: the rule text of a known identifier, `undefined` (here `None`)
   * for any other string, inherited object properties included since they carry no
   * `description`.
   */
  function GetRoleDescription(roleName: string): (r: Option<string>)
    ensures r.Some? <==> roleName in Roles
    ensures r.Some? ==> r.value == Roles[roleName].description
  {
    if roleName in Roles then Some(Roles[roleName].description) else None
  }

  /** Seven cards, each with a rule text. */
  lemma TableShape()
    ensures Roles.Keys == {"werewolf", "villager", "seer", "cupid", "hunter", "witch", "littleGirl"}
    ensures forall k :: k in Roles ==> GetRoleDescription(k).Some? && GetRoleDescription(k).value != ""
  {
  }

  /**
   * Every role of the core engine's enumeration, looked up by its string value, has a card;
   * the little girl's card is the one no core role uses.
   */
  lemma CardForEveryCoreRole(r: CoreRoles.PlayerRole)
    ensures CoreRoles.Value(r) in Roles && GetRoleDescription(CoreRoles.Value(r)).Some?
    ensures forall q :: CoreRoles.Value(q) != "littleGirl"
  {
  }
}
