/** The older backend's player object (loup-garou-backend/player.py). */
module LegacyPlayers {
  import opened Wrappers
  import LegacyRoles

  /**
   * What `role` can hold: `None`, a string (what the server assigns) or a
   * dictionary of strings (what `__repr__` expects).
   */
  datatype RoleValue = NoRole | Text(s: string) | Fields(fields: map<string, string>)

  /** Python truthiness of the stored role. */
  predicate Truthy(role: RoleValue)
  {
    match role
    case NoRole => false
    case Text(s) => s != ""
    case Fields(m) => |m| > 0
  }

  /**
   * `__repr__` as written: `role["name"]` when the role is truthy. Indexing a string
   * with "name" raises TypeError; a dictionary without "name" raises KeyError.
   */
  function ReprAsWritten(name: string, role: RoleValue): (r: Result<string, string>)
  {
    if !Truthy(role) then Ok(name + " - No role assigned")
    else match role
      case Text(_) => Err("TypeError")
      case Fields(m) => if "name" in m then Ok(name + " - " + m["name"]) else Err("KeyError")
      case NoRole => Ok(name + " - No role assigned")
  }

  /** The display name of a role key: the table's name for a known key, the key itself otherwise. */
  function RoleName(key: string): (r: string)
    ensures key in LegacyRoles.Roles ==> r == LegacyRoles.Roles[key].name
  {
    if key in LegacyRoles.Roles then LegacyRoles.Roles[key].name else key
  }

  /** `__repr__` as intended: a string role is a key of the role table and shows that role's name. */
  function Repr(name: string, role: RoleValue): (r: Result<string, string>)
  {
    if !Truthy(role) then Ok(name + " - No role assigned")
    else match role
      case Text(s) => Ok(name + " - " + RoleName(s))
      case Fields(m) => if "name" in m then Ok(name + " - " + m["name"]) else Err("KeyError")
      case NoRole => Ok(name + " - No role assigned")
  }

  /**
   * Wherever the written `__repr__` succeeds the corrected one says the same; a
   * player without a role shows "No role assigned".
   */
  lemma ReprAgreesWhereWrittenWorks(name: string, role: RoleValue)
    ensures ReprAsWritten(name, role).Ok? ==> Repr(name, role) == ReprAsWritten(name, role)
    ensures !Truthy(role) ==> Repr(name, role) == Ok(name + " - No role assigned")
    ensures role.Text? ==> Repr(name, role).Ok?
  {
  }

  /** Every non-empty string role, which is every role the server assigns, breaks the written `__repr__`. */
  lemma ReprAsWrittenRejectsAssignedRoles(name: string, key: string)
    requires key != ""
    ensures ReprAsWritten(name, Text(key)) == Err("TypeError")
    ensures key in LegacyRoles.Roles ==> Repr(name, Text(key)) == Ok(name + " - " + LegacyRoles.Roles[key].name)
  {
  }

  /** A concrete case: the player "Ana" dealt the seer. */
  lemma ReprAsWrittenExample()
    ensures ReprAsWritten("Ana", Text("seer")).Err?
    ensures Repr("Ana", Text("seer")) == Ok("Ana - Seer")
  {
    assert LegacyRoles.Roles["seer"].name == "Seer";
    assert "Ana" + " - " + "Seer" == "Ana - Seer";
  }

  /** `Player(name, sid, role=None)`; `lover` is the attribute the Cupid handler attaches later. */
  class LegacyPlayer {
    const name: string
    const sid: string
    var role: RoleValue
    /** `None` while the attribute has not been attached. */
    var lover: Option<string>

    constructor (name: string, sid: string, role: RoleValue)
      ensures this.name == name && this.sid == sid && this.role == role && lover == None
    {
      this.name, this.sid, this.role := name, sid, role;
      lover := None;
    }

    /** `assign_role`: only the role changes. */
    method AssignRole(role: RoleValue)
      modifies this`role
      ensures this.role == role
    {
      this.role := role;
    }
  }
}
