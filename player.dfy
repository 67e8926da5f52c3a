/** The player record (core/player.py). */
module Players {
  import opened Wrappers
  import Roles

  /**
   * `death_cause` is not declared by the dataclass: the segment manager attaches it
   * to the object when it queues a death, so it is carried here as an optional field.
   */
  datatype Player = Player(
    name: string,
    sid: string,
    role: Option<Roles.PlayerRole>,
    isAlive: bool,
    loverSid: Option<string>,
    deathCause: Option<string>)

  /** `Player(name=name, sid=sid)` with the dataclass defaults. */
  function NewPlayer(name: string, sid: string): Player
  {
    Player(name, sid, None, true, None, None)
  }

  /** Python truthiness of `player.lover_sid`: absent and empty both count as "no lover". */
  predicate HasLover(p: Player)
  {
    p.loverSid.Some? && p.loverSid.value != ""
  }

  predicate IsWerewolf(p: Player)
  {
    p.role == Some(Roles.Werewolf)
  }

  /** The JSON values `to_dict` can produce. */
  datatype Value = Str(s: string) | Bool(b: bool) | Null

  function ToDict(p: Player): (d: map<string, Value>)
    ensures d.Keys == {"name", "sid", "role", "is_alive"}
    ensures "lover_sid" !in d
    ensures d["name"] == Str(p.name) && d["sid"] == Str(p.sid) && d["is_alive"] == Bool(p.isAlive)
    ensures d["role"].Null? <==> p.role.None?
  {
    map[
      "name" := Str(p.name),
      "sid" := Str(p.sid),
      "role" := if p.role.Some? then Str(Roles.Value(p.role.value)) else Null,
      "is_alive" := Bool(p.isAlive)]
  }

  /** Reading a serialised player back: the inverse of `ToDict` on the fields it reports. */
  function FromDict(d: map<string, Value>): Option<Player>
  {
    if "name" in d && d["name"].Str? && "sid" in d && d["sid"].Str? && "is_alive" in d && d["is_alive"].Bool? && "role" in d then
      var role :=
        if d["role"].Str? then Roles.FromValue(d["role"].s) else None;
      Some(Player(d["name"].s, d["sid"].s, role, d["is_alive"].b, None, None))
    else None
  }

  /** Serialising and reading back loses exactly the lover and the death cause. */
  lemma DictRoundTrip(p: Player)
    ensures FromDict(ToDict(p)) == Some(p.(loverSid := None, deathCause := None))
  {
    if p.role.Some? {
      Roles.ValuesDistinct(p.role.value, p.role.value);
    }
  }

  /** A freshly joined player is reported alive and without a role. */
  lemma NewPlayerReport(name: string, sid: string)
    ensures ToDict(NewPlayer(name, sid))["role"] == Null
    ensures ToDict(NewPlayer(name, sid))["is_alive"] == Bool(true)
    ensures !HasLover(NewPlayer(name, sid))
  {
  }
}
