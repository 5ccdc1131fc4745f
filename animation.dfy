/**
 * The tap/keyboard animation rules: which class a graphic's role plays, how
 * long until the class is cleared, and which keys count as activation.
 */
module Animation {
  import opened Wrappers

  const Bounce: string := "play-bounce"
  const Wave: string := "play-wave"
  const Sway: string := "play-sway"

  /** The role-to-class table; every other role falls back to `Bounce`. */
  const RoleTable: map<string, string> :=
    map["huito" := Bounce, "maloca" := Bounce, "rio" := Wave, "arbol" := Sway]

  /** The property key a role is looked up under: a missing attribute reads as `null`. */
  function PropertyKey(role: Option<string>): (key: string)
    ensures role.Some? ==> key == role.value
    ensures role.None? ==> key == "null" && key !in RoleTable && key !in InheritedKeys
  {
    role.GetOr("null")
  }

  /** The animation class for a role, by the table's own entries only. */
  function RoleToAnim(role: Option<string>): (anim: string)
    ensures anim == Bounce || anim == Wave || anim == Sway
    ensures PropertyKey(role) in RoleTable ==> anim == RoleTable[PropertyKey(role)]
    ensures PropertyKey(role) !in RoleTable ==> anim == Bounce
  {
    var key := PropertyKey(role);
    if key in RoleTable then RoleTable[key] else Bounce
  }

  /** The class each known role plays, and the default for all others. */
  lemma RoleLookup(role: Option<string>)
    ensures RoleToAnim(Some("huito")) == Bounce
    ensures RoleToAnim(Some("maloca")) == Bounce
    ensures RoleToAnim(Some("rio")) == Wave
    ensures RoleToAnim(Some("arbol")) == Sway
    ensures RoleToAnim(None) == Bounce
    ensures role.None? || role.value !in {"huito", "maloca", "rio", "arbol"} ==> RoleToAnim(role) == Bounce
  {
  }

  /** How long each animation runs, in milliseconds. */
  function Duration(anim: string): (ms: nat)
    ensures ms == 380 <==> anim == Sway
    ensures ms == 360 <==> anim == Wave
    ensures ms == 280 <==> anim != Sway && anim != Wave
  {
    if anim == Sway then 380 else if anim == Wave then 360 else 280
  }

  /** When the class is cleared after a trigger: the duration plus a 30 ms margin. */
  function RemovalDelay(anim: string): (ms: nat)
    ensures anim == Sway ==> ms == 410
    ensures anim == Wave ==> ms == 390
    ensures anim != Sway && anim != Wave ==> ms == 310
    ensures ms > Duration(anim)
  {
    Duration(anim) + 30
  }

  /** The removal delay of every role, and that it never cuts an animation short. */
  lemma RemovalDelays(role: Option<string>)
    ensures RemovalDelay(RoleToAnim(role)) in {310, 390, 410}
    ensures RemovalDelay(RoleToAnim(role)) > Duration(RoleToAnim(role))
    ensures RemovalDelay(RoleToAnim(Some("arbol"))) == 410
    ensures RemovalDelay(RoleToAnim(Some("rio"))) == 390
    ensures RemovalDelay(RoleToAnim(Some("huito"))) == 310
  {
  }

  /** Only Enter and Space activate a graphic from the keyboard. */
  predicate IsActivationKey(key: string): (r: bool)
    ensures r <==> key in {"Enter", " "}
  {
    key == "Enter" || key == " "
  }

  /** Look-alike key names do not activate. */
  lemma ActivationKeys()
    ensures !IsActivationKey("Space") && !IsActivationKey("Spacebar") && !IsActivationKey("enter")
  {
  }

  // -------------------------------------------------------------------------
  // The lookup as written: `roleToAnim[role] || 'play-bounce'` reads an
  // ordinary object, so a role that names a member inherited from
  // Object.prototype finds that member instead of falling back.

  /** Names every ordinary object inherits from Object.prototype. */
  const InheritedKeys: set<string> := {
    "constructor", "hasOwnProperty", "isPrototypeOf", "propertyIsEnumerable",
    "toLocaleString", "toString", "valueOf", "__proto__",
    "__defineGetter__", "__defineSetter__", "__lookupGetter__", "__lookupSetter__"
  }

  /** What a property read on the table literal yields. */
  datatype Lookup = Own(cls: string) | Inherited(name: string) | Undefined

  function PropertyRead(key: string): (r: Lookup)
    ensures r.Own? <==> key in RoleTable
    ensures r.Inherited? <==> key !in RoleTable && key in InheritedKeys
  {
    if key in RoleTable then Own(RoleTable[key])
    else if key in InheritedKeys then Inherited(key)
    else Undefined
  }

  /**
   * What one trigger does to the class list as written. An inherited member is
   * a function or object, hence truthy; its string form contains spaces, and a
   * class-list `remove` with such a token throws before anything is added.
   */
  datatype Outcome = Plays(cls: string) | Throws

  function TriggerAsWritten(role: Option<string>): (o: Outcome)
    ensures PropertyKey(role) in InheritedKeys ==> o == Throws
  {
    match PropertyRead(PropertyKey(role))
    case Own(c) => Plays(c)
    case Inherited(_) => Throws
    case Undefined => Plays(Bounce)
  }

  /** Off the inherited names, the code as written and `RoleToAnim` agree. */
  lemma AsWrittenAgreesElsewhere(role: Option<string>)
    requires PropertyKey(role) !in InheritedKeys
    ensures TriggerAsWritten(role) == Plays(RoleToAnim(role))
  {
  }

  /** A graphic whose role is `constructor` throws as written, but should bounce. */
  lemma ConstructorRoleThrows()
    ensures TriggerAsWritten(Some("constructor")) == Throws
    ensures RoleToAnim(Some("constructor")) == Bounce
  {
  }
}
