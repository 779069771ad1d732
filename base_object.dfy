/** Things spawned in the world: their type and descriptor-flag enumerations and
    `BaseObject`, a name, map and zone IDs, a position and a store of field values. */
module BaseObjects {
  import opened Wrappers

  /** Object type sent in UpdateObject packets. */
  datatype ObjectType = OBJECT | ITEM | CONTAINER | UNIT | PLAYER | GAME_OBJECT | DYNAMIC_OBJECT | CORPSE

  /** The enum member's `value`. */
  function TypeValue(t: ObjectType): (v: nat)
    ensures v < 8
  {
    match t
    case OBJECT => 0
    case ITEM => 1
    case CONTAINER => 2
    case UNIT => 3
    case PLAYER => 4
    case GAME_OBJECT => 5
    case DYNAMIC_OBJECT => 6
    case CORPSE => 7
  }

  /** `ObjectType(n)`: the member whose value is `n`, or None where Python raises ValueError. */
  function TypeFromValue(n: int): (r: Option<ObjectType>)
    ensures r.Some? <==> 0 <= n < 8
    ensures r.Some? ==> TypeValue(r.value) == n
  {
    if n == 0 then Some(OBJECT)
    else if n == 1 then Some(ITEM)
    else if n == 2 then Some(CONTAINER)
    else if n == 3 then Some(UNIT)
    else if n == 4 then Some(PLAYER)
    else if n == 5 then Some(GAME_OBJECT)
    else if n == 6 then Some(DYNAMIC_OBJECT)
    else if n == 7 then Some(CORPSE)
    else None
  }

  /** `ObjectType(t.value)` gives back `t`: the value table is one-to-one. */
  lemma TypeValueRoundTrip(t: ObjectType, u: ObjectType)
    ensures TypeFromValue(TypeValue(t)) == Some(t)
    ensures TypeValue(t) == TypeValue(u) ==> t == u
  {
  }

  /** BaseObject descriptor flags (object field 0x8). */
  datatype ObjectDescFlags =
    OBJECT_FLAG | ITEM_FLAG | CONTAINER_FLAG | UNIT_FLAG | PLAYER_FLAG
    | GAME_OBJECT_FLAG | DYNAMIC_OBJECT_FLAG | CORPSE_FLAG

  /** The shift that defines each flag: its `value` is `1 << FlagShift(f)`. */
  function FlagShift(f: ObjectDescFlags): bv8 {
    match f
    case OBJECT_FLAG => 0
    case ITEM_FLAG => 1
    case CONTAINER_FLAG => 2
    case UNIT_FLAG => 3
    case PLAYER_FLAG => 4
    case GAME_OBJECT_FLAG => 5
    case DYNAMIC_OBJECT_FLAG => 6
    case CORPSE_FLAG => 7
  }

  /** The flag's `value`. */
  function FlagValue(f: ObjectDescFlags): (b: bv8)
    ensures b != 0 && b & (b - 1) == 0
  {
    1 << FlagShift(f)
  }

  /** The descriptor flag that has the same name as the type. */
  function FlagOf(t: ObjectType): ObjectDescFlags {
    match t
    case OBJECT => OBJECT_FLAG
    case ITEM => ITEM_FLAG
    case CONTAINER => CONTAINER_FLAG
    case UNIT => UNIT_FLAG
    case PLAYER => PLAYER_FLAG
    case GAME_OBJECT => GAME_OBJECT_FLAG
    case DYNAMIC_OBJECT => DYNAMIC_OBJECT_FLAG
    case CORPSE => CORPSE_FLAG
  }

  /** The eight flags are eight different single bits, and the flag of a type is
      the bit numbered by the type's value. */
  lemma FlagsAreTypeBits(t: ObjectType, f: ObjectDescFlags, g: ObjectDescFlags)
    ensures FlagValue(FlagOf(t)) == 1 << TypeValue(t)
    ensures FlagValue(f) != 0 && FlagValue(f) & (FlagValue(f) - 1) == 0
    ensures f != g ==> FlagValue(f) & FlagValue(g) == 0
  {
  }

  /** The types named in a type's mask comment, from the root down. */
  function Lineage(t: ObjectType): (s: seq<ObjectType>)
    ensures |s| >= 1 && s[0] == OBJECT && s[|s| - 1] == t
  {
    match t
    case OBJECT => [OBJECT]
    case ITEM => [OBJECT, ITEM]
    case CONTAINER => [OBJECT, ITEM, CONTAINER]
    case UNIT => [OBJECT, UNIT]
    case PLAYER => [OBJECT, UNIT, PLAYER]
    case GAME_OBJECT => [OBJECT, GAME_OBJECT]
    case DYNAMIC_OBJECT => [OBJECT, DYNAMIC_OBJECT]
    case CORPSE => [OBJECT, CORPSE]
  }

  /** The OR of the descriptor flags of the given types. */
  function MaskOf(s: seq<ObjectType>): bv8 {
    if s == [] then 0 else MaskOf(s[..|s| - 1]) | FlagValue(FlagOf(s[|s| - 1]))
  }

  /** A type's mask: the OR of its own flag and its ancestors' flags. */
  function TypeMask(t: ObjectType): bv8 {
    MaskOf(Lineage(t))
  }

  /** The hexadecimal masks written beside the type values. */
  function CommentedMask(t: ObjectType): (m: bv8)
    ensures m & 0x01 == 0x01
  {
    match t
    case OBJECT => 0x01
    case ITEM => 0x03
    case CONTAINER => 0x07
    case UNIT => 0x09
    case PLAYER => 0x19
    case GAME_OBJECT => 0x21
    case DYNAMIC_OBJECT => 0x41
    case CORPSE => 0x81
  }

  lemma MaskOfAppend(s: seq<ObjectType>, t: ObjectType)
    ensures MaskOf(s + [t]) == MaskOf(s) | FlagValue(FlagOf(t))
  {
  }

  /** Two types' flags share a bit exactly when the types are the same. */
  lemma FlagsOverlap(t: ObjectType, u: ObjectType)
    ensures FlagValue(FlagOf(t)) & FlagValue(FlagOf(u)) != 0 <==> t == u
  {
  }

  /** Adding a type to a list adds exactly that type's bit to the mask. */
  lemma MaskOfStep(init: seq<ObjectType>, last: ObjectType, u: ObjectType)
    ensures MaskOf(init + [last]) & FlagValue(FlagOf(u)) != 0
      <==> MaskOf(init) & FlagValue(FlagOf(u)) != 0 || last == u
  {
  }

  /** A type's flag bit is set in the OR of a list of types exactly when the
      type is in the list. */
  lemma {:induction false} MaskOfHasFlag(s: seq<ObjectType>, u: ObjectType)
    ensures MaskOf(s) & FlagValue(FlagOf(u)) != 0 <==> u in s
  {
    if s == [] {
      assert MaskOf(s) == 0;
    } else {
      var init, last := s[..|s| - 1], s[|s| - 1];
      MaskOfHasFlag(init, u);
      assert s == init + [last];
      MaskOfStep(init, last, u);
    }
  }

  /** The OR of the flags of one, two or three types. */
  lemma MaskOfShort(s: seq<ObjectType>)
    requires 1 <= |s| <= 3
    ensures |s| == 1 ==> MaskOf(s) == FlagValue(FlagOf(s[0]))
    ensures |s| == 2 ==> MaskOf(s) == FlagValue(FlagOf(s[0])) | FlagValue(FlagOf(s[1]))
    ensures |s| == 3 ==> MaskOf(s) == FlagValue(FlagOf(s[0])) | FlagValue(FlagOf(s[1])) | FlagValue(FlagOf(s[2]))
  {
    MaskOfAppend([], s[0]);
    assert [] + [s[0]] == s[..1];
    if |s| >= 2 {
      MaskOfAppend(s[..1], s[1]);
      assert s[..1] + [s[1]] == s[..2];
    }
    if |s| == 3 {
      MaskOfAppend(s[..2], s[2]);
      assert s[..2] + [s[2]] == s;
    }
  }

  /** Every commented mask is the OR of the flags of the types it names. */
  lemma TypeMaskMatchesComment(t: ObjectType)
    ensures TypeMask(t) == CommentedMask(t)
  {
    MaskOfShort(Lineage(t));
  }

  /** Every type's mask holds the OBJECT bit, and exactly the bits of the types
      its comment names. */
  lemma TypeMaskBits(t: ObjectType, u: ObjectType)
    ensures TypeMask(t) & FlagValue(OBJECT_FLAG) != 0
    ensures TypeMask(t) & FlagValue(FlagOf(u)) != 0 <==> u in Lineage(t)
  {
    MaskOfHasFlag(Lineage(t), u);
    MaskOfHasFlag(Lineage(t), OBJECT);
  }

  /** Object field identifiers; the full field table is not part of this model,
      only the GUID field is named. */
  datatype ObjectField = GUID | OtherField(code: nat)

  /** A position in the world; its contents are not part of this model. */
  type Position(0)

  /** A thing spawned in the world, holding field values of type V. */
  class BaseObject<V> {
    var name: string
    var mapId: int
    var zoneId: int
    var position: Position
    var fields: map<ObjectField, V>

    /** A fresh object: unnamed, map and zone 0, the default position, no field set. */
    constructor ()
      ensures name == "Unnamed object" && mapId == 0 && zoneId == 0
      ensures fields == map[]
      ensures forall f :: Get(f) == None
    {
      name := "Unnamed object";
      mapId := 0;
      zoneId := 0;
      fields := map[];
    }

    /** `get`: the field's value, or None if it has never been set. */
    function Get(field: ObjectField): (r: Option<V>)
      reads this
      ensures r.Some? <==> field in fields
      ensures r.Some? ==> r.value == fields[field]
    {
      if field in fields then Some(fields[field]) else None
    }

    /** `guid`: the value of the GUID field. */
    function Guid(): (r: Option<V>)
      reads this
      ensures r.Some? <==> GUID in fields
      ensures r.Some? ==> r.value == fields[GUID]
    {
      Get(GUID)
    }

    /** `set`: stores the value under the field, overwriting any earlier one;
        no other field and nothing else of the object changes. */
    method Set(field: ObjectField, value: V)
      modifies this`fields
      ensures fields == old(fields)[field := value]
      ensures Get(field) == Some(value)
      ensures forall f :: f != field ==> Get(f) == old(Get(f))
    {
      fields := fields[field := value];
    }
  }

  /** On a fresh object nothing is set and the GUID is None; a set value is read
      back, a second set overwrites it, and another field stays unset. */
  method FieldStoreScenario<V>(field: ObjectField, other: ObjectField, v: V, w: V)
    returns (initial: Option<V>, guid: Option<V>, afterFirst: Option<V>, afterSecond: Option<V>, untouched: Option<V>)
    requires other != field
    ensures initial == None && guid == None
    ensures afterFirst == Some(v) && afterSecond == Some(w) && untouched == None
  {
    var o := new BaseObject<V>();
    initial := o.Get(field);
    guid := o.Guid();
    o.Set(field, v);
    afterFirst := o.Get(field);
    o.Set(field, w);
    afterSecond := o.Get(field);
    untouched := o.Get(other);
  }
}
