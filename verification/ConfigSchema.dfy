/**
  The manifest's `[config]` schema, the override document, and what it means for an
  override to fit the schema (crates/oxidhome-manifest/src/config.rs and validate.rs).
  Ordered maps are kept as their sequences of entries.
 */
module ConfigSchema {
  import opened Prelude

  /** A 64-bit float, with exact reals for the finite ones. */
  datatype Float = NaN | PosInf | NegInf | Fin(value: real) {
    predicate IsFinite() {
      Fin?
    }

    /** IEEE 754 `<`: false whenever a NaN is involved. */
    predicate Lt(other: Float) {
      match (this, other)
      case (Fin(a), Fin(b)) => a < b
      case (NegInf, PosInf) => true
      case (NegInf, Fin(_)) => true
      case (Fin(_), PosInf) => true
      case _ => false
    }
  }

  datatype FieldType =
    | BoolField(boolDefault: Option<bool>)
    | IntField(intDefault: Option<int>, intMin: Option<int>, intMax: Option<int>)
    | FloatField(floatDefault: Option<Float>, floatMin: Option<Float>, floatMax: Option<Float>)
    | StringField(stringDefault: Option<string>)
    | EnumField(values: seq<string>, enumDefault: Option<string>)
    | NestedField(fields: seq<Field>)

  datatype Field = Field(name: string, ty: FieldType)

  type Schema = seq<Field>

  datatype Toml =
    | TString(text: string) | TInteger(number: int) | TFloat(float: Float) | TBoolean(flag: bool)
    | TDatetime | TArray | TTable(entries: seq<Entry>)

  datatype Entry = Entry(key: string, value: Toml)

  datatype Value =
    | VBool(flag: bool) | VInt(number: int) | VFloat(float: Float) | VString(text: string) | VNested(values: seq<Named>)

  datatype Named = Named(name: string, value: Value)

  /** The value of the first entry with this key. */
  function Lookup(entries: seq<Entry>, key: string): (r: Option<Toml>)
    ensures r.None? <==> forall k :: 0 <= k < |entries| ==> entries[k].key != key
    ensures r.Some? ==>
              exists k :: 0 <= k < |entries| && entries[k] == Entry(key, r.value)
                          && forall j :: 0 <= j < k ==> entries[j].key != key
  {
    if entries == [] then None
    else if entries[0].key == key then
      assert entries[0] == Entry(key, entries[0].value);
      Some(entries[0].value)
    else
      assert forall k :: 0 < k < |entries| ==> entries[k] == entries[1..][k - 1];
      Lookup(entries[1..], key)
  }

  predicate Declares(fields: Schema, name: string) {
    exists f :: f in fields && f.name == name
  }

  ghost predicate KeysDeclared(fields: Schema, entries: seq<Entry>) {
    forall e :: e in entries ==> Declares(fields, e.key)
  }

  // ---- A sound schema ----

  predicate DotFree(s: string) {
    '.' !in s
  }

  ghost predicate IntInRange(n: int, min: Option<int>, max: Option<int>) {
    (min.Some? ==> min.value <= n) && (max.Some? ==> n <= max.value)
  }

  ghost predicate FloatInRange(f: Float, min: Option<Float>, max: Option<Float>) {
    && f.Fin?
    && (min.Some? ==> min.value.Fin? && min.value.value <= f.value)
    && (max.Some? ==> max.value.Fin? && f.value <= max.value.value)
  }

  ghost predicate FiniteIfGiven(f: Option<Float>) {
    f.Some? ==> f.value.Fin?
  }

  /** Bounds are ordered and finite, defaults lie within them, enums offer something and
      their default is among it, and no declared name below has a dot. */
  ghost predicate Sound(ty: FieldType) {
    match ty
    case BoolField(_) => true
    case IntField(d, min, max) =>
      && (min.Some? && max.Some? ==> min.value <= max.value)
      && (d.Some? ==> IntInRange(d.value, min, max))
    case FloatField(d, min, max) =>
      && FiniteIfGiven(d) && FiniteIfGiven(min) && FiniteIfGiven(max)
      && (min.Some? && max.Some? ==> min.value.value <= max.value.value)
      && (d.Some? ==> FloatInRange(d.value, min, max))
    case StringField(_) => true
    case EnumField(values, d) => values != [] && (d.Some? ==> d.value in values)
    case NestedField(fields) => SoundSchema(fields)
  }

  ghost predicate SoundSchema(fields: Schema) {
    forall k :: 0 <= k < |fields| ==> DotFree(fields[k].name) && Sound(fields[k].ty)
  }

  // ---- What overrides a schema accepts, and what they resolve to ----

  /** An override of the declared type, in range, finite, in its enum. */
  ghost predicate LeafFits(ty: FieldType, v: Toml) {
    match ty
    case BoolField(_) => v.TBoolean?
    case IntField(_, min, max) => v.TInteger? && IntInRange(v.number, min, max)
    case FloatField(_, min, max) =>
      (v.TFloat? && FloatInRange(v.float, min, max)) || (v.TInteger? && FloatInRange(Fin(v.number as real), min, max))
    case StringField(_) => v.TString?
    case EnumField(values, _) => v.TString? && v.text in values
    case NestedField(_) => false
  }

  ghost predicate HasDefault(ty: FieldType) {
    match ty
    case BoolField(d) => d.Some?
    case IntField(d, _, _) => d.Some?
    case FloatField(d, _, _) => d.Some?
    case StringField(d) => d.Some?
    case EnumField(_, d) => d.Some?
    case NestedField(_) => false
  }

  /** Recursively: a given leaf fits, an absent leaf has a default, a given table only
      has declared keys, and every declared field below is accepted. */
  ghost predicate Accepts(ty: FieldType, given: Option<Toml>) {
    match ty
    case NestedField(fields) =>
      (given.Some? ==> given.value.TTable?)
      && AcceptsAll(fields, if given.Some? then given.value.entries else [])
    case _ => if given.Some? then LeafFits(ty, given.value) else HasDefault(ty)
  }

  ghost predicate AcceptsAll(fields: Schema, entries: seq<Entry>) {
    && KeysDeclared(fields, entries)
    && forall k :: 0 <= k < |fields| ==> Accepts(fields[k].ty, Lookup(entries, fields[k].name))
  }

  /** `v` is the override if one is given, else the default, and a nested value has
      exactly the declared keys in order. */
  ghost predicate Resolves(ty: FieldType, given: Option<Toml>, v: Value) {
    match ty
    case BoolField(d) =>
      v.VBool? && (if given.Some? then given.value == TBoolean(v.flag) else d == Some(v.flag))
    case IntField(d, min, max) =>
      v.VInt? && IntInRange(v.number, min, max)
      && (if given.Some? then given.value == TInteger(v.number) else d == Some(v.number))
    case FloatField(d, min, max) =>
      v.VFloat? && FloatInRange(v.float, min, max)
      && (if given.Some? then
            given.value == TFloat(v.float) || (given.value.TInteger? && v.float == Fin(given.value.number as real))
          else d == Some(v.float))
    case StringField(d) =>
      v.VString? && (if given.Some? then given.value == TString(v.text) else d == Some(v.text))
    case EnumField(values, d) =>
      v.VString? && v.text in values && (if given.Some? then given.value == TString(v.text) else d == Some(v.text))
    case NestedField(fields) =>
      v.VNested? && (given.Some? ==> given.value.TTable?)
      && ResolvesAll(fields, if given.Some? then given.value.entries else [], v.values)
  }

  ghost predicate ResolvesAll(fields: Schema, entries: seq<Entry>, values: seq<Named>) {
    && |values| == |fields|
    && forall k :: 0 <= k < |fields| ==>
                     && values[k].name == fields[k].name
                     && Resolves(fields[k].ty, Lookup(entries, fields[k].name), values[k].value)
  }
}
