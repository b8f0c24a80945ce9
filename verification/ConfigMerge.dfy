/**
  Folding overrides into the `[config]` schema, and the schema's own validation
  (crates/oxidhome-manifest/src/config.rs and validate.rs).  The methods push onto a
  shared error list in the order the code does; functions say what they push.
 */
module ConfigMerge {
  import opened Prelude
  import opened ConfigSchema

  datatype Number = IntNumber(n: int) | FloatNumber(f: Float)

  /** The text of a violated bound. */
  datatype Bound = AtLeast(bound: Number) | AtMost(bound: Number) | Unspecified

  datatype Error =
    | ConfigOverrideShape(path: string)
    | UnknownConfigKey(key: string)
    | TypeMismatch(path: string, expected: string, got: string)
    | Required(path: string)
    | IntRangeInvalid(path: string, min: int, max: int)
    | IntDefaultOutOfRange(path: string, gotInt: int, minInt: Option<int>, maxInt: Option<int>)
    | OutOfRange(path: string, bound: Bound, gotNumber: Number)
    | FloatNotFinite(path: string, role: string, gotFloat: Float)
    | FloatRangeInvalid(path: string, minF: Float, maxF: Float)
    | FloatDefaultOutOfRange(path: string, gotFloat: Float, minFloat: Option<Float>, maxFloat: Option<Float>)
    | EnumEmpty(path: string)
    | EnumDefaultOutOfRange(path: string, gotText: string, allowed: seq<string>)
    | EnumOutOfRange(path: string, gotText: string, allowed: seq<string>)
    | FieldNameContainsDot(parent: string, name: string)

  /** Where a resolved value came from decides who is to blame. */
  datatype Source = Default | Override

  class Errors {
    var items: seq<Error>

    constructor ()
      ensures items == []
    {
      items := [];
    }

    method Push(e: Error)
      modifies this
      ensures items == old(items) + [e]
    {
      items := items + [e];
    }
  }

  function TypeName(v: Toml): string {
    match v
    case TString(_) => "string"
    case TInteger(_) => "int"
    case TFloat(_) => "float"
    case TBoolean(_) => "bool"
    case TDatetime => "datetime"
    case TArray => "array"
    case TTable(_) => "table"
  }

  // ---- What is pushed: scalars ----

  function IntOutOfRange(path: string, n: int, min: Option<int>, max: Option<int>, source: Source): Error {
    match source
    case Default => IntDefaultOutOfRange(path, n, min, max)
    case Override =>
      OutOfRange(path,
                 if min.Some? && n < min.value then AtLeast(IntNumber(min.value))
                 else if max.Some? then AtMost(IntNumber(max.value)) else Unspecified,
                 IntNumber(n))
  }

  function RangeErrors(path: string, n: int, min: Option<int>, max: Option<int>, source: Source): seq<Error> {
    if min.Some? && max.Some? && min.value > max.value then [IntRangeInvalid(path, min.value, max.value)]
    else
      (if min.Some? && n < min.value then [IntOutOfRange(path, n, min, max, source)] else [])
      + (if max.Some? && n > max.value then [IntOutOfRange(path, n, min, max, source)] else [])
  }

  function FloatOutOfRange(path: string, f: Float, min: Option<Float>, max: Option<Float>, source: Source): Error {
    match source
    case Default => FloatDefaultOutOfRange(path, f, min, max)
    case Override =>
      OutOfRange(path,
                 if min.Some? && f.Lt(min.value) then AtLeast(FloatNumber(min.value))
                 else if max.Some? then AtMost(FloatNumber(max.value)) else Unspecified,
                 FloatNumber(f))
  }

  function NotFiniteErrors(path: string, f: Option<Float>, role: string): seq<Error> {
    if f.Some? && !f.value.IsFinite() then [FloatNotFinite(path, role, f.value)] else []
  }

  function FloatRangeErrors(path: string, f: Float, min: Option<Float>, max: Option<Float>,
      source: Source): seq<Error> {
    var broken := NotFiniteErrors(path, min, "min") + NotFiniteErrors(path, max, "max");
    if broken != [] then broken
    else if min.Some? && max.Some? && max.value.Lt(min.value) then [FloatRangeInvalid(path, min.value, max.value)]
    else
      (if min.Some? && f.Lt(min.value) then [FloatOutOfRange(path, f, min, max, source)] else [])
      + (if max.Some? && max.value.Lt(f) then [FloatOutOfRange(path, f, min, max, source)] else [])
  }

  datatype Outcome = Outcome(value: Option<Value>, errors: seq<Error>)

  function IntOutcome(path: string, d: Option<int>, min: Option<int>, max: Option<int>, given: Option<Toml>): Outcome {
    if given.Some? && !given.value.TInteger? then Outcome(None, [TypeMismatch(path, "int", TypeName(given.value))])
    else if given.None? && d.None? then Outcome(None, [Required(path)])
    else
      var n := if given.Some? then given.value.number else d.value;
      Outcome(Some(VInt(n)), RangeErrors(path, n, min, max, if given.Some? then Override else Default))
  }

  function AsFloat(v: Toml): Option<Float> {
    match v
    case TFloat(f) => Some(f)
    case TInteger(n) => Some(Fin(n as real))
    case _ => None
  }

  function FloatOutcome(path: string, d: Option<Float>, min: Option<Float>, max: Option<Float>,
      given: Option<Toml>): Outcome {
    if given.Some? && AsFloat(given.value).None? then
      Outcome(None, [TypeMismatch(path, "float", TypeName(given.value))])
    else if given.None? && d.None? then Outcome(None, [Required(path)])
    else
      var f := if given.Some? then AsFloat(given.value).value else d.value;
      if !f.IsFinite() then
        Outcome(None, [FloatNotFinite(path, if given.Some? then "override" else "default", f)])
      else
        Outcome(Some(VFloat(f)), FloatRangeErrors(path, f, min, max, if given.Some? then Override else Default))
  }

  function EnumOutcome(path: string, values: seq<string>, d: Option<string>, given: Option<Toml>): Outcome {
    if values == [] then Outcome(None, [EnumEmpty(path)])
    else if given.Some? && !given.value.TString? then
      Outcome(None, [TypeMismatch(path, "string", TypeName(given.value))])
    else if given.None? && d.None? then Outcome(None, [Required(path)])
    else
      var s := if given.Some? then given.value.text else d.value;
      if s in values then Outcome(Some(VString(s)), [])
      else if given.Some? then Outcome(None, [EnumOutOfRange(path, s, values)])
      else Outcome(None, [EnumDefaultOutOfRange(path, s, values)])
  }

  function BoolOutcome(path: string, d: Option<bool>, given: Option<Toml>): Outcome {
    if given.Some? then
      if given.value.TBoolean? then Outcome(Some(VBool(given.value.flag)), [])
      else Outcome(None, [TypeMismatch(path, "bool", TypeName(given.value))])
    else if d.Some? then Outcome(Some(VBool(d.value)), [])
    else Outcome(None, [Required(path)])
  }

  function StringOutcome(path: string, d: Option<string>, given: Option<Toml>): Outcome {
    if given.Some? then
      if given.value.TString? then Outcome(Some(VString(given.value.text)), [])
      else Outcome(None, [TypeMismatch(path, "string", TypeName(given.value))])
    else if d.Some? then Outcome(Some(VString(d.value)), [])
    else Outcome(None, [Required(path)])
  }

  // ---- What is pushed: tables ----

  function UnknownErrors(prefix: string, fields: Schema, entries: seq<Entry>): seq<Error> {
    if entries == [] then []
    else
      var last := entries[|entries| - 1];
      UnknownErrors(prefix, fields, entries[..|entries| - 1])
      + (if Declares(fields, last.key) then [] else [UnknownConfigKey(prefix + last.key)])
  }

  datatype Collected = Collected(values: seq<Named>, errors: seq<Error>)

  function Resolve(path: string, ty: FieldType, given: Option<Toml>): Outcome
    decreases ty
  {
    match ty
    case BoolField(d) => BoolOutcome(path, d, given)
    case IntField(d, min, max) => IntOutcome(path, d, min, max, given)
    case FloatField(d, min, max) => FloatOutcome(path, d, min, max, given)
    case StringField(d) => StringOutcome(path, d, given)
    case EnumField(values, d) => EnumOutcome(path, values, d, given)
    case NestedField(fields) =>
      if given.Some? && !given.value.TTable? then Outcome(None, [TypeMismatch(path, "table", TypeName(given.value))])
      else
        var entries := if given.Some? then given.value.entries else [];
        var inner := ResolveFields(path + ".", fields, entries);
        Outcome(Some(VNested(inner.values)), UnknownErrors(path + ".", fields, entries) + inner.errors)
  }

  /** The declared fields in order, under a common path prefix. */
  function ResolveFields(prefix: string, fields: Schema, entries: seq<Entry>): Collected
    decreases fields
  {
    if fields == [] then Collected([], [])
    else
      var last := fields[|fields| - 1];
      var front := ResolveFields(prefix, fields[..|fields| - 1], entries);
      var o := Resolve(prefix + last.name, last.ty, Lookup(entries, last.name));
      Collected(front.values + (if o.value.Some? then [Named(last.name, o.value.value)] else []),
                front.errors + o.errors)
  }

  function MergeErrors(schema: Schema, overrides: Toml): seq<Error> {
    if !overrides.TTable? then [ConfigOverrideShape("<root>")]
    else UnknownErrors("", schema, overrides.entries) + ResolveFields("", schema, overrides.entries).errors
  }

  function Merged(schema: Schema, overrides: Toml): Result<seq<Named>, seq<Error>> {
    if MergeErrors(schema, overrides) == [] then Ok(ResolveFields("", schema, overrides.entries).values)
    else Err(MergeErrors(schema, overrides))
  }

  // ---- The methods ----

  method CheckRange(path: string, n: int, min: Option<int>, max: Option<int>, source: Source, errors: Errors)
    modifies errors
    ensures errors.items == old(errors.items) + RangeErrors(path, n, min, max, source)
  {
    if min.Some? && max.Some? && min.value > max.value {
      errors.Push(IntRangeInvalid(path, min.value, max.value));
      return;
    }
    if min.Some? && n < min.value {
      errors.Push(IntOutOfRange(path, n, min, max, source));
    }
    if max.Some? && n > max.value {
      errors.Push(IntOutOfRange(path, n, min, max, source));
    }
  }

  method CheckRangeF(path: string, f: Float, min: Option<Float>, max: Option<Float>, source: Source, errors: Errors)
    modifies errors
    ensures errors.items == old(errors.items) + FloatRangeErrors(path, f, min, max, source)
  {
    var schemaBroken := false;
    if min.Some? && !min.value.IsFinite() {
      errors.Push(FloatNotFinite(path, "min", min.value));
      schemaBroken := true;
    }
    if max.Some? && !max.value.IsFinite() {
      errors.Push(FloatNotFinite(path, "max", max.value));
      schemaBroken := true;
    }
    if schemaBroken {
      return;
    }
    if min.Some? && max.Some? && max.value.Lt(min.value) {
      errors.Push(FloatRangeInvalid(path, min.value, max.value));
      return;
    }
    if min.Some? && f.Lt(min.value) {
      errors.Push(FloatOutOfRange(path, f, min, max, source));
    }
    if max.Some? && max.value.Lt(f) {
      errors.Push(FloatOutOfRange(path, f, min, max, source));
    }
  }

  method ResolveBool(path: string, d: Option<bool>, given: Option<Toml>, errors: Errors) returns (v: Option<Value>)
    modifies errors
    ensures var o := BoolOutcome(path, d, given);
      v == o.value && errors.items == old(errors.items) + o.errors
  {
    if given.Some? {
      if given.value.TBoolean? {
        return Some(VBool(given.value.flag));
      }
      errors.Push(TypeMismatch(path, "bool", TypeName(given.value)));
      return None;
    }
    if d.Some? {
      return Some(VBool(d.value));
    }
    errors.Push(Required(path));
    v := None;
  }

  method ResolveString(path: string, d: Option<string>, given: Option<Toml>, errors: Errors) returns (v: Option<Value>)
    modifies errors
    ensures var o := StringOutcome(path, d, given);
      v == o.value && errors.items == old(errors.items) + o.errors
  {
    if given.Some? {
      if given.value.TString? {
        return Some(VString(given.value.text));
      }
      errors.Push(TypeMismatch(path, "string", TypeName(given.value)));
      return None;
    }
    if d.Some? {
      return Some(VString(d.value));
    }
    errors.Push(Required(path));
    v := None;
  }

  method ResolveInt(path: string, d: Option<int>, min: Option<int>, max: Option<int>, given: Option<Toml>,
      errors: Errors)
    returns (v: Option<Value>)
    modifies errors
    ensures var o := IntOutcome(path, d, min, max, given);
      v == o.value && errors.items == old(errors.items) + o.errors
  {
    var n, source;
    if given.Some? {
      if !given.value.TInteger? {
        errors.Push(TypeMismatch(path, "int", TypeName(given.value)));
        return None;
      }
      n, source := given.value.number, Override;
    } else {
      if d.None? {
        errors.Push(Required(path));
        return None;
      }
      n, source := d.value, Default;
    }
    CheckRange(path, n, min, max, source, errors);
    v := Some(VInt(n));
  }

  method ResolveFloat(path: string, d: Option<Float>, min: Option<Float>, max: Option<Float>, given: Option<Toml>,
      errors: Errors)
    returns (v: Option<Value>)
    modifies errors
    ensures var o := FloatOutcome(path, d, min, max, given);
      v == o.value && errors.items == old(errors.items) + o.errors
  {
    var f, source;
    if given.Some? {
      if AsFloat(given.value).None? {
        errors.Push(TypeMismatch(path, "float", TypeName(given.value)));
        return None;
      }
      f, source := AsFloat(given.value).value, Override;
    } else {
      if d.None? {
        errors.Push(Required(path));
        return None;
      }
      f, source := d.value, Default;
    }
    if !f.IsFinite() {
      errors.Push(FloatNotFinite(path, if source == Override then "override" else "default", f));
      return None;
    }
    CheckRangeF(path, f, min, max, source, errors);
    v := Some(VFloat(f));
  }

  method ResolveEnum(path: string, values: seq<string>, d: Option<string>, given: Option<Toml>, errors: Errors)
    returns (v: Option<Value>)
    modifies errors
    ensures var o := EnumOutcome(path, values, d, given);
      v == o.value && errors.items == old(errors.items) + o.errors
  {
    if values == [] {
      errors.Push(EnumEmpty(path));
      return None;
    }
    var s, source;
    if given.Some? {
      if !given.value.TString? {
        errors.Push(TypeMismatch(path, "string", TypeName(given.value)));
        return None;
      }
      s, source := given.value.text, Override;
    } else {
      if d.None? {
        errors.Push(Required(path));
        return None;
      }
      s, source := d.value, Default;
    }
    if s !in values {
      errors.Push(if source == Default then EnumDefaultOutOfRange(path, s, values)
                  else EnumOutOfRange(path, s, values));
      return None;
    }
    v := Some(VString(s));
  }

  method PushUnknown(prefix: string, fields: Schema, entries: seq<Entry>, errors: Errors)
    modifies errors
    ensures errors.items == old(errors.items) + UnknownErrors(prefix, fields, entries)
  {
    for i := 0 to |entries|
      invariant errors.items == old(errors.items) + UnknownErrors(prefix, fields, entries[..i])
    {
      assert entries[..i + 1][..i] == entries[..i];
      if !Declares(fields, entries[i].key) {
        errors.Push(UnknownConfigKey(prefix + entries[i].key));
      }
    }
    assert entries[..|entries|] == entries;
  }

  method ResolveField(path: string, ty: FieldType, given: Option<Toml>, errors: Errors) returns (v: Option<Value>)
    modifies errors
    ensures v == Resolve(path, ty, given).value
    ensures errors.items == old(errors.items) + Resolve(path, ty, given).errors
    decreases ty, 1
  {
    match ty
    case BoolField(d) => v := ResolveBool(path, d, given, errors);
    case IntField(d, min, max) => v := ResolveInt(path, d, min, max, given, errors);
    case FloatField(d, min, max) => v := ResolveFloat(path, d, min, max, given, errors);
    case StringField(d) => v := ResolveString(path, d, given, errors);
    case EnumField(values, d) => v := ResolveEnum(path, values, d, given, errors);
    case NestedField(fields) =>
      if given.Some? && !given.value.TTable? {
        errors.Push(TypeMismatch(path, "table", TypeName(given.value)));
        return None;
      }
      var entries := if given.Some? then given.value.entries else [];
      PushUnknown(path + ".", fields, entries, errors);
      var values := ResolveEach(path + ".", fields, entries, errors);
      v := Some(VNested(values));
  }

  lemma NoFields(prefix: string, fields: Schema, entries: seq<Entry>)
    ensures ResolveFields(prefix, fields[..0], entries) == Collected([], [])
  {
  }

  lemma OneMoreField(prefix: string, fields: Schema, entries: seq<Entry>, i: nat)
    requires i < |fields|
    ensures var o := Resolve(prefix + fields[i].name, fields[i].ty, Lookup(entries, fields[i].name));
      var front := ResolveFields(prefix, fields[..i], entries);
      var all := ResolveFields(prefix, fields[..i + 1], entries);
      && all.values == front.values + (if o.value.Some? then [Named(fields[i].name, o.value.value)] else [])
      && all.errors == front.errors + o.errors
  {
    assert fields[..i + 1][..i] == fields[..i];
  }

  method ResolveEach(prefix: string, fields: Schema, entries: seq<Entry>, errors: Errors) returns (values: seq<Named>)
    modifies errors
    ensures values == ResolveFields(prefix, fields, entries).values
    ensures errors.items == old(errors.items) + ResolveFields(prefix, fields, entries).errors
    decreases fields, 0
  {
    hide Resolve, ResolveFields, Lookup;
    NoFields(prefix, fields, entries);
    values := [];
    for i := 0 to |fields|
      invariant values == ResolveFields(prefix, fields[..i], entries).values
      invariant errors.items == old(errors.items) + ResolveFields(prefix, fields[..i], entries).errors
    {
      OneMoreField(prefix, fields, entries, i);
      var v := ResolveField(prefix + fields[i].name, fields[i].ty, Lookup(entries, fields[i].name), errors);
      if v.Some? {
        values := values + [Named(fields[i].name, v.value)];
      }
    }
    assert fields[..|fields|] == fields;
  }

  method Merge(schema: Schema, overrides: Toml) returns (r: Result<seq<Named>, seq<Error>>)
    ensures r == Merged(schema, overrides)
  {
    var errors := new Errors();
    if !overrides.TTable? {
      errors.Push(ConfigOverrideShape("<root>"));
      return Err(errors.items);
    }
    PushUnknown("", schema, overrides.entries, errors);
    var out := ResolveEach("", schema, overrides.entries, errors);
    assert [] + MergeErrors(schema, overrides) == MergeErrors(schema, overrides);
    assert errors.items == MergeErrors(schema, overrides);
    r := if errors.items == [] then Ok(out) else Err(errors.items);
  }

  // ---- Validation of the schema itself ----

  function IntSchemaErrors(path: string, d: Option<int>, min: Option<int>, max: Option<int>): seq<Error> {
    if min.Some? && max.Some? && min.value > max.value then [IntRangeInvalid(path, min.value, max.value)]
    else if d.None? then []
    else
      (if min.Some? && d.value < min.value then [IntDefaultOutOfRange(path, d.value, min, max)] else [])
      + (if max.Some? && d.value > max.value then [IntDefaultOutOfRange(path, d.value, min, max)] else [])
  }

  function FloatBoundErrors(path: string, d: Option<Float>, min: Option<Float>, max: Option<Float>): seq<Error> {
    if min.Some? && max.Some? && min.value.IsFinite() && max.value.IsFinite() && max.value.Lt(min.value) then
      [FloatRangeInvalid(path, min.value, max.value)]
    else if d.None? || !d.value.IsFinite() then []
    else
      (if min.Some? && min.value.IsFinite() && d.value.Lt(min.value) then
          [FloatDefaultOutOfRange(path, d.value, min, max)] else [])
      + (if max.Some? && max.value.IsFinite() && max.value.Lt(d.value) then
          [FloatDefaultOutOfRange(path, d.value, min, max)] else [])
  }

  function FloatSchemaErrors(path: string, d: Option<Float>, min: Option<Float>, max: Option<Float>): seq<Error> {
    NotFiniteErrors(path, d, "default") + NotFiniteErrors(path, min, "min") + NotFiniteErrors(path, max, "max")
    + FloatBoundErrors(path, d, min, max)
  }

  function EnumSchemaErrors(path: string, values: seq<string>, d: Option<string>): seq<Error> {
    (if values == [] then [EnumEmpty(path)] else [])
    + (if d.Some? && values != [] && d.value !in values then [EnumDefaultOutOfRange(path, d.value, values)] else [])
  }

  function FieldErrors(path: string, ty: FieldType): seq<Error>
    decreases ty
  {
    match ty
    case BoolField(_) => []
    case StringField(_) => []
    case IntField(d, min, max) => IntSchemaErrors(path, d, min, max)
    case FloatField(d, min, max) => FloatSchemaErrors(path, d, min, max)
    case EnumField(values, d) => EnumSchemaErrors(path, values, d)
    case NestedField(fields) => SchemaErrors("[config." + path + ".fields]", path + ".", fields)
  }

  function SchemaErrors(parent: string, prefix: string, fields: Schema): seq<Error>
    decreases fields
  {
    if fields == [] then []
    else
      var last := fields[|fields| - 1];
      SchemaErrors(parent, prefix, fields[..|fields| - 1])
      + (if DotFree(last.name) then [] else [FieldNameContainsDot(parent, last.name)])
      + FieldErrors(prefix + last.name, last.ty)
  }

  method ValidateIntField(path: string, d: Option<int>, min: Option<int>, max: Option<int>, errors: Errors)
    modifies errors
    ensures errors.items == old(errors.items) + IntSchemaErrors(path, d, min, max)
  {
    if min.Some? && max.Some? && min.value > max.value {
      errors.Push(IntRangeInvalid(path, min.value, max.value));
      return;
    }
    if d.None? {
      return;
    }
    if min.Some? && d.value < min.value {
      errors.Push(IntDefaultOutOfRange(path, d.value, min, max));
    }
    if max.Some? && d.value > max.value {
      errors.Push(IntDefaultOutOfRange(path, d.value, min, max));
    }
  }

  method CheckFloatFinite(path: string, f: Option<Float>, role: string, errors: Errors)
    modifies errors
    ensures errors.items == old(errors.items) + NotFiniteErrors(path, f, role)
  {
    if f.Some? && !f.value.IsFinite() {
      errors.Push(FloatNotFinite(path, role, f.value));
    }
  }

  method ValidateFloatField(path: string, d: Option<Float>, min: Option<Float>, max: Option<Float>, errors: Errors)
    modifies errors
    ensures errors.items == old(errors.items) + FloatSchemaErrors(path, d, min, max)
  {
    hide NotFiniteErrors, Float.Lt;
    CheckFloatFinite(path, d, "default", errors);
    CheckFloatFinite(path, min, "min", errors);
    CheckFloatFinite(path, max, "max", errors);
    CheckFloatBounds(path, d, min, max, errors);
  }

  method CheckFloatBounds(path: string, d: Option<Float>, min: Option<Float>, max: Option<Float>, errors: Errors)
    modifies errors
    ensures errors.items == old(errors.items) + FloatBoundErrors(path, d, min, max)
  {
    hide Float.Lt;
    if min.Some? && max.Some? && min.value.IsFinite() && max.value.IsFinite() && max.value.Lt(min.value) {
      errors.Push(FloatRangeInvalid(path, min.value, max.value));
      return;
    }
    if d.None? || !d.value.IsFinite() {
      return;
    }
    if min.Some? && min.value.IsFinite() && d.value.Lt(min.value) {
      errors.Push(FloatDefaultOutOfRange(path, d.value, min, max));
    }
    if max.Some? && max.value.IsFinite() && max.value.Lt(d.value) {
      errors.Push(FloatDefaultOutOfRange(path, d.value, min, max));
    }
  }

  method ValidateEnumField(path: string, values: seq<string>, d: Option<string>, errors: Errors)
    modifies errors
    ensures errors.items == old(errors.items) + EnumSchemaErrors(path, values, d)
  {
    if values == [] {
      errors.Push(EnumEmpty(path));
    }
    if d.Some? && values != [] && d.value !in values {
      errors.Push(EnumDefaultOutOfRange(path, d.value, values));
    }
  }

  method ValidateConfigField(path: string, ty: FieldType, errors: Errors)
    modifies errors
    ensures errors.items == old(errors.items) + FieldErrors(path, ty)
    decreases ty, 1
  {
    match ty
    case BoolField(_) =>
    case StringField(_) =>
    case IntField(d, min, max) => ValidateIntField(path, d, min, max, errors);
    case FloatField(d, min, max) => ValidateFloatField(path, d, min, max, errors);
    case EnumField(values, d) => ValidateEnumField(path, values, d, errors);
    case NestedField(fields) => ValidateEach("[config." + path + ".fields]", path + ".", fields, errors);
  }

  method ValidateEach(parent: string, prefix: string, fields: Schema, errors: Errors)
    modifies errors
    ensures errors.items == old(errors.items) + SchemaErrors(parent, prefix, fields)
    decreases fields, 0
  {
    hide FieldErrors;
    for i := 0 to |fields|
      invariant errors.items == old(errors.items) + SchemaErrors(parent, prefix, fields[..i])
    {
      assert fields[..i + 1][..i] == fields[..i];
      if '.' in fields[i].name {
        errors.Push(FieldNameContainsDot(parent, fields[i].name));
      }
      ValidateConfigField(prefix + fields[i].name, fields[i].ty, errors);
    }
    assert fields[..|fields|] == fields;
  }

  /** The config part of manifest validation. */
  method Validate(schema: Schema) returns (errors: Errors)
    ensures errors.items == SchemaErrors("[config]", "", schema)
  {
    errors := new Errors();
    ValidateEach("[config]", "", schema, errors);
  }
}
