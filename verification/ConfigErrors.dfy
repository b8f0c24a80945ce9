/**
  Which errors `merge` and `validate` report, read off the schema and the overrides
  alone (crates/oxidhome-manifest/src/config.rs and validate.rs).  No schema is assumed
  to have been validated.
 */
module ConfigErrors {
  import opened Prelude
  import opened ConfigSchema
  import opened ConfigMerge
  import opened ConfigTheorems

  // ---- The fields and keys that are reached ----

  /** A declared field with its dotted path and what the overrides give for it. */
  datatype Site = Site(path: string, ty: FieldType, given: Option<Toml>)

  ghost predicate SiteIn(path: string, ty: FieldType, given: Option<Toml>, s: Site)
    decreases ty
  {
    || s == Site(path, ty, given)
    || (ty.NestedField? && SubTable(given).Some? && SiteAmong(path + ".", ty.fields, SubTable(given).value, s))
  }

  ghost predicate SiteAmong(prefix: string, fields: Schema, entries: seq<Entry>, s: Site)
    decreases fields
  {
    exists k :: 0 <= k < |fields|
                && SiteIn(prefix + fields[k].name, fields[k].ty, Lookup(entries, fields[k].name), s)
  }

  /** At some level below, a key that is not declared there has the path `p`. */
  ghost predicate UndeclaredIn(path: string, ty: FieldType, given: Option<Toml>, p: string)
    decreases ty
  {
    && ty.NestedField? && SubTable(given).Some?
    && (UnknownAt(path + ".", ty.fields, SubTable(given).value, p)
        || UndeclaredAmong(path + ".", ty.fields, SubTable(given).value, p))
  }

  ghost predicate UndeclaredAmong(prefix: string, fields: Schema, entries: seq<Entry>, p: string)
    decreases fields
  {
    exists k :: 0 <= k < |fields|
                && UndeclaredIn(prefix + fields[k].name, fields[k].ty, Lookup(entries, fields[k].name), p)
  }

  // ---- What is reported for one field ----

  ghost predicate Wanted(ty: FieldType, name: string) {
    match ty
    case BoolField(_) => name == "bool"
    case IntField(_, _, _) => name == "int"
    case FloatField(_, _, _) => name == "float"
    case StringField(_) => name == "string"
    case EnumField(_, _) => name == "string"
    case NestedField(_) => name == "table"
  }

  ghost predicate Called(v: Toml, name: string) {
    || (v.TString? && name == "string") || (v.TInteger? && name == "int") || (v.TFloat? && name == "float")
    || (v.TBoolean? && name == "bool") || (v.TDatetime? && name == "datetime") || (v.TArray? && name == "array")
    || (v.TTable? && name == "table")
  }

  /** An integer will do for a float. */
  ghost predicate HasType(ty: FieldType, v: Toml) {
    match ty
    case BoolField(_) => v.TBoolean?
    case IntField(_, _, _) => v.TInteger?
    case FloatField(_, _, _) => v.TFloat? || v.TInteger?
    case StringField(_) => v.TString?
    case EnumField(_, _) => v.TString?
    case NestedField(_) => v.TTable?
  }

  /** An enum without values: the one schema error that hides everything else. */
  ghost predicate OffersNothing(ty: FieldType) {
    ty.EnumField? && ty.values == []
  }

  ghost predicate Ordered(min: Option<int>, max: Option<int>) {
    min.Some? && max.Some? ==> min.value <= max.value
  }

  ghost predicate FiniteAndOrdered(min: Option<Float>, max: Option<Float>) {
    && FiniteIfGiven(min) && FiniteIfGiven(max)
    && (min.Some? && max.Some? ==> min.value.value <= max.value.value)
  }

  /** The integer, or the float, the field is to take: given or default. */
  function IntAt(d: Option<int>, given: Option<Toml>): Option<int> {
    match given
    case None => d
    case Some(TInteger(n)) => Some(n)
    case Some(_) => None
  }

  function FloatAt(d: Option<Float>, given: Option<Toml>): Option<Float> {
    match given
    case None => d
    case Some(TFloat(f)) => Some(f)
    case Some(TInteger(n)) => Some(Fin(n as real))
    case Some(_) => None
  }

  /** A given number breaks the bound named, the bounds themselves being in order. */
  ghost predicate Breaks(ty: FieldType, given: Option<Toml>, bound: Bound, got: Number) {
    match ty
    case IntField(d, min, max) =>
      && given.Some? && IntAt(d, given).Some? && Ordered(min, max)
      && var n := IntAt(d, given).value;
         got == IntNumber(n)
         && ((min.Some? && n < min.value && bound == AtLeast(IntNumber(min.value)))
             || (max.Some? && n > max.value && bound == AtMost(IntNumber(max.value))))
    case FloatField(d, min, max) =>
      && given.Some? && FloatAt(d, given).Some? && FloatAt(d, given).value.Fin? && FiniteAndOrdered(min, max)
      && var f := FloatAt(d, given).value;
         got == FloatNumber(f)
         && ((min.Some? && f.value < min.value.value && bound == AtLeast(FloatNumber(min.value)))
             || (max.Some? && f.value > max.value.value && bound == AtMost(FloatNumber(max.value))))
    case _ => false
  }

  /** What a float that is not finite is reported as: the value itself, or else a bound. */
  ghost predicate NotFinite(ty: FieldType, given: Option<Toml>, role: string, f: Float) {
    && ty.FloatField? && !f.Fin? && FloatAt(ty.floatDefault, given).Some?
    && var x := FloatAt(ty.floatDefault, given).value;
       if !x.Fin? then f == x && role == (if given.Some? then "override" else "default")
       else (role == "min" && ty.floatMin == Some(f)) || (role == "max" && ty.floatMax == Some(f))
  }

  /** Error `e` is reported for the field itself. */
  ghost predicate SiteReports(s: Site, e: Error) {
    match e
    // Absent, and nothing to fall back on.
    case Required(p) =>
      p == s.path && s.given.None? && !s.ty.NestedField? && !HasDefault(s.ty) && !OffersNothing(s.ty)
    // Given, with the wrong type.
    case TypeMismatch(p, expected, got) =>
      && p == s.path && s.given.Some? && !HasType(s.ty, s.given.value) && !OffersNothing(s.ty)
      && Wanted(s.ty, expected) && Called(s.given.value, got)
    // Given, out of bounds.
    case OutOfRange(p, bound, got) => p == s.path && Breaks(s.ty, s.given, bound, got)
    case EnumOutOfRange(p, got, allowed) =>
      && p == s.path && s.ty.EnumField? && s.ty.values == allowed && allowed != []
      && s.given == Some(TString(got)) && got !in allowed
    case FloatNotFinite(p, role, f) => p == s.path && NotFinite(s.ty, s.given, role, f)
    // The schema's fault.
    case EnumEmpty(p) => p == s.path && OffersNothing(s.ty)
    case EnumDefaultOutOfRange(p, got, allowed) =>
      p == s.path && s.ty == EnumField(allowed, Some(got)) && allowed != [] && s.given.None? && got !in allowed
    case IntRangeInvalid(p, lo, hi) =>
      && p == s.path && s.ty.IntField? && s.ty.intMin == Some(lo) && s.ty.intMax == Some(hi) && lo > hi
      && IntAt(s.ty.intDefault, s.given).Some?
    case IntDefaultOutOfRange(p, n, min, max) =>
      && p == s.path && s.ty == IntField(Some(n), min, max) && s.given.None?
      && Ordered(min, max) && !IntInRange(n, min, max)
    case FloatRangeInvalid(p, lo, hi) =>
      && p == s.path && s.ty.FloatField? && s.ty.floatMin == Some(lo) && s.ty.floatMax == Some(hi)
      && lo.Fin? && hi.Fin? && lo.value > hi.value
      && FloatAt(s.ty.floatDefault, s.given).Some? && FloatAt(s.ty.floatDefault, s.given).value.Fin?
    case FloatDefaultOutOfRange(p, f, min, max) =>
      && p == s.path && s.ty == FloatField(Some(f), min, max) && s.given.None?
      && f.Fin? && FiniteAndOrdered(min, max) && !FloatInRange(f, min, max)
    case _ => false
  }

  // ---- One field ----

  lemma CalledByItsName(v: Toml)
    ensures forall name :: Called(v, name) <==> name == TypeName(v)
  {
  }

  lemma IntReports(path: string, d: Option<int>, min: Option<int>, max: Option<int>, given: Option<Toml>, e: Error)
    ensures e in IntOutcome(path, d, min, max, given).errors <==>
            SiteReports(Site(path, IntField(d, min, max), given), e)
  {
    var n := IntAt(d, given);
    if n.Some? {
      assert n.value == if given.Some? then given.value.number else d.value;
      IntRangeReports(path, n.value, min, max, if given.Some? then Override else Default, e);
      IntValueReports(path, d, min, max, given, e);
      hide SiteReports, RangeErrors, IntRangeReported;
    } else if given.Some? {
      CalledByItsName(given.value);
    }
  }

  /** An integer against its bounds. */
  ghost predicate IntRangeReported(path: string, n: int, min: Option<int>, max: Option<int>, source: Source, e: Error) {
    if !Ordered(min, max) then e == IntRangeInvalid(path, min.value, max.value)
    else if IntInRange(n, min, max) then false
    else if source == Default then e == IntDefaultOutOfRange(path, n, min, max)
    else if min.Some? && n < min.value then e == OutOfRange(path, AtLeast(IntNumber(min.value)), IntNumber(n))
    else e == OutOfRange(path, AtMost(IntNumber(max.value)), IntNumber(n))
  }

  lemma IntRangeReports(path: string, n: int, min: Option<int>, max: Option<int>, source: Source, e: Error)
    ensures e in RangeErrors(path, n, min, max, source) <==> IntRangeReported(path, n, min, max, source, e)
  {
  }

  lemma IntValueReports(path: string, d: Option<int>, min: Option<int>, max: Option<int>, given: Option<Toml>,
      e: Error)
    requires IntAt(d, given).Some?
    ensures SiteReports(Site(path, IntField(d, min, max), given), e) <==>
            IntRangeReported(path, IntAt(d, given).value, min, max, if given.Some? then Override else Default, e)
  {
  }

  lemma NotFiniteReports(path: string, f: Option<Float>, role: string, e: Error)
    ensures e in NotFiniteErrors(path, f, role) <==>
            && e.FloatNotFinite? && e == FloatNotFinite(path, role, e.gotFloat)
            && f == Some(e.gotFloat) && !e.gotFloat.Fin?
  {
  }

  /** A finite float against its bounds. */
  ghost predicate FloatRangeReported(path: string, f: Float, min: Option<Float>, max: Option<Float>, source: Source,
      e: Error)
    requires f.Fin?
  {
    if !FiniteIfGiven(min) || !FiniteIfGiven(max) then
      && e.FloatNotFinite? && e.path == path && !e.gotFloat.Fin?
      && ((e.role == "min" && min == Some(e.gotFloat)) || (e.role == "max" && max == Some(e.gotFloat)))
    else if !FiniteAndOrdered(min, max) then e == FloatRangeInvalid(path, min.value, max.value)
    else if FloatInRange(f, min, max) then false
    else if source == Default then e == FloatDefaultOutOfRange(path, f, min, max)
    else if min.Some? && f.value < min.value.value then
      e == OutOfRange(path, AtLeast(FloatNumber(min.value)), FloatNumber(f))
    else e == OutOfRange(path, AtMost(FloatNumber(max.value)), FloatNumber(f))
  }

  lemma FloatRangeReports(path: string, f: Float, min: Option<Float>, max: Option<Float>, source: Source, e: Error)
    requires f.Fin?
    ensures e in FloatRangeErrors(path, f, min, max, source) <==> FloatRangeReported(path, f, min, max, source, e)
  {
    NotFiniteReports(path, min, "min", e);
    NotFiniteReports(path, max, "max", e);
    assert NotFiniteErrors(path, min, "min") == [] <==> FiniteIfGiven(min);
    assert NotFiniteErrors(path, max, "max") == [] <==> FiniteIfGiven(max);
    hide NotFiniteErrors;
  }

  lemma FloatValueReports(path: string, d: Option<Float>, min: Option<Float>, max: Option<Float>,
      given: Option<Toml>, e: Error)
    requires FloatAt(d, given).Some? && FloatAt(d, given).value.Fin?
    ensures SiteReports(Site(path, FloatField(d, min, max), given), e) <==>
            FloatRangeReported(path, FloatAt(d, given).value, min, max, if given.Some? then Override else Default, e)
  {
  }

  lemma FloatReports(path: string, d: Option<Float>, min: Option<Float>, max: Option<Float>, given: Option<Toml>,
      e: Error)
    ensures e in FloatOutcome(path, d, min, max, given).errors <==>
            SiteReports(Site(path, FloatField(d, min, max), given), e)
  {
    var f := FloatAt(d, given);
    assert f == if given.Some? then AsFloat(given.value) else d;
    if f.Some? && f.value.Fin? {
      FloatRangeReports(path, f.value, min, max, if given.Some? then Override else Default, e);
      FloatValueReports(path, d, min, max, given, e);
      hide SiteReports, FloatRangeErrors, FloatRangeReported;
    } else {
      NoFloatReports(path, d, min, max, given, e);
    }
  }

  lemma NoFloatReports(path: string, d: Option<Float>, min: Option<Float>, max: Option<Float>, given: Option<Toml>,
      e: Error)
    requires FloatAt(d, given).None? || !FloatAt(d, given).value.Fin?
    ensures e in FloatOutcome(path, d, min, max, given).errors <==>
            SiteReports(Site(path, FloatField(d, min, max), given), e)
  {
    hide FloatRangeErrors;
    if given.Some? {
      CalledByItsName(given.value);
    }
  }

  lemma OtherReports(path: string, ty: FieldType, given: Option<Toml>, e: Error)
    requires ty.BoolField? || ty.StringField? || ty.EnumField? || (ty.NestedField? && SubTable(given).None?)
    ensures e in Resolve(path, ty, given).errors <==> SiteReports(Site(path, ty, given), e)
  {
    if given.Some? {
      CalledByItsName(given.value);
    }
  }

  lemma ScalarReports(path: string, ty: FieldType, given: Option<Toml>, e: Error)
    requires !ty.NestedField?
    ensures e in Resolve(path, ty, given).errors <==> SiteReports(Site(path, ty, given), e)
  {
    hide IntOutcome, FloatOutcome, SiteReports;
    match ty
    case IntField(d, min, max) => IntReports(path, d, min, max, given, e);
    case FloatField(d, min, max) => FloatReports(path, d, min, max, given, e);
    case _ => OtherReports(path, ty, given, e);
  }

  // ---- All fields ----

  lemma {:induction false} UnknownReports(prefix: string, fields: Schema, entries: seq<Entry>, e: Error)
    ensures e in UnknownErrors(prefix, fields, entries) <==>
            e.UnknownConfigKey? && UnknownAt(prefix, fields, entries, e.key)
  {
    if entries == [] {
    } else {
      hide Declares;
      var n := |entries| - 1;
      UnknownReports(prefix, fields, entries[..n], e);
      assert forall k :: 0 <= k < n ==> entries[..n][k] == entries[k];
    }
  }

  ghost predicate ReportedIn(path: string, ty: FieldType, given: Option<Toml>, e: Error) {
    || (exists s :: SiteIn(path, ty, given, s) && SiteReports(s, e))
    || (e.UnknownConfigKey? && UndeclaredIn(path, ty, given, e.key))
  }

  ghost predicate ReportedAmong(prefix: string, fields: Schema, entries: seq<Entry>, e: Error) {
    || (exists s :: SiteAmong(prefix, fields, entries, s) && SiteReports(s, e))
    || (e.UnknownConfigKey? && UndeclaredAmong(prefix, fields, entries, e.key))
  }

  lemma LeafReported(path: string, ty: FieldType, given: Option<Toml>, e: Error)
    requires !ty.NestedField? || SubTable(given).None?
    ensures ReportedIn(path, ty, given, e) <==> SiteReports(Site(path, ty, given), e)
  {
    hide SiteReports;
    assert SiteIn(path, ty, given, Site(path, ty, given));
  }

  lemma TableReported(path: string, ty: FieldType, given: Option<Toml>, e: Error)
    requires ty.NestedField? && SubTable(given).Some?
    ensures ReportedIn(path, ty, given, e) <==>
            || (e.UnknownConfigKey? && UnknownAt(path + ".", ty.fields, SubTable(given).value, e.key))
            || ReportedAmong(path + ".", ty.fields, SubTable(given).value, e)
  {
    var entries := SubTable(given).value;
    assert !SiteReports(Site(path, ty, given), e);
    hide SiteReports, SiteAmong, UndeclaredAmong, UnknownAt;
    forall s
      ensures SiteIn(path, ty, given, s) <==> s == Site(path, ty, given) || SiteAmong(path + ".", ty.fields, entries, s)
    {
    }
  }

  lemma AmongSnoc(prefix: string, fields: Schema, entries: seq<Entry>, e: Error)
    requires fields != []
    ensures var n := |fields| - 1;
      ReportedAmong(prefix, fields, entries, e) <==>
      || ReportedAmong(prefix, fields[..n], entries, e)
      || ReportedIn(prefix + fields[n].name, fields[n].ty, Lookup(entries, fields[n].name), e)
  {
    hide SiteReports, SiteIn, UndeclaredIn, Lookup;
    var n := |fields| - 1;
    assert forall k :: 0 <= k < n ==> fields[..n][k] == fields[k];
    forall s
      ensures SiteAmong(prefix, fields, entries, s) <==>
              || SiteAmong(prefix, fields[..n], entries, s)
              || SiteIn(prefix + fields[n].name, fields[n].ty, Lookup(entries, fields[n].name), s)
    {
    }
  }

  lemma {:induction false} FieldReports(path: string, ty: FieldType, given: Option<Toml>, e: Error)
    ensures e in Resolve(path, ty, given).errors <==> ReportedIn(path, ty, given, e)
    decreases ty
  {
    hide ReportedIn, ReportedAmong, SiteReports;
    if !ty.NestedField? {
      LeafReported(path, ty, given, e);
      ScalarReports(path, ty, given, e);
    } else if SubTable(given).None? {
      LeafReported(path, ty, given, e);
      OtherReports(path, ty, given, e);
    } else {
      TableReported(path, ty, given, e);
      UnknownReports(path + ".", ty.fields, SubTable(given).value, e);
      FieldsReport(path + ".", ty.fields, SubTable(given).value, e);
    }
  }

  lemma {:induction false} FieldsReport(prefix: string, fields: Schema, entries: seq<Entry>, e: Error)
    ensures e in ResolveFields(prefix, fields, entries).errors <==> ReportedAmong(prefix, fields, entries, e)
    decreases fields
  {
    if fields == [] {
    } else {
      hide Resolve, ReportedIn, ReportedAmong, Lookup;
      var n := |fields| - 1;
      FieldsReport(prefix, fields[..n], entries, e);
      FieldReports(prefix + fields[n].name, fields[n].ty, Lookup(entries, fields[n].name), e);
      AmongSnoc(prefix, fields, entries, e);
    }
  }

  /** For any schema and overrides, `merge` returns exactly these errors: for overrides
      that are not a table, their shape alone; otherwise, for every field reached, what
      is wrong with its value, and for every undeclared key at any level, the key. */
  lemma MergeReportsExactly(schema: Schema, overrides: Toml, e: Error)
    ensures Merged(schema, overrides).Err? && e in Merged(schema, overrides).error <==>
            if overrides.TTable? then
              || (exists s :: SiteAmong("", schema, overrides.entries, s) && SiteReports(s, e))
              || (e.UnknownConfigKey? && (UnknownAt("", schema, overrides.entries, e.key)
                                          || UndeclaredAmong("", schema, overrides.entries, e.key)))
            else e == ConfigOverrideShape("<root>")
  {
    if overrides.TTable? {
      hide SiteReports, SiteAmong, UndeclaredAmong, UnknownAt, UnknownErrors, ResolveFields;
      UnknownReports("", schema, overrides.entries, e);
      FieldsReport("", schema, overrides.entries, e);
    }
  }

  // ---- What validation reports ----

  /** A declared field with its dotted path, at any depth. */
  ghost predicate DeclaredIn(path: string, ty: FieldType, p: string, t: FieldType)
    decreases ty
  {
    (p == path && t == ty) || (ty.NestedField? && DeclaredAmong(path + ".", ty.fields, p, t))
  }

  ghost predicate DeclaredAmong(prefix: string, fields: Schema, p: string, t: FieldType)
    decreases fields
  {
    exists k :: 0 <= k < |fields| && DeclaredIn(prefix + fields[k].name, fields[k].ty, p, t)
  }

  /** Below this field, a name with a dot is declared in the table called `parent`. */
  ghost predicate DottedNameIn(path: string, ty: FieldType, parent: string, name: string)
    decreases ty
  {
    && ty.NestedField?
    && DottedNameAmong("[config." + path + ".fields]", path + ".", ty.fields, parent, name)
  }

  ghost predicate DottedNameAmong(table: string, prefix: string, fields: Schema, parent: string, name: string)
    decreases fields
  {
    exists k :: 0 <= k < |fields|
                && ((parent == table && name == fields[k].name && '.' in name)
                    || DottedNameIn(prefix + fields[k].name, fields[k].ty, parent, name))
  }

  /** Error `e` is reported for the declaration of the field itself. */
  ghost predicate DeclarationReports(p: string, ty: FieldType, e: Error) {
    match e
    case EnumEmpty(q) => q == p && OffersNothing(ty)
    case EnumDefaultOutOfRange(q, got, allowed) =>
      q == p && ty == EnumField(allowed, Some(got)) && allowed != [] && got !in allowed
    case IntRangeInvalid(q, lo, hi) =>
      q == p && ty.IntField? && ty.intMin == Some(lo) && ty.intMax == Some(hi) && lo > hi
    case IntDefaultOutOfRange(q, n, min, max) =>
      q == p && ty == IntField(Some(n), min, max) && Ordered(min, max) && !IntInRange(n, min, max)
    case FloatNotFinite(q, role, f) =>
      && q == p && ty.FloatField? && !f.Fin?
      && ((role == "default" && ty.floatDefault == Some(f)) || (role == "min" && ty.floatMin == Some(f))
          || (role == "max" && ty.floatMax == Some(f)))
    case FloatRangeInvalid(q, lo, hi) =>
      && q == p && ty.FloatField? && ty.floatMin == Some(lo) && ty.floatMax == Some(hi)
      && lo.Fin? && hi.Fin? && lo.value > hi.value
    // A bound that is not finite is not compared with.
    case FloatDefaultOutOfRange(q, f, min, max) =>
      && q == p && ty == FloatField(Some(f), min, max) && f.Fin?
      && !(min.Some? && max.Some? && min.value.Fin? && max.value.Fin? && min.value.value > max.value.value)
      && ((min.Some? && min.value.Fin? && f.value < min.value.value)
          || (max.Some? && max.value.Fin? && f.value > max.value.value))
    case _ => false
  }

  lemma IntDeclaration(p: string, d: Option<int>, min: Option<int>, max: Option<int>, e: Error)
    ensures e in IntSchemaErrors(p, d, min, max) <==> DeclarationReports(p, IntField(d, min, max), e)
  {
  }

  lemma FloatBoundDeclaration(p: string, d: Option<Float>, min: Option<Float>, max: Option<Float>, e: Error)
    ensures e in FloatBoundErrors(p, d, min, max) <==>
            !e.FloatNotFinite? && DeclarationReports(p, FloatField(d, min, max), e)
  {
  }

  lemma FloatDeclaration(p: string, d: Option<Float>, min: Option<Float>, max: Option<Float>, e: Error)
    ensures e in FloatSchemaErrors(p, d, min, max) <==> DeclarationReports(p, FloatField(d, min, max), e)
  {
    NotFiniteReports(p, d, "default", e);
    NotFiniteReports(p, min, "min", e);
    NotFiniteReports(p, max, "max", e);
    FloatBoundDeclaration(p, d, min, max, e);
    hide NotFiniteErrors, FloatBoundErrors;
    if !e.FloatNotFinite? {
      hide DeclarationReports;
    }
  }

  lemma ScalarDeclaration(p: string, ty: FieldType, e: Error)
    requires !ty.NestedField?
    ensures e in FieldErrors(p, ty) <==> DeclarationReports(p, ty, e)
  {
    match ty
    case IntField(d, min, max) => IntDeclaration(p, d, min, max, e);
    case FloatField(d, min, max) => FloatDeclaration(p, d, min, max, e);
    case _ =>
  }

  ghost predicate FoundIn(path: string, ty: FieldType, e: Error) {
    || (exists p, t :: DeclaredIn(path, ty, p, t) && DeclarationReports(p, t, e))
    || (e.FieldNameContainsDot? && DottedNameIn(path, ty, e.parent, e.name))
  }

  ghost predicate FoundAmong(table: string, prefix: string, fields: Schema, e: Error) {
    || (exists p, t :: DeclaredAmong(prefix, fields, p, t) && DeclarationReports(p, t, e))
    || (e.FieldNameContainsDot? && DottedNameAmong(table, prefix, fields, e.parent, e.name))
  }

  lemma FoundInUnfolds(path: string, ty: FieldType, e: Error)
    ensures !ty.NestedField? ==> (FoundIn(path, ty, e) <==> DeclarationReports(path, ty, e))
    ensures ty.NestedField? ==>
              (FoundIn(path, ty, e) <==> FoundAmong("[config." + path + ".fields]", path + ".", ty.fields, e))
  {
    assert ty.NestedField? ==> !DeclarationReports(path, ty, e);
    hide DeclarationReports, DeclaredAmong, DottedNameAmong;
    assert DeclaredIn(path, ty, path, ty);
    forall p, t
      ensures DeclaredIn(path, ty, p, t) <==>
              (p == path && t == ty) || (ty.NestedField? && DeclaredAmong(path + ".", ty.fields, p, t))
    {
    }
  }

  lemma FoundSnoc(table: string, prefix: string, fields: Schema, e: Error)
    requires fields != []
    ensures var n := |fields| - 1;
      FoundAmong(table, prefix, fields, e) <==>
      || FoundAmong(table, prefix, fields[..n], e)
      || FoundIn(prefix + fields[n].name, fields[n].ty, e)
      || ('.' in fields[n].name && e == FieldNameContainsDot(table, fields[n].name))
  {
    hide DeclarationReports, DeclaredIn, DottedNameIn;
    var n := |fields| - 1;
    assert forall k :: 0 <= k < n ==> fields[..n][k] == fields[k];
    forall p, t
      ensures DeclaredAmong(prefix, fields, p, t) <==>
              DeclaredAmong(prefix, fields[..n], p, t) || DeclaredIn(prefix + fields[n].name, fields[n].ty, p, t)
    {
    }
  }

  lemma {:induction false} FieldFound(path: string, ty: FieldType, e: Error)
    ensures e in FieldErrors(path, ty) <==> FoundIn(path, ty, e)
    decreases ty
  {
    hide FoundIn, FoundAmong, DeclarationReports;
    FoundInUnfolds(path, ty, e);
    if ty.NestedField? {
      FieldsFound("[config." + path + ".fields]", path + ".", ty.fields, e);
    } else {
      ScalarDeclaration(path, ty, e);
    }
  }

  lemma {:induction false} FieldsFound(table: string, prefix: string, fields: Schema, e: Error)
    ensures e in SchemaErrors(table, prefix, fields) <==> FoundAmong(table, prefix, fields, e)
    decreases fields
  {
    if fields == [] {
    } else {
      hide FieldErrors, FoundIn, FoundAmong;
      var n := |fields| - 1;
      FieldsFound(table, prefix, fields[..n], e);
      FieldFound(prefix + fields[n].name, fields[n].ty, e);
      FoundSnoc(table, prefix, fields, e);
    }
  }

  /** Validation reports exactly what is wrong with each declaration, at any depth, and
      each name with a dot, under the table that declares it. */
  lemma ValidateReportsExactly(schema: Schema, e: Error)
    ensures e in SchemaErrors("[config]", "", schema) <==>
            || (exists p, t :: DeclaredAmong("", schema, p, t) && DeclarationReports(p, t, e))
            || (e.FieldNameContainsDot? && DottedNameAmong("[config]", "", schema, e.parent, e.name))
  {
    hide DeclarationReports, DeclaredAmong, DottedNameAmong, SchemaErrors;
    FieldsFound("[config]", "", schema, e);
  }
}
