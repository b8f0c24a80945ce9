/**
  Validation and merging agree: what a validated schema guarantees to `merge`.
 */
module ConfigTheorems {
  import opened Prelude
  import opened ConfigSchema
  import opened ConfigMerge

  // ---- Validation finds exactly the unsound schemas ----

  lemma IntSchemaSound(path: string, ty: FieldType)
    requires ty.IntField? || ty.FloatField? || ty.EnumField?
    ensures FieldErrors(path, ty) == [] <==> Sound(ty)
  {
  }

  /** A field passes validation exactly when it is sound, at every depth. */
  lemma {:induction false} ValidateMeansSound(path: string, ty: FieldType)
    ensures FieldErrors(path, ty) == [] <==> Sound(ty)
    decreases ty
  {
    match ty
    case NestedField(fields) => ValidateAllMeansSound("[config." + path + ".fields]", path + ".", fields);
    case BoolField(_) =>
    case StringField(_) =>
    case IntField(_, _, _) => IntSchemaSound(path, ty);
    case FloatField(_, _, _) => IntSchemaSound(path, ty);
    case EnumField(_, _) => IntSchemaSound(path, ty);
  }

  lemma {:induction false} ValidateAllMeansSound(parent: string, prefix: string, fields: Schema)
    ensures SchemaErrors(parent, prefix, fields) == [] <==> SoundSchema(fields)
    decreases fields
  {
    if fields == [] {
    } else {
      hide Sound, FieldErrors;
      var n := |fields| - 1;
      ValidateAllMeansSound(parent, prefix, fields[..n]);
      ValidateMeansSound(prefix + fields[n].name, fields[n].ty);
      assert fields == fields[..n] + [fields[n]];
      assert SoundSchema(fields) <==> SoundSchema(fields[..n]) && DotFree(fields[n].name) && Sound(fields[n].ty);
    }
  }

  // ---- Merging a sound schema ----

  lemma ScalarMerges(path: string, ty: FieldType, given: Option<Toml>)
    requires Sound(ty) && !ty.NestedField?
    ensures Resolve(path, ty, given).errors == [] <==> Accepts(ty, given)
    ensures Accepts(ty, given) ==>
              Resolve(path, ty, given).value.Some? && Resolves(ty, given, Resolve(path, ty, given).value.value)
  {
  }

  ghost predicate EachAccepts(fields: Schema, entries: seq<Entry>) {
    forall k :: 0 <= k < |fields| ==> Accepts(fields[k].ty, Lookup(entries, fields[k].name))
  }

  lemma {:induction false} NoUnknownKeys(prefix: string, fields: Schema, entries: seq<Entry>)
    ensures UnknownErrors(prefix, fields, entries) == [] <==> KeysDeclared(fields, entries)
  {
    if entries == [] {
    } else {
      var n := |entries| - 1;
      NoUnknownKeys(prefix, fields, entries[..n]);
      hide Declares;
      assert entries == entries[..n] + [entries[n]];
      assert entries[n] in entries;
    }
  }

  lemma {:induction false} FieldMerges(path: string, ty: FieldType, given: Option<Toml>)
    requires Sound(ty)
    ensures Resolve(path, ty, given).errors == [] <==> Accepts(ty, given)
    ensures Accepts(ty, given) ==>
              Resolve(path, ty, given).value.Some? && Resolves(ty, given, Resolve(path, ty, given).value.value)
    decreases ty
  {
    if ty.NestedField? {
      if given.None? || given.value.TTable? {
        var entries := if given.Some? then given.value.entries else [];
        NoUnknownKeys(path + ".", ty.fields, entries);
        FieldsMerge(path + ".", ty.fields, entries);
        hide KeysDeclared, UnknownErrors, ResolveFields, SoundSchema, ResolvesAll;
        assert AcceptsAll(ty.fields, entries) <==> KeysDeclared(ty.fields, entries) && EachAccepts(ty.fields, entries);
      }
    } else {
      ScalarMerges(path, ty, given);
    }
  }

  lemma EachAcceptsSnoc(fields: Schema, entries: seq<Entry>)
    requires fields != []
    ensures var n := |fields| - 1;
      EachAccepts(fields, entries) <==>
      EachAccepts(fields[..n], entries) && Accepts(fields[n].ty, Lookup(entries, fields[n].name))
  {
    hide Accepts, Lookup;
    var n := |fields| - 1;
    assert forall k :: 0 <= k < n ==> fields[..n][k] == fields[k];
  }

  lemma ResolvesAllSnoc(fields: Schema, entries: seq<Entry>, values: seq<Named>, v: Value)
    requires fields != []
    requires ResolvesAll(fields[..|fields| - 1], entries, values)
    requires Resolves(fields[|fields| - 1].ty, Lookup(entries, fields[|fields| - 1].name), v)
    ensures ResolvesAll(fields, entries, values + [Named(fields[|fields| - 1].name, v)])
  {
    hide Resolves, Lookup;
    var n := |fields| - 1;
    assert forall k :: 0 <= k < n ==> fields[..n][k] == fields[k];
  }

  lemma {:induction false} FieldsMerge(prefix: string, fields: Schema, entries: seq<Entry>)
    requires SoundSchema(fields)
    ensures ResolveFields(prefix, fields, entries).errors == [] <==> EachAccepts(fields, entries)
    ensures EachAccepts(fields, entries) ==> ResolvesAll(fields, entries, ResolveFields(prefix, fields, entries).values)
    decreases fields
  {
    if fields == [] {
    } else {
      hide Sound, Accepts, Resolve, Resolves, Lookup;
      var n := |fields| - 1;
      FieldsMerge(prefix, fields[..n], entries);
      FieldMerges(prefix + fields[n].name, fields[n].ty, Lookup(entries, fields[n].name));
      EachAcceptsSnoc(fields, entries);
      hide EachAccepts, ResolvesAll, SoundSchema;
      if EachAccepts(fields, entries) {
        var o := Resolve(prefix + fields[n].name, fields[n].ty, Lookup(entries, fields[n].name));
        ResolvesAllSnoc(fields, entries, ResolveFields(prefix, fields[..n], entries).values, o.value.value);
      }
    }
  }

  /** On a schema that passes validation, `merge` succeeds exactly when the overrides are
      a table that conforms recursively and every absent leaf has a default; and then the
      result has exactly the schema's keys at each level, every value the override's or
      the default's, typed, in range, finite and in its enum. */
  lemma MergeRefinesSpec(schema: Schema, overrides: Toml)
    requires SchemaErrors("[config]", "", schema) == []
    ensures Merged(schema, overrides).Ok? <==> overrides.TTable? && AcceptsAll(schema, overrides.entries)
    ensures Merged(schema, overrides).Ok? ==> ResolvesAll(schema, overrides.entries, Merged(schema, overrides).value)
  {
    hide Resolve, Accepts, ResolvesAll;
    ValidateAllMeansSound("[config]", "", schema);
    if overrides.TTable? {
      NoUnknownKeys("", schema, overrides.entries);
      FieldsMerge("", schema, overrides.entries);
    }
  }

  // ---- Who is blamed, and where ----

  /** Errors a deployment can be blamed for; the others are the schema author's. */
  predicate OverrideSide(e: Error) {
    match e
    case ConfigOverrideShape(_) => true
    case UnknownConfigKey(_) => true
    case TypeMismatch(_, _, _) => true
    case Required(_) => true
    case OutOfRange(_, _, _) => true
    case EnumOutOfRange(_, _, _) => true
    case FloatNotFinite(_, role, _) => role == "override"
    case _ => false
  }

  /** The declared field an error is put on; unknown keys are not on one. */
  function ErrorAt(e: Error): Option<string> {
    match e
    case UnknownConfigKey(_) => None
    case FieldNameContainsDot(_, _) => None
    case _ => Some(e.path)
  }

  /** `q` is `path` or a path below it. */
  predicate Under(path: string, q: string) {
    q == path || (|path| < |q| && q[..|path|] == path && q[|path|] == '.')
  }

  ghost predicate AllUnder(path: string, errors: seq<Error>) {
    forall e :: e in errors && ErrorAt(e).Some? ==> Under(path, ErrorAt(e).value)
  }

  ghost predicate NoneShared(errors: seq<Error>) {
    forall i, j :: 0 <= i < j < |errors| && ErrorAt(errors[i]).Some? ==> ErrorAt(errors[i]) != ErrorAt(errors[j])
  }

  /** Distinct keys at every level, as in an ordered map. */
  ghost predicate Keyed(ty: FieldType) {
    ty.NestedField? ==> KeyedSchema(ty.fields)
  }

  ghost predicate KeyedSchema(fields: Schema) {
    && (forall j, k :: 0 <= j < k < |fields| ==> fields[j].name != fields[k].name)
    && (forall k :: 0 <= k < |fields| ==> Keyed(fields[k].ty))
  }

  /** Distinct dot-free siblings never share a path, nor do the fields below them. */
  lemma SiblingsApart(prefix: string, n: string, m: string, q: string)
    requires DotFree(n) && DotFree(m) && Under(prefix + n, q) && Under(prefix + m, q)
    ensures n == m
  {
    if |n| < |m| {
      ShorterSibling(prefix, n, m, q);
    } else if |m| < |n| {
      ShorterSibling(prefix, m, n, q);
    } else {
      assert q[..|prefix + n|] == prefix + n && q[..|prefix + m|] == prefix + m;
      assert n == (prefix + n)[|prefix|..] && m == (prefix + m)[|prefix|..];
    }
  }

  lemma ShorterSibling(prefix: string, n: string, m: string, q: string)
    requires |n| < |m| && Under(prefix + n, q) && Under(prefix + m, q)
    ensures !DotFree(m)
  {
    assert q[..|prefix + m|] == prefix + m;
    assert q[|prefix + n|] == (prefix + m)[|prefix + n|] == m[|n|];
  }

  lemma UnderLonger(path: string, name: string, q: string)
    requires Under(path + "." + name, q)
    ensures Under(path, q)
  {
    assert q[..|path + "." + name|] == path + "." + name;
  }

  /** At most one error, put on the field itself and not the schema's fault. */
  ghost predicate OneOwnError(path: string, errors: seq<Error>) {
    |errors| <= 1 && forall e :: e in errors ==> OverrideSide(e) && ErrorAt(e) == Some(path)
  }

  lemma IntErrors(path: string, d: Option<int>, min: Option<int>, max: Option<int>, given: Option<Toml>)
    requires Sound(IntField(d, min, max))
    ensures OneOwnError(path, IntOutcome(path, d, min, max, given).errors)
  {
  }

  lemma FloatErrors(path: string, d: Option<Float>, min: Option<Float>, max: Option<Float>, given: Option<Toml>)
    requires Sound(FloatField(d, min, max))
    ensures OneOwnError(path, FloatOutcome(path, d, min, max, given).errors)
  {
  }

  lemma ScalarErrors(path: string, ty: FieldType, given: Option<Toml>)
    requires Sound(ty) && !ty.NestedField?
    ensures |Resolve(path, ty, given).errors| <= 1
    ensures forall e :: e in Resolve(path, ty, given).errors ==> OverrideSide(e) && ErrorAt(e) == Some(path)
  {
    hide IntOutcome, FloatOutcome;
    match ty
    case IntField(d, min, max) => IntErrors(path, d, min, max, given);
    case FloatField(d, min, max) => FloatErrors(path, d, min, max, given);
    case BoolField(_) =>
    case StringField(_) =>
    case EnumField(_, _) =>
  }

  lemma {:induction false} UnknownErrorsAreUnknown(prefix: string, fields: Schema, entries: seq<Entry>)
    ensures forall e :: e in UnknownErrors(prefix, fields, entries) ==> e.UnknownConfigKey?
  {
    if entries == [] {
    } else {
      UnknownErrorsAreUnknown(prefix, fields, entries[..|entries| - 1]);
    }
  }

  ghost predicate Blamed(path: string, errors: seq<Error>) {
    AllUnder(path, errors) && NoneShared(errors) && forall e :: e in errors ==> OverrideSide(e)
  }

  lemma {:induction false} FieldBlame(path: string, ty: FieldType, given: Option<Toml>)
    requires Sound(ty) && Keyed(ty)
    ensures Blamed(path, Resolve(path, ty, given).errors)
    decreases ty
  {
    if ty.NestedField? {
      if given.None? || given.value.TTable? {
        var entries := if given.Some? then given.value.entries else [];
        var unknown := UnknownErrors(path + ".", ty.fields, entries);
        UnknownErrorsAreUnknown(path + ".", ty.fields, entries);
        FieldsBlame(path + ".", ty.fields, entries);
        var inner := ResolveFields(path + ".", ty.fields, entries).errors;
        hide SoundSchema, KeyedSchema, UnknownErrors, ResolveFields, Under;
        forall e | e in inner && ErrorAt(e).Some?
          ensures Under(path, ErrorAt(e).value)
        {
          var k :| 0 <= k < |ty.fields| && Under(path + "." + ty.fields[k].name, ErrorAt(e).value);
          UnderLonger(path, ty.fields[k].name, ErrorAt(e).value);
        }
        assert Resolve(path, ty, given).errors == unknown + inner;
        BlameJoins(path, unknown, inner);
      }
    } else {
      ScalarErrors(path, ty, given);
    }
  }

  lemma UnknownShareNothing(unknown: seq<Error>)
    requires forall e :: e in unknown ==> e.UnknownConfigKey?
    ensures NoneShared(unknown)
  {
    forall i | 0 <= i < |unknown|
      ensures ErrorAt(unknown[i]).None?
    {
      assert unknown[i] in unknown;
    }
  }

  lemma BlameJoins(path: string, unknown: seq<Error>, inner: seq<Error>)
    requires forall e :: e in unknown ==> e.UnknownConfigKey?
    requires Blamed(path, inner)
    ensures Blamed(path, unknown + inner)
  {
    UnknownShareNothing(unknown);
    ErrorsJoin(unknown, inner);
    hide NoneShared, Under;
  }

  /** On one of these fields or below it, if on a field at all. */
  ghost predicate OnSome(prefix: string, fields: Schema, e: Error) {
    ErrorAt(e).Some? ==> exists k :: 0 <= k < |fields| && Under(prefix + fields[k].name, ErrorAt(e).value)
  }

  lemma {:induction false} FieldsBlame(prefix: string, fields: Schema, entries: seq<Entry>)
    requires SoundSchema(fields) && KeyedSchema(fields)
    ensures NoneShared(ResolveFields(prefix, fields, entries).errors)
    ensures forall e :: e in ResolveFields(prefix, fields, entries).errors ==>
                          OverrideSide(e) && OnSome(prefix, fields, e)
    decreases fields
  {
    if fields == [] {
    } else {
      hide Sound, Keyed, Resolve, Under, Lookup;
      var n := |fields| - 1;
      var o := Resolve(prefix + fields[n].name, fields[n].ty, Lookup(entries, fields[n].name));
      var front := ResolveFields(prefix, fields[..n], entries);
      FieldsBlame(prefix, fields[..n], entries);
      FieldBlame(prefix + fields[n].name, fields[n].ty, Lookup(entries, fields[n].name));
      hide NoneShared, OverrideSide;
      forall e | e in front.errors
        ensures OnSome(prefix, fields, e)
        ensures forall e' :: e' in o.errors && ErrorAt(e).Some? ==> ErrorAt(e) != ErrorAt(e')
      {
        FrontApart(prefix, fields, e, o.errors);
      }
      ErrorsJoin(front.errors, o.errors);
    }
  }

  lemma FrontApart(prefix: string, fields: Schema, e: Error, last: seq<Error>)
    requires fields != [] && SoundSchema(fields) && KeyedSchema(fields)
    requires OnSome(prefix, fields[..|fields| - 1], e) && AllUnder(prefix + fields[|fields| - 1].name, last)
    ensures OnSome(prefix, fields, e)
    ensures forall e' :: e' in last && ErrorAt(e).Some? ==> ErrorAt(e) != ErrorAt(e')
  {
    hide Under, Sound, Keyed;
    var n := |fields| - 1;
    if ErrorAt(e).Some? {
      var k :| 0 <= k < n && Under(prefix + fields[..n][k].name, ErrorAt(e).value);
      assert fields[..n][k] == fields[k];
      forall e' | e' in last
        ensures ErrorAt(e) != ErrorAt(e')
      {
        if ErrorAt(e) == ErrorAt(e') {
          SiblingsApart(prefix, fields[k].name, fields[n].name, ErrorAt(e).value);
        }
      }
    }
  }

  lemma ErrorsJoin(a: seq<Error>, b: seq<Error>)
    requires NoneShared(a) && NoneShared(b)
    requires forall e, e' :: e in a && e' in b && ErrorAt(e).Some? ==> ErrorAt(e) != ErrorAt(e')
    ensures NoneShared(a + b)
  {
    forall i, j | 0 <= i < j < |a + b| && ErrorAt((a + b)[i]).Some?
      ensures ErrorAt((a + b)[i]) != ErrorAt((a + b)[j])
    {
      if i < |a| <= j {
        assert (a + b)[i] in a && (a + b)[j] in b;
      }
    }
  }

  /** On a schema that passes validation, whatever the overrides: `merge` reports no
      schema-side error, and no two errors are put on the same field. */
  lemma MergeBlamesOverrides(schema: Schema, overrides: Toml)
    requires SchemaErrors("[config]", "", schema) == [] && KeyedSchema(schema)
    ensures forall e :: e in MergeErrors(schema, overrides) ==> OverrideSide(e)
    ensures NoneShared(MergeErrors(schema, overrides))
  {
    ValidateAllMeansSound("[config]", "", schema);
    if overrides.TTable? {
      UnknownErrorsAreUnknown("", schema, overrides.entries);
      FieldsBlame("", schema, overrides.entries);
      var unknown := UnknownErrors("", schema, overrides.entries);
      UnknownShareNothing(unknown);
      ErrorsJoin(unknown, ResolveFields("", schema, overrides.entries).errors);
    }
  }

  // ---- Errors of every kind: exactly when two share a path ----

  /** The text an error is filed under, unknown keys included. */
  function FullPath(e: Error): Option<string> {
    match e
    case UnknownConfigKey(key) => Some(key)
    case FieldNameContainsDot(_, _) => None
    case _ => Some(e.path)
  }

  ghost predicate Files(errors: seq<Error>, p: string) {
    exists i :: 0 <= i < |errors| && FullPath(errors[i]) == Some(p)
  }

  /** Two errors are filed under `p`. */
  ghost predicate Shares(errors: seq<Error>, p: string) {
    exists i, j :: 0 <= i < j < |errors| && FullPath(errors[i]) == Some(p) && FullPath(errors[j]) == Some(p)
  }

  /** At every level of the override document distinct keys, as in a TOML table. */
  ghost predicate KeyedToml(t: Toml) {
    t.TTable? ==> KeyedEntries(t.entries)
  }

  ghost predicate KeyedEntries(entries: seq<Entry>) {
    && (forall j, k :: 0 <= j < k < |entries| ==> entries[j].key != entries[k].key)
    && (forall k :: 0 <= k < |entries| ==> KeyedToml(entries[k].value))
  }

  /** No key with a dot at any level. */
  ghost predicate DotFreeToml(t: Toml) {
    t.TTable? ==> DotFreeEntries(t.entries)
  }

  ghost predicate DotFreeEntries(entries: seq<Entry>) {
    forall k :: 0 <= k < |entries| ==> DotFree(entries[k].key) && DotFreeToml(entries[k].value)
  }

  /** The sub-table a nested field is resolved against: the one given, or an empty one. */
  function SubTable(given: Option<Toml>): Option<seq<Entry>> {
    match given
    case None => Some([])
    case Some(TTable(entries)) => Some(entries)
    case Some(_) => None
  }

  /** An undeclared key of this table has the path `p`... */
  ghost predicate UnknownAt(prefix: string, fields: Schema, entries: seq<Entry>, p: string) {
    exists k :: 0 <= k < |entries| && !Declares(fields, entries[k].key) && prefix + entries[k].key == p
  }

  /** ...and has a dot. */
  ghost predicate DottedAt(prefix: string, fields: Schema, entries: seq<Entry>, p: string) {
    exists k :: 0 <= k < |entries| && !Declares(fields, entries[k].key) && !DotFree(entries[k].key)
                && prefix + entries[k].key == p
  }

  /** The override is refused at `p`, which is this field's path or below it: a leaf does
      not fit or is missing, something other than a table is given for one, or a key is
      not declared. */
  ghost predicate RefusedAt(path: string, ty: FieldType, given: Option<Toml>, p: string)
    decreases ty
  {
    match ty
    case NestedField(fields) =>
      var table := SubTable(given);
      if table.None? then p == path
      else UnknownAt(path + ".", fields, table.value, p) || FieldRefusedAt(path + ".", fields, table.value, p)
    case _ => p == path && !Accepts(ty, given)
  }

  ghost predicate FieldRefusedAt(prefix: string, fields: Schema, entries: seq<Entry>, p: string)
    decreases fields
  {
    exists k :: 0 <= k < |fields|
                && RefusedAt(prefix + fields[k].name, fields[k].ty, Lookup(entries, fields[k].name), p)
  }

  /** In this table or one below, an undeclared key with a dot has the path `p` at which
      one of its sibling fields is refused too. */
  ghost predicate ClashAt(prefix: string, fields: Schema, entries: seq<Entry>, p: string)
    decreases fields
  {
    || (DottedAt(prefix, fields, entries, p) && FieldRefusedAt(prefix, fields, entries, p))
    || FieldClashAt(prefix, fields, entries, p)
  }

  ghost predicate FieldClashAt(prefix: string, fields: Schema, entries: seq<Entry>, p: string)
    decreases fields, 0
  {
    exists k :: 0 <= k < |fields|
                && ClashBelow(prefix + fields[k].name, fields[k].ty, Lookup(entries, fields[k].name), p)
  }

  ghost predicate ClashBelow(path: string, ty: FieldType, given: Option<Toml>, p: string)
    decreases ty
  {
    ty.NestedField? && SubTable(given).Some? && ClashAt(path + ".", ty.fields, SubTable(given).value, p)
  }

  lemma {:induction false} LookupIsEntry(entries: seq<Entry>, key: string)
    ensures Lookup(entries, key).Some? ==>
              exists k :: 0 <= k < |entries| && entries[k].value == Lookup(entries, key).value
  {
    if entries == [] {
    } else {
      LookupIsEntry(entries[1..], key);
      assert forall k :: 0 <= k < |entries| - 1 ==> entries[1..][k] == entries[k + 1];
    }
  }

  lemma FilesJoin(a: seq<Error>, b: seq<Error>, p: string)
    ensures Files(a + b, p) <==> Files(a, p) || Files(b, p)
  {
    assert forall i :: 0 <= i < |a| ==> (a + b)[i] == a[i];
    assert forall i :: 0 <= i < |b| ==> (a + b)[|a| + i] == b[i];
  }

  lemma SharesJoin(a: seq<Error>, b: seq<Error>, p: string)
    ensures Shares(a + b, p) <==> Shares(a, p) || Shares(b, p) || (Files(a, p) && Files(b, p))
  {
    hide FullPath;
    assert forall i :: 0 <= i < |a| ==> (a + b)[i] == a[i];
    assert forall i :: 0 <= i < |b| ==> (a + b)[|a| + i] == b[i];
    if Shares(a + b, p) {
      var i, j :| 0 <= i < j < |a + b| && FullPath((a + b)[i]) == Some(p) && FullPath((a + b)[j]) == Some(p);
    }
  }

  // ---- Under which paths errors are filed ----

  lemma {:induction false} UnknownFiles(prefix: string, fields: Schema, entries: seq<Entry>, p: string)
    ensures Files(UnknownErrors(prefix, fields, entries), p) <==> UnknownAt(prefix, fields, entries, p)
  {
    hide Declares;
    if entries == [] {
    } else {
      var n := |entries| - 1;
      var last := if Declares(fields, entries[n].key) then [] else [UnknownConfigKey(prefix + entries[n].key)];
      UnknownFiles(prefix, fields, entries[..n], p);
      FilesJoin(UnknownErrors(prefix, fields, entries[..n]), last, p);
      assert forall k :: 0 <= k < n ==> entries[..n][k] == entries[k];
      assert Files(last, p) <==> !Declares(fields, entries[n].key) && prefix + entries[n].key == p by {
        assert last != [] ==> FullPath(last[0]) == Some(prefix + entries[n].key);
      }
    }
  }

  lemma ScalarFiles(path: string, ty: FieldType, given: Option<Toml>, p: string)
    requires Sound(ty) && !ty.NestedField?
    ensures Files(Resolve(path, ty, given).errors, p) <==> p == path && !Accepts(ty, given)
    ensures !Shares(Resolve(path, ty, given).errors, p)
  {
    ScalarMerges(path, ty, given);
    ScalarErrors(path, ty, given);
    hide Sound, Resolve, Accepts;
    var errors := Resolve(path, ty, given).errors;
    if errors != [] {
      assert errors[0] in errors && FullPath(errors[0]) == Some(path);
    }
  }

  lemma {:induction false} FieldFiles(path: string, ty: FieldType, given: Option<Toml>, p: string)
    requires Sound(ty)
    ensures Files(Resolve(path, ty, given).errors, p) <==> RefusedAt(path, ty, given, p)
    decreases ty
  {
    if !ty.NestedField? {
      ScalarFiles(path, ty, given, p);
    } else if SubTable(given).Some? {
      var entries := SubTable(given).value;
      UnknownFiles(path + ".", ty.fields, entries, p);
      FieldsFile(path + ".", ty.fields, entries, p);
      FilesJoin(UnknownErrors(path + ".", ty.fields, entries), ResolveFields(path + ".", ty.fields, entries).errors, p);
    } else {
      assert FullPath(Resolve(path, ty, given).errors[0]) == Some(path);
    }
  }

  lemma {:induction false} FieldsFile(prefix: string, fields: Schema, entries: seq<Entry>, p: string)
    requires SoundSchema(fields)
    ensures Files(ResolveFields(prefix, fields, entries).errors, p) <==> FieldRefusedAt(prefix, fields, entries, p)
    decreases fields
  {
    if fields == [] {
    } else {
      hide Sound, Resolve, RefusedAt, Lookup, Files;
      var n := |fields| - 1;
      var o := Resolve(prefix + fields[n].name, fields[n].ty, Lookup(entries, fields[n].name));
      FieldsFile(prefix, fields[..n], entries, p);
      FieldFiles(prefix + fields[n].name, fields[n].ty, Lookup(entries, fields[n].name), p);
      FilesJoin(ResolveFields(prefix, fields[..n], entries).errors, o.errors, p);
      assert forall k :: 0 <= k < n ==> fields[..n][k] == fields[k];
    }
  }

  /** A field is refused at its own path or below it. */
  lemma {:induction false} RefusedIsUnder(path: string, ty: FieldType, given: Option<Toml>, p: string)
    requires RefusedAt(path, ty, given, p)
    ensures Under(path, p)
    decreases ty
  {
    if ty.NestedField? && SubTable(given).Some? {
      var entries := SubTable(given).value;
      if UnknownAt(path + ".", ty.fields, entries, p) {
        var k :| 0 <= k < |entries| && path + "." + entries[k].key == p;
        UnderLonger(path, entries[k].key, p);
      } else {
        var k :| 0 <= k < |ty.fields| && RefusedAt(path + "." + ty.fields[k].name, ty.fields[k].ty,
                                                   Lookup(entries, ty.fields[k].name), p);
        RefusedIsUnder(path + "." + ty.fields[k].name, ty.fields[k].ty, Lookup(entries, ty.fields[k].name), p);
        UnderLonger(path, ty.fields[k].name, p);
      }
    }
  }

  // ---- Under which paths two are ----

  lemma PrefixCancels(prefix: string, a: string, b: string)
    ensures prefix + a == prefix + b ==> a == b
  {
    assert (prefix + a)[|prefix|..] == a && (prefix + b)[|prefix|..] == b;
  }

  lemma {:induction false} UnknownDoNotShare(prefix: string, fields: Schema, entries: seq<Entry>, p: string)
    requires KeyedEntries(entries)
    ensures !Shares(UnknownErrors(prefix, fields, entries), p)
  {
    hide Declares, KeyedToml;
    if entries == [] {
    } else {
      var n := |entries| - 1;
      var last := if Declares(fields, entries[n].key) then [] else [UnknownConfigKey(prefix + entries[n].key)];
      UnknownDoNotShare(prefix, fields, entries[..n], p);
      UnknownFiles(prefix, fields, entries[..n], p);
      SharesJoin(UnknownErrors(prefix, fields, entries[..n]), last, p);
      hide UnknownErrors;
      forall k | 0 <= k < n
        ensures prefix + entries[..n][k].key != prefix + entries[n].key
      {
        PrefixCancels(prefix, entries[k].key, entries[n].key);
      }
    }
  }

  /** Without a dot, an undeclared key is filed apart from the declared fields. */
  lemma OnlyDottedClash(prefix: string, fields: Schema, entries: seq<Entry>, p: string)
    requires SoundSchema(fields) && FieldRefusedAt(prefix, fields, entries, p)
    ensures UnknownAt(prefix, fields, entries, p) <==> DottedAt(prefix, fields, entries, p)
  {
    hide Sound, RefusedAt, Under, Lookup;
    var m :| 0 <= m < |fields| && RefusedAt(prefix + fields[m].name, fields[m].ty, Lookup(entries, fields[m].name), p);
    RefusedIsUnder(prefix + fields[m].name, fields[m].ty, Lookup(entries, fields[m].name), p);
    forall k | 0 <= k < |entries| && prefix + entries[k].key == p && DotFree(entries[k].key)
      ensures Declares(fields, entries[k].key)
    {
      UnderItself(p);
      SiblingsApart(prefix, entries[k].key, fields[m].name, p);
      assert fields[m] in fields;
    }
  }

  lemma UnderItself(path: string)
    ensures Under(path, path)
  {
  }

  lemma TableShares(prefix: string, fields: Schema, entries: seq<Entry>, p: string)
    requires SoundSchema(fields) && KeyedEntries(entries)
    requires Shares(ResolveFields(prefix, fields, entries).errors, p) <==> FieldClashAt(prefix, fields, entries, p)
    ensures Shares(UnknownErrors(prefix, fields, entries) + ResolveFields(prefix, fields, entries).errors, p)
            <==> ClashAt(prefix, fields, entries, p)
  {
    UnknownFiles(prefix, fields, entries, p);
    UnknownDoNotShare(prefix, fields, entries, p);
    FieldsFile(prefix, fields, entries, p);
    SharesJoin(UnknownErrors(prefix, fields, entries), ResolveFields(prefix, fields, entries).errors, p);
    hide SoundSchema, KeyedEntries, UnknownErrors, ResolveFields, UnknownAt, DottedAt, FieldRefusedAt, Shares, Files;
    if FieldRefusedAt(prefix, fields, entries, p) {
      OnlyDottedClash(prefix, fields, entries, p);
    }
  }

  lemma {:induction false} FieldShares(path: string, ty: FieldType, given: Option<Toml>, p: string)
    requires Sound(ty) && Keyed(ty) && (given.Some? ==> KeyedToml(given.value))
    ensures Shares(Resolve(path, ty, given).errors, p) <==> ClashBelow(path, ty, given, p)
    decreases ty
  {
    if !ty.NestedField? {
      ScalarFiles(path, ty, given, p);
    } else if SubTable(given).Some? {
      FieldsShare(path + ".", ty.fields, SubTable(given).value, p);
      TableShares(path + ".", ty.fields, SubTable(given).value, p);
    }
  }

  lemma {:induction false} FieldsShare(prefix: string, fields: Schema, entries: seq<Entry>, p: string)
    requires SoundSchema(fields) && KeyedSchema(fields) && KeyedEntries(entries)
    ensures Shares(ResolveFields(prefix, fields, entries).errors, p) <==> FieldClashAt(prefix, fields, entries, p)
    decreases fields
  {
    if fields == [] {
    } else {
      hide Sound, Keyed, Resolve, RefusedAt, ClashBelow, Lookup, KeyedToml;
      var n := |fields| - 1;
      var o := Resolve(prefix + fields[n].name, fields[n].ty, Lookup(entries, fields[n].name));
      FieldsShare(prefix, fields[..n], entries, p);
      LookupIsEntry(entries, fields[n].name);
      FieldShares(prefix + fields[n].name, fields[n].ty, Lookup(entries, fields[n].name), p);
      SharesJoin(ResolveFields(prefix, fields[..n], entries).errors, o.errors, p);
      LastApart(prefix, fields, entries, p);
      hide Files, Shares, SoundSchema, KeyedSchema, KeyedEntries;
      assert forall k :: 0 <= k < n ==> fields[..n][k] == fields[k];
    }
  }

  /** The last field files nothing where the others do. */
  lemma LastApart(prefix: string, fields: Schema, entries: seq<Entry>, p: string)
    requires fields != [] && SoundSchema(fields) && KeyedSchema(fields)
    ensures var n := |fields| - 1;
      Files(ResolveFields(prefix, fields[..n], entries).errors, p) ==>
      !Files(Resolve(prefix + fields[n].name, fields[n].ty, Lookup(entries, fields[n].name)).errors, p)
  {
    hide Sound, Keyed, Resolve, ResolveFields, RefusedAt, Under, Lookup;
    var n := |fields| - 1;
    FieldsFile(prefix, fields[..n], entries, p);
    FieldFiles(prefix + fields[n].name, fields[n].ty, Lookup(entries, fields[n].name), p);
    hide Files;
    if FieldRefusedAt(prefix, fields[..n], entries, p)
       && RefusedAt(prefix + fields[n].name, fields[n].ty, Lookup(entries, fields[n].name), p) {
      var k :| 0 <= k < n && RefusedAt(prefix + fields[..n][k].name, fields[..n][k].ty,
                                       Lookup(entries, fields[..n][k].name), p);
      RefusedIsUnder(prefix + fields[k].name, fields[k].ty, Lookup(entries, fields[k].name), p);
      RefusedIsUnder(prefix + fields[n].name, fields[n].ty, Lookup(entries, fields[n].name), p);
      SiblingsApart(prefix, fields[k].name, fields[n].name, p);
    }
  }

  /** On a validated schema two errors of any kind share a path exactly when, at some
      level, an undeclared override key with a dot has the path at which a declared field
      beside it, or something below that field, is refused as well. */
  lemma PathsSharedExactly(schema: Schema, overrides: Toml, p: string)
    requires SchemaErrors("[config]", "", schema) == [] && KeyedSchema(schema) && KeyedToml(overrides)
    ensures Shares(MergeErrors(schema, overrides), p) <==>
              overrides.TTable? && ClashAt("", schema, overrides.entries, p)
  {
    ValidateAllMeansSound("[config]", "", schema);
    if overrides.TTable? {
      FieldsShare("", schema, overrides.entries, p);
      TableShares("", schema, overrides.entries, p);
    }
  }

  lemma {:induction false} DotFreeDoesNotClash(prefix: string, fields: Schema, entries: seq<Entry>, p: string)
    requires DotFreeEntries(entries)
    ensures !ClashAt(prefix, fields, entries, p)
    decreases fields
  {
    hide DotFree, Lookup, FieldRefusedAt;
    forall k | 0 <= k < |fields|
      ensures !ClashBelow(prefix + fields[k].name, fields[k].ty, Lookup(entries, fields[k].name), p)
    {
      var ty, given := fields[k].ty, Lookup(entries, fields[k].name);
      if ty.NestedField? && SubTable(given).Some? {
        LookupIsEntry(entries, fields[k].name);
        DotFreeDoesNotClash(prefix + fields[k].name + ".", ty.fields, SubTable(given).value, p);
      }
    }
  }

  /** So with no dot in any key of the overrides, no two errors share a path. */
  lemma DotFreeOverridesShareNoPath(schema: Schema, overrides: Toml)
    requires SchemaErrors("[config]", "", schema) == [] && KeyedSchema(schema)
    requires KeyedToml(overrides) && DotFreeToml(overrides)
    ensures forall p :: !Shares(MergeErrors(schema, overrides), p)
  {
    forall p
      ensures !Shares(MergeErrors(schema, overrides), p)
    {
      PathsSharedExactly(schema, overrides, p);
      if overrides.TTable? {
        DotFreeDoesNotClash("", schema, overrides.entries, p);
      }
    }
  }

  /** A table "a" with a required field "b", and an override key "a.b". */
  const INNER: Schema := [Field("b", BoolField(None))]
  const OUTER: Schema := [Field("a", NestedField(INNER))]
  const DOTTED: seq<Entry> := [Entry("a.b", TBoolean(true))]

  lemma SoundExample()
    ensures SoundSchema(OUTER) && KeyedSchema(OUTER) && KeyedToml(TTable(DOTTED))
  {
  }

  lemma ClashExample()
    ensures ClashAt("", OUTER, DOTTED, "a.b")
  {
    assert RefusedAt("a." + INNER[0].name, BoolField(None), None, "a.b");
    assert FieldRefusedAt("a.", INNER, [], "a.b");
    assert "" + "a" == "a" && "a" + "." == "a." && Lookup(DOTTED, "a") == None;
    assert RefusedAt("" + OUTER[0].name, OUTER[0].ty, Lookup(DOTTED, OUTER[0].name), "a.b");
    assert !Declares(OUTER, "a.b") && "a.b"[1] == '.';
    assert "" + DOTTED[0].key == "a.b";
  }

  /** A dotted override key can share its path with a missing nested field. */
  lemma DottedKeyCanShareAPath()
    ensures SchemaErrors("[config]", "", OUTER) == [] && KeyedSchema(OUTER) && KeyedToml(TTable(DOTTED))
    ensures Shares(MergeErrors(OUTER, TTable(DOTTED)), "a.b")
  {
    SoundExample();
    ValidateAllMeansSound("[config]", "", OUTER);
    ClashExample();
    hide SoundSchema, KeyedSchema, KeyedToml, MergeErrors, ClashAt, SchemaErrors;
    PathsSharedExactly(OUTER, TTable(DOTTED), "a.b");
  }

  // ---- Dot-joined paths ----

  function Join(names: seq<string>): string {
    if names == [] then ""
    else if |names| == 1 then names[0]
    else names[0] + "." + Join(names[1..])
  }

  /** Joining dot-free names with dots is injective, so a path names one field. */
  lemma {:induction false} JoinInjective(a: seq<string>, b: seq<string>)
    requires a != [] && b != [] && Join(a) == Join(b)
    requires (forall n :: n in a ==> DotFree(n)) && forall n :: n in b ==> DotFree(n)
    ensures a == b
  {
    JoinUnderFirst(a);
    JoinUnderFirst(b);
    assert a[0] in a && b[0] in b;
    assert "" + a[0] == a[0] && "" + b[0] == b[0];
    SiblingsApart("", a[0], b[0], Join(a));
    if |a| == 1 || |b| == 1 {
      JoinLength(a);
      JoinLength(b);
      assert a == [a[0]] && b == [b[0]];
    } else {
      assert Join(a)[|a[0]| + 1..] == Join(a[1..]);
      assert Join(b)[|b[0]| + 1..] == Join(b[1..]);
      JoinInjective(a[1..], b[1..]);
      assert a == [a[0]] + a[1..] && b == [b[0]] + b[1..];
    }
  }

  lemma JoinUnderFirst(a: seq<string>)
    requires a != []
    ensures Under(a[0], Join(a))
  {
    if |a| > 1 {
      assert Join(a)[..|a[0]|] == a[0];
    }
  }

  lemma JoinLength(a: seq<string>)
    requires a != []
    ensures |Join(a)| == |a[0]| <==> |a| == 1
  {
  }
}
