/** The custom-field schema (`.nxdb.schema.json`): validation of the parsed
    schema object, the schema manager's lookups, and the validation of a
    project's custom fields against the schema, which fills in defaults
    (packages/db/src/lib/schema.ts). */
module Schema {
  import opened Wrappers
  import opened Records
  import opened Values

  /** The six type tags a schema entry may declare. */
  datatype SchemaType =
    | StringType
    | NumberType
    | BooleanType
    | StringArrayType
    | NumberArrayType
    | BooleanArrayType

  /** The tag as it is written in the schema file. */
  function TypeName(t: SchemaType): string {
    match t
    case StringType => "string"
    case NumberType => "number"
    case BooleanType => "boolean"
    case StringArrayType => "string[]"
    case NumberArrayType => "number[]"
    case BooleanArrayType => "boolean[]"
  }

  /** `['string', 'number', …, 'boolean[]'].includes(v)`, returning the tag found. */
  function ParseType(v: Value): (r: Option<SchemaType>)
    ensures r.Some? ==> v == Str(TypeName(r.value))
    ensures r.None? ==> forall t :: v != Str(TypeName(t))
  {
    if v == Str("string") then Some(StringType)
    else if v == Str("number") then Some(NumberType)
    else if v == Str("boolean") then Some(BooleanType)
    else if v == Str("string[]") then Some(StringArrayType)
    else if v == Str("number[]") then Some(NumberArrayType)
    else if v == Str("boolean[]") then Some(BooleanArrayType)
    else None
  }

  /** One validated schema entry: `{ type, description, default }`. */
  datatype SchemaEntry = SchemaEntry(schemaType: SchemaType, description: Value, default: Value)

  type Schema = Record<SchemaEntry>

  /** Names a schema may not declare: the fixed attributes of a project. */
  const ReservedFieldNames: seq<string> :=
    ["name", "root", "customFields", "tags", "targetNames", "dependencies", "dependedByProjects"]

  /** The errors `readSchema` throws after parsing, in the order it checks. */
  datatype SchemaError =
    | NotAnObject
    | ReservedField(key: string)
    | EntryNotAnObject(key: string)
    | MissingRequiredFields(key: string)
    | InvalidType(key: string, found: Value)
    | DefaultNotString(key: string)
    | DefaultNotNumber(key: string)
    | DefaultNotBoolean(key: string)
    | DefaultNotStringArray(key: string)
    | DefaultNotNumberArray(key: string)
    | DefaultNotBooleanArray(key: string)

  /** `Array.isArray(v) && v.some((item) => typeof item !== tag)` */
  predicate SomeItemNot(v: Value, tag: string) {
    v.Arr? && exists i | 0 <= i < |v.items| :: TypeOf(v.items[i]) != tag
  }

  /** One iteration of `readSchema`'s loop: the checks on the entry `key: value`. */
  function CheckEntry(key: string, value: Value): Result<SchemaEntry, SchemaError> {
    if key in ReservedFieldNames then Failure(ReservedField(key))
    else if !IsNonNullObject(value) then Failure(EntryNotAnObject(key))
    else
      var ty := Property(value, "type");
      var description := Property(value, "description");
      var dflt := Property(value, "default");
      if ty == Undefined || description == Undefined || dflt == Undefined then
        Failure(MissingRequiredFields(key))
      else
        match ParseType(ty)
        case None => Failure(InvalidType(key, ty))
        case Some(t) =>
          if t == StringType && TypeOf(dflt) != "string" then Failure(DefaultNotString(key))
          else if t == NumberType && TypeOf(dflt) != "number" then Failure(DefaultNotNumber(key))
          else if t == BooleanType && TypeOf(dflt) != "boolean" then Failure(DefaultNotBoolean(key))
          else if (t == StringArrayType && !dflt.Arr?) || SomeItemNot(dflt, "string") then
            Failure(DefaultNotStringArray(key))
          else if (t == NumberArrayType && !dflt.Arr?) || SomeItemNot(dflt, "number") then
            Failure(DefaultNotNumberArray(key))
          else if (t == BooleanArrayType && !dflt.Arr?) || SomeItemNot(dflt, "boolean") then
            Failure(DefaultNotBooleanArray(key))
          else Success(SchemaEntry(t, description, dflt))
  }

  /** `readSchema`'s loop over the entries: the first failing entry decides the error. */
  function CheckEntries(es: seq<(string, Value)>): (r: Result<seq<(string, SchemaEntry)>, SchemaError>)
    ensures r.Success? ==> |r.value| == |es|
  {
    if es == [] then Success([])
    else
      var entry :- CheckEntry(es[0].0, es[0].1);
      var rest :- CheckEntries(es[1..]);
      Success([(es[0].0, entry)] + rest)
  }

  /** `readSchema` after `JSON.parse`: the parsed value must be a non-null
      object whose every entry passes `CheckEntry`. */
  function ReadSchema(parsed: Value): Result<Schema, SchemaError> {
    if !IsNonNullObject(parsed) then Failure(NotAnObject)
    else
      var checked :- CheckEntries(ObjectEntries(parsed));
      Success(FromEntries(checked))
  }

  /** The errors `validateFields` throws. */
  datatype FieldError =
    | UnknownField(key: string)
    | TypeMismatch(key: string, expected: SchemaType, received: string)
    | ArrayElementMismatch(key: string, expected: SchemaType, received: string)

  /** `value.every((v) => typeof v === tag)` for an array value. */
  predicate EveryItemIs(items: seq<Value>, tag: string) {
    forall i :: 0 <= i < |items| ==> TypeOf(items[i]) == tag
  }

  /** The checks `validateFields` makes on one input field. A value that is
      an array escapes the `typeof` check, whatever type the schema declares. */
  function CheckField(schema: Schema, key: string, value: Value): Option<FieldError> {
    if key !in schema.vals then Some(UnknownField(key))
    else
      var t := schema.vals[key].schemaType;
      if TypeOf(value) != TypeName(t) && !value.Arr? then Some(TypeMismatch(key, t, TypeOf(value)))
      else if value.Arr? &&
              (|| (t == StringArrayType && !EveryItemIs(value.items, "string"))
               || (t == NumberArrayType && !EveryItemIs(value.items, "number"))
               || (t == BooleanArrayType && !EveryItemIs(value.items, "boolean"))) then
        Some(ArrayElementMismatch(key, t, TypeOf(if |value.items| > 0 then value.items[0] else Undefined)))
      else None
  }

  /** The position of the first field that fails `CheckField`, or `|es|`. */
  function FirstBadField(schema: Schema, es: seq<(string, Value)>): (i: nat)
    ensures i <= |es|
    ensures forall j :: 0 <= j < i ==> CheckField(schema, es[j].0, es[j].1).None?
    ensures i < |es| ==> CheckField(schema, es[i].0, es[i].1).Some?
  {
    if es == [] then 0
    else if CheckField(schema, es[0].0, es[0].1).Some? then 0
    else 1 + FirstBadField(schema, es[1..])
  }

  /** A scan that has passed `i` fields stops at `i` when that field fails. */
  lemma FirstBadFieldAt(schema: Schema, es: seq<(string, Value)>, i: nat)
    requires i < |es| && i <= FirstBadField(schema, es)
    requires CheckField(schema, es[i].0, es[i].1).Some?
    ensures FirstBadField(schema, es) == i
  {
  }

  /** A scan that has passed `i` fields goes on past a field that passes. */
  lemma FirstBadFieldPast(schema: Schema, es: seq<(string, Value)>, i: nat)
    requires i < |es| && i <= FirstBadField(schema, es)
    requires CheckField(schema, es[i].0, es[i].1).None?
    ensures i + 1 <= FirstBadField(schema, es)
  {
  }

  /** The defaults of the first `n` schema keys that `fields` lacks, in
      schema order: what `getMissingKeyValuePairs`'s loop has built after
      `n` iterations. */
  function MissingPrefix(schema: Schema, fields: set<string>, n: nat): Record<Value>
    requires n <= |schema.keys|
  {
    if n == 0 then Empty()
    else
      var missing := MissingPrefix(schema, fields, n - 1);
      var key := schema.keys[n - 1];
      if key in fields then missing else Put(missing, key, schema.vals[key].default)
  }

  function MissingPairs(schema: Schema, fields: set<string>): Record<Value> {
    MissingPrefix(schema, fields, |schema.keys|)
  }

  /** What `validateFields` returns or throws. */
  function ValidatedFields(schema: Schema, fields: Record<Value>): Result<Record<Value>, FieldError> {
    var es := Entries(fields);
    var bad := FirstBadField(schema, es);
    if bad < |es| then Failure(CheckField(schema, es[bad].0, es[bad].1).value)
    else Success(WithDefaults(schema, fields))
  }

  /** The fields followed by the default of every schema key they lack. */
  function WithDefaults(schema: Schema, fields: Record<Value>): Record<Value> {
    PutAll(fields, Entries(MissingPairs(schema, fields.vals.Keys)))
  }

  /** The schema manager. Its only state, the schema, is read-only after the
      private constructor has read and validated the schema file, so the
      manager is a value holding the schema `ReadSchema` accepted. */
  datatype SchemaManager = SchemaManager(schema: Schema)
  {

    /** `getEntry(key)`: the entry, or `undefined`. */
    function GetEntry(key: string): (r: Option<SchemaEntry>)
      ensures r.Some? <==> key in schema.vals
      ensures r.Some? ==> r.value == schema.vals[key]
    {
      if key in schema.vals then Some(schema.vals[key]) else None
    }

    /** `getDefaultValue(key)`: the entry's default, or `undefined`. */
    function GetDefaultValue(key: string): (r: Value)
      ensures key in schema.vals ==> r == schema.vals[key].default
      ensures key !in schema.vals ==> r == Undefined
    {
      match GetEntry(key)
      case Some(entry) => entry.default
      case None => Undefined
    }

    /** `getMissingKeyValuePairs(fields)` */
    method GetMissingKeyValuePairs(fields: Record<Value>) returns (missing: Record<Value>)
      ensures missing == MissingPairs(schema, fields.vals.Keys)
    {
      missing := MissingKeyValuePairs(schema, fields.vals.Keys);
    }

    /** `validateFields(fields)` */
    method ValidateFields(fields: Record<Value>) returns (r: Result<Record<Value>, FieldError>)
      ensures r == ValidatedFields(schema, fields)
    {
      r := ValidateFieldsOf(schema, fields);
    }
  }

  /** The loop of `getMissingKeyValuePairs` over the schema's entries,
      recording the default of every key not `in` the fields, whose keys are
      `present`. */
  method MissingKeyValuePairs(schema: Schema, present: set<string>) returns (missing: Record<Value>)
    ensures missing == MissingPairs(schema, present)
  {
    missing := Empty();
    for i := 0 to |schema.keys|
      invariant missing == MissingPrefix(schema, present, i)
    {
      var key := schema.keys[i];
      MissingPrefixStep(schema, present, i);
      if key !in present {
        missing := Put(missing, key, schema.vals[key].default);
      }
    }
  }

  lemma MissingPrefixStep(schema: Schema, present: set<string>, i: nat)
    requires i < |schema.keys|
    ensures MissingPrefix(schema, present, i + 1)
         == if schema.keys[i] in present then MissingPrefix(schema, present, i)
            else Put(MissingPrefix(schema, present, i), schema.keys[i], schema.vals[schema.keys[i]].default)
  {
  }

  /** The checks in the body of `validateFields`'s loop over the input
      fields, in the order they are made. */
  method CheckOneField(schema: Schema, key: string, value: Value) returns (rejection: Option<FieldError>)
    ensures rejection == CheckField(schema, key, value)
  {
    if key !in schema.vals {
      return Some(UnknownField(key));
    }
    var t := schema.vals[key].schemaType;
    if TypeOf(value) != TypeName(t) && !value.Arr? {
      return Some(TypeMismatch(key, t, TypeOf(value)));
    }
    if value.Arr? {
      if || (t == StringArrayType && !EveryItemIs(value.items, "string"))
         || (t == NumberArrayType && !EveryItemIs(value.items, "number"))
         || (t == BooleanArrayType && !EveryItemIs(value.items, "boolean"))
      {
        var first := if |value.items| > 0 then value.items[0] else Undefined;
        return Some(ArrayElementMismatch(key, t, TypeOf(first)));
      }
    } else if value == Undefined {
      // `validFields[key] = defaultValue`: never reached, since the
      // `typeof` check above has already rejected `undefined`.
      assert false;
    }
    return None;
  }

  /** The end of `validateFields(fields)`: the copy of the input gains the
      default of every schema key `getMissingKeyValuePairs` reports, where it
      is still `undefined`. */
  method AssignMissingDefaults(schema: Schema, fields: Record<Value>) returns (validFields: Record<Value>)
    ensures validFields == WithDefaults(schema, fields)
  {
    validFields := fields;
    var missingPairs := MissingKeyValuePairs(schema, validFields.vals.Keys);
    var ms := Entries(missingPairs);
    assert ms == Entries(MissingPairs(schema, fields.vals.Keys));
    for j := 0 to |ms|
      invariant validFields == PutAll(fields, ms[..j])
    {
      var (key, defaultValue) := ms[j];
      MissingKeyAbsent(schema, fields, j);
      assert key !in validFields.vals;
      PutAllSnoc(fields, ms, j);
      if Lookup(validFields, key) == Undefined {
        validFields := Put(validFields, key, defaultValue);
      } else {
        assert false;
      }
      assert validFields == PutAll(fields, ms[..j + 1]);
    }
    assert ms[..|ms|] == ms;
  }

  /** The body of `validateFields(fields)`: check every field against the
      schema, then add the defaults. */
  method ValidateFieldsOf(schema: Schema, fields: Record<Value>) returns (r: Result<Record<Value>, FieldError>)
    ensures r == ValidatedFields(schema, fields)
  {
    var es := Entries(fields);
    for i := 0 to |es|
      invariant i <= FirstBadField(schema, es)
    {
      var (key, value) := es[i];
      var rejection := CheckOneField(schema, key, value);
      if rejection.Some? {
        FirstBadFieldAt(schema, es, i);
        return Failure(rejection.value);
      }
      FirstBadFieldPast(schema, es, i);
    }
    var validFields := AssignMissingDefaults(schema, fields);
    r := Success(validFields);
  }

  /** The static `SchemaManager.instance` slot: `getInstance` builds the
      manager once, from the schema file read at that moment, and hands the
      same manager back on every later call. */
  class SchemaManagerHolder {
    var instance: Option<SchemaManager>

    constructor()
      ensures instance == None
    {
      instance := None;
    }

    /** `getInstance()`, where `parsed` is what `JSON.parse` makes of the
        schema file when the constructor runs. */
    method GetInstance(parsed: Value) returns (r: Result<SchemaManager, SchemaError>)
      modifies this
      ensures old(instance).Some? ==> r == Success(old(instance).value) && instance == old(instance)
      ensures old(instance).None? && ReadSchema(parsed).Failure? ==>
        r == Failure(ReadSchema(parsed).error) && instance == None
      ensures old(instance).None? && ReadSchema(parsed).Success? ==>
        && r == Success(SchemaManager(ReadSchema(parsed).value))
        && instance == Some(SchemaManager(ReadSchema(parsed).value))
    {
      if instance.None? {
        var schema :- ReadSchema(parsed);
        instance := Some(SchemaManager(schema));
      }
      return Success(instance.value);
    }
  }

  /** Every missing pair belongs to a schema key that the fields lack, and
      holds that key's default. */
  lemma MissingPrefixVals(schema: Schema, fields: set<string>, n: nat)
    requires n <= |schema.keys|
    ensures forall k :: k in MissingPrefix(schema, fields, n).vals ==>
      && k !in fields && k in schema.vals
      && MissingPrefix(schema, fields, n).vals[k] == schema.vals[k].default
  {
    forall k | k in MissingPrefix(schema, fields, n).vals
      ensures k !in fields && k in schema.vals
      ensures MissingPrefix(schema, fields, n).vals[k] == schema.vals[k].default
    {
      MissingPrefixVal(schema, fields, n, k);
    }
  }

  lemma {:induction false} MissingPrefixVal(schema: Schema, fields: set<string>, n: nat, k: string)
    requires n <= |schema.keys|
    requires k in MissingPrefix(schema, fields, n).vals
    ensures k !in fields && k in schema.vals
    ensures MissingPrefix(schema, fields, n).vals[k] == schema.vals[k].default
  {
    var earlier := MissingPrefix(schema, fields, n - 1);
    var key := schema.keys[n - 1];
    if k != key || key in fields {
      assert k in earlier.vals && MissingPrefix(schema, fields, n).vals[k] == earlier.vals[k];
      MissingPrefixVal(schema, fields, n - 1, k);
    }
  }

  /** No schema key from position `n` on is among the first `n` missing pairs. */
  lemma {:induction false} MissingPrefixLater(schema: Schema, fields: set<string>, n: nat)
    requires n <= |schema.keys|
    ensures forall i :: n <= i < |schema.keys| ==> schema.keys[i] !in MissingPrefix(schema, fields, n).vals
  {
    if n > 0 {
      MissingPrefixLater(schema, fields, n - 1);
      forall i | n <= i < |schema.keys|
        ensures schema.keys[i] != schema.keys[n - 1]
      {
      }
    }
  }

  /** The missing keys are the schema keys the fields lack, in schema order. */
  lemma {:induction false} MissingPrefixKeys(schema: Schema, fields: set<string>, n: nat)
    requires n <= |schema.keys|
    ensures MissingPrefix(schema, fields, n).keys == KeysNotIn(schema.keys[..n], fields)
  {
    if n == 0 {
      assert schema.keys[..0] == [];
    } else {
      MissingPrefixKeys(schema, fields, n - 1);
      MissingPrefixLater(schema, fields, n - 1);
      KeysNotInStep(schema.keys, n, fields);
      NotInPrefix(schema, n - 1);
    }
  }

  /** The `j`-th missing key is absent from the fields and from the defaults
      already copied in front of it. */
  lemma MissingKeyAbsent(schema: Schema, fields: Record<Value>, j: nat)
    requires j < |MissingPairs(schema, fields.vals.Keys).keys|
    ensures Entries(MissingPairs(schema, fields.vals.Keys))[j].0
        !in PutAll(fields, Entries(MissingPairs(schema, fields.vals.Keys))[..j]).vals
  {
    var missing := MissingPairs(schema, fields.vals.Keys);
    var k := missing.keys[j];
    MissingPrefixVals(schema, fields.vals.Keys, |schema.keys|);
    PutAllEntriesPrefixVals(fields, missing, j);
    NotInPrefix(missing, j);
    assert k !in fields.vals;
  }

  /** A reserved name is rejected before anything else about its entry is looked at. */
  lemma ReservedCheckedFirst(key: string, value: Value)
    requires key in ReservedFieldNames
    ensures CheckEntry(key, value) == Failure(ReservedField(key))
  {
  }

  /** An accepted entry is a plain object (an array has no `type` key) whose
      `type` is one of the six tags and whose `description` is present; a
      scalar type's default has that runtime type, and an array type's
      default is the empty array: any default holding an element fails one
      of the three per-element checks, whatever type is declared. */
  lemma AcceptedEntry(key: string, value: Value)
    requires CheckEntry(key, value).Success?
    ensures key !in ReservedFieldNames && value.Obj?
    ensures Property(value, "type") == Str(TypeName(CheckEntry(key, value).value.schemaType))
    ensures CheckEntry(key, value).value.description == Property(value, "description") != Undefined
    ensures CheckEntry(key, value).value.default == Property(value, "default")
    ensures CheckEntry(key, value).value.schemaType in {StringType, NumberType, BooleanType} ==>
      TypeOf(CheckEntry(key, value).value.default) == TypeName(CheckEntry(key, value).value.schemaType)
    ensures CheckEntry(key, value).value.schemaType in {StringArrayType, NumberArrayType, BooleanArrayType} ==>
      CheckEntry(key, value).value.default == Arr([])
  {
    var dflt := Property(value, "default");
    if dflt.Arr? && |dflt.items| > 0 {
      NonEmptyArrayDefault(dflt);
    }
  }

  /** A non-empty array fails the `string` or the `number` element check. */
  lemma NonEmptyArrayDefault(v: Value)
    requires v.Arr? && |v.items| > 0
    ensures SomeItemNot(v, "string") || SomeItemNot(v, "number")
  {
    assert TypeOf(v.items[0]) != "string" || TypeOf(v.items[0]) != "number";
  }

  /** The entry `{ type, description, default: [] }` is accepted for every
      array type, under any name that is not reserved. */
  lemma EmptyArrayDefaultAccepted(key: string, t: SchemaType, description: string)
    requires key !in ReservedFieldNames
    requires t in {StringArrayType, NumberArrayType, BooleanArrayType}
    ensures CheckEntry(key, Obj(Record(["type", "description", "default"],
      map["type" := Str(TypeName(t)), "description" := Str(description), "default" := Arr([])])))
      == Success(SchemaEntry(t, Str(description), Arr([])))
  {
  }

  /** `readSchema` accepts an object exactly when every entry passes. */
  lemma ReadSchemaAccepts(props: Record<Value>)
    ensures ReadSchema(Obj(props)).Success? <==> AllEntriesPass(props)
  {
    var es := ObjectEntries(Obj(props));
    assert es == Entries(props);
    CheckEntriesExactly(es);
    if ReadSchema(Obj(props)).Success? {
      DomainIsKeys(props);
      forall k | k in props.vals
        ensures CheckEntry(k, props.vals[k]).Success?
      {
        var i :| 0 <= i < |props.keys| && props.keys[i] == k;
        assert es[i] == (k, props.vals[k]);
      }
    }
  }

  /** Every entry of the object passes `CheckEntry`. */
  predicate AllEntriesPass(props: Record<Value>) {
    forall k :: k in props.vals ==> CheckEntry(k, props.vals[k]).Success?
  }

  /** The schema `readSchema` returns is the object it read, key for key and
      in the same order, each entry replaced by its checked form. */
  lemma ReadSchemaValue(props: Record<Value>)
    requires AllEntriesPass(props)
    ensures ReadSchema(Obj(props)).Success?
    ensures ReadSchema(Obj(props)).value.keys == props.keys
    ensures forall k :: k in props.vals ==>
      k in ReadSchema(Obj(props)).value.vals
      && ReadSchema(Obj(props)).value.vals[k] == CheckEntry(k, props.vals[k]).value
  {
    var schema := Checked(props);
    CheckedEntries(props);
    FromEntriesOfEntries(schema);
    assert ReadSchema(Obj(props)) == Success(schema);
  }

  /** The entry loop over an object whose entries all pass yields the
      entries of `Checked`. */
  lemma CheckedEntries(props: Record<Value>)
    requires AllEntriesPass(props)
    ensures CheckEntries(Entries(props)) == Success(Entries(Checked(props)))
  {
    var es := Entries(props);
    CheckEntriesExactly(es);
    assert CheckEntries(es).value == Entries(Checked(props));
  }

  function Checked(props: Record<Value>): (s: Schema)
    requires AllEntriesPass(props)
  {
    var checked := map k | k in props.vals :: CheckEntry(k, props.vals[k]).value;
    SameKeysWellFormed(props, checked);
    Record(props.keys, checked)
  }

  /** The entry loop succeeds exactly when every entry passes, and then
      pairs each key, in order, with its checked entry. */
  lemma {:induction false} CheckEntriesExactly(es: seq<(string, Value)>)
    ensures CheckEntries(es).Success? <==> forall i :: 0 <= i < |es| ==> CheckEntry(es[i].0, es[i].1).Success?
    ensures CheckEntries(es).Success? ==> forall i :: 0 <= i < |es| ==>
      CheckEntries(es).value[i] == (es[i].0, CheckEntry(es[i].0, es[i].1).value)
  {
    if es != [] {
      var tail := es[1..];
      CheckEntriesExactly(tail);
      assert forall i :: 1 <= i < |es| ==> tail[i - 1] == es[i];
      if CheckEntries(es).Success? {
        var rest := CheckEntries(tail).value;
        assert CheckEntries(es).value == [(es[0].0, CheckEntry(es[0].0, es[0].1).value)] + rest;
      }
    }
  }

  /** A field value `undefined` is always rejected (unknown key or type
      mismatch), so the branch that would fill in its default never runs. */
  lemma UndefinedRejected(schema: Schema, key: string)
    ensures CheckField(schema, key, Undefined).Some?
  {
  }

  /** An array value under a scalar type passes the field checks. */
  lemma ArrayUnderScalarAccepted(schema: Schema, key: string, items: seq<Value>)
    requires key in schema.vals
    requires schema.vals[key].schemaType in {StringType, NumberType, BooleanType}
    ensures CheckField(schema, key, Arr(items)) == None
  {
  }

  /** An array value under an array type passes exactly when every element
      has the element type; in particular the empty array always passes. */
  lemma ArrayUnderArrayType(schema: Schema, key: string, items: seq<Value>)
    requires key in schema.vals
    requires schema.vals[key].schemaType in {StringArrayType, NumberArrayType, BooleanArrayType}
    ensures CheckField(schema, key, Arr(items)).None? <==>
      EveryItemIs(items, ElementTypeName(schema.vals[key].schemaType))
  {
  }

  function ElementTypeName(t: SchemaType): string {
    match t
    case StringArrayType => "string"
    case NumberArrayType => "number"
    case BooleanArrayType => "boolean"
    case _ => TypeName(t)
  }

  /** A single failing field makes the whole validation fail. */
  lemma FieldRejectionFails(schema: Schema, fields: Record<Value>, key: string)
    requires key in fields.vals && CheckField(schema, key, fields.vals[key]).Some?
    ensures ValidatedFields(schema, fields).Failure?
  {
    var es := Entries(fields);
    DomainIsKeys(fields);
    var i :| 0 <= i < |fields.keys| && fields.keys[i] == key;
    assert CheckField(schema, es[i].0, es[i].1).Some?;
  }

  /** A successful validation keeps every input field with its value, in its
      place, and appends each schema key the input lacks, in schema order,
      with its default: the result's keys are exactly the schema's. */
  lemma ValidatedExactly(schema: Schema, fields: Record<Value>)
    requires ValidatedFields(schema, fields).Success?
    ensures forall k :: k in fields.vals ==> k in schema.vals
    ensures ValidatedFields(schema, fields).value.keys == fields.keys + KeysNotIn(schema.keys, fields.vals.Keys)
    ensures ValidatedFields(schema, fields).value.vals.Keys == schema.vals.Keys
    ensures forall k :: k in fields.vals ==> ValidatedFields(schema, fields).value.vals[k] == fields.vals[k]
    ensures forall k :: k in schema.vals && k !in fields.vals ==>
      ValidatedFields(schema, fields).value.vals[k] == schema.vals[k].default
  {
    KnownFields(schema, fields);
    WithDefaultsKeys(schema, fields);
    WithDefaultsVals(schema, fields);
  }

  /** The keys of the fields, then the schema keys they lack. */
  lemma WithDefaultsKeys(schema: Schema, fields: Record<Value>)
    ensures WithDefaults(schema, fields).keys == fields.keys + KeysNotIn(schema.keys, fields.vals.Keys)
  {
    var F := fields.vals.Keys;
    var missing := MissingPairs(schema, F);
    PutAllEntries(fields, missing);
    MissingPairsExactly(schema, F);
    KeysNotInAll(missing.keys, F);
  }

  /** The values of the fields, and the defaults of the schema keys they lack. */
  lemma WithDefaultsVals(schema: Schema, fields: Record<Value>)
    ensures WithDefaults(schema, fields).vals.Keys == fields.vals.Keys + schema.vals.Keys
    ensures forall k :: k in fields.vals ==> WithDefaults(schema, fields).vals[k] == fields.vals[k]
    ensures forall k :: k in schema.vals && k !in fields.vals ==>
      WithDefaults(schema, fields).vals[k] == schema.vals[k].default
  {
    var F := fields.vals.Keys;
    var missing := MissingPairs(schema, F);
    PutAllEntries(fields, missing);
    MissingPairsExactly(schema, F);
    UnionKeys(fields.vals, missing.vals);
    AddMissing(F, missing.vals.Keys, schema.vals.Keys);
  }

  lemma UnionKeys<V>(a: map<string, V>, b: map<string, V>)
    ensures (a + b).Keys == a.Keys + b.Keys
  {
  }

  lemma AddMissing(present: set<string>, missing: set<string>, all: set<string>)
    requires forall k :: k in missing <==> k in all && k !in present
    ensures present + missing == present + all
  {
  }

  /** Every field of an accepted input is a schema key. */
  lemma KnownFields(schema: Schema, fields: Record<Value>)
    requires ValidatedFields(schema, fields).Success?
    ensures forall k :: k in fields.vals ==> k in schema.vals
  {
    forall k | k in fields.vals
      ensures k in schema.vals
    {
      if k !in schema.vals {
        FieldRejectionFails(schema, fields, k);
      }
    }
  }

  /** `getMissingKeyValuePairs` returns exactly the schema keys absent from
      the fields, in schema order, each mapped to its default. */
  lemma MissingPairsExactly(schema: Schema, fields: set<string>)
    ensures MissingPairs(schema, fields).keys == KeysNotIn(schema.keys, fields)
    ensures forall k :: k in MissingPairs(schema, fields).vals <==> k in schema.vals && k !in fields
    ensures forall k :: k in MissingPairs(schema, fields).vals ==>
      MissingPairs(schema, fields).vals[k] == schema.vals[k].default
  {
    var n := |schema.keys|;
    DomainIsKeys(schema);
    MissingPrefixKeys(schema, fields, n);
    MissingPrefixVals(schema, fields, n);
    assert schema.keys[..n] == schema.keys;
    forall k | k in schema.vals && k !in fields
      ensures k in MissingPairs(schema, fields).vals
    {
      KeysNotInKeeps(schema.keys, fields, k);
    }
  }

  /** With the schema `{ owner: string, default "unknown" }`, validating
      `{ owner: 1 }` fails with a type mismatch. */
  lemma ValidateRejectsExample()
    ensures ValidatedFields(OwnerSchema(), Record(["owner"], map["owner" := Num(1)]))
      == Failure(TypeMismatch("owner", StringType, "number"))
  {
    var s := OwnerSchema();
    var es := Entries(Record(["owner"], map["owner" := Num(1)]));
    assert es[0] == ("owner", Num(1));
    assert CheckField(s, "owner", Num(1)) == Some(TypeMismatch("owner", StringType, "number"));
    FirstBadFieldAt(s, es, 0);
  }

  /** With the schema `{ owner: string, default "unknown" }`, validating `{}`
      yields `{ owner: "unknown" }`. */
  lemma ValidateExample()
    ensures ValidatedFields(OwnerSchema(), Empty()) == Success(Record(["owner"], map["owner" := Str("unknown")]))
  {
    var s := OwnerSchema();
    var none: Record<Value> := Empty();
    assert Entries(none) == [];
    assert none.vals.Keys == {};
    assert |s.keys| == 1 && s.keys[0] == "owner" && s.vals["owner"].default == Str("unknown");
    assert MissingPrefix(s, {}, 0) == none;
    assert MissingPrefix(s, {}, 1) == Put(none, "owner", Str("unknown"));
    var es: seq<(string, Value)> := Entries(MissingPairs(s, {}));
    assert es == [("owner", Str("unknown"))];
    assert PutAll(none, es) == Put(none, "owner", Str("unknown")) by {
      assert es[..0] == [];
    }
    assert WithDefaults(s, none) == Record(["owner"], map["owner" := Str("unknown")]);
  }

  function OwnerSchema(): Schema {
    Record(["owner"], map["owner" := SchemaEntry(StringType, Str("Team that owns the project"), Str("unknown"))])
  }
}
