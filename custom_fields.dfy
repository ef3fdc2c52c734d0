/** Loading a project's custom fields from its `.nxdb.config.mjs`: the checks
    on the imported module and on the object its default function returns,
    and the copy of that object's primitive-valued entries
    (packages/db/src/lib/utils/get-custom-fields.ts). */
module CustomFields {
  import opened Wrappers
  import opened Records
  import opened Values

  /** `typeof v` is `'string'`, `'number'` or `'boolean'`. */
  predicate IsScalar(v: Value) {
    TypeOf(v) == "string" || TypeOf(v) == "number" || TypeOf(v) == "boolean"
  }

  /** `isPrimitive`: a string, number or boolean, or an array whose every
      element is one (empty and mixed arrays included). The values it accepts
      are the `Primitive` values a custom field may hold. */
  predicate IsPrimitive(v: Value) {
    IsScalar(v) || (v.Arr? && forall i :: 0 <= i < |v.items| ==> IsScalar(v.items[i]))
  }

  /** `isESModule`: a non-null object with a `default` key. */
  predicate IsESModule(v: Value) {
    IsNonNullObject(v) && HasProperty(v, "default")
  }

  /** The errors `getCustomFieldsAsync` throws. */
  datatype ConfigError =
    | NotAnESModule
    | DefaultNotAFunction
    | NotAnObject
    | NotPrimitive(key: string)

  /** The position of the first entry whose value is not primitive, or
      `|es|` when every value is. */
  function FirstNonPrimitive(es: seq<(string, Value)>): (i: nat)
    ensures i <= |es|
    ensures forall j :: 0 <= j < i ==> IsPrimitive(es[j].1)
    ensures i < |es| ==> !IsPrimitive(es[i].1)
  {
    if es == [] then 0
    else if !IsPrimitive(es[0].1) then 0
    else 1 + FirstNonPrimitive(es[1..])
  }

  /** What the copy loop of `getCustomFieldsAsync` produces from the value the
      configuration function returned. */
  function CopiedFields(returned: Value): Result<Record<Value>, ConfigError> {
    if !IsNonNullObject(returned) then Failure(NotAnObject)
    else
      var es := ObjectEntries(returned);
      var i := FirstNonPrimitive(es);
      if i < |es| then Failure(NotPrimitive(es[i].0)) else Success(FromEntries(es))
  }

  /** The object check and the `for…of` loop that copies every entry of the
      returned object into `result`, throwing at the first value that is not
      primitive. */
  method CopyCustomFields(returned: Value) returns (r: Result<Record<Value>, ConfigError>)
    ensures r == CopiedFields(returned)
  {
    if !IsNonNullObject(returned) {
      return Failure(NotAnObject);
    }
    var es := ObjectEntries(returned);
    var result: Record<Value> := Empty();
    for i := 0 to |es|
      invariant result == PutAll(Empty(), es[..i])
      invariant i <= FirstNonPrimitive(es)
    {
      var (key, value) := es[i];
      if !IsPrimitive(value) {
        FirstNonPrimitiveAt(es, i);
        return Failure(NotPrimitive(key));
      }
      FirstNonPrimitivePast(es, i);
      PutAllSnoc(Empty(), es, i);
      result := Put(result, key, value);
    }
    assert es[..|es|] == es;
    r := Success(result);
  }

  /** The first non-primitive position is the one a left-to-right scan stops at. */
  lemma FirstNonPrimitiveAt(es: seq<(string, Value)>, i: nat)
    requires i <= |es|
    requires forall j :: 0 <= j < i ==> IsPrimitive(es[j].1)
    requires i < |es| ==> !IsPrimitive(es[i].1)
    ensures FirstNonPrimitive(es) == i
  {
  }

  /** A scan that has passed `i` entries goes on past a primitive one. */
  lemma FirstNonPrimitivePast(es: seq<(string, Value)>, i: nat)
    requires i < |es| && i <= FirstNonPrimitive(es)
    requires IsPrimitive(es[i].1)
    ensures i + 1 <= FirstNonPrimitive(es)
  {
  }

  /** `getCustomFieldsAsync` from the point where the configuration file has
      been looked up: `configFound` says whether `.nxdb.config.mjs` or
      `.nxdb.config.js` exists, `imported` is what the dynamic `import` yields,
      and `returned` is the awaited result of calling its default export. */
  method GetCustomFields(configFound: bool, imported: Value, returned: Value)
    returns (r: Result<Record<Value>, ConfigError>)
    ensures !configFound ==> r == Success(Empty())
    ensures configFound && !IsESModule(imported) ==> r == Failure(NotAnESModule)
    ensures configFound && IsESModule(imported) ==>
      r == if TypeOf(Property(imported, "default")) != "function" then Failure(DefaultNotAFunction)
           else CopiedFields(returned)
  {
    if !configFound {
      return Success(Empty());
    }
    if !IsESModule(imported) {
      return Failure(NotAnESModule);
    }
    if TypeOf(Property(imported, "default")) != "function" {
      return Failure(DefaultNotAFunction);
    }
    r := CopyCustomFields(returned);
  }

  /** `isPrimitive` accepts every string, number and boolean, every array of
      them (empty and mixed-type arrays included), and nothing else. */
  lemma IsPrimitiveExactly(v: Value)
    ensures IsPrimitive(v) <==>
      || v.Str? || v.Num? || v.Bool?
      || (v.Arr? && forall i :: 0 <= i < |v.items| ==> v.items[i].Str? || v.items[i].Num? || v.items[i].Bool?)
  {
    if v.Arr? {
      forall i | 0 <= i < |v.items|
        ensures IsScalar(v.items[i]) <==> v.items[i].Str? || v.items[i].Num? || v.items[i].Bool?
      {
        var x := v.items[i];
        assert TypeOf(x) == "string" ==> x.Str?;
        assert TypeOf(x) == "number" ==> x.Num?;
        assert TypeOf(x) == "boolean" ==> x.Bool?;
      }
    }
  }

  /** Sample values: empty and mixed arrays pass; `null`, plain objects,
      functions and arrays holding `null` or an array do not. */
  lemma IsPrimitiveSamples()
    ensures IsPrimitive(Arr([]))
    ensures IsPrimitive(Arr([Str("lib"), Num(3), Bool(false)]))
    ensures !IsPrimitive(Null) && !IsPrimitive(Undefined) && !IsPrimitive(Fn)
    ensures !IsPrimitive(Obj(Empty()))
    ensures !IsPrimitive(Arr([Str("a"), Null]))
    ensures !IsPrimitive(Arr([Arr([])]))
  {
    assert !IsScalar(Arr([Str("a"), Null]).items[1]);
    assert !IsScalar(Arr([Arr([])]).items[0]);
  }

  /** `isESModule` holds exactly of plain objects that have a `default` key:
      never of arrays, functions or `null`. */
  lemma IsESModuleExactly(v: Value)
    ensures IsESModule(v) <==> v.Obj? && "default" in v.props.vals
  {
    if v.Arr? && IsESModule(v) {
      var i :| 0 <= i < |v.items| && "default" == NatToString(i);
      assert NatToString(i)[0] == 'd';
      DigitsOnly(i);
      assert false;
    }
  }

  lemma {:induction false} DigitsOnly(n: nat)
    ensures forall j :: 0 <= j < |NatToString(n)| ==> '0' <= NatToString(n)[j] <= '9'
    decreases n
  {
    if n >= 10 {
      DigitsOnly(n / 10);
    }
  }

  /** When the configuration returns a plain object whose values are all
      primitive, the copy has exactly its entries, in its order. */
  lemma CopyKeepsObject(props: Record<Value>)
    requires forall k :: k in props.vals ==> IsPrimitive(props.vals[k])
    ensures CopiedFields(Obj(props)) == Success(props)
  {
    FirstNonPrimitiveAt(ObjectEntries(Obj(props)), |props.keys|);
    FromEntriesOfEntries(props);
  }

  /** A non-primitive value makes the copy fail, naming the first offending
      key in iteration order. */
  lemma CopyRejectsFirstNonPrimitive(returned: Value, i: nat)
    requires IsNonNullObject(returned)
    requires i < |ObjectEntries(returned)|
    requires !IsPrimitive(ObjectEntries(returned)[i].1)
    requires forall j :: 0 <= j < i ==> IsPrimitive(ObjectEntries(returned)[j].1)
    ensures CopiedFields(returned) == Failure(NotPrimitive(ObjectEntries(returned)[i].0))
  {
    FirstNonPrimitiveAt(ObjectEntries(returned), i);
  }
}
