/** Turning a stored project into a result row, and cutting a row down to
    the selected keys (packages/parser/src/lib/normalize-project.ts). */
module NormalizeProject {
  import opened Wrappers
  import opened Records
  import opened Values
  import opened QueryAst

  /** The keys of the object literal `normalizeProject` starts from, in order. */
  const FixedKeys: seq<string> :=
    ["name", "type", "tags", "root", "sourceRoot", "targets", "implicitDependencies", "dependencies"]

  /** `project.sourceRoot || 'undefined'` */
  function SourceRootOrDefault(p: Project): (v: Value)
    ensures Truthy(p.sourceRoot) ==> v == p.sourceRoot
    ensures !Truthy(p.sourceRoot) ==> v == Str("undefined")
  {
    if Truthy(p.sourceRoot) then p.sourceRoot else Str("undefined")
  }

  /** The object literal: the project's fixed attributes under their keys. */
  function Base(p: Project): (r: Record<Value>)
    ensures r.keys == FixedKeys
  {
    var vals := map[
      "name" := p.name,
      "type" := p.projectType,
      "tags" := p.tags,
      "root" := p.root,
      "sourceRoot" := SourceRootOrDefault(p),
      "targets" := p.targets,
      "implicitDependencies" := p.implicitDependencies,
      "dependencies" := p.dependencies];
    FixedKeysDistinct();
    MembershipWellFormed(FixedKeys, vals);
    Record(FixedKeys, vals)
  }

  lemma FixedKeysDistinct()
    ensures forall i, j :: 0 <= i < j < |FixedKeys| ==> FixedKeys[i] != FixedKeys[j]
  {
    assert FixedKeys[1][1] != FixedKeys[2][1];
  }

  /** What `normalizeProject` returns: the fixed attributes, then every
      custom field assigned over them in entry order. */
  function Normalized(p: Project): Record<Value> {
    match p.customFields
    case None => Base(p)
    case Some(fields) => PutAll(Base(p), Entries(fields))
  }

  /** `normalizeProject(project)` */
  method NormalizeProject(p: Project) returns (normalized: Record<Value>)
    ensures normalized == Normalized(p)
  {
    normalized := Base(p);
    if p.customFields.Some? {
      var es := Entries(p.customFields.value);
      for i := 0 to |es|
        invariant normalized == PutAll(Base(p), es[..i])
      {
        var (key, value) := es[i];
        PutAllSnoc(Base(p), es, i);
        normalized := Put(normalized, key, value);
      }
      assert es[..|es|] == es;
    }
  }

  /** The value the object literal gives a fixed key. */
  function FixedValue(p: Project, k: string): Value {
    if k == "name" then p.name
    else if k == "type" then p.projectType
    else if k == "tags" then p.tags
    else if k == "root" then p.root
    else if k == "sourceRoot" then SourceRootOrDefault(p)
    else if k == "targets" then p.targets
    else if k == "implicitDependencies" then p.implicitDependencies
    else p.dependencies
  }

  /** A fixed key that no custom field overrides keeps the project's
      attribute; `sourceRoot` falls back to the text `'undefined'` when the
      project's is absent or empty. */
  lemma NormalizedFixed(p: Project, k: string)
    requires k in FixedKeys
    requires p.customFields.Some? ==> k !in p.customFields.value.vals
    ensures k in Normalized(p).vals && Normalized(p).vals[k] == FixedValue(p, k)
  {
    assert k in Base(p).vals && Base(p).vals[k] == FixedValue(p, k);
    if p.customFields.Some? {
      PutAllEntries(Base(p), p.customFields.value);
    }
  }

  /** Every custom field appears as a key of its own with its value, over a
      fixed key of the same name; the fixed keys come first, in their order,
      then the new custom keys in entry order. */
  lemma NormalizedCustom(p: Project)
    requires p.customFields.Some?
    ensures forall k :: k in p.customFields.value.vals ==>
      k in Normalized(p).vals && Normalized(p).vals[k] == p.customFields.value.vals[k]
    ensures Normalized(p).keys == FixedKeys + KeysNotIn(p.customFields.value.keys, Base(p).vals.Keys)
    ensures Normalized(p).vals.Keys == Base(p).vals.Keys + p.customFields.value.vals.Keys
  {
    PutAllEntries(Base(p), p.customFields.value);
  }

  /** `selection.length === 1 && selection[0] === '*'` */
  predicate IsWildcard(selection: seq<string>) {
    |selection| == 1 && selection[0] == "*"
  }

  /** The position of the first selected key the row lacks, or `|selection|`. */
  function FirstMissingKey(row: Record<Value>, selection: seq<string>): (i: nat)
    ensures i <= |selection|
    ensures forall j :: 0 <= j < i ==> selection[j] in row.vals
    ensures i < |selection| ==> selection[i] !in row.vals
  {
    if selection == [] then 0
    else if selection[0] !in row.vals then 0
    else 1 + FirstMissingKey(row, selection[1..])
  }

  /** The selected keys, assigned one after another with the row's values. */
  function Pick(row: Record<Value>, keys: seq<string>): Record<Value>
    requires forall j :: 0 <= j < |keys| ==> keys[j] in row.vals
    decreases |keys|
  {
    if keys == [] then Empty()
    else
      var key := keys[|keys| - 1];
      Put(Pick(row, keys[..|keys| - 1]), key, row.vals[key])
  }

  /** What `omitBySelection` returns or throws. */
  function Projected(row: Record<Value>, selection: seq<string>): Result<Record<Value>, EngineError> {
    if IsWildcard(selection) then Success(row)
    else
      var i := FirstMissingKey(row, selection);
      if i < |selection| then Failure(InvalidSelectionKey(selection[i], row.keys))
      else Success(Pick(row, selection))
  }

  /** `omitBySelection(project, selection)` */
  method OmitBySelection(row: Record<Value>, selection: seq<string>) returns (r: Result<Record<Value>, EngineError>)
    ensures r == Projected(row, selection)
  {
    if |selection| == 1 && selection[0] == "*" {
      return Success(row);
    }
    var result := Empty();
    for i := 0 to |selection|
      invariant i <= FirstMissingKey(row, selection)
      invariant result == Pick(row, selection[..i])
    {
      var key := selection[i];
      if key !in row.vals {
        return Failure(InvalidSelectionKey(key, row.keys));
      }
      PickSnoc(row, selection, i);
      result := Put(result, key, row.vals[key]);
    }
    assert selection[..|selection|] == selection;
    r := Success(result);
  }

  lemma PickSnoc(row: Record<Value>, keys: seq<string>, i: nat)
    requires i < |keys|
    requires forall j :: 0 <= j <= i ==> keys[j] in row.vals
    ensures Pick(row, keys[..i + 1]) == Put(Pick(row, keys[..i]), keys[i], row.vals[keys[i]])
  {
    assert keys[..i + 1][..i] == keys[..i];
  }

  /** The picked row has exactly the selected keys, each with the row's value. */
  lemma {:induction false} PickExactly(row: Record<Value>, keys: seq<string>)
    requires forall j :: 0 <= j < |keys| ==> keys[j] in row.vals
    ensures forall k :: k in Pick(row, keys).vals <==> k in keys
    ensures forall k :: k in Pick(row, keys).vals ==> Pick(row, keys).vals[k] == row.vals[k]
    decreases |keys|
  {
    if keys != [] {
      var n := |keys|;
      PickExactly(row, keys[..n - 1]);
      LastSplit(keys);
    }
  }

  /** With distinct selected keys, the picked row lists them in selection order. */
  lemma {:induction false} PickKeys(row: Record<Value>, keys: seq<string>)
    requires forall j :: 0 <= j < |keys| ==> keys[j] in row.vals
    requires forall i, j :: 0 <= i < j < |keys| ==> keys[i] != keys[j]
    ensures Pick(row, keys).keys == keys
    decreases |keys|
  {
    if keys != [] {
      var n := |keys|;
      PrefixDistinct(keys, n - 1);
      PickKeys(row, keys[..n - 1]);
      PickExactly(row, keys[..n - 1]);
      LastSplit(keys);
    }
  }

  lemma PrefixDistinct(keys: seq<string>, i: nat)
    requires i < |keys|
    requires forall a, b :: 0 <= a < b < |keys| ==> keys[a] != keys[b]
    ensures keys[i] !in keys[..i]
    ensures forall a, b :: 0 <= a < b < |keys[..i]| ==> keys[..i][a] != keys[..i][b]
  {
  }

  /** Outside the wildcard case, a projection that succeeds has exactly the
      selected keys, each with the row's value; `*` inside a longer
      selection is looked up like any other key. */
  lemma ProjectionExactly(row: Record<Value>, selection: seq<string>)
    requires !IsWildcard(selection)
    requires Projected(row, selection).Success?
    ensures forall j :: 0 <= j < |selection| ==> selection[j] in row.vals
    ensures forall k :: k in Projected(row, selection).value.vals <==> k in selection
    ensures forall k :: k in Projected(row, selection).value.vals ==>
      Projected(row, selection).value.vals[k] == row.vals[k]
  {
    PickExactly(row, selection);
  }

  /** A selected key the row lacks raises an error listing the row's keys;
      the first such key in the selection is the one named. */
  lemma MissingKeyRejected(row: Record<Value>, selection: seq<string>, i: nat)
    requires !IsWildcard(selection)
    requires i < |selection| && selection[i] !in row.vals
    requires forall j :: 0 <= j < i ==> selection[j] in row.vals
    ensures Projected(row, selection) == Failure(InvalidSelectionKey(selection[i], row.keys))
  {
    FirstMissingAt(row, selection, i);
  }

  lemma FirstMissingAt(row: Record<Value>, selection: seq<string>, i: nat)
    requires i < |selection| && selection[i] !in row.vals
    requires forall j :: 0 <= j < i ==> selection[j] in row.vals
    ensures FirstMissingKey(row, selection) == i
  {
  }

  /** `["*", "name"]` is not the wildcard: on a row without a `*` key it
      fails, while `["*"]` returns the row unchanged. */
  lemma StarIsOrdinaryKey(row: Record<Value>, rest: seq<string>)
    requires "*" !in row.vals
    ensures Projected(row, ["*"]) == Success(row)
    ensures Projected(row, ["*"] + rest).Failure? <==> |rest| > 0
  {
    if |rest| > 0 {
      MissingKeyRejected(row, ["*"] + rest, 0);
    }
  }
}
