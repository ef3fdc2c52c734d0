/** The query executor: the source and selection checks, the three ways a
    condition is evaluated (primary-key lookup for `name = '…'`, a strict
    comparison over every record, rejection of every other condition), and
    the projection through the selection
    (packages/parser/src/lib/run-query.ts). */
module RunQuery {
  import opened Wrappers
  import opened Records
  import opened Values
  import opened QueryAst
  import opened NormalizeSelection
  import opened NormalizeProject

  /** `leftValue === right`: only a string, number or boolean equal to the
      literal; arrays, objects, `null` and `undefined` never are. */
  predicate StrictEquals(v: Value, right: Literal) {
    match right
    case LStr(s) => v == Str(s)
    case LNum(n) => v == Num(n)
    case LBool(b) => v == Bool(b)
  }

  /** `throwIfNotNumberComparison(leftValue, right, operator)`: both sides
      must be numbers; nothing is coerced. */
  function NumberComparison(leftValue: Value, right: Literal, operator: string): (r: Result<(int, int), EngineError>)
    ensures r.Success? <==> leftValue.Num? && right.LNum?
    ensures r.Success? ==> r.value == (leftValue.n, right.n)
    ensures r.Failure? ==> r.error == NotNumberComparison(leftValue, operator, right)
  {
    if !leftValue.Num? || !right.LNum? then Failure(NotNumberComparison(leftValue, operator, right))
    else Success((leftValue.n, right.n))
  }

  predicate IsOrdering(operator: string) {
    operator == "<" || operator == ">" || operator == "<=" || operator == ">="
  }

  /** The `switch (operator)` of `handleComparisonExpression`: whether a
      record's value meets the condition. */
  function ConditionMet(leftValue: Value, operator: string, right: Literal): Result<bool, EngineError> {
    if operator == "=" then Success(StrictEquals(leftValue, right))
    else if operator == "!=" then Success(!StrictEquals(leftValue, right))
    else if IsOrdering(operator) then
      var nums :- NumberComparison(leftValue, right, operator);
      if operator == "<" then Success(nums.0 < nums.1)
      else if operator == ">" then Success(nums.0 > nums.1)
      else if operator == "<=" then Success(nums.0 <= nums.1)
      else Success(nums.0 >= nums.1)
    else Failure(UnsupportedOperator(operator))
  }

  /** One record of the loop: its flattened form must have the field. */
  function RecordTest(flat: Record<Value>, left: string, operator: string, right: Literal): Result<bool, EngineError> {
    if left in flat.vals then ConditionMet(flat.vals[left], operator, right)
    else Failure(MissingField(left))
  }

  /** What `handleComparisonExpression` returns or throws for the records
      `ps`, in order: the first record that raises decides the error, and
      otherwise every record that meets the condition is normalised. */
  function Comparisons(ps: seq<Project>, flatten: Project -> Record<Value>, left: string, operator: string, right: Literal)
    : Result<seq<Record<Value>>, EngineError>
    decreases |ps|
  {
    if ps == [] then Success([])
    else
      var earlier :- Comparisons(ps[..|ps| - 1], flatten, left, operator, right);
      var p := ps[|ps| - 1];
      var met :- RecordTest(flatten(p), left, operator, right);
      Success(if met then earlier + [Normalized(p)] else earlier)
  }

  /** The loop step for a record that passes the test. */
  lemma ComparisonsStep(ps: seq<Project>, flatten: Project -> Record<Value>, left: string, operator: string, right: Literal,
                        i: nat, earlier: seq<Record<Value>>, met: bool)
    requires i < |ps|
    requires Comparisons(ps[..i], flatten, left, operator, right) == Success(earlier)
    requires RecordTest(flatten(ps[i]), left, operator, right) == Success(met)
    ensures Comparisons(ps[..i + 1], flatten, left, operator, right)
         == Success(if met then earlier + [Normalized(ps[i])] else earlier)
  {
    assert ps[..i + 1][..i] == ps[..i];
  }

  /** The loop step for a record that raises: the whole loop raises it. */
  lemma ComparisonsStop(ps: seq<Project>, flatten: Project -> Record<Value>, left: string, operator: string, right: Literal,
                        i: nat, earlier: seq<Record<Value>>, e: EngineError)
    requires i < |ps|
    requires Comparisons(ps[..i], flatten, left, operator, right) == Success(earlier)
    requires RecordTest(flatten(ps[i]), left, operator, right) == Failure(e)
    ensures Comparisons(ps, flatten, left, operator, right) == Failure(e)
  {
    assert ps[..i + 1][..i] == ps[..i];
    ComparisonsFailureStays(ps, flatten, left, operator, right, i + 1);
  }

  /** Once a prefix of the records has raised, the whole loop raises that error. */
  lemma {:induction false} ComparisonsFailureStays(ps: seq<Project>, flatten: Project -> Record<Value>, left: string, operator: string, right: Literal, i: nat)
    requires i <= |ps|
    requires Comparisons(ps[..i], flatten, left, operator, right).Failure?
    ensures Comparisons(ps, flatten, left, operator, right) == Comparisons(ps[..i], flatten, left, operator, right)
    decreases |ps| - i
  {
    if i == |ps| {
      assert ps[..i] == ps;
    } else {
      assert ps[..i + 1][..i] == ps[..i];
      ComparisonsFailureStays(ps, flatten, left, operator, right, i + 1);
    }
  }

  /** The `switch (operator)` statement run on one record's value. */
  method EvaluateOperator(leftValue: Value, operator: string, right: Literal) returns (r: Result<bool, EngineError>)
    ensures r == ConditionMet(leftValue, operator, right)
  {
    var conditionMet := false;
    if operator == "=" {
      conditionMet := StrictEquals(leftValue, right);
    } else if operator == "!=" {
      conditionMet := !StrictEquals(leftValue, right);
    } else if IsOrdering(operator) {
      var check := NumberComparison(leftValue, right, operator);
      if check.Failure? {
        return Failure(check.error);
      }
      if operator == "<" {
        conditionMet := leftValue.n < right.n;
      } else if operator == ">" {
        conditionMet := leftValue.n > right.n;
      } else if operator == "<=" {
        conditionMet := leftValue.n <= right.n;
      } else {
        conditionMet := leftValue.n >= right.n;
      }
    } else {
      return Failure(UnsupportedOperator(operator));
    }
    r := Success(conditionMet);
  }

  /** `handleComparisonExpression(projects, comparison)`: the loop over the
      records that keeps, normalised, those whose flattened field meets the
      condition. `flatten` is `flattenProject`. */
  method HandleComparisonExpression(projects: ProjectsMap, flatten: Project -> Record<Value>, left: string, operator: string, right: Literal)
    returns (r: Result<seq<Record<Value>>, EngineError>)
    ensures r == Comparisons(Records.Values(projects), flatten, left, operator, right)
  {
    var ps := Records.Values(projects);
    var results: seq<Record<Value>> := [];
    for i := 0 to |ps|
      invariant Comparisons(ps[..i], flatten, left, operator, right) == Success(results)
    {
      var project := ps[i];
      var normalizedProject := flatten(project);
      if left !in normalizedProject.vals {
        ComparisonsStop(ps, flatten, left, operator, right, i, results, MissingField(left));
        return Failure(MissingField(left));
      }
      var leftValue := normalizedProject.vals[left];
      var conditionMet := EvaluateOperator(leftValue, operator, right);
      if conditionMet.Failure? {
        ComparisonsStop(ps, flatten, left, operator, right, i, results, conditionMet.error);
        return Failure(conditionMet.error);
      }
      ComparisonsStep(ps, flatten, left, operator, right, i, results, conditionMet.value);
      if conditionMet.value {
        var row := NormalizeProject.NormalizeProject(project);
        results := results + [row];
      }
    }
    assert ps[..|ps|] == ps;
    r := Success(results);
  }

  /** What `handleNameEqualComparisonExpression` returns or throws. */
  function NameLookup(projects: ProjectsMap, right: Literal): Result<seq<Record<Value>>, EngineError> {
    if !right.LStr? then Failure(InvalidRightValue(right))
    else if right.s in projects.vals then Success([Normalized(projects.vals[right.s])])
    else Success([])
  }

  /** `handleNameEqualComparisonExpression(projects, comparison)`: the
      project stored under the name, normalised, if there is one. */
  method HandleNameEqualComparisonExpression(projects: ProjectsMap, right: Literal)
    returns (r: Result<seq<Record<Value>>, EngineError>)
    ensures r == NameLookup(projects, right)
  {
    var results: seq<Record<Value>> := [];
    if !right.LStr? {
      return Failure(InvalidRightValue(right));
    }
    var projectName := right.s;
    if projectName in projects.vals {
      var project := projects.vals[projectName];
      var queryResult := NormalizeProject.NormalizeProject(project);
      results := results + [queryResult];
      assert results == [Normalized(project)];
    }
    r := Success(results);
  }

  /** `rows.map((row) => omitBySelection(row, selection))`: the first row
      that raises decides the error. */
  function ProjectAll(rows: seq<Record<Value>>, selection: seq<string>): (r: Result<seq<Record<Value>>, EngineError>)
    ensures r.Success? ==> |r.value| == |rows|
    ensures r.Success? ==> forall i :: 0 <= i < |rows| ==> Projected(rows[i], selection) == Success(r.value[i])
  {
    if rows == [] then Success([])
    else
      var first :- Projected(rows[0], selection);
      var rest :- ProjectAll(rows[1..], selection);
      Success([first] + rest)
  }

  /** The rows the condition selects, before projection. */
  function ConditionRows(condition: Option<Condition>, projects: ProjectsMap, flatten: Project -> Record<Value>)
    : Result<seq<Record<Value>>, EngineError>
  {
    match condition
    case None =>
      var ps := Records.Values(projects);
      Success(seq(|ps|, i requires 0 <= i < |ps| => Normalized(ps[i])))
    case Some(c) =>
      if c.Comparison? && c.operator == "=" && c.left == "name" then NameLookup(projects, c.right)
      else if c.Comparison? then Comparisons(Records.Values(projects), flatten, c.left, c.operator, c.right)
      else Failure(UnsupportedCondition(ConditionType(c)))
  }

  /** The `try` block of `runQueryAsync`. */
  function Execute(q: Query, projects: ProjectsMap, flatten: Project -> Record<Value>): Result<QueryResult, EngineError> {
    var selection :- NormalizeSelection.NormalizeSelection(q.selection);
    var rows :- ConditionRows(q.condition, projects, flatten);
    var results :- ProjectAll(rows, selection);
    Success(QueryResult(results, |results|, selection))
  }

  /** `runQueryAsync(query)` once the database has been read into
      `projects`; `flatten` is `flattenProject`. */
  function RunQuery(q: Query, projects: ProjectsMap, flatten: Project -> Record<Value>): Result<QueryResult, QueryError> {
    if q.source != "projects" then Failure(UnsupportedSource(q.source))
    else if q.selection.kind != "All" && q.selection.kind != "List" then
      Failure(UnsupportedSelectionType(q.selection.kind))
    else
      match Execute(q, projects, flatten)
      case Failure(e) => Failure(ExecutionFailed(e))
      case Success(result) => Success(result)
  }

  /** Strict equality with a literal is equality with the literal's value:
      the same type and the same value, never across types and never for
      an array or object field. */
  lemma StrictEqualsExactly(v: Value, right: Literal)
    ensures StrictEquals(v, right) <==> v == LiteralValue(right)
    ensures v.Arr? || v.Obj? || v.Null? || v.Undefined? ==> !StrictEquals(v, right)
  {
  }

  /** The operator switch: `=` and `!=` never raise and are complementary;
      the ordering operators raise unless both sides are numbers and then
      compare them as numbers; every other operator raises. */
  lemma ConditionMetExactly(leftValue: Value, operator: string, right: Literal)
    ensures ConditionMet(leftValue, operator, right).Success?
        <==> operator == "=" || operator == "!=" || (IsOrdering(operator) && leftValue.Num? && right.LNum?)
    ensures operator == "=" ==> ConditionMet(leftValue, operator, right) == Success(leftValue == LiteralValue(right))
    ensures operator == "!=" ==> ConditionMet(leftValue, operator, right) == Success(leftValue != LiteralValue(right))
    ensures IsOrdering(operator) && !(leftValue.Num? && right.LNum?) ==>
      ConditionMet(leftValue, operator, right) == Failure(NotNumberComparison(leftValue, operator, right))
    ensures IsOrdering(operator) && leftValue.Num? && right.LNum? ==>
      ConditionMet(leftValue, operator, right) == Success(
        if operator == "<" then leftValue.n < right.n
        else if operator == ">" then leftValue.n > right.n
        else if operator == "<=" then leftValue.n <= right.n
        else leftValue.n >= right.n)
    ensures operator != "=" && operator != "!=" && !IsOrdering(operator) ==>
      ConditionMet(leftValue, operator, right) == Failure(UnsupportedOperator(operator))
  {
    StrictEqualsExactly(leftValue, right);
  }

  /** The comparison loop succeeds exactly when no record raises: every
      flattened record has the field and its value passes the operator
      switch. */
  lemma {:induction false} ComparisonsSucceedExactly(ps: seq<Project>, flatten: Project -> Record<Value>, left: string, operator: string, right: Literal)
    ensures Comparisons(ps, flatten, left, operator, right).Success?
        <==> forall i :: 0 <= i < |ps| ==> RecordTest(flatten(ps[i]), left, operator, right).Success?
    decreases |ps|
  {
    if ps != [] {
      var n := |ps|;
      ComparisonsSucceedExactly(ps[..n - 1], flatten, left, operator, right);
      assert forall i :: 0 <= i < n - 1 ==> ps[..n - 1][i] == ps[i];
    }
  }

  /** Which records meet the condition: position `i` holds whether record
      `i` passes the test with the answer `true`. */
  function MetFlags(ps: seq<Project>, flatten: Project -> Record<Value>, left: string, operator: string, right: Literal)
    : (met: seq<bool>)
    ensures |met| == |ps|
    ensures forall i :: 0 <= i < |ps| ==> met[i] == (RecordTest(flatten(ps[i]), left, operator, right) == Success(true))
  {
    seq(|ps|, i requires 0 <= i < |ps| => RecordTest(flatten(ps[i]), left, operator, right) == Success(true))
  }

  /** `rows` lists, in order, the elements of `all` whose flag in `keep` is
      set, and no other: `idx` maps each row to its position in `all`,
      strictly increasing, and every flagged position is in `idx`. */
  ghost predicate KeptInOrder<T>(rows: seq<T>, all: seq<T>, keep: seq<bool>, idx: seq<int>)
    requires |keep| == |all|
  {
    && |idx| == |rows|
    && (forall j :: 0 <= j < |idx| ==> 0 <= idx[j] < |all| && keep[idx[j]] && rows[j] == all[idx[j]])
    && (forall j, k :: 0 <= j < k < |idx| ==> idx[j] < idx[k])
    && (forall i :: 0 <= i < |all| && keep[i] ==> i in idx)
  }

  /** Appending one element to `all` appends it to `rows` exactly when its
      flag is set. */
  lemma KeptInOrderSnoc<T>(rows: seq<T>, all: seq<T>, keep: seq<bool>, idx: seq<int>, x: T, b: bool)
    requires |keep| == |all| && KeptInOrder(rows, all, keep, idx)
    ensures KeptInOrder(if b then rows + [x] else rows, all + [x], keep + [b], if b then idx + [|all|] else idx)
  {
    var n := |all|;
    var idx' := if b then idx + [n] else idx;
    forall j, k | 0 <= j < k < |idx'|
      ensures idx'[j] < idx'[k]
    {
      if k == |idx| {
        assert idx[j] < n;
      }
    }
    forall i | 0 <= i < n + 1 && (keep + [b])[i]
      ensures i in idx'
    {
      if i < n {
        assert keep[i];
      } else {
        assert idx'[|idx|] == i;
      }
    }
  }

  /** What a successful loop returns: exactly the normalised records that
      meet the condition, in the records' order. */
  lemma {:induction false} ComparisonsSelectMet(ps: seq<Project>, flatten: Project -> Record<Value>, left: string, operator: string, right: Literal)
    ensures Comparisons(ps, flatten, left, operator, right).Success? ==>
      exists idx :: KeptInOrder(Comparisons(ps, flatten, left, operator, right).value,
                                AllNormalized(ps), MetFlags(ps, flatten, left, operator, right), idx)
    decreases |ps|
  {
    if ps == [] {
      assert KeptInOrder([], AllNormalized(ps), MetFlags(ps, flatten, left, operator, right), []);
    } else if Comparisons(ps, flatten, left, operator, right).Success? {
      var n := |ps|;
      var init := ps[..n - 1];
      ComparisonsSelectMet(init, flatten, left, operator, right);
      var earlier := Comparisons(init, flatten, left, operator, right).value;
      var idx :| KeptInOrder(earlier, AllNormalized(init), MetFlags(init, flatten, left, operator, right), idx);
      var met := RecordTest(flatten(ps[n - 1]), left, operator, right).value;
      KeptInOrderSnoc(earlier, AllNormalized(init), MetFlags(init, flatten, left, operator, right), idx, Normalized(ps[n - 1]), met);
      AllNormalizedSnoc(ps);
      MetFlagsSnoc(ps, flatten, left, operator, right);
    }
  }

  lemma MetFlagsSnoc(ps: seq<Project>, flatten: Project -> Record<Value>, left: string, operator: string, right: Literal)
    requires ps != []
    ensures MetFlags(ps, flatten, left, operator, right)
         == MetFlags(ps[..|ps| - 1], flatten, left, operator, right)
            + [RecordTest(flatten(ps[|ps| - 1]), left, operator, right) == Success(true)]
  {
  }

  /** Under `=` or `!=` the only error the loop raises is a missing field. */
  lemma {:induction false} EqualityOnlyMissingField(ps: seq<Project>, flatten: Project -> Record<Value>, left: string, operator: string, right: Literal)
    requires operator == "=" || operator == "!="
    ensures Comparisons(ps, flatten, left, operator, right).Failure? ==>
      Comparisons(ps, flatten, left, operator, right).error == MissingField(left)
    decreases |ps|
  {
    if ps != [] {
      EqualityOnlyMissingField(ps[..|ps| - 1], flatten, left, operator, right);
    }
  }

  /** Under `=` or `!=` a record without the field fails the loop with
      the missing-field error. */
  lemma EqualityMissingField(ps: seq<Project>, flatten: Project -> Record<Value>, left: string, operator: string, right: Literal, i: nat)
    requires operator == "=" || operator == "!="
    requires i < |ps| && left !in flatten(ps[i]).vals
    ensures Comparisons(ps, flatten, left, operator, right) == Failure(MissingField(left))
  {
    ComparisonsSucceedExactly(ps, flatten, left, operator, right);
    EqualityOnlyMissingField(ps, flatten, left, operator, right);
    assert !RecordTest(flatten(ps[i]), left, operator, right).Success?;
  }

  /** An operator the switch does not know raises only once there is a
      record to test: over no records the loop returns no results. */
  lemma UnsupportedOperatorNeedsRecord(ps: seq<Project>, flatten: Project -> Record<Value>, left: string, operator: string, right: Literal)
    requires operator != "=" && operator != "!=" && !IsOrdering(operator)
    ensures Comparisons(ps, flatten, left, operator, right).Success? <==> ps == []
  {
    ComparisonsSucceedExactly(ps, flatten, left, operator, right);
    if ps != [] {
      assert !RecordTest(flatten(ps[0]), left, operator, right).Success?;
    }
  }

  /** Every project, normalised, in order: what a query without a
      condition selects. */
  function AllNormalized(ps: seq<Project>): (rows: seq<Record<Value>>)
    ensures |rows| == |ps|
    ensures forall i :: 0 <= i < |ps| ==> rows[i] == Normalized(ps[i])
  {
    seq(|ps|, i requires 0 <= i < |ps| => Normalized(ps[i]))
  }

  lemma AllNormalizedSnoc(ps: seq<Project>)
    requires ps != []
    ensures AllNormalized(ps) == AllNormalized(ps[..|ps| - 1]) + [Normalized(ps[|ps| - 1])]
  {
  }

  /** The last record of a loop whose earlier records all passed. */
  lemma ComparisonsLast(ps: seq<Project>, flatten: Project -> Record<Value>, left: string, operator: string, right: Literal,
                        earlier: seq<Record<Value>>, met: bool)
    requires ps != []
    requires Comparisons(ps[..|ps| - 1], flatten, left, operator, right) == Success(earlier)
    requires RecordTest(flatten(ps[|ps| - 1]), left, operator, right) == Success(met)
    ensures Comparisons(ps, flatten, left, operator, right)
         == Success(if met then earlier + [Normalized(ps[|ps| - 1])] else earlier)
  {
  }

  lemma MultisetSplit<T>(eq: seq<T>, neq: seq<T>, all: seq<T>, row: T, met: bool)
    requires multiset(eq) + multiset(neq) == multiset(all)
    ensures multiset(if met then eq + [row] else eq) + multiset(if met then neq else neq + [row]) == multiset(all + [row])
  {
  }

  /** When every record has the field, `= x` and `!= x` both succeed and
      split the normalised projects between them: each project lands in
      exactly one of the two results. */
  lemma {:induction false} EqualityPartition(ps: seq<Project>, flatten: Project -> Record<Value>, left: string, right: Literal)
    requires forall i :: 0 <= i < |ps| ==> left in flatten(ps[i]).vals
    ensures Comparisons(ps, flatten, left, "=", right).Success?
    ensures Comparisons(ps, flatten, left, "!=", right).Success?
    ensures multiset(Comparisons(ps, flatten, left, "=", right).value)
          + multiset(Comparisons(ps, flatten, left, "!=", right).value)
         == multiset(AllNormalized(ps))
    decreases |ps|
  {
    if ps == [] {
      assert Comparisons(ps, flatten, left, "=", right) == Success([]);
      assert Comparisons(ps, flatten, left, "!=", right) == Success([]);
    } else {
      var n := |ps|;
      var init := ps[..n - 1];
      assert forall i :: 0 <= i < n - 1 ==> init[i] == ps[i];
      EqualityPartition(init, flatten, left, right);
      var eq := Comparisons(init, flatten, left, "=", right).value;
      var neq := Comparisons(init, flatten, left, "!=", right).value;
      var flat := flatten(ps[n - 1]);
      var met := StrictEquals(flat.vals[left], right);
      assert RecordTest(flat, left, "=", right) == Success(met);
      assert RecordTest(flat, left, "!=", right) == Success(!met);
      ComparisonsLast(ps, flatten, left, "=", right, eq, met);
      ComparisonsLast(ps, flatten, left, "!=", right, neq, !met);
      AllNormalizedSnoc(ps);
      MultisetSplit(eq, neq, AllNormalized(init), Normalized(ps[n - 1]), met);
    }
  }

  /** `= x` and `!= x` over records that all have the field: the result
      counts add up to the number of projects. */
  lemma EqualityCounts(ps: seq<Project>, flatten: Project -> Record<Value>, left: string, right: Literal)
    requires forall i :: 0 <= i < |ps| ==> left in flatten(ps[i]).vals
    ensures Comparisons(ps, flatten, left, "=", right).Success? && Comparisons(ps, flatten, left, "!=", right).Success?
    ensures |Comparisons(ps, flatten, left, "=", right).value| + |Comparisons(ps, flatten, left, "!=", right).value| == |ps|
  {
    EqualityPartition(ps, flatten, left, right);
    var eq := Comparisons(ps, flatten, left, "=", right).value;
    var neq := Comparisons(ps, flatten, left, "!=", right).value;
    assert |multiset(eq) + multiset(neq)| == |multiset(AllNormalized(ps))|;
  }

  /** With the selection `*` the projection keeps every row as it is. */
  lemma {:induction false} ProjectAllWildcard(rows: seq<Record<Value>>)
    ensures ProjectAll(rows, ["*"]) == Success(rows)
  {
    if rows != [] {
      ProjectAllWildcard(rows[1..]);
      assert [rows[0]] + rows[1..] == rows;
    }
  }

  /** The source is checked before anything else, outside the `try`: the
      error is not prefixed and does not depend on the dataset. */
  lemma SourceCheckedFirst(q: Query, projects: ProjectsMap, flatten: Project -> Record<Value>)
    requires q.source != "projects"
    ensures RunQuery(q, projects, flatten) == Failure(UnsupportedSource(q.source))
  {
  }

  /** Only `All` and `List` selections get past the selection check. */
  lemma SelectionTypeChecked(q: Query, projects: ProjectsMap, flatten: Project -> Record<Value>)
    requires q.source == "projects"
    requires q.selection.kind != "All" && q.selection.kind != "List"
    ensures RunQuery(q, projects, flatten) == Failure(UnsupportedSelectionType(q.selection.kind))
  {
  }

  /** A `List` selection passes the selection check only to be rejected by
      `normalizeSelection` inside the `try`, whatever the condition. */
  lemma ListSelectionFails(q: Query, projects: ProjectsMap, flatten: Project -> Record<Value>)
    requires q.source == "projects" && q.selection.kind == "List"
    ensures RunQuery(q, projects, flatten) == Failure(ExecutionFailed(SelectionNotSupported("List")))
  {
  }

  /** A successful query selected `*` from `projects`, and its `total` is
      the number of results. */
  lemma SuccessEnvelope(q: Query, projects: ProjectsMap, flatten: Project -> Record<Value>)
    requires RunQuery(q, projects, flatten).Success?
    ensures q.source == "projects" && q.selection.kind == "All"
    ensures RunQuery(q, projects, flatten).value.total == |RunQuery(q, projects, flatten).value.results|
    ensures RunQuery(q, projects, flatten).value.selection == ["*"]
  {
  }

  /** Errors raised once both checks have passed, and only those, carry the
      `Error executing query: ` prefix. */
  lemma ExecutionErrorsWrapped(q: Query, projects: ProjectsMap, flatten: Project -> Record<Value>)
    requires RunQuery(q, projects, flatten).Failure?
    ensures RunQuery(q, projects, flatten).error.ExecutionFailed?
        <==> q.source == "projects" && (q.selection.kind == "All" || q.selection.kind == "List")
  {
  }

  /** Without a condition every project is returned, normalised, in the
      dataset's order. */
  lemma NoConditionReturnsAll(q: Query, projects: ProjectsMap, flatten: Project -> Record<Value>)
    requires q.source == "projects" && q.selection.kind == "All" && q.condition.None?
    ensures RunQuery(q, projects, flatten).Success?
    ensures |RunQuery(q, projects, flatten).value.results| == |projects.keys|
    ensures forall i :: 0 <= i < |projects.keys| ==>
      RunQuery(q, projects, flatten).value.results[i] == Normalized(projects.vals[projects.keys[i]])
  {
    ProjectAllWildcard(AllNormalized(Records.Values(projects)));
  }

  /** `name = '…'` is answered by key lookup: a non-string literal is
      rejected, and otherwise the result is the one project stored under
      that name, or nothing. */
  lemma NameEqualityLooksUpKey(q: Query, projects: ProjectsMap, flatten: Project -> Record<Value>, right: Literal)
    requires q.source == "projects" && q.selection.kind == "All"
    requires q.condition == Some(Comparison("name", "=", right))
    ensures !right.LStr? ==> RunQuery(q, projects, flatten) == Failure(ExecutionFailed(InvalidRightValue(right)))
    ensures right.LStr? ==> RunQuery(q, projects, flatten).Success?
    ensures right.LStr? ==> |RunQuery(q, projects, flatten).value.results| <= 1
    ensures right.LStr? ==> (|RunQuery(q, projects, flatten).value.results| == 1 <==> right.s in projects.vals)
    ensures right.LStr? && right.s in projects.vals ==>
      RunQuery(q, projects, flatten).value.results == [Normalized(projects.vals[right.s])]
  {
    if right.LStr? {
      ProjectAllWildcard(NameLookup(projects, right).value);
    }
  }

  /** Any other comparison runs the loop; under `=` or `!=` a project
      without the field fails the whole query. */
  lemma ComparisonMissingFieldFails(q: Query, projects: ProjectsMap, flatten: Project -> Record<Value>, i: nat)
    requires q.source == "projects" && q.selection.kind == "All"
    requires q.condition.Some? && q.condition.value.Comparison?
    requires !(q.condition.value.left == "name" && q.condition.value.operator == "=")
    requires q.condition.value.operator == "=" || q.condition.value.operator == "!="
    requires i < |projects.keys| && q.condition.value.left !in flatten(projects.vals[projects.keys[i]]).vals
    ensures RunQuery(q, projects, flatten) == Failure(ExecutionFailed(MissingField(q.condition.value.left)))
  {
    var c := q.condition.value;
    EqualityMissingField(Records.Values(projects), flatten, c.left, c.operator, c.right, i);
  }

  /** A successful ordering comparison met only numbers: every project has
      a number in the field and the literal is a number. */
  lemma OrderingSawOnlyNumbers(q: Query, projects: ProjectsMap, flatten: Project -> Record<Value>)
    requires q.condition.Some? && q.condition.value.Comparison? && IsOrdering(q.condition.value.operator)
    requires RunQuery(q, projects, flatten).Success?
    ensures forall i :: 0 <= i < |projects.keys| ==>
      var flat := flatten(projects.vals[projects.keys[i]]);
      q.condition.value.left in flat.vals && flat.vals[q.condition.value.left].Num?
    ensures projects.keys != [] ==> q.condition.value.right.LNum?
  {
    var c := q.condition.value;
    var ps := Records.Values(projects);
    ComparisonsSucceedExactly(ps, flatten, c.left, c.operator, c.right);
    forall i | 0 <= i < |ps|
      ensures c.left in flatten(ps[i]).vals && flatten(ps[i]).vals[c.left].Num? && c.right.LNum?
    {
      ConditionMetExactly(flatten(ps[i]).vals[c.left], c.operator, c.right);
    }
  }

  /** Membership (`IN`) and every other condition type are rejected. */
  lemma OtherConditionsRejected(q: Query, projects: ProjectsMap, flatten: Project -> Record<Value>)
    requires q.source == "projects" && q.selection.kind == "All"
    requires q.condition.Some? && !q.condition.value.Comparison?
    ensures RunQuery(q, projects, flatten) == Failure(ExecutionFailed(UnsupportedCondition(ConditionType(q.condition.value))))
    ensures q.condition.value.Membership? ==> RunQuery(q, projects, flatten) == Failure(ExecutionFailed(UnsupportedCondition("InExpression")))
  {
  }
}
