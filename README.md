# nxdb query engine and schema validation, in Dafny

nxdb treats the projects of an Nx workspace as a database. A project may carry custom fields, which a per-project `.nxdb.config.mjs` computes and a workspace `.nxdb.schema.json` declares. An NXQL query (`SELECT * FROM projects WHERE …`) is then run against the stored projects, and the result is printed as a table. This project models the in-memory core of that pipeline and proves what it promises:

- the query executor (`runQueryAsync`):
  - the source and selection checks;
  - the `name = '…'` fast path by key lookup;
  - the strict comparison loop over every project;
  - the rejection of other conditions;
  - the projection through the selection and the result envelope;
- project normalisation (`normalizeProject`) and projection (`omitBySelection`);
- selection normalisation (`normalizeSelection`);
- the schema manager:
  - validation of a parsed schema (`readSchema` after `JSON.parse`);
  - entry and default lookup;
  - missing-pair computation and field validation with defaults;
  - the lazily created singleton;
- custom-field loading: `isPrimitive`, `isESModule`, and the object check and copy loop of `getCustomFieldsAsync`;
- the template engine: the placeholder map, global replacement applied in entry order, and the singleton;
- the table formatter: `capString`, the per-cell formatting, and the row and column limits of `printQueryResultAsTable`.

The modules are as follows.
- `Records` models a JavaScript object with insertion order. Its keys are a sequence and its values a map, and a subset type keeps the two in step: the keys are distinct, and a key has a value exactly when it is listed. Assignment (`Put`) overwrites a key in place or appends a new one.
- `Values` holds the JavaScript runtime values the code inspects.
- `QueryAst` holds the query tree, the project and dataset types, and the error messages.

Where the source updates a local dictionary or array in a loop, the model has a `method` with that loop. Each such method is proved equal to a recursive specification function, and lemmas state the properties of that function. The singletons (`SchemaManager.instance`, `TemplateEngine.instance`) are classes holding an `Option` field.

## Model

| member | source | states |
|---|---|---|
| NormalizeSelection.NormalizeSelection | packages/parser/src/lib/normalize-selection.ts:3-11 | succeeds exactly for an `All` selection, with `["*"]`; any other type fails naming that type |
| NormalizeSelection.ListRejected | packages/parser/src/lib/normalize-selection.ts:4-10 | a `List` selection is always rejected; a successful result has exactly one key |
| NormalizeProject.SourceRootOrDefault | packages/parser/src/lib/normalize-project.ts:10 | a truthy `sourceRoot` is kept; an absent or empty one becomes the text `'undefined'` |
| NormalizeProject.Base | packages/parser/src/lib/normalize-project.ts:5-14 | the object literal has the eight fixed keys in their written order |
| NormalizeProject.NormalizeProject | packages/parser/src/lib/normalize-project.ts:4-23 | the loop that assigns every custom field over the fixed attributes builds exactly `Normalized(p)` |
| NormalizeProject.NormalizedFixed | packages/parser/src/lib/normalize-project.ts:5-14 | a fixed key that no custom field overrides holds the project's attribute (with the `sourceRoot` fallback) |
| NormalizeProject.NormalizedCustom | packages/parser/src/lib/normalize-project.ts:16-20 | every custom field appears with its value, overriding a fixed key of the same name; the keys are the fixed ones, then the new custom ones in entry order; the domain is the union |
| NormalizeProject.FirstMissingKey | packages/parser/src/lib/normalize-project.ts:33-42 | the position where the selection loop stops: every earlier key is in the row and the key there is not |
| NormalizeProject.OmitBySelection | packages/parser/src/lib/normalize-project.ts:25-45 | the wildcard return and the loop that copies selected keys or throws equal `Projected(row, selection)` |
| NormalizeProject.PickExactly | packages/parser/src/lib/normalize-project.ts:33-42 | the picked row has exactly the selected keys, each with the row's value |
| NormalizeProject.PickKeys | packages/parser/src/lib/normalize-project.ts:33-42 | with distinct selected keys, the picked row lists them in selection order |
| NormalizeProject.ProjectionExactly | packages/parser/src/lib/normalize-project.ts:33-44 | outside the wildcard case, a successful projection has every selected key, only those, each with the row's value |
| NormalizeProject.MissingKeyRejected | packages/parser/src/lib/normalize-project.ts:36-41 | the first selected key the row lacks raises an error naming it and listing the row's keys |
| NormalizeProject.StarIsOrdinaryKey | packages/parser/src/lib/normalize-project.ts:29-31 | `["*"]` returns the row unchanged, while `*` in a longer selection is looked up like any key and fails on a row without it |
| RunQuery.NumberComparison | packages/parser/src/lib/run-query.ts:189-201 | the guard passes exactly when both sides are numbers, yielding the two numbers; otherwise it raises the "both sides must be numbers" error |
| RunQuery.EvaluateOperator | packages/parser/src/lib/run-query.ts:149-174 | the operator switch on one value equals `ConditionMet` |
| RunQuery.StrictEqualsExactly | packages/parser/src/lib/run-query.ts:150-155 | `===` with a literal is equality with the literal's value; arrays, objects, `null` and `undefined` never equal a literal |
| RunQuery.ConditionMetExactly | packages/parser/src/lib/run-query.ts:149-174 | `=` and `!=` never raise and are complementary; the ordering operators raise unless both sides are numbers and otherwise compare the numbers; any other operator raises "Unsupported operator" |
| RunQuery.HandleComparisonExpression | packages/parser/src/lib/run-query.ts:136-187 | the loop over the projects that keeps the normalised projects meeting the condition equals `Comparisons` over the projects in iteration order |
| RunQuery.ComparisonsFailureStays | packages/parser/src/lib/run-query.ts:143-184 | once a project has raised, the whole loop raises that error and no partial result is returned |
| RunQuery.ComparisonsSucceedExactly | packages/parser/src/lib/run-query.ts:143-186 | the loop succeeds exactly when every project has the field and passes the operator check |
| RunQuery.ComparisonsSelectMet | packages/parser/src/lib/run-query.ts:143-186 | a successful loop returns exactly the normalised projects that meet the condition, each once, in iteration order: every row is a met project's normalised form, the rows' projects are strictly increasing in position, and every met project appears |
| RunQuery.EqualityOnlyMissingField | packages/parser/src/lib/run-query.ts:149-155 | under `=` or `!=` the only error the loop can raise is the missing-field error |
| RunQuery.EqualityMissingField | packages/parser/src/lib/run-query.ts:179-183 | under `=` or `!=`, a project without the field makes the loop fail with the missing-field error |
| RunQuery.UnsupportedOperatorNeedsRecord | packages/parser/src/lib/run-query.ts:172-173 | an unknown operator makes the loop fail exactly when there is at least one project |
| RunQuery.EqualityPartition | packages/parser/src/lib/run-query.ts:150-155 | when every project has the field, the `=` and `!=` results together are a permutation of all normalised projects |
| RunQuery.EqualityCounts | packages/parser/src/lib/run-query.ts:150-155 | when every project has the field, the sizes of the `=` and `!=` results add up to the number of projects |
| RunQuery.HandleNameEqualComparisonExpression | packages/parser/src/lib/run-query.ts:115-134 | the key-lookup path equals `NameLookup`: an error for a non-string literal, else zero or one normalised project |
| RunQuery.ProjectAll | packages/parser/src/lib/run-query.ts:47-50 | a successful projection has one row per input row, each the projection of the row at the same position |
| RunQuery.ProjectAllWildcard | packages/parser/src/lib/normalize-project.ts:29-31 | under `["*"]` every row is kept as it is |
| RunQuery.AllNormalized | packages/parser/src/lib/run-query.ts:78-86 | one normalised row per project, in order |
| RunQuery.SourceCheckedFirst | packages/parser/src/lib/run-query.ts:25-29 | a source other than `projects` fails with the unsupported-source error, whatever else the query holds |
| RunQuery.SelectionTypeChecked | packages/parser/src/lib/run-query.ts:31-35 | a selection type other than `All` or `List` fails before the `try` block, with the unsupported-selection-type error |
| RunQuery.ListSelectionFails | packages/parser/src/lib/run-query.ts:39 | a `List` selection passes the first check but always fails at normalisation, wrapped as an execution error |
| RunQuery.SuccessEnvelope | packages/parser/src/lib/run-query.ts:53-57 | a successful query selected `*` from `projects`; its `total` is the number of results and its selection is `["*"]` |
| RunQuery.ExecutionErrorsWrapped | packages/parser/src/lib/run-query.ts:98-103 | every failure is an unsupported source, an unsupported selection type, or an error from inside the `try` block re-raised with the execution prefix |
| RunQuery.NoConditionReturnsAll | packages/parser/src/lib/run-query.ts:78-97 | without a condition the query succeeds with one normalised row per project, in iteration order |
| RunQuery.NameEqualityLooksUpKey | packages/parser/src/lib/run-query.ts:41-57 | `name = x` fails for a non-string `x`; otherwise it returns at most one row, exactly one iff `x` is a key of the dataset, and that row is the normalised project |
| RunQuery.ComparisonMissingFieldFails | packages/parser/src/lib/run-query.ts:41-71 | every `=`/`!=` comparison except `name = …`, `name != …` included, fails as a whole when some project lacks the field |
| RunQuery.OrderingSawOnlyNumbers | packages/parser/src/lib/run-query.ts:156-171 | a successful ordering query met only numbers: every project's field is a number and, if there is any project, so is the literal |
| QueryAst.ConditionTypeDecides | packages/parser/src/lib/run-query.ts:59-75 | the condition node's `type` is `ComparisonExpression` exactly for comparisons and `InExpression` exactly for `IN`; any other node carries some other type |
| RunQuery.OtherConditionsRejected | packages/parser/src/lib/run-query.ts:72-75 | every condition other than a comparison, `IN` included, fails with the unsupported-condition-type error naming its type |
| QueryAst.PrefixMarksExecutionErrors | packages/parser/src/lib/run-query.ts:98-103 | exactly the errors raised inside the `try` block reach the caller with the message prefix "Error executing query: " |
| Schema.ParseType | packages/db/src/lib/schema.ts:156-169 | recognises exactly the six type tags |
| Schema.CheckEntriesExactly | packages/db/src/lib/schema.ts:135-214 | the entry loop succeeds exactly when every entry passes its checks, and then yields each entry's validated form under its key |
| Schema.ReadSchemaAccepts | packages/db/src/lib/schema.ts:129-216 | a parsed object is accepted exactly when every entry passes |
| Schema.ReadSchemaValue | packages/db/src/lib/schema.ts:216 | the accepted schema has the object's keys, in order, each with its entry's type, description and default |
| Schema.ReservedCheckedFirst | packages/db/src/lib/schema.ts:135-140 | a reserved name is rejected before anything else about its entry is looked at |
| Schema.AcceptedEntry | packages/db/src/lib/schema.ts:142-213 | an accepted entry is a plain object with a recognised `type`, a `description` and a `default`; a scalar type's default has that type, and an array type's default is the empty array |
| Schema.NonEmptyArrayDefault | packages/db/src/lib/schema.ts:185-213 | a non-empty array fails the string or the number element check, whatever type is declared |
| Schema.EmptyArrayDefaultAccepted | packages/db/src/lib/schema.ts:185-213 | `{ type, description, default: [] }` is accepted for every array type |
| Schema.SchemaManager.GetEntry | packages/db/src/lib/schema.ts:59-63 | returns the entry exactly when the key is declared |
| Schema.SchemaManager.GetDefaultValue | packages/db/src/lib/schema.ts:65-67 | the declared key's default, or `undefined` |
| Schema.MissingKeyValuePairs | packages/db/src/lib/schema.ts:69-77 | the loop over the schema entries builds exactly `MissingPairs` |
| Schema.MissingPairsExactly | packages/db/src/lib/schema.ts:69-77 | the missing pairs are exactly the schema keys absent from the fields, in schema order, each with its default |
| Schema.CheckOneField | packages/db/src/lib/schema.ts:84-109 | the per-field checks equal `CheckField` |
| Schema.ValidateFieldsOf | packages/db/src/lib/schema.ts:79-120 | the two loops of `validateFields` equal `ValidatedFields`: the first failing field's error, or the fields with the defaults added |
| Schema.AssignMissingDefaults | packages/db/src/lib/schema.ts:112-117 | the default loop yields the fields followed by each missing schema key with its default |
| Schema.FieldRejectionFails | packages/db/src/lib/schema.ts:83-106 | one failing field makes the whole validation fail |
| Schema.UndefinedRejected | packages/db/src/lib/schema.ts:91-95 | an `undefined` value is always rejected, so the default-filling branch of the field loop is never reached |
| Schema.ArrayUnderScalarAccepted | packages/db/src/lib/schema.ts:91-106 | an array value under a scalar type passes the field checks |
| Schema.ArrayUnderArrayType | packages/db/src/lib/schema.ts:97-106 | an array under an array type passes exactly when every element has the element type; the empty array passes |
| Schema.KnownFields | packages/db/src/lib/schema.ts:84-87 | every field of an accepted input is declared in the schema |
| Schema.ValidatedExactly | packages/db/src/lib/schema.ts:79-120 | a successful validation keeps every input field, its value and its position, then appends the missing schema keys in schema order with their defaults; its keys are exactly the schema's |
| Schema.ValidateRejectsExample | packages/db/src/lib/schema.ts:91-95 | with schema `{ owner: string }`, `{ owner: 1 }` fails with a type mismatch reporting `number` |
| Schema.ValidateExample | packages/db/src/lib/schema.ts:112-117 | with schema `{ owner: string, default "unknown" }`, `{}` becomes `{ owner: "unknown" }` |
| Schema.SchemaManagerHolder.GetInstance | packages/db/src/lib/schema.ts:48-53 | the first successful call stores the manager over the schema read then; later calls return that same manager |
| CustomFields.FirstNonPrimitive | packages/db/src/lib/utils/get-custom-fields.ts:40-49 | the position where the copy loop stops: every earlier value is primitive and the value there is not |
| CustomFields.CopyCustomFields | packages/db/src/lib/utils/get-custom-fields.ts:36-49 | the object check and copy loop equal `CopiedFields` |
| CustomFields.GetCustomFields | packages/db/src/lib/utils/get-custom-fields.ts:11-50 | no configuration gives `{}`; a non-module or a non-function default export fails; otherwise the returned value is checked and copied |
| CustomFields.IsPrimitiveExactly | packages/db/src/lib/utils/get-custom-fields.ts:56-63 | accepts exactly strings, numbers, booleans, and arrays whose every element is one of those |
| CustomFields.IsPrimitiveSamples | packages/db/src/lib/utils/get-custom-fields.ts:56-63 | empty and mixed arrays pass; `null`, `undefined`, functions, plain objects, and arrays holding `null` or an array fail |
| CustomFields.IsESModuleExactly | packages/db/src/lib/utils/get-custom-fields.ts:52-54 | holds exactly of plain objects with a `default` key; an array never has one |
| CustomFields.CopyKeepsObject | packages/db/src/lib/utils/get-custom-fields.ts:40-49 | an object whose values are all primitive is copied key for key, in order |
| CustomFields.CopyRejectsFirstNonPrimitive | packages/db/src/lib/utils/get-custom-fields.ts:42-46 | a non-primitive value fails the copy, naming the first offending key |
| TemplateEngine.Placeholder | packages/db/src/lib/template-engine.ts:23 | the placeholder is the key wrapped in five delimiter characters |
| TemplateEngine.PlaceholderInjective | packages/db/src/lib/template-engine.ts:21-26 | different keys have different placeholders |
| TemplateEngine.ReplaceAllIsSplitJoin | packages/db/src/lib/template-engine.ts:34 | global replacement is splitting at the occurrences and joining with the value |
| TemplateEngine.SplitPiecesFree | packages/db/src/lib/template-engine.ts:34 | no piece between the occurrences contains the pattern: every occurrence is replaced, not just the first |
| TemplateEngine.ReplaceAllSelf | packages/db/src/lib/template-engine.ts:34 | replacing a pattern by itself changes nothing, so splitting and joining back restores the text |
| TemplateEngine.ReplaceAllAbsent | packages/db/src/lib/template-engine.ts:34 | a text without the pattern comes out unchanged |
| TemplateEngine.ReplaceAllEveryOccurrence | packages/db/src/lib/template-engine.ts:32-38 | both occurrences of a placeholder are replaced |
| TemplateEngine.EscapedIsPlaceholderRecord | packages/db/src/lib/template-engine.ts:21-26 | the first `reduce` builds the map from each key's placeholder to its value, with no collisions |
| TemplateEngine.EscapedExactly | packages/db/src/lib/template-engine.ts:21-26 | each key's placeholder holds that key's value, and every placeholder stands for a key |
| TemplateEngine.TemplateEngine.GetFile | packages/db/src/lib/template-engine.ts:20-39 | fails exactly for a name with no template or an empty one |
| TemplateEngine.GetFileReplacesInKeyOrder | packages/db/src/lib/template-engine.ts:32-38 | a registered template has the placeholders replaced one after another, in the order of the keys |
| TemplateEngine.GetFileNoReplacements | packages/db/src/lib/template-engine.ts:32-38 | with no replacements the template is returned unchanged |
| TemplateEngine.ChainedReplacement | packages/db/src/lib/template-engine.ts:32-38 | later replacements act on the output of earlier ones, so the order of the keys decides the outcome |
| TemplateEngine.RegisteredTemplates | packages/db/src/lib/template-engine.ts:4-7 | exactly the two configuration file names have templates |
| TemplateEngine.TemplateEngineHolder.GetInstance | packages/db/src/lib/template-engine.ts:13-18 | the first call creates the engine over the registry; every later call returns that same engine |
| Formatter.CapString | packages/parser/src/lib/formatter.ts:56-61 | a string within the limit is unchanged; a longer one keeps its first `maxLength` characters and gains `...` |
| Formatter.FormatCellExactly | packages/parser/src/lib/formatter.ts:26-33 | strings of at most 50 characters are shown as they are, longer strings and joined arrays in at most 53, and every other value through `String` |
| Formatter.FormatRow | packages/parser/src/lib/formatter.ts:24-35 | the `forEach` over the selection builds exactly `Formatted` |
| Formatter.FormattedExactly | packages/parser/src/lib/formatter.ts:24-35 | a row's cells are exactly the selected keys the result has, each with its formatted value; missing keys are skipped |
| Formatter.FormattedKeys | packages/parser/src/lib/formatter.ts:24-35 | under distinct keys the result has, the cells keep selection order |
| Formatter.TruncateRow | packages/parser/src/lib/formatter.ts:37-47 | the `filter` and `reduce` that rebuild a wide row equal `Truncated` |
| Formatter.TruncatedExactly | packages/parser/src/lib/formatter.ts:37-47 | a row within `maxColumns` is unchanged; a wider one keeps its first `maxColumns` cells, with their values, and gains `'...'`; no row exceeds `maxColumns + 1` cells |
| Formatter.FormatResult | packages/parser/src/lib/formatter.ts:22-50 | one result's row is the formatted row after the column check |
| Formatter.FormatTable | packages/parser/src/lib/formatter.ts:9-51 | the rows handed to `console.table` equal `TableRows` |
| Formatter.RowsUpToExactly | packages/parser/src/lib/formatter.ts:21-50 | the first `n` rows are built from the first `n` results, position by position |
| Formatter.RowBounds | packages/parser/src/lib/formatter.ts:24-47 | a row has at most `maxColumns + 1` cells, and every cell but `'...'` is a selected key the result has |
| Formatter.TableRowsExactly | packages/parser/src/lib/formatter.ts:21-50 | the table shows the results at an index below `maxRows`, in order, each with at most `maxColumns + 1` cells drawn from the selection and the result |
| Formatter.DefaultTableBounds | packages/parser/src/lib/formatter.ts:6-7 | with the defaults, at most 100 rows of at most 7 cells are shown |
| Formatter.WildcardShowsFirstKeys | packages/parser/src/lib/formatter.ts:10-13 | `*` expands to the keys of the first result, and that result's row keeps them in order |
| Records.PutAllEntries | packages/parser/src/lib/normalize-project.ts:16-20 | assigning every entry of one object onto another yields the union of the two, with overrides in place and new keys appended in entry order |
| Records.FromEntriesOfEntries | packages/db/src/lib/template-engine.ts:21-26 | rebuilding an object from its entries gives the same object |
| Records.DomainIsKeys | packages/parser/src/lib/query-result.ts:3 | an object's own keys are exactly its listed keys |

## Left out

- **I/O and the environment.**
  - Reading the database (`readDatabaseAsync`) and `.nxdb.schema.json` (`readFileSync`, `JSON.parse`): the dataset and the parsed schema are parameters.
  - The existence checks on the configuration files: `GetCustomFields` takes whether one was found.
  - The dynamic `import` and the awaited call of its default export: their results are parameters.
- **Console output.** The `ora` spinner, the "No results found." and "Total results" lines, `console.table`, the `console.error` on a schema failure, the `console.debug` when no custom-fields configuration is found, and `printSchema` have no logical content to verify. `FormatTable` stops at the rows handed to `console.table`.
- **`flattenProject`.** It is not part of this model, since no definition of it is available. The executor takes it as a function parameter `flatten`, and its results are constrained only by the lemmas' hypotheses.
- **The NXQL grammar.** `QueryAst` models the syntax tree the parser yields (its `Query`, `Selection` and condition nodes), not the generated parser.
- **`getSchema`.** It returns the stored schema unchanged; `SchemaManager.schema` is that field.
- **Numbers.** Numbers are integers: floating point, `NaN` and the number formatting of `String` are not modelled. `String` of a number is decimal notation of the integer.
- **`String.prototype.replace` with a `RegExp`.** The key is treated as plain text. Keys holding regular-expression metacharacters, and `$` patterns in values, are not modelled.
- **Object key order.** JavaScript lists integer-like keys first, in numeric order. The model keeps insertion order for every key.
- **`in` on objects.** `key in obj` looks at own keys only. Properties reached through the prototype chain (`toString`, `constructor`, …) are not modelled.
- **String lengths** are counted in characters, not UTF-16 code units.
- **`String(fn)` of a function value** is a fixed text, not the function's source.
- **`typeof` of a value that is neither JSON nor a primitive.** Only the values JSON parsing and the configuration can yield are modelled: strings, numbers, booleans, `null`, `undefined`, arrays, plain objects and functions.
- **`ProjectAll`** states the length and the per-position projection of a successful result, not which row's error is raised on failure. That error is fixed by the definition, and `ListSelectionFails` and `ComparisonMissingFieldFails` pin it down where it matters.
- **`Schema.CheckEntries`** states only the length of its result on success. Its full meaning is the lemma `Schema.CheckEntriesExactly`.
