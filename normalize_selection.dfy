/** `normalizeSelection`: the selection node of a query turned into the list
    of selected keys (packages/parser/src/lib/normalize-selection.ts). Only
    `*` is supported. */
module NormalizeSelection {
  import opened Wrappers
  import opened QueryAst

  /** `["*"]` for an `All` selection; every other selection is an error
      naming its type. */
  function NormalizeSelection(selection: Selection): (r: Result<seq<string>, EngineError>)
    ensures r.Success? <==> selection.kind == "All"
    ensures r.Success? ==> r.value == ["*"]
    ensures r.Failure? ==> r.error == SelectionNotSupported(selection.kind)
  {
    if selection.kind == "All" then Success(["*"])
    else Failure(SelectionNotSupported(selection.kind))
  }

  /** A `List` selection is always rejected; whatever is returned has one key. */
  lemma ListRejected(selection: Selection)
    ensures selection.kind == "List" ==> NormalizeSelection(selection) == Failure(SelectionNotSupported("List"))
    ensures NormalizeSelection(selection).Success? ==> |NormalizeSelection(selection).value| == 1
  {
  }
}
