/** The template engine that writes the configuration files: a registry of
    two named templates and `getFile`, which replaces every `<%=key%>`
    placeholder of a template by the key's value
    (packages/db/src/lib/template-engine.ts). */
module TemplateEngine {
  import opened Wrappers
  import opened Records
  import opened Values

  /** `<%=key%>`: the placeholder a replacement key stands for. */
  function Placeholder(key: string): (p: string)
    ensures |p| == |key| + 5
  {
    "<%=" + key + "%>"
  }

  /** Different keys have different placeholders. */
  lemma PlaceholderInjective(a: string, b: string)
    requires Placeholder(a) == Placeholder(b)
    ensures a == b
  {
    assert a == Placeholder(a)[3..|a| + 3];
    assert b == Placeholder(b)[3..|b| + 3];
  }

  /** `pat` occurs in `s` starting at `i`. */
  predicate OccursAt(s: string, pat: string, i: nat) {
    i + |pat| <= |s| && s[i..i + |pat|] == pat
  }

  /** `s.replace(new RegExp(pat, 'g'), rep)` for a pattern that is plain
      text: every occurrence of `pat`, found left to right without overlap,
      becomes `rep`. */
  function ReplaceAll(s: string, pat: string, rep: string): string
    requires |pat| > 0
    decreases |s|
  {
    if |s| < |pat| then s
    else if s[..|pat|] == pat then rep + ReplaceAll(s[|pat|..], pat, rep)
    else [s[0]] + ReplaceAll(s[1..], pat, rep)
  }

  /** `s.split(pat)`: the pieces of `s` between the occurrences of `pat`,
      found left to right without overlap. */
  function Split(s: string, pat: string): (parts: seq<string>)
    requires |pat| > 0
    ensures |parts| >= 1
    decreases |s|
  {
    if |s| < |pat| then [s]
    else if s[..|pat|] == pat then [""] + Split(s[|pat|..], pat)
    else
      var rest := Split(s[1..], pat);
      [[s[0]] + rest[0]] + rest[1..]
  }

  /** Replacing every occurrence is splitting at the occurrences and joining
      the pieces with the replacement. */
  lemma {:induction false} ReplaceAllIsSplitJoin(s: string, pat: string, rep: string)
    requires |pat| > 0
    ensures ReplaceAll(s, pat, rep) == Join(Split(s, pat), rep)
    decreases |s|
  {
    if |s| < |pat| {
    } else if s[..|pat|] == pat {
      ReplaceAllIsSplitJoin(s[|pat|..], pat, rep);
      var parts := Split(s[|pat|..], pat);
      assert ([""] + parts)[1..] == parts;
    } else {
      ReplaceAllIsSplitJoin(s[1..], pat, rep);
      JoinExtendFirst(s[0], Split(s[1..], pat), rep);
    }
  }

  /** Putting a character in front of the first piece puts it in front of the join. */
  lemma JoinExtendFirst(c: char, parts: seq<string>, sep: string)
    requires |parts| >= 1
    ensures Join([[c] + parts[0]] + parts[1..], sep) == [c] + Join(parts, sep)
  {
    var extended := [[c] + parts[0]] + parts[1..];
    if |parts| > 1 {
      assert extended[1..] == parts[1..];
    }
  }

  /** The first piece is the start of the string. */
  lemma {:induction false} SplitFirstIsPrefix(s: string, pat: string)
    requires |pat| > 0
    ensures |Split(s, pat)[0]| <= |s| && Split(s, pat)[0] == s[..|Split(s, pat)[0]|]
    decreases |s|
  {
    if |s| >= |pat| && s[..|pat|] != pat {
      SplitFirstIsPrefix(s[1..], pat);
    }
  }

  /** No piece of a split contains the pattern: every occurrence has been cut
      out, so `ReplaceAll` replaces all of them and not just the first. */
  lemma {:induction false} SplitPiecesFree(s: string, pat: string)
    requires |pat| > 0
    ensures forall k, i :: 0 <= k < |Split(s, pat)| && 0 <= i ==> !OccursAt(Split(s, pat)[k], pat, i)
    decreases |s|
  {
    if |s| < |pat| {
    } else if s[..|pat|] == pat {
      SplitPiecesFree(s[|pat|..], pat);
    } else {
      var rest := Split(s[1..], pat);
      SplitPiecesFree(s[1..], pat);
      SplitFirstIsPrefix(s[1..], pat);
      forall i: nat | OccursAt([s[0]] + rest[0], pat, i)
        ensures false
      {
        FirstPieceOccurrence(s, pat, rest[0], i);
      }
    }
  }

  /** An occurrence in the first piece, which extends `s[0]` by a prefix of
      `s[1..]`, is either at the start of `s` or one place further in that prefix. */
  lemma FirstPieceOccurrence(s: string, pat: string, first: string, i: nat)
    requires |pat| > 0 && |s| >= |pat| && s[..|pat|] != pat
    requires |first| <= |s| - 1 && first == s[1..][..|first|]
    requires OccursAt([s[0]] + first, pat, i)
    ensures i > 0 && OccursAt(first, pat, i - 1)
  {
    var whole := [s[0]] + first;
    assert whole == s[..|whole|];
    assert i > 0;
    assert whole[i..i + |pat|] == first[i - 1..i - 1 + |pat|];
  }

  /** Replacing a pattern by itself changes nothing; with the split lemma,
      joining the pieces with the pattern rebuilds the string. */
  lemma {:induction false} ReplaceAllSelf(s: string, pat: string)
    requires |pat| > 0
    ensures ReplaceAll(s, pat, pat) == s
    ensures Join(Split(s, pat), pat) == s
    decreases |s|
  {
    if |s| >= |pat| {
      if s[..|pat|] == pat {
        ReplaceAllSelf(s[|pat|..], pat);
        assert s == s[..|pat|] + s[|pat|..];
      } else {
        ReplaceAllSelf(s[1..], pat);
        assert s == [s[0]] + s[1..];
      }
    }
    ReplaceAllIsSplitJoin(s, pat, pat);
  }

  /** A string without the pattern comes out unchanged. */
  lemma {:induction false} ReplaceAllAbsent(s: string, pat: string, rep: string)
    requires |pat| > 0
    requires forall i :: 0 <= i ==> !OccursAt(s, pat, i)
    ensures ReplaceAll(s, pat, rep) == s
    decreases |s|
  {
    if |s| >= |pat| {
      assert !OccursAt(s, pat, 0);
      forall i | 0 <= i
        ensures !OccursAt(s[1..], pat, i)
      {
        assert !OccursAt(s, pat, i + 1);
      }
      ReplaceAllAbsent(s[1..], pat, rep);
      assert s == [s[0]] + s[1..];
    }
  }

  /** The `g` flag at work: both occurrences of the placeholder are replaced. */
  lemma ReplaceAllEveryOccurrence()
    ensures ReplaceAll("<%=a%>-<%=a%>", Placeholder("a"), "x") == "x-x"
  {
    var p := Placeholder("a");
    assert p == "<%=a%>";
    var s := "<%=a%>-<%=a%>";
    assert s[..6] == p && s[6..] == "-<%=a%>";
    assert ReplaceAll("<%=a%>", p, "x") == "x" by {
      assert "<%=a%>"[6..] == "";
    }
    assert ReplaceAll("-<%=a%>", p, "x") == "-x" by {
      assert "-<%=a%>"[..6] != p;
      assert "-<%=a%>"[1..] == "<%=a%>";
    }
  }

  /** The first `reduce` of `getFile`: each replacement key, in entry order,
      assigned under its placeholder. */
  function EscapedReplacements(replacements: Record<string>): Record<string> {
    FromEntries(EscapedEntries(replacements))
  }

  function EscapedEntries(replacements: Record<string>): (es: seq<(string, string)>)
    ensures |es| == |replacements.keys|
    ensures forall i :: 0 <= i < |es| ==>
      es[i] == (Placeholder(replacements.keys[i]), replacements.vals[replacements.keys[i]])
  {
    seq(|replacements.keys|, i requires 0 <= i < |replacements.keys| =>
      (Placeholder(replacements.keys[i]), replacements.vals[replacements.keys[i]]))
  }

  /** The placeholders of the keys, in the keys' order. */
  function PlaceholderKeys(replacements: Record<string>): (ks: seq<string>)
    ensures |ks| == |replacements.keys|
    ensures forall i :: 0 <= i < |ks| ==> ks[i] == Placeholder(replacements.keys[i])
  {
    seq(|replacements.keys|, i requires 0 <= i < |replacements.keys| => Placeholder(replacements.keys[i]))
  }

  /** No two keys share a placeholder. */
  lemma PlaceholdersDistinct(replacements: Record<string>)
    ensures forall i, j :: 0 <= i < j < |PlaceholderKeys(replacements)| ==>
      PlaceholderKeys(replacements)[i] != PlaceholderKeys(replacements)[j]
  {
    var ks := PlaceholderKeys(replacements);
    forall i, j | 0 <= i < j < |ks|
      ensures ks[i] != ks[j]
    {
      if ks[i] == ks[j] {
        PlaceholderInjective(replacements.keys[i], replacements.keys[j]);
      }
    }
  }

  /** The key a placeholder stands for. */
  function KeyOf(p: string): string
    requires |p| >= 5
  {
    p[3..|p| - 2]
  }

  lemma KeyOfPlaceholder(key: string)
    ensures KeyOf(Placeholder(key)) == key
  {
  }

  /** Every placeholder in the list stands for a key that has a value. */
  lemma PlaceholderKeysKnown(replacements: Record<string>)
    ensures forall p :: p in PlaceholderKeys(replacements) ==> |p| >= 5 && KeyOf(p) in replacements.vals
  {
    var ks := PlaceholderKeys(replacements);
    forall p | p in ks
      ensures |p| >= 5 && KeyOf(p) in replacements.vals
    {
      var i :| 0 <= i < |ks| && ks[i] == p;
      KeyOfPlaceholder(replacements.keys[i]);
    }
  }

  /** The placeholder map built directly: the placeholders of the keys, in
      the keys' order, each holding its key's value. */
  function PlaceholderRecord(replacements: Record<string>): Record<string> {
    PlaceholdersDistinct(replacements);
    PlaceholderKeysKnown(replacements);
    var ks := PlaceholderKeys(replacements);
    var vals := map p | p in ks :: replacements.vals[KeyOf(p)];
    MembershipWellFormed(ks, vals);
    Record(ks, vals)
  }

  /** The first `reduce` builds exactly that map: no two keys collide. */
  lemma EscapedIsPlaceholderRecord(replacements: Record<string>)
    ensures EscapedReplacements(replacements) == PlaceholderRecord(replacements)
  {
    EscapedEntriesInOrder(replacements);
    FromEntriesOfEntries(PlaceholderRecord(replacements));
  }

  /** The escaped entries are that map's entries, in the keys' order. */
  lemma EscapedEntriesInOrder(replacements: Record<string>)
    ensures EscapedEntries(replacements) == Entries(PlaceholderRecord(replacements))
  {
    var escaped := PlaceholderRecord(replacements);
    forall i | 0 <= i < |replacements.keys|
      ensures EscapedEntries(replacements)[i] == Entries(escaped)[i]
    {
      KeyOfPlaceholder(replacements.keys[i]);
    }
  }

  /** Each key's placeholder holds that key's value, and every placeholder
      in the map stands for a key. */
  lemma EscapedExactly(replacements: Record<string>)
    ensures forall k :: k in replacements.vals ==>
      Placeholder(k) in EscapedReplacements(replacements).vals
      && EscapedReplacements(replacements).vals[Placeholder(k)] == replacements.vals[k]
    ensures forall p :: p in EscapedReplacements(replacements).vals ==>
      exists k :: k in replacements.vals && p == Placeholder(k)
  {
    EscapedIsPlaceholderRecord(replacements);
    DomainIsKeys(replacements);
    var ks := PlaceholderKeys(replacements);
    forall k | k in replacements.vals
      ensures Placeholder(k) in ks
    {
      var i :| 0 <= i < |replacements.keys| && replacements.keys[i] == k;
      assert ks[i] == Placeholder(k);
    }
    forall k | k in replacements.vals
      ensures KeyOf(Placeholder(k)) == k
    {
      KeyOfPlaceholder(k);
    }
    EscapedOnlyPlaceholders(replacements);
  }

  /** Every placeholder in the escaped map stands for a key. */
  lemma EscapedOnlyPlaceholders(replacements: Record<string>)
    ensures forall p :: p in EscapedReplacements(replacements).vals ==>
      exists k :: k in replacements.vals && p == Placeholder(k)
  {
    EscapedIsPlaceholderRecord(replacements);
    var ks := PlaceholderKeys(replacements);
    forall p | p in PlaceholderRecord(replacements).vals
      ensures exists k :: k in replacements.vals && p == Placeholder(k)
    {
      var i :| 0 <= i < |ks| && ks[i] == p;
      assert replacements.keys[i] in replacements.vals;
    }
  }

  /** The second `reduce` of `getFile`: the replacements applied one after
      another, each to the text the earlier ones produced. */
  function ApplyReplacements(content: string, es: seq<(string, string)>): string
    requires forall i :: 0 <= i < |es| ==> |es[i].0| > 0
    decreases |es|
  {
    if es == [] then content
    else
      var last := es[|es| - 1];
      ReplaceAll(ApplyReplacements(content, es[..|es| - 1]), last.0, last.1)
  }

  /** The errors `getFile` throws. */
  datatype TemplateError = TemplateMissing(fileName: string)

  /** The template engine. Its only state, the registry of templates, is
      read-only, so the engine is a value holding that registry. */
  datatype TemplateEngine = TemplateEngine(templateFiles: Record<string>)
  {
    /** `getFile(fileName, fileReplacements)`: a name without a template,
        or whose template is empty, is an error; otherwise every
        placeholder of every key is replaced, in entry order. */
    function GetFile(fileName: string, replacements: Record<string>): (r: Result<string, TemplateError>)
      ensures r.Failure? <==> fileName !in templateFiles.vals || templateFiles.vals[fileName] == ""
      ensures r.Failure? ==> r.error == TemplateMissing(fileName)
    {
      var escaped := EscapedReplacements(replacements);
      if fileName !in templateFiles.vals || templateFiles.vals[fileName] == "" then
        Failure(TemplateMissing(fileName))
      else
        EscapedNonEmpty(replacements);
        Success(ApplyReplacements(templateFiles.vals[fileName], Entries(escaped)))
    }
  }

  /** Every placeholder is non-empty, so it can be searched for. */
  lemma EscapedNonEmpty(replacements: Record<string>)
    ensures forall i :: 0 <= i < |Entries(EscapedReplacements(replacements))| ==>
      |Entries(EscapedReplacements(replacements))[i].0| > 0
  {
    EscapedIsPlaceholderRecord(replacements);
  }

  /** What `getFile` returns for a registered template: the template with
      the placeholder of each key replaced, in the order of the keys. */
  lemma GetFileReplacesInKeyOrder(engine: TemplateEngine, fileName: string, replacements: Record<string>)
    requires engine.GetFile(fileName, replacements).Success?
    ensures engine.GetFile(fileName, replacements).value
      == ApplyReplacements(engine.templateFiles.vals[fileName], EscapedEntries(replacements))
  {
    EscapedIsPlaceholderRecord(replacements);
    EscapedEntriesInOrder(replacements);
  }

  /** With no replacements, `getFile` returns the template as it is. */
  lemma GetFileNoReplacements(engine: TemplateEngine, fileName: string)
    requires fileName in engine.templateFiles.vals && engine.templateFiles.vals[fileName] != ""
    ensures engine.GetFile(fileName, Empty()) == Success(engine.templateFiles.vals[fileName])
  {
    var none: Record<string> := Empty();
    assert EscapedEntries(none) == [];
    assert Entries(EscapedReplacements(none)) == [];
  }

  /** `getFile` with replacements `es` followed by one more entry: the last
      replacement runs on the text the earlier ones produced, so a value
      holding a later key's placeholder is itself rewritten. */
  lemma ChainedReplacement()
    ensures ApplyReplacements("<%=a%>", [(Placeholder("a"), "<%=b%>"), (Placeholder("b"), "x")]) == "x"
    ensures ApplyReplacements("<%=a%>", [(Placeholder("b"), "x"), (Placeholder("a"), "<%=b%>")]) == "<%=b%>"
  {
    assert Placeholder("a") == "<%=a%>" && Placeholder("b") == "<%=b%>";
    var es := [(Placeholder("a"), "<%=b%>"), (Placeholder("b"), "x")];
    assert es[..1][..0] == [] && es[..1] == [es[0]];
    assert ReplaceAll("<%=a%>", "<%=a%>", "<%=b%>") == "<%=b%>" by {
      assert "<%=a%>"[6..] == "";
    }
    assert ReplaceAll("<%=b%>", "<%=b%>", "x") == "x" by {
      assert "<%=b%>"[6..] == "";
    }
    var fs := [(Placeholder("b"), "x"), (Placeholder("a"), "<%=b%>")];
    assert fs[..1][..0] == [] && fs[..1] == [fs[0]];
    assert ReplaceAll("<%=a%>", "<%=b%>", "x") == "<%=a%>" by {
      ReplaceAllAbsentSample();
    }
  }

  lemma ReplaceAllAbsentSample()
    ensures ReplaceAll("<%=a%>", "<%=b%>", "x") == "<%=a%>"
  {
    var s := "<%=a%>";
    assert s[..6] != "<%=b%>" by { assert s[3] == 'a'; }
    assert |s[1..]| < 6;
  }

  /** `baseConfig`: the base configuration template. */
  const BaseConfig: string :=
    "\nexport default async function (projectRoot) {\n  return {\n"
    + "    // numberOfCommits: await computeNumberOfCommits(projectRoot),\n"
    + "    // linesOfCode: await computeLinesOfCode(projectRoot)\n  };\n}\n"

  /** `projectConfig`: the per-project template, which imports the base
      configuration through the `relativeBaseConfigPath` placeholder. */
  const ProjectConfig: string :=
    "\nimport baseFnAsync from '<%=relativeBaseConfigPath%>';\n"
    + "import { resolve } from 'node:path';\n\n"
    + "export default async function () {\n"
    + "  const projectRoot = resolve(import.meta.dirname);\n"
    + "  const baseCustomFields = await baseFnAsync(projectRoot);\n\n"
    + "  return {\n    ...baseCustomFields\n  };\n}\n"

  /** The registry: `.nxdb.config.base.mjs` and `.nxdb.config.mjs`. */
  function TemplateFiles(): Record<string> {
    Put(Put(Empty(), ".nxdb.config.base.mjs", BaseConfig), ".nxdb.config.mjs", ProjectConfig)
  }

  /** Both registered names have a template; every other name is an error. */
  lemma RegisteredTemplates(fileName: string, replacements: Record<string>)
    ensures TemplateEngine(TemplateFiles()).GetFile(fileName, replacements).Success? <==>
      fileName == ".nxdb.config.base.mjs" || fileName == ".nxdb.config.mjs"
  {
    assert BaseConfig != "" && ProjectConfig != "";
  }

  /** The static `TemplateEngine.instance` slot. */
  class TemplateEngineHolder {
    var instance: Option<TemplateEngine>

    constructor()
      ensures instance == None
    {
      instance := None;
    }

    /** `getInstance()`: the first call creates the engine with the two
        registered templates; every call returns the engine in the slot. */
    method GetInstance() returns (engine: TemplateEngine)
      modifies this
      ensures old(instance).Some? ==> engine == old(instance).value
      ensures old(instance).None? ==> engine == TemplateEngine(TemplateFiles())
      ensures instance == Some(engine)
    {
      if instance.None? {
        instance := Some(TemplateEngine(TemplateFiles()));
      }
      engine := instance.value;
    }
  }
}
