/** The activation script `create_datatables_js` writes: a fixed header, a
    document-ready function holding one call per table selection, and a
    closing line, with every version placeholder in the result replaced by
    the configured version. The layout of the calls is the one the
    repository's tests expect. */
module Activate {
  import opened Strings
  import opened Json
  import opened Options
  import opened Placeholder
  import opened Configuration

  /** One statement of the ready function, with its options already
      normalised */
  datatype Call =
    | ExtendDefaults(options: string)
    | ClassTable(tableClass: string, options: string)
    | BareClassTable(tableClass: string)
    | SelectorTable(selector: string, options: string)

  /** The options text a call receives */
  function Normalised(o: Options): string {
    OptionsToJs(o, OPTIONS_PREFIX)
  }

  /** One call per selector override, in the order they were given */
  function SelectorCalls(sels: seq<Selector>): (calls: seq<Call>)
    ensures |calls| == |sels|
    ensures forall i :: 0 <= i < |sels| ==> calls[i] == SelectorTable(sels[i].selector, Normalised(sels[i].options))
  {
    seq(|sels|, i requires 0 <= i < |sels| => SelectorTable(sels[i].selector, Normalised(sels[i].options)))
  }

  /** Whether the defaults call is written: when it is asked for, unless
      there is neither a class nor any option to share */
  predicate SharesDefaults(cfg: Config, emitDefaults: bool) {
    emitDefaults && (|cfg.tableClass| > 0 || cfg.options != Mapping([]))
  }

  /** The calls before the selector overrides: the defaults, when shared,
      then the class itself with those defaults, unless it is empty */
  function Leading(cfg: Config, emitDefaults: bool): (calls: seq<Call>)
    ensures |calls| == (if SharesDefaults(cfg, emitDefaults) then 1 else 0) + (if |cfg.tableClass| > 0 then 1 else 0)
    ensures forall i :: 0 <= i < |calls| ==>
      (calls[i] == ExtendDefaults(Normalised(cfg.options)) <==> SharesDefaults(cfg, emitDefaults) && i == 0)
    ensures forall i :: 0 <= i < |calls| ==>
      (calls[i] == BareClassTable(cfg.tableClass) <==>
         |cfg.tableClass| > 0 && i == (if SharesDefaults(cfg, emitDefaults) then 1 else 0))
    ensures forall i :: 0 <= i < |calls| ==> calls[i].ExtendDefaults? || calls[i].BareClassTable?
  {
    (if SharesDefaults(cfg, emitDefaults) then [ExtendDefaults(Normalised(cfg.options))] else [])
    + (if |cfg.tableClass| == 0 then [] else [BareClassTable(cfg.tableClass)])
  }

  /** The statements of the ready function. Without selector overrides the
      class gets its options directly; with them the options become the
      defaults (when `emitDefaults` is set and there is a class or some
      option to share), the class is activated with
      those defaults and each selector gets its own options. An empty class
      selects no table. */
  function Plan(cfg: Config, emitDefaults: bool): (calls: seq<Call>)
    // without selector overrides: the one call on the class, if any
    ensures |cfg.selectors| == 0 && |cfg.tableClass| > 0 ==>
      calls == [ClassTable(cfg.tableClass, Normalised(cfg.options))]
    ensures |cfg.selectors| == 0 && |cfg.tableClass| == 0 ==> calls == []
    // with them: the defaults exactly when shared, and first; the class
    // bare exactly when it is not empty, right after the defaults; the
    // selectors last, in the order given, and only there
    ensures |cfg.selectors| > 0 ==>
      |calls| == (if SharesDefaults(cfg, emitDefaults) then 1 else 0) + (if |cfg.tableClass| > 0 then 1 else 0) + |cfg.selectors|
    ensures |cfg.selectors| > 0 ==> forall i :: 0 <= i < |calls| ==>
      (calls[i].ExtendDefaults? <==> SharesDefaults(cfg, emitDefaults) && i == 0)
    ensures |cfg.selectors| > 0 && SharesDefaults(cfg, emitDefaults) ==> calls[0] == ExtendDefaults(Normalised(cfg.options))
    ensures |cfg.selectors| > 0 ==> forall i :: 0 <= i < |calls| ==>
      (calls[i].BareClassTable? <==> |cfg.tableClass| > 0 && i == (if SharesDefaults(cfg, emitDefaults) then 1 else 0))
    ensures |cfg.selectors| > 0 && |cfg.tableClass| > 0 ==>
      calls[if SharesDefaults(cfg, emitDefaults) then 1 else 0] == BareClassTable(cfg.tableClass)
    ensures |cfg.selectors| <= |calls|
    ensures forall i :: 0 <= i < |cfg.selectors| ==>
      calls[|calls| - |cfg.selectors| + i] == SelectorTable(cfg.selectors[i].selector, Normalised(cfg.selectors[i].options))
    ensures forall i :: 0 <= i < |calls| - |cfg.selectors| ==> !calls[i].SelectorTable?
  {
    if |cfg.selectors| == 0 then
      if |cfg.tableClass| == 0 then [] else [ClassTable(cfg.tableClass, Normalised(cfg.options))]
    else
      Leading(cfg, emitDefaults) + SelectorCalls(cfg.selectors)
  }

  /** With neither a class nor options, only the selector calls remain,
      whatever `emitDefaults` says. */
  lemma SelectorsOnly(cfg: Config, emitDefaults: bool)
    requires |cfg.selectors| > 0 && |cfg.tableClass| == 0 && cfg.options == Mapping([])
    ensures Plan(cfg, emitDefaults) == SelectorCalls(cfg.selectors)
  {
    assert Leading(cfg, emitDefaults) == [];
  }

  // ---------------------------------------------------------------------
  // layout
  // ---------------------------------------------------------------------

  /** jQuery's name, kept apart so that the statements can be seen not to
      open a placeholder */
  const JQUERY: string := "$"

  const COPYRIGHT_LINE: string := "// Copyright (c) 2023 Varun Sharma\n"
  const LICENCE_LINE: string := "// SPDX-License-Identifier: MIT\n"

  /** The licence comment the template opens with */
  const COPYRIGHT: string := COPYRIGHT_LINE + "//\n" + LICENCE_LINE + "\n"

  /** The opening of the document-ready function, after jQuery's name */
  const READY: string := "(document).ready( function () {\n"

  const HEADER: string := COPYRIGHT + JQUERY + READY

  const FOOTER: string := "} );"

  /** The end of a call that takes options */
  const CLOSE_CALL: string := "\n" + INDENT + ");\n"

  const SCRIPT_OPEN: string := "<script>\n"
  const SCRIPT_CLOSE: string := "\n</script>"

  /** The text of one statement: indented once, ending with a line break */
  function Block(c: Call): string {
    match c
    case ExtendDefaults(o) => INDENT + JQUERY + ".extend( " + JQUERY + ".fn.dataTable.defaults,\n" + o + CLOSE_CALL
    case ClassTable(k, o) => INDENT + JQUERY + "('table." + k + "').DataTable(\n" + o + CLOSE_CALL
    case BareClassTable(k) => INDENT + JQUERY + "(`table." + k + "`).DataTable();\n"
    case SelectorTable(s, o) => INDENT + JQUERY + "(`" + s + "`).DataTable(\n" + o + CLOSE_CALL
  }

  function Blocks(calls: seq<Call>): (bs: seq<string>)
    ensures |bs| == |calls|
    ensures forall i :: 0 <= i < |calls| ==> bs[i] == Block(calls[i])
  {
    seq(|calls|, i requires 0 <= i < |calls| => Block(calls[i]))
  }

  /** The statements, separated by empty lines */
  function Body(calls: seq<Call>): string {
    if |calls| == 0 then [] else Join("\n", Blocks(calls))
  }

  /** The whole script, inside a `<script>` element when `scriptTag` is
      set */
  function Emit(calls: seq<Call>, scriptTag: bool): string {
    var s := HEADER + Body(calls) + FOOTER;
    if scriptTag then SCRIPT_OPEN + s + SCRIPT_CLOSE else s
  }

  /** The rendered template */
  function Render(cfg: Config, emitDefaults: bool, emitScriptTag: bool): string {
    Emit(Plan(cfg, emitDefaults), emitScriptTag)
  }

  /** `create_datatables_js`: the rendered template with every version
      placeholder replaced by the configured version */
  function CreateDatatablesJs(cfg: Config, emitDefaults: bool, emitScriptTag: bool): string {
    Replace(Render(cfg, emitDefaults, emitScriptTag), VERSION_PLACEHOLDER, cfg.version)
  }

  // ---------------------------------------------------------------------
  // where the placeholder can be found
  // ---------------------------------------------------------------------

  /** The call with the placeholder replaced in each of its texts */
  function SubstCall(c: Call, r: string): Call {
    match c
    case ExtendDefaults(o) => ExtendDefaults(Replace(o, VERSION_PLACEHOLDER, r))
    case ClassTable(k, o) => ClassTable(Replace(k, VERSION_PLACEHOLDER, r), Replace(o, VERSION_PLACEHOLDER, r))
    case BareClassTable(k) => BareClassTable(Replace(k, VERSION_PLACEHOLDER, r))
    case SelectorTable(s, o) => SelectorTable(Replace(s, VERSION_PLACEHOLDER, r), Replace(o, VERSION_PLACEHOLDER, r))
  }

  function SubstCalls(calls: seq<Call>, r: string): (cs: seq<Call>)
    ensures |cs| == |calls|
    ensures forall i :: 0 <= i < |calls| ==> cs[i] == SubstCall(calls[i], r)
  {
    seq(|calls|, i requires 0 <= i < |calls| => SubstCall(calls[i], r))
  }

  /** A fixed text that starts with a character foreign to the placeholder
      and has no `$` is kept, and no occurrence straddles its start. */
  lemma ThenText(x: string, k: string, r: string)
    requires |k| > 0 && !IsPlaceholderChar(k[0]) && Lacks(k, '$')
    ensures Replace(x + k, VERSION_PLACEHOLDER, r) == Replace(x, VERSION_PLACEHOLDER, r) + k
  {
    PlaceholderAlphabet();
    ReplaceConcat(x, k, VERSION_PLACEHOLDER, r);
    ReplaceSkip(k, [], VERSION_PLACEHOLDER, r);
    assert k + [] == k;
  }

  /** jQuery's `$` cannot complete an occurrence, since the placeholder
      has no `$` after its start. */
  lemma ThenJQuery(x: string, r: string)
    ensures Replace(x + JQUERY, VERSION_PLACEHOLDER, r) == Replace(x, VERSION_PLACEHOLDER, r) + JQUERY
  {
    PlaceholderAlphabet();
    ReplaceConcat(x, JQUERY, VERSION_PLACEHOLDER, r);
    ReplaceShort(JQUERY, VERSION_PLACEHOLDER, r);
  }

  /** After a character foreign to the placeholder, the rest is replaced on
      its own. */
  lemma ThenValue(x: string, y: string, r: string)
    requires |x| > 0 && !IsPlaceholderChar(x[|x| - 1])
    ensures Replace(x + y, VERSION_PLACEHOLDER, r)
         == Replace(x, VERSION_PLACEHOLDER, r) + Replace(y, VERSION_PLACEHOLDER, r)
  {
    PlaceholderAlphabet();
    ReplaceConcatAfter(x, y, VERSION_PLACEHOLDER, r);
  }

  /** The statements hold no `$` other than jQuery's. */
  lemma FixedTexts()
    ensures Lacks(INDENT, '$') && Lacks(".extend( ", '$') && Lacks(".fn.dataTable.defaults,\n", '$')
    ensures Lacks("('table.", '$') && Lacks("').DataTable(\n", '$') && Lacks(CLOSE_CALL, '$')
    ensures Lacks("(`table.", '$') && Lacks("`).DataTable();\n", '$')
    ensures Lacks("(`", '$') && Lacks("`).DataTable(\n", '$')
  {
  }

  /** Replacing in a statement replaces in each of its texts. */
  lemma ReplaceBlock(c: Call, r: string)
    ensures Replace(Block(c), VERSION_PLACEHOLDER, r) == Block(SubstCall(c, r))
  {
    FixedTexts();
    ReplaceShort(INDENT, VERSION_PLACEHOLDER, r);
    ThenJQuery(INDENT, r);
    match c
    case ExtendDefaults(o) =>
      var a := INDENT + JQUERY + ".extend( ";
      ThenText(INDENT + JQUERY, ".extend( ", r);
      ThenJQuery(a, r);
      ThenText(a + JQUERY, ".fn.dataTable.defaults,\n", r);
      var b := a + JQUERY + ".fn.dataTable.defaults,\n";
      ThenValue(b, o, r);
      ThenText(b + o, CLOSE_CALL, r);
    case ClassTable(k, o) =>
      var a := INDENT + JQUERY + "('table.";
      ThenText(INDENT + JQUERY, "('table.", r);
      ThenValue(a, k, r);
      ThenText(a + k, "').DataTable(\n", r);
      var b := a + k + "').DataTable(\n";
      ThenValue(b, o, r);
      ThenText(b + o, CLOSE_CALL, r);
    case BareClassTable(k) =>
      var a := INDENT + JQUERY + "(`table.";
      ThenText(INDENT + JQUERY, "(`table.", r);
      ThenValue(a, k, r);
      ThenText(a + k, "`).DataTable();\n", r);
    case SelectorTable(s, o) =>
      var a := INDENT + JQUERY + "(`";
      ThenText(INDENT + JQUERY, "(`", r);
      ThenValue(a, s, r);
      ThenText(a + s, "`).DataTable(\n", r);
      var b := a + s + "`).DataTable(\n";
      ThenValue(b, o, r);
      ThenText(b + o, CLOSE_CALL, r);
  }

  /** Every statement ends with a line break. */
  lemma BlockEnds(c: Call)
    ensures |Block(c)| > 0 && Block(c)[|Block(c)| - 1] == '\n'
  {
  }

  /** A join ends as its last part does. */
  lemma {:induction false} JoinEnds(sep: string, parts: seq<string>)
    requires |parts| > 0 && |parts[|parts| - 1]| > 0
    ensures |Join(sep, parts)| > 0
    ensures Join(sep, parts)[|Join(sep, parts)| - 1] == parts[|parts| - 1][|parts[|parts| - 1]| - 1]
    decreases |parts|
  {
    if |parts| > 1 {
      JoinEnds(sep, parts[1..]);
    }
  }

  /** The statements, when there are any, end with a line break. */
  lemma BodyEnds(calls: seq<Call>)
    requires |calls| > 0
    ensures |Body(calls)| > 0 && Body(calls)[|Body(calls)| - 1] == '\n'
  {
    BlockEnds(calls[|calls| - 1]);
    JoinEnds("\n", Blocks(calls));
  }

  /** The statements are the first one, an empty line and the others. */
  lemma BodyCons(calls: seq<Call>)
    requires |calls| > 1
    ensures Body(calls) == Block(calls[0]) + "\n" + Body(calls[1..])
  {
    assert Blocks(calls)[1..] == Blocks(calls[1..]);
  }

  /** Replacing in the statements replaces in each call. */
  lemma {:induction false} ReplaceBody(calls: seq<Call>, r: string)
    ensures Replace(Body(calls), VERSION_PLACEHOLDER, r) == Body(SubstCalls(calls, r))
    decreases |calls|
  {
    if |calls| == 1 {
      ReplaceBlock(calls[0], r);
    } else if |calls| > 1 {
      BodyCons(calls);
      BodyCons(SubstCalls(calls, r));
      assert SubstCalls(calls, r)[1..] == SubstCalls(calls[1..], r);
      ReplaceBlock(calls[0], r);
      BlockEnds(calls[0]);
      ThenText(Block(calls[0]), "\n", r);
      ThenValue(Block(calls[0]) + "\n", Body(calls[1..]), r);
      ReplaceBody(calls[1..], r);
    }
  }

  /** Text without `$` holds no placeholder. */
  lemma Kept(k: string, r: string)
    requires Lacks(k, '$')
    ensures Replace(k, VERSION_PLACEHOLDER, r) == k
  {
    ReplaceSkip(k, [], VERSION_PLACEHOLDER, r);
    assert k + [] == k;
  }

  lemma CopyrightLineKept(r: string)
    ensures Replace(COPYRIGHT_LINE, VERSION_PLACEHOLDER, r) == COPYRIGHT_LINE
  {
    assert Lacks(COPYRIGHT_LINE, '$');
    Kept(COPYRIGHT_LINE, r);
  }

  lemma LicenceLineKept()
    ensures |LICENCE_LINE| > 0 && LICENCE_LINE[0] == '/' && Lacks(LICENCE_LINE, '$')
  {
  }

  lemma CopyrightKept(r: string)
    ensures Replace(COPYRIGHT, VERSION_PLACEHOLDER, r) == COPYRIGHT
  {
    CopyrightLineKept(r);
    ThenText(COPYRIGHT_LINE, "//\n", r);
    LicenceLineKept();
    ThenText(COPYRIGHT_LINE + "//\n", LICENCE_LINE, r);
    ThenText(COPYRIGHT_LINE + "//\n" + LICENCE_LINE, "\n", r);
  }

  /** The fixed texts around the statements hold no placeholder. */
  lemma ReplaceHeader(r: string)
    ensures Replace(HEADER, VERSION_PLACEHOLDER, r) == HEADER
    ensures |HEADER| > 0 && HEADER[|HEADER| - 1] == '\n'
  {
    CopyrightKept(r);
    ThenJQuery(COPYRIGHT, r);
    assert Lacks(READY, '$');
    ThenText(COPYRIGHT + JQUERY, READY, r);
  }

  /** A text ending in a line break, kept by the replacement, followed by
      text that is empty or ends in a line break, and the footer. */
  lemma Framed(h: string, b: string, b': string, r: string)
    requires |h| > 0 && h[|h| - 1] == '\n' && Replace(h, VERSION_PLACEHOLDER, r) == h
    requires |b| == 0 || b[|b| - 1] == '\n'
    requires Replace(b, VERSION_PLACEHOLDER, r) == b'
    ensures Replace(h + b + FOOTER, VERSION_PLACEHOLDER, r) == h + b' + FOOTER
  {
    ThenValue(h, b, r);
    assert (h + b)[|h + b| - 1] == '\n';
    ThenValue(h + b, FOOTER, r);
    ReplaceShort(FOOTER, VERSION_PLACEHOLDER, r);
  }

  /** Between the header and the footer, only the statements change. */
  lemma ReplaceFramed(calls: seq<Call>, r: string)
    ensures Replace(HEADER + Body(calls) + FOOTER, VERSION_PLACEHOLDER, r)
         == HEADER + Body(SubstCalls(calls, r)) + FOOTER
  {
    ReplaceHeader(r);
    ReplaceBody(calls, r);
    if |calls| > 0 {
      BodyEnds(calls);
    }
    Framed(HEADER, Body(calls), Body(SubstCalls(calls, r)), r);
  }

  /** The script element's tags hold no placeholder. */
  lemma ReplaceTagged(s: string, r: string)
    ensures Replace(SCRIPT_OPEN + s + SCRIPT_CLOSE, VERSION_PLACEHOLDER, r)
         == SCRIPT_OPEN + Replace(s, VERSION_PLACEHOLDER, r) + SCRIPT_CLOSE
  {
    ReplaceShort(SCRIPT_OPEN, VERSION_PLACEHOLDER, r);
    assert SCRIPT_OPEN[|SCRIPT_OPEN| - 1] == '\n';
    assert SCRIPT_CLOSE[0] == '\n' && Lacks(SCRIPT_CLOSE, '$');
    Enclosed(SCRIPT_OPEN, s, SCRIPT_CLOSE, r);
  }

  /** Text between an opening that holds no placeholder and a closing that
      cannot continue one is replaced on its own. */
  lemma Enclosed(o: string, s: string, c: string, r: string)
    requires |o| > 0 && !IsPlaceholderChar(o[|o| - 1]) && Replace(o, VERSION_PLACEHOLDER, r) == o
    requires |c| > 0 && !IsPlaceholderChar(c[0]) && Lacks(c, '$')
    ensures Replace(o + s + c, VERSION_PLACEHOLDER, r) == o + Replace(s, VERSION_PLACEHOLDER, r) + c
  {
    ThenValue(o, s, r);
    ThenText(o + s, c, r);
  }

  /** Replacing in the whole script replaces in each call and leaves the
      fixed texts as they are. */
  lemma ReplaceEmit(calls: seq<Call>, scriptTag: bool, r: string)
    ensures Replace(Emit(calls, scriptTag), VERSION_PLACEHOLDER, r) == Emit(SubstCalls(calls, r), scriptTag)
  {
    ReplaceFramed(calls, r);
    if scriptTag {
      ReplaceTagged(HEADER + Body(calls) + FOOTER, r);
    }
  }

  /** `create_datatables_js` substitutes the version inside every call of
      the script and nowhere else. */
  lemma CreateDatatablesJsCalls(cfg: Config, emitDefaults: bool, emitScriptTag: bool)
    ensures CreateDatatablesJs(cfg, emitDefaults, emitScriptTag)
         == Emit(SubstCalls(Plan(cfg, emitDefaults), cfg.version), emitScriptTag)
  {
    ReplaceEmit(Plan(cfg, emitDefaults), emitScriptTag, cfg.version);
  }

  // ---------------------------------------------------------------------
  // the version inside the configuration
  // ---------------------------------------------------------------------

  function SubstSelectors(sels: seq<Selector>, r: string): (ws: seq<Selector>)
    ensures |ws| == |sels|
    ensures forall i :: 0 <= i < |sels| ==> ws[i] == Selector(
      Replace(sels[i].selector, VERSION_PLACEHOLDER, r), SubstOptions(sels[i].options, VERSION_PLACEHOLDER, r))
  {
    seq(|sels|, i requires 0 <= i < |sels| =>
      Selector(Replace(sels[i].selector, VERSION_PLACEHOLDER, r), SubstOptions(sels[i].options, VERSION_PLACEHOLDER, r)))
  }

  /** The configuration with the placeholder replaced by its version in the
      class, the selectors and every string, key and nested value of the
      options */
  function SubstConfig(cfg: Config): Config {
    var v := cfg.version;
    cfg.(tableClass := Replace(cfg.tableClass, VERSION_PLACEHOLDER, v),
         options := SubstOptions(cfg.options, VERSION_PLACEHOLDER, v),
         selectors := SubstSelectors(cfg.selectors, v))
  }

  /** Options whose script text, if they are script text, has no `$` */
  predicate DollarFree(o: Options) {
    o.Script? ==> Lacks(o.text, '$')
  }

  /** Substituting in the options text is substituting in the options. */
  lemma ReplaceNormalised(o: Options, r: string)
    requires AllPlain(r) && DollarFree(o)
    ensures Replace(Normalised(o), VERSION_PLACEHOLDER, r) == Normalised(SubstOptions(o, VERSION_PLACEHOLDER, r))
  {
    VersionPlaceholderSafe();
    OptionsReplace(o, VERSION_PLACEHOLDER, r);
  }

  lemma SubstCallsAppend(a: seq<Call>, b: seq<Call>, r: string)
    ensures SubstCalls(a + b, r) == SubstCalls(a, r) + SubstCalls(b, r)
  {
  }

  lemma SubstLeading(cfg: Config, emitDefaults: bool)
    requires AllPlain(cfg.version) && |cfg.version| > 0 && DollarFree(cfg.options)
    ensures SubstCalls(Leading(cfg, emitDefaults), cfg.version) == Leading(SubstConfig(cfg), emitDefaults)
  {
    var v, sc := cfg.version, SubstConfig(cfg);
    var d := if SharesDefaults(cfg, emitDefaults) then [ExtendDefaults(Normalised(cfg.options))] else [];
    var b := if |cfg.tableClass| == 0 then [] else [BareClassTable(cfg.tableClass)];
    SubstCallsAppend(d, b, v);
    assert SubstCalls(d, v) == (if SharesDefaults(sc, emitDefaults) then [ExtendDefaults(Normalised(sc.options))] else []) by {
      ReplaceEmpty(cfg.tableClass, VERSION_PLACEHOLDER, v);
      SubstKeepsEmpty(cfg.options, v);
      ReplaceNormalised(cfg.options, v);
    }
    assert SubstCalls(b, v) == (if |sc.tableClass| == 0 then [] else [BareClassTable(sc.tableClass)]) by {
      ReplaceEmpty(cfg.tableClass, VERSION_PLACEHOLDER, v);
    }
  }

  /** Substitution leaves the empty mapping, and only it, empty. */
  lemma SubstKeepsEmpty(o: Options, r: string)
    ensures SubstOptions(o, VERSION_PLACEHOLDER, r) == Mapping([]) <==> o == Mapping([])
  {
    VersionPlaceholderSafe();
  }

  lemma SubstSelectorCalls(sels: seq<Selector>, r: string)
    requires AllPlain(r)
    requires forall i :: 0 <= i < |sels| ==> DollarFree(sels[i].options)
    ensures SubstCalls(SelectorCalls(sels), r) == SelectorCalls(SubstSelectors(sels, r))
  {
    forall i | 0 <= i < |sels|
      ensures SubstCall(SelectorCalls(sels)[i], r) == SelectorCalls(SubstSelectors(sels, r))[i]
    {
      ReplaceNormalised(sels[i].options, r);
    }
  }

  /** The calls of the substituted configuration are the substituted
      calls: the plan keeps its shape because a non-empty version keeps
      every non-empty text non-empty. */
  lemma SubstPlan(cfg: Config, emitDefaults: bool)
    requires AllPlain(cfg.version) && |cfg.version| > 0
    requires DollarFree(cfg.options)
    requires forall i :: 0 <= i < |cfg.selectors| ==> DollarFree(cfg.selectors[i].options)
    ensures SubstCalls(Plan(cfg, emitDefaults), cfg.version) == Plan(SubstConfig(cfg), emitDefaults)
  {
    var v := cfg.version;
    if |cfg.selectors| == 0 {
      ReplaceEmpty(cfg.tableClass, VERSION_PLACEHOLDER, v);
      ReplaceNormalised(cfg.options, v);
    } else {
      SubstCallsAppend(Leading(cfg, emitDefaults), SelectorCalls(cfg.selectors), v);
      SubstLeading(cfg, emitDefaults);
      SubstSelectorCalls(cfg.selectors, v);
    }
  }

  /** `create_datatables_js` writes the configuration with its version put
      in place of the placeholder wherever it appears, nested options
      included, when the version is plain text and script options have no
      `$` of their own. */
  lemma CreateDatatablesJsSubstituted(cfg: Config, emitDefaults: bool, emitScriptTag: bool)
    requires AllPlain(cfg.version) && |cfg.version| > 0
    requires DollarFree(cfg.options)
    requires forall i :: 0 <= i < |cfg.selectors| ==> DollarFree(cfg.selectors[i].options)
    ensures CreateDatatablesJs(cfg, emitDefaults, emitScriptTag) == Render(SubstConfig(cfg), emitDefaults, emitScriptTag)
  {
    CreateDatatablesJsCalls(cfg, emitDefaults, emitScriptTag);
    SubstPlan(cfg, emitDefaults);
  }

  // ---------------------------------------------------------------------
  // an example
  // ---------------------------------------------------------------------

  /** Without selector overrides, the script is the header, the one call
      on the class with its normalised options, and the footer. */
  lemma ClassOnlyScript(cfg: Config, emitDefaults: bool, o: string)
    requires |cfg.selectors| == 0 && |cfg.tableClass| > 0
    requires Normalised(cfg.options) == o
    requires Replace(cfg.tableClass, VERSION_PLACEHOLDER, cfg.version) == cfg.tableClass
    requires Replace(o, VERSION_PLACEHOLDER, cfg.version) == o
    ensures CreateDatatablesJs(cfg, emitDefaults, false) == HEADER + Block(ClassTable(cfg.tableClass, o)) + FOOTER
  {
    var calls := Plan(cfg, emitDefaults);
    assert calls == [ClassTable(cfg.tableClass, o)];
    CreateDatatablesJsCalls(cfg, emitDefaults, false);
    assert SubstCalls(calls, cfg.version) == calls;
    BodySingle(calls);
  }

  /** A single statement is the whole body. */
  lemma BodySingle(calls: seq<Call>)
    requires |calls| == 1
    ensures Body(calls) == Block(calls[0])
  {
  }

  /** A class with empty options gets the empty object literal, as the
      repository's test with `another-datatable` shows. */
  lemma EmptyOptionsScript()
    ensures CreateDatatablesJs(Config("3.0.0", "another-datatable", Mapping([]), "", "", []), true, false)
         == HEADER + Block(ClassTable("another-datatable", "        {},")) + FOOTER
  {
    var cfg := Config("3.0.0", "another-datatable", Mapping([]), "", "", []);
    EmptyMappingToJs();
    ReplaceShort(cfg.tableClass, VERSION_PLACEHOLDER, cfg.version);
    ReplaceShort("        {},", VERSION_PLACEHOLDER, cfg.version);
    ClassOnlyScript(cfg, true, "        {},");
  }

  /** An unconfigured site activates every `sphinx-datatable` table, with
      empty options. */
  lemma DefaultScript()
    ensures CreateDatatablesJs(DEFAULT_CONFIG, true, false)
         == HEADER + Block(ClassTable("sphinx-datatable", "        {},")) + FOOTER
  {
    var cfg := DEFAULT_CONFIG;
    EmptyMappingToJs();
    ReplaceShort(cfg.tableClass, VERSION_PLACEHOLDER, cfg.version);
    ReplaceShort("        {},", VERSION_PLACEHOLDER, cfg.version);
    ClassOnlyScript(cfg, true, "        {},");
  }

  // ---------------------------------------------------------------------
  // the layout, line by line as the repository's tests print it
  // ---------------------------------------------------------------------

  /** The licence header and the opening of the ready function, one test
      line at a time */
  lemma HeaderText()
    ensures HEADER == "// Copyright (c) 2023 Varun Sharma\n" + "//\n" + "// SPDX-License-Identifier: MIT\n" + "\n"
                    + "$(document).ready( function () {\n"
  {
  }

  /** The call that merges the options into DataTables' defaults */
  lemma ExtendDefaultsText(o: string)
    ensures Block(ExtendDefaults(o)) == "    $.extend( $.fn.dataTable.defaults,\n" + o + "\n    );\n"
  {
    assert INDENT + JQUERY + ".extend( " + JQUERY == "    $.extend( $";
    assert "    $.extend( $" + ".fn.dataTable.defaults,\n" == "    $.extend( $.fn.dataTable.defaults,\n";
    assert CLOSE_CALL == "\n    );\n";
  }

  /** The call on the configured class, with its options */
  lemma ClassTableText(k: string, o: string)
    ensures Block(ClassTable(k, o)) == "    $('table." + k + "').DataTable(\n" + o + "\n    );\n"
  {
    assert CLOSE_CALL == "\n    );\n";
  }

  /** The call on the configured class that relies on the defaults */
  lemma BareClassTableText(k: string)
    ensures Block(BareClassTable(k)) == "    $(`table." + k + "`).DataTable();\n"
  {
  }

  /** The call on one overriding selector, with its options */
  lemma SelectorTableText(sel: string, o: string)
    ensures Block(SelectorTable(sel, o)) == "    $(`" + sel + "`).DataTable(\n" + o + "\n    );\n"
  {
    assert CLOSE_CALL == "\n    );\n";
  }
}
