# sphinx-datatables in Dafny

A model of the two pieces of real logic in the sphinx-datatables Sphinx
extension, with proofs about them.

- **The options compiler and the activation script.** This is
  `datatables_options_to_js` and `create_datatables_js` in
  `src/sphinx_datatables/js.py`.
  - The compiler takes the user's DataTables options, either a mapping or
    raw script text.
  - A mapping is serialised as `json.dumps(..., indent="    ")` does it;
    script text is dedented as `textwrap.dedent` does it.
  - Either way, every non-blank line gets a prefix, the end is stripped and
    exactly one comma terminates the block.
  - The activation script holds those blocks in a fixed layout of jQuery
    calls, and every `${datatables_version}` placeholder in it is replaced
    by the configured version.
- **The asset declarations of `add_datatables_scripts`.** These are in
  `src/sphinx_datatables/sphinx_datatables.py`.
  - A version below 2.0.0 gets the jQuery-plugin CDN files; any other
    version gets the download-builder bundle.
  - A non-empty `datatables_js` or `datatables_css` setting replaces the
    computed URL.
  - The files are declared in a fixed order: script, stylesheet, then
    `activate_datatables.js`.
  - The defaults `setup` registers are modelled too.

Modules, one per file:

| file | module | what it holds |
|---|---|---|
| `wrappers.dfy` | `Wrappers` | `Option` and `Result` |
| `strings.dfy` | `Strings` | The Python `str` operations the compiler uses: `isspace`, `rstrip`, `split`/`join`, `replace`, `splitlines(keepends=True)`. |
| `textwrap.dfy` | `Textwrap` | `textwrap.indent` and `textwrap.dedent` |
| `json.dfy` | `Json` | The JSON value tree and `json.dumps` with a four-space indent. |
| `jsonreader.dfy` | `JsonReader` | A reader for that text, and the proof that it inverts `Dumps`. |
| `placeholder.dfy` | `Placeholder` | Replacing the placeholder in serialised JSON equals serialising with the placeholder replaced. |
| `options.dfy` | `Options` | `datatables_options_to_js` |
| `config.dfy` | `Configuration` | The configuration record and its defaults. |
| `activate.dfy` | `Activate` | The statement list, the script layout, and `create_datatables_js`. |
| `assets.dfy` | `Assets` | Version parsing and comparison, CDN URLs, overrides, and the declared files. |

Everything is pure: `datatables_options_to_js` and `create_datatables_js`
only rebind locals and call library functions. `add_datatables_scripts`
becomes a function that returns the declarations in order.

## Model

| member | source | states |
|---|---|---|
| `Strings.Rstrip` | src/sphinx_datatables/js.py:29 | `rstrip()` returns a prefix of the text that does not end in whitespace, and only whitespace was cut off. |
| `Strings.RstripUnique` | src/sphinx_datatables/js.py:29 | Those three properties determine the stripped text uniquely. |
| `Strings.Split` | src/sphinx_datatables/js.py:54 | `split` always yields at least one piece, and the first piece is a prefix of the text. |
| `Strings.JoinSplit` | src/sphinx_datatables/js.py:54 | Joining the pieces of a split with the separator gives the text back. |
| `Strings.SplitPiecesLackSeparator` | src/sphinx_datatables/js.py:54 | No piece of a split contains the separator. |
| `Strings.Replace` | src/sphinx_datatables/js.py:54 | `str.replace` on the whole text. Its contract is carried by `Strings.ReplaceIsJoinOfSplit` and the lemmas below it. |
| `Strings.ReplaceIsJoinOfSplit` | src/sphinx_datatables/js.py:54 | `s.replace(p, r)` equals `r.join(s.split(p))`: exactly the non-overlapping occurrences, taken left to right, are rewritten. |
| `Strings.ReplaceAbsent` | src/sphinx_datatables/js.py:54 | Text in which the placeholder does not occur is returned unchanged. |
| `Strings.ReplaceFront` | src/sphinx_datatables/js.py:54 | An occurrence at the start is rewritten, and replacement goes on after it. |
| `Strings.ReplaceSkip` | src/sphinx_datatables/js.py:54 | A prefix lacking the pattern's first character is copied unchanged. |
| `Strings.ReplaceConcat` | src/sphinx_datatables/js.py:54 | Replacement distributes over a concatenation when no occurrence can straddle the join: the first character after the join is not in the pattern's tail. |
| `Strings.ReplaceConcatAfter` | src/sphinx_datatables/js.py:54 | The same, when the last character before the join is not in the pattern without its last character. |
| `Strings.ReplaceShort` | src/sphinx_datatables/js.py:54 | Text shorter than the pattern is unchanged. |
| `Strings.ReplaceEmpty` | src/sphinx_datatables/js.py:54 | With a non-empty version, only empty text becomes empty, so an empty class stays empty and a non-empty one stays non-empty. |
| `Strings.SplitLines` | src/sphinx_datatables/js.py:29 | `splitlines(keepends=True)` cuts the text into well-formed lines whose concatenation is the text. The lines are non-empty, line breaks occur only in terminators, and `\r\n` is one terminator. |
| `Strings.SplitLinesOfConcat` | src/sphinx_datatables/js.py:29 | `splitlines` recovers any well-formed list of lines from its concatenation. |
| `Textwrap.Indent` | src/sphinx_datatables/js.py:29 | `textwrap.indent` with the default predicate. Its contract is carried by `Textwrap.IndentIsConcat`, `Textwrap.IndentLines` and `Textwrap.IndentLast`. |
| `Textwrap.IndentIsConcat` | src/sphinx_datatables/js.py:29 | `textwrap.indent` is the concatenation of the lines, with the prefix added to the non-blank ones. |
| `Textwrap.IndentLines` | src/sphinx_datatables/js.py:29 | The lines of the indented text are the original lines, each non-blank one with exactly the prefix and each blank one unchanged. |
| `Textwrap.IndentLast` | src/sphinx_datatables/js.py:29 | Indenting keeps the last character, and only empty text indents to empty text. |
| `Textwrap.IndentLineThen` | src/sphinx_datatables/js.py:29 | A non-blank first line gets the prefix and the rest is indented on its own. |
| `Textwrap.IndentLastLine` | src/sphinx_datatables/js.py:29 | A single unterminated non-blank line just gets the prefix. |
| `Textwrap.IndentLacks` | src/sphinx_datatables/js.py:29 | Indenting brings in no character that is absent from both the text and the prefix. |
| `Textwrap.Dedent` | src/sphinx_datatables/js.py:27 | `textwrap.dedent`. Its contract is carried by `Textwrap.Margin`, `Textwrap.MarginLongest`, `Textwrap.DedentShape` and `Textwrap.DedentIdempotent`. |
| `Textwrap.LeadingMargin` | src/sphinx_datatables/js.py:27 | The leading blanks and tabs of a line: a prefix of the line, made of margin characters, and followed by none. |
| `Textwrap.Narrow` | src/sphinx_datatables/js.py:27 | One step of `dedent`'s margin loop gives a common prefix of the margin and the indent, at whose end the two differ or one of them ends. |
| `Textwrap.Margin` | src/sphinx_datatables/js.py:27 | There is no margin exactly when every line is blank. Otherwise the margin is blanks and tabs, and a prefix of every non-blank line's indent. |
| `Textwrap.MarginLongest` | src/sphinx_datatables/js.py:27 | The margin is the longest prefix common to the indents of all non-blank lines. |
| `Textwrap.DedentShape` | src/sphinx_datatables/js.py:27 | After `dedent`, blank lines are emptied. Every other line loses the margin, which begins every non-blank line. |
| `Textwrap.DedentedMarginEmpty` | src/sphinx_datatables/js.py:27 | After the margin is removed, the non-blank lines share no margin. |
| `Textwrap.DedentIdempotent` | src/sphinx_datatables/js.py:27 | Dedenting twice is dedenting once. |
| `Textwrap.DedentFlushLine` | src/sphinx_datatables/js.py:27 | One line that starts with neither a blank nor a tab is its own dedent. |
| `Textwrap.DedentUniform` | src/sphinx_datatables/js.py:27 | The case where some non-blank line is indented by exactly `n` blanks and every other non-blank line by at least `n`. Each non-blank line then loses exactly `n` blanks, and each blank line becomes empty. |
| `Textwrap.DedentLacks` | src/sphinx_datatables/js.py:27 | Dedenting brings in no new character. |
| `Textwrap.SplitOfJoin` | src/sphinx_datatables/js.py:27 | Splitting on a character recovers the pieces joined by it, when no piece holds it. |
| `Json.Indentation` | src/sphinx_datatables/js.py:14 | `INDENT * level` is `4 * level` blanks. |
| `Json.EscapeChar` | src/sphinx_datatables/js.py:25 | `json.dumps` writes a character as itself exactly when it is printable ASCII other than `"` and `\`. Otherwise it writes a backslash escape, and the output is always ASCII. |
| `Json.Escape` | src/sphinx_datatables/js.py:25 | String bodies are written in printable ASCII only (`ensure_ascii`). |
| `Json.NatToString` | src/sphinx_datatables/js.py:25 | Decimal digits with no leading zero. |
| `Json.IntToString` | src/sphinx_datatables/js.py:25 | An integer is written as digits, led by a minus sign exactly when it is negative. `JsonReader.IntRoundTrip` reads it back as itself. |
| `Json.Dumps` | src/sphinx_datatables/js.py:25 | `json.dumps(..., indent=INDENT)`. Its contract is carried by `Json.DumpsStart`, `Json.DumpsObjectEnd`, `JsonReader.ParseDumps` and `JsonReader.DumpsInjective`. |
| `Json.DumpsStart` | src/sphinx_datatables/js.py:25 | Serialised JSON is never empty and never starts with whitespace. |
| `Json.DumpsObjectEnd` | src/sphinx_datatables/js.py:25 | A serialised mapping starts with `{` and ends with `}`. |
| `Json.EscapeAppend` | src/sphinx_datatables/js.py:25 | Escaping works one character at a time. |
| `JsonReader.ParseDumps` | src/sphinx_datatables/js.py:25 | Reading the serialised options back gives the value. No key, item, order or scalar is lost. |
| `JsonReader.DumpsInjective` | src/sphinx_datatables/js.py:25 | Different values serialise to different texts, so key order and list order are visible. |
| `JsonReader.ValueRoundTrip` | src/sphinx_datatables/js.py:25 | A value serialised at any depth and followed by anything is read back, with the rest left over. |
| `JsonReader.MembersRoundTrip` | src/sphinx_datatables/js.py:25 | A mapping's members are read back in insertion order. |
| `JsonReader.ItemsRoundTrip` | src/sphinx_datatables/js.py:25 | A list's items are read back in order. |
| `JsonReader.StringRoundTrip` | src/sphinx_datatables/js.py:25 | Escaped string bodies read back as the string, surrogate pairs included. |
| `JsonReader.EscapeCharRoundTrip` | src/sphinx_datatables/js.py:25 | Each character's escape reads back as that character. |
| `JsonReader.IntRoundTrip` | src/sphinx_datatables/js.py:25 | Integers, negatives included, read back as themselves. |
| `Placeholder.VersionPlaceholderSafe` | src/sphinx_datatables/js.py:54 | `${datatables_version}` is written as itself inside a JSON string. It holds no comma or colon, and it starts with a character the serialiser never writes outside a string. |
| `Placeholder.PlaceholderAlphabet` | src/sphinx_datatables/js.py:54 | The placeholder opens with `${`, has no other `$`, and uses only `$ { } _` and lower-case letters. |
| `Placeholder.PlainPrefixOfEscape` | src/sphinx_datatables/js.py:25 | A plain prefix begins an escaped string exactly when it begins the string. |
| `Placeholder.EscapeReplace` | src/sphinx_datatables/js.py:54 | For a replacement made of characters `json.dumps` writes as themselves: replacing the placeholder in an escaped string body equals escaping the replaced string. |
| `Placeholder.ReplaceSyntax` | src/sphinx_datatables/js.py:54 | Text made only of the characters the serialiser writes outside string bodies is unchanged. |
| `Placeholder.DumpsReplace` | src/sphinx_datatables/js.py:54 | For a replacement made of characters `json.dumps` writes as themselves: replacing the placeholder in serialised JSON is serialising the value with the placeholder replaced in every string and key, however deep. |
| `Placeholder.SubstValue` | src/sphinx_datatables/js.py:54 | Substitution inside a value keeps its shape: the same kind of node, and the same number of items and members. |
| `Options.Serialise` | src/sphinx_datatables/js.py:24-27 | A mapping is serialised by `json.dumps`, script text is dedented. Its contract is carried by `Options.MappingToJs`, `Options.FlatDumps` and `Textwrap.DedentShape`. |
| `Options.OptionsToJs` | src/sphinx_datatables/js.py:17-32 | The options text always ends in a comma. The rest of its contract is carried by `Options.OptionsTerminated`, `Options.MappingToJs`, `Options.FlushLineScript`, `Options.ScriptLacks` and `Options.OptionsReplace`. |
| `Options.Terminate` | src/sphinx_datatables/js.py:29-31 | The block ends in a comma. It is the stripped text, plus a comma exactly when the stripped text does not already end in one. |
| `Options.TerminateIdempotent` | src/sphinx_datatables/js.py:30-31 | A block that already ends in a comma gets no second one. |
| `Options.OptionsTerminated` | src/sphinx_datatables/js.py:29-32 | The options text always ends in a comma. The comma was added exactly when the stripped text lacked one, right after a non-whitespace character. |
| `Options.IndentRule` | src/sphinx_datatables/js.py:29 | `textwrap.indent` prefixes a non-blank line and indents what follows it on its own. |
| `Options.FlatDumps` | src/sphinx_datatables/js.py:25 | Scalars and empty containers are written on one line, the same at every depth, starting with a non-blank character. |
| `Options.IndentValue` | src/sphinx_datatables/js.py:29 | Indenting serialised JSON by `k` indent units is serialising it `k` levels deeper, for every value inside any line context. |
| `Options.IndentDumps` | src/sphinx_datatables/js.py:29 | `indent(dumps(v), k * INDENT)` is `k * INDENT` followed by `v` serialised `k` levels deep: four more blanks per level. |
| `Options.MappingToJs` | src/sphinx_datatables/js.py:24-32 | A mapping becomes its JSON text written `k` levels deep, behind the prefix, with one comma. |
| `Options.OptionsPrefix` | src/sphinx_datatables/js.py:14 | The options prefix is two indent units, eight blanks. |
| `Options.EmptyMappingToJs` | test/test_sphinx_datatables.py:62-74 | An empty mapping becomes `        {},`, never empty text. |
| `Options.FlushLineScript` | src/sphinx_datatables/js.py:26-31 | One flush-left line of script that already ends in a comma is returned with only the prefix added. |
| `Options.SearchingFalseScript` | test/test_sphinx_datatables.py:182-205 | The raw option `{searching: false},` is written as itself behind the prefix, with no second comma. |
| `Options.ScriptLacks` | src/sphinx_datatables/js.py:26-31 | Script options hold only the script's own characters, the prefix, new lines and the comma. |
| `Options.MappingReplace` | src/sphinx_datatables/js.py:54 | For a replacement made of characters `json.dumps` writes as themselves: replacing the placeholder in a compiled mapping is compiling the mapping with the placeholder replaced in every key and string. |
| `Options.OptionsReplace` | src/sphinx_datatables/js.py:54 | The same for any options whose script text cannot start an occurrence, again for a replacement made of characters `json.dumps` writes as themselves. |
| `Activate.SelectorCalls` | test/test_sphinx_datatables.py:208-245 | One call per selector override, in the order given, each with that selector's compiled options. |
| `Activate.Leading` | test/test_sphinx_datatables.py:160-205 | Before the selector calls comes the defaults call, first, exactly when it is asked for and there is a class or a non-empty options value to share. Then comes the bare class call exactly when the class is not empty. |
| `Activate.SelectorsOnly` | src/sphinx_datatables/js.py:47-52 | With selectors, no class and an empty options mapping, only the selector calls are written, whatever `emit_defaults` says. |
| `Activate.Plan` | test/test_sphinx_datatables.py:29-245 | The class-only case gets one call with the class's options, and an empty class with no selectors gets none. With selectors: the defaults call exactly when shared (asked for, and a class or non-empty options to share) and first, then the bare class call exactly when the class is non-empty, then the selector calls last, in order, and nowhere else. |
| `Activate.Block` | test/test_sphinx_datatables.py:160-178 | One statement of the ready function. Its layout is carried by `Activate.ExtendDefaultsText`, `Activate.ClassTableText`, `Activate.BareClassTableText` and `Activate.SelectorTableText`. |
| `Activate.Body` | test/test_sphinx_datatables.py:160-178 | The statements, one empty line between each two. Its contract is carried by `Activate.ReplaceBody` and `Activate.BodySingle`. |
| `Activate.Emit` | test/test_sphinx_datatables.py:29-43 | Header, statements and the closing line, in a `<script>` element when asked for. Its contract is carried by `Activate.ReplaceEmit` and `Activate.HeaderText`. |
| `Activate.Render` | src/sphinx_datatables/js.py:47-52 | The rendered template before the placeholder is replaced. Its contract is carried by `Activate.Plan` and `Activate.ReplaceEmit`. |
| `Activate.CreateDatatablesJs` | src/sphinx_datatables/js.py:35-54 | The rendered template with the placeholder replaced. Its contract is carried by `Activate.CreateDatatablesJsCalls`, `Activate.CreateDatatablesJsSubstituted`, `Activate.ClassOnlyScript` and `Activate.DefaultScript`. |
| `Activate.ReplaceBlock` | src/sphinx_datatables/js.py:54 | Replacing in a statement replaces in its class, selector and options, and nowhere else. |
| `Activate.ReplaceBody` | src/sphinx_datatables/js.py:54 | Replacing in the statement list replaces in each statement. |
| `Activate.ReplaceHeader` | src/sphinx_datatables/js.py:54 | The licence comment and the ready line hold no placeholder. |
| `Activate.ReplaceEmit` | src/sphinx_datatables/js.py:54 | Replacing in the whole script, with or without the `<script>` element, replaces in each call and keeps the fixed text. |
| `Activate.CreateDatatablesJsCalls` | src/sphinx_datatables/js.py:47-54 | `create_datatables_js` is the rendered layout of the planned calls with the version substituted inside each call. |
| `Activate.SubstPlan` | src/sphinx_datatables/js.py:54 | For a non-empty version made of characters `json.dumps` writes as themselves, and script options without a `$`: substituting in the planned calls equals planning the substituted configuration, so the plan keeps its shape. |
| `Activate.CreateDatatablesJsSubstituted` | src/sphinx_datatables/js.py:35-54 | For a non-empty version made of characters `json.dumps` writes as themselves, and script options without a `$`: the script equals the render of the configuration with the version substituted in the class, the selectors and every string and key of the options, however deep. |
| `Activate.ClassOnlyScript` | test/test_sphinx_datatables.py:29-43 | With a class and no selectors, the script is the header, one `$('table.<class>').DataTable(` call around the options block, and the footer. |
| `Activate.EmptyOptionsScript` | test/test_sphinx_datatables.py:62-74 | Class `another-datatable` with empty options gives that one call with `        {},` as its argument. |
| `Activate.DefaultScript` | src/sphinx_datatables/sphinx_datatables.py:90-94 | With the defaults `setup` registers, the script activates `table.sphinx-datatable` with `        {},`. |
| `Activate.HeaderText` | test/test_sphinx_datatables.py:161-165 | The header is the licence comment, an empty line and `$(document).ready( function () {`, line by line as the tests print it. |
| `Activate.ExtendDefaultsText` | test/test_sphinx_datatables.py:166-170 | The defaults call is `    $.extend( $.fn.dataTable.defaults,`, the options block and `    );`. |
| `Activate.ClassTableText` | test/test_sphinx_datatables.py:36-41 | The class call is `    $('table.<class>').DataTable(`, the options block and `    );`. |
| `Activate.BareClassTableText` | test/test_sphinx_datatables.py:172 | The bare class call is `` $(`table.<class>`).DataTable(); `` behind one indent. |
| `Activate.SelectorTableText` | test/test_sphinx_datatables.py:174-178 | A selector call is `` $(`<selector>`).DataTable( ``, the options block and `    );`. |
| `Assets.ParseRelease` | src/sphinx_datatables/sphinx_datatables.py:42 | An accepted version has at least one number. |
| `Assets.ParseShowRelease` | src/sphinx_datatables/sphinx_datatables.py:42 | Every release written as dot-separated numbers is read back as itself. |
| `Assets.TrimZeros` | src/sphinx_datatables/sphinx_datatables.py:42-44 | Trailing zeros are dropped: the result is a prefix, does not end in zero, and only zeros were cut. |
| `Assets.ReleaseBefore` | src/sphinx_datatables/sphinx_datatables.py:42-44 | `<` on parsed versions. Its contract is carried by `Assets.ReleaseOrder`, `Assets.ReleaseZeroPadding` and `Assets.BelowV2`. |
| `Assets.ReleaseOrder` | src/sphinx_datatables/sphinx_datatables.py:42-44 | The comparison is a strict order: never both ways, transitive, and total on releases that differ other than in trailing zeros. |
| `Assets.ReleaseZeroPadding` | src/sphinx_datatables/sphinx_datatables.py:42-44 | A trailing zero changes no comparison, on either side. |
| `Assets.BelowV2` | src/sphinx_datatables/sphinx_datatables.py:42-44 | A release is below 2.0.0 exactly when its first number is below 2. |
| `Assets.DatatablesAssets` | src/sphinx_datatables/sphinx_datatables.py:41-61 | An invalid version fails, and a valid one gives three declarations: a script, a stylesheet, then `activate_datatables.js`. Each non-empty override is used as given. |
| `Assets.LegacyLayout` | src/sphinx_datatables/sphinx_datatables.py:42-46 | Without overrides, a version below 2.0.0 gets `https://cdn.datatables.net/<v>/js/jquery.dataTables.min.js` and the matching CSS file. |
| `Assets.BundleLayout` | src/sphinx_datatables/sphinx_datatables.py:47-51 | Without overrides, any other version gets `https://cdn.datatables.net/v/dt/dt-<v>/datatables.min.js` and the matching CSS file. |
| `Assets.OverridesIndependent` | src/sphinx_datatables/sphinx_datatables.py:53-57 | Setting the script override leaves the stylesheet and the activation script as they were, and the other way round. |
| `Assets.OverriddenOffCdn` | test/test_sphinx_datatables.py:300-301 | With both overrides set and neither naming the CDN host, no declared file names the CDN host. |
| `Assets.ActivateOffCdn` | src/sphinx_datatables/sphinx_datatables.py:61 | The activation script is served from the site itself. |
| `Assets.DefaultRelease` | src/sphinx_datatables/sphinx_datatables.py:90 | The default version `2.3.5` is read as the release 2.3.5. |
| `Assets.DefaultAssets` | src/sphinx_datatables/sphinx_datatables.py:90-94 | An unconfigured site gets the 2.3.5 bundle script and stylesheet from the CDN, then the activation script. |

## Where the code and its description differ

The model follows the code and the tests.

- **Placeholder scope.** The version placeholder is replaced in the whole
  rendered script (js.py:54), not only in the default options block, so
  per-selector options and the class are substituted too. The test at
  test/test_sphinx_datatables.py:208-245 puts the placeholder in the
  default options (:212) and shows it substituted there (:229).
- **No selector guard.** Selector calls carry no guard against activating a
  table twice; the expected outputs of the tests show none.

## Left out

- **The template file.** `activate_datatables.js.in` is not part of this
  model. Its layout is taken from the expected outputs of
  test/test_sphinx_datatables.py, which are compared after `strip()`, so
  leading and trailing whitespace is not pinned by them.
- **`emit_script_tag` and `emit_defaults`.** Wrapping the script in
  `<script>` and `</script>` lines is a modelling choice, and so is reading
  `emit_defaults` as "emit the defaults call when there are selector
  overrides". No test shows either flag.
- Activate.Leading: skipping the defaults call when there is neither a
  class nor any option (an empty mapping) follows the extension's documented
  rule for the template, which is not part of this model; no test shows
  that case.
- **An empty class without selectors** produces no call at all. This is a
  modelling choice; no test shows that case.
- **Jinja2 and file I/O.** Template loading (js.py:42-46), the file write in
  `finish` (sphinx_datatables.py:64-79), the `sphinxcontrib.jquery` check
  and its error (:31-39), and `add_config_value`/`connect` registration are
  outside the model. `add_js_file` and `add_css_file` become the returned
  list of declarations.
- **The undefined name at js.py:29.** That line calls
  `textwrap.indent(obj, indent)`, but only `INDENT` is defined (js.py:14).
  The prefix is a parameter of `Options.OptionsToJs`, and the scripts use
  two indent units, eight blanks, as the tests show.
- **Call signature.** The tests call `create_datatables_js` with the class,
  options, version and selector options directly; js.py:35-40 takes a
  `Config` whose class in config.py:12-20 has no selector field. The
  model's `Configuration.Config` carries all of them, with the selector
  overrides as an ordered list, as directives.py:34 sets them.
- **Directives.** The directive classes and the `json.loads` of their content
  (directives.py) are not modelled; the selector list is taken as given.
- **Versions.** `packaging.version.parse` is modelled on the release segment
  only. A version is valid when it is dot-separated decimal numbers.
  - Pre-, post- and dev-release tags, local tags, epochs and a leading `v`
    count as invalid here, although `packaging` accepts them.
  - Releases compare as `packaging` compares them: trailing zeros ignored,
    then lexicographically.
  - The failure is a `Result` error rather than an exception.
- Assets.ParseRelease: rejects a version with surrounding whitespace, such
  as ` 2.3.5` or `2.3.5\n`, which `packaging` strips and accepts (the URLs
  would still hold the raw string).
- **JSON floats.** Floats are not modelled. Mapping keys are strings only, so
  `json.dumps`' conversion of non-string keys is not covered.
- **Lone surrogates.** Python strings may hold them and Dafny strings cannot.
- Placeholder.EscapeReplace, Placeholder.DumpsReplace, Options.MappingReplace
  and Options.OptionsReplace are only stated for a replacement made of
  characters `json.dumps` writes as themselves. js.py:54 puts the version in
  raw, so a version holding `"`, `\`, a control character or a non-ASCII
  character appears unescaped after the replacement, while serialising the
  replaced value would escape it.
- Activate.SubstPlan and Activate.CreateDatatablesJsSubstituted are only
  stated for a non-empty version of characters `json.dumps` writes as
  themselves, and for script options without a `$`. Replacing after
  compiling a script is not compiling the replaced script: the comma rule,
  `dedent` and `rstrip` look at the text before the version is put in.
  With version `1,` and script `${datatables_version}`, replacing afterwards
  gives the prefix and `1,,`, while compiling the replaced script gives the
  prefix and `1,`. A version that starts or ends with whitespace, or holds
  a line break, changes what `dedent`, `indent` and `rstrip` do in the same
  way. An empty version could empty the class and change which calls are
  planned. `Activate.ReplaceEmit`
  and `Activate.CreateDatatablesJsCalls` hold without any condition.
- Textwrap.Dedent: follows the regular-expression `dedent` of Python up to
  3.13, where a blank line holds only blanks and tabs. Python 3.14 empties
  every line that is all whitespace by `str.isspace`, so `"    a\n  \f\n"`
  gives `"a\n\n"` there and `"  a\n\f\n"` here.
- **Unicode.** `str.isspace` and `splitlines` use Python's own character
  lists. There is no Unicode normalisation or case folding, which the source
  does not use either.
