/** The files `add_datatables_scripts` declares for each page: the
    DataTables script and stylesheet, from the CDN layout that matches the
    configured version unless the user gave a URL of their own, followed by
    the activation script. The declarations are returned as a list in the
    order they are made. */
module Assets {
  import opened Wrappers
  import opened Strings
  import opened Textwrap
  import opened Configuration
  import Json
  import JsonReader

  // ---------------------------------------------------------------------
  // release numbers
  // ---------------------------------------------------------------------

  /** A release component: one or more decimal digits */
  predicate IsNumber(s: string) {
    |s| > 0 && Json.AllDigits(s)
  }

  /** The release segment of a version string, as `packaging.version`
      reads it: dot-separated numbers. Anything else is an invalid version
      here. */
  function ParseRelease(s: string): (r: Result<seq<nat>, string>)
    ensures r.Success? ==> |r.value| > 0
  {
    var pieces := Split(s, ".");
    if forall i :: 0 <= i < |pieces| ==> IsNumber(pieces[i]) then
      Success(seq(|pieces|, i requires 0 <= i < |pieces| => JsonReader.DigitsValue(pieces[i])))
    else
      Failure("InvalidVersion")
  }

  function ShowRelease(ns: seq<nat>): string
    requires |ns| > 0
  {
    Join(".", seq(|ns|, i requires 0 <= i < |ns| => Json.NatToString(ns[i])))
  }

  /** Reading a written release gives it back. */
  lemma ParseShowRelease(ns: seq<nat>)
    requires |ns| > 0
    ensures ParseRelease(ShowRelease(ns)) == Success(ns)
  {
    var parts := seq(|ns|, i requires 0 <= i < |ns| => Json.NatToString(ns[i]));
    forall k | 0 <= k < |parts|
      ensures Lacks(parts[k], '.')
    {
      assert IsNumber(parts[k]);
    }
    SplitOfJoin(parts, '.');
    assert Split(ShowRelease(ns), ".") == parts;
    forall k | 0 <= k < |parts|
      ensures JsonReader.DigitsValue(parts[k]) == ns[k]
    {
      JsonReader.DigitsValueOfNat(ns[k]);
    }
    assert seq(|parts|, i requires 0 <= i < |parts| => JsonReader.DigitsValue(parts[i])) == ns;
  }

  // ---------------------------------------------------------------------
  // comparing releases
  // ---------------------------------------------------------------------

  /** The release without its trailing zeros, which do not take part in a
      comparison (`2.0.0` is `2`) */
  function TrimZeros(ns: seq<nat>): (t: seq<nat>)
    ensures t <= ns
    ensures |t| == 0 || t[|t| - 1] != 0
    ensures forall i :: |t| <= i < |ns| ==> ns[i] == 0
  {
    if |ns| == 0 then []
    else if ns[|ns| - 1] == 0 then TrimZeros(ns[..|ns| - 1])
    else ns
  }

  /** Lexicographic order, a proper prefix coming first */
  predicate LexLess(a: seq<nat>, b: seq<nat>) {
    |b| > 0 && (|a| == 0 || a[0] < b[0] || (a[0] == b[0] && LexLess(a[1..], b[1..])))
  }

  /** `packaging.version.parse(a) < packaging.version.parse(b)` on release
      segments */
  predicate ReleaseBefore(a: seq<nat>, b: seq<nat>) {
    LexLess(TrimZeros(a), TrimZeros(b))
  }

  lemma {:induction false} LexLessIrreflexive(a: seq<nat>)
    ensures !LexLess(a, a)
  {
    if |a| > 0 {
      LexLessIrreflexive(a[1..]);
    }
  }

  lemma {:induction false} LexLessTransitive(a: seq<nat>, b: seq<nat>, c: seq<nat>)
    requires LexLess(a, b) && LexLess(b, c)
    ensures LexLess(a, c)
  {
    if |a| > 0 && a[0] == b[0] && b[0] == c[0] {
      LexLessTransitive(a[1..], b[1..], c[1..]);
    }
  }

  lemma {:induction false} LexLessTotal(a: seq<nat>, b: seq<nat>)
    requires a != b
    ensures LexLess(a, b) || LexLess(b, a)
  {
    if |a| > 0 && |b| > 0 && a[0] == b[0] {
      assert a == [a[0]] + a[1..] && b == [b[0]] + b[1..];
      LexLessTotal(a[1..], b[1..]);
    }
  }

  /** Comparison is a strict total order on releases once trailing zeros
      are set aside: never both ways, transitive, and one way or the other
      for releases that differ in more than trailing zeros. */
  lemma ReleaseOrder(a: seq<nat>, b: seq<nat>, c: seq<nat>)
    ensures !(ReleaseBefore(a, b) && ReleaseBefore(b, a))
    ensures ReleaseBefore(a, b) && ReleaseBefore(b, c) ==> ReleaseBefore(a, c)
    ensures TrimZeros(a) != TrimZeros(b) ==> ReleaseBefore(a, b) || ReleaseBefore(b, a)
  {
    if ReleaseBefore(a, b) && ReleaseBefore(b, a) {
      LexLessTransitive(TrimZeros(a), TrimZeros(b), TrimZeros(a));
      LexLessIrreflexive(TrimZeros(a));
    }
    if ReleaseBefore(a, b) && ReleaseBefore(b, c) {
      LexLessTransitive(TrimZeros(a), TrimZeros(b), TrimZeros(c));
    }
    if TrimZeros(a) != TrimZeros(b) {
      LexLessTotal(TrimZeros(a), TrimZeros(b));
    }
  }

  /** A trailing zero never changes a comparison (`2.0` is `2`). */
  lemma ReleaseZeroPadding(a: seq<nat>, b: seq<nat>)
    ensures ReleaseBefore(a + [0], b) <==> ReleaseBefore(a, b)
    ensures ReleaseBefore(b, a + [0]) <==> ReleaseBefore(b, a)
  {
    assert (a + [0])[..|a|] == a;
  }

  const V2: seq<nat> := [2, 0, 0]

  /** A release is below 2.0.0 exactly when its first number is below 2. */
  lemma BelowV2(ns: seq<nat>)
    requires |ns| > 0
    ensures ReleaseBefore(ns, V2) <==> ns[0] < 2
  {
    assert TrimZeros(V2) == [2] by {
      assert V2[..2] == [2, 0] && [2, 0][..1] == [2];
    }
    var t := TrimZeros(ns);
    if |t| > 0 {
      assert t[0] == ns[0];
      assert [2][1..] == [];
      assert !LexLess(t[1..], []);
    } else {
      assert ns[0] == 0;
    }
  }

  // ---------------------------------------------------------------------
  // the CDN layouts
  // ---------------------------------------------------------------------

  const CDN_HOST: string := "cdn.datatables.net"
  const CDN: string := "https://" + CDN_HOST + "/"

  /** Releases before 2.0.0 publish jQuery plugin builds. */
  function LegacyJs(v: string): string {
    CDN + v + "/js/jquery.dataTables.min.js"
  }

  function LegacyCss(v: string): string {
    CDN + v + "/css/jquery.dataTables.min.css"
  }

  /** From 2.0.0 on only the minified download builder bundle exists. */
  function BundleJs(v: string): string {
    CDN + "v/dt/dt-" + v + "/datatables.min.js"
  }

  function BundleCss(v: string): string {
    CDN + "v/dt/dt-" + v + "/datatables.min.css"
  }

  /** A file the page declares */
  datatype Asset = JsFile(url: string) | CssFile(url: string)

  const ACTIVATE_SCRIPT: string := "activate_datatables.js"

  /** The declarations of `add_datatables_scripts`, in order, or the
      version error `packaging` raises before any is made */
  function DatatablesAssets(cfg: Config): (r: Result<seq<Asset>, string>)
    ensures r.Success? <==> ParseRelease(cfg.version).Success?
    ensures r.Success? ==> |r.value| == 3 && r.value[0].JsFile? && r.value[1].CssFile?
    ensures r.Success? ==> r.value[2] == JsFile(ACTIVATE_SCRIPT)
    ensures r.Success? && |cfg.js| > 0 ==> r.value[0] == JsFile(cfg.js)
    ensures r.Success? && |cfg.css| > 0 ==> r.value[1] == CssFile(cfg.css)
  {
    match ParseRelease(cfg.version)
    case Failure(e) => Failure(e)
    case Success(release) =>
      var v := cfg.version;
      var legacy := ReleaseBefore(release, V2);
      var js := if |cfg.js| > 0 then cfg.js else if legacy then LegacyJs(v) else BundleJs(v);
      var css := if |cfg.css| > 0 then cfg.css else if legacy then LegacyCss(v) else BundleCss(v);
      Success([JsFile(js), CssFile(css), JsFile(ACTIVATE_SCRIPT)])
  }

  // ---------------------------------------------------------------------
  // properties
  // ---------------------------------------------------------------------

  /** Without overrides, a version below 2.0.0 gets the jQuery plugin
      files of that version. */
  lemma LegacyLayout(cfg: Config, release: seq<nat>)
    requires ParseRelease(cfg.version) == Success(release) && release[0] < 2
    requires |cfg.js| == 0 && |cfg.css| == 0
    ensures DatatablesAssets(cfg)
         == Success([JsFile(LegacyJs(cfg.version)), CssFile(LegacyCss(cfg.version)), JsFile(ACTIVATE_SCRIPT)])
  {
    BelowV2(release);
  }

  /** Without overrides, a version of 2.0.0 or later gets the bundle files
      of that version. */
  lemma BundleLayout(cfg: Config, release: seq<nat>)
    requires ParseRelease(cfg.version) == Success(release) && release[0] >= 2
    requires |cfg.js| == 0 && |cfg.css| == 0
    ensures DatatablesAssets(cfg)
         == Success([JsFile(BundleJs(cfg.version)), CssFile(BundleCss(cfg.version)), JsFile(ACTIVATE_SCRIPT)])
  {
    BelowV2(release);
  }

  /** Each override decides its own file only: setting the script URL
      leaves the stylesheet as it was, and the other way round. */
  lemma OverridesIndependent(cfg: Config, js: string, css: string)
    requires ParseRelease(cfg.version).Success?
    ensures DatatablesAssets(cfg.(js := js)).value[1] == DatatablesAssets(cfg).value[1]
    ensures DatatablesAssets(cfg.(css := css)).value[0] == DatatablesAssets(cfg).value[0]
    ensures DatatablesAssets(cfg.(js := js)).value[2..] == DatatablesAssets(cfg).value[2..]
  {
  }

  /** A character missing from a text rules out every pattern holding it. */
  lemma {:induction false} AbsentChar(sub: string, s: string, c: char, k: nat)
    requires k < |sub| && sub[k] == c && Lacks(s, c)
    ensures !Occurs(sub, s)
    decreases |s|
  {
    if |s| > 0 {
      LacksSuffix(s, 1, c);
      AbsentChar(sub, s[1..], c, k);
    }
  }

  /** With both overrides set, and neither pointing at the CDN, nothing the
      page declares comes from the CDN. */
  lemma OverriddenOffCdn(cfg: Config)
    requires ParseRelease(cfg.version).Success?
    requires |cfg.js| > 0 && |cfg.css| > 0
    requires !Occurs(CDN_HOST, cfg.js) && !Occurs(CDN_HOST, cfg.css)
    ensures forall a :: a in DatatablesAssets(cfg).value ==> !Occurs(CDN_HOST, a.url)
  {
    ActivateOffCdn();
    AllWithout(CDN_HOST, DatatablesAssets(cfg).value, cfg.js, cfg.css, ACTIVATE_SCRIPT);
  }

  lemma AllWithout(h: string, assets: seq<Asset>, js: string, css: string, script: string)
    requires assets == [JsFile(js), CssFile(css), JsFile(script)]
    requires !Occurs(h, js) && !Occurs(h, css) && !Occurs(h, script)
    ensures forall a :: a in assets ==> !Occurs(h, a.url)
  {
  }

  /** The activation script is served by the site itself. */
  lemma ActivateOffCdn()
    ensures !Occurs(CDN_HOST, ACTIVATE_SCRIPT)
  {
    assert CDN_HOST[2] == 'n';
    assert Lacks(ACTIVATE_SCRIPT, 'n');
    AbsentChar(CDN_HOST, ACTIVATE_SCRIPT, 'n', 2);
  }

  /** The default version, 2.3.5, is read as such. */
  lemma DefaultRelease()
    ensures ParseRelease(DEFAULT_CONFIG.version) == Success([2, 3, 5])
  {
    var ns: seq<nat> := [2, 3, 5];
    ParseShowRelease(ns);
    assert Json.NatToString(2) == "2" && Json.NatToString(3) == "3" && Json.NatToString(5) == "5";
    var parts := seq(|ns|, i requires 0 <= i < |ns| => Json.NatToString(ns[i]));
    assert parts == ["2", "3", "5"];
    assert Join(".", ["5"]) == "5";
    assert Join(".", ["3", "5"]) == "3" + "." + Join(".", ["5"]);
    assert Join(".", ["2", "3", "5"]) == "2" + "." + Join(".", ["3", "5"]);
    assert ShowRelease(ns) == "2.3.5";
  }

  /** An unconfigured site uses the 2.3.5 bundle from the CDN. */
  lemma DefaultAssets()
    ensures DatatablesAssets(DEFAULT_CONFIG)
         == Success([JsFile(BundleJs("2.3.5")), CssFile(BundleCss("2.3.5")), JsFile(ACTIVATE_SCRIPT)])
  {
    DefaultRelease();
    BundleLayout(DEFAULT_CONFIG, [2, 3, 5]);
  }
}
