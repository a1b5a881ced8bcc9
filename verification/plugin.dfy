/** The pure parts of the webpack plugin (plugin/plugin.ts): the options after the constructor
    fills in defaults, resolving a module request to a sprite configuration, the asset name and
    URL of the sheet, the stylesheet of all CSS option sets, the escaping that carries it into a
    string literal, and the source text of the generated module. */
module Plugin {
  import opened Wrappers
  import opened Text
  import opened Dict
  import opened Sprite
  import opened Geometry
  import opened Css
  import opened Declarations
  import opened Composite
  import opened Runtime

  /** One sprite configuration: its icon folder, class prefix, declaration options and the list of
      stylesheet variants. */
  datatype Configuration = Configuration(
    folder: string,
    cssClassPrefix: string,
    dtsOptions: DtsOptions,
    cssOptions: seq<CssOptions>)

  /** The plugin options; any of them may be missing from the object the user passes. */
  datatype Options = Options(
    modulePrefix: Option<string>,
    dtsOutputFolder: Option<string>,
    configurations: Option<Dict<string, Configuration>>,
    publicPath: Option<string>)

  const DefaultModulePrefix := "svg-sprites/"

  /** What the constructor leaves behind: a module prefix and a configurations object. */
  predicate Settled(o: Options) {
    o.modulePrefix.Some? && o.configurations.Some?
  }

  /** `new SpriteGenerator(options)`: a missing options object counts as `{}`, missing
      configurations become `{}`, and a missing or empty module prefix becomes `svg-sprites/`. */
  function WithDefaults(options: Option<Options>): (r: Options)
    ensures Settled(r) && r.modulePrefix.value != ""
    ensures options.Some? && options.value.modulePrefix.Some? && options.value.modulePrefix.value != "" ==>
              r.modulePrefix == options.value.modulePrefix
    ensures (options.None? || options.value.modulePrefix.None? || options.value.modulePrefix.value == "") ==>
              r.modulePrefix == Some(DefaultModulePrefix)
    ensures options.Some? && options.value.configurations.Some? ==> r.configurations == options.value.configurations
    ensures (options.None? || options.value.configurations.None?) ==> r.configurations == Some([])
    ensures options.Some? ==> r.dtsOutputFolder == options.value.dtsOutputFolder && r.publicPath == options.value.publicPath
  {
    var o := options.GetOr(Options(None, None, None, None));
    o.(configurations := Some(o.configurations.GetOr([])),
       modulePrefix := if o.modulePrefix.Some? && o.modulePrefix.value != "" then o.modulePrefix
                       else Some(DefaultModulePrefix))
  }

  /** Constructing a generator from the options of another one changes nothing. */
  lemma WithDefaultsIdempotent(options: Option<Options>)
    ensures WithDefaults(Some(WithDefaults(options))) == WithDefaults(options)
  {
  }

  /** A sprite module: the configuration it was created for, under its name. */
  datatype SpriteModule = SpriteModule(modulePrefix: string, configName: string, config: Configuration) {
    /** `identifier()` and `libIdent()` */
    function Identifier(): string {
      modulePrefix + configName
    }
  }

  /** The resolve hook: a request that starts with the module prefix names the configuration
      spelled by the rest of the request; a module is made only when that configuration exists. */
  function Resolve(o: Options, request: string): (r: Option<SpriteModule>)
    requires Settled(o)
  {
    var prefix := o.modulePrefix.value;
    if !(prefix <= request) then None
    else
      var configName := Substr(request, |prefix|);
      match Get(o.configurations.value, configName)
      case None => None
      case Some(config) => Some(SpriteModule(prefix, configName, config))
  }

  /** A module is produced exactly for a request made of the prefix and the name of a configuration;
      it carries that configuration, and its identifier is the request itself. */
  lemma ResolveSpec(o: Options, request: string)
    requires Settled(o)
    ensures var prefix := o.modulePrefix.value;
            var configs := o.configurations.value;
            Resolve(o, request).Some? <==> (prefix <= request && request[|prefix|..] in Keys(configs))
    ensures var r := Resolve(o, request);
            r.Some? ==> && r.value.Identifier() == request
                        && r.value.modulePrefix + r.value.configName == request
                        && Get(o.configurations.value, r.value.configName) == Some(r.value.config)
  {
    var prefix := o.modulePrefix.value;
    if prefix <= request {
      assert Substr(request, |prefix|) == request[|prefix|..];
      assert prefix + request[|prefix|..] == request;
    }
  }

  /** Properties every plain JavaScript object inherits from `Object.prototype`. Reading one of them
      from the configurations object yields a function (for `__proto__`, the prototype itself), and
      either is truthy. */
  const InheritedNames: set<string> := {
    "constructor", "hasOwnProperty", "isPrototypeOf", "propertyIsEnumerable", "toLocaleString",
    "toString", "valueOf", "__defineGetter__", "__defineSetter__", "__lookupGetter__",
    "__lookupSetter__", "__proto__" }

  /** What `configurations[configName]` finds: an own configuration or an inherited member. */
  datatype Lookup = Own(config: Configuration) | Inherited(name: string)

  /** The resolve hook as written: it tests `configurations[configName]` for truthiness, which also
      succeeds for the inherited members; the result is the configuration name and what was found. */
  function ResolveAsWritten(o: Options, request: string): (r: Option<(string, Lookup)>)
    requires Settled(o)
    ensures r.Some? ==> o.modulePrefix.value <= request && o.modulePrefix.value + r.value.0 == request
  {
    var prefix := o.modulePrefix.value;
    if !(prefix <= request) then None
    else
      var configName := request[|prefix|..];
      assert prefix + configName == request;
      match Get(o.configurations.value, configName)
      case Some(config) => Some((configName, Own(config)))
      case None => if configName in InheritedNames then Some((configName, Inherited(configName))) else None
  }

  /** With no configurations at all, the request `svg-sprites/constructor` still makes a module, and
      the "configuration" it gets is `Object`. */
  lemma InheritedConfiguration()
    ensures ResolveAsWritten(WithDefaults(None), "svg-sprites/constructor") == Some(("constructor", Inherited("constructor")))
    ensures Resolve(WithDefaults(None), "svg-sprites/constructor") == None
  {
    var o := WithDefaults(None);
    var request := "svg-sprites/constructor";
    assert DefaultModulePrefix <= request;
    assert request[|DefaultModulePrefix|..] == "constructor";
    assert Substr(request, |DefaultModulePrefix|) == "constructor";
  }

  /** Away from the inherited names, the hook as written and the corrected one agree. */
  lemma ResolveAgrees(o: Options, request: string)
    requires Settled(o)
    ensures var r := ResolveAsWritten(o, request);
            var m := Resolve(o, request);
            && (m.Some? ==> r == Some((m.value.configName, Own(m.value.config))))
            && (r.Some? && r.value.1.Own? ==> m.Some?)
            && (m.None? && r.Some? ==> r.value.1.Inherited? && r.value.0 in InheritedNames)
  {
    var prefix := o.modulePrefix.value;
    if prefix <= request {
      assert Substr(request, |prefix|) == request[|prefix|..];
    }
  }

  /** One character of the stylesheet after the escaping. */
  function EscapeChar(c: char): string {
    if c == '%' then "%25"
    else if c == '"' then "%22"
    else if c == '\n' then "%0A"
    else [c]
  }

  /** Every character escaped on its own, left to right. */
  function EscapeEach(s: string): string
    decreases |s|
  {
    if |s| == 0 then "" else EscapeChar(s[0]) + EscapeEach(s[1..])
  }

  /** `codeGeneration`'s three passes over the stylesheet: `%`, then `"`, then line feeds. The result
      holds no double quote and no line feed, so it can sit inside a one-line string literal. */
  function EscapeCss(css: string): (r: string)
    ensures '"' !in r && '\n' !in r
  {
    ReplaceAll(ReplaceAll(ReplaceAll(css, '%', "%25"), '"', "%22"), '\n', "%0A")
  }

  /** Because `%` goes first, the three passes escape each character exactly once: no `%` written
      by a later pass is escaped again. */
  lemma {:induction false} EscapeInOnePass(s: string)
    ensures EscapeCss(s) == EscapeEach(s)
    decreases |s|
  {
    if |s| != 0 {
      var h := if s[0] == '%' then "%25" else [s[0]];
      var t1 := ReplaceAll(s[1..], '%', "%25");
      assert ReplaceAll(s, '%', "%25") == h + t1;
      ReplaceAppend(h, t1, '"', "%22");
      var h2 := ReplaceAll(h, '"', "%22");
      var t2 := ReplaceAll(t1, '"', "%22");
      ReplaceAppend(h2, t2, '\n', "%0A");
      EscapeInOnePass(s[1..]);
      EscapeCharPasses(s[0]);
    }
  }

  /** The three passes on one character. */
  lemma EscapeCharPasses(c: char)
    ensures ReplaceAll(ReplaceAll(if c == '%' then "%25" else [c], '"', "%22"), '\n', "%0A") == EscapeChar(c)
  {
    if c == '%' {
      ReplaceNoop("%25", '"', "%22");
      ReplaceNoop("%25", '\n', "%0A");
    } else if c == '"' {
      assert ReplaceAll([c], '"', "%22") == "%22";
      ReplaceNoop("%22", '\n', "%0A");
    } else if c == '\n' {
      assert ReplaceAll([c], '"', "%22") == [c];
      assert ReplaceAll([c], '\n', "%0A") == "%0A";
    } else {
      assert ReplaceAll([c], '"', "%22") == [c];
      assert ReplaceAll([c], '\n', "%0A") == [c];
    }
  }

  /** `decodeURIComponent` on the three escapes the module text can contain. */
  function DecodeEscapes(s: string): Option<string>
    decreases |s|
  {
    if |s| == 0 then Some("")
    else if s[0] != '%' then Prepend(s[0], DecodeEscapes(s[1..]))
    else if |s| < 3 then None
    else if s[1..3] == "25" then Prepend('%', DecodeEscapes(s[3..]))
    else if s[1..3] == "22" then Prepend('"', DecodeEscapes(s[3..]))
    else if s[1..3] == "0A" then Prepend('\n', DecodeEscapes(s[3..]))
    else None
  }

  function Prepend(c: char, rest: Option<string>): Option<string> {
    match rest
    case None => None
    case Some(t) => Some([c] + t)
  }

  /** Decoding the escaped stylesheet at run time gives back the stylesheet exactly. */
  lemma CssRoundTrip(css: string)
    ensures DecodeEscapes(EscapeCss(css)) == Some(css)
  {
    EscapeInOnePass(css);
    DecodeEach(css);
  }

  lemma {:induction false} DecodeEach(s: string)
    ensures DecodeEscapes(EscapeEach(s)) == Some(s)
    decreases |s|
  {
    if |s| != 0 {
      var e := EscapeEach(s);
      var rest := EscapeEach(s[1..]);
      var c := s[0];
      DecodeEach(s[1..]);
      assert e == EscapeChar(c) + rest;
      if c == '%' || c == '"' || c == '\n' {
        assert e[0] == '%' && e[3..] == rest;
      } else {
        assert e[0] == c && e[1..] == rest;
      }
      assert s == [c] + s[1..];
    }
  }

  /** The asset the sheet is emitted as: `sprite-`, the last 20 characters of the sheet's SHA-1
      (all of it when shorter), `.svg`. */
  function AssetName(js: Foreign, svg: string): (r: string)
    ensures var hash := js.sha1(svg);
            var n := if |hash| < 20 then |hash| else 20;
            && |r| == 11 + n
            && r[..7] == "sprite-" && EndsWith(r, ".svg")
            && r[7..7 + n] == hash[|hash| - n..]
  {
    "sprite-" + Substr(js.sha1(svg), -20) + ".svg"
  }

  /** Two sheets get the same asset name exactly when their hashes end alike. */
  lemma AssetNameNames(js: Foreign, a: string, b: string)
    ensures AssetName(js, a) == AssetName(js, b) <==> Substr(js.sha1(a), -20) == Substr(js.sha1(b), -20)
  {
    var x := Substr(js.sha1(a), -20);
    var y := Substr(js.sha1(b), -20);
    if AssetName(js, a) == AssetName(js, b) {
      assert AssetName(js, a)[7..|AssetName(js, a)| - 4] == x;
      assert AssetName(js, b)[7..|AssetName(js, b)| - 4] == y;
    }
  }

  /** `(publicPath || "") + name`: the public path, when set, and the asset name. */
  function AssetUrl(o: Options, name: string): (r: string)
    ensures EndsWith(r, name)
    ensures o.publicPath.None? ==> r == name
    ensures o.publicPath.Some? ==> o.publicPath.value <= r && |r| == |o.publicPath.value| + |name|
  {
    o.publicPath.GetOr("") + name
  }

  /** Every stylesheet variant of a configuration can be generated. */
  predicate AllSucceed(js: Foreign, options: seq<CssOptions>, prefix: string, sprite: GeneratedSprite, url: string) {
    forall i :: 0 <= i < |options| ==> SpriteCss(js, options[i], prefix, sprite, url).Success?
  }

  /** The stylesheets of the variants, in order. */
  function CssTexts(js: Foreign, options: seq<CssOptions>, prefix: string, sprite: GeneratedSprite, url: string): (r: seq<string>)
    requires AllSucceed(js, options, prefix, sprite, url)
    ensures |r| == |options|
  {
    seq(|options|, i requires 0 <= i < |options| => SpriteCss(js, options[i], prefix, sprite, url).value)
  }

  /** The `for … of cssOptions` loop of `buildAsync`: the stylesheets of all variants one after the
      other, starting from the empty string; the first variant that fails stops the build with its
      error. */
  method CombineCss(js: Foreign, options: seq<CssOptions>, prefix: string, sprite: GeneratedSprite, url: string)
    returns (r: Result<string, CssError>)
    ensures r.Success? <==> AllSucceed(js, options, prefix, sprite, url)
    ensures r.Success? ==> r.value == Concat(CssTexts(js, options, prefix, sprite, url))
    ensures r.Failure? ==> exists i :: && 0 <= i < |options|
                                && AllSucceed(js, options[..i], prefix, sprite, url)
                                && SpriteCss(js, options[i], prefix, sprite, url) == Failure(r.error)
  {
    var css := "";
    for i := 0 to |options|
      invariant AllSucceed(js, options[..i], prefix, sprite, url)
      invariant css == Concat(CssTexts(js, options[..i], prefix, sprite, url))
    {
      r := SpriteCss(js, options[i], prefix, sprite, url);
      var text :- r;
      CssTextsSnoc(js, options, prefix, sprite, url, i);
      css := css + text;
    }
    assert options[..|options|] == options;
    return Success(css);
  }

  /** One more variant that succeeds extends the texts by its stylesheet. */
  lemma CssTextsSnoc(js: Foreign, options: seq<CssOptions>, prefix: string, sprite: GeneratedSprite, url: string, i: nat)
    requires i < |options| && AllSucceed(js, options[..i], prefix, sprite, url)
    requires SpriteCss(js, options[i], prefix, sprite, url).Success?
    ensures AllSucceed(js, options[..i + 1], prefix, sprite, url)
    ensures Concat(CssTexts(js, options[..i + 1], prefix, sprite, url)) ==
              Concat(CssTexts(js, options[..i], prefix, sprite, url)) + SpriteCss(js, options[i], prefix, sprite, url).value
  {
    var text := SpriteCss(js, options[i], prefix, sprite, url).value;
    assert options[..i + 1] == options[..i] + [options[i]];
    var before := CssTexts(js, options[..i], prefix, sprite, url);
    assert CssTexts(js, options[..i + 1], prefix, sprite, url) == before + [text];
    ConcatAppend(before, [text]);
  }

  /** Without stylesheet variants the stylesheet is empty, even for a sprite with no icons. */
  lemma NoVariants(js: Foreign, prefix: string, sprite: GeneratedSprite, url: string)
    ensures AllSucceed(js, [], prefix, sprite, url) && Concat(CssTexts(js, [], prefix, sprite, url)) == ""
  {
  }

  /** What a sprite module builds besides the sheet itself. */
  datatype Built = Built(svg: string, assetName: string, assetUrl: string, css: string, js: string)

  datatype BuildError = SheetError(message: string) | StylesheetError(error: CssError)

  /** The pure steps of `buildAsync` for an already generated sprite: the sheet, its asset name and
      URL, the combined stylesheet and the runtime script; reading the folder, hashing it and
      writing the declaration file are not part of it. */
  method Build(js: Foreign, o: Options, config: Configuration, sprite: GeneratedSprite) returns (r: Result<Built, BuildError>)
    ensures r.Success? <==>
              (&& SpriteSvg(js, sprite).Success?
               && AllSucceed(js, config.cssOptions, config.cssClassPrefix, sprite,
                             AssetUrl(o, AssetName(js, SpriteSvg(js, sprite).value))))
    ensures r.Success? ==> && r.value.svg == SpriteSvg(js, sprite).value
                           && r.value.assetName == AssetName(js, r.value.svg)
                           && r.value.assetUrl == AssetUrl(o, r.value.assetName)
                           && r.value.css == Concat(CssTexts(js, config.cssOptions, config.cssClassPrefix, sprite, r.value.assetUrl))
                           && r.value.js == SpriteJs(js, config.dtsOptions, sprite, r.value.assetUrl, config.cssClassPrefix)
  {
    var svg := SpriteSvg(js, sprite);
    if svg.Failure? {
      return Failure(SheetError(svg.error));
    }
    var name := AssetName(js, svg.value);
    var url := AssetUrl(o, name);
    var css := CombineCss(js, config.cssOptions, config.cssClassPrefix, sprite, url);
    if css.Failure? {
      return Failure(StylesheetError(css.error));
    }
    var script := SpriteJs(js, config.dtsOptions, sprite, url, config.cssClassPrefix);
    return Success(Built(svg.value, name, url, css.value, script));
  }

  /** The lines `codeGeneration` writes before the runtime script. */
  function Prelude(css: string): (r: seq<string>)
    ensures |r| == 6
  {
    [ "/* initialize css */",
      "var element = document.createElement(\"style\");",
      "element.innerText = decodeURIComponent(\"" + EscapeCss(css) + "\");",
      "document.head.append(element);",
      "",
      "/* initialize typescript objects */" ]
  }

  /** `codeGeneration`: the prelude, then the runtime script split into lines, joined by line feeds. */
  function ModuleSource(b: Built): string {
    Join(Prelude(b.css) + Split(b.js, '\n'), "\n")
  }

  /** The module source is the prelude followed by the runtime script unchanged; the stylesheet
      travels in the third line as one string literal that decodes back to it. */
  lemma ModuleSourceLayout(b: Built)
    ensures ModuleSource(b) == Join(Prelude(b.css), "\n") + "\n" + b.js
    ensures var line := "element.innerText = decodeURIComponent(\"" + EscapeCss(b.css) + "\");";
            && Prelude(b.css)[2] == line
            && '\n' !in line
            && DecodeEscapes(EscapeCss(b.css)) == Some(b.css)
  {
    JoinAppend(Prelude(b.css), Split(b.js, '\n'), "\n");
    JoinSplit(b.js, '\n');
    CssRoundTrip(b.css);
  }
}
