/** The option handling at the top of the plugin factory
    (`pikaWebBabelTransform` in assets/babel-plugin.js): the options object
    is whatever the Babel configuration supplies, so each option is an
    arbitrary JavaScript value, read for truthiness or compared strictly. */
module PluginOptions {

  /** The JavaScript values an option can hold, as far as truthiness and
      strict equality with a string tell them apart. Numbers that are zero
      are falsy; NaN is its own case because it is the one falsy number
      that is not zero. A big integer is falsy exactly when it is `0n`.
      Everything else (objects, arrays, functions, symbols) is `Other`, and
      truthy. */
  datatype Value = Undefined | Null | Bool(b: bool) | Num(x: real) | NaN | BigInt(n: int)
                 | Str(s: string) | Other

  /** `!!v` */
  predicate Truthy(v: Value)
  {
    match v
    case Undefined => false
    case Null => false
    case Bool(b) => b
    case Num(x) => x != 0.0
    case NaN => false
    case BigInt(n) => n != 0
    case Str(s) => s != ""
    case Other => true
  }

  /** The destructured options `{resolve, dir, addVersion, importMap,
      importType, optionalExtensions}`; an option left out of the object is
      `Undefined`. */
  datatype Options = Options(resolve: Value, dir: Value, addVersion: Value, importMap: Value,
                             importType: Value, optionalExtensions: Value)

  /** The options as the plugin uses them after defaulting, and whether the
      deprecation warning for `addVersion` is logged. */
  datatype Settings = Settings(shouldResolveRelative: bool, dir: Value, importMap: Value,
                               importType: Value, warnedAddVersion: bool)

  const DefaultDir := "web_modules"
  const DefaultImportType := "absolute"

  /** No options at all (`= {}`). */
  const NoOptions := Options(Undefined, Undefined, Undefined, Undefined, Undefined, Undefined)

  /** `x || fallback` */
  function Or(x: Value, fallback: Value): Value
  {
    if Truthy(x) then x else fallback
  }

  /** Lines 104-112. */
  function ApplyDefaults(o: Options): Settings
  {
    Settings(
      shouldResolveRelative := o.resolve == Str("node") || Truthy(o.optionalExtensions),
      dir := Or(o.dir, Str(DefaultDir)),
      importMap := o.importMap,
      importType := Or(o.importType, Str(DefaultImportType)),
      warnedAddVersion := Truthy(o.addVersion))
  }

  /** The three promises of the option's documentation: `resolve` defaults
      to "none", which leaves local imports alone; "node" turns resolution
      on; and a truthy `optionalExtensions` is a deprecated spelling of
      `resolve: "node"`, giving the very same settings. Any other `resolve`
      (a different string such as "Node", or a non-string) acts as "none". */
  lemma ResolveRelativeExactly(o: Options, v: Value, other: Value)
    ensures ApplyDefaults(o.(resolve := Undefined)) == ApplyDefaults(o.(resolve := Str("none")))
    ensures !ApplyDefaults(o.(resolve := Str("none"), optionalExtensions := Undefined)).shouldResolveRelative
    ensures ApplyDefaults(o.(resolve := Str("node"))).shouldResolveRelative
    ensures Truthy(v) ==> (ApplyDefaults(o.(optionalExtensions := v))
                           == ApplyDefaults(o.(resolve := Str("node"), optionalExtensions := Undefined)))
    ensures other != Str("node")
            ==> (ApplyDefaults(o.(resolve := other)) == ApplyDefaults(o.(resolve := Str("none"))))
  {
  }

  /** A truthy `dir` is kept; any falsy one (absent, null, "", false, 0,
      NaN) becomes "web_modules". Either way the directory used is truthy. */
  lemma DirDefaulted(o: Options)
    ensures Truthy(o.dir) ==> ApplyDefaults(o).dir == o.dir
    ensures !Truthy(o.dir) ==> ApplyDefaults(o).dir == Str("web_modules")
    ensures Truthy(ApplyDefaults(o).dir)
  {
  }

  /** The same rule for `importType`, with "absolute" as the default. Only
      the exact string "relative" selects relative paths later, so a falsy
      `importType` means absolute paths. */
  lemma ImportTypeDefaulted(o: Options)
    ensures Truthy(o.importType) ==> ApplyDefaults(o).importType == o.importType
    ensures !Truthy(o.importType) ==> ApplyDefaults(o).importType == Str("absolute")
    ensures Truthy(ApplyDefaults(o).importType)
    ensures ApplyDefaults(o).importType == Str("relative") <==> o.importType == Str("relative")
  {
  }

  /** The deprecation warning is logged exactly for a truthy `addVersion`,
      and the option has no other effect. */
  lemma AddVersionOnlyWarns(o: Options, addVersion: Value)
    ensures ApplyDefaults(o).warnedAddVersion <==> Truthy(o.addVersion)
    ensures var s1 := ApplyDefaults(o);
            var s2 := ApplyDefaults(o.(addVersion := addVersion));
            s1.(warnedAddVersion := false) == s2.(warnedAddVersion := false)
  {
  }

  /** With no options the plugin resolves nothing, writes absolute paths
      under "/web_modules" and logs nothing. */
  lemma DefaultsWithoutOptions()
    ensures ApplyDefaults(NoOptions)
         == Settings(false, Str("web_modules"), Undefined, Str("absolute"), false)
  {
  }

  /** Defaulting is idempotent: feeding the defaulted values back in as
      options changes none of them. */
  lemma DefaultsIdempotent(o: Options)
    ensures var s := ApplyDefaults(o);
            var again := ApplyDefaults(Options(o.resolve, s.dir, o.addVersion, s.importMap,
                                               s.importType, o.optionalExtensions));
            again == s
  {
    DirDefaulted(o);
    ImportTypeDefaulted(o);
  }
}
