/**
 * Choosing entry points of the compiled compiler module by what it exports.
 *
 * The module is abstracted to the set of its exported symbols whose value is
 * not nil (`_solidity_compile`, `_version`, ...); `cwrap(name, ...)` becomes a
 * token naming the wrapped symbol.
 */
module BindingHelpers {
  import opened Options

  /** The names `n` such that `solJson[n]` is neither `null` nor `undefined`. */
  type Symbols = set<string>

  /** What a binding evaluates to. */
  datatype Binding =
    | NullBinding            // `null` (or another nil value)
    | Cwrap(symbol: string)  // `solJson.cwrap(symbol, ...)`
    | Malloc                 // the module's own `_malloc`
    | Noop                   // the empty function `() => {}`

  /** `!isNil(solJson['_' + name])`. */
  predicate Exported(symbols: Symbols, name: string) {
    "_" + name in symbols
  }

  /**
   * bindSolcMethod: the default when the symbol is missing and a default was
   * passed (`None` is `undefined`; `Some(NullBinding)` is an explicit `null`),
   * the cwrap of `name` otherwise, even for a missing symbol.
   */
  function BindSolcMethod(symbols: Symbols, name: string, default: Option<Binding>): (b: Binding)
    ensures !Exported(symbols, name) && default.Some? ==> b == default.value
    ensures Exported(symbols, name) || default.None? ==> b == Cwrap(name)
  {
    if !Exported(symbols, name) && default.Some? then default.value else Cwrap(name)
  }

  /**
   * `bindSolcMethod(solJson, name, ..., null)` where the caller keeps the
   * result only when it is not `null`: the entry point, named by its symbol,
   * exactly when the module exports it.
   */
  function EntryIfExported(symbols: Symbols, name: string): (e: Option<string>)
    ensures e.Some? <==> Exported(symbols, name)
    ensures e.Some? ==> e.value == name
  {
    var bound := BindSolcMethod(symbols, name, Some(NullBinding));
    if bound == NullBinding then None else Some(bound.symbol)
  }

  /**
   * bindSolcMethodWithFallbackFunc: the primary binding when it exists, and the
   * fallback's binding (with `finalFallback` as its default) when it does not.
   */
  function BindSolcMethodWithFallbackFunc(
    symbols: Symbols, name: string, fallback: string, finalFallback: Option<Binding>): (b: Binding)
    ensures Exported(symbols, name) ==> b == Cwrap(name)
    ensures !Exported(symbols, name) ==> b == BindSolcMethod(symbols, fallback, finalFallback)
  {
    var primary := BindSolcMethod(symbols, name, Some(NullBinding));
    if primary != NullBinding then primary else BindSolcMethod(symbols, fallback, finalFallback)
  }

  /** The fallback is only consulted when the primary symbol is missing, whatever it is. */
  lemma PrimaryIgnoresFallback(symbols: Symbols, name: string, f1: string, f2: string, d1: Option<Binding>, d2: Option<Binding>)
    requires Exported(symbols, name)
    ensures BindSolcMethodWithFallbackFunc(symbols, name, f1, d1) == BindSolcMethodWithFallbackFunc(symbols, name, f2, d2)
  {
  }

  /**
   * With neither symbol exported the result is the final fallback when one is
   * given, and a cwrap of the missing fallback symbol otherwise.
   */
  lemma NeitherExported(symbols: Symbols, name: string, fallback: string, finalFallback: Option<Binding>)
    requires !Exported(symbols, name) && !Exported(symbols, fallback)
    ensures finalFallback.Some? ==> BindSolcMethodWithFallbackFunc(symbols, name, fallback, finalFallback) == finalFallback.value
    ensures finalFallback.None? ==> BindSolcMethodWithFallbackFunc(symbols, name, fallback, finalFallback) == Cwrap(fallback)
  {
  }

  /** anyMethodExists: some listed name is exported. */
  function AnyMethodExists(symbols: Symbols, names: seq<string>): (r: bool)
    ensures r <==> exists i :: 0 <= i < |names| && Exported(symbols, names[i])
  {
    if names == [] then false
    else Exported(symbols, names[0]) || AnyMethodExists(symbols, names[1..])
  }

  /**
   * The capability flags. `getSupportedMethods` sets only five of them; the
   * three legacy ones stay `undefined`, which is `false` here.
   */
  datatype SupportedMethods = SupportedMethods(
    licenseSupported: bool,
    versionSupported: bool,
    allocSupported: bool,
    resetSupported: bool,
    compileJsonSupported: bool,
    compileJsonMultiSupported: bool,
    compileJsonCallbackSupported: bool,
    compileJsonStandardSupported: bool)

  function GetSupportedMethods(symbols: Symbols): (m: SupportedMethods)
    ensures m.licenseSupported <==> Exported(symbols, "solidity_license")
    ensures m.versionSupported <==> Exported(symbols, "solidity_version")
    ensures m.allocSupported <==> Exported(symbols, "solidity_alloc")
    ensures m.resetSupported <==> Exported(symbols, "solidity_reset")
    ensures m.compileJsonStandardSupported <==> Exported(symbols, "compileStandard") || Exported(symbols, "solidity_compile")
    ensures !m.compileJsonSupported && !m.compileJsonMultiSupported && !m.compileJsonCallbackSupported
  {
    assert ["compileStandard", "solidity_compile"][1] == "solidity_compile";
    SupportedMethods(
      licenseSupported := AnyMethodExists(symbols, ["solidity_license"]),
      versionSupported := AnyMethodExists(symbols, ["solidity_version"]),
      allocSupported := AnyMethodExists(symbols, ["solidity_alloc"]),
      resetSupported := AnyMethodExists(symbols, ["solidity_reset"]),
      compileJsonSupported := false,
      compileJsonMultiSupported := false,
      compileJsonCallbackSupported := false,
      compileJsonStandardSupported := AnyMethodExists(symbols, ["compileStandard", "solidity_compile"]))
  }

  /** Flag-wise implication. */
  predicate FlagsBelow(m1: SupportedMethods, m2: SupportedMethods) {
    (m1.licenseSupported ==> m2.licenseSupported)
    && (m1.versionSupported ==> m2.versionSupported)
    && (m1.allocSupported ==> m2.allocSupported)
    && (m1.resetSupported ==> m2.resetSupported)
    && (m1.compileJsonStandardSupported ==> m2.compileJsonStandardSupported)
  }

  /** Exporting more symbols never switches a flag off. */
  lemma SupportedMethodsMonotone(s1: Symbols, s2: Symbols)
    requires s1 <= s2
    ensures FlagsBelow(GetSupportedMethods(s1), GetSupportedMethods(s2))
  {
  }

  /** A name list is detected iff one of its names is, in either order. */
  lemma {:induction false} AnyMethodExistsAppend(symbols: Symbols, a: seq<string>, b: seq<string>)
    ensures AnyMethodExists(symbols, a + b) <==> AnyMethodExists(symbols, a) || AnyMethodExists(symbols, b)
    ensures AnyMethodExists(symbols, a + b) == AnyMethodExists(symbols, b + a)
  {
    if AnyMethodExists(symbols, a + b) {
      var i :| 0 <= i < |a + b| && Exported(symbols, (a + b)[i]);
      if i < |a| {
        assert (b + a)[|b| + i] == a[i];
      } else {
        assert (b + a)[i - |a|] == b[i - |a|];
      }
    }
    if AnyMethodExists(symbols, b + a) {
      var i :| 0 <= i < |b + a| && Exported(symbols, (b + a)[i]);
      if i < |b| {
        assert (a + b)[|a| + i] == b[i];
      } else {
        assert (a + b)[i - |b|] == a[i - |b|];
      }
    }
    if AnyMethodExists(symbols, a) {
      var i :| 0 <= i < |a| && Exported(symbols, a[i]);
      assert (a + b)[i] == a[i];
    }
    if AnyMethodExists(symbols, b) {
      var i :| 0 <= i < |b| && Exported(symbols, b[i]);
      assert (a + b)[|a| + i] == b[i];
    }
  }
}
