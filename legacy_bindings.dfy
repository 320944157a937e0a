/**
 * The older single-file bindings: the same core selectors and helpers, the
 * compileJSON / compileJSONMulti / compileJSONCallback tiers, a two-tier
 * `compileStandard` in which `solidity_compile` overrides `compileStandard`,
 * and a `runWithCallbacks` that differs from the newer one only in how it
 * treats the `callbacks` argument and in always having an entry point.
 */
module LegacyBindings {
  import opened Options
  import opened Common
  import opened BindingHelpers
  import opened Core
  import opened Compile

  /**
   * `callbacks: Callbacks = {}`: only `undefined` gets the default; reading
   * `import` off `null` throws; other non-objects have no such properties.
   */
  function ResolveLegacyCallbacks(arg: CallbacksArg): (r: Outcome<Callbacks>)
    ensures r.Thrown? <==> arg.NullCallbacks?
    ensures r.Thrown? ==> r.message == TypeErrorMessage
    ensures arg.CallbackObject? ==> r == Ok(arg.callbacks)
    ensures !arg.CallbackObject? && r.Ok? ==> r.value == NoHandlers
  {
    match arg
    case NullCallbacks => Thrown(TypeErrorMessage)
    case CallbackObject(c) => Ok(c)
    case _ => Ok(NoHandlers)
  }

  /**
   * The two variants treat `callbacks` alike except for `null` (accepted as
   * `{}` by the newer one, a TypeError here) and truthy non-objects (refused
   * by the newer one, served by the default responders here).
   */
  lemma CallbackResolutionDiffers(arg: CallbacksArg)
    ensures ResolveLegacyCallbacks(arg) != ResolveCallbacks(arg) <==> arg.NullCallbacks? || arg.NotAnObject?
  {
  }

  /** `runWithCallbacks` of bindings.ts, calling the entry point `symbol`. */
  method LegacyRunWithCallbacks(sol: SolJson, core: CoreBindings, callbacks: CallbacksArg, symbol: string, behaviour: EntryBehaviour, args: seq<Value>)
    returns (r: Outcome<Option<string>>, ghost cb: nat)
    requires sol.Valid()
    modifies sol, sol.heap
    ensures sol.Valid()
    ensures callbacks.NullCallbacks? ==>
              && r == Thrown(TypeErrorMessage) && sol.Mem() == old(sol.Mem())
              && sol.registrations == old(sol.registrations) && sol.removals == old(sol.removals)
              && sol.functions == old(sol.functions) && sol.invocations == old(sol.invocations)
              && sol.resets == old(sol.resets)
    ensures !callbacks.NullCallbacks? ==>
              && cb != 0 && cb !in old(sol.functions)
              && sol.registrations == old(sol.registrations) + [(cb, TrampolineSignature)]
              && sol.removals == old(sol.removals) + [cb]
              && sol.functions == old(sol.functions)
              && sol.invocations == old(sol.invocations) + [(symbol, args + [Num(cb), Null])]
              && var (outcome, m) := CallOutcome(old(sol.Mem()), core.alloc, ResolveLegacyCallbacks(callbacks).value, Some(behaviour));
                 && r == outcome
                 && sol.heap[..] == m.bytes && sol.requests == m.requests
                 && sol.top == (if r.Ok? && core.reset != NullBinding then sol.heapBase else m.top)
                 && sol.resets == old(sol.resets) + (if r.Ok? && core.reset != NullBinding then 1 else 0)
  {
    var resolved := ResolveLegacyCallbacks(callbacks);
    if resolved.Thrown? {
      return Thrown(resolved.message), 0;
    }
    r, cb := RunProtocol(sol, core, resolved.value, Some((symbol, behaviour)), args);
  }

  /**
   * `bindCompileStandard` of bindings.ts: the `compileStandard` wrapper is
   * assigned first and the `solidity_compile` one last, so the latter wins.
   */
  method BindCompileStandard(symbols: Symbols) returns (bound: Option<string>)
    ensures bound.None? <==> !Exported(symbols, "compileStandard") && !Exported(symbols, "solidity_compile")
    ensures Exported(symbols, "solidity_compile") ==> bound == Some("solidity_compile")
    ensures !Exported(symbols, "solidity_compile") && Exported(symbols, "compileStandard") ==> bound == Some("compileStandard")
    ensures bound.Some? <==> GetSupportedMethods(symbols).compileJsonStandardSupported
  {
    bound := None;
    var compileInternal := BindSolcMethod(symbols, "compileStandard", Some(NullBinding));
    var boundFunctionSolidity := BindSolcMethod(symbols, "solidity_compile", Some(NullBinding));
    if compileInternal != NullBinding {
      bound := Some(compileInternal.symbol);
    }
    if boundFunctionSolidity != NullBinding {
      bound := Some(boundFunctionSolidity.symbol);
    }
  }

  /** The four compile entry points of bindings.ts, each named by the symbol it calls (`None` for `null`). */
  datatype CompileBindings = CompileBindings(
    compileJson: Option<string>,
    compileJsonCallback: Option<string>,
    compileJsonMulti: Option<string>,
    compileStandard: Option<string>)

  /** `setupCompile` of bindings.ts. */
  method SetupCompile(symbols: Symbols) returns (b: CompileBindings)
    ensures b.compileJson.Some? <==> Exported(symbols, "compileJSON")
    ensures b.compileJson.Some? ==> b.compileJson.value == "compileJSON"
    ensures b.compileJsonCallback.Some? <==> Exported(symbols, "compileJSONCallback")
    ensures b.compileJsonCallback.Some? ==> b.compileJsonCallback.value == "compileJSONCallback"
    ensures b.compileJsonMulti.Some? <==> Exported(symbols, "compileJSONMulti")
    ensures b.compileJsonMulti.Some? ==> b.compileJsonMulti.value == "compileJSONMulti"
    ensures b.compileStandard.Some? <==> GetSupportedMethods(symbols).compileJsonStandardSupported
    ensures b.compileStandard.Some? ==>
              b.compileStandard.value == (if Exported(symbols, "solidity_compile") then "solidity_compile" else "compileStandard")
  {
    var standard := BindCompileStandard(symbols);
    var compileJson := EntryIfExported(symbols, "compileJSON");
    // `bindCompileJsonCallback`: `null` without the symbol, otherwise a function
    // running that entry point through the callbacks, named here by its symbol.
    var compileJsonCallback := EntryIfExported(symbols, "compileJSONCallback");
    var compileJsonMulti := EntryIfExported(symbols, "compileJSONMulti");
    b := CompileBindings(compileJson, compileJsonCallback, compileJsonMulti, standard);
  }

  /** The bound `compileJsonCallback(input, optimize, callbacks)`: the entry point gets `[input, optimize, cb, null]`. */
  method CompileJsonCallback(sol: SolJson, core: CoreBindings, input: string, optimize: Value, callbacks: CallbacksArg, behaviour: EntryBehaviour)
    returns (r: Outcome<Option<string>>, ghost cb: nat)
    requires sol.Valid() && Exported(sol.symbols, "compileJSONCallback")
    modifies sol, sol.heap
    ensures sol.Valid()
    ensures callbacks.NullCallbacks? ==>
              && r == Thrown(TypeErrorMessage) && sol.Mem() == old(sol.Mem())
              && sol.registrations == old(sol.registrations) && sol.removals == old(sol.removals)
              && sol.functions == old(sol.functions) && sol.invocations == old(sol.invocations)
              && sol.resets == old(sol.resets)
    ensures !callbacks.NullCallbacks? ==>
              && cb != 0 && cb !in old(sol.functions)
              && sol.registrations == old(sol.registrations) + [(cb, TrampolineSignature)]
              && sol.removals == old(sol.removals) + [cb]
              && sol.functions == old(sol.functions)
              && sol.invocations == old(sol.invocations) + [("compileJSONCallback", [Str(input), optimize, Num(cb), Null])]
              && var (outcome, m) := CallOutcome(old(sol.Mem()), core.alloc, ResolveLegacyCallbacks(callbacks).value, Some(behaviour));
                 && r == outcome
                 && sol.heap[..] == m.bytes && sol.requests == m.requests
                 && sol.top == (if r.Ok? && core.reset != NullBinding then sol.heapBase else m.top)
                 && sol.resets == old(sol.resets) + (if r.Ok? && core.reset != NullBinding then 1 else 0)
  {
    var entry := EntryIfExported(sol.symbols, "compileJSONCallback");
    r, cb := LegacyRunWithCallbacks(sol, core, callbacks, entry.value, behaviour, [Str(input), optimize]);
    if !callbacks.NullCallbacks? {
      assert [Str(input), optimize] + [Num(cb), Null] == [Str(input), optimize, Num(cb), Null];
    }
  }

  /** The bound `compileStandard(input, callbacks)` of bindings.ts: the winning entry point gets `[input, cb, null]`. */
  method LegacyCompileStandard(sol: SolJson, core: CoreBindings, input: string, callbacks: CallbacksArg, behaviour: EntryBehaviour)
    returns (r: Outcome<Option<string>>, ghost cb: nat)
    requires sol.Valid() && GetSupportedMethods(sol.symbols).compileJsonStandardSupported
    modifies sol, sol.heap
    ensures sol.Valid()
    ensures callbacks.NullCallbacks? ==>
              && r == Thrown(TypeErrorMessage) && sol.Mem() == old(sol.Mem())
              && sol.registrations == old(sol.registrations) && sol.removals == old(sol.removals)
              && sol.functions == old(sol.functions) && sol.invocations == old(sol.invocations)
              && sol.resets == old(sol.resets)
    ensures !callbacks.NullCallbacks? ==>
              && cb != 0 && cb !in old(sol.functions)
              && sol.registrations == old(sol.registrations) + [(cb, TrampolineSignature)]
              && sol.removals == old(sol.removals) + [cb]
              && sol.functions == old(sol.functions)
              && sol.invocations == old(sol.invocations)
                   + [(if Exported(sol.symbols, "solidity_compile") then "solidity_compile" else "compileStandard", [Str(input), Num(cb), Null])]
              && var (outcome, m) := CallOutcome(old(sol.Mem()), core.alloc, ResolveLegacyCallbacks(callbacks).value, Some(behaviour));
                 && r == outcome
                 && sol.heap[..] == m.bytes && sol.requests == m.requests
                 && sol.top == (if r.Ok? && core.reset != NullBinding then sol.heapBase else m.top)
                 && sol.resets == old(sol.resets) + (if r.Ok? && core.reset != NullBinding then 1 else 0)
  {
    var entry := BindCompileStandard(sol.symbols);
    r, cb := LegacyRunWithCallbacks(sol, core, callbacks, entry.value, behaviour, [Str(input)]);
    if !callbacks.NullCallbacks? {
      assert [Str(input)] + [Num(cb), Null] == [Str(input), Num(cb), Null];
    }
  }
}
