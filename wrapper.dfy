/**
 * The Standard-JSON request wrapper: a request goes straight to a native
 * `compileStandard` when there is one; otherwise it is validated in a fixed
 * order, its sources are translated, and it is sent to the callback tier or
 * the multi tier, whose output is translated back.
 *
 * JSON parsing and printing, the legacy output translator and the bound
 * entry points themselves are foreign: they are the fields of `Foreign`.
 */
module StandardWrapper {
  import opened Options
  import opened Records
  import opened Common
  import opened BindingHelpers
  import opened Compile
  import opened LegacyBindings

  /** `JSON.parse`: a value, or a SyntaxError with its message. */
  datatype ParseResult = Parsed(value: Value) | ParseError(message: string)

  datatype Foreign = Foreign(
    parse: string -> ParseResult,
    stringify: Value -> string,
    /** `translateJsonCompilerOutput(output, libraries)` */
    translate: (Value, Value) -> Value,
    /** The bound entry point named by the symbol, called with the arguments, the caller's callbacks among them where the tier takes them. */
    call: (string, seq<Value>) -> Outcome<Option<string>>)

  /** What `compile(input, readCallback)` yields: a fatal-error document, the compiler's text, or an exception. */
  datatype WrapperResult = Fatal(doc: FatalError) | Completed(output: Option<string>) | Raised(message: string)

  const InvalidJsonPrefix: string := "Invalid JSON supplied: "
  const InvalidOutputPrefix: string := "Compiler returned invalid JSON: "
  const OnlySolidity: string := "Only \"Solidity\" is supported as a language."
  const NoSources: string := "No input sources specified."
  const BadSources: string := "Failed to process sources."
  const BadOutput: string := "Failed to process output."
  const NoInterface: string := "Compiler does not support any known interface."

  /* ---------------------------------------------------------------------- */
  /* Feature flags                                                          */
  /* ---------------------------------------------------------------------- */

  datatype Features = Features(legacySingleInput: bool, multipleInputs: bool, importCallback: bool, nativeStandardJSON: bool)

  /** The `features` object of `wrapper`. */
  function FeaturesOf(flags: SupportedMethods): (f: Features)
    ensures f.multipleInputs <==> flags.compileJsonMultiSupported || flags.compileJsonStandardSupported
    ensures f.importCallback <==> flags.compileJsonCallbackSupported || flags.compileJsonStandardSupported
    ensures f.legacySingleInput == f.nativeStandardJSON == flags.compileJsonStandardSupported
  {
    Features(
      legacySingleInput := flags.compileJsonStandardSupported,
      multipleInputs := flags.compileJsonMultiSupported || flags.compileJsonStandardSupported,
      importCallback := flags.compileJsonCallbackSupported || flags.compileJsonStandardSupported,
      nativeStandardJSON := flags.compileJsonStandardSupported)
  }

  /**
   * With the flags `getSupportedMethods` computes, the four features coincide:
   * each holds iff `compileStandard` or `solidity_compile` is exported, even
   * for a module that only has the legacy entry points.
   */
  lemma FeaturesFromSymbols(symbols: Symbols)
    ensures var f := FeaturesOf(GetSupportedMethods(symbols));
            var standard := Exported(symbols, "compileStandard") || Exported(symbols, "solidity_compile");
            f.legacySingleInput == f.multipleInputs == f.importCallback == f.nativeStandardJSON == standard
  {
  }

  /* ---------------------------------------------------------------------- */
  /* Request helpers                                                        */
  /* ---------------------------------------------------------------------- */

  /** `input.settings?.optimizer?.enabled || false`. */
  function IsOptimizerEnabled(input: Value): (r: Value)
    requires !IsNil(input)
    ensures Truthy(r) <==>
              && !IsNil(Prop(input, "settings"))
              && !IsNil(Prop(Prop(input, "settings"), "optimizer"))
              && Truthy(Prop(Prop(Prop(input, "settings"), "optimizer"), "enabled"))
    ensures !Truthy(r) ==> r == Bool(false)
  {
    var settings := Prop(input, "settings");
    if IsNil(settings) then Bool(false)
    else
      var optimizer := Prop(settings, "optimizer");
      if IsNil(optimizer) then Bool(false)
      else
        var enabled := Prop(optimizer, "enabled");
        if Truthy(enabled) then enabled else Bool(false)
  }

  /** `librariesSupplied`: `settings.libraries`, `undefined` without settings. */
  function LibrariesSupplied(input: Value): (r: Value)
    requires !IsNil(input)
    ensures IsNil(Prop(input, "settings")) ==> r == Undefined
    ensures !IsNil(Prop(input, "settings")) ==> r == Prop(Prop(input, "settings"), "libraries")
  {
    var settings := Prop(input, "settings");
    if IsNil(settings) then Undefined else Prop(settings, "libraries")
  }

  /** What `translateSources` ends with. */
  datatype SourcesResult = SourcesMap(sources: Record<Value>) | SourcesNull | SourcesTypeError

  /** An entry `translateSources` copies: a non-nil value whose `content` is not `null`. */
  predicate Copyable(v: Value) {
    !IsNil(v) && Prop(v, "content") != Null
  }

  /** Entry `i` is the first one `translateSources` cannot copy. */
  predicate FirstBad(entries: Record<Value>, i: int) {
    0 <= i < |entries| && !Copyable(entries[i].1) && forall j :: 0 <= j < i ==> Copyable(entries[j].1)
  }

  /**
   * `translateSources` over the entries `for-in` visits: copy each `content`
   * under its key; a nil entry throws, a `null` content forces `null`.
   */
  function SourcesOf(entries: Record<Value>): (r: SourcesResult)
    ensures r.SourcesMap? <==> forall i :: 0 <= i < |entries| ==> Copyable(entries[i].1)
    ensures r.SourcesMap? ==> KeySet(r.sources) == KeySet(entries)
    ensures !r.SourcesMap? ==>
              exists i :: FirstBad(entries, i) && (r.SourcesTypeError? <==> IsNil(entries[i].1))
    decreases |entries|
  {
    if entries == [] then SourcesMap([])
    else
      var init := entries[..|entries| - 1];
      var (key, v) := entries[|entries| - 1];
      var prev := SourcesOf(init);
      assert entries == init + [(key, v)];
      if !prev.SourcesMap? then prev
      else if IsNil(v) then SourcesTypeError
      else if Prop(v, "content") == Null then SourcesNull
      else
        KeySetSnoc(init, (key, v));
        SourcesMap(Assign(prev.sources, key, Prop(v, "content")))
  }

  /** No later entry has the key of entry `i`: its value is the one `o[k] = v` leaves. */
  ghost predicate LastOfKey(entries: Record<Value>, i: int) {
    0 <= i < |entries| && forall j :: i < j < |entries| ==> entries[j].0 != entries[i].0
  }

  /** The last entry of a translated map is assigned over the translation of the others. */
  lemma SourcesOfLast(entries: Record<Value>)
    requires entries != [] && SourcesOf(entries).SourcesMap?
    ensures SourcesOf(entries[..|entries| - 1]).SourcesMap?
    ensures SourcesOf(entries).sources
            == Assign(SourcesOf(entries[..|entries| - 1]).sources, entries[|entries| - 1].0, Prop(entries[|entries| - 1].1, "content"))
  {
  }

  /** An entry last with its key among all entries is so among the first `n`, when it comes before `n`. */
  lemma LastOfKeyPrefix(entries: Record<Value>, i: int, n: int)
    requires LastOfKey(entries, i) && i < n <= |entries|
    ensures LastOfKey(entries[..n], i)
  {
    forall j | i < j < n ensures entries[..n][j].0 != entries[..n][i].0 {
      assert entries[..n][j] == entries[j];
    }
  }

  /** The key of an entry that no later entry repeats holds that entry's `content`. */
  lemma {:induction false} SourcesOfContentsAt(entries: Record<Value>, i: int)
    requires SourcesOf(entries).SourcesMap? && LastOfKey(entries, i)
    ensures Lookup(SourcesOf(entries).sources, entries[i].0) == Some(Prop(entries[i].1, "content"))
    decreases |entries|
  {
    var n := |entries| - 1;
    SourcesOfLast(entries);
    if i < n {
      LastOfKeyPrefix(entries, i, n);
      SourcesOfContentsAt(entries[..n], i);
      assert entries[..n][i] == entries[i];
      assert entries[n].0 != entries[i].0;
    }
  }

  /** Each key of a translated map holds the `content` of the last entry with that key. */
  lemma SourcesOfContents(entries: Record<Value>)
    requires SourcesOf(entries).SourcesMap?
    ensures forall i :: LastOfKey(entries, i) ==>
              Lookup(SourcesOf(entries).sources, entries[i].0) == Some(Prop(entries[i].1, "content"))
  {
    forall i | LastOfKey(entries, i)
      ensures Lookup(SourcesOf(entries).sources, entries[i].0) == Some(Prop(entries[i].1, "content"))
    {
      SourcesOfContentsAt(entries, i);
    }
  }

  /** With distinct keys, as `for-in` over an object gives, every source keeps its own content. */
  lemma SourcesOfDistinctContents(entries: Record<Value>)
    requires SourcesOf(entries).SourcesMap? && DistinctKeys(entries)
    ensures forall i :: 0 <= i < |entries| ==>
              Lookup(SourcesOf(entries).sources, entries[i].0) == Some(Prop(entries[i].1, "content"))
  {
    SourcesOfContents(entries);
    forall i | 0 <= i < |entries| ensures LastOfKey(entries, i) { }
    assert forall i :: 0 <= i < |entries| ==> LastOfKey(entries, i);
  }

  /** One more entry on a copyable prefix. */
  lemma SourcesOfSnoc(entries: Record<Value>, i: nat)
    requires i < |entries| && SourcesOf(entries[..i]).SourcesMap?
    ensures var (key, v) := entries[i];
            SourcesOf(entries[..i + 1]) ==
              if IsNil(v) then SourcesTypeError
              else if Prop(v, "content") == Null then SourcesNull
              else SourcesMap(Assign(SourcesOf(entries[..i]).sources, key, Prop(v, "content")))
  {
    assert entries[..i + 1][..i] == entries[..i];
    assert entries[..i + 1][i] == entries[i];
  }

  /** `translateSources(input)`, given `input.sources`: the `for-in` loop with its early return. */
  method TranslateSources(sourcesValue: Value) returns (r: SourcesResult)
    ensures r == SourcesOf(ForInEntries(sourcesValue))
  {
    var entries := ForInEntries(sourcesValue);
    var sources: Record<Value> := [];
    for i := 0 to |entries|
      invariant SourcesOf(entries[..i]) == SourcesMap(sources)
    {
      SourcesOfSnoc(entries, i);
      var (key, v) := entries[i];
      if IsNil(v) {
        SourcesPrefixFails(entries, i + 1);
        return SourcesTypeError;
      }
      if Prop(v, "content") != Null {
        sources := Assign(sources, key, Prop(v, "content"));
      } else {
        SourcesPrefixFails(entries, i + 1);
        return SourcesNull;
      }
    }
    assert entries[..|entries|] == entries;
    r := SourcesMap(sources);
  }

  /** Once a prefix fails, the whole sequence fails the same way: both stop at the same first bad entry. */
  lemma SourcesPrefixFails(entries: Record<Value>, n: nat)
    requires n <= |entries| && !SourcesOf(entries[..n]).SourcesMap?
    ensures SourcesOf(entries) == SourcesOf(entries[..n])
  {
    var p := entries[..n];
    var i :| FirstBad(p, i) && (SourcesOf(p).SourcesTypeError? <==> IsNil(p[i].1));
    FirstBadPrefix(entries, n, i);
    assert !SourcesOf(entries).SourcesMap?;
    var k :| FirstBad(entries, k) && (SourcesOf(entries).SourcesTypeError? <==> IsNil(entries[k].1));
    FirstBadUnique(entries, i, k);
    SameFailure(SourcesOf(entries), SourcesOf(p));
  }

  lemma FirstBadPrefix(entries: Record<Value>, n: nat, i: int)
    requires n <= |entries| && FirstBad(entries[..n], i)
    ensures FirstBad(entries, i) && entries[..n][i] == entries[i]
  {
    forall j | 0 <= j < i
      ensures Copyable(entries[j].1)
    {
      assert entries[..n][j] == entries[j];
    }
  }

  lemma FirstBadUnique(entries: Record<Value>, i: int, k: int)
    requires FirstBad(entries, i) && FirstBad(entries, k)
    ensures i == k
  {
  }

  lemma SameFailure(a: SourcesResult, b: SourcesResult)
    requires !a.SourcesMap? && !b.SourcesMap? && (a.SourcesTypeError? <==> b.SourcesTypeError?)
    ensures a == b
  {
  }

  /* ---------------------------------------------------------------------- */
  /* The wrapper                                                            */
  /* ---------------------------------------------------------------------- */

  /**
   * A request the wrapper accepts for a legacy tier: it parses to a non-nil
   * value naming Solidity, with non-empty sources every entry of which has a
   * non-`null` content.
   */
  ghost predicate AcceptedRequest(inputRaw: string, env: Foreign) {
    var parsed := env.parse(inputRaw);
    && parsed.Parsed?
    && !IsNil(parsed.value)
    && Prop(parsed.value, "language") == Str("Solidity")
    && !IsNil(Prop(parsed.value, "sources"))
    && Prop(Prop(parsed.value, "sources"), "length") != Num(0)
    && ForInEntries(Prop(parsed.value, "sources")) != []
    && forall i :: 0 <= i < |ForInEntries(Prop(parsed.value, "sources"))| ==>
         Copyable(ForInEntries(Prop(parsed.value, "sources"))[i].1)
  }

  /** The outcome of the request checks: a fatal message, an exception, or what the legacy tiers are given. */
  datatype Checked =
    | Rejected(message: string)
    | Fails(message: string)
    | Accepted(sources: Record<Value>, optimize: Value, libraries: Value)

  /**
   * The checks of `compileStandardWrapper` in their order: JSON, language,
   * presence of sources, then the translated sources.
   */
  function CheckRequest(inputRaw: string, env: Foreign): (c: Checked)
    ensures c.Rejected? ==> c.message in {OnlySolidity, NoSources, BadSources} || InvalidJsonPrefix <= c.message
    ensures c.Fails? ==> c.message == TypeErrorMessage
    ensures c.Accepted? <==> AcceptedRequest(inputRaw, env)
    ensures c.Accepted? ==> |c.sources| != 0 && (Truthy(c.optimize) || c.optimize == Bool(false))
  {
    var parsed := env.parse(inputRaw);
    if parsed.ParseError? then
      assert InvalidJsonPrefix <= InvalidJsonPrefix + parsed.message;
      Rejected(InvalidJsonPrefix + parsed.message)
    else
      var input := parsed.value;
      if IsNil(input) then Fails(TypeErrorMessage)
      else if Prop(input, "language") != Str("Solidity") then Rejected(OnlySolidity)
      else
        var sourcesValue := Prop(input, "sources");
        if IsNil(sourcesValue) || Prop(sourcesValue, "length") == Num(0) then Rejected(NoSources)
        else
          var sources := SourcesOf(ForInEntries(sourcesValue));
          if sources.SourcesTypeError? then Fails(TypeErrorMessage)
          else
            var optimize := IsOptimizerEnabled(input);
            var libraries := LibrariesSupplied(input);
            if sources.SourcesNull? then Rejected(BadSources)
            else
              KeySetEmpty(sources.sources);
              KeySetEmpty(ForInEntries(sourcesValue));
              if |sources.sources| == 0 then Rejected(BadSources)
              else Accepted(sources.sources, optimize, libraries)
  }

  /** The request parses to a non-nil value whose language is Solidity. */
  ghost predicate NamesSolidity(parsed: ParseResult) {
    parsed.Parsed? && !IsNil(parsed.value) && Prop(parsed.value, "language") == Str("Solidity")
  }

  /** It also has non-nil sources whose `length` is not 0. */
  ghost predicate HasSources(parsed: ParseResult) {
    NamesSolidity(parsed) && !IsNil(Prop(parsed.value, "sources")) && Prop(Prop(parsed.value, "sources"), "length") != Num(0)
  }

  /** What `translateSources` makes of the request's sources. */
  ghost function TranslatedSources(parsed: ParseResult): SourcesResult
    requires HasSources(parsed)
  {
    SourcesOf(ForInEntries(Prop(parsed.value, "sources")))
  }

  /**
   * Each check of `compileStandardWrapper`, once the earlier ones have passed,
   * decides the outcome with its own message: invalid JSON, a nil request, a
   * language other than Solidity, missing sources, then sources that cannot be
   * translated or translate to nothing.
   */
  lemma RequestChecksInOrder(inputRaw: string, env: Foreign)
    ensures var parsed := env.parse(inputRaw);
      parsed.ParseError? ==> CheckRequest(inputRaw, env) == Rejected(InvalidJsonPrefix + parsed.message)
    ensures var parsed := env.parse(inputRaw);
      parsed.Parsed? && IsNil(parsed.value) ==> CheckRequest(inputRaw, env) == Fails(TypeErrorMessage)
    ensures var parsed := env.parse(inputRaw);
      parsed.Parsed? && !IsNil(parsed.value) && !NamesSolidity(parsed) ==> CheckRequest(inputRaw, env) == Rejected(OnlySolidity)
    ensures var parsed := env.parse(inputRaw);
      NamesSolidity(parsed) && !HasSources(parsed) ==> CheckRequest(inputRaw, env) == Rejected(NoSources)
    ensures var parsed := env.parse(inputRaw);
      HasSources(parsed) && TranslatedSources(parsed).SourcesTypeError? ==> CheckRequest(inputRaw, env) == Fails(TypeErrorMessage)
    ensures var parsed := env.parse(inputRaw);
      HasSources(parsed) && (TranslatedSources(parsed).SourcesNull? || TranslatedSources(parsed) == SourcesMap([])) ==>
        CheckRequest(inputRaw, env) == Rejected(BadSources)
    ensures var parsed := env.parse(inputRaw);
      HasSources(parsed) && TranslatedSources(parsed).SourcesMap? && TranslatedSources(parsed).sources != [] ==>
        CheckRequest(inputRaw, env)
          == Accepted(TranslatedSources(parsed).sources, IsOptimizerEnabled(parsed.value), LibrariesSupplied(parsed.value))
  {
  }

  /** `translateOutput` of what an entry point returned (`JSON.parse(undefined)` parses the text "undefined"). */
  function TranslateOutput(output: Outcome<Option<string>>, libraries: Value, env: Foreign): (r: WrapperResult)
    ensures output.Thrown? ==> r == Raised(output.message)
    ensures r.Completed? ==> output.Ok? && r.output.Some?
    ensures r.Fatal? ==> output.Ok? && (r.doc == FormatFatalError(BadOutput)
                                        || exists m :: r.doc == FormatFatalError(m) && InvalidOutputPrefix <= m)
    ensures output.Ok? ==>
              var parsed := env.parse(output.value.GetOr("undefined"));
              && (parsed.ParseError? ==> r == Fatal(FormatFatalError(InvalidOutputPrefix + parsed.message)))
              && (parsed.Parsed? && IsNil(env.translate(parsed.value, libraries)) ==> r == Fatal(FormatFatalError(BadOutput)))
              && (parsed.Parsed? && !IsNil(env.translate(parsed.value, libraries)) ==>
                    r == Completed(Some(env.stringify(env.translate(parsed.value, libraries)))))
  {
    if output.Thrown? then Raised(output.message)
    else
      var parsed := env.parse(output.value.GetOr("undefined"));
      if parsed.ParseError? then
        assert InvalidOutputPrefix <= InvalidOutputPrefix + parsed.message;
        Fatal(FormatFatalError(InvalidOutputPrefix + parsed.message))
      else
        var translated := env.translate(parsed.value, libraries);
        if IsNil(translated) then Fatal(FormatFatalError(BadOutput))
        else Completed(Some(env.stringify(translated)))
  }

  /** `JSON.stringify({sources: sources})`. */
  function SourcesJson(sources: Record<Value>, env: Foreign): string {
    env.stringify(Obj([("sources", Obj(sources))]))
  }

  /**
   * `compileStandardWrapper(compile, inputRaw, readCallback)`: the native and the
   * callback tiers receive `readCallback`, the multi tier does not.
   */
  function CompileStandardWrapper(b: CompileBindings, inputRaw: string, readCallback: Value, env: Foreign): (r: WrapperResult)
    ensures b.compileStandard.Some? ==> !r.Fatal?
    ensures r.Fatal? ==> exists m :: r.doc == FormatFatalError(m)
                            && (m in {OnlySolidity, NoSources, BadSources, BadOutput, NoInterface}
                                || InvalidJsonPrefix <= m || InvalidOutputPrefix <= m)
  {
    if b.compileStandard.Some? then
      var output := env.call(b.compileStandard.value, [Str(inputRaw), readCallback]);
      if output.Ok? then Completed(output.value) else Raised(output.message)
    else
      var checked := CheckRequest(inputRaw, env);
      if checked.Rejected? then Fatal(FormatFatalError(checked.message))
      else if checked.Fails? then Raised(checked.message)
      else if b.compileJsonCallback.Some? then
        TranslateOutput(env.call(b.compileJsonCallback.value, [Str(SourcesJson(checked.sources, env)), checked.optimize, readCallback]), checked.libraries, env)
      else if b.compileJsonMulti.Some? then
        TranslateOutput(env.call(b.compileJsonMulti.value, [Str(SourcesJson(checked.sources, env)), checked.optimize]), checked.libraries, env)
      else Fatal(FormatFatalError(NoInterface))
  }

  /** A native `compileStandard` gets the raw input as is: parsing and validation never happen. */
  lemma StandardBypassesValidation(b: CompileBindings, inputRaw: string, readCallback: Value, env1: Foreign, env2: Foreign)
    requires b.compileStandard.Some? && env1.call == env2.call
    ensures CompileStandardWrapper(b, inputRaw, readCallback, env1) == CompileStandardWrapper(b, inputRaw, readCallback, env2)
    ensures env1.call(b.compileStandard.value, [Str(inputRaw), readCallback]).Ok? ==>
              CompileStandardWrapper(b, inputRaw, readCallback, env1) == Completed(env1.call(b.compileStandard.value, [Str(inputRaw), readCallback]).value)
  {
  }

  /**
   * Without a native `compileStandard`, a request that is not accepted ends
   * in a fatal-error document or a TypeError, whatever the entry points,
   * the printer and the output translator would do.
   */
  lemma RejectedRequestsNeverCompile(b: CompileBindings, inputRaw: string, readCallback: Value, env1: Foreign, env2: Foreign)
    requires b.compileStandard.None? && !AcceptedRequest(inputRaw, env1)
    requires env1.parse == env2.parse
    ensures CompileStandardWrapper(b, inputRaw, readCallback, env1) == CompileStandardWrapper(b, inputRaw, readCallback, env2)
    ensures CompileStandardWrapper(b, inputRaw, readCallback, env1).Fatal? || CompileStandardWrapper(b, inputRaw, readCallback, env1) == Raised(TypeErrorMessage)
  {
    assert CheckRequest(inputRaw, env1) == CheckRequest(inputRaw, env2);
  }

  /** The arguments the callback and multi tiers share for an accepted request: `[JSON of {sources}, optimize]`. */
  function CallArguments(inputRaw: string, env: Foreign): (args: seq<Value>)
    requires AcceptedRequest(inputRaw, env)
    ensures |args| == 2 && args[0].Str?
    ensures Truthy(args[1]) || args[1] == Bool(false)
    ensures var parsed := env.parse(inputRaw);
            && HasSources(parsed) && TranslatedSources(parsed).SourcesMap?
            && args == [Str(SourcesJson(TranslatedSources(parsed).sources, env)), IsOptimizerEnabled(parsed.value)]
  {
    RequestChecksInOrder(inputRaw, env);
    var checked := CheckRequest(inputRaw, env);
    [Str(SourcesJson(checked.sources, env)), checked.optimize]
  }

  /** For an accepted request, the callback tier is preferred: the multi tier is then never consulted. */
  lemma CallbackTierPreferred(b: CompileBindings, inputRaw: string, readCallback: Value, env: Foreign)
    requires b.compileStandard.None? && b.compileJsonCallback.Some?
    requires AcceptedRequest(inputRaw, env)
    ensures CompileStandardWrapper(b, inputRaw, readCallback, env) == CompileStandardWrapper(b.(compileJsonMulti := None), inputRaw, readCallback, env)
    ensures CompileStandardWrapper(b, inputRaw, readCallback, env) ==
              TranslateOutput(env.call(b.compileJsonCallback.value, CallArguments(inputRaw, env) + [readCallback]), CheckRequest(inputRaw, env).libraries, env)
  {
    var args := CallArguments(inputRaw, env);
    assert args + [readCallback] == [args[0], args[1], readCallback];
  }

  /**
   * Without the callback tier an accepted request goes to the multi tier, which
   * never sees the caller's callbacks, and without either it is refused.
   */
  lemma MultiTierOrNone(b: CompileBindings, inputRaw: string, readCallback: Value, env: Foreign)
    requires b.compileStandard.None? && b.compileJsonCallback.None?
    requires AcceptedRequest(inputRaw, env)
    ensures b.compileJsonMulti.Some? ==>
              CompileStandardWrapper(b, inputRaw, readCallback, env) ==
                TranslateOutput(env.call(b.compileJsonMulti.value, CallArguments(inputRaw, env)), CheckRequest(inputRaw, env).libraries, env)
    ensures b.compileJsonMulti.None? ==> CompileStandardWrapper(b, inputRaw, readCallback, env) == Fatal(FormatFatalError(NoInterface))
    ensures forall other :: CompileStandardWrapper(b, inputRaw, other, env) == CompileStandardWrapper(b, inputRaw, readCallback, env)
  {
  }

  /** The message of a fatal result reads back out of the document, and is one of the wrapper's. */
  lemma FatalMessages(b: CompileBindings, inputRaw: string, readCallback: Value, env: Foreign)
    requires CompileStandardWrapper(b, inputRaw, readCallback, env).Fatal?
    ensures var m := MessageOf(CompileStandardWrapper(b, inputRaw, readCallback, env).doc);
            && m.Some?
            && (m.value in {OnlySolidity, NoSources, BadSources, BadOutput, NoInterface}
                || InvalidJsonPrefix <= m.value || InvalidOutputPrefix <= m.value)
  {
    var doc := CompileStandardWrapper(b, inputRaw, readCallback, env).doc;
    var m :| doc == FormatFatalError(m)
             && (m in {OnlySolidity, NoSources, BadSources, BadOutput, NoInterface}
                 || InvalidJsonPrefix <= m || InvalidOutputPrefix <= m);
    assert MessageOf(doc) == Some(m);
  }
}
