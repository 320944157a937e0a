/**
 * The compile-call protocol: user callbacks are wrapped into a single
 * trampoline that the compiler calls back through the function table; the
 * trampoline reads the request out of linear memory, asks the right callback
 * and writes the answer back as C strings. Around the compile call the
 * trampoline is registered, always removed again, and the compiler's
 * allocations are reset after a normal return.
 *
 * The compiler's entry point is foreign: its behaviour is a parameter, the
 * sequence of trampoline calls it makes followed by its result.
 */
module Compile {
  import opened Options
  import opened Common
  import opened BindingHelpers
  import opened Core

  /** A JavaScript completion: a value, or an exception with its message. */
  datatype Outcome<T> = Ok(value: T) | Thrown(message: string)

  /** The UTF-8 bytes of an ASCII string. */
  function Ascii(s: string): (b: Bytes)
    ensures |b| == |s|
    ensures forall i :: 0 <= i < |s| ==> b[i] as int == s[i] as int % 256
  {
    seq(|s|, i requires 0 <= i < |s| => (s[i] as int % 256) as Byte)
  }

  const InvalidCallbackObject: string := "Invalid callback object specified."
  const ImportNotSupported: string := "File import callback not supported"
  const SmtSolverNotSupported: string := "SMT solver callback not supported"
  const InvalidCallbackKind: string := "Invalid callback kind specified."
  const ContextMustBeNull: string := "Callback context must be null."
  const TrampolineSignature: string := "viiiii"

  /**
   * What a callback returned: an object whose `contents`/`error` are present
   * here exactly when they are strings, a nil value, or an exception.
   */
  datatype Reply =
    | Reply(contents: Option<Bytes>, error: Option<Bytes>)
    | NilReply
    | Throws(message: string)

  type Responder = Bytes -> Reply

  /** A property of the callbacks object: `undefined`, a function, or any other value. */
  datatype Handler = Unset | Calls(respond: Responder) | NotCallable

  datatype Callbacks = Callbacks(importHandler: Handler, smtSolver: Handler)

  const NoHandlers: Callbacks := Callbacks(Unset, Unset)

  /** The `callbacks` argument as the bridge distinguishes it. */
  datatype CallbacksArg =
    | NoCallbacks                          // `undefined`
    | NullCallbacks                        // `null`
    | OtherFalsy                           // `false`, `0`, `''`
    | NotAnObject                          // a truthy value whose `typeof` is not 'object' (a function, say)
    | CallbackObject(callbacks: Callbacks) // a truthy object

  /** The `callbacks` check of bindings/compile.ts: truthy non-objects are refused, falsy values act as `{}`. */
  function ResolveCallbacks(arg: CallbacksArg): (r: Outcome<Callbacks>)
    ensures r.Thrown? <==> arg.NotAnObject?
    ensures r.Thrown? ==> r.message == InvalidCallbackObject
    ensures arg.CallbackObject? ==> r == Ok(arg.callbacks)
    ensures !arg.CallbackObject? && r.Ok? ==> r.value == NoHandlers
  {
    match arg
    case NotAnObject => Thrown(InvalidCallbackObject)
    case CallbackObject(c) => Ok(c)
    case _ => Ok(NoHandlers)
  }

  /** The default responder's answer. */
  function ErrorReply(message: string): Reply {
    Reply(None, Some(Ascii(message)))
  }

  /** Calling a handler (or the default responder installed for an `undefined` one). */
  function Respond(h: Handler, defaultMessage: string, data: Bytes): Reply {
    match h
    case Unset => ErrorReply(defaultMessage)
    case Calls(f) => f(data)
    case NotCallable => Throws(TypeErrorMessage)
  }

  /** `singleCallback`: route on the request kind. */
  function Dispatch(c: Callbacks, kind: Bytes, data: Bytes): (r: Reply)
    ensures kind != Ascii("source") && kind != Ascii("smt-query") ==> r == Throws(InvalidCallbackKind)
  {
    if kind == Ascii("source") then Respond(c.importHandler, ImportNotSupported, data)
    else if kind == Ascii("smt-query") then Respond(c.smtSolver, SmtSolverNotSupported, data)
    else Throws(InvalidCallbackKind)
  }

  /** With no handlers, each known kind is answered by its fixed error and never with contents. */
  lemma DefaultReplies(data: Bytes)
    ensures Dispatch(NoHandlers, Ascii("source"), data) == Reply(None, Some(Ascii(ImportNotSupported)))
    ensures Dispatch(NoHandlers, Ascii("smt-query"), data) == Reply(None, Some(Ascii(SmtSolverNotSupported)))
  {
    assert Ascii("smt-query")[1] != Ascii("source")[1];
  }

  /** A request goes to the import callback or the SMT callback according to its kind, and to no other. */
  lemma DispatchRoutes(c: Callbacks, d: Callbacks, data: Bytes)
    ensures c.importHandler == d.importHandler ==> Dispatch(c, Ascii("source"), data) == Dispatch(d, Ascii("source"), data)
    ensures c.smtSolver == d.smtSolver ==> Dispatch(c, Ascii("smt-query"), data) == Dispatch(d, Ascii("smt-query"), data)
  {
    assert Ascii("smt-query")[1] != Ascii("source")[1];
  }

  /** One call of the trampoline: the context pointer, pointers to kind and data, and the two out-slots. */
  datatype Request = Request(context: int, kind: nat, data: nat, contents: int, error: int)

  /** The memory effect of answering: `contents` to its slot, then `error` to its slot, each only when present. */
  function WriteReply(m: Memory, alloc: Binding, contents: Option<Bytes>, error: Option<Bytes>, req: Request): (r: Memory)
    ensures |r.bytes| == |m.bytes|
    ensures r.requests == m.requests
                          + (if contents.Some? then [(alloc, |contents.value| + 1)] else [])
                          + (if error.Some? then [(alloc, |error.value| + 1)] else [])
  {
    var m1 := if contents.Some? then CopyToCStringSpec(m, alloc, contents.value, req.contents) else m;
    if error.Some? then CopyToCStringSpec(m1, alloc, error.value, req.error) else m1
  }

  /**
   * The trampoline on memory `m`: it refuses a non-null context, reads kind
   * and data as C strings, asks the callbacks, and writes the reply back.
   */
  function Serve(m: Memory, alloc: Binding, c: Callbacks, req: Request): (r: Outcome<Memory>)
    ensures req.context != 0 ==> r == Thrown(ContextMustBeNull)
    ensures r.Ok? ==> |r.value.bytes| == |m.bytes|
  {
    if req.context != 0 then Thrown(ContextMustBeNull)
    else
      var reply := Dispatch(c, CString(m.bytes, req.kind), CString(m.bytes, req.data));
      if reply.Throws? then Thrown(reply.message)
      else if reply.NilReply? then Thrown(TypeErrorMessage)
      else Ok(WriteReply(m, alloc, reply.contents, reply.error, req))
  }

  /**
   * An import answered with contents only: the contents slot then points at
   * a copy of the contents, provided the allocation fits and the slot lies
   * outside the new buffer.
   */
  lemma ServeSourceRoundTrip(m: Memory, alloc: Binding, c: Callbacks, req: Request, source: Bytes)
    requires req.context == 0 && CString(m.bytes, req.kind) == Ascii("source")
    requires c.importHandler.Calls?
    requires c.importHandler.respond(CString(m.bytes, req.data)) == Reply(Some(source), None)
    requires 0 < m.top && m.top + |source| + 1 <= |m.bytes| <= Int32Limit && 0 !in source
    requires SlotInside(req.contents, |m.bytes|)
    requires SlotAddress(req.contents).value + 4 <= m.top
    ensures Serve(m, alloc, c, req).Ok?
    ensures LoadWord(Serve(m, alloc, c, req).value.bytes, req.contents) == Some(m.top)
    ensures CString(Serve(m, alloc, c, req).value.bytes, m.top) == source
  {
    CopyToCStringRoundTrip(m, alloc, source, req.contents);
  }

  /** Where serving a sequence of requests stops: the memory then, and the first exception if any. */
  datatype Served = Served(memory: Memory, failure: Option<string>)

  function ServeAll(m: Memory, alloc: Binding, c: Callbacks, reqs: seq<Request>): (s: Served)
    ensures s.failure.None? ==> |s.memory.bytes| == |m.bytes|
    decreases |reqs|
  {
    if reqs == [] then Served(m, None)
    else
      var r := Serve(m, alloc, c, reqs[0]);
      if r.Thrown? then Served(m, Some(r.message)) else ServeAll(r.value, alloc, c, reqs[1..])
  }

  /**
   * A request with a non-null context, reached after the requests before it
   * were served without an exception, stops the compile call with
   * 'Callback context must be null.'.
   */
  lemma {:induction false} NonNullContextStops(m: Memory, alloc: Binding, c: Callbacks, reqs: seq<Request>, k: nat)
    requires k < |reqs| && reqs[k].context != 0
    requires ServeAll(m, alloc, c, reqs[..k]).failure.None?
    ensures ServeAll(m, alloc, c, reqs).failure == Some(ContextMustBeNull)
    decreases k
  {
    if k == 0 {
      assert Serve(m, alloc, c, reqs[0]) == Thrown(ContextMustBeNull);
    } else {
      var r := Serve(m, alloc, c, reqs[0]);
      assert reqs[..k][0] == reqs[0];
      assert r.Ok?;
      assert reqs[..k][1..] == reqs[1..][..k - 1];
      NonNullContextStops(r.value, alloc, c, reqs[1..], k - 1);
    }
  }

  /** One more request served: it either stops the sequence or hands its memory to the rest. */
  lemma ServeAllStep(m: Memory, alloc: Binding, c: Callbacks, reqs: seq<Request>, i: nat)
    requires i < |reqs|
    ensures Serve(m, alloc, c, reqs[i]).Thrown? ==>
              ServeAll(m, alloc, c, reqs[i..]) == Served(m, Some(Serve(m, alloc, c, reqs[i]).message))
    ensures Serve(m, alloc, c, reqs[i]).Ok? ==>
              ServeAll(m, alloc, c, reqs[i..]) == ServeAll(Serve(m, alloc, c, reqs[i]).value, alloc, c, reqs[i + 1..])
  {
    assert reqs[i..][0] == reqs[i] && reqs[i..][1..] == reqs[i + 1..];
  }

  /** The foreign entry point's result. */
  datatype EntryResult = Returns(output: string) | Raises(message: string)

  /** How the foreign entry point behaves: the trampoline calls it makes, then its result. */
  datatype EntryBehaviour = EntryBehaviour(requests: seq<Request>, result: EntryResult)

  /**
   * The compile call's completion (`Ok(None)` for the `undefined` of a
   * missing entry point) and the memory afterwards, before any reset. An
   * exception thrown by the trampoline propagates out of the call.
   */
  function CallOutcome(m: Memory, alloc: Binding, c: Callbacks, entry: Option<EntryBehaviour>): (r: (Outcome<Option<string>>, Memory))
    ensures entry.None? ==> r == (Ok(None), m)
    ensures entry.Some? && r.0.Ok? ==> r.0.value.Some? && entry.value.result.Returns?
  {
    if entry.None? then (Ok(None), m)
    else
      var served := ServeAll(m, alloc, c, entry.value.requests);
      if served.failure.Some? then (Thrown(served.failure.value), served.memory)
      else match entry.value.result
        case Returns(output) => (Ok(Some(output)), served.memory)
        case Raises(message) => (Thrown(message), served.memory)
  }

  /** The closure `wrapCallbackWithKind` returns, called by the compiler with `req`. */
  method Trampoline(sol: SolJson, alloc: Binding, c: Callbacks, req: Request) returns (r: Outcome<()>)
    requires sol.Valid()
    modifies sol, sol.heap
    ensures sol.Valid()
    ensures r.Thrown? <==> Serve(old(sol.Mem()), alloc, c, req).Thrown?
    ensures r.Thrown? ==> r.message == Serve(old(sol.Mem()), alloc, c, req).message && sol.Mem() == old(sol.Mem())
    ensures r.Ok? ==> sol.Mem() == Serve(old(sol.Mem()), alloc, c, req).value
    ensures sol.functions == old(sol.functions) && sol.nextFunction == old(sol.nextFunction)
    ensures sol.registrations == old(sol.registrations) && sol.removals == old(sol.removals)
    ensures sol.invocations == old(sol.invocations) && sol.resets == old(sol.resets)
  {
    if req.context != 0 {
      return Thrown(ContextMustBeNull);
    }
    var reply := Dispatch(c, CString(sol.heap[..], req.kind), CString(sol.heap[..], req.data));
    if reply.Throws? {
      return Thrown(reply.message);
    }
    if reply.NilReply? {
      return Thrown(TypeErrorMessage);
    }
    ghost var m0 := sol.Mem();
    if reply.contents.Some? {
      sol.CopyToCString(alloc, reply.contents.value, req.contents);
    }
    if reply.error.Some? {
      sol.CopyToCString(alloc, reply.error.value, req.error);
    }
    assert sol.Mem() == WriteReply(m0, alloc, reply.contents, reply.error, req);
    r := Ok(());
  }

  /** Calling the bound entry point `symbol` with `args`; it calls the trampoline back as `entry` says. */
  method CallEntry(sol: SolJson, alloc: Binding, c: Callbacks, symbol: string, entry: EntryBehaviour, args: seq<Value>)
    returns (r: Outcome<Option<string>>)
    requires sol.Valid()
    modifies sol, sol.heap
    ensures sol.Valid()
    ensures (r, sol.Mem()) == CallOutcome(old(sol.Mem()), alloc, c, Some(entry))
    ensures sol.invocations == old(sol.invocations) + [(symbol, args)]
    ensures sol.functions == old(sol.functions) && sol.nextFunction == old(sol.nextFunction)
    ensures sol.registrations == old(sol.registrations) && sol.removals == old(sol.removals)
    ensures sol.resets == old(sol.resets)
  {
    sol.invocations := sol.invocations + [(symbol, args)];
    var reqs := entry.requests;
    var i := 0;
    while i < |reqs|
      invariant 0 <= i <= |reqs|
      invariant sol.Valid()
      invariant ServeAll(old(sol.Mem()), alloc, c, reqs) == ServeAll(sol.Mem(), alloc, c, reqs[i..])
      invariant sol.invocations == old(sol.invocations) + [(symbol, args)]
      invariant sol.functions == old(sol.functions) && sol.nextFunction == old(sol.nextFunction)
      invariant sol.registrations == old(sol.registrations) && sol.removals == old(sol.removals)
      invariant sol.resets == old(sol.resets)
    {
      ServeAllStep(sol.Mem(), alloc, c, reqs, i);
      var t := Trampoline(sol, alloc, c, reqs[i]);
      if t.Thrown? {
        return Thrown(t.message);
      }
      i := i + 1;
    }
    assert reqs[i..] == [];
    match entry.result
    case Returns(output) => r := Ok(Some(output));
    case Raises(message) => r := Thrown(message);
  }

  /**
   * The protocol once the callbacks are known: register the trampoline,
   * call the entry point (if any) with `args + [cb, null]`, remove the
   * trampoline on every path, then reset if bound and the call returned.
   */
  method RunProtocol(sol: SolJson, core: CoreBindings, c: Callbacks, compile: Option<(string, EntryBehaviour)>, args: seq<Value>)
    returns (r: Outcome<Option<string>>, ghost cb: nat)
    requires sol.Valid()
    modifies sol, sol.heap
    ensures sol.Valid()
    ensures cb != 0 && cb !in old(sol.functions)
    ensures sol.registrations == old(sol.registrations) + [(cb, TrampolineSignature)]
    ensures sol.removals == old(sol.removals) + [cb]
    ensures sol.functions == old(sol.functions)
    ensures compile.Some? ==> sol.invocations == old(sol.invocations) + [(compile.value.0, args + [Num(cb), Null])]
    ensures compile.None? ==> sol.invocations == old(sol.invocations)
    ensures var entry := if compile.Some? then Some(compile.value.1) else None;
            var (outcome, m) := CallOutcome(old(sol.Mem()), core.alloc, c, entry);
            && r == outcome
            && sol.heap[..] == m.bytes && sol.requests == m.requests
            && sol.top == (if r.Ok? && core.reset != NullBinding then sol.heapBase else m.top)
    ensures sol.resets == old(sol.resets) + (if r.Ok? && core.reset != NullBinding then 1 else 0)
  {
    var p := sol.AddFunction(TrampolineSignature);
    cb := p;
    var callArgs := args + [Num(p), Null];
    if compile.Some? {
      r := CallEntry(sol, core.alloc, c, compile.value.0, compile.value.1, callArgs);
    } else {
      r := Ok(None);
    }
    sol.RemoveFunction(p);
    if r.Thrown? {
      return;
    }
    if core.reset != NullBinding {
      sol.Reset();
    }
  }

  /** `runWithCallbacks` of bindings/compile.ts: the callbacks check, then the protocol. */
  method RunWithCallbacks(sol: SolJson, core: CoreBindings, callbacks: CallbacksArg, compile: Option<(string, EntryBehaviour)>, args: seq<Value>)
    returns (r: Outcome<Option<string>>, ghost cb: nat)
    requires sol.Valid()
    modifies sol, sol.heap
    ensures sol.Valid()
    ensures ResolveCallbacks(callbacks).Thrown? ==>
              && r == Thrown(InvalidCallbackObject) && sol.Mem() == old(sol.Mem())
              && sol.registrations == old(sol.registrations) && sol.removals == old(sol.removals)
              && sol.functions == old(sol.functions) && sol.invocations == old(sol.invocations)
              && sol.resets == old(sol.resets)
    ensures ResolveCallbacks(callbacks).Ok? ==>
              && cb != 0 && cb !in old(sol.functions)
              && sol.registrations == old(sol.registrations) + [(cb, TrampolineSignature)]
              && sol.removals == old(sol.removals) + [cb]
              && sol.functions == old(sol.functions)
              && (compile.Some? ==> sol.invocations == old(sol.invocations) + [(compile.value.0, args + [Num(cb), Null])])
              && (compile.None? ==> sol.invocations == old(sol.invocations))
              && var entry := if compile.Some? then Some(compile.value.1) else None;
                 var (outcome, m) := CallOutcome(old(sol.Mem()), core.alloc, ResolveCallbacks(callbacks).value, entry);
                 && r == outcome
                 && sol.heap[..] == m.bytes && sol.requests == m.requests
                 && sol.top == (if r.Ok? && core.reset != NullBinding then sol.heapBase else m.top)
                 && sol.resets == old(sol.resets) + (if r.Ok? && core.reset != NullBinding then 1 else 0)
  {
    var resolved := ResolveCallbacks(callbacks);
    if resolved.Thrown? {
      return Thrown(resolved.message), 0;
    }
    r, cb := RunProtocol(sol, core, resolved.value, compile, args);
  }

  /**
   * The bound `compileStandard(input, callbacks)`: `runWithCallbacks` with
   * `[input]`; without `solidity_compile` nothing is called and the output is
   * `undefined`, but the trampoline is still registered and removed and the
   * reset still happens.
   */
  method CompileStandard(sol: SolJson, core: CoreBindings, input: string, callbacks: CallbacksArg, behaviour: EntryBehaviour)
    returns (r: Outcome<Option<string>>, ghost cb: nat)
    requires sol.Valid()
    modifies sol, sol.heap
    ensures sol.Valid()
    ensures callbacks.NotAnObject? ==>
              && r == Thrown(InvalidCallbackObject) && sol.Mem() == old(sol.Mem())
              && sol.registrations == old(sol.registrations) && sol.removals == old(sol.removals)
              && sol.functions == old(sol.functions) && sol.invocations == old(sol.invocations)
              && sol.resets == old(sol.resets)
    ensures !callbacks.NotAnObject? ==>
              && cb != 0 && cb !in old(sol.functions)
              && sol.registrations == old(sol.registrations) + [(cb, TrampolineSignature)]
              && sol.removals == old(sol.removals) + [cb]
              && sol.functions == old(sol.functions)
              && var entry := if Exported(sol.symbols, "solidity_compile") then Some(behaviour) else None;
                 var (outcome, m) := CallOutcome(old(sol.Mem()), core.alloc, ResolveCallbacks(callbacks).value, entry);
                 && r == outcome
                 && sol.heap[..] == m.bytes && sol.requests == m.requests
                 && sol.top == (if r.Ok? && core.reset != NullBinding then sol.heapBase else m.top)
                 && sol.resets == old(sol.resets) + (if r.Ok? && core.reset != NullBinding then 1 else 0)
    ensures !callbacks.NotAnObject? && Exported(sol.symbols, "solidity_compile") ==>
              sol.invocations == old(sol.invocations) + [("solidity_compile", [Str(input), Num(cb), Null])]
    ensures !callbacks.NotAnObject? && !Exported(sol.symbols, "solidity_compile") ==>
              && r == Ok(None) && sol.invocations == old(sol.invocations)
              && sol.resets == old(sol.resets) + (if core.reset != NullBinding then 1 else 0)
  {
    var entry := EntryIfExported(sol.symbols, "solidity_compile");
    var compile := if entry.Some? then Some((entry.value, behaviour)) else None;
    r, cb := RunWithCallbacks(sol, core, callbacks, compile, [Str(input)]);
    assert [Str(input)] + [Num(cb), Null] == [Str(input), Num(cb), Null];
  }
}
