/**
 * The core bindings of the compiler module: the allocator, license, version
 * and reset entry points, and the C-string marshalling helpers that move
 * strings in and out of the module's linear memory.
 *
 * Strings crossing the boundary are byte sequences (their UTF-8 encoding is
 * Emscripten's business); linear memory is a byte array with a bump
 * allocator standing for `solidity_alloc`/`_malloc`.
 */
module Core {
  import opened Options
  import opened Common
  import opened BindingHelpers

  newtype Byte = x: int | 0 <= x < 256
  type Bytes = seq<Byte>

  /** `bindAlloc`: `solidity_alloc` when exported, otherwise the module's own `_malloc`. */
  function BindAlloc(symbols: Symbols): (b: Binding)
    ensures Exported(symbols, "solidity_alloc") ==> b == Cwrap("solidity_alloc")
    ensures !Exported(symbols, "solidity_alloc") ==> b == Malloc
  {
    var allocBinding := BindSolcMethod(symbols, "solidity_alloc", Some(NullBinding));
    if allocBinding == NullBinding then Malloc else allocBinding
  }

  /** `bindVersion`: `solidity_version`, else an unconditional cwrap of `version`. */
  function BindVersion(symbols: Symbols): (b: Binding)
    ensures Exported(symbols, "solidity_version") ==> b == Cwrap("solidity_version")
    ensures !Exported(symbols, "solidity_version") ==> b == Cwrap("version")
  {
    BindSolcMethodWithFallbackFunc(symbols, "solidity_version", "version", None)
  }

  /** `bindLicense`: `solidity_license`, else `license`, else a no-op. */
  function BindLicense(symbols: Symbols): (b: Binding)
    ensures Exported(symbols, "solidity_license") ==> b == Cwrap("solidity_license")
    ensures !Exported(symbols, "solidity_license") && Exported(symbols, "license") ==> b == Cwrap("license")
    ensures !Exported(symbols, "solidity_license") && !Exported(symbols, "license") ==> b == Noop
  {
    BindSolcMethodWithFallbackFunc(symbols, "solidity_license", "license", Some(Noop))
  }

  /** `bindReset`: bound iff `_solidity_reset` exists, `null` otherwise. */
  function BindReset(symbols: Symbols): (b: Binding)
    ensures b != NullBinding <==> Exported(symbols, "solidity_reset")
    ensures b != NullBinding ==> b == Cwrap("solidity_reset")
  {
    BindSolcMethod(symbols, "solidity_reset", Some(NullBinding))
  }

  /** The four entry points `setupCore` binds (the helpers are the methods of `SolJson`). */
  datatype CoreBindings = CoreBindings(alloc: Binding, license: Binding, version: Binding, reset: Binding)

  function SetupCore(symbols: Symbols): (core: CoreBindings)
    ensures core.alloc != NullBinding && core.version.Cwrap?
  {
    CoreBindings(BindAlloc(symbols), BindLicense(symbols), BindVersion(symbols), BindReset(symbols))
  }

  /** Each capability flag says exactly which core binding is the module's own entry point. */
  lemma SetupCoreMatchesFlags(symbols: Symbols)
    ensures SetupCore(symbols).alloc == Cwrap("solidity_alloc") <==> GetSupportedMethods(symbols).allocSupported
    ensures SetupCore(symbols).version == Cwrap("solidity_version") <==> GetSupportedMethods(symbols).versionSupported
    ensures SetupCore(symbols).license == Cwrap("solidity_license") <==> GetSupportedMethods(symbols).licenseSupported
    ensures SetupCore(symbols).reset != NullBinding <==> GetSupportedMethods(symbols).resetSupported
  {
  }

  /* ---------------------------------------------------------------------- */
  /* Linear memory                                                          */
  /* ---------------------------------------------------------------------- */

  const WordRange: int := 0x1_0000_0000
  const Int32Limit: int := 0x8000_0000

  /** The four little-endian bytes of `v` modulo 2^32, as `HEAP32[..] = v` stores them. */
  function Word(v: int): (w: Bytes)
    ensures |w| == 4
  {
    var u := v % WordRange;
    var q1 := u / 0x100;
    var q2 := q1 / 0x100;
    var q3 := q2 / 0x100;
    [(u % 0x100) as Byte, (q1 % 0x100) as Byte, (q2 % 0x100) as Byte, q3 as Byte]
  }

  /** The unsigned value of four little-endian bytes. */
  function WordValue(w: Bytes): (v: nat)
    requires |w| == 4
    ensures v < WordRange
  {
    w[0] as int + 0x100 * (w[1] as int + 0x100 * (w[2] as int + 0x100 * w[3] as int))
  }

  /** Storing a 32-bit value and loading it back gives the value. */
  lemma WordRoundTrip(v: int)
    requires 0 <= v < WordRange
    ensures WordValue(Word(v)) == v
  {
    var q1 := v / 0x100;
    var q2 := q1 / 0x100;
    var q3 := q2 / 0x100;
    assert v == v % 0x100 + 0x100 * q1;
    assert q1 == q1 % 0x100 + 0x100 * q2;
    assert q2 == q2 % 0x100 + 0x100 * q3;
  }

  /**
   * The byte address `HEAP32[ptr >> 2]` designates: `>>` first truncates the
   * pointer to a signed 32-bit integer, and a negative index designates nothing.
   */
  function SlotAddress(ptr: int): (a: Option<nat>)
    ensures a.Some? ==> a.value % 4 == 0 && a.value < Int32Limit
    ensures 0 <= ptr < Int32Limit ==> a == Some(ptr - ptr % 4)
  {
    var u := ptr % WordRange;
    if u < Int32Limit then Some(u - u % 4) else None
  }

  /** Byte-wise typed-array stores of `data` from `at`; writes past the end are dropped. */
  function Store(mem: Bytes, at: int, data: Bytes): (m: Bytes)
    ensures |m| == |mem|
    ensures forall i :: 0 <= i < |m| ==> m[i] == (if at <= i < at + |data| then data[i - at] else mem[i])
  {
    seq(|mem|, i requires 0 <= i < |mem| => if at <= i < at + |data| then data[i - at] else mem[i])
  }

  /** `HEAP32[ptr >> 2] = v`: a whole word, or nothing when the slot is outside the heap. */
  function StoreWord(mem: Bytes, ptr: int, v: int): (m: Bytes)
    ensures |m| == |mem|
  {
    var a := SlotAddress(ptr);
    if a.Some? && a.value + 4 <= |mem| then Store(mem, a.value, Word(v)) else mem
  }

  /** `HEAP32[ptr >> 2]` read back as an unsigned address (`undefined` outside the heap). */
  function LoadWord(mem: Bytes, ptr: int): (v: Option<nat>)
    ensures v.Some? <==> SlotAddress(ptr).Some? && SlotAddress(ptr).value + 4 <= |mem|
  {
    var a := SlotAddress(ptr);
    if a.Some? && a.value + 4 <= |mem| then Some(WordValue(mem[a.value..a.value + 4])) else None
  }

  /** The bytes from `i` up to the first 0 byte or the end of memory. */
  function CStringFrom(mem: Bytes, i: nat): (s: Bytes)
    ensures i + |s| <= |mem| || (i >= |mem| && s == [])
    ensures forall k :: 0 <= k < |s| ==> s[k] != 0 && s[k] == mem[i + k]
    ensures i + |s| < |mem| ==> mem[i + |s|] == 0
    decreases |mem| - i
  {
    if i >= |mem| || mem[i] == 0 then [] else [mem[i]] + CStringFrom(mem, i + 1)
  }

  /**
   * `UTF8ToString(ptr)`: the empty string for a null pointer, otherwise the
   * bytes at `ptr` up to (excluding) the first 0 byte or the end of memory.
   */
  function CString(mem: Bytes, ptr: nat): (s: Bytes)
    ensures ptr == 0 ==> s == []
    ensures 0 !in s
    ensures ptr != 0 && ptr + |s| < |mem| ==> mem[ptr + |s|] == 0
    ensures ptr != 0 && ptr < |mem| ==> ptr + |s| <= |mem| && s == mem[ptr..ptr + |s|]
  {
    if ptr == 0 then [] else CStringFrom(mem, ptr)
  }

  /** A NUL-terminated copy of a NUL-free string reads back as that string. */
  lemma {:induction false} CStringFromTerminated(mem: Bytes, i: nat, str: Bytes)
    requires 0 !in str
    requires i + |str| < |mem|
    requires mem[i..i + |str|] == str && mem[i + |str|] == 0
    ensures CStringFrom(mem, i) == str
    decreases |str|
  {
    if str != [] {
      assert mem[i] == str[0];
      assert mem[i + 1..i + 1 + |str[1..]|] == str[1..];
      CStringFromTerminated(mem, i + 1, str[1..]);
    }
  }

  /** Linear memory, the allocator's high-water mark and the allocation requests made so far. */
  datatype Memory = Memory(bytes: Bytes, top: nat, requests: seq<(Binding, nat)>)

  /**
   * One call of the allocator: a fresh block at the high-water mark when it
   * fits, the null pointer otherwise; either way the request is recorded.
   */
  function Allocate(m: Memory, allocator: Binding, n: nat): (r: (Memory, nat))
    ensures r.0.bytes == m.bytes && r.0.requests == m.requests + [(allocator, n)]
    ensures r.1 == 0 || (r.1 == m.top && r.0.top == m.top + n <= |m.bytes|)
    ensures m.top + n <= |m.bytes| ==> r.1 == m.top
  {
    if m.top + n <= |m.bytes|
    then (m.(top := m.top + n, requests := m.requests + [(allocator, n)]), m.top)
    else (m.(requests := m.requests + [(allocator, n)]), 0)
  }

  /**
   * `copyToCString(str, ptr)` on memory `m`: allocate `|str| + 1` bytes,
   * write `str` and a 0 byte there, and store the buffer's address at `ptr`.
   */
  function CopyToCStringSpec(m: Memory, allocator: Binding, str: Bytes, ptr: int): (r: Memory)
    ensures |r.bytes| == |m.bytes|
    ensures r.requests == m.requests + [(allocator, |str| + 1)]
  {
    var (m1, buffer) := Allocate(m, allocator, |str| + 1);
    m1.(bytes := StoreWord(Store(m1.bytes, buffer, str + [0]), ptr, buffer))
  }

  /** The buffer `copyToCString` writes to: where the allocator put it, or address 0. */
  function BufferOf(m: Memory, str: Bytes): nat {
    if m.top + |str| + 1 <= |m.bytes| then m.top else 0
  }

  /** The bytes of the pointer slot at `ptr`, when it lies inside memory. */
  predicate SlotInside(ptr: int, size: nat) {
    SlotAddress(ptr).Some? && SlotAddress(ptr).value + 4 <= size
  }

  /**
   * Outside the buffer and the pointer slot, `copyToCString` changes no byte.
   */
  lemma CopyToCStringFrame(m: Memory, allocator: Binding, str: Bytes, ptr: int, i: nat)
    requires i < |m.bytes|
    requires !(BufferOf(m, str) <= i < BufferOf(m, str) + |str| + 1)
    requires SlotInside(ptr, |m.bytes|) ==> !(SlotAddress(ptr).value <= i < SlotAddress(ptr).value + 4)
    ensures CopyToCStringSpec(m, allocator, str, ptr).bytes[i] == m.bytes[i]
  {
  }

  /**
   * Round trip: when the allocation fits and the slot does not overlap the
   * new buffer, the slot holds the buffer's address and reading the C string
   * there gives back the (NUL-free) string.
   */
  lemma CopyToCStringRoundTrip(m: Memory, allocator: Binding, str: Bytes, ptr: int)
    requires 0 < m.top && m.top + |str| + 1 <= |m.bytes| <= Int32Limit
    requires 0 !in str
    requires SlotInside(ptr, |m.bytes|)
    requires SlotAddress(ptr).value + 4 <= m.top || m.top + |str| + 1 <= SlotAddress(ptr).value
    ensures LoadWord(CopyToCStringSpec(m, allocator, str, ptr).bytes, ptr) == Some(m.top)
    ensures CString(CopyToCStringSpec(m, allocator, str, ptr).bytes, m.top) == str
  {
    var a := SlotAddress(ptr).value;
    var written := Store(m.bytes, m.top, str + [0]);
    var after := CopyToCStringSpec(m, allocator, str, ptr).bytes;
    assert after == Store(written, a, Word(m.top));
    assert after[a..a + 4] == Word(m.top);
    WordRoundTrip(m.top);
    assert after[m.top..m.top + |str|] == str;
    assert after[m.top + |str|] == 0;
    CStringFromTerminated(after, m.top, str);
  }

  /**
   * When the allocator refuses, the slot receives the null pointer and the
   * string reads back as empty: the copy is lost silently.
   */
  lemma CopyToCStringAllocationFails(m: Memory, allocator: Binding, str: Bytes, ptr: int)
    requires m.top + |str| + 1 > |m.bytes|
    requires SlotInside(ptr, |m.bytes|)
    ensures LoadWord(CopyToCStringSpec(m, allocator, str, ptr).bytes, ptr) == Some(0)
    ensures CString(CopyToCStringSpec(m, allocator, str, ptr).bytes, 0) == []
  {
    var a := SlotAddress(ptr).value;
    var after := CopyToCStringSpec(m, allocator, str, ptr).bytes;
    assert after[a..a + 4] == Word(0);
  }

  /**
   * The compiler module: its exports, its linear memory with a bump
   * allocator, its function table, and logs of what the bridge asked of it.
   */
  class SolJson {
    const symbols: Symbols
    const heapBase: nat
    const heap: array<Byte>
    var top: nat
    ghost var requests: seq<(Binding, nat)>
    var functions: map<nat, string>
    var nextFunction: nat
    ghost var registrations: seq<(nat, string)>
    ghost var removals: seq<nat>
    ghost var invocations: seq<(string, seq<Value>)>
    var resets: nat

    ghost predicate Valid()
      reads this
    {
      0 < heapBase <= top <= heap.Length <= Int32Limit
      && 0 < nextFunction
      && forall p :: p in functions ==> 0 < p < nextFunction
    }

    ghost function Mem(): Memory
      reads this, heap
    {
      Memory(heap[..], top, requests)
    }

    constructor(symbols: Symbols, size: nat, heapBase: nat)
      requires 0 < heapBase <= size <= Int32Limit
      ensures Valid() && fresh(heap)
      ensures this.symbols == symbols && this.heapBase == heapBase
      ensures heap.Length == size && top == heapBase && requests == []
      ensures functions == map[] && registrations == [] && removals == []
      ensures invocations == [] && resets == 0
    {
      this.symbols := symbols;
      this.heapBase := heapBase;
      heap := new Byte[size](_ => 0);
      top := heapBase;
      requests := [];
      functions := map[];
      nextFunction := 1;
      registrations := [];
      removals := [];
      invocations := [];
      resets := 0;
    }

    /** A call of the allocator binding `allocator` for `n` bytes. */
    method Alloc(allocator: Binding, n: nat) returns (p: nat)
      requires Valid()
      modifies this
      ensures Valid()
      ensures Mem() == Allocate(old(Mem()), allocator, n).0 && p == Allocate(old(Mem()), allocator, n).1
      ensures functions == old(functions) && nextFunction == old(nextFunction)
      ensures registrations == old(registrations) && removals == old(removals)
      ensures invocations == old(invocations) && resets == old(resets)
    {
      requests := requests + [(allocator, n)];
      if top + n <= heap.Length {
        p := top;
        top := top + n;
      } else {
        p := 0;
      }
    }

    /** Typed-array stores of `data` from address `at`, dropping those past the end. */
    method Write(at: nat, data: Bytes)
      modifies heap
      ensures heap[..] == Store(old(heap[..]), at, data)
    {
      for i := 0 to |data|
        invariant heap[..] == Store(old(heap[..]), at, data[..i])
      {
        if at + i < heap.Length {
          heap[at + i] := data[i];
        }
        assert data[..i + 1][..i] == data[..i];
      }
      assert data[..|data|] == data;
    }

    /** `copyToCString(str, ptr)` with the allocator bound by `setupCore`. */
    method CopyToCString(allocator: Binding, str: Bytes, ptr: int)
      requires Valid()
      modifies this, heap
      ensures Valid()
      ensures Mem() == CopyToCStringSpec(old(Mem()), allocator, str, ptr)
      ensures functions == old(functions) && nextFunction == old(nextFunction)
      ensures registrations == old(registrations) && removals == old(removals)
      ensures invocations == old(invocations) && resets == old(resets)
    {
      var length := |str|;
      var buffer := Alloc(allocator, length + 1);
      Write(buffer, str + [0]);
      var a := SlotAddress(ptr);
      if a.Some? && a.value + 4 <= heap.Length {
        Write(a.value, Word(buffer));
      }
    }

    /** `addFunction(func, signature)`: a fresh, non-null table index. */
    method AddFunction(signature: string) returns (p: nat)
      requires Valid()
      modifies this
      ensures Valid()
      ensures p != 0 && p !in old(functions)
      ensures functions == old(functions)[p := signature]
      ensures registrations == old(registrations) + [(p, signature)]
      ensures Mem() == old(Mem()) && removals == old(removals)
      ensures invocations == old(invocations) && resets == old(resets)
    {
      p := nextFunction;
      functions := functions[p := signature];
      nextFunction := nextFunction + 1;
      registrations := registrations + [(p, signature)];
    }

    /** `removeFunction(ptr)`. */
    method RemoveFunction(p: nat)
      requires Valid()
      modifies this
      ensures Valid()
      ensures functions == old(functions) - {p}
      ensures removals == old(removals) + [p]
      ensures nextFunction == old(nextFunction) && registrations == old(registrations)
      ensures Mem() == old(Mem()) && invocations == old(invocations) && resets == old(resets)
    {
      functions := functions - {p};
      removals := removals + [p];
    }

    /** A call of `solidity_reset`: every block handed out since start-up is released. */
    method Reset()
      requires Valid()
      modifies this
      ensures Valid()
      ensures top == heapBase && resets == old(resets) + 1
      ensures heap[..] == old(heap[..]) && requests == old(requests)
      ensures functions == old(functions) && nextFunction == old(nextFunction)
      ensures registrations == old(registrations) && removals == old(removals)
      ensures invocations == old(invocations)
    {
      top := heapBase;
      resets := resets + 1;
    }
  }
}
