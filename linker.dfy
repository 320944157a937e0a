/**
 * The bytecode linker: substitutes library addresses for the 40-character
 * placeholders a compiler leaves in hex bytecode, and reports where the
 * placeholders are.
 *
 * Strings are hex text; the Keccak-256 hash used for the newer placeholder
 * form is a parameter `keccak`.
 */
module Linker {
  import opened Options
  import opened Records
  import opened Common

  /** Width of a placeholder, of the name field inside it, and of the hash it may carry. */
  const LabelWidth: nat := 40
  const NameWidth: nat := 36
  const HashWidth: nat := 34

  function Repeat(c: char, n: nat): (s: string)
    ensures |s| == n && forall i :: 0 <= i < n ==> s[i] == c
  {
    seq(n, _ => c)
  }

  /** `s.slice(0, n)`. */
  function Prefix(s: string, n: nat): (p: string)
    ensures |p| == if |s| < n then |s| else n
    ensures p == s[..|p|]
  {
    if |s| < n then s else s[..n]
  }

  /** libraryHashPlaceholder: `$`, the first 34 characters of the name's hash, `$`. */
  function LibraryHashPlaceholder(name: string, keccak: string -> string): string {
    "$" + Prefix(keccak(name), HashWidth) + "$"
  }

  /**
   * The placeholder for `name`: `__`, the name cut to 36 characters, underscores
   * up to 36, `__`.
   */
  function LibraryLabel(name: string): (placeholder: string)
    ensures |placeholder| == LabelWidth
    ensures placeholder[0] == '_' && placeholder[1] == '_' && placeholder[38] == '_' && placeholder[39] == '_'
    ensures var t := Prefix(name, NameWidth);
      placeholder[2..2 + |t|] == t && forall i :: 2 + |t| <= i < 38 ==> placeholder[i] == '_'
  {
    var t := Prefix(name, NameWidth);
    var placeholder := "__" + t + Repeat('_', NameWidth - |t|) + "__";
    assert placeholder[2..2 + |t|] == t;
    placeholder
  }

  /** The hashed placeholder is `__$`, 34 hash characters and `$__`, whenever the hash is that long. */
  lemma HashedLabelShape(name: string, keccak: string -> string)
    requires |keccak(name)| >= HashWidth
    ensures LibraryLabel(LibraryHashPlaceholder(name, keccak)) == "__$" + keccak(name)[..HashWidth] + "$__"
  {
    var p := LibraryHashPlaceholder(name, keccak);
    var placeholder := LibraryLabel(p);
    var want := "__$" + keccak(name)[..HashWidth] + "$__";
    assert |p| == NameWidth;
    assert Prefix(p, NameWidth) == p;
    forall i | 0 <= i < LabelWidth ensures placeholder[i] == want[i] {
      if 2 <= i < 38 {
        assert placeholder[i] == placeholder[2..38][i - 2] == p[i - 2];
      }
    }
  }

  // ---------------------------------------------------------------- search and replace

  predicate OccursAt(s: string, pat: string, i: nat) {
    i + |pat| <= |s| && s[i..i + |pat|] == pat
  }

  /** The first index at or after `from` where `pat` occurs (`indexOf`). */
  function FirstOccurrence(s: string, pat: string, from: nat): (r: Option<nat>)
    ensures r.Some? ==> from <= r.value && OccursAt(s, pat, r.value)
    ensures r.Some? ==> forall j :: from <= j < r.value ==> !OccursAt(s, pat, j)
    ensures r.None? ==> forall j :: from <= j ==> !OccursAt(s, pat, j)
    decreases |s| - from
  {
    if from + |pat| > |s| then None
    else if s[from..from + |pat|] == pat then Some(from)
    else FirstOccurrence(s, pat, from + 1)
  }

  /** `s.includes(pat)`. */
  predicate Contains(s: string, pat: string) {
    FirstOccurrence(s, pat, 0).Some?
  }

  ghost predicate Absent(s: string, pat: string) {
    forall q :: !OccursAt(s, pat, q)
  }

  lemma AbsentIffNotContains(s: string, pat: string)
    ensures Absent(s, pat) <==> !Contains(s, pat)
  {
  }

  /** `s.replace(pat, rep)`: the first occurrence only. */
  function ReplaceFirst(s: string, pat: string, rep: string): string {
    match FirstOccurrence(s, pat, 0)
    case None => s
    case Some(i) => s[..i] + rep + s[i + |pat|..]
  }

  function Underscores(s: string): nat {
    multiset(s)['_']
  }

  /** Replacing one occurrence trades the pattern's underscores for the replacement's. */
  lemma ReplaceAtUnderscores(s: string, i: nat, pat: string, rep: string)
    requires OccursAt(s, pat, i)
    ensures Underscores(s[..i] + rep + s[i + |pat|..]) + Underscores(pat)
         == Underscores(s) + Underscores(rep)
  {
    assert s == s[..i] + pat + s[i + |pat|..];
  }

  /**
   * The loop `while (bytecode.includes(placeholder)) bytecode = bytecode.replace(placeholder, address)`
   * as a function.  It ends because each round removes underscores.
   */
  function ReplaceAll(s: string, placeholder: string, addr: string): (r: string)
    requires |addr| == |placeholder| && Underscores(addr) < Underscores(placeholder)
    ensures |r| == |s|
    ensures !Contains(r, placeholder)
    ensures !Contains(s, placeholder) ==> r == s
    decreases Underscores(s)
  {
    match FirstOccurrence(s, placeholder, 0)
    case None => s
    case Some(i) =>
      ReplaceAtUnderscores(s, i, placeholder, addr);
      ReplaceAll(s[..i] + addr + s[i + |placeholder|..], placeholder, addr)
  }

  /** linker.ts:35-40, the `replace` closure: rewrites every occurrence of `placeholder`. */
  method ReplaceLabel(bytecode: string, placeholder: string, addr: string) returns (r: string)
    requires |addr| == |placeholder| && Underscores(addr) < Underscores(placeholder)
    ensures r == ReplaceAll(bytecode, placeholder, addr)
  {
    r := bytecode;
    while Contains(r, placeholder)
      invariant ReplaceAll(r, placeholder, addr) == ReplaceAll(bytecode, placeholder, addr)
      decreases Underscores(r)
    {
      ghost var i := FirstOccurrence(r, placeholder, 0).value;
      ReplaceAtUnderscores(r, i, placeholder, addr);
      ghost var next := r[..i] + addr + r[i + |placeholder|..];
      assert ReplaceFirst(r, placeholder, addr) == next;
      assert ReplaceAll(r, placeholder, addr) == ReplaceAll(next, placeholder, addr);
      r := ReplaceFirst(r, placeholder, addr);
    }
  }

  /** `pat` occurs nowhere in `s` except, perhaps, in windows overlapping `s[i..i + n]`. */
  ghost predicate AbsentOutside(s: string, pat: string, i: nat, n: nat) {
    forall q: nat :: (q + |pat| <= i || i + n <= q) ==> !OccursAt(s, pat, q)
  }

  lemma AbsentIsAbsentOutside(s: string, pat: string, i: nat, n: nat)
    requires Absent(s, pat)
    ensures AbsentOutside(s, pat, i, n)
  {
  }

  /** `pat` occurs in `s` at `i` and nowhere else. */
  ghost predicate OccursOnlyAt(s: string, pat: string, i: nat) {
    OccursAt(s, pat, i) && forall q: nat :: q != i ==> !OccursAt(s, pat, q)
  }

  /**
   * One replacement step never creates an occurrence of a placeholder-shaped
   * pattern (same width, underscore at both ends) when the replacement has no
   * underscore: every window overlapping the replaced text sees one of its
   * characters where the pattern has an underscore.
   */
  lemma ReplaceStepKeepsAbsent(s: string, i: nat, pat: string, addr: string, other: string)
    requires OccursAt(s, pat, i)
    requires |other| == |addr| == |pat| >= 1
    requires other[0] == '_' && other[|other| - 1] == '_'
    requires '_' !in addr
    requires AbsentOutside(s, other, i, |pat|)
    ensures Absent(s[..i] + addr + s[i + |pat|..], other)
  {
    var L := |other|;
    var t := s[..i] + addr + s[i + L..];
    assert |t| == |s|;
    forall q: nat ensures !OccursAt(t, other, q) {
      if q + L <= |t| {
        if q + L <= i {
          assert t[q..q + L] == s[..i][q..q + L] == s[q..q + L];
          assert !OccursAt(s, other, q);
        } else if q >= i + L {
          assert t[q..q + L] == s[q..q + L];
          assert !OccursAt(s, other, q);
        } else if q < i {
          assert t[q + L - 1] == addr[q + L - 1 - i];
          assert t[q..q + L][L - 1] != other[L - 1];
        } else {
          assert t[q] == addr[q - i];
          assert t[q..q + L][0] != other[0];
        }
      }
    }
  }

  lemma {:induction false} ReplaceAllKeepsAbsent(s: string, placeholder: string, addr: string, other: string)
    requires |addr| == |placeholder| && Underscores(addr) < Underscores(placeholder)
    requires |other| == |addr| >= 1 && other[0] == '_' && other[|other| - 1] == '_'
    requires '_' !in addr
    requires Absent(s, other)
    ensures Absent(ReplaceAll(s, placeholder, addr), other)
    decreases Underscores(s)
  {
    match FirstOccurrence(s, placeholder, 0)
    case None =>
    case Some(i) =>
      ReplaceAtUnderscores(s, i, placeholder, addr);
      var next := s[..i] + addr + s[i + |placeholder|..];
      assert Absent(next, other) by {
        AbsentIsAbsentOutside(s, other, i, |placeholder|);
        ReplaceStepKeepsAbsent(s, i, placeholder, addr, other);
      }
      ReplaceAllKeepsAbsent(next, placeholder, addr, other);
      assert ReplaceAll(s, placeholder, addr) == ReplaceAll(next, placeholder, addr) by {
        assert ReplaceFirst(s, placeholder, addr) == next;
        ReplaceAllUnfold(s, placeholder, addr);
      }
  }

  /**
   * Where the address lands: a placeholder-shaped pattern that occurs once is
   * replaced by the address in place, and everything around it is kept.
   */
  lemma ReplaceAllSingle(s: string, pat: string, addr: string, i: nat)
    requires |pat| >= 1 && pat[0] == '_' && pat[|pat| - 1] == '_'
    requires |addr| == |pat| && '_' !in addr && Underscores(addr) < Underscores(pat)
    requires OccursOnlyAt(s, pat, i)
    ensures ReplaceAll(s, pat, addr) == s[..i] + addr + s[i + |pat|..]
  {
    OnlyOccurrenceIsFirst(s, pat, i);
    var t := s[..i] + addr + s[i + |pat|..];
    assert ReplaceFirst(s, pat, addr) == t;
    ReplaceAllUnfold(s, pat, addr);
    assert AbsentOutside(s, pat, i, |pat|);
    ReplaceStepKeepsAbsent(s, i, pat, addr, pat);
    AbsentIffNotContains(t, pat);
  }

  /** One round of the replacement loop. */
  lemma ReplaceAllUnfold(s: string, pat: string, addr: string)
    requires |addr| == |pat| && Underscores(addr) < Underscores(pat)
    requires Contains(s, pat)
    ensures ReplaceAll(s, pat, addr) == ReplaceAll(ReplaceFirst(s, pat, addr), pat, addr)
  {
    var i := FirstOccurrence(s, pat, 0).value;
    var next := s[..i] + addr + s[i + |pat|..];
    assert ReplaceFirst(s, pat, addr) == next;
    assert ReplaceAll(s, pat, addr) == ReplaceAll(next, pat, addr);
  }

  lemma OnlyOccurrenceIsFirst(s: string, pat: string, i: nat)
    requires OccursOnlyAt(s, pat, i)
    ensures FirstOccurrence(s, pat, 0) == Some(i)
  {
  }

  // ---------------------------------------------------------------- library map

  /** The characters a regular-expression `.` does not match. */
  predicate IsLineTerminator(c: char) {
    c == '\n' || c == '\r' || c == '\U{2028}' || c == '\U{2029}'
  }

  predicate NoLineTerminator(s: string) {
    forall i :: 0 <= i < |s| ==> !IsLineTerminator(s[i])
  }

  /**
   * The unqualified name of a `file:Name` key, as the pattern `^([^:]+):(.+)$`
   * captures it: the text after the first colon, when both sides are non-empty
   * and the tail holds no line terminator.
   */
  function ParseQualified(key: string): (r: Option<string>)
    ensures r.Some? ==> exists i :: 0 < i < |key| - 1 && key[i] == ':' && ':' !in key[..i] && r.value == key[i + 1..]
    ensures r.Some? ==> NoLineTerminator(r.value)
    ensures forall i :: 0 < i < |key| - 1 && key[i] == ':' && ':' !in key[..i] ==>
      r == if NoLineTerminator(key[i + 1..]) then Some(key[i + 1..]) else None
  {
    match FirstOccurrence(key, ":", 0)
    case None =>
      assert forall i :: 0 <= i < |key| ==> key[i] != ':' by {
        forall i | 0 <= i < |key| ensures key[i] != ':' {
          assert !OccursAt(key, ":", i);
          assert key[i..i + 1] == [key[i]];
        }
      }
      None
    case Some(i) =>
      assert key[i] == key[i..i + 1][0];
      assert forall j :: 0 <= j < i ==> key[j] != ':' by {
        forall j | 0 <= j < i ensures key[j] != ':' {
          assert !OccursAt(key, ":", j);
          assert key[j..j + 1] == [key[j]];
        }
      }
      if 0 < i < |key| - 1 && NoLineTerminator(key[i + 1..]) then Some(key[i + 1..]) else None
  }

  /** The inner loop at linker.ts:12-15: both `Name` and `file:Name` for each inner entry, in order. */
  function AddNested(acc: Record<Value>, file: string, libs: Record<Value>): Record<Value>
    decreases |libs|
  {
    if libs == [] then acc
    else
      var last := libs[|libs| - 1];
      var acc' := AddNested(acc, file, libs[..|libs| - 1]);
      Assign(Assign(acc', last.0, last.1), file + ":" + last.0, last.1)
  }

  /** What one entry of the caller's map adds to `librariesComplete` (linker.ts:10-21). */
  function AddLibrary(acc: Record<Value>, name: string, v: Value): Record<Value> {
    if IsObjectType(v) then AddNested(acc, name, ForInEntries(v))
    else
      var acc' := match ParseQualified(name) case Some(n) => Assign(acc, n, v) case None => acc;
      Assign(acc', name, v)
  }

  /** `librariesComplete` after the first loop of linkBytecode. */
  function Flatten(libs: Record<Value>): Record<Value>
    decreases |libs|
  {
    if libs == [] then []
    else AddLibrary(Flatten(libs[..|libs| - 1]), libs[|libs| - 1].0, libs[|libs| - 1].1)
  }

  /** linker.ts:8-22 as a loop. */
  method FlattenLibraries(libraries: Record<Value>) returns (complete: Record<Value>)
    ensures complete == Flatten(libraries)
  {
    complete := [];
    for i := 0 to |libraries|
      invariant complete == Flatten(libraries[..i])
    {
      var (name, v) := libraries[i];
      assert libraries[..i + 1][..i] == libraries[..i];
      if IsObjectType(v) {
        var inner := ForInEntries(v);
        for j := 0 to |inner|
          invariant complete == AddNested(Flatten(libraries[..i]), name, inner[..j])
        {
          assert inner[..j + 1][..j] == inner[..j];
          complete := Assign(complete, inner[j].0, inner[j].1);
          complete := Assign(complete, name + ":" + inner[j].0, inner[j].1);
        }
        assert inner[..|inner|] == inner;
      } else {
        var parsed := ParseQualified(name);
        if parsed.Some? {
          complete := Assign(complete, parsed.value, v);
        }
        complete := Assign(complete, name, v);
      }
    }
    assert libraries[..|libraries|] == libraries;
  }

  /** A flat `file:Name` key registers both itself and `Name`, with the same address. */
  lemma FlatKeyRegistersBoth(libs: Record<Value>, key: string, v: Value)
    requires !IsObjectType(v)
    ensures Lookup(Flatten(libs + [(key, v)]), key) == Some(v)
    ensures ParseQualified(key).Some? ==> Lookup(Flatten(libs + [(key, v)]), ParseQualified(key).value) == Some(v)
  {
    var l := libs + [(key, v)];
    assert l[..|l| - 1] == libs;
    match ParseQualified(key)
    case None =>
    case Some(n) => assert |n| < |key|;
  }

  /**
   * A nested `{file: {Name: address}}` entry registers both `Name` and
   * `file:Name` for every inner name (names without a colon, as contract names are).
   */
  lemma {:induction false} NestedRegistersBoth(acc: Record<Value>, file: string, inner: Record<Value>)
    requires DistinctKeys(inner)
    requires forall j :: 0 <= j < |inner| ==> ':' !in inner[j].0
    ensures forall j :: 0 <= j < |inner| ==>
      Lookup(AddNested(acc, file, inner), inner[j].0) == Some(inner[j].1) &&
      Lookup(AddNested(acc, file, inner), file + ":" + inner[j].0) == Some(inner[j].1)
    decreases |inner|
  {
    if inner != [] {
      var n := |inner| - 1;
      var init := inner[..n];
      var last := inner[n];
      NestedRegistersBoth(acc, file, init);
      var a0 := AddNested(acc, file, init);
      var a1 := Assign(a0, last.0, last.1);
      var a2 := Assign(a1, file + ":" + last.0, last.1);
      assert AddNested(acc, file, inner) == a2;
      assert ':' in file + ":" + last.0 by { assert (file + ":" + last.0)[|file|] == ':'; }
      forall j | 0 <= j < |inner|
        ensures Lookup(a2, inner[j].0) == Some(inner[j].1)
        ensures Lookup(a2, file + ":" + inner[j].0) == Some(inner[j].1)
      {
        var k := inner[j].0;
        assert ':' in file + ":" + k by { assert (file + ":" + k)[|file|] == ':'; }
        if j < n {
          assert init[j] == inner[j];
          assert k != last.0;
          assert file + ":" + k != file + ":" + last.0 by {
            assert (file + ":" + k)[|file| + 1..] == k;
            assert (file + ":" + last.0)[|file| + 1..] == last.0;
          }
        }
      }
    }
  }

  /** Every address registered for a nested entry is reachable under both keys. */
  lemma NestedEntryRegistersBoth(libs: Record<Value>, file: string, v: Value)
    requires IsObjectType(v)
    requires DistinctKeys(ForInEntries(v))
    requires forall j :: 0 <= j < |ForInEntries(v)| ==> ':' !in ForInEntries(v)[j].0
    ensures var inner := ForInEntries(v);
      forall j :: 0 <= j < |inner| ==>
        Lookup(Flatten(libs + [(file, v)]), inner[j].0) == Some(inner[j].1) &&
        Lookup(Flatten(libs + [(file, v)]), file + ":" + inner[j].0) == Some(inner[j].1)
  {
    var l := libs + [(file, v)];
    assert l[..|l| - 1] == libs;
    NestedRegistersBoth(Flatten(libs), file, ForInEntries(v));
  }

  // ---------------------------------------------------------------- addresses

  predicate IsHexDigit(c: char) {
    '0' <= c <= '9' || 'a' <= c <= 'f' || 'A' <= c <= 'F'
  }

  /** The check at linker.ts:26 as written: a `0x` prefix and at most 42 characters. */
  predicate AcceptedAsWritten(a: string) {
    |a| >= 2 && a[..2] == "0x" && |a| <= 42
  }

  /** The check the linker makes here: the same, and only hex digits after the prefix. */
  predicate ValidAddress(a: string) {
    AcceptedAsWritten(a) && forall i :: 2 <= i < |a| ==> IsHexDigit(a[i])
  }

  /** Strip `0x` and left-pad with zeros to 40 characters. */
  function PadAddress(a: string): (hex: string)
    requires AcceptedAsWritten(a)
    ensures |hex| == LabelWidth
    ensures hex[LabelWidth - (|a| - 2)..] == a[2..]
    ensures forall i :: 0 <= i < LabelWidth - (|a| - 2) ==> hex[i] == '0'
  {
    Repeat('0', 42 - |a|) + a[2..]
  }

  datatype LinkError =
    | InvalidAddress(library: string)   // "Invalid address specified for <library>"
    | NotAString(library: string)       // a TypeError: the value has no `slice`

  function ErrorMessage(e: LinkError): string {
    match e
    case InvalidAddress(n) => "Invalid address specified for " + n
    case NotAString(_) => TypeErrorMessage
  }

  datatype Outcome<T> = Success(value: T) | Failure(error: LinkError)

  /**
   * The validated, padded address of one `librariesComplete` entry.  Only strings
   * have the `slice` the check calls; an array has one too, but its slice is never
   * the string `0x`.
   */
  function PaddedAddress(name: string, v: Value): (r: Outcome<string>)
    ensures r.Success? <==> v.Str? && ValidAddress(v.s)
    ensures r.Success? ==> |r.value| == LabelWidth && '_' !in r.value
    ensures r.Success? ==> r.value[LabelWidth - (|v.s| - 2)..] == v.s[2..]
    ensures r.Failure? ==> r.error.library == name && (r.error.InvalidAddress? <==> v.Str? || v.Arr?)
  {
    match v
    case Str(a) =>
      if ValidAddress(a) then
        var hex := PadAddress(a);
        assert forall i :: 0 <= i < |hex| ==> hex[i] != '_' by {
          forall i | 0 <= i < |hex| ensures hex[i] != '_' {
            if i >= LabelWidth - (|a| - 2) {
              assert hex[i] == hex[LabelWidth - (|a| - 2)..][i - (LabelWidth - (|a| - 2))] == a[i - (LabelWidth - (|a| - 2)) + 2];
            }
          }
        }
        Success(hex)
      else Failure(InvalidAddress(name))
    case Arr(_) => Failure(InvalidAddress(name))
    case _ => Failure(NotAString(name))
  }

  // ---------------------------------------------------------------- linking

  lemma PlaceholderUnderscores(name: string)
    ensures Underscores(LibraryLabel(name)) >= 1
  {
    assert '_' in LibraryLabel(name) by { assert LibraryLabel(name)[0] == '_'; }
  }

  /** One round of the second loop of linkBytecode: both placeholders of `name` replaced. */
  function LinkEntry(bytecode: string, name: string, hex: string, keccak: string -> string): (r: string)
    requires |hex| == LabelWidth && '_' !in hex
    ensures |r| == |bytecode|
  {
    PlaceholderUnderscores(name);
    PlaceholderUnderscores(LibraryHashPlaceholder(name, keccak));
    var once := ReplaceAll(bytecode, LibraryLabel(name), hex);
    ReplaceAll(once, LibraryLabel(LibraryHashPlaceholder(name, keccak)), hex)
  }

  /** The second loop of linkBytecode over `librariesComplete`, stopping at the first bad address. */
  function LinkEntries(bytecode: string, entries: Record<Value>, keccak: string -> string): Outcome<string>
    decreases |entries|
  {
    if entries == [] then Success(bytecode)
    else
      match PaddedAddress(entries[0].0, entries[0].1)
      case Failure(e) => Failure(e)
      case Success(hex) => LinkEntries(LinkEntry(bytecode, entries[0].0, hex, keccak), entries[1..], keccak)
  }

  /** What linkBytecode returns (or throws). */
  function LinkedBytecode(bytecode: string, libraries: Record<Value>, keccak: string -> string): Outcome<string> {
    LinkEntries(bytecode, Flatten(libraries), keccak)
  }

  /** linkBytecode. */
  method LinkBytecode(bytecode: string, libraries: Record<Value>, keccak: string -> string)
    returns (r: Outcome<string>)
    ensures r == LinkedBytecode(bytecode, libraries, keccak)
  {
    var complete := FlattenLibraries(libraries);
    var code := bytecode;
    for i := 0 to |complete|
      invariant LinkEntries(code, complete[i..], keccak) == LinkEntries(bytecode, complete, keccak)
    {
      var (name, v) := complete[i];
      assert complete[i..][1..] == complete[i + 1..];
      var hex := PaddedAddress(name, v);
      if hex.Failure? {
        return Failure(hex.error);
      }
      PlaceholderUnderscores(name);
      PlaceholderUnderscores(LibraryHashPlaceholder(name, keccak));
      code := ReplaceLabel(code, LibraryLabel(name), hex.value);
      code := ReplaceLabel(code, LibraryLabel(LibraryHashPlaceholder(name, keccak)), hex.value);
    }
    return Success(code);
  }

  // ---------------------------------------------------------------- linking lemmas

  /** Shaped like a placeholder: 40 characters with an underscore at both ends. */
  ghost predicate PlaceholderShaped(p: string) {
    |p| == LabelWidth && p[0] == '_' && p[LabelWidth - 1] == '_'
  }

  /** Linking never changes the length of the bytecode. */
  lemma {:induction false} LinkEntriesLength(bytecode: string, entries: Record<Value>, keccak: string -> string)
    ensures var r := LinkEntries(bytecode, entries, keccak); r.Success? ==> |r.value| == |bytecode|
    decreases |entries|
  {
    if entries != [] {
      var h := PaddedAddress(entries[0].0, entries[0].1);
      if h.Success? {
        LinkEntriesLength(LinkEntry(bytecode, entries[0].0, h.value, keccak), entries[1..], keccak);
      }
    }
  }

  /** Every entry of `librariesComplete` holds a valid address string. */
  ghost predicate AllAddressesValid(entries: Record<Value>) {
    forall j :: 0 <= j < |entries| ==> entries[j].1.Str? && ValidAddress(entries[j].1.s)
  }

  lemma AllAddressesValidCons(entries: Record<Value>)
    requires entries != []
    ensures AllAddressesValid(entries) <==>
      entries[0].1.Str? && ValidAddress(entries[0].1.s) && AllAddressesValid(entries[1..])
  {
    assert forall j :: 1 <= j < |entries| ==> entries[j] == entries[1..][j - 1];
  }

  /** Linking succeeds exactly when every registered address is a valid hex string. */
  lemma {:induction false} LinkEntriesSucceedsIff(bytecode: string, entries: Record<Value>, keccak: string -> string)
    ensures LinkEntries(bytecode, entries, keccak).Success? <==> AllAddressesValid(entries)
    decreases |entries|
  {
    if entries != [] {
      AllAddressesValidCons(entries);
      var h := PaddedAddress(entries[0].0, entries[0].1);
      if h.Success? {
        LinkEntriesSucceedsIff(LinkEntry(bytecode, entries[0].0, h.value, keccak), entries[1..], keccak);
      }
    }
  }

  /** Entry `j` is the first, in map order, whose address is rejected, and it is rejected with `e`. */
  ghost predicate FirstRejected(entries: Record<Value>, j: int, e: LinkError) {
    && 0 <= j < |entries|
    && PaddedAddress(entries[j].0, entries[j].1) == Failure(e)
    && forall k :: 0 <= k < j ==> PaddedAddress(entries[k].0, entries[k].1).Success?
  }

  lemma FirstRejectedCons(entries: Record<Value>, j: int, e: LinkError)
    requires entries != [] && PaddedAddress(entries[0].0, entries[0].1).Success?
    requires FirstRejected(entries[1..], j, e)
    ensures FirstRejected(entries, j + 1, e)
  {
    forall k | 1 <= k < j + 1
      ensures PaddedAddress(entries[k].0, entries[k].1).Success?
    {
      assert entries[k] == entries[1..][k - 1];
    }
    assert entries[j + 1] == entries[1..][j];
  }

  /** A failure names the first entry, in map order, whose address is rejected. */
  lemma {:induction false} LinkEntriesFailsAtFirst(bytecode: string, entries: Record<Value>, keccak: string -> string)
    requires LinkEntries(bytecode, entries, keccak).Failure?
    ensures exists j :: FirstRejected(entries, j, LinkEntries(bytecode, entries, keccak).error)
    decreases |entries|
  {
    var e := LinkEntries(bytecode, entries, keccak).error;
    var h := PaddedAddress(entries[0].0, entries[0].1);
    if h.Success? {
      var next := LinkEntry(bytecode, entries[0].0, h.value, keccak);
      assert LinkEntries(next, entries[1..], keccak) == LinkEntries(bytecode, entries, keccak);
      LinkEntriesFailsAtFirst(next, entries[1..], keccak);
      var j :| FirstRejected(entries[1..], j, e);
      FirstRejectedCons(entries, j, e);
    } else {
      assert FirstRejected(entries, 0, e);
    }
  }

  /** One linking round keeps a placeholder-shaped pattern absent. */
  lemma LinkEntryKeepsAbsent(bytecode: string, name: string, hex: string, keccak: string -> string, other: string)
    requires |hex| == LabelWidth && '_' !in hex
    requires PlaceholderShaped(other) && Absent(bytecode, other)
    ensures Absent(LinkEntry(bytecode, name, hex, keccak), other)
  {
    PlaceholderUnderscores(name);
    PlaceholderUnderscores(LibraryHashPlaceholder(name, keccak));
    var once := ReplaceAll(bytecode, LibraryLabel(name), hex);
    ReplaceAllKeepsAbsent(bytecode, LibraryLabel(name), hex, other);
    ReplaceAllKeepsAbsent(once, LibraryLabel(LibraryHashPlaceholder(name, keccak)), hex, other);
  }

  /** The rest of the linking rounds keep a placeholder-shaped pattern absent. */
  lemma {:induction false} LinkEntriesKeepsAbsent(bytecode: string, entries: Record<Value>, keccak: string -> string, other: string)
    requires PlaceholderShaped(other) && Absent(bytecode, other)
    ensures var r := LinkEntries(bytecode, entries, keccak); r.Success? ==> Absent(r.value, other)
    decreases |entries|
  {
    if entries != [] {
      var h := PaddedAddress(entries[0].0, entries[0].1);
      if h.Success? {
        LinkEntryKeepsAbsent(bytecode, entries[0].0, h.value, keccak, other);
        LinkEntriesKeepsAbsent(LinkEntry(bytecode, entries[0].0, h.value, keccak), entries[1..], keccak, other);
      }
    }
  }

  /** After a linking round, neither placeholder of that library is left. */
  lemma LinkEntryRemovesLabels(bytecode: string, name: string, hex: string, keccak: string -> string)
    requires |hex| == LabelWidth && '_' !in hex
    ensures Absent(LinkEntry(bytecode, name, hex, keccak), LibraryLabel(name))
    ensures Absent(LinkEntry(bytecode, name, hex, keccak), LibraryLabel(LibraryHashPlaceholder(name, keccak)))
  {
    PlaceholderUnderscores(name);
    PlaceholderUnderscores(LibraryHashPlaceholder(name, keccak));
    var once := ReplaceAll(bytecode, LibraryLabel(name), hex);
    AbsentIffNotContains(once, LibraryLabel(name));
    ReplaceAllKeepsAbsent(once, LibraryLabel(LibraryHashPlaceholder(name, keccak)), hex, LibraryLabel(name));
    AbsentIffNotContains(LinkEntry(bytecode, name, hex, keccak), LibraryLabel(LibraryHashPlaceholder(name, keccak)));
  }

  /**
   * Linking one library whose plain placeholder occurs once, and whose hashed
   * placeholder does not occur, writes the padded address over that placeholder
   * and keeps every other character of the bytecode.
   */
  lemma LinkOnePlaceholder(bytecode: string, name: string, a: string, keccak: string -> string, i: nat)
    requires ':' !in name && ValidAddress(a)
    requires OccursOnlyAt(bytecode, LibraryLabel(name), i)
    requires Absent(bytecode, LibraryLabel(LibraryHashPlaceholder(name, keccak)))
    ensures LinkedBytecode(bytecode, [(name, Str(a))], keccak)
            == Success(bytecode[..i] + PadAddress(a) + bytecode[i + LabelWidth..])
  {
    var hex := PadAddress(a);
    LinkSingleLibrary(bytecode, name, a, keccak);
    var plain := LibraryLabel(name);
    var hashed := LibraryLabel(LibraryHashPlaceholder(name, keccak));
    PlaceholderUnderscores(name);
    PlaceholderUnderscores(LibraryHashPlaceholder(name, keccak));
    ReplaceAllSingle(bytecode, plain, hex, i);
    var once := ReplaceAll(bytecode, plain, hex);
    ReplaceAllKeepsAbsent(bytecode, plain, hex, hashed);
    AbsentIffNotContains(once, hashed);
  }

  /** A single plain library name with a valid address is linked in one round. */
  lemma LinkSingleLibrary(bytecode: string, name: string, a: string, keccak: string -> string)
    requires ':' !in name && ValidAddress(a)
    ensures '_' !in PadAddress(a) && Underscores(PadAddress(a)) == 0
    ensures LinkedBytecode(bytecode, [(name, Str(a))], keccak) == Success(LinkEntry(bytecode, name, PadAddress(a), keccak))
  {
    var entries := [(name, Str(a))];
    FlattenPlainName(name, Str(a));
    var hex := PadAddress(a);
    assert PaddedAddress(name, Str(a)) == Success(hex);
    assert Underscores(hex) == 0 by {
      assert '_' !in multiset(hex);
    }
    assert entries[1..] == [];
    assert LinkEntries(bytecode, entries, keccak) == LinkEntries(LinkEntry(bytecode, name, hex, keccak), [], keccak);
  }

  /** A name without a colon, bound to an address, is all that `librariesComplete` holds. */
  lemma FlattenPlainName(name: string, v: Value)
    requires ':' !in name && !IsObjectType(v)
    ensures Flatten([(name, v)]) == [(name, v)]
  {
    assert ParseQualified(name).None?;
    assert [(name, v)][..0] == [];
  }

  /** No plain or hashed placeholder of any library in `entries` occurs in `code`. */
  ghost predicate LabelsGone(code: string, entries: Record<Value>, keccak: string -> string) {
    forall j :: 0 <= j < |entries| ==>
      !Contains(code, LibraryLabel(entries[j].0)) &&
      !Contains(code, LibraryLabel(LibraryHashPlaceholder(entries[j].0, keccak)))
  }

  lemma LabelsGoneCons(code: string, entries: Record<Value>, keccak: string -> string)
    requires entries != []
    ensures LabelsGone(code, entries, keccak) <==>
      && !Contains(code, LibraryLabel(entries[0].0))
      && !Contains(code, LibraryLabel(LibraryHashPlaceholder(entries[0].0, keccak)))
      && LabelsGone(code, entries[1..], keccak)
  {
    assert forall j :: 1 <= j < |entries| ==> entries[j] == entries[1..][j - 1];
  }

  /** A successful link leaves no placeholder of any registered library, plain or hashed. */
  lemma {:induction false} LinkEntriesRemovesLabels(bytecode: string, entries: Record<Value>, keccak: string -> string)
    ensures var r := LinkEntries(bytecode, entries, keccak);
      r.Success? ==> LabelsGone(r.value, entries, keccak)
    decreases |entries|
  {
    var r := LinkEntries(bytecode, entries, keccak);
    if entries != [] && r.Success? {
      LinkEntriesUnfold(bytecode, entries, keccak);
      var h := PaddedAddress(entries[0].0, entries[0].1);
      var next := LinkEntry(bytecode, entries[0].0, h.value, keccak);
      HeadLabelsRemoved(bytecode, entries, keccak);
      LinkEntriesRemovesLabels(next, entries[1..], keccak);
      LabelsGoneCons(r.value, entries, keccak);
    }
  }

  /** A successful link of a non-empty map is the first round followed by the rest. */
  lemma LinkEntriesUnfold(bytecode: string, entries: Record<Value>, keccak: string -> string)
    requires entries != [] && LinkEntries(bytecode, entries, keccak).Success?
    ensures PaddedAddress(entries[0].0, entries[0].1).Success?
    ensures LinkEntries(bytecode, entries, keccak)
         == LinkEntries(LinkEntry(bytecode, entries[0].0, PaddedAddress(entries[0].0, entries[0].1).value, keccak), entries[1..], keccak)
  {
  }

  /** The first library's placeholders are gone after its round and stay gone through the rest. */
  lemma HeadLabelsRemoved(bytecode: string, entries: Record<Value>, keccak: string -> string)
    requires entries != [] && LinkEntries(bytecode, entries, keccak).Success?
    ensures var r := LinkEntries(bytecode, entries, keccak);
      && !Contains(r.value, LibraryLabel(entries[0].0))
      && !Contains(r.value, LibraryLabel(LibraryHashPlaceholder(entries[0].0, keccak)))
  {
    var r := LinkEntries(bytecode, entries, keccak);
    LinkEntriesUnfold(bytecode, entries, keccak);
    var h := PaddedAddress(entries[0].0, entries[0].1);
    var next := LinkEntry(bytecode, entries[0].0, h.value, keccak);
    var l1 := LibraryLabel(entries[0].0);
    var l2 := LibraryLabel(LibraryHashPlaceholder(entries[0].0, keccak));
    LinkEntryRemovesLabels(bytecode, entries[0].0, h.value, keccak);
    LinkEntriesKeepsAbsent(next, entries[1..], keccak, l1);
    LinkEntriesKeepsAbsent(next, entries[1..], keccak, l2);
    AbsentIffNotContains(r.value, l1);
    AbsentIffNotContains(r.value, l2);
  }

  /** Bytecode that holds no placeholder of any registered library comes back unchanged. */
  lemma {:induction false} LinkEntriesWithoutLabels(bytecode: string, entries: Record<Value>, keccak: string -> string)
    requires LabelsGone(bytecode, entries, keccak)
    ensures var r := LinkEntries(bytecode, entries, keccak); r.Success? ==> r.value == bytecode
    decreases |entries|
  {
    if entries != [] {
      var h := PaddedAddress(entries[0].0, entries[0].1);
      if h.Success? {
        LabelsGoneCons(bytecode, entries, keccak);
        PlaceholderUnderscores(entries[0].0);
        PlaceholderUnderscores(LibraryHashPlaceholder(entries[0].0, keccak));
        assert LinkEntry(bytecode, entries[0].0, h.value, keccak) == bytecode;
        LinkEntriesWithoutLabels(bytecode, entries[1..], keccak);
      }
    }
  }

  /** Linking is idempotent: linking the linked bytecode again with the same map changes nothing. */
  lemma LinkIdempotent(bytecode: string, libraries: Record<Value>, keccak: string -> string)
    requires LinkedBytecode(bytecode, libraries, keccak).Success?
    ensures LinkedBytecode(LinkedBytecode(bytecode, libraries, keccak).value, libraries, keccak)
         == LinkedBytecode(bytecode, libraries, keccak)
  {
    var entries := Flatten(libraries);
    var once := LinkedBytecode(bytecode, libraries, keccak).value;
    LinkEntriesRemovesLabels(bytecode, entries, keccak);
    LinkEntriesSucceedsIff(bytecode, entries, keccak);
    LinkEntriesSucceedsIff(once, entries, keccak);
    LinkEntriesWithoutLabels(once, entries, keccak);
  }

  /**
   * With the address check as written, an address made of a placeholder passes
   * (it starts with `0x` and has 42 characters), and replacing the placeholder by
   * its own padded form leaves the bytecode as it was: the `while (includes)` loop
   * never ends.
   */
  lemma AsWrittenReplaceMakesNoProgress(bytecode: string, name: string)
    requires Contains(bytecode, LibraryLabel(name))
    ensures var a := "0x" + LibraryLabel(name);
      && AcceptedAsWritten(a)
      && !ValidAddress(a)
      && PadAddress(a) == LibraryLabel(name)
      && ReplaceFirst(bytecode, LibraryLabel(name), PadAddress(a)) == bytecode
  {
    var placeholder := LibraryLabel(name);
    var a := "0x" + placeholder;
    assert a[..2] == "0x";
    assert a[2] == '_';
    assert a[2..] == placeholder;
    assert PadAddress(a) == placeholder;
    ReplaceBySelf(bytecode, placeholder);
  }

  /** Replacing a pattern by itself changes nothing. */
  lemma ReplaceBySelf(s: string, pat: string)
    ensures ReplaceFirst(s, pat, pat) == s
  {
    match FirstOccurrence(s, pat, 0)
    case None =>
    case Some(i) => assert s == s[..i] + pat + s[i + |pat|..];
  }

  // ---------------------------------------------------------------- link references

  /** The width of one placeholder in hex characters (20 bytes). */
  const PlaceholderWidth := 40

  /** `__(.{36})__` matches at `i`: a 40-character window with two underscores at each end. */
  predicate WindowAt(s: string, i: nat) {
    && i + PlaceholderWidth <= |s|
    && s[i] == '_' && s[i + 1] == '_' && s[i + 38] == '_' && s[i + 39] == '_'
  }

  /** The index of the first match at or after `from` (`String.prototype.match` on the rest). */
  function FirstWindow(s: string, from: nat): (r: Option<nat>)
    ensures r.Some? ==> from <= r.value && WindowAt(s, r.value)
    ensures r.Some? ==> forall j :: from <= j < r.value ==> !WindowAt(s, j)
    ensures r.None? ==> forall j :: from <= j ==> !WindowAt(s, j)
    decreases |s| - from
  {
    if from + PlaceholderWidth > |s| then None
    else if WindowAt(s, from) then Some(from)
    else FirstWindow(s, from + 1)
  }

  /** `replace(/_+$/gm, '')` on a text without line terminators: drop the trailing underscores. */
  function StripTrailingUnderscores(t: string): string
    decreases |t|
  {
    if t != [] && t[|t| - 1] == '_' then StripTrailingUnderscores(t[..|t| - 1]) else t
  }

  /** The stripped name is a prefix of the text, never ends in `_`, and only underscores were dropped. */
  lemma {:induction false} StripShape(t: string)
    ensures var r := StripTrailingUnderscores(t);
      && r <= t
      && (r == [] || r[|r| - 1] != '_')
      && forall i :: |r| <= i < |t| ==> t[i] == '_'
    decreases |t|
  {
    if t != [] && t[|t| - 1] == '_' {
      StripShape(t[..|t| - 1]);
    }
  }

  /** One match of the scan: the stripped name and the hex index of the placeholder in the whole bytecode. */
  datatype Hit = Hit(name: string, index: nat)

  /** The library name of the placeholder at `i`: its 36-character middle, trailing underscores stripped. */
  function NameAt(s: string, i: nat): string
    requires i + PlaceholderWidth <= |s|
  {
    StripTrailingUnderscores(s[i + 2..i + 38])
  }

  /**
   * The matches the loop at linker.ts:54-74 visits from `from` on, when each round
   * resumes `skip` characters after the start of the previous match.
   */
  function Scan(s: string, from: nat, skip: nat): seq<Hit>
    requires 0 < skip <= PlaceholderWidth
    decreases |s| - from
  {
    match FirstWindow(s, from)
    case None => []
    case Some(i) => [Hit(NameAt(s, i), i)] + Scan(s, i + skip, skip)
  }

  lemma ScanUnfold(s: string, from: nat, skip: nat, i: nat)
    requires 0 < skip <= PlaceholderWidth && FirstWindow(s, from) == Some(i)
    ensures i + PlaceholderWidth <= |s|
    ensures Scan(s, from, skip) == [Hit(NameAt(s, i), i)] + Scan(s, i + skip, skip)
  {
  }

  /** Every hit is a real match, past `from`, named after the middle of its placeholder. */
  lemma {:induction false} ScanSound(s: string, from: nat, skip: nat)
    requires 0 < skip <= PlaceholderWidth
    ensures var hs := Scan(s, from, skip);
      forall k :: 0 <= k < |hs| ==>
        from <= hs[k].index && WindowAt(s, hs[k].index) && hs[k].name == NameAt(s, hs[k].index)
    decreases |s| - from
  {
    var w := FirstWindow(s, from);
    if w.Some? {
      var i := w.value;
      ScanUnfold(s, from, skip, i);
      ScanSound(s, i + skip, skip);
      var tl := Scan(s, i + skip, skip);
      var hs := [Hit(NameAt(s, i), i)] + tl;
      forall k | 1 <= k < |hs| ensures hs[k] == tl[k - 1] { }
    }
  }

  /** Hits come in order, each at least `skip` characters after the one before. */
  lemma {:induction false} ScanSpaced(s: string, from: nat, skip: nat)
    requires 0 < skip <= PlaceholderWidth
    ensures var hs := Scan(s, from, skip);
      forall k :: 0 <= k < |hs| - 1 ==> hs[k].index + skip <= hs[k + 1].index
    decreases |s| - from
  {
    var w := FirstWindow(s, from);
    if w.Some? {
      var i := w.value;
      ScanUnfold(s, from, skip, i);
      ScanSound(s, i + skip, skip);
      ScanSpaced(s, i + skip, skip);
      var tl := Scan(s, i + skip, skip);
      var hs := [Hit(NameAt(s, i), i)] + tl;
      forall k | 0 <= k < |hs| - 1 ensures hs[k].index + skip <= hs[k + 1].index {
        if k == 0 {
          assert hs[1] == tl[0];
        } else {
          assert hs[k] == tl[k - 1] && hs[k + 1] == tl[k];
        }
      }
    }
  }

  /** The scan finds nothing exactly when no placeholder-shaped window starts at or after `from`. */
  lemma ScanEmptyIff(s: string, from: nat, skip: nat)
    requires 0 < skip <= PlaceholderWidth
    ensures Scan(s, from, skip) == [] <==> forall j :: from <= j ==> !WindowAt(s, j)
  {
  }

  /** No placeholder-shaped window starts in `[lo, hi)`. */
  ghost predicate GapClear(s: string, lo: nat, hi: nat) {
    forall j :: lo <= j < hi ==> !WindowAt(s, j)
  }

  /** No window is passed over before the first hit. */
  lemma ScanMissesNoneBefore(s: string, from: nat, skip: nat)
    requires 0 < skip <= PlaceholderWidth
    ensures var hs := Scan(s, from, skip);
      hs != [] ==> GapClear(s, from, hs[0].index)
  {
  }

  /** Every gap between consecutive hits, from one hit's resume point to the next hit, is clear. */
  ghost predicate GapsClear(s: string, hs: seq<Hit>, skip: nat) {
    forall k :: 0 <= k < |hs| - 1 ==> GapClear(s, hs[k].index + skip, hs[k + 1].index)
  }

  lemma GapsClearCons(s: string, h: Hit, tl: seq<Hit>, skip: nat)
    requires GapsClear(s, tl, skip)
    requires tl != [] ==> GapClear(s, h.index + skip, tl[0].index)
    ensures GapsClear(s, [h] + tl, skip)
  {
    var hs := [h] + tl;
    forall k | 0 <= k < |hs| - 1 ensures GapClear(s, hs[k].index + skip, hs[k + 1].index) {
      if k == 0 {
        assert hs[1] == tl[0];
      } else {
        assert hs[k] == tl[k - 1] && hs[k + 1] == tl[k];
      }
    }
  }

  /** No window is passed over between a hit's resume point and the next hit. */
  lemma {:induction false} ScanMissesNoneBetween(s: string, from: nat, skip: nat)
    requires 0 < skip <= PlaceholderWidth
    ensures GapsClear(s, Scan(s, from, skip), skip)
    decreases |s| - from
  {
    var w := FirstWindow(s, from);
    if w.Some? {
      var i := w.value;
      ScanUnfold(s, from, skip, i);
      ScanMissesNoneBetween(s, i + skip, skip);
      ScanMissesNoneBefore(s, i + skip, skip);
      GapsClearCons(s, Hit(NameAt(s, i), i), Scan(s, i + skip, skip), skip);
    }
  }

  /** No window starts at or after `lo`. */
  ghost predicate NoWindowFrom(s: string, lo: nat) {
    forall j :: lo <= j ==> !WindowAt(s, j)
  }

  /** No window is passed over after the resume point of the last hit. */
  lemma {:induction false} ScanMissesNoneAfter(s: string, from: nat, skip: nat)
    requires 0 < skip <= PlaceholderWidth
    ensures ClearAfterLast(s, Scan(s, from, skip), skip)
    decreases |s| - from
  {
    var w := FirstWindow(s, from);
    if w.Some? {
      var i := w.value;
      ScanMissesNoneAfter(s, i + skip, skip);
      ScanUnfold(s, from, skip, i);
      LastAfterHead(s, from, skip, i);
    }
  }

  /** When there are hits, no window starts at or after the resume point of the last one. */
  ghost predicate ClearAfterLast(s: string, hs: seq<Hit>, skip: nat) {
    hs != [] ==> NoWindowFrom(s, hs[|hs| - 1].index + skip)
  }

  /** The last hit of the scan from `from` is its head when the rest is empty, else the last hit of the rest. */
  lemma LastAfterHead(s: string, from: nat, skip: nat, i: nat)
    requires 0 < skip <= PlaceholderWidth && FirstWindow(s, from) == Some(i)
    requires Scan(s, from, skip) == [Hit(NameAt(s, i), i)] + Scan(s, i + skip, skip)
    requires ClearAfterLast(s, Scan(s, i + skip, skip), skip)
    ensures ClearAfterLast(s, Scan(s, from, skip), skip)
  {
    var tl := Scan(s, i + skip, skip);
    var hs := Scan(s, from, skip);
    if tl != [] {
      assert hs[|hs| - 1] == tl[|tl| - 1];
    } else {
      assert FirstWindow(s, i + skip).None?;
    }
  }

  /** A placeholder, with its name written out, is found again: the scan reports that name at index 0. */
  lemma LabelScanRoundTrip(name: string, skip: nat)
    requires |name| <= NameWidth
    requires name == [] || name[|name| - 1] != '_'
    requires 0 < skip <= PlaceholderWidth
    ensures Scan(LibraryLabel(name), 0, skip) == [Hit(name, 0)]
  {
    var l := LibraryLabel(name);
    var mid := l[2..38];
    assert mid == name + Repeat('_', NameWidth - |name|) by {
      assert mid[..|name|] == name;
    }
    StripPadding(name, NameWidth - |name|);
    assert WindowAt(l, 0);
    assert FirstWindow(l, skip) == None;
  }

  /** Stripping trailing underscores undoes padding a name that does not itself end in one. */
  lemma {:induction false} StripPadding(t: string, n: nat)
    requires t == [] || t[|t| - 1] != '_'
    ensures StripTrailingUnderscores(t + Repeat('_', n)) == t
    decreases n
  {
    if n > 0 {
      var u := t + Repeat('_', n);
      assert u[..|u| - 1] == t + Repeat('_', n - 1);
      StripPadding(t, n - 1);
    } else {
      assert t + Repeat('_', 0) == t;
    }
  }

  /** The stride of the loop as written: resume 20 characters after the match start. */
  const AsWrittenStride := 20

  /** The stride that skips the whole 40-character placeholder. */
  const Stride := PlaceholderWidth

  /** A library call site and the next one: `PUSH20` (`73`) between two placeholders. */
  function TwoCallSites(): string {
    LibraryLabel("A") + "73" + LibraryLabel("B")
  }

  /**
   * As written, the scan resumes inside the first placeholder and reports a third,
   * overlapping reference at index 20 whose name is made of padding, `73` and part of
   * the second placeholder.
   */
  lemma AsWrittenScanOverlaps()
    ensures var hs := Scan(TwoCallSites(), 0, AsWrittenStride);
      && |hs| == 3
      && hs[0] == Hit("A", 0)
      && hs[1].index == 20
      && hs[1].name == Repeat('_', 18) + "73__B"
      && hs[2] == Hit("B", 42)
      && hs[1].index < hs[0].index + PlaceholderWidth
  {
    var s := TwoCallSites();
    CallSiteWindows();
    assert FirstWindow(s, 40) == Some(42);
  }

  /** With the whole placeholder skipped, the same bytecode yields exactly its two call sites. */
  lemma ScanFindsCallSites()
    ensures Scan(TwoCallSites(), 0, Stride) == [Hit("A", 0), Hit("B", 42)]
  {
    CallSiteWindows();
    assert FirstWindow(TwoCallSites(), 40) == Some(42);
  }

  /** Where the pattern matches in `TwoCallSites()`, and what the matched middles are. */
  lemma CallSiteWindows()
    ensures var s := TwoCallSites();
      && |s| == 82
      && WindowAt(s, 0) && WindowAt(s, 20) && !WindowAt(s, 40) && !WindowAt(s, 41) && WindowAt(s, 42)
      && NameAt(s, 0) == "A"
      && NameAt(s, 20) == Repeat('_', 18) + "73__B"
      && NameAt(s, 42) == "B"
  {
    var s := TwoCallSites();
    var a := LibraryLabel("A");
    var b := LibraryLabel("B");
    LabelMiddle("A");
    LabelMiddle("B");
    assert s[..40] == a && s[40..42] == "73" && s[42..] == b;
    assert s[2..38] == a[2..38];
    assert s[44..80] == b[2..38];
    StripPadding("A", 35);
    StripPadding("B", 35);
    SecondWindowMiddle();
    StripPadding(Repeat('_', 18) + "73__B", 13);
  }

  lemma SecondWindowMiddle()
    ensures TwoCallSites()[22..58] == Repeat('_', 18) + "73__B" + Repeat('_', 13)
  {
    var s := TwoCallSites();
    var a := LibraryLabel("A");
    var b := LibraryLabel("B");
    LabelMiddle("B");
    assert s[22..58] == a[22..] + "73" + b[..16];
    assert a[22..] == Repeat('_', 18);
    assert b[..16] == "__B" + Repeat('_', 13) by {
      assert b[..16] == b[..2] + b[2..38][..14];
    }
  }

  lemma LabelMiddle(name: string)
    requires 1 <= |name| <= NameWidth
    ensures LibraryLabel(name)[2..38] == name + Repeat('_', NameWidth - |name|)
  {
    var mid := LibraryLabel(name)[2..38];
    assert mid[..|name|] == name;
  }

  /** One entry of a reference list: the byte offset (half the hex index) and the width, 20 bytes. */
  datatype LinkReference = LinkReference(start: real, length: nat)

  function Reference(h: Hit): (r: LinkReference)
    ensures r.start * 2.0 == h.index as real && r.length == 20
  {
    LinkReference(h.index as real / 2.0, 20)
  }

  /** linker.ts:63-69: start the name's list if it has none yet, then push. */
  function AddReference(refs: Record<seq<LinkReference>>, h: Hit): Record<seq<LinkReference>> {
    Assign(refs, h.name, Lookup(refs, h.name).GetOr([]) + [Reference(h)])
  }

  /** The `linkReferences` object after visiting the hits in order. */
  function Group(hs: seq<Hit>): Record<seq<LinkReference>>
    decreases |hs|
  {
    if hs == [] then [] else AddReference(Group(hs[..|hs| - 1]), hs[|hs| - 1])
  }

  /** The references of the hits named `name`, in scan order. */
  function RefsFor(hs: seq<Hit>, name: string): seq<LinkReference>
    decreases |hs|
  {
    if hs == [] then []
    else RefsFor(hs[..|hs| - 1], name) + if hs[|hs| - 1].name == name then [Reference(hs[|hs| - 1])] else []
  }

  /** Every name holds exactly the references of its own hits, in order; names never hit are absent. */
  lemma {:induction false} GroupLookup(hs: seq<Hit>, name: string)
    ensures Lookup(Group(hs), name) == if RefsFor(hs, name) == [] then None else Some(RefsFor(hs, name))
    decreases |hs|
  {
    if hs != [] {
      var init, last := hs[..|hs| - 1], hs[|hs| - 1];
      GroupLookup(init, name);
      assert Group(hs) == AddReference(Group(init), last);
      assert RefsFor(hs, name) == RefsFor(init, name) + if last.name == name then [Reference(last)] else [];
      if last.name == name {
        assert Lookup(Group(hs), name) == Some(Lookup(Group(init), name).GetOr([]) + [Reference(last)]);
        assert Lookup(Group(init), name).GetOr([]) == RefsFor(init, name);
        assert RefsFor(hs, name) != [];
      } else {
        assert Lookup(Group(hs), name) == Lookup(Group(init), name);
        assert RefsFor(hs, name) == RefsFor(init, name);
      }
    }
  }

  /** A window in a suffix is a window in the whole string, shifted. */
  lemma WindowShift(s: string, o: nat, i: nat)
    requires o <= |s|
    ensures WindowAt(s[o..], i) <==> WindowAt(s, o + i)
  {
    if o + i + PlaceholderWidth <= |s| {
      assert s[o..][i + 2..i + 38] == s[o + i + 2..o + i + 38];
    }
  }

  /** Matching on the rest of the bytecode finds the first match of the whole at or after the cut. */
  lemma {:induction false} FirstWindowShift(s: string, o: nat, from: nat)
    requires o <= from && o <= |s|
    ensures FirstWindow(s, from).None? ==> FirstWindow(s[o..], from - o).None?
    ensures FirstWindow(s, from).Some? ==> FirstWindow(s[o..], from - o) == Some(FirstWindow(s, from).value - o)
    decreases |s| - from
  {
    WindowShift(s, o, from - o);
    if from + PlaceholderWidth <= |s| && !WindowAt(s, from) {
      FirstWindowShift(s, o, from + 1);
    }
  }

  /**
   * findLinkReferences, resuming after the whole placeholder each round: every
   * placeholder in the bytecode is reported once, under its stripped name.
   */
  method FindLinkReferences(bytecode: string) returns (refs: Record<seq<LinkReference>>)
    ensures refs == Group(Scan(bytecode, 0, Stride))
  {
    refs := [];
    var offset: nat := 0;
    var rest := bytecode;
    ghost var found: seq<Hit> := [];
    ghost var all := Scan(bytecode, 0, Stride);
    assert Pending(bytecode, 0, found, all);
    while true
      invariant offset <= |bytecode| && rest == bytecode[offset..]
      invariant Pending(bytecode, offset, found, all)
      invariant refs == Group(found)
      decreases |rest|
    {
      var m := FirstWindow(rest, 0);
      if m.None? {
        ScanDone(bytecode, offset, rest, found, all);
        break;
      }
      var start := m.value;
      var name := StripTrailingUnderscores(rest[start + 2..start + 38]);
      var h := Hit(name, offset + start);
      var next := offset + start + Stride;
      ScanStep(bytecode, offset, rest, start, next, h, found, all);
      GroupSnoc(found, h);
      refs := AddReference(refs, h);
      found := found + [h];
      offset := next;
      rest := rest[start + Stride..];
    }
  }

  /** The hits visited so far followed by those still ahead of the offset make up the whole scan. */
  ghost predicate Pending(s: string, offset: nat, found: seq<Hit>, all: seq<Hit>) {
    found + Scan(s, offset, Stride) == all
  }

  lemma ScanDone(s: string, offset: nat, rest: string, found: seq<Hit>, all: seq<Hit>)
    requires offset <= |s| && rest == s[offset..] && FirstWindow(rest, 0).None?
    requires Pending(s, offset, found, all)
    ensures found == all
  {
    FirstWindowShift(s, offset, offset);
  }

  /** One round of FindLinkReferences moves one hit from the pending scan to the visited ones. */
  lemma ScanStep(s: string, offset: nat, rest: string, start: nat, next: nat, h: Hit, found: seq<Hit>, all: seq<Hit>)
    requires offset <= |s| && rest == s[offset..] && FirstWindow(rest, 0) == Some(start)
    requires start + Stride <= |rest| && next == offset + start + Stride
    requires h == Hit(StripTrailingUnderscores(rest[start + 2..start + 38]), offset + start)
    requires Pending(s, offset, found, all)
    ensures Pending(s, next, found + [h], all)
    ensures next <= |s| && rest[start + Stride..] == s[next..]
  {
    RestFirst(s, offset, rest, start);
    RestName(s, offset, rest, start);
    ScanHead(s, offset, offset + start, next, h);
    MoveFirst(found, h, Scan(s, next, Stride), all);
  }

  /** The first match from `from`, at `i`, is the head of the scan from `from`; the scan goes on at `next`. */
  lemma ScanHead(s: string, from: nat, i: nat, next: nat, h: Hit)
    requires FirstWindow(s, from) == Some(i) && next == i + Stride
    requires i + PlaceholderWidth <= |s| && h == Hit(NameAt(s, i), i)
    ensures Scan(s, from, Stride) == [h] + Scan(s, next, Stride)
  {
    ScanUnfold(s, from, Stride, i);
  }

  /** A match on the rest of the bytecode is the first match of the whole from the offset. */
  lemma RestFirst(s: string, offset: nat, rest: string, start: nat)
    requires offset <= |s| && rest == s[offset..] && FirstWindow(rest, 0) == Some(start)
    ensures FirstWindow(s, offset) == Some(offset + start)
    ensures start + PlaceholderWidth <= |rest|
  {
    FirstWindowShift(s, offset, offset);
  }

  /** The name read from the rest of the bytecode is the name at the same place in the whole. */
  lemma RestName(s: string, offset: nat, rest: string, start: nat)
    requires offset <= |s| && rest == s[offset..] && start + PlaceholderWidth <= |rest|
    ensures StripTrailingUnderscores(rest[start + 2..start + 38]) == NameAt(s, offset + start)
  {
    assert rest[start + 2..start + 38] == s[offset + start + 2..offset + start + 38];
  }

  lemma MoveFirst(found: seq<Hit>, h: Hit, tl: seq<Hit>, all: seq<Hit>)
    requires found + ([h] + tl) == all
    ensures (found + [h]) + tl == all
  {
  }

  lemma GroupSnoc(hs: seq<Hit>, h: Hit)
    ensures Group(hs + [h]) == AddReference(Group(hs), h)
  {
    assert (hs + [h])[..|hs|] == hs;
  }

  /** findLinkReferences exactly as written, resuming 20 characters after each match start. */
  function FindLinkReferencesAsWritten(bytecode: string): Record<seq<LinkReference>> {
    Group(Scan(bytecode, 0, AsWrittenStride))
  }

  /** As written, the two call sites produce a phantom library with a reference inside the first placeholder. */
  lemma AsWrittenReportsPhantomLibrary()
    ensures Lookup(FindLinkReferencesAsWritten(TwoCallSites()), Repeat('_', 18) + "73__B")
         == Some([LinkReference(10.0, 20)])
  {
    AsWrittenScanOverlaps();
    var hs := Scan(TwoCallSites(), 0, AsWrittenStride);
    var phantom := Repeat('_', 18) + "73__B";
    assert phantom[0] == '_';
    GroupLookup(hs, phantom);
    assert RefsFor(hs[..1], phantom) == [] by {
      assert hs[..1][..0] == [];
    }
    assert RefsFor(hs[..2], phantom) == [Reference(hs[1])] by {
      assert hs[..2][..1] == hs[..1];
    }
    assert hs[..3] == hs;
    assert RefsFor(hs, phantom) == [Reference(hs[1])] by {
      assert hs[..2] == hs[..|hs| - 1];
    }
  }
}
