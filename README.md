# solc-js bridge, modelled in Dafny

This project models the JavaScript side of solc-js for Deno, the layer between a
caller and the Emscripten build of the Solidity compiler (`soljson`):

- **Linker** (`linker.ts`). It substitutes library addresses for the
  40-character placeholders left in hex bytecode, in both the plain
  `__Name___…__` form and the hashed `__$<34 hex>$__` form. It also reports
  where placeholders remain (`findLinkReferences`).
- **Translate** (`translate.ts`). The legacy assembly pretty-printer:
  escaping, snippet truncation, and the `.code` and `.data` layout.
- **BindingHelpers** (`bindings/helpers.ts`). Choosing an entry point by the
  symbols the module exports, with defaults and fallbacks, and the capability
  flags.
- **Core** (`bindings/core.ts`).
  - The alloc, version, license and reset selectors, and `setupCore`.
  - The heap helpers, over a `SolJson` class that owns the heap as an
    `array<Byte>`, a bump allocator, and the function table.
  - `copyToCString` and `copyFromCString`, down to the 32-bit little-endian
    pointer `setValue(ptr, buffer, '*')` writes.
- **Compile** (`bindings/compile.ts`).
  - Resolving the `callbacks` argument, and dispatching a callback kind to
    the import or SMT handler.
  - The trampoline the compiler calls: null context, reads its C strings,
    copies the reply back through the pointers.
  - `runWithCallbacks`: register once, call, remove in `finally`, reset on
    success.
  - `compileStandard` over `solidity_compile`.
- **LegacyBindings** (`bindings.ts`). The older single-file bindings: the
  compileJSON, compileJSONMulti and compileJSONCallback tiers, the two-tier
  `compileStandard`, `setupCompile`, and the variant of `runWithCallbacks`
  that treats `callbacks` differently.
- **StandardWrapper** (`wrapper.ts`).
  - The `features` object.
  - `compileStandardWrapper` with its request checks: JSON, language, sources,
    translated sources.
  - The optimizer and libraries settings.
  - The choice of tier, and `translateOutput`.
- **Common** (`common.ts`). `isNil`, JavaScript truthiness, and the fatal
  error document `formatFatalError` builds.

How the JavaScript world is represented:

- JavaScript values are the `Common.Value` datatype.
- An ordered JavaScript object is a `Records.Record`: a sequence of key/value
  pairs in enumeration order. Assignment keeps a key's position.
- The compiled module is the set of its non-nil exported symbols. `cwrap(name, …)`
  is a `Cwrap(name)` token.
- Exceptions are `Outcome.Thrown(message)`. A JavaScript `TypeError` (a
  property read on `null`, a call of a non-function) is the single token
  `"TypeError"`.
- The following are parameters:
  - `JSON.parse`, `JSON.stringify`, `translateJsonCompilerOutput` and Keccak-256;
  - the compiler's own entry points, each given as the sequence of callback
    requests it makes and the result it returns or throws.

## Model

| member | source | states |
|---|---|---|
| Common.IsNil | common.ts:14 | `== null` holds exactly for `null` and `undefined`, and a nil value is falsy |
| Common.IsNilExamples | common.ts:14 | `0`, `""` and `false` are not nil although they are falsy |
| Common.FormatFatalError | common.ts:1-12 | one error entry of type JSONError, component solcjs, severity error, whose message reads back as the given one |
| Common.FatalErrorInjective | common.ts:1-12 | two fatal documents are equal exactly when their messages are |
| Linker.LibraryLabel | linker.ts:36-38 | 40 characters: `__`, the name cut to 36, underscore padding, `__` |
| Linker.HashedLabelShape | linker.ts:4 | the hashed placeholder is `__$` + the first 34 hash characters + `$__` |
| Linker.ParseQualified | linker.ts:18-19 | `^([^:]+):(.+)$` matches exactly when the first colon has text on both sides and the tail has no line terminator; the capture is the tail |
| Linker.FlattenLibraries | linker.ts:8-22 | the loop builds the flattened `librariesComplete` map |
| Linker.FlattenPlainName | linker.ts:16-20 | a non-object entry whose key has no colon is registered under that key alone |
| Linker.FlatKeyRegistersBoth | linker.ts:16-21 | a non-object entry is registered under its key, and also under the part after `file:` when the key is qualified |
| Linker.NestedEntryRegistersBoth | linker.ts:10-15 | each entry of an object-valued library is registered both as `Name` and as `file:Name` |
| Linker.ReplaceAll | linker.ts:39 | replacing until `includes` fails keeps the length, leaves no occurrence, and changes nothing when none was present |
| Linker.ReplaceLabel | linker.ts:39 | the `while` loop computes ReplaceAll |
| Linker.ReplaceAllSingle | linker.ts:39 | a placeholder-shaped pattern that occurs once is replaced in place by an underscore-free address of its width, and every other character is kept |
| Linker.ReplaceAllKeepsAbsent | linker.ts:39 | substituting an underscore-free address never creates an occurrence of another placeholder |
| Linker.PadAddress | linker.ts:29-31 | 40 characters: zeros, then the address without `0x` |
| Linker.PaddedAddress | linker.ts:25-31 | succeeds exactly for a hex string `0x…` of at most 42 characters; the result is 40 underscore-free characters ending in the given digits; a failure names the library |
| Linker.LinkBytecode | linker.ts:6-47 | the two loops compute LinkedBytecode: flatten, then validate and replace entry by entry |
| Linker.LinkOnePlaceholder | linker.ts:24-46 | linking one library whose plain placeholder occurs once and whose hashed placeholder does not occur writes the zero-padded address over that placeholder and keeps the rest of the bytecode |
| Linker.LinkEntriesLength | linker.ts:24-44 | a successful link keeps the bytecode's length |
| Linker.LinkEntriesSucceedsIff | linker.ts:24-28 | linking succeeds exactly when every registered address is valid |
| Linker.LinkEntriesFailsAtFirst | linker.ts:24-28 | a failure is the error of the first rejected entry, in map order |
| Linker.LinkEntriesRemovesLabels | linker.ts:35-43 | after a successful link no plain or hashed placeholder of any registered library remains |
| Linker.LinkEntriesKeepsAbsent | linker.ts:35-43 | a placeholder that was absent stays absent |
| Linker.LinkEntriesWithoutLabels | linker.ts:35-43 | bytecode without any of the libraries' placeholders comes back unchanged |
| Linker.LinkIdempotent | linker.ts:6-47 | linking already-linked bytecode with the same libraries changes nothing |
| Linker.AsWrittenReplaceMakesNoProgress | linker.ts:26-39 | the address `0x` + a placeholder passes the check as written and pads to the placeholder itself, so the replace loop never progresses |
| Linker.FirstWindow | linker.ts:55 | the first index at or after the start where `__(.{36})__` matches, with no match before it |
| Linker.StripShape | linker.ts:61 | stripping trailing underscores leaves a prefix that does not end in `_`, followed in the original only by underscores |
| Linker.ScanSound | linker.ts:54-74 | every reported hit is a match, and its name is the stripped middle |
| Linker.ScanSpaced | linker.ts:71-73 | hits come in order, each at least the stride after the previous one |
| Linker.ScanEmptyIff | linker.ts:54-56 | nothing is reported exactly when there is no match |
| Linker.ScanMissesNoneBefore | linker.ts:54-58 | no match lies before the first hit |
| Linker.ScanMissesNoneBetween | linker.ts:71-73 | between hits, no match lies past the skipped stride |
| Linker.ScanMissesNoneAfter | linker.ts:71-73 | no match lies past the last hit's stride |
| Linker.LabelScanRoundTrip | linker.ts:36-38 | scanning a placeholder of a name of at most 36 characters that does not end in `_` reports exactly that name at index 0 |
| Linker.AsWrittenScanOverlaps | linker.ts:71-73 | with the stride of 20 as written, two adjacent call sites yield three hits, the middle one overlapping the first placeholder |
| Linker.ScanFindsCallSites | linker.ts:71-73 | with a stride of one placeholder, the same bytecode yields exactly its two call sites |
| Linker.Reference | linker.ts:65-69 | a reference's start is half its hex index and its length is 20 bytes |
| Linker.GroupLookup | linker.ts:63-69 | looking a name up in the grouped result gives its hits in order, and nothing for a name without hits |
| Linker.FindLinkReferences | linker.ts:49-76 | the loop returns the scan's hits grouped by library name |
| Linker.AsWrittenReportsPhantomLibrary | linker.ts:49-76 | as written, the result names a library made of padding, `73` and part of the next placeholder |
| Translate.EscapeMatchesSpec | translate.ts:4 | the three chained replacements equal one character-by-character escape |
| Translate.EscapeProperties | translate.ts:4 | escaped text holds no newline, carriage return or tab, grows by one character per such character, and is unchanged without them |
| Translate.JsSlice | translate.ts:13 | `slice` stays within the string, and is the ordinary substring for in-range bounds |
| Translate.Snippet | translate.ts:11-15 | the source column is empty without source or bounds, at most 33 characters, and holds no control character |
| Translate.Abbreviate | translate.ts:15 | a text longer than 30 characters keeps its first 30 followed by `...`, a shorter one is kept whole; the result is at most 33 characters and gains no control character |
| Translate.PrettyPrintLegacyAssemblyJSON | translate.ts:31-32 | the top-level rendering is non-empty and ends in a newline; a string or missing assembly is that text (or nothing) and a newline; a structured one opens with `.code`, then its item lines, then `.data` |
| Translate.FormatAssemblyText | translate.ts:7-29 | the method computes the recursive layout Format |
| Translate.FormatCode | translate.ts:10-20 | the `.code` loop computes the item lines in order |
| Translate.FormatData | translate.ts:21-27 | the `.data` loop computes the headers and the nested renderings |
| Translate.FormatItem | translate.ts:11-19 | one item line as the loop body builds it |
| Translate.PlainAssemblyLine | translate.ts:8 | a string or missing assembly renders as the prefix, the text (or nothing) and a newline |
| Translate.FormatEndsWithNewline | translate.ts:7-29 | every rendering is non-empty and ends in a newline |
| Translate.DataEndsWithNewline | translate.ts:21-27 | the `.data` section is empty or ends in a newline |
| Translate.StructuredLayout | translate.ts:9-21 | a structured assembly opens with `prefix.code`, then the item lines, then `prefix.data` |
| Translate.ItemLineIsOneLine | translate.ts:13-19 | an item line is one line, since the snippet is escaped |
| Translate.CodeTextLines | translate.ts:10-20 | the `.code` section has exactly one line per item |
| Translate.ItemIndent | translate.ts:17-19 | tags start at the prefix; every other item is indented by two spaces |
| BindingHelpers.BindSolcMethod | bindings/helpers.ts:4-16 | the default when the symbol is missing and a default was given, otherwise the cwrap of the name |
| BindingHelpers.EntryIfExported | bindings/helpers.ts:4-16 | with a `null` default, the binding exists exactly when the symbol is exported, and is then that symbol |
| BindingHelpers.BindSolcMethodWithFallbackFunc | bindings/helpers.ts:18-33 | the primary cwrap when exported, otherwise the fallback's binding with the final fallback as its default |
| BindingHelpers.PrimaryIgnoresFallback | bindings/helpers.ts:26-30 | with the primary exported, the fallback and final fallback make no difference |
| BindingHelpers.NeitherExported | bindings/helpers.ts:26-32 | with neither exported, the result is the final fallback, or a cwrap of the missing fallback symbol |
| BindingHelpers.AnyMethodExists | bindings/helpers.ts:45-47 | true exactly when some listed name is exported |
| BindingHelpers.AnyMethodExistsAppend | bindings/helpers.ts:45-47 | detection over two lists is the disjunction of each, in either order |
| BindingHelpers.GetSupportedMethods | bindings/helpers.ts:35-43 | each flag holds exactly when its symbol is exported; standard JSON needs `compileStandard` or `solidity_compile`; the three legacy flags stay unset |
| BindingHelpers.SupportedMethodsMonotone | bindings/helpers.ts:35-47 | exporting more symbols never switches a flag off |
| Core.BindAlloc | bindings/core.ts:39-55 | `solidity_alloc` when exported, the module's `_malloc` otherwise |
| Core.BindVersion | bindings/core.ts:62-70 | `solidity_version` when exported, otherwise a cwrap of `version` |
| Core.BindLicense | bindings/core.ts:79-89 | `solidity_license`, else `license`, else the empty function |
| Core.BindReset | bindings/core.ts:96-104 | bound exactly when `solidity_reset` is exported |
| Core.SetupCore | bindings/core.ts:5-28 | alloc is never null and version is always a cwrap |
| Core.SetupCoreMatchesFlags | bindings/core.ts:5-11 | each selector picks the native symbol exactly when the matching capability flag is set |
| Core.WordRoundTrip | bindings/core.ts:133 | a 32-bit pointer stored as four little-endian bytes reads back unchanged |
| Core.SlotAddress | bindings/core.ts:133 | `HEAP32[ptr >> 2]` addresses the aligned slot below a non-negative 32-bit pointer |
| Core.CString | bindings/core.ts:143-145 | the null pointer reads as the empty string; otherwise the bytes up to the first NUL or the end of the heap |
| Core.Allocate | bindings/core.ts:130 | the allocator returns the old top when the request fits and 0 otherwise; every request is logged |
| Core.CopyToCStringFrame | bindings/core.ts:127-134 | only the new buffer and the pointer's slot change |
| Core.CopyToCStringRoundTrip | bindings/core.ts:127-134 | afterwards the slot holds the buffer's address and the C string there reads back as the copied text |
| Core.CopyToCStringAllocationFails | bindings/core.ts:127-134 | when the allocator fails the slot holds 0, which reads as the empty string |
| Core.SolJson.Alloc | bindings/core.ts:130 | the heap's allocator, changing only the allocation state |
| Core.SolJson.Write | bindings/core.ts:132 | `stringToUTF8` writes the bytes in place; writes past the heap are dropped |
| Core.SolJson.CopyToCString | bindings/core.ts:127-134 | the heap becomes CopyToCStringSpec of the old heap, and the function table is untouched |
| Core.SolJson.AddFunction | bindings/core.ts:147-149 | returns a fresh nonzero table index, registered with its signature |
| Core.SolJson.RemoveFunction | bindings/core.ts:151-153 | removes exactly that index from the table |
| Core.SolJson.Reset | bindings/compile.ts:123-130 | `solidity_reset` frees every allocation and keeps the table |
| Compile.ResolveCallbacks | bindings/compile.ts:72-76 | a truthy non-object is refused with "Invalid callback object specified."; falsy values become `{}`; an object is used as given |
| Compile.Dispatch | bindings/compile.ts:98-106 | a kind other than `source` or `smt-query` throws "Invalid callback kind specified." |
| Compile.DefaultReplies | bindings/compile.ts:78-96 | with no handlers, each kind gets its "… callback not supported" error |
| Compile.DispatchRoutes | bindings/compile.ts:98-106 | `source` depends only on the import handler, and `smt-query` only on the SMT handler |
| Compile.WriteReply | bindings/compile.ts:55-60 | copying a reply requests one buffer for the contents and then one for the error, each only when present, and keeps the heap size |
| Compile.Serve | bindings/compile.ts:50-61 | a non-null context throws "Callback context must be null."; a served reply keeps the heap size |
| Compile.ServeSourceRoundTrip | bindings/compile.ts:50-61 | for a `source` request answered with contents, the contents pointer afterwards leads to exactly those contents |
| Compile.NonNullContextStops | bindings/compile.ts:52 | a request with a non-null context ends the compile call with that exception |
| Compile.Trampoline | bindings/compile.ts:50-61 | the callback either throws as Serve does and changes nothing, or leaves the heap as Serve does |
| Compile.CallEntry | bindings/compile.ts:113-118 | the compile call serves the entry point's requests in order and records the call with its arguments |
| Compile.RunProtocol | bindings/compile.ts:110-131 | the trampoline is registered once under a fresh index and removed afterwards; the entry point gets the arguments plus that index and `null`; reset runs exactly on success when bound |
| Compile.RunWithCallbacks | bindings/compile.ts:65-132 | a refused callbacks argument throws before anything is registered and leaves the heap, the table, the calls and the resets as they were; otherwise one fresh registration under the trampoline signature, its removal, the entry point called with the arguments plus that index and `null`, the heap and result of the served call, and a reset exactly on success |
| Compile.CompileStandard | bindings/compile.ts:23-38 | a refused callbacks argument throws and changes nothing; otherwise the trampoline is registered and removed, and with `solidity_compile` exported it receives `[input, cb, null]` and the result is that of the served call, while without it nothing is called, the output is `undefined` and a bound reset runs |
| LegacyBindings.ResolveLegacyCallbacks | bindings.ts:177-181 | only `undefined` takes the default; `null` throws a TypeError; other values have no handlers |
| LegacyBindings.CallbackResolutionDiffers | bindings.ts:177-181 | the two bindings differ exactly for `null` and for truthy non-objects |
| LegacyBindings.LegacyRunWithCallbacks | bindings.ts:174-230 | `null` callbacks throw a TypeError before registration and leave the heap, the table, the calls and the resets as they were; otherwise one fresh registration under the trampoline signature, its removal, the entry point called with the arguments plus that index and `null`, the heap and result of the served call, and a reset exactly on success |
| LegacyBindings.BindCompileStandard | bindings.ts:248-284 | `solidity_compile` wins over `compileStandard`; bound exactly when the standard-JSON flag is set |
| LegacyBindings.SetupCompile | bindings.ts:136-296 | the four bindings of `setupCompile`: `compileJson`, `compileJsonCallback` and `compileJsonMulti` are bound exactly when `compileJSON`, `compileJSONCallback` and `compileJSONMulti` are exported, and the standard one agrees with the capability flag |
| LegacyBindings.CompileJsonCallback | bindings.ts:232-246 | `null` callbacks throw and change nothing; otherwise the trampoline is registered under a fresh index `cb` and removed, `compileJSONCallback` receives `[input, optimize, cb, null]`, the heap and result are those of the served call, and a bound reset runs exactly on success |
| LegacyBindings.LegacyCompileStandard | bindings.ts:248-284 | `null` callbacks throw and change nothing; otherwise the trampoline is registered under a fresh index `cb` and removed, the winning entry point receives `[input, cb, null]`, the heap and result are those of the served call, and a bound reset runs exactly on success |
| StandardWrapper.FeaturesOf | wrapper.ts:138-143 | multipleInputs and importCallback combine their legacy flag with the standard one; the other two are the standard flag |
| StandardWrapper.FeaturesFromSymbols | wrapper.ts:138-143 | with the flags bindings compute, all four features coincide with standard-JSON support |
| StandardWrapper.IsOptimizerEnabled | wrapper.ts:49-51 | truthy exactly when `settings.optimizer.enabled` is truthy, and `false` otherwise |
| StandardWrapper.LibrariesSupplied | wrapper.ts:68-70 | `settings.libraries` when settings exist, `undefined` otherwise |
| StandardWrapper.SourcesOf | wrapper.ts:53-66 | a map with the same keys exactly when every content is copyable; otherwise the failure comes from the first bad entry |
| StandardWrapper.SourcesOfContents | wrapper.ts:56-58 | in a translated map, each key holds the `content` of the last entry with that key |
| StandardWrapper.SourcesOfDistinctContents | wrapper.ts:56-58 | with distinct keys, every source's key holds its own `content` |
| StandardWrapper.TranslateSources | wrapper.ts:53-66 | the loop with its early return computes SourcesOf |
| StandardWrapper.SourcesPrefixFails | wrapper.ts:56-62 | once a prefix fails, the rest of the sources is never looked at |
| StandardWrapper.CheckRequest | wrapper.ts:77-100 | a request is accepted exactly when it parses, names Solidity and has non-empty, fully copyable sources; rejections carry one of the wrapper's messages |
| StandardWrapper.RequestChecksInOrder | wrapper.ts:77-100 | in order: invalid JSON gives "Invalid JSON supplied: " and the parser's message; a nil request is a TypeError; another language gives the Solidity message; nil or zero-length sources give "No input sources specified."; a nil source entry is a TypeError when its `content` is read; a `null` content, or no translated sources, gives "Failed to process sources."; otherwise the request is accepted with the translated sources, the optimize flag and the libraries |
| StandardWrapper.TranslateOutput | wrapper.ts:31-47 | an exception propagates; invalid JSON gives the fatal document "Compiler returned invalid JSON: " and the parser's message; a nil translation gives "Failed to process output."; otherwise the result is the JSON of the translation |
| StandardWrapper.CompileStandardWrapper | wrapper.ts:72-115 | a native `compileStandard` never yields a fatal document; any fatal document carries one of the wrapper's messages |
| StandardWrapper.StandardBypassesValidation | wrapper.ts:73-75 | with a native `compileStandard` the raw input and the caller's callbacks are passed on and no parsing happens |
| StandardWrapper.RejectedRequestsNeverCompile | wrapper.ts:77-100 | without it, a request that is not accepted ends in a fatal document or a TypeError, whatever the entry points do |
| StandardWrapper.CallArguments | wrapper.ts:103-110 | the legacy tiers receive the JSON of `{sources}` built from the translated sources, and the optimize flag of the request |
| StandardWrapper.CallbackTierPreferred | wrapper.ts:103-107 | the callback tier is preferred and receives the sources' JSON, the optimize flag and the caller's callbacks; the multi tier is then never consulted |
| StandardWrapper.MultiTierOrNone | wrapper.ts:109-114 | without the callback tier, the multi tier is used without the caller's callbacks, so they make no difference; without either tier the result is "Compiler does not support any known interface." |
| StandardWrapper.FatalMessages | wrapper.ts:72-115 | a fatal result's message reads back from the document and is one of the wrapper's |

## Left out

- Linker.LinkBytecode: rejects an address with a non-hex character after `0x`. The code as written accepts it; see Findings.
- Linker.FindLinkReferences: resumes after a whole placeholder (40 characters) instead of 20; see Findings.
- Linker.WindowAt: does not exclude line terminators from the 36 middle characters. Bytecode is hex text and has none.
- Linker.FlattenLibraries: the for-in order of integer-like keys (numeric keys first) is not modelled; keys are taken in insertion order.
- Linker.Group: the same simplification for the link-reference map: a library name that looks like an integer would be enumerated first.
- StandardWrapper.SourcesOf: the same simplification for source names: integer-like names would be enumerated, and copied, first.
- StandardWrapper.SourcesOf: a source named `__proto__` is copied like any other. In the code, the assignment at wrapper.ts:58 sets the prototype of the new object instead (or does nothing), so that source is not passed on, and a request whose only source it is ends in "Failed to process sources." (wrapper.ts:98-100).
- Linker.FlattenLibraries: a `__proto__` key is registered like any other. In the code, the assignments at linker.ts:13, 19 and 20 set the prototype instead (or do nothing), so that entry is never linked.
- Linker.FindLinkReferences: a placeholder whose name is an inherited property of plain objects (`__constructor` + 25 × `_` + `__`, and likewise `toString` or `valueOf`) is reported as an entry. In the code, linker.ts:63 finds the inherited value, no array is created, and the `push` at linker.ts:65 throws a TypeError.
- `$` patterns in `String.replace` replacements are not modelled. Addresses are restricted to hex digits, so they cannot contain one.
- Keccak-256 is a parameter.
- Text is a sequence of Unicode characters (scalar values), while JavaScript's `length`, `slice` and for-in count UTF-16 code units. The two agree on text inside the Basic Multilingual Plane. A character outside it (an emoji, say) is one element here and two code units in the code, so the lengths and cut points below differ for such text. The members affected follow.
- Translate.Abbreviate: the 30-character limit and the first-30 cut at translate.ts:15 count characters, not code units. A text of 31 code units holding one such character is kept whole here and cut by the code.
- Translate.JsSlice: `slice` indices count characters, not code units, so the source snippet cut at translate.ts:13 can differ for such text.
- Translate.Snippet: inherits the two differences above.
- Linker.LibraryLabel: the 36-character prefix of linker.ts:37 and the padding of linker.ts:38 count characters. In the code a name with such a character keeps fewer characters, and the cut may split a surrogate pair.
- Linker.AcceptedAsWritten: the `length > 42` test of linker.ts:26 counts characters. It agrees with the code on every hex address, the only kind Linker.PaddedAddress accepts.
- Common.Prop: the `length` of a string is its count of characters, not of code units (as used for `sources.length` at wrapper.ts:90).
- Common.ForInEntries: a string is enumerated one character per index, not one code unit per index.
- Strings handed to the compiler are byte sequences: UTF-8 encoding and decoding (`lengthBytesUTF8`, `stringToUTF8`, `UTF8ToString`) is not modelled. Text is mapped to bytes character by character (`Compile.Ascii`).
- Core.SolJson.Alloc: `solidity_alloc` and `_malloc` are one bump allocator that returns 0 when the heap is full. The real allocators' reuse of freed memory is not modelled.
- `_malloc` is taken to be present when `solidity_alloc` is not exported.
- Core.SolJson.AddFunction: the function table never reuses an index. Emscripten may reuse a removed one.
- `Runtime.addFunction` and `Runtime.removeFunction` (older Emscripten) are the same table as `addFunction`.
- Compile.CallEntry: the compiler itself does not write to the heap between callbacks. Its allocations other than through the callbacks are not modelled.
- `console.log` in the trampoline is I/O and is left out.
- The "Invalid callback specified." assertion in `wrapCallbackWithKind` can never fire, because it is always passed a function. It is not modelled.
- A user callback whose `contents` or `error` is not a string is modelled as `None`, and nothing is copied. A non-function `import` or `smtSolver` is `NotCallable`, and calling it is a TypeError.
- JavaScript `TypeError` messages are not modelled; each is the token `"TypeError"`.
- StandardWrapper.CompileStandardWrapper: the bindings it receives are those of `bindings.ts`, and its flags those of `bindings/helpers.ts`. `wrapper.ts` imports `setupBindings` from a module whose content is not part of this model.
- The `version`, `semver`, `license` and `lowlevel` members of `wrapper()` only pass bindings through, and are not modelled separately.
- `JSON.parse`, `JSON.stringify` and `translateJsonCompilerOutput` are parameters, and so is the behaviour of each compiler entry point.
- Where the documented behaviour and the code differ, the code is followed. One example is the wrapper's single-file tier: it has no "Multiple sources provided" error in the code, and none in the model. The two exceptions are the defects under Findings: Linker.PaddedAddress and Linker.FindLinkReferences model the intended behaviour, and the code as written is modelled beside them.
- Translate.ItemLine: an item's `value` is a string or missing. A `null` value would render as `null` (translate.ts:11), a missing `.code` would throw at translate.ts:10, and a missing `name` would render as `undefined` (translate.ts:19). None of these is modelled.
- Downloading compiler builds, module loading and caching are outside this model.

## Findings

| source | as written | input that shows it | evidently intended | confidence | as-written member | corrected member |
|---|---|---|---|---|---|---|
| linker.ts:26-39 | an address is accepted when it starts with `0x` and has at most 42 characters, whatever the characters are | library `A` with the address `"0x" + "__A" + 35 × "_" + "__"`, and bytecode holding `A`'s placeholder: the padded address equals the placeholder, so `while (bytecode.includes(libLabel))` never ends | accept only hex digits after `0x`, so that a replacement removes the placeholder | high, not executed | Linker.AsWrittenReplaceMakesNoProgress | Linker.PaddedAddress |
| linker.ts:71-73 | after a match the scan drops `start + 20` characters, half a placeholder | the placeholder of `A`, then `73`, then the placeholder of `B`: the scan resumes inside `A`'s placeholder and reports a third library `"__________________73__B"` at byte 10 | drop the whole 40-character placeholder, reporting only `A` at byte 0 and `B` at byte 21 | medium, not executed | Linker.AsWrittenReportsPhantomLibrary | Linker.FindLinkReferences |
