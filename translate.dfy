/**
 * The legacy-assembly pretty printer: renders the recursive `legacyAssembly`
 * value of the compiler's output as indented text, one line per instruction,
 * with a short escaped snippet of the source each instruction came from.
 */
module Translate {
  import opened Options

  // ---------------------------------------------------------------- escaping

  /** `text.replace(/c/g, rep)`: every occurrence of the character `c` replaced. */
  function ReplaceChar(text: string, c: char, rep: string): string
    decreases |text|
  {
    if text == [] then []
    else (if text[0] == c then rep else [text[0]]) + ReplaceChar(text[1..], c, rep)
  }

  /** escapeString: three global replacements, newline first, then carriage return, then tab. */
  function Escape(text: string): string {
    ReplaceChar(ReplaceChar(ReplaceChar(text, '\n', "\\n"), '\r', "\\r"), '\t', "\\t")
  }

  predicate IsControl(c: char) {
    c == '\n' || c == '\r' || c == '\t'
  }

  /** The escape of a single character: a backslash and a letter for the three controls, else itself. */
  function EscapeChar(c: char): (r: string)
    ensures IsControl(c) ==> |r| == 2 && r[0] == '\\'
    ensures !IsControl(c) ==> r == [c]
  {
    if c == '\n' then "\\n" else if c == '\r' then "\\r" else if c == '\t' then "\\t" else [c]
  }

  /** A one-pass reference definition of the escape, character by character. */
  function EscapeSpec(text: string): string
    decreases |text|
  {
    if text == [] then [] else EscapeChar(text[0]) + EscapeSpec(text[1..])
  }

  function ControlCount(text: string): nat {
    multiset(text)['\n'] + multiset(text)['\r'] + multiset(text)['\t']
  }

  lemma {:induction false} ReplaceCharAppend(a: string, b: string, c: char, rep: string)
    ensures ReplaceChar(a + b, c, rep) == ReplaceChar(a, c, rep) + ReplaceChar(b, c, rep)
    decreases |a|
  {
    if a != [] {
      assert (a + b)[1..] == a[1..] + b;
      ReplaceCharAppend(a[1..], b, c, rep);
    } else {
      assert a + b == b;
    }
  }

  /** Escaping distributes over concatenation. */
  lemma EscapeAppend(a: string, b: string)
    ensures Escape(a + b) == Escape(a) + Escape(b)
  {
    ReplaceCharAppend(a, b, '\n', "\\n");
    var a1, b1 := ReplaceChar(a, '\n', "\\n"), ReplaceChar(b, '\n', "\\n");
    ReplaceCharAppend(a1, b1, '\r', "\\r");
    var a2, b2 := ReplaceChar(a1, '\r', "\\r"), ReplaceChar(b1, '\r', "\\r");
    ReplaceCharAppend(a2, b2, '\t', "\\t");
  }

  lemma ReplaceCharSingle(d: char, c: char, rep: string)
    ensures ReplaceChar([d], c, rep) == if d == c then rep else [d]
  {
    assert [d][1..] == [];
  }

  lemma {:induction false} ReplaceCharAbsent(text: string, c: char, rep: string)
    requires c !in text
    ensures ReplaceChar(text, c, rep) == text
    decreases |text|
  {
    if text != [] {
      ReplaceCharAbsent(text[1..], c, rep);
      assert text == [text[0]] + text[1..];
    }
  }

  lemma EscapeSingle(c: char)
    ensures Escape([c]) == EscapeChar(c)
  {
    ReplaceCharSingle(c, '\n', "\\n");
    var s1 := ReplaceChar([c], '\n', "\\n");
    if c == '\r' {
      ReplaceCharSingle(c, '\r', "\\r");
      ReplaceCharAbsent("\\r", '\t', "\\t");
    } else if c == '\t' {
      ReplaceCharSingle(c, '\r', "\\r");
      ReplaceCharSingle(c, '\t', "\\t");
    } else if c == '\n' {
      ReplaceCharAbsent(s1, '\r', "\\r");
      ReplaceCharAbsent(s1, '\t', "\\t");
    } else {
      ReplaceCharSingle(c, '\r', "\\r");
      ReplaceCharSingle(c, '\t', "\\t");
    }
  }

  /** The three successive passes agree with the one-pass definition: no pass sees another's output. */
  lemma {:induction false} EscapeMatchesSpec(text: string)
    ensures Escape(text) == EscapeSpec(text)
    decreases |text|
  {
    if text != [] {
      assert text == [text[0]] + text[1..];
      EscapeAppend([text[0]], text[1..]);
      EscapeSingle(text[0]);
      EscapeMatchesSpec(text[1..]);
    }
  }

  /** The escaped text holds no newline, carriage return or tab, and grows by one per control character. */
  lemma {:induction false} EscapeSpecProperties(text: string)
    ensures forall i :: 0 <= i < |EscapeSpec(text)| ==> !IsControl(EscapeSpec(text)[i])
    ensures |EscapeSpec(text)| == |text| + ControlCount(text)
    decreases |text|
  {
    if text != [] {
      EscapeSpecProperties(text[1..]);
      assert text == [text[0]] + text[1..];
      assert multiset(text) == multiset{text[0]} + multiset(text[1..]);
      var head, tail := EscapeChar(text[0]), EscapeSpec(text[1..]);
      forall i | 0 <= i < |head + tail| ensures !IsControl((head + tail)[i]) {
        if i >= |head| {
          assert (head + tail)[i] == tail[i - |head|];
        }
      }
    }
  }

  /** escapeString, stated: no control character survives, and only they grow. */
  lemma EscapeProperties(text: string)
    ensures forall i :: 0 <= i < |Escape(text)| ==> !IsControl(Escape(text)[i])
    ensures |Escape(text)| == |text| + ControlCount(text)
    ensures (forall i :: 0 <= i < |text| ==> !IsControl(text[i])) ==> Escape(text) == text
  {
    EscapeMatchesSpec(text);
    EscapeSpecProperties(text);
    if forall i :: 0 <= i < |text| ==> !IsControl(text[i]) {
      NoControlUnchanged(text);
    }
  }

  lemma {:induction false} NoControlUnchanged(text: string)
    requires forall i :: 0 <= i < |text| ==> !IsControl(text[i])
    ensures EscapeSpec(text) == text
    decreases |text|
  {
    if text != [] {
      NoControlUnchanged(text[1..]);
      assert text == [text[0]] + text[1..];
    }
  }

  // ---------------------------------------------------------------- assembly values

  /** One instruction of `.code`; each of these fields may be missing. */
  datatype Item = Item(name: string, value: Option<string>, begin: Option<int>, end: Option<int>)

  /**
   * An assembly: a plain string, a missing one (`null` or `undefined`), or an object
   * with `.code` and the `.data` entries in their enumeration order (a missing
   * `.data` is the empty list).
   */
  datatype Assembly =
    | AsmText(text: string)
    | AsmNil
    | Structured(code: seq<Item>, data: seq<(string, Assembly)>)

  /** `s.slice(begin, end)` on integers: negative positions count from the end, and both clamp to the string. */
  function JsSlice(s: string, begin: int, end: int): (r: string)
    ensures |r| <= |s|
    ensures 0 <= begin <= end <= |s| ==> r == s[begin..end]
  {
    var from := if begin < 0 then (if |s| + begin < 0 then 0 else |s| + begin) else if begin > |s| then |s| else begin;
    var to := if end < 0 then (if |s| + end < 0 then 0 else |s| + end) else if end > |s| then |s| else end;
    if from < to then s[from..to] else []
  }

  const SnippetWidth := 30

  /** The source column of an instruction: escaped, and cut to 30 characters plus `...` when longer. */
  function Snippet(item: Item, source: Option<string>): (src: string)
    ensures |src| <= SnippetWidth + 3
    ensures source.None? || item.begin.None? || item.end.None? ==> src == []
    ensures forall i :: 0 <= i < |src| ==> !IsControl(src[i])
  {
    if source.Some? && item.begin.Some? && item.end.Some? then
      var text := JsSlice(source.value, item.begin.value, item.end.value);
      EscapeProperties(text);
      Abbreviate(Escape(text))
    else []
  }

  /** The first 30 characters and `...` when the text is longer than 30, else the text itself. */
  function Abbreviate(full: string): (r: string)
    ensures |r| <= SnippetWidth + 3
    ensures |full| <= SnippetWidth ==> r == full
    ensures |full| > SnippetWidth ==> |r| == SnippetWidth + 3 && r[..SnippetWidth] == full[..SnippetWidth] && r[SnippetWidth..] == "..."
    ensures (forall i :: 0 <= i < |full| ==> !IsControl(full[i])) ==> forall i :: 0 <= i < |r| ==> !IsControl(r[i])
  {
    if |full| > SnippetWidth then full[..SnippetWidth] + "..." else full
  }

  /** The line of one `.code` item: indented unless a tag, then name, value, three tabs and the snippet. */
  function ItemLine(item: Item, prefix: string, source: Option<string>): string {
    (if item.name != "tag" then "  " else "")
    + prefix + item.name + " " + item.value.GetOr("") + "\t\t\t" + Snippet(item, source) + "\n"
  }

  /** The `.code` lines, in order. */
  function CodeText(items: seq<Item>, prefix: string, source: Option<string>): string
    decreases |items|
  {
    if items == [] then []
    else CodeText(items[..|items| - 1], prefix, source) + ItemLine(items[|items| - 1], prefix, source)
  }

  /** formatAssemblyText as a function. */
  function Format(asm: Assembly, prefix: string, source: Option<string>): string
    decreases asm, 1, 0
  {
    match asm
    case AsmText(t) => prefix + t + "\n"
    case AsmNil => prefix + "\n"
    case Structured(code, data) =>
      prefix + ".code\n" + CodeText(code, prefix, source) + prefix + ".data\n" + DataText(asm, data, prefix, source)
  }

  /** The `.data` section: for each entry, a `key:` header and the nested rendering four spaces deeper. */
  function DataText(parent: Assembly, entries: seq<(string, Assembly)>, prefix: string, source: Option<string>): string
    requires parent.Structured? && entries <= parent.data
    decreases parent, 0, |entries|
  {
    if entries == [] then []
    else
      var (key, item) := entries[|entries| - 1];
      assert entries[|entries| - 1] in parent.data;
      DataText(parent, entries[..|entries| - 1], prefix, source)
      + "  " + prefix + key + ":\n" + Format(item, prefix + "    ", source)
  }

  /** prettyPrintLegacyAssemblyJSON: the top level has no prefix and the source is given. */
  function PrettyPrintLegacyAssemblyJSON(assembly: Assembly, source: string): (r: string)
    ensures |r| > 0 && r[|r| - 1] == '\n'
    ensures assembly.AsmText? ==> r == assembly.text + "\n"
    ensures assembly.AsmNil? ==> r == "\n"
    ensures assembly.Structured? ==>
              var c := CodeText(assembly.code, "", Some(source));
              && |r| >= 12 + |c|
              && r[..6] == ".code\n"
              && r[6..6 + |c|] == c
              && r[6 + |c|..12 + |c|] == ".data\n"
  {
    FormatEndsWithNewline(assembly, "", Some(source));
    if assembly.Structured? then
      StructuredLayout(assembly, "", Some(source));
      Format(assembly, "", Some(source))
    else
      Format(assembly, "", Some(source))
  }

  /**
   * formatAssemblyText, accumulating the text as the source does: the `.code`
   * lines in one loop, the `.data` entries in another that recurses.
   */
  method FormatAssemblyText(asm: Assembly, prefix: string, source: Option<string>) returns (text: string)
    ensures text == Format(asm, prefix, source)
    decreases asm, 1
  {
    if !asm.Structured? {
      return prefix + (if asm.AsmText? then asm.text else "") + "\n";
    }
    var code := FormatCode(asm.code, prefix, source);
    var data := FormatData(asm, prefix, source);
    text := prefix + ".code\n" + code + prefix + ".data\n" + data;
  }

  /** The `forEach` over `.code`. */
  method FormatCode(code: seq<Item>, prefix: string, source: Option<string>) returns (text: string)
    ensures text == CodeText(code, prefix, source)
  {
    text := "";
    for i := 0 to |code|
      invariant text == CodeText(code[..i], prefix, source)
    {
      var line := FormatItem(code[i], prefix, source);
      CodeTextSnoc(code, i, prefix, source);
      text := text + line;
    }
    assert code[..|code|] == code;
  }

  /** The `for-in` over `.data`, rendering each entry four spaces deeper. */
  method FormatData(asm: Assembly, prefix: string, source: Option<string>) returns (text: string)
    requires asm.Structured?
    ensures text == DataText(asm, asm.data, prefix, source)
    decreases asm, 0
  {
    text := "";
    var data := asm.data;
    for i := 0 to |data|
      invariant text == DataText(asm, data[..i], prefix, source)
    {
      var (key, item) := data[i];
      assert data[i] in asm.data;
      var nested := FormatAssemblyText(item, prefix + "    ", source);
      DataTextSnoc(asm, i, prefix, source);
      text := text + "  " + prefix + key + ":\n" + nested;
    }
    assert data[..|data|] == data;
  }

  lemma DataTextSnoc(asm: Assembly, i: nat, prefix: string, source: Option<string>)
    requires asm.Structured? && i < |asm.data|
    ensures DataText(asm, asm.data[..i + 1], prefix, source)
         == DataText(asm, asm.data[..i], prefix, source)
            + "  " + prefix + asm.data[i].0 + ":\n" + Format(asm.data[i].1, prefix + "    ", source)
  {
    assert asm.data[..i + 1][..i] == asm.data[..i];
  }

  /** The `forEach` callback over `.code`: the line of one item. */
  method FormatItem(item: Item, prefix: string, source: Option<string>) returns (line: string)
    ensures line == ItemLine(item, prefix, source)
  {
    var src := "";
    if source.Some? && item.begin.Some? && item.end.Some? {
      src := Escape(JsSlice(source.value, item.begin.value, item.end.value));
    }
    if |src| > SnippetWidth {
      src := src[..SnippetWidth] + "...";
    }
    var indent := "";
    if item.name != "tag" {
      indent := "  ";
    }
    line := indent + prefix + item.name + " " + item.value.GetOr("") + "\t\t\t" + src + "\n";
  }

  lemma CodeTextSnoc(code: seq<Item>, i: nat, prefix: string, source: Option<string>)
    requires i < |code|
    ensures CodeText(code[..i + 1], prefix, source) == CodeText(code[..i], prefix, source) + ItemLine(code[i], prefix, source)
  {
    assert code[..i + 1][..i] == code[..i];
  }

  // ---------------------------------------------------------------- properties

  /** A string or missing assembly is one line: the prefix and the text (empty when missing). */
  lemma PlainAssemblyLine(asm: Assembly, prefix: string, source: Option<string>)
    requires !asm.Structured?
    ensures Format(asm, prefix, source) == prefix + (if asm.AsmText? then asm.text else "") + "\n"
  {
  }

  /** Every rendering ends with a newline. */
  lemma FormatEndsWithNewline(asm: Assembly, prefix: string, source: Option<string>)
    ensures var t := Format(asm, prefix, source); |t| > 0 && t[|t| - 1] == '\n'
    decreases asm
  {
    match asm
    case AsmText(_) =>
    case AsmNil =>
    case Structured(code, data) =>
      DataEndsWithNewline(asm, data, prefix, source);
  }

  lemma DataEndsWithNewline(parent: Assembly, entries: seq<(string, Assembly)>, prefix: string, source: Option<string>)
    requires parent.Structured? && entries <= parent.data
    ensures var t := DataText(parent, entries, prefix, source); t == [] || t[|t| - 1] == '\n'
    decreases parent, 0, |entries|
  {
    if entries != [] {
      assert entries[|entries| - 1] in parent.data;
      FormatEndsWithNewline(entries[|entries| - 1].1, prefix + "    ", source);
    }
  }

  /** A structured rendering opens with the `.code` header, then the item lines, then the `.data` header. */
  lemma StructuredLayout(asm: Assembly, prefix: string, source: Option<string>)
    requires asm.Structured?
    ensures var t := Format(asm, prefix, source);
      var c := CodeText(asm.code, prefix, source);
      && t[..|prefix| + 6] == prefix + ".code\n"
      && t[|prefix| + 6..|prefix| + 6 + |c|] == c
      && t[|prefix| + 6 + |c|..|prefix| + 12 + |c| + |prefix|] == prefix + ".data\n"
  {
    var c := CodeText(asm.code, prefix, source);
    var d := DataText(asm, asm.data, prefix, source);
    assert Format(asm, prefix, source) == prefix + ".code\n" + c + prefix + ".data\n" + d;
    SectionsLayout(prefix, c, d);
  }

  /** The two section headers and the code text sit at fixed places in the rendering. */
  lemma SectionsLayout(prefix: string, c: string, d: string)
    ensures var t := prefix + ".code\n" + c + prefix + ".data\n" + d;
      && t[..|prefix| + 6] == prefix + ".code\n"
      && t[|prefix| + 6..|prefix| + 6 + |c|] == c
      && t[|prefix| + 6 + |c|..|prefix| + 12 + |c| + |prefix|] == prefix + ".data\n"
  {
    var t := prefix + ".code\n" + c + prefix + ".data\n" + d;
    assert t == (prefix + ".code\n") + c + (prefix + ".data\n") + d;
    FourParts(prefix + ".code\n", c, prefix + ".data\n", d);
  }

  lemma FourParts(a: string, b: string, c: string, d: string)
    ensures (a + b + c + d)[..|a|] == a
    ensures (a + b + c + d)[|a|..|a| + |b|] == b
    ensures (a + b + c + d)[|a| + |b|..|a| + |b| + |c|] == c
  {
  }

  function Newlines(s: string): nat {
    multiset(s)['\n']
  }

  /** A line assembled from newline-free pieces and one final newline holds exactly one newline. */
  lemma OneLine(indent: string, prefix: string, name: string, value: string, src: string)
    requires '\n' !in indent && '\n' !in prefix && '\n' !in name && '\n' !in value && '\n' !in src
    ensures Newlines(indent + prefix + name + " " + value + "\t\t\t" + src + "\n") == 1
  {
    var body := indent + prefix + name + " " + value + "\t\t\t" + src;
    assert '\n' !in body;
    assert multiset(body + "\n") == multiset(body) + multiset{'\n'};
  }

  /** An item line is exactly one line when its name and value hold no newline. */
  lemma ItemLineIsOneLine(item: Item, prefix: string, source: Option<string>)
    requires '\n' !in prefix && '\n' !in item.name && '\n' !in item.value.GetOr("")
    ensures Newlines(ItemLine(item, prefix, source)) == 1
  {
    var src := Snippet(item, source);
    assert '\n' !in src by {
      forall i | 0 <= i < |src| ensures src[i] != '\n' { }
    }
    OneLine(if item.name != "tag" then "  " else "", prefix, item.name, item.value.GetOr(""), src);
  }

  /** One line per `.code` item: the snippets are escaped, so no source newline splits a line. */
  lemma {:induction false} CodeTextLines(items: seq<Item>, prefix: string, source: Option<string>)
    requires '\n' !in prefix
    requires forall i :: 0 <= i < |items| ==> '\n' !in items[i].name && '\n' !in items[i].value.GetOr("")
    ensures Newlines(CodeText(items, prefix, source)) == |items|
    decreases |items|
  {
    if items != [] {
      var init := items[..|items| - 1];
      CodeTextLines(init, prefix, source);
      ItemLineIsOneLine(items[|items| - 1], prefix, source);
    }
  }

  /** Tags are not indented; every other item line opens with two spaces before the prefix. */
  lemma ItemIndent(item: Item, prefix: string, source: Option<string>)
    ensures var line := ItemLine(item, prefix, source);
      if item.name == "tag" then line[..|prefix|] == prefix
      else line[..2] == "  " && line[2..2 + |prefix|] == prefix
  {
  }
}
