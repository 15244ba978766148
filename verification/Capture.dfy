/**
 Capturing the source of a file's symbols while its exact bytes are at hand: a bounded
 header and bounded excerpts for each, under one byte budget for the whole file.
 */
module Capture {
  import opened Core
  import opened Utf8
  import opened EmbeddingInput
  import opened Excerpts
  import opened SourceLines
  import opened SymbolRepresentation

  const MAX_FILE_SOURCE_BYTES: nat := 1024 * 1024
  const COVERAGE_RESERVE: nat := 128

  datatype SymbolKind =
    | Function | Method | Struct | Enum | Trait | Interface | Class | Module
    | Variable | Constant | Field | Parameter | TypeAlias | Macro

  datatype ScopeContext =
    | Local(parentName: Option<Str>)
    | ClassMember(className: Option<Str>)
    | OtherScope

  datatype RawSymbol = RawSymbol(
    policy: CodeEmbeddingPolicy,
    embeddingSource: Option<SymbolSource>,
    name: Str,
    kind: SymbolKind,
    range: LineRange,
    signature: Option<Str>,
    docComment: Option<Str>,
    scope: Option<ScopeContext>)

  /** What the header says about the file. */
  datatype FileFacts = FileFacts(path: Str, modulePath: Option<Str>, languageId: Str)

  predicate Eligible(policy: CodeEmbeddingPolicy, kind: SymbolKind, hasDoc: bool) {
    match policy
    case DocComment => hasDoc
    case _ =>
      || kind.Function? || kind.Method? || kind.Struct? || kind.Enum? || kind.Trait?
      || kind.Interface? || kind.Class? || kind.TypeAlias?
  }

  /** A comment decides under the first policy; under the others the kind does, and comments do not matter. */
  lemma EligibleIs(policy: CodeEmbeddingPolicy, kind: SymbolKind, hasDoc: bool)
    ensures Eligible(policy, kind, hasDoc) <==>
            if policy.DocComment? then hasDoc
            else kind !in {Module, Variable, Constant, Field, Parameter, Macro}
  {
  }

  // ------------------------------------------------------------------------ text

  /** The bytes of an ASCII literal. */
  function Ascii(text: string): (s: seq<byte>)
    ensures |s| == |text|
  {
    seq(|text|, i requires 0 <= i < |text| => (text[i] as int % 128) as byte)
  }

  lemma AsciiIs(text: string)
    ensures forall i | 0 <= i < |text| && text[i] < 128 as char :: Ascii(text)[i] as int == text[i] as int
  {
  }

  lemma AsciiJoins(a: string, b: string)
    ensures Ascii(a + b) == Ascii(a) + Ascii(b)
  {
  }

  lemma AsciiIsText(text: string)
    ensures WellFormed(Ascii(text))
  {
    var s := Ascii(text);
    forall i | 0 <= i < |s|
      ensures WellPlaced(s, i)
    {
    }
  }

  /** `replacen(from, to, 1)`: the first occurrence replaced. */
  function ReplaceFirst(s: seq<byte>, from: seq<byte>, to: seq<byte>): seq<byte> {
    if |s| < |from| then s
    else if s[..|from|] == from then to + s[|from|..]
    else if s == [] then s
    else [s[0]] + ReplaceFirst(s[1..], from, to)
  }

  /** Text without the first byte of what is looked for is passed over. */
  lemma {:induction false} ReplaceAfter(pre: seq<byte>, s: seq<byte>, from: seq<byte>, to: seq<byte>)
    requires from != [] && from[0] !in pre
    requires |from| <= |s| && s[..|from|] == from
    ensures ReplaceFirst(pre + s, from, to) == pre + to + s[|from|..]
  {
    if pre == [] {
      assert pre + s == s && pre + to == to;
    } else {
      var all := pre + s;
      assert all[..|from|][0] == pre[0];
      assert all[1..] == pre[1..] + s;
      ReplaceAfter(pre[1..], s, from, to);
      assert [pre[0]] + (pre[1..] + to + s[|from|..]) == pre + to + s[|from|..] by {
        assert [pre[0]] + pre[1..] == pre;
      }
    }
  }

  // ---------------------------------------------------------------------- header

  /** One header line: at most `max` bytes of the value, flagged when that is not all of it. */
  function FieldText(name: string, value: Option<Str>, max: nat): seq<byte> {
    match value
    case None => []
    case Some(v) =>
      Ascii(name) + Ascii(": ") + v[..Floor(v, Min(|v|, max))] +
      (if max < |v| then Ascii(" [bounded]") else []) + [NEWLINE]
  }

  lemma FieldIsText(name: string, value: Option<Str>, max: nat)
    ensures WellFormed(FieldText(name, value, max))
    ensures |FieldText(name, value, max)| <= |name| + max + 13
  {
    if value.Some? {
      var v := value.value;
      var cut := Floor(v, Min(|v|, max));
      var flag := if max < |v| then Ascii(" [bounded]") else [];
      LabelIsText(name);
      SliceWellFormed(v, 0, cut);
      AsciiIsText(" [bounded]");
      AsciiIsText("\n");
      assert Ascii("\n") == [NEWLINE];
      hide WellFormed, Ascii;
      var title := Ascii(name) + Ascii(": ");
      ConcatWellFormed(title, v[..cut]);
      ConcatWellFormed(title + v[..cut], flag);
      ConcatWellFormed(title + v[..cut] + flag, [NEWLINE]);
    }
  }

  /** The longest prefix of whole characters within `max` bytes. */
  ghost predicate LongestPrefix(v: seq<byte>, max: nat, cut: nat) {
    && cut <= |v| && cut <= max && IsBoundary(v, cut)
    && (|v| <= max ==> cut == |v|)
    && (max < |v| ==> max <= cut + 3 && forall k | cut < k <= max :: !IsBoundary(v, k))
  }

  /** A header line in plain terms: nothing without a value; a value cut short, and only that, is flagged. */
  ghost predicate IsField(line: seq<byte>, name: string, value: Option<Str>, max: nat) {
    match value
    case None => line == []
    case Some(v) =>
      exists cut: nat ::
        && LongestPrefix(v, max, cut)
        && line == Ascii(name + ": ") + v[..cut] + if max < |v| then Ascii(" [bounded]\n") else Ascii("\n")
  }

  lemma FieldIs(name: string, value: Option<Str>, max: nat)
    ensures IsField(FieldText(name, value, max), name, value, max)
  {
    AsciiJoins(name, ": ");
    AsciiJoins(" [bounded]", "\n");
    assert " [bounded]" + "\n" == " [bounded]\n";
    assert Ascii("\n") == [NEWLINE];
    hide Ascii, WellFormed, Floor, IsBoundary;
    if value.Some? {
      var v := value.value;
      var cut := Floor(v, Min(|v|, max));
      FloorIsLongest(v, max);
      assert FieldText(name, value, max) ==
             Ascii(name + ": ") + v[..cut] + if max < |v| then Ascii(" [bounded]\n") else Ascii("\n");
    }
  }

  lemma FloorIsLongest(v: Str, max: nat)
    ensures LongestPrefix(v, max, Floor(v, Min(|v|, max)))
  {
    var at := Min(|v|, max);
    AlignmentGap(v, at);
    FloorIsLast(v, at, Floor(v, at));
    hide WellFormed, Floor;
    forall k | Floor(v, at) < k <= at
      ensures !IsBoundary(v, k)
    {
      if IsBoundary(v, k) {
        FloorIsLast(v, at, k);
      }
    }
    if |v| <= max {
      FloorIsLast(v, at, |v|);
    }
  }

  /** Text that fits is written whole. */
  lemma AsciiField(name: string, text: string, max: nat)
    requires |text| <= max && |text| < 4096
    ensures FieldText(name, Some(Text(text)), max) == Ascii(name + ": " + text + "\n")
  {
    AsciiJoins(name, ": ");
    AsciiJoins(name + ": ", text);
    AsciiJoins(name + ": " + text, "\n");
    assert Ascii("\n") == [NEWLINE];
    assert Ascii(text)[..|text|] == Ascii(text);
    hide Ascii, WellFormed;
  }

  lemma LabelIsText(name: string)
    ensures WellFormed(Ascii(name) + Ascii(": "))
  {
    AsciiIsText(name);
    AsciiIsText(": ");
    ConcatWellFormed(Ascii(name), Ascii(": "));
  }

  method PushField(header: Str, name: string, value: Option<Str>, max: nat) returns (longer: Str)
    requires |header| + |name| + max <= 0x10_0000
    ensures longer == header + FieldText(name, value, max)
    ensures |longer| <= |header| + |name| + max + 13
  {
    hide WellFormed;
    FieldIsText(name, value, max);
    ConcatWellFormed(header, FieldText(name, value, max));
    longer := header + FieldText(name, value, max);
  }

  function KindName(kind: SymbolKind): (name: string)
    ensures |name| <= 9
  {
    match kind
    case Function => "Function"
    case Method => "Method"
    case Struct => "Struct"
    case Enum => "Enum"
    case Trait => "Trait"
    case Interface => "Interface"
    case Class => "Class"
    case Module => "Module"
    case Variable => "Variable"
    case Constant => "Constant"
    case Field => "Field"
    case Parameter => "Parameter"
    case TypeAlias => "TypeAlias"
    case Macro => "Macro"
  }

  function Text(ascii: string): Str
    requires |ascii| < 4096
  {
    AsciiIsText(ascii);
    Ascii(ascii)
  }

  function Owner(scope: Option<ScopeContext>): Option<Str> {
    match scope
    case Some(ClassMember(name)) => name
    case Some(Local(name)) => name
    case _ => None
  }

  const REPOSITORY := "\nRepository: current workspace\n"

  function Preamble(version: string): seq<byte> {
    Ascii("Code symbol ") + (Ascii("representation ") + Ascii(version)) + Ascii(REPOSITORY)
  }

  /** The fields both header versions share. */
  function IdentityFields(file: FileFacts, symbol: RawSymbol): seq<byte> {
    FieldText("Path", Some(file.path), 192) +
    FieldText("Module", file.modulePath, 128) +
    FieldText("Owner", Owner(symbol.scope), 128) +
    FieldText("Name", Some(symbol.name), 128) +
    FieldText("Kind", Some(Text(KindName(symbol.kind))), 32) +
    FieldText("Signature", symbol.signature, 256) +
    FieldText("Documentation", symbol.docComment, 256)
  }

  /** The fields only the second version has. */
  function ContextFields(file: FileFacts, symbol: RawSymbol): seq<byte> {
    FieldText("Context basis", Some(Text("observed parser identity; no inferred behavior")), 128) +
    FieldText("Language", Some(file.languageId), 64) +
    FieldText("Declaration role", Some(Text(KindName(symbol.kind))), 32)
  }

  function HeaderBytes(file: FileFacts, symbol: RawSymbol, policy: CodeEmbeddingPolicy): seq<byte> {
    if policy.SymbolBodyV2? then
      Preamble("v2") + IdentityFields(file, symbol) + ContextFields(file, symbol)
    else
      Preamble("v1") + IdentityFields(file, symbol)
  }

  /** The line that names a symbol's kind under a title. */
  ghost predicate NamesKind(line: seq<byte>, title: string, kind: SymbolKind) {
    match kind
    case Function => line == Ascii(title + ": " + "Function" + "\n")
    case Method => line == Ascii(title + ": " + "Method" + "\n")
    case Struct => line == Ascii(title + ": " + "Struct" + "\n")
    case Enum => line == Ascii(title + ": " + "Enum" + "\n")
    case Trait => line == Ascii(title + ": " + "Trait" + "\n")
    case Interface => line == Ascii(title + ": " + "Interface" + "\n")
    case Class => line == Ascii(title + ": " + "Class" + "\n")
    case Module => line == Ascii(title + ": " + "Module" + "\n")
    case Variable => line == Ascii(title + ": " + "Variable" + "\n")
    case Constant => line == Ascii(title + ": " + "Constant" + "\n")
    case Field => line == Ascii(title + ": " + "Field" + "\n")
    case Parameter => line == Ascii(title + ": " + "Parameter" + "\n")
    case TypeAlias => line == Ascii(title + ": " + "TypeAlias" + "\n")
    case Macro => line == Ascii(title + ": " + "Macro" + "\n")
  }

  lemma KindIsNamed(title: string, kind: SymbolKind)
    ensures NamesKind(FieldText(title, Some(Text(KindName(kind))), 32), title, kind)
  {
    hide FieldText, Ascii, Text;
    AsciiField(title, KindName(kind), 32);
  }

  datatype HeaderLines = HeaderLines(
    path: seq<byte>, modulePath: seq<byte>, owner: seq<byte>, name: seq<byte>, kind: seq<byte>,
    signature: seq<byte>, documentation: seq<byte>, language: seq<byte>, role: seq<byte>)

  /** The lines that describe a symbol, each in plain terms. */
  ghost predicate AreLines(lines: HeaderLines, file: FileFacts, symbol: RawSymbol) {
    && IsField(lines.path, "Path", Some(file.path), 192)
    && IsField(lines.modulePath, "Module", file.modulePath, 128)
    && (match symbol.scope
        case Some(ClassMember(name)) => IsField(lines.owner, "Owner", name, 128)
        case Some(Local(name)) => IsField(lines.owner, "Owner", name, 128)
        case _ => lines.owner == [])
    && IsField(lines.name, "Name", Some(symbol.name), 128)
    && NamesKind(lines.kind, "Kind", symbol.kind)
    && IsField(lines.signature, "Signature", symbol.signature, 256)
    && IsField(lines.documentation, "Documentation", symbol.docComment, 256)
    && IsField(lines.language, "Language", Some(file.languageId), 64)
    && NamesKind(lines.role, "Declaration role", symbol.kind)
  }

  function BasisLine(): seq<byte> {
    Ascii("Context basis" + ": " + "observed parser identity; no inferred behavior" + "\n")
  }

  /** The whole header: the version's first lines, the symbol's lines in order, and the second version's own. */
  ghost predicate IsHeader(header: seq<byte>, file: FileFacts, symbol: RawSymbol, policy: CodeEmbeddingPolicy) {
    exists l: HeaderLines ::
      && AreLines(l, file, symbol)
      && var identity := l.path + l.modulePath + l.owner + l.name + l.kind + l.signature + l.documentation;
         header ==
         if policy.SymbolBodyV2? then
           Ascii("Code symbol ") + Ascii("representation v2") + Ascii("\nRepository: current workspace\n") +
           identity + BasisLine() + l.language + l.role
         else
           Ascii("Code symbol ") + Ascii("representation v1") + Ascii("\nRepository: current workspace\n") + identity
  }

  lemma FieldsAreLines(file: FileFacts, symbol: RawSymbol) returns (l: HeaderLines)
    ensures AreLines(l, file, symbol)
    ensures IdentityFields(file, symbol) ==
            l.path + l.modulePath + l.owner + l.name + l.kind + l.signature + l.documentation
    ensures ContextFields(file, symbol) ==
            BasisLine() + l.language + l.role
  {
    hide FieldText, IsField, Ascii, WellFormed, NamesKind, KindName, Text;
    var kind := Some(Text(KindName(symbol.kind)));
    l := HeaderLines(
      FieldText("Path", Some(file.path), 192), FieldText("Module", file.modulePath, 128),
      FieldText("Owner", Owner(symbol.scope), 128), FieldText("Name", Some(symbol.name), 128),
      FieldText("Kind", kind, 32), FieldText("Signature", symbol.signature, 256),
      FieldText("Documentation", symbol.docComment, 256), FieldText("Language", Some(file.languageId), 64),
      FieldText("Declaration role", kind, 32));
    FieldIs("Path", Some(file.path), 192);
    FieldIs("Module", file.modulePath, 128);
    OwnerIs(symbol.scope);
    FieldIs("Name", Some(symbol.name), 128);
    KindIsNamed("Kind", symbol.kind);
    FieldIs("Signature", symbol.signature, 256);
    FieldIs("Documentation", symbol.docComment, 256);
    FieldIs("Language", Some(file.languageId), 64);
    KindIsNamed("Declaration role", symbol.kind);
    BasisIs();
  }

  lemma OwnerIs(scope: Option<ScopeContext>)
    ensures var line := FieldText("Owner", Owner(scope), 128);
            match scope
            case Some(ClassMember(name)) => IsField(line, "Owner", name, 128)
            case Some(Local(name)) => IsField(line, "Owner", name, 128)
            case _ => line == []
  {
    FieldIs("Owner", Owner(scope), 128);
    hide Ascii, WellFormed, Floor;
  }

  lemma BasisIs()
    ensures FieldText("Context basis", Some(Text("observed parser identity; no inferred behavior")), 128) == BasisLine()
  {
    hide FieldText, Ascii, Text;
    AsciiField("Context basis", "observed parser identity; no inferred behavior", 128);
  }

  /** What the header of a symbol holds, line by line. */
  lemma HeaderIs(file: FileFacts, symbol: RawSymbol, policy: CodeEmbeddingPolicy)
    ensures IsHeader(HeaderBytes(file, symbol, policy), file, symbol, policy)
  {
    hide Ascii, AreLines, IdentityFields, ContextFields, WellFormed, BasisLine;
    var l := FieldsAreLines(file, symbol);
    var version := if policy.SymbolBodyV2? then "v2" else "v1";
    MarkerIs(version);
    if policy.SymbolBodyV2? {
      var identity := l.path + l.modulePath + l.owner + l.name + l.kind + l.signature + l.documentation;
      assert HeaderBytes(file, symbol, policy) == Preamble("v2") + identity + BasisLine() + l.language + l.role;
    }
  }

  lemma MarkerIs(version: string)
    ensures version == "v1" ==> Ascii("representation v1") == Ascii("representation ") + Ascii(version)
    ensures version == "v2" ==> Ascii("representation v2") == Ascii("representation ") + Ascii(version)
  {
    AsciiJoins("representation ", version);
  }

  const HEADER_LIMIT: nat := 1617

  lemma PreambleIsText(version: string)
    ensures Preamble(version) == Ascii("Code symbol " + ("representation " + version) + REPOSITORY)
    ensures WellFormed(Preamble(version))
  {
    AsciiJoins("representation ", version);
    AsciiJoins("Code symbol ", "representation " + version);
    AsciiJoins("Code symbol " + ("representation " + version), REPOSITORY);
    AsciiIsText("Code symbol " + ("representation " + version) + REPOSITORY);
  }

  method StartHeader() returns (header: Str)
    ensures header == Preamble("v1") && |header| == 60
  {
    PreambleIsText("v1");
    header := Preamble("v1");
  }

  method IdentityHeader(file: FileFacts, symbol: RawSymbol) returns (header: Str)
    ensures header == Preamble("v1") + IdentityFields(file, symbol)
    ensures |header| <= 1317
  {
    hide FieldText, Preamble, WellFormed, Ascii, KindName;
    header := StartHeader();
    header := PushField(header, "Path", Some(file.path), 192);
    header := PushField(header, "Module", file.modulePath, 128);
    header := PushField(header, "Owner", Owner(symbol.scope), 128);
    header := PushField(header, "Name", Some(symbol.name), 128);
    header := PushField(header, "Kind", Some(Text(KindName(symbol.kind))), 32);
    header := PushField(header, "Signature", symbol.signature, 256);
    header := PushField(header, "Documentation", symbol.docComment, 256);
  }

  /** The version is the first place the marker occurs, whatever the fields hold. */
  lemma VersionIsReplaced(rest: seq<byte>)
    ensures ReplaceFirst(Preamble("v1") + rest, Ascii("representation v1"), Ascii("representation v2")) ==
            Preamble("v2") + rest
  {
    AsciiJoins("representation ", "v1");
    AsciiJoins("representation ", "v2");
    var pre, tail := Ascii("Code symbol "), Ascii(REPOSITORY) + rest;
    var from, to := Ascii("representation v1"), Ascii("representation v2");
    MarkerIsNew();
    assert from == Ascii("representation ") + Ascii("v1") && to == Ascii("representation ") + Ascii("v2");
    hide Ascii;
    assert Preamble("v1") + rest == pre + (from + tail);
    assert (from + tail)[..|from|] == from && (from + tail)[|from|..] == tail;
    ReplaceAfter(pre, from + tail, from, to);
    assert Preamble("v2") + rest == pre + to + tail;
  }

  lemma MarkerIsNew()
    ensures Ascii("representation v1")[0] !in Ascii("Code symbol ")
  {
    assert Ascii("representation v1")[0] == 114;
    var pre := "Code symbol ";
    assert forall i | 0 <= i < |pre| :: pre[i] != 'r';
  }

  method PushContext(start: Str, file: FileFacts, symbol: RawSymbol) returns (header: Str)
    requires |start| <= 1317
    ensures header == start + ContextFields(file, symbol)
    ensures |header| <= HEADER_LIMIT
  {
    hide Ascii, FieldText, WellFormed, KindName;
    header := PushField(start, "Context basis", Some(Text("observed parser identity; no inferred behavior")), 128);
    header := PushField(header, "Language", Some(file.languageId), 64);
    header := PushField(header, "Declaration role", Some(Text(KindName(symbol.kind))), 32);
  }

  /** Builds the header in place: shared fields, then the second version's mark and fields. */
  method BuildHeader(file: FileFacts, symbol: RawSymbol, policy: CodeEmbeddingPolicy) returns (header: Str)
    ensures header == HeaderBytes(file, symbol, policy)
    ensures IsHeader(header, file, symbol, policy)
    ensures |header| <= HEADER_LIMIT
  {
    hide Ascii, Preamble, IdentityFields, ContextFields, WellFormed, ReplaceFirst, IsHeader;
    HeaderIs(file, symbol, policy);
    header := IdentityHeader(file, symbol);
    if policy == SymbolBodyV2 {
      VersionIsReplaced(IdentityFields(file, symbol));
      SecondVersionIsText(file, symbol);
      header := ReplaceFirst(header, Ascii("representation v1"), Ascii("representation v2"));
      header := PushContext(header, file, symbol);
    }
  }

  lemma SecondVersionIsText(file: FileFacts, symbol: RawSymbol)
    ensures WellFormed(Preamble("v2") + IdentityFields(file, symbol))
    ensures |Preamble("v2") + IdentityFields(file, symbol)| <= 1317
  {
    IdentityIsText(file, symbol);
    PreambleIsText("v2");
    ConcatWellFormed(Preamble("v2"), IdentityFields(file, symbol));
    assert |Preamble("v2")| == 60;
  }

  lemma IdentityIsText(file: FileFacts, symbol: RawSymbol)
    ensures WellFormed(IdentityFields(file, symbol)) && |IdentityFields(file, symbol)| <= 1257
  {
    var kind := Some(Text(KindName(symbol.kind)));
    hide FieldText, WellFormed, Ascii, KindName, Text;
    var a, b := FieldText("Path", Some(file.path), 192), FieldText("Module", file.modulePath, 128);
    var c, d := FieldText("Owner", Owner(symbol.scope), 128), FieldText("Name", Some(symbol.name), 128);
    var e, f := FieldText("Kind", kind, 32), FieldText("Signature", symbol.signature, 256);
    var g := FieldText("Documentation", symbol.docComment, 256);
    FieldIsText("Path", Some(file.path), 192);
    FieldIsText("Module", file.modulePath, 128);
    FieldIsText("Owner", Owner(symbol.scope), 128);
    FieldIsText("Name", Some(symbol.name), 128);
    FieldIsText("Kind", kind, 32);
    FieldIsText("Signature", symbol.signature, 256);
    FieldIsText("Documentation", symbol.docComment, 256);
    ConcatWellFormed(a, b);
    ConcatWellFormed(a + b, c);
    ConcatWellFormed(a + b + c, d);
    ConcatWellFormed(a + b + c + d, e);
    ConcatWellFormed(a + b + c + d + e, f);
    ConcatWellFormed(a + b + c + d + e + f, g);
  }

  lemma ContextIsText(file: FileFacts, symbol: RawSymbol)
    ensures WellFormed(ContextFields(file, symbol)) && |ContextFields(file, symbol)| <= 300
  {
    var basis, kind := Some(Text("observed parser identity; no inferred behavior")), Some(Text(KindName(symbol.kind)));
    hide FieldText, WellFormed, Ascii, KindName, Text;
    FieldIsText("Context basis", basis, 128);
    FieldIsText("Language", Some(file.languageId), 64);
    FieldIsText("Declaration role", kind, 32);
    var a, b := FieldText("Context basis", basis, 128), FieldText("Language", Some(file.languageId), 64);
    ConcatWellFormed(a, b);
    ConcatWellFormed(a + b, FieldText("Declaration role", kind, 32));
  }

  /** Every header is text of at most 1617 bytes. */
  lemma HeaderIsText(file: FileFacts, symbol: RawSymbol, policy: CodeEmbeddingPolicy)
    ensures WellFormed(HeaderBytes(file, symbol, policy))
    ensures |HeaderBytes(file, symbol, policy)| <= HEADER_LIMIT
  {
    IdentityIsText(file, symbol);
    ContextIsText(file, symbol);
    PreambleIsText("v1");
    PreambleIsText("v2");
    assert |Preamble("v1")| == 60 && |Preamble("v2")| == 60;
    hide WellFormed, IdentityFields, ContextFields, Preamble;
    var version := if policy.SymbolBodyV2? then "v2" else "v1";
    ConcatWellFormed(Preamble(version), IdentityFields(file, symbol));
    ConcatWellFormed(Preamble(version) + IdentityFields(file, symbol), ContextFields(file, symbol));
  }

  function Header(file: FileFacts, symbol: RawSymbol, policy: CodeEmbeddingPolicy): (header: Str)
    ensures |header| <= HEADER_LIMIT
  {
    HeaderIsText(file, symbol, policy);
    HeaderBytes(file, symbol, policy)
  }

  function Coverage(found: bool): seq<byte> {
    if found then
      Ascii("Source coverage: bounded parser-range excerpts; extraction completeness unverified") + [NEWLINE] +
      Ascii("Implementation excerpt:") + [NEWLINE]
    else
      Ascii("Source coverage: unavailable or file source budget exhausted") + [NEWLINE]
  }

  /** The reserved bytes always cover the coverage line. */
  lemma CoverageFits(found: bool)
    ensures WellFormed(Coverage(found)) && |Coverage(found)| <= COVERAGE_RESERVE
  {
    AsciiIsText("\n");
    assert Ascii("\n") == [NEWLINE];
    if found {
      var a := "Source coverage: bounded parser-range excerpts; extraction completeness unverified";
      assert |a| == 82 && |"Implementation excerpt:"| == 23;
      AsciiIsText(a);
      AsciiIsText("Implementation excerpt:");
      hide Ascii, WellFormed;
      ConcatWellFormed(Ascii(a), [NEWLINE]);
      ConcatWellFormed(Ascii(a) + [NEWLINE], Ascii("Implementation excerpt:"));
      ConcatWellFormed(Ascii(a) + [NEWLINE] + Ascii("Implementation excerpt:"), [NEWLINE]);
    } else {
      var a := "Source coverage: unavailable or file source budget exhausted";
      assert |a| == 60;
      AsciiIsText(a);
      ConcatWellFormed(Ascii(a), [NEWLINE]);
    }
  }

  /** The header of a captured source: the symbol's lines, then what is known of its source. */
  ghost predicate Describes(
    header: seq<byte>, found: bool, file: FileFacts, symbol: RawSymbol, policy: CodeEmbeddingPolicy)
  {
    exists lines ::
      && IsHeader(lines, file, symbol, policy)
      && header == lines +
         if found then
           Ascii("Source coverage: bounded parser-range excerpts; extraction completeness unverified") + Ascii("\n") +
           Ascii("Implementation excerpt:") + Ascii("\n")
         else
           Ascii("Source coverage: unavailable or file source budget exhausted") + Ascii("\n")
  }

  lemma HeaderDescribes(file: FileFacts, symbol: RawSymbol, policy: CodeEmbeddingPolicy, found: bool)
    ensures Describes(HeaderBytes(file, symbol, policy) + Coverage(found), found, file, symbol, policy)
  {
    hide IsHeader, HeaderBytes;
    HeaderIs(file, symbol, policy);
    assert Ascii("\n") == [NEWLINE];
    hide Ascii;
  }

  function WithCoverage(header: Str, found: bool): (all: Str)
    requires |header| <= HEADER_LIMIT
    ensures all == header + Coverage(found) && |all| <= |header| + COVERAGE_RESERVE
  {
    CoverageFits(found);
    ConcatWellFormed(header, Coverage(found));
    header + Coverage(found)
  }

  // ------------------------------------------------------------------- one symbol

  /** The excerpts of a parser range; none for a range the source does not hold. */
  function Excerpt(source: Str, range: LineRange, policy: CodeEmbeddingPolicy, allowance: nat): seq<SourceFragment> {
    SourceRangeSelects(source, Lines(source, |source|), range);
    match SourceRange(source, Lines(source, |source|), range)
    case None => []
    case Some(r) =>
      if policy.SymbolBodyV2? then MiddleFragments(source, r, allowance) else Fragments(source, r, allowance)
  }

  /** Excerpts stay within the allowance and are exact source of the symbol's own range. */
  lemma ExcerptIsExact(source: Str, range: LineRange, policy: CodeEmbeddingPolicy, allowance: nat)
    ensures TextBytes(Excerpt(source, range, policy, allowance)) <= Min(allowance, 16 * 1024)
    ensures Excerpt(source, range, policy, allowance) != [] ==>
              exists a: nat, b: nat ::
                && a < b
                && At(source, a, range.startLine, range.startColumn)
                && At(source, b, range.endLine, range.endColumn)
                && ExcerptOf(source, Range(a, b), Excerpt(source, range, policy, allowance))
  {
    hide Fragments, MiddleFragments, ExcerptOf, At;
    SourceRangeSelects(source, Lines(source, |source|), range);
    var found := SourceRange(source, Lines(source, |source|), range);
    hide SourceRange, Lines;
    match found {
      case None =>
      case Some(r) =>
        SourceRangeIsAt(source, range, r.start, r.end);
        FragmentsAreExcerpts(source, r, allowance);
        MiddleFragmentsAreExcerpts(source, r, allowance);
    }
  }

  /** The second version's excerpt keeps the range's middle byte wherever its windows can. */
  lemma ExcerptKeepsMiddle(source: Str, range: LineRange, r: Range, allowance: nat)
    requires SourceRange(source, Lines(source, |source|), range) == Some(r) && KeepsMiddle(r, allowance)
    ensures CoveredBy(Excerpt(source, range, SymbolBodyV2, allowance), Midpoint(r))
  {
    SourceRangeSelects(source, Lines(source, |source|), range);
    hide SourceRange, Lines, MiddleFragments, KeepsMiddle, CoveredBy;
    MiddleIsKept(source, r, allowance);
  }

  /** What one symbol costs before any excerpt: its header and the reserve. */
  function Overhead(file: FileFacts, symbol: RawSymbol, policy: CodeEmbeddingPolicy): nat {
    |Header(file, symbol, policy)| + COVERAGE_RESERVE
  }

  function SourceOf(file: FileFacts, source: Str, policy: CodeEmbeddingPolicy, symbol: RawSymbol, allowance: nat)
    : SymbolSource
  {
    var excerpt := Excerpt(source, symbol.range, policy, allowance);
    SymbolSource(WithCoverage(Header(file, symbol, policy), excerpt != []), excerpt, policy)
  }

  datatype Captured = Captured(symbol: RawSymbol, remaining: nat)

  /** One symbol beside the bytes still free; an ineligible or unaffordable one only notes the policy. */
  function CaptureSymbol(file: FileFacts, source: Str, policy: CodeEmbeddingPolicy, symbol: RawSymbol, remaining: nat)
    : Captured
  {
    var noted := symbol.(policy := policy);
    var overhead := Overhead(file, symbol, policy);
    if !Eligible(policy, symbol.kind, symbol.docComment.Some?) || remaining < overhead then Captured(noted, remaining)
    else
      var embedded := SourceOf(file, source, policy, symbol, remaining - overhead);
      Captured(
        noted.(embeddingSource := Some(embedded)),
        SaturatingSub(remaining - overhead, TextBytes(embedded.fragments)))
  }

  /** `retained_bytes`. */
  function RetainedBytes(source: SymbolSource): nat {
    |source.header| + TextBytes(source.fragments)
  }

  lemma SourceSize(file: FileFacts, source: Str, policy: CodeEmbeddingPolicy, symbol: RawSymbol, allowance: nat)
    ensures var embedded := SourceOf(file, source, policy, symbol, allowance);
            && TextBytes(embedded.fragments) <= allowance
            && |embedded.header| <= Overhead(file, symbol, policy)
  {
    hide Excerpt, Header, Coverage, TextBytes, WellFormed;
    ExcerptIsExact(source, symbol.range, policy, allowance);
  }

  /** The subtraction never saturates, and the budget pays for everything retained. */
  lemma SymbolLedger(file: FileFacts, source: Str, policy: CodeEmbeddingPolicy, symbol: RawSymbol, remaining: nat)
    ensures var c := CaptureSymbol(file, source, policy, symbol, remaining);
            && c.remaining <= remaining
            && (c.symbol.embeddingSource != symbol.embeddingSource ==>
                  && c.symbol.embeddingSource.Some?
                  && RetainedBytes(c.symbol.embeddingSource.value) + c.remaining <= remaining
                  && c.remaining + Overhead(file, symbol, policy) +
                     TextBytes(c.symbol.embeddingSource.value.fragments) == remaining)
  {
    var overhead := Overhead(file, symbol, policy);
    hide SourceOf, Overhead, TextBytes, Eligible;
    if overhead <= remaining {
      SourceSize(file, source, policy, symbol, remaining - overhead);
    }
  }

  // ---------------------------------------------------------------------- a file

  datatype Progress = Progress(symbols: seq<RawSymbol>, remaining: nat)

  /** Symbols in order, each with what the earlier ones left. */
  function CaptureAll(file: FileFacts, source: Str, policy: CodeEmbeddingPolicy, symbols: seq<RawSymbol>): (p: Progress)
    ensures |p.symbols| == |symbols|
  {
    if symbols == [] then Progress([], MAX_FILE_SOURCE_BYTES)
    else
      var earlier := CaptureAll(file, source, policy, symbols[..|symbols| - 1]);
      var c := CaptureSymbol(file, source, policy, symbols[|symbols| - 1], earlier.remaining);
      Progress(earlier.symbols + [c.symbol], c.remaining)
  }

  /** Bytes retained by a list of symbols. */
  function TotalRetained(symbols: seq<RawSymbol>): nat {
    if symbols == [] then 0
    else
      var last := symbols[|symbols| - 1];
      TotalRetained(symbols[..|symbols| - 1]) +
      if last.embeddingSource.Some? then RetainedBytes(last.embeddingSource.value) else 0
  }

  ghost predicate NothingCaptured(symbols: seq<RawSymbol>) {
    forall i | 0 <= i < |symbols| :: symbols[i].embeddingSource.None?
  }

  /** Over all symbols of a file, retained bytes and what is left never exceed one mebibyte. */
  lemma {:induction false} FileBudget(
    file: FileFacts, source: Str, policy: CodeEmbeddingPolicy, symbols: seq<RawSymbol>)
    requires NothingCaptured(symbols)
    ensures var p := CaptureAll(file, source, policy, symbols);
            TotalRetained(p.symbols) + p.remaining <= 1024 * 1024
  {
    hide CaptureSymbol;
    if symbols != [] {
      var front, last := symbols[..|symbols| - 1], symbols[|symbols| - 1];
      FileBudget(file, source, policy, front);
      var earlier := CaptureAll(file, source, policy, front);
      SymbolLedger(file, source, policy, last, earlier.remaining);
      var c := CaptureSymbol(file, source, policy, last, earlier.remaining);
      assert (earlier.symbols + [c.symbol])[..|earlier.symbols|] == earlier.symbols;
    }
  }

  /** A symbol's capture depends on the symbols before it only through the bytes they left. */
  lemma {:induction false} CapturedAt(
    file: FileFacts, source: Str, policy: CodeEmbeddingPolicy, symbols: seq<RawSymbol>, i: nat)
    requires i < |symbols|
    ensures var before := CaptureAll(file, source, policy, symbols[..i]).remaining;
            CaptureAll(file, source, policy, symbols).symbols[i] ==
            CaptureSymbol(file, source, policy, symbols[i], before).symbol
  {
    hide CaptureSymbol;
    if i < |symbols| - 1 {
      CapturedAt(file, source, policy, symbols[..|symbols| - 1], i);
      assert symbols[..|symbols| - 1][..i] == symbols[..i];
    }
  }

  /** What a capture changes in a symbol that had no source. */
  ghost predicate CapturesOnly(
    file: FileFacts, source: Str, policy: CodeEmbeddingPolicy, symbol: RawSymbol, before: nat, after: RawSymbol)
  {
    && after == symbol.(policy := policy, embeddingSource := after.embeddingSource)
    && (after.embeddingSource.Some? <==>
          Eligible(policy, symbol.kind, symbol.docComment.Some?) && Overhead(file, symbol, policy) <= before)
    && (after.embeddingSource.Some? <==>
          && |HeaderBytes(file, symbol, policy)| + 128 <= before
          && if policy.DocComment? then symbol.docComment.Some?
             else symbol.kind !in {Module, Variable, Constant, Field, Parameter, Macro})
    && (after.embeddingSource.Some? ==>
          IsCapture(file, source, policy, symbol, after.embeddingSource.value, before))
  }

  lemma OverheadIs(file: FileFacts, symbol: RawSymbol, policy: CodeEmbeddingPolicy)
    ensures Overhead(file, symbol, policy) == |HeaderBytes(file, symbol, policy)| + 128
  {
    hide HeaderBytes, WellFormed;
  }

  lemma CapturesOneSymbol(file: FileFacts, source: Str, policy: CodeEmbeddingPolicy, symbol: RawSymbol, before: nat)
    requires symbol.embeddingSource.None?
    ensures CapturesOnly(
              file, source, policy, symbol, before, CaptureSymbol(file, source, policy, symbol, before).symbol)
  {
    hide IsCapture, SourceOf, Overhead, Eligible, HeaderBytes;
    EligibleIs(policy, symbol.kind, symbol.docComment.Some?);
    OverheadIs(file, symbol, policy);
    if Overhead(file, symbol, policy) <= before {
      SourceIsCapture(file, source, policy, symbol, before);
    }
  }

  /**
   Each symbol ends with the policy noted; an eligible one lacks its source exactly when
   its header no longer fits, and otherwise has exact excerpts of its own range under a
   header that says whether there are any.
   */
  lemma CapturedSymbol(file: FileFacts, source: Str, policy: CodeEmbeddingPolicy, symbols: seq<RawSymbol>, i: nat)
    requires NothingCaptured(symbols) && i < |symbols|
    ensures var before := CaptureAll(file, source, policy, symbols[..i]).remaining;
            && CapturesOnly(
                 file, source, policy, symbols[i], before, CaptureAll(file, source, policy, symbols).symbols[i])
            && (i == 0 ==> before == 1024 * 1024)
  {
    CapturedAt(file, source, policy, symbols, i);
    hide CapturesOnly, CaptureSymbol;
    CapturesOneSymbol(file, source, policy, symbols[i], CaptureAll(file, source, policy, symbols[..i]).remaining);
  }

  ghost predicate IsCapture(
    file: FileFacts, source: Str, policy: CodeEmbeddingPolicy, symbol: RawSymbol, captured: SymbolSource, before: nat)
  {
    && captured.policy == policy
    && captured.header == HeaderBytes(file, symbol, policy) + Coverage(captured.fragments != [])
    && Describes(captured.header, captured.fragments != [], file, symbol, policy)
    && TextBytes(captured.fragments) <= 16 * 1024
    && RetainedBytes(captured) <= before
    && (captured.fragments != [] ==>
          exists a: nat, b: nat ::
            && a < b
            && At(source, a, symbol.range.startLine, symbol.range.startColumn)
            && At(source, b, symbol.range.endLine, symbol.range.endColumn)
            && ExcerptOf(source, Range(a, b), captured.fragments))
  }

  lemma SourceIsCapture(file: FileFacts, source: Str, policy: CodeEmbeddingPolicy, symbol: RawSymbol, before: nat)
    requires Overhead(file, symbol, policy) <= before
    ensures IsCapture(file, source, policy, symbol,
                      SourceOf(file, source, policy, symbol, before - Overhead(file, symbol, policy)), before)
  {
    hide HeaderBytes, Coverage, Excerpt, ExcerptOf, At, WellFormed, Describes;
    HeaderDescribes(file, symbol, policy, true);
    HeaderDescribes(file, symbol, policy, false);
    ExcerptIsExact(source, symbol.range, policy, before - Overhead(file, symbol, policy));
  }

  // ---------------------------------------------------- from a file to its inputs

  /** Under the second version, a symbol whose own budget keeps its range's middle has it captured. */
  lemma CapturedExcerpt(file: FileFacts, source: Str, symbols: seq<RawSymbol>, i: nat, r: Range)
    requires i < |symbols| && symbols[i].embeddingSource.None?
    requires SourceRange(source, Lines(source, |source|), symbols[i].range) == Some(r)
    ensures WholeCharacters(source, r) && r.start < r.end
    ensures var before := CaptureAll(file, source, SymbolBodyV2, symbols[..i]).remaining;
            var captured := CaptureAll(file, source, SymbolBodyV2, symbols).symbols[i].embeddingSource;
            captured.Some? ==>
              && Overhead(file, symbols[i], SymbolBodyV2) <= before
              && captured.value.policy.SymbolBodyV2?
              && captured.value.fragments ==
                 MiddleFragments(source, r, before - Overhead(file, symbols[i], SymbolBodyV2))
  {
    hide Lines, SourceRange, CaptureAll, CaptureSymbol, MiddleFragments, Overhead, WellFormed;
    SourceRangeSelects(source, Lines(source, |source|), symbols[i].range);
    CapturedAt(file, source, SymbolBodyV2, symbols, i);
    SymbolExcerpt(file, source, symbols[i], CaptureAll(file, source, SymbolBodyV2, symbols[..i]).remaining, r);
  }

  lemma SymbolExcerpt(file: FileFacts, source: Str, symbol: RawSymbol, before: nat, r: Range)
    requires symbol.embeddingSource.None?
    requires SourceRange(source, Lines(source, |source|), symbol.range) == Some(r) && WholeCharacters(source, r)
    ensures var captured := CaptureSymbol(file, source, SymbolBodyV2, symbol, before).symbol.embeddingSource;
            captured.Some? ==>
              && Overhead(file, symbol, SymbolBodyV2) <= before
              && captured.value.policy.SymbolBodyV2?
              && captured.value.fragments == MiddleFragments(source, r, before - Overhead(file, symbol, SymbolBodyV2))
  {
    hide Lines, SourceRange, MiddleFragments, Fragments, Overhead, Header, Coverage, WellFormed, Eligible, TextBytes;
  }

  /** What embedding a captured symbol gives: its header alone, or exact source of its own range, in order. */
  ghost predicate EmbedsSymbol(
    source: seq<byte>, symbol: RawSymbol, captured: SymbolSource, inputs: seq<SymbolInput>)
  {
    if captured.fragments == [] then inputs == [SymbolInput(captured.header, None)]
    else
      exists a: nat, b: nat ::
        && a < b
        && At(source, a, symbol.range.startLine, symbol.range.startColumn)
        && At(source, b, symbol.range.endLine, symbol.range.endColumn)
        && EmbedsSource(source, Range(a, b), captured, inputs)
  }

  lemma CaptureEmbeds(
    file: FileFacts, source: Str, policy: CodeEmbeddingPolicy, symbol: RawSymbol, captured: SymbolSource, before: nat,
    budget: InputBudget, parts: seq<seq<Range>>, chosen: seq<nat>, inputs: seq<SymbolInput>)
    requires IsCapture(file, source, policy, symbol, captured, before) && captured.fragments != []
    requires IsAnswer(budget, captured, parts, chosen, inputs)
    ensures EmbedsSymbol(source, symbol, captured, inputs)
  {
    hide At, ExcerptOf, EmbedsSource, SymbolRepresentation.IsAnswer, HeaderBytes, Coverage, TextBytes, Describes;
    var a: nat, b: nat :|
      && a < b
      && At(source, a, symbol.range.startLine, symbol.range.startColumn)
      && At(source, b, symbol.range.endLine, symbol.range.endColumn)
      && ExcerptOf(source, Range(a, b), captured.fragments);
    AnswerEmbedsSource(source, Range(a, b), budget, captured, parts, chosen, inputs);
  }

  /** An answer for excerpts that keep a range's middle covers it. */
  lemma MiddleIsEmbedded(
    source: Str, r: Range, allowance: nat, captured: SymbolSource,
    budget: InputBudget, parts: seq<seq<Range>>, inputs: seq<SymbolInput>)
    requires WholeCharacters(source, r) && r.start < r.end && KeepsMiddle(r, allowance)
    requires captured.fragments == MiddleFragments(source, r, allowance)
    requires Splits(budget, captured, parts) && |parts| == |captured.fragments|
    requires captured.fragments != [] ==>
               forall a | 0 <= a < |Flat(parts)| && PieceCovers(captured, Flat(parts)[a], SourceMidpoint(captured)) ::
                 exists k | 0 <= k < |inputs| :: InputCovers(inputs[k], SourceMidpoint(captured))
    ensures exists k | 0 <= k < |inputs| :: InputCovers(inputs[k], Midpoint(r))
  {
    hide MiddleFragments, KeepsMiddle, Splits, Flat, PieceCovers, InputCovers, WholeCharacters, WellFormed, ExcerptOf;
    MiddleFragmentsAreExcerpts(source, r, allowance);
    MiddleIsKept(source, r, allowance);
    var a := CoveredByPiece(source, r, budget, captured, parts, Midpoint(r));
  }

  lemma CapturedIs(file: FileFacts, source: Str, policy: CodeEmbeddingPolicy, symbols: seq<RawSymbol>, i: nat)
    requires i < |symbols| && symbols[i].embeddingSource.None?
    ensures var before := CaptureAll(file, source, policy, symbols[..i]).remaining;
            var captured := CaptureAll(file, source, policy, symbols).symbols[i].embeddingSource;
            captured.Some? ==>
              && IsCapture(file, source, policy, symbols[i], captured.value, before)
              && Overhead(file, symbols[i], policy) <= before && captured.value.policy == policy
  {
    hide CaptureSymbol, Overhead, HeaderBytes, Eligible, Describes, ExcerptOf, At, TextBytes, Coverage;
    CapturedAt(file, source, policy, symbols, i);
    CapturesOneSymbol(file, source, policy, symbols[i], CaptureAll(file, source, policy, symbols[..i]).remaining);
  }

  /** The middle byte of a captured symbol's range is embedded wherever the symbol's share of the budget keeps it. */
  lemma MiddleOfCaptured(
    file: FileFacts, source: Str, symbols: seq<RawSymbol>, i: nat, budget: InputBudget,
    parts: seq<seq<Range>>, inputs: seq<SymbolInput>)
    requires i < |symbols| && symbols[i].embeddingSource.None?
    requires CaptureAll(file, source, SymbolBodyV2, symbols).symbols[i].embeddingSource.Some?
    requires var captured := CaptureAll(file, source, SymbolBodyV2, symbols).symbols[i].embeddingSource.value;
             captured.fragments != [] ==>
               && Splits(budget, captured, parts) && |parts| == |captured.fragments|
               && forall a |
                    0 <= a < |Flat(parts)| && PieceCovers(captured, Flat(parts)[a], SourceMidpoint(captured)) ::
                    exists k | 0 <= k < |inputs| :: InputCovers(inputs[k], SourceMidpoint(captured))
    ensures var before := CaptureAll(file, source, SymbolBodyV2, symbols[..i]).remaining;
            && Overhead(file, symbols[i], SymbolBodyV2) <= before
            && forall r | SourceRange(source, Lines(source, |source|), symbols[i].range) == Some(r) &&
                          KeepsMiddle(r, before - Overhead(file, symbols[i], SymbolBodyV2)) ::
                 exists k | 0 <= k < |inputs| :: InputCovers(inputs[k], Midpoint(r))
  {
    hide Lines, SourceRange, CaptureAll, CaptureSymbol, MiddleFragments, Overhead, KeepsMiddle, InputCovers,
         PieceCovers, WellFormed, IsCapture, WholeCharacters, SymbolRepresentation.Splits, Flat;
    var before := CaptureAll(file, source, SymbolBodyV2, symbols[..i]).remaining;
    var captured := CaptureAll(file, source, SymbolBodyV2, symbols).symbols[i].embeddingSource.value;
    CapturedIs(file, source, SymbolBodyV2, symbols, i);
    forall r | SourceRange(source, Lines(source, |source|), symbols[i].range) == Some(r) &&
               KeepsMiddle(r, before - Overhead(file, symbols[i], SymbolBodyV2))
      ensures exists k | 0 <= k < |inputs| :: InputCovers(inputs[k], Midpoint(r))
    {
      CapturedExcerpt(file, source, symbols, i, r);
      MiddleFragmentsKept(source, r, before - Overhead(file, symbols[i], SymbolBodyV2));
      MiddleIsEmbedded(source, r, before - Overhead(file, symbols[i], SymbolBodyV2), captured, budget, parts, inputs);
    }
  }

  /**
   From parser range to embedding: for any symbol of a captured file, a successful
   preparation gives its header alone or exact source of its own range. Under the second
   version it covers the range's middle byte wherever the bytes left to the symbol keep it.
   */
  method EmbedCaptured(
    file: FileFacts, source: Str, policy: CodeEmbeddingPolicy, symbols: seq<RawSymbol>, i: nat, budget: InputBudget)
    returns (inputs: Option<Result<seq<SymbolInput>, SplitError>>)
    requires i < |symbols| && symbols[i].embeddingSource.None?
    ensures var captured := CaptureAll(file, source, policy, symbols).symbols[i].embeddingSource;
            && (inputs.Some? <==> captured.Some?)
            && (inputs.Some? && inputs.value.Success? ==>
                  EmbedsSymbol(source, symbols[i], captured.value, inputs.value.value))
    ensures inputs.Some? && inputs.value.Success? && policy.SymbolBodyV2? ==>
              var before := CaptureAll(file, source, policy, symbols[..i]).remaining;
              && Overhead(file, symbols[i], policy) <= before
              && forall r | SourceRange(source, Lines(source, |source|), symbols[i].range) == Some(r) &&
                            KeepsMiddle(r, before - Overhead(file, symbols[i], policy)) ::
                   exists k | 0 <= k < |inputs.value.value| :: InputCovers(inputs.value.value[k], Midpoint(r))
  {
    hide Lines, SourceRange, CaptureAll, CaptureSymbol, MiddleFragments, Overhead, KeepsMiddle, EmbedsSource,
         InputCovers, PieceCovers, WellFormed, IsCapture, WholeCharacters, SymbolRepresentation.SplitFails, BytesFit,
         SymbolRepresentation.Splits, Flat;
    ghost var before := CaptureAll(file, source, policy, symbols[..i]).remaining;
    var captured := CaptureAll(file, source, policy, symbols).symbols[i].embeddingSource;
    CapturedIs(file, source, policy, symbols, i);
    if captured.None? {
      return None;
    }
    ghost var parts, chosen;
    var prepared;
    prepared, parts, chosen := Inputs(captured.value, budget);
    if prepared.Success? && captured.value.fragments != [] {
      CaptureEmbeds(file, source, policy, symbols[i], captured.value, before, budget, parts, chosen, prepared.value);
    }
    if prepared.Success? && policy.SymbolBodyV2? {
      MiddleOfCaptured(file, source, symbols, i, budget, parts, prepared.value);
    }
    return Some(prepared);
  }

  lemma MiddleFragmentsKept(source: Str, r: Range, allowance: nat)
    requires WholeCharacters(source, r) && r.start < r.end && KeepsMiddle(r, allowance)
    ensures MiddleFragments(source, r, allowance) != []
  {
    hide MiddleFragments, KeepsMiddle, WellFormed, WholeCharacters;
    MiddleIsKept(source, r, allowance);
  }

  // ---------------------------------------------------------------- the whole pass

  /** The parsed file whose symbols the pass updates in place. */
  class ParsedFile {
    const facts: FileFacts
    var rawSymbols: seq<RawSymbol>

    constructor (facts: FileFacts, rawSymbols: seq<RawSymbol>)
      ensures this.facts == facts && this.rawSymbols == rawSymbols
    {
      this.facts := facts;
      this.rawSymbols := rawSymbols;
    }

    method CaptureWithPolicy(source: Str, policy: CodeEmbeddingPolicy) returns (remaining: nat)
      modifies this`rawSymbols
      ensures var p := CaptureAll(facts, source, policy, old(rawSymbols));
              rawSymbols == p.symbols && remaining == p.remaining
    {
      hide CaptureSymbol, CaptureAll;
      var lines := LineStarts(source);
      remaining := MAX_FILE_SOURCE_BYTES;
      ghost var was := rawSymbols;
      CaptureNone(facts, source, policy, was);
      for i := 0 to |rawSymbols|
        invariant |rawSymbols| == |was|
        invariant rawSymbols == CaptureAll(facts, source, policy, was[..i]).symbols + was[i..]
        invariant remaining == CaptureAll(facts, source, policy, was[..i]).remaining
      {
        var symbol, left := CaptureOne(facts, source, lines, policy, rawSymbols[i], remaining);
        CaptureMore(facts, source, policy, was, i);
        UpdateNext(CaptureAll(facts, source, policy, was[..i]).symbols, was, i, symbol);
        rawSymbols, remaining := rawSymbols[i := symbol], left;
      }
      assert was[..|was|] == was && was[|was|..] == [];
    }
  }

  lemma CaptureNone(file: FileFacts, source: Str, policy: CodeEmbeddingPolicy, symbols: seq<RawSymbol>)
    ensures CaptureAll(file, source, policy, symbols[..0]) == Progress([], MAX_FILE_SOURCE_BYTES)
  {
  }

  lemma CaptureMore(file: FileFacts, source: Str, policy: CodeEmbeddingPolicy, symbols: seq<RawSymbol>, i: nat)
    requires i < |symbols|
    ensures var earlier := CaptureAll(file, source, policy, symbols[..i]);
            var c := CaptureSymbol(file, source, policy, symbols[i], earlier.remaining);
            CaptureAll(file, source, policy, symbols[..i + 1]) == Progress(earlier.symbols + [c.symbol], c.remaining)
  {
    hide CaptureSymbol;
    assert symbols[..i + 1][..i] == symbols[..i];
  }

  lemma UpdateNext<T>(done: seq<T>, was: seq<T>, i: nat, x: T)
    requires |done| == i < |was|
    ensures (done + was[i..])[i] == was[i]
    ensures (done + was[i..])[i := x] == done + [x] + was[i + 1..]
  {
  }

  /** The loop body, step by step. */
  method CaptureOne(
    file: FileFacts, source: Str, lines: seq<nat>, policy: CodeEmbeddingPolicy, symbol: RawSymbol, remaining: nat)
    returns (updated: RawSymbol, left: nat)
    requires lines == Lines(source, |source|)
    ensures var c := CaptureSymbol(file, source, policy, symbol, remaining);
            updated == c.symbol && left == c.remaining
  {
    hide HeaderBytes, Excerpt, TextBytes, Coverage, Lines, WellFormed, Eligible, IsHeader;
    updated, left := symbol.(policy := policy), remaining;
    if !Eligible(policy, symbol.kind, symbol.docComment.Some?) {
      return;
    }
    var header := BuildHeader(file, symbol, policy);
    var overhead := |header| + COVERAGE_RESERVE;
    if overhead > left {
      return;
    }
    left := left - overhead;
    var fragments := TakeExcerpt(source, lines, symbol.range, policy, left);
    var bytes := SumBytes(fragments);
    left := SaturatingSub(left, bytes);
    header := WithCoverage(header, fragments != []);
    updated := updated.(embeddingSource := Some(SymbolSource(header, fragments, policy)));
  }

  method TakeExcerpt(source: Str, lines: seq<nat>, range: LineRange, policy: CodeEmbeddingPolicy, allowance: nat)
    returns (fragments: seq<SourceFragment>)
    requires lines == Lines(source, |source|)
    ensures fragments == Excerpt(source, range, policy, allowance)
  {
    SourceRangeSelects(source, lines, range);
    var found := SourceRange(source, lines, range);
    hide SourceRange, Lines, Fragments, MiddleFragments;
    if found.None? {
      return [];
    }
    if policy == SymbolBodyV2 {
      fragments := TakeMiddleFragments(source, found.value, allowance);
    } else {
      fragments := TakeFragments(source, found.value, allowance);
    }
  }

  method SumBytes(fragments: seq<SourceFragment>) returns (bytes: nat)
    ensures bytes == TextBytes(fragments)
  {
    bytes := 0;
    for i := 0 to |fragments|
      invariant bytes == TextBytes(fragments[..i])
    {
      assert fragments[..i + 1][..i] == fragments[..i];
      bytes := bytes + |fragments[i].text|;
    }
    assert fragments[..|fragments|] == fragments;
  }
}
