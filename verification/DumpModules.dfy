/** Whole modules: the lines of a dump are read back as the chunks they were printed from,
    and printing what was read gives the same dump. */
module DumpModules {
  import opened Ir
  import opened Text
  import opened DumpFormat
  import opened DumpParse
  import opened DumpNames
  import opened DumpRoundTrip

  // ----- modules -----

  lemma Plain2(a: string, b: string)
    requires IsPlain(a) && IsPlain(b)
    ensures IsPlain(a + b)
  {
  }

  lemma Plain3(a: string, b: string, c: string)
    requires IsPlain(a) && IsPlain(b) && IsPlain(c)
    ensures IsPlain(a + b + c) && IsPlain(a + (b + c))
  {
    hide IsPlain;
    Plain2(a, b);
    Plain2(a + b, c);
    Plain2(b, c);
    Plain2(a, b + c);
  }

  /** The literal pieces of a dump. */
  lemma PunctuationIsPlain()
    ensures IsPlain("") && IsPlain(" ") && IsPlain("(") && IsPlain(")") && IsPlain("[") && IsPlain("]") && IsPlain("@")
    ensures IsPlain(":") && IsPlain(": ") && IsPlain("    ") && IsPlain("  ") && IsPlain("`") && IsPlain("-")
              && IsPlain("0x")
    ensures IsPlain(":= ") && IsPlain(" = ") && IsPlain("t") && IsPlain("fn ") && IsPlain(" (") && IsPlain(") -> ")
  {
  }

  lemma SuffixesArePlain()
    ensures IsPlain(" [no_alloc]") && IsPlain("  safepoint=[") && IsPlain(" (chain=")
  {
  }

  lemma NoteStartIsPlain()
    ensures IsPlain("  ; sealed-direct on `")
  {
  }

  lemma ExitsArePlain()
    ensures IsPlain("Return") && IsPlain("Return ") && IsPlain("If ") && IsPlain("Jump ")
  {
  }

  lemma {:induction false} KeywordsArePlain()
    ensures IsPlain(" [no_alloc]") && IsPlain("  safepoint=[") && IsPlain("  ; sealed-direct on `")
              && IsPlain(" (chain=")
    ensures IsPlain("Return") && IsPlain("Return ") && IsPlain("If ") && IsPlain("Jump ") && IsPlain("true")
              && IsPlain("false")
    ensures IsPlain(", tagged=") && IsPlain(", ") && IsPlain(", sig=")
  {
    hide IsPlain;
    SuffixesArePlain();
    NoteStartIsPlain();
    ExitsArePlain();
    ConstWordsArePlain();
  }

  lemma ConstWordsArePlain()
    ensures IsPlain("true") && IsPlain("false") && IsPlain(", tagged=") && IsPlain(", ") && IsPlain(", sig=")
  {
  }

  lemma DeclsArePlain(f: Function, ts: seq<TempId>, resolve: Resolver)
    ensures IsPlain(Decls(f, ts))
  {
    hide Decls, ParseTempDecls;
    DeclsParse(f, ts, resolve);
  }

  lemma CommaTempsArePlain(ts: seq<TempId>)
    ensures IsPlain(CommaTemps(ts))
  {
    hide CommaTemps, ParseCommaTemps;
    CommaTempsParse(ts);
  }

  lemma TypesArePlain(ty: TypeEstimate, resolve: Resolver)
    ensures IsPlain(TypeLabel(ty)) && IsPlain(TypeName(ty))
  {
    hide TypeLabel, TypeName, ParseType;
    TypeLabelParses(ty, resolve);
    TypeNameParses(ty, resolve);
  }

  lemma NumeralsArePlain(n: nat)
    ensures IsPlain(Decimal(n)) && IsPlain(Hex(n)) && IsPlain("t" + Decimal(n))
  {
    hide Radix;
    RadixDigits(n, 10);
    RadixDigits(n, 16);
  }

  lemma DecimalIntIsPlain(n: int)
    ensures IsPlain(DecimalInt(n))
  {
    hide Radix;
    NumeralsArePlain(if n < 0 then -n else n);
  }

  lemma {:induction false} StubIsPlain(dll: string, symbol: string, signature: seq<U8>, printable: char -> bool)
    ensures IsPlain(StubNames(dll, symbol, printable) + HexBytes(signature))
  {
    hide IsPlain, Quoted, HexBytes;
    KeywordsArePlain();
    QuotedIsPlain(dll, printable);
    QuotedIsPlain(symbol, printable);
    HexBytesArePlain(signature);
    Plain3(Quoted(dll, printable), ", ", Quoted(symbol, printable));
    Plain3(Quoted(dll, printable) + ", " + Quoted(symbol, printable), ", sig=", HexBytes(signature));
  }

  lemma HexBytesArePlain(bytes: seq<U8>)
    ensures IsPlain(HexBytes(bytes))
  {
    hide HexBytes, ParseHexPairs;
    ParseHexPairsOf(bytes);
  }

  lemma ConstIsPlain(v: ConstValue, printable: char -> bool)
    ensures IsPlain(ConstPayload(v, printable))
  {
    hide IsPlain, Radix, Quoted, QuotedChar, HexBytes, DecimalInt, StubNames;
    PunctuationIsPlain();
    KeywordsArePlain();
    match v
    case IntegerConst(i) => DecimalIntIsPlain(i);
    case BoolConst(_) =>
    case StringConst(s) => QuotedIsPlain(s, printable);
    case CharConst(c) => QuotedCharIsPlain(c, printable);
    case UnitConst =>
    case WordBits(bits) =>
      NumeralsArePlain(bits);
      Plain2("0x", Hex(bits));
    case ClassMetadataPtr(id, tagged) =>
      NumeralsArePlain(id);
      Plain3(Decimal(id), ", tagged=", BoolText(tagged));
    case StringLiteralRef(s) => QuotedIsPlain(s, printable);
    case SymbolLiteralRef(s) => QuotedIsPlain(s, printable);
    case StubEntryRef(dll, symbol, signature) => StubIsPlain(dll, symbol, signature, printable);
  }

  lemma QuotedCharIsPlain(c: char, printable: char -> bool)
    ensures IsPlain(QuotedChar(c, printable))
  {
    hide Escape;
    EscapeIsPlain(c, '\'', printable);
  }

  lemma CallIsPlain(callee: string, args: seq<TempId>, roots: seq<TempId>)
    requires IsPlain(callee)
    ensures IsPlain(CallText(callee, args, roots))
  {
    hide CommaTemps, IsPlain, SafepointText;
    PunctuationIsPlain();
    CommaTempsArePlain(args);
    SafepointIsPlain(roots);
    Plain3(callee, "(", CommaTemps(args));
    Plain3(callee + "(" + CommaTemps(args), ")", SafepointText(roots));
  }

  lemma SafepointIsPlain(roots: seq<TempId>)
    ensures IsPlain(SafepointText(roots))
  {
    hide CommaTemps, IsPlain;
    PunctuationIsPlain();
    KeywordsArePlain();
    CommaTempsArePlain(roots);
    Plain3("  safepoint=[", CommaTemps(roots), "]");
  }

  lemma PrimArgsArePlain(args: seq<TempId>)
    ensures IsPlain(PrimArgs(args))
  {
    hide Join, TempText, TempTexts;
    TempTextsClean(args);
    JoinedChars(TempTexts(args), " ");
  }

  lemma SealedNoteIsPlain(generic: string, chain: nat)
    requires IsPlain(generic)
    ensures IsPlain(SealedNote(generic, chain))
  {
    hide IsPlain, Radix;
    PunctuationIsPlain();
    KeywordsArePlain();
    NumeralsArePlain(chain);
    var tail := Decimal(chain) + ")";
    Plain2(Decimal(chain), ")");
    Plain2(" (chain=", tail);
    Plain3(generic, "`", " (chain=" + tail);
    Plain2("  ; sealed-direct on `", generic + "`" + (" (chain=" + tail));
  }

  lemma SlotIsPlain(offset: U64, rest: string)
    requires IsPlain(rest)
    ensures IsPlain("@" + Decimal(offset) + " " + rest)
  {
    hide IsPlain, Radix;
    PunctuationIsPlain();
    NumeralsArePlain(offset);
    Plain2("@", Decimal(offset));
    Plain3("@" + Decimal(offset), " ", rest);
  }

  lemma SlotKindIsPlain(kind: SlotTypeKind)
    ensures IsPlain("[" + SlotKindName(kind) + "]")
  {
  }

  lemma {:induction false} CallBodyIsPlain(c: Computation, printable: char -> bool)
    requires PrintableComputation(c) && c.IsCallShaped()
    ensures IsPlain(OperationBody(c, printable))
  {
    hide IsPlain, Radix, CallText, SealedNote;
    PunctuationIsPlain();
    KeywordsArePlain();
    match c
    case DirectCall(_, callee, args, roots, noAlloc) =>
      CallIsPlain(callee, args, roots);
      Plain2(CallText(callee, args, roots), NoAllocText(noAlloc));
    case Call(_, callee, args, roots) =>
      NumeralsArePlain(callee);
      CallIsPlain(TempText(callee), args, roots);
    case Dispatch(_, generic, args, roots) => CallIsPlain(generic, args, roots);
    case SealedDirectCall(_, callee, chain, generic, args, roots, noAlloc) =>
      CallIsPlain(callee, args, roots);
      SealedNoteIsPlain(generic, |chain|);
      Plain3(CallText(callee, args, roots), NoAllocText(noAlloc), SealedNote(generic, |chain|));
  }

  lemma {:induction false} OtherBodyIsPlain(c: Computation, printable: char -> bool)
    requires PrintableComputation(c) && !c.IsCallShaped()
    ensures IsPlain(OperationBody(c, printable))
  {
    hide IsPlain, Radix, PrimArgs, ConstPayload, ConstTag, ClassCheckName, PrimOpName, SlotKindName;
    PunctuationIsPlain();
    match c
    case Const(_, v) =>
      ConstIsPlain(v, printable);
      ConstTagIsPlain(v);
      Plain3(ConstTag(v), "(", ConstPayload(v, printable));
      Plain2(ConstTag(v) + "(" + ConstPayload(v, printable), ")");
      UnitIsPlain();
    case Prim(_, op, args) =>
      PrimArgsArePlain(args);
      PrimOpNameIsPlain(op);
      Plain2(PrimOpName(op), PrimArgs(args));
    case TypeCheck(_, subject, cls) =>
      NumeralsArePlain(subject);
      Plain3(TempText(subject), " ", ClassCheckName(cls));
    case WriteBarrier(_, slot, stored) =>
      NumeralsArePlain(slot);
      NumeralsArePlain(stored);
      Plain2(":= ", TempText(stored));
      Plain3(TempText(slot), " ", ":= " + TempText(stored));
    case LoadSlot(_, instance, offset, kind) =>
      var last := "[" + SlotKindName(kind) + "]";
      NumeralsArePlain(instance);
      SlotKindIsPlain(kind);
      SlotIsPlain(offset, last);
      Plain3(TempText(instance), " ", "@" + Decimal(offset) + " " + last);
    case StoreSlot(_, instance, offset, stored, kind) =>
      var last := "[" + SlotKindName(kind) + "]";
      NumeralsArePlain(instance);
      NumeralsArePlain(stored);
      SlotKindIsPlain(kind);
      Plain3(TempText(stored), " ", last);
      Plain2(":= ", TempText(stored) + " " + last);
      SlotIsPlain(offset, ":= " + (TempText(stored) + " " + last));
      Plain3(TempText(instance), " ", "@" + Decimal(offset) + " " + (":= " + (TempText(stored) + " " + last)));
  }

  lemma UnitIsPlain()
    ensures IsPlain("Unit")
  {
  }

  lemma LongTagIsPlain(v: ConstValue)
    requires v.ClassMetadataPtr? || v.StringLiteralRef? || v.SymbolLiteralRef? || v.StubEntryRef?
    ensures IsPlain(ConstTag(v))
  {
  }

  lemma ShortTagIsPlain(v: ConstValue)
    requires !v.ClassMetadataPtr? && !v.StringLiteralRef? && !v.SymbolLiteralRef? && !v.StubEntryRef?
    ensures IsPlain(ConstTag(v))
  {
  }

  lemma ConstTagIsPlain(v: ConstValue)
    ensures IsPlain(ConstTag(v))
  {
    hide ConstTag, IsPlain;
    if v.ClassMetadataPtr? || v.StringLiteralRef? || v.SymbolLiteralRef? || v.StubEntryRef? {
      LongTagIsPlain(v);
    } else {
      ShortTagIsPlain(v);
    }
  }

  lemma IntOpNameIsPlain(op: PrimOp)
    requires IsIntOp(op) || IsCompareOp(op)
    ensures IsPlain(PrimOpName(op))
  {
  }

  lemma OtherOpNameIsPlain(op: PrimOp)
    requires !IsIntOp(op) && !IsCompareOp(op)
    ensures IsPlain(PrimOpName(op))
  {
  }

  lemma PrimOpNameIsPlain(op: PrimOp)
    ensures IsPlain(PrimOpName(op))
  {
    hide PrimOpName, IsPlain, IsIntOp, IsCompareOp;
    if IsIntOp(op) || IsCompareOp(op) {
      IntOpNameIsPlain(op);
    } else {
      OtherOpNameIsPlain(op);
    }
  }

  lemma KeywordIsPlain(c: Computation)
    ensures IsPlain(OperationKeyword(c))
  {
  }

  /** A line that is plain and holds a visible character reads back as one line of a chunk. */
  predicate IsBodyLine(line: string) {
    IsPlain(line) && !IsBlank(line)
  }

  lemma VisibleIsBody(line: string, k: nat)
    requires IsPlain(line) && k < |line| && !IsWhitespace(line[k])
    ensures IsBodyLine(line) && IsLine(line)
  {
    assert line[k] in line;
    assert line[|line| - 1] in line;
  }

  lemma ComputationLineIsBody(f: Function, c: Computation, printable: char -> bool, resolve: Resolver)
    requires PrintableComputation(c)
    ensures IsBodyLine("    " + ComputationText(f, c, printable))
  {
    hide OperationBody, OperationKeyword, TypeLabel, TypeName, Radix, PrintableComputation, IsBlank, IsPlain;
    PunctuationIsPlain();
    if c.IsCallShaped() {
      CallBodyIsPlain(c, printable);
    } else {
      OtherBodyIsPlain(c, printable);
    }
    KeywordIsPlain(c);
    Plain3(OperationKeyword(c), " ", OperationBody(c, printable));
    TypesArePlain(TempType(f.temps, c.dst), resolve);
    NumeralsArePlain(c.dst);
    Plain3(TempText(c.dst), ": ", ResultLabel(f, c));
    Plain3(TempText(c.dst) + ": " + ResultLabel(f, c), " = ", OperationText(c, printable));
    Plain2("    ", ComputationText(f, c, printable));
    IndentedIsBody(ComputationText(f, c, printable));
  }

  lemma IndentedIsBody(text: string)
    requires IsPlain("    " + text) && text != "" && !IsWhitespace(text[0])
    ensures IsBodyLine("    " + text)
  {
    hide IsPlain, IsWhitespace, IsBlank;
    assert ("    " + text)[4] == text[0];
    VisibleIsBody("    " + text, 4);
  }

  lemma TerminatorIsPlain(f: Function, b: Block)
    requires Printable(f) && PrintableBlock(f, b)
    ensures IsPlain(TerminatorText(f, b.terminator))
  {
    hide Radix, BlockLabel, Printable, FirstBlock, CommaTemps, IsPlain, IsLabel, PrintableComputation;
    PunctuationIsPlain();
    KeywordsArePlain();
    match b.terminator
    case Return(None) =>
    case Return(Some(v)) =>
      NumeralsArePlain(v);
      Plain2("Return ", TempText(v));
    case If(cond, x, y) =>
      NumeralsArePlain(cond);
      assert x in b.terminator.Targets() && y in b.terminator.Targets();
      TargetIsPlain(f, x);
      TargetIsPlain(f, y);
      var arms := BlockLabel(f.blocks, x) + " " + BlockLabel(f.blocks, y);
      Plain3(BlockLabel(f.blocks, x), " ", BlockLabel(f.blocks, y));
      Plain3(TempText(cond), " ", arms);
      Plain2("If ", TempText(cond) + " " + arms);
    case Jump(x, args) =>
      assert x in b.terminator.Targets();
      TargetIsPlain(f, x);
      CommaTempsArePlain(args);
      Plain3("(", CommaTemps(args), ")");
      Plain3("Jump ", BlockLabel(f.blocks, x), ArgsText(args));
  }

  lemma TerminatorLineIsBody(f: Function, b: Block)
    requires Printable(f) && PrintableBlock(f, b)
    ensures IsBodyLine("    " + TerminatorText(f, b.terminator))
  {
    hide Radix, BlockLabel, Printable, FirstBlock, CommaTemps, IsBlank, IsPlain, PrintableBlock, ArgsText;
    PunctuationIsPlain();
    TerminatorIsPlain(f, b);
    Plain2("    ", TerminatorText(f, b.terminator));
    IndentedIsBody(TerminatorText(f, b.terminator));
  }

  lemma TargetIsPlain(f: Function, id: BlockId)
    requires Printable(f) && FirstBlock(f.blocks, id).Some?
    ensures IsPlain(BlockLabel(f.blocks, id))
  {
    LabelOfTarget(f.blocks, id);
    LabelIsPrintable(f, FirstBlock(f.blocks, id).value);
  }

  lemma HeaderIsBody(f: Function, resolve: Resolver)
    requires IsFunctionName(f.name)
    ensures IsBodyLine(HeaderLine(f))
  {
    hide Decls, TypeLabel, Avoids, IsBlank, IsPlain;
    PunctuationIsPlain();
    DeclsArePlain(f, f.params, resolve);
    TypesArePlain(f.returnType, resolve);
    Plain3("fn ", f.name, " (");
    Plain3("fn " + f.name + " (", Decls(f, f.params), ") -> ");
    Plain3("fn " + f.name + " (" + Decls(f, f.params) + ") -> ", TypeLabel(f.returnType), ":");
    assert HeaderLine(f)[0] == 'f';
    VisibleIsBody(HeaderLine(f), 0);
  }

  lemma BlockLineIsBody(f: Function, b: Block, resolve: Resolver)
    requires IsLabel(b.name)
    ensures IsBodyLine(BlockLine(f, b))
  {
    hide Decls, IsBlank, IsPlain;
    PunctuationIsPlain();
    DeclsArePlain(f, b.params, resolve);
    Plain3("(", Decls(f, b.params), ")");
    var params := if b.params == [] then "" else "(" + Decls(f, b.params) + ")";
    Plain3("  ", b.name, params);
    Plain2("  " + b.name + params, ":");
    var line := BlockLine(f, b);
    assert line[|line| - 1] == ':';
    VisibleIsBody(line, |line| - 1);
  }

  lemma BlockLinesAreBody(f: Function, b: Block, printable: char -> bool, resolve: Resolver)
    requires Printable(f) && PrintableBlock(f, b)
    ensures forall l :: l in BlockLines(f, b, printable) ==> IsBodyLine(l)
  {
    hide BlockLine, ComputationText, TerminatorText, IsBodyLine, Printable, FirstBlock, PrintableComputation, IsLabel;
    BlockLineIsBody(f, b, resolve);
    TerminatorLineIsBody(f, b);
    forall k | 0 <= k < |b.computations|
      ensures IsBodyLine("    " + ComputationText(f, b.computations[k], printable))
    {
      ComputationLineIsBody(f, b.computations[k], printable, resolve);
    }
  }

  lemma {:induction false} BlocksLinesAreBody(f: Function, n: nat, printable: char -> bool, resolve: Resolver)
    requires Printable(f) && n <= |f.blocks|
    ensures forall l :: l in BlocksLines(f, n, printable) ==> IsBodyLine(l)
  {
    hide BlockLines, IsBodyLine, PrintableBlock;
    if n > 0 {
      BlocksLinesAreBody(f, n - 1, printable, resolve);
      BlockLinesAreBody(f, f.blocks[n - 1], printable, resolve);
    }
  }

  lemma {:induction false} FunctionLinesAreBody(f: Function, printable: char -> bool, resolve: Resolver)
    requires Printable(f)
    ensures forall l :: l in FunctionLines(f, printable) ==> IsBodyLine(l)
  {
    hide HeaderLine, IsBodyLine, PrintableBlock, BlocksLines, IsFunctionName;
    HeaderIsBody(f, resolve);
    BlocksLinesAreBody(f, |f.blocks|, printable, resolve);
  }

  ghost predicate AllPrintable(fns: seq<Function>) {
    forall k :: 0 <= k < |fns| ==> Printable(fns[k])
  }

  lemma {:induction false} ModuleLinesAreLines(fns: seq<Function>, n: nat, printable: char -> bool, resolve: Resolver)
    requires AllPrintable(fns) && n <= |fns|
    ensures forall l :: l in ModuleLines(fns, n, printable) ==> IsLine(l)
  {
    hide FunctionLines, Printable, IsBodyLine;
    if n > 0 {
      ModuleLinesAreLines(fns, n - 1, printable, resolve);
      FunctionLinesAreBody(fns[n - 1], printable, resolve);
      forall l | l in FunctionLines(fns[n - 1], printable)
        ensures IsLine(l)
      {
        BodyIsLine(l);
      }
      assert IsLine("");
    }
  }

  lemma BodyIsLine(l: string)
    requires IsBodyLine(l)
    ensures IsLine(l)
  {
    assert l != "" ==> l[|l| - 1] in l;
  }

  lemma {:induction false} GroupPrefix(a: seq<string>, b: seq<string>, n: nat)
    requires n <= |a|
    ensures Group(a + b, n) == Group(a, n)
  {
    hide IsBlank;
    if n > 0 {
      GroupPrefix(a, b, n - 1);
      assert (a + b)[n - 1] == a[n - 1];
    }
  }

  /** Body lines all join the current chunk. */
  lemma {:induction false} GroupBody(a: seq<string>, b: seq<string>, n: nat)
    requires n <= |b| && forall l :: l in b ==> !IsBlank(l)
    ensures var g := Group(a, |a|);
            Group(a + b, |a| + n) == g.(current := g.current + b[..n])
  {
    hide IsBlank;
    if n == 0 {
      GroupPrefix(a, b, |a|);
      assert Group(a, |a|).current + b[..0] == Group(a, |a|).current;
    } else {
      GroupBody(a, b, n - 1);
      assert (a + b)[|a| + n - 1] == b[n - 1] && b[n - 1] in b;
      assert b[..n] == b[..n - 1] + [b[n - 1]];
      assert Group(a, |a|).current + b[..n - 1] + [b[n - 1]] == Group(a, |a|).current + b[..n];
    }
  }

  function ChunksOf(fns: seq<Function>, n: nat, printable: char -> bool): (r: seq<seq<string>>)
    requires n <= |fns|
    ensures |r| == n && forall k :: 0 <= k < n ==> r[k] == FunctionLines(fns[k], printable)
  {
    seq(n, k requires 0 <= k < n => FunctionLines(fns[k], printable))
  }

  lemma {:induction false} FunctionLinesNotBlank(f: Function, printable: char -> bool, resolve: Resolver)
    requires Printable(f)
    ensures FunctionLines(f, printable) != []
    ensures forall l :: l in FunctionLines(f, printable) ==> !IsBlank(l)
  {
    hide HeaderLine, BlocksLines, Printable, IsPlain, IsBlank;
    FunctionLinesAreBody(f, printable, resolve);
  }

  lemma {:induction false} ModuleGroups(fns: seq<Function>, n: nat, printable: char -> bool, resolve: Resolver)
    requires AllPrintable(fns) && 0 < n <= |fns|
    ensures var lines := ModuleLines(fns, n, printable);
            Group(lines, |lines|) == Grouping(ChunksOf(fns, n - 1, printable), FunctionLines(fns[n - 1], printable))
  {
    hide FunctionLines, Printable, IsBlank, Group, ModuleLines;
    var body := FunctionLines(fns[n - 1], printable);
    FunctionLinesNotBlank(fns[n - 1], printable, resolve);
    if n == 1 {
      FirstLines(fns, printable);
      GroupChunk([], [], body);
      assert ChunksOf(fns, 0, printable) == [];
    } else {
      ModuleGroups(fns, n - 1, printable, resolve);
      FunctionLinesNotBlank(fns[n - 2], printable, resolve);
      MoreLines(fns, n, printable);
      var before := ModuleLines(fns, n - 1, printable);
      GroupBlank(before);
      assert ChunksOf(fns, n - 2, printable) + [FunctionLines(fns[n - 2], printable)] ==
               ChunksOf(fns, n - 1, printable);
      GroupChunk(before + [""], ChunksOf(fns, n - 1, printable), body);
    }
  }

  lemma FirstLines(fns: seq<Function>, printable: char -> bool)
    requires fns != []
    ensures ModuleLines(fns, 1, printable) == [] + FunctionLines(fns[0], printable) && Group([], 0) == Grouping([], [])
  {
    hide FunctionLines;
    assert ModuleLines(fns, 0, printable) + [] == [];
  }

  lemma MoreLines(fns: seq<Function>, n: nat, printable: char -> bool)
    requires 1 < n <= |fns|
    ensures ModuleLines(fns, n, printable) == ModuleLines(fns, n - 1, printable) + [""] +
              FunctionLines(fns[n - 1], printable)
  {
    hide FunctionLines;
  }

  lemma {:induction false} GroupChunk(a: seq<string>, chunks: seq<seq<string>>, body: seq<string>)
    requires Group(a, |a|) == Grouping(chunks, []) && forall l :: l in body ==> !IsBlank(l)
    ensures Group(a + body, |a + body|) == Grouping(chunks, body)
  {
    hide IsBlank, Group;
    GroupBody(a, body, |body|);
    assert body[..|body|] == body && [] + body == body;
  }

  lemma {:induction false} GroupBlank(a: seq<string>)
    requires Group(a, |a|).current != []
    ensures Group(a + [""], |a| + 1) == Grouping(Group(a, |a|).chunks + [Group(a, |a|).current], [])
  {
    GroupPrefix(a, [""], |a|);
    assert (a + [""])[|a|] == "" && IsBlank("");
  }

  lemma {:induction false} ModuleChunks(fns: seq<Function>, printable: char -> bool, resolve: Resolver)
    requires AllPrintable(fns)
    ensures Chunks(ModuleLines(fns, |fns|, printable)) == ChunksOf(fns, |fns|, printable)
  {
    hide FunctionLines, Printable, IsBlank, Group, ModuleLines;
    if fns == [] {
      NoModuleLines(fns, printable);
    } else {
      ModuleGroups(fns, |fns|, printable, resolve);
      FunctionLinesNotBlank(fns[|fns| - 1], printable, resolve);
      assert ChunksOf(fns, |fns| - 1, printable) + [FunctionLines(fns[|fns| - 1], printable)] ==
               ChunksOf(fns, |fns|, printable);
    }
  }

  function BlankCount(lines: seq<string>): nat {
    if lines == [] then 0
    else BlankCount(lines[..|lines| - 1]) + if IsBlank(lines[|lines| - 1]) then 1 else 0
  }

  lemma {:induction false} BlankCountOfBody(a: seq<string>, b: seq<string>)
    requires forall l :: l in b ==> !IsBlank(l)
    ensures BlankCount(a + b) == BlankCount(a)
    decreases |b|
  {
    hide IsBlank;
    if b == [] {
      assert a + b == a;
    } else {
      var n := |b| - 1;
      assert (a + b)[..|a + b| - 1] == a + b[..n];
      BlankCountOfBody(a, b[..n]);
    }
  }

  lemma EmptyIsBlank()
    ensures IsBlank("")
  {
  }

  /** A dump has one blank line between two functions and no other. */
  lemma {:induction false} OneBlankBetween(fns: seq<Function>, n: nat, printable: char -> bool, resolve: Resolver)
    requires AllPrintable(fns) && n <= |fns|
    ensures BlankCount(ModuleLines(fns, n, printable)) == if n == 0 then 0 else n - 1
    ensures n > 0 ==> var lines := ModuleLines(fns, n, printable);
                      |lines| > 0 && !IsBlank(lines[0]) && !IsBlank(lines[|lines| - 1])
  {
    hide FunctionLines, Printable, IsBlank, ModuleLines;
    if n == 0 {
      NoModuleLines(fns, printable);
    } else {
      var body := FunctionLines(fns[n - 1], printable);
      FunctionLinesNotBlank(fns[n - 1], printable, resolve);
      OneBlankBetween(fns, n - 1, printable, resolve);
      if n == 1 {
        FirstLines(fns, printable);
        BlankCountOfBody([], body);
      } else {
        MoreLines(fns, n, printable);
        var before := ModuleLines(fns, n - 1, printable);
        BlankCountOfBody(before + [""], body);
        assert (before + [""])[..|before|] == before;
        EmptyIsBlank();
      }
    }
  }

  lemma NoModuleLines(fns: seq<Function>, printable: char -> bool)
    ensures ModuleLines(fns, 0, printable) == [] && Group([], 0) == Grouping([], [])
  {
  }

  /** Every class named in a function's name is known. */
  predicate NamesResolve(fns: seq<Function>, resolve: Resolver) {
    forall k :: 0 <= k < |fns| ==> ResolveName(fns[k].name, resolve).Ok?
  }

  lemma {:induction false} ChunksParse(fns: seq<Function>, n: nat, printable: char -> bool, resolve: Resolver)
    requires AllPrintable(fns) && n <= |fns|
    ensures ParseChunks(ChunksOf(fns, |fns|, printable), n, resolve) ==
            if NamesResolve(fns[..n], resolve) then Ok(CanonModule(fns, n, resolve)) else Malformed
  {
    hide FunctionLines, ParseFunctionLines, Canon, Printable, ResolveName;
    if n > 0 {
      ChunksParse(fns, n - 1, printable, resolve);
      FunctionParses(fns[n - 1], IdOf(n - 1), printable, resolve);
      assert fns[..n] == fns[..n - 1] + [fns[n - 1]];
      if !NamesResolve(fns[..n - 1], resolve) {
        var k :| 0 <= k < n - 1 && ResolveName(fns[..n - 1][k].name, resolve).Malformed?;
        assert fns[..n][k] == fns[..n - 1][k];
      }
    }
  }

  /** The parser inverts the printer: whatever counts as a printable character and whatever
      class names resolve to, parsing the dump of a module with printable names gives the
      module as the dump keeps it, class names in function names replaced by ids; it is
      refused exactly when one of those names is unknown. */
  lemma {:induction false} ParseInvertsFormat(fns: seq<Function>, printable: char -> bool, resolve: Resolver)
    requires AllPrintable(fns)
    ensures ParseModule(ModuleText(fns, printable), resolve) ==
            if NamesResolve(fns, resolve) then Ok(CanonModule(fns, |fns|, resolve)) else Malformed
  {
    hide ModuleLines, Lines, Unlines, Chunks, ParseChunks, CanonModule, AllPrintable, NamesResolve;
    ModuleLinesAreLines(fns, |fns|, printable, resolve);
    LinesUnlines(ModuleLines(fns, |fns|, printable));
    ModuleChunks(fns, printable, resolve);
    ChunksParse(fns, |fns|, printable, resolve);
    assert fns[..|fns|] == fns;
  }

  // ----- any text -----

  /** Grouping starts afresh where nothing is open. */
  lemma {:induction false} GroupAfresh(a: seq<string>, chunks: seq<seq<string>>, b: seq<string>, n: nat)
    requires Group(a, |a|) == Grouping(chunks, []) && n <= |b|
    ensures Group(a + b, |a| + n) == Grouping(chunks + Group(b, n).chunks, Group(b, n).current)
  {
    hide IsBlank;
    if n == 0 {
      GroupPrefix(a, b, |a|);
      assert chunks + [] == chunks;
    } else {
      GroupAfresh(a, chunks, b, n - 1);
      assert (a + b)[|a| + n - 1] == b[n - 1];
      var g := Group(b, n - 1);
      assert chunks + (g.chunks + [g.current]) == chunks + g.chunks + [g.current];
    }
  }

  lemma {:induction false} ChunksAfresh(a: seq<string>, chunks: seq<seq<string>>, b: seq<string>)
    requires Group(a, |a|) == Grouping(chunks, [])
    ensures Chunks(a + b) == chunks + Chunks(b)
  {
    hide Group;
    GroupAfresh(a, chunks, b, |b|);
    assert |a + b| == |a| + |b|;
    var g := Group(b, |b|);
    assert chunks + (g.chunks + [g.current]) == chunks + g.chunks + [g.current];
  }

  /** A function's lines are those between blank ones, however many there are. These three say
      what the functions of any text are. */
  lemma {:induction false} ChunkStep(body: seq<string>, blank: string, rest: seq<string>)
    requires body != [] && (forall l :: l in body ==> !IsBlank(l)) && IsBlank(blank)
    ensures Chunks(body + [blank] + rest) == [body] + Chunks(rest)
  {
    hide Group, IsBlank, Chunks;
    NothingOpen();
    GroupChunk([], [], body);
    assert [] + body == body;
    BlankCloses(body, blank, body);
    assert |body + [blank]| == |body| + 1;
    ChunksAfresh(body + [blank], [body], rest);
  }

  lemma NothingOpen()
    ensures Group([], 0) == Grouping([], [])
  {
  }

  lemma {:induction false} BlankCloses(a: seq<string>, blank: string, body: seq<string>)
    requires Group(a, |a|) == Grouping([], body) && body != [] && IsBlank(blank)
    ensures Group(a + [blank], |a| + 1) == Grouping([body], [])
  {
    hide IsBlank;
    GroupPrefix(a, [blank], |a|);
    assert (a + [blank])[|a|] == blank;
  }

  lemma {:induction false} BlankSkipped(blank: string, rest: seq<string>)
    requires IsBlank(blank)
    ensures Chunks([blank] + rest) == Chunks(rest)
  {
    hide IsBlank, Chunks;
    assert Group([blank], 1) == Grouping([], []);
    ChunksAfresh([blank], [], rest);
    assert [] + Chunks(rest) == Chunks(rest);
  }

  lemma {:induction false} LastChunk(body: seq<string>)
    requires forall l :: l in body ==> !IsBlank(l)
    ensures Chunks(body) == if body == [] then [] else [body]
  {
    hide IsBlank, Group;
    NothingOpen();
    GroupChunk([], [], body);
    assert [] + body == body;
  }

  /** A module is read exactly when every one of its functions is, numbered from zero. */
  lemma {:induction false} ChunksReadIff(chunks: seq<seq<string>>, n: nat, resolve: Resolver, fns: seq<Function>)
    requires n <= |chunks|
    ensures ParseChunks(chunks, n, resolve) == Ok(fns) <==>
            |fns| == n && forall k :: 0 <= k < n ==> ParseFunctionLines(chunks[k], IdOf(k), resolve) == Ok(fns[k])
  {
    hide ParseFunctionLines, IdOf;
    if n > 0 {
      if fns != [] {
        ChunksReadIff(chunks, n - 1, resolve, fns[..|fns| - 1]);
        assert fns == fns[..|fns| - 1] + [fns[|fns| - 1]];
      }
    }
  }

  lemma {:induction false} ModuleReadIff(text: string, resolve: Resolver, fns: seq<Function>)
    ensures ParseModule(text, resolve) == Ok(fns) <==>
            var chunks := Chunks(Lines(text));
            && |fns| == |chunks|
            && forall k :: 0 <= k < |fns| ==> ParseFunctionLines(chunks[k], IdOf(k), resolve) == Ok(fns[k])
  {
    hide ParseFunctionLines, IdOf, Chunks, ParseChunks;
    ChunksReadIff(Chunks(Lines(text)), |Chunks(Lines(text))|, resolve, fns);
  }

  // ----- dumps that name classes -----

  /** The second module is the first with the class names in its functions' names resolved. */
  ghost predicate NamedById(fns: seq<Function>, gns: seq<Function>, resolve: Resolver) {
    && |gns| == |fns|
    && forall k :: 0 <= k < |fns| ==>
         gns[k] == fns[k].(name := gns[k].name) && ResolveName(fns[k].name, resolve) == Ok(gns[k].name)
  }

  lemma {:induction false} SameKeptBlocks(f: Function, g: Function, from: nat, resolve: Resolver)
    requires g.blocks == f.blocks && g.temps == f.temps && from <= |f.blocks|
    ensures CanonBlocks(f, from, resolve) == CanonBlocks(g, from, resolve)
    ensures AllResultDecls(f, from) == AllResultDecls(g, from)
    decreases |f.blocks| - from
  {
    hide CanonComputation, ResultType;
    if from < |f.blocks| {
      SameKeptBlocks(f, g, from + 1, resolve);
      assert ResultDecls(f, f.blocks[from].computations) == ResultDecls(g, f.blocks[from].computations) by {
        SameResultTypes(f, g);
      }
      SameKeptTerminator(f, g, f.blocks[from].terminator);
    }
  }

  lemma SameResultTypes(f: Function, g: Function)
    requires g.temps == f.temps
    ensures forall c :: ResultType(f, c) == ResultType(g, c)
  {
  }

  lemma SameKeptTerminator(f: Function, g: Function, t: Terminator)
    requires g.blocks == f.blocks
    ensures CanonTerminator(f, t) == CanonTerminator(g, t)
  {
  }

  lemma {:induction false} SameParamDecls(f: Function, g: Function, n: nat)
    requires g.blocks == f.blocks && g.temps == f.temps && n <= |f.blocks|
    ensures BlockParamDecls(f, n) == BlockParamDecls(g, n)
  {
    if n > 0 {
      SameParamDecls(f, g, n - 1);
      assert DeclsOf(f, f.blocks[n - 1].params) == DeclsOf(g, f.blocks[n - 1].params);
    }
  }

  lemma {:induction false} SameKept(f: Function, g: Function, id: U32, resolve: Resolver)
    requires g == f.(name := g.name) && ResolveName(f.name, resolve) == Ok(g.name)
    ensures Canon(f, id, resolve) == Canon(g, id, resolve) && ResolveName(g.name, resolve) == Ok(g.name)
    ensures Printable(f) ==> Printable(g)
  {
    hide ResolveName, CanonBlocks, BlockParamDecls, AllResultDecls, TempTable, Avoids;
    ResolvedNameStays(f.name, resolve, resolve);
    SameKeptBlocks(f, g, 0, resolve);
    SameParamDecls(f, g, |f.blocks|);
    assert DeclsOf(f, f.params) == DeclsOf(g, f.params);
    if Printable(f) {
      ResolvedNamePrints(f.name, resolve);
      SamePrintable(f, g);
    }
  }

  lemma SamePrintable(f: Function, g: Function)
    requires Printable(f) && g == f.(name := g.name) && IsFunctionName(g.name)
    ensures Printable(g)
  {
    forall i | 0 <= i < |g.blocks|
      ensures PrintableBlock(g, g.blocks[i])
    {
      assert PrintableBlock(f, f.blocks[i]);
    }
  }

  lemma {:induction false} SameKeptModule(fns: seq<Function>, gns: seq<Function>, n: nat, resolve: Resolver)
    requires NamedById(fns, gns, resolve) && n <= |fns|
    ensures CanonModule(fns, n, resolve) == CanonModule(gns, n, resolve)
  {
    hide Canon, ResolveName;
    if n > 0 {
      SameKeptModule(fns, gns, n - 1, resolve);
      SameKept(fns[n - 1], gns[n - 1], IdOf(n - 1), resolve);
    }
  }

  /** A dump that gives the classes of method bodies by name parses to the same module as the
      dump of the module with their ids. */
  lemma {:induction false} ByNameParsesAsById(fns: seq<Function>, gns: seq<Function>, printable: char -> bool,
                                              resolve: Resolver)
    requires AllPrintable(fns) && NamedById(fns, gns, resolve)
    ensures AllPrintable(gns)
    ensures var back := ParseModule(ModuleText(fns, printable), resolve);
            back.Ok? && back == ParseModule(ModuleText(gns, printable), resolve)
  {
    hide ParseModule, ModuleText, CanonModule, Canon, Printable, ResolveName;
    forall k | 0 <= k < |fns|
      ensures Printable(gns[k]) && ResolveName(gns[k].name, resolve).Ok?
    {
      SameKept(fns[k], gns[k], 0, resolve);
    }
    ParseInvertsFormat(fns, printable, resolve);
    ParseInvertsFormat(gns, printable, resolve);
    SameKeptModule(fns, gns, |fns|, resolve);
  }

  // ----- printing what was read back -----

  /** No temp is defined twice. */
  ghost predicate DefinedOnce(f: Function) {
    forall i, j :: 0 <= i < j < |Definitions(f)| ==> Definitions(f)[i].id != Definitions(f)[j].id
  }

  predicate HasId(ts: seq<Temporary>, x: TempId) {
    ts != [] && (ts[0].id == x || HasId(ts[1..], x))
  }

  predicate SortedById(ts: seq<Temporary>) {
    |ts| >= 2 ==> ts[0].id < ts[1].id && SortedById(ts[1..])
  }

  lemma {:induction false} NoSmallerId(sorted: seq<Temporary>, id: TempId)
    requires SortedById(sorted) && (sorted == [] || id < sorted[0].id)
    ensures !HasId(sorted, id)
  {
    if sorted != [] {
      NoSmallerId(sorted[1..], id);
    }
  }

  lemma {:induction false} InsertStaysSorted(sorted: seq<Temporary>, t: Temporary)
    requires SortedById(sorted)
    ensures var r := InsertTemp(sorted, t);
            SortedById(r) && r != [] && r[0].id == if sorted != [] && sorted[0].id < t.id then sorted[0].id else t.id
  {
    if sorted == [] || t.id < sorted[0].id {
      assert ([t] + sorted)[1..] == sorted;
    } else if t.id > sorted[0].id {
      InsertStaysSorted(sorted[1..], t);
      assert InsertTemp(sorted, t)[1..] == InsertTemp(sorted[1..], t);
    }
  }

  /** Inserting adds the temp's id, and its type only if the id is new. */
  lemma {:induction false} InsertKeepsFirst(sorted: seq<Temporary>, t: Temporary, x: TempId)
    requires SortedById(sorted)
    ensures var r := InsertTemp(sorted, t);
            && (HasId(r, x) <==> HasId(sorted, x) || x == t.id)
            && TempType(r, x) == if x == t.id && !HasId(sorted, x) then t.estimate else TempType(sorted, x)
  {
    if sorted == [] || t.id < sorted[0].id {
      assert ([t] + sorted)[1..] == sorted;
      NoSmallerId(sorted, t.id);
    } else if t.id > sorted[0].id {
      InsertKeepsFirst(sorted[1..], t, x);
      assert InsertTemp(sorted, t)[1..] == InsertTemp(sorted[1..], t);
    }
  }

  lemma {:induction false} SnocKeepsFirst(front: seq<Temporary>, t: Temporary, x: TempId)
    ensures HasId(front + [t], x) <==> HasId(front, x) || t.id == x
    ensures TempType(front + [t], x) == if x == t.id && !HasId(front, x) then t.estimate else TempType(front, x)
  {
    if front == [] {
      assert front + [t] == [t];
    } else {
      assert (front + [t])[1..] == front[1..] + [t];
      SnocKeepsFirst(front[1..], t, x);
    }
  }

  /** The rebuilt table is sorted, and looks every temp up as its first definition. */
  lemma {:induction false} TempTableLooksUp(temps: seq<Temporary>, x: TempId)
    ensures SortedById(TempTable(temps))
    ensures TempType(TempTable(temps), x) == TempType(temps, x)
    ensures HasId(TempTable(temps), x) <==> HasId(temps, x)
  {
    if temps != [] {
      var n := |temps| - 1;
      TempTableLooksUp(temps[..n], x);
      InsertStaysSorted(TempTable(temps[..n]), temps[n]);
      InsertKeepsFirst(TempTable(temps[..n]), temps[n], x);
      SnocKeepsFirst(temps[..n], temps[n], x);
      assert temps == temps[..n] + [temps[n]];
    }
  }

  lemma {:induction false} OnlyDefinition(ts: seq<Temporary>, k: nat)
    requires k < |ts| && forall i, j :: 0 <= i < j < |ts| ==> ts[i].id != ts[j].id
    ensures TempType(ts, ts[k].id) == ts[k].estimate
  {
    if k > 0 {
      assert ts[0].id != ts[k].id;
      assert ts[1..][k - 1] == ts[k];
      forall i, j | 0 <= i < j < |ts[1..]|
        ensures ts[1..][i].id != ts[1..][j].id
      {
        assert ts[i + 1].id != ts[j + 1].id;
      }
      OnlyDefinition(ts[1..], k - 1);
    }
  }

  /** In the kept function every definition has the type the dump shows for it. */
  lemma KeptType(f: Function, id: U32, resolve: Resolver, d: Temporary)
    requires DefinedOnce(f) && d in Definitions(f)
    ensures TempType(Canon(f, id, resolve).temps, d.id) == d.estimate
  {
    hide Definitions, CanonBlocks;
    var k :| 0 <= k < |Definitions(f)| && Definitions(f)[k] == d;
    TempTableLooksUp(Definitions(f), d.id);
    OnlyDefinition(Definitions(f), k);
  }

  lemma SameDecls(f: Function, id: U32, resolve: Resolver, ts: seq<TempId>)
    requires DefinedOnce(f) && forall d :: d in DeclsOf(f, ts) ==> d in Definitions(f)
    ensures Decls(Canon(f, id, resolve), ts) == Decls(f, ts)
  {
    hide Definitions, Canon, TypeLabel, DefinedOnce;
    var g := Canon(f, id, resolve);
    forall k | 0 <= k < |ts|
      ensures DeclText(g, ts[k]) == DeclText(f, ts[k])
    {
      assert DeclsOf(f, ts)[k] in DeclsOf(f, ts);
      KeptType(f, id, resolve, DeclsOf(f, ts)[k]);
    }
    assert DeclTexts(g, ts) == DeclTexts(f, ts);
  }

  lemma {:induction false} BlockDeclsAreDefinitions(f: Function, n: nat, i: nat)
    requires i < n <= |f.blocks|
    ensures forall d :: d in DeclsOf(f, f.blocks[i].params) ==> d in BlockParamDecls(f, n)
  {
    if i < n - 1 {
      BlockDeclsAreDefinitions(f, n - 1, i);
    }
  }

  lemma {:induction false} ResultsAreDefinitions(f: Function, from: nat, i: nat)
    requires from <= i < |f.blocks|
    ensures forall d :: d in ResultDecls(f, f.blocks[i].computations) ==> d in AllResultDecls(f, from)
    decreases |f.blocks| - from
  {
    if from < i {
      ResultsAreDefinitions(f, from + 1, i);
    }
  }

  lemma SameOperation(c: Computation, printable: char -> bool, resolve: Resolver)
    ensures OperationText(CanonComputation(c, resolve), printable) == OperationText(c, printable)
  {
    hide CallText, PrimArgs, ConstText, Radix;
    if c.TypeCheck? {
      SameCheckName(c.cls, resolve);
    }
  }

  lemma SameCheckName(cls: ClassCheck, resolve: Resolver)
    ensures ClassCheckName(CanonCheck(cls, resolve)) == ClassCheckName(cls)
  {
    hide CheckNamed;
  }

  lemma SameTypeName(ty: TypeEstimate)
    ensures TypeName(Erased(ty)) == TypeName(ty)
  {
  }

  lemma {:induction false} SameComputation(f: Function, id: U32, resolve: Resolver, c: Computation,
                        printable: char -> bool)
    requires DefinedOnce(f) && Temporary(c.dst, ResultType(f, c)) in Definitions(f)
    ensures ComputationText(Canon(f, id, resolve), CanonComputation(c, resolve), printable) ==
              ComputationText(f, c, printable)
  {
    hide Definitions, Canon, TypeLabel, TypeName, OperationText, ParseClassCheck, DefinedOnce, Erased;
    KeptType(f, id, resolve, Temporary(c.dst, ResultType(f, c)));
    SameOperation(c, printable, resolve);
    SameTypeName(TempType(f.temps, c.dst));
  }

  lemma {:induction false} CanonBlocksAre(f: Function, from: nat, resolve: Resolver)
    requires from <= |f.blocks|
    ensures |CanonBlocks(f, from, resolve)| == |f.blocks| - from
    ensures forall k :: 0 <= k < |f.blocks| - from ==>
              CanonBlocks(f, from, resolve)[k] == CanonBlock(f, from + k, resolve)
    decreases |f.blocks| - from
  {
    hide CanonBlock;
    if from < |f.blocks| {
      CanonBlocksAre(f, from + 1, resolve);
    }
  }

  lemma {:induction false} LabelByPosition(blocks: seq<Block>, i: nat, id: BlockId)
    requires i < |blocks| && blocks[i].id == id && forall k :: 0 <= k < i ==> blocks[k].id != id
    ensures BlockLabel(blocks, id) == blocks[i].name
  {
    if i > 0 {
      assert blocks[0].id != id;
      LabelByPosition(blocks[1..], i - 1, id);
    }
  }

  lemma SmallId(k: nat)
    requires k < U32_LIMIT
    ensures BlockIdOf(k) == k
  {
  }

  lemma SameLabel(f: Function, id: U32, resolve: Resolver, target: BlockId)
    requires FirstBlock(f.blocks, target).Some? && |f.blocks| <= U32_LIMIT
    ensures BlockLabel(Canon(f, id, resolve).blocks, CanonTarget(f, target)) == BlockLabel(f.blocks, target)
  {
    hide CanonTerminator, CanonComputations, Definitions, TempTable, BlockIdOf, CanonBlocks, BlockLabel, FirstBlock;
    LabelOfTarget(f.blocks, target);
    CanonBlocksAre(f, 0, resolve);
    var i := FirstBlock(f.blocks, target).value;
    var blocks := CanonBlocks(f, 0, resolve);
    forall k | 0 <= k < |blocks|
      ensures blocks[k].id == k && blocks[k].name == f.blocks[k].name
    {
      assert blocks[k] == CanonBlock(f, 0 + k, resolve);
      SmallId(k);
    }
    SmallId(i);
    LabelByPosition(blocks, i, BlockIdOf(i));
  }

  lemma {:induction false} SameTerminator(f: Function, id: U32, resolve: Resolver, b: Block)
    requires PrintableBlock(f, b) && |f.blocks| <= U32_LIMIT
    ensures TerminatorText(Canon(f, id, resolve), CanonTerminator(f, b.terminator)) == TerminatorText(f, b.terminator)
  {
    hide Canon, BlockLabel, FirstBlock, CanonTarget, IsLabel, PrintableComputation, Radix, ArgsText;
    match b.terminator
    case Return(_) =>
    case If(_, x, y) =>
      assert x in b.terminator.Targets() && y in b.terminator.Targets();
      SameLabel(f, id, resolve, x);
      SameLabel(f, id, resolve, y);
    case Jump(x, _) =>
      assert x in b.terminator.Targets();
      SameLabel(f, id, resolve, x);
  }

  lemma {:induction false} SameBlock(f: Function, id: U32, resolve: Resolver, i: nat, printable: char -> bool)
    requires Printable(f) && DefinedOnce(f) && |f.blocks| <= U32_LIMIT && i < |f.blocks|
    ensures BlockLines(Canon(f, id, resolve), CanonBlock(f, i, resolve), printable) ==
              BlockLines(f, f.blocks[i], printable)
  {
    hide Canon, CanonTerminator, TerminatorText, ComputationText, Decls, DefinedOnce, IsFunctionName, IsLabel,
      FirstBlock,
      PrintableComputation, CanonComputation, ResultType;
    var b, g := f.blocks[i], Canon(f, id, resolve);
    assert PrintableBlock(f, b);
    BlockDeclsAreDefinitions(f, |f.blocks|, i);
    SameDecls(f, id, resolve, b.params);
    ResultsAreDefinitions(f, 0, i);
    SameTerminator(f, id, resolve, b);
    forall k | 0 <= k < |b.computations|
      ensures ComputationText(g, CanonComputation(b.computations[k], resolve), printable) ==
              ComputationText(f, b.computations[k], printable)
    {
      assert ResultDecls(f, b.computations)[k] in ResultDecls(f, b.computations);
      SameComputation(f, id, resolve, b.computations[k], printable);
    }
    assert ComputationLines(g, CanonComputations(b.computations, resolve), printable)
           == ComputationLines(f, b.computations, printable);
  }

  lemma {:induction false} SameBlocks(f: Function, id: U32, resolve: Resolver, n: nat, printable: char -> bool)
    requires Printable(f) && DefinedOnce(f) && |f.blocks| <= U32_LIMIT && n <= |f.blocks|
    ensures |Canon(f, id, resolve).blocks| == |f.blocks|
    ensures BlocksLines(Canon(f, id, resolve), n, printable) == BlocksLines(f, n, printable)
  {
    hide BlockLines, CanonBlock, Printable, DefinedOnce, Definitions, TempTable;
    CanonBlocksAre(f, 0, resolve);
    if n > 0 {
      SameBlocks(f, id, resolve, n - 1, printable);
      SameBlock(f, id, resolve, n - 1, printable);
    }
  }

  /** Printing what the dump keeps gives the same dump. */
  lemma {:induction false} SameFunction(f: Function, id: U32, resolve: Resolver, printable: char -> bool)
    requires Printable(f) && DefinedOnce(f) && |f.blocks| <= U32_LIMIT && HasNoClassSuffix(f.name)
    ensures FunctionLines(Canon(f, id, resolve), printable) == FunctionLines(f, printable)
  {
    NameStays(f.name, resolve);
    hide ResolveName, HasNoClassSuffix, BlocksLines, Printable, DefinedOnce, Decls, TypeLabel, BlockParamDecls,
        AllResultDecls, TempTable, CanonBlocks;
    SameBlocks(f, id, resolve, |f.blocks|, printable);
    assert forall d :: d in DeclsOf(f, f.params) ==> d in Definitions(f);
    SameDecls(f, id, resolve, f.params);
  }

  /** No function's name gives a class by name. */
  predicate AllNumeric(fns: seq<Function>) {
    forall k :: 0 <= k < |fns| ==> HasNoClassSuffix(fns[k].name)
  }

  lemma NumericNamesResolve(fns: seq<Function>, resolve: Resolver)
    requires AllNumeric(fns)
    ensures NamesResolve(fns, resolve)
  {
    hide HasNoClassSuffix, ResolveName;
    forall k | 0 <= k < |fns|
      ensures ResolveName(fns[k].name, resolve).Ok?
    {
      NameStays(fns[k].name, resolve);
    }
  }

  ghost predicate AllDefinedOnce(fns: seq<Function>) {
    forall k :: 0 <= k < |fns| ==> DefinedOnce(fns[k]) && |fns[k].blocks| <= U32_LIMIT
  }

  lemma {:induction false} CanonModuleIs(fns: seq<Function>, n: nat, resolve: Resolver)
    requires n <= |fns|
    ensures forall k :: 0 <= k < n ==> CanonModule(fns, n, resolve)[k] == Canon(fns[k], IdOf(k), resolve)
  {
    hide Canon;
    if n > 0 {
      CanonModuleIs(fns, n - 1, resolve);
    }
  }

  lemma {:induction false} SameModuleLines(fns: seq<Function>, n: nat, printable: char -> bool, resolve: Resolver)
    requires AllPrintable(fns) && AllDefinedOnce(fns) && AllNumeric(fns) && n <= |fns|
    ensures ModuleLines(CanonModule(fns, |fns|, resolve), n, printable) == ModuleLines(fns, n, printable)
  {
    hide FunctionLines, Printable, DefinedOnce, Canon, CanonModule, HasNoClassSuffix;
    CanonModuleIs(fns, |fns|, resolve);
    if n > 0 {
      SameModuleLines(fns, n - 1, printable, resolve);
      SameFunction(fns[n - 1], IdOf(n - 1), resolve, printable);
    }
  }

  lemma {:induction false} NumericFormatParseFormat(fns: seq<Function>, printable: char -> bool, resolve: Resolver)
    requires AllPrintable(fns) && AllDefinedOnce(fns) && AllNumeric(fns)
    ensures var back := ParseModule(ModuleText(fns, printable), resolve);
            back.Ok? && ModuleText(back.value, printable) == ModuleText(fns, printable)
  {
    hide ModuleLines, Unlines, ParseModule, AllPrintable, AllDefinedOnce, AllNumeric, NamesResolve;
    NumericNamesResolve(fns, resolve);
    ParseInvertsFormat(fns, printable, resolve);
    SameModuleLines(fns, |fns|, printable, resolve);
  }

  /** Printing, parsing and printing again gives the same bytes, class names in function
      names replaced by ids: all the same bytes when there are none. */
  lemma {:induction false} FormatParseFormat(fns: seq<Function>, gns: seq<Function>, printable: char -> bool,
                                             resolve: Resolver)
    requires AllPrintable(fns) && AllDefinedOnce(fns) && NamedById(fns, gns, resolve)
    ensures var back := ParseModule(ModuleText(fns, printable), resolve);
            back.Ok? && ModuleText(back.value, printable) == ModuleText(gns, printable)
    ensures AllNumeric(fns) ==> gns == fns
  {
    hide ModuleText, ParseModule, Printable, ResolveName, DefinedOnce, HasNoClassSuffix;
    ByNameParsesAsById(fns, gns, printable, resolve);
    forall k | 0 <= k < |fns|
      ensures DefinedOnce(gns[k]) && HasNoClassSuffix(gns[k].name)
      ensures HasNoClassSuffix(fns[k].name) ==> gns[k] == fns[k]
    {
      StillDefinedOnce(fns[k], gns[k]);
      ResolvedIsNumeric(fns[k].name, resolve);
      if HasNoClassSuffix(fns[k].name) {
        NameStays(fns[k].name, resolve);
      }
    }
    NumericFormatParseFormat(gns, printable, resolve);
  }

  lemma StillDefinedOnce(f: Function, g: Function)
    requires g == f.(name := g.name)
    ensures DefinedOnce(f) ==> DefinedOnce(g)
  {
    hide BlockParamDecls, AllResultDecls;
    SameKeptBlocks(f, g, 0, _ => None);
    SameParamDecls(f, g, |f.blocks|);
    assert DeclsOf(f, f.params) == DeclsOf(g, f.params);
    assert Definitions(f) == Definitions(g);
  }

  lemma {:induction false} ResolvedIsNumeric(name: string, resolve: Resolver)
    requires ResolveName(name, resolve).Ok?
    ensures HasNoClassSuffix(ResolveName(name, resolve).value)
  {
    // Otherwise a resolver that knows no class would refuse the name.
    ResolvedNameStays(name, resolve, _ => None);
    var resolved := ResolveName(name, resolve).value;
    match SplitOnce(resolved, "$")
    case Malformed =>
    case Ok((_, suffix)) =>
      TokensResolve(Split(suffix, "_"), _ => None);
      var toks := Split(suffix, "_");
      forall tok | tok in toks
        ensures !IsBracketed(tok)
      {
        var k :| 0 <= k < |toks| && toks[k] == tok;
        assert !Unknown(toks[k], _ => None);
      }
  }

  /** Two modules have the same dump, and so the same cache key text, exactly when the dump
      keeps the same module of them. */
  lemma {:induction false} SameDumpIffSameKept(fns: seq<Function>, gns: seq<Function>, printable: char -> bool,
                        resolve: Resolver)
    requires AllPrintable(fns) && AllDefinedOnce(fns) && AllPrintable(gns) && AllDefinedOnce(gns)
    requires AllNumeric(fns) && AllNumeric(gns)
    ensures ModuleText(fns, printable) == ModuleText(gns, printable) <==>
            CanonModule(fns, |fns|, resolve) == CanonModule(gns, |gns|, resolve)
  {
    hide ModuleLines, Unlines, ParseModule, AllPrintable, AllDefinedOnce, CanonModule, AllNumeric, NamesResolve;
    NumericNamesResolve(fns, resolve);
    NumericNamesResolve(gns, resolve);
    ParseInvertsFormat(fns, printable, resolve);
    ParseInvertsFormat(gns, printable, resolve);
    SameModuleLines(fns, |fns|, printable, resolve);
    SameModuleLines(gns, |gns|, printable, resolve);
  }

  function CheckOnly(classId: U32): Function {
    Function(0, "f", [0], 0,
             [Block(0, "entry", [], [TypeCheck(1, 0, UserClass(classId, "<a>"))], Return(Some(1)))],
             [Temporary(0, Top), Temporary(1, Boolean)], Boolean)
  }

  /** What the dump forgets can matter: tests against two different class ids have one
      dump, though codegen bakes the id into the test. */
  lemma DifferentChecksSameDump(printable: char -> bool)
    ensures CheckOnly(5) != CheckOnly(6)
    ensures ModuleText([CheckOnly(5)], printable) == ModuleText([CheckOnly(6)], printable)
  {
    hide TypeLabel, TypeName, Radix, Unlines;
    var f, g := CheckOnly(5), CheckOnly(6);
    assert f.blocks[0].computations[0] != g.blocks[0].computations[0];
    var c, d := f.blocks[0].computations[0], g.blocks[0].computations[0];
    assert ComputationText(f, c, printable) == ComputationText(g, d, printable);
    assert ComputationLines(f, [c], printable) == ComputationLines(g, [d], printable);
    assert BlockLines(f, f.blocks[0], printable) == BlockLines(g, g.blocks[0], printable);
    assert BlocksLines(f, 0, printable) == BlocksLines(g, 0, printable);
    assert BlocksLines(f, 1, printable) == BlocksLines(g, 1, printable);
    assert DeclTexts(f, [0]) == DeclTexts(g, [0]);
    assert FunctionLines(f, printable) == FunctionLines(g, printable);
    assert ModuleLines([f], 0, printable) == ModuleLines([g], 0, printable);
    assert ModuleLines([f], 1, printable) == ModuleLines([g], 1, printable);
  }
}
