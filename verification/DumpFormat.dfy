/** The DFM dump: the text of a module, line by line, and the printer that appends it to a
    growing buffer. */
module DumpFormat {
  import opened Ir
  import opened Text

  // ----- names -----

  function TypeName(ty: TypeEstimate): string {
    match ty
    case Top => "<top>"
    case Bottom => "<bottom>"
    case Integer => "<integer>"
    case SingleFloat => "<single-float>"
    case DoubleFloat => "<double-float>"
    case Character => "<character>"
    case Boolean => "<boolean>"
    case String => "<string>"
    case Unit => "<unit>"
    case Class(_) => "<class>"
    case Singleton(_) => "<singleton>"
  }

  /** Like the name, with the class id or the singleton's bits. */
  function TypeLabel(ty: TypeEstimate): string {
    match ty
    case Class(id) => "<class:" + Decimal(id) + ">"
    case Singleton(bits) => "<singleton:" + ("0x" + Hex(bits)) + ">"
    case _ => TypeName(ty)
  }

  function ClassCheckName(c: ClassCheck): string {
    match c
    case IsInteger => "<integer>"
    case IsBoolean => "<boolean>"
    case IsString => "<byte-string>"
    case IsSymbol => "<symbol>"
    case IsVector => "<simple-object-vector>"
    case IsCharacter => "<character>"
    case IsEmptyList => "<empty-list>"
    case UserClass(_, name) => name
    case VectorOrUserClass(_, name) => name
    case Unsupported(name) => name
  }

  function PrimOpName(op: PrimOp): string {
    match op
    case AddInt => "AddInt" case SubInt => "SubInt" case MulInt => "MulInt" case DivInt => "DivInt"
    case ModInt => "ModInt" case RemInt => "RemInt" case NegInt => "NegInt"
    case AddFloat => "AddFloat" case SubFloat => "SubFloat" case MulFloat => "MulFloat" case DivFloat => "DivFloat"
    case NegFloat => "NegFloat" case IntToFloat => "IntToFloat" case StripTag => "StripTag"
    case EqInt => "EqInt" case NeInt => "NeInt" case LtInt => "LtInt" case GtInt => "GtInt"
    case LeInt => "LeInt" case GeInt => "GeInt"
    case EqFloat => "EqFloat" case LtFloat => "LtFloat" case GtFloat => "GtFloat" case LeFloat => "LeFloat"
    case GeFloat => "GeFloat"
    case BoolAnd => "BoolAnd" case BoolOr => "BoolOr" case BoolNot => "BoolNot"
  }

  function SlotKindName(k: SlotTypeKind): string {
    match k
    case IntegerSlot => "Integer"
    case ObjectSlot => "Object"
  }

  function BoolText(b: bool): string {
    if b then "true" else "false"
  }

  // ----- pieces -----

  function TempText(t: TempId): string {
    "t" + Decimal(t)
  }

  function TempTexts(ts: seq<TempId>): (r: seq<string>)
    ensures |r| == |ts| && forall k :: 0 <= k < |ts| ==> r[k] == TempText(ts[k])
  {
    seq(|ts|, k requires 0 <= k < |ts| => TempText(ts[k]))
  }

  function CommaTemps(ts: seq<TempId>): string {
    Join(TempTexts(ts), ", ")
  }

  function DeclText(f: Function, t: TempId): string {
    TempText(t) + ": " + TypeLabel(TempType(f.temps, t))
  }

  function DeclTexts(f: Function, ts: seq<TempId>): (r: seq<string>)
    ensures |r| == |ts| && forall k :: 0 <= k < |ts| ==> r[k] == DeclText(f, ts[k])
  {
    seq(|ts|, k requires 0 <= k < |ts| => DeclText(f, ts[k]))
  }

  function Decls(f: Function, ts: seq<TempId>): string {
    Join(DeclTexts(f, ts), ", ")
  }

  function SafepointText(roots: seq<TempId>): string {
    if roots == [] then "" else "  safepoint=[" + CommaTemps(roots) + "]"
  }

  function NoAllocText(noAlloc: bool): string {
    if noAlloc then " [no_alloc]" else ""
  }

  function ConstTag(v: ConstValue): string {
    match v
    case IntegerConst(_) => "Integer"
    case BoolConst(_) => "Bool"
    case StringConst(_) => "String"
    case CharConst(_) => "Char"
    case UnitConst => "Unit"
    case WordBits(_) => "WordBits"
    case ClassMetadataPtr(_, _) => "ClassMetadataPtr"
    case StringLiteralRef(_) => "StringLiteralRef"
    case SymbolLiteralRef(_) => "SymbolLiteralRef"
    case StubEntryRef(_, _, _) => "StubEntryRef"
  }

  function StubNames(dll: string, symbol: string, printable: char -> bool): string {
    Quoted(dll, printable) + ", " + Quoted(symbol, printable) + ", sig="
  }

  function ConstPayload(v: ConstValue, printable: char -> bool): string {
    match v
    case IntegerConst(i) => DecimalInt(i)
    case BoolConst(b) => BoolText(b)
    case StringConst(s) => Quoted(s, printable)
    case CharConst(c) => QuotedChar(c, printable)
    case UnitConst => ""
    case WordBits(bits) => "0x" + Hex(bits)
    case ClassMetadataPtr(id, tagged) => Decimal(id) + ", tagged=" + BoolText(tagged)
    case StringLiteralRef(s) => Quoted(s, printable)
    case SymbolLiteralRef(s) => Quoted(s, printable)
    case StubEntryRef(dll, symbol, signature) => StubNames(dll, symbol, printable) + HexBytes(signature)
  }

  function ConstText(v: ConstValue, printable: char -> bool): string {
    if v.UnitConst? then "Unit" else ConstTag(v) + "(" + ConstPayload(v, printable) + ")"
  }

  /** Dispatches print the whole label of the result's type, everything else its name. */
  function ResultLabel(f: Function, c: Computation): string {
    var ty := TempType(f.temps, c.dst);
    if c.Dispatch? || c.SealedDirectCall? then TypeLabel(ty) else TypeName(ty)
  }

  function CallText(callee: string, args: seq<TempId>, roots: seq<TempId>): string {
    callee + "(" + CommaTemps(args) + ")" + SafepointText(roots)
  }

  function PrimArgs(args: seq<TempId>): string {
    if args == [] then "" else " " + Join(TempTexts(args), " ")
  }

  /** Of the fallback chain only the length is printed. */
  function SealedNote(generic: string, chain: nat): string {
    "  ; sealed-direct on `" + (generic + "`" + (" (chain=" + (Decimal(chain) + ")")))
  }

  function OperationKeyword(c: Computation): string {
    match c
    case Const(_, _) => "Const"
    case Prim(_, _, _) => "PrimOp"
    case DirectCall(_, _, _, _, _) => "DirectCall"
    case Call(_, _, _, _) => "Call"
    case TypeCheck(_, _, _) => "TypeCheck"
    case WriteBarrier(_, _, _) => "WriteBarrier"
    case LoadSlot(_, _, _, _) => "LoadSlot"
    case StoreSlot(_, _, _, _, _) => "StoreSlot"
    case Dispatch(_, _, _, _) => "Dispatch"
    case SealedDirectCall(_, _, _, _, _, _, _) => "SealedDirectCall"
  }

  function OperationBody(c: Computation, printable: char -> bool): string {
    match c
    case Const(_, v) => ConstText(v, printable)
    case Prim(_, op, args) => PrimOpName(op) + PrimArgs(args)
    case DirectCall(_, callee, args, roots, noAlloc) => CallText(callee, args, roots) + NoAllocText(noAlloc)
    case Call(_, callee, args, roots) => CallText(TempText(callee), args, roots)
    case TypeCheck(_, subject, cls) => TempText(subject) + " " + ClassCheckName(cls)
    case WriteBarrier(_, slot, stored) => TempText(slot) + " " + (":= " + TempText(stored))
    case LoadSlot(_, instance, offset, kind) =>
      TempText(instance) + " " + ("@" + Decimal(offset) + " " + ("[" + SlotKindName(kind) + "]"))
    case StoreSlot(_, instance, offset, stored, kind) =>
      TempText(instance) + " " + ("@" + Decimal(offset) + " "
                                  + (":= " + (TempText(stored) + " " + ("[" + SlotKindName(kind) + "]"))))
    case Dispatch(_, generic, args, roots) => CallText(generic, args, roots)
    case SealedDirectCall(_, callee, chain, generic, args, roots, noAlloc) =>
      CallText(callee, args, roots) + (NoAllocText(noAlloc) + SealedNote(generic, |chain|))
  }

  function OperationText(c: Computation, printable: char -> bool): string {
    OperationKeyword(c) + " " + OperationBody(c, printable)
  }

  function ComputationText(f: Function, c: Computation, printable: char -> bool): string {
    TempText(c.dst) + ": " + ResultLabel(f, c) + " = " + OperationText(c, printable)
  }

  /** The first block with the id gives the label. */
  function BlockLabel(blocks: seq<Block>, id: BlockId): string {
    if blocks == [] then "<missing b" + Decimal(id) + ">"
    else if blocks[0].id == id then blocks[0].name
    else BlockLabel(blocks[1..], id)
  }

  function ArgsText(args: seq<TempId>): string {
    if args == [] then "" else "(" + CommaTemps(args) + ")"
  }

  function TerminatorText(f: Function, t: Terminator): string {
    match t
    case Return(Some(v)) => "Return " + TempText(v)
    case Return(None) => "Return"
    case If(cond, a, b) =>
      "If " + (TempText(cond) + " " + (BlockLabel(f.blocks, a) + " " + BlockLabel(f.blocks, b)))
    case Jump(a, args) => "Jump " + (BlockLabel(f.blocks, a) + ArgsText(args))
  }

  // ----- lines -----

  function HeaderLine(f: Function): string {
    "fn " + f.name + " (" + Decls(f, f.params) + ") -> " + TypeLabel(f.returnType) + ":"
  }

  function BlockLine(f: Function, b: Block): string {
    "  " + b.name + (if b.params == [] then "" else "(" + Decls(f, b.params) + ")") + ":"
  }

  function ComputationLines(f: Function, cs: seq<Computation>, printable: char -> bool): (r: seq<string>)
    ensures |r| == |cs| && forall k :: 0 <= k < |cs| ==> r[k] == "    " + ComputationText(f, cs[k], printable)
  {
    seq(|cs|, k requires 0 <= k < |cs| => "    " + ComputationText(f, cs[k], printable))
  }

  function BlockLines(f: Function, b: Block, printable: char -> bool): seq<string> {
    [BlockLine(f, b)] + ComputationLines(f, b.computations, printable) + ["    " + TerminatorText(f, b.terminator)]
  }

  /** The lines of the first `n` blocks. */
  function BlocksLines(f: Function, n: nat, printable: char -> bool): seq<string>
    requires n <= |f.blocks|
  {
    if n == 0 then [] else BlocksLines(f, n - 1, printable) + BlockLines(f, f.blocks[n - 1], printable)
  }

  function FunctionLines(f: Function, printable: char -> bool): seq<string> {
    [HeaderLine(f)] + BlocksLines(f, |f.blocks|, printable)
  }

  /** Functions are separated by one blank line. */
  function ModuleLines(fns: seq<Function>, n: nat, printable: char -> bool): seq<string>
    requires n <= |fns|
  {
    if n == 0 then []
    else
      ModuleLines(fns, n - 1, printable) + (if n == 1 then [] else [""]) + FunctionLines(fns[n - 1], printable)
  }

  function ModuleText(fns: seq<Function>, printable: char -> bool): string {
    Unlines(ModuleLines(fns, |fns|, printable))
  }

  // ----- the printer -----

  class Buffer {
    var text: string

    constructor ()
      ensures text == ""
    {
      text := "";
    }

    method Push(s: string)
      modifies this
      ensures text == old(text) + s
    {
      text := text + s;
    }
  }

  lemma JoinNone(texts: seq<string>, sep: string, s: string)
    ensures Join(texts[..0], sep) == "" && s + "" == s
  {
  }

  lemma Regrouped5(a: string, b: string, c: string, d: string, e: string)
    ensures a + b + c + d + e == a + (b + c + d + e)
  {
  }

  /** Appends the temps separated by commas. */
  method FmtTemps(ts: seq<TempId>, out: Buffer)
    modifies out
    ensures out.text == old(out.text) + CommaTemps(ts)
  {
    hide Join, TempText;
    var texts := TempTexts(ts);
    JoinNone(texts, ", ", out.text);
    for i := 0 to |ts|
      invariant out.text == old(out.text) + Join(texts[..i], ", ")
    {
      JoinSnoc(texts[..i], ", ", texts[i]);
      assert texts[..i + 1] == texts[..i] + [texts[i]];
      if i > 0 {
        out.Push(", ");
      }
      out.Push(TempText(ts[i]));
    }
    assert texts[..|ts|] == texts;
  }

  method FmtDecls(f: Function, ts: seq<TempId>, out: Buffer)
    modifies out
    ensures out.text == old(out.text) + Decls(f, ts)
  {
    hide Join, DeclText;
    var texts := DeclTexts(f, ts);
    JoinNone(texts, ", ", out.text);
    for i := 0 to |ts|
      invariant out.text == old(out.text) + Join(texts[..i], ", ")
    {
      JoinSnoc(texts[..i], ", ", texts[i]);
      assert texts[..i + 1] == texts[..i] + [texts[i]];
      if i > 0 {
        out.Push(", ");
      }
      out.Push(DeclText(f, ts[i]));
    }
    assert texts[..|ts|] == texts;
  }

  method FmtSafepoint(roots: seq<TempId>, out: Buffer)
    modifies out
    ensures out.text == old(out.text) + SafepointText(roots)
  {
    hide CommaTemps;
    var open, close := "  safepoint=[", "]";
    assert out.text + "" == out.text;
    if roots == [] {
      return;
    }
    out.Push(open);
    FmtTemps(roots, out);
    out.Push(close);
  }

  method FmtCall(callee: string, args: seq<TempId>, roots: seq<TempId>, out: Buffer)
    modifies out
    ensures out.text == old(out.text) + CallText(callee, args, roots)
  {
    hide CommaTemps, SafepointText;
    var open, close := callee + "(", ")";
    out.Push(open);
    FmtTemps(args, out);
    out.Push(close);
    FmtSafepoint(roots, out);
    Regrouped5(old(out.text), open, CommaTemps(args), close, SafepointText(roots));
  }

  method FmtPrimArgs(args: seq<TempId>, out: Buffer)
    modifies out
    ensures out.text == old(out.text) + PrimArgs(args)
  {
    hide TempText, Join;
    var texts := TempTexts(args);
    assert out.text + "" == out.text;
    ghost var list := "";
    for i := 0 to |args|
      invariant list == if i == 0 then "" else " " + Join(texts[..i], " ")
      invariant out.text == old(out.text) + list
    {
      JoinSnoc(texts[..i], " ", texts[i]);
      assert texts[..i + 1] == texts[..i] + [texts[i]];
      Regrouped(old(out.text), list, " " + texts[i]);
      Regrouped(" " + Join(texts[..i], " "), " ", texts[i]);
      assert "" + (" " + texts[i]) == " " + texts[i];
      list := list + (" " + texts[i]);
      out.Push(" " + TempText(args[i]));
    }
    assert texts[..|args|] == texts;
  }

  method FmtHexBytes(bytes: seq<U8>, out: Buffer)
    modifies out
    ensures out.text == old(out.text) + HexBytes(bytes)
  {
    for i := 0 to |bytes|
      invariant out.text == old(out.text) + HexBytes(bytes[..i])
    {
      assert bytes[..i + 1][..i] == bytes[..i];
      Regrouped(old(out.text), HexBytes(bytes[..i]), HexByte(bytes[i]));
      out.Push(HexByte(bytes[i]));
    }
    assert bytes[..|bytes|] == bytes;
  }

  method FmtConst(v: ConstValue, printable: char -> bool, out: Buffer)
    modifies out
    ensures out.text == old(out.text) + ConstText(v, printable)
  {
    hide StubNames, HexBytes, ConstTag;
    match v {
      case StubEntryRef(dll, symbol, signature) =>
        var open, names, close := ConstTag(v) + "(", StubNames(dll, symbol, printable), ")";
        out.Push(open);
        out.Push(names);
        FmtHexBytes(signature, out);
        out.Push(close);
        Regrouped(open, names, HexBytes(signature));
        Regrouped5(old(out.text), open, names, HexBytes(signature), close);
      case _ =>
        out.Push(ConstText(v, printable));
    }
  }

  method FmtComputation(f: Function, c: Computation, printable: char -> bool, out: Buffer)
    modifies out
    ensures out.text == old(out.text) + ("    " + ComputationText(f, c, printable) + "\n")
  {
    hide OperationText, TempText, ResultLabel;
    var result := TempText(c.dst) + ": " + ResultLabel(f, c) + " = ";
    var indent, feed := "    ", "\n";
    out.Push(indent);
    out.Push(result);
    FmtOperation(c, printable, out);
    out.Push(feed);
    Regrouped5(old(out.text), indent, result, OperationText(c, printable), feed);
    Regrouped(indent, result, OperationText(c, printable));
  }

  method FmtOperation(c: Computation, printable: char -> bool, out: Buffer)
    modifies out
    ensures out.text == old(out.text) + OperationText(c, printable)
  {
    hide OperationKeyword, OperationBody;
    var keyword := OperationKeyword(c) + " ";
    out.Push(keyword);
    FmtOperationBody(c, printable, out);
    Regrouped(old(out.text), keyword, OperationBody(c, printable));
  }

  method FmtOperationBody(c: Computation, printable: char -> bool, out: Buffer)
    modifies out
    ensures out.text == old(out.text) + OperationBody(c, printable)
  {
    hide CallText, ConstText, TempText, PrimArgs, NoAllocText, PrimOpName, SealedNote;
    match c {
      case Const(_, v) =>
        FmtConst(v, printable, out);
      case Prim(_, op, args) =>
        out.Push(PrimOpName(op));
        FmtPrimArgs(args, out);
        Regrouped(old(out.text), PrimOpName(op), PrimArgs(args));
      case DirectCall(_, callee, args, roots, noAlloc) =>
        FmtCall(callee, args, roots, out);
        out.Push(NoAllocText(noAlloc));
        Regrouped(old(out.text), CallText(callee, args, roots), NoAllocText(noAlloc));
      case Call(_, callee, args, roots) =>
        FmtCall(TempText(callee), args, roots, out);
      case Dispatch(_, generic, args, roots) =>
        FmtCall(generic, args, roots, out);
      case SealedDirectCall(_, callee, chain, generic, args, roots, noAlloc) =>
        FmtCall(callee, args, roots, out);
        var suffix := NoAllocText(noAlloc) + SealedNote(generic, |chain|);
        out.Push(suffix);
        Regrouped(old(out.text), CallText(callee, args, roots), suffix);
      case _ =>
        out.Push(OperationBody(c, printable));
    }
  }

  method FmtArgs(args: seq<TempId>, out: Buffer)
    modifies out
    ensures out.text == old(out.text) + ArgsText(args)
  {
    hide CommaTemps;
    if args != [] {
      out.Push("(");
      FmtTemps(args, out);
      out.Push(")");
    } else {
      assert out.text + "" == out.text;
    }
  }

  method FmtTerminator(f: Function, t: Terminator, out: Buffer)
    modifies out
    ensures out.text == old(out.text) + ("    " + TerminatorText(f, t) + "\n")
  {
    hide ArgsText, TempText, BlockLabel;
    var indent, feed := "    ", "\n";
    out.Push(indent);
    match t {
      case Jump(a, args) =>
        var jump := "Jump " + BlockLabel(f.blocks, a);
        out.Push(jump);
        FmtArgs(args, out);
        Regrouped(old(out.text) + indent, jump, ArgsText(args));
        Regrouped("Jump ", BlockLabel(f.blocks, a), ArgsText(args));
      case _ =>
        out.Push(TerminatorText(f, t));
    }
    assert out.text == old(out.text) + indent + TerminatorText(f, t);
    out.Push(feed);
  }

  method FmtBlockLine(f: Function, b: Block, out: Buffer)
    modifies out
    ensures out.text == old(out.text) + (BlockLine(f, b) + "\n")
  {
    hide Decls;
    var indented, params := "  " + b.name, "";
    out.Push(indented);
    if b.params != [] {
      out.Push("(");
      FmtDecls(f, b.params, out);
      out.Push(")");
      params := "(" + Decls(f, b.params) + ")";
    }
    assert out.text == old(out.text) + indented + params;
    var end := ":\n";
    out.Push(end);
    assert BlockLine(f, b) + "\n" == indented + params + end;
  }

  method FmtHeaderLine(f: Function, out: Buffer)
    modifies out
    ensures out.text == old(out.text) + (HeaderLine(f) + "\n")
  {
    hide Decls, TypeLabel;
    var start, end := "fn " + f.name + " (", ") -> " + TypeLabel(f.returnType) + ":\n";
    out.Push(start);
    FmtDecls(f, f.params, out);
    out.Push(end);
  }

  method FmtBlock(f: Function, b: Block, printable: char -> bool, out: Buffer)
    modifies out
    ensures out.text == old(out.text) + Unlines(BlockLines(f, b, printable))
  {
    hide Decls, ComputationText, TerminatorText, BlockLine, Unlines;
    ghost var lines := [BlockLine(f, b)];
    FmtBlockLine(f, b, out);
    OneLine(lines[0]);
    for k := 0 to |b.computations|
      invariant lines == [BlockLine(f, b)] + ComputationLines(f, b.computations, printable)[..k]
      invariant out.text == old(out.text) + Unlines(lines)
    {
      ghost var line := "    " + ComputationText(f, b.computations[k], printable);
      FmtComputation(f, b.computations[k], printable, out);
      UnlinesSnoc(lines, line);
      Regrouped(old(out.text), Unlines(lines), line + "\n");
      lines := lines + [line];
    }
    ghost var last := "    " + TerminatorText(f, b.terminator);
    FmtTerminator(f, b.terminator, out);
    UnlinesSnoc(lines, last);
    Regrouped(old(out.text), Unlines(lines), last + "\n");
    assert lines + [last] == BlockLines(f, b, printable);
  }

  lemma OneLine(line: string)
    ensures Unlines([line]) == line + "\n"
  {
    assert [line][1..] == [];
  }

  lemma UnlinesSnoc(lines: seq<string>, line: string)
    ensures Unlines(lines + [line]) == Unlines(lines) + (line + "\n")
  {
    UnlinesConcat(lines, [line]);
    OneLine(line);
  }

  method FmtFunction(f: Function, printable: char -> bool, out: Buffer)
    modifies out
    ensures out.text == old(out.text) + Unlines(FunctionLines(f, printable))
  {
    hide BlockLines, HeaderLine, Unlines;
    ghost var lines := [HeaderLine(f)];
    FmtHeaderLine(f, out);
    OneLine(lines[0]);
    for i := 0 to |f.blocks|
      invariant lines == [HeaderLine(f)] + BlocksLines(f, i, printable)
      invariant out.text == old(out.text) + Unlines(lines)
    {
      FmtBlock(f, f.blocks[i], printable, out);
      UnlinesConcat(lines, BlockLines(f, f.blocks[i], printable));
      Regrouped(old(out.text), Unlines(lines), Unlines(BlockLines(f, f.blocks[i], printable)));
      lines := lines + BlockLines(f, f.blocks[i], printable);
      assert lines == [HeaderLine(f)] + BlocksLines(f, i + 1, printable);
    }
  }

  /** The dump of a module, which is also what its cache key is computed from. */
  method FormatDfmModule(fns: seq<Function>, printable: char -> bool) returns (text: string)
    ensures text == ModuleText(fns, printable)
  {
    hide FunctionLines;
    var out := new Buffer();
    for i := 0 to |fns|
      invariant fresh(out) && out.text == Unlines(ModuleLines(fns, i, printable))
    {
      var before := ModuleLines(fns, i, printable);
      if i > 0 {
        out.Push("\n");
        UnlinesSnoc(before, "");
        before := before + [""];
      }
      assert before + [] == before;
      FmtFunction(fns[i], printable, out);
      UnlinesConcat(before, FunctionLines(fns[i], printable));
    }
    text := out.text;
  }
}
