/** Reading a dump back: lines are classified by indentation, block headers are collected
    first because terminators may name later blocks. */
module DumpParse {
  import opened Ir
  import opened Text

  type Resolver = string -> Option<U32>

  const U32_LIMIT: nat := 0x1_0000_0000
  const U64_LIMIT: nat := 0x1_0000_0000_0000_0000

  // ----- temps and types -----

  function ParseTempRef(s: string): Parsed<TempId> {
    var digits :- StripPrefix(s, "t");
    var n :- ParseUnsigned(digits, 10, U32_LIMIT);
    Ok(n)
  }

  /** A class id, or a class name the resolver knows. */
  function ParseClassId(s: string, resolve: Resolver): Parsed<U32> {
    match ParseUnsigned(s, 10, U32_LIMIT)
    case Ok(n) => Ok(n)
    case Malformed =>
      match resolve(s)
      case Some(id) => Ok(id)
      case None => Malformed
  }

  function ParseHexU64(s: string): Parsed<U64> {
    var digits := match StripPrefix(s, "0x") case Ok(rest) => rest case Malformed => s;
    var n :- ParseUnsigned(digits, 16, U64_LIMIT);
    Ok(n)
  }

  function ParsePayloadType(s: string, resolve: Resolver): Parsed<TypeEstimate> {
    match StripPrefix(s, "<class:")
    case Ok(rest) =>
      var payload :- StripSuffix(rest, ">");
      var id :- ParseClassId(payload, resolve);
      Ok(Class(id))
    case Malformed =>
      var rest :- StripPrefix(s, "<singleton:");
      var payload :- StripSuffix(rest, ">");
      var bits :- ParseHexU64(payload);
      Ok(Singleton(bits))
  }

  function ParseType(s: string, resolve: Resolver): Parsed<TypeEstimate> {
    if s == "<top>" then Ok(Top)
    else if s == "<bottom>" then Ok(Bottom)
    else if s == "<integer>" then Ok(Integer)
    else if s == "<single-float>" then Ok(SingleFloat)
    else if s == "<double-float>" then Ok(DoubleFloat)
    else if s == "<character>" then Ok(Character)
    else if s == "<boolean>" then Ok(Boolean)
    else if s == "<string>" then Ok(String)
    else if s == "<unit>" then Ok(Unit)
    else if s == "<class>" then Ok(Class(0))
    else if s == "<singleton>" then Ok(Singleton(0))
    else ParsePayloadType(s, resolve)
  }

  function ParseTempDecl(s: string, resolve: Resolver): Parsed<Temporary> {
    var parts :- SplitOnce(s, ": ");
    var id :- ParseTempRef(parts.0);
    var ty :- ParseType(parts.1, resolve);
    Ok(Temporary(id, ty))
  }

  function ParseEachDecl(parts: seq<string>, resolve: Resolver): Parsed<seq<Temporary>> {
    if parts == [] then Ok([])
    else
      var first :- ParseTempDecl(parts[0], resolve);
      var rest :- ParseEachDecl(parts[1..], resolve);
      Ok([first] + rest)
  }

  function ParseTempDecls(s: string, resolve: Resolver): Parsed<seq<Temporary>> {
    if s == "" then Ok([]) else ParseEachDecl(Split(s, ", "), resolve)
  }

  function Ids(temps: seq<Temporary>): (r: seq<TempId>)
    ensures |r| == |temps| && forall k :: 0 <= k < |r| ==> r[k] == temps[k].id
  {
    seq(|temps|, k requires 0 <= k < |temps| => temps[k].id)
  }

  function ParseEachTemp(parts: seq<string>): Parsed<seq<TempId>> {
    if parts == [] then Ok([])
    else
      var first :- ParseTempRef(parts[0]);
      var rest :- ParseEachTemp(parts[1..]);
      Ok([first] + rest)
  }

  function ParseCommaTemps(s: string): Parsed<seq<TempId>> {
    if s == "" then Ok([]) else ParseEachTemp(Split(s, ", "))
  }

  // ----- suffixes of a computation -----

  function ParseParenTemps(s: string): Parsed<(seq<TempId>, string)> {
    var inner :- StripPrefix(s, "(");
    var parts :- SplitOnce(inner, ")");
    var ts :- ParseCommaTemps(parts.0);
    Ok((ts, parts.1))
  }

  function ParseSafepoint(s: string): Parsed<(seq<TempId>, string)> {
    match StripPrefix(s, "  safepoint=[")
    case Malformed => Ok(([], s))
    case Ok(rest) =>
      var parts :- SplitOnce(rest, "]");
      var ts :- ParseCommaTemps(parts.0);
      Ok((ts, parts.1))
  }

  function ParseNoAllocSuffix(s: string): Parsed<bool> {
    if s == "" then Ok(false) else if s == " [no_alloc]" then Ok(true) else Malformed
  }

  function ParseNoAllocPrefix(s: string): (bool, string) {
    match StripPrefix(s, " [no_alloc]")
    case Ok(rest) => (true, rest)
    case Malformed => (false, s)
  }

  /** The generic's name and the length of the fallback chain. */
  function ParseSealedNote(s: string): Parsed<(string, nat)> {
    var rest :- StripPrefix(s, "  ; sealed-direct on `");
    var parts :- SplitOnce(rest, "`");
    var tail :- StripPrefix(parts.1, " (chain=");
    var digits :- StripSuffix(tail, ")");
    var n :- ParseUnsigned(digits, 10, U64_LIMIT);
    Ok((parts.0, n))
  }

  /** A callee name up to the first parenthesis, its arguments, and its roots. */
  function ParseCall(s: string): Parsed<(string, seq<TempId>, seq<TempId>, string)> {
    match Find(s, "(")
    case None => Malformed
    case Some(i) =>
      var args :- ParseParenTemps(s[i..]);
      var roots :- ParseSafepoint(args.1);
      Ok((s[..i], args.0, roots.0, roots.1))
  }

  // ----- constants -----

  function ParseBool(s: string): Parsed<bool> {
    if s == "true" then Ok(true) else if s == "false" then Ok(false) else Malformed
  }

  function ParseClassPtr(s: string, resolve: Resolver): Parsed<ConstValue> {
    var parts :- SplitOnce(s, ", ");
    var id :- ParseClassId(parts.0, resolve);
    var flag :- StripPrefix(parts.1, "tagged=");
    var tagged :- ParseBool(flag);
    Ok(ClassMetadataPtr(id, tagged))
  }

  function ParseStub(s: string): Parsed<ConstValue> {
    var dll :- LeadingQuoted(s);
    var afterDll :- StripPrefix(dll.1, ", ");
    var symbol :- LeadingQuoted(afterDll);
    var hex :- StripPrefix(symbol.1, ", sig=");
    if |hex| % 2 != 0 then Malformed
    else
      var bytes :- ParseHexPairs(hex);
      Ok(StubEntryRef(dll.0, symbol.0, bytes))
  }

  function ParseTagged(tag: string, inner: string, resolve: Resolver): Parsed<ConstValue> {
    if tag == "Integer" then
      var n :- ParseI128(inner);
      Ok(IntegerConst(n))
    else if tag == "Bool" then
      var b :- ParseBool(inner);
      Ok(BoolConst(b))
    else if tag == "String" then
      var s :- ParseQuoted(inner);
      Ok(StringConst(s))
    else if tag == "Char" then
      var c :- ParseQuotedChar(inner);
      Ok(CharConst(c))
    else if tag == "WordBits" then
      var digits :- StripPrefix(inner, "0x");
      var n :- ParseUnsigned(digits, 16, U64_LIMIT);
      Ok(WordBits(n))
    else if tag == "ClassMetadataPtr" then ParseClassPtr(inner, resolve)
    else if tag == "StringLiteralRef" then
      var s :- ParseQuoted(inner);
      Ok(StringLiteralRef(s))
    else if tag == "SymbolLiteralRef" then
      var s :- ParseQuoted(inner);
      Ok(SymbolLiteralRef(s))
    else if tag == "StubEntryRef" then ParseStub(inner)
    else Malformed
  }

  function ParseConst(s: string, resolve: Resolver): Parsed<ConstValue> {
    if s == "Unit" then Ok(UnitConst)
    else
      var parts :- SplitOnce(s, "(");
      var inner :- StripSuffix(parts.1, ")");
      ParseTagged(parts.0, inner, resolve)
  }

  // ----- computations -----

  function ParseIntOp(name: string): Parsed<PrimOp> {
    if name == "AddInt" then Ok(AddInt) else if name == "SubInt" then Ok(SubInt)
    else if name == "MulInt" then Ok(MulInt) else if name == "DivInt" then Ok(DivInt)
    else if name == "ModInt" then Ok(ModInt) else if name == "RemInt" then Ok(RemInt)
    else if name == "NegInt" then Ok(NegInt) else Malformed
  }

  function ParseFloatOp(name: string): Parsed<PrimOp> {
    if name == "AddFloat" then Ok(AddFloat) else if name == "SubFloat" then Ok(SubFloat)
    else if name == "MulFloat" then Ok(MulFloat) else if name == "DivFloat" then Ok(DivFloat)
    else if name == "NegFloat" then Ok(NegFloat) else if name == "IntToFloat" then Ok(IntToFloat)
    else if name == "StripTag" then Ok(StripTag) else Malformed
  }

  function ParseCompareOp(name: string): Parsed<PrimOp> {
    if name == "EqInt" then Ok(EqInt) else if name == "NeInt" then Ok(NeInt)
    else if name == "LtInt" then Ok(LtInt) else if name == "GtInt" then Ok(GtInt)
    else if name == "LeInt" then Ok(LeInt) else if name == "GeInt" then Ok(GeInt) else Malformed
  }

  function ParseFloatCompareOp(name: string): Parsed<PrimOp> {
    if name == "EqFloat" then Ok(EqFloat) else if name == "LtFloat" then Ok(LtFloat)
    else if name == "GtFloat" then Ok(GtFloat) else if name == "LeFloat" then Ok(LeFloat)
    else if name == "GeFloat" then Ok(GeFloat) else Malformed
  }

  function ParseBoolOp(name: string): Parsed<PrimOp> {
    if name == "BoolAnd" then Ok(BoolAnd) else if name == "BoolOr" then Ok(BoolOr)
    else if name == "BoolNot" then Ok(BoolNot) else Malformed
  }

  /** The operations by name, a group at a time. */
  function ParsePrimOp(name: string): Parsed<PrimOp> {
    if ParseIntOp(name).Ok? then ParseIntOp(name)
    else if ParseFloatOp(name).Ok? then ParseFloatOp(name)
    else if ParseCompareOp(name).Ok? then ParseCompareOp(name)
    else if ParseFloatCompareOp(name).Ok? then ParseFloatCompareOp(name)
    else ParseBoolOp(name)
  }

  /** A label no built-in test has becomes a user class; its id is 0 when unknown. */
  function ParseClassCheck(label_: string, resolve: Resolver): ClassCheck {
    if label_ == "<integer>" then IsInteger
    else if label_ == "<boolean>" then IsBoolean
    else if label_ == "<byte-string>" then IsString
    else if label_ == "<symbol>" then IsSymbol
    else if label_ == "<simple-object-vector>" then IsVector
    else if label_ == "<character>" then IsCharacter
    else if label_ == "<empty-list>" then IsEmptyList
    else UserClass(match resolve(label_) case Some(id) => id case None => 0, label_)
  }

  function ParseOffset(s: string): Parsed<U64> {
    var digits :- StripPrefix(s, "@");
    var n :- ParseUnsigned(digits, 10, U64_LIMIT);
    Ok(n)
  }

  function ParseSlotKind(s: string): Parsed<SlotTypeKind> {
    if s == "[Integer]" then Ok(IntegerSlot) else if s == "[Object]" then Ok(ObjectSlot) else Malformed
  }

  function EmptyChain(n: nat): (r: seq<string>)
    ensures |r| == n
  {
    seq(n, k => "")
  }

  function ParsePrim(dst: TempId, s: string): Parsed<Computation> {
    var parts := FirstWord(s);
    var op :- ParsePrimOp(parts.0);
    var args :- ParseEachTemp(Words(parts.1));
    Ok(Prim(dst, op, args))
  }

  function ParseDirectCall(dst: TempId, s: string): Parsed<Computation> {
    var call :- ParseCall(s);
    var noAlloc :- ParseNoAllocSuffix(call.3);
    Ok(DirectCall(dst, call.0, call.1, call.2, noAlloc))
  }

  function ParseIndirectCall(dst: TempId, s: string): Parsed<Computation> {
    var call :- ParseCall(s);
    var callee :- ParseTempRef(Trim(call.0));
    if call.3 == "" then Ok(Call(dst, callee, call.1, call.2)) else Malformed
  }

  function ParseTypeCheck(dst: TempId, s: string, resolve: Resolver): Parsed<Computation> {
    var parts := FirstWord(s);
    var subject :- ParseTempRef(parts.0);
    if parts.1 == "" then Malformed else Ok(TypeCheck(dst, subject, ParseClassCheck(parts.1, resolve)))
  }

  function ParseWriteBarrier(dst: TempId, s: string): Parsed<Computation> {
    var parts := FirstWord(s);
    var slot :- ParseTempRef(parts.0);
    var rest :- StripPrefix(parts.1, ":= ");
    var stored :- ParseTempRef(rest);
    Ok(WriteBarrier(dst, slot, stored))
  }

  function ParseLoadSlot(dst: TempId, s: string): Parsed<Computation> {
    var parts := FirstWord(s);
    var instance :- ParseTempRef(parts.0);
    var more := FirstWord(parts.1);
    var offset :- ParseOffset(more.0);
    var kind :- ParseSlotKind(more.1);
    Ok(LoadSlot(dst, instance, offset, kind))
  }

  function ParseStoreSlot(dst: TempId, s: string): Parsed<Computation> {
    var parts := FirstWord(s);
    var instance :- ParseTempRef(parts.0);
    var more := FirstWord(parts.1);
    var offset :- ParseOffset(more.0);
    var rest :- StripPrefix(more.1, ":= ");
    var last := FirstWord(rest);
    var stored :- ParseTempRef(last.0);
    var kind :- ParseSlotKind(last.1);
    Ok(StoreSlot(dst, instance, offset, stored, kind))
  }

  function ParseDispatch(dst: TempId, s: string): Parsed<Computation> {
    var call :- ParseCall(s);
    if call.3 == "" then Ok(Dispatch(dst, call.0, call.1, call.2)) else Malformed
  }

  function ParseSealed(dst: TempId, s: string): Parsed<Computation> {
    var call :- ParseCall(s);
    var flagged := ParseNoAllocPrefix(call.3);
    var note :- ParseSealedNote(flagged.1);
    Ok(SealedDirectCall(dst, call.0, EmptyChain(note.1), note.0, call.1, call.2, flagged.0))
  }

  function ParseOperation(dst: TempId, s: string, resolve: Resolver): Parsed<Computation> {
    var parts := FirstWord(s);
    var kw, rest := parts.0, parts.1;
    if kw == "Const" then
      var v :- ParseConst(rest, resolve);
      Ok(Const(dst, v))
    else if kw == "PrimOp" then ParsePrim(dst, rest)
    else if kw == "DirectCall" then ParseDirectCall(dst, rest)
    else if kw == "Call" then ParseIndirectCall(dst, rest)
    else if kw == "TypeCheck" then ParseTypeCheck(dst, rest, resolve)
    else if kw == "WriteBarrier" then ParseWriteBarrier(dst, rest)
    else if kw == "LoadSlot" then ParseLoadSlot(dst, rest)
    else if kw == "StoreSlot" then ParseStoreSlot(dst, rest)
    else if kw == "Dispatch" then ParseDispatch(dst, rest)
    else if kw == "SealedDirectCall" then ParseSealed(dst, rest)
    else Malformed
  }

  function ParseComputation(s: string, resolve: Resolver): Parsed<(Temporary, Computation)> {
    var parts :- SplitOnce(s, " = ");
    var decl :- ParseTempDecl(parts.0, resolve);
    var c :- ParseOperation(decl.id, parts.1, resolve);
    Ok((decl, c))
  }

  /** What tells a computation from a terminator. */
  predicate StartsWithTemp(s: string) {
    |s| >= 2 && s[0] == 't' && '0' <= s[1] <= '9'
  }

  // ----- terminators -----

  function BlockIdOf(i: nat): BlockId {
    i % U32_LIMIT
  }

  /** The first block with the label. */
  function LabelIndex(labels: seq<string>, name: string): Parsed<nat> {
    if labels == [] then Malformed
    else if labels[0] == name then Ok(0)
    else
      var i :- LabelIndex(labels[1..], name);
      Ok(i + 1)
  }

  function ResolveLabel(labels: seq<string>, name: string): Parsed<BlockId> {
    var i :- LabelIndex(labels, name);
    Ok(BlockIdOf(i))
  }

  function ParseReturn(s: string): Parsed<Terminator> {
    if s == "" then Ok(Return(None))
    else
      var t :- ParseTempRef(s);
      Ok(Return(Some(t)))
  }

  function ParseIf(s: string, labels: seq<string>): Parsed<Terminator> {
    var parts := FirstWord(s);
    var cond :- ParseTempRef(parts.0);
    var arms := FirstWord(parts.1);
    if arms.0 == "" || arms.1 == "" || ' ' in arms.1 then Malformed
    else
      var a :- ResolveLabel(labels, arms.0);
      var b :- ResolveLabel(labels, arms.1);
      Ok(If(cond, a, b))
  }

  function ParseJump(s: string, labels: seq<string>): Parsed<Terminator> {
    match Find(s, "(")
    case None =>
      if s == "" then Malformed
      else
        var a :- ResolveLabel(labels, s);
        Ok(Jump(a, []))
    case Some(i) =>
      var args :- ParseParenTemps(s[i..]);
      if args.1 != "" || i == 0 then Malformed
      else
        var a :- ResolveLabel(labels, s[..i]);
        Ok(Jump(a, args.0))
  }

  function ParseTerminator(s: string, labels: seq<string>): Parsed<Terminator> {
    var parts := FirstWord(s);
    if parts.0 == "Return" then ParseReturn(parts.1)
    else if parts.0 == "If" then ParseIf(parts.1, labels)
    else if parts.0 == "Jump" then ParseJump(parts.1, labels)
    else Malformed
  }

  // ----- headers -----

  predicate IsBracketed(tok: string) {
    tok != "" && tok[0] == '<' && tok[|tok| - 1] == '>'
  }

  function ResolveToken(tok: string, resolve: Resolver): Parsed<string> {
    if !IsBracketed(tok) then Ok(tok)
    else match resolve(tok)
      case Some(id) => Ok(Decimal(id))
      case None => Malformed
  }

  function ResolveTokens(toks: seq<string>, resolve: Resolver): Parsed<seq<string>> {
    if toks == [] then Ok([])
    else
      var first :- ResolveToken(toks[0], resolve);
      var rest :- ResolveTokens(toks[1..], resolve);
      Ok([first] + rest)
  }

  /** A method body's name: the classes after the dollar sign become their ids. */
  function ResolveName(name: string, resolve: Resolver): Parsed<string> {
    match SplitOnce(name, "$")
    case Malformed => Ok(name)
    case Ok((generic, suffix)) =>
      var toks :- ResolveTokens(Split(suffix, "_"), resolve);
      Ok(generic + "$" + Join(toks, "_"))
  }

  datatype Header = Header(name: string, params: seq<Temporary>, returnType: TypeEstimate)

  function ParseHeader(line: string, resolve: Resolver): Parsed<Header> {
    var afterFn :- StripPrefix(line, "fn ");
    var named :- SplitOnce(afterFn, " (");
    var name :- ResolveName(named.0, resolve);
    var rest :- SplitOnce(named.1, ") -> ");
    var typeText :- StripSuffix(rest.1, ":");
    var returnType :- ParseType(typeText, resolve);
    var params :- ParseTempDecls(rest.0, resolve);
    Ok(Header(name, params, returnType))
  }

  function ParseBlockHeader(s: string, resolve: Resolver): Parsed<(string, seq<Temporary>)> {
    var body :- StripSuffix(s, ":");
    match SplitOnce(body, "(")
    case Malformed => Ok((body, []))
    case Ok((name, more)) =>
      var inner :- StripSuffix(more, ")");
      var params :- ParseTempDecls(inner, resolve);
      Ok((name, params))
  }

  // ----- function chunks -----

  datatype BodyLine = BlockHeader(text: string) | Statement(text: string)

  function Classify(line: string): Parsed<BodyLine> {
    match StripPrefix(line, "    ")
    case Ok(rest) => Ok(Statement(rest))
    case Malformed =>
      var rest :- StripPrefix(line, "  ");
      Ok(BlockHeader(rest))
  }

  datatype RawBlock = RawBlock(name: string, params: seq<TempId>, statements: seq<string>)

  /** The blocks seen so far, and the temps declared so far. */
  datatype Scan = Scan(blocks: seq<RawBlock>, temps: seq<Temporary>)

  function AddLine(scan: Scan, line: string, resolve: Resolver): Parsed<Scan> {
    var body :- Classify(line);
    match body
    case BlockHeader(text) =>
      var header :- ParseBlockHeader(text, resolve);
      Ok(Scan(scan.blocks + [RawBlock(header.0, Ids(header.1), [])], scan.temps + header.1))
    case Statement(text) =>
      if scan.blocks == [] then Malformed
      else
        var n := |scan.blocks| - 1;
        var last := scan.blocks[n];
        Ok(scan.(blocks := scan.blocks[n := last.(statements := last.statements + [text])]))
  }

  function ScanLines(scan: Scan, lines: seq<string>, resolve: Resolver): Parsed<Scan>
    decreases |lines|
  {
    if lines == [] then Ok(scan)
    else
      var next :- AddLine(scan, lines[0], resolve);
      ScanLines(next, lines[1..], resolve)
  }

  function Labels(raws: seq<RawBlock>): (r: seq<string>)
    ensures |r| == |raws| && forall k :: 0 <= k < |r| ==> r[k] == raws[k].name
  {
    seq(|raws|, k requires 0 <= k < |raws| => raws[k].name)
  }

  predicate NoDuplicates(labels: seq<string>) {
    forall i, j :: 0 <= i < j < |labels| ==> labels[i] != labels[j]
  }

  function ParseStatements(statements: seq<string>, resolve: Resolver): Parsed<(seq<Computation>, seq<Temporary>)> {
    if statements == [] then Ok(([], []))
    else if !StartsWithTemp(statements[0]) then Malformed
    else
      var first :- ParseComputation(statements[0], resolve);
      var rest :- ParseStatements(statements[1..], resolve);
      Ok(([first.1] + rest.0, [first.0] + rest.1))
  }

  /** A block and the temps its computations define. */
  function ParseBlock(raw: RawBlock, i: nat, labels: seq<string>, resolve: Resolver): Parsed<(Block, seq<Temporary>)> {
    if raw.statements == [] then Malformed
    else
      var n := |raw.statements| - 1;
      var body :- ParseStatements(raw.statements[..n], resolve);
      if StartsWithTemp(raw.statements[n]) then Malformed
      else
        var term :- ParseTerminator(raw.statements[n], labels);
        Ok((Block(BlockIdOf(i), raw.name, raw.params, body.0, term), body.1))
  }

  function ParseBlocks(raws: seq<RawBlock>, i: nat, labels: seq<string>, resolve: Resolver): Parsed<(seq<Block>,
                       seq<Temporary>)>
    requires i <= |raws|
    decreases |raws| - i
  {
    if i == |raws| then Ok(([], []))
    else
      var first :- ParseBlock(raws[i], i, labels, resolve);
      var rest :- ParseBlocks(raws, i + 1, labels, resolve);
      Ok(([first.0] + rest.0, first.1 + rest.1))
  }

  /** The temp table: sorted by id, the first definition of an id kept. */
  function InsertTemp(sorted: seq<Temporary>, t: Temporary): seq<Temporary> {
    if sorted == [] || t.id < sorted[0].id then [t] + sorted
    else if t.id == sorted[0].id then sorted
    else [sorted[0]] + InsertTemp(sorted[1..], t)
  }

  function TempTable(temps: seq<Temporary>): seq<Temporary> {
    if temps == [] then [] else InsertTemp(TempTable(temps[..|temps| - 1]), temps[|temps| - 1])
  }

  function ParseFunctionLines(lines: seq<string>, id: U32, resolve: Resolver): Parsed<Function>
  {
    if lines == [] then Malformed
    else
      var header :- ParseHeader(lines[0], resolve);
      var scan :- ScanLines(Scan([], header.params), lines[1..], resolve);
      FinishFunction(header, scan, id, resolve)
  }

  function FinishFunction(header: Header, scan: Scan, id: U32, resolve: Resolver): Parsed<Function> {
    var labels := Labels(scan.blocks);
    if scan.blocks == [] || !NoDuplicates(labels) then Malformed
    else
      var blocks :- ParseBlocks(scan.blocks, 0, labels, resolve);
      Ok(Function(id, header.name, Ids(header.params), BlockIdOf(0), blocks.0, TempTable(scan.temps + blocks.1),
                  header.returnType))
  }

  // ----- labels -----

  /** The label a line of a function's body declares, if it is a block header. */
  function LabelOf(line: string, resolve: Resolver): Option<string> {
    match Classify(line)
    case Ok(BlockHeader(text)) =>
      (match ParseBlockHeader(text, resolve) case Ok((name, _)) => Some(name) case Malformed => None)
    case _ => None
  }

  lemma {:induction false} LabelAdded(scan: Scan, line: string, resolve: Resolver)
    requires AddLine(scan, line, resolve).Ok?
    ensures var next := Labels(AddLine(scan, line, resolve).value.blocks);
            next == Labels(scan.blocks) +
                    match LabelOf(line, resolve) case Some(name) => [name] case None => []
  {
    hide Classify, ParseBlockHeader;
  }

  // ----- modules -----

  /** The chunks finished so far, and the lines of the current one. */
  datatype Grouping = Grouping(chunks: seq<seq<string>>, current: seq<string>)

  function Group(lines: seq<string>, n: nat): Grouping
    requires n <= |lines|
  {
    if n == 0 then Grouping([], [])
    else
      var g := Group(lines, n - 1);
      if !IsBlank(lines[n - 1]) then g.(current := g.current + [lines[n - 1]])
      else if g.current == [] then g
      else Grouping(g.chunks + [g.current], [])
  }

  function Chunks(lines: seq<string>): seq<seq<string>> {
    var g := Group(lines, |lines|);
    if g.current == [] then g.chunks else g.chunks + [g.current]
  }

  /** Function ids count up in 32 bits. */
  function IdOf(n: nat): U32 {
    n % U32_LIMIT
  }

  lemma FirstId()
    ensures IdOf(0) == 0
  {
  }

  lemma NextIdOf(n: nat)
    ensures (IdOf(n) + 1) % U32_LIMIT == IdOf(n + 1)
  {
  }

  function ParseChunks(chunks: seq<seq<string>>, n: nat, resolve: Resolver): Parsed<seq<Function>>
    requires n <= |chunks|
  {
    if n == 0 then Ok([])
    else
      var before :- ParseChunks(chunks, n - 1, resolve);
      var f :- ParseFunctionLines(chunks[n - 1], IdOf(n - 1), resolve);
      Ok(before + [f])
  }

  function ParseModule(text: string, resolve: Resolver): Parsed<seq<Function>> {
    var chunks := Chunks(Lines(text));
    ParseChunks(chunks, |chunks|, resolve)
  }

  // ----- the loops -----

  function Prepend<A>(a: seq<A>, r: Parsed<seq<A>>): Parsed<seq<A>> {
    match r
    case Malformed => Malformed
    case Ok(rest) => Ok(a + rest)
  }

  function PrependBoth<A, B>(a: seq<A>, b: seq<B>, r: Parsed<(seq<A>, seq<B>)>): Parsed<(seq<A>, seq<B>)> {
    match r
    case Malformed => Malformed
    case Ok((a', b')) => Ok((a + a', b + b'))
  }

  lemma PrependTwice<A>(a: seq<A>, b: seq<A>, r: Parsed<seq<A>>)
    ensures Prepend([], r) == r && Prepend(a, Prepend(b, r)) == Prepend(a + b, r)
  {
    assert r.Ok? ==> [] + r.value == r.value && a + (b + r.value) == a + b + r.value;
  }

  lemma PrependBothTwice<A, B>(a: seq<A>, a': seq<A>, b: seq<B>, b': seq<B>, r: Parsed<(seq<A>, seq<B>)>)
    ensures PrependBoth([], [], r) == r && PrependBoth(a, b, PrependBoth(a', b', r)) == PrependBoth(a + a', b + b', r)
  {
    if r.Ok? {
      assert [] + r.value.0 == r.value.0 && [] + r.value.1 == r.value.1;
      assert a + (a' + r.value.0) == a + a' + r.value.0 && b + (b' + r.value.1) == b + b' + r.value.1;
    }
  }

  /** Resolves the class names in a method body's name, token by token. */
  method ResolveMethodNameSuffix(name: string, resolve: Resolver) returns (r: Parsed<string>)
    ensures r == ResolveName(name, resolve)
  {
    var parts := SplitOnce(name, "$");
    if parts.Malformed? {
      return Ok(name);
    }
    var toks := Split(parts.value.1, "_");
    var resolved: seq<string> := [];
    PrependTwice(resolved, resolved, ResolveTokens(toks, resolve));
    assert toks[0..] == toks;
    for i := 0 to |toks|
      invariant ResolveTokens(toks, resolve) == Prepend(resolved, ResolveTokens(toks[i..], resolve))
    {
      assert toks[i..][0] == toks[i] && toks[i..][1..] == toks[i + 1..];
      var tok := ResolveToken(toks[i], resolve);
      if tok.Malformed? {
        return Malformed;
      }
      PrependTwice(resolved, [tok.value], ResolveTokens(toks[i + 1..], resolve));
      resolved := resolved + [tok.value];
    }
    assert toks[|toks|..] == [] && resolved + [] == resolved;
    r := Ok(parts.value.0 + "$" + Join(resolved, "_"));
  }

  /** The first pass over a chunk: headers and the statements under them. */
  method CollectBlocks(start: Scan, lines: seq<string>, resolve: Resolver) returns (r: Parsed<Scan>)
    ensures r == ScanLines(start, lines, resolve)
  {
    hide AddLine;
    var scan := start;
    for k := 0 to |lines|
      invariant ScanLines(start, lines, resolve) == ScanLines(scan, lines[k..], resolve)
    {
      assert lines[k..][0] == lines[k] && lines[k..][1..] == lines[k + 1..];
      var next := AddLine(scan, lines[k], resolve);
      if next.Malformed? {
        return Malformed;
      }
      scan := next.value;
    }
    r := Ok(scan);
  }

  method ParseComputations(statements: seq<string>, resolve: Resolver) returns (r: Parsed<(seq<Computation>,
                        seq<Temporary>)>)
    ensures r == ParseStatements(statements, resolve)
  {
    hide ParseComputation, StartsWithTemp;
    var cs: seq<Computation>, ts: seq<Temporary> := [], [];
    PrependBothTwice(cs, cs, ts, ts, ParseStatements(statements, resolve));
    assert statements[0..] == statements;
    for k := 0 to |statements|
      invariant ParseStatements(statements, resolve) == PrependBoth(cs, ts, ParseStatements(statements[k..], resolve))
    {
      assert statements[k..][0] == statements[k] && statements[k..][1..] == statements[k + 1..];
      if !StartsWithTemp(statements[k]) {
        return Malformed;
      }
      var next := ParseComputation(statements[k], resolve);
      if next.Malformed? {
        return Malformed;
      }
      PrependBothTwice(cs, [next.value.1], ts, [next.value.0], ParseStatements(statements[k + 1..], resolve));
      cs, ts := cs + [next.value.1], ts + [next.value.0];
    }
    assert cs + [] == cs && ts + [] == ts;
    r := Ok((cs, ts));
  }

  method ParseOneBlock(raw: RawBlock, i: nat, labels: seq<string>, resolve: Resolver) returns (r: Parsed<(Block,
                       seq<Temporary>)>)
    ensures r == ParseBlock(raw, i, labels, resolve)
  {
    hide ParseStatements, StartsWithTemp, ParseTerminator;
    if raw.statements == [] {
      return Malformed;
    }
    var n := |raw.statements| - 1;
    var body := ParseComputations(raw.statements[..n], resolve);
    if body.Malformed? || StartsWithTemp(raw.statements[n]) {
      return Malformed;
    }
    var term := ParseTerminator(raw.statements[n], labels);
    if term.Malformed? {
      return Malformed;
    }
    r := Ok((Block(BlockIdOf(i), raw.name, raw.params, body.value.0, term.value), body.value.1));
  }

  /** One function: its header, then the two passes over its body. */
  method ParseFunction(lines: seq<string>, id: U32, resolve: Resolver) returns (r: Parsed<Function>)
    ensures r == ParseFunctionLines(lines, id, resolve)
  {
    hide ParseHeader, ParseBlocks, TempTable, ScanLines;
    if lines == [] {
      return Malformed;
    }
    var header := ParseHeader(lines[0], resolve);
    if header.Malformed? {
      return Malformed;
    }
    var scan := CollectBlocks(Scan([], header.value.params), lines[1..], resolve);
    if scan.Malformed? {
      return Malformed;
    }
    var raws, labels := scan.value.blocks, Labels(scan.value.blocks);
    if raws == [] || !NoDuplicates(labels) {
      return Malformed;
    }
    var blocks := ParseAllBlocks(raws, labels, resolve);
    if blocks.Malformed? {
      return Malformed;
    }
    r := Ok(Function(id, header.value.name, Ids(header.value.params), BlockIdOf(0), blocks.value.0,
                     TempTable(scan.value.temps + blocks.value.1), header.value.returnType));
  }

  /** The second pass: every block's statements, now that all labels are known. */
  method ParseAllBlocks(raws: seq<RawBlock>, labels: seq<string>, resolve: Resolver)
    returns (r: Parsed<(seq<Block>, seq<Temporary>)>)
    ensures r == ParseBlocks(raws, 0, labels, resolve)
  {
    hide ParseBlock;
    var blocks: seq<Block>, defs: seq<Temporary> := [], [];
    PrependBothTwice(blocks, blocks, defs, defs, ParseBlocks(raws, 0, labels, resolve));
    for i := 0 to |raws|
      invariant ParseBlocks(raws, 0, labels, resolve) ==
                  PrependBoth(blocks, defs, ParseBlocks(raws, i, labels, resolve))
    {
      var next := ParseOneBlock(raws[i], i, labels, resolve);
      if next.Malformed? {
        return Malformed;
      }
      PrependBothTwice(blocks, [next.value.0], defs, next.value.1, ParseBlocks(raws, i + 1, labels, resolve));
      blocks, defs := blocks + [next.value.0], defs + next.value.1;
    }
    assert blocks + [] == blocks && defs + [] == defs;
    r := Ok((blocks, defs));
  }

  /** A module: chunks of lines between blank ones, each parsed as it ends. */
  method ParseDfmModule(text: string, resolve: Resolver) returns (r: Parsed<seq<Function>>)
    ensures r == ParseModule(text, resolve)
  {
    hide ParseFunctionLines, IsBlank, Lines, Group, ParseChunks, IdOf;
    FirstId();
    var lines := Lines(text);
    NothingGrouped(lines, resolve);
    var functions: seq<Function>, current: seq<string>, next: U32 := [], [], 0;
    ghost var chunks: seq<seq<string>> := [];
    for k := 0 to |lines|
      invariant Group(lines, k) == Grouping(chunks, current) && next == IdOf(|chunks|)
      invariant ParseChunks(chunks, |chunks|, resolve) == Ok(functions)
    {
      OneMoreGrouped(lines, k);
      if IsBlank(lines[k]) {
        if current != [] {
          var f := ParseFunction(current, next, resolve);
          ChunksExtend(chunks, current, resolve);
          chunks := chunks + [current];
          if f.Malformed? {
            GroupGrows(lines, k + 1);
            ChunksFailEarly(chunks, Chunks(lines), resolve);
            return Malformed;
          }
          NextIdOf(|chunks| - 1);
          functions, next, current := functions + [f.value], (next + 1) % U32_LIMIT, [];
        }
      } else {
        current := current + [lines[k]];
      }
    }
    if current != [] {
      var f := ParseFunction(current, next, resolve);
      ChunksExtend(chunks, current, resolve);
      if f.Malformed? {
        return Malformed;
      }
      functions := functions + [f.value];
    }
    r := Ok(functions);
  }

  lemma NothingGrouped(lines: seq<string>, resolve: Resolver)
    ensures Group(lines, 0) == Grouping([], []) && ParseChunks([], 0, resolve) == Ok([])
  {
  }

  lemma OneMoreGrouped(lines: seq<string>, k: nat)
    requires k < |lines|
    ensures var g := Group(lines, k);
            Group(lines, k + 1) ==
            if !IsBlank(lines[k]) then g.(current := g.current + [lines[k]])
            else if g.current == [] then g else Grouping(g.chunks + [g.current], [])
  {
  }

  lemma {:induction false} ParseChunksPrefix(chunks: seq<seq<string>>, more: seq<seq<string>>, n: nat,
                        resolve: Resolver)
    requires n <= |chunks|
    ensures ParseChunks(chunks + more, n, resolve) == ParseChunks(chunks, n, resolve)
  {
    hide ParseFunctionLines;
    if n > 0 {
      ParseChunksPrefix(chunks, more, n - 1, resolve);
      assert (chunks + more)[n - 1] == chunks[n - 1];
    }
  }

  lemma {:induction false} ChunksExtend(chunks: seq<seq<string>>, chunk: seq<string>, resolve: Resolver)
    ensures ParseChunks(chunks + [chunk], |chunks| + 1, resolve) ==
            match ParseChunks(chunks, |chunks|, resolve)
            case Malformed => Malformed
            case Ok(before) =>
              match ParseFunctionLines(chunk, IdOf(|chunks|), resolve)
              case Malformed => Malformed
              case Ok(f) => Ok(before + [f])
  {
    hide ParseFunctionLines;
    ParseChunksPrefix(chunks, [chunk], |chunks|, resolve);
    assert (chunks + [chunk])[|chunks|] == chunk;
  }

  lemma {:induction false} GroupGrows(lines: seq<string>, k: nat)
    requires k <= |lines|
    ensures Group(lines, k).chunks <= Group(lines, |lines|).chunks
    decreases |lines| - k
  {
    if k < |lines| {
      GroupGrows(lines, k + 1);
    }
  }

  lemma {:induction false} ParseChunksFailure(chunks: seq<seq<string>>, m: nat, n: nat, resolve: Resolver)
    requires m <= n <= |chunks| && ParseChunks(chunks, m, resolve).Malformed?
    ensures ParseChunks(chunks, n, resolve).Malformed?
    decreases n
  {
    hide ParseFunctionLines;
    if m < n {
      ParseChunksFailure(chunks, m, n - 1, resolve);
    }
  }

  lemma {:induction false} ChunksFailEarly(chunks: seq<seq<string>>, all: seq<seq<string>>, resolve: Resolver)
    requires chunks <= all && ParseChunks(chunks, |chunks|, resolve).Malformed?
    ensures ParseChunks(all, |all|, resolve).Malformed?
  {
    hide ParseFunctionLines;
    assert all == chunks + all[|chunks|..];
    ParseChunksPrefix(chunks, all[|chunks|..], |chunks|, resolve);
    ParseChunksFailure(all, |chunks|, |all|, resolve);
  }
}
