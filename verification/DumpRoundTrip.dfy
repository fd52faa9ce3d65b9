/** Parsing a dump gives back the module it was printed from, up to what the dump leaves
    out; so the dump, and with it the cache key, tells modules apart exactly up to that. */
module DumpRoundTrip {
  import opened Ir
  import opened Text
  import opened DumpFormat
  import opened DumpParse

  // ----- what the dump keeps -----

  /** Most results print their type without the class id or the singleton's bits. */
  function Erased(ty: TypeEstimate): TypeEstimate {
    match ty
    case Class(_) => Class(0)
    case Singleton(_) => Singleton(0)
    case _ => ty
  }

  function ResultType(f: Function, c: Computation): TypeEstimate {
    var ty := TempType(f.temps, c.dst);
    if c.Dispatch? || c.SealedDirectCall? then ty else Erased(ty)
  }

  const BUILT_IN_CHECKS: seq<ClassCheck> :=
    [IsInteger, IsBoolean, IsString, IsSymbol, IsVector, IsCharacter, IsEmptyList]

  /** The first of the tests that has the name. */
  function CheckNamed(checks: seq<ClassCheck>, name: string): (r: Option<ClassCheck>)
    ensures r.Some? ==> r.value in checks && ClassCheckName(r.value) == name
  {
    if checks == [] then None
    else if ClassCheckName(checks[0]) == name then Some(checks[0])
    else CheckNamed(checks[1..], name)
  }

  /** A built-in test stays. The three that only print a name cannot be told apart, nor from
      a built-in one of that name; otherwise they become a user class, whose id is what the
      name resolves to, or 0. */
  function CanonCheck(cls: ClassCheck, resolve: Resolver): ClassCheck {
    match cls
    case UserClass(_, name) => NamedCheck(name, resolve)
    case VectorOrUserClass(_, name) => NamedCheck(name, resolve)
    case Unsupported(name) => NamedCheck(name, resolve)
    case _ => cls
  }

  function NamedCheck(name: string, resolve: Resolver): ClassCheck {
    match CheckNamed(BUILT_IN_CHECKS, name)
    case Some(builtIn) => builtIn
    case None => UserClass(match resolve(name) case Some(id) => id case None => 0, name)
  }

  function CanonComputation(c: Computation, resolve: Resolver): Computation {
    match c
    case TypeCheck(_, _, cls) => c.(cls := CanonCheck(cls, resolve))
    case SealedDirectCall(_, _, chain, _, _, _, _) => c.(fallbackChain := EmptyChain(|chain|))
    case _ => c
  }

  function FirstBlock(blocks: seq<Block>, id: BlockId): Option<nat> {
    if blocks == [] then None
    else if blocks[0].id == id then Some(0)
    else match FirstBlock(blocks[1..], id)
      case None => None
      case Some(i) => Some(i + 1)
  }

  /** Blocks are renumbered by position. */
  function CanonTarget(f: Function, id: BlockId): BlockId {
    match FirstBlock(f.blocks, id)
    case None => 0
    case Some(i) => BlockIdOf(i)
  }

  function CanonTerminator(f: Function, t: Terminator): Terminator {
    match t
    case Return(_) => t
    case If(cond, a, b) => If(cond, CanonTarget(f, a), CanonTarget(f, b))
    case Jump(a, args) => Jump(CanonTarget(f, a), args)
  }

  function CanonComputations(cs: seq<Computation>, resolve: Resolver): (r: seq<Computation>)
    ensures |r| == |cs| && forall k :: 0 <= k < |cs| ==> r[k] == CanonComputation(cs[k], resolve)
  {
    seq(|cs|, k requires 0 <= k < |cs| => CanonComputation(cs[k], resolve))
  }

  function CanonBlock(f: Function, i: nat, resolve: Resolver): Block
    requires i < |f.blocks|
  {
    var b := f.blocks[i];
    Block(BlockIdOf(i), b.name, b.params, CanonComputations(b.computations, resolve), CanonTerminator(f, b.terminator))
  }

  function CanonBlocks(f: Function, from: nat, resolve: Resolver): seq<Block>
    requires from <= |f.blocks|
    decreases |f.blocks| - from
  {
    if from == |f.blocks| then [] else [CanonBlock(f, from, resolve)] + CanonBlocks(f, from + 1, resolve)
  }

  function DeclsOf(f: Function, ts: seq<TempId>): (r: seq<Temporary>)
    ensures |r| == |ts| && forall k :: 0 <= k < |ts| ==> r[k] == Temporary(ts[k], TempType(f.temps, ts[k]))
  {
    seq(|ts|, k requires 0 <= k < |ts| => Temporary(ts[k], TempType(f.temps, ts[k])))
  }

  function ResultDecls(f: Function, cs: seq<Computation>): (r: seq<Temporary>)
    ensures |r| == |cs| && forall k :: 0 <= k < |cs| ==> r[k] == Temporary(cs[k].dst, ResultType(f, cs[k]))
  {
    seq(|cs|, k requires 0 <= k < |cs| => Temporary(cs[k].dst, ResultType(f, cs[k])))
  }

  function BlockParamDecls(f: Function, n: nat): seq<Temporary>
    requires n <= |f.blocks|
  {
    if n == 0 then [] else BlockParamDecls(f, n - 1) + DeclsOf(f, f.blocks[n - 1].params)
  }

  function AllResultDecls(f: Function, from: nat): seq<Temporary>
    requires from <= |f.blocks|
    decreases |f.blocks| - from
  {
    if from == |f.blocks| then [] else ResultDecls(f, f.blocks[from].computations) + AllResultDecls(f, from + 1)
  }

  /** Every definition with the type the dump shows for it, in the order they are read. */
  function Definitions(f: Function): seq<Temporary> {
    DeclsOf(f, f.params) + BlockParamDecls(f, |f.blocks|) + AllResultDecls(f, 0)
  }

  /** The name with the ids of the classes it names. */
  function KeptName(name: string, resolve: Resolver): string {
    match ResolveName(name, resolve)
    case Ok(resolved) => resolved
    case Malformed => name
  }

  /** The function as the dump keeps it. */
  function Canon(f: Function, id: U32, resolve: Resolver): Function {
    Function(id, KeptName(f.name, resolve), f.params, BlockIdOf(0), CanonBlocks(f, 0, resolve),
        TempTable(Definitions(f)), f.returnType)
  }

  function CanonModule(fns: seq<Function>, n: nat, resolve: Resolver): (r: seq<Function>)
    requires n <= |fns|
    ensures |r| == n
  {
    if n == 0 then []
    else CanonModule(fns, n - 1, resolve) + [Canon(fns[n - 1], IdOf(n - 1), resolve)]
  }

  // ----- what can be printed so that it reads back -----

  predicate HasNoClassSuffix(name: string) {
    match SplitOnce(name, "$")
    case Malformed => true
    case Ok((_, suffix)) => forall tok :: tok in Split(suffix, "_") ==> !IsBracketed(tok)
  }

  predicate IsFunctionName(name: string) {
    IsPlain(name) && Avoids(name, " (")
  }

  predicate IsLabel(s: string) {
    s != "" && IsPlain(s) && ' ' !in s && '(' !in s
  }

  predicate IsCallee(s: string) {
    IsPlain(s) && '(' !in s
  }

  predicate PrintableComputation(c: Computation) {
    match c
    case DirectCall(_, callee, _, _, _) => IsCallee(callee)
    case Dispatch(_, generic, _, _) => IsCallee(generic)
    case SealedDirectCall(_, callee, chain, generic, _, _, _) =>
      IsCallee(callee) && IsPlain(generic) && '`' !in generic && |chain| < U64_LIMIT
    case TypeCheck(_, _, cls) => ClassCheckName(cls) != "" && IsPlain(ClassCheckName(cls))
    case _ => true
  }

  predicate PrintableBlock(f: Function, b: Block) {
    && IsLabel(b.name)
    && (forall k :: 0 <= k < |b.computations| ==> PrintableComputation(b.computations[k]))
    && (forall id :: id in b.terminator.Targets() ==> FirstBlock(f.blocks, id).Some?)
  }

  /** Names without the dump's delimiters, labels that differ, and targets that exist. */
  predicate Printable(f: Function) {
    && IsFunctionName(f.name)
    && f.blocks != []
    && (forall i, j :: 0 <= i < j < |f.blocks| ==> f.blocks[i].name != f.blocks[j].name)
    && (forall i :: 0 <= i < |f.blocks| ==> PrintableBlock(f, f.blocks[i]))
  }

  // ----- temps and types -----

  predicate IsTempChar(c: char) {
    c == 't' || IsDigit(c)
  }

  lemma TempRefParses(t: TempId)
    ensures ParseTempRef(TempText(t)) == Ok(t)
    ensures forall c :: c in TempText(t) ==> IsTempChar(c)
    ensures TempText(t) != "" && TempText(t)[0] == 't'
  {
    Stripped("t", Decimal(t));
    ParseUnsignedOf(t, 10, U32_LIMIT);
    RadixDigits(t, 10);
  }

  predicate IsTypeChar(c: char) {
    'a' <= c <= 'z' || '0' <= c <= '9' || c == '<' || c == '>' || c == '-' || c == ':'
  }

  lemma TypeNameParses(ty: TypeEstimate, resolve: Resolver)
    ensures ParseType(TypeName(ty), resolve) == Ok(Erased(ty))
    ensures forall c :: c in TypeName(ty) ==> IsTypeChar(c)
  {
  }

  lemma {:induction false} PayloadHasColon(s: string, resolve: Resolver)
    requires ':' in s
    ensures ParseType(s, resolve) == ParsePayloadType(s, resolve)
  {
    hide ParsePayloadType;
  }

  lemma ClassLabelParses(id: U32, resolve: Resolver)
    ensures ParseType(TypeLabel(Class(id)), resolve) == Ok(Class(id))
    ensures forall c :: c in TypeLabel(Class(id)) ==> IsTypeChar(c)
  {
    hide ParseType, Radix;
    var open, close, digits := "<class:", ">", Decimal(id);
    assert TypeLabel(Class(id)) == open + (digits + close);
    assert open[6] == ':' && ':' in open;
    PayloadHasColon(open + (digits + close), resolve);
    Stripped(open, digits + close);
    Stripped(digits, close);
    ParseUnsignedOf(id, 10, U32_LIMIT);
    RadixDigits(id, 10);
  }

  /** A type written with a class name, as a dump made without class ids has it, is the class
      with the name's id. */
  lemma {:induction false} ClassTypeByName(name: string, resolve: Resolver)
    requires name != "" && DigitValue(name[0]).None? && name[0] != '+'
    ensures ParseType("<class:" + name + ">", resolve) ==
            match resolve(name) case Some(id) => Ok(Class(id)) case None => Malformed
  {
    hide ParseType, ParseUnsigned, DigitValue;
    var open, close := "<class:", ">";
    assert open + name + close == open + (name + close);
    assert open[6] == ':' && ':' in open;
    PayloadHasColon(open + (name + close), resolve);
    Stripped(open, name + close);
    Stripped(name, close);
    IsNoNumber(name, U32_LIMIT);
  }

  lemma SingletonPayload(bits: U64)
    ensures ParseHexU64("0x" + Hex(bits)) == Ok(bits)
  {
    hide Radix;
    Stripped("0x", Hex(bits));
    ParseUnsignedOf(bits, 16, U64_LIMIT);
  }

  lemma SingletonLabelChars(bits: U64)
    ensures forall c :: c in TypeLabel(Singleton(bits)) ==> IsTypeChar(c)
  {
    hide Radix;
    RadixDigits(bits, 16);
  }

  lemma SingletonTypeReads(s: string, payload: string, resolve: Resolver)
    requires s == "<singleton:" + (payload + ">")
    ensures ParseType(s, resolve) ==
            match ParseHexU64(payload)
            case Malformed => Malformed
            case Ok(bits) => Ok(Singleton(bits))
  {
    hide ParseType, ParseHexU64;
    var open := "<singleton:";
    assert s[10] == open[10];
    PayloadHasColon(s, resolve);
    assert s[1] == open[1];
    Stripped(open, payload + ">");
    Stripped(payload, ">");
  }

  lemma SingletonLabelParses(bits: U64, resolve: Resolver)
    ensures ParseType(TypeLabel(Singleton(bits)), resolve) == Ok(Singleton(bits))
    ensures forall c :: c in TypeLabel(Singleton(bits)) ==> IsTypeChar(c)
  {
    hide ParseType, ParseHexU64, Radix, IsTypeChar;
    SingletonLabelChars(bits);
    var payload := "0x" + Hex(bits);
    Regrouped("<singleton:", payload, ">");
    SingletonTypeReads(TypeLabel(Singleton(bits)), payload, resolve);
    SingletonPayload(bits);
  }

  lemma TypeLabelParses(ty: TypeEstimate, resolve: Resolver)
    ensures ParseType(TypeLabel(ty), resolve) == Ok(ty)
    ensures forall c :: c in TypeLabel(ty) ==> IsTypeChar(c)
  {
    hide ParseType;
    match ty
    case Class(id) => ClassLabelParses(id, resolve);
    case Singleton(bits) => SingletonLabelParses(bits, resolve);
    case _ => TypeNameParses(ty, resolve);
  }

  /** A declaration reads back whichever way its type was printed. */
  lemma {:induction false} DeclParses(t: TempId, typeText: string, ty: TypeEstimate, resolve: Resolver)
    requires ParseType(typeText, resolve) == Ok(ty)
    ensures ParseTempDecl(TempText(t) + ": " + typeText, resolve) == Ok(Temporary(t, ty))
  {
    hide TempText, ParseTempRef, ParseType, Avoids;
    TempRefParses(t);
    TempTextAvoids(t, ": ");
    SplitOnceAt(TempText(t), ": ", typeText);
  }

  lemma TempTextAvoids(t: TempId, pat: string)
    requires pat != "" && !IsTempChar(pat[0])
    ensures Avoids(TempText(t), pat) && Find(TempText(t), pat) == None
  {
    TempRefParses(t);
    NotFound(TempText(t), pat);
  }

  predicate IsDeclChar(c: char) {
    IsTypeChar(c) || IsTempChar(c) || c == ' '
  }

  lemma {:induction false} DeclTextParses(f: Function, t: TempId, resolve: Resolver)
    ensures ParseTempDecl(DeclText(f, t), resolve) == Ok(Temporary(t, TempType(f.temps, t)))
    ensures forall c :: c in DeclText(f, t) ==> IsDeclChar(c)
    ensures DeclText(f, t) != "" && DeclText(f, t)[0] == 't'
  {
    hide TempText, TypeLabel, ParseType, ParseTempDecl, IsTempChar;
    TempRefParses(t);
    TypeLabelParses(TempType(f.temps, t), resolve);
    DeclParses(t, TypeLabel(TempType(f.temps, t)), TempType(f.temps, t), resolve);
  }

  lemma {:induction false} EachDeclParses(f: Function, ts: seq<TempId>, resolve: Resolver)
    ensures ParseEachDecl(DeclTexts(f, ts), resolve) == Ok(DeclsOf(f, ts))
  {
    hide DeclText, ParseTempDecl;
    if ts != [] {
      DeclTextParses(f, ts[0], resolve);
      EachDeclParses(f, ts[1..], resolve);
      assert DeclTexts(f, ts)[1..] == DeclTexts(f, ts[1..]);
      assert DeclsOf(f, ts) == [Temporary(ts[0], TempType(f.temps, ts[0]))] + DeclsOf(f, ts[1..]);
    }
  }

  lemma JoinStarts(parts: seq<string>, sep: string)
    requires parts != [] && parts[0] != ""
    ensures Join(parts, sep) != "" && Join(parts, sep)[0] == parts[0][0]
  {
  }

  /** A declaration list reads back; it holds no delimiter of a header. */
  lemma {:induction false} DeclsParse(f: Function, ts: seq<TempId>, resolve: Resolver)
    ensures ParseTempDecls(Decls(f, ts), resolve) == Ok(DeclsOf(f, ts))
    ensures forall c :: c in Decls(f, ts) ==> IsDeclChar(c) || c == ','
  {
    hide DeclText, ParseEachDecl, Join, Split, IsDeclChar;
    var parts := DeclTexts(f, ts);
    forall p | p in parts
      ensures p != "" && forall c :: c in p ==> IsDeclChar(c)
    {
      var k :| 0 <= k < |parts| && parts[k] == p;
      DeclTextParses(f, ts[k], resolve);
    }
    CommaIsNoDeclChar();
    JoinedChars(parts, ", ");
    if ts == [] {
      EmptyJoin(", ");
      assert DeclsOf(f, ts) == [];
    } else {
      assert parts[0] in parts;
      JoinStarts(parts, ", ");
      SplitJoin(parts, ", ");
      EachDeclParses(f, ts, resolve);
    }
  }

  lemma CommaIsNoDeclChar()
    ensures !IsDeclChar(',') && !IsTempChar(',') && IsDeclChar(' ')
  {
  }

  lemma EmptyJoin(sep: string)
    ensures Join([], sep) == ""
  {
  }

  lemma JoinedChars(parts: seq<string>, sep: string)
    ensures forall c :: c in Join(parts, sep) ==> c in sep || exists p :: p in parts && c in p
  {
    forall c | c in Join(parts, sep)
      ensures c in sep || exists p :: p in parts && c in p
    {
      JoinChars(parts, sep, c);
    }
  }

  // ----- temp lists -----

  lemma {:induction false} EachTempParses(ts: seq<TempId>)
    ensures ParseEachTemp(TempTexts(ts)) == Ok(ts)
  {
    hide TempText, ParseTempRef;
    if ts != [] {
      TempRefParses(ts[0]);
      EachTempParses(ts[1..]);
      assert TempTexts(ts)[1..] == TempTexts(ts[1..]);
      assert ts == [ts[0]] + ts[1..];
    }
  }

  lemma TempTextsClean(ts: seq<TempId>)
    ensures forall p :: p in TempTexts(ts) ==> p != "" && p[0] == 't' && forall c :: c in p ==> IsTempChar(c)
  {
    hide TempText, IsTempChar;
    forall p | p in TempTexts(ts)
      ensures p != "" && p[0] == 't' && forall c :: c in p ==> IsTempChar(c)
    {
      var k :| 0 <= k < |ts| && TempTexts(ts)[k] == p;
      TempRefParses(ts[k]);
    }
  }

  predicate IsListChar(c: char) {
    IsTempChar(c) || c == ',' || c == ' '
  }

  lemma CommaTempsParse(ts: seq<TempId>)
    ensures ParseCommaTemps(CommaTemps(ts)) == Ok(ts)
    ensures forall c :: c in CommaTemps(ts) ==> IsListChar(c)
  {
    hide TempText, ParseEachTemp, Join, Split;
    var parts := TempTexts(ts);
    TempTextsClean(ts);
    JoinedChars(parts, ", ");
    if ts == [] {
      EmptyJoin(", ");
      EachTempParses(ts);
    } else {
      assert parts[0] in parts;
      JoinStarts(parts, ", ");
      SplitJoin(parts, ", ");
      EachTempParses(ts);
    }
  }

  lemma ParenTempsParse(ts: seq<TempId>, rest: string)
    ensures ParseParenTemps("(" + CommaTemps(ts) + ")" + rest) == Ok((ts, rest))
  {
    hide CommaTemps, ParseCommaTemps, Avoids;
    CommaTempsParse(ts);
    var list := CommaTemps(ts);
    NotFound(list, ")");
    assert "(" + list + ")" + rest == "(" + (list + ")" + rest);
    Stripped("(", list + ")" + rest);
    SplitOnceAt(list, ")", rest);
  }

  const SAFEPOINT_OPEN := "  safepoint=["

  lemma SafepointParses(roots: seq<TempId>, rest: string)
    requires StripPrefix(rest, SAFEPOINT_OPEN).Malformed?
    ensures ParseSafepoint(SafepointText(roots) + rest) == Ok((roots, rest))
  {
    hide CommaTemps, ParseCommaTemps, Avoids;
    if roots == [] {
      assert "" + rest == rest;
    } else {
      CommaTempsParse(roots);
      var list := CommaTemps(roots);
      NotFound(list, "]");
      assert SafepointText(roots) + rest == SAFEPOINT_OPEN + (list + "]" + rest);
      Stripped(SAFEPOINT_OPEN, list + "]" + rest);
      SplitOnceAt(list, "]", rest);
    }
  }

  lemma CutAfter(a: string, b: string, c: string)
    ensures (a + b + c)[..|a|] == a && (a + b + c)[|a|..] == b + c
  {
  }

  /** A call: callee, arguments and roots, with whatever may follow them. */
  lemma CallParses(callee: string, args: seq<TempId>, roots: seq<TempId>, rest: string)
    requires '(' !in callee && StripPrefix(rest, SAFEPOINT_OPEN).Malformed?
    ensures ParseCall(CallText(callee, args, roots) + rest) == Ok((callee, args, roots, rest))
  {
    hide CommaTemps, SafepointText, ParseParenTemps, ParseSafepoint, Avoids, StripPrefix;
    var after := SafepointText(roots) + rest;
    var tail := CommaTemps(args) + ")" + after;
    var s := CallText(callee, args, roots) + rest;
    CallTextIs(callee, args, roots, rest);
    NotFound(callee, "(");
    FindAfter(callee, "(", tail);
    CutAfter(callee, "(", tail);
    assert "(" + tail == "(" + CommaTemps(args) + ")" + after;
    ParenTempsParse(args, after);
    SafepointParses(roots, rest);
  }

  lemma CallTextIs(callee: string, args: seq<TempId>, roots: seq<TempId>, rest: string)
    ensures CallText(callee, args, roots) + rest == callee + "(" + (CommaTemps(args) + ")" + (SafepointText(roots) +
              rest))
  {
    hide CommaTemps, SafepointText;
  }

  // ----- constants -----

  lemma BoolParses(b: bool)
    ensures ParseBool(BoolText(b)) == Ok(b)
  {
  }

  lemma StubParses(dll: string, symbol: string, signature: seq<U8>, printable: char -> bool)
    ensures ParseStub(StubNames(dll, symbol, printable) + HexBytes(signature))
            == Ok(StubEntryRef(dll, symbol, signature))
  {
    hide Quoted, LeadingQuoted, ParseHexPairs, HexBytes;
    var comma, sig, hex := ", ", ", sig=", HexBytes(signature);
    var q1, q2 := Quoted(dll, printable), Quoted(symbol, printable);
    assert StubNames(dll, symbol, printable) + hex == q1 + (comma + (q2 + (sig + hex)));
    QuotedParses(dll, printable, comma + (q2 + (sig + hex)));
    Stripped(comma, q2 + (sig + hex));
    QuotedParses(symbol, printable, sig + hex);
    Stripped(sig, hex);
    ParseHexPairsOf(signature);
  }

  lemma ClassPtrParses(id: U32, tagged: bool, resolve: Resolver)
    ensures ParseClassPtr(Decimal(id) + ", tagged=" + BoolText(tagged), resolve) == Ok(ClassMetadataPtr(id, tagged))
  {
    hide Radix, ParseUnsigned, ParseClassPtr;
    RadixDigits(id, 10);
    ClassPtrReads(Decimal(id), tagged, resolve);
    ParseUnsignedOf(id, 10, U32_LIMIT);
  }

  /** A class's metadata pointer written with a class name is the one with the name's id. */
  lemma {:induction false} ClassPointerByName(name: string, tagged: bool, resolve: Resolver)
    requires name != "" && DigitValue(name[0]).None? && name[0] != '+' && ',' !in name
    ensures ParseConst("ClassMetadataPtr(" + (name + ", tagged=" + BoolText(tagged)) + ")", resolve) ==
            match resolve(name) case Some(id) => Ok(ClassMetadataPtr(id, tagged)) case None => Malformed
  {
    hide ParseUnsigned, ParseBool, Avoids, ParseConst, ParseClassPtr, DigitValue;
    var tag, inner := "ClassMetadataPtr", name + ", tagged=" + BoolText(tagged);
    assert "ClassMetadataPtr(" + inner + ")" == tag + "(" + inner + ")";
    TaggedParses(tag, inner, resolve);
    ClassPtrReads(name, tagged, resolve);
    IsNoNumber(name, U32_LIMIT);
  }

  lemma ClassPtrReads(name: string, tagged: bool, resolve: Resolver)
    requires ',' !in name
    ensures ParseClassPtr(name + ", tagged=" + BoolText(tagged), resolve) ==
            match ParseClassId(name, resolve) case Ok(id) => Ok(ClassMetadataPtr(id,
                tagged)) case Malformed => Malformed
  {
    hide ParseClassId, ParseBool, Avoids;
    var comma, flag := ", ", "tagged=";
    NotFound(name, comma);
    assert ", tagged=" == comma + flag;
    assert name + ", tagged=" + BoolText(tagged) == name + comma + (flag + BoolText(tagged));
    SplitOnceAt(name, comma, flag + BoolText(tagged));
    Stripped(flag, BoolText(tagged));
    BoolParses(tagged);
  }

  /** A constant of the shape tag, parenthesis, payload, parenthesis. */
  lemma TaggedParses(tag: string, inner: string, resolve: Resolver)
    requires '(' !in tag
    ensures ParseConst(tag + "(" + inner + ")", resolve) == ParseTagged(tag, inner, resolve)
  {
    hide Avoids, ParseTagged;
    NotFound(tag, "(");
    var s := tag + "(" + (inner + ")");
    assert tag + "(" + inner + ")" == s;
    assert '(' in s && '(' !in "Unit";
    SplitOnceAt(tag, "(", inner + ")");
    Stripped(inner, ")");
  }

  lemma WordBitsParse(bits: U64, resolve: Resolver)
    ensures ParseTagged("WordBits", "0x" + Hex(bits), resolve) == Ok(WordBits(bits))
  {
    hide Radix, ParseUnsigned;
    Stripped("0x", Hex(bits));
    ParseUnsignedOf(bits, 16, U64_LIMIT);
  }

  lemma TextPayloadParses(v: ConstValue, printable: char -> bool, resolve: Resolver)
    requires v.StringConst? || v.StringLiteralRef? || v.SymbolLiteralRef? || v.CharConst?
    ensures ParseTagged(ConstTag(v), ConstPayload(v, printable), resolve) == Ok(v)
  {
    hide Quoted, QuotedChar, ParseQuoted, ParseQuotedChar;
    match v
    case StringConst(s) => QuotedParses(s, printable, "");
    case StringLiteralRef(s) => QuotedParses(s, printable, "");
    case SymbolLiteralRef(s) => QuotedParses(s, printable, "");
    case CharConst(c) => QuotedCharParses(c, printable);
  }

  lemma OtherPayloadParses(v: ConstValue, printable: char -> bool, resolve: Resolver)
    requires v.IntegerConst? || v.BoolConst? || v.ClassMetadataPtr? || v.StubEntryRef?
    ensures ParseTagged(ConstTag(v), ConstPayload(v, printable), resolve) == Ok(v)
  {
    hide DecimalInt, ParseI128, ParseBool, BoolText, ParseClassPtr, ParseStub, StubNames, HexBytes, Radix;
    match v
    case IntegerConst(i) => ParseI128Of(i);
    case BoolConst(b) => BoolParses(b);
    case ClassMetadataPtr(id, tagged) => ClassPtrParses(id, tagged, resolve);
    case StubEntryRef(dll, symbol, signature) => StubParses(dll, symbol, signature, printable);
  }

  /** Every constant reads back as itself. */
  lemma ConstParses(v: ConstValue, printable: char -> bool, resolve: Resolver)
    ensures ParseConst(ConstText(v, printable), resolve) == Ok(v)
  {
    hide ParseConst, ParseTagged, ConstPayload;
    if v.UnitConst? {
      UnitParses(resolve);
    } else {
      TagHasNoParen(v);
      TaggedParses(ConstTag(v), ConstPayload(v, printable), resolve);
      if v.WordBits? {
        WordBitsPayload(v, printable);
        WordBitsParse(v.bits, resolve);
      } else if v.IntegerConst? || v.BoolConst? || v.ClassMetadataPtr? || v.StubEntryRef? {
        OtherPayloadParses(v, printable, resolve);
      } else {
        TextPayloadParses(v, printable, resolve);
      }
    }
  }

  lemma WordBitsPayload(v: ConstValue, printable: char -> bool)
    requires v.WordBits?
    ensures ConstTag(v) == "WordBits" && ConstPayload(v, printable) == "0x" + Hex(v.bits)
  {
  }

  lemma TagHasNoParen(v: ConstValue)
    ensures '(' !in ConstTag(v)
  {
  }

  lemma UnitParses(resolve: Resolver)
    ensures ParseConst("Unit", resolve) == Ok(UnitConst)
  {
  }

  // ----- operations -----

  lemma IntOpParses(op: PrimOp)
    ensures IsIntOp(op) ==> ParseIntOp(PrimOpName(op)) == Ok(op)
    ensures !IsIntOp(op) ==> ParseIntOp(PrimOpName(op)).Malformed?
  {
  }

  lemma CompareOpParses(op: PrimOp)
    ensures IsCompareOp(op) ==> ParseCompareOp(PrimOpName(op)) == Ok(op)
    ensures !IsCompareOp(op) ==> ParseCompareOp(PrimOpName(op)).Malformed?
  {
  }

  lemma FloatOpParses(op: PrimOp)
    ensures IsFloatOp(op) ==> ParseFloatOp(PrimOpName(op)) == Ok(op)
    ensures !IsFloatOp(op) ==> ParseFloatOp(PrimOpName(op)).Malformed?
  {
  }

  lemma FloatCompareOpParses(op: PrimOp)
    ensures IsFloatCompareOp(op) ==> ParseFloatCompareOp(PrimOpName(op)) == Ok(op)
    ensures !IsFloatCompareOp(op) ==> ParseFloatCompareOp(PrimOpName(op)).Malformed?
  {
  }

  lemma BoolOpParses(op: PrimOp)
    requires op.BoolAnd? || op.BoolOr? || op.BoolNot?
    ensures ParseBoolOp(PrimOpName(op)) == Ok(op)
  {
  }

  predicate IsIntOp(op: PrimOp) {
    op.AddInt? || op.SubInt? || op.MulInt? || op.DivInt? || op.ModInt? || op.RemInt? || op.NegInt?
  }

  predicate IsCompareOp(op: PrimOp) {
    op.EqInt? || op.NeInt? || op.LtInt? || op.GtInt? || op.LeInt? || op.GeInt?
  }

  predicate IsFloatOp(op: PrimOp) {
    op.AddFloat? || op.SubFloat? || op.MulFloat? || op.DivFloat? || op.NegFloat? || op.IntToFloat? || op.StripTag?
  }

  predicate IsFloatCompareOp(op: PrimOp) {
    op.EqFloat? || op.LtFloat? || op.GtFloat? || op.LeFloat? || op.GeFloat?
  }

  lemma PrimOpParses(op: PrimOp)
    ensures ParsePrimOp(PrimOpName(op)) == Ok(op)
  {
    hide PrimOpName, ParseIntOp, ParseCompareOp, ParseFloatOp, ParseFloatCompareOp, ParseBoolOp;
    IntOpParses(op);
    FloatOpParses(op);
    CompareOpParses(op);
    FloatCompareOpParses(op);
    if !IsIntOp(op) && !IsFloatOp(op) && !IsCompareOp(op) && !IsFloatCompareOp(op) {
      BoolOpParses(op);
    }
  }

  lemma PrimOpNameIsWord(op: PrimOp)
    ensures ' ' !in PrimOpName(op)
  {
  }

  lemma PrimParses(dst: TempId, op: PrimOp, args: seq<TempId>)
    ensures ParsePrim(dst, PrimOpName(op) + PrimArgs(args)) == Ok(Prim(dst, op, args))
  {
    hide PrimOpName, ParsePrimOp, FirstWord, Join, Words, ParseEachTemp, TempText;
    PrimOpParses(op);
    PrimOpNameIsWord(op);
    var name, list := PrimOpName(op), Join(TempTexts(args), " ");
    FirstWordIs(name, list);
    assert name + "" == name;
    assert args != [] ==> name + PrimArgs(args) == name + " " + list;
    EmptyJoin(" ");
    TempTextsAreWords(args);
    WordsJoin(TempTexts(args));
    EachTempParses(args);
  }

  lemma TempTextsAreWords(ts: seq<TempId>)
    ensures forall w :: w in TempTexts(ts) ==> IsWord(w)
  {
    hide TempText;
    TempTextsClean(ts);
  }

  lemma TempThenWord(t: TempId, rest: string)
    ensures FirstWord(TempText(t) + " " + rest) == (TempText(t), rest)
  {
    hide TempText, FirstWord;
    TempRefParses(t);
    FirstWordIs(TempText(t), rest);
  }

  lemma NoPrefix(s: string, p: string)
    requires s == "" || (p != "" && s[0] != p[0]) || (|p| > 1 && |s| > 1 && s[1] != p[1])
    requires p != ""
    ensures StripPrefix(s, p).Malformed?
  {
    if |p| <= |s| {
      assert s[..|p|][0] == s[0] && (|p| > 1 ==> s[..|p|][1] == s[1]);
    }
  }

  lemma DirectCallParses(dst: TempId, callee: string, args: seq<TempId>, roots: seq<TempId>, noAlloc: bool)
    requires IsCallee(callee)
    ensures ParseDirectCall(dst, CallText(callee, args, roots) + NoAllocText(noAlloc)) ==
            Ok(DirectCall(dst, callee, args, roots, noAlloc))
  {
    hide CallText, ParseCall;
    NoPrefix(NoAllocText(noAlloc), SAFEPOINT_OPEN);
    CallParses(callee, args, roots, NoAllocText(noAlloc));
  }

  lemma TrimTemp(t: TempId)
    ensures Trim(TempText(t)) == TempText(t)
  {
    hide TempText;
    TempRefParses(t);
    var s := TempText(t);
    assert IsTempChar(s[0]) && IsTempChar(s[|s| - 1]);
  }

  lemma {:induction false} IndirectCallParses(dst: TempId, callee: TempId, args: seq<TempId>, roots: seq<TempId>)
    ensures ParseIndirectCall(dst, CallText(TempText(callee), args, roots)) == Ok(Call(dst, callee, args, roots))
  {
    hide CallText, ParseCall, TempText, Trim, ParseTempRef;
    TempRefParses(callee);
    NoPrefix("", SAFEPOINT_OPEN);
    CallParses(TempText(callee), args, roots, "");
    assert CallText(TempText(callee), args, roots) + "" == CallText(TempText(callee), args, roots);
    TrimTemp(callee);
  }

  lemma DispatchParses(dst: TempId, generic: string, args: seq<TempId>, roots: seq<TempId>)
    requires IsCallee(generic)
    ensures ParseDispatch(dst, CallText(generic, args, roots)) == Ok(Dispatch(dst, generic, args, roots))
  {
    hide CallText, ParseCall;
    NoPrefix("", SAFEPOINT_OPEN);
    CallParses(generic, args, roots, "");
    assert CallText(generic, args, roots) + "" == CallText(generic, args, roots);
  }

  lemma SealedNoteParses(generic: string, chain: nat)
    requires '`' !in generic && chain < U64_LIMIT
    ensures ParseSealedNote(SealedNote(generic, chain)) == Ok((generic, chain))
  {
    hide Avoids, Radix, ParseUnsigned;
    var open, tick, mid, close := "  ; sealed-direct on `", "`", " (chain=", ")";
    Stripped(open, generic + tick + (mid + (Decimal(chain) + close)));
    NotFound(generic, tick);
    SplitOnceAt(generic, tick, mid + (Decimal(chain) + close));
    Stripped(mid, Decimal(chain) + close);
    Stripped(Decimal(chain), close);
    ParseUnsignedOf(chain, 10, U64_LIMIT);
  }

  lemma NoAllocPrefixParses(noAlloc: bool, generic: string, chain: nat)
    ensures ParseNoAllocPrefix(NoAllocText(noAlloc) + SealedNote(generic, chain)) ==
              (noAlloc, SealedNote(generic, chain))
    ensures StripPrefix(NoAllocText(noAlloc) + SealedNote(generic, chain), SAFEPOINT_OPEN).Malformed?
  {
    var flag, note := " [no_alloc]", SealedNote(generic, chain);
    assert note[1] == ' ' && note[2] == ';';
    if noAlloc {
      Stripped(flag, note);
      NoPrefix(flag + note, SAFEPOINT_OPEN);
    } else {
      assert "" + note == note;
      NoPrefix(note, flag);
      assert |note| >= |SAFEPOINT_OPEN| ==> note[..|SAFEPOINT_OPEN|][2] == ';';
    }
  }

  lemma {:induction false} SealedParses(c: Computation)
    requires c.SealedDirectCall? && PrintableComputation(c)
    ensures ParseSealed(c.dst, CallText(c.callee, c.args, c.roots) + (NoAllocText(c.noAlloc) +
              SealedNote(c.generic, |c.fallbackChain|)))
            == Ok(c.(fallbackChain := EmptyChain(|c.fallbackChain|)))
  {
    hide CallText, ParseCall, NoAllocText, SealedNote, ParseSealedNote, ParseNoAllocPrefix;
    NoAllocPrefixParses(c.noAlloc, c.generic, |c.fallbackChain|);
    CallParses(c.callee, c.args, c.roots, NoAllocText(c.noAlloc) + SealedNote(c.generic, |c.fallbackChain|));
    SealedNoteParses(c.generic, |c.fallbackChain|);
  }

  lemma NextCheck(check: ClassCheck, rest: seq<ClassCheck>, name: string)
    ensures CheckNamed([check] + rest, name) ==
            if ClassCheckName(check) == name then Some(check) else CheckNamed(rest, name)
  {
    assert ([check] + rest)[1..] == rest;
  }

  /** Looking a name up among the built-in tests is the parser's chain of comparisons. */
  lemma NamedCheckReads(name: string, resolve: Resolver)
    ensures ParseClassCheck(name, resolve) == NamedCheck(name, resolve)
  {
    hide CheckNamed;
    NextCheck(IsEmptyList, [], name);
    NextCheck(IsCharacter, [IsEmptyList], name);
    NextCheck(IsVector, [IsCharacter, IsEmptyList], name);
    NextCheck(IsSymbol, [IsVector, IsCharacter, IsEmptyList], name);
    NextCheck(IsString, [IsSymbol, IsVector, IsCharacter, IsEmptyList], name);
    NextCheck(IsBoolean, [IsString, IsSymbol, IsVector, IsCharacter, IsEmptyList], name);
    NextCheck(IsInteger, [IsBoolean, IsString, IsSymbol, IsVector, IsCharacter, IsEmptyList], name);
    assert BUILT_IN_CHECKS == [IsInteger] + [IsBoolean, IsString, IsSymbol, IsVector, IsCharacter, IsEmptyList];
    assert [IsEmptyList] == [IsEmptyList] + [];
    assert [IsCharacter, IsEmptyList] == [IsCharacter] + [IsEmptyList];
    assert [IsVector, IsCharacter, IsEmptyList] == [IsVector] + [IsCharacter, IsEmptyList];
    assert [IsSymbol, IsVector, IsCharacter, IsEmptyList] == [IsSymbol] + [IsVector, IsCharacter, IsEmptyList];
    assert [IsString, IsSymbol, IsVector, IsCharacter, IsEmptyList] ==
           [IsString] + [IsSymbol, IsVector, IsCharacter, IsEmptyList];
    assert [IsBoolean, IsString, IsSymbol, IsVector, IsCharacter, IsEmptyList] ==
           [IsBoolean] + [IsString, IsSymbol, IsVector, IsCharacter, IsEmptyList];
    assert CheckNamed([], name) == None;
  }

  /** Reading a printed type test gives what the dump keeps of it. */
  lemma ClassCheckReads(cls: ClassCheck, resolve: Resolver)
    ensures ParseClassCheck(ClassCheckName(cls), resolve) == CanonCheck(cls, resolve)
  {
    hide NamedCheck;
    match cls
    case UserClass(_, name) => NamedCheckReads(name, resolve);
    case VectorOrUserClass(_, name) => NamedCheckReads(name, resolve);
    case Unsupported(name) => NamedCheckReads(name, resolve);
    case _ =>
  }

  lemma TypeCheckParses(dst: TempId, subject: TempId, name: string, resolve: Resolver)
    requires name != ""
    ensures ParseTypeCheck(dst, TempText(subject) + " " + name, resolve) ==
            Ok(TypeCheck(dst, subject, ParseClassCheck(name, resolve)))
  {
    hide TempText, ParseTempRef, FirstWord, ParseClassCheck;
    TempThenWord(subject, name);
    TempRefParses(subject);
  }

  lemma WriteBarrierParses(dst: TempId, slot: TempId, stored: TempId)
    ensures ParseWriteBarrier(dst, TempText(slot) + " " + (":= " + TempText(stored))) ==
              Ok(WriteBarrier(dst, slot, stored))
  {
    hide TempText, ParseTempRef, FirstWord;
    TempThenWord(slot, ":= " + TempText(stored));
    TempRefParses(slot);
    Stripped(":= ", TempText(stored));
    TempRefParses(stored);
  }

  lemma OffsetParses(offset: U64, rest: string)
    ensures FirstWord("@" + Decimal(offset) + " " + rest) == ("@" + Decimal(offset), rest)
    ensures ParseOffset("@" + Decimal(offset)) == Ok(offset)
  {
    hide FirstWord, Radix, ParseUnsigned;
    RadixDigits(offset, 10);
    FirstWordIs("@" + Decimal(offset), rest);
    Stripped("@", Decimal(offset));
    ParseUnsignedOf(offset, 10, U64_LIMIT);
  }

  lemma SlotKindParses(kind: SlotTypeKind)
    ensures ParseSlotKind("[" + SlotKindName(kind) + "]") == Ok(kind)
  {
  }

  lemma LoadSlotParses(dst: TempId, instance: TempId, offset: U64, kind: SlotTypeKind)
    ensures ParseLoadSlot(dst, TempText(instance) + " " + ("@" + Decimal(offset) + " " + ("[" + SlotKindName(kind) +
              "]")))
            == Ok(LoadSlot(dst, instance, offset, kind))
  {
    hide TempText, ParseTempRef, FirstWord, ParseOffset, ParseSlotKind, SlotKindName, Radix;
    var last := "[" + SlotKindName(kind) + "]";
    TempThenWord(instance, "@" + Decimal(offset) + " " + last);
    TempRefParses(instance);
    OffsetParses(offset, last);
    SlotKindParses(kind);
  }

  lemma {:induction false} StoreSlotParses(dst: TempId, instance: TempId, offset: U64, stored: TempId,
                        kind: SlotTypeKind)
    ensures ParseStoreSlot(dst, TempText(instance) + " " + ("@" + Decimal(offset) + " "
                                  + (":= " + (TempText(stored) + " " + ("[" + SlotKindName(kind) + "]")))))
            == Ok(StoreSlot(dst, instance, offset, stored, kind))
  {
    hide TempText, ParseTempRef, FirstWord, ParseOffset, ParseSlotKind, SlotKindName, Radix;
    var last := "[" + SlotKindName(kind) + "]";
    var tail := TempText(stored) + " " + last;
    TempThenWord(instance, "@" + Decimal(offset) + " " + (":= " + tail));
    TempRefParses(instance);
    OffsetParses(offset, ":= " + tail);
    Stripped(":= ", tail);
    TempThenWord(stored, last);
    TempRefParses(stored);
    SlotKindParses(kind);
  }

  /** The keyword picks the right parser. */
  lemma {:induction false} KeywordPicks(c: Computation, body: string, resolve: Resolver)
    ensures ParseOperation(c.dst, OperationKeyword(c) + " " + body, resolve) ==
            match c
            case Const(_, _) =>
              (match ParseConst(body, resolve)
               case Ok(v) => Ok(Const(c.dst, v))
               case Malformed => Malformed)
            case Prim(_, _, _) => ParsePrim(c.dst, body)
            case DirectCall(_, _, _, _, _) => ParseDirectCall(c.dst, body)
            case Call(_, _, _, _) => ParseIndirectCall(c.dst, body)
            case TypeCheck(_, _, _) => ParseTypeCheck(c.dst, body, resolve)
            case WriteBarrier(_, _, _) => ParseWriteBarrier(c.dst, body)
            case LoadSlot(_, _, _, _) => ParseLoadSlot(c.dst, body)
            case StoreSlot(_, _, _, _, _) => ParseStoreSlot(c.dst, body)
            case Dispatch(_, _, _, _) => ParseDispatch(c.dst, body)
            case SealedDirectCall(_, _, _, _, _, _, _) => ParseSealed(c.dst, body)
  {
    hide FirstWord, ParseConst, ParsePrim, ParseDirectCall, ParseIndirectCall, ParseTypeCheck, ParseWriteBarrier,
      ParseLoadSlot, ParseStoreSlot, ParseDispatch, ParseSealed;
    KeywordHasNoSpace(c);
    FirstWordIs(OperationKeyword(c), body);
  }

  lemma KeywordHasNoSpace(c: Computation)
    ensures ' ' !in OperationKeyword(c)
  {
  }

  /** Every printable operation reads back as what the dump keeps of it. */
  lemma OperationParses(c: Computation, printable: char -> bool, resolve: Resolver)
    requires PrintableComputation(c)
    ensures ParseOperation(c.dst, OperationText(c, printable), resolve) == Ok(CanonComputation(c, resolve))
  {
    hide ParseOperation, ParseConst, ParsePrim, ParseDirectCall, ParseIndirectCall, ParseTypeCheck, ParseWriteBarrier,
      ParseLoadSlot, ParseStoreSlot, ParseDispatch, ParseSealed, OperationKeyword, ConstText, CallText, TempText,
      PrimArgs, PrimOpName, NoAllocText, SealedNote, SlotKindName, ClassCheckName, ParseClassCheck, CanonCheck, Radix;
    KeywordPicks(c, OperationBody(c, printable), resolve);
    match c
    case Const(_, v) => ConstParses(v, printable, resolve);
    case Prim(dst, op, args) => PrimParses(dst, op, args);
    case DirectCall(dst, callee, args, roots, noAlloc) => DirectCallParses(dst, callee, args, roots, noAlloc);
    case Call(dst, callee, args, roots) => IndirectCallParses(dst, callee, args, roots);
    case TypeCheck(dst, subject, cls) =>
      TypeCheckParses(dst, subject, ClassCheckName(cls), resolve);
      ClassCheckReads(cls, resolve);
    case WriteBarrier(dst, slot, stored) => WriteBarrierParses(dst, slot, stored);
    case LoadSlot(dst, instance, offset, kind) => LoadSlotParses(dst, instance, offset, kind);
    case StoreSlot(dst, instance, offset, stored, kind) => StoreSlotParses(dst, instance, offset, stored, kind);
    case Dispatch(dst, generic, args, roots) => DispatchParses(dst, generic, args, roots);
    case SealedDirectCall(_, _, _, _, _, _, _) => SealedParses(c);
  }

  // ----- lines -----

  lemma {:induction false} ResultLabelParses(f: Function, c: Computation, resolve: Resolver)
    ensures ParseType(ResultLabel(f, c), resolve) == Ok(ResultType(f, c))
    ensures forall x :: x in ResultLabel(f, c) ==> IsTypeChar(x)
  {
    hide ParseType, TypeLabel, TypeName, Erased, IsTypeChar;
    TypeLabelParses(TempType(f.temps, c.dst), resolve);
    TypeNameParses(TempType(f.temps, c.dst), resolve);
  }

  lemma {:induction false} ComputationParses(f: Function, c: Computation, printable: char -> bool, resolve: Resolver)
    requires PrintableComputation(c)
    ensures ParseComputation(ComputationText(f, c, printable), resolve) ==
            Ok((Temporary(c.dst, ResultType(f, c)), CanonComputation(c, resolve)))
    ensures StartsWithTemp(ComputationText(f, c, printable))
  {
    hide ParseTempDecl, ParseOperation, OperationText, ResultLabel, ResultType, CanonComputation,
      PrintableComputation, Avoids,
      ParseType, Radix, TempText, IsTypeChar, StartsWithTemp;
    var lhs := TempText(c.dst) + ": " + ResultLabel(f, c);
    ResultLabelParses(f, c, resolve);
    DeclParses(c.dst, ResultLabel(f, c), ResultType(f, c), resolve);
    ResultHasNoEquals(c.dst, ResultLabel(f, c));
    AvoidsBySecond(lhs, " = ");
    SplitOnceAt(lhs, " = ", OperationText(c, printable));
    OperationParses(c, printable, resolve);
    StartsWithItsTemp(c.dst, ": " + ResultLabel(f, c) + " = " + OperationText(c, printable));
    assert ComputationText(f, c, printable) ==
           TempText(c.dst) + (": " + ResultLabel(f, c) + " = " + OperationText(c, printable));
  }

  lemma ResultHasNoEquals(t: TempId, typeText: string)
    requires forall c :: c in typeText ==> IsTypeChar(c)
    ensures '=' !in TempText(t) + ": " + typeText
  {
    hide TempText;
    TempRefParses(t);
  }

  lemma StartsWithItsTemp(t: TempId, rest: string)
    ensures StartsWithTemp(TempText(t) + rest)
  {
    hide Radix;
    DecimalDigits(t);
    assert (TempText(t) + rest)[1] == Decimal(t)[0] && Decimal(t)[0] in Decimal(t);
  }

  lemma {:induction false} LabelOfTarget(blocks: seq<Block>, id: BlockId)
    requires FirstBlock(blocks, id).Some?
    ensures FirstBlock(blocks, id).value < |blocks|
    ensures BlockLabel(blocks, id) == blocks[FirstBlock(blocks, id).value].name
  {
    if blocks[0].id != id {
      LabelOfTarget(blocks[1..], id);
    }
  }

  lemma {:induction false} LabelFound(labels: seq<string>, i: nat)
    requires i < |labels| && NoDuplicates(labels)
    ensures LabelIndex(labels, labels[i]) == Ok(i)
  {
    if i > 0 {
      assert labels[0] != labels[i];
      LabelFound(labels[1..], i - 1);
    }
  }

  predicate LabelsOf(f: Function, labels: seq<string>) {
    |labels| == |f.blocks| && forall i :: 0 <= i < |labels| ==> labels[i] == f.blocks[i].name
  }

  lemma TargetParses(f: Function, id: BlockId, labels: seq<string>)
    requires Printable(f) && LabelsOf(f, labels) && FirstBlock(f.blocks, id).Some?
    ensures ResolveLabel(labels, BlockLabel(f.blocks, id)) == Ok(CanonTarget(f, id))
    ensures IsLabel(BlockLabel(f.blocks, id))
  {
    LabelOfTarget(f.blocks, id);
    var i := FirstBlock(f.blocks, id).value;
    LabelFound(labels, i);
    assert PrintableBlock(f, f.blocks[i]);
  }

  lemma ReturnParses(f: Function, v: TempId, labels: seq<string>)
    ensures ParseTerminator("Return " + TempText(v), labels) == Ok(Return(Some(v)))
    ensures ParseTerminator("Return", labels) == Ok(Return(None))
  {
    hide TempText, ParseTempRef, FirstWord;
    TempRefParses(v);
    FirstWordIs("Return", TempText(v));
    assert "Return " == "Return" + " ";
  }

  lemma {:induction false} IfParses(f: Function, cond: TempId, a: BlockId, b: BlockId, labels: seq<string>)
    requires Printable(f) && LabelsOf(f, labels) && FirstBlock(f.blocks, a).Some? && FirstBlock(f.blocks, b).Some?
    ensures ParseTerminator(TerminatorText(f, If(cond, a, b)), labels) ==
              Ok(If(cond, CanonTarget(f, a), CanonTarget(f, b)))
  {
    hide TempText, ParseTempRef, FirstWord, Printable, LabelsOf, ResolveLabel, BlockLabel, CanonTarget;
    TargetParses(f, a, labels);
    TargetParses(f, b, labels);
    var arms := BlockLabel(f.blocks, a) + " " + BlockLabel(f.blocks, b);
    FirstWordIs("If", TempText(cond) + " " + arms);
    assert "If " == "If" + " ";
    TempThenWord(cond, arms);
    TempRefParses(cond);
    FirstWordIs(BlockLabel(f.blocks, a), BlockLabel(f.blocks, b));
  }

  lemma JumpParses(f: Function, a: BlockId, args: seq<TempId>, labels: seq<string>)
    requires Printable(f) && LabelsOf(f, labels) && FirstBlock(f.blocks, a).Some?
    ensures ParseTerminator(TerminatorText(f, Jump(a, args)), labels) == Ok(Jump(CanonTarget(f, a), args))
  {
    hide FirstWord, Printable, LabelsOf, ResolveLabel, BlockLabel, CanonTarget, CommaTemps, ParseParenTemps, Avoids;
    TargetParses(f, a, labels);
    var name := BlockLabel(f.blocks, a);
    FirstWordIs("Jump", name + ArgsText(args));
    assert "Jump " == "Jump" + " ";
    NotFound(name, "(");
    if args == [] {
      assert name + ArgsText(args) == name;
    } else {
      var list := CommaTemps(args) + ")";
      assert name + ArgsText(args) == name + "(" + list;
      FindAfter(name, "(", list);
      var s := name + "(" + list;
      assert s[..|name|] == name && s[|name|..] == "(" + CommaTemps(args) + ")" + "";
      ParenTempsParse(args, "");
    }
  }

  lemma TerminatorParses(f: Function, b: Block, labels: seq<string>)
    requires Printable(f) && PrintableBlock(f, b) && LabelsOf(f, labels)
    ensures ParseTerminator(TerminatorText(f, b.terminator), labels) == Ok(CanonTerminator(f, b.terminator))
    ensures !StartsWithTemp(TerminatorText(f, b.terminator))
  {
    hide ParseTerminator, TempText, Printable, LabelsOf, BlockLabel, CanonTarget, FirstBlock, ArgsText;
    match b.terminator
    case Return(None) => ReturnParses(f, 0, labels);
    case Return(Some(v)) => ReturnParses(f, v, labels);
    case If(cond, x, y) =>
      assert x in b.terminator.Targets() && y in b.terminator.Targets();
      IfParses(f, cond, x, y, labels);
    case Jump(x, args) =>
      assert x in b.terminator.Targets();
      JumpParses(f, x, args, labels);
  }

  // ----- headers -----

  lemma {:induction false} TokensStay(toks: seq<string>, resolve: Resolver)
    requires forall tok :: tok in toks ==> !IsBracketed(tok)
    ensures ResolveTokens(toks, resolve) == Ok(toks)
  {
    if toks != [] {
      assert !IsBracketed(toks[0]);
      TokensStay(toks[1..], resolve);
      assert toks == [toks[0]] + toks[1..];
    }
  }

  lemma NameStays(name: string, resolve: Resolver)
    requires HasNoClassSuffix(name)
    ensures ResolveName(name, resolve) == Ok(name)
  {
    match SplitOnce(name, "$")
    case Malformed =>
    case Ok((generic, suffix)) =>
      TokensStay(Split(suffix, "_"), resolve);
      JoinSplit(suffix, "_");
      assert name == generic + "$" + suffix;
  }

  lemma HeaderParses(f: Function, resolve: Resolver)
    requires IsFunctionName(f.name)
    ensures ParseHeader(HeaderLine(f), resolve) ==
            match ResolveName(f.name, resolve)
            case Ok(name) => Ok(Header(name, DeclsOf(f, f.params), f.returnType))
            case Malformed => Malformed
  {
    hide Decls, TypeLabel, ParseType, ParseTempDecls, ResolveName, Avoids;
    var decls, ty := Decls(f, f.params), TypeLabel(f.returnType);
    var fn, paren, arrow, colon := "fn ", " (", ") -> ", ":";
    var rest := decls + arrow + (ty + colon);
    assert HeaderLine(f) == fn + (f.name + paren + rest);
    Stripped(fn, f.name + paren + rest);
    SplitOnceAt(f.name, paren, rest);
    DeclsParse(f, f.params, resolve);
    NotFound(decls, arrow);
    SplitOnceAt(decls, arrow, ty + colon);
    Stripped(ty, colon);
    TypeLabelParses(f.returnType, resolve);
  }

  lemma {:induction false} BlockHeaderParses(f: Function, b: Block, resolve: Resolver)
    requires IsLabel(b.name)
    ensures ParseBlockHeader(b.name + (if b.params == [] then "" else "(" + Decls(f, b.params) + ")") + ":", resolve) ==
            Ok((b.name, DeclsOf(f, b.params)))
  {
    hide Decls, ParseTempDecls, Avoids;
    var params := if b.params == [] then "" else "(" + Decls(f, b.params) + ")";
    Stripped(b.name + params, ":");
    NotFound(b.name, "(");
    if b.params == [] {
      assert b.name + params == b.name;
      assert DeclsOf(f, b.params) == [];
    } else {
      assert b.name + params == b.name + "(" + (Decls(f, b.params) + ")");
      SplitOnceAt(b.name, "(", Decls(f, b.params) + ")");
      Stripped(Decls(f, b.params), ")");
      DeclsParse(f, b.params, resolve);
    }
  }

  // ----- the first pass: lines to raw blocks -----

  function ComputationTexts(f: Function, cs: seq<Computation>, printable: char -> bool): (r: seq<string>)
    ensures |r| == |cs| && forall k :: 0 <= k < |cs| ==> r[k] == ComputationText(f, cs[k], printable)
  {
    seq(|cs|, k requires 0 <= k < |cs| => ComputationText(f, cs[k], printable))
  }

  function StatementsOf(f: Function, b: Block, printable: char -> bool): seq<string> {
    ComputationTexts(f, b.computations, printable) + [TerminatorText(f, b.terminator)]
  }

  function Indented(texts: seq<string>): (r: seq<string>)
    ensures |r| == |texts| && forall k :: 0 <= k < |texts| ==> r[k] == "    " + texts[k]
  {
    seq(|texts|, k requires 0 <= k < |texts| => "    " + texts[k])
  }

  function RawOf(f: Function, b: Block, printable: char -> bool): RawBlock {
    RawBlock(b.name, b.params, StatementsOf(f, b, printable))
  }

  function RawsOf(f: Function, n: nat, printable: char -> bool): (r: seq<RawBlock>)
    requires n <= |f.blocks|
    ensures |r| == n && forall k :: 0 <= k < n ==> r[k] == RawOf(f, f.blocks[k], printable)
  {
    seq(n, k requires 0 <= k < n => RawOf(f, f.blocks[k], printable))
  }

  lemma BlockLinesAre(f: Function, b: Block, printable: char -> bool)
    ensures BlockLines(f, b, printable) == [BlockLine(f, b)] + Indented(StatementsOf(f, b, printable))
  {
    hide BlockLine, ComputationText, TerminatorText;
  }

  lemma ClassifyStatement(text: string)
    ensures Classify("    " + text) == Ok(Statement(text))
  {
    Stripped("    ", text);
  }

  lemma ClassifyHeader(text: string)
    requires text != "" && text[0] != ' '
    ensures Classify("  " + text) == Ok(BlockHeader(text))
  {
    Stripped("  ", text);
    var line := "  " + text;
    assert line[2] == text[0];
    assert |line| >= 4 ==> line[..4][2] == text[0];
  }

  lemma {:induction false} ScanConcat(scan: Scan, a: seq<string>, b: seq<string>, resolve: Resolver)
    ensures ScanLines(scan, a + b, resolve) ==
            match ScanLines(scan, a, resolve)
            case Malformed => Malformed
            case Ok(mid) => ScanLines(mid, b, resolve)
    decreases |a|
  {
    hide AddLine;
    if a == [] {
      assert a + b == b;
    } else {
      assert (a + b)[1..] == a[1..] + b;
      match AddLine(scan, a[0], resolve)
      case Malformed =>
      case Ok(next) => ScanConcat(next, a[1..], b, resolve);
    }
  }

  /** The scan with statements added to its last block. */
  function WithStatements(scan: Scan, texts: seq<string>): Scan
    requires scan.blocks != []
  {
    var n := |scan.blocks| - 1;
    var last := scan.blocks[n];
    scan.(blocks := scan.blocks[n := last.(statements := last.statements + texts)])
  }

  lemma WithStatementsTwice(scan: Scan, t: string, texts: seq<string>)
    requires scan.blocks != []
    ensures WithStatements(scan, []) == scan
    ensures WithStatements(WithStatements(scan, [t]), texts) == WithStatements(scan, [t] + texts)
  {
    var n := |scan.blocks| - 1;
    var s := scan.blocks[n].statements;
    assert s + [] == s && s + [t] + texts == s + ([t] + texts);
    assert scan.blocks[n := scan.blocks[n]] == scan.blocks;
  }

  lemma AddStatement(scan: Scan, text: string, resolve: Resolver)
    requires scan.blocks != []
    ensures AddLine(scan, "    " + text, resolve) == Ok(WithStatements(scan, [text]))
  {
    hide Classify;
    ClassifyStatement(text);
  }

  lemma ScanStep(scan: Scan, line: string, rest: seq<string>, resolve: Resolver)
    ensures ScanLines(scan, [line] + rest, resolve) ==
            match AddLine(scan, line, resolve)
            case Malformed => Malformed
            case Ok(next) => ScanLines(next, rest, resolve)
  {
    hide AddLine;
    assert ([line] + rest)[1..] == rest;
  }

  /** Indented lines all go to the last block. */
  lemma {:induction false} ScanStatements(scan: Scan, texts: seq<string>, resolve: Resolver)
    requires scan.blocks != []
    ensures ScanLines(scan, Indented(texts), resolve) == Ok(WithStatements(scan, texts))
    decreases |texts|
  {
    hide AddLine, WithStatements, ScanLines;
    if texts == [] {
      ScanNothing(scan, resolve);
      WithStatementsTwice(scan, "", []);
    } else {
      AddStatement(scan, texts[0], resolve);
      StillHasBlocks(scan, [texts[0]]);
      ScanStatements(WithStatements(scan, [texts[0]]), texts[1..], resolve);
      assert Indented(texts) == ["    " + texts[0]] + Indented(texts[1..]);
      ScanStep(scan, "    " + texts[0], Indented(texts[1..]), resolve);
      WithStatementsTwice(scan, texts[0], texts[1..]);
      assert [texts[0]] + texts[1..] == texts;
    }
  }

  lemma StillHasBlocks(scan: Scan, texts: seq<string>)
    requires scan.blocks != []
    ensures WithStatements(scan, texts).blocks != []
  {
  }

  /** A block header starts a block with no statements. */
  lemma StartBlock(f: Function, b: Block, scan: Scan, resolve: Resolver)
    requires IsLabel(b.name)
    ensures AddLine(scan, BlockLine(f, b), resolve) ==
            Ok(Scan(scan.blocks + [RawBlock(b.name, b.params, [])], scan.temps + DeclsOf(f, b.params)))
  {
    hide ParseBlockHeader, Decls, IsPlain, Classify;
    var header := b.name + (if b.params == [] then "" else "(" + Decls(f, b.params) + ")") + ":";
    assert BlockLine(f, b) == "  " + header;
    ClassifyHeader(header);
    BlockHeaderParses(f, b, resolve);
    assert Ids(DeclsOf(f, b.params)) == b.params;
  }

  lemma {:induction false} ScanBlock(f: Function, b: Block, scan: Scan, printable: char -> bool, resolve: Resolver)
    requires IsLabel(b.name)
    ensures ScanLines(scan, BlockLines(f, b, printable), resolve) ==
            Ok(Scan(scan.blocks + [RawOf(f, b, printable)], scan.temps + DeclsOf(f, b.params)))
  {
    hide AddLine, BlockLine, ScanLines, StatementsOf, IsLabel, BlockLines;
    BlockLinesAre(f, b, printable);
    StartBlock(f, b, scan, resolve);
    var raw := RawBlock(b.name, b.params, []);
    var started := Scan(scan.blocks + [raw], scan.temps + DeclsOf(f, b.params));
    ScanStep(scan, BlockLine(f, b), Indented(StatementsOf(f, b, printable)), resolve);
    ScanStatements(started, StatementsOf(f, b, printable), resolve);
    assert [] + StatementsOf(f, b, printable) == StatementsOf(f, b, printable);
    assert started.blocks[|scan.blocks| := RawOf(f, b, printable)] == scan.blocks + [RawOf(f, b, printable)];
  }

  lemma LabelIsPrintable(f: Function, i: nat)
    requires Printable(f) && i < |f.blocks|
    ensures IsLabel(f.blocks[i].name)
  {
    assert PrintableBlock(f, f.blocks[i]);
  }

  lemma {:induction false} ScanBlocks(f: Function, n: nat, temps: seq<Temporary>, printable: char -> bool,
                        resolve: Resolver)
    requires Printable(f) && n <= |f.blocks|
    ensures ScanLines(Scan([], temps), BlocksLines(f, n, printable), resolve) ==
            Ok(Scan(RawsOf(f, n, printable), temps + BlockParamDecls(f, n)))
  {
    hide BlockLines, ScanLines, IsLabel, RawOf, Printable;
    if n == 0 {
      ScanNothing(Scan([], temps), resolve);
      assert temps + [] == temps;
    } else {
      var b, params := f.blocks[n - 1], DeclsOf(f, f.blocks[n - 1].params);
      ScanBlocks(f, n - 1, temps, printable, resolve);
      LabelIsPrintable(f, n - 1);
      var mid := Scan(RawsOf(f, n - 1, printable), temps + BlockParamDecls(f, n - 1));
      ScanConcat(Scan([], temps), BlocksLines(f, n - 1, printable), BlockLines(f, b, printable), resolve);
      ScanBlock(f, b, mid, printable, resolve);
      assert mid.blocks + [RawOf(f, b, printable)] == RawsOf(f, n, printable);
      assert mid.temps + params == temps + BlockParamDecls(f, n);
    }
  }

  lemma ScanNothing(scan: Scan, resolve: Resolver)
    ensures ScanLines(scan, [], resolve) == Ok(scan)
  {
  }

  // ----- the second pass: raw blocks to blocks -----

  lemma {:induction false} StatementsParse(f: Function, cs: seq<Computation>, printable: char -> bool,
                        resolve: Resolver)
    requires forall k :: 0 <= k < |cs| ==> PrintableComputation(cs[k])
    ensures ParseStatements(ComputationTexts(f, cs, printable), resolve) ==
            Ok((CanonComputations(cs, resolve), ResultDecls(f, cs)))
    decreases |cs|
  {
    hide ParseComputation, ComputationText, CanonComputation, ResultType, PrintableComputation, StartsWithTemp,
      ParseStatements,
      ComputationTexts, CanonComputations, ResultDecls;
    if cs == [] {
      NoStatements(f, printable, resolve);
    } else {
      ComputationParses(f, cs[0], printable, resolve);
      StatementsParse(f, cs[1..], printable, resolve);
      ComputationTextsCons(f, cs, printable);
      CanonsCons(f, cs, resolve);
      StatementStep(ComputationText(f, cs[0], printable), ComputationTexts(f, cs[1..], printable), resolve);
    }
  }

  lemma NoStatements(f: Function, printable: char -> bool, resolve: Resolver)
    ensures ParseStatements(ComputationTexts(f, [], printable), resolve) ==
              Ok((CanonComputations([], resolve), ResultDecls(f, [])))
  {
  }

  lemma ComputationTextsCons(f: Function, cs: seq<Computation>, printable: char -> bool)
    requires cs != []
    ensures ComputationTexts(f, cs, printable) ==
            [ComputationText(f, cs[0], printable)] + ComputationTexts(f, cs[1..], printable)
  {
    hide ComputationText;
  }

  lemma CanonsCons(f: Function, cs: seq<Computation>, resolve: Resolver)
    requires cs != []
    ensures CanonComputations(cs, resolve) == [CanonComputation(cs[0], resolve)] + CanonComputations(cs[1..], resolve)
    ensures ResultDecls(f, cs) == [Temporary(cs[0].dst, ResultType(f, cs[0]))] + ResultDecls(f, cs[1..])
  {
    hide CanonComputation, ResultType;
  }

  lemma StatementStep(text: string, rest: seq<string>, resolve: Resolver)
    requires StartsWithTemp(text)
    ensures ParseStatements([text] + rest, resolve) ==
            match ParseComputation(text, resolve)
            case Malformed => Malformed
            case Ok(first) =>
              match ParseStatements(rest, resolve)
              case Malformed => Malformed
              case Ok(more) => Ok(([first.1] + more.0, [first.0] + more.1))
  {
    hide ParseComputation, StartsWithTemp;
    assert ([text] + rest)[1..] == rest;
  }

  lemma {:induction false} BlockParses(f: Function, i: nat, labels: seq<string>, printable: char -> bool,
                        resolve: Resolver)
    requires Printable(f) && i < |f.blocks| && LabelsOf(f, labels)
    ensures ParseBlock(RawOf(f, f.blocks[i], printable), i, labels, resolve) ==
            Ok((CanonBlock(f, i, resolve), ResultDecls(f, f.blocks[i].computations)))
  {
    hide ParseStatements, ParseTerminator, TerminatorText, CanonTerminator, LabelsOf, IsLabel, PrintableComputation,
      FirstBlock, StartsWithTemp, CanonComputation;
    var b := f.blocks[i];
    assert PrintableBlock(f, b);
    var texts := ComputationTexts(f, b.computations, printable);
    var all := StatementsOf(f, b, printable);
    assert all[..|all| - 1] == texts && all[|all| - 1] == TerminatorText(f, b.terminator);
    StatementsParse(f, b.computations, printable, resolve);
    TerminatorParses(f, b, labels);
  }

  lemma {:induction false} BlocksParse(f: Function, i: nat, labels: seq<string>, printable: char -> bool,
                        resolve: Resolver)
    requires Printable(f) && i <= |f.blocks| && LabelsOf(f, labels)
    ensures ParseBlocks(RawsOf(f, |f.blocks|, printable), i, labels, resolve) ==
            Ok((CanonBlocks(f, i, resolve), AllResultDecls(f, i)))
    decreases |f.blocks| - i
  {
    hide ParseBlock, CanonBlock, RawOf, Printable, LabelsOf;
    if i < |f.blocks| {
      BlockParses(f, i, labels, printable, resolve);
      BlocksParse(f, i + 1, labels, printable, resolve);
    }
  }

  /** A printed function reads back, unless its name names an unknown class. */
  lemma {:induction false} FunctionParses(f: Function, id: U32, printable: char -> bool, resolve: Resolver)
    requires Printable(f)
    ensures ParseFunctionLines(FunctionLines(f, printable), id, resolve) ==
            if ResolveName(f.name, resolve).Ok? then Ok(Canon(f, id, resolve)) else Malformed
  {
    hide ParseHeader, ResolveName, HeaderLine, ScanLines, BlocksLines, ParseBlocks, CanonBlocks, TempTable,
        BlockParamDecls,
      AllResultDecls,
      IsFunctionName, PrintableBlock;
    var lines := FunctionLines(f, printable);
    assert lines[1..] == BlocksLines(f, |f.blocks|, printable);
    HeaderParses(f, resolve);
    ScanBlocks(f, |f.blocks|, DeclsOf(f, f.params), printable, resolve);
    var raws := RawsOf(f, |f.blocks|, printable);
    BlocksParse(f, 0, Labels(raws), printable, resolve);
    assert Ids(DeclsOf(f, f.params)) == f.params;
  }
}
