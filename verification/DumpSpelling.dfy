/** The grammar of a dump's lines, as a relation between texts and what they spell, and the
    proof that the parser takes exactly the texts that spell something. */
module DumpSpelling {
  import opened Ir
  import opened Text
  import opened DumpFormat
  import opened DumpParse
  import opened DumpRoundTrip

  // ----- temps -----

  ghost predicate SpellsTemp(s: string, t: TempId) {
    exists digits :: s == "t" + digits && ParseUnsigned(digits, 10, U32_LIMIT) == Ok(t)
  }

  lemma {:induction false} TempReadIff(s: string, t: TempId)
    ensures ParseTempRef(s) == Ok(t) <==> SpellsTemp(s, t)
  {
    hide ParseUnsigned;
    if ParseTempRef(s) == Ok(t) {
      var digits := StripPrefix(s, "t").value;
      PrefixIff(s, "t", digits);
    }
    if digits :| s == "t" + digits && ParseUnsigned(digits, 10, U32_LIMIT) == Ok(t) {
      PrefixIff(s, "t", digits);
    }
  }

  lemma {:induction false} RadixChars(s: string, base: nat)
    requires 2 <= base <= 16 && ParseRadix(s, base).Some?
    ensures forall c :: c in s ==> DigitValue(c).Some?
    decreases |s|
  {
    hide DigitValue;
    var n := |s| - 1;
    if n > 0 {
      RadixChars(s[..n], base);
      assert s == s[..n] + [s[n]];
    }
  }

  lemma DelimitersAreNoDigits()
    ensures forall c :: c in ", ()[]:@" ==> DigitValue(c).None? && c != 't' && c != '+'
  {
  }

  /** A temp's text holds no delimiter. */
  lemma {:induction false} TempIsClean(s: string, t: TempId)
    requires SpellsTemp(s, t)
    ensures s != "" && forall c :: c in s ==> c !in ", ()[]:@"
  {
    hide DigitValue, ParseRadix;
    DelimitersAreNoDigits();
    var digits :| s == "t" + digits && ParseUnsigned(digits, 10, U32_LIMIT) == Ok(t);
    if digits != "" && digits[0] == '+' {
      RadixChars(digits[1..], 10);
      assert digits == ['+'] + digits[1..];
    } else {
      RadixChars(digits, 10);
    }
  }

  ghost predicate SpellEach(parts: seq<string>, ts: seq<TempId>) {
    |parts| == |ts| && forall k :: 0 <= k < |ts| ==> SpellsTemp(parts[k], ts[k])
  }

  lemma {:induction false} EachReadIff(parts: seq<string>, ts: seq<TempId>)
    ensures ParseEachTemp(parts) == Ok(ts) <==> SpellEach(parts, ts)
    decreases |parts|
  {
    hide SpellsTemp, ParseTempRef;
    if parts != [] {
      if ts != [] {
        TempReadIff(parts[0], ts[0]);
        EachReadIff(parts[1..], ts[1..]);
        assert ts == [ts[0]] + ts[1..];
        if SpellEach(parts[1..], ts[1..]) && SpellsTemp(parts[0], ts[0]) {
          forall k | 0 <= k < |ts|
            ensures SpellsTemp(parts[k], ts[k])
          {
            assert k > 0 ==> parts[k] == parts[1..][k - 1] && ts[k] == ts[1..][k - 1];
          }
        }
        if SpellEach(parts, ts) {
          assert forall k :: 0 <= k < |ts| - 1 ==> parts[1..][k] == parts[k + 1] && ts[1..][k] == ts[k + 1];
        }
      }
    }
  }

  /** Temps separated by a comma and a space. */
  ghost predicate SpellsTemps(s: string, ts: seq<TempId>) {
    exists parts :: SpellEach(parts, ts) && s == Join(parts, ", ")
  }

  lemma {:induction false} TempsReadIff(s: string, ts: seq<TempId>)
    ensures ParseCommaTemps(s) == Ok(ts) <==> SpellsTemps(s, ts)
  {
    hide SpellsTemp, ParseEachTemp, Split, Join;
    EachReadIff(Split(s, ", "), ts);
    JoinSplit(s, ", ");
    EmptyJoin(", ");
    if s == "" && ts == [] {
      assert SpellEach([], ts) && s == Join([], ", ");
    }
    if parts :| SpellEach(parts, ts) && s == Join(parts, ", ") {
      PartsAreClean(parts, ts);
      if parts != [] {
        assert parts[0] in parts;
        SplitJoin(parts, ", ");
        JoinStarts(parts, ", ");
      }
    }
  }

  lemma PartsAreClean(parts: seq<string>, ts: seq<TempId>)
    requires SpellEach(parts, ts)
    ensures forall p :: p in parts ==> p != "" && forall c :: c in p ==> c !in ", ()[]:@"
  {
    hide SpellsTemp;
    forall p | p in parts
      ensures p != "" && forall c :: c in p ==> c !in ", ()[]:@"
    {
      var k :| 0 <= k < |parts| && parts[k] == p;
      TempIsClean(p, ts[k]);
    }
  }

  /** The text of a list of temps holds no closing bracket. */
  lemma {:induction false} TempsAreClosed(s: string, ts: seq<TempId>)
    requires SpellsTemps(s, ts)
    ensures ')' !in s && ']' !in s
  {
    hide SpellsTemp, Join;
    var parts :| SpellEach(parts, ts) && s == Join(parts, ", ");
    PartsAreClean(parts, ts);
    JoinedChars(parts, ", ");
  }

  // ----- calls -----

  /** A root list, which may be left out when it is empty. */
  ghost predicate SpellsRoots(s: string, roots: seq<TempId>) {
    (s == "" && roots == []) || exists list :: s == SAFEPOINT_OPEN + list + "]" && SpellsTemps(list, roots)
  }

  /** A callee, its arguments in parentheses, its roots, and what follows, which the parser
      takes for roots if it looks like roots and none have come. */
  ghost predicate SpellsCall(s: string, callee: string, args: seq<TempId>, roots: seq<TempId>, rest: string) {
    '(' !in callee
    && exists list, safepoint ::
         && s == callee + "(" + (list + ")" + (safepoint + rest))
         && SpellsTemps(list, args) && SpellsRoots(safepoint, roots)
         && (safepoint == "" ==> !(SAFEPOINT_OPEN <= rest))
  }

  lemma {:induction false} ParenTempsReadIff(s: string, ts: seq<TempId>, rest: string)
    ensures ParseParenTemps(s) == Ok((ts, rest)) <==>
            exists list :: s == "(" + (list + ")" + rest) && SpellsTemps(list, ts)
  {
    hide SpellsTemps, ParseCommaTemps, Avoids, SplitOnce, StripPrefix;
    if ParseParenTemps(s) == Ok((ts, rest)) {
      var inner := StripPrefix(s, "(").value;
      PrefixIff(s, "(", inner);
      var list := SplitOnce(inner, ")").value.0;
      SplitOnceIff(inner, ")", list, rest);
      TempsReadIff(list, ts);
      assert s == "(" + (list + ")" + rest) && SpellsTemps(list, ts);
    }
    if list :| s == "(" + (list + ")" + rest) && SpellsTemps(list, ts) {
      PrefixIff(s, "(", list + ")" + rest);
      TempsAreClosed(list, ts);
      NotFound(list, ")");
      SplitOnceIff(list + ")" + rest, ")", list, rest);
      TempsReadIff(list, ts);
    }
  }

  lemma {:induction false} SafepointReadIff(s: string, roots: seq<TempId>, rest: string)
    ensures ParseSafepoint(s) == Ok((roots, rest)) <==>
            exists safepoint :: s == safepoint + rest && SpellsRoots(safepoint, roots)
                && (safepoint == "" ==> !(SAFEPOINT_OPEN <= rest))
  {
    hide SpellsTemps, ParseCommaTemps, Avoids, SplitOnce;
    if ParseSafepoint(s) == Ok((roots, rest)) {
      if !(SAFEPOINT_OPEN <= s) {
        assert s == "" + rest && SpellsRoots("", roots);
      } else {
        var tail := StripPrefix(s, SAFEPOINT_OPEN).value;
        PrefixIff(s, SAFEPOINT_OPEN, tail);
        var list := SplitOnce(tail, "]").value.0;
        SplitOnceIff(tail, "]", list, rest);
        TempsReadIff(list, roots);
        var safepoint := SAFEPOINT_OPEN + list + "]";
        assert s == safepoint + rest && SpellsRoots(safepoint, roots);
      }
    }
    if safepoint :| s == safepoint + rest && SpellsRoots(safepoint, roots)
                    && (safepoint == "" ==> !(SAFEPOINT_OPEN <= rest)) {
      if safepoint == "" {
        assert s == rest;
      } else {
        var list :| safepoint == SAFEPOINT_OPEN + list + "]" && SpellsTemps(list, roots);
        assert s == SAFEPOINT_OPEN + (list + "]" + rest);
        PrefixIff(s, SAFEPOINT_OPEN, list + "]" + rest);
        TempsAreClosed(list, roots);
        NotFound(list, "]");
        SplitOnceIff(list + "]" + rest, "]", list, rest);
        TempsReadIff(list, roots);
      }
    }
  }

  lemma {:induction false} CallReadSpells(s: string, callee: string, args: seq<TempId>, roots: seq<TempId>,
                                          rest: string)
    requires ParseCall(s) == Ok((callee, args, roots, rest))
    ensures SpellsCall(s, callee, args, roots, rest)
  {
    hide SpellsTemps, SpellsRoots, ParseParenTemps, ParseSafepoint, Avoids;
    var i := Find(s, "(").value;
    var parsed := ParseParenTemps(s[i..]).value;
    CalleeEnds(s);
    ParenTempsReadIff(s[i..], args, parsed.1);
    var list :| s[i..] == "(" + (list + ")" + parsed.1) && SpellsTemps(list, args);
    SafepointReadIff(parsed.1, roots, rest);
    var safepoint :| parsed.1 == safepoint + rest && SpellsRoots(safepoint, roots)
                     && (safepoint == "" ==> !(SAFEPOINT_OPEN <= rest));
    CallPieces(s, callee, list, safepoint, rest);
  }

  lemma CalleeEnds(s: string)
    requires Find(s, "(").Some?
    ensures '(' !in s[..Find(s, "(").value]
  {
    hide Avoids;
    var i := Find(s, "(").value;
    SplitOnceIff(s, "(", s[..i], s[i + 1..]);
    AvoidsChar(s[..i], '(');
    assert ['('] == "(";
  }

  lemma CallPieces(s: string, callee: string, list: string, safepoint: string, rest: string)
    requires |callee| <= |s| && s[..|callee|] == callee
    requires s[|callee|..] == "(" + (list + ")" + (safepoint + rest))
    ensures s == callee + "(" + (list + ")" + (safepoint + rest))
  {
    assert s == s[..|callee|] + s[|callee|..];
  }

  lemma {:induction false} CallSpelledReads(s: string, callee: string, args: seq<TempId>, roots: seq<TempId>,
                                            rest: string)
    requires SpellsCall(s, callee, args, roots, rest)
    ensures ParseCall(s) == Ok((callee, args, roots, rest))
  {
    hide SpellsTemps, SpellsRoots, ParseParenTemps, ParseSafepoint, Avoids;
    var list, safepoint :| s == callee + "(" + (list + ")" + (safepoint + rest))
                           && SpellsTemps(list, args) && SpellsRoots(safepoint, roots)
                           && (safepoint == "" ==> !(SAFEPOINT_OPEN <= rest));
    var tail := list + ")" + (safepoint + rest);
    NotFound(callee, "(");
    FindAfter(callee, "(", tail);
    assert s[..|callee|] == callee && s[|callee|..] == "(" + tail;
    ParenTempsReadIff("(" + tail, args, safepoint + rest);
    SafepointReadIff(safepoint + rest, roots, rest);
  }

  lemma {:induction false} CallReadIff(s: string, callee: string, args: seq<TempId>, roots: seq<TempId>, rest: string)
    ensures ParseCall(s) == Ok((callee, args, roots, rest)) <==> SpellsCall(s, callee, args, roots, rest)
  {
    hide SpellsCall, ParseCall;
    if ParseCall(s) == Ok((callee, args, roots, rest)) {
      CallReadSpells(s, callee, args, roots, rest);
    }
    if SpellsCall(s, callee, args, roots, rest) {
      CallSpelledReads(s, callee, args, roots, rest);
    }
  }

  // ----- constants -----

  ghost predicate SpellsPayload(s: string, v: ConstValue, resolve: Resolver) {
    match v
    case IntegerConst(i) => ParseI128(s) == Ok(i)
    case BoolConst(b) => s == BoolText(b)
    case StringConst(text) => ParseQuoted(s) == Ok(text)
    case CharConst(c) => ParseQuotedChar(s) == Ok(c)
    case UnitConst => false
    case WordBits(bits) => exists digits :: s == "0x" + digits && ParseUnsigned(digits, 16, U64_LIMIT) == Ok(bits)
    case ClassMetadataPtr(id, tagged) =>
      exists class_ :: s == class_ + ", " + ("tagged=" + BoolText(tagged)) && Avoids(class_, ", ")
          && ParseClassId(class_, resolve) == Ok(id)
    case StringLiteralRef(text) => ParseQuoted(s) == Ok(text)
    case SymbolLiteralRef(text) => ParseQuoted(s) == Ok(text)
    case StubEntryRef(dll, symbol, signature) =>
      exists more, hex :: LeadingQuoted(s) == Ok((dll, ", " + more))
          && LeadingQuoted(more) == Ok((symbol, ", sig=" + hex))
          && |hex| % 2 == 0 && ParseHexPairs(hex) == Ok(signature)
  }

  /** The unit by name; anything else by its tag and, in parentheses, its payload. */
  ghost predicate SpellsConst(s: string, v: ConstValue, resolve: Resolver) {
    if v.UnitConst? then s == "Unit"
    else exists inner :: s == ConstTag(v) + "(" + (inner + ")") && SpellsPayload(inner, v, resolve)
  }

  lemma BoolReadIff(s: string, b: bool)
    ensures ParseBool(s) == Ok(b) <==> s == BoolText(b)
  {
  }

  lemma {:induction false} WordReadIff(s: string, bits: U64, resolve: Resolver)
    ensures ParseTagged("WordBits", s, resolve) == Ok(WordBits(bits)) <==> SpellsPayload(s, WordBits(bits), resolve)
  {
    hide ParseUnsigned, StripPrefix;
    if StripPrefix(s, "0x").Ok? {
      PrefixIff(s, "0x", StripPrefix(s, "0x").value);
    }
    if digits :| s == "0x" + digits && ParseUnsigned(digits, 16, U64_LIMIT) == Ok(bits) {
      PrefixIff(s, "0x", digits);
    }
  }

  lemma {:induction false} ClassPtrReadIff(s: string, id: U32, tagged: bool, resolve: Resolver)
    ensures ParseClassPtr(s, resolve) == Ok(ClassMetadataPtr(id, tagged)) <==>
            SpellsPayload(s, ClassMetadataPtr(id, tagged), resolve)
  {
    hide ParseClassId, SplitOnce, StripPrefix, Avoids, BoolText, ParseBool;
    if ParseClassPtr(s, resolve) == Ok(ClassMetadataPtr(id, tagged)) {
      var parts := SplitOnce(s, ", ").value;
      SplitOnceIff(s, ", ", parts.0, parts.1);
      var flag := StripPrefix(parts.1, "tagged=").value;
      PrefixIff(parts.1, "tagged=", flag);
      BoolReadIff(flag, tagged);
      assert s == parts.0 + ", " + ("tagged=" + BoolText(tagged));
    }
    if class_ :| s == class_ + ", " + ("tagged=" + BoolText(tagged)) && Avoids(class_, ", ")
                 && ParseClassId(class_, resolve) == Ok(id) {
      SplitOnceIff(s, ", ", class_, "tagged=" + BoolText(tagged));
      PrefixIff("tagged=" + BoolText(tagged), "tagged=", BoolText(tagged));
      BoolReadIff(BoolText(tagged), tagged);
    }
  }

  lemma {:induction false} StubReadIff(s: string, v: ConstValue, resolve: Resolver)
    requires v.StubEntryRef?
    ensures ParseStub(s) == Ok(v) <==> SpellsPayload(s, v, resolve)
  {
    hide LeadingQuoted, StripPrefix, ParseHexPairs;
    if ParseStub(s) == Ok(v) {
      var dll := LeadingQuoted(s).value;
      var more := StripPrefix(dll.1, ", ").value;
      PrefixIff(dll.1, ", ", more);
      var symbol := LeadingQuoted(more).value;
      var hex := StripPrefix(symbol.1, ", sig=").value;
      PrefixIff(symbol.1, ", sig=", hex);
      assert LeadingQuoted(s) == Ok((v.dll, ", " + more)) && LeadingQuoted(more) == Ok((v.symbol, ", sig=" + hex));
    }
    if more, hex :| LeadingQuoted(s) == Ok((v.dll, ", " + more))
                    && LeadingQuoted(more) == Ok((v.symbol, ", sig=" + hex))
                    && |hex| % 2 == 0 && ParseHexPairs(hex) == Ok(v.signature) {
      PrefixIff(", " + more, ", ", more);
      PrefixIff(", sig=" + hex, ", sig=", hex);
    }
  }

  /** The tag decides which constant it is. */
  lemma {:induction false} TagDecides(tag: string, inner: string, v: ConstValue, resolve: Resolver)
    requires ParseTagged(tag, inner, resolve) == Ok(v)
    ensures ConstTag(v) == tag && !v.UnitConst?
  {
    hide ParseI128, ParseBool, ParseQuoted, ParseQuotedChar, StripPrefix, ParseUnsigned, ParseClassPtr, ParseStub;
    ClassPtrIsOne(inner, resolve);
    StubIsOne(inner);
  }

  lemma ClassPtrIsOne(inner: string, resolve: Resolver)
    ensures ParseClassPtr(inner, resolve).Ok? ==> ParseClassPtr(inner, resolve).value.ClassMetadataPtr?
  {
    hide ParseClassId, StripPrefix, ParseBool, SplitOnce;
  }

  lemma StubIsOne(inner: string)
    ensures ParseStub(inner).Ok? ==> ParseStub(inner).value.StubEntryRef?
  {
    hide LeadingQuoted, StripPrefix, ParseHexPairs;
  }

  lemma {:induction false} PayloadReadIff(inner: string, v: ConstValue, resolve: Resolver)
    requires !v.UnitConst?
    ensures ParseTagged(ConstTag(v), inner, resolve) == Ok(v) <==> SpellsPayload(inner, v, resolve)
  {
    hide ParseI128, ParseBool, ParseQuoted, ParseQuotedChar, ParseClassPtr, ParseStub, SpellsPayload;
    match v
    case WordBits(bits) => WordReadIff(inner, bits, resolve);
    case ClassMetadataPtr(id, tagged) =>
      ClassPtrReadIff(inner, id, tagged, resolve);
    case StubEntryRef(_, _, _) => StubReadIff(inner, v, resolve);
    case _ => SimplePayloadReadIff(inner, v, resolve);
  }

  lemma {:induction false} SimplePayloadReadIff(inner: string, v: ConstValue, resolve: Resolver)
    requires !v.UnitConst? && !v.WordBits? && !v.ClassMetadataPtr? && !v.StubEntryRef?
    ensures ParseTagged(ConstTag(v), inner, resolve) == Ok(v) <==> SpellsPayload(inner, v, resolve)
  {
    hide ParseI128, ParseBool, ParseQuoted, ParseQuotedChar, BoolText;
    if v.BoolConst? {
      BoolReadIff(inner, v.b);
    }
  }

  lemma {:induction false} ConstReadIff(s: string, v: ConstValue, resolve: Resolver)
    ensures ParseConst(s, resolve) == Ok(v) <==> SpellsConst(s, v, resolve)
  {
    hide ParseTagged, SpellsPayload, Avoids, StripSuffix, ConstTag;
    if ParseConst(s, resolve) == Ok(v) && s != "Unit" {
      var parts := SplitOnce(s, "(").value;
      SplitOnceIff(s, "(", parts.0, parts.1);
      var inner := StripSuffix(parts.1, ")").value;
      SuffixIff(parts.1, ")", inner);
      TagDecides(parts.0, inner, v, resolve);
      PayloadReadIff(inner, v, resolve);
      assert s == ConstTag(v) + "(" + (inner + ")");
    }
    if SpellsConst(s, v, resolve) && !v.UnitConst? {
      var inner :| s == ConstTag(v) + "(" + (inner + ")") && SpellsPayload(inner, v, resolve);
      TagHasNoParen(v);
      TaggedParses(ConstTag(v), inner, resolve);
      assert s == ConstTag(v) + "(" + inner + ")";
      PayloadReadIff(inner, v, resolve);
    }
    if s == "Unit" && !v.UnitConst? {
      UnitIsOne(v);
    }
  }

  lemma UnitIsOne(v: ConstValue)
    ensures forall inner: string :: "Unit" != ConstTag(v) + "(" + (inner + ")")
  {
    forall inner: string
      ensures "Unit" != ConstTag(v) + "(" + (inner + ")")
    {
      var s := ConstTag(v) + "(" + (inner + ")");
      assert s[|s| - 1] == ')' && "Unit"[3] == 't';
    }
  }

  // ----- operations -----

  /** A word, and after a space what follows it; without the space nothing follows. */
  predicate WordThen(s: string, word: string, rest: string) {
    ' ' !in word && (s == word + " " + rest || (s == word && rest == ""))
  }

  /** What follows the keyword. */
  ghost predicate SpellsBody(s: string, c: Computation, resolve: Resolver) {
    match c
    case Const(_, v) => SpellsConst(s, v, resolve)
    case Prim(_, op, args) => exists list :: WordThen(s, PrimOpName(op), list) && SpellEach(Words(list), args)
    case DirectCall(_, callee, args, roots, noAlloc) => SpellsCall(s, callee, args, roots, NoAllocText(noAlloc))
    case Call(_, callee, args, roots) => exists word :: SpellsCall(s, word, args, roots, "") && SpellsTemp(Trim(word),
        callee)
    case TypeCheck(_, subject, cls) =>
      exists word, name :: WordThen(s, word, name) && name != "" && SpellsTemp(word, subject)
          && cls == NamedCheck(name, resolve)
    case WriteBarrier(_, slot, stored) =>
      exists first, second ::
          WordThen(s, first, ":= " + second) && SpellsTemp(first, slot) && SpellsTemp(second, stored)
    case LoadSlot(_, instance, offset, kind) =>
      exists word, digits :: SpellsTemp(word, instance) && SpellsOffset(digits, offset)
          && s == word + " " + ("@" + digits + " " + ("[" + SlotKindName(kind) + "]"))
    case StoreSlot(_, instance, offset, stored, kind) =>
      exists word, digits, second ::
        SpellsTemp(word, instance) && SpellsOffset(digits, offset) && SpellsTemp(second, stored)
        && s == word + " " + ("@" + digits + " " + (":= " + (second + " " + ("[" + SlotKindName(kind) + "]"))))
    case Dispatch(_, generic, args, roots) => SpellsCall(s, generic, args, roots, "")
    case SealedDirectCall(_, callee, chain, generic, args, roots, noAlloc) =>
      chain == EmptyChain(|chain|)
      && exists note :: SpellsNote(note, generic, |chain|)
             && SpellsCall(s, callee, args, roots, NoAllocText(noAlloc) + note)
  }

  predicate SpellsOffset(digits: string, offset: U64) {
    ' ' !in digits && ParseUnsigned(digits, 10, U64_LIMIT) == Ok(offset)
  }

  /** The note of a sealed call: its generic in backquotes and the length of its chain. */
  ghost predicate SpellsNote(s: string, generic: string, chain: nat) {
    '`' !in generic
    && exists digits :: ParseUnsigned(digits, 10, U64_LIMIT) == Ok(chain)
           && s == "  ; sealed-direct on `" + (generic + "`" + (" (chain=" + (digits + ")")))
  }

  /** A keyword, a space, and the rest. */
  ghost predicate SpellsOperation(s: string, c: Computation, resolve: Resolver) {
    exists body :: s == OperationKeyword(c) + " " + body && SpellsBody(body, c, resolve)
  }

  lemma FirstWordThen(s: string, word: string, rest: string)
    ensures FirstWord(s) == (word, rest) <==> WordThen(s, word, rest)
  {
    FirstWordIff(s, word, rest);
  }

  lemma {:induction false} PrimReadIff(s: string, c: Computation, resolve: Resolver)
    requires c.Prim?
    ensures ParsePrim(c.dst, s) == Ok(c) <==> SpellsBody(s, c, resolve)
  {
    hide FirstWord, ParsePrimOp, ParseEachTemp, SpellEach, Words, PrimOpName, WordThen;
    if ParsePrim(c.dst, s) == Ok(c) {
      var parts := FirstWord(s);
      PrimOpNamed(parts.0);
      FirstWordThen(s, parts.0, parts.1);
      EachReadIff(Words(parts.1), c.args);
    }
    if list :| WordThen(s, PrimOpName(c.op), list) && SpellEach(Words(list), c.args) {
      FirstWordThen(s, PrimOpName(c.op), list);
      PrimOpParses(c.op);
      EachReadIff(Words(list), c.args);
    }
  }

  /** An operation is read from its own name. */
  lemma {:induction false} PrimOpNamed(name: string)
    ensures ParsePrimOp(name).Ok? ==> PrimOpName(ParsePrimOp(name).value) == name
  {
    hide ParseIntOp, ParseCompareOp, ParseFloatOp, ParseFloatCompareOp, ParseBoolOp, PrimOpName;
    IntOpNamed(name);
    CompareOpNamed(name);
    FloatOpNamed(name);
    FloatCompareOpNamed(name);
    BoolOpNamed(name);
  }

  lemma IntOpNamed(name: string)
    ensures ParseIntOp(name).Ok? ==> PrimOpName(ParseIntOp(name).value) == name
  {
  }

  lemma CompareOpNamed(name: string)
    ensures ParseCompareOp(name).Ok? ==> PrimOpName(ParseCompareOp(name).value) == name
  {
  }

  lemma FloatOpNamed(name: string)
    ensures ParseFloatOp(name).Ok? ==> PrimOpName(ParseFloatOp(name).value) == name
  {
  }

  lemma FloatCompareOpNamed(name: string)
    ensures ParseFloatCompareOp(name).Ok? ==> PrimOpName(ParseFloatCompareOp(name).value) == name
  {
  }

  lemma BoolOpNamed(name: string)
    ensures ParseBoolOp(name).Ok? ==> PrimOpName(ParseBoolOp(name).value) == name
  {
  }

  lemma {:induction false} DirectCallReadIff(s: string, c: Computation, resolve: Resolver)
    requires c.DirectCall?
    ensures ParseDirectCall(c.dst, s) == Ok(c) <==> SpellsBody(s, c, resolve)
  {
    hide SpellsCall, ParseCall;
    CallReadIff(s, c.callee, c.args, c.roots, NoAllocText(c.noAlloc));
  }

  lemma {:induction false} IndirectCallReadIff(s: string, c: Computation, resolve: Resolver)
    requires c.Call?
    ensures ParseIndirectCall(c.dst, s) == Ok(c) <==> SpellsBody(s, c, resolve)
  {
    hide SpellsCall, ParseCall, Trim, SpellsTemp, ParseTempRef;
    if ParseIndirectCall(c.dst, s) == Ok(c) {
      var word := ParseCall(s).value.0;
      CallReadIff(s, word, c.args, c.roots, "");
      TempReadIff(Trim(word), c.calleeTemp);
    }
    if word :| SpellsCall(s, word, c.args, c.roots, "") && SpellsTemp(Trim(word), c.calleeTemp) {
      CallReadIff(s, word, c.args, c.roots, "");
      TempReadIff(Trim(word), c.calleeTemp);
    }
  }

  lemma {:induction false} DispatchReadIff(s: string, c: Computation, resolve: Resolver)
    requires c.Dispatch?
    ensures ParseDispatch(c.dst, s) == Ok(c) <==> SpellsBody(s, c, resolve)
  {
    hide SpellsCall, ParseCall;
    CallReadIff(s, c.generic, c.args, c.roots, "");
  }

  lemma {:induction false} NoteReadIff(s: string, generic: string, chain: nat)
    ensures ParseSealedNote(s) == Ok((generic, chain)) <==> SpellsNote(s, generic, chain)
  {
    hide ParseUnsigned, SplitOnce, StripPrefix, StripSuffix, Avoids;
    var open, note := "  ; sealed-direct on `", " (chain=";
    assert ['`'] == "`";
    AvoidsChar(generic, '`');
    if ParseSealedNote(s) == Ok((generic, chain)) {
      var rest := StripPrefix(s, open).value;
      PrefixIff(s, open, rest);
      var parts := SplitOnce(rest, "`").value;
      SplitOnceIff(rest, "`", generic, parts.1);
      var tail := StripPrefix(parts.1, note).value;
      PrefixIff(parts.1, note, tail);
      var digits := StripSuffix(tail, ")").value;
      SuffixIff(tail, ")", digits);
      assert s == open + (generic + "`" + (note + (digits + ")")));
    }
    if SpellsNote(s, generic, chain) {
      var digits :| ParseUnsigned(digits, 10, U64_LIMIT) == Ok(chain)
                    && s == open + (generic + "`" + (note + (digits + ")")));
      PrefixIff(s, open, generic + "`" + (note + (digits + ")")));
      SplitOnceIff(generic + "`" + (note + (digits + ")")), "`", generic, note + (digits + ")"));
      PrefixIff(note + (digits + ")"), note, digits + ")");
      SuffixIff(digits + ")", ")", digits);
    }
  }

  lemma {:induction false} MarkReadIff(s: string, noAlloc: bool, note: string)
    requires "  ; sealed-direct on `" <= note
    ensures ParseNoAllocPrefix(s) == (noAlloc, note) <==> s == NoAllocText(noAlloc) + note
  {
    var mark := " [no_alloc]";
    PrefixIff(s, mark, note);
    assert note[1] == ' ' && mark[1] == '[';
    if s == note {
      assert !(mark <= s);
    }
    assert "" + note == note;
  }

  lemma {:induction false} SealedReadIff(s: string, c: Computation, resolve: Resolver)
    requires c.SealedDirectCall?
    ensures ParseSealed(c.dst, s) == Ok(c) <==> SpellsBody(s, c, resolve)
  {
    hide SpellsCall, ParseCall, SpellsNote, ParseSealedNote, ParseNoAllocPrefix, NoAllocText;
    if ParseSealed(c.dst, s) == Ok(c) {
      var rest := ParseCall(s).value.3;
      var flagged := ParseNoAllocPrefix(rest);
      CallReadIff(s, c.callee, c.args, c.roots, rest);
      NoteReadIff(flagged.1, c.generic, |c.fallbackChain|);
      NoteStarts(flagged.1, c.generic, |c.fallbackChain|);
      MarkReadIff(rest, c.noAlloc, flagged.1);
    }
    if SpellsBody(s, c, resolve) {
      var note :| SpellsNote(note, c.generic, |c.fallbackChain|)
                  && SpellsCall(s, c.callee, c.args, c.roots, NoAllocText(c.noAlloc) + note);
      CallReadIff(s, c.callee, c.args, c.roots, NoAllocText(c.noAlloc) + note);
      NoteReadIff(note, c.generic, |c.fallbackChain|);
      NoteStarts(note, c.generic, |c.fallbackChain|);
      MarkReadIff(NoAllocText(c.noAlloc) + note, c.noAlloc, note);
    }
  }

  lemma NoteStarts(s: string, generic: string, chain: nat)
    requires SpellsNote(s, generic, chain)
    ensures "  ; sealed-direct on `" <= s
  {
  }

  lemma {:induction false} TypeCheckReadIff(s: string, c: Computation, resolve: Resolver)
    requires c.TypeCheck?
    ensures ParseTypeCheck(c.dst, s, resolve) == Ok(c) <==> SpellsBody(s, c, resolve)
  {
    hide FirstWord, ParseTempRef, SpellsTemp, ParseClassCheck, NamedCheck, WordThen;
    if ParseTypeCheck(c.dst, s, resolve) == Ok(c) {
      var parts := FirstWord(s);
      FirstWordThen(s, parts.0, parts.1);
      TempReadIff(parts.0, c.subject);
      NamedCheckReads(parts.1, resolve);
    }
    if word, name :| WordThen(s, word, name) && name != "" && SpellsTemp(word, c.subject)
                     && c.cls == NamedCheck(name, resolve) {
      FirstWordThen(s, word, name);
      TempReadIff(word, c.subject);
      NamedCheckReads(name, resolve);
    }
  }

  lemma {:induction false} WriteBarrierReadIff(s: string, c: Computation, resolve: Resolver)
    requires c.WriteBarrier?
    ensures ParseWriteBarrier(c.dst, s) == Ok(c) <==> SpellsBody(s, c, resolve)
  {
    hide FirstWord, ParseTempRef, SpellsTemp, StripPrefix, WordThen;
    if ParseWriteBarrier(c.dst, s) == Ok(c) {
      var parts := FirstWord(s);
      FirstWordThen(s, parts.0, parts.1);
      TempReadIff(parts.0, c.slot);
      var rest := StripPrefix(parts.1, ":= ").value;
      PrefixIff(parts.1, ":= ", rest);
      TempReadIff(rest, c.stored);
    }
    if first, second :| WordThen(s, first, ":= " + second) && SpellsTemp(first, c.slot)
                        && SpellsTemp(second, c.stored) {
      FirstWordThen(s, first, ":= " + second);
      TempReadIff(first, c.slot);
      PrefixIff(":= " + second, ":= ", second);
      TempReadIff(second, c.stored);
    }
  }

  lemma {:induction false} OffsetReadIff(s: string, offset: U64)
    requires ' ' !in s
    ensures ParseOffset(s) == Ok(offset) <==> exists digits :: s == "@" + digits && SpellsOffset(digits, offset)
  {
    hide ParseUnsigned, StripPrefix;
    if ParseOffset(s) == Ok(offset) {
      var digits := StripPrefix(s, "@").value;
      PrefixIff(s, "@", digits);
      assert s == "@" + digits && SpellsOffset(digits, offset);
    }
    if digits :| s == "@" + digits && SpellsOffset(digits, offset) {
      PrefixIff(s, "@", digits);
    }
  }

  lemma SlotKindReadIff(s: string, kind: SlotTypeKind)
    ensures ParseSlotKind(s) == Ok(kind) <==> s == "[" + SlotKindName(kind) + "]"
  {
    assert "[" + "Integer" + "]" == "[Integer]" && "[" + "Object" + "]" == "[Object]";
  }

  /** A word that is followed by something that is not empty ends at a space. */
  lemma {:induction false} WordCut(s: string, word: string, rest: string)
    requires rest != ""
    ensures FirstWord(s) == (word, rest) <==> ' ' !in word && s == word + " " + rest
  {
    hide FirstWord;
    FirstWordIff(s, word, rest);
  }

  lemma TempIsWord(s: string, t: TempId)
    requires SpellsTemp(s, t)
    ensures ' ' !in s
  {
    hide SpellsTemp;
    TempIsClean(s, t);
    assert ' ' in ", ()[]:@" by {
      assert ", ()[]:@"[1] == ' ';
    }
  }

  lemma {:induction false} LoadSlotReadIff(s: string, c: Computation, resolve: Resolver)
    requires c.LoadSlot?
    ensures ParseLoadSlot(c.dst, s) == Ok(c) <==> SpellsBody(s, c, resolve)
  {
    hide FirstWord, ParseTempRef, SpellsTemp, SpellsOffset, ParseOffset, ParseSlotKind, SlotKindName;
    var kind := "[" + SlotKindName(c.kind) + "]";
    if ParseLoadSlot(c.dst, s) == Ok(c) {
      var parts := FirstWord(s);
      var more := FirstWord(parts.1);
      SlotKindReadIff(more.1, c.kind);
      WordCut(parts.1, more.0, kind);
      WordCut(s, parts.0, parts.1);
      TempReadIff(parts.0, c.instance);
      OffsetReadIff(more.0, c.offset);
      var digits :| more.0 == "@" + digits && SpellsOffset(digits, c.offset);
      assert s == parts.0 + " " + ("@" + digits + " " + kind);
    }
    if word, digits :| SpellsTemp(word, c.instance) && SpellsOffset(digits, c.offset)
                       && s == word + " " + ("@" + digits + " " + kind) {
      OffsetIsWord(digits, c.offset);
      TempIsWord(word, c.instance);
      WordCut(s, word, "@" + digits + " " + kind);
      WordCut("@" + digits + " " + kind, "@" + digits, kind);
      TempReadIff(word, c.instance);
      OffsetReadIff("@" + digits, c.offset);
      SlotKindReadIff(kind, c.kind);
    }
  }

  lemma OffsetIsWord(digits: string, offset: U64)
    requires SpellsOffset(digits, offset)
    ensures ' ' !in "@" + digits
  {
  }

  lemma {:induction false} StoreSlotReadSpells(s: string, c: Computation, resolve: Resolver)
    requires c.StoreSlot? && ParseStoreSlot(c.dst, s) == Ok(c)
    ensures SpellsBody(s, c, resolve)
  {
    hide FirstWord, ParseTempRef, SpellsTemp, SpellsOffset, ParseOffset, ParseSlotKind, SlotKindName, StripPrefix;
    var kind := "[" + SlotKindName(c.kind) + "]";
    var parts := FirstWord(s);
    var more := FirstWord(parts.1);
    var rest := StripPrefix(more.1, ":= ").value;
    var last := FirstWord(rest);
    SlotKindReadIff(last.1, c.kind);
    WordCut(rest, last.0, kind);
    PrefixIff(more.1, ":= ", rest);
    WordCut(parts.1, more.0, ":= " + rest);
    WordCut(s, parts.0, parts.1);
    TempReadIff(parts.0, c.instance);
    TempReadIff(last.0, c.stored);
    OffsetReadIff(more.0, c.offset);
    var digits :| more.0 == "@" + digits && SpellsOffset(digits, c.offset);
    assert s == parts.0 + " " + ("@" + digits + " " + (":= " + (last.0 + " " + kind)));
  }

  lemma {:induction false} StoreSlotReadIff(s: string, c: Computation, resolve: Resolver)
    requires c.StoreSlot?
    ensures ParseStoreSlot(c.dst, s) == Ok(c) <==> SpellsBody(s, c, resolve)
  {
    hide FirstWord, ParseTempRef, SpellsTemp, SpellsOffset, ParseOffset, ParseSlotKind, SlotKindName, StripPrefix;
    if ParseStoreSlot(c.dst, s) == Ok(c) {
      StoreSlotReadSpells(s, c, resolve);
    }
    var kind := "[" + SlotKindName(c.kind) + "]";
    if word, digits, second :| SpellsTemp(word, c.instance) && SpellsOffset(digits, c.offset)
                               && SpellsTemp(second, c.stored)
                               && s == word + " " + ("@" + digits + " " + (":= " + (second + " " + kind))) {
      var last := second + " " + kind;
      OffsetIsWord(digits, c.offset);
      TempIsWord(word, c.instance);
      TempIsWord(second, c.stored);
      WordCut(s, word, "@" + digits + " " + (":= " + last));
      WordCut("@" + digits + " " + (":= " + last), "@" + digits, ":= " + last);
      PrefixIff(":= " + last, ":= ", last);
      WordCut(last, second, kind);
      TempReadIff(word, c.instance);
      TempReadIff(second, c.stored);
      OffsetReadIff("@" + digits, c.offset);
      SlotKindReadIff(kind, c.kind);
    }
  }

  /** What follows the keyword is read by the keyword's own reader. */
  function ParseBody(body: string, c: Computation, resolve: Resolver): Parsed<Computation> {
    match c
    case Const(dst, _) => (match ParseConst(body, resolve) case Ok(v) => Ok(Const(dst, v)) case Malformed => Malformed)
    case Prim(dst, _, _) => ParsePrim(dst, body)
    case DirectCall(dst, _, _, _, _) => ParseDirectCall(dst, body)
    case Call(dst, _, _, _) => ParseIndirectCall(dst, body)
    case TypeCheck(dst, _, _) => ParseTypeCheck(dst, body, resolve)
    case WriteBarrier(dst, _, _) => ParseWriteBarrier(dst, body)
    case LoadSlot(dst, _, _, _) => ParseLoadSlot(dst, body)
    case StoreSlot(dst, _, _, _, _) => ParseStoreSlot(dst, body)
    case Dispatch(dst, _, _, _) => ParseDispatch(dst, body)
    case SealedDirectCall(dst, _, _, _, _, _, _) => ParseSealed(dst, body)
  }

  lemma {:induction false} BodyReadIff(body: string, c: Computation, resolve: Resolver)
    ensures ParseBody(body, c, resolve) == Ok(c) <==> SpellsBody(body, c, resolve)
  {
    hide ParseConst, ParsePrim, ParseDirectCall, ParseIndirectCall, ParseTypeCheck, ParseWriteBarrier, ParseLoadSlot,
      ParseStoreSlot, ParseDispatch, ParseSealed, SpellsBody;
    match c
    case Const(_, v) =>
      ConstReadIff(body, v, resolve);
      ConstBody(body, c, resolve);
    case Prim(_, _, _) => PrimReadIff(body, c, resolve);
    case DirectCall(_, _, _, _, _) => DirectCallReadIff(body, c, resolve);
    case Call(_, _, _, _) => IndirectCallReadIff(body, c, resolve);
    case TypeCheck(_, _, _) => TypeCheckReadIff(body, c, resolve);
    case WriteBarrier(_, _, _) => WriteBarrierReadIff(body, c, resolve);
    case LoadSlot(_, _, _, _) => LoadSlotReadIff(body, c, resolve);
    case StoreSlot(_, _, _, _, _) => StoreSlotReadIff(body, c, resolve);
    case Dispatch(_, _, _, _) => DispatchReadIff(body, c, resolve);
    case SealedDirectCall(_, _, _, _, _, _, _) => SealedReadIff(body, c, resolve);
  }

  lemma ConstBody(s: string, c: Computation, resolve: Resolver)
    requires c.Const?
    ensures SpellsBody(s, c, resolve) <==> SpellsConst(s, c.value, resolve)
  {
    hide SpellsConst;
  }

  /** The first word decides what a computation is read as; no other word is taken. */
  lemma {:induction false} KeywordDecides(dst: TempId, text: string, c: Computation, resolve: Resolver)
    requires ParseOperation(dst, text, resolve) == Ok(c)
    ensures OperationKeyword(c) == FirstWord(text).0 && c.dst == dst
  {
    hide FirstWord, ParseConst, ParsePrimOp, ParseEachTemp, Words, ParseCall, ParseTempRef, ParseClassCheck,
      ParseOffset, ParseSlotKind, ParseSealedNote, ParseNoAllocPrefix, ParseNoAllocSuffix, StripPrefix, Trim;
  }

  lemma {:induction false} NothingIsNoBody(c: Computation, resolve: Resolver)
    ensures ParseBody("", c, resolve).Malformed?
  {
    hide OperationKeyword;
    FirstWordIff("", "", "");
  }

  /** An operation's text reads as a computation exactly when it spells it. */
  lemma {:induction false} OperationReadIff(s: string, c: Computation, resolve: Resolver)
    ensures ParseOperation(c.dst, s, resolve) == Ok(c) <==> SpellsOperation(s, c, resolve)
  {
    hide ParseBody, SpellsBody, FirstWord, ParseOperation, OperationKeyword;
    if ParseOperation(c.dst, s, resolve) == Ok(c) {
      KeywordDecides(c.dst, s, c, resolve);
      var body := FirstWord(s).1;
      KeywordReads(c, s, body, resolve);
      BodyReadIff(body, c, resolve);
      if body == "" {
        NothingIsNoBody(c, resolve);
      }
      WordCut(s, OperationKeyword(c), body);
    }
    if body :| s == OperationKeyword(c) + " " + body && SpellsBody(body, c, resolve) {
      KeywordHasNoSpace(c);
      FirstWordIff(s, OperationKeyword(c), body);
      KeywordReads(c, s, body, resolve);
      BodyReadIff(body, c, resolve);
    }
  }

  lemma {:induction false} KeywordReads(c: Computation, s: string, body: string, resolve: Resolver)
    requires FirstWord(s) == (OperationKeyword(c), body)
    ensures ParseOperation(c.dst, s, resolve) == ParseBody(body, c, resolve)
  {
    hide FirstWord, ParseConst, ParsePrim, ParseDirectCall, ParseIndirectCall, ParseTypeCheck, ParseWriteBarrier,
      ParseLoadSlot, ParseStoreSlot, ParseDispatch, ParseSealed;
  }

  // ----- types and declarations -----

  /** A type's own name, which for a class or singleton leaves out what it is; or a class with
      its id or name, or a singleton with its bits. */
  ghost predicate SpellsType(s: string, ty: TypeEstimate, resolve: Resolver) {
    || (s == TypeName(ty) && ty == Erased(ty))
    || (ty.Class? && exists class_ ::
        s == "<class:" + (class_ + ">") && ParseClassId(class_, resolve) == Ok(ty.classId))
    || (ty.Singleton? && exists bits :: s == "<singleton:" + (bits + ">") && ParseHexU64(bits) == Ok(ty.bits))
  }

  lemma {:induction false} PayloadReadSpells(s: string, ty: TypeEstimate, resolve: Resolver)
    requires ParsePayloadType(s, resolve) == Ok(ty)
    ensures SpellsType(s, ty, resolve) && (ty.Class? || ty.Singleton?)
  {
    hide ParseClassId, ParseHexU64, StripPrefix, StripSuffix;
    var open, single := "<class:", "<singleton:";
    if StripPrefix(s, open).Ok? {
      var rest := StripPrefix(s, open).value;
      PrefixIff(s, open, rest);
      SuffixIff(rest, ">", StripSuffix(rest, ">").value);
    } else {
      var rest := StripPrefix(s, single).value;
      PrefixIff(s, single, rest);
      SuffixIff(rest, ">", StripSuffix(rest, ">").value);
    }
  }

  lemma {:induction false} ClassTypeReads(class_: string, resolve: Resolver)
    ensures ParseType("<class:" + (class_ + ">"), resolve) ==
            match ParseClassId(class_, resolve) case Ok(id) => Ok(Class(id)) case Malformed => Malformed
  {
    hide ParseClassId, ParseType;
    var open, rest := "<class:", class_ + ">";
    assert (open + rest)[6] == open[6] == ':';
    assert ':' in open + rest;
    PayloadHasColon(open + rest, resolve);
    Stripped(open, rest);
    Stripped(class_, ">");
  }

  lemma {:induction false} TypeReadIff(s: string, ty: TypeEstimate, resolve: Resolver)
    ensures ParseType(s, resolve) == Ok(ty) <==> SpellsType(s, ty, resolve)
  {
    if ParseType(s, resolve) == Ok(ty) {
      TypeReadSpells(s, ty, resolve);
    }
    if SpellsType(s, ty, resolve) {
      hide ParseClassId, ParseHexU64, ParseType, TypeName;
      if s == TypeName(ty) && ty == Erased(ty) {
        TypeNameParses(ty, resolve);
      } else if ty.Class? {
        var class_ :| s == "<class:" + (class_ + ">") && ParseClassId(class_, resolve) == Ok(ty.classId);
        ClassTypeReads(class_, resolve);
      } else {
        var bits :| s == "<singleton:" + (bits + ">") && ParseHexU64(bits) == Ok(ty.bits);
        SingletonTypeReads(s, bits, resolve);
      }
    }
  }

  lemma {:induction false} TypeReadSpells(s: string, ty: TypeEstimate, resolve: Resolver)
    requires ParseType(s, resolve) == Ok(ty)
    ensures SpellsType(s, ty, resolve)
  {
    hide ParsePayloadType;
    if ParsePayloadType(s, resolve) == Ok(ty) {
      PayloadReadSpells(s, ty, resolve);
    }
  }

  /** A temp, a colon, and its type. */
  ghost predicate SpellsDecl(s: string, d: Temporary, resolve: Resolver) {
    exists temp, ty :: s == temp + ": " + ty && SpellsTemp(temp, d.id) && SpellsType(ty, d.estimate, resolve)
  }

  lemma {:induction false} DeclReadIff(s: string, d: Temporary, resolve: Resolver)
    ensures ParseTempDecl(s, resolve) == Ok(d) <==> SpellsDecl(s, d, resolve)
  {
    hide ParseTempRef, SpellsTemp, ParseType, SpellsType, SplitOnce, Avoids;
    if ParseTempDecl(s, resolve) == Ok(d) {
      var parts := SplitOnce(s, ": ").value;
      SplitOnceIff(s, ": ", parts.0, parts.1);
      TempReadIff(parts.0, d.id);
      TypeReadIff(parts.1, d.estimate, resolve);
    }
    if temp, ty :| s == temp + ": " + ty && SpellsTemp(temp, d.id) && SpellsType(ty, d.estimate, resolve) {
      TempHasNoColon(temp, d.id);
      NotFound(temp, ": ");
      SplitOnceIff(s, ": ", temp, ty);
      TempReadIff(temp, d.id);
      TypeReadIff(ty, d.estimate, resolve);
    }
  }

  lemma TempHasNoColon(s: string, t: TempId)
    requires SpellsTemp(s, t)
    ensures ':' !in s
  {
    hide SpellsTemp;
    TempIsClean(s, t);
    assert ", ()[]:@"[6] == ':';
  }

  /** Declarations between commas; none for the empty text. */
  ghost predicate SpellsDecls(s: string, ds: seq<Temporary>, resolve: Resolver) {
    if s == "" then ds == []
    else
      && |Split(s, ", ")| == |ds|
      && forall k :: 0 <= k < |ds| ==> SpellsDecl(Split(s, ", ")[k], ds[k], resolve)
  }

  lemma {:induction false} EachDeclReadIff(parts: seq<string>, ds: seq<Temporary>, resolve: Resolver)
    ensures ParseEachDecl(parts, resolve) == Ok(ds) <==>
            |parts| == |ds| && forall k :: 0 <= k < |ds| ==> SpellsDecl(parts[k], ds[k], resolve)
    decreases |parts|
  {
    hide SpellsDecl, ParseTempDecl;
    if parts != [] && ds != [] {
      DeclReadIff(parts[0], ds[0], resolve);
      EachDeclReadIff(parts[1..], ds[1..], resolve);
      assert ds == [ds[0]] + ds[1..];
      assert forall k :: 0 <= k < |parts| - 1 ==> parts[1..][k] == parts[k + 1];
      assert forall k :: 0 <= k < |ds| - 1 ==> ds[1..][k] == ds[k + 1];
      if |parts| == |ds| && SpellsDecl(parts[0], ds[0], resolve)
          && forall k :: 0 <= k < |ds| - 1 ==> SpellsDecl(parts[1..][k], ds[1..][k], resolve) {
        forall k | 0 <= k < |ds|
          ensures SpellsDecl(parts[k], ds[k], resolve)
        {
          assert k > 0 ==> SpellsDecl(parts[1..][k - 1], ds[1..][k - 1], resolve);
        }
      }
    }
  }

  lemma {:induction false} DeclsReadIff(s: string, ds: seq<Temporary>, resolve: Resolver)
    ensures ParseTempDecls(s, resolve) == Ok(ds) <==> SpellsDecls(s, ds, resolve)
  {
    hide SpellsDecl, ParseEachDecl, Split;
    EachDeclReadIff(Split(s, ", "), ds, resolve);
  }

  // ----- lines -----

  /** A computation's line: the result declared, an equals sign, and the operation. */
  ghost predicate SpellsComputation(s: string, d: Temporary, c: Computation, resolve: Resolver) {
    exists decl, operation ::
      && s == decl + " = " + operation && Avoids(decl, " = ")
      && SpellsDecl(decl, d, resolve) && c.dst == d.id && SpellsOperation(operation, c, resolve)
  }

  lemma {:induction false} ComputationReadIff(s: string, d: Temporary, c: Computation, resolve: Resolver)
    ensures ParseComputation(s, resolve) == Ok((d, c)) <==> SpellsComputation(s, d, c, resolve)
  {
    hide ParseTempDecl, SpellsDecl, ParseOperation, SpellsOperation, SplitOnce, Avoids;
    if ParseComputation(s, resolve) == Ok((d, c)) {
      var parts := SplitOnce(s, " = ").value;
      SplitOnceIff(s, " = ", parts.0, parts.1);
      DeclReadIff(parts.0, d, resolve);
      ResultIsDeclared(d.id, parts.1, c, resolve);
      OperationReadIff(parts.1, c, resolve);
    }
    if decl, operation :| s == decl + " = " + operation && Avoids(decl, " = ")
                          && SpellsDecl(decl, d, resolve) && c.dst == d.id && SpellsOperation(operation, c, resolve) {
      SplitOnceIff(s, " = ", decl, operation);
      DeclReadIff(decl, d, resolve);
      OperationReadIff(operation, c, resolve);
    }
  }

  lemma ResultIsDeclared(dst: TempId, s: string, c: Computation, resolve: Resolver)
    requires ParseOperation(dst, s, resolve) == Ok(c)
    ensures c.dst == dst
  {
    hide ParseOperation;
    KeywordDecides(dst, s, c, resolve);
  }

  /** An exit's line. A bare return may be followed by a space; a jump without arguments by
      empty parentheses. */
  ghost predicate SpellsExit(s: string, labels: seq<string>, t: Terminator) {
    match t
    case Return(None) => s == "Return" || s == "Return" + " " + ""
    case Return(Some(v)) => exists temp :: s == "Return" + " " + temp && SpellsTemp(temp, v)
    case If(cond, x, y) =>
      exists temp, a, b ::
        && s == "If" + " " + (temp + " " + (a + " " + b)) && SpellsTemp(temp, cond)
        && a != "" && b != "" && ' ' !in a && ' ' !in b
        && ResolveLabel(labels, a) == Ok(x) && ResolveLabel(labels, b) == Ok(y)
    case Jump(x, args) =>
      exists name, list ::
        && s == "Jump" + " " + (name + list) && name != "" && '(' !in name && ResolveLabel(labels, name) == Ok(x)
        && SpellsJumpArgs(list, args)
  }

  ghost predicate SpellsJumpArgs(s: string, args: seq<TempId>) {
    (s == "" && args == []) || exists list :: s == "(" + (list + ")" + "") && SpellsTemps(list, args)
  }

  lemma {:induction false} ReturnReadIff(s: string, v: Option<TempId>)
    ensures ParseReturn(s) == Ok(Return(v)) <==> if v.None? then s == "" else SpellsTemp(s, v.value)
  {
    hide ParseTempRef, SpellsTemp;
    if v.Some? {
      TempReadIff(s, v.value);
      if s == "" && SpellsTemp(s, v.value) {
        TempIsClean(s, v.value);
      }
    }
  }

  lemma {:induction false} IfReadIff(s: string, labels: seq<string>, t: Terminator)
    requires t.If?
    ensures ParseIf(s, labels) == Ok(t) <==>
            exists temp, a, b ::
              && s == temp + " " + (a + " " + b) && SpellsTemp(temp, t.cond)
              && a != "" && b != "" && ' ' !in a && ' ' !in b
              && ResolveLabel(labels, a) == Ok(t.thenBlock) && ResolveLabel(labels, b) == Ok(t.elseBlock)
  {
    hide FirstWord, ParseTempRef, SpellsTemp, ResolveLabel;
    if ParseIf(s, labels) == Ok(t) {
      var parts := FirstWord(s);
      var arms := FirstWord(parts.1);
      WordCut(parts.1, arms.0, arms.1);
      WordCut(s, parts.0, parts.1);
      TempReadIff(parts.0, t.cond);
      assert s == parts.0 + " " + (arms.0 + " " + arms.1);
    }
    if temp, a, b :| s == temp + " " + (a + " " + b) && SpellsTemp(temp, t.cond)
                     && a != "" && b != "" && ' ' !in a && ' ' !in b
                     && ResolveLabel(labels, a) == Ok(t.thenBlock) && ResolveLabel(labels, b) == Ok(t.elseBlock) {
      TempIsWord(temp, t.cond);
      WordCut(s, temp, a + " " + b);
      WordCut(a + " " + b, a, b);
      TempReadIff(temp, t.cond);
    }
  }

  lemma {:induction false} JumpReadSpells(s: string, labels: seq<string>, t: Terminator) returns (name: string,
      list: string)
    requires t.Jump? && ParseJump(s, labels) == Ok(t)
    ensures s == name + list && name != "" && '(' !in name && ResolveLabel(labels, name) == Ok(t.target)
    ensures SpellsJumpArgs(list, t.args)
  {
    hide ParseParenTemps, SpellsTemps, ResolveLabel, Avoids;
    match Find(s, "(")
    case None =>
      name, list := s, "";
      FoundNone(s);
    case Some(i) =>
      name, list := s[..i], s[i..];
      CalleeEnds(s);
      ParenTempsReadIff(list, t.args, "");
      assert s == name + list;
  }

  lemma FoundNone(s: string)
    requires Find(s, "(").None?
    ensures '(' !in s
  {
    forall i | 0 <= i < |s|
      ensures s[i] != '('
    {
      FoundFirst(s, "(", i);
      assert s[i..i + 1] == [s[i]];
    }
  }

  lemma {:induction false} JumpSpelledReads(s: string, labels: seq<string>, t: Terminator, name: string, list: string)
    requires t.Jump? && s == name + list && name != "" && '(' !in name && ResolveLabel(labels, name) == Ok(t.target)
    requires SpellsJumpArgs(list, t.args)
    ensures ParseJump(s, labels) == Ok(t)
  {
    hide ParseParenTemps, SpellsTemps, ResolveLabel, Avoids;
    NotFound(name, "(");
    if list == "" {
      assert s == name;
    } else {
      var inner :| list == "(" + (inner + ")" + "") && SpellsTemps(inner, t.args);
      ParenTempsReadIff(list, t.args, "");
      assert s == name + "(" + (inner + ")" + "");
      FindAfter(name, "(", inner + ")" + "");
      assert s[..|name|] == name && s[|name|..] == list;
    }
  }

  lemma ExitKeyword(s: string, labels: seq<string>, t: Terminator)
    ensures ParseTerminator(s, labels) == Ok(t) <==>
            var (word, rest) := FirstWord(s);
            || (word == "Return" && ParseReturn(rest) == Ok(t))
            || (word == "If" && ParseIf(rest, labels) == Ok(t))
            || (word == "Jump" && ParseJump(rest, labels) == Ok(t))
  {
    hide FirstWord, ParseReturn, ParseIf, ParseJump;
    assert |"Return"| == 6 && |"If"| == 2 && |"Jump"| == 4;
  }

  lemma ExitShapes(s: string, labels: seq<string>, t: Terminator)
    ensures ParseReturn(s) == Ok(t) ==> t.Return?
    ensures ParseIf(s, labels) == Ok(t) ==> t.If?
    ensures ParseJump(s, labels) == Ok(t) ==> t.Jump?
  {
    hide FirstWord, ParseTempRef, ResolveLabel, ParseParenTemps;
  }

  lemma KeywordsAreWords()
    ensures ' ' !in "Return" && ' ' !in "If" && ' ' !in "Jump"
  {
  }

  /** An exit's line reads as a terminator exactly when it spells it. */
  lemma {:induction false} ExitReadIff(s: string, labels: seq<string>, t: Terminator)
    ensures ParseTerminator(s, labels) == Ok(t) <==> SpellsExit(s, labels, t)
  {
    hide FirstWord, ParseReturn, ParseIf, ParseJump, SpellsJumpArgs, SpellsTemp, ResolveLabel, ParseTerminator;
    ExitKeyword(s, labels, t);
    var (word, rest) := FirstWord(s);
    ExitShapes(rest, labels, t);
    FirstWordIff(s, word, rest);
    KeywordsAreWords();
    match t
    case Return(v) => ExitReturnReadIff(s, labels, v);
    case If(_, _, _) => ExitIfReadIff(s, labels, t);
    case Jump(_, _) => ExitJumpReadIff(s, labels, t);
  }

  lemma {:induction false} ExitReturnReadIff(s: string, labels: seq<string>, v: Option<TempId>)
    ensures (FirstWord(s).0 == "Return" && ParseReturn(FirstWord(s).1) == Ok(Return(v))) <==>
            SpellsExit(s, labels, Return(v))
  {
    hide FirstWord, ParseReturn, SpellsTemp;
    KeywordsAreWords();
    var (word, rest) := FirstWord(s);
    FirstWordIff(s, word, rest);
    ReturnReadIff(rest, v);
    FirstWordIff(s, "Return", "");
    if v.Some? {
      if temp :| s == "Return" + " " + temp && SpellsTemp(temp, v.value) {
        FirstWordIff(s, "Return", temp);
        ReturnReadIff(temp, v);
      }
      if word == "Return" && SpellsTemp(rest, v.value) {
        TempIsClean(rest, v.value);
      }
    }
  }

  lemma {:induction false} ExitIfReadIff(s: string, labels: seq<string>, t: Terminator)
    requires t.If?
    ensures (FirstWord(s).0 == "If" && ParseIf(FirstWord(s).1, labels) == Ok(t)) <==> SpellsExit(s, labels, t)
  {
    hide FirstWord, ParseIf, SpellsTemp, ResolveLabel;
    KeywordsAreWords();
    var (word, rest) := FirstWord(s);
    if word == "If" && ParseIf(rest, labels) == Ok(t) {
      IfReadIff(rest, labels, t);
      var temp, a, b :| rest == temp + " " + (a + " " + b) && SpellsTemp(temp, t.cond)
                        && a != "" && b != "" && ' ' !in a && ' ' !in b
                        && ResolveLabel(labels, a) == Ok(t.thenBlock) && ResolveLabel(labels, b) == Ok(t.elseBlock);
      WordCut(s, "If", rest);
    }
    if temp, a, b :| s == "If" + " " + (temp + " " + (a + " " + b)) && SpellsTemp(temp, t.cond)
                     && a != "" && b != "" && ' ' !in a && ' ' !in b
                     && ResolveLabel(labels, a) == Ok(t.thenBlock) && ResolveLabel(labels, b) == Ok(t.elseBlock) {
      WordCut(s, "If", temp + " " + (a + " " + b));
      IfReadIff(temp + " " + (a + " " + b), labels, t);
    }
  }

  lemma {:induction false} ExitJumpReadIff(s: string, labels: seq<string>, t: Terminator)
    requires t.Jump?
    ensures (FirstWord(s).0 == "Jump" && ParseJump(FirstWord(s).1, labels) == Ok(t)) <==> SpellsExit(s, labels, t)
  {
    hide FirstWord, ParseJump, SpellsJumpArgs, ResolveLabel;
    KeywordsAreWords();
    var (word, rest) := FirstWord(s);
    if word == "Jump" && ParseJump(rest, labels) == Ok(t) {
      var name, list := JumpReadSpells(rest, labels, t);
      WordCut(s, "Jump", rest);
    }
    if name, list :| s == "Jump" + " " + (name + list) && name != "" && '(' !in name
                     && ResolveLabel(labels, name) == Ok(t.target) && SpellsJumpArgs(list, t.args) {
      WordCut(s, "Jump", name + list);
      JumpSpelledReads(name + list, labels, t, name, list);
    }
  }

  // ----- headers -----

  /** A function's first line. */
  ghost predicate SpellsHeader(s: string, h: Header, resolve: Resolver) {
    exists name, params, ty ::
      && s == "fn " + (name + " (" + (params + ") -> " + (ty + ":"))) && Avoids(name, " (") && Avoids(params, ") -> ")
      && ResolveName(name, resolve) == Ok(h.name) && SpellsDecls(params, h.params, resolve)
      && SpellsType(ty, h.returnType, resolve)
  }

  lemma {:induction false} HeaderReadIff(s: string, h: Header, resolve: Resolver)
    ensures ParseHeader(s, resolve) == Ok(h) <==> SpellsHeader(s, h, resolve)
  {
    hide SplitOnce, StripPrefix, StripSuffix, Avoids, ResolveName, SpellsDecls, SpellsType, ParseType, ParseTempDecls;
    if ParseHeader(s, resolve) == Ok(h) {
      var afterFn := StripPrefix(s, "fn ").value;
      PrefixIff(s, "fn ", afterFn);
      var named := SplitOnce(afterFn, " (").value;
      SplitOnceIff(afterFn, " (", named.0, named.1);
      var rest := SplitOnce(named.1, ") -> ").value;
      SplitOnceIff(named.1, ") -> ", rest.0, rest.1);
      var ty := StripSuffix(rest.1, ":").value;
      SuffixIff(rest.1, ":", ty);
      DeclsReadIff(rest.0, h.params, resolve);
      TypeReadIff(ty, h.returnType, resolve);
      assert s == "fn " + (named.0 + " (" + (rest.0 + ") -> " + (ty + ":")));
    }
    if name, params, ty :| s == "fn " + (name + " (" + (params + ") -> " + (ty + ":"))) && Avoids(name, " (")
                           && Avoids(params, ") -> ") && ResolveName(name, resolve) == Ok(h.name)
                           && SpellsDecls(params, h.params, resolve) && SpellsType(ty, h.returnType, resolve) {
      PrefixIff(s, "fn ", name + " (" + (params + ") -> " + (ty + ":")));
      SplitOnceIff(name + " (" + (params + ") -> " + (ty + ":")), " (", name, params + ") -> " + (ty + ":"));
      SplitOnceIff(params + ") -> " + (ty + ":"), ") -> ", params, ty + ":");
      SuffixIff(ty + ":", ":", ty);
      DeclsReadIff(params, h.params, resolve);
      TypeReadIff(ty, h.returnType, resolve);
    }
  }

  /** A block's first line, after its two spaces: a label, declarations in parentheses unless
      there are none, and a colon. */
  ghost predicate SpellsBlockHeader(s: string, name: string, params: seq<Temporary>, resolve: Resolver) {
    '(' !in name
    && (|| (s == name + ":" && params == [])
        || exists decls :: s == name + "(" + (decls + ")") + ":" && SpellsDecls(decls, params, resolve))
  }

  lemma {:induction false} BlockHeaderReadIff(s: string, name: string, params: seq<Temporary>, resolve: Resolver)
    ensures ParseBlockHeader(s, resolve) == Ok((name, params)) <==> SpellsBlockHeader(s, name, params, resolve)
  {
    hide SplitOnce, StripSuffix, Avoids, SpellsDecls, ParseTempDecls;
    assert ['('] == "(";
    AvoidsChar(name, '(');
    if ParseBlockHeader(s, resolve) == Ok((name, params)) {
      var body := StripSuffix(s, ":").value;
      SuffixIff(s, ":", body);
      if SplitOnce(body, "(").Malformed? {
        NoParen(body);
      } else {
        var more := SplitOnce(body, "(").value.1;
        SplitOnceIff(body, "(", name, more);
        var decls := StripSuffix(more, ")").value;
        SuffixIff(more, ")", decls);
        DeclsReadIff(decls, params, resolve);
      }
    }
    if '(' !in name && s == name + ":" && params == [] {
      SuffixIff(s, ":", name);
      WithoutParen(name);
    }
    if decls :| '(' !in name && s == name + "(" + (decls + ")") + ":" && SpellsDecls(decls, params, resolve) {
      SuffixIff(s, ":", name + "(" + (decls + ")"));
      SplitOnceIff(name + "(" + (decls + ")"), "(", name, decls + ")");
      SuffixIff(decls + ")", ")", decls);
      DeclsReadIff(decls, params, resolve);
    }
  }

  lemma NoParen(s: string)
    requires SplitOnce(s, "(").Malformed?
    ensures '(' !in s
  {
    FoundNone(s);
  }

  lemma WithoutParen(s: string)
    requires '(' !in s
    ensures SplitOnce(s, "(").Malformed?
  {
    NotFound(s, "(");
  }
}
