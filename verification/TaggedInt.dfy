/** Integer operations on tagged words: a fixnum `v` is the 64-bit word `v << 1`. Each
    operation is the instruction sequence codegen emits for it. */
module TaggedInt {
  import opened Ir

  const TWO_63: int := 0x8000_0000_0000_0000
  const TWO_64: int := 0x1_0000_0000_0000_0000
  const MIN_FIXNUM: int := -0x4000_0000_0000_0000

  // ----- 64-bit instructions -----

  function Wrap(n: int): U64 {
    n % TWO_64
  }

  function Signed(w: U64): int {
    if w < TWO_63 then w else w - TWO_64
  }

  function ShiftLeftOne(w: U64): U64 {
    Wrap(2 * w)
  }

  /** Arithmetic shift right by one: division of the signed value by two, rounding down. */
  function ShiftRightOne(w: U64): U64 {
    Wrap(Signed(w) / 2)
  }

  function Abs(n: int): nat {
    if n < 0 then -n else n
  }

  /** Division that rounds toward zero. */
  function TruncDiv(a: int, b: int): int
    requires b != 0
  {
    var q := Abs(a) / Abs(b);
    if (a < 0) == (b < 0) then q else -q
  }

  function TruncRem(a: int, b: int): int
    requires b != 0
  {
    a - b * TruncDiv(a, b)
  }

  // ----- the operations -----

  function TagConst(n: I128): U64 {
    ShiftLeftOne(Wrap(n))
  }

  predicate IsRingOp(op: PrimOp) {
    op.AddInt? || op.SubInt? || op.MulInt? || op.NegInt?
  }

  predicate IsComparison(op: PrimOp) {
    op.EqInt? || op.NeInt? || op.LtInt? || op.GtInt? || op.LeInt? || op.GeInt?
  }

  function RingOp(op: PrimOp, l: U64, r: U64): U64
    requires IsRingOp(op)
  {
    match op
    case AddInt => Wrap(l + r)
    case SubInt => Wrap(l - r)
    case MulInt => Wrap(l * ShiftRightOne(r))
    case NegInt => Wrap(0 - l)
  }

  /** Signed division of the untagged operands; a zero divisor is undefined behaviour. */
  function DivOp(l: U64, r: U64): Option<U64> {
    var lu, ru := Signed(ShiftRightOne(l)), Signed(ShiftRightOne(r));
    if ru == 0 then None else Some(ShiftLeftOne(Wrap(TruncDiv(lu, ru))))
  }

  /** `ModInt` and `RemInt` alike. */
  function RemOp(l: U64, r: U64): Option<U64> {
    var lu, ru := Signed(ShiftRightOne(l)), Signed(ShiftRightOne(r));
    if ru == 0 then None else Some(ShiftLeftOne(Wrap(TruncRem(lu, ru))))
  }

  predicate Compare(op: PrimOp, l: U64, r: U64)
    requires IsComparison(op)
  {
    match op
    case EqInt => l == r
    case NeInt => l != r
    case LtInt => Signed(l) < Signed(r)
    case GtInt => Signed(l) > Signed(r)
    case LeInt => Signed(l) <= Signed(r)
    case GeInt => Signed(l) >= Signed(r)
  }

  // ----- the arithmetic they are for -----

  /** The tagged word of an integer, its upper bits lost. */
  function Tagged(v: int): U64 {
    Wrap(2 * v)
  }

  function Untagged(w: U64): int {
    Signed(w) / 2
  }

  predicate IsFixnum(v: int) {
    MIN_FIXNUM <= v < -MIN_FIXNUM
  }

  function ExactRing(op: PrimOp, a: int, b: int): int
    requires IsRingOp(op)
  {
    match op
    case AddInt => a + b
    case SubInt => a - b
    case MulInt => a * b
    case NegInt => -a
  }

  predicate ExactCompare(op: PrimOp, a: int, b: int)
    requires IsComparison(op)
  {
    match op
    case EqInt => a == b
    case NeInt => a != b
    case LtInt => a < b
    case GtInt => a > b
    case LeInt => a <= b
    case GeInt => a >= b
  }

  // ----- one operation -----

  /** A tagged word gives its integer back exactly when the integer is a fixnum. */
  lemma UntagsIffFixnum(v: int)
    ensures Untagged(Tagged(v)) == v <==> IsFixnum(v)
    ensures IsFixnum(Untagged(Tagged(v)))
  {
    var k := (2 * v) / TWO_64;
    assert 2 * v == k * TWO_64 + Tagged(v);
  }

  lemma SameResidue(a: int, b: int, k: int)
    requires a == b + k * TWO_64
    ensures Wrap(a) == Wrap(b)
  {
    ResidueUnique(a, b / TWO_64 + k, Wrap(b));
  }

  lemma ResidueUnique(a: int, q: int, r: int)
    requires a == q * TWO_64 + r && 0 <= r < TWO_64
    ensures Wrap(a) == r
  {
    var d := a / TWO_64 - q;
    assert d * TWO_64 == r - Wrap(a);
    assert d == 0;
  }

  /** The product of a tagged word and an untagged one is the tagged product, whatever bits
      either has lost. */
  lemma {:induction false} MulTagged(a: int, b: int)
    ensures RingOp(MulInt, Tagged(a), Tagged(b)) == Tagged(a * b)
  {
    var k := (2 * a) / TWO_64;
    assert Tagged(a) == 2 * a - k * TWO_64;
    var k2 := (2 * b) / TWO_64;
    assert Tagged(b) == 2 * b - k2 * TWO_64;
    var s := Signed(Tagged(b)) / 2;
    var u := ShiftRightOne(Tagged(b));
    var k3 := s / TWO_64;
    assert u == s - k3 * TWO_64;
    var k4 := if Tagged(b) < TWO_63 then k2 else k2 + 1;
    assert s == b - k4 * TWO_63;
    var m := k4 + 2 * k3;
    assert u == b - m * TWO_63;
    SameResidue(Tagged(a) * u, 2 * (a * b), -(a * m + k * u));
  }

  /** Add, subtract, multiply and negate commute with tagging for all integers. */
  lemma {:induction false} RingOpTagged(op: PrimOp, a: int, b: int)
    requires IsRingOp(op)
    ensures RingOp(op, Tagged(a), Tagged(b)) == Tagged(ExactRing(op, a, b))
  {
    var ka, kb := (2 * a) / TWO_64, (2 * b) / TWO_64;
    assert Tagged(a) == 2 * a - ka * TWO_64 && Tagged(b) == 2 * b - kb * TWO_64;
    match op
    case AddInt => SameResidue(Tagged(a) + Tagged(b), 2 * (a + b), -ka - kb);
    case SubInt => SameResidue(Tagged(a) - Tagged(b), 2 * (a - b), kb - ka);
    case MulInt => MulTagged(a, b);
    case NegInt => SameResidue(0 - Tagged(a), 2 * (-a), ka);
  }

  lemma ConstTagged(n: I128)
    ensures TagConst(n) == Tagged(n)
  {
    var k := n / TWO_64;
    SameResidue(2 * Wrap(n), 2 * n, -2 * k);
  }

  // ----- division and comparison -----

  lemma FixnumUntags(v: int)
    requires IsFixnum(v)
    ensures Signed(ShiftRightOne(Tagged(v))) == v && Signed(Tagged(v)) == 2 * v
  {
    if v < 0 {
      SameResidue(2 * v, 2 * v + TWO_64, -1);
      SameResidue(v, v + TWO_64, -1);
    }
  }

  lemma RetagWord(v: int)
    ensures ShiftLeftOne(Wrap(v)) == Tagged(v)
  {
    SameResidue(2 * Wrap(v), 2 * v, -2 * (v / TWO_64));
  }

  lemma ProductAtLeast(q: nat, b: nat)
    requires b >= 2
    ensures q * b >= 2 * q
  {
    assert q * b == q * (b - 2) + 2 * q;
  }

  lemma DivOne(n: nat)
    ensures n / 1 == n
  {
  }

  lemma {:induction false} QuotientBounded(a: nat, b: nat)
    requires b > 0
    ensures b == 1 ==> a / b == a
    ensures b > 1 ==> 2 * (a / b) <= a
  {
    if b == 1 {
      DivOne(a);
    } else {
      ProductAtLeast(a / b, b);
    }
  }

  lemma QuotientFixnum(a: int, b: int)
    requires IsFixnum(a) && IsFixnum(b) && b != 0
    ensures IsFixnum(TruncDiv(a, b)) <==> !(a == MIN_FIXNUM && b == -1)
  {
    QuotientBounded(Abs(a), Abs(b));
    var q := Abs(a) / Abs(b);
    assert q <= Abs(a);
  }

  /** Division of fixnums truncates, and is right exactly when the divisor is not zero and
      it is not the one quotient that is no fixnum, the least fixnum by minus one. */
  lemma {:induction false} DivRightIff(a: int, b: int)
    requires IsFixnum(a) && IsFixnum(b)
    ensures DivOp(Tagged(a), Tagged(b)).None? <==> b == 0
    ensures b != 0 ==> DivOp(Tagged(a), Tagged(b)) == Some(Tagged(TruncDiv(a, b)))
    ensures b != 0 ==> (Untagged(Tagged(TruncDiv(a, b))) == TruncDiv(a, b) <==> !(a == MIN_FIXNUM && b == -1))
  {
    FixnumUntags(a);
    FixnumUntags(b);
    if b != 0 {
      RetagWord(TruncDiv(a, b));
      UntagsIffFixnum(TruncDiv(a, b));
      QuotientFixnum(a, b);
    }
  }

  lemma ProductOfQuotient(a: int, b: int)
    requires b != 0
    ensures b * TruncDiv(a, b) == if a < 0 then -((Abs(a) / Abs(b)) * Abs(b)) else (Abs(a) / Abs(b)) * Abs(b)
  {
    var q := Abs(a) / Abs(b);
    assert q * Abs(b) == Abs(b) * q;
  }

  lemma RemainderBounded(a: int, b: int)
    requires b != 0
    ensures var m := TruncRem(a, b);
            Abs(m) < Abs(b) && (a >= 0 ==> m >= 0) && (a <= 0 ==> m <= 0)
  {
    ProductOfQuotient(a, b);
  }

  /** The remainder of fixnums by a non-zero fixnum is always right, for both `ModInt` and
      `RemInt`: it takes the sign of the dividend. */
  lemma {:induction false} RemRight(a: int, b: int)
    requires IsFixnum(a) && IsFixnum(b)
    ensures RemOp(Tagged(a), Tagged(b)).None? <==> b == 0
    ensures b != 0 ==> RemOp(Tagged(a), Tagged(b)) == Some(Tagged(TruncRem(a, b)))
    ensures b != 0 ==> Untagged(Tagged(TruncRem(a, b))) == TruncRem(a, b)
    ensures b != 0 ==> a == b * TruncDiv(a, b) + TruncRem(a, b)
  {
    FixnumUntags(a);
    FixnumUntags(b);
    if b != 0 {
      RemainderBounded(a, b);
      RetagWord(TruncRem(a, b));
      UntagsIffFixnum(TruncRem(a, b));
    }
  }

  /** The modulus that rounds the quotient down takes the divisor's sign. */
  ghost predicate IsFloorMod(a: int, b: int, m: int)
    requires b != 0
  {
    (exists q: int :: a == b * q + m) && (if b > 0 then 0 <= m < b else b < m <= 0)
  }

  /** So `ModInt` is the floor modulus exactly when it is zero or the operands' signs
      agree. */
  lemma ModIsFloorModIff(a: int, b: int)
    requires b != 0
    ensures IsFloorMod(a, b, TruncRem(a, b)) <==> (TruncRem(a, b) == 0 || (a < 0) == (b < 0))
  {
    RemainderBounded(a, b);
    assert a == b * TruncDiv(a, b) + TruncRem(a, b);
  }

  /** At -1 and 2 `ModInt` gives -1, where the floor modulus is 1. */
  lemma ModIsNotFloorMod()
    ensures RemOp(Tagged(-1), Tagged(2)) == Some(Tagged(-1))
    ensures !IsFloorMod(-1, 2, -1) && IsFloorMod(-1, 2, 1)
  {
    RemRight(-1, 2);
    assert TruncRem(-1, 2) == -1;
    ModIsFloorModIff(-1, 2);
    assert -1 == 2 * -1 + 1;
  }

  /** All six comparisons of fixnums' words are the comparisons of the fixnums. */
  lemma CompareRight(op: PrimOp, a: int, b: int)
    requires IsComparison(op) && IsFixnum(a) && IsFixnum(b)
    ensures Compare(op, Tagged(a), Tagged(b)) <==> ExactCompare(op, a, b)
  {
    FixnumUntags(a);
    FixnumUntags(b);
  }

  // ----- straight-line programs -----

  predicate IsArithmetic(op: PrimOp) {
    IsRingOp(op) || op.DivInt? || op.ModInt? || op.RemInt?
  }

  /** Undefined for a divisor of zero. */
  function WordOp(op: PrimOp, l: U64, r: U64): Option<U64>
    requires IsArithmetic(op)
  {
    if IsRingOp(op) then Some(RingOp(op, l, r)) else if op.DivInt? then DivOp(l, r) else RemOp(l, r)
  }

  function ExactOp(op: PrimOp, a: int, b: int): Option<int>
    requires IsArithmetic(op)
  {
    if IsRingOp(op) then Some(ExactRing(op, a, b))
    else if b == 0 then None
    else if op.DivInt? then Some(TruncDiv(a, b))
    else Some(TruncRem(a, b))
  }

  /** An operation does on tagged words what it should on integers: on all of them when it is
      a ring operation, on fixnums when it divides. */
  lemma {:induction false} OpTagged(op: PrimOp, a: int, b: int)
    requires IsArithmetic(op) && (IsRingOp(op) || (IsFixnum(a) && IsFixnum(b)))
    ensures WordOp(op, Tagged(a), Tagged(b)) ==
            match ExactOp(op, a, b) case None => None case Some(v) => Some(Tagged(v))
  {
    hide RingOp, DivOp, RemOp, TruncDiv, TruncRem, Tagged;
    if IsRingOp(op) {
      RingOpTagged(op, a, b);
    } else if op.DivInt? {
      DivRightIff(a, b);
    } else {
      RemRight(a, b);
    }
  }

  /** One computation: an integer literal, or an operation on earlier results. */
  datatype Line = Literal(n: I128) | Arith(op: PrimOp, left: nat, right: nat)

  predicate WellScoped(program: seq<Line>) {
    forall k :: 0 <= k < |program| && program[k].Arith? ==>
      IsArithmetic(program[k].op) && program[k].left < k && program[k].right < k
  }

  function ExactLine(line: Line, before: seq<int>): Option<int>
    requires line.Arith? ==> IsArithmetic(line.op) && line.left < |before| && line.right < |before|
  {
    match line
    case Literal(v) => Some(v)
    case Arith(op, a, b) => ExactOp(op, before[a], before[b])
  }

  function WordLine(line: Line, before: seq<U64>): Option<U64>
    requires line.Arith? ==> IsArithmetic(line.op) && line.left < |before| && line.right < |before|
  {
    match line
    case Literal(v) => Some(TagConst(v))
    case Arith(op, a, b) => WordOp(op, before[a], before[b])
  }

  /** The integers the program is about; nothing when it divides by zero. */
  function ExactValues(program: seq<Line>): (r: Option<seq<int>>)
    requires WellScoped(program)
    ensures r.Some? ==> |r.value| == |program|
  {
    if program == [] then Some([])
    else match ExactValues(program[..|program| - 1])
      case None => None
      case Some(before) =>
        match ExactLine(program[|program| - 1], before)
        case None => None
        case Some(v) => Some(before + [v])
  }

  /** The words the emitted instructions compute. */
  function Words(program: seq<Line>): (r: Option<seq<U64>>)
    requires WellScoped(program)
    ensures r.Some? ==> |r.value| == |program|
  {
    if program == [] then Some([])
    else match Words(program[..|program| - 1])
      case None => None
      case Some(before) =>
        match WordLine(program[|program| - 1], before)
        case None => None
        case Some(w) => Some(before + [w])
  }

  /** Whatever is divided, and whatever it is divided by, is a fixnum. */
  predicate DivisionsFit(program: seq<Line>)
    requires WellScoped(program)
  {
    program == [] ||
    var n := |program| - 1;
    && DivisionsFit(program[..n])
    && (program[n].Arith? && !IsRingOp(program[n].op) && ExactValues(program[..n]).Some? ==>
          var before := ExactValues(program[..n]).value;
          IsFixnum(before[program[n].left]) && IsFixnum(before[program[n].right]))
  }

  /** A program that does not divide meets that, and has values. */
  lemma {:induction false} WithoutDivisions(program: seq<Line>)
    requires WellScoped(program) && forall k :: 0 <= k < |program| && program[k].Arith? ==> IsRingOp(program[k].op)
    ensures DivisionsFit(program) && ExactValues(program).Some?
  {
    if program != [] {
      WithoutDivisions(program[..|program| - 1]);
    }
  }

  /** Every computed word is the tagged word of the exact value, lost bits and all. */
  lemma {:induction false} WordsAreTagged(program: seq<Line>)
    requires WellScoped(program) && DivisionsFit(program)
    ensures Words(program).Some? <==> ExactValues(program).Some?
    ensures Words(program).Some? ==>
              forall k :: 0 <= k < |program| ==> Words(program).value[k] == Tagged(ExactValues(program).value[k])
  {
    hide WordOp, ExactOp, Tagged, TagConst, IsFixnum;
    if program != [] {
      var n := |program| - 1;
      WordsAreTagged(program[..n]);
      if ExactValues(program[..n]).Some? {
        var before := ExactValues(program[..n]).value;
        match program[n]
        case Literal(v) => ConstTagged(v);
        case Arith(op, a, b) => OpTagged(op, before[a], before[b]);
      }
    }
  }

  /** A straight-line program computes a result right exactly when that result is a fixnum,
      even when values on the way to it are not, as long as what it divides are. */
  lemma {:induction false} ProgramRightIffFixnum(program: seq<Line>, k: nat)
    requires WellScoped(program) && DivisionsFit(program) && ExactValues(program).Some? && k < |program|
    ensures Words(program).Some?
    ensures Untagged(Words(program).value[k]) == ExactValues(program).value[k] <==>
              IsFixnum(ExactValues(program).value[k])
  {
    hide IsFixnum, Tagged, Untagged;
    WordsAreTagged(program);
    UntagsIffFixnum(ExactValues(program).value[k]);
  }

  /** And comparing two results that are fixnums compares the values. */
  lemma {:induction false} ProgramCompares(program: seq<Line>, op: PrimOp, j: nat, k: nat)
    requires WellScoped(program) && DivisionsFit(program) && ExactValues(program).Some? && j < |program|
               && k < |program|
    requires IsComparison(op) && IsFixnum(ExactValues(program).value[j]) && IsFixnum(ExactValues(program).value[k])
    ensures Words(program).Some?
    ensures Compare(op, Words(program).value[j], Words(program).value[k]) <==>
            ExactCompare(op, ExactValues(program).value[j], ExactValues(program).value[k])
  {
    hide IsFixnum, Tagged, Compare, ExactCompare;
    WordsAreTagged(program);
    CompareRight(op, ExactValues(program).value[j], ExactValues(program).value[k]);
  }
}
