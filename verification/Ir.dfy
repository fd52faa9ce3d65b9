/** The DFM intermediate representation: functions made of blocks, blocks made of
    computations and one terminator, values passed between blocks as block parameters. */
module Ir {

  datatype Option<+T> = None | Some(value: T)

  type U32 = n: int | 0 <= n < 0x1_0000_0000
  type U64 = n: int | 0 <= n < 0x1_0000_0000_0000_0000
  type U8 = n: int | 0 <= n < 0x100
  type I128 = n: int | -0x8000_0000_0000_0000_0000_0000_0000_0000 <= n < 0x8000_0000_0000_0000_0000_0000_0000_0000

  type TempId = U32
  type BlockId = U32

  datatype TypeEstimate =
    | Top
    | Bottom
    | Integer
    | SingleFloat
    | DoubleFloat
    | Character
    | Boolean
    | String
    | Unit
    | Class(classId: U32)
    | Singleton(bits: U64)
  {
    /** Immediate estimates never hold a movable pointer; all the others may. */
    predicate NeedsGcProtection() {
      match this
      case Integer | Boolean | Character | SingleFloat | DoubleFloat | Unit => false
      case String | Top | Bottom | Class(_) | Singleton(_) => true
    }
  }

  datatype SlotTypeKind = IntegerSlot | ObjectSlot

  datatype ClassCheck =
    | IsInteger
    | IsBoolean
    | IsString
    | IsSymbol
    | IsVector
    | IsCharacter
    | IsEmptyList
    | UserClass(id: U32, name: string)
    | VectorOrUserClass(id: U32, name: string)
    | Unsupported(name: string)

  datatype ConstValue =
    | IntegerConst(i: I128)
    | BoolConst(b: bool)
    | StringConst(s: string)
    | CharConst(c: char)
    | UnitConst
    | WordBits(bits: U64)
    | ClassMetadataPtr(classId: U32, tagged: bool)
    | StringLiteralRef(s: string)
    | SymbolLiteralRef(s: string)
    | StubEntryRef(dll: string, symbol: string, signature: seq<U8>)

  datatype PrimOp =
    | AddInt | SubInt | MulInt | DivInt | ModInt | RemInt | NegInt
    | AddFloat | SubFloat | MulFloat | DivFloat | NegFloat
    | IntToFloat | StripTag
    | EqInt | NeInt | LtInt | GtInt | LeInt | GeInt
    | EqFloat | LtFloat | GtFloat | LeFloat | GeFloat
    | BoolAnd | BoolOr | BoolNot

  function Rename<T(==)>(x: T, t: T, u: T): T { if x == t then u else x }

  function RenameAll<T(==)>(xs: seq<T>, t: T, u: T): seq<T> {
    seq(|xs|, k requires 0 <= k < |xs| => Rename(xs[k], t, u))
  }

  datatype Computation =
    | Const(dst: TempId, value: ConstValue)
    | Prim(dst: TempId, op: PrimOp, args: seq<TempId>)
    | DirectCall(dst: TempId, callee: string, args: seq<TempId>, roots: seq<TempId>, noAlloc: bool)
    | Call(dst: TempId, calleeTemp: TempId, args: seq<TempId>, roots: seq<TempId>)
    | TypeCheck(dst: TempId, subject: TempId, cls: ClassCheck)
    | WriteBarrier(dst: TempId, slot: TempId, stored: TempId)
    | LoadSlot(dst: TempId, instance: TempId, offset: U64, kind: SlotTypeKind)
    | StoreSlot(dst: TempId, instance: TempId, offset: U64, stored: TempId, kind: SlotTypeKind)
    | Dispatch(dst: TempId, generic: string, args: seq<TempId>, roots: seq<TempId>)
    | SealedDirectCall(dst: TempId, callee: string, fallbackChain: seq<string>, generic: string,
                       args: seq<TempId>, roots: seq<TempId>, noAlloc: bool)
  {
    /** The four call shapes carry a root list. */
    predicate IsCallShaped() {
      DirectCall? || Call? || Dispatch? || SealedDirectCall?
    }

    predicate IsPotentiallyAllocatingCall() {
      match this
      case DirectCall(_, _, _, _, noAlloc) => !noAlloc
      case SealedDirectCall(_, _, _, _, _, _, noAlloc) => !noAlloc
      case Call(_, _, _, _) => true
      case Dispatch(_, _, _, _) => true
      case _ => false
    }

    /** The temps read, in reading order. */
    function Operands(): seq<TempId> {
      match this
      case Const(_, _) => []
      case Prim(_, _, args) => args
      case DirectCall(_, _, args, _, _) => args
      case Call(_, callee, args, _) => [callee] + args
      case TypeCheck(_, subject, _) => [subject]
      case WriteBarrier(_, slot, stored) => [slot, stored]
      case LoadSlot(_, instance, _, _) => [instance]
      case StoreSlot(_, instance, _, stored, _) => [instance, stored]
      case Dispatch(_, _, args, _) => args
      case SealedDirectCall(_, _, _, _, args, _, _) => args
    }

    /** A call the front end has marked as one that cannot allocate. */
    predicate FlaggedNoAlloc() {
      (DirectCall? || SealedDirectCall?) && noAlloc
    }

    /** The same computation over other temps: every field that names a temp, the result and
        the root list apart, has `t` replaced by `u`. */
    function Renamed(t: TempId, u: TempId): Computation {
      match this
      case Const(_, _) => this
      case TypeCheck(_, subject, cls) => TypeCheck(dst, Rename(subject, t, u), cls)
      case WriteBarrier(_, slot, stored) => WriteBarrier(dst, Rename(slot, t, u), Rename(stored, t, u))
      case LoadSlot(_, instance, offset, kind) => LoadSlot(dst, Rename(instance, t, u), offset, kind)
      case StoreSlot(_, instance, offset, stored, kind) =>
        StoreSlot(dst, Rename(instance, t, u), offset, Rename(stored, t, u), kind)
      case Call(_, calleeTemp, args, roots) => Call(dst, Rename(calleeTemp, t, u), RenameAll(args, t, u), roots)
      case Prim(_, op, args) => Prim(dst, op, RenameAll(args, t, u))
      case DirectCall(_, callee, args, roots, noAlloc) =>
        DirectCall(dst, callee, RenameAll(args, t, u), roots, noAlloc)
      case Dispatch(_, generic, args, roots) => Dispatch(dst, generic, RenameAll(args, t, u), roots)
      case SealedDirectCall(_, callee, chain, generic, args, roots, noAlloc) =>
        SealedDirectCall(dst, callee, chain, generic, RenameAll(args, t, u), roots, noAlloc)
    }

    /** The fields that name temps, the result and the root list apart, filled from `ts`, in
        the order the constructor declares them. */
    function Filled(ts: seq<TempId>): Computation
      requires |ts| == |Operands()|
    {
      match this
      case Const(_, _) => this
      case TypeCheck(_, _, cls) => TypeCheck(dst, ts[0], cls)
      case WriteBarrier(_, _, _) => WriteBarrier(dst, ts[0], ts[1])
      case LoadSlot(_, _, offset, kind) => LoadSlot(dst, ts[0], offset, kind)
      case StoreSlot(_, _, offset, _, kind) => StoreSlot(dst, ts[0], offset, ts[1], kind)
      case Call(_, _, _, roots) => Call(dst, ts[0], ts[1..], roots)
      case Prim(_, op, _) => Prim(dst, op, ts)
      case DirectCall(_, callee, _, roots, noAlloc) => DirectCall(dst, callee, ts, roots, noAlloc)
      case Dispatch(_, generic, _, roots) => Dispatch(dst, generic, ts, roots)
      case SealedDirectCall(_, callee, chain, generic, _, roots, noAlloc) =>
        SealedDirectCall(dst, callee, chain, generic, ts, roots, noAlloc)
    }
  }

  /** A temp is an operand exactly when renaming it in the computation's fields changes the
      computation. */
  lemma {:induction false} OperandIffRenamed(c: Computation, t: TempId, u: TempId)
    requires t != u
    ensures t in c.Operands() <==> c.Renamed(t, u) != c
  {
    hide RenameAll;
    if c.Prim? || c.DirectCall? || c.Dispatch? || c.SealedDirectCall? || c.Call? {
      RenamedIffIn(c.args, t, u);
    }
  }

  lemma RenamedIffIn<T>(xs: seq<T>, t: T, u: T)
    requires t != u
    ensures t in xs <==> RenameAll(xs, t, u) != xs
  {
    if t in xs {
      var k :| 0 <= k < |xs| && xs[k] == t;
      assert RenameAll(xs, t, u)[k] != xs[k];
    } else {
      assert RenameAll(xs, t, u) == xs;
    }
  }

  /** The operands are read in the order the fields stand in, each as often as it stands
      there: writing temps into the fields and reading them gives the temps back, and the
      fields written with the computation's own operands are the computation. Two
      computations that differ in nothing but those fields are equal when their operands
      are. */
  lemma {:induction false} OperandsFillFields(c: Computation, ts: seq<TempId>)
    requires |ts| == |c.Operands()|
    ensures c.Filled(ts).Operands() == ts
    ensures c.Filled(c.Operands()) == c
    ensures forall d: Computation ::
              |d.Operands()| == |ts| && d.Filled(ts) == c.Filled(ts) && d.Operands() == c.Operands() ==> d == c
  {
    forall d: Computation | |d.Operands()| == |ts| && d.Filled(ts) == c.Filled(ts) && d.Operands() == c.Operands()
      ensures d == c
    {
      assert c.Call? ==> c.args == c.Operands()[1..] && d.args == d.Operands()[1..];
    }
    assert c.Call? ==> c.args == c.Operands()[1..];
  }

  /** The calls that may allocate are the four call shapes without the mark that two of them
      can carry. */
  lemma MayAllocateIff(c: Computation)
    ensures c.IsPotentiallyAllocatingCall() <==>
            (c.DirectCall? || c.Call? || c.Dispatch? || c.SealedDirectCall?) && !c.FlaggedNoAlloc()
  {
  }

  datatype Terminator =
    | Return(result: Option<TempId>)
    | If(cond: TempId, thenBlock: BlockId, elseBlock: BlockId)
    | Jump(target: BlockId, args: seq<TempId>)
  {
    function Uses(): seq<TempId> {
      match this
      case Return(Some(t)) => [t]
      case Return(None) => []
      case If(cond, _, _) => [cond]
      case Jump(_, args) => args
    }

    function Targets(): seq<BlockId> {
      match this
      case Return(_) => []
      case If(_, t, e) => [t, e]
      case Jump(t, _) => [t]
    }

    /** The same exit over other temps. */
    function Renamed(t: TempId, u: TempId): Terminator {
      match this
      case Return(None) => this
      case Return(Some(r)) => Return(Some(Rename(r, t, u)))
      case If(cond, a, b) => If(Rename(cond, t, u), a, b)
      case Jump(target, args) => Jump(target, RenameAll(args, t, u))
    }

    /** The same exit to other blocks. */
    function Retargeted(b: BlockId, d: BlockId): Terminator {
      match this
      case Return(_) => this
      case If(cond, a, e) => If(cond, Rename(a, b, d), Rename(e, b, d))
      case Jump(target, args) => Jump(Rename(target, b, d), args)
    }

    /** The fields that name temps and those that name blocks, each filled in order. */
    function Filled(ts: seq<TempId>, bs: seq<BlockId>): Terminator
      requires |ts| == |Uses()| && |bs| == |Targets()|
    {
      match this
      case Return(None) => this
      case Return(Some(_)) => Return(Some(ts[0]))
      case If(_, _, _) => If(ts[0], bs[0], bs[1])
      case Jump(_, _) => Jump(bs[0], ts)
    }
  }

  /** The temps an exit reads and the blocks it goes to are those its fields name. */
  lemma {:induction false} UsesAndTargetsIffRenamed(x: Terminator, t: TempId, u: TempId, b: BlockId, d: BlockId)
    requires t != u && b != d
    ensures t in x.Uses() <==> x.Renamed(t, u) != x
    ensures b in x.Targets() <==> x.Retargeted(b, d) != x
  {
    if x.Jump? {
      RenamedIffIn(x.args, t, u);
    }
  }

  /** In the order the fields stand in, each as often as it stands there. */
  lemma {:induction false} UsesAndTargetsFillFields(x: Terminator, ts: seq<TempId>, bs: seq<BlockId>)
    requires |ts| == |x.Uses()| && |bs| == |x.Targets()|
    ensures x.Filled(ts, bs).Uses() == ts && x.Filled(ts, bs).Targets() == bs
    ensures x.Filled(x.Uses(), x.Targets()) == x
  {
    if x.Return? && x.result.Some? {
      assert ts == [ts[0]];
    }
  }

  datatype Block = Block(id: BlockId, name: string, params: seq<TempId>,
                         computations: seq<Computation>, terminator: Terminator)

  datatype Temporary = Temporary(id: TempId, estimate: TypeEstimate)

  datatype Function = Function(id: U32, name: string, params: seq<TempId>, entry: BlockId,
                               blocks: seq<Block>, temps: seq<Temporary>, returnType: TypeEstimate)

  /** The first table entry for `t` decides its type; a temp that has none is `Top`. */
  function TempType(temps: seq<Temporary>, t: TempId): TypeEstimate {
    if temps == [] then Top
    else if temps[0].id == t then temps[0].estimate
    else TempType(temps[1..], t)
  }

  /** The hash table built from the temp list; the last entry for an id wins. */
  function TypeTable(temps: seq<Temporary>): map<TempId, TypeEstimate> {
    if temps == [] then map[]
    else
      var last := temps[|temps| - 1];
      TypeTable(temps[..|temps| - 1])[last.id := last.estimate]
  }

  /** Which entry each lookup takes, ids repeated or not: the table the last, the scan the
      first. */
  lemma {:induction false} LookupsTake(temps: seq<Temporary>, t: TempId)
    ensures t in TypeTable(temps) <==> exists i :: 0 <= i < |temps| && temps[i].id == t
    ensures forall i :: 0 <= i < |temps| && temps[i].id == t && (forall j :: i < j < |temps| ==> temps[j].id != t) ==>
              TypeTable(temps)[t] == temps[i].estimate
    ensures forall i :: 0 <= i < |temps| && temps[i].id == t && (forall j :: 0 <= j < i ==> temps[j].id != t) ==>
              TempType(temps, t) == temps[i].estimate
    ensures (forall i :: 0 <= i < |temps| ==> temps[i].id != t) ==> TempType(temps, t) == Top
  {
    TableTakesLast(temps, t);
    ScanTakesFirst(temps, t);
  }

  lemma {:induction false} TableTakesLast(temps: seq<Temporary>, t: TempId)
    ensures t in TypeTable(temps) <==> exists i :: 0 <= i < |temps| && temps[i].id == t
    ensures forall i :: 0 <= i < |temps| && temps[i].id == t && (forall j :: i < j < |temps| ==> temps[j].id != t) ==>
              TypeTable(temps)[t] == temps[i].estimate
  {
    if temps != [] {
      var n := |temps| - 1;
      var front := temps[..n];
      TableTakesLast(front, t);
      assert TypeTable(temps) == TypeTable(front)[temps[n].id := temps[n].estimate];
      hide TypeTable;
      forall i | 0 <= i < |temps| && temps[i].id == t && (forall j :: i < j < |temps| ==> temps[j].id != t)
        ensures TypeTable(temps)[t] == temps[i].estimate
      {
        assert i < n ==> front[i] == temps[i] && forall j :: i < j < n ==> front[j] == temps[j];
      }
      if t in TypeTable(front) {
        var i :| 0 <= i < n && front[i].id == t;
        assert temps[i].id == t;
      }
      if i :| 0 <= i < n && temps[i].id == t {
        assert front[i].id == t;
      }
    }
  }

  lemma {:induction false} ScanTakesFirst(temps: seq<Temporary>, t: TempId)
    ensures forall i :: 0 <= i < |temps| && temps[i].id == t && (forall j :: 0 <= j < i ==> temps[j].id != t) ==>
              TempType(temps, t) == temps[i].estimate
    ensures (forall i :: 0 <= i < |temps| ==> temps[i].id != t) ==> TempType(temps, t) == Top
  {
    if temps != [] && temps[0].id != t {
      var rest := temps[1..];
      ScanTakesFirst(rest, t);
      forall i | 0 <= i < |temps| && temps[i].id == t && (forall j :: 0 <= j < i ==> temps[j].id != t)
        ensures TempType(temps, t) == temps[i].estimate
      {
        assert rest[i - 1] == temps[i];
        assert forall j :: 0 <= j < i - 1 ==> rest[j] == temps[j + 1];
      }
    }
  }

  /** The position of each block id; the last block with an id wins. */
  function IdToIdx(blocks: seq<Block>): map<BlockId, nat> {
    if blocks == [] then map[]
    else
      var n := |blocks| - 1;
      IdToIdx(blocks[..n])[blocks[n].id := n]
  }

  lemma {:induction false} IdToIdxFinds(blocks: seq<Block>, id: BlockId)
    ensures id in IdToIdx(blocks) ==> IdToIdx(blocks)[id] < |blocks| && blocks[IdToIdx(blocks)[id]].id == id
    ensures forall i :: 0 <= i < |blocks| && blocks[i].id == id ==> id in IdToIdx(blocks) && i <= IdToIdx(blocks)[id]
  {
    if blocks != [] {
      IdToIdxFinds(blocks[..|blocks| - 1], id);
    }
  }

  function BlockAt(blocks: seq<Block>, id: BlockId): (r: Option<nat>)
    ensures r.Some? ==> r.value < |blocks| && blocks[r.value].id == id
  {
    IdToIdxFinds(blocks, id);
    if id in IdToIdx(blocks) then Some(IdToIdx(blocks)[id]) else None
  }

  ghost predicate UniqueBlockIds(blocks: seq<Block>) {
    forall i, j :: 0 <= i < j < |blocks| ==> blocks[i].id != blocks[j].id
  }

  ghost predicate UniqueTempIds(temps: seq<Temporary>) {
    forall i, j :: 0 <= i < j < |temps| ==> temps[i].id != temps[j].id
  }

  /** The two lookups of the temp table, first match and hash table, agree as long as
      no id is listed twice, except that a missing temp is `Top` for the first. */
  lemma {:induction false} TempLookupsAgree(temps: seq<Temporary>, t: TempId)
    requires UniqueTempIds(temps)
    ensures TempType(temps, t) == if t in TypeTable(temps) then TypeTable(temps)[t] else Top
    ensures t in TypeTable(temps) <==> exists i :: 0 <= i < |temps| && temps[i].id == t
  {
    if temps != [] {
      var n := |temps| - 1;
      var front := temps[..n];
      TempLookupsAgree(front, t);
      TempTypeSnoc(front, temps[n], t);
      assert temps == front + [temps[n]];
      if exists i :: 0 <= i < |temps| && temps[i].id == t {
        var i :| 0 <= i < |temps| && temps[i].id == t;
        assert i < n ==> front[i].id == t;
      }
    }
  }

  lemma {:induction false} TempTypeSnoc(front: seq<Temporary>, last: Temporary, t: TempId)
    ensures TempType(front + [last], t) ==
            if (exists i :: 0 <= i < |front| && front[i].id == t) then TempType(front, t)
            else if last.id == t then last.estimate else Top
  {
    if front == [] {
      assert front + [last] == [last];
      assert [last][1..] == [];
    } else {
      assert (front + [last])[1..] == front[1..] + [last];
      if front[0].id != t {
        TempTypeSnoc(front[1..], last, t);
        if exists i :: 0 <= i < |front| && front[i].id == t {
          var i :| 0 <= i < |front| && front[i].id == t;
          assert front[1..][i - 1].id == t;
        }
      }
    }
  }
}
