/** What codegen emits for one function, as far as values and roots go: which SSA value
    each temp is bound to at every point, the code built from those bindings, and a machine
    that runs the code under a moving collector. */
module Target {
  import opened Ir
  import opened Cfg
  import opened Machine
  import opened LoopHeaders

  /** SSA values, named by the one place that defines them. */
  datatype Ssa =
    | Arg(index: nat)
    | HomeSeed(param: TempId)
    | HomeLoad(block: nat, param: TempId)
    | Phi(block: nat, index: nat)
    | Value(block: nat, pc: nat)
    | Reload(block: nat, pc: nat, slot: nat)

  type Bindings = map<TempId, Ssa>

  datatype Instr =
    | StoreHome(param: TempId, src: Ssa)
    | LoadHome(dst: Ssa, param: TempId)
    | Spill(slot: nat, src: Ssa)
    | Fetch(dst: Ssa, slot: nat)
    | Poll

  /** The operation itself; the first `slots` frame slots are published to the collector. */
  datatype Op = Op(dst: Option<Ssa>, at: Point, c: Computation, args: seq<Ssa>, slots: nat)

  datatype Chunk = Chunk(before: seq<Instr>, op: Op, after: seq<Instr>)

  datatype Exit =
    | Ret(value: Option<Ssa>)
    | CondBr(cond: Ssa, thenPos: nat, elsePos: nat)
    | Br(pos: nat)

  datatype EmittedBlock = EmittedBlock(phis: nat, prologue: seq<Instr>, body: seq<Chunk>, exit: Exit)

  /** The values a block's phis take on the edge from `source`. */
  datatype Incoming = Incoming(target: nat, source: nat, vals: seq<Ssa>)

  datatype Code = Code(blocks: seq<EmittedBlock>, incoming: seq<Incoming>)

  // ----- bindings -----

  function ReloadNames(i: nat, pc: nat, n: nat): (r: seq<Ssa>)
    ensures |r| == n && forall k :: 0 <= k < n ==> r[k] == Reload(i, pc, k)
  {
    seq(n, k requires 0 <= k < n => Reload(i, pc, k))
  }

  function PhiNames(i: nat, n: nat): (r: seq<Ssa>)
    ensures |r| == n && forall k :: 0 <= k < n ==> r[k] == Phi(i, k)
  {
    seq(n, k requires 0 <= k < n => Phi(i, k))
  }

  /** Pointer-shaped function parameters live in a home cell. */
  predicate HasHome(f: Function, p: TempId) {
    p in f.params && TempType(f.temps, p).NeedsGcProtection()
  }

  /** A home is for a parameter that may hold an object, or is estimated to hold nothing; one
      missing from the table counts as one of unknown type. */
  lemma {:induction false} HomeIffMayHoldObject(f: Function, p: TempId)
    ensures HasHome(f, p) <==>
            p in f.params
            && (TempType(f.temps, p) == Bottom || exists id :: Inhabits(TempType(f.temps, p), Obj(id)))
  {
    ProtectedIffMayHoldObject(TempType(f.temps, p));
  }

  function FirstIndex(s: seq<TempId>, t: TempId): (k: nat)
    requires t in s
    ensures k < |s| && s[k] == t
  {
    if s[0] == t then 0 else 1 + FirstIndex(s[1..], t)
  }

  function SeedName(f: Function, p: TempId): Ssa
    requires p in f.params
  {
    if HasHome(f, p) then HomeSeed(p) else Arg(FirstIndex(f.params, p))
  }

  /** What a block start binds a function parameter to: a fresh load of its home, or the
      argument itself. */
  function ParamName(f: Function, i: nat, p: TempId): Ssa
    requires p in f.params
  {
    if HasHome(f, p) then HomeLoad(i, p) else Arg(FirstIndex(f.params, p))
  }

  function SeedNames(f: Function): (r: seq<Ssa>)
    ensures |r| == |f.params| && forall k :: 0 <= k < |r| ==> r[k] == SeedName(f, f.params[k])
  {
    seq(|f.params|, k requires 0 <= k < |f.params| => SeedName(f, f.params[k]))
  }

  function ParamNames(f: Function, i: nat): (r: seq<Ssa>)
    ensures |r| == |f.params| && forall k :: 0 <= k < |r| ==> r[k] == ParamName(f, i, f.params[k])
  {
    seq(|f.params|, k requires 0 <= k < |f.params| => ParamName(f, i, f.params[k]))
  }

  function RootsOfCall(c: Computation): seq<TempId> {
    if c.IsCallShaped() then c.roots else []
  }

  /** The bindings after emitting a computation: every root rebound to its reload, and the
      result bound. A store's result is the value stored, not a new one. */
  function AfterComputation(c: Computation, i: nat, pc: nat, b: Bindings): Bindings {
    var roots := RootsOfCall(c);
    var b1 := Bind(b, roots, ReloadNames(i, pc, |roots|));
    if c.StoreSlot? then (if c.stored in b1 then b1[c.dst := b1[c.stored]] else b1)
    else b1[c.dst := Value(i, pc)]
  }

  /** The bindings at position `pc`, from those at the start of the block. */
  function Within(block: Block, i: nat, pc: nat, start: Bindings): Bindings
    requires pc <= |block.computations|
  {
    if pc == 0 then start
    else AfterComputation(block.computations[pc - 1], i, pc - 1, Within(block, i, pc - 1, start))
  }

  /** What codegen carries from block to block: the bindings left by the block emitted last,
      and the entry bindings noted for each block so far. */
  datatype Carry = Carry(temps: Bindings, entries: map<BlockId, Bindings>)

  /** Records a predecessor's bindings for a block; what is already there stays. */
  function Note(entries: map<BlockId, Bindings>, id: BlockId, b: Bindings): map<BlockId, Bindings> {
    entries[id := b + if id in entries then entries[id] else map[]]
  }

  function NoteAll(entries: map<BlockId, Bindings>, ids: seq<BlockId>, b: Bindings): map<BlockId, Bindings>
    decreases |ids|
  {
    if ids == [] then entries else NoteAll(Note(entries, ids[0], b), ids[1..], b)
  }

  function SeedTemps(f: Function): Bindings {
    Bind(map[], f.params, SeedNames(f))
  }

  /** The phi bindings of the blocks from `i` on, made before any block is emitted. */
  function WithPhis(blocks: seq<Block>, n: nat, b: Bindings): Bindings
    requires n <= |blocks|
  {
    if n == 0 then b
    else Bind(WithPhis(blocks, n - 1, b), blocks[n - 1].params, PhiNames(n - 1, |blocks[n - 1].params|))
  }

  /** The bindings a block starts with: carried ones, overridden by noted ones, overridden
      by fresh parameter bindings, overridden by the block's own phis. */
  function Install(f: Function, i: nat, carry: Carry): Bindings
    requires i < |f.blocks|
  {
    var block := f.blocks[i];
    var b1 := carry.temps + if block.id in carry.entries then carry.entries[block.id] else map[];
    var b2 := Bind(b1, f.params, ParamNames(f, i));
    Bind(b2, block.params, PhiNames(i, |block.params|))
  }

  /** The carry out of block `i`, given the carry into it. */
  function CarryPast(f: Function, i: nat, carry: Carry): Carry
    requires i < |f.blocks|
  {
    var block := f.blocks[i];
    var exit := Within(block, i, |block.computations|, Install(f, i, carry));
    Carry(exit, NoteAll(carry.entries, block.terminator.Targets(), exit))
  }

  function CarryInto(f: Function, i: nat): Carry
    requires i <= |f.blocks|
  {
    if i == 0 then Carry(WithPhis(f.blocks, |f.blocks|, SeedTemps(f)), map[f.entry := SeedTemps(f)])
    else CarryPast(f, i - 1, CarryInto(f, i - 1))
  }

  function OnEntry(f: Function, i: nat): Bindings
    requires i < |f.blocks|
  {
    Install(f, i, CarryInto(f, i))
  }

  /** The bindings codegen uses at a point. */
  function At(f: Function, i: nat, pc: nat): Bindings
    requires i < |f.blocks| && pc <= |f.blocks[i].computations|
  {
    Within(f.blocks[i], i, pc, OnEntry(f, i))
  }

  function OnExit(f: Function, i: nat): Bindings
    requires i < |f.blocks|
  {
    At(f, i, |f.blocks[i].computations|)
  }

  // ----- the emitted code -----

  /** Codegen refuses computed callees and bare write barriers, and bounds dispatch arity. */
  predicate Supported(c: Computation) {
    !c.Call? && !c.WriteBarrier? && (c.Dispatch? ==> 1 <= |c.args| <= 8)
  }

  predicate Bound(b: Bindings, ts: seq<TempId>) {
    forall t :: t in ts ==> t in b
  }

  function Names(b: Bindings, ts: seq<TempId>): (r: seq<Ssa>)
    requires Bound(b, ts)
    ensures |r| == |ts| && forall k :: 0 <= k < |r| ==> ts[k] in b && r[k] == b[ts[k]]
  {
    if ts == [] then [] else [b[ts[0]]] + Names(b, ts[1..])
  }

  predicate ComputationEmittable(c: Computation, b: Bindings) {
    Supported(c) && Bound(b, c.Operands()) && Bound(b, RootsOfCall(c))
  }

  predicate ExitEmittable(blocks: seq<Block>, t: Terminator, b: Bindings) {
    Bound(b, t.Uses()) && forall id :: id in t.Targets() ==> BlockAt(blocks, id).Some?
  }

  predicate BlockEmittable(f: Function, i: nat)
    requires i < |f.blocks|
  {
    && (forall pc :: 0 <= pc < |f.blocks[i].computations| ==>
          ComputationEmittable(f.blocks[i].computations[pc], At(f, i, pc)))
    && ExitEmittable(f.blocks, f.blocks[i].terminator, OnExit(f, i))
  }

  /** Every temp read is bound where it is read, every target exists, and every computation
      is one codegen supports. */
  predicate Emittable(f: Function) {
    BlockAt(f.blocks, f.entry).Some? && forall i :: 0 <= i < |f.blocks| ==> BlockEmittable(f, i)
  }

  function Spills(names: seq<Ssa>, from: nat): seq<Instr>
    requires from <= |names|
    decreases |names| - from
  {
    if from == |names| then [] else [Spill(from, names[from])] + Spills(names, from + 1)
  }

  /** Each root is reloaded from its slot; a parameter's home gets the reloaded word too. */
  function Fetches(f: Function, i: nat, pc: nat, roots: seq<TempId>, from: nat): seq<Instr>
    requires from <= |roots|
    decreases |roots| - from
  {
    if from == |roots| then []
    else
      [Fetch(Reload(i, pc, from), from)]
      + (if HasHome(f, roots[from]) then [StoreHome(roots[from], Reload(i, pc, from))] else [])
      + Fetches(f, i, pc, roots, from + 1)
  }

  function ChunkOf(f: Function, i: nat, pc: nat, c: Computation, b: Bindings): Chunk
    requires ComputationEmittable(c, b)
  {
    var roots := RootsOfCall(c);
    Chunk(Spills(Names(b, roots), 0),
          Op(if c.StoreSlot? then None else Some(Value(i, pc)), Point(i, pc), c, Names(b, c.Operands()), |roots|),
          Fetches(f, i, pc, roots, 0))
  }

  function SeedStores(f: Function, from: nat): seq<Instr>
    requires from <= |f.params|
    decreases |f.params| - from
  {
    if from == |f.params| then []
    else (if HasHome(f, f.params[from]) then [StoreHome(f.params[from], Arg(from))] else []) + SeedStores(f, from + 1)
  }

  function SeedLoads(f: Function, ps: seq<TempId>): seq<Instr> {
    if ps == [] then []
    else (if HasHome(f, ps[0]) then [LoadHome(HomeSeed(ps[0]), ps[0])] else []) + SeedLoads(f, ps[1..])
  }

  function BlockLoads(f: Function, i: nat, ps: seq<TempId>): seq<Instr> {
    if ps == [] then []
    else (if HasHome(f, ps[0]) then [LoadHome(HomeLoad(i, ps[0]), ps[0])] else []) + BlockLoads(f, i, ps[1..])
  }

  predicate Polled(f: Function, i: nat)
    requires i < |f.blocks|
  {
    f.blocks[i].id == f.entry || IsHeader(f.blocks, f.blocks[i].id)
  }

  function PrologueOf(f: Function, i: nat): seq<Instr>
    requires i < |f.blocks|
  {
    (if BlockAt(f.blocks, f.entry) == Some(i) then SeedStores(f, 0) + SeedLoads(f, f.params) else [])
    + BlockLoads(f, i, f.params)
    + (if Polled(f, i) then [Poll] else [])
  }

  function ChunkAt(f: Function, i: nat, pc: nat): Chunk
    requires i < |f.blocks| && pc < |f.blocks[i].computations| && BlockEmittable(f, i)
  {
    ChunkOf(f, i, pc, f.blocks[i].computations[pc], At(f, i, pc))
  }

  function BodyOf(f: Function, i: nat, n: nat): (r: seq<Chunk>)
    requires i < |f.blocks| && n <= |f.blocks[i].computations| && BlockEmittable(f, i)
    ensures |r| == n
  {
    if n == 0 then [] else BodyOf(f, i, n - 1) + [ChunkAt(f, i, n - 1)]
  }

  lemma {:induction false} BodyIsChunks(f: Function, i: nat, n: nat, pc: nat)
    requires i < |f.blocks| && pc < n <= |f.blocks[i].computations| && BlockEmittable(f, i)
    ensures BodyOf(f, i, n)[pc] == ChunkAt(f, i, pc)
  {
    hide BlockEmittable, ChunkAt;
    if pc < n - 1 {
      BodyIsChunks(f, i, n - 1, pc);
    }
  }

  function ExitOf(blocks: seq<Block>, t: Terminator, b: Bindings): Exit
    requires ExitEmittable(blocks, t, b)
  {
    match t
    case Return(None) => Ret(None)
    case Return(Some(v)) => assert v in t.Uses(); Ret(Some(b[v]))
    case If(c, x, y) =>
      assert c in t.Uses() && x in t.Targets() && y in t.Targets();
      CondBr(b[c], BlockAt(blocks, x).value, BlockAt(blocks, y).value)
    case Jump(x, _) =>
      assert x in t.Targets();
      Br(BlockAt(blocks, x).value)
  }

  /** A jump's arguments are resolved to SSA values when the jump is emitted. */
  function IncomingOf(blocks: seq<Block>, i: nat, t: Terminator, b: Bindings): seq<Incoming>
    requires ExitEmittable(blocks, t, b)
  {
    match t
    case Jump(x, args) =>
      assert x in t.Targets();
      [Incoming(BlockAt(blocks, x).value, i, Names(b, args))]
    case _ => []
  }

  function BlocksOf(f: Function, n: nat): (r: seq<EmittedBlock>)
    requires n <= |f.blocks| && Emittable(f)
    ensures |r| == n
    ensures forall i :: 0 <= i < n ==> r[i] == EmittedOf(f, i)
  {
    seq(n, i requires 0 <= i < n => EmittedOf(f, i))
  }

  function EmittedOf(f: Function, i: nat): EmittedBlock
    requires i < |f.blocks| && Emittable(f)
  {
    assert BlockEmittable(f, i);
    EmittedBlock(|f.blocks[i].params|, PrologueOf(f, i), BodyOf(f, i, |f.blocks[i].computations|),
                 ExitOf(f.blocks, f.blocks[i].terminator, OnExit(f, i)))
  }

  function AllIncoming(f: Function, n: nat): seq<Incoming>
    requires n <= |f.blocks| && Emittable(f)
  {
    if n == 0 then []
    else
      assert BlockEmittable(f, n - 1);
      AllIncoming(f, n - 1) + IncomingOf(f.blocks, n - 1, f.blocks[n - 1].terminator, OnExit(f, n - 1))
  }

  /** Every operation has one SSA argument per operand. */
  ghost predicate OpsFit(code: Code) {
    forall i, pc | 0 <= i < |code.blocks| && 0 <= pc < |code.blocks[i].body| ::
      |code.blocks[i].body[pc].op.args| == |code.blocks[i].body[pc].op.c.Operands()|
  }

  lemma BodiesFit(f: Function)
    requires Emittable(f)
    ensures OpsFit(Code(BlocksOf(f, |f.blocks|), AllIncoming(f, |f.blocks|)))
  {
    hide At, ExitOf;
    var blocks := BlocksOf(f, |f.blocks|);
    forall i, pc | 0 <= i < |blocks| && 0 <= pc < |blocks[i].body|
      ensures |blocks[i].body[pc].op.args| == |blocks[i].body[pc].op.c.Operands()|
    {
      assert BlockEmittable(f, i) && blocks[i] == EmittedOf(f, i);
      BodyIsChunks(f, i, |f.blocks[i].computations|, pc);
    }
  }

  function CodeOf(f: Function): (code: Code)
    requires Emittable(f)
    ensures OpsFit(code)
  {
    BodiesFit(f);
    Code(BlocksOf(f, |f.blocks|), AllIncoming(f, |f.blocks|))
  }

  /** Emitted code polls at least once in any walk over as many edges as there are blocks. */
  lemma {:induction false} LongWalksPoll(f: Function, walk: seq<nat>)
    requires Emittable(f) && IsWalk(f.blocks, walk) && |walk| > |f.blocks|
    ensures exists m :: 0 < m < |walk| && Poll in CodeOf(f).blocks[walk[m]].prologue
  {
    hide BlocksOf, EmittedOf, SeedStores, SeedLoads, BlockLoads, BlockEmittable, AllIncoming, OpsFit, IsHeader;
    LongWalkPassesHeader(f.blocks, walk);
    var m :| 0 < m < |walk| && IsHeader(f.blocks, f.blocks[walk[m]].id);
    PolledPrologue(f, walk[m]);
  }

  /** And on entry. */
  lemma {:induction false} EntryPolls(f: Function)
    requires Emittable(f)
    ensures Poll in CodeOf(f).blocks[BlockAt(f.blocks, f.entry).value].prologue
  {
    hide BlocksOf, EmittedOf, SeedStores, SeedLoads, BlockLoads, BlockEmittable, AllIncoming, OpsFit, IsHeader;
    PolledPrologue(f, BlockAt(f.blocks, f.entry).value);
  }

  lemma PolledPrologue(f: Function, i: nat)
    requires Emittable(f) && i < |f.blocks| && Polled(f, i)
    ensures Poll in CodeOf(f).blocks[i].prologue
  {
    hide SeedStores, SeedLoads, BlockLoads, BlockEmittable, AllIncoming, OpsFit, Polled, BodyOf, ExitOf, OnExit;
    assert CodeOf(f).blocks[i] == EmittedOf(f, i);
    var code := PrologueOf(f, i);
    assert code[|code| - 1] == Poll;
  }

  lemma {:induction false} SeedsDoNotPoll(f: Function, from: nat)
    requires from <= |f.params|
    ensures Poll !in SeedStores(f, from)
    decreases |f.params| - from
  {
    if from < |f.params| {
      SeedsDoNotPoll(f, from + 1);
    }
  }

  lemma {:induction false} LoadsDoNotPoll(f: Function, i: nat, ps: seq<TempId>)
    ensures Poll !in SeedLoads(f, ps) && Poll !in BlockLoads(f, i, ps)
  {
    if ps != [] {
      LoadsDoNotPoll(f, i, ps[1..]);
    }
  }

  lemma {:induction false} SpillsDoNotPoll(names: seq<Ssa>, from: nat)
    requires from <= |names|
    ensures Poll !in Spills(names, from)
    decreases |names| - from
  {
    if from < |names| {
      SpillsDoNotPoll(names, from + 1);
    }
  }

  lemma {:induction false} FetchesDoNotPoll(f: Function, i: nat, pc: nat, roots: seq<TempId>, from: nat)
    requires from <= |roots|
    ensures Poll !in Fetches(f, i, pc, roots, from)
    decreases |roots| - from
  {
    if from < |roots| {
      FetchesDoNotPoll(f, i, pc, roots, from + 1);
    }
  }

  /** A block polls only at its start, and only if it is the entry or some branch to it does
      not go forward; then it does so once, after everything else at the start. */
  lemma {:induction false} PollsExactly(f: Function, i: nat)
    requires Emittable(f) && i < |f.blocks|
    ensures var prologue := CodeOf(f).blocks[i].prologue;
            && (Poll in prologue <==>
                  || f.blocks[i].id == f.entry
                  || exists j :: 0 <= j < |f.blocks| && f.blocks[i].id in f.blocks[j].terminator.Targets()
                         && BlockAt(f.blocks, f.blocks[i].id).Some? && BlockAt(f.blocks, f.blocks[i].id).value <= j)
            && (Poll in prologue ==> prologue[|prologue| - 1] == Poll && Poll !in prologue[..|prologue| - 1])
    ensures forall pc :: 0 <= pc < |CodeOf(f).blocks[i].body| ==>
              Poll !in CodeOf(f).blocks[i].body[pc].before && Poll !in CodeOf(f).blocks[i].body[pc].after
  {
    hide SeedStores, SeedLoads, BlockLoads, AllIncoming, OpsFit, ExitOf, OnExit, Spills, Fetches, Names,
      ComputationEmittable, At;
    assert CodeOf(f).blocks[i] == EmittedOf(f, i);
    SeedsDoNotPoll(f, 0);
    LoadsDoNotPoll(f, i, f.params);
    var start := (if BlockAt(f.blocks, f.entry) == Some(i) then SeedStores(f, 0) + SeedLoads(f, f.params) else [])
         + BlockLoads(f, i, f.params);
    assert Poll !in start;
    assert PrologueOf(f, i) == start + if Polled(f, i) then [Poll] else [];
    forall pc | 0 <= pc < |f.blocks[i].computations|
      ensures Poll !in CodeOf(f).blocks[i].body[pc].before && Poll !in CodeOf(f).blocks[i].body[pc].after
    {
      assert BlockEmittable(f, i);
      ChunkDoesNotPoll(f, i, pc);
    }
  }

  lemma ChunkDoesNotPoll(f: Function, i: nat, pc: nat)
    requires i < |f.blocks| && pc < |f.blocks[i].computations| && BlockEmittable(f, i)
    ensures var chunk := BodyOf(f, i, |f.blocks[i].computations|)[pc]; Poll !in chunk.before && Poll !in chunk.after
  {
    hide Spills, Fetches, Names, At;
    var c, b := f.blocks[i].computations[pc], At(f, i, pc);
    BodyIsChunks(f, i, |f.blocks[i].computations|, pc);
    SpillsDoNotPoll(Names(b, RootsOfCall(c)), 0);
    FetchesDoNotPoll(f, i, pc, RootsOfCall(c), 0);
  }

  // ----- the machine that runs it -----

  /** SSA values, home cells and frame slots of one activation. */
  datatype Frame = Frame(ssa: map<Ssa, Word>, homes: map<TempId, Word>, slots: map<nat, Word>)

  function RunInstr(x: Instr, r: Frame): Option<Frame> {
    match x
    case StoreHome(p, src) => if src in r.ssa then Some(r.(homes := r.homes[p := r.ssa[src]])) else None
    case LoadHome(dst, p) => if p in r.homes then Some(r.(ssa := r.ssa[dst := r.homes[p]])) else None
    case Spill(k, src) => if src in r.ssa then Some(r.(slots := r.slots[k := r.ssa[src]])) else None
    case Fetch(dst, k) => if k in r.slots then Some(r.(ssa := r.ssa[dst := r.slots[k]])) else None
    case Poll => Some(r)
  }

  function RunInstrs(xs: seq<Instr>, r: Frame): Option<Frame> {
    if xs == [] then Some(r)
    else match RunInstr(xs[0], r)
      case None => None
      case Some(r') => RunInstrs(xs[1..], r')
  }

  function SlotIndices(n: nat): (r: seq<nat>)
    ensures |r| == n && forall k :: 0 <= k < n ==> r[k] == k
  {
    seq(n, k requires 0 <= k < n => k)
  }

  /** The collector rewrites the published slots and nothing else. */
  ghost function ForwardSlots(slots: map<nat, Word>, n: nat, l: Layout, l': Layout): Option<map<nat, Word>> {
    match ReadVals(l, slots, SlotIndices(n))
    case None => None
    case Some(vs) =>
      match EncodeAll(l', vs)
      case None => None
      case Some(ws) => Some(Bind(slots, SlotIndices(n), ws))
  }

  datatype TState =
    | TRunning(at: Point, frame: Frame, layout: Layout, hist: seq<Event>)
    | TReturned(result: Option<Val>, hist: seq<Event>)

  ghost predicate IsCodePoint(code: Code, p: Point) {
    p.block < |code.blocks| && p.pc <= |code.blocks[p.block].body|
  }

  function FindIncoming(incoming: seq<Incoming>, source: nat, target: nat): Option<seq<Ssa>> {
    if incoming == [] then None
    else if incoming[0].source == source && incoming[0].target == target then Some(incoming[0].vals)
    else FindIncoming(incoming[1..], source, target)
  }

  /** Taking an edge: all phis at once, then the block's prologue. */
  ghost function TEnter(code: Code, s: TState, j: nat): Option<TState>
    requires s.TRunning?
  {
    if j >= |code.blocks| then None
    else
      var n := code.blocks[j].phis;
      var names := if n == 0 then Some([]) else FindIncoming(code.incoming, s.at.block, j);
      match names
      case None => None
      case Some(names) =>
        match ReadAll(s.frame.ssa, names)
        case None => None
        case Some(ws) =>
          if |ws| != n then None
          else match RunInstrs(code.blocks[j].prologue, s.frame.(ssa := Bind(s.frame.ssa, PhiNames(j, n), ws)))
            case None => None
            case Some(frame) => Some(TRunning(Point(j, 0), frame, s.layout, s.hist))
  }

  /** The operation of a chunk, its spills done: `l'` is the layout after it. */
  ghost function RunOp(env: Environment, op: Op, frame: Frame, l: Layout, hist: seq<Event>, l': Layout)
    : Option<(Frame, Event)>
    requires |op.args| == |op.c.Operands()|
  {
    match ReadVals(l, frame.ssa, op.args)
    case None => None
    case Some(vs) =>
      var r := Answer(env, op.c, hist, op.at, vs);
      var slots := if op.c.IsPotentiallyAllocatingCall() then ForwardSlots(frame.slots, op.slots, l, l')
          else Some(frame.slots);
      match (slots, Encode(l', r))
      case (Some(slots), Some(w)) =>
        var ssa := if op.dst.Some? then frame.ssa[op.dst.value := w] else frame.ssa;
        Some((Frame(ssa, frame.homes, slots), Event(op.at, vs, r)))
      case _ => None
  }

  /** One step of the emitted code: a chunk, or an exit together with the next block's
      phis and prologue. `None` is a stale or undefined read. */
  ghost function TStep(code: Code, env: Environment, s: TState, l': Layout): Option<TState>
    requires OpsFit(code) && (s.TRunning? ==> IsCodePoint(code, s.at))
  {
    if s.TReturned? then Some(s)
    else
      var b := code.blocks[s.at.block];
      if s.at.pc < |b.body| then
        var chunk := b.body[s.at.pc];
        match RunInstrs(chunk.before, s.frame)
        case None => None
        case Some(spilled) =>
          match RunOp(env, chunk.op, spilled, s.layout, s.hist, l')
          case None => None
          case Some((done, event)) =>
            match RunInstrs(chunk.after, done)
            case None => None
            case Some(frame) => Some(TRunning(Point(s.at.block, s.at.pc + 1), frame, l', s.hist + [event]))
      else match b.exit
        case Ret(None) => Some(TReturned(None, s.hist))
        case Ret(Some(v)) =>
          (match ReadVals(s.layout, s.frame.ssa, [v])
           case None => None
           case Some(vs) => Some(TReturned(Some(vs[0]), s.hist)))
        case CondBr(c, x, y) =>
          (match ReadVals(s.layout, s.frame.ssa, [c])
           case None => None
           case Some(vs) => TEnter(code, s, if vs[0] != Imm(env.falseWord) then x else y))
        case Br(x) => TEnter(code, s, x)
  }

  /** The layouts the collector may choose: as for the moving machine, with the published
      slots as the roots. */
  ghost predicate TLegal(code: Code, env: Environment, s: TState, l': Layout)
    requires OpsFit(code) && (s.TRunning? ==> IsCodePoint(code, s.at))
  {
    s.TRunning? ==>
      && Injective(l')
      && if s.at.pc == |code.blocks[s.at.block].body| then l' == s.layout
         else
           var chunk := code.blocks[s.at.block].body[s.at.pc];
           match RunInstrs(chunk.before, s.frame)
           case None => true
           case Some(spilled) =>
             match ReadVals(s.layout, spilled.ssa, chunk.op.args)
             case None => true
             case Some(vs) =>
               && Covers(l', [Answer(env, chunk.op.c, s.hist, chunk.op.at, vs)])
               && if chunk.op.c.IsPotentiallyAllocatingCall()
                  then forall rs :: ReadVals(s.layout, spilled.slots, SlotIndices(chunk.op.slots)) == Some(rs) ==>
                      Covers(l', rs)
                  else forall id :: id in s.layout ==> id in l' && l'[id] == s.layout[id]
  }

  ghost predicate StaysInCode(code: Code, s: TState) {
    s.TRunning? ==> IsCodePoint(code, s.at)
  }

  ghost function TRun(code: Code, env: Environment, s: TState, schedule: seq<Layout>): Option<TState>
    requires OpsFit(code) && StaysInCode(code, s)
    decreases |schedule|
  {
    if schedule == [] then Some(s)
    else match TStep(code, env, s, schedule[0])
      case None => None
      case Some(s') => TRun(code, env, s', schedule[1..])
  }

  ghost predicate TLegalSchedule(code: Code, env: Environment, s: TState, schedule: seq<Layout>)
    requires OpsFit(code) && StaysInCode(code, s)
    decreases |schedule|
  {
    schedule != [] ==>
      && TLegal(code, env, s, schedule[0])
      && match TStep(code, env, s, schedule[0])
         case None => true
         case Some(s') => TLegalSchedule(code, env, s', schedule[1..])
  }
}
