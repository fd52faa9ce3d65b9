/** Code generation as it is done: one object per function whose fields change as blocks,
    computations and terminators are emitted, and a module-wide counter and list of
    safepoint sites. Proved to build exactly the code the bindings describe. */
module Emit {
  import opened Ir
  import opened Cfg
  import opened Machine
  import opened LoopHeaders
  import opened Target
  import opened Binding

  datatype SafepointKind = DirectCallKind | DispatchKind | SealedDirectCallKind

  datatype RootSlot = RootSlot(temp: TempId, slot: nat)

  /** Where the collector finds the roots of one call site: frame slots by index. */
  datatype SitePlan = SitePlan(id: nat, kind: SafepointKind, owner: string, blockLabel: string,
                               computation: nat, roots: seq<RootSlot>)

  datatype EmitError =
    | IndirectCallNotSupported
    | WriteBarrierNotEmitted
    | DispatchArity(arity: nat)
    | CalleeRefused(callee: string)
    | UndefinedTemp(t: TempId)
    | UndefinedBlock(b: BlockId)

  datatype Result<+T> = Ok(value: T) | Err(error: EmitError)

  // ----- the plan -----

  function PlannedKind(c: Computation): SafepointKind
    requires c.IsCallShaped()
  {
    match c
    case Dispatch(_, _, _, _) => DispatchKind
    case SealedDirectCall(_, _, _, _, _, _, _) => SealedDirectCallKind
    case _ => DirectCallKind
  }

  /** Slots are handed out in root order. */
  function RootSlots(roots: seq<TempId>): (r: seq<RootSlot>)
    ensures |r| == |roots| && forall k :: 0 <= k < |r| ==> r[k] == RootSlot(roots[k], k)
  {
    seq(|roots|, k requires 0 <= k < |roots| => RootSlot(roots[k], k))
  }

  function PlanOf(f: Function, i: nat, pc: nat, id: nat): SitePlan
    requires i < |f.blocks| && pc < |f.blocks[i].computations| && f.blocks[i].computations[pc].IsCallShaped()
  {
    var c := f.blocks[i].computations[pc];
    SitePlan(id, PlannedKind(c), f.name, f.blocks[i].name, pc, RootSlots(c.roots))
  }

  /** The plans of the first `n` computations of block `i`, numbered from `id`. */
  function BlockPlans(f: Function, i: nat, n: nat, id: nat): seq<SitePlan>
    requires i < |f.blocks| && n <= |f.blocks[i].computations|
  {
    if n == 0 then []
    else
      var before := BlockPlans(f, i, n - 1, id);
      if f.blocks[i].computations[n - 1].IsCallShaped() then before + [PlanOf(f, i, n - 1, id + |before|)] else before
  }

  function FunctionPlans(f: Function, n: nat, id: nat): seq<SitePlan>
    requires n <= |f.blocks|
  {
    if n == 0 then []
    else
      var before := FunctionPlans(f, n - 1, id);
      before + BlockPlans(f, n - 1, |f.blocks[n - 1].computations|, id + |before|)
  }

  function ModulePlans(fns: seq<Function>, n: nat): seq<SitePlan>
    requires n <= |fns|
  {
    if n == 0 then []
    else
      var before := ModulePlans(fns, n - 1);
      before + FunctionPlans(fns[n - 1], |fns[n - 1].blocks|, |before|)
  }

  /** The planner: one walk over the functions, minting site ids as it goes. */
  method PlanSafepoints(fns: seq<Function>) returns (out: seq<SitePlan>)
    ensures out == ModulePlans(fns, |fns|)
  {
    out := [];
    var nextSiteId := 0;
    for k := 0 to |fns|
      invariant out == ModulePlans(fns, k) && nextSiteId == |out|
    {
      var f := fns[k];
      ghost var ofModules := out;
      for i := 0 to |f.blocks|
        invariant out == ofModules + FunctionPlans(f, i, |ofModules|) && nextSiteId == |out|
      {
        ghost var ofBlocks := out;
        for pc := 0 to |f.blocks[i].computations|
          invariant out == ofBlocks + BlockPlans(f, i, pc, |ofBlocks|) && nextSiteId == |out|
        {
          var c := f.blocks[i].computations[pc];
          if c.IsCallShaped() {
            var roots := [];
            for slot := 0 to |c.roots|
              invariant roots == RootSlots(c.roots)[..slot]
            {
              roots := roots + [RootSlot(c.roots[slot], slot)];
            }
            assert roots == RootSlots(c.roots);
            assert nextSiteId == |ofBlocks| + |BlockPlans(f, i, pc, |ofBlocks|)|;
            out := out + [SitePlan(nextSiteId, PlannedKind(c), f.name, f.blocks[i].name, pc, roots)];
            nextSiteId := nextSiteId + 1;
          }
        }
      }
    }
  }

  // ----- the emitter -----

  /** The largest number of roots at one call. */
  function MaxSlotsIn(cs: seq<Computation>): nat {
    if cs == [] then 0
    else
      var rest := MaxSlotsIn(cs[..|cs| - 1]);
      var here := |RootsOfCall(cs[|cs| - 1])|;
      if here > rest then here else rest
  }

  function MaxSlots(blocks: seq<Block>): nat {
    if blocks == [] then 0
    else
      var rest := MaxSlots(blocks[..|blocks| - 1]);
      var here := MaxSlotsIn(blocks[|blocks| - 1].computations);
      if here > rest then here else rest
  }

  lemma {:induction false} SlotsBounded(blocks: seq<Block>, i: nat, pc: nat)
    requires i < |blocks| && pc < |blocks[i].computations|
    ensures |RootsOfCall(blocks[i].computations[pc])| <= MaxSlots(blocks)
  {
    if i < |blocks| - 1 {
      SlotsBounded(blocks[..|blocks| - 1], i, pc);
    } else {
      SlotsBoundedIn(blocks[i].computations, pc);
    }
  }

  lemma {:induction false} SlotsBoundedIn(cs: seq<Computation>, pc: nat)
    requires pc < |cs|
    ensures |RootsOfCall(cs[pc])| <= MaxSlotsIn(cs)
  {
    if pc < |cs| - 1 {
      SlotsBoundedIn(cs[..|cs| - 1], pc);
    }
  }

  /** Binding one more name. */
  /** And some call needs all of it, unless none has a root. */
  lemma {:induction false} SlotsAttained(blocks: seq<Block>) returns (i: nat, pc: nat)
    requires MaxSlots(blocks) > 0
    ensures i < |blocks| && pc < |blocks[i].computations|
    ensures |RootsOfCall(blocks[i].computations[pc])| == MaxSlots(blocks)
  {
    hide RootsOfCall;
    var n := |blocks| - 1;
    if MaxSlotsIn(blocks[n].computations) == MaxSlots(blocks) {
      i := n;
      pc := SlotsAttainedIn(blocks[n].computations);
    } else {
      i, pc := SlotsAttained(blocks[..n]);
    }
  }

  lemma {:induction false} SlotsAttainedIn(cs: seq<Computation>) returns (pc: nat)
    requires MaxSlotsIn(cs) > 0
    ensures pc < |cs| && |RootsOfCall(cs[pc])| == MaxSlotsIn(cs)
  {
    hide RootsOfCall;
    var n := |cs| - 1;
    pc := n;
    if |RootsOfCall(cs[n])| != MaxSlotsIn(cs) {
      pc := SlotsAttainedIn(cs[..n]);
    }
  }

  lemma {:induction false} BindSnoc<K, V>(m: map<K, V>, ks: seq<K>, vs: seq<V>, k: K, v: V)
    requires |ks| == |vs|
    ensures Bind(m, ks + [k], vs + [v]) == Bind(m, ks, vs)[k := v]
    decreases |ks|
  {
    if ks == [] {
      assert [] + [k] == [k] && [] + [v] == [v];
      assert [k][1..] == [] && [v][1..] == [];
    } else {
      assert (ks + [k])[1..] == ks[1..] + [k] && (vs + [v])[1..] == vs[1..] + [v];
      BindSnoc(m[ks[0] := vs[0]], ks[1..], vs[1..], k, v);
    }
  }

  lemma BindUpTo<K, V>(m: map<K, V>, ks: seq<K>, vs: seq<V>, n: nat)
    requires |ks| == |vs| && n < |ks|
    ensures Bind(m, ks[..n + 1], vs[..n + 1]) == Bind(m, ks[..n], vs[..n])[ks[n] := vs[n]]
  {
    BindSnoc(m, ks[..n], vs[..n], ks[n], vs[n]);
    assert ks[..n + 1] == ks[..n] + [ks[n]] && vs[..n + 1] == vs[..n] + [vs[n]];
  }

  lemma {:induction false} SpillsLength(names: seq<Ssa>, from: nat)
    requires from <= |names|
    ensures |Spills(names, from)| == |names| - from
    decreases |names| - from
  {
    if from < |names| {
      SpillsLength(names, from + 1);
    }
  }

  lemma {:induction false} SpillAt(names: seq<Ssa>, from: nat, k: nat)
    requires from <= k < |names|
    ensures |Spills(names, from)| == |names| - from && Spills(names, from)[k - from] == Spill(k, names[k])
    decreases k - from
  {
    SpillsLength(names, from);
    if from < k {
      SpillAt(names, from + 1, k);
      assert Spills(names, from) == [Spill(from, names[from])] + Spills(names, from + 1);
    }
  }

  /** Spilling name by name gives the spill list. */
  lemma SpillsAre(names: seq<Ssa>, spills: seq<Instr>)
    requires |spills| == |names| && forall k :: 0 <= k < |names| ==> spills[k] == Spill(k, names[k])
    ensures spills == Spills(names, 0)
  {
    hide Spills;
    SpillsLength(names, 0);
    forall k | 0 <= k < |names|
      ensures spills[k] == Spills(names, 0)[k]
    {
      SpillAt(names, 0, k);
    }
  }

  lemma SeedStoresStep(f: Function, i: nat, stores: seq<Instr>)
    requires i < |f.params|
    ensures HasHome(f, f.params[i]) <==> TempType(f.temps, f.params[i]).NeedsGcProtection()
    ensures stores + SeedStores(f, i) ==
            (if HasHome(f, f.params[i]) then stores + [StoreHome(f.params[i], Arg(i))]
                else stores) + SeedStores(f, i + 1)
  {
  }

  lemma HomesAreParams(f: Function)
    ensures SeedStores(f, |f.params|) == []
    ensures forall p :: HasHome(f, p) ==> p in f.params
  {
  }

  lemma SeedLoadsStep(f: Function, k: nat)
    requires k < |f.params|
    ensures SeedLoads(f, f.params[k..]) ==
            (if HasHome(f, f.params[k]) then [LoadHome(SeedName(f, f.params[k]), f.params[k])] else [])
            + SeedLoads(f, f.params[k + 1..])
  {
    assert f.params[k..][0] == f.params[k] && f.params[k..][1..] == f.params[k + 1..];
  }

  lemma BlockLoadsStep(f: Function, i: nat, k: nat)
    requires k < |f.params|
    ensures BlockLoads(f, i, f.params[k..]) ==
            (if HasHome(f, f.params[k]) then [LoadHome(ParamName(f, i, f.params[k]), f.params[k])] else [])
            + BlockLoads(f, i, f.params[k + 1..])
  {
    assert f.params[k..][0] == f.params[k] && f.params[k..][1..] == f.params[k + 1..];
  }

  lemma SeedLoadsDone(f: Function)
    ensures SeedLoads(f, f.params[|f.params|..]) == []
  {
  }

  lemma BlockLoadsDone(f: Function, i: nat)
    ensures BlockLoads(f, i, f.params[|f.params|..]) == []
  {
  }

  lemma BindNone<K, V>(ks: seq<K>, vs: seq<V>)
    ensures forall m: map<K, V> :: Bind(m, ks[..0], vs[..0]) == m
  {
  }

  lemma Appended<T>(code: seq<T>, here: seq<T>, rest: seq<T>, all: seq<T>)
    requires code + (here + rest) == all
    ensures code + here + rest == all
  {
    assert code + (here + rest) == code + here + rest;
  }

  // ----- callees -----

  /** Whether a callee can be called with so many arguments: it is in the function table, or
      declared or found as an extern, or a built-in of that arity. */
  type Callable = (string, nat) -> bool

  /** A direct call needs its callee, a sealed one its whole fallback chain too. */
  predicate CalleesKnown(c: Computation, callable: Callable) {
    match c
    case DirectCall(_, callee, args, _, _) => callable(callee, |args|)
    case SealedDirectCall(_, callee, chain, _, args, _, _) =>
      callable(callee, |args|) && forall body :: body in chain ==> callable(body, |args|)
    case _ => true
  }

  predicate BlockCalleesKnown(f: Function, i: nat, callable: Callable)
    requires i < |f.blocks|
  {
    forall pc :: 0 <= pc < |f.blocks[i].computations| ==> CalleesKnown(f.blocks[i].computations[pc], callable)
  }

  predicate FunctionCalleesKnown(f: Function, callable: Callable) {
    forall i :: 0 <= i < |f.blocks| ==> BlockCalleesKnown(f, i, callable)
  }

  /** The functions a computation names: a direct call's callee, a sealed call's callee and
      then its fallback chain. */
  function CalleesOf(c: Computation): seq<string> {
    match c
    case DirectCall(_, callee, _, _, _) => [callee]
    case SealedDirectCall(_, callee, chain, _, _, _, _) => [callee] + chain
    case _ => []
  }

  /** The first of them that cannot be called with the computation's arguments. */
  ghost predicate FirstRefused(c: Computation, callable: Callable, refused: string)
    requires c.IsCallShaped()
  {
    exists k :: 0 <= k < |CalleesOf(c)| && CalleesOf(c)[k] == refused && !callable(refused, |c.args|)
            && forall m :: 0 <= m < k ==> callable(CalleesOf(c)[m], |c.args|)
  }

  /** A computation's callees are known when each of the functions it names is. */
  lemma {:induction false} CalleesKnownIff(c: Computation, callable: Callable)
    ensures CalleesKnown(c, callable) <==>
            forall callee :: callee in CalleesOf(c) ==> c.IsCallShaped() && callable(callee, |c.args|)
  {
    if c.SealedDirectCall? {
      assert c.callee == CalleesOf(c)[0] && CalleesOf(c)[0] in CalleesOf(c);
    }
    if c.DirectCall? {
      assert c.callee == CalleesOf(c)[0] && CalleesOf(c)[0] in CalleesOf(c);
    }
  }

  /** What stops a computation from being emitted. */
  ghost predicate EmitFault(c: Computation, b: Bindings, callable: Callable, e: EmitError) {
    match e
    case IndirectCallNotSupported => c.Call?
    case WriteBarrierNotEmitted => c.WriteBarrier?
    case DispatchArity(n) => c.Dispatch? && n == |c.args| && (n == 0 || n > 8)
    case CalleeRefused(callee) => c.IsCallShaped() && FirstRefused(c, callable, callee)
    case UndefinedTemp(t) => t !in b && (t in c.Operands() || (c.IsCallShaped() && t in c.roots))
    case UndefinedBlock(_) => false
  }

  /** The first callee that cannot be called. */
  method ResolveCallees(c: Computation, callable: Callable) returns (refused: Option<string>)
    ensures refused.None? <==> CalleesKnown(c, callable)
    ensures refused.Some? ==> c.IsCallShaped() && FirstRefused(c, callable, refused.value)
  {
    match c
    case DirectCall(_, callee, args, _, _) =>
      refused := if callable(callee, |args|) then None else Some(callee);
      assert CalleesOf(c)[0] == callee;
    case SealedDirectCall(_, callee, chain, _, args, _, _) =>
      assert CalleesOf(c)[0] == callee;
      if !callable(callee, |args|) {
        return Some(callee);
      }
      for k := 0 to |chain|
        invariant forall m :: 0 <= m < k ==> callable(chain[m], |args|)
      {
        if !callable(chain[k], |args|) {
          assert chain[k] in chain;
          assert CalleesOf(c)[k + 1] == chain[k] && forall m :: 0 < m <= k ==> CalleesOf(c)[m] == chain[m - 1];
          return Some(chain[k]);
        }
      }
      refused := None;
    case _ =>
      refused := None;
  }

  /** What the functions of one module share: the site counter and the recorded sites, and
      what can be called. */
  class ModuleContext {
    const callable: Callable
    var nextSiteId: nat
    var sites: seq<SitePlan>

    constructor (callable: Callable)
      ensures this.callable == callable && nextSiteId == 0 && sites == []
    {
      this.callable, nextSiteId, sites := callable, 0, [];
    }

    method MintSiteId() returns (id: nat)
      modifies this
      ensures id == old(nextSiteId) && nextSiteId == old(nextSiteId) + 1 && sites == old(sites)
    {
      id := nextSiteId;
      nextSiteId := nextSiteId + 1;
    }
  }

  /** The emission state of one function. */
  class Emitter {
    const f: Function
    const mctx: ModuleContext
    var slotCapacity: nat
    var temps: Bindings
    var entryTemps: map<BlockId, Bindings>
    var paramHomes: set<TempId>
    var pendingIncoming: seq<Incoming>
    var code: seq<Instr>

    ghost predicate Valid()
      reads `slotCapacity, `paramHomes
    {
      && slotCapacity == MaxSlots(f.blocks)
      && forall p :: p in paramHomes <==> HasHome(f, p)
    }

    constructor (f: Function, mctx: ModuleContext)
      ensures this.f == f && this.mctx == mctx && slotCapacity == MaxSlots(f.blocks)
      ensures temps == map[] && entryTemps == map[] && paramHomes == {} && pendingIncoming == [] && code == []
    {
      this.f, this.mctx, slotCapacity := f, mctx, MaxSlots(f.blocks);
      temps, entryTemps, paramHomes, pendingIncoming, code := map[], map[], {}, [], [];
    }

    method TempVal(t: TempId) returns (v: Option<Ssa>)
      ensures v == if t in temps then Some(temps[t]) else None
    {
      v := if t in temps then Some(temps[t]) else None;
    }

    /** What leaves this block towards `target`: a binding already noted there stays. */
    method NoteSuccessorEntryTemps(target: BlockId)
      modifies `entryTemps
      ensures entryTemps == Note(old(entryTemps), target, temps)
    {
      ghost var before := if target in entryTemps then entryTemps[target] else map[];
      var entry := if target in entryTemps then entryTemps[target] else map[];
      var todo := temps.Keys;
      while todo != {}
        invariant todo <= temps.Keys && unchanged(this`temps) && unchanged(this`entryTemps)
        invariant entry.Keys == before.Keys + (temps.Keys - todo)
        invariant forall t :: t in entry ==> entry[t] == if t in before then before[t] else temps[t]
        decreases todo
      {
        var t :| t in todo;
        if t !in entry {
          entry := entry[t := temps[t]];
        }
        todo := todo - {t};
      }
      assert entry == temps + before;
      entryTemps := entryTemps[target := entry];
    }

    /** Spills the roots in order; their slots are always within the frame's slab. */
    method BeginSafepoint(i: nat, pc: nat) returns (r: Result<seq<RootSlot>>)
      requires Valid() && i < |f.blocks| && pc < |f.blocks[i].computations|
                 && f.blocks[i].computations[pc].IsCallShaped()
      modifies `code
      ensures var roots := f.blocks[i].computations[pc].roots;
              && (r.Ok? <==> Bound(temps, roots))
              && (r.Ok? ==> r.value == RootSlots(roots) && code == old(code) + Spills(Names(temps, roots), 0))
              && (r.Err? ==> r.error.UndefinedTemp? && r.error.t in roots && r.error.t !in temps)
    {
      var roots := f.blocks[i].computations[pc].roots;
      SlotsBounded(f.blocks, i, pc);
      hide MaxSlots, HasHome;
      var slots, spills := [], [];
      for k := 0 to |roots|
        invariant code == old(code)
        invariant |slots| == k && forall m :: 0 <= m < k ==> slots[m] == RootSlot(roots[m], m)
        invariant |spills| == k && forall m :: 0 <= m < k ==>
                    roots[m] in temps && spills[m] == Spill(m, temps[roots[m]])
      {
        var v := TempVal(roots[k]);
        if v.None? {
          assert roots[k] in roots;
          return Err(UndefinedTemp(roots[k]));
        }
        assert k < slotCapacity;
        spills := spills + [Spill(k, v.value)];
        slots := slots + [RootSlot(roots[k], k)];
      }
      SpillsAre(Names(temps, roots), spills);
      assert slots == RootSlots(roots);
      code := code + spills;
      r := Ok(slots);
    }

    /** Reloads every rented root, rebinds it, and refreshes the home of a parameter. */
    method EndSafepoint(i: nat, pc: nat, roots: seq<TempId>, rented: seq<RootSlot>)
      requires Valid() && rented == RootSlots(roots)
      modifies `temps, `code
      ensures temps == Bind(old(temps), roots, ReloadNames(i, pc, |roots|))
      ensures code == old(code) + Fetches(f, i, pc, roots, 0)
    {
      hide HasHome, Bind;
      var names := ReloadNames(i, pc, |roots|);
      BindNone(roots, names);
      for k := 0 to |rented|
        invariant unchanged(this`paramHomes)
        invariant temps == Bind(old(temps), roots[..k], names[..k])
        invariant code + Fetches(f, i, pc, roots, k) == old(code) + Fetches(f, i, pc, roots, 0)
      {
        BindUpTo(old(temps), roots, names, k);
        var t, reloaded := rented[k].temp, Reload(i, pc, k);
        code := code + [Fetch(reloaded, rented[k].slot)];
        temps := temps[t := reloaded];
        if t in paramHomes {
          code := code + [StoreHome(t, reloaded)];
        }
      }
      assert roots[..|roots|] == roots && names[..|roots|] == names;
    }

    /** A parameter's value at a block start, or before the first block when `block` is
        `None`: a fresh load of its home, or the argument. */
    method RebindParam(p: TempId, block: Option<nat>) returns (v: Ssa)
      requires Valid() && p in f.params
      modifies `code
      ensures v == if block.Some? then ParamName(f, block.value, p) else SeedName(f, p)
      ensures code == old(code) + if HasHome(f, p) then [LoadHome(v, p)] else []
    {
      if p in paramHomes {
        v := if block.Some? then HomeLoad(block.value, p) else HomeSeed(p);
        code := code + [LoadHome(v, p)];
      } else {
        v := Arg(FirstIndex(f.params, p));
      }
    }

    /** Gives every pointer-shaped parameter a home holding the argument. */
    method SeedHomes()
      requires slotCapacity == MaxSlots(f.blocks) && paramHomes == {} && code == []
      modifies `paramHomes, `code
      ensures Valid() && code == SeedStores(f, 0)
    {
      hide MaxSlots, HasHome, SeedStores;
      var homes, stores := {}, [];
      for i := 0 to |f.params|
        invariant stores + SeedStores(f, i) == SeedStores(f, 0)
        invariant forall p :: p in homes <==> p in f.params[..i] && HasHome(f, p)
      {
        var p := f.params[i];
        assert f.params[..i + 1] == f.params[..i] + [p];
        SeedStoresStep(f, i, stores);
        if TempType(f.temps, p).NeedsGcProtection() {
          stores := stores + [StoreHome(p, Arg(i))];
          homes := homes + {p};
        }
      }
      assert f.params[..|f.params|] == f.params;
      HomesAreParams(f);
      paramHomes, code := homes, stores;
    }

    /** Then binds every parameter; these are the entry block's noted bindings. */
    method SeedParams()
      requires Valid() && temps == map[]
      modifies `temps, `code, `entryTemps
      ensures temps == SeedTemps(f) && entryTemps == old(entryTemps)[f.entry := temps]
      ensures code == old(code) + SeedLoads(f, f.params)
    {
      hide Valid, HasHome, Bind, SeedLoads, SeedName;
      var names := SeedNames(f);
      BindNone(f.params, names);
      for i := 0 to |f.params|
        invariant Valid() && entryTemps == old(entryTemps)
        invariant temps == Bind(map[], f.params[..i], names[..i])
        invariant code + SeedLoads(f, f.params[i..]) == old(code) + SeedLoads(f, f.params)
      {
        BindUpTo<TempId, Ssa>(map[], f.params, names, i);
        SeedLoadsStep(f, i);
        Appended(code, if HasHome(f, f.params[i]) then [LoadHome(names[i], f.params[i])] else [],
                 SeedLoads(f, f.params[i + 1..]), old(code) + SeedLoads(f, f.params));
        var v := RebindParam(f.params[i], None);
        temps := temps[f.params[i] := v];
      }
      SeedLoadsDone(f);
      assert f.params[..|f.params|] == f.params && names[..|f.params|] == names;
      entryTemps := entryTemps[f.entry := temps];
    }

    /** Binds every block parameter to its phi before any block is emitted. */
    method AddPhis()
      modifies `temps
      ensures temps == WithPhis(f.blocks, |f.blocks|, old(temps))
    {
      for i := 0 to |f.blocks|
        invariant temps == WithPhis(f.blocks, i, old(temps))
      {
        BindPhis(i);
      }
    }

    method BindPhis(i: nat)
      requires i < |f.blocks|
      modifies `temps
      ensures temps == Bind(old(temps), f.blocks[i].params, PhiNames(i, |f.blocks[i].params|))
    {
      var params, names := f.blocks[i].params, PhiNames(i, |f.blocks[i].params|);
      for k := 0 to |params|
        invariant temps == Bind(old(temps), params[..k], names[..k])
      {
        BindUpTo(old(temps), params, names, k);
        temps := temps[params[k] := Phi(i, k)];
      }
      assert params[..|params|] == params && names[..|params|] == names;
    }

    /** Rebinds every function parameter at the start of a block. */
    method RebindParams(i: nat)
      requires Valid()
      modifies `temps, `code
      ensures temps == Bind(old(temps), f.params, ParamNames(f, i))
      ensures code == old(code) + BlockLoads(f, i, f.params)
    {
      hide Valid, HasHome, Bind, BlockLoads, ParamName;
      var names := ParamNames(f, i);
      BindNone(f.params, names);
      for k := 0 to |f.params|
        invariant Valid()
        invariant temps == Bind(old(temps), f.params[..k], names[..k])
        invariant code + BlockLoads(f, i, f.params[k..]) == old(code) + BlockLoads(f, i, f.params)
      {
        BindUpTo(old(temps), f.params, names, k);
        BlockLoadsStep(f, i, k);
        Appended(code, if HasHome(f, f.params[k]) then [LoadHome(names[k], f.params[k])] else [],
                 BlockLoads(f, i, f.params[k + 1..]), old(code) + BlockLoads(f, i, f.params));
        var v := RebindParam(f.params[k], Some(i));
        temps := temps[f.params[k] := v];
      }
      BlockLoadsDone(f, i);
      assert f.params[..|f.params|] == f.params && names[..|f.params|] == names;
    }

    /** The bindings and the loads a block starts with. */
    method InstallEntry(i: nat)
      requires Valid() && i < |f.blocks|
      modifies `temps, `code
      ensures temps == Install(f, i, Carry(old(temps), entryTemps))
      ensures code == old(code) + BlockLoads(f, i, f.params)
    {
      hide Valid, HasHome, Bind;
      assert temps + map[] == temps;
      if f.blocks[i].id in entryTemps {
        temps := temps + entryTemps[f.blocks[i].id];
      }
      RebindParams(i);
      BindPhis(i);
    }

    method ResolveAll(ts: seq<TempId>) returns (r: Result<seq<Ssa>>)
      ensures r.Ok? <==> Bound(temps, ts)
      ensures r.Ok? ==> r.value == Names(temps, ts)
      ensures r.Err? ==> r.error.UndefinedTemp? && r.error.t in ts && r.error.t !in temps
    {
      var names := [];
      for k := 0 to |ts|
        invariant |names| == k && forall m :: 0 <= m < k ==> ts[m] in temps && names[m] == temps[ts[m]]
      {
        var v := TempVal(ts[k]);
        if v.None? {
          assert ts[k] in ts;
          return Err(UndefinedTemp(ts[k]));
        }
        names := names + [v.value];
      }
      r := Ok(names);
    }

    /** One call: spill, record the site, operate, reload, bind the result. */
    method EmitFoundCall(i: nat, pc: nat) returns (r: Result<Chunk>)
      requires Valid() && i < |f.blocks| && pc < |f.blocks[i].computations|
      requires f.blocks[i].computations[pc].IsCallShaped() && Supported(f.blocks[i].computations[pc])
      modifies `temps, `code, mctx
      ensures var c := f.blocks[i].computations[pc];
              && (r.Ok? <==> ComputationEmittable(c, old(temps)))
              && (r.Ok? ==> r.value == ChunkOf(f, i, pc, c, old(temps))
                            && temps == AfterComputation(c, i, pc, old(temps))
                            && mctx.sites == old(mctx.sites) + [PlanOf(f, i, pc, old(mctx.nextSiteId))]
                            && mctx.nextSiteId == old(mctx.nextSiteId) + 1)
              && (r.Err? ==> EmitFault(c, old(temps), mctx.callable, r.error))
    {
      hide Valid, HasHome, MaxSlots, Bind, Fetches, Spills, FirstRefused;
      var c := f.blocks[i].computations[pc];
      var id := mctx.MintSiteId();
      code := [];
      var rented := BeginSafepoint(i, pc);
      if rented.Err? {
        return Err(rented.error);
      }
      mctx.sites := mctx.sites + [SitePlan(id, PlannedKind(c), f.name, f.blocks[i].name, pc, rented.value)];
      var before := code;
      var args := ResolveAll(c.Operands());
      if args.Err? {
        return Err(args.error);
      }
      code := [];
      EndSafepoint(i, pc, c.roots, rented.value);
      temps := temps[c.dst := Value(i, pc)];
      r := Ok(Chunk(before, Op(Some(Value(i, pc)), Point(i, pc), c, args.value, |rented.value|), code));
    }

    /** One call, if its callees can be called. */
    method EmitCall(i: nat, pc: nat) returns (r: Result<Chunk>)
      requires Valid() && i < |f.blocks| && pc < |f.blocks[i].computations|
      requires f.blocks[i].computations[pc].IsCallShaped() && Supported(f.blocks[i].computations[pc])
      modifies `temps, `code, mctx
      ensures var c := f.blocks[i].computations[pc];
              && (r.Ok? <==> ComputationEmittable(c, old(temps)) && CalleesKnown(c, mctx.callable))
              && (r.Ok? ==> r.value == ChunkOf(f, i, pc, c, old(temps))
                            && temps == AfterComputation(c, i, pc, old(temps))
                            && mctx.sites == old(mctx.sites) + [PlanOf(f, i, pc, old(mctx.nextSiteId))]
                            && mctx.nextSiteId == old(mctx.nextSiteId) + 1)
              && (r.Err? ==> EmitFault(c, old(temps), mctx.callable, r.error))
    {
      hide Valid, ComputationEmittable, ChunkOf, AfterComputation, CalleesKnown, FirstRefused;
      var refused := ResolveCallees(f.blocks[i].computations[pc], mctx.callable);
      if refused.Some? {
        return Err(CalleeRefused(refused.value));
      }
      r := EmitFoundCall(i, pc);
    }

    method EmitComputation(i: nat, pc: nat) returns (r: Result<Chunk>)
      requires Valid() && i < |f.blocks| && pc < |f.blocks[i].computations|
      modifies `temps, `code, mctx
      ensures var c := f.blocks[i].computations[pc];
              && (r.Ok? <==> ComputationEmittable(c, old(temps)) && CalleesKnown(c, mctx.callable))
              && (r.Ok? ==> r.value == ChunkOf(f, i, pc, c, old(temps))
                            && temps == AfterComputation(c, i, pc, old(temps))
                            && mctx.sites == old(mctx.sites)
                                 + (if c.IsCallShaped() then [PlanOf(f, i, pc, old(mctx.nextSiteId))] else [])
                            && mctx.nextSiteId == old(mctx.nextSiteId) + (if c.IsCallShaped() then 1 else 0))
              && (r.Err? ==> EmitFault(c, old(temps), mctx.callable, r.error))
              && (c.Call? || c.WriteBarrier? || (c.Dispatch? && (c.args == [] || |c.args| > 8)) ==> r.Err?)
    {
      hide FirstRefused, CalleesOf, ChunkOf, AfterComputation, PlanOf, Valid;
      var c := f.blocks[i].computations[pc];
      match c
      case Call(_, _, _, _) => return Err(IndirectCallNotSupported);
      case WriteBarrier(_, _, _) => return Err(WriteBarrierNotEmitted);
      case Dispatch(_, _, args, _) =>
        if args == [] || |args| > 8 {
          return Err(DispatchArity(|args|));
        }
        r := EmitCall(i, pc);
      case DirectCall(_, _, _, _, _) => r := EmitCall(i, pc);
      case SealedDirectCall(_, _, _, _, _, _, _) => r := EmitCall(i, pc);
      case StoreSlot(_, _, _, _, _) => r := EmitStore(i, pc);
      case _ => r := EmitPlain(i, pc);
    }

    /** Everything but calls and stores: the result is a new value. */
    method EmitPlain(i: nat, pc: nat) returns (r: Result<Chunk>)
      requires i < |f.blocks| && pc < |f.blocks[i].computations|
      requires var c := f.blocks[i].computations[pc]; !c.IsCallShaped() && !c.StoreSlot? && !c.WriteBarrier?
      modifies `temps
      ensures var c := f.blocks[i].computations[pc];
              && (r.Ok? <==> ComputationEmittable(c, old(temps)))
              && (r.Ok? ==> r.value == ChunkOf(f, i, pc, c, old(temps))
                            && temps == AfterComputation(c, i, pc, old(temps)))
              && (r.Err? ==> r.error.UndefinedTemp? && r.error.t in c.Operands() && r.error.t !in old(temps))
    {
      var c := f.blocks[i].computations[pc];
      var args := ResolveAll(c.Operands());
      if args.Err? {
        return Err(args.error);
      }
      temps := temps[c.dst := Value(i, pc)];
      r := Ok(Chunk([], Op(Some(Value(i, pc)), Point(i, pc), c, args.value, 0), []));
    }

    /** A store's result is the stored value itself. */
    method EmitStore(i: nat, pc: nat) returns (r: Result<Chunk>)
      requires i < |f.blocks| && pc < |f.blocks[i].computations| && f.blocks[i].computations[pc].StoreSlot?
      modifies `temps
      ensures var c := f.blocks[i].computations[pc];
              && (r.Ok? <==> ComputationEmittable(c, old(temps)))
              && (r.Ok? ==> r.value == ChunkOf(f, i, pc, c, old(temps))
                            && temps == AfterComputation(c, i, pc, old(temps)))
              && (r.Err? ==> r.error.UndefinedTemp? && r.error.t in c.Operands() && r.error.t !in old(temps))
    {
      var c := f.blocks[i].computations[pc];
      var args := ResolveAll(c.Operands());
      if args.Err? {
        return Err(args.error);
      }
      assert c.Operands()[1] == c.stored;
      temps := temps[c.dst := args.value[1]];
      r := Ok(Chunk([], Op(None, Point(i, pc), c, args.value, 0), []));
    }

    /** The exit; successors learn the bindings that leave this block, and a jump records
        its arguments' values as they are now. */
    method EmitTerminator(i: nat) returns (r: Result<Exit>)
      requires i < |f.blocks|
      modifies `entryTemps, `pendingIncoming
      ensures var term := f.blocks[i].terminator;
              && (r.Ok? <==> ExitEmittable(f.blocks, term, temps))
              && (r.Ok? ==> r.value == ExitOf(f.blocks, term, temps)
                            && entryTemps == NoteAll(old(entryTemps), term.Targets(), temps)
                            && pendingIncoming == old(pendingIncoming) + IncomingOf(f.blocks, i, term, temps))
              && (r.Err? ==>
                    || (r.error.UndefinedTemp? && r.error.t in term.Uses() && r.error.t !in temps)
                    || (r.error.UndefinedBlock? && r.error.b in term.Targets() && BlockAt(f.blocks, r.error.b).None?))
    {
      hide Note;
      match f.blocks[i].terminator
      case Return(None) => r := Ok(Ret(None));
      case Return(Some(t)) =>
        var v := TempVal(t);
        r := if v.Some? then Ok(Ret(v)) else Err(UndefinedTemp(t));
      case If(cond, a, b) =>
        var c := TempVal(cond);
        if c.None? {
          return Err(UndefinedTemp(cond));
        }
        var x, y := BlockAt(f.blocks, a), BlockAt(f.blocks, b);
        if x.None? || y.None? {
          return Err(UndefinedBlock(if x.None? then a else b));
        }
        NoteSuccessorEntryTemps(a);
        NoteSuccessorEntryTemps(b);
        NoteTwo(old(entryTemps), a, b, temps);
        r := Ok(CondBr(c.value, x.value, y.value));
      case Jump(a, args) =>
        var x := BlockAt(f.blocks, a);
        if x.None? {
          return Err(UndefinedBlock(a));
        }
        var names := ResolveAll(args);
        if names.Err? {
          return Err(names.error);
        }
        NoteSuccessorEntryTemps(a);
        NoteOne(old(entryTemps), a, temps);
        pendingIncoming := pendingIncoming + [Incoming(x.value, i, names.value)];
        r := Ok(Br(x.value));
    }

    /** The computations of a block, in order. */
    method EmitBody(i: nat) returns (r: Result<seq<Chunk>>)
      requires Valid() && i < |f.blocks| && temps == OnEntry(f, i)
      modifies `temps, `code, mctx
      ensures var n := |f.blocks[i].computations|;
              && (r.Ok? <==>
                    && (forall pc :: 0 <= pc < n ==> ComputationEmittable(f.blocks[i].computations[pc], At(f, i, pc)))
                    && BlockCalleesKnown(f, i, mctx.callable))
              && (r.Ok? ==> temps == OnExit(f, i)
                            && |r.value| == n
                            && (forall pc :: 0 <= pc < n ==>
                                  r.value[pc] == ChunkOf(f, i, pc, f.blocks[i].computations[pc], At(f, i, pc)))
                            && mctx.sites == old(mctx.sites) + BlockPlans(f, i, n, old(mctx.nextSiteId))
                            && mctx.nextSiteId == old(mctx.nextSiteId) + |BlockPlans(f, i, n, old(mctx.nextSiteId))|)
    {
      hide Valid, ComputationEmittable, ChunkOf, AfterComputation, OnEntry, CalleesKnown;
      var chunks := [];
      for pc := 0 to |f.blocks[i].computations|
        invariant Valid() && temps == At(f, i, pc) && |chunks| == pc
        invariant forall k :: 0 <= k < pc ==>
                    && ComputationEmittable(f.blocks[i].computations[k], At(f, i, k))
                    && CalleesKnown(f.blocks[i].computations[k], mctx.callable)
                    && chunks[k] == ChunkOf(f, i, k, f.blocks[i].computations[k], At(f, i, k))
        invariant mctx.sites == old(mctx.sites) + BlockPlans(f, i, pc, old(mctx.nextSiteId))
        invariant mctx.nextSiteId == old(mctx.nextSiteId) + |BlockPlans(f, i, pc, old(mctx.nextSiteId))|
      {
        var chunk := EmitComputation(i, pc);
        if chunk.Err? {
          return Err(chunk.error);
        }
        chunks := chunks + [chunk.value];
      }
      r := Ok(chunks);
    }

    /** A whole block. `start` is what its LLVM block already holds: the parameter seeding
        for the entry block. */
    method EmitBlock(i: nat, headers: set<BlockId>, start: seq<Instr>) returns (r: Result<EmittedBlock>)
      requires Valid() && i < |f.blocks| && Carry(temps, entryTemps) == CarryInto(f, i)
      requires forall id :: id in headers <==> IsHeader(f.blocks, id)
      requires start == if BlockAt(f.blocks, f.entry) == Some(i) then SeedStores(f, 0) + SeedLoads(f, f.params) else []
      modifies `temps, `entryTemps, `pendingIncoming, `code, mctx
      ensures r.Ok? <==> BlockEmittable(f, i) && BlockCalleesKnown(f, i, mctx.callable)
      ensures r.Ok? ==>
                && r.value == EmittedBlock(|f.blocks[i].params|, PrologueOf(f, i), BodyOf(f, i,
                     |f.blocks[i].computations|),
                                           ExitOf(f.blocks, f.blocks[i].terminator, OnExit(f, i)))
                && Carry(temps, entryTemps) == CarryInto(f, i + 1)
                && pendingIncoming == old(pendingIncoming) +
                     IncomingOf(f.blocks, i, f.blocks[i].terminator, OnExit(f, i))
      ensures r.Ok? ==>
                var plans := BlockPlans(f, i, |f.blocks[i].computations|, old(mctx.nextSiteId));
                mctx.sites == old(mctx.sites) + plans && mctx.nextSiteId == old(mctx.nextSiteId) + |plans|
    {
      hide Valid, ComputationEmittable, ExitEmittable, ChunkOf, Within, BlockPlans, IsHeader, SeedStores,
        SeedLoads, BlockLoads,
        CarryInto, Install, ExitOf, IncomingOf, NoteAll;
      code := start;
      InstallEntry(i);
      assert temps == OnEntry(f, i);
      if f.blocks[i].id == f.entry || f.blocks[i].id in headers {
        code := code + [Poll];
      }
      var prologue := code;
      assert prologue == PrologueOf(f, i);
      var body := EmitBody(i);
      if body.Err? {
        return Err(body.error);
      }
      var exit := EmitTerminator(i);
      if exit.Err? {
        return Err(exit.error);
      }
      BodyIs(f, i, |f.blocks[i].computations|, body.value);
      CarryNext(f, i);
      r := Ok(EmittedBlock(|f.blocks[i].params|, prologue, body.value, exit.value));
    }

    /** Everything before the first block: homes, parameters, phis. */
    method Prepare() returns (seeding: seq<Instr>)
      requires slotCapacity == MaxSlots(f.blocks) && BlockAt(f.blocks, f.entry).Some?
      requires temps == map[] && entryTemps == map[] && paramHomes == {} && code == []
      modifies `temps, `entryTemps, `paramHomes, `code
      ensures Valid() && Carry(temps, entryTemps) == CarryInto(f, 0)
      ensures seeding == SeedStores(f, 0) + SeedLoads(f, f.params)
    {
      hide SeedStores, SeedLoads, SeedTemps, MaxSlots, WithPhis, HasHome, Bind;
      SeedHomes();
      SeedParams();
      seeding := code;
      AddPhis();
    }

    /** The blocks, in order, each starting from what the ones before it left. */
    method EmitBlocks(headers: set<BlockId>, seeding: seq<Instr>) returns (r: Result<seq<EmittedBlock>>)
      requires Valid() && BlockAt(f.blocks, f.entry).Some? && pendingIncoming == []
      requires Carry(temps, entryTemps) == CarryInto(f, 0) && seeding == SeedStores(f, 0) + SeedLoads(f, f.params)
      requires forall id :: id in headers <==> IsHeader(f.blocks, id)
      modifies `temps, `entryTemps, `pendingIncoming, `code, mctx
      ensures r.Ok? <==> Emittable(f) && FunctionCalleesKnown(f, mctx.callable)
      ensures r.Ok? ==> r.value == BlocksOf(f, |f.blocks|) && pendingIncoming == AllIncoming(f, |f.blocks|)
      ensures r.Ok? ==>
                var plans := FunctionPlans(f, |f.blocks|, old(mctx.nextSiteId));
                mctx.sites == old(mctx.sites) + plans && mctx.nextSiteId == old(mctx.nextSiteId) + |plans|
    {
      hide Valid, BlockEmittable, BlockPlans, PrologueOf, BodyOf, ExitOf, IncomingOf, CarryPast, WithPhis,
        IsHeader, SeedStores,
        SeedLoads, SeedTemps, MaxSlots, HasHome, CarryInto, BlocksOf, AllIncoming, FunctionPlans, Emittable,
            EmittedOf, OnExit;
      NoBlocks(f, mctx.nextSiteId);
      var blocks := [];
      for i := 0 to |f.blocks|
        invariant Valid() && Carry(temps, entryTemps) == CarryInto(f, i)
        invariant forall k :: 0 <= k < i ==> BlockEmittable(f, k) && BlockCalleesKnown(f, k, mctx.callable)
        invariant Emittable(f) ==> blocks == BlocksOf(f, i) && pendingIncoming == AllIncoming(f, i)
        invariant mctx.sites == old(mctx.sites) + FunctionPlans(f, i, old(mctx.nextSiteId))
        invariant mctx.nextSiteId == old(mctx.nextSiteId) + |FunctionPlans(f, i, old(mctx.nextSiteId))|
      {
        MoreBlocks(f, i, old(mctx.nextSiteId));
        var block := EmitBlock(i, headers, if BlockAt(f.blocks, f.entry) == Some(i) then seeding else []);
        if block.Err? {
          return Err(block.error);
        }
        blocks := blocks + [block.value];
      }
      AllEmittable(f);
      r := Ok(blocks);
    }
  }

  lemma NoBlocks(f: Function, id: nat)
    ensures FunctionPlans(f, 0, id) == []
    ensures Emittable(f) ==> BlocksOf(f, 0) == [] && AllIncoming(f, 0) == []
  {
  }

  lemma MoreBlocks(f: Function, i: nat, id: nat)
    requires i < |f.blocks|
    ensures FunctionPlans(f, i + 1, id) ==
            FunctionPlans(f, i, id) + BlockPlans(f, i, |f.blocks[i].computations|, id + |FunctionPlans(f, i, id)|)
    ensures Emittable(f) ==>
              && BlockEmittable(f, i)
              && BlocksOf(f, i + 1) == BlocksOf(f, i)
                   + [EmittedBlock(|f.blocks[i].params|, PrologueOf(f, i), BodyOf(f, i, |f.blocks[i].computations|),
                                   ExitOf(f.blocks, f.blocks[i].terminator, OnExit(f, i)))]
              && AllIncoming(f, i + 1) == AllIncoming(f, i) +
                   IncomingOf(f.blocks, i, f.blocks[i].terminator, OnExit(f, i))
  {
    hide BlockPlans, PrologueOf, BodyOf, ExitOf, IncomingOf, OnExit;
  }

  lemma AllEmittable(f: Function)
    requires BlockAt(f.blocks, f.entry).Some? && forall i :: 0 <= i < |f.blocks| ==> BlockEmittable(f, i)
    ensures Emittable(f)
  {
  }

  lemma NoteOne(entries: map<BlockId, Bindings>, a: BlockId, b: Bindings)
    ensures NoteAll(entries, [a], b) == Note(entries, a, b)
  {
    assert [a][1..] == [];
  }

  lemma NoteTwo(entries: map<BlockId, Bindings>, a: BlockId, a': BlockId, b: Bindings)
    ensures NoteAll(entries, [a, a'], b) == Note(Note(entries, a, b), a', b)
  {
    assert [a, a'][1..] == [a'];
    NoteOne(Note(entries, a, b), a', b);
  }

  lemma {:induction false} BodyIs(f: Function, i: nat, n: nat, chunks: seq<Chunk>)
    requires i < |f.blocks| && n <= |f.blocks[i].computations| && BlockEmittable(f, i) && |chunks| == n
    requires forall pc :: 0 <= pc < n ==> chunks[pc] == ChunkAt(f, i, pc)
    ensures chunks == BodyOf(f, i, n)
  {
    hide BlockEmittable, ChunkAt;
    if n > 0 {
      BodyIs(f, i, n - 1, chunks[..n - 1]);
      assert chunks == chunks[..n - 1] + [chunks[n - 1]];
    }
  }

  /** A function: succeeds exactly when everything read is bound, every target exists, every
      computation is supported and every callee can be called, and then yields the code its
      bindings describe. */
  method EmitFunction(f: Function, mctx: ModuleContext) returns (r: Result<Code>)
    modifies mctx
    ensures r.Ok? <==> Emittable(f) && FunctionCalleesKnown(f, mctx.callable)
    ensures r.Ok? ==> r.value == CodeOf(f)
    ensures r.Ok? ==>
              var plans := FunctionPlans(f, |f.blocks|, old(mctx.nextSiteId));
              mctx.sites == old(mctx.sites) + plans && mctx.nextSiteId == old(mctx.nextSiteId) + |plans|
  {
    hide BlockEmittable, FunctionPlans, BlocksOf, AllIncoming, CarryInto, IsHeader, SeedStores, SeedLoads,
      MaxSlots, OpsFit;
    if BlockAt(f.blocks, f.entry).None? {
      return Err(UndefinedBlock(f.entry));
    }
    var em := new Emitter(f, mctx);
    var headers := FindLoopHeaders(f.blocks);
    var seeding := em.Prepare();
    var blocks := em.EmitBlocks(headers, seeding);
    if blocks.Err? {
      return Err(blocks.error);
    }
    r := Ok(Code(blocks.value, em.pendingIncoming));
  }

  /** A module: the functions in order, sharing one counter. Success is every function's
      success; the recorded sites are then exactly the planner's. */
  method CodegenModule(fns: seq<Function>, callable: Callable) returns (r: Result<seq<Code>>, plans: seq<SitePlan>)
    ensures r.Ok? <==> forall k :: 0 <= k < |fns| ==> Emittable(fns[k]) && FunctionCalleesKnown(fns[k], callable)
    ensures r.Ok? ==> |r.value| == |fns| && forall k :: 0 <= k < |fns| ==> r.value[k] == CodeOf(fns[k])
    ensures r.Ok? ==> plans == ModulePlans(fns, |fns|)
  {
    hide Emittable, CodeOf, FunctionPlans, FunctionCalleesKnown;
    var mctx := new ModuleContext(callable);
    var codes := [];
    plans := [];
    for k := 0 to |fns|
      invariant fresh(mctx) && mctx.callable == callable && |codes| == k
      invariant forall m :: 0 <= m < k ==>
                  Emittable(fns[m]) && FunctionCalleesKnown(fns[m], callable) && codes[m] == CodeOf(fns[m])
      invariant mctx.sites == ModulePlans(fns, k) && mctx.nextSiteId == |mctx.sites|
    {
      var code := EmitFunction(fns[k], mctx);
      if code.Err? {
        return Err(code.error), [];
      }
      codes := codes + [code.value];
    }
    r, plans := Ok(codes), mctx.sites;
  }

  // ----- the plan, without walking -----

  /** How many call sites come before a position of a block. */
  function CallsBefore(cs: seq<Computation>, n: nat): nat
    requires n <= |cs|
  {
    if n == 0 then 0 else CallsBefore(cs, n - 1) + if cs[n - 1].IsCallShaped() then 1 else 0
  }

  function CallsInBlocks(blocks: seq<Block>, n: nat): nat
    requires n <= |blocks|
  {
    if n == 0 then 0
    else CallsInBlocks(blocks, n - 1) + CallsBefore(blocks[n - 1].computations, |blocks[n - 1].computations|)
  }

  function CallsInModule(fns: seq<Function>, n: nat): nat
    requires n <= |fns|
  {
    if n == 0 then 0 else CallsInModule(fns, n - 1) + CallsInBlocks(fns[n - 1].blocks, |fns[n - 1].blocks|)
  }

  /** The number of a call site: how many come before it in the module. */
  function SiteNumber(fns: seq<Function>, k: nat, i: nat, pc: nat): nat
    requires k < |fns| && i < |fns[k].blocks| && pc <= |fns[k].blocks[i].computations|
  {
    CallsInModule(fns, k) + CallsInBlocks(fns[k].blocks, i) + CallsBefore(fns[k].blocks[i].computations, pc)
  }

  lemma {:induction false} CallsBeforeGrows(cs: seq<Computation>, m: nat, n: nat)
    requires m <= n <= |cs|
    ensures CallsBefore(cs, m) <= CallsBefore(cs, n)
    ensures m < n && cs[m].IsCallShaped() ==> CallsBefore(cs, m) < CallsBefore(cs, n)
    decreases n
  {
    if m < n {
      CallsBeforeGrows(cs, m, n - 1);
    }
  }

  lemma {:induction false} CallsInBlocksGrows(blocks: seq<Block>, m: nat, n: nat)
    requires m <= n <= |blocks|
    ensures CallsInBlocks(blocks, m) <= CallsInBlocks(blocks, n)
    ensures m < n ==> CallsInBlocks(blocks, m) + CallsBefore(blocks[m].computations, |blocks[m].computations|)
                      <= CallsInBlocks(blocks, n)
    decreases n
  {
    if m < n {
      CallsInBlocksGrows(blocks, m, n - 1);
    }
  }

  lemma {:induction false} CallsInModuleGrows(fns: seq<Function>, m: nat, n: nat)
    requires m < n <= |fns|
    ensures CallsInModule(fns, m) + CallsInBlocks(fns[m].blocks, |fns[m].blocks|) <= CallsInModule(fns, n)
    decreases n
  {
    if m < n - 1 {
      CallsInModuleGrows(fns, m, n - 1);
    }
  }

  /** No two call sites share an id: a site textually before another has a smaller one. */
  lemma SiteNumbersIncrease(fns: seq<Function>, k: nat, i: nat, pc: nat, k': nat, i': nat, pc': nat)
    requires k < |fns| && i < |fns[k].blocks| && pc < |fns[k].blocks[i].computations|
    requires k' < |fns| && i' < |fns[k'].blocks| && pc' < |fns[k'].blocks[i'].computations|
    requires fns[k].blocks[i].computations[pc].IsCallShaped()
    requires k < k' || (k == k' && (i < i' || (i == i' && pc < pc')))
    ensures SiteNumber(fns, k, i, pc) < SiteNumber(fns, k', i', pc')
  {
    var blocks := fns[k].blocks;
    CallsBeforeGrows(blocks[i].computations, pc, |blocks[i].computations|);
    CallsInBlocksGrows(blocks, i, |blocks|);
    if k < k' {
      CallsInModuleGrows(fns, k, k');
    } else if i < i' {
      CallsInBlocksGrows(blocks, i, i');
    } else {
      CallsBeforeGrows(blocks[i].computations, pc, pc');
    }
  }

  lemma {:induction false} BlockPlansAre(f: Function, i: nat, n: nat, id: nat)
    requires i < |f.blocks| && n <= |f.blocks[i].computations|
    ensures |BlockPlans(f, i, n, id)| == CallsBefore(f.blocks[i].computations, n)
    ensures forall x :: 0 <= x < |BlockPlans(f, i, n, id)| ==> BlockPlans(f, i, n, id)[x].id == id + x
    ensures forall pc :: 0 <= pc < n && f.blocks[i].computations[pc].IsCallShaped() ==>
              var x := CallsBefore(f.blocks[i].computations, pc);
              x < |BlockPlans(f, i, n, id)| && BlockPlans(f, i, n, id)[x] == PlanOf(f, i, pc, id + x)
  {
    if n > 0 {
      BlockPlansAre(f, i, n - 1, id);
    }
  }

  lemma {:induction false} FunctionPlansAre(f: Function, n: nat, id: nat)
    requires n <= |f.blocks|
    ensures |FunctionPlans(f, n, id)| == CallsInBlocks(f.blocks, n)
    ensures forall x :: 0 <= x < |FunctionPlans(f, n, id)| ==> FunctionPlans(f, n, id)[x].id == id + x
    ensures forall i, pc | 0 <= i < n && 0 <= pc < |f.blocks[i].computations|
              && f.blocks[i].computations[pc].IsCallShaped() ::
              var x := CallsInBlocks(f.blocks, i) + CallsBefore(f.blocks[i].computations, pc);
              x < |FunctionPlans(f, n, id)| && FunctionPlans(f, n, id)[x] == PlanOf(f, i, pc, id + x)
  {
    hide PlanOf, BlockPlans, CallsBefore;
    if n > 0 {
      FunctionPlansAre(f, n - 1, id);
      BlockPlansAre(f, n - 1, |f.blocks[n - 1].computations|, id + |FunctionPlans(f, n - 1, id)|);
    }
  }

  /** Every call site of the module has its plan at the number of call sites before it, and
      there are no more plans than call sites; the ids are dense. */
  lemma {:induction false} ModulePlansAre(fns: seq<Function>, n: nat)
    requires n <= |fns|
    ensures |ModulePlans(fns, n)| == CallsInModule(fns, n)
    ensures forall x :: 0 <= x < |ModulePlans(fns, n)| ==> ModulePlans(fns, n)[x].id == x
    ensures forall k, i, pc | 0 <= k < n && 0 <= i < |fns[k].blocks| && 0 <= pc < |fns[k].blocks[i].computations|
                              && fns[k].blocks[i].computations[pc].IsCallShaped() ::
              var x := SiteNumber(fns, k, i, pc);
              x < |ModulePlans(fns, n)| && ModulePlans(fns, n)[x] == PlanOf(fns[k], i, pc, x)
  {
    hide PlanOf, FunctionPlans, CallsBefore, CallsInBlocks;
    if n > 0 {
      ModulePlansAre(fns, n - 1);
      FunctionPlansAre(fns[n - 1], |fns[n - 1].blocks|, |ModulePlans(fns, n - 1)|);
    }
  }

  /** What the plan of a call site says: where it is, what kind of call it is, and its roots
      in order, each in the slot of its position. */
  lemma {:induction false} SitePlanSays(fns: seq<Function>, k: nat, i: nat, pc: nat)
    requires k < |fns| && i < |fns[k].blocks| && pc < |fns[k].blocks[i].computations|
    requires fns[k].blocks[i].computations[pc].IsCallShaped()
    ensures var c, x := fns[k].blocks[i].computations[pc], SiteNumber(fns, k, i, pc);
            && x < |ModulePlans(fns, |fns|)|
            && var plan := ModulePlans(fns, |fns|)[x];
               && plan.id == x && plan.owner == fns[k].name && plan.blockLabel == fns[k].blocks[i].name
               && plan.computation == pc
               && (plan.kind == DispatchKind <==> c.Dispatch?)
               && (plan.kind == SealedDirectCallKind <==> c.SealedDirectCall?)
               && (plan.kind == DirectCallKind <==> c.DirectCall? || c.Call?)
               && |plan.roots| == |c.roots|
               && forall m :: 0 <= m < |c.roots| ==> plan.roots[m].temp == c.roots[m] && plan.roots[m].slot == m
  {
    hide ModulePlans, SiteNumber;
    ModulePlansAre(fns, |fns|);
  }
}
