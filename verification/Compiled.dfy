/** The emitted code, run under a moving collector, performs the reference machine's run. */
module Compiled {
  import opened Ir
  import opened Cfg
  import opened Liveness
  import opened Machine
  import opened Target
  import opened Binding

  /** What the compiled function must satisfy. */
  ghost predicate Compilable(f: Function) {
    && WellFormed(f) && RootsExact(f) && NoAllocRootsEmpty(f)
    && Emittable(f)
    && UniqueBlockIds(f.blocks) && UniqueTempIds(f.temps)
    && SingleDefs(f) && PhisReadAfter(f)
    && EntryFirst(f)
    && EdgeContract(f)
  }

  /** LLVM runs a function from its first block, and nothing may branch there. */
  ghost predicate EntryFirst(f: Function) {
    && BlockAt(f.blocks, f.entry) == Some(0)
    && forall i :: 0 <= i < |f.blocks| ==> 0 !in Successors(f.blocks, i)
  }

  // ----- the relation -----

  ghost predicate HoldsWord(l: Layout, ssa: map<Ssa, Word>, s: Ssa, v: Val) {
    s in ssa && Decode(l, ssa[s]) == Some(v)
  }

  /** Where the code keeps a temp that is live at a point, and that it is right there: a
      plain temp in its definition, any other in the value it is bound to at the point. */
  ghost predicate TempKept(f: Function, i: nat, pc: nat, l: Layout, ssa: map<Ssa, Word>, vals: map<TempId, Val>,
                        t: TempId)
    requires i < |f.blocks| && pc <= |f.blocks[i].computations|
  {
    && t in vals
    && if Plain(f, t) then forall s :: IsName(f, t, s) ==> HoldsWord(l, ssa, s, vals[t])
       else t in At(f, i, pc) && HoldsWord(l, ssa, At(f, i, pc)[t], vals[t])
  }

  /** A function parameter's canonical copy: its home cell, or the argument. */
  ghost predicate ParamKept(f: Function, l: Layout, frame: Frame, vals: map<TempId, Val>, p: TempId)
    requires p in f.params
  {
    && p in vals
    && if HasHome(f, p) then p in frame.homes && Decode(l, frame.homes[p]) == Some(vals[p])
       else HoldsWord(l, frame.ssa, Arg(FirstIndex(f.params, p)), vals[p])
  }

  ghost predicate Kept(f: Function, at: Point, l: Layout, frame: Frame, vals: map<TempId, Val>)
    requires IsPoint(f.blocks, at)
  {
    && (forall t :: LiveAt(f.blocks, at, t) ==> TempKept(f, at.block, at.pc, l, frame.ssa, vals, t))
    && (forall p :: LiveAt(f.blocks, at, p) && p in f.params ==> ParamKept(f, l, frame, vals, p))
    && (forall p :: HasHome(f, p) ==> p in frame.homes)
  }

  ghost predicate Simulates(f: Function, rs: RState, ts: TState) {
    match (rs, ts)
    case (Running(at, vals, hist), TRunning(at', frame, layout, hist')) =>
      at == at' && hist == hist' && IsPoint(f.blocks, at) && Injective(layout) && Kept(f, at, layout, frame, vals)
    case (Returned(r, hist), TReturned(r', hist')) => r == r' && hist == hist'
    case _ => false
  }

  // ----- reading operands -----

  lemma {:induction false} BoundTempHolds(f: Function, i: nat, pc: nat, l: Layout, ssa: map<Ssa, Word>,
                        vals: map<TempId, Val>, t: TempId)
    requires i < |f.blocks| && pc <= |f.blocks[i].computations| && PhisReadAfter(f)
    requires TempKept(f, i, pc, l, ssa, vals, t) && t in At(f, i, pc)
    ensures HoldsWord(l, ssa, At(f, i, pc)[t], vals[t])
  {
    PointBound(f, i, pc);
  }

  /** Reading the SSA names of live temps yields the temps' values. */
  lemma {:induction false} NamesRead(f: Function, at: Point, l: Layout, frame: Frame, vals: map<TempId, Val>,
                        ts: seq<TempId>)
    requires IsPoint(f.blocks, at) && PhisReadAfter(f) && Kept(f, at, l, frame, vals)
    requires Bound(At(f, at.block, at.pc), ts) && forall t :: t in ts ==> LiveAt(f.blocks, at, t)
    ensures ReadVals(l, frame.ssa, Names(At(f, at.block, at.pc), ts)) == ReadAll(vals, ts)
    ensures ReadAll(vals, ts).Some?
    ensures ReadAll(frame.ssa, Names(At(f, at.block, at.pc), ts)).Some?
  {
    hide LiveAt, At, TempKept;
    var names := Names(At(f, at.block, at.pc), ts);
    forall k | 0 <= k < |ts|
      ensures ts[k] in vals && HoldsWord(l, frame.ssa, names[k], vals[ts[k]])
    {
      assert ts[k] in ts && LiveAt(f.blocks, at, ts[k]);
      assert TempKept(f, at.block, at.pc, l, frame.ssa, vals, ts[k]);
      KeptIsDefined(f, at.block, at.pc, l, frame.ssa, vals, ts[k]);
      BoundTempHolds(f, at.block, at.pc, l, frame.ssa, vals, ts[k]);
    }
    NamesReadOut(l, frame.ssa, names, vals, ts);
  }

  lemma KeptIsDefined(f: Function, i: nat, pc: nat, l: Layout, ssa: map<Ssa, Word>, vals: map<TempId, Val>, t: TempId)
    requires i < |f.blocks| && pc <= |f.blocks[i].computations| && TempKept(f, i, pc, l, ssa, vals, t)
    ensures t in vals
  {
  }

  lemma NamesReadOut<K>(l: Layout, cells: map<K, Word>, names: seq<K>, vals: map<TempId, Val>, ts: seq<TempId>)
    requires |names| == |ts|
    requires forall k :: 0 <= k < |ts| ==>
               ts[k] in vals && names[k] in cells && Decode(l, cells[names[k]]) == Some(vals[ts[k]])
    ensures ReadVals(l, cells, names) == ReadAll(vals, ts)
    ensures ReadAll(vals, ts).Some? && ReadAll(cells, names).Some?
  {
    var ws := ReadAll(cells, names).value;
    assert forall k :: 0 <= k < |ws| ==> Decode(l, ws[k]) == Some(vals[ts[k]]);
    assert DecodeAll(l, ws).Some?;
    assert DecodeAll(l, ws).value == ReadAll(vals, ts).value;
  }

  // ----- straight-line code -----

  lemma {:induction false} RunConcat(xs: seq<Instr>, ys: seq<Instr>, r: Frame)
    ensures RunInstrs(xs + ys, r) ==
            match RunInstrs(xs, r)
            case None => None
            case Some(r') => RunInstrs(ys, r')
  {
    if xs == [] {
      assert xs + ys == ys;
    } else {
      assert (xs + ys)[1..] == xs[1..] + ys;
      match RunInstr(xs[0], r)
      case None =>
      case Some(r') => RunConcat(xs[1..], ys, r');
    }
  }

  /** The spills put each name's word in its slot. */
  lemma {:induction false} SpillsRun(names: seq<Ssa>, from: nat, r: Frame) returns (r': Frame)
    requires from <= |names| && forall k :: from <= k < |names| ==> names[k] in r.ssa
    ensures RunInstrs(Spills(names, from), r) == Some(r')
    ensures r'.ssa == r.ssa && r'.homes == r.homes
    ensures forall k :: from <= k < |names| ==> k in r'.slots && r'.slots[k] == r.ssa[names[k]]
    ensures forall k :: k in r.slots && k < from ==> k in r'.slots && r'.slots[k] == r.slots[k]
    decreases |names| - from
  {
    hide RunInstrs;
    if from == |names| {
      r' := r;
      NothingRuns(r);
    } else {
      var next := r.(slots := r.slots[from := r.ssa[names[from]]]);
      r' := SpillsRun(names, from + 1, next);
      RunCons(Spill(from, names[from]), Spills(names, from + 1), r);
    }
  }

  lemma NothingRuns(r: Frame)
    ensures RunInstrs([], r) == Some(r)
  {
  }

  lemma RunCons(x: Instr, xs: seq<Instr>, r: Frame)
    ensures RunInstrs([x] + xs, r) ==
            match RunInstr(x, r)
            case None => None
            case Some(r') => RunInstrs(xs, r')
  {
    assert ([x] + xs)[1..] == xs;
  }

  /** What the reloads leave behind. */
  ghost predicate Reloaded(f: Function, i: nat, pc: nat, roots: seq<TempId>, from: nat, r: Frame, r': Frame)
    requires from <= |roots|
  {
    && r'.slots == r.slots
    && (forall s :: s in r.ssa && !s.Reload? ==> s in r'.ssa && r'.ssa[s] == r.ssa[s])
    && (forall k :: from <= k < |roots| ==>
          Reload(i, pc, k) in r'.ssa && k in r.slots && r'.ssa[Reload(i, pc, k)] == r.slots[k])
    && (forall s: Ssa :: s in r.ssa && s.Reload? && (s.block != i || s.pc != pc || s.slot < from) ==>
          s in r'.ssa && r'.ssa[s] == r.ssa[s])
    && (forall p :: p in r.homes && (p !in roots[from..] || !HasHome(f, p)) ==>
         p in r'.homes && r'.homes[p] == r.homes[p])
    && (forall k :: from <= k < |roots| && HasHome(f, roots[k]) ==>
          roots[k] in r'.homes && k in r.slots && r'.homes[roots[k]] == r.slots[k])
    && (forall p :: p in r.homes ==> p in r'.homes)
  }

  lemma {:induction false} FetchesRun(f: Function, i: nat, pc: nat, roots: seq<TempId>, from: nat,
                        r: Frame) returns (r': Frame)
    requires from <= |roots| && Distinct(roots) && forall k :: from <= k < |roots| ==> k in r.slots
    ensures RunInstrs(Fetches(f, i, pc, roots, from), r) == Some(r')
    ensures Reloaded(f, i, pc, roots, from, r, r')
    decreases |roots| - from
  {
    hide Reloaded, HasHome, RunInstrs, Fetches;
    if from == |roots| {
      r' := r;
      NothingReloaded(f, i, pc, roots, r);
      NothingFetched(f, i, pc, roots, r);
    } else {
      var stored := Stored(f, i, pc, roots, from, r);
      r' := FetchesRun(f, i, pc, roots, from + 1, stored);
      OneFetch(f, i, pc, roots, from, r);
      ReloadedStep(f, i, pc, roots, from, r, stored, r');
    }
  }

  /** The frame after one root's reload. */
  ghost function Stored(f: Function, i: nat, pc: nat, roots: seq<TempId>, from: nat, r: Frame): Frame
    requires from < |roots| && from in r.slots
  {
    Frame(r.ssa[Reload(i, pc, from) := r.slots[from]],
          if HasHome(f, roots[from]) then r.homes[roots[from] := r.slots[from]] else r.homes, r.slots)
  }

  lemma {:induction false} OneFetch(f: Function, i: nat, pc: nat, roots: seq<TempId>, from: nat, r: Frame)
    requires from < |roots| && from in r.slots
    ensures RunInstrs(Fetches(f, i, pc, roots, from), r) ==
            RunInstrs(Fetches(f, i, pc, roots, from + 1), Stored(f, i, pc, roots, from, r))
  {
    hide HasHome, RunInstrs;
    var name, rest := Reload(i, pc, from), Fetches(f, i, pc, roots, from + 1);
    var fetched := r.(ssa := r.ssa[name := r.slots[from]]);
    if HasHome(f, roots[from]) {
      RunCons(StoreHome(roots[from], name), rest, fetched);
      RunCons(Fetch(name, from), [StoreHome(roots[from], name)] + rest, r);
      assert [Fetch(name, from)] + [StoreHome(roots[from], name)] + rest
             == [Fetch(name, from)] + ([StoreHome(roots[from], name)] + rest);
    } else {
      RunCons(Fetch(name, from), rest, r);
      assert [Fetch(name, from)] + [] + rest == [Fetch(name, from)] + rest;
    }
  }

  lemma NothingFetched(f: Function, i: nat, pc: nat, roots: seq<TempId>, r: Frame)
    ensures RunInstrs(Fetches(f, i, pc, roots, |roots|), r) == Some(r)
  {
    NothingRuns(r);
  }

  lemma NothingReloaded(f: Function, i: nat, pc: nat, roots: seq<TempId>, r: Frame)
    ensures Reloaded(f, i, pc, roots, |roots|, r, r)
  {
  }

  lemma ReloadedStep(f: Function, i: nat, pc: nat, roots: seq<TempId>, from: nat, r: Frame, stored: Frame, r': Frame)
    requires from < |roots| && Distinct(roots) && from in r.slots
    requires stored == Stored(f, i, pc, roots, from, r)
    requires Reloaded(f, i, pc, roots, from + 1, stored, r')
    ensures Reloaded(f, i, pc, roots, from, r, r')
  {
    var t := roots[from];
    assert roots[from..] == [t] + roots[from + 1..];
    assert t !in roots[from + 1..];
    assert HasHome(f, t) ==> t in stored.homes && stored.homes[t] == r.slots[from];
    assert Reload(i, pc, from) in stored.ssa;
  }

  // ----- one computation -----

  /** The layout change does not disturb a kept word: nothing moved, or the word is an
      immediate. */
  ghost predicate Undisturbed(l: Layout, l': Layout, v: Val) {
    v.Imm? || forall id :: id in l ==> id in l' && l'[id] == l[id]
  }

  lemma UndisturbedDecode(l: Layout, l': Layout, w: Word, v: Val)
    requires Injective(l') && Decode(l, w) == Some(v) && Undisturbed(l, l', v)
    ensures Decode(l', w) == Some(v)
  {
    if v.Obj? {
      DecodeInExtension(l, l', w);
    }
  }

  /** A plain temp other than the result keeps its word: its definition is not the one just
      computed, and no reload. */
  lemma PlainKept(f: Function, i: nat, pc: nat, l: Layout, l': Layout, r: Frame, r': Frame,
                  vals: map<TempId, Val>, answer: Val, t: TempId)
    requires i < |f.blocks| && pc < |f.blocks[i].computations| && Plain(f, t)
    requires t != f.blocks[i].computations[pc].dst
    requires TempKept(f, i, pc, l, r.ssa, vals, t) && Injective(l') && Undisturbed(l, l', vals[t])
    requires forall s :: s in r.ssa && !s.Reload? && s != Value(i, pc) ==> s in r'.ssa && r'.ssa[s] == r.ssa[s]
    ensures TempKept(f, i, pc + 1, l', r'.ssa, vals[f.blocks[i].computations[pc].dst := answer], t)
  {
    hide At;
    forall s | IsName(f, t, s)
      ensures HoldsWord(l', r'.ssa, s, vals[t])
    {
      assert HoldsWord(l, r.ssa, s, vals[t]);
      UndisturbedDecode(l, l', r.ssa[s], vals[t]);
    }
  }

  /** A rebindable temp that is neither the result nor a root keeps both its binding and
      the word in it. */
  lemma {:induction false} BoundKept(f: Function, i: nat, pc: nat, l: Layout, l': Layout, r: Frame, r': Frame,
                  vals: map<TempId, Val>, answer: Val, t: TempId)
    requires i < |f.blocks| && pc < |f.blocks[i].computations| && !Plain(f, t) && PhisReadAfter(f)
    requires var c := f.blocks[i].computations[pc]; t != c.dst && t !in RootsOfCall(c)
    requires TempKept(f, i, pc, l, r.ssa, vals, t) && Injective(l') && Undisturbed(l, l', vals[t])
    requires forall s :: s in r.ssa && !s.Reload? && s != Value(i, pc) ==> s in r'.ssa && r'.ssa[s] == r.ssa[s]
    requires forall s: Ssa :: s in r.ssa && s.Reload? && (s.block != i || s.pc != pc) ==>
               s in r'.ssa && r'.ssa[s] == r.ssa[s]
    ensures TempKept(f, i, pc + 1, l', r'.ssa, vals[f.blocks[i].computations[pc].dst := answer], t)
  {
    PointBound(f, i, pc);
    var b := At(f, i, pc);
    assert BeforePoint(f, t, b[t], i, pc);
    var c := f.blocks[i].computations[pc];
    OtherBindingStays(c, i, pc, b, t);
    UndisturbedDecode(l, l', r.ssa[b[t]], vals[t]);
  }

  lemma OtherBindingStays(c: Computation, i: nat, pc: nat, b: Bindings, t: TempId)
    requires t in b && t != c.dst && t !in RootsOfCall(c)
    ensures var b' := AfterComputation(c, i, pc, b); t in b' && b'[t] == b[t]
  {
  }

  lemma RootRebound(c: Computation, i: nat, pc: nat, b: Bindings, k: nat)
    requires k < |RootsOfCall(c)| && Distinct(RootsOfCall(c)) && RootsOfCall(c)[k] != c.dst
    ensures var b' := AfterComputation(c, i, pc, b);
            RootsOfCall(c)[k] in b' && b'[RootsOfCall(c)[k]] == Reload(i, pc, k)
  {
    BindDistinct(b, RootsOfCall(c), ReloadNames(i, pc, |RootsOfCall(c)|), k);
  }

  /** What the operation and the reloads of a computation do to the frame, as far as later
      points can tell. `moved` says for each root what its word became. */
  ghost predicate Performed(f: Function, i: nat, pc: nat, l: Layout, l': Layout, r: Frame, r': Frame,
                            vals: map<TempId, Val>, answer: Val)
    requires i < |f.blocks| && pc < |f.blocks[i].computations|
  {
    && PerformedSsa(f, i, pc, l', r, r', vals, answer)
    && PerformedHomes(f, i, pc, l', r, r', vals)
  }

  ghost predicate PerformedSsa(f: Function, i: nat, pc: nat, l': Layout, r: Frame, r': Frame,
                               vals: map<TempId, Val>, answer: Val)
    requires i < |f.blocks| && pc < |f.blocks[i].computations|
  {
    var c := f.blocks[i].computations[pc];
    var roots := RootsOfCall(c);
    && (forall s :: s in r.ssa && !s.Reload? && s != Value(i, pc) ==> s in r'.ssa && r'.ssa[s] == r.ssa[s])
    && (forall s: Ssa :: s in r.ssa && s.Reload? && (s.block != i || s.pc != pc) ==>
         s in r'.ssa && r'.ssa[s] == r.ssa[s])
    && (forall k :: 0 <= k < |roots| ==> roots[k] in vals && HoldsWord(l', r'.ssa, Reload(i, pc, k), vals[roots[k]]))
    && (!c.StoreSlot? ==> HoldsWord(l', r'.ssa, Value(i, pc), answer))
  }

  ghost predicate PerformedHomes(f: Function, i: nat, pc: nat, l': Layout, r: Frame, r': Frame, vals: map<TempId, Val>)
    requires i < |f.blocks| && pc < |f.blocks[i].computations|
  {
    var roots := RootsOfCall(f.blocks[i].computations[pc]);
    && (forall p :: p in r.homes && (p !in roots || !HasHome(f, p)) ==> p in r'.homes && r'.homes[p] == r.homes[p])
    && (forall p :: p in roots && HasHome(f, p) ==>
         p in r'.homes && p in vals && Decode(l', r'.homes[p]) == Some(vals[p]))
    && (forall p :: p in r.homes ==> p in r'.homes)
  }

  /** Every temp live after the computation is kept, in the new layout. */
  lemma LiveTempKept(f: Function, at: Point, l: Layout, l': Layout, r: Frame, r': Frame,
                     vals: map<TempId, Val>, answer: Val, t: TempId)
    requires IsPoint(f.blocks, at) && !AtTerminator(f.blocks, at)
    requires SingleDefs(f) && PhisReadAfter(f) && Kept(f, at, l, r, vals) && Injective(l')
    requires Performed(f, at.block, at.pc, l, l', r, r', vals, answer)
    requires Distinct(RootsOfCall(f.blocks[at.block].computations[at.pc]))
    requires var c := f.blocks[at.block].computations[at.pc];
             c.StoreSlot? ==> c.stored in vals && answer == vals[c.stored] && LiveAt(f.blocks, at, c.stored)
                              && c.stored in At(f, at.block, at.pc) && Undisturbed(l, l', answer)
    requires LiveAt(f.blocks, Point(at.block, at.pc + 1), t)
    requires t != f.blocks[at.block].computations[at.pc].dst
               && t !in RootsOfCall(f.blocks[at.block].computations[at.pc]) ==>
               t in vals ==> Undisturbed(l, l', vals[t])
    ensures TempKept(f, at.block, at.pc + 1, l', r'.ssa, vals[f.blocks[at.block].computations[at.pc].dst := answer], t)
  {
    hide LiveAt, At, AfterComputation;
    var i, pc := at.block, at.pc;
    var c := f.blocks[i].computations[pc];
    if t == c.dst {
      ResultKept(f, at, l, l', r, r', vals, answer);
    } else {
      LiveAtComputation(f.blocks, at, t);
      KeptIsDefined(f, i, pc, l, r.ssa, vals, t);
      if Plain(f, t) {
        RootsAreNotPlain(f, i, pc, t);
        PlainKept(f, i, pc, l, l', r, r', vals, answer, t);
      } else if t in RootsOfCall(c) {
        RootKept(f, at, l', r', vals, answer, t);
      } else {
        BoundKept(f, i, pc, l, l', r, r', vals, answer, t);
      }
    }
  }

  lemma RootsAreNotPlain(f: Function, i: nat, pc: nat, t: TempId)
    requires i < |f.blocks| && pc < |f.blocks[i].computations| && Plain(f, t)
    ensures t !in RootsOfCall(f.blocks[i].computations[pc])
    ensures f.blocks[i].computations[pc].StoreSlot? ==> t != f.blocks[i].computations[pc].dst
  {
    assert !Rebinds(f.blocks[i].computations[pc], t);
  }

  lemma {:induction false} RootKept(f: Function, at: Point, l': Layout, r': Frame, vals: map<TempId, Val>,
                        answer: Val, t: TempId)
    requires IsPoint(f.blocks, at) && !AtTerminator(f.blocks, at)
    requires var c := f.blocks[at.block].computations[at.pc];
             && t in RootsOfCall(c) && t != c.dst && Distinct(RootsOfCall(c))
             && forall k :: 0 <= k < |RootsOfCall(c)| ==>
                  RootsOfCall(c)[k] in vals && HoldsWord(l', r'.ssa, Reload(at.block, at.pc, k),
                      vals[RootsOfCall(c)[k]])
    ensures TempKept(f, at.block, at.pc + 1, l', r'.ssa, vals[f.blocks[at.block].computations[at.pc].dst := answer], t)
  {
    var c := f.blocks[at.block].computations[at.pc];
    var k :| 0 <= k < |RootsOfCall(c)| && RootsOfCall(c)[k] == t;
    assert Rebinds(c, t);
    RootRebound(c, at.block, at.pc, At(f, at.block, at.pc), k);
  }

  lemma ResultKept(f: Function, at: Point, l: Layout, l': Layout, r: Frame, r': Frame, vals: map<TempId, Val>,
                   answer: Val)
    requires IsPoint(f.blocks, at) && !AtTerminator(f.blocks, at)
    requires SingleDefs(f) && PhisReadAfter(f) && Kept(f, at, l, r, vals) && Injective(l')
    requires Performed(f, at.block, at.pc, l, l', r, r', vals, answer)
    requires var c := f.blocks[at.block].computations[at.pc];
             c.StoreSlot? ==> c.stored in vals && answer == vals[c.stored] && LiveAt(f.blocks, at, c.stored)
                              && c.stored in At(f, at.block, at.pc) && Undisturbed(l, l', answer)
    ensures var c := f.blocks[at.block].computations[at.pc];
            TempKept(f, at.block, at.pc + 1, l', r'.ssa, vals[c.dst := answer], c.dst)
  {
    hide LiveAt, At, AfterComputation, Plain;
    var i, pc := at.block, at.pc;
    var c := f.blocks[i].computations[pc];
    if c.StoreSlot? {
      assert TempKept(f, i, pc, l, r.ssa, vals, c.stored);
      StoreResultKept(f, i, pc, l, l', r, r', vals, answer);
    } else {
      NamesOfResult(f, i, pc);
      ValueBinds(f, i, pc);
    }
  }

  lemma {:induction false} StoreResultKept(f: Function, i: nat, pc: nat, l: Layout, l': Layout, r: Frame, r': Frame,
                        vals: map<TempId, Val>, answer: Val)
    requires i < |f.blocks| && pc < |f.blocks[i].computations| && PhisReadAfter(f) && Injective(l')
    requires var c := f.blocks[i].computations[pc];
             && c.StoreSlot? && TempKept(f, i, pc, l, r.ssa, vals, c.stored) && answer == vals[c.stored]
             && c.stored in At(f, i, pc) && Undisturbed(l, l', answer)
    requires forall s :: s in r.ssa && !s.Reload? && s != Value(i, pc) ==> s in r'.ssa && r'.ssa[s] == r.ssa[s]
    requires forall s: Ssa :: s in r.ssa && s.Reload? && (s.block != i || s.pc != pc) ==>
               s in r'.ssa && r'.ssa[s] == r.ssa[s]
    ensures var c := f.blocks[i].computations[pc];
            TempKept(f, i, pc + 1, l', r'.ssa, vals[c.dst := answer], c.dst)
  {
    hide AfterComputation;
    var c, b := f.blocks[i].computations[pc], At(f, i, pc);
    assert Rebinds(c, c.dst);
    BoundTempHolds(f, i, pc, l, r.ssa, vals, c.stored);
    PointBound(f, i, pc);
    assert BeforePoint(f, c.stored, b[c.stored], i, pc);
    UndisturbedDecode(l, l', r.ssa[b[c.stored]], answer);
    StoreBinds(c, i, pc, b);
  }

  lemma ValueBinds(f: Function, i: nat, pc: nat)
    requires i < |f.blocks| && pc < |f.blocks[i].computations| && !f.blocks[i].computations[pc].StoreSlot?
    ensures var dst := f.blocks[i].computations[pc].dst;
            dst in At(f, i, pc + 1) && At(f, i, pc + 1)[dst] == Value(i, pc)
  {
  }

  lemma StoreBinds(c: Computation, i: nat, pc: nat, b: Bindings)
    requires c.StoreSlot? && c.stored in b
    ensures var b' := AfterComputation(c, i, pc, b); c.dst in b' && b'[c.dst] == b[c.stored]
  {
  }

  function NameSite(s: Ssa): Site
    requires s.Value? || s.Phi?
  {
    match s
    case Value(i, pc) => ResultSite(i, pc)
    case Phi(i, k) => BlockParamSite(i, k)
  }

  /** Under single assignment a temp has at most one defining name. */
  lemma NamesUnique(f: Function, t: TempId, s1: Ssa, s2: Ssa)
    requires SingleDefs(f) && IsName(f, t, s1) && IsName(f, t, s2)
    ensures s1 == s2
  {
    assert DefinedAt(f, NameSite(s1)) == Some(t) && DefinedAt(f, NameSite(s2)) == Some(t);
  }

  lemma NamesOfResult(f: Function, i: nat, pc: nat)
    requires i < |f.blocks| && pc < |f.blocks[i].computations| && SingleDefs(f)
    ensures forall s :: IsName(f, f.blocks[i].computations[pc].dst, s) ==> s == Value(i, pc)
  {
    var t := f.blocks[i].computations[pc].dst;
    forall s | IsName(f, t, s)
      ensures s == Value(i, pc)
    {
      NamesUnique(f, t, s, Value(i, pc));
    }
  }

  lemma ResultIsNoParam(f: Function, i: nat, pc: nat)
    requires i < |f.blocks| && pc < |f.blocks[i].computations| && SingleDefs(f)
    ensures f.blocks[i].computations[pc].dst !in f.params
  {
    assert DefinedAt(f, ResultSite(i, pc)) == Some(f.blocks[i].computations[pc].dst);
    forall k | 0 <= k < |f.params|
      ensures f.params[k] != f.blocks[i].computations[pc].dst
    {
      assert DefinedAt(f, ParamSite(k)) == Some(f.params[k]);
    }
  }

  /** A parameter without a home is never a root. */
  lemma HomelessUnprotected(f: Function, p: TempId)
    requires p in f.params && !HasHome(f, p) && UniqueTempIds(f.temps)
    ensures !Protected(f.temps, p)
  {
    TempLookupsAgree(f.temps, p);
  }

  /** Every parameter live after the computation keeps its canonical copy. */
  lemma LiveParamKept(f: Function, at: Point, l: Layout, l': Layout, r: Frame, r': Frame,
                      vals: map<TempId, Val>, answer: Val, p: TempId)
    requires IsPoint(f.blocks, at) && !AtTerminator(f.blocks, at)
    requires SingleDefs(f) && UniqueTempIds(f.temps) && Kept(f, at, l, r, vals) && Injective(l')
    requires Performed(f, at.block, at.pc, l, l', r, r', vals, answer)
    requires forall t :: t in RootsOfCall(f.blocks[at.block].computations[at.pc]) ==> Protected(f.temps, t)
    requires LiveAt(f.blocks, Point(at.block, at.pc + 1), p) && p in f.params
    requires p !in RootsOfCall(f.blocks[at.block].computations[at.pc]) ==> p in vals ==> Undisturbed(l, l', vals[p])
    ensures ParamKept(f, l', r', vals[f.blocks[at.block].computations[at.pc].dst := answer], p)
  {
    hide LiveAt, TempKept;
    ResultIsNoParam(f, at.block, at.pc);
    LiveAtComputation(f.blocks, at, p);
    assert ParamKept(f, l, r, vals, p);
    if !HasHome(f, p) {
      HomelessUnprotected(f, p);
      UndisturbedDecode(l, l', r.ssa[Arg(FirstIndex(f.params, p))], vals[p]);
    } else if p !in RootsOfCall(f.blocks[at.block].computations[at.pc]) {
      UndisturbedDecode(l, l', r.homes[p], vals[p]);
    }
  }

  // ----- running a chunk -----

  /** The frame after the spills, for the roots of the call. */
  ghost predicate Spilled(f: Function, at: Point, r: Frame, spilled: Frame)
    requires IsPoint(f.blocks, at) && !AtTerminator(f.blocks, at)
    requires Bound(At(f, at.block, at.pc), RootsOfCall(f.blocks[at.block].computations[at.pc]))
  {
    var roots := RootsOfCall(f.blocks[at.block].computations[at.pc]);
    var b := At(f, at.block, at.pc);
    && spilled.ssa == r.ssa && spilled.homes == r.homes
    && forall k :: 0 <= k < |roots| ==>
         && k in spilled.slots && Names(b, roots)[k] in r.ssa && spilled.slots[k] == r.ssa[Names(b, roots)[k]]
  }

  /** What the collector leaves in the published slots. */
  ghost predicate SlotsHold(l: Layout, slots: map<nat, Word>, roots: seq<TempId>, vals: map<TempId, Val>) {
    forall k :: 0 <= k < |roots| ==> k in slots && roots[k] in vals && Decode(l, slots[k]) == Some(vals[roots[k]])
  }

  lemma {:induction false} SpilledHold(f: Function, at: Point, l: Layout, r: Frame, spilled: Frame,
                        vals: map<TempId, Val>)
    requires IsPoint(f.blocks, at) && !AtTerminator(f.blocks, at) && PhisReadAfter(f)
    requires Kept(f, at, l, r, vals)
    requires var roots := RootsOfCall(f.blocks[at.block].computations[at.pc]);
             && Bound(At(f, at.block, at.pc), roots)
             && (forall t :: t in roots ==> LiveAt(f.blocks, at, t))
    requires Spilled(f, at, r, spilled)
    ensures SlotsHold(l, spilled.slots, RootsOfCall(f.blocks[at.block].computations[at.pc]), vals)
  {
    hide LiveAt, At;
    var roots := RootsOfCall(f.blocks[at.block].computations[at.pc]);
    NamesRead(f, at, l, r, vals, roots);
    var names := Names(At(f, at.block, at.pc), roots);
    forall k | 0 <= k < |roots|
      ensures k in spilled.slots && roots[k] in vals && Decode(l, spilled.slots[k]) == Some(vals[roots[k]])
    {
      assert spilled.slots[k] == r.ssa[names[k]];
      assert Decode(l, ReadAll(r.ssa, names).value[k]) == Some(ReadAll(vals, roots).value[k]);
    }
  }

  /** The collector can forward the published slots, and they hold again afterwards. */
  lemma {:induction false} SlotsForwarded(l: Layout, l': Layout, slots: map<nat, Word>, roots: seq<TempId>,
                        vals: map<TempId, Val>)
    returns (slots': map<nat, Word>)
    requires SlotsHold(l, slots, roots, vals) && Injective(l')
    requires forall rs :: ReadVals(l, slots, SlotIndices(|roots|)) == Some(rs) ==> Covers(l', rs)
    ensures ForwardSlots(slots, |roots|, l, l') == Some(slots')
    ensures SlotsHold(l', slots', roots, vals)
  {
    var indices := SlotIndices(|roots|);
    NamesReadOut(l, slots, indices, vals, roots);
    var vs := ReadAll(vals, roots).value;
    var ws := ForwardedWords(l', vs);
    slots' := Bind(slots, indices, ws);
    forall k | 0 <= k < |roots|
      ensures k in slots' && Decode(l', slots'[k]) == Some(vals[roots[k]])
    {
      BindDistinct(slots, indices, ws, k);
    }
  }

  /** The roots of a call are live at it and protected, and there are none elsewhere. */
  lemma RootsAreLive(f: Function, at: Point)
    requires IsPoint(f.blocks, at) && !AtTerminator(f.blocks, at) && RootsExact(f) && NoAllocRootsEmpty(f)
    ensures var c := f.blocks[at.block].computations[at.pc];
            && Distinct(RootsOfCall(c))
            && (forall t :: t in RootsOfCall(c) ==> LiveAt(f.blocks, at, t) && Protected(f.temps, t))
            && (!c.IsPotentiallyAllocatingCall() ==> RootsOfCall(c) == [])
            && (c.IsPotentiallyAllocatingCall() ==>
                  forall t :: LiveAcross(f.blocks, at.block, at.pc, t) && t !in RootsOfCall(c) ==>
                      !Protected(f.temps, t))
  {
    hide LiveAt;
    var c := f.blocks[at.block].computations[at.pc];
    if c.IsPotentiallyAllocatingCall() {
      assert IsRootList(f, at.block, at.pc, c.roots);
      forall t | t in c.roots
        ensures LiveAt(f.blocks, at, t)
      {
        LiveAtComputation(f.blocks, at, t);
      }
    }
  }

  /** What the step at `at` will see: the chunk, its spills done, and the operand values. */
  lemma {:induction false} ChunkStarts(f: Function, at: Point, l: Layout, r: Frame, vals: map<TempId, Val>)
    returns (spilled: Frame, ops: seq<Val>)
    requires Compilable(f) && IsPoint(f.blocks, at) && !AtTerminator(f.blocks, at) && Kept(f, at, l, r, vals)
    ensures BlockEmittable(f, at.block)
    ensures var chunk := ChunkAt(f, at.block, at.pc);
            RunInstrs(chunk.before, r) == Some(spilled)
    ensures Bound(At(f, at.block, at.pc), RootsOfCall(f.blocks[at.block].computations[at.pc]))
    ensures Spilled(f, at, r, spilled)
    ensures SlotsHold(l, spilled.slots, RootsOfCall(f.blocks[at.block].computations[at.pc]), vals)
    ensures var c := f.blocks[at.block].computations[at.pc];
            ReadAll(vals, c.Operands()) == Some(ops)
            && ReadVals(l, spilled.ssa, ChunkAt(f, at.block, at.pc).op.args) == Some(ops)
  {
    hide LiveAt, At, TempKept, ParamKept, EdgeContract, SingleDefs, WellFormed, RootsExact, NoAllocRootsEmpty;
    assert BlockEmittable(f, at.block);
    var c, b := f.blocks[at.block].computations[at.pc], At(f, at.block, at.pc);
    assert ComputationEmittable(c, b);
    RootsAreLive(f, at);
    NamesRead(f, at, l, r, vals, RootsOfCall(c));
    spilled := SpillsRun(Names(b, RootsOfCall(c)), 0, r);
    SpilledHold(f, at, l, r, spilled, vals);
    forall t | t in c.Operands()
      ensures LiveAt(f.blocks, at, t)
    {
      ReadIsLive(f.blocks, at, t);
    }
    NamesRead(f, at, l, r, vals, c.Operands());
    ops := ReadAll(vals, c.Operands()).value;
  }

  /** The operation, whose layout change the collector chose legally. */
  lemma OpRuns(env: Environment, op: Op, roots: seq<TempId>, spilled: Frame, l: Layout, hist: seq<Event>, l': Layout,
               ops: seq<Val>, vals: map<TempId, Val>) returns (done: Frame)
    requires |op.args| == |op.c.Operands()| && op.slots == |roots| && Injective(l')
    requires ReadVals(l, spilled.ssa, op.args) == Some(ops) && SlotsHold(l, spilled.slots, roots, vals)
    requires Covers(l', [Answer(env, op.c, hist, op.at, ops)])
    requires if op.c.IsPotentiallyAllocatingCall()
             then forall rs :: ReadVals(l, spilled.slots, SlotIndices(op.slots)) == Some(rs) ==> Covers(l', rs)
             else roots == []
    ensures var answer := Answer(env, op.c, hist, op.at, ops);
            && RunOp(env, op, spilled, l, hist, l') == Some((done, Event(op.at, ops, answer)))
            && done.homes == spilled.homes && SlotsHold(l', done.slots, roots, vals)
            && (op.dst.None? ==> done.ssa == spilled.ssa)
            && (op.dst.Some? ==> exists w ::
                 done.ssa == spilled.ssa[op.dst.value := w] && Decode(l', w) == Some(answer))
  {
    var answer := Answer(env, op.c, hist, op.at, ops);
    assert answer in [answer];
    DecodeEncode(l', answer);
    var w := Encode(l', answer).value;
    var slots' := spilled.slots;
    if op.c.IsPotentiallyAllocatingCall() {
      slots' := SlotsForwarded(l, l', spilled.slots, roots, vals);
    }
    done := Frame(if op.dst.Some? then spilled.ssa[op.dst.value := w] else spilled.ssa, spilled.homes, slots');
  }

  /** What a legal layout change means at a chunk whose spills and operands are fine. */
  lemma LegalAtChunk(code: Code, env: Environment, s: TState, l': Layout, spilled: Frame, ops: seq<Val>)
    requires OpsFit(code) && s.TRunning? && IsCodePoint(code, s.at) && s.at.pc < |code.blocks[s.at.block].body|
    requires TLegal(code, env, s, l')
    requires var chunk := code.blocks[s.at.block].body[s.at.pc];
             RunInstrs(chunk.before, s.frame) == Some(spilled)
                 && ReadVals(s.layout, spilled.ssa, chunk.op.args) == Some(ops)
    ensures Injective(l')
    ensures var op := code.blocks[s.at.block].body[s.at.pc].op;
            && Covers(l', [Answer(env, op.c, s.hist, op.at, ops)])
            && (op.c.IsPotentiallyAllocatingCall() ==>
                  forall rs :: ReadVals(s.layout, spilled.slots, SlotIndices(op.slots)) == Some(rs) ==> Covers(l', rs))
            && (!op.c.IsPotentiallyAllocatingCall() ==> forall id :: id in s.layout ==>
                 id in l' && l'[id] == s.layout[id])
  {
  }

  lemma StepAtChunk(code: Code, env: Environment, s: TState, l': Layout, spilled: Frame, done: Frame, event: Event,
                    r': Frame)
    requires OpsFit(code) && s.TRunning? && IsCodePoint(code, s.at) && s.at.pc < |code.blocks[s.at.block].body|
    requires var chunk := code.blocks[s.at.block].body[s.at.pc];
             && RunInstrs(chunk.before, s.frame) == Some(spilled)
             && RunOp(env, chunk.op, spilled, s.layout, s.hist, l') == Some((done, event))
             && RunInstrs(chunk.after, done) == Some(r')
    ensures TStep(code, env, s, l') == Some(TRunning(Point(s.at.block, s.at.pc + 1), r', l', s.hist + [event]))
  {
  }

  /** A whole chunk: spill, operate, reload. */
  lemma {:induction false} ChunkRuns(f: Function, env: Environment, ts: TState, vals: map<TempId, Val>, l': Layout,
                        code: Code)
    returns (r': Frame, ops: seq<Val>)
    requires Compilable(f) && ts.TRunning? && IsPoint(f.blocks, ts.at) && !AtTerminator(f.blocks, ts.at)
    requires Kept(f, ts.at, ts.layout, ts.frame, vals)
    requires OpsFit(code) && IsCodePoint(code, ts.at) && ts.at.pc < |code.blocks[ts.at.block].body|
    requires BlockEmittable(f, ts.at.block)
               && code.blocks[ts.at.block].body[ts.at.pc] == ChunkAt(f, ts.at.block, ts.at.pc)
    requires TLegal(code, env, ts, l')
    ensures Injective(l')
    ensures var c := f.blocks[ts.at.block].computations[ts.at.pc];
            ReadAll(vals, c.Operands()) == Some(ops)
    ensures var c := f.blocks[ts.at.block].computations[ts.at.pc];
            var answer := Answer(env, c, ts.hist, ts.at, ops);
            && TStep(code, env, ts, l') ==
               Some(TRunning(Point(ts.at.block, ts.at.pc + 1), r', l', ts.hist + [Event(ts.at, ops, answer)]))
            && Performed(f, ts.at.block, ts.at.pc, ts.layout, l', ts.frame, r', vals, answer)
            && (!c.IsPotentiallyAllocatingCall() ==> forall v :: Undisturbed(ts.layout, l', v))
  {
    hide LiveAt, At, Kept, EdgeContract, SingleDefs, WellFormed, Emittable, TStep, TLegal, RunInstrs, SlotsHold,
      RunOp, Reloaded;
    var c, chunk := f.blocks[ts.at.block].computations[ts.at.pc], ChunkAt(f, ts.at.block, ts.at.pc);
    var roots := RootsOfCall(c);
    var spilled;
    spilled, ops := ChunkStarts(f, ts.at, ts.layout, ts.frame, vals);
    LegalAtChunk(code, env, ts, l', spilled, ops);
    RootsAreLive(f, ts.at);
    var done := OpRuns(env, chunk.op, roots, spilled, ts.layout, ts.hist, l', ops, vals);
    SlotsPresent(l', done.slots, roots, vals);
    r' := FetchesRun(f, ts.at.block, ts.at.pc, roots, 0, done);
    var answer := Answer(env, c, ts.hist, ts.at, ops);
    StepAtChunk(code, env, ts, l', spilled, done, Event(ts.at, ops, answer), r');
    SsaPerformed(f, ts.at, l', ts.frame, done, r', vals, answer);
    HomesPerformed(f, ts.at, l', ts.frame, done, r', vals, answer);
  }

  lemma SlotsPresent(l: Layout, slots: map<nat, Word>, roots: seq<TempId>, vals: map<TempId, Val>)
    requires SlotsHold(l, slots, roots, vals)
    ensures forall k :: 0 <= k < |roots| ==> k in slots
  {
  }

  /** A chunk that ran, without its code: what the spills and the operation left, and the
      reloads after them. */
  ghost predicate ChunkRan(f: Function, at: Point, l': Layout, r: Frame, done: Frame, r': Frame,
                           vals: map<TempId, Val>, answer: Val)
    requires IsPoint(f.blocks, at) && !AtTerminator(f.blocks, at)
  {
    var c := f.blocks[at.block].computations[at.pc];
    var roots := RootsOfCall(c);
    && done.homes == r.homes
    && SlotsHold(l', done.slots, roots, vals)
    && (c.StoreSlot? ==> done.ssa == r.ssa)
    && (!c.StoreSlot? ==> exists w :: done.ssa == r.ssa[Value(at.block, at.pc) := w] && Decode(l', w) == Some(answer))
    && Reloaded(f, at.block, at.pc, roots, 0, done, r')
  }

  lemma SsaPerformed(f: Function, at: Point, l': Layout, r: Frame, done: Frame, r': Frame, vals: map<TempId, Val>,
                     answer: Val)
    requires IsPoint(f.blocks, at) && !AtTerminator(f.blocks, at) && ChunkRan(f, at, l', r, done, r', vals, answer)
    ensures PerformedSsa(f, at.block, at.pc, l', r, r', vals, answer)
  {
    hide HasHome, Decode;
  }

  lemma HomesPerformed(f: Function, at: Point, l': Layout, r: Frame, done: Frame, r': Frame, vals: map<TempId,
                       Val>, answer: Val)
    requires IsPoint(f.blocks, at) && !AtTerminator(f.blocks, at) && ChunkRan(f, at, l', r, done, r', vals, answer)
    ensures PerformedHomes(f, at.block, at.pc, l', r, r', vals)
  {
    hide HasHome, Decode;
    var roots := RootsOfCall(f.blocks[at.block].computations[at.pc]);
    assert roots[0..] == roots;
    forall p | p in roots && HasHome(f, p)
      ensures p in r'.homes && p in vals && Decode(l', r'.homes[p]) == Some(vals[p])
    {
      var k :| 0 <= k < |roots| && roots[k] == p;
    }
  }

  // ----- a step at a computation -----

  /** The emitted code has the function's shape. */
  lemma {:induction false} CodeShape(f: Function, at: Point)
    requires Emittable(f) && IsPoint(f.blocks, at)
    ensures var code := CodeOf(f);
            && |code.blocks| == |f.blocks| && IsCodePoint(code, at) && OpsFit(code)
            && |code.blocks[at.block].body| == |f.blocks[at.block].computations|
            && BlockEmittable(f, at.block)
            && code.blocks[at.block] == EmittedOf(f, at.block)
            && (at.pc < |code.blocks[at.block].body| ==>
                  code.blocks[at.block].body[at.pc] == ChunkAt(f, at.block, at.pc))
  {
    hide At, OpsFit;
    var code := CodeOf(f);
    assert BlockEmittable(f, at.block) && code.blocks[at.block] == EmittedOf(f, at.block);
    if at.pc < |code.blocks[at.block].body| {
      BodyIsChunks(f, at.block, |f.blocks[at.block].computations|, at.pc);
    }
  }

  lemma {:induction false} ComputationSimulated(f: Function, env: Environment, rs: RState, ts: TState, l': Layout)
    requires Compilable(f) && Simulates(f, rs, ts) && rs.Running? && !AtTerminator(f.blocks, rs.at) && TypesSound(f, rs)
    requires OpsFit(CodeOf(f)) && IsCodePoint(CodeOf(f), ts.at) && TLegal(CodeOf(f), env, ts, l')
    ensures var r, t := RStep(f.blocks, env, rs), TStep(CodeOf(f), env, ts, l');
            r.Some? && t.Some? && Simulates(f, r.value, t.value)
  {
    hide LiveAt, At, EdgeContract, Performed, TempKept, ParamKept, CodeOf, ChunkAt, TLegal, TStep;
    var at, vals := rs.at, rs.vals;
    var c := f.blocks[at.block].computations[at.pc];
    CodeShape(f, at);
    var r', ops := ChunkRuns(f, env, ts, vals, l', CodeOf(f));
    var answer := Answer(env, c, rs.hist, at, ops);
    RootsAreLive(f, at);
    KeptAfter(f, rs, ts.layout, l', ts.frame, r', ops, answer);
  }

  lemma KeptAfter(f: Function, rs: RState, l: Layout, l': Layout, r: Frame, r': Frame, ops: seq<Val>, answer: Val)
    requires Compilable(f) && rs.Running? && IsPoint(f.blocks, rs.at) && !AtTerminator(f.blocks, rs.at)
               && TypesSound(f, rs)
    requires Kept(f, rs.at, l, r, rs.vals)
    requires var c := f.blocks[rs.at.block].computations[rs.at.pc];
             && ReadAll(rs.vals, c.Operands()) == Some(ops)
             && (c.StoreSlot? ==> answer == ops[1])
             && (!c.IsPotentiallyAllocatingCall() ==> forall v :: Undisturbed(l, l', v))
    requires Performed(f, rs.at.block, rs.at.pc, l, l', r, r', rs.vals, answer)
    requires Injective(l')
    ensures Kept(f, Point(rs.at.block, rs.at.pc + 1), l', r',
                 rs.vals[f.blocks[rs.at.block].computations[rs.at.pc].dst := answer])
  {
    hide LiveAt, At, EdgeContract, Performed, TempKept, ParamKept, WellFormed, RootsExact, NoAllocRootsEmpty,
      SingleDefs,
      PhisReadAfter, EntryFirst, UniqueBlockIds, UniqueTempIds, BlockEmittable, Injective;
    var at, vals, next := rs.at, rs.vals, Point(rs.at.block, rs.at.pc + 1);
    var c := f.blocks[at.block].computations[at.pc];
    RootsAreLive(f, at);
    UnprotectedAreImmediate(f, rs);
    forall t: TempId | LiveAt(f.blocks, next, t)
      ensures t != c.dst && t !in RootsOfCall(c) ==> t in vals ==> Undisturbed(l, l', vals[t])
    {
      LiveAtComputation(f.blocks, at, t);
    }
    if c.StoreSlot? {
      StoredOperand(f, at, vals, ops);
    }
    forall t: TempId | LiveAt(f.blocks, next, t)
      ensures TempKept(f, next.block, next.pc, l', r'.ssa, vals[c.dst := answer], t)
    {
      LiveTempKept(f, at, l, l', r, r', vals, answer, t);
    }
    forall p | LiveAt(f.blocks, next, p) && p in f.params
      ensures ParamKept(f, l', r', vals[c.dst := answer], p)
    {
      ResultIsNoParam(f, at.block, at.pc);
      LiveParamKept(f, at, l, l', r, r', vals, answer, p);
    }
    HomesStay(f, at, l, l', r, r', vals, answer);
  }

  lemma HomesStay(f: Function, at: Point, l: Layout, l': Layout, r: Frame, r': Frame, vals: map<TempId, Val>,
                  answer: Val)
    requires IsPoint(f.blocks, at) && !AtTerminator(f.blocks, at) && Kept(f, at, l, r, vals)
    requires Performed(f, at.block, at.pc, l, l', r, r', vals, answer)
    ensures forall p :: HasHome(f, p) ==> p in r'.homes
  {
  }

  lemma StoredOperand(f: Function, at: Point, vals: map<TempId, Val>, ops: seq<Val>)
    requires IsPoint(f.blocks, at) && !AtTerminator(f.blocks, at) && f.blocks[at.block].computations[at.pc].StoreSlot?
    requires ReadAll(vals, f.blocks[at.block].computations[at.pc].Operands()) == Some(ops) && Emittable(f)
    ensures var c := f.blocks[at.block].computations[at.pc];
            c.stored in vals && ops[1] == vals[c.stored] && LiveAt(f.blocks, at, c.stored)
                && c.stored in At(f, at.block, at.pc)
  {
    hide At;
    var c := f.blocks[at.block].computations[at.pc];
    assert c.Operands()[1] == c.stored;
    ReadIsLive(f.blocks, at, c.stored);
    assert BlockEmittable(f, at.block);
    assert ComputationEmittable(c, At(f, at.block, at.pc));
  }

  // ----- a step along an edge -----

  lemma {:induction false} FindInConcat(xs: seq<Incoming>, ys: seq<Incoming>, source: nat, target: nat)
    ensures FindIncoming(xs + ys, source, target) ==
            if FindIncoming(xs, source, target).Some? then FindIncoming(xs, source, target)
            else FindIncoming(ys, source, target)
  {
    if xs == [] {
      assert xs + ys == ys;
    } else {
      assert (xs + ys)[1..] == xs[1..] + ys;
      FindInConcat(xs[1..], ys, source, target);
    }
  }

  lemma IncomingOfBlock(blocks: seq<Block>, m: nat, t: Terminator, b: Bindings, i: nat, j: nat)
    requires ExitEmittable(blocks, t, b)
    ensures m != i ==> FindIncoming(IncomingOf(blocks, m, t, b), i, j) == None
    ensures m == i && t.Jump? && BlockAt(blocks, t.target) == Some(j) ==>
              FindIncoming(IncomingOf(blocks, m, t, b), i, j) == Some(Names(b, t.args))
  {
  }

  lemma {:induction false} IncomingFound(f: Function, n: nat, i: nat, j: nat)
    requires n <= |f.blocks| && Emittable(f) && i < |f.blocks| && f.blocks[i].terminator.Jump?
    requires BlockAt(f.blocks, f.blocks[i].terminator.target) == Some(j)
    requires ExitEmittable(f.blocks, f.blocks[i].terminator, OnExit(f, i))
    ensures FindIncoming(AllIncoming(f, n), i, j) ==
            if i < n then Some(Names(OnExit(f, i), f.blocks[i].terminator.args)) else None
  {
    hide OnExit, IncomingOf, ExitEmittable;
    if n > 0 {
      IncomingFound(f, n - 1, i, j);
      assert BlockEmittable(f, n - 1);
      var term, b := f.blocks[n - 1].terminator, OnExit(f, n - 1);
      FindInConcat(AllIncoming(f, n - 1), IncomingOf(f.blocks, n - 1, term, b), i, j);
      IncomingOfBlock(f.blocks, n - 1, term, b, i, j);
    }
  }

  /** What the parameter loads at a block start leave behind. */
  ghost predicate ParamsLoaded(f: Function, i: nat, ps: seq<TempId>, r: Frame, r': Frame) {
    && r'.homes == r.homes && r'.slots == r.slots
    && (forall s: Ssa :: s in r.ssa && !(s.HomeLoad? && s.block == i) ==> s in r'.ssa && r'.ssa[s] == r.ssa[s])
    && (forall p :: p in ps && HasHome(f, p) ==>
         p in r.homes && HomeLoad(i, p) in r'.ssa && r'.ssa[HomeLoad(i, p)] == r.homes[p])
    && (forall p :: p !in ps && HomeLoad(i, p) in r.ssa ==>
         HomeLoad(i, p) in r'.ssa && r'.ssa[HomeLoad(i, p)] == r.ssa[HomeLoad(i, p)])
  }

  lemma {:induction false} BlockLoadsRun(f: Function, i: nat, ps: seq<TempId>, r: Frame) returns (r': Frame)
    requires forall p :: p in ps && HasHome(f, p) ==> p in r.homes
    ensures RunInstrs(BlockLoads(f, i, ps), r) == Some(r')
    ensures ParamsLoaded(f, i, ps, r, r')
  {
    hide HasHome;
    if ps == [] {
      r' := r;
    } else {
      var p := ps[0];
      assert p in ps;
      var next := if HasHome(f, p) then r.(ssa := r.ssa[HomeLoad(i, p) := r.homes[p]]) else r;
      r' := BlockLoadsRun(f, i, ps[1..], next);
      if HasHome(f, p) {
        RunCons(LoadHome(HomeLoad(i, p), p), BlockLoads(f, i, ps[1..]), r);
      } else {
        assert [] + BlockLoads(f, i, ps[1..]) == BlockLoads(f, i, ps[1..]);
      }
      LoadedStep(f, i, ps, r, next, r');
    }
  }

  lemma LoadedStep(f: Function, i: nat, ps: seq<TempId>, r: Frame, next: Frame, r': Frame)
    requires ps != [] && (HasHome(f, ps[0]) ==> ps[0] in r.homes)
    requires next == if HasHome(f, ps[0]) then r.(ssa := r.ssa[HomeLoad(i, ps[0]) := r.homes[ps[0]]]) else r
    requires ParamsLoaded(f, i, ps[1..], next, r')
    ensures ParamsLoaded(f, i, ps, r, r')
  {
    assert ps == [ps[0]] + ps[1..];
    assert HasHome(f, ps[0]) ==> HomeLoad(i, ps[0]) in next.ssa;
  }

  lemma PrologueRuns(f: Function, j: nat, r: Frame) returns (r': Frame)
    requires j < |f.blocks| && BlockAt(f.blocks, f.entry) != Some(j)
    requires forall p :: HasHome(f, p) ==> p in r.homes
    ensures RunInstrs(PrologueOf(f, j), r) == Some(r')
    ensures ParamsLoaded(f, j, f.params, r, r')
  {
    hide ParamsLoaded;
    r' := BlockLoadsRun(f, j, f.params, r);
    var loads, poll := BlockLoads(f, j, f.params), if Polled(f, j) then [Poll] else [];
    assert PrologueOf(f, j) == loads + poll;
    RunConcat(loads, poll, r);
    PollDoesNothing(r');
  }

  lemma PollDoesNothing(r: Frame)
    ensures RunInstrs([Poll], r) == Some(r) && RunInstrs([], r) == Some(r)
  {
    assert [Poll] + [] == [Poll];
    RunCons(Poll, [], r);
  }

  /** The frame after taking an edge into `j`: phis, then parameter loads. */
  ghost predicate Entered(f: Function, j: nat, ws: seq<Word>, r: Frame, r': Frame)
    requires j < |f.blocks| && |ws| == |f.blocks[j].params|
  {
    && r'.homes == r.homes
    && (forall k :: 0 <= k < |ws| ==> Phi(j, k) in r'.ssa && r'.ssa[Phi(j, k)] == ws[k])
    && (forall p :: HasHome(f, p) ==> p in r.homes && HomeLoad(j, p) in r'.ssa && r'.ssa[HomeLoad(j, p)] == r.homes[p])
    && (forall s: Ssa :: s in r.ssa && !((s.HomeLoad? || s.Phi?) && s.block == j) ==>
         s in r'.ssa && r'.ssa[s] == r.ssa[s])
  }

  lemma {:induction false} EnteredByEdge(f: Function, j: nat, ws: seq<Word>, r: Frame, r': Frame)
    requires j < |f.blocks| && |ws| == |f.blocks[j].params|
    requires forall p :: HasHome(f, p) ==> p in r.homes
    requires ParamsLoaded(f, j, f.params, r.(ssa := Bind(r.ssa, PhiNames(j, |ws|), ws)), r')
    ensures Entered(f, j, ws, r, r')
  {
    var ssa1 := Bind(r.ssa, PhiNames(j, |ws|), ws);
    forall k | 0 <= k < |ws|
      ensures Phi(j, k) in r'.ssa && r'.ssa[Phi(j, k)] == ws[k]
    {
      BindDistinct(r.ssa, PhiNames(j, |ws|), ws, k);
    }
    forall s: Ssa | s in r.ssa && !((s.HomeLoad? || s.Phi?) && s.block == j)
      ensures s in r'.ssa && r'.ssa[s] == r.ssa[s]
    {
      assert s !in PhiNames(j, |ws|);
      assert s in ssa1;
    }
  }

  /** What makes an edge from `i` into block `j` right: the arguments' words for the
      parameters, and the contract for the temps that cross it. */
  ghost predicate EdgeInto(f: Function, i: nat, j: nat, l: Layout, r: Frame, vals: map<TempId, Val>, vs: seq<Val>,
                        ws: seq<Word>) {
    && i < |f.blocks| && j in Successors(f.blocks, i)
    && |vs| == |ws| == |f.blocks[j].params|
    && (forall k :: 0 <= k < |vs| ==> Decode(l, ws[k]) == Some(vs[k]))
    && Kept(f, Point(i, |f.blocks[i].computations|), l, r, vals)
  }

  lemma ParamsDistinct(f: Function, j: nat)
    requires j < |f.blocks| && SingleDefs(f)
    ensures Distinct(f.blocks[j].params)
    ensures forall t :: t in f.blocks[j].params ==> t !in f.params
    ensures Distinct(f.params)
  {
    forall x, y | 0 <= x < y < |f.blocks[j].params|
      ensures f.blocks[j].params[x] != f.blocks[j].params[y]
    {
      assert DefinedAt(f, BlockParamSite(j, x)) == Some(f.blocks[j].params[x]);
      assert DefinedAt(f, BlockParamSite(j, y)) == Some(f.blocks[j].params[y]);
    }
    forall x, y | 0 <= x < |f.blocks[j].params| && 0 <= y < |f.params|
      ensures f.blocks[j].params[x] != f.params[y]
    {
      assert DefinedAt(f, BlockParamSite(j, x)) == Some(f.blocks[j].params[x]);
      assert DefinedAt(f, ParamSite(y)) == Some(f.params[y]);
    }
    forall x, y | 0 <= x < y < |f.params|
      ensures f.params[x] != f.params[y]
    {
      assert DefinedAt(f, ParamSite(x)) == Some(f.params[x]);
      assert DefinedAt(f, ParamSite(y)) == Some(f.params[y]);
    }
  }

  /** A block parameter arrives in its phi. */
  lemma PhiTempKept(f: Function, i: nat, j: nat, l: Layout, r: Frame, r': Frame, vals: map<TempId, Val>,
                    vs: seq<Val>, ws: seq<Word>, k: nat)
    requires SingleDefs(f) && EdgeInto(f, i, j, l, r, vals, vs, ws) && Entered(f, j, ws, r, r') && k < |vs|
    ensures TempKept(f, j, 0, l, r'.ssa, Bind(vals, f.blocks[j].params, vs), f.blocks[j].params[k])
  {
    var params := f.blocks[j].params;
    var t := params[k];
    ParamsDistinct(f, j);
    BindDistinct(vals, params, vs, k);
    forall s | IsName(f, t, s)
      ensures s == Phi(j, k)
    {
      NamesUnique(f, t, s, Phi(j, k));
    }
    EntryBindsPhi(f, j, k);
  }

  lemma {:induction false} EntryBindsPhi(f: Function, j: nat, k: nat)
    requires j < |f.blocks| && k < |f.blocks[j].params| && Distinct(f.blocks[j].params)
    ensures var t := f.blocks[j].params[k]; t in At(f, j, 0) && At(f, j, 0)[t] == Phi(j, k)
  {
    var carry, block := CarryInto(f, j), f.blocks[j];
    var b1 := carry.temps + if block.id in carry.entries then carry.entries[block.id] else map[];
    BindDistinct(Bind(b1, f.params, ParamNames(f, j)), block.params, PhiNames(j, |block.params|), k);
  }

  lemma {:induction false} EntryBindsParam(f: Function, j: nat, p: TempId)
    requires j < |f.blocks| && p in f.params && p !in f.blocks[j].params
    ensures p in At(f, j, 0) && At(f, j, 0)[p] == ParamName(f, j, p)
  {
    var carry, block := CarryInto(f, j), f.blocks[j];
    var b1 := carry.temps + if block.id in carry.entries then carry.entries[block.id] else map[];
    BindLooksUp(b1, f.params, ParamNames(f, j), p);
  }

  /** A temp that crosses the edge is where the block start expects it. */
  lemma {:induction false} CrossingTempKept(f: Function, i: nat, j: nat, l: Layout, r: Frame, r': Frame,
                        vals: map<TempId, Val>,
                         vs: seq<Val>, ws: seq<Word>, t: TempId)
    requires EdgeContract(f) && PhisReadAfter(f)
    requires EdgeInto(f, i, j, l, r, vals, vs, ws) && Entered(f, j, ws, r, r')
    requires LiveIn(f.blocks, j, t) && t !in f.params
    requires TempKept(f, i, |f.blocks[i].computations|, l, r.ssa, vals, t)
    ensures TempKept(f, j, 0, l, r'.ssa, Bind(vals, f.blocks[j].params, vs), t)
  {
    hide LiveAt, OnEntry, OnExit, At, IsName, Plain;
    if Plain(f, t) {
      PlainTempCrosses(f, i, j, l, r, r', vals, ws, t);
    } else {
      ThreadedTempCrosses(f, i, j, l, r, r', vals, ws, t);
    }
  }

  lemma PlainTempCrosses(f: Function, i: nat, j: nat, l: Layout, r: Frame, r': Frame, vals: map<TempId, Val>,
                         ws: seq<Word>, t: TempId)
    requires i < |f.blocks| && j < |f.blocks| && |ws| == |f.blocks[j].params| && Entered(f, j, ws, r, r')
    requires Plain(f, t) && t !in f.blocks[j].params
    requires TempKept(f, i, |f.blocks[i].computations|, l, r.ssa, vals, t)
    ensures forall s :: IsName(f, t, s) ==> HoldsWord(l, r'.ssa, s, vals[t])
  {
    hide At, IsName, Plain;
    forall s | IsName(f, t, s)
      ensures HoldsWord(l, r'.ssa, s, vals[t])
    {
      assert HoldsWord(l, r.ssa, s, vals[t]);
      NameIsNotOf(f, j, t, s);
    }
  }

  lemma {:induction false} ThreadedTempCrosses(f: Function, i: nat, j: nat, l: Layout, r: Frame, r': Frame,
                        vals: map<TempId, Val>,
                            ws: seq<Word>, t: TempId)
    requires EdgeContract(f) && PhisReadAfter(f)
    requires i < |f.blocks| && j in Successors(f.blocks, i)
    requires |ws| == |f.blocks[j].params| && Entered(f, j, ws, r, r')
    requires LiveIn(f.blocks, j, t) && t !in f.params && !Plain(f, t)
    requires TempKept(f, i, |f.blocks[i].computations|, l, r.ssa, vals, t)
    ensures t in At(f, j, 0) && HoldsWord(l, r'.ssa, At(f, j, 0)[t], vals[t])
  {
    hide LiveAt, OnEntry, IsName, BeforeBlock, Threaded, PhisReadAfter, EdgeContract, Within, Crosses, Successors;
    ContractAt(f, i, j, t);
    CarriedIsEarlier(f, j, t);
    NameIsNotOf(f, j, t, OnEntry(f, j)[t]);
    StartsOnEntry(f, j);
  }

  lemma ContractAt(f: Function, i: nat, j: nat, t: TempId)
    requires EdgeContract(f) && i < |f.blocks| && j in Successors(f.blocks, i)
    requires LiveIn(f.blocks, j, t) && t !in f.params && !Plain(f, t)
    ensures t in OnExit(f, i) && t in OnEntry(f, j) && OnExit(f, i)[t] == OnEntry(f, j)[t]
  {
    hide LiveAt, OnEntry, OnExit, Threaded, Successors;
    assert Crosses(f, j, t);
  }

  lemma StartsOnEntry(f: Function, j: nat)
    requires j < |f.blocks|
    ensures At(f, j, 0) == OnEntry(f, j)
  {
  }

  /** No name of a temp that is no parameter of block `j` is a phi of `j`. */
  lemma NameIsNotOf(f: Function, j: nat, t: TempId, s: Ssa)
    requires j < |f.blocks| && t !in f.blocks[j].params
    ensures IsName(f, t, s) ==> !((s.HomeLoad? || s.Phi?) && s.block == j)
    ensures BeforeBlock(f, t, s, j) ==> !((s.HomeLoad? || s.Phi?) && s.block == j)
  {
  }

  lemma {:induction false} ParamTempKept(f: Function, i: nat, j: nat, l: Layout, r: Frame, r': Frame,
                        vals: map<TempId, Val>,
                      vs: seq<Val>, ws: seq<Word>, p: TempId)
    requires SingleDefs(f) && EdgeInto(f, i, j, l, r, vals, vs, ws) && Entered(f, j, ws, r, r')
    requires p in f.params && ParamKept(f, l, r, vals, p)
    ensures TempKept(f, j, 0, l, r'.ssa, Bind(vals, f.blocks[j].params, vs), p)
    ensures ParamKept(f, l, r', Bind(vals, f.blocks[j].params, vs), p)
  {
    hide LiveAt, At;
    ParamsDistinct(f, j);
    EntryBindsParam(f, j, p);
  }

  /** After the edge everything live is kept. */
  lemma {:induction false} KeptAcrossEdge(f: Function, i: nat, id: BlockId, l: Layout, r: Frame, r': Frame,
                        vals: map<TempId, Val>,
                       vs: seq<Val>, ws: seq<Word>)
    requires Compilable(f) && i < |f.blocks| && id in f.blocks[i].terminator.Targets() && BlockAt(f.blocks, id).Some?
    requires EdgeInto(f, i, BlockAt(f.blocks, id).value, l, r, vals, vs, ws)
    requires Entered(f, BlockAt(f.blocks, id).value, ws, r, r')
    ensures var j := BlockAt(f.blocks, id).value;
            Kept(f, Point(j, 0), l, r', Bind(vals, f.blocks[j].params, vs))
  {
    hide LiveAt, At, TempKept, ParamKept, EdgeContract, WellFormed, RootsExact, NoAllocRootsEmpty, Entered,
      Emittable, SingleDefs;
    var j := BlockAt(f.blocks, id).value;
    var at := Point(i, |f.blocks[i].computations|);
    forall t | LiveAt(f.blocks, Point(j, 0), t)
      ensures TempKept(f, j, 0, l, r'.ssa, Bind(vals, f.blocks[j].params, vs), t)
      ensures t in f.params ==> ParamKept(f, l, r', Bind(vals, f.blocks[j].params, vs), t)
    {
      ParamsDistinct(f, j);
      if t in f.blocks[j].params {
        var k :| 0 <= k < |f.blocks[j].params| && f.blocks[j].params[k] == t;
        PhiTempKept(f, i, j, l, r, r', vals, vs, ws, k);
      } else {
        LiveAcrossEdge(f.blocks, i, id, t);
        assert LiveAt(f.blocks, at, t);
        if t in f.params {
          ParamTempKept(f, i, j, l, r, r', vals, vs, ws, t);
        } else {
          CrossingTempKept(f, i, j, l, r, r', vals, vs, ws, t);
        }
      }
    }
    HomesCross(f, j, ws, r, r');
  }

  lemma HomesCross(f: Function, j: nat, ws: seq<Word>, r: Frame, r': Frame)
    requires j < |f.blocks| && |ws| == |f.blocks[j].params| && Entered(f, j, ws, r, r')
    ensures forall p :: HasHome(f, p) ==> p in r'.homes
  {
  }
}
