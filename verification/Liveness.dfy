/** The backward liveness analysis and the root lists it writes into the calls. */
module Liveness {
  import opened Ir
  import opened Cfg

  // ----- gen and kill of one block -----

  predicate DefinedBefore(b: Block, pc: nat, t: TempId)
    requires pc <= |b.computations|
  {
    t in b.params || exists m :: 0 <= m < pc && b.computations[m].dst == t
  }

  /** Read somewhere in the block before the block itself defines it. */
  predicate Exposed(b: Block, t: TempId) {
    exists pc :: 0 <= pc <= |b.computations| && t in BlockReads(b, pc) && !DefinedBefore(b, pc, t)
  }

  predicate Killed(b: Block, t: TempId) {
    DefinedBefore(b, |b.computations|, t)
  }

  ghost predicate IsGenKill(b: Block, gen: set<TempId>, kill: set<TempId>) {
    && (forall t :: t in gen <==> Exposed(b, t))
    && (forall t :: t in kill <==> Killed(b, t))
  }

  /** The backward sweep: what is live before position `pc` when `out` is live on exit. */
  function Sweep(b: Block, pc: nat, out: set<TempId>): set<TempId>
    requires pc <= |b.computations|
    decreases |b.computations| - pc
  {
    var here := set t | t in BlockReads(b, pc);
    if pc == |b.computations| then out + here
    else (Sweep(b, pc + 1, out) - {b.computations[pc].dst}) + here
  }

  ghost predicate IsLiveOutOf(blocks: seq<Block>, i: nat, out: set<TempId>)
    requires i < |blocks|
  {
    forall t :: t in out <==> LiveOut(blocks, i, t)
  }

  /** A sweep seeded rightly for a temp is right for it at every position. */
  lemma {:induction false} SweepExact(blocks: seq<Block>, i: nat, pc: nat, out: set<TempId>, t: TempId)
    requires i < |blocks| && pc <= |blocks[i].computations|
    requires t in out <==> LiveOut(blocks, i, t)
    ensures t in Sweep(blocks[i], pc, out) <==> LiveAt(blocks, Point(i, pc), t)
    decreases |blocks[i].computations| - pc
  {
    if pc == |blocks[i].computations| {
      LiveAtTerminator(blocks, i, t);
    } else {
      SweepExact(blocks, i, pc + 1, out, t);
      LiveAtComputation(blocks, Point(i, pc), t);
    }
  }

  /** Sweeping a block from position `pc` agrees with looking for the first read: a temp
      survives when some read from `pc` on precedes every definition from `pc` on, or
      when it is live out and not defined from `pc` on. */
  lemma {:induction false} SweepIsFirstRead(b: Block, pc: nat, out: set<TempId>, t: TempId)
    requires pc <= |b.computations|
    ensures t in Sweep(b, pc, out) <==>
            || (exists k :: pc <= k <= |b.computations| && t in BlockReads(b, k)
                            && forall m :: pc <= m < k ==> b.computations[m].dst != t)
            || (t in out && forall m :: pc <= m < |b.computations| ==> b.computations[m].dst != t)
    decreases |b.computations| - pc
  {
    if pc < |b.computations| {
      SweepIsFirstRead(b, pc + 1, out, t);
      if t !in BlockReads(b, pc) && b.computations[pc].dst != t && t in Sweep(b, pc + 1, out) {
        if k :| pc + 1 <= k <= |b.computations| && t in BlockReads(b, k)
                && forall m :: pc + 1 <= m < k ==> b.computations[m].dst != t {
          assert forall m :: pc <= m < k ==> b.computations[m].dst != t;
        }
      }
    }
  }

  /** The whole-block sweep, less the parameters, is `gen + (out - kill)`. */
  lemma SweepIsTransfer(b: Block, out: set<TempId>, t: TempId)
    ensures t in Sweep(b, 0, out) && t !in b.params <==>
            Exposed(b, t) || (t in out && !Killed(b, t))
  {
    SweepIsFirstRead(b, 0, out, t);
    if t in Sweep(b, 0, out) && t !in b.params {
      if k :| 0 <= k <= |b.computations| && t in BlockReads(b, k)
              && forall m :: 0 <= m < k ==> b.computations[m].dst != t {
        assert !DefinedBefore(b, k, t);
      }
    }
    if Exposed(b, t) {
      var k :| 0 <= k <= |b.computations| && t in BlockReads(b, k) && !DefinedBefore(b, k, t);
      assert forall m :: 0 <= m < k ==> b.computations[m].dst != t;
    }
  }

  /** One block's gen and kill sets, collected in one forward walk. */
  method GenKill(b: Block) returns (gen: set<TempId>, kill: set<TempId>)
    ensures IsGenKill(b, gen, kill)
  {
    gen, kill := {}, set t | t in b.params;
    var k := 0;
    while k < |b.computations|
      invariant k <= |b.computations|
      invariant forall t :: t in kill <==> DefinedBefore(b, k, t)
      invariant forall t :: t in gen <==>
                  exists pc :: 0 <= pc < k && t in BlockReads(b, pc) && !DefinedBefore(b, pc, t)
    {
      var c := b.computations[k];
      assert BlockReads(b, k) == c.Operands();
      gen := gen + set t | t in c.Operands() && t !in kill;
      kill := kill + {c.dst};
      k := k + 1;
    }
    assert BlockReads(b, k) == b.terminator.Uses();
    gen := gen + set t | t in b.terminator.Uses() && t !in kill;
  }

  // ----- the fixpoint -----

  /** The dataflow equations at one block, in terms of the block's own reads and writes. */
  predicate EquationAt(blocks: seq<Block>, ins: seq<set<TempId>>, outs: seq<set<TempId>>, i: nat)
    requires |ins| == |outs| == |blocks| && i < |blocks|
  {
    && (forall j :: j in Successors(blocks, i) ==> ins[j] <= outs[i])
    && (forall t :: t in outs[i] ==> exists j :: j in Successors(blocks, i) && t in ins[j])
    && (forall t :: t in ins[i] ==> Exposed(blocks[i], t) || (t in outs[i] && !Killed(blocks[i], t)))
    && (forall pc, t | 0 <= pc <= |blocks[i].computations| && t in BlockReads(blocks[i], pc) ::
          !DefinedBefore(blocks[i], pc, t) ==> t in ins[i])
    && (forall t :: t in outs[i] && !Killed(blocks[i], t) ==> t in ins[i])
  }

  ghost predicate Solution(blocks: seq<Block>, ins: seq<set<TempId>>, outs: seq<set<TempId>>) {
    && |ins| == |outs| == |blocks|
    && forall i :: 0 <= i < |blocks| ==> EquationAt(blocks, ins, outs, i)
  }

  /** Every solution of the equations holds at least what a read path demands. */
  lemma {:induction false} SolutionCoversPath(blocks: seq<Block>, ins: seq<set<TempId>>, outs: seq<set<TempId>>,
                           t: TempId, path: seq<Point>)
    requires Solution(blocks, ins, outs) && ReadPath(blocks, t, path)
    ensures t in Sweep(blocks[path[0].block], path[0].pc, outs[path[0].block])
    decreases |path|
  {
    var p := path[0];
    if |path| > 1 {
      ReadPathTail(blocks, t, path);
      SolutionCoversPath(blocks, ins, outs, t, path[1..]);
      var q := path[1];
      assert Edge(blocks, p, q) && t !in Writes(blocks, p, q);
      if AtTerminator(blocks, p) {
        SweepIsTransfer(blocks[q.block], outs[q.block], t);
        assert EquationAt(blocks, ins, outs, q.block);
        assert EquationAt(blocks, ins, outs, p.block);
        assert t in ins[q.block];
      }
    }
  }

  /** Exact liveness is the least solution of the dataflow equations. */
  lemma LivenessIsLeastSolution(blocks: seq<Block>, ins: seq<set<TempId>>, outs: seq<set<TempId>>, i: nat, t: TempId)
    requires Solution(blocks, ins, outs) && i < |blocks|
    ensures LiveIn(blocks, i, t) ==> t in ins[i]
    ensures LiveOut(blocks, i, t) ==> t in outs[i]
  {
    if LiveIn(blocks, i, t) {
      LiveInCovered(blocks, ins, outs, i, t);
    }
    if LiveOut(blocks, i, t) {
      var j :| j in Successors(blocks, i) && LiveIn(blocks, j, t);
      LiveInCovered(blocks, ins, outs, j, t);
      assert EquationAt(blocks, ins, outs, i);
    }
  }

  lemma LiveInCovered(blocks: seq<Block>, ins: seq<set<TempId>>, outs: seq<set<TempId>>, i: nat, t: TempId)
    requires Solution(blocks, ins, outs) && i < |blocks| && LiveIn(blocks, i, t)
    ensures t in ins[i]
  {
    var path :| ReadPath(blocks, t, path) && path[0] == Point(i, 0);
    SolutionCoversPath(blocks, ins, outs, t, path);
    SweepIsTransfer(blocks[i], outs[i], t);
    assert EquationAt(blocks, ins, outs, i);
  }

  /** Exact liveness satisfies the transfer equation of every block. */
  lemma LiveInTransfer(blocks: seq<Block>, i: nat, t: TempId)
    requires i < |blocks|
    ensures LiveIn(blocks, i, t) <==> Exposed(blocks[i], t) || (LiveOut(blocks, i, t) && !Killed(blocks[i], t))
  {
    var out := if LiveOut(blocks, i, t) then {t} else {};
    SweepExact(blocks, i, 0, out, t);
    SweepIsTransfer(blocks[i], out, t);
  }

  function Total(ss: seq<set<TempId>>): nat {
    if ss == [] then 0 else |ss[0]| + Total(ss[1..])
  }

  lemma {:induction false} TotalUpdate(ss: seq<set<TempId>>, i: nat, s: set<TempId>)
    requires i < |ss|
    ensures Total(ss[i := s]) == Total(ss) - |ss[i]| + |s|
  {
    if i == 0 {
      assert ss[i := s][1..] == ss[1..];
    } else {
      assert ss[i := s][1..] == ss[1..][i - 1 := s];
      TotalUpdate(ss[1..], i - 1, s);
    }
  }

  lemma {:induction false} TotalBounded(ss: seq<set<TempId>>, universe: set<TempId>)
    requires forall i :: 0 <= i < |ss| ==> ss[i] <= universe
    ensures Total(ss) <= |ss| * |universe|
  {
    if ss != [] {
      TotalBounded(ss[1..], universe);
      SubsetSize(ss[0], universe);
      assert |ss| * |universe| == (|ss| - 1) * |universe| + |universe|;
    }
  }

  lemma SubsetSize(a: set<TempId>, b: set<TempId>)
    requires a <= b
    ensures |a| <= |b|
    ensures a != b ==> |a| < |b|
  {
    assert b == a + (b - a);
    assert |b| == |a| + |b - a|;
    if a != b {
      assert b - a != {};
    }
  }

  /** The union of the sets at the given positions. */
  method UnionAt(sets: seq<set<TempId>>, js: seq<nat>) returns (u: set<TempId>)
    requires forall j :: j in js ==> j < |sets|
    ensures forall t :: t in u <==> exists j :: j in js && t in sets[j]
  {
    u := {};
    for k := 0 to |js|
      invariant forall j :: j in js[..k] ==> j in js
      invariant forall t :: t in u <==> exists j :: j in js[..k] && t in sets[j]
    {
      assert js[k] in js;
      assert js[..k + 1] == js[..k] + [js[k]];
      u := u + sets[js[k]];
    }
    assert js[..|js|] == js;
  }

  /** What the current sets at block `i` hold is really live. */
  ghost predicate SoundAt(blocks: seq<Block>, i: nat, live: set<TempId>, out: set<TempId>, universe: set<TempId>)
    requires i < |blocks|
  {
    && live <= universe && out <= universe
    && (forall t :: t in live ==> LiveIn(blocks, i, t))
    && (forall t :: t in out ==> LiveOut(blocks, i, t))
  }

  /** The current sets at block `i` hold no more than the equations would put there, so
      recomputing them can only add. */
  predicate FedAt(blocks: seq<Block>, ins: seq<set<TempId>>, outs: seq<set<TempId>>, i: nat)
    requires |ins| == |outs| == |blocks| && i < |blocks|
  {
    && (forall t :: t in outs[i] ==> exists j :: j in Successors(blocks, i) && t in ins[j])
    && (forall t :: t in ins[i] ==> Exposed(blocks[i], t) || (t in outs[i] && !Killed(blocks[i], t)))
  }

  ghost predicate Climbing(blocks: seq<Block>, ins: seq<set<TempId>>, outs: seq<set<TempId>>, universe: set<TempId>) {
    && |ins| == |outs| == |blocks|
    && (forall i :: 0 <= i < |blocks| ==> SoundAt(blocks, i, ins[i], outs[i], universe))
    && (forall i :: 0 <= i < |blocks| ==> FedAt(blocks, ins, outs, i))
  }

  /** Growing one block's sets feeds the others no less. */
  lemma StillFed(blocks: seq<Block>, ins: seq<set<TempId>>, outs: seq<set<TempId>>,
                 i: nat, newIn: set<TempId>, newOut: set<TempId>, k: nat)
    requires |ins| == |outs| == |blocks| && i < |blocks| && k < |blocks| && k != i
    requires ins[i] <= newIn && FedAt(blocks, ins, outs, k)
    ensures FedAt(blocks, ins[i := newIn], outs[i := newOut], k)
  {
    var ins' := ins[i := newIn];
    forall t | t in outs[k]
      ensures exists j :: j in Successors(blocks, k) && t in ins'[j]
    {
      var j :| j in Successors(blocks, k) && t in ins[j];
      assert t in ins'[j];
    }
  }

  /** The sets one visit computes. */
  ghost predicate Recomputed(blocks: seq<Block>, ins: seq<set<TempId>>, i: nat, newIn: set<TempId>, newOut: set<TempId>)
    requires |ins| == |blocks| && i < |blocks|
  {
    && (forall t :: t in newOut <==> exists j :: j in Successors(blocks, i) && t in ins[j])
    && (forall t :: t in newIn <==> Exposed(blocks[i], t) || (t in newOut && !Killed(blocks[i], t)))
  }

  lemma VisitSound(blocks: seq<Block>, ins: seq<set<TempId>>, outs: seq<set<TempId>>, universe: set<TempId>,
                   i: nat, newIn: set<TempId>, newOut: set<TempId>)
    requires i < |blocks| && Climbing(blocks, ins, outs, universe)
    requires Recomputed(blocks, ins, i, newIn, newOut)
    requires forall t :: Exposed(blocks[i], t) ==> t in universe
    ensures SoundAt(blocks, i, newIn, newOut, universe)
  {
    forall t | t in newOut
      ensures LiveOut(blocks, i, t) && t in universe
    {
      var j :| j in Successors(blocks, i) && t in ins[j];
      assert SoundAt(blocks, j, ins[j], outs[j], universe);
      assert LiveIn(blocks, j, t);
    }
    forall t | t in newIn
      ensures LiveIn(blocks, i, t) && t in universe
    {
      LiveInTransfer(blocks, i, t);
    }
  }

  lemma VisitGrows(blocks: seq<Block>, ins: seq<set<TempId>>, outs: seq<set<TempId>>,
                   i: nat, newIn: set<TempId>, newOut: set<TempId>)
    requires |ins| == |outs| == |blocks| && i < |blocks| && FedAt(blocks, ins, outs, i)
    requires Recomputed(blocks, ins, i, newIn, newOut)
    ensures ins[i] <= newIn && outs[i] <= newOut
    ensures FedAt(blocks, ins[i := newIn], outs[i := newOut], i)
  {
    var ins' := ins[i := newIn];
    forall t | t in newOut
      ensures exists j :: j in Successors(blocks, i) && t in ins'[j]
    {
      var j :| j in Successors(blocks, i) && t in ins[j];
      assert t in ins'[j];
    }
  }

  lemma VisitFeeds(blocks: seq<Block>, ins: seq<set<TempId>>, outs: seq<set<TempId>>,
                   i: nat, newIn: set<TempId>, newOut: set<TempId>, k: nat)
    requires |ins| == |outs| == |blocks| && i < |blocks| && k < |blocks|
    requires FedAt(blocks, ins, outs, i) && FedAt(blocks, ins, outs, k)
    requires Recomputed(blocks, ins, i, newIn, newOut)
    ensures FedAt(blocks, ins[i := newIn], outs[i := newOut], k)
  {
    VisitGrows(blocks, ins, outs, i, newIn, newOut);
    if k != i {
      StillFed(blocks, ins, outs, i, newIn, newOut, k);
    }
  }

  lemma {:induction false} VisitClimbs(blocks: seq<Block>, ins: seq<set<TempId>>, outs: seq<set<TempId>>,
                        universe: set<TempId>,
                    i: nat, newIn: set<TempId>, newOut: set<TempId>)
    requires i < |blocks| && Climbing(blocks, ins, outs, universe)
    requires Recomputed(blocks, ins, i, newIn, newOut)
    requires forall t :: Exposed(blocks[i], t) ==> t in universe
    ensures Climbing(blocks, ins[i := newIn], outs[i := newOut], universe)
  {
    VisitSound(blocks, ins, outs, universe, i, newIn, newOut);
    var ins', outs' := ins[i := newIn], outs[i := newOut];
    forall k | 0 <= k < |blocks|
      ensures FedAt(blocks, ins', outs', k)
    {
      VisitFeeds(blocks, ins, outs, i, newIn, newOut, k);
    }
  }

  /** One visit keeps the climb going, and either grows some set or finds its block solved. */
  lemma {:induction false} Advance(blocks: seq<Block>, ins: seq<set<TempId>>, outs: seq<set<TempId>>,
                        universe: set<TempId>,
                i: nat, newIn: set<TempId>, newOut: set<TempId>)
    requires i < |blocks| && Climbing(blocks, ins, outs, universe)
    requires Recomputed(blocks, ins, i, newIn, newOut)
    requires forall t :: Exposed(blocks[i], t) ==> t in universe
    ensures Climbing(blocks, ins[i := newIn], outs[i := newOut], universe)
    ensures newOut != outs[i] || newIn != ins[i] ==>
              Total(ins) + Total(outs) < Total(ins[i := newIn]) + Total(outs[i := newOut])
    ensures newOut == outs[i] && newIn == ins[i] ==>
              ins[i := newIn] == ins && outs[i := newOut] == outs && EquationAt(blocks, ins, outs, i)
  {
    VisitClimbs(blocks, ins, outs, universe, i, newIn, newOut);
    VisitGrows(blocks, ins, outs, i, newIn, newOut);
    Growth(ins, i, newIn);
    Growth(outs, i, newOut);
    if newIn == ins[i] && newOut == outs[i] {
      UnchangedIsSolved(blocks, ins, outs, i);
    }
  }

  lemma UnchangedIsSolved(blocks: seq<Block>, ins: seq<set<TempId>>, outs: seq<set<TempId>>, i: nat)
    requires |ins| == |outs| == |blocks| && i < |blocks|
    requires Recomputed(blocks, ins, i, ins[i], outs[i])
    ensures EquationAt(blocks, ins, outs, i)
  {
    forall pc, t | 0 <= pc <= |blocks[i].computations| && t in BlockReads(blocks[i], pc)
      ensures !DefinedBefore(blocks[i], pc, t) ==> t in ins[i]
    {
      assert !DefinedBefore(blocks[i], pc, t) ==> Exposed(blocks[i], t);
    }
  }

  /** One visit of a block: both sets recomputed from the current ones and stored. */
  method Visit(blocks: seq<Block>, gen: set<TempId>, kill: set<TempId>, i: nat,
               ins: seq<set<TempId>>, outs: seq<set<TempId>>, ghost universe: set<TempId>)
    returns (ins': seq<set<TempId>>, outs': seq<set<TempId>>, changed: bool)
    requires i < |blocks| && Climbing(blocks, ins, outs, universe)
    requires IsGenKill(blocks[i], gen, kill) && gen <= universe
    ensures Climbing(blocks, ins', outs', universe)
    ensures changed ==> Total(ins) + Total(outs) < Total(ins') + Total(outs')
    ensures !changed ==> ins' == ins && outs' == outs && EquationAt(blocks, ins, outs, i)
  {
    var newOut := UnionAt(ins, Successors(blocks, i));
    var newIn := gen + (newOut - kill);
    Advance(blocks, ins, outs, universe, i, newIn, newOut);
    ins', outs', changed := ins, outs, false;
    if newOut != outs[i] {
      outs' := outs'[i := newOut];
      changed := true;
    }
    if newIn != ins[i] {
      ins' := ins'[i := newIn];
      changed := true;
    }
    assert ins' == ins[i := newIn] && outs' == outs[i := newOut];
  }

  /** How much the sets can still grow. */
  function Headroom(ins: seq<set<TempId>>, outs: seq<set<TempId>>, universe: set<TempId>): int {
    |ins| * |universe| - Total(ins) + |outs| * |universe| - Total(outs)
  }

  lemma HeadroomBounded(ins: seq<set<TempId>>, outs: seq<set<TempId>>, universe: set<TempId>)
    requires forall i :: 0 <= i < |ins| ==> ins[i] <= universe
    requires forall i :: 0 <= i < |outs| ==> outs[i] <= universe
    ensures 0 <= Headroom(ins, outs, universe)
  {
    TotalBounded(ins, universe);
    TotalBounded(outs, universe);
  }

  /** The global fixpoint: terminates, and what it returns is exact liveness. */
  method ComputeGlobalLiveOut(blocks: seq<Block>) returns (outs: seq<set<TempId>>)
    ensures |outs| == |blocks|
    ensures forall i :: 0 <= i < |blocks| ==> IsLiveOutOf(blocks, i, outs[i])
  {
    var n := |blocks|;
    var gen: seq<set<TempId>>, kill: seq<set<TempId>> := [], [];
    ghost var universe: set<TempId> := {};
    for i := 0 to n
      invariant |gen| == |kill| == i
      invariant forall k :: 0 <= k < i ==> IsGenKill(blocks[k], gen[k], kill[k])
      invariant forall k :: 0 <= k < i ==> gen[k] <= universe
    {
      var g, d := GenKill(blocks[i]);
      gen, kill := gen + [g], kill + [d];
      universe := universe + g;
    }
    var ins: seq<set<TempId>> := seq(n, _ => {});
    outs := seq(n, _ => {});
    var changed := true;
    while changed
      invariant Climbing(blocks, ins, outs, universe)
      invariant !changed ==> Solution(blocks, ins, outs)
      decreases Headroom(ins, outs, universe), changed
    {
      ins, outs, changed := Pass(blocks, gen, kill, ins, outs, universe);
      HeadroomBounded(ins, outs, universe);
    }
    forall i | 0 <= i < n
      ensures IsLiveOutOf(blocks, i, outs[i])
    {
      assert SoundAt(blocks, i, ins[i], outs[i], universe);
      forall t
        ensures LiveOut(blocks, i, t) ==> t in outs[i]
      {
        LivenessIsLeastSolution(blocks, ins, outs, i, t);
      }
    }
  }

  ghost predicate AllGenKill(blocks: seq<Block>, gen: seq<set<TempId>>, kill: seq<set<TempId>>, universe: set<TempId>) {
    && |gen| == |kill| == |blocks|
    && forall k :: 0 <= k < |blocks| ==> IsGenKill(blocks[k], gen[k], kill[k]) && gen[k] <= universe
  }

  /** One pass over the blocks, last to first. */
  method Pass(blocks: seq<Block>, gen: seq<set<TempId>>, kill: seq<set<TempId>>,
              ins0: seq<set<TempId>>, outs0: seq<set<TempId>>, ghost universe: set<TempId>)
    returns (ins: seq<set<TempId>>, outs: seq<set<TempId>>, changed: bool)
    requires AllGenKill(blocks, gen, kill, universe) && Climbing(blocks, ins0, outs0, universe)
    ensures Climbing(blocks, ins, outs, universe)
    ensures changed ==> Total(ins) + Total(outs) > Total(ins0) + Total(outs0)
    ensures !changed ==> ins == ins0 && outs == outs0 && Solution(blocks, ins, outs)
  {
    hide EquationAt, FedAt, SoundAt, IsGenKill, Total;
    ins, outs, changed := ins0, outs0, false;
    var i := |blocks|;
    while i > 0
      invariant 0 <= i <= |blocks|
      invariant Climbing(blocks, ins, outs, universe)
      invariant changed ==> Total(ins) + Total(outs) > Total(ins0) + Total(outs0)
      invariant !changed ==> ins == ins0 && outs == outs0
      invariant !changed ==> forall j :: i <= j < |blocks| ==> EquationAt(blocks, ins0, outs0, j)
    {
      i := i - 1;
      var visited: bool;
      ins, outs, visited := Visit(blocks, gen[i], kill[i], i, ins, outs, universe);
      changed := changed || visited;
    }
  }

  lemma Growth(ss: seq<set<TempId>>, i: nat, s: set<TempId>)
    requires i < |ss| && ss[i] <= s
    ensures Total(ss) <= Total(ss[i := s])
    ensures s != ss[i] ==> Total(ss) < Total(ss[i := s])
    ensures s == ss[i] ==> ss[i := s] == ss
  {
    TotalUpdate(ss, i, s);
    SubsetSize(ss[i], s);
  }

  /** The sweep inside one block: for each computation, what is live right after it. */
  method LiveAfterPerComputation(b: Block, out: set<TempId>) returns (after: seq<set<TempId>>)
    ensures |after| == |b.computations|
    ensures forall c :: 0 <= c < |after| ==> after[c] == Sweep(b, c + 1, out)
  {
    var n := |b.computations|;
    var live := out + set t | t in b.terminator.Uses();
    after := seq(n, _ => {});
    var i := n;
    while i > 0
      invariant 0 <= i <= n && |after| == n
      invariant live == Sweep(b, i, out)
      invariant forall c :: i <= c < n ==> after[c] == Sweep(b, c + 1, out)
    {
      i := i - 1;
      after := after[i := live];
      var c := b.computations[i];
      live := (live - {c.dst}) + set t | t in c.Operands();
    }
  }

  // ----- root lists -----

  /** The analysis protects a temp when the table lists it with a pointer-shaped estimate;
      a temp missing from the table is left unprotected. */
  predicate Protected(temps: seq<Temporary>, t: TempId) {
    t in TypeTable(temps) && TypeTable(temps)[t].NeedsGcProtection()
  }

  /** Live immediately after computation `c` of block `i`, and not its result. */
  ghost predicate LiveAcross(blocks: seq<Block>, i: nat, c: nat, t: TempId)
    requires i < |blocks| && c < |blocks[i].computations|
  {
    LiveAt(blocks, Point(i, c + 1), t) && t != blocks[i].computations[c].dst
  }

  predicate Ascending(s: seq<TempId>) {
    forall i, j :: 0 <= i < j < |s| ==> s[i] < s[j]
  }

  /** The root list the call at `(i, c)` must carry: the protected temps live across it,
      strictly ascending. */
  ghost predicate IsRootList(f: Function, i: nat, c: nat, roots: seq<TempId>)
    requires i < |f.blocks| && c < |f.blocks[i].computations|
  {
    && Ascending(roots)
    && forall t :: t in roots <==> LiveAcross(f.blocks, i, c, t) && Protected(f.temps, t)
  }

  function WithRoots(c: Computation, roots: seq<TempId>): Computation {
    match c
    case DirectCall(dst, callee, args, _, noAlloc) => DirectCall(dst, callee, args, roots, noAlloc)
    case Call(dst, callee, args, _) => Call(dst, callee, args, roots)
    case Dispatch(dst, generic, args, _) => Dispatch(dst, generic, args, roots)
    case SealedDirectCall(dst, callee, chain, generic, args, _, noAlloc) =>
      SealedDirectCall(dst, callee, chain, generic, args, roots, noAlloc)
    case _ => c
  }

  /** The root list is a field of its own: the call shapes are the computations that have one,
      writing it changes nothing else, and what was written is what is read. */
  lemma {:induction false} RootsAreAField(c: Computation, roots: seq<TempId>)
    ensures c.IsCallShaped() <==> exists rs :: WithRoots(c, rs) != c
    ensures c.IsCallShaped() ==>
              && WithRoots(c, roots).IsCallShaped() && WithRoots(c, roots).roots == roots
              && WithRoots(WithRoots(c, roots), c.roots) == c
    ensures WithRoots(c, roots).dst == c.dst && WithRoots(c, roots).Operands() == c.Operands()
    ensures WithRoots(c, roots).IsPotentiallyAllocatingCall() == c.IsPotentiallyAllocatingCall()
  {
    if c.IsCallShaped() {
      assert WithRoots(c, c.roots + [c.dst]).roots != c.roots;
    }
  }

  /** `g` is `f` with every potentially allocating call's roots recomputed and nothing
      else touched. */
  ghost predicate Populated(f: Function, g: Function) {
    && g == f.(blocks := g.blocks)
    && |g.blocks| == |f.blocks|
    && forall i :: 0 <= i < |f.blocks| ==> PopulatedBlock(f, i, g.blocks[i])
  }

  ghost predicate PopulatedBlock(f: Function, i: nat, b: Block)
    requires i < |f.blocks|
  {
    && b == f.blocks[i].(computations := b.computations)
    && |b.computations| == |f.blocks[i].computations|
    && forall c :: 0 <= c < |b.computations| ==> PopulatedAt(f, i, c, b.computations[c])
  }

  ghost predicate PopulatedAt(f: Function, i: nat, c: nat, d: Computation)
    requires i < |f.blocks| && c < |f.blocks[i].computations|
  {
    var old' := f.blocks[i].computations[c];
    if old'.IsPotentiallyAllocatingCall()
    then d.IsCallShaped() && d == WithRoots(old', d.roots) && IsRootList(f, i, c, d.roots)
    else d == old'
  }

  lemma {:induction false} AscendingUnique(a: seq<TempId>, b: seq<TempId>)
    requires Ascending(a) && Ascending(b)
    requires forall t :: t in a <==> t in b
    ensures a == b
  {
    if a != [] {
      assert a[0] in b;
    }
    if b != [] {
      assert b[0] in a;
    }
    if a != [] {
      assert a[0] in b && b[0] in a;
      assert a[0] == b[0];
      forall t
        ensures t in a[1..] <==> t in b[1..]
      {
        assert t in a <==> t == a[0] || t in a[1..];
        assert t in b <==> t == b[0] || t in b[1..];
      }
      AscendingUnique(a[1..], b[1..]);
    }
  }

  /** Two blocks lists that differ only in root lists have the same paths. */
  ghost predicate SameButRoots(bs: seq<Block>, cs: seq<Block>) {
    && |bs| == |cs|
    && forall i :: 0 <= i < |bs| ==>
         && cs[i] == bs[i].(computations := cs[i].computations)
         && |cs[i].computations| == |bs[i].computations|
         && forall k :: 0 <= k < |bs[i].computations| ==>
              && cs[i].computations[k].dst == bs[i].computations[k].dst
              && cs[i].computations[k].Operands() == bs[i].computations[k].Operands()
  }

  lemma {:induction false} SameIdMap(bs: seq<Block>, cs: seq<Block>)
    requires |bs| == |cs| && forall i :: 0 <= i < |bs| ==> bs[i].id == cs[i].id
    ensures IdToIdx(bs) == IdToIdx(cs)
  {
    if bs != [] {
      SameIdMap(bs[..|bs| - 1], cs[..|cs| - 1]);
    }
  }

  lemma {:induction false} SameKnownPositions(bs: seq<Block>, cs: seq<Block>, ids: seq<BlockId>)
    requires IdToIdx(bs) == IdToIdx(cs)
    ensures KnownPositions(bs, ids) == KnownPositions(cs, ids)
  {
    if ids != [] {
      SameKnownPositions(bs, cs, ids[1..]);
    }
  }

  lemma SameStep(bs: seq<Block>, cs: seq<Block>, p: Point)
    requires SameButRoots(bs, cs) && IdToIdx(bs) == IdToIdx(cs) && IsPoint(bs, p)
    ensures IsPoint(cs, p) && Reads(cs, p) == Reads(bs, p)
    ensures forall q :: Edge(bs, p, q) ==> Edge(cs, p, q) && Writes(cs, p, q) == Writes(bs, p, q)
  {
    SameKnownPositions(bs, cs, bs[p.block].terminator.Targets());
    assert cs[p.block].terminator == bs[p.block].terminator;
  }

  lemma RootsDoNotMatter(bs: seq<Block>, cs: seq<Block>, p: Point, t: TempId)
    requires SameButRoots(bs, cs)
    ensures LiveAt(bs, p, t) ==> LiveAt(cs, p, t)
  {
    if LiveAt(bs, p, t) {
      SameIdMap(bs, cs);
      var path :| ReadPath(bs, t, path) && path[0] == p;
      forall k | 0 <= k < |path|
        ensures IsPoint(cs, path[k]) && Reads(cs, path[k]) == Reads(bs, path[k])
        ensures k < |path| - 1 ==> Edge(cs, path[k], path[k + 1]) && t !in Writes(cs, path[k], path[k + 1])
      {
        SameStep(bs, cs, path[k]);
      }
      assert ReadPath(cs, t, path);
    }
  }

  /** Liveness, and so every root list, is the same before and after populating. */
  lemma PopulatedLiveness(f: Function, g: Function, p: Point, t: TempId)
    requires Populated(f, g)
    ensures LiveAt(f.blocks, p, t) <==> LiveAt(g.blocks, p, t)
  {
    RootsDoNotMatter(f.blocks, g.blocks, p, t);
    RootsDoNotMatter(g.blocks, f.blocks, p, t);
  }

  /** Running the pass again changes nothing, whatever the lists held at first. */
  lemma PopulateIdempotent(f: Function, g: Function, h: Function)
    requires Populated(f, g) && Populated(g, h)
    ensures g == h
  {
    forall i | 0 <= i < |f.blocks|
      ensures g.blocks[i] == h.blocks[i]
    {
      assert PopulatedBlock(f, i, g.blocks[i]) && PopulatedBlock(g, i, h.blocks[i]);
      forall c | 0 <= c < |g.blocks[i].computations|
        ensures g.blocks[i].computations[c] == h.blocks[i].computations[c]
      {
        PopulateIdempotentAt(f, g, i, c, h.blocks[i].computations[c]);
      }
      assert g.blocks[i].computations == h.blocks[i].computations;
    }
    assert g.blocks == h.blocks;
  }

  lemma PopulateIdempotentAt(f: Function, g: Function, i: nat, c: nat, e: Computation)
    requires Populated(f, g) && i < |f.blocks| && c < |f.blocks[i].computations|
    requires PopulatedBlock(f, i, g.blocks[i])
    requires PopulatedAt(g, i, c, e)
    ensures g.blocks[i].computations[c] == e
  {
    var d := g.blocks[i].computations[c];
    assert PopulatedAt(f, i, c, d);
    if d.IsPotentiallyAllocatingCall() {
      forall t
        ensures t in d.roots <==> t in e.roots
      {
        PopulatedLiveness(f, g, Point(i, c + 1), t);
      }
      AscendingUnique(d.roots, e.roots);
    }
  }

  /** Drops duplicates and sorts, as the hash-set iteration, sort and dedup do. */
  method SortedRoots(s: set<TempId>) returns (r: seq<TempId>)
    ensures Ascending(r)
    ensures forall t :: t in r <==> t in s
  {
    r := [];
    var rest := s;
    while rest != {}
      invariant Ascending(r) && rest <= s
      invariant forall t :: t in r <==> t in s - rest
      decreases rest
    {
      var t :| t in rest;
      rest := rest - {t};
      r := Insert(r, t);
    }
  }

  method Insert(r: seq<TempId>, t: TempId) returns (r': seq<TempId>)
    requires Ascending(r) && t !in r
    ensures Ascending(r')
    ensures forall u :: u in r' <==> u == t || u in r
  {
    var k := 0;
    while k < |r| && r[k] < t
      invariant 0 <= k <= |r|
      invariant forall m :: 0 <= m < k ==> r[m] < t
    {
      k := k + 1;
    }
    assert k < |r| ==> r[k] in r;
    r' := r[..k] + [t] + r[k..];
  }

  /** The roots of one call, given what is live after it. */
  method RootsOf(temps: seq<Temporary>, after: set<TempId>, dst: TempId) returns (r: seq<TempId>)
    ensures Ascending(r)
    ensures forall t :: t in r <==> t in after && t != dst && Protected(temps, t)
  {
    var table := TypeTable(temps);
    r := SortedRoots(set t | t in after && t != dst && t in table && table[t].NeedsGcProtection());
  }

  /** A function being compiled, mutated in place by the passes. */
  class FunctionCell {
    var f: Function

    constructor (f0: Function)
      ensures f == f0
    {
      f := f0;
    }

    /** Writes every potentially allocating call's root list in place. */
    method PopulateSafepointRoots()
      modifies this
      ensures Populated(old(f), f)
    {
      ghost var f0 := f;
      var outs := ComputeGlobalLiveOut(f.blocks);
      for i := 0 to |f.blocks|
        invariant f == f0.(blocks := f.blocks)
        invariant |f.blocks| == |f0.blocks|
        invariant forall k :: 0 <= k < i ==> PopulatedBlock(f0, k, f.blocks[k])
        invariant forall k :: i <= k < |f0.blocks| ==> f.blocks[k] == f0.blocks[k]
      {
        var b := PopulateBlock(f0, i, f.temps, f.blocks[i], outs[i]);
        f := f.(blocks := f.blocks[i := b]);
      }
    }
  }

  method PopulateBlock(ghost f0: Function, ghost i: nat, temps: seq<Temporary>, b0: Block, out: set<TempId>)
    returns (b: Block)
    requires i < |f0.blocks| && b0 == f0.blocks[i] && temps == f0.temps
    requires IsLiveOutOf(f0.blocks, i, out)
    ensures PopulatedBlock(f0, i, b)
  {
    hide LiveAt;
    b := b0;
    var after := LiveAfterPerComputation(b, out);
    var n := |b.computations|;
    for c := 0 to n
      invariant b == b0.(computations := b.computations)
      invariant |b.computations| == n
      invariant forall k :: 0 <= k < c ==> PopulatedAt(f0, i, k, b.computations[k])
      invariant forall k :: c <= k < n ==> b.computations[k] == b0.computations[k]
    {
      var call := b.computations[c];
      if call.IsPotentiallyAllocatingCall() {
        var roots := RootsOf(temps, after[c], call.dst);
        forall t
          ensures t in after[c] <==> LiveAt(f0.blocks, Point(i, c + 1), t)
        {
          SweepExact(f0.blocks, i, c + 1, out, t);
        }
        b := b.(computations := b.computations[c := WithRoots(call, roots)]);
      }
    }
  }

  // ----- the checker -----

  datatype SafepointError =
    | TempNotLiveAcrossCall(callDst: TempId, temp: TempId)
    | TempDoesNotNeedProtection(callDst: TempId, temp: TempId)

  /** The checker reads a temp missing from the table as `Top`, which needs protection. */
  predicate CheckedProtected(temps: seq<Temporary>, t: TempId) {
    t !in TypeTable(temps) || TypeTable(temps)[t].NeedsGcProtection()
  }

  /** The error is about a root of the call at `(i, c)` that breaks its rule there. */
  ghost predicate IsFaultAt(f: Function, i: nat, c: nat, e: SafepointError)
    requires i < |f.blocks| && c < |f.blocks[i].computations|
  {
    var call := f.blocks[i].computations[c];
    && call.IsCallShaped() && e.temp in call.roots && e.callDst == call.dst
    && match e
       case TempNotLiveAcrossCall(_, t) => !LiveAcross(f.blocks, i, c, t)
       case TempDoesNotNeedProtection(_, t) => !CheckedProtected(f.temps, t)
  }

  ghost predicate RootsAccepted(f: Function) {
    forall i, c, t | 0 <= i < |f.blocks| && 0 <= c < |f.blocks[i].computations|
                     && f.blocks[i].computations[c].IsCallShaped() && t in f.blocks[i].computations[c].roots ::
      LiveAcross(f.blocks, i, c, t) && CheckedProtected(f.temps, t)
  }

  // ----- the complaints, in the order they are made -----

  /** About the first `n` roots of the call at `(i, c)`: liveness before protection. */
  ghost function RootComplaints(f: Function, i: nat, c: nat, n: nat): seq<SafepointError>
    requires i < |f.blocks| && c < |f.blocks[i].computations|
    requires f.blocks[i].computations[c].IsCallShaped() && n <= |f.blocks[i].computations[c].roots|
  {
    if n == 0 then []
    else
      var call := f.blocks[i].computations[c];
      var t := call.roots[n - 1];
      RootComplaints(f, i, c, n - 1)
      + (if LiveAcross(f.blocks, i, c, t) then [] else [TempNotLiveAcrossCall(call.dst, t)])
      + (if CheckedProtected(f.temps, t) then [] else [TempDoesNotNeedProtection(call.dst, t)])
  }

  ghost function CallComplaints(f: Function, i: nat, c: nat): seq<SafepointError>
    requires i < |f.blocks| && c < |f.blocks[i].computations|
  {
    var call := f.blocks[i].computations[c];
    if call.IsCallShaped() then RootComplaints(f, i, c, |call.roots|) else []
  }

  ghost function BlockComplaints(f: Function, i: nat, n: nat): seq<SafepointError>
    requires i < |f.blocks| && n <= |f.blocks[i].computations|
  {
    if n == 0 then [] else BlockComplaints(f, i, n - 1) + CallComplaints(f, i, n - 1)
  }

  ghost function SafepointComplaints(f: Function, n: nat): seq<SafepointError>
    requires n <= |f.blocks|
  {
    if n == 0 then []
    else SafepointComplaints(f, n - 1) + BlockComplaints(f, n - 1, |f.blocks[n - 1].computations|)
  }

  lemma {:induction false} RootComplaintsAre(f: Function, i: nat, c: nat, n: nat, e: SafepointError)
    requires i < |f.blocks| && c < |f.blocks[i].computations|
    requires f.blocks[i].computations[c].IsCallShaped() && n <= |f.blocks[i].computations[c].roots|
    ensures e in RootComplaints(f, i, c, n) <==>
              && e.temp in f.blocks[i].computations[c].roots[..n] && e.callDst == f.blocks[i].computations[c].dst
              && match e
                 case TempNotLiveAcrossCall(_, t) => !LiveAcross(f.blocks, i, c, t)
                 case TempDoesNotNeedProtection(_, t) => !CheckedProtected(f.temps, t)
  {
    hide LiveAcross, CheckedProtected;
    if n > 0 {
      RootComplaintsAre(f, i, c, n - 1, e);
      var roots := f.blocks[i].computations[c].roots;
      assert roots[..n] == roots[..n - 1] + [roots[n - 1]];
    }
  }

  lemma CallComplaintsAre(f: Function, i: nat, c: nat, e: SafepointError)
    requires i < |f.blocks| && c < |f.blocks[i].computations|
    ensures e in CallComplaints(f, i, c) <==> IsFaultAt(f, i, c, e)
  {
    hide LiveAcross, CheckedProtected, RootComplaints;
    var call := f.blocks[i].computations[c];
    if call.IsCallShaped() {
      RootComplaintsAre(f, i, c, |call.roots|, e);
      assert call.roots[..|call.roots|] == call.roots;
    }
  }

  lemma {:induction false} BlockComplaintsAre(f: Function, i: nat, n: nat, e: SafepointError)
    requires i < |f.blocks| && n <= |f.blocks[i].computations|
    ensures e in BlockComplaints(f, i, n) <==> exists c :: 0 <= c < n && IsFaultAt(f, i, c, e)
  {
    hide IsFaultAt, CallComplaints;
    if n > 0 {
      BlockComplaintsAre(f, i, n - 1, e);
      CallComplaintsAre(f, i, n - 1, e);
    }
  }

  /** The complaints made are exactly the faults there are. */
  lemma {:induction false} SafepointComplaintsAre(f: Function, n: nat, e: SafepointError)
    requires n <= |f.blocks|
    ensures e in SafepointComplaints(f, n) <==>
              exists i, c :: 0 <= i < n && 0 <= c < |f.blocks[i].computations| && IsFaultAt(f, i, c, e)
  {
    hide IsFaultAt, BlockComplaints;
    if n > 0 {
      SafepointComplaintsAre(f, n - 1, e);
      BlockComplaintsAre(f, n - 1, |f.blocks[n - 1].computations|, e);
    }
  }

  // ----- the walk -----

  /** The complaints about one call's root list. */
  method CheckCall(f: Function, i: nat, c: nat, after: set<TempId>) returns (errs: seq<SafepointError>)
    requires i < |f.blocks| && c < |f.blocks[i].computations| && f.blocks[i].computations[c].IsCallShaped()
    requires forall t :: t in after <==> LiveAt(f.blocks, Point(i, c + 1), t)
    ensures errs == CallComplaints(f, i, c)
  {
    hide LiveAt, CheckedProtected;
    var call := f.blocks[i].computations[c];
    errs := [];
    for k := 0 to |call.roots|
      invariant errs == RootComplaints(f, i, c, k)
    {
      var r := call.roots[k];
      if r !in after || r == call.dst {
        errs := errs + [TempNotLiveAcrossCall(call.dst, r)];
      }
      if !CheckedProtected(f.temps, r) {
        errs := errs + [TempDoesNotNeedProtection(call.dst, r)];
      }
    }
  }

  /** Reports the faulty roots in the order of the text; no report means every root list is
      accepted. */
  method VerifySafepointRoots(f: Function) returns (errs: seq<SafepointError>)
    ensures errs == SafepointComplaints(f, |f.blocks|)
    ensures forall e :: e in errs <==>
      exists i, c :: 0 <= i < |f.blocks| && 0 <= c < |f.blocks[i].computations| && IsFaultAt(f, i, c, e)
    ensures errs == [] <==> RootsAccepted(f)
  {
    hide BlockComplaints, IsLiveOutOf, IsFaultAt, RootsAccepted;
    errs := [];
    var outs := ComputeGlobalLiveOut(f.blocks);
    for i := 0 to |f.blocks|
      invariant errs == SafepointComplaints(f, i)
    {
      var blockErrs := VerifyBlock(f, i, outs[i]);
      errs := errs + blockErrs;
    }
    forall e
      ensures e in errs <==>
        exists i, c :: 0 <= i < |f.blocks| && 0 <= c < |f.blocks[i].computations| && IsFaultAt(f, i, c, e)
    {
      SafepointComplaintsAre(f, |f.blocks|, e);
    }
    AcceptedIffNoFault(f);
    if errs == [] {
      forall e, i, c | 0 <= i < |f.blocks| && 0 <= c < |f.blocks[i].computations|
        ensures !IsFaultAt(f, i, c, e)
      {
        assert e !in errs;
      }
    } else {
      assert errs[0] in errs;
    }
  }

  lemma {:induction false} AcceptedIffNoFault(f: Function)
    ensures RootsAccepted(f) <==>
            forall e, i, c :: 0 <= i < |f.blocks| && 0 <= c < |f.blocks[i].computations| ==> !IsFaultAt(f, i, c, e)
  {
    hide LiveAcross, CheckedProtected;
    if forall e, i, c :: 0 <= i < |f.blocks| && 0 <= c < |f.blocks[i].computations| ==> !IsFaultAt(f, i, c, e) {
      forall i, c, t | 0 <= i < |f.blocks| && 0 <= c < |f.blocks[i].computations|
                       && f.blocks[i].computations[c].IsCallShaped() && t in f.blocks[i].computations[c].roots
        ensures LiveAcross(f.blocks, i, c, t) && CheckedProtected(f.temps, t)
      {
        var d := f.blocks[i].computations[c].dst;
        assert !IsFaultAt(f, i, c, TempNotLiveAcrossCall(d, t));
        assert !IsFaultAt(f, i, c, TempDoesNotNeedProtection(d, t));
      }
    }
  }

  method VerifyBlock(f: Function, i: nat, out: set<TempId>) returns (errs: seq<SafepointError>)
    requires i < |f.blocks| && IsLiveOutOf(f.blocks, i, out)
    ensures errs == BlockComplaints(f, i, |f.blocks[i].computations|)
  {
    hide LiveAt, RootComplaints;
    errs := [];
    var after := LiveAfterPerComputation(f.blocks[i], out);
    for c := 0 to |f.blocks[i].computations|
      invariant errs == BlockComplaints(f, i, c)
    {
      var call := f.blocks[i].computations[c];
      if call.IsCallShaped() {
        forall t
          ensures t in after[c] <==> LiveAt(f.blocks, Point(i, c + 1), t)
        {
          SweepExact(f.blocks, i, c + 1, out, t);
        }
        var callErrs := CheckCall(f, i, c, after[c]);
        errs := errs + callErrs;
      }
    }
  }

  /** The lists of calls that cannot allocate, which the pass leaves as they are, hold only
      what the checker accepts. */
  ghost predicate NoAllocRootsAccepted(f: Function) {
    forall i, c, t | 0 <= i < |f.blocks| && 0 <= c < |f.blocks[i].computations|
                     && f.blocks[i].computations[c].IsCallShaped()
                     && !f.blocks[i].computations[c].IsPotentiallyAllocatingCall()
                     && t in f.blocks[i].computations[c].roots ::
      LiveAcross(f.blocks, i, c, t) && CheckedProtected(f.temps, t)
  }

  /** After populating, the checker has nothing to say exactly when it had nothing to say
      about the calls that cannot allocate before. */
  lemma {:induction false} PopulatedIsAcceptedIff(f: Function, g: Function)
    requires Populated(f, g)
    ensures RootsAccepted(g) <==> NoAllocRootsAccepted(f)
  {
    hide LiveAcross, CheckedProtected;
    forall i, c | 0 <= i < |f.blocks| && 0 <= c < |f.blocks[i].computations|
                  && f.blocks[i].computations[c].IsCallShaped()
      ensures g.blocks[i].computations[c].IsCallShaped()
      ensures !f.blocks[i].computations[c].IsPotentiallyAllocatingCall() ==>
                g.blocks[i].computations[c] == f.blocks[i].computations[c]
      ensures f.blocks[i].computations[c].IsPotentiallyAllocatingCall() ==>
                forall t :: t in g.blocks[i].computations[c].roots ==>
                  LiveAcross(g.blocks, i, c, t) && CheckedProtected(g.temps, t)
      ensures forall t :: LiveAcross(g.blocks, i, c, t) <==> LiveAcross(f.blocks, i, c, t)
    {
      AcceptedAtCall(f, g, i, c);
    }
    forall i, c | 0 <= i < |g.blocks| && 0 <= c < |g.blocks[i].computations|
                  && g.blocks[i].computations[c].IsCallShaped()
      ensures f.blocks[i].computations[c].IsCallShaped()
    {
      assert PopulatedBlock(f, i, g.blocks[i]);
      assert PopulatedAt(f, i, c, g.blocks[i].computations[c]);
    }
  }

  /** What the pass did at one call, as the checker sees it. */
  lemma AcceptedAtCall(f: Function, g: Function, i: nat, c: nat)
    requires Populated(f, g) && i < |f.blocks| && c < |f.blocks[i].computations|
    requires f.blocks[i].computations[c].IsCallShaped()
    ensures g.blocks[i].computations[c].IsCallShaped()
    ensures !f.blocks[i].computations[c].IsPotentiallyAllocatingCall() ==>
              g.blocks[i].computations[c] == f.blocks[i].computations[c]
    ensures f.blocks[i].computations[c].IsPotentiallyAllocatingCall() ==>
              && IsRootList(g, i, c, g.blocks[i].computations[c].roots)
              && forall t :: t in g.blocks[i].computations[c].roots ==>
                   LiveAcross(g.blocks, i, c, t) && CheckedProtected(g.temps, t)
    ensures forall t :: LiveAcross(g.blocks, i, c, t) <==> LiveAcross(f.blocks, i, c, t)
  {
    assert PopulatedBlock(f, i, g.blocks[i]);
    assert PopulatedAt(f, i, c, g.blocks[i].computations[c]);
    forall t
      ensures LiveAcross(g.blocks, i, c, t) <==> LiveAcross(f.blocks, i, c, t)
    {
      PopulatedLiveness(f, g, Point(i, c + 1), t);
    }
  }

  ghost predicate NoAllocRootsEmpty(f: Function) {
    forall i, c | 0 <= i < |f.blocks| && 0 <= c < |f.blocks[i].computations|
                  && f.blocks[i].computations[c].IsCallShaped()
                  && !f.blocks[i].computations[c].IsPotentiallyAllocatingCall() ::
      f.blocks[i].computations[c].roots == []
  }

  /** In particular when those lists were empty; and every other call's list is complete as
      well as sound. */
  lemma PopulatedIsAccepted(f: Function, g: Function)
    requires Populated(f, g) && NoAllocRootsEmpty(f)
    ensures RootsAccepted(g)
    ensures forall i, c | 0 <= i < |g.blocks| && 0 <= c < |g.blocks[i].computations|
                          && g.blocks[i].computations[c].IsPotentiallyAllocatingCall() ::
              IsRootList(g, i, c, g.blocks[i].computations[c].roots)
  {
    hide LiveAt, RootsAccepted, IsRootList;
    PopulatedIsAcceptedIff(f, g);
    forall i, c | 0 <= i < |g.blocks| && 0 <= c < |g.blocks[i].computations|
                  && g.blocks[i].computations[c].IsPotentiallyAllocatingCall()
      ensures IsRootList(g, i, c, g.blocks[i].computations[c].roots)
    {
      assert PopulatedBlock(f, i, g.blocks[i]);
      assert PopulatedAt(f, i, c, g.blocks[i].computations[c]);
      AcceptedAtCall(f, g, i, c);
    }
  }

  /** The pass skips calls that cannot allocate without clearing them, so a stale list
      there survives and the checker rejects it. */
  lemma StaleNoAllocRootsSurvive()
    ensures var call := DirectCall(1, "f", [], [0], true);
            var f := Function(0, "f", [], 0, [Block(0, "entry", [], [call], Return(None))], [], Unit);
            Populated(f, f) && !RootsAccepted(f)
  {
    var call := DirectCall(1, "f", [], [0], true);
    var blocks := [Block(0, "entry", [], [call], Return(None))];
    var f := Function(0, "f", [], 0, blocks, [], Unit);
    assert PopulatedBlock(f, 0, f.blocks[0]);
    assert 0 in f.blocks[0].computations[0].roots;
    LiveStep(f.blocks, Point(0, 1), 0);
    assert Reads(f.blocks, Point(0, 1)) == [];
    assert f.blocks[0].terminator.Targets() == [];
    assert !LiveAcross(f.blocks, 0, 0, 0);
  }
}
