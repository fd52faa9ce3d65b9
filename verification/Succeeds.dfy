/** When code generation succeeds: its bindings cover exactly what stands textually before a
    point, so what can still go wrong on an accepted function is a root defined later in the
    text. */
module Succeeds {
  import opened Ir
  import opened Cfg
  import opened Liveness
  import opened Machine
  import opened Target
  import Checker = Verify

  // ----- what is bound -----

  predicate IsBlockParam(f: Function, t: TempId) {
    exists j :: 0 <= j < |f.blocks| && t in f.blocks[j].params
  }

  predicate IsResultAt(f: Function, j: nat, k: nat, t: TempId) {
    j < |f.blocks| && k < |f.blocks[j].computations| && f.blocks[j].computations[k].dst == t
  }

  /** Textual order of points. */
  predicate Before(j: nat, k: nat, i: nat, pc: nat) {
    j < i || (j == i && k < pc)
  }

  /** A parameter of the function or of any block, or a result computed textually before. */
  predicate InText(f: Function, i: nat, pc: nat, t: TempId) {
    t in f.params || IsBlockParam(f, t)
    || exists j, k :: 0 <= j < |f.blocks| && 0 <= k < |f.blocks[j].computations| && Before(j, k, i, pc)
              && IsResultAt(f, j, k, t)
  }

  /** Everything textually before the point can be emitted. */
  ghost predicate EmittedBefore(f: Function, i: nat, pc: nat) {
    forall j, k :: 0 <= j < |f.blocks| && 0 <= k < |f.blocks[j].computations| && Before(j, k, i, pc) ==>
      ComputationEmittable(f.blocks[j].computations[k], At(f, j, k))
  }

  lemma {:induction false} InTextGrows(f: Function, i: nat, pc: nat, t: TempId)
    requires i < |f.blocks| && pc < |f.blocks[i].computations|
    ensures InText(f, i, pc + 1, t) <==> InText(f, i, pc, t) || f.blocks[i].computations[pc].dst == t
  {
    if f.blocks[i].computations[pc].dst == t {
      assert Before(i, pc, i, pc + 1) && IsResultAt(f, i, pc, t);
    }
    if j, k :| 0 <= j < |f.blocks| && 0 <= k < |f.blocks[j].computations| && Before(j, k, i, pc)
               && IsResultAt(f, j, k, t) {
      assert Before(j, k, i, pc + 1);
    }
    if j, k :| 0 <= j < |f.blocks| && 0 <= k < |f.blocks[j].computations| && Before(j, k, i, pc + 1)
               && IsResultAt(f, j, k, t) {
      assert Before(j, k, i, pc) || (j == i && k == pc);
    }
  }

  lemma {:induction false} InTextNextBlock(f: Function, i: nat, t: TempId)
    requires i < |f.blocks|
    ensures InText(f, i, |f.blocks[i].computations|, t) <==> InText(f, i + 1, 0, t)
  {
    if j, k :| 0 <= j < |f.blocks| && 0 <= k < |f.blocks[j].computations|
               && Before(j, k, i, |f.blocks[i].computations|) && IsResultAt(f, j, k, t) {
      assert Before(j, k, i + 1, 0);
    }
    if j, k :| 0 <= j < |f.blocks| && 0 <= k < |f.blocks[j].computations| && Before(j, k, i + 1, 0)
               && IsResultAt(f, j, k, t) {
      assert Before(j, k, i, |f.blocks[i].computations|);
    }
  }

  lemma {:induction false} PhisBound(blocks: seq<Block>, n: nat, b: Bindings, t: TempId)
    requires n <= |blocks|
    ensures t in WithPhis(blocks, n, b) <==> t in b || exists j :: 0 <= j < n && t in blocks[j].params
  {
    if n > 0 {
      PhisBound(blocks, n - 1, b, t);
      var before := WithPhis(blocks, n - 1, b);
      assert t in WithPhis(blocks, n, b) <==> t in before || t in blocks[n - 1].params;
    }
  }

  /** A computation that can be emitted adds a binding of its result and no other. */
  lemma {:induction false} ResultBound(c: Computation, i: nat, pc: nat, b: Bindings, t: TempId)
    requires ComputationEmittable(c, b)
    ensures t in AfterComputation(c, i, pc, b) <==> t in b || t == c.dst
  {
    var roots := RootsOfCall(c);
    var b1 := Bind(b, roots, ReloadNames(i, pc, |roots|));
    assert t in b1 <==> t in b;
    if c.StoreSlot? {
      assert c.stored in c.Operands() by {
        assert c.Operands()[1] == c.stored;
      }
      assert c.stored in b1;
    }
  }

  lemma {:induction false} NotedBound(entries: map<BlockId, Bindings>, ids: seq<BlockId>, b: Bindings, id: BlockId,
                                      t: TempId)
    requires id in NoteAll(entries, ids, b) && t in NoteAll(entries, ids, b)[id]
    ensures t in b || (id in entries && t in entries[id])
    decreases |ids|
  {
    if ids != [] {
      NotedBound(Note(entries, ids[0], b), ids[1..], b, id, t);
    }
  }

  lemma {:induction false} CarriedIffInText(f: Function, i: nat, t: TempId)
    requires i <= |f.blocks| && EmittedBefore(f, i, 0)
    ensures t in CarryInto(f, i).temps <==> InText(f, i, 0, t)
    ensures forall id :: id in CarryInto(f, i).entries && t in CarryInto(f, i).entries[id] ==> InText(f, i, 0, t)
    decreases i, 0
  {
    hide InText, AfterComputation, ComputationEmittable, NoteAll, Note, WithPhis;
    if i == 0 {
      PhisBound(f.blocks, |f.blocks|, SeedTemps(f), t);
      StartInText(f, t);
    } else {
      var n := |f.blocks[i - 1].computations|;
      BeforeBefore(f, i - 1, n, i, 0);
      BoundIffInText(f, i - 1, n, t);
      InTextNextBlock(f, i - 1, t);
      BeforeBefore(f, i - 1, 0, i, 0);
      CarriedIffInText(f, i - 1, t);
      InTextLater(f, i - 1, 0, i, 0, t);
      var carry, exit := CarryInto(f, i - 1), OnExit(f, i - 1);
      forall id | id in CarryInto(f, i).entries && t in CarryInto(f, i).entries[id]
        ensures InText(f, i, 0, t)
      {
        NotedBound(carry.entries, f.blocks[i - 1].terminator.Targets(), exit, id, t);
      }
    }
  }

  lemma StartInText(f: Function, t: TempId)
    ensures InText(f, 0, 0, t) <==> t in SeedTemps(f) || IsBlockParam(f, t)
  {
  }

  lemma InTextLater(f: Function, j: nat, k: nat, i: nat, pc: nat, t: TempId)
    requires j < i || (j == i && k <= pc)
    ensures InText(f, j, k, t) ==> InText(f, i, pc, t)
  {
    if x, y :| 0 <= x < |f.blocks| && 0 <= y < |f.blocks[x].computations| && Before(x, y, j, k)
               && IsResultAt(f, x, y, t) {
      assert Before(x, y, i, pc);
    }
  }

  lemma BeforeBefore(f: Function, j: nat, k: nat, i: nat, pc: nat)
    requires EmittedBefore(f, i, pc) && (j < i || (j == i && k <= pc))
    ensures EmittedBefore(f, j, k)
  {
    hide ComputationEmittable, At;
    forall x, y | 0 <= x < |f.blocks| && 0 <= y < |f.blocks[x].computations| && Before(x, y, j, k)
      ensures ComputationEmittable(f.blocks[x].computations[y], At(f, x, y))
    {
      assert Before(x, y, i, pc);
    }
  }

  /** As long as emission goes well, a temp is bound at a point exactly when it is a parameter
      of the function or of any block, or a result of something textually before, whichever
      way control flows. */
  lemma {:induction false} BoundIffInText(f: Function, i: nat, pc: nat, t: TempId)
    requires i < |f.blocks| && pc <= |f.blocks[i].computations| && EmittedBefore(f, i, pc)
    ensures t in At(f, i, pc) <==> InText(f, i, pc, t)
    decreases i, pc + 1
  {
    hide InText, AfterComputation, ComputationEmittable, CarryInto;
    if pc == 0 {
      CarriedIffInText(f, i, t);
      InstalledInText(f, i, CarryInto(f, i), t);
    } else {
      BeforeBefore(f, i, pc - 1, i, pc);
      BoundIffInText(f, i, pc - 1, t);
      assert Before(i, pc - 1, i, pc);
      var c := f.blocks[i].computations[pc - 1];
      assert ComputationEmittable(c, At(f, i, pc - 1));
      ResultBound(c, i, pc - 1, At(f, i, pc - 1), t);
      InTextGrows(f, i, pc - 1, t);
    }
  }

  lemma InstalledInText(f: Function, i: nat, carry: Carry, t: TempId)
    requires i < |f.blocks|
    requires t in carry.temps <==> InText(f, i, 0, t)
    requires forall id :: id in carry.entries && t in carry.entries[id] ==> InText(f, i, 0, t)
    ensures t in Install(f, i, carry) <==> InText(f, i, 0, t)
  {
    var block := f.blocks[i];
    var noted: Bindings := if block.id in carry.entries then carry.entries[block.id] else map[];
    var b1 := carry.temps + noted;
    assert t in b1 <==> t in carry.temps || t in noted;
    var b2 := Bind(b1, f.params, ParamNames(f, i));
    assert t in b2 <==> t in b1 || t in f.params;
    assert t in Install(f, i, carry) <==> t in b2 || t in block.params;
    assert t in block.params ==> IsBlockParam(f, t);
    hide IsResultAt, Before;
  }

  // ----- success -----

  /** What code generation asks of a computation, said of the text alone. */
  predicate CoveredAt(f: Function, i: nat, pc: nat)
    requires i < |f.blocks| && pc < |f.blocks[i].computations|
  {
    var c := f.blocks[i].computations[pc];
    && Supported(c)
    && (forall t :: t in c.Operands() ==> InText(f, i, pc, t))
    && (forall t :: t in RootsOfCall(c) ==> InText(f, i, pc, t))
  }

  predicate ExitCovered(f: Function, i: nat)
    requires i < |f.blocks|
  {
    var x := f.blocks[i].terminator;
    && (forall t :: t in x.Uses() ==> InText(f, i, |f.blocks[i].computations|, t))
    && (forall id :: id in x.Targets() ==> BlockAt(f.blocks, id).Some?)
  }

  lemma {:induction false} EmittableIffCoveredAt(f: Function, i: nat, pc: nat)
    requires i < |f.blocks| && pc < |f.blocks[i].computations| && EmittedBefore(f, i, pc)
    ensures ComputationEmittable(f.blocks[i].computations[pc], At(f, i, pc)) <==> CoveredAt(f, i, pc)
  {
    hide InText, At, Supported;
    forall t: TempId
      ensures t in At(f, i, pc) <==> InText(f, i, pc, t)
    {
      BoundIffInText(f, i, pc, t);
    }
  }

  /** If every computation is covered, all can be emitted, one after the other. */
  lemma {:induction false} CoveredEmits(f: Function, i: nat, pc: nat)
    requires i <= |f.blocks| && pc <= if i < |f.blocks| then |f.blocks[i].computations| else 0
    requires forall j, k :: 0 <= j < |f.blocks| && 0 <= k < |f.blocks[j].computations| ==> CoveredAt(f, j, k)
    ensures EmittedBefore(f, i, pc)
    decreases i, pc
  {
    hide CoveredAt, ComputationEmittable, At;
    if pc > 0 {
      CoveredEmits(f, i, pc - 1);
      EmittableIffCoveredAt(f, i, pc - 1);
      forall x, y | 0 <= x < |f.blocks| && 0 <= y < |f.blocks[x].computations| && Before(x, y, i, pc)
        ensures ComputationEmittable(f.blocks[x].computations[y], At(f, x, y))
      {
        assert Before(x, y, i, pc - 1) || (x == i && y == pc - 1);
      }
    } else if i > 0 {
      var n := |f.blocks[i - 1].computations|;
      CoveredEmits(f, i - 1, n);
      forall x, y | 0 <= x < |f.blocks| && 0 <= y < |f.blocks[x].computations| && Before(x, y, i, 0)
        ensures ComputationEmittable(f.blocks[x].computations[y], At(f, x, y))
      {
        assert Before(x, y, i - 1, n);
      }
    }
  }

  lemma {:induction false} ExitEmittableIff(f: Function, i: nat)
    requires i < |f.blocks| && EmittedBefore(f, i, |f.blocks[i].computations|)
    ensures ExitEmittable(f.blocks, f.blocks[i].terminator, OnExit(f, i)) <==> ExitCovered(f, i)
  {
    hide InText, At;
    forall t: TempId
      ensures t in OnExit(f, i) <==> InText(f, i, |f.blocks[i].computations|, t)
    {
      BoundIffInText(f, i, |f.blocks[i].computations|, t);
    }
  }

  lemma AllEmitted(f: Function, i: nat, pc: nat)
    requires Emittable(f)
    ensures EmittedBefore(f, i, pc)
  {
    hide ComputationEmittable, At, ExitEmittable;
    forall x, y | 0 <= x < |f.blocks| && 0 <= y < |f.blocks[x].computations| && Before(x, y, i, pc)
      ensures ComputationEmittable(f.blocks[x].computations[y], At(f, x, y))
    {
      assert BlockEmittable(f, x);
    }
  }

  /** Code generation has a value for every temp it needs exactly when each is a parameter or
      stands textually before its use: nothing is lost from block to block. */
  lemma {:induction false} EmittableIff(f: Function)
    ensures Emittable(f) <==>
            && BlockAt(f.blocks, f.entry).Some?
            && (forall i, pc :: 0 <= i < |f.blocks| && 0 <= pc < |f.blocks[i].computations| ==> CoveredAt(f, i, pc))
            && (forall i :: 0 <= i < |f.blocks| ==> ExitCovered(f, i))
  {
    hide CoveredAt, ExitCovered, ComputationEmittable, ExitEmittable, At, EmittedBefore;
    if Emittable(f) {
      forall i, pc | 0 <= i < |f.blocks| && 0 <= pc < |f.blocks[i].computations|
        ensures CoveredAt(f, i, pc)
      {
        AllEmitted(f, i, pc);
        assert BlockEmittable(f, i);
        EmittableIffCoveredAt(f, i, pc);
      }
      forall i | 0 <= i < |f.blocks|
        ensures ExitCovered(f, i)
      {
        AllEmitted(f, i, |f.blocks[i].computations|);
        assert BlockEmittable(f, i);
        ExitEmittableIff(f, i);
      }
    }
    if (forall i, pc :: 0 <= i < |f.blocks| && 0 <= pc < |f.blocks[i].computations| ==> CoveredAt(f, i, pc))
        && forall i :: 0 <= i < |f.blocks| ==> ExitCovered(f, i) {
      forall i | 0 <= i < |f.blocks|
        ensures BlockEmittable(f, i)
      {
        forall pc | 0 <= pc < |f.blocks[i].computations|
          ensures ComputationEmittable(f.blocks[i].computations[pc], At(f, i, pc))
        {
          CoveredEmits(f, i, pc);
          EmittableIffCoveredAt(f, i, pc);
        }
        CoveredEmits(f, i, |f.blocks[i].computations|);
        ExitEmittableIff(f, i);
      }
    }
  }

  // ----- accepted functions -----

  lemma {:induction false} TextDefsInText(f: Function, i: nat, t: TempId)
    requires i <= |f.blocks| && t in Checker.TextDefs(f, i)
    ensures InText(f, i, 0, t)
  {
    hide InText;
    if i == 0 {
      ParamInText(f, 0, 0, t);
    } else if t in Checker.TextDefs(f, i - 1) {
      TextDefsInText(f, i - 1, t);
      InTextLater(f, i - 1, 0, i, 0, t);
    } else {
      BlockDefsInText(f, i - 1, |f.blocks[i - 1].computations|, t);
      InTextNextBlock(f, i - 1, t);
      var b := f.blocks[i - 1];
      assert Checker.BlockDefs(b)[..|b.params| + |b.computations|] == Checker.BlockDefs(b);
    }
  }

  lemma ParamInText(f: Function, i: nat, pc: nat, t: TempId)
    ensures t in f.params ==> InText(f, i, pc, t)
  {
  }

  lemma {:induction false} BlockDefsInText(f: Function, i: nat, pc: nat, t: TempId)
    requires i < |f.blocks| && pc <= |f.blocks[i].computations|
    ensures t in Checker.BlockDefs(f.blocks[i])[..|f.blocks[i].params| + pc] ==> InText(f, i, pc, t)
  {
    var b := f.blocks[i];
    var defs := Checker.BlockDefs(b)[..|b.params| + pc];
    if t in defs {
      var x :| 0 <= x < |defs| && defs[x] == t;
      if x < |b.params| {
        assert b.params[x] == t && IsBlockParam(f, t);
      } else {
        assert IsResultAt(f, i, x - |b.params|, t) && Before(i, x - |b.params|, i, pc);
      }
    }
  }

  lemma {:induction false} DefinedInText(f: Function, i: nat, pc: nat, t: TempId)
    requires i < |f.blocks| && pc <= |f.blocks[i].computations| && t in Checker.DefsBefore(f, i, pc)
    ensures InText(f, i, pc, t)
  {
    hide InText, Checker.TextDefs, Checker.BlockDefs;
    BlockDefsInText(f, i, pc, t);
    if t in Checker.TextDefs(f, i) {
      TextDefsInText(f, i, t);
      InTextLater(f, i, 0, i, pc, t);
    }
  }

  lemma {:induction false} BlockFound(f: Function, id: BlockId)
    requires Checker.HasBlock(f, id)
    ensures BlockAt(f.blocks, id).Some?
  {
    IdToIdxFinds(f.blocks, id);
  }

  /** A computation codegen supports, with every root in the text before it. */
  predicate RootsInText(f: Function, i: nat, pc: nat)
    requires i < |f.blocks| && pc < |f.blocks[i].computations|
  {
    var c := f.blocks[i].computations[pc];
    Supported(c) && forall t :: t in RootsOfCall(c) ==> InText(f, i, pc, t)
  }

  /** A function the checker accepts goes through code generation exactly when its computations
      are ones codegen supports and every root of every call is a parameter or stands textually
      before the call. The second is not something the checker looks at. */
  lemma {:induction false} AcceptedEmittableIff(f: Function)
    requires Checker.Accepted(f)
    ensures Emittable(f) <==>
            forall i, pc :: 0 <= i < |f.blocks| && 0 <= pc < |f.blocks[i].computations| ==> RootsInText(f, i, pc)
  {
    hide InText, Checker.TextDefs, Checker.DefsBefore, Supported, Emittable, Checker.RepeatsEarlierId;
    EmittableIff(f);
    BlockFound(f, f.entry);
    forall i, pc | 0 <= i < |f.blocks| && 0 <= pc < |f.blocks[i].computations|
      ensures CoveredAt(f, i, pc) <==> RootsInText(f, i, pc)
    {
      forall t | t in f.blocks[i].computations[pc].Operands()
        ensures InText(f, i, pc, t)
      {
        assert t in BlockReads(f.blocks[i], pc);
        DefinedInText(f, i, pc, t);
      }
    }
    forall i | 0 <= i < |f.blocks|
      ensures ExitCovered(f, i)
    {
      AcceptedExitCovered(f, i);
    }
  }

  lemma {:induction false} AcceptedExitCovered(f: Function, i: nat)
    requires Checker.Accepted(f) && i < |f.blocks|
    ensures ExitCovered(f, i)
  {
    hide InText, Checker.TextDefs, Checker.DefsBefore, Checker.RepeatsEarlierId;
    var n := |f.blocks[i].computations|;
    forall t | t in f.blocks[i].terminator.Uses()
      ensures InText(f, i, n, t)
    {
      assert t in BlockReads(f.blocks[i], n);
      DefinedInText(f, i, n, t);
    }
    assert Checker.ExitAccepted(f, i);
    forall id | id in f.blocks[i].terminator.Targets()
      ensures BlockAt(f.blocks, id).Some?
    {
      BlockFound(f, id);
    }
  }

  // ----- a root defined later in the text -----

  /** Control runs block 2, which defines a pointer, then block 1, which makes a call across
      which it is live, then block 3, which returns it. */
  function Backwards(): Function {
    Function(0, "f", [], 0,
             [Block(0, "entry", [], [], Jump(2, [])),
              Block(1, "call", [], [DirectCall(1, "g", [], [0], false)], Jump(3, [])),
              Block(2, "define", [], [Const(0, StringLiteralRef("s"))], Jump(1, [])),
              Block(3, "use", [], [], Return(Some(0)))],
             [Temporary(0, String), Temporary(1, Top)], String)
  }

  lemma BackwardsIds()
    ensures var bs := Backwards().blocks;
            BlockAt(bs, 0) == Some(0) && BlockAt(bs, 1) == Some(1) && BlockAt(bs, 2) == Some(2)
            && BlockAt(bs, 3) == Some(3)
  {
    var bs := Backwards().blocks;
    assert bs[0].id == 0 && bs[1].id == 1 && bs[2].id == 2 && bs[3].id == 3;
    IdToIdxFinds(bs, 0);
    IdToIdxFinds(bs, 1);
    IdToIdxFinds(bs, 2);
    IdToIdxFinds(bs, 3);
  }

  lemma BackwardsSuccessors()
    ensures var bs := Backwards().blocks;
            Successors(bs, 0) == [2] && Successors(bs, 1) == [3] && Successors(bs, 2) == [1] && Successors(bs, 3) == []
  {
    hide BlockAt;
    BackwardsIds();
    var bs := Backwards().blocks;
    assert forall a: BlockId :: [a][1..] == [];
    assert KnownPositions(bs, []) == [];
    assert KnownPositions(bs, [1]) == [1] && KnownPositions(bs, [2]) == [2] && KnownPositions(bs, [3]) == [3];
  }

  lemma BackwardsLive(t: TempId)
    ensures var bs := Backwards().blocks;
            (LiveAt(bs, Point(1, 1), t) <==> t == 0) && !LiveAt(bs, Point(0, 0), t)
  {
    hide LiveAt, Successors;
    var bs := Backwards().blocks;
    BackwardsSuccessors();
    LiveAtTerminator(bs, 3, t);
    LiveAtTerminator(bs, 1, t);
    assert LiveOut(bs, 1, t) <==> LiveIn(bs, 3, t);
    LiveAtComputation(bs, Point(1, 0), t);
    LiveAtTerminator(bs, 2, t);
    assert LiveOut(bs, 2, t) <==> LiveIn(bs, 1, t);
    LiveAtComputation(bs, Point(2, 0), t);
    LiveAtTerminator(bs, 0, t);
    assert LiveOut(bs, 0, t) <==> LiveIn(bs, 2, t);
  }

  lemma BackwardsPopulated()
    ensures Populated(Backwards(), Backwards())
  {
    hide LiveAt;
    var f := Backwards();
    assert f.temps[..1] == [Temporary(0, String)] && f.temps[..1][..0] == [];
    assert TypeTable(f.temps[..1]) == map[0 := String];
    assert TypeTable(f.temps) == map[0 := String, 1 := Top];
    forall t
      ensures t in [0] <==> LiveAcross(f.blocks, 1, 0, t) && Protected(f.temps, t)
    {
      BackwardsLive(t);
    }
    assert IsRootList(f, 1, 0, [0]);
    assert PopulatedBlock(f, 1, f.blocks[1]) && PopulatedBlock(f, 2, f.blocks[2]);
  }

  lemma BackwardsDefs()
    ensures var f := Backwards();
            && Checker.TextDefs(f, 1) == [] && Checker.TextDefs(f, 2) == [1]
            && Checker.TextDefs(f, 3) == [1, 0] && Checker.TextDefs(f, 4) == [1, 0]
  {
    var f := Backwards();
    assert Checker.TextDefs(f, 0) == [];
    assert Checker.BlockDefs(f.blocks[0]) == [] && Checker.BlockDefs(f.blocks[1]) == [1];
    assert Checker.BlockDefs(f.blocks[2]) == [0] && Checker.BlockDefs(f.blocks[3]) == [];
  }

  lemma BackwardsReads()
    ensures var f := Backwards();
            forall i, pc, t | 0 <= i < 4 && 0 <= pc <= |f.blocks[i].computations| && t in BlockReads(f.blocks[i], pc) ::
              t in Checker.DefsBefore(f, i, pc)
  {
    var f := Backwards();
    BackwardsDefs();
    forall i, pc, t | 0 <= i < 4 && 0 <= pc <= |f.blocks[i].computations| && t in BlockReads(f.blocks[i], pc)
      ensures t in Checker.DefsBefore(f, i, pc)
    {
      assert i == 3;
    }
  }

  lemma BackwardsExits()
    ensures forall i :: 0 <= i < 4 ==> Checker.ExitAccepted(Backwards(), i)
  {
    hide Checker.FindBlock;
    var f := Backwards();
    assert f.blocks[1].id == 1 && f.blocks[2].id == 2 && f.blocks[3].id == 3;
    assert forall b :: b in f.blocks ==> b.params == [];
    assert Checker.HasBlock(f, 1) && Checker.HasBlock(f, 2) && Checker.HasBlock(f, 3);
  }

  lemma BackwardsAccepted()
    ensures Checker.Accepted(Backwards()) && Checker.OnlyParamsLiveOnEntry(Backwards())
  {
    hide LiveAt, IdToIdx, Successors, BlockAt, Checker.FindBlock, Checker.ExitAccepted, Checker.DefsBefore,
      Checker.TextDefs;
    var f := Backwards();
    BackwardsDefs();
    assert f.blocks[0].id == 0 && f.blocks[1].id == 1 && f.blocks[2].id == 2 && f.blocks[3].id == 3;
    BackwardsReads();
    BackwardsExits();
    assert Checker.HasBlock(f, 0);
    BackwardsIds();
    forall t: TempId
      ensures !LiveAt(f.blocks, Point(0, 0), t)
    {
      BackwardsLive(t);
    }
  }

  /** The condition on roots can fail. This function is accepted, only its parameters are live
      on entry, its root lists are the ones the analysis computes and every computation is
      supported; but when its call is emitted its root has no value yet. */
  lemma RootNotYetEmitted()
    ensures var f := Backwards();
            && Checker.Accepted(f) && Checker.OnlyParamsLiveOnEntry(f) && Populated(f, f)
            && (forall i, pc :: 0 <= i < |f.blocks| && 0 <= pc < |f.blocks[i].computations| ==>
                  Supported(f.blocks[i].computations[pc]))
            && !Emittable(f)
  {
    hide Checker.Accepted, Checker.OnlyParamsLiveOnEntry, Populated, Emittable;
    var f := Backwards();
    BackwardsAccepted();
    BackwardsPopulated();
    AcceptedEmittableIff(f);
    assert 0 in RootsOfCall(f.blocks[1].computations[0]);
    assert !InText(f, 1, 0, 0);
    assert !RootsInText(f, 1, 0);
  }
}
