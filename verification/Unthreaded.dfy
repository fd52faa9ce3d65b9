/** Why the cross-block contract is needed. A pointer defined before a branch, live across a
    call on one side only and read where the sides meet: everything else compilation asks
    for holds, codegen accepts the function, and the code it emits reads a value that the
    path taken never defined. */
module Unthreaded {
  import opened Ir
  import opened Cfg
  import opened Liveness
  import opened Machine
  import opened LoopHeaders
  import opened Target
  import opened Binding
  import opened Compiled
  import opened CompiledRun
  import Checker = Verify

  function Diamond(): Function {
    Function(0, "f", [0], 0,
             [Block(0, "entry", [], [Const(1, StringLiteralRef("s"))], If(0, 1, 2)),
              Block(1, "then0", [], [DirectCall(2, "g", [], [1], false)], Jump(3, [])),
              Block(2, "else0", [], [], Jump(3, [])),
              Block(3, "join0", [], [], Return(Some(1)))],
             [Temporary(0, Boolean), Temporary(1, String), Temporary(2, Top)], String)
  }

  // ----- the bindings -----

  function Before(): Bindings { map[0 := Arg(0), 1 := Value(0, 0)] }

  function AfterCall(): Bindings { map[0 := Arg(0), 1 := Reload(1, 0, 0), 2 := Value(1, 0)] }

  lemma Ids()
    ensures var bs := Diamond().blocks;
            BlockAt(bs, 0) == Some(0) && BlockAt(bs, 1) == Some(1) && BlockAt(bs, 2) == Some(2)
                && BlockAt(bs, 3) == Some(3)
  {
    var bs := Diamond().blocks;
    assert bs[0].id == 0 && bs[1].id == 1 && bs[2].id == 2 && bs[3].id == 3;
    IdToIdxFinds(bs, 0);
    IdToIdxFinds(bs, 1);
    IdToIdxFinds(bs, 2);
    IdToIdxFinds(bs, 3);
  }

  lemma Homeless()
    ensures !HasHome(Diamond(), 0) && SeedNames(Diamond()) == [Arg(0)]
    ensures forall i :: ParamNames(Diamond(), i) == [Arg(0)]
  {
    var f := Diamond();
    assert f.temps[0] == Temporary(0, Boolean);
    assert TempType(f.temps, 0) == Boolean;
  }

  lemma BindOne(m: Bindings, t: TempId, s: Ssa)
    ensures Bind(m, [t], [s]) == m[t := s]
  {
    assert [t][1..] == [] && [s][1..] == [];
  }

  lemma IntoEntry()
    ensures CarryInto(Diamond(), 0) == Carry(map[0 := Arg(0)], map[0 := map[0 := Arg(0)]])
  {
    var f := Diamond();
    Homeless();
    BindOne(map[], 0, Arg(0));
    assert SeedTemps(f) == map[0 := Arg(0)];
    assert WithPhis(f.blocks, 4, SeedTemps(f)) == SeedTemps(f);
  }

  /** A block of no parameters starts with the carried and the noted bindings, and `t0`. */
  lemma InstallPlain(i: nat, carry: Carry)
    requires i < 4
    ensures Install(Diamond(), i, carry) ==
            (carry.temps + if i in carry.entries then carry.entries[i] else map[])[0 := Arg(0)]
  {
    var f := Diamond();
    var b1 := carry.temps + if i in carry.entries then carry.entries[i] else map[];
    Homeless();
    assert f.blocks[i].id == i && f.blocks[i].params == [];
    BindOne(b1, 0, Arg(0));
  }

  lemma NoteTargets(entries: map<BlockId, Bindings>, a: BlockId, b: BlockId, m: Bindings)
    ensures NoteAll(entries, [a], m) == Note(entries, a, m)
    ensures NoteAll(entries, [a, b], m) == Note(Note(entries, a, m), b, m)
  {
    assert [a][1..] == [];
    assert NoteAll(Note(entries, a, m), [], m) == Note(entries, a, m);
    assert [a, b][1..] == [b] && [b][1..] == [];
    assert NoteAll(Note(Note(entries, a, m), b, m), [], m) == Note(Note(entries, a, m), b, m);
  }

  /** The literal's block adds `t1`; the call's rebinds it and adds `t2`. */
  lemma WithinBlocks(m: Bindings)
    ensures var bs := Diamond().blocks;
            && Within(bs[0], 0, 0, m) == m && Within(bs[0], 0, 1, m) == m[1 := Value(0, 0)]
            && Within(bs[1], 1, 0, m) == m && Within(bs[1], 1, 1, m) == m[1 := Reload(1, 0, 0)][2 := Value(1, 0)]
            && Within(bs[2], 2, 0, m) == m && Within(bs[3], 3, 0, m) == m
  {
    BindOne(m, 1, Reload(1, 0, 0));
    assert ReloadNames(1, 0, 1) == [Reload(1, 0, 0)];
    assert Bind(m, [], ReloadNames(0, 0, 0)) == m;
  }

  /** What is noted after the entry block, and after the side with the call. */
  function NotedByEntry(): map<BlockId, Bindings> {
    Note(Note(map[0 := map[0 := Arg(0)]], 1, Before()), 2, Before())
  }

  function NotedByThen(): map<BlockId, Bindings> {
    Note(NotedByEntry(), 3, AfterCall())
  }

  /** What the other side leaves: the pointer where the entry block defined it. */
  function OtherSide(): Bindings { map[0 := Arg(0), 1 := Value(0, 0), 2 := Value(1, 0)] }

  lemma Noted()
    ensures 1 in NotedByEntry() && NotedByEntry()[1] == Before()
    ensures 2 in NotedByThen() && NotedByThen()[2] == Before()
    ensures 3 in Note(NotedByThen(), 3, OtherSide()) && Note(NotedByThen(), 3, OtherSide())[3] == AfterCall()
  {
    assert Before() + map[] == Before() && AfterCall() + map[] == AfterCall();
    assert NotedByThen()[3] == AfterCall();
    assert OtherSide() + AfterCall() == AfterCall();
  }

  lemma PastEntry()
    ensures OnEntry(Diamond(), 0) == map[0 := Arg(0)] && OnExit(Diamond(), 0) == Before()
    ensures CarryInto(Diamond(), 1) == Carry(Before(), NotedByEntry())
  {
    hide CarryInto, Install, Within, NoteAll, Note;
    IntoEntry();
    InstallPlain(0, CarryInto(Diamond(), 0));
    WithinBlocks(map[0 := Arg(0)]);
    CarryNext(Diamond(), 0);
    NoteTargets(map[0 := map[0 := Arg(0)]], 1, 2, Before());
  }

  lemma PastThen()
    ensures OnEntry(Diamond(), 1) == Before() && OnExit(Diamond(), 1) == AfterCall()
    ensures CarryInto(Diamond(), 2) == Carry(AfterCall(), NotedByThen())
  {
    hide CarryInto, Install, Within, NoteAll, Note, NotedByEntry;
    PastEntry();
    Noted();
    InstallPlain(1, CarryInto(Diamond(), 1));
    WithinBlocks(Before());
    CarryNext(Diamond(), 1);
    NoteTargets(NotedByEntry(), 3, 3, AfterCall());
  }

  /** The side with the call was emitted first, so the join keeps its reload. */
  lemma PastElse()
    ensures OnEntry(Diamond(), 2) == OtherSide() && OnExit(Diamond(), 2) == OtherSide()
    ensures CarryInto(Diamond(), 3) == Carry(OtherSide(), Note(NotedByThen(), 3, OtherSide()))
  {
    hide CarryInto, Install, Within, NoteAll, Note, NotedByThen;
    PastThen();
    Noted();
    InstallPlain(2, CarryInto(Diamond(), 2));
    WithinBlocks(OtherSide());
    CarryNext(Diamond(), 2);
    NoteTargets(NotedByThen(), 3, 3, OtherSide());
  }

  lemma AtJoin()
    ensures OnEntry(Diamond(), 3) == AfterCall() && OnExit(Diamond(), 3) == AfterCall()
  {
    hide CarryInto, Install, Within, NoteAll, Note, NotedByThen;
    PastElse();
    Noted();
    InstallPlain(3, CarryInto(Diamond(), 3));
    WithinBlocks(AfterCall());
  }

  lemma DiamondEmittable()
    ensures Emittable(Diamond())
  {
    hide CarryInto, Install, Within, NoteAll, Note, NotedByEntry, NotedByThen, BlockAt;
    var f := Diamond();
    Ids();
    PastEntry();
    PastThen();
    PastElse();
    AtJoin();
    WithinBlocks(map[0 := Arg(0)]);
    WithinBlocks(Before());
    forall i | 0 <= i < 4
      ensures BlockEmittable(f, i)
    {
    }
  }

  // ----- everything else compilation asks for -----

  lemma SuccessorsAre()
    ensures var bs := Diamond().blocks;
            Successors(bs, 0) == [1, 2] && Successors(bs, 1) == [3] && Successors(bs, 2) == [3]
                && Successors(bs, 3) == []
  {
    hide BlockAt;
    Ids();
    var bs := Diamond().blocks;
    assert forall a, b: BlockId :: [a, b][1..] == [b];
    assert KnownPositions(bs, []) == [];
    assert KnownPositions(bs, [2]) == [2] && KnownPositions(bs, [3]) == [3];
    assert [1, 2][1..] == [2];
    assert KnownPositions(bs, [1, 2]) == [1] + KnownPositions(bs, [2]);
  }

  /** The pointer is live from its definition on; the condition only before the branch. */
  lemma LiveTemps(t: TempId)
    ensures var bs := Diamond().blocks;
            && (LiveAt(bs, Point(0, 0), t) <==> t == 0) && (LiveAt(bs, Point(0, 1), t) <==> t == 0 || t == 1)
            && (LiveAt(bs, Point(1, 0), t) <==> t == 1) && (LiveAt(bs, Point(1, 1), t) <==> t == 1)
            && (LiveAt(bs, Point(2, 0), t) <==> t == 1) && (LiveAt(bs, Point(3, 0), t) <==> t == 1)
  {
    hide LiveAt, Successors;
    var bs := Diamond().blocks;
    SuccessorsAre();
    LiveAtTerminator(bs, 3, t);
    LiveAtTerminator(bs, 2, t);
    assert LiveOut(bs, 2, t) <==> LiveIn(bs, 3, t);
    LiveAtTerminator(bs, 1, t);
    assert LiveOut(bs, 1, t) <==> LiveIn(bs, 3, t);
    LiveAtComputation(bs, Point(1, 0), t);
    LiveAtTerminator(bs, 0, t);
    assert LiveOut(bs, 0, t) <==> LiveIn(bs, 1, t) || LiveIn(bs, 2, t);
    LiveAtComputation(bs, Point(0, 0), t);
  }

  lemma DiamondTypes()
    ensures var f := Diamond();
            && UniqueTempIds(f.temps) && !Protected(f.temps, 0) && Protected(f.temps, 1)
            && (forall v :: Allowed(f.temps, 0, v) <==> v.Imm?) && (forall v :: Allowed(f.temps, 1, v))
  {
    var temps := Diamond().temps;
    assert temps[..2] == [Temporary(0, Boolean), Temporary(1, String)] && temps[..2][..1] == [Temporary(0, Boolean)];
    assert TypeTable(temps[..2][..1]) == map[0 := Boolean];
    assert TypeTable(temps[..2]) == map[0 := Boolean, 1 := String];
    assert TypeTable(temps) == map[0 := Boolean, 1 := String, 2 := Top];
  }

  lemma DiamondPopulated()
    ensures Populated(Diamond(), Diamond()) && NoAllocRootsEmpty(Diamond())
  {
    hide LiveAt;
    var f := Diamond();
    DiamondTypes();
    forall t
      ensures t in [1] <==> LiveAcross(f.blocks, 1, 0, t) && Protected(f.temps, t)
    {
      LiveTemps(t);
    }
    assert IsRootList(f, 1, 0, [1]);
    assert PopulatedBlock(f, 0, f.blocks[0]) && PopulatedBlock(f, 1, f.blocks[1]);
  }

  lemma DiamondAccepted()
    ensures Checker.Accepted(Diamond()) && Checker.BranchesBindNothing(Diamond())
  {
    hide LiveAt, IdToIdx, Successors, BlockAt, Checker.FindBlock, Checker.ExitAccepted, Checker.DefsBefore,
      Checker.TextDefs;
    var f := Diamond();
    DefinedTemps();
    assert f.blocks[0].id == 0 && f.blocks[1].id == 1 && f.blocks[2].id == 2 && f.blocks[3].id == 3;
    ReadsAreDefined();
    ExitsAreAccepted();
    assert Checker.HasBlock(f, 0);
    assert forall b :: b in f.blocks ==> b.params == [];
  }

  lemma DefinedTemps()
    ensures var f := Diamond();
            && Checker.TextDefs(f, 1) == [0, 1] && Checker.TextDefs(f, 2) == [0, 1, 2]
            && Checker.TextDefs(f, 3) == [0, 1, 2] && Checker.TextDefs(f, 4) == [0, 1, 2]
  {
    var f := Diamond();
    assert Checker.TextDefs(f, 0) == [0];
    assert Checker.BlockDefs(f.blocks[0]) == [1] && Checker.BlockDefs(f.blocks[1]) == [2];
    assert Checker.BlockDefs(f.blocks[2]) == [] && Checker.BlockDefs(f.blocks[3]) == [];
  }

  lemma ReadsAreDefined()
    ensures var f := Diamond();
            forall i, pc, t | 0 <= i < 4 && 0 <= pc <= |f.blocks[i].computations| && t in BlockReads(f.blocks[i], pc) ::
              t in Checker.DefsBefore(f, i, pc)
  {
    var f := Diamond();
    DefinedTemps();
    forall i, pc, t | 0 <= i < 4 && 0 <= pc <= |f.blocks[i].computations| && t in BlockReads(f.blocks[i], pc)
      ensures t in Checker.DefsBefore(f, i, pc)
    {
      assert i == 0 || i == 3;
    }
  }

  lemma ExitsAreAccepted()
    ensures forall i :: 0 <= i < 4 ==> Checker.ExitAccepted(Diamond(), i)
  {
    hide Checker.FindBlock;
    var f := Diamond();
    assert f.blocks[1].id == 1 && f.blocks[2].id == 2 && f.blocks[3].id == 3;
    assert forall b :: b in f.blocks ==> b.params == [];
    assert Checker.HasBlock(f, 1) && Checker.HasBlock(f, 2) && Checker.HasBlock(f, 3);
  }

  lemma DiamondEntry()
    ensures Checker.OnlyParamsLiveOnEntry(Diamond()) && EntryFirst(Diamond())
  {
    hide LiveAt, Successors, BlockAt;
    Ids();
    SuccessorsAre();
    forall t | LiveAt(Diamond().blocks, Point(0, 0), t)
      ensures t in Diamond().params
    {
      LiveTemps(t);
    }
  }

  lemma PointerCrosses()
    ensures Crosses(Diamond(), 3, 1)
  {
    hide LiveAt;
    LiveTemps(1);
    assert Rebinds(Diamond().blocks[1].computations[0], 1);
  }

  /** The join starts with the reload, and one of its predecessors leaves something else. */
  lemma ContractFails()
    ensures !EdgeContract(Diamond())
  {
    hide OnEntry, OnExit, LiveAt, Successors, EdgeContract, Diamond, Threaded;
    PointerCrosses();
    JoinIsSuccessor();
    DifferentAtJoin();
    if EdgeContract(Diamond()) {
      ContractAt(Diamond(), 2, 3, 1);
    }
  }

  lemma JoinIsSuccessor()
    ensures 3 in Successors(Diamond().blocks, 2) && |Diamond().blocks| == 4
  {
    hide Successors;
    SuccessorsAre();
  }

  lemma DifferentAtJoin()
    ensures 1 in OnExit(Diamond(), 2) && 1 in OnEntry(Diamond(), 3)
              && OnExit(Diamond(), 2)[1] != OnEntry(Diamond(), 3)[1]
  {
    hide OnEntry, OnExit;
    PastElse();
    AtJoin();
  }

  // ----- the run -----

  /** Every answer is the same object; the collector puts it at address 8. */
  function OneObject(): Environment { Environment(0, (hist, at, vs) => Obj(0)) }

  function There(): Layout { map[0 := 8] }

  lemma PrologueDoesNothing(i: nat, r: Frame)
    requires i < 4
    ensures RunInstrs(PrologueOf(Diamond(), i), r) == Some(r)
  {
    hide BlockAt, IsHeader;
    var f := Diamond();
    Homeless();
    assert [0][1..] == [];
    assert SeedLoads(f, []) == [] && BlockLoads(f, i, []) == [];
    assert SeedStores(f, 1) == [];
    assert SeedStores(f, 0) == [] && SeedLoads(f, [0]) == [] && BlockLoads(f, i, [0]) == [];
    assert PrologueOf(f, i) == [] || PrologueOf(f, i) == [Poll];
    PollDoesNothing(r);
  }

  /** The emitted blocks on the side without the call. */
  lemma EntryCode()
    requires Emittable(Diamond())
    ensures EmittedOf(Diamond(), 0) ==
            EmittedBlock(0, PrologueOf(Diamond(), 0),
                         [Chunk([], Op(Some(Value(0, 0)), Point(0, 0), Const(1, StringLiteralRef("s")), [], 0), [])],
                         CondBr(Arg(0), 1, 2))
  {
    hide OnEntry, OnExit, At, PrologueOf, BlockAt, Emittable, ComputationEmittable, ExitEmittable, CarryInto, Note,
      NotedByThen;
    var f := Diamond();
    Ids();
    PastEntry();
    assert BlockEmittable(f, 0) by {
      EachEmittable(0);
    }
    BodyIsChunks(f, 0, 1, 0);
    assert BodyOf(f, 0, 1) == [ChunkAt(f, 0, 0)];
  }

  lemma EachEmittable(i: nat)
    requires Emittable(Diamond()) && i < 4
    ensures BlockEmittable(Diamond(), i)
  {
    hide BlockEmittable;
  }

  lemma ElseCode()
    requires Emittable(Diamond())
    ensures EmittedOf(Diamond(), 2) == EmittedBlock(0, PrologueOf(Diamond(), 2), [], Br(3))
  {
    hide OnEntry, OnExit, At, PrologueOf, BlockAt, Emittable, ComputationEmittable, ExitEmittable, CarryInto, Note,
      NotedByThen;
    Ids();
    PastElse();
    assert BlockEmittable(Diamond(), 2) by {
      EachEmittable(2);
    }
  }

  lemma JoinCode()
    requires Emittable(Diamond())
    ensures EmittedOf(Diamond(), 3) == EmittedBlock(0, PrologueOf(Diamond(), 3), [], Ret(Some(Reload(1, 0, 0))))
  {
    hide OnEntry, OnExit, At, PrologueOf, BlockAt, Emittable, ComputationEmittable, ExitEmittable, CarryInto, Note,
      NotedByThen;
    AtJoin();
    assert BlockEmittable(Diamond(), 3) by {
      EachEmittable(3);
    }
  }

  lemma EmittedBlocksAre()
    requires Emittable(Diamond())
    ensures |CodeOf(Diamond()).blocks| == 4
    ensures forall i :: 0 <= i < 4 ==> CodeOf(Diamond()).blocks[i] == EmittedOf(Diamond(), i)
  {
    hide EmittedOf, AllIncoming, Emittable, OpsFit;
  }

  /** Taking an edge into a block without parameters only moves. */
  lemma EntersPlainly(s: TState, j: nat)
    requires Emittable(Diamond()) && s.TRunning? && (j == 2 || j == 3)
    ensures TEnter(CodeOf(Diamond()), s, j) == Some(TRunning(Point(j, 0), s.frame, s.layout, s.hist))
  {
    hide CodeOf, PrologueOf, EmittedOf, RunInstrs, Emittable;
    EmittedBlocksAre();
    ElseCode();
    JoinCode();
    PrologueDoesNothing(j, s.frame);
    assert ReadAll<Ssa, Word>(s.frame.ssa, []) == Some([]);
    assert PhiNames(j, 0) == [] && Bind<Ssa, Word>(s.frame.ssa, [], []) == s.frame.ssa;
    assert s.frame.(ssa := s.frame.ssa) == s.frame;
  }

  function Began(): TState {
    TRunning(Point(0, 0), Frame(ArgWords([Raw(0)]), map[], map[]), map[], [])
  }

  /** The state after the literal, moved to block `j` or still in the entry block. */
  function Going(at: Point): TState {
    TRunning(at, Frame(ArgWords([Raw(0)])[Value(0, 0) := Addr(8)], map[], map[]), There(),
             [Event(Point(0, 0), [], Obj(0))])
  }

  lemma Begins()
    requires Emittable(Diamond())
    ensures TStart(Diamond(), [Raw(0)], map[]) == Some(Began())
  {
    hide PrologueOf, RunInstrs, CodeOf, Emittable;
    PrologueDoesNothing(0, Began().frame);
  }

  lemma Words()
    ensures var ssa := Going(Point(0, 1)).frame.ssa;
            && ReadVals(There(), ssa, [Arg(0)]) == Some([Imm(0)])
            && ReadVals(There(), ssa, [Reload(1, 0, 0)]).None?
            && ReadVals(map[], Began().frame.ssa, []) == Some([])
  {
    var ssa := Going(Point(0, 1)).frame.ssa;
    ArgWordsHold([Raw(0)]);
    assert Arg(0) in ssa && ssa[Arg(0)] == Raw(0);
    assert ReadAll(ssa, [Arg(0)]).value == [Raw(0)];
    assert Decode(There(), Raw(0)) == Some(Imm(0));
    assert DecodeAll(There(), [Raw(0)]).value == [Imm(0)];
    assert Reload(1, 0, 0) !in ssa;
  }

  lemma LiteralStep()
    requires Emittable(Diamond())
    ensures TLegal(CodeOf(Diamond()), OneObject(), Began(), There())
    ensures TStep(CodeOf(Diamond()), OneObject(), Began(), There()) == Some(Going(Point(0, 1)))
  {
    hide CodeOf, EmittedOf, Emittable, PrologueOf, ArgWords, ReadVals;
    EmittedBlocksAre();
    EntryCode();
    Words();
    PollDoesNothing(Began().frame);
    PollDoesNothing(Going(Point(0, 1)).frame);
    var event := Event(Point(0, 0), [], Obj(0));
    assert Began().hist + [event] == [event];
    assert RunOp(OneObject(), CodeOf(Diamond()).blocks[0].body[0].op, Began().frame, map[], [], There()) ==
           Some((Going(Point(0, 1)).frame, event));
  }

  lemma BranchStep()
    requires Emittable(Diamond())
    ensures TLegal(CodeOf(Diamond()), OneObject(), Going(Point(0, 1)), There())
    ensures TStep(CodeOf(Diamond()), OneObject(), Going(Point(0, 1)), There()) == Some(Going(Point(2, 0)))
  {
    hide CodeOf, EmittedOf, Emittable, PrologueOf, ArgWords, ReadVals, TEnter;
    EmittedBlocksAre();
    EntryCode();
    Words();
    EntersPlainly(Going(Point(0, 1)), 2);
  }

  lemma JumpStep()
    requires Emittable(Diamond())
    ensures TLegal(CodeOf(Diamond()), OneObject(), Going(Point(2, 0)), There())
    ensures TStep(CodeOf(Diamond()), OneObject(), Going(Point(2, 0)), There()) == Some(Going(Point(3, 0)))
  {
    hide CodeOf, EmittedOf, Emittable, PrologueOf, ArgWords, ReadVals, TEnter;
    EmittedBlocksAre();
    ElseCode();
    EntersPlainly(Going(Point(2, 0)), 3);
  }

  lemma ReturnStops()
    requires Emittable(Diamond())
    ensures TLegal(CodeOf(Diamond()), OneObject(), Going(Point(3, 0)), There())
    ensures TStep(CodeOf(Diamond()), OneObject(), Going(Point(3, 0)), There()).None?
  {
    hide CodeOf, EmittedOf, Emittable, PrologueOf, ArgWords, ReadVals, TEnter;
    EmittedBlocksAre();
    JoinCode();
    Words();
  }

  /** Only the condition is taken for an immediate, and it stays one. */
  ghost predicate ConditionIsImmediate(s: RState) {
    s.Running? ==> IsPoint(Diamond().blocks, s.at) && (0 in s.vals ==> s.vals[0].Imm?)
  }

  lemma ConditionStays(s: RState)
    requires ConditionIsImmediate(s)
    ensures var r := RStep(Diamond().blocks, OneObject(), s); r.Some? ==> ConditionIsImmediate(r.value)
  {
    hide BlockAt, ReadAll;
  }

  lemma {:induction false} TypesHold(s: RState, n: nat)
    requires ConditionIsImmediate(s)
    ensures var r := RRun(Diamond().blocks, OneObject(), s, n); r.Some? ==> TypesSound(Diamond(), r.value)
    decreases n
  {
    hide LiveAt, Protected, Allowed, RStep;
    if n == 0 {
      DiamondTypes();
      forall t | s.Running? && LiveAt(Diamond().blocks, s.at, t) && t in s.vals
        ensures Allowed(Diamond().temps, t, s.vals[t])
      {
        LiveTemps(t);
      }
    } else {
      ConditionStays(s);
      var r := RStep(Diamond().blocks, OneObject(), s);
      if r.Some? {
        TypesHold(r.value, n - 1);
      }
    }
  }

  lemma DiamondRuns()
    requires Emittable(Diamond())
    ensures var schedule := [There(), There(), There(), There()];
            && TLegalSchedule(CodeOf(Diamond()), OneObject(), Began(), schedule)
            && TRun(CodeOf(Diamond()), OneObject(), Began(), schedule).None?
  {
    hide CodeOf, TStep, TLegal, Emittable, EmittedOf, PrologueOf;
    EmittedBlocksAre();
    EntryCode();
    ElseCode();
    JoinCode();
    LiteralStep();
    BranchStep();
    JumpStep();
    ReturnStops();
    var l := There();
    assert [l, l, l, l][1..] == [l, l, l] && [l, l, l][1..] == [l, l] && [l, l][1..] == [l];
    var code, env := CodeOf(Diamond()), OneObject();
    assert TRun(code, env, Going(Point(3, 0)), [l]).None? && TLegalSchedule(code, env, Going(Point(3, 0)), [l]);
    assert TRun(code, env, Going(Point(2, 0)), [l, l]).None? && TLegalSchedule(code, env, Going(Point(2, 0)), [l, l]);
    assert TRun(code, env, Going(Point(0, 1)), [l, l, l]).None?
             && TLegalSchedule(code, env, Going(Point(0, 1)), [l, l, l]);
  }

  /** The contract cannot be dropped. This function meets every other demand of compiled
      transparency, its reference run returns the object, and its code stops on a value that
      the path taken never defined. */
  lemma UnthreadedPointerBreaks()
    ensures var f := Diamond();
            && Populated(f, f) && NoAllocRootsEmpty(f) && Emittable(f) && UniqueTempIds(f.temps)
            && Checker.Accepted(f) && Checker.BranchesBindNothing(f) && Checker.OnlyParamsLiveOnEntry(f)
                 && EntryFirst(f)
            && TypesSoundAlong(f, OneObject(), Start(f, [Imm(0)]), 4)
            && RRun(f.blocks, OneObject(), Start(f, [Imm(0)]), 4).Some?
    ensures !EdgeContract(Diamond())
    ensures var start := TStart(Diamond(), [Raw(0)], map[]);
            var code, schedule := CodeOf(Diamond()), [There(), There(), There(), There()];
            && start.Some? && TLegalSchedule(code, OneObject(), start.value, schedule)
            && TRun(code, OneObject(), start.value, schedule).None?
  {
    hide Populated, NoAllocRootsEmpty, Emittable, UniqueTempIds, Checker.Accepted, Checker.BranchesBindNothing,
      Checker.OnlyParamsLiveOnEntry, EntryFirst, EdgeContract, CodeOf, TRun, TLegalSchedule, TStart, RRun, LiveAt;
    var f := Diamond();
    DiamondPopulated();
    DiamondEmittable();
    DiamondTypes();
    DiamondAccepted();
    DiamondEntry();
    ContractFails();
    Begins();
    DiamondRuns();
    Checker.AcceptedNeverReadsUndefined(f, OneObject(), [Imm(0)], 4);
    Ids();
    assert f.params == [0];
    forall k: nat | k <= 4 && RRun(f.blocks, OneObject(), Start(f, [Imm(0)]), k).Some?
      ensures TypesSound(f, RRun(f.blocks, OneObject(), Start(f, [Imm(0)]), k).value)
    {
      TypesHold(Start(f, [Imm(0)]), k);
    }
  }
}
