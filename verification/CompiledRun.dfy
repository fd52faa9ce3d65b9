/** Whole runs of the emitted code: every step, edge and entry of it keeps pace with the
    reference machine, whatever the collector does. */
module CompiledRun {
  import opened Ir
  import opened Cfg
  import opened Liveness
  import opened Machine
  import opened Target
  import opened Binding
  import opened Compiled

  // ----- edges -----

  /** What arrives on an edge: nothing for a block without parameters, else the values
      recorded when the jump was emitted. */
  ghost predicate Arrives(f: Function, i: nat, j: nat, names: seq<Ssa>)
    requires Emittable(f) && j < |f.blocks|
  {
    && |names| == |f.blocks[j].params|
    && (names == [] || FindIncoming(AllIncoming(f, |f.blocks|), i, j) == Some(names))
  }

  lemma {:induction false} EntersBlock(f: Function, ts: TState, j: nat, names: seq<Ssa>, ws: seq<Word>, r': Frame)
    requires Emittable(f) && ts.TRunning? && j < |f.blocks| && Arrives(f, ts.at.block, j, names)
    requires ReadAll(ts.frame.ssa, names) == Some(ws)
    requires RunInstrs(PrologueOf(f, j), ts.frame.(ssa := Bind(ts.frame.ssa, PhiNames(j, |ws|), ws))) == Some(r')
    ensures TEnter(CodeOf(f), ts, j) == Some(TRunning(Point(j, 0), r', ts.layout, ts.hist))
  {
    hide PrologueOf, RunInstrs, BodyOf, ExitOf, BlockEmittable, Emittable, AllIncoming, OpsFit, FindIncoming, Bind;
    assert CodeOf(f).blocks[j] == EmittedOf(f, j);
    if names == [] {
      assert ws == [];
    }
  }

  /** Taking an edge: phis, parameter loads and poll leave every live temp kept. */
  lemma {:induction false} EdgeTaken(f: Function, rs: RState, ts: TState, id: BlockId, vs: seq<Val>, names: seq<Ssa>)
    requires Compilable(f) && Simulates(f, rs, ts) && rs.Running? && AtTerminator(f.blocks, rs.at)
    requires id in f.blocks[rs.at.block].terminator.Targets() && BlockAt(f.blocks, id).Some?
    requires Arrives(f, rs.at.block, BlockAt(f.blocks, id).value, names)
    requires ReadVals(ts.layout, ts.frame.ssa, names) == Some(vs)
    ensures var r, t := REnter(f.blocks, rs, id, vs), TEnter(CodeOf(f), ts, BlockAt(f.blocks, id).value);
            r.Some? && t.Some? && Simulates(f, r.value, t.value)
  {
    hide LiveAt, TempKept, ParamKept, EdgeContract, WellFormed, RootsExact, NoAllocRootsEmpty, SingleDefs,
      PhisReadAfter,
      Emittable, PrologueOf, ParamsLoaded, Entered, CodeOf, TEnter, AllIncoming;
    var i, j := rs.at.block, BlockAt(f.blocks, id).value;
    SuccessorOf(f.blocks, i, id);
    var ws := ReadAll(ts.frame.ssa, names).value;
    var r' := PrologueRuns(f, j, ts.frame.(ssa := Bind(ts.frame.ssa, PhiNames(j, |ws|), ws)));
    EntersBlock(f, ts, j, names, ws, r');
    EnteredByEdge(f, j, ws, ts.frame, r');
    assert EdgeInto(f, i, j, ts.layout, ts.frame, rs.vals, vs, ws);
    KeptAcrossEdge(f, i, id, ts.layout, ts.frame, r', rs.vals, vs, ws);
  }

  lemma {:induction false} UsesRead(f: Function, rs: RState, ts: TState) returns (vs: seq<Val>)
    requires Compilable(f) && Simulates(f, rs, ts) && rs.Running? && AtTerminator(f.blocks, rs.at)
    ensures var i := rs.at.block;
            var used := f.blocks[i].terminator.Uses();
            && Bound(OnExit(f, i), used) && ExitEmittable(f.blocks, f.blocks[i].terminator, OnExit(f, i))
            && ReadAll(rs.vals, used) == Some(vs)
            && ReadVals(ts.layout, ts.frame.ssa, Names(OnExit(f, i), used)) == Some(vs)
  {
    hide LiveAt, At, TempKept, ParamKept, EdgeContract, WellFormed, RootsExact, NoAllocRootsEmpty, SingleDefs,
      PhisReadAfter;
    var i := rs.at.block;
    assert BlockEmittable(f, i);
    forall t | t in f.blocks[i].terminator.Uses()
      ensures LiveAt(f.blocks, rs.at, t)
    {
      ReadIsLive(f.blocks, rs.at, t);
    }
    NamesRead(f, rs.at, ts.layout, ts.frame, rs.vals, f.blocks[i].terminator.Uses());
    vs := ReadAll(rs.vals, f.blocks[i].terminator.Uses()).value;
  }

  /** A branch or jump finds its block, and the values recorded for the block's phis are
      the ones the terminator read. */
  lemma {:induction false} ArrivalNames(f: Function, i: nat, id: BlockId) returns (names: seq<Ssa>)
    requires Compilable(f) && i < |f.blocks| && id in f.blocks[i].terminator.Targets()
    requires Bound(OnExit(f, i), f.blocks[i].terminator.Uses())
    ensures BlockAt(f.blocks, id).Some? && Arrives(f, i, BlockAt(f.blocks, id).value, names)
    ensures names == if f.blocks[i].terminator.Jump? then Names(OnExit(f, i), f.blocks[i].terminator.Uses()) else []
  {
    hide OnExit, LiveAt, EdgeContract, RootsExact, NoAllocRootsEmpty, SingleDefs, PhisReadAfter, AllIncoming,
      Successors;
    var term := f.blocks[i].terminator;
    assert TerminatorFits(f.blocks, term);
    if term.Jump? {
      names := Names(OnExit(f, i), term.Uses());
      assert BlockEmittable(f, i);
      IncomingFound(f, |f.blocks|, i, BlockAt(f.blocks, id).value);
    } else {
      names := [];
    }
  }

  /** The exit a block was given, from its terminator. */
  lemma {:induction false} ExitShape(f: Function, i: nat)
    requires Emittable(f) && i < |f.blocks| && ExitEmittable(f.blocks, f.blocks[i].terminator, OnExit(f, i))
    ensures CodeOf(f).blocks[i].exit == ExitOf(f.blocks, f.blocks[i].terminator, OnExit(f, i))
    ensures |CodeOf(f).blocks[i].body| == |f.blocks[i].computations|
  {
    hide OnExit;
    assert BlockEmittable(f, i);
    assert CodeOf(f).blocks[i] == EmittedOf(f, i);
  }

  lemma {:induction false} TerminatorSimulated(f: Function, env: Environment, rs: RState, ts: TState, l': Layout)
    requires Compilable(f) && Simulates(f, rs, ts) && rs.Running? && AtTerminator(f.blocks, rs.at)
    requires OpsFit(CodeOf(f)) && IsCodePoint(CodeOf(f), ts.at)
    ensures var r, t := RStep(f.blocks, env, rs), TStep(CodeOf(f), env, ts, l');
            r.Some? && t.Some? && Simulates(f, r.value, t.value)
  {
    hide OnExit, LiveAt, EdgeContract, RootsExact, NoAllocRootsEmpty, SingleDefs, PhisReadAfter, CodeOf, Kept,
      Emittable,
      OpsFit, WellFormed, TEnter, Arrives;
    var i := rs.at.block;
    var term := f.blocks[i].terminator;
    var vs := UsesRead(f, rs, ts);
    ExitShape(f, i);
    match term
    case Return(None) =>
    case Return(Some(v)) =>
      assert Names(OnExit(f, i), [v]) == [OnExit(f, i)[v]];
    case If(c, a, b) =>
      assert Names(OnExit(f, i), [c]) == [OnExit(f, i)[c]];
      var id := if vs[0] != Imm(env.falseWord) then a else b;
      var names := ArrivalNames(f, i, id);
      EdgeTaken(f, rs, ts, id, [], names);
    case Jump(a, args) =>
      var names := ArrivalNames(f, i, a);
      EdgeTaken(f, rs, ts, a, vs, names);
  }

  // ----- runs -----

  /** One step of the emitted code keeps pace with one step of the reference machine. */
  lemma {:induction false} StepSimulated(f: Function, env: Environment, rs: RState, ts: TState, l': Layout)
    requires Compilable(f) && Simulates(f, rs, ts) && TypesSound(f, rs)
    requires OpsFit(CodeOf(f)) && StaysInCode(CodeOf(f), ts) && TLegal(CodeOf(f), env, ts, l')
    ensures rs.Running? ==> IsPoint(f.blocks, rs.at)
    ensures var r, t := RStep(f.blocks, env, rs), TStep(CodeOf(f), env, ts, l');
            r.Some? && t.Some? && Simulates(f, r.value, t.value) && StaysInCode(CodeOf(f), t.value)
  {
    hide Emittable, WellFormed, RootsExact, NoAllocRootsEmpty, SingleDefs, PhisReadAfter, EdgeContract, Kept,
      RStep, TStep,
      TLegal, OpsFit, CodeOf;
    if rs.Running? {
      if AtTerminator(f.blocks, rs.at) {
        TerminatorSimulated(f, env, rs, ts, l');
      } else {
        ComputationSimulated(f, env, rs, ts, l');
      }
      StillInCode(f, RStep(f.blocks, env, rs).value, TStep(CodeOf(f), env, ts, l').value);
    } else {
      ReturnedStays(f, env, rs, ts, l');
    }
  }

  lemma ReturnedStays(f: Function, env: Environment, rs: RState, ts: TState, l': Layout)
    requires Emittable(f) && OpsFit(CodeOf(f)) && rs.Returned? && ts.TReturned?
    ensures RStep(f.blocks, env, rs) == Some(rs) && TStep(CodeOf(f), env, ts, l') == Some(ts)
  {
  }

  lemma StillInCode(f: Function, rs: RState, ts: TState)
    requires Compilable(f) && Simulates(f, rs, ts)
    ensures StaysInCode(CodeOf(f), ts)
  {
    hide Kept, CodeOf;
    if rs.Running? {
      CodeShape(f, rs.at);
    }
  }

  lemma {:induction false} RunSimulated(f: Function, env: Environment, rs: RState, ts: TState, schedule: seq<Layout>)
    requires Compilable(f) && Simulates(f, rs, ts)
    requires rs.Running? ==> IsPoint(f.blocks, rs.at)
    requires OpsFit(CodeOf(f)) && StaysInCode(CodeOf(f), ts)
    requires TypesSoundAlong(f, env, rs, |schedule|)
    requires TLegalSchedule(CodeOf(f), env, ts, schedule)
    ensures var r, t := RRun(f.blocks, env, rs, |schedule|), TRun(CodeOf(f), env, ts, schedule);
            r.Some? && t.Some? && Simulates(f, r.value, t.value)
    decreases |schedule|
  {
    hide Emittable, WellFormed, RootsExact, NoAllocRootsEmpty, SingleDefs, PhisReadAfter, EdgeContract, Kept,
      RStep, TStep,
      TLegal, OpsFit, CodeOf, TypesSound, IsCodePoint;
    if schedule != [] {
      assert RRun(f.blocks, env, rs, 0) == Some(rs);
      StepSimulated(f, env, rs, ts, schedule[0]);
      SoundAfterStep(f, env, rs, |schedule|);
      var r, t := RStep(f.blocks, env, rs).value, TStep(CodeOf(f), env, ts, schedule[0]).value;
      assert r.Running? ==> IsPoint(f.blocks, r.at);
      RunSimulated(f, env, r, t, schedule[1..]);
    }
  }

  // ----- entering the function -----

  function ArgWords(words: seq<Word>): map<Ssa, Word> {
    if words == [] then map[]
    else ArgWords(words[..|words| - 1])[Arg(|words| - 1) := words[|words| - 1]]
  }

  lemma {:induction false} ArgWordsHold(words: seq<Word>)
    ensures forall k :: 0 <= k < |words| ==> Arg(k) in ArgWords(words) && ArgWords(words)[Arg(k)] == words[k]
  {
    if words != [] {
      ArgWordsHold(words[..|words| - 1]);
    }
  }

  /** The activation as the first block is entered, its prologue run. */
  ghost function TStart(f: Function, words: seq<Word>, l: Layout): (t: Option<TState>)
    requires Emittable(f) && |words| == |f.params|
    ensures t.Some? ==> StaysInCode(CodeOf(f), t.value)
  {
    match RunInstrs(PrologueOf(f, 0), Frame(ArgWords(words), map[], map[]))
    case None => None
    case Some(frame) => Some(TRunning(Point(0, 0), frame, l, []))
  }

  /** The stores at entry put each homed parameter's argument in its cell. */
  ghost predicate Seeded(f: Function, from: nat, r: Frame, r': Frame)
    requires from <= |f.params|
  {
    && r'.ssa == r.ssa
    && (forall p :: p in r.homes && p !in f.params[from..] ==> p in r'.homes && r'.homes[p] == r.homes[p])
    && (forall k :: from <= k < |f.params| && HasHome(f, f.params[k]) ==>
          f.params[k] in r'.homes && Arg(k) in r.ssa && r'.homes[f.params[k]] == r.ssa[Arg(k)])
  }

  lemma {:induction false} SeedStoresRun(f: Function, from: nat, r: Frame) returns (r': Frame)
    requires from <= |f.params| && Distinct(f.params)
    requires forall k :: from <= k < |f.params| ==> Arg(k) in r.ssa
    ensures RunInstrs(SeedStores(f, from), r) == Some(r')
    ensures Seeded(f, from, r, r')
    decreases |f.params| - from
  {
    hide HasHome, Seeded;
    if from == |f.params| {
      r' := r;
      NothingSeeded(f, r);
    } else {
      var p := f.params[from];
      var next := if HasHome(f, p) then r.(homes := r.homes[p := r.ssa[Arg(from)]]) else r;
      r' := SeedStoresRun(f, from + 1, next);
      if HasHome(f, p) {
        RunCons(StoreHome(p, Arg(from)), SeedStores(f, from + 1), r);
      } else {
        assert [] + SeedStores(f, from + 1) == SeedStores(f, from + 1);
      }
      SeededStep(f, from, r, next, r');
    }
  }

  lemma NothingSeeded(f: Function, r: Frame)
    ensures Seeded(f, |f.params|, r, r)
  {
  }

  lemma SeededStep(f: Function, from: nat, r: Frame, next: Frame, r': Frame)
    requires from < |f.params| && Distinct(f.params) && Arg(from) in r.ssa
    requires next == if HasHome(f, f.params[from]) then r.(homes := r.homes[f.params[from] := r.ssa[Arg(from)]]) else r
    requires Seeded(f, from + 1, next, r')
    ensures Seeded(f, from, r, r')
  {
    assert f.params[from..] == [f.params[from]] + f.params[from + 1..];
    assert HasHome(f, f.params[from]) ==> f.params[from] in next.homes;
  }

  lemma {:induction false} SeedLoadsRun(f: Function, ps: seq<TempId>, r: Frame) returns (r': Frame)
    requires forall p :: p in ps && HasHome(f, p) ==> p in r.homes
    ensures RunInstrs(SeedLoads(f, ps), r) == Some(r')
    ensures r'.homes == r.homes
    ensures forall s: Ssa :: s in r.ssa && !s.HomeSeed? ==> s in r'.ssa && r'.ssa[s] == r.ssa[s]
  {
    hide HasHome;
    if ps == [] {
      r' := r;
    } else {
      assert ps == [ps[0]] + ps[1..];
      var next := if HasHome(f, ps[0]) then r.(ssa := r.ssa[HomeSeed(ps[0]) := r.homes[ps[0]]]) else r;
      r' := SeedLoadsRun(f, ps[1..], next);
      if HasHome(f, ps[0]) {
        RunCons(LoadHome(HomeSeed(ps[0]), ps[0]), SeedLoads(f, ps[1..]), r);
      } else {
        assert [] + SeedLoads(f, ps[1..]) == SeedLoads(f, ps[1..]);
      }
    }
  }

  /** The entry prologue: stores, loads, and the block's own parameter loads. */
  lemma EntryPrologueRuns(f: Function, j: nat, r: Frame) returns (seeded: Frame, r': Frame)
    requires j < |f.blocks| && BlockAt(f.blocks, f.entry) == Some(j) && Distinct(f.params)
    requires forall k :: 0 <= k < |f.params| ==> Arg(k) in r.ssa
    ensures RunInstrs(PrologueOf(f, j), r) == Some(r')
    ensures Seeded(f, 0, r, seeded) && r'.homes == seeded.homes
    ensures forall k :: 0 <= k < |f.params| ==> Arg(k) in r'.ssa && r'.ssa[Arg(k)] == r.ssa[Arg(k)]
    ensures forall p :: HasHome(f, p) ==>
              p in seeded.homes && HomeLoad(j, p) in r'.ssa && r'.ssa[HomeLoad(j, p)] == seeded.homes[p]
  {
    var stores, seeds, loads := SeedStores(f, 0), SeedLoads(f, f.params), BlockLoads(f, j, f.params);
    var poll := if Polled(f, j) then [Poll] else [];
    seeded := SeedStoresRun(f, 0, r);
    var loaded := SeedLoadsRun(f, f.params, seeded);
    r' := BlockLoadsRun(f, j, f.params, loaded);
    PollDoesNothing(r');
    RunConcat(stores, seeds, r);
    RunConcat(stores + seeds, loads, r);
    RunConcat(stores + seeds + loads, poll, r);
    assert PrologueOf(f, j) == stores + seeds + loads + poll;
  }

  /** Each parameter's value at the start is its argument. */
  lemma {:induction false} StartValue(f: Function, args: seq<Val>, k: nat)
    requires Distinct(f.params) && |args| == |f.params| && k < |f.params|
    ensures FirstIndex(f.params, f.params[k]) == k
    ensures var vals := Bind(map[], f.params, args); f.params[k] in vals && vals[f.params[k]] == args[k]
  {
    BindDistinct<TempId, Val>(map[], f.params, args, k);
  }

  lemma {:induction false} ParamKeptAtStart(f: Function, j: nat, l: Layout, words: seq<Word>, args: seq<Val>,
                        seeded: Frame, r: Frame, k: nat)
    requires SingleDefs(f) && j < |f.blocks| && |words| == |args| == |f.params| && ArgsEncoded(l, words, args)
    requires Seeded(f, 0, Frame(ArgWords(words), map[], map[]), seeded) && r.homes == seeded.homes
    requires forall k :: 0 <= k < |f.params| ==> Arg(k) in r.ssa && r.ssa[Arg(k)] == words[k]
    requires forall p :: HasHome(f, p) ==>
               p in seeded.homes && HomeLoad(j, p) in r.ssa && r.ssa[HomeLoad(j, p)] == seeded.homes[p]
    requires k < |f.params|
    ensures var vals, p := Bind(map[], f.params, args), f.params[k];
            TempKept(f, j, 0, l, r.ssa, vals, p) && ParamKept(f, l, r, vals, p)
  {
    hide At;
    var p := f.params[k];
    ArgWordsHold(words);
    ParamsDistinct(f, j);
    EntryBindsParam(f, j, p);
    StartValue(f, args, k);
  }

  /** Running the entry prologue leaves the state the reference machine starts in. */
  lemma {:induction false} StartSimulated(f: Function, args: seq<Val>, words: seq<Word>, l: Layout)
    requires Compilable(f) && |args| == |f.params| && Injective(l) && ArgsEncoded(l, words, args)
    ensures var t := TStart(f, words, l); t.Some? && Simulates(f, Start(f, args), t.value)
  {
    hide LiveAt, At, TempKept, ParamKept, EdgeContract, RootsExact, NoAllocRootsEmpty, PhisReadAfter, BlockEmittable,
      SingleDefs, PrologueOf, Seeded, Injective, TerminatorFits, CodeOf, StaysInCode, Emittable,
      UniqueBlockIds, UniqueTempIds, RunInstrs, ArgWords, Decode, Bind;
    var j := 0;
    var vals := Bind(map[], f.params, args);
    ParamsDistinct(f, j);
    ArgWordsHold(words);
    var seeded, r' := EntryPrologueRuns(f, j, Frame(ArgWords(words), map[], map[]));
    forall t | LiveAt(f.blocks, Point(j, 0), t)
      ensures TempKept(f, j, 0, l, r'.ssa, vals, t)
      ensures t in f.params && ParamKept(f, l, r', vals, t)
    {
      var k :| 0 <= k < |f.params| && f.params[k] == t;
      ParamKeptAtStart(f, j, l, words, args, seeded, r', k);
    }
  }

  lemma PopulatedNoAllocRoots(f0: Function, f: Function)
    requires Populated(f0, f) && NoAllocRootsEmpty(f0)
    ensures NoAllocRootsEmpty(f)
  {
    forall i, c | 0 <= i < |f.blocks| && 0 <= c < |f.blocks[i].computations|
                  && f.blocks[i].computations[c].IsCallShaped()
                  && !f.blocks[i].computations[c].IsPotentiallyAllocatingCall()
      ensures f.blocks[i].computations[c].roots == []
    {
      assert PopulatedBlock(f0, i, f.blocks[i]);
      assert PopulatedAt(f0, i, c, f.blocks[i].computations[c]);
    }
  }

  /** Compiled code is transparent. Whatever layouts the collector legally chooses, the
      emitted code, in which only frame slots are rewritten, never reads a stale or
      undefined word and performs the reference machine's run: the same operands at every
      computation, the same answers, the same result. */
  lemma {:induction false} CompiledTransparent(f0: Function, f: Function, env: Environment, args: seq<Val>,
                        words: seq<Word>, l: Layout,
                            schedule: seq<Layout>)
    requires Populated(f0, f) && NoAllocRootsEmpty(f0) && WellFormed(f) && Emittable(f)
    requires UniqueBlockIds(f.blocks) && UniqueTempIds(f.temps) && SingleDefs(f) && PhisReadAfter(f)
    requires EntryFirst(f) && EdgeContract(f)
    requires |args| == |f.params| && Injective(l) && ArgsEncoded(l, words, args)
    requires TypesSoundAlong(f, env, Start(f, args), |schedule|)
    requires TStart(f, words, l).Some? ==> TLegalSchedule(CodeOf(f), env, TStart(f, words, l).value, schedule)
    ensures TStart(f, words, l).Some?
    ensures var r := RRun(f.blocks, env, Start(f, args), |schedule|);
            var t := TRun(CodeOf(f), env, TStart(f, words, l).value, schedule);
            && r.Some? && t.Some?
            && r.value.hist == t.value.hist
            && r.value.Returned? == t.value.TReturned?
            && (r.value.Returned? ==> r.value.result == t.value.result)
  {
    hide LiveAt, TerminatorFits, Emittable, UniqueBlockIds, UniqueTempIds, SingleDefs, PhisReadAfter, EdgeContract,
      Populated, Kept,
      EntryFirst, RootsExact, NoAllocRootsEmpty, OpsFit, CodeOf, TStart, TLegalSchedule, TRun, RRun, TypesSoundAlong,
      Injective, Decode, StaysInCode, Start;
    PopulatedRootsExact(f0, f);
    PopulatedNoAllocRoots(f0, f);
    StartSimulated(f, args, words, l);
    RunSimulated(f, env, Start(f, args), TStart(f, words, l).value, schedule);
  }
}
