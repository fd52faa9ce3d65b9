/** Two machines that run a DFM function. In the reference machine temps hold object
    identities. In the moving machine they hold words: at every potentially allocating
    call the collector may move or reclaim any object, and it rewrites only the words in
    the call's root list. */
module Machine {
  import opened Ir
  import opened Cfg
  import opened Liveness

  /** A value: a word the collector never rewrites (a fixnum, or a pinned singleton such
      as `#f`), or an object. */
  datatype Val = Imm(word: int) | Obj(id: nat)

  /** The values a temp with an estimate may hold. Numbers, characters and the unit are words,
      the booleans are pinned singletons; strings, instances, singletons and everything of
      unknown type may be objects. Nothing has the estimate `Bottom`. */
  predicate Inhabits(estimate: TypeEstimate, v: Val) {
    match estimate
    case Integer | SingleFloat | DoubleFloat | Character | Boolean | Unit => v.Imm?
    case String | Class(_) | Singleton(_) | Top => true
    case Bottom => false
  }

  /** The estimates that are protected are those that may hold an object, and `Bottom`, which
      holds nothing and is protected all the same. */
  lemma {:induction false} ProtectedIffMayHoldObject(estimate: TypeEstimate)
    ensures estimate.NeedsGcProtection() <==> estimate == Bottom || exists id :: Inhabits(estimate, Obj(id))
    ensures estimate == Bottom ==> forall v :: !Inhabits(estimate, v)
    ensures !estimate.NeedsGcProtection() ==> forall v :: Inhabits(estimate, v) ==> v.Imm?
  {
    assert Inhabits(estimate, Obj(0)) ==> exists id :: Inhabits(estimate, Obj(id));
  }

  /** The checker of root lists takes a temp the table does not list for one that may hold
      anything. */
  lemma {:induction false} CheckedIffMayHoldObject(temps: seq<Temporary>, t: TempId)
    ensures CheckedProtected(temps, t) <==>
            var estimate := if t in TypeTable(temps) then TypeTable(temps)[t] else Top;
            estimate == Bottom || exists id :: Inhabits(estimate, Obj(id))
  {
    ProtectedIffMayHoldObject(if t in TypeTable(temps) then TypeTable(temps)[t] else Top);
    assert Inhabits(Top, Obj(0));
  }

  /** What the pass leaves at each computation, said from the function alone: a call that may
      allocate lists, in ascending order, the temps live across it whose listed estimate
      either may hold an object or is `Bottom`; nothing else is changed. */
  lemma {:induction false} PopulatedMeans(f: Function, g: Function, i: nat, c: nat, t: TempId)
    requires Populated(f, g) && i < |f.blocks| && c < |f.blocks[i].computations|
    ensures g == f.(blocks := g.blocks) && |g.blocks| == |f.blocks|
    ensures g.blocks[i] == f.blocks[i].(computations := g.blocks[i].computations)
    ensures |g.blocks[i].computations| == |f.blocks[i].computations|
    ensures var old', new' := f.blocks[i].computations[c], g.blocks[i].computations[c];
            if old'.IsCallShaped() && !old'.FlaggedNoAlloc()
            then
              && new'.IsCallShaped() && new' == WithRoots(old', new'.roots) && Ascending(new'.roots)
              && (t in new'.roots <==>
                    && LiveAcross(f.blocks, i, c, t) && t in TypeTable(f.temps)
                    && (TypeTable(f.temps)[t] == Bottom || exists id :: Inhabits(TypeTable(f.temps)[t], Obj(id))))
            else new' == old'
  {
    hide LiveAcross;
    assert PopulatedBlock(f, i, g.blocks[i]) && PopulatedAt(f, i, c, g.blocks[i].computations[c]);
    MayAllocateIff(f.blocks[i].computations[c]);
    if t in TypeTable(f.temps) {
      ProtectedIffMayHoldObject(TypeTable(f.temps)[t]);
    }
  }

  /** One interaction with the outside: where, with which operands, and what came back. */
  datatype Event = Event(at: Point, args: seq<Val>, result: Val)

  /** Everything outside the function, heap and callees included: it answers each
      computation from the whole history so far, and sees objects, never addresses. */
  datatype Environment = Environment(falseWord: int, respond: (seq<Event>, Point, seq<Val>) -> Val)

  /** What a computation yields: a store yields the stored value, everything else what the
      environment answers. */
  function Answer(env: Environment, c: Computation, hist: seq<Event>, at: Point, vs: seq<Val>): Val
    requires |vs| == |c.Operands()|
  {
    if c.StoreSlot? then vs[1] else env.respond(hist, at, vs)
  }

  // ----- shared pieces -----

  function ReadAll<K, V>(m: map<K, V>, ts: seq<K>): (r: Option<seq<V>>)
    ensures r.Some? ==> |r.value| == |ts| && forall k :: 0 <= k < |ts| ==> ts[k] in m && r.value[k] == m[ts[k]]
    ensures r.None? ==> exists k :: 0 <= k < |ts| && ts[k] !in m
  {
    if ts == [] then Some([])
    else if ts[0] !in m then None
    else match ReadAll(m, ts[1..])
      case None => None
      case Some(vs) => Some([m[ts[0]]] + vs)
  }

  /** Binds each name to the value at its position, all values having been read before. */
  function Bind<K, V>(m: map<K, V>, ts: seq<K>, vs: seq<V>): (r: map<K, V>)
    requires |ts| == |vs|
    ensures r.Keys == m.Keys + set t | t in ts
    ensures forall t :: t in m && t !in ts ==> r[t] == m[t]
    decreases |ts|
  {
    if ts == [] then m else Bind(m[ts[0] := vs[0]], ts[1..], vs[1..])
  }

  // ----- the reference machine -----

  datatype RState =
    | Running(at: Point, vals: map<TempId, Val>, hist: seq<Event>)
    | Returned(result: Option<Val>, hist: seq<Event>)

  function REnter(blocks: seq<Block>, s: RState, target: BlockId, args: seq<Val>): Option<RState>
    requires s.Running?
  {
    match BlockAt(blocks, target)
    case None => None
    case Some(j) =>
      if |blocks[j].params| != |args| then None
      else Some(Running(Point(j, 0), Bind(s.vals, blocks[j].params, args), s.hist))
  }

  /** One step; `None` is a read of an undefined temp or a jump that does not fit. */
  function RStep(blocks: seq<Block>, env: Environment, s: RState): Option<RState>
    requires s.Running? ==> IsPoint(blocks, s.at)
  {
    if s.Returned? then Some(s)
    else match ReadAll(s.vals, Reads(blocks, s.at))
      case None => None
      case Some(vs) =>
        var b := blocks[s.at.block];
        if !AtTerminator(blocks, s.at) then
          var r := Answer(env, b.computations[s.at.pc], s.hist, s.at, vs);
          Some(Running(Point(s.at.block, s.at.pc + 1), s.vals[b.computations[s.at.pc].dst := r],
                       s.hist + [Event(s.at, vs, r)]))
        else match b.terminator
          case Return(None) => Some(Returned(None, s.hist))
          case Return(Some(_)) => Some(Returned(Some(vs[0]), s.hist))
          case If(_, t, e) => REnter(blocks, s, if vs[0] != Imm(env.falseWord) then t else e, [])
          case Jump(t, _) => REnter(blocks, s, t, vs)
  }

  function RRun(blocks: seq<Block>, env: Environment, s: RState, n: nat): (r: Option<RState>)
    requires s.Running? ==> IsPoint(blocks, s.at)
    ensures r.Some? && r.value.Running? ==> IsPoint(blocks, r.value.at)
    decreases n
  {
    if n == 0 then Some(s)
    else match RStep(blocks, env, s)
      case None => None
      case Some(s') => RRun(blocks, env, s', n - 1)
  }

  // ----- the moving machine -----

  datatype Word = Raw(word: int) | Addr(a: nat)

  /** Where each known object currently is. */
  type Layout = map<nat, nat>

  ghost predicate Injective(l: Layout) {
    forall x, y :: x in l && y in l && l[x] == l[y] ==> x == y
  }

  /** What a word stands for; an address where no known object lives stands for nothing. */
  ghost function Decode(l: Layout, w: Word): Option<Val> {
    match w
    case Raw(n) => Some(Imm(n))
    case Addr(a) =>
      if exists id :: id in l && l[id] == a then
        var id :| id in l && l[id] == a;
        Some(Obj(id))
      else None
  }

  function Encode(l: Layout, v: Val): Option<Word> {
    match v
    case Imm(n) => Some(Raw(n))
    case Obj(id) => if id in l then Some(Addr(l[id])) else None
  }

  ghost function DecodeAll(l: Layout, ws: seq<Word>): (r: Option<seq<Val>>)
    ensures r.Some? ==> |r.value| == |ws| && forall k :: 0 <= k < |ws| ==> Decode(l, ws[k]) == Some(r.value[k])
    ensures r.None? ==> exists k :: 0 <= k < |ws| && Decode(l, ws[k]).None?
  {
    if ws == [] then Some([])
    else match (Decode(l, ws[0]), DecodeAll(l, ws[1..]))
      case (Some(v), Some(vs)) => Some([v] + vs)
      case _ => None
  }

  function EncodeAll(l: Layout, vs: seq<Val>): (r: Option<seq<Word>>)
    ensures r.Some? ==> |r.value| == |vs| && forall k :: 0 <= k < |vs| ==> Encode(l, vs[k]) == Some(r.value[k])
    ensures r.None? ==> exists k :: 0 <= k < |vs| && Encode(l, vs[k]).None?
  {
    if vs == [] then Some([])
    else match (Encode(l, vs[0]), EncodeAll(l, vs[1..]))
      case (Some(w), Some(ws)) => Some([w] + ws)
      case _ => None
  }

  /** Reads cells as values; `None` when one is undefined or stale. */
  ghost function ReadVals<K>(l: Layout, words: map<K, Word>, ts: seq<K>): (r: Option<seq<Val>>)
    ensures r.Some? ==>
              && |r.value| == |ts|
              && forall k :: 0 <= k < |ts| ==> ts[k] in words && Decode(l, words[ts[k]]) == Some(r.value[k])
  {
    match ReadAll(words, ts)
    case None => None
    case Some(ws) => DecodeAll(l, ws)
  }

  datatype MState =
    | MRunning(at: Point, words: map<TempId, Word>, layout: Layout, hist: seq<Event>)
    | MReturned(result: Option<Val>, hist: seq<Event>)

  ghost function MEnter(blocks: seq<Block>, s: MState, target: BlockId, args: seq<Word>): Option<MState>
    requires s.MRunning?
  {
    match BlockAt(blocks, target)
    case None => None
    case Some(j) =>
      if |blocks[j].params| != |args| then None
      else Some(MRunning(Point(j, 0), Bind(s.words, blocks[j].params, args), s.layout, s.hist))
  }

  /** The collector's effect on the words: the roots are rewritten to the new layout. */
  ghost function Forward(words: map<TempId, Word>, roots: seq<TempId>, l: Layout, l': Layout): Option<map<TempId,
      Word>> {
    match ReadVals(l, words, roots)
    case None => None
    case Some(vs) =>
      match EncodeAll(l', vs)
      case None => None
      case Some(ws) => Some(Bind(words, roots, ws))
  }

  /** One step, with `l'` the layout after it; `None` is a stale or undefined read. */
  ghost function MStep(blocks: seq<Block>, env: Environment, s: MState, l': Layout): Option<MState>
    requires s.MRunning? ==> IsPoint(blocks, s.at)
  {
    if s.MReturned? then Some(s)
    else match ReadVals(s.layout, s.words, Reads(blocks, s.at))
      case None => None
      case Some(vs) =>
        var b := blocks[s.at.block];
        if !AtTerminator(blocks, s.at) then
          var c := b.computations[s.at.pc];
          var r := Answer(env, c, s.hist, s.at, vs);
          var moved := if c.IsPotentiallyAllocatingCall() then Forward(s.words, c.roots, s.layout, l')
              else Some(s.words);
          match (moved, Encode(l', r))
          case (Some(words), Some(w)) =>
            Some(MRunning(Point(s.at.block, s.at.pc + 1), words[c.dst := w], l', s.hist + [Event(s.at, vs, r)]))
          case _ => None
        else match b.terminator
          case Return(None) => Some(MReturned(None, s.hist))
          case Return(Some(_)) => Some(MReturned(Some(vs[0]), s.hist))
          case If(_, t, e) => MEnter(blocks, s, if vs[0] != Imm(env.falseWord) then t else e, [])
          case Jump(t, args) => MEnter(blocks, s, t, ReadAll(s.words, args).value)
  }

  ghost predicate Covers(l: Layout, vs: seq<Val>) {
    forall v :: v in vs && v.Obj? ==> v.id in l
  }

  /** The layouts the collector may choose for this step. At a potentially allocating call
      any injective one that still holds the roots and the result: everything else may
      have moved, vanished, or had its address reused. Elsewhere objects stay put, and
      newly seen ones get addresses. */
  ghost predicate Legal(blocks: seq<Block>, env: Environment, s: MState, l': Layout)
    requires s.MRunning? ==> IsPoint(blocks, s.at)
  {
    s.MRunning? ==>
      && Injective(l')
      && if AtTerminator(blocks, s.at) then l' == s.layout
         else
           var c := blocks[s.at.block].computations[s.at.pc];
           match ReadVals(s.layout, s.words, c.Operands())
           case None => true
           case Some(vs) =>
             && Covers(l', [Answer(env, c, s.hist, s.at, vs)])
             && if c.IsPotentiallyAllocatingCall()
                then forall rs :: ReadVals(s.layout, s.words, c.roots) == Some(rs) ==> Covers(l', rs)
                else forall id :: id in s.layout ==> id in l' && l'[id] == s.layout[id]
  }

  lemma MStepIsPoint(blocks: seq<Block>, env: Environment, s: MState, l': Layout)
    requires s.MRunning? ==> IsPoint(blocks, s.at)
    ensures var r := MStep(blocks, env, s, l'); r.Some? && r.value.MRunning? ==> IsPoint(blocks, r.value.at)
  {
  }

  ghost function MRun(blocks: seq<Block>, env: Environment, s: MState, schedule: seq<Layout>): Option<MState>
    requires s.MRunning? ==> IsPoint(blocks, s.at)
    decreases |schedule|
  {
    if schedule == [] then Some(s)
    else match MStep(blocks, env, s, schedule[0])
      case None => None
      case Some(s') => MRun(blocks, env, s', schedule[1..])
  }

  /** Every layout in the schedule is one the collector may choose at its step. */
  ghost predicate LegalSchedule(blocks: seq<Block>, env: Environment, s: MState, schedule: seq<Layout>)
    requires s.MRunning? ==> IsPoint(blocks, s.at)
    decreases |schedule|
  {
    schedule != [] ==>
      && Legal(blocks, env, s, schedule[0])
      && match MStep(blocks, env, s, schedule[0])
         case None => true
         case Some(s') => LegalSchedule(blocks, env, s', schedule[1..])
  }

  // ----- well-formed functions -----

  /** What running a function takes: targets exist, jumps carry one argument per parameter,
      branches go to blocks without parameters, and only the function's parameters are
      live on entry. */
  ghost predicate WellFormed(f: Function) {
    && BlockAt(f.blocks, f.entry).Some?
    && (forall i :: 0 <= i < |f.blocks| ==> TerminatorFits(f.blocks, f.blocks[i].terminator))
    && (forall t :: LiveAt(f.blocks, Point(BlockAt(f.blocks, f.entry).value, 0), t) ==> t in f.params)
  }

  predicate TerminatorFits(blocks: seq<Block>, t: Terminator) {
    match t
    case Return(_) => true
    case If(_, a, b) =>
      && BlockAt(blocks, a).Some? && blocks[BlockAt(blocks, a).value].params == []
      && BlockAt(blocks, b).Some? && blocks[BlockAt(blocks, b).value].params == []
    case Jump(a, args) =>
      BlockAt(blocks, a).Some? && |blocks[BlockAt(blocks, a).value].params| == |args|
  }

  /** Every temp some continuation reads is defined. */
  ghost predicate LiveDefined(f: Function, s: RState) {
    s.Running? ==>
      && IsPoint(f.blocks, s.at)
      && forall t :: LiveAt(f.blocks, s.at, t) ==> t in s.vals
  }

  /** The value is one the table's estimate allows. A temp estimated `Bottom` may hold
      anything; one that is missing from the table, which the analysis never protects, must
      hold an immediate. */
  predicate Allowed(temps: seq<Temporary>, t: TempId, v: Val) {
    if t in TypeTable(temps) then TypeTable(temps)[t].Bottom? || Inhabits(TypeTable(temps)[t], v) else v.Imm?
  }

  /** The type estimates hold: every live temp has a value its estimate allows. */
  ghost predicate TypesSound(f: Function, s: RState) {
    s.Running? ==> forall t :: LiveAt(f.blocks, s.at, t) && t in s.vals ==> Allowed(f.temps, t, s.vals[t])
  }

  /** Where the estimates hold, no live temp without protection holds an object. */
  lemma UnprotectedAreImmediate(f: Function, s: RState)
    requires TypesSound(f, s) && s.Running?
    ensures forall t :: LiveAt(f.blocks, s.at, t) && t in s.vals && !Protected(f.temps, t) ==> s.vals[t].Imm?
  {
    hide LiveAt;
    forall t | LiveAt(f.blocks, s.at, t) && t in s.vals && !Protected(f.temps, t)
      ensures s.vals[t].Imm?
    {
      assert Allowed(f.temps, t, s.vals[t]);
      if t in TypeTable(f.temps) {
        ProtectedIffMayHoldObject(TypeTable(f.temps)[t]);
      }
    }
  }

  function Start(f: Function, args: seq<Val>): RState
    requires BlockAt(f.blocks, f.entry).Some? && |args| == |f.params|
  {
    Running(Point(BlockAt(f.blocks, f.entry).value, 0), Bind(map[], f.params, args), [])
  }

  lemma SuccessorOf(blocks: seq<Block>, i: nat, id: BlockId)
    requires i < |blocks| && id in blocks[i].terminator.Targets() && BlockAt(blocks, id).Some?
    ensures BlockAt(blocks, id).value in Successors(blocks, i)
  {
    KnownPositionsAreTargets(blocks, blocks[i].terminator.Targets(), BlockAt(blocks, id).value);
  }

  /** A temp live where an edge arrives and not bound by it was live where the edge left. */
  lemma LiveAcrossEdge(blocks: seq<Block>, i: nat, id: BlockId, t: TempId)
    requires i < |blocks| && id in blocks[i].terminator.Targets() && BlockAt(blocks, id).Some?
    requires LiveAt(blocks, Point(BlockAt(blocks, id).value, 0), t)
    requires t !in blocks[BlockAt(blocks, id).value].params
    ensures LiveAt(blocks, Point(i, |blocks[i].computations|), t)
  {
    SuccessorOf(blocks, i, id);
    LiveBackwards(blocks, Point(i, |blocks[i].computations|), Point(BlockAt(blocks, id).value, 0), t);
  }

  lemma ReadsDefined(f: Function, s: RState)
    requires LiveDefined(f, s) && s.Running?
    ensures ReadAll(s.vals, Reads(f.blocks, s.at)).Some?
  {
    forall t | t in Reads(f.blocks, s.at)
      ensures t in s.vals
    {
      ReadIsLive(f.blocks, s.at, t);
    }
  }

  lemma ProgressAtComputation(f: Function, env: Environment, s: RState)
    requires LiveDefined(f, s) && s.Running? && !AtTerminator(f.blocks, s.at)
    ensures var r := RStep(f.blocks, env, s); r.Some? && LiveDefined(f, r.value)
  {
    ReadsDefined(f, s);
    var s' := RStep(f.blocks, env, s).value;
    forall t | LiveAt(f.blocks, s'.at, t)
      ensures t in s'.vals
    {
      LiveAtComputation(f.blocks, s.at, t);
    }
  }

  lemma ProgressAtTerminator(f: Function, env: Environment, s: RState)
    requires WellFormed(f) && LiveDefined(f, s) && s.Running? && AtTerminator(f.blocks, s.at)
    ensures var r := RStep(f.blocks, env, s); r.Some? && LiveDefined(f, r.value)
  {
    ReadsDefined(f, s);
    var i := s.at.block;
    assert TerminatorFits(f.blocks, f.blocks[i].terminator);
    var s' := RStep(f.blocks, env, s).value;
    if s'.Running? {
      var vs := ReadAll(s.vals, Reads(f.blocks, s.at)).value;
      var id := match f.blocks[i].terminator
        case If(_, a, b) => if vs[0] != Imm(env.falseWord) then a else b
        case Jump(a, _) => a;
      forall t | LiveAt(f.blocks, s'.at, t)
        ensures t in s'.vals
      {
        if t !in f.blocks[s'.at.block].params {
          LiveAcrossEdge(f.blocks, i, id, t);
        }
      }
    }
  }

  /** From a state with every live temp defined the machine can step, to another such. */
  lemma {:induction false} Progress(f: Function, env: Environment, s: RState)
    requires WellFormed(f) && LiveDefined(f, s)
    ensures var r := RStep(f.blocks, env, s); r.Some? && LiveDefined(f, r.value)
  {
    if s.Running? {
      if AtTerminator(f.blocks, s.at) {
        ProgressAtTerminator(f, env, s);
      } else {
        ProgressAtComputation(f, env, s);
      }
    }
  }

  lemma {:induction false} ProgressAlong(f: Function, env: Environment, s: RState, n: nat)
    requires WellFormed(f) && LiveDefined(f, s)
    ensures var r := RRun(f.blocks, env, s, n); r.Some? && LiveDefined(f, r.value)
    decreases n
  {
    if n > 0 {
      Progress(f, env, s);
      ProgressAlong(f, env, RStep(f.blocks, env, s).value, n - 1);
    }
  }

  /** No run of a well-formed function ever reads an undefined temp or takes a jump that
      does not fit, however long it runs and whatever the environment answers. */
  lemma NoUndefinedRead(f: Function, env: Environment, args: seq<Val>, n: nat)
    requires WellFormed(f) && |args| == |f.params|
    ensures LiveDefined(f, Start(f, args))
    ensures RRun(f.blocks, env, Start(f, args), n).Some?
  {
    ProgressAlong(f, env, Start(f, args), n);
  }

  // ----- decoding and encoding -----

  lemma DecodeEncode(l: Layout, v: Val)
    requires Injective(l) && Encode(l, v).Some?
    ensures Decode(l, Encode(l, v).value) == Some(v)
  {
    if v.Obj? {
      assert v.id in l && l[v.id] == Encode(l, v).value.a;
    }
  }

  lemma DecodeInExtension(l: Layout, l': Layout, w: Word)
    requires Injective(l') && (forall id :: id in l ==> id in l' && l'[id] == l[id])
    requires Decode(l, w).Some?
    ensures Decode(l', w) == Decode(l, w)
  {
    if w.Addr? {
      var id :| id in l && l[id] == w.a && Decode(l, w) == Some(Obj(id));
      assert id in l' && l'[id] == w.a;
    }
  }

  /** The word of `t` stands for its value. */
  ghost predicate Holds(l: Layout, words: map<TempId, Word>, vals: map<TempId, Val>, t: TempId) {
    t in words && t in vals && Decode(l, words[t]) == Some(vals[t])
  }

  /** Reading temps whose words stand for their values yields the values. */
  lemma ReadsAgree(l: Layout, words: map<TempId, Word>, vals: map<TempId, Val>, ts: seq<TempId>)
    requires forall t :: t in ts ==> Holds(l, words, vals, t)
    ensures ReadVals(l, words, ts).Some? && ReadVals(l, words, ts) == ReadAll(vals, ts)
  {
    assert forall k :: 0 <= k < |ts| ==> ts[k] in ts;
    var ws := ReadAll(words, ts).value;
    assert forall k :: 0 <= k < |ts| ==> Decode(l, ws[k]) == Some(vals[ts[k]]);
    var vs := DecodeAll(l, ws).value;
    assert ReadAll(vals, ts).Some?;
    assert vs == ReadAll(vals, ts).value;
  }

  /** Binding related words and values relates the bound temps and keeps the others. */
  lemma {:induction false} BindHolds(l: Layout, words: map<TempId, Word>, vals: map<TempId, Val>, ts: seq<TempId>,
                                     ws: seq<Word>, vs: seq<Val>, t: TempId)
    requires |ts| == |ws| == |vs|
    requires forall k :: 0 <= k < |ts| ==> Decode(l, ws[k]) == Some(vs[k])
    requires t in ts || Holds(l, words, vals, t)
    ensures Holds(l, Bind(words, ts, ws), Bind(vals, ts, vs), t)
    decreases |ts|
  {
    if ts != [] {
      assert t == ts[0] || t in ts[1..] || Holds(l, words, vals, t);
      BindHolds(l, words[ts[0] := ws[0]], vals[ts[0] := vs[0]], ts[1..], ws[1..], vs[1..], t);
    }
  }

  /** Binding temps to what they already hold changes nothing. */
  lemma {:induction false} BindSelf<K, V>(m: map<K, V>, ts: seq<K>, vs: seq<V>)
    requires |ts| == |vs| && forall k :: 0 <= k < |ts| ==> ts[k] in m && vs[k] == m[ts[k]]
    ensures Bind(m, ts, vs) == m
  {
    if ts != [] {
      assert m[ts[0] := vs[0]] == m;
      BindSelf(m, ts[1..], vs[1..]);
    }
  }

  // ----- transparency -----

  /** The root lists are the ones the analysis writes. */
  ghost predicate RootsExact(f: Function) {
    forall i, c | 0 <= i < |f.blocks| && 0 <= c < |f.blocks[i].computations|
                  && f.blocks[i].computations[c].IsPotentiallyAllocatingCall() ::
      IsRootList(f, i, c, f.blocks[i].computations[c].roots)
  }

  /** Same place, same history, and every live temp's word stands for its value. */
  ghost predicate Agree(f: Function, rs: RState, ms: MState) {
    match (rs, ms)
    case (Running(at, vals, hist), MRunning(at', words, layout, hist')) =>
      && at == at' && hist == hist' && IsPoint(f.blocks, at) && Injective(layout)
      && forall t :: LiveAt(f.blocks, at, t) ==> Holds(layout, words, vals, t)
    case (Returned(r, hist), MReturned(r', hist')) => r == r' && hist == hist'
    case _ => false
  }

  lemma AgreedReads(f: Function, rs: RState, ms: MState)
    requires Agree(f, rs, ms) && rs.Running?
    ensures ReadVals(ms.layout, ms.words, Reads(f.blocks, rs.at)) == ReadAll(rs.vals, Reads(f.blocks, rs.at))
    ensures ReadAll(rs.vals, Reads(f.blocks, rs.at)).Some?
  {
    var ts := Reads(f.blocks, rs.at);
    forall t | t in ts
      ensures Holds(ms.layout, ms.words, rs.vals, t)
    {
      ReadIsLive(f.blocks, rs.at, t);
    }
    ReadsAgree(ms.layout, ms.words, rs.vals, ts);
  }

  /** At a potentially allocating call the collector can forward every root, and afterwards
      every temp live across the call holds again, in the new layout. */
  lemma ForwardKeepsLive(f: Function, rs: RState, ms: MState, l': Layout)
    requires Agree(f, rs, ms) && rs.Running? && !AtTerminator(f.blocks, rs.at)
    requires RootsExact(f) && TypesSound(f, rs)
    requires f.blocks[rs.at.block].computations[rs.at.pc].IsPotentiallyAllocatingCall()
    requires Injective(l')
    requires forall vs :: ReadVals(ms.layout, ms.words, f.blocks[rs.at.block].computations[rs.at.pc].roots) == Some(vs)
               ==> Covers(l', vs)
    ensures var c := f.blocks[rs.at.block].computations[rs.at.pc];
            var moved := Forward(ms.words, c.roots, ms.layout, l');
            && moved.Some?
            && forall t :: LiveAcross(f.blocks, rs.at.block, rs.at.pc, t) ==> Holds(l', moved.value, rs.vals, t)
  {
    hide LiveAt;
    var i, k := rs.at.block, rs.at.pc;
    var c := f.blocks[i].computations[k];
    assert IsRootList(f, i, k, c.roots);
    UnprotectedAreImmediate(f, rs);
    forall t | LiveAcross(f.blocks, i, k, t)
      ensures LiveAt(f.blocks, rs.at, t) && Holds(ms.layout, ms.words, rs.vals, t)
    {
      LiveAtComputation(f.blocks, rs.at, t);
    }
    ReadsAgree(ms.layout, ms.words, rs.vals, c.roots);
    var vs := ReadVals(ms.layout, ms.words, c.roots).value;
    var ws := ForwardedWords(l', vs);
    BindSelf(rs.vals, c.roots, vs);
    forall t | LiveAcross(f.blocks, i, k, t)
      ensures Holds(l', Bind(ms.words, c.roots, ws), rs.vals, t)
    {
      if t !in c.roots {
        DecodesToImm(ms.layout, ms.words[t]);
      }
      BindHolds(l', ms.words, rs.vals, c.roots, ws, vs, t);
    }
  }

  lemma ForwardedWords(l': Layout, vs: seq<Val>) returns (ws: seq<Word>)
    requires Injective(l') && Covers(l', vs)
    ensures EncodeAll(l', vs) == Some(ws) && |ws| == |vs|
    ensures forall k :: 0 <= k < |vs| ==> Decode(l', ws[k]) == Some(vs[k])
  {
    assert forall k :: 0 <= k < |vs| ==> vs[k] in vs;
    ws := EncodeAll(l', vs).value;
    forall k | 0 <= k < |vs|
      ensures Decode(l', ws[k]) == Some(vs[k])
    {
      DecodeEncode(l', vs[k]);
    }
  }

  lemma DecodesToImm(l: Layout, w: Word)
    requires Decode(l, w).Some? && Decode(l, w).value.Imm?
    ensures forall l' :: Decode(l', w) == Decode(l, w)
  {
  }

  lemma StepAtComputation(f: Function, env: Environment, rs: RState, ms: MState, l': Layout)
    requires Agree(f, rs, ms) && rs.Running? && !AtTerminator(f.blocks, rs.at)
    requires RootsExact(f) && TypesSound(f, rs)
    requires Legal(f.blocks, env, ms, l')
    ensures var r, m := RStep(f.blocks, env, rs), MStep(f.blocks, env, ms, l');
            r.Some? && m.Some? && Agree(f, r.value, m.value)
  {
    hide LiveAt, Injective, Legal, MStep, RStep, Holds, Decode;
    AgreedReads(f, rs, ms);
    var c := f.blocks[rs.at.block].computations[rs.at.pc];
    var vs := ReadAll(rs.vals, c.Operands()).value;
    var answer := Answer(env, c, rs.hist, rs.at, vs);
    LegalAtComputation(f.blocks, env, ms, l', vs);
    DecodeEncode(l', answer);
    if c.IsPotentiallyAllocatingCall() {
      ForwardKeepsLive(f, rs, ms, l');
    } else {
      StayingKeepsLive(f, rs, ms, l');
    }
    var words := if c.IsPotentiallyAllocatingCall() then Forward(ms.words, c.roots, ms.layout, l').value else ms.words;
    MStepAtComputation(f.blocks, env, ms, l', vs, words, Encode(l', answer).value);
    RStepAtComputation(f.blocks, env, rs, vs);
    ResultAgrees(f, rs, ms, l', words, vs, answer);
  }

  /** What a legal choice means at a computation whose operands are not stale. */
  lemma LegalAtComputation(blocks: seq<Block>, env: Environment, s: MState, l': Layout, vs: seq<Val>)
    requires s.MRunning? && IsPoint(blocks, s.at) && !AtTerminator(blocks, s.at) && Legal(blocks, env, s, l')
    requires ReadVals(s.layout, s.words, blocks[s.at.block].computations[s.at.pc].Operands()) == Some(vs)
    ensures var c := blocks[s.at.block].computations[s.at.pc];
            && Injective(l') && Encode(l', Answer(env, c, s.hist, s.at, vs)).Some?
            && (c.IsPotentiallyAllocatingCall() ==>
                  forall rs :: ReadVals(s.layout, s.words, c.roots) == Some(rs) ==> Covers(l', rs))
            && (!c.IsPotentiallyAllocatingCall() ==> forall id :: id in s.layout ==> id in l' && l'[id] == s.layout[id])
  {
    var c := blocks[s.at.block].computations[s.at.pc];
    var answer := Answer(env, c, s.hist, s.at, vs);
    assert answer in [answer] && Covers(l', [answer]);
  }

  lemma RStepAtComputation(blocks: seq<Block>, env: Environment, s: RState, vs: seq<Val>)
    requires s.Running? && IsPoint(blocks, s.at) && !AtTerminator(blocks, s.at)
    requires ReadAll(s.vals, blocks[s.at.block].computations[s.at.pc].Operands()) == Some(vs)
    ensures var c := blocks[s.at.block].computations[s.at.pc];
            var answer := Answer(env, c, s.hist, s.at, vs);
            RStep(blocks, env, s) == Some(Running(Point(s.at.block, s.at.pc + 1), s.vals[c.dst := answer],
                                                  s.hist + [Event(s.at, vs, answer)]))
  {
  }

  /** What one step does at a computation when nothing read is stale. */
  lemma MStepAtComputation(blocks: seq<Block>, env: Environment, s: MState, l': Layout,
                           ops: seq<Val>, words: map<TempId, Word>, w: Word)
    requires s.MRunning? && IsPoint(blocks, s.at) && !AtTerminator(blocks, s.at)
    requires var c := blocks[s.at.block].computations[s.at.pc];
             && ReadVals(s.layout, s.words, c.Operands()) == Some(ops)
             && (if c.IsPotentiallyAllocatingCall() then Forward(s.words, c.roots, s.layout, l') == Some(words)
                 else words == s.words)
             && Encode(l', Answer(env, c, s.hist, s.at, ops)) == Some(w)
    ensures var c := blocks[s.at.block].computations[s.at.pc];
            MStep(blocks, env, s, l') ==
            Some(MRunning(Point(s.at.block, s.at.pc + 1), words[c.dst := w], l',
                          s.hist + [Event(s.at, ops, Answer(env, c, s.hist, s.at, ops))]))
  {
  }

  lemma StayingKeepsLive(f: Function, rs: RState, ms: MState, l': Layout)
    requires Agree(f, rs, ms) && rs.Running? && !AtTerminator(f.blocks, rs.at)
    requires Injective(l') && forall id :: id in ms.layout ==> id in l' && l'[id] == ms.layout[id]
    ensures forall t :: LiveAcross(f.blocks, rs.at.block, rs.at.pc, t) ==> Holds(l', ms.words, rs.vals, t)
  {
    forall t | LiveAcross(f.blocks, rs.at.block, rs.at.pc, t)
      ensures Holds(l', ms.words, rs.vals, t)
    {
      LiveAtComputation(f.blocks, rs.at, t);
      DecodeInExtension(ms.layout, l', ms.words[t]);
    }
  }

  lemma ResultAgrees(f: Function, rs: RState, ms: MState, l': Layout, words: map<TempId, Word>,
                     vs: seq<Val>, answer: Val)
    requires rs.Running? && ms.MRunning? && rs.hist == ms.hist && Injective(l')
    requires IsPoint(f.blocks, rs.at) && !AtTerminator(f.blocks, rs.at)
    requires forall t :: LiveAcross(f.blocks, rs.at.block, rs.at.pc, t) ==> Holds(l', words, rs.vals, t)
    requires Encode(l', answer).Some? && Decode(l', Encode(l', answer).value) == Some(answer)
    ensures var dst := f.blocks[rs.at.block].computations[rs.at.pc].dst;
            var next, hist := Point(rs.at.block, rs.at.pc + 1), rs.hist + [Event(rs.at, vs, answer)];
            Agree(f, Running(next, rs.vals[dst := answer], hist),
                  MRunning(next, words[dst := Encode(l', answer).value], l', hist))
  {
    var dst := f.blocks[rs.at.block].computations[rs.at.pc].dst;
    var next := Point(rs.at.block, rs.at.pc + 1);
    forall t | LiveAt(f.blocks, next, t)
      ensures Holds(l', words[dst := Encode(l', answer).value], rs.vals[dst := answer], t)
    {
      assert t == dst || LiveAcross(f.blocks, rs.at.block, rs.at.pc, t);
    }
  }

  lemma StepAtTerminator(f: Function, env: Environment, rs: RState, ms: MState, l': Layout)
    requires WellFormed(f)
    requires Agree(f, rs, ms) && rs.Running? && AtTerminator(f.blocks, rs.at)
    requires Legal(f.blocks, env, ms, l')
    ensures var r, m := RStep(f.blocks, env, rs), MStep(f.blocks, env, ms, l');
            r.Some? && m.Some? && Agree(f, r.value, m.value)
  {
    AgreedReads(f, rs, ms);
    var i := rs.at.block;
    var term := f.blocks[i].terminator;
    assert TerminatorFits(f.blocks, term);
    var vs := ReadAll(rs.vals, Reads(f.blocks, rs.at)).value;
    match term
    case Return(_) =>
    case If(_, a, b) =>
      EnterAgrees(f, rs, ms, if vs[0] != Imm(env.falseWord) then a else b, [], []);
    case Jump(a, args) =>
      EnterAgrees(f, rs, ms, a, vs, ReadAll(ms.words, args).value);
  }

  /** Taking an edge binds the parameters in both machines alike. */
  lemma EnterAgrees(f: Function, rs: RState, ms: MState, id: BlockId, vs: seq<Val>, ws: seq<Word>)
    requires Agree(f, rs, ms) && rs.Running? && AtTerminator(f.blocks, rs.at)
    requires id in f.blocks[rs.at.block].terminator.Targets() && BlockAt(f.blocks, id).Some?
    requires |f.blocks[BlockAt(f.blocks, id).value].params| == |vs| == |ws|
    requires forall k :: 0 <= k < |vs| ==> Decode(ms.layout, ws[k]) == Some(vs[k])
    ensures var r, m := REnter(f.blocks, rs, id, vs), MEnter(f.blocks, ms, id, ws);
            r.Some? && m.Some? && Agree(f, r.value, m.value)
  {
    var j := BlockAt(f.blocks, id).value;
    forall t | LiveAt(f.blocks, Point(j, 0), t)
      ensures Holds(ms.layout, Bind(ms.words, f.blocks[j].params, ws), Bind(rs.vals, f.blocks[j].params, vs), t)
    {
      if t !in f.blocks[j].params {
        LiveAcrossEdge(f.blocks, rs.at.block, id, t);
      }
      BindHolds(ms.layout, ms.words, rs.vals, f.blocks[j].params, ws, vs, t);
    }
  }

  /** One step of both machines keeps them in agreement. */
  lemma StepAgrees(f: Function, env: Environment, rs: RState, ms: MState, l': Layout)
    requires WellFormed(f) && RootsExact(f)
    requires Agree(f, rs, ms) && TypesSound(f, rs)
    requires ms.MRunning? ==> IsPoint(f.blocks, ms.at)
    requires Legal(f.blocks, env, ms, l')
    ensures rs.Running? ==> IsPoint(f.blocks, rs.at)
    ensures var r, m := RStep(f.blocks, env, rs), MStep(f.blocks, env, ms, l');
            r.Some? && m.Some? && Agree(f, r.value, m.value)
  {
    if rs.Running? {
      if AtTerminator(f.blocks, rs.at) {
        StepAtTerminator(f, env, rs, ms, l');
      } else {
        StepAtComputation(f, env, rs, ms, l');
      }
    }
  }

  /** The type estimates hold at every state of the next `n` steps. */
  ghost predicate TypesSoundAlong(f: Function, env: Environment, s: RState, n: nat)
    requires s.Running? ==> IsPoint(f.blocks, s.at)
  {
    forall k :: 0 <= k <= n && RRun(f.blocks, env, s, k).Some? ==> TypesSound(f, RRun(f.blocks, env, s, k).value)
  }

  lemma SoundAfterStep(f: Function, env: Environment, s: RState, n: nat)
    requires s.Running? ==> IsPoint(f.blocks, s.at)
    requires n > 0 && TypesSoundAlong(f, env, s, n) && RStep(f.blocks, env, s).Some?
    ensures TypesSound(f, s)
    ensures TypesSoundAlong(f, env, RStep(f.blocks, env, s).value, n - 1)
  {
    assert RRun(f.blocks, env, s, 0) == Some(s);
    var s' := RStep(f.blocks, env, s).value;
    forall k | 0 <= k <= n - 1 && RRun(f.blocks, env, s', k).Some?
      ensures TypesSound(f, RRun(f.blocks, env, s', k).value)
    {
      assert RRun(f.blocks, env, s, k + 1) == RRun(f.blocks, env, s', k);
    }
  }

  lemma {:induction false} RunsAgree(f: Function, env: Environment, rs: RState, ms: MState, schedule: seq<Layout>)
    requires WellFormed(f) && RootsExact(f)
    requires Agree(f, rs, ms)
    requires rs.Running? ==> IsPoint(f.blocks, rs.at)
    requires ms.MRunning? ==> IsPoint(f.blocks, ms.at)
    requires TypesSoundAlong(f, env, rs, |schedule|)
    requires LegalSchedule(f.blocks, env, ms, schedule)
    ensures var r, m := RRun(f.blocks, env, rs, |schedule|), MRun(f.blocks, env, ms, schedule);
            r.Some? && m.Some? && Agree(f, r.value, m.value)
    decreases |schedule|
  {
    if schedule != [] {
      assert RRun(f.blocks, env, rs, 0) == Some(rs);
      StepAgrees(f, env, rs, ms, schedule[0]);
      SoundAfterStep(f, env, rs, |schedule|);
      RunsAgree(f, env, RStep(f.blocks, env, rs).value, MStep(f.blocks, env, ms, schedule[0]).value, schedule[1..]);
    }
  }

  /** The words the function's arguments start as. */
  ghost predicate ArgsEncoded(l: Layout, words: seq<Word>, args: seq<Val>) {
    |words| == |args| && forall k :: 0 <= k < |args| ==> Decode(l, words[k]) == Some(args[k])
  }

  ghost function MStart(f: Function, words: seq<Word>, l: Layout): MState
    requires BlockAt(f.blocks, f.entry).Some? && |words| == |f.params|
  {
    MRunning(Point(BlockAt(f.blocks, f.entry).value, 0), Bind(map[], f.params, words), l, [])
  }

  /** GC transparency. After the roots are populated, no choice the collector makes, at any
      step of any run, makes the moving machine read a stale or undefined word: it performs
      the reference machine's run, with the same operands at every computation, the same
      answers, and the same result. */
  lemma {:induction false} GcTransparent(f0: Function, f: Function, env: Environment, args: seq<Val>,
                        words: seq<Word>, l: Layout,
                      schedule: seq<Layout>)
    requires Populated(f0, f) && WellFormed(f) && |args| == |f.params|
    requires Injective(l) && ArgsEncoded(l, words, args)
    requires TypesSoundAlong(f, env, Start(f, args), |schedule|)
    requires LegalSchedule(f.blocks, env, MStart(f, words, l), schedule)
    ensures var r := RRun(f.blocks, env, Start(f, args), |schedule|);
            var m := MRun(f.blocks, env, MStart(f, words, l), schedule);
            && r.Some? && m.Some?
            && r.value.hist == m.value.hist
            && r.value.Returned? == m.value.MReturned?
            && (r.value.Returned? ==> r.value.result == m.value.result)
  {
    var rs, ms := Start(f, args), MStart(f, words, l);
    PopulatedRootsExact(f0, f);
    forall t | LiveAt(f.blocks, rs.at, t)
      ensures Holds(l, ms.words, rs.vals, t)
    {
      BindHolds(l, map[], map[], f.params, words, args, t);
    }
    RunsAgree(f, env, rs, ms, schedule);
  }

  lemma {:induction false} PopulatedRootsExact(f0: Function, f: Function)
    requires Populated(f0, f)
    ensures RootsExact(f)
  {
    forall i, c | 0 <= i < |f.blocks| && 0 <= c < |f.blocks[i].computations|
                  && f.blocks[i].computations[c].IsPotentiallyAllocatingCall()
      ensures IsRootList(f, i, c, f.blocks[i].computations[c].roots)
    {
      assert PopulatedBlock(f0, i, f.blocks[i]);
      assert PopulatedAt(f0, i, c, f.blocks[i].computations[c]);
      forall t
        ensures LiveAcross(f.blocks, i, c, t) <==> LiveAcross(f0.blocks, i, c, t)
      {
        PopulatedLiveness(f0, f, Point(i, c + 1), t);
      }
    }
  }

  // ----- every root is needed -----

  /** The next `n` steps of the run overwrite `t` nowhere, and the step after them reads it. */
  predicate ReadsLater(blocks: seq<Block>, env: Environment, s: RState, t: TempId, n: nat)
    requires s.Running? ==> IsPoint(blocks, s.at)
    decreases n
  {
    && s.Running?
    && if n == 0 then t in Reads(blocks, s.at)
       else match RStep(blocks, env, s)
         case Some(Running(at, vals, hist)) =>
           && t !in StepWrites(blocks, s.at, at.block)
           && ReadsLater(blocks, env, Running(at, vals, hist), t, n - 1)
         case _ => false
  }

  /** The temps a step from `p` overwrites, when it goes on in block `j`. */
  function StepWrites(blocks: seq<Block>, p: Point, j: nat): seq<TempId>
    requires IsPoint(blocks, p)
  {
    if !AtTerminator(blocks, p) then [blocks[p.block].computations[p.pc].dst]
    else if j < |blocks| then blocks[j].params else []
  }

  /** Whatever the rest of a run reads is live. */
  lemma {:induction false} ReadsLaterIsLive(blocks: seq<Block>, env: Environment, s: RState, t: TempId, n: nat)
    requires s.Running? ==> IsPoint(blocks, s.at)
    requires ReadsLater(blocks, env, s, t, n)
    ensures LiveAt(blocks, s.at, t)
    decreases n
  {
    if n == 0 {
      ReadIsLive(blocks, s.at, t);
    } else {
      var s' := RStep(blocks, env, s).value;
      ReadsLaterIsLive(blocks, env, s', t, n - 1);
      if AtTerminator(blocks, s.at) {
        var vs := ReadAll(s.vals, Reads(blocks, s.at)).value;
        var id := match blocks[s.at.block].terminator
          case If(_, a, b) => if vs[0] != Imm(env.falseWord) then a else b
          case Jump(a, _) => a;
        LiveAcrossEdge(blocks, s.at.block, id, t);
      } else {
        LiveAtComputation(blocks, s.at, t);
      }
    }
  }

  ghost predicate Stale(s: MState, t: TempId) {
    s.MRunning? && t in s.words && Decode(s.layout, s.words[t]).None?
  }

  /** Lockstep with possibly stale words: a word stands for its temp's value or for
      nothing, and every address in use is below `base`. */
  ghost predicate Lockstep(blocks: seq<Block>, rs: RState, ms: MState, base: nat) {
    match (rs, ms)
    case (Running(at, vals, hist), MRunning(at', words, layout, hist')) =>
      && at == at' && hist == hist' && IsPoint(blocks, at) && Injective(layout)
      && (forall id :: id in layout ==> layout[id] < base)
      && Fits(layout, words, vals, base)
    case (Returned(r, hist), MReturned(r', hist')) => r == r' && hist == hist'
    case _ => false
  }

  ghost predicate WordFits(l: Layout, w: Word, vals: map<TempId, Val>, t: TempId, base: nat) {
    && t in vals
    && (w.Addr? ==> w.a < base)
    && (Decode(l, w).None? || Decode(l, w) == Some(vals[t]))
  }

  ghost predicate Fits(l: Layout, words: map<TempId, Word>, vals: map<TempId, Val>, base: nat) {
    forall t :: t in words ==> WordFits(l, words[t], vals, t, base)
  }

  lemma LockstepReads(blocks: seq<Block>, rs: RState, ms: MState, base: nat, ts: seq<TempId>)
    requires Lockstep(blocks, rs, ms, base) && rs.Running?
    requires ReadVals(ms.layout, ms.words, ts).Some?
    ensures ReadVals(ms.layout, ms.words, ts) == ReadAll(rs.vals, ts)
  {
    var vs := ReadVals(ms.layout, ms.words, ts).value;
    forall k | 0 <= k < |ts|
      ensures ts[k] in rs.vals && rs.vals[ts[k]] == vs[k]
    {
      assert WordFits(ms.layout, ms.words[ts[k]], rs.vals, ts[k], base);
    }
    assert ReadAll(rs.vals, ts).Some?;
    assert ReadAll(rs.vals, ts).value == vs;
  }

  /** A layout for the given objects at addresses never used before. */
  lemma FreshLayout(ids: set<nat>, base: nat) returns (l: Layout, top: nat)
    ensures l.Keys == ids && Injective(l) && base <= top
    ensures forall id :: id in l ==> base <= l[id] < top
  {
    l, top := map[], base;
    var rest := ids;
    while rest != {}
      invariant rest <= ids && l.Keys == ids - rest
      invariant Injective(l) && base <= top
      invariant forall id :: id in l ==> base <= l[id] < top
      decreases rest
    {
      var id :| id in rest;
      l, top, rest := l[id := top], top + 1, rest - {id};
    }
  }

  lemma OldAddressIsStale(l: Layout, w: Word, base: nat)
    requires forall id :: id in l ==> base <= l[id]
    requires w.Addr? && w.a < base
    ensures Decode(l, w).None?
  {
  }

  /** Binding words that stand for the bound values keeps the words fitting. */
  lemma {:induction false} BindFits(l: Layout, words: map<TempId, Word>, vals: map<TempId, Val>, ts: seq<TempId>,
                                    ws: seq<Word>, vs: seq<Val>, base: nat)
    requires |ts| == |ws| == |vs|
    requires forall k :: 0 <= k < |ts| ==> Decode(l, ws[k]) == Some(vs[k]) && (ws[k].Addr? ==> ws[k].a < base)
    requires Fits(l, words, vals, base)
    ensures Fits(l, Bind(words, ts, ws), Bind(vals, ts, vs), base)
    decreases |ts|
  {
    if ts != [] {
      ResultFits(l, words, vals, ts[0], ws[0], vs[0], base);
      BindFits(l, words[ts[0] := ws[0]], vals[ts[0] := vs[0]], ts[1..], ws[1..], vs[1..], base);
    }
  }

  lemma ResultFits(l: Layout, words: map<TempId, Word>, vals: map<TempId, Val>, dst: TempId, w: Word, v: Val, base: nat)
    requires Fits(l, words, vals, base)
    requires Decode(l, w) == Some(v) && (w.Addr? ==> w.a < base)
    ensures Fits(l, words[dst := w], vals[dst := v], base)
  {
    var words', vals' := words[dst := w], vals[dst := v];
    forall t | t in words'
      ensures WordFits(l, words'[t], vals', t, base)
    {
      assert t != dst ==> WordFits(l, words[t], vals, t, base);
    }
  }

  lemma FreshStepAtAllocation(f: Function, env: Environment, rs: RState, ms: MState, base: nat)
    returns (l': Layout, top: nat)
    requires Lockstep(f.blocks, rs, ms, base) && rs.Running? && !AtTerminator(f.blocks, rs.at)
    requires f.blocks[rs.at.block].computations[rs.at.pc].IsPotentiallyAllocatingCall()
    ensures Legal(f.blocks, env, ms, l') && base <= top
    ensures var r, m := RStep(f.blocks, env, rs), MStep(f.blocks, env, ms, l');
            m.Some? ==>
              && r.Some? && Lockstep(f.blocks, r.value, m.value, top)
              && var c := f.blocks[rs.at.block].computations[rs.at.pc];
                 forall t :: t in ms.words && ms.words[t].Addr? && t !in c.roots && t != c.dst ==> Stale(m.value, t)
  {
    hide Fits, WordFits, Injective, Decode, LiveAt, RStep;
    var c := f.blocks[rs.at.block].computations[rs.at.pc];
    var ops := ReadVals(ms.layout, ms.words, c.Operands());
    var rvs := ReadVals(ms.layout, ms.words, c.roots);
    if ops.None? || rvs.None? {
      var answer := if ops.Some? then [Answer(env, c, ms.hist, ms.at, ops.value)] else [];
      l', top := FreshLayout(set v | v in answer && v.Obj? :: v.id, base);
    } else {
      var answer := Answer(env, c, ms.hist, ms.at, ops.value);
      l', top := FreshLayout(set v | v in rvs.value + [answer] && v.Obj? :: v.id, base);
      assert Covers(l', rvs.value) && answer in rvs.value + [answer];
      FreshForwarding(f, env, rs, ms, base, l', top);
    }
  }

  /** Forwarding to fresh addresses keeps the machines in lockstep and makes every pointer
      that was not a root stale. */
  lemma {:induction false} FreshForwarding(f: Function, env: Environment, rs: RState, ms: MState, base: nat,
                        l': Layout, top: nat)
    requires Lockstep(f.blocks, rs, ms, base) && rs.Running? && !AtTerminator(f.blocks, rs.at)
    requires f.blocks[rs.at.block].computations[rs.at.pc].IsPotentiallyAllocatingCall()
    requires ReadVals(ms.layout, ms.words, f.blocks[rs.at.block].computations[rs.at.pc].Operands()).Some?
    requires ReadVals(ms.layout, ms.words, f.blocks[rs.at.block].computations[rs.at.pc].roots).Some?
    requires var c := f.blocks[rs.at.block].computations[rs.at.pc];
             var ops := ReadVals(ms.layout, ms.words, c.Operands()).value;
             && Covers(l', ReadVals(ms.layout, ms.words, c.roots).value)
             && Encode(l', Answer(env, c, ms.hist, ms.at, ops)).Some?
    requires Injective(l') && base <= top && forall id :: id in l' ==> base <= l'[id] < top
    ensures var c := f.blocks[rs.at.block].computations[rs.at.pc];
            var r, m := RStep(f.blocks, env, rs), MStep(f.blocks, env, ms, l');
            && r.Some? && m.Some? && Lockstep(f.blocks, r.value, m.value, top)
            && forall t :: t in ms.words && ms.words[t].Addr? && t !in c.roots && t != c.dst ==> Stale(m.value, t)
  {
    hide Fits, Injective, Decode;
    var c := f.blocks[rs.at.block].computations[rs.at.pc];
    var ops := ReadVals(ms.layout, ms.words, c.Operands()).value;
    var rvs := ReadVals(ms.layout, ms.words, c.roots).value;
    var answer := Answer(env, c, ms.hist, ms.at, ops);
    LockstepReads(f.blocks, rs, ms, base, c.Operands());
    LockstepReads(f.blocks, rs, ms, base, c.roots);
    var ws := ForwardedWords(l', rvs);
    DecodeEncode(l', answer);
    FreshWordsFit(ms.layout, l', ms.words, rs.vals, c.roots, ws, rvs, base, top);
    var words, w := Bind(ms.words, c.roots, ws), Encode(l', answer).value;
    ResultFits(l', words, rs.vals, c.dst, w, answer, top);
    NonRootsGoStale(ms.layout, l', ms.words, rs.vals, c.roots, ws, base);
    MStepAtComputation(f.blocks, env, ms, l', ops, words, w);
  }

  lemma NonRootsGoStale(l: Layout, l': Layout, words: map<TempId, Word>, vals: map<TempId, Val>, roots: seq<TempId>,
                        ws: seq<Word>, base: nat)
    requires |roots| == |ws| && Fits(l, words, vals, base)
    requires forall id :: id in l' ==> base <= l'[id]
    ensures var words' := Bind(words, roots, ws);
            forall t :: t in words && words[t].Addr? && t !in roots ==> Decode(l', words'[t]).None?
  {
    forall t | t in words && words[t].Addr? && t !in roots
      ensures Decode(l', Bind(words, roots, ws)[t]).None?
    {
      assert WordFits(l, words[t], vals, t, base);
      OldAddressIsStale(l', words[t], base);
    }
  }

  lemma FreshWordsFit(l: Layout, l': Layout, words: map<TempId, Word>, vals: map<TempId, Val>, roots: seq<TempId>,
                      ws: seq<Word>, vs: seq<Val>, base: nat, top: nat)
    requires |roots| == |ws| == |vs| && base <= top
    requires forall k :: 0 <= k < |roots| ==> roots[k] in vals && vs[k] == vals[roots[k]]
    requires EncodeAll(l', vs) == Some(ws) && forall k :: 0 <= k < |vs| ==> Decode(l', ws[k]) == Some(vs[k])
    requires forall id :: id in l' ==> base <= l'[id] < top
    requires Fits(l, words, vals, base)
    ensures Fits(l', Bind(words, roots, ws), vals, top)
  {
    forall t | t in words
      ensures WordFits(l', words[t], vals, t, top)
    {
      assert WordFits(l, words[t], vals, t, base);
      if words[t].Addr? {
        OldAddressIsStale(l', words[t], base);
      }
    }
    BindFits(l', words, vals, roots, ws, vs, top);
    BindSelf(vals, roots, vs);
  }

  lemma FreshStepElsewhere(f: Function, env: Environment, rs: RState, ms: MState, base: nat)
    returns (l': Layout)
    requires Lockstep(f.blocks, rs, ms, base) && rs.Running? && !AtTerminator(f.blocks, rs.at)
    requires !f.blocks[rs.at.block].computations[rs.at.pc].IsPotentiallyAllocatingCall()
    ensures Legal(f.blocks, env, ms, l')
    ensures var r, m := RStep(f.blocks, env, rs), MStep(f.blocks, env, ms, l');
            m.Some? ==>
              && r.Some? && Lockstep(f.blocks, r.value, m.value, base + 1)
              && forall t :: Stale(ms, t) && t != f.blocks[rs.at.block].computations[rs.at.pc].dst ==> Stale(m.value, t)
  {
    var c := f.blocks[rs.at.block].computations[rs.at.pc];
    var ops := ReadVals(ms.layout, ms.words, c.Operands());
    if ops.None? {
      l' := ms.layout;
    } else {
      var answer := Answer(env, c, ms.hist, ms.at, ops.value);
      l' := if answer.Obj? && answer.id !in ms.layout then ms.layout[answer.id := base] else ms.layout;
      LockstepReads(f.blocks, rs, ms, base, c.Operands());
      DecodeEncode(l', answer);
      forall t | t in ms.words
        ensures WordFits(l', ms.words[t], rs.vals, t, base + 1)
        ensures Stale(ms, t) ==> Decode(l', ms.words[t]).None?
      {
        assert WordFits(ms.layout, ms.words[t], rs.vals, t, base);
        if Decode(ms.layout, ms.words[t]).Some? {
          DecodeInExtension(ms.layout, l', ms.words[t]);
        }
      }
      ResultFits(l', ms.words, rs.vals, c.dst, Encode(l', answer).value, answer, base + 1);
    }
  }

  lemma FreshStepAtTerminator(f: Function, env: Environment, rs: RState, ms: MState, base: nat)
    requires Lockstep(f.blocks, rs, ms, base) && rs.Running? && AtTerminator(f.blocks, rs.at)
    requires RStep(f.blocks, env, rs).Some?
    ensures Legal(f.blocks, env, ms, ms.layout)
    ensures var r, m := RStep(f.blocks, env, rs), MStep(f.blocks, env, ms, ms.layout);
            m.Some? ==>
              && Lockstep(f.blocks, r.value, m.value, base)
              && (r.value.Running? ==> forall t :: Stale(ms, t) && t !in f.blocks[r.value.at.block].params ==>
                                         Stale(m.value, t))
  {
    var used := Reads(f.blocks, rs.at);
    if ReadVals(ms.layout, ms.words, used).Some? {
      LockstepReads(f.blocks, rs, ms, base, used);
      var vs := ReadAll(rs.vals, used).value;
      match f.blocks[rs.at.block].terminator
      case Return(_) =>
      case If(_, a, b) =>
        assert Bind(ms.words, [], []) == ms.words;
      case Jump(a, args) =>
        FreshJump(f.blocks, rs, ms, base, args, f.blocks[BlockAt(f.blocks, a).value].params);
    }
  }

  lemma {:induction false} FreshJump(blocks: seq<Block>, rs: RState, ms: MState, base: nat, args: seq<TempId>,
                        params: seq<TempId>)
    requires Lockstep(blocks, rs, ms, base) && rs.Running? && |args| == |params|
    requires ReadVals(ms.layout, ms.words, args).Some? && ReadAll(rs.vals, args).Some?
    requires ReadVals(ms.layout, ms.words, args) == ReadAll(rs.vals, args)
    ensures Fits(ms.layout, Bind(ms.words, params, ReadAll(ms.words, args).value),
                 Bind(rs.vals, params, ReadAll(rs.vals, args).value), base)
  {
    var ws := ReadAll(ms.words, args).value;
    forall k | 0 <= k < |ws|
      ensures ws[k].Addr? ==> ws[k].a < base
    {
      assert WordFits(ms.layout, ms.words[args[k]], rs.vals, args[k], base);
    }
    BindFits(ms.layout, ms.words, rs.vals, params, ws, ReadAll(rs.vals, args).value, base);
  }

  /** From any state in lockstep the collector can act so that, unless the moving machine
      stops, the machines stay in lockstep and stale temps not overwritten stay stale. */
  lemma FreshStep(f: Function, env: Environment, rs: RState, ms: MState, base: nat) returns (l': Layout, top: nat)
    requires rs.Running? && ms.MRunning? && IsPoint(f.blocks, rs.at) && rs.at == ms.at
    requires Lockstep(f.blocks, rs, ms, base) && RStep(f.blocks, env, rs).Some?
    ensures Legal(f.blocks, env, ms, l')
    ensures var r, m := RStep(f.blocks, env, rs), MStep(f.blocks, env, ms, l');
            m.Some? ==>
              && Lockstep(f.blocks, r.value, m.value, top)
              && (r.value.Running? ==> forall t ::
                   Stale(ms, t) && t !in StepWrites(f.blocks, rs.at, r.value.at.block) ==>
                                         Stale(m.value, t))
  {
    hide Fits, Injective, WordFits, LiveAt;
    if AtTerminator(f.blocks, rs.at) {
      l', top := ms.layout, base;
      FreshStepAtTerminator(f, env, rs, ms, base);
    } else if f.blocks[rs.at.block].computations[rs.at.pc].IsPotentiallyAllocatingCall() {
      l', top := FreshStepAtAllocation(f, env, rs, ms, base);
      forall t | Stale(ms, t)
        ensures MStep(f.blocks, env, ms, l').Some? ==> t !in f.blocks[rs.at.block].computations[rs.at.pc].roots
        ensures ms.words[t].Addr?
      {
        StaleBlocksReading(ms.layout, ms.words, f.blocks[rs.at.block].computations[rs.at.pc].roots, t);
      }
    } else {
      l' := FreshStepElsewhere(f, env, rs, ms, base);
      top := base + 1;
    }
  }

  /** Once a temp is stale and the run goes on to read it, some collector behaviour stops
      the moving machine. */
  lemma {:induction false} StaleReadBreaks(f: Function, env: Environment, rs: RState, ms: MState, base: nat,
                                           t: TempId, n: nat) returns (schedule: seq<Layout>)
    requires rs.Running? ==> IsPoint(f.blocks, rs.at)
    requires ms.MRunning? ==> IsPoint(f.blocks, ms.at)
    requires Lockstep(f.blocks, rs, ms, base) && Stale(ms, t)
    requires ReadsLater(f.blocks, env, rs, t, n)
    ensures LegalSchedule(f.blocks, env, ms, schedule) && |schedule| <= n + 1
    ensures MRun(f.blocks, env, ms, schedule).None?
    decreases n
  {
    if n == 0 {
      StaleBlocksReading(ms.layout, ms.words, Reads(f.blocks, ms.at), t);
      schedule := [ms.layout];
    } else {
      var l', top := FreshStep(f, env, rs, ms, base);
      schedule := [l'];
      var next := MStep(f.blocks, env, ms, l');
      if next.Some? {
        MStepIsPoint(f.blocks, env, ms, l');
        var rest := StaleReadBreaks(f, env, RStep(f.blocks, env, rs).value, next.value, top, t, n - 1);
        schedule := [l'] + rest;
        assert schedule[1..] == rest;
      } else {
        assert schedule[1..] == [];
      }
    }
  }

  lemma StaleBlocksReading(l: Layout, words: map<TempId, Word>, ts: seq<TempId>, t: TempId)
    requires t in words && Decode(l, words[t]).None?
    ensures t in ts ==> ReadVals(l, words, ts).None?
  {
  }

  /** No root can be dropped: if a potentially allocating call's list leaves out a temp that
      holds a pointer and that the run goes on to read, then the collector has a legal
      behaviour under which the moving machine stops on a stale word. */
  lemma {:induction false} OmittedRootBreaks(f: Function, env: Environment, rs: RState, ms: MState, base: nat,
                        t: TempId, n: nat)
    returns (schedule: seq<Layout>)
    requires rs.Running? && ms.MRunning? && IsPoint(f.blocks, rs.at) && rs.at == ms.at
    requires Lockstep(f.blocks, rs, ms, base) && !AtTerminator(f.blocks, rs.at)
    requires f.blocks[rs.at.block].computations[rs.at.pc].IsPotentiallyAllocatingCall()
    requires t in ms.words && ms.words[t].Addr? && t !in f.blocks[rs.at.block].computations[rs.at.pc].roots
    requires n > 0 && ReadsLater(f.blocks, env, rs, t, n)
    ensures LegalSchedule(f.blocks, env, ms, schedule) && |schedule| <= n + 1
    ensures MRun(f.blocks, env, ms, schedule).None?
  {
    hide Fits, Injective, Decode, LiveAt, MStep, Legal;
    var l', top := FreshStepAtAllocation(f, env, rs, ms, base);
    var next := MStep(f.blocks, env, ms, l');
    schedule := [l'];
    if next.Some? {
      MStepIsPoint(f.blocks, env, ms, l');
      var rest := StaleReadBreaks(f, env, RStep(f.blocks, env, rs).value, next.value, top, t, n - 1);
      schedule := [l'] + rest;
      assert schedule[1..] == rest;
    } else {
      assert schedule[1..] == [];
    }
  }

  // ----- from the start of the function -----

  lemma {:induction false} AddressBound(l: Layout) returns (base: nat)
    ensures forall id :: id in l ==> l[id] < base
  {
    base := 0;
    var rest := l.Keys;
    while rest != {}
      invariant rest <= l.Keys && forall id :: id in l.Keys - rest ==> l[id] < base
      decreases rest
    {
      var id :| id in rest;
      base, rest := if l[id] < base then base else l[id] + 1, rest - {id};
    }
  }

  /** The two machines start in lockstep, with the same temps defined. */
  lemma {:induction false} StartsInLockstep(f: Function, args: seq<Val>, words: seq<Word>, l: Layout, base: nat)
    requires BlockAt(f.blocks, f.entry).Some? && |args| == |f.params|
    requires Injective(l) && ArgsEncoded(l, words, args) && forall id :: id in l ==> l[id] < base
    ensures Lockstep(f.blocks, Start(f, args), MStart(f, words, l), base)
    ensures Start(f, args).vals.Keys == MStart(f, words, l).words.Keys
  {
    BindFits(l, map[], map[], f.params, words, args, base);
  }

  /** A step that keeps the machines at one place keeps the same temps defined. */
  lemma {:induction false} SameTempsAfterStep(f: Function, env: Environment, rs: RState, ms: MState, l': Layout)
    requires rs.Running? && ms.MRunning? && rs.at == ms.at && IsPoint(f.blocks, rs.at) && rs.vals.Keys == ms.words.Keys
    ensures var r, m := RStep(f.blocks, env, rs), MStep(f.blocks, env, ms, l');
            r.Some? && m.Some? && r.value.Running? && m.value.MRunning? && r.value.at == m.value.at ==>
              r.value.vals.Keys == m.value.words.Keys
  {
    hide Legal, Decode;
    var b := f.blocks[rs.at.block];
    if !AtTerminator(f.blocks, rs.at) && b.computations[rs.at.pc].IsPotentiallyAllocatingCall() {
      ForwardKeepsTemps(ms.words, b.computations[rs.at.pc].roots, ms.layout, l');
    }
  }

  lemma ForwardKeepsTemps(words: map<TempId, Word>, roots: seq<TempId>, l: Layout, l': Layout)
    ensures var moved := Forward(words, roots, l, l'); moved.Some? ==> moved.value.Keys == words.Keys
  {
  }

  lemma {:induction false} ReturnedForGood(blocks: seq<Block>, env: Environment, s: RState, n: nat)
    requires s.Returned?
    ensures RRun(blocks, env, s, n) == Some(s)
  {
    if n > 0 {
      ReturnedForGood(blocks, env, s, n - 1);
    }
  }

  /** The run stands at a potentially allocating call whose list leaves out `t`, an object
      that the next `n` steps leave alone and the step after them reads. */
  ghost predicate AtOmission(f: Function, env: Environment, s: RState, t: TempId, n: nat) {
    && s.Running? && IsPoint(f.blocks, s.at) && !AtTerminator(f.blocks, s.at)
    && f.blocks[s.at.block].computations[s.at.pc].IsPotentiallyAllocatingCall()
    && t !in f.blocks[s.at.block].computations[s.at.pc].roots
    && t in s.vals && s.vals[t].Obj?
    && n > 0 && ReadsLater(f.blocks, env, s, t, n)
  }

  /** From any pair in lockstep, if the reference run gets to such a call in `m` steps, the
      collector can stop the moving machine. */
  lemma {:induction false} OmissionAheadBreaks(f: Function, env: Environment, rs: RState, ms: MState, base: nat,
                                               m: nat, t: TempId, n: nat) returns (schedule: seq<Layout>)
    requires rs.Running? ==> IsPoint(f.blocks, rs.at)
    requires ms.MRunning? ==> IsPoint(f.blocks, ms.at)
    requires Lockstep(f.blocks, rs, ms, base) && (rs.Running? ==> rs.vals.Keys == ms.words.Keys)
    requires var s := RRun(f.blocks, env, rs, m); s.Some? && AtOmission(f, env, s.value, t, n)
    ensures LegalSchedule(f.blocks, env, ms, schedule) && MRun(f.blocks, env, ms, schedule).None?
    decreases m
  {
    hide Fits, Injective, LiveAt, ReadsLater, RStep, MStep, Legal;
    if rs.Returned? {
      ReturnedForGood(f.blocks, env, rs, m);
    }
    if m == 0 {
      PointerHeld(rs, ms, base, t);
      schedule := OmittedRootBreaks(f, env, rs, ms, base, t, n);
    } else {
      var l', top := FreshStep(f, env, rs, ms, base);
      schedule := [l'];
      var next := MStep(f.blocks, env, ms, l');
      if next.Some? {
        MStepIsPoint(f.blocks, env, ms, l');
        SameTempsAfterStep(f, env, rs, ms, l');
        var rest := OmissionAheadBreaks(f, env, RStep(f.blocks, env, rs).value, next.value, top, m - 1, t, n);
        schedule := [l'] + rest;
        assert schedule[1..] == rest;
      } else {
        assert schedule[1..] == [];
      }
    }
  }

  /** In lockstep the word of an object is an address, stale or not. */
  lemma PointerHeld(rs: RState, ms: MState, base: nat, t: TempId)
    requires rs.Running? && ms.MRunning? && Fits(ms.layout, ms.words, rs.vals, base)
    requires t in ms.words && t in rs.vals && rs.vals[t].Obj?
    ensures ms.words[t].Addr?
  {
    assert WordFits(ms.layout, ms.words[t], rs.vals, t, base);
  }

  /** The converse of transparency, over whole runs. If some run of the function, from its
      start, gets to a potentially allocating call whose list leaves out an object that the
      run goes on to read, then the collector has a legal schedule under which the moving
      machine, from its start, stops on a stale word. */
  lemma {:induction false} OmittedRootBreaksRun(f: Function, env: Environment, args: seq<Val>, words: seq<Word>,
                                                l: Layout, m: nat, t: TempId, n: nat)
    returns (schedule: seq<Layout>)
    requires BlockAt(f.blocks, f.entry).Some? && |args| == |f.params|
    requires Injective(l) && ArgsEncoded(l, words, args)
    requires var s := RRun(f.blocks, env, Start(f, args), m); s.Some? && AtOmission(f, env, s.value, t, n)
    ensures LegalSchedule(f.blocks, env, MStart(f, words, l), schedule)
    ensures MRun(f.blocks, env, MStart(f, words, l), schedule).None?
  {
    hide Lockstep, Injective, AtOmission, LegalSchedule, MRun, RRun;
    var base := AddressBound(l);
    StartsInLockstep(f, args, words, l, base);
    schedule := OmissionAheadBreaks(f, env, Start(f, args), MStart(f, words, l), base, m, t, n);
  }
}
