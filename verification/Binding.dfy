/** Facts about the bindings codegen computes: nothing is bound to a value emitted later,
    and a temp that no reload ever rebinds has one SSA value everywhere. */
module Binding {
  import opened Ir
  import opened Cfg
  import opened Machine
  import opened Target

  /** Where a temp can be defined. */
  datatype Site =
    | ParamSite(k: nat)
    | BlockParamSite(block: nat, k: nat)
    | ResultSite(block: nat, pc: nat)

  function DefinedAt(f: Function, s: Site): Option<TempId> {
    match s
    case ParamSite(k) => if k < |f.params| then Some(f.params[k]) else None
    case BlockParamSite(i, k) =>
      if i < |f.blocks| && k < |f.blocks[i].params| then Some(f.blocks[i].params[k]) else None
    case ResultSite(i, pc) =>
      if i < |f.blocks| && pc < |f.blocks[i].computations| then Some(f.blocks[i].computations[pc].dst) else None
  }

  /** Static single assignment: no temp has two defining sites. */
  ghost predicate SingleDefs(f: Function) {
    forall s1, s2 :: DefinedAt(f, s1).Some? && DefinedAt(f, s1) == DefinedAt(f, s2) ==> s1 == s2
  }

  /** The SSA values that are, by construction, the definition of `t`. */
  predicate IsName(f: Function, t: TempId, s: Ssa) {
    match s
    case Value(i, pc) => i < |f.blocks| && pc < |f.blocks[i].computations| && f.blocks[i].computations[pc].dst == t
    case Phi(i, k) => i < |f.blocks| && k < |f.blocks[i].params| && f.blocks[i].params[k] == t
    case _ => false
  }

  /** Temps whose binding can change: those some call reloads, and results of stores, which
      are bound to the stored temp's value. */
  predicate Threaded(f: Function, t: TempId) {
    exists i, pc :: 0 <= i < |f.blocks| && 0 <= pc < |f.blocks[i].computations|
                    && Rebinds(f.blocks[i].computations[pc], t)
  }

  predicate Rebinds(c: Computation, t: TempId) {
    t in RootsOfCall(c) || (c.StoreSlot? && c.dst == t)
  }

  predicate Plain(f: Function, t: TempId) {
    t !in f.params && !Threaded(f, t)
  }

  /** `s` is defined by code emitted before block `i`, or is a phi of `t` itself. */
  predicate BeforeBlock(f: Function, t: TempId, s: Ssa, i: nat) {
    match s
    case Arg(_) => true
    case HomeSeed(_) => true
    case HomeLoad(j, _) => j < i
    case Phi(j, _) => j < i || IsName(f, t, s)
    case Value(j, _) => j < i
    case Reload(j, _, _) => j < i
  }

  /** `s` is defined by code emitted before position `pc` of block `i`, or is a phi of `t`. */
  predicate BeforePoint(f: Function, t: TempId, s: Ssa, i: nat, pc: nat) {
    match s
    case Arg(_) => true
    case HomeSeed(_) => true
    case HomeLoad(j, _) => j <= i
    case Phi(j, _) => j <= i || IsName(f, t, s)
    case Value(j, k) => j < i || (j == i && k < pc)
    case Reload(j, k, _) => j < i || (j == i && k < pc)
  }

  /** A block parameter is read only in its block or textually later ones. */
  ghost predicate PhisReadAfter(f: Function) {
    forall i, pc, j, k | 0 <= i < |f.blocks| && 0 <= pc <= |f.blocks[i].computations|
                         && 0 <= j < |f.blocks| && 0 <= k < |f.blocks[j].params| ::
      f.blocks[j].params[k] in BlockReads(f.blocks[i], pc) ==> j <= i
  }

  ghost predicate BoundBeforeBlock(f: Function, b: Bindings, i: nat) {
    forall t :: t in b ==> BeforeBlock(f, t, b[t], i) && (Plain(f, t) ==> IsName(f, t, b[t]))
  }

  ghost predicate BoundBeforePoint(f: Function, b: Bindings, i: nat, pc: nat) {
    forall t :: t in b ==> BeforePoint(f, t, b[t], i, pc) && (Plain(f, t) ==> IsName(f, t, b[t]))
  }

  ghost predicate CarryBeforeBlock(f: Function, c: Carry, i: nat) {
    && BoundBeforeBlock(f, c.temps, i)
    && forall id :: id in c.entries ==> BoundBeforeBlock(f, c.entries[id], i)
  }

  /** What a later name in the list, or failing that the map, gives. */
  lemma {:induction false} BindLooksUp<K, V>(m: map<K, V>, ks: seq<K>, vs: seq<V>, k: K)
    requires |ks| == |vs| && k in Bind(m, ks, vs)
    ensures (exists x :: 0 <= x < |ks| && ks[x] == k && Bind(m, ks, vs)[k] == vs[x])
            || (k !in ks && k in m && Bind(m, ks, vs)[k] == m[k])
    decreases |ks|
  {
    if ks != [] {
      BindLooksUp(m[ks[0] := vs[0]], ks[1..], vs[1..], k);
      if x :| 0 <= x < |ks[1..]| && ks[1..][x] == k && Bind(m[ks[0] := vs[0]], ks[1..], vs[1..])[k] == vs[1..][x] {
        assert ks[x + 1] == k && vs[x + 1] == vs[1..][x];
      } else if k == ks[0] {
        assert ks[0] == k && Bind(m, ks, vs)[k] == vs[0];
      } else {
        assert k !in ks[1..];
      }
    }
  }

  predicate Distinct<K(==)>(ks: seq<K>) {
    forall x, y :: 0 <= x < y < |ks| ==> ks[x] != ks[y]
  }

  lemma BindDistinct<K, V>(m: map<K, V>, ks: seq<K>, vs: seq<V>, x: nat)
    requires |ks| == |vs| && Distinct(ks) && x < |ks|
    ensures ks[x] in Bind(m, ks, vs) && Bind(m, ks, vs)[ks[x]] == vs[x]
  {
    assert ks[x] in ks;
    BindLooksUp(m, ks, vs, ks[x]);
  }

  lemma {:induction false} WithPhisBound(f: Function, n: nat, b: Bindings)
    requires n <= |f.blocks| && BoundBeforeBlock(f, b, 0)
    ensures BoundBeforeBlock(f, WithPhis(f.blocks, n, b), 0)
  {
    hide BoundBeforeBlock;
    if n > 0 {
      WithPhisBound(f, n - 1, b);
      PhisBound(f, n - 1, WithPhis(f.blocks, n - 1, b));
    }
  }

  lemma {:induction false} PhisBound(f: Function, i: nat, b: Bindings)
    requires i < |f.blocks| && BoundBeforeBlock(f, b, 0)
    ensures BoundBeforeBlock(f, Bind(b, f.blocks[i].params, PhiNames(i, |f.blocks[i].params|)), 0)
  {
    hide Plain, Bind;
    var ps, names := f.blocks[i].params, PhiNames(i, |f.blocks[i].params|);
    var b' := Bind(b, ps, names);
    forall t | t in b'
      ensures BeforeBlock(f, t, b'[t], 0) && (Plain(f, t) ==> IsName(f, t, b'[t]))
    {
      BindLooksUp(b, ps, names, t);
    }
  }

  lemma SeedBound(f: Function)
    ensures BoundBeforeBlock(f, SeedTemps(f), 0)
  {
    forall t | t in SeedTemps(f)
      ensures BeforeBlock(f, t, SeedTemps(f)[t], 0) && (Plain(f, t) ==> IsName(f, t, SeedTemps(f)[t]))
    {
      BindLooksUp<TempId, Ssa>(map[], f.params, SeedNames(f), t);
    }
  }

  lemma InstallBound(f: Function, i: nat, carry: Carry)
    requires i < |f.blocks| && CarryBeforeBlock(f, carry, i)
    ensures BoundBeforePoint(f, Install(f, i, carry), i, 0)
  {
    var block := f.blocks[i];
    var b1 := carry.temps + if block.id in carry.entries then carry.entries[block.id] else map[];
    var b2 := Bind(b1, f.params, ParamNames(f, i));
    var b3 := Install(f, i, carry);
    forall t | t in b3
      ensures BeforePoint(f, t, b3[t], i, 0) && (Plain(f, t) ==> IsName(f, t, b3[t]))
    {
      BindLooksUp(b2, block.params, PhiNames(i, |block.params|), t);
      if t !in block.params {
        BindLooksUp(b1, f.params, ParamNames(f, i), t);
        if t !in f.params {
          assert BeforeBlock(f, t, b1[t], i);
        }
      }
    }
  }

  lemma AfterComputationBound(f: Function, i: nat, pc: nat, b: Bindings)
    requires i < |f.blocks| && pc < |f.blocks[i].computations| && BoundBeforePoint(f, b, i, pc)
    requires PhisReadAfter(f)
    ensures BoundBeforePoint(f, AfterComputation(f.blocks[i].computations[pc], i, pc, b), i, pc + 1)
  {
    var c := f.blocks[i].computations[pc];
    var roots := RootsOfCall(c);
    var b1 := Bind(b, roots, ReloadNames(i, pc, |roots|));
    forall t | t in b1
      ensures BeforePoint(f, t, b1[t], i, pc + 1) && (Plain(f, t) ==> IsName(f, t, b1[t]))
    {
      BindLooksUp(b, roots, ReloadNames(i, pc, |roots|), t);
      assert t in roots ==> Rebinds(c, t);
      if t !in roots {
        assert BeforePoint(f, t, b[t], i, pc);
      }
    }
    if c.StoreSlot? {
      assert Rebinds(c, c.dst);
      assert b1 == b;
      if c.stored in b {
        StoredPhiIsEarlier(f, i, pc, b);
      }
    }
  }

  /** What a store's result is bound to was emitted before, so it is no phi of a later
      block. */
  lemma StoredPhiIsEarlier(f: Function, i: nat, pc: nat, b: Bindings)
    requires i < |f.blocks| && pc < |f.blocks[i].computations| && BoundBeforePoint(f, b, i, pc)
    requires f.blocks[i].computations[pc].StoreSlot? && f.blocks[i].computations[pc].stored in b
    requires PhisReadAfter(f)
    ensures var s := b[f.blocks[i].computations[pc].stored];
            BeforePoint(f, f.blocks[i].computations[pc].dst, s, i, pc + 1)
  {
    var c := f.blocks[i].computations[pc];
    assert c.stored in BlockReads(f.blocks[i], pc);
    assert BeforePoint(f, c.stored, b[c.stored], i, pc);
  }

  lemma {:induction false} WithinBound(f: Function, i: nat, pc: nat, start: Bindings)
    requires i < |f.blocks| && pc <= |f.blocks[i].computations| && BoundBeforePoint(f, start, i, 0)
    requires PhisReadAfter(f)
    ensures BoundBeforePoint(f, Within(f.blocks[i], i, pc, start), i, pc)
    decreases pc
  {
    hide BoundBeforePoint, AfterComputation, PhisReadAfter;
    if pc > 0 {
      WithinBound(f, i, pc - 1, start);
      AfterComputationBound(f, i, pc - 1, Within(f.blocks[i], i, pc - 1, start));
    }
  }

  lemma {:induction false} NoteAllBound(f: Function, entries: map<BlockId, Bindings>, ids: seq<BlockId>,
                        b: Bindings, i: nat)
    requires BoundBeforeBlock(f, b, i) && forall x :: x in entries ==> BoundBeforeBlock(f, entries[x], i)
    ensures forall x :: x in NoteAll(entries, ids, b) ==> BoundBeforeBlock(f, NoteAll(entries, ids, b)[x], i)
    decreases |ids|
  {
    if ids != [] {
      NoteAllBound(f, Note(entries, ids[0], b), ids[1..], b, i);
    }
  }

  lemma EarlierStaysEarlier(f: Function, b: Bindings, i: nat, j: nat)
    requires i <= j && BoundBeforeBlock(f, b, i)
    ensures BoundBeforeBlock(f, b, j)
  {
    forall t | t in b
      ensures BeforeBlock(f, t, b[t], j)
    {
      assert BeforeBlock(f, t, b[t], i);
    }
  }

  lemma DoneIsBefore(f: Function, b: Bindings, i: nat, pc: nat)
    requires BoundBeforePoint(f, b, i, pc)
    ensures BoundBeforeBlock(f, b, i + 1)
  {
    forall t | t in b
      ensures BeforeBlock(f, t, b[t], i + 1)
    {
      assert BeforePoint(f, t, b[t], i, pc);
    }
  }

  /** At every point of the emission nothing is bound to a value emitted later, and plain
      temps are bound to their definitions. */
  lemma {:induction false} CarryBound(f: Function, i: nat)
    requires i <= |f.blocks| && PhisReadAfter(f)
    ensures CarryBeforeBlock(f, CarryInto(f, i), i)
  {
    hide BoundBeforeBlock, BoundBeforePoint, WithPhis, Install, NoteAll;
    if i == 0 {
      SeedBound(f);
      WithPhisBound(f, |f.blocks|, SeedTemps(f));
    } else {
      CarryBound(f, i - 1);
      var prev := CarryInto(f, i - 1);
      InstallBound(f, i - 1, prev);
      WithinBound(f, i - 1, |f.blocks[i - 1].computations|, OnEntry(f, i - 1));
      DoneIsBefore(f, OnExit(f, i - 1), i - 1, |f.blocks[i - 1].computations|);
      forall id | id in prev.entries
        ensures BoundBeforeBlock(f, prev.entries[id], i)
      {
        EarlierStaysEarlier(f, prev.entries[id], i - 1, i);
      }
      NoteAllBound(f, prev.entries, f.blocks[i - 1].terminator.Targets(), OnExit(f, i - 1), i);
    }
  }

  lemma {:induction false} PointBound(f: Function, i: nat, pc: nat)
    requires i < |f.blocks| && pc <= |f.blocks[i].computations| && PhisReadAfter(f)
    ensures BoundBeforePoint(f, At(f, i, pc), i, pc)
  {
    CarryBound(f, i);
    InstallBound(f, i, CarryInto(f, i));
    WithinBound(f, i, pc, OnEntry(f, i));
  }

  /** What a block starts with, for a temp it does not bind itself, was emitted before it. */
  lemma {:induction false} CarriedIsEarlier(f: Function, j: nat, t: TempId)
    requires j < |f.blocks| && PhisReadAfter(f) && t in OnEntry(f, j)
    requires t !in f.params && t !in f.blocks[j].params
    ensures BeforeBlock(f, t, OnEntry(f, j)[t], j)
  {
    CarryBound(f, j);
    var carry, block := CarryInto(f, j), f.blocks[j];
    var b1 := carry.temps + if block.id in carry.entries then carry.entries[block.id] else map[];
    BindLooksUp(Bind(b1, f.params, ParamNames(f, j)), block.params, PhiNames(j, |block.params|), t);
    BindLooksUp(b1, f.params, ParamNames(f, j), t);
    if block.id in carry.entries && t in carry.entries[block.id] {
      assert BoundBeforeBlock(f, carry.entries[block.id], j);
    }
  }

  // ----- the cross-block contract -----

  /** The contract: a temp that must be threaded, live into a block and neither a function
      parameter nor a parameter of the block, leaves every predecessor bound to the very
      value the block starts with. */
  ghost predicate EdgeContract(f: Function) {
    forall i, j, t | 0 <= i < |f.blocks| && j in Successors(f.blocks, i) && Crosses(f, j, t) ::
      t in OnExit(f, i) && t in OnEntry(f, j) && OnExit(f, i)[t] == OnEntry(f, j)[t]
  }

  ghost predicate Crosses(f: Function, j: nat, t: TempId)
    requires j < |f.blocks|
  {
    LiveIn(f.blocks, j, t) && Threaded(f, t) && t !in f.params
  }

  /** The diagnostic's view: over all edges into a block, such a temp always carries the
      same value. */
  ghost predicate CarriedAlike(f: Function) {
    forall i, i', j, t | 0 <= i < |f.blocks| && 0 <= i' < |f.blocks| && j in Successors(f.blocks, i)
                         && j in Successors(f.blocks, i') && Crosses(f, j, t) ::
      t in OnExit(f, i) && t in OnExit(f, i') && OnExit(f, i)[t] == OnExit(f, i')[t]
  }

  /** Every block that is branched to is branched to from an earlier block. */
  ghost predicate EmittedAfterAPredecessor(f: Function) {
    forall i, j | 0 <= i < |f.blocks| && j in Successors(f.blocks, i) ::
      exists k :: 0 <= k < j && j in Successors(f.blocks, k)
  }

  /** A noted binding came from the first predecessor that had the temp bound, or is the seed of
      the entry. */
  ghost predicate NotedFrom(f: Function, id: BlockId, t: TempId, s: Ssa, n: nat)
    requires n <= |f.blocks|
  {
    t in f.params
    || exists k :: 0 <= k < n && Carries(f, k, id, t, s) && forall m :: 0 <= m < k ==> !Offers(f, m, id, t)
  }

  predicate Offers(f: Function, k: nat, id: BlockId, t: TempId)
    requires k < |f.blocks|
  {
    id in f.blocks[k].terminator.Targets() && t in OnExit(f, k)
  }

  predicate Carries(f: Function, k: nat, id: BlockId, t: TempId, s: Ssa)
    requires k < |f.blocks|
  {
    id in f.blocks[k].terminator.Targets() && t in OnExit(f, k) && OnExit(f, k)[t] == s
  }

  lemma {:induction false} NoteAllKeeps(entries: map<BlockId, Bindings>, ids: seq<BlockId>, b: Bindings,
                        id: BlockId, t: TempId)
    ensures var e := NoteAll(entries, ids, b);
            && (id in e && t in e[id] <==> (id in entries && t in entries[id]) || (id in ids && t in b))
            && (id in e && t in e[id] ==>
                  e[id][t] == if id in entries && t in entries[id] then entries[id][t] else b[t])
    decreases |ids|
  {
    if ids != [] {
      NoteAllKeeps(Note(entries, ids[0], b), ids[1..], b, id, t);
      assert id in ids <==> id == ids[0] || id in ids[1..];
    }
  }

  lemma CarryNext(f: Function, i: nat)
    requires i < |f.blocks|
    ensures CarryInto(f, i + 1) ==
            Carry(OnExit(f, i), NoteAll(CarryInto(f, i).entries, f.blocks[i].terminator.Targets(), OnExit(f, i)))
  {
  }

  /** The entry map holds exactly what earlier predecessors carried, each temp as the first of
      them had it. */
  lemma {:induction false} EntriesAreCarried(f: Function, n: nat, id: BlockId, t: TempId)
    requires n <= |f.blocks|
    ensures var e := CarryInto(f, n).entries;
            && (id in e && t in e[id] ==> NotedFrom(f, id, t, e[id][t], n))
            && (forall k :: 0 <= k < n && id in f.blocks[k].terminator.Targets() && t in OnExit(f, k) ==>
                  id in e && t in e[id])
  {
    hide Install, Within, WithPhis, NoteAll, OnExit, CarryPast;
    if n > 0 {
      EntriesAreCarried(f, n - 1, id, t);
      CarryNext(f, n - 1);
      var prev := CarryInto(f, n - 1).entries;
      var ids := f.blocks[n - 1].terminator.Targets();
      NoteAllKeeps(prev, ids, OnExit(f, n - 1), id, t);
      var e := CarryInto(f, n).entries;
      if id in e && t in e[id] {
        if id in prev && t in prev[id] {
          if t !in f.params {
            var k :| 0 <= k < n - 1 && Carries(f, k, id, t, prev[id][t])
                     && forall m :: 0 <= m < k ==> !Offers(f, m, id, t);
            assert Carries(f, k, id, t, e[id][t]);
          }
        } else {
          assert Carries(f, n - 1, id, t, e[id][t]);
        }
      }
    }
  }

  lemma {:induction false} EntryValueIsCarried(f: Function, j: nat, t: TempId)
    requires j < |f.blocks| && UniqueBlockIds(f.blocks)
    requires t !in f.params && t !in f.blocks[j].params
    requires exists k :: 0 <= k < j && j in Successors(f.blocks, k) && t in OnExit(f, k)
    ensures t in OnEntry(f, j)
    ensures exists k :: 0 <= k < j && j in Successors(f.blocks, k) && t in OnExit(f, k)
              && OnExit(f, k)[t] == OnEntry(f, j)[t]
  {
    var carry, block := CarryInto(f, j), f.blocks[j];
    BlockAtOwnId(f.blocks, j);
    EntriesAreCarried(f, j, block.id, t);
    var k0 :| 0 <= k0 < j && j in Successors(f.blocks, k0) && t in OnExit(f, k0);
    TargetOfSuccessor(f.blocks, k0, j);
    assert block.id in carry.entries && t in carry.entries[block.id];
    var s := carry.entries[block.id][t];
    var k :| 0 <= k < j && Carries(f, k, block.id, t, s);
    KnownPositionsAreTargets(f.blocks, f.blocks[k].terminator.Targets(), j);
    InstallCarried(f, j, carry, t);
  }

  lemma InstallCarried(f: Function, j: nat, carry: Carry, t: TempId)
    requires j < |f.blocks| && t !in f.params && t !in f.blocks[j].params
    requires f.blocks[j].id in carry.entries && t in carry.entries[f.blocks[j].id]
    ensures t in Install(f, j, carry) && Install(f, j, carry)[t] == carry.entries[f.blocks[j].id][t]
  {
  }

  lemma BlockAtOwnId(blocks: seq<Block>, j: nat)
    requires j < |blocks| && UniqueBlockIds(blocks)
    ensures BlockAt(blocks, blocks[j].id) == Some(j)
  {
    IdToIdxFinds(blocks, blocks[j].id);
  }

  lemma TargetOfSuccessor(blocks: seq<Block>, i: nat, j: nat)
    requires i < |blocks| && j < |blocks| && UniqueBlockIds(blocks)
    ensures j in Successors(blocks, i) <==> blocks[j].id in blocks[i].terminator.Targets()
  {
    KnownPositionsAreTargets(blocks, blocks[i].terminator.Targets(), j);
    BlockAtOwnId(blocks, j);
  }

  /** Keeping the first predecessor's binding is right exactly when the diagnostic would be
      silent: if every branched-to block has a predecessor emitted before it, the contract
      holds iff all edges into a block carry each such temp alike. */
  lemma {:induction false} ContractIffCarriedAlike(f: Function)
    requires UniqueBlockIds(f.blocks) && EmittedAfterAPredecessor(f)
    ensures EdgeContract(f) <==> CarriedAlike(f)
  {
    hide OnExit, OnEntry, Crosses, Successors;
    if CarriedAlike(f) {
      forall i, j, t | 0 <= i < |f.blocks| && j in Successors(f.blocks, i) && Crosses(f, j, t)
        ensures t in OnExit(f, i) && t in OnEntry(f, j) && OnExit(f, i)[t] == OnEntry(f, j)[t]
      {
        AlikeMeetsContract(f, i, j, t);
      }
    }
  }

  lemma {:induction false} AlikeMeetsContract(f: Function, i: nat, j: nat, t: TempId)
    requires UniqueBlockIds(f.blocks) && EmittedAfterAPredecessor(f) && CarriedAlike(f)
    requires i < |f.blocks| && j in Successors(f.blocks, i) && Crosses(f, j, t)
    ensures t in OnExit(f, i) && t in OnEntry(f, j) && OnExit(f, i)[t] == OnEntry(f, j)[t]
  {
    hide OnExit, OnEntry, Threaded, LiveAt, KnownPositions;
    var k0 :| 0 <= k0 < j && j in Successors(f.blocks, k0);
    assert t in OnExit(f, k0);
    EntryValueIsCarried(f, j, t);
  }
}
