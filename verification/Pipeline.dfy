/** The back end's passes in order: the SSA checker, root population, code generation.
    What the checker guarantees is what code generation relies on. */
module Pipeline {
  import opened Ir
  import opened Cfg
  import opened Liveness
  import opened Machine
  import opened Target
  import opened Binding
  import opened Compiled
  import opened CompiledRun
  import Checker = Verify

  /** Where a definition stands in the text. */
  function TextPosition(f: Function, s: Site): nat
    requires DefinedAt(f, s).Some?
  {
    match s
    case ParamSite(k) => k
    case BlockParamSite(i, k) => |Checker.TextDefs(f, i)| + k
    case ResultSite(i, pc) => |Checker.TextDefs(f, i)| + |f.blocks[i].params| + pc
  }

  lemma DefinitionInText(f: Function, s: Site)
    requires DefinedAt(f, s).Some?
    ensures var all, x := Checker.TextDefs(f, |f.blocks|), TextPosition(f, s);
            x < |all| && all[x] == DefinedAt(f, s).value
  {
    match s
    case ParamSite(k) =>
      Checker.TextDefsPrefix(f, 0, |f.blocks|);
    case BlockParamSite(i, k) =>
      BlockDefsInText(f, i, k);
    case ResultSite(i, pc) =>
      BlockDefsInText(f, i, |f.blocks[i].params| + pc);
  }

  lemma BlockDefsInText(f: Function, i: nat, k: nat)
    requires i < |f.blocks| && k < |Checker.BlockDefs(f.blocks[i])|
    ensures var all, x := Checker.TextDefs(f, |f.blocks|), |Checker.TextDefs(f, i)| + k;
            x < |all| && all[x] == Checker.BlockDefs(f.blocks[i])[k]
  {
    Checker.TextDefsPrefix(f, i + 1, |f.blocks|);
  }

  /** A block's definitions all come before the next block's. */
  lemma {:induction false} BlocksInOrder(f: Function, i: nat, j: nat)
    requires i < j <= |f.blocks|
    ensures |Checker.TextDefs(f, i)| + |Checker.BlockDefs(f.blocks[i])| <= |Checker.TextDefs(f, j)|
    decreases j
  {
    hide Checker.BlockDefs;
    if i + 1 < j {
      BlocksInOrder(f, i, j - 1);
    }
  }

  /** The block a definition belongs to; function parameters come before all blocks. */
  function SiteBlock(s: Site): int {
    match s
    case ParamSite(_) => -1
    case BlockParamSite(i, _) => i
    case ResultSite(i, _) => i
  }

  lemma EarlierBlockEarlierText(f: Function, s1: Site, s2: Site)
    requires DefinedAt(f, s1).Some? && DefinedAt(f, s2).Some? && SiteBlock(s1) < SiteBlock(s2)
    ensures TextPosition(f, s1) < TextPosition(f, s2)
  {
    var j := SiteBlock(s2);
    if s1.ParamSite? {
      Checker.TextDefsPrefix(f, 0, j);
    } else {
      BlocksInOrder(f, SiteBlock(s1), j);
    }
  }

  /** Single assignment in the text is single assignment of sites. */
  lemma AcceptedSingleDefs(f: Function)
    requires Checker.Accepted(f)
    ensures SingleDefs(f)
  {
    hide Checker.TextDefs, Checker.ExitAccepted, Checker.RepeatsEarlierId, Checker.DefsBefore;
    forall s1, s2 | DefinedAt(f, s1).Some? && DefinedAt(f, s1) == DefinedAt(f, s2)
      ensures s1 == s2
    {
      DefinitionInText(f, s1);
      DefinitionInText(f, s2);
      assert TextPosition(f, s1) == TextPosition(f, s2);
      if SiteBlock(s1) < SiteBlock(s2) {
        EarlierBlockEarlierText(f, s1, s2);
      } else if SiteBlock(s2) < SiteBlock(s1) {
        EarlierBlockEarlierText(f, s2, s1);
      }
    }
  }

  /** No block parameter is read textually before its block. */
  lemma AcceptedReadsPhisAfter(f: Function)
    requires Checker.Accepted(f)
    ensures PhisReadAfter(f)
  {
    forall i, pc, j, k | 0 <= i < |f.blocks| && 0 <= pc <= |f.blocks[i].computations|
                         && 0 <= j < |f.blocks| && 0 <= k < |f.blocks[j].params|
                         && f.blocks[j].params[k] in BlockReads(f.blocks[i], pc)
      ensures j <= i
    {
      if i < j {
        LaterPhiNotDefined(f, i, pc, j, k);
      }
    }
  }

  lemma LaterPhiNotDefined(f: Function, i: nat, pc: nat, j: nat, k: nat)
    requires Checker.Accepted(f)
    requires i < j < |f.blocks| && pc <= |f.blocks[i].computations| && k < |f.blocks[j].params|
    ensures f.blocks[j].params[k] !in Checker.DefsBefore(f, i, pc)
  {
    hide Checker.TextDefs, Checker.ExitAccepted, Checker.RepeatsEarlierId;
    var t, all := f.blocks[j].params[k], Checker.TextDefs(f, |f.blocks|);
    BlockDefsInText(f, j, k);
    BlocksInOrder(f, i, j);
    Checker.TextDefsPrefix(f, i, |f.blocks|);
    var before := Checker.DefsBefore(f, i, pc);
    forall x | 0 <= x < |before|
      ensures before[x] != t
    {
      if x >= |Checker.TextDefs(f, i)| {
        BlockDefsInText(f, i, x - |Checker.TextDefs(f, i)|);
      }
      assert all[x] == before[x];
    }
  }

  lemma AcceptedUniqueIds(f: Function)
    requires Checker.Accepted(f)
    ensures UniqueBlockIds(f.blocks)
  {
    forall i, j | 0 <= i < j < |f.blocks|
      ensures f.blocks[i].id != f.blocks[j].id
    {
      assert !Checker.RepeatsEarlierId(f.blocks, j);
    }
  }

  /** From acceptance to running code: a function the checker accepts, whose branches bind
      nothing, whose entry needs only its parameters and is never branched to, and whose
      bindings meet the cross-block contract, compiles to code the collector cannot
      disturb. */
  lemma AcceptedCompiledTransparent(f0: Function, f: Function, env: Environment, args: seq<Val>, words: seq<Word>,
                        l: Layout,
                                    schedule: seq<Layout>)
    requires Populated(f0, f) && NoAllocRootsEmpty(f0) && Emittable(f) && UniqueTempIds(f.temps)
    requires Checker.Accepted(f) && Checker.BranchesBindNothing(f) && Checker.OnlyParamsLiveOnEntry(f)
    requires EntryFirst(f) && EdgeContract(f)
    requires |args| == |f.params| && Injective(l) && ArgsEncoded(l, words, args)
    requires TypesSoundAlong(f, env, Start(f, args), |schedule|)
    requires TStart(f, words, l).Some? ==> TLegalSchedule(CodeOf(f), env, TStart(f, words, l).value, schedule)
    ensures TStart(f, words, l).Some?
    ensures var r := RRun(f.blocks, env, Start(f, args), |schedule|);
            var t := TRun(CodeOf(f), env, TStart(f, words, l).value, schedule);
            && r.Some? && t.Some?
            && r.value.hist == t.value.hist
            && r.value.Returned? == t.value.TReturned?
            && (r.value.Returned? ==> r.value.result == t.value.result)
  {
    hide Checker.Accepted, Checker.BranchesBindNothing, Checker.OnlyParamsLiveOnEntry, Populated, NoAllocRootsEmpty,
      UniqueTempIds, EdgeContract, EntryFirst, TypesSoundAlong, TLegalSchedule, TStart, Start, RRun, TRun, CodeOf,
          OpsFit,
      SingleDefs, PhisReadAfter, UniqueBlockIds, WellFormed, BlockEmittable, Injective, Decode, StaysInCode;
    Checker.AcceptedWellFormed(f);
    AcceptedUniqueIds(f);
    AcceptedSingleDefs(f);
    AcceptedReadsPhisAfter(f);
    CompiledTransparent(f0, f, env, args, words, l, schedule);
  }
}
