/** The SSA checker: which complaints it makes, what accepting means, and what accepting
    guarantees about runs. */
module Verify {
  import opened Ir
  import opened Cfg
  import opened Machine

  datatype VerifyError =
    | UseBeforeDef(block: BlockId, temp: TempId)
    | DoubleDefine(temp: TempId)
    | DanglingBlockRef(from: BlockId, to: BlockId)
    | MissingEntry(entry: BlockId)
    | DuplicateBlockId(block: BlockId)
    | ReturnValueInUnitFn
    | MissingReturnValue
    | JumpArityMismatch(from: BlockId, to: BlockId, expected: nat, got: nat)

  /** The first block with the id. */
  function FindBlock(blocks: seq<Block>, id: BlockId): (r: Option<Block>)
    ensures r.Some? <==> exists i :: 0 <= i < |blocks| && blocks[i].id == id
    ensures r.Some? ==> r.value in blocks && r.value.id == id
  {
    if blocks == [] then None
    else if blocks[0].id == id then Some(blocks[0])
    else
      assert forall i :: 0 < i < |blocks| ==> blocks[i] == blocks[1..][i - 1];
      FindBlock(blocks[1..], id)
  }

  lemma {:induction false} FindBlockIsFirst(blocks: seq<Block>, id: BlockId, i: nat)
    requires i < |blocks| && blocks[i].id == id && forall k :: 0 <= k < i ==> blocks[k].id != id
    ensures FindBlock(blocks, id) == Some(blocks[i])
  {
    if i > 0 {
      assert blocks[0].id != id;
      FindBlockIsFirst(blocks[1..], id, i - 1);
    }
  }

  predicate HasBlock(f: Function, id: BlockId) {
    exists i :: 0 <= i < |f.blocks| && f.blocks[i].id == id
  }

  function Results(cs: seq<Computation>): (r: seq<TempId>)
    ensures |r| == |cs| && forall k :: 0 <= k < |cs| ==> r[k] == cs[k].dst
  {
    seq(|cs|, k requires 0 <= k < |cs| => cs[k].dst)
  }

  /** Everything block `b` defines, in textual order. */
  function BlockDefs(b: Block): seq<TempId> {
    b.params + Results(b.computations)
  }

  /** Everything defined textually before block `i`, in order. */
  function TextDefs(f: Function, i: nat): seq<TempId>
    requires i <= |f.blocks|
  {
    if i == 0 then f.params else TextDefs(f, i - 1) + BlockDefs(f.blocks[i - 1])
  }

  /** Everything defined textually before position `pc` of block `i`. */
  function DefsBefore(f: Function, i: nat, pc: nat): seq<TempId>
    requires i < |f.blocks| && pc <= |f.blocks[i].computations|
  {
    TextDefs(f, i) + BlockDefs(f.blocks[i])[..|f.blocks[i].params| + pc]
  }

  predicate NoRepeats(s: seq<TempId>) {
    forall i, j :: 0 <= i < j < |s| ==> s[i] != s[j]
  }

  // ----- the complaints -----

  predicate HeaderFault(f: Function, e: VerifyError) {
    match e
    case MissingEntry(entry) => entry == f.entry && !HasBlock(f, entry)
    case DuplicateBlockId(id) => exists j ::
        0 <= j < |f.blocks| && f.blocks[j].id == id && RepeatsEarlierId(f.blocks, j)
    case DoubleDefine(t) => exists k :: 0 <= k < |f.params| && f.params[k] == t && t in f.params[..k]
    case _ => false
  }

  predicate RepeatsEarlierId(blocks: seq<Block>, j: nat)
    requires j < |blocks|
  {
    exists i :: 0 <= i < j && blocks[i].id == blocks[j].id
  }

  predicate ReadFault(f: Function, i: nat, pc: nat, t: TempId)
    requires i < |f.blocks| && pc <= |f.blocks[i].computations|
  {
    t in BlockReads(f.blocks[i], pc) && t !in DefsBefore(f, i, pc)
  }

  predicate DefFault(f: Function, i: nat, k: nat)
    requires i < |f.blocks| && k < |BlockDefs(f.blocks[i])|
  {
    BlockDefs(f.blocks[i])[k] in TextDefs(f, i) + BlockDefs(f.blocks[i])[..k]
  }

  /** Complaints about the terminator other than early uses. */
  predicate ExitFault(f: Function, i: nat, e: VerifyError)
    requires i < |f.blocks|
  {
    var b := f.blocks[i];
    match e
    case DanglingBlockRef(from, to) => from == b.id && to in b.terminator.Targets() && !HasBlock(f, to)
    case ReturnValueInUnitFn => b.terminator.Return? && b.terminator.result.Some? && f.returnType == Unit
    case MissingReturnValue => b.terminator.Return? && b.terminator.result.None? && f.returnType != Unit
    case JumpArityMismatch(from, to, expected, got) =>
      && from == b.id && b.terminator.Jump? && b.terminator.target == to && got == |b.terminator.args|
      && FindBlock(f.blocks, to).Some? && expected == |FindBlock(f.blocks, to).value.params| && expected != got
    case _ => false
  }

  predicate BlockFault(f: Function, i: nat, e: VerifyError)
    requires i < |f.blocks|
  {
    || (e.UseBeforeDef? && e.block == f.blocks[i].id
        && exists pc :: 0 <= pc <= |f.blocks[i].computations| && ReadFault(f, i, pc, e.temp))
    || (e.DoubleDefine?
        && exists k :: 0 <= k < |BlockDefs(f.blocks[i])| && BlockDefs(f.blocks[i])[k] == e.temp && DefFault(f, i, k))
    || ExitFault(f, i, e)
  }

  predicate IsFault(f: Function, e: VerifyError) {
    HeaderFault(f, e) || exists i :: 0 <= i < |f.blocks| && BlockFault(f, i, e)
  }

  /** What accepting means: textual single assignment with definitions before uses, every
      target present, arguments matching parameters, and returns matching the type. */
  predicate Accepted(f: Function) {
    && (forall j :: 0 <= j < |f.blocks| ==> !RepeatsEarlierId(f.blocks, j))
    && HasBlock(f, f.entry)
    && NoRepeats(TextDefs(f, |f.blocks|))
    && (forall i, pc, t | 0 <= i < |f.blocks| && 0 <= pc <= |f.blocks[i].computations|
                          && t in BlockReads(f.blocks[i], pc) :: t in DefsBefore(f, i, pc))
    && (forall i :: 0 <= i < |f.blocks| ==> ExitAccepted(f, i))
  }

  predicate ExitAccepted(f: Function, i: nat)
    requires i < |f.blocks|
  {
    var term := f.blocks[i].terminator;
    && (forall to :: to in term.Targets() ==> HasBlock(f, to))
    && (term.Return? ==> (term.result.Some? <==> f.returnType != Unit))
    && (term.Jump? && FindBlock(f.blocks, term.target).Some? ==>
          |FindBlock(f.blocks, term.target).value.params| == |term.args|)
  }

  lemma {:induction false} RepeatsInTextDefs(f: Function, n: nat)
    requires n <= |f.blocks|
    requires forall k :: 0 <= k < |f.params| ==> f.params[k] !in f.params[..k]
    requires forall i :: 0 <= i < n ==> NoDefFaultIn(f, i)
    ensures NoRepeats(TextDefs(f, n))
  {
    if n > 0 {
      RepeatsInTextDefs(f, n - 1);
      var before, defs := TextDefs(f, n - 1), BlockDefs(f.blocks[n - 1]);
      assert NoDefFaultIn(f, n - 1);
      forall i, j | 0 <= i < j < |before + defs|
        ensures (before + defs)[i] != (before + defs)[j]
      {
        if j >= |before| {
          assert !DefFault(f, n - 1, j - |before|);
          assert (before + defs[..j - |before|])[i] in before + defs[..j - |before|];
        }
      }
    }
  }

  predicate NoDefFaultIn(f: Function, i: nat)
    requires i < |f.blocks|
  {
    forall k :: 0 <= k < |BlockDefs(f.blocks[i])| ==> !DefFault(f, i, k)
  }

  lemma {:induction false} TextDefsPrefix(f: Function, i: nat, n: nat)
    requires i <= n <= |f.blocks|
    ensures TextDefs(f, i) <= TextDefs(f, n)
    decreases n
  {
    if i < n {
      TextDefsPrefix(f, i, n - 1);
    }
  }

  lemma DefFaultIsRepeat(f: Function, i: nat, k: nat)
    requires i < |f.blocks| && k < |BlockDefs(f.blocks[i])| && DefFault(f, i, k)
    ensures !NoRepeats(TextDefs(f, |f.blocks|))
  {
    TextDefsPrefix(f, i + 1, |f.blocks|);
    var all, before, defs := TextDefs(f, |f.blocks|), TextDefs(f, i), BlockDefs(f.blocks[i]);
    assert before + defs <= all;
    var j :| 0 <= j < |before + defs[..k]| && (before + defs[..k])[j] == defs[k];
    assert all[j] == (before + defs)[j] && all[|before| + k] == (before + defs)[|before| + k];
  }

  lemma ParamRepeatIsRepeat(f: Function, k: nat)
    requires k < |f.params| && f.params[k] in f.params[..k]
    ensures !NoRepeats(TextDefs(f, |f.blocks|))
  {
    TextDefsPrefix(f, 0, |f.blocks|);
    var all := TextDefs(f, |f.blocks|);
    var j :| 0 <= j < k && f.params[j] == f.params[k];
    assert all[j] == f.params[j] && all[k] == f.params[k];
  }

  /** Nothing to complain about exactly when the function is accepted. */
  lemma NoFaultIffAccepted(f: Function)
    ensures (forall e :: !IsFault(f, e)) <==> Accepted(f)
  {
    if forall e :: !IsFault(f, e) {
      NoFaultAccepted(f);
    }
    if Accepted(f) {
      forall e
        ensures !IsFault(f, e)
      {
        AcceptedNoFault(f, e);
      }
    }
  }

  lemma NoFaultAccepted(f: Function)
    requires forall e :: !IsFault(f, e)
    ensures Accepted(f)
  {
    forall j | 0 <= j < |f.blocks|
      ensures !RepeatsEarlierId(f.blocks, j)
    {
      assert !HeaderFault(f, DuplicateBlockId(f.blocks[j].id)) by {
        assert !IsFault(f, DuplicateBlockId(f.blocks[j].id));
      }
    }
    assert !IsFault(f, MissingEntry(f.entry));
    forall k | 0 <= k < |f.params|
      ensures f.params[k] !in f.params[..k]
    {
      assert !IsFault(f, DoubleDefine(f.params[k]));
    }
    forall i | 0 <= i < |f.blocks|
      ensures NoDefFaultIn(f, i)
    {
      forall k | 0 <= k < |BlockDefs(f.blocks[i])|
        ensures !DefFault(f, i, k)
      {
        assert !BlockFault(f, i, DoubleDefine(BlockDefs(f.blocks[i])[k])) by {
          assert !IsFault(f, DoubleDefine(BlockDefs(f.blocks[i])[k]));
        }
      }
    }
    RepeatsInTextDefs(f, |f.blocks|);
    forall i, pc, t | 0 <= i < |f.blocks| && 0 <= pc <= |f.blocks[i].computations| && t in BlockReads(f.blocks[i], pc)
      ensures t in DefsBefore(f, i, pc)
    {
      assert !BlockFault(f, i, UseBeforeDef(f.blocks[i].id, t)) by {
        assert !IsFault(f, UseBeforeDef(f.blocks[i].id, t));
      }
      assert !ReadFault(f, i, pc, t);
    }
    forall i | 0 <= i < |f.blocks|
      ensures ExitAccepted(f, i)
    {
      NoExitFault(f, i);
    }
  }

  lemma NoExitFault(f: Function, i: nat)
    requires i < |f.blocks| && forall e :: !IsFault(f, e)
    ensures ExitAccepted(f, i)
  {
    var b := f.blocks[i];
    forall to | to in b.terminator.Targets()
      ensures HasBlock(f, to)
    {
      assert !BlockFault(f, i, DanglingBlockRef(b.id, to)) by {
        assert !IsFault(f, DanglingBlockRef(b.id, to));
      }
    }
    match b.terminator
    case Return(_) =>
      assert !IsFault(f, ReturnValueInUnitFn) && !IsFault(f, MissingReturnValue);
      assert !BlockFault(f, i, ReturnValueInUnitFn) && !BlockFault(f, i, MissingReturnValue);
    case If(_, _, _) =>
    case Jump(to, args) =>
      if FindBlock(f.blocks, to).Some? {
        var e := JumpArityMismatch(b.id, to, |FindBlock(f.blocks, to).value.params|, |args|);
        assert !IsFault(f, e);
        assert !BlockFault(f, i, e);
      }
  }

  lemma AcceptedNoFault(f: Function, e: VerifyError)
    requires Accepted(f)
    ensures !IsFault(f, e)
  {
    if e.DoubleDefine? {
      if k :| 0 <= k < |f.params| && f.params[k] == e.temp && e.temp in f.params[..k] {
        ParamRepeatIsRepeat(f, k);
      }
    }
    forall i | 0 <= i < |f.blocks|
      ensures !BlockFault(f, i, e)
    {
      assert ExitAccepted(f, i);
      if k :| 0 <= k < |BlockDefs(f.blocks[i])| && DefFault(f, i, k) {
        DefFaultIsRepeat(f, i, k);
      }
    }
  }

  // ----- distinct ids -----

  lemma {:induction false} DistinctIdsCount(blocks: seq<Block>)
    ensures (forall j :: 0 <= j < |blocks| ==> !RepeatsEarlierId(blocks, j)) <==>
            |set b | b in blocks :: b.id| == |blocks|
    ensures |set b | b in blocks :: b.id| <= |blocks|
  {
    if blocks != [] {
      var n := |blocks| - 1;
      var front, last := blocks[..n], blocks[n];
      DistinctIdsCount(front);
      var ids, frontIds := set b | b in blocks :: b.id, set b | b in front :: b.id;
      assert blocks == front + [last];
      assert ids == frontIds + {last.id};
      LastRepeats(front, last);
      FrontRepeats(front, last);
      hide RepeatsEarlierId;
      assert forall j :: 0 <= j < n ==> (RepeatsEarlierId(front, j) <==> RepeatsEarlierId(blocks, j));
    }
  }

  lemma FrontRepeats(front: seq<Block>, last: Block)
    ensures forall j :: 0 <= j < |front| ==> (RepeatsEarlierId(front, j) <==> RepeatsEarlierId(front + [last], j))
  {
    assert forall i :: 0 <= i < |front| ==> front[i] == (front + [last])[i];
  }

  lemma LastRepeats(front: seq<Block>, last: Block)
    ensures RepeatsEarlierId(front + [last], |front|) <==> last.id in set b | b in front :: b.id
  {
    var blocks := front + [last];
    if b :| b in front && b.id == last.id {
      var i :| 0 <= i < |front| && front[i] == b;
      assert blocks[i].id == blocks[|front|].id;
    }
    if i :| 0 <= i < |front| && blocks[i].id == blocks[|front|].id {
      assert front[i] in front;
    }
  }

  // ----- the complaints, in the order they are made -----

  function DuplicateIds(blocks: seq<Block>, n: nat): seq<VerifyError>
    requires n <= |blocks|
  {
    if n == 0 then []
    else DuplicateIds(blocks, n - 1) + if RepeatsEarlierId(blocks, n - 1) then [DuplicateBlockId(blocks[n - 1].id)]
        else []
  }

  /** Of the first `n` definitions, those that repeat something defined before. */
  function Repeats(before: seq<TempId>, defs: seq<TempId>, n: nat): seq<VerifyError>
    requires n <= |defs|
  {
    if n == 0 then []
    else Repeats(before, defs, n - 1) + if defs[n - 1] in before + defs[..n - 1] then [DoubleDefine(defs[n - 1])]
        else []
  }

  /** Of the first `n` reads, those not yet defined. */
  function EarlyUses(id: BlockId, used: seq<TempId>, n: nat, defined: seq<TempId>): seq<VerifyError>
    requires n <= |used|
  {
    if n == 0 then []
    else EarlyUses(id, used, n - 1, defined) + if used[n - 1] !in defined then [UseBeforeDef(id, used[n - 1])] else []
  }

  /** A computation's reads come before its result. */
  function ComputationComplaints(f: Function, i: nat, pc: nat): seq<VerifyError>
    requires i < |f.blocks| && pc < |f.blocks[i].computations|
  {
    var c, before := f.blocks[i].computations[pc], DefsBefore(f, i, pc);
    EarlyUses(f.blocks[i].id, c.Operands(), |c.Operands()|, before) + if c.dst in before then [DoubleDefine(c.dst)]
        else []
  }

  function BodyComplaints(f: Function, i: nat, n: nat): seq<VerifyError>
    requires i < |f.blocks| && n <= |f.blocks[i].computations|
  {
    if n == 0 then [] else BodyComplaints(f, i, n - 1) + ComputationComplaints(f, i, n - 1)
  }

  function Dangling(f: Function, from: BlockId, to: BlockId): seq<VerifyError> {
    if HasBlock(f, to) then [] else [DanglingBlockRef(from, to)]
  }

  function ExitComplaints(f: Function, i: nat): seq<VerifyError>
    requires i < |f.blocks|
  {
    var b := f.blocks[i];
    var used := b.terminator.Uses();
    var early := EarlyUses(b.id, used, |used|, DefsBefore(f, i, |b.computations|));
    match b.terminator
    case Return(Some(_)) => early + if f.returnType == Unit then [ReturnValueInUnitFn] else []
    case Return(None) => early + if f.returnType != Unit then [MissingReturnValue] else []
    case If(_, t, e) => early + Dangling(f, b.id, t) + Dangling(f, b.id, e)
    case Jump(t, args) =>
      Dangling(f, b.id, t) + early
      + match FindBlock(f.blocks, t)
        case None => []
        case Some(target) =>
          if |target.params| != |args| then [JumpArityMismatch(b.id, t, |target.params|, |args|)] else []
  }

  function BlockComplaints(f: Function, i: nat): seq<VerifyError>
    requires i < |f.blocks|
  {
    var b := f.blocks[i];
    Repeats(TextDefs(f, i), b.params, |b.params|) + BodyComplaints(f, i, |b.computations|) + ExitComplaints(f, i)
  }

  function BlocksComplaints(f: Function, n: nat): seq<VerifyError>
    requires n <= |f.blocks|
  {
    if n == 0 then [] else BlocksComplaints(f, n - 1) + BlockComplaints(f, n - 1)
  }

  function HeaderComplaints(f: Function): seq<VerifyError> {
    DuplicateIds(f.blocks, |f.blocks|)
    + (if HasBlock(f, f.entry) then [] else [MissingEntry(f.entry)])
    + Repeats([], f.params, |f.params|)
  }

  function Complaints(f: Function): seq<VerifyError> {
    HeaderComplaints(f) + BlocksComplaints(f, |f.blocks|)
  }

  // ----- they are the faults -----

  lemma {:induction false} DuplicateIdsAre(blocks: seq<Block>, n: nat, e: VerifyError)
    requires n <= |blocks|
    ensures e in DuplicateIds(blocks, n) <==>
              e.DuplicateBlockId? && exists j :: 0 <= j < n && blocks[j].id == e.block && RepeatsEarlierId(blocks, j)
  {
    if n > 0 {
      DuplicateIdsAre(blocks, n - 1, e);
    }
  }

  lemma {:induction false} RepeatsAre(before: seq<TempId>, defs: seq<TempId>, n: nat, e: VerifyError)
    requires n <= |defs|
    ensures e in Repeats(before, defs, n) <==>
              e.DoubleDefine? && exists k :: 0 <= k < n && defs[k] == e.temp && e.temp in before + defs[..k]
  {
    if n > 0 {
      RepeatsAre(before, defs, n - 1, e);
    }
  }

  lemma {:induction false} EarlyUsesAre(id: BlockId, used: seq<TempId>, n: nat, defined: seq<TempId>, e: VerifyError)
    requires n <= |used|
    ensures e in EarlyUses(id, used, n, defined) <==>
              e.UseBeforeDef? && e.block == id && e.temp in used[..n] && e.temp !in defined
  {
    if n > 0 {
      EarlyUsesAre(id, used, n - 1, defined, e);
      assert used[..n] == used[..n - 1] + [used[n - 1]];
    }
  }

  /** A fault among the first `n` computations of block `i`. */
  predicate BodyFault(f: Function, i: nat, n: nat, e: VerifyError)
    requires i < |f.blocks| && n <= |f.blocks[i].computations|
  {
    || (e.UseBeforeDef? && e.block == f.blocks[i].id
        && exists pc :: 0 <= pc < n && ReadFault(f, i, pc, e.temp))
    || (e.DoubleDefine?
        && exists k :: |f.blocks[i].params| <= k < |f.blocks[i].params| + n
                       && BlockDefs(f.blocks[i])[k] == e.temp && DefFault(f, i, k))
  }

  lemma ComputationComplaintsAre(f: Function, i: nat, pc: nat, e: VerifyError)
    requires i < |f.blocks| && pc < |f.blocks[i].computations|
    ensures e in ComputationComplaints(f, i, pc) <==>
              || (e.UseBeforeDef? && e.block == f.blocks[i].id && ReadFault(f, i, pc, e.temp))
              || (e.DoubleDefine? && BlockDefs(f.blocks[i])[|f.blocks[i].params| + pc] == e.temp
                  && DefFault(f, i, |f.blocks[i].params| + pc))
  {
    hide EarlyUses, TextDefs;
    var b := f.blocks[i];
    var used := b.computations[pc].Operands();
    EarlyUsesAre(b.id, used, |used|, DefsBefore(f, i, pc), e);
    assert used[..|used|] == used && BlockReads(b, pc) == used;
    assert BlockDefs(b)[|b.params| + pc] == b.computations[pc].dst;
  }

  lemma {:induction false} BodyComplaintsAre(f: Function, i: nat, n: nat, e: VerifyError)
    requires i < |f.blocks| && n <= |f.blocks[i].computations|
    ensures e in BodyComplaints(f, i, n) <==> BodyFault(f, i, n, e)
  {
    hide ReadFault, DefFault, BlockDefs, ComputationComplaints;
    if n > 0 {
      BodyComplaintsAre(f, i, n - 1, e);
      ComputationComplaintsAre(f, i, n - 1, e);
    }
  }

  lemma ExitComplaintsAre(f: Function, i: nat, e: VerifyError)
    requires i < |f.blocks|
    ensures e in ExitComplaints(f, i) <==>
              || ExitFault(f, i, e)
              || (e.UseBeforeDef? && e.block == f.blocks[i].id && ReadFault(f, i, |f.blocks[i].computations|, e.temp))
  {
    hide EarlyUses, TextDefs, DefsBefore, FindBlock, HasBlock;
    var b := f.blocks[i];
    var used := b.terminator.Uses();
    EarlyUsesAre(b.id, used, |used|, DefsBefore(f, i, |b.computations|), e);
    assert used[..|used|] == used && BlockReads(b, |b.computations|) == used;
  }

  lemma BlockComplaintsAre(f: Function, i: nat, e: VerifyError)
    requires i < |f.blocks|
    ensures e in BlockComplaints(f, i) <==> BlockFault(f, i, e)
  {
    hide Repeats, BodyComplaints, ExitComplaints, TextDefs, ExitFault, ReadFault;
    var b := f.blocks[i];
    RepeatsAre(TextDefs(f, i), b.params, |b.params|, e);
    if e.DoubleDefine? {
      ParamRepeats(f, i, e);
    }
    BodyComplaintsAre(f, i, |b.computations|, e);
    ExitComplaintsAre(f, i, e);
  }

  /** A block parameter that repeats something is a definition that does. */
  lemma ParamRepeats(f: Function, i: nat, e: VerifyError)
    requires i < |f.blocks| && e.DoubleDefine?
    ensures var b := f.blocks[i];
            (exists k :: 0 <= k < |b.params| && b.params[k] == e.temp && e.temp in TextDefs(f, i) + b.params[..k]) <==>
            (exists k :: 0 <= k < |b.params| && BlockDefs(b)[k] == e.temp && DefFault(f, i, k))
  {
    hide TextDefs;
    var b := f.blocks[i];
    forall k | 0 <= k < |b.params|
      ensures BlockDefs(b)[k] == b.params[k] && BlockDefs(b)[..k] == b.params[..k]
    {
    }
  }

  lemma {:induction false} BlocksComplaintsAre(f: Function, n: nat, e: VerifyError)
    requires n <= |f.blocks|
    ensures e in BlocksComplaints(f, n) <==> exists i :: 0 <= i < n && BlockFault(f, i, e)
  {
    hide BlockFault, BlockComplaints;
    if n > 0 {
      BlocksComplaintsAre(f, n - 1, e);
      BlockComplaintsAre(f, n - 1, e);
    }
  }

  lemma HeaderComplaintsAre(f: Function, e: VerifyError)
    ensures e in HeaderComplaints(f) <==> HeaderFault(f, e)
  {
    hide DuplicateIds, Repeats, HasBlock, RepeatsEarlierId;
    DuplicateIdsAre(f.blocks, |f.blocks|, e);
    RepeatsAre([], f.params, |f.params|, e);
    assert forall k :: 0 <= k < |f.params| ==> [] + f.params[..k] == f.params[..k];
  }

  /** The complaints made are exactly the faults there are. */
  lemma {:induction false} ComplaintsAreFaults(f: Function, e: VerifyError)
    ensures e in Complaints(f) <==> IsFault(f, e)
  {
    hide HeaderComplaints, HeaderFault, BlocksComplaints, BlockFault;
    HeaderComplaintsAre(f, e);
    BlocksComplaintsAre(f, |f.blocks|, e);
  }

  // ----- the checker -----

  /** Looks for repeats only when there are fewer ids than blocks. */
  method CheckIds(f: Function) returns (errs: seq<VerifyError>)
    ensures errs == DuplicateIds(f.blocks, |f.blocks|)
  {
    errs := [];
    var ids := set b | b in f.blocks :: b.id;
    DistinctIdsCount(f.blocks);
    if |ids| != |f.blocks| {
      var seen: set<BlockId> := {};
      for j := 0 to |f.blocks|
        invariant forall id :: id in seen <==> exists i :: 0 <= i < j && f.blocks[i].id == id
        invariant errs == DuplicateIds(f.blocks, j)
      {
        if f.blocks[j].id in seen {
          errs := errs + [DuplicateBlockId(f.blocks[j].id)];
        }
        seen := seen + {f.blocks[j].id};
      }
    } else {
      NoDuplicateIds(f.blocks, |f.blocks|);
    }
  }

  lemma {:induction false} NoDuplicateIds(blocks: seq<Block>, n: nat)
    requires n <= |blocks| && forall j :: 0 <= j < |blocks| ==> !RepeatsEarlierId(blocks, j)
    ensures DuplicateIds(blocks, n) == []
  {
    if n > 0 {
      NoDuplicateIds(blocks, n - 1);
    }
  }

  /** Defines the temps in order, complaining of repeats. */
  method Define(ghost before: seq<TempId>, defs: seq<TempId>, defined: set<TempId>)
    returns (defined': set<TempId>, errs: seq<VerifyError>)
    requires forall t :: t in defined <==> t in before
    ensures forall t :: t in defined' <==> t in before + defs
    ensures errs == Repeats(before, defs, |defs|)
  {
    defined', errs := defined, [];
    for k := 0 to |defs|
      invariant forall t :: t in defined' <==> t in before + defs[..k]
      invariant errs == Repeats(before, defs, k)
    {
      if defs[k] in defined' {
        errs := errs + [DoubleDefine(defs[k])];
      }
      defined' := defined' + {defs[k]};
      assert defs[..k + 1] == defs[..k] + [defs[k]];
    }
    assert defs[..|defs|] == defs;
  }

  /** Complains of each temp read that is not yet defined. */
  method Use(id: BlockId, used: seq<TempId>, ghost before: seq<TempId>, defined: set<TempId>)
    returns (errs: seq<VerifyError>)
    requires forall t :: t in defined <==> t in before
    ensures errs == EarlyUses(id, used, |used|, before)
  {
    errs := [];
    for k := 0 to |used|
      invariant errs == EarlyUses(id, used, k, before)
    {
      if used[k] !in defined {
        errs := errs + [UseBeforeDef(id, used[k])];
      }
    }
  }

  /** The terminator: a value is looked at before the targets, a jump's arguments after its
      target and before their number. */
  method CheckExit(f: Function, i: nat, defined: set<TempId>) returns (errs: seq<VerifyError>)
    requires i < |f.blocks| && forall t :: t in defined <==> t in DefsBefore(f, i, |f.blocks[i].computations|)
    ensures errs == ExitComplaints(f, i)
  {
    hide EarlyUses, DefsBefore, FindBlock, HasBlock;
    var b := f.blocks[i];
    ghost var before := DefsBefore(f, i, |b.computations|);
    match b.terminator {
      case Return(Some(_)) =>
        errs := Use(b.id, b.terminator.Uses(), before, defined);
        if f.returnType == Unit {
          errs := errs + [ReturnValueInUnitFn];
        }
      case Return(None) =>
        NoEarlyUses(b.id, before);
        errs := [];
        if f.returnType != Unit {
          errs := errs + [MissingReturnValue];
        }
      case If(_, t, e) =>
        errs := Use(b.id, b.terminator.Uses(), before, defined);
        if !HasBlock(f, t) {
          errs := errs + [DanglingBlockRef(b.id, t)];
        }
        if !HasBlock(f, e) {
          errs := errs + [DanglingBlockRef(b.id, e)];
        }
      case Jump(t, args) =>
        errs := [];
        if !HasBlock(f, t) {
          errs := errs + [DanglingBlockRef(b.id, t)];
        }
        var early := Use(b.id, args, before, defined);
        errs := errs + early;
        match FindBlock(f.blocks, t) {
          case None =>
          case Some(target) =>
            if |target.params| != |args| {
              errs := errs + [JumpArityMismatch(b.id, t, |target.params|, |args|)];
            }
        }
    }
  }

  lemma NoEarlyUses(id: BlockId, before: seq<TempId>)
    ensures EarlyUses(id, [], 0, before) == []
  {
  }

  /** Walks the computations of block `i`: each one's reads, then its result. */
  method CheckComputations(f: Function, i: nat, defined: set<TempId>)
    returns (defined': set<TempId>, errs: seq<VerifyError>)
    requires i < |f.blocks|
    requires forall t :: t in defined <==> t in DefsBefore(f, i, 0)
    ensures forall t :: t in defined' <==> t in DefsBefore(f, i, |f.blocks[i].computations|)
    ensures errs == BodyComplaints(f, i, |f.blocks[i].computations|)
  {
    hide EarlyUses, TextDefs;
    var b := f.blocks[i];
    defined', errs := defined, [];
    for pc := 0 to |b.computations|
      invariant forall t :: t in defined' <==> t in DefsBefore(f, i, pc)
      invariant errs == BodyComplaints(f, i, pc)
    {
      var c := b.computations[pc];
      var early := Use(b.id, c.Operands(), DefsBefore(f, i, pc), defined');
      ghost var so := errs;
      errs := errs + early;
      if c.dst in defined' {
        errs := errs + [DoubleDefine(c.dst)];
      }
      assert errs == so + ComputationComplaints(f, i, pc);
      DefinedNext(f, i, pc);
      defined' := defined' + {c.dst};
    }
  }

  lemma DefinedNext(f: Function, i: nat, pc: nat)
    requires i < |f.blocks| && pc < |f.blocks[i].computations|
    ensures DefsBefore(f, i, pc + 1) == DefsBefore(f, i, pc) + [f.blocks[i].computations[pc].dst]
  {
    hide TextDefs;
    var all, k := BlockDefs(f.blocks[i]), |f.blocks[i].params| + pc;
    assert all[k] == f.blocks[i].computations[pc].dst && all[..k + 1] == all[..k] + [all[k]];
  }

  /** One block: parameters, then computations, then the exit. */
  method CheckBlock(f: Function, i: nat, defined: set<TempId>) returns (defined': set<TempId>, errs: seq<VerifyError>)
    requires i < |f.blocks|
    requires forall t :: t in defined <==> t in TextDefs(f, i)
    ensures forall t :: t in defined' <==> t in TextDefs(f, i + 1)
    ensures errs == BlockComplaints(f, i)
  {
    hide Repeats, BodyComplaints, ExitComplaints;
    var b := f.blocks[i];
    assert BlockDefs(b)[..|b.params|] == b.params && BlockDefs(b)[..|BlockDefs(b)|] == BlockDefs(b);
    var bodyErrs, exitErrs;
    defined', errs := Define(TextDefs(f, i), b.params, defined);
    defined', bodyErrs := CheckComputations(f, i, defined');
    exitErrs := CheckExit(f, i, defined');
    errs := errs + bodyErrs + exitErrs;
  }

  /** Reports the faults in the order of the text; accepts exactly the functions that have
      none. */
  method Verify(f: Function) returns (errs: seq<VerifyError>)
    ensures errs == Complaints(f)
    ensures forall e :: e in errs <==> IsFault(f, e)
    ensures errs == [] <==> Accepted(f)
  {
    hide BlockFault, HeaderFault, BlockComplaints, DuplicateIds, Repeats, HasBlock;
    errs := CheckIds(f);
    if !HasBlock(f, f.entry) {
      errs := errs + [MissingEntry(f.entry)];
    }
    var defined, paramErrs := Define([], f.params, {});
    assert [] + f.params == f.params;
    errs := errs + paramErrs;
    ghost var header := errs;
    for i := 0 to |f.blocks|
      invariant forall t :: t in defined <==> t in TextDefs(f, i)
      invariant errs == header + BlocksComplaints(f, i)
    {
      var blockErrs;
      defined, blockErrs := CheckBlock(f, i, defined);
      errs := errs + blockErrs;
    }
    forall e
      ensures e in errs <==> IsFault(f, e)
    {
      ComplaintsAreFaults(f, e);
    }
    NoFaultIffAccepted(f);
    assert errs != [] ==> errs[0] in errs;
  }

  // ----- what accepting guarantees -----

  ghost predicate BranchesBindNothing(f: Function) {
    forall i, id | 0 <= i < |f.blocks| && f.blocks[i].terminator.If? && id in f.blocks[i].terminator.Targets() ::
      BlockAt(f.blocks, id).Some? ==> f.blocks[BlockAt(f.blocks, id).value].params == []
  }

  ghost predicate OnlyParamsLiveOnEntry(f: Function) {
    BlockAt(f.blocks, f.entry).Some? ==>
      forall t :: LiveAt(f.blocks, Point(BlockAt(f.blocks, f.entry).value, 0), t) ==> t in f.params
  }

  lemma LookupsAgree(blocks: seq<Block>, id: BlockId)
    requires forall j :: 0 <= j < |blocks| ==> !RepeatsEarlierId(blocks, j)
    requires FindBlock(blocks, id).Some?
    ensures BlockAt(blocks, id).Some? && FindBlock(blocks, id) == Some(blocks[BlockAt(blocks, id).value])
  {
    IdToIdxFinds(blocks, id);
    var j :| 0 <= j < |blocks| && blocks[j] == FindBlock(blocks, id).value;
    var i := IdToIdx(blocks)[id];
    assert j < i ==> RepeatsEarlierId(blocks, i);
  }

  lemma AcceptedLookups(f: Function, id: BlockId)
    requires Accepted(f) && HasBlock(f, id)
    ensures BlockAt(f.blocks, id).Some? && FindBlock(f.blocks, id) == Some(f.blocks[BlockAt(f.blocks, id).value])
  {
    LookupsAgree(f.blocks, id);
  }

  /** Acceptance lacks exactly two things a run needs. */
  lemma {:induction false} AcceptedWellFormed(f: Function)
    requires Accepted(f)
    ensures WellFormed(f) <==> BranchesBindNothing(f) && OnlyParamsLiveOnEntry(f)
  {
    hide LiveAt, IdToIdx, ExitAccepted;
    AcceptedLookups(f, f.entry);
    if BranchesBindNothing(f) && OnlyParamsLiveOnEntry(f) {
      forall i | 0 <= i < |f.blocks|
        ensures TerminatorFits(f.blocks, f.blocks[i].terminator)
      {
        AcceptedExitFits(f, i);
      }
    }
    if WellFormed(f) {
      forall i, id | 0 <= i < |f.blocks| && f.blocks[i].terminator.If? && id in f.blocks[i].terminator.Targets()
        ensures BlockAt(f.blocks, id).Some? && f.blocks[BlockAt(f.blocks, id).value].params == []
      {
        assert TerminatorFits(f.blocks, f.blocks[i].terminator);
      }
    }
  }

  lemma AcceptedExitFits(f: Function, i: nat)
    requires Accepted(f) && BranchesBindNothing(f) && i < |f.blocks|
    ensures TerminatorFits(f.blocks, f.blocks[i].terminator)
  {
    assert ExitAccepted(f, i);
    forall id | id in f.blocks[i].terminator.Targets()
      ensures BlockAt(f.blocks, id).Some? && FindBlock(f.blocks, id) == Some(f.blocks[BlockAt(f.blocks, id).value])
    {
      AcceptedLookups(f, id);
    }
    match f.blocks[i].terminator
    case Return(_) =>
    case If(_, a, b) =>
      assert a in f.blocks[i].terminator.Targets() && b in f.blocks[i].terminator.Targets();
    case Jump(a, _) =>
      assert a in f.blocks[i].terminator.Targets();
  }

  /** Both arms of the branch go to a block that has a parameter. */
  function BranchToParam(): Function {
    Function(0, "f", [0], 0,
             [Block(0, "entry", [], [], If(0, 1, 1)),
              Block(1, "join0", [1], [], Return(Some(1)))], [], Top)
  }

  lemma BranchToParamAccepted()
    ensures Accepted(BranchToParam())
  {
    hide LiveAt, IdToIdx, ExitAccepted, FindBlock, TextDefs, DefsBefore;
    var f := BranchToParam();
    BranchToParamDefs();
    BranchToParamExits();
    assert f.blocks[0].id == 0 && f.blocks[1].id == 1;
  }

  lemma BranchToParamDefs()
    ensures var f := BranchToParam();
            TextDefs(f, 2) == [0, 1] && DefsBefore(f, 0, 0) == [0] && DefsBefore(f, 1, 0) == [0, 1]
  {
    var f := BranchToParam();
    assert BlockDefs(f.blocks[0]) == [] && BlockDefs(f.blocks[1]) == [1];
    assert TextDefs(f, 0) == [0] && TextDefs(f, 1) == [0];
  }

  lemma BranchToParamExits()
    ensures forall i :: 0 <= i < 2 ==> ExitAccepted(BranchToParam(), i)
  {
    hide FindBlock;
    assert BranchToParam().blocks[1].id == 1;
    assert HasBlock(BranchToParam(), 1);
  }

  /** The other gap: acceptance lets a branch enter a block that has parameters, and any run
      stops there, even though only parameters are live on entry. */
  lemma BranchToParamStops()
    ensures var f, env := BranchToParam(), Environment(0, (h, p, vs) => Imm(0));
            && Accepted(f) && OnlyParamsLiveOnEntry(f) && !BranchesBindNothing(f) && BlockAt(f.blocks, f.entry).Some?
            && forall v :: RRun(f.blocks, env, Start(f, [v]), 1).None?
  {
    BranchToParamAccepted();
    var f, env := BranchToParam(), Environment(0, (h, p, vs) => Imm(0));
    assert f.blocks[0].id == 0 && f.blocks[1].id == 1;
    IdToIdxFinds(f.blocks, 0);
    IdToIdxFinds(f.blocks, 1);
    forall t | LiveAt(f.blocks, Point(0, 0), t)
      ensures t in f.params
    {
      BranchToParamLive(t);
    }
    BranchToParamBinds();
    forall v
      ensures RRun(f.blocks, env, Start(f, [v]), 1).None?
    {
      var s := Start(f, [v]);
      assert s.at == Point(0, 0) && s.vals[0] == v;
      assert RStep(f.blocks, env, s).None?;
    }
  }

  lemma BranchToParamBinds()
    ensures !BranchesBindNothing(BranchToParam())
  {
    hide IdToIdx;
    var f := BranchToParam();
    var id: BlockId := 1;
    assert f.blocks[1].id == id;
    IdToIdxFinds(f.blocks, id);
    assert BlockAt(f.blocks, id) == Some(1);
    assert f.blocks[0].terminator.Targets() == [1, 1];
    assert id in f.blocks[0].terminator.Targets();
    assert f.blocks[BlockAt(f.blocks, id).value].params != [];
  }

  lemma BranchToParamLive(t: TempId)
    ensures LiveAt(BranchToParam().blocks, Point(0, 0), t) ==> t == 0
  {
    hide LiveAt, Successors;
    LiveAtTerminator(BranchToParam().blocks, 0, t);
    LiveAtTerminator(BranchToParam().blocks, 1, t);
    BranchToParamSuccessors();
  }

  lemma BranchToParamSuccessors()
    ensures Successors(BranchToParam().blocks, 0) == [1, 1] && Successors(BranchToParam().blocks, 1) == []
  {
    hide IdToIdx;
    var blocks := BranchToParam().blocks;
    IdToIdxFinds(blocks, 1);
    assert blocks[1].id == 1;
    assert [1, 1][1..] == [1] && [1][1..] == [];
    assert KnownPositions(blocks, []) == [] && KnownPositions(blocks, [1]) == [1];
  }

  /** A path through the points of the function, starting at its entry. */
  ghost predicate IsEntryPath(f: Function, path: seq<Point>)
    requires BlockAt(f.blocks, f.entry).Some?
  {
    && path != [] && path[0] == Point(BlockAt(f.blocks, f.entry).value, 0)
    && (forall k :: 0 <= k < |path| ==> IsPoint(f.blocks, path[k]))
    && (forall k :: 0 <= k < |path| - 1 ==> Edge(f.blocks, path[k], path[k + 1]))
  }

  ghost predicate DefinedAlong(f: Function, path: seq<Point>, t: TempId)
    requires BlockAt(f.blocks, f.entry).Some? && IsEntryPath(f, path)
  {
    t in f.params || exists k :: 0 <= k < |path| - 1 && t in Writes(f.blocks, path[k], path[k + 1])
  }

  /** Dominance: every path from the entry to a read defines what is read on the way. */
  ghost predicate DefinitionsDominateReads(f: Function) {
    BlockAt(f.blocks, f.entry).Some? ==>
      forall path, t | IsEntryPath(f, path) && t in Reads(f.blocks, path[|path| - 1]) :: DefinedAlong(f, path, t)
  }

  /** What the checker leaves unchecked is exactly dominance: only parameters are live on
      entry if and only if definitions dominate reads. */
  lemma {:induction false} OnlyParamsLiveIffDominance(f: Function)
    ensures OnlyParamsLiveOnEntry(f) <==> DefinitionsDominateReads(f)
  {
    if BlockAt(f.blocks, f.entry).Some? {
      var entry := Point(BlockAt(f.blocks, f.entry).value, 0);
      if OnlyParamsLiveOnEntry(f) {
        forall path, t | IsEntryPath(f, path) && t in Reads(f.blocks, path[|path| - 1])
          ensures DefinedAlong(f, path, t)
        {
          assert DefinedAlong(f, path, t) || ReadPath(f.blocks, t, path);
        }
      }
      if DefinitionsDominateReads(f) {
        forall t | LiveAt(f.blocks, entry, t)
          ensures t in f.params
        {
          var path :| ReadPath(f.blocks, t, path) && path[0] == entry;
          assert IsEntryPath(f, path) && DefinedAlong(f, path, t);
        }
      }
    }
  }

  /** An accepted function whose branches bind no parameters and whose entry needs only the
      function's parameters never reads an undefined temp, in any run. */
  lemma AcceptedNeverReadsUndefined(f: Function, env: Environment, args: seq<Val>, n: nat)
    requires Accepted(f) && BranchesBindNothing(f) && OnlyParamsLiveOnEntry(f) && |args| == |f.params|
    ensures BlockAt(f.blocks, f.entry).Some?
    ensures RRun(f.blocks, env, Start(f, args), n).Some?
  {
    AcceptedWellFormed(f);
    NoUndefinedRead(f, env, args, n);
  }

  /** The `else` block uses what only the `then` block, earlier in the text, defines. */
  function BadDominance(): Function {
    Function(0, "f", [0], 0,
             [Block(0, "entry", [], [], If(0, 1, 2)),
              Block(1, "then0", [], [Const(1, UnitConst)], Return(Some(1))),
              Block(2, "else0", [], [], Return(Some(1)))], [], Top)
  }

  lemma BadDominanceAccepted()
    ensures Accepted(BadDominance())
  {
    hide LiveAt, IdToIdx;
    var f := BadDominance();
    assert TextDefs(f, 1) == [0] && TextDefs(f, 2) == [0, 1] && TextDefs(f, 3) == [0, 1];
    assert DefsBefore(f, 0, 0) == [0] && DefsBefore(f, 1, 1) == [0, 1] && DefsBefore(f, 2, 0) == [0, 1];
    forall i, pc, t | 0 <= i < 3 && 0 <= pc <= |f.blocks[i].computations| && t in BlockReads(f.blocks[i], pc)
      ensures t in DefsBefore(f, i, pc)
    {
      assert i == 1 ==> pc == 0 || pc == 1;
    }
    forall i | 0 <= i < 3
      ensures ExitAccepted(f, i)
    {
      assert f.blocks[1].id == 1 && f.blocks[2].id == 2;
    }
  }

  /** Acceptance alone is not enough: textual order is not dominance. */
  lemma TextualOrderIsNotDominance()
    ensures var f, env := BadDominance(), Environment(0, (h, p, vs) => Imm(0));
            && Accepted(f) && BlockAt(f.blocks, f.entry).Some?
            && RRun(f.blocks, env, Start(f, [Imm(0)]), 2).None?
  {
    BadDominanceAccepted();
    var f, env := BadDominance(), Environment(0, (h, p, vs) => Imm(0));
    assert f.blocks[0].id == 0 && f.blocks[1].id == 1 && f.blocks[2].id == 2;
    IdToIdxFinds(f.blocks, 0);
    IdToIdxFinds(f.blocks, 2);
    var s := Start(f, [Imm(0)]);
    assert s.at == Point(0, 0) && s.vals[0] == Imm(0);
    var s1 := RStep(f.blocks, env, s).value;
    assert s1.at == Point(2, 0) && 1 !in s1.vals;
    assert RStep(f.blocks, env, s1).None?;
    assert RRun(f.blocks, env, s1, 1).None?;
  }
}
