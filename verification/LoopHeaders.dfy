/** Where codegen puts safepoint polls: the entry block and every target of a branch that
    does not go forward in the block list. */
module LoopHeaders {
  import opened Ir
  import opened Cfg

  predicate IsHeader(blocks: seq<Block>, id: BlockId) {
    exists i :: 0 <= i < |blocks| && id in blocks[i].terminator.Targets()
                && BlockAt(blocks, id).Some? && BlockAt(blocks, id).value <= i
  }

  /** The headers, found in one walk over the blocks. */
  method FindLoopHeaders(blocks: seq<Block>) returns (headers: set<BlockId>)
    ensures forall id :: id in headers <==> IsHeader(blocks, id)
  {
    headers := {};
    for i := 0 to |blocks|
      invariant forall id :: id in headers <==>
        exists k :: 0 <= k < i && id in blocks[k].terminator.Targets()
                    && BlockAt(blocks, id).Some? && BlockAt(blocks, id).value <= k
    {
      var targets := blocks[i].terminator.Targets();
      headers := headers + set t | t in targets && BlockAt(blocks, t).Some? && BlockAt(blocks, t).value <= i;
    }
  }

  /** A walk from block to successor block. */
  predicate IsWalk(blocks: seq<Block>, walk: seq<nat>) {
    && (forall k :: 0 <= k < |walk| ==> walk[k] < |blocks|)
    && forall k :: 0 <= k < |walk| - 1 ==> walk[k + 1] in Successors(blocks, walk[k])
  }

  lemma BackEdgeHitsHeader(blocks: seq<Block>, i: nat, j: nat)
    requires i < |blocks| && j in Successors(blocks, i) && j <= i
    ensures IsHeader(blocks, blocks[j].id)
  {
    KnownPositionsAreTargets(blocks, blocks[i].terminator.Targets(), j);
  }

  /** A walk that arrives at no header after its start only goes forward. */
  lemma {:induction false} HeaderFreeWalkAscends(blocks: seq<Block>, walk: seq<nat>, k: nat)
    requires IsWalk(blocks, walk) && k < |walk|
    requires forall m :: 0 < m < |walk| ==> !IsHeader(blocks, blocks[walk[m]].id)
    ensures walk[0] + k <= walk[k]
  {
    if k > 0 {
      HeaderFreeWalkAscends(blocks, walk, k - 1);
      assert walk[k] in Successors(blocks, walk[k - 1]);
      if walk[k] <= walk[k - 1] {
        BackEdgeHitsHeader(blocks, walk[k - 1], walk[k]);
      }
    }
  }

  /** Every cycle passes a header, whatever the order of the blocks. */
  lemma CyclePassesHeader(blocks: seq<Block>, walk: seq<nat>)
    requires IsWalk(blocks, walk) && |walk| > 1 && walk[0] == walk[|walk| - 1]
    ensures exists m :: 0 < m < |walk| && IsHeader(blocks, blocks[walk[m]].id)
  {
    if forall m :: 0 < m < |walk| ==> !IsHeader(blocks, blocks[walk[m]].id) {
      HeaderFreeWalkAscends(blocks, walk, |walk| - 1);
    }
  }

  /** Every walk with at least as many edges as there are blocks passes a header, so
      execution polls at least that often. */
  lemma LongWalkPassesHeader(blocks: seq<Block>, walk: seq<nat>)
    requires IsWalk(blocks, walk) && |walk| > |blocks|
    ensures exists m :: 0 < m < |walk| && IsHeader(blocks, blocks[walk[m]].id)
  {
    if forall m :: 0 < m < |walk| ==> !IsHeader(blocks, blocks[walk[m]].id) {
      HeaderFreeWalkAscends(blocks, walk, |walk| - 1);
    }
  }

  /** The only blocks polled besides the entry are ones a branch really returns to: a
      header lies on a walk that starts at or after it. */
  lemma HeaderIsReturnedTo(blocks: seq<Block>, j: nat)
    requires j < |blocks| && BlockAt(blocks, blocks[j].id) == Some(j) && IsHeader(blocks, blocks[j].id)
    ensures exists i :: j <= i < |blocks| && IsWalk(blocks, [i, j])
  {
    var i :| 0 <= i < |blocks| && blocks[j].id in blocks[i].terminator.Targets() && j <= i;
    KnownPositionsAreTargets(blocks, blocks[i].terminator.Targets(), j);
    assert IsWalk(blocks, [i, j]);
  }
}
