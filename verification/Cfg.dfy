/** Program points, control-flow edges, and what it means for a temp to be live:
    some path from here reads it before anything overwrites it. */
module Cfg {
  import opened Ir

  /** Position `pc` of a block: a computation, or the terminator when `pc` is the
      number of computations. */
  datatype Point = Point(block: nat, pc: nat)

  predicate IsPoint(blocks: seq<Block>, p: Point) {
    p.block < |blocks| && p.pc <= |blocks[p.block].computations|
  }

  predicate AtTerminator(blocks: seq<Block>, p: Point)
    requires IsPoint(blocks, p)
  {
    p.pc == |blocks[p.block].computations|
  }

  /** The positions of the blocks named by `ids`, dropping names of no block. */
  function KnownPositions(blocks: seq<Block>, ids: seq<BlockId>): seq<nat> {
    if ids == [] then []
    else match BlockAt(blocks, ids[0])
      case None => KnownPositions(blocks, ids[1..])
      case Some(j) => [j] + KnownPositions(blocks, ids[1..])
  }

  lemma {:induction false} KnownPositionsAreTargets(blocks: seq<Block>, ids: seq<BlockId>, j: nat)
    ensures j in KnownPositions(blocks, ids) <==> exists id :: id in ids && BlockAt(blocks, id) == Some(j)
  {
    if ids != [] {
      KnownPositionsAreTargets(blocks, ids[1..], j);
      if id :| id in ids && BlockAt(blocks, id) == Some(j) {
        assert id == ids[0] || id in ids[1..];
      }
    }
  }

  lemma {:induction false} KnownPositionsBounded(blocks: seq<Block>, ids: seq<BlockId>)
    ensures forall j :: j in KnownPositions(blocks, ids) ==> j < |blocks|
  {
    if ids != [] {
      KnownPositionsBounded(blocks, ids[1..]);
    }
  }

  function Successors(blocks: seq<Block>, i: nat): (js: seq<nat>)
    requires i < |blocks|
    ensures forall j :: j in js ==> j < |blocks|
  {
    KnownPositionsBounded(blocks, blocks[i].terminator.Targets());
    KnownPositions(blocks, blocks[i].terminator.Targets())
  }

  /** The temps read at position `pc` of a block. */
  function BlockReads(b: Block, pc: nat): seq<TempId>
    requires pc <= |b.computations|
  {
    if pc == |b.computations| then b.terminator.Uses() else b.computations[pc].Operands()
  }

  function Reads(blocks: seq<Block>, p: Point): seq<TempId>
    requires IsPoint(blocks, p)
  {
    BlockReads(blocks[p.block], p.pc)
  }

  /** Control can pass from `p` to `q`. */
  predicate Edge(blocks: seq<Block>, p: Point, q: Point)
    requires IsPoint(blocks, p)
  {
    if AtTerminator(blocks, p) then q.pc == 0 && q.block in Successors(blocks, p.block)
    else q == Point(p.block, p.pc + 1)
  }

  /** The temps overwritten when control passes from `p` to `q`. */
  function Writes(blocks: seq<Block>, p: Point, q: Point): seq<TempId>
    requires IsPoint(blocks, p) && Edge(blocks, p, q)
  {
    if AtTerminator(blocks, p) then blocks[q.block].params else [blocks[p.block].computations[p.pc].dst]
  }

  /** A path that ends in a read of `t` and overwrites `t` nowhere before. */
  ghost predicate ReadPath(blocks: seq<Block>, t: TempId, path: seq<Point>) {
    && path != []
    && (forall k :: 0 <= k < |path| ==> IsPoint(blocks, path[k]))
    && (forall k :: 0 <= k < |path| - 1 ==>
          Edge(blocks, path[k], path[k + 1]) && t !in Writes(blocks, path[k], path[k + 1]))
    && t in Reads(blocks, path[|path| - 1])
  }

  ghost predicate LiveAt(blocks: seq<Block>, p: Point, t: TempId) {
    exists path :: ReadPath(blocks, t, path) && path[0] == p
  }

  /** Live on entry to block `i`, before its parameters are bound. */
  ghost predicate LiveIn(blocks: seq<Block>, i: nat, t: TempId)
    requires i < |blocks|
  {
    t !in blocks[i].params && LiveAt(blocks, Point(i, 0), t)
  }

  /** Live on exit from block `i`: live on entry to some successor. */
  ghost predicate LiveOut(blocks: seq<Block>, i: nat, t: TempId)
    requires i < |blocks|
  {
    exists j :: j in Successors(blocks, i) && LiveIn(blocks, j, t)
  }

  /** Following an edge that does not overwrite a live temp backwards keeps it live. */
  lemma LiveBackwards(blocks: seq<Block>, p: Point, q: Point, t: TempId)
    requires IsPoint(blocks, p) && Edge(blocks, p, q)
    requires t !in Writes(blocks, p, q) && LiveAt(blocks, q, t)
    ensures LiveAt(blocks, p, t)
  {
    var path :| ReadPath(blocks, t, path) && path[0] == q;
    var longer := [p] + path;
    forall k | 0 <= k < |longer| - 1
      ensures Edge(blocks, longer[k], longer[k + 1]) && t !in Writes(blocks, longer[k], longer[k + 1])
    {
      if k > 0 {
        assert longer[k] == path[k - 1] && longer[k + 1] == path[k];
      }
    }
    assert ReadPath(blocks, t, longer);
  }

  lemma ReadIsLive(blocks: seq<Block>, p: Point, t: TempId)
    requires IsPoint(blocks, p) && t in Reads(blocks, p)
    ensures LiveAt(blocks, p, t)
  {
    assert ReadPath(blocks, t, [p]);
  }

  /** Liveness unfolds one step: read here, or live past some edge that spares it. */
  lemma LiveStep(blocks: seq<Block>, p: Point, t: TempId)
    requires IsPoint(blocks, p)
    ensures LiveAt(blocks, p, t) <==>
            (t in Reads(blocks, p)
             || exists q :: Edge(blocks, p, q) && t !in Writes(blocks, p, q) && LiveAt(blocks, q, t))
  {
    if LiveAt(blocks, p, t) && t !in Reads(blocks, p) {
      var path :| ReadPath(blocks, t, path) && path[0] == p;
      assert |path| > 1;
      ReadPathTail(blocks, t, path);
      assert LiveAt(blocks, path[1], t);
    }
    if t in Reads(blocks, p) {
      ReadIsLive(blocks, p, t);
    }
    if q :| Edge(blocks, p, q) && t !in Writes(blocks, p, q) && LiveAt(blocks, q, t) {
      LiveBackwards(blocks, p, q, t);
    }
  }

  lemma ReadPathTail(blocks: seq<Block>, t: TempId, path: seq<Point>)
    requires ReadPath(blocks, t, path) && |path| > 1
    ensures ReadPath(blocks, t, path[1..]) && path[1..][0] == path[1]
  {
    var tail := path[1..];
    assert forall k :: 0 <= k < |tail| ==> tail[k] == path[k + 1];
    forall k | 0 <= k < |tail| - 1
      ensures Edge(blocks, tail[k], tail[k + 1]) && t !in Writes(blocks, tail[k], tail[k + 1])
    {
      assert tail[k] == path[k + 1] && tail[k + 1] == path[k + 2];
    }
  }

  /** What is live at a terminator: its own reads and what is live out of the block. */
  lemma LiveAtTerminator(blocks: seq<Block>, i: nat, t: TempId)
    requires i < |blocks|
    ensures LiveAt(blocks, Point(i, |blocks[i].computations|), t) <==>
            t in blocks[i].terminator.Uses() || LiveOut(blocks, i, t)
  {
    var p := Point(i, |blocks[i].computations|);
    LiveStep(blocks, p, t);
    if LiveAt(blocks, p, t) && t !in Reads(blocks, p) {
      var q :| Edge(blocks, p, q) && t !in Writes(blocks, p, q) && LiveAt(blocks, q, t);
      assert q == Point(q.block, 0);
      assert LiveIn(blocks, q.block, t);
    }
    if LiveOut(blocks, i, t) {
      var j :| j in Successors(blocks, i) && LiveIn(blocks, j, t);
      assert Edge(blocks, p, Point(j, 0)) && t !in Writes(blocks, p, Point(j, 0));
    }
  }

  /** What is live before a computation: its operands, and what is live after it except
      the result. */
  lemma LiveAtComputation(blocks: seq<Block>, p: Point, t: TempId)
    requires IsPoint(blocks, p) && !AtTerminator(blocks, p)
    ensures LiveAt(blocks, p, t) <==>
            var c := blocks[p.block].computations[p.pc];
            t in c.Operands() || (t != c.dst && LiveAt(blocks, Point(p.block, p.pc + 1), t))
  {
    LiveStep(blocks, p, t);
    assert Edge(blocks, p, Point(p.block, p.pc + 1));
  }
}
