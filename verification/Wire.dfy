/** The AST wire format: four integers a record, children after their parent, each record
    giving the number of records in its subtree. */
module Wire {
  import opened Ir

  type I64 = n: int | -0x8000_0000_0000_0000 <= n < 0x8000_0000_0000_0000

  /** The ordinal of a node kind. */
  type Kind = k: nat | k < 39

  datatype Tree = Node(kind: Kind, lo: U32, hi: U32, children: seq<Tree>)

  const TWO_32: int := 0x1_0000_0000
  const TWO_64: int := 0x1_0000_0000_0000_0000

  // ----- the encoding -----

  /** The number of records of a tree, and of a sequence of trees. */
  function Size(t: Tree): (n: nat)
    ensures n >= 1
  {
    1 + SizeAll(t.children)
  }

  function SizeAll(ts: seq<Tree>): (n: nat)
    ensures n >= |ts|
  {
    if ts == [] then 0 else Size(ts[0]) + SizeAll(ts[1..])
  }

  /** The records from `at` on are the pre-order encoding of `t`. A span travels in a wider
      integer, of which the low 32 bits count. */
  predicate Encodes(flat: seq<I64>, at: nat, t: Tree)
    decreases t, 0
  {
    && 4 * at + 3 < |flat|
    && flat[4 * at] == t.kind
    && flat[4 * at + 1] % TWO_32 == t.lo
    && flat[4 * at + 2] % TWO_32 == t.hi
    && flat[4 * at + 3] == Size(t)
    && EncodesAll(flat, at + 1, t.children)
  }

  predicate EncodesAll(flat: seq<I64>, at: nat, ts: seq<Tree>)
    decreases ts, 1
  {
    ts == [] || (Encodes(flat, at, ts[0]) && EncodesAll(flat, at + Size(ts[0]), ts[1..]))
  }

  lemma {:induction false} EncodingFits(flat: seq<I64>, at: nat, t: Tree)
    requires Encodes(flat, at, t)
    ensures 4 * (at + Size(t)) <= |flat|
    decreases t, 0
  {
    EncodingsFit(flat, at + 1, t.children);
  }

  lemma {:induction false} EncodingsFit(flat: seq<I64>, at: nat, ts: seq<Tree>)
    requires EncodesAll(flat, at, ts) && 4 * at <= |flat|
    ensures 4 * (at + SizeAll(ts)) <= |flat|
    decreases ts, 1
  {
    if ts != [] {
      EncodingFits(flat, at, ts[0]);
      EncodingsFit(flat, at + Size(ts[0]), ts[1..]);
    }
  }

  /** The records at a position encode at most one tree. */
  lemma {:induction false} EncodingUnique(flat: seq<I64>, at: nat, t: Tree, u: Tree)
    requires Encodes(flat, at, t) && Encodes(flat, at, u)
    ensures t == u
    decreases t, 0
  {
    var k := ChildrenAgree(flat, at + 1, t.children, u.children);
    if k < |t.children| {
      SizeAllSplit(t.children, k);
    }
    if k < |u.children| {
      SizeAllSplit(u.children, k);
    }
    assert t.children[..k] == u.children[..k];
    SizeAllPositive(t.children[k..]);
    SizeAllPositive(u.children[k..]);
    if k == |t.children| {
      assert t.children[..k] == t.children;
    }
    if k == |u.children| {
      assert u.children[..k] == u.children;
    }
  }

  lemma SizeAllPositive(ts: seq<Tree>)
    ensures ts != [] ==> SizeAll(ts) >= 1
  {
  }

  lemma {:induction false} SizeAllSplit(ts: seq<Tree>, k: nat)
    requires k <= |ts|
    ensures SizeAll(ts) == SizeAll(ts[..k]) + SizeAll(ts[k..])
  {
    if k > 0 {
      SizeAllSplit(ts[1..], k - 1);
      assert ts[..k][1..] == ts[1..][..k - 1] && ts[1..][k - 1..] == ts[k..];
    } else {
      assert ts[..0] == [] && ts[0..] == ts;
    }
  }

  /** Two encodings from the same position agree tree by tree, as far as both go. */
  lemma {:induction false} ChildrenAgree(flat: seq<I64>, at: nat, ts: seq<Tree>, us: seq<Tree>) returns (k: nat)
    requires EncodesAll(flat, at, ts) && EncodesAll(flat, at, us)
    ensures k <= |ts| && k <= |us| && (k == |ts| || k == |us|) && ts[..k] == us[..k]
    decreases ts, 1
  {
    if ts == [] || us == [] {
      k := 0;
    } else {
      EncodingUnique(flat, at, ts[0], us[0]);
      var m := ChildrenAgree(flat, at + Size(ts[0]), ts[1..], us[1..]);
      k := m + 1;
      assert ts[..k] == [ts[0]] + ts[1..][..m] && us[..k] == [us[0]] + us[1..][..m];
    }
  }

  /** More trees from the same position continue after fewer. */
  lemma {:induction false} EncodesAllAt(flat: seq<I64>, at: nat, ts: seq<Tree>, k: nat)
    requires EncodesAll(flat, at, ts) && k < |ts|
    ensures Encodes(flat, at + SizeAll(ts[..k]), ts[k])
    decreases k
  {
    if k > 0 {
      EncodesAllAt(flat, at + Size(ts[0]), ts[1..], k - 1);
      assert ts[..k][1..] == ts[1..][..k - 1] && ts[..k][0] == ts[0];
    }
  }

  lemma {:induction false} EncodesAllSnoc(flat: seq<I64>, at: nat, ts: seq<Tree>, t: Tree)
    requires EncodesAll(flat, at, ts) && Encodes(flat, at + SizeAll(ts), t)
    ensures EncodesAll(flat, at, ts + [t]) && SizeAll(ts + [t]) == SizeAll(ts) + Size(t)
    decreases ts
  {
    if ts == [] {
      assert ts + [t] == [t];
    } else {
      assert (ts + [t])[1..] == ts[1..] + [t];
      EncodesAllSnoc(flat, at + Size(ts[0]), ts[1..], t);
    }
  }

  // ----- decoding -----

  /** Signed to unsigned, keeping the bits. */
  function AsUsize(n: I64): U64 {
    n % TWO_64
  }

  function AsU32(n: I64): U32 {
    n % TWO_32
  }

  function KindFromI64(n: I64): Option<Kind> {
    if 0 <= n < 39 then Some(n) else None
  }

  /** No tree is encoded at `at`. */
  ghost predicate EncodesNothing(flat: seq<I64>, at: nat) {
    forall t :: !Encodes(flat, at, t)
  }

  /** A tree at `at` whose first children are those read so far either ends there or goes
      on with another child. */
  lemma TreeContinues(flat: seq<I64>, at: nat, children: seq<Tree>, t: Tree)
    requires Encodes(flat, at, t) && EncodesAll(flat, at + 1, children)
    ensures SizeAll(children) < SizeAll(t.children) ==>
              |children| < |t.children| && Encodes(flat, at + 1 + SizeAll(children), t.children[|children|])
  {
    var k := ChildrenAgree(flat, at + 1, children, t.children);
    SizeAllSplit(children, k);
    SizeAllSplit(t.children, k);
    SizeAllPositive(children[k..]);
    SizeAllPositive(t.children[k..]);
    if k == |children| {
      assert children[..k] == children;
      if k < |t.children| {
        EncodesAllAt(flat, at + 1, t.children, k);
      } else {
        assert t.children[..k] == t.children;
      }
    } else {
      assert t.children[..k] == t.children;
    }
  }

  /** Where a record claiming `n` records ends, in machine arithmetic. */
  function EndIndex(at: nat, n: I64): nat {
    (at + AsUsize(n)) % TWO_64
  }

  const MAX_LENGTH: nat := 0x8000_0000_0000_0000

  lemma ClaimedSize(n: I64, at: nat, length: nat)
    requires at < length < MAX_LENGTH
    ensures n >= 1 ==> AsUsize(n) == n && EndIndex(at, n) == at + n
    ensures n == 0 <==> AsUsize(n) == 0
    ensures n < 0 ==> EndIndex(at, n) < at || EndIndex(at, n) > length
  {
  }

  /** One record and its subtree. Succeeds exactly when the records from there on are the
      encoding of a tree, and then yields that tree and its record count. */
  method DecodeRecord(flat: seq<I64>, at: nat) returns (r: Option<(Tree, nat)>)
    requires |flat| < MAX_LENGTH && at <= |flat|
    ensures r.Some? ==> Encodes(flat, at, r.value.0) && r.value.1 == Size(r.value.0)
    ensures r.None? ==> EncodesNothing(flat, at)
    decreases |flat| - at
  {
    hide AsUsize, EndIndex;
    if 4 * at + 3 >= |flat| {
      return None;
    }
    var claimed, kind := AsUsize(flat[4 * at + 3]), KindFromI64(flat[4 * at]);
    ClaimedSize(flat[4 * at + 3], at, |flat|);
    if claimed == 0 || kind.None? {
      return None;
    }
    var children: seq<Tree> := [];
    var next := at + 1;
    var end := EndIndex(at, flat[4 * at + 3]);
    while next < end
      invariant EncodesAll(flat, at + 1, children) && next == at + 1 + SizeAll(children)
      invariant 4 * next <= |flat|
      invariant children != [] ==> at + 1 + SizeAll(children[..|children| - 1]) < end
      decreases |flat| - next
    {
      var child := DecodeRecord(flat, next);
      if child.None? {
        NoTreeWithout(flat, at, children, end);
        return None;
      }
      EncodingFits(flat, next, child.value.0);
      EncodesAllSnoc(flat, at + 1, children, child.value.0);
      next := next + child.value.1;
      assert (children + [child.value.0])[..|children|] == children;
      children := children + [child.value.0];
    }
    if next != end {
      NoTreeOverrun(flat, at, children, end);
      return None;
    }
    assert flat[4 * at + 3] >= 1;
    r := Some((Node(kind.value, AsU32(flat[4 * at + 1]), AsU32(flat[4 * at + 2]), children), claimed));
  }

  lemma NoTreeWithout(flat: seq<I64>, at: nat, children: seq<Tree>, end: nat)
    requires 4 * at + 3 < |flat| < MAX_LENGTH && end == EndIndex(at, flat[4 * at + 3])
    requires EncodesAll(flat, at + 1, children) && at + 1 + SizeAll(children) < end
    requires EncodesNothing(flat, at + 1 + SizeAll(children))
    ensures EncodesNothing(flat, at)
  {
    hide AsUsize, EndIndex;
    ClaimedSize(flat[4 * at + 3], at, |flat|);
    forall t
      ensures !Encodes(flat, at, t)
    {
      if Encodes(flat, at, t) {
        TreeContinues(flat, at, children, t);
      }
    }
  }

  /** A run of children that outgrows the tree's had reached its size before the last. */
  lemma OverrunSize(flat: seq<I64>, at: nat, children: seq<Tree>, t: Tree)
    requires EncodesAll(flat, at + 1, children) && EncodesAll(flat, at + 1, t.children)
    ensures SizeAll(children) > SizeAll(t.children) ==>
              children != [] && SizeAll(children[..|children| - 1]) >= SizeAll(t.children)
  {
    var k := ChildrenAgree(flat, at + 1, children, t.children);
    assert t.children[..|t.children|] == t.children && children[..|children|] == children;
    SizeAllSplit(t.children, k);
    if k < |children| {
      var front := children[..|children| - 1];
      SizeAllSplit(front, k);
      assert front[..k] == children[..k];
    }
  }

  lemma {:induction false} NoTreeOverrun(flat: seq<I64>, at: nat, children: seq<Tree>, end: nat)
    requires 4 * at + 3 < |flat| < MAX_LENGTH && end == EndIndex(at, flat[4 * at + 3])
    requires EncodesAll(flat, at + 1, children) && at + 1 + SizeAll(children) > end
    requires children != [] ==> at + 1 + SizeAll(children[..|children| - 1]) < end
    ensures EncodesNothing(flat, at)
  {
    hide AsUsize, EndIndex;
    ClaimedSize(flat[4 * at + 3], at, |flat|);
    forall t
      ensures !Encodes(flat, at, t)
    {
      if Encodes(flat, at, t) {
        OverrunSize(flat, at, children, t);
      }
    }
  }

  /** The records are exactly one tree's. */
  predicate IsWhole(flat: seq<I64>, t: Tree) {
    Encodes(flat, 0, t) && 4 * Size(t) == |flat|
  }

  /** The whole vector: accepted exactly when it is the encoding of one tree, with nothing
      after it. */
  method ParseToTree(flat: seq<I64>) returns (r: Option<Tree>)
    requires |flat| < MAX_LENGTH
    ensures r.Some? ==> IsWhole(flat, r.value)
    ensures r.None? ==> forall t :: !IsWhole(flat, t)
  {
    if |flat| % 4 != 0 {
      return None;
    }
    var root := DecodeRecord(flat, 0);
    if root.None? {
      return None;
    }
    if root.value.1 != |flat| / 4 {
      forall t
        ensures !IsWhole(flat, t)
      {
        if IsWhole(flat, t) {
          EncodingUnique(flat, 0, t, root.value.0);
        }
      }
      return None;
    }
    r := Some(root.value.0);
  }

  // ----- the encoder's side -----

  function Encode(t: Tree): (r: seq<I64>)
    requires Size(t) < TWO_32
    ensures |r| == 4 * Size(t)
    decreases t, 0
  {
    [t.kind, t.lo, t.hi, Size(t)] + EncodeAll(t.children)
  }

  function EncodeAll(ts: seq<Tree>): (r: seq<I64>)
    requires SizeAll(ts) < TWO_32
    ensures |r| == 4 * SizeAll(ts)
    decreases ts, 1
  {
    if ts == [] then [] else Encode(ts[0]) + EncodeAll(ts[1..])
  }

  /** A stretch of records. */
  predicate Holds(flat: seq<I64>, at: nat, records: seq<I64>) {
    4 * at + |records| <= |flat| && flat[4 * at..4 * at + |records|] == records
  }

  lemma HoldsParts(flat: seq<I64>, at: nat, a: seq<I64>, b: seq<I64>, n: nat)
    requires |a| == 4 * n
    ensures Holds(flat, at, a + b) <==> Holds(flat, at, a) && Holds(flat, at + n, b)
  {
    if Holds(flat, at, a + b) {
      assert flat[4 * at..4 * at + |a|] == (a + b)[..|a|];
      assert flat[4 * (at + n)..4 * (at + n) + |b|] == (a + b)[|a|..];
    }
    if Holds(flat, at, a) && Holds(flat, at + n, b) {
      assert flat[4 * at..4 * at + |a + b|] == flat[4 * at..4 * at + |a|] + flat[4 * (at + n)..4 * (at + n) + |b|];
    }
  }

  /** Where the encoder put a tree, the decoder's notion of encoding holds. */
  lemma {:induction false} EncodedEncodes(flat: seq<I64>, at: nat, t: Tree)
    requires Size(t) < TWO_32 && Holds(flat, at, Encode(t))
    ensures Encodes(flat, at, t)
    decreases t, 0
  {
    var head: seq<I64> := [t.kind, t.lo, t.hi, Size(t)];
    HoldsParts(flat, at, head, EncodeAll(t.children), 1);
    var stretch := flat[4 * at..4 * at + 4];
    assert stretch[0] == flat[4 * at] && stretch[1] == flat[4 * at + 1] && stretch[2] == flat[4 * at + 2]
           && stretch[3] == flat[4 * at + 3];
    EncodedAllEncode(flat, at + 1, t.children);
  }

  lemma {:induction false} EncodedAllEncode(flat: seq<I64>, at: nat, ts: seq<Tree>)
    requires SizeAll(ts) < TWO_32 && Holds(flat, at, EncodeAll(ts))
    ensures EncodesAll(flat, at, ts)
    decreases ts, 1
  {
    if ts != [] {
      HoldsParts(flat, at, Encode(ts[0]), EncodeAll(ts[1..]), Size(ts[0]));
      EncodedEncodes(flat, at, ts[0]);
      EncodedAllEncode(flat, at + Size(ts[0]), ts[1..]);
    }
  }

  /** Every span field fits the 32 bits the tree keeps of it. */
  predicate SpansInRange(flat: seq<I64>) {
    forall k :: 0 <= k < |flat| && (k % 4 == 1 || k % 4 == 2) ==> 0 <= flat[k] < TWO_32
  }

  lemma {:induction false} EncodesIsEncoded(flat: seq<I64>, at: nat, t: Tree)
    requires Encodes(flat, at, t) && SpansInRange(flat) && Size(t) < TWO_32
    ensures Holds(flat, at, Encode(t))
    decreases t, 0
  {
    EncodingFits(flat, at, t);
    var head: seq<I64> := [t.kind, t.lo, t.hi, Size(t)];
    assert (4 * at + 1) % 4 == 1 && (4 * at + 2) % 4 == 2;
    assert flat[4 * at..4 * at + 4] == head;
    EncodesAllIsEncoded(flat, at + 1, t.children);
    HoldsParts(flat, at, head, EncodeAll(t.children), 1);
  }

  lemma {:induction false} EncodesAllIsEncoded(flat: seq<I64>, at: nat, ts: seq<Tree>)
    requires EncodesAll(flat, at, ts) && SpansInRange(flat) && SizeAll(ts) < TWO_32 && 4 * at <= |flat|
    ensures Holds(flat, at, EncodeAll(ts))
    decreases ts, 1
  {
    if ts != [] {
      EncodesIsEncoded(flat, at, ts[0]);
      EncodingFits(flat, at, ts[0]);
      EncodesAllIsEncoded(flat, at + Size(ts[0]), ts[1..]);
      HoldsParts(flat, at, Encode(ts[0]), EncodeAll(ts[1..]), Size(ts[0]));
    }
  }

  /** The decoder inverts the encoder: with spans in range, the vectors it accepts as `t`
      are exactly the encoding of `t`, and that encoding is accepted as nothing else. */
  lemma WholeIffEncoded(flat: seq<I64>, t: Tree)
    requires Size(t) < TWO_32 && SpansInRange(flat)
    ensures IsWhole(flat, t) <==> flat == Encode(t)
    ensures forall u :: IsWhole(flat, t) && IsWhole(flat, u) ==> u == t
  {
    if IsWhole(flat, t) {
      EncodesIsEncoded(flat, 0, t);
      assert flat[0..|flat|] == flat;
    }
    if flat == Encode(t) {
      assert flat[0..|flat|] == flat;
      EncodedEncodes(flat, 0, t);
    }
    forall u | IsWhole(flat, t) && IsWhole(flat, u)
      ensures u == t
    {
      EncodingUnique(flat, 0, u, t);
    }
  }
}
