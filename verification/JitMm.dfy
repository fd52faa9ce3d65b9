/** The memory manager of one JIT module: sections bump-allocated on their own pages of one
    reservation, code pages flipped to executable when the module is finalized, and the
    unwind table packed and sorted in place. Offsets are from the reservation's base. */
module JitMm {
  import opened Ir
  import opened Sorting

  const PAGE: nat := 4096
  const MODULE_RESERVE: nat := 4 * 1024 * 1024
  const MAX_SECTION: nat := 0x8000_0000_0000_0000

  datatype Section = Section(start: nat, size: nat, isCode: bool)

  // ----- rounding -----

  predicate IsPowerOfTwo(a: nat)
    decreases a
  {
    a == 1 || (a > 1 && a % 2 == 0 && IsPowerOfTwo(a / 2))
  }

  /** Clearing the low bits of a power of two leaves the multiple at or below. */
  function RoundUp(n: nat, a: nat): nat
    requires a > 0
  {
    var m := n + (a - 1);
    m - m % a
  }

  lemma {:induction false} RoundUpIs(n: nat, a: nat)
    requires a > 0
    ensures n <= RoundUp(n, a) < n + a && RoundUp(n, a) % a == 0
  {
    var m := n + (a - 1);
    MultipleMod(m / a, a);
    assert m - m % a == (m / a) * a by {
      DivMod(m, a);
    }
  }

  lemma DivMod(m: nat, a: nat)
    requires a > 0
    ensures m == (m / a) * a + m % a && 0 <= m % a < a
  {
  }

  lemma {:induction false} MultipleMod(q: nat, a: nat)
    requires a > 0
    ensures (q * a) % a == 0
  {
    if q > 0 {
      MultipleMod(q - 1, a);
      assert q * a == (q - 1) * a + a;
      AddOne((q - 1) * a, a);
    }
  }

  lemma {:induction false} AddOne(m: nat, a: nat)
    requires a > 0 && m % a == 0
    ensures (m + a) % a == 0
  {
    DivMod(m, a);
    DivMod(m + a, a);
    var d := (m + a) / a - m / a;
    assert d * a == a - (m + a) % a;
    assert d == 1;
  }

  /** Powers of two: of two, one divides the other, and rounding to the larger keeps a
      multiple of the smaller. */
  lemma {:induction false} PowersDivide(a: nat, b: nat)
    requires IsPowerOfTwo(a) && IsPowerOfTwo(b) && a <= b
    ensures b % a == 0
    decreases b
  {
    if a > 1 {
      PowersDivide(a / 2, b / 2);
      DivMod(b / 2, a / 2);
      var q := (b / 2) / (a / 2);
      assert b == q * a;
      MultipleMod(q, a);
    }
  }

  lemma {:induction false} MultipleOfMultiple(n: nat, a: nat, b: nat)
    requires a > 0 && b > 0 && b % a == 0 && n % b == 0
    ensures n % a == 0
  {
    DivMod(n, b);
    DivMod(b, a);
    var p, q := n / b, b / a;
    assert n == p * (q * a) == (p * q) * a;
    MultipleMod(p * q, a);
  }

  // ----- placing sections -----

  /** Alignments are powers of two; anything below eight counts as eight. */
  predicate IsAlignment(align: nat) {
    align == 0 || IsPowerOfTwo(align)
  }

  function UserAlign(align: nat): nat {
    if align < 8 then 8 else align
  }

  /** Where a section goes and where the next may start; nothing when it does not fit. */
  function Place(used: nat, size: nat, align: nat): Option<(nat, nat)> {
    var start := RoundUp(RoundUp(used, PAGE), UserAlign(align));
    var end := RoundUp(start + size, PAGE);
    if end > MODULE_RESERVE then None else Some((start, end))
  }

  lemma PageIsPower()
    ensures IsPowerOfTwo(PAGE) && IsPowerOfTwo(8)
  {
    assert IsPowerOfTwo(1) && IsPowerOfTwo(2) && IsPowerOfTwo(4) && IsPowerOfTwo(8) && IsPowerOfTwo(16)
             && IsPowerOfTwo(32);
    assert IsPowerOfTwo(64) && IsPowerOfTwo(128) && IsPowerOfTwo(256) && IsPowerOfTwo(512) && IsPowerOfTwo(1024);
    assert IsPowerOfTwo(2048);
  }

  lemma UserAlignIsPower(align: nat)
    requires IsAlignment(align)
    ensures IsPowerOfTwo(UserAlign(align))
  {
    PageIsPower();
  }

  /** On a page, and at the alignment asked for, if one was. */
  predicate IsAligned(start: nat, align: nat) {
    start % PAGE == 0 && (align > 0 ==> start % align == 0)
  }

  /** A placed section starts on a page, at its alignment, at or after what is used, and
      ends inside the reservation. */
  lemma {:induction false} PlaceFits(used: nat, size: nat, align: nat)
    requires IsAlignment(align) && Place(used, size, align).Some?
    ensures var (start, end) := Place(used, size, align).value;
            && used <= start && start + size <= end <= MODULE_RESERVE
            && IsAligned(start, align) && end % PAGE == 0
  {
    var a := UserAlign(align);
    var first := RoundUp(used, PAGE);
    RoundUpIs(used, PAGE);
    RoundUpIs(first, a);
    RoundUpIs(RoundUp(first, a) + size, PAGE);
    PageIsPower();
    UserAlignIsPower(align);
    if a <= PAGE {
      PowersDivide(a, PAGE);
      MultipleOfMultiple(first, a, PAGE);
      AlreadyRound(first, a);
    } else {
      PowersDivide(PAGE, a);
      MultipleOfMultiple(RoundUp(first, a), PAGE, a);
    }
    AlignedIff(RoundUp(first, a), align);
  }

  predicate OnPage(n: nat) {
    n % PAGE == 0
  }

  /** The start is the first aligned page at or after what is used, and the section consumes
      no more than the pages its bytes need: its end is the first page boundary at or after
      its last byte. */
  lemma {:induction false} PlaceIsLeast(used: nat, size: nat, align: nat)
    requires IsAlignment(align) && Place(used, size, align).Some?
    ensures var (start, end) := Place(used, size, align).value;
            && used <= start && IsAligned(start, align)
            && (forall s: nat :: used <= s && IsAligned(s, align) ==> start <= s)
            && start + size <= end <= MODULE_RESERVE && OnPage(end)
            && (forall p: nat :: start + size <= p && OnPage(p) ==> end <= p)
  {
    hide RoundUp, IsAligned, IsAlignment;
    PlaceFits(used, size, align);
    PageIsPower();
    var (start, end) := Place(used, size, align).value;
    forall s: nat | used <= s && IsAligned(s, align)
      ensures start <= s
    {
      AlignedIff(s, align);
      LeastMultiple(used, PAGE, s);
      LeastMultiple(RoundUp(used, PAGE), UserAlign(align), s);
    }
    forall p: nat | start + size <= p && OnPage(p)
      ensures end <= p
    {
      LeastMultiple(start + size, PAGE, p);
    }
  }

  /** Raising the alignment to eight asks no more of a page-aligned start. */
  lemma AlignedIff(start: nat, align: nat)
    requires IsAlignment(align)
    ensures IsAligned(start, align) <==> start % PAGE == 0 && start % UserAlign(align) == 0
  {
    PageIsPower();
    if start % PAGE == 0 && align < 8 {
      PowersDivide(8, PAGE);
      MultipleOfMultiple(start, 8, PAGE);
      if align > 0 {
        PowersDivide(align, 8);
        MultipleOfMultiple(start, align, 8);
      }
    }
  }

  lemma {:induction false} AlreadyRound(n: nat, a: nat)
    requires a > 0 && n % a == 0
    ensures RoundUp(n, a) == n
  {
    DivMod(n, a);
    DivMod(n + (a - 1), a);
    var d := (n + (a - 1)) / a - n / a;
    assert d * a == a - 1 - (n + (a - 1)) % a;
    assert d == 0;
  }

  // ----- runs of allocations -----

  /** The pages that hold a byte of the section. */
  function PagesOf(s: Section): set<nat>
    requires s.size > 0
  {
    set p: nat | p <= (s.start + s.size - 1) / PAGE && AtOrAfter(s, p)
  }

  predicate AtOrAfter(s: Section, p: nat) {
    s.start / PAGE <= p
  }

  /** A page is the section's when one of its bytes is. */
  lemma {:induction false} PagesHoldBytes(s: Section, p: nat)
    requires s.size > 0
    ensures p in PagesOf(s) <==> exists b: nat :: s.start <= b < s.start + s.size && PageOf(b) == p
  {
    if p in PagesOf(s) {
      var b := if s.start / PAGE == p then s.start else p * PAGE;
      assert s.start <= b < s.start + s.size && PageOf(b) == p;
    }
    if b: nat :| s.start <= b < s.start + s.size && PageOf(b) == p {
      assert s.start / PAGE <= p <= (s.start + s.size - 1) / PAGE;
      assert AtOrAfter(s, p);
    }
  }

  function PageOf(b: nat): nat { b / PAGE }

  datatype Memory = Memory(used: nat, sections: seq<Section>)

  datatype Request = Request(size: nat, align: nat, isCode: bool, committed: bool)

  /** One allocation request. A section of no bytes, one that does not fit, and one whose
      pages cannot be committed change nothing. */
  function Step(m: Memory, r: Request): Memory {
    if r.size == 0 || !r.committed then m
    else match Place(m.used, r.size, r.align)
      case None => m
      case Some((start, end)) => Memory(end, m.sections + [Section(start, r.size, r.isCode)])
  }

  function Run(m: Memory, rs: seq<Request>): Memory {
    if rs == [] then m else Step(Run(m, rs[..|rs| - 1]), rs[|rs| - 1])
  }

  predicate IsPlaced(s: Section, used: nat) {
    s.size > 0 && s.start % PAGE == 0 && s.start + s.size <= used
  }

  /** Every section on its own pages, inside what is used, inside the reservation. */
  ghost predicate Sound(m: Memory) {
    && m.used % PAGE == 0 && m.used <= MODULE_RESERVE
    && (forall i :: 0 <= i < |m.sections| ==> IsPlaced(m.sections[i], m.used))
    && (forall i, j :: 0 <= i < j < |m.sections| ==> PagesOf(m.sections[i]) !! PagesOf(m.sections[j]))
  }

  lemma PagesApart(s: Section, t: Section, used: nat)
    requires IsPlaced(s, used) && used <= t.start && t.size > 0 && t.start % PAGE == 0
    ensures PagesOf(s) !! PagesOf(t)
  {
    assert (s.start + s.size - 1) / PAGE < t.start / PAGE;
  }

  lemma {:induction false} StepSound(m: Memory, r: Request)
    requires Sound(m) && IsAlignment(r.align)
    ensures Sound(Step(m, r))
    ensures Step(m, r) == m || (m.used < Step(m, r).used && m.sections < Step(m, r).sections)
  {
    hide PagesOf, IsAlignment, UserAlign, RoundUp, Place;
    var next := Step(m, r);
    if next != m {
      PlaceFits(m.used, r.size, r.align);
      var s := next.sections[|m.sections|];
      forall i | 0 <= i < |m.sections|
        ensures PagesOf(m.sections[i]) !! PagesOf(s)
      {
        assert IsPlaced(m.sections[i], m.used);
        PagesApart(m.sections[i], s, m.used);
      }
    }
  }

  /** However sections are requested, they stay on pages of their own, page-aligned and
      inside the reservation. */
  lemma {:induction false} RunSound(rs: seq<Request>)
    requires forall k :: 0 <= k < |rs| ==> IsAlignment(rs[k].align)
    ensures Sound(Run(Memory(0, []), rs))
  {
    if rs != [] {
      RunSound(rs[..|rs| - 1]);
      StepSound(Run(Memory(0, []), rs[..|rs| - 1]), rs[|rs| - 1]);
    }
  }

  /** A request is refused for want of room exactly when no aligned page past the used ones
      leaves enough of the reservation. */
  lemma {:induction false} RefusedIffNoRoom(used: nat, size: nat, align: nat)
    requires IsAlignment(align) && size > 0
    ensures Place(used, size, align).None? <==>
            forall start: nat :: used <= start && IsAligned(start, align) ==> start + size > MODULE_RESERVE
  {
    hide RoundUp, IsAligned, IsAlignment;
    var a := UserAlign(align);
    var first := RoundUp(used, PAGE);
    var start := RoundUp(first, a);
    RoundUpIs(used, PAGE);
    RoundUpIs(first, a);
    RoundUpIs(start + size, PAGE);
    if Place(used, size, align).Some? {
      PlaceFits(used, size, align);
    } else {
      EndPastReserve(start + size);
      forall s: nat | used <= s && IsAligned(s, align)
        ensures s + size > MODULE_RESERVE
      {
        AlignedIff(s, align);
        LeastMultiple(used, PAGE, s);
        LeastMultiple(first, a, s);
      }
    }
  }

  /** Past the bytes of every section; for a page boundary, past their last pages. */
  predicate Past(sections: seq<Section>, start: nat) {
    forall i :: 0 <= i < |sections| ==> sections[i].start + sections[i].size <= start
  }

  /** Nothing is used but the pages up to the last section's last. */
  lemma {:induction false} UsedIsTight(rs: seq<Request>)
    requires forall k :: 0 <= k < |rs| ==> IsAlignment(rs[k].align)
    ensures var m := Run(Memory(0, []), rs);
            && Past(m.sections, m.used)
            && forall p: nat :: OnPage(p) && Past(m.sections, p) ==> m.used <= p
  {
    hide IsAlignment, Place, PagesOf;
    if rs != [] {
      var front, r := rs[..|rs| - 1], rs[|rs| - 1];
      UsedIsTight(front);
      var m := Run(Memory(0, []), front);
      if Step(m, r) != m {
        PlaceIsLeast(m.used, r.size, r.align);
        var n := |m.sections|;
        forall p: nat | OnPage(p) && Past(Step(m, r).sections, p)
          ensures Step(m, r).used <= p
        {
          assert Step(m, r).sections[n].start + Step(m, r).sections[n].size <= p;
        }
      }
    }
  }

  /** After any run, a request that can be committed is refused exactly when no aligned page
      past all the tracked sections leaves it room, and otherwise gets the first such page;
      one of no bytes, or that cannot be committed, is always refused. */
  lemma {:induction false} RunPlacesFirstFit(rs: seq<Request>, r: Request)
    requires (forall k :: 0 <= k < |rs| ==> IsAlignment(rs[k].align)) && IsAlignment(r.align)
    ensures var m := Run(Memory(0, []), rs);
            var next := Step(m, r);
            && (r.size == 0 || !r.committed ==> next == m)
            && (r.size > 0 && r.committed ==>
                  (next == m <==>
                     forall start: nat :: IsAligned(start, r.align) && Past(m.sections, start) ==>
                         start + r.size > MODULE_RESERVE))
            && (next != m ==>
                  && |next.sections| == |m.sections| + 1 && next.sections[..|m.sections|] == m.sections
                  && var s := next.sections[|m.sections|];
                     && s.size == r.size && s.isCode == r.isCode
                     && IsAligned(s.start, r.align) && Past(m.sections, s.start)
                     && forall start: nat :: IsAligned(start, r.align) && Past(m.sections, start) ==> s.start <= start)
  {
    hide IsAlignment, Place, PagesOf, RoundUp;
    UsedIsTight(rs);
    var m := Run(Memory(0, []), rs);
    if r.size > 0 && r.committed {
      RefusedIffNoRoom(m.used, r.size, r.align);
      forall start: nat | IsAligned(start, r.align)
        ensures Past(m.sections, start) <==> m.used <= start
      {
        assert OnPage(start);
      }
      if Place(m.used, r.size, r.align).Some? {
        PlaceIsLeast(m.used, r.size, r.align);
      }
    }
  }

  lemma {:induction false} LeastMultiple(n: nat, a: nat, m: nat)
    requires a > 0 && n <= m && m % a == 0
    ensures RoundUp(n, a) <= m
  {
    RoundUpIs(n, a);
    DivMod(m, a);
    DivMod(RoundUp(n, a), a);
    var d := RoundUp(n, a) / a - m / a;
    assert d * a == RoundUp(n, a) - m < a;
    assert d <= 0;
  }

  lemma EndPastReserve(end: nat)
    requires RoundUp(end, PAGE) > MODULE_RESERVE
    ensures end > MODULE_RESERVE
  {
    if end <= MODULE_RESERVE {
      LeastMultiple(end, PAGE, MODULE_RESERVE);
    }
  }

  // ----- the manager -----

  class Manager {
    var used: nat
    var sections: seq<Section>
    var executable: set<nat>

    constructor ()
      ensures used == 0 && sections == [] && executable == {}
    {
      used, sections, executable := 0, [], {};
    }

    ghost function State(): Memory
      reads `used, `sections
    {
      Memory(used, sections)
    }

    /** Bump allocation; a refusal leaves `used` alone. */
    method Alloc(size: nat, align: nat, committed: bool) returns (p: Option<nat>)
      requires size < MAX_SECTION && IsAlignment(align)
      modifies `used
      ensures p.Some? <==> size > 0 && committed && Place(old(used), size, align).Some?
      ensures p.Some? ==> Some((p.value, used)) == Place(old(used), size, align)
      ensures p.None? ==> used == old(used)
    {
      if size == 0 {
        return None;
      }
      var start := RoundUp(used, PAGE);
      start := RoundUp(start, UserAlign(align));
      var end := start + size;
      var endRounded := RoundUp(end, PAGE);
      if endRounded > MODULE_RESERVE {
        return None;
      }
      if !committed {
        return None;
      }
      used := endRounded;
      p := Some(start);
    }

    /** Allocates and tracks a code or data section. */
    method AllocateSection(size: nat, align: nat, isCode: bool, committed: bool) returns (p: Option<nat>)
      requires size < MAX_SECTION && IsAlignment(align)
      modifies `used, `sections
      ensures State() == Step(old(State()), Request(size, align, isCode, committed))
      ensures p.Some? <==> sections != old(sections)
      ensures p.Some? ==> sections == old(sections) + [Section(p.value, size, isCode)]
    {
      p := Alloc(size, align, committed);
      if p.None? {
        return;
      }
      sections := sections + [Section(p.value, size, isCode)];
    }

    /** Flips the pages of the code sections in order and stops at the first the system
        refuses: the pages that become executable are those of the code sections before it,
        none of them a data section's. */
    method FinalizeMemory(granted: nat -> bool) returns (ok: bool)
      requires Sound(State())
      modifies `executable
      ensures ok <==> forall i :: 0 <= i < |sections| && sections[i].isCode ==> granted(i)
      ensures forall q :: q in executable <==>
                q in old(executable)
                || exists i :: 0 <= i < |sections| && Flipped(sections, granted, i) && q in PagesOf(sections[i])
      ensures forall i, q :: 0 <= i < |sections| && !sections[i].isCode && q in PagesOf(sections[i]) ==>
                (q in executable <==> q in old(executable))
    {
      hide PagesOf;
      for k := 0 to |sections|
        invariant forall i :: 0 <= i < k && sections[i].isCode ==> granted(i)
        invariant forall q :: q in executable <==>
                    q in old(executable)
                    || exists i :: 0 <= i < k && Flipped(sections, granted, i) && q in PagesOf(sections[i])
      {
        if sections[k].isCode {
          if !granted(k) {
            DataPagesApart();
            return false;
          }
          executable := executable + PagesOf(sections[k]);
        }
      }
      DataPagesApart();
      ok := true;
    }

    /** A data section shares no page with a code section. */
    lemma DataPagesApart()
      requires Sound(State())
      ensures forall i, j :: 0 <= i < |sections| && 0 <= j < |sections| && sections[i].isCode != sections[j].isCode ==>
                PagesOf(sections[i]) !! PagesOf(sections[j])
    {
      forall i, j | 0 <= i < |sections| && 0 <= j < |sections| && sections[i].isCode != sections[j].isCode
        ensures PagesOf(sections[i]) !! PagesOf(sections[j])
      {
        var low, high := if i < j then i else j, if i < j then j else i;
        assert PagesOf(sections[low]) !! PagesOf(sections[high]);
      }
    }
  }

  /** A code section the system grants, with every code section before it. */
  predicate Flipped(sections: seq<Section>, granted: nat -> bool, i: nat)
    requires i < |sections|
  {
    sections[i].isCode && forall j :: 0 <= j <= i && sections[j].isCode ==> granted(j)
  }

  // ----- the unwind table -----

  datatype Entry = Entry(begin: U32, end: U32, unwind: U32)

  const ZERO_ENTRY := Entry(0, 0, 0)

  predicate IsLive(e: Entry) {
    e.begin < e.end
  }

  function LiveOnes(es: seq<Entry>): (r: seq<Entry>)
    ensures |r| <= |es| && forall k :: 0 <= k < |r| ==> IsLive(r[k])
  {
    if es == [] then []
    else
      var n := |es| - 1;
      if IsLive(es[n]) then LiveOnes(es[..n]) + [es[n]] else LiveOnes(es[..n])
  }

  /** The multiset of the live entries. */
  lemma {:induction false} LiveOnesCount(es: seq<Entry>, e: Entry)
    ensures multiset(LiveOnes(es))[e] == if IsLive(e) then multiset(es)[e] else 0
  {
    if es != [] {
      var n := |es| - 1;
      LiveOnesCount(es[..n], e);
      assert es == es[..n] + [es[n]];
    }
  }

  function Begin(e: Entry): nat {
    e.begin
  }

  function Zeros(n: nat): (r: seq<Entry>)
    ensures |r| == n && forall k :: 0 <= k < n ==> r[k] == ZERO_ENTRY
  {
    seq(n, k requires 0 <= k < n => ZERO_ENTRY)
  }

  /** The table after packing: the live entries in order of address, then zeros. */
  function Packed(es: seq<Entry>): (r: seq<Entry>)
    ensures |r| == |es|
  {
    SortBy(LiveOnes(es), Begin) + Zeros(|es| - |LiveOnes(es)|)
  }

  /** Moves live entries to the front, zeroes the tail, sorts the front, all in place. */
  method PackUnwindTable(entries: array<Entry>) returns (live: nat)
    modifies entries
    ensures entries[..] == Packed(old(entries[..])) && live == |LiveOnes(old(entries[..]))|
  {
    ghost var was := entries[..];
    live := CompactLive(entries);
    ZeroTail(entries, live);
    SortFront(entries, live);
    assert entries[..] == entries[..live] + entries[live..];
  }

  method CompactLive(entries: array<Entry>) returns (live: nat)
    modifies entries
    ensures live <= entries.Length && entries[..live] == LiveOnes(old(entries[..]))
  {
    ghost var was := entries[..];
    live := 0;
    for i := 0 to entries.Length
      invariant live <= i && entries[..live] == LiveOnes(was[..i])
      invariant forall k :: i <= k < entries.Length ==> entries[k] == was[k]
    {
      assert was[..i + 1][..i] == was[..i];
      if IsLive(entries[i]) {
        if i != live {
          entries[live] := entries[i];
        }
        live := live + 1;
        assert entries[..live] == entries[..live - 1] + [was[i]];
      }
    }
    assert was[..entries.Length] == was;
  }

  method ZeroTail(entries: array<Entry>, live: nat)
    requires live <= entries.Length
    modifies entries
    ensures entries[..live] == old(entries[..live]) && entries[live..] == Zeros(entries.Length - live)
  {
    for k := live to entries.Length
      invariant entries[..live] == old(entries[..live])
      invariant forall m :: live <= m < k ==> entries[m] == ZERO_ENTRY
    {
      entries[k] := ZERO_ENTRY;
    }
  }

  method SortFront(entries: array<Entry>, live: nat)
    requires live <= entries.Length
    modifies entries
    ensures entries[..live] == SortBy(old(entries[..live]), Begin) && entries[live..] == old(entries[live..])
  {
    var sorted := SortBy(entries[..live], Begin);
    for k := 0 to live
      invariant entries[..k] == sorted[..k] && entries[live..] == old(entries[live..])
    {
      entries[k] := sorted[k];
    }
    assert sorted[..live] == sorted;
  }

  /** Packing keeps exactly the live entries, in ascending order, with zeros after them. */
  lemma PackedKeepsLive(es: seq<Entry>, e: Entry)
    ensures var n := |LiveOnes(es)|;
            && SortedBy(Packed(es)[..n], Begin)
            && (forall k :: n <= k < |es| ==> Packed(es)[k] == ZERO_ENTRY)
            && multiset(Packed(es)[..n])[e] == if IsLive(e) then multiset(es)[e] else 0
  {
    LiveOnesCount(es, e);
    SortSorts(LiveOnes(es), Begin);
    assert Packed(es)[..|LiveOnes(es)|] == SortBy(LiveOnes(es), Begin);
  }

  predicate Covers(e: Entry, pc: nat) {
    e.begin <= pc < e.end
  }

  /** A live entry is one that covers something. */
  lemma {:induction false} LiveIffCovers(e: Entry)
    ensures IsLive(e) <==> exists pc: nat :: Covers(e, pc)
  {
    assert IsLive(e) ==> Covers(e, e.begin);
  }

  /** So an address is covered by a registered entry exactly when it was covered before. */
  lemma PackingKeepsCover(es: seq<Entry>, pc: nat)
    ensures (exists k :: 0 <= k < |LiveOnes(es)| && Covers(Packed(es)[k], pc)) <==>
            (exists k :: 0 <= k < |es| && Covers(es[k], pc))
  {
    var n := |LiveOnes(es)|;
    var front := Packed(es)[..n];
    if k :| 0 <= k < n && Covers(Packed(es)[k], pc) {
      PackedKeepsLive(es, front[k]);
      assert front[k] in multiset(front);
      assert front[k] in multiset(es);
    }
    if k :| 0 <= k < |es| && Covers(es[k], pc) {
      PackedKeepsLive(es, es[k]);
      assert es[k] in multiset(es);
      assert es[k] in multiset(front);
    }
  }

  // ----- searching the packed table -----

  predicate Apart(d: Entry, e: Entry) {
    d.end <= e.begin || e.end <= d.begin
  }

  predicate NoOverlap(es: seq<Entry>) {
    forall i, j :: 0 <= i < j < |es| ==> Apart(es[i], es[j])
  }

  /** The live entries of a table, wherever they stand in it, do not overlap. */
  predicate LiveApart(es: seq<Entry>) {
    forall i, j :: 0 <= i < j < |es| && IsLive(es[i]) && IsLive(es[j]) ==> Apart(es[i], es[j])
  }

  lemma {:induction false} LiveOnesAreMembers(es: seq<Entry>)
    ensures forall e :: e in LiveOnes(es) ==> e in es
  {
    if es != [] {
      LiveOnesAreMembers(es[..|es| - 1]);
    }
  }

  lemma {:induction false} LiveOnesApart(es: seq<Entry>)
    requires LiveApart(es)
    ensures NoOverlap(LiveOnes(es))
  {
    if es != [] {
      var n := |es| - 1;
      var before := LiveOnes(es[..n]);
      LiveOnesApart(es[..n]);
      LiveOnesAreMembers(es[..n]);
      if IsLive(es[n]) {
        forall k | 0 <= k < |before|
          ensures Apart(before[k], es[n])
        {
          assert before[k] in before;
          var i :| 0 <= i < n && es[..n][i] == before[k];
          assert es[i] == before[k] && IsLive(es[i]);
        }
      }
    }
  }

  lemma {:induction false} TwoPlaces(s: seq<Entry>, e: Entry)
    requires multiset(s)[e] >= 2
    ensures exists i, j :: 0 <= i < j < |s| && s[i] == e && s[j] == e
  {
    var n := |s| - 1;
    assert s == s[..n] + [s[n]];
    if s[n] == e {
      assert e in multiset(s[..n]);
      var i :| 0 <= i < n && s[..n][i] == e;
    } else {
      TwoPlaces(s[..n], e);
      var i, j :| 0 <= i < j < n && s[..n][i] == e && s[..n][j] == e;
    }
  }

  lemma {:induction false} TwiceCounted(s: seq<Entry>, i: nat, j: nat)
    requires i < j < |s| && s[i] == s[j]
    ensures multiset(s)[s[i]] >= 2
  {
    assert s == s[..j] + s[j..];
    assert s[..j][i] == s[i] && s[j..][0] == s[i];
  }

  /** Reordering live entries keeps them apart. */
  lemma {:induction false} NoOverlapPermutes(s: seq<Entry>, t: seq<Entry>)
    requires multiset(s) == multiset(t) && NoOverlap(s) && forall k :: 0 <= k < |s| ==> IsLive(s[k])
    ensures NoOverlap(t) && forall k :: 0 <= k < |t| ==> IsLive(t[k])
  {
    forall k | 0 <= k < |t|
      ensures t[k] in s
    {
      assert t[k] in multiset(t);
    }
    forall i, j | 0 <= i < j < |t|
      ensures Apart(t[i], t[j])
    {
      if t[i] == t[j] {
        TwiceCounted(t, i, j);
        TwoPlaces(s, t[i]);
      }
    }
  }

  /** The front of a packed table can be searched. */
  lemma {:induction false} PackedIsSearchable(es: seq<Entry>)
    requires LiveApart(es)
    ensures var front := Packed(es)[..|LiveOnes(es)|];
            SortedBy(front, Begin) && NoOverlap(front) && forall k :: 0 <= k < |front| ==> IsLive(front[k])
  {
    var live := LiveOnes(es);
    SortSorts(live, Begin);
    assert Packed(es)[..|live|] == SortBy(live, Begin);
    LiveOnesApart(es);
    NoOverlapPermutes(live, SortBy(live, Begin));
  }

  /** Binary search of a table in order. */
  method Search(es: seq<Entry>, pc: nat) returns (k: Option<nat>)
    requires SortedBy(es, Begin) && NoOverlap(es) && forall i :: 0 <= i < |es| ==> IsLive(es[i])
    ensures k.Some? ==> k.value < |es| && Covers(es[k.value], pc)
    ensures k.None? ==> forall i :: 0 <= i < |es| ==> !Covers(es[i], pc)
  {
    var lo, hi := 0, |es|;
    while lo < hi
      invariant 0 <= lo <= hi <= |es|
      invariant forall i :: 0 <= i < |es| && !(lo <= i < hi) ==> !Covers(es[i], pc)
    {
      var mid := (lo + hi) / 2;
      if pc < es[mid].begin {
        hi := mid;
      } else if pc >= es[mid].end {
        forall i | 0 <= i < mid
          ensures !Covers(es[i], pc)
        {
          assert Begin(es[i]) <= Begin(es[mid]) && IsLive(es[mid]);
        }
        lo := mid + 1;
      } else {
        return Some(mid);
      }
    }
    k := None;
  }

  /** The unwinder's search of a table that was packed and registered: it finds an entry
      exactly when one of the original table's, in whatever order those stood, covers the
      address, and what it finds is one of those. */
  method FindEntry(ghost original: seq<Entry>, table: seq<Entry>, pc: nat) returns (k: Option<nat>)
    requires LiveApart(original) && table == Packed(original)[..|LiveOnes(original)|]
    ensures k.Some? <==> exists i :: 0 <= i < |original| && Covers(original[i], pc)
    ensures k.Some? ==> k.value < |table| && table[k.value] in original && Covers(table[k.value], pc)
  {
    PackedIsSearchable(original);
    PackingKeepsCover(original, pc);
    k := Search(table, pc);
    if k.Some? {
      PackedKeepsLive(original, table[k.value]);
      assert table[k.value] in multiset(table);
      assert Covers(Packed(original)[k.value], pc);
    }
  }
}
