/** The on-disk object cache: one object file and one sidecar a key, in a directory that is
    a map from file names to contents. Contents are opaque strings. */
module Cache {
  import opened Ir
  import opened Text
  import opened Sorting
  import opened Sidecar

  const ABI_VERSION: U32 := 3
  const LLVM_MAJOR: U32 := 22
  const TARGET_TRIPLE := "x86_64-pc-windows-msvc"
  const OPT_LEVEL: U8 := 2
  const U64_MAX: nat := 0xFFFF_FFFF_FFFF_FFFF

  type Files = map<string, string>

  /** What a slice can hold. */
  type Object = s: string | |s| <= 0xFFFF_FFFF_FFFF_FFFF witness ""

  // ----- names -----

  function ObjectName(k: CacheKey): string {
    ToHex(k) + ".bc"
  }

  function SidecarName(k: CacheKey): string {
    ToHex(k) + ".json"
  }

  lemma SameStem(a: string, b: string, suffix: string)
    ensures a + suffix == b + suffix <==> a == b
  {
    assert (a + suffix)[..|a|] == a && (b + suffix)[..|b|] == b;
    if a + suffix == b + suffix {
      assert |a + suffix| == |b + suffix|;
    }
  }

  /** No two keys share a file, and no object file is a sidecar. */
  lemma NamesApart(k: CacheKey, m: CacheKey)
    ensures ObjectName(k) == ObjectName(m) <==> k == m
    ensures SidecarName(k) == SidecarName(m) <==> k == m
    ensures ObjectName(k) != SidecarName(m)
  {
    hide ToHex;
    ToHexInjective(k, m);
    SameStem(ToHex(k), ToHex(m), ".bc");
    SameStem(ToHex(k), ToHex(m), ".json");
    var a, b := ObjectName(k), SidecarName(m);
    assert a[|a| - 1] == 'c' && b[|b| - 1] == 'n';
  }

  // ----- writing and reading -----

  function FreshMeta(k: CacheKey, bytes: Object, now: U64, nodVersion: string): Meta {
    Meta(ToHex(k), now, now, |bytes|, nodVersion, ABI_VERSION, LLVM_MAJOR, TARGET_TRIPLE, OPT_LEVEL)
  }

  function Written(files: Files, k: CacheKey, bytes: Object, now: U64, nodVersion: string): Files {
    files[ObjectName(k) := bytes][SidecarName(k) := ToJson(FreshMeta(k, bytes, now, nodVersion))]
  }

  /** The sidecar belongs to this key, this build configuration, and an object this long. */
  predicate Fits(meta: Meta, k: CacheKey, bytes: string) {
    && meta.keyHex == ToHex(k) && meta.abi == ABI_VERSION && meta.llvmMajor == LLVM_MAJOR
    && meta.triple == TARGET_TRIPLE && meta.optLevel == OPT_LEVEL && meta.size == |bytes|
  }

  /** A hit: both files are there, and the sidecar parses and fits. */
  function Lookup(files: Files, k: CacheKey): Option<(string, Meta)> {
    if ObjectName(k) !in files || SidecarName(k) !in files then None
    else match ParseMeta(files[SidecarName(k)])
      case Malformed => None
      case Ok(meta) => if Fits(meta, k, files[ObjectName(k)]) then Some((files[ObjectName(k)], meta)) else None
  }

  /** Reading refreshes the access time of a hit. */
  function Touched(files: Files, k: CacheKey, now: U64): Files {
    match Lookup(files, k)
    case None => files
    case Some((_, meta)) => files[SidecarName(k) := ToJson(meta.(accessed := now))]
  }

  /** Whatever is in the directory, a key is found exactly when both its files are there and
      the sidecar reads as one a write under the key would make for the object, in this build
      configuration, at some times and by some version. */
  lemma {:induction false} FoundIffFits(files: Files, k: CacheKey, bytes: string, meta: Meta)
    ensures Lookup(files, k) == Some((bytes, meta)) <==>
            && ToHex(k) + ".bc" in files && files[ToHex(k) + ".bc"] == bytes
            && ToHex(k) + ".json" in files && ParseMeta(files[ToHex(k) + ".json"]) == Ok(meta)
            && |bytes| == meta.size
            && meta == Meta(ToHex(k), meta.created, meta.accessed, meta.size, meta.nodVersion,
                            ABI_VERSION, LLVM_MAJOR, TARGET_TRIPLE, OPT_LEVEL)
  {
    hide ToHex, ParseMeta;
  }

  // ----- eviction -----

  /** Where the last dot is, unless the name starts with it. */
  function LastDot(s: string): Option<nat> {
    if |s| <= 1 then None
    else if s[|s| - 1] == '.' then Some(|s| - 1)
    else LastDot(s[..|s| - 1])
  }

  function Extension(name: string): Option<string> {
    match LastDot(name)
    case None => None
    case Some(i) => if i < |name| then Some(name[i + 1..]) else None
  }

  function Stem(name: string): string {
    match LastDot(name)
    case None => name
    case Some(i) => if i < |name| then name[..i] else name
  }

  datatype Entry = Entry(name: string, meta: Meta)

  function EntryOf(files: Files, name: string): Option<Entry> {
    if name !in files || Extension(name) != Some("json") then None
    else match ParseMeta(files[name])
      case Malformed => None
      case Ok(meta) => Some(Entry(name, meta))
  }

  /** The entries among the listed files, in listing order. */
  function EntriesIn(files: Files, listing: seq<string>): seq<Entry> {
    if listing == [] then []
    else
      var n := |listing| - 1;
      var before := EntriesIn(files, listing[..n]);
      match EntryOf(files, listing[n])
      case None => before
      case Some(e) => before + [e]
  }

  function SizeSum(es: seq<Entry>): nat {
    if es == [] then 0 else es[0].meta.size + SizeSum(es[1..])
  }

  function Accessed(e: Entry): nat {
    e.meta.accessed
  }

  function SaturatingAdd(a: nat, b: nat): nat {
    if a + b > U64_MAX then U64_MAX else a + b
  }

  function SaturatingSub(a: nat, b: nat): nat {
    if a < b then 0 else a - b
  }

  /** How many entries go, oldest first, until the total is within the cap. */
  function VictimCount(es: seq<Entry>, total: nat, cap: nat): (n: nat)
    ensures n <= |es|
  {
    if es == [] || total <= cap then 0 else 1 + VictimCount(es[1..], SaturatingSub(total, es[0].meta.size), cap)
  }

  /** The sidecar, the object, and the other two files an entry may have. */
  function FilesOfEntry(name: string): set<string> {
    {name, Stem(name) + ".bc", Stem(name) + ".manifest.json", Stem(name) + ".registrations.json"}
  }

  function WithoutEntries(files: Files, es: seq<Entry>): Files {
    if es == [] then files else WithoutEntries(files - FilesOfEntry(es[0].name), es[1..])
  }

  /** Least recently accessed first; entries accessed together stay in listing order. */
  function ByAge(files: Files, listing: seq<string>): seq<Entry> {
    SortBy(EntriesIn(files, listing), Accessed)
  }

  function TotalOf(files: Files, listing: seq<string>): nat {
    var sum := SizeSum(EntriesIn(files, listing));
    if sum > U64_MAX then U64_MAX else sum
  }

  function EvictCount(files: Files, listing: seq<string>, cap: nat): (n: nat)
    ensures n <= |ByAge(files, listing)|
  {
    VictimCount(ByAge(files, listing), TotalOf(files, listing), cap)
  }

  function Evicted(files: Files, listing: seq<string>, cap: nat): Files {
    WithoutEntries(files, ByAge(files, listing)[..EvictCount(files, listing, cap)])
  }

  // ----- clearing -----

  predicate IsCacheFile(name: string) {
    Extension(name) == Some("bc") || Extension(name) == Some("json")
  }

  function Cleared(files: Files, listing: seq<string>): Files {
    if listing == [] then files
    else
      var n := |listing| - 1;
      var before := Cleared(files, listing[..n]);
      if IsCacheFile(listing[n]) then before - {listing[n]} else before
  }

  // ----- the cache -----

  /** The directory. Listings come from the system, in any order. */
  class DiskCache {
    const nodVersion: string
    var files: Files

    constructor (nodVersion: string)
      ensures this.nodVersion == nodVersion && files == map[]
    {
      this.nodVersion, files := nodVersion, map[];
    }

    method WriteCacheEntry(k: CacheKey, bytes: Object, now: U64)
      modifies `files
      ensures files == Written(old(files), k, bytes, now, nodVersion)
    {
      files := files[ObjectName(k) := bytes];
      var meta := Meta(ToHex(k), now, now, |bytes|, nodVersion, ABI_VERSION, LLVM_MAJOR, TARGET_TRIPLE, OPT_LEVEL);
      files := files[SidecarName(k) := ToJson(meta)];
    }

    /** A hit yields the object and the refreshed metadata. */
    method ReadCacheEntry(k: CacheKey, now: U64) returns (r: Option<(string, Meta)>)
      modifies `files
      ensures files == Touched(old(files), k, now)
      ensures r == match Lookup(old(files), k)
                   case None => None
                   case Some((bytes, meta)) => Some((bytes, meta.(accessed := now)))
    {
      if ObjectName(k) !in files || SidecarName(k) !in files {
        return None;
      }
      var bytes := files[ObjectName(k)];
      var meta := ParseMeta(files[SidecarName(k)]);
      if meta.Malformed? || !Fits(meta.value, k, bytes) {
        return None;
      }
      var touched := meta.value.(accessed := now);
      files := files[SidecarName(k) := ToJson(touched)];
      r := Some((bytes, touched));
    }

    /** The listed files that are sidecars, and the saturated sum of their sizes. */
    method CollectEntries(listing: seq<string>) returns (entries: seq<Entry>, total: nat)
      ensures entries == EntriesIn(files, listing) && total == TotalOf(files, listing)
    {
      hide EntryOf;
      entries, total := [], 0;
      for i := 0 to |listing|
        invariant entries == EntriesIn(files, listing[..i])
        invariant total == if SizeSum(entries) > U64_MAX then U64_MAX else SizeSum(entries)
      {
        assert listing[..i + 1][..i] == listing[..i];
        var e := EntryOf(files, listing[i]);
        if e.Some? {
          SizeSumSnoc(entries, e.value);
          total := SaturatingAdd(total, e.value.meta.size);
          entries := entries + [e.value];
        }
      }
      assert listing[..|listing|] == listing;
    }

    /** Removes entries, least recently accessed first, until the rest fit the cap. */
    method EvictTo(listing: seq<string>, cap: nat) returns (evicted: nat)
      modifies `files
      ensures evicted == EvictCount(old(files), listing, cap)
      ensures files == Evicted(old(files), listing, cap)
    {
      hide FilesOfEntry, EntriesIn, TotalOf;
      var entries: seq<Entry>, total: nat := CollectEntries(listing);
      if total <= cap {
        return 0;
      }
      var sorted := SortBy(entries, Accessed);
      evicted := 0;
      ghost var first: nat := total;
      while evicted < |sorted| && total > cap
        invariant evicted <= |sorted|
        invariant files == WithoutEntries(old(files), sorted[..evicted])
        invariant VictimCount(sorted, first, cap) == evicted + VictimCount(sorted[evicted..], total, cap)
      {
        var e := sorted[evicted];
        assert sorted[evicted..][0] == e && sorted[evicted..][1..] == sorted[evicted + 1..];
        RemovedSnoc(old(files), sorted[..evicted], e);
        assert sorted[..evicted + 1] == sorted[..evicted] + [e];
        files := files - FilesOfEntry(e.name);
        total := SaturatingSub(total, e.meta.size);
        evicted := evicted + 1;
      }
    }

    method ClearCacheDir(listing: seq<string>)
      modifies `files
      ensures files == Cleared(old(files), listing)
    {
      for i := 0 to |listing|
        invariant files == Cleared(old(files), listing[..i])
      {
        assert listing[..i + 1][..i] == listing[..i];
        if IsCacheFile(listing[i]) {
          files := files - {listing[i]};
        }
      }
      assert listing[..|listing|] == listing;
    }
  }

  lemma {:induction false} SizeSumSnoc(es: seq<Entry>, e: Entry)
    ensures SizeSum(es + [e]) == SizeSum(es) + e.meta.size
  {
    if es == [] {
      assert es + [e] == [e];
    } else {
      assert (es + [e])[1..] == es[1..] + [e];
      SizeSumSnoc(es[1..], e);
    }
  }

  lemma {:induction false} RemovedSnoc(files: Files, es: seq<Entry>, e: Entry)
    ensures WithoutEntries(files, es + [e]) == WithoutEntries(files, es) - FilesOfEntry(e.name)
    decreases es
  {
    hide FilesOfEntry;
    if es == [] {
      assert es + [e] == [e];
    } else {
      assert (es + [e])[1..] == es[1..] + [e];
      RemovedSnoc(files - FilesOfEntry(es[0].name), es[1..], e);
    }
  }

  // ----- what eviction achieves -----

  /** No prefix frees enough for the total kept in the loop, which may have saturated, but
      too little for the true sum of the sizes. */
  predicate NothingBetween(es: seq<Entry>, total: nat, cap: nat) {
    forall m :: 0 <= m <= |es| ==> !(total - cap <= SizeSum(es[..m]) < SizeSum(es) - cap)
  }

  lemma PrefixSum(es: seq<Entry>, m: nat)
    requires m < |es|
    ensures SizeSum(es[..m + 1]) == es[0].meta.size + SizeSum(es[1..][..m])
  {
    assert es[..m + 1][0] == es[0] && es[..m + 1][1..] == es[1..][..m];
  }

  lemma NothingBetweenTail(es: seq<Entry>, total: nat, cap: nat)
    requires es != [] && total > cap && total <= SizeSum(es)
    ensures NothingBetween(es, total, cap) <==> NothingBetween(es[1..], SaturatingSub(total, es[0].meta.size), cap)
  {
    hide SizeSum;
    var rest, left := es[1..], SaturatingSub(total, es[0].meta.size);
    SizeSumHead(es);
    assert es[..0] == [] && SizeSum([]) == 0 by {
      SizeSumNone();
    }
    forall m | 0 <= m <= |rest|
      ensures total - cap <= SizeSum(es[..m + 1]) < SizeSum(es) - cap <==>
              left - cap <= SizeSum(rest[..m]) < SizeSum(rest) - cap
    {
      PrefixSum(es, m);
    }
    if NothingBetween(es, total, cap) {
      forall m | 0 <= m <= |rest|
        ensures !(left - cap <= SizeSum(rest[..m]) < SizeSum(rest) - cap)
      {
        assert !(total - cap <= SizeSum(es[..m + 1]) < SizeSum(es) - cap);
      }
    }
    if NothingBetween(rest, left, cap) {
      forall m | 0 <= m <= |es|
        ensures !(total - cap <= SizeSum(es[..m]) < SizeSum(es) - cap)
      {
        if m > 0 {
          assert !(left - cap <= SizeSum(rest[..m - 1]) < SizeSum(rest) - cap);
        }
      }
    }
  }

  lemma SizeSumHead(es: seq<Entry>)
    requires es != []
    ensures SizeSum(es) == es[0].meta.size + SizeSum(es[1..])
  {
  }

  lemma SizeSumNone()
    ensures SizeSum([]) == 0
  {
  }

  /** However far the total lags behind the true sum, no entry goes that could have stayed;
      and what stays fits the cap exactly when no prefix lies between the two. */
  lemma {:induction false} VictimsExact(es: seq<Entry>, total: nat, cap: nat)
    requires total <= SizeSum(es)
    ensures var n := VictimCount(es, total, cap);
            && (n > 0 ==> SizeSum(es[n - 1..]) > cap)
            && (SizeSum(es[n..]) <= cap <==> NothingBetween(es, total, cap))
    decreases es
  {
    hide SizeSum, NothingBetween;
    assert es[0..] == es;
    if es == [] || total <= cap {
      StopsAtOnce(es, total, cap);
    } else {
      var left := SaturatingSub(total, es[0].meta.size);
      SizeSumHead(es);
      VictimsExact(es[1..], left, cap);
      NothingBetweenTail(es, total, cap);
      var n := VictimCount(es[1..], left, cap);
      assert es[1..][n..] == es[n + 1..];
      if n > 0 {
        assert es[1..][n - 1..] == es[n..];
      }
    }
  }

  lemma StopsAtOnce(es: seq<Entry>, total: nat, cap: nat)
    requires es == [] || total <= cap
    ensures SizeSum(es) <= cap <==> NothingBetween(es, total, cap)
  {
    assert es[..0] == [] && SizeSum([]) == 0;
    if SizeSum(es) > cap {
      assert total - cap <= SizeSum(es[..0]) < SizeSum(es) - cap;
    }
  }

  lemma {:induction false} SizeSumOfSorted(es: seq<Entry>, key: Entry -> nat)
    ensures SizeSum(SortBy(es, key)) == SizeSum(es)
  {
    if es != [] {
      var n := |es| - 1;
      SizeSumOfSorted(es[..n], key);
      SizeSumOfInserted(SortBy(es[..n], key), es[n], key);
      SizeSumSnoc(es[..n], es[n]);
      assert es == es[..n] + [es[n]];
    }
  }

  lemma {:induction false} SizeSumOfInserted(es: seq<Entry>, e: Entry, key: Entry -> nat)
    ensures SizeSum(InsertBy(es, e, key)) == SizeSum(es) + e.meta.size
  {
    if es != [] {
      var n := |es| - 1;
      assert es == es[..n] + [es[n]];
      SizeSumSnoc(es[..n], es[n]);
      if key(es[n]) <= key(e) {
        SizeSumSnoc(es, e);
      } else {
        SizeSumOfInserted(es[..n], e, key);
        SizeSumSnoc(InsertBy(es[..n], e, key), es[n]);
      }
    }
  }

  lemma SortedByAge(es: seq<Entry>)
    requires SortedBy(es, Accessed)
    ensures forall i, j :: 0 <= i < j < |es| ==> es[i].meta.accessed <= es[j].meta.accessed
  {
    forall i, j | 0 <= i < j < |es|
      ensures es[i].meta.accessed <= es[j].meta.accessed
    {
      assert Accessed(es[i]) <= Accessed(es[j]);
    }
  }

  /** Eviction takes a least recently accessed prefix, and no entry it could have kept. What
      is kept fits the cap exactly when the sizes of no prefix fall between what the
      saturated total and what the true sum ask to be freed; so always when the sizes add up
      within 64 bits. */
  lemma {:induction false} EvictionExact(files: Files, listing: seq<string>, cap: nat)
    ensures var es, n := ByAge(files, listing), EvictCount(files, listing, cap);
            && multiset(es) == multiset(EntriesIn(files, listing))
            && (forall i, j :: 0 <= i < n <= j < |es| ==> es[i].meta.accessed <= es[j].meta.accessed)
            && (n > 0 ==> SizeSum(es[n - 1..]) > cap)
            && (SizeSum(es[n..]) <= cap <==> NothingBetween(es, TotalOf(files, listing), cap))
            && (SizeSum(es) <= U64_MAX ==> SizeSum(es[n..]) <= cap)
  {
    hide EntriesIn, SizeSum, VictimCount, SortBy, SortedBy;
    var entries := EntriesIn(files, listing);
    var es := ByAge(files, listing);
    SortSorts(entries, Accessed);
    SizeSumOfSorted(entries, Accessed);
    SortedByAge(es);
    VictimsExact(es, TotalOf(files, listing), cap);
  }

  // ----- runs -----

  datatype Op =
    | WriteOp(key: CacheKey, bytes: Object, now: U64)
    | ReadOp(key: CacheKey, now: U64)
    | EvictOp(listing: seq<string>, cap: nat)
    | ClearOp(listing: seq<string>)

  function Apply(files: Files, op: Op, nodVersion: string): Files {
    match op
    case WriteOp(k, bytes, now) => Written(files, k, bytes, now, nodVersion)
    case ReadOp(k, now) => Touched(files, k, now)
    case EvictOp(listing, cap) => Evicted(files, listing, cap)
    case ClearOp(listing) => Cleared(files, listing)
  }

  function RunOps(ops: seq<Op>, nodVersion: string): Files {
    if ops == [] then map[] else Apply(RunOps(ops[..|ops| - 1], nodVersion), ops[|ops| - 1], nodVersion)
  }

  /** The object last written under a key. */
  function LastWritten(ops: seq<Op>, k: CacheKey): Option<string> {
    if ops == [] then None
    else
      var op := ops[|ops| - 1];
      if op.WriteOp? && op.key == k then Some(op.bytes) else LastWritten(ops[..|ops| - 1], k)
  }

  /** When the key was last written. */
  function WrittenAt(ops: seq<Op>, k: CacheKey): Option<U64> {
    if ops == [] then None
    else
      var op := ops[|ops| - 1];
      if op.WriteOp? && op.key == k then Some(op.now) else WrittenAt(ops[..|ops| - 1], k)
  }

  /** When the key was last written or read. */
  function UsedAt(ops: seq<Op>, k: CacheKey): Option<U64> {
    if ops == [] then None
    else
      var op := ops[|ops| - 1];
      if (op.WriteOp? || op.ReadOp?) && op.key == k then Some(op.now) else UsedAt(ops[..|ops| - 1], k)
  }

  lemma {:induction false} EvictionOnlyRemoves(files: Files, es: seq<Entry>)
    ensures WithoutEntries(files, es).Keys <= files.Keys
    ensures forall name :: name in WithoutEntries(files, es) ==> WithoutEntries(files, es)[name] == files[name]
    decreases es
  {
    hide FilesOfEntry;
    if es != [] {
      EvictionOnlyRemoves(files - FilesOfEntry(es[0].name), es[1..]);
    }
  }

  lemma {:induction false} ClearingOnlyRemoves(files: Files, listing: seq<string>)
    ensures Cleared(files, listing).Keys <= files.Keys
    ensures forall name :: name in Cleared(files, listing) ==> Cleared(files, listing)[name] == files[name]
  {
    hide IsCacheFile;
    if listing != [] {
      ClearingOnlyRemoves(files, listing[..|listing| - 1]);
    }
  }

  /** An object file, if there, holds what was last written under its key. */
  lemma {:induction false} ObjectsAreLastWritten(ops: seq<Op>, nodVersion: string, k: CacheKey)
    ensures var files := RunOps(ops, nodVersion);
            ObjectName(k) in files ==> LastWritten(ops, k) == Some(files[ObjectName(k)])
  {
    hide ObjectName, SidecarName, Lookup, ToJson, Evicted, Cleared;
    if ops != [] {
      var n := |ops| - 1;
      ObjectsAreLastWritten(ops[..n], nodVersion, k);
      var before := RunOps(ops[..n], nodVersion);
      match ops[n]
      case WriteOp(m, _, _) => NamesApart(k, m);
      case ReadOp(m, _) => NamesApart(k, m);
      case EvictOp(listing, cap) => EvictedOnlyRemoves(before, listing, cap);
      case ClearOp(listing) => ClearingOnlyRemoves(before, listing);
    }
  }

  lemma EvictedOnlyRemoves(files: Files, listing: seq<string>, cap: nat)
    ensures Evicted(files, listing, cap).Keys <= files.Keys
    ensures forall name :: name in Evicted(files, listing, cap) ==> Evicted(files, listing, cap)[name] == files[name]
  {
    hide EvictCount, ByAge;
    EvictionOnlyRemoves(files, ByAge(files, listing)[..EvictCount(files, listing, cap)]);
  }

  /** Cache safety: after any run of writes, reads, evictions and clears, a lookup gives
      nothing or exactly the object last written under the key. */
  lemma {:induction false} CacheSafe(ops: seq<Op>, nodVersion: string, k: CacheKey)
    ensures var r := Lookup(RunOps(ops, nodVersion), k);
            r.Some? ==> LastWritten(ops, k) == Some(r.value.0)
  {
    hide ObjectName, SidecarName, RunOps, LastWritten;
    ObjectsAreLastWritten(ops, nodVersion, k);
  }

  /** Both files of the key are there, the sidecar reads as quote-free metadata that fits. */
  predicate IsHit(files: Files, k: CacheKey) {
    && Lookup(files, k).Some? && PlainStrings(Lookup(files, k).value.1)
  }

  lemma KeyIsPlain(k: CacheKey)
    ensures QuoteFree(ToHex(k)) && QuoteFree(TARGET_TRIPLE)
  {
    ToHexInjective(k, k);
  }

  lemma {:induction false} WrittenIsHit(files: Files, k: CacheKey, bytes: Object, now: U64, nodVersion: string)
    requires QuoteFree(nodVersion)
    ensures IsHit(Written(files, k, bytes, now, nodVersion), k)
    ensures Lookup(Written(files, k, bytes, now, nodVersion), k) ==
              Some((bytes, Meta(ToHex(k), now, now, |bytes|, nodVersion, ABI_VERSION, LLVM_MAJOR, TARGET_TRIPLE,
                  OPT_LEVEL)))
  {
    hide ObjectName, SidecarName, ToJson, ParseMeta, ToHex, QuoteFree;
    NamesApart(k, k);
    KeyIsPlain(k);
    ParseInvertsToJson(FreshMeta(k, bytes, now, nodVersion));
  }

  lemma {:induction false} TouchedIsHit(files: Files, k: CacheKey, now: U64)
    requires IsHit(files, k)
    ensures IsHit(Touched(files, k, now), k)
    ensures var (bytes, meta) := Lookup(files, k).value;
            Lookup(Touched(files, k, now), k) == Some((bytes, meta.(accessed := now)))
  {
    hide ObjectName, SidecarName, ToJson, ParseMeta, ToHex, QuoteFree;
    NamesApart(k, k);
    ParseInvertsToJson(Lookup(files, k).value.1.(accessed := now));
  }

  /** Writing or touching one key leaves the lookup of another alone. */
  lemma {:induction false} OtherKeyUnchanged(files: Files, k: CacheKey, m: CacheKey, bytes: Object, now: U64,
                        nodVersion: string)
    requires k != m
    ensures Lookup(Written(files, m, bytes, now, nodVersion), k) == Lookup(files, k)
    ensures Lookup(Touched(files, m, now), k) == Lookup(files, k)
  {
    hide ObjectName, SidecarName, ToJson, ParseMeta, Fits;
    NamesApart(k, m);
    NamesApart(m, k);
  }

  // ----- whole entries -----

  lemma {:induction false} DotAt(stem: string, ext: string)
    requires stem != "" && '.' !in ext
    ensures LastDot(stem + "." + ext) == Some(|stem|)
  {
    var s := stem + "." + ext;
    if ext != "" {
      var n := |ext| - 1;
      assert s[|s| - 1] == ext[n] && ext[n] in ext;
      assert s[..|s| - 1] == stem + "." + ext[..n];
      DotAt(stem, ext[..n]);
    } else {
      assert s[|s| - 1] == '.';
    }
  }

  /** An evicted entry loses its object file with its sidecar, and the two other files it may
      have. */
  lemma EntryFilesOf(k: CacheKey)
    ensures FilesOfEntry(SidecarName(k)) ==
            {SidecarName(k), ObjectName(k), ToHex(k) + ".manifest.json", ToHex(k) + ".registrations.json"}
    ensures Extension(SidecarName(k)) == Some("json")
  {
    hide ToHex, LastDot;
    ToHexLength(k);
    DotAt(ToHex(k), "json");
    assert SidecarName(k) == ToHex(k) + "." + "json";
    assert SidecarName(k)[..|ToHex(k)|] == ToHex(k);
    assert SidecarName(k)[|ToHex(k)| + 1..] == "json";
  }

  lemma {:induction false} LastDotSplits(s: string)
    requires LastDot(s).Some?
    ensures var i := LastDot(s).value; i < |s| && s[i] == '.' && s == s[..i] + "." + s[i + 1..]
  {
    if s[|s| - 1] != '.' {
      LastDotSplits(s[..|s| - 1]);
    }
  }

  /** A file's extension is what follows its last dot, unless it starts with that dot. */
  lemma {:induction false} ExtensionIs(name: string, ext: string)
    requires '.' !in ext
    ensures Extension(name) == Some(ext) <==> exists stem: string :: stem != "" && name == stem + "." + ext
    ensures forall stem: string :: stem != "" && name == stem + "." + ext ==> Stem(name) == stem
  {
    hide LastDot;
    if Extension(name) == Some(ext) {
      LastDotSplits(name);
      LastDotInside(name);
      var stem := name[..LastDot(name).value];
      assert stem != "" && name == stem + "." + ext;
    }
    forall stem: string | stem != "" && name == stem + "." + ext
      ensures Extension(name) == Some(ext) && Stem(name) == stem
    {
      DotAt(stem, ext);
      assert name[..|stem|] == stem && name[|stem| + 1..] == ext;
    }
  }

  lemma {:induction false} LastDotInside(s: string)
    ensures LastDot(s).Some? ==> LastDot(s).value > 0
  {
    if |s| > 1 && s[|s| - 1] != '.' {
      LastDotInside(s[..|s| - 1]);
    }
  }

  /** What counts as a cache file. */
  lemma {:induction false} CacheFileIff(name: string)
    ensures IsCacheFile(name) <==>
            exists stem: string :: stem != "" && (name == stem + "." + "bc" || name == stem + "." + "json")
  {
    hide Extension;
    ExtensionIs(name, "bc");
    ExtensionIs(name, "json");
  }

  /** The entries are the listed sidecars that parse. */
  lemma {:induction false} EntriesAre(files: Files, listing: seq<string>, e: Entry)
    ensures e in EntriesIn(files, listing) <==>
            && e.name in listing && e.name in files && ParseMeta(files[e.name]) == Ok(e.meta)
            && exists stem: string :: stem != "" && e.name == stem + "." + "json"
  {
    hide ParseMeta, Extension;
    ExtensionIs(e.name, "json");
    EntriesAreListed(files, listing, e);
  }

  lemma {:induction false} EntriesAreListed(files: Files, listing: seq<string>, e: Entry)
    ensures e in EntriesIn(files, listing) <==> e.name in listing && EntryOf(files, e.name) == Some(e)
  {
    hide ParseMeta, Extension;
    if listing != [] {
      var n := |listing| - 1;
      EntriesAreListed(files, listing[..n], e);
      assert listing == listing[..n] + [listing[n]];
    }
  }

  lemma EndsApart(a: string, x: string, b: string, y: string)
    requires x != "" && y != "" && x[|x| - 1] != y[|y| - 1]
    ensures a + x != b + y
  {
    assert (a + x)[|a + x| - 1] == x[|x| - 1] && (b + y)[|b + y| - 1] == y[|y| - 1];
  }

  /** A stem without dots is no stem with more before the extension. */
  lemma LongerExtension(stem: string, middle: string, hex: string)
    requires middle != "" && middle[0] == '.' && '.' !in hex
    ensures stem + (middle + ".json") != hex + ".json"
  {
    assert stem + (middle + ".json") == (stem + middle) + ".json";
    SameStem(stem + middle, hex, ".json");
    assert (stem + middle)[|stem|] == '.';
  }

  /** The files of another entry are not this key's. */
  lemma OtherEntryFiles(name: string, k: CacheKey)
    requires Extension(name) == Some("json") && name != SidecarName(k)
    ensures SidecarName(k) !in FilesOfEntry(name) && ObjectName(k) !in FilesOfEntry(name)
  {
    hide ToHex, LastDot, IsDigit;
    LastDotSplits(name);
    var stem, hex := Stem(name), ToHex(k);
    assert name == stem + ".json";
    SameStem(stem, hex, ".json");
    SameStem(stem, hex, ".bc");
    ToHexInjective(k, k);
    assert '.' !in hex by {
      assert !IsDigit('.') by {
        DotIsNoDigit();
      }
    }
    LongerExtension(stem, ".manifest", hex);
    LongerExtension(stem, ".registrations", hex);
    EndsApart(stem, ".bc", hex, ".json");
    EndsApart(stem, ".json", hex, ".bc");
    EndsApart(stem, ".manifest.json", hex, ".bc");
    EndsApart(stem, ".registrations.json", hex, ".bc");
    assert ".manifest" + ".json" == ".manifest.json" && ".registrations" + ".json" == ".registrations.json";
  }

  lemma DotIsNoDigit()
    ensures !IsDigit('.')
  {
  }

  /** A file stays exactly when it belongs to no removed entry. */
  lemma {:induction false} StaysIff(files: Files, es: seq<Entry>, name: string)
    ensures name in WithoutEntries(files, es) <==> name in files && forall e :: e in es ==>
              name !in FilesOfEntry(e.name)
    decreases es
  {
    hide FilesOfEntry;
    if es != [] {
      StaysIff(files - FilesOfEntry(es[0].name), es[1..], name);
      assert forall e :: e in es <==> e == es[0] || e in es[1..];
    }
  }

  lemma {:induction false} EntriesAreSidecars(files: Files, listing: seq<string>)
    ensures forall e :: e in EntriesIn(files, listing) ==> Extension(e.name) == Some("json")
  {
    hide ParseMeta, Extension;
    if listing != [] {
      EntriesAreSidecars(files, listing[..|listing| - 1]);
    }
  }

  /** Eviction, key by key: a key misses if its entry was among those removed, and is as it
      was otherwise. */
  lemma {:induction false} EvictionByKey(files: Files, listing: seq<string>, cap: nat, k: CacheKey)
    ensures var victims := ByAge(files, listing)[..EvictCount(files, listing, cap)];
            Lookup(Evicted(files, listing, cap), k) ==
            if exists e :: e in victims && e.name == SidecarName(k) then None else Lookup(files, k)
  {
    hide EntriesIn, FilesOfEntry, VictimCount, SortBy, SortedBy, ParseMeta, ToHex, Extension, Fits, TotalOf;
    var entries, victims := EntriesIn(files, listing), ByAge(files, listing)[..EvictCount(files, listing, cap)];
    EntriesAreSidecars(files, listing);
    SortSorts(entries, Accessed);
    StaysIff(files, victims, SidecarName(k));
    StaysIff(files, victims, ObjectName(k));
    EvictedOnlyRemoves(files, listing, cap);
    if e :| e in victims && e.name == SidecarName(k) {
      EntryFilesOf(k);
    } else {
      forall e | e in victims
        ensures SidecarName(k) !in FilesOfEntry(e.name) && ObjectName(k) !in FilesOfEntry(e.name)
      {
        assert e in multiset(ByAge(files, listing));
        assert e in entries;
        OtherEntryFiles(e.name, k);
      }
    }
  }

  /** Clearing takes the listed cache files and nothing else. */
  lemma {:induction false} ClearedIff(files: Files, listing: seq<string>, name: string)
    ensures name in Cleared(files, listing) <==> name in files && !(name in listing && IsCacheFile(name))
  {
    hide IsCacheFile;
    if listing != [] {
      var n := |listing| - 1;
      ClearedIff(files, listing[..n], name);
      assert listing == listing[..n] + [listing[n]];
    }
  }

  /** Clearing, key by key: a key misses if one of its files was listed, and is as it was
      otherwise. */
  lemma {:induction false} ClearingByKey(files: Files, listing: seq<string>, k: CacheKey)
    ensures Lookup(Cleared(files, listing), k) ==
            if SidecarName(k) in listing || ObjectName(k) in listing then None else Lookup(files, k)
  {
    hide Cleared, ParseMeta, Fits, ObjectName, SidecarName, Extension;
    ClearedIff(files, listing, SidecarName(k));
    ClearedIff(files, listing, ObjectName(k));
    ClearingOnlyRemoves(files, listing);
    EntryFilesOf(k);
    ObjectExtension(k);
  }

  lemma ObjectExtension(k: CacheKey)
    ensures Extension(ObjectName(k)) == Some("bc")
  {
    hide ToHex, LastDot;
    ToHexLength(k);
    DotAt(ToHex(k), "bc");
    assert ObjectName(k) == ToHex(k) + "." + "bc";
    assert ObjectName(k)[|ToHex(k)| + 1..] == "bc";
  }

  // ----- what stays found -----

  /** Eviction at this state would take the key's entry. */
  predicate Evicts(files: Files, listing: seq<string>, cap: nat, k: CacheKey) {
    exists e :: e in ByAge(files, listing)[..EvictCount(files, listing, cap)] && e.name == SidecarName(k)
  }

  /** An operation that does not take the key's files: a write, a read, an eviction whose
      victims are others, a clear that lists neither file. */
  predicate Spares(files: Files, op: Op, k: CacheKey) {
    match op
    case EvictOp(listing, cap) => !Evicts(files, listing, cap, k)
    case ClearOp(listing) => SidecarName(k) !in listing && ObjectName(k) !in listing
    case _ => true
  }

  /** The key was written, and every operation since spared it. */
  predicate KeptSince(ops: seq<Op>, nodVersion: string, k: CacheKey) {
    ops != [] &&
    var n := |ops| - 1;
    if ops[n].WriteOp? && ops[n].key == k then true
    else Spares(RunOps(ops[..n], nodVersion), ops[n], k) && KeptSince(ops[..n], nodVersion, k)
  }

  /** One operation other than a write of the key keeps a hit a hit of the same object if it
      spares the key, makes it a miss if it does not, and never makes a miss a hit. */
  lemma {:induction false} OneOperation(files: Files, op: Op, nodVersion: string, k: CacheKey)
    requires !(op.WriteOp? && op.key == k)
    ensures var after := Apply(files, op, nodVersion);
            && (Lookup(files, k).None? || !Spares(files, op, k) ==> Lookup(after, k).None?)
            && (IsHit(files, k) && Spares(files, op, k) ==>
                  && IsHit(after, k)
                  && var (bytes, meta) := Lookup(files, k).value;
                     Lookup(after, k) ==
                     Some((bytes, if op.ReadOp? && op.key == k then meta.(accessed := op.now) else meta)))
  {
    hide Lookup, Written, Evicted, Cleared, Touched, QuoteFree, ObjectName, SidecarName, EvictCount, ByAge;
    match op
    case WriteOp(m, bytes, now) =>
      OtherKeyUnchanged(files, k, m, bytes, now, nodVersion);
    case ReadOp(m, now) =>
      if m != k {
        OtherKeyUnchanged(files, k, m, "", now, nodVersion);
      } else if IsHit(files, k) {
        TouchedIsHit(files, k, now);
      } else if Lookup(files, k).None? {
        UntouchedMiss(files, k, now);
      }
    case EvictOp(listing, cap) =>
      EvictionByKey(files, listing, cap, k);
    case ClearOp(listing) =>
      ClearingByKey(files, listing, k);
  }

  lemma UntouchedMiss(files: Files, k: CacheKey, now: U64)
    requires Lookup(files, k).None?
    ensures Touched(files, k, now) == files
  {
    hide Lookup;
  }

  /** After any run a key is found exactly when it was written and no eviction or clear
      since has taken it, however often it was read and whatever else was removed. What is
      found is the object last written, with metadata that says when that was, when the key
      was last written or read, and what build wrote it. */
  lemma {:induction false} FoundIffKept(ops: seq<Op>, nodVersion: string, k: CacheKey)
    requires QuoteFree(nodVersion)
    ensures var r := Lookup(RunOps(ops, nodVersion), k);
            && (r.Some? <==> KeptSince(ops, nodVersion, k))
            && (r.Some? ==>
                  && IsHit(RunOps(ops, nodVersion), k) && LastWritten(ops, k) == Some(r.value.0)
                  && WrittenAt(ops, k).Some? && UsedAt(ops, k).Some?
                  && r.value.1 == Meta(ToHex(k), WrittenAt(ops, k).value, UsedAt(ops, k).value, |r.value.0|, nodVersion,
                                       ABI_VERSION, LLVM_MAJOR, TARGET_TRIPLE, OPT_LEVEL))
  {
    hide IsHit, Lookup, Written, Apply, QuoteFree, Spares;
    if ops == [] {
      EmptyMisses(k);
    } else {
      var n := |ops| - 1;
      var before := RunOps(ops[..n], nodVersion);
      if ops[n].WriteOp? && ops[n].key == k {
        WrittenIsHit(before, k, ops[n].bytes, ops[n].now, nodVersion);
        WriteApplied(before, ops[n], nodVersion);
        HitIsFound(RunOps(ops, nodVersion), k);
      } else {
        FoundIffKept(ops[..n], nodVersion, k);
        OneOperation(before, ops[n], nodVersion, k);
        HitIsFound(RunOps(ops, nodVersion), k);
      }
    }
  }

  lemma EmptyMisses(k: CacheKey)
    ensures Lookup(map[], k).None?
  {
  }

  lemma WriteApplied(files: Files, op: Op, nodVersion: string)
    requires op.WriteOp?
    ensures Apply(files, op, nodVersion) == Written(files, op.key, op.bytes, op.now, nodVersion)
  {
  }

  lemma HitIsFound(files: Files, k: CacheKey)
    ensures IsHit(files, k) ==> Lookup(files, k).Some?
  {
    hide Lookup;
  }

  // ----- saturation -----

  /** A sidecar that claims the largest size. */
  function Largest(k: CacheKey, accessed: U64): Meta {
    Meta(ToHex(k), 0, accessed, U64_MAX, "", ABI_VERSION, LLVM_MAJOR, TARGET_TRIPLE, OPT_LEVEL)
  }

  function TwoLargest(k: CacheKey, m: CacheKey): Files {
    map[SidecarName(k) := ToJson(Largest(k, 0)), SidecarName(m) := ToJson(Largest(m, 1))]
  }

  lemma LargestEntry(files: Files, k: CacheKey, accessed: U64)
    requires SidecarName(k) in files && files[SidecarName(k)] == ToJson(Largest(k, accessed))
    ensures EntryOf(files, SidecarName(k)) == Some(Entry(SidecarName(k), Largest(k, accessed)))
  {
    hide ToJson, ParseMeta, ToHex, SidecarName, Extension, QuoteFree;
    EntryFilesOf(k);
    KeyIsPlain(k);
    NoQuotes();
    ParseInvertsToJson(Largest(k, accessed));
  }

  lemma NoQuotes()
    ensures QuoteFree("")
  {
  }

  lemma EntriesOfTwo(files: Files, a: string, b: string)
    ensures EntriesIn(files, [a, b]) ==
            (match EntryOf(files, a) case None => [] case Some(e) => [e])
            + match EntryOf(files, b) case None => [] case Some(e) => [e]
  {
    hide EntryOf;
    assert [a, b][..1] == [a] && [a][..0] == [];
    assert EntriesIn(files, []) == [];
    assert EntriesIn(files, [a]) == (match EntryOf(files, a) case None => [] case Some(e) => [e]);
  }

  lemma TwoInOrder(d: Entry, e: Entry)
    requires Accessed(d) <= Accessed(e)
    ensures SortBy([d, e], Accessed) == [d, e] && SizeSum([d, e]) == d.meta.size + e.meta.size
              && SizeSum([e]) == e.meta.size
  {
    assert [d, e][..1] == [d] && [d][..0] == [];
    assert SortBy([d][..0], Accessed) == [];
    assert SortBy([d], Accessed) == InsertBy([], d, Accessed) == [d];
    assert [d, e][1..] == [e] && [e][1..] == [];
    assert SizeSum([]) == 0 && SizeSum([e]) == e.meta.size;
  }

  lemma OneVictim(d: Entry, e: Entry)
    requires d.meta.size == U64_MAX
    ensures VictimCount([d, e], U64_MAX, U64_MAX - 1) == 1
  {
    assert [d, e][1..] == [e];
    assert VictimCount([e], 0, U64_MAX - 1) == 0;
  }

  /** When the sizes overflow, the total stops at its limit and eviction can stop short: of
      two sidecars that both claim the largest size one goes, and the other alone is still
      over the cap. */
  lemma {:induction false} SaturationStopsShort(k: CacheKey, m: CacheKey)
    requires k != m
    ensures var files, listing, cap := TwoLargest(k, m), [SidecarName(k), SidecarName(m)], U64_MAX - 1;
            var after := Evicted(files, listing, cap);
            && EvictCount(files, listing, cap) == 1
            && SidecarName(m) in after
            && SizeSum(EntriesIn(after, listing)) > cap
  {
    hide EntriesIn, SizeSum, VictimCount, SortBy, EntryOf, FilesOfEntry, ToJson, SidecarName, ToHex, Largest, Extension;
    var files, listing, cap := TwoLargest(k, m), [SidecarName(k), SidecarName(m)], U64_MAX - 1;
    NamesApart(k, m);
    var d, e := Entry(SidecarName(k), Largest(k, 0)), Entry(SidecarName(m), Largest(m, 1));
    LargestIs(k, 0);
    LargestIs(m, 1);
    LargestEntry(files, k, 0);
    LargestEntry(files, m, 1);
    EntriesOfTwo(files, SidecarName(k), SidecarName(m));
    assert EntriesIn(files, listing) == [d, e];
    TwoInOrder(d, e);
    OneVictim(d, e);
    var after := Evicted(files, listing, cap);
    assert ByAge(files, listing)[..1] == [d];
    OneRemoved(files, d);
    EntryFilesOf(m);
    OtherEntryFiles(SidecarName(k), m) by {
      EntryFilesOf(k);
    }
    LargestEntry(after, m, 1);
    EntriesOfTwo(after, SidecarName(k), SidecarName(m));
    SizeSumSnoc([], e);
    assert [] + [e] == [e];
    match EntryOf(after, SidecarName(k))
    case None =>
    case Some(x) => SizeSumSnoc([x], e);
  }

  lemma LargestIs(k: CacheKey, accessed: U64)
    ensures Largest(k, accessed).size == U64_MAX && Largest(k, accessed).accessed == accessed
  {
  }

  lemma OneRemoved(files: Files, e: Entry)
    ensures WithoutEntries(files, [e]) == files - FilesOfEntry(e.name)
  {
    hide FilesOfEntry;
    assert [e][1..] == [];
    assert WithoutEntries(files - FilesOfEntry(e.name), []) == files - FilesOfEntry(e.name);
  }
}
