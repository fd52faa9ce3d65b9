/** Cache keys and the sidecar file beside each cached object: a fixed JSON shape, and a
    reader that finds each field by its quoted name. */
module Sidecar {
  import opened Ir
  import opened Text

  // ----- keys -----

  /** Four 64-bit words. */
  datatype CacheKey = CacheKey(w0: U64, w1: U64, w2: U64, w3: U64)

  /** The `n` low bytes, least significant first. */
  function LeBytes(w: nat, n: nat): (r: seq<U8>)
    ensures |r| == n
  {
    if n == 0 then [] else [w % 256] + LeBytes(w / 256, n - 1)
  }

  function ToHex(k: CacheKey): string {
    HexBytes(LeBytes(k.w0, 8) + LeBytes(k.w1, 8) + LeBytes(k.w2, 8) + LeBytes(k.w3, 8))
  }

  function Power256(n: nat): nat {
    if n == 0 then 1 else 256 * Power256(n - 1)
  }

  lemma {:induction false} LeBytesInjective(v: nat, w: nat, n: nat)
    requires v < Power256(n) && w < Power256(n) && LeBytes(v, n) == LeBytes(w, n)
    ensures v == w
  {
    if n > 0 {
      assert LeBytes(v, n)[0] == LeBytes(w, n)[0];
      assert LeBytes(v, n)[1..] == LeBytes(v / 256, n - 1) && LeBytes(w, n)[1..] == LeBytes(w / 256, n - 1);
      LeBytesInjective(v / 256, w / 256, n - 1);
    }
  }

  lemma WordRange(w: U64)
    ensures w < Power256(8)
  {
    assert Power256(2) == 65536 && Power256(4) == 256 * (256 * Power256(2));
    assert Power256(6) == 256 * (256 * Power256(4)) && Power256(8) == 256 * (256 * Power256(6));
  }

  lemma HexBytesInjective(a: seq<U8>, b: seq<U8>)
    requires HexBytes(a) == HexBytes(b)
    ensures a == b
  {
    ParseHexPairsOf(a);
    ParseHexPairsOf(b);
  }

  function LeValue(bytes: seq<U8>): nat {
    if bytes == [] then 0 else bytes[0] + 256 * LeValue(bytes[1..])
  }

  lemma {:induction false} LeBytesValue(w: nat, n: nat)
    requires w < Power256(n)
    ensures LeValue(LeBytes(w, n)) == w
  {
    if n > 0 {
      LeBytesValue(w / 256, n - 1);
      assert LeBytes(w, n)[1..] == LeBytes(w / 256, n - 1);
    }
  }

  /** A key's name is its four words' bytes in hexadecimal, each word's least significant
      byte first. */
  lemma {:induction false} ToHexReads(k: CacheKey) returns (bytes: seq<U8>)
    ensures |ToHex(k)| == 64 && ParseHexPairs(ToHex(k)) == Ok(bytes) && |bytes| == 32
    ensures LeValue(bytes[..8]) == k.w0 && LeValue(bytes[8..16]) == k.w1
    ensures LeValue(bytes[16..24]) == k.w2 && LeValue(bytes[24..]) == k.w3
  {
    hide LeBytes, HexBytes, Power256, ParseHexPairs, LeValue;
    var b0, b1, b2, b3 := LeBytes(k.w0, 8), LeBytes(k.w1, 8), LeBytes(k.w2, 8), LeBytes(k.w3, 8);
    bytes := b0 + b1 + b2 + b3;
    ParseHexPairsOf(bytes);
    ToHexLength(k);
    WordRange(k.w0);
    WordRange(k.w1);
    WordRange(k.w2);
    WordRange(k.w3);
    LeBytesValue(k.w0, 8);
    LeBytesValue(k.w1, 8);
    LeBytesValue(k.w2, 8);
    LeBytesValue(k.w3, 8);
    assert bytes[..8] == b0 && bytes[8..16] == b1 && bytes[16..24] == b2 && bytes[24..] == b3;
  }

  /** Different keys have different file names: 64 hexadecimal digits each. */
  lemma ToHexInjective(k: CacheKey, m: CacheKey)
    ensures ToHex(k) == ToHex(m) <==> k == m
    ensures forall c :: c in ToHex(k) ==> IsDigit(c)
  {
    hide LeBytes, HexBytes, Power256;
    var a0, a1, a2, a3 := LeBytes(k.w0, 8), LeBytes(k.w1, 8), LeBytes(k.w2, 8), LeBytes(k.w3, 8);
    var b0, b1, b2, b3 := LeBytes(m.w0, 8), LeBytes(m.w1, 8), LeBytes(m.w2, 8), LeBytes(m.w3, 8);
    ParseHexPairsOf(a0 + a1 + a2 + a3);
    if ToHex(k) == ToHex(m) {
      var a, b := a0 + a1 + a2 + a3, b0 + b1 + b2 + b3;
      HexBytesInjective(a, b);
      assert a0 == a[..8] == b0 && a1 == a[8..16] == b1 && a2 == a[16..24] == b2 && a3 == a[24..] == b3;
      WordRange(k.w0);
      WordRange(k.w1);
      WordRange(k.w2);
      WordRange(k.w3);
      WordRange(m.w0);
      WordRange(m.w1);
      WordRange(m.w2);
      WordRange(m.w3);
      LeBytesInjective(k.w0, m.w0, 8);
      LeBytesInjective(k.w1, m.w1, 8);
      LeBytesInjective(k.w2, m.w2, 8);
      LeBytesInjective(k.w3, m.w3, 8);
    }
  }

  lemma {:induction false} HexBytesLength(bytes: seq<U8>)
    ensures |HexBytes(bytes)| == 2 * |bytes|
  {
    if bytes != [] {
      HexBytesLength(bytes[..|bytes| - 1]);
    }
  }

  lemma ToHexLength(k: CacheKey)
    ensures |ToHex(k)| == 64
  {
    hide HexBytes, LeBytes;
    HexBytesLength(LeBytes(k.w0, 8) + LeBytes(k.w1, 8) + LeBytes(k.w2, 8) + LeBytes(k.w3, 8));
  }

  // ----- the JSON text -----

  datatype Meta = Meta(keyHex: string, created: U64, accessed: U64, size: U64, nodVersion: string,
                       abi: U32, llvmMajor: U32, triple: string, optLevel: U8)

  datatype Value = Str(s: string) | Num(n: nat)

  datatype Field = Field(name: string, value: Value)

  function ValueText(v: Value): string {
    match v
    case Str(s) => "\"" + s + "\""
    case Num(n) => Decimal(n)
  }

  /** A field's name as it is searched for. */
  function Needle(k: string): string {
    "\"" + k + "\":"
  }

  function FieldText(f: Field): string {
    Needle(f.name) + ValueText(f.value)
  }

  function FieldsOf(m: Meta): (r: seq<Field>)
    ensures |r| == 9
  {
    [Field("key", Str(m.keyHex)), Field("created_at_unix_ms", Num(m.created)), Field("accessed_at_unix_ms",
        Num(m.accessed)),
     Field("size_bytes", Num(m.size)), Field("nod_version", Str(m.nodVersion)), Field("abi_version", Num(m.abi)),
     Field("llvm_major", Num(m.llvmMajor)), Field("target_triple", Str(m.triple)), Field("opt_level", Num(m.optLevel))]
  }

  /** The fields, separated by commas, and the closing brace. */
  function FieldsText(fs: seq<Field>): string {
    if fs == [] then "}"
    else if |fs| == 1 then FieldText(fs[0]) + "}"
    else FieldText(fs[0]) + ("," + FieldsText(fs[1..]))
  }

  function ToJson(m: Meta): string {
    "{" + FieldsText(FieldsOf(m))
  }

  // ----- reading it -----

  function FindStr(s: string, k: string): Parsed<string> {
    var parts :- SplitOnce(s, Needle(k) + "\"");
    var value :- SplitOnce(parts.1, "\"");
    Ok(value.0)
  }

  /** The text up to the first comma or closing brace. */
  function UpToDelimiter(s: string): Parsed<string> {
    if s == "" then Malformed
    else if s[0] == ',' || s[0] == '}' then Ok("")
    else
      var rest :- UpToDelimiter(s[1..]);
      Ok([s[0]] + rest)
  }

  function FindU64(s: string, k: string): Parsed<U64> {
    var parts :- SplitOnce(s, Needle(k));
    var value :- UpToDelimiter(parts.1);
    var n :- ParseUnsigned(Trim(value), 10, 0x1_0000_0000_0000_0000);
    Ok(n)
  }

  function ParseMeta(s: string): Parsed<Meta> {
    var keyHex :- FindStr(s, "key");
    var created :- FindU64(s, "created_at_unix_ms");
    var accessed :- FindU64(s, "accessed_at_unix_ms");
    var size :- FindU64(s, "size_bytes");
    var nodVersion :- FindStr(s, "nod_version");
    var abi :- FindU64(s, "abi_version");
    var llvmMajor :- FindU64(s, "llvm_major");
    var triple :- FindStr(s, "target_triple");
    var optLevel :- FindU64(s, "opt_level");
    Ok(Meta(keyHex, created, accessed, size, nodVersion, abi % 0x1_0000_0000, llvmMajor % 0x1_0000_0000, triple,
            optLevel % 0x100))
  }

  // ----- what reading finds -----

  /** A string field is what stands in quotes after the first occurrence of its quoted name
      and a quote. */
  lemma {:induction false} FindStrIff(s: string, k: string, v: string)
    ensures FindStr(s, k) == Ok(v) <==>
            exists before, after ::
              && s == before + (Needle(k) + "\"") + (v + "\"" + after)
              && Avoids(before, Needle(k) + "\"") && '"' !in v
  {
    hide SplitOnce, Avoids;
    var pat := Needle(k) + "\"";
    assert ['"'] == "\"";
    AvoidsChar(v, '"');
    if FindStr(s, k) == Ok(v) {
      var parts := SplitOnce(s, pat).value;
      SplitOnceIff(s, pat, parts.0, parts.1);
      SplitOnceIff(parts.1, "\"", v, SplitOnce(parts.1, "\"").value.1);
    }
    if before, after :| s == before + pat + (v + "\"" + after) && Avoids(before, pat) && '"' !in v {
      SplitOnceIff(s, pat, before, v + "\"" + after);
      SplitOnceIff(v + "\"" + after, "\"", v, after);
    }
  }

  predicate IsDelimiter(c: char) {
    c == ',' || c == '}'
  }

  lemma {:induction false} UpToDelimiterIff(s: string, v: string)
    ensures UpToDelimiter(s) == Ok(v) <==>
            |v| < |s| && s[..|v|] == v && IsDelimiter(s[|v|]) && forall c :: c in v ==> !IsDelimiter(c)
    decreases |s|
  {
    if s != "" && !IsDelimiter(s[0]) {
      if v != "" && v[0] == s[0] {
        UpToDelimiterIff(s[1..], v[1..]);
        assert v == [v[0]] + v[1..];
        assert |v| < |s| ==> s[..|v|] == [s[0]] + s[1..][..|v| - 1];
      } else if v != "" {
        assert |v| < |s| ==> s[..|v|][0] == s[0];
      }
    } else if s != "" && v != "" {
      assert |v| < |s| ==> s[..|v|][0] == s[0];
      assert v[0] in v;
    }
  }

  /** The number stands, blanks aside, between the first occurrence of the quoted name and the
      next comma or brace. */
  predicate NumberStands(s: string, k: string, n: U64, before: string, v: string, rest: string) {
    && s == before + Needle(k) + (v + rest) && Avoids(before, Needle(k))
    && rest != "" && IsDelimiter(rest[0]) && (forall c :: c in v ==> !IsDelimiter(c))
    && ParseUnsigned(Trim(v), 10, 0x1_0000_0000_0000_0000) == Ok(n)
  }

  lemma {:induction false} FindU64Iff(s: string, k: string, n: U64)
    ensures FindU64(s, k) == Ok(n) <==> exists before, v, rest :: NumberStands(s, k, n, before, v, rest)
  {
    hide SplitOnce, Avoids, ParseUnsigned, Trim, UpToDelimiter;
    if FindU64(s, k) == Ok(n) {
      var parts := SplitOnce(s, Needle(k)).value;
      SplitOnceIff(s, Needle(k), parts.0, parts.1);
      var v := UpToDelimiter(parts.1).value;
      UpToDelimiterIff(parts.1, v);
      var rest := parts.1[|v|..];
      assert parts.1 == v + rest && rest[0] == parts.1[|v|];
      assert NumberStands(s, k, n, parts.0, v, rest);
    }
    if before, v, rest :| NumberStands(s, k, n, before, v, rest) {
      SplitOnceIff(s, Needle(k), before, v + rest);
      assert (v + rest)[..|v|] == v && (v + rest)[|v|] == rest[0];
      UpToDelimiterIff(v + rest, v);
    }
  }

  // ----- the round trip -----

  /** A name or string value that cannot be mistaken for structure. */
  predicate QuoteFree(s: string) {
    '"' !in s
  }

  predicate IsName(s: string) {
    s != "" && QuoteFree(s) && s[0] != ':' && s[0] != ',' && s[0] != '}'
  }

  predicate IsField(f: Field) {
    IsName(f.name) && (f.value.Str? ==> QuoteFree(f.value.s))
  }

  lemma {:induction false} FindSkips(a: string, rest: string, pat: string)
    requires pat != "" && forall i :: 0 <= i < |a| ==> !StartsAt(a + rest, i, pat)
    ensures Find(a + rest, pat) == match Find(rest, pat) case None => None case Some(i) => Some(|a| + i)
  {
    if a == "" {
      assert a + rest == rest;
    } else {
      var s := a + rest;
      assert !StartsAt(s, 0, pat);
      assert |s| >= |pat| ==> s[..|pat|] == s[0..0 + |pat|];
      assert s[1..] == a[1..] + rest;
      forall i | 0 <= i < |a| - 1
        ensures !StartsAt(a[1..] + rest, i, pat)
      {
        var next := i + 1;
        assert !StartsAt(s, next, pat);
        assert i + |pat| <= |s| - 1 ==> s[1..][i..i + |pat|] == s[next..next + |pat|];
      }
      FindSkips(a[1..], rest, pat);
    }
  }

  /** A quoted name at `i` is the needle's only if it is the same name. */
  lemma NeedleAt(s: string, i: nat, k: string, v: string)
    requires QuoteFree(k) && QuoteFree(v) && i + |v| + 2 <= |s|
    requires s[i] == '"' && s[i + 1..i + 1 + |v|] == v && s[i + 1 + |v|] == '"'
    requires StartsAt(s, i, Needle(k))
    ensures k == v && i + |v| + 2 < |s| && s[i + |v| + 2] == ':'
  {
    var pat, t := Needle(k), s[i + 1..];
    var here := s[i..i + |pat|];
    assert here[|k| + 1] == '"' && here[|k| + 2] == ':';
    assert here[1..|k| + 1] == pat[1..|k| + 1] == k;
    assert here[1..|k| + 1] == s[i + 1..i + 1 + |k|];
    assert t[..|k|] == s[i + 1..i + 1 + |k|];
    assert t[|k|] == here[|k| + 1];
    assert t[..|v|] == s[i + 1..i + 1 + |v|];
  }

  /** Where a needle can start: at a quote followed by a name. */
  lemma NeedleStart(s: string, i: nat, k: string)
    requires IsName(k) && StartsAt(s, i, Needle(k))
    ensures s[i] == '"' && i + 1 < |s| && s[i + 1] != ':' && s[i + 1] != ',' && s[i + 1] != '}'
  {
    var pat := Needle(k);
    assert s[i..i + |pat|][0] == s[i] && s[i..i + |pat|][1] == s[i + 1] == k[0];
  }

  /** The quotes of a field stand around its name and, if it is a string, its value. */
  lemma FieldQuotes(f: Field, rest: string)
    requires IsField(f)
    ensures var s, n := FieldText(f) + rest, |f.name|;
            && s[0] == '"' && s[1..1 + n] == f.name && s[n + 1] == '"' && s[n + 2] == ':'
            && (forall x :: 0 < x <= n ==> s[x] != '"')
            && (f.value.Num? ==> forall x :: n + 2 <= x < |FieldText(f)| ==> s[x] != '"')
            && (f.value.Str? ==>
                  var v := f.value.s;
                  && |FieldText(f)| == n + 5 + |v|
                  && s[n + 3] == '"' && s[n + 4..n + 4 + |v|] == v && s[n + 4 + |v|] == '"'
                  && forall x :: n + 3 < x < n + 4 + |v| ==> s[x] != '"')
  {
    var s, n := FieldText(f) + rest, |f.name|;
    assert forall x :: 0 < x <= n ==> s[x] == f.name[x - 1];
    match f.value
    case Num(v) =>
      RadixDigits(v, 10);
      forall x | n + 3 <= x < |FieldText(f)|
        ensures s[x] != '"'
      {
        assert s[x] == Decimal(v)[x - n - 3] && Decimal(v)[x - n - 3] in Decimal(v);
      }
    case Str(v) =>
      assert forall x :: n + 3 < x < n + 4 + |v| ==> s[x] == v[x - n - 4];
  }

  /** No needle of another name starts inside a field, or at the delimiter after it. */
  lemma FieldSkipped(f: Field, k: string, rest: string, i: nat)
    requires IsField(f) && IsName(k) && f.name != k && i <= |FieldText(f)|
    requires rest != "" && (rest[0] == ',' || rest[0] == '}')
    ensures !StartsAt(FieldText(f) + rest, i, Needle(k))
  {
    hide FieldText, Needle, StartsAt;
    var s, n := FieldText(f) + rest, |f.name|;
    FieldQuotes(f, rest);
    FieldLength(f);
    assert s[|FieldText(f)|] == rest[0];
    if i == 0 {
      if StartsAt(s, 0, Needle(k)) {
        NeedleAt(s, 0, k, f.name);
      }
    } else if f.value.Str? && i == n + 3 {
      if StartsAt(s, i, Needle(k)) {
        NeedleAt(s, i, k, f.value.s);
      }
    } else {
      NoNeedleAt(s, i, k);
    }
  }

  lemma NoNeedleAt(s: string, i: nat, k: string)
    requires IsName(k) && i < |s|
    requires s[i] != '"' || (i + 1 < |s| && (s[i + 1] == ':' || s[i + 1] == ',' || s[i + 1] == '}'))
    ensures !StartsAt(s, i, Needle(k))
  {
    if StartsAt(s, i, Needle(k)) {
      NeedleStart(s, i, k);
    }
  }

  lemma FieldLength(f: Field)
    ensures |FieldText(f)| == |f.name| + 3 + |ValueText(f.value)|
  {
  }

  lemma FieldsTextCons(fs: seq<Field>)
    requires |fs| > 1
    ensures FieldsText(fs) == FieldText(fs[0]) + "," + FieldsText(fs[1..])
  {
    hide FieldText;
    Regrouped(FieldText(fs[0]), ",", FieldsText(fs[1..]));
  }

  lemma {:induction false} FirstFieldSkipped(f: Field, k: string, rest: string)
    requires IsField(f) && IsName(k) && f.name != k
    ensures Find(FieldText(f) + "," + rest, Needle(k)) ==
            match Find(rest, Needle(k))
            case None => None
            case Some(i) => Some(|FieldText(f)| + 1 + i)
  {
    hide FieldText, Needle, StartsAt, IsName;
    var chunk := FieldText(f) + ",";
    assert chunk + rest == FieldText(f) + ("," + rest);
    forall i | 0 <= i < |chunk|
      ensures !StartsAt(chunk + rest, i, Needle(k))
    {
      FieldSkipped(f, k, "," + rest, i);
    }
    NeedleNotEmpty(k);
    FindSkips(chunk, rest, Needle(k));
  }

  lemma NeedleNotEmpty(k: string)
    ensures Needle(k) != ""
  {
  }

  /** Searching for a field's needle finds that field. */
  lemma {:induction false} NeedleFound(fs: seq<Field>, j: nat)
    requires j < |fs| && (forall i :: 0 <= i < |fs| ==> IsField(fs[i]))
    requires forall i :: 0 <= i < j ==> fs[i].name != fs[j].name
    ensures Needle(fs[j].name) != "" && Find(FieldsText(fs), Needle(fs[j].name)) == Some(Before(fs, j))
    ensures FieldsText(fs)[Before(fs, j)..] == FieldsText(fs[j..])
    decreases j
  {
    hide FieldText, Needle, FieldsText, IsName, Find;
    var k := fs[j].name;
    NeedleNotEmpty(k);
    if j == 0 {
      StartsWithField(fs);
      assert fs[0..] == fs && FieldsText(fs)[0..] == FieldsText(fs);
    } else {
      var rest := FieldsText(fs[1..]);
      FieldsTextCons(fs);
      assert IsField(fs[0]) && fs[1..][j - 1] == fs[j] && IsField(fs[j]);
      FirstFieldSkipped(fs[0], k, rest);
      NeedleFound(fs[1..], j - 1);
      assert fs[1..][j - 1..] == fs[j..];
      var at := Before(fs[1..], j - 1);
      assert (FieldText(fs[0]) + "," + rest)[|FieldText(fs[0])| + 1 + at..] == rest[at..];
    }
  }

  lemma StartsWithField(fs: seq<Field>)
    requires fs != []
    ensures Find(FieldsText(fs), Needle(fs[0].name)) == Some(0)
  {
    var s := FieldsText(fs);
    var rest := s[|FieldText(fs[0])|..];
    assert s == FieldText(fs[0]) + rest;
    NeedleStarts(fs[0], rest);
  }

  /** How much text comes before field `j`. */
  function Before(fs: seq<Field>, j: nat): (n: nat)
    requires j < |fs|
    ensures n <= |FieldsText(fs)|
  {
    if j == 0 then 0 else |FieldText(fs[0])| + 1 + Before(fs[1..], j - 1)
  }

  lemma NeedleStarts(f: Field, rest: string)
    ensures Find(FieldText(f) + rest, Needle(f.name)) == Some(0)
  {
    var s := FieldText(f) + rest;
    assert s[..|Needle(f.name)|] == Needle(f.name);
  }

  // ----- what each search yields -----

  lemma Dropped(a: string, b: string)
    ensures (a + b)[|a|..] == b
  {
  }

  /** What follows the first field's value: a comma and the other fields, or the brace. */
  function Tail(fs: seq<Field>): string
    requires fs != []
  {
    if |fs| == 1 then "}" else "," + FieldsText(fs[1..])
  }

  lemma FirstOfRest(fs: seq<Field>)
    requires fs != []
    ensures FieldsText(fs) == Needle(fs[0].name) + (ValueText(fs[0].value) + Tail(fs))
    ensures Tail(fs) != "" && (Tail(fs)[0] == ',' || Tail(fs)[0] == '}')
  {
    hide ValueText, Needle;
    Regrouped(Needle(fs[0].name), ValueText(fs[0].value), Tail(fs));
  }

  /** After a field's needle comes its value and a delimiter. */
  lemma AfterNeedle(fs: seq<Field>, j: nat)
    requires j < |fs| && (forall i :: 0 <= i < |fs| ==> IsField(fs[i]))
    requires forall i :: 0 <= i < j ==> fs[i].name != fs[j].name
    ensures var s, pat := "{" + FieldsText(fs), Needle(fs[j].name);
            && pat != "" && Find(s, pat).Some?
            && s[Find(s, pat).value + |pat|..] == ValueText(fs[j].value) + Tail(fs[j..])
  {
    hide FieldsText, IsName, Find, ValueText, Needle, Tail, IsField;
    var text, pat := FieldsText(fs), Needle(fs[j].name);
    NeedleFound(fs, j);
    var at := Before(fs, j);
    NeedleQuoted(fs[j].name);
    BraceSkipped(text, pat);
    assert fs[j..][0] == fs[j];
    FirstOfRest(fs[j..]);
    Dropped(pat, ValueText(fs[j].value) + Tail(fs[j..]));
    DroppedTwice("{", text, at, |pat|);
  }

  lemma NeedleQuoted(k: string)
    ensures Needle(k) != "" && Needle(k)[0] == '"'
  {
  }

  lemma DroppedTwice(a: string, text: string, at: nat, n: nat)
    requires at + n <= |text|
    ensures (a + text)[|a| + at + n..] == text[at..][n..]
  {
  }

  lemma BraceSkipped(text: string, pat: string)
    requires pat != "" && pat[0] == '"'
    ensures Find("{" + text, pat) == match Find(text, pat) case None => None case Some(i) => Some(1 + i)
  {
    var s := "{" + text;
    forall i | 0 <= i < 1
      ensures !StartsAt(s, i, pat)
    {
      assert |pat| <= |s| ==> s[0..|pat|][0] == '{';
    }
    FindSkips("{", text, pat);
  }

  predicate NoDelimiter(v: string) {
    ',' !in v && '}' !in v
  }

  lemma {:induction false} UpToDelimiterOf(v: string, tail: string)
    requires tail != "" && (tail[0] == ',' || tail[0] == '}') && NoDelimiter(v)
    ensures UpToDelimiter(v + tail) == Ok(v)
  {
    if v == "" {
      assert v + tail == tail;
    } else {
      assert (v + tail)[1..] == v[1..] + tail && (v + tail)[0] == v[0];
      assert v[0] in v;
      UpToDelimiterOf(v[1..], tail);
      assert v == [v[0]] + v[1..];
    }
  }

  lemma TrimNumeral(n: nat)
    ensures Trim(Decimal(n)) == Decimal(n)
  {
    hide Radix, IsWhitespace;
    RadixDigits(n, 10);
    var s := Decimal(n);
    DigitsAreVisible(s[0]);
    DigitsAreVisible(s[|s| - 1]);
  }

  lemma DigitsAreVisible(c: char)
    requires IsDigit(c)
    ensures !IsWhitespace(c)
  {
  }

  lemma {:induction false} FindsNumber(fs: seq<Field>, j: nat)
    requires j < |fs| && (forall i :: 0 <= i < |fs| ==>
               IsField(fs[i])) && fs[j].value.Num? && fs[j].value.n < 0x1_0000_0000_0000_0000
    requires forall i :: 0 <= i < j ==> fs[i].name != fs[j].name
    ensures FindU64("{" + FieldsText(fs), fs[j].name) == Ok(fs[j].value.n)
  {
    hide FieldsText, IsName, Find, ParseUnsigned, Trim, UpToDelimiter, Radix, Tail, Needle;
    var n := fs[j].value.n;
    AfterNeedle(fs, j);
    FirstOfRest(fs[j..]);
    RadixDigits(n, 10);
    UpToDelimiterOf(Decimal(n), Tail(fs[j..]));
    TrimNumeral(n);
    ParseUnsignedOf(n, 10, 0x1_0000_0000_0000_0000);
  }

  lemma {:induction false} FirstMatch(s: string, pat: string, at: nat)
    requires pat != ""
    ensures Find(s, pat) == Some(at) <==> StartsAt(s, at, pat) && forall i :: 0 <= i < at ==> !StartsAt(s, i, pat)
    decreases |s|
  {
    if |s| >= |pat| {
      assert s[..|pat|] == s[0..0 + |pat|];
      if at > 0 {
        FirstMatch(s[1..], pat, at - 1);
        forall i | 0 <= i < at
          ensures StartsAt(s[1..], i, pat) <==> StartsAt(s, i + 1, pat)
        {
          StartsAtTail(s, i, pat);
        }
        if StartsAt(s, at, pat) && forall i :: 0 <= i < at ==> !StartsAt(s, i, pat) {
          assert !StartsAt(s, 0, pat);
          forall i | 0 <= i < at - 1
            ensures !StartsAt(s[1..], i, pat)
          {
            var next := i + 1;
            assert !StartsAt(s, next, pat);
          }
        }
        if Find(s, pat) == Some(at) {
          forall i | 0 <= i < at
            ensures !StartsAt(s, i, pat)
          {
            if i > 0 {
              var prev := i - 1;
              assert !StartsAt(s[1..], prev, pat);
            }
          }
        }
      }
    }
  }

  lemma StartsAtTail(s: string, i: nat, pat: string)
    requires s != ""
    ensures StartsAt(s[1..], i, pat) <==> StartsAt(s, i + 1, pat)
  {
    assert i + 1 + |pat| <= |s| ==> s[1..][i..i + |pat|] == s[i + 1..i + 1 + |pat|];
  }

  /** The string reader's needle is one quote longer; it matches wherever the name's needle
      is followed by a string. */
  lemma {:induction false} LongerNeedle(s: string, pat: string, at: nat)
    requires pat != "" && Find(s, pat) == Some(at)
    requires at + |pat| < |s| && s[at + |pat|] == '"'
    ensures Find(s, pat + "\"") == Some(at)
  {
    hide Find, StartsAt;
    FirstMatch(s, pat, at);
    FirstMatch(s, pat + "\"", at);
    LongerAt(s, at, pat);
    forall i | 0 <= i < at
      ensures !StartsAt(s, i, pat + "\"")
    {
      LongerAt(s, i, pat);
    }
  }

  lemma LongerAt(s: string, i: nat, pat: string)
    ensures StartsAt(s, i, pat + "\"") <==> StartsAt(s, i, pat) && i + |pat| < |s| && s[i + |pat|] == '"'
  {
    var longer := pat + "\"";
    if i + |longer| <= |s| {
      assert s[i..i + |longer|] == s[i..i + |pat|] + [s[i + |pat|]];
      assert (s[i..i + |pat|] + [s[i + |pat|]])[..|pat|] == s[i..i + |pat|];
      assert longer[..|pat|] == pat && longer[|pat|] == '"';
    }
  }

  lemma {:induction false} FindsString(fs: seq<Field>, j: nat)
    requires j < |fs| && (forall i :: 0 <= i < |fs| ==> IsField(fs[i])) && fs[j].value.Str?
    requires forall i :: 0 <= i < j ==> fs[i].name != fs[j].name
    ensures FindStr("{" + FieldsText(fs), fs[j].name) == Ok(fs[j].value.s)
  {
    hide FieldsText, IsName, Find, Tail, Avoids, StartsAt, Needle, ValueText;
    var s, pat, v := "{" + FieldsText(fs), Needle(fs[j].name), fs[j].value.s;
    AfterNeedle(fs, j);
    var at := Find(s, pat).value;
    var rest := v + "\"" + Tail(fs[j..]);
    StringValue(v, Tail(fs[j..]));
    assert s[at + |pat|] == s[at + |pat|..][0];
    LongerNeedle(s, pat, at);
    assert s[at + |pat| + 1..] == s[at + |pat|..][1..];
    Dropped("\"", rest);
    assert IsField(fs[j]);
    NotFound(v, "\"");
    SplitOnceAt(v, "\"", Tail(fs[j..]));
  }

  lemma StringValue(v: string, tail: string)
    ensures ValueText(Str(v)) + tail == "\"" + (v + "\"" + tail)
  {
  }

  /** The strings a sidecar holds are quote-free: digests, versions, a target triple. */
  predicate PlainStrings(m: Meta) {
    QuoteFree(m.keyHex) && QuoteFree(m.nodVersion) && QuoteFree(m.triple)
  }

  const NAME_LENGTHS: seq<nat> := [3, 18, 19, 10, 11, 11, 10, 13, 9]

  const NAME_STARTS: string := "kcasnalto"

  lemma NameShape(m: Meta, i: nat)
    requires i < 9
    ensures var name := FieldsOf(m)[i].name; |name| == NAME_LENGTHS[i] && name[0] == NAME_STARTS[i]
  {
  }

  lemma TimesQuoteFree()
    ensures QuoteFree("key") && QuoteFree("created_at_unix_ms") && QuoteFree("accessed_at_unix_ms")
  {
  }

  lemma SizesQuoteFree()
    ensures QuoteFree("size_bytes") && QuoteFree("nod_version") && QuoteFree("abi_version")
  {
  }

  lemma TargetsQuoteFree()
    ensures QuoteFree("llvm_major") && QuoteFree("target_triple") && QuoteFree("opt_level")
  {
  }

  lemma NamesQuoteFree(m: Meta, i: nat)
    requires i < 9
    ensures QuoteFree(FieldsOf(m)[i].name)
  {
    hide QuoteFree;
    TimesQuoteFree();
    SizesQuoteFree();
    TargetsQuoteFree();
  }

  lemma ValuesQuoteFree(m: Meta, i: nat)
    requires PlainStrings(m) && i < 9
    ensures FieldsOf(m)[i].value.Str? ==> QuoteFree(FieldsOf(m)[i].value.s)
  {
    hide QuoteFree;
  }

  lemma {:induction false} NamesAreFields(m: Meta)
    requires PlainStrings(m)
    ensures forall i :: 0 <= i < 9 ==> IsField(FieldsOf(m)[i])
    ensures forall i, j :: 0 <= i < j < 9 ==> FieldsOf(m)[i].name != FieldsOf(m)[j].name
  {
    hide FieldsOf, QuoteFree, PlainStrings;
    forall i | 0 <= i < 9
      ensures IsField(FieldsOf(m)[i])
    {
      NameShape(m, i);
      NamesQuoteFree(m, i);
      ValuesQuoteFree(m, i);
    }
    forall i, j | 0 <= i < j < 9
      ensures FieldsOf(m)[i].name != FieldsOf(m)[j].name
    {
      NameShape(m, i);
      NameShape(m, j);
    }
  }

  lemma StringsRead(m: Meta)
    requires PlainStrings(m)
    ensures FindStr(ToJson(m), "key") == Ok(m.keyHex)
    ensures FindStr(ToJson(m), "nod_version") == Ok(m.nodVersion)
    ensures FindStr(ToJson(m), "target_triple") == Ok(m.triple)
  {
    hide FieldsText, FindStr, IsField;
    var fs := FieldsOf(m);
    NamesAreFields(m);
    FindsString(fs, 0);
    FindsString(fs, 4);
    FindsString(fs, 7);
  }

  lemma TimesRead(m: Meta)
    requires PlainStrings(m)
    ensures FindU64(ToJson(m), "created_at_unix_ms") == Ok(m.created)
    ensures FindU64(ToJson(m), "accessed_at_unix_ms") == Ok(m.accessed)
    ensures FindU64(ToJson(m), "size_bytes") == Ok(m.size)
  {
    hide FieldsText, FindU64, IsField;
    var fs := FieldsOf(m);
    NamesAreFields(m);
    FindsNumber(fs, 1);
    FindsNumber(fs, 2);
    FindsNumber(fs, 3);
  }

  lemma {:induction false} VersionsRead(m: Meta)
    requires PlainStrings(m)
    ensures FindU64(ToJson(m), "abi_version") == Ok(m.abi)
    ensures FindU64(ToJson(m), "llvm_major") == Ok(m.llvmMajor)
    ensures FindU64(ToJson(m), "opt_level") == Ok(m.optLevel)
  {
    hide FieldsText, FindU64, IsField;
    var fs := FieldsOf(m);
    NamesAreFields(m);
    FindsNumber(fs, 5);
    FindsNumber(fs, 6);
    FindsNumber(fs, 8);
  }

  lemma {:induction false} NoQuoteBefore(s: string, i: nat)
    requires Find(s, "\"") == Some(i)
    ensures QuoteFree(s[..i])
  {
    if i > 0 {
      NoQuoteBefore(s[1..], i - 1);
      assert s[..i] == [s[0]] + s[1..][..i - 1];
      assert s[..1] != "\"" && s[..1] == [s[0]];
    }
  }

  /** A string the reader finds never holds a quote. */
  lemma FoundIsQuoteFree(s: string, k: string)
    requires FindStr(s, k).Ok?
    ensures QuoteFree(FindStr(s, k).value)
  {
    hide Find;
    var parts := SplitOnce(s, Needle(k) + "\"").value;
    NoQuoteBefore(parts.1, Find(parts.1, "\"").value);
  }

  lemma {:induction false} ParseInvertsToJson(m: Meta)
    requires PlainStrings(m)
    ensures ParseMeta(ToJson(m)) == Ok(m)
  {
    hide ToJson, FindStr, FindU64, PlainStrings;
    StringsRead(m);
    TimesRead(m);
    VersionsRead(m);
  }

  /** A sidecar reads back as the metadata it was written from, exactly when the metadata's
      strings hold no quote. */
  lemma {:induction false} ParseInvertsToJsonIff(m: Meta)
    ensures ParseMeta(ToJson(m)) == Ok(m) <==> PlainStrings(m)
  {
    hide ToJson, FindStr, FindU64;
    if PlainStrings(m) {
      ParseInvertsToJson(m);
    }
    if ParseMeta(ToJson(m)) == Ok(m) {
      FoundIsQuoteFree(ToJson(m), "key");
      FoundIsQuoteFree(ToJson(m), "nod_version");
      FoundIsQuoteFree(ToJson(m), "target_triple");
    }
  }
}
