/** Strings as the dump printer and parser use them: searching, splitting, joining, lines,
    numerals and escapes. */
module Text {
  import opened Ir

  datatype Parsed<+T> = Ok(value: T) | Malformed
  {
    predicate IsFailure() {
      Malformed?
    }

    function PropagateFailure<U>(): Parsed<U>
      requires Malformed?
    {
      Malformed
    }

    function Extract(): T
      requires Ok?
    {
      value
    }
  }

  // ----- searching -----

  /** The first place where `pat` occurs. */
  function Find(s: string, pat: string): (r: Option<nat>)
    requires pat != ""
    ensures r.Some? ==> r.value + |pat| <= |s| && s[r.value..r.value + |pat|] == pat
  {
    if |s| < |pat| then None
    else if s[..|pat|] == pat then Some(0)
    else match Find(s[1..], pat)
      case None => None
      case Some(i) => Some(i + 1)
  }

  predicate StartsAt(s: string, i: nat, pat: string) {
    i + |pat| <= |s| && s[i..i + |pat|] == pat
  }

  /** `pat` does not start inside `a` when `a` is followed by `pat`. */
  predicate Avoids(a: string, pat: string) {
    forall i :: 0 <= i < |a| ==> !StartsAt(a + pat, i, pat)
  }

  lemma {:induction false} FindAfter(a: string, pat: string, b: string)
    requires pat != "" && Avoids(a, pat)
    ensures Find(a + pat + b, pat) == Some(|a|)
  {
    var s := a + pat + b;
    if a == "" {
      assert s[..|pat|] == pat;
    } else {
      assert !StartsAt(a + pat, 0, pat);
      assert s[..|pat|] == (a + pat)[0..|pat|];
      assert s[1..] == a[1..] + pat + b;
      AvoidsTail(a, pat);
      FindAfter(a[1..], pat, b);
    }
  }

  lemma AvoidsTail(a: string, pat: string)
    requires a != "" && Avoids(a, pat)
    ensures Avoids(a[1..], pat)
  {
    forall i | 0 <= i < |a| - 1
      ensures !StartsAt(a[1..] + pat, i, pat)
    {
      var next := i + 1;
      assert !StartsAt(a + pat, next, pat);
      assert (a[1..] + pat)[i..i + |pat|] == (a + pat)[next..next + |pat|];
    }
  }

  lemma {:induction false} NotFound(a: string, pat: string)
    requires pat != "" && pat[0] !in a
    ensures Find(a, pat) == None && Avoids(a, pat)
  {
    if |a| >= |pat| {
      assert a[..|pat|][0] == a[0];
      NotFound(a[1..], pat);
    }
    forall i | 0 <= i < |a|
      ensures !StartsAt(a + pat, i, pat)
    {
      assert (a + pat)[i..i + |pat|][0] == a[i];
    }
  }

  /** A pattern whose second character is not in `a`, and differs from its first, starts
      nowhere in `a`. */
  lemma AvoidsBySecond(a: string, pat: string)
    requires |pat| >= 2 && pat[1] !in a && pat[0] != pat[1]
    ensures Avoids(a, pat)
  {
    forall i | 0 <= i < |a|
      ensures !StartsAt(a + pat, i, pat)
    {
      assert (a + pat)[i..i + |pat|][1] == (a + pat)[i + 1];
    }
  }

  function SplitOnce(s: string, pat: string): Parsed<(string, string)>
    requires pat != ""
  {
    match Find(s, pat)
    case None => Malformed
    case Some(i) => Ok((s[..i], s[i + |pat|..]))
  }

  lemma SplitOnceAt(a: string, pat: string, b: string)
    requires pat != "" && Avoids(a, pat)
    ensures SplitOnce(a + pat + b, pat) == Ok((a, b))
  {
    FindAfter(a, pat, b);
    var s := a + pat + b;
    assert s[..|a|] == a && s[|a| + |pat|..] == b;
  }

  function StripPrefix(s: string, p: string): Parsed<string> {
    if |p| <= |s| && s[..|p|] == p then Ok(s[|p|..]) else Malformed
  }

  function StripSuffix(s: string, p: string): Parsed<string> {
    if |p| <= |s| && s[|s| - |p|..] == p then Ok(s[..|s| - |p|]) else Malformed
  }

  lemma Stripped(a: string, b: string)
    ensures StripPrefix(a + b, a) == Ok(b) && StripSuffix(a + b, b) == Ok(a)
  {
    assert (a + b)[..|a|] == a && (a + b)[|a|..] == b;
  }

  // ----- splitting and joining -----

  function Join(parts: seq<string>, sep: string): string {
    if parts == [] then ""
    else if |parts| == 1 then parts[0]
    else parts[0] + sep + Join(parts[1..], sep)
  }

  function Split(s: string, sep: string): (r: seq<string>)
    requires sep != ""
    ensures r != []
    decreases |s|
  {
    match Find(s, sep)
    case None => [s]
    case Some(i) => [s[..i]] + Split(s[i + |sep|..], sep)
  }

  lemma {:induction false} JoinSnoc(parts: seq<string>, sep: string, p: string)
    ensures Join(parts + [p], sep) == if parts == [] then p else Join(parts, sep) + sep + p
  {
    if parts == [] {
      assert parts + [p] == [p];
    } else if |parts| == 1 {
      assert parts + [p] == [parts[0], p];
      assert (parts + [p])[1..] == [p];
    } else {
      assert (parts + [p])[1..] == parts[1..] + [p];
      JoinSnoc(parts[1..], sep, p);
      assert parts[0] + sep + (Join(parts[1..], sep) + sep + p) == parts[0] + sep + Join(parts[1..], sep) + sep + p;
    }
  }

  lemma SplitAt(a: string, sep: string, b: string)
    requires sep != "" && Avoids(a, sep)
    ensures Split(a + sep + b, sep) == [a] + Split(b, sep)
  {
    hide Avoids;
    FindAfter(a, sep, b);
    var s := a + sep + b;
    assert s[..|a|] == a && s[|a| + |sep|..] == b;
  }

  /** Splitting undoes joining when no part holds the separator's first character. */
  lemma {:induction false} SplitJoin(parts: seq<string>, sep: string)
    requires parts != [] && sep != "" && forall p :: p in parts ==> sep[0] !in p
    ensures Split(Join(parts, sep), sep) == parts
  {
    hide Avoids, Find;
    NotFound(parts[0], sep);
    if |parts| == 1 {
      assert parts == [parts[0]];
    } else {
      SplitAt(parts[0], sep, Join(parts[1..], sep));
      SplitJoin(parts[1..], sep);
      assert parts == [parts[0]] + parts[1..];
    }
  }

  /** Joining undoes splitting. */
  lemma {:induction false} JoinSplit(s: string, sep: string)
    requires sep != ""
    ensures Join(Split(s, sep), sep) == s
    decreases |s|
  {
    match Find(s, sep)
    case None =>
    case Some(i) =>
      var rest := s[i + |sep|..];
      JoinSplit(rest, sep);
      var parts := Split(s, sep);
      assert parts[0] == s[..i] && parts[1..] == Split(rest, sep);
      assert s == s[..i] + s[i..i + |sep|] + rest;
  }

  /** The characters of a joined text come from its parts and the separator. */
  lemma {:induction false} JoinChars(parts: seq<string>, sep: string, c: char)
    requires c in Join(parts, sep)
    ensures c in sep || exists k :: 0 <= k < |parts| && c in parts[k]
  {
    if |parts| > 1 && c !in parts[0] && c !in sep {
      JoinChars(parts[1..], sep, c);
      var k :| 0 <= k < |parts[1..]| && c in parts[1..][k];
      assert c in parts[k + 1];
    }
  }

  // ----- lines -----

  predicate IsWhitespace(c: char) {
    || '\t' <= c <= '\r' || c == ' ' || c == '\U{85}' || c == '\U{A0}' || c == '\U{1680}'
        || '\U{2000}' <= c <= '\U{200A}'
    || c == '\U{2028}' || c == '\U{2029}' || c == '\U{202F}' || c == '\U{205F}' || c == '\U{3000}'
  }

  predicate IsBlank(line: string) {
    forall c :: c in line ==> IsWhitespace(c)
  }

  function DropCarriageReturn(line: string): string {
    if line != "" && line[|line| - 1] == '\r' then line[..|line| - 1] else line
  }

  /** The lines of a text; a line feed ends a line, with a carriage return before it. */
  function Lines(text: string): seq<string>
    decreases |text|
  {
    if text == "" then []
    else match Find(text, "\n")
      case None => [text]
      case Some(i) => [DropCarriageReturn(text[..i])] + Lines(text[i + 1..])
  }

  function Unlines(lines: seq<string>): string {
    if lines == [] then "" else lines[0] + "\n" + Unlines(lines[1..])
  }

  /** What can stand on a line of its own and be read back. */
  predicate IsLine(line: string) {
    '\n' !in line && (line != "" ==> line[|line| - 1] != '\r')
  }

  lemma {:induction false} LinesUnlines(lines: seq<string>)
    requires forall l :: l in lines ==> IsLine(l)
    ensures Lines(Unlines(lines)) == lines
  {
    if lines != [] {
      assert IsLine(lines[0]);
      NotFound(lines[0], "\n");
      var rest := Unlines(lines[1..]);
      FindAfter(lines[0], "\n", rest);
      assert (lines[0] + "\n" + rest)[..|lines[0]|] == lines[0];
      assert (lines[0] + "\n" + rest)[|lines[0]| + 1..] == rest;
      LinesUnlines(lines[1..]);
    }
  }

  lemma {:induction false} UnlinesConcat(a: seq<string>, b: seq<string>)
    ensures Unlines(a + b) == Unlines(a) + Unlines(b)
  {
    if a == [] {
      assert a + b == b;
    } else {
      assert (a + b)[1..] == a[1..] + b;
      UnlinesConcat(a[1..], b);
    }
  }

  // ----- words -----

  /** The text without the whitespace around it. */
  function Trim(s: string): string
    decreases |s|
  {
    if s == "" then ""
    else if IsWhitespace(s[0]) then Trim(s[1..])
    else if IsWhitespace(s[|s| - 1]) then Trim(s[..|s| - 1])
    else s
  }

  predicate IsWord(w: string) {
    w != "" && forall c :: c in w ==> !IsWhitespace(c)
  }

  function WordEnd(s: string): (k: nat)
    ensures k <= |s| && (s != "" && !IsWhitespace(s[0]) ==> k > 0)
  {
    if s == "" || IsWhitespace(s[0]) then 0 else 1 + WordEnd(s[1..])
  }

  function Words(s: string): seq<string>
    decreases |s|
  {
    if s == "" then []
    else if IsWhitespace(s[0]) then Words(s[1..])
    else [s[..WordEnd(s)]] + Words(s[WordEnd(s)..])
  }

  lemma {:induction false} WordEndAt(w: string, rest: string)
    requires forall c :: c in w ==> !IsWhitespace(c)
    requires rest == "" || IsWhitespace(rest[0])
    ensures WordEnd(w + rest) == |w|
  {
    if w == "" {
      assert w + rest == rest;
    } else {
      assert (w + rest)[1..] == w[1..] + rest && (w + rest)[0] == w[0];
      WordEndAt(w[1..], rest);
    }
  }

  lemma {:induction false} WordsJoin(words: seq<string>)
    requires forall w :: w in words ==> IsWord(w)
    ensures Words(Join(words, " ")) == words
  {
    if words != [] {
      var w := words[0];
      assert IsWord(w);
      if |words| == 1 {
        WordEndAt(w, "");
        assert w + "" == w && w[..|w|] == w && words == [w];
      } else {
        var rest := Join(words[1..], " ");
        var s := w + " " + rest;
        assert s == w + (" " + rest);
        WordEndAt(w, " " + rest);
        assert s[..|w|] == w && s[|w|..] == " " + rest && (" " + rest)[1..] == rest;
        WordsJoin(words[1..]);
        assert words == [w] + words[1..];
      }
    }
  }

  /** The text up to the first space, and what follows the space. */
  function FirstWord(s: string): (string, string) {
    match Find(s, " ")
    case None => (s, "")
    case Some(i) => (s[..i], s[i + 1..])
  }

  lemma FirstWordIs(w: string, rest: string)
    requires ' ' !in w
    ensures FirstWord(w + " " + rest) == (w, rest) && FirstWord(w) == (w, "")
  {
    NotFound(w, " ");
    FindAfter(w, " ", rest);
    var s := w + " " + rest;
    assert s[..|w|] == w && s[|w| + 1..] == rest;
  }

  // ----- cutting texts -----

  lemma PrefixIff(s: string, p: string, rest: string)
    ensures StripPrefix(s, p) == Ok(rest) <==> s == p + rest
  {
    if StripPrefix(s, p) == Ok(rest) {
      assert s == s[..|p|] + s[|p|..];
    } else if s == p + rest {
      Stripped(p, rest);
    }
  }

  lemma SuffixIff(s: string, p: string, rest: string)
    ensures StripSuffix(s, p) == Ok(rest) <==> s == rest + p
  {
    if StripSuffix(s, p) == Ok(rest) {
      assert s == s[..|s| - |p|] + s[|s| - |p|..];
    } else if s == rest + p {
      Stripped(rest, p);
    }
  }

  lemma {:induction false} FoundFirst(s: string, pat: string, j: nat)
    requires pat != ""
    ensures match Find(s, pat) case None => !StartsAt(s, j, pat) case Some(i) => j < i ==> !StartsAt(s, j, pat)
  {
    if |s| >= |pat| && s[..|pat|] != pat && j > 0 {
      FoundFirst(s[1..], pat, j - 1);
      assert StartsAt(s, j, pat) ==> s[1..][j - 1..j - 1 + |pat|] == s[j..j + |pat|];
    }
  }

  lemma StartsInPrefix(a: string, b: string, j: nat, pat: string)
    ensures StartsAt(a, j, pat) ==> StartsAt(a + b, j, pat)
  {
    if StartsAt(a, j, pat) {
      assert (a + b)[j..j + |pat|] == a[j..j + |pat|];
    }
  }

  /** A text is cut at the first occurrence. */
  lemma {:induction false} SplitOnceIff(s: string, pat: string, a: string, b: string)
    requires pat != ""
    ensures SplitOnce(s, pat) == Ok((a, b)) <==> s == a + pat + b && Avoids(a, pat)
  {
    if SplitOnce(s, pat) == Ok((a, b)) {
      var i := Find(s, pat).value;
      assert s == s[..i] + s[i..i + |pat|] + s[i + |pat|..];
      forall j | 0 <= j < |a|
        ensures !StartsAt(a + pat, j, pat)
      {
        FoundFirst(s, pat, j);
        StartsInPrefix(a + pat, b, j, pat);
      }
    } else if s == a + pat + b && Avoids(a, pat) {
      SplitOnceAt(a, pat, b);
    }
  }

  lemma {:induction false} AvoidsChar(a: string, c: char)
    ensures Avoids(a, [c]) <==> c !in a
  {
    if c in a {
      var i :| 0 <= i < |a| && a[i] == c;
      assert (a + [c])[i..i + 1] == [c];
      assert StartsAt(a + [c], i, [c]);
    } else {
      NotFound(a, [c]);
    }
  }

  lemma {:induction false} FirstWordIff(s: string, a: string, b: string)
    ensures FirstWord(s) == (a, b) <==> ' ' !in a && (s == a + " " + b || (s == a && b == ""))
  {
    hide Avoids;
    SplitOnceIff(s, " ", a, b);
    AvoidsChar(a, ' ');
    assert [' '] == " ";
    if Find(s, " ").None? {
      NoSpace(s);
      HasSpace(a, b);
    } else if s == a && ' ' !in a {
      NotFound(a, " ");
    }
  }

  lemma HasSpace(a: string, b: string)
    ensures ' ' in a + " " + b
  {
    assert (a + " " + b)[|a|] == ' ';
  }

  lemma NoSpace(s: string)
    requires Find(s, " ").None?
    ensures ' ' !in s
  {
    forall i | 0 <= i < |s|
      ensures s[i] != ' '
    {
      FoundFirst(s, " ", i);
      assert s[i..i + 1] == [s[i]];
    }
  }

  lemma BlankGrows(s: string, c: char)
    requires IsBlank(s) && IsWhitespace(c)
    ensures IsBlank([c] + s) && IsBlank(s + [c])
  {
    hide IsWhitespace;
  }

  lemma NothingIsBlank()
    ensures IsBlank("")
  {
  }

  /** Trimming takes blanks off both ends and nothing else. */
  lemma {:induction false} TrimIs(s: string) returns (before: string, after: string)
    ensures s == before + Trim(s) + after && IsBlank(before) && IsBlank(after)
    ensures Trim(s) != "" ==> !IsWhitespace(Trim(s)[0]) && !IsWhitespace(Trim(s)[|Trim(s)| - 1])
    decreases |s|
  {
    hide IsWhitespace, IsBlank;
    NothingIsBlank();
    before, after := "", "";
    if s != "" && IsWhitespace(s[0]) {
      before, after := TrimIs(s[1..]);
      BlankGrows(before, s[0]);
      before := [s[0]] + before;
      assert s == [s[0]] + s[1..];
    } else if s != "" && IsWhitespace(s[|s| - 1]) {
      before, after := TrimIs(s[..|s| - 1]);
      BlankGrows(after, s[|s| - 1]);
      after := after + [s[|s| - 1]];
      assert s == s[..|s| - 1] + [s[|s| - 1]];
    }
  }

  /** Words stand between blanks, however many; these two say what the words of any text are. */
  lemma {:induction false} WordsStep(blank: string, w: string, rest: string)
    requires IsBlank(blank) && IsWord(w) && (rest == "" || IsWhitespace(rest[0]))
    ensures Words(blank + w + rest) == [w] + Words(rest)
    decreases |blank|
  {
    hide IsWhitespace;
    var s := blank + w + rest;
    if blank == "" {
      assert s == w + rest;
      WordEndAt(w, rest);
      assert s[0] == w[0] && w[0] in w;
      assert s[..|w|] == w && s[|w|..] == rest;
    } else {
      assert blank[0] in blank;
      assert s[1..] == blank[1..] + w + rest;
      WordsStep(blank[1..], w, rest);
    }
  }

  lemma {:induction false} WordsOfBlank(blank: string)
    requires IsBlank(blank)
    ensures Words(blank) == []
    decreases |blank|
  {
    hide IsWhitespace;
    if blank != "" {
      assert blank[0] in blank;
      WordsOfBlank(blank[1..]);
    }
  }

  /** A line feed ends a line, and takes one carriage return before it along; what follows the
      last is a line too, as it is. These two say what the lines of any text are. */
  lemma {:induction false} LinesStep(line: string, carriageReturn: bool, rest: string)
    requires '\n' !in line && (carriageReturn || IsLine(line))
    ensures Lines(line + (if carriageReturn then "\r" else "") + "\n" + rest) == [line] + Lines(rest)
  {
    hide Avoids;
    var ended := line + if carriageReturn then "\r" else "";
    NotFound(ended, "\n");
    FindAfter(ended, "\n", rest);
    assert (ended + "\n" + rest)[..|ended|] == ended && (ended + "\n" + rest)[|ended| + 1..] == rest;
    assert DropCarriageReturn(ended) == line;
  }

  lemma {:induction false} LinesLast(text: string)
    requires '\n' !in text
    ensures Lines(text) == if text == "" then [] else [text]
  {
    NotFound(text, "\n");
  }

  // ----- numerals -----

  const DIGITS: string := "0123456789abcdef"

  predicate IsDigit(c: char) {
    '0' <= c <= '9' || 'a' <= c <= 'f'
  }

  function DigitValue(c: char): Option<nat> {
    if '0' <= c <= '9' then Some(c as int - '0' as int)
    else if 'a' <= c <= 'f' then Some(c as int - 'a' as int + 10)
    else if 'A' <= c <= 'F' then Some(c as int - 'A' as int + 10)
    else None
  }

  function DigitChar(d: nat): char
    requires d < 16
  {
    DIGITS[d]
  }

  lemma DigitOf(d: nat)
    requires d < 16
    ensures DigitValue(DigitChar(d)) == Some(d) && IsDigit(DigitChar(d))
  {
  }

  function Radix(n: nat, base: nat): (r: string)
    requires 2 <= base <= 16
    ensures r != ""
    decreases n
  {
    if n < base then [DigitChar(n)] else (DivModBase(n, base); Radix(n / base, base) + [DigitChar(n % base)])
  }

  lemma {:induction false} RadixDigits(n: nat, base: nat)
    requires 2 <= base <= 16
    ensures forall c :: c in Radix(n, base) ==> IsDigit(c)
    decreases n
  {
    hide DigitChar;
    if n < base {
      DigitOf(n);
    } else {
      DivModBase(n, base);
      DigitOf(n % base);
      RadixDigits(n / base, base);
    }
  }

  lemma {:induction false} DecimalDigits(n: nat)
    ensures forall c :: c in Radix(n, 10) ==> '0' <= c <= '9'
    decreases n
  {
    hide DigitChar;
    if n < 10 {
      DecimalDigit(n);
    } else {
      DivModBase(n, 10);
      DecimalDigits(n / 10);
      DecimalDigit(n % 10);
    }
  }

  lemma DecimalDigit(d: nat)
    requires d < 10
    ensures '0' <= DigitChar(d) <= '9'
  {
  }

  function ParseRadix(s: string, base: nat): Option<nat>
    requires 2 <= base <= 16
  {
    if s == "" then None
    else
      var n := |s| - 1;
      match DigitValue(s[n])
      case None => None
      case Some(d) =>
        if d >= base then None
        else if n == 0 then Some(d)
        else match ParseRadix(s[..n], base)
          case None => None
          case Some(high) => Some(high * base + d)
  }

  lemma DivModBase(n: nat, base: nat)
    requires base >= 2
    ensures (n / base) * base + n % base == n && 0 <= n % base < base
    ensures n > 0 ==> 0 <= n / base < n
  {
    var q := n / base;
    if n > 0 && q > 0 {
      assert q * base == q * (base - 1) + q;
      assert q * (base - 1) >= 1;
    }
  }

  lemma {:induction false} ParseRadixOf(n: nat, base: nat)
    requires 2 <= base <= 16
    ensures ParseRadix(Radix(n, base), base) == Some(n)
    decreases n
  {
    hide DigitChar, DigitValue;
    if n < base {
      DigitOf(n);
    } else {
      DivModBase(n, base);
      DigitOf(n % base);
      ParseRadixOf(n / base, base);
    }
  }

  /** An unsigned integer below `limit`; a leading plus sign is accepted. */
  function ParseUnsigned(s: string, base: nat, limit: nat): (r: Parsed<nat>)
    requires 2 <= base <= 16
    ensures r.Ok? ==> r.value < limit
  {
    var digits := if s != "" && s[0] == '+' then s[1..] else s;
    match ParseRadix(digits, base)
    case None => Malformed
    case Some(n) => if n < limit then Ok(n) else Malformed
  }

  function Decimal(n: nat): string {
    Radix(n, 10)
  }

  function Hex(n: nat): string {
    Radix(n, 16)
  }

  lemma {:induction false} ParseUnsignedOf(n: nat, base: nat, limit: nat)
    requires 2 <= base <= 16 && n < limit
    ensures ParseUnsigned(Radix(n, base), base, limit) == Ok(n)
  {
    ParseRadixOf(n, base);
    RadixDigits(n, base);
    assert IsDigit(Radix(n, base)[0]);
  }

  /** Decimal digits, without a sign or a leading zero. */
  predicate IsNumeral(s: string) {
    s != "" && (forall c :: c in s ==> '0' <= c <= '9') && (s[0] == '0' ==> |s| == 1)
  }

  lemma {:induction false} DecimalIsNumeral(n: nat)
    ensures IsNumeral(Decimal(n)) && (Decimal(n)[0] == '0' ==> n == 0)
    decreases n
  {
    DecimalDigits(n);
    if n < 10 {
      DecimalDigit(n);
    } else {
      DivModBase(n, 10);
      DecimalIsNumeral(n / 10);
      assert Decimal(n)[0] == Decimal(n / 10)[0];
    }
  }

  /** There is one numeral for each number, the one that is printed. */
  lemma {:induction false} NumeralIsDecimal(s: string)
    requires IsNumeral(s)
    ensures ParseRadix(s, 10).Some? && s == Decimal(ParseRadix(s, 10).value)
    decreases |s|
  {
    var n := |s| - 1;
    assert s[n] in s;
    DigitBack(s[n]);
    hide DigitValue, DigitChar;
    var d := DigitValue(s[n]).value;
    if n > 0 {
      assert forall c :: c in s[..n] ==> c in s;
      NumeralIsDecimal(s[..n]);
      var high := ParseRadix(s[..n], 10).value;
      DecimalIsNumeral(high);
      DecimalIsNumeral(0);
      assert s[..n][0] == s[0];
      assert (high * 10 + d) / 10 == high && (high * 10 + d) % 10 == d;
      assert s == s[..n] + [s[n]];
    } else {
      assert s == [s[0]];
    }
  }

  lemma DigitBack(c: char)
    requires '0' <= c <= '9'
    ensures DigitValue(c).Some? && DigitValue(c).value < 10 && DigitChar(DigitValue(c).value) == c
  {
  }

  /** A text that starts with neither a digit nor a sign is no number. */
  lemma {:induction false} IsNoNumber(s: string, limit: nat)
    requires s != "" && DigitValue(s[0]).None? && s[0] != '+'
    ensures ParseUnsigned(s, 10, limit).Malformed?
  {
    StartsNoNumber(s);
  }

  lemma {:induction false} StartsNoNumber(s: string)
    requires s != "" && DigitValue(s[0]).None?
    ensures ParseRadix(s, 10).None?
    decreases |s|
  {
    hide DigitValue;
    var n := |s| - 1;
    if n > 0 {
      StartsNoNumber(s[..n]);
    }
  }

  function DecimalInt(n: int): string {
    if n < 0 then "-" + Decimal(-n) else Decimal(n)
  }

  const I128_LIMIT: int := 0x8000_0000_0000_0000_0000_0000_0000_0000

  function ParseI128(s: string): Parsed<int> {
    if s != "" && s[0] == '-' then
      match ParseRadix(s[1..], 10)
      case None => Malformed
      case Some(n) =>
        var v: int := 0 - n;
        if n <= I128_LIMIT then Ok(v) else Malformed
    else
      var n :- ParseUnsigned(s, 10, I128_LIMIT);
      var v: int := n;
      Ok(v)
  }

  lemma {:induction false} ParseI128Of(n: int)
    requires -I128_LIMIT <= n < I128_LIMIT
    ensures ParseI128(DecimalInt(n)) == Ok(n)
  {
    hide Radix, ParseRadix, IsDigit, ParseUnsigned;
    if n < 0 {
      ParseRadixOf(-n, 10);
      assert ("-" + Decimal(-n))[1..] == Decimal(-n);
    } else {
      ParseUnsignedOf(n, 10, I128_LIMIT);
      DecimalDigits(n);
      assert Decimal(n)[0] in Decimal(n);
    }
  }

  function HexByte(b: U8): string {
    [DigitChar(b / 16), DigitChar(b % 16)]
  }

  function HexBytes(bytes: seq<U8>): string {
    if bytes == [] then "" else HexBytes(bytes[..|bytes| - 1]) + HexByte(bytes[|bytes| - 1])
  }

  function ParseHexPairs(s: string): Parsed<seq<U8>>
    requires |s| % 2 == 0
  {
    if s == "" then Ok([])
    else
      var n := |s| - 2;
      var before :- ParseHexPairs(s[..n]);
      match (DigitValue(s[n]), DigitValue(s[n + 1]))
      case (Some(hi), Some(lo)) => Ok(before + [16 * hi + lo])
      case _ => Malformed
  }

  lemma ByteDigits(b: U8)
    ensures |HexByte(b)| == 2 && DigitValue(HexByte(b)[0]) == Some(b / 16) && DigitValue(HexByte(b)[1]) == Some(b % 16)
    ensures 16 * (b / 16) + b % 16 == b
    ensures forall c :: c in HexByte(b) ==> IsDigit(c)
  {
    hide DigitChar, DigitValue, IsDigit;
    DigitOf(b / 16);
    DigitOf(b % 16);
  }

  lemma {:induction false} ParseLastPair(s: string, b: U8)
    requires |s| % 2 == 0
    ensures |s + HexByte(b)| % 2 == 0
    ensures ParseHexPairs(s + HexByte(b)) ==
            match ParseHexPairs(s)
            case Malformed => Malformed
            case Ok(before) => Ok(before + [b])
  {
    hide DigitValue, HexByte;
    ByteDigits(b);
    var t := s + HexByte(b);
    assert t[..|t| - 2] == s && t[|t| - 2] == HexByte(b)[0] && t[|t| - 1] == HexByte(b)[1];
  }

  lemma {:induction false} ParseHexPairsOf(bytes: seq<U8>)
    ensures |HexBytes(bytes)| % 2 == 0 && ParseHexPairs(HexBytes(bytes)) == Ok(bytes)
    ensures forall c :: c in HexBytes(bytes) ==> IsDigit(c)
  {
    hide HexByte, ParseHexPairs, IsDigit;
    if bytes == [] {
      NoPairs();
    } else {
      var n := |bytes| - 1;
      ParseHexPairsOf(bytes[..n]);
      ByteDigits(bytes[n]);
      ParseLastPair(HexBytes(bytes[..n]), bytes[n]);
      assert bytes == bytes[..n] + [bytes[n]];
    }
  }

  lemma NoPairs()
    ensures ParseHexPairs("") == Ok([])
  {
  }

  /** The byte pairs of a signature, read left to right. */
  method ParseHexBytes(s: string) returns (r: Parsed<seq<U8>>)
    ensures r == if |s| % 2 == 0 then ParseHexPairs(s) else Malformed
  {
    if |s| % 2 != 0 {
      return Malformed;
    }
    var out: seq<U8> := [];
    var i := 0;
    while i < |s|
      invariant 0 <= i <= |s| && i % 2 == 0
      invariant ParseHexPairs(s[..i]) == Ok(out)
    {
      var hi, lo := DigitValue(s[i]), DigitValue(s[i + 1]);
      assert s[..i + 2][..i] == s[..i];
      if hi.None? || lo.None? {
        PairsFailEarly(s, i + 2);
        return Malformed;
      }
      out := out + [16 * hi.value + lo.value];
      i := i + 2;
    }
    assert s[..|s|] == s;
    r := Ok(out);
  }

  lemma {:induction false} PairsFailEarly(s: string, i: nat)
    requires |s| % 2 == 0 && i <= |s| && i % 2 == 0 && ParseHexPairs(s[..i]).Malformed?
    ensures ParseHexPairs(s).Malformed?
    decreases |s|
  {
    if i < |s| {
      assert s[..|s| - 2][..i] == s[..i];
      PairsFailEarly(s[..|s| - 2], i);
    } else {
      assert s[..i] == s;
    }
  }

  // ----- escapes -----

  function Escape(c: char, quote: char, printable: char -> bool): string {
    if c == '\0' then "\\0"
    else if c == '\t' then "\\t"
    else if c == '\r' then "\\r"
    else if c == '\n' then "\\n"
    else if c == '\\' then "\\\\"
    else if c == quote then ['\\', quote]
    else if printable(c) then [c]
    else "\\u{" + Hex(c as nat) + "}"
  }

  function EscapeAll(s: string, printable: char -> bool): string {
    if s == "" then "" else Escape(s[0], '"', printable) + EscapeAll(s[1..], printable)
  }

  function Quoted(s: string, printable: char -> bool): string {
    "\"" + EscapeAll(s, printable) + "\""
  }

  function QuotedChar(c: char, printable: char -> bool): string {
    "'" + Escape(c, '\'', printable) + "'"
  }

  predicate IsScalar(n: nat) {
    n < 0xD800 || 0xE000 <= n < 0x11_0000
  }

  /** After a backslash and a `u`: a code point in braces. */
  function ParseCodePoint(s: string): (r: Parsed<(char, string)>)
    ensures r.Ok? ==> |r.value.1| < |s|
  {
    var body :- StripPrefix(s, "{");
    var parts :- SplitOnce(body, "}");
    var n :- ParseUnsigned(parts.0, 16, 0x1_0000_0000);
    if IsScalar(n) then Ok((n as char, parts.1)) else Malformed
  }

  /** After a backslash: the character it stands for, and the rest. */
  function ParseEscape(s: string): (r: Parsed<(char, string)>)
    ensures r.Ok? ==> |r.value.1| < |s|
  {
    if s == "" then Malformed
    else match s[0]
      case 'n' => Ok(('\n', s[1..]))
      case 't' => Ok(('\t', s[1..]))
      case 'r' => Ok(('\r', s[1..]))
      case '\\' => Ok(('\\', s[1..]))
      case '"' => Ok(('"', s[1..]))
      case '\'' => Ok(('\'', s[1..]))
      case '0' => Ok(('\0', s[1..]))
      case 'u' => ParseCodePoint(s[1..])
      case _ => Malformed
  }

  /** After an opening quote: the string up to the closing one, and the rest. */
  function ParseStringBody(s: string): Parsed<(string, string)>
    decreases |s|
  {
    if s == "" then Malformed
    else if s[0] == '"' then Ok(("", s[1..]))
    else if s[0] == '\\' then
      var e :- ParseEscape(s[1..]);
      var tail :- ParseStringBody(e.1);
      Ok(([e.0] + tail.0, tail.1))
    else
      var tail :- ParseStringBody(s[1..]);
      Ok(([s[0]] + tail.0, tail.1))
  }

  function LeadingQuoted(s: string): Parsed<(string, string)> {
    var body :- StripPrefix(s, "\"");
    ParseStringBody(body)
  }

  function ParseQuoted(s: string): Parsed<string> {
    var r :- LeadingQuoted(s);
    if r.1 == "" then Ok(r.0) else Malformed
  }

  function ParseQuotedChar(s: string): Parsed<char> {
    var body :- StripPrefix(s, "'");
    var inner :- StripSuffix(body, "'");
    if inner == "" then Malformed
    else if inner[0] == '\\' then
      var e :- ParseEscape(inner[1..]);
      if e.1 == "" then Ok(e.0) else Malformed
    else if |inner| == 1 then Ok(inner[0])
    else Malformed
  }

  lemma RegroupTail(out: string, c: string, tail: Parsed<(string, string)>)
    ensures tail.Ok? ==> out + (c + tail.value.0) == out + c + tail.value.0
  {
  }

  /** The literal at the front of `tok`, character by character. */
  method ParseLeadingQuotedString(tok: string) returns (r: Parsed<(string, string)>)
    ensures r == LeadingQuoted(tok)
  {
    if tok == "" || tok[0] != '"' {
      return Malformed;
    }
    assert tok[..1] == "\"" && StripPrefix(tok, "\"") == Ok(tok[1..]);
    var out, rest := "", tok[1..];
    assert forall s: string :: "" + s == s;
    while rest != "" && rest[0] != '"'
      invariant LeadingQuoted(tok) ==
                match ParseStringBody(rest)
                case Malformed => Malformed
                case Ok(tail) => Ok((out + tail.0, tail.1))
      decreases |rest|
    {
      if rest[0] == '\\' {
        var e := ParseEscape(rest[1..]);
        if e.Malformed? {
          return Malformed;
        }
        RegroupTail(out, [e.value.0], ParseStringBody(e.value.1));
        out, rest := out + [e.value.0], e.value.1;
      } else {
        RegroupTail(out, [rest[0]], ParseStringBody(rest[1..]));
        out, rest := out + [rest[0]], rest[1..];
      }
    }
    if rest == "" {
      return Malformed;
    }
    assert out + "" == out;
    r := Ok((out, rest[1..]));
  }

  lemma CodePointParses(c: char, rest: string)
    ensures ParseCodePoint("{" + Hex(c as nat) + "}" + rest) == Ok((c, rest))
  {
    var hex := Hex(c as nat);
    RadixDigits(c as nat, 16);
    NotFound(hex, "}");
    assert "{" + hex + "}" + rest == "{" + (hex + "}" + rest);
    Stripped("{", hex + "}" + rest);
    SplitOnceAt(hex, "}", rest);
    ParseUnsignedOf(c as nat, 16, 0x1_0000_0000);
  }

  /** An escaped character is itself, or a backslash and what `ParseEscape` reads back. */
  lemma EscapeParses(c: char, quote: char, printable: char -> bool, rest: string)
    requires quote == '"' || quote == '\''
    ensures var e := Escape(c, quote, printable);
            if e != "" && e[0] == '\\' then ParseEscape(e[1..] + rest) == Ok((c, rest))
            else e == [c] && c != quote && c != '\\'
  {
    hide ParseCodePoint, Radix;
    var e := Escape(c, quote, printable);
    if |e| == 2 {
      assert e[1..] + rest == [e[1]] + rest;
      assert ([e[1]] + rest)[1..] == rest;
    } else if |e| > 2 {
      var body := "{" + Hex(c as nat) + "}";
      assert e == "\\u" + body;
      assert e[1..] + rest == "u" + (body + rest);
      assert (e[1..] + rest)[1..] == body + rest;
      CodePointParses(c, rest);
    }
  }

  lemma {:induction false} BodyStep(e: string, c: char, tail: string)
    requires if e != "" && e[0] == '\\' then ParseEscape(e[1..] + tail) == Ok((c, tail)) else e == [c] && c != '"'
    ensures ParseStringBody(e + tail) ==
            match ParseStringBody(tail)
            case Malformed => Malformed
            case Ok(r) => Ok(([c] + r.0, r.1))
  {
    hide ParseEscape;
    assert (e + tail)[1..] == e[1..] + tail && (e + tail)[0] == e[0];
    assert e == [c] ==> e[1..] + tail == tail;
  }

  /** An escaped string reads back from `q`, which starts with the closing quote. */
  lemma {:induction false} StringBodyParses(s: string, printable: char -> bool, q: string)
    requires q != "" && q[0] == '"'
    ensures ParseStringBody(EscapeAll(s, printable) + q) == Ok((s, q[1..]))
  {
    hide Escape, ParseEscape;
    if s == "" {
      assert "" + q == q;
    } else {
      var e, tail := Escape(s[0], '"', printable), EscapeAll(s[1..], printable) + q;
      Regrouped(e, EscapeAll(s[1..], printable), q);
      StringBodyParses(s[1..], printable, q);
      EscapeParses(s[0], '"', printable, tail);
      BodyStep(e, s[0], tail);
      assert s == [s[0]] + s[1..];
    }
  }

  lemma Regrouped(a: string, b: string, c: string)
    ensures a + b + c == a + (b + c)
  {
  }

  /** A string literal reads back, whatever follows it and whatever counts as printable. */
  lemma QuotedParses(s: string, printable: char -> bool, rest: string)
    ensures LeadingQuoted(Quoted(s, printable) + rest) == Ok((s, rest))
    ensures rest == "" ==> ParseQuoted(Quoted(s, printable)) == Ok(s)
  {
    var q := "\"" + rest;
    var body := EscapeAll(s, printable) + q;
    assert Quoted(s, printable) + rest == "\"" + body;
    Stripped("\"", body);
    StringBodyParses(s, printable, q);
    assert rest == "" ==> Quoted(s, printable) + rest == Quoted(s, printable);
  }

  /** So does a character literal. */
  lemma QuotedCharParses(c: char, printable: char -> bool)
    ensures ParseQuotedChar(QuotedChar(c, printable)) == Ok(c)
  {
    hide Escape, ParseEscape;
    var e := Escape(c, '\'', printable);
    assert QuotedChar(c, printable) == "'" + (e + "'");
    Stripped("'", e + "'");
    Stripped(e, "'");
    EscapeParses(c, '\'', printable, "");
    assert e != "" ==> e[1..] + "" == e[1..];
  }

  predicate IsPlain(s: string) {
    '\n' !in s && '\r' !in s
  }

  lemma EscapeIsPlain(c: char, quote: char, printable: char -> bool)
    requires quote == '"' || quote == '\''
    ensures IsPlain(Escape(c, quote, printable))
  {
    RadixDigits(c as nat, 16);
  }

  lemma {:induction false} QuotedIsPlain(s: string, printable: char -> bool)
    ensures IsPlain(EscapeAll(s, printable)) && IsPlain(Quoted(s, printable))
  {
    hide Escape;
    if s != "" {
      EscapeIsPlain(s[0], '"', printable);
      QuotedIsPlain(s[1..], printable);
    }
  }
}
