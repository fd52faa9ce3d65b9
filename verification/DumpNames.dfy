/** Method bodies named by class: a dump written without class ids names a body by its
    generic and the names of its specialisers' classes, and reading it puts the ids in. */
module DumpNames {
  import opened Ir
  import opened Text
  import opened DumpParse

  // ----- tokens -----

  /** What a token of the suffix is read as: a class name its id in decimal, anything else
      itself. */
  predicate StandsFor(tok: string, out: string, resolve: Resolver) {
    if IsBracketed(tok)
    then resolve(tok).Some? && IsNumeral(out) && ParseUnsigned(out, 10, U32_LIMIT) == Ok(resolve(tok).value)
    else out == tok
  }

  predicate Unknown(tok: string, resolve: Resolver) {
    IsBracketed(tok) && resolve(tok).None?
  }

  lemma TokenResolves(tok: string, resolve: Resolver)
    ensures var r := ResolveToken(tok, resolve);
            && (r.Malformed? <==> Unknown(tok, resolve))
            && (r.Ok? ==> StandsFor(tok, r.value, resolve))
  {
    hide Radix, ParseUnsigned, IsNumeral;
    if IsBracketed(tok) && resolve(tok).Some? {
      DecimalIsNumeral(resolve(tok).value);
      ParseUnsignedOf(resolve(tok).value, 10, U32_LIMIT);
    }
  }

  lemma {:induction false} TokensResolve(toks: seq<string>, resolve: Resolver)
    ensures var r := ResolveTokens(toks, resolve);
            && (r.Malformed? <==> exists k :: 0 <= k < |toks| && Unknown(toks[k], resolve))
            && (r.Ok? ==> |r.value| == |toks| && forall k :: 0 <= k < |toks| ==>
                 StandsFor(toks[k], r.value[k], resolve))
  {
    hide ResolveToken, StandsFor, Unknown;
    if toks != [] {
      TokenResolves(toks[0], resolve);
      TokensResolve(toks[1..], resolve);
      if k :| 0 <= k < |toks| && Unknown(toks[k], resolve) {
        assert k > 0 ==> toks[1..][k - 1] == toks[k];
      }
      if ResolveTokens(toks[1..], resolve).Malformed? {
        var k :| 0 <= k < |toks[1..]| && Unknown(toks[1..][k], resolve);
        assert toks[k + 1] == toks[1..][k];
      }
      if ResolveTokens(toks, resolve).Ok? {
        var rest := ResolveTokens(toks[1..], resolve).value;
        forall k | 0 <= k < |toks|
          ensures StandsFor(toks[k], ResolveTokens(toks, resolve).value[k], resolve)
        {
          assert k > 0 ==> toks[1..][k - 1] == toks[k] && ResolveTokens(toks, resolve).value[k] == rest[k - 1];
        }
      }
    }
  }

  // ----- names -----

  /** A name without a dollar sign is its own; every other is a generic and tokens. */
  lemma {:induction false} NameShape(name: string) returns (generic: string, toks: seq<string>)
    requires '$' in name
    ensures name == generic + "$" + Join(toks, "_") && '$' !in generic
    ensures toks != [] && forall tok :: tok in toks ==> '_' !in tok
  {
    var i := FirstAt(name, '$');
    var suffix := name[i + 1..];
    generic, toks := name[..i], Split(suffix, "_");
    JoinSplit(suffix, "_");
    PiecesAvoid(suffix, '_');
    assert name == generic + [name[i]] + suffix;
  }

  lemma {:induction false} FirstAt(s: string, c: char) returns (i: nat)
    requires c in s
    ensures i < |s| && s[i] == c && c !in s[..i]
  {
    i := 0;
    while s[i] != c
      invariant i < |s| && c !in s[..i] && c in s[i..]
      decreases |s| - i
    {
      i := i + 1;
    }
  }

  lemma {:induction false} PiecesAvoid(s: string, c: char)
    ensures forall p :: p in Split(s, [c]) ==> c !in p
    decreases |s|
  {
    match Find(s, [c])
    case None => FindsChar(s, c);
    case Some(i) =>
      FindsChar(s, c);
      PiecesAvoid(s[i + 1..], c);
  }

  lemma {:induction false} FindsChar(s: string, c: char)
    ensures match Find(s, [c])
            case None => c !in s
            case Some(i) => i < |s| && s[i] == c && c !in s[..i]
  {
    if c in s {
      var i := FirstAt(s, c);
      NotFound(s[..i], [c]);
      FindAfter(s[..i], [c], s[i + 1..]);
      assert s == s[..i] + [c] + s[i + 1..];
    } else {
      NotFound(s, [c]);
    }
  }

  /** Reading a method body's name: it is refused exactly when it names a class the resolver
      does not know; otherwise it is the same generic followed by as many tokens, the id of
      the class for a class name and the token itself for anything else. */
  lemma {:induction false} NameResolves(generic: string, toks: seq<string>, resolve: Resolver)
    returns (out: seq<string>)
    requires '$' !in generic && toks != [] && forall tok :: tok in toks ==> '_' !in tok
    ensures var r := ResolveName(generic + "$" + Join(toks, "_"), resolve);
            && (r.Malformed? <==> exists k :: 0 <= k < |toks| && Unknown(toks[k], resolve))
            && (r.Ok? ==>
                  && |out| == |toks| && r.value == generic + "$" + Join(out, "_")
                  && forall k :: 0 <= k < |toks| ==> StandsFor(toks[k], out[k], resolve))
  {
    hide Unknown, StandsFor, Avoids;
    NotFound(generic, "$");
    SplitOnceAt(generic, "$", Join(toks, "_"));
    SplitJoin(toks, "_");
    TokensResolve(toks, resolve);
    var r := ResolveTokens(toks, resolve);
    out := if r.Ok? then r.value else [];
  }

  lemma {:induction false} PlainNameStays(name: string, resolve: Resolver)
    requires '$' !in name
    ensures ResolveName(name, resolve) == Ok(name)
  {
    NotFound(name, "$");
  }

  // ----- a resolved name is resolved -----

  lemma ReadTokenIsClean(tok: string, out: string, resolve: Resolver)
    requires StandsFor(tok, out, resolve) && '_' !in tok
    ensures !IsBracketed(out) && '_' !in out
    ensures forall c :: c in out ==> c in tok || '0' <= c <= '9'
  {
    hide ParseUnsigned;
    assert out != "" ==> out[0] in out;
  }

  /** No class name is left in a resolved name, so reading it again leaves it alone. */
  lemma {:induction false} ResolvedNameStays(name: string, resolve: Resolver, again: Resolver)
    requires ResolveName(name, resolve).Ok?
    ensures var resolved := ResolveName(name, resolve).value; ResolveName(resolved, again) == Ok(resolved)
  {
    hide ResolveName, StandsFor, Unknown, IsBracketed;
    if '$' in name {
      var generic, toks := NameShape(name);
      var out := NameResolves(generic, toks, resolve);
      forall k | 0 <= k < |out|
        ensures !IsBracketed(out[k]) && '_' !in out[k]
      {
        assert toks[k] in toks;
        ReadTokenIsClean(toks[k], out[k], resolve);
      }
      forall k | 0 <= k < |out|
        ensures !Unknown(out[k], again)
      {
        NotUnknown(out[k], again);
      }
      var same := NameResolves(generic, out, again);
      forall k | 0 <= k < |out|
        ensures same[k] == out[k]
      {
        SameToken(out[k], same[k], again);
      }
      assert same == out;
    } else {
      PlainNameStays(name, resolve);
      PlainNameStays(name, again);
    }
  }

  lemma NotUnknown(tok: string, resolve: Resolver)
    requires !IsBracketed(tok)
    ensures !Unknown(tok, resolve)
  {
  }

  lemma SameToken(tok: string, out: string, resolve: Resolver)
    requires !IsBracketed(tok) && StandsFor(tok, out, resolve)
    ensures out == tok
  {
  }

  // ----- delimiters stay out of resolved names -----

  /** No blank followed by a parenthesis. */
  predicate NoParamStart(s: string) {
    forall i :: 0 <= i < |s| - 1 ==> !(s[i] == ' ' && s[i + 1] == '(')
  }

  lemma AvoidsParamStart(s: string)
    ensures Avoids(s, " (") <==> NoParamStart(s)
  {
    var pat := " (";
    forall i | 0 <= i < |s|
      ensures StartsAt(s + pat, i, pat) <==> i < |s| - 1 && s[i] == ' ' && s[i + 1] == '('
    {
      assert (s + pat)[i..i + 2] == [(s + pat)[i], (s + pat)[i + 1]];
      assert i == |s| - 1 ==> (s + pat)[i + 1] == ' ';
    }
    if !Avoids(s, pat) {
      var i :| 0 <= i < |s| && StartsAt(s + pat, i, pat);
      assert i < |s| - 1 && s[i] == ' ' && s[i + 1] == '(';
    }
    if i :| 0 <= i < |s| - 1 && s[i] == ' ' && s[i + 1] == '(' {
      assert StartsAt(s + pat, i, pat);
    }
  }

  lemma NoParamStartConcat(a: string, sep: char, b: string)
    requires sep != ' ' && sep != '('
    ensures NoParamStart(a + [sep] + b) <==> NoParamStart(a) && NoParamStart(b)
  {
    var s := a + [sep] + b;
    if NoParamStart(s) {
      forall i | 0 <= i < |a| - 1
        ensures !(a[i] == ' ' && a[i + 1] == '(')
      {
        assert s[i] == a[i] && s[i + 1] == a[i + 1];
      }
      forall i | 0 <= i < |b| - 1
        ensures !(b[i] == ' ' && b[i + 1] == '(')
      {
        assert s[i + |a| + 1] == b[i] && s[i + |a| + 2] == b[i + 1];
      }
    } else {
      var i :| 0 <= i < |s| - 1 && s[i] == ' ' && s[i + 1] == '(';
      if i > |a| {
        assert b[i - |a| - 1] == ' ' && b[i - |a|] == '(';
      }
    }
  }

  lemma {:induction false} NoParamStartJoin(parts: seq<string>)
    ensures NoParamStart(Join(parts, "_")) <==> forall k :: 0 <= k < |parts| ==> NoParamStart(parts[k])
  {
    hide NoParamStart;
    if parts == [] {
      NothingStarts("");
    } else if |parts| > 1 {
      NoParamStartConcat(parts[0], '_', Join(parts[1..], "_"));
      NoParamStartJoin(parts[1..]);
      assert forall k :: 0 < k < |parts| ==> parts[k] == parts[1..][k - 1];
      if forall k :: 0 <= k < |parts[1..]| ==> NoParamStart(parts[1..][k]) {
        forall k | 0 < k < |parts|
          ensures NoParamStart(parts[k])
        {
          assert NoParamStart(parts[1..][k - 1]);
        }
      }
    }
  }

  lemma NothingStarts(s: string)
    requires ' ' !in s
    ensures NoParamStart(s)
  {
  }

  lemma {:induction false} PartsAreIn(parts: seq<string>, sep: string, k: nat, c: char)
    requires k < |parts| && c in parts[k]
    ensures c in Join(parts, sep)
  {
    if k > 0 {
      PartsAreIn(parts[1..], sep, k - 1, c);
    }
  }

  lemma ReadTokenHasNoStart(tok: string, out: string, resolve: Resolver)
    requires StandsFor(tok, out, resolve) && NoParamStart(tok)
    ensures NoParamStart(out)
  {
    hide ParseUnsigned;
    if IsBracketed(tok) {
      NothingStarts(out);
    }
  }

  lemma ReadChars(toks: seq<string>, out: seq<string>, resolve: Resolver, c: char)
    requires |out| == |toks| && forall k :: 0 <= k < |toks| ==> '_' !in toks[k] && StandsFor(toks[k], out[k], resolve)
    requires c in Join(out, "_")
    ensures c in Join(toks, "_") || '0' <= c <= '9' || c == '_'
  {
    JoinChars(out, "_", c);
    if c != '_' {
      var k :| 0 <= k < |out| && c in out[k];
      ReadTokenIsClean(toks[k], out[k], resolve);
      if c in toks[k] {
        PartsAreIn(toks, "_", k, c);
      }
    }
  }

  /** Resolving a name that can be printed gives one that can be printed. */
  lemma {:induction false} ResolvedNamePrints(name: string, resolve: Resolver)
    requires ResolveName(name, resolve).Ok? && IsPlain(name) && Avoids(name, " (")
    ensures var resolved := ResolveName(name, resolve).value; IsPlain(resolved) && Avoids(resolved, " (")
  {
    hide ResolveName, StandsFor, Unknown, NoParamStart, Avoids;
    AvoidsParamStart(name);
    if '$' in name {
      var generic, toks := NameShape(name);
      var out := NameResolves(generic, toks, resolve);
      NoParamStartConcat(generic, '$', Join(toks, "_"));
      NoParamStartJoin(toks);
      forall k | 0 <= k < |out|
        ensures NoParamStart(out[k])
      {
        ReadTokenHasNoStart(toks[k], out[k], resolve);
      }
      NoParamStartJoin(out);
      NoParamStartConcat(generic, '$', Join(out, "_"));
      AvoidsParamStart(generic + "$" + Join(out, "_"));
      forall c | c in Join(out, "_")
        ensures c in name || '0' <= c <= '9' || c == '_'
      {
        forall k | 0 <= k < |toks|
          ensures '_' !in toks[k]
        {
          assert toks[k] in toks;
        }
        ReadChars(toks, out, resolve, c);
      }
    } else {
      PlainNameStays(name, resolve);
    }
  }
}
