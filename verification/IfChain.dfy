/** The `if` statement: a head and any number of clauses in the wire tree, folded from the
    right into nested conditionals. Translation of other expressions and the text of a node
    are parameters. */
module IfChain {
  import opened Ir
  import opened Wire

  const BODY: Kind := 0
  const STATEMENT_CLAUSE: Kind := 12

  datatype Expr =
    | Leaf(id: nat)
    | Begin(span: (U32, U32), body: seq<Expr>)
    | IfExp(span: (U32, U32), cond: Expr, then_: Expr, else_: Option<Expr>)

  type Translate = Tree -> Option<Expr>
  type TextOf = Tree -> Option<string>

  function SpanOf(t: Tree): (U32, U32) {
    (t.lo, t.hi)
  }

  function TranslateAll(ts: seq<Tree>, translate: Translate): Option<seq<Expr>> {
    if ts == [] then Some([])
    else match (translate(ts[0]), TranslateAll(ts[1..], translate))
      case (Some(e), Some(es)) => Some([e] + es)
      case _ => None
  }

  /** A branch: its condition, and its forms as a sequence. */
  datatype Branch = Branch(cond: Expr, then_: Expr)

  function BranchOf(body: Tree, translate: Translate): Option<Branch> {
    if body.kind != BODY || body.children == [] then None
    else match (translate(body.children[0]), TranslateAll(body.children[1..], translate))
      case (Some(c), Some(es)) => Some(Branch(c, Begin(SpanOf(body), es)))
      case _ => None
  }

  // ----- the specification, read left to right -----

  /** A clause, once its shape is checked. */
  datatype Clause = ElseIf(span: (U32, U32), branch: Branch) | Else(body: Expr)

  function ClauseOf(t: Tree, textOf: TextOf, translate: Translate): Option<Clause> {
    if t.kind != STATEMENT_CLAUSE || t.children == [] || t.children[0].kind != BODY then None
    else match textOf(t)
      case None => None
      case Some(word) =>
        if word == "else" then
          match TranslateAll(t.children[0].children, translate)
          case None => None
          case Some(es) => Some(Else(Begin(SpanOf(t.children[0]), es)))
        else if word == "elseif" then
          match BranchOf(t.children[0], translate)
          case None => None
          case Some(b) => Some(ElseIf(SpanOf(t), b))
        else None
  }

  function ClausesOf(ts: seq<Tree>, textOf: TextOf, translate: Translate): Option<seq<Clause>> {
    if ts == [] then Some([])
    else match (ClauseOf(ts[0], textOf, translate), ClausesOf(ts[1..], textOf, translate))
      case (Some(c), Some(cs)) => Some([c] + cs)
      case _ => None
  }

  /** Only the last clause may be an `else`. */
  predicate ElseIsLast(cs: seq<Clause>) {
    forall i :: 0 <= i < |cs| - 1 ==> cs[i].ElseIf?
  }

  /** The alternative made of the clauses: each `elseif` a conditional in a sequence of its
      own, with the rest as its alternative. */
  function Nested(cs: seq<Clause>): Option<Expr> {
    if cs == [] then None
    else match cs[0]
      case Else(body) => Some(body)
      case ElseIf(span, b) => Some(Begin(span, [IfExp(span, b.cond, b.then_, Nested(cs[1..]))]))
  }

  function IfExpr(node: Tree, textOf: TextOf, translate: Translate): Option<Expr> {
    if node.children == [] then None
    else match (BranchOf(node.children[0], translate), ClausesOf(node.children[1..], textOf, translate))
      case (Some(b), Some(cs)) =>
        if ElseIsLast(cs) then Some(IfExp(SpanOf(node), b.cond, b.then_, Nested(cs))) else None
      case _ => None
  }

  // ----- the same, from the node's own fields -----

  predicate AllTranslate(ts: seq<Tree>, translate: Translate) {
    forall k :: 0 <= k < |ts| ==> translate(ts[k]).Some?
  }

  /** A body that starts with a condition. */
  predicate IsBranch(body: Tree, translate: Translate) {
    body.kind == BODY && |body.children| >= 1 && AllTranslate(body.children, translate)
  }

  /** A clause with a body, read as the word it starts with. */
  predicate IsClause(t: Tree, word: string, textOf: TextOf) {
    t.kind == STATEMENT_CLAUSE && |t.children| >= 1 && t.children[0].kind == BODY && textOf(t) == Some(word)
  }

  predicate IsElse(t: Tree, textOf: TextOf, translate: Translate) {
    IsClause(t, "else", textOf) && AllTranslate(t.children[0].children, translate)
  }

  predicate IsElseIf(t: Tree, textOf: TextOf, translate: Translate) {
    IsClause(t, "elseif", textOf) && IsBranch(t.children[0], translate)
  }

  /** What is accepted: a head with a condition, then clauses that are all `elseif`s but the
      last, which may be an `else`; everything in them translates. */
  predicate Accepted(node: Tree, textOf: TextOf, translate: Translate) {
    && |node.children| >= 1 && IsBranch(node.children[0], translate)
    && AcceptedClauses(node.children[1..], textOf, translate)
  }

  predicate AcceptedClauses(clauses: seq<Tree>, textOf: TextOf, translate: Translate) {
    forall k :: 0 <= k < |clauses| ==>
      || IsElseIf(clauses[k], textOf, translate)
      || (k == |clauses| - 1 && IsElse(clauses[k], textOf, translate))
  }

  /** The forms' translations in order, as a sequence that covers `at`. */
  predicate IsForms(e: Expr, at: Tree, forms: seq<Tree>, translate: Translate) {
    && e.Begin? && e.span == (at.lo, at.hi) && |e.body| == |forms|
    && forall k :: 0 <= k < |forms| ==> translate(forms[k]) == Some(e.body[k])
  }

  /** A conditional that covers `at`: the first form of the body is its condition, the others
      its branch, and its alternative is made from the clauses. */
  predicate IsConditional(e: Expr, at: Tree, body: Tree, clauses: seq<Tree>, textOf: TextOf, translate: Translate)
    decreases |clauses|, 1
  {
    && e.IfExp? && e.span == (at.lo, at.hi) && |body.children| >= 1
    && translate(body.children[0]) == Some(e.cond) && IsForms(e.then_, body, body.children[1..], translate)
    && IsAlternative(e.else_, clauses, textOf, translate)
  }

  predicate IsAlternative(e: Option<Expr>, clauses: seq<Tree>, textOf: TextOf, translate: Translate)
    decreases |clauses|, 0
  {
    if clauses == [] then e.None?
    else
      && e.Some? && |clauses[0].children| >= 1
      && if textOf(clauses[0]) == Some("else")
         then IsForms(e.value, clauses[0].children[0], clauses[0].children[0].children, translate)
         else
           && e.value.Begin? && e.value.span == (clauses[0].lo, clauses[0].hi) && |e.value.body| == 1
           && IsConditional(e.value.body[0], clauses[0], clauses[0].children[0], clauses[1..], textOf, translate)
  }

  lemma {:induction false} TranslateAllIs(ts: seq<Tree>, translate: Translate)
    ensures TranslateAll(ts, translate).Some? <==> AllTranslate(ts, translate)
    ensures TranslateAll(ts, translate).Some? ==>
              var es := TranslateAll(ts, translate).value;
              |es| == |ts| && forall k :: 0 <= k < |ts| ==> translate(ts[k]) == Some(es[k])
  {
    if ts != [] {
      TranslateAllIs(ts[1..], translate);
      assert forall k :: 0 < k < |ts| ==> ts[k] == ts[1..][k - 1];
      if !AllTranslate(ts[1..], translate) {
        var k :| 0 <= k < |ts[1..]| && translate(ts[1..][k]).None?;
        assert ts[k + 1] == ts[1..][k];
      }
    }
  }

  lemma {:induction false} BranchOfIs(body: Tree, translate: Translate)
    ensures BranchOf(body, translate).Some? <==> IsBranch(body, translate)
    ensures BranchOf(body, translate).Some? ==>
              var b := BranchOf(body, translate).value;
              translate(body.children[0]) == Some(b.cond) && IsForms(b.then_, body, body.children[1..], translate)
  {
    if body.kind == BODY && body.children != [] {
      TranslateAllIs(body.children, translate);
      TranslateAllIs(body.children[1..], translate);
    }
  }

  lemma {:induction false} ClauseOfIs(t: Tree, textOf: TextOf, translate: Translate)
    ensures ClauseOf(t, textOf, translate).Some? <==> IsElseIf(t, textOf, translate) || IsElse(t, textOf, translate)
    ensures match ClauseOf(t, textOf, translate)
            case None => true
            case Some(Else(body)) =>
              textOf(t) == Some("else") && IsForms(body, t.children[0], t.children[0].children, translate)
            case Some(ElseIf(span, b)) =>
              && textOf(t) == Some("elseif") && span == (t.lo, t.hi)
              && BranchOf(t.children[0], translate) == Some(b)
  {
    hide BranchOf;
    if t.kind == STATEMENT_CLAUSE && t.children != [] {
      BranchOfIs(t.children[0], translate);
      TranslateAllIs(t.children[0].children, translate);
    }
  }

  lemma {:induction false} ClausesOfAre(ts: seq<Tree>, textOf: TextOf, translate: Translate)
    ensures ClausesOf(ts, textOf, translate).Some? <==>
            forall k :: 0 <= k < |ts| ==> ClauseOf(ts[k], textOf, translate).Some?
    ensures ClausesOf(ts, textOf, translate).Some? ==>
              var cs := ClausesOf(ts, textOf, translate).value;
              |cs| == |ts| && forall k :: 0 <= k < |ts| ==> ClauseOf(ts[k], textOf, translate) == Some(cs[k])
  {
    hide ClauseOf;
    if ts != [] {
      ClausesOfAre(ts[1..], textOf, translate);
      assert forall k :: 0 < k < |ts| ==> ts[k] == ts[1..][k - 1];
      if ClausesOf(ts[1..], textOf, translate).None? {
        var k :| 0 <= k < |ts[1..]| && ClauseOf(ts[1..][k], textOf, translate).None?;
        assert ts[k + 1] == ts[1..][k];
      }
    }
  }

  lemma {:induction false} NestedIs(ts: seq<Tree>, textOf: TextOf, translate: Translate)
    requires ClausesOf(ts, textOf, translate).Some? && ElseIsLast(ClausesOf(ts, textOf, translate).value)
    ensures IsAlternative(Nested(ClausesOf(ts, textOf, translate).value), ts, textOf, translate)
    decreases |ts|
  {
    hide ClauseOf, BranchOf, IsForms;
    if ts != [] {
      var cs := ClausesOf(ts, textOf, translate).value;
      assert cs[1..] == ClausesOf(ts[1..], textOf, translate).value;
      ClauseOfIs(ts[0], textOf, translate);
      assert ElseIsLast(cs[1..]) by {
        assert forall i :: 0 <= i < |cs| - 2 ==> cs[1..][i] == cs[i + 1];
      }
      NestedIs(ts[1..], textOf, translate);
      match cs[0]
      case Else(body) =>
      case ElseIf(span, b) => BranchOfIs(ts[0].children[0], translate);
    }
  }

  lemma {:induction false} ClausesAcceptedIff(ts: seq<Tree>, textOf: TextOf, translate: Translate)
    ensures AcceptedClauses(ts, textOf, translate) <==>
            ClausesOf(ts, textOf, translate).Some? && ElseIsLast(ClausesOf(ts, textOf, translate).value)
  {
    hide ClauseOf, IsElse, IsElseIf;
    ClausesOfAre(ts, textOf, translate);
    forall k | 0 <= k < |ts|
      ensures ClauseOf(ts[k], textOf, translate).Some? <==>
              IsElseIf(ts[k], textOf, translate) || IsElse(ts[k], textOf, translate)
      ensures ClauseOf(ts[k], textOf, translate).Some? ==>
                (IsElseIf(ts[k], textOf, translate) <==> ClauseOf(ts[k], textOf, translate).value.ElseIf?)
    {
      ClauseOfIs(ts[k], textOf, translate);
      OneWord(ts[k], textOf, translate);
    }
    if AcceptedClauses(ts, textOf, translate) {
      var cs := ClausesOf(ts, textOf, translate).value;
      assert forall i :: 0 <= i < |cs| - 1 ==> ClauseOf(ts[i], textOf, translate) == Some(cs[i]);
    }
  }

  lemma {:induction false} AcceptedIff(node: Tree, textOf: TextOf, translate: Translate)
    ensures IfExpr(node, textOf, translate).Some? <==> Accepted(node, textOf, translate)
    ensures IfExpr(node, textOf, translate).Some? ==>
              IsConditional(IfExpr(node, textOf, translate).value, node, node.children[0], node.children[1..], textOf,
                            translate)
  {
    hide ClausesOf, BranchOf, AcceptedClauses, IsForms, IsAlternative, ElseIsLast;
    if node.children != [] {
      BranchOfIs(node.children[0], translate);
      ClausesAcceptedIff(node.children[1..], textOf, translate);
      if AcceptedClauses(node.children[1..], textOf, translate) {
        NestedIs(node.children[1..], textOf, translate);
      }
    }
  }

  lemma OneWord(t: Tree, textOf: TextOf, translate: Translate)
    ensures !(IsElseIf(t, textOf, translate) && IsElse(t, textOf, translate))
    ensures IsElseIf(t, textOf, translate) ==> textOf(t) == Some("elseif")
    ensures IsElse(t, textOf, translate) ==> textOf(t) == Some("else")
  {
    assert |"elseif"| != |"else"|;
  }

  // ----- the fold -----

  /** Folds the clauses from the right. Rejected exactly when the head or a clause is
      malformed or an `else` is not last. */
  method BuildIf(node: Tree, textOf: TextOf, translate: Translate) returns (r: Option<Expr>)
    ensures r == IfExpr(node, textOf, translate)
    ensures r.Some? <==> Accepted(node, textOf, translate)
    ensures r.Some? ==>
              IsConditional(r.value, node, node.children[0], node.children[1..], textOf, translate)
  {
    hide ClauseOf, BranchOf, Accepted, IsConditional;
    AcceptedIff(node, textOf, translate);
    if node.children == [] {
      return None;
    }
    var head := BranchOf(node.children[0], translate);
    if head.None? {
      return None;
    }
    var clauses := node.children[1..];
    var else_: Option<Expr> := None;
    ghost var cs: seq<Clause> := [];
    assert clauses[|clauses|..] == [];
    for i := |clauses| downto 0
      invariant ClausesOf(clauses[i..], textOf, translate) == Some(cs) && |cs| == |clauses| - i
      invariant ElseIsLast(cs) && else_ == Nested(cs) && (else_.Some? <==> cs != [])
    {
      assert clauses[i..][0] == clauses[i] && clauses[i..][1..] == clauses[i + 1..];
      var clause := ClauseOf(clauses[i], textOf, translate);
      if clause.None? {
        BadClause(clauses, i, textOf, translate);
        return None;
      }
      if clause.value.Else? && else_.Some? {
        assert ([clause.value] + cs)[0].Else?;
        MisplacedElse(clauses, i, textOf, translate, [clause.value] + cs);
        return None;
      }
      assert ([clause.value] + cs)[1..] == cs;
      match clause.value {
        case Else(body) =>
          else_ := Some(body);
        case ElseIf(span, b) =>
          else_ := Some(Begin(span, [IfExp(span, b.cond, b.then_, else_)]));
      }
      cs := [clause.value] + cs;
    }
    assert clauses[0..] == clauses;
    r := Some(IfExp(SpanOf(node), head.value.cond, head.value.then_, else_));
  }

  lemma {:induction false} BadClause(ts: seq<Tree>, i: nat, textOf: TextOf, translate: Translate)
    requires i < |ts| && ClauseOf(ts[i], textOf, translate).None?
    ensures ClausesOf(ts, textOf, translate).None?
    decreases |ts|
  {
    hide ClauseOf;
    if i == 0 {
      assert ts[0..] == ts;
    } else {
      assert ts[1..][i - 1..] == ts[i..];
      BadClause(ts[1..], i - 1, textOf, translate);
    }
  }

  /** An `else` that is not last in the tail of the clauses is not last in all of them. */
  lemma {:induction false} MisplacedElse(ts: seq<Tree>, i: nat, textOf: TextOf, translate: Translate, tail: seq<Clause>)
    requires i <= |ts| && ClausesOf(ts[i..], textOf, translate) == Some(tail) && !ElseIsLast(tail)
    ensures ClausesOf(ts, textOf, translate).Some? ==> !ElseIsLast(ClausesOf(ts, textOf, translate).value)
    decreases |ts|
  {
    hide ClauseOf;
    if i == 0 {
      assert ts[0..] == ts;
    } else {
      assert ts[1..][i - 1..] == ts[i..];
      MisplacedElse(ts[1..], i - 1, textOf, translate, tail);
      if ClausesOf(ts, textOf, translate).Some? {
        var all, rest := ClausesOf(ts, textOf, translate).value, ClausesOf(ts[1..], textOf, translate).value;
        var k :| 0 <= k < |rest| - 1 && !rest[k].ElseIf?;
        assert all[k + 1] == rest[k];
      }
    }
  }

  // ----- what the conditional means -----

  /** Evaluation with effects: leaves act on a state. */
  datatype Outcome<S> = Outcome(isFalse: bool, value: nat, state: S)

  type Leaves<!S> = (nat, S) -> Outcome<S>

  /** What an empty sequence or a missing alternative yields. */
  function Nothing<S>(s: S): Outcome<S> {
    Outcome(true, 0, s)
  }

  function Eval<S>(e: Expr, leaves: Leaves<S>, s: S): Outcome<S>
    decreases e, 0
  {
    match e
    case Leaf(id) => leaves(id, s)
    case Begin(_, body) => EvalAll(body, leaves, s)
    case IfExp(_, cond, then_, else_) =>
      var c := Eval(cond, leaves, s);
      if !c.isFalse then Eval(then_, leaves, c.state)
      else match else_
        case None => Nothing(c.state)
        case Some(alternative) => Eval(alternative, leaves, c.state)
  }

  /** In order; the value is the last one's. */
  function EvalAll<S>(es: seq<Expr>, leaves: Leaves<S>, s: S): Outcome<S>
    decreases es, 1
  {
    if es == [] then Nothing(s)
    else if |es| == 1 then Eval(es[0], leaves, s)
    else EvalAll(es[1..], leaves, Eval(es[0], leaves, s).state)
  }

  /** Runs the translations of the forms in order, each once, each from the state the one
      before left; the value is the last one's. */
  function RunForms<S>(forms: seq<Tree>, translate: Translate, leaves: Leaves<S>, s: S): Outcome<S>
    requires AllTranslate(forms, translate)
  {
    if forms == [] then Nothing(s)
    else
      var first := Eval(translate(forms[0]).value, leaves, s);
      if |forms| == 1 then first else RunForms(forms[1..], translate, leaves, first.state)
  }

  /** Takes a body's first form as a condition. Unless it is false, the other forms run;
      otherwise it is the next clause's turn: the word `elseif` asks for the same again,
      `else` runs all its body's forms, and without a clause left nothing more happens. */
  function RunIf<S>(body: Tree, clauses: seq<Tree>, textOf: TextOf, translate: Translate, leaves: Leaves<S>, s: S):
      Outcome<S>
    requires IsBranch(body, translate)
    requires forall k :: 0 <= k < |clauses| ==>
               IsElseIf(clauses[k], textOf, translate) || IsElse(clauses[k], textOf, translate)
    decreases |clauses|
  {
    var c := Eval(translate(body.children[0]).value, leaves, s);
    if !c.isFalse then RunForms(body.children[1..], translate, leaves, c.state)
    else if clauses == [] then Nothing(c.state)
    else
      OneWord(clauses[0], textOf, translate);
      if textOf(clauses[0]) == Some("else") then
        RunForms(clauses[0].children[0].children, translate, leaves, c.state)
      else RunIf(clauses[0].children[0], clauses[1..], textOf, translate, leaves, c.state)
  }

  lemma {:induction false} FormsMean<S>(es: seq<Expr>, forms: seq<Tree>, translate: Translate, leaves: Leaves<S>,
                                        s: S)
    requires |es| == |forms| && forall k :: 0 <= k < |forms| ==> translate(forms[k]) == Some(es[k])
    ensures EvalAll(es, leaves, s) == RunForms(forms, translate, leaves, s)
    decreases |es|
  {
    if |es| > 1 {
      FormsMean(es[1..], forms[1..], translate, leaves, Eval(es[0], leaves, s).state);
    }
  }

  lemma {:induction false} ConditionalMeans<S>(e: Expr, at: Tree, body: Tree, clauses: seq<Tree>, textOf: TextOf,
                                               translate: Translate, leaves: Leaves<S>, s: S)
    requires IsConditional(e, at, body, clauses, textOf, translate) && IsBranch(body, translate)
    requires forall k :: 0 <= k < |clauses| ==>
               IsElseIf(clauses[k], textOf, translate) || IsElse(clauses[k], textOf, translate)
    ensures Eval(e, leaves, s) == RunIf(body, clauses, textOf, translate, leaves, s)
    decreases |clauses|
  {
    var c := Eval(e.cond, leaves, s);
    if !c.isFalse {
      FormsMean(e.then_.body, body.children[1..], translate, leaves, c.state);
    } else if clauses != [] {
      OneWord(clauses[0], textOf, translate);
      var alternative := e.else_.value;
      if textOf(clauses[0]) == Some("else") {
        FormsMean(alternative.body, clauses[0].children[0].children, translate, leaves, c.state);
      } else {
        var inner := alternative.body[0];
        assert alternative.body == [inner];
        assert EvalAll([inner], leaves, c.state) == Eval(inner, leaves, c.state);
        ConditionalMeans(inner, clauses[0], clauses[0].children[0], clauses[1..], textOf, translate, leaves, c.state);
      }
    }
  }

  /** What is built from an accepted node, evaluated with effects, does what the node says:
      it takes the conditions in turn, each once, and runs the forms that follow the first
      one not false. */
  lemma {:induction false} BuiltMeansNode<S>(node: Tree, textOf: TextOf, translate: Translate, leaves: Leaves<S>,
                                             s: S)
    requires Accepted(node, textOf, translate)
    ensures IfExpr(node, textOf, translate).Some?
    ensures Eval(IfExpr(node, textOf, translate).value, leaves, s) ==
            RunIf(node.children[0], node.children[1..], textOf, translate, leaves, s)
  {
    hide IfExpr, IsConditional, IsBranch, IsElse, IsElseIf;
    AcceptedIff(node, textOf, translate);
    forall k | 0 <= k < |node.children[1..]|
      ensures var t := node.children[1..][k]; IsElseIf(t, textOf, translate) || IsElse(t, textOf, translate)
    {
      assert AcceptedClauses(node.children[1..], textOf, translate);
    }
    ConditionalMeans(IfExpr(node, textOf, translate).value, node, node.children[0], node.children[1..], textOf,
                     translate, leaves, s);
  }
}
