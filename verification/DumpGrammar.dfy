/** Which functions the parser takes: every line spells what may stand in its place, and no
    label is declared twice. */
module DumpGrammar {
  import opened Ir
  import opened Text
  import opened DumpParse
  import opened DumpRoundTrip
  import opened DumpSpelling

  // ----- the lines of a function -----

  predicate IsHeaderLine(line: string, resolve: Resolver) {
    LabelOf(line, resolve).Some?
  }

  predicate IsStatementLine(line: string) {
    Classify(line).Ok? && Classify(line).value.Statement?
  }

  /** The text spells a computation. */
  ghost predicate ComputationFits(text: string, resolve: Resolver) {
    StartsWithTemp(text) && exists d, c :: SpellsComputation(text, d, c, resolve)
  }

  /** The text spells an exit to labels there are. */
  ghost predicate ExitFits(text: string, labels: seq<string>) {
    !StartsWithTemp(text) && exists t :: SpellsExit(text, labels, t)
  }

  lemma {:induction false} ComputationFitsIff(text: string, resolve: Resolver)
    ensures ComputationFits(text, resolve) <==> StartsWithTemp(text) && ParseComputation(text, resolve).Ok?
  {
    hide SpellsComputation, ParseComputation, StartsWithTemp;
    if ParseComputation(text, resolve).Ok? {
      var r := ParseComputation(text, resolve).value;
      ComputationReadIff(text, r.0, r.1, resolve);
    }
    if d, c :| SpellsComputation(text, d, c, resolve) {
      ComputationReadIff(text, d, c, resolve);
    }
  }

  lemma {:induction false} ExitFitsIff(text: string, labels: seq<string>)
    ensures ExitFits(text, labels) <==> !StartsWithTemp(text) && ParseTerminator(text, labels).Ok?
  {
    hide SpellsExit, ParseTerminator, StartsWithTemp;
    if ParseTerminator(text, labels).Ok? {
      ExitReadIff(text, labels, ParseTerminator(text, labels).value);
    }
    if t :| SpellsExit(text, labels, t) {
      ExitReadIff(text, labels, t);
    }
  }

  /** The line is where it may stand: a block header with a statement after it, or a
      statement after the first line, an exit if no statement follows and a computation if
      one does. */
  ghost predicate LineFits(body: seq<string>, k: nat, labels: seq<string>, resolve: Resolver)
    requires k < |body|
  {
    var isLast := k + 1 == |body| || !IsStatementLine(body[k + 1]);
    if IsStatementLine(body[k]) then
      var text := Classify(body[k]).value.text;
      k > 0 && if isLast then ExitFits(text, labels) else ComputationFits(text, resolve)
    else IsHeaderLine(body[k], resolve) && !isLast
  }

  /** The labels declared, in order. */
  function LabelsIn(body: seq<string>, resolve: Resolver): seq<string> {
    if body == [] then []
    else
      var n := |body| - 1;
      LabelsIn(body[..n], resolve) + match LabelOf(body[n], resolve) case Some(name) => [name] case None => []
  }

  // ----- the first pass -----

  lemma {:induction false} ScanSnoc(start: Scan, body: seq<string>, n: nat, resolve: Resolver)
    requires n < |body|
    ensures ScanLines(start, body[..n + 1], resolve) ==
            match ScanLines(start, body[..n], resolve)
            case Malformed => Malformed
            case Ok(scan) => AddLine(scan, body[n], resolve)
  {
    hide AddLine, ScanLines;
    assert body[..n + 1] == body[..n] + [body[n]];
    ScanConcat(start, body[..n], [body[n]], resolve);
    if ScanLines(start, body[..n], resolve).Ok? {
      var scan := ScanLines(start, body[..n], resolve).value;
      assert [body[n]] + [] == [body[n]];
      ScanStep(scan, body[n], [], resolve);
      if AddLine(scan, body[n], resolve).Ok? {
        ScanNothing(AddLine(scan, body[n], resolve).value, resolve);
      }
    }
  }

  lemma {:induction false} AddLineIs(scan: Scan, line: string, resolve: Resolver)
    ensures AddLine(scan, line, resolve).Ok? <==>
            IsHeaderLine(line, resolve) || (IsStatementLine(line) && scan.blocks != [])
    ensures !(IsHeaderLine(line, resolve) && IsStatementLine(line))
    ensures IsHeaderLine(line, resolve) ==>
              exists raw: RawBlock :: raw.statements == [] && raw.name == LabelOf(line, resolve).value
                  && AddLine(scan, line, resolve).value.blocks == scan.blocks + [raw]
    ensures IsStatementLine(line) && scan.blocks != [] ==>
              AddLine(scan, line, resolve) == Ok(WithStatements(scan, [Classify(line).value.text]))
  {
    hide Classify, ParseBlockHeader;
    if IsHeaderLine(line, resolve) {
      var header := ParseBlockHeader(Classify(line).value.text, resolve).value;
      var raw := RawBlock(header.0, Ids(header.1), []);
      assert AddLine(scan, line, resolve).value.blocks == scan.blocks + [raw];
    }
  }

  /** The last block so far has a statement exactly when the last line is one. */
  ghost predicate LastIs(scan: Scan, line: string) {
    && scan.blocks != []
    && var statements := scan.blocks[|scan.blocks| - 1].statements;
       && (statements != [] <==> IsStatementLine(line))
       && (statements != [] ==> statements[|statements| - 1] == Classify(line).value.text)
  }

  lemma AddLineLast(scan: Scan, line: string, resolve: Resolver)
    requires AddLine(scan, line, resolve).Ok?
    ensures LastIs(AddLine(scan, line, resolve).value, line)
  {
    hide AddLine, Classify, LabelOf;
    AddLineIs(scan, line, resolve);
  }

  lemma {:induction false} ScanIs(start: Scan, body: seq<string>, n: nat, resolve: Resolver)
    requires start.blocks == [] && n <= |body|
    ensures ScanLines(start, body[..n], resolve).Ok? <==>
            forall k :: 0 <= k < n ==> IsHeaderLine(body[k], resolve) || (IsStatementLine(body[k]) && k > 0)
    ensures ScanLines(start, body[..n], resolve).Ok? ==>
              var scan := ScanLines(start, body[..n], resolve).value;
              && Labels(scan.blocks) == LabelsIn(body[..n], resolve)
              && if n == 0 then scan.blocks == [] else LastIs(scan, body[n - 1])
  {
    hide AddLine, LabelOf, IsStatementLine, LastIs, ScanLines;
    if n == 0 {
      assert body[..0] == [];
      ScanNothing(start, resolve);
    } else {
      ScanIs(start, body, n - 1, resolve);
      ScanSnoc(start, body, n - 1, resolve);
      assert body[..n][..n - 1] == body[..n - 1];
      if ScanLines(start, body[..n - 1], resolve).Ok? {
        var scan := ScanLines(start, body[..n - 1], resolve).value;
        AddLineIs(scan, body[n - 1], resolve);
        LastHasBlocks(scan, body, n - 1);
        if AddLine(scan, body[n - 1], resolve).Ok? {
          LabelAdded(scan, body[n - 1], resolve);
          AddLineLast(scan, body[n - 1], resolve);
        }
      }
    }
  }

  lemma LastHasBlocks(scan: Scan, body: seq<string>, n: nat)
    requires n <= |body| && if n == 0 then scan.blocks == [] else LastIs(scan, body[n - 1])
    ensures scan.blocks != [] <==> n > 0
  {
  }

  // ----- the second pass -----

  /** What the second pass asks of a block. */
  ghost predicate RawFits(raw: RawBlock, labels: seq<string>, resolve: Resolver) {
    && |raw.statements| >= 1
    && (forall m :: 0 <= m < |raw.statements| - 1 ==> ComputationFits(raw.statements[m], resolve))
    && ExitFits(raw.statements[|raw.statements| - 1], labels)
  }

  lemma {:induction false} StatementsReadIff(statements: seq<string>, resolve: Resolver)
    ensures ParseStatements(statements, resolve).Ok? <==>
            forall m :: 0 <= m < |statements| ==> ComputationFits(statements[m], resolve)
    decreases |statements|
  {
    hide ParseComputation, StartsWithTemp, ComputationFits;
    if statements != [] {
      ComputationFitsIff(statements[0], resolve);
      StatementsReadIff(statements[1..], resolve);
      assert forall m :: 0 < m < |statements| ==> statements[m] == statements[1..][m - 1];
      if ParseStatements(statements[1..], resolve).Malformed? {
        var m :| 0 <= m < |statements[1..]| && !ComputationFits(statements[1..][m], resolve);
        assert statements[m + 1] == statements[1..][m];
      }
    }
  }

  lemma {:induction false} BlockReadIff(raw: RawBlock, i: nat, labels: seq<string>, resolve: Resolver)
    ensures ParseBlock(raw, i, labels, resolve).Ok? <==> RawFits(raw, labels, resolve)
  {
    hide ParseStatements, StartsWithTemp, ParseTerminator, ComputationFits, ExitFits;
    if raw.statements != [] {
      ExitFitsIff(raw.statements[|raw.statements| - 1], labels);
      StatementsReadIff(raw.statements[..|raw.statements| - 1], resolve);
    }
  }

  lemma {:induction false} BlocksReadIff(raws: seq<RawBlock>, i: nat, labels: seq<string>, resolve: Resolver)
    requires i <= |raws|
    ensures ParseBlocks(raws, i, labels, resolve).Ok? <==>
            forall j :: i <= j < |raws| ==> RawFits(raws[j], labels, resolve)
    decreases |raws| - i
  {
    hide ParseBlock, RawFits;
    if i < |raws| {
      BlockReadIff(raws[i], i, labels, resolve);
      BlocksReadIff(raws, i + 1, labels, resolve);
    }
  }

  /** What is settled before the next line is seen: all blocks but the last, and all
      statements of the last but its last. */
  ghost predicate Settled(blocks: seq<RawBlock>, labels: seq<string>, resolve: Resolver) {
    && (forall j :: 0 <= j < |blocks| - 1 ==> RawFits(blocks[j], labels, resolve))
    && (blocks != [] ==>
          var last := blocks[|blocks| - 1].statements;
          forall m :: 0 <= m < |last| - 1 ==> ComputationFits(last[m], resolve))
  }

  /** A header settles the block before it. */
  lemma HeaderSettles(blocks: seq<RawBlock>, raw: RawBlock, labels: seq<string>, resolve: Resolver)
    requires raw.statements == []
    ensures Settled(blocks + [raw], labels, resolve) <==>
            forall j :: 0 <= j < |blocks| ==> RawFits(blocks[j], labels, resolve)
  {
    hide RawFits, ComputationFits;
    forall j | 0 <= j < |blocks|
      ensures (blocks + [raw])[j] == blocks[j]
    {
    }
  }

  /** All blocks fit when what is settled does and the last block ends in an exit. */
  lemma AllFitIff(blocks: seq<RawBlock>, labels: seq<string>, resolve: Resolver)
    requires blocks != []
    ensures (forall j :: 0 <= j < |blocks| ==> RawFits(blocks[j], labels, resolve)) <==>
            && Settled(blocks, labels, resolve)
            && var last := blocks[|blocks| - 1].statements; last != [] && ExitFits(last[|last| - 1], labels)
  {
    hide ComputationFits, ExitFits;
    var n := |blocks| - 1;
    if Settled(blocks, labels, resolve) && blocks[n].statements != []
        && ExitFits(blocks[n].statements[|blocks[n].statements| - 1], labels) {
      assert RawFits(blocks[n], labels, resolve);
    }
    if forall j :: 0 <= j < |blocks| ==> RawFits(blocks[j], labels, resolve) {
      assert RawFits(blocks[n], labels, resolve);
    }
  }

  /** A statement settles the one before it. */
  lemma StatementSettles(scan: Scan, text: string, labels: seq<string>, resolve: Resolver)
    requires scan.blocks != []
    ensures var last := scan.blocks[|scan.blocks| - 1].statements;
            Settled(WithStatements(scan, [text]).blocks, labels, resolve) <==>
            && Settled(scan.blocks, labels, resolve)
            && (last != [] ==> ComputationFits(last[|last| - 1], resolve))
  {
    hide RawFits, ComputationFits;
    var n := |scan.blocks| - 1;
    var last, next := scan.blocks[n].statements, WithStatements(scan, [text]).blocks;
    assert next[n].statements == last + [text] && |next| == n + 1;
    assert forall j :: 0 <= j < n ==> next[j] == scan.blocks[j];
    forall m | 0 <= m < |last|
      ensures next[n].statements[m] == last[m]
    {
    }
    if Settled(next, labels, resolve) {
      forall m | 0 <= m < |last|
        ensures ComputationFits(last[m], resolve)
      {
        assert ComputationFits(next[n].statements[m], resolve);
      }
    }
  }

  /** Line by line, what is settled. */
  lemma {:induction false} SettledIff(start: Scan, body: seq<string>, n: nat, labels: seq<string>, resolve: Resolver)
    requires start.blocks == [] && 0 < n <= |body| && ScanLines(start, body[..n], resolve).Ok?
    ensures Settled(ScanLines(start, body[..n], resolve).value.blocks, labels, resolve) <==>
            forall k :: 0 <= k < n - 1 ==> LineFits(body, k, labels, resolve)
  {
    hide AddLine, LabelOf, ScanLines, Settled, LineFits, RawFits, ExitFits, ComputationFits, IsStatementLine,
      IsHeaderLine, WithStatements;
    ScanIs(start, body, n, resolve);
    ScanSnoc(start, body, n - 1, resolve);
    ScanIs(start, body, n - 1, resolve);
    var scan := ScanLines(start, body[..n - 1], resolve).value;
    if n == 1 {
      FirstSettles(scan, body[0], labels, resolve);
    } else {
      SettledIff(start, body, n - 1, labels, resolve);
      NextSettles(scan, body, n - 1, labels, resolve);
    }
  }

  lemma FirstSettles(scan: Scan, line: string, labels: seq<string>, resolve: Resolver)
    requires scan.blocks == [] && AddLine(scan, line, resolve).Ok?
    ensures Settled(AddLine(scan, line, resolve).value.blocks, labels, resolve)
  {
    hide AddLine, RawFits, ComputationFits;
    AddLineIs(scan, line, resolve);
  }

  /** A line settles the line before it, to a fit or a misfit. */
  lemma {:induction false} NextSettles(scan: Scan, body: seq<string>, n: nat, labels: seq<string>, resolve: Resolver)
    requires 0 < n < |body| && LastIs(scan, body[n - 1]) && AddLine(scan, body[n], resolve).Ok?
    requires IsHeaderLine(body[n - 1], resolve) || (IsStatementLine(body[n - 1]) && n - 1 > 0)
    ensures Settled(AddLine(scan, body[n], resolve).value.blocks, labels, resolve) <==>
            Settled(scan.blocks, labels, resolve) && LineFits(body, n - 1, labels, resolve)
  {
    hide AddLine, RawFits, ComputationFits, ExitFits, Classify, LabelOf, WithStatements, Settled;
    AddLineIs(scan, body[n], resolve);
    AddLineIs(scan, body[n - 1], resolve);
    if IsHeaderLine(body[n], resolve) {
      var raw: RawBlock :| raw.statements == [] && AddLine(scan, body[n], resolve).value.blocks == scan.blocks + [raw];
      HeaderSettles(scan.blocks, raw, labels, resolve);
      AllFitIff(scan.blocks, labels, resolve);
    } else {
      StatementSettles(scan, Classify(body[n]).value.text, labels, resolve);
    }
  }

  /** Once the first pass has gone through, the second does exactly when every line fits. */
  lemma {:induction false} BodyReadIff(start: Scan, body: seq<string>, labels: seq<string>, resolve: Resolver)
    requires start.blocks == [] && body != [] && ScanLines(start, body, resolve).Ok?
    ensures ParseBlocks(ScanLines(start, body, resolve).value.blocks, 0, labels, resolve).Ok? <==>
            forall k :: 0 <= k < |body| ==> LineFits(body, k, labels, resolve)
  {
    hide AddLine, LabelOf, ScanLines, LineFits, RawFits, ParseBlocks, LabelsIn, Labels, LastIs, Settled, ExitFits,
      IsHeaderLine, IsStatementLine;
    var n := |body|;
    assert body[..n] == body;
    ScanIs(start, body, n, resolve);
    var scan := ScanLines(start, body, resolve).value;
    BlocksReadIff(scan.blocks, 0, labels, resolve);
    SettledIff(start, body, n, labels, resolve);
    LastHasBlocks(scan, body, n);
    AllFitIff(scan.blocks, labels, resolve);
    LastLineFits(scan, body, labels, resolve);
    assert (forall k :: 0 <= k < n ==> LineFits(body, k, labels, resolve)) <==>
           (forall k :: 0 <= k < n - 1 ==>
               LineFits(body, k, labels, resolve)) && LineFits(body, n - 1, labels, resolve);
  }

  /** The text spells a function's header. */
  ghost predicate HeaderFits(text: string, resolve: Resolver) {
    exists h :: SpellsHeader(text, h, resolve)
  }

  lemma {:induction false} HeaderFitsIff(text: string, resolve: Resolver)
    ensures HeaderFits(text, resolve) <==> ParseHeader(text, resolve).Ok?
  {
    hide SpellsHeader, ParseHeader;
    if ParseHeader(text, resolve).Ok? {
      HeaderReadIff(text, ParseHeader(text, resolve).value, resolve);
    }
    if h :| SpellsHeader(text, h, resolve) {
      HeaderReadIff(text, h, resolve);
    }
  }

  /** What a block header line is: two spaces and no more than three, and a text that spells a
      label and parameters. */
  lemma {:induction false} HeaderLineIff(line: string, name: string, resolve: Resolver)
    ensures LabelOf(line, resolve) == Some(name) <==>
            !("    " <= line)
            && exists text, params :: line == "  " + text && SpellsBlockHeader(text, name, params, resolve)
  {
    hide SpellsBlockHeader, ParseBlockHeader;
    if LabelOf(line, resolve) == Some(name) {
      var text := StripPrefix(line, "  ").value;
      PrefixIff(line, "  ", text);
      BlockHeaderReadIff(text, name, ParseBlockHeader(text, resolve).value.1, resolve);
    }
    if text, params :| line == "  " + text && SpellsBlockHeader(text, name, params, resolve) {
      PrefixIff(line, "  ", text);
      BlockHeaderReadIff(text, name, params, resolve);
    }
  }

  /** A function's lines are read exactly when the first is a function header, every other
      spells what may stand in its place, and no two blocks have one label. The two passes
      ask no more and no less, whichever order blocks name each other in. */
  lemma {:induction false} FunctionReadIff(lines: seq<string>, id: U32, resolve: Resolver)
    ensures ParseFunctionLines(lines, id, resolve).Ok? <==>
            && |lines| > 1 && HeaderFits(lines[0], resolve)
            && var labels := LabelsIn(lines[1..], resolve);
               && NoDuplicates(labels)
               && forall k :: 0 <= k < |lines| - 1 ==> LineFits(lines[1..], k, labels, resolve)
  {
    hide AddLine, LabelOf, ScanLines, LineFits, RawFits, ParseHeader, ParseBlocks, NoDuplicates, LabelsIn, TempTable,
      Labels, LastIs, IsHeaderLine, IsStatementLine, HeaderFits;
    if |lines| > 0 {
      HeaderFitsIff(lines[0], resolve);
    }
    if |lines| > 0 && ParseHeader(lines[0], resolve).Ok? {
      var header, body := ParseHeader(lines[0], resolve).value, lines[1..];
      var start, n := Scan([], header.params), |lines| - 1;
      assert body[..n] == body;
      ScanIs(start, body, n, resolve);
      if ScanLines(start, body, resolve).Ok? {
        if n > 0 {
          BodyReadIff(start, body, LabelsIn(body, resolve), resolve);
          LastHasBlocks(ScanLines(start, body, resolve).value, body, n);
        }
      } else {
        var k :| 0 <= k < n && !(IsHeaderLine(body[k], resolve) || (IsStatementLine(body[k]) && k > 0));
        Misplaced(body, k, LabelsIn(body, resolve), resolve);
      }
    }
  }

  lemma LastLineFits(scan: Scan, body: seq<string>, labels: seq<string>, resolve: Resolver)
    requires body != [] && LastIs(scan, body[|body| - 1])
    requires IsHeaderLine(body[|body| - 1], resolve) || (IsStatementLine(body[|body| - 1]) && |body| > 1)
    ensures LineFits(body, |body| - 1, labels, resolve) <==>
            var last := scan.blocks[|scan.blocks| - 1].statements; last != [] && ExitFits(last[|last| - 1], labels)
  {
    hide ExitFits, ComputationFits, Classify, ParseBlockHeader;
  }

  lemma Misplaced(body: seq<string>, k: nat, labels: seq<string>, resolve: Resolver)
    requires k < |body| && !(IsHeaderLine(body[k], resolve) || (IsStatementLine(body[k]) && k > 0))
    ensures !LineFits(body, k, labels, resolve)
  {
    hide ExitFits, ComputationFits, Classify, LabelOf;
  }

  // ----- labels and strings -----

  /** A label is known exactly when some block has it, and then it is the first such block. */
  lemma {:induction false} LabelKnownIff(labels: seq<string>, name: string)
    ensures ResolveLabel(labels, name).Ok? <==> name in labels
    ensures forall i :: 0 <= i < |labels| && labels[i] == name && (forall k :: 0 <= k < i ==> labels[k] != name) ==>
              ResolveLabel(labels, name) == Ok(BlockIdOf(i))
  {
    FirstLabel(labels, name);
  }

  lemma {:induction false} FirstLabel(labels: seq<string>, name: string)
    ensures LabelIndex(labels, name).Ok? <==> name in labels
    ensures forall i :: 0 <= i < |labels| && labels[i] == name && (forall k :: 0 <= k < i ==> labels[k] != name) ==>
              LabelIndex(labels, name) == Ok(i)
  {
    if labels != [] && labels[0] != name {
      FirstLabel(labels[1..], name);
      forall i | 0 <= i < |labels| && labels[i] == name && (forall k :: 0 <= k < i ==> labels[k] != name)
        ensures LabelIndex(labels, name) == Ok(i)
      {
        assert labels[1..][i - 1] == name;
        assert forall k :: 0 <= k < i - 1 ==> labels[1..][k] == labels[k + 1];
      }
    }
  }

  /** Nothing comes after a quoted string. */
  lemma {:induction false} QuotedTail(text: string, printable: char -> bool, rest: string)
    ensures ParseQuoted(Quoted(text, printable) + rest) == if rest == "" then Ok(text) else Malformed
  {
    hide Quoted, LeadingQuoted;
    QuotedParses(text, printable, rest);
  }
}
