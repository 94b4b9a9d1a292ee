/**
 The `Parser` object of src/assembler/parser.cpp: its fields, and the methods that update them in place.
 Each method leaves the object in the state that the functions of DataPass, PassOne, TextPass and
 Assembly say; what is promised of a parsed program is proved there.
 */
module Parser {
  import opened Words
  import opened Text
  import opened Instructions
  import opened Units
  import opened Layout
  import opened MainMemory
  import opened Tokens
  import opened ParserState
  import opened DataPass
  import opened Operands
  import opened OperandTheorems
  import opened TextPass
  import PassOne
  import Assembly

  class Parser {
    const tokens: seq<Token>
    const dataStart: Address
    const mExtension: bool
    var pos: nat
    var instructionIndex: nat
    var errors: seq<nat>
    var errorCount: nat
    var dataBuffer: seq<DataItem>
    var dataIndex: nat
    var symbols: map<string, SymbolData>
    var backPatch: seq<nat>
    var code: seq<(Unit, bool)>
    var lineOf: map<nat, nat>
    ghost var events: seq<Event>
    ghost var marks: map<string, nat>
    ghost var origins: seq<nat>
    ghost var labels: map<string, (nat, nat)>

    function Environment(): Env { Env(tokens, dataStart, mExtension) }

    ghost function Abstract(): State
      reads this
    {
      State(pos, instructionIndex, errors, errorCount, dataBuffer, dataIndex, symbols, backPatch, code, lineOf,
            events, marks, origins, labels)
    }

    constructor (tokens: seq<Token>, dataStart: Address, mExtension: bool)
      ensures Environment() == Env(tokens, dataStart, mExtension) && Abstract() == START
    {
      this.tokens, this.dataStart, this.mExtension := tokens, dataStart, mExtension;
      pos, instructionIndex, errors, errorCount, dataBuffer, dataIndex := 0, 0, [], 0, [], 0;
      symbols, backPatch, code, lineOf := map[], [], [], map[];
      events, marks, origins, labels := [], map[], [], map[];
    }

    function CurrentToken(): (t: Token)
      reads this
      ensures t == Current(Environment(), Abstract())
    {
      if pos < |tokens| then tokens[pos] else END
    }

    function PeekToken(n: nat): (t: Token)
      reads this
      ensures t == Peek(Environment(), Abstract(), n)
    {
      if pos + n < |tokens| then tokens[pos + n] else END
    }

    method NextToken()
      modifies this
      ensures Abstract() == Next(Environment(), old(Abstract()))
    {
      if pos < |tokens| { pos := pos + 1; }
    }

    method SkipCurrentLine()
      modifies this
      ensures Abstract() == SkipLine(Environment(), old(Abstract()))
    {
      ghost var s := Abstract();
      var line := CurrentToken().line;
      while CurrentToken().line == line && !CurrentToken().kind.Eof?
        invariant Abstract() == s.(pos := pos)
        invariant LineEnd(tokens, pos, line) == LineEnd(tokens, s.pos, line)
        decreases |tokens| - pos
      {
        NextToken();
      }
    }

    /** `errors_.count++` and `recordError`. */
    method ReportError(line: nat)
      modifies this
      ensures Abstract() == Fail(old(Abstract()), line)
    {
      errorCount := errorCount + 1;
      errors := errors + [line];
      errorCount := errorCount + 1;
    }

    method AlignTo(a: Alignment)
      modifies this
      ensures Abstract() == Align(old(Abstract()), a)
    {
      dataIndex := AlignUp(dataIndex, a) % TWO64;
      events := events + [Mark(a)];
    }

    method EmplaceItem(item: DataItem)
      modifies this
      ensures Abstract() == EmitItem(old(Abstract()), item)
    {
      dataIndex := AlignUp(dataIndex, AlignmentOf(item)) % TWO64;
      dataBuffer := dataBuffer + [item];
      dataIndex := (dataIndex + |ItemBytes(item)|) % TWO64;
      events := events + [Emit(item)];
    }

    method DefineDataLabel()
      modifies this
      ensures Abstract() == DefineData(Environment(), old(Abstract()))
    {
      var t := CurrentToken();
      var directive := DirectiveOf(PeekToken(1).value);
      if directive.Some? {
        AlignTo(DirectiveAlignment(directive.value));
      } else {
        ReportError(t.line);
        events := events + [Mark(1)];
      }
      symbols := symbols[t.value := SymbolData(dataIndex, t.line, true)];
      marks := marks[t.value := |events| - 1];
    }

    method ParseValue(d: DataDirective)
      requires Accepts(d, CurrentToken().kind)
      modifies this
      ensures Abstract() == EmitValue(old(Abstract()), d, old(CurrentToken()))
    {
      hide EmitItem;
      var t := CurrentToken();
      if d.Zero? && t.kind.n % TWO64 == 0 {
        ReportError(t.line);
        return;
      }
      ghost var s := Abstract();
      var item, copies := ItemOf(d, t.kind), Copies(d, t.kind);
      for i := 0 to copies
        invariant EmitCopies(Abstract(), item, copies - i) == EmitCopies(s, item, copies)
      {
        EmplaceItem(item);
      }
    }

    method ParseValues(d: DataDirective)
      modifies this
      ensures Abstract() == Values(Environment(), old(Abstract()), d)
    {
      hide EmitValue;
      ghost var s := Abstract();
      while Accepts(d, CurrentToken().kind) || CurrentToken().kind.Comma?
        invariant Values(Environment(), Abstract(), d) == Values(Environment(), s, d)
        decreases |tokens| - pos
      {
        if Accepts(d, CurrentToken().kind) {
          EmitValueKeepsPos(Abstract(), d, CurrentToken());
          ParseValue(d);
        }
        NextToken();
      }
    }

    method ParseDataDirective()
      modifies this
      ensures Abstract() == DataSection(Environment(), old(Abstract()))
    {
      hide DefineData, Values, DirectiveOf;
      ghost var s := Abstract();
      while !DataEnds(CurrentToken())
        invariant DataSection(Environment(), Abstract()) == DataSection(Environment(), s)
        decreases |tokens| - pos
      {
        ghost var before := Abstract();
        if CurrentToken().kind.Label? {
          DefineDataLabel();
          NextToken();
        } else {
          var directive := DirectiveOf(CurrentToken().value);
          if directive.Some? {
            NextToken();
            ParseValues(directive.value);
          } else {
            ReportError(CurrentToken().line);
            NextToken();
          }
        }
        assert Abstract() == DataStep(Environment(), before);
      }
    }

    method ParseBssDirective()
      modifies this
      ensures Abstract() == BssSection(Environment(), old(Abstract()))
    {
      ghost var s := Abstract();
      while !DataEnds(CurrentToken())
        invariant BssSection(Environment(), Abstract()) == BssSection(Environment(), s)
        decreases |tokens| - pos
      {
        NextToken();
      }
    }

    /** The loops that skip a section. */
    method SkipSection(skipped: Skipped)
      modifies this
      ensures Abstract() == old(Abstract()).(pos := SkipTo(tokens, old(pos), skipped))
    {
      ghost var s := Abstract();
      while !CurrentToken().kind.Eof? && !Ends(skipped, CurrentToken().value)
        invariant Abstract() == s.(pos := pos)
        invariant SkipTo(tokens, pos, skipped) == SkipTo(tokens, s.pos, skipped)
        decreases |tokens| - pos
      {
        NextToken();
      }
    }

    /** Appending a unit to the intermediate code. */
    method EmplaceUnit(u: Unit, resolved: bool)
      modifies this
      ensures Abstract() == Append(old(Abstract()), u, resolved)
    {
      if !resolved {
        backPatch := backPatch + [instructionIndex];
      }
      code := code + [(u, resolved)];
      lineOf := lineOf[instructionIndex := u.line];
      instructionIndex := instructionIndex + 1;
      origins := origins + [pos];
    }

    method EmplaceUnits(units: seq<(Unit, bool)>)
      modifies this
      ensures Abstract() == AppendAll(old(Abstract()), units)
    {
      hide Append;
      ghost var s := Abstract();
      for i := 0 to |units|
        invariant AppendAll(Abstract(), units[i..]) == AppendAll(s, units)
      {
        assert units[i..][1..] == units[i + 1..];
        EmplaceUnit(units[i].0, units[i].1);
      }
    }

    /** The operand parsers are tried in the order of the mnemonic's syntaxes. */
    method ParseOperands(op: Mnemonic) returns (parsed: Parsed)
      ensures parsed == ParseAny(Environment(), Abstract(), Syntaxes(op), op)
    {
      hide ParseSyntax, Syntaxes;
      var syntaxes := Syntaxes(op);
      parsed := NoMatch;
      for i := 0 to |syntaxes|
        invariant parsed == NoMatch
        invariant ParseAny(Environment(), Abstract(), syntaxes[i..], op) == ParseAny(Environment(), Abstract(), syntaxes, op)
      {
        assert syntaxes[i..][1..] == syntaxes[i + 1..];
        var fields := State(
          pos, instructionIndex, errors, errorCount, dataBuffer, dataIndex, symbols, backPatch, code, lineOf,
          [], map[], [], map[]);
        RecordsDoNotMatter(Environment(), Abstract(), fields, syntaxes[i], op);
        parsed := ParseSyntax(Environment(), fields, syntaxes[i], op);
        if !parsed.NoMatch? { return; }
      }
    }

    method ParseInstruction(op: Mnemonic)
      requires CurrentToken().kind == Opcode(op)
      modifies this
      ensures Abstract() == Instruction(Environment(), old(Abstract()), op)
    {
      hide ParseAny, AppendAll, Fail, SkipLine, IsMExtension;
      var line := CurrentToken().line;
      if IsMExtension(op) && !mExtension {
        ReportError(line);
        SkipCurrentLine();
        return;
      }
      var parsed := ParseOperands(op);
      if parsed.Parsed? {
        ghost var s := Abstract();
        EmplaceUnits(parsed.units);
        AppendAllKeepsPos(s, parsed.units);
      } else {
        ReportError(line);
      }
      SkipCurrentLine();
    }

    method DefineTextLabel()
      modifies this
      ensures Abstract() == DefineText(Environment(), old(Abstract()))
    {
      var t := CurrentToken();
      if t.value in symbols {
        ReportError(t.line);
      } else {
        symbols := symbols[t.value := SymbolData(4 * instructionIndex % TWO32, t.line, false)];
        labels := labels[t.value := (pos, instructionIndex)];
      }
    }

    method ParseTextDirective()
      modifies this
      ensures Abstract() == TextSection(Environment(), old(Abstract()))
    {
      hide Instruction, DefineText, Fail, SkipLine;
      ghost var s := Abstract();
      while !TextEnds(CurrentToken())
        invariant TextSection(Environment(), Abstract()) == TextSection(Environment(), s)
        decreases |tokens| - pos
      {
        ghost var before := Abstract();
        var t := CurrentToken();
        if t.kind.Label? {
          DefineTextLabel();
          NextToken();
        } else if t.kind.Opcode? {
          ParseInstruction(t.kind.op);
        } else {
          ReportError(t.line);
          SkipCurrentLine();
        }
        assert Abstract() == TextStep(Environment(), before);
      }
    }

    method FirstPass()
      requires PassOne.NothingStuck(tokens)
      modifies this
      ensures Abstract() == PassOne.Run(Environment(), old(Abstract()))
    {
      hide DataSection, BssSection, SkipTo, Fail;
      ghost var s := Abstract();
      while !CurrentToken().kind.Eof?
        invariant PassOne.Run(Environment(), Abstract()) == PassOne.Run(Environment(), s)
        decreases |tokens| - pos
      {
        ghost var before := Abstract();
        var t := CurrentToken();
        assert t in tokens;
        if IsDirective(t, "section") {
          NextToken();
        } else if IsDirective(t, "data") {
          NextToken();
          ParseDataDirective();
        } else if IsDirective(t, "bss") {
          NextToken();
          ParseBssDirective();
        } else if IsDirective(t, "text") || t.kind.Label? || t.kind.Opcode? {
          SkipSection(SkippedText);
        } else {
          ReportError(t.line);
          NextToken();
        }
        assert Abstract() == PassOne.PassOneStep(Environment(), before);
      }
    }

    method SecondPass()
      modifies this
      ensures Abstract() == PassTwo(Environment(), old(Abstract()))
    {
      hide TextSection, SkipTo, Fail;
      ghost var s := Abstract();
      while !CurrentToken().kind.Eof?
        invariant PassTwo(Environment(), Abstract()) == PassTwo(Environment(), s)
        decreases |tokens| - pos
      {
        ghost var before := Abstract();
        var t := CurrentToken();
        if IsDirective(t, "section") {
          NextToken();
        } else if IsDirective(t, "data") || IsDirective(t, "bss") {
          SkipSection(SkippedData);
        } else if IsDirective(t, "text") {
          NextToken();
          ParseTextDirective();
        } else if t.kind.Label? || t.kind.Opcode? {
          ParseTextDirective();
        } else {
          ReportError(t.line);
          NextToken();
        }
        assert Abstract() == PassTwoStep(Environment(), before);
      }
    }

    method PatchUnit(index: nat)
      requires index < |code|
      modifies this
      ensures Abstract() == PatchOne(old(Abstract()), index)
    {
      hide Offset, WithImm, InReach;
      var block := code[index].0;
      if block.target !in symbols {
        ReportError(block.line);
        return;
      }
      if block.op.InB? {
        if symbols[block.target].isData {
          ReportError(block.line);
        } else {
          var offset := Offset(symbols[block.target].address, index);
          if InReach(block, offset) {
            block := WithImm(block, offset);
          } else {
            ReportError(block.line);
            return;
          }
        }
      } else if block.op.InJ? {
        var offset := Offset(symbols[block.target].address, index);
        if InReach(block, offset) {
          block := WithImm(block, offset);
        } else {
          ReportError(block.line);
          return;
        }
      } else {
        ReportError(block.line);
        return;
      }
      code := code[index := (block, true)];
    }

    /** `parse`: both passes, then the open units. */
    method Parse()
      requires PassOne.NothingStuck(tokens) && Abstract() == START
      modifies this
      ensures Abstract() == Assembly.Parse(Environment())
    {
      hide PatchOne, PassTwo, PassOne.Run;
      FirstPass();
      pos := 0;
      instructionIndex := 0;
      SecondPass();
      ghost var s := Abstract();
      Assembly.PassesKept(Environment());
      assert s == Assembly.AfterPassTwo(Environment());
      var open := backPatch;
      for i := 0 to |open|
        invariant |code| == |s.code| && InRange(Abstract(), open[i..])
        invariant PatchAll(Abstract(), open[i..]) == PatchAll(s, open)
      {
        assert open[i..][0] == open[i] && open[i..][1..] == open[i + 1..];
        PatchUnit(open[i]);
      }
    }
  }

  /** What the operand parsers make of a line does not depend on the records. */
  lemma RecordsDoNotMatter(env: Env, s: State, r: State, syntax: SyntaxType, op: Mnemonic)
    requires r.pos == s.pos && r.symbols == s.symbols && r.instructionIndex == s.instructionIndex
    ensures ParseSyntax(env, s, syntax, op) == ParseSyntax(env, r, syntax, op)
  {
    hide Build, Shape, FitsLine;
    SameBuild(env, s, r, syntax, op);
    match Shape(syntax, op)
    case None =>
    case Some(tags) => SameFit(env, s, r, tags);
  }

  lemma SameBuild(env: Env, s: State, r: State, syntax: SyntaxType, op: Mnemonic)
    requires r.pos == s.pos && r.symbols == s.symbols && r.instructionIndex == s.instructionIndex
    ensures Build(env, s, syntax, op) == Build(env, r, syntax, op)
  {
    hide Clip, ToText, RegisterName, Hi20, Lo12, Offset, LoadImmediate;
  }

  lemma {:induction false} AppendAllKeepsPos(s: State, units: seq<(Unit, bool)>)
    ensures AppendAll(s, units).pos == s.pos
    decreases |units|
  {
    if units != [] { AppendAllKeepsPos(Append(s, units[0].0, units[0].1), units[1..]); }
  }
}
