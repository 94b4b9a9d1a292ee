/**
 The map from source lines to instructions that `assemble` (src/assembler/assembler.cpp) builds for the
 debugger out of the parser's map from instructions to source lines.
 */
module LineMap {
  import opened Words
  import opened Text
  import Vm

  /** Where the next instruction's lines begin: `prev_line`. */
  function NextLine(lines: seq<nat>): nat {
    if lines == [] then 1 else lines[|lines| - 1] + 1
  }

  /** Every line from `lo` to `hi`, for the given instruction. */
  function Range(lo: nat, hi: int, instruction: nat): (r: map<nat, nat>)
    ensures forall line: nat :: line in r <==> lo <= line <= hi
    ensures forall line <- r :: r[line] == instruction
    decreases hi - lo
  {
    if hi < lo then map[] else Range(lo, hi - 1, instruction)[hi := instruction]
  }

  /** The map for the source lines of instructions 0, 1, ... */
  function MapOf(lines: seq<nat>): map<nat, nat> {
    if lines == [] then map[]
    else
      var before := lines[..|lines| - 1];
      MapOf(before) + Range(NextLine(before), lines[|lines| - 1], |lines| - 1)
  }

  /** The parser's map from instructions to lines has the keys 0 .. n - 1 and is visited in their order. */
  method Build(lines: seq<nat>) returns (lineToInstruction: map<nat, nat>)
    ensures lineToInstruction == MapOf(lines)
  {
    hide MapOf, Range;
    lineToInstruction := map[];
    NothingMapped();
    if |lines| == 0 { return; }
    var prevInstruction, prevLine := 0, 1;
    for k := 0 to |lines|
      invariant prevInstruction == k && prevLine == NextLine(lines[..k])
      invariant lineToInstruction == MapOf(lines[..k])
    {
      var line := lines[k];
      ghost var before := lineToInstruction;
      var i := prevLine;
      RangeStarts(before, prevLine, prevInstruction);
      while i <= line
        invariant prevLine <= i && (i <= line + 1 || i == prevLine)
        invariant lineToInstruction == before + Range(prevLine, i - 1, prevInstruction)
      {
        RangeGrows(before, prevLine, i, prevInstruction);
        lineToInstruction := lineToInstruction[i := prevInstruction];
        i := i + 1;
      }
      RangeEnds(prevLine, i - 1, line, prevInstruction);
      MapGrows(lines, k);
      prevInstruction, prevLine := prevInstruction + 1, line + 1;
    }
    assert lines[..|lines|] == lines;
  }

  lemma NothingMapped()
    ensures MapOf([]) == map[]
  {
  }

  lemma MapGrows(lines: seq<nat>, k: nat)
    requires k < |lines|
    ensures MapOf(lines[..k + 1]) == MapOf(lines[..k]) + Range(NextLine(lines[..k]), lines[k], k)
  {
    assert lines[..k + 1][..k] == lines[..k];
  }

  lemma RangeStarts(before: map<nat, nat>, lo: nat, instruction: nat)
    ensures before + Range(lo, lo - 1, instruction) == before
  {
  }

  lemma RangeGrows(before: map<nat, nat>, lo: nat, i: nat, instruction: nat)
    requires lo <= i
    ensures before + Range(lo, i, instruction) == (before + Range(lo, i - 1, instruction))[i := instruction]
  {
  }

  lemma RangeEnds(lo: nat, i: int, hi: int, instruction: nat)
    requires i == hi || (i < lo && hi < lo)
    ensures Range(lo, i, instruction) == Range(lo, hi, instruction)
  {
  }

  /** The domain of the map is exactly the lines, from 1 on, that some instruction is at or after. */
  lemma {:induction false} Domain(lines: seq<nat>, line: nat)
    ensures line in MapOf(lines) <==> line >= 1 && exists at <- lines :: line <= at
  {
    if lines == [] {
    } else {
      var n := |lines| - 1;
      var before := lines[..n];
      Domain(before, line);
      assert lines[n] in lines;
      assert forall at :: at in lines <==> at in before || at == lines[n];
      if line < NextLine(before) && before != [] { assert before[n - 1] in before; }
    }
  }

  lemma {:induction false} MapBelow(lines: seq<nat>)
    ensures forall line <- MapOf(lines) :: MapOf(lines)[line] < |lines|
  {
    if lines == [] {
    } else {
      MapBelow(lines[..|lines| - 1]);
    }
  }

  predicate Nondecreasing(lines: seq<nat>) {
    forall i, j :: 0 <= i <= j < |lines| ==> lines[i] <= lines[j]
  }

  /** The two maps are adjoint: a line maps to `k` or before exactly when it is not past `k`'s line. */
  ghost predicate Galois(lines: seq<nat>) {
    forall line: nat, k: nat :: line in MapOf(lines) && k < |lines| ==>
      (MapOf(lines)[line] <= k <==> line <= lines[k])
  }

  lemma {:induction false} NondecreasingGalois(lines: seq<nat>)
    requires Nondecreasing(lines)
    ensures Galois(lines)
  {
    if lines == [] {
    } else {
      var n := |lines| - 1;
      var before := lines[..n];
      NondecreasingGalois(before);
      MapBelow(before);
      forall line: nat, k: nat | line in MapOf(lines) && k <= n
        ensures MapOf(lines)[line] <= k <==> line <= lines[k]
      {
        if line in Range(NextLine(before), lines[n], n) {
          assert k < n ==> lines[k] <= lines[n - 1];
        } else {
          assert line in MapOf(before) && MapOf(lines)[line] == MapOf(before)[line];
          if k < n { assert before[k] == lines[k]; } else { NotPastTheEnd(lines, line); }
        }
      }
    }
  }

  lemma NotPastTheEnd(lines: seq<nat>, line: nat)
    requires Nondecreasing(lines) && line in MapOf(lines)
    ensures lines != [] && line <= lines[|lines| - 1]
  {
    Domain(lines, line);
    var at :| at in lines && line <= at;
    var i :| 0 <= i < |lines| && lines[i] == at;
    assert lines[i] <= lines[|lines| - 1];
  }

  /** The adjunction holds exactly when the instructions come in the order of their lines. */
  lemma GaloisIff(lines: seq<nat>)
    ensures Galois(lines) <==> Nondecreasing(lines)
  {
    if Nondecreasing(lines) {
      NondecreasingGalois(lines);
    }
    if Galois(lines) {
      forall i, j | 0 <= i <= j < |lines| ensures lines[i] <= lines[j] {
        if lines[i] > 0 {
          assert lines[i] in lines;
          Domain(lines, lines[i]);
          assert MapOf(lines)[lines[i]] <= i;
        }
      }
    }
  }

  /**
   A breakpoint asked for at a line is accepted exactly when some instruction is at or after that line,
   and it lands on the first such instruction.
   */
  lemma BreakpointLands(lines: seq<nat>, line: nat)
    requires Nondecreasing(lines) && line < TWO32 && 4 * |lines| <= TWO32
    ensures match Vm.BreakpointOf(MapOf(lines), line, true)
      case None => line == 0 || forall at <- lines :: at < line
      case Some(a) =>
        exists k: nat :: a == 4 * k && k < |lines| && line <= lines[k] && forall j :: 0 <= j < k ==> lines[j] < line
  {
    hide MapOf;
    Domain(lines, line);
    NondecreasingGalois(lines);
    MapBelow(lines);
    BreakpointAt(MapOf(lines), line, |lines|);
    if line in MapOf(lines) {
      var k := MapOf(lines)[line];
      assert line <= lines[k];
      forall j | 0 <= j < k ensures lines[j] < line { assert !(MapOf(lines)[line] <= j); }
    }
  }

  lemma BreakpointAt(lineToInstruction: map<nat, nat>, line: nat, n: nat)
    requires line < TWO32 && 4 * n <= TWO32
    requires line in lineToInstruction ==> lineToInstruction[line] < n
    ensures Vm.BreakpointOf(lineToInstruction, line, true) ==
      if line in lineToInstruction then Some(4 * lineToInstruction[line]) else None
  {
    assert line % TWO32 == line;
    if line in lineToInstruction { FourTimes(lineToInstruction[line]); }
  }

  lemma FourTimes(k: nat)
    requires 4 * k < TWO32
    ensures k * 4 % TWO32 == 4 * k
  {
  }
}
