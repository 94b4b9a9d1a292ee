/**
 The machine-independent part of the virtual machine (src/vm/vm_base.cpp): loading a program, the
 program counter and the breakpoints.
 */
module Vm {
  import opened Words
  import opened Text
  import opened Bytes
  import opened MainMemory
  import opened Layout
  import opened Loader

  /** What loading and line breakpoints use of an `AssembledProgram`. */
  datatype Program = Program(text: seq<bv32>, data: seq<DataItem>, lineToInstruction: map<nat, nat>)

  /**
   The address a breakpoint request stands for. A line is looked up as an `unsigned int`, and four
   times its instruction number is computed as one; an address must be a multiple of four.
   */
  function BreakpointOf(lineToInstruction: map<nat, nat>, val: Address, isLine: bool): Option<nat> {
    if isLine then
      if val % TWO32 in lineToInstruction then Some(lineToInstruction[val % TWO32] * 4 % TWO32) else None
    else
      if val % 4 == 0 then Some(val) else None
  }

  function Added(breakpoints: seq<nat>, a: nat): seq<nat> {
    if a in breakpoints then breakpoints else breakpoints + [a]
  }

  function Removed(breakpoints: seq<nat>, a: nat): seq<nat> {
    if breakpoints == [] then []
    else if breakpoints[0] == a then Removed(breakpoints[1..], a)
    else [breakpoints[0]] + Removed(breakpoints[1..], a)
  }

  function Requested(breakpoints: seq<nat>, a: Option<nat>): seq<nat> {
    match a case None => breakpoints case Some(b) => Added(breakpoints, b)
  }

  function Withdrawn(breakpoints: seq<nat>, a: Option<nat>): seq<nat> {
    match a case None => breakpoints case Some(b) => Removed(breakpoints, b)
  }

  function Advanced(pc: Address, value: int): Address { (pc + value) % TWO64 }

  class VmBase {
    const memory: Memory
    const dataSectionStart: Address
    var program: Program
    var programSize: nat
    var programCounter: Address
    var breakpoints: seq<nat>

    constructor (memory: Memory, dataSectionStart: Address)
      ensures this.memory == memory && this.dataSectionStart == dataSectionStart
      ensures program == Program([], [], map[]) && programSize == 0 && programCounter == 0 && breakpoints == []
    {
      this.memory, this.dataSectionStart := memory, dataSectionStart;
      program, programSize, programCounter, breakpoints := Program([], [], map[]), 0, 0, [];
    }

    /** The text, then a breakpoint at its end, then the data; a failed write ends the loading there. */
    method LoadProgram(p: Program) returns (error: Option<MemoryError>)
      requires Valid(memory.State())
      modifies this, memory
      ensures Valid(memory.State()) && program == p && programCounter == old(programCounter)
      ensures Written(memory.State(), error) == LoadAll(old(memory.State()), p.text, dataSectionStart, p.data)
      ensures LoadText(old(memory.State()), p.text).error.Some? ==>
        programSize == old(programSize) && breakpoints == old(breakpoints)
      ensures LoadText(old(memory.State()), p.text).error.None? ==>
        programSize == 4 * |p.text| % TWO32 && breakpoints == Added(old(breakpoints), programSize)
    {
      program := p;
      error := LoadTextSection(p.text);
      if error.Some? { return; }
      error := LoadDataSection(p.data);
    }

    method LoadTextSection(text: seq<bv32>) returns (error: Option<MemoryError>)
      requires Valid(memory.State())
      modifies this, memory
      ensures Valid(memory.State()) && program == old(program) && programCounter == old(programCounter)
      ensures Written(memory.State(), error) == LoadText(old(memory.State()), text)
      ensures error.Some? ==> programSize == old(programSize) && breakpoints == old(breakpoints)
      ensures error.None? ==>
        programSize == 4 * |text| % TWO32 && breakpoints == Added(old(breakpoints), programSize)
    {
      var counter := 0;
      for i := 0 to |text|
        modifies memory
        invariant Valid(memory.State())
        invariant counter == TextAddress(i)
        invariant Written(memory.State(), None) == LoadText(old(memory.State()), text[..i])
      {
        assert text[..i + 1][..i] == text[..i];
        error := memory.StoreSized(counter, 4, Wide32(text[i]));
        if error.Some? {
          LoadTextStops(old(memory.State()), text, i + 1);
          return;
        }
        NextTextAddress(i);
        counter := (counter + 4) % TWO32;
      }
      assert text[..|text|] == text;
      programSize := counter;
      error := None;
      ProgramSizeIsAligned(|text|);
      AddBreakpoint(programSize, false);
    }

    method LoadDataSection(data: seq<DataItem>) returns (error: Option<MemoryError>)
      requires Valid(memory.State())
      modifies memory
      ensures Valid(memory.State())
      ensures Written(memory.State(), error) == LoadData(old(memory.State()), dataSectionStart, data)
    {
      hide StoreItem, ItemBytes, AlignUp;
      var dataCounter := 0;
      for i := 0 to |data|
        modifies memory
        invariant Valid(memory.State())
        invariant dataCounter == LoaderCounter(data[..i])
        invariant Written(memory.State(), None) == LoadData(old(memory.State()), dataSectionStart, data[..i])
      {
        assert data[..i + 1][..i] == data[..i];
        dataCounter := Counter(AlignUp(dataCounter, AlignmentOf(data[i])));
        error := LoadItem(dataCounter, data[i]);
        if error.Some? {
          LoadDataStops(old(memory.State()), dataSectionStart, data, i + 1);
          return;
        }
        dataCounter := Counter(dataCounter + |ItemBytes(data[i])|);
      }
      assert data[..|data|] == data;
      error := None;
    }

    /** One visit of the data variant, after its alignment. */
    method LoadItem(counter: nat, item: DataItem) returns (error: Option<MemoryError>)
      requires Valid(memory.State())
      modifies memory
      ensures Valid(memory.State())
      ensures Written(memory.State(), error) == StoreItem(old(memory.State()), dataSectionStart, counter, item)
    {
      var address := DataAddress(dataSectionStart, counter);
      match item
      case U8(b) => error := memory.StoreSized(address, 1, Wide(b));
      case U16(h) => error := memory.StoreSized(address, 2, Wide16(h));
      case U32(w) => error := memory.StoreSized(address, 4, Wide32(w));
      case U64(d) => error := memory.StoreSized(address, 8, d);
      case F32(w) => error := memory.StoreSized(address, 4, Wide32(w));
      case F64(d) => error := memory.StoreSized(address, 8, d);
      case Str(text) => error := LoadString(counter, text);
    }

    method LoadString(counter: nat, text: seq<bv8>) returns (error: Option<MemoryError>)
      requires Valid(memory.State())
      modifies memory
      ensures Valid(memory.State())
      ensures Written(memory.State(), error) == StoreText(old(memory.State()), dataSectionStart, counter, text)
    {
      hide Wide, Store, DataAddress, Counter;
      for i := 0 to |text|
        invariant Valid(memory.State())
        invariant Written(memory.State(), None) == StoreText(old(memory.State()), dataSectionStart, counter, text[..i])
      {
        assert text[..i + 1][..i] == text[..i];
        error := memory.StoreSized(DataAddress(dataSectionStart, Counter(counter + i)), 1, Wide(text[i]));
        if error.Some? {
          StoreTextStops(old(memory.State()), dataSectionStart, counter, text, i + 1);
          return;
        }
      }
      assert text[..|text|] == text;
      error := None;
    }

    method UpdateProgramCounter(value: int)
      modifies this`programCounter
      ensures programCounter == Advanced(old(programCounter), value)
    {
      programCounter := (programCounter + value) % TWO64;
    }

    method AddBreakpoint(val: Address, isLine: bool)
      modifies this`breakpoints
      ensures breakpoints == Requested(old(breakpoints), BreakpointOf(program.lineToInstruction, val, isLine))
    {
      if isLine {
        var line := val % TWO32;
        if line !in program.lineToInstruction { return; }
        var bp := program.lineToInstruction[line] * 4 % TWO32;
        var present := CheckBreakpoint(bp);
        if present { return; }
        breakpoints := breakpoints + [bp];
      } else {
        if val % 4 != 0 { return; }
        var present := CheckBreakpoint(val);
        if present { return; }
        breakpoints := breakpoints + [val];
      }
    }

    method RemoveBreakpoint(val: Address, isLine: bool)
      modifies this`breakpoints
      ensures breakpoints == Withdrawn(old(breakpoints), BreakpointOf(program.lineToInstruction, val, isLine))
    {
      if isLine {
        var line := val % TWO32;
        if line !in program.lineToInstruction { return; }
        var bp := program.lineToInstruction[line] * 4 % TWO32;
        var present := CheckBreakpoint(bp);
        if !present {
          RemovedMembers(breakpoints, bp);
          return;
        }
        breakpoints := Removed(breakpoints, bp);
      } else {
        if val % 4 != 0 { return; }
        var present := CheckBreakpoint(val);
        if !present {
          RemovedMembers(breakpoints, val);
          return;
        }
        breakpoints := Removed(breakpoints, val);
      }
    }

    method CheckBreakpoint(address: nat) returns (present: bool)
      ensures present <==> address in breakpoints
    {
      var i := 0;
      while i < |breakpoints| && breakpoints[i] != address
        invariant 0 <= i <= |breakpoints|
        invariant address !in breakpoints[..i]
      {
        i := i + 1;
      }
      present := i < |breakpoints|;
    }
  }

  lemma NextTextAddress(i: nat)
    ensures (TextAddress(i) + 4) % TWO32 == TextAddress(i + 1)
  {
  }

  lemma ProgramSizeIsAligned(n: nat)
    ensures TextAddress(n) % 4 == 0
  {
    var q, r := 4 * n / TWO32, TextAddress(n);
    assert r == 4 * (n - 0x4000_0000 * q);
  }

  /** Breakpoints are held without repetition. */
  predicate Distinct(breakpoints: seq<nat>) {
    forall i, j :: 0 <= i < j < |breakpoints| ==> breakpoints[i] != breakpoints[j]
  }

  lemma {:induction false} RemovedMembers(breakpoints: seq<nat>, a: nat)
    ensures forall b :: b in Removed(breakpoints, a) <==> b in breakpoints && b != a
    ensures a !in breakpoints ==> Removed(breakpoints, a) == breakpoints
    ensures Distinct(breakpoints) ==> Distinct(Removed(breakpoints, a))
  {
    if breakpoints == [] {
    } else {
      var rest := breakpoints[1..];
      RemovedMembers(rest, a);
      assert breakpoints == [breakpoints[0]] + rest;
      if Distinct(breakpoints) {
        assert Distinct(rest);
        assert breakpoints[0] !in rest;
      }
    }
  }

  lemma {:induction false} RemovedLast(breakpoints: seq<nat>, a: nat)
    requires a !in breakpoints
    ensures Removed(breakpoints + [a], a) == breakpoints
  {
    if breakpoints == [] {
      assert Removed([a], a) == Removed([a][1..], a);
    } else {
      assert (breakpoints + [a])[1..] == breakpoints[1..] + [a];
      RemovedLast(breakpoints[1..], a);
    }
  }

  /**
   Asking for a breakpoint adds its address once and disturbs no other; withdrawing it removes exactly
   it, so a request for a new breakpoint followed by its withdrawal restores the list.
   */
  lemma BreakpointsBehaveAsASet(breakpoints: seq<nat>, a: nat)
    requires Distinct(breakpoints)
    ensures Distinct(Added(breakpoints, a)) && Distinct(Removed(breakpoints, a))
    ensures forall b :: b in Added(breakpoints, a) <==> b in breakpoints || b == a
    ensures forall b :: b in Removed(breakpoints, a) <==> b in breakpoints && b != a
    ensures Removed(Added(breakpoints, a), a) == breakpoints <==> a !in breakpoints
  {
    RemovedMembers(breakpoints, a);
    if a !in breakpoints {
      RemovedLast(breakpoints, a);
    }
  }

  /** Going back by what was added returns to the same counter, for every 64-bit counter and step. */
  lemma AdvanceAndReturn(pc: Address, value: int)
    ensures Advanced(Advanced(pc, value), -value) == pc
  {
    var x := pc + value;
    assert x % TWO64 == x - TWO64 * (x / TWO64);
    assert (pc - TWO64 * (x / TWO64)) % TWO64 == pc;
  }

  lemma RequestedIs(breakpoints: seq<nat>, request: Option<nat>, a: nat)
    requires Distinct(breakpoints)
    ensures a in Requested(breakpoints, request) <==> a in breakpoints || request == Some(a)
    ensures a in Withdrawn(breakpoints, request) <==> a in breakpoints && request != Some(a)
  {
    hide Distinct, Added, Removed;
    if request.Some? { BreakpointsBehaveAsASet(breakpoints, request.value); }
  }

  /**
   A request for an address takes effect exactly when the address is a multiple of four; a request for a line exactly
   when the line has an instruction, and then at four times its number. Nothing else changes.
   */
  lemma RequestsTakeEffect(breakpoints: seq<nat>, lineToInstruction: map<nat, nat>, val: Address, a: nat)
    requires Distinct(breakpoints)
    ensures a in Requested(breakpoints, BreakpointOf(lineToInstruction, val, false)) <==>
      a in breakpoints || (a == val && exists k: nat :: a == 4 * k)
    ensures a in Withdrawn(breakpoints, BreakpointOf(lineToInstruction, val, false)) <==>
      a in breakpoints && !(a == val && exists k: nat :: a == 4 * k)
    ensures val < TWO32 ==>
      (a in Requested(breakpoints, BreakpointOf(lineToInstruction, val, true)) <==>
         a in breakpoints || (val in lineToInstruction && a == 4 * lineToInstruction[val] % TWO32))
    ensures val < TWO32 ==>
      (a in Withdrawn(breakpoints, BreakpointOf(lineToInstruction, val, true)) <==>
         a in breakpoints && !(val in lineToInstruction && a == 4 * lineToInstruction[val] % TWO32))
  {
    hide Distinct, Requested, Withdrawn;
    RequestedIs(breakpoints, BreakpointOf(lineToInstruction, val, false), a);
    RequestedIs(breakpoints, BreakpointOf(lineToInstruction, val, true), a);
    MultipleOfFour(val);
    LineRequest(lineToInstruction, val, a);
  }

  lemma LineRequest(lineToInstruction: map<nat, nat>, val: Address, a: nat)
    ensures val < TWO32 ==>
      (BreakpointOf(lineToInstruction, val, true) == Some(a) <==>
         val in lineToInstruction && a == 4 * lineToInstruction[val] % TWO32)
  {
  }

  lemma MultipleOfFour(a: nat)
    ensures a % 4 == 0 <==> exists k: nat :: a == 4 * k
  {
    if a % 4 == 0 { assert a == 4 * (a / 4); }
  }
}
