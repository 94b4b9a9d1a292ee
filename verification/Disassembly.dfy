/**
 The disassembly listing of src/utils.cpp (`DumpDisasssembly`): which rows it writes, and the map from
 instructions to the lines their rows are on. Each row ends with a line break.
 */
module Disassembly {
  import opened Words
  import opened Text
  import opened Units

  datatype Symbol = Symbol(name: string, address: nat, isData: bool)

  /** An instruction row pads its address to `digits` hexadecimal digits; a missing word prints as question marks. */
  datatype Row =
    | Blank
    | Heading(address: nat, name: string)
    | Instruction(digits: nat, address: nat, word: Option<bv32>, unit: Unit)

  /** The names of the text labels by address: of two labels with one address, the later one. */
  function LabelNames(symbols: seq<Symbol>): map<nat, string> {
    if symbols == [] then map[]
    else
      var names := LabelNames(symbols[..|symbols| - 1]);
      var last := symbols[|symbols| - 1];
      if last.isData then names else names[last.address := last.name]
  }

  function Headings(symbols: seq<Symbol>): map<nat, string> {
    var names := LabelNames(symbols);
    if 0 in names then names else names[0 := "start"]
  }

  /** `instruction_index * 4`, an `unsigned int`. */
  function AddressOf(k: nat): nat { 4 * k % TWO32 }

  function Power16(n: nat): nat { if n == 0 then 1 else 16 * Power16(n - 1) }

  function InstructionRow(code: seq<(Unit, bool)>, text: seq<bv32>, digits: nat, k: nat): Row
    requires k < |code|
  {
    Instruction(digits, AddressOf(k), if k < |text| then Some(text[k]) else None, code[k].0)
  }

  /** What precedes the row of an instruction: its label, and a blank row unless nothing was written yet. */
  function HeadingRows(headings: map<nat, string>, k: nat, first: bool): seq<Row> {
    if AddressOf(k) !in headings then []
    else if first then [Heading(AddressOf(k), headings[AddressOf(k)])]
    else [Blank, Heading(AddressOf(k), headings[AddressOf(k)])]
  }

  /** The rows of the first `n` instructions. */
  function Rows(code: seq<(Unit, bool)>, text: seq<bv32>, headings: map<nat, string>, digits: nat, n: nat): seq<Row>
    requires n <= |code|
  {
    if n == 0 then []
    else
      var before := Rows(code, text, headings, digits, n - 1);
      before + HeadingRows(headings, n - 1, before == []) + [InstructionRow(code, text, digits, n - 1)]
  }

  /** The line that row is on, counted from 1. */
  function LineOf(code: seq<(Unit, bool)>, text: seq<bv32>, headings: map<nat, string>, digits: nat, k: nat): nat
    requires k < |code|
  {
    |Rows(code, text, headings, digits, k + 1)|
  }

  method CollectHeadings(symbols: seq<Symbol>) returns (headings: map<nat, string>)
    ensures headings == Headings(symbols)
  {
    headings := map[];
    for i := 0 to |symbols|
      invariant headings == LabelNames(symbols[..i])
    {
      assert symbols[..i + 1][..i] == symbols[..i];
      if !symbols[i].isData {
        headings := headings[symbols[i].address := symbols[i].name];
      }
    }
    assert symbols[..|symbols|] == symbols;
    if 0 !in headings {
      headings := headings[0 := "start"];
    }
  }

  /** The width loop: the fewest hexadecimal digits, at least one, that `maxAddress` fits in. */
  method HexDigits(maxAddress: nat) returns (digits: nat)
    ensures digits >= 1 && maxAddress < Power16(digits)
    ensures digits > 1 ==> Power16(digits - 1) <= maxAddress
  {
    hide Scaled, Shifted, Power16;
    digits := 1;
    var temp := Shifted(maxAddress);
    FirstDigit(maxAddress);
    while temp != 0
      invariant digits >= 1
      invariant Scaled(temp, Power16(digits), maxAddress)
      invariant digits > 1 ==> Power16(digits - 1) <= maxAddress
      decreases temp
    {
      NextDigit(temp, digits, maxAddress);
      temp := Shifted(temp);
      digits := digits + 1;
    }
    LastDigit(Power16(digits), maxAddress);
  }

  /** `temp >> 4`. */
  function Shifted(temp: nat): nat { temp / 16 }

  /** `temp` is what is left of an address after its digits below `p` are shifted out. */
  predicate Scaled(temp: nat, p: nat, maxAddress: nat) { temp * p <= maxAddress < (temp + 1) * p }

  lemma FirstDigit(maxAddress: nat)
    ensures Scaled(Shifted(maxAddress), Power16(1), maxAddress)
  {
    assert Power16(1) == 16;
  }

  lemma NextDigit(temp: nat, digits: nat, maxAddress: nat)
    requires temp > 0 && Scaled(temp, Power16(digits), maxAddress)
    ensures Shifted(temp) < temp && Scaled(Shifted(temp), Power16(digits + 1), maxAddress)
    ensures Power16(digits) <= maxAddress
  {
    ShiftDigit(temp, Power16(digits), maxAddress);
  }

  lemma LastDigit(p: nat, maxAddress: nat)
    ensures Scaled(0, p, maxAddress) ==> maxAddress < p
  {
  }

  lemma ShiftDigit(temp: nat, p: nat, maxAddress: nat)
    requires temp > 0 && temp * p <= maxAddress < (temp + 1) * p
    ensures (temp / 16) * (16 * p) <= maxAddress < (temp / 16 + 1) * (16 * p)
    ensures p <= maxAddress
  {
    var q, r := temp / 16, temp % 16;
    Digits(q, r, p);
    Digits(0, temp - 1, p);
  }

  lemma Digits(q: nat, r: nat, p: nat)
    ensures (16 * q + r) * p == q * (16 * p) + r * p
    ensures (q + 1) * (16 * p) == q * (16 * p) + 16 * p
    ensures (r + 1) * p == r * p + p
    ensures r < 16 ==> (16 * q + r + 1) * p <= (q + 1) * (16 * p)
  {
  }

  /** An `unsigned int` counts the instructions, so there are fewer than 2^32 of them. */
  method Dump(code: seq<(Unit, bool)>, text: seq<bv32>, symbols: seq<Symbol>)
    returns (out: seq<Row>, digits: nat, lineOf: map<nat, nat>)
    requires |code| < TWO32
    ensures out == Rows(code, text, Headings(symbols), digits, |code|)
    ensures forall k :: k in lineOf <==> 0 <= k < |code|
    ensures forall k :: 0 <= k < |code| ==> lineOf[k] == LineOf(code, text, Headings(symbols), digits, k)
    ensures forall k :: 0 <= k < |code| ==> AddressOf(k) < Power16(digits)
  {
    hide AddressOf, Headings, Power16;
    var headings := CollectHeadings(symbols);
    digits := HexDigits(|code| * 4);
    var lineNumber := 1;
    out, lineOf := [], map[];
    for k := 0 to |code|
      invariant out == Rows(code, text, headings, digits, k)
      invariant lineNumber == |out| + 1
      invariant forall j :: j in lineOf <==> 0 <= j < k
      invariant forall j :: 0 <= j < k ==> lineOf[j] == LineOf(code, text, headings, digits, j)
    {
      ghost var before := out;
      var address := AddressOf(k);
      if address in headings {
        if lineNumber > 1 {
          out := out + [Blank];
          lineNumber := lineNumber + 1;
        }
        out := out + [Heading(address, headings[address])];
        lineNumber := lineNumber + 1;
      }
      assert out == before + HeadingRows(headings, k, before == []);
      out := out + [Instruction(digits, address, if k < |text| then Some(text[k]) else None, code[k].0)];
      lineOf := lineOf[k := lineNumber];
      lineNumber := lineNumber + 1;
    }
    forall k | 0 <= k < |code| ensures AddressOf(k) < Power16(digits) { AddressBelow(k, |code|); }
  }

  lemma AddressBelow(k: nat, n: nat)
    requires k < n
    ensures AddressOf(k) < n * 4
  {
    assert 4 * k % TWO32 <= 4 * k;
  }

  /** Later rows never move earlier ones. */
  lemma {:induction false} RowsExtend(
    code: seq<(Unit, bool)>, text: seq<bv32>, headings: map<nat, string>, digits: nat, k: nat, n: nat)
    requires k <= n <= |code|
    ensures Rows(code, text, headings, digits, k) <= Rows(code, text, headings, digits, n)
    ensures k < n ==> |Rows(code, text, headings, digits, k)| < |Rows(code, text, headings, digits, n)|
    decreases n
  {
    if k < n { RowsExtend(code, text, headings, digits, k, n - 1); }
  }

  lemma LastRows(code: seq<(Unit, bool)>, text: seq<bv32>, headings: map<nat, string>, digits: nat, k: nat)
    requires k < |code|
    ensures var rows := Rows(code, text, headings, digits, k + 1);
      && |rows| >= 1 && rows[|rows| - 1] == InstructionRow(code, text, digits, k)
      && (AddressOf(k) in headings ==>
            |rows| >= 2 && rows[|rows| - 2] == Heading(AddressOf(k), headings[AddressOf(k)]))
  {
    hide AddressOf, InstructionRow;
  }

  /**
   The recorded line of instruction `k` is the line, counted from 1, on which its row appears in the
   whole listing; its label's heading, when it has one, is on the line before; and later instructions
   are on later lines.
   */
  lemma RecordedLines(
    code: seq<(Unit, bool)>, text: seq<bv32>, headings: map<nat, string>, digits: nat, k: nat)
    requires k < |code|
    ensures var all, line := Rows(code, text, headings, digits, |code|), LineOf(code, text, headings, digits, k);
      && 1 <= line <= |all|
      && all[line - 1] == InstructionRow(code, text, digits, k)
      && (AddressOf(k) in headings ==>
            line >= 2 && all[line - 2] == Heading(AddressOf(k), headings[AddressOf(k)]))
      && forall j :: k < j < |code| ==> line < LineOf(code, text, headings, digits, j)
  {
    hide Rows, HeadingRows, InstructionRow, AddressOf;
    LastRows(code, text, headings, digits, k);
    RowsExtend(code, text, headings, digits, k + 1, |code|);
    forall j | k < j < |code|
      ensures LineOf(code, text, headings, digits, k) < LineOf(code, text, headings, digits, j)
    {
      RowsExtend(code, text, headings, digits, k + 1, j + 1);
    }
  }

  /** The listing opens with a heading for address 0, whether or not a label is there. */
  lemma OpensWithHeading(code: seq<(Unit, bool)>, text: seq<bv32>, symbols: seq<Symbol>, digits: nat)
    requires code != []
    ensures var all := Rows(code, text, Headings(symbols), digits, |code|);
      && |all| >= 2 && all[0] == Heading(0, Headings(symbols)[0]) && all[1].Instruction?
  {
    var headings := Headings(symbols);
    assert Rows(code, text, headings, digits, 0) == [];
    assert AddressOf(0) == 0;
    assert Rows(code, text, headings, digits, 1)
      == [Heading(0, headings[0]), InstructionRow(code, text, digits, 0)];
    RowsExtend(code, text, headings, digits, 1, |code|);
  }

  /*
   * What the rows show.
   */

  predicate IsTextLabelAt(symbols: seq<Symbol>, i: nat, a: nat) {
    i < |symbols| && !symbols[i].isData && symbols[i].address == a
  }

  /** The last text label of an address in the order of the table. */
  predicate IsLastLabelAt(symbols: seq<Symbol>, i: nat, a: nat) {
    IsTextLabelAt(symbols, i, a) && forall j :: i < j < |symbols| ==> !IsTextLabelAt(symbols, j, a)
  }

  lemma LabelInPrefix(symbols: seq<Symbol>, n: nat, i: nat, a: nat)
    requires n <= |symbols|
    ensures IsTextLabelAt(symbols[..n], i, a) <==> i < n && IsTextLabelAt(symbols, i, a)
  {
  }

  lemma {:induction false} NamedAt(symbols: seq<Symbol>, i: nat, a: nat)
    requires IsTextLabelAt(symbols, i, a)
    ensures a in LabelNames(symbols)
    ensures IsLastLabelAt(symbols, i, a) ==> LabelNames(symbols)[a] == symbols[i].name
    decreases |symbols|
  {
    hide IsTextLabelAt;
    var n := |symbols| - 1;
    InTable(symbols, i, a);
    InTable(symbols, n, a);
    if i < n {
      LabelInPrefix(symbols, n, i, a);
      NamedAt(symbols[..n], i, a);
      if IsLastLabelAt(symbols, i, a) {
        forall j | i < j < n ensures !IsTextLabelAt(symbols[..n], j, a) { LabelInPrefix(symbols, n, j, a); }
      }
    }
  }

  lemma InTable(symbols: seq<Symbol>, i: nat, a: nat)
    ensures IsTextLabelAt(symbols, i, a) <==> i < |symbols| && !symbols[i].isData && symbols[i].address == a
  {
  }

  lemma {:induction false} NamesComeFrom(symbols: seq<Symbol>, a: nat)
    requires a in LabelNames(symbols)
    ensures exists i: nat :: IsTextLabelAt(symbols, i, a)
    decreases |symbols|
  {
    hide IsTextLabelAt;
    var n := |symbols| - 1;
    InTable(symbols, n, a);
    if !IsTextLabelAt(symbols, n, a) {
      NamesComeFrom(symbols[..n], a);
      var i: nat :| IsTextLabelAt(symbols[..n], i, a);
      LabelInPrefix(symbols, n, i, a);
    }
  }

  /**
   Headings stand at address 0 and at the text labels, and nowhere else; a heading shows the last text label of
   its address, and address 0 shows `start` if it has none. Data labels never show.
   */
  lemma HeadingsAre(symbols: seq<Symbol>, a: nat)
    ensures a in Headings(symbols) <==> a == 0 || exists i: nat :: IsTextLabelAt(symbols, i, a)
    ensures forall i: nat :: IsLastLabelAt(symbols, i, a) ==> a in Headings(symbols) && Headings(symbols)[a] == symbols[i].name
    ensures (forall i: nat :: !IsTextLabelAt(symbols, i, 0)) ==> Headings(symbols)[0] == "start"
  {
    hide LabelNames;
    if a in LabelNames(symbols) { NamesComeFrom(symbols, a); }
    if 0 in LabelNames(symbols) { NamesComeFrom(symbols, 0); }
    forall i: nat | IsTextLabelAt(symbols, i, a) ensures a in LabelNames(symbols) { NamedAt(symbols, i, a); }
    forall i: nat | IsLastLabelAt(symbols, i, a)
      ensures a in LabelNames(symbols) && LabelNames(symbols)[a] == symbols[i].name
    {
      NamedAt(symbols, i, a);
    }
  }

  /** The blank and heading rows before an instruction's row. */
  function RowsBefore(headings: map<nat, string>, k: nat): nat {
    if AddressOf(k) !in headings then 0 else if k == 0 then 1 else 2
  }

  lemma LinesAreApart(code: seq<(Unit, bool)>, text: seq<bv32>, headings: map<nat, string>, digits: nat, k: nat)
    requires k < |code|
    ensures LineOf(code, text, headings, digits, k) ==
      (if k == 0 then 0 else LineOf(code, text, headings, digits, k - 1)) + RowsBefore(headings, k) + 1
    ensures var rows := Rows(code, text, headings, digits, k + 1);
      k > 0 && AddressOf(k) in headings ==> |rows| >= 3 && rows[|rows| - 3] == Blank
  {
    hide AddressOf, InstructionRow;
    var before, after := Rows(code, text, headings, digits, k), Rows(code, text, headings, digits, k + 1);
    assert after == before + HeadingRows(headings, k, before == []) + [InstructionRow(code, text, digits, k)];
    if k > 0 { RowsExtend(code, text, headings, digits, 0, k); }
    assert before == [] <==> k == 0;
  }

  /**
   The whole listing: instruction `k` is on the line after its predecessor's, with nothing but a heading and a blank
   row between them when a text label or address 0 is there, and its row shows four times its index, its word, or
   none if there are fewer words, and its unit.
   */
  lemma ListingShows(code: seq<(Unit, bool)>, text: seq<bv32>, symbols: seq<Symbol>, digits: nat, k: nat)
    requires k < |code| && 4 * |code| <= TWO32
    ensures var headings := Headings(symbols);
      var all, line := Rows(code, text, headings, digits, |code|), LineOf(code, text, headings, digits, k);
      && 1 <= line <= |all|
      && line == (if k == 0 then 0 else LineOf(code, text, headings, digits, k - 1)) + 1
           + (if 4 * k !in headings then 0 else if k == 0 then 1 else 2)
      && all[line - 1] == Instruction(digits, 4 * k, if k < |text| then Some(text[k]) else None, code[k].0)
      && (4 * k in headings ==> line >= 2 && all[line - 2] == Heading(4 * k, headings[4 * k]))
      && (4 * k in headings && k > 0 ==> line >= 3 && all[line - 3] == Blank)
      && |all| == LineOf(code, text, headings, digits, |code| - 1)
  {
    hide Rows, HeadingRows, Headings;
    var headings := Headings(symbols);
    AddressIs(k, |code|);
    RecordedLines(code, text, headings, digits, k);
    LinesAreApart(code, text, headings, digits, k);
    RowsExtend(code, text, headings, digits, k + 1, |code|);
  }

  lemma AddressIs(k: nat, n: nat)
    requires k < n && 4 * n <= TWO32
    ensures AddressOf(k) == 4 * k
  {
  }
}
