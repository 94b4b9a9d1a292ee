/**
 The intermediate-code unit of include/assembler/code_generator.h.

 A `Unit` is the value of a unit as it is stored in the intermediate code; `ICUnit` is the mutable
 object the assembler fills through its setters, whose text fields are fixed character arrays.
 */
module Units {
  import opened Text
  import opened Instructions

  /** `target` is the label the unit refers to (`label` in the source). Field texts are what the getters return, so they hold no NUL and fit their arrays. */
  datatype Unit = Unit(
    op: Mnemonic, rd: string, rs1: string, rs2: string, rs3: string,
    csr: bv32, imm: string, rm: bv32, target: string, line: nat)

  /** A unit with nothing but its mnemonic and line set. */
  function Blank(op: Mnemonic, line: nat): Unit {
    Unit(op, "", "", "", "", 0, "", 0, "", line)
  }

  /** Every text field holds no NUL and fits its array. */
  predicate WellFormed(u: Unit) {
    && Fits(u.rd, REG_CAPACITY) && Fits(u.rs1, REG_CAPACITY) && Fits(u.rs2, REG_CAPACITY)
    && Fits(u.rs3, REG_CAPACITY) && Fits(u.imm, IMM_CAPACITY)
  }

  predicate Fits(text: string, capacity: nat) { '\0' !in text && |text| <= capacity }

  const REG_CAPACITY: nat := 5
  const IMM_CAPACITY: nat := 32

  class ICUnit {
    var line: nat
    var op: Mnemonic
    const rd: array<char>
    const rs1: array<char>
    const rs2: array<char>
    const rs3: array<char>
    var csr: bv32
    const imm: array<char>
    var target: string
    var rm: bv32

    ghost predicate Valid()
      reads this
    {
      && rd.Length == rs1.Length == rs2.Length == rs3.Length == REG_CAPACITY + 1
      && imm.Length == IMM_CAPACITY + 1
      && rd != rs1 && rd != rs2 && rd != rs3 && rs1 != rs2 && rs1 != rs3 && rs2 != rs3
    }

    ghost function Contents(): Unit
      reads this, rd, rs1, rs2, rs3, imm
    {
      Unit(op, CString(rd[..]), CString(rs1[..]), CString(rs2[..]), CString(rs3[..]),
           csr, CString(imm[..]), rm, target, line)
    }

    constructor (op: Mnemonic, line: nat)
      ensures Valid() && fresh(rd) && fresh(rs1) && fresh(rs2) && fresh(rs3) && fresh(imm)
      ensures Contents() == Blank(op, line)
    {
      this.op, this.line, csr, rm, target := op, line, 0, 0, "";
      var a := NewField("", REG_CAPACITY);
      var b := NewField("", REG_CAPACITY);
      var c := NewField("", REG_CAPACITY);
      var d := NewField("", REG_CAPACITY);
      var e := NewField("", IMM_CAPACITY);
      rd, rs1, rs2, rs3, imm := a, b, c, d, e;
    }

    /** A copy of a stored unit. */
    constructor Copy(u: Unit)
      requires WellFormed(u)
      ensures Valid() && fresh(rd) && fresh(rs1) && fresh(rs2) && fresh(rs3) && fresh(imm)
      ensures Contents() == u
    {
      op, line, csr, rm, target := u.op, u.line, u.csr, u.rm, u.target;
      var a := NewField(u.rd, REG_CAPACITY);
      var b := NewField(u.rs1, REG_CAPACITY);
      var c := NewField(u.rs2, REG_CAPACITY);
      var d := NewField(u.rs3, REG_CAPACITY);
      var e := NewField(u.imm, IMM_CAPACITY);
      rd, rs1, rs2, rs3, imm := a, b, c, d, e;
    }

    method SetRd(value: string)
      requires Valid()
      modifies rd
      ensures Contents() == old(Contents()).(rd := Clip(value, REG_CAPACITY))
    {
      CopyBounded(rd, value);
    }

    method SetRs1(value: string)
      requires Valid()
      modifies rs1
      ensures Contents() == old(Contents()).(rs1 := Clip(value, REG_CAPACITY))
    {
      CopyBounded(rs1, value);
    }

    method SetRs2(value: string)
      requires Valid()
      modifies rs2
      ensures Contents() == old(Contents()).(rs2 := Clip(value, REG_CAPACITY))
    {
      CopyBounded(rs2, value);
    }

    method SetRs3(value: string)
      requires Valid()
      modifies rs3
      ensures Contents() == old(Contents()).(rs3 := Clip(value, REG_CAPACITY))
    {
      CopyBounded(rs3, value);
    }

    method SetImm(value: string)
      requires Valid()
      modifies imm
      ensures Contents() == old(Contents()).(imm := Clip(value, IMM_CAPACITY))
    {
      CopyBounded(imm, value);
    }

    method GetImm() returns (text: string)
      requires Valid()
      requires '\0' in imm[..]
      ensures text == Contents().imm
    {
      text := ReadCString(imm);
    }
  }

  /** A NUL-padded array that reads back as `text`. */
  method NewField(text: string, capacity: nat) returns (a: array<char>)
    requires Fits(text, capacity)
    ensures fresh(a) && a.Length == capacity + 1
    ensures CString(a[..]) == text
  {
    a := new char[capacity + 1](i => if 0 <= i < |text| then text[i] else '\0');
    assert a[..][..|text|] == text;
    CStringIs(a[..], |text|);
  }

  /** `strncpy(dst, value.c_str(), n); dst[n] = '\0'` for an array of n + 1 characters. */
  method CopyBounded(dst: array<char>, value: string)
    requires dst.Length > 0
    modifies dst
    ensures CString(dst[..]) == Clip(value, dst.Length - 1)
    ensures dst[dst.Length - 1] == '\0'
  {
    var n := dst.Length - 1;
    var i := 0;
    while i < n && i < |value| && value[i] != '\0'
      invariant 0 <= i <= n && i <= |value|
      invariant dst[..i] == value[..i]
      invariant '\0' !in value[..i]
    {
      dst[i] := value[i];
      i := i + 1;
    }
    var j := i;
    while j < n
      invariant i <= j <= n
      invariant dst[..i] == value[..i]
      invariant forall k :: i <= k < j ==> dst[k] == '\0'
    {
      dst[j] := '\0';
      j := j + 1;
    }
    dst[n] := '\0';
    CStringIs(dst[..], i);
    ClipIs(value, n, i);
  }

  /** Reading a character array as a C string. */
  method ReadCString(src: array<char>) returns (text: string)
    requires '\0' in src[..]
    ensures text == CString(src[..])
  {
    var i := 0;
    while src[i] != '\0'
      invariant 0 <= i < src.Length
      invariant '\0' !in src[..i]
      invariant '\0' in src[i..]
      decreases src.Length - i
    {
      i := i + 1;
    }
    text := src[..i];
    CStringIs(src[..], i);
  }

  lemma {:induction false} CStringIs(s: string, i: nat)
    requires i <= |s| && '\0' !in s[..i]
    requires i == |s| || s[i] == '\0'
    ensures CString(s) == s[..i]
  {
    if i == 0 {
    } else {
      assert s[0] in s[..i];
      assert s[1..][..i - 1] == s[..i][1..];
      CStringIs(s[1..], i - 1);
    }
  }

  lemma {:induction false} CStringTakes(s: string, i: nat)
    requires i <= |s| && '\0' !in s[..i]
    ensures i <= |CString(s)|
  {
    if i == 0 {
    } else {
      assert s[0] in s[..i];
      assert s[1..][..i - 1] == s[..i][1..];
      CStringTakes(s[1..], i - 1);
    }
  }

  lemma ClipIs(value: string, capacity: nat, i: nat)
    requires i <= capacity && i <= |value| && '\0' !in value[..i]
    requires i == capacity || i == |value| || value[i] == '\0'
    ensures Clip(value, capacity) == value[..i]
  {
    if i == |value| || value[i] == '\0' {
      CStringIs(value, i);
    } else {
      CStringTakes(value, i);
    }
  }
}
