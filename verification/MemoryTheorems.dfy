/**
 What the sparse memory promises: it is indistinguishable from a flat, zero-filled array of bytes,
 whatever the block size and whichever blocks an access straddles.
 */
module MemoryTheorems {
  import opened Words
  import opened Text
  import opened Bytes
  import opened MainMemory

  /*
   * Single bytes.
   */

  lemma PutAt(m: Mem, a: nat, v: bv8, x: nat)
    requires Valid(m)
    ensures At(Put(m, a, v), x) == if x == a then v else At(m, x)
  {
    SameBlockSameOffset(a, x, m.blockSize);
  }

  /** Two addresses with the same block and the same offset are the same. */
  lemma {:induction false} SameBlockSameOffset(a: nat, b: nat, size: nat)
    requires size > 0
    ensures BlockIndex(a, size) == BlockIndex(b, size) && BlockOffset(a, size) == BlockOffset(b, size) ==> a == b
  {
    if a >= size && b >= size { SameBlockSameOffset(a - size, b - size, size); }
  }

  lemma PutFrame(m: Mem, a: nat, v: bv8)
    requires Valid(m)
    ensures Put(m, a, v).blockSize == m.blockSize && Put(m, a, v).size == m.size
    ensures Put(m, a, v).blocks.Keys == m.blocks.Keys + {BlockIndex(a, m.blockSize)}
  {
  }

  /*
   * Accesses of several bytes.
   */

  function BytesAt(m: Mem, a: nat, n: nat): (s: seq<bv8>)
    requires Valid(m)
    ensures |s| == n
  {
    seq(n, i requires 0 <= i < n => At(m, a + i))
  }

  lemma PlusInside(a: Address, i: nat)
    requires a + i < TWO64
    ensures Plus(a, i) == a + i
  {
  }

  lemma {:induction false} ReadFromInside(m: Mem, a: Address, n: nat)
    requires Valid(m) && a + n <= m.size
    ensures ReadFrom(m, a, n) == Ok(BytesAt(m, a, n))
  {
    if n == 0 {
    } else {
      ReadFromInside(m, a, n - 1);
      PlusInside(a, n - 1);
      assert BytesAt(m, a, n) == BytesAt(m, a, n - 1) + [At(m, a + (n - 1))];
    }
  }

  lemma LoadInside(m: Mem, a: Address, n: Width)
    requires Valid(m) && m.size >= n - 1 && a + n <= m.size
    ensures Load(m, a, n) == Ok(FromBytes(BytesAt(m, a, n)))
  {
    GuardIsExact(m, a, n);
    ReadFromInside(m, a, n);
  }

  lemma WriteStep(m: Mem, a: Address, bytes: seq<bv8>)
    requires Valid(m) && bytes != [] && a + |bytes| <= m.size
    requires var w := WriteFrom(m, a, bytes[..|bytes| - 1]); w.error == None && w.mem.size == m.size
    ensures WriteFrom(m, a, bytes) ==
      Written(Put(WriteFrom(m, a, bytes[..|bytes| - 1]).mem, a + (|bytes| - 1), bytes[|bytes| - 1]), None)
  {
    hide Put, Plus;
    PlusInside(a, |bytes| - 1);
  }

  /** The bytes of `w` are those of `m`, overlaid with `bytes` from address `a` on. */
  ghost predicate Overlaid(w: Mem, m: Mem, a: nat, bytes: seq<bv8>)
    requires Valid(w) && Valid(m)
  {
    forall x: nat :: At(w, x) == if a <= x < a + |bytes| then bytes[x - a] else At(m, x)
  }

  lemma PutOverlaid(w: Mem, m: Mem, a: nat, bytes: seq<bv8>)
    requires Valid(w) && Valid(m) && bytes != [] && Overlaid(w, m, a, bytes[..|bytes| - 1])
    ensures Overlaid(Put(w, a + (|bytes| - 1), bytes[|bytes| - 1]), m, a, bytes)
  {
    var k, after := |bytes| - 1, Put(w, a + (|bytes| - 1), bytes[|bytes| - 1]);
    forall x: nat
      ensures At(after, x) == if a <= x < a + |bytes| then bytes[x - a] else At(m, x)
    {
      PutAt(w, a + k, bytes[k], x);
      assert At(w, x) == if a <= x < a + k then bytes[..k][x - a] else At(m, x);
    }
  }

  /** After the bytes are stored, they are what is at their addresses, and nothing else has changed. */
  lemma {:induction false} WriteFromInside(m: Mem, a: Address, bytes: seq<bv8>)
    requires Valid(m) && a + |bytes| <= m.size
    ensures var w := WriteFrom(m, a, bytes);
      w.error == None && w.mem.blockSize == m.blockSize && w.mem.size == m.size && Overlaid(w.mem, m, a, bytes)
  {
    if bytes == [] {
    } else {
      var prefix := bytes[..|bytes| - 1];
      WriteFromInside(m, a, prefix);
      var before := WriteFrom(m, a, prefix).mem;
      WriteStep(m, a, bytes);
      PutFrame(before, a + |prefix|, bytes[|prefix|]);
      PutOverlaid(before, m, a, bytes);
    }
  }

  /** An accepted access never fails part-way and a rejected write changes nothing, at this size. */
  ghost predicate AllOrNothing(m: Mem, n: Width)
    requires Valid(m)
  {
    forall a: Address, value: bv64 ::
      var w := Store(m, a, n, value);
      && (w.error.None? <==> a + n <= m.size)
      && (w.error.Some? ==> w.mem == m)
  }

  /** The guard rejects exactly the addresses whose n bytes do not all lie below the memory size. */
  lemma GuardIsExact(m: Mem, a: Address, n: Width)
    requires Valid(m) && m.size >= n - 1
    ensures a < Limit(m, n) <==> a + n <= m.size
  {
  }

  lemma StoreInside(m: Mem, a: Address, n: Width, value: bv64)
    requires Valid(m) && m.size >= n - 1 && a + n <= m.size
    ensures var w := Store(m, a, n, value);
      w.error == None && w.mem.size == m.size && Overlaid(w.mem, m, a, ToBytes(value, n))
  {
    GuardIsExact(m, a, n);
    WriteFromInside(m, a, ToBytes(value, n));
  }

  lemma StoreOutside(m: Mem, a: Address, n: Width, value: bv64)
    requires Valid(m) && m.size >= n - 1 && a + n > m.size
    ensures Store(m, a, n, value) == Written(m, Some(AddressOutOfRange(a)))
  {
    GuardIsExact(m, a, n);
  }

  /**
   Sized writes are all-or-nothing exactly when the memory is empty or has at least n - 1 bytes: below
   that the guard's subtraction wraps around and lets through a write that then fails part-way.
   */
  lemma AllOrNothingIff(m: Mem, n: Width)
    requires Valid(m)
    ensures AllOrNothing(m, n) <==> m.size == 0 || m.size >= n - 1
  {
    if m.size >= n - 1 {
      forall a: Address, value: bv64
        ensures var w := Store(m, a, n, value);
          (w.error.None? <==> a + n <= m.size) && (w.error.Some? ==> w.mem == m)
      {
        if a + n <= m.size { StoreInside(m, a, n, value); } else { StoreOutside(m, a, n, value); }
      }
    } else if m.size == 0 {
      forall a: Address, value: bv64
        ensures var w := Store(m, a, n, value); w.error.Some? && w.mem == m
      {
        FirstByteFails(m, a, ToBytes(value, n));
      }
    } else {
      var value := DifferentByte(At(m, 0));
      PartialWrite(m, n, value);
    }
  }

  lemma {:induction false} FirstByteFails(m: Mem, a: Address, bytes: seq<bv8>)
    requires Valid(m) && a >= m.size && bytes != []
    ensures WriteFrom(m, a, bytes).error.Some? && WriteFrom(m, a, bytes).mem == m
  {
    if |bytes| == 1 {
      assert WriteFrom(m, a, bytes[..0]) == Written(m, None);
    } else {
      FirstByteFails(m, a, bytes[..|bytes| - 1]);
    }
  }

  function DifferentByte(b: bv8): (value: bv64)
    ensures Low8(value) != b
  {
    if b == 0 then 1 else 0
  }

  lemma WriteStops(m: Mem, bytes: seq<bv8>, i: nat)
    requires Valid(m) && m.size == i < |bytes|
    requires var w := WriteFrom(m, 0, bytes[..i]); w.error == None && w.mem.size == m.size
    ensures WriteFrom(m, 0, bytes) == Written(WriteFrom(m, 0, bytes[..i]).mem, Some(AddressOutOfRange(i)))
  {
    PlusInside(0, i);
    assert bytes[..i + 1][..i] == bytes[..i];
    WriteFailureStays(m, 0, bytes, i + 1);
  }

  /** The write to address 0 that a memory too small for it accepts, and carries out in part. */
  lemma PartialWrite(m: Mem, n: Width, value: bv64)
    requires Valid(m) && 0 < m.size < n - 1 && Low8(value) != At(m, 0)
    ensures Store(m, 0, n, value).error.Some?
    ensures Store(m, 0, n, value).mem != m
  {
    var bytes := ToBytes(value, n);
    var part := bytes[..m.size];
    assert part[0] == Low8(value);
    WriteFromInside(m, 0, part);
    WriteStops(m, bytes, m.size);
    assert At(WriteFrom(m, 0, part).mem, 0) == part[0];
  }

  /** The bytes of an access of `k` bytes at `a`, after `bytes` were stored at `b`: old and new, merged. */
  function Merged(m: Mem, b: nat, bytes: seq<bv8>, a: nat, k: nat): (s: seq<bv8>)
    requires Valid(m)
    ensures |s| == k
  {
    seq(k, i requires 0 <= i < k => if b <= a + i < b + |bytes| then bytes[a + i - b] else At(m, a + i))
  }

  lemma MergedAt(w: Mem, m: Mem, b: nat, bytes: seq<bv8>, a: nat, k: nat)
    requires Valid(w) && Valid(m) && Overlaid(w, m, b, bytes)
    ensures BytesAt(w, a, k) == Merged(m, b, bytes, a, k)
  {
  }

  /**
   Read over write, at every pair of widths and every overlap: the bytes that were written come from
   the written value, and the others from the memory before it.
   */
  lemma ReadOverWrite(m: Mem, b: Address, n: Width, value: bv64, a: Address, k: Width)
    requires Valid(m) && b + n <= m.size && a + k <= m.size
    ensures Load(Store(m, b, n, value).mem, a, k) == Ok(FromBytes(Merged(m, b, ToBytes(value, n), a, k)))
  {
    StoreInside(m, b, n, value);
    var after := Store(m, b, n, value).mem;
    LoadInside(after, a, k);
    MergedAt(after, m, b, ToBytes(value, n), a, k);
  }

  /** Reading at the address and width of a write gives the value back. */
  lemma ReadBack(m: Mem, a: Address, n: Width, value: bv64)
    requires Valid(m) && a + n <= m.size && Fits(value, n)
    ensures Load(Store(m, a, n, value).mem, a, n) == Ok(value)
  {
    StoreInside(m, a, n, value);
    var after := Store(m, a, n, value).mem;
    LoadInside(after, a, n);
    assert BytesAt(after, a, n) == ToBytes(value, n);
    FromToBytes(value, n);
  }

  /*
   * Runs.
   */

  datatype Operation = LoadOp(a: Address, n: Width) | StoreOp(a: Address, n: Width, value: bv64) | ResetOp

  datatype Observation = Loaded(r: Result<bv64, MemoryError>) | Stored(error: Option<MemoryError>) | Done

  function Step(m: Mem, op: Operation): (r: (Mem, Observation))
    requires Valid(m)
    ensures Valid(r.0)
  {
    match op
    case LoadOp(a, n) => (m, Loaded(Load(m, a, n)))
    case StoreOp(a, n, value) => var w := Store(m, a, n, value); (w.mem, Stored(w.error))
    case ResetOp => (m.(blocks := map[]), Done)
  }

  function Run(m: Mem, ops: seq<Operation>): (r: (Mem, seq<Observation>))
    requires Valid(m)
    ensures Valid(r.0)
  {
    if ops == [] then (m, [])
    else
      var (m1, before) := Run(m, ops[..|ops| - 1]);
      var (m2, last) := Step(m1, ops[|ops| - 1]);
      (m2, before + [last])
  }

  /** A flat memory: the bytes written since it was last reset; all others are zero. */
  type Flat = map<nat, bv8>

  function FlatAt(f: Flat, a: nat): bv8 { if a in f then f[a] else 0 }

  function FlatRead(f: Flat, size: nat, a: Address, n: nat): Result<seq<bv8>, MemoryError> {
    if n == 0 then Ok([])
    else
      var bytes :- FlatRead(f, size, a, n - 1);
      var b := Plus(a, n - 1);
      if b >= size then Err(AddressOutOfRange(b)) else Ok(bytes + [FlatAt(f, b)])
  }

  function FlatWrite(f: Flat, size: nat, a: Address, bytes: seq<bv8>): (Flat, Option<MemoryError>) {
    if bytes == [] then (f, None)
    else
      var (g, error) := FlatWrite(f, size, a, bytes[..|bytes| - 1]);
      var b := Plus(a, |bytes| - 1);
      if error.Some? then (g, error)
      else if b >= size then (g, Some(AddressOutOfRange(b)))
      else (g[b := bytes[|bytes| - 1]], None)
  }

  function FlatStep(f: Flat, size: nat, op: Operation): (Flat, Observation) {
    match op
    case LoadOp(a, n) =>
      if a >= (size - (n - 1)) % TWO64 then (f, Loaded(Err(AddressOutOfRange(a))))
      else
        (match FlatRead(f, size, a, n)
         case Ok(bytes) => (f, Loaded(Ok(FromBytes(bytes))))
         case Err(e) => (f, Loaded(Err(e))))
    case StoreOp(a, n, value) =>
      if a >= (size - (n - 1)) % TWO64 then (f, Stored(Some(AddressOutOfRange(a))))
      else
        var (g, error) := FlatWrite(f, size, a, ToBytes(value, n));
        (g, Stored(error))
    case ResetOp => (map[], Done)
  }

  function FlatRun(f: Flat, size: nat, ops: seq<Operation>): (Flat, seq<Observation>) {
    if ops == [] then (f, [])
    else
      var (f1, before) := FlatRun(f, size, ops[..|ops| - 1]);
      var (f2, last) := FlatStep(f1, size, ops[|ops| - 1]);
      (f2, before + [last])
  }

  /** The blocks that hold the addresses of `f`. */
  function Touched(f: Flat, blockSize: nat): set<nat>
    requires blockSize > 0
  {
    set a | a in f :: BlockIndex(a, blockSize)
  }

  /** Same bytes, and the blocks that are present are those that hold a written address. */
  ghost predicate Refines(m: Mem, f: Flat) {
    && Valid(m)
    && (forall a: nat :: At(m, a) == FlatAt(f, a))
    && m.blocks.Keys == Touched(f, m.blockSize)
  }

  lemma PutRefines(m: Mem, f: Flat, a: nat, v: bv8)
    requires Refines(m, f)
    ensures Refines(Put(m, a, v), f[a := v])
  {
    PutFrame(m, a, v);
    forall x: nat ensures At(Put(m, a, v), x) == FlatAt(f[a := v], x) { PutAt(m, a, v, x); }
    TouchedGrows(f, a, v, m.blockSize);
  }

  lemma TouchedGrows(f: Flat, a: nat, v: bv8, blockSize: nat)
    requires blockSize > 0
    ensures Touched(f[a := v], blockSize) == Touched(f, blockSize) + {BlockIndex(a, blockSize)}
  {
    var g := f[a := v];
    forall k | k in Touched(f, blockSize) + {BlockIndex(a, blockSize)} ensures k in Touched(g, blockSize) {
      if k in Touched(f, blockSize) {
        var b :| b in f && BlockIndex(b, blockSize) == k;
        assert b in g;
      } else {
        assert a in g;
      }
    }
  }

  lemma {:induction false} ReadRefines(m: Mem, f: Flat, a: Address, n: nat)
    requires Refines(m, f)
    ensures ReadFrom(m, a, n) == FlatRead(f, m.size, a, n)
  {
    if n > 0 { ReadRefines(m, f, a, n - 1); }
  }

  lemma {:induction false} WriteRefines(m: Mem, f: Flat, a: Address, bytes: seq<bv8>)
    requires Refines(m, f)
    ensures var w, g := WriteFrom(m, a, bytes), FlatWrite(f, m.size, a, bytes);
      Refines(w.mem, g.0) && w.error == g.1 && w.mem.size == m.size && w.mem.blockSize == m.blockSize
  {
    if bytes == [] {
    } else {
      var k := |bytes| - 1;
      WriteRefines(m, f, a, bytes[..k]);
      var w, g := WriteFrom(m, a, bytes[..k]), FlatWrite(f, m.size, a, bytes[..k]);
      if w.error.None? {
        PutRefines(w.mem, g.0, Plus(a, k), bytes[k]);
        PutFrame(w.mem, Plus(a, k), bytes[k]);
      }
    }
  }

  lemma ResetRefines(m: Mem)
    requires Valid(m)
    ensures Refines(m.(blocks := map[]), map[])
  {
  }

  lemma StepRefines(m: Mem, f: Flat, op: Operation)
    requires Refines(m, f)
    ensures var r, s := Step(m, op), FlatStep(f, m.size, op);
      Refines(r.0, s.0) && r.1 == s.1 && r.0.size == m.size && r.0.blockSize == m.blockSize
  {
    hide At, FlatAt, ReadFrom, WriteFrom, FlatRead, FlatWrite, FromBytes, ToBytes;
    match op
    case LoadOp(a, n) => ReadRefines(m, f, a, n);
    case StoreOp(a, n, value) => WriteRefines(m, f, a, ToBytes(value, n));
    case ResetOp => ResetRefines(m);
  }

  /**
   Every run of reads, writes and resets observes on the sparse memory what it observes on a flat one,
   and leaves present exactly the blocks written to since the last reset, each at its full length.
   */
  lemma {:induction false} RunRefines(m: Mem, f: Flat, ops: seq<Operation>)
    requires Refines(m, f)
    ensures var r, s := Run(m, ops), FlatRun(f, m.size, ops);
      Refines(r.0, s.0) && r.1 == s.1 && r.0.size == m.size && r.0.blockSize == m.blockSize
  {
    if ops == [] {
    } else {
      var before := ops[..|ops| - 1];
      RunRefines(m, f, before);
      StepRefines(Run(m, before).0, FlatRun(f, m.size, before).0, ops[|ops| - 1]);
    }
  }

  /** In particular from a new memory, which refines the flat memory nothing was written to. */
  lemma FreshRunRefines(blockSize: nat, size: nat, ops: seq<Operation>)
    requires blockSize > 0 && size < TWO64
    ensures var m := Mem(map[], blockSize, size);
      && Run(m, ops).1 == FlatRun(map[], size, ops).1
      && Refines(Run(m, ops).0, FlatRun(map[], size, ops).0)
  {
    RunRefines(Mem(map[], blockSize, size), map[], ops);
  }

  /** Bytes that do not all lie in memory are not all written. */
  lemma {:induction false} WriteFails(m: Mem, a: Address, bytes: seq<bv8>)
    requires Valid(m) && bytes != [] && a + |bytes| > m.size
    ensures WriteFrom(m, a, bytes).error.Some?
    decreases |bytes|
  {
    hide Put, Valid;
    var prefix := bytes[..|bytes| - 1];
    if a + |prefix| <= m.size {
      WriteFromInside(m, a, prefix);
      NoWrap(m, a, |prefix|);
    } else if prefix != [] {
      WriteFails(m, a, prefix);
    } else {
      assert WriteFrom(m, a, prefix) == Written(m, None);
      PlusNothing(a);
    }
  }

  lemma NoWrap(m: Mem, a: Address, n: nat)
    requires Valid(m) && a + n <= m.size
    ensures Plus(a, n) == a + n
  {
  }

  lemma PlusNothing(a: Address)
    ensures Plus(a, 0) == a
  {
  }

  /** A sized write succeeds exactly when all its bytes lie in memory, whatever the size of the memory. */
  lemma StoreSucceedsIff(m: Mem, a: Address, n: Width, value: bv64)
    requires Valid(m)
    ensures Store(m, a, n, value).error.None? <==> a + n <= m.size
  {
    if a + n <= m.size {
      StoreInside(m, a, n, value);
    } else {
      WriteFails(m, a, ToBytes(value, n));
    }
  }
}
