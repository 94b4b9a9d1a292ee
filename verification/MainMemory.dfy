/**
 The sparse memory of src/vm/main_memory.cpp: a map of lazily allocated, zero-filled blocks.

 `Mem` is the state of a memory and the functions on it say what each operation does; the class
 `Memory` is the object that carries the operations out in place. The theorems about runs of
 operations, against a flat byte map, are in MemoryTheorems.
 */
module MainMemory {
  import opened Words
  import opened Text
  import opened Bytes

  type Address = a: int | 0 <= a < 0x1_0000_0000_0000_0000

  datatype MemoryError = AddressOutOfRange(address: nat)

  /** `size` is `memory_size_`; blocks are numbered by address / blockSize. */
  datatype Mem = Mem(blocks: map<nat, seq<bv8>>, blockSize: nat, size: nat)

  /** The size is a `uint64_t`, and every block that is present has its full length. */
  ghost predicate Valid(m: Mem) {
    m.blockSize > 0 && m.size < TWO64 && forall k <- m.blocks :: |m.blocks[k]| == m.blockSize
  }

  /** The quotient `a / size`, by repeated subtraction. */
  function BlockIndex(a: nat, size: nat): nat
    requires size > 0
  {
    if a < size then 0 else 1 + BlockIndex(a - size, size)
  }

  /** The remainder `a % size`. */
  function BlockOffset(a: nat, size: nat): (r: nat)
    requires size > 0
    ensures r < size
  {
    if a < size then a else BlockOffset(a - size, size)
  }

  lemma BlockDivision(a: nat, size: nat)
    requires size > 0
    ensures BlockIndex(a, size) == a / size && BlockOffset(a, size) == a % size
  {
    BlockParts(a, size);
    QuotientIsUnique(a, size, BlockIndex(a, size), BlockOffset(a, size));
  }

  lemma {:induction false} BlockParts(a: nat, size: nat)
    requires size > 0
    ensures a == BlockIndex(a, size) * size + BlockOffset(a, size)
  {
    if a >= size { BlockParts(a - size, size); }
  }

  lemma QuotientIsUnique(a: nat, size: nat, q: nat, r: nat)
    requires r < size && a == q * size + r
    ensures a / size == q && a % size == r
  {
    var p := a / size;
    assert a == p * size + a % size;
    if p < q {
      MultiplyMore(p, q, size);
    } else if q < p {
      MultiplyMore(q, p, size);
    }
  }

  lemma {:induction false} MultiplyMore(p: nat, q: nat, size: nat)
    requires p < q
    ensures q * size >= p * size + size
  {
    assert q * size == (q - 1) * size + size;
    if p < q - 1 { MultiplyMore(p, q - 1, size); }
  }

  /** The byte at an address; a block that is not present reads as zeros. */
  function At(m: Mem, a: nat): bv8
    requires Valid(m)
  {
    var k := BlockIndex(a, m.blockSize);
    if k in m.blocks then m.blocks[k][BlockOffset(a, m.blockSize)] else 0
  }

  function Zeros(n: nat): seq<bv8> { seq(n, _ => 0) }

  /** Storing a byte, after creating its block when it is not present. */
  function Put(m: Mem, a: nat, v: bv8): (m': Mem)
    requires Valid(m)
    ensures Valid(m')
  {
    var k := BlockIndex(a, m.blockSize);
    var block := if k in m.blocks then m.blocks[k] else Zeros(m.blockSize);
    m.(blocks := m.blocks[k := block[BlockOffset(a, m.blockSize) := v]])
  }

  /** `Read`. */
  function ReadAt(m: Mem, a: Address): Result<bv8, MemoryError>
    requires Valid(m)
  {
    if a >= m.size then Err(AddressOutOfRange(a)) else Ok(At(m, a))
  }

  /** `address + i` in 64-bit arithmetic. */
  function Plus(a: Address, i: nat): Address { (a + i) % TWO64 }

  /** The generic read loop over a given number of bytes: the bytes, or the first failure. */
  function ReadFrom(m: Mem, a: Address, n: nat): Result<seq<bv8>, MemoryError>
    requires Valid(m)
  {
    if n == 0 then Ok([])
    else
      var bytes :- ReadFrom(m, a, n - 1);
      var byte :- ReadAt(m, Plus(a, n - 1));
      Ok(bytes + [byte])
  }

  /** What a write leaves behind: the state, and the failure if it stopped at one. */
  datatype Written = Written(mem: Mem, error: Option<MemoryError>)

  /** The generic write loop: bytes are stored one by one until one fails. */
  function WriteFrom(m: Mem, a: Address, bytes: seq<bv8>): (w: Written)
    requires Valid(m)
    ensures Valid(w.mem)
  {
    if bytes == [] then Written(m, None)
    else
      var w := WriteFrom(m, a, bytes[..|bytes| - 1]);
      if w.error.Some? then w
      else
        var b := Plus(a, |bytes| - 1);
        if b >= m.size then Written(w.mem, Some(AddressOutOfRange(b)))
        else Written(Put(w.mem, b, bytes[|bytes| - 1]), None)
  }

  /** `memory_size_ - (n - 1)` in 64-bit arithmetic: the first address that an n-byte access rejects. */
  function Limit(m: Mem, n: Width): nat { (m.size - (n - 1)) % TWO64 }

  /** `ReadByte`, `ReadHalfWord`, `ReadWord`, `ReadDoubleWord`. */
  function Load(m: Mem, a: Address, n: Width): Result<bv64, MemoryError>
    requires Valid(m)
  {
    if a >= Limit(m, n) then Err(AddressOutOfRange(a))
    else
      var bytes :- ReadFrom(m, a, n);
      Ok(FromBytes(bytes))
  }

  /** `WriteByte`, `WriteHalfWord`, `WriteWord`, `WriteDoubleWord`. */
  function Store(m: Mem, a: Address, n: Width, value: bv64): (w: Written)
    requires Valid(m)
    ensures Valid(w.mem)
  {
    if a >= Limit(m, n) then Written(m, Some(AddressOutOfRange(a)))
    else WriteFrom(m, a, ToBytes(value, n))
  }

  class Memory {
    var blocks: map<nat, seq<bv8>>
    const blockSize: nat
    const memorySize: nat

    ghost function State(): Mem
      reads this
    {
      Mem(blocks, blockSize, memorySize)
    }

    /** `block_size_` and `memory_size_` are taken from the configuration when the memory is made. */
    constructor (blockSize: nat, memorySize: nat)
      requires blockSize > 0 && memorySize < TWO64
      ensures State() == Mem(map[], blockSize, memorySize) && Valid(State())
    {
      this.blockSize, this.memorySize, blocks := blockSize, memorySize, map[];
    }

    method Reset()
      modifies this
      ensures State() == old(State()).(blocks := map[])
    {
      blocks := map[];
    }

    method Read(address: Address) returns (r: Result<bv8, MemoryError>)
      requires Valid(State())
      ensures r == ReadAt(State(), address)
    {
      if address >= memorySize {
        return Err(AddressOutOfRange(address));
      }
      var blockIndex, offset := address / blockSize, address % blockSize;
      BlockDivision(address, blockSize);
      if blockIndex !in blocks {
        return Ok(0);
      }
      return Ok(blocks[blockIndex][offset]);
    }

    method EnsureBlockExists(blockIndex: nat)
      requires Valid(State())
      modifies this
      ensures Valid(State()) && blockIndex in blocks
      ensures blocks == if blockIndex in old(blocks) then old(blocks) else old(blocks)[blockIndex := Zeros(blockSize)]
    {
      if blockIndex !in blocks {
        blocks := blocks[blockIndex := seq(blockSize, _ => 0)];
      }
    }

    method Write(address: Address, value: bv8) returns (error: Option<MemoryError>)
      requires Valid(State())
      modifies this
      ensures Valid(State())
      ensures address >= memorySize ==> State() == old(State()) && error == Some(AddressOutOfRange(address))
      ensures address < memorySize ==> State() == Put(old(State()), address, value) && error == None
    {
      if address >= memorySize {
        return Some(AddressOutOfRange(address));
      }
      var blockIndex, offset := address / blockSize, address % blockSize;
      BlockDivision(address, blockSize);
      EnsureBlockExists(blockIndex);
      blocks := blocks[blockIndex := blocks[blockIndex][offset := value]];
      return None;
    }

    method ReadGeneric(address: Address, n: Width) returns (r: Result<bv64, MemoryError>)
      requires Valid(State())
      ensures r == match ReadFrom(State(), address, n) { case Ok(bytes) => Ok(FromBytes(bytes)) case Err(e) => Err(e) }
    {
      var value: bv64 := 0;
      ghost var bytes := [];
      for i := 0 to n
        invariant ReadFrom(State(), address, i) == Ok(bytes) && |bytes| == i
        invariant value == FromBytes(bytes)
      {
        var byte := Read(Plus(address, i));
        if byte.Err? {
          ReadFailureStays(State(), address, i + 1, n);
          return Err(byte.error);
        }
        value := Or(value, Place(byte.value, i));
        assert (bytes + [byte.value])[..i] == bytes;
        bytes := bytes + [byte.value];
      }
      return Ok(value);
    }

    method WriteGeneric(address: Address, n: Width, value: bv64) returns (error: Option<MemoryError>)
      requires Valid(State())
      modifies this
      ensures Valid(State())
      ensures Written(State(), error) == WriteFrom(old(State()), address, ToBytes(value, n))
    {
      ghost var bytes := ToBytes(value, n);
      for i := 0 to n
        invariant Valid(State())
        invariant Written(State(), None) == WriteFrom(old(State()), address, bytes[..i])
      {
        assert bytes[..i + 1][..i] == bytes[..i];
        error := Write(Plus(address, i), ByteOf(value, i));
        if error.Some? {
          WriteFailureStays(old(State()), address, bytes, i + 1);
          return;
        }
      }
      assert bytes[..n] == bytes;
      return None;
    }

    method LoadSized(address: Address, n: Width) returns (r: Result<bv64, MemoryError>)
      requires Valid(State())
      ensures r == Load(State(), address, n)
    {
      if address >= (memorySize - (n - 1)) % TWO64 {
        return Err(AddressOutOfRange(address));
      }
      r := ReadGeneric(address, n);
    }

    method StoreSized(address: Address, n: Width, value: bv64) returns (error: Option<MemoryError>)
      requires Valid(State())
      modifies this
      ensures Valid(State())
      ensures Written(State(), error) == Store(old(State()), address, n, value)
    {
      if address >= (memorySize - (n - 1)) % TWO64 {
        return Some(AddressOutOfRange(address));
      }
      error := WriteGeneric(address, n, value);
    }
  }

  lemma {:induction false} ReadFailureStays(m: Mem, a: Address, i: nat, n: nat)
    requires Valid(m) && i <= n && ReadFrom(m, a, i).Err?
    ensures ReadFrom(m, a, n) == ReadFrom(m, a, i)
    decreases n
  {
    if i < n { ReadFailureStays(m, a, i, n - 1); }
  }

  lemma {:induction false} WriteFailureStays(m: Mem, a: Address, bytes: seq<bv8>, i: nat)
    requires Valid(m) && i <= |bytes| && WriteFrom(m, a, bytes[..i]).error.Some?
    ensures WriteFrom(m, a, bytes) == WriteFrom(m, a, bytes[..i])
    decreases |bytes|
  {
    if i == |bytes| {
      assert bytes[..i] == bytes;
    } else {
      var prefix := bytes[..|bytes| - 1];
      assert prefix[..i] == bytes[..i];
      WriteFailureStays(m, a, prefix, i);
    }
  }
}
