/** Fixed-width integers of the x86_64 C ABI the kernel is compiled for, and the
    conversions between them that the sources perform. */
module Machine {
  const WORD := 0x1_0000_0000_0000_0000
  const HALF := 0x1_0000_0000

  type Byte = b: int | 0 <= b < 256
  /** uintptr_t and size_t */
  type Word = w: int | 0 <= w < WORD
  /** intptr_t */
  type Int64 = i: int | -0x8000_0000_0000_0000 <= i < 0x8000_0000_0000_0000
  /** uint32_t */
  type Word32 = w: int | 0 <= w < HALF
  /** int */
  type Int32 = i: int | -0x8000_0000 <= i < 0x8000_0000

  datatype Option<+T> = None | Some(value: T)

  function Min(a: nat, b: nat): nat {
    if a < b then a else b
  }

  /** Conversion of a signed integer to uintptr_t. */
  function ToWord(i: int): Word {
    i % WORD
  }

  /** Conversion of a uintptr_t to intptr_t. */
  function ToInt64(w: Word): Int64 {
    if w < 0x8000_0000_0000_0000 then w else w - WORD
  }

  /** Conversion of a uintptr_t to a 32-bit enum: only the low half survives. */
  function Low32(w: Word): Word32 {
    w % HALF
  }

  /** Conversion of a uintptr_t to int. */
  function ToInt32(w: Word): Int32 {
    var low := Low32(w);
    if low < 0x8000_0000 then low else low - HALF
  }

  /** `n` little-endian bytes of `v`. */
  function LittleEndian(v: nat, n: nat): (bytes: seq<Byte>)
    ensures |bytes| == n
  {
    if n == 0 then [] else [v % 256] + LittleEndian(v / 256, n - 1)
  }

  function FromLittleEndian(bytes: seq<Byte>): nat {
    if bytes == [] then 0 else bytes[0] + 256 * FromLittleEndian(bytes[1..])
  }

  function Pow256(n: nat): nat {
    if n == 0 then 1 else 256 * Pow256(n - 1)
  }

  /** The least significant byte comes first. */
  lemma LeastSignificantFirst(low: Byte, high: nat, n: nat)
    ensures LittleEndian(low + 256 * high, n + 1) == [low] + LittleEndian(high, n)
  {
    assert (low + 256 * high) / 256 == high;
  }

  lemma {:induction false} LittleEndianRoundTrip(v: nat, n: nat)
    requires v < Pow256(n)
    ensures FromLittleEndian(LittleEndian(v, n)) == v
  {
    if n == 0 {
    } else {
      LittleEndianRoundTrip(v / 256, n - 1);
      assert LittleEndian(v, n)[1..] == LittleEndian(v / 256, n - 1);
    }
  }

  /** `ram` with `bytes` stored from address `at` on. Storing nothing never looks at `at`. */
  function Splice(ram: seq<Byte>, at: nat, bytes: seq<Byte>): (r: seq<Byte>)
    requires bytes != [] ==> at + |bytes| <= |ram|
    ensures |r| == |ram|
    ensures forall a | 0 <= a < |ram| ::
              r[a] == if at <= a < at + |bytes| then bytes[a - at] else ram[a]
  {
    if bytes == [] then ram else ram[..at] + bytes + ram[at + |bytes|..]
  }

  /** The `len` bytes at address `at`. Fetching nothing never looks at `at`. */
  function Fetch(ram: seq<Byte>, at: nat, len: nat): (r: seq<Byte>)
    requires len > 0 ==> at + len <= |ram|
    ensures |r| == len
    ensures forall i | 0 <= i < len :: r[i] == ram[at + i]
  {
    if len == 0 then [] else ram[at..at + len]
  }
}
