/** Small definitions shared by every model: options and the integer widths of the Go types. */
module Base {
  datatype Option<+T> = None | Some(value: T)

  type uint16 = n: int | 0 <= n < 0x1_0000
  type uint32 = n: int | 0 <= n < 0x1_0000_0000
  type uint64 = n: int | 0 <= n < 0x1_0000_0000_0000_0000
  type int64 = n: int | -0x8000_0000_0000_0000 <= n < 0x8000_0000_0000_0000

  /** Go's uint32 and uint64 arithmetic wraps around. */
  function WrapU32(n: int): uint32 {
    n % 0x1_0000_0000
  }

  function WrapU64(n: int): uint64 {
    n % 0x1_0000_0000_0000_0000
  }

  /** Go's int is 64 bits wide; its arithmetic wraps around in two's complement. */
  function Wrap64(n: int): int64 {
    var r := n % 0x1_0000_0000_0000_0000;
    if r < 0x8000_0000_0000_0000 then r else r - 0x1_0000_0000_0000_0000
  }

  /** How many times 2^64 the wrap takes away. */
  ghost function Wraps(n: int): (k: int)
    ensures n == Wrap64(n) + k * 0x1_0000_0000_0000_0000
  {
    (n - Wrap64(n)) / 0x1_0000_0000_0000_0000
  }

  lemma WrapShift(n: int, k: int)
    ensures Wrap64(n + k * 0x1_0000_0000_0000_0000) == Wrap64(n)
  {
  }

  /** Wrapping early does not change a wrapped product or sum. */
  lemma WrapMul(a: int, b: int)
    ensures Wrap64(a * Wrap64(b)) == Wrap64(a * b)
  {
    var k := Wraps(b);
    assert a * b == a * Wrap64(b) + (a * k) * 0x1_0000_0000_0000_0000;
    WrapShift(a * Wrap64(b), a * k);
  }

  lemma WrapAdd(a: int, b: int)
    ensures Wrap64(a + Wrap64(b)) == Wrap64(a + b)
  {
    WrapShift(a + Wrap64(b), Wraps(b));
  }
}
