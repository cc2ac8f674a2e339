/** Fixed-width integers of the C++ sources, and the conversions between them. */
module Words {

  const TWO_31: int := 0x8000_0000
  const TWO_32: int := 0x1_0000_0000
  const TWO_63: int := 0x8000_0000_0000_0000
  const TWO_64: int := 0x1_0000_0000_0000_0000

  datatype Option<+T> = None | Some(value: T)

  type Byte = x: int | 0 <= x < 256
  type Int32 = x: int | -TWO_31 <= x < TWO_31
  type UInt32 = x: int | 0 <= x < TWO_32
  type Int64 = x: int | -TWO_63 <= x < TWO_63
  type UInt64 = x: int | 0 <= x < TWO_64

  /** Unsigned arithmetic wraps. */
  function ToUInt32(x: int): UInt32 {
    x % TWO_32
  }

  /** Conversion to a signed 32-bit integer keeps the low 32 bits. */
  function ToInt32(x: int): Int32 {
    var w := x % TWO_32;
    if w < TWO_31 then w else w - TWO_32
  }

  function ToInt64(x: int): Int64 {
    var w := x % TWO_64;
    if w < TWO_63 then w else w - TWO_64
  }

  /** C++ signed division and remainder round toward zero. */
  function TruncDiv(a: int, b: nat): int
    requires b > 0
  {
    if a >= 0 then a / b else -(-a / b)
  }

  function TruncMod(a: int, b: nat): int
    requires b > 0
  {
    if a >= 0 then a % b else -(-a % b)
  }

  /** What rounding toward zero means. */
  lemma TruncIs(a: int, b: nat)
    requires b > 0
    ensures var q, r := TruncDiv(a, b), TruncMod(a, b);
            && a == q * b + r && -(b as int) < r < b
            && (if a >= 0 then q >= 0 && r >= 0 else q <= 0 && r <= 0)
  {
    if a >= 0 {
      Parts(a, b);
    } else {
      Parts(-a, b);
      MulNegative(-a / b, b);
    }
  }

  lemma Parts(m: nat, b: nat)
    requires b > 0
    ensures m == (m / b) * b + m % b && m / b >= 0
  {
  }

  lemma MulNegative(x: int, y: int)
    ensures -x * y == -(x * y)
  {
  }

  function Min(a: int, b: int): int {
    if a < b then a else b
  }

  function Max(a: int, b: int): int {
    if a < b then b else a
  }

  lemma WrapAdd(a: int, b: int)
    ensures ToUInt32(ToUInt32(a) + b) == ToUInt32(a + b)
  {
  }

  // --- products and quotients ---

  lemma MulNonNegative(n: int, d: int)
    requires n >= 0 && d >= 0
    ensures n * d >= 0
  {
  }

  lemma MulGap(n: int, x: int, y: int)
    requires n > 0
    ensures x < y ==> n * x + n <= n * y
  {
    if x < y {
      MulNonNegative(n, y - x - 1);
      assert n * (y - x - 1) == n * y - n * x - n;
    }
  }

  lemma MulAdd(a: int, b: int, t: int)
    ensures (a + b) * t == a * t + b * t
  {
  }

  lemma DivUnique(a: nat, b: nat, q: nat, r: nat)
    requires b > 0 && r < b && a == q * b + r
    ensures a / b == q && a % b == r
  {
    MulGap(b, q, a / b);
    MulGap(b, a / b, q);
    assert a == b * (a / b) + a % b;
  }

  lemma DivMonotone(a: nat, c: nat, b: nat)
    requires b > 0 && a <= c
    ensures a / b <= c / b
    ensures a / b == c / b ==> c % b - a % b == c - a
  {
    MulGap(b, c / b, a / b);
    assert a == b * (a / b) + a % b && c == b * (c / b) + c % b;
  }

  /** Counting up either stays in its block or starts the next one. */
  lemma DivStep(a: nat, b: nat)
    requires b > 0
    ensures a % b + 1 < b ==> (a + 1) / b == a / b && (a + 1) % b == a % b + 1
    ensures a % b + 1 == b ==> (a + 1) / b == a / b + 1 && (a + 1) % b == 0
  {
    if a % b + 1 < b {
      DivUnique(a + 1, b, a / b, a % b + 1);
    } else {
      DivUnique(a + 1, b, a / b + 1, 0);
    }
  }
}
