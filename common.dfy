/** Shared value types: optional values, results carrying an error message,
  * and the integer operations of Go that differ from Dafny's. */
module Common {

  datatype Option<T> = None | Some(value: T)
  {
    predicate IsSome() { this.Some? }
  }

  /** A Go `(value, error)` pair: either a value or an error message. */
  datatype Result<T> = Ok(value: T) | Err(msg: string)

  /** Go's `/` on signed integers truncates toward zero. */
  function GoDiv(a: int, b: int): (q: int)
    requires b != 0
    ensures b > 0 && a >= 0 ==> q == a / b
    ensures (a >= 0) == (b > 0) || a == 0 ==> q >= 0
    ensures -9223372036854775808 <= a <= 9223372036854775807 && b > 0 ==>
              -9223372036854775808 <= q <= 9223372036854775807
  {
    if (a >= 0) == (b > 0) then
      (if a >= 0 then a / b else (-a) / (-b))
    else
      -((if a >= 0 then a else -a) / (if b > 0 then b else -b))
  }

  const INT64_MIN: int := -0x8000_0000_0000_0000
  const INT64_MAX: int := 0x7FFF_FFFF_FFFF_FFFF

  predicate IsInt64(x: int) { INT64_MIN <= x <= INT64_MAX }

  /** Conversion to `uint8`: keeps the low eight bits. */
  function ToUint8(x: int): (r: int)
    ensures 0 <= r < 256
    ensures 0 <= x < 256 ==> r == x
    ensures (x - r) % 256 == 0
  {
    x % 256
  }

  /** Conversion to `int16`: keeps the low sixteen bits as a signed value. */
  function ToInt16(x: int): (r: int)
    ensures -32768 <= r < 32768
    ensures -32768 <= x < 32768 ==> r == x
    ensures (x - r) % 65536 == 0
  {
    var m := x % 65536;
    if m >= 32768 then m - 65536 else m
  }

  /** Conversion to `int64` (and the wrap-around of `int64` arithmetic):
    * keeps the low 64 bits as a signed value. */
  function ToInt64(x: int): (r: int)
    ensures IsInt64(r)
    ensures IsInt64(x) ==> r == x
    ensures (x - r) % 0x1_0000_0000_0000_0000 == 0
  {
    var m := x % 0x1_0000_0000_0000_0000;
    if m >= 0x8000_0000_0000_0000 then m - 0x1_0000_0000_0000_0000 else m
  }

  /** Truncating division by a positive divisor is monotone. */
  lemma GoDivMonotone(a: int, b: int, d: int)
    requires a <= b && d > 0
    ensures GoDiv(a, d) <= GoDiv(b, d)
  {
    if b < 0 {
      DivMonotone(-b, -a, d);
    } else if a >= 0 {
      DivMonotone(a, b, d);
    }
  }

  lemma DivMonotone(a: int, b: int, d: int)
    requires 0 <= a <= b && d > 0
    ensures a / d <= b / d
  {
    var qa, qb := a / d, b / d;
    assert d * qa <= a;
    assert b < d * (qb + 1);
    MulCancel(d, qa, qb + 1);
  }

  lemma MulCancel(d: int, x: int, y: int)
    requires d > 0 && d * x < d * y
    ensures x < y
  {
    if x >= y {
      MulMonotone(d, y, x);
    }
  }

  lemma MulMonotone(d: int, x: int, y: int)
    requires d > 0 && x <= y
    ensures d * x <= d * y
  {
    assert d * y - d * x == d * (y - x);
  }

  /** A quotient is pinned down by bounds on the dividend. */
  lemma QuotientBetween(a: int, d: int, lo: int, hi: int)
    requires d > 0 && d * lo <= a < d * hi
    ensures lo <= a / d < hi
  {
    var q := a / d;
    assert d * q <= a < d * q + d;
    assert d * (q + 1) == d * q + d;
    if q < lo {
      MulMonotone(d, q + 1, lo);
    }
    if q >= hi {
      MulMonotone(d, hi, q);
    }
  }

  /** Scaling a step count `k` of 99 up to a range `r` and back, both with
    * truncating division, loses at most one step when the range has at
    * least 99 values. */
  lemma ScaleRoundTrip(k: int, r: int)
    requires 0 <= k <= 99 && r >= 99
    ensures 0 <= k * r / 99 <= r
    ensures k - 1 <= (k * r / 99) * 99 / r <= k
    ensures k * r / 99 == 0 ==> k == 0
  {
    var kr := k * r;
    MulMonotone(r, k, 99);
    MulMonotone(r, 0, k);
    assert 0 <= kr <= 99 * r;
    QuotientBetween(kr, 99, 0, r + 1);
    var q := kr / 99;
    assert 99 * q <= kr < 99 * q + 99;
    assert r * (k - 1) == kr - r;
    assert r * (k + 1) == kr + r;
    QuotientBetween(q * 99, r, k - 1, k + 1);
    if k > 0 {
      MulMonotone(r, 1, k);
    }
  }

  /** A subset as large as its superset is the whole of it. */
  lemma {:induction false} SubsetOfSameSize<K>(a: set<K>, b: set<K>)
    requires a <= b && |a| == |b|
    ensures a == b
  {
    if a != b {
      var x :| x in b && x !in a;
      assert a <= b - {x};
      assert |b - {x}| == |b| - 1;
      SubsetCard(a, b - {x});
      assert false;
    }
  }

  lemma {:induction false} SubsetCard<K>(a: set<K>, b: set<K>)
    requires a <= b
    ensures |a| <= |b|
  {
    assert b == a + (b - a);
  }

  /** Appending sequences is associative. */
  lemma AppendAssoc<T>(a: seq<T>, b: seq<T>, c: seq<T>)
    ensures (a + b) + c == a + (b + c)
  {
  }

  /** Dropping `i` elements and then `j` drops `i + j`. */
  lemma DropDrop<T>(s: seq<T>, i: nat, j: nat)
    requires i + j <= |s|
    ensures s[i..][j..] == s[i + j..]
  {
  }
}
