/** Vocabulary shared by the component models. */
module Base {
  datatype Option<+T> = None | Some(value: T)

  datatype Result<+T, +E> = Ok(value: T) | Err(error: E)

  type Byte = b: int | 0 <= b < 256

  type Word = w: int | 0 <= w < 0x1_0000

  /** Big-endian value of two bytes. */
  function BigEndian(high: Byte, low: Byte): Word {
    high * 256 + low
  }

  /** The two big-endian bytes of a 16-bit number. */
  function WordBytes(w: Word): (bytes: seq<Byte>)
    ensures |bytes| == 2
    ensures BigEndian(bytes[0], bytes[1]) == w
  {
    [w / 256, w % 256]
  }

  lemma BytesOfWord(high: Byte, low: Byte)
    ensures WordBytes(BigEndian(high, low)) == [high, low]
  {
    var w := BigEndian(high, low);
    assert w / 256 == high && w % 256 == low;
  }

  /** Everything sent in a list of chunks, in order. */
  function Flatten<T>(chunks: seq<seq<T>>): seq<T> {
    if chunks == [] then [] else chunks[0] + Flatten(chunks[1..])
  }

  lemma {:induction false} FlattenAppend<T>(left: seq<seq<T>>, right: seq<seq<T>>)
    ensures Flatten(left + right) == Flatten(left) + Flatten(right)
  {
    if left == [] {
      assert left + right == right;
    } else {
      assert (left + right)[1..] == left[1..] + right;
      FlattenAppend(left[1..], right);
    }
  }

  lemma Product(a: nat, b: nat)
    requires a > 0
    ensures b <= a * b
  {
  }

  /** Quotient and remainder are unique. */
  lemma Division(a: nat, d: nat, q: nat, r: nat)
    requires d > 0 && r < d && a == d * q + r
    ensures a / d == q && a % d == r
  {
    var k := a / d - q;
    assert d * k == r - a % d;
    if k > 0 {
      Product(k, d);
    }
  }

  lemma NestedQuotient(a: nat, m: nat, p: nat)
    requires m > 0 && p > 0
    ensures a / m / p == a / (m * p)
  {
    var q, r, t := a / m / p, a / m % p, a % m;
    Regroup(m, p, q, r);
    Larger(m, r + 1, p);
    Regroup(m, 1, r, 1);
    Division(a, m * p, q, m * r + t);
  }

  lemma Regroup(m: nat, p: nat, q: nat, r: nat)
    ensures m * (p * q + r) == m * p * q + m * r
  {
  }

  lemma Larger(m: nat, a: nat, b: nat)
    requires a <= b
    ensures m * a <= m * b
  {
  }
}
