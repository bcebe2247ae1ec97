/**
 Shared vocabulary of the log shipper model: serialized records as byte
 sequences, the optional and failure-carrying results that stand in for Java's
 `null` and exceptions, the warnings handed to the status reporter, and the
 byte-count and concatenation functions every queue relies on.
 */
module Common {

  /** One octet of a serialized record (a Java `byte`, read unsigned). */
  type Byte = b: int | 0 <= b < 256

  /** A serialized log record: the contents of one Java `byte[]`. */
  type Bytes = seq<Byte>

  /** `None` stands for a Java `null` reference. */
  datatype Option<+T> = None | Some(value: T)

  /** The exceptions raised while configuring a sender or a queue. */
  datatype Error =
    | ParameterError(parameter: string, detail: string)
    | NullPointer(detail: string)
    | IllegalArgument(detail: string)

  datatype Result<+T> = Success(value: T) | Failure(error: Error)

  /** The warnings the queues hand to the status reporter when they drop a record. */
  datatype Warning =
    | MemoryThresholdCrossed(thresholdMb: int)
    | DiskThresholdCrossed(usedPercent: int, thresholdPercent: int)

  const ONE_MEGABYTE: int := 1024 * 1024

  /** The byte `'\n'` that terminates every record on the wire. */
  const NEW_LINE: Byte := 10

  const INT_MODULUS: int := 0x1_0000_0000
  const INT_MIN: int := -0x8000_0000

  /** `x` fits in a Java `int`. */
  predicate IsJavaInt(x: int) {
    INT_MIN <= x < -INT_MIN
  }

  /** The value of a Java `int` expression: the mathematical result wrapped
      into the 32-bit two's-complement range. */
  function JavaInt(x: int): (r: int)
    ensures IsJavaInt(r)
    ensures IsJavaInt(x) ==> r == x
  {
    (x - INT_MIN) % INT_MODULUS + INT_MIN
  }

  /** Adding whole multiples of 2^32 does not change the wrapped value. */
  lemma JavaIntShift(x: int, j: int)
    ensures JavaInt(x + INT_MODULUS * j) == JavaInt(x)
  {
  }

  /** Wrapping an operand first does not change a wrapped product, so a value
      doubled step by step in `int` is the wrapped power-of-two multiple. */
  lemma JavaIntMul(x: int, m: int)
    ensures JavaInt(JavaInt(x) * m) == JavaInt(x * m)
  {
    var q := (x - INT_MIN) / INT_MODULUS;
    assert JavaInt(x) == x - INT_MODULUS * q;
    assert JavaInt(x) * m == x * m + INT_MODULUS * (-q * m);
    JavaIntShift(x * m, -q * m);
  }

  /** Java's string rendering of a possibly-null reference in a concatenation. */
  function NullToString(s: Option<string>): string {
    match s
    case None => "null"
    case Some(v) => v
  }

  /** Java's `int` division, which truncates toward zero. */
  function JavaDiv(a: int, b: int): (q: int)
    requires b > 0
    ensures a >= 0 ==> q * b <= a < q * b + b
    ensures a < 0 ==> q * b - b < a <= q * b
  {
    if a >= 0 then a / b else -((-a) / b)
  }

  /** Sum of the lengths of the records. */
  function TotalBytes(rs: seq<Bytes>): nat {
    if rs == [] then 0 else |rs[0]| + TotalBytes(rs[1..])
  }

  /** The records laid end to end. */
  function Flatten(rs: seq<Bytes>): Bytes {
    if rs == [] then [] else rs[0] + Flatten(rs[1..])
  }

  /** The records that are not empty, in their original order. */
  function NonEmpty(rs: seq<Bytes>): (r: seq<Bytes>)
    ensures |r| <= |rs|
    ensures forall i :: 0 <= i < |r| ==> |r[i]| > 0
  {
    if rs == [] then []
    else if |rs[0]| > 0 then [rs[0]] + NonEmpty(rs[1..])
    else NonEmpty(rs[1..])
  }

  function Pow2(k: nat): (p: nat)
    ensures p >= 1
  {
    if k == 0 then 1 else 2 * Pow2(k - 1)
  }

  lemma {:induction false} TotalBytesAppend(a: seq<Bytes>, b: seq<Bytes>)
    ensures TotalBytes(a + b) == TotalBytes(a) + TotalBytes(b)
    decreases |a|
  {
    if a == [] {
      assert a + b == b;
    } else {
      assert (a + b)[0] == a[0];
      assert (a + b)[1..] == a[1..] + b;
      TotalBytesAppend(a[1..], b);
    }
  }

  lemma {:induction false} TotalBytesPrefix(a: seq<Bytes>, i: nat)
    requires i <= |a|
    ensures TotalBytes(a[..i]) <= TotalBytes(a)
  {
    assert a == a[..i] + a[i..];
    TotalBytesAppend(a[..i], a[i..]);
  }

  lemma {:induction false} FlattenAppend(a: seq<Bytes>, b: seq<Bytes>)
    ensures Flatten(a + b) == Flatten(a) + Flatten(b)
    decreases |a|
  {
    if a == [] {
      assert a + b == b;
    } else {
      assert (a + b)[0] == a[0];
      assert (a + b)[1..] == a[1..] + b;
      FlattenAppend(a[1..], b);
    }
  }

  lemma {:induction false} NonEmptyAppend(a: seq<Bytes>, b: seq<Bytes>)
    ensures NonEmpty(a + b) == NonEmpty(a) + NonEmpty(b)
    decreases |a|
  {
    if a == [] {
      assert a + b == b;
    } else {
      assert (a + b)[0] == a[0];
      assert (a + b)[1..] == a[1..] + b;
      NonEmptyAppend(a[1..], b);
    }
  }

  /** Splitting a sequence of records anywhere splits its non-empty records there. */
  lemma NonEmptySplit(rs: seq<Bytes>, n: nat)
    requires n <= |rs|
    ensures NonEmpty(rs[..n]) + NonEmpty(rs[n..]) == NonEmpty(rs)
  {
    assert rs == rs[..n] + rs[n..];
    NonEmptyAppend(rs[..n], rs[n..]);
  }

  /** Filtering out empty records leaves a sequence that has none. */
  lemma {:induction false} NonEmptyIdempotent(a: seq<Bytes>)
    requires forall i :: 0 <= i < |a| ==> |a[i]| > 0
    ensures NonEmpty(a) == a
    decreases |a|
  {
    if a != [] {
      NonEmptyIdempotent(a[1..]);
    }
  }

  /** A prefix of at least one element is its head followed by a prefix of the tail. */
  lemma PrefixSplit<T>(s: seq<T>, n: nat)
    requires 1 <= n <= |s|
    ensures s[..n] == [s[0]] + s[1..][..n - 1]
  {
  }

  lemma AppendAssoc<T>(a: seq<T>, b: seq<T>, c: seq<T>)
    ensures a + (b + c) == (a + b) + c
  {
  }
}
