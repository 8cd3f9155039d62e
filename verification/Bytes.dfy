/** Byte strings and the little-endian integers that every on-disk format of the program uses. */
module Bytes {

  type Byte = x: int | 0 <= x < 256

  type Data = seq<Byte>

  datatype Option<+T> = None | Some(value: T)

  function Min(a: int, b: int): (m: int)
    ensures m <= a && m <= b && (m == a || m == b)
  {
    if a < b then a else b
  }

  /** `n` zero bytes: what a hole in a plain file reads as. */
  function Zeros(n: nat): (z: Data)
    ensures |z| == n && forall i :: 0 <= i < n ==> z[i] == 0
  {
    seq(n, _ => 0)
  }

  /** The plain-file meaning of a read: the bytes of `content` that `[offset, offset + size)` covers. */
  function Pread(content: Data, size: nat, offset: nat): (r: Data)
    ensures |r| == if offset >= |content| then 0 else Min(size, |content| - offset)
    ensures forall i :: 0 <= i < |r| ==> r[i] == content[offset + i]
  {
    if offset >= |content| then [] else content[offset..Min(offset + size, |content|)]
  }

  /** The plain-file meaning of a write: a gap up to `offset` is filled with zeros, the rest is overwritten. */
  function Pwrite(content: Data, data: Data, offset: nat): (r: Data)
  {
    if data == [] then content
    else
      var base := if offset <= |content| then content[..offset] else content + Zeros(offset - |content|);
      base + data + (if offset + |data| < |content| then content[offset + |data|..] else [])
  }

  /** What a byte of the file is after a write: the new one inside the range, the old one or zero outside. */
  lemma PwriteAt(content: Data, data: Data, offset: nat)
    requires data != []
    ensures var r := Pwrite(content, data, offset);
            && |r| == (if |content| < offset + |data| then offset + |data| else |content|)
            && forall i :: 0 <= i < |r| ==>
              r[i] == if offset <= i < offset + |data| then data[i - offset]
                      else if i < |content| then content[i] else 0
  {
  }

  lemma PwriteAtEnd(content: Data, data: Data)
    ensures Pwrite(content, data, |content|) == content + data
  {
    if data == [] {
      assert content + data == content;
    } else {
      assert content[..|content|] == content;
      assert content + data + [] == content + data;
    }
  }

  /** `Flatten` of a history of chunks: everything that was handed over, in order. */
  function Flatten(chunks: seq<Data>): Data {
    if chunks == [] then [] else chunks[0] + Flatten(chunks[1..])
  }

  lemma {:induction false} FlattenAppend(a: seq<Data>, b: seq<Data>)
    ensures Flatten(a + b) == Flatten(a) + Flatten(b)
  {
    if a == [] {
      assert a + b == b;
    } else {
      assert (a + b)[1..] == a[1..] + b;
      FlattenAppend(a[1..], b);
    }
  }

  /** Chunks delivered one after the other add up to what was delivered. */
  lemma FlattenSnoc(chunks: seq<Data>, chunk: Data)
    ensures Flatten(chunks + [chunk]) == Flatten(chunks) + chunk
  {
    FlattenAppend(chunks, [chunk]);
    assert Flatten([chunk]) == chunk + Flatten([]);
  }

  lemma FlattenPrefix(chunks: seq<Data>, i: nat)
    requires i < |chunks|
    ensures Flatten(chunks[..i + 1]) == Flatten(chunks[..i]) + chunks[i]
  {
    FlattenSnoc(chunks[..i], chunks[i]);
    assert chunks[..i + 1] == chunks[..i] + [chunks[i]];
  }

  /** 256 to the power of `k`. */
  function Pow256(k: nat): (p: nat)
    ensures p > 0
  {
    if k == 0 then 1 else 256 * Pow256(k - 1)
  }

  /** `n` as `k` bytes, least significant first. */
  function LittleEndian(n: nat, k: nat): (b: Data)
    ensures |b| == k
  {
    if k == 0 then [] else [n % 256] + LittleEndian(n / 256, k - 1)
  }

  function FromLittleEndian(b: Data): nat {
    if b == [] then 0 else b[0] + 256 * FromLittleEndian(b[1..])
  }

  /** Reading back a little-endian integer gives the integer, up to the width it was written in. */
  lemma {:induction false} LittleEndianRoundTrip(n: nat, k: nat)
    requires n < Pow256(k)
    ensures FromLittleEndian(LittleEndian(n, k)) == n
  {
    if k > 0 {
      LittleEndianRoundTrip(n / 256, k - 1);
      assert LittleEndian(n, k)[1..] == LittleEndian(n / 256, k - 1);
    }
  }

  /** The byte at place `i` counts for 256 to the power of `i`. */
  lemma {:induction false} LittleEndianAt(n: nat, k: nat, i: nat)
    requires i < k
    ensures LittleEndian(n, k)[i] == n / Pow256(i) % 256
  {
    if i > 0 {
      LittleEndianAt(n / 256, k - 1, i - 1);
      DivDiv(n, Pow256(i - 1));
    }
  }

  lemma DivDiv(n: nat, p: nat)
    requires p > 0
    ensures n / 256 / p == n / (256 * p)
  {
    var q := n / 256 / p;
    var r := n / 256 - q * p;
    assert n == 256 * (q * p + r) + n % 256 && 0 <= r <= p - 1;
    assert n == q * (256 * p) + (256 * r + n % 256) && 0 <= 256 * r + n % 256 < 256 * p;
    Quotient(n, 256 * p, q, 256 * r + n % 256);
  }

  lemma Quotient(n: nat, m: nat, q: nat, r: nat)
    requires m > 0 && r < m && n == q * m + r
    ensures n / m == q
  {
    var d := n / m - q;
    assert d * m == r - n % m;
    NoSmallMultiple(d, m);
  }

  lemma NoSmallMultiple(d: int, m: nat)
    ensures d > 0 ==> d * m >= m
    ensures d < 0 ==> d * m <= -(m as int)
  {
  }

  lemma {:induction false} FromLittleEndianSnoc(b: Data, x: Byte)
    ensures FromLittleEndian(b + [x]) == FromLittleEndian(b) + x * Pow256(|b|)
  {
    if b != [] {
      assert (b + [x])[1..] == b[1..] + [x];
      FromLittleEndianSnoc(b[1..], x);
      assert 256 * (x * Pow256(|b| - 1)) == x * Pow256(|b|);
    } else {
      assert [x][1..] == [];
    }
  }

  /** The number that four bytes make, the lowest first. */
  function Word(a: int, b: int, c: int, d: int): int {
    a + 0x100 * b + 0x1_0000 * c + 0x100_0000 * d
  }

  lemma TwoBytes(b: Data)
    requires |b| == 2
    ensures FromLittleEndian(b) == Word(b[0], b[1], 0, 0)
  {
    assert FromLittleEndian(b[1..][1..]) == 0;
  }

  lemma FourBytes(b: Data)
    requires |b| == 4
    ensures FromLittleEndian(b) == Word(b[0], b[1], b[2], b[3])
  {
    TwoBytes(b[2..]);
    assert b[1..][1..] == b[2..];
  }

  lemma EightBytes(b: Data)
    requires |b| == 8
    ensures FromLittleEndian(b) == Word(b[0], b[1], b[2], b[3]) + 0x1_0000_0000 * Word(b[4], b[5], b[6], b[7])
  {
    FourBytes(b[4..]);
    assert b[1..][1..] == b[2..] && b[2..][1..] == b[3..] && b[3..][1..] == b[4..];
    assert FromLittleEndian(b[3..]) == b[3] + 256 * FromLittleEndian(b[4..]);
    assert FromLittleEndian(b[2..]) == b[2] + 256 * FromLittleEndian(b[3..]);
    assert FromLittleEndian(b[1..]) == b[1] + 256 * FromLittleEndian(b[2..]);
  }

  lemma {:induction false} ValueOfZeros(k: nat)
    ensures FromLittleEndian(Zeros(k)) == 0
  {
    if k > 0 {
      assert Zeros(k)[1..] == Zeros(k - 1);
      ValueOfZeros(k - 1);
    }
  }

  /** Every byte string is the little-endian form of its value. */
  lemma {:induction false} LittleEndianOfValue(b: Data)
    ensures FromLittleEndian(b) < Pow256(|b|)
    ensures LittleEndian(FromLittleEndian(b), |b|) == b
  {
    if b != [] {
      LittleEndianOfValue(b[1..]);
      assert b == [b[0]] + b[1..];
    }
  }

  lemma Pow256Values()
    ensures Pow256(4) == 0x1_0000_0000
    ensures Pow256(8) == 0x1_0000_0000_0000_0000
  {
    assert Pow256(2) == 0x1_0000;
    assert Pow256(4) == 256 * (256 * Pow256(2));
    assert Pow256(6) == 256 * (256 * Pow256(4));
    assert Pow256(8) == 256 * (256 * Pow256(6));
  }
}
