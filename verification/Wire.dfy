/** Bytes, fixed-width big-endian integers, concatenation and the CRLF search shared by the buffer and the codecs. */
module Wire {
  import opened CInt

  type byte = x: int | 0 <= x < 256

  const CR: byte := 13
  const LF: byte := 10

  datatype Option<+T> = None | Some(value: T)

  function Concat(chunks: seq<seq<byte>>): seq<byte> {
    if chunks == [] then [] else chunks[0] + Concat(chunks[1..])
  }

  function Pow256(n: nat): (r: nat)
    ensures r > 0
  {
    if n == 0 then 1 else 256 * Pow256(n - 1)
  }

  /** The low `n` bytes of `u`, most significant first. */
  function ToBigEndian(n: nat, u: nat): (s: seq<byte>)
    ensures |s| == n
  {
    if n == 0 then [] else ToBigEndian(n - 1, u / 256) + [u % 256]
  }

  function FromBigEndian(s: seq<byte>): nat {
    if s == [] then 0 else FromBigEndian(s[..|s| - 1]) * 256 + s[|s| - 1]
  }

  lemma {:induction false} FromToBigEndian(n: nat, u: nat)
    requires u < Pow256(n)
    ensures FromBigEndian(ToBigEndian(n, u)) == u
  {
    if n != 0 {
      FromToBigEndian(n - 1, u / 256);
      var s := ToBigEndian(n, u);
      assert s[..|s| - 1] == ToBigEndian(n - 1, u / 256);
    }
  }

  lemma {:induction false} ToFromBigEndian(s: seq<byte>)
    ensures FromBigEndian(s) < Pow256(|s|)
    ensures ToBigEndian(|s|, FromBigEndian(s)) == s
  {
    if s != [] {
      var front := s[..|s| - 1];
      ToFromBigEndian(front);
      assert FromBigEndian(s) / 256 == FromBigEndian(front);
      assert s == front + [s[|s| - 1]];
    }
  }

  /** `x` is representable as a two's complement integer of `n` bytes. */
  predicate Fits(n: nat, x: int) {
    0 <= 2 * x + Pow256(n) < 2 * Pow256(n)
  }

  /** The unsigned reinterpretation of a signed `n`-byte integer, and its inverse. */
  function Unsigned(n: nat, x: int): (u: nat)
    requires Fits(n, x)
    ensures u < Pow256(n)
  {
    if x < 0 then x + Pow256(n) else x
  }

  function Signed(n: nat, u: nat): (x: int)
    requires u < Pow256(n)
    ensures Fits(n, x)
  {
    if 2 * u >= Pow256(n) then u - Pow256(n) else u
  }

  /** hostToNetwork followed by a byte copy. */
  function EncodeInt(n: nat, x: int): (s: seq<byte>)
    requires Fits(n, x)
    ensures |s| == n
  {
    ToBigEndian(n, Unsigned(n, x))
  }

  /** A byte copy followed by networkToHost. */
  function DecodeInt(s: seq<byte>): (x: int)
    ensures Fits(|s|, x)
  {
    ToFromBigEndian(s);
    Signed(|s|, FromBigEndian(s))
  }

  lemma DecodeEncodeInt(n: nat, x: int)
    requires Fits(n, x)
    ensures DecodeInt(EncodeInt(n, x)) == x
  {
    FromToBigEndian(n, Unsigned(n, x));
  }

  lemma EncodeDecodeInt(s: seq<byte>)
    ensures EncodeInt(|s|, DecodeInt(s)) == s
  {
    ToFromBigEndian(s);
  }

  /** Distinct byte strings of one width decode to distinct integers. */
  lemma DecodeIntInjective(s: seq<byte>, t: seq<byte>)
    requires |s| == |t| && DecodeInt(s) == DecodeInt(t)
    ensures s == t
  {
    EncodeDecodeInt(s);
    EncodeDecodeInt(t);
  }

  predicate CRLFAt(s: seq<byte>, i: nat) {
    i + 1 < |s| && s[i] == CR && s[i + 1] == LF
  }

  /** Index of the first CRLF in `s`, or `|s|` when there is none. */
  function FirstCRLF(s: seq<byte>): (r: nat)
    ensures r <= |s|
    ensures r < |s| ==> CRLFAt(s, r)
    ensures forall j: nat :: j < r ==> !CRLFAt(s, j)
  {
    if |s| < 2 then |s|
    else if s[0] == CR && s[1] == LF then 0
    else
      var r := FirstCRLF(s[1..]);
      assert forall j: nat :: 0 < j ==> CRLFAt(s, j) == CRLFAt(s[1..], j - 1);
      r + 1
  }

  /** A CRLF once found stays the first one however the stream continues. */
  lemma FirstCRLFExtends(s: seq<byte>, t: seq<byte>)
    requires FirstCRLF(s) < |s|
    ensures FirstCRLF(s + t) == FirstCRLF(s)
  {
    var r := FirstCRLF(s);
    assert CRLFAt(s + t, r);
    forall j: nat | j < r ensures !CRLFAt(s + t, j) {
      assert CRLFAt(s + t, j) == CRLFAt(s, j);
    }
  }

  lemma FirstCRLFUnique(s: seq<byte>, r: nat)
    requires CRLFAt(s, r)
    requires forall j: nat :: j < r ==> !CRLFAt(s, j)
    ensures FirstCRLF(s) == r
  {
  }

  /** Byte `i` of `n` is the digit of 256 to the power n - 1 - i: most significant first. */
  lemma {:induction false} BytesByPower(n: nat, u: nat)
    ensures forall i :: 0 <= i < n ==> ToBigEndian(n, u)[i] == u / Pow256(n - 1 - i) % 256
    decreases n
  {
    if n != 0 {
      BytesByPower(n - 1, u / 256);
      forall i | 0 <= i < n ensures ToBigEndian(n, u)[i] == u / Pow256(n - 1 - i) % 256 {
        if i < n - 1 {
          DivDiv(u, Pow256(n - 2 - i));
        }
      }
    }
  }

  lemma DivDiv(u: nat, k: nat)
    requires 0 < k
    ensures u / 256 / k == u / (256 * k)
  {
    var a, b := u / 256, u % 256;
    var q, r := a / k, a % k;
    assert u == 256 * (k * q + r) + b == (256 * k) * q + (256 * r + b);
    assert 0 <= 256 * r + b < 256 * k;
    DivModUnique(u, 256 * k, q, 256 * r + b);
  }

  /** The first byte counts 256 to the power of how many follow it. */
  lemma {:induction false} ValueByPower(b: byte, s: seq<byte>)
    ensures FromBigEndian([b] + s) == b * Pow256(|s|) + FromBigEndian(s)
    decreases |s|
  {
    var t := [b] + s;
    if s == [] {
      assert t[..|t| - 1] == [];
    } else {
      assert t[..|t| - 1] == [b] + s[..|s| - 1];
      ValueByPower(b, s[..|s| - 1]);
    }
  }

  /** Two's complement: the first byte of an encoded integer is 128 or more exactly when the integer is negative. */
  lemma SignBit(n: nat, x: int)
    requires 0 < n && Fits(n, x)
    ensures EncodeInt(n, x)[0] >= 128 <==> x < 0
  {
    var u, p := Unsigned(n, x), Pow256(n - 1);
    BytesByPower(n, u);
    TopDigit(u, p);
  }

  lemma TopDigit(u: nat, p: nat)
    requires 0 < p && u < 256 * p
    ensures u / p % 256 >= 128 <==> u >= 128 * p
  {
    QuotientBelow(u, p, 256);
    QuotientFrom(u, p, 128);
    var q := u / p;
    assert q < 256;
  }
}
