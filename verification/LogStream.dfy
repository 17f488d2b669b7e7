/** Decimal formatting into a fixed buffer: muduo/base/LogStream.cc and FixedBuffer of muduo/base/LogStream.h. */
module LogStreams {
  import opened CInt

  /** Indexed by 9 + remainder, so that the negative remainders of a negative number need no special case. */
  const DIGITS := "9876543210123456789"
  const SMALL_BUFFER: nat := 4000
  const MAX_NUMERIC_SIZE: nat := 32

  function DigitChar(d: nat): char
    requires d < 10
  {
    "0123456789"[d]
  }

  function Abs(x: int): nat {
    if x < 0 then -x else x
  }

  // ----- decimal text -----

  function Digits(n: nat): (s: string)
    ensures s != []
  {
    if n < 10 then [DigitChar(n)] else Digits(n / 10) + [DigitChar(n % 10)]
  }

  function Decimal(v: int): string {
    if v < 0 then "-" + Digits(-v) else Digits(v)
  }

  predicate AllDigits(s: string) {
    forall i :: 0 <= i < |s| ==> '0' <= s[i] <= '9'
  }

  function DigitValue(c: char): nat
    requires '0' <= c <= '9'
  {
    c as int - '0' as int
  }

  /** The number a digit string denotes. */
  function NatValue(s: string): nat
    requires AllDigits(s)
  {
    if s == [] then 0 else NatValue(s[..|s| - 1]) * 10 + DigitValue(s[|s| - 1])
  }

  /** Canonical decimal text: digits without leading zeros, a minus sign exactly before a non-zero negative. */
  predicate CanonicalNat(s: string) {
    AllDigits(s) && s != [] && (|s| > 1 ==> s[0] != '0')
  }

  predicate Canonical(s: string) {
    if s != [] && s[0] == '-' then CanonicalNat(s[1..]) && s[1] != '0' else CanonicalNat(s)
  }

  function Value(s: string): int
    requires Canonical(s)
  {
    if s[0] == '-' then 0 - NatValue(s[1..]) else NatValue(s)
  }

  lemma {:induction false} DigitsMeaning(n: nat)
    ensures CanonicalNat(Digits(n)) && NatValue(Digits(n)) == n && (n > 0 ==> Digits(n)[0] != '0')
  {
    if n >= 10 {
      DigitsMeaning(n / 10);
      var s := Digits(n);
      assert s[..|s| - 1] == Digits(n / 10);
    }
  }

  lemma {:induction false} NatValueUnique(s: string)
    requires CanonicalNat(s)
    ensures Digits(NatValue(s)) == s
    ensures |s| > 1 ==> 10 <= NatValue(s)
    ensures s[0] != '0' ==> 0 < NatValue(s)
  {
    var front := s[..|s| - 1];
    if |s| == 1 {
      assert front == [];
    } else {
      assert front[0] != '0';
      NatValueUnique(front);
      var last := s[|s| - 1];
      assert s == front + [last];
      var n, d := NatValue(front), DigitValue(last);
      assert NatValue(s) == n * 10 + d && NatValue(s) / 10 == n && NatValue(s) % 10 == d;
      assert DigitChar(d) == last;
    }
  }

  /** Decimal is the canonical text of its argument: it denotes it, and no other canonical text does. */
  lemma DecimalMeaning(v: int)
    ensures Canonical(Decimal(v)) && Value(Decimal(v)) == v
  {
    DigitsMeaning(Abs(v));
    if v < 0 {
      assert Decimal(v)[1..] == Digits(-v);
    }
  }

  lemma CanonicalUnique(s: string)
    requires Canonical(s)
    ensures Decimal(Value(s)) == s
  {
    if s[0] == '-' {
      NatValueUnique(s[1..]);
      assert s == "-" + s[1..];
    } else {
      NatValueUnique(s);
    }
  }

  function Pow10(k: nat): nat {
    if k == 0 then 1 else 10 * Pow10(k - 1)
  }

  lemma {:induction false} DigitsLength(n: nat, k: nat)
    requires 1 <= k && n < Pow10(k)
    ensures |Digits(n)| <= k
  {
    if n >= 10 {
      assert k > 1;
      DigitsLength(n / 10, k - 1);
    }
  }

  /** A value of any 64-bit type, signed or not. */
  predicate Int64(v: int) {
    -0x8000_0000_0000_0000 <= v < 0x1_0000_0000_0000_0000
  }

  lemma DecimalLength(v: int)
    requires Int64(v)
    ensures |Decimal(v)| <= 20
  {
    if v < 0 {
      PowerOfTen19();
      DigitsLength(-v, 19);
    } else {
      PowerOfTen19();
      DigitsLength(v, 20);
    }
  }

  lemma PowerOfTen19()
    ensures Pow10(19) == 10_000_000_000_000_000_000 && Pow10(20) == 100_000_000_000_000_000_000
  {
    assert Pow10(5) == 100_000;
    assert Pow10(10) == 10_000_000_000;
    assert Pow10(15) == 1_000_000_000_000_000;
  }

  // ----- convert -----

  function Reverse(s: string): (r: string)
    ensures |r| == |s|
    ensures forall i :: 0 <= i < |s| ==> r[i] == s[|s| - 1 - i]
  {
    if s == [] then [] else Reverse(s[1..]) + [s[0]]
  }

  /** std::reverse on buf[lo..hi]. */
  method ReverseRange(buf: array<char>, lo: nat, hi: nat)
    requires lo <= hi <= buf.Length
    modifies buf
    ensures buf[lo..hi] == Reverse(old(buf[lo..hi]))
    ensures buf[..lo] == old(buf[..lo]) && buf[hi..] == old(buf[hi..])
  {
    hide Reverse;
    ghost var was := buf[lo..hi];
    ghost var want := Reverse(was);
    var i, j := lo, hi;
    while i + 1 < j
      invariant lo <= i <= j + 1 && i + j == lo + hi
      invariant forall k :: lo <= k < i ==> buf[k] == want[k - lo]
      invariant forall k :: j <= k < hi ==> buf[k] == want[k - lo]
      invariant forall k :: i <= k < j ==> buf[k] == was[k - lo]
      invariant forall k :: 0 <= k < lo || hi <= k < buf.Length ==> buf[k] == old(buf[k])
    {
      j := j - 1;
      assert want[i - lo] == was[j - lo] && want[j - lo] == was[i - lo];
      buf[i], buf[j] := buf[j], buf[i];
      i := i + 1;
    }
    assert i + 1 == j ==> want[i - lo] == was[i - lo];
    Slices(buf[..], old(buf[..]), lo, hi, want);
    assert buf[lo..hi] == buf[..][lo..hi] && buf[..lo] == buf[..][..lo] && buf[hi..] == buf[..][hi..];
  }

  lemma Slices(now: string, was: string, lo: nat, hi: nat, want: string)
    requires lo <= hi <= |now| == |was| && |want| == hi - lo
    requires forall k :: lo <= k < hi ==> now[k] == want[k - lo]
    requires forall k :: 0 <= k < lo || hi <= k < |now| ==> now[k] == was[k]
    ensures now[lo..hi] == want && now[..lo] == was[..lo] && now[hi..] == was[hi..]
  {
  }

  /** The digit written for a remainder is the digit of its absolute value. */
  lemma DigitTable(i: int)
    ensures var lsd := CMod(i, 10); -9 <= lsd <= 9 && DIGITS[9 + lsd] == DigitChar(Abs(i) % 10)
    ensures Abs(CDiv(i, 10)) == Abs(i) / 10
  {
  }

  /** The text of what is left to convert; nothing once the loop is done. */
  function Left(n: nat): string {
    if n == 0 then "" else Digits(n)
  }

  lemma LeftStep(n: nat, done: string)
    requires n > 0
    ensures Left(n) + Reverse(done) == Left(n / 10) + Reverse(done + [DigitChar(n % 10)])
  {
    ReverseAppend(done, DigitChar(n % 10));
    if n < 10 {
      assert n / 10 == 0;
    }
  }

  lemma {:induction false} ReverseAppend(s: string, c: char)
    ensures Reverse(s + [c]) == [c] + Reverse(s)
  {
  }

  /** The do-while loop: least significant digit first, working on the signed value throughout. */
  method WriteDigits(buf: array<char>, at: nat, value: int) returns (p: nat)
    requires Int64(value) && at + 20 <= buf.Length
    modifies buf
    ensures at < p <= buf.Length && Reverse(buf[at..p]) == Digits(Abs(value))
    ensures buf[..at] == old(buf[..at])
  {
    var i := value;
    p := at;
    ghost var want := Digits(Abs(value));
    DigitsBound(value);
    DigitTable(i);
    buf[p] := DIGITS[9 + CMod(i, 10)];
    FirstDigit(Abs(value));
    i := CDiv(i, 10);
    p := p + 1;
    assert buf[at..p] == [DigitChar(Abs(value) % 10)];
    while i != 0
      invariant at < p <= buf.Length && p - at + |Left(Abs(i))| == |want| <= 20
      invariant Left(Abs(i)) + Reverse(buf[at..p]) == want
      invariant buf[..at] == old(buf[..at])
      decreases Abs(i)
    {
      DigitTable(i);
      LeftStep(Abs(i), buf[at..p]);
      ghost var done := buf[at..p];
      buf[p] := DIGITS[9 + CMod(i, 10)];
      i := CDiv(i, 10);
      p := p + 1;
      assert buf[at..p] == done + [buf[p - 1]];
    }
  }

  lemma DigitsBound(v: int)
    requires Int64(v)
    ensures |Digits(Abs(v))| <= 20 && (v < 0 ==> |Digits(Abs(v))| <= 19)
  {
    DecimalLength(v);
  }

  lemma FirstDigit(n: nat)
    ensures Digits(n) == Left(n / 10) + Reverse([DigitChar(n % 10)])
  {
    assert Reverse([DigitChar(n % 10)]) == [DigitChar(n % 10)];
    if n < 10 {
      assert n / 10 == 0 && n % 10 == n;
    }
  }

  /** convert: the canonical decimal text of any 64-bit value, the most negative one included, and a NUL. */
  method Convert(buf: array<char>, at: nat, value: int) returns (len: nat)
    requires Int64(value) && at + 21 <= buf.Length
    modifies buf
    ensures len <= 20 && buf[at..at + len] == Decimal(value) && buf[at + len] == '\0'
    ensures buf[..at] == old(buf[..at])
  {
    hide Reverse, Digits;
    DigitsBound(value);
    var p := WriteDigits(buf, at, value);
    ghost var digits := buf[at..p];
    if value < 0 {
      buf[p] := '-';
      p := p + 1;
    }
    buf[p] := '\0';
    ReverseAppend(digits, '-');
    assert buf[at..p] == if value < 0 then digits + ['-'] else digits;
    assert buf[p..][0] == '\0';
    ReverseRange(buf, at, p);
    len := p - at;
    assert buf[p] == buf[p..][0];
  }

  // ----- FixedBuffer and LogStream -----

  datatype Item = Str(s: string) | Number(v: int)

  /** Whether an item finds room after `used` characters. */
  predicate HasRoom(used: nat, item: Item) {
    if item.Str? then used + |item.s| < SMALL_BUFFER else used + MAX_NUMERIC_SIZE <= SMALL_BUFFER
  }

  /** The text after a series of writes: an item without room is dropped whole. */
  function Emitted(text: string, items: seq<Item>): string {
    if items == [] then text else
    var before := Emitted(text, items[..|items| - 1]);
    var item := items[|items| - 1];
    if !HasRoom(|before|, item) then before
    else if item.Str? then before + item.s
    else before + Decimal(item.v)
  }

  /** A LogStream with its FixedBuffer<kSmallBuffer>. */
  class LogStream {
    const data: array<char>
    var cur: nat

    /** The write position is strictly inside the array: there is always room for one more character. */
    ghost predicate Valid()
      reads this
    {
      data.Length == SMALL_BUFFER && cur < data.Length
    }

    ghost function Text(): string
      requires Valid()
      reads this, data
    {
      data[..cur]
    }

    constructor ()
      ensures Valid() && fresh(data) && Text() == ""
    {
      data := new char[SMALL_BUFFER](_ => '\0');
      cur := 0;
    }

    function Avail(): nat
      requires Valid()
      reads this
    {
      data.Length - cur
    }

    /** All of `s`, or nothing when it would not leave a character to spare. */
    method Append(s: string)
      requires Valid()
      modifies this, data
      ensures Valid()
      ensures Text() == old(Text()) + if |s| < old(Avail()) then s else ""
    {
      if Avail() > |s| {
        ghost var was := Text();
        forall i | 0 <= i < |s| {
          data[cur + i] := s[i];
        }
        assert data[..cur] == was && data[cur..cur + |s|] == s;
        cur := cur + |s|;
      }
    }

    /** The decimal text of `v`, or nothing when fewer than 32 characters are left. */
    method FormatInteger(v: int)
      requires Valid() && Int64(v)
      modifies this, data
      ensures Valid()
      ensures Text() == old(Text()) + if MAX_NUMERIC_SIZE <= old(Avail()) then Decimal(v) else ""
    {
      hide Decimal;
      if Avail() >= MAX_NUMERIC_SIZE {
        ghost var was := Text();
        var len := Convert(data, cur, v);
        assert data[..cur] == was;
        assert data[..cur + len] == data[..cur] + data[cur..cur + len];
        cur := cur + len;
      }
    }

    method ResetBuffer()
      requires Valid()
      modifies this
      ensures Valid() && Text() == ""
    {
      cur := 0;
    }

    method Write(item: Item)
      requires Valid() && (item.Number? ==> Int64(item.v))
      modifies this, data
      ensures Valid() && Text() == Emitted(old(Text()), [item])
    {
      match item
      case Str(s) => Append(s);
      case Number(v) => FormatInteger(v);
    }

    /** Any sequence of writes: the cursor stays inside, and the text is the items that found room, each one whole. */
    method WriteAll(items: seq<Item>)
      requires Valid() && forall item :: item in items && item.Number? ==> Int64(item.v)
      modifies this, data
      ensures Valid() && Text() == Emitted(old(Text()), items)
    {
      var i := 0;
      while i < |items|
        invariant 0 <= i <= |items| && Valid()
        invariant Text() == Emitted(old(Text()), items[..i])
      {
        assert items[..i + 1][..i] == items[..i];
        Write(items[i]);
        i := i + 1;
      }
      assert items[..i] == items;
    }
  }
}
