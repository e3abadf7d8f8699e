/** Variable length integers: unsigned LEB128 in at most ten bytes (section 7.6 of DWARF 5). */
module Varint {
  type byte = b: int | 0 <= b < 256

  const MAX_INT64: int := 0x7fff_ffff_ffff_ffff
  const TWO_TO_64: int := 0x1_0000_0000_0000_0000

  datatype Error = BufTooSmall | Overflow | TooLarge | NotEnoughData | SliceFault

  datatype Result<T> = Ok(value: T) | Err(error: Error)

  /** A number and how many bytes it took. */
  datatype Number = Number(n: nat, read: nat)

  // ----- the format

  function Leb(n: nat): (s: seq<byte>)
    ensures |s| > 0
  {
    if n < 128 then [n] else [n % 128 + 128] + Leb(n / 128)
  }

  /** The value of a group of seven-bit digits, the lowest first. */
  function Value(s: seq<byte>): nat {
    if s == [] then 0 else s[0] % 128 + 128 * Value(s[1..])
  }

  /** A number extends up to and including the first byte below 128. */
  predicate Group(s: seq<byte>) {
    |s| > 0 && s[|s| - 1] < 128 && forall i | 0 <= i < |s| - 1 :: s[i] >= 128
  }

  function GroupEnd(s: seq<byte>): (e: nat)
    ensures e <= |s| && (e < |s| ==> s[e] < 128) && forall i | 0 <= i < e :: s[i] >= 128
  {
    if s == [] || s[0] < 128 then 0 else 1 + GroupEnd(s[1..])
  }

  function Pow128(k: nat): nat {
    if k == 0 then 1 else 128 * Pow128(k - 1)
  }

  // ----- unpacking

  /** What binary.Uvarint computes: the value and the bytes read, zero if the buffer is too small,
      negative on overflow. */
  function Uvarint(s: seq<byte>): (nat, int) {
    var e := GroupEnd(s);
    if e == |s| && e <= 10 then (0, 0)
    else if e >= 10 then (0, -11)
    else if e == 9 && s[9] > 1 then (0, -10)
    else (Value(s[..e + 1]), e + 1)
  }

  function Unpack(s: seq<byte>, max: nat): Result<Number> {
    var (n, r) := Uvarint(s);
    if r == 0 then Err(BufTooSmall)
    else if r < 0 then Err(Overflow)
    else if n > max then Err(TooLarge)
    else Ok(Number(n, r))
  }

  function Unpack16(s: seq<byte>): Result<Number> { Unpack(s, 65535) }
  function Unpack32(s: seq<byte>): Result<Number> { Unpack(s, 4294967295) }
  function Unpack64(s: seq<byte>): Result<Number> { Unpack(s, TWO_TO_64 - 1) }

  function Unpack8(s: seq<byte>): Result<Number> {
    if |s| < 1 then Err(BufTooSmall)
    else if s[0] < 128 then Ok(Number(s[0], 1))
    else if |s| < 2 then Err(BufTooSmall)
    else if s[1] != 1 then Err(TooLarge)
    else Ok(Number(s[0], 1))
  }

  /** binary.Uvarint, digit by digit; m is two to the power of the shift. */
  method ReadUvarint(buf: seq<byte>) returns (n: nat, r: int)
    ensures (n, r) == Uvarint(buf)
  {
    n := 0;
    var m: nat := 1;
    for i := 0 to |buf|
      invariant i <= 10 && m == Pow128(i) && n == Value(buf[..i])
      invariant forall j | 0 <= j < i :: buf[j] >= 128
    {
      if i == 10 {
        return 0, -(i + 1);
      }
      var b := buf[i];
      ValueSnoc(buf[..i], b);
      assert buf[..i] + [b] == buf[..i + 1];
      if b < 128 {
        if i == 9 && b > 1 { return 0, -(i + 1); }
        return n + b * m, i + 1;
      }
      n := n + b % 128 * m;
      m := 128 * m;
    }
    return 0, 0;
  }

  lemma {:induction false} ValueSnoc(s: seq<byte>, b: byte)
    ensures Value(s + [b]) == Value(s) + b % 128 * Pow128(|s|)
  {
    if s == [] {
      assert s + [b] == [b];
    } else {
      assert (s + [b])[1..] == s[1..] + [b];
      ValueSnoc(s[1..], b);
      var x, p := b % 128, Pow128(|s| - 1);
      assert 128 * (x * p) == x * (128 * p);
    }
  }

  lemma {:induction false} ValueBelow(s: seq<byte>)
    ensures Value(s) < Pow128(|s|)
  {
    if s != [] { ValueBelow(s[1..]); }
  }

  lemma NinthDigit()
    ensures Pow128(9) == 0x8000_0000_0000_0000
  {
    assert Pow128(3) == 0x20_0000;
    assert Pow128(6) == 128 * (128 * (128 * Pow128(3)));
    assert Pow128(9) == 128 * (128 * (128 * Pow128(6)));
  }

  lemma {:induction false} PowGrows(j: nat, k: nat)
    requires j <= k
    ensures Pow128(j) <= Pow128(k)
  {
    if j < k { PowGrows(j, k - 1); }
  }

  lemma {:induction false} TenByteValue(s: seq<byte>)
    requires |s| == 10 && s[9] < 128
    ensures Value(s) < TWO_TO_64 <==> s[9] <= 1
  {
    ValueSnoc(s[..9], s[9]);
    assert s[..9] + [s[9]] == s;
    ValueBelow(s[..9]);
    NinthDigit();
  }

  /** Unpacking succeeds on exactly the buffers that start with a group of at most ten bytes whose
      value is in range, and returns that value and the length of the group. */
  lemma {:induction false} UnpackExactly(s: seq<byte>, max: nat, n: nat, r: nat)
    requires max < TWO_TO_64
    ensures Unpack(s, max) == Ok(Number(n, r))
        <==> r <= |s| && r <= 10 && Group(s[..r]) && Value(s[..r]) == n && n <= max
  {
    var e := GroupEnd(s);
    if r <= |s| && Group(s[..r]) {
      assert s[..r][r - 1] == s[r - 1];
      forall i | 0 <= i < r - 1 ensures s[i] >= 128 { assert s[..r][i] == s[i]; }
    }
    if e == 9 && e < |s| { TenByteValue(s[..10]); }
  }

  // ----- packing

  lemma {:induction false} LebIsGroup(n: nat)
    ensures Group(Leb(n)) && Value(Leb(n)) == n
  {
    if n < 128 {
      assert Leb(n)[1..] == [];
    } else {
      LebIsGroup(n / 128);
      assert Leb(n)[1..] == Leb(n / 128);
    }
  }

  lemma {:induction false} LebAtMost(n: nat, k: nat)
    requires k > 0 && n < Pow128(k)
    ensures |Leb(n)| <= k
  {
    if n >= 128 {
      if k > 1 { LebAtMost(n / 128, k - 1); }
    }
  }

  lemma {:induction false} LebAtLeast(n: nat, k: nat)
    requires n >= Pow128(k)
    ensures |Leb(n)| > k
  {
    if k > 0 {
      assert Pow128(k) >= 128 by { PowGrows(1, k); }
      LebAtLeast(n / 128, k - 1);
    }
  }

  lemma LebIn64Bits(n: nat)
    requires n < TWO_TO_64
    ensures |Leb(n)| <= 10
  {
    NinthDigit();
    LebAtMost(n, 10);
  }

  /** A packed number is unpacked before any suffix. */
  lemma {:induction false} UnpackPacked(n: nat, max: nat, suffix: seq<byte>)
    requires n <= max < TWO_TO_64
    ensures Unpack(Leb(n) + suffix, max) == Ok(Number(n, |Leb(n)|))
  {
    LebIsGroup(n);
    LebIn64Bits(n);
    assert (Leb(n) + suffix)[..|Leb(n)|] == Leb(n);
    UnpackExactly(Leb(n) + suffix, max, n, |Leb(n)|);
  }

  function Pack8(n: byte): seq<byte> {
    if n < 128 then [n] else [n, 1]
  }

  /** Eight-bit numbers: packed alike, but the length of a packed number is reported correctly
      exactly for those below 128. */
  lemma Unpack8Packed(n: byte, suffix: seq<byte>)
    ensures Pack8(n) == Leb(n)
    ensures Unpack8(Pack8(n) + suffix).Ok? && Unpack8(Pack8(n) + suffix).value.n == n
    ensures Unpack8(Pack8(n) + suffix) == Ok(Number(n, |Pack8(n)|)) <==> n < 128
  {
    if n >= 128 { assert Leb(n / 128) == [1]; }
  }

  /** binary.PutUvarint */
  method PutUvarint(buf: array<byte>, n: nat) returns (w: nat)
    requires |Leb(n)| <= buf.Length
    modifies buf
    ensures w <= buf.Length && buf[..w] == Leb(n) && buf[w..] == old(buf[w..])
  {
    var x, i := n, 0;
    while x >= 128
      invariant i + |Leb(x)| <= buf.Length && buf[..i] + Leb(x) == Leb(n)
      invariant buf[i..] == old(buf[i..])
    {
      assert buf[i + 1..] == buf[i..][1..] && old(buf[i + 1..]) == old(buf[i..])[1..];
      assert Leb(x) == [x % 128 + 128] + Leb(x / 128);
      ghost var before := buf[..i];
      buf[i] := x % 128 + 128;
      assert buf[..i + 1] == before + [x % 128 + 128];
      x, i := x / 128, i + 1;
    }
    assert buf[i + 1..] == buf[i..][1..] && old(buf[i + 1..]) == old(buf[i..])[1..];
    ghost var before := buf[..i];
    buf[i] := x;
    assert buf[..i + 1] == before + [x];
    return i + 1;
  }

  method Pack16(n: nat) returns (s: seq<byte>)
    requires n < 0x1_0000
    ensures s == Leb(n) && |s| <= 3
  {
    LebAtMost(n, 3);
    var buf := new byte[3];
    var w := PutUvarint(buf, n);
    return buf[..w];
  }

  method Pack32(n: nat) returns (s: seq<byte>)
    requires n < 0x1_0000_0000
    ensures s == Leb(n) && |s| <= 5
  {
    LebAtMost(n, 5);
    var buf := new byte[5];
    var w := PutUvarint(buf, n);
    return buf[..w];
  }

  method Pack64(n: nat) returns (s: seq<byte>)
    requires n < TWO_TO_64
    ensures s == Leb(n) && |s| <= 10
  {
    LebIn64Bits(n);
    var buf := new byte[10];
    var w := PutUvarint(buf, n);
    return buf[..w];
  }

  function EncodedSize(n: nat): nat {
    if n < 0x80 then 1
    else if n < 0x4000 then 2
    else if n < 0x20_0000 then 3
    else if n < 0x1000_0000 then 4
    else if n < 0x8_0000_0000 then 5
    else if n < 0x400_0000_0000 then 6
    else if n < 0x2_0000_0000_0000 then 7
    else if n < 0x100_0000_0000_0000 then 8
    else if n < 0x8000_0000_0000_0000 then 9
    else 10
  }

  /** The size announced is the size packed. */
  lemma EncodedSizeIsPackedSize(n: nat)
    requires n < TWO_TO_64
    ensures EncodedSize(n) == |Leb(n)|
  {
    var k := EncodedSize(n);
    assert Pow128(3) == 0x20_0000;
    assert Pow128(6) == 128 * (128 * (128 * Pow128(3)));
    NinthDigit();
    LebAtMost(n, k);
    if k > 1 { LebAtLeast(n, k - 1); }
  }

  // ----- blocks

  function PrependLength(data: seq<byte>): seq<byte> {
    Leb(|data|) + data
  }

  /** The conversion of an unsigned to a signed 64-bit number. */
  function ToInt64(n: nat): int {
    if n <= MAX_INT64 then n else n - TWO_TO_64
  }

  function Wrap64(n: int): int {
    (n + (MAX_INT64 + 1)) % TWO_TO_64 - (MAX_INT64 + 1)
  }

  datatype Block = Block(data: seq<byte>, total: nat)

  /** GetNextBlock. The sum of the lengths wraps around; a negative total passes the length check
      and faults when slicing. */
  function GetNextBlock(data: seq<byte>): Result<Block> {
    var number := Unpack64(data);
    if number.Err? then Err(number.error)
    else
      var read := number.value.read;
      var total := Wrap64(ToInt64(number.value.n) + read);
      if total > |data| then Err(NotEnoughData)
      else if read <= total && read <= |data| then Ok(Block(data[read..total], total))
      else Err(SliceFault)
  }

  /** A block is read back before any suffix. */
  lemma BlockBeforeSuffix(data: seq<byte>, suffix: seq<byte>)
    requires |PrependLength(data)| <= MAX_INT64
    ensures GetNextBlock(PrependLength(data) + suffix) == Ok(Block(data, |PrependLength(data)|))
  {
    var all := PrependLength(data) + suffix;
    assert all == Leb(|data|) + (data + suffix);
    UnpackPacked(|data|, TWO_TO_64 - 1, data + suffix);
    assert all[|Leb(|data|)|..|PrependLength(data)|] == data;
  }

  /** Which buffers start with a block: those with a length, in any encoding, and as much data. */
  lemma GetNextBlockExactly(s: seq<byte>, data: seq<byte>, total: nat)
    requires |s| <= MAX_INT64
    ensures GetNextBlock(s) == Ok(Block(data, total))
        <==> |data| <= total <= |s|
             && Unpack64(s) == Ok(Number(|data|, total - |data|)) && s[total - |data|..total] == data
  {
    if Unpack64(s).Ok? {
      UnpackExactly(s, TWO_TO_64 - 1, Unpack64(s).value.n, Unpack64(s).value.read);
    }
  }

  /** Slicing faults on exactly the buffers that start with a number which, together with its own
      length, is above the signed range. */
  lemma SliceFaultExactly(s: seq<byte>)
    requires |s| <= MAX_INT64
    ensures GetNextBlock(s) == Err(SliceFault)
        <==> Unpack64(s).Ok? && Unpack64(s).value.n + Unpack64(s).value.read > MAX_INT64
  {
    if Unpack64(s).Ok? {
      UnpackExactly(s, TWO_TO_64 - 1, Unpack64(s).value.n, Unpack64(s).value.read);
    }
  }

  /** A group of k full digits and a one. */
  function Full(k: nat): seq<byte> {
    if k == 0 then [1] else [255] + Full(k - 1)
  }

  lemma {:induction false} ValueOfFull(k: nat)
    ensures |Full(k)| == k + 1 && Group(Full(k)) && Value(Full(k)) == 2 * Pow128(k) - 1
  {
    if k > 0 {
      ValueOfFull(k - 1);
      assert Full(k)[1..] == Full(k - 1);
    }
  }

  lemma FullTen(s: seq<byte>)
    requires s == [255, 255, 255, 255, 255, 255, 255, 255, 255, 1]
    ensures s == Full(9)
  {
    assert Full(3) == [255, 255, 255, 1];
    assert Full(6) == [255, 255, 255] + Full(3);
    assert Full(9) == [255, 255, 255] + Full(6);
  }

  /** Ten bytes on which slicing faults: the largest number there is. */
  lemma SliceFaultWitness(s: seq<byte>)
    requires s == [255, 255, 255, 255, 255, 255, 255, 255, 255, 1]
    ensures GetNextBlock(s) == Err(SliceFault)
  {
    FullTen(s);
    FullFaults(s);
  }

  lemma FullFaults(s: seq<byte>)
    requires s == Full(9)
    ensures GetNextBlock(s) == Err(SliceFault)
  {
    ValueOfFull(9);
    NinthDigit();
    assert s[..10] == s;
    UnpackExactly(s, TWO_TO_64 - 1, TWO_TO_64 - 1, 10);
    SliceFaultExactly(s);
  }
}
