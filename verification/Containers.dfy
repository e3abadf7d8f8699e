/** Byte strings kept in compartments, for quick appending, prepending and fetching. */
module Containers {
  import opened Varint

  type Bytes = seq<byte>

  // ----- plain byte strings

  function Flat(cs: seq<Bytes>): Bytes {
    if cs == [] then [] else cs[0] + Flat(cs[1..])
  }

  function Take(s: Bytes, n: int): Bytes {
    if n <= 0 then [] else if n <= |s| then s[..n] else s
  }

  function Drop(s: Bytes, n: int): Bytes {
    if n <= 0 then s else if n <= |s| then s[n..] else []
  }

  function Unsigned(n: int): nat
    requires -MAX_INT64 - 1 <= n <= MAX_INT64
  {
    if n < 0 then n + TWO_TO_64 else n
  }

  /** The number at the start of a byte string, of at most width bytes. */
  function NextNumber(s: Bytes, width: nat, max: nat): Result<Number> {
    Unpack(Take(s, width), max)
  }

  /** The block at the start of a byte string. */
  function NextBlock(s: Bytes): Result<Bytes> {
    var number := NextNumber(s, 10, TWO_TO_64 - 1);
    if number.Err? then Err(number.error)
    else
      var rest, size := Drop(s, number.value.read), ToInt64(number.value.n);
      if |rest| < size then Err(NotEnoughData) else Ok(Take(rest, size))
  }

  /** What remains after asking for the block: a number that was read stays consumed. */
  function AfterBlock(s: Bytes): Bytes {
    var number := NextNumber(s, 10, TWO_TO_64 - 1);
    if number.Err? then s
    else
      var rest, size := Drop(s, number.value.read), ToInt64(number.value.n);
      if |rest| < size then rest else Drop(rest, size)
  }

  /** A packed number is the next number, whatever follows, if its type is no wider than asked. */
  lemma NextNumberOfPacked(n: nat, width: nat, max: nat, rest: Bytes)
    requires width > 0 && n <= max < TWO_TO_64 && max < Pow128(width)
    ensures NextNumber(Leb(n) + rest, width, max) == Ok(Number(n, |Leb(n)|))
    ensures Drop(Leb(n) + rest, |Leb(n)|) == rest
  {
    LebAtMost(n, width);
    assert Take(Leb(n) + rest, width) == Leb(n) + Take(rest, width - |Leb(n)|);
    UnpackPacked(n, max, Take(rest, width - |Leb(n)|));
  }

  /** A signed integer, added as its two's complement, is the next number taken as signed again. */
  lemma NextIntOfPacked(n: int, rest: Bytes)
    requires -MAX_INT64 - 1 <= n <= MAX_INT64
    ensures var next := NextNumber(Leb(Unsigned(n)) + rest, 10, TWO_TO_64 - 1); next.Ok? && ToInt64(next.value.n) == n
  {
    assert Pow128(10) > TWO_TO_64;
    NextNumberOfPacked(Unsigned(n), 10, TWO_TO_64 - 1, rest);
  }

  /** A block is the next block, whatever follows. */
  lemma NextBlockOfPacked(data: Bytes, rest: Bytes)
    requires |data| <= MAX_INT64
    ensures NextBlock(PrependLength(data) + rest) == Ok(data)
    ensures AfterBlock(PrependLength(data) + rest) == rest
  {
    NinthDigit();
    assert PrependLength(data) + rest == Leb(|data|) + (data + rest);
    NextNumberOfPacked(|data|, 10, TWO_TO_64 - 1, data + rest);
  }

  // ----- compartments

  lemma {:induction false} FlatAppend(a: seq<Bytes>, b: seq<Bytes>)
    ensures Flat(a + b) == Flat(a) + Flat(b)
  {
    if a == [] {
      assert a + b == b;
    } else {
      assert (a + b)[1..] == a[1..] + b;
      FlatAppend(a[1..], b);
    }
  }

  lemma FlatOne(data: Bytes)
    ensures Flat([data]) == data
  {
  }

  lemma FlatFrom(cs: seq<Bytes>, i: nat)
    requires i < |cs|
    ensures Flat(cs[i..]) == cs[i] + Flat(cs[i + 1..])
  {
  }

  /** All compartments below the offset are empty. */
  predicate Emptied(cs: seq<Bytes>, offset: nat) {
    offset <= |cs| && forall i | 0 <= i < offset :: cs[i] == []
  }

  lemma {:induction false} FlatEmptied(cs: seq<Bytes>, offset: nat)
    requires Emptied(cs, offset)
    ensures Flat(cs[offset..]) == Flat(cs)
  {
    if offset > 0 {
      FlatEmptied(cs[1..], offset - 1);
      assert cs[1..][offset - 1..] == cs[offset..];
    } else {
      assert cs[0..] == cs;
    }
  }

  /** The built-in copy: as much as fits. */
  method Copy(dst: array<byte>, at: nat, src: Bytes) returns (n: nat)
    requires at <= dst.Length
    modifies dst
    ensures n == if |src| <= dst.Length - at then |src| else dst.Length - at
    ensures dst[..at + n] == old(dst[..at]) + src[..n] && dst[at + n..] == old(dst[at + n..])
  {
    n := if |src| <= dst.Length - at then |src| else dst.Length - at;
    for i := 0 to n
      invariant forall j | 0 <= j < dst.Length :: dst[j] == if at <= j < at + i then src[j - at] else old(dst[j])
    {
      dst[at + i] := src[i];
    }
  }

  /** One step of filling a slice that held the bytes s0. */
  method WritePart(slice: array<byte>, at: nat, part: Bytes, ghost done: Bytes, ghost s0: Bytes) returns (n: nat)
    requires at == |done| <= slice.Length == |s0| && slice[..at] == done && slice[at..] == s0[at..]
    modifies slice
    ensures n == if |part| <= slice.Length - at then |part| else slice.Length - at
    ensures slice[..at + n] == done + part[..n] && slice[at + n..] == s0[at + n..]
  {
    ghost var before := slice[..];
    n := Copy(slice, at, part);
    assert before[at..][n..] == before[at + n..];
  }

  // ----- splitting a byte string at a position

  lemma Regroup(done: Bytes, part: Bytes, rest: Bytes)
    ensures done + (part + rest) == done + part + rest
  {
  }

  lemma SplitAt(done: Bytes, rest: Bytes)
    ensures Take(done + rest, |done|) == done && Drop(done + rest, |done|) == rest
  {
  }

  lemma SplitInside(done: Bytes, part: Bytes, rest: Bytes, k: nat)
    requires k <= |part|
    ensures Take(done + (part + rest), |done| + k) == done + part[..k]
    ensures Drop(done + (part + rest), |done| + k) == part[k..] + rest
  {
    assert done + (part + rest) == (done + part[..k]) + (part[k..] + rest);
    SplitAt(done + part[..k], part[k..] + rest);
  }

  class Container {
    var compartments: seq<Bytes>
    var offset: nat

    predicate Valid()
      reads this
    {
      Emptied(compartments, offset) && (compartments != [] ==> offset < |compartments|)
    }

    /** What all reading operations see. */
    ghost function Contents(): Bytes
      requires offset <= |compartments|
      reads this
    {
      Flat(compartments[offset..])
    }

    constructor (data: seq<Bytes>)
      ensures Valid() && Contents() == Flat(data) && |compartments| == |data|
    {
      compartments, offset := data, 0;
      new;
      assert compartments[0..] == data;
    }

    // ----- adding

    method RenewCompartments()
      requires Valid()
      modifies this
      ensures Valid() && offset == 4 && compartments != [] && Contents() == old(Contents())
    {
      var spare: seq<Bytes> := seq(5, _ => []);
      FlatEmptied(spare + compartments[offset..], 5);
      assert (spare + compartments[offset..])[5..] == compartments[offset..];
      compartments, offset := spare + compartments[offset..], 4;
      FlatEmptied(compartments, 4);
    }

    method Prepend(data: Bytes)
      requires Valid()
      modifies this
      ensures Valid() && compartments != [] && Contents() == data + old(Contents())
      ensures offset == if old(offset) == 0 then 3 else old(offset) - 1
    {
      if offset < 1 { RenewCompartments(); }
      offset := offset - 1;
      ghost var rest := compartments[offset + 1..];
      FlatFrom(compartments, offset);
      compartments := compartments[offset := data];
      FlatFrom(compartments, offset);
      assert compartments[offset + 1..] == rest;
    }

    method Append(data: Bytes)
      requires Valid()
      modifies this
      ensures Valid() && compartments != [] && Contents() == old(Contents()) + data
    {
      ghost var rest := compartments[offset..];
      compartments := compartments + [data];
      assert compartments[offset..] == rest + [data];
      FlatAppend(rest, [data]);
      FlatOne(data);
    }

    method PrependNumber(n: nat)
      requires Valid() && n < TWO_TO_64
      modifies this
      ensures Valid() && compartments != [] && Contents() == Leb(n) + old(Contents())
    {
      var packed := Pack64(n);
      Prepend(packed);
    }

    method AppendNumber(n: nat)
      requires Valid() && n < TWO_TO_64
      modifies this
      ensures Valid() && compartments != [] && Contents() == old(Contents()) + Leb(n)
    {
      var packed := Pack64(n);
      Append(packed);
    }

    method PrependInt(n: int)
      requires Valid() && -MAX_INT64 - 1 <= n <= MAX_INT64
      modifies this
      ensures Valid() && compartments != [] && Contents() == Leb(Unsigned(n)) + old(Contents())
    {
      PrependNumber(Unsigned(n));
    }

    method AppendInt(n: int)
      requires Valid() && -MAX_INT64 - 1 <= n <= MAX_INT64
      modifies this
      ensures Valid() && compartments != [] && Contents() == old(Contents()) + Leb(Unsigned(n))
    {
      AppendNumber(Unsigned(n));
    }

    method AppendAsBlock(data: Bytes)
      requires Valid() && |data| <= MAX_INT64
      modifies this
      ensures Valid() && compartments != [] && Contents() == old(Contents()) + Varint.PrependLength(data)
    {
      AppendNumber(|data|);
      Append(data);
    }

    method PrependAsBlock(data: Bytes)
      requires Valid() && |data| <= MAX_INT64
      modifies this
      ensures Valid() && compartments != [] && Contents() == Varint.PrependLength(data) + old(Contents())
    {
      Prepend(data);
      PrependNumber(|data|);
    }

    /** Correct only because the compartments of the other container below its offset are empty. */
    method AppendContainer(data: Container)
      requires Valid() && data.Valid()
      modifies this
      ensures Valid() && Contents() == old(Contents()) + old(data.Contents())
      ensures compartments == old(compartments) + old(data.compartments)
    {
      ghost var rest, added := compartments[offset..], data.compartments;
      FlatEmptied(data.compartments, data.offset);
      AppendStaysEmptied(compartments, data.compartments, offset);
      compartments := compartments + data.compartments;
      assert compartments[offset..] == rest + added;
      FlatAppend(rest, added);
    }

    method AppendContainerAsBlock(data: Container)
      requires Valid() && data.Valid() && |data.Contents()| <= MAX_INT64
      modifies this
      ensures Valid()
      ensures data != this ==> Contents() == old(Contents()) + Varint.PrependLength(old(data.Contents()))
      ensures data == this ==> Contents() == old(Contents()) + Leb(|old(Contents())|) + old(Contents()) + Leb(|old(Contents())|)
    {
      var length := data.Length();
      AppendNumber(length);
      ghost var added := data.Contents();
      AppendContainer(data);
      Regroup(old(Contents()), Leb(length), added);
      Regroup(old(Contents()) + Leb(length), old(Contents()), Leb(length));
    }

    /** The offset is kept, so the container then holds the data exactly if it was zero; otherwise
        nothing lies behind the offset. */
    method Replace(data: Bytes)
      requires Valid()
      modifies this
      ensures compartments == [data] && offset == old(offset)
      ensures Valid() <==> old(offset) == 0
      ensures old(offset) == 0 ==> Contents() == data
      ensures old(offset) > 0 ==> offset >= |compartments|
    {
      compartments := [data];
      assert compartments[0..] == [data];
      FlatOne(data);
    }

    // ----- looking

    method HoldsData() returns (r: bool)
      requires Valid()
      ensures r <==> Contents() != []
    {
      for i := offset to |compartments|
        invariant Contents() == Flat(compartments[i..])
      {
        FlatFrom(compartments, i);
        if |compartments[i]| > 0 { return true; }
      }
      return false;
    }

    method Length() returns (length: nat)
      requires Valid()
      ensures length == |Contents()|
    {
      length := 0;
      for i := offset to |compartments|
        invariant length + |Flat(compartments[i..])| == |Contents()|
      {
        FlatFrom(compartments, i);
        length := length + |compartments[i]|;
      }
    }

    method CompileData() returns (data: Bytes)
      requires Valid()
      modifies this
      ensures Valid() && data == Contents() == old(Contents()) && compartments == [data]
    {
      if |compartments| != 1 {
        var length := Length();
        var newBuf := new byte[length];
        var filled: nat := 0;
        ghost var s := Contents();
        for i := offset to |compartments|
          invariant compartments == old(compartments) && offset == old(offset)
          invariant filled <= newBuf.Length == |s| && s == newBuf[..filled] + Flat(compartments[i..])
        {
          FlatFrom(compartments, i);
          Regroup(newBuf[..filled], compartments[i], Flat(compartments[i + 1..]));
          var n := Copy(newBuf, filled, compartments[i]);
          filled := filled + n;
        }
        compartments, offset := [newBuf[..]], 0;
      }
      assert compartments[0..] == [compartments[0]];
      FlatOne(compartments[0]);
      return compartments[0];
    }

    /** Looking at data needs a compartment to look into. */
    method Peek(n: int) returns (r: Bytes)
      requires Valid() && (n > 0 ==> compartments != [])
      ensures r == Take(Contents(), n)
    {
      if n <= 0 { return []; }
      FlatFrom(compartments, offset);
      if |compartments[offset]| >= n {
        SplitInside([], compartments[offset], Flat(compartments[offset + 1..]), n);
        return compartments[offset][..n];
      }
      var slice := new byte[n];
      var filled: nat := 0;
      ghost var s, done := Contents(), [];
      for i := offset to |compartments|
        invariant filled < n == slice.Length && slice[..filled] == done && s == done + Flat(compartments[i..])
      {
        FlatFrom(compartments, i);
        var k := Copy(slice, filled, compartments[i]);
        PeekPart(s, done, compartments[i], Flat(compartments[i + 1..]), n, k);
        filled := filled + k;
        if filled == n { return slice[..filled]; }
        done := done + compartments[i];
      }
      assert done + [] == done;
      return slice[..filled];
    }

    method PeekContainer(n: int) returns (c: Container?)
      requires Valid()
      ensures c == null <==> n < 0 || n > |Contents()|
      ensures c != null ==> fresh(c) && c.Valid() && c.Contents() == Take(Contents(), n)
    {
      if n < 0 { return null; }
      c := new Container([]);
      if n == 0 { return; }
      var left, taken: seq<Bytes> := n, [];
      for i := offset to |compartments|
        invariant fresh(c) && 0 <= left <= n
        invariant Taken(Contents(), Flat(taken), Flat(compartments[i..]), n, left)
      {
        FlatFrom(compartments, i);
        var part := if left >= |compartments[i]| then compartments[i] else compartments[i][..left];
        FlatAppend(taken, [part]);
        FlatOne(part);
        TakePart(Contents(), Flat(taken), compartments[i], Flat(compartments[i + 1..]), n, left);
        taken, left := taken + [part], left - |part|;
      }
      if left > 0 { return null; }
      c := new Container(taken);
    }

    // ----- taking

    method CheckOffset()
      requires Emptied(compartments, offset)
      modifies this
      ensures Valid() && compartments == old(compartments) && Contents() == old(Contents())
    {
      if offset >= |compartments| {
        FlatEmptied(compartments, offset);
        offset := |compartments| / 2;
        FlatEmptied(compartments, offset);
      }
    }

    /** The first compartment is used up. */
    method DropCompartment()
      requires Emptied(compartments, offset) && offset < |compartments|
      modifies this
      ensures Emptied(compartments, offset) && |compartments| == |old(compartments)| && offset == old(offset) + 1
      ensures old(Contents()) == old(compartments[offset]) + Contents()
    {
      FlatFrom(compartments, offset);
      ghost var rest := compartments[offset + 1..];
      compartments := compartments[offset := []];
      offset := offset + 1;
      assert compartments[offset..] == rest;
    }

    /** The first k bytes of the first compartment are used up. */
    method CutCompartment(k: nat)
      requires Emptied(compartments, offset) && offset < |compartments| && k <= |compartments[offset]|
      modifies this
      ensures Valid() && |compartments| == |old(compartments)|
      ensures old(Contents()) == old(compartments[offset])[..k] + Contents()
      ensures k < |old(compartments[offset])| ==> Contents() != []
    {
      FlatFrom(compartments, offset);
      ghost var rest, part := compartments[offset + 1..], compartments[offset];
      compartments := compartments[offset := compartments[offset][k..]];
      FlatFrom(compartments, offset);
      assert compartments[offset + 1..] == rest;
      assert part == part[..k] + part[k..];
      Regroup(part[..k], part[k..], Flat(rest));
      CheckOffset();
    }

    method Skip(n: nat)
      requires Valid()
      modifies this
      ensures Valid() && |compartments| == |old(compartments)|
      ensures Contents() == Drop(old(Contents()), n)
    {
      var left: nat := n;
      ghost var gone: Bytes := [];
      while offset < |compartments|
        invariant Emptied(compartments, offset) && |compartments| == |old(compartments)|
        invariant left <= n && |gone| == n - left && old(Contents()) == gone + Contents()
        decreases |compartments| - offset
      {
        var part := compartments[offset];
        if |part| <= left {
          left := left - |part|;
          DropCompartment();
          Regroup(gone, part, Contents());
          gone := gone + part;
          if left == 0 {
            SplitAt(gone, Contents());
            CheckOffset();
            return;
          }
        } else {
          CutCompartment(left);
          Regroup(gone, part[..left], Contents());
          SplitAt(gone + part[..left], Contents());
          return;
        }
      }
      SplitAt(gone, []);
      CheckOffset();
    }

    method Get(n: int) returns (r: Result<Bytes>)
      requires Valid() && (n > 0 ==> compartments != [])
      modifies this
      ensures Valid() && |compartments| == |old(compartments)|
      ensures r == if n > |old(Contents())| then Err(NotEnoughData) else Ok(Take(old(Contents()), n))
      ensures Contents() == if n > |old(Contents())| then old(Contents()) else Drop(old(Contents()), n)
    {
      var buf := Peek(n);
      if |buf| < n { return Err(NotEnoughData); }
      Skip(|buf|);
      return Ok(buf);
    }

    method GetAll() returns (r: Bytes)
      requires Valid()
      modifies this
      ensures Valid() && r == old(Contents()) && Contents() == []
    {
      var length := Length();
      r := Peek(length);
      Skip(|r|);
    }

    method GetMax(n: int) returns (r: Bytes)
      requires Valid() && (n > 0 ==> compartments != [])
      modifies this
      ensures Valid() && r == Take(old(Contents()), n) && Contents() == Drop(old(Contents()), n)
    {
      r := Peek(n);
      Skip(|r|);
    }

    method GetAsContainer(n: int) returns (c: Container?)
      requires Valid()
      modifies this
      ensures Valid()
      ensures c == null <==> n < 0 || n > |old(Contents())|
      ensures c == null ==> Contents() == old(Contents())
      ensures c != null ==> fresh(c) && c.Valid() && c.Contents() == Take(old(Contents()), n)
      ensures c != null ==> Contents() == Drop(old(Contents()), n)
    {
      c := PeekContainer(n);
      if c != null { Skip(n); }
    }

    method WriteToSlice(slice: array<byte>) returns (n: nat, emptied: bool)
      requires Valid()
      modifies this, slice
      ensures Valid()
      ensures n == |Take(old(Contents()), slice.Length)|
      ensures slice[..n] == Take(old(Contents()), slice.Length) && slice[n..] == old(slice[n..])
      ensures Contents() == Drop(old(Contents()), slice.Length)
      ensures emptied <==> Contents() == []
    {
      n := 0;
      ghost var s0, done: Bytes := slice[..], [];
      while offset < |compartments|
        invariant Emptied(compartments, offset)
        invariant n == |done| <= slice.Length && slice[..n] == done && slice[n..] == s0[n..]
        invariant old(Contents()) == done + Contents()
        decreases |compartments| - offset
      {
        var part := compartments[offset];
        var k := WritePart(slice, n, part, done, s0);
        n := n + k;
        if k < |part| {
          CutCompartment(k);
          Regroup(done, part[..k], Contents());
          SplitAt(done + part[..k], Contents());
          return n, false;
        }
        DropCompartment();
        Regroup(done, part, Contents());
        done := done + part;
      }
      SplitAt(done, []);
      CheckOffset();
      return n, true;
    }

    // ----- numbers and blocks

    method PrependLength()
      requires Valid() && |Contents()| <= MAX_INT64
      modifies this
      ensures Valid() && compartments != [] && Contents() == Varint.PrependLength(old(Contents()))
    {
      var length := Length();
      PrependNumber(length);
    }

    /** What the next three do, by the bytes they look at and the bound of their type. */
    method GetNextNumber(width: nat, max: nat) returns (r: Result<nat>)
      requires Valid() && compartments != [] && max < TWO_TO_64
      modifies this
      ensures Valid() && |compartments| == |old(compartments)|
      ensures var number := NextNumber(old(Contents()), width, max);
        if number.Err? then r == Err(number.error) && Contents() == old(Contents())
        else r == Ok(number.value.n) && Contents() == Drop(old(Contents()), number.value.read)
    {
      var buf := Peek(width);
      var n, read := ReadUvarint(buf);
      if read == 0 { return Err(BufTooSmall); }
      if read < 0 { return Err(Overflow); }
      if n > max { return Err(TooLarge); }
      Skip(read);
      return Ok(n);
    }

    method GetNextN16() returns (r: Result<nat>)
      requires Valid() && compartments != []
      modifies this
      ensures Valid() && |compartments| == |old(compartments)|
      ensures var number := Unpack16(Take(old(Contents()), 3));
        if number.Err? then r == Err(number.error) && Contents() == old(Contents())
        else r == Ok(number.value.n) && Contents() == Drop(old(Contents()), number.value.read)
    {
      r := GetNextNumber(3, 65535);
    }

    method GetNextN32() returns (r: Result<nat>)
      requires Valid() && compartments != []
      modifies this
      ensures Valid() && |compartments| == |old(compartments)|
      ensures var number := Unpack32(Take(old(Contents()), 5));
        if number.Err? then r == Err(number.error) && Contents() == old(Contents())
        else r == Ok(number.value.n) && Contents() == Drop(old(Contents()), number.value.read)
    {
      r := GetNextNumber(5, 4294967295);
    }

    method GetNextN64() returns (r: Result<nat>)
      requires Valid() && compartments != []
      modifies this
      ensures Valid() && |compartments| == |old(compartments)|
      ensures var number := Unpack64(Take(old(Contents()), 10));
        if number.Err? then r == Err(number.error) && Contents() == old(Contents())
        else r == Ok(number.value.n) && Contents() == Drop(old(Contents()), number.value.read)
    {
      r := GetNextNumber(10, TWO_TO_64 - 1);
    }

    method GetNextN8() returns (r: Result<nat>)
      requires Valid() && compartments != []
      modifies this
      ensures Valid() && |compartments| == |old(compartments)|
      ensures var number := Unpack8(old(Contents()));
        if number.Err? then r == Err(number.error) && Contents() == old(Contents())
        else r == Ok(number.value.n) && Contents() == Drop(old(Contents()), 1)
    {
      var buf := Peek(2);
      var number := Unpack8(buf);
      if number.Err? { return Err(number.error); }
      Skip(number.value.read);
      return Ok(number.value.n);
    }

    method GetNextBlock() returns (r: Result<Bytes>)
      requires Valid() && compartments != []
      modifies this
      ensures Valid()
      ensures r == NextBlock(old(Contents())) && Contents() == AfterBlock(old(Contents()))
    {
      var size := GetNextN64();
      if size.Err? { return Err(size.error); }
      r := Get(ToInt64(size.value));
    }

    /** Unlike above, a length that is negative as a signed number is an error here. */
    method GetNextBlockAsContainer() returns (r: Result<Container>)
      requires Valid() && compartments != []
      modifies this
      ensures Valid()
      ensures r.Ok? ==> fresh(r.value) && r.value.Valid() && NextBlock(old(Contents())) == Ok(r.value.Contents())
      ensures r.Ok? ==> Contents() == AfterBlock(old(Contents()))
      ensures r.Err? <==>
        var number := NextNumber(old(Contents()), 10, TWO_TO_64 - 1);
        number.Err? || NextBlock(old(Contents())).Err? || number.value.n > MAX_INT64
    {
      var size := GetNextN64();
      if size.Err? { return Err(size.error); }
      var c := GetAsContainer(ToInt64(size.value));
      if c == null { return Err(NotEnoughData); }
      return Ok(c);
    }
  }

  /** Of a byte string, left of n bytes are still to be taken from what comes after those taken. */
  ghost predicate Taken(s: Bytes, taken: Bytes, rest: Bytes, n: nat, left: nat) {
    if left > 0 then |taken| + left == n && s == taken + rest else n <= |s| && taken == s[..n]
  }

  lemma TakePart(s: Bytes, taken: Bytes, part: Bytes, rest: Bytes, n: nat, left: nat)
    requires Taken(s, taken, part + rest, n, left) && left <= n
    ensures var k := if left >= |part| then |part| else left; Taken(s, taken + part[..k], rest, n, left - k)
  {
    if left > 0 {
      SplitInside(taken, part, rest, if left >= |part| then |part| else left);
    } else {
      assert taken + part[..0] == taken;
    }
  }

  lemma PeekPart(s: Bytes, done: Bytes, part: Bytes, rest: Bytes, n: nat, k: nat)
    requires s == done + (part + rest) && |done| + k <= n && (k == |part| || (k < |part| && |done| + k == n))
    ensures |done| + k == n ==> Take(s, n) == done + part[..k]
    ensures |done| + k < n ==> part[..k] == part && s == done + part + rest
  {
    SplitInside(done, part, rest, k);
    Regroup(done, part, rest);
  }

  lemma AppendStaysEmptied(a: seq<Bytes>, b: seq<Bytes>, offset: nat)
    requires Emptied(a, offset) && (a != [] ==> offset < |a|)
    ensures Emptied(a + b, offset) && (a + b != [] ==> offset < |a + b|)
  {
  }

  /** Replacing the data of a container that had something prepended: none of the new data is seen. */
  method ReplaceAfterPrepend(prepended: Bytes, data: Bytes) returns (c: Container)
    ensures c.compartments == [data] && c.offset == 3 > |c.compartments| && !c.Valid()
  {
    c := new Container([]);
    c.Prepend(prepended);
    c.Replace(data);
  }
}
