/** Raw database records: their metadata, and packing them for storage. */
module RecordWrapper {
  import opened Varint
  import opened Containers

  // ----- 64-bit integers, the lowest byte first

  function Octets(x: int, k: nat): (s: Bytes)
    ensures |s| == k
    decreases k
  {
    if k == 0 then [] else [x % 256] + Octets(x / 256, k - 1)
  }

  function LittleEndian(s: Bytes): nat {
    if s == [] then 0 else s[0] + 256 * LittleEndian(s[1..])
  }

  predicate IsInt64(x: int) {
    -MAX_INT64 - 1 <= x <= MAX_INT64
  }

  function Int64At(s: Bytes, at: nat): int
    requires at + 8 <= |s|
  {
    ToInt64(LittleEndian(s[at..at + 8]))
  }

  function Pow256(k: nat): nat {
    if k == 0 then 1 else 256 * Pow256(k - 1)
  }

  function Shifted(x: int, k: nat): int
    decreases k
  {
    if k == 0 then x else Shifted(x / 256, k - 1)
  }

  lemma {:induction false} OctetsDivide(x: int, k: nat)
    ensures x == LittleEndian(Octets(x, k)) + Pow256(k) * Shifted(x, k)
    ensures LittleEndian(Octets(x, k)) < Pow256(k)
    decreases k
  {
    if k > 0 {
      OctetsDivide(x / 256, k - 1);
      assert Octets(x, k)[1..] == Octets(x / 256, k - 1);
      DivideStep(x, LittleEndian(Octets(x / 256, k - 1)), Pow256(k - 1), Shifted(x, k));
    }
  }

  lemma DivideStep(x: int, low: nat, p: nat, q: int)
    requires x / 256 == low + p * q && low < p
    ensures x == x % 256 + 256 * low + 256 * p * q && x % 256 + 256 * low < 256 * p
  {
    assert 256 * (p * q) == 256 * p * q;
  }

  lemma Pow256Of8()
    ensures Pow256(8) == TWO_TO_64
  {
    assert Pow256(4) == 0x1_0000_0000;
    assert Pow256(8) == 256 * (256 * (256 * (256 * Pow256(4))));
  }

  /** Every signed 64-bit integer is read back from its bytes. */
  lemma Int64OfOctets(x: int)
    requires IsInt64(x)
    ensures ToInt64(LittleEndian(Octets(x, 8))) == x
  {
    OctetsDivide(x, 8);
    Pow256Of8();
    SignedFromRemainder(x, LittleEndian(Octets(x, 8)), Shifted(x, 8));
  }

  lemma SignedFromRemainder(x: int, low: nat, high: int)
    requires IsInt64(x) && low < TWO_TO_64 && x == low + TWO_TO_64 * high
    ensures ToInt64(low) == x
  {
    assert high == 0 || high == -1;
  }

  // ----- metadata

  datatype MetaValue = MetaValue(
    created: int, modified: int, expires: int, deleted: int, secret: bool, cronjewel: bool)
  {
    predicate InRange() {
      IsInt64(created) && IsInt64(modified) && IsInt64(expires) && IsInt64(deleted)
    }

    predicate IsDeleted() {
      deleted > 0
    }
  }

  const SIZE: nat := 34

  function Flag(b: bool): byte {
    if b then 1 else 0
  }

  /** The layout of packed metadata. */
  function GenCode(m: MetaValue): (s: Bytes)
    ensures |s| == SIZE
  {
    Octets(m.created, 8) + Octets(m.modified, 8) + Octets(m.expires, 8) + Octets(m.deleted, 8)
    + [Flag(m.secret), Flag(m.cronjewel)]
  }

  function FromGenCode(s: Bytes): (m: MetaValue)
    requires |s| >= SIZE
  {
    MetaValue(Int64At(s, 0), Int64At(s, 8), Int64At(s, 16), Int64At(s, 24), s[32] == 1, s[33] == 1)
  }

  lemma Parts(a: Bytes, b: Bytes, c: Bytes, d: Bytes, e: Bytes, suffix: Bytes)
    requires |a| == 8 && |b| == 8 && |c| == 8 && |d| == 8 && |e| == 2
    ensures var s := a + b + c + d + e + suffix;
      s[0..8] == a && s[8..16] == b && s[16..24] == c && s[24..32] == d && s[32] == e[0] && s[33] == e[1]
  {
  }

  /** Packed metadata is read back, whatever follows. */
  lemma GenCodeRoundTrip(m: MetaValue, suffix: Bytes)
    requires m.InRange()
    ensures FromGenCode(GenCode(m) + suffix) == m
  {
    Parts(Octets(m.created, 8), Octets(m.modified, 8), Octets(m.expires, 8), Octets(m.deleted, 8),
          [Flag(m.secret), Flag(m.cronjewel)], suffix);
    Int64OfOctets(m.created);
    Int64OfOctets(m.modified);
    Int64OfOctets(m.expires);
    Int64OfOctets(m.deleted);
  }

  class Meta {
    var created: int
    var modified: int
    var expires: int
    var deleted: int
    var secret: bool
    var cronjewel: bool

    constructor ()
      ensures Value() == MetaValue(0, 0, 0, 0, false, false)
    {
      created, modified, expires, deleted, secret, cronjewel := 0, 0, 0, 0, false, false;
    }

    function Value(): MetaValue
      reads this
    {
      MetaValue(created, modified, expires, deleted, secret, cronjewel)
    }

    method GenCodeMarshal() returns (r: Bytes)
      requires Value().InRange()
      ensures r == GenCode(Value())
    {
      var buf := new byte[SIZE];
      PutInt64(buf, 0, created);
      PutInt64(buf, 8, modified);
      PutInt64(buf, 16, expires);
      PutInt64(buf, 24, deleted);
      buf[32] := if secret then 1 else 0;
      buf[33] := if cronjewel then 1 else 0;
      Assemble(buf[..], Value());
      return buf[..];
    }

    /** All fields are set, or none if there is too little data. */
    method GenCodeUnmarshal(buf: Bytes) returns (ok: bool)
      modifies this
      ensures ok <==> |buf| >= SIZE
      ensures ok ==> Value() == FromGenCode(buf)
      ensures !ok ==> Value() == old(Value())
    {
      if |buf| < SIZE { return false; }
      created := ReadInt64(buf, 0);
      modified := ReadInt64(buf, 8);
      expires := ReadInt64(buf, 16);
      deleted := ReadInt64(buf, 24);
      secret := buf[32] == 1;
      cronjewel := buf[33] == 1;
      return true;
    }
  }

  lemma Assemble(s: Bytes, m: MetaValue)
    requires |s| == SIZE
    requires s[0..8] == Octets(m.created, 8) && s[8..16] == Octets(m.modified, 8)
    requires s[16..24] == Octets(m.expires, 8) && s[24..32] == Octets(m.deleted, 8)
    requires s[32] == Flag(m.secret) && s[33] == Flag(m.cronjewel)
    ensures s == GenCode(m)
  {
    assert s == s[0..8] + s[8..16] + s[16..24] + s[24..32] + [s[32], s[33]];
  }

  /** Eight bytes written one by one; shifting right is dividing towards minus infinity. */
  method PutInt64(buf: array<byte>, at: nat, x: int)
    requires at + 8 <= buf.Length
    modifies buf
    ensures buf[at..at + 8] == Octets(x, 8)
    ensures forall i | 0 <= i < buf.Length && !(at <= i < at + 8) :: buf[i] == old(buf[i])
  {
    var x1 := x / 256;
    var x2 := x1 / 256;
    var x3 := x2 / 256;
    var x4 := x3 / 256;
    var x5 := x4 / 256;
    var x6 := x5 / 256;
    var x7 := x6 / 256;
    buf[at], buf[at + 1], buf[at + 2], buf[at + 3] := x % 256, x1 % 256, x2 % 256, x3 % 256;
    buf[at + 4], buf[at + 5], buf[at + 6], buf[at + 7] := x4 % 256, x5 % 256, x6 % 256, x7 % 256;
    assert Octets(x6, 2) == [x6 % 256] + Octets(x7, 1) == [x6 % 256, x7 % 256];
    assert Octets(x4, 4) == [x4 % 256] + ([x5 % 256] + Octets(x6, 2));
    assert Octets(x2, 6) == [x2 % 256] + ([x3 % 256] + Octets(x4, 4));
    assert Octets(x, 8) == [x % 256] + ([x1 % 256] + Octets(x2, 6));
  }

  lemma LittleEndianFrom(s: Bytes, i: nat, j: nat)
    requires i < j <= |s|
    ensures LittleEndian(s[i..j]) == s[i] + 256 * LittleEndian(s[i + 1..j])
  {
    assert s[i..j][1..] == s[i + 1..j];
  }

  method ReadInt64(s: Bytes, at: nat) returns (x: int)
    requires at + 8 <= |s|
    ensures x == Int64At(s, at)
  {
    var n: int := s[at + 7];
    n := s[at + 6] + 256 * n;
    n := s[at + 5] + 256 * n;
    n := s[at + 4] + 256 * n;
    n := s[at + 3] + 256 * n;
    n := s[at + 2] + 256 * n;
    n := s[at + 1] + 256 * n;
    n := s[at] + 256 * n;
    forall i | at <= i < at + 8 ensures LittleEndian(s[i..at + 8]) == s[i] + 256 * LittleEndian(s[i + 1..at + 8]) {
      LittleEndianFrom(s, i, at + 8);
    }
    return ToInt64(n);
  }

  // ----- records

  const AUTO: byte := 0
  const RAW: byte := 1
  const GENCODE: byte := 71

  datatype LoadError =
    | Malformed(error: Error) | BadVersion | UnexpectedEnd | InsufficientData | BadFormat | MissingMeta | FormatMismatch

  datatype Outcome<T> = Success(value: T) | Failure(error: LoadError)

  datatype Wrapper = Wrapper(meta: MetaValue, format: byte, data: Bytes)

  /** Loading of metadata by its format identifier. The other formats, and unpacking, are done by
      libraries: they are the parameter foreign. */
  function LoadMeta(section: Bytes, foreign: (byte, Bytes) -> Outcome<MetaValue>): Outcome<MetaValue> {
    var format := Unpack8(section);
    if format.Err? then Failure(Malformed(format.error))
    else if |section| <= format.value.read then Failure(UnexpectedEnd)
    else
      var body := section[format.value.read..];
      if format.value.n == RAW || format.value.n == AUTO then Failure(BadFormat)
      else if format.value.n == GENCODE then
        if |body| < SIZE then Failure(InsufficientData) else Success(FromGenCode(body))
      else foreign(section[0], body)
  }

  /** NewRawWrapper */
  function Load(data: Bytes, foreign: (byte, Bytes) -> Outcome<MetaValue>): Outcome<Wrapper> {
    var version := Unpack8(data);
    if version.Err? then Failure(Malformed(version.error))
    else if version.value.n != 1 then Failure(BadVersion)
    else
      var block := GetNextBlock(data[1..]);
      if block.Err? then Failure(Malformed(block.error))
      else
        var meta := LoadMeta(block.value.data, foreign);
        if meta.Failure? then Failure(meta.error)
        else LoadBody(meta.value, Drop(data[1..], block.value.total))
  }

  /** What comes after the metadata: format and data, unless the record is deleted. */
  function LoadBody(meta: MetaValue, rest: Bytes): Outcome<Wrapper> {
    if meta.IsDeleted() then Success(Wrapper(meta, RAW, rest))
    else
      var format := Unpack8(rest);
      if format.Err? then Failure(Malformed(format.error)) else Success(Wrapper(meta, rest[0], rest[1..]))
  }

  function MetaSection(meta: MetaValue): Bytes {
    Pack8(GENCODE) + GenCode(meta)
  }

  function DataSection(w: Wrapper): Bytes {
    if w.meta.IsDeleted() then [] else [w.format] + w.data
  }

  /** The layout of a stored record: version, metadata as a block, data. */
  function Stored(w: Wrapper): Bytes {
    [1] + (PrependLength(MetaSection(w.meta)) + DataSection(w))
  }

  /** A record whose data loads: the format is written as one byte, and read as a packed number. */
  predicate Loadable(w: Wrapper) {
    w.meta.deleted > 0 || w.format < 128 || (w.data != [] && w.data[0] == 1)
  }

  lemma LoadMetaSection(meta: MetaValue, foreign: (byte, Bytes) -> Outcome<MetaValue>)
    requires meta.InRange()
    ensures LoadMeta(MetaSection(meta), foreign) == Success(meta)
  {
    var section := MetaSection(meta);
    assert section[1..] == GenCode(meta);
    GenCodeRoundTrip(meta, []);
    assert GenCode(meta) + [] == GenCode(meta);
  }

  lemma LoadDataSection(w: Wrapper)
    ensures LoadBody(w.meta, DataSection(w)) ==
      if !Loadable(w) then Failure(Malformed(if w.data == [] then BufTooSmall else TooLarge))
      else if w.meta.deleted > 0 then Success(Wrapper(w.meta, RAW, []))
      else Success(w)
  {
    if !w.meta.IsDeleted() { assert DataSection(w)[1..] == w.data; }
  }

  /** Loading a stored record gives the record back, stripped of format and data if it is deleted,
      exactly if it is loadable; all records with formats below 128 are. */
  lemma RoundTrip(w: Wrapper, foreign: (byte, Bytes) -> Outcome<MetaValue>)
    requires w.meta.InRange()
    ensures Load(Stored(w), foreign) ==
      if !Loadable(w) then Failure(Malformed(if w.data == [] then BufTooSmall else TooLarge))
      else if w.meta.deleted > 0 then Success(Wrapper(w.meta, RAW, []))
      else Success(w)
  {
    var block := PrependLength(MetaSection(w.meta));
    assert Stored(w)[1..] == block + DataSection(w);
    EncodedSizeIsPackedSize(|MetaSection(w.meta)|);
    BlockBeforeSuffix(MetaSection(w.meta), DataSection(w));
    SplitAt(block, DataSection(w));
    LoadMetaSection(w.meta, foreign);
    LoadDataSection(w);
  }

  /** What has a format identifier below 128 and is not deleted loads back with its data. */
  lemma LiveRecordLoads(w: Wrapper, foreign: (byte, Bytes) -> Outcome<MetaValue>)
    requires w.meta.InRange() && w.meta.deleted <= 0 && w.format < 128
    ensures Load(Stored(w), foreign) == Success(w)
  {
    RoundTrip(w, foreign);
  }

  /** Metadata is refused in the two formats that are none, and packed metadata if it is too short;
      any other format is left to the libraries. */
  lemma MetaFormats(format: byte, body: Bytes, foreign: (byte, Bytes) -> Outcome<MetaValue>)
    requires body != [] && format < 128
    ensures LoadMeta([format] + body, foreign) ==
      if format == 0 || format == 1 then Failure(BadFormat)
      else if format != 71 then foreign(format, body)
      else if |body| < 34 then Failure(InsufficientData)
      else Success(FromGenCode(body))
    ensures LoadMeta([format], foreign) == Failure(UnexpectedEnd)
  {
    var section := [format] + body;
    assert section[1..] == body && section[0] == format;
  }

  /** Only version 1 is loaded. */
  lemma OtherVersionsRejected(version: byte, rest: Bytes, foreign: (byte, Bytes) -> Outcome<MetaValue>)
    requires version < 128 && version != 1
    ensures Load([version] + rest, foreign) == Failure(BadVersion)
  {
    var data := [version] + rest;
    assert data[0] == version;
  }

  /** Loading faults on exactly the data of version 1 in which the length of the metadata, together
      with its own length, is above the signed range. Libraries do not fault. */
  lemma LoadFaultsExactly(data: Bytes, foreign: (byte, Bytes) -> Outcome<MetaValue>)
    requires |data| <= MAX_INT64 && forall format, body :: foreign(format, body) != Failure(Malformed(SliceFault))
    ensures Load(data, foreign) == Failure(Malformed(SliceFault))
        <==> |data| > 0 && data[0] == 1 && Unpack64(data[1..]).Ok?
             && Unpack64(data[1..]).value.n + Unpack64(data[1..]).value.read > MAX_INT64
  {
    if |data| > 0 {
      SliceFaultExactly(data[1..]);
      var block := GetNextBlock(data[1..]);
      if block.Ok? { MetaDoesNotFault(block.value.data, foreign); }
    }
  }

  lemma MetaDoesNotFault(section: Bytes, foreign: (byte, Bytes) -> Outcome<MetaValue>)
    requires forall format, body :: foreign(format, body) != Failure(Malformed(SliceFault))
    ensures LoadMeta(section, foreign) != Failure(Malformed(SliceFault))
  {
    if |section| > 0 { assert foreign(section[0], section[1..]) != Failure(Malformed(SliceFault)); }
  }

  /** A wrapped record as an object; it may have no metadata. */
  class WrapperObject {
    var meta: Meta?
    var format: byte
    var data: Bytes

    constructor (meta: Meta?, format: byte, data: Bytes)
      ensures this.meta == meta && this.format == format && this.data == data
    {
      this.meta, this.format, this.data := meta, format, data;
    }

    function Value(): Wrapper
      requires meta != null
      reads this, meta
    {
      Wrapper(meta.Value(), format, data)
    }

    method Marshal(asFormat: byte) returns (r: Outcome<Bytes>)
      ensures meta == null ==> r == Failure(MissingMeta)
      ensures meta != null && Value().meta.deleted <= 0 && asFormat != AUTO && asFormat != format ==> r == Failure(FormatMismatch)
      ensures meta != null && (Value().meta.deleted > 0 || asFormat == AUTO || asFormat == format) ==>
        r == Success(DataSection(Value()))
    {
      if meta == null { return Failure(MissingMeta); }
      if meta.deleted > 0 { return Success([]); }
      if asFormat != AUTO && asFormat != format { return Failure(FormatMismatch); }
      var buf := new byte[|data| + 1];
      buf[0] := format;
      assert buf[..1] == [format];
      var n := Copy(buf, 1, data);
      assert buf[..] == buf[..1 + n] && data[..n] == data;
      return Success(buf[..]);
    }

    /** MarshalRecord, by way of a container. */
    method MarshalRecord() returns (r: Outcome<Bytes>)
      requires meta != null ==> meta.Value().InRange()
      ensures meta == null ==> r == Failure(MissingMeta)
      ensures meta != null ==> r == Success(Stored(Value()))
    {
      if meta == null { return Failure(MissingMeta); }
      var c := new Container([[1]]);
      FlatOne([1]);
      var metaSection := meta.GenCodeMarshal();
      c.AppendAsBlock(Pack8(GENCODE) + metaSection);
      var dataSection := Marshal(AUTO);
      c.Append(dataSection.value);
      var compiled := c.CompileData();
      Regroup([1], PrependLength(MetaSection(meta.Value())), DataSection(Value()));
      return Success(compiled);
    }
  }
}
