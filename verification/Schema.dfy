/** The table header: the fixed 32-byte prologue, the 32-byte field
    descriptors that follow it, the strict per-field rules and the record
    length the descriptors imply. */
module Schema {
  import opened Results
  import opened Bytes
  import opened Text
  import opened Options
  import opened Encodings
  import opened Calendar

  const HeaderSize: nat := 32
  const DescriptorSize: nat := 32
  /** First byte of the descriptor slot that ends the descriptor array. */
  const Terminator: byte := 0x0D
  /** Longest field name, in bytes, that strict validation accepts. */
  const MaxNameBytes: nat := 10

  /** A column: its name, type letter, width in bytes and decimal count. */
  datatype Field = Field(name: string, ftype: byte, size: byte, decimals: byte)

  /** The fields of the 32-byte prologue the reader uses. The last-update
      date is kept as the raw (year, month, day) handed to time.Date. */
  datatype Header = Header(version: byte, lastUpdate: Date, recordCount: nat, headerLen: nat, recordLen: nat)

  // ---------------------------------------------------------------------------
  // Prologue

  /** The header fields of the prologue: the version byte, the last-update
      date as years since 1900, month and day, the little-endian record
      count and the little-endian header and record lengths. */
  function DecodeHeader(hdr: seq<byte>): (h: Header)
    requires |hdr| == HeaderSize
    ensures h.recordCount < TWO_32 && h.headerLen < TWO_16 && h.recordLen < TWO_16
    ensures 1900 <= h.lastUpdate.year < 1900 + 0x100
    ensures 0 <= h.lastUpdate.month < 0x100 && 0 <= h.lastUpdate.day < 0x100
  {
    Header(hdr[0], Date(hdr[1] as int + 1900, hdr[2], hdr[3]),
           Uint32(hdr[4..8]), Uint16(hdr[8..10]), Uint16(hdr[10..12]))
  }

  /** Headers a prologue can describe. */
  predicate Representable(h: Header) {
    && 1900 <= h.lastUpdate.year < 1900 + 0x100
    && 0 <= h.lastUpdate.month < 0x100 && 0 <= h.lastUpdate.day < 0x100
    && h.recordCount < TWO_32 && h.headerLen < TWO_16 && h.recordLen < TWO_16
  }

  /** Writes a header into a prologue, with `reserved` as bytes 12..31. */
  function EncodeHeader(h: Header, reserved: seq<byte>): (hdr: seq<byte>)
    requires Representable(h) && |reserved| == 20
    ensures |hdr| == HeaderSize && hdr[12..] == reserved
  {
    [h.version, h.lastUpdate.year - 1900, h.lastUpdate.month, h.lastUpdate.day]
      + PutUint32(h.recordCount) + PutUint16(h.headerLen) + PutUint16(h.recordLen) + reserved
  }

  lemma HeaderRoundTrip(h: Header, reserved: seq<byte>)
    requires Representable(h) && |reserved| == 20
    ensures DecodeHeader(EncodeHeader(h, reserved)) == h
  {
    var hdr := EncodeHeader(h, reserved);
    assert hdr[4..8] == PutUint32(h.recordCount);
    assert hdr[8..10] == PutUint16(h.headerLen);
    assert hdr[10..12] == PutUint16(h.recordLen);
    Uint32RoundTrip(h.recordCount);
    Uint16RoundTrip(h.headerLen);
    Uint16RoundTrip(h.recordLen);
  }

  /** Decoding loses nothing but the reserved tail: re-encoding a decoded
      prologue with its own tail gives the prologue back. */
  lemma PrologueRoundTrip(hdr: seq<byte>)
    requires |hdr| == HeaderSize
    ensures EncodeHeader(DecodeHeader(hdr), hdr[12..]) == hdr
  {
    var h := DecodeHeader(hdr);
    PutUint32RoundTrip(hdr[4..8]);
    PutUint16RoundTrip(hdr[8..10]);
    PutUint16RoundTrip(hdr[10..12]);
    assert hdr == hdr[..4] + hdr[4..8] + hdr[8..10] + hdr[10..12] + hdr[12..];
  }

  // ---------------------------------------------------------------------------
  // Descriptors

  function Zeros(n: nat): (z: seq<byte>)
    ensures |z| == n && forall i :: 0 <= i < n ==> z[i] == 0
  {
    seq(n, i => 0)
  }

  /** The bytes of one descriptor slot. */
  type DescriptorBytes = s: seq<byte> | |s| == DescriptorSize witness Zeros(DescriptorSize)

  /** One descriptor: the name is the bytes of 0..10 before the first NUL
      (all eleven when there is none), decoded with the encoding the options
      give the empty field name and trimmed of white space; the type letter,
      width and decimal count are bytes 11, 16 and 17. */
  function DecodeDescriptor(des: seq<byte>, ext: Externals, enc: EncodingConfig): (f: Field)
    requires |des| == DescriptorSize
  {
    var nameRaw := des[..11];
    var name := DecodeBytes(ext, nameRaw[..IndexOfNul(nameRaw)], FieldEncoding(enc, ""));
    Field(TrimSpace(name), des[11], des[16], des[17])
  }


  /** The descriptor decoder Open uses under the given encodings. */
  function DescriptorDecoder(ext: Externals, enc: EncodingConfig): DescriptorBytes -> Field {
    (des: DescriptorBytes) => DecodeDescriptor(des, ext, enc)
  }

  /** Writes a descriptor: the name bytes NUL-padded to eleven, the type
      letter, four zero bytes of field offset, width, decimals and fourteen
      reserved zero bytes. */
  function EncodeDescriptor(nameBytes: seq<byte>, ftype: byte, size: byte, decimals: byte): (des: seq<byte>)
    requires |nameBytes| <= 11
    ensures |des| == DescriptorSize
    ensures des[..|nameBytes|] == nameBytes && des[11] == ftype && des[16] == size && des[17] == decimals
  {
    nameBytes + Zeros(11 - |nameBytes|) + [ftype] + Zeros(4) + [size, decimals] + Zeros(14)
  }

  /** A name that survives the descriptor layout: at most eleven characters,
      each a non-NUL ISO-8859-1 code point, with no white space at its ends. */
  predicate StorableName(name: string) {
    && |name| <= 11
    && (forall i :: 0 <= i < |name| ==> 0 < name[i] as int < 0x100)
    && (name == [] || (!IsSpace(name[0]) && !IsSpace(name[|name| - 1])))
  }

  lemma {:induction false} IndexOfNulPadded(bs: seq<byte>, pad: seq<byte>)
    requires forall i :: 0 <= i < |bs| ==> bs[i] != 0
    requires forall i :: 0 <= i < |pad| ==> pad[i] == 0
    ensures IndexOfNul(bs + pad) == |bs|
  {
    if bs == [] {
      assert bs + pad == pad;
    } else {
      assert (bs + pad)[1..] == bs[1..] + pad;
      IndexOfNulPadded(bs[1..], pad);
    }
  }

  /** Any 32-byte slot: the name is the decoded, trimmed text of the bytes
      before the first NUL among the first eleven (all eleven when there is
      none), and the type letter, width and decimal count are bytes 11, 16
      and 17. */
  lemma DescriptorSlot(des: seq<byte>, ext: Externals, enc: EncodingConfig, k: nat)
    requires |des| == DescriptorSize && k <= 11
    requires forall i :: 0 <= i < k ==> des[i] != 0
    requires k == 11 || des[k] == 0
    ensures DecodeDescriptor(des, ext, enc)
         == Field(TrimSpace(DecodeBytes(ext, des[..k], FieldEncoding(enc, ""))), des[11], des[16], des[17])
  {
    var nameRaw := des[..11];
    assert IndexOfNul(nameRaw) == k;
    assert nameRaw[..k] == des[..k];
  }

  /** A descriptor written with an ISO-8859-1 name reads back as the same
      field, when names are decoded as ISO-8859-1. */
  lemma DescriptorRoundTrip(name: string, ftype: byte, size: byte, decimals: byte, ext: Externals, enc: EncodingConfig)
    requires StorableName(name)
    requires DecodesLatin1(ext) && ResolveCharset(FieldEncoding(enc, "")) == Latin1
    ensures DecodeDescriptor(EncodeDescriptor(Latin1Encode(name), ftype, size, decimals), ext, enc)
         == Field(name, ftype, size, decimals)
  {
    var bs := Latin1Encode(name);
    var des := EncodeDescriptor(bs, ftype, size, decimals);
    assert des[..11] == bs + Zeros(11 - |bs|);
    IndexOfNulPadded(bs, Zeros(11 - |bs|));
    assert des[..11][..|bs|] == bs;
    Latin1RoundTrip(name);
    assert [] + name + [] == name;
    TrimSpaceInvertsPadding([], name, []);
  }

  // ---------------------------------------------------------------------------
  // Strict validation

  /** isValidVersion: dBase III, dBase III/IV with memo, Visual FoxPro and
      FoxPro 2 with memo. */
  predicate ValidVersion(v: byte) {
    v == 0x03 || v == 0x83 || v == 0x8b || v == 0x30 || v == 0xf5
  }

  /** Versions whose memo lives in a .dbt sibling, and those that may use an
      .fpt one. */
  predicate DbtVersion(v: byte) {
    v == 0x83 || v == 0x8b
  }

  predicate FptVersion(v: byte) {
    v == 0x30 || v == 0xf5
  }

  predicate IsType(t: byte, letter: char) {
    t == letter as int
  }

  /** The ten type letters the decoder knows. */
  predicate KnownType(t: byte) {
    || IsType(t, 'C') || IsType(t, 'N') || IsType(t, 'F') || IsType(t, 'Y') || IsType(t, 'L')
    || IsType(t, 'D') || IsType(t, 'I') || IsType(t, 'M') || IsType(t, 'T') || IsType(t, 'B')
  }

  /** The width of a memo pointer: four bytes in Visual FoxPro tables (0x30),
      ten elsewhere. */
  function MemoSize(version: byte): byte {
    if version == 0x30 then 4 else 10
  }

  /** The width rule of each known type. Text widths are unconstrained: the
      width is a byte, so the source's "at most 255" always holds. */
  predicate WidthAllowed(t: byte, size: byte, version: byte) {
    if IsType(t, 'N') || IsType(t, 'F') then size <= 20
    else if IsType(t, 'Y') || IsType(t, 'D') || IsType(t, 'T') || IsType(t, 'B') then size == 8
    else if IsType(t, 'L') then size == 1
    else if IsType(t, 'M') then size == MemoSize(version)
    else true
  }

  predicate NameAllowed(name: string) {
    name != [] && ByteLen(name) <= MaxNameBytes
  }

  /** What strict validation accepts. */
  predicate Acceptable(f: Field, version: byte) {
    NameAllowed(f.name) && KnownType(f.ftype) && WidthAllowed(f.ftype, f.size, version)
  }

  /** validateField: the name, then the type, then the width rules in the
      source's order; None when the field passes. */
  function ValidateField(f: Field, version: byte): (r: Option<Error>)
    ensures r.None? <==> Acceptable(f, version)
    ensures r == Some(InvalidFieldName(f.name)) <==> !NameAllowed(f.name)
    ensures r == Some(InvalidFieldType(f.name, f.ftype)) <==> NameAllowed(f.name) && !KnownType(f.ftype)
    ensures r.Some? ==> r.value in {InvalidFieldName(f.name), InvalidFieldType(f.name, f.ftype), InvalidFieldSize(f.name, f.ftype, f.size)}
  {
    var t, size := f.ftype, f.size;
    if f.name == [] || ByteLen(f.name) > MaxNameBytes then Some(InvalidFieldName(f.name))
    else if !KnownType(t) then Some(InvalidFieldType(f.name, t))
    // A 'C' width above 255 is rejected by the source; a byte never is.
    else if (IsType(t, 'N') || IsType(t, 'F')) && size > 20 then Some(InvalidFieldSize(f.name, t, size))
    else if IsType(t, 'Y') && size != 8 then Some(InvalidFieldSize(f.name, t, size))
    else if IsType(t, 'L') && size != 1 then Some(InvalidFieldSize(f.name, t, size))
    else if IsType(t, 'D') && size != 8 then Some(InvalidFieldSize(f.name, t, size))
    else if IsType(t, 'T') && size != 8 then Some(InvalidFieldSize(f.name, t, size))
    else if IsType(t, 'B') && size != 8 then Some(InvalidFieldSize(f.name, t, size))
    else if IsType(t, 'M') && size != MemoSize(version) then Some(InvalidFieldSize(f.name, t, size))
    else None
  }

  /** Text fields pass with any width, memo widths depend on the version. */
  lemma TextWidthUnconstrained(name: string, size: byte, decimals: byte, version: byte)
    requires NameAllowed(name)
    ensures ValidateField(Field(name, 'C' as int, size, decimals), version).None?
  {
  }

  // ---------------------------------------------------------------------------
  // Record length

  /** Sum of the field widths. */
  function SumSizes(fields: seq<Field>): (n: nat)
    ensures n <= 0xFF * |fields|
    ensures fields != [] ==> n >= fields[0].size
  {
    if fields == [] then 0 else fields[0].size + SumSizes(fields[1..])
  }

  /** calcRecordLen: the deletion flag plus every width, truncated to 16 bits. */
  function CalcRecordLen(fields: seq<Field>): (n: nat)
    ensures n < TWO_16
    ensures n % TWO_16 == (1 + SumSizes(fields)) % TWO_16
    ensures 1 + SumSizes(fields) < TWO_16 ==> n == 1 + SumSizes(fields)
  {
    (1 + SumSizes(fields)) % TWO_16
  }

  /** The width sum over a concatenation is the sum of the parts. */
  lemma {:induction false} SumSizesAppend(a: seq<Field>, b: seq<Field>)
    ensures SumSizes(a + b) == SumSizes(a) + SumSizes(b)
  {
    if a == [] {
      assert a + b == b;
    } else {
      assert (a + b)[1..] == a[1..] + b;
      SumSizesAppend(a[1..], b);
    }
  }
}
