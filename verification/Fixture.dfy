/** The test suite's fixture table: a dBase III file with one field of each
    supported type and three records, the third marked deleted. Its 573
    bytes are written here as the source lists them, grouped into the
    prologue, the ten descriptor slots, the terminator, the field spans of
    each record and the end-of-file byte. */
module Fixture {
  import opened Results
  import opened Bytes
  import opened Text
  import opened Options
  import opened Encodings
  import opened Calendar
  import opened Schema
  import opened Records
  import opened Tables
  import opened Cursor

  // ---------------------------------------------------------------------------
  // The bytes

  /** Version 0x03, last update 2024-01-01, 3 records, a 353-byte header and
      73-byte records, then twenty reserved zero bytes. */
  const Prologue: seq<byte> := [0x03, 0x7c, 0x01, 0x01, 0x03, 0x00, 0x00, 0x00, 0x61, 0x01, 0x49, 0x00, 0x00, 0x00, 0x00, 0x00, 0x00, 0x00, 0x00, 0x00, 0x00, 0x00, 0x00, 0x00, 0x00, 0x00, 0x00, 0x00, 0x00, 0x00, 0x00, 0x00]

  /** The descriptor slots, each the NUL-padded name, the type letter, the
      width and the decimal count, every other byte zero. */
  const NameSlot: seq<byte> := [0x4e, 0x41, 0x4d, 0x45, 0x00, 0x00, 0x00, 0x00, 0x00, 0x00, 0x00, 0x43, 0x00, 0x00, 0x00, 0x00, 0x0a, 0x00, 0x00, 0x00, 0x00, 0x00, 0x00, 0x00, 0x00, 0x00, 0x00, 0x00, 0x00, 0x00, 0x00, 0x00]
  const AgeSlot: seq<byte> := [0x41, 0x47, 0x45, 0x00, 0x00, 0x00, 0x00, 0x00, 0x00, 0x00, 0x00, 0x4e, 0x00, 0x00, 0x00, 0x00, 0x05, 0x00, 0x00, 0x00, 0x00, 0x00, 0x00, 0x00, 0x00, 0x00, 0x00, 0x00, 0x00, 0x00, 0x00, 0x00]
  const BalanceSlot: seq<byte> := [0x42, 0x41, 0x4c, 0x41, 0x4e, 0x43, 0x45, 0x00, 0x00, 0x00, 0x00, 0x46, 0x00, 0x00, 0x00, 0x00, 0x0a, 0x02, 0x00, 0x00, 0x00, 0x00, 0x00, 0x00, 0x00, 0x00, 0x00, 0x00, 0x00, 0x00, 0x00, 0x00]
  const CurrSlot: seq<byte> := [0x43, 0x55, 0x52, 0x52, 0x00, 0x00, 0x00, 0x00, 0x00, 0x00, 0x00, 0x59, 0x00, 0x00, 0x00, 0x00, 0x08, 0x04, 0x00, 0x00, 0x00, 0x00, 0x00, 0x00, 0x00, 0x00, 0x00, 0x00, 0x00, 0x00, 0x00, 0x00]
  const ActiveSlot: seq<byte> := [0x41, 0x43, 0x54, 0x49, 0x56, 0x45, 0x00, 0x00, 0x00, 0x00, 0x00, 0x4c, 0x00, 0x00, 0x00, 0x00, 0x01, 0x00, 0x00, 0x00, 0x00, 0x00, 0x00, 0x00, 0x00, 0x00, 0x00, 0x00, 0x00, 0x00, 0x00, 0x00]
  const BirthSlot: seq<byte> := [0x42, 0x49, 0x52, 0x54, 0x48, 0x00, 0x00, 0x00, 0x00, 0x00, 0x00, 0x44, 0x00, 0x00, 0x00, 0x00, 0x08, 0x00, 0x00, 0x00, 0x00, 0x00, 0x00, 0x00, 0x00, 0x00, 0x00, 0x00, 0x00, 0x00, 0x00, 0x00]
  const CountSlot: seq<byte> := [0x43, 0x4f, 0x55, 0x4e, 0x54, 0x00, 0x00, 0x00, 0x00, 0x00, 0x00, 0x49, 0x00, 0x00, 0x00, 0x00, 0x04, 0x00, 0x00, 0x00, 0x00, 0x00, 0x00, 0x00, 0x00, 0x00, 0x00, 0x00, 0x00, 0x00, 0x00, 0x00]
  const RatioSlot: seq<byte> := [0x52, 0x41, 0x54, 0x49, 0x4f, 0x00, 0x00, 0x00, 0x00, 0x00, 0x00, 0x42, 0x00, 0x00, 0x00, 0x00, 0x08, 0x00, 0x00, 0x00, 0x00, 0x00, 0x00, 0x00, 0x00, 0x00, 0x00, 0x00, 0x00, 0x00, 0x00, 0x00]
  const StampSlot: seq<byte> := [0x53, 0x54, 0x41, 0x4d, 0x50, 0x00, 0x00, 0x00, 0x00, 0x00, 0x00, 0x54, 0x00, 0x00, 0x00, 0x00, 0x08, 0x00, 0x00, 0x00, 0x00, 0x00, 0x00, 0x00, 0x00, 0x00, 0x00, 0x00, 0x00, 0x00, 0x00, 0x00]
  const MemoSlot: seq<byte> := [0x4d, 0x45, 0x4d, 0x4f, 0x00, 0x00, 0x00, 0x00, 0x00, 0x00, 0x00, 0x4d, 0x00, 0x00, 0x00, 0x00, 0x0a, 0x00, 0x00, 0x00, 0x00, 0x00, 0x00, 0x00, 0x00, 0x00, 0x00, 0x00, 0x00, 0x00, 0x00, 0x00]

  /** Record 1, not deleted: "José", 42, 123.45, 12.3400, true, 1990-01-01,
      123456, 3.14159, 2023-08-15 23:59:59 and an empty memo. */
  const FirstName: seq<byte> := [0x4a, 0x6f, 0x73, 0xe9, 0x20, 0x20, 0x20, 0x20, 0x20, 0x20]
  const FirstAge: seq<byte> := [0x20, 0x20, 0x20, 0x34, 0x32]
  const FirstBalance: seq<byte> := [0x20, 0x20, 0x20, 0x20, 0x31, 0x32, 0x33, 0x2e, 0x34, 0x35]
  const FirstCurr: seq<byte> := [0x08, 0xe2, 0x01, 0x00, 0x00, 0x00, 0x00, 0x00]
  const FirstActive: seq<byte> := [0x54]
  const FirstBirth: seq<byte> := [0x31, 0x39, 0x39, 0x30, 0x30, 0x31, 0x30, 0x31]
  const FirstCount: seq<byte> := [0x40, 0xe2, 0x01, 0x00]
  const FirstRatio: seq<byte> := [0x6e, 0x86, 0x1b, 0xf0, 0xf9, 0x21, 0x09, 0x40]
  const FirstStamp: seq<byte> := [0x0c, 0x8a, 0x25, 0x00, 0x18, 0x58, 0x26, 0x05]
  const FirstMemo: seq<byte> := [0x00, 0x00, 0x00, 0x00, 0x00, 0x00, 0x00, 0x00, 0x00, 0x00]
  const First: seq<seq<byte>> := [FirstName, FirstAge, FirstBalance, FirstCurr, FirstActive, FirstBirth, FirstCount, FirstRatio, FirstStamp, FirstMemo]
  const FirstBuffer: seq<byte> := [Blank] + Concat(First)

  /** Record 2, not deleted: blanks, -9876.5432, false, 2021-12-31, -50,
      -42.5, 2020-03-10 08:30:15 and an empty memo. */
  const SecondName: seq<byte> := [0x20, 0x20, 0x20, 0x20, 0x20, 0x20, 0x20, 0x20, 0x20, 0x20]
  const SecondAge: seq<byte> := [0x20, 0x20, 0x20, 0x20, 0x20]
  const SecondBalance: seq<byte> := [0x20, 0x20, 0x20, 0x20, 0x20, 0x20, 0x20, 0x20, 0x20, 0x20]
  const SecondCurr: seq<byte> := [0x88, 0xf5, 0x1c, 0xfa, 0xff, 0xff, 0xff, 0xff]
  const SecondActive: seq<byte> := [0x46]
  const SecondBirth: seq<byte> := [0x32, 0x30, 0x32, 0x31, 0x31, 0x32, 0x33, 0x31]
  const SecondCount: seq<byte> := [0xce, 0xff, 0xff, 0xff]
  const SecondRatio: seq<byte> := [0x00, 0x00, 0x00, 0x00, 0x00, 0x40, 0x45, 0xc0]
  const SecondStamp: seq<byte> := [0x27, 0x85, 0x25, 0x00, 0xd8, 0x25, 0xd3, 0x01]
  const SecondMemo: seq<byte> := [0x00, 0x00, 0x00, 0x00, 0x00, 0x00, 0x00, 0x00, 0x00, 0x00]
  const Second: seq<seq<byte>> := [SecondName, SecondAge, SecondBalance, SecondCurr, SecondActive, SecondBirth, SecondCount, SecondRatio, SecondStamp, SecondMemo]
  const SecondBuffer: seq<byte> := [Blank] + Concat(Second)

  /** Record 3, deleted: "Deleted", 99, 1.23, zero currency, an unset
      logical, 2000-01-01, 7, 2.5, 2019-12-31 00:00:00 and an empty memo. */
  const ThirdName: seq<byte> := [0x44, 0x65, 0x6c, 0x65, 0x74, 0x65, 0x64, 0x20, 0x20, 0x20]
  const ThirdAge: seq<byte> := [0x20, 0x20, 0x20, 0x39, 0x39]
  const ThirdBalance: seq<byte> := [0x20, 0x20, 0x20, 0x20, 0x20, 0x20, 0x31, 0x2e, 0x32, 0x33]
  const ThirdCurr: seq<byte> := [0x00, 0x00, 0x00, 0x00, 0x00, 0x00, 0x00, 0x00]
  const ThirdActive: seq<byte> := [0x3f]
  const ThirdBirth: seq<byte> := [0x32, 0x30, 0x30, 0x30, 0x30, 0x31, 0x30, 0x31]
  const ThirdCount: seq<byte> := [0x07, 0x00, 0x00, 0x00]
  const ThirdRatio: seq<byte> := [0x00, 0x00, 0x00, 0x00, 0x00, 0x00, 0x04, 0x40]
  const ThirdStamp: seq<byte> := [0xe1, 0x84, 0x25, 0x00, 0x00, 0x00, 0x00, 0x00]
  const ThirdMemo: seq<byte> := [0x00, 0x00, 0x00, 0x00, 0x00, 0x00, 0x00, 0x00, 0x00, 0x00]
  const Third: seq<seq<byte>> := [ThirdName, ThirdAge, ThirdBalance, ThirdCurr, ThirdActive, ThirdBirth, ThirdCount, ThirdRatio, ThirdStamp, ThirdMemo]
  const ThirdBuffer: seq<byte> := [DeletedMarker] + Concat(Third)

  const Blank: byte := 0x20

  const Slots: seq<seq<byte>> := [NameSlot, AgeSlot, BalanceSlot, CurrSlot, ActiveSlot, BirthSlot, CountSlot, RatioSlot, StampSlot, MemoSlot]
  const Buffers: seq<seq<byte>> := [FirstBuffer, SecondBuffer, ThirdBuffer]
  const EndOfFile: byte := 0x1a

  /** The whole file, ending with the end-of-file byte. */
  const File: seq<byte> := Prologue + Concat(Slots) + [Terminator] + (Concat(Buffers) + [EndOfFile])

  /** The fields the descriptors describe. */
  const NameField: Field := Field("NAME", 'C' as int, 10, 0)
  const AgeField: Field := Field("AGE", 'N' as int, 5, 0)
  const BalanceField: Field := Field("BALANCE", 'F' as int, 10, 2)
  const CurrField: Field := Field("CURR", 'Y' as int, 8, 4)
  const ActiveField: Field := Field("ACTIVE", 'L' as int, 1, 0)
  const BirthField: Field := Field("BIRTH", 'D' as int, 8, 0)
  const CountField: Field := Field("COUNT", 'I' as int, 4, 0)
  const RatioField: Field := Field("RATIO", 'B' as int, 8, 0)
  const StampField: Field := Field("STAMP", 'T' as int, 8, 0)
  const MemoField: Field := Field("MEMO", 'M' as int, 10, 0)
  const Fields: seq<Field> := [NameField, AgeField, BalanceField, CurrField, ActiveField, BirthField, CountField, RatioField, StampField, MemoField]

  /** The table the fixture opens to under the given (normalised) options. */
  function Opened(opt: OpenOptions): Table {
    Table(3, Date(2024, 1, 1), Fields, 0x03, 353, 73, NoMemo, opt, 0)
  }

  // ---------------------------------------------------------------------------
  // The header

  lemma PrologueHeader()
    ensures DecodeHeader(Prologue) == Header(0x03, Date(2024, 1, 1), 3, 353, 73)
  {
    var h := Header(0x03, Date(2024, 1, 1), 3, 353, 73);
    assert Prologue == EncodeHeader(h, Zeros(20));
    HeaderRoundTrip(h, Zeros(20));
  }

  /** Names of one to eleven upper-case ASCII letters, as in the fixture. */
  predicate UpperCaseName(name: string) {
    0 < |name| <= 11 && forall i :: 0 <= i < |name| ==> 'A' <= name[i] <= 'Z'
  }

  lemma UpperCaseNameStorable(name: string)
    requires UpperCaseName(name)
    ensures StorableName(name) && name[0] as int != Terminator
  {
  }

  /** The slot a descriptor writer produces for a field with an ISO-8859-1
      name. */
  function SlotFor(f: Field): (des: seq<byte>)
    requires UpperCaseName(f.name)
    ensures |des| == DescriptorSize
  {
    EncodeDescriptor(Latin1Encode(f.name), f.ftype, f.size, f.decimals)
  }

  // Each slot, byte for byte, is the one written for its field.
  lemma NameSlotWritten()
    ensures UpperCaseName(NameField.name) && NameSlot == SlotFor(NameField)
  {
  }

  lemma AgeSlotWritten()
    ensures UpperCaseName(AgeField.name) && AgeSlot == SlotFor(AgeField)
  {
  }

  lemma BalanceSlotWritten()
    ensures UpperCaseName(BalanceField.name) && BalanceSlot == SlotFor(BalanceField)
  {
  }

  lemma CurrSlotWritten()
    ensures UpperCaseName(CurrField.name) && CurrSlot == SlotFor(CurrField)
  {
  }

  lemma ActiveSlotWritten()
    ensures UpperCaseName(ActiveField.name) && ActiveSlot == SlotFor(ActiveField)
  {
  }

  lemma BirthSlotWritten()
    ensures UpperCaseName(BirthField.name) && BirthSlot == SlotFor(BirthField)
  {
  }

  lemma CountSlotWritten()
    ensures UpperCaseName(CountField.name) && CountSlot == SlotFor(CountField)
  {
  }

  lemma RatioSlotWritten()
    ensures UpperCaseName(RatioField.name) && RatioSlot == SlotFor(RatioField)
  {
  }

  lemma StampSlotWritten()
    ensures UpperCaseName(StampField.name) && StampSlot == SlotFor(StampField)
  {
  }

  lemma MemoSlotWritten()
    ensures UpperCaseName(MemoField.name) && MemoSlot == SlotFor(MemoField)
  {
  }


  lemma SlotsWritten()
    ensures |Slots| == |Fields|
    ensures forall j :: 0 <= j < |Slots| ==> UpperCaseName(Fields[j].name) && Slots[j] == SlotFor(Fields[j])
  {
    forall j | 0 <= j < |Slots|
      ensures UpperCaseName(Fields[j].name) && Slots[j] == SlotFor(Fields[j])
    {
      if j == 0 { NameSlotWritten(); }
      else if j == 1 { AgeSlotWritten(); }
      else if j == 2 { BalanceSlotWritten(); }
      else if j == 3 { CurrSlotWritten(); }
      else if j == 4 { ActiveSlotWritten(); }
      else if j == 5 { BirthSlotWritten(); }
      else if j == 6 { CountSlotWritten(); }
      else if j == 7 { RatioSlotWritten(); }
      else if j == 8 { StampSlotWritten(); }
      else { MemoSlotWritten(); }
    }
  }

  /** A written slot starts with its name, never the terminator, and decodes
      back to its field. */
  lemma WrittenSlotDecodes(f: Field, ext: Externals, enc: EncodingConfig)
    requires UpperCaseName(f.name)
    requires DecodesLatin1(ext) && ResolveCharset(FieldEncoding(enc, "")) == Latin1
    ensures SlotFor(f)[0] != Terminator && DescriptorDecoder(ext, enc)(SlotFor(f)) == f
  {
    var des := SlotFor(f);
    UpperCaseNameStorable(f.name);
    assert des[..|f.name|] == Latin1Encode(f.name);
    assert des[0] == des[..|f.name|][0];
    DescriptorRoundTrip(f.name, f.ftype, f.size, f.decimals, ext, enc);
  }

  /** Every slot decodes, under ISO-8859-1 names, to its field. */
  lemma SlotsDecode(ext: Externals, enc: EncodingConfig)
    requires DecodesLatin1(ext) && ResolveCharset(FieldEncoding(enc, "")) == Latin1
    ensures |Slots| == |Fields|
    ensures forall j :: 0 <= j < |Slots| ==>
      |Slots[j]| == DescriptorSize && Slots[j][0] != Terminator && DescriptorDecoder(ext, enc)(Slots[j]) == Fields[j]
  {
    SlotsWritten();
    forall j | 0 <= j < |Slots|
      ensures |Slots[j]| == DescriptorSize && Slots[j][0] != Terminator && DescriptorDecoder(ext, enc)(Slots[j]) == Fields[j]
    {
      WrittenSlotDecodes(Fields[j], ext, enc);
    }
  }

  // ---------------------------------------------------------------------------
  // Strict validation

  lemma FieldsAcceptable()
    ensures forall j :: 0 <= j < |Fields| ==> Acceptable(Fields[j], 0x03)
  {
  }

  lemma FieldsDistinct()
    ensures DistinctNames(Fields)
  {
  }

  lemma FieldWidths()
    ensures SumSizes(Fields) == 72
  {
    assert SumSizes([MemoField]) == 10 by { assert [MemoField][1..] == []; }
    assert SumSizes([StampField, MemoField]) == 18 by { assert [StampField, MemoField][1..] == [MemoField]; }
    assert SumSizes([RatioField, StampField, MemoField]) == 26 by { assert [RatioField, StampField, MemoField][1..] == [StampField, MemoField]; }
    assert SumSizes([CountField, RatioField, StampField, MemoField]) == 30 by { assert [CountField, RatioField, StampField, MemoField][1..] == [RatioField, StampField, MemoField]; }
    assert SumSizes([BirthField, CountField, RatioField, StampField, MemoField]) == 38 by { assert [BirthField, CountField, RatioField, StampField, MemoField][1..] == [CountField, RatioField, StampField, MemoField]; }
    assert SumSizes([ActiveField, BirthField, CountField, RatioField, StampField, MemoField]) == 39 by { assert [ActiveField, BirthField, CountField, RatioField, StampField, MemoField][1..] == [BirthField, CountField, RatioField, StampField, MemoField]; }
    assert SumSizes([CurrField, ActiveField, BirthField, CountField, RatioField, StampField, MemoField]) == 47 by { assert [CurrField, ActiveField, BirthField, CountField, RatioField, StampField, MemoField][1..] == [ActiveField, BirthField, CountField, RatioField, StampField, MemoField]; }
    assert SumSizes([BalanceField, CurrField, ActiveField, BirthField, CountField, RatioField, StampField, MemoField]) == 57 by { assert [BalanceField, CurrField, ActiveField, BirthField, CountField, RatioField, StampField, MemoField][1..] == [CurrField, ActiveField, BirthField, CountField, RatioField, StampField, MemoField]; }
    assert SumSizes([AgeField, BalanceField, CurrField, ActiveField, BirthField, CountField, RatioField, StampField, MemoField]) == 62 by { assert [AgeField, BalanceField, CurrField, ActiveField, BirthField, CountField, RatioField, StampField, MemoField][1..] == [BalanceField, CurrField, ActiveField, BirthField, CountField, RatioField, StampField, MemoField]; }
    assert SumSizes([NameField, AgeField, BalanceField, CurrField, ActiveField, BirthField, CountField, RatioField, StampField, MemoField]) == 72 by { assert [NameField, AgeField, BalanceField, CurrField, ActiveField, BirthField, CountField, RatioField, StampField, MemoField][1..] == [AgeField, BalanceField, CurrField, ActiveField, BirthField, CountField, RatioField, StampField, MemoField]; }
  }

  // ---------------------------------------------------------------------------
  // Opening

  /** Each record is written as its marker followed by one span per field. */
  lemma RecordsSpan()
    ensures Spans(Fields, First) && Spans(Fields, Second) && Spans(Fields, Third)
  {
  }

  lemma BufferLengths()
    ensures forall k :: 0 <= k < |Buffers| ==> |Buffers[k]| == 73
  {
    RecordsSpan();
    FieldWidths();
    SpansLength(Fields, First);
    SpansLength(Fields, Second);
    SpansLength(Fields, Third);
  }

  /** The options' default encoding stands for ISO-8859-1, which decodes
      the names. */
  lemma DefaultEncodingIsLatin1(opts: OpenOptions)
    requires opts.encoding == EncodingConfig("", map[])
    ensures ResolveCharset(FieldEncoding(NormOptions(opts).encoding, "")) == Latin1
  {
    CanonicalNameResolves(Latin1);
  }

  /** Opening the fixture, in any mode and whatever sibling files exist,
      gives the header and fields the source's test expects: 3 records, last
      updated 2024-01-01, the ten fields in order. */
  lemma FixtureOpens(siblings: Siblings, opts: OpenOptions, ext: Externals)
    requires opts.encoding == EncodingConfig("", map[]) && DecodesLatin1(ext)
    ensures Open(File, siblings, opts, ext) == Ok(Opened(NormOptions(opts)))
  {
    assert MemoOf(0x03, siblings) == NoMemo;
    var rest := Concat(Buffers) + [EndOfFile];
    assert File == Prologue + Concat(Slots) + [Terminator] + rest;
    var opt := NormOptions(opts);
    DefaultEncodingIsLatin1(opts);
    SlotsDecode(ext, opt.encoding);
    PrologueHeader();
    FieldsAcceptable();
    FieldsDistinct();
    FieldWidths();
    BufferLengths();
    ConcatUniform(Buffers, 73);
    OpenWellFormed(Prologue, Slots, rest, Fields, siblings, opts, ext);
  }
}
