/** The reads of the fixture the test suite performs: a loose read that
    drops the deleted record, a second read after the cursor is exhausted,
    and a loose read that keeps deleted records. */
module FixtureReads {
  import opened Results
  import opened Bytes
  import opened Options
  import opened Encodings
  import opened Calendar
  import opened Schema
  import opened Records
  import opened Tables
  import opened Cursor
  import opened Fixture
  import opened FixtureRows

  // ---------------------------------------------------------------------------
  // Where the records are

  lemma SlotLengths()
    ensures forall j :: 0 <= j < |Slots| ==> |Slots[j]| == 32
  {
  }

  /** The 353 header bytes: prologue, descriptors and terminator. */
  lemma HeaderBytes()
    ensures |Prologue + Concat(Slots) + [Terminator]| == 353
  {
    SlotLengths();
    ConcatUniform(Slots, 32);
  }

  /** The three record buffers follow the header, and the file has no
      fourth: the end-of-file byte alone is too short for one. */
  lemma FixtureBuffers(t: Table)
    requires t.headerLen == 353 && t.recordLen == 73
    ensures Buffer(t, File, 0) == Some(FirstBuffer)
    ensures Buffer(t, File, 1) == Some(SecondBuffer)
    ensures Buffer(t, File, 2) == Some(ThirdBuffer)
    ensures Buffer(t, File, 3).None?
  {
    var head := Prologue + Concat(Slots) + [Terminator];
    HeaderBytes();
    BufferLengths();
    ConcatUniform(Buffers, 73);
    assert File == head + (Concat(Buffers) + [EndOfFile]);
    LaidOutBuffer(t, head, Buffers, [EndOfFile], 0);
    LaidOutBuffer(t, head, Buffers, [EndOfFile], 1);
    LaidOutBuffer(t, head, Buffers, [EndOfFile], 2);
  }

  // ---------------------------------------------------------------------------
  // Reading every record at once

  /** Outside strict mode the two live records decode, and the deleted one
      decodes exactly when deleted records are wanted. */
  lemma LooseParses(opt: OpenOptions, ext: Externals)
    requires !IsStrict(opt)
    ensures ParseRecord(Fields, opt, FirstBuffer, ext).Decoded?
    ensures ParseRecord(Fields, opt, SecondBuffer, ext).Decoded?
    ensures ParseRecord(Fields, opt, ThirdBuffer, ext).Decoded? <==> opt.includeDeleted
  {
    RecordsSpan();
    LooseWrittenRecordDecodes(Fields, opt, ext, Blank, First);
    LooseWrittenRecordDecodes(Fields, opt, ext, Blank, Second);
    LooseWrittenRecordDecodes(Fields, opt, ext, DeletedMarker, Third);
  }

  /** The records a batch over the three buffers keeps. */
  lemma KeptRecords(opt: OpenOptions, ext: Externals)
    requires !IsStrict(opt)
    ensures var t, p1, p2, p3 := Opened(opt), ParseRecord(Fields, opt, FirstBuffer, ext), ParseRecord(Fields, opt, SecondBuffer, ext), ParseRecord(Fields, opt, ThirdBuffer, ext);
      && p1.Decoded? && p2.Decoded?
      && Kept(t, File, RecordParser(t, ext), 0, 3) == [p1.rec, p2.rec] + (if p3.Decoded? then [p3.rec] else [])
  {
    var t := Opened(opt);
    var parse := RecordParser(t, ext);
    var p1, p2, p3 := ParseRecord(Fields, opt, FirstBuffer, ext), ParseRecord(Fields, opt, SecondBuffer, ext), ParseRecord(Fields, opt, ThirdBuffer, ext);
    FixtureBuffers(t);
    LooseParses(opt, ext);
    assert Parse(t, File, parse, 0) == p1;
    assert Parse(t, File, parse, 1) == p2;
    assert Parse(t, File, parse, 2) == p3;
    assert Kept(t, File, parse, 0, 1) == [p1.rec];
    assert Kept(t, File, parse, 0, 2) == [p1.rec, p2.rec];
  }

  /** A request for every record, or for at least three, reaches the end
      of a fresh three-record table. */
  lemma WholeTable(t: Table, maxCount: int)
    requires t.recordCount == 3 && t.recordsRead == 0 && (maxCount <= 0 || maxCount >= 3)
    ensures Effective(t, maxCount) != 0 && Min(t.recordsRead + Effective(t, maxCount), t.recordCount) == 3
  {
  }

  /** Outside strict mode a batch covering the whole fixture reads all three
      buffers, ends with the cursor at 3, and returns records 1 and 2, then
      record 3 only when deleted records are wanted. */
  lemma LooseBatch(opt: OpenOptions, ext: Externals, maxCount: int, t': Table, r: Result<seq<Record>>)
    requires !IsStrict(opt) && (maxCount <= 0 || maxCount >= 3)
    requires ReadOutcome(Opened(opt), File, RecordParser(Opened(opt), ext), maxCount, t', r)
    ensures t' == Opened(opt).(recordsRead := 3)
    ensures var p1, p2, p3 := ParseRecord(Fields, opt, FirstBuffer, ext), ParseRecord(Fields, opt, SecondBuffer, ext), ParseRecord(Fields, opt, ThirdBuffer, ext);
      && p1.Decoded? && p2.Decoded? && (p3.Decoded? <==> opt.includeDeleted)
      && r == Ok([p1.rec, p2.rec] + (if opt.includeDeleted then [p3.rec] else []))
  {
    var t := Opened(opt);
    FixtureBuffers(t);
    WholeTable(t, maxCount);
    CompleteBatch(t, File, RecordParser(t, ext), maxCount, t', r);
    LooseParses(opt, ext);
    KeptRecords(opt, ext);
  }

  // ---------------------------------------------------------------------------
  // The test suite's reads, end to end

  /** Loose options with the default encoding read the fixture as Latin-1. */
  lemma LooseOptions(opts: OpenOptions)
    requires opts.readMode == Loose && opts.encoding == EncodingConfig("", map[])
    ensures !IsStrict(NormOptions(opts)) && Latin1Options(NormOptions(opts))
  {
    DefaultEncodingIsLatin1(opts);
  }

  /** Under loose Latin-1 reading the three buffers hold the expected rows. */
  lemma LiveRows(opt: OpenOptions, ext: Externals)
    requires ReadsFixture(opt, ext)
    ensures ParseRecord(Fields, opt, FirstBuffer, ext).Decoded? && JoseRow(ParseRecord(Fields, opt, FirstBuffer, ext).rec)
    ensures ParseRecord(Fields, opt, SecondBuffer, ext).Decoded? && BlankRow(ParseRecord(Fields, opt, SecondBuffer, ext).rec)
  {
    FirstRecord(opt, ext);
    SecondRecord(opt, ext);
  }

  lemma DeletedRowRead(opt: OpenOptions, ext: Externals)
    requires ReadsFixture(opt, ext) && opt.includeDeleted
    ensures ParseRecord(Fields, opt, ThirdBuffer, ext).Decoded? && DeletedRow(ParseRecord(Fields, opt, ThirdBuffer, ext).rec)
  {
    ThirdRecord(opt, ext);
  }

  /** Opening the fixture with loose options and the default encoding gives
      a fresh table reading it as Latin-1. */
  lemma LooseOpen(siblings: Siblings, opts: OpenOptions, ext: Externals, t: Table)
    requires opts.readMode == Loose && opts.encoding == EncodingConfig("", map[])
    requires FixtureExternals(ext)
    requires Open(File, siblings, opts, ext) == Ok(t)
    ensures t == Opened(NormOptions(opts)) && ReadsFixture(t.opt, ext)
  {
    FixtureOpens(siblings, opts, ext);
    LooseOptions(opts);
  }

  /** The batch outcome `LooseBatch` describes, read as the expected rows. */
  lemma LiveBatchRows(opt: OpenOptions, ext: Externals, r: Result<seq<Record>>)
    requires ReadsFixture(opt, ext)
    requires ParseRecord(Fields, opt, FirstBuffer, ext).Decoded? && ParseRecord(Fields, opt, SecondBuffer, ext).Decoded?
    requires opt.includeDeleted ==> ParseRecord(Fields, opt, ThirdBuffer, ext).Decoded?
    requires r == Ok([ParseRecord(Fields, opt, FirstBuffer, ext).rec, ParseRecord(Fields, opt, SecondBuffer, ext).rec]
      + (if opt.includeDeleted then [ParseRecord(Fields, opt, ThirdBuffer, ext).rec] else []))
    ensures r.Ok? && |r.value| == (if opt.includeDeleted then 3 else 2)
    ensures JoseRow(r.value[0]) && BlankRow(r.value[1])
  {
    var a, b := ParseRecord(Fields, opt, FirstBuffer, ext).rec, ParseRecord(Fields, opt, SecondBuffer, ext).rec;
    assert r.value[..2] == [a, b];
    LiveRows(opt, ext);
  }

  lemma DeletedBatchRows(opt: OpenOptions, ext: Externals, r: Result<seq<Record>>)
    requires ReadsFixture(opt, ext) && opt.includeDeleted
    requires ParseRecord(Fields, opt, FirstBuffer, ext).Decoded? && ParseRecord(Fields, opt, SecondBuffer, ext).Decoded?
    requires ParseRecord(Fields, opt, ThirdBuffer, ext).Decoded?
    requires r == Ok([ParseRecord(Fields, opt, FirstBuffer, ext).rec, ParseRecord(Fields, opt, SecondBuffer, ext).rec]
      + (if opt.includeDeleted then [ParseRecord(Fields, opt, ThirdBuffer, ext).rec] else []))
    ensures r.Ok? && |r.value| == 3
    ensures JoseRow(r.value[0]) && BlankRow(r.value[1]) && DeletedRow(r.value[2])
  {
    var a, b, c := ParseRecord(Fields, opt, FirstBuffer, ext).rec, ParseRecord(Fields, opt, SecondBuffer, ext).rec, ParseRecord(Fields, opt, ThirdBuffer, ext).rec;
    assert r.value == [a, b, c];
    LiveRows(opt, ext);
    DeletedRowRead(opt, ext);
  }

  /** Opening the fixture in loose mode and reading everything returns the
      two live records with every field type decoded; a second read of the
      exhausted cursor returns nothing and no error. */
  lemma ReadAllFieldTypes(siblings: Siblings, opts: OpenOptions, ext: Externals, t: Table, t1: Table, r1: Result<seq<Record>>, t2: Table, r2: Result<seq<Record>>)
    requires opts.readMode == Loose && opts.encoding == EncodingConfig("", map[]) && !opts.includeDeleted
    requires FixtureExternals(ext)
    requires Open(File, siblings, opts, ext) == Ok(t)
    requires ReadOutcome(t, File, RecordParser(t, ext), 0, t1, r1)
    requires ReadOutcome(t1, File, RecordParser(t1, ext), 0, t2, r2)
    ensures r1.Ok? && |r1.value| == 2 && JoseRow(r1.value[0]) && BlankRow(r1.value[1])
    ensures t2 == t1 && r2 == Ok([])
  {
    LooseOpen(siblings, opts, ext, t);
    LooseBatch(t.opt, ext, 0, t1, r1);
    LiveBatchRows(t.opt, ext, r1);
    ExhaustedReadsNothing(t1, File, RecordParser(t1, ext), 0, t2, r2);
  }

  /** Asking for deleted records as well returns all three, the last one
      tagged as deleted. */
  lemma ReadIncludingDeleted(siblings: Siblings, opts: OpenOptions, ext: Externals, t: Table, t1: Table, r1: Result<seq<Record>>)
    requires opts.readMode == Loose && opts.encoding == EncodingConfig("", map[]) && opts.includeDeleted
    requires FixtureExternals(ext)
    requires Open(File, siblings, opts, ext) == Ok(t)
    requires ReadOutcome(t, File, RecordParser(t, ext), 0, t1, r1)
    ensures r1.Ok? && |r1.value| == 3
    ensures JoseRow(r1.value[0]) && BlankRow(r1.value[1]) && DeletedRow(r1.value[2])
  {
    LooseOpen(siblings, opts, ext, t);
    LooseBatch(t.opt, ext, 0, t1, r1);
    DeletedBatchRows(t.opt, ext, r1);
  }

  // ---------------------------------------------------------------------------
  // A timestamp in the last millisecond of a day

  const EndOfDayField: Field := Field("DT", 'T' as int, 8, 0)

  /** 86,399,999 milliseconds is 23:59:59 and 999 milliseconds. */
  lemma EndOfDayValue(ext: Externals)
    ensures FieldValue(EndOfDayField, PutUint32(2460172) + PutUint32(86399999), ZeroOptions, ext)
      == Got(Timestamp(DateTime(Date(2023, 8, 15), Clock(23, 59, 59))))
  {
    FirstStampDay();
    assert 86399999 == 1000 * (3600 * 23 + 60 * 59 + 59) + 999;
    DateTimeRoundTrip(Date(2023, 8, 15), 23, 59, 59, 999);
    StampDispatch(ZeroOptions, ext, EndOfDayField, PutUint32(2460172) + PutUint32(86399999));
  }

  /** The test's record bytes: the deletion flag, then the one span. */
  lemma EndOfDayBytes()
    ensures [Blank] + PutUint32(JulianDay(2023, 8, 15)) + PutUint32(86399999)
      == [Blank] + Concat([PutUint32(2460172) + PutUint32(86399999)])
  {
    FirstStampDay();
  }

  /** A one-field record holding 2023-08-15 at 86,399,999 milliseconds reads
      as 23:59:59 that day: the sub-second part is dropped, never rounded up
      into the next day. Any unrecognised read mode will do. */
  lemma EndOfDayStamp(ext: Externals)
    ensures var r := ParseRecord([EndOfDayField], ZeroOptions, [Blank] + PutUint32(JulianDay(2023, 8, 15)) + PutUint32(86399999), ext);
      r.Decoded? && "DT" in r.rec && r.rec["DT"] == Timestamp(DateTime(Date(2023, 8, 15), Clock(23, 59, 59)))
  {
    EndOfDayBytes();
    EndOfDayValue(ext);
    WrittenRecordEntry([EndOfDayField], ZeroOptions, ext, Blank, [PutUint32(2460172) + PutUint32(86399999)], 0,
      Timestamp(DateTime(Date(2023, 8, 15), Clock(23, 59, 59))));
  }
}
