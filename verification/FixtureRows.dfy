/** The field values of the fixture's three records, as the source's test
    reads them back outside strict mode, and the two loose reads of the
    whole table. */
module FixtureRows {
  import opened Results
  import opened Bytes
  import opened Text
  import opened Options
  import opened Encodings
  import opened Calendar
  import opened Schema
  import opened Records
  import opened Tables
  import opened Cursor
  import opened Fixture

  /** Collaborators as the test has them: ISO-8859-1 decodes byte for code
      point, and the float parser accepts the numeric literals the records
      hold. */
  ghost predicate FixtureExternals(ext: Externals) {
    && DecodesLatin1(ext)
    && ext.parsesFloat("42") && ext.parsesFloat("123.45")
    && ext.parsesFloat("99") && ext.parsesFloat("1.23")
  }

  /** Options and collaborators under which the fixture reads as the test
      expects: not strict, and every field decoded as ISO-8859-1. */
  ghost predicate ReadsFixture(opt: OpenOptions, ext: Externals) {
    !IsStrict(opt) && Latin1Options(opt) && FixtureExternals(ext)
  }

  /** Every record is written span by span, and no two fields share a name. */
  lemma Layout()
    ensures Spans(Fields, First) && Spans(Fields, Second) && Spans(Fields, Third)
    ensures forall j :: 0 <= j < |Fields| ==> LastWithName(Fields, j)
  {
    RecordsSpan();
    FieldsDistinct();
  }

  // ---------------------------------------------------------------------------
  // Record 1

  lemma FirstBytes()
    ensures DecodeCurrency(FirstCurr) == Currency(123400)
    ensures DecodeLogical(FirstActive) == Bool(true)
    ensures DecodeInt(FirstCount) == Int(123456)
    ensures DecodeDouble(FirstRatio) == Double(0x400921f9f01b866e)
  {
  }

  lemma FirstBirthText()
    ensures FirstBirth == Latin1Encode("" + FormatYmd(Date(1990, 1, 1)) + "")
  {
  }

  lemma FirstStampDay()
    ensures JulianDay(2023, 8, 15) == 2460172
  {
  }

  lemma FirstStampBytes()
    ensures FirstStamp == PutUint32(2460172) + PutUint32(86399000)
  {
  }

  lemma FirstBalanceText()
    ensures ',' !in "123.45"
    ensures FirstBalance == Latin1Encode("    " + "123.45" + "")
  {
  }

  lemma FirstNameEntry(opt: OpenOptions, ext: Externals)
    requires ReadsFixture(opt, ext)
    ensures var r := ParseRecord(Fields, opt, FirstBuffer, ext);
      r.Decoded? && "NAME" in r.rec && r.rec["NAME"] == Str("José")
  {
    assert Fields[0] == NameField;
    Layout();
    TextValue(opt, ext, NameField, FirstName, "José", "      ");
    WrittenRecordEntry(Fields, opt, ext, Blank, First, 0, Str("José"));
  }

  lemma FirstAgeValue(opt: OpenOptions, ext: Externals)
    requires ReadsFixture(opt, ext)
    ensures FieldValue(AgeField, FirstAge, opt, ext) == Got(Num("42"))
  {
    NumberValue(opt, ext, AgeField, FirstAge, "   ", "42");
  }

  lemma FirstAgeEntry(opt: OpenOptions, ext: Externals)
    requires ReadsFixture(opt, ext)
    ensures var r := ParseRecord(Fields, opt, FirstBuffer, ext);
      r.Decoded? && "AGE" in r.rec && r.rec["AGE"] == Num("42")
  {
    assert Fields[1] == AgeField;
    Layout();
    FirstAgeValue(opt, ext);
    WrittenRecordEntry(Fields, opt, ext, Blank, First, 1, Num("42"));
  }

  lemma FirstBalanceValue(opt: OpenOptions, ext: Externals)
    requires ReadsFixture(opt, ext)
    ensures FieldValue(BalanceField, FirstBalance, opt, ext) == Got(Num("123.45"))
  {
    FirstBalanceText();
    NumberValue(opt, ext, BalanceField, FirstBalance, "    ", "123.45");
  }

  lemma FirstBalanceEntry(opt: OpenOptions, ext: Externals)
    requires ReadsFixture(opt, ext)
    ensures var r := ParseRecord(Fields, opt, FirstBuffer, ext);
      r.Decoded? && "BALANCE" in r.rec && r.rec["BALANCE"] == Num("123.45")
  {
    assert Fields[2] == BalanceField;
    Layout();
    FirstBalanceValue(opt, ext);
    WrittenRecordEntry(Fields, opt, ext, Blank, First, 2, Num("123.45"));
  }

  lemma FirstCurrEntry(opt: OpenOptions, ext: Externals)
    requires ReadsFixture(opt, ext)
    ensures var r := ParseRecord(Fields, opt, FirstBuffer, ext);
      r.Decoded? && "CURR" in r.rec && r.rec["CURR"] == Currency(123400)
  {
    assert Fields[3] == CurrField;
    Layout();
    FirstBytes();
    BinaryDispatch(opt, ext, CurrField, FirstCurr);
    WrittenRecordEntry(Fields, opt, ext, Blank, First, 3, Currency(123400));
  }

  lemma FirstActiveEntry(opt: OpenOptions, ext: Externals)
    requires ReadsFixture(opt, ext)
    ensures var r := ParseRecord(Fields, opt, FirstBuffer, ext);
      r.Decoded? && "ACTIVE" in r.rec && r.rec["ACTIVE"] == Bool(true)
  {
    assert Fields[4] == ActiveField;
    Layout();
    FirstBytes();
    BinaryDispatch(opt, ext, ActiveField, FirstActive);
    WrittenRecordEntry(Fields, opt, ext, Blank, First, 4, Bool(true));
  }

  lemma FirstBirthEntry(opt: OpenOptions, ext: Externals)
    requires ReadsFixture(opt, ext)
    ensures var r := ParseRecord(Fields, opt, FirstBuffer, ext);
      r.Decoded? && "BIRTH" in r.rec && r.rec["BIRTH"] == Timestamp(DateTime(Date(1990, 1, 1), Midnight))
  {
    assert Fields[5] == BirthField;
    Layout();
    FirstBirthText();
    DateValue(opt, ext, BirthField, FirstBirth, Date(1990, 1, 1));
    WrittenRecordEntry(Fields, opt, ext, Blank, First, 5, Timestamp(DateTime(Date(1990, 1, 1), Midnight)));
  }

  lemma FirstCountEntry(opt: OpenOptions, ext: Externals)
    requires ReadsFixture(opt, ext)
    ensures var r := ParseRecord(Fields, opt, FirstBuffer, ext);
      r.Decoded? && "COUNT" in r.rec && r.rec["COUNT"] == Int(123456)
  {
    assert Fields[6] == CountField;
    Layout();
    FirstBytes();
    BinaryDispatch(opt, ext, CountField, FirstCount);
    WrittenRecordEntry(Fields, opt, ext, Blank, First, 6, Int(123456));
  }

  lemma FirstRatioEntry(opt: OpenOptions, ext: Externals)
    requires ReadsFixture(opt, ext)
    ensures var r := ParseRecord(Fields, opt, FirstBuffer, ext);
      r.Decoded? && "RATIO" in r.rec && r.rec["RATIO"] == Double(0x400921f9f01b866e)
  {
    assert Fields[7] == RatioField;
    Layout();
    FirstBytes();
    BinaryDispatch(opt, ext, RatioField, FirstRatio);
    WrittenRecordEntry(Fields, opt, ext, Blank, First, 7, Double(0x400921f9f01b866e));
  }

  lemma FirstStampValue(opt: OpenOptions, ext: Externals)
    requires ReadsFixture(opt, ext)
    ensures FieldValue(StampField, FirstStamp, opt, ext) == Got(Timestamp(DateTime(Date(2023, 8, 15), Clock(23, 59, 59))))
  {
    FirstStampDay();
    FirstStampBytes();
    StampValue(opt, ext, StampField, FirstStamp, Date(2023, 8, 15), 23, 59, 59, 2460172, 86399000);
  }

  lemma FirstStampEntry(opt: OpenOptions, ext: Externals)
    requires ReadsFixture(opt, ext)
    ensures var r := ParseRecord(Fields, opt, FirstBuffer, ext);
      r.Decoded? && "STAMP" in r.rec && r.rec["STAMP"] == Timestamp(DateTime(Date(2023, 8, 15), Clock(23, 59, 59)))
  {
    assert Fields[8] == StampField;
    Layout();
    FirstStampValue(opt, ext);
    WrittenRecordEntry(Fields, opt, ext, Blank, First, 8, Timestamp(DateTime(Date(2023, 8, 15), Clock(23, 59, 59))));
  }

  lemma FirstMemoEntry(opt: OpenOptions, ext: Externals)
    requires ReadsFixture(opt, ext)
    ensures var r := ParseRecord(Fields, opt, FirstBuffer, ext);
      r.Decoded? && "MEMO" in r.rec && r.rec["MEMO"] == Null
  {
    assert Fields[9] == MemoField;
    Layout();
    WrittenRecordEntry(Fields, opt, ext, Blank, First, 9, Null);
  }

  // ---------------------------------------------------------------------------
  // Record 2

  lemma SecondBytes()
    ensures DecodeCurrency(SecondCurr) == Currency(-98765432)
    ensures DecodeLogical(SecondActive) == Bool(false)
    ensures DecodeInt(SecondCount) == Int(-50)
    ensures DecodeDouble(SecondRatio) == Double(0xc045400000000000)
  {
  }

  lemma SecondBirthText()
    ensures SecondBirth == Latin1Encode("" + FormatYmd(Date(2021, 12, 31)) + "")
  {
  }

  lemma SecondStampDay()
    ensures JulianDay(2020, 3, 10) == 2458919
  {
  }

  lemma SecondStampBytes()
    ensures SecondStamp == PutUint32(2458919) + PutUint32(30615000)
  {
  }

  lemma SecondNameEntry(opt: OpenOptions, ext: Externals)
    requires ReadsFixture(opt, ext)
    ensures var r := ParseRecord(Fields, opt, SecondBuffer, ext);
      r.Decoded? && "NAME" in r.rec && r.rec["NAME"] == Str("")
  {
    assert Fields[0] == NameField;
    Layout();
    TextValue(opt, ext, NameField, SecondName, "", "          ");
    WrittenRecordEntry(Fields, opt, ext, Blank, Second, 0, Str(""));
  }

  lemma SecondAgeEntry(opt: OpenOptions, ext: Externals)
    requires ReadsFixture(opt, ext)
    ensures var r := ParseRecord(Fields, opt, SecondBuffer, ext);
      r.Decoded? && "AGE" in r.rec && r.rec["AGE"] == Null
  {
    assert Fields[1] == AgeField;
    Layout();
    BlankValue(opt, ext, AgeField, SecondAge);
    WrittenRecordEntry(Fields, opt, ext, Blank, Second, 1, Null);
  }

  lemma SecondBalanceEntry(opt: OpenOptions, ext: Externals)
    requires ReadsFixture(opt, ext)
    ensures var r := ParseRecord(Fields, opt, SecondBuffer, ext);
      r.Decoded? && "BALANCE" in r.rec && r.rec["BALANCE"] == Null
  {
    assert Fields[2] == BalanceField;
    Layout();
    BlankValue(opt, ext, BalanceField, SecondBalance);
    WrittenRecordEntry(Fields, opt, ext, Blank, Second, 2, Null);
  }

  lemma SecondCurrEntry(opt: OpenOptions, ext: Externals)
    requires ReadsFixture(opt, ext)
    ensures var r := ParseRecord(Fields, opt, SecondBuffer, ext);
      r.Decoded? && "CURR" in r.rec && r.rec["CURR"] == Currency(-98765432)
  {
    assert Fields[3] == CurrField;
    Layout();
    SecondBytes();
    BinaryDispatch(opt, ext, CurrField, SecondCurr);
    WrittenRecordEntry(Fields, opt, ext, Blank, Second, 3, Currency(-98765432));
  }

  lemma SecondActiveEntry(opt: OpenOptions, ext: Externals)
    requires ReadsFixture(opt, ext)
    ensures var r := ParseRecord(Fields, opt, SecondBuffer, ext);
      r.Decoded? && "ACTIVE" in r.rec && r.rec["ACTIVE"] == Bool(false)
  {
    assert Fields[4] == ActiveField;
    Layout();
    SecondBytes();
    BinaryDispatch(opt, ext, ActiveField, SecondActive);
    WrittenRecordEntry(Fields, opt, ext, Blank, Second, 4, Bool(false));
  }

  lemma SecondBirthEntry(opt: OpenOptions, ext: Externals)
    requires ReadsFixture(opt, ext)
    ensures var r := ParseRecord(Fields, opt, SecondBuffer, ext);
      r.Decoded? && "BIRTH" in r.rec && r.rec["BIRTH"] == Timestamp(DateTime(Date(2021, 12, 31), Midnight))
  {
    assert Fields[5] == BirthField;
    Layout();
    SecondBirthText();
    DateValue(opt, ext, BirthField, SecondBirth, Date(2021, 12, 31));
    WrittenRecordEntry(Fields, opt, ext, Blank, Second, 5, Timestamp(DateTime(Date(2021, 12, 31), Midnight)));
  }

  lemma SecondCountEntry(opt: OpenOptions, ext: Externals)
    requires ReadsFixture(opt, ext)
    ensures var r := ParseRecord(Fields, opt, SecondBuffer, ext);
      r.Decoded? && "COUNT" in r.rec && r.rec["COUNT"] == Int(-50)
  {
    assert Fields[6] == CountField;
    Layout();
    SecondBytes();
    BinaryDispatch(opt, ext, CountField, SecondCount);
    WrittenRecordEntry(Fields, opt, ext, Blank, Second, 6, Int(-50));
  }

  lemma SecondRatioEntry(opt: OpenOptions, ext: Externals)
    requires ReadsFixture(opt, ext)
    ensures var r := ParseRecord(Fields, opt, SecondBuffer, ext);
      r.Decoded? && "RATIO" in r.rec && r.rec["RATIO"] == Double(0xc045400000000000)
  {
    assert Fields[7] == RatioField;
    Layout();
    SecondBytes();
    BinaryDispatch(opt, ext, RatioField, SecondRatio);
    WrittenRecordEntry(Fields, opt, ext, Blank, Second, 7, Double(0xc045400000000000));
  }

  lemma SecondStampValue(opt: OpenOptions, ext: Externals)
    requires ReadsFixture(opt, ext)
    ensures FieldValue(StampField, SecondStamp, opt, ext) == Got(Timestamp(DateTime(Date(2020, 3, 10), Clock(8, 30, 15))))
  {
    SecondStampDay();
    SecondStampBytes();
    StampValue(opt, ext, StampField, SecondStamp, Date(2020, 3, 10), 8, 30, 15, 2458919, 30615000);
  }

  lemma SecondStampEntry(opt: OpenOptions, ext: Externals)
    requires ReadsFixture(opt, ext)
    ensures var r := ParseRecord(Fields, opt, SecondBuffer, ext);
      r.Decoded? && "STAMP" in r.rec && r.rec["STAMP"] == Timestamp(DateTime(Date(2020, 3, 10), Clock(8, 30, 15)))
  {
    assert Fields[8] == StampField;
    Layout();
    SecondStampValue(opt, ext);
    WrittenRecordEntry(Fields, opt, ext, Blank, Second, 8, Timestamp(DateTime(Date(2020, 3, 10), Clock(8, 30, 15))));
  }

  lemma SecondMemoEntry(opt: OpenOptions, ext: Externals)
    requires ReadsFixture(opt, ext)
    ensures var r := ParseRecord(Fields, opt, SecondBuffer, ext);
      r.Decoded? && "MEMO" in r.rec && r.rec["MEMO"] == Null
  {
    assert Fields[9] == MemoField;
    Layout();
    WrittenRecordEntry(Fields, opt, ext, Blank, Second, 9, Null);
  }

  // ---------------------------------------------------------------------------
  // Record 3

  lemma ThirdBytes()
    ensures DecodeCurrency(ThirdCurr) == Currency(0)
    ensures DecodeLogical(ThirdActive) == Null
    ensures DecodeInt(ThirdCount) == Int(7)
    ensures DecodeDouble(ThirdRatio) == Double(0x4004000000000000)
  {
  }

  lemma ThirdBirthText()
    ensures ThirdBirth == Latin1Encode("" + FormatYmd(Date(2000, 1, 1)) + "")
  {
  }

  lemma ThirdStampDay()
    ensures JulianDay(2019, 12, 31) == 2458849
  {
  }

  lemma ThirdStampBytes()
    ensures ThirdStamp == PutUint32(2458849) + PutUint32(0)
  {
  }

  lemma ThirdBalanceText()
    ensures ',' !in "1.23"
    ensures ThirdBalance == Latin1Encode("      " + "1.23" + "")
  {
  }

  lemma ThirdNameEntry(opt: OpenOptions, ext: Externals)
    requires ReadsFixture(opt, ext) && opt.includeDeleted
    ensures var r := ParseRecord(Fields, opt, ThirdBuffer, ext);
      r.Decoded? && "NAME" in r.rec && r.rec["NAME"] == Str("Deleted")
  {
    assert Fields[0] == NameField;
    Layout();
    TextValue(opt, ext, NameField, ThirdName, "Deleted", "   ");
    WrittenRecordEntry(Fields, opt, ext, DeletedMarker, Third, 0, Str("Deleted"));
  }

  lemma ThirdAgeValue(opt: OpenOptions, ext: Externals)
    requires ReadsFixture(opt, ext) && opt.includeDeleted
    ensures FieldValue(AgeField, ThirdAge, opt, ext) == Got(Num("99"))
  {
    NumberValue(opt, ext, AgeField, ThirdAge, "   ", "99");
  }

  lemma ThirdAgeEntry(opt: OpenOptions, ext: Externals)
    requires ReadsFixture(opt, ext) && opt.includeDeleted
    ensures var r := ParseRecord(Fields, opt, ThirdBuffer, ext);
      r.Decoded? && "AGE" in r.rec && r.rec["AGE"] == Num("99")
  {
    assert Fields[1] == AgeField;
    Layout();
    ThirdAgeValue(opt, ext);
    WrittenRecordEntry(Fields, opt, ext, DeletedMarker, Third, 1, Num("99"));
  }

  lemma ThirdBalanceValue(opt: OpenOptions, ext: Externals)
    requires ReadsFixture(opt, ext) && opt.includeDeleted
    ensures FieldValue(BalanceField, ThirdBalance, opt, ext) == Got(Num("1.23"))
  {
    ThirdBalanceText();
    NumberValue(opt, ext, BalanceField, ThirdBalance, "      ", "1.23");
  }

  lemma ThirdBalanceEntry(opt: OpenOptions, ext: Externals)
    requires ReadsFixture(opt, ext) && opt.includeDeleted
    ensures var r := ParseRecord(Fields, opt, ThirdBuffer, ext);
      r.Decoded? && "BALANCE" in r.rec && r.rec["BALANCE"] == Num("1.23")
  {
    assert Fields[2] == BalanceField;
    Layout();
    ThirdBalanceValue(opt, ext);
    WrittenRecordEntry(Fields, opt, ext, DeletedMarker, Third, 2, Num("1.23"));
  }

  lemma ThirdCurrEntry(opt: OpenOptions, ext: Externals)
    requires ReadsFixture(opt, ext) && opt.includeDeleted
    ensures var r := ParseRecord(Fields, opt, ThirdBuffer, ext);
      r.Decoded? && "CURR" in r.rec && r.rec["CURR"] == Currency(0)
  {
    assert Fields[3] == CurrField;
    Layout();
    ThirdBytes();
    BinaryDispatch(opt, ext, CurrField, ThirdCurr);
    WrittenRecordEntry(Fields, opt, ext, DeletedMarker, Third, 3, Currency(0));
  }

  lemma ThirdActiveEntry(opt: OpenOptions, ext: Externals)
    requires ReadsFixture(opt, ext) && opt.includeDeleted
    ensures var r := ParseRecord(Fields, opt, ThirdBuffer, ext);
      r.Decoded? && "ACTIVE" in r.rec && r.rec["ACTIVE"] == Null
  {
    assert Fields[4] == ActiveField;
    Layout();
    ThirdBytes();
    BinaryDispatch(opt, ext, ActiveField, ThirdActive);
    WrittenRecordEntry(Fields, opt, ext, DeletedMarker, Third, 4, Null);
  }

  lemma ThirdBirthEntry(opt: OpenOptions, ext: Externals)
    requires ReadsFixture(opt, ext) && opt.includeDeleted
    ensures var r := ParseRecord(Fields, opt, ThirdBuffer, ext);
      r.Decoded? && "BIRTH" in r.rec && r.rec["BIRTH"] == Timestamp(DateTime(Date(2000, 1, 1), Midnight))
  {
    assert Fields[5] == BirthField;
    Layout();
    ThirdBirthText();
    DateValue(opt, ext, BirthField, ThirdBirth, Date(2000, 1, 1));
    WrittenRecordEntry(Fields, opt, ext, DeletedMarker, Third, 5, Timestamp(DateTime(Date(2000, 1, 1), Midnight)));
  }

  lemma ThirdCountEntry(opt: OpenOptions, ext: Externals)
    requires ReadsFixture(opt, ext) && opt.includeDeleted
    ensures var r := ParseRecord(Fields, opt, ThirdBuffer, ext);
      r.Decoded? && "COUNT" in r.rec && r.rec["COUNT"] == Int(7)
  {
    assert Fields[6] == CountField;
    Layout();
    ThirdBytes();
    BinaryDispatch(opt, ext, CountField, ThirdCount);
    WrittenRecordEntry(Fields, opt, ext, DeletedMarker, Third, 6, Int(7));
  }

  lemma ThirdRatioEntry(opt: OpenOptions, ext: Externals)
    requires ReadsFixture(opt, ext) && opt.includeDeleted
    ensures var r := ParseRecord(Fields, opt, ThirdBuffer, ext);
      r.Decoded? && "RATIO" in r.rec && r.rec["RATIO"] == Double(0x4004000000000000)
  {
    assert Fields[7] == RatioField;
    Layout();
    ThirdBytes();
    BinaryDispatch(opt, ext, RatioField, ThirdRatio);
    WrittenRecordEntry(Fields, opt, ext, DeletedMarker, Third, 7, Double(0x4004000000000000));
  }

  lemma ThirdStampValue(opt: OpenOptions, ext: Externals)
    requires ReadsFixture(opt, ext) && opt.includeDeleted
    ensures FieldValue(StampField, ThirdStamp, opt, ext) == Got(Timestamp(DateTime(Date(2019, 12, 31), Clock(0, 0, 0))))
  {
    ThirdStampDay();
    ThirdStampBytes();
    StampValue(opt, ext, StampField, ThirdStamp, Date(2019, 12, 31), 0, 0, 0, 2458849, 0);
  }

  lemma ThirdStampEntry(opt: OpenOptions, ext: Externals)
    requires ReadsFixture(opt, ext) && opt.includeDeleted
    ensures var r := ParseRecord(Fields, opt, ThirdBuffer, ext);
      r.Decoded? && "STAMP" in r.rec && r.rec["STAMP"] == Timestamp(DateTime(Date(2019, 12, 31), Clock(0, 0, 0)))
  {
    assert Fields[8] == StampField;
    Layout();
    ThirdStampValue(opt, ext);
    WrittenRecordEntry(Fields, opt, ext, DeletedMarker, Third, 8, Timestamp(DateTime(Date(2019, 12, 31), Clock(0, 0, 0))));
  }

  lemma ThirdMemoEntry(opt: OpenOptions, ext: Externals)
    requires ReadsFixture(opt, ext) && opt.includeDeleted
    ensures var r := ParseRecord(Fields, opt, ThirdBuffer, ext);
      r.Decoded? && "MEMO" in r.rec && r.rec["MEMO"] == Null
  {
    assert Fields[9] == MemoField;
    Layout();
    WrittenRecordEntry(Fields, opt, ext, DeletedMarker, Third, 9, Null);
  }

  // ---------------------------------------------------------------------------
  // The records

  /** The names of the fixture's fields. */
  lemma FieldNames()
    ensures NamesOf(Fields) == {"NAME", "AGE", "BALANCE", "CURR", "ACTIVE", "BIRTH", "COUNT", "RATIO", "STAMP", "MEMO"}
  {
    forall i | 0 <= i < |Fields| ensures Fields[i].name in {"NAME", "AGE", "BALANCE", "CURR", "ACTIVE", "BIRTH", "COUNT", "RATIO", "STAMP", "MEMO"} {
      if i == 0 {} else if i == 1 {} else if i == 2 {} else if i == 3 {} else if i == 4 {}
      else if i == 5 {} else if i == 6 {} else if i == 7 {} else if i == 8 {} else {}
    }
    assert Fields[0].name == "NAME" && Fields[1].name == "AGE" && Fields[2].name == "BALANCE";
    assert Fields[3].name == "CURR" && Fields[4].name == "ACTIVE" && Fields[5].name == "BIRTH";
    assert Fields[6].name == "COUNT" && Fields[7].name == "RATIO" && Fields[8].name == "STAMP";
    assert Fields[9].name == "MEMO";
  }

  /** Record 1 is live and holds the values the test expects: the name
      decoded from ISO-8859-1, the numbers as written, the currency 12.34
      as ten-thousandths, and the timestamp at 23:59:59. */
  lemma FirstRecord(opt: OpenOptions, ext: Externals)
    requires ReadsFixture(opt, ext)
    ensures var r := ParseRecord(Fields, opt, FirstBuffer, ext);
      && r.Decoded?
      && "NAME" in r.rec && r.rec["NAME"] == Str("José")
      && "AGE" in r.rec && r.rec["AGE"] == Num("42")
      && "BALANCE" in r.rec && r.rec["BALANCE"] == Num("123.45")
      && "CURR" in r.rec && r.rec["CURR"] == Currency(123400)
      && "ACTIVE" in r.rec && r.rec["ACTIVE"] == Bool(true)
      && "BIRTH" in r.rec && r.rec["BIRTH"] == Timestamp(DateTime(Date(1990, 1, 1), Midnight))
      && "COUNT" in r.rec && r.rec["COUNT"] == Int(123456)
      && "RATIO" in r.rec && r.rec["RATIO"] == Double(0x400921f9f01b866e)
      && "STAMP" in r.rec && r.rec["STAMP"] == Timestamp(DateTime(Date(2023, 8, 15), Clock(23, 59, 59)))
      && "MEMO" in r.rec && r.rec["MEMO"] == Null
  {
    FirstNameEntry(opt, ext);
    FirstAgeEntry(opt, ext);
    FirstBalanceEntry(opt, ext);
    FirstCurrEntry(opt, ext);
    FirstActiveEntry(opt, ext);
    FirstBirthEntry(opt, ext);
    FirstCountEntry(opt, ext);
    FirstRatioEntry(opt, ext);
    FirstStampEntry(opt, ext);
    FirstMemoEntry(opt, ext);
  }

  /** Record 2: an all-blank name is the empty string, blank numbers are
      null, and the negative currency and integer are read in two's
      complement. */
  lemma SecondRecord(opt: OpenOptions, ext: Externals)
    requires ReadsFixture(opt, ext)
    ensures var r := ParseRecord(Fields, opt, SecondBuffer, ext);
      && r.Decoded?
      && "NAME" in r.rec && r.rec["NAME"] == Str("")
      && "AGE" in r.rec && r.rec["AGE"] == Null
      && "BALANCE" in r.rec && r.rec["BALANCE"] == Null
      && "CURR" in r.rec && r.rec["CURR"] == Currency(-98765432)
      && "ACTIVE" in r.rec && r.rec["ACTIVE"] == Bool(false)
      && "BIRTH" in r.rec && r.rec["BIRTH"] == Timestamp(DateTime(Date(2021, 12, 31), Midnight))
      && "COUNT" in r.rec && r.rec["COUNT"] == Int(-50)
      && "RATIO" in r.rec && r.rec["RATIO"] == Double(0xc045400000000000)
      && "STAMP" in r.rec && r.rec["STAMP"] == Timestamp(DateTime(Date(2020, 3, 10), Clock(8, 30, 15)))
      && "MEMO" in r.rec && r.rec["MEMO"] == Null
  {
    SecondNameEntry(opt, ext);
    SecondAgeEntry(opt, ext);
    SecondBalanceEntry(opt, ext);
    SecondCurrEntry(opt, ext);
    SecondActiveEntry(opt, ext);
    SecondBirthEntry(opt, ext);
    SecondCountEntry(opt, ext);
    SecondRatioEntry(opt, ext);
    SecondStampEntry(opt, ext);
    SecondMemoEntry(opt, ext);
  }

  /** Record 3 is marked deleted; read with deleted records included it
      holds its values, a null for the unrecognised logical byte, and the
      extra key "_deleted". */
  lemma ThirdRecord(opt: OpenOptions, ext: Externals)
    requires ReadsFixture(opt, ext) && opt.includeDeleted
    ensures var r := ParseRecord(Fields, opt, ThirdBuffer, ext);
      && r.Decoded?
      && "NAME" in r.rec && r.rec["NAME"] == Str("Deleted")
      && "AGE" in r.rec && r.rec["AGE"] == Num("99")
      && "BALANCE" in r.rec && r.rec["BALANCE"] == Num("1.23")
      && "CURR" in r.rec && r.rec["CURR"] == Currency(0)
      && "ACTIVE" in r.rec && r.rec["ACTIVE"] == Null
      && "BIRTH" in r.rec && r.rec["BIRTH"] == Timestamp(DateTime(Date(2000, 1, 1), Midnight))
      && "COUNT" in r.rec && r.rec["COUNT"] == Int(7)
      && "RATIO" in r.rec && r.rec["RATIO"] == Double(0x4004000000000000)
      && "STAMP" in r.rec && r.rec["STAMP"] == Timestamp(DateTime(Date(2019, 12, 31), Clock(0, 0, 0)))
      && "MEMO" in r.rec && r.rec["MEMO"] == Null
      && "_deleted" in r.rec && r.rec["_deleted"] == Bool(true)
  {
    ThirdNameEntry(opt, ext);
    ThirdAgeEntry(opt, ext);
    ThirdBalanceEntry(opt, ext);
    ThirdCurrEntry(opt, ext);
    ThirdActiveEntry(opt, ext);
    ThirdBirthEntry(opt, ext);
    ThirdCountEntry(opt, ext);
    ThirdRatioEntry(opt, ext);
    ThirdStampEntry(opt, ext);
    ThirdMemoEntry(opt, ext);
  }

  lemma FirstFieldKeys(opt: OpenOptions, ext: Externals)
    requires ReadsFixture(opt, ext)
    ensures var r := ParseRecord(Fields, opt, FirstBuffer, ext);
      r.Decoded? && forall i :: 0 <= i < |Fields| ==> Fields[i].name in r.rec
  {
    FirstNameEntry(opt, ext);
    var r := ParseRecord(Fields, opt, FirstBuffer, ext);
    forall i | 0 <= i < |Fields| ensures Fields[i].name in r.rec {
      if i == 0 { FirstNameEntry(opt, ext); }
      else if i == 1 { FirstAgeEntry(opt, ext); }
      else if i == 2 { FirstBalanceEntry(opt, ext); }
      else if i == 3 { FirstCurrEntry(opt, ext); }
      else if i == 4 { FirstActiveEntry(opt, ext); }
      else if i == 5 { FirstBirthEntry(opt, ext); }
      else if i == 6 { FirstCountEntry(opt, ext); }
      else if i == 7 { FirstRatioEntry(opt, ext); }
      else if i == 8 { FirstStampEntry(opt, ext); }
      else { FirstMemoEntry(opt, ext); }
    }
  }

  /** Record 1 has a key for every field, and no other. */
  lemma FirstKeys(opt: OpenOptions, ext: Externals)
    requires ReadsFixture(opt, ext)
    ensures var r := ParseRecord(Fields, opt, FirstBuffer, ext);
      r.Decoded? && r.rec.Keys == NamesOf(Fields)
  {
    FirstFieldKeys(opt, ext);
    var r := ParseRecord(Fields, opt, FirstBuffer, ext);
    assert !IsDeleted(FirstBuffer);
    assert r.rec.Keys <= NamesOf(Fields);
  }

  lemma SecondFieldKeys(opt: OpenOptions, ext: Externals)
    requires ReadsFixture(opt, ext)
    ensures var r := ParseRecord(Fields, opt, SecondBuffer, ext);
      r.Decoded? && forall i :: 0 <= i < |Fields| ==> Fields[i].name in r.rec
  {
    SecondNameEntry(opt, ext);
    var r := ParseRecord(Fields, opt, SecondBuffer, ext);
    forall i | 0 <= i < |Fields| ensures Fields[i].name in r.rec {
      if i == 0 { SecondNameEntry(opt, ext); }
      else if i == 1 { SecondAgeEntry(opt, ext); }
      else if i == 2 { SecondBalanceEntry(opt, ext); }
      else if i == 3 { SecondCurrEntry(opt, ext); }
      else if i == 4 { SecondActiveEntry(opt, ext); }
      else if i == 5 { SecondBirthEntry(opt, ext); }
      else if i == 6 { SecondCountEntry(opt, ext); }
      else if i == 7 { SecondRatioEntry(opt, ext); }
      else if i == 8 { SecondStampEntry(opt, ext); }
      else { SecondMemoEntry(opt, ext); }
    }
  }

  /** Record 2 has a key for every field, and no other. */
  lemma SecondKeys(opt: OpenOptions, ext: Externals)
    requires ReadsFixture(opt, ext)
    ensures var r := ParseRecord(Fields, opt, SecondBuffer, ext);
      r.Decoded? && r.rec.Keys == NamesOf(Fields)
  {
    SecondFieldKeys(opt, ext);
    var r := ParseRecord(Fields, opt, SecondBuffer, ext);
    assert !IsDeleted(SecondBuffer);
    assert r.rec.Keys <= NamesOf(Fields);
  }

  lemma ThirdFieldKeys(opt: OpenOptions, ext: Externals)
    requires ReadsFixture(opt, ext) && opt.includeDeleted
    ensures var r := ParseRecord(Fields, opt, ThirdBuffer, ext);
      r.Decoded? && forall i :: 0 <= i < |Fields| ==> Fields[i].name in r.rec
  {
    ThirdNameEntry(opt, ext);
    var r := ParseRecord(Fields, opt, ThirdBuffer, ext);
    forall i | 0 <= i < |Fields| ensures Fields[i].name in r.rec {
      if i == 0 { ThirdNameEntry(opt, ext); }
      else if i == 1 { ThirdAgeEntry(opt, ext); }
      else if i == 2 { ThirdBalanceEntry(opt, ext); }
      else if i == 3 { ThirdCurrEntry(opt, ext); }
      else if i == 4 { ThirdActiveEntry(opt, ext); }
      else if i == 5 { ThirdBirthEntry(opt, ext); }
      else if i == 6 { ThirdCountEntry(opt, ext); }
      else if i == 7 { ThirdRatioEntry(opt, ext); }
      else if i == 8 { ThirdStampEntry(opt, ext); }
      else { ThirdMemoEntry(opt, ext); }
    }
  }

  /** Record 3 has a key for every field and the deletion tag, and no other. */
  lemma ThirdKeys(opt: OpenOptions, ext: Externals)
    requires ReadsFixture(opt, ext) && opt.includeDeleted
    ensures var r := ParseRecord(Fields, opt, ThirdBuffer, ext);
      r.Decoded? && r.rec.Keys == NamesOf(Fields) + {DeletedKey}
  {
    ThirdFieldKeys(opt, ext);
    var r := ParseRecord(Fields, opt, ThirdBuffer, ext);
    assert IsDeleted(ThirdBuffer);
    assert r.rec.Keys <= NamesOf(Fields) + {DeletedKey};
  }

  // ---------------------------------------------------------------------------
  // The rows as predicates

  /** The rows the test suite expects, field by field. */
  predicate JoseRow(rec: Record) {
    && "NAME" in rec && rec["NAME"] == Str("José")
    && "AGE" in rec && rec["AGE"] == Num("42")
    && "BALANCE" in rec && rec["BALANCE"] == Num("123.45")
    && "CURR" in rec && rec["CURR"] == Currency(123400)
    && "ACTIVE" in rec && rec["ACTIVE"] == Bool(true)
    && "BIRTH" in rec && rec["BIRTH"] == Timestamp(DateTime(Date(1990, 1, 1), Midnight))
    && "COUNT" in rec && rec["COUNT"] == Int(123456)
    && "RATIO" in rec && rec["RATIO"] == Double(0x400921f9f01b866e)
    && "STAMP" in rec && rec["STAMP"] == Timestamp(DateTime(Date(2023, 8, 15), Clock(23, 59, 59)))
    && "MEMO" in rec && rec["MEMO"] == Null
  }

  predicate BlankRow(rec: Record) {
    && "NAME" in rec && rec["NAME"] == Str("")
    && "AGE" in rec && rec["AGE"] == Null
    && "BALANCE" in rec && rec["BALANCE"] == Null
    && "CURR" in rec && rec["CURR"] == Currency(-98765432)
    && "ACTIVE" in rec && rec["ACTIVE"] == Bool(false)
    && "BIRTH" in rec && rec["BIRTH"] == Timestamp(DateTime(Date(2021, 12, 31), Midnight))
    && "COUNT" in rec && rec["COUNT"] == Int(-50)
    && "RATIO" in rec && rec["RATIO"] == Double(0xc045400000000000)
    && "STAMP" in rec && rec["STAMP"] == Timestamp(DateTime(Date(2020, 3, 10), Clock(8, 30, 15)))
    && "MEMO" in rec && rec["MEMO"] == Null
  }

  predicate DeletedRow(rec: Record) {
    && "NAME" in rec && rec["NAME"] == Str("Deleted")
    && "AGE" in rec && rec["AGE"] == Num("99")
    && "BALANCE" in rec && rec["BALANCE"] == Num("1.23")
    && "CURR" in rec && rec["CURR"] == Currency(0)
    && "ACTIVE" in rec && rec["ACTIVE"] == Null
    && "BIRTH" in rec && rec["BIRTH"] == Timestamp(DateTime(Date(2000, 1, 1), Midnight))
    && "COUNT" in rec && rec["COUNT"] == Int(7)
    && "RATIO" in rec && rec["RATIO"] == Double(0x4004000000000000)
    && "STAMP" in rec && rec["STAMP"] == Timestamp(DateTime(Date(2019, 12, 31), Clock(0, 0, 0)))
    && "MEMO" in rec && rec["MEMO"] == Null
    && DeletedKey in rec && rec[DeletedKey] == Bool(true)
  }
}
