/** Record decoding (parseRecord): the deletion marker, the contiguous field
    spans, and the per-type value decoders with the strict/loose policy. */
module Records {
  import opened Results
  import opened Bytes
  import opened Text
  import opened Options
  import opened Encodings
  import opened Calendar
  import opened Schema

  /** A decoded value. Floating-point results are kept in the exact form the
      source derives them from: a numeric field as its normalised text, a
      currency as the signed 64-bit count of ten-thousandths, and a double as
      its IEEE-754 bit pattern. */
  datatype Value =
    | Null
    | Str(text: string)
    | Num(literal: string)
    | Currency(tenThousandths: int)
    | Bool(flag: bool)
    | Timestamp(at: DateTime)
    | Int(int32: int)
    | Double(bits: nat)

  type Record = map<string, Value>

  /** The key a kept deleted record is tagged with. */
  const DeletedKey: string := "_deleted"
  const DeletedMarker: byte := 0x2A

  /** What one field contributes: a value, nothing (loose mode skips unknown
      types), or an error. */
  datatype FieldOutcome = Got(v: Value) | Omitted | Failed(e: Error)

  /** What parseRecord returns: skip without error, an error, or a record. */
  datatype Parsed = Skipped | Rejected(e: Error) | Decoded(rec: Record)

  // ---------------------------------------------------------------------------
  // Fixed-width decoders

  predicate Truthy(c: byte) {
    c == 'T' as int || c == 't' as int || c == 'Y' as int || c == 'y' as int
  }

  predicate Falsy(c: byte) {
    c == 'F' as int || c == 'f' as int || c == 'N' as int || c == 'n' as int
  }

  /** A logical field: the first byte (a blank when the field is empty)
      chooses true, false or null. */
  function DecodeLogical(bs: seq<byte>): (v: Value)
    ensures v == Bool(true) <==> |bs| > 0 && Truthy(bs[0])
    ensures v == Bool(false) <==> |bs| > 0 && Falsy(bs[0])
    ensures v == Null || v.Bool?
  {
    var c: byte := if |bs| > 0 then bs[0] else ' ' as int;
    if Truthy(c) then Bool(true) else if Falsy(c) then Bool(false) else Null
  }

  /** A four-byte little-endian two's-complement integer; any other width is
      null. */
  function DecodeInt(bs: seq<byte>): (v: Value)
    ensures v.Int? <==> |bs| == 4
    ensures v == Null || v.Int?
    ensures v.Int? ==> -0x8000_0000 <= v.int32 < 0x8000_0000 && v.int32 % TWO_32 == Uint32(bs)
  {
    if |bs| != 4 then Null else Int(Int32(Uint32(bs)))
  }

  /** A currency: a signed little-endian 64-bit count of ten-thousandths. */
  function DecodeCurrency(bs: seq<byte>): (v: Value)
    ensures v.Currency? <==> |bs| == 8
    ensures v == Null || v.Currency?
    ensures v.Currency? ==> -0x8000_0000_0000_0000 <= v.tenThousandths < 0x8000_0000_0000_0000
    ensures v.Currency? ==> v.tenThousandths % TWO_64 == Uint64(bs)
  {
    if |bs| != 8 then Null else Currency(Int64(Uint64(bs)))
  }

  /** A double: the little-endian 64-bit pattern. */
  function DecodeDouble(bs: seq<byte>): (v: Value)
    ensures v.Double? <==> |bs| == 8
    ensures v == Null || v.Double?
    ensures v.Double? ==> v.bits < TWO_64 && PutUint64(v.bits) == bs
  {
    if |bs| != 8 then Null
    else
      PutUint64RoundTrip(bs);
      Double(Uint64(bs))
  }

  /** A Visual FoxPro datetime: a signed day number and signed milliseconds
      since midnight, both little-endian 32-bit. */
  function DecodeDateTime(bs: seq<byte>): (v: Value)
    ensures v.Timestamp? <==> |bs| == 8
    ensures v == Null || v.Timestamp?
    ensures v.Timestamp? && Uint32(bs[4..]) < 86_400_000 ==> ValidClock(v.at.clock)
    ensures |bs| == 8 ==> v == Timestamp(VfpDateTime(Int32(Uint32(bs[..4])), Int32(Uint32(bs[4..]))))
  {
    if |bs| != 8 then Null
    else
      var jd := Int32(Uint32(bs[..4]));
      var ms := Int32(Uint32(bs[4..]));
      Timestamp(VfpDateTime(jd, ms))
  }

  // ---------------------------------------------------------------------------
  // Dates as text

  predicate IsDigit(c: char) {
    '0' <= c <= '9'
  }

  predicate AllDigits(s: string) {
    forall i :: 0 <= i < |s| ==> IsDigit(s[i])
  }

  function Pow10(w: nat): (p: nat)
    ensures p >= 1
  {
    if w == 0 then 1 else 10 * Pow10(w - 1)
  }

  /** The number a string of decimal digits denotes. */
  function DigitsValue(s: string): (n: nat)
    requires AllDigits(s)
    ensures n < Pow10(|s|)
  {
    if s == [] then 0 else 10 * DigitsValue(s[..|s| - 1]) + (s[|s| - 1] as int - '0' as int)
  }

  /** `n` written in exactly `w` decimal digits, with leading zeros. */
  function Digits(n: nat, w: nat): (s: string)
    requires n < Pow10(w)
    ensures |s| == w && AllDigits(s)
  {
    if w == 0 then [] else Digits(n / 10, w - 1) + [('0' as int + n % 10) as char]
  }

  lemma {:induction false} DigitsValueOfDigits(n: nat, w: nat)
    requires n < Pow10(w)
    ensures DigitsValue(Digits(n, w)) == n
  {
    if w > 0 {
      var s := Digits(n, w);
      assert s[..|s| - 1] == Digits(n / 10, w - 1);
      DigitsValueOfDigits(n / 10, w - 1);
    }
  }

  lemma {:induction false} DigitsOfDigitsValue(s: string)
    requires AllDigits(s)
    ensures Digits(DigitsValue(s), |s|) == s
  {
    if s != [] {
      var p, c := s[..|s| - 1], s[|s| - 1];
      var d := c as int - '0' as int;
      var n := DigitsValue(s);
      assert n == 10 * DigitsValue(p) + d;
      LastDigit(DigitsValue(p), d);
      DigitsOfDigitsValue(p);
      assert ('0' as int + d) as char == c;
      assert Digits(n, |s|) == Digits(DigitsValue(p), |p|) + [c];
      assert s == p + [c];
    }
  }

  lemma LastDigit(x: nat, d: int)
    requires 0 <= d < 10
    ensures (10 * x + d) / 10 == x && (10 * x + d) % 10 == d
  {
  }

  /** The YYYYMMDD layout of a date. */
  function FormatYmd(d: Date): (s: string)
    requires 0 <= d.year <= 9999 && 0 <= d.month <= 99 && 0 <= d.day <= 99
    ensures |s| == 8 && AllDigits(s)
  {
    Digits(d.year, 4) + Digits(d.month, 2) + Digits(d.day, 2)
  }

  /** time.Parse with layout "20060102": eight digits forming a valid
      Gregorian date. */
  function ParseYmd(s: string): (d: Option<Date>)
    ensures d.Some? ==> ValidDate(d.value) && 0 <= d.value.year <= 9999 && FormatYmd(d.value) == s
    ensures !(|s| == 8 && AllDigits(s)) ==> d.None?
  {
    if |s| == 8 && AllDigits(s) then
      var date := Date(DigitsValue(s[..4]), DigitsValue(s[4..6]), DigitsValue(s[6..]));
      if ValidDate(date) then
        DigitsOfDigitsValue(s[..4]);
        DigitsOfDigitsValue(s[4..6]);
        DigitsOfDigitsValue(s[6..]);
        assert s == s[..4] + s[4..6] + s[6..];
        Some(date)
      else None
    else None
  }

  /** Every valid date of years 0..9999 is parsed back from its layout. */
  lemma ParseYmdComplete(d: Date)
    requires ValidDate(d) && 0 <= d.year <= 9999
    ensures ParseYmd(FormatYmd(d)) == Some(d)
  {
    var s := FormatYmd(d);
    assert s[..4] == Digits(d.year, 4);
    assert s[4..6] == Digits(d.month, 2);
    assert s[6..] == Digits(d.day, 2);
    DigitsValueOfDigits(d.year, 4);
    DigitsValueOfDigits(d.month, 2);
    DigitsValueOfDigits(d.day, 2);
  }

  /** A date field: the decoded, white-space-trimmed text must be eight bytes
      with no blank, not "00000000", and a valid YYYYMMDD date; otherwise
      null. */
  function DecodeDate(ext: Externals, bs: seq<byte>, enc: string): (v: Value)
    ensures v == Null || v.Timestamp?
    ensures v.Timestamp? ==> v.at.clock == Midnight && ValidDate(v.at.date) && 0 <= v.at.date.year <= 9999
    ensures v.Timestamp? ==> FormatYmd(v.at.date) == TrimSpace(DecodeBytes(ext, bs, enc))
  {
    var s := TrimSpace(DecodeBytes(ext, bs, enc));
    if ByteLen(s) != 8 || ' ' in s || s == "00000000" then Null
    else match ParseYmd(s)
      case Some(d) => Timestamp(DateTime(d, Midnight))
      case None => Null
  }

  // ---------------------------------------------------------------------------
  // Numbers as text

  /** Decimal-comma support: commas become points, but only in a text with
      no point. */
  function NormaliseDecimal(s: string): (r: string)
    ensures |r| == |s|
    ensures '.' in s || ',' !in s ==> r == s
    ensures ',' in s && '.' !in s ==> ',' !in r && forall i :: 0 <= i < |s| ==> r[i] == (if s[i] == ',' then '.' else s[i])
  {
    if ',' in s && '.' !in s then ReplaceChar(s, ',', '.') else s
  }

  lemma NormaliseDecimalIdempotent(s: string)
    ensures NormaliseDecimal(NormaliseDecimal(s)) == NormaliseDecimal(s)
  {
  }

  /** A numeric field: the white-space-trimmed text, null when blank; a text
      the float parser rejects is an error in strict mode and null otherwise. */
  function DecodeNumber(ext: Externals, bs: seq<byte>, enc: string, name: string, strict: bool): (r: FieldOutcome)
    ensures r.Omitted? == false
    ensures r.Failed? ==> strict && r.e == InvalidNumber(name, NormaliseDecimal(TrimSpace(DecodeBytes(ext, bs, enc))))
    ensures r.Got? ==> r.v == Null || r.v.Num?
    ensures var s := TrimSpace(DecodeBytes(ext, bs, enc));
      r.Got? && r.v.Num? <==> s != [] && ext.parsesFloat(NormaliseDecimal(s))
    ensures r.Got? && r.v.Num? ==> r.v.literal == NormaliseDecimal(TrimSpace(DecodeBytes(ext, bs, enc)))
  {
    var s := TrimSpace(DecodeBytes(ext, bs, enc));
    if s == [] then Got(Null)
    else
      var t := NormaliseDecimal(s);
      if ext.parsesFloat(t) then Got(Num(t))
      else if strict then Failed(InvalidNumber(name, t))
      else Got(Null)
  }

  // ---------------------------------------------------------------------------
  // Writing values back: each decoder inverts the corresponding layout

  lemma LogicalRoundTrip(b: bool)
    ensures DecodeLogical([if b then 'T' as int else 'F' as int]) == Bool(b)
  {
  }

  lemma IntRoundTrip(i: int)
    requires -0x8000_0000 <= i < 0x8000_0000
    ensures DecodeInt(PutUint32(i % TWO_32)) == Int(i)
  {
    Int32RoundTrip(i);
  }

  lemma CurrencyRoundTrip(i: int)
    requires -0x8000_0000_0000_0000 <= i < 0x8000_0000_0000_0000
    ensures DecodeCurrency(PutUint64(i % TWO_64)) == Currency(i)
  {
    Int64RoundTrip(i);
  }

  lemma DoubleRoundTrip(bits: nat)
    requires bits < TWO_64
    ensures DecodeDouble(PutUint64(bits)) == Double(bits)
  {
    Uint64RoundTrip(bits);
  }

  /** A datetime written as the day number of a date and the milliseconds of
      a time of day (with any sub-second part) reads back as that date and
      time. */
  lemma DateTimeRoundTrip(d: Date, h: int, mi: int, sec: int, frac: int)
    requires ValidDate(d) && 0 <= JulianDay(d.year, d.month, d.day) < 0x8000_0000
    requires 0 <= h < 24 && 0 <= mi < 60 && 0 <= sec < 60 && 0 <= frac < 1000
    ensures var ms := 1000 * (3600 * h + 60 * mi + sec) + frac;
      DecodeDateTime(PutUint32(JulianDay(d.year, d.month, d.day)) + PutUint32(ms))
        == Timestamp(DateTime(d, Clock(h, mi, sec)))
  {
    var jd := JulianDay(d.year, d.month, d.day);
    var ms := 1000 * (3600 * h + 60 * mi + sec) + frac;
    var bs := PutUint32(jd) + PutUint32(ms);
    assert bs[..4] == PutUint32(jd) && bs[4..] == PutUint32(ms);
    Uint32RoundTrip(jd);
    Uint32RoundTrip(ms);
    VfpDateTimeRoundTrip(d.year, d.month, d.day);
    ClockRoundTrip(h, mi, sec, frac);
  }

  /** A date field holding the YYYYMMDD layout of a valid date, padded with
      white space, reads back as that date at midnight. */
  lemma FormatYmdAccepted(d: Date)
    requires ValidDate(d) && 0 <= d.year <= 9999
    ensures var s := FormatYmd(d);
      ByteLen(s) == 8 && ' ' !in s && s != "00000000" && ParseYmd(s) == Some(d)
  {
    var s := FormatYmd(d);
    DigitsValueOfDigits(d.month, 2);
    assert s[4..6] == Digits(d.month, 2);
    assert DigitsValue("00") == 0;
    assert s[4..6] != "00";
    assert "00000000"[4..6] == "00";
    ParseYmdComplete(d);
  }

  lemma DateFieldRoundTrip(ext: Externals, enc: string, left: string, d: Date, right: string)
    requires DecodesLatin1(ext) && ResolveCharset(enc) == Latin1
    requires ValidDate(d) && 0 <= d.year <= 9999
    requires forall i :: 0 <= i < |left| ==> IsSpace(left[i]) && left[i] as int < 0x100
    requires forall i :: 0 <= i < |right| ==> IsSpace(right[i]) && right[i] as int < 0x100
    ensures DecodeDate(ext, Latin1Encode(left + FormatYmd(d) + right), enc) == Timestamp(DateTime(d, Midnight))
  {
    var s := FormatYmd(d);
    var padded := left + s + right;
    Latin1RoundTrip(padded);
    TrimSpaceInvertsPadding(left, s, right);
    FormatYmdAccepted(d);
  }

  /** A text field is its text with the blank padding removed. */
  lemma TextFieldRoundTrip(ext: Externals, enc: string, text: string, pad: nat)
    requires DecodesLatin1(ext) && ResolveCharset(enc) == Latin1
    requires forall i :: 0 <= i < |text| ==> text[i] as int < 0x100
    requires text == [] || text[|text| - 1] != ' '
    ensures var padding := seq(pad, i => ' ');
      TrimRightBlanks(DecodeBytes(ext, Latin1Encode(text + padding), enc)) == text
  {
    var padding := seq(pad, i => ' ');
    Latin1RoundTrip(text + padding);
    TrimRightPadded(text, padding, IsBlank);
  }

  /** A numeric field holding a literal the float parser accepts, with no
      decimal comma, padded with white space, reads back as that literal. */
  lemma NumberFieldRoundTrip(ext: Externals, enc: string, left: string, literal: string, right: string, name: string, strict: bool)
    requires DecodesLatin1(ext) && ResolveCharset(enc) == Latin1 && ext.parsesFloat(literal)
    requires literal != [] && !IsSpace(literal[0]) && !IsSpace(literal[|literal| - 1]) && ',' !in literal
    requires forall i :: 0 <= i < |left| ==> IsSpace(left[i]) && left[i] as int < 0x100
    requires forall i :: 0 <= i < |right| ==> IsSpace(right[i]) && right[i] as int < 0x100
    requires forall i :: 0 <= i < |literal| ==> literal[i] as int < 0x100
    ensures DecodeNumber(ext, Latin1Encode(left + literal + right), enc, name, strict) == Got(Num(literal))
  {
    Latin1RoundTrip(left + literal + right);
    TrimSpaceInvertsPadding(left, literal, right);
  }

  /** A blank numeric field is null, in every mode. */
  lemma BlankNumberIsNull(ext: Externals, enc: string, n: nat, name: string, strict: bool)
    requires DecodesLatin1(ext) && ResolveCharset(enc) == Latin1
    ensures DecodeNumber(ext, Latin1Encode(seq(n, i => ' ')), enc, name, strict) == Got(Null)
  {
    Latin1RoundTrip(seq(n, i => ' '));
  }

  // ---------------------------------------------------------------------------
  // Dispatch on the field type

  /** The shape of value each known type can produce. */
  predicate Shaped(t: byte, v: Value) {
    if IsType(t, 'C') then v.Str?
    else if IsType(t, 'N') || IsType(t, 'F') then v == Null || v.Num?
    else if IsType(t, 'Y') then v == Null || v.Currency?
    else if IsType(t, 'L') then v == Null || v.Bool?
    else if IsType(t, 'D') || IsType(t, 'T') then v == Null || v.Timestamp?
    else if IsType(t, 'I') then v == Null || v.Int?
    else if IsType(t, 'B') then v == Null || v.Double?
    else v == Null
  }

  /** The value of one field's bytes, decoded with the field's encoding. */
  function FieldValue(f: Field, bs: seq<byte>, opt: OpenOptions, ext: Externals): (r: FieldOutcome)
    ensures r.Got? ==> KnownType(f.ftype) && Shaped(f.ftype, r.v)
    ensures r.Omitted? <==> !KnownType(f.ftype) && !IsStrict(opt)
    ensures r.Failed? ==> IsStrict(opt)
    ensures r.Failed? ==> r.e.InvalidNumber? || r.e == MemoUnsupported || r.e == UnsupportedFieldType(f.ftype)
    ensures IsStrict(opt) && !KnownType(f.ftype) ==> r == Failed(UnsupportedFieldType(f.ftype))
    ensures IsType(f.ftype, 'M') ==> r == if IsStrict(opt) then Failed(MemoUnsupported) else Got(Null)
    ensures r.Failed? && r.e.InvalidNumber? ==> IsType(f.ftype, 'N') || IsType(f.ftype, 'F')
  {
    var t := f.ftype;
    var enc := FieldEncoding(opt.encoding, f.name);
    if IsType(t, 'C') then Got(Str(TrimRightBlanks(DecodeBytes(ext, bs, enc))))
    else if IsType(t, 'N') || IsType(t, 'F') then DecodeNumber(ext, bs, enc, f.name, IsStrict(opt))
    else if IsType(t, 'Y') then Got(DecodeCurrency(bs))
    else if IsType(t, 'L') then Got(DecodeLogical(bs))
    else if IsType(t, 'D') then Got(DecodeDate(ext, bs, enc))
    else if IsType(t, 'I') then Got(DecodeInt(bs))
    else if IsType(t, 'B') then Got(DecodeDouble(bs))
    else if IsType(t, 'T') then Got(DecodeDateTime(bs))
    else if IsType(t, 'M') then (if IsStrict(opt) then Failed(MemoUnsupported) else Got(Null))
    else if IsStrict(opt) then Failed(UnsupportedFieldType(t))
    else Omitted
  }

  // ---------------------------------------------------------------------------
  // Spans and the field walk

  /** A per-field decoder: the outcome of a field's bytes. */
  type Decoder = (Field, seq<byte>) -> FieldOutcome

  /** The decoder parseRecord uses under the given options. */
  function FieldDecoder(opt: OpenOptions, ext: Externals): Decoder {
    (f: Field, bs: seq<byte>) => FieldValue(f, bs, opt, ext)
  }

  /** A decoder that never reports an error. */
  ghost predicate NeverFails(decode: Decoder) {
    forall f, bs :: !decode(f, bs).Failed?
  }

  /** Outside strict mode no field decoder fails. */
  lemma LooseDecoderNeverFails(opt: OpenOptions, ext: Externals)
    ensures !IsStrict(opt) ==> NeverFails(FieldDecoder(opt, ext))
  {
    if !IsStrict(opt) {
      forall f, bs ensures !FieldDecoder(opt, ext)(f, bs).Failed? {
        var o := FieldValue(f, bs, opt, ext);
      }
    }
  }

  function NamesOf(fields: seq<Field>): set<string> {
    set i | 0 <= i < |fields| :: fields[i].name
  }

  /** The outcome of a field whose span starts at `start`: a span past the
      end of the buffer is the truncation error. */
  function SpanOutcome(decode: Decoder, f: Field, buf: seq<byte>, start: nat): (o: FieldOutcome)
    ensures !o.Failed? ==> start + f.size <= |buf|
  {
    if start + f.size <= |buf| then decode(f, buf[start..start + f.size])
    else Failed(TruncatedRecord)
  }

  /** The outcome of field `j` when the walk starts at `offset`: its span
      starts after the widths of the fields before it. */
  function OutcomeAt(decode: Decoder, fields: seq<Field>, buf: seq<byte>, offset: nat, j: nat): FieldOutcome
    requires j < |fields|
  {
    SpanOutcome(decode, fields[j], buf, offset + SumSizes(fields[..j]))
  }

  /** Field `j` is the last one with its name, so its value is the one kept. */
  predicate LastWithName(fields: seq<Field>, j: nat)
    requires j < |fields|
  {
    forall k :: j < k < |fields| ==> fields[k].name != fields[j].name
  }

  /** The record after one field's outcome: a value is stored under the
      field's name, anything else leaves the record as it was. */
  function Absorb(rec: Record, name: string, o: FieldOutcome): Record {
    if o.Got? then rec[name := o.v] else rec
  }

  /** The loop of parseRecord from `offset` on: each field takes the next
      `size` bytes; a span past the end of the buffer is an error, and so is
      a field the decoder rejects. Later fields overwrite earlier keys. */
  function DecodeFields(decode: Decoder, fields: seq<Field>, buf: seq<byte>, offset: nat, rec: Record): (r: Result<Record>)
    requires offset <= |buf|
    ensures r.Ok? ==> offset + SumSizes(fields) <= |buf|
    ensures NeverFails(decode) ==> (r.Ok? <==> offset + SumSizes(fields) <= |buf|)
    ensures r.Ok? ==> rec.Keys <= r.value.Keys <= rec.Keys + NamesOf(fields)
    ensures r.Ok? ==> forall k :: k in rec && k !in NamesOf(fields) ==> r.value[k] == rec[k]
    decreases |fields|
  {
    if fields == [] then Ok(rec)
    else
      var f := fields[0];
      assert NamesOf(fields) == {f.name} + NamesOf(fields[1..]) by {
        forall k | k in NamesOf(fields) ensures k in {f.name} + NamesOf(fields[1..]) {
          var i :| 0 <= i < |fields| && fields[i].name == k;
          if i > 0 { assert fields[1..][i - 1] == fields[i]; }
        }
      }
      var o := SpanOutcome(decode, f, buf, offset);
      if o.Failed? then Err(o.e)
      else DecodeFields(decode, fields[1..], buf, offset + f.size, Absorb(rec, f.name, o))
  }

  /** One step of a successful walk: the first span fits, and the walk goes
      on from the next offset with the first outcome absorbed. */
  lemma DecodeFieldsStep(decode: Decoder, fields: seq<Field>, buf: seq<byte>, offset: nat, rec: Record)
    requires offset <= |buf| && fields != []
    requires DecodeFields(decode, fields, buf, offset, rec).Ok?
    ensures offset + fields[0].size <= |buf|
    ensures !OutcomeAt(decode, fields, buf, offset, 0).Failed?
    ensures DecodeFields(decode, fields, buf, offset, rec)
         == DecodeFields(decode, fields[1..], buf, offset + fields[0].size,
                         Absorb(rec, fields[0].name, OutcomeAt(decode, fields, buf, offset, 0)))
  {
    var o := SpanOutcome(decode, fields[0], buf, offset);
    assert fields[..0] == [];
    assert OutcomeAt(decode, fields, buf, offset, 0) == o;
    assert !o.Failed?;
  }

  /** Shifting the walk by one field: field j + 1 from `offset` is field j of
      the rest from `offset` plus the first width. */
  lemma OutcomeShift(decode: Decoder, fields: seq<Field>, rest: seq<Field>, buf: seq<byte>, offset: nat, next: nat)
    requires fields != [] && rest == fields[1..] && next == offset + fields[0].size
    ensures forall j :: 0 <= j < |rest| ==>
      OutcomeAt(decode, rest, buf, next, j) == OutcomeAt(decode, fields, buf, offset, j + 1)
  {
    forall j | 0 <= j < |rest|
      ensures OutcomeAt(decode, rest, buf, next, j) == OutcomeAt(decode, fields, buf, offset, j + 1)
    {
      assert fields[..j + 1][1..] == rest[..j];
      assert SumSizes(fields[..j + 1]) == fields[0].size + SumSizes(rest[..j]);
      assert rest[j] == fields[j + 1];
    }
  }

  /** Every field that yields a value has its key in the walk's result. */
  lemma {:induction false} DecodeFieldsKeys(decode: Decoder, fields: seq<Field>, buf: seq<byte>, offset: nat, rec: Record)
    requires offset <= |buf|
    requires DecodeFields(decode, fields, buf, offset, rec).Ok?
    ensures var r := DecodeFields(decode, fields, buf, offset, rec).value;
      forall j :: 0 <= j < |fields| && OutcomeAt(decode, fields, buf, offset, j).Got? ==> fields[j].name in r
    decreases |fields|
  {
    if fields != [] {
      DecodeFieldsStep(decode, fields, buf, offset, rec);
      var rest, next := fields[1..], offset + fields[0].size;
      var rec' := Absorb(rec, fields[0].name, OutcomeAt(decode, fields, buf, offset, 0));
      DecodeFieldsKeys(decode, rest, buf, next, rec');
      OutcomeShift(decode, fields, rest, buf, offset, next);
      var r := DecodeFields(decode, fields, buf, offset, rec).value;
      forall j | 0 <= j < |fields| && OutcomeAt(decode, fields, buf, offset, j).Got?
        ensures fields[j].name in r
      {
        if j > 0 { assert rest[j - 1] == fields[j]; }
      }
    }
  }

  /** The last field of each name holds exactly the value of its own span. */
  lemma {:induction false} DecodeFieldsValues(decode: Decoder, fields: seq<Field>, buf: seq<byte>, offset: nat, rec: Record)
    requires offset <= |buf|
    requires DecodeFields(decode, fields, buf, offset, rec).Ok?
    ensures var r := DecodeFields(decode, fields, buf, offset, rec).value;
      forall j :: 0 <= j < |fields| && LastWithName(fields, j) && OutcomeAt(decode, fields, buf, offset, j).Got? ==>
        fields[j].name in r && r[fields[j].name] == OutcomeAt(decode, fields, buf, offset, j).v
    decreases |fields|
  {
    if fields != [] {
      DecodeFieldsStep(decode, fields, buf, offset, rec);
      var rest, next := fields[1..], offset + fields[0].size;
      var rec' := Absorb(rec, fields[0].name, OutcomeAt(decode, fields, buf, offset, 0));
      DecodeFieldsValues(decode, rest, buf, next, rec');
      OutcomeShift(decode, fields, rest, buf, offset, next);
      var r := DecodeFields(decode, fields, buf, offset, rec).value;
      forall j | 0 <= j < |fields| && LastWithName(fields, j) && OutcomeAt(decode, fields, buf, offset, j).Got?
        ensures fields[j].name in r && r[fields[j].name] == OutcomeAt(decode, fields, buf, offset, j).v
      {
        if j > 0 {
          LastWithNameInTail(fields, j);
        } else {
          LastHeadNotInTail(fields);
        }
      }
    }
  }

  lemma LastWithNameInTail(fields: seq<Field>, j: nat)
    requires 0 < j < |fields| && LastWithName(fields, j)
    ensures fields[1..][j - 1] == fields[j] && LastWithName(fields[1..], j - 1)
  {
    var rest := fields[1..];
    forall k | j - 1 < k < |rest| ensures rest[k].name != rest[j - 1].name {
      assert rest[k] == fields[k + 1];
    }
  }

  lemma LastHeadNotInTail(fields: seq<Field>)
    requires 0 < |fields| && LastWithName(fields, 0)
    ensures fields[0].name !in NamesOf(fields[1..])
  {
    var rest := fields[1..];
    forall i | 0 <= i < |rest| ensures rest[i].name != fields[0].name {
      assert rest[i] == fields[i + 1];
    }
  }

  /** A failed walk failed at some field: the error is that field's outcome,
      which for a span past the end is the truncation error. */
  lemma {:induction false} DecodeFieldsFailure(decode: Decoder, fields: seq<Field>, buf: seq<byte>, offset: nat, rec: Record)
    requires offset <= |buf|
    requires DecodeFields(decode, fields, buf, offset, rec).Err?
    ensures exists j :: 0 <= j < |fields| && OutcomeAt(decode, fields, buf, offset, j) == Failed(DecodeFields(decode, fields, buf, offset, rec).error)
    decreases |fields|
  {
    var e := DecodeFields(decode, fields, buf, offset, rec).error;
    var o := SpanOutcome(decode, fields[0], buf, offset);
    assert fields[..0] == [];
    assert OutcomeAt(decode, fields, buf, offset, 0) == o;
    if o.Failed? {
      assert OutcomeAt(decode, fields, buf, offset, 0) == Failed(e);
    } else {
      var rest, next := fields[1..], offset + fields[0].size;
      DecodeFieldsFailure(decode, rest, buf, next, Absorb(rec, fields[0].name, o));
      OutcomeShift(decode, fields, rest, buf, offset, next);
      var j :| 0 <= j < |rest| && OutcomeAt(decode, rest, buf, next, j) == Failed(e);
      assert OutcomeAt(decode, fields, buf, offset, j + 1) == Failed(e);
    }
  }

  // ---------------------------------------------------------------------------
  // Records

  predicate IsDeleted(buf: seq<byte>) {
    |buf| > 0 && buf[0] == DeletedMarker
  }

  /** parseRecord: an empty buffer, or a deleted one that is not wanted, is
      skipped without error; otherwise the fields are walked from offset 1,
      and a kept deleted record is tagged with "_deleted" = true. */
  function ParseRecord(fields: seq<Field>, opt: OpenOptions, buf: seq<byte>, ext: Externals): (r: Parsed)
    ensures r.Skipped? <==> |buf| == 0 || (IsDeleted(buf) && !opt.includeDeleted)
    ensures !r.Skipped? && !IsStrict(opt) ==> (r.Decoded? <==> 1 + SumSizes(fields) <= |buf|)
    ensures r.Decoded? ==> 1 + SumSizes(fields) <= |buf|
    ensures r.Decoded? && IsDeleted(buf) ==> DeletedKey in r.rec && r.rec[DeletedKey] == Bool(true)
    ensures r.Decoded? ==> r.rec.Keys <= NamesOf(fields) + (if IsDeleted(buf) then {DeletedKey} else {})
  {
    if |buf| == 0 then Skipped
    else
      var deleted := IsDeleted(buf);
      if deleted && !opt.includeDeleted then Skipped
      else
        LooseDecoderNeverFails(opt, ext);
        match DecodeFields(FieldDecoder(opt, ext), fields, buf, 1, map[])
        case Err(e) => Rejected(e)
        case Ok(rec) => Decoded(if deleted then rec[DeletedKey := Bool(true)] else rec)
  }

  /** The errors a field decoder reports, all of them strict-mode policy. */
  lemma DecoderFailure(opt: OpenOptions, ext: Externals, f: Field, bs: seq<byte>)
    requires FieldDecoder(opt, ext)(f, bs).Failed?
    ensures var e := FieldDecoder(opt, ext)(f, bs).e;
      IsStrict(opt) && (e.InvalidNumber? || e == MemoUnsupported || e.UnsupportedFieldType?)
  {
    var o := FieldValue(f, bs, opt, ext);
  }

  /** A span fails only when it runs past the buffer or when the decoder
      refuses the bytes it was given. */
  lemma SpanFailure(decode: Decoder, f: Field, buf: seq<byte>, start: nat)
    requires SpanOutcome(decode, f, buf, start).Failed?
    ensures var e := SpanOutcome(decode, f, buf, start).e;
      e == TruncatedRecord || (start + f.size <= |buf| && decode(f, buf[start..start + f.size]) == Failed(e))
  {
  }

  /** A record is rejected only for a truncated span or, in strict mode, for
      a field the strict policy refuses. */
  lemma ParseRecordRejects(fields: seq<Field>, opt: OpenOptions, buf: seq<byte>, ext: Externals)
    requires ParseRecord(fields, opt, buf, ext).Rejected?
    ensures var e := ParseRecord(fields, opt, buf, ext).e;
      e == TruncatedRecord || (IsStrict(opt) && (e.InvalidNumber? || e == MemoUnsupported || e.UnsupportedFieldType?))
  {
    var decode := FieldDecoder(opt, ext);
    var walk := DecodeFields(decode, fields, buf, 1, map[]);
    assert ParseRecord(fields, opt, buf, ext) == Rejected(walk.error);
    DecodeFieldsFailure(decode, fields, buf, 1, map[]);
    var j :| 0 <= j < |fields| && OutcomeAt(decode, fields, buf, 1, j) == Failed(walk.error);
    var start := 1 + SumSizes(fields[..j]);
    SpanFailure(decode, fields[j], buf, start);
    if walk.error != TruncatedRecord {
      DecoderFailure(opt, ext, fields[j], buf[start..start + fields[j].size]);
    }
  }

  /** The values of a decoded record: the last field of each name holds the
      value of its own span, except that the deletion tag wins on a deleted
      record. */
  lemma ParseRecordValues(fields: seq<Field>, opt: OpenOptions, buf: seq<byte>, ext: Externals, j: nat)
    requires ParseRecord(fields, opt, buf, ext).Decoded?
    requires j < |fields| && LastWithName(fields, j) && OutcomeAt(FieldDecoder(opt, ext), fields, buf, 1, j).Got?
    requires !(IsDeleted(buf) && fields[j].name == DeletedKey)
    ensures var rec := ParseRecord(fields, opt, buf, ext).rec;
      fields[j].name in rec && rec[fields[j].name] == OutcomeAt(FieldDecoder(opt, ext), fields, buf, 1, j).v
  {
    DecodeFieldsValues(FieldDecoder(opt, ext), fields, buf, 1, map[]);
  }

  /** Every field of a decoded record that yields a value has its key. */
  lemma ParseRecordKeys(fields: seq<Field>, opt: OpenOptions, buf: seq<byte>, ext: Externals, j: nat)
    requires ParseRecord(fields, opt, buf, ext).Decoded?
    requires j < |fields| && OutcomeAt(FieldDecoder(opt, ext), fields, buf, 1, j).Got?
    ensures fields[j].name in ParseRecord(fields, opt, buf, ext).rec
  {
    DecodeFieldsKeys(FieldDecoder(opt, ext), fields, buf, 1, map[]);
  }

  // ---------------------------------------------------------------------------
  // Records written span by span

  /** One span per field, each as wide as its field. */
  predicate Spans(fields: seq<Field>, chunks: seq<seq<byte>>) {
    |chunks| == |fields| && forall j :: 0 <= j < |fields| ==> |chunks[j]| == fields[j].size
  }

  lemma {:induction false} SpansLength(fields: seq<Field>, chunks: seq<seq<byte>>)
    requires Spans(fields, chunks)
    ensures |Concat(chunks)| == SumSizes(fields)
    decreases |fields|
  {
    if fields != [] {
      SpansLength(fields[1..], chunks[1..]);
    }
  }

  /** In a record written as a marker byte followed by the spans, every field
      reads exactly its own span. */
  lemma RecordLayout(decode: Decoder, fields: seq<Field>, marker: byte, chunks: seq<seq<byte>>, j: nat)
    requires Spans(fields, chunks) && j < |fields|
    ensures OutcomeAt(decode, fields, [marker] + Concat(chunks), 1, j) == decode(fields[j], chunks[j])
  {
    SpansPrefix(fields, chunks, j);
    SpansLength(fields[..j], chunks[..j]);
    ConcatSlice(chunks, j);
    var s := SumSizes(fields[..j]);
    AfterMarker(marker, Concat(chunks), s, |chunks[j]|);
  }

  lemma SpansPrefix(fields: seq<Field>, chunks: seq<seq<byte>>, j: nat)
    requires Spans(fields, chunks) && j <= |fields|
    ensures Spans(fields[..j], chunks[..j])
  {
    assert forall i :: 0 <= i < j ==> fields[..j][i] == fields[i] && chunks[..j][i] == chunks[i];
  }

  /** The bytes after a one-byte marker, sliced from the buffer. */
  lemma AfterMarker(marker: byte, body: seq<byte>, s: nat, n: nat)
    requires s + n <= |body|
    ensures ([marker] + body)[1 + s..1 + s + n] == body[s..s + n]
  {
  }

  /** Outside strict mode a record written span by span is decoded unless it
      is a deleted record nobody asked for. */
  lemma LooseWrittenRecordDecodes(fields: seq<Field>, opt: OpenOptions, ext: Externals, marker: byte, chunks: seq<seq<byte>>)
    requires Spans(fields, chunks) && !IsStrict(opt)
    ensures ParseRecord(fields, opt, [marker] + Concat(chunks), ext).Decoded? <==> marker != DeletedMarker || opt.includeDeleted
  {
    SpansLength(fields, chunks);
  }

  /** The value a decoded record written span by span holds for a field is
      the value of that field's span. */
  lemma WrittenRecordValue(fields: seq<Field>, opt: OpenOptions, ext: Externals, marker: byte, chunks: seq<seq<byte>>, j: nat)
    requires Spans(fields, chunks) && j < |fields| && LastWithName(fields, j)
    requires ParseRecord(fields, opt, [marker] + Concat(chunks), ext).Decoded?
    requires FieldValue(fields[j], chunks[j], opt, ext).Got?
    requires !(marker == DeletedMarker && fields[j].name == DeletedKey)
    ensures var rec := ParseRecord(fields, opt, [marker] + Concat(chunks), ext).rec;
      fields[j].name in rec && rec[fields[j].name] == FieldValue(fields[j], chunks[j], opt, ext).v
  {
    RecordLayout(FieldDecoder(opt, ext), fields, marker, chunks, j);
    ParseRecordValues(fields, opt, [marker] + Concat(chunks), ext, j);
  }

  // ---------------------------------------------------------------------------
  // Field values of written spans

  /** Options under which every field decodes as ISO-8859-1. */
  predicate Latin1Options(opt: OpenOptions) {
    opt.encoding.perField == map[] && ResolveCharset(opt.encoding.default) == Latin1
  }

  lemma TextValue(opt: OpenOptions, ext: Externals, f: Field, bs: seq<byte>, text: string, padding: string)
    requires Latin1Options(opt) && DecodesLatin1(ext) && IsType(f.ftype, 'C')
    requires forall i :: 0 <= i < |text| ==> text[i] as int < 0x100
    requires text == [] || text[|text| - 1] != ' '
    requires forall i :: 0 <= i < |padding| ==> padding[i] == ' '
    requires bs == Latin1Encode(text + padding)
    ensures FieldValue(f, bs, opt, ext) == Got(Str(text))
  {
    assert FieldEncoding(opt.encoding, f.name) == opt.encoding.default;
    assert padding == seq(|padding|, i => ' ');
    TextFieldRoundTrip(ext, opt.encoding.default, text, |padding|);
  }

  lemma NumberValue(opt: OpenOptions, ext: Externals, f: Field, bs: seq<byte>, left: string, literal: string)
    requires Latin1Options(opt) && DecodesLatin1(ext) && ext.parsesFloat(literal)
    requires IsType(f.ftype, 'N') || IsType(f.ftype, 'F')
    requires literal != [] && !IsSpace(literal[0]) && !IsSpace(literal[|literal| - 1]) && ',' !in literal
    requires forall i :: 0 <= i < |literal| ==> literal[i] as int < 0x100
    requires forall i :: 0 <= i < |left| ==> left[i] == ' '
    requires bs == Latin1Encode(left + literal + "")
    ensures FieldValue(f, bs, opt, ext) == Got(Num(literal))
  {
    assert FieldEncoding(opt.encoding, f.name) == opt.encoding.default;
    NumberFieldRoundTrip(ext, opt.encoding.default, left, literal, "", f.name, IsStrict(opt));
  }

  lemma BlankValue(opt: OpenOptions, ext: Externals, f: Field, bs: seq<byte>)
    requires Latin1Options(opt) && DecodesLatin1(ext)
    requires IsType(f.ftype, 'N') || IsType(f.ftype, 'F')
    requires forall i :: 0 <= i < |bs| ==> bs[i] == 0x20
    ensures FieldValue(f, bs, opt, ext) == Got(Null)
  {
    assert FieldEncoding(opt.encoding, f.name) == opt.encoding.default;
    assert bs == Latin1Encode(seq(|bs|, i => ' '));
    BlankNumberIsNull(ext, opt.encoding.default, |bs|, f.name, IsStrict(opt));
  }

  lemma DateValue(opt: OpenOptions, ext: Externals, f: Field, bs: seq<byte>, d: Date)
    requires Latin1Options(opt) && DecodesLatin1(ext) && IsType(f.ftype, 'D')
    requires ValidDate(d) && 0 <= d.year <= 9999
    requires bs == Latin1Encode("" + FormatYmd(d) + "")
    ensures FieldValue(f, bs, opt, ext) == Got(Timestamp(DateTime(d, Midnight)))
  {
    DateDispatch(opt, ext, f, bs);
    DateFieldRoundTrip(ext, opt.encoding.default, "", d, "");
  }

  lemma DateDispatch(opt: OpenOptions, ext: Externals, f: Field, bs: seq<byte>)
    requires opt.encoding.perField == map[] && IsType(f.ftype, 'D')
    ensures FieldValue(f, bs, opt, ext) == Got(DecodeDate(ext, bs, opt.encoding.default))
  {
    DefaultDecodesField(opt, ext, f, bs);
  }

  /** A field whose own name carries a non-empty per-field encoding is
      transcoded with that encoding: text, numbers and dates alike. */
  lemma OverrideDecodesField(opt: OpenOptions, ext: Externals, f: Field, bs: seq<byte>)
    requires f.name in opt.encoding.perField && opt.encoding.perField[f.name] != ""
    ensures var enc := opt.encoding.perField[f.name];
      && (IsType(f.ftype, 'C') ==> FieldValue(f, bs, opt, ext) == Got(Str(TrimRightBlanks(DecodeBytes(ext, bs, enc)))))
      && (IsType(f.ftype, 'N') || IsType(f.ftype, 'F') ==> FieldValue(f, bs, opt, ext) == DecodeNumber(ext, bs, enc, f.name, IsStrict(opt)))
      && (IsType(f.ftype, 'D') ==> FieldValue(f, bs, opt, ext) == Got(DecodeDate(ext, bs, enc)))
  {
    assert FieldEncoding(opt.encoding, f.name) == opt.encoding.perField[f.name];
  }

  /** A field without a usable override of its own (none, or an empty one)
      is transcoded with the table default, whatever other fields override. */
  lemma DefaultDecodesField(opt: OpenOptions, ext: Externals, f: Field, bs: seq<byte>)
    requires !(f.name in opt.encoding.perField && opt.encoding.perField[f.name] != "")
    ensures var enc := opt.encoding.default;
      && (IsType(f.ftype, 'C') ==> FieldValue(f, bs, opt, ext) == Got(Str(TrimRightBlanks(DecodeBytes(ext, bs, enc)))))
      && (IsType(f.ftype, 'N') || IsType(f.ftype, 'F') ==> FieldValue(f, bs, opt, ext) == DecodeNumber(ext, bs, enc, f.name, IsStrict(opt)))
      && (IsType(f.ftype, 'D') ==> FieldValue(f, bs, opt, ext) == Got(DecodeDate(ext, bs, enc)))
  {
    assert FieldEncoding(opt.encoding, f.name) == opt.encoding.default;
  }

  /** An override reaches the character decoder: a text field whose override
      names character set `cs` (in any spelling) is decoded by `cs`, even when
      the table default names another set. */
  lemma OverrideSelectsCharset(opt: OpenOptions, ext: Externals, f: Field, bs: seq<byte>, cs: Charset)
    requires IsType(f.ftype, 'C')
    requires f.name in opt.encoding.perField && opt.encoding.perField[f.name] != ""
    requires ResolveCharset(opt.encoding.perField[f.name]) == cs
    ensures FieldValue(f, bs, opt, ext) == Got(Str(TrimRightBlanks(ext.decode(cs, bs))))
  {
    OverrideDecodesField(opt, ext, f, bs);
  }

  lemma StampValue(opt: OpenOptions, ext: Externals, f: Field, bs: seq<byte>, d: Date, h: int, mi: int, sec: int, jd: int, ms: int)
    requires IsType(f.ftype, 'T')
    requires ValidDate(d) && jd == JulianDay(d.year, d.month, d.day) && 0 <= jd < 0x8000_0000
    requires 0 <= h < 24 && 0 <= mi < 60 && 0 <= sec < 60 && ms == 1000 * (3600 * h + 60 * mi + sec)
    requires bs == PutUint32(jd) + PutUint32(ms)
    ensures FieldValue(f, bs, opt, ext) == Got(Timestamp(DateTime(d, Clock(h, mi, sec))))
  {
    StampDispatch(opt, ext, f, bs);
    WrittenDateTime(bs, d, h, mi, sec, jd, ms);
  }

  lemma WrittenDateTime(bs: seq<byte>, d: Date, h: int, mi: int, sec: int, jd: int, ms: int)
    requires ValidDate(d) && jd == JulianDay(d.year, d.month, d.day) && 0 <= jd < 0x8000_0000
    requires 0 <= h < 24 && 0 <= mi < 60 && 0 <= sec < 60 && ms == 1000 * (3600 * h + 60 * mi + sec)
    requires bs == PutUint32(jd) + PutUint32(ms)
    ensures DecodeDateTime(bs) == Timestamp(DateTime(d, Clock(h, mi, sec)))
  {
    assert ms == 1000 * (3600 * h + 60 * mi + sec) + 0;
    DateTimeRoundTrip(d, h, mi, sec, 0);
  }

  lemma StampDispatch(opt: OpenOptions, ext: Externals, f: Field, bs: seq<byte>)
    requires IsType(f.ftype, 'T')
    ensures FieldValue(f, bs, opt, ext) == Got(DecodeDateTime(bs))
  {
  }

  /** The binary types decode without options or transcoding. */
  lemma BinaryDispatch(opt: OpenOptions, ext: Externals, f: Field, bs: seq<byte>)
    ensures IsType(f.ftype, 'Y') ==> FieldValue(f, bs, opt, ext) == Got(DecodeCurrency(bs))
    ensures IsType(f.ftype, 'L') ==> FieldValue(f, bs, opt, ext) == Got(DecodeLogical(bs))
    ensures IsType(f.ftype, 'I') ==> FieldValue(f, bs, opt, ext) == Got(DecodeInt(bs))
    ensures IsType(f.ftype, 'B') ==> FieldValue(f, bs, opt, ext) == Got(DecodeDouble(bs))
  {
    var t := f.ftype;
    if IsType(t, 'Y') || IsType(t, 'L') || IsType(t, 'I') || IsType(t, 'B') {
      assert !IsType(t, 'C') && !IsType(t, 'N') && !IsType(t, 'F');
    }
  }

  /** The value of a field of a record written span by span, read outside
      strict mode, is the value of its span. */
  lemma WrittenRecordEntry(fields: seq<Field>, opt: OpenOptions, ext: Externals, marker: byte, chunks: seq<seq<byte>>, j: nat, v: Value)
    requires Spans(fields, chunks) && j < |fields| && LastWithName(fields, j) && !IsStrict(opt)
    requires marker != DeletedMarker || opt.includeDeleted
    requires FieldValue(fields[j], chunks[j], opt, ext) == Got(v)
    requires !(marker == DeletedMarker && fields[j].name == DeletedKey)
    ensures var r := ParseRecord(fields, opt, [marker] + Concat(chunks), ext);
      r.Decoded? && fields[j].name in r.rec && r.rec[fields[j].name] == v
  {
    LooseWrittenRecordDecodes(fields, opt, ext, marker, chunks);
    WrittenRecordValue(fields, opt, ext, marker, chunks, j);
  }
}
