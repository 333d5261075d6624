/** Opening a table (Open): the prologue, the strict version check, the memo
    sibling rule, the descriptor loop and the strict record-length check. */
module Tables {
  import opened Results
  import opened Bytes
  import opened Options
  import opened Encodings
  import opened Calendar
  import opened Schema

  /** Which memo sibling of the table file exists: ".dbt" or ".DBT", and
      ".fpt" or ".FPT". The file system lookup itself is not modelled. */
  datatype Siblings = Siblings(dbt: bool, fpt: bool)

  datatype MemoKind = NoMemo | DbtMemo | FptMemo

  /** An open table: the public header fields, the decoded fields, and the
      internal state, including the read cursor `recordsRead`. */
  datatype Table = Table(
    recordCount: nat,
    lastUpdate: Date,
    fields: seq<Field>,
    version: byte,
    headerLen: nat,
    recordLen: nat,
    memo: MemoKind,
    opt: OpenOptions,
    recordsRead: nat)

  /** The memo file the table would use: a .dbt sibling for dBase III/IV
      memo versions, an .fpt sibling for the FoxPro ones. */
  function MemoOf(version: byte, siblings: Siblings): (m: MemoKind)
    ensures m == DbtMemo <==> DbtVersion(version) && siblings.dbt
    ensures m == FptMemo <==> FptVersion(version) && siblings.fpt
  {
    if DbtVersion(version) && siblings.dbt then DbtMemo
    else if FptVersion(version) && siblings.fpt then FptMemo
    else NoMemo
  }

  predicate NameTaken(fields: seq<Field>, name: string) {
    exists i :: 0 <= i < |fields| && fields[i].name == name
  }

  predicate DistinctNames(fields: seq<Field>) {
    forall i, j :: 0 <= i < j < |fields| ==> fields[i].name != fields[j].name
  }

  // ---------------------------------------------------------------------------
  // The descriptor loop

  /** The errors strict validation of a single field can report. */
  predicate FieldRejection(e: Error) {
    e.InvalidFieldName? || e.InvalidFieldType? || e.InvalidFieldSize? || e.DuplicateFieldName?
  }

  /** The loop of Open over 32-byte descriptor slots, from `pos` on, with the
      fields read so far in `acc`. It stops at the header length or at a slot
      starting with the terminator; a slot that cannot be read in full is an
      error. In strict mode each field must pass validation and must not
      repeat an earlier name. */
  function ReadDescriptors(file: seq<byte>, headerLen: nat, pos: nat, opt: OpenOptions, version: byte,
                           decode: DescriptorBytes -> Field, acc: seq<Field>): (r: Result<seq<Field>>)
    ensures r.Ok? ==> |acc| <= |r.value| && r.value[..|acc|] == acc
    ensures r.Ok? && IsStrict(opt) ==> forall j :: |acc| <= j < |r.value| ==> Acceptable(r.value[j], version)
    ensures r.Ok? && IsStrict(opt) && DistinctNames(acc) ==> DistinctNames(r.value)
    ensures r.Err? ==> r.error.ShortDescriptor? || (IsStrict(opt) && FieldRejection(r.error))
    ensures r.Err? && r.error.ShortDescriptor? ==> pos <= r.error.pos < headerLen && |file| < r.error.pos + DescriptorSize
    decreases headerLen - pos
  {
    if pos >= headerLen then Ok(acc)
    else match ReadAt(file, pos, DescriptorSize)
      case None => Err(ShortDescriptor(pos))
      case Some(des) =>
        if des[0] == Terminator then Ok(acc)
        else
          var f := decode(des);
          var bad := if IsStrict(opt) then ValidateField(f, version) else None;
          if bad.Some? then Err(bad.value)
          else if IsStrict(opt) && NameTaken(acc, f.name) then Err(DuplicateFieldName(f.name))
          else ReadDescriptors(file, headerLen, pos + DescriptorSize, opt, version, decode, acc + [f])
  }

  /** `fields` are the descriptors stored from `pos` on: each one is read from
      its own full slot below the header length, none of those slots starts
      with the terminator, and the slot after them is past the header length
      or starts with the terminator. */
  predicate DescriptorArray(file: seq<byte>, headerLen: nat, pos: nat, fields: seq<Field>, decode: DescriptorBytes -> Field) {
    && (forall j :: 0 <= j < |fields| ==> SlotHolds(file, headerLen, pos + DescriptorSize * j, fields[j], decode))
    && var e := pos + DescriptorSize * |fields|;
       e >= headerLen || (e + DescriptorSize <= |file| && file[e] == Terminator)
  }

  /** The slot at `p` lies below the header length, can be read in full, does
      not start with the terminator and decodes to `f`. */
  predicate SlotHolds(file: seq<byte>, headerLen: nat, p: nat, f: Field, decode: DescriptorBytes -> Field) {
    p < headerLen && p + DescriptorSize <= |file| && file[p] != Terminator && f == decode(file[p..p + DescriptorSize])
  }

  lemma DescriptorArrayCons(file: seq<byte>, headerLen: nat, pos: nat, f: Field, rest: seq<Field>, decode: DescriptorBytes -> Field)
    requires pos < headerLen && pos + DescriptorSize <= |file| && file[pos] != Terminator
    requires f == decode(file[pos..pos + DescriptorSize])
    requires DescriptorArray(file, headerLen, pos + DescriptorSize, rest, decode)
    ensures DescriptorArray(file, headerLen, pos, [f] + rest, decode)
  {
    var fs := [f] + rest;
    forall j | 1 <= j < |fs|
      ensures SlotHolds(file, headerLen, pos + DescriptorSize * j, fs[j], decode)
    {
      assert fs[j] == rest[j - 1];
      assert pos + DescriptorSize * j == pos + DescriptorSize + DescriptorSize * (j - 1);
    }
    assert pos + DescriptorSize * |fs| == pos + DescriptorSize + DescriptorSize * |rest|;
  }

  /** What a successful loop returns: the fields read before, followed by
      exactly the descriptors stored from `pos` on. */
  lemma {:induction false} ReadDescriptorsMeaning(file: seq<byte>, headerLen: nat, pos: nat, opt: OpenOptions, version: byte,
                                                  decode: DescriptorBytes -> Field, acc: seq<Field>)
    requires ReadDescriptors(file, headerLen, pos, opt, version, decode, acc).Ok?
    ensures var fs := ReadDescriptors(file, headerLen, pos, opt, version, decode, acc).value;
      DescriptorArray(file, headerLen, pos, fs[|acc|..], decode)
    decreases headerLen - pos
  {
    var fs := ReadDescriptors(file, headerLen, pos, opt, version, decode, acc).value;
    if pos >= headerLen {
      assert fs[|acc|..] == [];
    } else {
      var des := file[pos..pos + DescriptorSize];
      assert ReadAt(file, pos, DescriptorSize) == Some(des);
      if des[0] == Terminator {
        assert fs[|acc|..] == [];
      } else {
        var f := decode(des);
        var next := pos + DescriptorSize;
        assert fs == ReadDescriptors(file, headerLen, next, opt, version, decode, acc + [f]).value;
        ReadDescriptorsMeaning(file, headerLen, next, opt, version, decode, acc + [f]);
        assert fs[|acc|..] == [f] + fs[|acc + [f]|..] by {
          assert fs[..|acc| + 1] == acc + [f];
        }
        DescriptorArrayCons(file, headerLen, pos, f, fs[|acc + [f]|..], decode);
      }
    }
  }

  /** The converse: descriptors stored from `pos` on are read back exactly,
      provided, in strict mode, that each one is acceptable and no name
      repeats. */
  lemma {:induction false} ReadDescriptorsComplete(file: seq<byte>, headerLen: nat, pos: nat, opt: OpenOptions, version: byte,
                                                   decode: DescriptorBytes -> Field, acc: seq<Field>, fields: seq<Field>)
    requires DescriptorArray(file, headerLen, pos, fields, decode)
    requires IsStrict(opt) ==> (forall j :: 0 <= j < |fields| ==> Acceptable(fields[j], version)) && DistinctNames(acc + fields)
    ensures ReadDescriptors(file, headerLen, pos, opt, version, decode, acc) == Ok(acc + fields)
    decreases |fields|
  {
    if fields == [] {
      assert acc + fields == acc;
      if pos < headerLen {
        assert ReadAt(file, pos, DescriptorSize) == Some(file[pos..pos + DescriptorSize]);
      }
    } else {
      var f, rest, next := fields[0], fields[1..], pos + DescriptorSize;
      var des := file[pos..pos + DescriptorSize];
      assert ReadAt(file, pos, DescriptorSize) == Some(des);
      assert f == decode(des);
      assert DescriptorArray(file, headerLen, next, rest, decode) by {
        forall j | 0 <= j < |rest|
          ensures SlotHolds(file, headerLen, next + DescriptorSize * j, rest[j], decode)
        {
          var p := pos + DescriptorSize * (j + 1);
          assert SlotHolds(file, headerLen, p, fields[j + 1], decode);
          assert rest[j] == fields[j + 1];
          assert next + DescriptorSize * j == p;
        }
        assert next + DescriptorSize * |rest| == pos + DescriptorSize * |fields|;
      }
      assert (acc + [f]) + rest == acc + fields;
      if IsStrict(opt) {
        assert Acceptable(f, version);
        assert !NameTaken(acc, f.name) by {
          forall i | 0 <= i < |acc| ensures acc[i].name != f.name {
            assert (acc + fields)[i] == acc[i] && (acc + fields)[|acc|] == f;
          }
        }
      }
      ReadDescriptorsComplete(file, headerLen, next, opt, version, decode, acc + [f], rest);
    }
  }

  /** The strict loop is the loose loop plus checks: it reads the same
      fields whenever it succeeds, and it succeeds whenever the loose loop
      does and every new field is acceptable with a name not used before. */
  lemma {:induction false} StrictDescriptorsAreLoose(file: seq<byte>, headerLen: nat, pos: nat, opt: OpenOptions, version: byte,
                                                     decode: DescriptorBytes -> Field, acc: seq<Field>)
    requires IsStrict(opt)
    ensures var strict := ReadDescriptors(file, headerLen, pos, opt, version, decode, acc);
      var loose := ReadDescriptors(file, headerLen, pos, opt.(readMode := Loose), version, decode, acc);
      && (strict.Ok? ==> loose == strict)
      && ((loose.Ok? && DistinctNames(loose.value)
           && (forall j :: |acc| <= j < |loose.value| ==> Acceptable(loose.value[j], version)))
          ==> strict == loose)
    decreases headerLen - pos
  {
    var lopt := opt.(readMode := Loose);
    if pos < headerLen && ReadAt(file, pos, DescriptorSize).Some? {
      var des := ReadAt(file, pos, DescriptorSize).value;
      if des[0] != Terminator {
        var f := decode(des);
        var next := pos + DescriptorSize;
        StrictDescriptorsAreLoose(file, headerLen, next, opt, version, decode, acc + [f]);
        var loose := ReadDescriptors(file, headerLen, pos, lopt, version, decode, acc);
        assert loose == ReadDescriptors(file, headerLen, next, lopt, version, decode, acc + [f]);
        if loose.Ok? {
          var fs := loose.value;
          assert fs[..|acc| + 1] == acc + [f];
          assert fs[|acc|] == f;
          if DistinctNames(fs) && (forall j :: |acc| <= j < |fs| ==> Acceptable(fs[j], version)) {
            assert Acceptable(f, version);
            assert !NameTaken(acc, f.name) by {
              forall i | 0 <= i < |acc| ensures acc[i].name != f.name {
                assert fs[i] == acc[i];
              }
            }
          }
        }
      }
    }
  }

  // ---------------------------------------------------------------------------
  // Open

  /** The header fields of an open table, as the prologue holds them. */
  function HeaderOf(t: Table): Header {
    Header(t.version, t.lastUpdate, t.recordCount, t.headerLen, t.recordLen)
  }

  /** What a strict open guarantees about the table it returns. */
  predicate StrictlyValid(t: Table, siblings: Siblings) {
    && ValidVersion(t.version)
    && (DbtVersion(t.version) ==> siblings.dbt)
    && (forall j :: 0 <= j < |t.fields| ==> Acceptable(t.fields[j], t.version))
    && DistinctNames(t.fields)
    && CalcRecordLen(t.fields) == t.recordLen
  }

  /** Open on an in-memory file: normalise the options, read the 32-byte
      prologue, check the version (strict), apply the memo rule (strict, .dbt
      only), read the descriptors and check the record length (strict). */
  function Open(file: seq<byte>, siblings: Siblings, opts: OpenOptions, ext: Externals): (r: Result<Table>)
    ensures r == Err(ShortHeader) <==> |file| < HeaderSize
    ensures r.Ok? ==> |file| >= HeaderSize && HeaderOf(r.value) == DecodeHeader(file[..HeaderSize])
    ensures r.Ok? ==> r.value.opt == NormOptions(opts) && r.value.recordsRead == 0
    ensures r.Ok? ==> r.value.memo == MemoOf(r.value.version, siblings)
    ensures r.Ok? && IsStrict(r.value.opt) ==> StrictlyValid(r.value, siblings)
    ensures |file| >= HeaderSize && IsStrict(NormOptions(opts)) && !ValidVersion(file[0]) ==> r == Err(UnsupportedVersion(file[0]))
    ensures r.Err? && !IsStrict(NormOptions(opts)) ==> r.error == ShortHeader || r.error.ShortDescriptor?
  {
    var opt := NormOptions(opts);
    match ReadAt(file, 0, HeaderSize)
    case None => Err(ShortHeader)
    case Some(hdr) =>
      assert hdr == file[..HeaderSize];
      var h := DecodeHeader(hdr);
      if IsStrict(opt) && !ValidVersion(h.version) then Err(UnsupportedVersion(h.version))
      else if DbtVersion(h.version) && !siblings.dbt && IsStrict(opt) then Err(MemoFileMissing)
      else
        var read := ReadDescriptors(file, h.headerLen, HeaderSize, opt, h.version, DescriptorDecoder(ext, opt.encoding), []);
        if read.Err? then Err(read.error)
        else
          var fields := read.value;
          var calculated := CalcRecordLen(fields);
          if IsStrict(opt) && calculated != h.recordLen then Err(RecordLengthMismatch(h.recordLen, calculated))
          else Ok(Table(h.recordCount, h.lastUpdate, fields, h.version, h.headerLen, h.recordLen,
                        MemoOf(h.version, siblings), opt, 0))
  }

  /** The fields of an open table are exactly the descriptors stored after
      the prologue. */
  lemma OpenReadsDescriptorArray(file: seq<byte>, siblings: Siblings, opts: OpenOptions, ext: Externals)
    requires Open(file, siblings, opts, ext).Ok?
    ensures var t := Open(file, siblings, opts, ext).value;
      DescriptorArray(file, t.headerLen, HeaderSize, t.fields, DescriptorDecoder(ext, t.opt.encoding))
  {
    var t := Open(file, siblings, opts, ext).value;
    var h := DecodeHeader(file[..HeaderSize]);
    assert ReadAt(file, 0, HeaderSize) == Some(file[..HeaderSize]);
    ReadDescriptorsMeaning(file, h.headerLen, HeaderSize, NormOptions(opts), h.version, DescriptorDecoder(ext, NormOptions(opts).encoding), []);
    assert t.fields[0..] == t.fields;
  }

  /** A strict open rejects the version byte exactly when it is not one of
      the known revisions; no later check reports a version error. */
  lemma StrictVersionGate(file: seq<byte>, siblings: Siblings, opts: OpenOptions, ext: Externals)
    requires |file| >= HeaderSize && IsStrict(NormOptions(opts))
    ensures var r := Open(file, siblings, opts, ext);
      r.Err? && r.error.UnsupportedVersion? <==> !ValidVersion(file[0])
  {
    assert ReadAt(file, 0, HeaderSize) == Some(file[..HeaderSize]);
  }

  /** A strict open needs a .dbt sibling for the dBase memo versions. */
  lemma MissingDbtFailsStrict(file: seq<byte>, fpt: bool, opts: OpenOptions, ext: Externals)
    requires |file| >= HeaderSize && IsStrict(NormOptions(opts)) && DbtVersion(file[0])
    ensures Open(file, Siblings(false, fpt), opts, ext) == Err(MemoFileMissing)
  {
    assert ReadAt(file, 0, HeaderSize) == Some(file[..HeaderSize]);
  }

  /** A missing .fpt sibling never matters: the outcome is the same except
      for the memo kind recorded. */
  lemma FptSiblingOptional(file: seq<byte>, dbt: bool, opts: OpenOptions, ext: Externals)
    ensures var without := Open(file, Siblings(dbt, false), opts, ext);
      var with := Open(file, Siblings(dbt, true), opts, ext);
      && (without.Ok? <==> with.Ok?)
      && (without.Err? ==> without == with)
      && (without.Ok? ==> without.value == with.value.(memo := without.value.memo))
  {
  }

  /** A strict open that succeeds describes the same table as a loose open,
      apart from the recorded mode. */
  lemma StrictOpenAgreesWithLoose(file: seq<byte>, siblings: Siblings, opts: OpenOptions, ext: Externals)
    requires IsStrict(NormOptions(opts)) && Open(file, siblings, opts, ext).Ok?
    ensures var t := Open(file, siblings, opts, ext).value;
      Open(file, siblings, opts.(readMode := Loose), ext) == Ok(t.(opt := t.opt.(readMode := Loose)))
  {
    var h := DecodeHeader(file[..HeaderSize]);
    assert ReadAt(file, 0, HeaderSize) == Some(file[..HeaderSize]);
    var opt := NormOptions(opts);
    NormOptionsLoose(opts);
    StrictDescriptorsAreLoose(file, h.headerLen, HeaderSize, opt, h.version, DescriptorDecoder(ext, opt.encoding), []);
  }

  /** Slots laid end to end after the prologue, followed by the terminator,
      form the descriptor array. */
  lemma LaidOutDescriptors(prologue: seq<byte>, slots: seq<seq<byte>>, rest: seq<byte>, fields: seq<Field>,
                           headerLen: nat, decode: DescriptorBytes -> Field)
    requires |prologue| == HeaderSize && |slots| == |fields| && |rest| >= DescriptorSize - 1
    requires forall j :: 0 <= j < |slots| ==>
      |slots[j]| == DescriptorSize && slots[j][0] != Terminator && decode(slots[j]) == fields[j]
    requires headerLen > HeaderSize + DescriptorSize * |slots|
    ensures DescriptorArray(prologue + Concat(slots) + [Terminator] + rest, headerLen, HeaderSize, fields, decode)
  {
    var file := prologue + Concat(slots) + [Terminator] + rest;
    ConcatUniform(slots, DescriptorSize);
    forall j | 0 <= j < |fields|
      ensures SlotHolds(file, headerLen, HeaderSize + DescriptorSize * j, fields[j], decode)
    {
      ConcatSlice(slots, j);
      ConcatUniform(slots[..j], DescriptorSize);
      var p := HeaderSize + DescriptorSize * j;
      assert file[p..p + DescriptorSize] == Concat(slots)[DescriptorSize * j..DescriptorSize * j + DescriptorSize];
      assert file[p] == slots[j][0];
    }
    assert file[HeaderSize + DescriptorSize * |fields|] == Terminator;
  }

  /** Completeness of Open: a file laid out as a prologue, descriptor slots
      that decode to `fields`, the terminator and anything after it opens to
      the prologue's header and exactly those fields, whenever the header
      length covers the slots and, in strict mode, the header and fields pass
      every check. */
  lemma OpenWellFormed(prologue: seq<byte>, slots: seq<seq<byte>>, rest: seq<byte>, fields: seq<Field>,
                       siblings: Siblings, opts: OpenOptions, ext: Externals)
    requires |prologue| == HeaderSize && |slots| == |fields| && |rest| >= DescriptorSize - 1
    requires forall j :: 0 <= j < |slots| ==>
      |slots[j]| == DescriptorSize && slots[j][0] != Terminator
      && DescriptorDecoder(ext, NormOptions(opts).encoding)(slots[j]) == fields[j]
    requires DecodeHeader(prologue).headerLen > HeaderSize + DescriptorSize * |slots|
    requires var h := DecodeHeader(prologue);
      IsStrict(NormOptions(opts)) ==>
        && ValidVersion(h.version) && (DbtVersion(h.version) ==> siblings.dbt)
        && (forall j :: 0 <= j < |fields| ==> Acceptable(fields[j], h.version))
        && DistinctNames(fields) && CalcRecordLen(fields) == h.recordLen
    ensures var h := DecodeHeader(prologue);
      Open(prologue + Concat(slots) + [Terminator] + rest, siblings, opts, ext)
        == Ok(Table(h.recordCount, h.lastUpdate, fields, h.version, h.headerLen, h.recordLen,
                    MemoOf(h.version, siblings), NormOptions(opts), 0))
  {
    var file := prologue + Concat(slots) + [Terminator] + rest;
    var opt := NormOptions(opts);
    var h := DecodeHeader(prologue);
    var decode := DescriptorDecoder(ext, opt.encoding);
    assert ReadAt(file, 0, HeaderSize) == Some(prologue) by {
      assert file[..HeaderSize] == prologue;
    }
    LaidOutDescriptors(prologue, slots, rest, fields, h.headerLen, decode);
    assert [] + fields == fields;
    ReadDescriptorsComplete(file, h.headerLen, HeaderSize, opt, h.version, decode, [], fields);
  }
}
