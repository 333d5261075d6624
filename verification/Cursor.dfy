/** The read cursor (ReadRecords and Reset): fixed-size record buffers read
    in order from the end of the header, with a counter of buffers read. */
module Cursor {
  import opened Results
  import opened Bytes
  import opened Options
  import opened Encodings
  import opened Schema
  import opened Records
  import opened Tables

  function Min(a: int, b: int): int {
    if a <= b then a else b
  }

  /** The buffer of record `k`: `recordLen` bytes at headerLen + k·recordLen,
      or nothing when the file ends first. */
  function Buffer(t: Table, file: seq<byte>, k: nat): Option<seq<byte>> {
    ReadAt(file, t.headerLen + k * t.recordLen, t.recordLen)
  }

  /** A record parser: one record buffer to its outcome. The cursor is stated
      for any parser; the table's own is RecordParser. */
  type Parser = seq<byte> -> Parsed

  function RecordParser(t: Table, ext: Externals): Parser {
    buf => ParseRecord(t.fields, t.opt, buf, ext)
  }

  function Parse(t: Table, file: seq<byte>, parse: Parser, k: nat): Parsed
    requires Buffer(t, file, k).Some?
  {
    parse(Buffer(t, file, k).value)
  }

  /** Record `k` stops a strict read: it is read and rejected. */
  predicate FailsStrict(t: Table, file: seq<byte>, parse: Parser, k: nat) {
    IsStrict(t.opt) && Buffer(t, file, k).Some? && Parse(t, file, parse, k).Rejected?
  }

  /** Records lo..hi-1 were all read in full and none stopped a strict read. */
  predicate ReadThrough(t: Table, file: seq<byte>, parse: Parser, lo: nat, hi: nat)
    decreases hi
  {
    hi <= lo || (ReadThrough(t, file, parse, lo, hi - 1) && Buffer(t, file, hi - 1).Some? && !FailsStrict(t, file, parse, hi - 1))
  }

  lemma {:induction false} ReadThroughMeaning(t: Table, file: seq<byte>, parse: Parser, lo: nat, hi: nat)
    requires ReadThrough(t, file, parse, lo, hi)
    ensures forall k :: lo <= k < hi ==> Buffer(t, file, k).Some? && !FailsStrict(t, file, parse, k)
    decreases hi
  {
    if hi > lo {
      ReadThroughMeaning(t, file, parse, lo, hi - 1);
    }
  }

  /** What record `k` adds to a batch: its record when it decodes. */
  function KeptAt(t: Table, file: seq<byte>, parse: Parser, k: nat): seq<Record> {
    if Buffer(t, file, k).Some? && Parse(t, file, parse, k).Decoded? then [Parse(t, file, parse, k).rec] else []
  }

  /** The records a batch over records lo..hi-1 returns, in file order. */
  function Kept(t: Table, file: seq<byte>, parse: Parser, lo: nat, hi: nat): (rs: seq<Record>)
    ensures |rs| <= if hi <= lo then 0 else hi - lo
    decreases hi
  {
    if hi <= lo then [] else Kept(t, file, parse, lo, hi - 1) + KeptAt(t, file, parse, hi - 1)
  }

  /** The batch size: a non-positive request means every record not yet
      read, computed in 32-bit unsigned arithmetic as the source does. */
  function Effective(t: Table, maxCount: int): int {
    if maxCount <= 0 then (t.recordCount - t.recordsRead) % TWO_32 else maxCount
  }

  /** The outcome of ReadRecords(maxCount) on table `t`, as a relation
      between the table before, the table after and the result. Nothing but
      the cursor changes. An exhausted cursor or an empty request reads
      nothing. Otherwise the cursor ends at `e`, between where it started and
      the batch limit: every buffer before `e` was read in full, and only the
      last one read can have stopped a strict read. A successful batch ended
      at the limit or at a buffer the file cannot supply, and returns the
      decoded records of lo..e-1 in order; a failed one returns the error of
      the strict rejection at e-1. */
  predicate ReadOutcome(t: Table, file: seq<byte>, parse: Parser, maxCount: int, t': Table, r: Result<seq<Record>>) {
    var lo, n := t.recordsRead, t.recordCount;
    var eff := Effective(t, maxCount);
    && t' == t.(recordsRead := t'.recordsRead)
    && if lo >= n || eff == 0 then t'.recordsRead == lo && r == Ok([])
       else
         var e := t'.recordsRead;
         var limit := Min(lo + eff, n);
         && lo <= e <= limit
         && (forall k :: lo <= k < e ==> Buffer(t, file, k).Some?)
         && (forall k :: lo <= k < e - 1 ==> !FailsStrict(t, file, parse, k))
         && (r.Ok? ==> && (e == limit || Buffer(t, file, e).None?)
                       && (e > lo ==> !FailsStrict(t, file, parse, e - 1))
                       && r.value == Kept(t, file, parse, lo, e))
         && (r.Err? ==> e > lo && FailsStrict(t, file, parse, e - 1) && r.error == Parse(t, file, parse, e - 1).e)
  }

  /** ReadRecords: reads up to the batch size of record buffers from the
      cursor on, advancing the cursor once per buffer read; a buffer the file
      cannot supply ends the batch; in strict mode the first rejected record
      fails the batch, otherwise skipped and rejected records are dropped. */
  method ReadRecords(t: Table, file: seq<byte>, ext: Externals, maxCount: int) returns (t': Table, r: Result<seq<Record>>)
    ensures ReadOutcome(t, file, RecordParser(t, ext), maxCount, t', r)
    ensures !IsStrict(t.opt) ==> r.Ok?
    ensures t.recordsRead <= t.recordCount ==> t'.recordsRead <= t.recordCount
  {
    t', r := ReadBatch(t, file, RecordParser(t, ext), maxCount);
  }

  /** The loop of ReadRecords, for any record parser. */
  method ReadBatch(t: Table, file: seq<byte>, parse: Parser, maxCount: int) returns (t': Table, r: Result<seq<Record>>)
    ensures ReadOutcome(t, file, parse, maxCount, t', r)
    ensures !IsStrict(t.opt) ==> r.Ok?
    ensures t.recordsRead <= t.recordCount ==> t'.recordsRead <= t.recordCount
  {
    var lo := t.recordsRead;
    var eff := Effective(t, maxCount);
    if t.recordsRead >= t.recordCount || eff == 0 {
      return t, Ok([]);
    }
    var start: nat := t.headerLen + lo * t.recordLen;
    var read := lo;
    var out: seq<Record> := [];
    var i := 0;
    while i < eff && read < t.recordCount
      invariant lo <= read <= Min(lo + eff, t.recordCount)
      invariant i == read - lo
      invariant start == t.headerLen + read * t.recordLen
      invariant ReadThrough(t, file, parse, lo, read)
      invariant out == Kept(t, file, parse, lo, read)
      decreases t.recordCount - read
    {
      var buf := ReadAt(file, start, t.recordLen);
      if buf.None? {
        break;
      }
      assert buf == Buffer(t, file, read);
      var outcome := parse(buf.value);
      assert outcome == Parse(t, file, parse, read);
      NextStart(t.headerLen, read, t.recordLen);
      if outcome.Rejected? && IsStrict(t.opt) {
        ReadThroughMeaning(t, file, parse, lo, read);
        FailedBatch(t, file, parse, maxCount, read);
        return t.(recordsRead := read + 1), Err(outcome.e);
      }
      ReadStep(t, file, parse, lo, read, out);
      if outcome.Decoded? {
        out := out + [outcome.rec];
      }
      start := start + t.recordLen;
      read := read + 1;
      i := i + 1;
    }
    ReadThroughMeaning(t, file, parse, lo, read);
    FinishedBatch(t, file, parse, maxCount, read, out);
    return t.(recordsRead := read), Ok(out);
  }

  /** One record that is read and does not stop the batch extends the prefix
      read and the records kept. */
  lemma ReadStep(t: Table, file: seq<byte>, parse: Parser, lo: nat, k: nat, out: seq<Record>)
    requires lo <= k && ReadThrough(t, file, parse, lo, k) && out == Kept(t, file, parse, lo, k)
    requires Buffer(t, file, k).Some?
    requires !(Parse(t, file, parse, k).Rejected? && IsStrict(t.opt))
    ensures ReadThrough(t, file, parse, lo, k + 1)
    ensures Kept(t, file, parse, lo, k + 1)
         == out + (if Parse(t, file, parse, k).Decoded? then [Parse(t, file, parse, k).rec] else [])
  {
  }

  /** A batch that stops at a strict rejection of record `k` meets ReadOutcome. */
  lemma FailedBatch(t: Table, file: seq<byte>, parse: Parser, maxCount: int, k: nat)
    requires t.recordsRead < t.recordCount && Effective(t, maxCount) != 0
    requires t.recordsRead <= k < Min(t.recordsRead + Effective(t, maxCount), t.recordCount)
    requires forall j :: t.recordsRead <= j <= k ==> Buffer(t, file, j).Some?
    requires forall j :: t.recordsRead <= j < k ==> !FailsStrict(t, file, parse, j)
    requires FailsStrict(t, file, parse, k)
    ensures ReadOutcome(t, file, parse, maxCount, t.(recordsRead := k + 1), Err(Parse(t, file, parse, k).e))
  {
  }

  /** A batch that ends at the limit, or at a buffer the file cannot supply,
      with the records kept so far meets ReadOutcome. */
  lemma FinishedBatch(t: Table, file: seq<byte>, parse: Parser, maxCount: int, e: nat, out: seq<Record>)
    requires t.recordsRead < t.recordCount && Effective(t, maxCount) != 0
    requires t.recordsRead <= e <= Min(t.recordsRead + Effective(t, maxCount), t.recordCount)
    requires e == Min(t.recordsRead + Effective(t, maxCount), t.recordCount) || Buffer(t, file, e).None?
    requires forall j :: t.recordsRead <= j < e ==> Buffer(t, file, j).Some?
    requires forall j :: t.recordsRead <= j < e ==> !FailsStrict(t, file, parse, j)
    requires out == Kept(t, file, parse, t.recordsRead, e)
    ensures ReadOutcome(t, file, parse, maxCount, t.(recordsRead := e), Ok(out))
  {
  }

  lemma NextStart(base: nat, k: nat, len: nat)
    ensures base + (k + 1) * len == base + k * len + len
  {
  }

  /** Reset: the cursor goes back to the first record; nothing else changes. */
  function Reset(t: Table): (r: Table)
    ensures r.recordsRead == 0
    ensures r.(recordsRead := t.recordsRead) == t
  {
    t.(recordsRead := 0)
  }

  /** One outcome ends no later than another. */
  lemma OutcomeEndsNoLater(t: Table, file: seq<byte>, parse: Parser, maxCount: int,
                           t1: Table, r1: Result<seq<Record>>, t2: Table, r2: Result<seq<Record>>)
    requires ReadOutcome(t, file, parse, maxCount, t1, r1) && ReadOutcome(t, file, parse, maxCount, t2, r2)
    ensures t1.recordsRead <= t2.recordsRead
  {
    var lo, e1, e2 := t.recordsRead, t1.recordsRead, t2.recordsRead;
    if lo < t.recordCount && Effective(t, maxCount) != 0 && r2.Err? {
      assert FailsStrict(t, file, parse, e2 - 1);
    }
  }

  /** ReadRecords is determined by its inputs: two outcomes of the same call
      agree. */
  lemma ReadOutcomeUnique(t: Table, file: seq<byte>, parse: Parser, maxCount: int,
                          t1: Table, r1: Result<seq<Record>>, t2: Table, r2: Result<seq<Record>>)
    requires ReadOutcome(t, file, parse, maxCount, t1, r1) && ReadOutcome(t, file, parse, maxCount, t2, r2)
    ensures t1 == t2 && r1 == r2
  {
    OutcomeEndsNoLater(t, file, parse, maxCount, t1, r1, t2, r2);
    OutcomeEndsNoLater(t, file, parse, maxCount, t2, r2, t1, r1);
  }

  /** After Reset a table reads exactly what it read when freshly opened. */
  lemma RereadAfterReset(t: Table, cursor: nat, file: seq<byte>, parse: Parser, maxCount: int,
                         t1: Table, r1: Result<seq<Record>>, t2: Table, r2: Result<seq<Record>>)
    requires t.recordsRead == 0
    requires ReadOutcome(t, file, parse, maxCount, t1, r1)
    requires ReadOutcome(Reset(t.(recordsRead := cursor)), file, parse, maxCount, t2, r2)
    ensures t1 == t2 && r1 == r2
  {
    assert Reset(t.(recordsRead := cursor)) == t;
    ReadOutcomeUnique(t, file, parse, maxCount, t1, r1, t2, r2);
  }

  /** Reading an exhausted table returns an empty batch and moves nothing. */
  lemma ExhaustedReadsNothing(t: Table, file: seq<byte>, parse: Parser, maxCount: int, t': Table, r: Result<seq<Record>>)
    requires t.recordsRead >= t.recordCount
    requires ReadOutcome(t, file, parse, maxCount, t', r)
    ensures t' == t && r == Ok([])
  {
  }

  /** In a file written as a header, fixed-size record buffers and a tail,
      the cursor reads buffer `k` as exactly the k-th written buffer. */
  lemma LaidOutBuffer(t: Table, head: seq<byte>, buffers: seq<seq<byte>>, tail: seq<byte>, k: nat)
    requires |head| == t.headerLen && k < |buffers|
    requires forall j :: 0 <= j < |buffers| ==> |buffers[j]| == t.recordLen
    ensures Buffer(t, head + (Concat(buffers) + tail), k) == Some(buffers[k])
  {
    var file := head + (Concat(buffers) + tail);
    ConcatSlice(buffers, k);
    ConcatUniform(buffers[..k], t.recordLen);
    var s := |Concat(buffers[..k])|;
    assert s == k * t.recordLen;
    assert file[t.headerLen + s..t.headerLen + s + t.recordLen] == Concat(buffers)[s..s + t.recordLen];
  }

  /** A batch whose every buffer up to the limit is read in full, and none of
      them stops a strict read, runs to the limit and returns the decoded
      records in order. */
  lemma CompleteBatch(t: Table, file: seq<byte>, parse: Parser, maxCount: int, t': Table, r: Result<seq<Record>>)
    requires ReadOutcome(t, file, parse, maxCount, t', r)
    requires t.recordsRead < t.recordCount && Effective(t, maxCount) != 0
    requires var lo := t.recordsRead; var limit := Min(lo + Effective(t, maxCount), t.recordCount);
      forall k :: lo <= k < limit ==> Buffer(t, file, k).Some? && !FailsStrict(t, file, parse, k)
    ensures t' == t.(recordsRead := Min(t.recordsRead + Effective(t, maxCount), t.recordCount))
    ensures r == Ok(Kept(t, file, parse, t.recordsRead, t'.recordsRead))
  {
  }
}
