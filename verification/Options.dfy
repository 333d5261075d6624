/** Open-time configuration: read mode, text encodings and the deleted-record
    switch, and their normalisation (normOptions). */
module Options {

  /** The read mode. The source's ReadMode is a string that is only ever
      compared with "strict" and "loose"; every other value, including the
      empty zero value, falls in the third class. */
  datatype ReadMode = Strict | Loose | Unrecognised

  /** A table-wide default encoding name and per-field overrides. A nil Go map
      and an empty one behave the same for lookups, so both are `map[]`. */
  datatype EncodingConfig = EncodingConfig(default: string, perField: map<string, string>)

  datatype OpenOptions = OpenOptions(readMode: ReadMode, encoding: EncodingConfig, includeDeleted: bool)

  const DefaultEncodingName: string := "ISO-8859-1"

  /** The options a nil argument stands for: every field at its zero value. */
  const ZeroOptions: OpenOptions := OpenOptions(Unrecognised, EncodingConfig("", map[]), false)

  /** The only mode test the decoder performs. */
  predicate IsStrict(o: OpenOptions) {
    o.readMode == Strict
  }

  /** Options as Open keeps them: a recognised mode and a non-empty default. */
  predicate Normalised(o: OpenOptions) {
    o.readMode != Unrecognised && o.encoding.default != ""
  }

  /** normOptions: an unrecognised mode becomes strict and an empty default
      encoding becomes ISO-8859-1; the result is normalised, normalised options
      are left alone, and nothing else is touched. */
  function NormOptions(o: OpenOptions): (r: OpenOptions)
    ensures Normalised(r)
    ensures Normalised(o) ==> r == o
    ensures r.readMode == Loose <==> o.readMode == Loose
    ensures o.encoding.default != "" ==> r.encoding.default == o.encoding.default
    ensures o.encoding.default == "" ==> r.encoding.default == DefaultEncodingName
    ensures o.readMode == Unrecognised ==> r.readMode == Strict
    ensures r.encoding.perField == o.encoding.perField && r.includeDeleted == o.includeDeleted
  {
    var mode := if o.readMode != Strict && o.readMode != Loose then Strict else o.readMode;
    var default := if o.encoding.default == "" then DefaultEncodingName else o.encoding.default;
    o.(readMode := mode, encoding := o.encoding.(default := default))
  }

  /** Asking for loose mode before normalising is the same as switching the
      normalised options to loose mode. */
  lemma NormOptionsLoose(o: OpenOptions)
    ensures NormOptions(o.(readMode := Loose)) == NormOptions(o).(readMode := Loose)
  {
  }

  lemma NormOptionsIdempotent(o: OpenOptions)
    ensures NormOptions(NormOptions(o)) == NormOptions(o)
  {
  }

  /** fieldEncoding: the override for `field` when one is present and
      non-empty, otherwise the table default. */
  function FieldEncoding(enc: EncodingConfig, field: string): (name: string)
    ensures field in enc.perField && enc.perField[field] != "" ==> name == enc.perField[field]
    ensures !(field in enc.perField && enc.perField[field] != "") ==> name == enc.default
  {
    if field in enc.perField && enc.perField[field] != "" then enc.perField[field] else enc.default
  }
}
