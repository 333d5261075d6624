/** Outcome types shared by the whole model: an optional value, the errors the
    table reader reports, and a result that carries either a value or one error. */
module Results {

  datatype Option<+T> = None | Some(value: T)

  /** Every error the reader can return. Error message texts are not modelled;
      the constructor and its arguments identify the failure. */
  datatype Error =
    // Open: the fixed 32-byte header could not be read in full.
    | ShortHeader
    // Open (strict): the version byte is not one of the known revisions.
    | UnsupportedVersion(version: int)
    // Open (strict): a dBase III/IV memo table has no .dbt/.DBT sibling.
    | MemoFileMissing
    // Open: a 32-byte field descriptor at this offset could not be read in full.
    | ShortDescriptor(pos: int)
    // Open (strict) field validation.
    | InvalidFieldName(name: string)
    | InvalidFieldType(name: string, ftype: int)
    | InvalidFieldSize(name: string, ftype: int, size: int)
    | DuplicateFieldName(name: string)
    // Open (strict): the header's record length differs from 1 + the field sizes.
    | RecordLengthMismatch(header: int, calculated: int)
    // Record decoding.
    | TruncatedRecord
    | InvalidNumber(name: string, text: string)
    | MemoUnsupported
    | UnsupportedFieldType(ftype: int)

  datatype Result<+T> = Ok(value: T) | Err(error: Error)
}
