/** Which character set decodes a byte string, and the decoders themselves.
    Transcoding from the legacy code pages is foreign code; the model takes it
    as a parameter and defines only ISO-8859-1 concretely. */
module Encodings {
  import opened Bytes
  import opened Text

  datatype Charset = CP850 | CP437 | CP1252 | Latin1 | Utf8

  /** The foreign routines the decoder calls: byte-to-text transcoding for a
      character set (golang.org/x/text, or Go's string conversion for UTF-8)
      and whether strconv.ParseFloat accepts a text. */
  datatype Externals = Externals(decode: (Charset, seq<byte>) -> string, parsesFloat: string -> bool)

  /** ISO-8859-1: every byte is the code point of the same number. */
  function Latin1Decode(bs: seq<byte>): (s: string)
    ensures |s| == |bs|
    ensures forall i :: 0 <= i < |bs| ==> s[i] as int == bs[i]
  {
    seq(|bs|, i requires 0 <= i < |bs| => bs[i] as char)
  }

  /** The ISO-8859-1 encoding of a text made of code points below 256. */
  function Latin1Encode(s: string): (bs: seq<byte>)
    requires forall i :: 0 <= i < |s| ==> s[i] as int < 0x100
    ensures |bs| == |s|
    ensures forall i :: 0 <= i < |s| ==> bs[i] == s[i] as int
  {
    seq(|s|, i requires 0 <= i < |s| => s[i] as int)
  }

  /** Decoding undoes encoding. */
  lemma Latin1RoundTrip(s: string)
    requires forall i :: 0 <= i < |s| ==> s[i] as int < 0x100
    ensures Latin1Decode(Latin1Encode(s)) == s
  {
  }

  /** The transcoder agrees with the ISO-8859-1 definition. */
  ghost predicate DecodesLatin1(ext: Externals) {
    forall bs: seq<byte> :: ext.decode(Latin1, bs) == Latin1Decode(bs)
  }

  /** Go's unicode.ToUpper restricted to what can matter when the result is
      compared with ASCII names: the ASCII letters, and the two non-ASCII
      letters whose upper case is ASCII (dotless i and long s). Every other
      character keeps a non-ASCII image under ToUpper, so keeping it unchanged
      decides every comparison with an ASCII name the same way. */
  function UpperChar(c: char): (u: char)
    ensures 'a' <= c <= 'z' ==> u as int == c as int - 32
    ensures u as int < 0x80 ==> c as int < 0x80 || c == '\U{0131}' || c == '\U{017F}'
  {
    if 'a' <= c <= 'z' then (c as int - 32) as char
    else if c == '\U{0131}' then 'I'
    else if c == '\U{017F}' then 'S'
    else c
  }

  function ToUpper(s: string): (r: string)
    ensures |r| == |s|
    ensures forall i :: 0 <= i < |s| ==> r[i] == UpperChar(s[i])
  {
    seq(|s|, i requires 0 <= i < |s| => UpperChar(s[i]))
  }

  /** The encoding names decodeBytes recognises for each character set,
      after trimming and upper-casing. */
  predicate IsAlias(key: string, cs: Charset) {
    match cs
    case CP850 => key == "CP850"
    case CP437 => key == "CP437"
    case CP1252 => key == "CP1252" || key == "WINDOWS-1252"
    case Latin1 => key == "ISO-8859-1" || key == "ISO8859-1" || key == "LATIN1"
    case Utf8 => key == "UTF-8" || key == "UTF8"
  }

  /** The name of each character set as written in options. */
  function CanonicalName(cs: Charset): string {
    match cs
    case CP850 => "CP850"
    case CP437 => "CP437"
    case CP1252 => "CP1252"
    case Latin1 => "ISO-8859-1"
    case Utf8 => "UTF-8"
  }

  /** The switch of decodeBytes: the name is trimmed and upper-cased, then
      matched; anything unrecognised falls back to ISO-8859-1. */
  function ResolveCharset(name: string): Charset {
    CharsetOfKey(ToUpper(TrimSpace(name)))
  }

  function CharsetOfKey(key: string): Charset {
    if key == "CP850" then CP850
    else if key == "CP437" then CP437
    else if key == "CP1252" || key == "WINDOWS-1252" then CP1252
    else if key == "ISO-8859-1" || key == "ISO8859-1" || key == "LATIN1" then Latin1
    else if key == "UTF-8" || key == "UTF8" then Utf8
    else Latin1
  }

  /** decodeBytes: resolve the name, then transcode. */
  function DecodeBytes(ext: Externals, bs: seq<byte>, encName: string): string {
    ext.decode(ResolveCharset(encName), bs)
  }

  /** Every alias selects its own character set. */
  lemma AliasSelectsCharset(key: string, cs: Charset)
    requires IsAlias(key, cs)
    ensures CharsetOfKey(key) == cs
  {
  }

  /** A name that is no alias falls back to ISO-8859-1. */
  lemma UnknownNameFallsBack(key: string)
    requires forall cs :: !IsAlias(key, cs)
    ensures CharsetOfKey(key) == Latin1
  {
    assert !IsAlias(key, CP850) && !IsAlias(key, CP437) && !IsAlias(key, CP1252);
    assert !IsAlias(key, Utf8);
  }

  /** Each character set's own name selects it. */
  lemma CanonicalNameResolves(cs: Charset)
    ensures ResolveCharset(CanonicalName(cs)) == cs
  {
    var n := CanonicalName(cs);
    match cs {
      case CP850 => assert ToUpper("CP850") == "CP850";
      case CP437 => assert ToUpper("CP437") == "CP437";
      case CP1252 => assert ToUpper("CP1252") == "CP1252";
      case Latin1 => assert ToUpper("ISO-8859-1") == "ISO-8859-1";
      case Utf8 => assert ToUpper("UTF-8") == "UTF-8";
    }
    assert [] + n + [] == n;
    ResolveIgnoresCaseAndSpace([], n, [], cs);
  }

  /** Names are matched without regard to surrounding white space or to the
      case of their letters: any spelling whose upper case is a table entry,
      padded with white space, selects that entry's character set. */
  lemma ResolveIgnoresCaseAndSpace(left: string, spelling: string, right: string, cs: Charset)
    requires forall i :: 0 <= i < |left| ==> IsSpace(left[i])
    requires forall i :: 0 <= i < |right| ==> IsSpace(right[i])
    requires IsAlias(ToUpper(spelling), cs)
    ensures ResolveCharset(left + spelling + right) == cs
  {
    var key := ToUpper(spelling);
    assert |key| > 0 && !IsSpace(key[0]) && !IsSpace(key[|key| - 1]);
    assert UpperChar(spelling[0]) == key[0];
    assert UpperChar(spelling[|spelling| - 1]) == key[|key| - 1];
    TrimSpaceInvertsPadding(left, spelling, right);
    AliasSelectsCharset(key, cs);
  }

  /** decodeBytes transcodes with the character set whose spelling the
      trimmed, upper-cased name is; a name that is no spelling transcodes as
      ISO-8859-1. */
  lemma DecodeBytesByName(ext: Externals, bs: seq<byte>, name: string)
    ensures var key := ToUpper(TrimSpace(name));
      && (forall cs :: IsAlias(key, cs) ==> DecodeBytes(ext, bs, name) == ext.decode(cs, bs))
      && ((forall cs :: !IsAlias(key, cs)) ==> DecodeBytes(ext, bs, name) == ext.decode(Latin1, bs))
      && ((forall cs :: !IsAlias(key, cs)) && DecodesLatin1(ext) ==> DecodeBytes(ext, bs, name) == Latin1Decode(bs))
  {
    var key := ToUpper(TrimSpace(name));
    forall cs | IsAlias(key, cs)
      ensures DecodeBytes(ext, bs, name) == ext.decode(cs, bs)
    {
      AliasSelectsCharset(key, cs);
    }
    if forall cs :: !IsAlias(key, cs) {
      UnknownNameFallsBack(key);
    }
  }
}
