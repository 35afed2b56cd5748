/** The length-prefixed cache record (`encode_record`, `decode_record` in src/disk_cache.rs). */
module RecordCodec {
  import opened Prelude

  newtype Byte = x: int | 0 <= x < 256

  /** What fits a `Vec<u8>` or `&[u8]`: at most `isize::MAX` bytes. */
  type Bytes = s: seq<Byte> | |s| <= 0x7FFF_FFFF_FFFF_FFFF

  /** "RPC1". */
  const MAGIC: seq<Byte> := [0x52, 0x50, 0x43, 0x31]

  datatype CacheRecord = CacheRecord(contentType: Option<Bytes>, body: Bytes)

  predicate IsContinuation(b: Byte) {
    0x80 <= b <= 0xBF
  }

  /** Well-formed UTF-8 byte sequences (section 4 of RFC 3629): `String::from_utf8` accepts these. */
  predicate ValidUtf8(s: seq<Byte>) {
    || s == []
    || (s[0] <= 0x7F && ValidUtf8(s[1..]))
    || (|s| >= 2 && 0xC2 <= s[0] <= 0xDF && IsContinuation(s[1]) && ValidUtf8(s[2..]))
    || (|s| >= 3 && IsContinuation(s[1]) && IsContinuation(s[2])
        && ((s[0] == 0xE0 && s[1] >= 0xA0) || 0xE1 <= s[0] <= 0xEC || (s[0] == 0xED && s[1] <= 0x9F) || 0xEE <= s[0] <= 0xEF)
        && ValidUtf8(s[3..]))
    || (|s| >= 4 && IsContinuation(s[1]) && IsContinuation(s[2]) && IsContinuation(s[3])
        && ((s[0] == 0xF0 && s[1] >= 0x90) || 0xF1 <= s[0] <= 0xF3 || (s[0] == 0xF4 && s[1] <= 0x8F))
        && ValidUtf8(s[4..]))
  }

  // ----- big-endian integers -----

  function Pow256(width: nat): (r: nat)
    ensures r > 0
  {
    if width == 0 then 1 else 256 * Pow256(width - 1)
  }

  function BigEndian(n: nat, width: nat): (r: seq<Byte>)
    ensures |r| == width
  {
    if width == 0 then [] else BigEndian(n / 256, width - 1) + [(n % 256) as Byte]
  }

  function FromBigEndian(b: seq<Byte>): nat {
    if b == [] then 0 else 256 * FromBigEndian(b[..|b| - 1]) + b[|b| - 1] as nat
  }

  lemma {:induction false} FromToBigEndian(n: nat, width: nat)
    requires n < Pow256(width)
    ensures FromBigEndian(BigEndian(n, width)) == n
  {
    if width > 0 {
      FromToBigEndian(n / 256, width - 1);
      assert BigEndian(n, width)[..width - 1] == BigEndian(n / 256, width - 1);
    }
  }

  lemma {:induction false} ToFromBigEndian(b: seq<Byte>)
    ensures BigEndian(FromBigEndian(b), |b|) == b
    ensures FromBigEndian(b) < Pow256(|b|)
  {
    if b != [] {
      ToFromBigEndian(b[..|b| - 1]);
      assert b == b[..|b| - 1] + [b[|b| - 1]];
    }
  }

  lemma Widths()
    ensures Pow256(2) == U16_MAX + 1
    ensures Pow256(8) == U64_MAX + 1
  {
    assert Pow256(4) == 0x1_0000_0000;
    assert Pow256(6) == 0x1_0000_0000_0000;
  }

  // ----- the record -----

  /** The bytes of a record; no content type is written as an empty one. */
  function Encoded(contentType: seq<Byte>, body: seq<Byte>): seq<Byte> {
    MAGIC + BigEndian(|contentType|, 2) + contentType + BigEndian(|body|, 8) + body
  }

  datatype EncodeError = ContentTypeTooLarge

  method EncodeRecord(contentType: Option<Bytes>, body: Bytes) returns (r: Result<seq<Byte>, EncodeError>)
    ensures r == if |contentType.GetOr([])| <= U16_MAX then Ok(Encoded(contentType.GetOr([]), body))
                 else Err(ContentTypeTooLarge)
  {
    var ct := contentType.GetOr([]);
    var out := MAGIC;
    if |ct| > U16_MAX {
      return Err(ContentTypeTooLarge);
    }
    out := out + BigEndian(|ct|, 2);
    out := out + ct;
    out := out + BigEndian(|body|, 8);
    out := out + body;
    r := Ok(out);
  }

  function DecodeRecord(data: Bytes): Option<CacheRecord> {
    if |data| < 4 || data[0..4] != MAGIC then Some(CacheRecord(None, data))
    else if |data| < 6 then None
    else
      var ctLen := FromBigEndian(data[4..6]);
      var bodyLenStart := 6 + ctLen;
      var bodyStart := bodyLenStart + 8;
      if bodyStart > |data| then None
      else
        var bodyLen := FromBigEndian(data[bodyLenStart..bodyStart]);
        var bodyEnd := bodyStart + bodyLen;
        if bodyEnd > U64_MAX || bodyEnd > |data| then None
        else if ctLen == 0 then Some(CacheRecord(None, data[bodyStart..bodyEnd]))
        else if !ValidUtf8(data[6..bodyLenStart]) then None
        else Some(CacheRecord(Some(data[6..bodyLenStart]), data[bodyStart..bodyEnd]))
  }

  /** The records that can be written. */
  predicate Encodable(r: CacheRecord) {
    r.contentType.Some? ==> 0 < |r.contentType.value| <= U16_MAX && ValidUtf8(r.contentType.value)
  }

  function EncodedRecord(r: CacheRecord): seq<Byte> {
    Encoded(r.contentType.GetOr([]), r.body)
  }

  lemma MiddleSlice(a: seq<Byte>, b: seq<Byte>, c: seq<Byte>)
    ensures (a + b + c)[|a|..|a| + |b|] == b
  {
  }

  /** The fields of a record lie where the decoder looks for them. */
  lemma Layout(contentType: seq<Byte>, body: seq<Byte>, tail: seq<Byte>)
    ensures var data := Encoded(contentType, body) + tail;
            var n := |contentType|;
            && |data| == 14 + n + |body| + |tail|
            && data[0..4] == MAGIC
            && data[4..6] == BigEndian(n, 2)
            && data[6..6 + n] == contentType
            && data[6 + n..14 + n] == BigEndian(|body|, 8)
            && data[14 + n..14 + n + |body|] == body
  {
    var a := MAGIC + BigEndian(|contentType|, 2);
    var b := BigEndian(|body|, 8);
    var data := Encoded(contentType, body) + tail;
    MiddleSlice(MAGIC, BigEndian(|contentType|, 2), contentType + b + body + tail);
    assert data == MAGIC + BigEndian(|contentType|, 2) + (contentType + b + body + tail);
    MiddleSlice(a, contentType, b + body + tail);
    assert data == a + contentType + (b + body + tail);
    MiddleSlice(a + contentType, b, body + tail);
    assert data == a + contentType + b + (body + tail);
    MiddleSlice(a + contentType + b, body, tail);
  }

  /** Decoding undoes encoding, whatever follows the record. */
  lemma DecodeEncoded(contentType: Bytes, body: Bytes, tail: seq<Byte>)
    requires |contentType| <= U16_MAX && ValidUtf8(contentType)
    requires |Encoded(contentType, body) + tail| <= 0x7FFF_FFFF_FFFF_FFFF
    ensures DecodeRecord(Encoded(contentType, body) + tail) ==
            Some(CacheRecord(if contentType == [] then None else Some(contentType), body))
  {
    Widths();
    FromToBigEndian(|contentType|, 2);
    FromToBigEndian(|body|, 8);
    Layout(contentType, body, tail);
  }

  /** What decodes from data with the magic is a writable record whose encoding the data starts with. */
  lemma DecodedIsCanonical(data: Bytes)
    requires MAGIC <= data && DecodeRecord(data).Some?
    ensures Encodable(DecodeRecord(data).value)
    ensures EncodedRecord(DecodeRecord(data).value) <= data
  {
    var ctLen := FromBigEndian(data[4..6]);
    var start := 14 + ctLen;
    var bodyLen := FromBigEndian(data[6 + ctLen..start]);
    Widths();
    ToFromBigEndian(data[4..6]);
    ToFromBigEndian(data[6 + ctLen..start]);
    assert data[..4] == MAGIC;
    Cut(data, 4, 6);
    Cut(data, 6, 6 + ctLen);
    Cut(data, 6 + ctLen, start);
    Cut(data, start, start + bodyLen);
    if ctLen == 0 {
      assert data[6..6] == [];
    }
  }

  lemma Cut(data: Bytes, i: nat, j: nat)
    requires i <= j <= |data|
    ensures data[..j] == data[..i] + data[i..j]
  {
  }

  /** With the magic present, the decoder accepts exactly the encodings, trailing bytes aside. */
  lemma DecodesExactlyEncodings(data: Bytes, r: CacheRecord)
    requires MAGIC <= data
    ensures DecodeRecord(data) == Some(r) <==> Encodable(r) && EncodedRecord(r) <= data
  {
    if DecodeRecord(data) == Some(r) {
      DecodedIsCanonical(data);
    }
    if Encodable(r) && EncodedRecord(r) <= data {
      var tail := data[|EncodedRecord(r)|..];
      assert data == EncodedRecord(r) + tail;
      DecodeEncoded(r.contentType.GetOr([]), r.body, tail);
    }
  }

  /** A record cut short anywhere after the magic is corrupt, never another record. */
  lemma TruncationIsRejected(r: CacheRecord, length: nat)
    requires Encodable(r) && |EncodedRecord(r)| <= 0x7FFF_FFFF_FFFF_FFFF
    requires 4 <= length < |EncodedRecord(r)|
    ensures DecodeRecord(EncodedRecord(r)[..length]) == None
  {
    var whole := EncodedRecord(r);
    var cut := whole[..length];
    assert MAGIC <= cut && MAGIC <= whole;
    if DecodeRecord(cut).Some? {
      var other := DecodeRecord(cut).value;
      DecodesExactlyEncodings(cut, other);
      DecodesExactlyEncodings(whole, other);
      DecodesExactlyEncodings(whole, r);
    }
  }

  /** Data without the magic is an old-format body. */
  lemma LegacyDecodesToItself(data: Bytes)
    requires !(MAGIC <= data)
    ensures DecodeRecord(data) == Some(CacheRecord(None, data))
  {
    if |data| >= 4 {
      assert data[0..4] == data[..4];
      assert data[..4] != MAGIC;
    }
  }
}
