/** The opaque pull cursor (backend/internal/sync/cursor.go): an 8-byte big-endian
    number in the URL-safe alphabet of section 5 of RFC 4648. */
module Cursor {
  import opened Wrappers
  import opened BigEndian

  type sextet = n: int | 0 <= n < 64

  const TWO_TO_THE_63: int := 0x8000_0000_0000_0000

  datatype CursorError = InvalidEncoding | UnexpectedLength | NegativeCursor

  // ---- base64url ----

  function EncodeSextet(n: sextet): (c: char)
    ensures c != '=' && c != '\n' && c != '\r'
  {
    if n < 26 then 'A' + n as char
    else if n < 52 then 'a' + (n - 26) as char
    else if n < 62 then '0' + (n - 52) as char
    else if n == 62 then '-'
    else '_'
  }

  function DecodeSextet(c: char): Option<sextet> {
    if 'A' <= c <= 'Z' then Some((c - 'A') as int)
    else if 'a' <= c <= 'z' then Some((c - 'a') as int + 26)
    else if '0' <= c <= '9' then Some((c - '0') as int + 52)
    else if c == '-' then Some(62)
    else if c == '_' then Some(63)
    else None
  }

  lemma SextetRoundTrip(n: sextet)
    ensures DecodeSextet(EncodeSextet(n)) == Some(n)
  {
  }

  /** One to three bytes become two to four characters. */
  function EncodeQuantum(b: bytes): (s: string)
    requires 1 <= |b| <= 3
    ensures |s| == |b| + 1
  {
    var first := EncodeSextet(b[0] / 4);
    if |b| == 1 then [first, EncodeSextet(b[0] % 4 * 16)]
    else
      var second := EncodeSextet(b[0] % 4 * 16 + b[1] / 16);
      if |b| == 2 then [first, second, EncodeSextet(b[1] % 16 * 4)]
      else [first, second, EncodeSextet(b[1] % 16 * 4 + b[2] / 64), EncodeSextet(b[2] % 64)]
  }

  /** `base64.RawURLEncoding`: unpadded, three bytes at a time. */
  function EncodeRaw(b: bytes): string {
    if b == [] then ""
    else if |b| <= 3 then EncodeQuantum(b)
    else EncodeQuantum(b[..3]) + EncodeRaw(b[3..])
  }

  /** One quantum of two to four characters; unused low bits are not inspected. */
  function DecodeQuantum(s: string): Option<bytes>
    requires 2 <= |s| <= 4
  {
    var d0, d1 := DecodeSextet(s[0]), DecodeSextet(s[1]);
    if d0.None? || d1.None? then None
    else
      var b0 := d0.value * 4 + d1.value / 16;
      if |s| == 2 then Some([b0])
      else
        var d2 := DecodeSextet(s[2]);
        if d2.None? then None
        else
          var b1 := d1.value % 16 * 16 + d2.value / 4;
          if |s| == 3 then Some([b0, b1])
          else
            var d3 := DecodeSextet(s[3]);
            if d3.None? then None else Some([b0, b1, d2.value % 4 * 64 + d3.value])
  }

  function Concat(a: Option<bytes>, b: Option<bytes>): Option<bytes> {
    if a.None? || b.None? then None else Some(a.value + b.value)
  }

  /** `base64.RawURLEncoding`, on text without line breaks. */
  function DecodeRaw(s: string): Option<bytes> {
    if |s| == 0 then Some([])
    else if |s| == 1 then None
    else if |s| <= 4 then DecodeQuantum(s)
    else Concat(DecodeQuantum(s[..4]), DecodeRaw(s[4..]))
  }

  /** `base64.URLEncoding`: whole quanta, the last one padded with '='. */
  function DecodePadded(s: string): Option<bytes> {
    if |s| == 0 then Some([])
    else if |s| < 4 then None
    else if |s| == 4 && s[2..] == "==" then DecodeQuantum(s[..2])
    else if |s| == 4 && s[3] == '=' then DecodeQuantum(s[..3])
    else Concat(DecodeQuantum(s[..4]), DecodePadded(s[4..]))
  }

  /** Go's decoder skips line breaks wherever they stand. */
  function WithoutBreaks(s: string): string {
    if s == "" then ""
    else if s[0] == '\n' || s[0] == '\r' then WithoutBreaks(s[1..])
    else [s[0]] + WithoutBreaks(s[1..])
  }

  // ---- cursors ----

  /** The conversion of the 64-bit number to an unsigned one wraps negative values around. */
  function EncodeCursor(seqNo: int): string {
    EncodeRaw(Be64(seqNo % 0x1_0000_0000_0000_0000))
  }

  function DecodeCursor(s: string): (r: Result<int, CursorError>)
    ensures r.Success? ==> 0 <= r.value < TWO_TO_THE_63
  {
    if s == "" then Success(0)
    else
      var t := WithoutBreaks(s);
      var raw := DecodeRaw(t);
      var b := if raw.Some? then raw else DecodePadded(t);
      if b.None? then Failure(InvalidEncoding)
      else if |b.value| != 8 then Failure(UnexpectedLength)
      else
        var v := ReadBe64(b.value);
        if v >= TWO_TO_THE_63 then Failure(NegativeCursor) else Success(v)
  }

  /** Two sextets share each byte boundary. */
  lemma SharedBits(x: byte, y: byte)
    ensures x / 4 * 4 + (x % 4 * 16) / 16 == x
    ensures x / 4 * 4 + (x % 4 * 16 + y / 16) / 16 == x
    ensures (x % 4 * 16 + y / 16) % 16 == y / 16
    ensures (x % 16 * 4 + y / 64) / 4 == x % 16 && (x % 16 * 4 + y / 64) % 4 == y / 64
    ensures y / 16 * 16 + y % 16 == y && y / 64 * 64 + y % 64 == y
  {
  }

  lemma OneByteRoundTrip(x: byte)
    ensures DecodeQuantum(EncodeQuantum([x])) == Some([x])
  {
  }

  lemma TwoBytesRoundTrip(x: byte, y: byte)
    ensures DecodeQuantum(EncodeQuantum([x, y])) == Some([x, y])
  {
    hide EncodeSextet, DecodeSextet;
    SextetRoundTrip(x / 4);
    SextetRoundTrip(x % 4 * 16 + y / 16);
    SextetRoundTrip(y % 16 * 4);
    SharedBits(x, y);
    SharedBits(y, 0);
  }

  lemma ThreeBytesRoundTrip(x: byte, y: byte, z: byte)
    ensures DecodeQuantum(EncodeQuantum([x, y, z])) == Some([x, y, z])
  {
    hide EncodeSextet, DecodeSextet;
    SextetRoundTrip(x / 4);
    SextetRoundTrip(x % 4 * 16 + y / 16);
    SextetRoundTrip(y % 16 * 4 + z / 64);
    SextetRoundTrip(z % 64);
    SharedBits(x, y);
    SharedBits(y, z);
  }

  /** Every quantum is read back. */
  lemma QuantumRoundTrip(b: bytes)
    requires 1 <= |b| <= 3
    ensures DecodeQuantum(EncodeQuantum(b)) == Some(b)
  {
    hide EncodeQuantum, DecodeQuantum;
    if |b| == 1 {
      OneByteRoundTrip(b[0]);
      assert b == [b[0]];
    } else if |b| == 2 {
      TwoBytesRoundTrip(b[0], b[1]);
      assert b == [b[0], b[1]];
    } else {
      ThreeBytesRoundTrip(b[0], b[1], b[2]);
      assert b == [b[0], b[1], b[2]];
    }
  }

  lemma {:induction false} RawRoundTrip(b: bytes)
    ensures DecodeRaw(EncodeRaw(b)) == Some(b)
    ensures b != [] ==> |EncodeRaw(b)| >= 2
  {
    hide EncodeQuantum, DecodeQuantum;
    if 1 <= |b| <= 3 {
      QuantumRoundTrip(b);
    } else if |b| > 3 {
      var s, head := EncodeRaw(b), EncodeQuantum(b[..3]);
      QuantumRoundTrip(b[..3]);
      RawRoundTrip(b[3..]);
      assert s[..4] == head && s[4..] == EncodeRaw(b[3..]);
      assert b == b[..3] + b[3..];
    }
  }

  /** With two bytes in the last quantum, one '=' completes the padded spelling,
      and the unpadded decoder turns it down. */
  lemma {:induction false} PaddedRoundTrip(b: bytes)
    requires |b| % 3 == 2
    ensures var s := EncodeRaw(b) + "=";
            DecodePadded(s) == Some(b) && DecodeRaw(s) == None && |s| >= 4
  {
    var s := EncodeRaw(b) + "=";
    if |b| == 2 {
      QuantumRoundTrip(b);
      assert s[..3] == EncodeQuantum(b) && DecodeSextet('=') == None;
      assert s[2] == EncodeQuantum(b)[2] != '=';
    } else {
      hide EncodeQuantum, DecodeQuantum;
      QuantumRoundTrip(b[..3]);
      PaddedRoundTrip(b[3..]);
      assert s[..4] == EncodeQuantum(b[..3]) && s[4..] == EncodeRaw(b[3..]) + "=";
      assert b == b[..3] + b[3..];
    }
  }

  predicate HasNoBreaks(s: string) {
    forall i :: 0 <= i < |s| ==> s[i] != '\n' && s[i] != '\r'
  }

  lemma {:induction false} EncodedHasNoBreaks(b: bytes)
    ensures HasNoBreaks(EncodeRaw(b))
  {
    if |b| > 3 {
      assert HasNoBreaks(EncodeQuantum(b[..3]));
      EncodedHasNoBreaks(b[3..]);
    }
  }

  lemma {:induction false} NothingToSkip(s: string)
    requires HasNoBreaks(s)
    ensures WithoutBreaks(s) == s
  {
    if s != "" { NothingToSkip(s[1..]); }
  }

  /** Decoding undoes encoding on every sequence number the server can hand out,
      and what a negative number would encode to is rejected. */
  lemma CursorRoundTrip(seqNo: int)
    requires -TWO_TO_THE_63 <= seqNo < TWO_TO_THE_63
    ensures EncodeCursor(seqNo) != ""
    ensures DecodeCursor(EncodeCursor(seqNo)) == if seqNo >= 0 then Success(seqNo) else Failure(NegativeCursor)
  {
    hide Be64, ReadBe64, EncodeRaw, DecodeRaw, DecodePadded;
    var v: uint64 := seqNo % 0x1_0000_0000_0000_0000;
    RawRoundTrip(Be64(v));
    EncodedHasNoBreaks(Be64(v));
    NothingToSkip(EncodeCursor(seqNo));
    Be64RoundTrip(v);
  }

  /** The padded spelling of a cursor is accepted too, and means the same. */
  lemma PaddedCursorRoundTrip(seqNo: int)
    requires 0 <= seqNo < TWO_TO_THE_63
    ensures DecodeCursor(EncodeCursor(seqNo) + "=") == Success(seqNo)
  {
    hide Be64, ReadBe64, EncodeRaw, DecodeRaw, DecodePadded;
    PaddedRoundTrip(Be64(seqNo));
    EncodedHasNoBreaks(Be64(seqNo));
    NothingToSkip(EncodeCursor(seqNo) + "=");
    Be64RoundTrip(seqNo);
  }
}
