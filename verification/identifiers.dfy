/**
  The identifiers the application generates (lib/utils.ts): public tracking numbers of the
  form `RA-<year>-<serial>` and hex-encoded e-mail verification tokens. The random draws
  (`Math.random`, `crypto.randomBytes`) and the current year are parameters.
 */
module Identifiers {
  import opened Wrappers
  import opened Text

  const TrackingPrefix: string := "RA-"

  /**
    `generateComplaintNumber`: `draw` is `Math.floor(Math.random() * 9000)`, so the serial
    `1000 + draw` lies in [1000, 9999] and `padStart(4, "0")` never adds anything.
   */
  function ComplaintNumber(year: int, draw: nat): (r: string)
    requires draw < 9000
    ensures StartsWith(r, TrackingPrefix)
    ensures |r| == |IntString(year)| + 8
    ensures r[|r| - 5] == '-'
    ensures AllDigits(r[|r| - 4..]) && ParseDecimal(r[|r| - 4..]) == 1000 + draw
  {
    var serial := DecimalString(1000 + draw);
    FourDigitLength(1000 + draw);
    DecimalRoundTrip(1000 + draw);
    var r := TrackingPrefix + IntString(year) + "-" + PadStart(serial, 4, '0');
    assert r[|r| - 4..] == serial;
    r
  }

  /** The serial is always four digits, so left-padding to four characters is the identity. */
  lemma SerialNeverPadded(draw: nat)
    requires draw < 9000
    ensures PadStart(DecimalString(1000 + draw), 4, '0') == DecimalString(1000 + draw)
  {
    FourDigitLength(1000 + draw);
  }

  /** The shape `RA-\d{4}-\d{4}` of a tracking number with a four-digit year. */
  predicate IsTrackingNumber(s: string) {
    && |s| == 12
    && s[..3] == TrackingPrefix
    && AllDigits(s[3..7])
    && s[7] == '-'
    && AllDigits(s[8..])
  }

  datatype TrackingParts = TrackingParts(year: nat, serial: nat)

  /** Reads the year and serial back out of an `RA-\d{4}-\d{4}` tracking number. */
  function ParseTrackingNumber(s: string): (r: Option<TrackingParts>)
    ensures r.Some? <==> IsTrackingNumber(s)
  {
    if IsTrackingNumber(s) then Some(TrackingParts(ParseDecimal(s[3..7]), ParseDecimal(s[8..]))) else None
  }

  /** For a four-digit year the generated number has the promised shape and parses back. */
  lemma ComplaintNumberRoundTrip(year: int, draw: nat)
    requires 1000 <= year <= 9999 && draw < 9000
    ensures IsTrackingNumber(ComplaintNumber(year, draw))
    ensures ParseTrackingNumber(ComplaintNumber(year, draw)) == Some(TrackingParts(year, 1000 + draw))
  {
    var r := ComplaintNumber(year, draw);
    var y := DecimalString(year);
    var serial := DecimalString(1000 + draw);
    FourDigitLength(year);
    FourDigitLength(1000 + draw);
    DecimalRoundTrip(year);
    DecimalRoundTrip(1000 + draw);
    assert r == TrackingPrefix + y + "-" + serial;
    assert r[..3] == TrackingPrefix;
    assert r[3..7] == y;
    assert r[8..] == serial;
  }

  /** Within one year, different draws never give the same tracking number. */
  lemma ComplaintNumberInjective(year: int, d1: nat, d2: nat)
    requires d1 < 9000 && d2 < 9000
    requires ComplaintNumber(year, d1) == ComplaintNumber(year, d2)
    ensures d1 == d2
  {
  }

  /** One octet, as `crypto.randomBytes` yields it. */
  newtype byte = x: int | 0 <= x < 256

  const HexDigits: string := "0123456789abcdef"

  /** Two lower-case hex digits, high nibble first (`Buffer.toString("hex")`). */
  function HexByte(b: byte): (s: string)
    ensures |s| == 2 && s[0] in HexDigits && s[1] in HexDigits
  {
    [HexDigits[(b as int) / 16], HexDigits[(b as int) % 16]]
  }

  function HexEncode(bytes: seq<byte>): (s: string)
    ensures |s| == 2 * |bytes|
    ensures forall i :: 0 <= i < |s| ==> s[i] in HexDigits
  {
    if |bytes| == 0 then "" else HexByte(bytes[0]) + HexEncode(bytes[1..])
  }

  /** The value of one lower-case hex digit. */
  function HexValue(c: char): (v: Option<nat>)
    ensures v.Some? <==> c in HexDigits
    ensures v.Some? ==> v.value < 16 && HexDigits[v.value] == c
  {
    if '0' <= c <= '9' then Some((c as int) - 48)
    else if 'a' <= c <= 'f' then Some((c as int) - 87)
    else None
  }

  /** One byte from its two digits, high nibble first. */
  function HexPair(hi: char, lo: char): (r: Option<byte>)
    ensures r.Some? <==> hi in HexDigits && lo in HexDigits
  {
    var h := HexValue(hi);
    var l := HexValue(lo);
    if h.Some? && l.Some? then Some((h.value * 16 + l.value) as byte) else None
  }

  /** Decoding a lower-case hex string; `None` for odd length or a foreign character. */
  function HexDecode(s: string): Option<seq<byte>>
  {
    if |s| == 0 then Some([])
    else if |s| == 1 then None
    else
      var first := HexPair(s[0], s[1]);
      var rest := HexDecode(s[2..]);
      if first.Some? && rest.Some? then Some([first.value] + rest.value) else None
  }

  lemma HexValueOfDigit(k: nat)
    requires k < 16
    ensures HexValue(HexDigits[k]) == Some(k)
  {
  }

  /** The two digits of one byte read back as that byte. */
  lemma HexByteDecodes(b: byte)
    ensures HexPair(HexByte(b)[0], HexByte(b)[1]) == Some(b)
  {
    HexValueOfDigit((b as int) / 16);
    HexValueOfDigit((b as int) % 16);
  }

  /** Decoding a string that starts with the two digits of `b`. */
  lemma HexDecodeCons(pair: string, rest: string, b: byte, tail: seq<byte>)
    requires |pair| == 2 && HexPair(pair[0], pair[1]) == Some(b)
    requires HexDecode(rest) == Some(tail)
    ensures HexDecode(pair + rest) == Some([b] + tail)
  {
    var s := pair + rest;
    assert s[0] == pair[0] && s[1] == pair[1] && s[2..] == rest;
  }

  lemma {:induction false} HexRoundTrip(bytes: seq<byte>)
    ensures HexDecode(HexEncode(bytes)) == Some(bytes)
  {
    if |bytes| > 0 {
      HexByteDecodes(bytes[0]);
      HexRoundTrip(bytes[1..]);
      HexDecodeCons(HexByte(bytes[0]), HexEncode(bytes[1..]), bytes[0], bytes[1..]);
      assert [bytes[0]] + bytes[1..] == bytes;
    }
  }

  /** Distinct byte strings give distinct tokens. */
  lemma HexInjective(a: seq<byte>, b: seq<byte>)
    requires HexEncode(a) == HexEncode(b)
    ensures a == b
  {
    HexRoundTrip(a);
    HexRoundTrip(b);
  }

  /** `generateVerificationToken`: the hex encoding of 32 random bytes. */
  function VerificationToken(bytes: seq<byte>): (t: string)
    requires |bytes| == 32
    ensures |t| == 64
    ensures forall i :: 0 <= i < |t| ==> t[i] in HexDigits
    ensures HexDecode(t) == Some(bytes)
  {
    HexRoundTrip(bytes);
    HexEncode(bytes)
  }
}
