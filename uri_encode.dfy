/**
 * `encodeURIComponent` (section 19.2.6.5 of ECMAScript): every character
 * outside `A-Z a-z 0-9 - _ . ! ~ * ' ( )` is written as the UTF-8 bytes of
 * its code point, each as `%` and two upper-case hexadecimal digits. The
 * matching decoder is the reference the encoder is checked against.
 */
module UriEncode {
  import opened Wrappers
  import opened Text

  /** The characters `encodeURIComponent` leaves as they are. */
  predicate Unreserved(c: char) {
    ('A' <= c <= 'Z') || ('a' <= c <= 'z') || ('0' <= c <= '9')
    || c == '-' || c == '_' || c == '.' || c == '!' || c == '~' || c == '*' || c == '\'' || c == '(' || c == ')'
  }

  /** An upper-case hexadecimal digit. */
  function HexChar(d: nat): (c: char)
    requires d < 16
    ensures IsHexDigit(c) && HexDigitValue(c) == d && !('a' <= c <= 'f')
  {
    if d < 10 then ('0' as int + d) as char else ('A' as int + d - 10) as char
  }

  /** The UTF-8 encoding of a code point (section 3 of RFC 3629). */
  function Utf8(cp: nat): (bs: seq<nat>)
    requires cp < 0x11_0000
    ensures 1 <= |bs| <= 4 && forall i :: 0 <= i < |bs| ==> bs[i] < 256
  {
    if cp < 0x80 then [cp]
    else if cp < 0x800 then [0xC0 + cp / 64, 0x80 + cp % 64]
    else if cp < 0x1_0000 then [0xE0 + cp / 4096, 0x80 + (cp / 64) % 64, 0x80 + cp % 64]
    else [0xF0 + cp / 262144, 0x80 + (cp / 4096) % 64, 0x80 + (cp / 64) % 64, 0x80 + cp % 64]
  }

  /** `%XY` for each byte. */
  function PercentBytes(bs: seq<nat>): (s: string)
    requires forall i :: 0 <= i < |bs| ==> bs[i] < 256
    ensures |s| == 3 * |bs|
  {
    if bs == [] then "" else ['%', HexChar(bs[0] / 16), HexChar(bs[0] % 16)] + PercentBytes(bs[1..])
  }

  function EncodeChar(c: char): string {
    if Unreserved(c) then [c] else PercentBytes(Utf8(c as int))
  }

  /** `encodeURIComponent(s)`. */
  function Encode(s: string): string {
    if s == [] then "" else EncodeChar(s[0]) + Encode(s[1..])
  }

  // ---------------------------------------------------------------------------
  // The reference decoder

  /** The byte `%XY` at position `i`, if there is one. */
  function ReadByte(s: string, i: nat): Option<nat> {
    if i + 3 <= |s| && s[i] == '%' && IsHexDigit(s[i + 1]) && IsHexDigit(s[i + 2])
    then Some(16 * HexDigitValue(s[i + 1]) + HexDigitValue(s[i + 2]))
    else None
  }

  /** How many bytes a UTF-8 sequence with this lead byte has; 0 for a byte that cannot lead. */
  function LeadLength(b: nat): nat {
    if b < 0x80 then 1
    else if 0xC0 <= b < 0xE0 then 2
    else if 0xE0 <= b < 0xF0 then 3
    else if 0xF0 <= b < 0xF8 then 4
    else 0
  }

  predicate IsContinuation(b: nat) {
    0x80 <= b < 0xC0
  }

  /** The code point of one UTF-8 sequence of `n` bytes read from `%XY` groups, if well formed. */
  function ReadSequence(s: string, n: nat): Option<int>
    requires 1 <= n <= 4
  {
    var b0 := ReadByte(s, 0);
    if b0.None? || LeadLength(b0.value) != n then None
    else if n == 1 then Some(b0.value)
    else
      var b1 := ReadByte(s, 3);
      if b1.None? || !IsContinuation(b1.value) then None
      else if n == 2 then Some((b0.value - 0xC0) * 64 + (b1.value - 0x80))
      else
        var b2 := ReadByte(s, 6);
        if b2.None? || !IsContinuation(b2.value) then None
        else if n == 3 then Some((b0.value - 0xE0) * 4096 + (b1.value - 0x80) * 64 + (b2.value - 0x80))
        else
          var b3 := ReadByte(s, 9);
          if b3.None? || !IsContinuation(b3.value) then None
          else Some((b0.value - 0xF0) * 262144 + (b1.value - 0x80) * 4096 + (b2.value - 0x80) * 64
                    + (b3.value - 0x80))
  }

  predicate IsScalar(cp: int) {
    (0 <= cp < 0xD800) || (0xE000 <= cp < 0x11_0000)
  }

  /** The smallest code point that needs `n` bytes; a longer sequence for a smaller one is overlong. */
  function MinCodePoint(n: nat): nat {
    if n <= 1 then 0 else if n == 2 then 0x80 else if n == 3 then 0x800 else 0x1_0000
  }

  /**
   * `decodeURIComponent(s)`; `None` where it throws: a `%` without two
   * hexadecimal digits, a malformed or overlong UTF-8 sequence, or a surrogate.
   */
  function Decode(s: string): Option<string>
    decreases |s|
  {
    if s == [] then Some("")
    else if s[0] != '%' then
      match Decode(s[1..])
      case None => None
      case Some(r) => Some([s[0]] + r)
    else
      var b0 := ReadByte(s, 0);
      if b0.None? || LeadLength(b0.value) == 0 || |s| < 3 * LeadLength(b0.value) then None
      else
        var n := LeadLength(b0.value);
        match ReadSequence(s, n)
        case None => None
        case Some(cp) =>
          if !IsScalar(cp) || cp < MinCodePoint(n) then None
          else
            match Decode(s[3 * n..])
            case None => None
            case Some(r) => Some([cp as char] + r)
  }

  // ---------------------------------------------------------------------------
  // Properties

  /** Everything the encoder writes is unreserved, `%`, or an upper-case hexadecimal digit. */
  lemma {:induction false} EncodedAlphabet(s: string)
    ensures forall i :: 0 <= i < |Encode(s)| ==>
              Unreserved(Encode(s)[i]) || Encode(s)[i] == '%' || (IsHexDigit(Encode(s)[i]) && !('a' <= Encode(s)[i] <= 'f'))
  {
    if s != [] {
      EncodedAlphabet(s[1..]);
      if !Unreserved(s[0]) {
        PercentBytesAlphabet(Utf8(s[0] as int));
      }
    }
  }

  lemma {:induction false} PercentBytesAlphabet(bs: seq<nat>)
    requires forall i :: 0 <= i < |bs| ==> bs[i] < 256
    ensures forall i :: 0 <= i < |PercentBytes(bs)| ==>
              PercentBytes(bs)[i] == '%' || (IsHexDigit(PercentBytes(bs)[i]) && !('a' <= PercentBytes(bs)[i] <= 'f'))
  {
    if bs != [] {
      PercentBytesAlphabet(bs[1..]);
    }
  }

  /** A string of unreserved characters is its own encoding. */
  lemma {:induction false} UnreservedUnchanged(s: string)
    requires forall i :: 0 <= i < |s| ==> Unreserved(s[i])
    ensures Encode(s) == s
  {
    if s != [] {
      UnreservedUnchanged(s[1..]);
    }
  }

  /** Decoding undoes encoding: no two strings share an encoding. */
  lemma {:induction false} DecodeEncode(s: string)
    ensures Decode(Encode(s)) == Some(s)
  {
    if s != [] {
      DecodeEncode(s[1..]);
      DecodeEncodeChar(s[0], Encode(s[1..]));
      assert [s[0]] + s[1..] == s;
    }
  }

  /** `%C0%AF`, an overlong two-byte spelling of `/`, is refused rather than read as `/`. */
  lemma OverlongRejected()
    ensures Decode("%C0%AF") == None
  {
    var s := "%C0%AF";
    assert ReadByte(s, 0) == Some(0xC0);
    assert ReadByte(s, 3) == Some(0xAF);
    assert ReadSequence(s, 2) == Some(0x2F);
  }

  /** One character: its encoding, followed by anything, decodes to it followed by that thing's decoding. */
  lemma DecodeEncodeChar(c: char, rest: string)
    ensures Decode(EncodeChar(c) + rest) == match Decode(rest)
                                            case None => None
                                            case Some(r) => Some([c] + r)
  {
    var s := EncodeChar(c) + rest;
    if Unreserved(c) {
      assert s[1..] == rest;
    } else {
      var cp := c as int;
      var bs := Utf8(cp);
      ReadBackBytes(bs, rest);
      Utf8ReadsBack(cp, s);
      assert s[3 * |bs|..] == rest;
      assert (cp as char) == c;
    }
  }

  /** Every `%XY` group written for `bs` is read back as its byte. */
  lemma ReadBackBytes(bs: seq<nat>, rest: string)
    requires forall i :: 0 <= i < |bs| ==> bs[i] < 256
    ensures forall i :: 0 <= i < |bs| ==> ReadByte(PercentBytes(bs) + rest, 3 * i) == Some(bs[i])
    ensures |PercentBytes(bs) + rest| >= 3 * |bs|
  {
    forall i | 0 <= i < |bs| ensures ReadByte(PercentBytes(bs) + rest, 3 * i) == Some(bs[i]) {
      PercentBytesAt(bs, rest, i);
      ReadWrittenByte(PercentBytes(bs) + rest, 3 * i, bs[i]);
    }
  }

  /** A `%XY` group written for byte `b` at position `k` is read back as `b`. */
  lemma ReadWrittenByte(t: string, k: nat, b: nat)
    requires b < 256 && k + 3 <= |t|
    requires t[k] == '%' && t[k + 1] == HexChar(b / 16) && t[k + 2] == HexChar(b % 16)
    ensures ReadByte(t, k) == Some(b)
  {
    assert 16 * (b / 16) + b % 16 == b;
  }

  lemma {:induction false} PercentBytesAt(bs: seq<nat>, rest: string, i: nat)
    requires forall j :: 0 <= j < |bs| ==> bs[j] < 256
    requires i < |bs|
    ensures |PercentBytes(bs) + rest| >= 3 * i + 3
    ensures (PercentBytes(bs) + rest)[3 * i] == '%'
    ensures (PercentBytes(bs) + rest)[3 * i + 1] == HexChar(bs[i] / 16)
    ensures (PercentBytes(bs) + rest)[3 * i + 2] == HexChar(bs[i] % 16)
  {
    var head := ['%', HexChar(bs[0] / 16), HexChar(bs[0] % 16)];
    assert PercentBytes(bs) + rest == head + (PercentBytes(bs[1..]) + rest);
    if i > 0 {
      PercentBytesAt(bs[1..], rest, i - 1);
    }
  }

  /** The decoder recognises the lead byte and the continuation bytes of `Utf8(cp)` and recombines `cp`. */
  lemma Utf8ReadsBack(cp: nat, s: string)
    requires cp < 0x11_0000
    requires forall i :: 0 <= i < |Utf8(cp)| ==> ReadByte(s, 3 * i) == Some(Utf8(cp)[i])
    requires |s| >= 3 * |Utf8(cp)|
    ensures s[0] == '%'
    ensures ReadByte(s, 0).Some? && LeadLength(ReadByte(s, 0).value) == |Utf8(cp)|
    ensures ReadSequence(s, |Utf8(cp)|) == Some(cp)
    ensures cp >= MinCodePoint(|Utf8(cp)|)
  {
    var bs := Utf8(cp);
    assert ReadByte(s, 0) == Some(bs[0]);
    if cp < 0x80 {
    } else if cp < 0x800 {
      assert ReadByte(s, 3) == Some(bs[1]);
      TwoBytes(cp);
    } else if cp < 0x1_0000 {
      assert ReadByte(s, 3) == Some(bs[1]);
      assert ReadByte(s, 6) == Some(bs[2]);
      ThreeBytes(cp);
    } else {
      assert ReadByte(s, 3) == Some(bs[1]);
      assert ReadByte(s, 6) == Some(bs[2]);
      assert ReadByte(s, 9) == Some(bs[3]);
      FourBytes(cp);
    }
  }

  lemma TwoBytes(cp: nat)
    requires 0x80 <= cp < 0x800
    ensures LeadLength(0xC0 + cp / 64) == 2 && IsContinuation(0x80 + cp % 64)
    ensures (cp / 64) * 64 + cp % 64 == cp
  {
  }

  lemma ThreeBytes(cp: nat)
    requires 0x800 <= cp < 0x1_0000
    ensures LeadLength(0xE0 + cp / 4096) == 3
    ensures IsContinuation(0x80 + (cp / 64) % 64) && IsContinuation(0x80 + cp % 64)
    ensures (cp / 4096) * 4096 + ((cp / 64) % 64) * 64 + cp % 64 == cp
  {
    var q := cp / 64;
    assert q * 64 + cp % 64 == cp;
    assert (q / 64) * 64 + q % 64 == q;
    assert q / 64 == cp / 4096;
  }

  lemma FourBytes(cp: nat)
    requires 0x1_0000 <= cp < 0x11_0000
    ensures LeadLength(0xF0 + cp / 262144) == 4
    ensures IsContinuation(0x80 + (cp / 4096) % 64) && IsContinuation(0x80 + (cp / 64) % 64)
            && IsContinuation(0x80 + cp % 64)
    ensures (cp / 262144) * 262144 + ((cp / 4096) % 64) * 4096 + ((cp / 64) % 64) * 64 + cp % 64 == cp
  {
    var q := cp / 64;
    var r := q / 64;
    assert q * 64 + cp % 64 == cp;
    assert r * 64 + q % 64 == q;
    assert (r / 64) * 64 + r % 64 == r;
    assert r == cp / 4096;
    assert r / 64 == cp / 262144;
  }
}
