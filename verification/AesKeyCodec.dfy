/**
 Textual forms of a 16-byte media key. One parser has to read hexadecimal, Base64 (sections 4 and 5 of
 RFC 4648, padded or not) and Base64 of hexadecimal without taking one for another.
 */
module AesKeyCodec {
  import opened Options
  import opened Text

  const KEY_SIZE: nat := 16

  type Byte = x: int | 0 <= x < 256
  type Bytes = seq<Byte>

  /******* Hexadecimal *******/

  function HexDigit(n: nat, upper: bool): char
    requires n < 16
  {
    if n < 10 then '0' + n as char else (if upper then 'A' else 'a') + (n - 10) as char
  }

  function HexValue(c: char): (v: Option<nat>)
    ensures v.Some? ==> v.value < 16
  {
    if '0' <= c <= '9' then Some((c - '0') as nat)
    else if 'a' <= c <= 'f' then Some((c - 'a') as nat + 10)
    else if 'A' <= c <= 'F' then Some((c - 'A') as nat + 10)
    else None
  }

  function Hex(b: Bytes, upper: bool): string {
    if b == [] then "" else [HexDigit(b[0] / 16, upper), HexDigit(b[0] % 16, upper)] + Hex(b[1..], upper)
  }

  predicate AsciiSpace(c: char) {
    c == ' ' || '\t' <= c <= '\r'
  }

  /** `bytes.fromhex`: pairs of digits, ASCII whitespace allowed between pairs. */
  function FromHex(s: string): Option<Bytes> {
    if s == "" then Some([])
    else if AsciiSpace(s[0]) then FromHex(s[1..])
    else if |s| == 1 || HexValue(s[0]).None? || HexValue(s[1]).None? then None
    else match FromHex(s[2..])
      case None => None
      case Some(rest) => Some([HexValue(s[0]).value * 16 + HexValue(s[1]).value] + rest)
  }

  lemma {:induction false} FromHexOfHex(b: Bytes, upper: bool)
    ensures FromHex(Hex(b, upper)) == Some(b) && |Hex(b, upper)| == 2 * |b|
    ensures forall c :: c in Hex(b, upper) ==> HexValue(c).Some?
  {
    hide HexValue, HexDigit, AsciiSpace;
    HexIsDigits(b, upper);
    if b == [] {
      assert Hex(b, upper) == "";
    } else {
      hide FromHex;
      var high, low, rest := HexDigit(b[0] / 16, upper), HexDigit(b[0] % 16, upper), Hex(b[1..], upper);
      HexDigitsOf(b[0], upper);
      FromHexOfHex(b[1..], upper);
      FromHexPair(high, low, rest);
      assert Hex(b, upper) == [high, low] + rest;
      assert [b[0]] + b[1..] == b;
    }
  }

  lemma {:induction false} HexIsDigits(b: Bytes, upper: bool)
    ensures forall c :: c in Hex(b, upper) ==> HexValue(c).Some?
  {
    hide HexValue, HexDigit;
    if b != [] {
      HexIsDigits(b[1..], upper);
      HexDigitsOf(b[0], upper);
    }
  }

  lemma HexDigitsOf(x: Byte, upper: bool)
    ensures
      var high, low := HexDigit(x / 16, upper), HexDigit(x % 16, upper);
      && HexValue(high) == Some(x / 16) && HexValue(low) == Some(x % 16) && !AsciiSpace(high)
      && x / 16 * 16 + x % 16 == x
  {
    HexDigitValue(x / 16, upper);
    HexDigitValue(x % 16, upper);
  }

  lemma FromHexPair(high: char, low: char, rest: string)
    requires !AsciiSpace(high) && HexValue(high).Some? && HexValue(low).Some? && FromHex(rest).Some?
    ensures FromHex([high, low] + rest) == Some([HexValue(high).value * 16 + HexValue(low).value] + FromHex(rest).value)
  {
    hide HexValue, AsciiSpace;
    var s := [high, low] + rest;
    assert s != "" && s[0] == high && s[1] == low && s[2..] == rest;
  }

  lemma HexDigitValue(n: nat, upper: bool)
    requires n < 16
    ensures HexValue(HexDigit(n, upper)) == Some(n) && !AsciiSpace(HexDigit(n, upper))
  {
  }

  lemma {:induction false} FromHexLength(s: string)
    requires FromHex(s).Some?
    ensures 2 * |FromHex(s).value| <= |s|
    ensures (forall c :: c in s ==> !AsciiSpace(c)) ==> 2 * |FromHex(s).value| == |s|
  {
    if s != "" {
      FromHexLength(if AsciiSpace(s[0]) then s[1..] else s[2..]);
    }
  }

  /******* Base64 *******/

  function B64Char(n: nat, url: bool): char
    requires n < 64
  {
    if n < 26 then 'A' + n as char
    else if n < 52 then 'a' + (n - 26) as char
    else if n < 62 then '0' + (n - 52) as char
    else if n == 62 then (if url then '-' else '+')
    else (if url then '_' else '/')
  }

  function B64Value(c: char): (v: Option<nat>)
    ensures v.Some? ==> v.value < 64
  {
    if 'A' <= c <= 'Z' then Some((c - 'A') as nat)
    else if 'a' <= c <= 'z' then Some((c - 'a') as nat + 26)
    else if '0' <= c <= '9' then Some((c - '0') as nat + 52)
    else if c == '+' then Some(62)
    else if c == '/' then Some(63)
    else None
  }

  /** The six-bit groups of a byte string; a last incomplete group is filled up with zero bits. */
  function Sextets(b: Bytes): (v: seq<nat>)
    ensures forall i :: 0 <= i < |v| ==> v[i] < 64
    ensures |v| == (4 * |b| + 2) / 3
  {
    if |b| >= 3 then Group(b[0], b[1], b[2]) + Sextets(b[3..]) else Remainder(b)
  }

  /** Up to two bytes are up to three groups of six bits, the last one filled up with zeros. */
  function Remainder(b: Bytes): (v: seq<nat>)
    requires |b| < 3
    ensures |v| == (4 * |b| + 2) / 3 && forall i :: 0 <= i < |v| ==> v[i] < 64
  {
    if b == [] then []
    else if |b| == 1 then [b[0] / 4, b[0] % 4 * 16]
    else [b[0] / 4, b[0] % 4 * 16 + b[1] / 16, b[1] % 16 * 4]
  }

  /** Three bytes are four groups of six bits. */
  function Group(x: Byte, y: Byte, z: Byte): (g: seq<nat>)
    ensures |g| == 4 && forall i :: 0 <= i < 4 ==> g[i] < 64
  {
    [x / 4, x % 4 * 16 + y / 16, y % 16 * 4 + z / 64, z % 64]
  }

  function Spell(v: seq<nat>, url: bool): (s: string)
    requires forall i :: 0 <= i < |v| ==> v[i] < 64
    ensures |s| == |v|
  {
    seq(|v|, i requires 0 <= i < |v| => B64Char(v[i], url))
  }

  /** The digits of the encoding, without padding. */
  function B64Digits(b: Bytes, url: bool): string {
    Spell(Sextets(b), url)
  }

  /** `s + "=" * (-len(s) % 4)`. */
  function Padded(s: string): string {
    if |s| % 4 == 0 then s
    else if |s| % 4 == 3 then s + "="
    else if |s| % 4 == 2 then s + "=="
    else s + "==="
  }

  function B64Encode(b: Bytes, url: bool): string {
    Padded(B64Digits(b, url))
  }

  /**
   `binascii.a2b_base64` from the state after some input: digits read of the current group of four, the bits
   left over from them, pad characters seen since, and whether padding has started at all. Outside strict mode
   characters that are no digits are skipped.
   */
  function A2b(s: string, strict: bool, quad: nat, left: nat, pads: nat, padding: bool): Option<Bytes>
    requires InGroup(quad, left)
    decreases |s|
  {
    if s == "" then (if quad == 0 then Some([]) else None)
    else if s[0] == '=' then
      if strict && quad == 0 then None
      else if quad >= 2 && quad + pads + 1 >= 4 then (if strict && |s| > 1 then None else Some([]))
      else A2b(s[1..], strict, quad, left, if quad >= 2 then pads + 1 else pads, true)
    else if B64Value(s[0]).None? then
      if strict then None else A2b(s[1..], strict, quad, left, pads, padding)
    else if strict && padding then None
    else
      var v := B64Value(s[0]).value;
      EmitAt(quad, left, v, A2b(s[1..], strict, NextQuad(quad), NextLeft(quad, v), 0, padding))
  }

  function NextQuad(quad: nat): nat {
    if quad >= 3 then 0 else quad + 1
  }

  /** The bits of a digit that belong to the next byte. */
  function NextLeft(quad: nat, v: nat): nat {
    match quad
    case 0 => v
    case 1 => v % 16
    case 2 => v % 4
    case _ => 0
  }

  /** Every digit but the first of a group completes a byte. */
  function EmitAt(quad: nat, left: nat, v: nat, rest: Option<Bytes>): Option<Bytes>
    requires InGroup(quad, left) && v < 64
  {
    match quad
    case 0 => rest
    case 1 => Emit(left * 4 + v / 16, rest)
    case 2 => Emit(left * 16 + v / 4, rest)
    case _ => Emit(left * 64 + v, rest)
  }

  /** Digits read of the current group, and the bits left over from them. */
  predicate InGroup(quad: nat, left: nat) {
    quad < 4 && left < (if quad == 2 then 16 else if quad == 3 then 4 else 64)
  }

  function Emit(x: Byte, rest: Option<Bytes>): Option<Bytes> {
    if rest.None? then None else Some([x] + rest.value)
  }

  predicate Ascii(s: string) {
    forall i :: 0 <= i < |s| ==> s[i] < '\U{80}'
  }

  /** `base64.b64decode(s, validate=True)`. */
  function StrictDecode(s: string): Option<Bytes> {
    if Ascii(s) then A2b(s, true, 0, 0, 0, false) else None
  }

  function Translate(s: string): (t: string)
    ensures |t| == |s|
  {
    seq(|s|, i requires 0 <= i < |s| => if s[i] == '-' then '+' else if s[i] == '_' then '/' else s[i])
  }

  /** `base64.urlsafe_b64decode(s)`. */
  function UrlSafeDecode(s: string): Option<Bytes> {
    if Ascii(s) then A2b(Translate(s), false, 0, 0, 0, false) else None
  }

  lemma B64CharValue(n: nat, url: bool)
    requires n < 64
    ensures B64Value(B64Char(n, false)) == Some(n) && B64Char(n, false) != '='
    ensures Translate([B64Char(n, url)]) == [B64Char(n, false)]
    ensures !IsSpace(B64Char(n, url)) && !AsciiSpace(B64Char(n, url)) && B64Char(n, url) < '\U{80}'
  {
  }

  lemma SpellFacts(v: seq<nat>, url: bool)
    requires forall i :: 0 <= i < |v| ==> v[i] < 64
    ensures Translate(Spell(v, url)) == Spell(v, false)
    ensures forall c :: c in Spell(v, url) ==> !IsSpace(c) && !AsciiSpace(c) && c < '\U{80}'
  {
    hide B64Char, B64Value, IsSpace;
    forall i | 0 <= i < |v|
      ensures Translate(Spell(v, url))[i] == B64Char(v[i], false)
      ensures !IsSpace(Spell(v, url)[i]) && !AsciiSpace(Spell(v, url)[i]) && Spell(v, url)[i] < '\U{80}'
    {
      B64CharValue(v[i], url);
      assert Translate([B64Char(v[i], url)])[0] == Translate(Spell(v, url))[i];
    }
  }

  /** One digit advances the decoder. */
  lemma A2bDigit(n: nat, rest: string, strict: bool, quad: nat, left: nat)
    requires n < 64 && InGroup(quad, left)
    ensures
      A2b([B64Char(n, false)] + rest, strict, quad, left, 0, false) ==
      EmitAt(quad, left, n, A2b(rest, strict, NextQuad(quad), NextLeft(quad, n), 0, false))
  {
    B64CharValue(n, false);
    hide B64Char, B64Value, EmitAt;
    assert ([B64Char(n, false)] + rest)[1..] == rest;
  }

  lemma A2bPadding(strict: bool, left: nat)
    ensures left < 4 ==> A2b("=", strict, 3, left, 0, false) == Some([])
    ensures left < 16 ==> A2b("==", strict, 2, left, 0, false) == Some([])
  {
    hide B64Value, EmitAt;
    assert "=="[1..] == "=";
  }

  lemma GroupRegroups(x: Byte, y: Byte, z: Byte)
    ensures
      var g := Group(x, y, z);
      g[0] * 4 + g[1] / 16 == x && g[1] % 16 * 16 + g[2] / 4 == y && g[2] % 4 * 64 + g[3] == z
  {}

  /** A full group of four digits decodes to its three bytes. */
  lemma A2bGroup(x: Byte, y: Byte, z: Byte, rest: string, strict: bool)
    ensures
      A2b(Spell(Group(x, y, z), false) + rest, strict, 0, 0, 0, false) ==
      Emit(x, Emit(y, Emit(z, A2b(rest, strict, 0, 0, 0, false))))
  {
    hide A2b, B64Char, Group;
    var g := Group(x, y, z);
    var s3 := [B64Char(g[3], false)] + rest;
    var s2 := [B64Char(g[2], false)] + s3;
    var s1 := [B64Char(g[1], false)] + s2;
    assert Spell(g, false) + rest == [B64Char(g[0], false)] + s1;
    A2bDigit(g[0], s1, strict, 0, 0);
    A2bDigit(g[1], s2, strict, 1, g[0]);
    A2bDigit(g[2], s3, strict, 2, g[1] % 16);
    A2bDigit(g[3], rest, strict, 3, g[2] % 4);
    GroupRegroups(x, y, z);
  }

  /** The last, incomplete group with its padding. */
  lemma A2bTail(b: Bytes, strict: bool)
    requires 1 <= |b| <= 2
    ensures A2b(B64Encode(b, false), strict, 0, 0, 0, false) == Some(b)
  {
    hide B64Char, A2b;
    var v := Sextets(b);
    if |b| == 2 {
      var s2 := [B64Char(v[2], false)] + "=";
      var s1 := [B64Char(v[1], false)] + s2;
      assert B64Encode(b, false) == [B64Char(v[0], false)] + s1;
      A2bDigit(v[0], s1, strict, 0, 0);
      A2bDigit(v[1], s2, strict, 1, v[0]);
      A2bDigit(v[2], "=", strict, 2, v[1] % 16);
      A2bPadding(strict, v[2] % 4);
      assert b == [b[0]] + ([b[1]] + []);
    } else {
      var s1 := [B64Char(v[1], false)] + "==";
      assert B64Encode(b, false) == [B64Char(v[0], false)] + s1;
      A2bDigit(v[0], s1, strict, 0, 0);
      A2bDigit(v[1], "==", strict, 1, v[0]);
      A2bPadding(strict, v[1] % 16);
      assert b == [b[0]] + [];
    }
  }

  lemma EncodeGroup(b: Bytes)
    requires |b| >= 3
    ensures B64Encode(b, false) == Spell(Group(b[0], b[1], b[2]), false) + B64Encode(b[3..], false)
  {
    hide B64Char, Spell, Sextets, Group;
    var head, tail := Group(b[0], b[1], b[2]), Sextets(b[3..]);
    SextetsGroup(b);
    SpellPlus(head, tail);
    PaddedGroup(Spell(head, false), Spell(tail, false));
  }

  lemma SextetsGroup(b: Bytes)
    requires |b| >= 3
    ensures Sextets(b) == Group(b[0], b[1], b[2]) + Sextets(b[3..])
  {
    hide Group, Remainder;
  }

  lemma SpellPlus(v: seq<nat>, w: seq<nat>)
    requires forall i :: 0 <= i < |v| ==> v[i] < 64
    requires forall i :: 0 <= i < |w| ==> w[i] < 64
    ensures |Spell(v, false)| == |v| && Spell(v + w, false) == Spell(v, false) + Spell(w, false)
  {
    hide B64Char;
  }

  lemma PaddedGroup(group: string, rest: string)
    requires |group| == 4
    ensures Padded(group + rest) == group + Padded(rest)
  {}

  /** Decoding inverts the standard encoding, in strict mode and out of it, for every byte string. */
  lemma {:induction false} A2bOfEncode(b: Bytes, strict: bool)
    ensures A2b(B64Encode(b, false), strict, 0, 0, 0, false) == Some(b)
  {
    if |b| >= 3 {
      hide A2b, B64Encode, Group, Spell;
      EncodeGroup(b);
      A2bGroup(b[0], b[1], b[2], B64Encode(b[3..], false), strict);
      A2bOfEncode(b[3..], strict);
      assert b == [b[0]] + ([b[1]] + ([b[2]] + b[3..]));
    } else if b != [] {
      A2bTail(b, strict);
    } else {
      assert B64Encode(b, false) == "";
    }
  }

  /** What strict decoding accepts, lenient URL-safe decoding reads the same way. */
  lemma {:induction false} StrictImpliesLenient(s: string, quad: nat, left: nat, pads: nat, padding: bool)
    requires InGroup(quad, left)
    requires A2b(s, true, quad, left, pads, padding).Some?
    ensures A2b(Translate(s), false, quad, left, pads, padding) == A2b(s, true, quad, left, pads, padding)
    decreases |s|
  {
    if s != "" {
      assert Translate(s)[1..] == Translate(s[1..]);
      if s[0] == '=' {
        if !(quad >= 2 && quad + pads + 1 >= 4) {
          StrictImpliesLenient(s[1..], quad, left, if quad >= 2 then pads + 1 else pads, true);
        }
      } else {
        var v := B64Value(s[0]).value;
        assert Translate(s)[0] == s[0];
        StrictImpliesLenient(s[1..], NextQuad(quad), NextLeft(quad, v), 0, padding);
      }
    }
  }

  /** How many characters of a string are Base64 digits. */
  function DigitCount(s: string): nat {
    if s == "" then 0 else (if B64Value(s[0]).Some? then 1 else 0) + DigitCount(s[1..])
  }

  /** Padding comes last. */
  predicate PadsLast(s: string) {
    forall i, j :: 0 <= i < j < |s| && s[i] == '=' ==> s[j] == '='
  }

  lemma {:induction false} PadsAreNoDigits(s: string)
    requires forall i :: 0 <= i < |s| ==> s[i] == '='
    ensures DigitCount(s) == 0
  {
    if s != "" { PadsAreNoDigits(s[1..]); }
  }

  /** Whole groups of digits decode to three bytes for every four of them, whatever is skipped in between. */
  lemma {:induction false} A2bLength(s: string, strict: bool, quad: nat, left: nat, padding: bool)
    requires InGroup(quad, left) && PadsLast(s) && (quad + DigitCount(s)) % 4 == 0
    requires A2b(s, strict, quad, left, 0, padding).Some?
    ensures
      var done := if quad == 0 then 0 else quad - 1;  // bytes of the current group already emitted
      4 * (|A2b(s, strict, quad, left, 0, padding).value| + done) == 3 * (DigitCount(s) + quad)
    decreases |s|
  {
    hide B64Value;
    if s != "" {
      assert PadsLast(s[1..]);
      if s[0] == '=' {
        PadsAreNoDigits(s);
        A2bLength(s[1..], strict, quad, left, true);
      } else if B64Value(s[0]).None? {
        A2bLength(s[1..], strict, quad, left, padding);
      } else {
        A2bLength(s[1..], strict, NextQuad(quad), NextLeft(quad, B64Value(s[0]).value), padding);
      }
    }
  }

  /******* The parser *******/

  predicate Continuation(x: Byte) {
    0x80 <= x < 0xC0
  }

  /** `bytes.decode("utf-8")`. */
  function Utf8(b: Bytes): Option<string> {
    if b == [] then Some("")
    else if b[0] < 0x80 then Cons(b[0], Utf8(b[1..]))
    else if 0xC2 <= b[0] < 0xE0 && |b| >= 2 && Continuation(b[1]) then
      Cons(Point(0, 0, b[0] - 0xC0, b[1] - 0x80), Utf8(b[2..]))
    else if 0xE0 <= b[0] < 0xF0 && |b| >= 3 && Continuation(b[1]) && Continuation(b[2]) then
      var point := Point(0, b[0] - 0xE0, b[1] - 0x80, b[2] - 0x80);
      if point < 0x800 then None else Cons(point, Utf8(b[3..]))
    else if 0xF0 <= b[0] < 0xF5 && |b| >= 4 && Continuation(b[1]) && Continuation(b[2]) && Continuation(b[3]) then
      var point := Point(b[0] - 0xF0, b[1] - 0x80, b[2] - 0x80, b[3] - 0x80);
      if point < 0x10000 then None else Cons(point, Utf8(b[4..]))
    else None
  }

  function Point(a: nat, b: nat, c: nat, d: nat): nat {
    ((a * 0x40 + b) * 0x40 + c) * 0x40 + d
  }

  function Cons(point: nat, rest: Option<string>): Option<string> {
    if rest.None? || 0xD800 <= point < 0xE000 || point >= 0x110000 then None else Some([point as char] + rest.value)
  }

  function AsciiBytes(s: string): (b: Bytes)
    requires Ascii(s)
    ensures |b| == |s|
  {
    seq(|s|, i requires 0 <= i < |s| => s[i] as int)
  }

  lemma {:induction false} Utf8OfAscii(s: string)
    requires Ascii(s)
    ensures Utf8(AsciiBytes(s)) == Some(s)
  {
    if s != "" {
      assert AsciiBytes(s)[1..] == AsciiBytes(s[1..]);
      Utf8OfAscii(s[1..]);
      assert s == [s[0]] + s[1..];
    }
  }

  lemma {:induction false} Utf8Length(b: Bytes)
    requires Utf8(b).Some?
    ensures |Utf8(b).value| <= |b|
  {
    if b != [] {
      if b[0] < 0x80 { Utf8Length(b[1..]); }
      else if b[0] < 0xE0 { Utf8Length(b[2..]); }
      else if b[0] < 0xF0 { Utf8Length(b[3..]); }
      else { Utf8Length(b[4..]); }
    }
  }

  function StripChar(s: string, c: char): string {
    if s != "" && s[0] == c then StripChar(s[1..], c)
    else if s != "" && s[|s| - 1] == c then StripChar(s[..|s| - 1], c)
    else s
  }

  lemma {:induction false} StripCharLength(s: string, c: char)
    ensures |StripChar(s, c)| <= |s|
  {
    if s != "" && s[0] == c { StripCharLength(s[1..], c); }
    else if s != "" && s[|s| - 1] == c { StripCharLength(s[..|s| - 1], c); }
  }

  function ValidKey(key: Option<Bytes>): Option<Bytes> {
    if key.Some? && |key.value| == KEY_SIZE then key else None
  }

  /** Decoded bytes are the key itself, or text with the key in hexadecimal, possibly quoted. */
  function Normalize(decoded: Bytes): Option<Bytes> {
    if |decoded| == KEY_SIZE then Some(decoded)
    else match Utf8(decoded)
      case None => None
      case Some(text) =>
        var bare := StripChar(StripChar(Strip(text), '"'), '\'');
        if bare == "" then None else ValidKey(FromHex(bare))
  }

  function DecodeBase64Key(value: string): Option<Bytes> {
    var candidate := Strip(value);
    if candidate == "" then None
    else
      var padded := Padded(candidate);
      var first := StrictDecode(padded);
      if first.Some? && Normalize(first.value).Some? then Normalize(first.value)
      else
        var second := UrlSafeDecode(padded);
        if second.Some? then Normalize(second.value) else None
  }

  /** The JSON value of a key field. */
  datatype FieldValue = Raw(bytes: Bytes) | Str(text: string) | OtherValue

  function ParseCandidate(value: FieldValue, preferHex: bool): Option<Bytes> {
    match value
    case Raw(bytes) => ValidKey(Some(bytes))
    case OtherValue => None
    case Str(text) =>
      var raw := Strip(text);
      if raw == "" then None
      else
        var hex, base64 := ValidKey(FromHex(raw)), DecodeBase64Key(raw);
        if preferHex then (if hex.Some? then hex else base64)
        else (if base64.Some? then base64 else hex)
  }

  /******* Every form of a key is read back *******/

  datatype Form =
    | HexForm(upper: bool)
    | Base64Form(url: bool, padding: bool)
    | Base64OfHexForm(upper: bool, url: bool, padding: bool)
    | Base64OfQuotedForm(single: bool, upper: bool, url: bool, padding: bool)

  function Quoted(s: string, single: bool): string {
    var quote := if single then '\'' else '"';
    [quote] + s + [quote]
  }

  function Digits(b: Bytes, url: bool, padding: bool): string {
    if padding then B64Encode(b, url) else B64Digits(b, url)
  }

  function Render(key: Bytes, form: Form): string {
    match form
    case HexForm(upper) => Hex(key, upper)
    case Base64Form(url, padding) => Digits(key, url, padding)
    case Base64OfHexForm(upper, url, padding) =>
      HexIsAscii(key, upper);
      Digits(AsciiBytes(Hex(key, upper)), url, padding)
    case Base64OfQuotedForm(single, upper, url, padding) =>
      HexIsAscii(key, upper);
      Digits(AsciiBytes(Quoted(Hex(key, upper), single)), url, padding)
  }

  /** What the sender puts into an outbound media object. */
  function EncodeOutboundKey(key: Bytes): string {
    Render(key, Base64OfHexForm(false, false, true))
  }

  lemma HexIsAscii(key: Bytes, upper: bool)
    ensures Ascii(Hex(key, upper))
  {
    FromHexOfHex(key, upper);
    forall i | 0 <= i < |Hex(key, upper)| ensures Hex(key, upper)[i] < '\U{80}' {
      assert Hex(key, upper)[i] in Hex(key, upper);
    }
  }

  /** The decoders agree on every Base64 form, so the order in which they are tried does not matter. */
  lemma Base64KeyOf(b: Bytes, url: bool, padding: bool)
    requires b != [] && Normalize(b).Some?
    ensures Trimmed(Digits(b, url, padding))
    ensures DecodeBase64Key(Digits(b, url, padding)) == Normalize(b)
  {
    hide Normalize, A2b, IsSpace;
    var s := Digits(b, url, padding);
    DigitsFacts(b, url, padding);
    StripTrims(s);
    var padded := Padded(s);
    assert padded == B64Encode(b, url);
    assert Translate(padded) == B64Encode(b, false) && Ascii(padded) by { EncodeTranslates(b, url); }
    A2bOfEncode(b, false);
    if StrictDecode(padded).Some? { StrictImpliesLenient(padded, 0, 0, 0, false); }
  }

  lemma EncodeTranslates(b: Bytes, url: bool)
    ensures Translate(B64Encode(b, url)) == B64Encode(b, false) && Ascii(B64Encode(b, url))
  {
    hide IsSpace, B64Char, Sextets, Spell;
    var s := B64Digits(b, url);
    SpellFacts(Sextets(b), url);
    assert |s| == |B64Digits(b, false)|;
    forall i | 0 <= i < |s| ensures s[i] < '\U{80}' { assert s[i] in s; }
  }

  /** A Base64 form is no whitespace at all, and has more than two characters. */
  lemma DigitsFacts(b: Bytes, url: bool, padding: bool)
    requires b != []
    ensures var s := Digits(b, url, padding);
      && Trimmed(s) && s != ""
      && (forall c :: c in s ==> !AsciiSpace(c))
      && |s| == (if padding then (|b| + 2) / 3 * 4 else (4 * |b| + 2) / 3)
      && Padded(s) == B64Encode(b, url)
  {
    hide IsSpace, AsciiSpace, B64Char, Spell, Sextets, Padded;
    var digits := B64Digits(b, url);
    SpellFacts(Sextets(b), url);
    PaddedFacts(digits);
  }

  lemma PaddedFacts(digits: string)
    requires digits != "" && |digits| % 4 != 1 && forall c :: c in digits ==> !IsSpace(c) && !AsciiSpace(c)
    ensures Trimmed(digits) && Trimmed(Padded(digits)) && Padded(Padded(digits)) == Padded(digits)
    ensures forall c :: c in Padded(digits) ==> !IsSpace(c) && !AsciiSpace(c)
    ensures |Padded(digits)| == (|digits| + 3) / 4 * 4
  {
    hide IsSpace;
    EqualsIsNoSpace();
    var s := Padded(digits);
    assert forall i :: 0 <= i < |digits| ==> digits[i] in digits;
    forall c | c in s ensures !IsSpace(c) && !AsciiSpace(c) {
      var i :| 0 <= i < |s| && s[i] == c;
      if i < |digits| { assert c == digits[i]; }
    }
  }

  lemma EqualsIsNoSpace()
    ensures !IsSpace('=') && !AsciiSpace('=')
  {
  }

  /** What `bytes.fromhex` reads: two digits for every byte, and ASCII whitespace. */
  lemma {:induction false} FromHexReads(s: string)
    requires FromHex(s).Some?
    ensures DigitCount(s) == 2 * |FromHex(s).value|
    ensures forall i :: 0 <= i < |s| ==> AsciiSpace(s[i]) || HexValue(s[i]).Some?
    decreases |s|
  {
    hide HexValue, B64Value, AsciiSpace;
    if s != "" {
      HexIsDigit(s[0]);
      if AsciiSpace(s[0]) {
        FromHexReads(s[1..]);
      } else {
        HexIsDigit(s[1]);
        FromHexReads(s[2..]);
        assert s[1..][1..] == s[2..];
        forall i | 0 <= i < |s| ensures AsciiSpace(s[i]) || HexValue(s[i]).Some? {
          if i >= 2 { assert s[i] == s[2..][i - 2]; }
        }
      }
    }
  }

  lemma HexIsDigit(c: char)
    ensures HexValue(c).Some? ==> B64Value(c).Some? && !AsciiSpace(c)
    ensures AsciiSpace(c) ==> B64Value(c).None?
    ensures AsciiSpace(c) || HexValue(c).Some? ==> c < '\U{80}' && c != '=' && c != '-' && c != '_'
  {
  }

  lemma {:induction false} DigitCountPlus(s: string, t: string)
    ensures DigitCount(s + t) == DigitCount(s) + DigitCount(t)
  {
    if s == "" {
      assert s + t == t;
    } else {
      assert (s + t)[1..] == s[1..] + t;
      DigitCountPlus(s[1..], t);
    }
  }

  /** Padding up text without "=" keeps its digits and puts the padding last. */
  lemma PaddedCount(s: string)
    requires forall i :: 0 <= i < |s| ==> s[i] != '='
    ensures DigitCount(Padded(s)) == DigitCount(s) && PadsLast(Padded(s))
    ensures forall i :: 0 <= i < |Padded(s)| ==> Padded(s)[i] == '=' || (i < |s| && Padded(s)[i] == s[i])
  {
    var pads := Padded(s)[|s|..];
    assert Padded(s) == s + pads;
    assert forall i :: 0 <= i < |pads| ==> pads[i] == '=';
    PadsAreNoDigits(pads);
    DigitCountPlus(s, pads);
  }

  /** Text that is a key in hexadecimal, with or without whitespace in it, is no key in Base64. */
  lemma HexIsNotBase64(text: string)
    requires Trimmed(text) && ValidKey(FromHex(text)).Some?
    ensures DecodeBase64Key(text) == None
  {
    hide A2b, IsSpace, Normalize, FromHex, StripChar, DigitCount, PadsLast, AsciiSpace, HexValue, B64Value, Padded;
    StripTrims(text);
    FromHexReads(text);
    forall i | 0 <= i < |text|
      ensures text[i] < '\U{80}' && text[i] != '=' && text[i] != '-' && text[i] != '_'
    {
      HexIsDigit(text[i]);
    }
    var padded := Padded(text);
    PaddedCount(text);
    assert Translate(padded) == padded;
    if StrictDecode(padded).Some? {
      A2bLength(padded, true, 0, 0, false);
      ShortTextIsNoKey(StrictDecode(padded).value);
    }
    if UrlSafeDecode(padded).Some? {
      A2bLength(padded, false, 0, 0, false);
      ShortTextIsNoKey(UrlSafeDecode(padded).value);
    }
  }

  /** For no value of a key field does it matter which reading is tried first. */
  lemma PreferenceNeverMatters(value: FieldValue)
    ensures ParseCandidate(value, true) == ParseCandidate(value, false)
  {
    hide Strip, FromHex, DecodeBase64Key;
    if value.Str? {
      StripTrims(value.text);
      if Strip(value.text) != "" && ValidKey(FromHex(Strip(value.text))).Some? { HexIsNotBase64(Strip(value.text)); }
    }
  }

  /** Whatever is parsed is a key of sixteen bytes; bytes are taken as they are, exactly if they are sixteen. */
  lemma ParsedIsKey(value: FieldValue, preferHex: bool)
    ensures ParseCandidate(value, preferHex).Some? ==> |ParseCandidate(value, preferHex).value| == 16
    ensures value.Raw? ==> ParseCandidate(value, preferHex) == if |value.bytes| == 16 then Some(value.bytes) else None
  {
    hide Strip, FromHex, A2b, Padded, Utf8, StripChar, Translate;
  }

  /** Whitespace around a key is of no account. */
  lemma SpaceAroundIsIgnored(before: string, text: string, after: string, preferHex: bool)
    requires Blank(before) && Blank(after)
    ensures ParseCandidate(Str(before + text + after), preferHex) == ParseCandidate(Str(text), preferHex)
  {
    hide Strip, FromHex, DecodeBase64Key;
    StripPads(before, text, after);
  }

  lemma HexFacts(key: Bytes, upper: bool)
    requires |key| == KEY_SIZE
    ensures var s := Hex(key, upper);
      && |s| == 32 && Trimmed(s) && Translate(s) == s && FromHex(s) == Some(key)
      && (forall i :: 0 <= i < |s| ==> B64Value(s[i]).Some? && s[i] != '=')
  {
    FromHexOfHex(key, upper);
    var s := Hex(key, upper);
    forall i | 0 <= i < |s| ensures HexValue(s[i]).Some? && !IsSpace(s[i]) { assert s[i] in s; }
  }

  /** Twenty-four bytes are neither a key nor long enough to spell one. */
  lemma ShortTextIsNoKey(decoded: Bytes)
    requires |decoded| == 24
    ensures Normalize(decoded) == None
  {
    hide Utf8, FromHex, StripChar, IsSpace;
    if Utf8(decoded).Some? {
      var text := Utf8(decoded).value;
      Utf8Length(decoded);
      LStripStarts(text);
      RStripEnds(LStrip(text));
      StripCharLength(Strip(text), '"');
      StripCharLength(StripChar(Strip(text), '"'), '\'');
      var bare := StripChar(StripChar(Strip(text), '"'), '\'');
      if FromHex(bare).Some? { FromHexLength(bare); }
    }
  }

  lemma StripCharNone(s: string, c: char)
    requires s != "" && s[0] != c && s[|s| - 1] != c
    ensures StripChar(s, c) == s
  {
  }

  lemma NormalizeHex(key: Bytes, upper: bool)
    requires |key| == KEY_SIZE
    ensures Ascii(Hex(key, upper)) && Normalize(AsciiBytes(Hex(key, upper))) == Some(key)
  {
    hide IsSpace, Utf8, Hex, FromHex, StripChar, Strip;
    var s := Hex(key, upper);
    HexIsAscii(key, upper);
    HexFacts(key, upper);
    Utf8OfAscii(s);
    StripTrims(s);
    FromHexOfHex(key, upper);
    assert s[0] in s && s[31] in s;
    StripCharNone(s, '"');
    StripCharNone(s, '\'');
  }

  lemma StripCharOf(s: string, c: char)
    requires s != "" && s[0] != c && s[|s| - 1] != c
    ensures StripChar([c] + s + [c], c) == s
  {
    assert ([c] + s + [c])[1..] == s + [c];
    assert (s + [c])[..|s|] == s && (s + [c])[0] != c;
    assert StripChar(s + [c], c) == StripChar(s, c);
  }

  lemma NormalizeQuoted(key: Bytes, upper: bool, single: bool)
    requires |key| == KEY_SIZE
    ensures Ascii(Quoted(Hex(key, upper), single))
    ensures Normalize(AsciiBytes(Quoted(Hex(key, upper), single))) == Some(key)
  {
    hide IsSpace, Utf8, Hex, FromHex, StripChar, Strip;
    var s := Hex(key, upper);
    var text := Quoted(s, single);
    HexIsAscii(key, upper);
    HexFacts(key, upper);
    Utf8OfAscii(text);
    QuoteIsNoSpace();
    StripTrims(text);
    FromHexOfHex(key, upper);
    assert s[0] in s && s[31] in s;
    if single {
      StripCharNone(text, '"');
      StripCharOf(s, '\'');
    } else {
      StripCharOf(s, '"');
      StripCharNone(s, '\'');
    }
  }

  lemma QuoteIsNoSpace()
    ensures !IsSpace('"') && !IsSpace('\'')
  {
  }

  /** The parser inverts every form of every key, whichever reading it prefers. */
  lemma ParseInvertsRender(key: Bytes, form: Form, preferHex: bool)
    requires |key| == KEY_SIZE
    ensures ParseCandidate(Str(Render(key, form)), preferHex) == Some(key)
  {
    hide A2b, IsSpace, Normalize, DecodeBase64Key, FromHex, Hex, Digits;
    var s := Render(key, form);
    match form
    case HexForm(upper) =>
      HexFacts(key, upper);
      StripTrims(s);
      HexIsNotBase64(s);
    case Base64Form(url, padding) =>
      NormalizeKey(key);
      Base64KeyOf(key, url, padding);
      DigitsFacts(key, url, padding);
      StripTrims(s);
      if FromHex(s).Some? { FromHexLength(s); }
    case Base64OfHexForm(upper, url, padding) =>
      NormalizeHex(key, upper);
      var text := AsciiBytes(Hex(key, upper));
      HexFacts(key, upper);
      Base64KeyOf(text, url, padding);
      DigitsFacts(text, url, padding);
      StripTrims(s);
      if FromHex(s).Some? { FromHexLength(s); }
    case Base64OfQuotedForm(single, upper, url, padding) =>
      ParseInvertsQuoted(key, single, upper, url, padding, preferHex);
  }

  lemma ParseInvertsQuoted(key: Bytes, single: bool, upper: bool, url: bool, padding: bool, preferHex: bool)
    requires |key| == KEY_SIZE
    ensures ParseCandidate(Str(Render(key, Base64OfQuotedForm(single, upper, url, padding))), preferHex) == Some(key)
  {
    hide A2b, IsSpace, Normalize, DecodeBase64Key, FromHex, Hex, Digits;
    var s := Render(key, Base64OfQuotedForm(single, upper, url, padding));
    NormalizeQuoted(key, upper, single);
    var text := AsciiBytes(Quoted(Hex(key, upper), single));
    HexFacts(key, upper);
    Base64KeyOf(text, url, padding);
    DigitsFacts(text, url, padding);
    StripTrims(s);
    if FromHex(s).Some? { FromHexLength(s); }
  }

  lemma NormalizeKey(key: Bytes)
    requires |key| == KEY_SIZE
    ensures Normalize(key) == Some(key)
  {
  }

  /** Examples of section 10 of RFC 4648: the encodings of "f", "fo" and "foo". */
  lemma EncodingExamples()
    ensures B64Encode([102], false) == "Zg==" && B64Encode([102, 111], false) == "Zm8="
    ensures B64Encode([102, 111, 111], false) == "Zm9v"
  {
    hide Sextets, Spell, Padded, B64Char;
    assert Sextets([102]) == [25, 32] && Sextets([102, 111]) == [25, 38, 60] by { SextetExamples(); }
    assert Sextets([102, 111, 111]) == [25, 38, 61, 47] by { SextetExamples(); }
    assert Spell([25, 32], false) == "Zg" && Spell([25, 38, 60], false) == "Zm8" by { SpellExamples(); }
    assert Spell([25, 38, 61, 47], false) == "Zm9v" by { SpellExamples(); }
    assert Padded("Zg") == "Zg==" && Padded("Zm8") == "Zm8=" && Padded("Zm9v") == "Zm9v" by { PaddedExamples(); }
  }

  lemma SextetExamples()
    ensures Sextets([102]) == [25, 32] && Sextets([102, 111]) == [25, 38, 60]
    ensures Sextets([102, 111, 111]) == [25, 38, 61, 47]
  {
    assert [102, 111, 111][3..] == [];
  }

  lemma SpellExamples()
    ensures Spell([25, 32], false) == "Zg" && Spell([25, 38, 60], false) == "Zm8"
    ensures Spell([25, 38, 61, 47], false) == "Zm9v"
  {
  }

  lemma PaddedExamples()
    ensures Padded("Zg") == "Zg==" && Padded("Zm8") == "Zm8=" && Padded("Zm9v") == "Zm9v"
  {
  }

  /** The digits are those of tables 1 and 2 of RFC 4648, which differ in the last two. */
  lemma AlphabetIs(n: nat)
    requires n < 64
    ensures n < 62 ==> B64Char(n, true) == B64Char(n, false)
    ensures B64Char(n, false) ==
            if n < 26 then "ABCDEFGHIJKLMNOPQRSTUVWXYZ"[n]
            else if n < 52 then "abcdefghijklmnopqrstuvwxyz"[n - 26]
            else "0123456789+/"[n - 52]
    ensures B64Char(62, true) == '-' && B64Char(63, true) == '_'
  {
  }

  /** What the sender writes is the padded Base64 of the key's 32 lower-case hexadecimal digits. */
  lemma OutboundKeyForm(key: Bytes)
    requires |key| == KEY_SIZE
    ensures Ascii(Hex(key, false)) && StrictDecode(EncodeOutboundKey(key)) == Some(AsciiBytes(Hex(key, false)))
    ensures |EncodeOutboundKey(key)| == 44 && |Hex(key, false)| == 32
    ensures forall c :: c in Hex(key, false) ==> c in "0123456789abcdef"
  {
    hide A2b, IsSpace, Hex;
    HexIsAscii(key, false);
    HexFacts(key, false);
    var text := AsciiBytes(Hex(key, false));
    DigitsFacts(text, false, true);
    A2bOfEncode(text, true);
    assert Ascii(B64Encode(text, false)) by { EncodeTranslates(text, false); }
    HexIsLower(key);
  }

  lemma {:induction false} HexIsLower(b: Bytes)
    ensures forall c :: c in Hex(b, false) ==> c in "0123456789abcdef"
  {
    if b != [] {
      HexIsLower(b[1..]);
      DigitIsLower(b[0] / 16);
      DigitIsLower(b[0] % 16);
    }
  }

  lemma DigitIsLower(n: nat)
    requires n < 16
    ensures HexDigit(n, false) in "0123456789abcdef"
  {
    assert "0123456789abcdef"[n] == HexDigit(n, false);
  }

  /** No form of one key is a form of another. */
  lemma FormsDontCollide(k1: Bytes, f1: Form, k2: Bytes, f2: Form)
    requires |k1| == KEY_SIZE && |k2| == KEY_SIZE && Render(k1, f1) == Render(k2, f2)
    ensures k1 == k2
  {
    hide Render, ParseCandidate;
    ParseInvertsRender(k1, f1, true);
    ParseInvertsRender(k2, f2, true);
  }
}
