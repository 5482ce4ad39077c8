/** UTF-8, as sections 3 and 4 of RFC 3629 define it. */
module Utf8 {
  import opened Names

  type Byte = x: int | 0 <= x < 256

  /** A Unicode scalar value: a code point that is not a surrogate. */
  type Scalar = c: int | 0 <= c < 0xD800 || 0xE000 <= c < 0x11_0000

  type Text = seq<Scalar>

  function EncodeOne(c: Scalar): (bytes: seq<Byte>)
    ensures 0 < |bytes| <= 4
  {
    if c < 0x80 then [c]
    else if c < 0x800 then [0xC0 + c / 64, 0x80 + c % 64]
    else if c < 0x1_0000 then [0xE0 + c / 64 / 64, 0x80 + c / 64 % 64, 0x80 + c % 64]
    else [0xF0 + c / 64 / 64 / 64, 0x80 + c / 64 / 64 % 64, 0x80 + c / 64 % 64, 0x80 + c % 64]
  }

  /** `str.encode("utf-8")` */
  function Encode(t: Text): seq<Byte> {
    if t == [] then [] else EncodeOne(t[0]) + Encode(t[1..])
  }

  predicate Follows(b: Byte) { 0x80 <= b < 0xC0 }

  /** The six bits a following byte carries. */
  function Six(b: Byte): int { b as int - 0x80 }

  /** The scalar value a byte sequence starts with, and how many bytes it takes; None if it does not start with one. */
  function DecodeOne(b: seq<Byte>): (r: Option<(Scalar, nat)>)
    ensures r.Some? ==> 0 < r.value.1 <= |b|
  {
    if b == [] then None
    else if b[0] < 0x80 then Some((b[0] as Scalar, 1))
    else if 0xC2 <= b[0] < 0xE0 && |b| >= 2 && Follows(b[1]) then
      Some(((b[0] as int - 0xC0) * 64 + Six(b[1]), 2))
    else if 0xE0 <= b[0] < 0xF0 && |b| >= 3 && Follows(b[1]) && Follows(b[2]) then
      var c := (b[0] as int - 0xE0) * 4096 + Six(b[1]) * 64 + Six(b[2]);
      if c < 0x800 || 0xD800 <= c < 0xE000 then None else Some((c, 3))
    else if 0xF0 <= b[0] < 0xF5 && |b| >= 4 && Follows(b[1]) && Follows(b[2]) && Follows(b[3]) then
      var c := (b[0] as int - 0xF0) * 0x4_0000 + Six(b[1]) * 4096 + Six(b[2]) * 64 + Six(b[3]);
      if c < 0x1_0000 || c >= 0x11_0000 then None else Some((c, 4))
    else None
  }

  /** `bytes.decode("utf-8")`; None where it raises. */
  function Decode(b: seq<Byte>): Option<Text>
    decreases |b|
  {
    if b == [] then Some([])
    else
      match DecodeOne(b)
      case None => None
      case Some((c, n)) =>
        match Decode(b[n..])
        case None => None
        case Some(t) => Some([c] + t)
  }

  /** The examples of section 7: one character of each length. */
  lemma Examples()
    ensures Encode([0x41]) == [0x41] && Encode([0x391]) == [0xCE, 0x91]
    ensures Encode([0x2262]) == [0xE2, 0x89, 0xA2] && Encode([0x233B4]) == [0xF0, 0xA3, 0x8E, 0xB4]
  {}

  lemma LastSix(c: int, q: int, r: int)
    requires c == q * 64 + r && 0 <= r < 64
    ensures c / 64 == q && c % 64 == r
  {}

  lemma DecodeEncoded(c: Scalar, rest: seq<Byte>)
    ensures DecodeOne(EncodeOne(c) + rest) == Some((c, |EncodeOne(c)|))
  {
    var b := EncodeOne(c) + rest;
    var q := c / 64;
    var p := q / 64;
    assert c == q * 64 + c % 64 && q == p * 64 + q % 64 && p == p / 64 * 64 + p % 64;
    assert forall i | 0 <= i < |EncodeOne(c)| :: b[i] == EncodeOne(c)[i];
  }

  lemma EncodeDecoded(b: seq<Byte>)
    requires DecodeOne(b).Some?
    ensures var (c, n) := DecodeOne(b).value; b[..n] == EncodeOne(c)
  {
    var (c, n) := DecodeOne(b).value;
    if n == 2 {
      LastSix(c, b[0] as int - 0xC0, Six(b[1]));
    } else if n == 3 {
      var q := (b[0] as int - 0xE0) * 64 + Six(b[1]);
      LastSix(c, q, Six(b[2]));
      LastSix(q, b[0] as int - 0xE0, Six(b[1]));
    } else if n == 4 {
      var p := (b[0] as int - 0xF0) * 64 + Six(b[1]);
      var q := p * 64 + Six(b[2]);
      LastSix(c, q, Six(b[3]));
      LastSix(q, p, Six(b[2]));
      LastSix(p, b[0] as int - 0xF0, Six(b[1]));
    }
  }

  lemma DecodeStep(one: seq<Byte>, rest: seq<Byte>, c: Scalar, t: Text)
    requires DecodeOne(one + rest) == Some((c, |one|)) && Decode(rest) == Some(t)
    ensures Decode(one + rest) == Some([c] + t)
  {
    assert (one + rest)[|one|..] == rest;
  }

  /** What is encoded decodes to itself. */
  lemma {:induction false} TextRoundTrip(t: Text)
    ensures Decode(Encode(t)) == Some(t)
  {
    if t != [] {
      var rest := Encode(t[1..]);
      DecodeEncoded(t[0], rest);
      TextRoundTrip(t[1..]);
      DecodeStep(EncodeOne(t[0]), rest, t[0], t[1..]);
      assert t == [t[0]] + t[1..];
    }
  }

  /** What decodes is the encoding of the result, and of nothing else. */
  lemma {:induction false} BytesRoundTrip(b: seq<Byte>)
    requires Decode(b).Some?
    ensures Encode(Decode(b).value) == b
    decreases |b|
  {
    hide DecodeOne, EncodeOne;
    if b != [] {
      var (c, n) := DecodeOne(b).value;
      EncodeDecoded(b);
      BytesRoundTrip(b[n..]);
      assert b == b[..n] + b[n..];
    }
  }
}
