/** Which bytes are a text, and that comparing texts byte by byte compares them code
    point by code point (src/codec.rs:237-245, src/value.rs:233-236). */
module Utf8Text {
  import opened Values
  import opened Codec

  /** A Unicode scalar value: a code point that is no surrogate. */
  predicate Scalar(c: nat) { c < 0xD800 || 0xE000 <= c < 0x11_0000 }

  /** Its UTF-8 encoding (RFC 3629, section 3). */
  function Encoded(c: nat): (bs: Bytes)
    requires Scalar(c)
    ensures 1 <= |bs| <= 4
  {
    if c < 0x80 then [c]
    else if c < 0x800 then [0xC0 + c / 0x40, 0x80 + c % 0x40]
    else if c < 0x1_0000 then [0xE0 + c / 0x1000, 0x80 + c / 0x40 % 0x40, 0x80 + c % 0x40]
    else [0xF0 + c / 0x4_0000, 0x80 + c / 0x1000 % 0x40, 0x80 + c / 0x40 % 0x40, 0x80 + c % 0x40]
  }

  ghost predicate AllScalar(cs: seq<nat>) { forall i :: 0 <= i < |cs| ==> Scalar(cs[i]) }

  function EncodedAll(cs: seq<nat>): Bytes
    requires AllScalar(cs)
  {
    if cs == [] then [] else Encoded(cs[0]) + EncodedAll(cs[1..])
  }

  lemma {:induction false} StepOfEncoded(c: nat, rest: Bytes)
    requires Scalar(c)
    ensures Utf8Step(Encoded(c) + rest) == |Encoded(c)|
  {
    var bs := Encoded(c) + rest;
    assert forall i :: 0 <= i < |Encoded(c)| ==> bs[i] == Encoded(c)[i];
  }

  lemma {:induction false} TwoBytes(p: int, q: int)
    requires 0xC2 <= p <= 0xDF && 0x80 <= q <= 0xBF
    ensures var c := (p - 0xC0) * 0x40 + (q - 0x80); Scalar(c) && Encoded(c) == [p, q]
  {
  }

  lemma {:induction false} ThreeBytes(p: int, q: int, r: int)
    requires 0xE0 <= p <= 0xEF && 0x80 <= q <= 0xBF && 0x80 <= r <= 0xBF && (p == 0xE0 ==> q >= 0xA0) && (p == 0xED ==> q <= 0x9F)
    ensures var c := (p - 0xE0) * 0x1000 + (q - 0x80) * 0x40 + (r - 0x80); Scalar(c) && Encoded(c) == [p, q, r]
  {
  }

  lemma {:induction false} FourBytes(p: int, q: int, r: int, t: int)
    requires 0xF0 <= p <= 0xF4 && 0x80 <= q <= 0xBF && 0x80 <= r <= 0xBF && 0x80 <= t <= 0xBF
    requires (p == 0xF0 ==> q >= 0x90) && (p == 0xF4 ==> q <= 0x8F)
    ensures var c := (p - 0xF0) * 0x4_0000 + (q - 0x80) * 0x1000 + (r - 0x80) * 0x40 + (t - 0x80); Scalar(c) && Encoded(c) == [p, q, r, t]
  {
    var c := (p - 0xF0) * 0x4_0000 + (q - 0x80) * 0x1000 + (r - 0x80) * 0x40 + (t - 0x80);
    assert c / 0x4_0000 == p - 0xF0 && c / 0x1000 == (p - 0xF0) * 0x40 + (q - 0x80);
    assert c / 0x40 == ((p - 0xF0) * 0x40 + (q - 0x80)) * 0x40 + (r - 0x80);
  }

  lemma {:induction false} StepIsEncoded(bs: Bytes) returns (c: nat)
    requires Utf8Step(bs) > 0
    ensures Scalar(c) && Encoded(c) == bs[..Utf8Step(bs)]
  {
    hide Encoded;
    var n := Utf8Step(bs);
    if n == 1 {
      c := bs[0];
      assert Encoded(c) == [c] by { OneByte(c); }
    } else if n == 2 {
      TwoBytes(bs[0], bs[1]);
      c := (bs[0] as int - 0xC0) * 0x40 + (bs[1] as int - 0x80);
    } else if n == 3 {
      ThreeBytes(bs[0], bs[1], bs[2]);
      c := (bs[0] as int - 0xE0) * 0x1000 + (bs[1] as int - 0x80) * 0x40 + (bs[2] as int - 0x80);
    } else {
      FourBytes(bs[0], bs[1], bs[2], bs[3]);
      c := (bs[0] as int - 0xF0) * 0x4_0000 + (bs[1] as int - 0x80) * 0x1000 + (bs[2] as int - 0x80) * 0x40 + (bs[3] as int - 0x80);
    }
  }

  lemma {:induction false} OneByte(c: nat)
    requires c < 0x80
    ensures Encoded(c) == [c]
  {
  }

  lemma {:induction false} EncodedIsUtf8(cs: seq<nat>)
    requires AllScalar(cs)
    ensures Utf8(EncodedAll(cs))
  {
    if cs != [] {
      EncodedIsUtf8(cs[1..]);
      StepOfEncoded(cs[0], EncodedAll(cs[1..]));
      hide Encoded;
      hide Utf8Step;
      var bs := EncodedAll(cs);
      assert bs[Utf8Step(bs)..] == EncodedAll(cs[1..]);
    }
  }

  lemma {:induction false} Utf8Head(bs: Bytes)
    requires Utf8(bs) && bs != []
    ensures Utf8Step(bs) > 0 && Utf8(bs[Utf8Step(bs)..])
  {
    hide Utf8Step;
  }

  lemma {:induction false} EncodedCons(c: nat, cs: seq<nat>)
    requires Scalar(c) && AllScalar(cs)
    ensures AllScalar([c] + cs) && EncodedAll([c] + cs) == Encoded(c) + EncodedAll(cs)
  {
    hide Encoded;
    assert ([c] + cs)[1..] == cs;
  }

  lemma {:induction false} Utf8IsEncoded(bs: Bytes) returns (cs: seq<nat>)
    requires Utf8(bs)
    ensures AllScalar(cs) && EncodedAll(cs) == bs
    decreases |bs|
  {
    hide Encoded;
    hide Utf8Step;
    hide Scalar;
    hide Utf8;
    hide EncodedAll;
    hide AllScalar;
    if bs == [] {
      cs := [];
      NothingEncoded();
    } else {
      Utf8Head(bs);
      var c := StepIsEncoded(bs);
      var rest := Utf8IsEncoded(bs[Utf8Step(bs)..]);
      EncodedCons(c, rest);
      cs := [c] + rest;
      assert bs == bs[..Utf8Step(bs)] + bs[Utf8Step(bs)..];
    }
  }

  lemma {:induction false} NothingEncoded()
    ensures AllScalar([]) && EncodedAll([]) == []
  {
  }

  /** The decoder takes exactly the encodings of sequences of scalar values. */
  lemma {:induction false} Utf8Exact(bs: Bytes)
    ensures Utf8(bs) <==> exists cs :: AllScalar(cs) && EncodedAll(cs) == bs
  {
    if Utf8(bs) {
      var cs := Utf8IsEncoded(bs);
    }
    if cs :| AllScalar(cs) && EncodedAll(cs) == bs { EncodedIsUtf8(cs); }
  }

  // ---- order ---------------------------------------------------------------

  function CmpScalars(a: seq<nat>, b: seq<nat>): Order {
    if a == [] then (if b == [] then Equal else Less)
    else if b == [] then Greater
    else if a[0] != b[0] then CmpInt(a[0], b[0])
    else CmpScalars(a[1..], b[1..])
  }

  /** Of two scalars the smaller has the smaller byte where their encodings first differ. */
  lemma {:induction false} EncodedOrder(c: nat, d: nat) returns (k: nat)
    requires Scalar(c) && Scalar(d) && c < d
    ensures k < |Encoded(c)| && k < |Encoded(d)| && Encoded(c)[..k] == Encoded(d)[..k] && Encoded(c)[k] < Encoded(d)[k]
  {
    var (x, y) := (Encoded(c), Encoded(d));
    Lengths(c, d);
    if |x| != |y| {
      k := 0;
    } else if |x| == 1 {
      k := 0;
    } else if |x| == 2 {
      k := OrderOfTwo(c, d);
    } else if |x| == 3 {
      k := OrderOfThree(c, d);
    } else {
      k := OrderOfFour(c, d);
    }
  }

  /** A longer encoding starts with a greater byte. */
  lemma {:induction false} Lengths(c: nat, d: nat)
    requires Scalar(c) && Scalar(d) && c < d
    ensures |Encoded(c)| != |Encoded(d)| ==> Encoded(c)[0] < Encoded(d)[0]
    ensures |Encoded(c)| == |Encoded(d)| == 1 ==> Encoded(c)[0] < Encoded(d)[0]
    ensures |Encoded(c)| == (if c < 0x80 then 1 else if c < 0x800 then 2 else if c < 0x1_0000 then 3 else 4)
  {
  }

  lemma {:induction false} OrderOfTwo(c: nat, d: nat) returns (k: nat)
    requires 0x80 <= c < d < 0x800
    ensures k < 2 && Encoded(c)[..k] == Encoded(d)[..k] && Encoded(c)[k] < Encoded(d)[k]
  {
    k := if c / 0x40 < d / 0x40 then 0 else 1;
  }

  lemma {:induction false} OrderOfThree(c: nat, d: nat) returns (k: nat)
    requires Scalar(c) && Scalar(d) && 0x800 <= c < d < 0x1_0000
    ensures k < 3 && Encoded(c)[..k] == Encoded(d)[..k] && Encoded(c)[k] < Encoded(d)[k]
  {
    k := if c / 0x1000 < d / 0x1000 then 0 else if c / 0x40 < d / 0x40 then 1 else 2;
    assert c / 0x1000 == c / 0x40 / 0x40 && d / 0x1000 == d / 0x40 / 0x40;
  }

  lemma {:induction false} OrderOfFour(c: nat, d: nat) returns (k: nat)
    requires 0x1_0000 <= c < d < 0x11_0000
    ensures k < 4 && Encoded(c)[..k] == Encoded(d)[..k] && Encoded(c)[k] < Encoded(d)[k]
  {
    k := if c / 0x4_0000 < d / 0x4_0000 then 0 else if c / 0x1000 < d / 0x1000 then 1 else if c / 0x40 < d / 0x40 then 2 else 3;
    assert c / 0x1000 == c / 0x40 / 0x40 && d / 0x1000 == d / 0x40 / 0x40;
    assert c / 0x4_0000 == c / 0x1000 / 0x40 && d / 0x4_0000 == d / 0x1000 / 0x40;
  }

  lemma {:induction false} SamePrefix(p: Bytes, x: Bytes, y: Bytes)
    ensures CmpBytes(p + x, p + y) == CmpBytes(x, y)
  {
    if p == [] {
      assert p + x == x && p + y == y;
    } else {
      assert (p + x)[1..] == p[1..] + x && (p + y)[1..] == p[1..] + y;
      SamePrefix(p[1..], x, y);
    }
  }

  lemma {:induction false} FrontDecides(c: nat, d: nat, x: Bytes, y: Bytes)
    requires Scalar(c) && Scalar(d) && c < d
    ensures CmpBytes(Encoded(c) + x, Encoded(d) + y) == Less
  {
    var k := EncodedOrder(c, d);
    hide Encoded;
    var (a, b) := (Encoded(c) + x, Encoded(d) + y);
    assert a[..k] == Encoded(c)[..k] && b[..k] == Encoded(d)[..k] && a[k] == Encoded(c)[k] && b[k] == Encoded(d)[k];
    FirstByteDecides(a, b, k);
  }

  /** Texts are ordered by their code points. */
  lemma {:induction false} TextsByCodePoint(a: seq<nat>, b: seq<nat>)
    requires AllScalar(a) && AllScalar(b)
    ensures CmpBytes(EncodedAll(a), EncodedAll(b)) == CmpScalars(a, b)
  {
    hide Encoded;
    if a != [] && b != [] {
      var (x, y) := (EncodedAll(a[1..]), EncodedAll(b[1..]));
      if a[0] == b[0] {
        TextsByCodePoint(a[1..], b[1..]);
        SamePrefix(Encoded(a[0]), x, y);
      } else if a[0] < b[0] {
        FrontDecides(a[0], b[0], x, y);
      } else {
        FrontDecides(b[0], a[0], y, x);
        CmpBytesEqual(EncodedAll(b), EncodedAll(a));
      }
    }
  }
}
