/** The characters that a YAML stream may hold and their encodings, as section 3 of RFC 3629
    (UTF-8) and RFC 2781 (UTF-16) write them, against the decoder of reader.c. */
module YamlCharset {
  import opened Basics
  import opened KeyOrder

  datatype Encoding = Utf8 | Utf16LE | Utf16BE

  type Code = v: int | 0 <= v <= 0x10FFFF

  predicate YamlChar(v: nat) {
    v == 0x09 || v == 0x0A || v == 0x0D || 0x20 <= v <= 0x7E || v == 0x85 || 0xA0 <= v <= 0xD7FF ||
    0xE000 <= v <= 0xFFFD || 0x10000 <= v <= 0x10FFFF
  }

  ghost predicate YamlChars(cs: seq<Code>) {
    forall i :: 0 <= i < |cs| ==> YamlChar(cs[i])
  }

  // ---------- encoding ----------

  function EncodeUtf8(v: Code): (r: seq<Byte>)
    ensures 1 <= |r| <= 4
  {
    if v <= 0x7F then [v]
    else if v <= 0x7FF then [0xC0 + v / 64, 0x80 + v % 64]
    else if v <= 0xFFFF then [0xE0 + v / 4096, 0x80 + v / 64 % 64, 0x80 + v % 64]
    else [0xF0 + v / 262144, 0x80 + v / 4096 % 64, 0x80 + v / 64 % 64, 0x80 + v % 64]
  }

  function Unit(e: Encoding, u: nat): (r: seq<Byte>)
    requires u <= 0xFFFF
    ensures |r| == 2
  {
    if e == Utf16LE then [u % 256, u / 256] else [u / 256, u % 256]
  }

  /** One unit, or a surrogate pair for what does not fit in one. */
  function EncodeUtf16(e: Encoding, v: Code): (r: seq<Byte>)
    ensures 1 <= |r| <= 4
  {
    if v <= 0xFFFF then Unit(e, v)
    else Unit(e, 0xD800 + (v - 0x10000) / 1024) + Unit(e, 0xDC00 + (v - 0x10000) % 1024)
  }

  function Encode(e: Encoding, v: Code): (r: seq<Byte>)
    ensures 1 <= |r| <= 4
  {
    if e == Utf8 then EncodeUtf8(v) else EncodeUtf16(e, v)
  }

  ghost function EncodeAll(e: Encoding, cs: seq<Code>): seq<Byte> {
    if cs == [] then [] else Encode(e, cs[0]) + EncodeAll(e, cs[1..])
  }

  // ---------- decoding one character ----------

  /** The character at the front of the bytes at hand; `More` asks for more of them. */
  datatype Front = Char(value: Code, width: nat) | Bad | More

  function Width(octet: Byte): nat {
    if octet < 0x80 then 1
    else if 0xC0 <= octet < 0xE0 then 2
    else if 0xE0 <= octet < 0xF0 then 3
    else if 0xF0 <= octet < 0xF8 then 4
    else 0
  }

  function Lead(octet: Byte): nat {
    if octet < 0x80 then octet else if octet < 0xE0 then octet % 32 else if octet < 0xF0 then octet % 16 else octet % 8
  }

  /** Adds the octets from k on to the value. */
  function Trail(s: seq<Byte>, k: nat, width: nat, value: nat): Option<nat>
    requires k <= width <= |s|
    decreases width - k
  {
    if k == width then Some(value)
    else if s[k] / 64 != 2 then None
    else Trail(s, k + 1, width, value * 64 + s[k] % 64)
  }

  predicate LengthOk(width: nat, value: nat) {
    width == 1 || (width == 2 && value >= 0x80) || (width == 3 && value >= 0x800) || (width == 4 && value >= 0x10000)
  }

  function Checked(value: nat, width: nat): Front {
    if YamlChar(value) then Char(value, width) else Bad
  }

  function OneUtf8(s: seq<Byte>, eof: bool): Front
    requires s != []
  {
    var width := Width(s[0]);
    if width == 0 then Bad
    else if width > |s| then (if eof then Bad else More)
    else
      var value := Trail(s, 1, width, Lead(s[0]));
      if value.None? || !LengthOk(width, value.value) || 0xD800 <= value.value <= 0xDFFF ||
        value.value > 0x10FFFF then Bad
      else Checked(value.value, width)
  }

  function UnitAt(e: Encoding, s: seq<Byte>, i: nat): nat
    requires i + 1 < |s|
  {
    var first: int, second: int := s[i], s[i + 1];
    if e == Utf16LE then first + second * 256 else second + first * 256
  }

  function OneUtf16(e: Encoding, s: seq<Byte>, eof: bool): Front
    requires s != []
  {
    if |s| < 2 then (if eof then Bad else More)
    else
      var value := UnitAt(e, s, 0);
      if value / 1024 == 0x37 then Bad
      else if value / 1024 == 0x36 then
        if |s| < 4 then (if eof then Bad else More)
        else
          var value2 := UnitAt(e, s, 2);
          if value2 / 1024 != 0x37 then Bad
          else Checked(0x10000 + value % 1024 * 1024 + value2 % 1024, 4)
      else Checked(value, 2)
  }

  function One(e: Encoding, s: seq<Byte>, eof: bool): Front
    requires s != []
  {
    if e == Utf8 then OneUtf8(s, eof) else OneUtf16(e, s, eof)
  }

  // ---------- decoding one character is the inverse of encoding it ----------

  lemma {:induction false} TrailTwo(s: seq<Byte>, value: nat)
    requires 2 <= |s|
    ensures Trail(s, 1, 2, value) == if s[1] / 64 != 2 then None else Some(value * 64 + s[1] % 64)
  {
  }

  lemma {:induction false} TrailThree(s: seq<Byte>, value: nat)
    requires 3 <= |s|
    ensures Trail(s, 1, 3, value) ==
            if s[1] / 64 != 2 || s[2] / 64 != 2 then None else Some((value * 64 + s[1] % 64) * 64 + s[2] % 64)
  {
    if s[1] / 64 == 2 {
      assert Trail(s, 1, 3, value) == Trail(s, 2, 3, value * 64 + s[1] % 64);
    }
  }

  lemma {:induction false} TrailFour(s: seq<Byte>, value: nat)
    requires 4 <= |s|
    ensures Trail(s, 1, 4, value) ==
            if s[1] / 64 != 2 || s[2] / 64 != 2 || s[3] / 64 != 2 then None
            else Some(((value * 64 + s[1] % 64) * 64 + s[2] % 64) * 64 + s[3] % 64)
  {
    if s[1] / 64 == 2 {
      var v := value * 64 + s[1] % 64;
      assert Trail(s, 1, 4, value) == Trail(s, 2, 4, v);
      if s[2] / 64 == 2 {
        assert Trail(s, 2, 4, v) == Trail(s, 3, 4, v * 64 + s[2] % 64);
      }
    }
  }

  /** An octet that follows carries six bits. */
  lemma {:induction false} SixBits(o: Byte, x: nat)
    requires x < 64
    ensures o == 0x80 + x <==> o / 64 == 2 && o % 64 == x
  {
  }

  lemma {:induction false} LeadBits(o: Byte)
    ensures Width(o) == 2 <==> 0xC0 <= o && o - 0xC0 < 32
    ensures Width(o) == 3 <==> 0xE0 <= o && o - 0xE0 < 16
    ensures Width(o) == 4 <==> 0xF0 <= o && o - 0xF0 < 8
    ensures Width(o) == 2 ==> Lead(o) == o - 0xC0
    ensures Width(o) == 3 ==> Lead(o) == o - 0xE0
    ensures Width(o) == 4 ==> Lead(o) == o - 0xF0
  {
  }

  /** Two, three or four groups of bits make up a value, and only one. */
  lemma {:induction false} TwoGroups(v: nat, a: nat, b: nat)
    requires b < 64
    ensures v == a * 64 + b <==> v / 64 == a && v % 64 == b
  {
  }

  lemma {:induction false} ThreeGroups(v: nat, a: nat, b: nat, c: nat)
    requires b < 64 && c < 64
    ensures v == (a * 64 + b) * 64 + c <==> v / 4096 == a && v / 64 % 64 == b && v % 64 == c
  {
    TwoGroups(v, a * 64 + b, c);
    TwoGroups(v / 64, a, b);
    assert v / 4096 == v / 64 / 64;
  }

  lemma {:induction false} FourGroups(v: nat, a: nat, b: nat, c: nat, d: nat)
    requires b < 64 && c < 64 && d < 64
    ensures v == ((a * 64 + b) * 64 + c) * 64 + d <==>
            v / 262144 == a && v / 4096 % 64 == b && v / 64 % 64 == c && v % 64 == d
  {
    TwoGroups(v, (a * 64 + b) * 64 + c, d);
    ThreeGroups(v / 64, a, b, c);
    assert v / 262144 == v / 64 / 4096 && v / 4096 == v / 64 / 64;
  }

  /** The bytes at the front are the encoding of a character exactly when they decode to it. */
  lemma {:induction false} TwoOctets(s: seq<Byte>, v: Code, eof: bool)
    requires 2 <= |s| && YamlChar(v) && 0x80 <= v <= 0x7FF
    ensures OneUtf8(s, eof) == Char(v, 2) <==> s[0] == 0xC0 + v / 64 && s[1] == 0x80 + v % 64
  {
    hide Trail, Width, Lead;
    LeadBits(s[0]);
    TrailTwo(s, Lead(s[0]));
    SixBits(s[1], s[1] % 64);
    SixBits(s[1], v % 64);
    if Width(s[0]) == 2 {
      TwoGroups(v, Lead(s[0]), s[1] % 64);
    }
  }

  lemma {:induction false} ThreeOctets(s: seq<Byte>, v: Code, eof: bool)
    requires 3 <= |s| && YamlChar(v) && 0x800 <= v <= 0xFFFF
    ensures OneUtf8(s, eof) == Char(v, 3) <==>
            s[0] == 0xE0 + v / 4096 && s[1] == 0x80 + v / 64 % 64 && s[2] == 0x80 + v % 64
  {
    hide Trail, Width, Lead;
    LeadBits(s[0]);
    TrailThree(s, Lead(s[0]));
    SixBits(s[1], s[1] % 64);
    SixBits(s[2], s[2] % 64);
    SixBits(s[1], v / 64 % 64);
    SixBits(s[2], v % 64);
    if Width(s[0]) == 3 {
      ThreeGroups(v, Lead(s[0]), s[1] % 64, s[2] % 64);
    }
  }

  lemma {:induction false} FourOctets(s: seq<Byte>, v: Code, eof: bool)
    requires 4 <= |s| && 0x10000 <= v
    ensures OneUtf8(s, eof) == Char(v, 4) <==>
            s[0] == 0xF0 + v / 262144 && s[1] == 0x80 + v / 4096 % 64 && s[2] == 0x80 + v / 64 % 64 &&
            s[3] == 0x80 + v % 64
  {
    hide Trail, Width, Lead;
    LeadBits(s[0]);
    TrailFour(s, Lead(s[0]));
    SixBits(s[1], s[1] % 64);
    SixBits(s[2], s[2] % 64);
    SixBits(s[3], s[3] % 64);
    SixBits(s[1], v / 4096 % 64);
    SixBits(s[2], v / 64 % 64);
    SixBits(s[3], v % 64);
    if Width(s[0]) == 4 {
      FourGroups(v, Lead(s[0]), s[1] % 64, s[2] % 64, s[3] % 64);
    }
  }

  lemma {:induction false} Utf8Complete(v: Code, rest: seq<Byte>, eof: bool)
    requires YamlChar(v)
    ensures OneUtf8(EncodeUtf8(v) + rest, eof) == Char(v, |EncodeUtf8(v)|)
  {
    var s := EncodeUtf8(v) + rest;
    if v > 0x7F {
      hide OneUtf8, YamlChar;
      assert forall i :: 0 <= i < |EncodeUtf8(v)| ==> s[i] == EncodeUtf8(v)[i];
      if v <= 0x7FF {
        TwoOctets(s, v, eof);
      } else if v <= 0xFFFF {
        ThreeOctets(s, v, eof);
      } else {
        FourOctets(s, v, eof);
      }
    }
  }

  lemma {:induction false} WidthTells(s: seq<Byte>, eof: bool)
    requires s != [] && OneUtf8(s, eof).Char?
    ensures var r := OneUtf8(s, eof);
            YamlChar(r.value) && r.width == Width(s[0]) <= |s| && LengthOk(r.width, r.value) && r.value <= 0x10FFFF
    ensures var r := OneUtf8(s, eof);
            (r.width == 1 ==> r.value == s[0] < 0x80) && (r.width == 2 ==> r.value <= 0x7FF) &&
            (r.width == 3 ==> r.value <= 0xFFFF)
  {
    hide YamlChar;
    var r := OneUtf8(s, eof);
    if r.width == 2 {
      TrailTwo(s, Lead(s[0]));
    } else if r.width == 3 {
      TrailThree(s, Lead(s[0]));
    }
  }

  lemma {:induction false} Utf8Sound(s: seq<Byte>, eof: bool)
    requires s != [] && OneUtf8(s, eof).Char?
    ensures var r := OneUtf8(s, eof);
            YamlChar(r.value) && r.width <= |s| && s[..r.width] == EncodeUtf8(r.value)
  {
    hide OneUtf8, YamlChar, Trail;
    var r := OneUtf8(s, eof);
    WidthTells(s, eof);
    if r.width == 2 {
      TwoOctets(s, r.value, eof);
    } else if r.width == 3 {
      ThreeOctets(s, r.value, eof);
    } else if r.width == 4 {
      FourOctets(s, r.value, eof);
    }
  }

  lemma {:induction false} UnitBits(e: Encoding, s: seq<Byte>, i: nat, u: nat)
    requires i + 1 < |s| && u <= 0xFFFF
    ensures UnitAt(e, s, i) <= 0xFFFF
    ensures UnitAt(e, s, i) == u <==> s[i] == Unit(e, u)[0] && s[i + 1] == Unit(e, u)[1]
  {
  }

  /** A surrogate pair carries twenty bits, ten in each unit. */
  lemma {:induction false} Surrogates(v: Code, high: nat, low: nat)
    requires 0x10000 <= v && high <= 0xFFFF && low <= 0xFFFF
    ensures high / 1024 == 0x36 && low / 1024 == 0x37 && v == 0x10000 + high % 1024 * 1024 + low % 1024 <==>
            high == 0xD800 + (v - 0x10000) / 1024 && low == 0xDC00 + (v - 0x10000) % 1024
  {
  }

  lemma {:induction false} Utf16Complete(e: Encoding, v: Code, rest: seq<Byte>, eof: bool)
    requires YamlChar(v)
    ensures OneUtf16(e, EncodeUtf16(e, v) + rest, eof) == Char(v, |EncodeUtf16(e, v)|)
  {
    hide Unit, UnitAt;
    var s := EncodeUtf16(e, v) + rest;
    if v <= 0xFFFF {
      UnitBits(e, s, 0, v);
    } else {
      var high, low := 0xD800 + (v - 0x10000) / 1024, 0xDC00 + (v - 0x10000) % 1024;
      UnitBits(e, s, 0, high);
      UnitBits(e, s, 2, low);
      Surrogates(v, high, low);
    }
  }

  lemma {:induction false} Utf16Sound(e: Encoding, s: seq<Byte>, eof: bool)
    requires s != [] && OneUtf16(e, s, eof).Char?
    ensures var r := OneUtf16(e, s, eof);
            YamlChar(r.value) && r.width <= |s| && s[..r.width] == EncodeUtf16(e, r.value)
  {
    hide Unit, UnitAt;
    var r := OneUtf16(e, s, eof);
    UnitBits(e, s, 0, 0);
    var u := UnitAt(e, s, 0);
    UnitBits(e, s, 0, u);
    if r.width == 4 {
      UnitBits(e, s, 2, 0);
      var w := UnitAt(e, s, 2);
      UnitBits(e, s, 2, w);
      Surrogates(r.value, u, w);
    }
  }

  lemma {:induction false} Complete(e: Encoding, v: Code, rest: seq<Byte>, eof: bool)
    requires YamlChar(v)
    ensures One(e, Encode(e, v) + rest, eof) == Char(v, |Encode(e, v)|)
  {
    if e == Utf8 {
      Utf8Complete(v, rest, eof);
    } else {
      Utf16Complete(e, v, rest, eof);
    }
  }

  lemma {:induction false} Sound(e: Encoding, s: seq<Byte>, eof: bool)
    requires s != [] && One(e, s, eof).Char?
    ensures var r := One(e, s, eof);
            YamlChar(r.value) && r.width <= |s| && s[..r.width] == Encode(e, r.value)
  {
    if e == Utf8 {
      Utf8Sound(s, eof);
    } else {
      Utf16Sound(e, s, eof);
    }
  }

  lemma {:induction false} TrailLonger(s: seq<Byte>, more: seq<Byte>, k: nat, width: nat, value: nat)
    requires k <= width <= |s|
    ensures Trail(s + more, k, width, value) == Trail(s, k, width, value)
    decreases width - k
  {
    if k < width && s[k] / 64 == 2 {
      TrailLonger(s, more, k + 1, width, value * 64 + s[k] % 64);
    }
  }

  /** What the bytes at hand show does not change when more arrive or the input ends. */
  lemma {:induction false} Stable(e: Encoding, s: seq<Byte>, more: seq<Byte>, eof: bool)
    requires s != [] && One(e, s, false) != More
    ensures One(e, s + more, eof) == One(e, s, false)
  {
    if e == Utf8 {
      var width := Width(s[0]);
      if 0 < width <= |s| {
        TrailLonger(s, more, 1, width, Lead(s[0]));
      }
    }
  }

  /** More bytes are asked for only while fewer than four are at hand, and never at the end. */
  lemma {:induction false} Asks(e: Encoding, s: seq<Byte>)
    requires s != []
    ensures One(e, s, false) == More ==> |s| < 4 && One(e, s, true) == Bad
    ensures One(e, s, true) != More
  {
  }

  // ---------- decoding everything ----------

  ghost function Decode(e: Encoding, s: seq<Byte>): Option<seq<Code>>
    decreases |s|
  {
    if s == [] then Some([])
    else
      var r := One(e, s, true);
      if !r.Char? then None
      else
        Sound(e, s, true);
        var rest := Decode(e, s[r.width..]);
        if rest.None? then None else Some([r.value] + rest.value)
  }

  lemma {:induction false} DecodeStep(e: Encoding, v: Code, rest: seq<Byte>)
    requires YamlChar(v)
    ensures Decode(e, Encode(e, v) + rest) ==
            var ds := Decode(e, rest); if ds.None? then None else Some([v] + ds.value)
  {
    Complete(e, v, rest, true);
    assert (Encode(e, v) + rest)[|Encode(e, v)|..] == rest;
  }

  /** Decoding goes on after the characters that are already decoded. */
  lemma {:induction false} DecodeOn(e: Encoding, cs: seq<Code>, rest: seq<Byte>)
    requires YamlChars(cs)
    ensures Decode(e, EncodeAll(e, cs) + rest) ==
            var ds := Decode(e, rest); if ds.None? then None else Some(cs + ds.value)
  {
    hide Decode, Encode;
    if cs == [] {
      assert EncodeAll(e, cs) + rest == rest;
      assert forall ds: seq<Code> :: cs + ds == ds;
    } else {
      var tail := EncodeAll(e, cs[1..]) + rest;
      assert EncodeAll(e, cs) + rest == Encode(e, cs[0]) + tail;
      DecodeStep(e, cs[0], tail);
      DecodeOn(e, cs[1..], rest);
      var ds := Decode(e, rest);
      if ds.Some? {
        assert [cs[0]] + (cs[1..] + ds.value) == cs + ds.value;
      }
    }
  }

  lemma {:induction false} DecodeYields(e: Encoding, s: seq<Byte>)
    requires Decode(e, s).Some?
    ensures YamlChars(Decode(e, s).value) && EncodeAll(e, Decode(e, s).value) == s
    decreases |s|
  {
    hide Encode, One;
    if s != [] {
      var r := One(e, s, true);
      Sound(e, s, true);
      DecodeYields(e, s[r.width..]);
      var cs := Decode(e, s).value;
      assert cs[1..] == Decode(e, s[r.width..]).value;
      assert s == s[..r.width] + s[r.width..];
    }
  }

  /** The decoder accepts exactly the encodings of YAML characters, and gives them back. */
  lemma {:induction false} DecodeIff(e: Encoding, s: seq<Byte>, cs: seq<Code>)
    ensures Decode(e, s) == Some(cs) <==> YamlChars(cs) && EncodeAll(e, cs) == s
  {
    if Decode(e, s) == Some(cs) {
      DecodeYields(e, s);
    }
    if YamlChars(cs) && EncodeAll(e, cs) == s {
      DecodeOn(e, cs, []);
      assert s + [] == s && cs + [] == cs;
    }
  }

  lemma {:induction false} EncodeAppend(e: Encoding, a: seq<Code>, b: seq<Code>)
    ensures EncodeAll(e, a + b) == EncodeAll(e, a) + EncodeAll(e, b)
  {
    hide Encode;
    if a == [] {
      assert a + b == b;
    } else {
      EncodeAppend(e, a[1..], b);
      assert (a + b)[1..] == a[1..] + b;
    }
  }
}
