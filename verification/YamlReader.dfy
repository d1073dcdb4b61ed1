/** The YAML reader: bytes arrive in pieces of any size, are decoded as they come, and are
    kept as UTF-8 until the scanner takes them. How they were split does not matter. */
module YamlReader {
  import opened Basics
  import opened KeyOrder
  import opened YamlCharset

  const RAW_SIZE := 16384
  const BUFFER_SIZE := 3 * RAW_SIZE
  /** The most characters that the scanner may ask for at once. */
  const MAX_LENGTH := 6144
  const MAX_FILE_SIZE := 0x7FFF_FFFF_FFFF_FFFF

  // ---------- what the whole input decodes to ----------

  datatype Found = Found(encoding: Encoding, skip: nat)

  /** The encoding that the first bytes show, and how many of them only mark it. */
  function Detect(s: seq<Byte>): (r: Found)
    ensures r.skip <= |s|
  {
    if 2 <= |s| && s[0] == 0xFF && s[1] == 0xFE then Found(Utf16LE, 2)
    else if 2 <= |s| && s[0] == 0xFE && s[1] == 0xFF then Found(Utf16BE, 2)
    else if 3 <= |s| && s[0] == 0xEF && s[1] == 0xBB && s[2] == 0xBF then Found(Utf8, 3)
    else Found(Utf8, 0)
  }

  /** The characters of an input that is at hand as a whole. */
  ghost function OneShot(total: seq<Byte>): Option<seq<Code>> {
    Decode(Detect(total).encoding, total[Detect(total).skip..])
  }

  /** For UTF-8, what is kept is what was read. */
  lemma {:induction false} Utf8Unchanged(total: seq<Byte>)
    requires Detect(total).encoding == Utf8 && OneShot(total).Some?
    ensures EncodeAll(Utf8, OneShot(total).value) == total[Detect(total).skip..]
  {
    DecodeYields(Utf8, total[Detect(total).skip..]);
  }

  const BYTE_ORDER_MARK: Code := 0xFEFF

  /** A byte order mark shows the encoding that it is written in; without one it is UTF-8. */
  lemma {:induction false} Detects(e: Encoding, s: seq<Byte>)
    ensures Encode(e, BYTE_ORDER_MARK) <= s ==> Detect(s) == Found(e, |Encode(e, BYTE_ORDER_MARK)|)
    ensures (forall e' :: !(Encode(e', BYTE_ORDER_MARK) <= s)) ==> Detect(s) == Found(Utf8, 0)
  {
    MarkBytes(s);
  }

  lemma {:induction false} MarkBytes(s: seq<Byte>)
    ensures Encode(Utf16LE, BYTE_ORDER_MARK) <= s <==> 2 <= |s| && s[0] == 0xFF && s[1] == 0xFE
    ensures Encode(Utf16BE, BYTE_ORDER_MARK) <= s <==> 2 <= |s| && s[0] == 0xFE && s[1] == 0xFF
    ensures Encode(Utf8, BYTE_ORDER_MARK) <= s <==> 3 <= |s| && s[0] == 0xEF && s[1] == 0xBB && s[2] == 0xBF
    ensures |Encode(Utf8, BYTE_ORDER_MARK)| == 3 && |Encode(Utf16LE, BYTE_ORDER_MARK)| == 2
    ensures |Encode(Utf16BE, BYTE_ORDER_MARK)| == 2
  {
    assert Encode(Utf16LE, BYTE_ORDER_MARK) == [0xFF, 0xFE];
    assert Encode(Utf16BE, BYTE_ORDER_MARK) == [0xFE, 0xFF];
    assert Encode(Utf8, BYTE_ORDER_MARK) == [0xEF, 0xBB, 0xBF];
  }

  /** Text behind a byte order mark, in any encoding, is read as it was written. */
  lemma {:induction false} MarkedReads(e: Encoding, cs: seq<Code>)
    requires YamlChars(cs)
    ensures OneShot(EncodeAll(e, [BYTE_ORDER_MARK] + cs)) == Some(cs)
  {
    hide Detect, Encode, Decode, YamlChars;
    var mark, s := Encode(e, BYTE_ORDER_MARK), EncodeAll(e, [BYTE_ORDER_MARK] + cs);
    assert s == mark + EncodeAll(e, cs) by {
      assert ([BYTE_ORDER_MARK] + cs)[1..] == cs;
    }
    Detects(e, s);
    assert s[|mark|..] == EncodeAll(e, cs);
    DecodeIff(e, EncodeAll(e, cs), cs);
  }

  /** Text in UTF-8 without a byte order mark is read as it was written. */
  lemma {:induction false} PlainReads(cs: seq<Code>)
    requires YamlChars(cs) && (cs != [] ==> cs[0] != BYTE_ORDER_MARK)
    ensures OneShot(EncodeAll(Utf8, cs)) == Some(cs)
  {
    var s := EncodeAll(Utf8, cs);
    if cs != [] {
      FirstOctets(cs[0], EncodeAll(Utf8, cs[1..]));
    }
    hide Encode, Decode, YamlChars;
    assert s[0..] == s;
    DecodeIff(Utf8, s, cs);
  }

  lemma {:induction false} FirstOctets(v: Code, rest: seq<Byte>)
    requires v != BYTE_ORDER_MARK
    ensures Detect(EncodeUtf8(v) + rest) == Found(Utf8, 0)
  {
    var s := EncodeUtf8(v) + rest;
    assert s[0] == EncodeUtf8(v)[0] <= 0xF4;
    if s[0] == 0xEF {
      assert s[1] == EncodeUtf8(v)[1] && s[2] == EncodeUtf8(v)[2];
      ThreeGroups(v, 15, s[1] % 64, s[2] % 64);
    }
  }

  // ---------- how far the reader has come ----------

  /** The characters `out` are decoded from the first `offset` bytes; `rest` are the others. */
  ghost predicate Progress(total: seq<Byte>, e: Option<Encoding>, out: seq<Code>, offset: nat, rest: seq<Byte>) {
    offset + |rest| == |total| && total[offset..] == rest &&
    if e.None? then offset == 0 && out == []
    else
      Detect(total).encoding == e.value && YamlChars(out) && Detect(total).skip <= offset &&
      total[Detect(total).skip..offset] == EncodeAll(e.value, out)
  }

  lemma {:induction false} DetectEarly(raw: seq<Byte>, input: seq<Byte>)
    requires 3 <= |raw| || input == []
    ensures Detect(raw + input) == Detect(raw)
  {
    if input == [] {
      assert raw + input == raw;
    }
  }

  lemma {:induction false} ProgressFound(total: seq<Byte>, raw: seq<Byte>, input: seq<Byte>)
    requires Progress(total, None, [], 0, raw + input) && (3 <= |raw| || input == [])
    ensures var f := Detect(raw);
      f.skip <= |raw| && Progress(total, Some(f.encoding), [], f.skip, raw[f.skip..] + input)
  {
    DetectEarly(raw, input);
    assert total[0..] == total;
    var f := Detect(raw);
    assert (raw + input)[f.skip..] == raw[f.skip..] + input;
    assert total[f.skip..f.skip] == [];
  }

  /** One character further. */
  lemma {:induction false} ProgressStep(total: seq<Byte>, e: Encoding, out: seq<Code>, offset: nat, raw: seq<Byte>,
                                        input: seq<Byte>, eof: bool)
    requires Progress(total, Some(e), out, offset, raw + input) && raw != [] && One(e, raw, eof).Char?
    ensures var r := One(e, raw, eof);
            r.width <= |raw| && r.width == |Encode(e, r.value)| && YamlChar(r.value) &&
            Progress(total, Some(e), out + [r.value], offset + r.width, raw[r.width..] + input)
  {
    hide One, Encode;
    var r := One(e, raw, eof);
    Sound(e, raw, eof);
    var w, skip := r.width, Detect(total).skip;
    assert (raw + input)[w..] == raw[w..] + input;
    assert total[offset + w..] == total[offset..][w..];
    assert total[offset..offset + w] == total[offset..][..w] == raw[..w];
    assert total[skip..offset + w] == total[skip..offset] + total[offset..offset + w];
    EncodeAppend(e, out, [r.value]);
    EncodeOne(e, r.value);
  }

  lemma {:induction false} EncodeOne(e: Encoding, v: Code)
    ensures EncodeAll(e, [v]) == Encode(e, v)
  {
    hide Encode;
    assert [v][1..] == [];
  }

  /** The rest of the input decides the rest of the characters. */
  lemma {:induction false} ProgressDecode(total: seq<Byte>, e: Encoding, out: seq<Code>, offset: nat, rest: seq<Byte>)
    requires Progress(total, Some(e), out, offset, rest)
    ensures OneShot(total) == var ds := Decode(e, rest); if ds.None? then None else Some(out + ds.value)
  {
    hide Decode;
    var skip := Detect(total).skip;
    assert total[skip..] == total[skip..offset] + total[offset..];
    DecodeOn(e, out, rest);
  }

  /** A character that cannot be decoded now cannot be decoded at all. */
  lemma {:induction false} ProgressBad(total: seq<Byte>, e: Encoding, out: seq<Code>, offset: nat, raw: seq<Byte>,
                                       input: seq<Byte>, eof: bool)
    requires Progress(total, Some(e), out, offset, raw + input) && raw != [] && One(e, raw, eof) == Bad
    requires eof ==> input == []
    ensures OneShot(total).None?
  {
    hide One, Progress;
    if eof {
      assert raw + input == raw;
    } else {
      Stable(e, raw, input, true);
    }
    assert Decode(e, raw + input).None?;
    ProgressDecode(total, e, out, offset, raw + input);
  }

  lemma {:induction false} ProgressEnd(total: seq<Byte>, e: Encoding, out: seq<Code>, offset: nat)
    requires Progress(total, Some(e), out, offset, [])
    ensures OneShot(total) == Some(out)
  {
    hide Progress;
    ProgressDecode(total, e, out, offset, []);
    assert out + [] == out;
  }

  // ---------- what the scanner finds in the buffer ----------

  /** The characters not taken yet, and the NUL that closes the input. */
  ghost function Kept(out: seq<Code>, seen: nat, closed: bool): seq<Byte>
    requires seen <= |out|
  {
    EncodeAll(Utf8, out[seen..]) + if closed then [0] else []
  }

  lemma {:induction false} Size(e: Encoding, cs: seq<Code>)
    ensures |cs| <= |EncodeAll(e, cs)| <= 4 * |cs|
  {
    if cs != [] {
      Size(e, cs[1..]);
    }
  }

  /** Two bytes of UTF-16 become at most three of UTF-8. */
  lemma {:induction false} Growth(e: Encoding, v: Code)
    ensures 2 * |EncodeUtf8(v)| <= 3 * |Encode(e, v)|
  {
  }

  lemma {:induction false} KeptMore(out: seq<Code>, seen: nat, v: Code)
    requires seen <= |out|
    ensures Kept(out + [v], seen, false) == Kept(out, seen, false) + EncodeUtf8(v)
  {
    hide EncodeAll;
    assert (out + [v])[seen..] == out[seen..] + [v];
    EncodeAppend(Utf8, out[seen..], [v]);
    EncodeOne(Utf8, v);
    assert Encode(Utf8, v) == EncodeUtf8(v);
  }

  /** The first character of the buffer tells its own width, and is NUL only at the end. */
  lemma {:induction false} KeptFirst(out: seq<Code>, seen: nat, closed: bool)
    requires seen < |out| && YamlChar(out[seen])
    ensures var c := EncodeUtf8(out[seen]);
      Width(c[0]) == |c| && c[0] != 0 && Kept(out, seen, closed) == c + Kept(out, seen + 1, closed)
  {
    assert out[seen..][1..] == out[seen + 1..];
    assert Encode(Utf8, out[seen]) == EncodeUtf8(out[seen]);
  }

  // ---------- the reader ----------

  method MoveDown(a: array<Byte>, from: nat, to: nat)
    requires from <= to <= a.Length
    modifies a
    ensures a[..to - from] == old(a[from..to])
  {
    forall i | 0 <= i < to - from {
      a[i] := a[from + i];
    }
  }

  method CopyIn(a: array<Byte>, at: nat, s: seq<Byte>)
    requires at + |s| <= a.Length
    modifies a
    ensures a[..at] == old(a[..at]) && a[at..at + |s|] == s
  {
    forall i | 0 <= i < |s| {
      a[at + i] := s[i];
    }
  }

  lemma {:induction false} Regroup(a: seq<Byte>, b: seq<Byte>, n: nat)
    requires n <= |b|
    ensures a + b[..n] + b[n..] == a + b
  {
  }

  class Reader {
    const raw: array<Byte>
    var rawPointer: nat
    var rawLast: nat
    const buffer: array<Byte>
    var pointer: nat
    var last: nat
    var unread: nat
    var offset: nat
    var eof: bool
    var encoding: Option<Encoding>
    /** What the read handler has not given yet. */
    var input: seq<Byte>
    /** How many bytes its calls will give, or that they fail; then all that fits. */
    var sizes: seq<Option<nat>>
    var inputFailed: bool
    ghost const total: seq<Byte>
    /** The characters decoded so far, those among them that are taken, and whether the
        closing NUL is written. */
    ghost var out: seq<Code>
    ghost var seen: nat
    ghost var closed: bool

    ghost predicate Shape()
      reads this
    {
      raw.Length == RAW_SIZE && buffer.Length == BUFFER_SIZE && raw != buffer &&
      rawPointer <= rawLast <= RAW_SIZE && pointer <= last <= BUFFER_SIZE && (eof ==> input == [])
    }

    ghost function RawBytes(): seq<Byte>
      requires Shape()
      reads this, raw
    {
      raw[rawPointer..rawLast]
    }

    ghost function Held(): seq<Byte>
      requires Shape()
      reads this, buffer
    {
      buffer[pointer..last]
    }

    /** What holds while the buffer is being filled. */
    ghost predicate Filling()
      reads this, raw, buffer
    {
      Shape() && Progress(total, encoding, out, offset, RawBytes() + input) &&
      seen <= |out| && Held() == Kept(out, seen, closed) && unread == |out| - seen + (if closed then 1 else 0)
    }

    /** What holds between two calls. */
    ghost predicate Valid()
      reads this, raw, buffer
    {
      Filling() && (eof <==> closed) && (closed ==> encoding.Some? && rawPointer == rawLast)
    }

    constructor (total: seq<Byte>, sizes: seq<Option<nat>>)
      ensures Valid() && fresh(raw) && fresh(buffer) && this.total == total && !inputFailed
      ensures out == [] && seen == 0 && unread == 0
    {
      raw, buffer := new Byte[RAW_SIZE], new Byte[BUFFER_SIZE];
      rawPointer, rawLast, pointer, last, unread, offset, eof, encoding := 0, 0, 0, 0, 0, 0, false, None;
      input, this.sizes, inputFailed, this.total, out, seen, closed := total, sizes, false, total, [], 0, false;
      new;
      assert RawBytes() == [] && RawBytes() + input == total == total[0..];
      assert Held() == [] && out[0..] == [];
    }

    /** Moves what is left of the raw bytes to the front and has the handler add to them. */
    method UpdateRawBuffer() returns (ok: bool)
      requires Shape()
      modifies this`rawPointer, this`rawLast, this`eof, this`input, this`sizes, this`inputFailed, raw
      ensures ok ==> Shape() && RawBytes() + input == old(RawBytes() + input) && inputFailed == old(inputFailed)
      ensures ok ==> eof || |input| < |old(input)| || |old(RawBytes())| == RAW_SIZE
      ensures ok && old(eof) ==> eof && RawBytes() == old(RawBytes())
      ensures |input| <= |old(input)|
      ensures !ok ==> inputFailed
    {
      if (rawPointer == 0 && rawLast == RAW_SIZE) || eof {
        return true;
      }
      if 0 < rawPointer < rawLast {
        MoveDown(raw, rawPointer, rawLast);
      }
      assert raw[..rawLast - rawPointer] == old(RawBytes());
      rawPointer, rawLast := 0, rawLast - rawPointer;
      assert RawBytes() == raw[..rawLast];
      ok := Fill();
    }

    /** The read handler adds to the raw bytes; nothing more to give is the end of the input. */
    method Fill() returns (ok: bool)
      requires Shape() && rawPointer == 0 && rawLast < RAW_SIZE
      modifies this`rawLast, this`eof, this`input, this`sizes, this`inputFailed, raw
      ensures ok ==> Shape() && RawBytes() + input == old(RawBytes() + input) && inputFailed == old(inputFailed)
      ensures ok ==> eof || |input| < |old(input)|
      ensures |input| <= |old(input)|
      ensures !ok ==> inputFailed
    {
      ghost var was := RawBytes();
      var wanted := Some(RAW_SIZE);
      if sizes != [] {
        wanted, sizes := sizes[0], sizes[1..];
      }
      if wanted.None? {
        inputFailed := true;
        return false;
      }
      var n := rawLast;
      var given := Given(wanted.value, RAW_SIZE - n, |input|);
      CopyIn(raw, n, input[..given]);
      rawLast := n + given;
      assert RawBytes() == raw[..n] + raw[n..n + given];
      Regroup(was, input, given);
      input := input[given..];
      if given == 0 {
        eof := true;
      }
      ok := true;
    }

    /** Waits for the first bytes, and finds the encoding of the whole input. */
    method DetermineEncoding() returns (ok: bool)
      requires Filling() && encoding.None? && !closed
      modifies this`rawPointer, this`rawLast, this`eof, this`input, this`sizes, this`inputFailed, this`offset,
               this`encoding, raw
      ensures ok ==> Filling() && encoding.Some? && inputFailed == old(inputFailed) && |input| <= |old(input)|
      ensures !ok ==> inputFailed
    {
      hide Progress, Kept;
      while !eof && rawLast - rawPointer < 3
        invariant Filling() && encoding.None? && inputFailed == old(inputFailed) && |input| <= |old(input)|
        invariant raw != buffer && Held() == old(Held())
        decreases |input| + (if eof then 0 else 1)
      {
        ok := UpdateRawBuffer();
        if !ok {
          return;
        }
      }
      SkipMark();
      ok := true;
    }

    /** With three bytes at hand, or all there are, the encoding is found and its mark skipped. */
    method SkipMark()
      requires Filling() && encoding.None? && !closed && (eof || rawLast - rawPointer >= 3)
      modifies this`rawPointer, this`offset, this`encoding
      ensures Filling() && encoding.Some?
    {
      hide Progress, Kept;
      ghost var bytes := RawBytes();
      assert out == [] && offset == 0 by {
        Start(total, out, offset, bytes + input);
      }
      ProgressFound(total, bytes, input);
      var f := ByteOrderMark();
      encoding, rawPointer, offset := Some(f.encoding), rawPointer + f.skip, offset + f.skip;
      assert RawBytes() == bytes[f.skip..];
    }

    method ByteOrderMark() returns (f: Found)
      requires Shape()
      ensures f == Detect(RawBytes())
    {
      var n := rawLast - rawPointer;
      ghost var s := RawBytes();
      assert forall i :: 0 <= i < n ==> s[i] == raw[rawPointer + i];
      if 2 <= n && raw[rawPointer] == 0xFF && raw[rawPointer + 1] == 0xFE {
        f := Found(Utf16LE, 2);
      } else if 2 <= n && raw[rawPointer] == 0xFE && raw[rawPointer + 1] == 0xFF {
        f := Found(Utf16BE, 2);
      } else if 3 <= n && raw[rawPointer] == 0xEF && raw[rawPointer + 1] == 0xBB && raw[rawPointer + 2] == 0xBF {
        f := Found(Utf8, 3);
      } else {
        f := Found(Utf8, 0);
      }
    }

    /** The character at the front of the raw bytes. */
    method DecodeFront() returns (r: Front)
      requires Shape() && rawPointer < rawLast && encoding.Some?
      ensures r == One(encoding.value, RawBytes(), eof)
    {
      ghost var s := RawBytes();
      var n := rawLast - rawPointer;
      if encoding.value == Utf8 {
        var octet: int := raw[rawPointer];
        var width := Width(octet);
        if width == 0 {
          return Bad;
        }
        if width > n {
          return if eof then Bad else More;
        }
        var lead := Lead(octet);
        var value: nat, k := lead, 1;
        while k < width
          invariant 1 <= k <= width && Trail(s, 1, width, lead) == Trail(s, k, width, value)
        {
          octet := raw[rawPointer + k];
          assert octet == s[k];
          if octet / 64 != 2 {
            return Bad;
          }
          value, k := value * 64 + octet % 64, k + 1;
        }
        if !LengthOk(width, value) || 0xD800 <= value <= 0xDFFF || value > 0x10FFFF {
          return Bad;
        }
        return Checked(value, width);
      }
      if n < 2 {
        return if eof then Bad else More;
      }
      var value := Pair(0);
      if value / 1024 == 0x37 {
        return Bad;
      }
      if value / 1024 != 0x36 {
        return Checked(value, 2);
      }
      if n < 4 {
        return if eof then Bad else More;
      }
      var value2 := Pair(2);
      if value2 / 1024 != 0x37 {
        return Bad;
      }
      r := Checked(0x10000 + value % 1024 * 1024 + value2 % 1024, 4);
    }

    method Pair(i: nat) returns (u: nat)
      requires Shape() && i + 1 < rawLast - rawPointer && encoding.Some?
      ensures u == UnitAt(encoding.value, RawBytes(), i)
    {
      var low := if encoding.value == Utf16LE then 0 else 1;
      var first: int, second: int := raw[rawPointer + i + low], raw[rawPointer + i + 1 - low];
      u := first + second * 256;
    }

    /** Takes one character from the raw bytes and keeps it as UTF-8; the buffer has room as
        long as it starts with enough. */
    method Keep(v: Code, width: nat)
      requires Filling() && encoding.Some? && !closed && pointer == 0 && rawPointer < rawLast
      requires One(encoding.value, RawBytes(), eof) == Char(v, width) && Room(last, rawLast - rawPointer)
      modifies this`rawPointer, this`offset, this`last, this`unread, this`out, buffer
      ensures Filling() && Room(last, rawLast - rawPointer) && old(rawPointer) < rawPointer && out == old(out) + [v]
    {
      hide Progress, Kept, One, Encode, EncodeUtf8;
      ghost var bytes := RawBytes();
      ProgressStep(total, encoding.value, out, offset, bytes, input, eof);
      KeptMore(out, seen, v);
      Growth(encoding.value, v);
      rawPointer, offset := rawPointer + width, offset + width;
      assert RawBytes() == bytes[width..];
      Put(EncodeUtf8(v));
      unread := unread + 1;
      out := out + [v];
    }

    method Put(c: seq<Byte>)
      requires Shape() && pointer == 0 && last + |c| <= BUFFER_SIZE
      modifies this`last, buffer
      ensures Shape() && Held() == old(Held()) + c && last == old(last) + |c|
    {
      CopyIn(buffer, last, c);
      last := last + |c|;
      assert Held() == buffer[..last - |c|] + buffer[last - |c|..last];
    }

    /** Decodes what the raw bytes hold; stops before a character that is not complete. It
        fails only on an input that does not decode at all. */
    method DecodeRaw() returns (ok: bool)
      requires Filling() && encoding.Some? && !closed && pointer == 0 && Room(last, rawLast - rawPointer)
      modifies this`rawPointer, this`offset, this`last, this`unread, this`out, buffer
      ensures ok ==> Filling() && old(out) <= out && Room(last, rawLast - rawPointer)
      ensures ok ==> rawLast - rawPointer < 4 && (eof ==> rawPointer == rawLast)
      ensures !ok ==> OneShot(total).None?
    {
      hide Progress, Kept, One, Encode, EncodeUtf8, OneShot;
      while rawPointer != rawLast
        invariant Filling() && Room(last, rawLast - rawPointer) && old(out) <= out
        decreases rawLast - rawPointer
      {
        var r := DecodeFront();
        Asks(encoding.value, RawBytes());
        if r == More {
          break;
        }
        if r == Bad {
          ProgressBad(total, encoding.value, out, offset, RawBytes(), input, eof);
          return false;
        }
        Keep(r.value, r.width);
      }
      ok := true;
    }

    /** Moves the characters that are not taken to the front of the buffer. */
    method CompactBuffer()
      requires Shape()
      modifies this`pointer, this`last, buffer
      ensures Shape() && pointer == 0 && Held() == old(Held())
    {
      if 0 < pointer < last {
        MoveDown(buffer, pointer, last);
        assert buffer[..last - pointer] == old(Held());
        pointer, last := 0, last - pointer;
        assert Held() == buffer[..last];
      } else if pointer == last {
        pointer, last := 0, 0;
      }
    }

    /** Makes sure that the buffer holds `length` characters or all that are left and the
        closing NUL, which is written once. It fails only when the handler does, or on an
        input that does not decode or is too long. */
    method UpdateBuffer(length: nat) returns (ok: bool)
      requires Valid() && length <= MAX_LENGTH
      modifies this, raw, buffer
      ensures ok ==> Valid() && old(out) <= out && seen == old(seen) && inputFailed == old(inputFailed)
      ensures ok ==> length <= unread || closed
      ensures !ok ==> inputFailed || OneShot(total).None? || MAX_FILE_SIZE <= |total|
    {
      hide Progress, Kept, OneShot;
      if eof && rawPointer == rawLast {
        return true;
      }
      if unread >= length {
        return true;
      }
      if encoding.None? {
        ok := DetermineEncoding();
        if !ok {
          return;
        }
      }
      CompactBuffer();
      var first := true;
      while unread < length
        invariant Filling() && encoding.Some? && !closed && pointer == 0 && seen == old(seen)
        invariant old(out) <= out && inputFailed == old(inputFailed)
        invariant first ==> unread < length
        invariant !first ==> !eof && rawLast - rawPointer < 4
        decreases |input|, first
      {
        var done;
        ok, done := Round(length, first);
        if !ok || done {
          return;
        }
        first := false;
      }
      if offset >= MAX_FILE_SIZE {
        Within(total, encoding, out, offset, RawBytes() + input);
        return false;
      }
      ok := true;
    }

    /** Fills the raw buffer if necessary and decodes it; at the end of the input, closes it. */
    method Round(length: nat, first: bool) returns (ok: bool, done: bool)
      requires Filling() && encoding.Some? && !closed && pointer == 0 && unread < length <= MAX_LENGTH
      requires !first ==> !eof && rawLast - rawPointer < 4
      modifies this, raw, buffer
      ensures ok ==> Filling() && encoding.Some? && pointer == 0 && seen == old(seen) && inputFailed == old(inputFailed)
      ensures ok ==>
        old(out) <= out && rawLast - rawPointer < 4 && done == eof == closed && (closed ==> rawPointer == rawLast)
      ensures ok ==> |input| <= |old(input)| && (first || closed || |input| < |old(input)|)
      ensures !ok ==> inputFailed || OneShot(total).None?
    {
      hide Progress, Kept, OneShot;
      done := false;
      if !first || rawPointer == rawLast {
        ok := UpdateRawBuffer();
        if !ok {
          return;
        }
      }
      KeptSize(out, seen);
      assert |Held()| == last;
      ok := DecodeRaw();
      if ok && eof {
        CloseInput();
        done := true;
      }
    }

    /** The end of the input is a zero behind the last character. */
    method CloseInput()
      requires Filling() && !closed && pointer == 0 && last < BUFFER_SIZE
      modifies this`last, this`unread, this`closed, buffer
      ensures Filling() && closed
    {
      hide Progress, Kept;
      KeptClosed(out, seen);
      Put([0]);
      unread := unread + 1;
      closed := true;
    }

    /** The scanner takes one character. */
    method Take() returns (c: seq<Byte>)
      requires Valid() && 0 < unread && pointer < last && buffer[pointer] != 0
      modifies this`pointer, this`unread, this`seen
      ensures Valid() && seen == old(seen) + 1 && c == EncodeUtf8(out[old(seen)])
    {
      hide Progress, Kept, EncodeUtf8;
      ghost var held := Held();
      assert held != [] && seen < |out| by {
        if seen == |out| {
          KeptNone(out, seen, closed);
        } else {
          KeptSome(out, seen, closed);
        }
      }
      assert YamlChar(out[seen]) by {
        Allowed(total, encoding, out, offset, RawBytes() + input);
      }
      KeptFirst(out, seen, closed);
      assert held[0] == buffer[pointer];
      var width := Width(buffer[pointer]);
      c := buffer[pointer..pointer + width];
      CutAt(buffer, pointer, last, width);
      pointer := pointer + width;
      unread := unread - 1;
      seen := seen + 1;
    }
  }

  lemma {:induction false} CutAt(a: array<Byte>, i: nat, j: nat, w: nat)
    requires i + w <= j <= a.Length
    ensures a[i..j][..w] == a[i..i + w] && a[i..j][w..] == a[i + w..j]
  {
  }

  /** Reads a whole input. Whatever the pieces it comes in, what the scanner gets are the
      characters that the input decodes to as a whole, and it gets them unless the handler
      fails or the input is too long. */
  method ReadStream(total: seq<Byte>, sizes: seq<Option<nat>>) returns (text: seq<Byte>, ok: bool, failed: bool)
    ensures ok ==> OneShot(total).Some? && text == EncodeAll(Utf8, OneShot(total).value)
    ensures !ok && !failed && |total| < MAX_FILE_SIZE ==> OneShot(total).None?
    ensures failed ==> !ok
  {
    hide Progress, Kept, OneShot, EncodeAll, EncodeUtf8;
    var r := new Reader(total, sizes);
    text, failed := [], false;
    assert text == EncodeAll(Utf8, r.out[..r.seen]) by {
      EncodeNone();
    }
    while true
      invariant fresh(r) && fresh(r.raw) && fresh(r.buffer) && r.Valid() && !r.inputFailed && r.total == total
      invariant text == EncodeAll(Utf8, r.out[..r.seen])
      decreases |total| - r.seen
    {
      Within(total, r.encoding, r.out, r.offset, r.RawBytes() + r.input);
      ghost var out := r.out;
      ok := r.UpdateBuffer(1);
      if !ok {
        failed := r.inputFailed;
        return;
      }
      assert r.out[..r.seen] == out[..r.seen];
      Within(total, r.encoding, r.out, r.offset, r.RawBytes() + r.input);
      Ready(r);
      if r.buffer[r.pointer] == 0 {
        break;
      }
      var c := r.Take();
      assert r.out[..r.seen] == r.out[..r.seen - 1] + [r.out[r.seen - 1]];
      EncodeAppend(Utf8, r.out[..r.seen - 1], [r.out[r.seen - 1]]);
      EncodeOne(Utf8, r.out[r.seen - 1]);
      text := text + c;
    }
    assert r.RawBytes() == [] && r.RawBytes() + r.input == [];
    ProgressEnd(total, r.encoding.value, r.out, r.offset);
    assert r.out[..r.seen] == r.out;
  }

  lemma {:induction false} EncodeNone()
    ensures EncodeAll(Utf8, []) == []
  {
  }

  /** After a call for one character there is one, or the NUL. */
  lemma {:induction false} Ready(r: Reader)
    requires r.Valid() && (1 <= r.unread || r.closed)
    ensures r.pointer < r.last && (r.buffer[r.pointer] == 0 <==> r.seen == |r.out|)
    ensures r.buffer[r.pointer] == 0 ==> r.closed
  {
    hide Progress, Kept, EncodeUtf8;
    var held := r.Held();
    if r.seen == |r.out| {
      KeptNone(r.out, r.seen, r.closed);
    } else {
      Allowed(r.total, r.encoding, r.out, r.offset, r.RawBytes() + r.input);
      KeptFirst(r.out, r.seen, r.closed);
    }
    assert held[0] == r.buffer[r.pointer];
  }

  /** Enough room for the raw bytes, whatever they decode to, and the closing NUL. */
  predicate Room(last: nat, rawLeft: nat) {
    2 * last + 3 * rawLeft + 2 <= 2 * BUFFER_SIZE
  }

  lemma {:induction false} KeptSize(out: seq<Code>, seen: nat)
    requires seen <= |out|
    ensures |Kept(out, seen, false)| <= 4 * (|out| - seen)
  {
    Size(Utf8, out[seen..]);
  }

  lemma {:induction false} KeptNone(out: seq<Code>, seen: nat, closed: bool)
    requires seen == |out|
    ensures Kept(out, seen, closed) == if closed then [0] else []
  {
    assert out[seen..] == [];
  }

  lemma {:induction false} KeptSome(out: seq<Code>, seen: nat, closed: bool)
    requires seen < |out|
    ensures Kept(out, seen, closed) != []
  {
    Size(Utf8, out[seen..]);
  }

  lemma {:induction false} Allowed(total: seq<Byte>, e: Option<Encoding>, out: seq<Code>, offset: nat, rest: seq<Byte>)
    requires Progress(total, e, out, offset, rest)
    ensures YamlChars(out)
  {
  }

  lemma {:induction false} KeptClosed(out: seq<Code>, seen: nat)
    requires seen <= |out|
    ensures Kept(out, seen, true) == Kept(out, seen, false) + [0]
  {
  }

  lemma {:induction false} Within(total: seq<Byte>, e: Option<Encoding>, out: seq<Code>, offset: nat, rest: seq<Byte>)
    requires Progress(total, e, out, offset, rest)
    ensures offset <= |total| && |out| <= |total|
  {
    if e.Some? {
      Size(e.value, out);
    }
  }

  lemma {:induction false} Start(total: seq<Byte>, out: seq<Code>, offset: nat, rest: seq<Byte>)
    requires Progress(total, None, out, offset, rest)
    ensures out == [] && offset == 0
  {
  }

  /** At least one byte unless none is left, and no more than there is room for. */
  function Given(wanted: nat, room: nat, left: nat): (n: nat)
    requires 0 < room
    ensures n <= room && n <= left && (n == 0 <==> left == 0)
  {
    var most := if left < room then left else room;
    if most < wanted then most else if wanted == 0 && 0 < most then 1 else wanted
  }
}
