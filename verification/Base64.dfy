// The decoder of explicit `!!binary` scalars (src/de.rs) against the canonical
// encoding of section 4 of RFC 4648.
module Base64 {
  import opened Prelude

  type Byte = bv8
  type Bytes = seq<Byte>

  const EQUALS: Byte := 61

  // ----- The alphabet ------------------------------------------------------------------------

  predicate IsWhitespace(c: Byte) {
    c == 32 || c == 9 || c == 10 || c == 12 || c == 13
  }

  /** The six-bit value of a letter, digit, `+` or `/`. */
  function Value(c: Byte): Option<Byte> {
    if 65 <= c <= 90 then Some(c - 65)
    else if 97 <= c <= 122 then Some(c - 97 + 26)
    else if 48 <= c <= 57 then Some(c - 48 + 52)
    else if c == 43 then Some(62)
    else if c == 47 then Some(63)
    else None
  }

  /** Table 1 of RFC 4648. */
  function Letter(v: Byte): Byte {
    if v < 26 then v + 65
    else if v < 52 then v - 26 + 97
    else if v < 62 then v - 52 + 48
    else if v == 62 then 43
    else 47
  }

  lemma LettersAndValues(c: Byte, v: Byte)
    ensures v < 64 ==> Value(Letter(v)) == Some(v) && Letter(v) != EQUALS
    ensures Value(c).Some? ==> Value(c).value < 64 && Letter(Value(c).value) == c
    ensures Value(EQUALS) == None
  {
  }

  // ----- The encoding --------------------------------------------------------------------------

  function Encode3(a: Byte, b: Byte, c: Byte): Bytes {
    [Letter(a >> 2), Letter(((a & 3) << 4) | (b >> 4)), Letter(((b & 15) << 2) | (c >> 6)), Letter(c & 63)]
  }

  function Encode1(a: Byte): Bytes {
    [Letter(a >> 2), Letter((a & 3) << 4)]
  }

  function Encode2(a: Byte, b: Byte): Bytes {
    [Letter(a >> 2), Letter(((a & 3) << 4) | (b >> 4)), Letter((b & 15) << 2)]
  }

  /** The canonical encoding, its padding written or left out. */
  function Encode(b: Bytes, padded: bool): Bytes {
    if |b| == 0 then []
    else if |b| == 1 then Encode1(b[0]) + if padded then [EQUALS, EQUALS] else []
    else if |b| == 2 then Encode2(b[0], b[1]) + if padded then [EQUALS] else []
    else Encode3(b[0], b[1], b[2]) + Encode(b[3..], padded)
  }

  function Stripped(raw: Bytes): Bytes {
    if raw == [] then []
    else (if IsWhitespace(raw[0]) then [] else [raw[0]]) + Stripped(raw[1..])
  }

  /** `b` is what the text encodes. */
  ghost predicate Encodes(text: Bytes, b: Bytes) {
    text == Encode(b, true) || text == Encode(b, false)
  }

  // ----- The decoder as a function ----------------------------------------------------------------

  const PAD: Byte := 64

  /** The bytes of a full quartet. */
  function Quartet(q0: Byte, q1: Byte, q2: Byte, q3: Byte): Option<Bytes> {
    if q0 == PAD || q1 == PAD || (q2 == PAD && q3 != PAD) then None
    else if q2 == PAD then
      if q1 & 0x0f != 0 then None else Some([(q0 << 2) | (q1 >> 4)])
    else if q3 == PAD then
      if q2 & 0x03 != 0 then None
      else Some([(q0 << 2) | (q1 >> 4), ((q1 & 0x0f) << 4) | (q2 >> 2)])
    else Some([(q0 << 2) | (q1 >> 4), ((q1 & 0x0f) << 4) | (q2 >> 2), ((q2 & 0x03) << 6) | q3])
  }

  /** The bytes of what is left in the quartet at the end. */
  function Ending(pending: Bytes, saw_padding: bool): Option<Bytes> {
    if pending == [] then Some([])
    else if |pending| == 2 && !saw_padding then
      if pending[1] & 0x0f != 0 then None else Some([(pending[0] << 2) | (pending[1] >> 4)])
    else if |pending| == 3 && !saw_padding then
      if pending[2] & 0x03 != 0 then None
      else Some([(pending[0] << 2) | (pending[1] >> 4), ((pending[1] & 0x0f) << 4) | (pending[2] >> 2)])
    else None
  }

  function Symbol(c: Byte, saw_padding: bool): Option<Byte> {
    if c == EQUALS then Some(PAD) else if saw_padding then None else Value(c)
  }

  function InFront(output: Bytes, rest: Option<Bytes>): Option<Bytes> {
    match rest
    case None => None
    case Some(more) => Some(output + more)
  }

  /** What the loop still adds to the output. */
  function Decoded(text: Bytes, pending: Bytes, saw_padding: bool): Option<Bytes>
    requires |pending| < 4
    decreases text
  {
    if text == [] then Ending(pending, saw_padding)
    else
      match Symbol(text[0], saw_padding)
      case None => None
      case Some(v) =>
        var saw := saw_padding || text[0] == EQUALS;
        if |pending| < 3 then Decoded(text[1..], pending + [v], saw)
        else
          match Quartet(pending[0], pending[1], pending[2], v)
          case None => None
          case Some(output) => InFront(output, Decoded(text[1..], [], saw))
  }

  // ----- The decoder accepts exactly the canonical encodings --------------------------------------------

  lemma DecodedOne(c: Byte, rest: Bytes, pending: Bytes, v: Byte)
    requires |pending| < 3 && Value(c) == Some(v)
    ensures Decoded([c] + rest, pending, false) == Decoded(rest, pending + [v], false)
  {
    assert ([c] + rest)[1..] == rest;
    LettersAndValues(c, v);
  }

  // Four letters stand for three bytes.
  lemma DecodedFour(c0: Byte, c1: Byte, c2: Byte, c3: Byte, rest: Bytes)
    requires Value(c0).Some? && Value(c1).Some? && Value(c2).Some? && Value(c3).Some?
    ensures var out := Quartet(Value(c0).value, Value(c1).value, Value(c2).value, Value(c3).value);
            out.Some? && Decoded([c0, c1, c2, c3] + rest, [], false) == InFront(out.value, Decoded(rest, [], false))
  {
    hide Quartet, Value;
    DecodedThree(c0, c1, c2, [c3] + rest);
    assert [c0, c1, c2, c3] + rest == [c0, c1, c2] + ([c3] + rest);
    assert ([c3] + rest)[1..] == rest;
    LettersAndValues(c3, 0);
    QuartetOfLetters(c0, c1, c2, c3);
  }

  lemma QuartetOfLetters(c0: Byte, c1: Byte, c2: Byte, c3: Byte)
    requires Value(c0).Some? && Value(c1).Some? && Value(c2).Some? && Value(c3).Some?
    ensures Quartet(Value(c0).value, Value(c1).value, Value(c2).value, Value(c3).value).Some?
  {
    hide Value;
    LettersAndValues(c0, 0);
    LettersAndValues(c1, 0);
    LettersAndValues(c2, 0);
    LettersAndValues(c3, 0);
  }

  lemma DecodedTwo(c0: Byte, c1: Byte, rest: Bytes)
    requires Value(c0).Some? && Value(c1).Some?
    ensures Decoded([c0, c1] + rest, [], false) == Decoded(rest, [Value(c0).value, Value(c1).value], false)
  {
    hide Value, Decoded;
    assert [c0, c1] + rest == [c0] + ([c1] + rest);
    DecodedOne(c0, [c1] + rest, [], Value(c0).value);
    assert [] + [Value(c0).value] == [Value(c0).value];
    DecodedOne(c1, rest, [Value(c0).value], Value(c1).value);
    assert [Value(c0).value] + [Value(c1).value] == [Value(c0).value, Value(c1).value];
  }

  lemma DecodedThree(c0: Byte, c1: Byte, c2: Byte, rest: Bytes)
    requires Value(c0).Some? && Value(c1).Some? && Value(c2).Some?
    ensures Decoded([c0, c1, c2] + rest, [], false) == Decoded(rest, [Value(c0).value, Value(c1).value, Value(c2).value], false)
  {
    hide Value, Decoded;
    assert [c0, c1, c2] + rest == [c0, c1] + ([c2] + rest);
    DecodedTwo(c0, c1, [c2] + rest);
    DecodedOne(c2, rest, [Value(c0).value, Value(c1).value], Value(c2).value);
    assert [Value(c0).value, Value(c1).value] + [Value(c2).value] == [Value(c0).value, Value(c1).value, Value(c2).value];
  }

  // After padding nothing may follow.
  lemma {:induction false} NothingAfterPadding(text: Bytes, pending: Bytes)
    requires |pending| < 4 && forall i :: 0 <= i < |pending| ==> pending[i] == PAD
    ensures Decoded(text, pending, true) == if text == [] && pending == [] then Some([]) else None
    decreases text
  {
    if text != [] && text[0] == EQUALS {
      if |pending| < 3 { NothingAfterPadding(text[1..], pending + [PAD]); }
    }
  }

  // The bits of three bytes, there and back.
  lemma GroupBits(a: Byte, b: Byte, c: Byte)
    ensures a >> 2 < 64 && ((a & 3) << 4) | (b >> 4) < 64 && ((b & 15) << 2) | (c >> 6) < 64 && c & 63 < 64
    ensures Quartet(a >> 2, ((a & 3) << 4) | (b >> 4), ((b & 15) << 2) | (c >> 6), c & 63) == Some([a, b, c])
  {
  }

  lemma PairBits(a: Byte, b: Byte)
    ensures a >> 2 < 64 && ((a & 3) << 4) | (b >> 4) < 64 && (b & 15) << 2 < 64
    ensures Quartet(a >> 2, ((a & 3) << 4) | (b >> 4), (b & 15) << 2, PAD) == Some([a, b])
    ensures Ending([a >> 2, ((a & 3) << 4) | (b >> 4), (b & 15) << 2], false) == Some([a, b])
  {
  }

  lemma SingleBits(a: Byte)
    ensures a >> 2 < 64 && (a & 3) << 4 < 64
    ensures Quartet(a >> 2, (a & 3) << 4, PAD, PAD) == Some([a])
    ensures Ending([a >> 2, (a & 3) << 4], false) == Some([a])
  {
  }

  lemma JoinedBits(q0: Byte, q1: Byte, q2: Byte, q3: Byte)
    requires q0 < 64 && q1 < 64 && q2 < 64 && q3 < 64
    ensures ((q0 << 2) | (q1 >> 4)) >> 2 == q0
    ensures ((((q0 << 2) | (q1 >> 4)) & 3) << 4) | ((((q1 & 0x0f) << 4) | (q2 >> 2)) >> 4) == q1
    ensures (((((q1 & 0x0f) << 4) | (q2 >> 2)) & 15) << 2) | ((((q2 & 0x03) << 6) | q3) >> 6) == q2
    ensures (((q2 & 0x03) << 6) | q3) & 63 == q3
  {
  }

  lemma QuartetBits(q0: Byte, q1: Byte, q2: Byte, q3: Byte)
    requires q0 < 64 && q1 < 64 && q2 < 64 && q3 < 64
    ensures var out := Quartet(q0, q1, q2, q3);
            && out.Some? && |out.value| == 3
            && Encode3(out.value[0], out.value[1], out.value[2]) == [Letter(q0), Letter(q1), Letter(q2), Letter(q3)]
  {
    hide Letter;
    JoinedBits(q0, q1, q2, q3);
  }

  lemma ThreeBits(q0: Byte, q1: Byte, q2: Byte)
    requires q0 < 64 && q1 < 64 && q2 < 64 && q2 & 0x03 == 0
    ensures Encode2((q0 << 2) | (q1 >> 4), ((q1 & 0x0f) << 4) | (q2 >> 2)) == [Letter(q0), Letter(q1), Letter(q2)]
  {
    hide Letter;
  }

  lemma TwoBits(q0: Byte, q1: Byte)
    requires q0 < 64 && q1 < 64 && q1 & 0x0f == 0
    ensures Encode1((q0 << 2) | (q1 >> 4)) == [Letter(q0), Letter(q1)]
  {
    hide Letter;
  }

  // The decoder inverts the encoding.
  lemma {:induction false} EncodingsAreDecoded(b: Bytes, padded: bool)
    ensures Decoded(Encode(b, padded), [], false) == Some(b)
  {
    hide Decoded, Quartet, Value, Letter, Ending, Encode1, Encode2, Encode3;
    if |b| == 0 {
      NothingDecoded();
    } else if |b| == 1 {
      SingleIsDecoded(b[0], padded);
      assert b == [b[0]];
    } else if |b| == 2 {
      PairIsDecoded(b[0], b[1], padded);
      assert b == [b[0], b[1]];
    } else {
      GroupIsDecoded(b[0], b[1], b[2], Encode(b[3..], padded));
      EncodingsAreDecoded(b[3..], padded);
      assert b == [b[0], b[1], b[2]] + b[3..];
    }
  }

  lemma GroupIsDecoded(a: Byte, b: Byte, c: Byte, rest: Bytes)
    ensures Decoded(Encode3(a, b, c) + rest, [], false) == InFront([a, b, c], Decoded(rest, [], false))
  {
    hide Decoded, Quartet, Value, Letter;
    var q := Encode3(a, b, c);
    GroupBits(a, b, c);
    LettersAndValues(0, a >> 2);
    LettersAndValues(0, ((a & 3) << 4) | (b >> 4));
    LettersAndValues(0, ((b & 15) << 2) | (c >> 6));
    LettersAndValues(0, c & 63);
    DecodedFour(q[0], q[1], q[2], q[3], rest);
  }

  lemma NothingDecoded()
    ensures Decoded([], [], false) == Some([])
  {
  }

  lemma SingleIsDecoded(a: Byte, padded: bool)
    ensures Decoded(Encode1(a) + if padded then [EQUALS, EQUALS] else [], [], false) == Some([a])
  {
    hide Quartet, Value, Letter;
    SingleBits(a);
    var v0, v1 := a >> 2, (a & 3) << 4;
    LettersAndValues(0, v0);
    LettersAndValues(0, v1);
    DecodedTwo(Letter(v0), Letter(v1), if padded then [EQUALS, EQUALS] else []);
    if padded { PaddingOfTwo(v0, v1, []); }
  }

  lemma PairIsDecoded(a: Byte, b: Byte, padded: bool)
    ensures Decoded(Encode2(a, b) + if padded then [EQUALS] else [], [], false) == Some([a, b])
  {
    hide Quartet, Value, Letter;
    PairBits(a, b);
    var v0, v1, v2 := a >> 2, ((a & 3) << 4) | (b >> 4), (b & 15) << 2;
    LettersAndValues(0, v0);
    LettersAndValues(0, v1);
    LettersAndValues(0, v2);
    DecodedThree(Letter(v0), Letter(v1), Letter(v2), if padded then [EQUALS] else []);
    if padded { PaddingOfThree(v0, v1, v2, []); }
  }

  // The pads that fill a quartet end the text.
  lemma PaddingOfThree(v0: Byte, v1: Byte, v2: Byte, rest: Bytes)
    ensures Decoded([EQUALS] + rest, [v0, v1, v2], false)
         == if rest == [] then Quartet(v0, v1, v2, PAD) else None
  {
    hide Quartet;
    assert ([EQUALS] + rest)[1..] == rest;
    NothingAfterPadding(rest, []);
    var q := Quartet(v0, v1, v2, PAD);
    if q.Some? { assert q.value + [] == q.value; }
  }

  lemma PaddingOfTwo(v0: Byte, v1: Byte, rest: Bytes)
    ensures Decoded([EQUALS, EQUALS] + rest, [v0, v1], false)
         == if rest == [] then Quartet(v0, v1, PAD, PAD) else None
  {
    hide Quartet;
    assert ([EQUALS, EQUALS] + rest)[1..] == [EQUALS] + rest;
    assert ([EQUALS] + rest)[1..] == rest;
    assert [v0, v1] + [PAD] == [v0, v1, PAD];
    NothingAfterPadding(rest, []);
    var q := Quartet(v0, v1, PAD, PAD);
    if q.Some? { assert q.value + [] == q.value; }
  }

  // A pad in the first half of a quartet is never accepted.
  lemma {:induction false} EarlyPadding(text: Bytes, pending: Bytes)
    requires |pending| < 4 && 0 < |pending|
    requires pending[0] == PAD || (|pending| > 1 && pending[1] == PAD)
    ensures Decoded(text, pending, true) == None
    decreases text
  {
    if text != [] && text[0] == EQUALS && |pending| < 3 {
      EarlyPadding(text[1..], pending + [PAD]);
    }
  }

  // After a third symbol that is a pad, only a fourth pad is accepted.
  lemma ThirdPad(text: Bytes, v0: Byte, v1: Byte)
    requires Decoded(text, [v0, v1, PAD], true).Some?
    ensures text == [EQUALS] && Quartet(v0, v1, PAD, PAD) == Decoded(text, [v0, v1, PAD], true)
  {
    hide Quartet;
    NothingAfterPadding(text[1..], []);
    var q := Quartet(v0, v1, PAD, PAD);
    assert q.value + [] == q.value;
  }

  lemma DecodedStep(text: Bytes, pending: Bytes, saw_padding: bool)
    requires text != [] && |pending| < 3 && Decoded(text, pending, saw_padding).Some?
    ensures Symbol(text[0], saw_padding).Some?
    ensures Decoded(text, pending, saw_padding)
         == Decoded(text[1..], pending + [Symbol(text[0], saw_padding).value], saw_padding || text[0] == EQUALS)
  {
    hide Symbol;
  }

  lemma OneIsNotEnough(v: Byte)
    ensures Decoded([], [v], false) == None
  {
  }

  lemma FirstTwoAreLetters(text: Bytes)
    requires text != [] && Decoded(text, [], false).Some?
    ensures |text| >= 2 && Value(text[0]).Some? && Value(text[1]).Some?
    ensures Decoded(text, [], false) == Decoded(text[2..], [Value(text[0]).value, Value(text[1]).value], false)
  {
    hide Quartet, Value, Decoded;
    DecodedStep(text, [], false);
    var v0, t := Symbol(text[0], false).value, text[1..];
    assert [] + [v0] == [v0];
    if text[0] == EQUALS { EarlyPadding(t, [v0]); }
    if t == [] { OneIsNotEnough(v0); }
    DecodedStep(t, [v0], false);
    var v1 := Symbol(t[0], false).value;
    assert [v0] + [v1] == [v0, v1] && t[1..] == text[2..];
    if t[0] == EQUALS { EarlyPadding(t[1..], [v0, v1]); }
  }

  lemma AfterTwoLetters(t: Bytes, v0: Byte, v1: Byte)
    requires Decoded(t, [v0, v1], false).Some?
    ensures if t == [] then Ending([v0, v1], false) == Decoded(t, [v0, v1], false)
            else if t[0] == EQUALS then t == [EQUALS, EQUALS] && Quartet(v0, v1, PAD, PAD) == Decoded(t, [v0, v1], false)
            else Value(t[0]).Some? && Decoded(t[1..], [v0, v1, Value(t[0]).value], false) == Decoded(t, [v0, v1], false)
  {
    hide Quartet, Value, Ending;
    if t != [] {
      if t[0] == EQUALS {
        assert [v0, v1] + [PAD] == [v0, v1, PAD];
        ThirdPad(t[1..], v0, v1);
        assert t == [EQUALS] + t[1..];
      } else {
        assert t == [t[0]] + t[1..];
        DecodedOne(t[0], t[1..], [v0, v1], Value(t[0]).value);
        assert [v0, v1] + [Value(t[0]).value] == [v0, v1, Value(t[0]).value];
      }
    }
  }

  lemma AfterThreeLetters(t: Bytes, v0: Byte, v1: Byte, v2: Byte)
    requires Decoded(t, [v0, v1, v2], false).Some?
    ensures if t == [] then Ending([v0, v1, v2], false) == Decoded(t, [v0, v1, v2], false)
            else if t[0] == EQUALS then t == [EQUALS] && Quartet(v0, v1, v2, PAD) == Decoded(t, [v0, v1, v2], false)
            else Value(t[0]).Some?
  {
    hide Quartet, Value, Ending;
    if t != [] && t[0] == EQUALS {
      assert t == [EQUALS] + t[1..];
      PaddingOfThree(v0, v1, v2, t[1..]);
    }
  }

  // The last bytes, given the values of the last letters.
  lemma TwoLettersEncode(c0: Byte, c1: Byte, b: Bytes, padded: bool)
    requires Value(c0).Some? && Value(c1).Some?
    requires if padded then Quartet(Value(c0).value, Value(c1).value, PAD, PAD) == Some(b)
             else Ending([Value(c0).value, Value(c1).value], false) == Some(b)
    ensures Encode(b, padded) == [c0, c1] + if padded then [EQUALS, EQUALS] else []
  {
    hide Letter;
    LettersAndValues(c0, 0);
    LettersAndValues(c1, 0);
    TwoBits(Value(c0).value, Value(c1).value);
  }

  lemma ThreeValues(v0: Byte, v1: Byte, v2: Byte, b: Bytes, padded: bool)
    requires v0 < 64 && v1 < 64 && v2 < 64
    requires if padded then Quartet(v0, v1, v2, PAD) == Some(b) else Ending([v0, v1, v2], false) == Some(b)
    ensures v2 & 0x03 == 0 && b == [(v0 << 2) | (v1 >> 4), ((v1 & 0x0f) << 4) | (v2 >> 2)]
  {
  }

  lemma EncodeTwo(x: Byte, y: Byte, padded: bool)
    ensures Encode([x, y], padded) == Encode2(x, y) + if padded then [EQUALS] else []
  {
  }

  lemma ThreeLettersEncode(c0: Byte, c1: Byte, c2: Byte, b: Bytes, padded: bool)
    requires Value(c0).Some? && Value(c1).Some? && Value(c2).Some?
    requires if padded then Quartet(Value(c0).value, Value(c1).value, Value(c2).value, PAD) == Some(b)
             else Ending([Value(c0).value, Value(c1).value, Value(c2).value], false) == Some(b)
    ensures Encode(b, padded) == [c0, c1, c2] + if padded then [EQUALS] else []
  {
    hide Letter, Value, Encode, Encode2, Quartet, Ending;
    LettersAndValues(c0, 0);
    LettersAndValues(c1, 0);
    LettersAndValues(c2, 0);
    ThreeValues(Value(c0).value, Value(c1).value, Value(c2).value, b, padded);
    ThreeBits(Value(c0).value, Value(c1).value, Value(c2).value);
    EncodeTwo(b[0], b[1], padded);
  }

  lemma FourLettersEncode(c0: Byte, c1: Byte, c2: Byte, c3: Byte, b: Bytes, padded: bool)
    requires Value(c0).Some? && Value(c1).Some? && Value(c2).Some? && Value(c3).Some?
    ensures var out := Quartet(Value(c0).value, Value(c1).value, Value(c2).value, Value(c3).value);
            out.Some? && Encode(out.value + b, padded) == [c0, c1, c2, c3] + Encode(b, padded)
  {
    hide Letter, Value, Encode3;
    LettersAndValues(c0, 0);
    LettersAndValues(c1, 0);
    LettersAndValues(c2, 0);
    LettersAndValues(c3, 0);
    QuartetBits(Value(c0).value, Value(c1).value, Value(c2).value, Value(c3).value);
    var out := Quartet(Value(c0).value, Value(c1).value, Value(c2).value, Value(c3).value).value;
    assert (out + b)[3..] == b;
  }

  // What is accepted is an encoding.
  lemma {:induction false} OnlyEncodingsAreDecoded(text: Bytes)
    requires Decoded(text, [], false).Some?
    ensures Encodes(text, Decoded(text, [], false).value)
    decreases |text|
  {
    hide Quartet, Value, Letter, Ending, Decoded, Encode;
    var b := Decoded(text, [], false).value;
    if text == [] {
      NothingDecoded();
      NothingEncoded();
    } else {
      FirstTwoAreLetters(text);
      var c0, c1 := text[0], text[1];
      var v0, v1 := Value(c0).value, Value(c1).value;
      AfterTwoLetters(text[2..], v0, v1);
      if |text| == 2 || text[2] == EQUALS {
        TwoLettersEncode(c0, c1, b, |text| > 2);
        assert text == [c0, c1] + text[2..];
      } else {
        var c2 := text[2];
        assert text[2..][1..] == text[3..];
        AfterThreeLetters(text[3..], v0, v1, Value(c2).value);
        if |text| == 3 || text[3] == EQUALS {
          ThreeLettersEncode(c0, c1, c2, b, |text| > 3);
          assert text == [c0, c1, c2] + text[3..];
        } else {
          GroupIsEncoding(text);
        }
      }
    }
  }

  lemma {:induction false} GroupIsEncoding(text: Bytes)
    requires |text| >= 4 && Decoded(text, [], false).Some?
    requires Value(text[0]).Some? && Value(text[1]).Some? && Value(text[2]).Some? && Value(text[3]).Some?
    ensures Encodes(text, Decoded(text, [], false).value)
    decreases |text|, 0
  {
    hide Quartet, Value, Letter, Ending, Decoded, Encode;
    var c0, c1, c2, c3, rest := text[0], text[1], text[2], text[3], text[4..];
    assert text == [c0, c1, c2, c3] + rest;
    DecodedFour(c0, c1, c2, c3, rest);
    OnlyEncodingsAreDecoded(rest);
    var more := Decoded(rest, [], false).value;
    FourLettersEncode(c0, c1, c2, c3, more, true);
    FourLettersEncode(c0, c1, c2, c3, more, false);
  }

  lemma NothingEncoded()
    ensures Encode([], true) == []
  {
  }

  /** The decoder accepts a text with result `b` exactly when the text, without its
      whitespace, is the canonical encoding of `b`, padded or unpadded. */
  lemma DecodesExactlyEncodings(text: Bytes, b: Bytes)
    ensures Decoded(text, [], false) == Some(b) <==> Encodes(text, b)
  {
    if Decoded(text, [], false) == Some(b) {
      OnlyEncodingsAreDecoded(text);
    }
    EncodingsAreDecoded(b, true);
    EncodingsAreDecoded(b, false);
  }

  /** Spaces, tabs, line feeds, form feeds and carriage returns mean nothing anywhere in
      the text; every other byte stays, in its place. */
  lemma {:induction false} WhitespaceMeansNothing(before: Bytes, c: Byte, after: Bytes)
    ensures Stripped(before + [c] + after)
         == Stripped(before) + (if c in {0x20, 0x09, 0x0a, 0x0c, 0x0d} then [] else [c]) + Stripped(after)
  {
    if before == [] {
      assert before + [c] + after == [c] + after && ([c] + after)[1..] == after;
    } else {
      WhitespaceMeansNothing(before[1..], c, after);
      assert (before + [c] + after)[1..] == before[1..] + [c] + after;
      var first := if IsWhitespace(before[0]) then [] else [before[0]];
      Regrouped(first, Stripped(before[1..]), if c in {0x20, 0x09, 0x0a, 0x0c, 0x0d} then [] else [c], Stripped(after));
    }
  }

  lemma Regrouped(a: Bytes, b: Bytes, c: Bytes, d: Bytes)
    ensures a + (b + c + d) == a + b + c + d
  {
  }

  // ----- The method -----------------------------------------------------------------------------

  lemma {:induction false} StrippedStep(raw: Bytes, i: nat)
    requires i < |raw|
    ensures Stripped(raw[i..]) == (if IsWhitespace(raw[i]) then [] else [raw[i]]) + Stripped(raw[i + 1..])
  {
    assert raw[i..][1..] == raw[i + 1..];
  }

  lemma InFrontTwice(a: Bytes, b: Bytes, rest: Option<Bytes>)
    ensures InFront(a, InFront(b, rest)) == InFront(a + b, rest)
    ensures InFront([], rest) == rest
  {
    if rest.Some? {
      assert a + (b + rest.value) == a + b + rest.value;
      assert [] + rest.value == rest.value;
    }
  }

  /** `decode_yaml_binary`; `None` is its one error. */
  method DecodeYamlBinary(raw: Bytes) returns (r: Option<Bytes>)
    ensures forall b :: r == Some(b) <==> Encodes(Stripped(raw), b)
  {
    forall b ensures Decoded(Stripped(raw), [], false) == Some(b) <==> Encodes(Stripped(raw), b) {
      DecodesExactlyEncodings(Stripped(raw), b);
    }
    r := DecodeLoop(raw);
  }

  method DecodeLoop(raw: Bytes) returns (r: Option<Bytes>)
    ensures r == Decoded(Stripped(raw), [], false)
  {
    hide Quartet, Ending, Symbol, Stripped;
    var output: Bytes := [];
    var quartet := new Byte[4];
    var len := 0;
    var saw_padding := false;
    assert raw[0..] == raw;
    InFrontTwice([], [], Decoded(Stripped(raw), [], false));
    for i := 0 to |raw|
      invariant 0 <= len < 4
      invariant InFront(output, Decoded(Stripped(raw[i..]), quartet[..len], saw_padding)) == Decoded(Stripped(raw), [], false)
    {
      StrippedStep(raw, i);
      ghost var rest := Stripped(raw[i + 1..]);
      if IsWhitespace(raw[i]) {
        assert [] + rest == rest;
        continue;
      }
      ghost var pending := quartet[..len];
      assert ([raw[i]] + rest)[1..] == rest;
      var value := Symbol(raw[i], saw_padding);
      if value.None? {
        return None;
      }
      if raw[i] == EQUALS {
        saw_padding := true;
      }
      quartet[len] := value.value;
      len := len + 1;
      assert quartet[..len] == pending + [value.value];
      if len == 4 {
        var bytes := Quartet(quartet[0], quartet[1], quartet[2], quartet[3]);
        if bytes.None? {
          return None;
        }
        InFrontTwice(output, bytes.value, Decoded(rest, [], saw_padding));
        output := output + bytes.value;
        len := 0;
      }
    }
    assert raw[|raw|..] == [];
    StrippedNothing();
    var last := Ending(quartet[..len], saw_padding);
    r := match last case None => None case Some(bytes) => Some(output + bytes);
  }

  lemma StrippedNothing()
    ensures Stripped([]) == []
  {
  }
}
