/** The standard base64 encoding of section 4 of RFC 4648, with padding, as
    `base64.StdEncoding` encodes and decodes it. */
module Base64 {
  import opened Wrappers
  import opened Octets

  /** A 6-bit group: the value one base64 character carries. */
  type Sextet = v: int | 0 <= v < 64

  const Pad: char := '='

  /** The character of the standard alphabet for a 6-bit group
      (Table 1 of RFC 4648). */
  function Char(v: Sextet): char {
    if v < 26 then ('A' as int + v) as char
    else if v < 52 then ('a' as int + (v - 26)) as char
    else if v < 62 then ('0' as int + (v - 52)) as char
    else if v == 62 then '+'
    else '/'
  }

  /** The 6-bit group a character stands for, or None when it is not in the alphabet
      (the padding character included). */
  function Index(c: char): Option<Sextet> {
    if 'A' <= c <= 'Z' then Some(c as int - 'A' as int)
    else if 'a' <= c <= 'z' then Some(c as int - 'a' as int + 26)
    else if '0' <= c <= '9' then Some(c as int - '0' as int + 52)
    else if c == '+' then Some(62)
    else if c == '/' then Some(63)
    else None
  }

  predicate InAlphabet(c: char) {
    Index(c).Some?
  }

  /** Index undoes Char, and no 6-bit group is written as the padding character. */
  lemma IndexOfChar(v: Sextet)
    ensures Index(Char(v)) == Some(v)
    ensures Char(v) != Pad
  {
  }

  /** Three bytes as four characters. */
  function EncodeQuantum(b0: byte, b1: byte, b2: byte): string {
    [ Char(b0 as int / 4),
      Char((b0 as int % 4) * 16 + b1 as int / 16),
      Char((b1 as int % 16) * 4 + b2 as int / 64),
      Char(b2 as int % 64) ]
  }

  /** A final group of one byte: two characters and two padding characters. */
  function EncodeOne(b0: byte): string {
    [Char(b0 as int / 4), Char((b0 as int % 4) * 16), Pad, Pad]
  }

  /** A final group of two bytes: three characters and one padding character. */
  function EncodeTwo(b0: byte, b1: byte): string {
    [Char(b0 as int / 4), Char((b0 as int % 4) * 16 + b1 as int / 16), Char((b1 as int % 16) * 4), Pad]
  }

  /** The length of the padded encoding of n bytes: four characters per started group of
      three bytes. */
  function EncodedLength(n: nat): nat {
    if n == 0 then 0 else if n <= 3 then 4 else 4 + EncodedLength(n - 3)
  }

  lemma {:induction false} EncodedLengthIs(n: nat)
    ensures EncodedLength(n) == 4 * ((n + 2) / 3)
  {
    if n > 3 {
      EncodedLengthIs(n - 3);
    }
  }

  /** `base64.StdEncoding.EncodeToString`. The output has four characters per started
      group of three bytes (EncodedLength) and is well padded. */
  function Encode(b: Bytes): (r: string)
    ensures |r| == EncodedLength(|b|)
    ensures WellPadded(r)
    decreases |b|
  {
    if |b| == 0 then ""
    else if |b| == 1 then
      EncodeShortShape(b[0], 0);
      EncodeOne(b[0])
    else if |b| == 2 then
      EncodeShortShape(b[0], b[1]);
      EncodeTwo(b[0], b[1])
    else
      EncodeStepShape(b[0], b[1], b[2], Encode(b[3..]));
      EncodeQuantum(b[0], b[1], b[2]) + Encode(b[3..])
  }

  lemma EncodeShortShape(b0: byte, b1: byte)
    ensures WellPadded(EncodeOne(b0)) && WellPadded(EncodeTwo(b0, b1))
  {
    IndexOfChar(b0 as int / 4);
    IndexOfChar((b0 as int % 4) * 16);
    IndexOfChar((b0 as int % 4) * 16 + b1 as int / 16);
    IndexOfChar((b1 as int % 16) * 4);
  }

  /** A quantum in front of a well-padded text keeps it well padded. */
  lemma EncodeStepShape(b0: byte, b1: byte, b2: byte, rest: string)
    requires WellPadded(rest)
    ensures WellPadded(EncodeQuantum(b0, b1, b2) + rest)
  {
    var q := EncodeQuantum(b0, b1, b2);
    var s := q + rest;
    QuantumRoundTrip(b0, b1, b2);
    QuantumInAlphabet(q);
    if rest == [] {
      assert s == q;
    } else {
      assert s[..4] == q && s[4..] == rest;
      QuantumThenWellPadded(s);
    }
  }

  /** The byte made of a group's 6 bits followed by the top 2 bits of the next group. */
  function First(v0: Sextet, v1: Sextet): byte {
    (v0 as int * 4 + v1 as int / 16) as byte
  }

  /** The byte made of a group's low 4 bits followed by the top 4 bits of the next group. */
  function Second(v1: Sextet, v2: Sextet): byte {
    ((v1 as int % 16) * 16 + v2 as int / 4) as byte
  }

  /** The byte made of a group's low 2 bits followed by the next group's 6 bits. */
  function Third(v2: Sextet, v3: Sextet): byte {
    ((v2 as int % 4) * 64 + v3 as int) as byte
  }

  /** Four alphabet characters as three bytes; None if any of them is not in the alphabet. */
  function DecodeQuantum(q: string): Option<Bytes>
    requires |q| == 4
  {
    match (Index(q[0]), Index(q[1]), Index(q[2]), Index(q[3]))
    case (Some(v0), Some(v1), Some(v2), Some(v3)) =>
      Some([First(v0, v1), Second(v1, v2), Third(v2, v3)])
    case _ => None
  }

  /** The last four characters of the input: a full quantum, or one ending in "=" (two bytes)
      or in "==" (one byte). Like Go's non-strict decoder, the bits the padding leaves unused
      are not checked. */
  function DecodeFinal(q: string): Option<Bytes>
    requires |q| == 4
  {
    if q[3] != Pad then DecodeQuantum(q)
    else if q[2] == Pad then
      match (Index(q[0]), Index(q[1]))
      case (Some(v0), Some(v1)) => Some([First(v0, v1)])
      case _ => None
    else
      match (Index(q[0]), Index(q[1]), Index(q[2]))
      case (Some(v0), Some(v1), Some(v2)) =>
        Some([First(v0, v1), Second(v1, v2)])
      case _ => None
  }

  /** `base64.StdEncoding.DecodeString`: None for input that is not padded standard base64.
      A text is accepted exactly when its length is a multiple of four and it is well padded;
      an accepted text has exactly the length the encoding of its decoded value has. */
  function Decode(s: string): (r: Option<Bytes>)
    ensures r.Some? <==> |s| % 4 == 0 && WellPadded(s)
    ensures r.Some? ==> |s| == EncodedLength(|r.value|)
    decreases |s|
  {
    if |s| == 0 then Some([])
    else if |s| < 4 then None
    else if |s| == 4 then
      DecodeFinalShape(s);
      DecodeFinal(s)
    else
      var head, tail := DecodeQuantum(s[..4]), Decode(s[4..]);
      DecodeStep(s, head, tail);
      if head.Some? && tail.Some? then Some(head.value + tail.value) else None
  }

  /** Padding, if any, is "=" or "==" at the very end; every other character is in the
      alphabet. */
  predicate WellPadded(s: string) {
    && (forall i :: 0 <= i < |s| ==> PadOk(s, i))
    && (|s| >= 2 && s[|s| - 2] == Pad ==> s[|s| - 1] == Pad)
  }

  /** Position i of s holds an alphabet character, or padding in one of the last two places. */
  predicate PadOk(s: string, i: nat)
    requires i < |s|
  {
    InAlphabet(s[i]) || (i >= |s| - 2 && s[i] == Pad)
  }

  /** What Decode promises, for a text of exactly four characters. */
  lemma DecodeFinalShape(q: string)
    requires |q| == 4
    ensures DecodeFinal(q).Some? <==> WellPadded(q)
    ensures DecodeFinal(q).Some? ==>
      1 <= |DecodeFinal(q).value| <= 3 && EncodedLength(|DecodeFinal(q).value|) == 4
  {
    if WellPadded(q) {
      assert PadOk(q, 0) && PadOk(q, 1) && PadOk(q, 2) && PadOk(q, 3);
    }
    if DecodeFinal(q).Some? {
      forall i | 0 <= i < 4
        ensures PadOk(q, i)
      {
        assert i == 0 || i == 1 || i == 2 || i == 3;
      }
    }
  }

  /** A well-padded text of two or more whole quanta starts with a full quantum, and the
      rest of it is well padded too. */
  lemma WellPaddedSplits(s: string)
    requires |s| > 4
    ensures |s| % 4 == 0 && WellPadded(s) ==> DecodeQuantum(s[..4]).Some? && WellPadded(s[4..])
  {
    if |s| % 4 == 0 && WellPadded(s) {
      var q, rest := s[..4], s[4..];
      assert q[0] == s[0] && q[1] == s[1] && q[2] == s[2] && q[3] == s[3];
      assert PadOk(s, 0) && PadOk(s, 1) && PadOk(s, 2) && PadOk(s, 3);
      forall i | 0 <= i < |rest|
        ensures PadOk(rest, i)
      {
        assert rest[i] == s[i + 4] && PadOk(s, i + 4);
      }
      if |rest| >= 2 {
        assert s[|s| - 2] == rest[|rest| - 2] && s[|s| - 1] == rest[|rest| - 1];
      }
    }
  }

  /** What Decode promises for a text longer than four characters, given what it promises
      for the text after the first quantum. */
  lemma DecodeStep(s: string, head: Option<Bytes>, tail: Option<Bytes>)
    requires |s| > 4 && head == DecodeQuantum(s[..4])
    requires tail.Some? <==> |s[4..]| % 4 == 0 && WellPadded(s[4..])
    requires tail.Some? ==> |s[4..]| == EncodedLength(|tail.value|)
    ensures head.Some? && tail.Some? <==> |s| % 4 == 0 && WellPadded(s)
    ensures head.Some? && tail.Some? ==> |s| == EncodedLength(|head.value + tail.value|)
  {
    assert |s[4..]| == |s| - 4;
    WellPaddedSplits(s);
    if head.Some? && tail.Some? {
      assert |head.value| == 3 && |tail.value| > 0;
      DecodeLengthStep(head.value, tail.value);
      QuantumThenWellPadded(s);
    }
  }

  /** A full quantum in front of a non-empty decoded tail adds four characters. */
  lemma DecodeLengthStep(head: Bytes, tail: Bytes)
    requires |head| == 3 && |tail| > 0
    ensures EncodedLength(|head + tail|) == 4 + EncodedLength(|tail|)
  {
    assert |head + tail| - 3 == |tail|;
  }

  lemma QuantumInAlphabet(q: string)
    requires |q| == 4 && DecodeQuantum(q).Some?
    ensures InAlphabet(q[0]) && InAlphabet(q[1]) && InAlphabet(q[2]) && InAlphabet(q[3])
  {
  }

  /** A text that starts with a full quantum and goes on well padded is well padded. */
  lemma QuantumThenWellPadded(s: string)
    requires |s| > 4 && DecodeQuantum(s[..4]).Some? && WellPadded(s[4..])
    ensures WellPadded(s)
  {
    var q, rest := s[..4], s[4..];
    QuantumInAlphabet(q);
    forall i | 0 <= i < |s|
      ensures PadOk(s, i)
    {
      if i < 4 {
        assert s[i] == q[i];
      } else {
        assert s[i] == rest[i - 4] && PadOk(rest, i - 4);
      }
    }
    if |rest| >= 2 {
      assert s[|s| - 2] == rest[|rest| - 2] && s[|s| - 1] == rest[|rest| - 1];
    }
  }

  lemma FirstRestores(x0: byte, x1: byte)
    ensures First(x0 as int / 4, (x0 as int % 4) * 16 + x1 as int / 16) == x0
  {
    var v1 := (x0 as int % 4) * 16 + x1 as int / 16;
    assert v1 / 16 == x0 as int % 4;
  }

  /** The second byte comes back from the low 4 bits of its group and the next group's
      top 4 bits. */
  lemma SecondRestores(x0: byte, x1: byte, x2: byte)
    ensures Second((x0 as int % 4) * 16 + x1 as int / 16, (x1 as int % 16) * 4 + x2 as int / 64) == x1
  {
    var v1, v2 := (x0 as int % 4) * 16 + x1 as int / 16, (x1 as int % 16) * 4 + x2 as int / 64;
    assert v1 % 16 == x1 as int / 16;
    assert v2 / 4 == x1 as int % 16;
  }

  /** The third byte comes back from the low 2 bits of its group and the last group. */
  lemma ThirdRestores(x1: byte, x2: byte)
    ensures Third((x1 as int % 16) * 4 + x2 as int / 64, x2 as int % 64) == x2
  {
    var v2 := (x1 as int % 16) * 4 + x2 as int / 64;
    assert v2 % 4 == x2 as int / 64;
  }

  lemma QuantumRoundTrip(b0: byte, b1: byte, b2: byte)
    ensures DecodeQuantum(EncodeQuantum(b0, b1, b2)) == Some([b0, b1, b2])
  {
    var x0, x1, x2 := b0 as int, b1 as int, b2 as int;
    IndexOfChar(x0 / 4);
    IndexOfChar((x0 % 4) * 16 + x1 / 16);
    IndexOfChar((x1 % 16) * 4 + x2 / 64);
    IndexOfChar(x2 % 64);
    FirstRestores(b0, b1);
    SecondRestores(b0, b1, b2);
    ThirdRestores(b1, b2);
  }

  lemma OneRoundTrip(b0: byte)
    ensures DecodeFinal(EncodeOne(b0)) == Some([b0])
  {
    var x0 := b0 as int;
    var q := EncodeOne(b0);
    IndexOfChar(x0 / 4);
    IndexOfChar((x0 % 4) * 16);
    assert q[3] == Pad && q[2] == Pad;
    FirstRestores(b0, 0);
  }

  lemma TwoRoundTrip(b0: byte, b1: byte)
    ensures DecodeFinal(EncodeTwo(b0, b1)) == Some([b0, b1])
  {
    var x0, x1 := b0 as int, b1 as int;
    var q := EncodeTwo(b0, b1);
    IndexOfChar(x0 / 4);
    IndexOfChar((x0 % 4) * 16 + x1 / 16);
    IndexOfChar((x1 % 16) * 4);
    assert q[3] == Pad && q[2] != Pad;
    FirstRestores(b0, b1);
    SecondRestores(b0, b1, 0);
  }

  /** A full quantum followed by more valid input decodes to the quantum's bytes followed
      by the rest's. */
  lemma DecodeQuantumThen(q: string, rest: string)
    requires |q| == 4 && |rest| > 0
    requires DecodeQuantum(q).Some? && Decode(rest).Some?
    ensures Decode(q + rest) == Some(DecodeQuantum(q).value + Decode(rest).value)
  {
    var s := q + rest;
    assert s[..4] == q && s[4..] == rest;
  }

  lemma DecodeEncodeOne(b: Bytes)
    requires |b| == 1
    ensures Decode(Encode(b)) == Some(b)
  {
    assert b == [b[0]];
    assert Encode(b) == EncodeOne(b[0]);
    OneRoundTrip(b[0]);
  }

  lemma DecodeEncodeTwo(b: Bytes)
    requires |b| == 2
    ensures Decode(Encode(b)) == Some(b)
  {
    assert b == [b[0], b[1]];
    assert Encode(b) == EncodeTwo(b[0], b[1]);
    TwoRoundTrip(b[0], b[1]);
  }

  lemma DecodeEncodeThree(b: Bytes)
    requires |b| == 3
    ensures Decode(Encode(b)) == Some(b)
  {
    assert b == [b[0], b[1], b[2]];
    assert Encode(b[3..]) == "";
    assert Encode(b) == EncodeQuantum(b[0], b[1], b[2]);
    IndexOfChar(b[2] as int % 64);
    QuantumRoundTrip(b[0], b[1], b[2]);
  }

  lemma SplitThree(b: Bytes)
    requires |b| >= 3
    ensures b == [b[0], b[1], b[2]] + b[3..]
  {
    assert b[..3] == [b[0], b[1], b[2]];
    assert b == b[..3] + b[3..];
  }

  /** One step of the round trip: a leading group of three bytes, then the rest. */
  lemma DecodeEncodeStep(b: Bytes)
    requires |b| > 3 && Decode(Encode(b[3..])) == Some(b[3..])
    ensures Decode(Encode(b)) == Some(b)
  {
    SplitThree(b);
    var q, rest := EncodeQuantum(b[0], b[1], b[2]), Encode(b[3..]);
    assert Encode(b) == q + rest;
    QuantumRoundTrip(b[0], b[1], b[2]);
    DecodeQuantumThen(q, rest);
  }

  /** Decoding undoes encoding, for every byte sequence. */
  lemma {:induction false} DecodeEncode(b: Bytes)
    ensures Decode(Encode(b)) == Some(b)
    decreases |b|
  {
    if |b| == 0 {
      assert Encode(b) == "";
    } else if |b| == 1 {
      DecodeEncodeOne(b);
    } else if |b| == 2 {
      DecodeEncodeTwo(b);
    } else if |b| == 3 {
      DecodeEncodeThree(b);
    } else {
      DecodeEncode(b[3..]);
      DecodeEncodeStep(b);
    }
  }

  /** "AAAA" is valid and stands for three zero bytes. */
  lemma DecodeZeroQuantum()
    ensures Decode("AAAA") == Some([0, 0, 0])
  {
    var zeros: Bytes := [0, 0, 0];
    assert Char(0) == 'A';
    assert zeros[3..] == [];
    assert Encode(zeros) == EncodeQuantum(0, 0, 0) + Encode([]);
    assert Encode(zeros) == "AAAA";
    DecodeEncode(zeros);
  }

  /** The bits that padding leaves unused are not checked: "Zh==" is not what Encode
      produces for any input ("f" encodes as "Zg=="), yet it decodes to "f". */
  lemma DecodeIgnoresUnusedBits()
    ensures Decode("Zh==") == Some([102])
  {
    var s := "Zh==";
    assert Index(s[0]) == Some(25) && Index(s[1]) == Some(33);
    assert First(25, 33) == 102;
    assert DecodeFinal(s) == Some([102]);
  }

  /** Test vectors of section 10 of RFC 4648, which tie the codec to the standard's bit order
      and alphabet; with DecodeEncode, each text decodes back to its bytes. */
  lemma VectorF()
    ensures Encode(AsciiBytes("f")) == "Zg=="
  {
    var b := AsciiBytes("f");
    assert b == [102];
    assert Encode(b) == EncodeOne(102);
    assert Char(25) == 'Z' && Char(32) == 'g';
  }

  lemma VectorFo()
    ensures Encode(AsciiBytes("fo")) == "Zm8="
  {
    var b := AsciiBytes("fo");
    assert b == [102, 111];
    assert Encode(b) == EncodeTwo(102, 111);
    assert Char(25) == 'Z' && Char(38) == 'm' && Char(60) == '8';
  }

  lemma QuantumFoo()
    ensures EncodeQuantum(102, 111, 111) == "Zm9v"
  {
    assert Char(25) == 'Z' && Char(38) == 'm' && Char(61) == '9' && Char(47) == 'v';
  }

  lemma QuantumBar()
    ensures EncodeQuantum(98, 97, 114) == "YmFy"
  {
    assert Char(24) == 'Y' && Char(38) == 'm' && Char(5) == 'F' && Char(50) == 'y';
  }

  lemma VectorFoo()
    ensures Encode(AsciiBytes("foo")) == "Zm9v"
  {
    var b := AsciiBytes("foo");
    assert b == [102, 111, 111];
    EncodeThree(b);
    QuantumFoo();
  }

  lemma VectorFoobar()
    ensures Encode(AsciiBytes("foobar")) == "Zm9vYmFy"
  {
    var b := AsciiBytes("foobar");
    assert b == [102, 111, 111, 98, 97, 114];
    var bar: Bytes := [98, 97, 114];
    assert b[3..] == bar;
    EncodeThree(bar);
    QuantumBar();
    QuantumFoo();
  }

  /** The encoding of exactly three bytes is one quantum, without padding. */
  lemma EncodeThree(b: Bytes)
    requires |b| == 3
    ensures Encode(b) == EncodeQuantum(b[0], b[1], b[2])
  {
    assert b[3..] == [];
    assert Encode(b) == EncodeQuantum(b[0], b[1], b[2]) + Encode([]);
  }

  /** Input whose length is not a multiple of four is rejected. */
  lemma DecodeRejectsLength(s: string)
    requires |s| % 4 != 0
    ensures Decode(s) == None
  {
  }

  /** A character that is neither in the alphabet nor padding anywhere in the input makes
      it invalid. */
  lemma {:induction false} DecodeRejectsForeign(s: string, i: nat)
    requires i < |s| && !InAlphabet(s[i]) && s[i] != Pad
    ensures Decode(s) == None
    decreases |s|
  {
    if |s| > 4 && i >= 4 {
      DecodeRejectsForeign(s[4..], i - 4);
    }
  }
}
