/** Standard padded base64 (section 4 of RFC 4648) over bytes: the encoder the
    uploader applies to each chunk (base64.StdEncoding.EncodeToString) and the
    decoder the restore script applies to each line ([System.Convert]::FromBase64String,
    which skips whitespace and decodes the rest strictly).
    Encoded text is kept as bytes, as a Go string is. */
module Base64 {
  import opened Errors

  type Byte = x: int | 0 <= x < 256

  /** The pad character '='. */
  const Pad: Byte := '=' as int

  /** The character of the alphabet (RFC 4648, section 4, Table 1) for a 6-bit value. */
  function Symbol(v: int): Byte
    requires 0 <= v < 64
  {
    if v < 26 then 'A' as int + v
    else if v < 52 then 'a' as int + (v - 26)
    else if v < 62 then '0' as int + (v - 52)
    else if v == 62 then '+' as int
    else '/' as int
  }

  /** The 6-bit value of an alphabet character; None for any other byte, the pad included. */
  function Value(c: Byte): (r: Option<int>)
    ensures r.Some? ==> 0 <= r.value < 64
  {
    if 'A' as int <= c <= 'Z' as int then Some(c - 'A' as int)
    else if 'a' as int <= c <= 'z' as int then Some(c - 'a' as int + 26)
    else if '0' as int <= c <= '9' as int then Some(c - '0' as int + 52)
    else if c == '+' as int then Some(62)
    else if c == '/' as int then Some(63)
    else None
  }

  /** Symbol and Value are inverse: the alphabet is 64 distinct characters. */
  lemma ValueInvertsSymbol(v: int, c: Byte)
    requires 0 <= v < 64
    ensures Value(Symbol(v)) == Some(v)
    ensures Value(c) == Some(v) ==> Symbol(v) == c
  {
  }

  function EncodeGroup(a: Byte, b: Byte, c: Byte): seq<Byte>
  {
    [Symbol(a / 4), Symbol((a % 4) * 16 + b / 16), Symbol((b % 16) * 4 + c / 64), Symbol(c % 64)]
  }

  function EncodeTwo(a: Byte, b: Byte): seq<Byte>
  {
    [Symbol(a / 4), Symbol((a % 4) * 16 + b / 16), Symbol((b % 16) * 4), Pad]
  }

  function EncodeOne(a: Byte): seq<Byte>
  {
    [Symbol(a / 4), Symbol((a % 4) * 16), Pad, Pad]
  }

  /** Padded standard encoding, no line wrapping: whole 3-byte groups first,
      then the one or two bytes left over, if any, as a padded final quad. */
  function Encode(data: seq<Byte>): seq<Byte>
    decreases |data|
  {
    if |data| < 3 then EncodeTail(data)
    else EncodeGroup(data[0], data[1], data[2]) + Encode(data[3..])
  }

  /** The encoding of fewer than three bytes. */
  function EncodeTail(data: seq<Byte>): seq<Byte>
    requires |data| < 3
  {
    if |data| == 0 then []
    else if |data| == 1 then EncodeOne(data[0])
    else EncodeTwo(data[0], data[1])
  }

  /** The length of the encoding of n bytes: 4 * ceil(n / 3). */
  function EncodedLength(n: nat): nat
  {
    4 * ((n + 2) / 3)
  }

  /** Decodes one quad; padding is accepted only in the final quad. */
  function DecodeQuad(q: seq<Byte>, final: bool): (r: Option<seq<Byte>>)
    requires |q| == 4
    ensures r.Some? ==> 1 <= |r.value| <= 3
  {
    var v0, v1, v2, v3 := Value(q[0]), Value(q[1]), Value(q[2]), Value(q[3]);
    if v0.None? || v1.None? then None
    else if final && q[2] == Pad && q[3] == Pad then
      Some([v0.value * 4 + v1.value / 16])
    else if final && q[3] == Pad then
      if v2.None? then None
      else Some([v0.value * 4 + v1.value / 16, (v1.value % 16) * 16 + v2.value / 4])
    else if v2.None? || v3.None? then None
    else Some([v0.value * 4 + v1.value / 16, (v1.value % 16) * 16 + v2.value / 4, (v2.value % 4) * 64 + v3.value])
  }

  /** Decodes a whole line; None when its length is not a multiple of 4, a
      character is outside the alphabet, or padding occurs before the end. */
  function Decode(text: seq<Byte>): Option<seq<Byte>>
    decreases |text|
  {
    if |text| == 0 then Some([])
    else if |text| < 4 then None
    else
      match DecodeQuad(text[..4], |text| == 4)
      case None => None
      case Some(head) =>
        match Decode(text[4..])
        case None => None
        case Some(tail) => Some(head + tail)
  }

  /** The characters FromBase64String skips wherever they occur: space, tab,
      LF and CR. */
  predicate IsWhitespace(b: Byte)
  {
    b == 32 || b == 9 || b == 10 || b == 13
  }

  /** The text with every whitespace character removed, the rest in order. */
  function StripWhitespace(text: seq<Byte>): (r: seq<Byte>)
    ensures |r| <= |text|
    ensures forall i :: 0 <= i < |r| ==> !IsWhitespace(r[i])
    decreases |text|
  {
    if |text| == 0 then []
    else if IsWhitespace(text[0]) then StripWhitespace(text[1..])
    else [text[0]] + StripWhitespace(text[1..])
  }

  /** [System.Convert]::FromBase64String: whitespace is skipped, and what
      remains is decoded strictly. */
  function FromBase64(text: seq<Byte>): Option<seq<Byte>>
  {
    Decode(StripWhitespace(text))
  }

  // ---- properties of the encoding ----

  lemma {:induction false} EncodeLength(data: seq<Byte>)
    ensures |Encode(data)| == EncodedLength(|data|)
    decreases |data|
  {
    if |data| >= 3 {
      EncodeLength(data[3..]);
      assert |Encode(data)| == 4 + |Encode(data[3..])|;
      EncodedLengthStep(|data|);
    }
  }

  /** Longer input, longer encoding; any input byte yields a quad. */
  lemma EncodedLengthMonotone(n: nat, m: nat)
    requires n <= m
    ensures EncodedLength(n) <= EncodedLength(m)
    ensures 0 < n ==> 4 <= EncodedLength(n)
  {
    assert (n + 2) / 3 <= (m + 2) / 3;
  }

  lemma EncodedLengthStep(n: nat)
    requires n >= 3
    ensures EncodedLength(n) == 4 + EncodedLength(n - 3)
  {
    assert (n + 2) / 3 == (n - 1) / 3 + 1;
  }

  /** Every encoded character is in the alphabet or is the pad; none is
      whitespace, so in particular none is a line break. */
  lemma {:induction false} EncodeHasNoWhitespace(data: seq<Byte>)
    ensures forall i :: 0 <= i < |Encode(data)| ==> !IsWhitespace(Encode(data)[i])
    decreases |data|
  {
    if |data| >= 3 {
      EncodeHasNoWhitespace(data[3..]);
    }
  }

  /** A whole number of 3-byte groups encodes without padding. */
  lemma {:induction false} EncodeUnpadded(data: seq<Byte>)
    requires |data| % 3 == 0
    ensures forall i :: 0 <= i < |Encode(data)| ==> Encode(data)[i] != Pad
    decreases |data|
  {
    if |data| >= 3 {
      EncodeUnpadded(data[3..]);
    }
  }

  /** Encoding distributes over concatenation when the first part is whole groups. */
  lemma {:induction false} EncodeAppend(a: seq<Byte>, b: seq<Byte>)
    requires |a| % 3 == 0
    ensures Encode(a + b) == Encode(a) + Encode(b)
    decreases |a|
  {
    if |a| == 0 {
      assert a + b == b;
    } else {
      var ab := a + b;
      assert |a| >= 3;
      var group := EncodeGroup(a[0], a[1], a[2]);
      assert ab[0] == a[0] && ab[1] == a[1] && ab[2] == a[2];
      assert ab[3..] == a[3..] + b;
      EncodeAppend(a[3..], b);
      calc {
        Encode(ab);
        group + Encode(a[3..] + b);
        group + (Encode(a[3..]) + Encode(b));
        (group + Encode(a[3..])) + Encode(b);
        Encode(a) + Encode(b);
      }
    }
  }

  /** A line of exactly one quad decodes as a final quad. */
  lemma DecodeOneQuad(q: seq<Byte>)
    requires |q| == 4
    ensures Decode(q) == DecodeQuad(q, true)
  {
    assert q[..4] == q;
    assert Decode(q[4..]) == Some([]);
    match DecodeQuad(q, true)
    case None =>
    case Some(head) => assert head + [] == head;
  }

  /** A quad followed by more text must decode without padding. */
  lemma DecodeMoreQuads(q: seq<Byte>, rest: seq<Byte>)
    requires |q| == 4 && |rest| > 0
    ensures Decode(q + rest) ==
      match DecodeQuad(q, false)
      case None => None
      case Some(head) =>
        match Decode(rest)
        case None => None
        case Some(tail) => Some(head + tail)
  {
    assert (q + rest)[..4] == q;
    assert (q + rest)[4..] == rest;
  }

  lemma GroupRoundTrip(a: Byte, b: Byte, c: Byte, final: bool)
    ensures DecodeQuad(EncodeGroup(a, b, c), final) == Some([a, b, c])
  {
    var v0, v1, v2, v3 := a / 4, (a % 4) * 16 + b / 16, (b % 16) * 4 + c / 64, c % 64;
    ValueInvertsSymbol(v0, 0);
    ValueInvertsSymbol(v1, 0);
    ValueInvertsSymbol(v2, 0);
    ValueInvertsSymbol(v3, 0);
    DecodeFullQuad(EncodeGroup(a, b, c), final, v0, v1, v2, v3);
    GroupArithmetic(a, b, c);
  }

  /** A quad of four alphabet characters decodes to three bytes, final or not. */
  lemma DecodeFullQuad(q: seq<Byte>, final: bool, v0: int, v1: int, v2: int, v3: int)
    requires |q| == 4
    requires Value(q[0]) == Some(v0) && Value(q[1]) == Some(v1)
    requires Value(q[2]) == Some(v2) && Value(q[3]) == Some(v3)
    ensures DecodeQuad(q, final) == Some([v0 * 4 + v1 / 16, (v1 % 16) * 16 + v2 / 4, (v2 % 4) * 64 + v3])
  {
    assert Value(Pad) == None;
  }

  /** The 6-bit pieces of three bytes put back together give the bytes. */
  lemma GroupArithmetic(a: Byte, b: Byte, c: Byte)
    ensures var v0, v1, v2, v3 := a / 4, (a % 4) * 16 + b / 16, (b % 16) * 4 + c / 64, c % 64;
      v0 * 4 + v1 / 16 == a && (v1 % 16) * 16 + v2 / 4 == b && (v2 % 4) * 64 + v3 == c
  {
    assert ((a % 4) * 16 + b / 16) / 16 == a % 4;
    assert ((a % 4) * 16 + b / 16) % 16 == b / 16;
    assert ((b % 16) * 4 + c / 64) / 4 == b % 16;
    assert ((b % 16) * 4 + c / 64) % 4 == c / 64;
  }

  lemma TwoRoundTrip(a: Byte, b: Byte)
    ensures DecodeQuad(EncodeTwo(a, b), true) == Some([a, b])
  {
    ValueInvertsSymbol(a / 4, 0);
    ValueInvertsSymbol((a % 4) * 16 + b / 16, 0);
    ValueInvertsSymbol((b % 16) * 4, 0);
    assert ((a % 4) * 16 + b / 16) / 16 == a % 4;
    assert ((a % 4) * 16 + b / 16) % 16 == b / 16;
    assert ((b % 16) * 4) / 4 == b % 16;
  }

  lemma OneRoundTrip(a: Byte)
    ensures DecodeQuad(EncodeOne(a), true) == Some([a])
  {
    ValueInvertsSymbol(a / 4, 0);
    ValueInvertsSymbol((a % 4) * 16, 0);
    assert ((a % 4) * 16) / 16 == a % 4;
  }

  /** Decoding undoes encoding, for every byte sequence, the empty one included. */
  lemma {:induction false} DecodeEncode(data: seq<Byte>)
    ensures Decode(Encode(data)) == Some(data)
    decreases |data|
  {
    if |data| == 1 {
      OneRoundTrip(data[0]);
      DecodeOneQuad(EncodeOne(data[0]));
      assert data == [data[0]];
    } else if |data| == 2 {
      TwoRoundTrip(data[0], data[1]);
      DecodeOneQuad(EncodeTwo(data[0], data[1]));
      assert data == [data[0], data[1]];
    } else if |data| >= 3 {
      var group := EncodeGroup(data[0], data[1], data[2]);
      var rest := Encode(data[3..]);
      assert data == [data[0], data[1], data[2]] + data[3..];
      DecodeEncode(data[3..]);
      if |rest| == 0 {
        assert Encode(data) == group;
        GroupRoundTrip(data[0], data[1], data[2], true);
        DecodeOneQuad(group);
        assert data[3..] == [];
      } else {
        GroupRoundTrip(data[0], data[1], data[2], false);
        DecodeMoreQuads(group, rest);
      }
    }
  }

  /** Text without whitespace is left as it is. */
  lemma {:induction false} StripWhitespaceKeepsClean(text: seq<Byte>)
    requires forall i :: 0 <= i < |text| ==> !IsWhitespace(text[i])
    ensures StripWhitespace(text) == text
    decreases |text|
  {
    if |text| > 0 {
      StripWhitespaceKeepsClean(text[1..]);
      assert [text[0]] + text[1..] == text;
    }
  }

  /** Removing whitespace distributes over concatenation. */
  lemma {:induction false} StripWhitespaceAppend(a: seq<Byte>, b: seq<Byte>)
    ensures StripWhitespace(a + b) == StripWhitespace(a) + StripWhitespace(b)
    decreases |a|
  {
    if |a| > 0 {
      assert (a + b)[1..] == a[1..] + b;
      StripWhitespaceAppend(a[1..], b);
    } else {
      assert a + b == b;
    }
  }

  /** FromBase64String inverts the encoder. */
  lemma FromBase64Encode(data: seq<Byte>)
    ensures FromBase64(Encode(data)) == Some(data)
  {
    EncodeHasNoWhitespace(data);
    StripWhitespaceKeepsClean(Encode(data));
    DecodeEncode(data);
  }

  /** A whitespace character anywhere in the text does not change the result. */
  lemma FromBase64SkipsWhitespace(a: seq<Byte>, w: Byte, b: seq<Byte>)
    requires IsWhitespace(w)
    ensures FromBase64(a + [w] + b) == FromBase64(a + b)
  {
    StripWhitespaceAppend(a + [w], b);
    StripWhitespaceAppend(a, [w]);
    StripWhitespaceAppend(a, b);
    assert StripWhitespace([w]) == [] by {
      assert [w][1..] == [];
    }
    assert StripWhitespace(a + [w]) == StripWhitespace(a);
  }

  /** "QQ==" followed by a space decodes to the single byte 'A'. */
  lemma FromBase64TrailingSpace()
    ensures FromBase64(['Q' as int, 'Q' as int, Pad, Pad, ' ' as int]) == Some(['A' as int])
  {
    var quad: seq<Byte> := ['Q' as int, 'Q' as int, Pad, Pad];
    assert Encode(['A' as int]) == quad;
    FromBase64Encode(['A' as int]);
    FromBase64SkipsWhitespace(quad, ' ' as int, []);
    assert quad + [' ' as int] + [] == ['Q' as int, 'Q' as int, Pad, Pad, ' ' as int];
    assert quad + [] == quad;
  }

  /** Why chunks must be whole groups: once a padded encoding is followed by
      more text on the same line, the line no longer decodes. */
  lemma PaddedThenMoreFails(a: seq<Byte>, b: seq<Byte>)
    requires |a| % 3 != 0 && |b| > 0
    ensures Decode(Encode(a) + Encode(b)) == None
  {
    EncodeLength(b);
    PaddedBeforeTextFails(a, Encode(b));
  }

  lemma ModThreeStep(n: nat)
    requires n >= 3
    ensures (n - 3) % 3 == n % 3
  {
  }

  /** A padded encoding followed by any text does not decode. */
  lemma {:induction false} PaddedBeforeTextFails(a: seq<Byte>, t: seq<Byte>)
    requires |a| % 3 != 0 && |t| > 0
    ensures Decode(Encode(a) + t) == None
    decreases |a|
  {
    if |a| >= 3 {
      ModThreeStep(|a|);
      PaddedBeforeTextFails(a[3..], t);
      GroupBeforeFailure(a, t);
    } else {
      PaddedQuadNotFinal(a);
      DecodeMoreQuads(Encode(a), t);
    }
  }

  /** A whole group in front of text that does not decode does not help. */
  lemma GroupBeforeFailure(a: seq<Byte>, t: seq<Byte>)
    requires |a| >= 3 && Decode(Encode(a[3..]) + t) == None
    ensures Decode(Encode(a) + t) == None
  {
    var group: seq<Byte> := EncodeGroup(a[0], a[1], a[2]);
    var tail: seq<Byte> := Encode(a[3..]) + t;
    assert Encode(a) + t == group + tail by {
      assert Encode(a) == group + Encode(a[3..]);
    }
    DecodeMoreQuads(group, tail);
  }

  /** The encoding of one or two bytes ends in padding, which a quad that is
      not the last one may not hold. */
  lemma PaddedQuadNotFinal(a: seq<Byte>)
    requires 1 <= |a| <= 2
    ensures |Encode(a)| == 4 && DecodeQuad(Encode(a), false) == None
  {
    assert Value(Encode(a)[3]) == None;
  }
}
