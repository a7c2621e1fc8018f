/** The base64url encoding without padding of section 5 of RFC 4648. */
module Base64Url {
  type Byte = x: int | 0 <= x < 256
  type Digit = x: int | 0 <= x < 64

  function Letter(d: Digit): char {
    if d < 26 then ('A' as int + d) as char
    else if d < 52 then ('a' as int + d - 26) as char
    else if d < 62 then ('0' as int + d - 52) as char
    else if d == 62 then '-'
    else '_'
  }

  predicate InAlphabet(c: char) {
    'A' <= c <= 'Z' || 'a' <= c <= 'z' || '0' <= c <= '9' || c == '-' || c == '_'
  }

  function DigitOf(c: char): (d: Digit)
    requires InAlphabet(c)
    ensures Letter(d) == c
  {
    if 'A' <= c <= 'Z' then c as int - 'A' as int
    else if 'a' <= c <= 'z' then c as int - 'a' as int + 26
    else if '0' <= c <= '9' then c as int - '0' as int + 52
    else if c == '-' then 62
    else 63
  }

  lemma DigitOfLetter(d: Digit)
    ensures InAlphabet(Letter(d)) && DigitOf(Letter(d)) == d
  {
  }

  /** Table 2 of RFC 4648: two runs of 26 letters, a run of ten digits, and two signs. */
  lemma LettersMean(d: Digit)
    ensures Letter(0) == 'A' && Letter(26) == 'a' && Letter(52) == '0' && Letter(62) == '-' && Letter(63) == '_'
    ensures d !in {25, 51, 61, 62, 63} ==> Letter(d + 1) as int == Letter(d) as int + 1
  {
  }

  // The four digits of three bytes.

  function Digit1(x: Byte): Digit {
    x / 4
  }

  function Digit2(x: Byte, y: Byte): Digit {
    x % 4 * 16 + y / 16
  }

  function Digit3(y: Byte, z: Byte): Digit {
    y % 16 * 4 + z / 64
  }

  function Digit4(z: Byte): Digit {
    z % 64
  }

  /** Three bytes make four digits; a rest of one or two bytes makes two or three, filled up with zero bits. */
  function Digits(bytes: seq<Byte>): seq<Digit> {
    if bytes == [] then []
    else if |bytes| == 1 then [Digit1(bytes[0]), Digit2(bytes[0], 0)]
    else if |bytes| == 2 then [Digit1(bytes[0]), Digit2(bytes[0], bytes[1]), Digit3(bytes[1], 0)]
    else
      [Digit1(bytes[0]), Digit2(bytes[0], bytes[1]), Digit3(bytes[1], bytes[2]), Digit4(bytes[2])] + Digits(bytes[3..])
  }

  /** A group of 24 bits is read as four digits with the same value; a rest of 8 or 16 bits is filled up with zeros to
      two or three digits (section 4 of RFC 4648). */
  lemma DigitsMean(bytes: seq<Byte>)
    ensures |bytes| == 1 ==>
      && |Digits(bytes)| == 2
      && 64 * Digits(bytes)[0] as int + Digits(bytes)[1] == 16 * bytes[0] as int
    ensures |bytes| == 2 ==>
      && |Digits(bytes)| == 3
      && 4096 * Digits(bytes)[0] as int + 64 * Digits(bytes)[1] as int + Digits(bytes)[2] ==
         4 * (256 * bytes[0] as int + bytes[1])
    ensures |bytes| >= 3 ==>
      && |Digits(bytes)| >= 4
      && 262144 * Digits(bytes)[0] as int + 4096 * Digits(bytes)[1] as int + 64 * Digits(bytes)[2] as int +
         Digits(bytes)[3] == 65536 * bytes[0] as int + 256 * bytes[1] as int + bytes[2]
      && Digits(bytes)[4..] == Digits(bytes[3..])
  {
  }

  // The three bytes of four digits.

  function Byte1(a: Digit, b: Digit): Byte {
    a as int * 4 + b / 16
  }

  function Byte2(b: Digit, c: Digit): Byte {
    b as int % 16 * 16 + c / 4
  }

  function Byte3(c: Digit, d: Digit): Byte {
    c as int % 4 * 64 + d
  }

  function Bytes(digits: seq<Digit>): seq<Byte> {
    if |digits| < 2 then []
    else if |digits| == 2 then [Byte1(digits[0], digits[1])]
    else if |digits| == 3 then [Byte1(digits[0], digits[1]), Byte2(digits[1], digits[2])]
    else [Byte1(digits[0], digits[1]), Byte2(digits[1], digits[2]), Byte3(digits[2], digits[3])] + Bytes(digits[4..])
  }

  function Encode(bytes: seq<Byte>): (text: string)
    ensures |text| == |Digits(bytes)|
  {
    var digits := Digits(bytes);
    seq(|digits|, i requires 0 <= i < |digits| => Letter(digits[i]))
  }

  /** The decoder that reads alphabet characters only. */
  function Decode(text: string): seq<Byte>
    requires forall c :: c in text ==> InAlphabet(c)
  {
    Bytes(seq(|text|, i requires 0 <= i < |text| => DigitOf(text[i])))
  }

  lemma {:induction false} BytesOfDigits(bytes: seq<Byte>)
    ensures Bytes(Digits(bytes)) == bytes
  {
    hide Digit1, Digit2, Digit3, Digit4, Byte1, Byte2, Byte3;
    if |bytes| == 1 {
      BytesOfGroup(bytes[0], 0, 0);
    } else if |bytes| == 2 {
      BytesOfGroup(bytes[0], bytes[1], 0);
    } else if |bytes| >= 3 {
      BytesOfGroup(bytes[0], bytes[1], bytes[2]);
      BytesOfDigits(bytes[3..]);
      assert Digits(bytes)[4..] == Digits(bytes[3..]);
      assert bytes == [bytes[0], bytes[1], bytes[2]] + bytes[3..];
    }
  }

  lemma BytesOfGroup(x: Byte, y: Byte, z: Byte)
    ensures Byte1(Digit1(x), Digit2(x, y)) == x
    ensures Byte2(Digit2(x, y), Digit3(y, z)) == y
    ensures Byte3(Digit3(y, z), Digit4(z)) == z
  {
  }

  lemma EncodeUsesAlphabet(bytes: seq<Byte>)
    ensures forall c :: c in Encode(bytes) ==> InAlphabet(c)
    ensures '.' !in Encode(bytes)
  {
  }

  /** Every byte string survives encoding. */
  lemma DecodeOfEncode(bytes: seq<Byte>)
    ensures forall c :: c in Encode(bytes) ==> InAlphabet(c)
    ensures Decode(Encode(bytes)) == bytes
  {
    EncodeUsesAlphabet(bytes);
    var text := Encode(bytes);
    forall i | 0 <= i < |text| ensures InAlphabet(text[i]) && DigitOf(text[i]) == Digits(bytes)[i] {
      DigitOfLetter(Digits(bytes)[i]);
    }
    assert seq(|text|, i requires 0 <= i < |text| => DigitOf(text[i])) == Digits(bytes);
    BytesOfDigits(bytes);
  }

  lemma EncodeInjective(a: seq<Byte>, b: seq<Byte>)
    requires Encode(a) == Encode(b)
    ensures a == b
  {
    DecodeOfEncode(a);
    DecodeOfEncode(b);
  }

  /** The bits after the last whole byte are zero. */
  predicate ZeroPadded(digits: seq<Digit>) {
    match |digits| % 4
    case 0 => true
    case 1 => false
    case 2 => digits[|digits| - 1] % 16 == 0
    case _ => digits[|digits| - 1] % 4 == 0
  }

  /** Canonical texts in the sense of section 3.5 of RFC 4648. */
  predicate Canonical(text: string) {
    && (forall c :: c in text ==> InAlphabet(c))
    && ZeroPadded(seq(|text|, i requires 0 <= i < |text| => DigitOf(text[i])))
  }

  lemma DigitsOfGroup(a: Digit, b: Digit, c: Digit, d: Digit)
    ensures Digit1(Byte1(a, b)) == a
    ensures Digit2(Byte1(a, b), Byte2(b, c)) == b
    ensures Digit3(Byte2(b, c), Byte3(c, d)) == c
    ensures Digit4(Byte3(c, d)) == d
    ensures Digit2(Byte1(a, b), 0) == b <==> b % 16 == 0
    ensures Digit3(Byte2(b, c), 0) == c <==> c % 4 == 0
  {
  }

  lemma DigitsOfThree(x: Byte, y: Byte, z: Byte, rest: seq<Byte>)
    ensures Digits([x, y, z] + rest) == [Digit1(x), Digit2(x, y), Digit3(y, z), Digit4(z)] + Digits(rest)
  {
    hide Digit1, Digit2, Digit3, Digit4;
    assert ([x, y, z] + rest)[3..] == rest;
  }

  lemma BytesOfFour(a: Digit, b: Digit, c: Digit, d: Digit, rest: seq<Digit>)
    ensures Bytes([a, b, c, d] + rest) == [Byte1(a, b), Byte2(b, c), Byte3(c, d)] + Bytes(rest)
  {
    hide Byte1, Byte2, Byte3;
    assert ([a, b, c, d] + rest)[4..] == rest;
  }

  /** Four more digits in front come back whenever the rest does. */
  lemma DigitsOfFour(a: Digit, b: Digit, c: Digit, d: Digit, rest: seq<Digit>)
    ensures Digits(Bytes([a, b, c, d] + rest)) == [a, b, c, d] + Digits(Bytes(rest))
    ensures ZeroPadded([a, b, c, d] + rest) <==> ZeroPadded(rest)
  {
    DigitsOfGroup(a, b, c, d);
    hide Digit1, Digit2, Digit3, Digit4, Byte1, Byte2, Byte3, Digits, Bytes;
    BytesOfFour(a, b, c, d, rest);
    DigitsOfThree(Byte1(a, b), Byte2(b, c), Byte3(c, d), Bytes(rest));
    var digits := [a, b, c, d] + rest;
    assert |digits| % 4 == |rest| % 4 && (rest != [] ==> rest[|rest| - 1] == digits[|digits| - 1]);
  }

  lemma DigitsOfTwo(a: Digit, b: Digit)
    ensures Digits(Bytes([a, b])) == [a, b] <==> b % 16 == 0
  {
    DigitsOfGroup(a, b, 0, 0);
    hide Digit1, Digit2, Byte1;
    assert Digits(Bytes([a, b])) == [Digit1(Byte1(a, b)), Digit2(Byte1(a, b), 0)];
  }

  lemma DigitsOfTriple(a: Digit, b: Digit, c: Digit)
    ensures Digits(Bytes([a, b, c])) == [a, b, c] <==> c % 4 == 0
  {
    DigitsOfGroup(a, b, c, 0);
    hide Digit1, Digit2, Digit3, Byte1, Byte2;
    assert Digits(Bytes([a, b, c])) == [Digit1(Byte1(a, b)), Digit2(Byte1(a, b), Byte2(b, c)), Digit3(Byte2(b, c), 0)];
  }

  lemma DigitsOfNone()
    ensures Digits(Bytes([])) == []
    ensures forall d: Digit :: Digits(Bytes([d])) == []
  {
  }

  lemma DigitsOfFew(digits: seq<Digit>)
    requires |digits| < 4
    ensures Digits(Bytes(digits)) == digits <==> ZeroPadded(digits)
  {
    hide Digits, Bytes;
    if |digits| == 3 {
      DigitsOfTriple(digits[0], digits[1], digits[2]);
      assert digits == [digits[0], digits[1], digits[2]];
    } else if |digits| == 2 {
      DigitsOfTwo(digits[0], digits[1]);
      assert digits == [digits[0], digits[1]];
    } else {
      DigitsOfNone();
      assert digits == [] || digits == [digits[0]];
    }
  }

  lemma {:induction false} DigitsOfBytes(digits: seq<Digit>)
    ensures Digits(Bytes(digits)) == digits <==> ZeroPadded(digits)
  {
    hide Digits, Bytes, ZeroPadded;
    if |digits| >= 4 {
      var four, rest := [digits[0], digits[1], digits[2], digits[3]], digits[4..];
      DigitsOfBytes(rest);
      assert digits == four + rest;
      DigitsOfFour(digits[0], digits[1], digits[2], digits[3], rest);
      assert (four + Digits(Bytes(rest)))[4..] == Digits(Bytes(rest));
    } else {
      DigitsOfFew(digits);
    }
  }

  /** The encoder's texts are exactly the canonical ones. */
  lemma CanonicalIffEncoded(text: string)
    ensures Canonical(text) <==> exists bytes :: Encode(bytes) == text
  {
    if forall c :: c in text ==> InAlphabet(c) {
      var digits := seq(|text|, i requires 0 <= i < |text| => DigitOf(text[i]));
      DigitsOfBytes(digits);
      if ZeroPadded(digits) {
        assert Encode(Bytes(digits)) == text;
      }
    }
    forall bytes: seq<Byte> | Encode(bytes) == text ensures Canonical(text) {
      DecodeOfEncode(bytes);
      var digits := seq(|text|, i requires 0 <= i < |text| => DigitOf(text[i]));
      forall i | 0 <= i < |text| ensures digits[i] == Digits(bytes)[i] {
        DigitOfLetter(Digits(bytes)[i]);
      }
      assert digits == Digits(bytes);
      DigitsOfBytes(digits);
    }
  }
}
