/** base64.RawURLEncoding: section 5 of RFC 4648, without padding. */
module Base64 {
  import opened Options
  import opened Text

  type Digit = d: int | 0 <= d < 64

  function CharOf(d: Digit): Byte {
    if d < 26 then ('A' as int + d) as char
    else if d < 52 then ('a' as int + d - 26) as char
    else if d < 62 then ('0' as int + d - 52) as char
    else if d == 62 then '-' else '_'
  }

  function DigitOf(c: Byte): Option<Digit> {
    if 'A' <= c <= 'Z' then Some(c as int - 'A' as int)
    else if 'a' <= c <= 'z' then Some(c as int - 'a' as int + 26)
    else if '0' <= c <= '9' then Some(c as int - '0' as int + 52)
    else if c == '-' then Some(62) else if c == '_' then Some(63) else None
  }

  lemma DigitRoundTrip(d: Digit)
    ensures DigitOf(CharOf(d)) == Some(d)
    ensures CharOf(d) != '.' && CharOf(d) != '\r' && CharOf(d) != '\n'
  {
  }

  function Quad(a: Byte, b: Byte, c: Byte): seq<Digit> {
    var (x, y, z) := (a as int, b as int, c as int);
    [x / 4, x % 4 * 16 + y / 16, y % 16 * 4 + z / 64, z % 64]
  }

  /** Three bytes make four digits; one or two left over make two or three. */
  function Digits(s: Str): seq<Digit> {
    if s == [] then []
    else if |s| == 1 then [s[0] as int / 4, s[0] as int % 4 * 16]
    else if |s| == 2 then [s[0] as int / 4, s[0] as int % 4 * 16 + s[1] as int / 16, s[1] as int % 16 * 4]
    else Quad(s[0], s[1], s[2]) + Digits(s[3..])
  }

  /** A single digit left over is an error; spare bits at the end are not looked at. */
  function Bytes(d: seq<Digit>): Option<Str> {
    if d == [] then Some([])
    else if |d| == 1 then None
    else
      var d0, d1 := d[0] as int, d[1] as int;
      var a := (d0 * 4 + d1 / 16) as char;
      if |d| == 2 then Some([a])
      else
        var d2 := d[2] as int;
        var b := (d1 % 16 * 16 + d2 / 4) as char;
        if |d| == 3 then Some([a, b])
        else
          var c := (d2 % 4 * 64 + d[3] as int) as char;
          var rest := Bytes(d[4..]);
          if rest.None? then None else Some([a, b, c] + rest.value)
  }

  function Chars(d: seq<Digit>): (s: Str)
    ensures |s| == |d| && forall i | 0 <= i < |d| :: s[i] == CharOf(d[i])
  {
    seq(|d|, i requires 0 <= i < |d| => CharOf(d[i]))
  }

  /** The digits of a text; line ends are skipped and any other stranger is an error. */
  function Read(s: Str): Option<seq<Digit>> {
    if s == [] then Some([])
    else
      var rest := Read(s[1..]);
      if s[0] == '\r' || s[0] == '\n' then rest
      else if DigitOf(s[0]).None? || rest.None? then None
      else Some([DigitOf(s[0]).value] + rest.value)
  }

  function Encode(s: Str): Str { Chars(Digits(s)) }

  function Decode(s: Str): Option<Str> {
    var d := Read(s);
    if d.None? then None else Bytes(d.value)
  }

  lemma {:induction false} ReadChars(d: seq<Digit>)
    ensures Read(Chars(d)) == Some(d)
  {
    if d == [] {
      assert Chars(d) == [];
    } else {
      ReadChars(d[1..]);
      DigitRoundTrip(d[0]);
      assert Chars(d)[1..] == Chars(d[1..]);
      assert d == [d[0]] + d[1..];
    }
  }

  lemma ThreeBytesBack(a: int, b: int, c: int)
    requires 0 <= a < 256 && 0 <= b < 256 && 0 <= c < 256
    ensures a / 4 * 4 + (a % 4 * 16 + b / 16) / 16 == a
    ensures (a % 4 * 16 + b / 16) % 16 * 16 + (b % 16 * 4 + c / 64) / 4 == b
    ensures (b % 16 * 4 + c / 64) % 4 * 64 + c % 64 == c
  {
  }

  lemma ThreeMore(a: Byte, b: Byte, c: Byte, rest: seq<Digit>)
    requires Bytes(rest).Some?
    ensures Bytes(Quad(a, b, c) + rest) == Some([a, b, c] + Bytes(rest).value)
  {
    ThreeBytesBack(a as int, b as int, c as int);
    assert (Quad(a, b, c) + rest)[4..] == rest;
  }

  lemma {:induction false} BytesDigits(s: Str)
    ensures Bytes(Digits(s)) == Some(s)
  {
    if |s| == 1 {
      ThreeBytesBack(s[0] as int, 0, 0);
      assert s == [s[0]];
    } else if |s| == 2 {
      ThreeBytesBack(s[0] as int, s[1] as int, 0);
      assert s == [s[0], s[1]];
    } else if |s| >= 3 {
      hide Bytes, Quad;
      BytesDigits(s[3..]);
      ThreeMore(s[0], s[1], s[2], Digits(s[3..]));
      assert s == [s[0], s[1], s[2]] + s[3..];
    }
  }

  /** Decoding undoes encoding, for every byte string. */
  lemma RoundTrip(s: Str)
    ensures Decode(Encode(s)) == Some(s)
  {
    ReadChars(Digits(s));
    BytesDigits(s);
  }

  lemma EncodeInjective(a: Str, b: Str)
    requires Encode(a) == Encode(b)
    ensures a == b
  {
    RoundTrip(a);
    RoundTrip(b);
  }

  /** The delimiter of a token cannot occur in an encoded text. */
  lemma EncodeHasNoDot(s: Str)
    ensures '.' !in Encode(s)
  {
    var d := Digits(s);
    forall i | 0 <= i < |d| ensures Encode(s)[i] != '.' {
      DigitRoundTrip(d[i]);
    }
  }

  // ---- which encoding it is

  predicate InAlphabet(c: Byte) {
    'A' <= c <= 'Z' || 'a' <= c <= 'z' || '0' <= c <= '9' || c == '-' || c == '_'
  }

  /** The alphabet of table 2, section 5 of RFC 4648: A to Z, a to z, 0 to 9, minus and underline. */
  lemma AlphabetIs(d: Digit)
    ensures CharOf(0) == 'A' && CharOf(25) == 'Z' && CharOf(26) == 'a' && CharOf(51) == 'z'
    ensures CharOf(52) == '0' && CharOf(61) == '9' && CharOf(62) == '-' && CharOf(63) == '_'
    ensures d != 25 && d != 51 && d < 61 ==> CharOf(d + 1) as int == CharOf(d) as int + 1
  {
  }

  lemma OnlyTheAlphabet(c: Byte)
    ensures DigitOf(c).Some? <==> InAlphabet(c)
    ensures DigitOf(c).Some? ==> CharOf(DigitOf(c).value) == c
  {
  }

  lemma OneQuad(a: Byte, b: Byte, c: Byte, s: Str)
    ensures Encode([a, b, c] + s) == Chars(Quad(a, b, c)) + Encode(s)
  {
    assert ([a, b, c] + s)[3..] == s;
    assert Digits([a, b, c] + s) == Quad(a, b, c) + Digits(s);
  }

  /** Examples of section 10 of RFC 4648, without their padding. */
  lemma ShortExamples()
    ensures Encode("") == "" && Encode("f") == "Zg" && Encode("fo") == "Zm8"
  {
    assert Chars([25, 32]) == "Zg" && Chars([25, 38, 60]) == "Zm8" && Chars([]) == "";
  }

  lemma LongExample()
    ensures Encode("foobar") == "Zm9vYmFy"
  {
    hide Encode;
    OneQuad('f', 'o', 'o', "bar");
    OneQuad('b', 'a', 'r', "");
    ShortExamples();
    assert ['f', 'o', 'o'] + "bar" == "foobar" && ['b', 'a', 'r'] + "" == "bar";
    assert Chars(Quad('f', 'o', 'o')) == "Zm9v";
    assert Chars(Quad('b', 'a', 'r')) == "YmFy";
  }

  lemma {:induction false} ReadConcat(a: Str, b: Str)
    ensures Read(a + b) ==
              if Read(a).None? || Read(b).None? then None else Some(Read(a).value + Read(b).value)
  {
    if a == [] {
      assert a + b == b;
      if Read(b).Some? {
        assert Read(a).value + Read(b).value == Read(b).value;
      }
    } else {
      ReadConcat(a[1..], b);
      assert (a + b)[1..] == a[1..] + b && (a + b)[0] == a[0];
      if Read(a[1..]).Some? && Read(b).Some? && DigitOf(a[0]).Some? {
        var d := DigitOf(a[0]).value;
        assert [d] + (Read(a[1..]).value + Read(b).value) == ([d] + Read(a[1..]).value) + Read(b).value;
      }
    }
  }

  /** Line ends are skipped wherever they stand, and nothing else that is not in the alphabet is let pass. */
  lemma LineEndsAndStrangers(a: Str, c: Byte, b: Str)
    ensures c == '\r' || c == '\n' ==> Decode(a + [c] + b) == Decode(a + b)
    ensures c != '\r' && c != '\n' && !InAlphabet(c) ==> Decode(a + [c] + b) == None
  {
    ReadConcat(a + [c], b);
    ReadConcat(a, [c]);
    ReadConcat(a, b);
    OnlyTheAlphabet(c);
    assert [c][1..] == [];
    if Read(a).Some? {
      assert Read(a).value + [] == Read(a).value;
    }
  }

  /** A single digit left over is an error, and nothing else about the number of digits is. */
  lemma {:induction false} SingleLeftOver(d: seq<Digit>)
    ensures Decode(Chars(d)) == Bytes(d)
    ensures Bytes(d).None? <==> |d| % 4 == 1
  {
    ReadChars(d);
    if |d| >= 4 {
      SingleLeftOver(d[4..]);
    }
  }

  /** The bits left over in the last digit are not looked at. */
  lemma SpareBits(x: Digit, y: Digit, y': Digit, z: Digit, z': Digit)
    requires y / 16 == y' / 16 && z / 4 == z' / 4
    ensures Decode(Chars([x, y])) == Decode(Chars([x, y']))
    ensures Decode(Chars([x, y, z])) == Decode(Chars([x, y, z']))
  {
    SingleLeftOver([x, y]);
    SingleLeftOver([x, y']);
    SingleLeftOver([x, y, z]);
    SingleLeftOver([x, y, z']);
  }
}
