/** The standard base64 alphabet with padding, section 4 of RFC 4648, decoded as Go's
    base64.StdEncoding does: carriage returns and line feeds are skipped, spare bits are not checked. */
module Base64 {
  import opened Prelude

  type byte = x: int | 0 <= x < 256
  type sextet = x: int | 0 <= x < 64

  const PAD := '='

  function Char(d: sextet): char {
    if d < 26 then ('A' as int + d) as char
    else if d < 52 then ('a' as int + d - 26) as char
    else if d < 62 then ('0' as int + d - 52) as char
    else if d == 62 then '+' else '/'
  }

  function Digit(c: char): Option<sextet> {
    if 'A' <= c <= 'Z' then Some(c as int - 'A' as int)
    else if 'a' <= c <= 'z' then Some(c as int - 'a' as int + 26)
    else if '0' <= c <= '9' then Some(c as int - '0' as int + 52)
    else if c == '+' then Some(62)
    else if c == '/' then Some(63)
    else None
  }

  function Encode(bs: seq<byte>): string {
    if |bs| == 0 then ""
    else if |bs| == 1 then [Char(bs[0] / 4), Char(bs[0] % 4 * 16), PAD, PAD]
    else if |bs| == 2 then [Char(bs[0] / 4), Char(bs[0] % 4 * 16 + bs[1] / 16), Char(bs[1] % 16 * 4), PAD]
    else
      [Char(bs[0] / 4), Char(bs[0] % 4 * 16 + bs[1] / 16), Char(bs[1] % 16 * 4 + bs[2] / 64), Char(bs[2] % 64)]
      + Encode(bs[3..])
  }

  function WithoutNewlines(s: string): string {
    if s == "" then ""
    else if s[0] == '\r' || s[0] == '\n' then WithoutNewlines(s[1..])
    else [s[0]] + WithoutNewlines(s[1..])
  }

  function DecodeQuads(s: string): Option<seq<byte>> {
    if |s| == 0 then Some([])
    else if |s| < 4 then None
    else
      var a, b, c, d := Digit(s[0]), Digit(s[1]), Digit(s[2]), Digit(s[3]);
      if a.None? || b.None? then None
      else if |s| == 4 && s[2] == PAD && s[3] == PAD then Some([First(a.value, b.value)])
      else if c.None? then None
      else if |s| == 4 && s[3] == PAD then Some([First(a.value, b.value), Second(b.value, c.value)])
      else if d.None? then None
      else
        var rest := DecodeQuads(s[4..]);
        if rest.None? then None
        else Some([First(a.value, b.value), Second(b.value, c.value), c.value % 4 * 64 + d.value] + rest.value)
  }

  function First(a: sextet, b: sextet): byte { a * 4 + b / 16 }

  function Second(b: sextet, c: sextet): byte { b % 16 * 16 + c / 4 }

  function Decode(s: string): Option<seq<byte>> { DecodeQuads(WithoutNewlines(s)) }

  lemma DigitOfChar(d: sextet)
    ensures Digit(Char(d)) == Some(d) && Char(d) !in {PAD, '\r', '\n'}
  {
  }

  /** Splitting three bytes into four sextets loses nothing. */
  lemma Regroup(x: byte, y: byte, z: byte)
    ensures First(x / 4, x % 4 * 16 + y / 16) == x
    ensures Second(x % 4 * 16 + y / 16, y % 16 * 4 + z / 64) == y
    ensures (y % 16 * 4 + z / 64) % 4 * 64 + z % 64 == z
  {
  }

  /** One full quad in front. */
  lemma DecodeFull(a: sextet, b: sextet, c: sextet, d: sextet, rest: string)
    ensures DecodeQuads([Char(a), Char(b), Char(c), Char(d)] + rest)
         == if DecodeQuads(rest).None? then None
            else Some([First(a, b), Second(b, c), c % 4 * 64 + d] + DecodeQuads(rest).value)
  {
    DigitOfChar(a);
    DigitOfChar(b);
    DigitOfChar(c);
    DigitOfChar(d);
    assert ([Char(a), Char(b), Char(c), Char(d)] + rest)[4..] == rest;
  }

  lemma DecodePadded(a: sextet, b: sextet, c: sextet)
    ensures DecodeQuads([Char(a), Char(b), PAD, PAD]) == Some([First(a, b)])
    ensures DecodeQuads([Char(a), Char(b), Char(c), PAD]) == Some([First(a, b), Second(b, c)])
  {
    DigitOfChar(a);
    DigitOfChar(b);
    DigitOfChar(c);
  }

  lemma DecodeOne(x: byte)
    ensures DecodeQuads(Encode([x])) == Some([x])
  {
    Regroup(x, 0, 0);
    DecodePadded(x / 4, x % 4 * 16, 0);
  }

  lemma DecodeTwo(x: byte, y: byte)
    ensures DecodeQuads(Encode([x, y])) == Some([x, y])
  {
    var a, b, c := x / 4, x % 4 * 16 + y / 16, y % 16 * 4;
    Regroup(x, y, 0);
    DecodePadded(a, b, c);
    assert Encode([x, y]) == [Char(a), Char(b), Char(c), PAD];
  }

  lemma EncodeTriple(x: byte, y: byte, z: byte, rest: seq<byte>)
    ensures Encode([x, y, z] + rest)
         == [Char(x / 4), Char(x % 4 * 16 + y / 16), Char(y % 16 * 4 + z / 64), Char(z % 64)] + Encode(rest)
  {
    assert ([x, y, z] + rest)[3..] == rest;
  }

  lemma DecodeTriple(x: byte, y: byte, z: byte, rest: seq<byte>)
    requires DecodeQuads(Encode(rest)) == Some(rest)
    ensures DecodeQuads(Encode([x, y, z] + rest)) == Some([x, y, z] + rest)
  {
    var a, b, c, d := x / 4, x % 4 * 16 + y / 16, y % 16 * 4 + z / 64, z % 64;
    var quad, bytes := [Char(a), Char(b), Char(c), Char(d)], [First(a, b), Second(b, c), c % 4 * 64 + d];
    assert bytes == [x, y, z] by { Regroup(x, y, z); }
    assert Encode([x, y, z] + rest) == quad + Encode(rest) by { EncodeTriple(x, y, z, rest); }
    assert DecodeQuads(quad + Encode(rest)) == Some(bytes + rest) by { DecodeFull(a, b, c, d, Encode(rest)); }
  }

  lemma {:induction false} DecodeQuadsEncode(bs: seq<byte>)
    ensures DecodeQuads(Encode(bs)) == Some(bs)
  {
    if |bs| > 2 {
      DecodeQuadsEncode(bs[3..]);
      DecodeTriple(bs[0], bs[1], bs[2], bs[3..]);
      assert bs == [bs[0], bs[1], bs[2]] + bs[3..];
    } else if |bs| == 2 {
      DecodeTwo(bs[0], bs[1]);
      assert bs == [bs[0], bs[1]];
    } else if |bs| == 1 {
      DecodeOne(bs[0]);
      assert bs == [bs[0]];
    }
  }

  lemma {:induction false} EncodeHasNoNewlines(bs: seq<byte>)
    ensures forall i :: 0 <= i < |Encode(bs)| ==> Encode(bs)[i] !in {'\r', '\n'}
  {
    if |bs| == 0 {
    } else {
      var x, y, z := bs[0], if |bs| > 1 then bs[1] else 0, if |bs| > 2 then bs[2] else 0;
      DigitOfChar(x / 4);
      DigitOfChar(x % 4 * 16 + y / 16);
      DigitOfChar(y % 16 * 4 + z / 64);
      DigitOfChar(z % 64);
      if |bs| > 2 { EncodeHasNoNewlines(bs[3..]); }
    }
  }

  lemma {:induction false} NothingToSkip(s: string)
    requires forall i :: 0 <= i < |s| ==> s[i] !in {'\r', '\n'}
    ensures WithoutNewlines(s) == s
  {
    if s == "" {
    } else {
      NothingToSkip(s[1..]);
    }
  }

  /** Decoding undoes encoding, for all bytes. */
  lemma DecodeEncode(bs: seq<byte>)
    ensures Decode(Encode(bs)) == Some(bs)
  {
    EncodeHasNoNewlines(bs);
    NothingToSkip(Encode(bs));
    DecodeQuadsEncode(bs);
  }

  // ---------------------------------------------------------------- against the RFC

  /** The alphabet of section 4: the upper-case letters, the lower-case letters, the digits, plus and slash. */
  lemma Alphabet(d: sextet)
    ensures Char(0) == 'A' && Char(26) == 'a' && Char(52) == '0' && Char(62) == '+' && Char(63) == '/'
    ensures d < 61 && d != 25 && d != 51 ==> Char(d + 1) as int == Char(d) as int + 1
  {
  }

  /** Test vectors of section 10, and two bytes that use the last characters of the alphabet. */
  lemma TestVectors(f: seq<byte>, fo: seq<byte>, high: seq<byte>)
    requires f == [102] && fo == [102, 111] && high == [251, 255]
    ensures Encode([]) == "" && Encode(f) == "Zg==" && Encode(fo) == "Zm8=" && Encode(high) == "+/8="
  {
  }

  /** The longest of them. */
  lemma LongTestVector(foobar: seq<byte>)
    requires foobar == [102, 111, 111, 98, 97, 114]
    ensures Encode(foobar) == "Zm9vYmFy"
  {
    assert foobar[3..] == [98, 97, 114] && foobar[3..][3..] == [];
    assert Encode(foobar[3..]) == "YmFy" + Encode([]);
    assert "Zm9v" + "YmFy" == "Zm9vYmFy";
  }

  predicate InAlphabet(c: char) {
    'A' <= c <= 'Z' || 'a' <= c <= 'z' || '0' <= c <= '9' || c == '+' || c == '/'
  }

  /** All of the alphabet, except that the last or the last two characters may be padding. */
  predicate PaddedAtTheEnd(s: string)
    requires |s| >= 2
  {
    var n := |s|;
    && (forall i :: 0 <= i < n - 2 ==> InAlphabet(s[i]))
    && ((s[n - 2] == '=' && s[n - 1] == '=')
        || (InAlphabet(s[n - 2]) && (s[n - 1] == '=' || InAlphabet(s[n - 1]))))
  }

  lemma {:induction false} QuadsDecodeIff(s: string)
    ensures DecodeQuads(s).Some? <==> |s| % 4 == 0 && (s != "" ==> PaddedAtTheEnd(s))
  {
    assert forall c :: Digit(c).Some? <==> InAlphabet(c);
    if |s| <= 4 {
    } else {
      QuadsDecodeIff(s[4..]);
      if |s| % 4 == 0 {
        assert forall i :: 4 <= i < |s| ==> s[4..][i - 4] == s[i];
      }
    }
  }

  /** Without line breaks a text decodes exactly when it consists of quads of the alphabet, of which the last may
      end in one or two padding characters. */
  lemma DecodesIff(s: string)
    requires forall i :: 0 <= i < |s| ==> s[i] != '\r' && s[i] != '\n'
    ensures Decode(s).Some? <==> |s| % 4 == 0 && (s != "" ==> PaddedAtTheEnd(s))
  {
    NothingToSkip(s);
    QuadsDecodeIff(s);
  }

  /** And a line break anywhere is skipped. */
  lemma {:induction false} LineBreakSkipped(s: string, c: char, t: string)
    requires c == '\r' || c == '\n'
    ensures WithoutNewlines(s + [c] + t) == WithoutNewlines(s + t) && Decode(s + [c] + t) == Decode(s + t)
  {
    if s == "" {
      assert "" + [c] + t == [c] + t && ([c] + t)[1..] == t && "" + t == t;
    } else {
      LineBreakSkipped(s[1..], c, t);
      assert (s + [c] + t)[1..] == s[1..] + [c] + t && (s + t)[1..] == s[1..] + t;
    }
  }
}
