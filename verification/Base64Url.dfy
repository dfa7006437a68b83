/**
 Base64 with the URL and filename safe alphabet and no padding (RFC 4648, sections 5
 and 3.2), as octets to six-bit values to symbols.
 */
module Base64Url {
  import opened Prelude
  import opened Text

  type Octets = s: seq<int> | forall i :: 0 <= i < |s| ==> 0 <= s[i] < 256
  type Sextets = s: seq<int> | forall i :: 0 <= i < |s| ==> 0 <= s[i] < 64

  function ToSextets(s: Octets): (r: Sextets)
    ensures |r| >= |s|
  {
    if s == [] then []
    else if |s| == 1 then [s[0] / 4, s[0] % 4 * 16]
    else if |s| == 2 then [s[0] / 4, s[0] % 4 * 16 + s[1] / 16, s[1] % 16 * 4]
    else [s[0] / 4, s[0] % 4 * 16 + s[1] / 16, s[1] % 16 * 4 + s[2] / 64, s[2] % 64] + ToSextets(s[3..])
  }

  /** Lenient about unused low bits of the last value, as the source's decoder is. */
  function FromSextets(s: Sextets): (r: Option<Octets>)
    ensures r.Some? ==> |r.value| <= |s| && (s != [] ==> |r.value| < |s|)
  {
    if s == [] then Some([])
    else if |s| == 1 then None
    else if |s| == 2 then Some([s[0] * 4 + s[1] / 16])
    else if |s| == 3 then Some([s[0] * 4 + s[1] / 16, s[1] % 16 * 16 + s[2] / 4])
    else
      match FromSextets(s[4..])
      case None => None
      case Some(rest) => Some([s[0] * 4 + s[1] / 16, s[1] % 16 * 16 + s[2] / 4, s[2] % 4 * 64 + s[3]] + rest)
  }

  lemma {:induction false} SextetsRoundTrip(s: Octets)
    ensures FromSextets(ToSextets(s)) == Some(s)
  {
    var v := ToSextets(s);
    if |s| == 1 {
      assert s == [s[0]] && FromSextets(v) == Some([v[0] * 4 + v[1] / 16]);
    } else if |s| == 2 {
      assert s == [s[0], s[1]] && FromSextets(v) == Some([v[0] * 4 + v[1] / 16, v[1] % 16 * 16 + v[2] / 4]);
    } else if |s| >= 3 {
      SextetsRoundTrip(s[3..]);
      assert v[4..] == ToSextets(s[3..]);
      assert s == [s[0], s[1], s[2]] + s[3..];
      assert [v[0] * 4 + v[1] / 16, v[1] % 16 * 16 + v[2] / 4, v[2] % 4 * 64 + v[3]] == [s[0], s[1], s[2]];
    }
  }

  /** Section 5 of RFC 4648, table 2. */
  function Symbol(v: int): char
    requires 0 <= v < 64
  {
    if v < 26 then ('A' as int + v) as char
    else if v < 52 then ('a' as int + (v - 26)) as char
    else if v < 62 then ('0' as int + (v - 52)) as char
    else if v == 62 then '-'
    else '_'
  }

  predicate InAlphabet(c: char) {
    'A' <= c <= 'Z' || 'a' <= c <= 'z' || '0' <= c <= '9' || c == '-' || c == '_'
  }

  function Bits(c: char): (v: int)
    requires InAlphabet(c)
    ensures 0 <= v < 64 && Symbol(v) == c
  {
    if 'A' <= c <= 'Z' then c as int - 'A' as int
    else if 'a' <= c <= 'z' then c as int - 'a' as int + 26
    else if '0' <= c <= '9' then c as int - '0' as int + 52
    else if c == '-' then 62
    else 63
  }

  lemma BitsOfSymbol(v: int)
    requires 0 <= v < 64
    ensures InAlphabet(Symbol(v)) && Bits(Symbol(v)) == v
  {
  }

  predicate OneByteEach(s: string) {
    forall i :: 0 <= i < |s| ==> s[i] as int < 256
  }

  function Codes(s: string): Octets
    requires OneByteEach(s)
  {
    seq(|s|, i requires 0 <= i < |s| => s[i] as int)
  }

  function Chars(s: Octets): (r: string)
    ensures |r| == |s| && OneByteEach(r)
  {
    seq(|s|, i requires 0 <= i < |s| => s[i] as char)
  }

  function Encode(s: string): (r: string)
    requires OneByteEach(s)
    ensures |r| >= |s|
  {
    var v := ToSextets(Codes(s));
    seq(|v|, i requires 0 <= i < |v| => Symbol(v[i]))
  }

  function Values(s: string): Sextets
    requires AllIn(s, InAlphabet)
  {
    seq(|s|, i requires 0 <= i < |s| => Bits(s[i]))
  }

  function Decode(s: string): (r: Option<string>)
    requires AllIn(s, InAlphabet)
    ensures r.Some? ==> OneByteEach(r.value) && |r.value| <= |s|
  {
    match FromSextets(Values(s))
    case None => None
    case Some(octets) => Some(Chars(octets))
  }

  lemma DecodeEncode(s: string)
    requires OneByteEach(s)
    ensures AllIn(Encode(s), InAlphabet) && Decode(Encode(s)) == Some(s)
  {
    var v := ToSextets(Codes(s));
    forall i | 0 <= i < |v|
      ensures InAlphabet(Symbol(v[i])) && Bits(Symbol(v[i])) == v[i]
    {
      BitsOfSymbol(v[i]);
    }
    assert Values(Encode(s)) == v;
    SextetsRoundTrip(Codes(s));
    assert Chars(Codes(s)) == s;
  }

  /** Different spellings of the same octets exist, so a decoder alone does not fix the spelling. */
  lemma DecodeIsNotInjective()
    ensures AllIn("QQ", InAlphabet) && AllIn("QR", InAlphabet) && Decode("QQ") == Decode("QR") == Some("A")
  {
    assert Values("QQ") == [16, 16] && Values("QR") == [16, 17];
    assert Chars([65]) == "A";
  }
}
