/** base64url without padding (section 5 of RFC 4648), decoded as Go's RawURLEncoding does:
    line breaks are skipped and unused trailing bits are ignored. */
module Base64Url {
  import opened Common

  type Sextet = x: int | 0 <= x < 64

  function ToChar(x: Sextet): char {
    if x < 26 then 'A' + x as char
    else if x < 52 then 'a' + (x - 26) as char
    else if x < 62 then '0' + (x - 52) as char
    else if x == 62 then '-'
    else '_'
  }

  function FromChar(c: char): Option<Sextet> {
    if 'A' <= c <= 'Z' then Some(c as int - 'A' as int)
    else if 'a' <= c <= 'z' then Some(c as int - 'a' as int + 26)
    else if '0' <= c <= '9' then Some(c as int - '0' as int + 52)
    else if c == '-' then Some(62)
    else if c == '_' then Some(63)
    else None
  }

  lemma CharRoundTrip(x: Sextet)
    ensures FromChar(ToChar(x)) == Some(x)
    ensures ToChar(x) != '.' && ToChar(x) != '\n' && ToChar(x) != '\r'
  {
  }

  // ---------- Bytes and sextets ----------

  function Sextets(b: seq<byte>): seq<Sextet> {
    if |b| == 0 then []
    else if |b| == 1 then
      var v := b[0] as int;
      [v / 4, v % 4 * 16]
    else if |b| == 2 then
      var v := b[0] as int * 256 + b[1] as int;
      [v / 16 / 64, v / 16 % 64, v % 16 * 4]
    else Four(b[0], b[1], b[2]) + Sextets(b[3..])
  }

  /** Three bytes as four sextets. */
  function Four(p: byte, q: byte, r: byte): (x: seq<Sextet>)
    ensures |x| == 4
  {
    var v := (p as int * 256 + q as int) * 256 + r as int;
    [v / 64 / 64 / 64, v / 64 / 64 % 64, v / 64 % 64, v % 64]
  }

  /** Four sextets as three bytes. */
  function Three(a: int, b: int, c: int, d: int): (x: seq<byte>)
    requires 0 <= a < 64 && 0 <= b < 64 && 0 <= c < 64 && 0 <= d < 64
    ensures |x| == 3
  {
    var v := ((a * 64 + b) * 64 + c) * 64 + d;
    [(v / 256 / 256) as byte, (v / 256 % 256) as byte, (v % 256) as byte]
  }

  function Two(a: int, b: int, c: int): (x: seq<byte>)
    requires 0 <= a < 64 && 0 <= b < 64 && 0 <= c < 64
    ensures |x| == 2
  {
    var v := (a * 64 + b) * 16 + c / 4;
    [(v / 256) as byte, (v % 256) as byte]
  }

  /** One sextet cannot end a text. */
  function Octets(x: seq<Sextet>): Option<seq<byte>> {
    if |x| == 0 then Some([])
    else if |x| == 1 then None
    else if |x| == 2 then Some([PairOctet(x[0], x[1])])
    else if |x| == 3 then Some(Two(x[0], x[1], x[2]))
    else
      var rest := Octets(x[4..]);
      if rest.None? then None else Some(Three(x[0], x[1], x[2], x[3]) + rest.value)
  }

  function PairOctet(a: int, b: int): byte
    requires 0 <= a < 64 && 0 <= b < 64
  {
    (a * 4 + b / 16) as byte
  }

  lemma Digits64(n: int, high: int, low: int)
    requires n == high * 64 + low && 0 <= low < 64
    ensures n / 64 == high && n % 64 == low
  {
  }

  lemma FourDigits(p: byte, q: byte, r: byte)
    ensures var x := Four(p, q, r);
      && x[0] == p as int / 4 && x[1] == p as int % 4 * 16 + q as int / 16
      && x[2] == q as int % 16 * 4 + r as int / 64 && x[3] == r as int % 64
  {
    var v := (p as int * 256 + q as int) * 256 + r as int;
    var a, b, c, d := p as int / 4, p as int % 4 * 16 + q as int / 16, q as int % 16 * 4 + r as int / 64, r as int % 64;
    assert p as int == p as int / 4 * 4 + p as int % 4;
    assert q as int == q as int / 16 * 16 + q as int % 16;
    assert r as int == r as int / 64 * 64 + r as int % 64;
    assert v == ((a * 64 + b) * 64 + c) * 64 + d;
    Digits64(v, (a * 64 + b) * 64 + c, d);
    Digits64(v / 64, a * 64 + b, c);
    Digits64(v / 64 / 64, a, b);
  }

  /** Three bytes survive the trip through four sextets. */
  lemma ThreeOfFour(p: byte, q: byte, r: byte)
    ensures var x := Four(p, q, r); Three(x[0], x[1], x[2], x[3]) == [p, q, r]
  {
    var x := Four(p, q, r);
    FourDigits(p, q, r);
    ThreeExactly(x[0], x[1], x[2], x[3]);
  }

  lemma TwoOfThree(p: byte, q: byte)
    ensures var v := p as int * 256 + q as int; Two(v / 16 / 64, v / 16 % 64, v % 16 * 4) == [p, q]
  {
    var v := p as int * 256 + q as int;
    assert (v / 16 / 64 * 64 + v / 16 % 64) * 16 + v % 16 * 4 / 4 == v;
  }

  lemma {:induction false} OctetsOfSextets(b: seq<byte>)
    ensures Octets(Sextets(b)) == Some(b)
  {
    if |b| == 1 {
      assert b == [b[0]];
    } else if |b| == 2 {
      TwoOfThree(b[0], b[1]);
      assert b == [b[0], b[1]];
    } else if |b| >= 3 {
      ThreeOfFour(b[0], b[1], b[2]);
      var head := Four(b[0], b[1], b[2]);
      assert Sextets(b) == head + Sextets(b[3..]);
      assert Sextets(b)[4..] == Sextets(b[3..]) && Sextets(b)[..4] == head;
      OctetsOfSextets(b[3..]);
      assert b == [b[0], b[1], b[2]] + b[3..];
    }
  }

  // ---------- Text ----------

  function Print(x: seq<Sextet>): (r: string)
    ensures |r| == |x| && forall i | 0 <= i < |x| :: r[i] == ToChar(x[i])
  {
    if x == [] then [] else [ToChar(x[0])] + Print(x[1..])
  }

  /** Reads a text, skipping line breaks; any other foreign character is an error. */
  function Scan(s: string): Option<seq<Sextet>> {
    if s == [] then Some([])
    else
      var rest := Scan(s[1..]);
      if s[0] == '\n' || s[0] == '\r' then rest
      else if FromChar(s[0]).None? || rest.None? then None
      else Some([FromChar(s[0]).value] + rest.value)
  }

  function Encode(b: seq<byte>): string { Print(Sextets(b)) }

  function Decode(s: string): Option<seq<byte>> {
    var x := Scan(s);
    if x.None? then None else Octets(x.value)
  }

  lemma ScanCons(c: char, x: Sextet, rest: string, y: seq<Sextet>)
    requires c != '\n' && c != '\r' && FromChar(c) == Some(x) && Scan(rest) == Some(y)
    ensures Scan([c] + rest) == Some([x] + y)
  {
    assert ([c] + rest)[1..] == rest;
  }

  lemma {:induction false} ScanOfPrint(x: seq<Sextet>)
    ensures Scan(Print(x)) == Some(x)
  {
    if x != [] {
      CharRoundTrip(x[0]);
      ScanOfPrint(x[1..]);
      ScanCons(ToChar(x[0]), x[0], Print(x[1..]), x[1..]);
      assert [x[0]] + x[1..] == x;
    }
  }

  /** Decoding undoes encoding, for every length modulo 3, and encoded text has no dot. */
  lemma DecodeOfEncode(b: seq<byte>)
    ensures Decode(Encode(b)) == Some(b)
    ensures '.' !in Encode(b)
  {
    ScanOfPrint(Sextets(b));
    OctetsOfSextets(b);
    var s := Encode(b);
    forall i | 0 <= i < |s| ensures s[i] != '.' { CharRoundTrip(Sextets(b)[i]); }
  }

  /** The encoded length: four characters for three bytes, and two or three for a rest. */
  lemma {:induction false} EncodedLength(b: seq<byte>)
    ensures |Encode(b)| == |b| / 3 * 4 + if |b| % 3 == 0 then 0 else |b| % 3 + 1
  {
    if |b| >= 3 { EncodedLength(b[3..]); }
  }

  // ---------- Which texts decode, and to what ----------

  const LETTERS := "ABCDEFGHIJKLMNOPQRSTUVWXYZ"
  const SMALL := "abcdefghijklmnopqrstuvwxyz"
  const REST := "0123456789-_"

  /** Table 2 of RFC 4648. */
  lemma AlphabetIsTable2(x: Sextet)
    ensures |LETTERS| == |SMALL| == 26 && |REST| == 12
    ensures ToChar(x) == if x < 26 then LETTERS[x] else if x < 52 then SMALL[x - 26] else REST[x - 52]
  {
  }

  lemma FromCharExactly(c: char, x: Sextet)
    ensures FromChar(c) == Some(x) <==> c == ToChar(x)
  {
  }

  /** Section 4 of RFC 4648: the sextets hold the bits of the bytes in order. The bits that a
      last group of one or two bytes leaves over may be anything. */
  predicate Spells(x: seq<Sextet>, b: seq<byte>) {
    if |b| == 0 then |x| == 0
    else if |b| == 1 then |x| == 2 && SpellsOne(x[0], x[1], b[0] as int)
    else if |b| == 2 then |x| == 3 && SpellsTwo(x[0], x[1], x[2], b[0] as int, b[1] as int)
    else
      |x| >= 4 && SpellsThree(x[0], x[1], x[2], x[3], b[0] as int, b[1] as int, b[2] as int) &&
      Spells(x[4..], b[3..])
  }

  predicate SpellsOne(s: int, t: int, p: int) { p == s * 4 + t / 16 }

  predicate SpellsTwo(s: int, t: int, u: int, p: int, q: int) {
    p == s * 4 + t / 16 && q == t % 16 * 16 + u / 4
  }

  predicate SpellsThree(s: int, t: int, u: int, v: int, p: int, q: int, r: int) {
    p == s * 4 + t / 16 && q == t % 16 * 16 + u / 4 && r == u % 4 * 64 + v
  }

  /** The text without its line breaks. */
  function Unbroken(s: string): string {
    if s == [] then [] else (if s[0] == '\n' || s[0] == '\r' then [] else [s[0]]) + Unbroken(s[1..])
  }

  lemma {:induction false} ScanExactly(s: string, x: seq<Sextet>)
    ensures Scan(s) == Some(x) <==> Unbroken(s) == Print(x)
  {
    if s != [] {
      if s[0] == '\n' || s[0] == '\r' {
        ScanExactly(s[1..], x);
        assert Unbroken(s) == Unbroken(s[1..]);
      } else {
        assert Unbroken(s)[0] == s[0] && Unbroken(s)[1..] == Unbroken(s[1..]);
        if x != [] {
          ScanExactly(s[1..], x[1..]);
          FromCharExactly(s[0], x[0]);
          assert x == [x[0]] + x[1..];
          assert Print(x)[0] == ToChar(x[0]) && Print(x)[1..] == Print(x[1..]);
          if Unbroken(s) == Print(x) { assert Unbroken(s)[1..] == Print(x)[1..]; }
          if Scan(s) == Some(x) { assert x[1..] == Scan(s[1..]).value; }
          assert Print(x) == [ToChar(x[0])] + Print(x[1..]);
          assert Unbroken(s) == [s[0]] + Unbroken(s[1..]);
        }
      }
    }
  }

  lemma TwoDigits(n: int, high: int, low: int)
    requires n == high * 256 + low && 0 <= low < 256
    ensures n / 256 == high && n % 256 == low
  {
  }

  lemma ThreeExactly(s: Sextet, t: Sextet, u: Sextet, v: Sextet)
    ensures var x := Three(s, t, u, v); SpellsThree(s, t, u, v, x[0] as int, x[1] as int, x[2] as int)
  {
    var n := ((s as int * 64 + t) * 64 + u) * 64 + v;
    var a, b, c := s as int * 4 + t / 16, t as int % 16 * 16 + u / 4, u as int % 4 * 64 + v;
    assert t == t / 16 * 16 + t % 16 && u == u / 4 * 4 + u % 4;
    assert n == (a * 256 + b) * 256 + c;
    TwoDigits(n, a * 256 + b, c);
    TwoDigits(n / 256, a, b);
  }

  lemma TwoExactly(s: Sextet, t: Sextet, u: Sextet)
    ensures var x := Two(s, t, u); SpellsTwo(s, t, u, x[0] as int, x[1] as int)
  {
    var a, b := s as int * 4 + t / 16, t as int % 16 * 16 + u / 4;
    assert t == t / 16 * 16 + t % 16;
    TwoDigits((s as int * 64 + t) * 16 + u / 4, a, b);
  }

  /** Exactly the sextets that spell the bytes decode to them. */
  lemma {:induction false} OctetsExactly(x: seq<Sextet>, b: seq<byte>)
    ensures Octets(x) == Some(b) <==> Spells(x, b)
    decreases |x|
  {
    if |x| >= 4 {
      if |b| >= 3 {
        OctetsExactly(x[4..], b[3..]);
        ThreeExactly(x[0], x[1], x[2], x[3]);
        assert b == b[..3] + b[3..] && b[..3] == [b[0], b[1], b[2]];
      }
    } else if |x| == 3 && |b| == 2 {
      TwoExactly(x[0], x[1], x[2]);
      assert b == [b[0], b[1]];
    } else if |x| == 2 && |b| == 1 {
      assert b == [b[0]];
    }
  }

  /** The bits left over by a last group of one or two bytes are zero. */
  predicate ZeroPadded(x: seq<Sextet>, b: seq<byte>) {
    if |b| == 0 then true
    else if |b| == 1 then |x| == 2 && x[1] % 16 == 0
    else if |b| == 2 then |x| == 3 && x[2] % 4 == 0
    else |x| >= 4 && ZeroPadded(x[4..], b[3..])
  }

  /** Encoding spells the bytes, with zeros in the bits left over. */
  lemma {:induction false} EncodeSpells(b: seq<byte>)
    ensures Spells(Sextets(b), b) && ZeroPadded(Sextets(b), b)
  {
    OctetsOfSextets(b);
    OctetsExactly(Sextets(b), b);
    if |b| >= 3 {
      EncodeSpells(b[3..]);
      assert Sextets(b)[4..] == Sextets(b[3..]);
    }
  }

  /** Of all texts, those that decode to `b` are exactly the ones that, without their line
      breaks, print sextets that spell `b`. */
  lemma DecodesExactly(s: string, b: seq<byte>)
    ensures Decode(s) == Some(b) <==> exists x :: Unbroken(s) == Print(x) && Spells(x, b)
  {
    if Decode(s) == Some(b) {
      var x := Scan(s).value;
      ScanExactly(s, x);
      OctetsExactly(x, b);
    }
    if x :| Unbroken(s) == Print(x) && Spells(x, b) {
      ScanExactly(s, x);
      OctetsExactly(x, b);
    }
  }
}
