/** Base64 (section 4 of RFC 4648), without line wrapping. */
module Base64 {
  import opened Options

  type Byte = n: nat | n < 256
  type Sextet = n: nat | n < 64

  const UPPER: string := "ABCDEFGHIJKLMNOPQRSTUVWXYZ"
  const LOWER: string := "abcdefghijklmnopqrstuvwxyz"
  const OTHER: string := "0123456789+/"
  const CHARSET: string := UPPER + LOWER + OTHER

  /** The standard's alphabet, by ranges. */
  function CharOf(i: Sextet): char {
    if i < 26 then 'A' + i as char
    else if i < 52 then 'a' + (i - 26) as char
    else if i < 62 then '0' + (i - 52) as char
    else if i == 62 then '+' else '/'
  }

  lemma CharsetIsStandard(k: Sextet)
    ensures |CHARSET| == 64 && CHARSET[k] == CharOf(k)
  {
    if k < 26 { assert CHARSET[k] == UPPER[k]; }
    else if k < 52 { assert CHARSET[k] == LOWER[k - 26]; }
    else { assert CHARSET[k] == OTHER[k - 52]; }
  }

  function SextetOf(c: char): Option<Sextet> {
    if 'A' <= c <= 'Z' then Some((c - 'A') as nat)
    else if 'a' <= c <= 'z' then Some((c - 'a') as nat + 26)
    else if '0' <= c <= '9' then Some((c - '0') as nat + 52)
    else if c == '+' then Some(62)
    else if c == '/' then Some(63)
    else None
  }

  lemma SextetBack(i: Sextet)
    ensures SextetOf(CharOf(i)) == Some(i)
  {
  }

  // ----- Encoding

  /** Three bytes as a 24-bit number. */
  function Word(x: Byte, y: Byte, z: Byte): (n: nat)
    ensures n < 0x1000000
  {
    var a: nat, b: nat := x, y;
    a * 0x10000 + b * 0x100 + z
  }

  /** The sextets of a 24-bit number, most significant first. */
  function Sextets(n: nat): seq<Sextet>
    requires n < 0x1000000
  {
    [n / 0x40000, n / 0x1000 % 64, n / 64 % 64, n % 64]
  }

  function Chars(sextets: seq<Sextet>): string {
    seq(|sextets|, i requires 0 <= i < |sextets| => CharOf(sextets[i]))
  }

  function Encoded(input: seq<Byte>): string {
    if |input| == 0 then ""
    else if |input| == 1 then Chars(Sextets(Word(input[0], 0, 0))[..2]) + "=="
    else if |input| == 2 then Chars(Sextets(Word(input[0], input[1], 0))[..3]) + "="
    else Chars(Sextets(Word(input[0], input[1], input[2]))) + Encoded(input[3..])
  }

  method Encode(input: seq<Byte>) returns (out: string)
    ensures out == Encoded(input)
  {
    out := "";
    var at := 0;
    assert input[0..] == input;
    while at + 3 <= |input|
      invariant 0 <= at <= |input|
      invariant out + Encoded(input[at..]) == Encoded(input)
    {
      assert input[at..][3..] == input[at + 3..];
      var four := Lookup(Sextets(Word(input[at], input[at + 1], input[at + 2])));
      out := out + four;
      at := at + 3;
    }
    var rem := input[at..];
    if |rem| == 1 {
      var two := Lookup(Sextets(Word(rem[0], 0, 0))[..2]);
      out := out + two + "==";
    } else if |rem| == 2 {
      var three := Lookup(Sextets(Word(rem[0], rem[1], 0))[..3]);
      out := out + three + "=";
    }
  }

  /** The table's characters for some sextets. */
  method Lookup(sextets: seq<Sextet>) returns (chars: string)
    ensures chars == Chars(sextets)
  {
    chars := [];
    for i := 0 to |sextets|
      invariant chars == Chars(sextets)[..i]
    {
      CharsetIsStandard(sextets[i]);
      chars := chars + [CHARSET[sextets[i]]];
    }
  }

  // ----- Decoding, as the standard defines it

  /** The bytes of one group of four characters; padding only as the standard allows, with zero bits below it. */
  function Group(g: string): Option<seq<Byte>>
    requires |g| == 4
  {
    var a, b, c, d := SextetOf(g[0]), SextetOf(g[1]), SextetOf(g[2]), SextetOf(g[3]);
    if a.None? || b.None? then None
    else if c.Some? && d.Some? then Some([High(a.value, b.value), Middle(b.value, c.value), Low(c.value, d.value)])
    else if c.Some? && g[3] == '=' && c.value % 4 == 0 then Some([High(a.value, b.value), Middle(b.value, c.value)])
    else if g[2] == '=' && g[3] == '=' && b.value % 16 == 0 then Some([High(a.value, b.value)])
    else None
  }

  function High(a: nat, b: nat): Byte
    requires a < 64 && b < 64
  {
    a * 4 + b / 16
  }

  function Middle(b: nat, c: nat): Byte
    requires b < 64 && c < 64
  {
    b % 16 * 16 + c / 4
  }

  function Low(c: nat, d: nat): Byte
    requires c < 64 && d < 64
  {
    c % 4 * 64 + d
  }

  /** The bytes a text stands for; only the last group may be padded. */
  function Decoded(text: string): Option<seq<Byte>> {
    if |text| == 0 then Some([])
    else if |text| < 4 then None
    else
      var first, rest := Group(text[..4]), Decoded(text[4..]);
      if first.None? || rest.None? || (|first.value| < 3 && |text| > 4) then None
      else Some(first.value + rest.value)
  }

  lemma Quotients(q: nat, r: nat)
    ensures r < 0x40000 ==> (q * 0x40000 + r) / 0x40000 == q
    ensures r < 0x1000 ==> (q * 0x1000 + r) / 0x1000 == q
    ensures r < 64 ==> (q * 64 + r) / 64 == q && (q * 64 + r) % 64 == r
  {
  }

  /** The sextets of a number given by its sextets. */
  lemma SextetsOfSum(a: Sextet, b: Sextet, c: Sextet, d: Sextet, n: nat)
    requires n == a as nat * 0x40000 + b as nat * 0x1000 + c as nat * 64 + d as nat
    ensures n < 0x1000000 && Sextets(n) == [a, b, c, d]
  {
    var ab: nat := a as nat * 64 + b as nat;
    Quotients(a, n - a as nat * 0x40000);
    Quotients(ab, c as nat * 64 + d as nat);
    Quotients(a, b);
    Quotients(ab * 64 + c as nat, d);
    Quotients(ab, c);
  }

  /** The sextets of three bytes. */
  lemma WordSextets(x: Byte, y: Byte, z: Byte)
    ensures Sextets(Word(x, y, z)) == [x / 4, x % 4 * 16 + y / 16, y % 16 * 4 + z / 64, z % 64]
  {
    SextetsOfSum(x / 4, x % 4 * 16 + y / 16, y % 16 * 4 + z / 64, z % 64, Word(x, y, z));
  }

  lemma SextetsBack(x: Byte, y: Byte, z: Byte)
    ensures var s := Sextets(Word(x, y, z));
            High(s[0], s[1]) == x && Middle(s[1], s[2]) == y && Low(s[2], s[3]) == z
            && (y == z == 0 ==> s[1] % 16 == 0) && (z == 0 ==> s[2] % 4 == 0)
  {
    WordSextets(x, y, z);
  }

  /** One group of each length. */
  lemma GroupBack(x: Byte, y: Byte, z: Byte, g: string)
    requires |g| == 4
    ensures g == Chars(Sextets(Word(x, y, z))) ==> Group(g) == Some([x, y, z])
    ensures z == 0 && g == Chars(Sextets(Word(x, y, z)))[..3] + "=" ==> Group(g) == Some([x, y])
    ensures y == z == 0 && g == Chars(Sextets(Word(x, y, z)))[..2] + "==" ==> Group(g) == Some([x])
  {
    SextetsBack(x, y, z);
    var s := Sextets(Word(x, y, z));
    var c := Chars(s);
    assert c == [CharOf(s[0]), CharOf(s[1]), CharOf(s[2]), CharOf(s[3])];
    SextetBack(s[0]);
    SextetBack(s[1]);
    SextetBack(s[2]);
    SextetBack(s[3]);
    if y == z == 0 && g == c[..2] + "==" {
      assert g == [CharOf(s[0]), CharOf(s[1]), '=', '='];
    }
    if z == 0 && g == c[..3] + "=" {
      assert g == [CharOf(s[0]), CharOf(s[1]), CharOf(s[2]), '='];
    }
  }

  lemma CharsPrefix(sextets: seq<Sextet>, n: nat)
    requires n <= |sextets|
    ensures Chars(sextets[..n]) == Chars(sextets)[..n]
  {
  }

  lemma DecodeOneGroup(g: string)
    requires |g| == 4 && Group(g).Some?
    ensures Decoded(g) == Group(g)
  {
    assert g[..4] == g && g[4..] == "" && Decoded("") == Some([]);
    assert Group(g).value + [] == Group(g).value;
  }

  lemma DecodeThree(x: Byte, y: Byte, z: Byte, rest: string)
    requires Decoded(rest).Some?
    ensures Decoded(Chars(Sextets(Word(x, y, z))) + rest) == Some([x, y, z] + Decoded(rest).value)
  {
    var first := Chars(Sextets(Word(x, y, z)));
    GroupBack(x, y, z, first);
    assert (first + rest)[..4] == first && (first + rest)[4..] == rest;
  }

  lemma DecodeOne(x: Byte)
    ensures Decoded(Encoded([x])) == Some([x])
  {
    var s := Sextets(Word(x, 0, 0));
    CharsPrefix(s, 2);
    GroupBack(x, 0, 0, Chars(s)[..2] + "==");
    DecodeOneGroup(Chars(s)[..2] + "==");
  }

  lemma DecodeTwo(x: Byte, y: Byte)
    ensures Decoded(Encoded([x, y])) == Some([x, y])
  {
    var s := Sextets(Word(x, y, 0));
    CharsPrefix(s, 3);
    GroupBack(x, y, 0, Chars(s)[..3] + "=");
    DecodeOneGroup(Chars(s)[..3] + "=");
  }

  /** Decoding what was encoded gives back the bytes. */
  lemma {:induction false} DecodeEncode(input: seq<Byte>)
    ensures Decoded(Encoded(input)) == Some(input)
  {
    if |input| == 1 {
      DecodeOne(input[0]);
      assert input == [input[0]];
    } else if |input| == 2 {
      DecodeTwo(input[0], input[1]);
      assert input == [input[0], input[1]];
    } else if |input| >= 3 {
      DecodeEncode(input[3..]);
      DecodeThree(input[0], input[1], input[2], Encoded(input[3..]));
      assert input == [input[0], input[1], input[2]] + input[3..];
    }
  }
}
