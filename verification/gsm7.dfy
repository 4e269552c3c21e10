/** The GSM 7-bit alphabet (section 6.2.1 of 3GPP TS 23.038) and septet packing (section 6.1.2.1). */
module Gsm7 {
  import opened Options

  type Septet = n: nat | n < 128
  type Octet = n: nat | n < 256

  // ----- Bits of naturals

  function Pow2(n: nat): (r: nat)
    ensures r > 0
  {
    if n == 0 then 1 else 2 * Pow2(n - 1)
  }

  /** Bitwise or. */
  function Or(a: nat, b: nat): nat {
    if a == 0 then b
    else if b == 0 then a
    else 2 * Or(a / 2, b / 2) + (if a % 2 == 1 || b % 2 == 1 then 1 else 0)
  }

  function Bit(a: nat, n: nat): nat {
    if n == 0 then a % 2 else Bit(a / 2, n - 1)
  }

  /** Each bit is 1 exactly when it is in either number. */
  lemma {:induction false} OrIsBitwise(a: nat, b: nat, n: nat)
    ensures Bit(Or(a, b), n) == if Bit(a, n) == 1 || Bit(b, n) == 1 then 1 else 0
    decreases n
  {
    if a == 0 {
      ZeroBits(n);
      BitIsBinary(b, n);
    } else if b == 0 {
      ZeroBits(n);
      BitIsBinary(a, n);
    } else if n > 0 {
      OrIsBitwise(a / 2, b / 2, n - 1);
      assert Or(a, b) / 2 == Or(a / 2, b / 2);
    }
  }

  lemma {:induction false} ZeroBits(n: nat)
    ensures Bit(0, n) == 0
  {
    if n > 0 {
      ZeroBits(n - 1);
    }
  }

  lemma {:induction false} BitIsBinary(a: nat, n: nat)
    ensures Bit(a, n) in {0, 1}
  {
    if n > 0 {
      BitIsBinary(a / 2, n - 1);
    }
  }

  lemma Pow2Add(m: nat, n: nat)
    ensures Pow2(m + n) == Pow2(m) * Pow2(n)
  {
    if m > 0 {
      Pow2Add(m - 1, n);
    }
  }

  /** Values with no bit in common: or is addition. */
  lemma {:induction false} OrDisjoint(a: nat, k: nat, c: nat)
    requires a < Pow2(k)
    ensures Or(a, c * Pow2(k)) == a + c * Pow2(k)
  {
    if k > 0 && a != 0 && c != 0 {
      var b := c * Pow2(k);
      assert b == 2 * (c * Pow2(k - 1));
      OrDisjoint(a / 2, k - 1, c);
    }
  }

  // ----- Octets as one number, least significant first

  function Value(octets: seq<Octet>): nat {
    if octets == [] then 0 else octets[0] + 256 * Value(octets[1..])
  }

  function Digits(v: nat, n: nat): (octets: seq<Octet>)
    ensures |octets| == n
  {
    if n == 0 then [] else [v % 256] + Digits(v / 256, n - 1)
  }

  lemma LowestOctet(low: Octet, rest: nat)
    ensures (low + 256 * rest) % 256 == low && (low + 256 * rest) / 256 == rest
  {
  }

  lemma {:induction false} DigitsOfValue(octets: seq<Octet>)
    ensures Digits(Value(octets), |octets|) == octets
  {
    if octets != [] {
      DigitsOfValue(octets[1..]);
      LowestOctet(octets[0], Value(octets[1..]));
      assert octets == [octets[0]] + octets[1..];
    }
  }

  lemma {:induction false} ValueUpdate(octets: seq<Octet>, j: nat, x: nat)
    requires j < |octets| && octets[j] + x < 256
    ensures Value(octets[j := octets[j] + x]) == Value(octets) + x * Pow2(8 * j)
  {
    if j > 0 {
      ValueUpdate(octets[1..], j - 1, x);
      assert octets[j := octets[j] + x][1..] == octets[1..][j - 1 := octets[j] + x];
      assert Pow2(8 * j) == 256 * Pow2(8 * (j - 1)) by {
        Pow2Add(8, 8 * (j - 1));
        Pow2Small();
      }
      Scale(x, Pow2(8 * (j - 1)));
    } else {
      assert Pow2(8 * j) == 1;
      assert octets[0 := octets[0] + x][1..] == octets[1..];
    }
  }

  lemma Scale(x: nat, p: nat)
    ensures 256 * (x * p) == x * (256 * p)
  {
  }

  lemma Pow2Small()
    ensures Pow2(0) == 1 && Pow2(1) == 2 && Pow2(2) == 4 && Pow2(3) == 8 && Pow2(4) == 16
    ensures Pow2(5) == 32 && Pow2(6) == 64 && Pow2(7) == 128 && Pow2(8) == 256 && Pow2(9) == 512
  {
    assert Pow2(4) == 16;
    assert Pow2(8) == 256;
  }

  lemma {:induction false} ValueZero(octets: seq<Octet>)
    requires forall k :: 0 <= k < |octets| ==> octets[k] == 0
    ensures Value(octets) == 0
  {
    if octets != [] {
      ValueZero(octets[1..]);
    }
  }

  // ----- Packing

  function PackedLength(n: nat, fill: nat): nat {
    (fill + n * 7 + 7) / 8
  }

  /** The number whose bits are `fill` zeros and then the septets, seven bits each. */
  function PackedValue(septets: seq<Octet>, fill: nat): nat {
    if septets == [] then 0
    else
      var n := |septets| - 1;
      PackedValue(septets[..n], fill) + septets[n] % 128 * Pow2(fill + 7 * n)
  }

  /** The octets of that number: what packing must give. */
  function Packed(septets: seq<Octet>, fill: nat): seq<Octet> {
    Digits(PackedValue(septets, fill), PackedLength(|septets|, fill))
  }

  /** One septet, shifted left by `r`, ored into the octet `o` and the next. */
  lemma SeptetSplits(s: Septet, r: nat, o: Octet, v: nat)
    requires r < 8 && o < Pow2(r) && v == s * Pow2(r)
    ensures Or(o, v % 256) == o + v % 256 < 256
    ensures r == 0 ==> o + v % 256 < Pow2(7)
    ensures r <= 1 ==> v < 256
    ensures v < 32768
    ensures r > 0 ==> v / 256 < Pow2(r - 1)
  {
    var p, q := Pow2(r), Pow2(8 - r);
    Pow2Small();
    assert p * q == 256 by { Pow2Add(r, 8 - r); }
    SplitProduct(s, p, q);
    assert Or(o, v % 256) == o + v % 256 by { OrDisjoint(o, r, s % q); }
    TopGap(s % q, p, q);
    if r > 0 {
      assert q * Pow2(r - 1) == 128 by { Pow2Add(8 - r, r - 1); }
      QuotientBelow(s, q, Pow2(r - 1));
    }
    ProductMonotone(s, 127, p);
  }

  lemma TopGap(b: nat, p: nat, q: nat)
    requires b < q && p * q == 256
    ensures b * p <= 256 - p
  {
    ProductMonotone(b, q - 1, p);
    assert (q - 1) * p == q * p - p;
  }

  lemma ProductMonotone(a: nat, b: nat, p: nat)
    requires a <= b
    ensures a * p <= b * p
  {
  }

  lemma Distribute(a: nat, b: nat, p: nat)
    ensures (a + b) * p == a * p + b * p
  {
  }

  lemma Regroup256(a: nat, q: nat, p: nat)
    requires p * q == 256
    ensures a * q * p == a * 256
  {
    assert a * q * p == a * (p * q);
  }

  lemma OctetsOf(a: nat, low: nat)
    requires low < 256
    ensures (a * 256 + low) % 256 == low && (a * 256 + low) / 256 == a
  {
  }

  lemma SplitProduct(s: nat, p: nat, q: nat)
    requires p > 0 && q > 0 && p * q == 256
    ensures s * p % 256 == s % q * p && s * p / 256 == s / q
  {
    var a, b := s / q, s % q;
    assert s == a * q + b;
    Distribute(a * q, b, p);
    Regroup256(a, q, p);
    TopGap(b, p, q);
    OctetsOf(a, b * p);
  }

  lemma QuotientBelow(s: nat, q: nat, n: nat)
    requires q > 0 && s < q * n
    ensures s / q < n
  {
    assert s / q * q <= s;
    if s / q >= n {
      ProductMonotone(n, s / q, q);
      assert false;
    }
  }

  /** No bit at or above position `at` is set. */
  ghost predicate ClearFrom(octets: seq<Octet>, at: nat) {
    && (forall k :: 0 <= k < |octets| && 8 * k >= at ==> octets[k] == 0)
    && (at / 8 < |octets| ==> octets[at / 8] < Pow2(at % 8))
  }

  /** The octets with the 16-bit word `v` added at octet `j`, as the code does it. */
  function WithWord(octets: seq<Octet>, v: nat, j: nat): seq<Octet>
    requires j < |octets| && octets[j] + v % 256 < 256 && v < 65536
    requires v > 255 ==> j + 1 < |octets|
  {
    var first := octets[j := octets[j] + v % 256];
    if v > 255 then first[j + 1 := v / 256] else first
  }

  lemma WithWordValue(octets: seq<Octet>, v: nat, j: nat)
    requires j < |octets| && octets[j] + v % 256 < 256 && v < 65536
    requires v > 255 ==> j + 1 < |octets| && octets[j + 1] == 0
    ensures Value(WithWord(octets, v, j)) == Value(octets) + (v % 256 * Pow2(8 * j) + v / 256 * Pow2(8 * (j + 1)))
  {
    if v > 255 {
      TwoUpdates(octets, j, v % 256, v / 256);
    } else {
      OneUpdate(octets, j, v % 256, v / 256);
    }
  }

  lemma TwoUpdates(octets: seq<Octet>, j: nat, x: nat, y: nat)
    requires j + 1 < |octets| && octets[j] + x < 256 && octets[j + 1] == 0 && y < 256
    ensures Value(octets[j := octets[j] + x][j + 1 := y]) == Value(octets) + (x * Pow2(8 * j) + y * Pow2(8 * (j + 1)))
  {
    ValueUpdate(octets, j, x);
    ValueUpdate(octets[j := octets[j] + x], j + 1, y);
  }

  lemma OneUpdate(octets: seq<Octet>, j: nat, x: nat, y: nat)
    requires j < |octets| && octets[j] + x < 256 && y == 0
    ensures Value(octets[j := octets[j] + x]) == Value(octets) + (x * Pow2(8 * j) + y * Pow2(8 * (j + 1)))
  {
    ValueUpdate(octets, j, x);
  }

  /** Room for a septet, and for the word it is ored in as. */
  lemma SeptetFits(octets: seq<Octet>, s: Septet, at: nat, v: nat)
    requires at + 7 <= 8 * |octets| && ClearFrom(octets, at) && v == s * Pow2(at % 8)
    ensures var j := at / 8;
            && j < |octets| && v < 32768 && octets[j] + v % 256 < 256
            && Or(octets[j], v % 256) == octets[j] + v % 256
            && (v > 255 ==> j + 1 < |octets| && octets[j + 1] == 0)
  {
    SeptetSplits(s, at % 8, octets[at / 8], v);
  }

  lemma WithSeptetValue(octets: seq<Octet>, s: Septet, at: nat, v: nat)
    requires at + 7 <= 8 * |octets| && ClearFrom(octets, at) && v == s * Pow2(at % 8)
    requires WithWord.requires(octets, v, at / 8)
    ensures Value(WithWord(octets, v, at / 8)) == Value(octets) + s * Pow2(at)
  {
    SeptetFits(octets, s, at, v);
    WithWordValue(octets, v, at / 8);
    SeptetAdds(s, at, v);
  }

  lemma WithSeptetClear(octets: seq<Octet>, s: Septet, at: nat, v: nat)
    requires at + 7 <= 8 * |octets| && ClearFrom(octets, at) && v == s * Pow2(at % 8)
    requires WithWord.requires(octets, v, at / 8)
    ensures ClearFrom(WithWord(octets, v, at / 8), at + 7)
  {
    var r, j := at % 8, at / 8;
    var after := WithWord(octets, v, j);
    SeptetSplits(s, r, octets[j], v);
    if r == 0 {
      assert (at + 7) / 8 == j && (at + 7) % 8 == 7;
    } else {
      assert (at + 7) / 8 == j + 1 && (at + 7) % 8 == r - 1;
      if j + 1 < |octets| {
        assert after[j + 1] == v / 256;
      }
    }
  }

  lemma PackedNext(septets: seq<Octet>, i: nat, fill: nat)
    requires i < |septets|
    ensures PackedValue(septets[..i + 1], fill)
            == PackedValue(septets[..i], fill) + septets[i] % 128 * Pow2(fill + 7 * i)
  {
    assert septets[..i + 1][..i] == septets[..i];
  }

  /** The first `i` septets are in, and nothing else. */
  ghost predicate PackedSoFar(octets: seq<Octet>, septets: seq<Octet>, fill: nat, i: nat)
    requires i <= |septets|
  {
    && |octets| == PackedLength(|septets|, fill)
    && Value(octets) == PackedValue(septets[..i], fill)
    && ClearFrom(octets, fill + 7 * i)
  }

  lemma NothingPacked(octets: seq<Octet>, septets: seq<Octet>, fill: nat)
    requires |octets| == PackedLength(|septets|, fill) && forall k :: 0 <= k < |octets| ==> octets[k] == 0
    ensures PackedSoFar(octets, septets, fill, 0)
  {
    ValueZero(octets);
    Pow2Small();
  }

  lemma AllPacked(octets: seq<Octet>, septets: seq<Octet>, fill: nat)
    requires PackedSoFar(octets, septets, fill, |septets|)
    ensures octets == Packed(septets, fill)
  {
    assert septets[..|septets|] == septets;
    DigitsOfValue(octets);
  }

  /** Pack septets into octets after `fill` zero bits. */
  method Pack(septets: seq<Octet>, fill: nat) returns (octets: seq<Octet>)
    ensures octets == Packed(septets, fill)
    ensures 8 * |octets| - 8 < fill + 7 * |septets| <= 8 * |octets|
  {
    var out := new Octet[PackedLength(|septets|, fill)](_ => 0);
    NothingPacked(out[..], septets, fill);
    for i := 0 to |septets|
      invariant PackedSoFar(out[..], septets, fill, i)
    {
      PackOne(out, septets, i, fill);
    }
    octets := out[..];
    AllPacked(octets, septets, fill);
  }

  method PackOne(out: array<Octet>, septets: seq<Octet>, i: nat, fill: nat)
    requires i < |septets| && PackedSoFar(out[..], septets, fill, i)
    modifies out
    ensures PackedSoFar(out[..], septets, fill, i + 1)
  {
    PackedNext(septets, i, fill);
    OrSeptet(out, septets[i] % 128, fill + 7 * i);
  }

  method OrSeptet(out: array<Octet>, s: Septet, at: nat)
    requires at + 7 <= 8 * out.Length && ClearFrom(out[..], at)
    modifies out
    ensures Value(out[..]) == old(Value(out[..])) + s * Pow2(at)
    ensures ClearFrom(out[..], at + 7)
  {
    var v, j := s * Pow2(at % 8), at / 8;
    SeptetFits(out[..], s, at, v);
    WithSeptetValue(out[..], s, at, v);
    WithSeptetClear(out[..], s, at, v);
    OrWord(out, v, j);
  }

  method OrWord(out: array<Octet>, v: nat, j: nat)
    requires WithWord.requires(out[..], v, j)
    requires Or(out[j], v % 256) == out[j] + v % 256
    requires v > 255 ==> out[j + 1] == 0
    modifies out
    ensures out[..] == WithWord(old(out[..]), v, j)
  {
    out[j] := Or(out[j], v % 256);
    if v > 255 {
      out[j + 1] := Or(out[j + 1], v / 256);
    }
  }

  /** The two parts written are worth the septet at bit `at`. */
  lemma SeptetAdds(s: Septet, at: nat, v: nat)
    requires v == s * Pow2(at % 8)
    ensures v % 256 * Pow2(8 * (at / 8)) + v / 256 * Pow2(8 * (at / 8 + 1)) == s * Pow2(at)
  {
    var p, r := Pow2(8 * (at / 8)), Pow2(at % 8);
    assert Pow2(8 * (at / 8 + 1)) == 256 * p by {
      Pow2Add(8, 8 * (at / 8));
      Pow2Small();
    }
    assert Pow2(at) == r * p by {
      Pow2Add(at % 8, 8 * (at / 8));
      assert at % 8 + 8 * (at / 8) == at;
    }
    Recombine(v / 256, v % 256, p);
    Associate(s, r, p);
  }

  lemma Recombine(a: nat, b: nat, p: nat)
    ensures b * p + a * (256 * p) == (256 * a + b) * p
  {
  }

  lemma Associate(a: nat, b: nat, c: nat)
    ensures a * b * c == a * (b * c)
  {
  }

  // ----- Unpacking

  /** Septet `i`, or `None` where the octets end before it does. */
  function SeptetAt(octets: seq<Octet>, fill: nat, i: nat): Option<Septet> {
    var at := fill + i * 7;
    if at / 8 >= |octets| then None
    else
      var lo := octets[at / 8];
      var hi := if at / 8 + 1 < |octets| then octets[at / 8 + 1] else 0;
      if at % 8 > 1 && at / 8 + 1 >= |octets| then None
      else Some((hi * 256 + lo) / Pow2(at % 8) % 128)
  }

  function UnpackFrom(octets: seq<Octet>, fill: nat, count: nat, i: nat): seq<Septet>
    requires i <= count
    decreases count - i
  {
    if i == count || SeptetAt(octets, fill, i).None? then []
    else [SeptetAt(octets, fill, i).value] + UnpackFrom(octets, fill, count, i + 1)
  }

  /** `count` septets from `fill` bits into `octets`, fewer if the data ends first. */
  function Unpack(octets: seq<Octet>, fill: nat, count: nat): seq<Septet> {
    UnpackFrom(octets, fill, count, 0)
  }

  /** How many whole septets there are after `fill` bits. */
  function Available(octets: seq<Octet>, fill: nat): nat {
    if 8 * |octets| < fill then 0 else (8 * |octets| - fill) / 7
  }

  function Least(a: nat, b: nat): nat {
    if a < b then a else b
  }

  lemma SeptetAvailable(octets: seq<Octet>, fill: nat, i: nat)
    ensures SeptetAt(octets, fill, i).Some? <==> i < Available(octets, fill)
  {
    var at := fill + i * 7;
    assert at == 8 * (at / 8) + at % 8;
  }

  /** Unpacking yields exactly the septets that are asked for and there. */
  lemma {:induction false} UnpackLength(octets: seq<Octet>, fill: nat, count: nat, i: nat)
    requires i <= count
    ensures var u := UnpackFrom(octets, fill, count, i);
            && |u| == (if i < Least(count, Available(octets, fill))
                       then Least(count, Available(octets, fill)) - i else 0)
            && forall k :: 0 <= k < |u| ==> SeptetAt(octets, fill, i + k) == Some(u[k])
    decreases count - i
  {
    SeptetAvailable(octets, fill, i);
    if i < count && SeptetAt(octets, fill, i).Some? {
      UnpackLength(octets, fill, count, i + 1);
    }
  }

  /** The octets from `j` on are the number shifted right by `8 * j` bits. */
  lemma {:induction false} ValueShift(octets: seq<Octet>, j: nat)
    requires j <= |octets|
    ensures Value(octets) / Pow2(8 * j) == Value(octets[j..])
  {
    if j == 0 {
      assert octets[0..] == octets;
    } else {
      ValueShift(octets[1..], j - 1);
      assert octets[1..][j - 1..] == octets[j..];
      Pow2Add(8, 8 * (j - 1));
      Pow2Small();
      DivideTwice(Value(octets), 256, Pow2(8 * (j - 1)));
      assert Value(octets) / 256 == Value(octets[1..]);
    }
  }

  lemma Nested(v: nat, a: nat, b: nat, q: nat, r: nat, c: nat, d: nat)
    requires v == a * q + r && q == b * c + d && r < a && d < b
    ensures v == a * b * c + (a * d + r) && a * d + r < a * b
  {
    Expand(a, b, c, d);
    ProductMonotone(d + 1, b, a);
  }

  lemma DivideTwice(v: nat, a: nat, b: nat)
    requires a > 0 && b > 0
    ensures a * b > 0 && v / (a * b) == v / a / b
  {
    var q := v / a;
    Nested(v, a, b, q, v % a, q / b, q % b);
    ProductMonotone(1, a, b);
    QuotientUnique(v, a * b, q / b, a * (q % b) + v % a);
  }

  lemma Expand(a: nat, b: nat, c: nat, d: nat)
    ensures a * (b * c + d) == a * b * c + a * d
  {
    Associate(a, b, c);
  }

  lemma QuotientUnique(v: nat, d: nat, q: nat, r: nat)
    requires d > 0 && r < d && v == d * q + r
    ensures v / d == q && v % d == r
  {
    if v / d < q {
      ProductMonotone(v / d + 1, q, d);
    } else if v / d > q {
      ProductMonotone(q + 1, v / d, d);
    }
  }

  /** A septet read is the seven bits of the number from bit `fill + 7 * i` on. */
  lemma SeptetIsDigit(octets: seq<Octet>, fill: nat, i: nat)
    requires SeptetAt(octets, fill, i).Some?
    ensures SeptetAt(octets, fill, i).value == Value(octets) / Pow2(fill + 7 * i) % 128
  {
    var at := fill + i * 7;
    var j, r := at / 8, at % 8;
    var rest := Value(octets[j..]);
    ValueShift(octets, j);
    Pow2Add(8 * j, r);
    assert 8 * j + r == at;
    DivideTwice(Value(octets), Pow2(8 * j), Pow2(r));
    var hi: nat := if j + 1 < |octets| then octets[j + 1] else 0;
    var two: nat := octets[j] + 256 * hi;
    var more := if j + 1 < |octets| then Value(octets[j..][1..][1..]) else 0;
    assert rest == two + 65536 * more;
    LowBits(two, more, r);
  }

  /** Bits above the sixteenth do not reach a septet that starts in the first eight. */
  lemma LowBits(two: nat, more: nat, r: nat)
    requires r < 8
    ensures (two + 65536 * more) / Pow2(r) % 128 == two / Pow2(r) % 128
  {
    Pow2Add(r, 9 - r);
    Pow2Small();
    HighPart(two, Pow2(r), Pow2(9 - r), more);
    Mod128(two / Pow2(r), Pow2(9 - r) * more);
  }

  lemma Mod128(a: nat, x: nat)
    ensures (a + 128 * x) % 128 == a % 128
  {
  }

  lemma HighPart(two: nat, p: nat, q: nat, more: nat)
    requires p > 0 && p * q == 512
    ensures (two + 65536 * more) / p == two / p + 128 * (q * more)
  {
    var x, d := q * more, two / p;
    Associate(p, q, more);
    assert 512 * more == p * x;
    Expand(p, 128, x, d);
    Swap(p, 128, x);
    assert two == p * d + two % p;
    QuotientUnique(two + 65536 * more, p, d + 128 * x, two % p);
  }

  lemma Swap(a: nat, b: nat, c: nat)
    ensures a * b * c == b * (a * c)
  {
    Associate(b, a, c);
  }

  // ----- Packing and unpacking

  /** The packed number, cut at septet `i`. */
  lemma {:induction false} PackedCut(septets: seq<Octet>, fill: nat, i: nat)
    requires i <= |septets|
    ensures PackedValue(septets, fill) ==
            PackedValue(septets[..i], fill) + PackedValue(septets[i..], 0) * Pow2(fill + 7 * i)
    decreases |septets|
  {
    if i == |septets| {
      assert septets[..i] == septets && septets[i..] == [];
    } else {
      var n := |septets| - 1;
      PackedCut(septets[..n], fill, i);
      assert septets[..n][..i] == septets[..i];
      assert septets[..n][i..] == septets[i..][..n - i];
      Pow2Add(fill + 7 * i, 7 * (n - i));
      assert fill + 7 * i + 7 * (n - i) == fill + 7 * n;
      SumTimes(PackedValue(septets[..n][i..], 0), septets[n] % 128, Pow2(7 * (n - i)), Pow2(fill + 7 * i));
    }
  }

  lemma SumTimes(rest: nat, last: nat, p: nat, q: nat)
    ensures rest * q + last * (q * p) == (rest + last * p) * q
  {
    Associate(last, p, q);
  }

  lemma {:induction false} PackedBelow(septets: seq<Octet>, fill: nat)
    ensures PackedValue(septets, fill) < Pow2(fill + 7 * |septets|)
  {
    if septets != [] {
      var n := |septets| - 1;
      PackedBelow(septets[..n], fill);
      var p := Pow2(fill + 7 * n);
      Pow2Add(7, fill + 7 * n);
      Pow2Small();
      assert 7 + (fill + 7 * n) == fill + 7 * |septets|;
      ProductMonotone(septets[n] % 128, 127, p);
    }
  }

  /** Septet `i` of the packed number. */
  lemma PackedDigit(septets: seq<Octet>, fill: nat, i: nat)
    requires i < |septets|
    ensures PackedValue(septets, fill) / Pow2(fill + 7 * i) % 128 == septets[i] % 128
  {
    var p := Pow2(fill + 7 * i);
    PackedCut(septets, fill, i + 1);
    PackedNext(septets, i, fill);
    PackedBelow(septets[..i], fill);
    assert Pow2(fill + 7 * (i + 1)) == 128 * p by {
      Pow2Add(7, fill + 7 * i);
      Pow2Small();
      assert 7 + (fill + 7 * i) == fill + 7 * (i + 1);
    }
    DigitOf(PackedValue(septets, fill), PackedValue(septets[..i], fill), septets[i] % 128,
            PackedValue(septets[i + 1..], 0), p);
  }

  lemma DigitOf(v: nat, low: nat, d: Septet, rest: nat, p: nat)
    requires low < p && v == low + d * p + rest * (128 * p)
    ensures v / p % 128 == d
  {
    Swap(rest, 128, p);
    Associate(rest, 128, p);
    QuotientUnique(v, p, d + 128 * rest, low);
    Mod128(d, rest);
  }

  lemma {:induction false} ValueOfDigits(v: nat, n: nat)
    requires v < Pow2(8 * n)
    ensures Value(Digits(v, n)) == v
  {
    if n > 0 {
      Pow2Add(8, 8 * (n - 1));
      Pow2Small();
      assert 8 + 8 * (n - 1) == 8 * n;
      QuotientBelow(v, 256, Pow2(8 * (n - 1)));
      ValueOfDigits(v / 256, n - 1);
      assert Digits(v, n)[1..] == Digits(v / 256, n - 1);
    }
  }

  lemma {:induction false} Pow2Monotone(m: nat, n: nat)
    requires m <= n
    ensures Pow2(m) <= Pow2(n)
    decreases n - m
  {
    if m < n {
      Pow2Monotone(m, n - 1);
    }
  }

  lemma ValueOfPacked(septets: seq<Octet>, fill: nat)
    ensures Value(Packed(septets, fill)) == PackedValue(septets, fill)
  {
    var n := PackedLength(|septets|, fill);
    PackedBelow(septets, fill);
    Pow2Monotone(fill + 7 * |septets|, 8 * n);
    ValueOfDigits(PackedValue(septets, fill), n);
  }

  lemma PackedRoom(septets: seq<Octet>, fill: nat, k: nat)
    requires k < |septets|
    ensures SeptetAt(Packed(septets, fill), fill, k).Some?
  {
    SeptetAvailable(Packed(septets, fill), fill, k);
  }

  lemma SeptetBack(septets: seq<Septet>, fill: nat, k: nat)
    requires k < |septets|
    ensures SeptetAt(Packed(septets, fill), fill, k) == Some(septets[k])
  {
    var octets := Packed(septets, fill);
    PackedRoom(septets, fill, k);
    SeptetIsDigit(octets, fill, k);
    ValueOfPacked(septets, fill);
    PackedDigit(septets, fill, k);
  }

  /** Unpacking what was packed gives back every septet, for every fill. */
  lemma UnpackPack(septets: seq<Septet>, fill: nat)
    ensures Unpack(Packed(septets, fill), fill, |septets|) == septets
  {
    var u := Unpack(Packed(septets, fill), fill, |septets|);
    UnpackLength(Packed(septets, fill), fill, |septets|, 0);
    forall k | 0 <= k < |septets|
      ensures k < |u| && u[k] == septets[k]
    {
      SeptetBack(septets, fill, k);
      assert SeptetAt(Packed(septets, fill), fill, 0 + k) == Some(u[k]);
    }
  }

  // ----- Text

  /** The escape to the extension table. */
  const ESC: Septet := 0x1B

  /** The characters by septet, and the characters reached through the escape. */
  datatype Tables = Tables(plain: string, extended: seq<(Septet, char)>)

  /** One character per septet, and one per extension code. */
  predicate ValidTables(t: Tables) {
    |t.plain| == 128 && forall i, j :: 0 <= i < j < |t.extended| ==> t.extended[i].0 != t.extended[j].0
  }

  type Alphabet = t: Tables | ValidTables(t) witness Tables(DEFAULT, EXTENSION)

  /** The default alphabet by septet, sixteen in a row; the entry at the escape is never looked up. */
  const ROW_0: string := "@\U{A3}$\U{A5}\U{E8}\U{E9}\U{F9}\U{EC}\U{F2}\U{C7}\n\U{D8}\U{F8}\r\U{C5}\U{E5}"
  const ROW_1: string :=
    "\U{394}_\U{3A6}\U{393}\U{39B}\U{3A9}\U{3A0}\U{3A8}\U{3A3}\U{398}\U{39E} \U{C6}\U{E6}\U{DF}\U{C9}"
  const ROW_2: string := " !\"#\U{A4}%&'()*+,-./"
  const ROW_3: string := "0123456789:;<=>?"
  const ROW_4: string := "\U{A1}ABCDEFGHIJKLMNO"
  const ROW_5: string := "PQRSTUVWXYZ\U{C4}\U{D6}\U{D1}\U{DC}\U{A7}"
  const ROW_6: string := "\U{BF}abcdefghijklmno"
  const ROW_7: string := "pqrstuvwxyz\U{E4}\U{F6}\U{F1}\U{FC}\U{E0}"
  const DEFAULT: string := ROW_0 + ROW_1 + ROW_2 + ROW_3 + ROW_4 + ROW_5 + ROW_6 + ROW_7

  /** The extension table: the septet after the escape, and the character. */
  const EXTENSION: seq<(Septet, char)> :=
    [(0x0A, '\U{0C}'), (0x14, '^'), (0x28, '{'), (0x29, '}'), (0x2F, '\\'), (0x3C, '['), (0x3D, '~'), (0x3E, ']'),
     (0x40, '|'), (0x65, '\U{20AC}')]

  const GSM: Alphabet := Tables(DEFAULT, EXTENSION)

  function CodeOf(table: seq<(Septet, char)>, c: char): Option<Septet> {
    if table == [] then None
    else if table[0].1 == c then Some(table[0].0)
    else CodeOf(table[1..], c)
  }

  function CharOf(table: seq<(Septet, char)>, code: Septet): Option<char> {
    if table == [] then None
    else if table[0].0 == code then Some(table[0].1)
    else CharOf(table[1..], code)
  }

  /** The first septet of the plain table for `c`, from `i` on, the escape excepted. */
  function PlainFrom(plain: string, c: char, i: nat): (r: Option<Septet>)
    requires |plain| == 128
    ensures r.Some? ==> plain[r.value] == c && r.value != ESC
    ensures r.None? ==> forall k :: i <= k < 128 && k != ESC ==> plain[k] != c
    decreases 128 - i
  {
    if i >= 128 then None
    else if plain[i] == c && i != ESC then Some(i)
    else PlainFrom(plain, c, i + 1)
  }

  /** The septets of one character, or `None` if it is not in the alphabet. */
  function SeptetsOf(a: Alphabet, c: char): Option<seq<Septet>>
  {
    var extended := CodeOf(a.extended, c);
    if extended.Some? then Some([ESC, extended.value])
    else
      var plain := PlainFrom(a.plain, c, 0);
      if plain.Some? then Some([plain.value]) else None
  }

  /** Text to septets, or `None` if a character is not in the alphabet. */
  function Encoded(a: Alphabet, text: string): Option<seq<Septet>>
  {
    if text == [] then Some([])
    else
      var front := Encoded(a, text[..|text| - 1]);
      var last := SeptetsOf(a, text[|text| - 1]);
      if front.None? || last.None? then None else Some(front.value + last.value)
  }

  /** How many septets a character takes; none outside the alphabet. */
  function SeptetLen(a: Alphabet, c: char): nat {
    if CodeOf(a.extended, c).Some? then 2 else if PlainFrom(a.plain, c, 0).Some? then 1 else 0
  }

  function TotalLen(a: Alphabet, text: string): nat {
    if text == [] then 0 else TotalLen(a, text[..|text| - 1]) + SeptetLen(a, text[|text| - 1])
  }

  /** A text is encoded exactly when all its characters are in the alphabet, in as many septets as they take. */
  lemma {:induction false} EncodedLength(a: Alphabet, text: string)
    ensures Encoded(a, text).Some? <==> forall k :: 0 <= k < |text| ==> SeptetLen(a, text[k]) > 0
    ensures Encoded(a, text).Some? ==> |Encoded(a, text).value| == TotalLen(a, text)
  {
    if text != [] {
      var front := text[..|text| - 1];
      EncodedLength(a, front);
      assert forall k :: 0 <= k < |front| ==> front[k] == text[k];
      assert SeptetsOf(a, text[|text| - 1]).Some? <==> SeptetLen(a, text[|text| - 1]) > 0;
    }
  }

  method Encode(a: Alphabet, text: string) returns (r: Option<seq<Septet>>)
    ensures r == Encoded(a, text)
  {
    var out: seq<Septet> := [];
    for i := 0 to |text|
      invariant Encoded(a, text[..i]) == Some(out)
    {
      assert text[..i + 1][..i] == text[..i];
      var s := SeptetsOf(a, text[i]);
      if s.None? {
        EncodedPrefix(a, text, i + 1);
        return None;
      }
      out := out + s.value;
    }
    assert text[..|text|] == text;
    r := Some(out);
  }

  /** A text with a prefix that cannot be encoded cannot be either. */
  lemma {:induction false} EncodedPrefix(a: Alphabet, text: string, i: nat)
    requires i <= |text| && Encoded(a, text[..i]).None?
    ensures Encoded(a, text).None?
    decreases |text|
  {
    if i == |text| {
      assert text[..i] == text;
    } else {
      assert text[..|text| - 1][..i] == text[..i];
      EncodedPrefix(a, text[..|text| - 1], i);
    }
  }

  /** The character an escape and the septet after it stand for. */
  function Escaped(a: Alphabet, e: Septet): char
  {
    var c := CharOf(a.extended, e);
    if c.Some? then c.value else if e == ESC then ' ' else a.plain[e]
  }

  /** Septets to text; the eighth bit is ignored, and a trailing escape is a space. */
  function Decoded(a: Alphabet, octets: seq<Octet>): string
  {
    if octets == [] then ""
    else
      var s := octets[0] % 128;
      if s != ESC then [a.plain[s]] + Decoded(a, octets[1..])
      else if |octets| == 1 then " "
      else [Escaped(a, octets[1] % 128)] + Decoded(a, octets[2..])
  }

  method Decode(a: Alphabet, octets: seq<Octet>) returns (text: string)
    ensures text == Decoded(a, octets)
  {
    text := "";
    var i := 0;
    assert octets[0..] == octets;
    while i < |octets|
      invariant 0 <= i <= |octets|
      invariant text + Decoded(a, octets[i..]) == Decoded(a, octets)
    {
      DecodedFrom(a, octets, i);
      ghost var here := i;
      var s := octets[i] % 128;
      i := i + 1;
      var c := ' ';
      if s != ESC {
        c := a.plain[s];
      } else if i < |octets| {
        c := Escaped(a, octets[i] % 128);
        i := i + 1;
      }
      assert Decoded(a, octets[here..]) == [c] + Decoded(a, octets[i..]);
      Append(text, c, Decoded(a, octets[i..]));
      text := text + [c];
    }
    assert text + "" == text;
  }

  lemma Append(text: string, c: char, rest: string)
    ensures text + [c] + rest == text + ([c] + rest)
  {
  }

  lemma DecodedFrom(a: Alphabet, octets: seq<Octet>, i: nat)
    requires i < |octets|
    ensures var s := octets[i] % 128;
            Decoded(a, octets[i..]) ==
            if s != ESC then [a.plain[s]] + Decoded(a, octets[i + 1..])
            else if i + 1 < |octets| then [Escaped(a, octets[i + 1] % 128)] + Decoded(a, octets[i + 2..])
            else " " + Decoded(a, octets[i + 1..])
  {
    assert octets[i..][1..] == octets[i + 1..];
    if i + 1 < |octets| {
      assert octets[i..][2..] == octets[i + 2..];
    }
  }

  lemma {:induction false} CharOfCode(table: seq<(Septet, char)>, c: char)
    requires CodeOf(table, c).Some?
    requires forall i, j :: 0 <= i < j < |table| ==> table[i].0 != table[j].0
    ensures CharOf(table, CodeOf(table, c).value) == Some(c)
  {
    if table[0].1 != c {
      CodeListed(table[1..], c);
      CharOfCode(table[1..], c);
    }
  }

  lemma {:induction false} CodeListed(table: seq<(Septet, char)>, c: char)
    requires CodeOf(table, c).Some?
    ensures exists k :: 0 <= k < |table| && table[k] == (CodeOf(table, c).value, c)
  {
    if table[0].1 != c {
      CodeListed(table[1..], c);
      var k :| 0 <= k < |table[1..]| && table[1..][k] == (CodeOf(table[1..], c).value, c);
      assert table[k + 1] == table[1..][k];
    }
  }

  /** Whole characters decode one after the other. */
  lemma DecodeCharacter(a: Alphabet, c: char, codes: seq<Septet>, rest: seq<Octet>)
    requires SeptetsOf(a, c) == Some(codes)
    ensures Decoded(a, codes + rest) == [c] + Decoded(a, rest)
  {
    var all: seq<Octet> := codes + rest;
    assert all[|codes|..] == rest;
    if CodeOf(a.extended, c).Some? {
      CharOfCode(a.extended, c);
    }
  }

  lemma {:induction false} DecodeEncodedThen(a: Alphabet, text: string, rest: seq<Octet>)
    requires Encoded(a, text).Some?
    ensures Decoded(a, Encoded(a, text).value + rest) == text + Decoded(a, rest)
  {
    if text == [] {
      assert [] + rest == rest;
    } else {
      var n := |text| - 1;
      var front, last := Encoded(a, text[..n]), SeptetsOf(a, text[n]);
      DecodeEncodedThen(a, text[..n], last.value + rest);
      DecodeCharacter(a, text[n], last.value, rest);
      assert Encoded(a, text).value + rest == front.value + (last.value + rest);
      Append(text[..n], text[n], Decoded(a, rest));
      assert text[..n] + [text[n]] == text;
    }
  }

  /** Decoding what was encoded gives back the text. */
  lemma DecodeEncode(a: Alphabet, text: string)
    requires Encoded(a, text).Some?
    ensures Decoded(a, Encoded(a, text).value) == text
  {
    DecodeEncodedThen(a, text, []);
    assert Encoded(a, text).value + [] == Encoded(a, text).value;
  }

  /** A text in the GSM alphabet survives encoding, packing, unpacking and decoding, after any header. */
  lemma TextRoundTrip(text: string, fill: nat)
    requires Encoded(GSM, text).Some?
    ensures var s := Encoded(GSM, text).value; Decoded(GSM, Unpack(Packed(s, fill), fill, |s|)) == text
  {
    UnpackPack(Encoded(GSM, text).value, fill);
    DecodeEncode(GSM, text);
  }

  // ----- What the table says

  /** The ASCII characters the alphabet has under their own codes. */
  predicate OwnCode(n: nat) {
    n == 10 || n == 13 || 32 <= n <= 35 || 37 <= n <= 63 || 65 <= n <= 90 || 97 <= n <= 122
  }

  /** Three more of them stand elsewhere. */
  predicate MovedTo(c: char, i: nat) {
    (c == '@' && i == 0) || (c == '$' && i == 2) || (c == '_' && i == 17)
  }

  /** A character of these stands at its place and nowhere else but at the escape. */
  predicate Stands(c: char, i: nat) {
    && (OwnCode(i) ==> c as nat == i)
    && (i in {0, 2, 17} ==> MovedTo(c, i))
    && (OwnCode(c as nat) && i != 27 ==> c as nat == i)
    && (c in {'@', '$', '_'} ==> MovedTo(c, i))
  }

  lemma Row0Stands(k: nat)
    requires k < 16
    ensures |ROW_0| == 16 && Stands(ROW_0[k], 0 + k)
  {
  }

  lemma Row1Stands(k: nat)
    requires k < 16
    ensures |ROW_1| == 16 && Stands(ROW_1[k], 16 + k)
  {
  }

  lemma Row2Stands(k: nat)
    requires k < 16
    ensures |ROW_2| == 16 && Stands(ROW_2[k], 32 + k)
  {
  }

  lemma Row3Stands(k: nat)
    requires k < 16
    ensures |ROW_3| == 16 && Stands(ROW_3[k], 48 + k)
  {
  }

  lemma Row4Stands(k: nat)
    requires k < 16
    ensures |ROW_4| == 16 && Stands(ROW_4[k], 64 + k)
  {
  }

  lemma Row5Stands(k: nat)
    requires k < 16
    ensures |ROW_5| == 16 && Stands(ROW_5[k], 80 + k)
  {
  }

  lemma Row6Stands(k: nat)
    requires k < 16
    ensures |ROW_6| == 16 && Stands(ROW_6[k], 96 + k)
  {
  }

  lemma Row7Stands(k: nat)
    requires k < 16
    ensures |ROW_7| == 16 && Stands(ROW_7[k], 112 + k)
  {
  }

  lemma EightRows(r: seq<string>, i: nat)
    requires |r| == 8 && (forall j :: 0 <= j < 8 ==> |r[j]| == 16) && i < 128
    ensures var all := r[0] + r[1] + r[2] + r[3] + r[4] + r[5] + r[6] + r[7];
            |all| == 128 && all[i] == r[i / 16][i % 16]
  {
    var half, rest := r[0] + r[1] + r[2] + r[3], r[4] + r[5] + r[6] + r[7];
    assert r[0] + r[1] + r[2] + r[3] + r[4] + r[5] + r[6] + r[7] == half + rest;
  }

  /** Line feed, carriage return, space, digits, letters and most punctuation stand at their own codes. */
  lemma StandsAtOwnCode(i: nat)
    requires i < 128
    ensures |DEFAULT| == 128 && Stands(DEFAULT[i], i)
  {
    EightRows([ROW_0, ROW_1, ROW_2, ROW_3, ROW_4, ROW_5, ROW_6, ROW_7], i);
    match i / 16 {
      case 0 => Row0Stands(i % 16);
      case 1 => Row1Stands(i % 16);
      case 2 => Row2Stands(i % 16);
      case 3 => Row3Stands(i % 16);
      case 4 => Row4Stands(i % 16);
      case 5 => Row5Stands(i % 16);
      case 6 => Row6Stands(i % 16);
      case 7 => Row7Stands(i % 16);
    }
  }

  // ----- Characters and escapes one by one

  /** A character with a code of its own is encoded as that code. */
  lemma EncodedAsItself(c: char)
    requires OwnCode(c as nat)
    ensures SeptetsOf(GSM, c) == Some([c as nat])
  {
    StandsAtOwnCode(c as nat);
    NotExtended(EXTENSION, c);
    var p := PlainFrom(DEFAULT, c, 0);
    if p.Some? {
      StandsAtOwnCode(p.value);
    }
  }

  /** The three others have codes below the space. */
  lemma EncodedElsewhere(c: char, i: nat)
    requires MovedTo(c, i)
    ensures SeptetsOf(GSM, c) == Some([i])
  {
    StandsAtOwnCode(i);
    NotExtended(EXTENSION, c);
    var p := PlainFrom(DEFAULT, c, 0);
    if p.Some? {
      StandsAtOwnCode(p.value);
    }
  }

  lemma {:induction false} NotExtended(table: seq<(Septet, char)>, c: char)
    requires forall k :: 0 <= k < |table| ==> table[k].1 != c
    ensures CodeOf(table, c).None?
  {
    if table != [] {
      NotExtended(table[1..], c);
    }
  }

  lemma {:induction false} ExtendedAt(table: seq<(Septet, char)>, k: nat)
    requires k < |table| && forall i, j :: 0 <= i < j < |table| ==> table[i].1 != table[j].1
    ensures CodeOf(table, table[k].1) == Some(table[k].0)
  {
    if k > 0 {
      ExtendedAt(table[1..], k - 1);
    }
  }

  lemma ExtensionDistinct()
    ensures |EXTENSION| == 10 && forall i, j :: 0 <= i < j < 10 ==> EXTENSION[i].1 != EXTENSION[j].1
  {
  }

  lemma EncodedByEntry(k: nat)
    requires k < 10
    ensures |EXTENSION| == 10 && SeptetsOf(GSM, EXTENSION[k].1) == Some([27, EXTENSION[k].0])
  {
    ExtensionDistinct();
    ExtendedAt(EXTENSION, k);
  }

  /** The characters reached through the escape: form feed, brackets, and five more. */
  lemma EncodedWithEscape()
    ensures SeptetsOf(GSM, '\U{0C}') == Some([27, 10]) && SeptetsOf(GSM, '^') == Some([27, 20])
    ensures SeptetsOf(GSM, '{') == Some([27, 40]) && SeptetsOf(GSM, '}') == Some([27, 41])
    ensures SeptetsOf(GSM, '\\') == Some([27, 47])
  {
    EncodedByEntry(0);
    EncodedByEntry(1);
    EncodedByEntry(2);
    EncodedByEntry(3);
    EncodedByEntry(4);
  }

  lemma EncodedWithEscapeToo()
    ensures SeptetsOf(GSM, '[') == Some([27, 60]) && SeptetsOf(GSM, '~') == Some([27, 61])
    ensures SeptetsOf(GSM, ']') == Some([27, 62]) && SeptetsOf(GSM, '|') == Some([27, 64])
    ensures SeptetsOf(GSM, '\U{20AC}') == Some([27, 101])
  {
    EncodedByEntry(5);
    EncodedByEntry(6);
    EncodedByEntry(7);
    EncodedByEntry(8);
    EncodedByEntry(9);
  }

  lemma {:induction false} CharAbsent(table: seq<(Septet, char)>, code: Septet)
    requires forall k :: 0 <= k < |table| ==> table[k].0 != code
    ensures CharOf(table, code).None?
  {
    if table != [] {
      CharAbsent(table[1..], code);
    }
  }

  lemma {:induction false} CharPresent(table: seq<(Septet, char)>, k: nat)
    requires k < |table| && forall i, j :: 0 <= i < j < |table| ==> table[i].0 != table[j].0
    ensures CharOf(table, table[k].0) == Some(table[k].1)
  {
    if k > 0 {
      CharPresent(table[1..], k - 1);
    }
  }

  /**
   An escape and a code: the character the extension has for the code, else a space for a second
   escape, else the plain character of the code. An escape at the end is a space.
   */
  lemma EscapeDecoded(a: Alphabet, code: Septet, rest: seq<Octet>)
    ensures forall k :: 0 <= k < |a.extended| && a.extended[k].0 == code ==>
              Decoded(a, [27, code] + rest) == [a.extended[k].1] + Decoded(a, rest)
    ensures (forall k :: 0 <= k < |a.extended| ==> a.extended[k].0 != code) ==>
              Decoded(a, [27, code] + rest) == [if code == 27 then ' ' else a.plain[code]] + Decoded(a, rest)
    ensures Decoded(a, [27]) == " "
  {
    var all: seq<Octet> := [27, code] + rest;
    assert all[2..] == rest;
    if k :| 0 <= k < |a.extended| && a.extended[k].0 == code {
      CharPresent(a.extended, k);
    } else {
      CharAbsent(a.extended, code);
    }
  }
}
