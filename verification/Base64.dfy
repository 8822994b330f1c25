/** The Base64 codec of objects/base64/base64.c: section 4 of RFC 4648, and for what
    a decoder skips section 6.8 of RFC 2045. */
module Base64 {

  type Byte = x: int | 0 <= x < 256
  type Sextet = x: int | 0 <= x < 64

  const PAD: Byte := 61

  /** The digit for a value: A to Z, a to z, 0 to 9, + and /. */
  function EncodeTable(v: Sextet): (c: Byte)
    ensures c != 0 && c != PAD
  {
    if v < 26 then 65 + v else if v < 52 then 97 + v - 26 else if v < 62 then 48 + v - 52 else if v == 62 then 43 else 47
  }

  /** A digit's value, or -1 for anything else. */
  function Base64Val(c: Byte): (v: int)
    ensures -1 <= v < 64
    ensures v >= 0 ==> EncodeTable(v) == c
  {
    if 65 <= c <= 90 then c - 65
    else if 97 <= c <= 122 then c - 97 + 26
    else if 48 <= c <= 57 then c - 48 + 52
    else if c == 43 then 62
    else if c == 47 then 63
    else -1
  }

  lemma ValOfDigit(v: Sextet)
    ensures Base64Val(EncodeTable(v)) == v && Base64Val(PAD) == -1
  {}

  /** A C string ends at its first NUL. */
  function Cut(s: seq<Byte>): (r: seq<Byte>)
    ensures 0 !in r && r <= s && (|r| < |s| ==> s[|r|] == 0)
  {
    if s == [] || s[0] == 0 then [] else [s[0]] + Cut(s[1..])
  }

  // ---- what the codec computes ----------------------------------------------------

  /** The four sextets of three octets. */
  function Six1(a: int): (r: Sextet)
    requires 0 <= a < 256
  {
    a / 4
  }

  function Six2(a: int, b: int): (r: Sextet)
    requires 0 <= a < 256 && 0 <= b < 256
  {
    a % 4 * 16 + b / 16
  }

  function Six3(b: int, c: int): (r: Sextet)
    requires 0 <= b < 256 && 0 <= c < 256
  {
    b % 16 * 4 + c / 64
  }

  function Six4(c: int): (r: Sextet)
    requires 0 <= c < 256
  {
    c % 64
  }

  /** Eight bits at a time regrouped by six; a short last group is padded. */
  function Encode(s: seq<Byte>): seq<Byte>
    decreases |s|
  {
    if s == [] then []
    else if |s| == 1 then [EncodeTable(Six1(s[0])), EncodeTable(Six2(s[0], 0)), PAD, PAD]
    else if |s| == 2 then [EncodeTable(Six1(s[0])), EncodeTable(Six2(s[0], s[1])), EncodeTable(Six3(s[1], 0)), PAD]
    else [EncodeTable(Six1(s[0])), EncodeTable(Six2(s[0], s[1])), EncodeTable(Six3(s[1], s[2])), EncodeTable(Six4(s[2]))] + Encode(s[3..])
  }

  /** The values of the digits in a text; everything else is skipped. */
  function Digits(s: seq<Byte>): (d: seq<Sextet>)
    ensures |d| <= |s|
  {
    if s == [] then []
    else
      var v := Base64Val(s[|s| - 1]);
      if v < 0 then Digits(s[..|s| - 1]) else Digits(s[..|s| - 1]) + [v]
  }

  /** Two sextets' bits make an octet, in each of the three places. */
  function First(a: int, b: int): (r: Byte)
    requires 0 <= a < 64 && 0 <= b < 64
  {
    a * 4 + b / 16
  }

  function Second(b: int, c: int): (r: Byte)
    requires 0 <= b < 64 && 0 <= c < 64
  {
    b % 16 * 16 + c / 4
  }

  function Third(c: int, d: int): (r: Byte)
    requires 0 <= c < 64 && 0 <= d < 64
  {
    c % 4 * 64 + d
  }

  /** Six bits at a time regrouped by eight; a last group of two or three digits
      carries one or two octets. */
  function Octets(d: seq<Sextet>): seq<Byte>
    decreases |d|
  {
    if |d| < 2 then []
    else if |d| == 2 then [First(d[0], d[1])]
    else if |d| == 3 then [First(d[0], d[1]), Second(d[1], d[2])]
    else [First(d[0], d[1]), Second(d[1], d[2]), Third(d[2], d[3])] + Octets(d[4..])
  }

  function Decode(s: seq<Byte>): seq<Byte> {
    Octets(Digits(s))
  }

  // ---- what that means --------------------------------------------------------------

  lemma {:induction false} DigitsJoin(a: seq<Byte>, b: seq<Byte>)
    ensures Digits(a + b) == Digits(a) + Digits(b)
    decreases |b|
  {
    if b == [] {
      assert a + b == a;
    } else {
      assert (a + b)[..|a + b| - 1] == a + b[..|b| - 1];
      DigitsJoin(a, b[..|b| - 1]);
    }
  }

  lemma {:induction false} OctetsJoin(d: seq<Sextet>, e: seq<Sextet>)
    requires |d| % 4 == 0
    ensures Octets(d + e) == Octets(d) + Octets(e)
    decreases |d|
  {
    hide First, Second, Third;
    if d == [] {
      assert d + e == e;
    } else {
      assert (d + e)[4..] == d[4..] + e;
      OctetsJoin(d[4..], e);
    }
  }

  lemma DigitsOfFour(a: Byte, b: Byte, c: Byte, e: Byte)
    ensures Digits([a, b, c, e]) == Digits([a]) + Digits([b]) + Digits([c]) + Digits([e])
  {
    DigitsJoin([a], [b]);
    DigitsJoin([a, b], [c]);
    DigitsJoin([a, b, c], [e]);
    assert [a] + [b] == [a, b] && [a, b] + [c] == [a, b, c] && [a, b, c] + [e] == [a, b, c, e];
  }

  lemma DigitOf(v: Sextet)
    ensures Digits([EncodeTable(v)]) == [v] && Digits([PAD]) == []
  {
    ValOfDigit(v);
    assert [EncodeTable(v)][..0] == [] && [PAD][..0] == [];
  }

  lemma BitsBack(a: Byte, b: Byte, c: Byte)
    ensures First(Six1(a), Six2(a, b)) == a && Second(Six2(a, b), Six3(b, c)) == b && Third(Six3(b, c), Six4(c)) == c
  {}

  /** The sextets of one group, and the octets they give back. */
  lemma GroupOfOne(a: Byte)
    ensures Digits(Encode([a])) == [Six1(a), Six2(a, 0)] && Decode(Encode([a])) == [a]
  {
    hide Digits, EncodeTable, Six1, Six2, First, Octets;
    var x, y := Six1(a), Six2(a, 0);
    LastOctets([], [x, y]);
    var e := [EncodeTable(x), EncodeTable(y), PAD, PAD];
    assert Encode([a]) == e;
    DigitsOfFour(EncodeTable(x), EncodeTable(y), PAD, PAD);
    DigitOf(x);
    DigitOf(y);
    assert [x] + [y] + [] + [] == [x, y];
    assert Digits(e) == [x, y];
    BitsBack(a, 0, 0);
  }

  lemma GroupOfTwo(a: Byte, b: Byte)
    ensures Digits(Encode([a, b])) == [Six1(a), Six2(a, b), Six3(b, 0)] && Decode(Encode([a, b])) == [a, b]
  {
    hide Digits, EncodeTable, Six1, Six2, Six3, First, Second, Octets;
    LastOctets([], [Six1(a), Six2(a, b), Six3(b, 0)]);
    DigitsOfFour(EncodeTable(Six1(a)), EncodeTable(Six2(a, b)), EncodeTable(Six3(b, 0)), PAD);
    DigitOf(Six1(a));
    DigitOf(Six2(a, b));
    DigitOf(Six3(b, 0));
    BitsBack(a, b, 0);
    assert Digits(Encode([a, b])) == [Six1(a)] + [Six2(a, b)] + [Six3(b, 0)] + [];
  }

  lemma GroupOfThree(a: Byte, b: Byte, c: Byte)
    ensures Digits(Encode([a, b, c])) == [Six1(a), Six2(a, b), Six3(b, c), Six4(c)] && Decode(Encode([a, b, c])) == [a, b, c]
  {
    hide Digits, EncodeTable, Six1, Six2, Six3, Six4, First, Second, Third, Octets;
    var e1, e2, e3, e4 := EncodeTable(Six1(a)), EncodeTable(Six2(a, b)), EncodeTable(Six3(b, c)), EncodeTable(Six4(c));
    assert [a, b, c][3..] == [];
    assert Encode([a, b, c]) == [e1, e2, e3, e4] + Encode([]) == [e1, e2, e3, e4];
    DigitsOfFour(e1, e2, e3, e4);
    DigitOf(Six1(a));
    DigitOf(Six2(a, b));
    DigitOf(Six3(b, c));
    DigitOf(Six4(c));
    BitsBack(a, b, c);
    var four := [Six1(a), Six2(a, b), Six3(b, c), Six4(c)];
    assert Digits(Encode([a, b, c])) == [Six1(a)] + [Six2(a, b)] + [Six3(b, c)] + [Six4(c)] == four;
    OctetsOfFour([], four);
    DecodeNothing([]);
    assert [] + four == four;
  }

  /** Decoding what was encoded gives it back. */
  lemma {:induction false} DecodeEncode(s: seq<Byte>)
    ensures Decode(Encode(s)) == s
    decreases |s|
  {
    if |s| == 1 {
      GroupOfOne(s[0]);
      assert s == [s[0]];
    } else if |s| == 2 {
      GroupOfTwo(s[0], s[1]);
      assert s == [s[0], s[1]];
    } else if s != [] {
      var group := [s[0], s[1], s[2]];
      GroupOfThree(s[0], s[1], s[2]);
      assert s == group + s[3..];
      EncodeJoin(group, s[3..]);
      DigitsJoin(Encode(group), Encode(s[3..]));
      OctetsJoin(Digits(Encode(group)), Digits(Encode(s[3..])));
      DecodeEncode(s[3..]);
    }
  }

  lemma {:induction false} CutAtEnd(s: seq<Byte>)
    requires 0 !in s
    ensures Cut(s + [0]) == s
  {
    if s == [] {
      assert s + [0] == [0];
    } else {
      assert (s + [0])[1..] == s[1..] + [0] && s[0] in s;
      CutAtEnd(s[1..]);
    }
  }

  /** What the encoder leaves in its buffer, NUL and all, decodes to its input. */
  lemma BufferRoundTrip(input: seq<Byte>)
    ensures Decode(Cut(Encode(Cut(input)) + [0])) == Cut(input)
  {
    EncodedLength(Cut(input));
    CutAtEnd(Encode(Cut(input)));
    DecodeEncode(Cut(input));
  }

  /** Characters outside the alphabet, put in anywhere, change nothing. */
  lemma {:induction false} JunkIsIgnored(a: seq<Byte>, junk: seq<Byte>, b: seq<Byte>)
    requires forall i :: 0 <= i < |junk| ==> Base64Val(junk[i]) == -1
    ensures Decode(a + junk + b) == Decode(a + b)
  {
    NoDigits(junk);
    DigitsJoin(a + junk, b);
    DigitsJoin(a, junk);
    DigitsJoin(a, b);
    assert Digits(a) + [] == Digits(a);
  }

  lemma {:induction false} NoDigits(junk: seq<Byte>)
    requires forall i :: 0 <= i < |junk| ==> Base64Val(junk[i]) == -1
    ensures Digits(junk) == []
  {
    if junk != [] { NoDigits(junk[..|junk| - 1]); }
  }

  /** The encoding is as long as the buffer made for it, and in groups of four. */
  lemma {:induction false} EncodedLength(s: seq<Byte>)
    ensures |Encode(s)| == 4 * ((|s| + 2) / 3) && 0 !in Encode(s)
    decreases |s|
  {
    hide EncodeTable, Six1, Six2, Six3, Six4;
    if |s| >= 3 {
      var four := [EncodeTable(Six1(s[0])), EncodeTable(Six2(s[0], s[1])), EncodeTable(Six3(s[1], s[2])), EncodeTable(Six4(s[2]))];
      EncodedLength(s[3..]);
      assert Encode(s) == four + Encode(s[3..]) && 0 !in four;
    }
  }

  lemma {:induction false} EncodeJoin(s: seq<Byte>, t: seq<Byte>)
    requires |s| % 3 == 0
    ensures Encode(s + t) == Encode(s) + Encode(t)
    decreases |s|
  {
    if s == [] {
      assert s + t == t;
    } else {
      assert (s + t)[3..] == s[3..] + t;
      EncodeJoin(s[3..], t);
    }
  }

  // ---- in the words of the standard ---------------------------------------------------

  /** Table 1 of RFC 4648. */
  const LETTERS := "ABCDEFGHIJKLMNOPQRSTUVWXYZ"
  const SMALL := "abcdefghijklmnopqrstuvwxyz"
  const OTHERS := "0123456789+/"
  const ALPHABET := LETTERS + SMALL + OTHERS

  /** Row v of the table, by the ranges it is made of. */
  lemma AlphabetAt(v: nat)
    requires v < 64
    ensures |ALPHABET| == 64
    ensures ALPHABET[v] == (if v < 26 then 'A' + v as char else if v < 52 then 'a' + (v - 26) as char
                            else if v < 62 then '0' + (v - 52) as char else if v == 62 then '+' else '/')
  {
    assert |LETTERS| == |SMALL| == 26 && |OTHERS| == 12;
    if v < 26 { LetterAt(v); } else if v < 52 { SmallAt(v - 26); } else { OtherAt(v - 52); }
    hide LETTERS, SMALL, OTHERS;
  }

  lemma LetterAt(v: nat)
    requires v < 26
    ensures LETTERS[v] == 'A' + v as char
  {}

  lemma SmallAt(v: nat)
    requires v < 26
    ensures SMALL[v] == 'a' + v as char
  {}

  lemma OtherAt(v: nat)
    requires v < 12
    ensures OTHERS[v] == if v < 10 then '0' + v as char else if v == 10 then '+' else '/'
  {}

  /** A digit is the table's character for its value, and no other character is one. */
  lemma TableIs(v: Sextet, c: Byte)
    ensures |ALPHABET| == 64
    ensures EncodeTable(v) == ALPHABET[v] as int
    ensures Base64Val(c) == v <==> c == ALPHABET[v] as int
    ensures Base64Val(c) == -1 <==> c as char !in ALPHABET
  {
    AlphabetAt(v);
    ValOfDigit(v);
    hide ALPHABET;
    if Base64Val(c) == -1 {
      forall k: nat | k < |ALPHABET| ensures ALPHABET[k] as int != c { AlphabetAt(k); }
    } else {
      AlphabetAt(Base64Val(c));
    }
  }

  /** Digits or octets behind a number, as one number in a base. */
  function Number(front: nat, q: seq<nat>, base: nat): nat
    decreases |q|
  {
    if q == [] then front else Number(front * base + q[0], q[1..], base)
  }

  function Pow2(k: nat): nat {
    if k == 0 then 1 else 2 * Pow2(k - 1)
  }

  lemma SmallPowers()
    ensures Pow2(0) == 1 && Pow2(2) == 4 && Pow2(4) == 16 && Pow2(6) == 64
  {
    assert Pow2(1) == 2 && Pow2(3) == 8 && Pow2(5) == 32;
  }

  lemma NumberOfOne(front: nat, a: nat, base: nat)
    ensures Number(front, [a], base) == front * base + a
  {
    assert [a][1..] == [];
  }

  lemma NumberOfTwo(front: nat, q: seq<nat>, base: nat)
    requires |q| >= 2
    ensures Number(front, q, base) == Number((front * base + q[0]) * base + q[1], q[2..], base)
  {
    assert q[1..][1..] == q[2..];
  }

  lemma NumberOfThree(front: nat, q: seq<nat>, base: nat)
    requires |q| >= 3
    ensures Number(front, q, base) == Number(((front * base + q[0]) * base + q[1]) * base + q[2], q[3..], base)
  {
    NumberOfTwo(front * base + q[0], q[1..], base);
    assert q[1..][2..] == q[3..];
  }

  lemma NumberOfFour(front: nat, q: seq<nat>, base: nat)
    requires |q| >= 4
    ensures Number(front, q, base) == Number((((front * base + q[0]) * base + q[1]) * base + q[2]) * base + q[3], q[4..], base)
  {
    NumberOfThree(front * base + q[0], q[1..], base);
    assert q[1..][3..] == q[4..];
  }

  function Sextets(s: seq<Byte>): (d: seq<Sextet>)
    decreases |s|
  {
    if s == [] then []
    else if |s| == 1 then [Six1(s[0]), Six2(s[0], 0)]
    else if |s| == 2 then [Six1(s[0]), Six2(s[0], s[1]), Six3(s[1], 0)]
    else [Six1(s[0]), Six2(s[0], s[1]), Six3(s[1], s[2]), Six4(s[2])] + Sextets(s[3..])
  }

  /** Three octets are four sextets; two are three, and one is two, with zeros behind. */
  lemma SameBits(n: nat, a: Byte, b: Byte, c: Byte)
    ensures (((n * 64 + Six1(a)) * 64 + Six2(a, b)) * 64 + Six3(b, c)) * 64 + Six4(c) == ((n * 256 + a) * 256 + b) * 256 + c
    ensures ((n * 64 + Six1(a)) * 64 + Six2(a, b)) * 64 + Six3(b, 0) == ((n * 256 + a) * 256 + b) * 4
    ensures (n * 64 + Six1(a)) * 64 + Six2(a, 0) == (n * 256 + a) * 16
  {}

  /** How many zeros. */
  function Filling(octets: nat): nat {
    if octets % 3 == 0 then 0 else if octets % 3 == 1 then 4 else 2
  }

  lemma FillingIs(octets: nat)
    ensures 6 * ((8 * octets + 5) / 6) == 8 * octets + Filling(octets)
  {
    var q, r := octets / 3, octets % 3;
    assert 8 * octets + 5 == 6 * (4 * q) + (8 * r + 5);
    assert (8 * octets + 5) / 6 == 4 * q + (8 * r + 5) / 6;
  }

  lemma FillingStep(octets: nat)
    ensures Filling(octets + 3) == Filling(octets)
  {}

  /** The sextets of a text are its bits, with as few zeros behind as make whole sextets. */
  lemma {:induction false} SextetsAreBits(front: nat, s: seq<Byte>)
    ensures 6 * |Sextets(s)| == 8 * |s| + Filling(|s|)
    ensures Number(front, Sextets(s), 64) == Number(front, s, 256) * Pow2(Filling(|s|))
    decreases |s|
  {
    hide *;
    if |s| >= 3 {
      var next := ThreeMore(front, s);
      SextetsAreBits(next, s[3..]);
      assert Filling(|s|) == Filling(|s[3..]|) by { FillingStep(|s[3..]|); }
    } else {
      LastSextets(front, s);
    }
  }

  lemma ThreeMore(front: nat, s: seq<Byte>) returns (next: nat)
    requires |s| >= 3
    ensures Number(front, Sextets(s), 64) == Number(next, Sextets(s[3..]), 64) && Number(front, s, 256) == Number(next, s[3..], 256)
    ensures |Sextets(s)| == 4 + |Sextets(s[3..])|
  {
    hide Number, Six1, Six2, Six3, Six4;
    var d := Sextets(s);
    NumberOfFour(front, d, 64);
    NumberOfThree(front, s, 256);
    SameBits(front, s[0], s[1], s[2]);
    assert d[4..] == Sextets(s[3..]);
    next := ((front * 256 + s[0]) * 256 + s[1]) * 256 + s[2];
  }

  lemma LastSextets(front: nat, s: seq<Byte>)
    requires |s| < 3
    ensures 6 * |Sextets(s)| == 8 * |s| + Filling(|s|)
    ensures Number(front, Sextets(s), 64) == Number(front, s, 256) * Pow2(Filling(|s|))
  {
    hide Six1, Six2, Six3, Six4;
    SmallPowers();
    var d := Sextets(s);
    if |s| == 2 {
      NumberOfThree(front, d, 64);
      NumberOfTwo(front, s, 256);
      SameBits(front, s[0], s[1], 0);
    } else if |s| == 1 {
      NumberOfTwo(front, d, 64);
      NumberOfOne(front, s[0], 256);
      assert s == [s[0]];
      SameBits(front, s[0], 0, 0);
    }
  }

  function Pads(n: nat): seq<Byte> {
    seq(n, i => PAD)
  }

  function Spelt(d: seq<Sextet>): (r: seq<Byte>)
    ensures |r| == |d|
  {
    seq(|d|, i requires 0 <= i < |d| => EncodeTable(d[i]))
  }

  lemma {:induction false} EncodeSpells(s: seq<Byte>)
    ensures Encode(s) == Spelt(Sextets(s)) + Pads(2 - (|s| + 2) % 3)
    decreases |s|
  {
    hide EncodeTable, Six1, Six2, Six3, Six4;
    if |s| >= 3 {
      EncodeSpells(s[3..]);
      var four := [Six1(s[0]), Six2(s[0], s[1]), Six3(s[1], s[2]), Six4(s[2])];
      assert Spelt(Sextets(s)) == Spelt(four) + Spelt(Sextets(s[3..]));
      assert Spelt(four) == [EncodeTable(four[0]), EncodeTable(four[1]), EncodeTable(four[2]), EncodeTable(four[3])];
      assert (|s| + 2) % 3 == (|s[3..]| + 2) % 3;
    }
  }

  /** Section 4 of RFC 4648: the bits of the text, six at a time and filled up with zeros,
      each six as the table's character, and = up to a multiple of four characters. */
  lemma EncodeIsStandard(s: seq<Byte>) returns (d: seq<Sextet>)
    ensures |d| == (8 * |s| + 5) / 6 && Number(0, d, 64) == Number(0, s, 256) * Pow2(6 * |d| - 8 * |s|)
    ensures |Encode(s)| % 4 == 0 && |d| <= |Encode(s)| < |d| + 4 && |ALPHABET| == 64
    ensures forall i :: 0 <= i < |d| ==> Encode(s)[i] == ALPHABET[d[i]] as int
    ensures forall i :: |d| <= i < |Encode(s)| ==> Encode(s)[i] == '=' as int
  {
    hide *;
    d := Sextets(s);
    SextetsAreBits(0, s);
    FillingIs(|s|);
    EncodeSpells(s);
    EncodedLength(s);
    SpeltIs(d, 2 - (|s| + 2) % 3);
    EnoughPads(|s|);
  }

  lemma EnoughPads(n: nat)
    ensures (8 * n + 5) / 6 + (2 - (n + 2) % 3) == 4 * ((n + 2) / 3)
  {
    var q, r := n / 3, n % 3;
    FillingIs(n);
    assert n + 2 == 3 * q + (r + 2) && (n + 2) / 3 == q + (r + 2) / 3 && (n + 2) % 3 == (r + 2) % 3;
  }

  lemma SpeltIs(d: seq<Sextet>, pads: nat)
    ensures |ALPHABET| == 64 && forall i :: 0 <= i < |d| ==> (Spelt(d) + Pads(pads))[i] == ALPHABET[d[i]] as int
    ensures |Spelt(d) + Pads(pads)| == |d| + pads && forall i :: |d| <= i < |d| + pads ==> (Spelt(d) + Pads(pads))[i] == '=' as int
  {
    hide ALPHABET, EncodeTable;
    TableIs(0, 0);
    forall i | 0 <= i < |d| ensures EncodeTable(d[i]) == ALPHABET[d[i]] as int { TableIs(d[i], 0); }
  }

  /** Four digits are three octets; three are two and two are one, with bits left over. */
  lemma SameOctets(n: nat, a: Sextet, b: Sextet, c: Sextet, e: Sextet)
    ensures ((n * 256 + First(a, b)) * 256 + Second(b, c)) * 256 + Third(c, e) == (((n * 64 + a) * 64 + b) * 64 + c) * 64 + e
    ensures ((n * 64 + a) * 64 + b) * 64 + c == ((n * 256 + First(a, b)) * 256 + Second(b, c)) * 4 + c % 4
    ensures (n * 64 + a) * 64 + b == (n * 256 + First(a, b)) * 16 + b % 16
  {}

  /** The octets of any digits, whole groups of four or not, are their bits, eight at a
      time; what is left over, fewer than eight bits, is dropped. */
  lemma {:induction false} OctetsAreBits(front: nat, d: seq<Sextet>) returns (dropped: nat)
    ensures |Octets(d)| == 6 * |d| / 8
    ensures Number(front, d, 64) == Number(front, Octets(d), 256) * Pow2(6 * |d| % 8) + dropped && dropped < Pow2(6 * |d| % 8)
    decreases |d|
  {
    hide *;
    if |d| >= 4 {
      var next := FourMore(front, d);
      dropped := OctetsAreBits(next, d[4..]);
      assert 6 * |d| == 6 * |d[4..]| + 24;
    } else {
      dropped := FewOctets(front, d);
    }
  }

  lemma FourMore(front: nat, d: seq<Sextet>) returns (next: nat)
    requires |d| >= 4
    ensures Number(front, d, 64) == Number(next, d[4..], 64) && Number(front, Octets(d), 256) == Number(next, Octets(d[4..]), 256)
    ensures |Octets(d)| == 3 + |Octets(d[4..])|
  {
    hide Number, First, Second, Third;
    var o := Octets(d);
    NumberOfFour(front, d, 64);
    NumberOfThree(front, o, 256);
    SameOctets(front, d[0], d[1], d[2], d[3]);
    assert o[3..] == Octets(d[4..]);
    next := (((front * 64 + d[0]) * 64 + d[1]) * 64 + d[2]) * 64 + d[3];
  }

  lemma FewOctets(front: nat, d: seq<Sextet>) returns (dropped: nat)
    requires |d| < 4
    ensures |Octets(d)| == 6 * |d| / 8
    ensures Number(front, d, 64) == Number(front, Octets(d), 256) * Pow2(6 * |d| % 8) + dropped && dropped < Pow2(6 * |d| % 8)
  {
    hide First, Second;
    SmallPowers();
    var o := Octets(d);
    dropped := 0;
    if |d| == 3 {
      NumberOfThree(front, d, 64);
      NumberOfTwo(front, o, 256);
      SameOctets(front, d[0], d[1], d[2], 0);
      dropped := d[2] % 4;
    } else if |d| == 2 {
      NumberOfTwo(front, d, 64);
      NumberOfOne(front, o[0], 256);
      SameOctets(front, d[0], d[1], 0, 0);
      dropped := d[1] % 16;
    } else if |d| == 1 {
      NumberOfOne(front, d[0], 64);
      assert d == [d[0]];
      dropped := d[0];
    }
  }

  // ---- the loops --------------------------------------------------------------------

  method StrLen(s: seq<Byte>) returns (n: nat)
    ensures n == |Cut(s)|
  {
    n := 0;
    while n < |s| && s[n] != 0
      invariant n <= |s| && |Cut(s)| == n + |Cut(s[n..])|
    {
      assert s[n..][0] == s[n] && s[n..][1..] == s[n + 1..];
      n := n + 1;
    }
  }

  lemma Div64(q: int, r: int)
    requires 0 <= r < 64
    ensures (q * 64 + r) / 64 == q && (q * 64 + r) % 64 == r
  {}

  /** The three octets as one number, cut into sextets. */
  lemma Cuts(a: Byte, b: Byte, c: Byte)
    ensures var t := a * 65536 + b * 256 + c;
            t / 262144 % 64 == Six1(a) && t / 4096 % 64 == Six2(a, b) && t / 64 % 64 == Six3(b, c) && t % 64 == Six4(c)
  {
    var t := a * 65536 + b * 256 + c;
    var t1 := a * 1024 + b * 4 + c / 64;
    var t2 := a * 16 + b / 16;
    Div64(t1, c % 64);
    assert t == t1 * 64 + c % 64;
    Div64(t2, Six3(b, c));
    assert t1 == t2 * 64 + Six3(b, c);
    Div64(a / 4, Six2(a, b));
    assert t2 == a / 4 * 64 + Six2(a, b);
    assert t / 64 == t1 && t1 / 64 == t2 && t2 / 64 == a / 4;
    assert t / 4096 == t / 64 / 64 && t / 262144 == t / 4096 / 64;
  }

  method Base64Encode(input: seq<Byte>) returns (out: array<Byte>)
    ensures fresh(out) && out.Length == |Encode(Cut(input))| + 1
    ensures out[..] == Encode(Cut(input)) + [0]
  {
    hide Encode, EncodeTable, Six1, Six2, Six3, Six4;
    var len := StrLen(input);
    ghost var s := input[..len];
    assert s == Cut(input);
    EncodedLength(s);
    EncodeNothing(s);
    var olen := 4 * ((len + 2) / 3);
    out := new Byte[olen + 1];
    var i, o := 0, 0;
    while i < len
      invariant 0 <= i <= len + 2 && i % 3 == 0 && o == 4 * (i / 3) && o <= olen
      invariant out[..o] == Encode(s[..if i < len then i else len])
      decreases len - i
    {
      ghost var end := if i + 3 < len then i + 3 else len;
      var group := Group(input, i, len);
      Places(i, len);
      PutFour(out, o, group);
      GroupEncoded(s, i, end);
      assert input[i..end] == s[i..end];
      i, o := i + 3, o + 4;
    }
    Places(i, len);
    assert s[..len] == s;
    out[o] := 0;
  }

  lemma Places(i: nat, len: nat)
    requires i % 3 == 0 && i <= len + 2
    ensures (i + 3) / 3 == i / 3 + 1 && (i + 3) % 3 == 0
    ensures i < len ==> 4 * (i / 3) + 4 <= 4 * ((len + 2) / 3)
    ensures i >= len ==> i / 3 == (len + 2) / 3
  {}

  method PutFour(out: array<Byte>, o: nat, group: seq<Byte>)
    requires |group| == 4 && o + 4 <= out.Length
    modifies out
    ensures out[..o + 4] == old(out[..o]) + group
  {
    out[o], out[o + 1], out[o + 2], out[o + 3] := group[0], group[1], group[2], group[3];
    assert group == [group[0], group[1], group[2], group[3]];
  }

  /** The four characters of the group at i. */
  method Group(input: seq<Byte>, i: nat, len: nat) returns (g: seq<Byte>)
    requires i < len <= |input|
    ensures |g| == 4 && g == Encode(input[i..if i + 3 < len then i + 3 else len])
  {
    var a: Byte := input[i];
    var b: Byte := if i + 1 < len then input[i + 1] else 0;
    var c: Byte := if i + 2 < len then input[i + 2] else 0;
    var triple := a * 65536 + b * 256 + c;
    Cuts(a, b, c);
    g := [EncodeTable(triple / 262144 % 64), EncodeTable(triple / 4096 % 64),
          if i + 1 < len then EncodeTable(triple / 64 % 64) else PAD,
          if i + 2 < len then EncodeTable(triple % 64) else PAD];
    ghost var s := input[i..if i + 3 < len then i + 3 else len];
    assert |s| == 3 ==> s[3..] == [];
    assert s[0] == a && (|s| > 1 ==> s[1] == b) && (|s| > 2 ==> s[2] == c);
  }

  lemma EncodeNothing(s: seq<Byte>)
    ensures s[..0] == [] && Encode([]) == []
  {}

  lemma GroupEncoded(s: seq<Byte>, i: nat, end: nat)
    requires i % 3 == 0 && i < end <= |s|
    ensures Encode(s[..end]) == Encode(s[..i]) + Encode(s[i..end])
  {
    assert s[..end] == s[..i] + s[i..end];
    EncodeJoin(s[..i], s[i..end]);
  }

  /** Gather four digits at a time, and emit the octets they carry. */
  method Base64Decode(input: seq<Byte>) returns (out: array<Byte>, o: nat)
    ensures fresh(out) && o < out.Length && out[o] == 0
    ensures out[..o] == Decode(Cut(input))
  {
    hide Digits, Octets, First, Second, Third, Base64Val, EncodeTable, Cut;
    var len := StrLen(input);
    ghost var s := Cut(input);
    assert s == input[..len];
    out := new Byte[len + 1];
    var quad, qn := new int[4], 0;
    var i := 0;
    o := 0;
    ghost var whole: seq<Sextet> := [];
    DecodeNothing(s);
    while i < len
      invariant 0 <= i <= len && 0 <= qn < 4 && fresh(quad)
      invariant forall k :: 0 <= k < qn ==> 0 <= quad[k] < 64
      invariant Digits(s[..i]) == whole + quad[..qn] && |whole| % 4 == 0
      invariant o == |whole| / 4 * 3 && |whole| + qn <= i && out[..o] == Octets(whole)
    {
      var v := Base64Val(input[i]);
      NextDigit(s, i);
      i := i + 1;
      if v < 0 { continue; }
      quad[qn], qn := v, qn + 1;
      if qn == 4 {
        ghost var four: seq<Sextet> := [quad[0], quad[1], quad[2], quad[3]];
        assert quad[..qn] == four;
        OctetsOfFour(whole, four);
        PutThree(out, o, quad);
        whole := whole + four;
        o, qn := o + 3, 0;
        assert quad[..0] == [] && whole == whole + [];
      }
    }
    assert s[..len] == s;
    o := PutRest(out, o, quad, qn, whole);
    out[o] := 0;
  }

  /** A partial last group carries one octet or two. */
  method PutRest(out: array<Byte>, o: nat, quad: array<int>, qn: nat, ghost whole: seq<Sextet>) returns (end: nat)
    requires quad.Length == 4 && qn < 4 && o + qn < out.Length && forall k :: 0 <= k < qn ==> 0 <= quad[k] < 64
    requires |whole| % 4 == 0 && out[..o] == Octets(whole)
    modifies out
    ensures o <= end <= o + qn && end < out.Length && out[..end] == Octets(whole + quad[..qn])
  {
    hide Octets, First, Second;
    ghost var rest: seq<Sextet> := quad[..qn];
    LastOctets(whole, rest);
    end := o;
    if qn >= 2 {
      out[o] := First(quad[0], quad[1]);
      end := o + 1;
      if qn >= 3 {
        out[o + 1] := Second(quad[1], quad[2]);
        end := o + 2;
      }
      assert out[..end] == Octets(whole) + Octets(rest);
    }
  }

  /** The three octets of four digits. */
  method PutThree(out: array<Byte>, o: nat, quad: array<int>)
    requires quad.Length == 4 && o + 3 <= out.Length && forall k :: 0 <= k < 4 ==> 0 <= quad[k] < 64
    modifies out
    ensures out[..o + 3] == old(out[..o]) + [First(quad[0], quad[1]), Second(quad[1], quad[2]), Third(quad[2], quad[3])]
  {
    out[o] := First(quad[0], quad[1]);
    out[o + 1] := Second(quad[1], quad[2]);
    out[o + 2] := Third(quad[2], quad[3]);
  }

  lemma DecodeNothing(s: seq<Byte>)
    ensures Digits(s[..0]) == [] && Octets([]) == []
  {}

  lemma NextDigit(s: seq<Byte>, i: nat)
    requires i < |s|
    ensures Digits(s[..i + 1]) == Digits(s[..i]) + if Base64Val(s[i]) < 0 then [] else [Base64Val(s[i])]
  {
    assert s[..i + 1][..i] == s[..i];
  }

  lemma OctetsOfFour(whole: seq<Sextet>, four: seq<Sextet>)
    requires |whole| % 4 == 0 && |four| == 4
    ensures Octets(whole + four) == Octets(whole) + [First(four[0], four[1]), Second(four[1], four[2]), Third(four[2], four[3])]
  {
    OctetsJoin(whole, four);
    assert four[4..] == [];
  }

  lemma LastOctets(whole: seq<Sextet>, rest: seq<Sextet>)
    requires |whole| % 4 == 0 && |rest| < 4
    ensures Octets(whole + rest) == Octets(whole) + Octets(rest)
    ensures Octets(rest) == if |rest| < 2 then [] else if |rest| == 2 then [First(rest[0], rest[1])]
                            else [First(rest[0], rest[1]), Second(rest[1], rest[2])]
  {
    OctetsJoin(whole, rest);
  }
}
