/** The character map of objects/charactermap/charactermap.c: a table of 256 bytes
    read from text, the text a preset prints for a table, and what a table does to
    a string. A char stands for a byte. */
module CharacterMap {
  import opened Decimal

  /** What each of the 256 bytes becomes; -1 drops it. */
  type Table = seq<int>

  function Identity(): (r: Table)
    ensures |r| == 256 && forall i :: 0 <= i < 256 ==> r[i] == i
  {
    seq(256, i => i)
  }

  function Here(text: string, p: nat): char {
    if p < |text| then text[p] else '\0'
  }

  // ---- tokens ---------------------------------------------------------------------

  function DigitValue(c: char): int {
    if '0' <= c <= '9' then c as int - '0' as int
    else if 'A' <= c <= 'F' then c as int - 'A' as int + 10
    else if 'a' <= c <= 'f' then c as int - 'a' as int + 10
    else -1
  }

  /** A number in a base, or -1 when a character is no digit of it. */
  function BaseValue(s: string, base: nat): (r: int)
    ensures r >= -1
  {
    if s == "" then 0
    else
      var d, front := DigitValue(s[|s| - 1]), BaseValue(s[..|s| - 1], base);
      if front < 0 || d < 0 || d >= base then -1 else front * base + d
  }

  lemma NotNegative(a: nat, b: nat, d: nat)
    ensures a * b + d >= 0
  {}

  method CharMap_Base(s: string, base: nat) returns (r: int)
    ensures r == BaseValue(s, base)
  {
    hide DigitValue;
    var i := 0;
    r := 0;
    while i < |s|
      invariant 0 <= i <= |s| && r >= 0 && r == BaseValue(s[..i], base)
    {
      var d := DigitValue(s[i]);
      assert s[..i + 1][..i] == s[..i];
      if d < 0 || d >= base {
        NotANumber(s, i + 1, base);
        return -1;
      }
      NotNegative(r, base, d);
      r, i := r * base + d, i + 1;
    }
    assert s[..|s|] == s;
  }

  lemma {:induction false} NotANumber(s: string, i: nat, base: nat)
    requires i <= |s| && BaseValue(s[..i], base) == -1
    ensures BaseValue(s, base) == -1
    decreases |s| - i
  {
    if i < |s| {
      assert s[..i + 1][..i] == s[..i];
      NotANumber(s, i + 1, base);
    } else {
      assert s[..i] == s;
    }
  }

  /** A token's byte: a literal character, %, 0x or \x and hex digits, \ and octal
      digits, a \ escape, or a decimal number. Only four characters count. */
  function TokenValue(s: string): int {
    var b := if |s| > 4 then s[..4] else s;
    if b == "" then -1
    else if |b| == 1 then b[0] as int
    else if b[0] == '%' then BaseValue(b[1..], 16)
    else if b[0] == '0' && b[1] == 'x' then BaseValue(b[2..], 16)
    else if b[0] == '\\' then EscapeValue(b)
    else Atoi(b)
  }

  function EscapeValue(b: string): int
    requires |b| >= 2
  {
    match b[1]
    case 'a' => 7
    case 'b' => 8
    case 'f' => 12
    case 'n' => 10
    case 'r' => 13
    case 's' => 32
    case 't' => 9
    case 'v' => 11
    case 'x' => BaseValue(b[2..], 16)
    case _ => if '0' <= b[1] <= '7' then BaseValue(b[1..], 8) else '\\' as int
  }

  function UpperHex(d: nat): char
    requires d < 16
  {
    if d < 10 then '0' + d as char else 'A' + (d - 10) as char
  }

  /** A number as it is written in a base. */
  function ShowBase(n: nat, base: nat): string
    requires 2 <= base <= 16
  {
    if n < base then [UpperHex(n)] else ShowBase(n / base, base) + [UpperHex(n % base)]
  }

  /** How a token may give a number: %1F, 0x1F, \x1F, \37 or 31. */
  datatype Notation = Percent | ZeroX | BackX | Octal | Plain {
    function Mark(): string {
      match this case Percent => "%" case ZeroX => "0x" case BackX => "\\x" case Octal => "\\" case Plain => ""
    }

    function Base(): (b: nat)
      ensures 2 <= b <= 16
    {
      match this case Octal => 8 case Plain => 10 case _ => 16
    }

    function Write(n: nat): string { Mark() + ShowBase(n, Base()) }
  }

  lemma DigitReadsBack(d: nat)
    requires d < 16
    ensures DigitValue(UpperHex(d)) == d
  {}

  lemma {:induction false} BaseReadsBack(n: nat, base: nat)
    requires 2 <= base <= 16
    ensures BaseValue(ShowBase(n, base), base) == n
  {
    hide BaseValue, UpperHex;
    Divided(n, base);
    if n >= base {
      BaseReadsBack(n / base, base);
      BaseReadsOne(ShowBase(n / base, base), n / base, n % base, base);
    } else {
      BaseReadsOne("", 0, n, base);
      assert "" + [UpperHex(n)] == [UpperHex(n)];
    }
  }

  lemma Divided(n: nat, base: nat)
    requires base >= 2
    ensures n / base * base + n % base == n && n % base < base && (n >= base ==> n / base < n)
  {}

  /** One digit more. */
  lemma BaseReadsOne(front: string, a: nat, d: nat, base: nat)
    requires d < base <= 16 && (BaseValue(front, base) == a || (front == "" && a == 0))
    ensures BaseValue(front + [UpperHex(d)], base) == a * base + d
  {
    DigitReadsBack(d);
    assert (front + [UpperHex(d)])[..|front|] == front;
  }

  /** No number exactly when some character is no digit of the base. */
  lemma {:induction false} NoNumberIff(s: string, base: nat)
    ensures BaseValue(s, base) == -1 <==> exists i :: 0 <= i < |s| && !(0 <= DigitValue(s[i]) < base)
    decreases |s|
  {
    hide DigitValue;
    if s != "" {
      var front, d := s[..|s| - 1], DigitValue(s[|s| - 1]);
      NoNumberIff(front, base);
      assert forall i :: 0 <= i < |front| ==> front[i] == s[i];
      if BaseValue(front, base) >= 0 && 0 <= d { NotNegative(BaseValue(front, base), base, d); }
    }
  }

  lemma {:induction false} FirstDigit(n: nat, base: nat)
    requires 2 <= base <= 16
    ensures |ShowBase(n, base)| >= 1 && exists d: nat :: d < base && ShowBase(n, base)[0] == UpperHex(d)
  {
    hide UpperHex;
    if n >= base {
      FirstDigit(n / base, base);
      assert ShowBase(n, base)[0] == ShowBase(n / base, base)[0];
    }
  }

  lemma {:induction false} PlainIsDecimal(n: nat)
    ensures ShowBase(n, 10) == ShowNat(n)
  {
    if n >= 10 { PlainIsDecimal(n / 10); }
  }

  /** A number written in any notation, in the four characters there are, is read as that
      number. */
  lemma NotationReads(k: Notation, n: nat)
    requires 2 <= |k.Write(n)| <= 4
    ensures TokenValue(k.Write(n)) == n
  {
    hide BaseValue, ShowBase, Atoi, ShowNat;
    var s, d := k.Write(n), ShowBase(n, k.Base());
    BaseReadsBack(n, k.Base());
    FirstDigit(n, k.Base());
    assert s[|k.Mark()|..] == d;
    if k.Plain? {
      assert s == d;
      PlainIsDecimal(n);
      ShowsDigits(n);
      ShortReads(n);
    }
  }

  lemma ShortReads(n: nat)
    requires |ShowNat(n)| <= 4
    ensures Atoi(ShowNat(n)) == n
  {
    ReadShown(n);
    if n >= 10000 {
      ShowsDigits(n / 10000);
      FourMore(n);
    }
  }

  lemma FourMore(n: nat)
    requires n >= 10000
    ensures |ShowNat(n)| == |ShowNat(n / 10000)| + 4
  {
    var a, b, c := n / 10, n / 100, n / 1000;
    assert a / 10 == b && b / 10 == c && c / 10 == n / 10000;
    assert |ShowNat(n)| == |ShowNat(a)| + 1;
    assert |ShowNat(a)| == |ShowNat(b)| + 1;
    assert |ShowNat(b)| == |ShowNat(c)| + 1;
  }

  lemma ByteFits(b: nat)
    requires b < 256
    ensures |ShowBase(b, 16)| <= 2 && |ShowBase(b, 8)| <= 3 && |ShowBase(b, 10)| <= 3
    ensures |ShowBase(b, 10)| >= 2 <==> b >= 10
  {
    assert |ShowBase(b / 8, 8)| <= 2 by { assert b / 8 / 8 < 8; }
    assert |ShowBase(b / 10, 10)| <= 2 by { assert b / 10 / 10 < 10; }
  }

  /** Any byte can be given in any notation, but for a single decimal digit: that one is
      taken for the character. */
  lemma ByteReadsIff(k: Notation, b: nat)
    requires b < 256
    ensures TokenValue(k.Write(b)) == b <==> !(k.Plain? && b < 10)
  {
    ByteFits(b);
    FirstDigit(b, k.Base());
    if k.Plain? && b < 10 {
      assert k.Write(b) == [UpperHex(b)];
    } else {
      NotationReads(k, b);
    }
  }

  /** A marked token is no number exactly when a character behind the mark is no digit of
      its base; an octal one has an octal digit first. */
  lemma MarkedIsNoNumberIff(k: Notation, d: string)
    requires !k.Plain? && 2 <= |k.Mark() + d| <= 4 && (k.Octal? ==> '0' <= d[0] <= '7')
    ensures TokenValue(k.Mark() + d) == -1 <==> exists i :: 0 <= i < |d| && !(0 <= DigitValue(d[i]) < k.Base())
  {
    NoNumberIff(d, k.Base());
    assert (k.Mark() + d)[|k.Mark()|..] == d;
    hide BaseValue, DigitValue;
  }

  /** Only four characters count. */
  lemma OnlyFourCount(s: string, more: string)
    requires |s| == 4
    ensures TokenValue(s + more) == TokenValue(s)
  {
    assert s[..4] == s == (s + more)[..4];
    assert more == "" ==> s + more == s;
    hide BaseValue, Atoi;
  }

  method CharMap_Token(s: string) returns (r: int)
    ensures r == TokenValue(s)
    ensures forall k: Notation, n: nat :: k.Write(n) == s && 2 <= |s| <= 4 ==> r == n
  {
    forall k: Notation, n: nat | k.Write(n) == s && 2 <= |s| <= 4 ensures TokenValue(s) == n { NotationReads(k, n); }
    var b := if |s| > 4 then s[..4] else s;
    if |b| == 0 { return -1; }
    if |b| == 1 { return b[0] as int; }
    if b[0] == '%' {
      r := CharMap_Base(b[1..], 16);
    } else if b[0] == '0' && b[1] == 'x' {
      r := CharMap_Base(b[2..], 16);
    } else if b[0] == '\\' {
      match b[1] {
        case 'a' => r := 7;
        case 'b' => r := 8;
        case 'f' => r := 12;
        case 'n' => r := 10;
        case 'r' => r := 13;
        case 's' => r := 32;
        case 't' => r := 9;
        case 'v' => r := 11;
        case 'x' => r := CharMap_Base(b[2..], 16);
        case _ =>
          if '0' <= b[1] <= '7' {
            r := CharMap_Base(b[1..], 8);
          } else {
            r := '\\' as int;
          }
      }
    } else {
      r := Atoi(b);
    }
  }

  // ---- lines ----------------------------------------------------------------------

  predicate Ends(c: char) {
    c == '\0' || c == '\n' || c == '\r'
  }

  predicate Breaks(c: char) {
    Ends(c) || c == ' ' || c == '\t'
  }

  function TokenEnd(text: string, p: nat): (q: nat)
    ensures p <= q && (p <= |text| ==> q <= |text|) && Breaks(Here(text, q))
    ensures !Breaks(Here(text, p)) ==> p < q
    decreases if p < |text| then |text| - p else 0
  {
    if Breaks(Here(text, p)) then p else TokenEnd(text, p + 1)
  }

  /** The tokens of the line at p, and where the line ends. */
  function Tokens(text: string, p: nat): (r: (seq<string>, nat))
    requires p <= |text|
    ensures p <= r.1 <= |text| && Ends(Here(text, r.1))
    decreases |text| - p
  {
    if Ends(Here(text, p)) then ([], p)
    else if Breaks(Here(text, p)) then Tokens(text, p + 1)
    else
      var q := TokenEnd(text, p);
      var rest := Tokens(text, q);
      ([text[p..q]] + rest.0, rest.1)
  }

  /** A line ends with \r\n, \r or \n. */
  function NextLine(text: string, q: nat): nat {
    if Here(text, q) == '\r' && Here(text, q + 1) == '\n' then q + 2 else if Here(text, q) != '\0' then q + 1 else q
  }

  /** A line maps its first token's byte to the second's, or drops it. */
  function ApplyLine(t: Table, toks: seq<string>): (r: Table)
    requires |t| == 256
    ensures |r| == 256
  {
    if toks == [] then t
    else
      var from := TokenValue(toks[0]);
      if 0 <= from < 256 then t[from := if |toks| >= 2 then TokenValue(toks[1]) else -1] else t
  }

  function BuildFrom(text: string, p: nat, t: Table): (r: Table)
    requires p <= |text| && |t| == 256
    ensures |r| == 256
    decreases |text| - p
  {
    if Here(text, p) == '\0' then t
    else
      var (toks, q) := Tokens(text, p);
      if Here(text, q) == '\0' then ApplyLine(t, toks) else BuildFrom(text, NextLine(text, q), ApplyLine(t, toks))
  }

  function Build(text: string): (r: Table)
    ensures |r| == 256
  {
    BuildFrom(text, 0, Identity())
  }

  function FirstTwo(toks: seq<string>): seq<string> {
    if |toks| > 2 then toks[..2] else toks
  }

  /** One token from p on. */
  method ReadToken(spec: string, p: nat) returns (q: nat)
    requires p <= |spec|
    ensures q == TokenEnd(spec, p)
  {
    q := p;
    while !Breaks(Here(spec, q))
      invariant p <= q <= |spec| && TokenEnd(spec, q) == TokenEnd(spec, p)
      decreases |spec| - q
    {
      q := q + 1;
    }
  }

  /** The first two tokens of a line; the others are passed over. */
  method ReadLine(spec: string, p: nat) returns (tok: seq<string>, q: nat)
    requires p <= |spec|
    ensures tok == FirstTwo(Tokens(spec, p).0) && q == Tokens(spec, p).1
  {
    hide TokenEnd;
    ghost var line, done := Tokens(spec, p), [];
    tok, q := [], p;
    while !Ends(Here(spec, q))
      invariant p <= q <= |spec| && Tokens(spec, q).1 == line.1
      invariant line.0 == done + Tokens(spec, q).0 && tok == FirstTwo(done)
      decreases |spec| - q
    {
      if Breaks(Here(spec, q)) {
        q := q + 1;
      } else {
        var start := q;
        q := ReadToken(spec, q);
        var word := spec[start..q];
        assert line.0 == (done + [word]) + Tokens(spec, q).0;
        if |tok| < 2 { tok := tok + [word]; }
        done := done + [word];
      }
    }
    assert done + [] == done;
  }

  /** Fill the table: every byte itself, then what each line says. */
  method CharMap_Build(spec: string) returns (table: array<int>)
    ensures fresh(table) && table.Length == 256 && table[..] == Build(spec)
  {
    hide Tokens, TokenValue, Breaks;
    table := new int[256](i => i);
    assert table[..] == Identity();
    var p := 0;
    while Here(spec, p) != '\0'
      invariant p <= |spec| && BuildFrom(spec, p, table[..]) == Build(spec)
      decreases |spec| - p
    {
      ghost var was, line := table[..], Tokens(spec, p).0;
      var tok;
      tok, p := ReadLine(spec, p);
      ApplyTokens(table, tok);
      assert ApplyLine(was, tok) == ApplyLine(was, line);
      if Here(spec, p) == '\r' && Here(spec, p + 1) == '\n' {
        p := p + 2;
      } else if Here(spec, p) != '\0' {
        p := p + 1;
      }
    }
  }

  method ApplyTokens(table: array<int>, tok: seq<string>)
    requires table.Length == 256
    modifies table
    ensures table[..] == ApplyLine(old(table[..]), tok)
  {
    if |tok| >= 1 {
      var av := CharMap_Token(tok[0]);
      if 0 <= av < 256 {
        var to := -1;
        if |tok| >= 2 { to := CharMap_Token(tok[1]); }
        table[av] := to;
      }
    }
  }

  // ---- applying a table -------------------------------------------------------------

  predicate Bytes(s: string) {
    forall i :: 0 <= i < |s| ==> s[i] as int < 256
  }

  /** Each byte through the table, without those that are dropped. */
  function Translate(t: Table, s: string): (r: string)
    requires |t| == 256 && Bytes(s)
    ensures Bytes(r) && |r| <= |s|
  {
    if s == "" then ""
    else
      var front, k := Translate(t, s[..|s| - 1]), t[s[|s| - 1] as int];
      if k >= 0 then front + [(k % 256) as char] else front
  }

  method CharMap_Recompute(spec: string, input: string) returns (out: array<char>, j: nat)
    requires Bytes(input)
    ensures j < out.Length == |input| + 1 && out[j] == '\0'
    ensures out[..j] == Translate(Build(spec), input)
  {
    hide Build;
    var table := CharMap_Build(spec);
    out := new char[|input| + 1];
    var i := 0;
    j := 0;
    while i < |input|
      invariant 0 <= i <= |input| && j <= i && table[..] == Build(spec)
      invariant out[..j] == Translate(Build(spec), input[..i])
    {
      assert input[..i + 1][..i] == input[..i];
      var k := table[input[i] as int];
      assert k == table[..][input[i] as int];
      if k >= 0 {
        out[j] := (k % 256) as char;
        j := j + 1;
      }
      i := i + 1;
    }
    assert input[..i] == input;
    out[j] := '\0';
  }

  // ---- presets ----------------------------------------------------------------------

  type Line = (string, string)

  /** A token of its own. */
  predicate Word(a: string) {
    a != "" && forall i :: 0 <= i < |a| ==> !Breaks(a[i])
  }

  function LineText(l: Line): string {
    l.0 + (" " + (l.1 + "\n"))
  }

  function LinesText(ls: seq<Line>): string {
    if ls == [] then "" else LineText(ls[0]) + LinesText(ls[1..])
  }

  function ApplyAll(t: Table, ls: seq<Line>): (r: Table)
    requires |t| == 256
    ensures |r| == 256
    decreases |ls|
  {
    if ls == [] then t else ApplyAll(ApplyLine(t, [ls[0].0, ls[0].1]), ls[1..])
  }

  lemma {:induction false} TokenEndsAt(text: string, p: nat, q: nat)
    requires p <= q <= |text| && Breaks(Here(text, q)) && forall i :: p <= i < q ==> !Breaks(text[i])
    ensures TokenEnd(text, p) == q
    decreases q - p
  {
    if p < q { TokenEndsAt(text, p + 1, q); }
  }

  lemma WordAt(text: string, p: nat, w: string)
    requires Word(w) && p + |w| < |text| && text[p..p + |w|] == w && Breaks(text[p + |w|])
    ensures TokenEnd(text, p) == p + |w| && !Breaks(Here(text, p))
  {
    forall i | p <= i < p + |w| ensures !Breaks(text[i]) { assert text[p..p + |w|][i - p] == w[i - p]; }
    TokenEndsAt(text, p, p + |w|);
  }

  /** A line of two words is read as those two words. */
  lemma OneLine(text: string, p: nat, l: Line)
    requires Word(l.0) && Word(l.1)
    requires var q := p + |l.0|;
             var r := q + 1 + |l.1|;
             r < |text| && text[p..q] == l.0 && text[q] == ' ' && text[q + 1..r] == l.1 && text[r] == '\n'
    ensures Tokens(text, p) == ([l.0, l.1], p + |l.0| + 1 + |l.1|)
    ensures !Breaks(Here(text, p))
  {
    var q := p + |l.0|;
    var r := q + 1 + |l.1|;
    WordAt(text, p, l.0);
    WordAt(text, q + 1, l.1);
    hide TokenEnd, Word;
    assert Tokens(text, r) == ([], r);
    assert [l.1] + [] == [l.1];
    assert Tokens(text, q + 1) == ([l.1], r);
    assert Tokens(text, q) == ([l.1], r);
    assert [l.0] + [l.1] == [l.0, l.1];
  }

  lemma LineSits(pre: string, l: Line, rest: string)
    ensures var text, p := pre + (LineText(l) + rest), |pre|;
            var q := p + |l.0|;
            var r := q + 1 + |l.1|;
            && |LineText(l)| == r + 1 - p && r < |text|
            && text[p..q] == l.0 && text[q] == ' ' && text[q + 1..r] == l.1 && text[r] == '\n'
            && text == pre + LineText(l) + rest
  {
    var text, p := pre + (LineText(l) + rest), |pre|;
    var q := p + |l.0|;
    var r := q + 1 + |l.1|;
    assert text == pre + l.0 + " " + l.1 + "\n" + rest;
  }

  lemma {:induction false} BuildLines(pre: string, ls: seq<Line>, t: Table)
    requires |t| == 256 && forall i :: 0 <= i < |ls| ==> Word(ls[i].0) && Word(ls[i].1)
    ensures BuildFrom(pre + LinesText(ls), |pre|, t) == ApplyAll(t, ls)
    decreases |ls|
  {
    var text := pre + LinesText(ls);
    if ls != [] {
      var l, rest := ls[0], LinesText(ls[1..]);
      var next := pre + LineText(l);
      LineSits(pre, l, rest);
      OneLine(text, |pre|, l);
      BuildLines(next, ls[1..], ApplyLine(t, [l.0, l.1]));
      hide Tokens, ApplyLine, LineText, LinesText, Word;
      assert BuildFrom(text, |pre|, t) == BuildFrom(text, |next|, ApplyLine(t, [l.0, l.1]));
    }
  }

  /** A text of such lines builds what the lines say, one after another. */
  lemma BuildText(ls: seq<Line>)
    requires forall i :: 0 <= i < |ls| ==> Word(ls[i].0) && Word(ls[i].1)
    ensures Build(LinesText(ls)) == ApplyAll(Identity(), ls)
  {
    BuildLines("", ls, Identity());
    assert "" + LinesText(ls) == LinesText(ls);
  }

  // A table printed as its changed entries, two bytes in hex on a line.

  function Hex2(b: nat): string
    requires b < 256
  {
    ['0', 'x', UpperHex(b / 16), UpperHex(b % 16)]
  }

  predicate ByteTable(t: Table) {
    |t| == 256 && forall i :: 0 <= i < 256 ==> 0 <= t[i] < 256
  }

  function PresetLines(t: Table, i: nat): (r: seq<Line>)
    requires ByteTable(t) && i <= 256
    ensures forall k :: 0 <= k < |r| ==> Word(r[k].0) && Word(r[k].1)
    decreases 256 - i
  {
    if i == 256 then []
    else if t[i] != i then [(Hex2(i), Hex2(t[i]))] + PresetLines(t, i + 1)
    else PresetLines(t, i + 1)
  }

  lemma HexToken(b: nat)
    requires b < 256
    ensures TokenValue(Hex2(b)) == b
  {
    var d := Hex2(b)[2..];
    assert d == [UpperHex(b / 16), UpperHex(b % 16)];
    assert d[..1] == [UpperHex(b / 16)] && d[..1][..0] == "";
    assert BaseValue(d[..1], 16) == b / 16;
  }

  lemma {:induction false} RebuildFrom(t: Table, i: nat)
    requires ByteTable(t) && i <= 256
    ensures ApplyAll(t[..i] + Identity()[i..], PresetLines(t, i)) == t
    decreases 256 - i
  {
    var now := t[..i] + Identity()[i..];
    if i == 256 {
      assert now == t;
    } else {
      var next := t[..i + 1] + Identity()[i + 1..];
      if t[i] != i {
        HexToken(i);
        HexToken(t[i]);
        var l := (Hex2(i), Hex2(t[i]));
        assert ApplyLine(now, [l.0, l.1]) == next;
      } else {
        assert now == next;
      }
      RebuildFrom(t, i + 1);
    }
  }

  /** The text printed for any table of bytes builds that table. */
  lemma PresetRebuilds(t: Table)
    requires ByteTable(t)
    ensures Build(LinesText(PresetLines(t, 0))) == t
  {
    BuildText(PresetLines(t, 0));
    RebuildFrom(t, 0);
    assert t[..0] + Identity()[0..] == Identity();
  }

  // ROT13: each letter becomes the one 13 places on.

  function Turn(c: int): int {
    if 65 <= c < 91 then 65 + (c - 65 + 13) % 26 else if 97 <= c < 123 then 97 + (c - 97 + 13) % 26 else c
  }

  function RotLines(i: nat): (r: seq<Line>)
    requires i <= 26
    ensures forall k :: 0 <= k < |r| ==> Word(r[k].0) && Word(r[k].1)
    decreases 26 - i
  {
    if i == 26 then []
    else [(['A' + i as char], ['A' + ((i + 13) % 26) as char]), (['a' + i as char], ['a' + ((i + 13) % 26) as char])]
         + RotLines(i + 1)
  }

  /** The table when the first i letters of each case are done. */
  function Turned(i: nat): (r: Table)
    requires i <= 26
    ensures |r| == 256
  {
    seq(256, c requires 0 <= c < 256 => if c < 65 + i || 97 <= c < 97 + i then Turn(c) else c)
  }

  lemma {:induction false} TurnedFrom(i: nat)
    requires i <= 26
    ensures ApplyAll(Turned(i), RotLines(i)) == Turned(26)
    decreases 26 - i
  {
    if i < 26 {
      var ls := RotLines(i);
      var t1 := ApplyLine(Turned(i), [ls[0].0, ls[0].1]);
      assert ls[1..][0] == ls[1] && ls[1..][1..] == RotLines(i + 1);
      assert ApplyLine(t1, [ls[1].0, ls[1].1]) == Turned(i + 1);
      TurnedFrom(i + 1);
    }
  }

  lemma RotTable()
    ensures Build(LinesText(RotLines(0))) == Turned(26)
  {
    hide RotLines, Turn, Build, ApplyAll, Turned, Identity;
    BuildText(RotLines(0));
    TurnedFrom(0);
    NotTurned();
  }

  lemma NotTurned()
    ensures Turned(0) == Identity()
  {}

  lemma TurnedAt(c: int)
    requires 0 <= c < 256
    ensures Turned(26)[c] == Turn(c) && 0 <= Turn(c) < 256 && Turn(Turn(c)) == c
  {}

  lemma TranslateLast(t: Table, s: string, c: char)
    requires |t| == 256 && Bytes(s) && c as int < 256 && 0 <= t[c as int] < 256
    ensures Bytes(s + [c]) && Translate(t, s + [c]) == Translate(t, s) + [t[c as int] as char]
  {
    assert (s + [c])[..|s|] == s;
  }

  lemma {:induction false} TurnedTwice(s: string)
    requires Bytes(s)
    ensures Translate(Turned(26), Translate(Turned(26), s)) == s
    decreases |s|
  {
    if s != "" {
      var t, front, c := Turned(26), s[..|s| - 1], s[|s| - 1];
      TurnedTwice(front);
      TurnedAt(c as int);
      TurnedAt(Turn(c as int));
      hide Turned, Turn, Translate;
      assert s == front + [c];
      TranslateLast(t, front, c);
      TranslateLast(t, Translate(t, front), Turn(c as int) as char);
    }
  }

  /** Applying the ROT13 map twice gives every string back. */
  lemma Rot13Twice(s: string)
    requires Bytes(s)
    ensures var t := Build(LinesText(RotLines(0)));
            Translate(t, Translate(t, s)) == s
  {
    RotTable();
    TurnedTwice(s);
  }

  // The loops that print them.

  /** What sprintf does at n: the text, and a NUL after it. */
  method Print(buf: array<char>, n: nat, s: string) returns (m: nat)
    requires n + |s| < buf.Length
    modifies buf
    ensures m == n + |s| && buf[..m] == old(buf[..n]) + s && buf[m] == '\0'
  {
    forall i | 0 <= i < |s| { buf[n + i] := s[i]; }
    m := n + |s|;
    buf[m] := '\0';
  }

  /** The buffer made for a table preset is large enough. */
  method PresetText(t: Table) returns (buf: array<char>, n: nat)
    requires ByteTable(t)
    ensures n < buf.Length && buf[n] == '\0' && buf[..n] == LinesText(PresetLines(t, 0))
  {
    hide Hex2;
    buf := new char[256 * 11 + 1];
    n := 0;
    buf[0] := '\0';
    var i := 0;
    while i < 256
      invariant 0 <= i <= 256 && n <= 11 * i && buf[n] == '\0'
      invariant buf[..n] + LinesText(PresetLines(t, i)) == LinesText(PresetLines(t, 0))
    {
      if t[i] != i {
        var l := (Hex2(i), Hex2(t[i]));
        LineLength(i, t[i]);
        assert PresetLines(t, i) == [l] + PresetLines(t, i + 1);
        assert buf[..n] + (LineText(l) + LinesText(PresetLines(t, i + 1))) == (buf[..n] + LineText(l)) + LinesText(PresetLines(t, i + 1));
        n := Print(buf, n, LineText(l));
      }
      i := i + 1;
    }
  }

  lemma LineLength(a: nat, b: nat)
    requires a < 256 && b < 256
    ensures |LineText((Hex2(a), Hex2(b)))| == 10
  {}

  method Rot13Text() returns (buf: array<char>, n: nat)
    ensures n < buf.Length && buf[n] == '\0' && buf[..n] == LinesText(RotLines(0))
  {
    buf := new char[52 * 5 + 1];
    n := 0;
    buf[0] := '\0';
    var i := 0;
    while i < 26
      invariant 0 <= i <= 26 && n == 8 * i && buf[n] == '\0'
      invariant buf[..n] + LinesText(RotLines(i)) == LinesText(RotLines(0))
    {
      var up, low := (['A' + i as char], ['A' + ((i + 13) % 26) as char]), (['a' + i as char], ['a' + ((i + 13) % 26) as char]);
      TwoLines(buf[..n], up, low, RotLines(i + 1));
      n := Print(buf, n, LineText(up));
      n := Print(buf, n, LineText(low));
      i := i + 1;
    }
  }

  lemma TwoLines(a: string, l: Line, m: Line, rest: seq<Line>)
    ensures a + LinesText([l, m] + rest) == a + LineText(l) + LineText(m) + LinesText(rest)
  {
    assert ([l, m] + rest)[1..] == [m] + rest && ([m] + rest)[1..] == rest;
    assert LinesText([l, m] + rest) == LineText(l) + (LineText(m) + LinesText(rest));
  }
}
