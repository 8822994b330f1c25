/** Whole numbers as decimal text: what %d and %ld print, and what atoi and atol
    of the C library read. */
module Decimal {

  const INT_MIN := -0x8000_0000
  const INT_MAX := 0x7fff_ffff
  const LONG_MIN := -0x8000_0000_0000_0000
  const LONG_MAX := 0x7fff_ffff_ffff_ffff

  predicate IsDigit(c: char) {
    '0' <= c <= '9'
  }

  function Digit(d: nat): (c: char)
    requires d < 10
    ensures IsDigit(c) && c as int - '0' as int == d
  {
    '0' + d as char
  }

  function ShowNat(n: nat): string {
    if n < 10 then [Digit(n)] else ShowNat(n / 10) + [Digit(n % 10)]
  }

  function Show(n: int): string {
    if n < 0 then "-" + ShowNat(-n) else ShowNat(n)
  }

  /** The digits at the front of a text, appended to a number. */
  function ReadDigits(s: string, acc: nat): nat
    decreases |s|
  {
    if s == [] || !IsDigit(s[0]) then acc else ReadDigits(s[1..], 10 * acc + (s[0] as int - '0' as int))
  }

  predicate IsSpace(c: char) {
    c == ' ' || ('\t' <= c <= '\r')
  }

  function Read(s: string): int
    decreases |s|
  {
    if s == [] then 0
    else if IsSpace(s[0]) then Read(s[1..])
    else if s[0] == '-' then 0 - ReadDigits(s[1..], 0) as int
    else if s[0] == '+' then ReadDigits(s[1..], 0)
    else ReadDigits(s, 0)
  }

  /** atol stays inside its type. */
  function Atol(s: string): int {
    var n := Read(s);
    if n < LONG_MIN then LONG_MIN else if n > LONG_MAX then LONG_MAX else n
  }

  /** atoi is atol cut down to 32 bits. */
  function Atoi(s: string): int {
    Wrap32(Atol(s))
  }

  function Wrap32(n: int): (r: int)
    ensures INT_MIN <= r <= INT_MAX && (INT_MIN <= n <= INT_MAX ==> r == n)
  {
    (n - INT_MIN) % 0x1_0000_0000 + INT_MIN
  }

  lemma {:induction false} ReadDigitsJoin(a: string, b: string, acc: nat)
    requires forall i :: 0 <= i < |a| ==> IsDigit(a[i])
    ensures ReadDigits(a + b, acc) == ReadDigits(b, ReadDigits(a, acc))
    decreases |a|
  {
    if a == [] {
      assert a + b == b;
    } else {
      assert (a + b)[0] == a[0] && (a + b)[1..] == a[1..] + b;
      ReadDigitsJoin(a[1..], b, 10 * acc + (a[0] as int - '0' as int));
    }
  }

  lemma {:induction false} ShowsDigits(n: nat)
    ensures |ShowNat(n)| > 0 && forall i :: 0 <= i < |ShowNat(n)| ==> IsDigit(ShowNat(n)[i])
  {
    if n >= 10 { ShowsDigits(n / 10); }
  }

  lemma {:induction false} ReadShownNat(n: nat)
    ensures ReadDigits(ShowNat(n), 0) == n
  {
    if n >= 10 {
      ReadShownNat(n / 10);
      ShowsDigits(n / 10);
      var last := [Digit(n % 10)];
      ReadDigitsJoin(ShowNat(n / 10), last, 0);
      assert last[1..] == [];
      assert ReadDigits(last, n / 10) == ReadDigits([], 10 * (n / 10) + n % 10);
    } else {
      assert ShowNat(n)[1..] == [];
    }
  }

  /** What is printed is read back. */
  lemma ReadShown(n: int)
    ensures Read(Show(n)) == n
  {
    if n < 0 {
      assert Show(n)[1..] == ShowNat(-n);
      ReadShownNat(-n);
    } else {
      ShowsDigits(n);
      ReadShownNat(n);
    }
  }

  lemma ShowIsInjective(m: int, n: int)
    requires Show(m) == Show(n)
    ensures m == n
  {
    ReadShown(m);
    ReadShown(n);
  }

  // ---- any text -------------------------------------------------------------------

  function Zeros(k: nat): (s: string)
    ensures |s| == k && forall i :: 0 <= i < k ==> s[i] == '0'
  {
    seq(k, i => '0')
  }

  /** A space, tab, line feed, vertical tab, form feed or carriage return. */
  predicate AllSpace(s: string) {
    forall i :: 0 <= i < |s| ==> s[i] as int == 32 || 9 <= s[i] as int <= 13
  }

  /** Where digits end. */
  predicate EndsDigits(rest: string) {
    rest == "" || !('0' <= rest[0] <= '9')
  }

  /** Digits, zeros in front of them and anything behind, are the number they show. */
  lemma DigitsRead(zeros: nat, n: nat, rest: string)
    requires EndsDigits(rest)
    ensures ReadDigits(Zeros(zeros) + (ShowNat(n) + rest), 0) == n
  {
    ShowsDigits(n);
    ReadShownNat(n);
    ReadZeros(zeros, ShowNat(n) + rest);
    ReadDigitsJoin(ShowNat(n), rest, 0);
  }

  lemma {:induction false} ReadZeros(zeros: nat, rest: string)
    ensures ReadDigits(Zeros(zeros) + rest, 0) == ReadDigits(rest, 0)
  {
    if zeros == 0 {
      assert Zeros(0) + rest == rest;
    } else {
      ReadZeros(zeros - 1, rest);
      assert (Zeros(zeros) + rest)[1..] == Zeros(zeros - 1) + rest;
    }
  }

  lemma {:induction false} SpaceRead(ws: string, rest: string)
    requires AllSpace(ws)
    ensures Read(ws + rest) == Read(rest)
    decreases |ws|
  {
    if ws == "" {
      assert ws + rest == rest;
    } else {
      assert (ws + rest)[1..] == ws[1..] + rest;
      SpaceRead(ws[1..], rest);
    }
  }

  lemma SignRead(sign: string, digits: string)
    requires (sign == "" || sign == "+" || sign == "-") && digits != "" && IsDigit(digits[0])
    ensures Read(sign + digits) == if sign == "-" then 0 - ReadDigits(digits, 0) as int else ReadDigits(digits, 0)
  {
    hide ReadDigits;
    if sign == "" { assert sign + digits == digits; } else { assert (sign + digits)[1..] == digits; }
  }

  /** What the C library reads: white space is passed over, one sign counts, zeros in front
      do not, and what follows the digits is not looked at. */
  lemma NumberRead(ws: string, sign: string, zeros: nat, n: nat, rest: string)
    requires AllSpace(ws) && (sign == "" || sign == "+" || sign == "-") && EndsDigits(rest)
    ensures Read(ws + (sign + (Zeros(zeros) + (ShowNat(n) + rest)))) == if sign == "-" then 0 - n as int else n
  {
    hide Read, ReadDigits, ShowNat;
    var digits := Zeros(zeros) + (ShowNat(n) + rest);
    ShowsDigits(n);
    assert digits != "" && digits[0] == (if zeros > 0 then '0' else ShowNat(n)[0]);
    SpaceRead(ws, sign + digits);
    SignRead(sign, digits);
    DigitsRead(zeros, n, rest);
  }

  /** Text that begins with neither is 0. */
  lemma NothingRead(ws: string, rest: string)
    requires AllSpace(ws) && EndsDigits(rest) && (rest == "" || (rest[0] != '+' && rest[0] != '-' && !AllSpace(rest[..1])))
    ensures Read(ws + rest) == 0
  {
    SpaceRead(ws, rest);
    assert rest != "" ==> rest[..1][0] == rest[0];
  }

  /** atol stops at the ends of its type; atoi keeps the low 32 bits of that. */
  lemma Cropped(s: string)
    ensures Atol(s) == (if Read(s) > 0x7fff_ffff_ffff_ffff then 0x7fff_ffff_ffff_ffff
                        else if Read(s) < -0x8000_0000_0000_0000 then -0x8000_0000_0000_0000 else Read(s))
    ensures -0x8000_0000 <= Atoi(s) <= 0x7fff_ffff && (Atol(s) - Atoi(s)) % 0x1_0000_0000 == 0
  {
    Wrapped(Atol(s));
    hide Read;
  }

  lemma Wrapped(n: int)
    ensures (n - Wrap32(n)) % 0x1_0000_0000 == 0
  {
    var q := (n - INT_MIN) / 0x1_0000_0000;
    assert n - Wrap32(n) == q * 0x1_0000_0000;
    Whole(q);
  }

  lemma Whole(q: int)
    ensures q * 0x1_0000_0000 % 0x1_0000_0000 == 0
  {}
}
