/** The data object of src/data.c: one value, written as one type and read as any,
    with every conversion made once and kept. */
module DataObj {
  import opened Common
  import opened Decimal

  datatype Type = STRING | INTEGER | HEX | REAL | LONG

  /** The value that was written. */
  datatype Value = Str(s: string) | Int(i: int) | Hex(h: string) | Real(r: real) | Long(l: int)

  /** What %f prints for a double. */
  type Show = real -> string

  // ---- the conversions --------------------------------------------------------------

  function TypeOf(v: Value): Type {
    match v
    case Str(_) => STRING
    case Int(_) => INTEGER
    case Hex(_) => HEX
    case Real(_) => REAL
    case Long(_) => LONG
  }

  function SkipSpace(s: string): string {
    if s != "" && IsSpace(s[0]) then SkipSpace(s[1..]) else s
  }

  /** The digits at the front, and no sign. */
  function Str2Int(s: string): int {
    Wrap32(ReadDigits(SkipSpace(s), 0))
  }

  function Wrap64(n: int): int {
    (n - LONG_MIN) % 0x1_0000_0000_0000_0000 + LONG_MIN
  }

  function Str2Long(s: string): int {
    Wrap64(ReadDigits(SkipSpace(s), 0))
  }

  function ShowHex(n: nat): string {
    if n < 16 then [HexDigit(n)] else ShowHex(n / 16) + [HexDigit(n % 16)]
  }

  /** In hex an integer is its 32 bits. */
  function Int2Hex(i: int): string {
    ShowHex(i % 0x1_0000_0000)
  }

  /** Lower-case digits count from 'A' too. */
  function ReadHex(s: string, acc: int): int
    decreases |s|
  {
    if s == "" then acc
    else if IsDigit(s[0]) then ReadHex(s[1..], acc * 16 + s[0] as int - '0' as int)
    else if 'A' <= s[0] <= 'F' || 'a' <= s[0] <= 'f' then ReadHex(s[1..], acc * 16 + s[0] as int - 'A' as int + 10)
    else acc
  }

  function Hex2Int(s: string): int {
    Wrap32(ReadHex(s, 0))
  }

  /** A double cut to an integer, towards zero. */
  function Cast(r: real): int {
    Wrap32(if r < 0.0 then 0 - (0.0 - r).Floor else r.Floor)
  }

  // A value as each type, converted afresh. Where the program has no conversion the
  // answer is zero, or nothing.

  function AsStr(v: Value, show: Show): string {
    match v
    case Str(s) => s
    case Int(i) => Decimal.Show(i)
    case Hex(h) => h
    case Real(r) => show(r)
    case Long(l) => Decimal.Show(l)
  }

  function AsInt(v: Value): int {
    match v
    case Str(s) => Str2Int(s)
    case Int(i) => i
    case Hex(h) => Hex2Int(h)
    case Real(r) => Cast(r)
    case Long(_) => 0
  }

  function AsHex(v: Value): Option<string> {
    match v
    case Str(s) => Some(Int2Hex(Str2Int(s)))
    case Int(i) => Some(Int2Hex(i))
    case Hex(h) => Some(h)
    case Real(r) => Some(Int2Hex(Cast(r)))
    case Long(_) => None
  }

  function AsReal(v: Value): real {
    match v
    case Str(s) => Str2Int(s) as real
    case Int(i) => i as real
    case Hex(h) => Hex2Int(h) as real
    case Real(r) => r
    case Long(_) => 0.0
  }

  function AsLong(v: Value): int {
    match v
    case Str(s) => Str2Long(s)
    case Int(_) => 0
    case Hex(_) => 0
    case Real(_) => 0
    case Long(l) => l
  }

  // ---- the object -------------------------------------------------------------------

  class Data {
    const show: Show
    var typ: Type
    var strSet: bool
    var intSet: bool
    var hexSet: bool
    var realSet: bool
    var longSet: bool
    var strVal: string
    var strLen: nat
    var intVal: int
    var hexVal: Option<string>
    var realVal: real
    var longVal: int
    ghost var written: Value

    /** The type is that of the value written, its own field holds it, and every
        field marked valid is the conversion of it; the others are cleared. */
    ghost predicate Valid()
      reads this
    {
      && typ == TypeOf(written)
      && (typ == STRING ==> strSet) && (typ == INTEGER ==> intSet) && (typ == HEX ==> hexSet)
      && (typ == REAL ==> realSet) && (typ == LONG ==> longSet)
      && (if strSet then strVal == AsStr(written, show) && strLen == |strVal| else strVal == "" && strLen == 0)
      && (if intSet then intVal == AsInt(written) && typ != LONG else intVal == 0)
      && (if hexSet then hexVal == AsHex(written) && typ != LONG else hexVal == None)
      && (if realSet then realVal == AsReal(written) && typ != LONG else realVal == 0.0)
      && (if longSet then longVal == AsLong(written) && (typ == STRING || typ == LONG) else longVal == 0)
    }

    /** A new object of a type holds that type's zero. */
    constructor (typ: Type, show: Show)
      ensures Valid() && this.show == show
      ensures written == match typ { case STRING => Str("") case INTEGER => Int(0) case HEX => Hex("") case REAL => Real(0.0) case LONG => Long(0) }
    {
      this.show, this.typ := show, typ;
      strSet, intSet, hexSet, realSet, longSet := typ == STRING, typ == INTEGER, typ == HEX, typ == REAL, typ == LONG;
      strVal, strLen, intVal, realVal, longVal := "", 0, 0, 0.0, 0;
      hexVal := if typ == HEX then Some("") else None;
      written := match typ { case STRING => Str("") case INTEGER => Int(0) case HEX => Hex("") case REAL => Real(0.0) case LONG => Long(0) };
    }

    /** Make one representation valid, if there is a way to. */
    method Convert(to: Type) returns (ok: bool)
      requires Valid()
      modifies this
      ensures Valid() && typ == old(typ) && written == old(written)
      ensures ok ==> match to { case STRING => strSet case INTEGER => intSet case HEX => hexSet case REAL => realSet case LONG => longSet }
      ensures ok <==> to != typ && (to == STRING || (typ != LONG && (to != LONG || typ == STRING)))
      decreases if to == INTEGER then 0 else 2
    {
      hide Str2Int, Str2Long, Int2Hex, Hex2Int, Cast, Decimal.Show;
      ok := true;
      match (typ, to) {
        case (STRING, INTEGER) => if !intSet { intVal, intSet := Str2Int(strVal), true; }
        case (STRING, LONG) => if !longSet { longVal, longSet := Str2Long(strVal), true; }
        case (INTEGER, STRING) => if !strSet { strVal, strSet := Decimal.Show(intVal), true; strLen := |strVal|; }
        case (INTEGER, HEX) => if !hexSet { hexVal, hexSet := Some(Int2Hex(intVal)), true; }
        case (INTEGER, REAL) => if !realSet { realVal, realSet := intVal as real, true; }
        case (HEX, STRING) => if !strSet { strVal, strSet := hexVal.value, true; strLen := |strVal|; }
        case (HEX, INTEGER) => if !intSet { intVal, intSet := Hex2Int(hexVal.value), true; }
        case (REAL, STRING) => if !strSet { strVal, strSet := show(realVal), true; strLen := |strVal|; }
        case (REAL, INTEGER) => if !intSet { intVal, intSet := Cast(realVal), true; }
        case (LONG, STRING) => if !strSet { strVal, strSet := Decimal.Show(longVal), true; strLen := |strVal|; }
        case (STRING, HEX) => HexFromInt();
        case (REAL, HEX) => HexFromInt();
        case (STRING, REAL) => RealFromInt();
        case (HEX, REAL) => RealFromInt();
        case _ => ok := false;
      }
    }

    method HexFromInt()
      requires Valid() && (typ == STRING || typ == REAL)
      modifies this
      ensures Valid() && typ == old(typ) && written == old(written) && hexSet
      decreases 1
    {
      if !hexSet {
        var made := Convert(INTEGER);
        hexVal, hexSet := Some(Int2Hex(intVal)), true;
      }
    }

    method RealFromInt()
      requires Valid() && (typ == STRING || typ == HEX)
      modifies this
      ensures Valid() && typ == old(typ) && written == old(written) && realSet
      decreases 1
    {
      if !realSet {
        var made := Convert(INTEGER);
        realVal, realSet := intVal as real, true;
      }
    }

    method GetInt() returns (r: int)
      requires Valid()
      modifies this
      ensures Valid() && r == AsInt(written) && typ == old(typ) && written == old(written)
    {
      if !intSet { var made := Convert(INTEGER); }
      r := intVal;
    }

    method GetStr() returns (r: string)
      requires Valid()
      modifies this
      ensures Valid() && r == AsStr(written, show) && typ == old(typ) && written == old(written)
    {
      if !strSet { var made := Convert(STRING); }
      r := strVal;
    }

    method GetStrLen() returns (n: nat)
      requires Valid()
      modifies this
      ensures Valid() && n == |AsStr(written, show)| && typ == old(typ) && written == old(written)
    {
      if !strSet { var made := Convert(STRING); }
      n := strLen;
    }

    method GetHex() returns (r: Option<string>)
      requires Valid()
      modifies this
      ensures Valid() && r == AsHex(written) && typ == old(typ) && written == old(written)
    {
      if !hexSet { var made := Convert(HEX); }
      r := hexVal;
    }

    method GetReal() returns (r: real)
      requires Valid()
      modifies this
      ensures Valid() && r == AsReal(written) && typ == old(typ) && written == old(written)
    {
      if !realSet { var made := Convert(REAL); }
      r := realVal;
    }

    method GetLong() returns (r: int)
      requires Valid()
      modifies this
      ensures Valid() && r == AsLong(written) && typ == old(typ) && written == old(written)
    {
      if !longSet { var made := Convert(LONG); }
      r := longVal;
    }

    /** Forget every representation. */
    method ClearAll()
      modifies this
      ensures typ == old(typ) && !strSet && !intSet && !hexSet && !realSet && !longSet
      ensures strVal == "" && strLen == 0 && intVal == 0 && hexVal == None && realVal == 0.0 && longVal == 0
    {
      strSet, intSet, hexSet, realSet, longSet := false, false, false, false, false;
      strVal, strLen, intVal, hexVal, realVal, longVal := "", 0, 0, None, 0.0, 0;
    }

    /** A write makes its own type the one everything else is derived from. */
    method Set(v: Value)
      modifies this
      ensures Valid() && written == v
    {
      ClearAll();
      typ := TypeOf(v);
      match v {
        case Str(s) => strVal, strSet, strLen := s, true, |s|;
        case Int(i) => intVal, intSet := i, true;
        case Hex(h) => hexVal, hexSet := Some(h), true;
        case Real(r) => realVal, realSet := r, true;
        case Long(l) => longVal, longSet := l, true;
      }
      written := v;
    }
  }

  // ---- any order of reads and writes ---------------------------------------------------

  datatype Op = Write(v: Value) | Read(t: Type) | ReadLen

  datatype Answer = Wrote | OfStr(s: string) | OfInt(i: int) | OfHex(h: Option<string>) | OfReal(r: real) | OfLong(l: int) | OfLen(n: nat)

  /** What a read must answer when v was the last value written. */
  function Fresh(v: Value, op: Op, show: Show): Answer {
    match op
    case Write(_) => Wrote
    case ReadLen => OfLen(|AsStr(v, show)|)
    case Read(STRING) => OfStr(AsStr(v, show))
    case Read(INTEGER) => OfInt(AsInt(v))
    case Read(HEX) => OfHex(AsHex(v))
    case Read(REAL) => OfReal(AsReal(v))
    case Read(LONG) => OfLong(AsLong(v))
  }

  /** The last value written before op i. */
  function LastWritten(first: Value, ops: seq<Op>, i: nat): Value
    requires i <= |ops|
  {
    if i == 0 then first else if ops[i - 1].Write? then ops[i - 1].v else LastWritten(first, ops, i - 1)
  }

  method PlayOne(d: Data, op: Op) returns (a: Answer)
    requires d.Valid()
    modifies d
    ensures d.Valid() && d.written == (if op.Write? then op.v else old(d.written)) && a == Fresh(old(d.written), op, d.show)
  {
    hide AsStr, AsInt, AsHex, AsReal, AsLong, Data.Valid;
    a := Wrote;
    match op {
      case Write(v) => d.Set(v);
      case ReadLen =>
        var n := d.GetStrLen();
        a := OfLen(n);
      case Read(STRING) =>
        var s := d.GetStr();
        a := OfStr(s);
      case Read(INTEGER) =>
        var k := d.GetInt();
        a := OfInt(k);
      case Read(HEX) =>
        var h := d.GetHex();
        a := OfHex(h);
      case Read(REAL) =>
        var r := d.GetReal();
        a := OfReal(r);
      case Read(LONG) =>
        var l := d.GetLong();
        a := OfLong(l);
    }
  }

  /** However reads and writes follow each other, each read answers with a fresh
      conversion of the last value written. */
  method Play(d: Data, ops: seq<Op>) returns (answers: seq<Answer>)
    requires d.Valid()
    modifies d
    ensures d.Valid() && |answers| == |ops| && d.written == LastWritten(old(d.written), ops, |ops|)
    ensures forall i :: 0 <= i < |ops| ==> answers[i] == Fresh(LastWritten(old(d.written), ops, i), ops[i], d.show)
  {
    hide Fresh, Data.Valid;
    answers := [];
    for i := 0 to |ops|
      invariant d.Valid() && |answers| == i && d.written == LastWritten(old(d.written), ops, i)
      invariant forall k :: 0 <= k < i ==> answers[k] == Fresh(LastWritten(old(d.written), ops, k), ops[k], d.show)
    {
      var a := PlayOne(d, ops[i]);
      answers := answers + [a];
    }
  }

  // ---- hex text back to its integer ----------------------------------------------------

  /** Digit k of a number in hex, from the right. */
  function Nibble(n: nat, k: nat): (d: nat)
    ensures d < 16
    decreases k
  {
    if k == 0 then n % 16 else Nibble(n / 16, k - 1)
  }

  /** A one for each digit of k that is printed as a letter, in the digit's place. */
  function Letters(n: nat, k: nat): nat
    decreases k
  {
    if k == 0 then 0 else (if n % 16 < 10 then 0 else 1) + 16 * Letters(n / 16, k - 1)
  }

  function Pow16(k: nat): (r: nat)
    ensures r >= 1
  {
    if k == 0 then 1 else 16 * Pow16(k - 1)
  }

  lemma {:induction false} ReadHexJoin(a: string, c: char, acc: int)
    requires forall i :: 0 <= i < |a| ==> IsHexDigit(a[i])
    ensures ReadHex(a + [c], acc) == ReadHex([c], ReadHex(a, acc))
    decreases |a|
  {
    if a == "" {
      assert a + [c] == [c];
    } else {
      assert (a + [c])[0] == a[0] && (a + [c])[1..] == a[1..] + [c];
      var d := a[0] as int - (if IsDigit(a[0]) then '0' as int else 'A' as int - 10);
      ReadHexJoin(a[1..], c, acc * 16 + d);
    }
  }

  predicate IsHexDigit(c: char) {
    IsDigit(c) || 'A' <= c <= 'F' || 'a' <= c <= 'f'
  }

  lemma {:induction false} ShowsHexDigits(n: nat)
    ensures forall i :: 0 <= i < |ShowHex(n)| ==> IsHexDigit(ShowHex(n)[i])
  {
    if n >= 16 { ShowsHexDigits(n / 16); }
  }

  /** Each letter is read as 32 too much, in its place. */
  lemma {:induction false} ReadsTooMuch(n: nat, k: nat)
    requires k > 0 && n < Pow16(k)
    ensures ReadHex(ShowHex(n), 0) == n + 32 * Letters(n, k)
    decreases k
  {
    var d := HexDigit(n % 16);
    assert [d][1..] == "";
    if n < 16 {
      NoneAbove(k - 1);
    } else {
      ReadsTooMuch(n / 16, k - 1);
      ShowsHexDigits(n / 16);
      ReadHexJoin(ShowHex(n / 16), d, 0);
    }
  }

  lemma {:induction false} NoneAbove(k: nat)
    ensures Letters(0, k) == 0
  {
    if k > 0 { NoneAbove(k - 1); }
  }

  /** One for a digit that is a letter. */
  function Letter(n: nat, k: nat): (r: nat)
    ensures r <= 1
  {
    if Nibble(n, k) < 10 then 0 else 1
  }

  lemma LettersUnfold(n: nat, k: nat)
    requires k > 0
    ensures Letters(n, k) == Letter(n, 0) + 16 * Letters(n / 16, k - 1)
    ensures forall j :: 0 <= j < k - 1 ==> Nibble(n / 16, j) == Nibble(n, j + 1)
  {}

  function LowLetters(n: nat): (r: nat)
    ensures r <= 0x111_1111
  {
    Letter(n, 0) + 0x10 * Letter(n, 1) + 0x100 * Letter(n, 2) + 0x1000 * Letter(n, 3)
    + 0x1_0000 * Letter(n, 4) + 0x10_0000 * Letter(n, 5) + 0x100_0000 * Letter(n, 6)
  }

  /** Digit by digit. */
  lemma EightLetters(n: nat)
    ensures Letters(n, 8) == LowLetters(n) + 0x1000_0000 * Letter(n, 7)
  {
    hide Letters, Letter;
    FourLetters(n, 4);
    FourLetters(n / 16 / 16 / 16 / 16, 0);
    NoneAt(n / 16 / 16 / 16 / 16 / 16 / 16 / 16 / 16);
  }

  /** Four digits at a time. */
  lemma FourLetters(n: nat, k: nat)
    ensures var m := n / 16 / 16 / 16 / 16;
            && Letters(n, k + 4) == Letter(n, 0) + 0x10 * Letter(n, 1) + 0x100 * Letter(n, 2) + 0x1000 * Letter(n, 3) + 0x1_0000 * Letters(m, k)
            && forall j :: 0 <= j < 4 ==> Letter(m, j) == Letter(n, j + 4)
  {
    hide Letters, Letter;
    var n1 := n / 16;
    var n2 := n1 / 16;
    var n3 := n2 / 16;
    LettersUnfold(n, k + 4);
    LettersUnfold(n1, k + 3);
    LettersUnfold(n2, k + 2);
    LettersUnfold(n3, k + 1);
    forall j | 0 <= j < 7 ensures Letter(n1, j) == Letter(n, j + 1) { NextLetter(n, j); }
    forall j | 0 <= j < 6 ensures Letter(n2, j) == Letter(n1, j + 1) { NextLetter(n1, j); }
    forall j | 0 <= j < 5 ensures Letter(n3, j) == Letter(n2, j + 1) { NextLetter(n2, j); }
    forall j | 0 <= j < 4 ensures Letter(n3 / 16, j) == Letter(n3, j + 1) { NextLetter(n3, j); }
  }

  lemma NextLetter(n: nat, j: nat)
    ensures Letter(n / 16, j) == Letter(n, j + 1)
  {}

  lemma NoneAt(n: nat)
    ensures Letters(n, 0) == 0
  {}

  /** Printed in hex and read back, an integer comes back exactly when none of the
      low seven of its eight hex digits is a letter. A letter in the highest digit
      does no harm: what it adds is a multiple of 2^32. */
  lemma HexReadsBackIff(i: int)
    requires INT_MIN <= i <= INT_MAX
    ensures AsHex(Int(i)) == Some(Int2Hex(i))
    ensures AsInt(Hex(Int2Hex(i))) == i <==> forall k :: 0 <= k < 7 ==> Nibble(i % 0x1_0000_0000, k) < 10
  {
    hide ReadHex, ShowHex, Letters, Nibble, Letter, LowLetters, Pow16, Wrap32;
    var n: nat := i % 0x1_0000_0000;
    EightDigits();
    ReadsTooMuch(n, 8);
    EightLetters(n);
    WrapsAlike(i, n, LowLetters(n), Letter(n, 7));
    LowLettersNone(n);
  }

  lemma LowLettersNone(n: nat)
    ensures LowLetters(n) == 0 <==> forall k :: 0 <= k < 7 ==> Nibble(n, k) < 10
  {
    hide Nibble;
    if LowLetters(n) == 0 {
      forall k | 0 <= k < 7 ensures Nibble(n, k) < 10 { assert Letter(n, k) == 0; }
    } else {
      var k: nat :| k < 7 && Letter(n, k) != 0;
      assert Nibble(n, k) >= 10;
    }
  }

  lemma EightDigits()
    ensures Pow16(8) == 0x1_0000_0000
  {
    assert Pow16(0) == 1 && Pow16(1) == 16 && Pow16(2) == 0x100 && Pow16(3) == 0x1000;
    assert Pow16(4) == 0x1_0000 && Pow16(5) == 0x10_0000 && Pow16(6) == 0x100_0000 && Pow16(7) == 0x1000_0000;
  }

  lemma WrapsAlike(i: int, n: nat, low: nat, top: nat)
    requires INT_MIN <= i <= INT_MAX && n == i % 0x1_0000_0000 && low <= 0x111_1111 && top <= 1
    ensures Wrap32(n + 32 * (low + 0x1000_0000 * top)) == i <==> low == 0
  {
    assert n == i || n == i + 0x1_0000_0000;
    assert n + 32 * (low + 0x1000_0000 * top) - INT_MIN == n + 32 * low - INT_MIN + 2 * top * 0x1_0000_0000;
    Turns(n + 32 * low - INT_MIN, 2 * top);
    Turns(i + 32 * low - INT_MIN, if n == i then 0 else 1);
    assert (i + 32 * low - INT_MIN) % 0x1_0000_0000 == i - INT_MIN <==> low == 0 by { Within(i - INT_MIN, 32 * low); }
  }

  lemma Turns(x: int, k: nat)
    ensures (x + k * 0x1_0000_0000) % 0x1_0000_0000 == x % 0x1_0000_0000
  {
    if k > 0 {
      OneTurn(x + (k - 1) * 0x1_0000_0000);
      Turns(x, k - 1);
    }
  }

  lemma OneTurn(x: int)
    ensures (x + 0x1_0000_0000) % 0x1_0000_0000 == x % 0x1_0000_0000
  {}

  /** Adding less than a full turn comes back to the same place only when nothing is added. */
  lemma Within(x: int, y: int)
    requires 0 <= x < 0x1_0000_0000 && 0 <= y < 0x1_0000_0000
    ensures (x + y) % 0x1_0000_0000 == x <==> y == 0
  {}

  /** The smallest that does not come back: 10 is printed as "a", and that is
      read as 42. */
  lemma LowerHexMisreads()
    ensures AsHex(Int(10)) == Some("a") && AsInt(Hex("a")) == 42
  {
    assert ReadHex("a", 0) == ReadHex("a"[1..], 42);
  }

  // ---- the blocks the texts are printed into ------------------------------------------

  /** What sprintf writes, NUL included, stays inside a block. */
  predicate Fits(text: string, block: nat) {
    |text| + 1 <= block
  }

  function Pow10(k: nat): nat {
    if k == 0 then 1 else 10 * Pow10(k - 1)
  }

  lemma {:induction false} DigitsIff(n: nat, k: nat)
    requires k > 0
    ensures |ShowNat(n)| <= k <==> n < Pow10(k)
    decreases k
  {
    if n < 10 {
      TenOrMore(k);
    } else if k == 1 {
      ShowsDigits(n / 10);
    } else {
      DigitsIff(n / 10, k - 1);
    }
  }

  lemma {:induction false} TenOrMore(k: nat)
    requires k > 0
    ensures Pow10(k) >= 10
  {
    if k > 1 { TenOrMore(k - 1); }
  }

  lemma TenDigits()
    ensures Pow10(4) == 10000 && Pow10(5) == 100000 && Pow10(6) == 1000000 && Pow10(7) == 10000000 && Pow10(8) == 100000000 && Pow10(9) == 1000000000 && Pow10(19) == 10000000000000000000
  {
    assert Pow10(3) == 1000;
    assert Pow10(13) == 10000000000000 && Pow10(16) == 10000000000000000;
  }

  /** The ten bytes for an integer hold it exactly when it has at most nine digits, eight
      behind a minus sign; the program prints the others past them. */
  lemma IntFitsIff(i: int)
    ensures Fits(Decimal.Show(i), 10) <==> -99999999 <= i <= 999999999
  {
    TenDigits();
    DigitsIff(if i < 0 then -i else i, if i < 0 then 8 else 9);
  }

  /** The twenty-four for a long hold every long. */
  lemma LongFits(l: int)
    requires LONG_MIN <= l <= LONG_MAX
    ensures Fits(Decimal.Show(l), 24)
  {
    TenDigits();
    DigitsIff(if l < 0 then -l else l, 19);
  }

  /** And the ten for hex every integer. */
  lemma HexFits(i: int)
    ensures Fits(Int2Hex(i), 10)
  {
    EightDigits();
    HexDigitCount(i % 0x1_0000_0000, 8);
  }

  lemma {:induction false} HexDigitCount(n: nat, k: nat)
    requires k > 0 && n < Pow16(k)
    ensures |ShowHex(n)| <= k
    decreases k
  {
    if n >= 16 { HexDigitCount(n / 16, k - 1); }
  }

  /** What %f prints for so many millionths: a point and six decimals. */
  function ShowMillionths(n: int): string {
    var m: nat := if n < 0 then -n else n;
    (if n < 0 then "-" else "") + ShowNat(m / 1000000) + "." + ShowNat(1000000 + m % 1000000)[1..]
  }

  /** The thirteen for a double hold it exactly when its whole part has at most five
      digits, four behind a minus sign. */
  lemma RealFitsIff(n: int)
    ensures Fits(ShowMillionths(n), 13) <==> -10000 * 1000000 < n < 100000 * 1000000
  {
    TenDigits();
    var m: nat := if n < 0 then -n else n;
    DigitsIff(1000000 + m % 1000000, 7);
    DigitsIff(1000000 + m % 1000000, 6);
    DigitsIff(m / 1000000, if n < 0 then 4 else 5);
  }

  /** An integer printed and read as text comes back exactly when it has no sign. */
  lemma TextReadsBackIff(i: int)
    requires INT_MIN <= i <= INT_MAX
    ensures AsInt(Str(Decimal.Show(i))) == i <==> i >= 0
  {
    if i >= 0 {
      ShowsDigits(i);
      ReadShownNat(i);
    }
  }

  // ---- any text, any double ---------------------------------------------------------------

  lemma {:induction false} SpaceSkipped(ws: string, rest: string)
    requires AllSpace(ws) && (rest == "" || !AllSpace(rest[..1]))
    ensures SkipSpace(ws + rest) == rest
  {
    if ws == "" {
      assert ws + rest == rest && (rest != "" ==> rest[..1][0] == rest[0]);
    } else {
      assert (ws + rest)[1..] == ws[1..] + rest;
      SpaceSkipped(ws[1..], rest);
    }
  }

  /** Text reads as the number its first digits show, white space and zeros in front and
      anything behind, cut to 32 bits, or to 64: a sign is no digit. */
  lemma TextIsRead(ws: string, zeros: nat, n: nat, rest: string)
    requires AllSpace(ws) && EndsDigits(rest)
    ensures var text := Str(ws + (Zeros(zeros) + (ShowNat(n) + rest)));
            && INT_MIN <= AsInt(text) <= INT_MAX && (n - AsInt(text)) % 0x1_0000_0000 == 0
            && LONG_MIN <= AsLong(text) <= LONG_MAX && (n - AsLong(text)) % 0x1_0000_0000_0000_0000 == 0
  {
    var digits := Zeros(zeros) + (ShowNat(n) + rest);
    ShowsDigits(n);
    assert IsDigit(digits[0]) by { assert zeros == 0 ==> digits == ShowNat(n) + rest; }
    assert digits[..1][0] == digits[0];
    SpaceSkipped(ws, digits);
    DigitsRead(zeros, n, rest);
    Wrapped(n);
    Wrapped64(n);
    hide Wrap32, Wrap64, ReadDigits, ShowNat, Zeros, SkipSpace;
  }

  /** And as 0 when it begins with no digit. */
  lemma TextIsNothing(ws: string, rest: string)
    requires AllSpace(ws) && EndsDigits(rest) && (rest == "" || !AllSpace(rest[..1]))
    ensures AsInt(Str(ws + rest)) == 0 && AsLong(Str(ws + rest)) == 0
  {
    SpaceSkipped(ws, rest);
  }

  lemma Wrapped64(n: int)
    ensures LONG_MIN <= Wrap64(n) <= LONG_MAX && (n - Wrap64(n)) % 0x1_0000_0000_0000_0000 == 0
  {
    var q := (n - LONG_MIN) / 0x1_0000_0000_0000_0000;
    assert n - Wrap64(n) == q * 0x1_0000_0000_0000_0000;
    Whole64(q);
  }

  lemma Whole64(q: int)
    ensures q * 0x1_0000_0000_0000_0000 % 0x1_0000_0000_0000_0000 == 0
  {}

  /** A double reads as the whole number next to it on the side of zero. */
  lemma CutTowardsZero(r: real)
    requires -2147483649.0 < r < 2147483648.0
    ensures var i := AsInt(Real(r));
            if r >= 0.0 then 0 <= i && i as real <= r < i as real + 1.0 else i <= 0 && i as real - 1.0 < r <= i as real
  {}

  const UPPER := "0123456789ABCDEF"

  /** A number in upper-case hex. */
  function UpperText(n: nat): string {
    if n < 16 then [UPPER[n]] else UpperText(n / 16) + [UPPER[n % 16]]
  }

  lemma UpperAt(d: nat)
    requires d < 16
    ensures |UPPER| == 16 && UPPER[d] == if d < 10 then '0' + d as char else 'A' + (d - 10) as char
  {}

  lemma {:induction false} UpperReads(n: nat)
    ensures (forall i :: 0 <= i < |UpperText(n)| ==> IsHexDigit(UpperText(n)[i])) && ReadHex(UpperText(n), 0) == n
  {
    hide UPPER;
    UpperAt(n % 16);
    var last := [UPPER[n % 16]];
    assert last[1..] == "";
    if n >= 16 {
      UpperReads(n / 16);
      ReadHexJoin(UpperText(n / 16), UPPER[n % 16], 0);
    }
  }

  lemma {:induction false} HexStops(s: string, rest: string, acc: int)
    requires (forall i :: 0 <= i < |s| ==> IsHexDigit(s[i])) && (rest == "" || !IsHexDigit(rest[0]))
    ensures ReadHex(s + rest, acc) == ReadHex(s, acc)
    decreases |s|
  {
    if s == "" {
      assert s + rest == rest;
    } else {
      assert (s + rest)[0] == s[0] && (s + rest)[1..] == s[1..] + rest;
      HexStops(s[1..], rest, acc * 16 + s[0] as int - (if IsDigit(s[0]) then '0' as int else 'A' as int - 10));
    }
  }

  /** Upper-case hex reads as the number it shows, cut to 32 bits; what follows its digits
      is not looked at. */
  lemma UpperHexIsRead(n: nat, rest: string)
    requires rest == "" || !IsHexDigit(rest[0])
    ensures var i := AsInt(Hex(UpperText(n) + rest)); INT_MIN <= i <= INT_MAX && (n - i) % 0x1_0000_0000 == 0
  {
    UpperReads(n);
    HexStops(UpperText(n), rest, 0);
    Wrapped(n);
    hide ReadHex, UpperText, Wrap32;
  }

  /** Text, integers and doubles read as the hex of what they are as integers, and text and
      hex as that as a double; a long reads as itself and as text alone, and only text reads
      as a long. */
  lemma ByWayOfIntegers(v: Value)
    ensures v.Str? || v.Int? || v.Real? ==> AsHex(v) == AsHex(Int(AsInt(v)))
    ensures v.Str? || v.Int? || v.Hex? ==> AsReal(v) == AsReal(Int(AsInt(v))) == AsInt(v) as real
    ensures v.Long? ==> AsInt(v) == 0 && AsHex(v) == None && AsReal(v) == 0.0
    ensures v.Int? || v.Hex? || v.Real? ==> AsLong(v) == 0
    ensures forall s: string, show: Show :: AsStr(Str(s), show) == s && AsStr(Hex(s), show) == s
    ensures forall i: int, show: Show :: Decimal.Read(AsStr(Int(i), show)) == i && Decimal.Read(AsStr(Long(i), show)) == i
    ensures forall r: real, show: Show :: AsStr(Real(r), show) == show(r)
  {
    forall i: int ensures Decimal.Read(Decimal.Show(i)) == i { ReadShown(i); }
  }
}
