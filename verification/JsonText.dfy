/** What a text means to the parser of src/node.c however it is laid out: with any blank
    space, any escapes, its fields in any order, repeated or unknown. Section numbers are
    those of RFC 8259. */
module JsonText {
  import opened Common
  import opened Decimal
  import opened JsonModel

  // ---- UTF-8 ----------------------------------------------------------------------------

  predicate Continues(b: char) {
    0x80 <= b as int < 0xC0
  }

  /** The code points of a text of bytes, read a byte at a time as section 3 of RFC 3629
      has it: the lead byte says how many follow, each with six bits. Longer forms than
      needed are no UTF-8. (Four bytes are not read here.) */
  function Points(b: string): Option<seq<nat>> {
    if b == "" then Some([])
    else
      var lead := b[0] as nat;
      if lead < 0x80 then Joined(lead, Points(b[1..]))
      else if 0xC0 <= lead < 0xE0 && |b| >= 2 && Continues(b[1]) && (lead - 0xC0) * 64 + (b[1] as nat - 0x80) >= 0x80 then
        Joined((lead - 0xC0) * 64 + (b[1] as nat - 0x80), Points(b[2..]))
      else if 0xE0 <= lead < 0xF0 && |b| >= 3 && Continues(b[1]) && Continues(b[2]) && Three(b) >= 0x800 then
        Joined(Three(b), Points(b[3..]))
      else None
  }

  function Three(b: string): int
    requires |b| >= 3
  {
    ((b[0] as int - 0xE0) * 64 + (b[1] as int - 0x80)) * 64 + (b[2] as int - 0x80)
  }

  function Joined(cp: nat, rest: Option<seq<nat>>): Option<seq<nat>> {
    if rest.Some? then Some([cp] + rest.value) else None
  }

  /** The bytes that are read as one code point. */
  ghost function Encoding(cp: nat): (b: string)
    requires cp < 0x10000
    ensures Points(b) == Some([cp])
  {
    Utf8Reads(cp);
    var b :| Points(b) == Some([cp]);
    b
  }

  lemma Utf8Reads(cp: nat)
    requires cp < 0x10000
    ensures Points(Utf8(cp)) == Some([cp])
  {
    var b := Utf8(cp);
    NoPoints("");
    if cp < 0x80 {
      assert b[1..] == "" && [cp] + [] == [cp];
    } else if cp < 0x800 {
      assert b[2..] == "" && [cp] + [] == [cp];
    } else {
      assert b[3..] == "" && [cp] + [] == [cp];
      assert cp / 4096 * 64 + cp / 64 % 64 == cp / 64 && Three(b) == cp;
    }
  }

  /** There is one way to write a code point. */
  lemma OneEncoding(a: string, b: string, cp: nat)
    requires Points(a) == Some([cp]) && Points(b) == Some([cp])
    ensures a == b
  {
    OnePoint(a, cp);
    OnePoint(b, cp);
  }

  lemma OnePoint(b: string, cp: nat)
    requires Points(b) == Some([cp])
    ensures if cp < 0x80 then b == [cp as char]
            else if cp < 0x800 then |b| == 2 && b[0] as int - 0xC0 == cp / 64 && b[1] as int - 0x80 == cp % 64
            else |b| == 3 && b[0] as int - 0xE0 == cp / 4096 && b[1] as int - 0x80 == cp / 64 % 64 && b[2] as int - 0x80 == cp % 64
  {
    var lead := b[0] as nat;
    if lead < 0x80 {
      OnlyOne(lead, b[1..], cp);
      assert b == [b[0]] + b[1..];
    } else if lead < 0xE0 {
      OnePair(b, cp);
    } else {
      OneTriple(b, cp);
    }
  }

  lemma OnePair(b: string, cp: nat)
    requires Points(b) == Some([cp]) && 0x80 <= b[0] as nat < 0xE0
    ensures |b| == 2 && cp >= 0x80 && cp < 0x800 && b[0] as int - 0xC0 == cp / 64 && b[1] as int - 0x80 == cp % 64
  {
    hide Three;
    OnlyOne((b[0] as nat - 0xC0) * 64 + (b[1] as nat - 0x80), b[2..], cp);
    Sixes(b[0] as nat - 0xC0, b[1] as nat - 0x80);
  }

  lemma OneTriple(b: string, cp: nat)
    requires Points(b) == Some([cp]) && b[0] as nat >= 0xE0
    ensures |b| == 3 && cp >= 0x800
    ensures b[0] as int - 0xE0 == cp / 4096 && b[1] as int - 0x80 == cp / 64 % 64 && b[2] as int - 0x80 == cp % 64
  {
    OnlyOne(Three(b), b[3..], cp);
    hide Points;
    var high, low := b[0] as nat - 0xE0, b[1] as nat - 0x80;
    Sixes(high * 64 + low, b[2] as nat - 0x80);
    Sixes(high, low);
    assert cp / 64 / 64 == cp / 4096;
  }

  lemma Sixes(q: nat, r: nat)
    requires r < 64
    ensures (q * 64 + r) / 64 == q && (q * 64 + r) % 64 == r
  {}

  lemma OnlyOne(first: nat, rest: string, cp: nat)
    requires Joined(first, Points(rest)) == Some([cp])
    ensures first == cp && rest == ""
  {
    var tail := Points(rest).value;
    assert ([first] + tail)[0] == first && |[first] + tail| == 1 + |tail|;
    NoPoints(rest);
  }

  lemma NoPoints(b: string)
    ensures Points(b) == Some([]) <==> b == ""
  {}

  // ---- strings --------------------------------------------------------------------------

  /** A character as section 7 lets a string hold it: itself, \ and a letter, or \u and
      four hex digits. */
  datatype Unit = Raw(c: char) | Short(letter: char) | Code(digits: string)

  const LOWER := "0123456789abcdef"
  const UPPER := "0123456789ABCDEF"

  /** The two-character escapes of section 7, and what each stands for. */
  const SHORTS: map<char, char> := map['"' := '"', '\\' := '\\', '/' := '/', 'b' := 8 as char, 'f' := 12 as char,
                                       'n' := 10 as char, 'r' := 13 as char, 't' := 9 as char]

  predicate Hex(c: char) {
    c in LOWER || c in UPPER
  }

  predicate Proper(u: Unit) {
    match u
    case Raw(c) => c != '\0' && c != '"' && c != '\\'
    case Short(letter) => letter != '\0' && letter != 'u'
    case Code(d) => |d| == 4 && forall i :: 0 <= i < 4 ==> Hex(d[i])
  }

  function Spelt(u: Unit): string {
    match u
    case Raw(c) => [c]
    case Short(letter) => "\\" + [letter]
    case Code(d) => "\\u" + d
  }

  function SpeltAll(us: seq<Unit>): string {
    if us == [] then "" else Spelt(us[0]) + SpeltAll(us[1..])
  }

  /** Where a character stands in a text it is in. */
  function Place(c: char, s: string): (k: nat)
    requires c in s
    ensures k < |s| && s[k] == c && c !in s[..k]
  {
    if s[0] == c then 0 else assert s == [s[0]] + s[1..]; 1 + Place(c, s[1..])
  }

  function DigitOf(c: char): (d: nat)
    requires Hex(c)
    ensures d < 16
  {
    if c in LOWER then Place(c, LOWER) else Place(c, UPPER)
  }

  function Number(d: string): (n: nat)
    requires |d| == 4 && forall i :: 0 <= i < 4 ==> Hex(d[i])
    ensures n < 0x10000
  {
    DigitOf(d[0]) * 4096 + DigitOf(d[1]) * 256 + DigitOf(d[2]) * 16 + DigitOf(d[3])
  }

  /** What a unit stands for, in bytes. A letter that is no escape stands for nothing. */
  ghost function Meaning(u: Unit): string
    requires Proper(u)
  {
    match u
    case Raw(c) => [c]
    case Short(letter) => if letter in SHORTS then [SHORTS[letter]] else ""
    case Code(d) => Encoding(Number(d))
  }

  predicate AllProper(us: seq<Unit>) {
    forall i :: 0 <= i < |us| ==> Proper(us[i])
  }

  ghost function MeaningAll(us: seq<Unit>): string
    requires AllProper(us)
  {
    if us == [] then "" else Meaning(us[0]) + MeaningAll(us[1..])
  }

  lemma DigitsAre(k: nat)
    requires k < 16
    ensures LOWER[k] == HexDigit(k) && UPPER[k] == if k < 10 then '0' + k as char else 'A' + (k - 10) as char
  {}

  lemma DigitIs(c: char, cp: nat)
    requires Hex(c)
    ensures Nibble(cp, c) == 16 * cp + DigitOf(c)
  {
    hide LOWER, UPPER;
    DigitsAre(DigitOf(c));
  }

  lemma FourNibbles(d: string)
    requires |d| == 4 && forall i :: 0 <= i < 4 ==> Hex(d[i])
    ensures Nibble(Nibble(Nibble(Nibble(0, d[0]), d[1]), d[2]), d[3]) == Number(d)
  {
    hide LOWER, UPPER, Nibble, DigitOf, Hex;
    var a := Nibble(0, d[0]);
    var b := Nibble(a, d[1]);
    var c := Nibble(b, d[2]);
    DigitIs(d[0], 0);
    DigitIs(d[1], a);
    DigitIs(d[2], b);
    DigitIs(d[3], c);
  }

  lemma ShortRead(text: string, p: nat, letter: char)
    requires Proper(Short(letter)) && At(text, p) == letter
    ensures Unescape(text, p) == (Meaning(Short(letter)), p + 1)
  {
    hide At, CodePoint;
  }

  /** One unit of a string is read as what it stands for. */
  lemma UnitRead(text: string, p: nat, u: Unit)
    requires Proper(u) && Sits(text, p, Spelt(u))
    ensures ReadChars(text, p).0 == Meaning(u) + ReadChars(text, p + |Spelt(u)|).0
    ensures ReadChars(text, p).1 == ReadChars(text, p + |Spelt(u)|).1
  {
    hide Sits, At, Left, Number, Hex, Unescape, Meaning;
    EachOf(text, p, Spelt(u), 0);
    match u {
      case Raw(c) => assert Meaning(u) == [c] by { RawMeans(c); }
      case Short(letter) =>
        EachOf(text, p, Spelt(u), 1);
        ShortRead(text, p + 1, letter);
      case Code(d) =>
        EachOf(text, p, Spelt(u), 1);
        forall k: nat | k < 4 ensures At(text, p + 2 + k) == d[k] { EachOf(text, p, Spelt(u), 2 + k); }
        CodeRead(text, p + 1, d);
    }
  }

  lemma RawMeans(c: char)
    requires Proper(Raw(c))
    ensures Meaning(Raw(c)) == [c]
  {}

  lemma CodeRead(text: string, p: nat, d: string)
    requires Proper(Code(d)) && At(text, p) == 'u' && forall k: nat :: k < 4 ==> At(text, p + 1 + k) == d[k]
    ensures Unescape(text, p) == (Meaning(Code(d)), p + 5)
  {
    hide At, Nibble, Utf8, Hex, Number, Points;
    assert At(text, p + 1 + 0) == d[0] && At(text, p + 1 + 1) == d[1] && At(text, p + 1 + 2) == d[2] && At(text, p + 1 + 3) == d[3];
    FourNibbles(d);
    Utf8Reads(Number(d));
    OneEncoding(Utf8(Number(d)), Encoding(Number(d)), Number(d));
  }

  /** A string is read as what its units stand for, one after another. */
  lemma {:induction false} UnitsRead(text: string, p: nat, us: seq<Unit>)
    requires AllProper(us) && Sits(text, p, SpeltAll(us) + "\"")
    ensures ReadChars(text, p) == (MeaningAll(us), p + |SpeltAll(us)| + 1)
    decreases |us|
  {
    hide Sits, ReadChars, Spelt, Meaning;
    if us == [] {
      assert "" + "\"" == "\"";
      ClosesAt(text, p);
    } else {
      var rest := SpeltAll(us[1..]) + "\"";
      assert SpeltAll(us) + "\"" == Spelt(us[0]) + rest;
      SitsParts(text, p, Spelt(us[0]), rest);
      UnitRead(text, p, us[0]);
      UnitsRead(text, p + |Spelt(us[0])|, us[1..]);
    }
  }

  /** Between quotes. */
  function Literal(us: seq<Unit>): string {
    "\"" + (SpeltAll(us) + "\"")
  }

  /** What a C string keeps of it. */
  ghost function Kept(us: seq<Unit>): string
    requires AllProper(us)
  {
    Cut(MeaningAll(us))
  }

  /** A string literal, whatever escapes it is written with, reads as what it stands for up
      to the first NUL, and reading stops behind its quote. */
  lemma LiteralReads(text: string, p: nat, us: seq<Unit>)
    requires AllProper(us) && Sits(text, p, Literal(us))
    ensures ReadString(text, p) == (Kept(us), p + |Literal(us)|) && At(text, p) == '"'
  {
    hide Sits, ReadChars, SpeltAll;
    FirstOf(text, p, Literal(us));
    SitsParts(text, p, "\"", SpeltAll(us) + "\"");
    UnitsRead(text, p + 1, us);
  }

  /** An escape of any code point, in digits of either case, gives that code point back to a
      reader of UTF-8; of a string that is cut at its first NUL, any but 0. */
  lemma CodeReadsBack(text: string, p: nat, d: string)
    requires Proper(Code(d)) && Sits(text, p, "\"\\u" + d + "\"")
    ensures Points(ReadChars(text, p + 1).0) == Some([Number(d)])
    ensures Number(d) != 0 ==> Points(ReadString(text, p).0) == Some([Number(d)])
  {
    hide Sits, ReadChars, Number, Hex, Points;
    OneCode(d);
    LiteralReads(text, p, [Code(d)]);
    SitsParts(text, p, "\"", SpeltAll([Code(d)]) + "\"");
    UnitsRead(text, p + 1, [Code(d)]);
    if Number(d) != 0 { NoNul(Encoding(Number(d)), Number(d)); }
  }

  lemma OneCode(d: string)
    requires Proper(Code(d))
    ensures var us := [Code(d)];
            AllProper(us) && Literal(us) == "\"\\u" + d + "\"" && MeaningAll(us) == Encoding(Number(d))
  {
    hide Hex, Number, Points;
    var us := [Code(d)];
    assert us[1..] == [] && SpeltAll([]) == "" && MeaningAll([]) == "";
    assert SpeltAll(us) == "\\u" + d;
  }

  lemma NoNul(e: string, cp: nat)
    requires Points(e) == Some([cp]) && cp != 0
    ensures Cut(e) == e
  {
    OnePoint(e, cp);
  }

  // ---- objects --------------------------------------------------------------------------

  /** White space: section 2. */
  predicate Blank(ws: string) {
    forall i :: 0 <= i < |ws| ==> ws[i] == ' ' || ws[i] == 9 as char || ws[i] == 10 as char || ws[i] == 13 as char
  }

  /** An object as it may be laid out: each part with the blank space around it, and a
      colon that may be missing. */
  datatype Obj = Obj(inner: string, fields: seq<Field>)
  datatype Field = Field(before: string, key: seq<Unit>, behind: string, mark: bool, colon: string, body: Body, after: string)
  datatype Body = Str(us: seq<Unit>) | Arr(inner: string, items: seq<Item>)
  datatype Item = Item(before: string, obj: Obj, after: string)

  function ObjText(o: Obj): string
    decreases o, 1
  {
    "{" + if o.fields == [] then o.inner + "}" else FieldsText(o.fields, "}")
  }

  /** Fields with commas between them, and what is behind the last. */
  function FieldsText(fs: seq<Field>, end: string): (r: string)
    requires fs != []
    ensures |r| >= |end|
    decreases fs, 0
  {
    FieldText(fs[0], if |fs| == 1 then end else "," + FieldsText(fs[1..], end))
  }

  function Colon(x: Field): string {
    if x.mark then ":" else ""
  }

  function FieldText(x: Field, end: string): (r: string)
    ensures |r| >= |end|
    decreases x, 2
  {
    x.before + (Literal(x.key) + (x.behind + (Colon(x) + (x.colon + (BodyText(x.body) + (x.after + end))))))
  }

  function BodyText(b: Body): string
    decreases b, 1
  {
    match b
    case Str(us) => Literal(us)
    case Arr(inner, items) => "[" + if items == [] then inner + "]" else ItemsText(items)
  }

  function ItemsText(ts: seq<Item>): string
    requires ts != []
    decreases ts, 0
  {
    ts[0].before + (ObjText(ts[0].obj) + (ts[0].after + if |ts| == 1 then "]" else "," + ItemsText(ts[1..])))
  }

  /** Lists stand behind props and children, strings behind every other key. */
  ghost predicate ObjOk(o: Obj)
    decreases o, 1
  {
    Blank(o.inner) && forall i :: 0 <= i < |o.fields| ==> FieldOk(o.fields[i])
  }

  ghost predicate FieldOk(x: Field)
    decreases x, 1
  {
    && Blank(x.before) && Blank(x.behind) && Blank(x.colon) && Blank(x.after) && AllProper(x.key)
    && (x.body.Arr? <==> Kept(x.key) == "props" || Kept(x.key) == "children")
    && match x.body
       case Str(us) => AllProper(us)
       case Arr(inner, items) => Blank(inner) && forall i :: 0 <= i < |items| ==> ItemOk(items[i])
  }

  ghost predicate ItemOk(t: Item)
    decreases t, 0
  {
    Blank(t.before) && Blank(t.after) && ObjOk(t.obj)
  }

  ghost predicate FieldsOk(fs: seq<Field>) {
    forall i :: 0 <= i < |fs| ==> FieldOk(fs[i])
  }

  ghost predicate ItemsOk(ts: seq<Item>) {
    forall i :: 0 <= i < |ts| ==> ItemOk(ts[i])
  }

  // ---- what an object stands for --------------------------------------------------------

  /** The string of the last field of that key. */
  ghost function LastString(fs: seq<Field>, key: string): Option<string>
    requires FieldsOk(fs) && key != "props" && key != "children"
  {
    if fs == [] then None
    else
      var later := LastString(fs[1..], key);
      if later.Some? then later else OwnString(fs[0], key)
  }

  ghost function OwnString(x: Field, key: string): Option<string>
    requires FieldOk(x) && key != "props" && key != "children"
  {
    if Kept(x.key) == key then Some(Kept(x.body.us)) else None
  }

  /** The nodes of the last list of that key, in order. */
  ghost function LastList(fs: seq<Field>, key: string, f: Reals): Option<seq<Tree>>
    requires FieldsOk(fs) && (key == "props" || key == "children")
    decreases fs, 0
  {
    if fs == [] then None
    else
      var later := LastList(fs[1..], key, f);
      if later.Some? then later else OwnList(fs[0], key, f)
  }

  ghost function OwnList(x: Field, key: string, f: Reals): Option<seq<Tree>>
    requires FieldOk(x) && (key == "props" || key == "children")
    decreases x, 2
  {
    if Kept(x.key) == key then Some(Trees(x.body.items, f)) else None
  }

  ghost function Trees(ts: seq<Item>, f: Reals): seq<Tree>
    requires ItemsOk(ts)
    decreases ts, 0
  {
    if ts == [] then [] else [Stands(ts[0].obj, f)] + Trees(ts[1..], f)
  }

  function Or<T>(x: Option<T>, y: T): T {
    if x.Some? then x.value else y
  }

  /** A text read as what its type says; a node of a type that is not known holds text. A
      node that is given no value has its type's zero. */
  function Typed(typ: string, v: Option<string>, f: Reals): Value {
    match typ
    case "integer" => Integer(if v.Some? then Atoi(v.value) else 0)
    case "hex" => JsonModel.Hex(if v.Some? then v.value else "")
    case "real" => Real(if v.Some? then f.read(v.value) else 0.0)
    case "long" => Long(if v.Some? then Atol(v.value) else 0)
    case _ => Text(if v.Some? then v.value else "")
  }

  /** The node an object stands for. */
  ghost function Stands(o: Obj, f: Reals): Tree
    requires ObjOk(o)
    decreases o, 1
  {
    Tree(Or(LastString(o.fields, "name"), ""),
         Typed(Or(LastString(o.fields, "type"), ""), LastString(o.fields, "value"), f),
         Or(LastList(o.fields, "props", f), []), Or(LastList(o.fields, "children", f), []))
  }

  // ---- reading it -----------------------------------------------------------------------

  lemma {:induction false} BlankSkipped(text: string, p: nat, ws: string)
    requires Sits(text, p, ws) && Blank(ws) && !IsWs(At(text, p + |ws|))
    ensures SkipWs(text, p) == p + |ws|
    decreases |ws|
  {
    if ws != "" {
      assert ws == [ws[0]] + ws[1..];
      SitsParts(text, p, [ws[0]], ws[1..]);
      FirstOf(text, p, ws);
      BlankSkipped(text, p + 1, ws[1..]);
    }
  }

  /** Blank space, and what stands behind it. */
  lemma Past(text: string, p: nat, ws: string, rest: string)
    requires Sits(text, p, ws + rest) && Blank(ws) && rest != "" && !IsWs(rest[0])
    ensures SkipWs(text, p) == p + |ws| && Sits(text, p + |ws|, rest) && At(text, p + |ws|) == rest[0]
  {
    SitsParts(text, p, ws, rest);
    FirstOf(text, p + |ws|, rest);
    BlankSkipped(text, p, ws);
  }

  /** A character, and what stands behind it. */
  lemma Mark(text: string, p: nat, mark: char, rest: string)
    requires Sits(text, p, [mark] + rest)
    ensures At(text, p) == mark && Sits(text, p + 1, rest)
  {
    SitsParts(text, p, [mark], rest);
    FirstOf(text, p, [mark]);
  }

  /** What the parser has gathered when it has read fs, beginning with w. */
  ghost function Gathered(fs: seq<Field>, w: Fields, f: Reals): Fields
    requires FieldsOk(fs)
  {
    Fields(if LastString(fs, "name").Some? then LastString(fs, "name") else w.name,
           if LastString(fs, "type").Some? then LastString(fs, "type") else w.typ,
           if LastString(fs, "value").Some? then LastString(fs, "value") else w.value,
           Or(LastList(fs, "props", f), w.props), Or(LastList(fs, "children", f), w.kids))
  }

  lemma StringOfOne(x: Field, key: string)
    requires FieldOk(x) && key != "props" && key != "children"
    ensures LastString([x], key) == OwnString(x, key)
  {
    hide FieldOk, OwnString;
    assert [x][1..] == [];
  }

  lemma ListOfOne(x: Field, key: string, f: Reals)
    requires FieldOk(x) && (key == "props" || key == "children")
    ensures LastList([x], key, f) == OwnList(x, key, f)
  {
    hide FieldOk, OwnList;
    assert [x][1..] == [];
  }

  /** What one field adds. */
  ghost function With(x: Field, w: Fields, f: Reals): Fields
    requires FieldOk(x)
  {
    Fields(if OwnString(x, "name").Some? then OwnString(x, "name") else w.name,
           if OwnString(x, "type").Some? then OwnString(x, "type") else w.typ,
           if OwnString(x, "value").Some? then OwnString(x, "value") else w.value,
           Or(OwnList(x, "props", f), w.props), Or(OwnList(x, "children", f), w.kids))
  }

  lemma GatheredOne(x: Field, w: Fields, f: Reals)
    requires FieldOk(x)
    ensures Gathered([x], w, f) == With(x, w, f)
  {
    hide FieldOk, LastString, LastList, OwnString, OwnList;
    StringOfOne(x, "name");
    StringOfOne(x, "type");
    StringOfOne(x, "value");
    ListOfOne(x, "props", f);
    ListOfOne(x, "children", f);
  }

  lemma GatheredMore(fs: seq<Field>, w: Fields, f: Reals)
    requires fs != [] && FieldsOk(fs)
    ensures FieldsOk(fs[1..]) && Gathered(fs[1..], With(fs[0], w, f), f) == Gathered(fs, w, f)
  {
    hide FieldOk, OwnString, OwnList;
  }

  lemma FieldFacts(x: Field)
    requires FieldOk(x)
    ensures AllProper(x.key) && (x.body.Arr? <==> Kept(x.key) == "props" || Kept(x.key) == "children")
    ensures x.body.Str? ==> AllProper(x.body.us)
    ensures x.body.Arr? ==> Blank(x.body.inner) && ItemsOk(x.body.items)
  {}

  lemma WithString(x: Field, w: Fields, f: Reals)
    requires FieldOk(x) && x.body.Str?
    ensures var key := Kept(x.key);
            With(x, w, f) == if key == "name" then w.(name := Some(Kept(x.body.us))) else if key == "type" then w.(typ := Some(Kept(x.body.us)))
                             else if key == "value" then w.(value := Some(Kept(x.body.us))) else w
  {
    hide FieldOk, Kept;
    FieldFacts(x);
  }

  lemma WithList(x: Field, w: Fields, f: Reals)
    requires FieldOk(x) && x.body.Arr?
    ensures With(x, w, f) == if Kept(x.key) == "props" then w.(props := Trees(x.body.items, f)) else w.(kids := Trees(x.body.items, f))
  {
    hide FieldOk, Kept, Trees;
    FieldFacts(x);
  }

  /** One field is read into what was gathered. */
  lemma FieldRead(text: string, p: nat, x: Field, w: Fields, f: Reals)
    requires FieldOk(x) && Sits(text, p, BodyText(x.body))
    ensures ReadField(text, p, Kept(x.key), w, f) == (With(x, w, f), p + |BodyText(x.body)|)
    decreases x, 3
  {
    hide Sits, With, ReadString, ReadArray, AllProper, Literal, Trees, Blank, Kept, ItemOk, FieldOk;
    FieldFacts(x);
    if x.body.Str? {
      LiteralReads(text, p, x.body.us);
      WithString(x, w, f);
    } else {
      ListReads(text, p, x.body.inner, x.body.items, f);
      WithList(x, w, f);
    }
  }

  lemma ListReads(text: string, p: nat, inner: string, items: seq<Item>, f: Reals)
    requires Blank(inner) && ItemsOk(items) && Sits(text, p, BodyText(Arr(inner, items)))
    ensures ReadArray(text, p, f) == (Trees(items, f), p + |BodyText(Arr(inner, items))|)
    decreases items, 2
  {
    hide Sits, SkipWs, Blank, ItemOk, ReadItems, ItemsText, At;
    if items == [] {
      Mark(text, p, '[', inner + "]");
      Past(text, p + 1, inner, "]");
    } else {
      Mark(text, p, '[', ItemsText(items));
      ItemsRead(text, p + 1, items, f);
      ItemsSkipped(text, p + 1, f);
    }
  }

  /** Blank space in front of the items may be skipped beforehand. */
  lemma ItemsSkipped(text: string, p: nat, f: Reals)
    ensures ReadItems(text, SkipWs(text, p), f) == ReadItems(text, p, f)
  {
    hide ReadNode, At;
  }

  lemma FieldsSkipped(text: string, p: nat, w: Fields, f: Reals)
    ensures ReadFields(text, SkipWs(text, p), w, f) == ReadFields(text, p, w, f)
  {
    hide ReadField, ReadString, At;
  }

  /** An item, what blank there is around it, and the mark behind it. */
  lemma OneItemRead(text: string, p: nat, t: Item, end: string, f: Reals)
    requires ItemOk(t) && Sits(text, p, t.before + (ObjText(t.obj) + (t.after + end)))
    requires end != "" && (end[0] == ',' || end[0] == ']')
    ensures var q := p + |t.before| + |ObjText(t.obj)| + |t.after|;
            && Sits(text, q, end) && At(text, SkipWs(text, p)) == '{'
            && ReadItems(text, p, f) ==
               if end[0] == ',' then ([Stands(t.obj, f)] + ReadItems(text, q + 1, f).0, ReadItems(text, q + 1, f).1)
               else ([Stands(t.obj, f)], q + 1)
    decreases t, 1
  {
    hide Sits, SkipWs, Blank, ObjOk, ReadNode, ObjText, At, Stands;
    ObjStarts(t.obj, t.after + end);
    Past(text, p, t.before, ObjText(t.obj) + (t.after + end));
    var q := p + |t.before|;
    SitsParts(text, q, ObjText(t.obj), t.after + end);
    ObjReads(text, q, t.obj, f);
    Past(text, q + |ObjText(t.obj)|, t.after, end);
  }

  lemma OneTree(items: seq<Item>, f: Reals)
    requires |items| == 1 && ItemsOk(items)
    ensures ItemOk(items[0]) && Trees(items, f) == [Stands(items[0].obj, f)]
  {
    hide Stands, ObjOk;
    assert items[1..] == [];
  }

  lemma ItemsRead(text: string, p: nat, items: seq<Item>, f: Reals)
    requires items != [] && ItemsOk(items) && Sits(text, p, ItemsText(items))
    ensures ReadItems(text, p, f) == (Trees(items, f), p + |ItemsText(items)|)
    ensures At(text, SkipWs(text, p)) == '{'
    decreases items, 1
  {
    hide Sits, SkipWs, ItemOk, ReadItems, ObjText, At, Stands;
    var t := items[0];
    var end := if |items| == 1 then "]" else "," + ItemsText(items[1..]);
    OneItemRead(text, p, t, end, f);
    if |items| > 1 {
      var q := p + |t.before| + |ObjText(t.obj)| + |t.after|;
      Mark(text, q, ',', ItemsText(items[1..]));
      ItemsRead(text, q + 1, items[1..], f);
    } else {
      OneTree(items, f);
    }
  }

  lemma ObjStarts(o: Obj, rest: string)
    ensures ObjText(o) != "" && ObjText(o) + rest != "" && (ObjText(o) + rest)[0] == '{'
  {}

  /** One field, up to what stands behind it. */
  lemma OneFieldRead(text: string, p: nat, x: Field, end: string, w: Fields, f: Reals)
    requires FieldOk(x) && Sits(text, p, FieldText(x, end)) && !IsWs(At(text, p + |FieldText(x, end)| - |end|))
    ensures var q, v := p + |FieldText(x, end)| - |end|, With(x, w, f);
            Sits(text, q, end) && ReadFields(text, p, w, f) ==
              if At(text, q) == ',' then ReadFields(text, q + 1, v, f) else if At(text, q) == '}' then (v, q + 1) else (v, q)
    decreases x, 4
  {
    hide Sits, SkipWs, At, ReadString, ReadField, FieldOk, With, BodyText, Literal, Kept, Colon;
    var t4 := BodyText(x.body) + (x.after + end);
    FieldTextLength(x, end);
    FieldKey(text, p, x, end);
    var q1 := p + |x.before| + |Literal(x.key)|;
    BodyStarts(x.body, x.after + end);
    FieldColon(text, q1, x, t4);
    var q3 := q1 + |x.behind| + |Colon(x)| + |x.colon|;
    SitsParts(text, q3, BodyText(x.body), x.after + end);
    FieldRead(text, q3, x, w, f);
    FieldEnd(text, q3, x, end);
  }

  lemma FieldTextLength(x: Field, end: string)
    ensures |FieldText(x, end)| == |x.before| + |Literal(x.key)| + |x.behind| + |Colon(x)| + |x.colon| + |BodyText(x.body)| + |x.after| + |end|
  {
    hide BodyText, Literal, Colon;
  }

  lemma FieldKey(text: string, p: nat, x: Field, end: string)
    requires FieldOk(x) && Sits(text, p, FieldText(x, end))
    ensures var q := SkipWs(text, p);
            && At(text, q) == '"' && ReadString(text, q) == (Kept(x.key), p + |x.before| + |Literal(x.key)|)
            && Sits(text, p + |x.before| + |Literal(x.key)|, x.behind + (Colon(x) + (x.colon + (BodyText(x.body) + (x.after + end)))))
  {
    hide Sits, SkipWs, At, ReadString, BodyText, Kept, SpeltAll, Blank, AllProper, ItemOk, Colon;
    var t1 := x.behind + (Colon(x) + (x.colon + (BodyText(x.body) + (x.after + end))));
    Past(text, p, x.before, Literal(x.key) + t1);
    var q := p + |x.before|;
    SitsParts(text, q, Literal(x.key), t1);
    LiteralReads(text, q, x.key);
  }

  lemma FieldColon(text: string, p: nat, x: Field, rest: string)
    requires FieldOk(x) && Sits(text, p, x.behind + (Colon(x) + (x.colon + rest))) && rest != "" && !IsWs(rest[0]) && rest[0] != ':'
    ensures var q := SkipWs(text, p);
            && SkipWs(text, if At(text, q) == ':' then q + 1 else q) == p + |x.behind| + |Colon(x)| + |x.colon|
            && Sits(text, p + |x.behind| + |Colon(x)| + |x.colon|, rest)
  {
    hide Sits, SkipWs, At, BodyText, Kept, Blank, AllProper, ItemOk;
    if x.mark {
      Past(text, p, x.behind, ":" + (x.colon + rest));
      var q := p + |x.behind|;
      Mark(text, q, ':', x.colon + rest);
      Past(text, q + 1, x.colon, rest);
    } else {
      assert x.behind + ("" + (x.colon + rest)) == (x.behind + x.colon) + rest;
      BothBlank(x);
      Past(text, p, x.behind + x.colon, rest);
    }
  }

  lemma BothBlank(x: Field)
    requires FieldOk(x)
    ensures Blank(x.behind + x.colon)
  {
    hide AllProper, Kept, ItemOk;
  }

  lemma FieldEnd(text: string, p: nat, x: Field, end: string)
    requires FieldOk(x) && Sits(text, p, BodyText(x.body) + (x.after + end)) && !IsWs(At(text, p + |BodyText(x.body)| + |x.after|))
    ensures var q := p + |BodyText(x.body)| + |x.after|; SkipWs(text, p + |BodyText(x.body)|) == q && Sits(text, q, end)
  {
    hide Sits, SkipWs, At, BodyText, Kept, Blank, AllProper, ItemOk;
    SitsParts(text, p, BodyText(x.body), x.after + end);
    SitsParts(text, p + |BodyText(x.body)|, x.after, end);
    BlankSkipped(text, p + |BodyText(x.body)|, x.after);
  }

  lemma BodyStarts(b: Body, rest: string)
    ensures BodyText(b) != "" && (BodyText(b) + rest)[0] == BodyText(b)[0] && !IsWs(BodyText(b)[0]) && BodyText(b)[0] != ':'
  {
    hide ItemsText;
  }

  /** Fields, up to the brace behind the last; or up to where there is neither a brace nor
      another field. */
  lemma FieldsRead(text: string, p: nat, fs: seq<Field>, end: string, w: Fields, f: Reals)
    requires fs != [] && FieldsOk(fs) && Sits(text, p, FieldsText(fs, end))
    requires var c := At(text, p + |FieldsText(fs, end)| - |end|); !IsWs(c) && c != ','
    ensures var q := p + |FieldsText(fs, end)| - |end|;
            ReadFields(text, p, w, f) == (Gathered(fs, w, f), if At(text, q) == '}' then q + 1 else q)
    decreases fs, 0
  {
    hide Sits, FieldOk, ReadFields, Gathered, FieldText, With, At;
    if |fs| > 1 {
      var more := "," + FieldsText(fs[1..], end);
      var q := p + |FieldText(fs[0], more)| - |more|;
      CommaNext(text, p, fs[0], more, FieldsText(fs[1..], end));
      OneFieldRead(text, p, fs[0], more, w, f);
      GatheredMore(fs, w, f);
      FieldsRead(text, q + 1, fs[1..], end, With(fs[0], w, f), f);
    } else {
      OneFieldRead(text, p, fs[0], end, w, f);
      assert fs == [fs[0]];
      GatheredOne(fs[0], w, f);
    }
  }

  lemma CommaNext(text: string, p: nat, x: Field, more: string, rest: string)
    requires Sits(text, p, FieldText(x, more)) && more == "," + rest
    ensures var q := p + |FieldText(x, more)| - |more|; At(text, q) == ',' && Sits(text, q + 1, rest)
  {
    hide Sits, At, Literal, BodyText;
    var q := p + |FieldText(x, more)| - |more|;
    FieldTextLength(x, more);
    var front := x.before + Literal(x.key) + x.behind + Colon(x) + x.colon + BodyText(x.body) + x.after;
    assert FieldText(x, more) == front + more;
    SitsParts(text, p, front, more);
    Mark(text, q, ',', rest);
  }

  /** An object, however it is laid out, is read to its end, as the node it stands for. */
  lemma ObjReads(text: string, p: nat, o: Obj, f: Reals)
    requires ObjOk(o) && Sits(text, p, ObjText(o))
    ensures ReadNode(text, p, f) == (Some(Stands(o, f)), p + |ObjText(o)|) && At(text, p) == '{'
    decreases o, 2
  {
    hide Sits, Blank, FieldOk, ReadFields, FieldsText, Gathered, Stands, At, Finish;
    if o.fields == [] {
      Mark(text, p, '{', o.inner + "}");
      Past(text, p + 1, o.inner, "}");
      FinishNothing(o, f);
    } else {
      Mark(text, p, '{', FieldsText(o.fields, "}"));
      EndSits(text, p + 1, o.fields, "}");
      FirstOf(text, p + |ObjText(o)| - 1, "}");
      FieldsRead(text, p + 1, o.fields, "}", NO_FIELDS, f);
      FieldsSkipped(text, p + 1, NO_FIELDS, f);
      FieldsStart(text, p + 1, o.fields, "}");
      FinishGathered(o, f);
    }
  }

  lemma {:induction false} EndSits(text: string, p: nat, fs: seq<Field>, end: string)
    requires fs != [] && Sits(text, p, FieldsText(fs, end))
    ensures Sits(text, p + |FieldsText(fs, end)| - |end|, end)
    decreases |fs|
  {
    hide Sits, FieldText;
    if |fs| > 1 {
      var more := "," + FieldsText(fs[1..], end);
      CommaNext(text, p, fs[0], more, FieldsText(fs[1..], end));
      EndSits(text, p + |FieldText(fs[0], more)| - |more| + 1, fs[1..], end);
    } else {
      FieldTail(text, p, fs[0], end);
    }
  }

  lemma FieldTail(text: string, p: nat, x: Field, end: string)
    requires Sits(text, p, FieldText(x, end))
    ensures Sits(text, p + |FieldText(x, end)| - |end|, end)
  {
    hide Sits, Literal, BodyText;
    FieldTextLength(x, end);
    var front := x.before + Literal(x.key) + x.behind + Colon(x) + x.colon + BodyText(x.body) + x.after;
    assert FieldText(x, end) == front + end;
    SitsParts(text, p, front, end);
  }

  lemma FieldsStart(text: string, p: nat, fs: seq<Field>, end: string)
    requires fs != [] && FieldsOk(fs) && Sits(text, p, FieldsText(fs, end))
    ensures At(text, SkipWs(text, p)) == '"'
  {
    hide Sits, SkipWs, At, FieldOk;
    FieldKey(text, p, fs[0], if |fs| == 1 then end else "," + FieldsText(fs[1..], end));
  }

  lemma FinishGathered(o: Obj, f: Reals)
    requires ObjOk(o)
    ensures Finish(Gathered(o.fields, NO_FIELDS, f), f) == Stands(o, f)
  {
    hide LastString, LastList, FieldOk;
  }

  lemma FinishNothing(o: Obj, f: Reals)
    requires ObjOk(o) && o.fields == []
    ensures Finish(NO_FIELDS, f) == Stands(o, f)
  {}

  /** A text that is an object, blank space before it and anything behind. */
  ghost predicate Laid(text: string, before: string, o: Obj, after: string) {
    Blank(before) && ObjOk(o) && text == before + (ObjText(o) + after)
  }

  /** Whatever the layout, the escapes and the order of the fields, a text is read as the
      node it stands for; what follows the object is not looked at. */
  lemma TextReads(text: string, before: string, o: Obj, after: string, f: Reals)
    requires Laid(text, before, o, after)
    ensures ReadText(text, f) == Some(Stands(o, f))
  {
    hide ObjOk, ReadNode, Stands, Blank, SkipWs, At, ObjText;
    assert Sits(text, 0, text);
    ObjStarts(o, after);
    Past(text, 0, before, ObjText(o) + after);
    SitsParts(text, |before|, ObjText(o), after);
    ObjReads(text, |before|, o, f);
  }

  /** An object whose fields break off, at the end of the text or at anything that is neither
      comma nor brace, is what its fields until there make it. */
  lemma BrokenReads(before: string, o: Obj, end: string, f: Reals)
    requires Blank(before) && ObjOk(o) && o.fields != [] && (end == "" || (!IsWs(end[0]) && end[0] != ',' && end[0] != '}'))
    ensures ReadText(before + ("{" + FieldsText(o.fields, end)), f) == Some(Stands(o, f))
  {
    hide FieldOk, ReadFields, Stands, Blank, SkipWs, At, FieldsText, Finish, Gathered, Sits;
    var text := before + ("{" + FieldsText(o.fields, end));
    assert Sits(text, 0, text) by { WholeSits(text); }
    Past(text, 0, before, "{" + FieldsText(o.fields, end));
    var p := |before|;
    Mark(text, p, '{', FieldsText(o.fields, end));
    EndSits(text, p + 1, o.fields, end);
    if end != "" { FirstOf(text, |text| - |end|, end); } else { AtTheEnd(text); }
    FieldsRead(text, p + 1, o.fields, end, NO_FIELDS, f);
    FieldsSkipped(text, p + 1, NO_FIELDS, f);
    FieldsStart(text, p + 1, o.fields, end);
    FinishGathered(o, f);
  }

  lemma WholeSits(text: string)
    ensures Sits(text, 0, text)
  {}

  lemma AtTheEnd(text: string)
    ensures At(text, |text|) == '\0'
  {}

  /** A literal that stands at p is s, and q is behind it. */
  ghost predicate Quoting(text: string, p: nat, s: string, q: nat) {
    forall us :: Quotes(text, p, us) ==> s == Kept(us) && q == p + |Literal(us)|
  }

  lemma LiteralsRead(text: string, p: nat)
    ensures Quoting(text, p, ReadString(text, p).0, ReadString(text, p).1)
  {
    hide Literal, Kept, AllProper, ReadString;
    forall us | Quotes(text, p, us) ensures ReadString(text, p) == (Kept(us), p + |Literal(us)|) { LiteralReads(text, p, us); }
  }

  /** A string literal at a place of a text. */
  ghost predicate Quotes(text: string, p: nat, us: seq<Unit>) {
    AllProper(us) && Sits(text, p, Literal(us))
  }

  // ---- what is printed --------------------------------------------------------------------

  /** A character is printed by its two-character escape if it has one (a slash is printed as
      it is), by its code if it is a control character, or as it is. */
  lemma PrintedCharacter(c: char)
    ensures forall letter :: letter in SHORTS && letter != '/' && SHORTS[letter] == c ==> Escaped(c) == "\\" + [letter]
    ensures (c as int) < 32 && c !in SHORTS.Values ==>
              exists d: string :: |d| == 4 && Escaped(c) == "\\u" + d && (forall i :: 0 <= i < 4 ==> d[i] in LOWER) && Number(d) == c as int
    ensures (c as int) >= 32 && c != '"' && c != '\\' ==> Escaped(c) == [c]
  {
    hide LOWER, UPPER, HexDigit, Number;
    if (c as int) < 32 && c !in SHORTS.Values {
      var d := "00" + [HexDigit(c as nat / 16), HexDigit(c as nat % 16)];
      ShortValues();
      assert Escaped(c) == "\\u" + d;
      ControlNumber(c as nat);
    }
  }

  lemma ShortValues()
    ensures forall letter :: letter in SHORTS ==> SHORTS[letter] in SHORTS.Values
    ensures 8 as char in SHORTS.Values && 9 as char in SHORTS.Values && 10 as char in SHORTS.Values
    ensures 12 as char in SHORTS.Values && 13 as char in SHORTS.Values
  {
    assert SHORTS['b'] == 8 as char && SHORTS['t'] == 9 as char && SHORTS['n'] == 10 as char && SHORTS['f'] == 12 as char && SHORTS['r'] == 13 as char;
  }

  lemma LowerHex(k: nat)
    requires k < 16
    ensures HexDigit(k) in LOWER && Hex(HexDigit(k)) && DigitOf(HexDigit(k)) == k
  {
    DigitsAre(k);
    var c := HexDigit(k);
    assert LOWER[k] == c && c in LOWER;
    DigitsAre(Place(c, LOWER));
  }

  lemma ControlNumber(n: nat)
    requires n < 32
    ensures var d := "00" + [HexDigit(n / 16), HexDigit(n % 16)];
            |d| == 4 && (forall i :: 0 <= i < 4 ==> d[i] in LOWER) && Number(d) == n
  {
    hide LOWER, UPPER;
    LowerHex(0);
    LowerHex(n / 16);
    LowerHex(n % 16);
    assert HexDigit(0) == '0';
    var d := "00" + [HexDigit(n / 16), HexDigit(n % 16)];
    assert d[0] == '0' && d[1] == '0' && d[2] == HexDigit(n / 16) && d[3] == HexDigit(n % 16);
  }

  function Commas(ss: seq<string>): string {
    if ss == [] then "" else if |ss| == 1 then ss[0] else ss[0] + ("," + Commas(ss[1..]))
  }

  lemma {:induction false} ItemsPrinted(ts: seq<Tree>, texts: seq<string>, f: Reals)
    requires |texts| == |ts| && forall i :: 0 <= i < |ts| ==> texts[i] == Print(ts[i], f)
    ensures PrintItems(ts, f) == Commas(texts)
    decreases |ts|
  {
    hide Print;
    if |ts| > 1 { ItemsPrinted(ts[1..], texts[1..], f); }
  }

  /** A key in quotes, a colon, what stands behind it, and the rest. */
  function Pair(key: string, body: string, rest: string): string {
    "\"" + key + "\":" + body + rest
  }

  lemma PlainMember(key: string, body: string, rest: string)
    requires forall i :: 0 <= i < |key| ==> 'a' <= key[i] <= 'z'
    ensures Member(key, body) + rest == Pair(key, body, rest)
  {
    hide Quoted;
    PlainQuoted(key);
  }

  lemma NamePrinted(body: string, rest: string)
    ensures Member("name", body) + rest == Pair("name", body, rest)
  {
    hide Member, Pair;
    PlainMember("name", body, rest);
  }

  lemma TypePrinted(body: string, rest: string)
    ensures Member("type", body) + rest == Pair("type", body, rest)
  {
    hide Member, Pair;
    PlainMember("type", body, rest);
  }

  lemma ValuePrinted(body: string, rest: string)
    ensures Member("value", body) + rest == Pair("value", body, rest)
  {
    hide Member, Pair;
    PlainMember("value", body, rest);
  }

  lemma PropsPrinted(body: string, rest: string)
    ensures Member("props", body) + rest == Pair("props", body, rest)
  {
    hide Member, Pair;
    PlainMember("props", body, rest);
  }

  lemma KidsPrinted(body: string, rest: string)
    ensures Member("children", body) + rest == Pair("children", body, rest)
  {
    hide Member, Pair;
    PlainMember("children", body, rest);
  }

  lemma PlainQuoted(s: string)
    requires forall i :: 0 <= i < |s| ==> 'a' <= s[i] <= 'z'
    ensures Quoted(s) == "\"" + s + "\""
  {
    assert forall i :: 0 <= i < |s| ==> s[i] != '\0';
    PlainEscaped(s);
  }

  lemma {:induction false} PlainEscaped(s: string)
    requires forall i :: 0 <= i < |s| ==> 'a' <= s[i] <= 'z'
    ensures EscapedAll(s) == s
  {
    if s != "" { PlainEscaped(s[1..]); }
  }

  /** A node is printed on one line, its five members in this order, its lists as the texts
      of their nodes with commas between them. */
  lemma PrintedNode(t: Tree, props: seq<string>, kids: seq<string>, f: Reals)
    requires |props| == |t.props| && forall i :: 0 <= i < |props| ==> props[i] == Print(t.props[i], f)
    requires |kids| == |t.kids| && forall i :: 0 <= i < |kids| ==> kids[i] == Print(t.kids[i], f)
    ensures Print(t, f) == "{" + Pair("name", Quoted(t.name), ","
                               + Pair("type", Quoted(TypeName(t.value)), ","
                               + Pair("value", Quoted(ShowValue(t.value, f)), ","
                               + Pair("props", "[" + (Commas(props) + "]"), ","
                               + Pair("children", "[" + (Commas(kids) + "]"), "}")))))
  {
    hide *;
    PartsPrinted(t, f);
    ListPrinted(t.props, props, f);
    ListPrinted(t.kids, kids, f);
    NamePrinted(Quoted(t.name), "," + FromType(t, f));
    TypePrinted(Quoted(TypeName(t.value)), "," + FromValue(t, f));
    ValuePrinted(Quoted(ShowValue(t.value, f)), "," + FromProps(t, f));
    PropsPrinted(PrintList(t.props, f), "," + FromKids(t, f));
    KidsPrinted(PrintList(t.kids, f), "}");
  }

  lemma ListPrinted(ts: seq<Tree>, texts: seq<string>, f: Reals)
    requires |texts| == |ts| && forall i :: 0 <= i < |ts| ==> texts[i] == Print(ts[i], f)
    ensures PrintList(ts, f) == "[" + (Commas(texts) + "]")
  {
    ItemsPrinted(ts, texts, f);
    hide PrintItems, Commas;
  }

  lemma PartsPrinted(t: Tree, f: Reals)
    ensures Print(t, f) == "{" + FromName(t, f)
    ensures FromName(t, f) == Member("name", Quoted(t.name)) + ("," + FromType(t, f))
    ensures FromType(t, f) == Member("type", Quoted(TypeName(t.value))) + ("," + FromValue(t, f))
    ensures FromValue(t, f) == Member("value", Quoted(ShowValue(t.value, f))) + ("," + FromProps(t, f))
    ensures FromProps(t, f) == Member("props", PrintList(t.props, f)) + ("," + FromKids(t, f))
    ensures FromKids(t, f) == Member("children", PrintList(t.kids, f)) + "}"
  {
    hide Member, Quoted, PrintList, TypeName, ShowValue;
  }
}
