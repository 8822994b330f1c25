/** Node trees as JSON text (src/node.c): what the encoder prints, what the parser
    reads, and that the one undoes the other. A char stands for a byte. */
module JsonModel {
  import opened Common
  import opened Decimal

  /** A value and its type. */
  datatype Value = Text(text: string) | Integer(i: int) | Hex(digits: string) | Real(r: real) | Long(n: int)

  datatype Tree = Tree(name: string, value: Value, props: seq<Tree>, kids: seq<Tree>)

  /** How the C library prints a double with %f, and reads one with atof. */
  datatype Reals = Reals(show: real -> string, read: string -> real)

  // ---- printing -----------------------------------------------------------------

  function Escaped(c: char): string {
    match c
    case '"' => "\\\""
    case '\\' => "\\\\"
    case '\n' => "\\n"
    case '\r' => "\\r"
    case '\t' => "\\t"
    case '\U{08}' => "\\b"
    case '\U{0C}' => "\\f"
    case _ => if c < ' ' then "\\u00" + [HexDigit(c as nat / 16), HexDigit(c as nat % 16)] else [c]
  }

  function EscapedAll(s: string): string {
    if s == "" then "" else Escaped(s[0]) + EscapedAll(s[1..])
  }

  /** A C string ends at its first NUL. */
  function Cut(s: string): (r: string)
    ensures '\0' !in r && ('\0' !in s ==> r == s)
  {
    if s == "" || s[0] == '\0' then "" else [s[0]] + Cut(s[1..])
  }

  function Quoted(s: string): string {
    "\"" + (EscapedAll(Cut(s)) + "\"")
  }

  function TypeName(v: Value): string {
    match v
    case Text(_) => "string"
    case Integer(_) => "integer"
    case Hex(_) => "hex"
    case Real(_) => "real"
    case Long(_) => "long"
  }

  function ShowValue(v: Value, f: Reals): string {
    match v
    case Text(s) => s
    case Integer(i) => Show(i)
    case Hex(d) => d
    case Real(r) => f.show(r)
    case Long(n) => Show(n)
  }

  function Member(key: string, body: string): string {
    Quoted(key) + (":" + body)
  }

  function Print(t: Tree, f: Reals): string
    decreases t, 8
  {
    "{" + FromName(t, f)
  }

  /** The text of a node from one of its members on. */
  function FromName(t: Tree, f: Reals): string
    decreases t, 7
  {
    Member("name", Quoted(t.name)) + ("," + FromType(t, f))
  }

  function FromType(t: Tree, f: Reals): string
    decreases t, 6
  {
    Member("type", Quoted(TypeName(t.value))) + ("," + FromValue(t, f))
  }

  function FromValue(t: Tree, f: Reals): string
    decreases t, 5
  {
    Member("value", Quoted(ShowValue(t.value, f))) + ("," + FromProps(t, f))
  }

  function FromProps(t: Tree, f: Reals): string
    decreases t, 4
  {
    Member("props", PrintList(t.props, f)) + ("," + FromKids(t, f))
  }

  function FromKids(t: Tree, f: Reals): string
    decreases t, 3
  {
    Member("children", PrintList(t.kids, f)) + "}"
  }

  function PrintList(ts: seq<Tree>, f: Reals): string
    decreases ts, 2
  {
    "[" + (PrintItems(ts, f) + "]")
  }

  function PrintItems(ts: seq<Tree>, f: Reals): string
    decreases ts, 1
  {
    if ts == [] then ""
    else if |ts| == 1 then Print(ts[0], f)
    else Print(ts[0], f) + ("," + PrintItems(ts[1..], f))
  }

  // ---- reading ------------------------------------------------------------------

  /** Past the end of the text there is a NUL. */
  function At(text: string, p: nat): char {
    if p < |text| then text[p] else '\0'
  }

  function Left(text: string, p: nat): nat {
    if p < |text| then |text| - p else 0
  }

  predicate IsWs(c: char) {
    c == ' ' || c == '\t' || c == '\n' || c == '\r'
  }

  function SkipWs(text: string, p: nat): (q: nat)
    ensures p <= q && !IsWs(At(text, q))
    ensures !IsWs(At(text, p)) ==> q == p
    decreases Left(text, p)
  {
    if IsWs(At(text, p)) then SkipWs(text, p + 1) else p
  }

  /** One hex digit more; anything else only shifts. */
  function Nibble(cp: nat, h: char): (r: nat)
    ensures r < 16 * cp + 16
  {
    16 * cp + (if '0' <= h <= '9' then h as nat - '0' as nat
               else if 'a' <= h <= 'f' then h as nat - 'a' as nat + 10
               else if 'A' <= h <= 'F' then h as nat - 'A' as nat + 10
               else 0)
  }

  function CodePoint(text: string, p: nat): (cp: nat)
    ensures cp < 0x10000
  {
    Nibble(Nibble(Nibble(Nibble(0, At(text, p)), At(text, p + 1)), At(text, p + 2)), At(text, p + 3))
  }

  /** A code point of the basic plane as UTF-8 bytes. */
  function Utf8(cp: nat): string
    requires cp < 0x10000
  {
    if cp < 0x80 then [cp as char]
    else if cp < 0x800 then [(0xC0 + cp / 64) as char, (0x80 + cp % 64) as char]
    else [(0xE0 + cp / 4096) as char, (0x80 + cp / 64 % 64) as char, (0x80 + cp % 64) as char]
  }

  /** What follows a backslash at p, and where the text goes on. */
  function Unescape(text: string, p: nat): (string, nat) {
    match At(text, p)
    case '"' => ("\"", p + 1)
    case '\\' => ("\\", p + 1)
    case '/' => ("/", p + 1)
    case 'n' => ("\n", p + 1)
    case 'r' => ("\r", p + 1)
    case 't' => ("\t", p + 1)
    case 'b' => ("\U{08}", p + 1)
    case 'f' => ("\U{0C}", p + 1)
    case 'u' => (Utf8(CodePoint(text, p + 1)), p + 5)
    case _ => ("", p + 1)
  }

  /** The rest of a string, up to its closing quote or the end of the text. */
  function ReadChars(text: string, p: nat): (r: (string, nat))
    ensures p <= r.1
    decreases Left(text, p)
  {
    var c := At(text, p);
    if c == '\0' then ("", p)
    else if c == '"' then ("", p + 1)
    else
      var (piece, q) := if c == '\\' then Unescape(text, p + 1) else ([c], p + 1);
      var (rest, end) := ReadChars(text, q);
      (piece + rest, end)
  }

  /** How many characters reading takes for the next piece of a string: one, or those
      of an escape, whether they are there or not. */
  function PieceLength(s: string): (n: nat)
    requires s != ""
    ensures n >= 1
  {
    if s[0] != '\\' then 1 else if |s| > 1 && s[1] == 'u' then 6 else 2
  }

  /** How many characters reading takes for the rest of a string. */
  function StringLength(s: string): nat
    decreases |s|
  {
    if s == "" then 0
    else if s[0] == '"' then 1
    else PieceLength(s) + if PieceLength(s) <= |s| then StringLength(s[PieceLength(s)..]) else 0
  }

  /** No quote closes it, and the text stops inside an escape. */
  predicate CutShort(s: string) {
    StringLength(s) > |s|
  }

  lemma {:induction false} ReadsItsLength(text: string, p: nat)
    requires '\0' !in text && p <= |text|
    ensures ReadChars(text, p).1 == p + StringLength(text[p..])
    decreases |text| - p
  {
    var s := text[p..];
    if s != "" && s[0] != '"' {
      var n := PieceLength(s);
      PieceRead(text, p);
      hide PieceLength, Unescape;
      if n <= |s| {
        assert s[n..] == text[p + n..];
        ReadsItsLength(text, p + n);
      }
    }
  }

  lemma PieceRead(text: string, p: nat)
    requires '\0' !in text && p < |text| && text[p] != '"'
    ensures ReadChars(text, p).1 == ReadChars(text, p + PieceLength(text[p..])).1
    ensures p + PieceLength(text[p..]) > |text| ==> ReadChars(text, p).1 == p + PieceLength(text[p..])
  {
    var s := text[p..];
    assert s[0] == text[p] && (|s| > 1 ==> s[1] == text[p + 1]);
  }

  /** Reading a string goes on behind the end of the text exactly when the text stops
      inside an escape. */
  lemma ReadsPastTheEndIff(text: string, p: nat)
    requires '\0' !in text && p <= |text|
    ensures ReadChars(text, p).1 > |text| <==> CutShort(text[p..])
  {
    ReadsItsLength(text, p);
  }

  /** A lone backslash is such an end. */
  lemma LoneBackslash()
    ensures ReadChars("\\", 0).1 == 2
  {
    assert CutShort("\\"[0..]);
    ReadsPastTheEndIff("\\", 0);
  }

  function ReadString(text: string, p: nat): (r: (string, nat))
    ensures p <= r.1 && (At(text, p) == '"' ==> p < r.1)
  {
    if At(text, p) != '"' then ("", p) else (Cut(ReadChars(text, p + 1).0), ReadChars(text, p + 1).1)
  }

  /** The fields of an object that have been read. */
  datatype Fields = Fields(name: Option<string>, typ: Option<string>, value: Option<string>, props: seq<Tree>, kids: seq<Tree>)

  const NO_FIELDS := Fields(None, None, None, [], [])

  function ReadValue(typ: string, text: string, f: Reals): Value {
    if typ == "integer" then Integer(Atoi(text))
    else if typ == "hex" then Hex(text)
    else if typ == "real" then Real(f.read(text))
    else if typ == "long" then Long(Atol(text))
    else Text(text)
  }

  /** A node born with a type and given no value. */
  function Unset(typ: string): Value {
    if typ == "integer" then Integer(0) else if typ == "hex" then Hex("") else if typ == "real" then Real(0.0)
    else if typ == "long" then Long(0) else Text("")
  }

  function Finish(w: Fields, f: Reals): Tree {
    var typ := if w.typ.Some? then w.typ.value else "";
    Tree(if w.name.Some? then w.name.value else "",
         if w.value.Some? then ReadValue(typ, w.value.value, f) else Unset(typ), w.props, w.kids)
  }

  function ReadNode(text: string, p: nat, f: Reals): (r: (Option<Tree>, nat))
    ensures p <= r.1 && (At(text, p) == '{' ==> r.0.Some? && p < r.1) && (At(text, p) != '{' ==> r == (None, p))
    decreases Left(text, p), 0
  {
    if At(text, p) != '{' then (None, p)
    else
      var q := SkipWs(text, p + 1);
      if At(text, q) == '}' then (Some(Finish(NO_FIELDS, f)), q + 1)
      else
        var (w, end) := ReadFields(text, q, NO_FIELDS, f);
        (Some(Finish(w, f)), end)
  }

  function ReadFields(text: string, p: nat, w: Fields, f: Reals): (r: (Fields, nat))
    ensures p <= r.1
    decreases Left(text, p), 2
  {
    var q := SkipWs(text, p);
    if At(text, q) != '"' then (w, q)
    else
      var (key, q1) := ReadString(text, q);
      var q2 := SkipWs(text, q1);
      var q3 := SkipWs(text, if At(text, q2) == ':' then q2 + 1 else q2);
      var (v, q4) := ReadField(text, q3, key, w, f);
      var q5 := SkipWs(text, q4);
      if At(text, q5) == ',' then ReadFields(text, q5 + 1, v, f)
      else if At(text, q5) == '}' then (v, q5 + 1)
      else (v, q5)
  }

  /** What stands behind a key; an unknown key's string is skipped. */
  function ReadField(text: string, p: nat, key: string, w: Fields, f: Reals): (r: (Fields, nat))
    ensures p <= r.1
    decreases Left(text, p), 1
  {
    if key == "name" then var (s, q) := ReadString(text, p); (w.(name := Some(s)), q)
    else if key == "type" then var (s, q) := ReadString(text, p); (w.(typ := Some(s)), q)
    else if key == "value" then var (s, q) := ReadString(text, p); (w.(value := Some(s)), q)
    else if key == "props" then var (ts, q) := ReadArray(text, p, f); (w.(props := ts), q)
    else if key == "children" then var (ts, q) := ReadArray(text, p, f); (w.(kids := ts), q)
    else (w, ReadString(text, p).1)
  }

  function ReadArray(text: string, p: nat, f: Reals): (r: (seq<Tree>, nat))
    ensures p <= r.1
    decreases Left(text, p), 0
  {
    if At(text, p) != '[' then ([], p)
    else
      var q := SkipWs(text, p + 1);
      if At(text, q) == ']' then ([], q + 1) else ReadItems(text, q, f)
  }

  function ReadItems(text: string, p: nat, f: Reals): (r: (seq<Tree>, nat))
    ensures p <= r.1
    decreases Left(text, p), 1
  {
    var (t, q) := ReadNode(text, SkipWs(text, p), f);
    var first := if t.Some? then [t.value] else [];
    var q1 := SkipWs(text, q);
    if At(text, q1) == ',' then
      var (rest, end) := ReadItems(text, q1 + 1, f);
      (first + rest, end)
    else (first, if At(text, q1) == ']' then q1 + 1 else q1)
  }

  function ReadText(text: string, f: Reals): Option<Tree> {
    var p := SkipWs(text, 0);
    if At(text, p) != '{' then None else ReadNode(text, p, f).0
  }

  // ---- behind the end of a text -----------------------------------------------------

  /** Where the string begins that a text stops inside an escape of, if there is one:
      from p on, outside of strings, quotes are matched up. */
  function CutAt(text: string, p: nat): (r: Option<nat>)
    ensures r.Some? ==> p <= r.value < |text|
    decreases Left(text, p)
  {
    if p >= |text| then None
    else if text[p] != '"' then CutAt(text, p + 1)
    else if CutShort(text[p + 1..]) then Some(p)
    else CutAt(text, p + 1 + StringLength(text[p + 1..]))
  }

  /** From p to r, reading passed over whole strings; behind the end it comes only
      through one that is cut short. */
  predicate Passes(text: string, p: nat, r: nat) {
    p <= r && (if r <= |text| then CutAt(text, p) == CutAt(text, r) else p <= |text| ==> CutAt(text, p).Some?)
  }

  lemma Through(text: string, p: nat, q: nat, r: nat)
    requires Passes(text, p, q) && Passes(text, q, r)
    ensures Passes(text, p, r)
  {}

  lemma {:induction false} SkipPasses(text: string, p: nat)
    ensures Passes(text, p, SkipWs(text, p))
    decreases Left(text, p)
  {
    if IsWs(At(text, p)) {
      SkipPasses(text, p + 1);
      MarkPasses(text, p);
      Through(text, p, p + 1, SkipWs(text, p));
    }
  }

  lemma MarkPasses(text: string, p: nat)
    requires p < |text| && text[p] != '"'
    ensures Passes(text, p, p + 1)
  {}

  lemma StringPasses(text: string, p: nat)
    requires '\0' !in text
    ensures Passes(text, p, ReadString(text, p).1)
  {
    if At(text, p) == '"' { ReadsItsLength(text, p + 1); }
  }

  /** A mark that is there and what blank there is behind it. */
  lemma MarkAndSkip(text: string, p: nat)
    requires p < |text| && text[p] != '"'
    ensures Passes(text, p, p + 1) && Passes(text, p, SkipWs(text, p + 1))
  {
    MarkPasses(text, p);
    SkipPasses(text, p + 1);
    Through(text, p, p + 1, SkipWs(text, p + 1));
  }

  lemma {:induction false} NodePasses(text: string, p: nat, f: Reals)
    requires '\0' !in text
    ensures Passes(text, p, ReadNode(text, p, f).1)
    decreases Left(text, p), 0
  {
    hide Passes, CutAt, ReadFields;
    Nowhere(text, p);
    if At(text, p) == '{' {
      var q := SkipWs(text, p + 1);
      MarkAndSkip(text, p);
      if At(text, q) == '}' {
        MarkPasses(text, q);
        Through(text, p, q, q + 1);
      } else {
        FieldsPass(text, q, NO_FIELDS, f);
        Through(text, p, q, ReadFields(text, q, NO_FIELDS, f).1);
      }
    }
  }

  lemma Nowhere(text: string, p: nat)
    ensures Passes(text, p, p)
  {}

  lemma {:induction false} FieldsPass(text: string, p: nat, w: Fields, f: Reals)
    requires '\0' !in text
    ensures Passes(text, p, ReadFields(text, p, w, f).1)
    decreases Left(text, p), 2
  {
    hide Passes, CutAt, ReadField, ReadString, SkipWs;
    var q := SkipWs(text, p);
    SkipPasses(text, p);
    if At(text, q) == '"' {
      var (key, q1) := ReadString(text, q);
      StringPasses(text, q);
      Through(text, p, q, q1);
      var q2 := SkipWs(text, q1);
      var q3 := SkipWs(text, if At(text, q2) == ':' then q2 + 1 else q2);
      KeyPasses(text, q1);
      Through(text, p, q1, q3);
      var (v, q4) := ReadField(text, q3, key, w, f);
      FieldPasses(text, q3, key, w, f);
      Through(text, p, q3, q4);
      var q5 := SkipWs(text, q4);
      EndPasses(text, q4, ',', '}');
      Through(text, p, q4, q5);
      if At(text, q5) == ',' {
        Through(text, p, q4, q5 + 1);
        FieldsPass(text, q5 + 1, v, f);
        Through(text, p, q5 + 1, ReadFields(text, q5 + 1, v, f).1);
      } else if At(text, q5) == '}' {
        Through(text, p, q4, q5 + 1);
      }
    }
  }

  /** Blank, and the mark behind it if it is one of two. */
  lemma EndPasses(text: string, p: nat, a: char, b: char)
    requires a != '"' && b != '"' && a != '\0' && b != '\0'
    ensures var q := SkipWs(text, p); Passes(text, p, q) && (At(text, q) == a || At(text, q) == b ==> Passes(text, p, q + 1))
  {
    hide Passes, CutAt;
    var q := SkipWs(text, p);
    SkipPasses(text, p);
    if At(text, q) == a || At(text, q) == b {
      MarkPasses(text, q);
      Through(text, p, q, q + 1);
    }
  }

  /** From a key to what stands behind it. */
  lemma KeyPasses(text: string, p: nat)
    ensures var q := SkipWs(text, p); Passes(text, p, SkipWs(text, if At(text, q) == ':' then q + 1 else q))
  {
    hide Passes, CutAt;
    var q := SkipWs(text, p);
    SkipPasses(text, p);
    if At(text, q) == ':' {
      MarkAndSkip(text, q);
      Through(text, p, q, SkipWs(text, q + 1));
    }
  }

  lemma {:induction false} FieldPasses(text: string, p: nat, key: string, w: Fields, f: Reals)
    requires '\0' !in text
    ensures Passes(text, p, ReadField(text, p, key, w, f).1)
    decreases Left(text, p), 1
  {
    hide Passes, CutAt, ReadString, ReadArray;
    if key == "props" || key == "children" { ArrayPasses(text, p, f); } else { StringPasses(text, p); }
  }

  lemma {:induction false} ArrayPasses(text: string, p: nat, f: Reals)
    requires '\0' !in text
    ensures Passes(text, p, ReadArray(text, p, f).1)
    decreases Left(text, p), 0
  {
    hide Passes, CutAt, ReadItems;
    Nowhere(text, p);
    if At(text, p) == '[' {
      var q := SkipWs(text, p + 1);
      MarkAndSkip(text, p);
      if At(text, q) == ']' {
        MarkPasses(text, q);
        Through(text, p, q, q + 1);
      } else {
        ItemsPass(text, q, f);
        Through(text, p, q, ReadItems(text, q, f).1);
      }
    }
  }

  lemma {:induction false} ItemsPass(text: string, p: nat, f: Reals)
    requires '\0' !in text
    ensures Passes(text, p, ReadItems(text, p, f).1)
    decreases Left(text, p), 1
  {
    hide Passes, CutAt, ReadNode, SkipWs;
    var p1 := SkipWs(text, p);
    SkipPasses(text, p);
    var (t, q) := ReadNode(text, p1, f);
    NodePasses(text, p1, f);
    Through(text, p, p1, q);
    var q1 := SkipWs(text, q);
    EndPasses(text, q, ',', ']');
    Through(text, p, q, q1);
    if At(text, q1) == ',' {
      Through(text, p, q, q1 + 1);
      ItemsPass(text, q1 + 1, f);
      Through(text, p, q1 + 1, ReadItems(text, q1 + 1, f).1);
    } else if At(text, q1) == ']' {
      Through(text, p, q, q1 + 1);
    }
  }

  /** Where reading a whole text ends. */
  function TextEnd(text: string, f: Reals): nat {
    ReadNode(text, SkipWs(text, 0), f).1
  }

  /** Reading a whole text goes on behind its end exactly when, quotes matched up, it
      stops inside an escape of a string, and reading gets as far as that string: there
      is no other way, however objects, fields and lists are nested. */
  lemma TextReadsPastIff(text: string, f: Reals)
    requires '\0' !in text
    ensures TextEnd(text, f) > |text| <==> CutAt(text, 0).Some? && TextEnd(text, f) > CutAt(text, 0).value
  {
    var p := SkipWs(text, 0);
    SkipPasses(text, 0);
    NodePasses(text, p, f);
    Through(text, 0, p, TextEnd(text, f));
  }

  lemma FieldsReadKey(text: string, p: nat, w: Fields, f: Reals)
    requires At(text, p) == '"'
    ensures ReadFields(text, p, w, f).1 >= ReadString(text, p).1
  {
    hide ReadField, ReadString, SkipWs;
    assert SkipWs(text, p) == p;
  }

  /** The shortest such object. */
  lemma LoneBackslashText(f: Reals)
    ensures TextEnd("{\"\\", f) > 3
  {
    var text := "{\"\\";
    assert text[2..] == "\\" && CutShort(text[2..]);
    ReadsPastTheEndIff(text, 2);
    hide ReadFields, ReadChars, CutShort;
    assert SkipWs(text, 0) == 0 && SkipWs(text, 1) == 1;
    FieldsReadKey(text, 1, NO_FIELDS, f);
  }

  // ---- reading what was printed -------------------------------------------------

  ghost predicate Sits(text: string, p: nat, piece: string) {
    p + |piece| <= |text| && text[p..p + |piece|] == piece
  }

  lemma SitsParts(text: string, p: nat, a: string, b: string)
    requires Sits(text, p, a + b)
    ensures Sits(text, p, a) && Sits(text, p + |a|, b)
  {
    assert text[p..p + |a|] == (a + b)[..|a|] == a;
    assert text[p + |a|..p + |a + b|] == (a + b)[|a|..] == b;
  }

  lemma FirstOf(text: string, p: nat, piece: string)
    requires Sits(text, p, piece) && piece != ""
    ensures At(text, p) == piece[0]
  {
    assert text[p..p + |piece|][0] == text[p];
  }

  lemma EachOf(text: string, p: nat, piece: string, k: nat)
    requires Sits(text, p, piece) && k < |piece|
    ensures At(text, p + k) == piece[k]
  {
    assert text[p..p + |piece|][k] == text[p + k];
  }

  /** A character, an escape of two, or one of six that gives the code. */
  lemma EscapedShape(c: char)
    ensures var e := Escaped(c);
            && e != "" && e[0] != '"' && (|e| == 1 ==> e[0] == c && c != '\\') && (|e| > 1 ==> e[0] == '\\')
            && |e| in {1, 2, 6}
            && (|e| == 6 ==> (c as nat) < 32 && e == "\\u00" + [HexDigit(c as nat / 16), HexDigit(c as nat % 16)])
  {
    hide HexDigit;
  }

  lemma PairUnescapes(text: string, q: nat, c: char)
    requires |Escaped(c)| == 2 && At(text, q) == Escaped(c)[1]
    ensures Unescape(text, q) == ([c], q + 1)
  {
    hide At, CodePoint, HexDigit;
  }

  lemma CodeUnescapes(text: string, q: nat, n: nat)
    requires n < 32 && At(text, q) == 'u' && At(text, q + 1) == '0' && At(text, q + 2) == '0'
    requires At(text, q + 3) == HexDigit(n / 16) && At(text, q + 4) == HexDigit(n % 16)
    ensures Unescape(text, q) == ([n as char], q + 5)
  {
    hide At, HexDigit, Nibble, Utf8;
    ControlCode(n);
  }

  /** Each escape is read as the character it stands for. */
  lemma UnescapeEscaped(text: string, p: nat, c: char)
    requires c != '\0' && Sits(text, p, Escaped(c))
    ensures At(text, p) != '\0' && At(text, p) != '"'
    ensures At(text, p) == '\\' ==> Unescape(text, p + 1) == ([c], p + |Escaped(c)|)
    ensures At(text, p) != '\\' ==> At(text, p) == c && |Escaped(c)| == 1
  {
    hide Sits, Escaped, Unescape, At, HexDigit;
    var e := Escaped(c);
    EscapedShape(c);
    EachOf(text, p, e, 0);
    if |e| == 2 {
      EachOf(text, p, e, 1);
      PairUnescapes(text, p + 1, c);
    } else if |e| == 6 {
      forall k: nat | k < 6 ensures At(text, p + k) == e[k] { EachOf(text, p, e, k); }
      assert At(text, p + 1) == e[1] && At(text, p + 2) == e[2] && At(text, p + 3) == e[3];
      assert At(text, p + 4) == e[4] && At(text, p + 5) == e[5];
      CodeUnescapes(text, p + 1, c as nat);
    }
  }

  lemma ControlCode(n: nat)
    requires n < 32
    ensures Nibble(Nibble(Nibble(Nibble(0, '0'), '0'), HexDigit(n / 16)), HexDigit(n % 16)) == n && Utf8(n) == [n as char]
  {
    assert Nibble(0, '0') == 0 && Nibble(0, HexDigit(n / 16)) == n / 16;
  }

  /** One escape, then the rest. */
  lemma OneCharRead(text: string, p: nat, c: char)
    requires c != '\0' && Sits(text, p, Escaped(c))
    ensures ReadChars(text, p).0 == [c] + ReadChars(text, p + |Escaped(c)|).0
    ensures ReadChars(text, p).1 == ReadChars(text, p + |Escaped(c)|).1
  {
    hide Sits, Escaped, Unescape, At, Left;
    UnescapeEscaped(text, p, c);
  }

  lemma ClosesAt(text: string, p: nat)
    requires Sits(text, p, "\"")
    ensures ReadChars(text, p) == ("", p + 1)
  {
    FirstOf(text, p, "\"");
  }

  /** Section 7 of RFC 8259: what stands between the quotes. */
  lemma {:induction false} ReadCharsEscaped(text: string, p: nat, s: string)
    requires '\0' !in s && Sits(text, p, EscapedAll(s) + "\"")
    ensures ReadChars(text, p).0 == s
    ensures ReadChars(text, p).1 == p + |EscapedAll(s)| + 1
    decreases |s|
  {
    hide Sits, Escaped, Unescape, At, Left, ReadChars;
    if s == "" {
      assert "" + "\"" == "\"";
      ClosesAt(text, p);
    } else {
      var e, rest := Escaped(s[0]), EscapedAll(s[1..]);
      assert EscapedAll(s) + "\"" == e + (rest + "\"");
      SitsParts(text, p, e, rest + "\"");
      OneCharRead(text, p, s[0]);
      ReadCharsEscaped(text, p + |e|, s[1..]);
      assert [s[0]] + s[1..] == s;
    }
  }

  lemma ReadQuoted(text: string, p: nat, s: string)
    requires Sits(text, p, Quoted(s))
    ensures ReadString(text, p) == (Cut(s), p + |Quoted(s)|) && At(text, p) == '"'
  {
    FirstOf(text, p, Quoted(s));
    SitsParts(text, p, "\"", EscapedAll(Cut(s)) + "\"");
    ReadCharsEscaped(text, p + 1, Cut(s));
  }

  /** A tree as it comes back: strings up to their first NUL, numbers cut to their
      width, doubles as far as %f keeps them. */
  function AsRead(t: Tree, f: Reals): Tree {
    Tree(Cut(t.name), ValueAsRead(t.value, f), AllAsRead(t.props, f), AllAsRead(t.kids, f))
  }

  function ValueAsRead(v: Value, f: Reals): Value {
    match v
    case Text(s) => Text(Cut(s))
    case Integer(i) => Integer(Atoi(Show(i)))
    case Hex(d) => Hex(Cut(d))
    case Real(r) => Real(f.read(Cut(f.show(r))))
    case Long(n) => Long(Atol(Show(n)))
  }

  function AllAsRead(ts: seq<Tree>, f: Reals): (r: seq<Tree>)
    ensures |r| == |ts|
  {
    if ts == [] then [] else [AsRead(ts[0], f)] + AllAsRead(ts[1..], f)
  }

  lemma MemberParts(key: string, body: string)
    ensures Member(key, body) == Quoted(key) + (":" + body)
    ensures |Member(key, body)| == |Quoted(key)| + 1 + |body|
  {}

  /** One printed member is read, and what follows it is looked at next. */
  lemma ReadMember(text: string, p: nat, key: string, body: string, after: string, w: Fields, v: Fields, f: Reals)
    requires Sits(text, p, Member(key, body) + after) && '\0' !in key
    requires body != "" && !IsWs(body[0]) && after != "" && (after[0] == ',' || after[0] == '}')
    requires ReadField(text, p + |Quoted(key)| + 1, key, w, f) == (v, p + |Member(key, body)|)
    ensures var q := p + |Member(key, body)|;
            && Sits(text, q, after)
            && ReadFields(text, p, w, f) == if after[0] == ',' then ReadFields(text, q + 1, v, f) else (v, q + 1)
  {
    hide Sits, Quoted, ReadField, ReadString, SkipWs, At;
    SitsParts(text, p, Member(key, body), after);
    SitsParts(text, p, Quoted(key), ":" + body);
    SitsParts(text, p + |Quoted(key)|, ":", body);
    ReadQuoted(text, p, key);
    FirstOf(text, p + |Quoted(key)|, ":");
    FirstOf(text, p + |Quoted(key)| + 1, body);
    FirstOf(text, p + |Member(key, body)|, after);
  }

  lemma ReadStringMember(text: string, p: nat, key: string, s: string, after: string, w: Fields, v: Fields, f: Reals)
    requires Sits(text, p, Member(key, Quoted(s)) + ("," + after))
    requires (key == "name" && v == w.(name := Some(Cut(s)))) || (key == "type" && v == w.(typ := Some(Cut(s))))
          || (key == "value" && v == w.(value := Some(Cut(s))))
    ensures var q := p + |Member(key, Quoted(s))| + 1;
            Sits(text, q, after) && ReadFields(text, p, w, f) == ReadFields(text, q, v, f)
  {
    hide Sits, Quoted, ReadFields, ReadString, Member;
    SitsParts(text, p, Member(key, Quoted(s)), "," + after);
    MemberParts(key, Quoted(s));
    SitsParts(text, p, Quoted(key), ":" + Quoted(s));
    SitsParts(text, p + |Quoted(key)|, ":", Quoted(s));
    ReadQuoted(text, p + |Quoted(key)| + 1, s);
    ReadMember(text, p, key, Quoted(s), "," + after, w, v, f);
    SitsParts(text, p + |Member(key, Quoted(s))|, ",", after);
  }

  lemma ReadListMember(text: string, p: nat, key: string, ts: seq<Tree>, after: string, w: Fields, v: Fields, f: Reals)
    requires Sits(text, p, Member(key, PrintList(ts, f)) + after) && after != "" && (after[0] == ',' || after[0] == '}')
    requires (key == "props" && v == w.(props := AllAsRead(ts, f))) || (key == "children" && v == w.(kids := AllAsRead(ts, f)))
    ensures var q := p + |Member(key, PrintList(ts, f))|;
            && Sits(text, q, after)
            && ReadFields(text, p, w, f) == if after[0] == ',' then ReadFields(text, q + 1, v, f) else (v, q + 1)
    decreases ts, 5
  {
    hide Sits, Quoted, ReadFields, ReadString, Member, PrintItems, ReadArray, AllAsRead;
    SitsParts(text, p, Member(key, PrintList(ts, f)), after);
    MemberParts(key, PrintList(ts, f));
    SitsParts(text, p, Quoted(key), ":" + PrintList(ts, f));
    SitsParts(text, p + |Quoted(key)|, ":", PrintList(ts, f));
    ReadPrintedList(text, p + |Quoted(key)| + 1, ts, f);
    ReadMember(text, p, key, PrintList(ts, f), after, w, v, f);
  }

  lemma ReadPrintedList(text: string, p: nat, ts: seq<Tree>, f: Reals)
    requires Sits(text, p, PrintList(ts, f))
    ensures ReadArray(text, p, f).0 == AllAsRead(ts, f)
    ensures ReadArray(text, p, f).1 == p + |PrintList(ts, f)|
    decreases ts, 4
  {
    hide Print, AsRead, ReadNode, ReadItems, Sits;
    FirstOf(text, p, PrintList(ts, f));
    SitsParts(text, p, "[", PrintItems(ts, f) + "]");
    if ts == [] {
      FirstOf(text, p + 1, "]");
    } else {
      FirstOf(text, p + 1, PrintItems(ts, f) + "]");
      ReadPrintedItems(text, p + 1, ts, f);
    }
  }

  lemma ShownHasNoNul(n: int)
    ensures '\0' !in Show(n)
  {
    ShowsDigits(if n < 0 then -n else n);
  }

  lemma ReadValueShown(v: Value, f: Reals)
    ensures ReadValue(Cut(TypeName(v)), Cut(ShowValue(v, f)), f) == ValueAsRead(v, f)
  {
    assert '\0' !in TypeName(v);
    match v {
      case Integer(i) => ShownHasNoNul(i);
      case Long(n) => ShownHasNoNul(n);
      case _ =>
    }
  }

  lemma TwoParts(text: string, p: nat, whole: string, a: string, b: string)
    requires Sits(text, p, whole) && whole == a + b
    ensures Sits(text, p, a) && Sits(text, p + |a|, b) && |whole| == |a| + |b|
    ensures a != "" ==> At(text, p) == a[0]
    ensures b != "" ==> At(text, p + |a|) == b[0]
  {
    SitsParts(text, p, a, b);
    if a != "" { FirstOf(text, p, a); }
    if b != "" { FirstOf(text, p + |a|, b); }
  }

  lemma FromNameParts(t: Tree, f: Reals)
    ensures FromName(t, f) == Member("name", Quoted(t.name)) + ("," + FromType(t, f))
    ensures FromName(t, f) != "" && FromName(t, f)[0] == '"'
  {
    assert Quoted(t.name) != "" && Member("name", Quoted(t.name))[0] == '"';
  }

  /** The members before the lists. */
  lemma ReadNameTypeValue(text: string, p: nat, t: Tree, f: Reals) returns (q: nat, w: Fields)
    requires Sits(text, p, FromName(t, f))
    ensures w == Fields(Some(Cut(t.name)), Some(Cut(TypeName(t.value))), Some(Cut(ShowValue(t.value, f))), [], [])
    ensures q + |FromProps(t, f)| == p + |FromName(t, f)| && Sits(text, q, FromProps(t, f))
    ensures ReadFields(text, p, NO_FIELDS, f) == ReadFields(text, q, w, f)
  {
    hide Member, PrintList, Quoted, ReadFields, ShowValue, TypeName, Sits, Cut, FromProps;
    var w1 := NO_FIELDS.(name := Some(Cut(t.name)));
    var w2 := w1.(typ := Some(Cut(TypeName(t.value))));
    ReadStringMember(text, p, "name", t.name, FromType(t, f), NO_FIELDS, w1, f);
    var p2 := p + |Member("name", Quoted(t.name))| + 1;
    ReadStringMember(text, p2, "type", TypeName(t.value), FromValue(t, f), w1, w2, f);
    var p3 := p2 + |Member("type", Quoted(TypeName(t.value)))| + 1;
    w := w2.(value := Some(Cut(ShowValue(t.value, f))));
    ReadStringMember(text, p3, "value", ShowValue(t.value, f), FromProps(t, f), w2, w, f);
    q := p3 + |Member("value", Quoted(ShowValue(t.value, f)))| + 1;
  }

  function WithLists(w: Fields, t: Tree, f: Reals): Fields {
    Fields(w.name, w.typ, w.value, AllAsRead(t.props, f), AllAsRead(t.kids, f))
  }

  /** The lists, and the closing brace. */
  lemma {:induction false} ReadPropsKids(text: string, p: nat, t: Tree, w: Fields, f: Reals)
    requires Sits(text, p, FromProps(t, f))
    ensures ReadFields(text, p, w, f) == (WithLists(w, t, f), p + |FromProps(t, f)|)
    decreases t, 6
  {
    hide Member, PrintList, ReadFields, AllAsRead, Sits;
    var w4 := w.(props := AllAsRead(t.props, f));
    ReadListMember(text, p, "props", t.props, "," + FromKids(t, f), w, w4, f);
    var p5 := p + |Member("props", PrintList(t.props, f))|;
    TwoParts(text, p5, "," + FromKids(t, f), ",", FromKids(t, f));
    ReadListMember(text, p5 + 1, "children", t.kids, "}", w4, w4.(kids := AllAsRead(t.kids, f)), f);
  }

  lemma FinishAsRead(t: Tree, w: Fields, f: Reals)
    requires w == Fields(Some(Cut(t.name)), Some(Cut(TypeName(t.value))), Some(Cut(ShowValue(t.value, f))), [], [])
    ensures Finish(WithLists(w, t, f), f) == AsRead(t, f)
  {
    hide Cut, ValueAsRead, ReadValue, TypeName, ShowValue, AllAsRead;
    ReadValueShown(t.value, f);
  }

  lemma ReadNodeFields(text: string, p: nat, f: Reals, r: (Fields, nat))
    requires At(text, p) == '{' && At(text, p + 1) == '"' && r == ReadFields(text, p + 1, NO_FIELDS, f)
    ensures ReadNode(text, p, f).0 == Some(Finish(r.0, f)) && ReadNode(text, p, f).1 == r.1
  {
    hide ReadFields, Finish, At;
  }

  /** A printed node is read whole, and nothing beyond it. */
  lemma {:induction false} ReadPrintedNode(text: string, p: nat, t: Tree, f: Reals)
    requires Sits(text, p, Print(t, f))
    ensures ReadNode(text, p, f).0 == Some(AsRead(t, f)) && ReadNode(text, p, f).1 == p + |Print(t, f)|
    ensures At(text, p) == '{'
    decreases t, 7
  {
    hide FromName, FromProps, ReadFields, AllAsRead, AsRead, Finish, ReadNode, WithLists, ShowValue, TypeName, Sits, Cut, At;
    TwoParts(text, p, Print(t, f), "{", FromName(t, f));
    FromNameParts(t, f);
    var q, w := ReadNameTypeValue(text, p + 1, t, f);
    ReadPropsKids(text, q, t, w, f);
    var r := ReadFields(text, p + 1, NO_FIELDS, f);
    assert r == ReadFields(text, q, w, f);
    assert r.0 == WithLists(w, t, f) && r.1 == p + |Print(t, f)|;
    ReadNodeFields(text, p, f, r);
    FinishAsRead(t, w, f);
  }

  lemma {:induction false} ReadPrintedItems(text: string, p: nat, ts: seq<Tree>, f: Reals)
    requires ts != [] && Sits(text, p, PrintItems(ts, f) + "]")
    ensures ReadItems(text, p, f) == (AllAsRead(ts, f), p + |PrintItems(ts, f)| + 1)
    ensures At(text, p) == '{'
    decreases ts, 3
  {
    hide Print, Sits, At, AsRead, ReadNode;
    var node := Print(ts[0], f);
    if |ts| == 1 {
      TwoParts(text, p, PrintItems(ts, f) + "]", node, "]");
      ReadPrintedNode(text, p, ts[0], f);
      assert AllAsRead(ts, f) == [AsRead(ts[0], f)];
    } else {
      var rest := PrintItems(ts[1..], f) + "]";
      assert PrintItems(ts, f) + "]" == node + ("," + rest);
      TwoParts(text, p, PrintItems(ts, f) + "]", node, "," + rest);
      ReadPrintedNode(text, p, ts[0], f);
      TwoParts(text, p + |node|, "," + rest, ",", rest);
      ReadPrintedItems(text, p + |node| + 1, ts[1..], f);
    }
  }

  // ---- the round trip ----------------------------------------------------------

  predicate Faithful(v: Value, f: Reals) {
    match v
    case Text(s) => '\0' !in s
    case Integer(i) => INT_MIN <= i <= INT_MAX
    case Hex(d) => '\0' !in d
    case Real(r) => f.read(Cut(f.show(r))) == r
    case Long(n) => LONG_MIN <= n <= LONG_MAX
  }

  /** No NUL in any string, every number inside its type, and no double that its
      text does not give back. */
  predicate AllFaithful(t: Tree, f: Reals) {
    && '\0' !in t.name && Faithful(t.value, f)
    && (forall i :: 0 <= i < |t.props| ==> AllFaithful(t.props[i], f))
    && (forall i :: 0 <= i < |t.kids| ==> AllFaithful(t.kids[i], f))
  }

  lemma CutKeeps(s: string)
    ensures Cut(s) == s <==> '\0' !in s
  {}

  lemma {:induction false} AsReadIff(t: Tree, f: Reals)
    ensures AsRead(t, f) == t <==> AllFaithful(t, f)
    decreases t, 1
  {
    CutKeeps(t.name);
    match t.value {
      case Text(s) => CutKeeps(s);
      case Integer(i) => ReadShown(i);
      case Hex(d) => CutKeeps(d);
      case Real(r) =>
      case Long(n) => ReadShown(n);
    }
    AllAsReadIff(t.props, f);
    AllAsReadIff(t.kids, f);
  }

  lemma {:induction false} AllAsReadIff(ts: seq<Tree>, f: Reals)
    ensures AllAsRead(ts, f) == ts <==> forall i :: 0 <= i < |ts| ==> AllFaithful(ts[i], f)
    decreases ts, 0
  {
    if ts != [] {
      AsReadIff(ts[0], f);
      AllAsReadIff(ts[1..], f);
      assert AllAsRead(ts, f)[0] == AsRead(ts[0], f) && AllAsRead(ts, f)[1..] == AllAsRead(ts[1..], f);
      assert ts == [ts[0]] + ts[1..];
      assert (forall i :: 0 <= i < |ts| ==> AllFaithful(ts[i], f)) <==>
             AllFaithful(ts[0], f) && forall i :: 0 <= i < |ts[1..]| ==> AllFaithful(ts[1..][i], f);
    }
  }

  /** Whatever tree is printed, its text is read to the end; and it is the same
      tree that comes back exactly when it holds nothing the text loses. */
  lemma ReadsBack(t: Tree, f: Reals)
    ensures ReadNode(Print(t, f), 0, f) == (Some(AsRead(t, f)), |Print(t, f)|)
    ensures ReadText(Print(t, f), f) == Some(t) <==> AllFaithful(t, f)
  {
    ReadPrintedNode(Print(t, f), 0, t, f);
    FirstOf(Print(t, f), 0, Print(t, f));
    AsReadIff(t, f);
  }
}
