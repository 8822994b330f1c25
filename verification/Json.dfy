/** The JSON encoder and parser as the program runs them: a buffer that grows, a
    cursor that moves, nodes linked as they are built. */
module Json {
  import opened Common
  import opened Decimal
  import opened JsonModel
  import JsonText

  lemma Shift(a: string, b: string, c: string)
    ensures a + (b + c) == a + b + c
  {}

  lemma EscapeStep(s: string, i: nat)
    requires i < |s| && s[i] != '\0'
    ensures EscapedAll(Cut(s[i..])) == Escaped(s[i]) + EscapedAll(Cut(s[i + 1..]))
  {
    assert s[i..][0] == s[i] && s[i..][1..] == s[i + 1..];
    assert Cut(s[i..])[0] == s[i] && Cut(s[i..])[1..] == Cut(s[i + 1..]);
  }

  lemma EscapeEnd(s: string, i: nat)
    requires i == |s| || (i < |s| && s[i] == '\0')
    ensures EscapedAll(Cut(s[i..])) == ""
  {}

  /** A string under construction; buf holds it, a NUL after it, and room. */
  class StrBuf {
    var buf: array<char>
    var len: nat

    ghost predicate Valid()
      reads this, buf
    {
      len < buf.Length && buf[len] == '\0'
    }

    ghost function Text(): string
      requires Valid()
      reads this, buf
    {
      buf[..len]
    }

    constructor ()
      ensures Valid() && Text() == "" && fresh(buf)
    {
      buf := new char[256](_ => '\0');
      len := 0;
    }

    /** Append; the room doubles until the text and its NUL fit. */
    method Append(s: string)
      requires Valid()
      modifies this, buf
      ensures Valid() && Text() == old(Text()) + s
      ensures buf == old(buf) || fresh(buf)
    {
      if len + |s| + 1 > buf.Length {
        var cap := buf.Length;
        while len + |s| + 1 > cap
          invariant buf.Length <= cap && 0 < cap
          decreases len + |s| + 1 - cap
        {
          cap := cap * 2;
        }
        var bigger := new char[cap](_ => '\0');
        forall i | 0 <= i < len { bigger[i] := buf[i]; }
        assert bigger[..len] == buf[..len];
        buf := bigger;
      }
      ghost var start := buf[..len];
      forall i | 0 <= i < |s| { buf[len + i] := s[i]; }
      len := len + |s|;
      assert buf[..len] == start + s;
      buf[len] := '\0';
    }

    method AppendEscaped(c: char)
      requires Valid()
      modifies this, buf
      ensures Valid() && Text() == old(Text()) + Escaped(c)
      ensures buf == old(buf) || fresh(buf)
    {
      match c
      case '"' => Append("\\\"");
      case '\\' => Append("\\\\");
      case '\n' => Append("\\n");
      case '\r' => Append("\\r");
      case '\t' => Append("\\t");
      case '\U{08}' => Append("\\b");
      case '\U{0C}' => Append("\\f");
      case _ =>
        if c < ' ' {
          Append("\\u00" + [HexDigit(c as nat / 16), HexDigit(c as nat % 16)]);
        } else {
          Append([c]);
        }
    }

    /** A C string in quotes, escaped. */
    method AppendJsonString(s: string)
      requires Valid()
      modifies this, buf
      ensures Valid() && Text() == old(Text()) + Quoted(s)
      ensures buf == old(buf) || fresh(buf)
    {
      hide Escaped, EscapedAll, Cut;
      Append("\"");
      ghost var start := Text();
      var i := 0;
      while i < |s| && s[i] != '\0'
        invariant 0 <= i <= |s| && Valid() && (buf == old(buf) || fresh(buf))
        invariant Text() + EscapedAll(Cut(s[i..])) == start + EscapedAll(Cut(s))
      {
        EscapeStep(s, i);
        Shift(Text(), Escaped(s[i]), EscapedAll(Cut(s[i + 1..])));
        AppendEscaped(s[i]);
        i := i + 1;
      }
      EscapeEnd(s, i);
      assert Text() == start + EscapedAll(Cut(s));
      Append("\"");
      assert start + EscapedAll(Cut(s)) + "\"" == old(Text()) + Quoted(s);
    }
  }

  /** A node of the tree: sibling chains, and the parent of a child. The ghost
      fields name the chains, and the tree that hangs from here. */
  class Cell {
    var name: string
    var value: Value
    var props: Cell?
    var child: Cell?
    var nextSib: Cell?
    var parent: Cell?
    ghost var propList: seq<Cell>
    ghost var kidList: seq<Cell>
    ghost var shape: Tree

    /** The chains are what they are said to be, and so is the tree. */
    ghost predicate Stands()
      reads this, propList, kidList
    {
      && Chain(propList, props) && Chain(kidList, child)
      && shape.name == name && shape.value == value && shape.props == Shapes(propList) && shape.kids == Shapes(kidList)
      && forall i :: 0 <= i < |kidList| ==> kidList[i].parent == this
    }

    constructor (name: string, value: Value)
      ensures this.name == name && this.value == value && shape == Tree(name, value, [], [])
      ensures props == null && child == null && nextSib == null && parent == null && propList == [] && kidList == []
    {
      this.name, this.value := name, value;
      props, child, nextSib, parent := null, null, null, null;
      propList, kidList, shape := [], [], Tree(name, value, [], []);
    }
  }

  ghost function Nth(l: seq<Cell>, i: nat): Cell? {
    if i < |l| then l[i] else null
  }

  ghost predicate Chain(l: seq<Cell>, head: Cell?)
    reads l
  {
    head == Nth(l, 0) && forall i :: 0 <= i < |l| ==> l[i].nextSib == Nth(l, i + 1)
  }

  ghost function Shapes(l: seq<Cell>): (r: seq<Tree>)
    reads l
    ensures |r| == |l| && forall i :: 0 <= i < |l| ==> r[i] == l[i].shape
  {
    seq(|l|, i requires 0 <= i < |l| reads l => l[i].shape)
  }

  /** The lists of a node stay inside s. */
  ghost predicate Owns(m: Cell, s: set<Cell>)
    reads m
  {
    && (forall i :: 0 <= i < |m.propList| ==> m.propList[i] in s)
    && (forall i :: 0 <= i < |m.kidList| ==> m.kidList[i] in s)
  }

  /** All of s, built. */
  ghost predicate Built(s: set<Cell>)
    reads s
  {
    forall m :: m in s ==> Owns(m, s) && m.Stands()
  }

  /** No list of m has a node of l in it. */
  ghost predicate Free(m: Cell, l: seq<Cell>)
    reads m
  {
    && (forall i :: 0 <= i < |m.propList| ==> m.propList[i] !in l)
    && (forall i :: 0 <= i < |m.kidList| ==> m.kidList[i] !in l)
  }

  /** Built, with the nodes of l at the top. */
  ghost predicate Forest(l: seq<Cell>, s: set<Cell>)
    reads s
  {
    && Built(s) && ListIn(l, s) && (forall i, j :: 0 <= i < j < |l| ==> l[i] != l[j])
    && forall m :: m in s ==> Free(m, l)
  }

  twostate predicate SameButSib(m: Cell)
    reads m
  {
    && m.name == old(m.name) && m.value == old(m.value) && m.props == old(m.props) && m.child == old(m.child)
    && m.parent == old(m.parent) && m.propList == old(m.propList) && m.kidList == old(m.kidList) && m.shape == old(m.shape)
  }

  twostate predicate SameButParent(m: Cell)
    reads m
  {
    && m.name == old(m.name) && m.value == old(m.value) && m.props == old(m.props) && m.child == old(m.child)
    && m.nextSib == old(m.nextSib) && m.propList == old(m.propList) && m.kidList == old(m.kidList) && m.shape == old(m.shape)
  }

  /** A list of the forest s, and the tree of t that is put at its end. */
  datatype Join = Join(list: seq<Cell>, s: set<Cell>, head: Cell?, n: Cell, t: set<Cell>)

  /** Nothing changed but the last sibling pointer of the list. */
  twostate predicate Joined(j: Join)
    requires j.list != []
    reads j.s, j.t, j.list
  {
    var tail := j.list[|j.list| - 1];
    && tail in j.s && tail.nextSib == j.n && SameButSib(tail)
    && forall m :: m in j.s + j.t && m != tail ==> unchanged(m)
  }

  /** A tree appended to a list, by its last node's sibling pointer. */
  twostate lemma Appended(j: Join)
    requires j.list != [] && old(Forest(j.list, j.s)) && old(Chain(j.list, j.head))
    requires old(Forest([j.n], j.t)) && j.s !! j.t && old(j.n.nextSib) == null && Joined(j)
    ensures Forest(j.list + [j.n], j.s + j.t) && Chain(j.list + [j.n], j.head)
    ensures Shapes(j.list + [j.n]) == old(Shapes(j.list)) + [old(j.n.shape)]
  {
    hide Chain, Shapes, Owns, Free, Cell.Stands, ListIn, SameButSib;
    var Join(list, s, head, n, t) := j;
    var tail := list[|list| - 1];
    assert n in t by { InList([n], t, 0); }
    Apart(list, n, s, t);
    assert n in s + t && n != tail && t + s == s + t;
    assert forall m :: m in s && m != tail ==> m in s + t && unchanged(m);
    assert forall m :: m in t && m != tail ==> m in s + t && unchanged(m);
    AppendedChain(j);
    forall m | m in s + t ensures Owns(m, s + t) && m.Stands() && Free(m, list + [n]) {
      if m in s {
        StillIn(Part(list, [n], s, t, m, tail, list + [n]));
      } else {
        StillIn(Part([n], list, t, s, m, tail, list + [n]));
      }
    }
    ListsJoin(list, n, s, t);
  }

  lemma InList(l: seq<Cell>, s: set<Cell>, i: nat)
    requires ListIn(l, s) && i < |l|
    ensures l[i] in s
  {}

  lemma Apart(list: seq<Cell>, n: Cell, s: set<Cell>, t: set<Cell>)
    requires ListIn(list, s) && s !! t && n in t
    ensures n !in list && ListIn([n], t)
  {}

  lemma ListsJoin(list: seq<Cell>, n: Cell, s: set<Cell>, t: set<Cell>)
    requires ListIn(list, s) && n in t && s !! t && forall i, j :: 0 <= i < j < |list| ==> list[i] != list[j]
    ensures ListIn(list + [n], s + t)
    ensures forall i, j :: 0 <= i < j < |list + [n]| ==> (list + [n])[i] != (list + [n])[j]
  {}

  twostate lemma AppendedChain(j: Join)
    requires j.list != [] && old(Chain(j.list, j.head)) && ListIn(j.list, j.s) && j.n !in j.list && old(j.n.nextSib) == null
    requires forall i, k :: 0 <= i < k < |j.list| ==> j.list[i] != j.list[k]
    requires Joined(j) && j.n in j.t
    ensures Chain(j.list + [j.n], j.head)
    ensures Shapes(j.list + [j.n]) == old(Shapes(j.list)) + [old(j.n.shape)]
  {
    var list, n := j.list, j.n;
    var l := list + [n];
    assert n in j.s + j.t && unchanged(n);
    forall i | 0 <= i < |l| ensures l[i].nextSib == Nth(l, i + 1) && l[i].shape == (old(Shapes(list)) + [old(n.shape)])[i] {
      if i < |list| - 1 { assert list[i] in j.s + j.t && unchanged(list[i]); }
    }
  }

  /** A node m of one part of a forest, while the tail of one part changes. */
  datatype Part = Part(list: seq<Cell>, other: seq<Cell>, s: set<Cell>, t: set<Cell>, m: Cell, tail: Cell, all: seq<Cell>)

  /** It keeps standing in the whole. */
  twostate lemma StillIn(p: Part)
    requires old(Forest(p.list, p.s)) && p.m in p.s && p.s !! p.t && ListIn(p.other, p.t) && SameButSib(p.m)
    requires forall k :: k in p.s && k != p.tail ==> unchanged(k)
    requires p.tail in p.list + p.other
    requires forall k :: k in p.all ==> k in p.list || k in p.other
    ensures Owns(p.m, p.s + p.t) && p.m.Stands() && Free(p.m, p.all)
  {
    assert old(Owns(p.m, p.s) && p.m.Stands() && Free(p.m, p.list));
    assert old(Free(p.m, [p.tail]));
    StandsStill(Kept(p.m, p.s, [p.tail]));
  }

  /** A node m of s, while some of s changes. */
  datatype Kept = Kept(m: Cell, s: set<Cell>, changed: seq<Cell>)

  /** A node whose lists leave out what changed still stands. */
  twostate lemma StandsStill(k: Kept)
    requires k.m in k.s && old(Owns(k.m, k.s)) && old(k.m.Stands()) && old(Free(k.m, k.changed))
    requires SameButSib(k.m) || SameButParent(k.m)
    requires forall c :: c in k.s && c !in k.changed ==> unchanged(c)
    ensures Owns(k.m, k.s) && k.m.Stands() && Free(k.m, k.changed)
  {
    var m := k.m;
    assert forall i :: 0 <= i < |m.propList| ==> unchanged(m.propList[i]);
    assert forall i :: 0 <= i < |m.kidList| ==> unchanged(m.kidList[i]);
    assert Shapes(m.propList) == old(Shapes(m.propList));
    assert Shapes(m.kidList) == old(Shapes(m.kidList));
  }

  // ---- encoding -----------------------------------------------------------------

  /** What is still to be printed of a list, with the comma in front. */
  function Rest(ts: seq<Tree>, i: nat, f: Reals): string
    requires i <= |ts|
  {
    if i == 0 then PrintItems(ts, f) else if i < |ts| then "," + PrintItems(ts[i..], f) else ""
  }

  lemma RestStep(ts: seq<Tree>, i: nat, f: Reals)
    requires i < |ts|
    ensures Rest(ts, i, f) == (if i > 0 then "," else "") + (Print(ts[i], f) + Rest(ts, i + 1, f))
  {
    assert ts[i..][0] == ts[i] && ts[i..][1..] == ts[i + 1..];
    assert ts[0..] == ts;
  }

  predicate ListIn(l: seq<Cell>, s: set<Cell>) {
    forall i :: 0 <= i < |l| ==> l[i] in s
  }

  /** What is known of a node that stands. */
  lemma NodeParts(n: Cell, s: set<Cell>)
    requires Built(s) && n in s
    ensures Chain(n.propList, n.props) && ListIn(n.propList, s) && Shapes(n.propList) == n.shape.props
    ensures Chain(n.kidList, n.child) && ListIn(n.kidList, s) && Shapes(n.kidList) == n.shape.kids
    ensures n.shape.name == n.name && n.shape.value == n.value
  {
    assert Owns(n, s) && n.Stands();
  }

  lemma NextInChain(l: seq<Cell>, head: Cell?, i: nat, s: set<Cell>)
    requires Chain(l, head) && i < |l| && ListIn(l, s)
    ensures l[i] in s && head == Nth(l, 0) && l[i].nextSib == Nth(l, i + 1) && Shapes(l)[i] == l[i].shape
  {}

  lemma HeadOf(l: seq<Cell>, head: Cell?)
    requires Chain(l, head)
    ensures head == Nth(l, 0) && |Shapes(l)| == |l|
  {}

  method EncodeList(sb: StrBuf, head: Cell?, f: Reals, ghost list: seq<Cell>, ghost ts: seq<Tree>, ghost s: set<Cell>)
    requires sb.Valid() && Built(s) && Chain(list, head) && ListIn(list, s) && ts == Shapes(list)
    modifies sb, sb.buf
    ensures sb.Valid() && sb.Text() == old(sb.Text()) + PrintList(ts, f)
    ensures sb.buf == old(sb.buf) || fresh(sb.buf)
    decreases ts, 1
  {
    hide Rest, Print, PrintItems, Built, Chain, Shapes, ListIn, StrBuf.Text, StrBuf.Valid;
    HeadOf(list, head);
    sb.Append("[");
    ghost var start, i := sb.Text(), 0;
    RestStarts(ts, f);
    var current, first := head, true;
    while current != null
      invariant 0 <= i <= |list| && current == Nth(list, i) && (first <==> i == 0)
      invariant sb.Valid() && (sb.buf == old(sb.buf) || fresh(sb.buf))
      invariant Built(s) && Chain(list, head) && ts == Shapes(list)
      invariant sb.Text() + Rest(ts, i, f) == start + PrintItems(ts, f)
      decreases |list| - i
    {
      NextInChain(list, head, i, s);
      RestStep(ts, i, f);
      ghost var t := sb.Text();
      if !first { sb.Append(","); }
      first := false;
      EncodeNode(sb, current, f, s);
      FourParts(t, if i > 0 then "," else "", Print(ts[i], f), Rest(ts, i + 1, f));
      NextInChain(list, head, i, s);
      current, i := current.nextSib, i + 1;
    }
    RestEnds(ts, f);
    sb.Append("]");
    FourParts(old(sb.Text()), "[", PrintItems(ts, f), "]");
  }

  lemma FourParts(a: string, b: string, c: string, d: string)
    ensures a + (b + (c + d)) == a + b + c + d
  {}

  lemma RestStarts(ts: seq<Tree>, f: Reals)
    ensures Rest(ts, 0, f) == PrintItems(ts, f)
  {}

  lemma RestEnds(ts: seq<Tree>, f: Reals)
    ensures Rest(ts, |ts|, f) == ""
  {}

  /** A key needs no escapes. */
  lemma {:induction false} PlainIsItself(s: string)
    requires forall i :: 0 <= i < |s| ==> 'a' <= s[i] <= 'z'
    ensures EscapedAll(s) == s
  {
    if s != "" { PlainIsItself(s[1..]); }
  }

  lemma KeyText(key: string, body: string)
    requires forall i :: 0 <= i < |key| ==> 'a' <= key[i] <= 'z'
    ensures Member(key, body) == ("\"" + key + "\":") + body
  {
    PlainIsItself(key);
    assert Quoted(key) + ":" == "\"" + key + "\":";
    Shift(Quoted(key), ":", body);
  }

  lemma CommaKey(key: string, body: string, rest: string)
    requires forall i :: 0 <= i < |key| ==> 'a' <= key[i] <= 'z'
    ensures "," + (Member(key, body) + rest) == ((",\"" + key + "\":") + body) + rest
  {
    KeyText(key, body);
    assert "," + (("\"" + key + "\":") + body) == (",\"" + key + "\":") + body;
    Shift(",", Member(key, body), rest);
  }

  /** The text of a node, piece by piece as it is appended. */
  lemma PrintedInOrder(t: Tree, f: Reals)
    ensures Print(t, f) == "{" + ("\"name\":" + Quoted(t.name)) + (",\"type\":" + Quoted(TypeName(t.value)))
                         + (",\"value\":" + Quoted(ShowValue(t.value, f)))
                         + (",\"props\":" + PrintList(t.props, f)) + (",\"children\":" + PrintList(t.kids, f)) + "}"
  {
    hide Member, Quoted, PrintList, TypeName, ShowValue;
    var n, y, v := Quoted(t.name), Quoted(TypeName(t.value)), Quoted(ShowValue(t.value, f));
    var e := (",\"children\":" + PrintList(t.kids, f)) + "}";
    var d := (",\"props\":" + PrintList(t.props, f)) + e;
    var c := (",\"value\":" + v) + d;
    var b := (",\"type\":" + y) + c;
    assert "\"" + "name" + "\":" == "\"name\":" && ",\"" + "type" + "\":" == ",\"type\":" && ",\"" + "value" + "\":" == ",\"value\":";
    assert ",\"" + "props" + "\":" == ",\"props\":" && ",\"" + "children" + "\":" == ",\"children\":";
    KeyText("name", n);
    CommaKey("children", PrintList(t.kids, f), "}");
    assert "," + FromKids(t, f) == e;
    CommaKey("props", PrintList(t.props, f), e);
    assert "," + FromProps(t, f) == d;
    CommaKey("value", v, d);
    assert "," + FromValue(t, f) == c;
    CommaKey("type", y, c);
    assert "," + FromType(t, f) == b;
    Flatten("\"name\":" + n, ",\"type\":" + y, ",\"value\":" + v, ",\"props\":" + PrintList(t.props, f),
            ",\"children\":" + PrintList(t.kids, f));
  }

  lemma Flatten(a: string, b: string, c: string, d: string, e: string)
    ensures "{" + (a + (b + (c + (d + (e + "}"))))) == "{" + a + b + c + d + e + "}"
  {}

  method EncodeNode(sb: StrBuf, n: Cell, f: Reals, ghost s: set<Cell>)
    requires sb.Valid() && Built(s) && n in s
    modifies sb, sb.buf
    ensures sb.Valid() && sb.Text() == old(sb.Text()) + Print(n.shape, f)
    ensures sb.buf == old(sb.buf) || fresh(sb.buf)
    decreases n.shape, 0
  {
    hide Built, Print, Quoted, PrintList, TypeName, ShowValue, Chain, Shapes, ListIn, StrBuf.Text, StrBuf.Valid;
    ghost var t, start := n.shape, sb.Text();
    NodeParts(n, s);
    PrintedInOrder(t, f);
    Pull(start, "\"name\":" + Quoted(t.name), ",\"type\":" + Quoted(TypeName(t.value)), ",\"value\":" + Quoted(ShowValue(t.value, f)),
         ",\"props\":" + PrintList(t.props, f), ",\"children\":" + PrintList(t.kids, f));
    AppendOwn(sb, n, f);
    NodeParts(n, s);
    EncodeField(sb, ",\"props\":", n.props, f, n.propList, t.props, s);
    NodeParts(n, s);
    EncodeField(sb, ",\"children\":", n.child, f, n.kidList, t.kids, s);
    sb.Append("}");
  }

  lemma Pull(o: string, a: string, b: string, c: string, d: string, e: string)
    ensures o + "{" + a + b + c + d + e + "}" == o + ("{" + a + b + c + d + e + "}")
  {}

  /** The brace, and the three strings a node carries itself. */
  method AppendOwn(sb: StrBuf, n: Cell, f: Reals)
    requires sb.Valid()
    modifies sb, sb.buf
    ensures sb.Valid()
    ensures sb.Text() == old(sb.Text()) + "{" + ("\"name\":" + Quoted(n.name)) + (",\"type\":" + Quoted(TypeName(n.value)))
                       + (",\"value\":" + Quoted(ShowValue(n.value, f)))
    ensures sb.buf == old(sb.buf) || fresh(sb.buf)
  {
    hide Quoted, TypeName, ShowValue, StrBuf.Text, StrBuf.Valid;
    sb.Append("{");
    AppendField(sb, "\"name\":", n.name);
    AppendField(sb, ",\"type\":", TypeName(n.value));
    AppendField(sb, ",\"value\":", ShowValue(n.value, f));
  }

  method EncodeField(sb: StrBuf, prefix: string, head: Cell?, f: Reals, ghost list: seq<Cell>, ghost ts: seq<Tree>, ghost s: set<Cell>)
    requires sb.Valid() && Built(s) && Chain(list, head) && ListIn(list, s) && ts == Shapes(list)
    modifies sb, sb.buf
    ensures sb.Valid() && sb.Text() == old(sb.Text()) + (prefix + PrintList(ts, f))
    ensures sb.buf == old(sb.buf) || fresh(sb.buf)
    decreases ts, 2
  {
    hide Built, PrintList, Chain, Shapes;
    Shift(sb.Text(), prefix, PrintList(ts, f));
    sb.Append(prefix);
    EncodeList(sb, head, f, list, ts, s);
  }

  method AppendField(sb: StrBuf, prefix: string, s: string)
    requires sb.Valid()
    modifies sb, sb.buf
    ensures sb.Valid() && sb.Text() == old(sb.Text()) + (prefix + Quoted(s))
    ensures sb.buf == old(sb.buf) || fresh(sb.buf)
  {
    sb.Append(prefix);
    sb.AppendJsonString(s);
    Shift(old(sb.Text()), prefix, Quoted(s));
  }

  /** A node tree as text. */
  method NodeToText(n: Cell, f: Reals, ghost s: set<Cell>) returns (text: string)
    requires Built(s) && n in s
    ensures text == Print(n.shape, f)
  {
    var sb := new StrBuf();
    EncodeNode(sb, n, f, s);
    text := sb.buf[..sb.len];
  }

  // ---- parsing ------------------------------------------------------------------

  /** The fields of an object as they are held while it is read. */
  datatype Parts = Parts(name: Option<string>, typ: Option<string>, value: Option<string>, props: Cell?, kids: Cell?)

  /** The lists behind them, and all their nodes. */
  datatype Lists = Lists(props: seq<Cell>, propCells: set<Cell>, kids: seq<Cell>, kidCells: set<Cell>)

  const NO_PARTS := Parts(None, None, None, null, null)
  const NO_LISTS := Lists([], {}, [], {})

  ghost predicate Holding(b: Parts, h: Lists, w: Fields)
    reads h.propCells, h.kidCells, h.props, h.kids
  {
    && w == Fields(b.name, b.typ, b.value, Shapes(h.props), Shapes(h.kids))
    && Forest(h.props, h.propCells) && Chain(h.props, b.props)
    && Forest(h.kids, h.kidCells) && Chain(h.kids, b.kids) && h.propCells !! h.kidCells
  }

  /** A reader's result and where it stops. */
  predicate Gives<T(==)>(r: (T, nat), value: T, end: nat) {
    r.0 == value && r.1 == end
  }

  /** A place in a text. */
  class Cursor {
    const text: string
    var p: nat

    constructor (text: string)
      ensures this.text == text && p == 0
    {
      this.text, p := text, 0;
    }

    /** The character here; a NUL past the end. */
    function Here(): char
      reads this
    {
      At(text, p)
    }

    method SkipSpace()
      modifies this`p
      ensures p == SkipWs(text, old(p))
    {
      while IsWs(Here())
        invariant SkipWs(text, p) == SkipWs(text, old(p))
        decreases Left(text, p)
      {
        p := p + 1;
      }
    }

    /** Four hex digits, leaving the cursor on the last one. */
    method ParseHex4() returns (cp: nat)
      modifies this`p
      ensures cp == CodePoint(text, old(p) + 1) && p == old(p) + 4
    {
      var i;
      cp, i := 0, 0;
      ghost var q := p;
      while i < 4
        invariant 0 <= i <= 4 && p == q + i
        invariant cp == if i == 0 then 0 else if i == 1 then Nibble(0, At(text, q + 1))
                        else if i == 2 then Nibble(Nibble(0, At(text, q + 1)), At(text, q + 2))
                        else if i == 3 then Nibble(Nibble(Nibble(0, At(text, q + 1)), At(text, q + 2)), At(text, q + 3))
                        else CodePoint(text, q + 1)
      {
        p := p + 1;
        cp := Nibble(cp, Here());
        i := i + 1;
      }
    }

    /** One escape, after its backslash. */
    /** A character of a string, or an escape. */
    method ParsePiece(sb: StrBuf)
      requires sb.Valid()
      modifies this`p, sb, sb.buf
      ensures sb.Valid() && (sb.buf == old(sb.buf) || fresh(sb.buf))
      ensures sb.Text() == old(sb.Text()) + PieceAt(text, old(p)).0 && p == PieceAt(text, old(p)).1
    {
      hide Unescape;
      if Here() == '\\' {
        p := p + 1;
        ParseEscape(sb);
      } else {
        sb.Append([Here()]);
        p := p + 1;
      }
    }

    method ParseEscape(sb: StrBuf)
      requires sb.Valid()
      modifies this`p, sb, sb.buf
      ensures sb.Valid() && (sb.buf == old(sb.buf) || fresh(sb.buf))
      ensures sb.Text() == old(sb.Text()) + Unescape(text, old(p)).0 && p == Unescape(text, old(p)).1
    {
      match Here() {
        case '"' => sb.Append("\"");
        case '\\' => sb.Append("\\");
        case '/' => sb.Append("/");
        case 'n' => sb.Append("\n");
        case 'r' => sb.Append("\r");
        case 't' => sb.Append("\t");
        case 'b' => sb.Append("\U{08}");
        case 'f' => sb.Append("\U{0C}");
        case 'u' =>
          var cp := ParseHex4();
          sb.Append(Utf8(cp));
        case _ =>
      }
      p := p + 1;
    }

    method ParseJsonString() returns (s: string)
      modifies this`p
      ensures s == ReadString(text, old(p)).0 && p == ReadString(text, old(p)).1
      ensures JsonText.Quoting(text, old(p), s, p)
    {
      hide ReadChars, Unescape, Cut, JsonText.Quoting, PieceAt;
      JsonText.LiteralsRead(text, p);
      if Here() != '"' { return ""; }
      p := p + 1;
      ghost var whole := ReadChars(text, p);
      var sb := new StrBuf();
      while Here() != '\0' && Here() != '"'
        invariant sb.Valid() && fresh(sb) && fresh(sb.buf)
        invariant sb.Text() + ReadChars(text, p).0 == whole.0 && ReadChars(text, p).1 == whole.1
        decreases Left(text, p)
      {
        CharsStep(text, p);
        Shift(sb.Text(), PieceAt(text, p).0, ReadChars(text, PieceAt(text, p).1).0);
        ParsePiece(sb);
      }
      CharsEnd(text, p);
      assert sb.Text() == sb.Text() + "" == whole.0;
      if Here() == '"' { p := p + 1; }
      // What is done with the buffer ends at its first NUL.
      s := Cut(sb.buf[..sb.len]);
    }

    /** A list of nodes; its head, and the ghosts that say what was built. */
    method ParseArray(f: Reals) returns (head: Cell?, ghost list: seq<Cell>, ghost s: set<Cell>)
      modifies this`p
      ensures fresh(s) && Forest(list, s) && Chain(list, head)
      ensures Shapes(list) == ReadArray(text, old(p), f).0 && p == ReadArray(text, old(p), f).1
      decreases Left(text, p), 3
    {
      head, list, s := null, [], {};
      if Here() != '[' { return; }
      p := p + 1;
      SkipSpace();
      if Here() == ']' {
        p := p + 1;
        return;
      }
      head, list, s := ParseItems(f);
    }

    /** An object of the encoder's form: string fields, and two lists. */
    method ParseNodeObject(f: Reals) returns (n: Cell?, ghost s: set<Cell>)
      modifies this`p
      ensures fresh(s)
      ensures n != null <==> ReadNode(text, old(p), f).0.Some?
      ensures n != null ==> Forest([n], s) && n.nextSib == null && n.shape == ReadNode(text, old(p), f).0.value
      ensures p == ReadNode(text, old(p), f).1
      decreases Left(text, p), 0
    {
      hide ReadNode, ReadFields, SkipWs, Forest, Finish, Holding;
      NodeUnfold(text, p, f);
      if Here() != '{' { return null, {}; }
      p := p + 1;
      SkipSpace();
      HoldNothing();
      ghost var h, w := NO_LISTS, NO_FIELDS;
      var b := NO_PARTS;
      if Here() == '}' {
        p := p + 1;
      } else {
        b, h, w := ParseFields(f);
      }
      KidsHeld(b, h, w);
      n, s := Assemble(b, f, h, w);
    }

    /** The fields of an object, one after another; a later one replaces an
        earlier one of the same name. */
    method ParseFields(f: Reals) returns (b: Parts, ghost h: Lists, ghost w: Fields)
      modifies this`p
      ensures fresh(h.propCells) && fresh(h.kidCells) && Holding(b, h, w)
      ensures Gives(ReadFields(text, old(p), NO_FIELDS, f), w, p)
      decreases Left(text, p), 5
    {
      hide ReadFields, ReadField, ReadString, SkipWs, Holding, At;
      ghost var start, whole := p, ReadFields(text, p, NO_FIELDS, f);
      HoldNothing();
      b, h, w := NO_PARTS, NO_LISTS, NO_FIELDS;
      var more := true;
      while more
        invariant fresh(h.propCells) && fresh(h.kidCells) && p >= start
        invariant Holding(b, h, w)
        invariant more ==> Gives(ReadFields(text, p, w, f), whole.0, whole.1)
        invariant !more ==> w == whole.0 && p == whole.1
        decreases Left(text, p), more
      {
        FieldsUnfold(text, p, w, f);
        SkipSpace();
        if Here() != '"' {
          more := false;
        } else {
          var key := ParseJsonString();
          SkipColon();
          b, h, w := ParseField(key, b, f, h, w);
          more := SkipSeparator();
        }
      }
    }

    /** From a key to its value. */
    method SkipColon()
      modifies this`p
      ensures p == (var q := SkipWs(text, old(p)); SkipWs(text, if At(text, q) == ':' then q + 1 else q))
    {
      SkipSpace();
      if Here() == ':' { p := p + 1; }
      SkipSpace();
    }

    /** From a value to the next key, if there is one, or past the end. */
    method SkipSeparator() returns (more: bool)
      modifies this`p
      ensures more <==> At(text, SkipWs(text, old(p))) == ','
      ensures p == (var q := SkipWs(text, old(p)); if At(text, q) == ',' || At(text, q) == '}' then q + 1 else q)
    {
      SkipSpace();
      if Here() == ',' {
        p := p + 1;
        more := true;
      } else {
        if Here() == '}' { p := p + 1; }
        more := false;
      }
    }

    /** What stands behind a key. */
    method ParseField(key: string, b: Parts, f: Reals, ghost h: Lists, ghost w: Fields)
      returns (r: Parts, ghost k: Lists, ghost v: Fields)
      requires Holding(b, h, w)
      modifies this`p
      ensures Holding(r, k, v) && Gives(ReadField(text, old(p), key, w, f), v, p)
      ensures fresh(k.propCells - h.propCells) && fresh(k.kidCells - h.kidCells)
      decreases Left(text, p), 4
    {
      hide ReadString, ReadArray, Forest, Chain, Shapes;
      r, k, v := b, h, w;
      if key == "name" {
        var s := ParseJsonString();
        r, v := b.(name := Some(s)), w.(name := Some(s));
      } else if key == "type" {
        var s := ParseJsonString();
        r, v := b.(typ := Some(s)), w.(typ := Some(s));
      } else if key == "value" {
        var s := ParseJsonString();
        r, v := b.(value := Some(s)), w.(value := Some(s));
      } else if key == "props" {
        var head, list, cells := ParseArray(f);
        r, k, v := b.(props := head), h.(props := list, propCells := cells), w.(props := Shapes(list));
      } else if key == "children" {
        var head, list, cells := ParseArray(f);
        r, k, v := b.(kids := head), h.(kids := list, kidCells := cells), w.(kids := Shapes(list));
      } else if Here() == '"' {
        var skipped := ParseJsonString();
      } else {
        NotAString(text, p);
      }
    }

    method ParseItems(f: Reals) returns (head: Cell?, ghost list: seq<Cell>, ghost s: set<Cell>)
      modifies this`p
      ensures fresh(s) && Forest(list, s) && Chain(list, head)
      ensures Shapes(list) == ReadItems(text, old(p), f).0 && p == ReadItems(text, old(p), f).1
      decreases Left(text, p), 2
    {
      hide Growing, ReadItems, ReadNode, SkipWs;
      EmptyForest();
      ghost var start, whole, trees := p, ReadItems(text, p, f), [];
      var tail: Cell?, more := null, true;
      head, list, s := null, [], {};
      while more
        invariant fresh(s) && (tail != null ==> tail in s) && Growing(head, tail, list, s, trees) && p >= start
        invariant more ==> trees + ReadItems(text, p, f).0 == whole.0 && ReadItems(text, p, f).1 == whole.1
        invariant !more ==> trees == whole.0 && p == whole.1
        decreases Left(text, p), more
      {
        ItemsStep(text, p, f, trees);
        SkipSpace();
        head, tail, list, s, trees := ParseItem(head, tail, f, list, s, trees);
        SkipSpace();
        if Here() == ',' {
          p := p + 1;
        } else {
          if Here() == ']' { p := p + 1; }
          more := false;
        }
      }
      Grown(head, tail, list, s, trees);
    }

    /** One more node for a list, if there is one. */
    method ParseItem(head: Cell?, tail: Cell?, f: Reals, ghost list: seq<Cell>, ghost s: set<Cell>, ghost trees: seq<Tree>)
      returns (head': Cell?, tail': Cell?, ghost list': seq<Cell>, ghost s': set<Cell>, ghost trees': seq<Tree>)
      requires Growing(head, tail, list, s, trees)
      modifies this`p, tail
      ensures fresh(s' - s) && Growing(head', tail', list', s', trees') && (tail' != null ==> tail' in s')
      ensures var one := ReadNode(text, old(p), f).0; trees' == if one.Some? then trees + [one.value] else trees
      ensures p == ReadNode(text, old(p), f).1
      decreases Left(text, p), 1
    {
      hide Forest, Chain, Shapes, ReadNode;
      head', tail', list', s', trees' := head, tail, list, s, trees;
      var n, t := ParseNodeObject(f);
      if n != null {
        head' := Attach(head, tail, n, list, s, t, trees);
        tail', list', s', trees' := n, list + [n], s + t, trees + [n.shape];
      }
    }
  }

  /** A list being built: its ends, and what stands in it so far. */
  ghost predicate Growing(head: Cell?, tail: Cell?, list: seq<Cell>, s: set<Cell>, trees: seq<Tree>)
    reads s, list
  {
    && Forest(list, s) && Chain(list, head) && Shapes(list) == trees
    && tail == (if list == [] then null else list[|list| - 1]) && (list == [] ==> s == {}) && (tail != null ==> tail in s)
  }

  lemma CharsEnd(text: string, p: nat)
    requires At(text, p) == '\0' || At(text, p) == '"'
    ensures ReadChars(text, p).0 == "" && ReadChars(text, p).1 == if At(text, p) == '"' then p + 1 else p
  {}

  function PieceAt(text: string, p: nat): (string, nat) {
    if At(text, p) == '\\' then Unescape(text, p + 1) else ([At(text, p)], p + 1)
  }

  lemma CharsStep(text: string, p: nat)
    requires At(text, p) != '\0' && At(text, p) != '"'
    ensures var (piece, q) := PieceAt(text, p);
            && q > p && Left(text, q) < Left(text, p)
            && ReadChars(text, p).0 == piece + ReadChars(text, q).0 && ReadChars(text, p).1 == ReadChars(text, q).1
  {}

  /** Put a node at the end of a list. */
  method Attach(head: Cell?, tail: Cell?, n: Cell, ghost list: seq<Cell>, ghost s: set<Cell>, ghost t: set<Cell>, ghost trees: seq<Tree>)
    returns (first: Cell?)
    requires Growing(head, tail, list, s, trees) && Forest([n], t) && n.nextSib == null && s !! t
    modifies tail
    ensures Growing(first, n, list + [n], s + t, trees + [old(n.shape)]) && n.shape == old(n.shape)
  {
    hide Forest, Chain, Shapes;
    InForest(n, t);
    if tail != null {
      tail.nextSib := n;
      first := head;
      Appended(Join(list, s, head, n, t));
    } else {
      first := n;
      FirstOne(n, t);
      assert list + [n] == [n] && s + t == t && trees + [n.shape] == [n.shape];
    }
  }

  lemma InForest(n: Cell, t: set<Cell>)
    requires Forest([n], t)
    ensures n in t
  {
    InList([n], t, 0);
  }

  lemma Grown(head: Cell?, tail: Cell?, list: seq<Cell>, s: set<Cell>, trees: seq<Tree>)
    requires Growing(head, tail, list, s, trees)
    ensures Forest(list, s) && Chain(list, head) && Shapes(list) == trees
  {}

  lemma EmptyForest()
    ensures Growing(null, null, [], {}, [])
  {}

  lemma FirstOne(n: Cell, t: set<Cell>)
    requires Forest([n], t) && n.nextSib == null
    ensures Chain([n], n) && Shapes([n]) == [n.shape]
  {}

  function OneTree(t: Option<Tree>): seq<Tree> {
    if t.Some? then [t.value] else []
  }

  lemma ItemsUnfold(text: string, p: nat, f: Reals)
    ensures var (t, q) := ReadNode(text, SkipWs(text, p), f);
            var q1 := SkipWs(text, q);
            var next, last := ReadItems(text, q1 + 1, f), if At(text, q1) == ']' then q1 + 1 else q1;
            && q1 >= p
            && (At(text, q1) == ',' ==> Gives(ReadItems(text, p, f), OneTree(t) + next.0, next.1))
            && (At(text, q1) != ',' ==> Gives(ReadItems(text, p, f), OneTree(t), last))
  {}

  lemma Regroup(a: seq<Tree>, t: Option<Tree>, c: seq<Tree>)
    ensures a + (OneTree(t) + c) == (if t.Some? then a + [t.value] else a) + c
    ensures a + OneTree(t) == if t.Some? then a + [t.value] else a
  {
    if t.Some? { assert a + ([t.value] + c) == (a + [t.value]) + c; } else { assert a + ([] + c) == a + c && a + [] == a; }
  }

  lemma ItemsStep(text: string, p: nat, f: Reals, a: seq<Tree>)
    ensures var t := ReadNode(text, SkipWs(text, p), f).0;
            var q1 := SkipWs(text, ReadNode(text, SkipWs(text, p), f).1);
            var b, r, next := if t.Some? then a + [t.value] else a, ReadItems(text, p, f), ReadItems(text, q1 + 1, f);
            && q1 >= p
            && (At(text, q1) == ',' ==> a + r.0 == b + next.0 && r.1 == next.1)
            && (At(text, q1) != ',' ==> a + r.0 == b && r.1 == if At(text, q1) == ']' then q1 + 1 else q1)
  {
    ItemsUnfold(text, p, f);
    hide ReadNode, SkipWs, ReadItems, OneTree, At;
    var t := ReadNode(text, SkipWs(text, p), f).0;
    var q1 := SkipWs(text, ReadNode(text, SkipWs(text, p), f).1);
    Regroup(a, t, ReadItems(text, q1 + 1, f).0);
  }

  lemma KidsHeld(b: Parts, h: Lists, w: Fields)
    requires Holding(b, h, w)
    ensures ListIn(h.kids, h.kidCells)
  {}

  lemma HoldNothing()
    ensures Holding(NO_PARTS, NO_LISTS, NO_FIELDS)
  {}

  lemma NotAString(text: string, p: nat)
    requires At(text, p) != '"'
    ensures ReadString(text, p).1 == p
  {}

  lemma NodeUnfold(text: string, p: nat, f: Reals)
    ensures At(text, p) != '{' ==> ReadNode(text, p, f).0.None? && ReadNode(text, p, f).1 == p
    ensures At(text, p) == '{' ==>
            var q := SkipWs(text, p + 1);
            var (w, end) := ReadFields(text, q, NO_FIELDS, f);
            && (At(text, q) == '}' ==> Gives(ReadNode(text, p, f), Some(Finish(NO_FIELDS, f)), q + 1))
            && (At(text, q) != '}' ==> Gives(ReadNode(text, p, f), Some(Finish(w, f)), end))
  {}

  lemma FieldsUnfold(text: string, p: nat, w: Fields, f: Reals)
    ensures var q, r := SkipWs(text, p), ReadFields(text, p, w, f);
            && (At(text, q) != '"' ==> Gives(r, w, q))
            && (At(text, q) == '"' ==>
                  var key, q2 := ReadString(text, q).0, SkipWs(text, ReadString(text, q).1);
                  var q3 := SkipWs(text, if At(text, q2) == ':' then q2 + 1 else q2);
                  var v, q5 := ReadField(text, q3, key, w, f).0, SkipWs(text, ReadField(text, q3, key, w, f).1);
                  var next := ReadFields(text, q5 + 1, v, f);
                  && q5 > p && p < |text|
                  && (At(text, q5) == ',' ==> Gives(r, next.0, next.1))
                  && (At(text, q5) != ',' ==> Gives(r, v, if At(text, q5) == '}' then q5 + 1 else q5)))
  {
    hide ReadField, ReadString, SkipWs, ReadNode, ReadArray, Left;
  }

  /** The node, made of its fields; the children learn whose they are. */
  method Assemble(b: Parts, f: Reals, ghost h: Lists, ghost w: Fields) returns (n: Cell, ghost s: set<Cell>)
    requires Holding(b, h, w)
    modifies h.kids
    ensures Forest([n], s) && n.nextSib == null && n.shape == Finish(w, f)
    ensures fresh(n) && s == h.propCells + h.kidCells + {n}
  {
    hide Holding, Finish, Forest, Shapes, Chain, ReadValue, Unset;
    var typ := if b.typ.Some? then b.typ.value else "";
    var name := if b.name.Some? then b.name.value else "";
    var value := if b.value.Some? then ReadValue(typ, b.value.value, f) else Unset(typ);
    FinishIs(b, h, w, f);
    n := new Cell(name, value);
    n.props, n.child := b.props, b.kids;
    n.propList, n.kidList := h.props, h.kids;
    n.shape := Finish(w, f);
    s := h.propCells + h.kidCells + {n};
    HeldApart(b, h, w, n);
    label L:
    SetParents(b.kids, n, h.kids);
    Crowned@L(Crown(n, b, h, w));
  }

  lemma FinishIs(b: Parts, h: Lists, w: Fields, f: Reals)
    requires Holding(b, h, w)
    ensures var typ := if b.typ.Some? then b.typ.value else "";
            var name := if b.name.Some? then b.name.value else "";
            var value := if b.value.Some? then ReadValue(typ, b.value.value, f) else Unset(typ);
            Finish(w, f) == Tree(name, value, w.props, w.kids)
  {}

  lemma HeldApart(b: Parts, h: Lists, w: Fields, n: Cell)
    requires Holding(b, h, w) && n !in h.propCells && n !in h.kidCells
    ensures Chain(h.kids, b.kids) && n !in h.kids
    ensures Shapes(h.props) == w.props && Shapes(h.kids) == w.kids
  {}

  /** Lists, and a node on top of them. */
  datatype Crown = Crown(n: Cell, b: Parts, h: Lists, w: Fields)

  /** The node has its fields, and nothing else changed but whose the children are. */
  twostate predicate Seated(c: Crown)
    reads c.n, c.h.propCells, c.h.kidCells, c.h.kids
  {
    && unchanged(c.n) && c.n.props == c.b.props && c.n.child == c.b.kids && c.n.propList == c.h.props && c.n.kidList == c.h.kids
    && c.n.shape == Tree(c.n.name, c.n.value, c.w.props, c.w.kids)
    && (forall m :: m in c.h.propCells + c.h.kidCells && m !in c.h.kids ==> unchanged(m))
    && (forall m :: m in c.h.kids ==> SameButParent(m))
    && (forall i :: 0 <= i < |c.h.kids| ==> c.h.kids[i].parent == c.n)
  }

  twostate lemma Crowned(c: Crown)
    requires old(Holding(c.b, c.h, c.w)) && c.n !in c.h.propCells && c.n !in c.h.kidCells && Seated(c)
    ensures Forest([c.n], c.h.propCells + c.h.kidCells + {c.n})
  {
    var n, h := c.n, c.h;
    var all := h.propCells + h.kidCells + {n};
    forall m | m in h.propCells ensures unchanged(m) { assert m in h.propCells + h.kidCells && m !in h.kids; }
    forall k | k in h.kidCells && k !in h.kids ensures unchanged(k) { assert k in h.propCells + h.kidCells; }
    forall m | m in all ensures Owns(m, all) && m.Stands() && Free(m, [n]) {
      if m in h.propCells {
        assert old(Free(m, h.kids)) by { FreeElsewhere(h.propCells, h.kids, h.kidCells, m); }
        PartStands(Kept(m, h.propCells, h.kids));
        InLarger(m, h.propCells, all, n);
      } else if m in h.kidCells {
        PartStands(Kept(m, h.kidCells, h.kids));
        InLarger(m, h.kidCells, all, n);
      } else {
        CrownStands(c);
      }
    }
  }

  twostate lemma PartStands(k: Kept)
    requires old(Built(k.s)) && k.m in k.s && old(Free(k.m, k.changed)) && SameButParent(k.m)
    requires forall c :: c in k.s && c !in k.changed ==> unchanged(c)
    ensures Owns(k.m, k.s) && k.m.Stands()
  {
    assert old(Owns(k.m, k.s) && k.m.Stands());
    StandsStill(k);
  }

  lemma InLarger(m: Cell, s: set<Cell>, all: set<Cell>, n: Cell)
    requires Owns(m, s) && s <= all && n !in s
    ensures Owns(m, all) && Free(m, [n])
  {}

  lemma FreeElsewhere(s: set<Cell>, other: seq<Cell>, t: set<Cell>, m: Cell)
    requires Built(s) && m in s && ListIn(other, t) && s !! t
    ensures Free(m, other)
  {
    assert Owns(m, s);
  }

  twostate lemma CrownStands(c: Crown)
    requires old(Holding(c.b, c.h, c.w)) && c.n !in c.h.propCells && c.n !in c.h.kidCells && Seated(c)
    requires forall m :: m in c.h.propCells ==> unchanged(m)
    ensures Owns(c.n, c.h.propCells + c.h.kidCells + {c.n}) && c.n.Stands() && Free(c.n, [c.n])
  {
    hide Built, Free;
    var h := c.h;
    forall i | 0 <= i < |h.props| ensures unchanged(h.props[i]) { assert h.props[i] in h.propCells; }
    assert forall i :: 0 <= i < |h.kids| ==> SameButParent(h.kids[i]);
    assert Shapes(h.props) == c.w.props;
    assert Shapes(h.kids) == c.w.kids;
    FreeOfItself(c.n, h);
  }

  lemma FreeOfItself(n: Cell, h: Lists)
    requires n.propList == h.props && n.kidList == h.kids && ListIn(h.props, h.propCells) && ListIn(h.kids, h.kidCells)
    requires n !in h.propCells && n !in h.kidCells
    ensures Free(n, [n])
  {}

  twostate lemma NextStays(list: seq<Cell>, new i: nat)
    requires old(Chain(list, Nth(list, 0))) && i < |list| && SameButParent(list[i])
    ensures list[i].nextSib == Nth(list, i + 1)
  {}

  method SetParents(head: Cell?, parent: Cell, ghost list: seq<Cell>)
    requires Chain(list, head) && parent !in list
    modifies list
    ensures forall i :: 0 <= i < |list| ==> list[i].parent == parent
    ensures forall m :: m in list ==> SameButParent(m)
  {
    assert Chain(list, Nth(list, 0)) && head == Nth(list, 0);
    hide Chain;
    var ch := head;
    ghost var i := 0;
    while ch != null
      invariant 0 <= i <= |list| && ch == Nth(list, i)
      invariant forall j :: 0 <= j < i ==> list[j].parent == parent
      invariant forall m :: m in list ==> SameButParent(m)
      decreases |list| - i
    {
      assert list[i] in list;
      ch.parent := parent;
      NextStays(list, i);
      ch, i := ch.nextSib, i + 1;
    }
  }

  /** Text to a node tree: nothing where no object begins. */
  method TextToNode(text: string, f: Reals) returns (n: Cell?, ghost s: set<Cell>)
    ensures n != null <==> ReadText(text, f).Some?
    ensures n != null ==> fresh(s) && Forest([n], s) && n.shape == ReadText(text, f).value
    ensures forall before, o, after :: JsonText.Laid(text, before, o, after) ==> n != null && n.shape == JsonText.Stands(o, f)
  {
    forall before, o, after | JsonText.Laid(text, before, o, after) ensures ReadText(text, f) == Some(JsonText.Stands(o, f)) {
      JsonText.TextReads(text, before, o, after, f);
    }
    hide JsonText.Laid, JsonText.Stands;
    var c := new Cursor(text);
    c.SkipSpace();
    if c.Here() != '{' { return null, {}; }
    n, s := c.ParseNodeObject(f);
  }

  /** A tree printed and read back is the same tree again, on nodes of its own,
      exactly when it holds nothing its text loses. */
  method CopyByText(n: Cell, f: Reals, ghost s: set<Cell>) returns (r: Cell?, ghost t: set<Cell>)
    requires Built(s) && n in s
    ensures r != null && fresh(t) && Forest([r], t)
    ensures r.shape == n.shape <==> AllFaithful(n.shape, f)
  {
    var text := NodeToText(n, f, s);
    ReadsBack(n.shape, f);
    r, t := TextToNode(text, f);
  }
}
