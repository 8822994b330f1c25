/** The registry as the program keeps it: nodes that point to their first child, to
    their next sibling and to their parent, and the cursors that walk them. */
module Registry {
  import opened RegistryModel

  class Nodes {
    const root: Id
    var child: map<Id, Id>
    var next: map<Id, Id>
    var parent: map<Id, Id>
    var classes: set<Id>
    ghost var shape: Shape

    /** The pointers say what the shape says; 0 is no node. */
    ghost predicate Valid()
      reads this
    {
      && Ok(shape) && shape.root == root && parent == shape.up && classes == shape.classes
      && child.Keys == shape.kids.Keys && next.Keys == shape.kids.Keys
      && (forall n :: n in shape.kids ==> child[n] == Nth(shape.kids[n], 0))
      && (forall k :: k in shape.up ==> NextOk(shape, next, k))
    }

    /** An empty registry: a root, and no library yet. */
    constructor (root: Id)
      requires root != 0
      ensures Valid() && this.root == root && AllClasses(shape) == []
    {
      this.root, child, next, parent, classes := root, map[root := 0], map[root := 0], map[], {};
      shape := Shape(root, map[root := []], map[], {}, map[root := 0]);
    }

    lemma Same()
      requires Valid()
      ensures Ok(shape) && shape.root == root && parent == shape.up && classes == shape.classes
      ensures root in child && root in shape.kids && child[root] == Nth(Libraries(shape), 0)
    {}

    /** Where the pointers of a node and of its child j lead. */
    lemma Pointers(n: Id)
      requires Valid() && n in shape.kids
      ensures n in child && child[n] == Nth(shape.kids[n], 0)
    {}

    lemma NextPointer(n: Id, j: nat)
      requires Valid() && n in shape.kids && j < |shape.kids[n]|
      ensures var k := shape.kids[n][j];
              && k != 0 && k in shape.kids && k in parent && parent[k] == n && k in shape.up
              && k in next && next[k] == Nth(shape.kids[n], j + 1)
              && ChildOk(shape, k) && IndexOf(shape.kids[n], k) == j
    {
      var k := shape.kids[n][j];
      Sibling(shape, n, j);
      assert NextOk(shape, next, k) && ChildOk(shape, k);
      hide Ok, IndexOf, Nth;
    }

    /** From sibling k on, the first that is a class, or the first that is not. */
    method FirstOf(k: Id, class_: bool, ghost n: Id, ghost i: nat) returns (c: Id)
      requires Valid() && n in shape.kids && i <= |shape.kids[n]| && k == Nth(shape.kids[n], i)
      ensures c == if class_ then FirstClassIn(shape, n, i) else FirstInstIn(shape, n, i)
    {
      hide Valid, Ok;
      Same();
      c := k;
      ghost var j := i;
      while c != 0 && (c in classes) != class_
        invariant i <= j <= |shape.kids[n]| && c == Nth(shape.kids[n], j)
        invariant FirstClassIn(shape, n, i) == FirstClassIn(shape, n, j) || !class_
        invariant FirstInstIn(shape, n, i) == FirstInstIn(shape, n, j) || class_
        decreases |shape.kids[n]| - j
      {
        NextPointer(n, j);
        c, j := next[c], j + 1;
      }
      if j < |shape.kids[n]| { NextPointer(n, j); }
    }

    method FirstClassChild(n: Id) returns (c: Id)
      requires Valid() && n in shape.kids
      ensures c == FirstClassIn(shape, n, 0)
    {
      hide Valid;
      Pointers(n);
      c := FirstOf(child[n], true, n, 0);
    }

    method NextClassSibling(k: Id, ghost n: Id, ghost j: nat) returns (c: Id)
      requires Valid() && n in shape.kids && j < |shape.kids[n]| && k == shape.kids[n][j]
      ensures c == FirstClassIn(shape, n, j + 1)
    {
      hide Valid;
      NextPointer(n, j);
      c := FirstOf(next[k], true, n, j + 1);
    }

    /** The first class of a library, or of any library after it. */
    method FirstClassFrom(library: Id, ghost i: nat) returns (c: Id)
      requires Valid() && i <= |Libraries(shape)| && library == Nth(Libraries(shape), i)
      ensures c == FirstFrom(shape, i)
    {
      hide Valid, Ok, FirstFrom, FirstClassIn;
      Same();
      var lib := library;
      ghost var j := i;
      c := 0;
      while lib != 0
        invariant i <= j <= |Libraries(shape)| && lib == Nth(Libraries(shape), j) && c == 0
        invariant FirstFrom(shape, j) == FirstFrom(shape, i)
        decreases |Libraries(shape)| - j
      {
        NextPointer(root, j);
        FirstFromStep(shape, j);
        c := FirstClassChild(lib);
        if c != 0 { return; }
        lib, j := next[lib], j + 1;
      }
      if j < |Libraries(shape)| { NextPointer(root, j); } else { FirstFromEnd(shape); }
    }

    method FirstClass() returns (c: Id)
      requires Valid()
      ensures c == Nth(AllClasses(shape), 0)
    {
      hide Valid, Ok, FirstFrom, LibsFrom;
      Same();
      HeadOfLibs(shape, 0);
      c := FirstClassFrom(child[root], 0);
    }

    /** Down, else across, else up until there is an across. */
    method NextClass(c: Id) returns (d: Id)
      requires Valid() && c in shape.classes
      ensures d == Successor(shape, c)
    {
      hide Valid, Ok, After, FirstClassIn, FirstFrom;
      Same();
      ClassIsNode(shape, c);
      d := FirstClassChild(c);
      if d != 0 { return; }
      var p := c;
      while p in classes
        invariant (p in shape.classes || IsLibrary(shape, p)) && After(shape, p) == After(shape, c)
        decreases NodeHeight(shape, shape.root) - Up(shape, p)
      {
        ghost var m, j := AfterStep(shape, p);
        NextPointer(m, j);
        d := NextClassSibling(p, m, j);
        if d != 0 { return; }
        p := parent[p];
      }
      ghost var j := AfterLibrary(shape, p);
      NextPointer(root, j);
      d := FirstClassFrom(next[p], j + 1);
    }

    /** The first instance of a class, or of any class after it. */
    method FirstInstanceFrom(class_: Id, ghost i: nat) returns (x: Id)
      requires Valid() && i <= |AllClasses(shape)| && class_ == Nth(AllClasses(shape), i)
      ensures x == FirstInstFrom(shape, i)
    {
      hide Valid, Ok, AllClasses, FirstInstFrom, FirstInstIn, Successor;
      Same();
      var c := class_;
      ghost var j := i;
      x := 0;
      while c != 0
        invariant i <= j <= |AllClasses(shape)| && c == Nth(AllClasses(shape), j) && x == 0
        invariant FirstInstFrom(shape, j) == FirstInstFrom(shape, i)
        decreases |AllClasses(shape)| - j
      {
        FirstInstStep(shape, j);
        Pointers(c);
        x := FirstOf(child[c], false, c, 0);
        if x != 0 { return; }
        NextByIndex(shape, j);
        c := NextClass(c);
        j := j + 1;
      }
      if j < |AllClasses(shape)| { FirstInstStep(shape, j); } else { FirstInstEnd(shape); }
    }

    method FirstInstance() returns (x: Id)
      requires Valid()
      ensures x == Nth(AllInstances(shape), 0)
    {
      hide Valid, Ok, AllClasses, FirstInstFrom, InstFrom;
      Same();
      HeadOfInstFrom(shape, 0);
      var c := FirstClass();
      x := FirstInstanceFrom(c, 0);
    }

    method NextInstance(x: Id) returns (y: Id)
      requires Valid() && IsInstance(shape, x)
      ensures y == NextInst(shape, x)
    {
      hide Valid, Ok, AllClasses, FirstInstFrom, FirstInstIn, Successor;
      Same();
      ghost var m, j := InstanceAt(shape, x);
      NextPointer(m, j);
      y := FirstOf(next[x], false, m, j + 1);
      if y != 0 { return; }
      NextByIndex(shape, ClassIndex(shape, m));
      var c := NextClass(parent[x]);
      y := FirstInstanceFrom(c, ClassIndex(shape, m) + 1);
    }

    /** The walk of the registry's classes ends, and meets each class once. */
    method VisitClasses() returns (seen: seq<Id>)
      requires Valid()
      ensures Once(seen) && forall c :: c in seen <==> c in shape.classes
    {
      hide Valid, Ok, AllClasses, Successor;
      Same();
      EveryClassOnce(shape);
      ghost var all := AllClasses(shape);
      seen := [];
      var c := FirstClass();
      while c != 0
        invariant |seen| <= |all| && seen == all[..|seen|] && c == Nth(all, |seen|)
        decreases |all| - |seen|
      {
        NextByIndex(shape, |seen|);
        seen := seen + [c];
        c := NextClass(c);
      }
      if |seen| < |all| { ClassNode(shape, |seen|); }
      assert seen == all;
    }

    /** The walk of its instances ends, and meets each instance of each class once. */
    method VisitInstances() returns (seen: seq<Id>)
      requires Valid()
      ensures Once(seen) && forall x :: x in seen <==> IsInstance(shape, x)
    {
      hide Valid, Ok, AllInstances, NextInst, IsInstance;
      Same();
      EveryInstanceOnce(shape);
      ghost var all := AllInstances(shape);
      seen := [];
      var x := FirstInstance();
      while x != 0
        invariant |seen| <= |all| && seen == all[..|seen|] && x == Nth(all, |seen|)
        decreases |all| - |seen|
      {
        NextInstByIndex(shape, |seen|);
        seen := seen + [x];
        x := NextInstance(x);
      }
      if |seen| < |all| { InstNotNull(shape, |seen|); }
      assert seen == all;
    }

    /** Take a node out of its parent's chain: the head moves on, or whoever points
        to it points past it. */
    method DelSibling(c: Id)
      requires Ok(shape) && Pointing(shape.kids, child, next) && parent == shape.up && c in shape.classes
      modifies this`child, this`next
      ensures Pointing(Detached(shape, c), child, next)
    {
      ghost var n, i := PlaceOf(shape, c);
      ghost var q := shape.kids[n];
      hide Ok, Pointing, Detached, IndexOf, Linked, NextWithout, ChildWithout;
      LinkPoints(shape.kids, child, next, n, i);
      Unlinked(shape, c, n, i, child, next);
      Bypass(c, n, i);
    }

    /** Lead past c whatever pointer leads to it. */
    method Bypass(c: Id, ghost n: Id, ghost i: nat)
      requires Ok(shape) && Pointing(shape.kids, child, next) && c in next && c in parent && parent[c] == n
      requires n in shape.kids && i < |shape.kids[n]| && shape.kids[n][i] == c && Once(shape.kids[n])
      modifies this`child, this`next
      ensures child == ChildWithout(old(child), old(next), n, shape.kids[n], i)
      ensures next == NextWithout(old(next), shape.kids[n], i)
    {
      hide Ok, Pointing, Linked;
      var from := parent[c];
      HeadPoints(shape.kids, child, next, from);
      if child[from] == c {
        OnceAt(shape.kids[n], 0, i);
        child := child[from := next[c]];
      } else {
        var prev := Predecessor(from, c, i);
        LinkPoints(shape.kids, child, next, from, i - 1);
        next := next[prev := next[c]];
      }
      next := next[c := 0];
    }

    /** The sibling that points to c. */
    method Predecessor(from: Id, c: Id, ghost i: nat) returns (prev: Id)
      requires Ok(shape) && Pointing(shape.kids, child, next) && from in shape.kids
      requires 0 < i < |shape.kids[from]| && shape.kids[from][i] == c && Once(shape.kids[from])
      ensures prev == shape.kids[from][i - 1]
    {
      hide Ok, Pointing;
      ghost var q, j := shape.kids[from], 0;
      HeadPoints(shape.kids, child, next, from);
      prev := child[from];
      LinkPoints(shape.kids, child, next, from, 0);
      Sibling(shape, from, 0);
      while prev != 0 && next[prev] != c
        invariant j < i && prev == q[j] && prev in next && next[prev] == q[j + 1] && prev != 0 && q[i] == c
        decreases i - j
      {
        LinkPoints(shape.kids, child, next, from, j + 1);
        Sibling(shape, from, j + 1);
        prev, j := next[prev], j + 1;
      }
      OnceAt(q, j + 1, i);
    }

    /** Put a node under another, behind its first child. */
    method AddChild(p: Id, c: Id, ghost kids: map<Id, seq<Id>>)
      requires Pointing(kids, child, next) && p in kids && c in kids && 0 !in kids && Separate(kids)
      requires forall n :: n in kids ==> c !in kids[n] && forall k :: k in kids[n] ==> k in kids
      modifies this`child, this`next
      ensures Pointing(kids[p := WithChild(kids[p], c)], child, next)
    {
      hide Pointing, Separate, WithChild;
      HeadPoints(kids, child, next, p);
      ChildAdded(kids, child, next, p, c);
      if child[p] != 0 {
        var head := child[p];
        next := next[c := next[head]];
        next := next[head := c];
      } else {
        child := child[p := c];
        next := next[c := 0];
      }
    }

    /** A class is moved under the class it names as its parent; the same classes and
        the same instances are walked as before. p is 0 when that class is missing. */
    method SetClassParent(c: Id, p: Id)
      requires Valid() && c in shape.classes && (p != 0 ==> p in shape.classes)
      requires p != 0 ==> c in shape.kids && p in shape.kids && !Below(shape, p, c)
      modifies this
      ensures Valid() && shape.classes == old(shape).classes
      ensures forall x :: IsInstance(shape, x) <==> IsInstance(old(shape), x)
      ensures p != 0 ==> parent == old(parent)[c := p]
    {
      hide Valid, Ok, Pointing, Detached, Moved, Below, Separate, IsInstance;
      if p == 0 { return; }
      Same();
      ghost var s := shape;
      InParent(s, c);
      if parent[c] != p {
        AllPoint();
        MovedIsOk(s, c, p);
        DetachedApart(s, c, p);
        DelSibling(c);
        AddChild(p, c, Detached(s, c));
        parent := parent[c := p];
        shape := Moved(s, c, p);
        MovedPoints(s, c, p, child, next);
        PointsBack();
      }
    }

    lemma AllPoint()
      requires Valid()
      ensures Pointing(shape.kids, child, next)
    {
      forall n | n in shape.kids ensures Linked(shape.kids[n], next) {
        forall i | 0 <= i < |shape.kids[n]| ensures shape.kids[n][i] in next && next[shape.kids[n][i]] == Nth(shape.kids[n], i + 1) {
          NextPointer(n, i);
        }
      }
    }

    lemma PointsBack()
      requires Ok(shape) && shape.root == root && parent == shape.up && classes == shape.classes
      requires Pointing(shape.kids, child, next)
      ensures Valid()
    {
      forall k | k in shape.up ensures NextOk(shape, next, k) {
        assert ChildOk(shape, k);
        assert Linked(shape.kids[shape.up[k]], next);
        NextFromLinked(shape, next, k);
      }
      hide NextOk, Linked, Ok;
    }
  }

  lemma NextFromLinked(s: Shape, next: map<Id, Id>, k: Id)
    requires ChildOk(s, k) && Linked(s.kids[s.up[k]], next)
    ensures NextOk(s, next, k)
  {
    var q := s.kids[s.up[k]];
    assert q[IndexOf(q, k)] == k;
  }

  /** A chain of siblings in its order. */
  ghost predicate Linked(q: seq<Id>, next: map<Id, Id>) {
    forall i :: 0 <= i < |q| ==> q[i] in next && next[q[i]] == Nth(q, i + 1)
  }

  /** First children and next siblings spell the lists. */
  ghost predicate Pointing(kids: map<Id, seq<Id>>, child: map<Id, Id>, next: map<Id, Id>) {
    && child.Keys == kids.Keys && next.Keys == kids.Keys
    && forall n :: n in kids ==> child[n] == Nth(kids[n], 0) && Linked(kids[n], next)
  }

  ghost function Detached(s: Shape, c: Id): map<Id, seq<Id>>
    requires Ok(s) && c in s.classes
  {
    assert ClassOk(s, c) && ChildOk(s, c);
    s.kids[s.up[c] := WithoutChild(s.kids[s.up[c]], c)]
  }

  /** No node is in two lists, or twice in one. */
  ghost predicate Separate(kids: map<Id, seq<Id>>) {
    forall n, m, i, j :: n in kids && m in kids && 0 <= i < |kids[n]| && 0 <= j < |kids[m]| && kids[n][i] == kids[m][j] ==>
      n == m && i == j
  }

  lemma ListsApart(s: Shape)
    requires Ok(s)
    ensures Separate(s.kids)
  {
    forall n, m, i, j | n in s.kids && m in s.kids && 0 <= i < |s.kids[n]| && 0 <= j < |s.kids[m]| && s.kids[n][i] == s.kids[m][j]
      ensures n == m && i == j
    {
      Sibling(s, n, i);
      Sibling(s, m, j);
    }
  }

  lemma PlaceOf(s: Shape, c: Id) returns (n: Id, i: nat)
    requires Ok(s) && c in s.classes
    ensures c in s.up && n == s.up[c] && n in s.kids && i < |s.kids[n]| && s.kids[n][i] == c && i == IndexOf(s.kids[n], c)
    ensures Once(s.kids[n]) && c in s.kids && c != 0
  {
    assert ClassOk(s, c);
    Facts(s, c);
    n := s.up[c];
    i := IndexOf(s.kids[n], c);
    assert NodeOk(s, n);
  }

  lemma OnceAt(q: seq<Id>, i: nat, j: nat)
    requires Once(q) && i < |q| && j < |q| && q[i] == q[j]
    ensures i == j
  {}

  lemma HeadPoints(kids: map<Id, seq<Id>>, child: map<Id, Id>, next: map<Id, Id>, n: Id)
    requires Pointing(kids, child, next) && n in kids
    ensures n in child && child[n] == Nth(kids[n], 0) && next.Keys == kids.Keys
  {}

  lemma LinkPoints(kids: map<Id, seq<Id>>, child: map<Id, Id>, next: map<Id, Id>, n: Id, i: nat)
    requires Pointing(kids, child, next) && n in kids && i < |kids[n]|
    ensures kids[n][i] in next && next[kids[n][i]] == Nth(kids[n], i + 1)
  {
    assert Linked(kids[n], next);
  }

  /** A list that holds none of the changed nodes is linked as it was. */
  lemma LinkedElse(kids: map<Id, seq<Id>>, n: Id, p: Id, i: nat, c: Id, was: map<Id, Id>, next: map<Id, Id>)
    requires n in kids && p in kids && n != p && Separate(kids) && i < |kids[p]| && c !in kids[n] && Linked(kids[n], was)
    requires next.Keys >= was.Keys && forall k :: k in was && k != kids[p][i] && k != c ==> next[k] == was[k]
    ensures Linked(kids[n], next)
  {
    forall j | 0 <= j < |kids[n]| ensures kids[n][j] in next && next[kids[n][j]] == Nth(kids[n], j + 1) {
      assert kids[n][j] != kids[p][i];
    }
  }

  lemma ChildAdded(kids: map<Id, seq<Id>>, child: map<Id, Id>, next: map<Id, Id>, p: Id, c: Id)
    requires Pointing(kids, child, next) && p in kids && c in kids && 0 !in kids && Separate(kids)
    requires forall n :: n in kids ==> c !in kids[n] && forall k :: k in kids[n] ==> k in kids
    ensures p in child && (child[p] != 0 ==> child[p] in next)
    ensures Pointing(kids[p := WithChild(kids[p], c)], if child[p] != 0 then child else child[p := c],
                     if child[p] != 0 then next[c := next[child[p]]][child[p] := c] else next[c := 0])
  {
    hide Separate, Linked, WithChild, Nth;
    var q := kids[p];
    HeadPoints(kids, child, next, p);
    HeadAdded(q, c);
    if q == [] {
      forall n | n in kids && n != p ensures Linked(kids[n], next[c := 0]) { LinkedBut(kids[n], c, next); }
      LinkedOne(c, next);
    } else {
      assert q[0] in q && q[0] in kids;
      OnceIn(kids, p);
      LinkedWith(q, c, next);
      forall n | n in kids && n != p ensures Linked(kids[n], next[c := next[q[0]]][q[0] := c]) {
        LinkedElse(kids, n, p, 0, c, next, next[c := next[q[0]]][q[0] := c]);
      }
    }
  }

  lemma HeadAdded(q: seq<Id>, c: Id)
    ensures Nth(WithChild(q, c), 0) == (if q == [] then c else q[0]) && Nth(q, 0) == (if q == [] then 0 else q[0])
    ensures q == [] ==> WithChild(q, c) == [c]
  {}

  lemma LinkedBut(q: seq<Id>, c: Id, next: map<Id, Id>)
    requires Linked(q, next) && c !in q
    ensures Linked(q, next[c := 0])
  {
    forall i | 0 <= i < |q| ensures q[i] in next && q[i] != c {}
  }

  lemma LinkedOne(c: Id, next: map<Id, Id>)
    ensures Linked([c], next[c := 0])
  {}

  lemma OnceIn(kids: map<Id, seq<Id>>, p: Id)
    requires Separate(kids) && p in kids
    ensures Once(kids[p])
  {
    forall i, j | 0 <= i < j < |kids[p]| ensures kids[p][i] != kids[p][j] { assert kids[p][i] == kids[p][j] ==> i == j; }
  }

  lemma LinkedWith(q: seq<Id>, c: Id, next: map<Id, Id>)
    requires q != [] && Once(q) && c !in q && Linked(q, next)
    ensures Linked(WithChild(q, c), next[c := next[q[0]]][q[0] := c])
  {
    var r, after := WithChild(q, c), next[c := next[q[0]]][q[0] := c];
    forall i | 0 <= i < |r| ensures r[i] in after && after[r[i]] == Nth(r, i + 1) {
      if i >= 2 { assert r[i] == q[i - 1] && q[i - 1] in q; }
    }
  }

  /** The chain without node i, when its predecessor points past it. */
  lemma LinkedWithout(q: seq<Id>, i: nat, was: map<Id, Id>, next: map<Id, Id>)
    requires Once(q) && i < |q| && Linked(q, was) && next.Keys >= was.Keys
    requires forall k :: k in was && k != q[i] && (i > 0 ==> k != q[i - 1]) ==> next[k] == was[k]
    requires i > 0 ==> next[q[i - 1]] == was[q[i]]
    ensures Linked(q[..i] + q[i + 1..], next)
  {
    var r := q[..i] + q[i + 1..];
    forall j | 0 <= j < |r| ensures r[j] in next && next[r[j]] == Nth(r, j + 1) {
      var k := if j < i then j else j + 1;
      assert r[j] == q[k] && q[k] != q[i];
      if j + 1 != i && i > 0 { assert q[k] != q[i - 1]; }
    }
  }

  function NextWithout(next: map<Id, Id>, q: seq<Id>, i: nat): map<Id, Id>
    requires i < |q| && q[i] in next
  {
    (if i == 0 then next else next[q[i - 1] := next[q[i]]])[q[i] := 0]
  }

  function ChildWithout(child: map<Id, Id>, next: map<Id, Id>, n: Id, q: seq<Id>, i: nat): map<Id, Id>
    requires i < |q| && q[i] in next
  {
    if i == 0 then child[n := next[q[i]]] else child
  }

  lemma UnlinkedList(kids: map<Id, seq<Id>>, next: map<Id, Id>, n: Id, i: nat, m: Id)
    requires Separate(kids) && n in kids && m in kids && i < |kids[n]| && Linked(kids[m], next) && Linked(kids[n], next)
    requires kids[n][i] in next && next.Keys == kids.Keys && (i > 0 ==> kids[n][i - 1] in next)
    ensures Linked(if m == n then kids[n][..i] + kids[n][i + 1..] else kids[m], NextWithout(next, kids[n], i))
  {
    var q, after := kids[n], NextWithout(next, kids[n], i);
    if m == n {
      forall a, b | 0 <= a < b < |q| ensures q[a] != q[b] { assert q[a] == q[b] ==> a == b; }
      LinkedWithout(q, i, next, after);
    } else {
      assert q[i] !in kids[m] by { if k :| 0 <= k < |kids[m]| && kids[m][k] == q[i] { assert kids[n][i] == kids[m][k]; } }
      LinkedElse(kids, m, n, if i == 0 then 0 else i - 1, q[i], next, after);
    }
  }

  lemma Unlinked(s: Shape, c: Id, n: Id, i: nat, child: map<Id, Id>, next: map<Id, Id>)
    requires Ok(s) && c in s.classes && Pointing(s.kids, child, next) && c in s.up && n == s.up[c] && n in s.kids
    requires i < |s.kids[n]| && s.kids[n][i] == c && i == IndexOf(s.kids[n], c) && c in next
    ensures Pointing(Detached(s, c), ChildWithout(child, next, n, s.kids[n], i), NextWithout(next, s.kids[n], i))
  {
    hide Ok, Separate, Linked, Nth, NextWithout, Detached, IndexOf;
    var q := s.kids[n];
    DetachedIs(s, c, n, i);
    LinkPoints(s.kids, child, next, n, i);
    if i > 0 { LinkPoints(s.kids, child, next, n, i - 1); }
    ListsApart(s);
    HeadWithout(q, i);
    KeysWithout(next, q, i);
    forall m | m in s.kids ensures Linked(if m == n then q[..i] + q[i + 1..] else s.kids[m], NextWithout(next, q, i)) {
      UnlinkedList(s.kids, next, n, i, m);
    }
  }

  lemma DetachedIs(s: Shape, c: Id, n: Id, i: nat)
    requires Ok(s) && c in s.classes && c in s.up && n == s.up[c] && n in s.kids
    requires i < |s.kids[n]| && s.kids[n][i] == c && i == IndexOf(s.kids[n], c)
    ensures Detached(s, c) == s.kids[n := s.kids[n][..i] + s.kids[n][i + 1..]]
  {}

  lemma KeysWithout(next: map<Id, Id>, q: seq<Id>, i: nat)
    requires i < |q| && q[i] in next && (i > 0 ==> q[i - 1] in next)
    ensures NextWithout(next, q, i).Keys == next.Keys
  {}

  lemma HeadWithout(q: seq<Id>, i: nat)
    requires i < |q|
    ensures Nth(q[..i] + q[i + 1..], 0) == if i == 0 then Nth(q, 1) else Nth(q, 0)
  {}

  lemma InParent(s: Shape, c: Id)
    requires Ok(s) && c in s.classes
    ensures c in s.up
  {
    assert ClassOk(s, c);
  }

  lemma DetachedApart(s: Shape, c: Id, p: Id)
    requires Ok(s) && c in s.classes && p in s.classes && c in s.kids && p in s.kids
    ensures var kids := Detached(s, c);
            && kids.Keys == s.kids.Keys && 0 !in kids && Separate(kids)
            && forall n :: n in kids ==> c !in kids[n] && forall k :: k in kids[n] ==> k in kids
  {
    hide Ok, Separate, Once, Detached, IndexOf, WithoutChild;
    var kids := Detached(s, c);
    ListsApart(s);
    var m, i := PlaceOf(s, c);
    DetachedIs(s, c, m, i);
    SubtreesApart(s, c);
    WithoutSeparate(s.kids, m, i);
  }

  lemma SubtreesApart(s: Shape, c: Id)
    requires Ok(s) && c in s.classes && c in s.kids
    ensures 0 !in s.kids
    ensures forall n :: n in Detached(s, c) ==> c !in Detached(s, c)[n] && forall k :: k in Detached(s, c)[n] ==> k in s.kids
  {
    var kids := Detached(s, c);
    var m, i := PlaceOf(s, c);
    WithoutOnce(s.kids[m], c);
    forall n | n in kids ensures c !in kids[n] && forall k :: k in kids[n] ==> k in kids {
      forall k | k in kids[n] ensures k != c && k in kids {
        var j :| 0 <= j < |s.kids[n]| && s.kids[n][j] == k;
        Sibling(s, n, j);
      }
    }
  }

  lemma WithoutSeparate(kids: map<Id, seq<Id>>, m: Id, i: nat)
    requires Separate(kids) && m in kids && i < |kids[m]|
    ensures Separate(kids[m := kids[m][..i] + kids[m][i + 1..]])
  {
    var after := kids[m := kids[m][..i] + kids[m][i + 1..]];
    forall a, b, j, k | a in after && b in after && 0 <= j < |after[a]| && 0 <= k < |after[b]| && after[a][j] == after[b][k]
      ensures a == b && j == k
    {
      var j0 := if a == m && j >= i then j + 1 else j;
      var k0 := if b == m && k >= i then k + 1 else k;
      assert kids[a][j0] == kids[b][k0];
    }
  }

  lemma MovedPoints(s: Shape, c: Id, p: Id, child: map<Id, Id>, next: map<Id, Id>)
    requires Ok(s) && c in s.classes && p in s.classes && c in s.kids && p in s.kids && p in Detached(s, c)
    requires Pointing(Detached(s, c)[p := WithChild(Detached(s, c)[p], c)], child, next)
    ensures Pointing(Moved(s, c, p).kids, child, next) && Moved(s, c, p).up == s.up[c := p]
    ensures Moved(s, c, p).root == s.root && Moved(s, c, p).classes == s.classes
  {}

  lemma FirstFromStep(s: Shape, j: nat)
    requires Ok(s) && j < |Libraries(s)|
    ensures Libraries(s)[j] in s.kids
    ensures FirstFrom(s, j) == var c := FirstClassIn(s, Libraries(s)[j], 0); if c != 0 then c else FirstFrom(s, j + 1)
  {
    LibraryFacts(s, j);
  }

  lemma FirstFromEnd(s: Shape)
    requires Ok(s)
    ensures FirstFrom(s, |Libraries(s)|) == 0
  {}

  lemma ClassIsNode(s: Shape, c: Id)
    requires Ok(s) && c in s.classes
    ensures c in s.kids
  {
    assert ClassOk(s, c);
  }

  /** After a class comes its next sibling class, or what comes after its parent. */
  lemma AfterStep(s: Shape, p: Id) returns (m: Id, j: nat)
    requires Ok(s) && p in s.classes
    ensures p in s.up && m == s.up[p] && m in s.kids && j < |s.kids[m]| && s.kids[m][j] == p
    ensures m in s.classes || IsLibrary(s, m)
    ensures After(s, p) == var c := FirstClassIn(s, m, j + 1); if c != 0 then c else After(s, m)
    ensures Up(s, p) < Up(s, m) <= NodeHeight(s, s.root)
  {
    assert ClassOk(s, p);
    Facts(s, p);
    m := s.up[p];
    j := IndexOf(s.kids[m], p);
    Facts(s, m);
  }

  lemma AfterLibrary(s: Shape, p: Id) returns (j: nat)
    requires Ok(s) && IsLibrary(s, p) && p !in s.classes
    ensures j < |Libraries(s)| && Libraries(s)[j] == p && After(s, p) == FirstFrom(s, j + 1)
  {
    Facts(s, p);
    j := IndexOf(Libraries(s), p);
  }

  lemma FirstInstStep(s: Shape, j: nat)
    requires Ok(s) && j < |AllClasses(s)|
    ensures AllClasses(s)[j] in s.kids && AllClasses(s)[j] in s.classes && AllClasses(s)[j] != 0
    ensures FirstInstFrom(s, j) == var d := FirstInstIn(s, AllClasses(s)[j], 0); if d != 0 then d else FirstInstFrom(s, j + 1)
  {
    ClassNode(s, j);
  }

  lemma FirstInstEnd(s: Shape)
    requires Ok(s)
    ensures FirstInstFrom(s, |AllClasses(s)|) == 0
  {}

  lemma InstanceAt(s: Shape, x: Id) returns (m: Id, j: nat)
    requires Ok(s) && IsInstance(s, x)
    ensures m == s.up[x] && m in s.kids && m in s.classes && j < |s.kids[m]| && s.kids[m][j] == x
    ensures NextInst(s, x) == var d := FirstInstIn(s, m, j + 1); if d != 0 then d else FirstInstFrom(s, ClassIndex(s, m) + 1)
  {
    Facts(s, x);
    m := s.up[x];
    assert ClassOk(s, m);
    j := IndexOf(s.kids[m], x);
  }

  function Nth(q: seq<Id>, i: nat): Id {
    if i < |q| then q[i] else 0
  }

  /** A node points to the sibling that follows it. */
  ghost predicate NextOk(s: Shape, next: map<Id, Id>, k: Id) {
    && ChildOk(s, k) && k in next
    && next[k] == Nth(s.kids[s.up[k]], IndexOf(s.kids[s.up[k]], k) + 1)
  }

  lemma Sibling(s: Shape, n: Id, j: nat)
    requires Ok(s) && n in s.kids && j < |s.kids[n]|
    ensures var k := s.kids[n][j]; k in s.up && s.up[k] == n && k in s.kids && k != 0 && IndexOf(s.kids[n], k) == j
  {
    assert NodeOk(s, n) && IsChild(s, s.kids[n][j], n);
  }

  lemma InstNotNull(s: Shape, i: nat)
    requires Ok(s) && i < |AllInstances(s)|
    ensures AllInstances(s)[i] != 0
  {
    NextInstByIndex(s, i);
    Facts(s, AllInstances(s)[i]);
  }
}
