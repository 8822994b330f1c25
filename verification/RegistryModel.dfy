/** The registry as a forest: libraries under a root, classes under libraries or
    under other classes, instances among the subclasses of their class. In which
    order the cursors of src/object.c must walk it. */
module RegistryModel {

  /** A node; 0 is no node. */
  type Id = nat

  /** up names each node's parent, kids its children in order; height falls from
      parent to child. */
  datatype Shape = Shape(root: Id, kids: map<Id, seq<Id>>, up: map<Id, Id>, classes: set<Id>, height: map<Id, nat>)

  ghost predicate Once(q: seq<Id>) {
    forall i, j :: 0 <= i < j < |q| ==> q[i] != q[j]
  }

  /** A node's children name it as their parent, and stand lower. */
  ghost predicate NodeOk(s: Shape, n: Id) {
    && n in s.kids && n in s.height && s.root in s.height && s.height[n] <= s.height[s.root] && Once(s.kids[n])
    && forall i :: 0 <= i < |s.kids[n]| ==> IsChild(s, s.kids[n][i], n)
  }

  predicate IsChild(s: Shape, k: Id, n: Id) {
    && k in s.kids && k in s.up && s.up[k] == n && k != s.root
    && k in s.height && n in s.height && s.height[k] < s.height[n]
  }

  predicate ChildOk(s: Shape, k: Id) {
    k in s.up && s.up[k] in s.kids && k in s.kids[s.up[k]]
  }

  predicate IsLibrary(s: Shape, n: Id) {
    n in s.up && s.up[n] == s.root
  }

  /** A class is a child of a library or of a class. */
  predicate ClassOk(s: Shape, c: Id) {
    c in s.up && !IsLibrary(s, c) && (IsLibrary(s, s.up[c]) || s.up[c] in s.classes)
  }

  /** Every node but the root is a child of its parent. */
  ghost predicate Ok(s: Shape) {
    && s.root in s.kids && s.root !in s.up && s.root !in s.classes && 0 !in s.kids
    && s.kids.Keys == s.up.Keys + {s.root}
    && (forall n :: n in s.kids ==> NodeOk(s, n)) && (forall k :: k in s.up ==> ChildOk(s, k))
    && (forall c :: c in s.classes ==> ClassOk(s, c))
  }

  lemma Facts(s: Shape, n: Id)
    requires Ok(s) && n in s.kids
    ensures NodeOk(s, n) && (n in s.up ==> ChildOk(s, n) && IsChild(s, n, s.up[n])) && (n in s.classes ==> ClassOk(s, n))
  {
    if n in s.up {
      assert ChildOk(s, n);
      assert NodeOk(s, s.up[n]);
      var i :| 0 <= i < |s.kids[s.up[n]]| && s.kids[s.up[n]][i] == n;
    }
  }

  // ---- the order --------------------------------------------------------------------

  /** A class, then what is under it, child by child. */
  function Pre(s: Shape, n: Id): seq<Id>
    requires Ok(s) && n in s.kids
    decreases NodeHeight(s, n), |s.kids[n]| + 1
  {
    if n in s.classes then [n] + PreFrom(s, n, 0) else []
  }

  function NodeHeight(s: Shape, n: Id): nat
    requires Ok(s) && n in s.kids
  {
    assert NodeOk(s, n);
    s.height[n]
  }

  function PreFrom(s: Shape, n: Id, i: nat): seq<Id>
    requires Ok(s) && n in s.kids && i <= |s.kids[n]|
    decreases NodeHeight(s, n), |s.kids[n]| - i
  {
    if i == |s.kids[n]| then []
    else
      assert NodeOk(s, n) && IsChild(s, s.kids[n][i], n);
      Pre(s, s.kids[n][i]) + PreFrom(s, n, i + 1)
  }

  function Libraries(s: Shape): seq<Id>
    requires Ok(s)
  {
    s.kids[s.root]
  }

  lemma LibraryFacts(s: Shape, i: nat)
    requires Ok(s) && i < |Libraries(s)|
    ensures IsChild(s, Libraries(s)[i], s.root) && IsLibrary(s, Libraries(s)[i])
  {
    assert NodeOk(s, s.root);
  }

  function LibsFrom(s: Shape, i: nat): seq<Id>
    requires Ok(s) && i <= |Libraries(s)|
    decreases |Libraries(s)| - i
  {
    if i == |Libraries(s)| then []
    else
      LibraryFacts(s, i);
      PreFrom(s, Libraries(s)[i], 0) + LibsFrom(s, i + 1)
  }

  /** Every class, library by library, a class before its subclasses. */
  function AllClasses(s: Shape): seq<Id>
    requires Ok(s)
  {
    LibsFrom(s, 0)
  }

  // ---- where to go next ---------------------------------------------------------------

  function Head(q: seq<Id>): Id {
    if q == [] then 0 else q[0]
  }

  function IndexOf(q: seq<Id>, x: Id): (i: nat)
    requires x in q
    ensures i < |q| && q[i] == x
  {
    if q[0] == x then 0 else 1 + IndexOf(q[1..], x)
  }

  /** The first class among a node's children, from child i on. */
  function FirstClassIn(s: Shape, n: Id, i: nat): Id
    requires n in s.kids && i <= |s.kids[n]|
    decreases |s.kids[n]| - i
  {
    if i == |s.kids[n]| then 0 else if s.kids[n][i] in s.classes then s.kids[n][i] else FirstClassIn(s, n, i + 1)
  }

  /** The first class of library i or of any after it. */
  function FirstFrom(s: Shape, i: nat): Id
    requires Ok(s) && i <= |Libraries(s)|
    decreases |Libraries(s)| - i
  {
    if i == |Libraries(s)| then 0
    else
      LibraryFacts(s, i);
      var c := FirstClassIn(s, Libraries(s)[i], 0);
      if c != 0 then c else FirstFrom(s, i + 1)
  }

  /** What comes after a class and all that is under it; after a library, the
      libraries that follow. */
  function After(s: Shape, p: Id): Id
    requires Ok(s) && (p in s.classes || IsLibrary(s, p))
    decreases NodeHeight(s, s.root) - Up(s, p)
  {
    assert p in s.classes ==> ClassOk(s, p);
    Facts(s, p);
    if IsLibrary(s, p) then FirstFrom(s, IndexOf(Libraries(s), p) + 1)
    else
      var m := s.up[p];
      Facts(s, m);
      var c := FirstClassIn(s, m, IndexOf(s.kids[m], p) + 1);
      if c != 0 then c else After(s, m)
  }

  function Up(s: Shape, p: Id): int
    requires Ok(s) && (p in s.classes || IsLibrary(s, p))
  {
    assert p in s.classes ==> ClassOk(s, p);
    assert NodeOk(s, p);
    s.height[p]
  }

  function Successor(s: Shape, c: Id): Id
    requires Ok(s) && c in s.classes
  {
    assert ClassOk(s, c);
    var d := FirstClassIn(s, c, 0);
    if d != 0 then d else After(s, c)
  }

  lemma {:induction false} HeadOfKids(s: Shape, n: Id, i: nat)
    requires Ok(s) && n in s.kids && i <= |s.kids[n]|
    ensures Head(PreFrom(s, n, i)) == FirstClassIn(s, n, i) && (PreFrom(s, n, i) == [] <==> FirstClassIn(s, n, i) == 0)
    decreases |s.kids[n]| - i
  {
    if i < |s.kids[n]| {
      assert NodeOk(s, n) && IsChild(s, s.kids[n][i], n);
      HeadOfKids(s, n, i + 1);
    }
  }

  lemma {:induction false} HeadOfLibs(s: Shape, i: nat)
    requires Ok(s) && i <= |Libraries(s)|
    ensures Head(LibsFrom(s, i)) == FirstFrom(s, i) && (LibsFrom(s, i) == [] <==> FirstFrom(s, i) == 0)
    decreases |Libraries(s)| - i
  {
    if i < |Libraries(s)| {
      LibraryFacts(s, i);
      HeadOfKids(s, Libraries(s)[i], 0);
      HeadOfLibs(s, i + 1);
    }
  }

  /** What is under child i stands in one piece among what is under the node. */
  lemma KidIs(s: Shape, n: Id, i: nat)
    requires Ok(s) && n in s.kids && i < |s.kids[n]|
    ensures IsChild(s, s.kids[n][i], n) && s.kids[n][i] != 0
  {
    assert NodeOk(s, n);
  }

  lemma PreFromStep(s: Shape, n: Id, i: nat)
    requires Ok(s) && n in s.kids && i < |s.kids[n]|
    ensures IsChild(s, s.kids[n][i], n) && s.kids[n][i] in s.kids && PreFrom(s, n, i) == Pre(s, s.kids[n][i]) + PreFrom(s, n, i + 1)
  {
    KidIs(s, n, i);
  }

  lemma {:induction false} KidsSplit(s: Shape, n: Id, j: nat, i: nat) returns (front: seq<Id>)
    requires Ok(s) && n in s.kids && j <= i < |s.kids[n]|
    ensures IsChild(s, s.kids[n][i], n)
    ensures PreFrom(s, n, j) == front + Pre(s, s.kids[n][i]) + PreFrom(s, n, i + 1)
    decreases i - j
  {
    hide *;
    PreFromStep(s, n, j);
    PreFromStep(s, n, i);
    if j == i {
      front := [];
    } else {
      var rest := KidsSplit(s, n, j + 1, i);
      front := Pre(s, s.kids[n][j]) + rest;
      JoinFront(Pre(s, s.kids[n][j]), rest, Pre(s, s.kids[n][i]), PreFrom(s, n, i + 1));
    }
  }

  lemma {:induction false} LibsSplit(s: Shape, j: nat, i: nat) returns (front: seq<Id>)
    requires Ok(s) && j <= i < |Libraries(s)|
    ensures IsLibrary(s, Libraries(s)[i]) && Libraries(s)[i] in s.kids
    ensures LibsFrom(s, j) == front + PreFrom(s, Libraries(s)[i], 0) + LibsFrom(s, i + 1)
    decreases i - j
  {
    hide Ok, Libraries, PreFrom;
    LibraryFacts(s, j);
    LibraryFacts(s, i);
    if j == i {
      front := [];
    } else {
      var rest := LibsSplit(s, j + 1, i);
      front := PreFrom(s, Libraries(s)[j], 0) + rest;
      JoinFront(PreFrom(s, Libraries(s)[j], 0), rest, PreFrom(s, Libraries(s)[i], 0), LibsFrom(s, i + 1));
    }
  }

  lemma Regroup(a: seq<Id>, b: seq<Id>, c: seq<Id>, d: seq<Id>, e: seq<Id>)
    ensures a + (b + c + d) + e == (a + b) + c + (d + e)
  {}

  lemma JoinFront(a: seq<Id>, b: seq<Id>, c: seq<Id>, d: seq<Id>)
    ensures a + (b + c + d) == (a + b) + c + d
  {}

  /** A class's subtree stands in one piece in the order, and what follows the
      piece is what After says. */
  lemma {:induction false} SubtreeStands(s: Shape, c: Id) returns (x: seq<Id>, y: seq<Id>)
    requires Ok(s) && c in s.classes
    ensures c in s.kids && AllClasses(s) == x + Pre(s, c) + y && Head(y) == After(s, c) && (y == [] <==> After(s, c) == 0)
    decreases NodeHeight(s, s.root) - Up(s, c)
  {
    hide PreFrom, LibsFrom, FirstFrom, FirstClassIn;
    assert ClassOk(s, c);
    Facts(s, c);
    var m := s.up[c];
    Facts(s, m);
    var i := IndexOf(s.kids[m], c);
    var front := KidsSplit(s, m, 0, i);
    HeadOfKids(s, m, i + 1);
    var here := PreFrom(s, m, i + 1);
    if IsLibrary(s, m) {
      var k := IndexOf(Libraries(s), m);
      var before := LibsSplit(s, 0, k);
      HeadOfLibs(s, k + 1);
      assert After(s, m) == FirstFrom(s, k + 1);
      x, y := before + front, here + LibsFrom(s, k + 1);
      Regroup(before, front, Pre(s, c), here, LibsFrom(s, k + 1));
    } else {
      var x0, y0 := SubtreeStands(s, m);
      x, y := x0 + [m] + front, here + y0;
      Regroup(x0 + [m], front, Pre(s, c), here, y0);
      assert x0 + Pre(s, m) + y0 == x0 + [m] + PreFrom(s, m, 0) + y0;
    }
  }

  /** The successor of a class is the class that comes next. */
  lemma SuccessorIsNext(s: Shape, c: Id) returns (x: seq<Id>, y: seq<Id>)
    requires Ok(s) && c in s.classes
    ensures AllClasses(s) == x + [c] + y && Head(y) == Successor(s, c) && (y == [] <==> Successor(s, c) == 0)
  {
    var before, rest := SubtreeStands(s, c);
    HeadOfKids(s, c, 0);
    x, y := before, PreFrom(s, c, 0) + rest;
  }

  // ---- once each ----------------------------------------------------------------------

  /** n is x or stands above it. */
  predicate Below(s: Shape, x: Id, n: Id)
    requires Ok(s) && x in s.kids
    decreases NodeHeight(s, s.root) - NodeHeight(s, x)
  {
    Facts(s, x);
    x == n || (x in s.up && Below(s, s.up[x], n))
  }

  lemma {:induction false} BelowIsLower(s: Shape, x: Id, n: Id)
    requires Ok(s) && x in s.kids && n in s.kids && Below(s, x, n)
    ensures NodeHeight(s, x) <= NodeHeight(s, n) && (x != n ==> NodeHeight(s, x) < NodeHeight(s, n))
    decreases NodeHeight(s, s.root) - NodeHeight(s, x)
  {
    Facts(s, x);
    if x != n { BelowIsLower(s, s.up[x], n); }
  }

  lemma {:induction false} OneLine(s: Shape, x: Id, a: Id, b: Id)
    requires Ok(s) && x in s.kids && a in s.kids && b in s.kids && Below(s, x, a) && Below(s, x, b)
    ensures Below(s, a, b) || Below(s, b, a)
    decreases NodeHeight(s, s.root) - NodeHeight(s, x)
  {
    Facts(s, x);
    if x != a && x != b { OneLine(s, s.up[x], a, b); }
  }

  /** Nothing is below two children of one node. */
  lemma SiblingsApart(s: Shape, x: Id, n: Id, i: nat, j: nat)
    requires Ok(s) && x in s.kids && n in s.kids && i < |s.kids[n]| && j < |s.kids[n]| && i != j
    ensures IsChild(s, s.kids[n][i], n) && IsChild(s, s.kids[n][j], n)
    ensures !(Below(s, x, s.kids[n][i]) && Below(s, x, s.kids[n][j]))
  {
    assert NodeOk(s, n);
    var a, b := s.kids[n][i], s.kids[n][j];
    assert IsChild(s, a, n) && IsChild(s, b, n) && a != b;
    if Below(s, x, a) && Below(s, x, b) {
      OneLine(s, x, a, b);
      if Below(s, a, b) { BelowIsLower(s, n, b); } else { BelowIsLower(s, n, a); }
    }
  }

  lemma {:induction false} PreIsBelow(s: Shape, n: Id, x: Id)
    requires Ok(s) && n in s.kids && x in Pre(s, n)
    ensures x in s.classes && x in s.kids && Below(s, x, n)
    decreases NodeHeight(s, n), |s.kids[n]| + 1
  {
    if x != n {
      var i := KidsAreBelow(s, n, 0, x);
      BelowStep(s, x, s.kids[n][i]);
    }
  }

  lemma {:induction false} BelowStep(s: Shape, x: Id, k: Id)
    requires Ok(s) && x in s.kids && k in s.kids && k in s.up && Below(s, x, k)
    ensures Below(s, x, s.up[k])
    decreases NodeHeight(s, s.root) - NodeHeight(s, x)
  {
    Facts(s, x);
    if x != k { BelowStep(s, s.up[x], k); }
  }

  lemma {:induction false} KidsAreBelow(s: Shape, n: Id, i: nat, x: Id) returns (j: nat)
    requires Ok(s) && n in s.kids && i <= |s.kids[n]| && x in PreFrom(s, n, i)
    ensures i <= j < |s.kids[n]| && IsChild(s, s.kids[n][j], n) && x in s.classes && x in s.kids && Below(s, x, s.kids[n][j])
    decreases NodeHeight(s, n), |s.kids[n]| - i
  {
    assert NodeOk(s, n) && IsChild(s, s.kids[n][i], n);
    if x in Pre(s, s.kids[n][i]) {
      j := i;
      PreIsBelow(s, s.kids[n][i], x);
    } else {
      j := KidsAreBelow(s, n, i + 1, x);
    }
  }

  lemma OnceJoin(a: seq<Id>, b: seq<Id>)
    requires Once(a) && Once(b) && forall x :: x in a ==> x !in b
    ensures Once(a + b)
  {
    forall i, j | 0 <= i < j < |a + b| ensures (a + b)[i] != (a + b)[j] {
      if i < |a| && |a| <= j { assert a[i] in a && b[j - |a|] in b; }
    }
  }

  lemma {:induction false} PreOnce(s: Shape, n: Id)
    requires Ok(s) && n in s.kids
    ensures Once(Pre(s, n))
    decreases NodeHeight(s, n), |s.kids[n]| + 1
  {
    if n in s.classes {
      KidsOnce(s, n, 0);
      if n in PreFrom(s, n, 0) {
        var j := KidsAreBelow(s, n, 0, n);
        BelowIsLower(s, n, s.kids[n][j]);
      }
      OnceJoin([n], PreFrom(s, n, 0));
    }
  }

  lemma {:induction false} KidsOnce(s: Shape, n: Id, i: nat)
    requires Ok(s) && n in s.kids && i <= |s.kids[n]|
    ensures Once(PreFrom(s, n, i))
    decreases NodeHeight(s, n), |s.kids[n]| - i
  {
    if i < |s.kids[n]| {
      assert NodeOk(s, n) && IsChild(s, s.kids[n][i], n);
      PreOnce(s, s.kids[n][i]);
      KidsOnce(s, n, i + 1);
      forall x | x in Pre(s, s.kids[n][i]) ensures x !in PreFrom(s, n, i + 1) {
        PreIsBelow(s, s.kids[n][i], x);
        if x in PreFrom(s, n, i + 1) {
          var j := KidsAreBelow(s, n, i + 1, x);
          SiblingsApart(s, x, n, i, j);
        }
      }
      OnceJoin(Pre(s, s.kids[n][i]), PreFrom(s, n, i + 1));
    }
  }

  lemma {:induction false} LibsAreBelow(s: Shape, i: nat, x: Id) returns (j: nat)
    requires Ok(s) && i <= |Libraries(s)| && x in LibsFrom(s, i)
    ensures i <= j < |Libraries(s)| && IsChild(s, Libraries(s)[j], s.root) && x in s.classes && x in s.kids
    ensures Below(s, x, Libraries(s)[j])
    decreases |Libraries(s)| - i
  {
    LibraryFacts(s, i);
    if x in PreFrom(s, Libraries(s)[i], 0) {
      j := i;
      var k := KidsAreBelow(s, Libraries(s)[i], 0, x);
      BelowStep(s, x, s.kids[Libraries(s)[i]][k]);
    } else {
      j := LibsAreBelow(s, i + 1, x);
    }
  }

  lemma {:induction false} LibsOnce(s: Shape, i: nat)
    requires Ok(s) && i <= |Libraries(s)|
    ensures Once(LibsFrom(s, i))
    decreases |Libraries(s)| - i
  {
    if i < |Libraries(s)| {
      LibraryFacts(s, i);
      var lib := Libraries(s)[i];
      KidsOnce(s, lib, 0);
      LibsOnce(s, i + 1);
      forall x | x in PreFrom(s, lib, 0) ensures x !in LibsFrom(s, i + 1) {
        var k := KidsAreBelow(s, lib, 0, x);
        BelowStep(s, x, s.kids[lib][k]);
        if x in LibsFrom(s, i + 1) {
          var j := LibsAreBelow(s, i + 1, x);
          SiblingsApart(s, x, s.root, i, j);
        }
      }
      OnceJoin(PreFrom(s, lib, 0), LibsFrom(s, i + 1));
    }
  }

  /** The order holds every class, once, and nothing else. */
  lemma EveryClassOnce(s: Shape)
    requires Ok(s)
    ensures Once(AllClasses(s)) && forall c :: c in AllClasses(s) <==> c in s.classes
  {
    LibsOnce(s, 0);
    forall c ensures c in AllClasses(s) <==> c in s.classes {
      if c in s.classes { var x, y := SuccessorIsNext(s, c); }
      if c in AllClasses(s) { var j := LibsAreBelow(s, 0, c); }
    }
  }

  /** The walk from the first class by successors is the order. */
  lemma NextByIndex(s: Shape, i: nat)
    requires Ok(s) && i < |AllClasses(s)|
    ensures AllClasses(s)[i] in s.classes
    ensures Successor(s, AllClasses(s)[i]) == if i + 1 < |AllClasses(s)| then AllClasses(s)[i + 1] else 0
  {
    EveryClassOnce(s);
    var all, c := AllClasses(s), AllClasses(s)[i];
    assert c in all;
    var x, y := SuccessorIsNext(s, c);
    assert all[|x|] == c;
    assert all == x + [c] + y;
  }

  // ---- instances ----------------------------------------------------------------------

  /** The children that are no classes, from child i on. */
  function InstKids(s: Shape, n: Id, i: nat): seq<Id>
    requires n in s.kids && i <= |s.kids[n]|
    decreases |s.kids[n]| - i
  {
    if i == |s.kids[n]| then []
    else if s.kids[n][i] in s.classes then InstKids(s, n, i + 1)
    else [s.kids[n][i]] + InstKids(s, n, i + 1)
  }

  function FirstInstIn(s: Shape, n: Id, i: nat): Id
    requires n in s.kids && i <= |s.kids[n]|
    decreases |s.kids[n]| - i
  {
    if i == |s.kids[n]| then 0 else if s.kids[n][i] !in s.classes then s.kids[n][i] else FirstInstIn(s, n, i + 1)
  }

  /** The instances of class number k and of the classes after it. */
  function InstFrom(s: Shape, k: nat): seq<Id>
    requires Ok(s) && k <= |AllClasses(s)|
    decreases |AllClasses(s)| - k
  {
    if k == |AllClasses(s)| then []
    else
      ClassNode(s, k);
      InstKids(s, AllClasses(s)[k], 0) + InstFrom(s, k + 1)
  }

  lemma ClassNode(s: Shape, k: nat)
    requires Ok(s) && k < |AllClasses(s)|
    ensures AllClasses(s)[k] in s.kids && AllClasses(s)[k] in s.classes && 0 !in s.classes
  {
    EveryClassOnce(s);
    assert AllClasses(s)[k] in AllClasses(s);
    assert ClassOk(s, AllClasses(s)[k]);
    assert 0 in s.classes ==> ClassOk(s, 0);
  }

  function AllInstances(s: Shape): seq<Id>
    requires Ok(s)
  {
    InstFrom(s, 0)
  }

  /** The first instance of class number k or of any after it. */
  function FirstInstFrom(s: Shape, k: nat): Id
    requires Ok(s) && k <= |AllClasses(s)|
    decreases |AllClasses(s)| - k
  {
    if k == |AllClasses(s)| then 0
    else
      ClassNode(s, k);
      var d := FirstInstIn(s, AllClasses(s)[k], 0);
      if d != 0 then d else FirstInstFrom(s, k + 1)
  }

  predicate IsInstance(s: Shape, x: Id) {
    x in s.up && s.up[x] in s.classes && x !in s.classes
  }

  function ClassIndex(s: Shape, c: Id): (k: nat)
    requires Ok(s) && c in s.classes
    ensures k < |AllClasses(s)| && AllClasses(s)[k] == c
  {
    EveryClassOnce(s);
    IndexOf(AllClasses(s), c)
  }

  /** The next instance of the same class, or the first of a class after it. */
  function NextInst(s: Shape, x: Id): Id
    requires Ok(s) && IsInstance(s, x)
  {
    Facts(s, x);
    var m := s.up[x];
    assert ClassOk(s, m);
    var d := FirstInstIn(s, m, IndexOf(s.kids[m], x) + 1);
    if d != 0 then d else FirstInstFrom(s, ClassIndex(s, m) + 1)
  }

  lemma {:induction false} HeadOfInsts(s: Shape, n: Id, i: nat)
    requires Ok(s) && n in s.kids && i <= |s.kids[n]|
    ensures Head(InstKids(s, n, i)) == FirstInstIn(s, n, i) && (InstKids(s, n, i) == [] <==> FirstInstIn(s, n, i) == 0)
    ensures forall x :: x in InstKids(s, n, i) ==> x !in s.classes && x in s.up && s.up[x] == n
    decreases |s.kids[n]| - i
  {
    hide Ok, NodeOk, ChildOk, ClassOk;
    if i < |s.kids[n]| {
      KidIs(s, n, i);
      HeadOfInsts(s, n, i + 1);
    }
  }

  lemma {:induction false} HeadOfInstFrom(s: Shape, k: nat)
    requires Ok(s) && k <= |AllClasses(s)|
    ensures Head(InstFrom(s, k)) == FirstInstFrom(s, k) && (InstFrom(s, k) == [] <==> FirstInstFrom(s, k) == 0)
    decreases |AllClasses(s)| - k
  {
    if k < |AllClasses(s)| {
      ClassNode(s, k);
      HeadOfInsts(s, AllClasses(s)[k], 0);
      HeadOfInstFrom(s, k + 1);
    }
  }

  lemma {:induction false} InstKidsSplit(s: Shape, n: Id, j: nat, i: nat) returns (front: seq<Id>)
    requires n in s.kids && j <= i < |s.kids[n]| && s.kids[n][i] !in s.classes
    ensures InstKids(s, n, j) == front + [s.kids[n][i]] + InstKids(s, n, i + 1)
    decreases i - j
  {
    if j == i {
      front := [];
    } else {
      var rest := InstKidsSplit(s, n, j + 1, i);
      front := if s.kids[n][j] in s.classes then rest else [s.kids[n][j]] + rest;
      JoinFront([s.kids[n][j]], rest, [s.kids[n][i]], InstKids(s, n, i + 1));
    }
  }

  lemma InstFromStep(s: Shape, k: nat)
    requires Ok(s) && k < |AllClasses(s)|
    ensures AllClasses(s)[k] in s.kids && InstFrom(s, k) == InstKids(s, AllClasses(s)[k], 0) + InstFrom(s, k + 1)
  {
    ClassNode(s, k);
    hide AllClasses, InstKids;
  }

  lemma {:induction false} InstFromSplit(s: Shape, j: nat, k: nat) returns (front: seq<Id>)
    requires Ok(s) && j <= k < |AllClasses(s)|
    ensures AllClasses(s)[k] in s.kids
    ensures InstFrom(s, j) == front + InstKids(s, AllClasses(s)[k], 0) + InstFrom(s, k + 1)
    decreases k - j
  {
    hide *;
    InstFromStep(s, j);
    if j == k {
      front := [];
    } else {
      var rest := InstFromSplit(s, j + 1, k);
      front := InstKids(s, AllClasses(s)[j], 0) + rest;
      JoinFront(InstKids(s, AllClasses(s)[j], 0), rest, InstKids(s, AllClasses(s)[k], 0), InstFrom(s, k + 1));
    }
  }

  /** The instance the cursor moves to is the one that comes next. */
  lemma WhereInstance(s: Shape, x: Id)
    requires Ok(s) && IsInstance(s, x)
    ensures var m := s.up[x];
            && m in s.kids && m in s.classes && ClassOk(s, m) && x in s.kids[m]
            && NextInst(s, x) == var d := FirstInstIn(s, m, IndexOf(s.kids[m], x) + 1); if d != 0 then d else FirstInstFrom(s, ClassIndex(s, m) + 1)
  {
    hide FirstInstIn, FirstInstFrom, ClassIndex, IndexOf, AllClasses, NodeOk;
    Facts(s, x);
    assert ClassOk(s, s.up[x]);
  }

  lemma NextInstIsNext(s: Shape, x: Id) returns (a: seq<Id>, b: seq<Id>)
    requires Ok(s) && IsInstance(s, x)
    ensures AllInstances(s) == a + [x] + b && Head(b) == NextInst(s, x) && (b == [] <==> NextInst(s, x) == 0)
  {
    hide InstKids, InstFrom, FirstInstIn, FirstInstFrom, AllClasses, NodeOk, ChildOk, ClassOk, IsChild;
    WhereInstance(s, x);
    var m := s.up[x];
    var i, k := IndexOf(s.kids[m], x), ClassIndex(s, m);
    var front := InstKidsSplit(s, m, 0, i);
    var before := InstFromSplit(s, 0, k);
    HeadOfInsts(s, m, i + 1);
    HeadOfInstFrom(s, k + 1);
    a, b := before + front, InstKids(s, m, i + 1) + InstFrom(s, k + 1);
    Regroup(before, front, [x], InstKids(s, m, i + 1), InstFrom(s, k + 1));
  }

  lemma {:induction false} InstKidsOnce(s: Shape, n: Id, i: nat)
    requires Ok(s) && n in s.kids && i <= |s.kids[n]|
    ensures Once(InstKids(s, n, i)) && forall x :: x in InstKids(s, n, i) ==> x in s.kids[n][i..]
    decreases |s.kids[n]| - i
  {
    if i < |s.kids[n]| {
      assert NodeOk(s, n);
      InstKidsOnce(s, n, i + 1);
      assert s.kids[n][i..] == [s.kids[n][i]] + s.kids[n][i + 1..];
      OnceJoin([s.kids[n][i]], InstKids(s, n, i + 1));
    }
  }

  lemma NotLater(q: seq<Id>, k: nat)
    requires Once(q) && k < |q|
    ensures q[k] !in q[k + 1..]
  {}

  lemma {:induction false} InstFromOnce(s: Shape, k: nat)
    requires Ok(s) && k <= |AllClasses(s)|
    ensures Once(InstFrom(s, k))
    ensures forall x :: x in InstFrom(s, k) ==> IsInstance(s, x) && s.up[x] in AllClasses(s)[k..]
    decreases |AllClasses(s)| - k
  {
    hide Ok, AllClasses, InstKids;
    if k < |AllClasses(s)| {
      ClassNode(s, k);
      var all, c := AllClasses(s), AllClasses(s)[k];
      EveryClassOnce(s);
      InstKidsOnce(s, c, 0);
      HeadOfInsts(s, c, 0);
      InstFromOnce(s, k + 1);
      assert all[k..] == [c] + all[k + 1..];
      forall x | x in InstKids(s, c, 0) ensures x !in InstFrom(s, k + 1) {
        NotLater(all, k);
      }
      OnceJoin(InstKids(s, c, 0), InstFrom(s, k + 1));
    }
  }

  /** The order holds every instance of every class, once, and nothing else. */
  lemma EveryInstanceOnce(s: Shape)
    requires Ok(s)
    ensures Once(AllInstances(s)) && forall x :: x in AllInstances(s) <==> IsInstance(s, x)
  {
    InstFromOnce(s, 0);
    forall x ensures x in AllInstances(s) <==> IsInstance(s, x) {
      if IsInstance(s, x) { var a, b := NextInstIsNext(s, x); }
    }
  }

  lemma NextInstByIndex(s: Shape, i: nat)
    requires Ok(s) && i < |AllInstances(s)|
    ensures IsInstance(s, AllInstances(s)[i])
    ensures NextInst(s, AllInstances(s)[i]) == if i + 1 < |AllInstances(s)| then AllInstances(s)[i + 1] else 0
  {
    EveryInstanceOnce(s);
    var all, x := AllInstances(s), AllInstances(s)[i];
    assert x in all;
    var a, b := NextInstIsNext(s, x);
    assert all[|a|] == x;
    assert all == a + [x] + b;
  }

  // ---- a class is moved under another ---------------------------------------------------

  /** Heights when a class goes under p: everything above p makes room. */
  function Raised(s: Shape, c: Id, p: Id): map<Id, nat>
    requires Ok(s) && c in s.kids && p in s.kids
  {
    map n | n in s.kids :: if Below(s, p, n) then NodeHeight(s, n) + NodeHeight(s, c) + 1 else NodeHeight(s, n)
  }

  function WithoutChild(q: seq<Id>, c: Id): seq<Id>
    requires c in q
  {
    q[..IndexOf(q, c)] + q[IndexOf(q, c) + 1..]
  }

  /** A new child goes behind the first. */
  function WithChild(q: seq<Id>, c: Id): seq<Id> {
    if q == [] then [c] else [q[0], c] + q[1..]
  }

  /** c taken out from under its parent, and put under p. */
  function Moved(s: Shape, c: Id, p: Id): Shape
    requires Ok(s) && c in s.classes && p in s.classes
  {
    assert ClassOk(s, c) && ClassOk(s, p);
    assert ChildOk(s, c);
    var from := s.up[c];
    var out := s.kids[from := WithoutChild(s.kids[from], c)];
    s.(kids := out[p := WithChild(out[p], c)], up := s.up[c := p], height := Raised(s, c, p))
  }

  lemma WithoutOnce(q: seq<Id>, c: Id)
    requires Once(q) && c in q
    ensures Once(WithoutChild(q, c)) && forall x :: x in WithoutChild(q, c) <==> x in q && x != c
  {
    var i := IndexOf(q, c);
    forall x ensures x in WithoutChild(q, c) <==> x in q && x != c {
      if x in q && x != c {
        var j :| 0 <= j < |q| && q[j] == x;
        assert WithoutChild(q, c)[if j < i then j else j - 1] == x;
      }
    }
  }

  lemma WithOnce(q: seq<Id>, c: Id)
    requires Once(q) && c !in q
    ensures Once(WithChild(q, c)) && forall x :: x in WithChild(q, c) <==> x in q || x == c
  {
    if q != [] { assert q == [q[0]] + q[1..]; }
  }

  /** Moving a class under another that is not below it leaves a forest of the same
      classes and the same instances. */
  lemma MovedIsOk(s: Shape, c: Id, p: Id)
    requires Ok(s) && c in s.classes && p in s.classes && c in s.kids && p in s.kids && !Below(s, p, c)
    ensures Ok(Moved(s, c, p)) && Moved(s, c, p).classes == s.classes && Moved(s, c, p).root == s.root
    ensures forall x :: IsInstance(Moved(s, c, p), x) <==> IsInstance(s, x)
  {
    var r := Moved(s, c, p);
    MovedParts(s, c, p);
    hide Moved, NodeOk, ChildOk, ClassOk, Below, IsInstance;
    forall n | n in r.kids ensures NodeOk(r, n) { MovedNode(s, c, p, n); }
    forall k | k in r.up ensures ChildOk(r, k) { MovedUp(s, c, p, k); }
  }

  /** A forest, for some choice of heights. */
  ghost predicate IsForest(s: Shape, height: map<Id, nat>) {
    Ok(s.(height := height))
  }

  /** Moving a class leaves a forest exactly when its new parent is not the class
      itself and not below it. */
  lemma MovedIsForestIff(s: Shape, c: Id, p: Id)
    requires Ok(s) && c in s.classes && p in s.classes && c in s.kids && p in s.kids
    ensures (exists h :: IsForest(Moved(s, c, p), h)) <==> !Below(s, p, c)
  {
    hide NodeOk, ChildOk, ClassOk, WithChild, WithoutChild, Raised, Below;
    if !Below(s, p, c) {
      MovedIsOk(s, c, p);
      assert IsForest(Moved(s, c, p), Moved(s, c, p).height);
    } else if h :| IsForest(Moved(s, c, p), h) {
      var r := Moved(s, c, p).(height := h);
      StillNotAbove(s, r, c, p, p);
      Facts(r, c);
      assert false;
    }
  }

  /** What was below c before the move stands no higher than c after it. */
  lemma {:induction false} StillNotAbove(s: Shape, r: Shape, c: Id, p: Id, n: Id)
    requires Ok(s) && Ok(r) && c in s.kids && n in s.kids && Below(s, n, c)
    requires r.kids.Keys == s.kids.Keys && r.root == s.root && forall k :: k in s.up && k != c ==> k in r.up && r.up[k] == s.up[k]
    ensures NodeHeight(r, n) <= NodeHeight(r, c)
    decreases NodeHeight(s, s.root) - NodeHeight(s, n)
  {
    if n != c {
      Facts(s, n);
      Facts(r, n);
      BelowRoot(s, s.up[n]);
      StillNotAbove(s, r, c, p, s.up[n]);
    }
  }

  lemma MovedParts(s: Shape, c: Id, p: Id)
    requires Ok(s) && c in s.classes && p in s.classes && c in s.kids && p in s.kids
    ensures var r := Moved(s, c, p);
            && r.kids.Keys == s.kids.Keys && r.up.Keys == s.up.Keys && r.root == s.root && r.classes == s.classes
            && (forall k :: k in r.classes ==> ClassOk(r, k))
            && (forall x :: IsInstance(r, x) <==> IsInstance(s, x))
  {
    hide NodeOk, Raised, WithChild, WithoutChild;
    var r := Moved(s, c, p);
    Facts(s, c);
    Facts(s, p);
    forall k | k in r.classes ensures ClassOk(r, k) { assert ClassOk(s, k); }
    forall x ensures IsInstance(r, x) <==> IsInstance(s, x) {}
  }

  /** The children after the move, node by node. */
  lemma MovedKids(s: Shape, c: Id, p: Id, n: Id)
    requires Ok(s) && c in s.classes && p in s.classes && c in s.kids && p in s.kids && n in s.kids
    ensures n in Moved(s, c, p).kids && Once(Moved(s, c, p).kids[n])
    ensures forall k :: k in Moved(s, c, p).kids[n] <==> (k == c && n == p) || (k != c && k in s.kids[n])
  {
    Facts(s, c);
    var from := s.up[c];
    assert NodeOk(s, from) && NodeOk(s, p) && NodeOk(s, n);
    WithoutOnce(s.kids[from], c);
    forall m, i | m in {n, p} && m != from && 0 <= i < |s.kids[m]| ensures s.kids[m][i] != c { assert IsChild(s, s.kids[m][i], m); }
    WithOnce(if from == p then WithoutChild(s.kids[p], c) else s.kids[p], c);
  }

  /** One entry is cut out; the others keep their order. */
  predicate Cut(q: seq<Id>, c: Id, r: seq<Id>) {
    exists i :: 0 <= i < |q| && q[i] == c && r == q[..i] + q[i + 1..]
  }

  /** The class stands behind its new parent's first child, or alone; its old parent's other
      children, its new parent's, and everyone else's stand as they stood. */
  lemma MovedStands(s: Shape, c: Id, p: Id)
    requires Ok(s) && c in s.classes && p in s.classes && c in s.kids && p in s.kids
    ensures var r, from := Moved(s, c, p), s.up[c];
            && from in s.kids && r.up == s.up[c := p]
            && (forall n :: n in s.kids && n != p && n != from ==> r.kids[n] == s.kids[n])
            && (from != p ==> Cut(s.kids[from], c, r.kids[from]))
            && exists q: seq<Id> :: (if from == p then Cut(s.kids[p], c, q) else q == s.kids[p])
                 && (if q == [] then r.kids[p] == [c] else |r.kids[p]| > 1 && r.kids[p][0] == q[0] && r.kids[p][1] == c && Cut(r.kids[p], c, q))
  {
    Facts(s, c);
    var r, from := Moved(s, c, p), s.up[c];
    var out := WithoutChild(s.kids[from], c);
    var i := IndexOf(s.kids[from], c);
    assert s.kids[from][i] == c && Cut(s.kids[from], c, out);
    var q := if from == p then out else s.kids[p];
    if q != [] {
      var w := WithChild(q, c);
      assert w[1] == c && w[..1] + w[2..] == q && Cut(w, c, q);
    }
  }

  lemma MovedNode(s: Shape, c: Id, p: Id, n: Id)
    requires Ok(s) && c in s.classes && p in s.classes && c in s.kids && p in s.kids && n in s.kids && !Below(s, p, c)
    ensures NodeOk(Moved(s, c, p), n)
  {
    var r := Moved(s, c, p);
    MovedKids(s, c, p, n);
    forall i | 0 <= i < |r.kids[n]| ensures IsChild(r, r.kids[n][i], n) {
      assert r.kids[n][i] in r.kids[n];
      MovedChild(s, c, p, n, r.kids[n][i]);
    }
    RootAbove(s, p);
    BelowRoot(s, n);
  }

  lemma MovedUp(s: Shape, c: Id, p: Id, k: Id)
    requires Ok(s) && c in s.classes && p in s.classes && c in s.kids && p in s.kids && k in s.up
    ensures ChildOk(Moved(s, c, p), k)
  {
    assert ChildOk(s, k);
    MovedKids(s, c, p, if k == c then p else s.up[k]);
  }

  lemma {:induction false} RootAbove(s: Shape, n: Id)
    requires Ok(s) && n in s.kids
    ensures Below(s, n, s.root)
    decreases NodeHeight(s, s.root) - NodeHeight(s, n)
  {
    Facts(s, n);
    if n != s.root { RootAbove(s, s.up[n]); }
  }

  lemma BelowRoot(s: Shape, n: Id)
    requires Ok(s) && n in s.kids
    ensures NodeHeight(s, n) <= NodeHeight(s, s.root)
  {
    assert NodeOk(s, n);
  }

  lemma MovedChild(s: Shape, c: Id, p: Id, n: Id, k: Id)
    requires Ok(s) && c in s.classes && p in s.classes && c in s.kids && p in s.kids && !Below(s, p, c)
    requires n in s.kids && ((k == c && n == p) || (k != c && k in s.kids[n]))
    ensures IsChild(Moved(s, c, p), k, n)
  {
    var r := Moved(s, c, p);
    assert Below(s, p, p);
    if k != c {
      assert NodeOk(s, n);
      var i :| 0 <= i < |s.kids[n]| && s.kids[n][i] == k;
      assert IsChild(s, k, n);
      if Below(s, p, k) { BelowStep(s, p, k); }
    }
    assert k in s.kids && k != s.root by { Facts(s, c); }
  }
}
