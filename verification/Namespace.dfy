/** The path trie of src/namespace.c as the program keeps it: nodes linked by
    child and next pointers and spliced in place. Every operation is proved
    to do to the linked nodes what the matching TrieModel function does to
    the tree they stand for. */
module Namespace {
  import opened TrieModel

  datatype Origin = Top | ChildOf(parent: NSObj) | After(sibling: NSObj)

  class NSObj {
    var child: NSObj?
    var next: NSObj?
    var character: char
    var value: int

    /** The one pointer that leads here. */
    ghost var origin: Origin

    constructor (c: char, next: NSObj?, ghost origin: Origin)
      ensures child == null && this.next == next && character == c && value == 0
      ensures this.origin == origin
    {
      this.child, this.next, this.character, this.value, this.origin := null, next, c, 0, origin;
    }
  }

  /** The longest path deletion keeps track of. */
  const MAX_PATH: nat := 512

  /** The nodes insertion has to create. */
  function Missing(t: Trie, k: Key): nat
    decreases |k|, t
  {
    if t.Nil? || k[0] < t.ch then |k|
    else if k[0] > t.ch then Missing(t.next, k)
    else if |k| == 1 then 0
    else Missing(t.child, k[1..])
  }

  /** A node a walk came by, and how much of the key was used up there. */
  datatype Visit = Visit(n: NSObj, used: nat)

  class NSTrie {
    const root: NSObj
    /** Nodes allocated and not yet freed. */
    var alive: int
    ghost var nodes: set<NSObj>
    /** The tree each node stands for, together with its later siblings. */
    ghost var shape: map<NSObj, Trie>

    ghost function ModelOf(p: NSObj?): Trie
      reads this`shape
    {
      if p == null || p !in shape then Nil else shape[p]
    }

    /** What a node stands for, read off its fields and pointers. */
    ghost function Actual(n: NSObj): Trie
      reads this`shape, n
    {
      Node(n.character, n.value, ModelOf(n.child), ModelOf(n.next))
    }

    /** The same with one of its parts still to be put in place. */
    ghost function WithValue(n: NSObj, v: int): Trie
      reads this`shape, n
    {
      Node(n.character, v, ModelOf(n.child), ModelOf(n.next))
    }

    ghost function WithChild(n: NSObj, t: Trie): Trie
      reads this`shape, n
    {
      Node(n.character, n.value, t, ModelOf(n.next))
    }

    ghost function WithNext(n: NSObj, t: Trie): Trie
      reads this`shape, n
    {
      Node(n.character, n.value, ModelOf(n.child), t)
    }

    ghost predicate Stands(n: NSObj)
      reads this`shape, n
    {
      n in shape && shape[n] == Actual(n)
    }

    /** Pointers stay among the nodes, and a node is led to by one pointer only. */
    ghost predicate Linked(n: NSObj)
      reads this`nodes, nodes
    {
      && n in nodes
      && (n.child != null ==> n.child in nodes && n.child != n && n.child.origin == ChildOf(n))
      && (n.next != null ==> n.next in nodes && n.next != n && n.next.origin == After(n))
    }

    /** Every node but x stands for exactly what its pointers lead to. */
    ghost predicate ValidExcept(x: NSObj?)
      reads this`nodes, this`shape, nodes
    {
      && root in nodes && root.origin == Top && root.next == null
      && nodes <= shape.Keys
      && (forall n {:trigger Linked(n)} :: n in nodes ==> Linked(n))
      && (forall n {:trigger Stands(n)} :: n in nodes && n != x ==> Stands(n))
    }

    ghost predicate Valid()
      reads this, nodes
    {
      ValidExcept(null) && Stands(root) && alive == Size(shape[root])
    }

    /** The tree of keys: everything below the root node. */
    ghost function Tree(): Trie
      reads this, nodes
      requires Valid()
    {
      shape[root].child
    }

    constructor ()
      ensures Valid() && fresh(nodes) && Tree() == Nil && alive == 1
    {
      root := new NSObj('\0', null, Top);
      alive := 1;
      new;
      nodes := {root};
      shape := map[root := Node('\0', 0, Nil, Nil)];
    }

    /** What a node must come to stand for, when sub is still missing behind
        one of its two pointers. */
    ghost predicate Awaits(n: NSObj, below: bool, sub: Trie)
      reads this`nodes, this`shape, nodes, n
    {
      && n in nodes && ValidExcept(n) && (below || n != root)
      && Linked(n) && shape[n] == if below then WithChild(n, sub) else WithNext(n, sub)
    }

    /** Allocate a node and hook it in front of what one pointer leads to. */
    method Splice(previous: NSObj, below: bool, c: char, ghost sub: Trie) returns (temp: NSObj)
      requires Awaits(previous, below, sub)
      modifies this`alive, this`nodes, this`shape, nodes
      ensures fresh(temp) && nodes == old(nodes) + {temp} && shape == old(shape)[temp := sub]
      ensures ValidExcept(temp) && alive == old(alive) + 1
      ensures temp.character == c && temp.value == 0 && temp.child == null
      ensures ModelOf(temp.next) == old(ModelOf(if below then previous.child else previous.next))
    {
      var link := if below then previous.child else previous.next;
      temp := new NSObj(c, link, if below then ChildOf(previous) else After(previous));
      alive := alive + 1;
      if below { previous.child := temp; } else { previous.next := temp; }
      if link != null { link.origin := After(temp); }
      nodes, shape := nodes + {temp}, shape[temp := sub];
      StaysLinked(previous, below, temp, link);
      StaysStanding(previous, below, temp, sub);
    }

    /** Only one pointer was turned, and what it led to is what the new node leads to. */
    twostate lemma StaysStanding(previous: NSObj, new below: bool, new temp: NSObj, new sub: Trie)
      requires previous in old(nodes) && temp !in old(nodes) && nodes == old(nodes) + {temp}
      requires old(nodes <= shape.Keys) && temp !in old(shape) && shape == old(shape)[temp := sub]
      requires old(shape[previous]) == old(if below then WithChild(previous, sub) else WithNext(previous, sub))
      requires previous.child == (if below then temp else old(previous.child)) && previous.next == (if below then old(previous.next) else temp)
      requires forall n {:trigger old(Linked(n))} :: n in old(nodes) ==> old(Linked(n))
      requires forall n: NSObj :: n in old(nodes) && n != previous ==> n.child == old(n.child) && n.next == old(n.next)
      requires forall n: NSObj :: n in old(nodes) ==> n.character == old(n.character) && n.value == old(n.value)
      requires forall n {:trigger old(Stands(n))} :: n in old(nodes) && n != previous ==> old(Stands(n))
      ensures forall n {:trigger Stands(n)} :: n in old(nodes) ==> Stands(n)
    {
      assert old(Linked(previous));
      forall n | n in old(nodes) ensures Stands(n) {
        assert old(Linked(n));
        assert n != previous ==> old(Stands(n));
      }
    }

    /** Hooking a new node in leaves every node led to by one pointer. */
    twostate lemma StaysLinked(previous: NSObj, new below: bool, new temp: NSObj, new link: NSObj?)
      requires previous in old(nodes) && temp !in old(nodes) && nodes == old(nodes) + {temp} && link == temp.next
      requires forall n {:trigger old(Linked(n))} :: n in old(nodes) ==> old(Linked(n))
      requires link == old(if below then previous.child else previous.next)
      requires previous.child == (if below then temp else old(previous.child))
      requires previous.next == (if below then old(previous.next) else temp)
      requires temp.child == null && temp.origin == (if below then ChildOf(previous) else After(previous))
      requires link != null ==> link.origin == After(temp)
      requires forall n: NSObj :: n in old(nodes) && n != previous ==> n.child == old(n.child) && n.next == old(n.next)
      requires forall n: NSObj :: n in old(nodes) && n != link ==> n.origin == old(n.origin)
      ensures forall n {:trigger Linked(n)} :: n in nodes ==> Linked(n)
    {
      assert old(Linked(previous));
      forall n | n in nodes ensures Linked(n) {
        assert n != temp ==> old(Linked(n));
      }
    }

    /** Move on to a node that is there, which then awaits the change itself. */
    ghost method Enter(previous: NSObj, below: bool, n: NSObj, sub: Trie)
      requires Awaits(previous, below, sub)
      requires n == if below then previous.child else previous.next
      modifies this`shape
      ensures shape == old(shape)[n := sub] && n in nodes && n != root && ValidExcept(n)
    {
      assert Linked(previous);
      shape := shape[n := sub];
      forall q | q in nodes ensures Linked(q) && (q != n ==> Stands(q)) {
        assert old(Linked(q));
        assert q != previous ==> old(Stands(q));
      }
    }

    /** What is still missing below or at a node once the key has reached it. */
    ghost predicate Reached(n: NSObj, rest: string, v: int, target: int)
      reads this, nodes
    {
      && ValidExcept(n) && Linked(n) && n in nodes
      && if rest == [] then shape[n] == WithValue(n, v) && alive == target
         else Awaits(n, true, Insert(ModelOf(n.child), rest, v))
              && alive + Missing(ModelOf(n.child), rest) == target
    }

    /** One level of an insertion: walk past the smaller siblings, then use the
        node that carries the next character or hook a new one in. */
    method InsertLevel(previous: NSObj, c: char, ghost rest: Key, ghost v: int, ghost target: int)
      returns (current: NSObj)
      requires previous in nodes && rest[0] == c && Reached(previous, rest, v, target)
      modifies this`alive, this`nodes, this`shape, nodes
      ensures fresh(nodes - old(nodes)) && ModelOf(root) == old(ModelOf(root))
      ensures Reached(current, rest[1..], v, target)
    {
      var passed: NSObj := previous;
      var below, here := true, previous.child;
      while here != null && c > here.character
        invariant here == (if below then passed.child else passed.next)
        invariant nodes == old(nodes) && alive == old(alive) && ModelOf(root) == old(ModelOf(root))
        invariant Awaits(passed, below, Insert(ModelOf(here), rest, v))
        invariant alive + Missing(ModelOf(here), rest) == target
        decreases ModelOf(here)
      {
        assert Linked(passed) && Stands(here) && Linked(here);
        Enter(passed, below, here, Insert(ModelOf(here), rest, v));
        passed, below, here := here, false, here.next;
      }
      if here == null || c != here.character {
        assert here != null ==> Stands(here);
        current := Splice(passed, below, c, Insert(ModelOf(here), rest, v));
      } else {
        assert Linked(passed) && Stands(here) && Linked(here);
        Enter(passed, below, here, Insert(ModelOf(here), rest, v));
        current := here;
      }
      assert Linked(current);
    }

    method NSInsert(s: string, v: int) returns (ok: bool)
      requires Valid()
      modifies this, nodes
      ensures Valid() && fresh(nodes - old(nodes))
      ensures ok <==> s != []
      ensures Tree() == if s == [] then old(Tree()) else Insert(old(Tree()), s, v)
    {
      if s == [] { return false; }
      var previous := root;
      var loc := 0;
      ghost var grown := Insert(Tree(), s, v);
      SizeInsert(Tree(), s, v);
      Aim(grown);

      while loc < |s|
        invariant 0 <= loc <= |s| && fresh(nodes - old(nodes)) && previous in nodes
        invariant ModelOf(root).Node? && ModelOf(root).child == grown
        invariant Reached(previous, s[loc..], v, Size(ModelOf(root)))
      {
        assert s[loc..][0] == s[loc] && s[loc..][1..] == s[loc + 1..];
        previous := InsertLevel(previous, s[loc], s[loc..], v, Size(ModelOf(root)));
        loc := loc + 1;
      }
      Store(previous, v);
      ok := true;
    }

    /** Write the value a node was still waiting for. */
    method Store(n: NSObj, v: int)
      requires n in nodes && ValidExcept(n) && shape[n] == WithValue(n, v)
      modifies n`value
      ensures ValidExcept(null) && Stands(root)
    {
      n.value := v;
      forall q | q in nodes ensures Linked(q) && Stands(q) {
        assert old(Linked(q)) && (q != n ==> old(Stands(q)));
      }
    }

    /** Set the root to stand for the tree a change is going to build. */
    ghost method Aim(t: Trie)
      requires Valid()
      modifies this`shape
      ensures shape == old(shape)[root := old(shape[root]).(child := t)]
      ensures ValidExcept(root) && Linked(root) && shape[root] == WithChild(root, t)
    {
      shape := shape[root := shape[root].(child := t)];
      forall n | n in nodes ensures Linked(n) && (n != root ==> Stands(n)) {
        assert old(Linked(n)) && old(Linked(root)) && old(Stands(n));
      }
    }

    /** Look a key up. The walk goes past smaller siblings and then down,
        without asking whether the sibling it stopped at is the right one. */
    method NSSearch(s: string) returns (v: int)
      requires Valid()
      ensures v == Search(Tree(), s)
    {
      var current, loc := root.child, 0;
      assert s[0..] == s && Linked(root);
      while current != null && loc < |s|
        invariant 0 <= loc <= |s| && (current != null ==> current in nodes)
        invariant Search(ModelOf(current), s[loc..]) == Search(Tree(), s)
        decreases |s| - loc
      {
        assert s[loc..][0] == s[loc] && s[loc..][1..] == s[loc + 1..];
        assert Linked(current) && Stands(current);
        if s[loc] > current.character {
          ghost var level := ModelOf(current);
          while current != null && s[loc] > current.character
            invariant current != null ==> current in nodes
            invariant WalkTo(ModelOf(current), s[loc]) == WalkTo(level, s[loc])
            decreases ModelOf(current)
          {
            assert Linked(current) && Stands(current);
            current := current.next;
          }
          if current == null { return 0; }
          assert Linked(current) && Stands(current);
          if s[loc] == current.character && loc + 1 == |s| { return current.value; }
          current := current.child;
        } else if s[loc] == current.character {
          if loc + 1 == |s| { return current.value; }
          current := current.child;
        } else {
          return 0;
        }
        loc := loc + 1;
      }
      v := 0;
    }

    // ---- deletion ---------------------------------------------------------

    /** How a walk along a key gets from one node to the next. */
    ghost predicate Step(s: string, p: Visit, q: Visit)
      reads p.n
    {
      && q.n != root && q.used < |s|
      && if p.n == root then q.n == p.n.child && q.used == 0
         else p.used < |s| &&
              if p.n.character == s[p.used] then q.n == p.n.child && q.used == p.used + 1
              else q.n == p.n.next && q.used == p.used
    }

    /** The nodes a walk along the key visited, the root first. */
    ghost predicate Spine(s: string, sp: seq<Visit>)
      reads this`nodes, this`shape, nodes
    {
      && s != [] && sp != [] && sp[0].n == root
      && (forall k :: 0 <= k < |sp| ==> sp[k].n in nodes)
      && (forall k :: 0 < k < |sp| ==> Step(s, sp[k - 1], sp[k]))
    }

    /** What a node of the spine must stand for once the key is deleted. */
    ghost predicate Cut(s: string, x: Visit, stands: Trie)
      reads this`shape
    {
      if x.n == root then ModelOf(x.n).Node? && s != [] && stands == ModelOf(x.n).(child := Delete(ModelOf(x.n).child, s))
      else stands.Node? && x.used < |s| && stands == Delete(ModelOf(x.n), s[x.used..])
    }

    /** One node of the spine brought up to date: the node before it is next. */
    ghost method RepairStep(s: string, p: Visit, x: Visit)
      requires p.n in nodes && x.n in nodes && p.n != x.n && Step(s, p, x)
      requires ValidExcept(x.n) && Cut(s, x, Actual(x.n))
      modifies this`shape
      ensures ValidExcept(p.n) && Cut(s, p, Actual(p.n)) && shape == old(shape)[x.n := old(Actual(x.n))]
      ensures Size(Actual(p.n)) - Size(ModelOf(p.n)) == old(Size(Actual(x.n)) - Size(ModelOf(x.n)))
    {
      assert Linked(p.n) && Stands(p.n) && Linked(x.n);
      shape := shape[x.n := Actual(x.n)];
      forall n | n in nodes ensures Linked(n) && (n != p.n ==> Stands(n)) {
        assert old(Linked(n)) && (n != x.n ==> old(Stands(n)));
      }
      if p.n != root { assert s[p.used..][0] == s[p.used] && s[p.used..][1..] == s[p.used + 1..]; }
      assert s[0..] == s;
    }

    /** A change at the end of the spine, carried up to the root. */
    ghost method Repair(s: string, sp: seq<Visit>)
      requires Spine(s, sp) && ValidExcept(sp[|sp| - 1].n) && ModelOf(root).Node?
      requires Cut(s, sp[|sp| - 1], Actual(sp[|sp| - 1].n))
      modifies this`shape
      ensures ValidExcept(null) && Stands(root)
      ensures ModelOf(root).Node? && ModelOf(root).child == Delete(old(ModelOf(root).child), s)
      ensures Size(ModelOf(root)) - old(Size(ModelOf(root)))
           == old(Size(Actual(sp[|sp| - 1].n))) - old(Size(ModelOf(sp[|sp| - 1].n)))
      decreases |sp|
    {
      var x := sp[|sp| - 1];
      if |sp| == 1 {
        shape := shape[x.n := Actual(x.n)];
        forall n | n in nodes ensures Linked(n) && Stands(n) {
          assert old(Linked(n)) && old(Linked(x.n)) && (n != x.n ==> old(Stands(n)));
        }
      } else {
        var k := |sp| - 1;
        assert Step(s, sp[k - 1], sp[k]) && Linked(sp[k - 1].n);
        RepairStep(s, sp[k - 1], x);
        Repair(s, sp[..k]);
      }
    }

    /** The record deletion keeps of its walk: the node matched for each
        character and the pointer that leads to it. at[j] is the length of the
        spine down to the node matched for character j. */
    ghost predicate Trail(s: string, node: seq<NSObj>, link: seq<Origin>, sp: seq<Visit>, at: seq<nat>)
      reads node
    {
      |node| <= |s| && TrailTo(|node|, s, node, link, sp, at)
    }

    /** The same for the first n characters. */
    ghost predicate TrailTo(n: int, s: string, node: seq<NSObj>, link: seq<Origin>, sp: seq<Visit>, at: seq<nat>)
      reads node
    {
      && n <= |node| == |link| == |at| <= |s|
      && (forall j, k :: 0 <= j < k < n ==> at[j] < at[k])
      && (forall j :: 0 <= j < n ==> node[j].character == s[j] && Matched(j, node, link, sp, at))
    }

    ghost predicate Matched(j: nat, node: seq<NSObj>, link: seq<Origin>, sp: seq<Visit>, at: seq<nat>)
      requires j < |node| == |link| == |at|
    {
      && 2 <= at[j] <= |sp| && sp[at[j] - 1] == Visit(node[j], j)
      && var before := sp[at[j] - 2];
         (link[j] == ChildOf(before.n) && at[j] - 1 == Down(j, at)) ||
         (link[j] == After(before.n) && before.used == j && before.n != root && at[j] - 1 > Down(j, at))
    }

    /** The length of the spine down to the last node matched before character j. */
    ghost function Down(j: nat, at: seq<nat>): nat
      requires j <= |at|
    {
      if j == 0 then 1 else at[j - 1]
    }

    /** The walk has matched i characters and looks at cur, behind the pointer lnk. */
    ghost predicate Poised(s: string, i: nat, cur: NSObj?, lnk: Origin, sp: seq<Visit>, at: seq<nat>)
      requires |at| == i
      reads this`nodes, this`shape, nodes
    {
      && Spine(s, sp) && (cur != null ==> cur in nodes)
      && var last := sp[|sp| - 1];
         if lnk == ChildOf(last.n)
         then cur == last.n.child && |sp| == Down(i, at)
         else lnk == After(last.n) && cur == last.n.next && |sp| > Down(i, at)
              && last.n != root && last.used == i < |s| && last.n.character != s[i]
    }

    /** The spine grows by the node the walk is poised at. */
    lemma Advance(s: string, i: nat, cur: NSObj, lnk: Origin, sp: seq<Visit>, node: seq<NSObj>, link: seq<Origin>, at: seq<nat>)
      requires ValidExcept(null) && |node| == i < |s| && Trail(s, node, link, sp, at)
      requires Poised(s, i, cur, lnk, sp, at)
      ensures Spine(s, sp + [Visit(cur, i)]) && cur != root
      ensures Trail(s, node, link, sp + [Visit(cur, i)], at)
    {
      var longer := sp + [Visit(cur, i)];
      assert Step(s, sp[|sp| - 1], Visit(cur, i)) by {
        assert Linked(sp[|sp| - 1].n);
        if i > 0 { assert Matched(i - 1, node, link, sp, at); }
      }
      SpineGrows(s, sp, Visit(cur, i));
      forall j | 0 <= j < i ensures Matched(j, node, link, longer, at) {
        assert Matched(j, node, link, sp, at);
      }
    }

    lemma SpineGrows(s: string, sp: seq<Visit>, v: Visit)
      requires Spine(s, sp) && v.n in nodes && Step(s, sp[|sp| - 1], v)
      ensures Spine(s, sp + [v])
    {
      var longer := sp + [v];
      forall k | 0 < k < |longer| ensures Step(s, longer[k - 1], longer[k]) {
        if k < |sp| { assert Step(s, sp[k - 1], sp[k]); }
      }
    }

    /** The walk along one level, to the sibling that carries character i. */
    method FindSibling(s: string, i: nat, first: NSObj?, lnk0: Origin, ghost sp0: seq<Visit>,
                       node: seq<NSObj>, link: seq<Origin>, ghost at: seq<nat>)
      returns (cur: NSObj?, lnk: Origin, ghost sp: seq<Visit>)
      requires Valid() && |node| == i < |s| && Trail(s, node, link, sp0, at) && Poised(s, i, first, lnk0, sp0, at)
      ensures Trail(s, node, link, sp, at) && Poised(s, i, cur, lnk, sp, at)
      ensures Get(ModelOf(cur), s[i..]) == Get(ModelOf(first), s[i..])
      ensures cur != null ==> cur.character == s[i]
    {
      cur, lnk, sp := first, lnk0, sp0;
      while cur != null && cur.character != s[i]
        invariant Trail(s, node, link, sp, at) && Poised(s, i, cur, lnk, sp, at)
        invariant Get(ModelOf(cur), s[i..]) == Get(ModelOf(first), s[i..])
        decreases ModelOf(cur)
      {
        assert Linked(cur) && Stands(cur);
        Advance(s, i, cur, lnk, sp, node, link, at);
        sp, lnk, cur := sp + [Visit(cur, i)], After(cur), cur.next;
      }
    }

    /** The walk of a deletion: one node per character, or no node at all. */
    method FindPath(s: string) returns (found: bool, node: seq<NSObj>, link: seq<Origin>, ghost sp: seq<Visit>, ghost at: seq<nat>)
      requires Valid() && s != []
      ensures found ==> |node| == |s| <= MAX_PATH && Spine(s, sp) && Trail(s, node, link, sp, at) && at[|s| - 1] == |sp|
      ensures found ==> node[|s| - 1].value == Get(Tree(), s)
      ensures !found ==> |s| > MAX_PATH || Get(Tree(), s) == 0
    {
      hide Trail, Poised, Spine;
      var cur, lnk, i := root.child, ChildOf(root), 0;
      node, link, sp, at := [], [], [Visit(root, 0)], [];
      SetOut(s);
      while i < |s|
        invariant 0 <= i <= |s| && |node| == |at| == i <= MAX_PATH && Trail(s, node, link, sp, at)
        invariant Poised(s, i, cur, lnk, sp, at) && lnk.ChildOf? && |sp| == Down(i, at)
        invariant i < |s| ==> Get(ModelOf(cur), s[i..]) == Get(Tree(), s)
        invariant i == |s| ==> node[i - 1].value == Get(Tree(), s)
      {
        if i >= MAX_PATH { return false, node, link, sp, at; }
        cur, lnk, sp := FindSibling(s, i, cur, lnk, sp, node, link, at);
        if cur == null { return false, node, link, sp, at; }
        Record(s, i, cur, lnk, sp, node, link, at);
        sp := sp + [Visit(cur, i)];
        node, link, at := node + [cur], link + [lnk], at + [|sp|];
        lnk, cur := ChildOf(cur), cur.child;
        i := i + 1;
      }
      PoisedOnSpine(s, i, cur, lnk, sp, at);
      found := true;
    }

    lemma LastOnSpine(s: string, sp: seq<Visit>)
      requires Spine(s, sp)
      ensures sp[|sp| - 1].n in nodes
    {}

    lemma SetOut(s: string)
      requires Valid() && s != []
      ensures Trail(s, [], [], [Visit(root, 0)], []) && Poised(s, 0, root.child, ChildOf(root), [Visit(root, 0)], [])
      ensures Get(ModelOf(root.child), s[0..]) == Get(Tree(), s)
    {
      assert s[0..] == s && Linked(root);
    }

    lemma PoisedOnSpine(s: string, i: nat, cur: NSObj?, lnk: Origin, sp: seq<Visit>, at: seq<nat>)
      requires |at| == i && Poised(s, i, cur, lnk, sp, at)
      ensures Spine(s, sp)
    {}

    /** The sibling that was found is recorded, and the walk goes on below it. */
    lemma Record(s: string, i: nat, cur: NSObj, lnk: Origin, sp: seq<Visit>, node: seq<NSObj>, link: seq<Origin>, at: seq<nat>)
      requires Valid() && |node| == i < |s| && Trail(s, node, link, sp, at) && Poised(s, i, cur, lnk, sp, at)
      requires cur.character == s[i]
      ensures var longer := sp + [Visit(cur, i)];
              && Trail(s, node + [cur], link + [lnk], longer, at + [|longer|])
              && Poised(s, i + 1, cur.child, ChildOf(cur), longer, at + [|longer|])
      ensures Get(ModelOf(cur), s[i..]) == if i + 1 == |s| then cur.value else Get(ModelOf(cur.child), s[i + 1..])
    {
      Advance(s, i, cur, lnk, sp, node, link, at);
      var longer := sp + [Visit(cur, i)];
      assert Linked(cur) && Stands(cur);
      assert s[i..][0] == s[i] && s[i..][1..] == s[i + 1..];
      forall j | 0 <= j <= i ensures Matched(j, node + [cur], link + [lnk], longer, at + [|longer|]) {
        if j < i { assert Matched(j, node, link, longer, at); }
      }
    }

    /** The nodes of a spine are all different: each is led to by the one before it. */
    lemma SpineDistinct(s: string, sp: seq<Visit>, a: nat, b: nat)
      requires Spine(s, sp) && a < b < |sp| && (forall n :: n in nodes ==> Linked(n))
      ensures sp[a].n != sp[b].n
    {
      assert Step(s, sp[b - 1], sp[b]) && Linked(sp[b - 1].n);
      if a > 0 {
        assert Step(s, sp[a - 1], sp[a]) && Linked(sp[a - 1].n);
        SpineDistinct(s, sp, a - 1, b - 1);
      }
    }

    /** The node for character i, with the rest of the key already deleted below
        it; whether it survives is still open. */
    ghost predicate Emptied(s: string, x: Visit)
      reads this`shape, x.n
    {
      && x.n != root && x.used < |s| && ModelOf(x.n).Node? && ModelOf(x.n).ch == s[x.used]
      && Actual(x.n) == Cleared(ModelOf(x.n), s[x.used..])
    }

    /** A node stands for what it did before, but for the subtrie at one of its
        pointers, which was sub and is sub with the key deleted now. */
    ghost predicate Hangs(h: NSObj, below: bool, sub: Trie, k: Key)
      reads this`shape, h
    {
      && ModelOf(h).Node?
      && if below then ModelOf(h).child == sub && Actual(h) == ModelOf(h).(child := Delete(sub, k))
         else ModelOf(h).next == sub && Actual(h) == ModelOf(h).(next := Delete(sub, k))
    }

    /** Free a childless node: the pointer that led to it goes on to its next
        sibling. */
    method Unlink(n: NSObj, link: Origin, ghost h: NSObj)
      requires n in nodes && h in nodes && n != h && n.next != h && ValidExcept(n)
      requires link == n.origin && n.child == null
      requires (link == ChildOf(h) && h.child == n) || (link == After(h) && h.next == n && h != root)
      modifies this`alive, this`nodes, h`child, h`next, nodes`origin
      ensures nodes == old(nodes) - {n} && alive == old(alive) - 1 && ValidExcept(h)
      ensures if link.ChildOf? then h.child == n.next && h.next == old(h.next)
              else h.next == n.next && h.child == old(h.child)
    {
      assert Linked(n) && Linked(h);
      var nx := n.next;
      match link {
        case ChildOf(p) => p.child := nx;
        case After(p) => p.next := nx;
      }
      if nx != null { nx.origin := link; }
      alive := alive - 1;
      nodes := nodes - {n};
      forall q | q in nodes ensures Linked(q) && (q != h ==> Stands(q)) {
        assert old(Linked(q)) && (q != h ==> old(Stands(q)));
      }
    }

    /** Free the last node of the spine. */
    method PruneLast(s: string, n: NSObj, link: Origin, ghost sp: seq<Visit>)
      requires Spine(s, sp) && |sp| >= 2 && sp[|sp| - 1].n == n && ValidExcept(n) && Emptied(s, sp[|sp| - 1])
      requires link == ChildOf(sp[|sp| - 2].n) || link == After(sp[|sp| - 2].n)
      requires link == n.origin && n.value == 0 && n.child == null
      modifies this`alive, this`nodes, nodes`child, nodes`next, nodes`origin
      ensures nodes == old(nodes) - {n} && alive == old(alive) - 1
      ensures Spine(s, sp[..|sp| - 1]) && ValidExcept(sp[|sp| - 2].n)
      ensures Hangs(sp[|sp| - 2].n, link.ChildOf?, ModelOf(n), s[sp[|sp| - 1].used..])
      ensures Size(Actual(sp[|sp| - 2].n)) - Size(ModelOf(sp[|sp| - 2].n)) == old(Size(Actual(n)) - Size(ModelOf(n))) - 1
    {
      ghost var h := sp[|sp| - 2].n;
      forall k | 0 <= k < |sp| - 1 ensures sp[k].n != n && (k < |sp| - 2 ==> sp[k].n != h) {
        SpineDistinct(s, sp, k, |sp| - 1);
        if k < |sp| - 2 { SpineDistinct(s, sp, k, |sp| - 2); }
      }
      assert Linked(n) && Linked(h) && Stands(h) && Step(s, sp[|sp| - 2], sp[|sp| - 1]);
      if |sp| > 2 { assert Step(s, sp[|sp| - 3], sp[|sp| - 2]) && Linked(sp[|sp| - 3].n); }
      assert Delete(ModelOf(n), s[sp[|sp| - 1].used..]) == ModelOf(n.next);
      Unlink(n, link, h);
      forall k | 0 <= k < |sp| - 1 ensures sp[k].n in nodes && (k > 0 ==> Step(s, sp[k - 1], sp[k])) {
        if k > 0 { assert old(Step(s, sp[k - 1], sp[k])); }
      }
    }

    /** The state between two turns of the unwinding loop, with the nodes for
        characters up to i still in place. */
    ghost predicate Unwinding(s: string, i: int, sp: seq<Visit>, at: seq<nat>)
      requires -1 <= i < |at|
      reads this, nodes
    {
      && Spine(s, sp) && ModelOf(root).Node?
      && var last := sp[|sp| - 1];
      && ValidExcept(last.n)
      && alive - Size(ModelOf(root)) == Size(Actual(last.n)) - Size(ModelOf(last.n))
      && |sp| >= Down(i + 1, at)
      && if i >= 0 && |sp| == at[i] then last.used == i && Emptied(s, last) else Cut(s, last, Actual(last.n))
    }

    /** Clear the value of a key and free every node that stands for nothing. */
    method NSDelete(s: string) returns (ok: bool)
      requires Valid()
      modifies this, nodes
      ensures Valid() && nodes <= old(nodes)
      ensures ok <==> 0 < |s| <= MAX_PATH && Get(old(Tree()), s) != 0
      ensures Tree() == if ok then Delete(old(Tree()), s) else old(Tree())
    {
      hide Spine, Cut, Emptied;
      if s == [] { return false; }
      ghost var sp: seq<Visit>, at: seq<nat>;
      var found, node, link;
      found, node, link, sp, at := FindPath(s);
      if !found { return false; }
      var i := |s| - 1;
      if node[i].value == 0 { return false; }
      LastOnSpine(s, sp);
      ClearValue(s, node[i], sp);
      Unwind(s, node, link, sp, at);
      ok := true;
    }

    /** Free the trailing nodes that stand for nothing, from the last one up. */
    method Unwind(s: string, node: seq<NSObj>, link: seq<Origin>, ghost sp0: seq<Visit>, ghost at: seq<nat>)
      requires s != [] && |node| == |s| && Trail(s, node, link, sp0, at) && Unwinding(s, |s| - 1, sp0, at)
      modifies this`alive, this`nodes, this`shape, nodes`child, nodes`next, nodes`origin
      ensures Valid() && nodes <= old(nodes)
      ensures old(ModelOf(root)).Node? && Tree() == Delete(old(ModelOf(root)).child, s)
    {
      hide Spine, Cut, Emptied, ValidExcept;
      var i := |s| - 1;
      ghost var sp := sp0;
      while i >= 0
        invariant -1 <= i < |s| && nodes <= old(nodes) && shape == old(shape)
        invariant TrailTo(i + 1, s, node, link, sp, at) && Unwinding(s, i, sp, at)
      {
        if node[i].value != 0 || node[i].child != null {
          StopsClean(s, i, node, link, sp, at);
          break;
        }
        UnwindStep(s, i, node, link, sp, at);
        sp := sp[..|sp| - 1];
        i := i - 1;
      }
      Repair(s, sp);
    }

    /** Where the unwinding stops, the deletion is complete. */
    lemma StopsClean(s: string, i: nat, node: seq<NSObj>, link: seq<Origin>, sp: seq<Visit>, at: seq<nat>)
      requires i < |node| && TrailTo(i + 1, s, node, link, sp, at) && Unwinding(s, i, sp, at)
      requires node[i].value != 0 || node[i].child != null
      ensures Cut(s, sp[|sp| - 1], Actual(sp[|sp| - 1].n))
    {
      assert Matched(i, node, link, sp, at);
      assert s[i..][0] == s[i];
      if |sp| == at[i] && node[i].child != null {
        assert Linked(node[i]) && Stands(node[i].child);
      }
    }

    /** One turn of the unwinding loop that frees a node. */
    method UnwindStep(s: string, i: nat, node: seq<NSObj>, link: seq<Origin>, ghost sp: seq<Visit>, ghost at: seq<nat>)
      requires i < |node| && TrailTo(i + 1, s, node, link, sp, at) && Unwinding(s, i, sp, at)
      requires node[i].value == 0 && node[i].child == null
      modifies this`alive, this`nodes, nodes`child, nodes`next, nodes`origin
      ensures nodes <= old(nodes) && |sp| >= 2
      ensures Unwinding(s, i - 1, sp[..|sp| - 1], at) && TrailTo(i, s, node, link, sp[..|sp| - 1], at)
    {
      hide Spine, Cut, Emptied, ValidExcept, Matched, Hangs;
      LastIsHere(s, i, node, link, sp, at);
      OriginIs(s, sp, i, node, link, at);
      PruneLast(s, node[i], link[i], sp);
      Shorter(s, i, node, link, sp, at);
      Lifted(s, i, node, link, sp, at);
    }

    lemma Shorter(s: string, i: nat, node: seq<NSObj>, link: seq<Origin>, sp: seq<Visit>, at: seq<nat>)
      requires i < |node| && TrailTo(i + 1, s, node, link, sp, at) && |sp| == at[i]
      ensures |sp| >= 2 && TrailTo(i, s, node, link, sp[..|sp| - 1], at)
    {
      assert Matched(i, node, link, sp, at);
      var sp' := sp[..|sp| - 1];
      forall j | 0 <= j < i ensures Matched(j, node, link, sp', at) {
        assert Matched(j, node, link, sp, at);
      }
    }

    /** After a node is freed, the one before it on the spine is next. */
    lemma Lifted(s: string, i: nat, node: seq<NSObj>, link: seq<Origin>, sp: seq<Visit>, at: seq<nat>)
      requires i < |node| && TrailTo(i + 1, s, node, link, sp, at) && |sp| == at[i] >= 2
      requires Spine(s, sp[..|sp| - 1]) && ModelOf(root).Node? && ValidExcept(sp[|sp| - 2].n)
      requires Hangs(sp[|sp| - 2].n, link[i].ChildOf?, ModelOf(node[i]), s[i..])
      requires link[i].After? ==> sp[|sp| - 2].n.character != s[i]
      requires alive - Size(ModelOf(root)) == Size(Actual(sp[|sp| - 2].n)) - Size(ModelOf(sp[|sp| - 2].n))
      ensures Unwinding(s, i - 1, sp[..|sp| - 1], at)
    {
      assert Matched(i, node, link, sp, at) && s[0..] == s && s[i..][0] == s[i];
      if i > 0 {
        assert Matched(i - 1, node, link, sp, at);
        assert s[i - 1..][0] == s[i - 1] && s[i - 1..][1..] == s[i..];
      }
    }

    /** The recorded pointer is the one that leads to the node. */
    /** The walk ends at the node of character i. */
    lemma LastIsHere(s: string, i: nat, node: seq<NSObj>, link: seq<Origin>, sp: seq<Visit>, at: seq<nat>)
      requires i < |node| && TrailTo(i + 1, s, node, link, sp, at) && Unwinding(s, i, sp, at)
      requires node[i].value == 0 && node[i].child == null
      ensures |sp| == at[i] >= 2 && sp[|sp| - 1] == Visit(node[i], i)
      ensures link[i] == ChildOf(sp[|sp| - 2].n) || link[i] == After(sp[|sp| - 2].n)
      ensures link[i].After? ==> sp[|sp| - 2].n.character != s[i]
    {
      assert Matched(i, node, link, sp, at);
      assert |sp| > at[i] ==> Step(s, sp[at[i] - 1], sp[at[i]]);
      assert |sp| == at[i] && sp[|sp| - 1] == Visit(node[i], i);
      assert Step(s, sp[|sp| - 2], sp[|sp| - 1]);
    }

    lemma OriginIs(s: string, sp: seq<Visit>, i: nat, node: seq<NSObj>, link: seq<Origin>, at: seq<nat>)
      requires i < |node| && TrailTo(i + 1, s, node, link, sp, at) && Spine(s, sp) && at[i] == |sp|
      requires ValidExcept(node[i])
      ensures node[i].origin == link[i] && |sp| >= 2
    {
      assert Matched(i, node, link, sp, at);
      assert Step(s, sp[|sp| - 2], sp[|sp| - 1]) && Linked(sp[|sp| - 2].n);
      if i > 0 { assert Matched(i - 1, node, link, sp, at); }
    }

    /** The value of the key is gone; its nodes are all still there. */
    method ClearValue(s: string, n: NSObj, ghost sp: seq<Visit>)
      requires Valid() && Spine(s, sp) && |sp| >= 2 && sp[|sp| - 1] == Visit(n, |s| - 1) && n.character == s[|s| - 1]
      modifies n`value
      ensures n.value == 0 && Spine(s, sp) && ValidExcept(n) && Emptied(s, sp[|sp| - 1]) && ModelOf(root).Node?
      ensures alive - Size(ModelOf(root)) == Size(Actual(n)) - Size(ModelOf(n))
    {
      assert Step(s, sp[|sp| - 2], sp[|sp| - 1]) && Stands(n);
      n.value := 0;
      assert s[|s| - 1..][0] == s[|s| - 1];
      forall q | q in nodes ensures Linked(q) && (q != n ==> Stands(q)) {
        assert old(Linked(q)) && old(Stands(q));
      }
      forall k | 0 < k < |sp| ensures Step(s, sp[k - 1], sp[k]) {
        assert old(Step(s, sp[k - 1], sp[k]));
      }
    }

    /** Free a chain of siblings and everything below them. */
    method ReleaseFrom(first: NSObj?)
      requires ValidExcept(null) && (first != null ==> first in nodes)
      modifies this`alive
      ensures alive == old(alive) - Size(ModelOf(first))
      decreases ModelOf(first)
    {
      var now := first;
      while now != null
        invariant now != null ==> now in nodes
        invariant now == first || (first != null && ModelOf(now) < ModelOf(first))
        invariant alive - Size(ModelOf(now)) == old(alive) - Size(ModelOf(first))
        decreases ModelOf(now)
      {
        assert Linked(now) && Stands(now);
        var next := now.next;
        if now.child != null { ReleaseFrom(now.child); }
        alive := alive - 1;
        now := next;
      }
    }

    /** Releasing a trie frees every node it has: the count comes back to 0. */
    method NSRelease()
      requires Valid()
      modifies this`alive
      ensures alive == 0
    {
      ReleaseFrom(root);
    }

    static lemma {:induction false} SizeInsert(t: Trie, k: Key, v: int)
      ensures Size(Insert(t, k, v)) == Size(t) + Missing(t, k)
      decreases |k|, t
    {
      if t.Nil? || k[0] < t.ch { SizeChain(k[1..], v); }
      else if k[0] > t.ch { SizeInsert(t.next, k, v); }
      else if |k| > 1 { SizeInsert(t.child, k[1..], v); }
    }

    static lemma {:induction false} SizeChain(s: string, v: int)
      ensures Size(Chain(s, v)) == |s|
    {
      if s != [] { SizeChain(s[1..], v); }
    }
  }
}
