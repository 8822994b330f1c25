/** The meaning of the path trie of src/namespace.c, as a value.

    A trie node carries one character, the value of the key that ends there
    (0 when no key does), its first child and its next sibling. Siblings are
    kept in strictly increasing order of their character. */
module TrieModel {

  datatype Trie = Nil | Node(ch: char, value: int, child: Trie, next: Trie)

  /** A stored key is never empty: every operation refuses the empty string. */
  type Key = s: string | s != [] witness "k"

  /** The number of nodes a trie is made of. */
  function Size(t: Trie): nat {
    match t
    case Nil => 0
    case Node(_, _, child, next) => 1 + Size(child) + Size(next)
  }

  /** What a trie stores under a key; 0 when it stores nothing. */
  function Get(t: Trie, k: Key): int
    decreases t
  {
    match t
    case Nil => 0
    case Node(c, v, child, next) =>
      if c != k[0] then Get(next, k)
      else if |k| == 1 then v
      else Get(child, k[1..])
  }

  /** Siblings strictly increase, at every level. */
  predicate Sorted(t: Trie) {
    t.Nil? || ((t.next.Nil? || t.ch < t.next.ch) && Sorted(t.child) && Sorted(t.next))
  }

  /** No node exists without a reason: a leaf carries a value. */
  predicate Pruned(t: Trie) {
    t.Nil? || ((t.value != 0 || t.child.Node?) && Pruned(t.child) && Pruned(t.next))
  }

  predicate Canonical(t: Trie) {
    Sorted(t) && Pruned(t)
  }

  /** Insertion: follow the key, splicing in the nodes that are missing. */
  function Insert(t: Trie, k: Key, v: int): Trie
    decreases |k|, t
  {
    if t.Nil? || k[0] < t.ch then Node(k[0], if |k| == 1 then v else 0, Chain(k[1..], v), t)
    else if k[0] > t.ch then t.(next := Insert(t.next, k, v))
    else if |k| == 1 then t.(value := v)
    else t.(child := Insert(t.child, k[1..], v))
  }

  /** The nodes a key needs below a node that has no children yet. */
  function Chain(s: string, v: int): Trie {
    if s == [] then Nil else Node(s[0], if |s| == 1 then v else 0, Chain(s[1..], v), Nil)
  }

  /** A node that stands for nothing gives way to its next sibling. */
  function Prune(t: Trie): Trie {
    if t.Node? && t.value == 0 && t.child.Nil? then t.next else t
  }

  /** Deletion: clear the value, then prune on the way back up. */
  function Delete(t: Trie, k: Key): Trie
    decreases t
  {
    match t
    case Nil => Nil
    case Node(c, v, child, next) =>
      if c != k[0] then Node(c, v, child, Delete(next, k))
      else Prune(Cleared(t, k))
  }

  /** The node a key runs through, with the rest of that key deleted below it. */
  function Cleared(t: Trie, k: Key): Trie
    requires t.Node?
    decreases t, 0
  {
    if |k| == 1 then t.(value := 0) else t.(child := Delete(t.child, k[1..]))
  }

  // ---- the trie is a map -------------------------------------------------

  lemma {:induction false} GetChain(s: string, v: int, k: Key)
    ensures s != [] ==> Get(Chain(s, v), k) == if k == s then v else 0
    ensures s == [] ==> Get(Chain(s, v), k) == 0
  {
    if s != [] && k[0] == s[0] && |k| > 1 {
      GetChain(s[1..], v, k[1..]);
      assert k == [k[0]] + k[1..] && s == [s[0]] + s[1..];
    } else if s != [] && k[0] == s[0] {
      assert k == [k[0]] && s == [s[0]] + s[1..];
    }
  }

  /** Nothing before the first sibling is stored. */
  lemma {:induction false} NothingBefore(t: Trie, k: Key)
    requires Sorted(t) && (t.Nil? || k[0] < t.ch)
    ensures Get(t, k) == 0
  {
    if t.Node? { NothingBefore(t.next, k); }
  }

  /** Insertion is map update. */
  lemma {:induction false} GetInsert(t: Trie, k: Key, v: int, q: Key)
    requires Sorted(t)
    ensures Get(Insert(t, k, v), q) == if q == k then v else Get(t, q)
    decreases |k|, t
  {
    assert k == [k[0]] + k[1..] && q == [q[0]] + q[1..];
    if t.Nil? || k[0] < t.ch {
      if q[0] == k[0] {
        NothingBefore(t, q);
        if |q| > 1 { GetChain(k[1..], v, q[1..]); }
      }
    } else if k[0] > t.ch {
      if q[0] != t.ch { GetInsert(t.next, k, v, q); }
    } else if |k| > 1 && q[0] == t.ch && |q| > 1 {
      GetInsert(t.child, k[1..], v, q[1..]);
    }
  }

  /** Deletion is map removal. */
  lemma {:induction false} GetDelete(t: Trie, k: Key, q: Key)
    requires Sorted(t)
    ensures Get(Delete(t, k), q) == if q == k then 0 else Get(t, q)
    decreases t
  {
    if t.Node? {
      assert k == [k[0]] + k[1..] && q == [q[0]] + q[1..];
      if t.ch != k[0] {
        if q[0] != t.ch { GetDelete(t.next, k, q); }
      } else {
        if |k| > 1 && |q| > 1 && q[0] == t.ch { GetDelete(t.child, k[1..], q[1..]); }
        if q[0] <= t.ch { NothingBefore(t.next, q); }
      }
    }
  }

  // ---- the shape stays canonical ----------------------------------------

  lemma {:induction false} ChainCanonical(s: string, v: int)
    requires v != 0
    ensures Canonical(Chain(s, v))
  {
    if s != [] { ChainCanonical(s[1..], v); }
  }

  lemma {:induction false} InsertCanonical(t: Trie, k: Key, v: int)
    requires Canonical(t) && v != 0
    ensures Canonical(Insert(t, k, v)) && Insert(t, k, v).Node?
    ensures t.Node? ==> Insert(t, k, v).ch == if k[0] < t.ch then k[0] else t.ch
    ensures t.Nil? ==> Insert(t, k, v).ch == k[0]
    decreases |k|, t
  {
    if t.Nil? || k[0] < t.ch {
      ChainCanonical(k[1..], v);
    } else if k[0] > t.ch {
      InsertCanonical(t.next, k, v);
    } else if |k| > 1 {
      InsertCanonical(t.child, k[1..], v);
    }
  }

  lemma {:induction false} DeleteCanonical(t: Trie, k: Key)
    requires Canonical(t)
    ensures Canonical(Delete(t, k))
    ensures Delete(t, k).Node? ==> t.Node? && t.ch <= Delete(t, k).ch
    decreases t
  {
    if t.Node? {
      if t.ch != k[0] {
        DeleteCanonical(t.next, k);
      } else if |k| > 1 {
        DeleteCanonical(t.child, k[1..]);
      }
    }
  }

  // ---- equal maps are equal trees ---------------------------------------

  ghost predicate SameMap(a: Trie, b: Trie) {
    forall k: Key :: Get(a, k) == Get(b, k)
  }

  /** A key under which a nonempty canonical trie stores something. */
  function SomeKey(t: Trie): (k: Key)
    requires t.Node? && Pruned(t)
    ensures k[0] == t.ch && Get(t, k) != 0
  {
    if t.value != 0 then [t.ch] else
      var rest := SomeKey(t.child);
      assert ([t.ch] + rest)[1..] == rest;
      [t.ch] + rest
  }

  lemma SameMapHeads(a: Trie, b: Trie)
    requires Canonical(a) && Canonical(b) && SameMap(a, b)
    ensures a.Nil? <==> b.Nil?
    ensures a.Node? ==> a.ch == b.ch
  {
    if a.Node? {
      var k := SomeKey(a);
      assert Get(a, k) == Get(b, k);
      if b.Nil? || a.ch < b.ch { NothingBefore(b, k); }
    }
    if b.Node? {
      var k := SomeKey(b);
      assert Get(a, k) == Get(b, k);
      if a.Nil? || b.ch < a.ch { NothingBefore(a, k); }
    }
  }

  /** The canonical trie of a map is unique: a trie holds no history. */
  lemma {:induction false} EqualMapsEqualTrees(a: Trie, b: Trie)
    requires Canonical(a) && Canonical(b) && SameMap(a, b)
    ensures a == b
    decreases a
  {
    SameMapHeads(a, b);
    if a.Node? {
      assert Get(a, [a.ch]) == Get(b, [a.ch]);
      forall k: Key ensures Get(a.child, k) == Get(b.child, k) {
        var long := [a.ch] + k;
        assert long[1..] == k && Get(a, long) == Get(b, long);
      }
      EqualMapsEqualTrees(a.child, b.child);
      forall k: Key ensures Get(a.next, k) == Get(b.next, k) {
        if k[0] <= a.ch {
          NothingBefore(a.next, k);
          NothingBefore(b.next, k);
        } else {
          assert Get(a, k) == Get(b, k);
        }
      }
      EqualMapsEqualTrees(a.next, b.next);
    }
  }

  /** Deleting a key that was just inserted restores the very same tree. */
  lemma DeleteUndoesInsert(t: Trie, k: Key, v: int)
    requires Canonical(t) && v != 0 && Get(t, k) == 0
    ensures Delete(Insert(t, k, v), k) == t
  {
    InsertCanonical(t, k, v);
    DeleteCanonical(Insert(t, k, v), k);
    forall q: Key ensures Get(Delete(Insert(t, k, v), k), q) == Get(t, q) {
      GetDelete(Insert(t, k, v), k, q);
      GetInsert(t, k, v, q);
    }
    EqualMapsEqualTrees(Delete(Insert(t, k, v), k), t);
  }

  /** The order of two insertions under different keys leaves no trace. */
  lemma InsertsCommute(t: Trie, k1: Key, v1: int, k2: Key, v2: int)
    requires Canonical(t) && v1 != 0 && v2 != 0 && k1 != k2
    ensures Insert(Insert(t, k1, v1), k2, v2) == Insert(Insert(t, k2, v2), k1, v1)
  {
    InsertCanonical(t, k1, v1);
    InsertCanonical(t, k2, v2);
    InsertCanonical(Insert(t, k1, v1), k2, v2);
    InsertCanonical(Insert(t, k2, v2), k1, v1);
    forall q: Key ensures Get(Insert(Insert(t, k1, v1), k2, v2), q) == Get(Insert(Insert(t, k2, v2), k1, v1), q) {
      GetInsert(t, k1, v1, q);
      GetInsert(t, k2, v2, q);
      GetInsert(Insert(t, k1, v1), k2, v2, q);
      GetInsert(Insert(t, k2, v2), k1, v1, q);
    }
    EqualMapsEqualTrees(Insert(Insert(t, k1, v1), k2, v2), Insert(Insert(t, k2, v2), k1, v1));
  }

  // ---- the search the program runs --------------------------------------

  /** The sibling walk of the search: past every smaller character. */
  function WalkTo(t: Trie, c: char): Trie {
    if t.Node? && c > t.ch then WalkTo(t.next, c) else t
  }

  /** The search of src/namespace.c:201-260, branch by branch. When the walk
      over the siblings stops at a larger character it descends all the same. */
  function Search(t: Trie, k: string): int
    decreases |k|
  {
    if t.Nil? || k == [] then 0
    else if k[0] > t.ch then
      var w := WalkTo(t, k[0]);
      if w.Nil? then 0
      else if k[0] == w.ch && |k| == 1 then w.value
      else Search(w.child, k[1..])
    else if k[0] == t.ch then
      if |k| == 1 then t.value else Search(t.child, k[1..])
    else 0
  }

  datatype Landing = Nowhere | At(key: string)

  /** The key whose node the search ends on, which need not be the key asked for. */
  function Lands(t: Trie, k: string): Landing
    decreases |k|
  {
    if t.Nil? || k == [] || k[0] < t.ch then Nowhere
    else
      var w := WalkTo(t, k[0]);
      if w.Nil? then Nowhere
      else if |k| == 1 then (if k[0] == w.ch then At([w.ch]) else Nowhere)
      else match Lands(w.child, k[1..])
        case Nowhere => Nowhere
        case At(rest) => At([w.ch] + rest)
  }

  lemma {:induction false} WalkToFacts(t: Trie, c: char, k: Key)
    requires Sorted(t) && k[0] >= c
    ensures Sorted(WalkTo(t, c)) && Get(WalkTo(t, c), k) == Get(t, k)
    ensures WalkTo(t, c).Node? ==> WalkTo(t, c).ch >= c
  {
    if t.Node? && c > t.ch { WalkToFacts(t.next, c, k); }
  }

  /** The search returns what is stored under the key it lands on. */
  lemma {:induction false} SearchIsGetAtLanding(t: Trie, k: string)
    requires Sorted(t)
    ensures match Lands(t, k)
            case Nowhere => Search(t, k) == 0
            case At(l) => |l| == |k| > 0 && Search(t, k) == Get(t, l)
    decreases |k|
  {
    if t.Node? && k != [] && k[0] >= t.ch {
      var w := WalkTo(t, k[0]);
      WalkToFacts(t, k[0], k);
      if w.Node? {
        WalkToFacts(t, k[0], [w.ch]);
        if |k| > 1 {
          SearchIsGetAtLanding(w.child, k[1..]);
          if Lands(w.child, k[1..]).At? {
            var l := [w.ch] + Lands(w.child, k[1..]).key;
            assert l[1..] == Lands(w.child, k[1..]).key;
            WalkToFacts(t, k[0], l);
          }
        }
      }
    }
  }

  /** A search that lands somewhere else was for a key that is not stored. */
  lemma {:induction false} StrayingMeansAbsent(t: Trie, k: Key)
    requires Sorted(t) && Lands(t, k) != At(k)
    ensures Get(t, k) == 0
    decreases |k|
  {
    assert k == [k[0]] + k[1..];
    if t.Nil? || k[0] < t.ch {
      NothingBefore(t, k);
    } else {
      var w := WalkTo(t, k[0]);
      WalkToFacts(t, k[0], k);
      if w.Node? && w.ch == k[0] {
        if |k| > 1 { StrayingMeansAbsent(w.child, k[1..]); }
      } else {
        NothingBefore(w, k);
      }
    }
  }

  /** The walk for this key ends on another key that is stored. */
  predicate Strays(t: Trie, k: Key)
    requires Sorted(t)
  {
    match Lands(t, k)
    case Nowhere => false
    case At(l) => SearchIsGetAtLanding(t, k); l != k && Get(t, l) != 0
  }

  lemma SearchIsLookupUnlessItStrays(t: Trie, k: Key)
    requires Sorted(t)
    ensures Search(t, k) == Get(t, k) <==> !Strays(t, k)
  {
    SearchIsGetAtLanding(t, k);
    if Lands(t, k) != At(k) { StrayingMeansAbsent(t, k); }
  }

  // What strays, said of the keys that are stored.

  /** Some stored key begins this way. */
  ghost predicate Begins(t: Trie, p: string) {
    exists k: Key :: p <= k && Get(t, k) != 0
  }

  /** At character i: of the characters with which stored keys go on from l[..i],
      l takes the least that is not below k's; and where that is another one than
      k's, some stored key goes on with a smaller one. */
  ghost predicate Follows(t: Trie, k: string, l: string, i: nat)
    requires i < |k| == |l|
  {
    && k[i] <= l[i]
    && (forall c :: Begins(t, l[..i] + [c]) && k[i] <= c ==> l[i] <= c)
    && (k[i] != l[i] ==> exists c :: c < k[i] && Begins(t, l[..i] + [c]))
  }

  /** A stored key of the same length and with the same last character, reached from
      k by taking the next character there is wherever k's own is missing. */
  ghost predicate Misleads(t: Trie, k: Key, l: Key) {
    && |l| == |k| && l[|l| - 1] == k[|k| - 1] && Get(t, l) != 0
    && forall i :: 0 <= i < |k| ==> Follows(t, k, l, i)
  }

  lemma {:induction false} WalkToGet(t: Trie, c: char, q: Key)
    requires Sorted(t) && q[0] == c
    ensures var w := WalkTo(t, c);
            Get(t, q) == if w.Nil? || w.ch != c then 0 else if |q| == 1 then w.value else Get(w.child, q[1..])
  {
    if t.Node? {
      if c > t.ch { WalkToGet(t.next, c, q); } else if c < t.ch { NothingBefore(t, q); }
    }
  }

  lemma {:induction false} WalkToCanonical(t: Trie, c: char)
    requires Canonical(t)
    ensures Canonical(WalkTo(t, c)) && (WalkTo(t, c).Node? ==> Canonical(WalkTo(t, c).child))
    ensures WalkTo(t, c).Node? ==> WalkTo(t, c).ch >= c
  {
    if t.Node? && c > t.ch { WalkToCanonical(t.next, c); }
  }

  /** A first character is taken exactly when there is a node for it. */
  lemma BeginsWith(t: Trie, c: char)
    requires Canonical(t)
    ensures Begins(t, [c]) <==> WalkTo(t, c).Node? && WalkTo(t, c).ch == c
  {
    var w := WalkTo(t, c);
    WalkToCanonical(t, c);
    if w.Node? && w.ch == c {
      var q := SomeKey(w);
      WalkToGet(t, c, q);
      WalkToGet(w, c, q);
      assert [c] <= q;
    }
    forall q: Key | [c] <= q && Get(t, q) != 0 ensures w.Node? && w.ch == c { WalkToGet(t, c, q); }
  }

  lemma BeginsBelow(t: Trie, c: char, p: string)
    requires Canonical(t) && p != [] && WalkTo(t, c).Node? && WalkTo(t, c).ch == c
    ensures Begins(t, [c] + p) <==> Begins(WalkTo(t, c).child, p)
  {
    var w := WalkTo(t, c);
    forall q: Key | [c] + p <= q && Get(t, q) != 0 ensures Begins(w.child, p) {
      WalkToGet(t, c, q);
      assert p <= q[1..] && Get(w.child, q[1..]) != 0;
    }
    forall q: Key | p <= q && Get(w.child, q) != 0 ensures Begins(t, [c] + p) {
      var long := [c] + q;
      WalkToGet(t, c, long);
      assert long[1..] == q && [c] + p <= long;
    }
  }

  /** Below the first character it is the same question again. */
  lemma FollowsBelow(t: Trie, k: Key, l: Key, i: nat)
    requires Canonical(t) && 0 < i < |k| == |l| && WalkTo(t, l[0]).Node? && WalkTo(t, l[0]).ch == l[0]
    ensures Follows(t, k, l, i) <==> Follows(WalkTo(t, l[0]).child, k[1..], l[1..], i - 1)
  {
    var w := WalkTo(t, l[0]);
    forall c ensures Begins(t, l[..i] + [c]) <==> Begins(w.child, l[1..][..i - 1] + [c]) {
      var p := l[1..][..i - 1] + [c];
      BeginsBelow(t, l[0], p);
      assert l[..i] + [c] == [l[0]] + p;
    }
  }

  /** Where the walk turns at the first character. */
  lemma FirstTurn(t: Trie, k: Key, l: Key)
    requires Canonical(t) && |k| == |l|
    ensures Get(t, l) != 0 && Follows(t, k, l, 0) <==>
            Get(t, l) != 0 && t.Node? && k[0] >= t.ch && WalkTo(t, k[0]).Node? && WalkTo(t, k[0]).ch == l[0]
  {
    var w := WalkTo(t, k[0]);
    assert forall c :: l[..0] + [c] == [c];
    WalkToCanonical(t, k[0]);
    if Get(t, l) != 0 {
      WalkToGet(t, l[0], l);
      BeginsWith(t, l[0]);
      if w.Node? { BeginsWith(t, w.ch); Reaches(t, k[0], w.ch); }
      if t.Node? { BeginsWith(t, t.ch); }
      forall c | Begins(t, [c]) ensures t.Node? && t.ch <= c && (k[0] <= c ==> w.Node? && w.ch <= c) {
        BeginsWith(t, c);
        Reaches(t, k[0], c);
      }
    }
  }

  lemma {:induction false} Reaches(t: Trie, a: char, c: char)
    requires Sorted(t)
    ensures WalkTo(t, c).Node? && WalkTo(t, c).ch == c && a <= c ==> WalkTo(t, a).Node? && WalkTo(t, a).ch <= c
    ensures WalkTo(t, c).Node? && WalkTo(t, c).ch == c ==> t.Node? && t.ch <= c
    ensures WalkTo(t, a).Node? && WalkTo(t, a).ch == c ==> WalkTo(t, c) == WalkTo(t, a)
  {
    if t.Node? { Reaches(t.next, a, c); }
  }

  /** The walk ends on a stored key exactly when that key misleads it. */
  lemma {:induction false} LandsIff(t: Trie, k: Key, l: Key)
    requires Canonical(t)
    ensures Lands(t, k) == At(l) && Get(t, l) != 0 <==> Misleads(t, k, l)
    decreases |k|
  {
    SearchIsGetAtLanding(t, k);
    if |l| == |k| && Get(t, l) != 0 {
      FirstTurn(t, k, l);
      if Follows(t, k, l, 0) {
        var w := WalkTo(t, k[0]);
        Reaches(t, k[0], l[0]);
        WalkToGet(t, l[0], l);
        WalkToCanonical(t, k[0]);
        if |k| > 1 {
          LandsIff(w.child, k[1..], l[1..]);
          assert l == [l[0]] + l[1..];
          forall i | 0 < i < |k| ensures Follows(t, k, l, i) <==> Follows(w.child, k[1..], l[1..], i - 1) {
            FollowsBelow(t, k, l, i);
          }
          MisleadsBelow(t, w.child, k, l);
        }
      }
    }
  }

  lemma MisleadsBelow(t: Trie, u: Trie, k: Key, l: Key)
    requires |k| == |l| > 1 && Get(t, l) != 0 && Get(u, l[1..]) != 0 && Follows(t, k, l, 0)
    requires forall i :: 0 < i < |k| ==> (Follows(t, k, l, i) <==> Follows(u, k[1..], l[1..], i - 1))
    ensures Misleads(t, k, l) <==> Misleads(u, k[1..], l[1..])
  {
    hide Follows;
    if Misleads(u, k[1..], l[1..]) {
      forall i | 0 <= i < |k| ensures Follows(t, k, l, i) {
        if i > 0 { assert Follows(u, k[1..], l[1..], i - 1); }
      }
    }
    if Misleads(t, k, l) {
      forall i | 0 <= i < |k[1..]| ensures Follows(u, k[1..], l[1..], i) { assert Follows(t, k, l, i + 1); }
    }
  }

  /** Search is map lookup exactly when no other stored key misleads it, which is a
      question about the stored keys and nothing else. */
  lemma SearchIsLookupIff(t: Trie, k: Key)
    requires Canonical(t)
    ensures Search(t, k) == Get(t, k) <==> !exists l: Key :: l != k && Misleads(t, k, l)
  {
    hide Misleads;
    SearchIsLookupUnlessItStrays(t, k);
    SearchIsGetAtLanding(t, k);
    if Strays(t, k) {
      LandsIff(t, k, Lands(t, k).key);
    }
    forall l: Key | l != k && Misleads(t, k, l) ensures Strays(t, k) { LandsIff(t, k, l); }
  }

  // The search as it is meant: with the exit that is missing after the walk.

  function GuardedSearch(t: Trie, k: string): int
    decreases |k|
  {
    if t.Nil? || k == [] then 0
    else if k[0] > t.ch then
      var w := WalkTo(t, k[0]);
      if w.Nil? || k[0] != w.ch then 0
      else if |k| == 1 then w.value
      else GuardedSearch(w.child, k[1..])
    else if k[0] == t.ch then
      if |k| == 1 then t.value else GuardedSearch(t.child, k[1..])
    else 0
  }

  /** With that exit search is map lookup, for every key. */
  lemma {:induction false} GuardedSearchIsLookup(t: Trie, k: Key)
    requires Sorted(t)
    ensures GuardedSearch(t, k) == Get(t, k)
    decreases |k|
  {
    WalkToGet(t, k[0], k);
    if t.Node? && k[0] >= t.ch {
      var w := WalkTo(t, k[0]);
      WalkToFacts(t, k[0], k);
      if w.Node? && w.ch == k[0] && |k| > 1 { GuardedSearchIsLookup(w.child, k[1..]); }
    }
  }

  /** A stored key is always found, whatever else is stored. */
  lemma PresentKeysAreFound(t: Trie, k: Key)
    requires Sorted(t) && Get(t, k) != 0
    ensures Search(t, k) == Get(t, k)
  {
    SearchIsGetAtLanding(t, k);
    if Lands(t, k) != At(k) { StrayingMeansAbsent(t, k); }
  }

  /** The search does stray: with "aY" and "cX" stored, "bX" finds "cX". */
  lemma SearchCanStray()
    ensures var t := Insert(Insert(Nil, "aY", 1), "cX", 2);
            Canonical(t) && Get(t, "bX") == 0 && Search(t, "bX") == 2 && Misleads(t, "bX", "cX")
  {
    var y := Node('Y', 1, Nil, Nil);
    var x := Node('X', 2, Nil, Nil);
    assert Chain("Y", 1) == y by { assert Chain("Y"[1..], 1) == Nil; }
    assert Chain("X", 2) == x by { assert Chain("X"[1..], 2) == Nil; }
    assert "aY"[1..] == "Y" && "cX"[1..] == "X" && "bX"[1..] == "X";
    assert Insert(Nil, "aY", 1) == Node('a', 0, y, Nil);
    var t := Node('a', 0, y, Node('c', 0, x, Nil));
    assert Insert(Nil, "cX", 2) == Node('c', 0, x, Nil);
    assert Insert(Node('a', 0, y, Nil), "cX", 2) == t;
    assert WalkTo(t, 'b') == Node('c', 0, x, Nil);
    assert WalkTo(x, 'X') == x;
    assert Lands(x, "X") == At("X");
    assert Lands(t, "bX") == At("cX");
    assert Get(x, "X") == 2;
    assert Search(x, "X") == 2;
    LandsIff(t, "bX", "cX");
  }
}
