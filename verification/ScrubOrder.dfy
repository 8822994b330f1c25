/** The records of a property as they lie: one chain, the newest in front, of both
    kinds, that a dying instance walks while it frees records (ScrubOwnWires of
    src/object.c). When that walk steps onto a record it has just freed. */
module ScrubOrder {
  import opened Decimal
  import opened GraphModel

  /** A property's record of a wire that leaves it, or of one that comes in. */
  datatype Record = Subscriber(far: Slot) | Subscription(far: Slot)

  type Chains = map<Slot, seq<Record>>

  predicate Unique(q: seq<Record>) {
    forall i, j :: 0 <= i < j < |q| ==> q[i] != q[j]
  }

  /** Visiting the records v strikes this one, on s: it is the other end's record, as
      far as only the instance at that end is looked at. */
  predicate Struck(r: Record, s: Slot, v: set<Record>, x: Id) {
    r.far.inst == x && (if r.Subscriber? then Subscription(s) in v else Subscriber(s) in v)
  }

  /** What is left of the chain of s. */
  function Left(q: seq<Record>, s: Slot, v: set<Record>, x: Id): (r: seq<Record>)
    ensures |r| <= |q| && (forall e :: e in r <==> e in q && !Struck(e, s, v, x))
  {
    if q == [] then []
    else if Struck(q[0], s, v, x) then Left(q[1..], s, v, x)
    else [q[0]] + Left(q[1..], s, v, x)
  }

  /** The record is the port's record of itself. */
  predicate Own(r: Record, p: Slot) {
    r.far == p
  }

  /** What the walk of p's chain has ahead of it after the first record there. */
  function Ahead(q: seq<Record>, p: Slot): (r: seq<Record>)
    requires q != []
    ensures |r| < |q|
  {
    if Own(q[0], p) then Left(q[1..], p, {q[0]}, p.inst) else q[1..]
  }

  /** The records the walk of p's chain comes to. */
  function Visited(q: seq<Record>, p: Slot): set<Record>
    decreases |q|
  {
    if q == [] then {} else {q[0]} + Visited(Ahead(q, p), p)
  }

  /** The record at k is the port's first record of itself, and frees the one right
      behind it. */
  predicate FreesNext(q: seq<Record>, p: Slot, k: nat) {
    && k + 1 < |q| && Own(q[k], p) && Struck(q[k + 1], p, {q[k]}, p.inst)
    && forall j :: 0 <= j < k ==> !Own(q[j], p)
  }

  ghost predicate Stumbles(q: seq<Record>, p: Slot) {
    exists k :: FreesNext(q, p, k)
  }

  /** The other chains when the walk of p's is through. */
  function After(c: Chains, p: Slot): Chains
    requires p in c
  {
    map s | s in c && s != p :: Left(c[s], s, Visited(c[p], p), p.inst)
  }

  /** Some properties, in some order, each of them once. */
  predicate Order(c: Chains, order: seq<Slot>) {
    Once(order) && forall s :: s in order ==> s in c
  }

  /** Walking the chains in this order meets only records that are still there. */
  ghost predicate Safe(c: Chains, order: seq<Slot>)
    requires Order(c, order)
    decreases |order|
  {
    order != [] ==> !Stumbles(c[order[0]], order[0]) && Safe(After(c, order[0]), order[1..])
  }

  /** The chains that are left when those of order were walked, one after another. */
  function Scrubbed(c: Chains, order: seq<Slot>): Chains
    requires Order(c, order)
    decreases |order|
  {
    if order == [] then c else Scrubbed(After(c, order[0]), order[1..])
  }

  // ---- the walk --------------------------------------------------------------------

  lemma {:induction false} LeftTwice(q: seq<Record>, s: Slot, v: set<Record>, w: set<Record>, x: Id)
    ensures Left(Left(q, s, v, x), s, w, x) == Left(q, s, v + w, x)
  {
    if q != [] { LeftTwice(q[1..], s, v, w, x); }
  }

  lemma {:induction false} LeftAll(q: seq<Record>, s: Slot, v: set<Record>, x: Id)
    requires forall e :: e in q ==> !Struck(e, s, v, x)
    ensures Left(q, s, v, x) == q
  {
    if q != [] {
      assert q[0] in q;
      LeftAll(q[1..], s, v, x);
    }
  }

  /** Only what names s matters to s. */
  lemma {:induction false} LeftSame(q: seq<Record>, s: Slot, v: set<Record>, w: set<Record>, x: Id)
    requires (Subscriber(s) in v <==> Subscriber(s) in w) && (Subscription(s) in v <==> Subscription(s) in w)
    ensures Left(q, s, v, x) == Left(q, s, w, x)
  {
    if q != [] { LeftSame(q[1..], s, v, w, x); }
  }

  /** Whether the walk stumbles is settled at the first record of the port itself. */
  lemma StumblesHere(q: seq<Record>, p: Slot)
    requires q != []
    ensures !Own(q[0], p) ==> (Stumbles(q, p) <==> Stumbles(q[1..], p))
    ensures Own(q[0], p) ==> (Stumbles(q, p) <==> |q| > 1 && Struck(q[1], p, {q[0]}, p.inst))
  {
    var rest := q[1..];
    if !Own(q[0], p) {
      if k: nat :| FreesNext(q, p, k) {
        assert FreesNext(rest, p, k - 1);
      }
      if k: nat :| FreesNext(rest, p, k) {
        assert forall j :: 0 < j < k + 1 ==> q[j] == rest[j - 1];
        assert FreesNext(q, p, k + 1);
      }
    } else if |q| > 1 && Struck(q[1], p, {q[0]}, p.inst) {
      assert FreesNext(q, p, 0);
    }
  }

  /** Once the port's own record was worked off, nothing of the other kind that names
      the instance is ahead. */
  lemma NeverAgain(q: seq<Record>, own: Record, p: Slot)
    requires Own(own, p)
    ensures !Stumbles(Left(q, p, {own}, p.inst), p)
  {
    var r := Left(q, p, {own}, p.inst);
    forall k: nat ensures !FreesNext(r, p, k) {
      if k + 1 < |r| { assert r[k] in r && r[k + 1] in r; }
    }
  }

  /** One visit: the far end forgets the instance. */
  function Strike(c: Chains, r: Record, x: Id): Chains {
    if r.far in c then c[r.far := Left(c[r.far], r.far, {r}, x)] else c
  }

  lemma OneMoreVisit(c: Chains, now: Chains, done: set<Record>, r: Record, s: Slot, x: Id)
    requires s in c && s in now && now[s] == Left(c[s], s, done, x)
    ensures Strike(now, r, x)[s] == Left(c[s], s, done + {r}, x)
  {
    if r.far == s { LeftTwice(c[s], s, done, {r}, x); } else { LeftSame(c[s], s, done, done + {r}, x); }
  }

  lemma NothingStumbles(p: Slot)
    ensures !Stumbles([], p)
  {}

  lemma AfterIs(c: Chains, after: Chains, p: Slot, done: set<Record>)
    requires p in c && after.Keys == c.Keys && done == Visited(c[p], p)
    requires forall s :: s in c && s != p ==> after[s] == Left(c[s], s, done, p.inst)
    ensures after - {p} == After(c, p)
  {
    hide Left, Visited;
  }

  /** Take my own wires down: the walk of one property's records, the next one
      remembered before the present one is worked off. It ends where what was
      remembered is gone. */
  method ScrubOwnWiresIn(c: Chains, p: Slot) returns (alive: bool, after: Chains)
    requires p in c
    ensures alive <==> !Stumbles(c[p], p)
    ensures alive ==> p in after && after - {p} == After(c, p)
  {
    hide Stumbles, After;
    var x := p.inst;
    var kept: seq<Record>, ahead := [], c[p];
    ghost var done: set<Record> := {};
    after, alive := c, true;
    forall s | s in c ensures c[s] == Left(c[s], s, {}, x) { LeftAll(c[s], s, {}, x); }
    while ahead != []
      invariant after.Keys == c.Keys && alive
      invariant forall s :: s in c && s != p ==> after[s] == Left(c[s], s, done, x)
      invariant done + Visited(ahead, p) == Visited(c[p], p)
      invariant Stumbles(ahead, p) <==> Stumbles(c[p], p)
      decreases |ahead|
    {
      var rec, next := ahead[0], ahead[1..];
      StumblesHere(ahead, p);
      forall s | s in c && s != p ensures Strike(after, rec, x)[s] == Left(c[s], s, done + {rec}, x) {
        OneMoreVisit(c, after, done, rec, s, x);
      }
      after, done := Strike(after, rec, x), done + {rec};
      if rec.far == p {
        kept, ahead := Left(kept, p, {rec}, x), Left(next, p, {rec}, x);
        NeverAgain(next, rec, p);
      } else {
        ahead := next;
      }
      if rec.Subscriber? { kept := kept + [rec]; }
      after := after[p := kept + ahead];
      if next != [] && next[0] !in ahead { return false, after; }
    }
    NothingStumbles(p);
    AfterIs(c, after, p, done);
  }

  lemma {:induction false} SafeAlike(c: Chains, d: Chains, order: seq<Slot>)
    requires Order(c, order) && Order(d, order) && forall s :: s in order ==> c[s] == d[s]
    ensures Safe(c, order) <==> Safe(d, order)
    decreases |order|
  {
    if order != [] {
      assert forall s :: s in order[1..] ==> s in order && s != order[0];
      SafeAlike(After(c, order[0]), After(d, order[0]), order[1..]);
    }
  }

  /** What is left to walk is not told apart from what the walk of p leaves. */
  lemma WalkOn(c: Chains, after: Chains, order: seq<Slot>)
    requires Order(c, order) && order != [] && order[0] in after && after - {order[0]} == After(c, order[0])
    ensures Order(after, order[1..]) && Order(After(c, order[0]), order[1..])
    ensures Safe(after, order[1..]) <==> Safe(After(c, order[0]), order[1..])
  {
    var p, rest := order[0], order[1..];
    forall s | s in rest ensures s in after && s in After(c, p) && after[s] == After(c, p)[s] {
      assert s in order && s != p;
      assert s in after - {p} && (after - {p})[s] == after[s];
    }
    SafeAlike(After(c, p), after, rest);
  }

  /** More chains make no difference to those there are. */
  lemma {:induction false} ScrubbedAlike(c: Chains, d: Chains, order: seq<Slot>)
    requires Order(c, order) && Order(d, order) && c.Keys <= d.Keys && forall s :: s in c ==> d[s] == c[s]
    ensures forall s :: s in c && s !in order ==> s in Scrubbed(c, order) && s in Scrubbed(d, order) && Scrubbed(d, order)[s] == Scrubbed(c, order)[s]
    decreases |order|
  {
    if order != [] {
      assert forall s :: s in order[1..] ==> s in order && s != order[0];
      assert order == [order[0]] + order[1..];
      ScrubbedAlike(After(c, order[0]), After(d, order[0]), order[1..]);
    }
  }

  /** The same for all properties of the instance, in the order they lie in. */
  method ScrubOwnWires(c: Chains, order: seq<Slot>) returns (alive: bool, after: Chains)
    requires Order(c, order)
    ensures alive <==> Safe(c, order)
    ensures alive ==> forall s :: s in c && s !in order ==> s in after && s in Scrubbed(c, order) && after[s] == Scrubbed(c, order)[s]
  {
    hide After, Stumbles, Scrubbed;
    var i := 0;
    after := c;
    assert order[0..] == order;
    ScrubbedAlike(c, c, order);
    while i < |order|
      invariant 0 <= i <= |order| && Order(after, order[i..])
      invariant Safe(after, order[i..]) <==> Safe(c, order)
      invariant Following(c, order, after, order[i..])
    {
      assert order[i..][1..] == order[i + 1..] && order[i..][0] == order[i];
      ghost var now := after;
      var ok;
      ok, after := ScrubOwnWiresIn(after, order[i]);
      if !ok { return false, after; }
      WalkOn(now, after, order[i..]);
      StillFollowing(c, order, now, after, order[i..]);
      i := i + 1;
    }
    NothingToCome(c, order, after, order[i..]);
    alive := true;
  }

  /** What walking the rest will leave of the chains outside of order is what walking all
      of order leaves. */
  ghost predicate Following(c: Chains, order: seq<Slot>, now: Chains, rest: seq<Slot>) {
    && Order(c, order) && Order(now, rest)
    && (forall s :: s in rest ==> s in order)
    && forall s :: s in c && s !in order ==>
         s in now && s in Scrubbed(c, order) && s in Scrubbed(now, rest) && Scrubbed(now, rest)[s] == Scrubbed(c, order)[s]
  }

  lemma StillFollowing(c: Chains, order: seq<Slot>, now: Chains, after: Chains, rest: seq<Slot>)
    requires rest != [] && Following(c, order, now, rest) && Order(after, rest[1..])
    requires rest[0] in after && after - {rest[0]} == After(now, rest[0])
    ensures Following(c, order, after, rest[1..])
  {
    var p, d := rest[0], After(now, rest[0]);
    assert Order(d, rest[1..]) by {
      assert forall s :: s in rest[1..] ==> s in rest && s != p;
    }
    forall s | s in d ensures s in after && after[s] == d[s] { assert s in after - {p}; }
    ScrubbedAlike(d, after, rest[1..]);
    assert Scrubbed(now, rest) == Scrubbed(d, rest[1..]);
    hide Left;
  }

  lemma NothingToCome(c: Chains, order: seq<Slot>, now: Chains, rest: seq<Slot>)
    requires rest == [] && Following(c, order, now, rest)
    ensures forall s :: s in c && s !in order ==> s in now && s in Scrubbed(c, order) && now[s] == Scrubbed(c, order)[s]
  {}

  // ---- what the walk leaves -----------------------------------------------------------

  lemma {:induction false} VisitsThoseElsewhere(q: seq<Record>, p: Slot)
    ensures forall r :: r in q && r.far.inst != p.inst ==> r in Visited(q, p)
    decreases |q|
  {
    if q != [] {
      assert q == [q[0]] + q[1..];
      VisitsThoseElsewhere(Ahead(q, p), p);
    }
  }

  /** Outside of the instance each chain has lost what the records visited strike, and
      every record of the instance that leads outside was visited. */
  lemma {:induction false} ScrubbedIsLeft(c: Chains, order: seq<Slot>, x: Id) returns (v: set<Record>)
    requires Order(c, order) && forall s :: s in order ==> s.inst == x
    ensures forall s :: s in c && s.inst != x ==> s in Scrubbed(c, order) && Scrubbed(c, order)[s] == Left(c[s], s, v, x)
    ensures forall t, r :: t in order && r in c[t] && r.far.inst != x ==> r in v
    decreases |order|
  {
    if order == [] {
      v := {};
      forall s | s in c ensures Left(c[s], s, v, x) == c[s] { LeftAll(c[s], s, v, x); }
    } else {
      var p, rest := order[0], order[1..];
      var c1, first := After(c, p), Visited(c[p], p);
      assert order == [p] + rest && p !in rest;
      VisitsThoseElsewhere(c[p], p);
      var more := ScrubbedIsLeft(c1, rest, x);
      v := first + more;
      forall s | s in c && s.inst != x ensures s in Scrubbed(c, order) && Scrubbed(c, order)[s] == Left(c[s], s, v, x) {
        LeftTwice(c[s], s, first, more, x);
      }
      forall t, r | t in order && r in c[t] && r.far.inst != x ensures r in v {
        if t != p { assert t in rest && r in c1[t]; }
      }
    }
  }

  // ---- when the order does not matter -------------------------------------------------

  /** No property of the instance has a record of itself: every order will do. */
  lemma {:induction false} SafeInEveryOrder(c: Chains, order: seq<Slot>)
    requires Order(c, order) && forall s, r :: s in order && r in c[s] ==> !Own(r, s)
    ensures Safe(c, order)
    decreases |order|
  {
    if order != [] {
      var p := order[0];
      forall k: nat ensures !FreesNext(c[p], p, k) {
        if k < |c[p]| { assert c[p][k] in c[p]; }
      }
      assert forall s :: s in order[1..] ==> s in order && s != p;
      SafeInEveryOrder(After(c, p), order[1..]);
    }
  }

  // ---- the chains of a reachable graph ---------------------------------------------------

  /** The chains hold exactly the records of the properties, each once; and the two of
      a property wired to itself lie side by side. */
  ghost predicate Threaded(c: Chains, props: map<Slot, Prop>) {
    && c.Keys == props.Keys
    && forall s :: s in c ==> Thread(c[s], s, props[s])
  }

  ghost predicate Thread(q: seq<Record>, s: Slot, p: Prop) {
    && Unique(q)
    && (forall t :: Subscriber(t) in q <==> t in p.subs)
    && (forall t :: Subscription(t) in q <==> t in p.backs)
    && (s in p.subs && s in p.backs ==> SideBySide(q, s))
  }

  ghost predicate SideBySide(q: seq<Record>, s: Slot) {
    exists k :: Adjoin(q, s, k)
  }

  predicate Adjoin(q: seq<Record>, s: Slot, k: nat) {
    k + 1 < |q| && q[k] == Subscription(s) && q[k + 1] == Subscriber(s)
  }

  /** The walk of a property's records steps onto a freed one exactly when the property
      is wired to itself. */
  lemma StumblesIff(c: Chains, props: map<Slot, Prop>, p: Slot)
    requires Threaded(c, props) && Paired(props) && p in props
    ensures Stumbles(c[p], p) <==> Wired(props, p, p)
  {
    var q := c[p];
    assert Thread(q, p, props[p]);
    assert Wired(props, p, p) <==> Heard(props, p, p);
    if Wired(props, p, p) {
      var k: nat :| Adjoin(q, p, k);
      forall j | 0 <= j < k ensures !Own(q[j], p) {
        assert q[j] != q[k] && q[j] != q[k + 1];
      }
      assert FreesNext(q, p, k);
    }
    if k: nat :| FreesNext(q, p, k) {
      assert q[k] in q && (q[k] == Subscriber(p) || q[k] == Subscription(p));
    }
  }

  /** All properties of an instance, in some order. */
  ghost predicate IsOrderOf(props: map<Slot, Prop>, x: Id, order: seq<Slot>) {
    Once(order) && forall s :: s in order <==> s in props && s.inst == x
  }

  /** Any of them can come first. */
  lemma OrderFrom(props: map<Slot, Prop>, p: Slot) returns (order: seq<Slot>)
    requires p in props
    ensures IsOrderOf(props, p.inst, order) && order != [] && order[0] == p
  {
    order := [p];
    var todo := set s | s in props && s.inst == p.inst && s != p;
    while todo != {}
      invariant Once(order) && order != [] && order[0] == p
      invariant forall s :: s in props && s.inst == p.inst <==> s in order || s in todo
      invariant forall s :: s in todo ==> s !in order
      decreases todo
    {
      var s :| s in todo;
      order, todo := order + [s], todo - {s};
    }
  }

  /** Taking an instance's wires down meets only records that are still there, whatever
      order its properties lie in, exactly when none of them is wired to itself. */
  lemma ScrubIsSafeIff(c: Chains, g: Graph, x: Id)
    requires WF(g) && Threaded(c, g.props)
    ensures (forall order :: IsOrderOf(g.props, x, order) ==> Order(c, order) && Safe(c, order)) <==> NoSelfWire(g, x)
  {
    if NoSelfWire(g, x) {
      forall order | IsOrderOf(g.props, x, order) ensures Order(c, order) && Safe(c, order) {
        forall s, r | s in order && r in c[s] ensures !Own(r, s) {
          assert Thread(c[s], s, g.props[s]) && (Wired(g.props, s, s) <==> Heard(g.props, s, s));
        }
        SafeInEveryOrder(c, order);
      }
    } else {
      var p :| p in g.props && p.inst == x && Wired(g.props, p, p);
      var order := OrderFrom(g.props, p);
      StumblesIff(c, g.props, p);
      assert IsOrderOf(g.props, x, order) && !(Order(c, order) && Safe(c, order));
    }
  }

  // ---- the chains along a run ---------------------------------------------------------------

  /** The properties there now; a new one has no record yet. */
  function Extend(c: Chains, keys: set<Slot>): Chains {
    map s | s in keys :: if s in c then c[s] else []
  }

  /** A record goes to the front, once. */
  function Add(c: Chains, s: Slot, r: Record): Chains
    requires s in c
  {
    if r in c[s] then c else c[s := [r] + c[s]]
  }

  /** The source's record first, and the sink's only behind a new one. */
  function Tie(c: Chains, f: Slot, t: Slot): Chains
    requires f in c && t in c
  {
    if Subscriber(t) in c[f] then c else Add(Add(c, f, Subscriber(t)), t, Subscription(f))
  }

  function Without(q: seq<Record>, e: Record): (r: seq<Record>)
    ensures forall y :: y in r <==> y in q && y != e
  {
    if q == [] then [] else if q[0] == e then Without(q[1..], e) else [q[0]] + Without(q[1..], e)
  }

  function Untie(c: Chains, f: Slot, t: Slot): Chains
    requires f in c && t in c
  {
    var c1 := c[f := Without(c[f], Subscriber(t))];
    c1[t := Without(c1[t], Subscription(f))]
  }

  function Elsewhere(q: seq<Record>, x: Id): (r: seq<Record>)
    ensures forall y :: y in r <==> y in q && y.far.inst != x
  {
    if q == [] then [] else if q[0].far.inst == x then Elsewhere(q[1..], x) else [q[0]] + Elsewhere(q[1..], x)
  }

  lemma {:induction false} LeftIsElsewhere(q: seq<Record>, s: Slot, v: set<Record>, x: Id)
    requires forall e :: e in q && e.far.inst == x ==> Struck(e, s, v, x)
    ensures Left(q, s, v, x) == Elsewhere(q, x)
  {
    if q != [] {
      assert q[0] in q;
      LeftIsElsewhere(q[1..], s, v, x);
    }
  }

  /** Walking the chains of a dying instance, in whatever order, takes every record of it
      out of everyone else's chain, and no other: the rest lie as they lay. */
  lemma ScrubLeaves(c: Chains, g: Graph, x: Id, order: seq<Slot>)
    requires WF(g) && Threaded(c, g.props) && IsOrderOf(g.props, x, order)
    ensures Order(c, order)
    ensures forall s :: s in c && s.inst != x ==> s in Scrubbed(c, order) && Scrubbed(c, order)[s] == Elsewhere(c[s], x)
  {
    var v := ScrubbedIsLeft(c, order, x);
    hide Left, Scrubbed, Elsewhere;
    forall s | s in c && s.inst != x ensures Left(c[s], s, v, x) == Elsewhere(c[s], x) {
      forall e | e in c[s] && e.far.inst == x ensures Struck(e, s, v, x) { EachIsStruck(c, g, s, e, order, v); }
      LeftIsElsewhere(c[s], s, v, x);
    }
  }

  lemma EachIsStruck(c: Chains, g: Graph, s: Slot, e: Record, order: seq<Slot>, v: set<Record>)
    requires WF(g) && Threaded(c, g.props) && s in c && e in c[s] && s.inst != e.far.inst && IsOrderOf(g.props, e.far.inst, order)
    requires Order(c, order) && forall t, r :: t in order && r in c[t] && r.far.inst != e.far.inst ==> r in v
    ensures Struck(e, s, v, e.far.inst)
  {
    var t := e.far;
    assert Thread(c[s], s, g.props[s]);
    assert Wired(g.props, s, t) <==> Heard(g.props, s, t);
    assert Wired(g.props, t, s) <==> Heard(g.props, t, s);
    assert t in order && Thread(c[t], t, g.props[t]);
    if e.Subscriber? { assert Subscription(s) in c[t]; } else { assert Subscriber(s) in c[t]; }
  }

  /** What each step of the graph makes of the chains. */
  function NextChains(c: Chains, g: Graph, step: Step): Chains {
    var keys := Next(g, step).props.Keys;
    match step
    case Wire(a, from, b, to) =>
      var g1 := Grow(g, a, from);
      var c1 := Extend(c, g1.props.Keys);
      var f, t := Resolve(g1.props, a, from).1, Resolve(g1.props, b, to).1;
      Extend(if f.Node? && t.Node? && f.slot in c1 && t.slot in c1 then Tie(c1, f.slot, t.slot) else c1, keys)
    case Unwire(a, from, b, to) =>
      var f, t := Resolve(g.props, a, from).1, Resolve(g.props, b, to).1;
      Extend(if f.Node? && t.Node? && f.slot in c && t.slot in c && Subscriber(t.slot) in c[f.slot] then Untie(c, f.slot, t.slot) else c, keys)
    case DeleteStep(x) => map s | s in c && s.inst != x :: Elsewhere(c[s], x)
    case _ => Extend(c, keys)
  }

  /** A run of the graph, and the chains along it. */
  ghost predicate IsThreadedRun(steps: seq<Step>, trace: seq<Graph>, chains: seq<Chains>) {
    && IsRun(steps, trace) && |chains| == |trace| && chains[0] == map[]
    && forall i :: 0 <= i < |steps| ==> chains[i + 1] == NextChains(chains[i], trace[i], steps[i])
  }

  // ---- records stay side by side --------------------------------------------------------------

  /** A record of another property's goes to the front. */
  lemma FrontThread(q: seq<Record>, s: Slot, p: Prop, e: Record, r: Prop)
    requires Thread(q, s, p) && e !in q && e.far != s
    requires forall t :: t in r.subs <==> t in p.subs || e == Subscriber(t)
    requires forall t :: t in r.backs <==> t in p.backs || e == Subscription(t)
    ensures Thread([e] + q, s, r)
  {
    if s in r.subs && s in r.backs {
      var k: nat :| Adjoin(q, s, k);
      assert Adjoin([e] + q, s, k + 1);
    }
  }

  /** The two records of a property wired to itself go to the front, one upon the other. */
  lemma SelfThread(q: seq<Record>, s: Slot, p: Prop, r: Prop)
    requires Thread(q, s, p) && s !in p.subs && s !in p.backs
    requires r.subs == [s] + p.subs && r.backs == [s] + p.backs
    ensures Thread([Subscription(s)] + ([Subscriber(s)] + q), s, r)
  {
    assert Adjoin([Subscription(s)] + ([Subscriber(s)] + q), s, 0);
  }

  lemma {:induction false} WithoutKeeps(q: seq<Record>, e: Record, s: Slot)
    requires Unique(q)
    ensures Unique(Without(q, e))
    ensures e.far != s && SideBySide(q, s) ==> SideBySide(Without(q, e), s)
  {
    if q != [] {
      var rest := Without(q[1..], e);
      WithoutKeeps(q[1..], e, s);
      assert q[0] !in q[1..];
      assert forall i :: 0 <= i < |rest| ==> rest[i] in rest;
      if e.far != s && SideBySide(q, s) {
        var k: nat :| Adjoin(q, s, k);
        if k == 0 {
          assert q[1..][0] == Subscriber(s) && rest[0] == Subscriber(s);
          assert Adjoin(Without(q, e), s, 0);
        } else {
          assert Adjoin(q[1..], s, k - 1);
          var j: nat :| Adjoin(rest, s, j);
          if q[0] != e { assert Adjoin([q[0]] + rest, s, j + 1); }
        }
      }
    }
  }

  lemma {:induction false} ElsewhereKeeps(q: seq<Record>, x: Id, s: Slot)
    requires Unique(q)
    ensures Unique(Elsewhere(q, x))
    ensures x != s.inst && SideBySide(q, s) ==> SideBySide(Elsewhere(q, x), s)
  {
    if q != [] {
      var rest := Elsewhere(q[1..], x);
      ElsewhereKeeps(q[1..], x, s);
      assert q[0] !in q[1..];
      assert forall i :: 0 <= i < |rest| ==> rest[i] in rest;
      if x != s.inst && SideBySide(q, s) {
        var k: nat :| Adjoin(q, s, k);
        if k == 0 {
          assert q[1..][0] == Subscriber(s) && rest[0] == Subscriber(s);
          assert Adjoin(Elsewhere(q, x), s, 0);
        } else {
          assert Adjoin(q[1..], s, k - 1);
          var j: nat :| Adjoin(rest, s, j);
          if q[0].far.inst != x { assert Adjoin([q[0]] + rest, s, j + 1); }
        }
      }
    }
  }

  // ---- each step keeps the chains in step ------------------------------------------------------

  lemma TieThreads(c: Chains, props: map<Slot, Prop>, f: Slot, t: Slot)
    requires Threaded(c, props) && Paired(props) && f in props && t in props
    ensures Threaded(Tie(c, f, t), AddWire(props, f, t))
  {
    assert Thread(c[f], f, props[f]) && Thread(c[t], t, props[t]);
    assert Wired(props, f, t) <==> Heard(props, f, t);
    hide Thread;
    assert Subscriber(t) in c[f] <==> t in props[f].subs by { ThreadHolds(c[f], f, props[f], t); }
    if !Wired(props, f, t) {
      var r, q := Tie(c, f, t), AddWire(props, f, t);
      ThreadHolds(c[t], t, props[t], f);
      if f == t {
        SelfThread(c[f], f, props[f], q[f]);
      } else {
        FrontThread(c[f], f, props[f], Subscriber(t), q[f]);
        FrontThread(c[t], t, props[t], Subscription(f), q[t]);
      }
      forall s | s in r ensures Thread(r[s], s, q[s]) {}
    }
  }

  lemma ThreadHolds(q: seq<Record>, s: Slot, p: Prop, t: Slot)
    requires Thread(q, s, p)
    ensures Subscriber(t) in q <==> t in p.subs
    ensures Subscription(t) in q <==> t in p.backs
  {}

  lemma WithoutSub(q: seq<Record>, s: Slot, p: Prop, t: Slot)
    requires Thread(q, s, p)
    ensures Thread(Without(q, Subscriber(t)), s, p.(subs := GraphModel.Without(p.subs, t)))
  {
    WithoutKeeps(q, Subscriber(t), s);
  }

  lemma WithoutBack(q: seq<Record>, s: Slot, p: Prop, f: Slot)
    requires Thread(q, s, p)
    ensures Thread(Without(q, Subscription(f)), s, p.(backs := GraphModel.Without(p.backs, f)))
  {
    WithoutKeeps(q, Subscription(f), s);
  }

  lemma UntieThreads(c: Chains, props: map<Slot, Prop>, f: Slot, t: Slot)
    requires Threaded(c, props) && f in props && t in props
    ensures Threaded(Untie(c, f, t), CutWire(props, f, t))
  {
    hide Thread, Without, GraphModel.Without;
    var c1 := c[f := Without(c[f], Subscriber(t))];
    var p1 := props[f := props[f].(subs := GraphModel.Without(props[f].subs, t))];
    WithoutSub(c[f], f, props[f], t);
    assert Thread(c1[t], t, p1[t]);
    WithoutBack(c1[t], t, p1[t], f);
    var r, q := Untie(c, f, t), CutWire(props, f, t);
    forall s | s in r ensures Thread(r[s], s, q[s]) {}
  }

  lemma ForgetThreads(c: Chains, props: map<Slot, Prop>, x: Id)
    requires Threaded(c, props)
    ensures Threaded(map s | s in c && s.inst != x :: Elsewhere(c[s], x), Survivors(props, x))
  {
    forall s | s in props && s.inst != x ensures Thread(Elsewhere(c[s], x), s, Cleared(props[s], x)) {
      assert Thread(c[s], s, props[s]);
      ElsewhereKeeps(c[s], x, s);
    }
  }

  /** The records are the same, and a new property has none. */
  ghost predicate SameRecords(p: map<Slot, Prop>, q: map<Slot, Prop>) {
    && (forall s :: s in p ==> s in q && q[s].subs == p[s].subs && q[s].backs == p[s].backs)
    && (forall s :: s in q && s !in p ==> q[s].subs == [] && q[s].backs == [])
  }

  lemma ExtendThreads(c: Chains, p: map<Slot, Prop>, q: map<Slot, Prop>)
    requires Threaded(c, p) && SameRecords(p, q)
    ensures Threaded(Extend(c, q.Keys), q)
  {
    var r := Extend(c, q.Keys);
    forall s | s in r ensures Thread(r[s], s, q[s]) {
      if s in c { assert Thread(c[s], s, p[s]); }
    }
  }

  lemma WriteRecords(g: Graph, inst: Id, name: string, v: Value)
    requires WF(g)
    ensures SameRecords(g.props, Write(g, inst, name, v).props)
  {
    ResolveFacts(g, inst, name);
  }

  lemma {:induction false} WriteAllRecords(g: Graph, writes: seq<(Slot, Value)>)
    requires WF(g)
    ensures SameRecords(g.props, WriteAll(g, writes).props)
    decreases |writes|
  {
    if writes != [] {
      var (s, v) := writes[0];
      if s.inst in g.info {
        WriteKeeps(g, s.inst, s.name, v);
        WriteRecords(g, s.inst, s.name, v);
      }
      hide Write, WF;
      WriteAllRecords(if s.inst in g.info then Write(g, s.inst, s.name, v) else g, writes[1..]);
    }
  }

  lemma DeliverRecords(g: Graph, to: Slot, v: Value, react: Handlers)
    requires WF(g) && to.inst in g.info
    ensures WF(Deliver(g, to, v, react)) && Deliver(g, to, v, react).info == g.info
    ensures SameRecords(g.props, Deliver(g, to, v, react).props)
  {
    hide WF;
    match react(to, v) {
      case Default =>
        WriteKeeps(g, to.inst, to.name, v);
        WriteRecords(g, to.inst, to.name, v);
      case Writes(ws) =>
        WriteAllKeeps(g, ws);
        WriteAllRecords(g, ws);
    }
  }

  lemma {:induction false} DeliverAllRecords(g: Graph, subs: seq<Slot>, v: Value, react: Handlers)
    requires WF(g) && forall i :: 0 <= i < |subs| ==> subs[i].inst in g.info
    ensures SameRecords(g.props, DeliverAll(g, subs, v, react).props)
    decreases |subs|
  {
    if subs != [] {
      hide Deliver, WF;
      DeliverRecords(g, subs[0], v, react);
      DeliverAllRecords(Deliver(g, subs[0], v, react), subs[1..], v, react);
    }
  }

  lemma DispatchRecords(g: Graph, react: Handlers)
    requires WF(g) && g.queue != []
    ensures SameRecords(g.props, Dispatch(g, react).props)
  {
    var env, g1 := g.queue[0], g.(queue := g.queue[1..]);
    if env.outPort.Node? {
      var subs := g.props[env.outPort.slot].subs;
      forall i | 0 <= i < |subs| ensures subs[i].inst in g.info {
        assert Wired(g.props, env.outPort.slot, subs[i]) && Heard(g.props, env.outPort.slot, subs[i]);
      }
      DeliverAllRecords(g1, subs, env.value, react);
    }
  }

  lemma RegisterRecords(g: Graph, id: Id, info: Info, declared: map<string, Value>)
    requires Live(g) && id !in g.info
    ensures SameRecords(g.props, Register(g, id, info, declared).props)
  {
    hide PathOf, NewProps;
    assert forall s :: s in g.props ==> s !in NewProps(id, declared);
  }

  lemma SameThrough(p: map<Slot, Prop>, q: map<Slot, Prop>, r: map<Slot, Prop>)
    requires SameRecords(p, q) && SameRecords(q, r)
    ensures SameRecords(p, r)
  {}

  lemma EnrolRecords(g: Graph, id: Id, info: Info, declared: map<string, Value>)
    requires WF(g) && id !in g.info
    ensures SameRecords(g.props, Enrol(g, id, info, declared).props)
  {
    assert Live(g);
    hide WF, Live, Register, Write, PathOf, Spelled, SameRecords;
    RegisterKeeps(g, id, info, declared);
    RegisterRecords(g, id, info, declared);
    var g1 := Register(g, id, info, declared);
    if info.container in g1.index {
      var v := Value(Spelled(PathOf(info)), false);
      WriteRecords(g1, g1.index[info.container], LAST, v);
      SameThrough(g.props, g1.props, Write(g1, g1.index[info.container], LAST, v).props);
    }
  }

  lemma BumpRecords(g: Graph, inst: Id)
    requires WF(g)
    ensures SameRecords(g.props, Bump(g, inst).props)
  {
    hide Write;
    WriteRecords(g, inst, WIRING, Value(Show(CountOf(g, inst) + 1), true));
  }

  lemma WireUpThreads(c: Chains, g: Graph, f: Slot, owner: Id, t: Slot)
    requires WF(g) && Threaded(c, g.props) && f in c && t in c
    ensures var r := WireUp(g, Node(f), owner, Node(t)); Threaded(Extend(Tie(c, f, t), r.props.Keys), r.props)
  {
    assert c.Keys == g.props.Keys && Paired(g.props);
    hide WF, Threaded, Bump, Tie, AddWire;
    TieThreads(c, g.props, f, t);
    WireStands(g, f, t);
    var g1 := g.(props := AddWire(g.props, f, t));
    BumpRecords(g1, owner);
    ExtendThreads(Tie(c, f, t), g1.props, Bump(g1, owner).props);
  }

  lemma WireDownThreads(c: Chains, g: Graph, f: Slot, owner: Id, t: Slot)
    requires WF(g) && Threaded(c, g.props) && f in c && t in c && t in g.props[f].subs
    ensures var r := WireDown(g, Node(f), owner, Node(t)); Threaded(Extend(Untie(c, f, t), r.props.Keys), r.props)
  {
    assert c.Keys == g.props.Keys;
    hide WF, Threaded, Bump, Untie, CutWire;
    UntieThreads(c, g.props, f, t);
    CutStands(g, f, t);
    var g1 := g.(props := CutWire(g.props, f, t));
    BumpRecords(g1, owner);
    ExtendThreads(Untie(c, f, t), g1.props, Bump(g1, owner).props);
  }

  lemma GrowThreads(c: Chains, g: Graph, a: Id, from: string)
    requires Threaded(c, g.props)
    ensures Threaded(Extend(c, Grow(g, a, from).props.Keys), Grow(g, a, from).props)
  {
    hide Threaded;
    ExtendThreads(c, g.props, Grow(g, a, from).props);
  }

  lemma SameChains(c: Chains, props: map<Slot, Prop>)
    requires Threaded(c, props)
    ensures Extend(c, props.Keys) == c
  {}

  lemma WireThreads(c: Chains, g: Graph, a: Id, from: string, b: Id, to: string)
    requires WF(g) && Threaded(c, g.props) && a in g.info && b in g.info
    ensures Threaded(NextChains(c, g, Wire(a, from, b, to)), Connect(g, a, from, b, to).props)
  {
    hide WF, Resolve, Threaded, Extend, Grow, WireUp, Tie;
    var g1 := Grow(g, a, from);
    GrowKeeps(g, a, from);
    var c1 := Extend(c, g1.props.Keys);
    GrowThreads(c, g, a, from);
    assert c1.Keys == g1.props.Keys by { ThreadedKeys(c1, g1.props); }
    ResolveFacts(g1, a, from);
    ResolveFacts(g1, b, to);
    var f, t := Resolve(g1.props, a, from).1, Resolve(g1.props, b, to).1;
    if t.Node? {
      WireUpThreads(c1, g1, f.slot, Resolve(g1.props, b, to).0, t.slot);
    } else {
      SameChains(c1, g1.props);
      NoWireUp(g1, f, Resolve(g1.props, b, to).0, t);
    }
  }

  lemma ThreadedKeys(c: Chains, props: map<Slot, Prop>)
    requires Threaded(c, props)
    ensures c.Keys == props.Keys
    ensures forall s, t :: s in c ==> (Subscriber(t) in c[s] <==> t in props[s].subs)
  {
    forall s | s in c ensures Thread(c[s], s, props[s]) {}
  }

  lemma NoWireUp(g: Graph, f: Port, owner: Id, t: Port)
    requires t.Absent?
    ensures WireUp(g, f, owner, t) == g
  {}

  lemma UnwireThreads(c: Chains, g: Graph, a: Id, from: string, b: Id, to: string)
    requires WF(g) && Threaded(c, g.props)
    ensures Threaded(NextChains(c, g, Unwire(a, from, b, to)), Disconnect(g, a, from, b, to).props)
  {
    hide WF, Resolve, Threaded, Extend, Untie, Bump, CutWire;
    ThreadedKeys(c, g.props);
    ResolveFacts(g, a, from);
    ResolveFacts(g, b, to);
    var f, t := Resolve(g.props, a, from).1, Resolve(g.props, b, to).1;
    if f.Node? && t.Node? && t.slot in g.props[f.slot].subs {
      WireDownThreads(c, g, f.slot, Resolve(g.props, b, to).0, t.slot);
    } else {
      SameChains(c, g.props);
    }
  }

  lemma StepThreads(c: Chains, g: Graph, step: Step)
    requires WF(g) && Threaded(c, g.props) && Allowed(g, step)
    ensures Threaded(NextChains(c, g, step), Next(g, step).props)
  {
    match step {
      case New(id, born, declared) =>
        EnrolRecords(g, id, born, declared);
        hide WF, Enrol, Threaded, SameRecords;
        ExtendThreads(c, g.props, Next(g, step).props);
      case LinkStep(owner, slot, target, name) =>
        LinkRecords(g, owner, slot, target, name);
        ExtendThreads(c, g.props, Next(g, step).props);
      case Wire(a, from, b, to) => WireThreads(c, g, a, from, b, to);
      case Unwire(a, from, b, to) => UnwireThreads(c, g, a, from, b, to);
      case WriteStep(inst, name, v) =>
        WriteRecords(g, inst, name, v);
        ExtendThreads(c, g.props, Next(g, step).props);
      case SendStep(inst, name, v) => ExtendThreads(c, g.props, Next(g, step).props);
      case DispatchStep(react) =>
        DispatchRecords(g, react);
        ExtendThreads(c, g.props, Next(g, step).props);
      case DeleteStep(x) => ForgetThreads(c, g.props, x);
    }
  }

  lemma LinkRecords(g: Graph, owner: Id, slot: string, target: Id, name: string)
    ensures SameRecords(g.props, LinkAs(g, owner, slot, target, name).props)
  {}

  /** Along every run the chains hold what the properties record. */
  lemma {:induction false} RunIsThreaded(steps: seq<Step>, trace: seq<Graph>, chains: seq<Chains>)
    requires IsThreadedRun(steps, trace, chains)
    ensures Threaded(chains[|steps|], trace[|steps|].props)
  {
    if steps != [] {
      var n := |steps| - 1;
      assert IsRun(steps[..n], trace[..n + 1]) && IsThreadedRun(steps[..n], trace[..n + 1], chains[..n + 1]);
      RunIsThreaded(steps[..n], trace[..n + 1], chains[..n + 1]);
      RunKeepsWF(steps[..n], trace[..n + 1]);
      StepThreads(chains[n], trace[n], steps[n]);
    }
  }

  /** In every graph a run comes to, an instance can be deleted, whatever order its
      properties lie in, without a step onto a freed record exactly when none of them is
      wired to itself. */
  lemma DeletionIsSafeIff(steps: seq<Step>, trace: seq<Graph>, chains: seq<Chains>, x: Id)
    requires IsThreadedRun(steps, trace, chains)
    ensures var c, g := chains[|steps|], trace[|steps|];
            (forall order :: IsOrderOf(g.props, x, order) ==> Order(c, order) && Safe(c, order)) <==> NoSelfWire(g, x)
  {
    RunIsThreaded(steps, trace, chains);
    RunKeepsWF(steps, trace);
    hide IsThreadedRun, IsRun, WF, Threaded, NoSelfWire, Order, Safe;
    ScrubIsSafeIff(chains[|steps|], trace[|steps|], x);
  }

  const OWN := Slot(1, "p")
  const BOX := Info("Box", [], "a", false)
  const BORN := map["p" := Value("0", false)]

  lemma OneBox()
    ensures var g := Next(EMPTY, New(1, BOX, BORN));
            g.info == map[1 := BOX] && g.props == map[OWN := Prop(BORN["p"], NoLink, [], [])] && g.queue == []
  {
    hide Spelled, Write;
    assert PathOf(BOX) == ["a"];
    assert NewProps(1, BORN) == map[OWN := Prop(BORN["p"], NoLink, [], [])];
  }

  lemma WiredToItself(g: Graph)
    requires g.info == map[1 := BOX] && g.props == map[OWN := Prop(BORN["p"], NoLink, [], [])] && g.queue == []
    ensures OWN in Next(g, Wire(1, "p", 1, "p")).props
    ensures NextChains(map[OWN := []], g, Wire(1, "p", 1, "p"))[OWN] == [Subscription(OWN), Subscriber(OWN)]
  {
    hide Show, CountOf;
  }

  const SELF_WIRE := [New(1, BOX, BORN), Wire(1, "p", 1, "p")]

  lemma SelfSteps()
    ensures var g, c := Next(EMPTY, SELF_WIRE[0]), NextChains(map[], EMPTY, SELF_WIRE[0]);
            && Allowed(EMPTY, SELF_WIRE[0]) && Allowed(g, SELF_WIRE[1])
            && OWN in Next(g, SELF_WIRE[1]).props && OWN in NextChains(c, g, SELF_WIRE[1])
            && NextChains(c, g, SELF_WIRE[1])[OWN] == [Subscription(OWN), Subscriber(OWN)]
  {
    hide Enrol, Connect, Tie;
    OneBox();
    var g := Next(EMPTY, SELF_WIRE[0]);
    assert NextChains(map[], EMPTY, SELF_WIRE[0]) == map[OWN := []];
    WiredToItself(g);
  }

  lemma SelfWireRun() returns (trace: seq<Graph>, chains: seq<Chains>)
    ensures IsThreadedRun(SELF_WIRE, trace, chains)
    ensures OWN in chains[2] && chains[2][OWN] == [Subscription(OWN), Subscriber(OWN)] && OWN in trace[2].props
  {
    hide Next, NextChains, Allowed, EMPTY;
    var g := Next(EMPTY, SELF_WIRE[0]);
    var c := NextChains(map[], EMPTY, SELF_WIRE[0]);
    SelfSteps();
    trace := [EMPTY, g, Next(g, SELF_WIRE[1])];
    chains := [map[], c, NextChains(c, g, SELF_WIRE[1])];
  }

  /** The shortest run to it: an instance is made, and its one property wired to itself.
      The walk of that property's records frees the record it goes to next. */
  lemma SelfWireStumbles() returns (trace: seq<Graph>, chains: seq<Chains>)
    ensures IsThreadedRun(SELF_WIRE, trace, chains)
    ensures OWN in chains[2] && chains[2][OWN] == [Subscription(OWN), Subscriber(OWN)] && Stumbles(chains[2][OWN], OWN)
    ensures !Allowed(trace[2], DeleteStep(1))
  {
    trace, chains := SelfWireRun();
    assert FreesNext(chains[2][OWN], OWN, 0);
    RunIsThreaded(SELF_WIRE, trace, chains);
    RunKeepsWF(SELF_WIRE, trace);
    hide IsThreadedRun, Threaded;
    StumblesIff(chains[2], trace[2].props, OWN);
  }
}
