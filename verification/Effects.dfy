/** What each step of the graph does to every property, record and message: told by its
    effects, so that it can be compared with what GraphModel computes. */
module Effects {
  import opened Decimal
  import opened GraphModel

  /** The property a slot stands for: itself, or what it is a link to. */
  function Target(props: map<Slot, Prop>, s: Slot): Slot {
    if s in props && props[s].link.Link? then props[s].link.node else s
  }

  lemma ResolveTarget(g: Graph, inst: Id, name: string)
    requires WF(g) && Slot(inst, name) in g.props
    ensures var u := Target(g.props, Slot(inst, name));
            u in g.props && u.inst in g.info && g.props[u].link.NoLink? && Resolve(g.props, inst, name) == (u.inst, Node(u))
  {
    ResolveFacts(g, inst, name);
    var u := Target(g.props, Slot(inst, name));
    assert Chase(g.props, u, DEPTH - 1) == u;
  }

  /** A chain of links is followed to its end, and no further than the eighth link. */
  lemma {:induction false} EightLinks(props: map<Slot, Prop>, chain: seq<Slot>, depth: nat)
    requires chain != [] && forall i :: 0 <= i < |chain| - 1 ==> IsLinkTo(props, chain[i], chain[i + 1])
    requires depth <= 8
    ensures |chain| <= depth + 1 && !(chain[|chain| - 1] in props && props[chain[|chain| - 1]].link.Link?) ==>
              Chase(props, chain[0], DEPTH - 8 + depth) == chain[|chain| - 1]
    ensures |chain| > depth ==> Chase(props, chain[0], DEPTH - 8 + depth) == chain[depth]
    decreases depth
  {
    if depth > 0 && |chain| > 1 {
      assert IsLinkTo(props, chain[0], chain[1]);
      forall i | 0 <= i < |chain| - 2 ensures IsLinkTo(props, chain[1..][i], chain[1..][i + 1]) {
        assert IsLinkTo(props, chain[i + 1], chain[i + 2]);
      }
      EightLinks(props, chain[1..], depth - 1);
    }
  }

  predicate IsLinkTo(props: map<Slot, Prop>, s: Slot, t: Slot) {
    s in props && props[s].link.Link? && props[s].link.node == t
  }

  // ---- one write ----------------------------------------------------------------------

  /** A value is stored where a slot stands for; whoever listens there gets one message.
      A slot that is not there comes into being, and nobody is told. */
  predicate Stored(g: Graph, s: Slot, v: Value, r: Graph) {
    var u := Target(g.props, s);
    && r.info == g.info && r.index == g.index
    && if s in g.props then
         u in g.props && r.props == g.props[u := g.props[u].(value := v)] && r.queue == g.queue + Word(g.props, u, v)
       else r.props == g.props[s := Prop(v, NoLink, [], [])] && r.queue == g.queue
  }

  /** What leaves by a property when a value is stored in it. */
  function Word(props: map<Slot, Prop>, u: Slot, v: Value): seq<Envelope> {
    if u in props && props[u].subs != [] then [Envelope(u.inst, Node(u), v)] else []
  }

  lemma WriteStores(g: Graph, inst: Id, name: string, v: Value)
    requires WF(g)
    ensures Stored(g, Slot(inst, name), v, Write(g, inst, name, v))
  {
    ResolveFacts(g, inst, name);
    if Slot(inst, name) in g.props { ResolveTarget(g, inst, name); }
    hide WF;
  }

  /** A message leaves by what a slot stands for, whoever listens; by a slot that is not
      there, none. */
  lemma SendQueues(g: Graph, inst: Id, name: string, v: Value)
    requires WF(g)
    ensures var s := Slot(inst, name);
            var u := Target(g.props, s);
            Send(g, inst, name, v) == if s in g.props then g.(queue := g.queue + [Envelope(u.inst, Node(u), v)]) else g
  {
    ResolveFacts(g, inst, name);
    if Slot(inst, name) in g.props { ResolveTarget(g, inst, name); }
  }

  // ---- a delivery ---------------------------------------------------------------------

  /** A handler's writes, one after another; those on instances that are not there are
      passed over. */
  predicate Followed(g: Graph, writes: seq<(Slot, Value)>, mid: seq<Graph>, r: Graph) {
    && |mid| == |writes| + 1 && mid[0] == g && mid[|writes|] == r
    && forall i :: 0 <= i < |writes| ==>
         if writes[i].0.inst in g.info then Stored(mid[i], writes[i].0, writes[i].1, mid[i + 1]) else mid[i + 1] == mid[i]
  }

  /** One subscriber is asked: it does its own writes, or the value is stored. */
  ghost predicate Delivered(g: Graph, to: Slot, v: Value, react: Handlers, r: Graph) {
    match react(to, v)
    case Default => Stored(g, to, v, r)
    case Writes(ws) => exists mid :: Followed(g, ws, mid, r)
  }

  /** Each subscriber once, in order. */
  ghost predicate HandedOn(g: Graph, subs: seq<Slot>, v: Value, react: Handlers, trace: seq<Graph>, r: Graph) {
    && |trace| == |subs| + 1 && trace[0] == g && trace[|subs|] == r
    && forall i :: 0 <= i < |subs| ==> Delivered(trace[i], subs[i], v, react, trace[i + 1])
  }

  /** The oldest message is taken off the queue and handed to each who listens to the
      property it leaves by. */
  ghost predicate Dispatched(g: Graph, react: Handlers, r: Graph)
    requires g.queue != []
  {
    var env, rest := g.queue[0], g.(queue := g.queue[1..]);
    if env.outPort.Node? && env.outPort.slot in g.props
    then exists trace :: HandedOn(rest, g.props[env.outPort.slot].subs, env.value, react, trace, r)
    else r == rest
  }

  lemma {:induction false} WritesFollow(g: Graph, writes: seq<(Slot, Value)>) returns (mid: seq<Graph>)
    requires WF(g)
    ensures Followed(g, writes, mid, WriteAll(g, writes))
    decreases |writes|
  {
    hide WF, Stored, Write;
    if writes == [] {
      mid := [g];
    } else {
      var (s, v) := writes[0];
      var next := if s.inst in g.info then Write(g, s.inst, s.name, v) else g;
      if s.inst in g.info {
        WriteStores(g, s.inst, s.name, v);
        WriteKeeps(g, s.inst, s.name, v);
      }
      var rest := WritesFollow(next, writes[1..]);
      mid := [g] + rest;
      forall i | 0 < i < |writes| ensures mid[i] == rest[i - 1] && mid[i + 1] == rest[i] && writes[i] == writes[1..][i - 1] {}
      assert s == Slot(s.inst, s.name);
    }
  }

  lemma DeliverIsDelivered(g: Graph, to: Slot, v: Value, react: Handlers)
    requires WF(g) && to.inst in g.info
    ensures Delivered(g, to, v, react, Deliver(g, to, v, react))
    ensures WF(Deliver(g, to, v, react)) && Deliver(g, to, v, react).info == g.info
  {
    hide WF, Stored, Write, Followed, WriteAll;
    match react(to, v) {
      case Default =>
        WriteStores(g, to.inst, to.name, v);
        WriteKeeps(g, to.inst, to.name, v);
      case Writes(ws) =>
        var mid := WritesFollow(g, ws);
        WriteAllKeeps(g, ws);
    }
  }

  lemma {:induction false} AllHandedOn(g: Graph, subs: seq<Slot>, v: Value, react: Handlers) returns (trace: seq<Graph>)
    requires WF(g) && forall i :: 0 <= i < |subs| ==> subs[i].inst in g.info
    ensures HandedOn(g, subs, v, react, trace, DeliverAll(g, subs, v, react))
    decreases |subs|
  {
    hide WF, Delivered, Deliver;
    if subs == [] {
      trace := [g];
    } else {
      DeliverIsDelivered(g, subs[0], v, react);
      var rest := AllHandedOn(Deliver(g, subs[0], v, react), subs[1..], v, react);
      trace := [g] + rest;
      forall i | 0 < i < |subs| ensures trace[i] == rest[i - 1] && trace[i + 1] == rest[i] && subs[i] == subs[1..][i - 1] {}
    }
  }

  lemma SubscribersLive(g: Graph, s: Slot)
    requires WF(g) && s in g.props
    ensures forall i :: 0 <= i < |g.props[s].subs| ==> g.props[s].subs[i] in g.props && g.props[s].subs[i].inst in g.info
  {
    forall i | 0 <= i < |g.props[s].subs| ensures g.props[s].subs[i] in g.props {
      assert Wired(g.props, s, g.props[s].subs[i]) && Heard(g.props, s, g.props[s].subs[i]);
    }
  }

  /** A dispatch is that: whatever the handlers answer, each who listens is asked once,
      in order, and its own writes are what is made. */
  lemma DispatchHandsOn(g: Graph, react: Handlers)
    requires WF(g) && g.queue != []
    ensures Dispatched(g, react, Dispatch(g, react))
  {
    var env, rest := g.queue[0], g.(queue := g.queue[1..]);
    if env.outPort.Node? && env.outPort.slot in g.props {
      var subs := g.props[env.outPort.slot].subs;
      SubscribersLive(g, env.outPort.slot);
      assert WF(rest) by { Unqueued(g); }
      hide WF, HandedOn, DeliverAll;
      var trace := AllHandedOn(rest, subs, env.value, react);
    }
  }

  lemma Unqueued(g: Graph)
    requires WF(g) && g.queue != []
    ensures WF(g.(queue := g.queue[1..]))
  {}

  // ---- a delivery nobody handles --------------------------------------------------------

  /** Every slot of subs has taken the value, wherever it stands for; nothing else has. */
  predicate Took(p: map<Slot, Prop>, subs: seq<Slot>, v: Value, q: map<Slot, Prop>) {
    && q.Keys == p.Keys
    && forall s :: s in p ==>
         q[s] == p[s].(value := if exists k :: 0 <= k < |subs| && Target(p, subs[k]) == s then v else p[s].value)
  }

  /** The messages that go on, one for each delivery into a property that is listened to. */
  function Onward(props: map<Slot, Prop>, subs: seq<Slot>, v: Value): seq<Envelope> {
    if subs == [] then [] else Word(props, Target(props, subs[0]), v) + Onward(props, subs[1..], v)
  }

  lemma {:induction false} OnwardSame(p: map<Slot, Prop>, q: map<Slot, Prop>, subs: seq<Slot>, v: Value)
    requires q.Keys == p.Keys && forall s :: s in p ==> q[s] == p[s].(value := q[s].value)
    ensures Onward(q, subs, v) == Onward(p, subs, v)
  {
    if subs != [] { OnwardSame(p, q, subs[1..], v); }
  }

  lemma TookOneMore(p: map<Slot, Prop>, first: Slot, rest: seq<Slot>, v: Value, q: map<Slot, Prop>, r: map<Slot, Prop>)
    requires var u := Target(p, first); first in p && u in p && q == p[u := p[u].(value := v)]
    requires Took(q, rest, v, r)
    ensures Took(p, [first] + rest, v, r)
  {
    assert forall s :: Target(q, s) == Target(p, s);
    forall s | s in p
      ensures (exists k :: 0 <= k < |[first] + rest| && Target(p, ([first] + rest)[k]) == s) <==>
              s == Target(p, first) || exists k :: 0 <= k < |rest| && Target(p, rest[k]) == s
    {
      TargetAmong(p, first, rest, s);
    }
  }

  lemma TargetAmong(p: map<Slot, Prop>, first: Slot, rest: seq<Slot>, s: Slot)
    ensures (exists k :: 0 <= k < |[first] + rest| && Target(p, ([first] + rest)[k]) == s) <==>
            s == Target(p, first) || exists k :: 0 <= k < |rest| && Target(p, rest[k]) == s
  {
    hide Target;
    var subs := [first] + rest;
    assert subs[0] == first;
    if k :| 0 <= k < |rest| && Target(p, rest[k]) == s { assert subs[k + 1] == rest[k]; }
    if k :| 0 <= k < |subs| && Target(p, subs[k]) == s && k > 0 { assert subs[k] == rest[k - 1]; }
  }

  /** The subscribers of a delivery, each of them there and without a handler. */
  ghost predicate Plainly(g: Graph, subs: seq<Slot>, v: Value, react: Handlers) {
    forall i :: 0 <= i < |subs| ==> subs[i] in g.props && subs[i].inst in g.info && react(subs[i], v).Default?
  }

  lemma OneTakes(g: Graph, subs: seq<Slot>, v: Value, react: Handlers)
    requires WF(g) && subs != [] && Plainly(g, subs, v, react)
    ensures var s, r := subs[0], Deliver(g, subs[0], v, react);
            var u := Target(g.props, s);
            && s in g.props && u in g.props && r == g.(props := g.props[u := g.props[u].(value := v)], queue := g.queue + Word(g.props, u, v))
            && WF(r) && Plainly(r, subs[1..], v, react)
            && Onward(r.props, subs[1..], v) == Onward(g.props, subs[1..], v)
  {
    hide Onward;
    var s := subs[0];
    assert s == Slot(s.inst, s.name);
    WriteStores(g, s.inst, s.name, v);
    WriteKeeps(g, s.inst, s.name, v);
    var u := Target(g.props, s);
    var q := g.props[u := g.props[u].(value := v)];
    hide WF, Write;
    OnwardSame(g.props, q, subs[1..], v);
  }

  lemma TookNothing(p: map<Slot, Prop>, v: Value)
    ensures Took(p, [], v, p)
  {}

  lemma {:induction false} AllTake(g: Graph, subs: seq<Slot>, v: Value, react: Handlers)
    requires WF(g) && Plainly(g, subs, v, react)
    ensures var r := DeliverAll(g, subs, v, react);
            && r.info == g.info && r.index == g.index && Took(g.props, subs, v, r.props)
            && r.queue == g.queue + Onward(g.props, subs, v)
    decreases |subs|
  {
    hide WF, Plainly, Deliver, Took, Target, Word;
    if subs == [] {
      TookNothing(g.props, v);
    } else {
      OneTakes(g, subs, v, react);
      var next := Deliver(g, subs[0], v, react);
      AllTake(next, subs[1..], v, react);
      TookOneMore(g.props, subs[0], subs[1..], v, next.props, DeliverAll(next, subs[1..], v, react).props);
      assert [subs[0]] + subs[1..] == subs;
    }
  }

  /** When no subscriber has a handler, every one of them, however many there are, has the
      value afterwards, and no other property has changed; behind the queue stands a
      message for each delivery that is itself listened to, in the subscribers' order. */
  lemma EveryoneHears(g: Graph, react: Handlers)
    requires WF(g) && g.queue != [] && g.queue[0].outPort.Node?
    requires var env := g.queue[0];
             forall t :: t in g.props[env.outPort.slot].subs ==> react(t, env.value).Default?
    ensures var env, r := g.queue[0], Dispatch(g, react);
            var subs := g.props[env.outPort.slot].subs;
            && r.info == g.info && r.index == g.index && Took(g.props, subs, env.value, r.props)
            && r.queue == g.queue[1..] + Onward(g.props, subs, env.value)
            && forall t :: t in subs ==> Target(g.props, t) in r.props && r.props[Target(g.props, t)].value == env.value
  {
    var env, rest := g.queue[0], g.(queue := g.queue[1..]);
    var subs := g.props[env.outPort.slot].subs;
    SubscribersLive(g, env.outPort.slot);
    Unqueued(g);
    assert Plainly(rest, subs, env.value, react);
    AllTake(rest, subs, env.value, react);
    forall t | t in subs ensures Target(g.props, t) in g.props {
      ResolveTarget(g, t.inst, t.name);
      assert t == Slot(t.inst, t.name);
    }
  }

  // ---- links and wires ------------------------------------------------------------------

  /** A link reads as what it was made to: the same property, on the same instance. Its own
      value is gone, its own records stay, and nothing else has changed. */
  lemma LinkStandsFor(g: Graph, owner: Id, slot: string, target: Id, name: string)
    requires WF(g) && Resolve(g.props, target, name).1 != Node(Slot(owner, slot))
    ensures var raw, r := Slot(owner, slot), LinkAs(g, owner, slot, target, name);
            && (Slot(target, name) !in g.props ==> r == g)
            && (Slot(target, name) in g.props ==>
                  && Resolve(r.props, owner, slot) == Resolve(g.props, target, name)
                  && r == g.(props := r.props) && r.props.Keys == g.props.Keys + {raw}
                  && r.props[raw].value == Value("", false)
                  && r.props[raw].subs == (if raw in g.props then g.props[raw].subs else [])
                  && r.props[raw].backs == (if raw in g.props then g.props[raw].backs else [])
                  && forall s :: s in g.props && s != raw ==> r.props[s] == g.props[s])
  {
    ResolveFacts(g, target, name);
    if Slot(target, name) in g.props {
      ResolveTarget(g, target, name);
      var u, r := Target(g.props, Slot(target, name)), LinkAs(g, owner, slot, target, name);
      assert r.props[u] == g.props[u] && Chase(r.props, u, DEPTH - 1) == u;
    }
  }

  /** The wire from f to t stands first at both its ends; there is nothing to do when it
      is there. */
  predicate Tied(p: map<Slot, Prop>, f: Slot, t: Slot, q: map<Slot, Prop>)
    requires f in p && t in p
  {
    var isNew := t !in p[f].subs;
    && q.Keys == p.Keys
    && forall s :: s in p ==>
         q[s] == p[s].(subs := if isNew && s == f then [t] + p[s].subs else p[s].subs,
                       backs := if isNew && s == t then [f] + p[s].backs else p[s].backs)
  }

  /** One record is gone; the others stay, in order. */
  predicate Less(q: seq<Slot>, x: Slot, r: seq<Slot>) {
    exists k :: 0 <= k < |q| && q[k] == x && r == q[..k] + q[k + 1..]
  }

  predicate Untied(p: map<Slot, Prop>, f: Slot, t: Slot, q: map<Slot, Prop>)
    requires f in p && t in p
  {
    && q.Keys == p.Keys && Less(p[f].subs, t, q[f].subs) && Less(p[t].backs, f, q[t].backs)
    && forall s :: s in p ==>
         q[s] == p[s].(subs := if s == f then q[s].subs else p[s].subs, backs := if s == t then q[s].backs else p[s].backs)
  }

  /** The count of an instance's wires goes up by one, as a LONG, by an ordinary write; a
      count that is of another type, or not there, was none. */
  predicate CountedUp(g: Graph, inst: Id, r: Graph) {
    var s := Slot(inst, "Wiring");
    var n := if s in g.props && g.props[s].value.long then Read(g.props[s].value.text) else 0;
    Stored(g, s, Value(Show(n + 1), true), r)
  }

  /** A wire is made between what the two slots stand for. A slot a wire starts from comes
      into being as 0; one it ends at does not. */
  lemma ConnectTies(g: Graph, a: Id, from: string, b: Id, to: string)
    requires WF(g) && a in g.info && b in g.info
    ensures var r, s, sink := Connect(g, a, from, b, to), Slot(a, from), Slot(b, to);
            var grown := if s in g.props then g.props else g.props[s := Prop(Value("0", false), NoLink, [], [])];
            && (sink !in grown ==> r == g.(props := grown))
            && (sink in grown ==>
                  var f, t := Target(grown, s), Target(grown, sink);
                  f in grown && t in grown && exists q :: Tied(grown, f, t, q) && CountedUp(g.(props := q), t.inst, r))
  {
    hide Paired, WF, Resolve, Bump, Write, Tied;
    GrowKeeps(g, a, from);
    var g1 := Grow(g, a, from);
    assert g1 == g.(props := if Slot(a, from) in g.props then g.props else g.props[Slot(a, from) := Prop(Value("0", false), NoLink, [], [])]);
    ResolveTarget(g1, a, from);
    if Slot(b, to) in g1.props {
      ResolveTarget(g1, b, to);
      var f, t := Target(g1.props, Slot(a, from)), Target(g1.props, Slot(b, to));
      assert Wired(g1.props, f, t) <==> Heard(g1.props, f, t) by { BothKnow(g1, f, t); }
      var q := AddWire(g1.props, f, t);
      assert Tied(g1.props, f, t, q) by { AddWireTies(g1.props, f, t); }
      WireStands(g1, f, t);
      BumpCountsUp(g1.(props := q), t.inst);
    } else {
      assert Resolve(g1.props, b, to).1.Absent? by { Nowhere(g1.props, b, to); }
    }
  }

  lemma Nowhere(props: map<Slot, Prop>, b: Id, to: string)
    requires Slot(b, to) !in props
    ensures Resolve(props, b, to) == (b, Absent)
  {}

  lemma BothKnow(g: Graph, f: Slot, t: Slot)
    requires WF(g)
    ensures Wired(g.props, f, t) <==> Heard(g.props, f, t)
  {}

  lemma AddWireTies(p: map<Slot, Prop>, f: Slot, t: Slot)
    requires f in p && t in p && (Wired(p, f, t) <==> Heard(p, f, t))
    ensures Tied(p, f, t, AddWire(p, f, t))
  {}

  lemma BumpCountsUp(g: Graph, inst: Id)
    requires WF(g)
    ensures CountedUp(g, inst, Bump(g, inst))
  {
    WriteStores(g, inst, WIRING, Value(Show(CountOf(g, inst) + 1), true));
    hide WF, Write, Stored;
  }

  /** Exactly the wire between what the two slots stand for is cut; where there is none,
      nothing is done. */
  lemma DisconnectUnties(g: Graph, a: Id, from: string, b: Id, to: string)
    requires WF(g)
    ensures var r, s, sink := Disconnect(g, a, from, b, to), Slot(a, from), Slot(b, to);
            var f, t := Target(g.props, s), Target(g.props, sink);
            if s in g.props && sink in g.props && Wired(g.props, f, t)
            then t in g.props && exists q :: Untied(g.props, f, t, q) && CountedUp(g.(props := q), t.inst, r)
            else r == g
  {
    hide Paired, WF, Resolve, Bump, Write, Untied;
    if Slot(a, from) in g.props { ResolveTarget(g, a, from); } else { Nowhere(g.props, a, from); }
    if Slot(b, to) in g.props { ResolveTarget(g, b, to); } else { Nowhere(g.props, b, to); }
    var f, t := Target(g.props, Slot(a, from)), Target(g.props, Slot(b, to));
    if Slot(a, from) in g.props && Slot(b, to) in g.props && Wired(g.props, f, t) {
      CutStands(g, f, t);
      var q := CutWire(g.props, f, t);
      assert Untied(g.props, f, t, q) by { CutWireUnties(g.props, f, t); }
      BumpCountsUp(g.(props := q), t.inst);
    }
  }

  lemma CutWireUnties(p: map<Slot, Prop>, f: Slot, t: Slot)
    requires Wired(p, f, t) && Heard(p, f, t) && NoRepeats(p[f]) && NoRepeats(p[t])
    ensures Untied(p, f, t, CutWire(p, f, t))
  {
    WithoutIsLess(p[f].subs, t);
    WithoutIsLess(p[t].backs, f);
    hide Less, Without;
  }

  lemma {:induction false} WithoutIsLess(q: seq<Slot>, x: Slot)
    requires Once(q) && x in q
    ensures Less(q, x, Without(q, x))
  {
    var rest := q[1..];
    assert Once(rest) && q == [q[0]] + rest && (q[0] == x ==> x !in rest);
    hide Once;
    if q[0] == x {
      NotThere(rest, x);
      assert q[..0] + q[1..] == rest;
    } else {
      WithoutIsLess(rest, x);
      LessBehind(q[0], rest, x, Without(rest, x));
    }
  }

  lemma LessBehind(first: Slot, rest: seq<Slot>, x: Slot, r: seq<Slot>)
    requires Less(rest, x, r)
    ensures Less([first] + rest, x, [first] + r)
  {
    var q := [first] + rest;
    var k :| 0 <= k < |rest| && rest[k] == x && r == rest[..k] + rest[k + 1..];
    assert q[..k + 1] + q[k + 2..] == [first] + r && q[k + 1] == x;
  }

  lemma {:induction false} NotThere(q: seq<Slot>, x: Slot)
    requires x !in q
    ensures Without(q, x) == q
  {
    if q != [] { NotThere(q[1..], x); }
  }

  // ---- what is left when an instance goes -------------------------------------------------

  /** Those not on x, in the order they had. */
  ghost predicate Sifted(q: seq<Slot>, x: Id, r: seq<Slot>) {
    && (forall y :: y in r <==> y in q && y.inst != x)
    && forall i, j :: 0 <= i < j < |r| ==> InThatOrder(q, r[i], r[j])
  }

  predicate InThatOrder(q: seq<Slot>, y: Slot, z: Slot) {
    exists a, b :: 0 <= a < b < |q| && q[a] == y && q[b] == z
  }

  lemma {:induction false} NotOnSifts(q: seq<Slot>, x: Id)
    ensures Sifted(q, x, NotOn(q, x))
  {
    if q == [] {
      NothingSifted(x);
    } else {
      hide NotOn, Sifted;
      var rest := q[1..];
      NotOnSifts(rest, x);
      NotOnRest(q, x);
      assert q == [q[0]] + rest;
      SiftedBehind(q[0], rest, x, NotOn(rest, x));
    }
  }

  lemma NothingSifted(x: Id)
    ensures Sifted([], x, NotOn([], x))
  {}

  lemma SiftedBehind(first: Slot, rest: seq<Slot>, x: Id, tail: seq<Slot>)
    requires Sifted(rest, x, tail)
    ensures Sifted([first] + rest, x, (if first.inst == x then [] else [first]) + tail)
  {
    var q := [first] + rest;
    forall y, z | InThatOrder(rest, y, z) ensures InThatOrder(q, y, z) { OrderBehind(first, rest, y, z); }
    forall z | z in tail ensures InThatOrder(q, first, z) { FirstInOrder(first, rest, z); }
    hide InThatOrder;
  }

  lemma OrderBehind(first: Slot, rest: seq<Slot>, y: Slot, z: Slot)
    requires InThatOrder(rest, y, z)
    ensures InThatOrder([first] + rest, y, z)
  {
    var q := [first] + rest;
    var a, b :| 0 <= a < b < |rest| && rest[a] == y && rest[b] == z;
    assert q[a + 1] == y && q[b + 1] == z;
  }

  lemma FirstInOrder(first: Slot, rest: seq<Slot>, z: Slot)
    requires z in rest
    ensures InThatOrder([first] + rest, first, z)
  {
    var q := [first] + rest;
    var b :| 0 <= b < |rest| && rest[b] == z;
    assert q[0] == first && q[b + 1] == z;
  }

  /** The others keep every property and value, every link that does not name it, and every
      record that does not, in order; every message is still queued, its own leave by
      nothing; every path but its own still leads where it did. */
  lemma DeleteLeaves(g: Graph, x: Id)
    requires WF(g)
    ensures var r := Delete(g, x);
            && r.info == g.info - {x}
            && (forall s :: s in r.props <==> s in g.props && s.inst != x)
            && (forall s :: s in r.props ==>
                  && r.props[s].value == g.props[s].value
                  && r.props[s].link == (if g.props[s].link.Link? && g.props[s].link.node.inst == x then NoLink else g.props[s].link)
                  && Sifted(g.props[s].subs, x, r.props[s].subs) && Sifted(g.props[s].backs, x, r.props[s].backs))
            && |r.queue| == |g.queue|
            && (forall i :: 0 <= i < |g.queue| ==>
                  r.queue[i] == if g.queue[i].sender == x then g.queue[i].(outPort := Absent) else g.queue[i])
            && (forall p :: p in r.index <==> p in g.index && g.index[p] != x)
            && (forall p :: p in r.index ==> r.index[p] == g.index[p])
  {
    var r := Delete(g, x);
    hide Sifted, NotOn;
    forall s | s in r.props
      ensures Sifted(g.props[s].subs, x, r.props[s].subs) && Sifted(g.props[s].backs, x, r.props[s].backs)
    {
      NotOnSifts(g.props[s].subs, x);
      NotOnSifts(g.props[s].backs, x);
    }
    forall s | s in r.props && g.props[s].link.Link? ensures g.props[s].link.node.inst == g.props[s].link.owner {}
    PathsLeft(g, x);
  }

  lemma PathsLeft(g: Graph, x: Id)
    requires IndexOk(g)
    ensures forall p :: p in Unnamed(g, x) <==> p in g.index && g.index[p] != x
    ensures forall p :: p in Unnamed(g, x) ==> Unnamed(g, x)[p] == g.index[p]
  {}

  // ---- a new instance --------------------------------------------------------------------

  /** The parts of a path between its slashes. */
  function Split(text: string): (p: Path)
    decreases |text|
  {
    if text == "" then [] else
      var k := LastSlash(text);
      Split(text[..k]) + [text[if text[k] == '/' then k + 1 else k..]]
  }

  /** Where the last slash is, or the first character when there is none. */
  function LastSlash(text: string): (k: nat)
    requires text != ""
    ensures k < |text| && (k > 0 ==> text[k] == '/') && forall i :: k < i < |text| ==> text[i] != '/'
  {
    var n := |text| - 1;
    if text[n] == '/' || n == 0 then n else LastSlash(text[..n])
  }

  /** A path as it is written splits into its names again. */
  lemma {:induction false} SpelledSplits(p: Path)
    requires forall i :: 0 <= i < |p| ==> '/' !in p[i]
    ensures Split(Spelled(p)) == p && (p != [] ==> Spelled(p)[0] == '/')
  {
    hide Split;
    if p == [] {
      NothingSplit();
    } else {
      var n := |p| - 1;
      SpelledSplits(p[..n]);
      OnePart(Spelled(p[..n]), p[n]);
      assert Spelled(p) == Spelled(p[..n]) + "/" + p[n] && p == p[..n] + [p[n]];
      assert n > 0 ==> p[..n] != [];
    }
  }

  lemma NothingSplit()
    ensures Split("") == []
  {}

  /** A slash and a name behind it are one part more. */
  lemma OnePart(front: string, name: string)
    requires '/' !in name
    ensures Split(front + "/" + name) == Split(front) + [name]
  {
    hide LastSlash;
    var text := front + "/" + name;
    assert text != "" && text[|front|] == '/' && text[|front| + 1..] == name && text[..|front|] == front;
    forall i | |front| < i < |text| ensures text[i] != '/' { assert text[i] == name[i - |front| - 1] && text[i] in name; }
    var k := LastSlash(text);
    assert k == |front|;
  }

  /** A new instance has what its class declares, as it is declared; a named one is found
      by its path. */
  ghost predicate Came(g: Graph, id: Id, info: Info, declared: map<string, Value>, r: Graph) {
    && r.info == g.info[id := info] && r.queue == g.queue
    && r.index == (if info.name == "" then g.index else g.index[info.container + [info.name] := id])
    && (forall s :: s in r.props <==> s in g.props || (s.inst == id && s.name in declared))
    && (forall s :: s in g.props && s.inst != id ==> r.props[s] == g.props[s])
    && forall n :: n in declared ==> r.props[Slot(id, n)] == Prop(declared[n], NoLink, [], [])
  }

  /** Its container's LastMember takes the path it has, when there is a container at that
      path and the new one has a name. */
  lemma EnrolTells(g: Graph, id: Id, info: Info, declared: map<string, Value>)
    requires WF(g) && id !in g.info && info.container in g.index && info.name != ""
    ensures var r, k := Enrol(g, id, info, declared), g.index[info.container];
            exists mid, text :: Came(g, id, info, declared, mid) && Stored(mid, Slot(k, "LastMember"), Value(text, false), r)
              && ((forall n :: n in info.container + [info.name] ==> '/' !in n) ==> Split(text) == info.container + [info.name])
  {
    hide WF, Spelled, Write, Came, Stored, Register, Split;
    RegisterKeeps(g, id, info, declared);
    RegisterCame(g, id, info, declared);
    var mid := Register(g, id, info, declared);
    assert mid.index[info.container] == g.index[info.container] by { OtherPath(g, id, info, declared); }
    WriteStores(mid, g.index[info.container], LAST, Value(Spelled(PathOf(info)), false));
    SplitsBack(PathOf(info));
  }

  /** Of one without a name, or where no container is, nobody is told. */
  lemma EnrolQuietly(g: Graph, id: Id, info: Info, declared: map<string, Value>)
    requires WF(g) && id !in g.info && (info.name == "" || info.container !in g.index)
    ensures Came(g, id, info, declared, Enrol(g, id, info, declared))
  {
    RegisterCame(g, id, info, declared);
    assert PathOf(info) != info.container by { assert |PathOf(info)| == |info.container| + 1; }
    hide WF, Came, NewProps, PathOf;
  }

  lemma SplitsBack(p: Path)
    ensures (forall n :: n in p ==> '/' !in n) ==> Split(Spelled(p)) == p
  {
    if forall n :: n in p ==> '/' !in n {
      assert forall i :: 0 <= i < |p| ==> p[i] in p;
      SpelledSplits(p);
    }
  }

  lemma OtherPath(g: Graph, id: Id, info: Info, declared: map<string, Value>)
    requires info.container in g.index
    ensures var r := Register(g, id, info, declared); info.container in r.index && r.index[info.container] == g.index[info.container]
  {
    assert |PathOf(info)| == |info.container| + 1;
    hide PathOf, NewProps;
  }

  lemma RegisterCame(g: Graph, id: Id, info: Info, declared: map<string, Value>)
    requires WF(g) && id !in g.info
    ensures Came(g, id, info, declared, Register(g, id, info, declared))
  {
    var newer := NewProps(id, declared);
    forall s ensures s in newer <==> s.inst == id && s.name in declared { assert s == Slot(s.inst, s.name); }
  }

  // ---- names --------------------------------------------------------------------------

  /** A name loses one _N at its end, and only that; where there is none it stays. */
  lemma StemOf(stem: string, digits: string)
    requires digits != "" && forall i :: 0 <= i < |digits| ==> '0' <= digits[i] <= '9'
    ensures Stem(stem + "_" + digits) == stem
  {
    var name := stem + "_" + digits;
    Undigited(stem + "_", digits);
    assert name == (stem + "_") + digits && (stem + "_")[..|stem|] == stem;
  }

  lemma {:induction false} Undigited(s: string, digits: string)
    requires s != "" && !IsDigit(s[|s| - 1]) && forall i :: 0 <= i < |digits| ==> IsDigit(digits[i])
    ensures DropDigits(s + digits) == s
    decreases |digits|
  {
    if digits == "" {
      assert s + digits == s;
    } else {
      assert (s + digits)[..|s + digits| - 1] == s + digits[..|digits| - 1];
      Undigited(s, digits[..|digits| - 1]);
    }
  }

  predicate EndsInNumber(name: string) {
    exists k :: 0 <= k < |name| - 1 && name[k] == '_' && forall i :: k < i < |name| ==> '0' <= name[i] <= '9'
  }

  lemma OwnStem(name: string)
    requires !EndsInNumber(name)
    ensures Stem(name) == if name == "" then "Thing" else name
  {
    DropsDigits(if name == "" then "Thing" else name);
  }

  lemma {:induction false} DropsDigits(s: string)
    ensures DropDigits(s) <= s && forall i :: |DropDigits(s)| <= i < |s| ==> IsDigit(s[i])
  {
    if s != "" && IsDigit(s[|s| - 1]) { DropsDigits(s[..|s| - 1]); }
  }

  /** A name nobody has in that container, nor stands in for. */
  ghost predicate Free(g: Graph, container: Path, name: string) {
    && (forall i :: i in g.info && g.info[i].container == container ==> g.info[i].name != name)
    && (if container == [] then ["Root"] else container) + [name] !in g.index
  }

  /** The name minted is the stem with the lowest number from 1 on that is free; when none
      up to 99999 is, it is that one. */
  lemma MintIsLowest(g: Graph, container: Path, stem: string) returns (k: nat)
    ensures 1 <= k <= 99999 && Mint(g, container, stem, 1) == stem + "_" + ShowNat(k)
    ensures forall j :: 1 <= j < k ==> !Free(g, container, stem + "_" + ShowNat(j))
    ensures k < 99999 ==> Free(g, container, stem + "_" + ShowNat(k))
  {
    k := MintFrom(g, container, stem, 1);
  }

  lemma {:induction false} MintFrom(g: Graph, container: Path, stem: string, from: nat) returns (k: nat)
    requires from <= 99999
    ensures from <= k <= 99999 && Mint(g, container, stem, from) == stem + "_" + ShowNat(k)
    ensures forall j :: from <= j < k ==> !Free(g, container, stem + "_" + ShowNat(j))
    ensures k < 99999 ==> Free(g, container, stem + "_" + ShowNat(k))
    decreases 99999 - from
  {
    FreeIs(g, container, Numbered(stem, from));
    hide NameFree, Free, ShowNat;
    if from == LAST_NUMBER || NameFree(g, container, Numbered(stem, from)) {
      k := from;
    } else {
      k := MintFrom(g, container, stem, from + 1);
    }
  }

  lemma FreeIs(g: Graph, container: Path, name: string)
    ensures NameFree(g, container, name) <==> Free(g, container, name)
  {}
}
