/** The object graph of src/object.c as the program changes it: records are
    searched, added and removed one at a time. Each operation is proved to be
    the GraphModel step it stands for, and to keep the graph well formed. */
module Fabric {
  import opened Decimal
  import opened GraphModel
  import Effects

  class ObjectGraph {
    var info: map<Id, Info>
    var props: map<Slot, Prop>
    var index: map<Path, Id>
    var queue: seq<Envelope>

    ghost function G(): Graph
      reads this
    {
      Graph(info, props, index, queue)
    }

    ghost predicate Valid()
      reads this
    {
      WF(G())
    }

    constructor ()
      ensures G() == EMPTY && Valid()
    {
      info, props, index, queue := map[], map[], map[], [];
    }

    /** Does the path an instance's container and name spell lead back to it? */
    method PathOfInstance(x: Id) returns (found: bool)
      ensures found <==> Addressable(G(), x)
    {
      if x !in info || info[x].name == "" { return false; }
      found := PathOf(info[x]) in index && index[PathOf(info[x])] == x;
    }

    /** A node of its own for a new instance. */
    method Allocate() returns (id: Id)
      ensures id !in info
    {
      var todo := info.Keys;
      id := 0;
      while todo != {}
        invariant todo <= info.Keys && forall k :: k in info && k !in todo ==> k < id
        decreases |todo|
      {
        var k :| k in todo;
        if id <= k { id := k + 1; }
        todo := todo - {k};
      }
    }

    /** Follow a chain of links, at most DEPTH of them. */
    method ResolveNode(s: Slot) returns (r: Slot)
      ensures r == Chase(props, s, DEPTH)
    {
      var depth := DEPTH;
      r := s;
      while r in props && props[r].link.Link? && depth > 0
        invariant 0 <= depth <= DEPTH && Chase(props, r, depth) == Chase(props, s, DEPTH)
        decreases depth
      {
        r, depth := props[r].link.node, depth - 1;
      }
    }

    method ResolvePort(inst: Id, name: string) returns (owner: Id, port: Port)
      ensures (owner, port) == Resolve(props, inst, name)
    {
      var raw := Slot(inst, name);
      if raw !in props { return inst, Absent; }
      if props[raw].link.Link? {
        var node := ResolveNode(raw);
        return props[raw].link.owner, Node(node);
      }
      return inst, Node(raw);
    }

    /** A property write, with its fan-out queued. */
    method SetProp(inst: Id, name: string, v: Value)
      requires Valid() && inst in info
      modifies this`props, this`queue
      ensures Valid() && G() == Write(old(G()), inst, name, v) && Effects.Stored(old(G()), Slot(inst, name), v, G())
    {
      Effects.WriteStores(G(), inst, name, v);
      WriteKeeps(G(), inst, name, v);
      ResolveFacts(G(), inst, name);
      var owner, port := ResolvePort(inst, name);
      if port.Absent? {
        props := props[Slot(inst, name) := Prop(v, NoLink, [], [])];
      } else {
        props := props[port.slot := props[port.slot].(value := v)];
        if props[port.slot].subs != [] { queue := queue + [Envelope(owner, port, v)]; }
      }
    }

    /** Is a name the Name of some instance placed in that container? */
    method NameTakenIn(name: string, container: Path) returns (taken: bool)
      ensures taken <==> NameTaken(G(), container, name)
    {
      var todo := info.Keys;
      while todo != {}
        invariant todo <= info.Keys
        invariant forall i :: i in info && i !in todo ==> !(info[i].container == container && info[i].name == name)
        decreases |todo|
      {
        var i :| i in todo;
        if info[i].container == container && info[i].name == name { return true; }
        todo := todo - {i};
      }
      taken := false;
    }

    /** A name of the server's own: the stem, and the lowest number that is free. */
    method MintFreshName(base: string, container: Path) returns (name: string)
      ensures name == Mint(G(), container, Stem(base), 1)
    {
      hide NameTaken, Stem, At, HomeOf;
      var stem, k := Stem(base), 1;
      while true
        invariant 1 <= k <= LAST_NUMBER && Mint(G(), container, stem, k) == Mint(G(), container, stem, 1)
        decreases LAST_NUMBER - k
      {
        name := Numbered(stem, k);
        var taken := NameTakenIn(name, container);
        if !taken && At(HomeOf(container), name) !in index { return; }
        if k == LAST_NUMBER { return; }
        k := k + 1;
      }
    }

    /** An instance of a class in a container that has a path, without a name: nothing
        can address it, and nobody is told. */
    method CreatePrivate(home: Path, cls: string, declared: map<string, Value>) returns (ok: bool, id: Id)
      requires Valid()
      modifies this
      ensures Valid() && (ok <==> home in old(index))
      ensures ok ==> id !in old(info) && G() == Enrol(old(G()), id, Info(cls, home, "", false), declared) && !Addressable(G(), id)
      ensures !ok ==> G() == old(G())
    {
      hide WF, NewProps, At;
      if home !in index { return false, 0; }
      id := Allocate();
      var born := Info(cls, home, "", false);
      RegisterKeeps(G(), id, born, declared);
      info, props := info[id := born], props + NewProps(id, declared);
      ok := true;
    }

    /** An instance of a class in a container that has a path, under the name asked for
        or a minted one; the container is told. */
    method CreateObject(home: Path, cls: string, wanted: string, declared: map<string, Value>) returns (ok: bool, id: Id)
      requires Valid()
      modifies this
      ensures Valid() && (ok <==> home in old(index))
      ensures ok ==> id !in old(info)
      ensures ok ==> G() == Enrol(old(G()), id, Info(cls, home, NameFor(old(G()), home, cls, wanted), false), declared)
      ensures !ok ==> G() == old(G())
    {
      hide WF, NewProps, At, Write, Spelled, Mint, Stem;
      if home !in index { return false, 0; }
      var name := wanted;
      if name == "" { name := MintFreshName(cls, home); }
      id := Allocate();
      var born := Info(cls, home, name, false);
      RegisterKeeps(G(), id, born, declared);
      info, props, index := info[id := born], props + NewProps(id, declared), index[PathOf(born) := id];
      IndexLeads(G(), home);
      SetProp(index[home], LAST, Value(Spelled(PathOf(born)), false));
      ok := true;
    }

    /** Is there a record of this end already? */
    method Find(records: seq<Slot>, end: Slot) returns (k: nat)
      ensures k <= |records| && (k < |records| ==> records[k] == end)
      ensures k == |records| <==> end !in records
    {
      k := 0;
      while k < |records| && records[k] != end
        invariant k <= |records| && end !in records[..k]
      {
        k := k + 1;
      }
    }

    method AddSubscriptionBack(to: Slot, from: Slot)
      requires to in props
      modifies this`props
      ensures props == AddBack(old(props), to, from)
    {
      var k := Find(props[to].backs, from);
      if k < |props[to].backs| { return; }
      props := props[to := props[to].(backs := [from] + props[to].backs)];
    }

    method AddSubscription(from: Slot, to: Slot)
      requires from in props && to in props
      modifies this`props
      ensures props == AddWire(old(props), from, to)
    {
      var k := Find(props[from].subs, to);
      if k < |props[from].subs| { return; }
      props := props[from := props[from].(subs := [to] + props[from].subs)];
      AddSubscriptionBack(to, from);
    }

    /** One more change to the wires of a sink's owner. */
    method SayWiring(inst: Id)
      requires Valid() && inst in info
      modifies this`props, this`queue
      ensures Valid() && G() == Bump(old(G()), inst)
    {
      var s := Slot(inst, WIRING);
      var count := if s in props && props[s].value.long then Read(props[s].value.text) else 0;
      SetProp(inst, WIRING, Value(Show(count + 1), true));
    }

    /** Wire a property of one instance to a property of another. */
    method Connect(a: Id, from: string, b: Id, to: string) returns (ok: bool)
      requires Valid() && a in info && b in info
      modifies this`props, this`queue
      ensures Valid() && G() == GraphModel.Connect(old(G()), a, from, b, to)
      ensures ok <==> Slot(b, to) in Grow(old(G()), a, from).props
    {
      hide WF, Bump, AddWire;
      GrowKeeps(G(), a, from);
      var fromOwner, fromPort := ResolvePort(a, from);
      if fromPort.Absent? {
        props := props[Slot(a, from) := ZERO];
        fromPort := Node(Slot(a, from));
      }
      ResolveFacts(G(), a, from);
      ResolveFacts(G(), b, to);
      var toOwner, toPort := ResolvePort(b, to);
      if toPort.Absent? { return false; }
      WireStands(G(), fromPort.slot, toPort.slot);
      AddSubscription(fromPort.slot, toPort.slot);
      SayWiring(toOwner);
      ok := true;
    }

    static lemma {:induction false} WithoutAt(q: seq<Slot>, x: Slot, k: nat)
      requires Once(q) && k <= |q| && (k < |q| ==> q[k] == x) && (k == |q| ==> x !in q)
      ensures Without(q, x) == if k < |q| then q[..k] + q[k + 1..] else q
    {
      if q != [] {
        var rest := q[1..];
        assert Once(rest) && q == [q[0]] + rest && (k == 0 ==> x !in rest) && (k > 0 ==> q[0] != x);
        WithoutRest(q, x);
        hide Once, Without;
        if k == 0 {
          WithoutAt(rest, x, |rest|);
        } else {
          WithoutAt(rest, x, k - 1);
          if k < |q| { CutBehind(q[0], rest, k); }
        }
      }
    }

    static lemma WithoutRest(q: seq<Slot>, x: Slot)
      requires q != []
      ensures Without(q, x) == if q[0] == x then Without(q[1..], x) else [q[0]] + Without(q[1..], x)
    {}

    static lemma CutBehind(first: Slot, rest: seq<Slot>, k: nat)
      requires 0 < k <= |rest|
      ensures ([first] + rest)[..k] + ([first] + rest)[k + 1..] == [first] + (rest[..k - 1] + rest[k..])
    {}

    /** Take down exactly the one wire between two resolved ends. */
    method Disconnect(a: Id, from: string, b: Id, to: string) returns (ok: bool)
      requires Valid()
      modifies this`props, this`queue
      ensures Valid() && G() == GraphModel.Disconnect(old(G()), a, from, b, to)
      ensures ok <==> exists f, t :: Resolve(old(props), a, from).1 == Node(f) && Resolve(old(props), b, to).1 == Node(t)
                                       && Wired(old(props), f, t)
    {
      hide WF, Bump, Without;
      ResolveFacts(G(), a, from);
      ResolveFacts(G(), b, to);
      var fromOwner, fromPort := ResolvePort(a, from);
      if fromPort.Absent? { return false; }
      var toOwner, toPort := ResolvePort(b, to);
      if toPort.Absent? { return false; }
      var f, t := fromPort.slot, toPort.slot;
      var k := Find(props[f].subs, t);
      if k == |props[f].subs| { return false; }
      CutStands(G(), f, t);
      WithoutAt(props[f].subs, t, k);
      props := props[f := props[f].(subs := props[f].subs[..k] + props[f].subs[k + 1..])];
      k := Find(props[t].backs, f);
      WithoutAt(props[t].backs, f, k);
      props := props[t := props[t].(backs := props[t].backs[..k] + props[t].backs[k + 1..])];
      SayWiring(toOwner);
      ok := true;
    }

    /** Make a slot a link to the property a name on another instance stands for. */
    method LinkPropertyAs(owner: Id, slot: string, target: Id, name: string) returns (ok: bool)
      requires Valid() && owner in info
      requires NoLinkTo(props, Slot(owner, slot)) && Resolve(props, target, name).1 != Node(Slot(owner, slot))
      modifies this`props
      ensures Valid() && G() == LinkAs(old(G()), owner, slot, target, name)
      ensures ok <==> Slot(target, name) in old(props)
    {
      LinkKeeps(G(), owner, slot, target, name);
      ResolveFacts(G(), target, name);
      var realOwner, port := ResolvePort(target, name);
      if port.Absent? { return false; }
      var raw := Slot(owner, slot);
      if raw in props {
        props := props[raw := props[raw].(value := Value("", false))];
      } else {
        props := props[raw := Prop(Value("", false), NoLink, [], [])];
      }
      props := props[raw := props[raw].(link := Link(port.slot, realOwner))];
      assert props == SetLink(old(props), raw, port.slot, realOwner);
      ok := true;
    }

    method SndMsg(inst: Id, name: string, v: Value)
      requires Valid()
      modifies this`queue
      ensures Valid() && G() == Send(old(G()), inst, name, v)
    {
      ResolveFacts(G(), inst, name);
      var owner, port := ResolvePort(inst, name);
      if port.Node? { queue := queue + [Envelope(owner, port, v)]; }
    }

    /** One delivery: the handler's own writes, or the value is stored. */
    method DeliverToSubscriber(to: Slot, v: Value, react: Handlers)
      requires Valid() && to.inst in info
      modifies this`props, this`queue
      ensures Valid() && G() == Deliver(old(G()), to, v, react) && Effects.Delivered(old(G()), to, v, react, G())
    {
      Effects.DeliverIsDelivered(G(), to, v, react);
      hide Effects.Delivered, Effects.Stored;
      match react(to, v)
      case Default => SetProp(to.inst, to.name, v);
      case Writes(ws) =>
        var i := 0;
        while i < |ws|
          invariant 0 <= i <= |ws| && Valid() && info == old(info)
          invariant WriteAll(G(), ws[i..]) == WriteAll(old(G()), ws)
        {
          assert ws[i..][0] == ws[i] && ws[i..][1..] == ws[i + 1..];
          if ws[i].0.inst in info { SetProp(ws[i].0.inst, ws[i].0.name, ws[i].1); }
          i := i + 1;
        }
    }

    /** Deliver the oldest envelope to whoever subscribes at that moment. */
    method DispatchMsg(react: Handlers)
      requires Valid() && queue != []
      modifies this`props, this`queue
      ensures Valid() && G() == Dispatch(old(G()), react) && Effects.Dispatched(old(G()), react, G())
    {
      Effects.DispatchHandsOn(G(), react);
      hide Effects.Dispatched, Effects.Delivered;
      var env := queue[0];
      queue := queue[1..];
      if env.outPort.Node? {
        var subs, i := props[env.outPort.slot].subs, 0;
        forall j | 0 <= j < |subs| ensures subs[j].inst in info {
          assert Wired(props, env.outPort.slot, subs[j]) && Heard(props, env.outPort.slot, subs[j]);
        }
        ghost var g1 := G();
        while i < |subs|
          invariant 0 <= i <= |subs| && Valid() && info == old(info)
          invariant DeliverAll(G(), subs[i..], env.value, react) == DeliverAll(g1, subs, env.value, react)
        {
          assert subs[i..][0] == subs[i] && subs[i..][1..] == subs[i + 1..];
          DeliverToSubscriber(subs[i], env.value, react);
          i := i + 1;
        }
      }
    }

    // ---- deletion -------------------------------------------------------------

    /** How far a dying instance's own records have been worked through; todo are
        its properties still to come. Every other property has lost its records
        of the dying one as soon as the far end of any of them was visited. */
    static ghost predicate Scrubbing(props: map<Slot, Prop>, was: map<Slot, Prop>, x: Id, todo: set<Slot>) {
      && props.Keys == was.Keys
      && (forall t :: t in todo ==> t in was && t.inst == x && Remembers(props[t], was[t], x))
      && (forall s :: s in was && s.inst != x ==> Partly(props[s], was[s], x))
      && (forall s: Slot, t: Slot :: t.inst == x && t !in todo && s.inst != x && Wired(was, s, t) ==> props[s].subs == NotOn(was[s].subs, x))
      && (forall s: Slot, t: Slot :: t.inst == x && t !in todo && s.inst != x && Heard(was, t, s) ==> props[s].backs == NotOn(was[s].backs, x))
    }

    /** A property of the dying instance still knows all its partners elsewhere. */
    static ghost predicate Remembers(p: Prop, was: Prop, x: Id) {
      && (forall y :: y in p.subs ==> y in was.subs) && (forall y :: y in was.subs && y.inst != x ==> y in p.subs)
      && (forall y :: y in p.backs ==> y in was.backs) && (forall y :: y in was.backs && y.inst != x ==> y in p.backs)
    }

    static ghost predicate Partly(p: Prop, was: Prop, x: Id) {
      && p.link == was.link && p.value == was.value
      && (p.subs == was.subs || p.subs == NotOn(was.subs, x))
      && (p.backs == was.backs || p.backs == NotOn(was.backs, x))
    }

    static lemma {:induction false} NotOnTwice(q: seq<Slot>, x: Id)
      ensures NotOn(NotOn(q, x), x) == NotOn(q, x)
    {
      if q != [] { NotOnTwice(q[1..], x); }
    }

    static lemma {:induction false} NotOnNone(q: seq<Slot>, x: Id)
      requires forall y :: y in q ==> y.inst != x
      ensures NotOn(q, x) == q
    {
      if q != [] {
        assert q[0] in q;
        NotOnNone(q[1..], x);
      }
    }

    static lemma {:induction false} NotOnJoin(a: seq<Slot>, b: seq<Slot>, x: Id)
      ensures NotOn(a + b, x) == NotOn(a, x) + NotOn(b, x)
    {
      hide NotOn;
      if a == [] {
        assert a + b == b && NotOn([], x) == [] by { NotOnNone([], x); }
      } else {
        assert (a + b)[1..] == a[1..] + b;
        NotOnJoin(a[1..], b, x);
        NotOnRest(a, x);
        NotOnRest(a + b, x);
      }
    }

    static lemma NotOnSkips(q: seq<Slot>, x: Id, i: nat)
      requires i < |q| && q[i].inst == x
      ensures NotOn(q[..i] + q[i + 1..], x) == NotOn(q, x)
    {
      Slices(q, i);
      NotOnDrops(q[..i], q[i..], q[i + 1..], x);
    }

    static lemma Slices(q: seq<Slot>, i: nat)
      requires i < |q|
      ensures q[..i] + q[i..] == q && q[i..][0] == q[i] && q[i..][1..] == q[i + 1..]
    {}

    static lemma NotOnDrops(a: seq<Slot>, b: seq<Slot>, rest: seq<Slot>, x: Id)
      requires b != [] && b[0].inst == x && b[1..] == rest
      ensures NotOn(a + rest, x) == NotOn(a + b, x)
    {
      hide NotOn;
      NotOnJoin(a, rest, x);
      NotOnJoin(a, b, x);
      NotOnRest(b, x);
      assert [] + NotOn(rest, x) == NotOn(rest, x);
    }

    /** A chain of records is followed, and each that names the dying instance is
        taken out; the others stay, in order. */
    static method DropAll(records: seq<Slot>, x: Id) returns (left: seq<Slot>)
      ensures left == NotOn(records, x)
    {
      hide NotOn;
      left := records;
      var i := 0;
      while i < |left|
        invariant 0 <= i <= |left| && NotOn(left, x) == NotOn(records, x)
        invariant forall k :: 0 <= k < i ==> left[k].inst != x
        decreases |left| - i
      {
        if left[i].inst == x {
          NotOnSkips(left, x, i);
          left := left[..i] + left[i + 1..];
        } else {
          i := i + 1;
        }
      }
      NotOnNone(left, x);
    }

    /** A property that delivers to the dying instance forgets it. */
    method DropSubscriber(port: Slot, x: Id)
      modifies this`props
      ensures port !in old(props) ==> props == old(props)
      ensures port in old(props) ==> props == old(props)[port := old(props)[port].(subs := NotOn(old(props)[port].subs, x))]
    {
      if port !in props { return; }
      var left := DropAll(props[port].subs, x);
      props := props[port := props[port].(subs := left)];
    }

    /** One that listens to it, likewise. */
    method DropSubscription(port: Slot, x: Id)
      modifies this`props
      ensures port !in old(props) ==> props == old(props)
      ensures port in old(props) ==> props == old(props)[port := old(props)[port].(backs := NotOn(old(props)[port].backs, x))]
    {
      if port !in props { return; }
      var left := DropAll(props[port].backs, x);
      props := props[port := props[port].(backs := left)];
    }

    /** One property's own Subscription records: whoever is listened to forgets
        the dying instance, and the records go. */
    method ScrubHeard(p: Slot, x: Id)
      requires p in props && p !in props[p].backs
      modifies this`props
      ensures props.Keys == old(props).Keys && props[p] == old(props)[p].(backs := [])
      ensures forall s :: s in props && s != p ==>
                props[s] == old(props)[s].(subs := if s in old(props)[p].backs then NotOn(old(props)[s].subs, x) else old(props)[s].subs)
    {
      hide NotOn;
      var backs, i := props[p].backs, 0;
      while i < |backs|
        invariant 0 <= i <= |backs| && props.Keys == old(props).Keys
        invariant forall s :: s in props && s != p ==>
                    props[s] == old(props)[s].(subs := if s in backs[..i] then NotOn(old(props)[s].subs, x) else old(props)[s].subs)
        invariant props[p] == old(props)[p].(backs := backs[i..])
      {
        if backs[i] in props { NotOnTwice(old(props)[backs[i]].subs, x); }
        DropSubscriber(backs[i], x);
        props := props[p := props[p].(backs := backs[i + 1..])];
        i := i + 1;
      }
    }

    /** Every property in told has forgotten the dying instance. */
    static ghost predicate Forgotten(props: map<Slot, Prop>, was: map<Slot, Prop>, p: Slot, told: seq<Slot>, x: Id) {
      && props.Keys == was.Keys && p in was && props[p] == was[p]
      && forall s :: s in was && s != p ==> props[s] == if s in told then was[s].(backs := NotOn(was[s].backs, x)) else was[s]
    }

    static lemma OneForgets(props: map<Slot, Prop>, was: map<Slot, Prop>, p: Slot, told: seq<Slot>, k: Slot, x: Id)
      requires Forgotten(props, was, p, told, x) && k != p
      ensures Forgotten(if k in props then props[k := props[k].(backs := NotOn(props[k].backs, x))] else props, was, p, told + [k], x)
    {
      if k in was { NotOnTwice(was[k].backs, x); }
      hide NotOn;
    }

    /** Its own Subscriber records: whoever listens forgets the dying instance.
        The records themselves are left to go with it. */
    method ScrubTold(p: Slot, x: Id)
      requires p in props && p !in props[p].subs
      modifies this`props
      ensures Forgotten(props, old(props), p, old(props)[p].subs, x)
    {
      var subs, i := props[p].subs, 0;
      ghost var was := props;
      assert subs[..0] == [];
      assert Forgotten(props, was, p, subs[..0], x);
      hide Forgotten, NotOn;
      while i < |subs|
        invariant 0 <= i <= |subs| && Forgotten(props, was, p, subs[..i], x)
      {
        OneForgets(props, was, p, subs[..i], subs[i], x);
        assert subs[..i + 1] == subs[..i] + [subs[i]];
        DropSubscription(subs[i], x);
        i := i + 1;
      }
      assert subs[..i] == subs;
    }

    /** Both kinds, for one property of the dying instance. */
    method ScrubOwnWiresIn(p: Slot, x: Id, ghost was: map<Slot, Prop>, ghost todo: set<Slot>)
      requires Paired(was) && Scrubbing(props, was, x, todo)
      requires p in todo && p !in was[p].subs && p !in was[p].backs
      modifies this`props
      ensures Scrubbing(props, was, x, todo - {p})
    {
      ScrubHeard(p, x);
      assert props[p].subs == old(props)[p].subs;
      ghost var heard := props;
      ScrubTold(p, x);
      assert Forgotten(props, heard, p, old(props)[p].subs, x);
      hide NotOn;
      assert forall s :: s in props && s != p ==>
               && props[s].link == old(props)[s].link && props[s].value == old(props)[s].value
               && props[s].subs == (if s in old(props)[p].backs then NotOn(old(props)[s].subs, x) else old(props)[s].subs)
               && props[s].backs == (if s in old(props)[p].subs then NotOn(old(props)[s].backs, x) else old(props)[s].backs);
      ScrubStep(old(props), props, was, x, todo, p);
    }

    static lemma ScrubStep(before: map<Slot, Prop>, after: map<Slot, Prop>, was: map<Slot, Prop>, x: Id, todo: set<Slot>, p: Slot)
      requires Paired(was) && Scrubbing(before, was, x, todo) && p in todo && after.Keys == before.Keys
      requires forall s :: s in after && s != p ==>
                 && after[s].link == before[s].link && after[s].value == before[s].value
                 && after[s].subs == (if s in before[p].backs then NotOn(before[s].subs, x) else before[s].subs)
                 && after[s].backs == (if s in before[p].subs then NotOn(before[s].backs, x) else before[s].backs)
      ensures Scrubbing(after, was, x, todo - {p})
    {
      forall s | s in was && s.inst != x
        ensures Partly(after[s], was[s], x)
        ensures Wired(was, s, p) || before[s].subs == NotOn(was[s].subs, x) ==> after[s].subs == NotOn(was[s].subs, x)
        ensures Heard(was, p, s) || before[s].backs == NotOn(was[s].backs, x) ==> after[s].backs == NotOn(was[s].backs, x)
      {
        assert Partly(before[s], was[s], x) && Remembers(before[p], was[p], x);
        NotOnTwice(was[s].subs, x);
        NotOnTwice(was[s].backs, x);
        assert Wired(was, s, p) <==> Heard(was, s, p);
        assert Wired(was, p, s) <==> Heard(was, p, s);
      }
      forall t | t in todo - {p} ensures Remembers(after[t], was[t], x) {
        assert Remembers(before[t], was[t], x);
      }
    }

    /** The dying instance's own records lead to every wire that touches it. */
    method ScrubOwnWires(x: Id)
      requires Valid() && NoSelfWire(G(), x)
      modifies this`props
      ensures props.Keys == old(props).Keys
      ensures forall s :: s in props && s.inst != x ==>
                props[s] == old(props)[s].(subs := NotOn(old(props)[s].subs, x), backs := NotOn(old(props)[s].backs, x))
    {
      var todo := set s | s in props && s.inst == x;
      while todo != {}
        invariant Scrubbing(props, old(props), x, todo)
        decreases |todo|
      {
        var p :| p in todo;
        assert Wired(old(props), p, p) <==> Heard(old(props), p, p);
        ScrubOwnWiresIn(p, x, old(props), todo);
        todo := todo - {p};
      }
      ScrubDone(props, old(props), x);
    }

    static lemma ScrubDone(props: map<Slot, Prop>, was: map<Slot, Prop>, x: Id)
      requires Scrubbing(props, was, x, {})
      ensures forall s :: s in props && s.inst != x ==> props[s] == was[s].(subs := NotOn(was[s].subs, x), backs := NotOn(was[s].backs, x))
    {
      forall s | s in props && s.inst != x
        ensures props[s] == was[s].(subs := NotOn(was[s].subs, x), backs := NotOn(was[s].backs, x))
      {
        assert Partly(props[s], was[s], x);
        if t :| t in was[s].subs && t.inst == x { assert Wired(was, s, t); } else { NotOnNone(was[s].subs, x); }
        if t :| t in was[s].backs && t.inst == x { assert Heard(was, t, s); } else { NotOnNone(was[s].backs, x); }
      }
    }

    /** The sweep over every instance that is left as a safety net: it reports the
        properties on which it still found a record of the dying instance. */
    method ScrubRegistrySubscriptions(x: Id) returns (found: set<Slot>)
      modifies this`props
      ensures props.Keys == old(props).Keys
      ensures forall s :: s in props ==> props[s] == old(props)[s].(subs := NotOn(old(props)[s].subs, x))
      ensures forall s :: s in found <==> s in props && NotOn(old(props)[s].subs, x) != old(props)[s].subs
    {
      var todo := props.Keys;
      found := {};
      while todo != {}
        invariant props.Keys == old(props).Keys && todo <= props.Keys
        invariant forall s :: s in props ==>
                    props[s] == if s in todo then old(props)[s] else old(props)[s].(subs := NotOn(old(props)[s].subs, x))
        invariant forall s :: s in found <==> s in props && s !in todo && NotOn(old(props)[s].subs, x) != old(props)[s].subs
        decreases |todo|
      {
        var s :| s in todo;
        var left := DropAll(props[s].subs, x);
        if left != props[s].subs { found := found + {s}; }
        props := props[s := props[s].(subs := left)];
        todo := todo - {s};
      }
    }

    /** Links to the dying instance are blanked, wherever they are. */
    method ScrubRegistryLinks(x: Id)
      modifies this`props
      ensures props.Keys == old(props).Keys
      ensures forall s :: s in props ==>
                props[s] == if old(props)[s].link.Link? && old(props)[s].link.owner == x then old(props)[s].(link := NoLink) else old(props)[s]
    {
      var todo := props.Keys;
      while todo != {}
        invariant props.Keys == old(props).Keys && todo <= props.Keys
        invariant forall s :: s in props ==>
                    props[s] == if s !in todo && old(props)[s].link.Link? && old(props)[s].link.owner == x
                                then old(props)[s].(link := NoLink) else old(props)[s]
        decreases |todo|
      {
        var s :| s in todo;
        if props[s].link.Link? && props[s].link.owner == x { props := props[s := props[s].(link := NoLink)]; }
        todo := todo - {s};
      }
    }

    /** A message the dying instance sent is still queued, but leaves by nothing. */
    method CancelPendingSends(x: Id)
      modifies this`queue
      ensures queue == CancelAll(old(queue), x)
    {
      var i := 0;
      while i < |queue|
        invariant 0 <= i <= |queue| == |old(queue)|
        invariant forall j :: 0 <= j < |queue| ==> queue[j] == if j < i then Cancelled(old(queue)[j], x) else old(queue)[j]
      {
        if queue[i].sender == x { queue := queue[i := queue[i].(outPort := Absent)]; }
        i := i + 1;
      }
    }

    /** Deleting from the instance's own records is the same as sweeping every
        record in the registry; the sweep that follows finds nothing anywhere
        else. No property of the instance may be wired to itself. */
    method DeleteInstance(x: Id) returns (found: set<Slot>)
      requires Valid() && NoSelfWire(G(), x)
      modifies this
      ensures Valid() && G() == Delete(old(G()), x)
      ensures forall s :: s in found ==> s.inst == x
    {
      DeleteKeeps(G(), x);
      hide WF, NotOn, Survivors, CancelAll, Remaining;
      var named := PathOfInstance(x);
      if named { index := index - {PathOf(info[x])}; }
      ScrubOwnWires(x);
      ghost var scrubbed := props;
      found := ScrubRegistrySubscriptions(x);
      ScrubRegistryLinks(x);
      NothingLeft(old(props), scrubbed, props, x);
      CancelPendingSends(x);
      props := Remaining(props, x);
      info := info - {x};
    }

    static function Remaining(props: map<Slot, Prop>, x: Id): map<Slot, Prop> {
      map s | s in props && s.inst != x :: props[s]
    }

    static lemma NothingLeft(was: map<Slot, Prop>, scrubbed: map<Slot, Prop>, after: map<Slot, Prop>, x: Id)
      requires was.Keys == scrubbed.Keys == after.Keys
      requires forall s :: s in scrubbed && s.inst != x ==>
                 scrubbed[s] == was[s].(subs := NotOn(was[s].subs, x), backs := NotOn(was[s].backs, x))
      requires forall s :: s in after ==>
                 var swept := scrubbed[s].(subs := NotOn(scrubbed[s].subs, x));
                 after[s] == if swept.link.Link? && swept.link.owner == x then swept.(link := NoLink) else swept
      ensures forall s :: s in scrubbed && s.inst != x ==> NotOn(scrubbed[s].subs, x) == scrubbed[s].subs
      ensures Remaining(after, x) == Survivors(was, x)
    {
      hide NotOn, Remaining, Survivors;
      forall s | s in scrubbed && s.inst != x
        ensures NotOn(scrubbed[s].subs, x) == scrubbed[s].subs && after[s] == Cleared(was[s], x)
      {
        NotOnTwice(was[s].subs, x);
      }
      SameSurvivors(after, was, x);
    }

    static lemma SameSurvivors(after: map<Slot, Prop>, was: map<Slot, Prop>, x: Id)
      requires after.Keys == was.Keys && forall s :: s in after && s.inst != x ==> after[s] == Cleared(was[s], x)
      ensures Remaining(after, x) == Survivors(was, x)
    {
      hide Cleared;
    }
  }
}
