/** The object graph of src/object.c, as values: instances and their properties,
    wires as two records, links, and the messages still queued. The steps that
    change it, and what every run of them keeps. */
module GraphModel {
  import opened Decimal

  type Id = nat
  type Path = seq<string>

  /** A property node: one name on one instance. */
  datatype Slot = Slot(inst: Id, name: string)

  /** What a property reads as, and whether its type is LONG (a live pointer). */
  datatype Value = Value(text: string, long: bool)

  /** A link is the node pointer and, beside it, the instance it is said to be on. */
  datatype Link = NoLink | Link(node: Slot, owner: Id)

  /** The records of a property: subs name whom it delivers to (Subscriber), backs
      name whom it listens to (Subscription). */
  datatype Prop = Prop(value: Value, link: Link, subs: seq<Slot>, backs: seq<Slot>)

  datatype Port = Absent | Node(slot: Slot)

  /** A queued message: the instance that sent it and the property it leaves by. */
  datatype Envelope = Envelope(sender: Id, outPort: Port, value: Value)

  datatype Info = Info(cls: string, container: Path, name: string, hidden: bool)

  datatype Graph = Graph(
    info: map<Id, Info>,          // the instances that are registered
    props: map<Slot, Prop>,
    index: map<Path, Id>,
    queue: seq<Envelope>)

  // ---- links --------------------------------------------------------------

  /** The link chain is followed this many times and no further. */
  const DEPTH: nat := 8

  function Chase(props: map<Slot, Prop>, s: Slot, depth: nat): Slot
    decreases depth
  {
    if depth == 0 || s !in props || props[s].link.NoLink? then s
    else Chase(props, props[s].link.node, depth - 1)
  }

  /** The property a name on an instance stands for, and the instance it is on. */
  function Resolve(props: map<Slot, Prop>, inst: Id, name: string): (Id, Port) {
    var raw := Slot(inst, name);
    if raw !in props then (inst, Absent)
    else if props[raw].link.Link? then (props[raw].link.owner, Node(Chase(props, raw, DEPTH)))
    else (inst, Node(raw))
  }

  // ---- what every reachable graph satisfies ---------------------------------

  ghost predicate Live(g: Graph) {
    forall s :: s in g.props ==> s.inst in g.info
  }

  predicate Once(q: seq<Slot>) {
    forall i, j :: 0 <= i < j < |q| ==> q[i] != q[j]
  }

  /** The source's record of a wire. */
  predicate Wired(props: map<Slot, Prop>, from: Slot, to: Slot) {
    from in props && to in props[from].subs
  }

  /** The sink's record of a wire. */
  predicate Heard(props: map<Slot, Prop>, from: Slot, to: Slot) {
    to in props && from in props[to].backs
  }

  predicate NoRepeats(p: Prop) {
    Once(p.subs) && Once(p.backs)
  }

  /** Both ends of a wire record it, once each. */
  ghost predicate Paired(props: map<Slot, Prop>) {
    && (forall s, t :: Wired(props, s, t) <==> Heard(props, s, t))
    && (forall s :: s in props ==> NoRepeats(props[s]))
  }

  /** A link leads straight to a property that is not itself a link. */
  ghost predicate DepthOne(props: map<Slot, Prop>) {
    forall s :: s in props && props[s].link.Link? ==>
      var l := props[s].link;
      l.node in props && l.node.inst == l.owner && props[l.node].link.NoLink?
  }

  /** A queued message leaves by a property its sender still has. */
  ghost predicate QueueOk(g: Graph) {
    forall i :: 0 <= i < |g.queue| && g.queue[i].outPort.Node? ==>
      g.queue[i].outPort.slot in g.props && g.queue[i].outPort.slot.inst == g.queue[i].sender
  }

  /** A path leads to a registered instance, and spells where that one is. */
  ghost predicate IndexOk(g: Graph) {
    forall p :: p in g.index ==> g.index[p] in g.info && g.info[g.index[p]].name != "" && PathOf(g.info[g.index[p]]) == p
  }

  ghost predicate WF(g: Graph) {
    Live(g) && Paired(g.props) && DepthOne(g.props) && QueueOk(g) && IndexOk(g)
  }

  lemma ResolveFacts(g: Graph, inst: Id, name: string)
    requires WF(g)
    ensures var (owner, port) := Resolve(g.props, inst, name);
            && (port.Node? <==> Slot(inst, name) in g.props)
            && (port.Node? ==> port.slot in g.props && port.slot.inst == owner && g.props[port.slot].link.NoLink? && owner in g.info)
  {
    var raw := Slot(inst, name);
    if raw in g.props && g.props[raw].link.Link? {
      var t := g.props[raw].link.node;
      assert Chase(g.props, t, DEPTH - 1) == t;
    }
  }

  // ---- writes ---------------------------------------------------------------

  /** A property write: through a link, to whatever it stands for, and on to a
      message when anything subscribes. An absent property is made. */
  function Write(g: Graph, inst: Id, name: string, v: Value): Graph {
    var (owner, port) := Resolve(g.props, inst, name);
    if port.Absent? || port.slot !in g.props then g.(props := g.props[Slot(inst, name) := Prop(v, NoLink, [], [])])
    else
      var p := g.props[port.slot];
      g.(props := g.props[port.slot := p.(value := v)],
         queue := if p.subs == [] then g.queue else g.queue + [Envelope(owner, port, v)])
  }

  // ---- wires ----------------------------------------------------------------

  /** What the engine writes on a sink when its wires change. */
  const WIRING := "Wiring"

  /** And on a container when something is named in it. */
  const LAST := "LastMember"

  /** A count is kept as a LONG; what is of another type reads as none. */
  function CountOf(g: Graph, inst: Id): int {
    var s := Slot(inst, WIRING);
    if s in g.props && g.props[s].value.long then Read(g.props[s].value.text) else 0
  }

  /** The sink's owner is told, by an ordinary property write, that its wires have
      changed. */
  function Bump(g: Graph, inst: Id): Graph {
    Write(g, inst, WIRING, Value(Show(CountOf(g, inst) + 1), true))
  }

  function AddBack(props: map<Slot, Prop>, to: Slot, from: Slot): map<Slot, Prop>
    requires to in props
  {
    if from in props[to].backs then props else props[to := props[to].(backs := [from] + props[to].backs)]
  }

  /** One wire, two records. A wire that is there already stays one wire. */
  function AddWire(props: map<Slot, Prop>, from: Slot, to: Slot): map<Slot, Prop>
    requires from in props && to in props
  {
    if to in props[from].subs then props
    else AddBack(props[from := props[from].(subs := [to] + props[from].subs)], to, from)
  }

  const ZERO := Prop(Value("0", false), NoLink, [], [])

  /** A property a wire starts from comes into being when it is absent. */
  function Grow(g: Graph, a: Id, from: string): Graph {
    if Slot(a, from) in g.props then g else g.(props := g.props[Slot(a, from) := ZERO])
  }

  /** The wire between two resolved ends, and word of it; where an end is missing,
      nothing. */
  function WireUp(g: Graph, fromPort: Port, toOwner: Id, toPort: Port): Graph {
    if fromPort.Absent? || toPort.Absent? || fromPort.slot !in g.props || toPort.slot !in g.props then g
    else Bump(g.(props := AddWire(g.props, fromPort.slot, toPort.slot)), toOwner)
  }

  /** Connect. An absent sink property refuses the wire. */
  function Connect(g: Graph, a: Id, from: string, b: Id, to: string): Graph {
    var g1 := Grow(g, a, from);
    WireUp(g1, Resolve(g1.props, a, from).1, Resolve(g1.props, b, to).0, Resolve(g1.props, b, to).1)
  }

  function Without(q: seq<Slot>, x: Slot): (r: seq<Slot>)
    ensures forall y :: y in r <==> y in q && y != x
    ensures Once(q) ==> Once(r)
  {
    if q == [] then []
    else
      var rest := Without(q[1..], x);
      assert Once(q) ==> Once(q[1..]);
      assert forall i :: 0 <= i < |rest| ==> rest[i] in q[1..];
      if q[0] == x then rest else [q[0]] + rest
  }

  function CutWire(props: map<Slot, Prop>, from: Slot, to: Slot): map<Slot, Prop>
    requires from in props && to in props
  {
    var p1 := props[from := props[from].(subs := Without(props[from].subs, to))];
    p1[to := p1[to].(backs := Without(p1[to].backs, from))]
  }

  /** Disconnect: exactly the one wire between the two resolved ends. */
  function Disconnect(g: Graph, a: Id, from: string, b: Id, to: string): Graph {
    WireDown(g, Resolve(g.props, a, from).1, Resolve(g.props, b, to).0, Resolve(g.props, b, to).1)
  }

  function WireDown(g: Graph, fromPort: Port, toOwner: Id, toPort: Port): Graph {
    if fromPort.Absent? || toPort.Absent? || fromPort.slot !in g.props || toPort.slot !in g.props then g
    else if toPort.slot !in g.props[fromPort.slot].subs then g
    else Bump(g.(props := CutWire(g.props, fromPort.slot, toPort.slot)), toOwner)
  }

  /** Nothing but records changed. */
  ghost predicate SameNodes(p: map<Slot, Prop>, q: map<Slot, Prop>) {
    && p.Keys == q.Keys
    && forall s :: s in p ==> p[s].link == q[s].link && p[s].value == q[s].value
  }

  lemma AddWireKeepsPaired(props: map<Slot, Prop>, from: Slot, to: Slot)
    requires Paired(props) && from in props && to in props
    ensures var p := AddWire(props, from, to);
            && Paired(p) && SameNodes(p, props)
            && forall s, t :: Wired(p, s, t) <==> Wired(props, s, t) || (s == from && t == to)
  {
    var p := AddWire(props, from, to);
    assert Wired(props, from, to) <==> Heard(props, from, to);
    if !Wired(props, from, to) {
      forall s, t ensures Heard(p, s, t) <==> Heard(props, s, t) || (s == from && t == to) {}
      forall s, t ensures Wired(p, s, t) <==> Heard(p, s, t) {
        assert Wired(props, s, t) <==> Heard(props, s, t);
      }
    }
  }

  lemma CutWireKeepsPaired(props: map<Slot, Prop>, from: Slot, to: Slot)
    requires Paired(props) && from in props && to in props
    ensures var p := CutWire(props, from, to);
            && Paired(p) && SameNodes(p, props)
            && forall s, t :: Wired(p, s, t) <==> Wired(props, s, t) && !(s == from && t == to)
  {
    var p := CutWire(props, from, to);
    forall s, t ensures Heard(p, s, t) <==> Heard(props, s, t) && !(s == from && t == to) {}
    forall s, t ensures Wired(p, s, t) <==> Heard(p, s, t) {
      assert Wired(props, s, t) <==> Heard(props, s, t);
    }
  }

  // ---- links ----------------------------------------------------------------

  /** LinkPropertyAs: a slot becomes a link to the property a name on another
      instance stands for. A link is followed when the new one is made. */
  function LinkAs(g: Graph, owner: Id, slot: string, target: Id, name: string): Graph {
    var (realOwner, port) := Resolve(g.props, target, name);
    if port.Absent? then g
    else g.(props := SetLink(g.props, Slot(owner, slot), port.slot, realOwner))
  }

  function SetLink(props: map<Slot, Prop>, raw: Slot, node: Slot, owner: Id): map<Slot, Prop> {
    var was := if raw in props then props[raw] else Prop(Value("", false), NoLink, [], []);
    props[raw := was.(value := Value("", false), link := Link(node, owner))]
  }

  /** Nothing else is a link to this property. */
  ghost predicate NoLinkTo(props: map<Slot, Prop>, raw: Slot) {
    forall s :: s in props && s != raw && props[s].link.Link? ==> props[s].link.node != raw
  }

  /** Linking keeps links one step long exactly when the slot that is linked is
      not the target of a link, the new one included. */
  lemma LinkKeepsDepthOneIff(g: Graph, owner: Id, slot: string, target: Id, name: string)
    requires WF(g) && Slot(target, name) in g.props
    ensures DepthOne(LinkAs(g, owner, slot, target, name).props) <==>
            NoLinkTo(g.props, Slot(owner, slot)) && Resolve(g.props, target, name).1 != Node(Slot(owner, slot))
  {
    ResolveFacts(g, target, name);
    var raw, g1 := Slot(owner, slot), LinkAs(g, owner, slot, target, name);
    var l := Resolve(g.props, target, name).1.slot;
    assert g1.props[raw].link == Link(l, Resolve(g.props, target, name).0);
    if s :| s in g.props && s != raw && g.props[s].link.Link? && g.props[s].link.node == raw {
      assert g1.props[s].link.node == raw && g1.props[raw].link.Link?;
    }
    if l == raw { assert g1.props[raw].link.Link?; }
  }

  /** Otherwise a chain is left, and what it resolves to is said to be on the
      wrong instance: 1.x links to 2.y, then 2.y is linked to 3.z. */
  lemma LinkingATargetMisleads()
    ensures var v := Value("", false);
            var g := Graph(map[1 := Info("", [], "a", false), 2 := Info("", [], "b", false), 3 := Info("", [], "c", false)],
                           map[Slot(1, "x") := Prop(v, Link(Slot(2, "y"), 2), [], []),
                               Slot(2, "y") := Prop(v, NoLink, [], []), Slot(3, "z") := Prop(v, NoLink, [], [])], map[], []);
            WF(g) && Resolve(LinkAs(g, 2, "y", 3, "z").props, 1, "x") == (2, Node(Slot(3, "z")))
  {
    var v := Value("", false);
    var props := map[Slot(1, "x") := Prop(v, Link(Slot(2, "y"), 2), [], []),
                     Slot(2, "y") := Prop(v, NoLink, [], []), Slot(3, "z") := Prop(v, NoLink, [], [])];
    forall s, t ensures Wired(props, s, t) <==> Heard(props, s, t) {}
    var after := SetLink(props, Slot(2, "y"), Slot(3, "z"), 3);
    assert Chase(after, Slot(3, "z"), 6) == Slot(3, "z");
    assert Chase(after, Slot(2, "y"), 7) == Slot(3, "z");
  }

  // ---- messages -------------------------------------------------------------

  /** SndMsg: a message leaves by a port, whoever listens. */
  function Send(g: Graph, inst: Id, name: string, v: Value): Graph {
    var (owner, port) := Resolve(g.props, inst, name);
    if port.Absent? then g else g.(queue := g.queue + [Envelope(owner, port, v)])
  }

  /** A compiled handler answers a delivery with writes of its own; where there
      is none the value is stored. */
  datatype Answer = Default | Writes(writes: seq<(Slot, Value)>)
  type Handlers = (Slot, Value) -> Answer

  function WriteAll(g: Graph, writes: seq<(Slot, Value)>): Graph
    decreases |writes|
  {
    if writes == [] then g
    else
      var (s, v) := writes[0];
      WriteAll(if s.inst in g.info then Write(g, s.inst, s.name, v) else g, writes[1..])
  }

  function Deliver(g: Graph, to: Slot, v: Value, react: Handlers): Graph {
    match react(to, v)
    case Default => Write(g, to.inst, to.name, v)
    case Writes(ws) => WriteAll(g, ws)
  }

  function DeliverAll(g: Graph, subs: seq<Slot>, v: Value, react: Handlers): Graph
    decreases |subs|
  {
    if subs == [] then g else DeliverAll(Deliver(g, subs[0], v, react), subs[1..], v, react)
  }

  /** DispatchMsg: the oldest envelope goes to everyone who subscribes now. */
  function Dispatch(g: Graph, react: Handlers): Graph
    requires g.queue != []
  {
    var env, g1 := g.queue[0], g.(queue := g.queue[1..]);
    if env.outPort.Absent? || env.outPort.slot !in g.props then g1
    else DeliverAll(g1, g.props[env.outPort.slot].subs, env.value, react)
  }

  // ---- instances come and go --------------------------------------------------

  function NewProps(id: Id, declared: map<string, Value>): (r: map<Slot, Prop>)
    ensures forall s :: s in r <==> s.inst == id && s.name in declared
    ensures forall s :: s in r ==> r[s] == Prop(declared[s.name], NoLink, [], [])
  {
    map n | n in declared :: Slot(id, n) := Prop(declared[n], NoLink, [], [])
  }

  /** The path of an instance that has a name leads to it; one without is private. */
  function Indexed(index: map<Path, Id>, id: Id, info: Info): map<Path, Id> {
    if info.name == "" then index else index[PathOf(info) := id]
  }

  /** A registered instance with the properties its class declares. */
  function Register(g: Graph, id: Id, info: Info, declared: map<string, Value>): Graph {
    g.(info := g.info[id := info], props := g.props + NewProps(id, declared), index := Indexed(g.index, id, info))
  }

  /** A path as it is written. */
  function Spelled(p: Path): string {
    if p == [] then "" else Spelled(p[..|p| - 1]) + "/" + p[|p| - 1]
  }

  /** A new instance where it belongs, and its container told of it if it has a name. */
  function Enrol(g: Graph, id: Id, info: Info, declared: map<string, Value>): Graph {
    var g1 := Register(g, id, info, declared);
    if info.name != "" && info.container in g1.index then Write(g1, g1.index[info.container], LAST, Value(Spelled(PathOf(info)), false))
    else g1
  }

  function NotOn(q: seq<Slot>, x: Id): (r: seq<Slot>)
    ensures forall y :: y in r <==> y in q && y.inst != x
    ensures Once(q) ==> Once(r)
  {
    if q == [] then []
    else
      var rest := NotOn(q[1..], x);
      assert Once(q) ==> Once(q[1..]);
      assert forall i :: 0 <= i < |rest| ==> rest[i] in q[1..];
      if q[0].inst == x then rest else [q[0]] + rest
  }

  lemma NotOnRest(q: seq<Slot>, x: Id)
    requires q != []
    ensures NotOn(q, x) == (if q[0].inst == x then [] else [q[0]]) + NotOn(q[1..], x)
  {}

  function Cleared(p: Prop, x: Id): Prop {
    Prop(p.value, if p.link.Link? && p.link.owner == x then NoLink else p.link, NotOn(p.subs, x), NotOn(p.backs, x))
  }

  function Cancelled(e: Envelope, x: Id): Envelope {
    if e.sender == x then e.(outPort := Absent) else e
  }

  function Survivors(props: map<Slot, Prop>, x: Id): map<Slot, Prop> {
    map s | s in props && s.inst != x :: Cleared(props[s], x)
  }

  function CancelAll(queue: seq<Envelope>, x: Id): seq<Envelope> {
    seq(|queue|, i requires 0 <= i < |queue| => Cancelled(queue[i], x))
  }

  function At(home: Path, name: string): Path {
    home + [name]
  }

  function PathOf(info: Info): Path {
    At(info.container, info.name)
  }

  /** An instance has a path when it has a name, and the path its container and name
      spell leads back. */
  predicate Addressable(g: Graph, x: Id) {
    x in g.info && g.info[x].name != "" && PathOf(g.info[x]) in g.index && g.index[PathOf(g.info[x])] == x
  }

  function Unnamed(g: Graph, x: Id): map<Path, Id> {
    if Addressable(g, x) then g.index - {PathOf(g.info[x])} else g.index
  }

  /** What is left when an instance is gone: no record, link or message names it. */
  function Delete(g: Graph, x: Id): Graph {
    Graph(g.info - {x},
          Survivors(g.props, x),
          Unnamed(g, x),
          CancelAll(g.queue, x))
  }

  // ---- names ------------------------------------------------------------------

  /** Some instance placed there has the name already, whether it has a path or not. */
  ghost predicate NameTaken(g: Graph, container: Path, name: string) {
    exists i :: i in g.info && g.info[i].container == container && g.info[i].name == name
  }

  /** A new thing with no container goes under /Root. */
  function HomeOf(container: Path): Path {
    if container == [] then ["Root"] else container
  }

  ghost predicate NameFree(g: Graph, container: Path, name: string) {
    !NameTaken(g, container, name) && At(HomeOf(container), name) !in g.index
  }

  function DropDigits(s: string): string {
    if s != "" && IsDigit(s[|s| - 1]) then DropDigits(s[..|s| - 1]) else s
  }

  /** A base name without a trailing _N. */
  function Stem(name: string): string {
    var base := if name == "" then "Thing" else name;
    var s := DropDigits(base);
    if s != "" && |s| < |base| && s[|s| - 1] == '_' then s[..|s| - 1] else base
  }

  function Numbered(stem: string, k: nat): string {
    stem + "_" + ShowNat(k)
  }

  const LAST_NUMBER: nat := 99999

  /** The lowest number from k on whose name is free; the last one where none is. */
  ghost function Mint(g: Graph, container: Path, stem: string, k: nat): (name: string)
    requires k <= LAST_NUMBER
    ensures name != ""
    decreases LAST_NUMBER - k
  {
    if k == LAST_NUMBER || NameFree(g, container, Numbered(stem, k)) then Numbered(stem, k) else Mint(g, container, stem, k + 1)
  }

  /** What is minted is free, as soon as one of the numbers is. */
  lemma {:induction false} MintIsFree(g: Graph, container: Path, stem: string, k: nat, j: nat)
    requires k <= j <= LAST_NUMBER && NameFree(g, container, Numbered(stem, j))
    ensures NameFree(g, container, Mint(g, container, stem, k))
    decreases j - k
  {
    if k < j && !NameFree(g, container, Numbered(stem, k)) { MintIsFree(g, container, stem, k + 1, j); }
  }

  /** The name a new thing is given: the one that was asked for, or a minted one. */
  ghost function NameFor(g: Graph, home: Path, cls: string, wanted: string): (name: string)
    ensures name != ""
  {
    if wanted != "" then wanted else Mint(g, home, Stem(cls), 1)
  }

  // ---- every step keeps the graph well formed ---------------------------------

  lemma GrowKeeps(g: Graph, a: Id, from: string)
    requires WF(g) && a in g.info
    ensures WF(Grow(g, a, from)) && Slot(a, from) in Grow(g, a, from).props
    ensures forall s, t :: Wired(Grow(g, a, from).props, s, t) <==> Wired(g.props, s, t)
  {
    var g1 := Grow(g, a, from);
    forall s, t ensures Wired(g1.props, s, t) <==> Heard(g1.props, s, t) {
      assert Wired(g.props, s, t) <==> Heard(g.props, s, t);
    }
  }

  /** A write changes one value, or makes one property; no record and no link. */
  lemma WriteWires(g: Graph, inst: Id, name: string, v: Value)
    requires WF(g)
    ensures var r := Write(g, inst, name, v);
            && r.info == g.info && r.index == g.index
            && (forall u, w :: Wired(r.props, u, w) <==> Wired(g.props, u, w))
            && (forall u, w :: Heard(r.props, u, w) <==> Heard(g.props, u, w))
            && (forall s :: s in g.props ==> s in r.props && r.props[s] == g.props[s].(value := r.props[s].value))
            && (forall s :: s in r.props && s !in g.props ==> s == Slot(inst, name) && r.props[s] == Prop(v, NoLink, [], []))
  {
    ResolveFacts(g, inst, name);
  }

  lemma BumpKeeps(g: Graph, inst: Id)
    requires WF(g) && inst in g.info
    ensures WF(Bump(g, inst)) && Bump(g, inst).info == g.info && Bump(g, inst).index == g.index
    ensures forall u, w :: Wired(Bump(g, inst).props, u, w) <==> Wired(g.props, u, w)
  {
    var v := Value(Show(CountOf(g, inst) + 1), true);
    WriteKeeps(g, inst, WIRING, v);
    WriteWires(g, inst, WIRING, v);
  }

  /** Where the count is the owner's own, it goes up by one, nothing else changes but
      that one value, and whoever listens to it gets one message. */
  lemma BumpCounts(g: Graph, inst: Id)
    requires WF(g) && inst in g.info && !(Slot(inst, WIRING) in g.props && g.props[Slot(inst, WIRING)].link.Link?)
    ensures var r, s := Bump(g, inst), Slot(inst, WIRING);
            && CountOf(r, inst) == CountOf(g, inst) + 1
            && s in r.props && r.props[s].value.long && r.props[s].link.NoLink?
            && (forall u :: u in r.props && u != s ==> u in g.props && r.props[u] == g.props[u])
            && (forall u :: u in g.props ==> u in r.props && r.props[u].link == g.props[u].link)
            && r.queue == if s in g.props && g.props[s].subs != [] then g.queue + [Envelope(inst, Node(s), r.props[s].value)] else g.queue
  {
    ReadShown(CountOf(g, inst) + 1);
  }

  /** The count goes up exactly when it is no link: it is read where it stands and
      written where its link leads, so that a link's own count stays what it was. */
  lemma BumpCountsIff(g: Graph, inst: Id)
    requires WF(g) && inst in g.info
    ensures var s := Slot(inst, WIRING);
            CountOf(Bump(g, inst), inst) == CountOf(g, inst) + 1 <==> !(s in g.props && g.props[s].link.Link?)
    ensures var s := Slot(inst, WIRING);
            s in g.props && g.props[s].link.Link? ==>
              var l, r := g.props[s].link.node, Bump(g, inst);
              l in r.props && r.props[l].value == Value(Show(CountOf(g, inst) + 1), true)
  {
    var s := Slot(inst, WIRING);
    if s in g.props && g.props[s].link.Link? {
      ResolveFacts(g, inst, WIRING);
      var l := g.props[s].link.node;
      assert Chase(g.props, l, DEPTH - 1) == l;
    } else {
      BumpCounts(g, inst);
    }
  }

  /** Connecting leaves one wire more between the two ends, however often it is done. */
  lemma ConnectKeeps(g: Graph, a: Id, from: string, b: Id, to: string)
    requires WF(g) && a in g.info && b in g.info
    ensures var r := Connect(g, a, from, b, to);
            && WF(r)
            && (Slot(b, to) in Grow(g, a, from).props ==>
                  var g1 := Grow(g, a, from);
                  var f, t := Resolve(g1.props, a, from).1, Resolve(g1.props, b, to).1;
                  && f.Node? && t.Node?
                  && forall u, w :: Wired(r.props, u, w) <==> Wired(g.props, u, w) || (Node(u) == f && Node(w) == t))
  {
    hide Paired, Bump, WF;
    GrowKeeps(g, a, from);
    var g1 := Grow(g, a, from);
    ResolveFacts(g1, a, from);
    ResolveFacts(g1, b, to);
    var f, t := Resolve(g1.props, a, from).1, Resolve(g1.props, b, to).1;
    if t.Node? { WireUpKeeps(g1, f.slot, Resolve(g1.props, b, to).0, t.slot); }
  }

  lemma WireUpKeeps(g: Graph, f: Slot, owner: Id, t: Slot)
    requires WF(g) && f in g.props && t in g.props && owner in g.info
    ensures var r := WireUp(g, Node(f), owner, Node(t));
            WF(r) && r.info == g.info && forall u, w :: Wired(r.props, u, w) <==> Wired(g.props, u, w) || (u == f && w == t)
  {
    var g1 := g.(props := AddWire(g.props, f, t));
    AddWireKeepsPaired(g.props, f, t);
    WireStands(g, f, t);
    BumpKeeps(g1, owner);
  }

  /** One wire more is still a well-formed graph, and one wire less. */
  lemma WireStands(g: Graph, f: Slot, t: Slot)
    requires WF(g) && f in g.props && t in g.props
    ensures WF(g.(props := AddWire(g.props, f, t)))
  {
    AddWireKeepsPaired(g.props, f, t);
    RecordsOnly(g, g.(props := AddWire(g.props, f, t)));
  }

  lemma CutStands(g: Graph, f: Slot, t: Slot)
    requires WF(g) && f in g.props && t in g.props
    ensures WF(g.(props := CutWire(g.props, f, t)))
    ensures NoRepeats(g.props[f]) && NoRepeats(g.props[t]) && (Wired(g.props, f, t) <==> Heard(g.props, f, t))
  {
    CutWireKeepsPaired(g.props, f, t);
    RecordsOnly(g, g.(props := CutWire(g.props, f, t)));
  }

  lemma RecordsOnly(g: Graph, r: Graph)
    requires WF(g) && SameNodes(r.props, g.props) && Paired(r.props) && r == g.(props := r.props)
    ensures WF(r)
  {}

  lemma DisconnectKeeps(g: Graph, a: Id, from: string, b: Id, to: string)
    requires WF(g)
    ensures var r := Disconnect(g, a, from, b, to);
            var f, t := Resolve(g.props, a, from).1, Resolve(g.props, b, to).1;
            && WF(r) && r.info == g.info
            && forall u, w :: Wired(r.props, u, w) <==> Wired(g.props, u, w) && !(Node(u) == f && Node(w) == t)
  {
    hide Paired, Bump, WF;
    ResolveFacts(g, a, from);
    ResolveFacts(g, b, to);
    var f, t := Resolve(g.props, a, from).1, Resolve(g.props, b, to).1;
    if f.Node? && t.Node? && t.slot in g.props[f.slot].subs {
      WireDownKeeps(g, f.slot, Resolve(g.props, b, to).0, t.slot);
    }
  }

  lemma WireDownKeeps(g: Graph, f: Slot, owner: Id, t: Slot)
    requires WF(g) && f in g.props && t in g.props && owner in g.info && t in g.props[f].subs
    ensures var r := WireDown(g, Node(f), owner, Node(t));
            WF(r) && r.info == g.info && forall u, w :: Wired(r.props, u, w) <==> Wired(g.props, u, w) && !(u == f && w == t)
  {
    var g1 := g.(props := CutWire(g.props, f, t));
    CutWireKeepsPaired(g.props, f, t);
    CutStands(g, f, t);
    BumpKeeps(g1, owner);
  }

  lemma LinkKeeps(g: Graph, owner: Id, slot: string, target: Id, name: string)
    requires WF(g) && owner in g.info
    requires NoLinkTo(g.props, Slot(owner, slot)) && Resolve(g.props, target, name).1 != Node(Slot(owner, slot))
    ensures WF(LinkAs(g, owner, slot, target, name))
  {
    ResolveFacts(g, target, name);
    if Slot(target, name) in g.props {
      LinkKeepsDepthOneIff(g, owner, slot, target, name);
      var r := LinkAs(g, owner, slot, target, name);
      forall s, t ensures Wired(r.props, s, t) <==> Heard(r.props, s, t) {
        assert Wired(g.props, s, t) <==> Heard(g.props, s, t);
      }
    }
  }

  lemma WriteKeeps(g: Graph, inst: Id, name: string, v: Value)
    requires WF(g) && inst in g.info
    ensures WF(Write(g, inst, name, v)) && Write(g, inst, name, v).info == g.info
    ensures g.props.Keys <= Write(g, inst, name, v).props.Keys
  {
    ResolveFacts(g, inst, name);
    var r := Write(g, inst, name, v);
    forall s, t ensures Wired(r.props, s, t) <==> Heard(r.props, s, t) {
      assert Wired(g.props, s, t) <==> Heard(g.props, s, t);
    }
  }

  lemma {:induction false} WriteAllKeeps(g: Graph, writes: seq<(Slot, Value)>)
    requires WF(g)
    ensures WF(WriteAll(g, writes)) && WriteAll(g, writes).info == g.info
    ensures g.props.Keys <= WriteAll(g, writes).props.Keys
    decreases |writes|
  {
    if writes != [] {
      var (s, v) := writes[0];
      if s.inst in g.info { WriteKeeps(g, s.inst, s.name, v); }
      WriteAllKeeps(if s.inst in g.info then Write(g, s.inst, s.name, v) else g, writes[1..]);
    }
  }

  lemma {:induction false} DeliverAllKeeps(g: Graph, subs: seq<Slot>, v: Value, react: Handlers)
    requires WF(g) && forall i :: 0 <= i < |subs| ==> subs[i].inst in g.info
    ensures WF(DeliverAll(g, subs, v, react)) && DeliverAll(g, subs, v, react).info == g.info
    decreases |subs|
  {
    if subs != [] {
      match react(subs[0], v) {
        case Default => WriteKeeps(g, subs[0].inst, subs[0].name, v);
        case Writes(ws) => WriteAllKeeps(g, ws);
      }
      DeliverAllKeeps(Deliver(g, subs[0], v, react), subs[1..], v, react);
    }
  }

  lemma DispatchKeeps(g: Graph, react: Handlers)
    requires WF(g) && g.queue != []
    ensures WF(Dispatch(g, react))
  {
    var env, g1 := g.queue[0], g.(queue := g.queue[1..]);
    if env.outPort.Node? {
      var subs := g.props[env.outPort.slot].subs;
      forall i | 0 <= i < |subs| ensures subs[i].inst in g.info {
        assert Wired(g.props, env.outPort.slot, subs[i]) && Heard(g.props, env.outPort.slot, subs[i]);
      }
      DeliverAllKeeps(g1, subs, env.value, react);
    }
  }

  lemma RegisterKeeps(g: Graph, id: Id, info: Info, declared: map<string, Value>)
    requires WF(g) && id !in g.info
    ensures WF(Register(g, id, info, declared))
  {
    hide Paired, At, DepthOne, QueueOk, IndexOk, NewProps;
    var r, newer := Register(g, id, info, declared), NewProps(id, declared);
    assert forall s :: s in g.props ==> s !in newer;
    MorePaired(g.props, newer);
    MoreNodes(g, r, newer);
    RegisterIndex(g, id, info, declared);
  }

  lemma EnrolKeeps(g: Graph, id: Id, info: Info, declared: map<string, Value>)
    requires WF(g) && id !in g.info
    ensures WF(Enrol(g, id, info, declared))
  {
    hide WF, Register, Write;
    RegisterKeeps(g, id, info, declared);
    var g1 := Register(g, id, info, declared);
    if info.name != "" && info.container in g1.index {
      IndexLeads(g1, info.container);
      WriteKeeps(g1, g1.index[info.container], LAST, Value(Spelled(PathOf(info)), false));
    }
  }

  lemma IndexLeads(g: Graph, p: Path)
    requires WF(g) && p in g.index
    ensures g.index[p] in g.info
  {}

  lemma MoreNodes(g: Graph, r: Graph, newer: map<Slot, Prop>)
    requires DepthOne(g.props) && QueueOk(g) && r.props == g.props + newer && r.queue == g.queue
    requires forall s :: s in newer ==> s !in g.props && newer[s].link.NoLink?
    ensures DepthOne(r.props) && QueueOk(r)
  {
    assert forall s :: s in g.props ==> s in r.props && r.props[s] == g.props[s];
    forall s | s in r.props && r.props[s].link.Link? ensures s in g.props {}
  }

  lemma RegisterIndex(g: Graph, id: Id, info: Info, declared: map<string, Value>)
    requires IndexOk(g) && id !in g.info
    ensures IndexOk(Register(g, id, info, declared))
  {
    hide PathOf, NewProps;
  }

  /** New properties bring no records. */
  lemma MorePaired(props: map<Slot, Prop>, newer: map<Slot, Prop>)
    requires Paired(props) && forall s :: s in newer ==> s !in props && newer[s].subs == [] && newer[s].backs == []
    ensures Paired(props + newer)
    ensures forall s, t :: Wired(props + newer, s, t) <==> Wired(props, s, t)
  {
    forall s, t ensures Wired(props + newer, s, t) <==> Heard(props + newer, s, t) {
      assert Wired(props, s, t) <==> Heard(props, s, t);
    }
  }

  /** Deleting an instance leaves nothing that names it. */
  lemma DeleteKeeps(g: Graph, x: Id)
    requires WF(g)
    ensures WF(Delete(g, x)) && x !in Delete(g, x).info
    ensures forall s, t :: Wired(Delete(g, x).props, s, t) <==> Wired(g.props, s, t) && s.inst != x && t.inst != x
  {
    hide At, NotOn, Paired, IndexOk;
    var r := Delete(g, x);
    DeletePaired(g.props, x);
    DeleteIndex(g, x);
  }

  lemma DeletePaired(props: map<Slot, Prop>, x: Id)
    requires Paired(props)
    ensures Paired(Survivors(props, x))
    ensures forall s, t :: Wired(Survivors(props, x), s, t) <==> Wired(props, s, t) && s.inst != x && t.inst != x
  {
    hide NotOn;
    var r := Survivors(props, x);
    forall s, t ensures Heard(r, s, t) <==> Heard(props, s, t) && s.inst != x && t.inst != x {}
    forall s, t ensures Wired(r, s, t) <==> Heard(r, s, t) {
      assert Wired(props, s, t) <==> Heard(props, s, t);
    }
  }

  lemma DeleteIndex(g: Graph, x: Id)
    requires IndexOk(g)
    ensures IndexOk(Delete(g, x))
  {
    hide At;
  }

  // ---- runs -------------------------------------------------------------------

  datatype Step =
    | New(id: Id, born: Info, declared: map<string, Value>)
    | LinkStep(owner: Id, slot: string, target: Id, name: string)
    | Wire(a: Id, from: string, b: Id, to: string)
    | Unwire(a: Id, from: string, b: Id, to: string)
    | WriteStep(inst: Id, name: string, v: Value)
    | SendStep(inst: Id, name: string, v: Value)
    | DispatchStep(react: Handlers)
    | DeleteStep(x: Id)

  /** No property of an instance is wired to itself. */
  ghost predicate NoSelfWire(g: Graph, x: Id) {
    forall s :: s in g.props && s.inst == x ==> !Wired(g.props, s, s)
  }

  /** Callers hold live instances, link only slots nothing links to, and delete only
      what has no property wired to itself. */
  ghost predicate Allowed(g: Graph, step: Step) {
    match step
    case New(id, _, _) => id !in g.info
    case LinkStep(owner, slot, target, name) =>
      && owner in g.info && NoLinkTo(g.props, Slot(owner, slot))
      && Resolve(g.props, target, name).1 != Node(Slot(owner, slot))
    case Wire(a, _, b, _) => a in g.info && b in g.info
    case Unwire(_, _, _, _) => true
    case WriteStep(inst, _, _) => inst in g.info
    case SendStep(_, _, _) => true
    case DispatchStep(_) => g.queue != []
    case DeleteStep(x) => NoSelfWire(g, x)
  }

  function Next(g: Graph, step: Step): Graph {
    match step
    case New(id, born, declared) => Enrol(g, id, born, declared)
    case LinkStep(owner, slot, target, name) => LinkAs(g, owner, slot, target, name)
    case Wire(a, from, b, to) => Connect(g, a, from, b, to)
    case Unwire(a, from, b, to) => Disconnect(g, a, from, b, to)
    case WriteStep(inst, name, v) => Write(g, inst, name, v)
    case SendStep(inst, name, v) => Send(g, inst, name, v)
    case DispatchStep(react) => if g.queue == [] then g else Dispatch(g, react)
    case DeleteStep(x) => Delete(g, x)
  }

  const EMPTY := Graph(map[], map[], map[], [])

  ghost predicate IsRun(steps: seq<Step>, trace: seq<Graph>) {
    && |trace| == |steps| + 1 && trace[0] == EMPTY
    && forall i :: 0 <= i < |steps| ==> Allowed(trace[i], steps[i]) && trace[i + 1] == Next(trace[i], steps[i])
  }

  lemma StepKeeps(g: Graph, step: Step)
    requires WF(g) && Allowed(g, step)
    ensures WF(Next(g, step))
  {
    match step
    case New(id, born, declared) => EnrolKeeps(g, id, born, declared);
    case LinkStep(owner, slot, target, name) => LinkKeeps(g, owner, slot, target, name);
    case Wire(a, from, b, to) => ConnectKeeps(g, a, from, b, to);
    case Unwire(a, from, b, to) => DisconnectKeeps(g, a, from, b, to);
    case WriteStep(inst, name, v) => WriteKeeps(g, inst, name, v);
    case SendStep(inst, name, v) => ResolveFacts(g, inst, name);
    case DispatchStep(react) => DispatchKeeps(g, react);
    case DeleteStep(x) => DeleteKeeps(g, x);
  }

  lemma {:induction false} RunKeepsWF(steps: seq<Step>, trace: seq<Graph>)
    requires IsRun(steps, trace)
    ensures WF(trace[|steps|])
  {
    if steps != [] {
      var n := |steps| - 1;
      assert IsRun(steps[..n], trace[..n + 1]);
      RunKeepsWF(steps[..n], trace[..n + 1]);
      StepKeeps(trace[n], steps[n]);
    }
  }

  /** In every run, whatever was linked, wired, sent and deleted before: every
      instance a record, a link or a pending message names is registered. */
  lemma NothingDangles(steps: seq<Step>, trace: seq<Graph>)
    requires IsRun(steps, trace)
    ensures var g := trace[|steps|];
            && (forall s, t :: Wired(g.props, s, t) || Heard(g.props, s, t) ==> s.inst in g.info && t.inst in g.info)
            && (forall s :: s in g.props && g.props[s].link.Link? ==>
                  g.props[s].link.owner in g.info && g.props[s].link.node in g.props)
            && (forall e :: e in g.queue && e.outPort.Node? ==> e.sender in g.info && e.outPort.slot in g.props)
            && (forall p :: p in g.index ==> g.index[p] in g.info)
  {
    RunKeepsWF(steps, trace);
    var g := trace[|steps|];
    forall s, t | Wired(g.props, s, t) || Heard(g.props, s, t) ensures s.inst in g.info && t.inst in g.info {
      assert Wired(g.props, s, t) && Heard(g.props, s, t);
    }
  }
}
