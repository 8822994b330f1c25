/** The clone of a group as the program makes it: a pass that creates the copies,
    a pass that links them, a pass that wires them. */
module Clone {
  import opened Decimal
  import opened GraphModel
  import opened CloneModel
  import opened Fabric
  import CloneOutcome

  /** What an instance has after the source's portable values were written to it. */
  ghost predicate Carries(props: map<Slot, Prop>, was: map<Slot, Prop>, source: Id, inst: Id, done: set<Slot>) {
    && (forall s :: s in props <==> s in was || (s.inst == inst && Slot(source, s.name) in done))
    && (forall s :: s in props ==> props[s] == Carried(was, source, inst, done, s))
  }

  function Carried(was: map<Slot, Prop>, source: Id, inst: Id, done: set<Slot>, s: Slot): Prop
    requires s in was || (s.inst == inst && Slot(source, s.name) in done)
  {
    if s.inst == inst && Slot(source, s.name) in done && Slot(source, s.name) in was
    then Prop(Value(was[Slot(source, s.name)].value.text, false), NoLink, [], [])
    else if s in was then was[s] else ZERO
  }

  function PortableOf(props: map<Slot, Prop>, source: Id): set<Slot> {
    set s | s in props && s.inst == source && Portable(props, s)
  }

  lemma HiddenKeeps(g: Graph, inst: Id, hidden: bool)
    requires WF(g) && inst in g.info
    ensures WF(g.(info := g.info[inst := g.info[inst].(hidden := hidden)]))
  {}

  lemma CarriesNothing(props: map<Slot, Prop>, source: Id, inst: Id)
    ensures Carries(props, props, source, inst, {})
  {}

  lemma OneCarried(g: Graph, was: map<Slot, Prop>, source: Id, inst: Id, done: set<Slot>, s: Slot)
    requires Carries(g.props, was, source, inst, done) && done <= PortableOf(was, source) && source != inst
    requires s in PortableOf(was, source) && forall t :: t in g.props && t.inst == inst ==> Plain(g.props[t])
    ensures s in g.props
    ensures var v := Value(g.props[s].value.text, false);
            var r := Write(g, inst, s.name, v);
            && r == g.(props := r.props) && Carries(r.props, was, source, inst, done + {s})
            && forall t :: t in r.props && t.inst == inst ==> Plain(r.props[t])
  {
    var v := Value(g.props[s].value.text, false);
    var r := Write(g, inst, s.name, v);
    assert r.props == g.props[Slot(inst, s.name) := Prop(v, NoLink, [], [])] && r.queue == g.queue;
    forall t: Slot ensures t.inst == inst && t != Slot(inst, s.name) ==> Slot(source, t.name) != s {}
  }

  /** Write onto an instance what the source carries. */
  method CloneData(graph: ObjectGraph, source: Id, inst: Id)
    requires graph.Valid() && source in graph.info && inst in graph.info && source != inst
    requires forall s :: s in graph.props && s.inst == inst ==> Plain(graph.props[s])
    modifies graph
    ensures graph.Valid() && graph.queue == old(graph.queue) && graph.index == old(graph.index)
    ensures graph.info == old(graph.info)[inst := old(graph.info)[inst].(hidden := old(graph.info)[source].hidden)]
    ensures Carries(graph.props, old(graph.props), source, inst, PortableOf(old(graph.props), source))
    ensures Given(old(graph.G()), graph.props, source, inst)
  {
    hide WF, Carries, Plain, Write, PortableOf, Given;
    HiddenKeeps(graph.G(), inst, graph.info[source].hidden);
    CarriesNothing(graph.props, source, inst);
    graph.info := graph.info[inst := graph.info[inst].(hidden := graph.info[source].hidden)];
    ghost var was, done := graph.props, {};
    var todo := PortableOf(graph.props, source);
    while todo != {}
      invariant done + todo == PortableOf(was, source) && graph.Valid() && source != inst && inst in graph.info
      invariant graph.G() == old(graph.G()).(info := graph.info, props := graph.props)
      invariant graph.info == old(graph.info)[inst := old(graph.info)[inst].(hidden := old(graph.info)[source].hidden)]
      invariant Carries(graph.props, was, source, inst, done)
      invariant forall s :: s in graph.props && s.inst == inst ==> Plain(graph.props[s])
      decreases |todo|
    {
      var s :| s in todo;
      OneCarried(graph.G(), was, source, inst, done, s);
      graph.SetProp(inst, s.name, Value(graph.props[s].value.text, false));
      todo, done := todo - {s}, done + {s};
    }
    assert done == PortableOf(was, source);
    CarriedIsGiven(old(graph.G()), graph.props, source, inst);
  }

  /** Each value of the source that goes along is on the other, as text; whatever else that
      one had, and everyone else, is as before. */
  ghost predicate Given(was: Graph, props: map<Slot, Prop>, source: Id, inst: Id) {
    forall s: Slot ::
      if s.inst == inst && CloneOutcome.Goes(was, Slot(source, s.name))
      then s in props && props[s] == Prop(Value(was.props[Slot(source, s.name)].value.text, false), NoLink, [], [])
      else (s in props <==> s in was.props) && (s in props ==> props[s] == was.props[s])
  }

  lemma CarriedIsGiven(was: Graph, props: map<Slot, Prop>, source: Id, inst: Id)
    requires Carries(props, was.props, source, inst, PortableOf(was.props, source))
    ensures Given(was, props, source, inst)
  {
    forall s: Slot ensures Slot(source, s.name) in PortableOf(was.props, source) <==> CloneOutcome.Goes(was, Slot(source, s.name)) {}
  }

  /** The copy itself: made the way any instance is made, then written to. */
  method CloneObject(graph: ObjectGraph, classes: Classes, source: Id, home: Path, name: string) returns (ok: bool, id: Id)
    requires graph.Valid() && source in graph.info
    requires home in graph.index ==> graph.index[home] != source && !IsLink(graph.props, Slot(graph.index[home], LAST))
    modifies graph
    ensures graph.Valid() && (ok <==> home in old(graph.index)) && (!ok ==> graph.G() == old(graph.G()))
    ensures ok ==> id !in old(graph.info)
    ensures ok ==> IsCloned(old(graph.G()), classes, graph.G(), source, home,
                            NameFor(old(graph.G()), home, old(graph.info)[source].cls, name), id)
  {
    hide WF, IsCopy, Carries, NewProps, PortableOf, Plain, At, Enrol, OneAdded, BornWith, SameOn, NameFor;
    ghost var given := NameFor(graph.G(), home, graph.info[source].cls, name);
    ok, id := graph.CreateObject(home, graph.info[source].cls, name, classes(graph.info[source].cls));
    if ok {
      ghost var was, born := old(graph.G()), graph.G();
      ghost var declared := classes(was.info[source].cls);
      EnrolAdds(was, id, Info(was.info[source].cls, home, given, false), declared, source);
      IndexLeads(was, home);
      AllPlain(born.props, id, declared);
      CloneData(graph, source, id);
      CarriedIsCopy(was, classes, born.props, graph.props, source, id);
      CarriedKeeps(was, born, graph.G(), source, id, was.index[home]);
      InfoPlaced(was.info, born.info, graph.info, source, id, home, given);
    }
  }

  /** One instance more, a copy of source, and its container told; nothing else is
      different. */
  ghost predicate IsCloned(g: Graph, classes: Classes, r: Graph, source: Id, home: Path, name: string, id: Id) {
    && source in g.info && id !in g.info && home in g.index
    && r.info == g.info[id := g.info[source].(container := home, name := name)]
    && r.index == g.index[At(home, name) := id]
    && OneAdded(g, r, id, g.index[home]) && IsCopy(g, classes, source, r.props, id)
  }

  /** Nothing but a new instance with what its class declares. */
  ghost predicate Born(g: Graph, r: Graph, id: Id, declared: map<string, Value>) {
    && r.queue == g.queue
    && (forall s :: s in g.props ==> s in r.props && r.props[s] == g.props[s] && s.inst != id)
    && (forall s :: s in r.props && s !in g.props ==> s.inst == id)
    && BornWith(r.props, id, declared)
  }

  ghost predicate BornWith(props: map<Slot, Prop>, id: Id, declared: map<string, Value>) {
    && (forall n :: Slot(id, n) in props <==> n in declared)
    && (forall n :: n in declared ==> props[Slot(id, n)] == Prop(declared[n], NoLink, [], []))
  }

  ghost predicate SameOn(p: map<Slot, Prop>, q: map<Slot, Prop>, i: Id) {
    && (forall n :: Slot(i, n) in p <==> Slot(i, n) in q)
    && (forall n :: Slot(i, n) in q ==> p[Slot(i, n)] == q[Slot(i, n)])
  }

  /** A container is told: its own LastMember is written, and one message sent if that
      is heard. */
  ghost predicate Told(g: Graph, r: Graph, k: Id) {
    var last := Slot(k, LAST);
    && (forall s :: s in g.props ==> s in r.props && r.props[s] == g.props[s].(value := r.props[s].value))
    && (forall s :: s in g.props && s != last ==> r.props[s] == g.props[s])
    && (forall s :: s in r.props && s !in g.props ==> s == last && Plain(r.props[s]))
    && (r.queue == g.queue ||
        (last in g.props && g.props[last].subs != [] && |r.queue| == |g.queue| + 1 && g.queue <= r.queue
         && r.queue[|g.queue|].sender == k && r.queue[|g.queue|].outPort == Node(last)))
  }

  /** A new instance has what its class declares, and its container is told. */
  lemma EnrolAdds(g: Graph, id: Id, info: Info, declared: map<string, Value>, source: Id)
    requires WF(g) && id !in g.info && info.container in g.index && source in g.info && info.name != ""
    requires g.index[info.container] != source && !IsLink(g.props, Slot(g.index[info.container], LAST))
    ensures var r := Enrol(g, id, info, declared);
            && r.info == g.info[id := info] && r.index == g.index[PathOf(info) := id]
            && OneAdded(g, r, id, g.index[info.container])
            && BornWith(r.props, id, declared) && SameOn(r.props, g.props, source)
  {
    hide WF, Spelled, Write, PathOf, Born, Told, OneAdded, BornWith, SameOn;
    var mid, k := Register(g, id, info, declared), g.index[info.container];
    var v := Value(Spelled(PathOf(info)), false);
    RegisterKeeps(g, id, info, declared);
    RegisterAdds(g, id, info, declared);
    ToldOnce(mid, k, v);
    BornThenTold(g, mid, Write(mid, k, LAST, v), id, k, declared, source);
  }

  lemma RegisterAdds(g: Graph, id: Id, info: Info, declared: map<string, Value>)
    requires WF(g) && id !in g.info && info.container in g.index
    requires !IsLink(g.props, Slot(g.index[info.container], LAST))
    ensures var r, k := Register(g, id, info, declared), g.index[info.container];
            && Born(g, r, id, declared) && k in g.info && info.container in r.index && r.index[info.container] == k
            && !IsLink(r.props, Slot(k, LAST))
  {
    hide WF, PathOf, Born, NewProps;
    WFLives(g);
    RegisterBorn(g, id, info, declared);
    PathIsLonger(info);
    IndexLeads(g, info.container);
  }

  lemma WFLives(g: Graph)
    requires WF(g)
    ensures Live(g)
  {}

  lemma PathIsLonger(info: Info)
    ensures PathOf(info) != info.container
  {
    assert |PathOf(info)| == |info.container| + 1;
  }

  lemma RegisterBorn(g: Graph, id: Id, info: Info, declared: map<string, Value>)
    requires Live(g) && id !in g.info
    ensures Born(g, Register(g, id, info, declared), id, declared)
  {
    hide NewProps, PathOf;
    var newer := NewProps(id, declared);
    assert forall s :: s in g.props ==> s !in newer && s.inst != id;
    assert forall n :: Slot(id, n) in newer <==> n in declared;
  }

  lemma ToldOnce(g: Graph, k: Id, v: Value)
    requires WF(g) && k in g.info && !IsLink(g.props, Slot(k, LAST))
    ensures var r := Write(g, k, LAST, v); r.info == g.info && r.index == g.index && Told(g, r, k)
  {}

  lemma BornThenTold(g: Graph, mid: Graph, r: Graph, id: Id, k: Id, declared: map<string, Value>, source: Id)
    requires WF(g) && id !in g.info && k in g.info && source in g.info && k != source
    requires Born(g, mid, id, declared) && Told(mid, r, k)
    ensures OneAdded(g, r, id, k) && BornWith(r.props, id, declared) && SameOn(r.props, g.props, source)
  {
    BornAdds(g, mid, r, id, k, declared);
    forall n ensures Slot(id, n) in r.props <==> n in declared {}
    forall n ensures Slot(source, n) in r.props <==> Slot(source, n) in g.props {}
    hide OneAdded;
  }

  lemma BornAdds(g: Graph, mid: Graph, r: Graph, id: Id, k: Id, declared: map<string, Value>)
    requires Live(g) && id !in g.info && k in g.info && Born(g, mid, id, declared) && Told(mid, r, k)
    ensures OneAdded(g, r, id, k)
  {
    hide BornWith;
  }

  lemma AllPlain(props: map<Slot, Prop>, id: Id, declared: map<string, Value>)
    requires BornWith(props, id, declared)
    ensures forall s :: s in props && s.inst == id ==> Plain(props[s])
  {
    forall s | s in props && s.inst == id ensures Plain(props[s]) { assert s == Slot(id, s.name); }
  }

  lemma CarriedIsCopy(was: Graph, classes: Classes, born: map<Slot, Prop>, props: map<Slot, Prop>, source: Id, id: Id)
    requires source in was.info && id != source
    requires BornWith(born, id, classes(was.info[source].cls)) && SameOn(born, was.props, source)
    requires Carries(props, born, source, id, PortableOf(born, source))
    ensures IsCopy(was, classes, source, props, id)
  {
    forall n: string
      ensures Slot(source, n) in PortableOf(born, source) <==> Portable(was.props, Slot(source, n))
    {}
    forall s: Slot | s.inst == id ensures CopyAt(was, classes, Slot(source, s.name), props, s) {
      assert s == Slot(id, s.name);
    }
  }

  lemma InfoPlaced(info: map<Id, Info>, born: map<Id, Info>, after: map<Id, Info>, source: Id, id: Id, home: Path, name: string)
    requires source in info && id !in info && born == info[id := Info(info[source].cls, home, name, false)]
    requires after == born[id := born[id].(hidden := born[source].hidden)]
    ensures after == info[id := info[source].(container := home, name := name)]
  {
    var last := born[id].(hidden := born[source].hidden);
    assert last == info[source].(container := home, name := name);
    assert after == info[id := last];
  }

  lemma CarriedKeeps(was: Graph, born: Graph, r: Graph, source: Id, id: Id, k: Id)
    requires WF(was) && id !in was.info && k in was.info && OneAdded(was, born, id, k)
    requires r.queue == born.queue && Carries(r.props, born.props, source, id, PortableOf(born.props, source))
    ensures OneAdded(was, r, id, k)
  {
    forall s | s in was.props ensures s in r.props && r.props[s] == born.props[s] {
      assert s in born.props && s.inst != id;
    }
  }

  // ---- the passes over a container's members ------------------------------------

  /** What the first pass keeps: the copies made so far, of nothing but the group. */
  ghost predicate Copying(g0: Graph, classes: Classes, g: Graph, c: map<Id, Id>, plan: Plan) {
    Sound(g0, plan) && Named(g0.info, plan.src) && Populated(g0, classes, g, c, plan) && OfTheGroup(g0, c, plan)
  }

  /** What is at hand to copy one member: a free place, in a copy. */
  lemma ReadyToCopy(g0: Graph, classes: Classes, g: Graph, c: map<Id, Id>, plan: Plan, p: Path, i: Id)
    requires Copying(g0, classes, g, c, plan) && Home(g0.info, plan.src, p) && Member(g0.info, p, i) && i !in c
    requires plan.Rebased(p) in g.index
    ensures i in g.info && g.info[i] == g0.info[i] && g0.info[i].name != ""
    ensures At(plan.Rebased(p), g0.info[i].name) !in g.index
    ensures var k := g.index[plan.Rebased(p)];
            k in c.Values && k != i && k in g.info && !IsLink(g.props, Slot(k, LAST))
  {
    PlaceIsFree(g0, g, c, plan, p, i);
    HomeIsACopy(g0, classes, g, c, plan, p);
  }

  lemma HomeIsACopy(g0: Graph, classes: Classes, g: Graph, c: map<Id, Id>, plan: Plan, p: Path)
    requires Sound(g0, plan) && Populated(g0, classes, g, c, plan) && Home(g0.info, plan.src, p) && plan.Rebased(p) in g.index
    ensures var k := g.index[plan.Rebased(p)]; k in c.Values && k !in g0.info && k in g.info && !IsLink(g.props, Slot(k, LAST))
  {
    HomeIsBelow(g0.info, plan.src, p);
    SourceAndCopyApart(g0, plan);
    var q := plan.Rebased(p);
    assert plan.Dst() <= q && q !in g0.index;
    var j :| j in c && q == PathOf(plan.Placed(g0.info[j], j));
    assert g.index[q] == c[j] && c[j] in c.Values;
    assert IsCopy(g0, classes, j, g.props, c[j]) && CopyAt(g0, classes, Slot(j, LAST), g.props, Slot(c[j], LAST));
  }

  lemma CopiedOneMore(g0: Graph, classes: Classes, g: Graph, c: map<Id, Id>, plan: Plan, p: Path, i: Id, r: Graph, id: Id)
    requires WF(g) && Copying(g0, classes, g, c, plan) && Home(g0.info, plan.src, p) && Member(g0.info, p, i) && i !in c
    requires i in g.info && IsCloned(g, classes, r, i, plan.Rebased(p), g.info[i].name, id)
    ensures Copying(g0, classes, r, c[i := id], plan)
    ensures At(plan.Rebased(p), g0.info[i].name) in r.index
    ensures forall q :: q in g.index ==> q in r.index
    ensures i in r.info && r.info[i] == g0.info[i]
  {
    PlaceIsFree(g0, g, c, plan, p, i);
    HomeIsACopy(g0, classes, g, c, plan, p);
    InsideTheGroup(g0.info, plan.src, p);
    DestApart(g0, plan, i);
    assert plan.Placed(g0.info[i], i) == g.info[i].(container := plan.Rebased(p), name := g.info[i].name);
    assert Live(g0);
    hide WF, Populated, IsCopy, Sound, Named, OneAdded;
    assert Populated(g0, classes, g, c, plan);
    OneMore(g0, classes, g, c, plan, i, r, id, g.index[plan.Rebased(p)]);
  }

  /** Copy one member of a container, and what is in it if it is a view. */
  method CloneMember(graph: ObjectGraph, classes: Classes, p: Path, q: Path, i: Id, c: map<Id, Id>, ghost g0: Graph, ghost plan: Plan)
    returns (d: map<Id, Id>)
    requires graph.Valid() && Copying(g0, classes, graph.G(), c, plan)
    requires Home(g0.info, plan.src, p) && q == plan.Rebased(p) && q in graph.index
    requires Member(g0.info, p, i) && forall k :: Branch(g0.info, p, i, k) ==> k !in c
    modifies graph
    ensures graph.Valid() && Copying(g0, classes, graph.G(), d, plan)
    ensures forall k :: k in d <==> k in c || Branch(g0.info, p, i, k)
    ensures forall k :: k in c ==> d[k] == c[k]
    ensures forall x :: x in old(graph.index) ==> x in graph.index
    decreases Under(g0.info, p), 0
  {
    hide Copying, WF, Home, Named, At, Inside, Branch, Member, Under, Plan.Rebased, IsCloned;
    BranchParts(g0.info, p, i);
    ReadyToCopy(g0, classes, graph.G(), c, plan, p, i);
    var name := graph.info[i].name;
    // Only a class that builds a panel of its own would have put this there.
    if At(q, name) in graph.index { assert false; }
    ghost var before := graph.G();
    var ok, k := CloneObject(graph, classes, i, q, name);
    CopiedOneMore(g0, classes, before, c, plan, p, i, graph.G(), k);
    d := c[i := k];
    if Opens(graph.info[i]) {
      Deeper(g0, plan, p, i);
      d := CloneMembers(graph, classes, At(p, name), At(q, name), d, g0, plan);
    }
  }

  /** Copy every member of a container. */
  method CloneMembers(graph: ObjectGraph, classes: Classes, p: Path, q: Path, c: map<Id, Id>, ghost g0: Graph, ghost plan: Plan)
    returns (d: map<Id, Id>)
    requires graph.Valid() && Copying(g0, classes, graph.G(), c, plan)
    requires Home(g0.info, plan.src, p) && q == plan.Rebased(p) && q in graph.index
    requires forall i :: Inside(g0.info, p, i) ==> i !in c
    modifies graph
    ensures graph.Valid() && Copying(g0, classes, graph.G(), d, plan)
    ensures forall i :: i in d <==> i in c || Inside(g0.info, p, i)
    ensures forall i :: i in c ==> d[i] == c[i]
    ensures forall x :: x in old(graph.index) ==> x in graph.index
    decreases Under(g0.info, p), 1
  {
    hide Copying, WF, Home, Named, At, Reached, Branch, Inside, Members, Member, Plan.Rebased;
    d := c;
    var todo := Members(graph.info, p);
    ghost var done := {};
    CopyStart(g0, classes, graph.G(), c, plan, p);
    while todo != {}
      invariant graph.Valid() && Copying(g0, classes, graph.G(), d, plan)
      invariant Named(g0.info, plan.src) && Home(g0.info, plan.src, p)
      invariant todo !! done && todo + done == Members(g0.info, p)
      invariant forall i :: i in todo ==> Member(g0.info, p, i)
      invariant forall i :: i in d <==> i in c || Reached(g0.info, p, done, i)
      invariant forall i :: i in c ==> d[i] == c[i]
      invariant forall x :: x in old(graph.index) ==> x in graph.index
      decreases |todo|
    {
      var i :| i in todo;
      NotYet(g0.info, plan.src, p, done, i);
      d := CloneMember(graph, classes, p, q, i, d, g0, plan);
      ReachedMore(g0.info, p, done, i);
      todo, done := todo - {i}, done + {i};
    }
    assert done == Members(g0.info, p);
    ReachedAll(g0.info, p);
  }

  lemma CopyStart(g0: Graph, classes: Classes, g: Graph, c: map<Id, Id>, plan: Plan, p: Path)
    requires Copying(g0, classes, g, c, plan) && Home(g0.info, plan.src, p)
    ensures Members(g.info, p) == Members(g0.info, p) && Named(g0.info, plan.src)
    ensures forall i :: i in Members(g.info, p) ==> Member(g0.info, p, i)
    ensures forall i :: !Reached(g0.info, p, {}, i)
  {
    HomeIsBelow(g0.info, plan.src, p);
    MembersUnmoved(g0, g, c, plan, p);
  }

  lemma NotYet(info: map<Id, Info>, root: Path, p: Path, done: set<Id>, i: Id)
    requires Named(info, root) && Home(info, root, p) && Member(info, p, i) && i !in done
    ensures forall k :: Branch(info, p, i, k) ==> Inside(info, p, k) && !Reached(info, p, done, k)
  {
    InsideTheGroup(info, root, p);
    forall k | Branch(info, p, i, k) ensures Inside(info, p, k) && !Reached(info, p, done, k) {
      InsideIsABranch(info, p, k);
      NotReached(info, p, done, i, k);
    }
  }

  lemma BranchParts(info: map<Id, Info>, p: Path, i: Id)
    requires Member(info, p, i)
    ensures forall k :: Branch(info, p, i, k) <==> k == i || (Opens(info[i]) && Inside(info, At(p, info[i].name), k))
    ensures !Inside(info, At(p, info[i].name), i)
  {
    if Inside(info, At(p, info[i].name), i) { InsideIsBelow(info, At(p, info[i].name), i); }
  }

  lemma Deeper(g0: Graph, plan: Plan, p: Path, i: Id)
    requires Home(g0.info, plan.src, p) && Member(g0.info, p, i) && Opens(g0.info[i])
    ensures Home(g0.info, plan.src, At(p, g0.info[i].name))
    ensures plan.Rebased(At(p, g0.info[i].name)) == At(plan.Rebased(p), g0.info[i].name)
    ensures Under(g0.info, At(p, g0.info[i].name)) < Under(g0.info, p)
  {
    HomeIsBelow(g0.info, plan.src, p);
    InsideTheGroup(g0.info, plan.src, p);
    LessUnder(g0.info, p, i);
    assert At(p, g0.info[i].name)[|plan.src|..] == p[|plan.src|..] + [g0.info[i].name];
  }

  /** Re-make on a copy one link of its source. */
  method CloneRelinkProp(graph: ObjectGraph, o: Slot, clone: Id, c: map<Id, Id>,
                         ghost classes: Classes, ghost g0: Graph, ghost plan: Plan, ghost done: set<Slot>)
    requires graph.Valid() && Relinked(g0, classes, graph.G(), c, plan, done)
    requires IsLink(g0.props, o) && o.inst in c && clone == c[o.inst]
    modifies graph`props
    ensures graph.Valid() && Relinked(g0, classes, graph.G(), c, plan, done + {o})
  {
    ghost var l := g0.props[o].link;
    LinkFacts(g0, classes, graph.G(), c, plan, done, o);
    hide WF, Relinked, Sound, HasCopy, Addressable, IsRelinked, DepthOne;
    ghost var before := graph.G();
    var target := graph.props[o].link.owner;
    var resolved := graph.ResolveNode(o);
    if target in c {
      var made := graph.LinkPropertyAs(clone, o.name, c[target], resolved.name);
    } else {
      var addressable := graph.PathOfInstance(target);
      // Private state of the original: the copy keeps its own.
      if addressable {
        var made := graph.LinkPropertyAs(clone, o.name, target, resolved.name);
      }
    }
    RelinkedOneMore(g0, classes, before, c, plan, done, o, graph.G());
  }

  lemma LinkFacts(g0: Graph, classes: Classes, g: Graph, c: map<Id, Id>, plan: Plan, done: set<Slot>, o: Slot)
    requires WF(g) && Relinked(g0, classes, g, c, plan, done) && IsLink(g0.props, o) && o.inst in c
    ensures var l := g0.props[o].link;
            && o in g.props && g.props[o] == g0.props[o] && Chase(g.props, o, DEPTH) == l.node
            && c[o.inst] in g.info && NoLinkTo(g.props, Slot(c[o.inst], o.name))
            && (l.owner in c ==>
                  Resolve(g.props, c[l.owner], l.node.name) ==
                  (c[l.owner], if HasCopy(g0, classes, l.node) then Node(Slot(c[l.owner], l.node.name)) else Absent)
                  && Slot(c[l.owner], l.node.name) != Slot(c[o.inst], o.name))
            && (l.owner !in c ==>
                  Resolve(g.props, l.owner, l.node.name) == (l.owner, Node(l.node)) && l.node != Slot(c[o.inst], o.name)
                  && (Addressable(g, l.owner) <==> Addressable(g0, l.owner)))
  {
    var l := g0.props[o].link;
    DestApart(g0, plan, o.inst);
    assert l.node in g0.props && l.node.inst == l.owner && g0.props[l.node].link.NoLink? && l.owner in g0.info;
    NotATarget(g0, classes, g, c, plan, done, o);
    TargetResolves(g0, classes, g, c, plan, done, l);
    SamePaths(g0, g, c, plan, l.owner);
    assert Chase(g.props, l.node, DEPTH - 1) == l.node;
    assert c[o.inst] in c.Values;
  }

  function LinksOf(props: map<Slot, Prop>, i: Id): set<Slot> {
    set o | o in props && o.inst == i && IsLink(props, o)
  }

  lemma SameLinks(g0: Graph, g: Graph, i: Id, d: Id)
    requires Live(g0) && Untouched(g0, g, d) && i in g0.info && i != d
    ensures LinksOf(g.props, i) == LinksOf(g0.props, i)
    ensures forall o :: o in LinksOf(g0.props, i) ==> IsLink(g0.props, o) && o.inst == i
  {}

  lemma RelinkedIsSound(g0: Graph, classes: Classes, g: Graph, c: map<Id, Id>, plan: Plan, done: set<Slot>)
    requires Relinked(g0, classes, g, c, plan, done)
    ensures Live(g0) && Untouched(g0, g, Dest(g0, plan)) && Injective(g0, c) && InfoCopied(g0, g, c, plan)
    ensures forall i :: i in c ==> i != Dest(g0, plan)
  {
    forall i | i in c ensures i != Dest(g0, plan) { DestApart(g0, plan, i); }
  }

  lemma SourceIsThere(g0: Graph, c: map<Id, Id>, i: Id)
    requires Injective(g0, c) && i in c
    ensures i in g0.info
  {}

  /** Re-make on a copy every link of its source. */
  method CloneRelinkProps(graph: ObjectGraph, i: Id, clone: Id, c: map<Id, Id>,
                          ghost classes: Classes, ghost g0: Graph, ghost plan: Plan, ghost done: set<Slot>)
    returns (ghost all: set<Slot>)
    requires graph.Valid() && Relinked(g0, classes, graph.G(), c, plan, done) && i in c && clone == c[i]
    modifies graph`props
    ensures graph.Valid() && Relinked(g0, classes, graph.G(), c, plan, all)
    ensures all == done + LinksOf(g0.props, i)
  {
    hide WF, Relinked, Sound, LinksOf, IsLink, Live, Untouched, Injective, InfoCopied, Dest;
    RelinkedIsSound(g0, classes, graph.G(), c, plan, done);
    assert i in g0.info by { SourceIsThere(g0, c, i); }
    SameLinks(g0, graph.G(), i, Dest(g0, plan));
    all := done;
    var todo := LinksOf(graph.props, i);
    while todo != {}
      invariant graph.Valid() && Relinked(g0, classes, graph.G(), c, plan, all)
      invariant todo <= LinksOf(g0.props, i) && all == done + (LinksOf(g0.props, i) - todo)
      decreases |todo|
    {
      var o :| o in todo;
      CloneRelinkProp(graph, o, clone, c, classes, g0, plan, all);
      all, todo := all + {o}, todo - {o};
    }
  }

  /** What a pass over the members needs to know: the copies all stand. */
  ghost predicate Walking(g0: Graph, c: map<Id, Id>, plan: Plan, p: Path) {
    && Sound(g0, plan) && Named(g0.info, plan.src) && OfTheGroup(g0, c, plan) && Home(g0.info, plan.src, p)
    && forall i :: Inside(g0.info, p, i) ==> i in c
  }

  lemma WalkStart(g0: Graph, g: Graph, c: map<Id, Id>, plan: Plan, p: Path)
    requires Walking(g0, c, plan, p) && Injective(g0, c) && InfoCopied(g0, g, c, plan)
    ensures Members(g.info, p) == Members(g0.info, p)
    ensures forall i :: i in Members(g.info, p) ==> Member(g0.info, p, i) && i in g.info && g.info[i] == g0.info[i] && i in c
    ensures forall i :: !Reached(g0.info, p, {}, i)
  {
    HomeIsBelow(g0.info, plan.src, p);
    InsideTheGroup(g0.info, plan.src, p);
    MembersUnmoved(g0, g, c, plan, p);
    forall i | Member(g0.info, p, i) ensures Inside(g0.info, p, i) {}
  }

  lemma WalkDeeper(g0: Graph, c: map<Id, Id>, plan: Plan, p: Path, i: Id)
    requires Walking(g0, c, plan, p) && Member(g0.info, p, i) && Opens(g0.info[i])
    ensures Walking(g0, c, plan, At(p, g0.info[i].name))
    ensures Under(g0.info, At(p, g0.info[i].name)) < Under(g0.info, p)
  {
    Deeper(g0, plan, p, i);
    forall k | Inside(g0.info, At(p, g0.info[i].name), k) ensures k in c {
      HomeThrough(g0.info, p, i, g0.info[k].container);
    }
  }

  /** The second pass, for one member and what is in it. */
  method RelinkMember(graph: ObjectGraph, p: Path, i: Id, c: map<Id, Id>,
                      ghost classes: Classes, ghost g0: Graph, ghost plan: Plan, ghost done: set<Slot>)
    returns (ghost all: set<Slot>)
    requires graph.Valid() && Relinked(g0, classes, graph.G(), c, plan, done) && Walking(g0, c, plan, p)
    requires Member(g0.info, p, i) && i in graph.info && graph.info[i] == g0.info[i] && i in c
    modifies graph`props
    ensures graph.Valid() && Relinked(g0, classes, graph.G(), c, plan, all)
    ensures forall o :: o in all <==> o in done || (IsLink(g0.props, o) && Branch(g0.info, p, i, o.inst))
    decreases Under(g0.info, p), 0
  {
    BranchParts(g0.info, p, i);
    hide WF, Relinked, Sound, Walking, Inside, Branch, At;
    all := CloneRelinkProps(graph, i, c[i], c, classes, g0, plan, done);
    if Opens(graph.info[i]) {
      WalkDeeper(g0, c, plan, p, i);
      all := RelinkMembers(graph, At(p, graph.info[i].name), c, classes, g0, plan, all);
    }
  }

  lemma OneLess(members: set<Id>, todo: set<Id>, i: Id)
    requires i in todo && todo <= members
    ensures members - (todo - {i}) == members - todo + {i}
  {}

  /** The second pass: the links of every member. */
  method RelinkMembers(graph: ObjectGraph, p: Path, c: map<Id, Id>,
                       ghost classes: Classes, ghost g0: Graph, ghost plan: Plan, ghost done: set<Slot>)
    returns (ghost all: set<Slot>)
    requires graph.Valid() && Relinked(g0, classes, graph.G(), c, plan, done) && Walking(g0, c, plan, p)
    modifies graph`props
    ensures graph.Valid() && Relinked(g0, classes, graph.G(), c, plan, all)
    ensures forall o :: o in all <==> o in done || (IsLink(g0.props, o) && Inside(g0.info, p, o.inst))
    decreases Under(g0.info, p), 1
  {
    hide WF, Relinked, Sound, Walking, Reached, Inside, Member, Members, Branch, At, IsLink, Injective, InfoCopied, Untouched, Live,
      Under, Dest, ObjectGraph.Valid;
    RelinkedIsSound(g0, classes, graph.G(), c, plan, done);
    WalkStart(g0, graph.G(), c, plan, p);
    all := done;
    var todo := Members(graph.info, p);
    ghost var members := todo;
    assert members - todo == {};
    while todo != {}
      invariant graph.Valid() && Relinked(g0, classes, graph.G(), c, plan, all)
      invariant todo <= members
      invariant forall o :: o in all <==> o in done || (IsLink(g0.props, o) && Reached(g0.info, p, members - todo, o.inst))
      decreases |todo|
    {
      var i :| i in todo;
      all := RelinkMember(graph, p, i, c, classes, g0, plan, all);
      ReachedMore(g0.info, p, members - todo, i);
      OneLess(members, todo, i);
      todo := todo - {i};
    }
    assert members - todo == Members(g0.info, p);
    ReachedAll(g0.info, p);
  }

  /** What the third pass keeps. */
  ghost predicate Wiring(g0: Graph, classes: Classes, c: map<Id, Id>, plan: Plan, g1: Graph, g: Graph, tried: seq<(Slot, Slot)>) {
    && Sound(g0, plan) && EndsStand(g0, classes, c, g1) && LinksAreBare(g0, c) && InfoCopied(g0, g1, c, plan)
    && Untouched(g0, g1, Dest(g0, plan)) && (forall i :: i in c ==> i != Dest(g0, plan))
    && Rewired(g0, classes, c, Dest(g0, plan), g1, g, tried)
  }

  /** Every wire of the group that starts from a property was tried. */
  ghost predicate Wholly(g0: Graph, c: map<Id, Id>, tried: seq<(Slot, Slot)>, s: Slot) {
    forall t :: GroupWire(g0, c, s, t) ==> (s, t) in tried
  }

  /** Wire a copy for one Subscriber record of its source, if the sink was copied. */
  method CloneConnection(graph: ObjectGraph, s: Slot, t: Slot, c: map<Id, Id>,
                         ghost classes: Classes, ghost g0: Graph, ghost plan: Plan, ghost g1: Graph, ghost tried: seq<(Slot, Slot)>)
    returns (ghost all: seq<(Slot, Slot)>)
    requires graph.Valid() && Wiring(g0, classes, c, plan, g1, graph.G(), tried) && s.inst in c && Wired(g0.props, s, t)
    modifies graph`props, graph`queue
    ensures graph.Valid() && Wiring(g0, classes, c, plan, g1, graph.G(), all) && tried <= all
    ensures t.inst in c ==> (s, t) in all
  {
    all := tried;
    if t.inst in c {
      CopiesStand(g0, classes, c, plan, g1, graph.G(), tried);
      assert GroupWire(g0, c, s, t);
      hide WF, Rewired, EndsStand, LinksAreBare, Connect, HasCopy, InfoCopied, GroupWire, Untouched, Dest, Tidy;
      RewiredOneMore(g0, classes, c, Dest(g0, plan), g1, graph.G(), tried, s, t);
      all := tried + [(s, t)];
      var ok := graph.Connect(c[s.inst], s.name, c[t.inst], t.name);
    }
  }

  lemma CopiesStand(g0: Graph, classes: Classes, c: map<Id, Id>, plan: Plan, g1: Graph, g: Graph, tried: seq<(Slot, Slot)>)
    requires Wiring(g0, classes, c, plan, g1, g, tried)
    ensures forall i :: i in c ==> c[i] in g.info && i in g0.info && i in g.info
    ensures Injective(g0, c) && InfoCopied(g0, g, c, plan) && Dest(g0, plan) in g0.info
  {
    forall i | i in c ensures c[i] in g.info { assert c[i] in c.Values; }
  }

  /** Every wire a source's property starts. */
  method CloneConnectionsOf(graph: ObjectGraph, s: Slot, c: map<Id, Id>,
                            ghost classes: Classes, ghost g0: Graph, ghost plan: Plan, ghost g1: Graph, ghost tried: seq<(Slot, Slot)>)
    returns (ghost all: seq<(Slot, Slot)>)
    requires graph.Valid() && Wiring(g0, classes, c, plan, g1, graph.G(), tried)
    requires s.inst in c && s in g0.props && s in graph.props && graph.props[s] == g0.props[s]
    modifies graph`props, graph`queue
    ensures graph.Valid() && Wiring(g0, classes, c, plan, g1, graph.G(), all) && tried <= all
    ensures Wholly(g0, c, all, s)
  {
    hide WF, Wiring, HasCopy;
    all := tried;
    var subs, k := graph.props[s].subs, 0;
    while k < |subs|
      invariant 0 <= k <= |subs| && graph.Valid() && Wiring(g0, classes, c, plan, g1, graph.G(), all) && tried <= all
      invariant forall j :: 0 <= j < k && subs[j].inst in c ==> (s, subs[j]) in all
    {
      all := CloneConnection(graph, s, subs[k], c, classes, g0, plan, g1, all);
      k := k + 1;
    }
  }

  /** Re-make between the copies the wires that start from one source. */
  method CloneConnections(graph: ObjectGraph, i: Id, c: map<Id, Id>,
                          ghost classes: Classes, ghost g0: Graph, ghost plan: Plan, ghost g1: Graph, ghost tried: seq<(Slot, Slot)>)
    returns (ghost all: seq<(Slot, Slot)>)
    requires graph.Valid() && Wiring(g0, classes, c, plan, g1, graph.G(), tried) && i in c
    modifies graph`props, graph`queue
    ensures graph.Valid() && Wiring(g0, classes, c, plan, g1, graph.G(), all) && tried <= all
    ensures forall s: Slot :: s.inst == i ==> Wholly(g0, c, all, s)
  {
    hide WF, Wiring, Wholly;
    all := tried;
    var todo := PortsOf(graph.props, i);
    SamePorts(g0, classes, c, plan, g1, graph.G(), tried, i);
    ghost var ports := todo;
    while todo != {}
      invariant graph.Valid() && Wiring(g0, classes, c, plan, g1, graph.G(), all) && tried <= all
      invariant todo <= ports && forall s :: s in ports - todo ==> Wholly(g0, c, all, s)
      decreases |todo|
    {
      var s :| s in todo;
      ghost var before := all;
      SamePorts(g0, classes, c, plan, g1, graph.G(), all, i);
      all := CloneConnectionsOf(graph, s, c, classes, g0, plan, g1, all);
      forall x | x in ports - todo ensures Wholly(g0, c, all, x) { StaysWhole(g0, c, before, all, x); }
      todo := todo - {s};
    }
    forall s: Slot | s.inst == i ensures Wholly(g0, c, all, s) {
      if s !in ports { Silent(g0, c, all, s); }
    }
  }

  function PortsOf(props: map<Slot, Prop>, i: Id): set<Slot> {
    set s | s in props && s.inst == i
  }

  lemma SamePorts(g0: Graph, classes: Classes, c: map<Id, Id>, plan: Plan, g1: Graph, g: Graph, tried: seq<(Slot, Slot)>, i: Id)
    requires WF(g) && Wiring(g0, classes, c, plan, g1, g, tried) && i in c
    ensures forall s :: s in PortsOf(g.props, i) ==> s in g0.props && s in g.props && g.props[s] == g0.props[s] && s.inst == i
    ensures forall s: Slot :: s.inst == i && s !in PortsOf(g.props, i) ==> s !in g0.props
  {
    forall s | s in g.props && s.inst == i ensures s in g0.props {
      assert s !in g1.props ==> IsGrown(g0, c, g.props, s);
    }
  }

  lemma StaysWhole(g0: Graph, c: map<Id, Id>, tried: seq<(Slot, Slot)>, all: seq<(Slot, Slot)>, s: Slot)
    requires Wholly(g0, c, tried, s) && tried <= all
    ensures Wholly(g0, c, all, s)
  {}

  lemma Silent(g0: Graph, c: map<Id, Id>, all: seq<(Slot, Slot)>, s: Slot)
    requires s !in g0.props
    ensures Wholly(g0, c, all, s)
  {}

  /** The third pass, for one member and what is in it. */
  method RewireMember(graph: ObjectGraph, p: Path, i: Id, c: map<Id, Id>,
                      ghost classes: Classes, ghost g0: Graph, ghost plan: Plan, ghost g1: Graph, ghost tried: seq<(Slot, Slot)>)
    returns (ghost all: seq<(Slot, Slot)>)
    requires graph.Valid() && Wiring(g0, classes, c, plan, g1, graph.G(), tried) && Walking(g0, c, plan, p)
    requires Member(g0.info, p, i) && i in graph.info && graph.info[i] == g0.info[i] && i in c
    modifies graph`props, graph`queue
    ensures graph.Valid() && Wiring(g0, classes, c, plan, g1, graph.G(), all) && tried <= all
    ensures forall s: Slot :: Branch(g0.info, p, i, s.inst) ==> Wholly(g0, c, all, s)
    decreases Under(g0.info, p), 0
  {
    BranchParts(g0.info, p, i);
    hide WF, Wiring, Walking, Inside, Branch, At, Wholly;
    all := CloneConnections(graph, i, c, classes, g0, plan, g1, tried);
    if Opens(graph.info[i]) {
      WalkDeeper(g0, c, plan, p, i);
      ghost var before := all;
      all := RewireMembers(graph, At(p, graph.info[i].name), c, classes, g0, plan, g1, all);
      forall s: Slot | s.inst == i ensures Wholly(g0, c, all, s) { StaysWhole(g0, c, before, all, s); }
    }
  }

  /** The third pass: the wires of every member. */
  method RewireMembers(graph: ObjectGraph, p: Path, c: map<Id, Id>,
                       ghost classes: Classes, ghost g0: Graph, ghost plan: Plan, ghost g1: Graph, ghost tried: seq<(Slot, Slot)>)
    returns (ghost all: seq<(Slot, Slot)>)
    requires graph.Valid() && Wiring(g0, classes, c, plan, g1, graph.G(), tried) && Walking(g0, c, plan, p)
    modifies graph`props, graph`queue
    ensures graph.Valid() && Wiring(g0, classes, c, plan, g1, graph.G(), all) && tried <= all
    ensures forall s: Slot :: Inside(g0.info, p, s.inst) ==> Wholly(g0, c, all, s)
    decreases Under(g0.info, p), 1
  {
    hide WF, Wiring, Walking, Reached, Inside, Member, Members, Branch, At, Wholly, Injective, InfoCopied;
    CopiesStand(g0, classes, c, plan, g1, graph.G(), tried);
    WalkStart(g0, graph.G(), c, plan, p);
    all := tried;
    var todo := Members(graph.info, p);
    ghost var members := todo;
    assert members - todo == {};
    while todo != {}
      invariant graph.Valid() && Wiring(g0, classes, c, plan, g1, graph.G(), all) && tried <= all
      invariant todo <= members
      invariant forall s: Slot :: Reached(g0.info, p, members - todo, s.inst) ==> Wholly(g0, c, all, s)
      decreases |todo|
    {
      var i :| i in todo;
      ghost var before := all;
      all := RewireMember(graph, p, i, c, classes, g0, plan, g1, all);
      ReachedMore(g0.info, p, members - todo, i);
      forall s: Slot | Reached(g0.info, p, members - todo, s.inst) ensures Wholly(g0, c, all, s) {
        StaysWhole(g0, c, before, all, s);
      }
      OneLess(members, todo, i);
      todo := todo - {i};
    }
    assert members - todo == Members(g0.info, p);
    ReachedAll(g0.info, p);
  }

  // ---- the whole ------------------------------------------------------------------

  /** Clone a thing, and everything in it, into a container outside it. */
  method CloneInstance(graph: ObjectGraph, classes: Classes, source: Id, container: Path)
    returns (ok: bool, top: Id, c: map<Id, Id>, ghost order: seq<(Slot, Slot)>)
    requires graph.Valid() && source in graph.info
    requires var plan := PlanFor(graph.G(), source, container);
             plan.home in graph.index ==> Sound(graph.G(), plan) && Named(graph.info, plan.src) && BareGroup(graph.G(), plan)
    modifies graph
    ensures graph.Valid() && (ok <==> HomeOf(container) in old(graph.index)) && (!ok ==> graph.G() == old(graph.G()))
    ensures ok ==> source in c && c[source] == top
    ensures ok ==> IsClone(old(graph.G()), classes, PlanFor(old(graph.G()), source, container), graph.G(), c, order)
    ensures ok ==> CloneOutcome.Outcome(old(graph.G()), classes, source, container, graph.G(), c)
  {
    hide CloneOutcome.Outcome;
    ghost var g0 := graph.G();
    var src := InstancePath(graph.info[source]);
    var v := graph.info[source];
    var name := graph.MintFreshName(if v.name != "" then v.name else v.cls, container);
    var home := HomeOf(container);
    ghost var plan := PlanFor(g0, source, container);
    assert plan == Plan(source, src, home, name);
    c, order := map[], [];
    ok, top := CloneObject(graph, classes, source, home, name);
    if !ok { return; }
    TopCopied(g0, classes, plan, graph.G(), top);
    hide WF, Copying, Sound, Named, Home, Inside, IsCloned, IsClone, Populated, At, BareGroup, PlanFor;
    c := CloneMembers(graph, classes, src, At(home, name), map[source := top], g0, plan);
    order := JoinUp(graph, source, top, src, c, classes, g0, plan);
    CloneOutcome.CloneComesTo(g0, classes, source, container, graph.G(), c, order);
  }

  /** What is done when every copy is there: the links, then the wires, of the members
      first and then of the top. */
  method JoinUp(graph: ObjectGraph, source: Id, top: Id, src: Path, c: map<Id, Id>,
                ghost classes: Classes, ghost g0: Graph, ghost plan: Plan)
    returns (ghost order: seq<(Slot, Slot)>)
    requires graph.Valid() && Copying(g0, classes, graph.G(), c, plan) && BareGroup(g0, plan)
    requires plan.top == source && plan.src == src && source in c && c[source] == top
    requires forall i :: i in c <==> i == source || Inside(g0.info, src, i)
    modifies graph`props, graph`queue
    ensures graph.Valid() && IsClone(g0, classes, plan, graph.G(), c, order)
  {
    hide WF, Copying, Sound, Named, Home, Inside, IsClone, Relinked, Wiring, Wholly, Populated, At, BareGroup, Walking;
    AllCopied(g0, classes, graph.G(), c, plan);
    ghost var done := RelinkMembers(graph, src, c, classes, g0, plan, {});
    done := CloneRelinkProps(graph, source, top, c, classes, g0, plan, done);
    ghost var g1 := graph.G();
    AllRelinked(g0, classes, g1, c, plan, done);
    order := RewireMembers(graph, src, c, classes, g0, plan, g1, []);
    ghost var before := order;
    order := CloneConnections(graph, source, c, classes, g0, plan, g1, order);
    forall s: Slot | s.inst in c ensures Wholly(g0, c, order, s) {
      if s.inst != source { StaysWhole(g0, c, before, order, s); }
    }
    AllRewired(g0, classes, g1, graph.G(), c, plan, done, order);
  }

  /** A wire to a live pointer, cloned: both ends have copies, and these are not wired. */
  method CloneOfPointed(graph: ObjectGraph, classes: Classes) returns (c: map<Id, Id>)
    requires graph.Valid() && graph.G() == POINTED && forall cls :: classes(cls) == map[]
    modifies graph
    ensures Wired(old(graph.props), Slot(3, "Out"), Slot(4, "Held"))
    ensures 3 in c && 4 in c && !Wired(graph.props, Slot(c[3], "Out"), Slot(c[4], "Held"))
  {
    hide POINTED, IsClone, WF, Sound, Named, BareGroup, PlanFor;
    PointedPlan();
    PointedIsReady();
    PointedInfo();
    PointedIndex();
    ghost var order;
    var ok, top;
    ok, top, c, order := CloneInstance(graph, classes, 2, ["Root"]);
    WireToAPointerIsLost(classes, graph.G(), c, order);
  }

  /** The top is copied; its members are still to come. */
  lemma TopCopied(g0: Graph, classes: Classes, plan: Plan, g: Graph, top: Id)
    requires Sound(g0, plan) && Named(g0.info, plan.src)
    requires IsCloned(g0, classes, g, plan.top, plan.home, plan.name, top)
    ensures Copying(g0, classes, g, map[plan.top := top], plan)
    ensures Home(g0.info, plan.src, plan.src) && At(plan.home, plan.name) == plan.Rebased(plan.src)
    ensures plan.Rebased(plan.src) in g.index
    ensures forall i :: Inside(g0.info, plan.src, i) ==> i != plan.top
  {
    TopIsOutside(g0, plan, plan.src);
    assert plan.src[|plan.src|..] == [];
    assert At(plan.home, plan.name) == plan.Dst() == plan.Rebased(plan.src);
    assert Populated(g0, classes, g0, map[], plan) by { NothingCopied(g0, classes, plan); }
    assert plan.Placed(g0.info[plan.top], plan.top) == g0.info[plan.top].(container := plan.home, name := plan.name);
    OneMore(g0, classes, g0, map[], plan, plan.top, g, top, Dest(g0, plan));
    assert map[][plan.top := top] == map[plan.top := top];
  }

  lemma NothingCopied(g0: Graph, classes: Classes, plan: Plan)
    ensures Populated(g0, classes, g0, map[], plan)
  {}

  lemma AllCopied(g0: Graph, classes: Classes, g: Graph, c: map<Id, Id>, plan: Plan)
    requires Copying(g0, classes, g, c, plan) && forall i :: Inside(g0.info, plan.src, i) ==> i in c
    ensures Relinked(g0, classes, g, c, plan, {}) && Walking(g0, c, plan, plan.src)
  {
    NothingRelinked(g0, classes, g, c, plan);
  }

  lemma AllRelinked(g0: Graph, classes: Classes, g1: Graph, c: map<Id, Id>, plan: Plan, done: set<Slot>)
    requires WF(g1) && Relinked(g0, classes, g1, c, plan, done) && OfTheGroup(g0, c, plan) && BareGroup(g0, plan)
    ensures Wiring(g0, classes, c, plan, g1, g1, [])
  {
    hide WF, EndsStand, IsRelinked, PathsCopied, LinksAreBare, OnlyWires, OfTheGroup, BareGroup, InfoCopied, Wired, Counterpart, Standing, Made;
    CopiesHaveEnds(g0, classes, g1, c, plan, done);
    NoWiresYet(g0, classes, g1, c, plan, done);
    BareLinks(g0, c, plan);
    NothingChangedYet(g0, classes, c, g1, Dest(g0, plan));
    RelinkedIsSound(g0, classes, g1, c, plan, done);
  }

  lemma BareLinks(g0: Graph, c: map<Id, Id>, plan: Plan)
    requires OfTheGroup(g0, c, plan) && BareGroup(g0, plan)
    ensures LinksAreBare(g0, c)
  {}

  lemma NothingChangedYet(g0: Graph, classes: Classes, c: map<Id, Id>, g1: Graph, d: Id)
    requires Untouched(g0, g1, d)
    ensures OnlyWires(g0, c, d, g1, g1) && Standing(g0, classes, c, g1, g1, []) && Made(g0, classes, []) == {}
  {}

  lemma NoWiresYet(g0: Graph, classes: Classes, g1: Graph, c: map<Id, Id>, plan: Plan, done: set<Slot>)
    requires WF(g1) && Relinked(g0, classes, g1, c, plan, done)
    ensures forall u, w :: Wired(g1.props, u, w) <==> Wired(g0.props, u, w) || Counterpart(g0, c, {}, u, w)
  {
    forall u, w ensures Wired(g1.props, u, w) <==> Wired(g0.props, u, w) || Counterpart(g0, c, {}, u, w) {
      if u in g1.props && u !in g0.props { NothingWiredYet(g0, classes, g1, c, plan, done, u); }
    }
  }

  lemma NothingWiredYet(g0: Graph, classes: Classes, g1: Graph, c: map<Id, Id>, plan: Plan, done: set<Slot>, u: Slot)
    requires Relinked(g0, classes, g1, c, plan, done) && u in g1.props && u !in g0.props && Live(g1)
    ensures g1.props[u].subs == []
  {
    if u.inst !in g0.info {
      var j := IsSomeCopy(g0, g1, c, plan, u);
      assert IsRelinked(g0, classes, c, done, j, g1.props);
      assert RelinkedAt(g0, classes, c, done, Slot(j, u.name), g1.props, u);
      CopyPropIsPlain(g0, classes, Slot(j, u.name));
    }
  }

  lemma AllRewired(g0: Graph, classes: Classes, g1: Graph, g: Graph, c: map<Id, Id>, plan: Plan, done: set<Slot>, tried: seq<(Slot, Slot)>)
    requires Relinked(g0, classes, g1, c, plan, done) && Wiring(g0, classes, c, plan, g1, g, tried)
    requires forall i :: i in c <==> i == plan.top || Inside(g0.info, plan.src, i)
    requires forall o: Slot :: IsLink(g0.props, o) && o.inst in c ==> o in done
    requires forall s: Slot :: s.inst in c ==> Wholly(g0, c, tried, s)
    ensures IsClone(g0, classes, plan, g, c, tried)
  {
    forall s, t | GroupWire(g0, c, s, t) ensures (s, t) in tried { assert Wholly(g0, c, tried, s); }
    OutcomeOfWiring(g0, classes, c, Dest(g0, plan), g1, g, tried);
    OutcomeOfCopying(g0, classes, c, plan, done, g1, g, tried);
  }
}
