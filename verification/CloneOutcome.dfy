/** What a clone comes to: who is in it, where the copies stand, what each of their
    properties holds and links to, told from the source's own properties. */
module CloneOutcome {
  import opened Decimal
  import opened GraphModel
  import opened CloneModel
  import Effects

  // ---- who and where ------------------------------------------------------------------

  /** Where a thing is; one at the top level is under /Root. */
  function Spot(v: Info): Path {
    (if v.container == [] then ["Root"] else v.container) + [v.name]
  }

  /** Of everything, the visible members of the source, and those of every named View
      among these. */
  ghost predicate Belongs(g0: Graph, source: Id, c: map<Id, Id>, i: Id)
    requires source in g0.info
  {
    && i in g0.info && !g0.info[i].hidden
    && (g0.info[i].container == Spot(g0.info[source]) || exists v :: v in c && v != source && Contains(g0, v, i))
  }

  /** v is a View with a name, and i stands in it. */
  predicate Contains(g0: Graph, v: Id, i: Id) {
    && v in g0.info && i in g0.info && g0.info[v].cls == "View" && g0.info[v].name != ""
    && g0.info[i].container == g0.info[v].container + [g0.info[v].name]
  }

  ghost predicate TheGroup(g0: Graph, source: Id, c: map<Id, Id>) {
    source in g0.info && forall i :: i in c <==> i == source || Belongs(g0, source, c, i)
  }

  /** The top stands in the container that was named, or under /Root, as the stem of its
      own name or class with the lowest free number. Each of the others stands below the
      copy of the source as its own source stands below that; and is what it is, is
      called what it is called and hides if it hides. Its path leads to it. */
  ghost predicate TheyStand(g0: Graph, source: Id, container: Path, g: Graph, c: map<Id, Id>) {
    && source in c && source in g0.info && c[source] in g.info
    && (forall i :: i in c ==> i in g0.info && c[i] in g.info && c[i] !in g0.info && PlacedAs(g0.info[i], g.info[c[i]]))
    && (forall i, j :: i in c && j in c && c[i] == c[j] ==> i == j)
    && var top := g.info[c[source]];
       && top.container == (if container == [] then ["Root"] else container)
       && Named(g0, container, if g0.info[source].name != "" then g0.info[source].name else g0.info[source].cls, top.name)
       && forall i :: i in c && i != source ==>
            g.info[c[i]].name == g0.info[i].name
            && Parallel(g0.info[i].container, Spot(g0.info[source]), g.info[c[i]].container, top.container + [top.name])
  }

  /** p lies below a as q lies below b. */
  predicate Parallel(p: Path, a: Path, q: Path, b: Path) {
    a <= p && b <= q && p[|a|..] == q[|b|..]
  }

  predicate PlacedAs(v: Info, w: Info) {
    w.cls == v.cls && w.hidden == v.hidden
  }

  /** A name is minted for a thing called, or of a class called, base. */
  ghost predicate Named(g0: Graph, container: Path, base: string, name: string) {
    exists k: nat :: NumberedBy(g0, container, Stem(base), name, k)
  }

  ghost predicate NumberedBy(g0: Graph, container: Path, stem: string, name: string, k: nat) {
    && 1 <= k <= 99999 && name == stem + "_" + ShowNat(k)
    && (forall j :: 1 <= j < k ==> !Effects.Free(g0, container, stem + "_" + ShowNat(j)))
    && (k < 99999 ==> Effects.Free(g0, container, name))
  }

  /** The paths there were lead where they did, and the only new ones are the copies'. */
  ghost predicate PathsLead(g0: Graph, g: Graph, c: map<Id, Id>) {
    && (forall p :: p in g0.index ==> p in g.index && g.index[p] == g0.index[p])
    && (forall p :: p in g.index && p !in g0.index ==>
          g.index[p] in c.Values && g.index[p] in g.info && p == g.info[g.index[p]].container + [g.info[g.index[p]].name])
    && (forall i :: i in c ==>
          c[i] in g.info && (var p := g.info[c[i]].container + [g.info[c[i]].name]; p in g.index && g.index[p] == c[i]))
  }

  // ---- what the copies hold -------------------------------------------------------------

  /** What says where a thing is and how it is doing stays behind. */
  const OWN_NAMES: set<string> := {"", "State", "Name", "Container"}

  /** A live value of the source that goes along. */
  predicate Goes(g0: Graph, o: Slot) {
    o in g0.props && g0.props[o].link.NoLink? && !g0.props[o].value.long && o.name !in OWN_NAMES
  }

  /** What a copy has by birth: what its class declares, or nothing; but a property some
      wire of the group starts from is there. */
  ghost predicate Born(g0: Graph, classes: Classes, g: Graph, c: map<Id, Id>, o: Slot)
    requires o.inst in c && o.inst in g0.info
  {
    var s, declared := Slot(c[o.inst], o.name), classes(g0.info[o.inst].cls);
    if o.name in declared then s in g.props && g.props[s].link.NoLink? && g.props[s].value == declared[o.name]
    else (s in g.props <==> exists t: Slot :: t.inst in c && Wired(g0.props, o, t))
         && (s in g.props ==> g.props[s].link.NoLink? && g.props[s].value == Value("0", false))
  }

  /** A link goes along when what it leads to is copied with it, or can be found by a path. */
  ghost predicate Follows(g0: Graph, classes: Classes, g: Graph, c: map<Id, Id>, o: Slot)
    requires IsLink(g0.props, o) && o.inst in c && o.inst in g0.info
  {
    var s, to := Slot(c[o.inst], o.name), g0.props[o].link.node;
    if to.inst in c && to.inst in g0.info && (Goes(g0, to) || to.name in classes(g0.info[to.inst].cls))
    then s in g.props && g.props[s].link == Link(Slot(c[to.inst], to.name), c[to.inst]) && g.props[s].value.text == ""
    else if to.inst !in c && exists p :: p in g0.index && g0.index[p] == to.inst
    then s in g.props && g.props[s].link == Link(to, to.inst) && g.props[s].value.text == ""
    else Born(g0, classes, g, c, o)
  }

  /** One property of a copy. The last member and the count of wires are the engine's own. */
  ghost predicate Held(g0: Graph, classes: Classes, g: Graph, c: map<Id, Id>, o: Slot)
    requires o.inst in c && o.inst in g0.info
  {
    var s := Slot(c[o.inst], o.name);
    if o.name == "LastMember" || o.name == "Wiring" then
      && (Goes(g0, o) || o.name in classes(g0.info[o.inst].cls) ==> s in g.props) && (s in g.props ==> g.props[s].link.NoLink?)
    else if Goes(g0, o) then
      s in g.props && g.props[s].link.NoLink? && g.props[s].value == Value(g0.props[o].value.text, false)
    else if IsLink(g0.props, o) then Follows(g0, classes, g, c, o)
    else Born(g0, classes, g, c, o)
  }

  ghost predicate AllHeld(g0: Graph, classes: Classes, g: Graph, c: map<Id, Id>) {
    forall o: Slot :: o.inst in c && o.inst in g0.info ==> Held(g0, classes, g, c, o)
  }

  /** Wires between things of the group end, between their copies, where they ended: every
      one to a value that goes along; and there are no others. */
  ghost predicate Wires(g0: Graph, g: Graph, c: map<Id, Id>) {
    && (forall s: Slot, t: Slot :: s.inst in c && t.inst in c && Wired(g0.props, s, t) && Goes(g0, t) ==>
          Wired(g.props, Slot(c[s.inst], s.name), Slot(c[t.inst], t.name)))
    && (forall s: Slot, t: Slot :: s.inst in c && t.inst in c && Wired(g.props, Slot(c[s.inst], s.name), Slot(c[t.inst], t.name)) ==>
          Wired(g0.props, s, t))
    && (forall u, w :: Wired(g0.props, u, w) ==> Wired(g.props, u, w))
    && (forall u, w :: Wired(g.props, u, w) && !Wired(g0.props, u, w) ==> u.inst in c.Values && w.inst in c.Values)
  }

  /** All of it. */
  ghost predicate Outcome(g0: Graph, classes: Classes, source: Id, container: Path, g: Graph, c: map<Id, Id>) {
    && TheGroup(g0, source, c) && TheyStand(g0, source, container, g, c) && PathsLead(g0, g, c)
    && AllHeld(g0, classes, g, c) && Wires(g0, g, c)
  }

  // ---- the proofs -------------------------------------------------------------------------

  lemma HasCopyIsGoes(g0: Graph, classes: Classes, o: Slot)
    requires o.inst in g0.info
    ensures HasCopy(g0, classes, o) <==> Goes(g0, o) || o.name in classes(g0.info[o.inst].cls)
    ensures Goes(g0, o) ==> CopyProp(g0, classes, o).value == Value(g0.props[o].value.text, false)
    ensures !Goes(g0, o) && o.name in classes(g0.info[o.inst].cls) ==> CopyProp(g0, classes, o).value == classes(g0.info[o.inst].cls)[o.name]
  {}

  /** A value the source holds is on the copy, and what it leads to. */
  lemma CloneHolds(g0: Graph, classes: Classes, plan: Plan, g: Graph, c: map<Id, Id>, order: seq<(Slot, Slot)>)
    requires WF(g0) && IsClone(g0, classes, plan, g, c, order)
    ensures AllHeld(g0, classes, g, c)
  {
    hide IsClone, CopiedAt, Held, WF;
    forall o: Slot | o.inst in c && o.inst in g0.info ensures Held(g0, classes, g, c, o) {
      var s := Slot(c[o.inst], o.name);
      assert o == Slot(o.inst, s.name);
      CopiedHere(g0, classes, plan, g, c, order, o);
      OneHeld(g0, classes, g, c, o);
    }
  }

  lemma CopiedHere(g0: Graph, classes: Classes, plan: Plan, g: Graph, c: map<Id, Id>, order: seq<(Slot, Slot)>, o: Slot)
    requires IsClone(g0, classes, plan, g, c, order) && o.inst in c
    ensures CopiedAt(g0, classes, c, o, g.props, Slot(c[o.inst], o.name))
  {
    hide CopiedAt, WiresCopied, Untouched, InfoCopied, PathsCopied;
    var s := Slot(c[o.inst], o.name);
    assert o == Slot(o.inst, s.name);
  }

  lemma OneHeld(g0: Graph, classes: Classes, g: Graph, c: map<Id, Id>, o: Slot)
    requires WF(g0) && o.inst in c && o.inst in g0.info && CopiedAt(g0, classes, c, o, g.props, Slot(c[o.inst], o.name))
    ensures Held(g0, classes, g, c, o)
  {
    hide HasCopy, CopyProp, Speaks, Paired, QueueOk, Addressable;
    HasCopyIsGoes(g0, classes, o);
    assert Speaks(g0, c, o) <==> exists t: Slot :: t.inst in c && Wired(g0.props, o, t) by { SpeaksTo(g0, c, o); }
    if IsLink(g0.props, o) {
      var to := g0.props[o].link.node;
      assert to in g0.props && to.inst in g0.info && to.inst == g0.props[o].link.owner;
      HasCopyIsGoes(g0, classes, to);
      AddressableIff(g0, to.inst);
    }
  }

  lemma SpeaksTo(g0: Graph, c: map<Id, Id>, o: Slot)
    requires o.inst in c
    ensures Speaks(g0, c, o) <==> exists t: Slot :: t.inst in c && Wired(g0.props, o, t)
  {
    if t: Slot :| t.inst in c && Wired(g0.props, o, t) { assert GroupWire(g0, c, o, t); }
  }

  lemma AddressableIff(g: Graph, x: Id)
    requires WF(g)
    ensures Addressable(g, x) <==> exists p :: p in g.index && g.index[p] == x
  {}

  lemma CloneGroups(g0: Graph, plan: Plan, source: Id, c: map<Id, Id>)
    requires Sound(g0, plan) && plan.top == source && forall i :: i in c <==> i == source || Inside(g0.info, plan.src, i)
    ensures TheGroup(g0, source, c)
  {
    hide WF, Tidy, Home;
    assert plan.src == Spot(g0.info[source]);
    TopIsOutside(g0, plan, plan.src);
    forall i ensures i in c <==> i == source || Belongs(g0, source, c, i) {
      if i in c && i != source { InsideBelongs(g0, plan, source, c, i); }
      if Belongs(g0, source, c, i) { BelongingIsInside(g0, plan, source, c, i); }
    }
  }

  lemma InsideBelongs(g0: Graph, plan: Plan, source: Id, c: map<Id, Id>, i: Id)
    requires source in g0.info && plan.src == Spot(g0.info[source]) && Inside(g0.info, plan.src, i)
    requires forall i :: i in c <==> i == source || Inside(g0.info, plan.src, i)
    requires !Inside(g0.info, plan.src, source)
    ensures Belongs(g0, source, c, i)
  {
    var p := g0.info[i].container;
    if p != plan.src {
      var up := p[..|p| - 1];
      var v :| Member(g0.info, up, v) && Opens(g0.info[v]) && g0.info[v].name == p[|p| - 1];
      assert p == up + [p[|p| - 1]];
      assert Inside(g0.info, plan.src, v) && Contains(g0, v, i);
    }
  }

  lemma BelongingIsInside(g0: Graph, plan: Plan, source: Id, c: map<Id, Id>, i: Id)
    requires source in g0.info && plan.src == Spot(g0.info[source]) && Belongs(g0, source, c, i)
    requires forall i :: i in c <==> i == source || Inside(g0.info, plan.src, i)
    ensures i in c
  {
    if g0.info[i].container == plan.src {
      HomeAtRoot(g0.info, plan.src);
    } else {
      var v :| v in c && v != source && Contains(g0, v, i);
      InsideTheGroup(g0.info, plan.src, g0.info[v].container);
      assert Member(g0.info, g0.info[v].container, v);
      assert g0.info[i].container == At(g0.info[v].container, g0.info[v].name);
    }
  }

  lemma CloneStands(g0: Graph, plan: Plan, source: Id, container: Path, g: Graph, c: map<Id, Id>)
    requires Sound(g0, plan) && source in g0.info && plan == PlanFor(g0, source, container)
    requires forall i :: i in c <==> i == source || Inside(g0.info, plan.src, i)
    requires Injective(g0, c) && InfoCopied(g0, g, c, plan)
    ensures TheyStand(g0, source, container, g, c)
  {
    CopiesPlaced(g0, g, c, plan);
    PlanIs(g0, source, container);
    TopNamed(g0, source, container);
    hide PlanFor, Sound, InfoCopied, Inside, Named, Spot, Parallel;
    forall i | i in c && i != source ensures Parallel(g0.info[i].container, plan.src, g.info[c[i]].container, plan.Dst()) {
      InsideIsBelow(g0.info, plan.src, i);
      RebasedBelow(plan, g0.info[i].container);
    }
  }

  lemma CopiesPlaced(g0: Graph, g: Graph, c: map<Id, Id>, plan: Plan)
    requires Injective(g0, c) && InfoCopied(g0, g, c, plan)
    ensures forall i :: i in c ==> c[i] in g.info && c[i] !in g0.info && g.info[c[i]] == plan.Placed(g0.info[i], i)
  {
    forall i | i in c ensures c[i] in g.info { assert c[i] in c.Values; }
  }

  lemma PlanIs(g0: Graph, source: Id, container: Path)
    requires source in g0.info
    ensures var plan := PlanFor(g0, source, container);
            plan.top == source && plan.src == Spot(g0.info[source]) && plan.home == if container == [] then ["Root"] else container
  {
    hide Mint, Stem;
  }

  lemma TopNamed(g0: Graph, source: Id, container: Path)
    requires source in g0.info
    ensures var v := g0.info[source]; Named(g0, container, if v.name != "" then v.name else v.cls, PlanFor(g0, source, container).name)
  {
    hide Effects.Free, Mint, Stem;
    var v := g0.info[source];
    var base := if v.name != "" then v.name else v.cls;
    var k := Effects.MintIsLowest(g0, container, Stem(base));
    assert NumberedBy(g0, container, Stem(base), PlanFor(g0, source, container).name, k);
  }

  lemma RebasedBelow(plan: Plan, p: Path)
    requires plan.src <= p
    ensures Parallel(p, plan.src, plan.Rebased(p), plan.Dst())
  {
    var rest := p[|plan.src|..];
    assert plan.Rebased(p)[|plan.Dst()|..] == rest;
  }

  lemma CloneLeads(g0: Graph, plan: Plan, g: Graph, c: map<Id, Id>)
    requires Injective(g0, c) && InfoCopied(g0, g, c, plan) && PathsCopied(g0, g, c, plan)
    ensures PathsLead(g0, g, c)
  {
    forall i | i in c ensures c[i] in g.info && g.info[c[i]] == plan.Placed(g0.info[i], i) { assert c[i] in c.Values; }
  }

  lemma CloneWires(g0: Graph, classes: Classes, plan: Plan, g: Graph, c: map<Id, Id>, order: seq<(Slot, Slot)>)
    requires WF(g0) && IsClone(g0, classes, plan, g, c, order)
    ensures Wires(g0, g, c)
  {
    hide CopiedAt, InfoCopied, PathsCopied, Made, HasCopy, Goes;
    forall s: Slot, t: Slot | s.inst in c && t.inst in c && Wired(g0.props, s, t) && Goes(g0, t)
      ensures Wired(g.props, Slot(c[s.inst], s.name), Slot(c[t.inst], t.name))
    {
      HasCopyIsGoes(g0, classes, t);
      assert GroupWire(g0, c, s, t) && (s, t) in order;
      HeardIsMade(g0, classes, order, (s, t));
    }
    forall s: Slot, t: Slot | s.inst in c && t.inst in c && Wired(g.props, Slot(c[s.inst], s.name), Slot(c[t.inst], t.name))
      ensures Wired(g0.props, s, t)
    {
      assert !Wired(g0.props, Moved(c, s), Moved(c, t));
      var a, b :| GroupWire(g0, c, a, b) && Moved(c, s) == Moved(c, a) && Moved(c, t) == Moved(c, b);
      assert a == s && b == t;
    }
  }

  /** What CloneInstance leaves behind comes to that. */
  lemma CloneComesTo(g0: Graph, classes: Classes, source: Id, container: Path, g: Graph, c: map<Id, Id>, order: seq<(Slot, Slot)>)
    requires source in g0.info && Sound(g0, PlanFor(g0, source, container))
    requires IsClone(g0, classes, PlanFor(g0, source, container), g, c, order)
    ensures Outcome(g0, classes, source, container, g, c)
  {
    var plan := PlanFor(g0, source, container);
    CloneParts(g0, classes, plan, g, c, order);
    hide IsClone, Sound, WF, InfoCopied, PathsCopied, PlanFor, TheGroup, TheyStand, PathsLead, AllHeld, Wires, Inside;
    assert WF(g0) by { SoundIsWF(g0, plan); }
    PlanTop(g0, source, container);
    CloneGroups(g0, plan, source, c);
    CloneStands(g0, plan, source, container, g, c);
    CloneLeads(g0, plan, g, c);
    CloneHolds(g0, classes, plan, g, c, order);
    CloneWires(g0, classes, plan, g, c, order);
  }

  lemma CloneParts(g0: Graph, classes: Classes, plan: Plan, g: Graph, c: map<Id, Id>, order: seq<(Slot, Slot)>)
    requires IsClone(g0, classes, plan, g, c, order)
    ensures (forall i :: i in c <==> i == plan.top || Inside(g0.info, plan.src, i))
    ensures Injective(g0, c) && InfoCopied(g0, g, c, plan) && PathsCopied(g0, g, c, plan)
  {}

  lemma SoundIsWF(g0: Graph, plan: Plan)
    requires Sound(g0, plan)
    ensures WF(g0)
  {}

  lemma PlanTop(g0: Graph, source: Id, container: Path)
    requires source in g0.info
    ensures PlanFor(g0, source, container).top == source
  {}
}
