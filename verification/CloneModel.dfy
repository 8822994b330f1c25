/** Cloning a thing and everything in it (CloneInstance of src/object.c): which
    instances belong to the group, what a copy is, and what the three passes
    leave behind. */
module CloneModel {
  import opened Decimal
  import opened GraphModel

  /** The properties an instance of a class is born with. */
  type Classes = string -> map<string, Value>

  // ---- the group --------------------------------------------------------------

  predicate Member(info: map<Id, Info>, p: Path, i: Id) {
    i in info && info[i].container == p && !info[i].hidden
  }

  /** Only a named View is looked into. */
  predicate Opens(v: Info) {
    v.cls == "View" && v.name != ""
  }

  /** A path reached from root by going into one View after another. */
  ghost predicate Home(info: map<Id, Info>, root: Path, p: Path)
    decreases |p|
  {
    p == root ||
    (|root| < |p| && Home(info, root, p[..|p| - 1]) &&
     exists v :: Member(info, p[..|p| - 1], v) && Opens(info[v]) && info[v].name == p[|p| - 1])
  }

  ghost predicate Inside(info: map<Id, Info>, root: Path, i: Id) {
    i in info && !info[i].hidden && Home(info, root, info[i].container)
  }

  /** Member j of p is i itself, or the View that leads to i. */
  ghost predicate Branch(info: map<Id, Info>, p: Path, j: Id, i: Id) {
    Member(info, p, j) && (i == j || (Opens(info[j]) && Inside(info, At(p, info[j].name), i)))
  }

  /** Everything contained below p, whether it can be seen or not. */
  function Under(info: map<Id, Info>, p: Path): set<Id> {
    set i | i in info && p <= info[i].container
  }

  /** Within the group every instance has a name of its own in its container. */
  ghost predicate Named(info: map<Id, Info>, p: Path) {
    && (forall i :: Inside(info, p, i) ==> info[i].name != "")
    && (forall i, j :: Inside(info, p, i) && Inside(info, p, j) && PathOf(info[i]) == PathOf(info[j]) ==> i == j)
  }

  lemma {:induction false} HomeIsBelow(info: map<Id, Info>, root: Path, p: Path)
    requires Home(info, root, p)
    ensures root <= p
    decreases |p|
  {
    if p != root { HomeIsBelow(info, root, p[..|p| - 1]); }
  }

  lemma {:induction false} HomeThrough(info: map<Id, Info>, root: Path, v: Id, p: Path)
    requires Member(info, root, v) && Opens(info[v]) && Home(info, At(root, info[v].name), p)
    ensures Home(info, root, p)
    decreases |p|
  {
    var next := At(root, info[v].name);
    if p == next {
      assert p[..|p| - 1] == root;
    } else {
      HomeThrough(info, root, v, p[..|p| - 1]);
    }
  }

  lemma {:induction false} HomeSplits(info: map<Id, Info>, root: Path, p: Path) returns (v: Id)
    requires Home(info, root, p) && p != root
    ensures Member(info, root, v) && Opens(info[v]) && Home(info, At(root, info[v].name), p)
    decreases |p|
  {
    var up := p[..|p| - 1];
    if up == root {
      v :| Member(info, up, v) && Opens(info[v]) && info[v].name == p[|p| - 1];
      assert p == At(root, info[v].name);
    } else {
      v := HomeSplits(info, root, up);
      HomeIsBelow(info, At(root, info[v].name), up);
    }
  }

  /** The walk from the top finds exactly what is inside. */
  lemma InsideIsABranch(info: map<Id, Info>, p: Path, i: Id)
    ensures Inside(info, p, i) <==> exists j :: Branch(info, p, j, i)
  {
    if Inside(info, p, i) {
      if info[i].container == p {
        assert Branch(info, p, i, i);
      } else {
        var v := HomeSplits(info, p, info[i].container);
        assert Branch(info, p, v, i);
      }
    }
    if j :| Branch(info, p, j, i) {
      if i != j { HomeThrough(info, p, j, info[i].container); }
    }
  }

  /** Different members lead to different things. */
  lemma BranchesDiffer(info: map<Id, Info>, p: Path, j: Id, k: Id, i: Id)
    requires Named(info, p) && Branch(info, p, j, i) && Branch(info, p, k, i)
    ensures j == k
  {
    if i == j && i != k { HomeIsBelow(info, At(p, info[k].name), info[i].container); }
    if i == k && i != j { HomeIsBelow(info, At(p, info[j].name), info[i].container); }
    if i != j && i != k {
      HomeIsBelow(info, At(p, info[j].name), info[i].container);
      HomeIsBelow(info, At(p, info[k].name), info[i].container);
      assert info[i].container[|p|] == info[j].name == info[k].name;
      InsideIsABranch(info, p, j);
      InsideIsABranch(info, p, k);
      assert Branch(info, p, j, j) && Branch(info, p, k, k);
    }
  }

  function Members(info: map<Id, Info>, p: Path): set<Id> {
    set i | i in info && Member(info, p, i)
  }

  /** i has been reached when the walk is through with the members in done. */
  ghost predicate Reached(info: map<Id, Info>, p: Path, done: set<Id>, i: Id) {
    exists j :: j in done && Branch(info, p, j, i)
  }

  lemma ReachedMore(info: map<Id, Info>, p: Path, done: set<Id>, j: Id)
    requires Member(info, p, j)
    ensures forall i :: Reached(info, p, done + {j}, i) <==>
              Reached(info, p, done, i) || Branch(info, p, j, i)
  {
    forall i ensures Reached(info, p, done + {j}, i) <==> Reached(info, p, done, i) || Branch(info, p, j, i) {
      if k :| k in done && Branch(info, p, k, i) { assert k in done + {j}; }
      if Branch(info, p, j, i) { assert j in done + {j}; }
    }
  }

  lemma ReachedAll(info: map<Id, Info>, p: Path)
    ensures forall i :: Reached(info, p, Members(info, p), i) <==> Inside(info, p, i)
  {
    forall i ensures Reached(info, p, Members(info, p), i) <==> Inside(info, p, i) {
      InsideIsABranch(info, p, i);
      if j :| Branch(info, p, j, i) { assert j in Members(info, p); }
    }
  }

  /** Nothing below a member still to come has been reached. */
  lemma NotReached(info: map<Id, Info>, p: Path, done: set<Id>, j: Id, i: Id)
    requires Named(info, p) && j !in done && Branch(info, p, j, i)
    ensures !Reached(info, p, done, i)
  {
    if k :| k in done && Branch(info, p, k, i) { BranchesDiffer(info, p, j, k, i); }
  }

  lemma {:induction false} HomeJoins(info: map<Id, Info>, root: Path, p: Path, q: Path)
    requires Home(info, root, p) && Home(info, p, q)
    ensures Home(info, root, q)
    decreases |q|
  {
    HomeIsBelow(info, root, p);
    HomeIsBelow(info, p, q);
    if p != q { HomeJoins(info, root, p, q[..|q| - 1]); }
  }

  /** What is inside a container of the group is inside the group. */
  lemma InsideTheGroup(info: map<Id, Info>, root: Path, p: Path)
    requires Home(info, root, p)
    ensures forall i :: Inside(info, p, i) ==> Inside(info, root, i)
    ensures forall v :: Member(info, p, v) ==> Inside(info, root, v)
    ensures forall v :: Member(info, p, v) && Opens(info[v]) ==> Home(info, root, At(p, info[v].name))
    ensures Named(info, root) ==> Named(info, p)
  {
    forall i | Inside(info, p, i) ensures Inside(info, root, i) { HomeJoins(info, root, p, info[i].container); }
    forall v | Member(info, p, v) && Opens(info[v]) ensures Home(info, root, At(p, info[v].name)) {
      HomeIsBelow(info, root, p);
      assert At(p, info[v].name)[..|p|] == p;
    }
  }

  lemma LessUnder(info: map<Id, Info>, p: Path, v: Id)
    requires Member(info, p, v)
    ensures Under(info, At(p, info[v].name)) < Under(info, p)
  {
    assert v in Under(info, p) && v !in Under(info, At(p, info[v].name));
  }

  // ---- one copy -----------------------------------------------------------------

  /** A property whose value goes to the copy: not a live pointer, not a link, not
      the lifecycle, and not what says where a thing is. */
  predicate Portable(props: map<Slot, Prop>, s: Slot) {
    && s in props && s.name != "" && !props[s].value.long && props[s].link.NoLink?
    && s.name != "State" && s.name != "Name" && s.name != "Container"
  }

  /** The copy of an instance has a property when its class declares it or the
      source carries it. */
  predicate HasCopy(g: Graph, classes: Classes, s: Slot) {
    s.inst in g.info && (s.name in classes(g.info[s.inst].cls) || Portable(g.props, s))
  }

  function CopyProp(g: Graph, classes: Classes, s: Slot): Prop
    requires HasCopy(g, classes, s)
  {
    Prop(if Portable(g.props, s) then Value(g.props[s].value.text, false) else classes(g.info[s.inst].cls)[s.name],
         NoLink, [], [])
  }

  /** A plain property: no link, no wire. */
  predicate Plain(p: Prop) {
    p.link.NoLink? && p.subs == [] && p.backs == []
  }

  /** The copy's properties are those and no others, values alone; but a container
      that is filled is told so, in its LastMember. */
  ghost predicate IsCopy(g0: Graph, classes: Classes, i: Id, props: map<Slot, Prop>, id: Id) {
    forall s: Slot :: s.inst == id ==> CopyAt(g0, classes, Slot(i, s.name), props, s)
  }

  ghost predicate CopyAt(g0: Graph, classes: Classes, o: Slot, props: map<Slot, Prop>, s: Slot) {
    if s.name == LAST then (HasCopy(g0, classes, o) ==> s in props) && (s in props ==> Plain(props[s]))
    else (s in props <==> HasCopy(g0, classes, o)) && (s in props ==> props[s] == CopyProp(g0, classes, o))
  }

  // ---- where the copies go ------------------------------------------------------

  /** The top goes to home under a minted name; src is where its members are. */
  datatype Plan = Plan(top: Id, src: Path, home: Path, name: string) {
    function Dst(): Path { home + [name] }

    function Placed(info: Info, i: Id): Info {
      if i == top then info.(container := home, name := name)
      else info.(container := Rebased(info.container))
    }

    function Rebased(p: Path): Path {
      if src <= p then Dst() + p[|src|..] else p
    }
  }

  /** A thing at the top level lives under /Root. */
  function InstancePath(v: Info): Path {
    if v.container == [] then ["Root", v.name] else v.container + [v.name]
  }

  /** Where a clone of source into a container goes, and under which name. */
  ghost function PlanFor(g: Graph, source: Id, container: Path): Plan
    requires source in g.info
  {
    var v := g.info[source];
    Plan(source, InstancePath(v), HomeOf(container), Mint(g, container, Stem(if v.name != "" then v.name else v.cls), 1))
  }

  /** The instance the copy goes into. */
  function Dest(g: Graph, plan: Plan): Id {
    if plan.home in g.index then g.index[plan.home] else 0
  }

  /** What the engine itself writes on the things involved is a property of their own. */
  ghost predicate Tidy(g: Graph, plan: Plan) {
    && !IsLink(g.props, Slot(Dest(g, plan), LAST))
    && forall i :: i == plan.top || Inside(g.info, plan.src, i) ==> TidyOn(g.props, i)
  }

  predicate TidyOn(props: map<Slot, Prop>, i: Id) {
    && !IsLink(props, Slot(i, LAST)) && !IsLink(props, Slot(i, WIRING))
    && (Slot(i, LAST) in props ==> !props[Slot(i, LAST)].value.long)
  }

  predicate IsLink(props: map<Slot, Prop>, o: Slot) {
    o in props && props[o].link.Link?
  }

  /** The destination is there and lies outside the source, and nothing is there yet. */
  ghost predicate Sound(g: Graph, plan: Plan) {
    && Fits(g, plan) && plan.home in g.index && Tidy(g, plan) && Dest(g, plan) != plan.top
  }

  ghost predicate Fits(g: Graph, plan: Plan) {
    && WF(g) && plan.top in g.info && plan.src == InstancePath(g.info[plan.top]) && plan.home != []
    && !(plan.src <= plan.Dst()) && plan.Dst() !in g.index
    && forall i :: i in g.info ==> !(plan.Dst() <= g.info[i].container)
  }

  /** Nothing of the group is the destination. */
  lemma DestApart(g: Graph, plan: Plan, i: Id)
    requires Sound(g, plan) && (i == plan.top || Inside(g.info, plan.src, i))
    ensures i != Dest(g, plan)
  {
    SourceAndCopyApart(g, plan);
    var d := Dest(g, plan);
    assert PathOf(g.info[d]) == plan.home && g.info[d].container == plan.home[..|plan.home| - 1];
    if Inside(g.info, plan.src, d) { InsideIsBelow(g.info, plan.src, d); }
  }

  lemma SourceAndCopyApart(g: Graph, plan: Plan)
    requires Fits(g, plan)
    ensures !(plan.Dst() <= plan.src) && !(plan.src <= plan.home)
    ensures forall p :: p in g.index ==> !(plan.Dst() <= p)
  {
    assert plan.src <= plan.home ==> plan.src <= plan.Dst();
    var c := g.info[plan.top].container;
    assert plan.Dst() <= plan.src && plan.Dst() != plan.src && c != [] ==> plan.Dst() <= c;
    forall p | p in g.index ensures !(plan.Dst() <= p) {
      var k := g.info[g.index[p]];
      assert PathOf(k) == p;
      assert plan.Dst() <= p && p != plan.Dst() ==> plan.Dst() <= k.container;
    }
  }

  // ---- after the first pass -------------------------------------------------------

  /** Who copies whom: every source has one copy, every copy one source, and the
      copies are all new. */
  ghost predicate Injective(g0: Graph, c: map<Id, Id>) {
    && (forall i :: i in c ==> i in g0.info && c[i] !in g0.info)
    && (forall i, j :: i in c && j in c && c[i] == c[j] ==> i == j)
  }

  ghost predicate InfoCopied(g0: Graph, g: Graph, c: map<Id, Id>, plan: Plan)
    requires Injective(g0, c)
  {
    && (forall k :: k in g.info <==> k in g0.info || k in c.Values)
    && (forall k :: k in g0.info ==> g.info[k] == g0.info[k])
    && (forall i :: i in c ==> g.info[c[i]] == plan.Placed(g0.info[i], i))
  }

  ghost predicate PathsCopied(g0: Graph, g: Graph, c: map<Id, Id>, plan: Plan)
    requires Injective(g0, c)
  {
    && (forall p :: p in g.index <==> p in g0.index || exists i :: i in c && p == PathOf(plan.Placed(g0.info[i], i)))
    && (forall p :: p in g0.index ==> g.index[p] == g0.index[p])
    && (forall i :: i in c ==> g.index[PathOf(plan.Placed(g0.info[i], i))] == c[i])
  }

  /** A message that says the container was filled, or that a copy was wired. */
  ghost predicate Word(g0: Graph, env: Envelope, d: Id) {
    && env.outPort == Node(Slot(env.sender, if env.sender == d then LAST else WIRING))
    && (env.sender == d || env.sender !in g0.info)
  }

  /** The messages that were queued still are, and behind them are such words only. */
  ghost predicate Announced(g0: Graph, queue: seq<Envelope>, d: Id) {
    && g0.queue <= queue
    && forall k :: |g0.queue| <= k < |queue| ==> Word(g0, queue[k], d)
  }

  /** Nothing of what was there before has changed, but that the container, d, has been
      told of its new member. */
  ghost predicate Untouched(g0: Graph, g: Graph, d: Id) {
    && Announced(g0, g.queue, d)
    && (forall s :: s in g0.props ==> s in g.props && g.props[s] == g0.props[s].(value := g.props[s].value))
    && (forall s :: s in g0.props && s != Slot(d, LAST) ==> g.props[s] == g0.props[s])
    && (forall s :: s in g.props && s !in g0.props ==> s.inst !in g0.info || (s == Slot(d, LAST) && Plain(g.props[s])))
  }

  ghost predicate Populated(g0: Graph, classes: Classes, g: Graph, c: map<Id, Id>, plan: Plan) {
    && Injective(g0, c) && InfoCopied(g0, g, c, plan) && PathsCopied(g0, g, c, plan) && Untouched(g0, g, Dest(g0, plan))
    && forall i :: i in c ==> IsCopy(g0, classes, i, g.props, c[i])
  }

  /** One instance more, id, in a container, k, that is told; nothing else is different. */
  ghost predicate OneAdded(g: Graph, r: Graph, id: Id, k: Id) {
    var last := Slot(k, LAST);
    && (forall s :: s in g.props ==> s in r.props && r.props[s] == g.props[s].(value := r.props[s].value))
    && (forall s :: s in g.props && s != last ==> r.props[s] == g.props[s])
    && (forall s :: s in r.props && s !in g.props ==> s.inst == id || (s == last && Plain(r.props[s])))
    && (r.queue == g.queue ||
        (last in g.props && g.props[last].subs != [] && |r.queue| == |g.queue| + 1 && g.queue <= r.queue
         && r.queue[|g.queue|].sender == k && r.queue[|g.queue|].outPort == Node(last)))
  }

  /** One more source copied, in its place, on a new instance. */
  lemma OneMore(g0: Graph, classes: Classes, g: Graph, c: map<Id, Id>, plan: Plan, i: Id, r: Graph, id: Id, k: Id)
    requires Live(g0) && Populated(g0, classes, g, c, plan) && i in g0.info && i !in c && id !in g.info && i != Dest(g0, plan)
    requires r.info == g.info[id := plan.Placed(g0.info[i], i)]
    requires PathOf(plan.Placed(g0.info[i], i)) !in g.index
    requires r.index == g.index[PathOf(plan.Placed(g0.info[i], i)) := id]
    requires OneAdded(g, r, id, k) && (k == Dest(g0, plan) || k in c.Values) && k in g.info
    requires IsCopy(g, classes, i, r.props, id)
    ensures Populated(g0, classes, r, c[i := id], plan)
  {
    hide CopyProp, HasCopy;
    InfoMore(g0, g, c, plan, i, r, id);
    PathsMore(g0, g, c, plan, i, r, id);
    SameCopy(g0, classes, g, i, r.props, id, Dest(g0, plan));
    CopiesStay(g0, classes, g, r, c, id, k);
    UntouchedMore(g0, classes, g, c, plan, r, id, k);
    hide PathsCopied, IsCopy, InfoCopied, Injective, Untouched, OneAdded;
  }

  /** Telling the container changes its LastMember, and telling a copy nothing that was
      there. */
  lemma UntouchedMore(g0: Graph, classes: Classes, g: Graph, c: map<Id, Id>, plan: Plan, r: Graph, id: Id, k: Id)
    requires Live(g0) && Populated(g0, classes, g, c, plan) && id !in g.info && OneAdded(g, r, id, k)
    requires k == Dest(g0, plan) || k in c.Values
    ensures Untouched(g0, r, Dest(g0, plan))
  {
    hide PathsCopied;
    var d, last := Dest(g0, plan), Slot(k, LAST);
    assert id !in g0.info;
    if k != d {
      var j :| j in c && c[j] == k;
      assert IsCopy(g0, classes, j, g.props, k) && CopyAt(g0, classes, Slot(j, LAST), g.props, last);
      assert k !in g0.info && r.queue == g.queue;
    }
    hide IsCopy, CopyAt, InfoCopied;
    WordsMore(g0, g, r, d, k);
  }

  lemma WordsMore(g0: Graph, g: Graph, r: Graph, d: Id, k: Id)
    requires Announced(g0, g.queue, d)
    requires r.queue == g.queue || (k == d && |r.queue| == |g.queue| + 1 && g.queue <= r.queue
               && r.queue[|g.queue|].sender == k && r.queue[|g.queue|].outPort == Node(Slot(k, LAST)))
    ensures Announced(g0, r.queue, d)
  {
    forall i | |g0.queue| <= i < |r.queue| ensures Word(g0, r.queue[i], d) {
      assert i < |g.queue| ==> r.queue[i] == g.queue[i];
    }
  }

  lemma InfoMore(g0: Graph, g: Graph, c: map<Id, Id>, plan: Plan, i: Id, r: Graph, id: Id)
    requires Injective(g0, c) && InfoCopied(g0, g, c, plan) && i in g0.info && i !in c && id !in g.info
    requires r.info == g.info[id := plan.Placed(g0.info[i], i)]
    ensures Injective(g0, c[i := id]) && InfoCopied(g0, r, c[i := id], plan)
  {
    var d := c[i := id];
    forall k ensures k in d.Values <==> k in c.Values || k == id {
      if k == id { assert d[i] == id; }
      if k in c.Values {
        var j :| j in c && c[j] == k;
        assert d[j] == k;
      }
    }
  }

  lemma CopiesStay(g0: Graph, classes: Classes, g: Graph, r: Graph, c: map<Id, Id>, id: Id, k: Id)
    requires OneAdded(g, r, id, k)
    requires forall i :: i in c ==> c[i] != id && IsCopy(g0, classes, i, g.props, c[i])
    ensures forall i :: i in c ==> IsCopy(g0, classes, i, r.props, c[i])
  {
    hide CopyProp, HasCopy;
    forall i, s: Slot | i in c && s.inst == c[i] ensures CopyAt(g0, classes, Slot(i, s.name), r.props, s) {
      assert IsCopy(g0, classes, i, g.props, c[i]) && CopyAt(g0, classes, Slot(i, s.name), g.props, s);
    }
  }

  lemma PathsMore(g0: Graph, g: Graph, c: map<Id, Id>, plan: Plan, i: Id, r: Graph, id: Id)
    requires Injective(g0, c) && PathsCopied(g0, g, c, plan) && i in g0.info && i !in c && Injective(g0, c[i := id])
    requires PathOf(plan.Placed(g0.info[i], i)) !in g.index
    requires r.index == g.index[PathOf(plan.Placed(g0.info[i], i)) := id]
    ensures PathsCopied(g0, r, c[i := id], plan)
  {
    var d := c[i := id];
    forall p ensures p in r.index <==> p in g0.index || exists j :: j in d && p == PathOf(plan.Placed(g0.info[j], j)) {
      if j :| j in c && p == PathOf(plan.Placed(g0.info[j], j)) { assert j in d; }
      assert i in d;
    }
  }

  lemma SameCopy(g0: Graph, classes: Classes, g: Graph, i: Id, props: map<Slot, Prop>, id: Id, d: Id)
    requires i in g0.info && i in g.info && g.info[i] == g0.info[i] && Untouched(g0, g, d) && i != d
    requires IsCopy(g, classes, i, props, id)
    ensures IsCopy(g0, classes, i, props, id)
  {
    forall n: string
      ensures Slot(i, n) in g.props <==> Slot(i, n) in g0.props
      ensures Slot(i, n) in g.props ==> g.props[Slot(i, n)] == g0.props[Slot(i, n)]
    {}
    hide Untouched;
    forall s: Slot | s.inst == id ensures CopyAt(g0, classes, Slot(i, s.name), props, s) {
      assert CopyAt(g, classes, Slot(i, s.name), props, s);
      assert HasCopy(g, classes, Slot(i, s.name)) <==> HasCopy(g0, classes, Slot(i, s.name));
    }
  }

  /** The copies are elsewhere, so a container of the group has the members it had. */
  lemma MembersUnmoved(g0: Graph, g: Graph, c: map<Id, Id>, plan: Plan, p: Path)
    requires Sound(g0, plan) && Injective(g0, c) && InfoCopied(g0, g, c, plan) && plan.src <= p && OfTheGroup(g0, c, plan)
    ensures Members(g.info, p) == Members(g0.info, p)
  {
    SourceAndCopyApart(g0, plan);
    forall k | k in g.info && k !in g0.info ensures g.info[k].container != p {
      var i :| i in c && c[i] == k;
      assert g.info[k] == plan.Placed(g0.info[i], i);
      if i != plan.top {
        InsideIsBelow(g0.info, plan.src, i);
        assert plan.Dst() <= g.info[k].container;
      }
    }
  }

  lemma SameEnds(a: Path, x: string, b: Path, y: string)
    ensures a + [x] == b + [y] <==> a == b && x == y
  {
    var c, d := a + [x], b + [y];
    assert c[|a|] == x && d[|b|] == y && a == c[..|a|] && b == d[..|b|];
  }

  lemma RebasedApart(plan: Plan, p: Path, q: Path)
    requires plan.src <= p && plan.src <= q
    ensures plan.Rebased(p) == plan.Rebased(q) ==> p == q
  {
    assert p == plan.src + p[|plan.src|..] && q == plan.src + q[|plan.src|..];
    assert plan.Rebased(p)[|plan.Dst()|..] == p[|plan.src|..] && plan.Rebased(q)[|plan.Dst()|..] == q[|plan.src|..];
  }

  /** Only the group has been copied so far. */
  ghost predicate OfTheGroup(g0: Graph, c: map<Id, Id>, plan: Plan) {
    forall j :: j in c ==> j == plan.top || Inside(g0.info, plan.src, j)
  }

  /** Where the copy of a member goes there is nothing yet. */
  lemma PlaceIsFree(g0: Graph, g: Graph, c: map<Id, Id>, plan: Plan, p: Path, i: Id)
    requires Sound(g0, plan) && Injective(g0, c) && PathsCopied(g0, g, c, plan) && OfTheGroup(g0, c, plan)
    requires Home(g0.info, plan.src, p) && Member(g0.info, p, i) && i !in c && Named(g0.info, plan.src)
    ensures g0.info[i].name != "" && i != plan.top
    ensures At(plan.Rebased(p), g0.info[i].name) == PathOf(plan.Placed(g0.info[i], i))
    ensures At(plan.Rebased(p), g0.info[i].name) !in g.index
  {
    SourceAndCopyApart(g0, plan);
    InsideTheGroup(g0.info, plan.src, p);
    HomeIsBelow(g0.info, plan.src, p);
    var at := At(plan.Rebased(p), g0.info[i].name);
    assert plan.Dst() <= at;
    forall j | j in c ensures at != PathOf(plan.Placed(g0.info[j], j)) { PlacesDiffer(g0, c, plan, p, i, j); }
  }

  lemma PlacesDiffer(g0: Graph, c: map<Id, Id>, plan: Plan, p: Path, i: Id, j: Id)
    requires Sound(g0, plan) && Injective(g0, c) && OfTheGroup(g0, c, plan)
    requires Home(g0.info, plan.src, p) && Member(g0.info, p, i) && i !in c && Named(g0.info, plan.src) && j in c
    ensures At(plan.Rebased(p), g0.info[i].name) != PathOf(plan.Placed(g0.info[j], j))
  {
    InsideTheGroup(g0.info, plan.src, p);
    HomeIsBelow(g0.info, plan.src, p);
    var k := plan.Placed(g0.info[j], j);
    SameEnds(plan.Rebased(p), g0.info[i].name, k.container, k.name);
    if j != plan.top {
      InsideIsBelow(g0.info, plan.src, j);
      RebasedApart(plan, p, g0.info[j].container);
      SameEnds(p, g0.info[i].name, g0.info[j].container, g0.info[j].name);
    } else {
      assert |plan.Rebased(p)| >= |plan.Dst()| > |k.container|;
    }
  }

  lemma InsideIsBelow(info: map<Id, Info>, p: Path, i: Id)
    requires Inside(info, p, i)
    ensures p <= info[i].container
  {
    HomeIsBelow(info, p, info[i].container);
  }

  lemma TopIsOutside(g: Graph, plan: Plan, p: Path)
    requires Sound(g, plan) && plan.src <= p
    ensures !Inside(g.info, p, plan.top)
  {
    if Inside(g.info, p, plan.top) { InsideIsBelow(g.info, p, plan.top); }
  }

  // ---- after the second pass ------------------------------------------------------

  /** The link a copy has for a link of its source: to the copy of the target when
      that was copied too, to the same target when it can be addressed. */
  function Relink(g0: Graph, classes: Classes, c: map<Id, Id>, l: Link): Link {
    if l.NoLink? then NoLink
    else if l.owner in c then
      if HasCopy(g0, classes, l.node) then Link(Slot(c[l.owner], l.node.name), c[l.owner]) else NoLink
    else if Addressable(g0, l.owner) then l
    else NoLink
  }

  /** The same, for the links done so far. */
  function LinkOf(g0: Graph, classes: Classes, c: map<Id, Id>, done: set<Slot>, o: Slot): Link {
    if o in done && o in g0.props then Relink(g0, classes, c, g0.props[o].link) else NoLink
  }

  /** A copy's properties: what was copied, and the links. */
  ghost predicate IsRelinked(g0: Graph, classes: Classes, c: map<Id, Id>, done: set<Slot>, i: Id, props: map<Slot, Prop>) {
    i in c && forall s: Slot :: s.inst == c[i] ==> RelinkedAt(g0, classes, c, done, Slot(i, s.name), props, s)
  }

  ghost predicate RelinkedAt(g0: Graph, classes: Classes, c: map<Id, Id>, done: set<Slot>, o: Slot, props: map<Slot, Prop>, s: Slot) {
    var l := LinkOf(g0, classes, c, done, o);
    if l.Link? then s in props && props[s] == Prop(Value("", false), l, [], [])
    else CopyAt(g0, classes, o, props, s)
  }

  ghost predicate Relinked(g0: Graph, classes: Classes, g: Graph, c: map<Id, Id>, plan: Plan, done: set<Slot>) {
    && Sound(g0, plan) && OfTheGroup(g0, c, plan) && Injective(g0, c) && InfoCopied(g0, g, c, plan)
    && PathsCopied(g0, g, c, plan) && Untouched(g0, g, Dest(g0, plan))
    && (forall i :: i in c ==> IsRelinked(g0, classes, c, done, i, g.props))
    && (forall o :: o in done ==> IsLink(g0.props, o))
  }

  lemma NothingRelinked(g0: Graph, classes: Classes, g: Graph, c: map<Id, Id>, plan: Plan)
    requires Sound(g0, plan) && OfTheGroup(g0, c, plan) && Populated(g0, classes, g, c, plan)
    ensures Relinked(g0, classes, g, c, plan, {})
  {
    hide CopyAt;
    forall i | i in c ensures IsRelinked(g0, classes, c, {}, i, g.props) {
      assert IsCopy(g0, classes, i, g.props, c[i]);
    }
  }

  /** Whose copy an instance is that was not there before. */
  lemma IsSomeCopy(g0: Graph, g: Graph, c: map<Id, Id>, plan: Plan, s: Slot) returns (j: Id)
    requires Live(g) && Injective(g0, c) && InfoCopied(g0, g, c, plan) && s in g.props && s.inst !in g0.info
    ensures j in c && c[j] == s.inst
  {
    j :| j in c && c[j] == s.inst;
  }

  /** No link leads to a copy's slot that is to be a link itself. */
  lemma OldLinkStays(g0: Graph, classes: Classes, g: Graph, c: map<Id, Id>, plan: Plan, done: set<Slot>, o: Slot, s: Slot)
    requires Relinked(g0, classes, g, c, plan, done) && o.inst in c && s in g0.props && g.props[s].link.Link?
    ensures g.props[s].link.node != Slot(c[o.inst], o.name)
  {
    hide InfoCopied, PathsCopied, IsRelinked, Announced, OfTheGroup;
    assert g.props[s].link == g0.props[s].link && g0.props[s].link.node in g0.props;
  }

  lemma NewIsACopy(g0: Graph, classes: Classes, g: Graph, c: map<Id, Id>, plan: Plan, done: set<Slot>, s: Slot) returns (j: Id)
    requires WF(g) && Relinked(g0, classes, g, c, plan, done) && s in g.props && s !in g0.props && g.props[s].link.Link?
    ensures j in c && c[j] == s.inst
  {
    hide PathsCopied, IsRelinked, Announced, OfTheGroup;
    assert s.inst !in g0.info;
    j := IsSomeCopy(g0, g, c, plan, s);
  }

  lemma NotATargetOf(g0: Graph, classes: Classes, g: Graph, c: map<Id, Id>, plan: Plan, done: set<Slot>, o: Slot, s: Slot, j: Id)
    requires Relinked(g0, classes, g, c, plan, done) && IsLink(g0.props, o) && o.inst in c
    requires s in g.props && g.props[s].link.Link? && s !in g0.props && j in c && c[j] == s.inst && s != Slot(c[o.inst], o.name)
    ensures g.props[s].link.node != Slot(c[o.inst], o.name)
  {
    hide InfoCopied, PathsCopied, Untouched;
    assert IsRelinked(g0, classes, c, done, j, g.props);
    assert RelinkedAt(g0, classes, c, done, Slot(j, s.name), g.props, s);
    assert Slot(j, s.name) in g0.props;
  }

  lemma NotATarget(g0: Graph, classes: Classes, g: Graph, c: map<Id, Id>, plan: Plan, done: set<Slot>, o: Slot)
    requires WF(g) && Relinked(g0, classes, g, c, plan, done) && IsLink(g0.props, o) && o.inst in c
    ensures NoLinkTo(g.props, Slot(c[o.inst], o.name))
  {
    hide WF, Untouched, InfoCopied, PathsCopied, IsRelinked;
    var raw := Slot(c[o.inst], o.name);
    forall s | s in g.props && s != raw && g.props[s].link.Link? ensures g.props[s].link.node != raw {
      if s in g0.props {
        OldLinkStays(g0, classes, g, c, plan, done, o, s);
      } else {
        var j := NewIsACopy(g0, classes, g, c, plan, done, s);
        NotATargetOf(g0, classes, g, c, plan, done, o, s, j);
      }
    }
  }

  /** What a link of the source stands for, once it is moved to the copies. */
  lemma TargetResolves(g0: Graph, classes: Classes, g: Graph, c: map<Id, Id>, plan: Plan, done: set<Slot>, l: Link)
    requires WF(g) && Relinked(g0, classes, g, c, plan, done)
    requires l.Link? && l.node in g0.props && l.node.inst == l.owner && g0.props[l.node].link.NoLink?
    ensures l.owner in c ==>
              Resolve(g.props, c[l.owner], l.node.name) ==
              (c[l.owner], if HasCopy(g0, classes, l.node) then Node(Slot(c[l.owner], l.node.name)) else Absent)
    ensures l.owner !in c ==> Resolve(g.props, l.owner, l.node.name) == (l.owner, Node(l.node))
  {
    hide WF, InfoCopied, PathsCopied, Announced, HasCopy, CopyProp;
    if l.owner in c {
      var s := Slot(c[l.owner], l.node.name);
      assert IsRelinked(g0, classes, c, done, l.owner, g.props);
      assert RelinkedAt(g0, classes, c, done, l.node, g.props, s);
      CopyPropIsPlain(g0, classes, l.node);
      if l.node.name == LAST { LastGoesAlong(g0, classes, c, plan, l.node); }
    }
  }

  /** A LastMember the source has goes to the copy. */
  lemma LastGoesAlong(g0: Graph, classes: Classes, c: map<Id, Id>, plan: Plan, o: Slot)
    requires Sound(g0, plan) && OfTheGroup(g0, c, plan) && o.inst in c && o in g0.props && o.name == LAST
    ensures HasCopy(g0, classes, o)
  {
    assert TidyOn(g0.props, o.inst) && o == Slot(o.inst, LAST);
  }

  lemma SamePaths(g0: Graph, g: Graph, c: map<Id, Id>, plan: Plan, x: Id)
    requires Sound(g0, plan) && Injective(g0, c) && InfoCopied(g0, g, c, plan) && PathsCopied(g0, g, c, plan) && x in g0.info
    ensures Addressable(g, x) <==> Addressable(g0, x)
  {}

  /** Setting one slot of one copy to a link leaves every other slot as it was. */
  lemma RelinkedThere(g0: Graph, classes: Classes, c: map<Id, Id>, done: set<Slot>, o: Slot, i: Id,
                      props: map<Slot, Prop>, after: map<Slot, Prop>)
    requires Injective(g0, c) && IsLink(g0.props, o) && o.inst in c && IsRelinked(g0, classes, c, done, i, props)
    requires var l := Relink(g0, classes, c, g0.props[o].link);
             after == if l.Link? then SetLink(props, Slot(c[o.inst], o.name), l.node, l.owner) else props
    ensures IsRelinked(g0, classes, c, done + {o}, i, after)
  {
    CopyPropIsPlain(g0, classes, o);
    hide HasCopy, Relink, CopyProp;
    forall s: Slot | s.inst == c[i] ensures RelinkedAt(g0, classes, c, done + {o}, Slot(i, s.name), after, s) {
      assert RelinkedAt(g0, classes, c, done, Slot(i, s.name), props, s);
    }
  }

  /** One more link of a source made on its copy. */
  lemma RelinkedOneMore(g0: Graph, classes: Classes, g: Graph, c: map<Id, Id>, plan: Plan, done: set<Slot>, o: Slot, r: Graph)
    requires Relinked(g0, classes, g, c, plan, done) && IsLink(g0.props, o) && o.inst in c
    requires var l := Relink(g0, classes, c, g0.props[o].link);
             r == if l.Link? then g.(props := SetLink(g.props, Slot(c[o.inst], o.name), l.node, l.owner)) else g
    ensures Relinked(g0, classes, r, c, plan, done + {o})
  {
    hide WF, IsRelinked, Relink, SetLink, Sound, OfTheGroup, Dest, Untouched, InfoCopied, PathsCopied;
    forall i | i in c ensures IsRelinked(g0, classes, c, done + {o}, i, r.props) {
      RelinkedThere(g0, classes, c, done, o, i, g.props, r.props);
    }
    StillUntouched(g0, g, c, plan, o, r, Relink(g0, classes, c, g0.props[o].link));
    SamePlaces(g0, g, r, c, plan);
  }

  lemma SamePlaces(g0: Graph, g: Graph, r: Graph, c: map<Id, Id>, plan: Plan)
    requires Injective(g0, c) && InfoCopied(g0, g, c, plan) && PathsCopied(g0, g, c, plan) && r.info == g.info && r.index == g.index
    ensures InfoCopied(g0, r, c, plan) && PathsCopied(g0, r, c, plan)
  {}

  lemma StillUntouched(g0: Graph, g: Graph, c: map<Id, Id>, plan: Plan, o: Slot, r: Graph, l: Link)
    requires Sound(g0, plan) && Injective(g0, c) && Untouched(g0, g, Dest(g0, plan)) && o.inst in c
    requires r == if l.Link? then g.(props := SetLink(g.props, Slot(c[o.inst], o.name), l.node, l.owner)) else g
    ensures Untouched(g0, r, Dest(g0, plan))
  {
    assert Live(g0) && Dest(g0, plan) in g0.info;
  }

  // ---- after the third pass -------------------------------------------------------

  /** A wire with both ends in the group. */
  predicate GroupWire(g0: Graph, c: map<Id, Id>, s: Slot, t: Slot) {
    Wired(g0.props, s, t) && s.inst in c && t.inst in c
  }

  /** A property some wire of the group starts from. */
  ghost predicate Speaks(g0: Graph, c: map<Id, Id>, s: Slot) {
    exists t :: GroupWire(g0, c, s, t)
  }

  function Moved(c: map<Id, Id>, s: Slot): Slot
    requires s.inst in c
  {
    Slot(c[s.inst], s.name)
  }

  /** The wire between two copies that stands for one of the wires in made. */
  ghost predicate Counterpart(g0: Graph, c: map<Id, Id>, made: set<(Slot, Slot)>, u: Slot, w: Slot) {
    exists s, t :: (s, t) in made && GroupWire(g0, c, s, t) && u == Moved(c, s) && w == Moved(c, t)
  }

  /** A link carries no wires of its own. */
  ghost predicate LinksAreBare(g0: Graph, c: map<Id, Id>) {
    forall o: Slot :: o.inst in c && IsLink(g0.props, o) ==> g0.props[o].subs == [] && g0.props[o].backs == []
  }

  /** Wiring changes records, and only among the copies; and the copies count it. */
  ghost predicate OnlyWires(g0: Graph, c: map<Id, Id>, d: Id, g1: Graph, g: Graph) {
    && g.info == g1.info && g.index == g1.index && Announced(g0, g.queue, d)
    && (forall s :: s in g1.props ==> s in g.props && g.props[s].link == g1.props[s].link)
    && (forall s :: s in g1.props && s.name != WIRING ==> g.props[s].value == g1.props[s].value)
    && (forall s :: s in g1.props && s.inst in g0.info ==> g.props[s] == g1.props[s])
    && (forall s :: s in g.props && s !in g1.props ==> IsGrown(g0, c, g.props, s))
  }

  /** A property that came into being because a wire starts from it, or to count wires. */
  ghost predicate IsGrown(g0: Graph, c: map<Id, Id>, props: map<Slot, Prop>, s: Slot) {
    && s in props && props[s].link.NoLink?
    && if s.name == WIRING then s.inst in c.Values
       else props[s].value == ZERO.value && exists o: Slot :: o.inst in c && Speaks(g0, c, o) && s == Moved(c, o)
  }

  /** Some wire that was tried starts from this property, which is there since. */
  predicate Started(tried: seq<(Slot, Slot)>, t: Slot) {
    exists k :: 0 <= k < |tried| && tried[k].0 == t
  }

  /** The count of an instance that was wired to. */
  ghost predicate Counted(made: set<(Slot, Slot)>, t: Slot) {
    t.name == WIRING && exists x :: x in made && x.1.inst == t.inst
  }

  /** The wire from s to t can be made again when those before it were tried: what
      listens is there. */
  ghost predicate Able(g0: Graph, classes: Classes, before: seq<(Slot, Slot)>, s: Slot, t: Slot)
    decreases |before|, 1
  {
    HasCopy(g0, classes, t) || t == s || Started(before, t) || Counted(Made(g0, classes, before), t)
  }

  /** Of the wires tried, in their order, those that were made. */
  ghost function Made(g0: Graph, classes: Classes, tried: seq<(Slot, Slot)>): set<(Slot, Slot)>
    decreases |tried|, 0
  {
    if tried == [] then {}
    else
      var before, last := tried[..|tried| - 1], tried[|tried| - 1];
      Made(g0, classes, before) + if Able(g0, classes, before, last.0, last.1) then {last} else {}
  }

  lemma MadeNext(g0: Graph, classes: Classes, tried: seq<(Slot, Slot)>, s: Slot, t: Slot)
    ensures Made(g0, classes, tried + [(s, t)]) ==
            Made(g0, classes, tried) + if Able(g0, classes, tried, s, t) then {(s, t)} else {}
  {
    assert (tried + [(s, t)])[..|tried|] == tried;
  }

  /** A wire is made again exactly when it can be, at some time it is tried. */
  lemma {:induction false} MadeIff(g0: Graph, classes: Classes, tried: seq<(Slot, Slot)>, x: (Slot, Slot))
    ensures x in Made(g0, classes, tried) <==> exists k :: MadeAt(g0, classes, tried, x, k)
    decreases |tried|
  {
    hide Able;
    if tried != [] {
      var n := |tried| - 1;
      var before := tried[..n];
      MadeIff(g0, classes, before, x);
      forall k: nat | k < n ensures tried[..k] == before[..k] {}
      if k: nat :| MadeAt(g0, classes, before, x, k) { assert MadeAt(g0, classes, tried, x, k); }
      if k: nat :| MadeAt(g0, classes, tried, x, k) { assert k == n || MadeAt(g0, classes, before, x, k); }
      if x == tried[n] && Able(g0, classes, before, x.0, x.1) { assert MadeAt(g0, classes, tried, x, n); }
    }
  }

  ghost predicate MadeAt(g0: Graph, classes: Classes, tried: seq<(Slot, Slot)>, x: (Slot, Slot), k: nat) {
    k < |tried| && tried[k] == x && Able(g0, classes, tried[..k], x.0, x.1)
  }

  /** Which properties the copies have since wires were tried. */
  ghost predicate Standing(g0: Graph, classes: Classes, c: map<Id, Id>, g1: Graph, g: Graph, tried: seq<(Slot, Slot)>) {
    forall s: Slot :: s.inst in c ==>
      (Moved(c, s) in g.props <==> Moved(c, s) in g1.props || Started(tried, s) || Counted(Made(g0, classes, tried), s))
  }

  ghost predicate Rewired(g0: Graph, classes: Classes, c: map<Id, Id>, d: Id, g1: Graph, g: Graph, tried: seq<(Slot, Slot)>) {
    && OnlyWires(g0, c, d, g1, g) && Standing(g0, classes, c, g1, g, tried)
    && (forall u, w :: Wired(g.props, u, w) <==> Wired(g0.props, u, w) || Counterpart(g0, c, Made(g0, classes, tried), u, w))
    && (forall x :: x in tried ==> GroupWire(g0, c, x.0, x.1))
  }

  /** The two ends of a group wire, on the copies. */
  ghost predicate EndsStand(g0: Graph, classes: Classes, c: map<Id, Id>, g1: Graph) {
    && Live(g0) && Injective(g0, c)
    && (forall s :: s in g0.props && s.inst in c && g0.props[s].link.NoLink? ==>
          (Moved(c, s) in g1.props <==> HasCopy(g0, classes, s)) && (Moved(c, s) in g1.props ==> g1.props[Moved(c, s)].link.NoLink?))
    && (forall i :: i in c ==> !IsLink(g1.props, Slot(c[i], WIRING)))
  }

  lemma CopiesHaveEnds(g0: Graph, classes: Classes, g1: Graph, c: map<Id, Id>, plan: Plan, done: set<Slot>)
    requires Relinked(g0, classes, g1, c, plan, done)
    ensures EndsStand(g0, classes, c, g1)
  {
    hide CopyProp, InfoCopied, PathsCopied, Untouched;
    forall s | s in g0.props && s.inst in c && g0.props[s].link.NoLink?
      ensures Moved(c, s) in g1.props <==> HasCopy(g0, classes, s)
      ensures Moved(c, s) in g1.props ==> g1.props[Moved(c, s)].link.NoLink?
    {
      CopyEnds(g0, classes, g1, c, plan, done, s);
    }
    forall i | i in c ensures !IsLink(g1.props, Slot(c[i], WIRING)) {
      var o, s := Slot(i, WIRING), Slot(c[i], WIRING);
      assert IsRelinked(g0, classes, c, done, i, g1.props);
      assert RelinkedAt(g0, classes, c, done, o, g1.props, s);
      assert TidyOn(g0.props, i);
      CopyPropIsPlain(g0, classes, o);
    }
  }

  lemma CopyPropIsPlain(g: Graph, classes: Classes, o: Slot)
    ensures HasCopy(g, classes, o) ==> Plain(CopyProp(g, classes, o))
  {}

  lemma CopyEnds(g0: Graph, classes: Classes, g1: Graph, c: map<Id, Id>, plan: Plan, done: set<Slot>, s: Slot)
    requires Relinked(g0, classes, g1, c, plan, done) && s in g0.props && s.inst in c && g0.props[s].link.NoLink?
    ensures Moved(c, s) in g1.props <==> HasCopy(g0, classes, s)
    ensures Moved(c, s) in g1.props ==> g1.props[Moved(c, s)].link.NoLink?
  {
    hide CopyProp, HasCopy, InfoCopied, PathsCopied, Untouched;
    assert IsRelinked(g0, classes, c, done, s.inst, g1.props);
    assert RelinkedAt(g0, classes, c, done, s, g1.props, Moved(c, s));
    CopyPropIsPlain(g0, classes, s);
    if s.name == LAST { LastGoesAlong(g0, classes, c, plan, s); }
  }

  lemma WireEnds(g0: Graph, c: map<Id, Id>, s: Slot, t: Slot)
    requires WF(g0) && LinksAreBare(g0, c) && GroupWire(g0, c, s, t)
    ensures s in g0.props && t in g0.props && g0.props[s].link.NoLink? && g0.props[t].link.NoLink?
  {
    assert Heard(g0.props, s, t);
  }

  /** Both ends resolve to themselves on the copies, and so does the count. */
  lemma EndsResolve(g0: Graph, classes: Classes, c: map<Id, Id>, d: Id, g1: Graph, g: Graph, s: Slot, t: Slot)
    requires WF(g0) && EndsStand(g0, classes, c, g1) && OnlyWires(g0, c, d, g1, g)
    requires LinksAreBare(g0, c) && GroupWire(g0, c, s, t)
    ensures var u, w := Moved(c, s), Moved(c, t);
            var grown := Grow(g, u.inst, u.name);
            && Resolve(grown.props, u.inst, u.name).1 == Node(u)
            && (w in grown.props ==> Resolve(grown.props, w.inst, w.name) == (w.inst, Node(w)))
            && !IsLink(grown.props, Slot(w.inst, WIRING))
    ensures Moved(c, t) in g1.props <==> HasCopy(g0, classes, t)
  {
    hide HasCopy, Announced, Speaks;
    WireEnds(g0, c, s, t);
    var u, w := Moved(c, s), Moved(c, t);
    NoLinkGrown(g0, c, d, g1, g, u);
    NoLinkGrown(g0, c, d, g1, g, w);
    NoLinkGrown(g0, c, d, g1, g, Slot(w.inst, WIRING));
  }

  lemma NoLinkGrown(g0: Graph, c: map<Id, Id>, d: Id, g1: Graph, g: Graph, u: Slot)
    requires OnlyWires(g0, c, d, g1, g) && !IsLink(g1.props, u)
    ensures !IsLink(g.props, u)
  {
    if u in g.props && u !in g1.props { assert IsGrown(g0, c, g.props, u); }
  }

  /** Connecting the copies of two wired ends adds their counterpart, if it can be made. */
  lemma RewiredOneMore(g0: Graph, classes: Classes, c: map<Id, Id>, d: Id, g1: Graph, g: Graph, tried: seq<(Slot, Slot)>, s: Slot, t: Slot)
    requires WF(g0) && WF(g) && EndsStand(g0, classes, c, g1) && Rewired(g0, classes, c, d, g1, g, tried)
    requires LinksAreBare(g0, c) && GroupWire(g0, c, s, t) && c[s.inst] in g.info && c[t.inst] in g.info && d in g0.info
    ensures Rewired(g0, classes, c, d, g1, Connect(g, c[s.inst], s.name, c[t.inst], t.name), tried + [(s, t)])
  {
    hide WF, OnlyWires, HasCopy, Counterpart, Speaks, Resolve, Connect, Grow, Wired, Standing, Able, Made, EndsStand, GroupWire, LinksAreBare;
    SpeaksHere(g0, c, s, t);
    var u, w := Moved(c, s), Moved(c, t);
    TryingOne(g0, classes, c, d, g1, g, tried, s, t);
    ConnectWires(g, u, w);
    StillOnlyWires(g0, c, d, g1, g, s, t);
    GrownMore(g0, classes, c, g1, g, tried, s, t);
    WiredMore(g0, classes, c, g.props, Connect(g, u.inst, u.name, w.inst, w.name).props, tried, s, t);
    TriedMore(g0, c, tried, s, t);
  }

  /** What connecting finds: both ends themselves, the far one exactly when it can be. */
  lemma TryingOne(g0: Graph, classes: Classes, c: map<Id, Id>, d: Id, g1: Graph, g: Graph, tried: seq<(Slot, Slot)>, s: Slot, t: Slot)
    requires WF(g0) && EndsStand(g0, classes, c, g1) && Rewired(g0, classes, c, d, g1, g, tried)
    requires LinksAreBare(g0, c) && GroupWire(g0, c, s, t)
    ensures Injective(g0, c)
    ensures var u, w := Moved(c, s), Moved(c, t);
            var grown := Grow(g, u.inst, u.name);
            && Resolve(grown.props, u.inst, u.name).1 == Node(u)
            && (w in grown.props ==> Resolve(grown.props, w.inst, w.name) == (w.inst, Node(w)))
            && !IsLink(grown.props, Slot(w.inst, WIRING))
            && (w in grown.props <==> Able(g0, classes, tried, s, t))
  {
    hide WF, OnlyWires, HasCopy, Counterpart, Speaks, Resolve, Grow, Wired, Standing, Able, Made, LinksAreBare;
    EndsResolve(g0, classes, c, d, g1, g, s, t);
    AbleIff(g0, classes, c, g1, g, tried, s, t);
  }

  lemma TriedMore(g0: Graph, c: map<Id, Id>, tried: seq<(Slot, Slot)>, s: Slot, t: Slot)
    requires GroupWire(g0, c, s, t) && forall x :: x in tried ==> GroupWire(g0, c, x.0, x.1)
    ensures forall x :: x in tried + [(s, t)] ==> GroupWire(g0, c, x.0, x.1)
  {
    hide GroupWire;
  }

  lemma WiredMore(g0: Graph, classes: Classes, c: map<Id, Id>, p: map<Slot, Prop>, r: map<Slot, Prop>, tried: seq<(Slot, Slot)>, s: Slot, t: Slot)
    requires GroupWire(g0, c, s, t)
    requires forall u, w :: Wired(p, u, w) <==> Wired(g0.props, u, w) || Counterpart(g0, c, Made(g0, classes, tried), u, w)
    requires forall u, w :: Wired(r, u, w) <==> Wired(p, u, w) || (Able(g0, classes, tried, s, t) && u == Moved(c, s) && w == Moved(c, t))
    ensures var made := Made(g0, classes, tried + [(s, t)]);
            forall u, w :: Wired(r, u, w) <==> Wired(g0.props, u, w) || Counterpart(g0, c, made, u, w)
  {
    MadeNext(g0, classes, tried, s, t);
    CounterpartMore(g0, c, Made(g0, classes, tried), s, t);
    hide Wired, Counterpart, Able, Made;
    assert Made(g0, classes, tried) + {} == Made(g0, classes, tried);
  }

  /** What listens is there exactly when the wire can be made. */
  lemma AbleIff(g0: Graph, classes: Classes, c: map<Id, Id>, g1: Graph, g: Graph, tried: seq<(Slot, Slot)>, s: Slot, t: Slot)
    requires Injective(g0, c) && Standing(g0, classes, c, g1, g, tried) && s.inst in c && t.inst in c
    requires Moved(c, t) in g1.props <==> HasCopy(g0, classes, t)
    ensures Moved(c, t) in Grow(g, c[s.inst], s.name).props <==> Able(g0, classes, tried, s, t)
  {
    hide HasCopy, Made;
    assert Moved(c, t) == Moved(c, s) <==> t == s;
  }

  lemma GrownMore(g0: Graph, classes: Classes, c: map<Id, Id>, g1: Graph, g: Graph, tried: seq<(Slot, Slot)>, s: Slot, t: Slot)
    requires WF(g) && Injective(g0, c) && Standing(g0, classes, c, g1, g, tried) && s.inst in c && t.inst in c
    requires c[s.inst] in g.info && c[t.inst] in g.info
    requires var u, w := Moved(c, s), Moved(c, t);
             var grown := Grow(g, u.inst, u.name);
             && Resolve(grown.props, u.inst, u.name).1 == Node(u)
             && (w in grown.props ==> Resolve(grown.props, w.inst, w.name) == (w.inst, Node(w)))
             && !IsLink(grown.props, Slot(w.inst, WIRING))
             && (w in grown.props <==> Able(g0, classes, tried, s, t))
    ensures Standing(g0, classes, c, g1, Connect(g, c[s.inst], s.name, c[t.inst], t.name), tried + [(s, t)])
  {
    var u, w, more := Moved(c, s), Moved(c, t), tried + [(s, t)];
    var r := Connect(g, u.inst, u.name, w.inst, w.name);
    ConnectKeys(g, u, w);
    MadeNext(g0, classes, tried, s, t);
    hide WF, Able, Made, Connect, Grow, Resolve;
    forall o: Slot | o.inst in c
      ensures Moved(c, o) in r.props <==> Moved(c, o) in g1.props || Started(more, o) || Counted(Made(g0, classes, more), o)
    {
      StartedMore(tried, s, t, o);
      assert Moved(c, o) == u <==> o == s;
      assert Moved(c, o) == Slot(w.inst, WIRING) <==> o == Slot(t.inst, WIRING);
    }
  }

  lemma StartedMore(tried: seq<(Slot, Slot)>, s: Slot, t: Slot, o: Slot)
    ensures Started(tried + [(s, t)], o) <==> Started(tried, o) || o == s
  {
    var more := tried + [(s, t)];
    assert more[|tried|] == (s, t) && forall k :: 0 <= k < |tried| ==> more[k] == tried[k];
  }

  /** Which properties connecting two ends leaves. */
  lemma ConnectKeys(g: Graph, u: Slot, w: Slot)
    requires WF(g) && u.inst in g.info && w.inst in g.info
    requires var grown := Grow(g, u.inst, u.name);
             && Resolve(grown.props, u.inst, u.name).1 == Node(u)
             && (w in grown.props ==> Resolve(grown.props, w.inst, w.name) == (w.inst, Node(w)))
             && !IsLink(grown.props, Slot(w.inst, WIRING))
    ensures Connect(g, u.inst, u.name, w.inst, w.name).props.Keys ==
            g.props.Keys + {u} + if w in Grow(g, u.inst, u.name).props then {Slot(w.inst, WIRING)} else {}
  {
    hide WF, Bump, AddWire, Resolve;
    var grown := Grow(g, u.inst, u.name);
    GrowKeeps(g, u.inst, u.name);
    ResolveFacts(grown, w.inst, w.name);
    if w in grown.props {
      var wired := grown.(props := AddWire(grown.props, u, w));
      AddWireRecords(grown.props, u, w);
      WireStands(grown, u, w);
      BumpCounts(wired, w.inst);
      assert Slot(u.inst, u.name) == u;
    }
  }

  lemma ConnectWires(g: Graph, u: Slot, w: Slot)
    requires WF(g) && u.inst in g.info && w.inst in g.info
    requires var grown := Grow(g, u.inst, u.name);
             && Resolve(grown.props, u.inst, u.name).1 == Node(u)
             && (w in grown.props ==> Resolve(grown.props, w.inst, w.name) == (w.inst, Node(w)))
    ensures var r := Connect(g, u.inst, u.name, w.inst, w.name);
            forall x, y :: Wired(r.props, x, y) <==>
              Wired(g.props, x, y) || (w in Grow(g, u.inst, u.name).props && x == u && y == w)
  {
    hide WF, Bump, Wired;
    ConnectKeeps(g, u.inst, u.name, w.inst, w.name);
    GrowKeeps(g, u.inst, u.name);
    assert Slot(w.inst, w.name) == w && Slot(u.inst, u.name) == u;
    var grown := Grow(g, u.inst, u.name);
    ResolveFacts(grown, w.inst, w.name);
  }

  lemma CounterpartMore(g0: Graph, c: map<Id, Id>, made: set<(Slot, Slot)>, s: Slot, t: Slot)
    requires GroupWire(g0, c, s, t)
    ensures forall u, w :: Counterpart(g0, c, made + {(s, t)}, u, w) <==>
              Counterpart(g0, c, made, u, w) || (u == Moved(c, s) && w == Moved(c, t))
  {
    var more := made + {(s, t)};
    forall u, w ensures Counterpart(g0, c, more, u, w) <==> Counterpart(g0, c, made, u, w) || (u == Moved(c, s) && w == Moved(c, t)) {
      if a, b :| (a, b) in made && GroupWire(g0, c, a, b) && u == Moved(c, a) && w == Moved(c, b) { assert (a, b) in more; }
      if u == Moved(c, s) && w == Moved(c, t) { assert (s, t) in more; }
    }
  }

  lemma StillOnlyWires(g0: Graph, c: map<Id, Id>, d: Id, g1: Graph, g: Graph, s: Slot, t: Slot)
    requires WF(g0) && WF(g) && Injective(g0, c) && OnlyWires(g0, c, d, g1, g) && GroupWire(g0, c, s, t)
    requires c[s.inst] in g.info && c[t.inst] in g.info && d in g0.info
    requires var u, w := Moved(c, s), Moved(c, t);
             var grown := Grow(g, u.inst, u.name);
             && Resolve(grown.props, u.inst, u.name).1 == Node(u)
             && (w in grown.props ==> Resolve(grown.props, w.inst, w.name) == (w.inst, Node(w)))
             && !IsLink(grown.props, Slot(w.inst, WIRING))
    ensures OnlyWires(g0, c, d, g1, Connect(g, c[s.inst], s.name, c[t.inst], t.name))
  {
    assert Live(g0);
    hide WF, OnlyWires, Bump, Resolve, Speaks, GroupWire;
    SpeaksHere(g0, c, s, t);
    var u, w := Moved(c, s), Moved(c, t);
    var grown, r := Grow(g, u.inst, u.name), Connect(g, c[s.inst], s.name, c[t.inst], t.name);
    GrownOnly(g0, c, d, g1, g, s);
    GrowKeeps(g, u.inst, u.name);
    ResolveFacts(grown, w.inst, w.name);
    if w in grown.props {
      var wired := grown.(props := AddWire(grown.props, u, w));
      assert r == Bump(wired, w.inst);
      RecordsBetween(g0, c, d, g1, grown, u, w);
      WireStands(grown, u, w);
      BumpOnly(g0, c, d, g1, wired, t.inst);
    } else {
      assert r == grown;
    }
  }

  lemma SpeaksHere(g0: Graph, c: map<Id, Id>, s: Slot, t: Slot)
    requires GroupWire(g0, c, s, t)
    ensures Speaks(g0, c, s) && s.inst in c && t.inst in c
  {}

  lemma GrownOnly(g0: Graph, c: map<Id, Id>, d: Id, g1: Graph, g: Graph, s: Slot)
    requires Live(g0) && Injective(g0, c) && OnlyWires(g0, c, d, g1, g) && s.inst in c && Speaks(g0, c, s)
    ensures OnlyWires(g0, c, d, g1, Grow(g, c[s.inst], s.name))
  {
    hide Announced, Speaks;
    var r := Grow(g, c[s.inst], s.name);
    assert c[s.inst] in c.Values;
    forall x | x in r.props && x !in g1.props ensures IsGrown(g0, c, r.props, x) {
      if x in g.props { assert IsGrown(g0, c, g.props, x); } else { assert x == Moved(c, s); }
    }
  }

  lemma RecordsBetween(g0: Graph, c: map<Id, Id>, d: Id, g1: Graph, g: Graph, u: Slot, w: Slot)
    requires OnlyWires(g0, c, d, g1, g) && u in g.props && w in g.props && u.inst !in g0.info && w.inst !in g0.info
    ensures OnlyWires(g0, c, d, g1, g.(props := AddWire(g.props, u, w)))
    ensures forall s :: IsLink(AddWire(g.props, u, w), s) <==> IsLink(g.props, s)
  {
    hide Announced, Speaks, AddWire;
    AddWireRecords(g.props, u, w);
    var r := g.(props := AddWire(g.props, u, w));
    forall x | x in r.props && x !in g1.props ensures IsGrown(g0, c, r.props, x) {
      assert IsGrown(g0, c, g.props, x);
    }
  }

  lemma AddWireRecords(props: map<Slot, Prop>, u: Slot, w: Slot)
    requires u in props && w in props
    ensures var r := AddWire(props, u, w);
            && r.Keys == props.Keys
            && (forall s :: s in r ==> r[s].value == props[s].value && r[s].link == props[s].link)
            && (forall s :: s in r && s != u && s != w ==> r[s] == props[s])
  {}

  /** Counting a wire on a copy changes nothing but the count, and says so. */
  lemma BumpOnly(g0: Graph, c: map<Id, Id>, d: Id, g1: Graph, g: Graph, i: Id)
    requires WF(g) && OnlyWires(g0, c, d, g1, g) && Injective(g0, c) && i in c && c[i] in g.info && d in g0.info
    requires !IsLink(g.props, Slot(c[i], WIRING))
    ensures OnlyWires(g0, c, d, g1, Bump(g, c[i]))
  {
    hide WF, Bump, Speaks;
    var k := c[i];
    var r, count := Bump(g, k), Slot(k, WIRING);
    BumpCounts(g, k);
    BumpKeeps(g, k);
    assert k in c.Values && k !in g0.info;
    assert forall i :: |g0.queue| <= i < |r.queue| && i < |g.queue| ==> r.queue[i] == g.queue[i];
    assert Announced(g0, r.queue, d);
    hide Announced;
    forall x | x in r.props && x !in g1.props ensures IsGrown(g0, c, r.props, x) {
      if x != count { assert IsGrown(g0, c, g.props, x); }
    }
  }

  // ---- the clone as a whole ---------------------------------------------------------

  /** A property of a copy, given the property o of its source. What the engine writes
      itself has the value it was last given. */
  ghost predicate CopiedAt(g0: Graph, classes: Classes, c: map<Id, Id>, o: Slot, props: map<Slot, Prop>, s: Slot) {
    var l := if o in g0.props then Relink(g0, classes, c, g0.props[o].link) else NoLink;
    if s.name == LAST || s.name == WIRING then
      (HasCopy(g0, classes, o) ==> s in props) && (s in props ==> props[s].link.NoLink?)
    else if l.Link? then s in props && props[s].link == l && props[s].value == Value("", false)
    else if HasCopy(g0, classes, o) then s in props && props[s].link == l && props[s].value == CopyProp(g0, classes, o).value
    else (s in props <==> Speaks(g0, c, o)) && (s in props ==> props[s].link == l && props[s].value == ZERO.value)
  }

  /** The wires of the group were tried in this order, and those that could be made were;
      no other wire is new. */
  ghost predicate WiresCopied(g0: Graph, classes: Classes, c: map<Id, Id>, g: Graph, order: seq<(Slot, Slot)>) {
    && (forall x :: x in order <==> GroupWire(g0, c, x.0, x.1))
    && (forall u, w :: Wired(g.props, u, w) && !Wired(g0.props, u, w) ==>
          exists s, t :: GroupWire(g0, c, s, t) && u == Moved(c, s) && w == Moved(c, t))
    && (forall s, t :: GroupWire(g0, c, s, t) ==>
          (Wired(g.props, Moved(c, s), Moved(c, t)) <==> (s, t) in Made(g0, classes, order)))
  }

  /** The group copied: who copies whom (one to one, and only the group), where the
      copies are, what they hold, what they link to, how they are wired; and all
      that was there before is as it was, but that the container knows of the copy. */
  ghost predicate IsClone(g0: Graph, classes: Classes, plan: Plan, g: Graph, c: map<Id, Id>, order: seq<(Slot, Slot)>) {
    && (forall i :: i in c <==> i == plan.top || Inside(g0.info, plan.src, i))
    && Injective(g0, c) && InfoCopied(g0, g, c, plan) && PathsCopied(g0, g, c, plan) && Untouched(g0, g, Dest(g0, plan))
    && (forall i, s: Slot :: i in c && s.inst == c[i] ==> CopiedAt(g0, classes, c, Slot(i, s.name), g.props, s))
    && WiresCopied(g0, classes, c, g, order)
  }

  /** The links of the group carry no wires, so that what is wired is what it is
      wired to. */
  ghost predicate BareGroup(g: Graph, plan: Plan) {
    forall o :: IsLink(g.props, o) && (o.inst == plan.top || Inside(g.info, plan.src, o.inst)) ==>
      g.props[o].subs == [] && g.props[o].backs == []
  }

  /** No wire of the copy touches anything that was there before. */
  lemma NoWireCrosses(g0: Graph, classes: Classes, plan: Plan, g: Graph, c: map<Id, Id>, order: seq<(Slot, Slot)>, u: Slot, w: Slot)
    requires WF(g0) && IsClone(g0, classes, plan, g, c, order) && Wired(g.props, u, w)
    ensures u.inst in g0.info <==> w.inst in g0.info
  {
    if Wired(g0.props, u, w) { assert Heard(g0.props, u, w); }
  }

  /** The copies are wired to each other exactly as their sources are, once every
      property that is listened on in the group goes to the copy. */
  lemma WiredAlike(g0: Graph, classes: Classes, plan: Plan, g: Graph, c: map<Id, Id>, order: seq<(Slot, Slot)>, s: Slot, t: Slot)
    requires WF(g0) && IsClone(g0, classes, plan, g, c, order) && s.inst in c && t.inst in c
    requires forall a, b :: GroupWire(g0, c, a, b) ==> HasCopy(g0, classes, b)
    ensures Wired(g.props, Moved(c, s), Moved(c, t)) <==> Wired(g0.props, s, t)
  {
    var u, w := Moved(c, s), Moved(c, t);
    if Wired(g.props, u, w) {
      assert !Wired(g0.props, u, w) by { assert u.inst !in g0.info; }
      var a, b :| GroupWire(g0, c, a, b) && u == Moved(c, a) && w == Moved(c, b);
      assert a == s && b == t;
    }
    if Wired(g0.props, s, t) {
      assert GroupWire(g0, c, s, t) && (s, t) in order;
      HeardIsMade(g0, classes, order, (s, t));
    }
  }

  lemma HeardIsMade(g0: Graph, classes: Classes, order: seq<(Slot, Slot)>, x: (Slot, Slot))
    requires x in order && HasCopy(g0, classes, x.1)
    ensures x in Made(g0, classes, order)
  {
    var k: nat :| k < |order| && order[k] == x;
    assert MadeAt(g0, classes, order, x, k);
    MadeIff(g0, classes, order, x);
  }

  /** A wire of the group has a counterpart exactly when, at the time it is tried, what
      listens is there: it goes to the copy (a live pointer does not), it is where the
      wire starts, some wire tried before starts from it, or it is the count of an
      instance wired to before. */
  lemma CounterpartIff(g0: Graph, classes: Classes, plan: Plan, g: Graph, c: map<Id, Id>, order: seq<(Slot, Slot)>, s: Slot, t: Slot)
    requires IsClone(g0, classes, plan, g, c, order) && GroupWire(g0, c, s, t)
    ensures Wired(g.props, Moved(c, s), Moved(c, t)) <==> exists k :: MadeAt(g0, classes, order, (s, t), k)
  {
    hide Injective, InfoCopied, PathsCopied, CopiedAt, Untouched, Made;
    MadeIff(g0, classes, order, (s, t));
  }

  /** So a wire to a property that starts none, and counts none, has one exactly when that
      property goes to the copy, in whatever order they are tried. */
  lemma SinkCounterpartIff(g0: Graph, classes: Classes, plan: Plan, g: Graph, c: map<Id, Id>, order: seq<(Slot, Slot)>, s: Slot, t: Slot)
    requires IsClone(g0, classes, plan, g, c, order) && GroupWire(g0, c, s, t) && !Speaks(g0, c, t) && t.name != WIRING
    ensures Wired(g.props, Moved(c, s), Moved(c, t)) <==> HasCopy(g0, classes, t)
  {
    hide IsClone, HasCopy, Made, Speaks, MadeAt, Started;
    CounterpartIff(g0, classes, plan, g, c, order, s, t);
    OrderIsGroup(g0, classes, plan, g, c, order, s, t);
    SpeaksIsStarted(g0, c, order, t);
    assert s != t by { assert Speaks(g0, c, s) by { SpeaksHere(g0, c, s, t); } }
    MadeIsHeard(g0, classes, order, s, t);
  }

  lemma OrderIsGroup(g0: Graph, classes: Classes, plan: Plan, g: Graph, c: map<Id, Id>, order: seq<(Slot, Slot)>, s: Slot, t: Slot)
    requires IsClone(g0, classes, plan, g, c, order) && GroupWire(g0, c, s, t)
    ensures (s, t) in order && forall x :: x in order <==> GroupWire(g0, c, x.0, x.1)
  {
    hide InfoCopied, PathsCopied, Untouched, CopiedAt;
  }

  lemma MadeIsHeard(g0: Graph, classes: Classes, order: seq<(Slot, Slot)>, s: Slot, t: Slot)
    requires (s, t) in order && !Started(order, t) && t != s && t.name != WIRING
    ensures (exists k :: MadeAt(g0, classes, order, (s, t), k)) <==> HasCopy(g0, classes, t)
  {
    hide HasCopy, Made, Started;
    NeverStarted(order, t);
    var k: nat :| k < |order| && order[k] == (s, t);
    if HasCopy(g0, classes, t) { assert MadeAt(g0, classes, order, (s, t), k); }
  }

  lemma NeverStarted(order: seq<(Slot, Slot)>, t: Slot)
    requires !Started(order, t)
    ensures forall k :: 0 <= k <= |order| ==> !Started(order[..k], t)
  {
    forall k | 0 <= k <= |order| ensures !Started(order[..k], t) {
      assert forall j :: 0 <= j < k ==> order[..k][j] == order[j];
    }
  }

  // ---- a wire that is lost --------------------------------------------------------

  const ROOT := Info("Root", [], "Root", false)
  const VIEW := Info("View", ["Root"], "v", false)
  const BOX_A := Info("Box", ["Root", "v"], "a", false)
  const BOX_B := Info("Box", ["Root", "v"], "b", false)
  const OUT := Prop(Value("1", false), NoLink, [], [])
  const HELD := Prop(Value("7", true), NoLink, [], [])

  function Told(path: string): Prop {
    Prop(Value(path, false), NoLink, [], [])
  }

  /** What registering an instance makes of a graph when its class declares nothing. */
  function InPlace(g: Graph, id: Id, info: Info, k: Id): Graph {
    Graph(g.info[id := info], g.props[Slot(k, LAST) := Told(Spelled(PathOf(info)))], g.index[PathOf(info) := id], g.queue)
  }

  const ROOTED := Graph(map[1 := ROOT], map[], map[["Root"] := 1], [])
  const VIEWED := InPlace(ROOTED, 2, VIEW, 1)
  const HALF := InPlace(VIEWED, 3, BOX_A, 2)
  const BOXED := InPlace(HALF, 4, BOX_B, 2)
  const SPOKEN := BOXED.(props := BOXED.props[Slot(3, "Out") := OUT])
  const UNWIRED := SPOKEN.(props := SPOKEN.props[Slot(4, "Held") := HELD])

  /** A view with two boxes, one wired to a live pointer the other holds and its
      class does not declare. */
  const POINTED := UNWIRED.(props :=
    UNWIRED.props[Slot(3, "Out") := OUT.(subs := [Slot(4, "Held")])]
                 [Slot(4, "Held") := HELD.(backs := [Slot(3, "Out")])]
                 [Slot(4, WIRING) := Prop(Value("1", true), NoLink, [], [])])

  lemma PlacedIn(g: Graph, id: Id, info: Info, k: Id)
    requires info.name != "" && info.container in g.index && g.index[info.container] == k
    requires Slot(k, LAST) in g.props ==> Plain(g.props[Slot(k, LAST)])
    ensures Enrol(g, id, info, map[]) == InPlace(g, id, info, k)
  {
    hide PathOf, Spelled, NewProps;
    assert PathOf(info) != info.container by { PathLonger(info); }
    assert g.props + NewProps(id, map[]) == g.props by { NothingDeclared(id); }
  }

  lemma PathLonger(info: Info)
    ensures PathOf(info) != info.container
  {
    assert |PathOf(info)| == |info.container| + 1;
  }

  lemma NothingDeclared(id: Id)
    ensures NewProps(id, map[]) == map[]
  {}

  lemma RootFirst()
    ensures Enrol(EMPTY, 1, ROOT, map[]) == ROOTED
  {
    hide NewProps, Spelled, Write;
    NothingDeclared(1);
    assert PathOf(ROOT) == ["Root"];
  }

  lemma FirstWire(g: Graph, u: Slot, w: Slot)
    requires u in g.props && w in g.props && u != w && Plain(g.props[u]) && Plain(g.props[w])
    requires Slot(w.inst, WIRING) !in g.props
    ensures Connect(g, u.inst, u.name, w.inst, w.name) == g.(props :=
              g.props[u := g.props[u].(subs := [w])][w := g.props[w].(backs := [u])]
                     [Slot(w.inst, WIRING) := Prop(Value("1", true), NoLink, [], [])])
  {
    assert ShowNat(1) == "1";
    assert [w] + g.props[u].subs == [w] && [u] + g.props[w].backs == [u];
  }

  lemma BoxesPlaced()
    ensures BOXED.props.Keys == {Slot(1, LAST), Slot(2, LAST)} && BOXED.queue == []
  {
    hide PathOf, Spelled;
  }

  lemma BoxesWired()
    ensures SPOKEN == Write(BOXED, 3, "Out", OUT.value) && UNWIRED == Write(SPOKEN, 4, "Held", HELD.value)
    ensures POINTED == Connect(UNWIRED, 3, "Out", 4, "Held")
  {
    hide Connect, InPlace;
    BoxesPlaced();
    FirstWire(UNWIRED, Slot(3, "Out"), Slot(4, "Held"));
  }

  lemma PointedPaths()
    ensures PathOf(VIEW) == ["Root", "v"] && PathOf(BOX_A) == ["Root", "v", "a"] && PathOf(BOX_B) == ["Root", "v", "b"]
  {}

  lemma BoxesEnrolled()
    ensures Enrol(EMPTY, 1, ROOT, map[]) == ROOTED && Enrol(ROOTED, 2, VIEW, map[]) == VIEWED
    ensures Enrol(VIEWED, 3, BOX_A, map[]) == HALF && Enrol(HALF, 4, BOX_B, map[]) == BOXED
  {
    hide Enrol, Spelled, PathOf;
    PointedPaths();
    RootFirst();
    PlacedIn(ROOTED, 2, VIEW, 1);
    PlacedIn(VIEWED, 3, BOX_A, 2);
    PlacedIn(HALF, 4, BOX_B, 2);
  }

  lemma PointedInfo()
    ensures ROOTED.info.Keys == {1} && VIEWED.info.Keys == {1, 2} && HALF.info.Keys == {1, 2, 3}
    ensures POINTED.info == UNWIRED.info == BOXED.info == map[1 := ROOT, 2 := VIEW, 3 := BOX_A, 4 := BOX_B]
  {
    hide PathOf, Spelled;
  }

  lemma PlacingSteps()
    ensures Allowed(EMPTY, New(1, ROOT, map[])) && Next(EMPTY, New(1, ROOT, map[])) == ROOTED
    ensures Allowed(ROOTED, New(2, VIEW, map[])) && Next(ROOTED, New(2, VIEW, map[])) == VIEWED
    ensures Allowed(VIEWED, New(3, BOX_A, map[])) && Next(VIEWED, New(3, BOX_A, map[])) == HALF
    ensures Allowed(HALF, New(4, BOX_B, map[])) && Next(HALF, New(4, BOX_B, map[])) == BOXED
  {
    hide Enrol, Spelled, PathOf, InPlace;
    PointedInfo();
    BoxesEnrolled();
  }

  lemma WiringSteps()
    ensures Allowed(BOXED, WriteStep(3, "Out", OUT.value)) && Next(BOXED, WriteStep(3, "Out", OUT.value)) == SPOKEN
    ensures Allowed(SPOKEN, WriteStep(4, "Held", HELD.value)) && Next(SPOKEN, WriteStep(4, "Held", HELD.value)) == UNWIRED
    ensures Allowed(UNWIRED, Wire(3, "Out", 4, "Held")) && Next(UNWIRED, Wire(3, "Out", 4, "Held")) == POINTED
  {
    hide Write, Connect, Spelled, PathOf, InPlace;
    PointedInfo();
    BoxesWired();
  }

  /** The program can come to it. */
  lemma PointedIsReached() returns (steps: seq<Step>, trace: seq<Graph>)
    ensures IsRun(steps, trace) && trace[|steps|] == POINTED
  {
    hide Allowed, Next, EMPTY, ROOTED, VIEWED, HALF, BOXED, SPOKEN, UNWIRED, POINTED;
    steps := [New(1, ROOT, map[]), New(2, VIEW, map[]), New(3, BOX_A, map[]), New(4, BOX_B, map[]),
              WriteStep(3, "Out", OUT.value), WriteStep(4, "Held", HELD.value), Wire(3, "Out", 4, "Held")];
    trace := [EMPTY, ROOTED, VIEWED, HALF, BOXED, SPOKEN, UNWIRED, POINTED];
    PlacingSteps();
    WiringSteps();
  }

  const POINTED_PLAN := Plan(2, ["Root", "v"], ["Root"], "v_1")

  lemma PointedPlan()
    ensures PlanFor(POINTED, 2, ["Root"]) == POINTED_PLAN
  {
    hide POINTED;
    PointedInfo();
    assert Stem("v") == "v";
    assert ShowNat(1) == "1" && Numbered("v", 1) == "v_1";
    PointedIndex();
    assert At(["Root"], "v_1") == ["Root", "v_1"];
    assert NameFree(POINTED, ["Root"], "v_1");
  }

  lemma PointedIndex()
    ensures POINTED.index.Keys == {["Root"], ["Root", "v"], ["Root", "v", "a"], ["Root", "v", "b"]} && POINTED.index[["Root"]] == 1
  {
    hide Spelled, PathOf;
    PointedPaths();
  }

  lemma PointedProps()
    ensures forall s :: s in POINTED.props ==> POINTED.props[s].link.NoLink?
    ensures forall i :: Slot(i, LAST) in POINTED.props ==> !POINTED.props[Slot(i, LAST)].value.long
    ensures Wired(POINTED.props, Slot(3, "Out"), Slot(4, "Held"))
    ensures !Portable(POINTED.props, Slot(4, "Held")) && POINTED.props[Slot(4, "Held")].subs == []
  {
    hide Spelled, PathOf;
  }

  lemma PointedInside(i: Id)
    ensures Inside(POINTED.info, ["Root", "v"], i) <==> i == 3 || i == 4
  {
    hide POINTED, Home;
    PointedInfo();
    var info, root := POINTED.info, ["Root", "v"];
    assert Home(info, root, root) by { HomeAtRoot(info, root); }
    if i in info && Home(info, root, info[i].container) { HomeIsBelow(info, root, info[i].container); }
  }

  lemma HomeAtRoot(info: map<Id, Info>, root: Path)
    ensures Home(info, root, root)
  {}

  lemma PointedIsNamed()
    ensures Named(POINTED.info, ["Root", "v"])
  {
    hide POINTED, Inside, PathOf;
    PointedInfo();
    forall i ensures Inside(POINTED.info, ["Root", "v"], i) <==> i == 3 || i == 4 { PointedInside(i); }
    assert PathOf(BOX_A) != PathOf(BOX_B) by { PointedPaths(); }
  }

  lemma PointedFits()
    ensures WF(POINTED) ==> Fits(POINTED, POINTED_PLAN)
  {
    hide POINTED, WF;
    PointedInfo();
    PointedIndex();
    assert POINTED_PLAN.Dst() == ["Root", "v_1"];
  }

  /** All that CloneInstance asks for holds of it. */
  lemma PointedIsReady()
    ensures WF(POINTED) && Sound(POINTED, POINTED_PLAN) && Named(POINTED.info, POINTED_PLAN.src) && BareGroup(POINTED, POINTED_PLAN)
  {
    hide POINTED, Inside, WF, IsRun, Fits, Named;
    var steps, trace := PointedIsReached();
    RunKeepsWF(steps, trace);
    PointedFits();
    PointedIsNamed();
    PointedIndex();
    PointedProps();
    forall i ensures Inside(POINTED.info, ["Root", "v"], i) <==> i == 3 || i == 4 { PointedInside(i); }
  }

  /** The copies of those boxes are not wired. */
  lemma WireToAPointerIsLost(classes: Classes, g: Graph, c: map<Id, Id>, order: seq<(Slot, Slot)>)
    requires forall cls :: classes(cls) == map[]
    requires IsClone(POINTED, classes, PlanFor(POINTED, 2, ["Root"]), g, c, order)
    ensures Wired(POINTED.props, Slot(3, "Out"), Slot(4, "Held"))
    ensures 3 in c && 4 in c && !Wired(g.props, Slot(c[3], "Out"), Slot(c[4], "Held"))
  {
    hide POINTED, Inside, InfoCopied, PathsCopied, CopiedAt, Untouched, WiresCopied, PlanFor;
    PointedProps();
    PointedPlan();
    PointedInside(3);
    PointedInside(4);
    SinkCounterpartIff(POINTED, classes, POINTED_PLAN, g, c, order, Slot(3, "Out"), Slot(4, "Held"));
  }

  lemma OutcomeOfWiring(g0: Graph, classes: Classes, c: map<Id, Id>, d: Id, g1: Graph, g: Graph, order: seq<(Slot, Slot)>)
    requires WF(g0) && Injective(g0, c) && Rewired(g0, classes, c, d, g1, g, order)
    requires forall s, t :: GroupWire(g0, c, s, t) ==> (s, t) in order
    ensures WiresCopied(g0, classes, c, g, order)
  {
    hide HasCopy, Speaks, OnlyWires, Standing, Made;
    var made := Made(g0, classes, order);
    forall x: (Slot, Slot) | GroupWire(g0, c, x.0, x.1) ensures x in order { assert x == (x.0, x.1); }
    forall s, t | GroupWire(g0, c, s, t)
      ensures Wired(g.props, Moved(c, s), Moved(c, t)) <==> (s, t) in made
    {
      var u, w := Moved(c, s), Moved(c, t);
      if (s, t) in made { assert Counterpart(g0, c, made, u, w); }
      if Wired(g.props, u, w) {
        assert !Wired(g0.props, u, w) by { assert u.inst !in g0.info; }
        var a, b :| (a, b) in made && GroupWire(g0, c, a, b) && u == Moved(c, a) && w == Moved(c, b);
        assert a == s && b == t;
      }
    }
  }

  lemma OutcomeOfCopying(g0: Graph, classes: Classes, c: map<Id, Id>, plan: Plan, done: set<Slot>, g1: Graph, g: Graph, order: seq<(Slot, Slot)>)
    requires Relinked(g0, classes, g1, c, plan, done) && OnlyWires(g0, c, Dest(g0, plan), g1, g)
    requires Standing(g0, classes, c, g1, g, order) && forall x :: x in order <==> GroupWire(g0, c, x.0, x.1)
    requires forall o: Slot :: IsLink(g0.props, o) && o.inst in c ==> o in done
    ensures forall i, s: Slot :: i in c && s.inst == c[i] ==> CopiedAt(g0, classes, c, Slot(i, s.name), g.props, s)
    ensures Untouched(g0, g, Dest(g0, plan))
  {
    forall i, s: Slot | i in c && s.inst == c[i] ensures CopiedAt(g0, classes, c, Slot(i, s.name), g.props, s) {
      SpeaksIsStarted(g0, c, order, Slot(i, s.name));
      OutcomeAt(g0, classes, c, plan, done, g1, g, order, i, s);
    }
    hide WF, Relinked, OnlyWires, CopiedAt, Untouched, Dest, Standing;
    StillUntouchedByWires(g0, classes, c, plan, done, g1, g);
  }

  lemma SpeaksIsStarted(g0: Graph, c: map<Id, Id>, order: seq<(Slot, Slot)>, o: Slot)
    requires forall x :: x in order <==> GroupWire(g0, c, x.0, x.1)
    ensures Speaks(g0, c, o) <==> Started(order, o)
  {
    if t :| GroupWire(g0, c, o, t) {
      assert (o, t) in order;
      var k :| 0 <= k < |order| && order[k] == (o, t);
    }
    if k :| 0 <= k < |order| && order[k].0 == o { assert order[k] in order; }
  }

  lemma StillUntouchedByWires(g0: Graph, classes: Classes, c: map<Id, Id>, plan: Plan, done: set<Slot>, g1: Graph, g: Graph)
    requires Relinked(g0, classes, g1, c, plan, done) && OnlyWires(g0, c, Dest(g0, plan), g1, g)
    ensures Untouched(g0, g, Dest(g0, plan))
  {
    hide IsRelinked, InfoCopied, PathsCopied, Announced, Sound, OfTheGroup, Speaks, Dest;
    assert Live(g0) by { RelinkedLive(g0, classes, c, plan, done, g1); }
    forall s | s in g.props && s !in g0.props && s !in g1.props ensures s.inst !in g0.info {
      assert IsGrown(g0, c, g.props, s);
    }
  }

  lemma RelinkedLive(g0: Graph, classes: Classes, c: map<Id, Id>, plan: Plan, done: set<Slot>, g1: Graph)
    requires Relinked(g0, classes, g1, c, plan, done)
    ensures Live(g0)
  {}

  lemma OutcomeAt(g0: Graph, classes: Classes, c: map<Id, Id>, plan: Plan, done: set<Slot>, g1: Graph, g: Graph, order: seq<(Slot, Slot)>, i: Id, s: Slot)
    requires Relinked(g0, classes, g1, c, plan, done) && OnlyWires(g0, c, Dest(g0, plan), g1, g)
    requires Standing(g0, classes, c, g1, g, order) && (Speaks(g0, c, Slot(i, s.name)) <==> Started(order, Slot(i, s.name)))
    requires forall o: Slot :: IsLink(g0.props, o) && o.inst in c ==> o in done
    requires i in c && s.inst == c[i]
    ensures CopiedAt(g0, classes, c, Slot(i, s.name), g.props, s)
  {
    hide HasCopy, CopyProp, Speaks, WF, Announced, InfoCopied, PathsCopied, Untouched, Fits, Inside, Started, Made;
    assert IsRelinked(g0, classes, c, done, i, g1.props);
    assert RelinkedAt(g0, classes, c, done, Slot(i, s.name), g1.props, s);
    assert s == Moved(c, Slot(i, s.name));
    assert TidyOn(g0.props, i);
    CopyPropIsPlain(g0, classes, Slot(i, s.name));
    if s in g.props && s !in g1.props { GrownBy(g0, c, g.props, s, i); }
  }

  lemma GrownBy(g0: Graph, c: map<Id, Id>, props: map<Slot, Prop>, s: Slot, i: Id)
    requires Injective(g0, c) && IsGrown(g0, c, props, s) && i in c && s.inst == c[i]
    ensures s.name != WIRING ==> Speaks(g0, c, Slot(i, s.name))
  {
    if s.name != WIRING {
      var o: Slot :| o.inst in c && Speaks(g0, c, o) && s == Moved(c, o);
      assert o == Slot(i, s.name);
    }
  }
}
