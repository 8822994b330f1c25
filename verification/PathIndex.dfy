/** Naming (src/object.c): the path index, the Name and Container an instance carries,
    and the list of members each container keeps. Registering, renaming, moving and
    deleting have to keep the three in step. */
module PathIndex {

  type Id = nat

  /** A slash path, component by component. */
  type Path = seq<string>

  datatype Place = Place(container: Path, name: string)

  datatype Session = Session(
    places: map<Id, Place>,       // Container and Name of every instance
    index: map<Path, Id>,
    members: map<Id, seq<Id>>,
    last: map<Id, Path>)          // LastMember of the containers that were told of one

  function PathOf(at: Place): Path {
    at.container + [at.name]
  }

  /** PathOfInstance: the path derived from Container and Name, if it leads back. */
  predicate Addressable(s: Session, x: Id) {
    x in s.places && s.places[x].name != "" && PathOf(s.places[x]) in s.index && s.index[PathOf(s.places[x])] == x
  }

  function Up(p: Path): Path
    requires p != []
  {
    p[..|p| - 1]
  }

  predicate Once(q: seq<Id>) {
    forall i, j :: 0 <= i < j < |q| ==> q[i] != q[j]
  }

  function MembersOf(s: Session, c: Id): seq<Id> {
    if c in s.members then s.members[c] else []
  }

  /** x is registered directly under c. */
  predicate StandsIn(s: Session, c: Id, x: Id) {
    Addressable(s, x) && s.places[x].container in s.index && s.index[s.places[x].container] == c
  }

  /** Every path in the index is the one derived from its instance, so that no
      instance has two; and a container lists exactly what is registered directly
      under it, once each. */
  ghost predicate InStep(s: Session) {
    && (forall p :: p in s.index ==> s.index[p] in s.places && s.places[s.index[p]].name != "" && PathOf(s.places[s.index[p]]) == p)
    && (forall c, x :: x in MembersOf(s, c) <==> StandsIn(s, c, x))
    && (forall c :: Once(MembersOf(s, c)))
  }

  /** No path goes through this one. */
  ghost predicate IsLeaf(s: Session, p: Path) {
    forall q :: q in s.index ==> !(p < q)
  }

  // ---- what the operations do ------------------------------------------------------

  /** A list without the first entry for x. */
  function Without(q: seq<Id>, x: Id): seq<Id> {
    if q == [] then [] else if q[0] == x then q[1..] else [q[0]] + Without(q[1..], x)
  }

  lemma {:induction false} WithoutOnce(q: seq<Id>, x: Id)
    requires Once(q)
    ensures Once(Without(q, x)) && forall y :: y in Without(q, x) <==> y in q && y != x
  {
    if q != [] {
      var rest := q[1..];
      assert Once(rest);
      assert forall y :: y in q <==> y == q[0] || y in rest;
      assert q[0] !in rest;
      WithoutOnce(rest, x);
      if q[0] != x {
        var r := Without(rest, x);
        assert forall i :: 0 <= i < |r| ==> r[i] in r;
      }
    }
  }

  function ContainerOf(s: Session, p: Path): Id
    requires p != [] && Up(p) in s.index
  {
    s.index[Up(p)]
  }

  /** Retire a path, and take what it led to out of its container's list. */
  function Unregistered(s: Session, p: Path): Session
    requires p != []
  {
    if p in s.index && Up(p) in s.index && ContainerOf(s, p) in s.members then
      s.(index := s.index - {p}, members := s.members[ContainerOf(s, p) := Without(s.members[ContainerOf(s, p)], s.index[p])])
    else s.(index := s.index - {p})
  }

  function Added(q: seq<Id>, x: Id): seq<Id> {
    if x in q then q else q + [x]
  }

  /** Name an instance: an older path of its own is retired first; the path's last
      part becomes its Name, and the rest its Container when something is there, which
      is told the path. */
  function Registered(s: Session, p: Path, x: Id): Session
    requires p != [] && x in s.places
  {
    Put(Retired(s, p, x), p, x)
  }

  /** x without the path it had, unless that is p. */
  function Retired(s: Session, p: Path, x: Id): (t: Session)
    requires x in s.places
    ensures t.places == s.places
  {
    var was := PathOf(s.places[x]);
    if Addressable(s, x) && was != p then Unregistered(s, was) else s
  }

  function Put(t: Session, p: Path, x: Id): Session
    requires p != [] && x in t.places
  {
    var name := if p[|p| - 1] != "" then p[|p| - 1] else t.places[x].name;
    if Up(p) == [] || Up(p) !in t.index[p := x] then
      t.(index := t.index[p := x], places := t.places[x := Place(t.places[x].container, name)])
    else
      var c := t.index[p := x][Up(p)];
      Session(t.places[x := Place(Up(p), name)], t.index[p := x], t.members[c := Added(MembersOf(t, c), x)], t.last[c := p])
  }

  /** An instance goes: its path first, then itself. */
  function Deleted(s: Session, x: Id): Session
    requires x in s.places
  {
    var t := if Addressable(s, x) then Unregistered(s, PathOf(s.places[x])) else s;
    t.(places := t.places - {x}, members := t.members - {x}, last := t.last - {x})
  }

  // ---- what they keep ----------------------------------------------------------------

  lemma UpOfPath(at: Place)
    ensures PathOf(at) != [] && Up(PathOf(at)) == at.container && PathOf(at)[|PathOf(at)| - 1] == at.name
  {}

  /** Retiring a leaf's path keeps everything in step; nothing else loses its path. */
  lemma UnregisterKeeps(s: Session, p: Path)
    requires InStep(s) && p != [] && IsLeaf(s, p)
    ensures InStep(Unregistered(s, p)) && p !in Unregistered(s, p).index
    ensures forall x :: Addressable(Unregistered(s, p), x) <==> Addressable(s, x) && PathOf(s.places[x]) != p
  {
    var t := Unregistered(s, p);
    if p in s.index && Up(p) in s.index { WithoutOnce(MembersOf(s, ContainerOf(s, p)), s.index[p]); }
    forall c, x ensures x in MembersOf(t, c) <==> StandsIn(t, c, x) {
      assert x in MembersOf(s, c) <==> StandsIn(s, c, x);
      if x in s.places { UpOfPath(s.places[x]); }
      assert x in s.places && s.places[x].container == p ==> p < PathOf(s.places[x]);
      if p in s.index { UpOfPath(s.places[s.index[p]]); }
    }
    forall c ensures Once(MembersOf(t, c)) { assert Once(MembersOf(s, c)); }
  }

  /** A container is there and is not x itself; or none is, and x says already that
      it stands there, as a root does. */
  predicate Housed(s: Session, p: Path, x: Id)
    requires p != [] && x in s.places
  {
    if Up(p) in s.index then s.index[Up(p)] != x else s.places[x].container == Up(p)
  }

  /** Naming an instance that is new or a leaf, at a path with nothing below it. */
  ghost predicate Names(s: Session, p: Path, x: Id) {
    && p != [] && p[|p| - 1] != "" && x in s.places && IsLeaf(s, p)
    && (Addressable(s, x) ==> IsLeaf(s, PathOf(s.places[x])))
  }

  /** The name is free, or x's own. */
  predicate Free(s: Session, p: Path, x: Id) {
    p in s.index ==> s.index[p] == x
  }

  ghost predicate CanRegister(s: Session, p: Path, x: Id) {
    Names(s, p, x) && Free(s, p, x) && Housed(s, p, x)
  }

  lemma RegisterKeeps(s: Session, p: Path, x: Id)
    requires InStep(s) && CanRegister(s, p, x)
    ensures InStep(Registered(s, p, x)) && Addressable(Registered(s, p, x), x) && PathOf(Registered(s, p, x).places[x]) == p
    ensures forall y :: y != x ==> (Addressable(Registered(s, p, x), y) <==> Addressable(s, y))
  {
    hide InStep, Unregistered, Addressable, IsLeaf, Put;
    RetireKeeps(s, p, x);
    PutKeeps(Retired(s, p, x), p, x);
  }

  /** Ready to be put where it belongs: x has no path, or has this one already. */
  ghost predicate CanPut(t: Session, p: Path, x: Id) {
    && p != [] && p[|p| - 1] != "" && x in t.places && Free(t, p, x) && IsLeaf(t, p)
    && (Addressable(t, x) ==> PathOf(t.places[x]) == p) && Housed(t, p, x)
  }

  lemma RetireKeeps(s: Session, p: Path, x: Id)
    requires InStep(s) && CanRegister(s, p, x)
    ensures InStep(Retired(s, p, x)) && CanPut(Retired(s, p, x), p, x)
    ensures forall y :: y != x ==> (Addressable(Retired(s, p, x), y) <==> Addressable(s, y))
  {
    var was := PathOf(s.places[x]);
    UpOfPath(s.places[x]);
    if Addressable(s, x) && was != p { UnregisterKeeps(s, was); }
  }

  lemma PutKeeps(t: Session, p: Path, x: Id)
    requires InStep(t) && CanPut(t, p, x)
    ensures InStep(Put(t, p, x)) && Addressable(Put(t, p, x), x) && PathOf(Put(t, p, x).places[x]) == p
    ensures forall y :: y != x ==> (Addressable(Put(t, p, x), y) <==> Addressable(t, y))
  {
    var u := Put(t, p, x);
    UpAndLast(p);
    assert Up(p) != p && PathOf(u.places[x]) == p && u.index == t.index[p := x];
    PathsKept(t, u, p, x);
    OthersStand(t, u, p, x);
    hide PathOf, Up, IsLeaf;
    forall d, y ensures y in MembersOf(u, d) <==> StandsIn(u, d, y) {
      assert y in MembersOf(t, d) <==> StandsIn(t, d, y);
    }
    forall d ensures Once(MembersOf(u, d)) { assert Once(MembersOf(t, d)); }
  }

  lemma UpAndLast(p: Path)
    requires p != []
    ensures Up(p) + [p[|p| - 1]] == p && Up(p) != p
  {}

  /** Where the others stand is not touched: nothing is registered below p. */
  lemma OthersStand(t: Session, u: Session, p: Path, x: Id)
    requires InStep(t) && CanPut(t, p, x) && u.index == t.index[p := x]
    requires u.places.Keys == t.places.Keys && forall y :: y in t.places && y != x ==> u.places[y] == t.places[y]
    requires x in u.places && u.places[x] == Place(Up(p), p[|p| - 1])
    requires forall y :: y != x ==> (Addressable(u, y) <==> Addressable(t, y))
    ensures forall d, y :: y != x ==> (StandsIn(u, d, y) <==> StandsIn(t, d, y))
    ensures forall d :: StandsIn(u, d, x) <==> Up(p) in t.index && Addressable(u, x) && d == t.index[Up(p)]
    ensures forall d :: StandsIn(t, d, x) ==> Up(p) in t.index && d == t.index[Up(p)]
    ensures [] !in t.index
  {
    UpAndLast(p);
    UpOfPath(t.places[x]);
    forall q | q in t.index ensures q != [] { UpOfPath(t.places[t.index[q]]); }
    forall d, y | y != x ensures StandsIn(u, d, y) <==> StandsIn(t, d, y) {
      if y in t.places { UpOfPath(t.places[y]); }
      assert y in t.places && t.places[y].container == p ==> p < PathOf(t.places[y]);
    }
  }

  lemma PathsKept(t: Session, u: Session, p: Path, x: Id)
    requires InStep(t) && x in t.places && u.index == t.index[p := x] && (p in t.index ==> t.index[p] == x)
    requires x in u.places && PathOf(u.places[x]) == p && u.places[x].name != ""
    requires u.places.Keys == t.places.Keys && forall y :: y in t.places && y != x ==> u.places[y] == t.places[y]
    requires Addressable(t, x) ==> PathOf(t.places[x]) == p
    ensures forall q :: q in u.index ==>
              u.index[q] in u.places && u.places[u.index[q]].name != "" && PathOf(u.places[u.index[q]]) == q
    ensures forall y :: y != x ==> (Addressable(u, y) <==> Addressable(t, y))
  {
    forall q | q in u.index
      ensures u.index[q] in u.places && u.places[u.index[q]].name != "" && PathOf(u.places[u.index[q]]) == q
    {
      if q != p && t.index[q] == x { assert Addressable(t, x); }
    }
  }

  /** Exactly when: naming an instance keeps everything in step and takes nobody's
      path if and only if the name is free and the container is there. */
  lemma RegisterKeepsIff(s: Session, p: Path, x: Id)
    requires InStep(s) && Names(s, p, x)
    ensures InStep(Registered(s, p, x)) && (forall y :: y != x ==> (Addressable(Registered(s, p, x), y) <==> Addressable(s, y))) <==>
            Free(s, p, x) && Housed(s, p, x)
  {
    if !Free(s, p, x) {
      TakenLosesItsPath(s, p, x);
    } else if !Housed(s, p, x) {
      UnhousedIsAstray(s, p, x);
    } else {
      RegisterKeeps(s, p, x);
    }
  }

  lemma TakenLosesItsPath(s: Session, p: Path, x: Id)
    requires InStep(s) && Names(s, p, x) && !Free(s, p, x)
    ensures s.index[p] != x && Addressable(s, s.index[p]) && !Addressable(Registered(s, p, x), s.index[p])
  {}

  lemma UnhousedIsAstray(s: Session, p: Path, x: Id)
    requires InStep(s) && Names(s, p, x) && Free(s, p, x) && !Housed(s, p, x)
    ensures !InStep(Registered(s, p, x))
  {
    var t, u := Retired(s, p, x), Registered(s, p, x);
    UpAndLast(p);
    UpOfPath(s.places[x]);
    if Up(p) in s.index {
      assert Addressable(s, x) && PathOf(s.places[x]) == Up(p);
      assert |s.places[x].container| == |p| - 2;
    }
    assert Up(p) !in t.index[p := x];
    assert PathOf(u.places[x]) != p && u.index[p] == x;
  }

  lemma DeleteKeeps(s: Session, x: Id)
    requires InStep(s) && x in s.places && (Addressable(s, x) ==> IsLeaf(s, PathOf(s.places[x])))
    ensures InStep(Deleted(s, x))
    ensures forall y :: Addressable(Deleted(s, x), y) <==> Addressable(s, y) && y != x
  {
    var t := if Addressable(s, x) then Unregistered(s, PathOf(s.places[x])) else s;
    if Addressable(s, x) {
      UpOfPath(s.places[x]);
      UnregisterKeeps(s, PathOf(s.places[x]));
    }
    assert !Addressable(t, x) && InStep(t);
    var u := Deleted(s, x);
    forall c, y ensures y in MembersOf(u, c) <==> StandsIn(u, c, y) {
      assert y in MembersOf(t, c) <==> StandsIn(t, c, y);
      assert StandsIn(t, x, y) ==> Addressable(t, x);
      assert y in MembersOf(t, x) <==> StandsIn(t, x, y);
    }
    forall c ensures Once(MembersOf(u, c)) { assert Once(MembersOf(t, c)); }
  }

  // ---- where they fall out of step -------------------------------------------------

  const ROOM := Session(
    map[1 := Place([], "R"), 2 := Place(["R"], "a"), 3 := Place([], "")],
    map[["R"] := 1, ["R", "a"] := 2], map[1 := [2]], map[1 := ["R", "a"]])

  /** Registering over a name that is taken leaves its owner without a path, and
      still listed. */
  lemma TakenNameBreaks()
    ensures InStep(ROOM) && !InStep(Registered(ROOM, ["R", "a"], 3))
  {
    RoomInStep();
    var r := Registered(ROOM, ["R", "a"], 3);
    assert Up(["R", "a"]) == ["R"];
    assert 2 in MembersOf(r, 1) && !Addressable(r, 2);
  }

  /** Registering where no container is leaves an instance in the index under a path
      that is not its own. */
  lemma MissingContainerBreaks()
    ensures InStep(ROOM) && !InStep(Registered(ROOM, ["gone", "b"], 3))
  {
    RoomInStep();
    var p := ["gone", "b"];
    var r := Registered(ROOM, p, 3);
    assert Up(p) == ["gone"];
    assert p in r.index && r.index[p] == 3 && PathOf(r.places[3]) == ["b"];
    assert |PathOf(r.places[3])| != |p|;
  }

  lemma RoomInStep()
    ensures InStep(ROOM)
  {
    assert |["R"]| == 1 && |["R", "a"]| == 2 && PathOf(ROOM.places[2]) == ["R", "a"] && PathOf(ROOM.places[1]) == ["R"];
    forall c, x ensures x in MembersOf(ROOM, c) <==> StandsIn(ROOM, c, x) {
      assert [] !in ROOM.index by { assert |["R"]| == 1; }
    }
  }

  // ---- runs --------------------------------------------------------------------------

  datatype Step = Arrive(x: Id) | Register(p: Path, x: Id) | Unregister(p: Path) | Delete(x: Id)

  /** Arrivals have no name yet; the rest are leaves and free names. */
  ghost predicate Allowed(s: Session, step: Step) {
    match step
    case Arrive(x) => x !in s.places
    case Register(p, x) => CanRegister(s, p, x)
    case Unregister(p) => p != [] && IsLeaf(s, p)
    case Delete(x) => x in s.places && (Addressable(s, x) ==> IsLeaf(s, PathOf(s.places[x])))
  }

  ghost function Next(s: Session, step: Step): Session
    requires Allowed(s, step)
  {
    match step
    case Arrive(x) => s.(places := s.places[x := Place([], "")])
    case Register(p, x) => Registered(s, p, x)
    case Unregister(p) => Unregistered(s, p)
    case Delete(x) => Deleted(s, x)
  }

  ghost predicate IsRun(steps: seq<Step>, trace: seq<Session>) {
    && |trace| == |steps| + 1 && trace[0] == Session(map[], map[], map[], map[])
    && forall i :: 0 <= i < |steps| ==> Allowed(trace[i], steps[i]) && trace[i + 1] == Next(trace[i], steps[i])
  }

  lemma StepKeeps(s: Session, step: Step)
    requires InStep(s) && Allowed(s, step)
    ensures InStep(Next(s, step))
  {
    match step {
      case Arrive(x) =>
        var t := Next(s, step);
        assert forall y :: Addressable(t, y) <==> Addressable(s, y);
        forall c, y ensures y in MembersOf(t, c) <==> StandsIn(t, c, y) { assert y in MembersOf(s, c) <==> StandsIn(s, c, y); }
        forall c ensures Once(MembersOf(t, c)) { assert Once(MembersOf(s, c)); }
      case Register(p, x) => RegisterKeeps(s, p, x);
      case Unregister(p) => UnregisterKeeps(s, p);
      case Delete(x) => DeleteKeeps(s, x);
    }
  }

  lemma {:induction false} RunStaysInStep(steps: seq<Step>, trace: seq<Session>)
    requires IsRun(steps, trace)
    ensures InStep(trace[|steps|])
  {
    if steps != [] {
      var n := |steps| - 1;
      assert IsRun(steps[..n], trace[..n + 1]);
      RunStaysInStep(steps[..n], trace[..n + 1]);
      StepKeeps(trace[n], steps[n]);
    }
  }

  /** In every such run no instance answers to two paths, and each container lists
      exactly what is registered directly under it. */
  lemma OnePathEach(steps: seq<Step>, trace: seq<Session>, p: Path, q: Path)
    requires IsRun(steps, trace)
    ensures var s := trace[|steps|];
            && (p in s.index && q in s.index && s.index[p] == s.index[q] ==> p == q)
            && forall c, x :: x in MembersOf(s, c) <==> StandsIn(s, c, x)
  {
    RunStaysInStep(steps, trace);
  }

  /** What naming writes: the Name is the path's last part, unless that is empty; the
      Container is the rest when something stands there, which has the path for its last
      member from then on; the path leads to the instance, and nothing else is written. */
  lemma RegisterWrites(s: Session, p: Path, x: Id)
    requires p != [] && x in s.places
    ensures var r, up, base := Registered(s, p, x), p[..|p| - 1], p[|p| - 1];
            var told := up != [] && up in r.index;
            && p in r.index && r.index[p] == x
            && r.places == s.places[x := Place(if told then up else s.places[x].container, if base != "" then base else s.places[x].name)]
            && r.last == (if told then s.last[r.index[up] := p] else s.last)
            && (forall q :: q != p && q in r.index ==> q in s.index && r.index[q] == s.index[q])
            && forall q :: q in s.index && q !in r.index ==> s.index[q] == x && q == s.places[x].container + [s.places[x].name]
  {
    hide Registered, Retired, Put;
    RetiredWrites(s, x, p);
    PutWrites(Retired(s, p, x), p, x);
    assert Registered(s, p, x) == Put(Retired(s, p, x), p, x) by { RegisteredIs(s, p, x); }
  }

  lemma RegisteredIs(s: Session, p: Path, x: Id)
    requires p != [] && x in s.places
    ensures Registered(s, p, x) == Put(Retired(s, p, x), p, x)
  {}

  lemma RetiredWrites(s: Session, x: Id, p: Path)
    requires x in s.places
    ensures var t := Retired(s, p, x);
            && t.places == s.places && t.last == s.last
            && (forall q :: q in t.index ==> q in s.index && t.index[q] == s.index[q])
            && forall q :: q in s.index && q !in t.index ==> s.index[q] == x && q == s.places[x].container + [s.places[x].name]
  {
    hide Without;
  }

  lemma PutWrites(t: Session, p: Path, x: Id)
    requires p != [] && x in t.places
    ensures var r, up, base := Put(t, p, x), p[..|p| - 1], p[|p| - 1];
            var told := up != [] && up in r.index;
            && r.index == t.index[p := x]
            && r.places == t.places[x := Place(if told then up else t.places[x].container, if base != "" then base else t.places[x].name)]
            && r.last == (if told then t.last[r.index[up] := p] else t.last)
  {
    hide Added;
  }

  // ---- the order of members ------------------------------------------------------------

  /** y stands in front of z. */
  ghost predicate Before(q: seq<Id>, y: Id, z: Id) {
    exists a, b :: 0 <= a < b < |q| && q[a] == y && q[b] == z
  }

  /** r holds what is left of q, in the order it had, and at most the late ones behind it. */
  ghost predicate InOrder(q: seq<Id>, r: seq<Id>, late: set<Id>) {
    forall i, j :: 0 <= i < j < |r| && r[j] !in late ==> r[i] !in late && Before(q, r[i], r[j])
  }

  lemma {:induction false} WithoutInOrder(q: seq<Id>, x: Id)
    ensures InOrder(q, Without(q, x), {})
  {
    if q != [] {
      var rest, r := q[1..], Without(q, x);
      if q[0] == x {
        forall i, j | 0 <= i < j < |r| ensures Before(q, r[i], r[j]) { assert q[i + 1] == r[i] && q[j + 1] == r[j]; }
      } else {
        WithoutInOrder(rest, x);
        forall i, j | 0 <= i < j < |r| ensures Before(q, r[i], r[j]) { BehindFirst(q, Without(rest, x), i, j, x); }
      }
    }
  }

  lemma BehindFirst(q: seq<Id>, tail: seq<Id>, i: nat, j: nat, x: Id)
    requires q != [] && tail == Without(q[1..], x) && InOrder(q[1..], tail, {}) && i < j < |[q[0]] + tail|
    ensures Before(q, ([q[0]] + tail)[i], ([q[0]] + tail)[j])
  {
    var rest, r := q[1..], [q[0]] + tail;
    if i > 0 {
      assert Before(rest, tail[i - 1], tail[j - 1]);
      var a, b :| 0 <= a < b < |rest| && rest[a] == r[i] && rest[b] == r[j];
      assert q[a + 1] == r[i] && q[b + 1] == r[j];
    } else {
      StillThere(rest, x, tail[j - 1]);
      var b :| 0 <= b < |rest| && rest[b] == r[j];
      assert q[b + 1] == r[j];
    }
  }

  lemma {:induction false} StillThere(q: seq<Id>, x: Id, y: Id)
    requires y in Without(q, x)
    ensures y in q
  {
    if q != [] && q[0] != x && y != q[0] { StillThere(q[1..], x, y); }
  }

  lemma SameOrder(q: seq<Id>, late: set<Id>)
    requires forall i :: 0 <= i < |q| ==> q[i] !in late
    ensures InOrder(q, q, late)
  {
    forall i, j | 0 <= i < j < |q| ensures Before(q, q[i], q[j]) {}
  }

  lemma UnregisteredInOrder(s: Session, p: Path, d: Id)
    requires p != []
    ensures InOrder(MembersOf(s, d), MembersOf(Unregistered(s, p), d), {})
  {
    SameOrder(MembersOf(s, d), {});
    if p in s.index { WithoutInOrder(MembersOf(s, d), s.index[p]); }
    hide InOrder, Without;
  }

  /** x is given a place it did not have. */
  predicate Settles(s: Session, step: Step, x: Id) {
    step.Register? && step.x == x && !(Addressable(s, x) && PathOf(s.places[x]) == step.p)
  }

  /** One that is not listed goes to the end, behind those that are. */
  lemma AddedInOrder(q: seq<Id>, r: seq<Id>, x: Id)
    requires InOrder(q, r, {}) && x !in r
    ensures InOrder(q, Added(r, x), {x})
  {}

  lemma RegisteredInOrder(s: Session, p: Path, x: Id, d: Id)
    requires InStep(s) && CanRegister(s, p, x)
    ensures InOrder(MembersOf(s, d), MembersOf(Registered(s, p, x), d), if Settles(s, Register(p, x), x) then {x} else {})
  {
    var t, q := Retired(s, p, x), MembersOf(s, d);
    RetireKeeps(s, p, x);
    if Settles(s, Register(p, x), x) {
      SameOrder(q, {});
      if Addressable(s, x) { UnregisteredInOrder(s, PathOf(s.places[x]), d); }
      assert !Addressable(t, x) by { if Addressable(s, x) { UnregisterKeeps(s, PathOf(s.places[x])); } }
      assert x !in MembersOf(t, d);
      hide InOrder, IsLeaf, Once, Unregistered;
      assert InOrder(q, MembersOf(t, d), {});
      NoneFresh(q, MembersOf(t, d), x);
      AddedInOrder(q, MembersOf(t, d), x);
      assert MembersOf(Put(t, p, x), d) == MembersOf(t, d) || MembersOf(Put(t, p, x), d) == Added(MembersOf(t, d), x);
    } else {
      SameOrder(q, {});
      AlreadyListed(s, p, x, d);
    }
  }

  lemma NoneFresh(q: seq<Id>, r: seq<Id>, x: Id)
    requires InOrder(q, r, {}) && x !in r
    ensures InOrder(q, r, {x})
  {}

  /** Named where it is, an instance stays where it stands. */
  lemma AlreadyListed(s: Session, p: Path, x: Id, d: Id)
    requires InStep(s) && CanRegister(s, p, x) && Addressable(s, x) && PathOf(s.places[x]) == p
    ensures MembersOf(Registered(s, p, x), d) == MembersOf(s, d)
  {
    UpOfPath(s.places[x]);
    if Up(p) in s.index {
      var c := s.index[Up(p)];
      assert StandsIn(s, c, x) && x in MembersOf(s, c);
    }
  }

  lemma StepInOrder(s: Session, step: Step, x: Id, d: Id)
    requires InStep(s) && Allowed(s, step) && (step.Register? ==> step.x == x)
    ensures InOrder(MembersOf(s, d), MembersOf(Next(s, step), d), if Settles(s, step, x) then {x} else {})
  {
    match step
    case Arrive(y) => SameOrder(MembersOf(s, d), {});
    case Register(p, y) => RegisteredInOrder(s, p, y, d);
    case Unregister(p) => UnregisteredInOrder(s, p, d);
    case Delete(y) =>
      SameOrder(MembersOf(s, d), {});
      if Addressable(s, y) { UnregisteredInOrder(s, PathOf(s.places[y]), d); }
  }

  /** The last of the first n steps that gave y a new place. */
  ghost function Settled(steps: seq<Step>, trace: seq<Session>, n: nat, y: Id): (k: int)
    requires n <= |steps| < |trace|
    ensures k < n
  {
    if n == 0 then -1 else if Settles(trace[n - 1], steps[n - 1], y) then n - 1 else Settled(steps, trace, n - 1, y)
  }

  /** In every run, the members of a container stand in the order in which they were last
      given their places: renaming and moving puts one at the end, and nothing else moves. */
  lemma {:induction false} Seniority(steps: seq<Step>, trace: seq<Session>, n: nat, d: Id, i: nat, j: nat)
    requires IsRun(steps, trace) && n <= |steps| && i < j < |MembersOf(trace[n], d)|
    ensures Settled(steps, trace, n, MembersOf(trace[n], d)[i]) < Settled(steps, trace, n, MembersOf(trace[n], d)[j])
    decreases n
  {
    hide InOrder, Settles, Next, Allowed, InStep;
    if n > 0 {
      var step, was := steps[n - 1], trace[n - 1];
      var q, r := MembersOf(was, d), MembersOf(trace[n], d);
      var x := if step.Register? then step.x else 0;
      assert IsRun(steps[..n - 1], trace[..n]);
      RunStaysInStep(steps[..n - 1], trace[..n]);
      StepInOrder(was, step, x, d);
      RunStaysInStep(steps[..n], trace[..n + 1]);
      Apart(trace[n], d, i, j);
      OnlyOneSettles(was, step, x, r[i]);
      OnlyOneSettles(was, step, x, r[j]);
      if !Settles(was, step, r[j]) {
        var late: set<Id> := if Settles(was, step, x) then {x} else {};
        OrderOf(q, r, late, i, j);
        var a, b :| 0 <= a < b < |q| && q[a] == r[i] && q[b] == r[j];
        Seniority(steps, trace, n - 1, d, a, b);
      }
    }
  }

  lemma OnlyOneSettles(s: Session, step: Step, x: Id, y: Id)
    requires step.Register? ==> step.x == x
    ensures Settles(s, step, y) <==> y == x && Settles(s, step, x)
  {}

  lemma OrderOf(q: seq<Id>, r: seq<Id>, late: set<Id>, i: nat, j: nat)
    requires InOrder(q, r, late) && i < j < |r| && r[j] !in late
    ensures r[i] !in late && Before(q, r[i], r[j])
  {}

  lemma Apart(s: Session, d: Id, i: nat, j: nat)
    requires InStep(s) && i < j < |MembersOf(s, d)|
    ensures MembersOf(s, d)[i] != MembersOf(s, d)[j]
  {
    assert Once(MembersOf(s, d));
  }

  // ---- the program -------------------------------------------------------------------

  class Naming {
    var places: map<Id, Place>
    var index: map<Path, Id>
    var members: map<Id, seq<Id>>
    var last: map<Id, Path>

    ghost function S(): Session
      reads this
    {
      Session(places, index, members, last)
    }

    constructor ()
      ensures InStep(S()) && S() == Session(map[], map[], map[], map[])
    {
      places, index, members, last := map[], map[], map[], map[];
    }

    /** Named twice is not two members. */
    method AddMember(container: Id, x: Id)
      modifies this`members
      ensures members == old(members)[container := Added(MembersOf(old(S()), container), x)]
    {
      var list := if container in members then members[container] else [];
      var i := 0;
      while i < |list| && list[i] != x
        invariant 0 <= i <= |list| && x !in list[..i]
      {
        i := i + 1;
      }
      members := members[container := if i < |list| then list else list + [x]];
    }

    method RemoveMember(container: Id, x: Id)
      modifies this`members
      ensures members == if container in old(members) then old(members)[container := Without(old(members)[container], x)] else old(members)
    {
      if container !in members { return; }
      var list, i := members[container], 0;
      while i < |list| && list[i] != x
        invariant 0 <= i <= |list| && x !in list[..i]
      {
        i := i + 1;
      }
      WithoutAt(list, x, i);
      if i < |list| { members := members[container := list[..i] + list[i + 1..]]; }
    }

    method PathOfInstance(x: Id) returns (found: bool)
      requires x in places
      ensures found <==> Addressable(S(), x)
    {
      if places[x].name == "" { return false; }
      var p := PathOf(places[x]);
      found := p in index && index[p] == x;
    }

    /** Resolve first, un-name, then out of the container's list. */
    method UnregisterPath(p: Path)
      requires p != []
      modifies this`index, this`members
      ensures S() == Unregistered(old(S()), p)
      ensures InStep(old(S())) && IsLeaf(old(S()), p) ==> InStep(S())
    {
      ghost var was := S();
      if InStep(was) && IsLeaf(was, p) { UnregisterKeeps(was, p); }
      hide InStep, IsLeaf;
      if p in index && Up(p) in index {
        var x, container := index[p], index[Up(p)];
        index := index - {p};
        RemoveMember(container, x);
      } else {
        index := index - {p};
      }
    }

    /** Name an instance: a second name is a move. */
    method RegisterPath(p: Path, x: Id)
      requires p != [] && x in places
      modifies this
      ensures S() == Registered(old(S()), p, x)
      ensures InStep(old(S())) && CanRegister(old(S()), p, x) ==> InStep(S()) && Addressable(S(), x) && PathOf(places[x]) == p
      ensures Up(p) != [] && Up(p) in index ==> index[Up(p)] in last && last[index[Up(p)]] == p
    {
      ghost var was := S();
      if InStep(was) && CanRegister(was, p, x) { RegisterKeeps(was, p, x); }
      hide InStep, CanRegister, IsLeaf, Unregistered, Added;
      var own := PathOf(places[x]);
      var named := PathOfInstance(x);
      if named && own != p { UnregisterPath(own); }
      PutPath(p, x);
    }

    /** The index entry, the Name, the Container and the container's LastMember and list. */
    method PutPath(p: Path, x: Id)
      requires p != [] && x in places
      modifies this
      ensures S() == Put(old(S()), p, x)
    {
      hide Added, Up;
      var base := p[|p| - 1];
      var name := if base != "" then base else places[x].name;
      index := index[p := x];
      places := places[x := Place(places[x].container, name)];
      if Up(p) != [] && Up(p) in index {
        var container := index[Up(p)];
        places := places[x := Place(Up(p), name)];
        last := last[container := p];
        AddMember(container, x);
        assert places == old(places)[x := Place(Up(p), name)];
      }
    }

    /** An instance is un-named before it goes. */
    method DeleteInstance(x: Id)
      requires x in places
      modifies this
      ensures S() == Deleted(old(S()), x)
      ensures InStep(old(S())) && (Addressable(old(S()), x) ==> IsLeaf(old(S()), PathOf(old(places)[x]))) ==> InStep(S())
    {
      ghost var was := S();
      if InStep(was) && (Addressable(was, x) ==> IsLeaf(was, PathOf(places[x]))) { DeleteKeeps(was, x); }
      hide InStep, IsLeaf, Unregistered;
      var named := PathOfInstance(x);
      if named { UnregisterPath(PathOf(places[x])); }
      places, members, last := places - {x}, members - {x}, last - {x};
    }
  }

  lemma {:induction false} WithoutAt(q: seq<Id>, x: Id, i: nat)
    requires i <= |q| && x !in q[..i] && (i < |q| ==> q[i] == x)
    ensures Without(q, x) == if i < |q| then q[..i] + q[i + 1..] else q
    decreases |q|
  {
    if q != [] && i == 0 {
      assert q[..0] + q[1..] == q[1..];
    } else if q != [] {
      var rest := q[1..];
      assert q[0] in q[..i] && rest[..i - 1] == q[..i][1..] && q == [q[0]] + rest;
      WithoutAt(rest, x, i - 1);
      hide Without;
      assert Without(q, x) == [q[0]] + Without(rest, x) by { WithoutRest(q, x); }
      if i < |q| { CutBehind(q[0], rest, i); }
    }
  }

  lemma WithoutRest(q: seq<Id>, x: Id)
    requires q != [] && q[0] != x
    ensures Without(q, x) == [q[0]] + Without(q[1..], x)
  {}

  lemma CutBehind(first: Id, rest: seq<Id>, i: nat)
    requires 0 < i <= |rest|
    ensures ([first] + rest)[..i] + ([first] + rest)[i + 1..] == [first] + (rest[..i - 1] + rest[i..])
  {}
}
