/** Class bring-up (loadClasses, src/object.c): every scanned library is started
    once the libraries and classes it depends on are there. The work list is a
    ring; a library that still waits goes to its back. */
module ClassLoader {
  import opened Decimal

  datatype Version = Version(major: int, minor: int)

  /** What a dependency asks of a class's version, as text. Nothing asked accepts any. */
  datatype Want = Want(major: string, minor: string)

  datatype Dependency = Dependency(file: string, cls: string, want: Want)

  datatype Library = Library(file: string, loaded: bool, deps: seq<Dependency>, registers: seq<(string, Version)>)

  type Classes = map<string, Version>

  predicate VersionOk(v: Version, want: Want) {
    want.major == "" || (v.major == Atoi(want.major) && (want.minor == "" || v.minor >= Atoi(want.minor)))
  }

  /** Registering a class: a name that is taken keeps the class it has. */
  function Register(classes: Classes, registers: seq<(string, Version)>): Classes
    decreases |registers|
  {
    if registers == [] then classes
    else
      var (name, v) := registers[0];
      Register(if name in classes then classes else classes[name := v], registers[1..])
  }

  lemma {:induction false} RegisterKeeps(classes: Classes, registers: seq<(string, Version)>, name: string)
    requires name in classes
    ensures name in Register(classes, registers) && Register(classes, registers)[name] == classes[name]
    decreases |registers|
  {
    if registers != [] {
      var (n, v) := registers[0];
      RegisterKeeps(if n in classes then classes else classes[n := v], registers[1..], name);
    }
  }

  // ---- what a run of bring-up is ------------------------------------------

  /** The registry when bring-up begins: the libraries in the order they were
      scanned, and the classes the core registered itself. */
  datatype Registry = Registry(libs: seq<Library>, core: Classes)

  /** The library a file name stands for: the last one scanned under it. */
  function FileIndex(libs: seq<Library>): (m: map<string, nat>)
    ensures forall f :: f in m ==> m[f] < |libs| && libs[m[f]].file == f
    ensures forall i :: 0 <= i < |libs| && libs[i].file != "" ==> libs[i].file in m
  {
    if libs == [] then map[]
    else
      var last := |libs| - 1;
      var m := FileIndex(libs[..last]);
      if libs[last].file == "" then m else m[libs[last].file := last]
  }

  predicate InRange(r: Registry, hist: seq<nat>) {
    forall i :: 0 <= i < |hist| ==> hist[i] < |r.libs|
  }

  /** The classes registered once the libraries of hist have started, in turn. */
  function ClassesAfter(r: Registry, hist: seq<nat>): Classes
    requires InRange(r, hist)
  {
    if hist == [] then r.core
    else Register(ClassesAfter(r, hist[..|hist| - 1]), r.libs[hist[|hist| - 1]].registers)
  }

  predicate Up(r: Registry, hist: seq<nat>, l: nat)
    requires l < |r.libs|
  {
    r.libs[l].loaded || l in hist
  }

  predicate Met(r: Registry, hist: seq<nat>, d: Dependency)
    requires InRange(r, hist)
  {
    && d.file in FileIndex(r.libs) && Up(r, hist, FileIndex(r.libs)[d.file])
    && d.cls in ClassesAfter(r, hist) && VersionOk(ClassesAfter(r, hist)[d.cls], d.want)
  }

  predicate Startable(r: Registry, hist: seq<nat>, l: nat)
    requires InRange(r, hist) && l < |r.libs|
  {
    forall d :: d in r.libs[l].deps ==> Met(r, hist, d)
  }

  /** Each library starts at most once, and only when everything it depends on
      is up at a version it accepts. */
  ghost predicate IsRun(r: Registry, hist: seq<nat>) {
    && InRange(r, hist)
    && (forall i, j :: 0 <= i < j < |hist| ==> hist[i] != hist[j])
    && forall i :: 0 <= i < |hist| ==> !r.libs[hist[i]].loaded && Startable(r, hist[..i], hist[i])
  }

  /** Nothing that is left could be started. */
  ghost predicate Complete(r: Registry, hist: seq<nat>)
    requires InRange(r, hist)
  {
    forall l :: 0 <= l < |r.libs| && !Up(r, hist, l) ==> !Startable(r, hist, l)
  }

  /** What is met stays met as more libraries start. */
  lemma MetStays(r: Registry, hist: seq<nat>, l: nat, d: Dependency)
    requires InRange(r, hist) && l < |r.libs| && Met(r, hist, d)
    ensures InRange(r, hist + [l]) && Met(r, hist + [l], d)
  {
    assert (hist + [l])[..|hist|] == hist;
    RegisterKeeps(ClassesAfter(r, hist), r.libs[l].registers, d.cls);
  }

  // ---- the least fixed point ----------------------------------------------

  /** No two classes share a name, within the modules or with the core. */
  ghost predicate UniqueNames(r: Registry) {
    && (forall a, i :: 0 <= a < |r.libs| && 0 <= i < |r.libs[a].registers| ==> r.libs[a].registers[i].0 !in r.core)
    && forall a, i, b, j | 0 <= a < |r.libs| && 0 <= i < |r.libs[a].registers|
                         && 0 <= b < |r.libs| && 0 <= j < |r.libs[b].registers| ::
         r.libs[a].registers[i].0 == r.libs[b].registers[j].0 ==> a == b && i == j
  }

  /** A class is there at a version once the libraries of s are up. */
  ghost predicate Has(r: Registry, s: set<nat>, name: string, v: Version) {
    || (name in r.core && r.core[name] == v)
    || exists l :: l in s && 0 <= l < |r.libs| && (name, v) in r.libs[l].registers
  }

  /** A dependency is satisfied by a set of libraries, in whatever order. */
  ghost predicate Sat(r: Registry, s: set<nat>, d: Dependency) {
    && d.file in FileIndex(r.libs)
    && (var m := FileIndex(r.libs)[d.file]; r.libs[m].loaded || m in s)
    && exists v :: Has(r, s, d.cls, v) && VersionOk(v, d.want)
  }

  ghost predicate Ready(r: Registry, s: set<nat>, l: nat)
    requires l < |r.libs|
  {
    !r.libs[l].loaded && forall d :: d in r.libs[l].deps ==> Sat(r, s, d)
  }

  /** A set that every library it satisfies belongs to. */
  ghost predicate Closed(r: Registry, s: set<nat>) {
    forall l :: 0 <= l < |r.libs| && Ready(r, s, l) ==> l in s
  }

  function SetOf(hist: seq<nat>): set<nat> {
    set x | x in hist
  }

  lemma SatGrows(r: Registry, s: set<nat>, t: set<nat>, d: Dependency)
    requires s <= t && Sat(r, s, d)
    ensures Sat(r, t, d)
  {
    var v :| Has(r, s, d.cls, v) && VersionOk(v, d.want);
    assert Has(r, t, d.cls, v);
  }

  /** Fresh names are all registered. */
  lemma {:induction false} RegisterAll(classes: Classes, regs: seq<(string, Version)>, name: string, v: Version)
    requires forall i :: 0 <= i < |regs| ==> regs[i].0 !in classes
    requires forall i, j :: 0 <= i < j < |regs| ==> regs[i].0 != regs[j].0
    ensures name in Register(classes, regs) && Register(classes, regs)[name] == v <==>
            (name in classes && classes[name] == v) || (name, v) in regs
    decreases |regs|
  {
    if regs != [] {
      var (n, w) := regs[0];
      RegisterAll(classes[n := w], regs[1..], name, v);
      assert regs == [(n, w)] + regs[1..];
      forall j | 0 <= j < |regs[1..]| ensures regs[1..][j].0 != n { assert regs[1..][j] == regs[j + 1]; }
    }
  }

  /** A class the newest library registers was not there before. */
  lemma NotThereBefore(r: Registry, hist: seq<nat>, i: nat, w: Version)
    requires UniqueNames(r) && InRange(r, hist) && forall i, j :: 0 <= i < j < |hist| ==> hist[i] != hist[j]
    requires hist != [] && i < |r.libs[hist[|hist| - 1]].registers|
    ensures !Has(r, SetOf(hist[..|hist| - 1]), r.libs[hist[|hist| - 1]].registers[i].0, w)
  {
    var l := hist[|hist| - 1];
    var name := r.libs[l].registers[i].0;
    forall k | k in SetOf(hist[..|hist| - 1]) && 0 <= k < |r.libs| ensures (name, w) !in r.libs[k].registers {
      forall j | 0 <= j < |r.libs[k].registers| ensures r.libs[k].registers[j].0 != name { assert k != l; }
    }
  }

  lemma NameIsHas(r: Registry, hist: seq<nat>, name: string)
    requires UniqueNames(r) && InRange(r, hist) && forall i, j :: 0 <= i < j < |hist| ==> hist[i] != hist[j]
    ensures name in ClassesAfter(r, hist) ==> Has(r, SetOf(hist), name, ClassesAfter(r, hist)[name])
    decreases |hist|, 1
  {
    if name in ClassesAfter(r, hist) { ClassesAreHas(r, hist, name, ClassesAfter(r, hist)[name]); }
  }

  /** With unique names the class index depends only on which libraries are up. */
  lemma {:induction false} ClassesAreHas(r: Registry, hist: seq<nat>, name: string, v: Version)
    requires UniqueNames(r) && InRange(r, hist) && forall i, j :: 0 <= i < j < |hist| ==> hist[i] != hist[j]
    ensures name in ClassesAfter(r, hist) && ClassesAfter(r, hist)[name] == v <==> Has(r, SetOf(hist), name, v)
    decreases |hist|, 0
  {
    hide Register;
    if hist != [] {
      var n := |hist| - 1;
      var before, l := hist[..n], hist[n];
      var regs := r.libs[l].registers;
      ClassesAreHas(r, before, name, v);
      forall i | 0 <= i < |regs| ensures regs[i].0 !in ClassesAfter(r, before) {
        NameIsHas(r, before, regs[i].0);
        forall w: Version ensures !Has(r, SetOf(before), regs[i].0, w) { NotThereBefore(r, hist, i, w); }
      }
      RegisterAll(ClassesAfter(r, before), regs, name, v);
      assert hist == before + [l];
      assert SetOf(hist) == SetOf(before) + {l};
    }
  }

  // Names need not be unique: it is enough that no dependency tells the classes of
  // one name apart.

  /** A class of that name and version the core or a library to start registers. */
  ghost predicate Offered(r: Registry, name: string, v: Version) {
    || (name in r.core && r.core[name] == v)
    || exists l :: 0 <= l < |r.libs| && !r.libs[l].loaded && (name, v) in r.libs[l].registers
  }

  ghost predicate Asked(r: Registry, d: Dependency) {
    exists l :: 0 <= l < |r.libs| && !r.libs[l].loaded && d in r.libs[l].deps
  }

  /** Whatever is asked of a name, all classes of that name answer it alike. */
  ghost predicate Agreeing(r: Registry) {
    forall d, v, w :: Asked(r, d) && Offered(r, d.cls, v) && Offered(r, d.cls, w) ==>
      (VersionOk(v, d.want) <==> VersionOk(w, d.want))
  }

  lemma UniqueNamesAgree(r: Registry)
    requires UniqueNames(r)
    ensures Agreeing(r)
  {
    forall name, v, w | Offered(r, name, v) && Offered(r, name, w) ensures v == w {
      if name !in r.core {
        var a :| 0 <= a < |r.libs| && (name, v) in r.libs[a].registers;
        var b :| 0 <= b < |r.libs| && (name, w) in r.libs[b].registers;
        var i :| 0 <= i < |r.libs[a].registers| && r.libs[a].registers[i] == (name, v);
        var j :| 0 <= j < |r.libs[b].registers| && r.libs[b].registers[j] == (name, w);
        assert r.libs[a].registers[i].0 == r.libs[b].registers[j].0;
      }
    }
  }

  lemma {:induction false} RegisterNames(classes: Classes, regs: seq<(string, Version)>, name: string)
    ensures name in Register(classes, regs) <==> name in classes || exists v :: (name, v) in regs
    ensures name in Register(classes, regs) && name !in classes ==> (name, Register(classes, regs)[name]) in regs
    ensures name in classes ==> name in Register(classes, regs) && Register(classes, regs)[name] == classes[name]
    decreases |regs|
  {
    RegisterKeepsIf(classes, regs, name);
    if regs != [] {
      var (n, w) := regs[0];
      RegisterNames(if n in classes then classes else classes[n := w], regs[1..], name);
      assert regs == [(n, w)] + regs[1..];
      if name == n { assert (name, w) in regs; }
    }
  }

  lemma RegisterKeepsIf(classes: Classes, regs: seq<(string, Version)>, name: string)
    ensures name in classes ==> name in Register(classes, regs) && Register(classes, regs)[name] == classes[name]
  {
    if name in classes { RegisterKeeps(classes, regs, name); }
  }

  /** Which names the index holds does not depend on the order, and what it holds was
      registered by something that is up. */
  lemma {:induction false} NamesAreHas(r: Registry, hist: seq<nat>, name: string)
    requires InRange(r, hist)
    ensures name in ClassesAfter(r, hist) <==> exists v :: Has(r, SetOf(hist), name, v)
    ensures name in ClassesAfter(r, hist) ==> Has(r, SetOf(hist), name, ClassesAfter(r, hist)[name])
    decreases |hist|
  {
    if hist == [] {
      assert name in r.core ==> Has(r, SetOf(hist), name, r.core[name]);
    } else {
      hide Register;
      var n := |hist| - 1;
      var before, l := hist[..n], hist[n];
      NamesAreHas(r, before, name);
      RegisterNames(ClassesAfter(r, before), r.libs[l].registers, name);
      assert hist == before + [l];
      assert SetOf(hist) == SetOf(before) + {l};
      forall v ensures Has(r, SetOf(hist), name, v) <==> Has(r, SetOf(before), name, v) || (name, v) in r.libs[l].registers {}
    }
  }

  lemma MetIsSat(r: Registry, hist: seq<nat>, d: Dependency)
    requires InRange(r, hist)
    ensures Met(r, hist, d) ==> Sat(r, SetOf(hist), d)
    ensures Agreeing(r) && IsRun(r, hist) && Asked(r, d) ==> (Met(r, hist, d) <==> Sat(r, SetOf(hist), d))
  {
    var c := ClassesAfter(r, hist);
    NamesAreHas(r, hist, d.cls);
    if v :| IsRun(r, hist) && Has(r, SetOf(hist), d.cls, v) && VersionOk(v, d.want) {
      HasIsOffered(r, hist, d.cls, v);
      HasIsOffered(r, hist, d.cls, c[d.cls]);
    }
  }

  lemma HasIsOffered(r: Registry, hist: seq<nat>, name: string, v: Version)
    requires IsRun(r, hist) && Has(r, SetOf(hist), name, v)
    ensures Offered(r, name, v)
  {
    if l :| l in SetOf(hist) && 0 <= l < |r.libs| && (name, v) in r.libs[l].registers {
      var i :| 0 <= i < |hist| && hist[i] == l;
    }
  }

  /** Whatever is started belongs to every closed set. */
  lemma {:induction false} RunStaysInside(r: Registry, hist: seq<nat>, s: set<nat>)
    requires IsRun(r, hist) && Closed(r, s)
    ensures SetOf(hist) <= s
    decreases |hist|
  {
    if hist != [] {
      var n := |hist| - 1;
      var before, l := hist[..n], hist[n];
      forall i | 0 <= i < n ensures Startable(r, before[..i], before[i]) {
        assert before[..i] == hist[..i];
      }
      RunStaysInside(r, before, s);
      forall d | d in r.libs[l].deps ensures Sat(r, s, d) {
        MetIsSat(r, before, d);
        SatGrows(r, SetOf(before), s, d);
      }
      assert Ready(r, s, l);
      assert hist == before + [l];
    }
  }

  /** Where the classes of one name answer alike, a complete bring-up starts exactly
      the least set closed under "everything it depends on is there". */
  lemma StartedIsLeastFixedPoint(r: Registry, hist: seq<nat>)
    requires Agreeing(r) && IsRun(r, hist) && Complete(r, hist)
    ensures Closed(r, SetOf(hist)) && forall s :: Closed(r, s) ==> SetOf(hist) <= s
  {
    forall l | 0 <= l < |r.libs| && Ready(r, SetOf(hist), l) ensures l in SetOf(hist) {
      forall d | d in r.libs[l].deps ensures Met(r, hist, d) { MetIsSat(r, hist, d); }
      assert Startable(r, hist, l);
    }
    forall s | Closed(r, s) ensures SetOf(hist) <= s { RunStaysInside(r, hist, s); }
  }

  /** So which libraries come up does not depend on the order of the work list. */
  lemma OrderDoesNotMatter(r: Registry, hist1: seq<nat>, hist2: seq<nat>)
    requires Agreeing(r) && IsRun(r, hist1) && Complete(r, hist1) && IsRun(r, hist2) && Complete(r, hist2)
    ensures SetOf(hist1) == SetOf(hist2)
  {
    StartedIsLeastFixedPoint(r, hist1);
    StartedIsLeastFixedPoint(r, hist2);
  }

  // When it does depend on the order.

  /** A class a library asks for is registered at a version it refuses. */
  ghost predicate Refused(r: Registry, hist: seq<nat>, l: nat)
    requires InRange(r, hist) && l < |r.libs|
  {
    exists d :: d in r.libs[l].deps && d.cls in ClassesAfter(r, hist) && !VersionOk(ClassesAfter(r, hist)[d.cls], d.want)
  }

  /** The first registration stands: what it refuses stays refused. */
  lemma {:induction false} RefusedStays(r: Registry, hist: seq<nat>, full: seq<nat>, l: nat)
    requires InRange(r, full) && hist <= full && l < |r.libs| && InRange(r, hist) && Refused(r, hist, l)
    ensures Refused(r, full, l)
    decreases |full|
  {
    if hist != full {
      var n := |full| - 1;
      RefusedStays(r, hist, full[..n], l);
      var d :| d in r.libs[l].deps && d.cls in ClassesAfter(r, full[..n]) && !VersionOk(ClassesAfter(r, full[..n])[d.cls], d.want);
      RegisterKeeps(ClassesAfter(r, full[..n]), r.libs[full[n]].registers, d.cls);
    }
  }

  lemma {:induction false} StartableStays(r: Registry, hist: seq<nat>, full: seq<nat>, l: nat)
    requires InRange(r, full) && hist <= full && l < |r.libs| && InRange(r, hist) && Startable(r, hist, l)
    ensures Startable(r, full, l)
    decreases |full|
  {
    if hist != full {
      var n := |full| - 1;
      StartableStays(r, hist, full[..n], l);
      assert full == full[..n] + [full[n]];
      forall d | d in r.libs[l].deps ensures Met(r, full, d) { MetStays(r, full[..n], full[n], d); }
    }
  }

  /** A library that a run refuses is not among those it started, nor ever will be. */
  lemma RefusedNeverStarts(r: Registry, hist: seq<nat>, l: nat)
    requires IsRun(r, hist) && l < |r.libs| && Refused(r, hist, l)
    ensures l !in hist
  {
    if i :| 0 <= i < |hist| && hist[i] == l {
      StartableStays(r, hist[..i], hist, l);
    }
  }

  /** Every bring-up can be carried to its end. */
  lemma {:induction false} RunGoesOn(r: Registry, hist: seq<nat>) returns (full: seq<nat>)
    requires IsRun(r, hist)
    ensures IsRun(r, full) && Complete(r, full) && hist <= full
    decreases |set l | 0 <= l < |r.libs| && l !in hist|
  {
    if Complete(r, hist) {
      full := hist;
    } else {
      var l :| 0 <= l < |r.libs| && !Up(r, hist, l) && Startable(r, hist, l);
      RunGrows(r, hist, l);
      var left := set k | 0 <= k < |r.libs| && k !in hist;
      assert (set k | 0 <= k < |r.libs| && k !in hist + [l]) == left - {l};
      full := RunGoesOn(r, hist + [l]);
    }
  }

  /** What a complete run did not start, though another run could, it refused. */
  lemma Overlooked(r: Registry, hist: seq<nat>, full: seq<nat>, l: nat)
    requires IsRun(r, hist) && IsRun(r, full) && Complete(r, full) && SetOf(hist) <= SetOf(full)
    requires l < |r.libs| && !Up(r, full, l) && Startable(r, hist, l)
    ensures Refused(r, full, l)
  {
    var d :| d in r.libs[l].deps && !Met(r, full, d);
    assert Met(r, hist, d);
    var m := FileIndex(r.libs)[d.file];
    assert m in hist ==> m in SetOf(full);
    NamesAreHas(r, hist, d.cls);
    NamesAreHas(r, full, d.cls);
    var v := ClassesAfter(r, hist)[d.cls];
    assert Has(r, SetOf(full), d.cls, v);
  }

  /** The first library of one complete run that another one did not start. */
  lemma {:induction false} FirstMissing(r: Registry, h: seq<nat>, full: seq<nat>, n: nat) returns (i: nat)
    requires IsRun(r, h) && n <= |h| && !(SetOf(h[..n]) <= SetOf(full))
    ensures i < n && h[i] !in full && SetOf(h[..i]) <= SetOf(full)
    decreases n
  {
    if SetOf(h[..n - 1]) <= SetOf(full) {
      i := n - 1;
      assert h[..n] == h[..n - 1] + [h[n - 1]];
    } else {
      i := FirstMissing(r, h, full, n - 1);
    }
  }

  lemma PrefixIsRun(r: Registry, h: seq<nat>, i: nat)
    requires IsRun(r, h) && i <= |h|
    ensures IsRun(r, h[..i])
  {
    forall k | 0 <= k < i ensures Startable(r, h[..i][..k], h[..i][k]) { assert h[..i][..k] == h[..k]; }
  }

  /** Two runs of which one can start a library that the other refuses. */
  ghost predicate Conflict(r: Registry, l: nat, h1: seq<nat>, h2: seq<nat>) {
    && IsRun(r, h1) && IsRun(r, h2) && l < |r.libs| && !r.libs[l].loaded
    && Startable(r, h1, l) && Refused(r, h2, l)
  }

  ghost predicate Differ(r: Registry, h1: seq<nat>, h2: seq<nat>) {
    IsRun(r, h1) && Complete(r, h1) && IsRun(r, h2) && Complete(r, h2) && SetOf(h1) != SetOf(h2)
  }

  lemma DifferenceIsAConflict(r: Registry, h1: seq<nat>, h2: seq<nat>)
    requires Differ(r, h1, h2) && !(SetOf(h1) <= SetOf(h2))
    ensures exists l, a, b :: Conflict(r, l, a, b)
  {
    assert h1[..|h1|] == h1;
    var i := FirstMissing(r, h1, h2, |h1|);
    PrefixIsRun(r, h1, i);
    Overlooked(r, h1[..i], h2, h1[i]);
    assert Conflict(r, h1[i], h1[..i], h2);
  }

  lemma ConflictIsADifference(r: Registry, l: nat, a: seq<nat>, b: seq<nat>)
    requires Conflict(r, l, a, b)
    ensures exists h1, h2 :: Differ(r, h1, h2)
  {
    var h1 := RunGoesOn(r, a);
    var h2 := RunGoesOn(r, b);
    StartableStays(r, a, h1, l);
    RefusedStays(r, b, h2, l);
    RefusedNeverStarts(r, h2, l);
    assert l in SetOf(h1) && l !in SetOf(h2);
    assert Differ(r, h1, h2);
  }

  /** Exactly when: two complete bring-ups can start different libraries if and only
      if some library can be started after one order and is refused a class version
      after another. What can be looked at beforehand, without going through orders, is
      Agreeing, under which OrderDoesNotMatter says there are no such two. */
  lemma OrderMattersIff(r: Registry)
    ensures (exists h1, h2 :: Differ(r, h1, h2)) <==> exists l, a, b :: Conflict(r, l, a, b)
  {
    hide Differ, Conflict;
    forall h1, h2 | Differ(r, h1, h2) ensures exists l, a, b :: Conflict(r, l, a, b) { EitherWay(r, h1, h2); }
    forall l, a, b | Conflict(r, l, a, b) ensures exists h1, h2 :: Differ(r, h1, h2) { ConflictIsADifference(r, l, a, b); }
  }

  lemma EitherWay(r: Registry, h1: seq<nat>, h2: seq<nat>)
    requires Differ(r, h1, h2)
    ensures exists l, a, b :: Conflict(r, l, a, b)
  {
    if SetOf(h1) <= SetOf(h2) {
      assert Differ(r, h2, h1);
      DifferenceIsAConflict(r, h2, h1);
    } else {
      DifferenceIsAConflict(r, h1, h2);
    }
  }

  /** Two libraries that register the same class name at different versions,
      and a third one that needs one of those versions. */
  const TWINS: Registry :=
    Registry([Library("a", false, [], [("C", Version(1, 0))]),
              Library("b", false, [], [("C", Version(2, 0))]),
              Library("c", false, [NEEDS_C1], [])], map[])

  const NEEDS_C1: Dependency := Dependency("a", "C", Want("1", ""))

  lemma TwinsClasses(first: nat, second: nat)
    requires first < 2 && second == 1 - first
    ensures var v := map["C" := Version(first + 1, 0)];
            && ClassesAfter(TWINS, []) == map[] && ClassesAfter(TWINS, [first]) == v
            && ClassesAfter(TWINS, [first, second]) == v
    ensures FileIndex(TWINS.libs) == map["a" := 0, "b" := 1, "c" := 2]
  {
    var v := map["C" := Version(first + 1, 0)];
    assert Register(map[], TWINS.libs[first].registers) == v && Register(v, TWINS.libs[second].registers) == v;
    assert [first][..0] == [] && [first, second][..1] == [first];
    var a, b, c := TWINS.libs[0], TWINS.libs[1], TWINS.libs[2];
    assert TWINS.libs[..2] == [a, b] && [a, b][..1] == [a] && [a][..0] == [];
    assert FileIndex([a]) == map["a" := 0] && FileIndex([a, b]) == map["a" := 0, "b" := 1];
  }

  lemma RunGrows(r: Registry, hist: seq<nat>, l: nat)
    requires IsRun(r, hist) && l < |r.libs| && !r.libs[l].loaded && l !in hist && Startable(r, hist, l)
    ensures IsRun(r, hist + [l])
  {
    var more := hist + [l];
    forall i | 0 <= i < |more| ensures Startable(r, more[..i], more[i]) && !r.libs[more[i]].loaded {
      if i < |hist| { assert more[..i] == hist[..i]; } else { assert more[..i] == hist; }
    }
  }

  lemma LastClasses(r: Registry, hist: seq<nat>, l: nat)
    requires InRange(r, hist) && l < |r.libs|
    ensures InRange(r, hist + [l]) && ClassesAfter(r, hist + [l]) == Register(ClassesAfter(r, hist), r.libs[l].registers)
  {
    assert (hist + [l])[..|hist|] == hist;
  }

  lemma TwinsForward()
    ensures IsRun(TWINS, [0, 1, 2]) && Complete(TWINS, [0, 1, 2])
  {
    hide FileIndex, ClassesAfter, Register;
    TwinsClasses(0, 1);
    var h := [0, 1, 2];
    assert h[..2] == [0, 1] && h[..1] == [0] && h[..0] == [];
    assert Met(TWINS, [0, 1], NEEDS_C1);
  }

  lemma TwinsBackward()
    ensures IsRun(TWINS, [1, 0]) && Complete(TWINS, [1, 0])
  {
    hide FileIndex, ClassesAfter, Register;
    TwinsClasses(1, 0);
    assert [1, 0][..1] == [1] && [1, 0][..0] == [];
    assert !Met(TWINS, [1, 0], NEEDS_C1);
  }

  /** With a class name registered twice it does depend on it: whichever library
      comes up first decides the version, and the third one starts or never does. */
  lemma OrderMattersForDuplicates()
    ensures IsRun(TWINS, [0, 1, 2]) && Complete(TWINS, [0, 1, 2])
    ensures IsRun(TWINS, [1, 0]) && Complete(TWINS, [1, 0])
    ensures SetOf([0, 1, 2]) != SetOf([1, 0])
  {
    TwinsForward();
    TwinsBackward();
    assert 2 in SetOf([0, 1, 2]) && 2 !in SetOf([1, 0]);
  }

  // ---- what that means, dependency by dependency ---------------------------

  /** The library a file name stands for is the last one scanned under it. */
  ghost predicate Scanned(libs: seq<Library>, file: string, m: nat) {
    file != "" && m < |libs| && libs[m].file == file && forall k :: m < k < |libs| ==> libs[k].file != file
  }

  /** A class stands at the version it was registered at first: by the core, or by the
      first library started that registers the name, at the first place it does. */
  ghost predicate Stands(r: Registry, hist: seq<nat>, name: string, v: Version)
    requires InRange(r, hist)
  {
    if name in r.core then v == r.core[name] else exists i: nat, j: nat :: FirstAt(r, hist, name, v, i, j)
  }

  ghost predicate FirstAt(r: Registry, hist: seq<nat>, name: string, v: Version, i: nat, j: nat)
    requires InRange(r, hist)
  {
    && i < |hist| && Opens(r.libs[hist[i]].registers, name, v, j)
    && forall k :: 0 <= k < i ==> Silent(r.libs[hist[k]].registers, name)
  }

  /** A name is registered at place j, and not before it. */
  ghost predicate Opens(regs: seq<(string, Version)>, name: string, v: Version, j: nat) {
    j < |regs| && regs[j] == (name, v) && forall k :: 0 <= k < j ==> regs[k].0 != name
  }

  ghost predicate Silent(regs: seq<(string, Version)>, name: string) {
    forall k :: 0 <= k < |regs| ==> regs[k].0 != name
  }

  /** Its file is up, and its class stands at the major asked for and at no earlier minor
      than one asked for. */
  ghost predicate Satisfied(r: Registry, hist: seq<nat>, d: Dependency)
    requires InRange(r, hist)
  {
    && (exists m: nat :: Scanned(r.libs, d.file, m) && (r.libs[m].loaded || m in hist))
    && exists v :: Stands(r, hist, d.cls, v) && Fits(v, d.want.major, d.want.minor)
  }

  predicate Fits(v: Version, major: string, minor: string) {
    (major != "" ==> v.major == Atoi(major)) && (major != "" && minor != "" ==> Atoi(minor) <= v.minor)
  }

  lemma {:induction false} IndexIsScanned(libs: seq<Library>, file: string, m: nat)
    ensures file in FileIndex(libs) && FileIndex(libs)[file] == m <==> Scanned(libs, file, m)
  {
    if libs != [] {
      var last := |libs| - 1;
      IndexIsScanned(libs[..last], file, m);
      ScannedMore(libs, file, m);
      hide Scanned;
    }
  }

  /** One library more takes its own file name over, and no other. */
  lemma ScannedMore(libs: seq<Library>, file: string, m: nat)
    requires libs != []
    ensures var last := |libs| - 1;
            Scanned(libs, file, m) <==> if file != "" && libs[last].file == file then m == last else Scanned(libs[..last], file, m)
  {
    var front := libs[..|libs| - 1];
    assert forall k :: 0 <= k < |front| ==> front[k] == libs[k];
  }

  lemma {:induction false} RegisterOpens(classes: Classes, regs: seq<(string, Version)>, name: string, v: Version)
    requires name !in classes
    ensures name in Register(classes, regs) && Register(classes, regs)[name] == v <==> exists j: nat :: Opens(regs, name, v, j)
    ensures name !in Register(classes, regs) <==> Silent(regs, name)
    decreases |regs|
  {
    if regs != [] {
      var (n, w) := regs[0];
      if n == name {
        RegisterKeeps(classes[n := w], regs[1..], name);
        if v == w { assert Opens(regs, name, v, 0); }
      } else {
        RegisterOpens(if n in classes then classes else classes[n := w], regs[1..], name, v);
        if j: nat :| Opens(regs[1..], name, v, j) { assert Opens(regs, name, v, j + 1); }
        if j: nat :| Opens(regs, name, v, j) { assert Opens(regs[1..], name, v, j - 1); }
        assert forall k :: 1 <= k < |regs| ==> regs[k] == regs[1..][k - 1];
      }
    }
  }

  /** The class index is what was registered first. */
  lemma {:induction false} FirstRegistrationStands(r: Registry, hist: seq<nat>, name: string, v: Version)
    requires InRange(r, hist)
    ensures name in ClassesAfter(r, hist) && ClassesAfter(r, hist)[name] == v <==> Stands(r, hist, name, v)
    ensures name !in ClassesAfter(r, hist) <==>
            name !in r.core && forall k :: 0 <= k < |hist| ==> Silent(r.libs[hist[k]].registers, name)
    decreases |hist|
  {
    hide Register, Silent, Opens;
    if hist != [] {
      var n := |hist| - 1;
      var before, regs := hist[..n], r.libs[hist[n]].registers;
      var was := ClassesAfter(r, before);
      FirstRegistrationStands(r, before, name, v);
      assert forall k :: 0 <= k < n ==> before[k] == hist[k];
      if name in was {
        FirstRegistrationStands(r, before, name, was[name]);
        RegisterKeeps(was, regs, name);
        if name !in r.core { OneMoreChangesNothing(r, hist, name, was[name], v); }
      } else {
        RegisterOpens(was, regs, name, v);
        if j: nat :| Opens(regs, name, v, j) { assert FirstAt(r, hist, name, v, n, j); }
        if i: nat, j: nat :| FirstAt(r, hist, name, v, i, j) {
          assert i == n by { if i < n { OpensSpeaks(r.libs[hist[i]].registers, name, v, j); } }
        }
      }
    }
  }

  lemma OpensSpeaks(regs: seq<(string, Version)>, name: string, v: Version, j: nat)
    requires Opens(regs, name, v, j)
    ensures !Silent(regs, name)
  {}

  /** Once a name is registered, the library that starts next does not decide it. */
  lemma OneMoreChangesNothing(r: Registry, hist: seq<nat>, name: string, w: Version, v: Version)
    requires InRange(r, hist) && hist != [] && name !in r.core && Stands(r, hist[..|hist| - 1], name, w)
    ensures Stands(r, hist, name, v) <==> v == w
  {
    hide Opens, Silent;
    var before := hist[..|hist| - 1];
    var i: nat, j: nat :| FirstAt(r, before, name, w, i, j);
    assert forall k :: 0 <= k < |before| ==> before[k] == hist[k];
    assert FirstAt(r, hist, name, w, i, j);
    if a: nat, b: nat :| FirstAt(r, hist, name, v, a, b) {
      OpensSpeaks(r.libs[hist[a]].registers, name, v, b);
      OpensSpeaks(r.libs[hist[i]].registers, name, w, j);
      assert a == i;
      OpensOnce(r.libs[hist[i]].registers, name, v, b, w, j);
    }
  }

  lemma OpensOnce(regs: seq<(string, Version)>, name: string, v: Version, i: nat, w: Version, j: nat)
    requires Opens(regs, name, v, i) && Opens(regs, name, w, j)
    ensures v == w
  {}

  /** What the program answers of a dependency is exactly that. */
  lemma MetIff(r: Registry, hist: seq<nat>, d: Dependency)
    requires InRange(r, hist)
    ensures Met(r, hist, d) <==> Satisfied(r, hist, d)
  {
    hide Stands, Scanned, FileIndex, ClassesAfter;
    forall m: nat ensures d.file in FileIndex(r.libs) && FileIndex(r.libs)[d.file] == m <==> Scanned(r.libs, d.file, m) {
      IndexIsScanned(r.libs, d.file, m);
    }
    forall v ensures d.cls in ClassesAfter(r, hist) && ClassesAfter(r, hist)[d.cls] == v <==> Stands(r, hist, d.cls, v) {
      FirstRegistrationStands(r, hist, d.cls, v);
    }
    if Met(r, hist, d) {
      var m, v := FileIndex(r.libs)[d.file], ClassesAfter(r, hist)[d.cls];
      assert Scanned(r.libs, d.file, m) && Stands(r, hist, d.cls, v);
    }
    hide Atoi;
  }

  /** A dependency on the very version registered is met; so is one on an earlier minor,
      on the major alone, or on none. One on a later minor or another major is not. */
  lemma VersionsMet(r: Registry, hist: seq<nat>, d: Dependency, m: nat, v: Version)
    requires InRange(r, hist) && Scanned(r.libs, d.file, m) && (r.libs[m].loaded || m in hist) && Stands(r, hist, d.cls, v)
    ensures d.want.major == "" ==> Met(r, hist, d)
    ensures forall a: int :: INT_MIN <= a <= INT_MAX && d.want.major == Show(a) && d.want.minor == "" ==> (Met(r, hist, d) <==> a == v.major)
    ensures forall a: int, b: int :: INT_MIN <= a <= INT_MAX && INT_MIN <= b <= INT_MAX && d.want == Want(Show(a), Show(b)) ==>
              (Met(r, hist, d) <==> a == v.major && b <= v.minor)
  {
    MetIff(r, hist, d);
    forall w | Stands(r, hist, d.cls, w) ensures w == v {
      FirstRegistrationStands(r, hist, d.cls, v);
      FirstRegistrationStands(r, hist, d.cls, w);
    }
    hide Met, Stands, Scanned, Show, Atoi;
    forall a: int | INT_MIN <= a <= INT_MAX ensures Show(a) != "" && Atoi(Show(a)) == a { ShownVersion(a); }
  }

  lemma ShownVersion(a: int)
    requires INT_MIN <= a <= INT_MAX
    ensures Show(a) != "" && Atoi(Show(a)) == a
  {
    ReadShown(a);
    ShowsDigits(if a < 0 then -a else a);
  }

  /** A complete bring-up has started exactly the libraries all of whose dependencies are
      satisfied by what it started. */
  lemma StartedIff(r: Registry, hist: seq<nat>, l: nat)
    requires IsRun(r, hist) && Complete(r, hist) && l < |r.libs| && !r.libs[l].loaded
    ensures l in hist <==> forall d :: d in r.libs[l].deps ==> Satisfied(r, hist, d)
  {
    hide Satisfied, Met;
    forall d | d in r.libs[l].deps ensures Met(r, hist, d) <==> Satisfied(r, hist, d) { MetIff(r, hist, d); }
    assert Startable(r, hist, l) <==> forall d :: d in r.libs[l].deps ==> Satisfied(r, hist, d);
    if i :| 0 <= i < |hist| && hist[i] == l { StartableStays(r, hist[..i], hist, l); }
  }

  // ---- the loader ---------------------------------------------------------

  class Loader {
    const r: Registry
    const files: map<string, nat>
    var loaded: seq<bool>            // per library
    var met: seq<seq<bool>>          // per library and dependency: stamped once satisfied
    var classes: Classes
    var started: seq<nat>            // in the order they came up

    ghost predicate Valid()
      reads this
    {
      && files == FileIndex(r.libs) && InRange(r, started) && IsRun(r, started)
      && |loaded| == |met| == |r.libs|
      && (forall l :: 0 <= l < |r.libs| ==> loaded[l] == Up(r, started, l))
      && classes == ClassesAfter(r, started)
      && (forall l :: 0 <= l < |r.libs| ==> |met[l]| == |r.libs[l].deps|)
      && (forall l, j :: 0 <= l < |r.libs| && 0 <= j < |met[l]| && met[l][j] ==> Met(r, started, r.libs[l].deps[j]))
    }

    constructor (r: Registry)
      ensures Valid() && this.r == r && started == []
    {
      this.r := r;
      files := FileIndex(r.libs);
      loaded := seq(|r.libs|, i requires 0 <= i < |r.libs| => r.libs[i].loaded);
      met := seq(|r.libs|, i requires 0 <= i < |r.libs| => seq(|r.libs[i].deps|, j => false));
      classes := r.core;
      started := [];
    }

    /** One dependency. Once it is satisfied it is stamped and not asked again. */
    method DependencyMet(l: nat, j: nat) returns (ok: bool)
      requires Valid() && l < |r.libs| && j < |r.libs[l].deps|
      modifies this`met
      ensures Valid() && ok == Met(r, started, r.libs[l].deps[j])
      ensures ok <==> Satisfied(r, started, r.libs[l].deps[j])
    {
      hide IsRun, FileIndex, ClassesAfter, Satisfied;
      MetIff(r, started, r.libs[l].deps[j]);
      if met[l][j] { return true; }
      var d := r.libs[l].deps[j];
      if d.file !in files || !loaded[files[d.file]] { return false; }
      if d.cls !in classes || !VersionOk(classes[d.cls], d.want) { return false; }
      met := met[l := met[l][j := true]];
      ok := true;
    }

    /** How many dependencies of a library are still unmet. */
    method UnmetCount(l: nat) returns (unmet: nat)
      requires Valid() && l < |r.libs|
      modifies this`met
      ensures Valid() && (unmet == 0 <==> Startable(r, started, l))
    {
      unmet := 0;
      var deps := r.libs[l].deps;
      for j := 0 to |deps|
        invariant Valid()
        invariant unmet == 0 <==> forall i :: 0 <= i < j ==> Met(r, started, deps[i])
      {
        var ok := DependencyMet(l, j);
        if !ok { unmet := unmet + 1; }
      }
    }

    /** ClassStart: the library's classes are registered, and it is loaded. */
    method Start(l: nat)
      requires Valid() && l < |r.libs| && !loaded[l] && Startable(r, started, l)
      modifies this`loaded, this`classes, this`started
      ensures Valid() && started == old(started) + [l]
    {
      ghost var before := started;
      classes := Register(classes, r.libs[l].registers);
      loaded := loaded[l := true];
      started := started + [l];
      RunGrows(r, before, l);
      LastClasses(r, before, l);
      hide IsRun, Startable, Met, ClassesAfter, Register, FileIndex;
      forall k, j | 0 <= k < |r.libs| && 0 <= j < |met[k]| && met[k][j] ensures Met(r, started, r.libs[k].deps[j]) {
        MetStays(r, before, l, r.libs[k].deps[j]);
      }
    }

    // ---- the work list ------------------------------------------------------

    /** Slot i of a ring that begins at head. */
    static function Slot(head: nat, i: nat, cap: nat): (s: nat)
      requires head < cap && i < cap
      ensures s < cap && s == (head + i) % cap
    {
      WrapOnce(head + i, cap);
      if head + i < cap then head + i else head + i - cap
    }

    static lemma WrapOnce(x: nat, cap: nat)
      requires 0 < cap && x < 2 * cap
      ensures x % cap == if x < cap then x else x - cap
    {
      if x >= cap { assert x % cap == (x - cap) % cap; }
    }

    /** The ring holds exactly the queue q. */
    static ghost predicate Ring(work: array<nat>, head: nat, q: seq<nat>)
      reads work
    {
      && |q| <= work.Length && (head < work.Length || (head == 0 && work.Length == 0))
      && forall i :: 0 <= i < |q| ==> work[Slot(head, i, work.Length)] == q[i]
    }

    /** The queue holds every library that has not started, once. */
    ghost predicate Waiting(q: seq<nat>)
      reads this
      requires InRange(r, started)
    {
      && (forall i :: 0 <= i < |q| ==> q[i] < |r.libs|)
      && (forall i, j :: 0 <= i < j < |q| ==> q[i] != q[j])
      && (forall l :: 0 <= l < |r.libs| ==> (l in q <==> !Up(r, started, l)))
    }

    /** The last n of the queue have been looked at since a library started. */
    ghost predicate Stuck(q: seq<nat>, n: nat)
      reads this
      requires InRange(r, started)
    {
      forall i :: 0 <= i < |q| && |q| - n <= i ==> q[i] < |r.libs| && !Startable(r, started, q[i])
    }

    /** Two places of a ring that are not the same place of the queue. */
    static lemma SlotsDiffer(head: nat, i: nat, j: nat, cap: nat)
      requires head < cap && i < j < cap
      ensures Slot(head, i, cap) != Slot(head, j, cap)
    {}

    /** Taking from the front. */
    static lemma TakeFront(work: array<nat>, head: nat, q: seq<nat>)
      requires Ring(work, head, q) && q != []
      ensures work[head] == q[0] && Ring(work, (head + 1) % work.Length, q[1..])
    {
      var cap := work.Length;
      WrapOnce(head + 1, cap);
      assert Slot(head, 0, cap) == head;
      forall i | 0 <= i < |q| - 1 ensures work[Slot((head + 1) % cap, i, cap)] == q[1..][i] {
        assert Slot((head + 1) % cap, i, cap) == Slot(head, i + 1, cap);
      }
    }

    /** Putting at the back: the slot written holds no queued entry. */
    static method PutBack(work: array<nat>, head: nat, queued: nat, l: nat, ghost q: seq<nat>)
      requires Ring(work, head, q) && queued == |q| < work.Length
      modifies work
      ensures Ring(work, head, q + [l])
    {
      ghost var cap := work.Length;
      assert (head + queued) % work.Length == Slot(head, queued, cap);
      work[(head + queued) % work.Length] := l;
      forall i | 0 <= i < |q| ensures work[Slot(head, i, cap)] == q[i] {
        SlotsDiffer(head, i, |q|, cap);
      }
    }

    /** Bring-up. order is the work list as the sort leaves it: the unstarted
        libraries, whichever way ties fall. Two full traversals of the ring with
        nothing starting end it. */
    method LoadClasses(order: seq<nat>)
      requires Valid() && Waiting(order)
      modifies this`loaded, this`met, this`classes, this`started
      ensures Valid() && Complete(r, started) && old(started) <= started
      ensures forall l :: 0 <= l < |r.libs| && !r.libs[l].loaded ==>
                (l in started <==> forall d :: d in r.libs[l].deps ==> Satisfied(r, started, d))
    {
      var cap := |order|;
      var work := new nat[cap](i requires 0 <= i < cap => order[i]);
      var head: nat, queued: nat, stalled: nat := 0, cap, 0;
      ghost var q := order;
      hide Met, Startable, IsRun, Complete, Waiting, Stuck, Ring, Satisfied;
      while queued > 0
        invariant Valid() && old(started) <= started && work.Length == cap && fresh(work)
        invariant |q| == queued && Ring(work, head, q) && Waiting(q) && Stuck(q, stalled)
        invariant queued == 0 || stalled < 2 * queued
        decreases queued, 2 * queued - stalled
      {
        TakeFront(work, head, q);
        NextUp(q);
        var l := work[head];
        head := (head + 1) % cap;
        queued := queued - 1;
        var unmet := UnmetCount(l);
        if unmet == 0 {
          StartFirst(l, q);
          q := q[1..];
          stalled := 0;
        } else {
          PutBack(work, head, queued, l, q[1..]);
          queued := queued + 1;
          StillWaiting(q, stalled);
          q := q[1..] + [l];
          stalled := stalled + 1;
        }
        if queued > 0 && stalled >= 2 * queued { break; }
      }
      NothingCanStart(q, stalled);
      forall l | 0 <= l < |r.libs| && !r.libs[l].loaded
        ensures l in started <==> forall d :: d in r.libs[l].deps ==> Satisfied(r, started, d)
      {
        StartedIff(r, started, l);
      }
    }

    lemma StillWaiting(q: seq<nat>, n: nat)
      requires InRange(r, started) && Waiting(q) && q != []
      requires Stuck(q, n) && !Startable(r, started, q[0])
      ensures Waiting(q[1..] + [q[0]]) && Stuck(q[1..] + [q[0]], n + 1)
    {
      var t := q[1..] + [q[0]];
      forall l | 0 <= l < |r.libs| ensures l in t <==> !Up(r, started, l) {
        assert q == [q[0]] + q[1..];
      }
    }

    lemma NextUp(q: seq<nat>)
      requires Valid() && Waiting(q) && q != []
      ensures q[0] < |r.libs| && !loaded[q[0]]
    {
      assert q[0] in q;
    }

    /** When the queue was looked at from end to end, nothing can start. */
    lemma NothingCanStart(q: seq<nat>, n: nat)
      requires InRange(r, started) && Waiting(q) && Stuck(q, n) && n >= |q|
      ensures Complete(r, started)
    {
      forall l | 0 <= l < |r.libs| && !Up(r, started, l) ensures !Startable(r, started, l) {
        assert l in q;
        var i :| 0 <= i < |q| && q[i] == l;
      }
    }

    /** A library that starts leaves the queue; the rest still wait. */
    method StartFirst(l: nat, ghost q: seq<nat>)
      requires Valid() && Waiting(q) && q != [] && l == q[0] && l < |r.libs| && !loaded[l] && Startable(r, started, l)
      modifies this`loaded, this`classes, this`started
      ensures Valid() && old(started) <= started && Waiting(q[1..])
    {
      hide Met, Startable, IsRun, FileIndex, ClassesAfter;
      Leaves(q);
      Start(l);
    }

    lemma Leaves(q: seq<nat>)
      requires InRange(r, started) && Waiting(q) && q != []
      ensures forall i :: 0 <= i < |q| - 1 ==> q[1..][i] < |r.libs|
      ensures forall i, j :: 0 <= i < j < |q| - 1 ==> q[1..][i] != q[1..][j]
      ensures forall k :: 0 <= k < |r.libs| ==> (k in q[1..] <==> !Up(r, started + [q[0]], k))
    {
      forall k | 0 <= k < |r.libs| ensures k in q[1..] <==> !Up(r, started + [q[0]], k) {
        assert q == [q[0]] + q[1..];
        assert k in q[1..] ==> k != q[0];
        assert k in started + [q[0]] <==> k in started || k == q[0];
        assert k in q <==> k == q[0] || k in q[1..];
        assert q[0] in q;
      }
    }
  }
}
