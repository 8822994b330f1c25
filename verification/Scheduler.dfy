/** The scheduler of src/sched.c as the program keeps it: task structs on a
    doubly linked list sorted by due time, a second chain for the batch that is
    due, a pool of spare structs, and a hint that says where the last insertion
    was. Each operation is proved to be the SchedModel step it stands for. */
module Scheduler {
  import opened SchedModel
  import Turns

  /** Where a task struct is. Every struct is in one place only. */
  datatype Place = Pending | Due | Pooled | InHand

  class Task {
    var next: Task?
    var prev: Task?
    var due: Time
    var job: Job
    var linked: bool
    ghost var place: Place

    constructor ()
      ensures next == null && prev == null && job == Idle && !linked && place == InHand
    {
      next, prev, job, linked, place := null, null, Idle, false, InHand;
      due := Time(0, 0);
    }
  }

  ghost function At(c: seq<Task>, i: int): Task? {
    if 0 <= i < |c| then c[i] else null
  }

  /** The i-th task of the doubly linked pending list. */
  ghost predicate Node(c: seq<Task>, i: int)
    reads c
  {
    0 <= i < |c| ==>
      c[i].place == Pending && c[i].linked && c[i].next == At(c, i + 1) && c[i].prev == At(c, i - 1)
  }

  /** The i-th task of a chain that is only followed forwards. In the batch each task
      but the first points back at the one before it; the first points back at
      whatever ran before it, or at nothing. */
  ghost predicate Link(c: seq<Task>, i: int, place: Place)
    reads c
  {
    0 <= i < |c| ==>
      && c[i].place == place && c[i].linked == (place == Due) && c[i].next == At(c, i + 1)
      && (i > 0 && place == Due ==> c[i].prev == c[i - 1])
  }

  ghost predicate Distinct(c: seq<Task>) {
    forall i, j :: 0 <= i < j < |c| ==> c[i] != c[j]
  }

  ghost function Items(c: seq<Task>): (r: seq<Item>)
    reads c
    ensures |r| == |c|
    ensures forall i :: 0 <= i < |c| ==> r[i] == Item(c[i].due, c[i].job)
  {
    seq(|c|, i requires 0 <= i < |c| reads c => Item(c[i].due, c[i].job))
  }

  class TaskList {
    var head: Task?
    var tail: Task?
    var insertHint: Task?
    var pool: Task?
    var batchHead: Task?           // the chain of the runnow bucket
    var batchTail: Task?
    var tasksAlive: int
    var envelopesAlive: int
    var now: Time                  // the cached clock
    var sent: nat
    ghost var chain: seq<Task>
    ghost var batch: seq<Task>
    ghost var spare: seq<Task>
    ghost var all: set<Task>
    var ran: seq<Job>
    ghost var freed: seq<nat>

    /** The pending list: linked both ways, sorted, hint on it or unset. */
    ghost predicate ChainOk()
      reads this`head, this`tail, this`insertHint, this`chain, chain
    {
      && head == At(chain, 0) && tail == At(chain, |chain| - 1)
      && (insertHint != null ==> insertHint in chain)
      && Distinct(chain)
      && (forall i {:trigger Node(chain, i)} :: 0 <= i < |chain| ==> Node(chain, i))
      && Sorted(Items(chain))
    }

    /** The batch and the pool, each followed from its first task. */
    static ghost predicate LineOk(first: Task?, c: seq<Task>, place: Place)
      reads c
    {
      && first == At(c, 0) && Distinct(c)
      && (forall i {:trigger Link(c, i, place)} :: 0 <= i < |c| ==> Link(c, i, place))
      && (c != [] && place == Due ==> c[0].prev == null || c[0].prev !in c)
    }

    /** A struct is on the chain its place says. */
    ghost predicate Home(t: Task)
      reads this`chain, this`batch, this`spare, t
    {
      match t.place
      case Pending => t in chain
      case Due => t in batch
      case Pooled => t in spare
      case InHand => !t.linked
    }

    ghost predicate PlacesOk()
      reads this`chain, this`batch, this`spare, this`all, all
    {
      && (forall t :: t in chain ==> t in all)
      && (forall t :: t in batch ==> t in all)
      && (forall t :: t in spare ==> t in all)
      && (forall t {:trigger Home(t)} :: t in all ==> Home(t))
    }

    ghost predicate Valid()
      reads this, all, chain, batch, spare
    {
      && ChainOk() && PlacesOk()
      && LineOk(batchHead, batch, Due) && LineOk(pool, spare, Pooled)
      && (batch != [] ==> batchTail == batch[|batch| - 1])
      && tasksAlive == |all| && envelopesAlive == sent - |freed|
    }

    ghost function State(): Engine
      reads this, chain, batch
    {
      Engine(now, Items(chain), Items(batch), sent, ran, freed)
    }

    constructor ()
      ensures Valid() && fresh(all) && State() == START && tasksAlive == 0
    {
      head, tail, insertHint, pool, batchHead, batchTail := null, null, null, null, null, null;
      tasksAlive, envelopesAlive, now, sent := 0, 0, Time(0, 0), 0;
      chain, batch, spare, all, ran, freed := [], [], [], {}, [], [];
    }

    // ---- the pending list ---------------------------------------------------

    /** The pointer writes that take a task out from between its neighbours. */
    method Unsplice(task: Task, p: Task?, n: Task?)
      requires task.prev == p && task.next == n && p != task && n != task && (p == n ==> p == null)
      modifies this`head, this`tail, task`next, task`prev, task`linked, task`place
      modifies (if p == null then {} else {p})`next, (if n == null then {} else {n})`prev
      ensures task.next == null && task.prev == null && !task.linked && task.place == InHand
      ensures if p == null then head == n else head == old(head) && p.next == n
      ensures if n == null then tail == p else tail == old(tail) && n.prev == p
    {
      if task.prev == null { head := task.next; } else { task.prev.next := task.next; }
      if task.next == null { tail := task.prev; } else { task.next.prev := task.prev; }
      task.prev, task.next, task.linked := null, null, false;
      task.place := InHand;
    }

    /** A task that may be unlinked here: it is on the pending list, or in the batch
        with a task on either side. */
    ghost predicate Removable(task: Task, k: int)
      reads this`chain, this`batch, task
    {
      || (task.place == Pending && 0 <= k < |chain| && chain[k] == task)
      || (task.place == Due && 0 < k < |batch| - 1 && batch[k] == task)
    }

    /** The k-th entry is gone from the pending list, or from the batch. */
    static ghost function Dropped(e: Engine, place: Place, k: int): Engine {
      if place == Pending && 0 <= k < |e.pending| then e.(pending := e.pending[..k] + e.pending[k + 1..])
      else if place == Due && 0 <= k < |e.batch| then e.(batch := e.batch[..k] + e.batch[k + 1..])
      else e
    }

    /** Take a task out of the chain it is on; a task on no chain is left alone. The
        program always unlinks from the pending list, whichever chain that is. */
    method RemoveTaskFromList(task: Task, ghost k: int)
      requires Valid() && task in all && (task.linked ==> Removable(task, k))
      modifies this`head, this`tail, this`insertHint, this`chain, this`batch, all`next, all`prev, task`linked, task`place
      ensures Valid() && task.linked == false
      ensures chain == if old(task.linked) && old(task.place) == Pending then old(chain)[..k] + old(chain)[k + 1..] else old(chain)
      ensures batch == if old(task.linked) && old(task.place) == Due then old(batch)[..k] + old(batch)[k + 1..] else old(batch)
      ensures if old(task.linked) then task.place == InHand && State() == Dropped(old(State()), old(task.place), k)
              else unchanged(task) && State() == old(State())
      ensures old(Untaken()) ==> Untaken()
    {
      hide Valid, Removable, State, Untaken, Dropped;
      if !task.linked { return; }
      if insertHint == task { ForgetHint(); }
      Detach(task, k);
    }

    /** Both chains are as they should be. */
    ghost predicate Right()
      reads this, chain, batch
    {
      ChainOk() && LineOk(batchHead, batch, Due) && (batch != [] ==> batchTail == batch[|batch| - 1])
    }

    /** The same for any task of the batch, as a callback might ask: it works out
        exactly when the task has one on either side. The first one's back pointer
        is to what ran before it, so the head of the batch stays on it and leads
        nowhere; the last one's unlinking overwrites the tail of the pending list. */
    method UnspliceDueTask(task: Task, ghost k: nat)
      requires Valid() && k < |batch| && batch[k] == task
      modifies this`head, this`tail, this`insertHint, this`batch, task`next, task`prev, task`linked, task`place
      modifies batch`next, batch`prev, (if task.prev == null then {} else {task.prev})`next
      ensures batch == old(batch)[..k] + old(batch)[k + 1..]
      ensures Right() <==> 0 < k < |old(batch)| - 1
      ensures k == 0 ==> batchHead == task && task.next == null
      ensures k == |old(batch)| - 1 ==> tail == old(task.prev)
      ensures !task.linked && forall t :: t in batch ==> t.linked && t.place == Due && t.job == old(t.job)
    {
      hide ChainOk, LineOk, PlacesOk, Right;
      DuePlace(k);
      EachDue();
      // The hint is never on a due task.
      Unsplice(task, task.prev, task.next);
      batch := batch[..k] + batch[k + 1..];
      ghost var was := old(batch);
      if 0 < k < |was| - 1 { BothRight(task, k); } else { OneWrong(was, k); }
    }

    lemma DuePlace(k: nat)
      requires Valid() && k < |batch|
      ensures var t := batch[k];
              && t.linked && t.place == Due && t != insertHint && t in all && t.next == At(batch, k + 1) && t.next != t
              && t.prev != t && (t.prev == t.next ==> t.prev == null) && (k > 0 ==> t.prev == batch[k - 1])
      ensures batchHead == batch[0] && Distinct(batch)
    {
      assert Link(batch, k, Due);
      ChainPlace();
    }

    lemma EachDue()
      requires Valid()
      ensures forall t :: t in batch ==> t.linked && t.place == Due && t in all
    {
      forall t | t in batch ensures t.linked && t.place == Due {
        var i :| 0 <= i < |batch| && batch[i] == t;
        assert Link(batch, i, Due);
      }
    }

    twostate lemma BothRight(task: Task, new k: nat)
      requires old(Valid()) && 0 < k < |old(batch)| - 1 && old(batch)[k] == task
      requires batch == old(batch)[..k] + old(batch)[k + 1..]
      requires unchanged(this`head, this`tail, this`insertHint, this`chain, this`pool, this`spare, this`all)
      requires unchanged(this`batchHead, this`batchTail) && Joined(old(batch)[k - 1], old(batch)[k + 1])
      requires forall t :: t in all && t != task && t != old(batch)[k - 1] && t != old(batch)[k + 1] ==> Same(t)
      ensures Right()
    {
      hide ChainOk, LineOk, PlacesOk, Same, Joined;
      RestKept(task, k);
      BatchShorter(task, k);
    }

    /** Where the first or the last is gone, a chain's end is on the wrong task. */
    lemma OneWrong(was: seq<Task>, k: nat)
      requires k < |was| && Distinct(was) && (k == 0 || k == |was| - 1) && batch == was[..k] + was[k + 1..]
      requires batchHead == was[0] && (k == |was| - 1 > 0 ==> tail == was[k - 1] && tail.place == Due)
      ensures !Right()
    {
      if k > 0 && ChainOk() { ChainPlace(); }
    }

    method ForgetHint()
      requires Valid()
      modifies this`insertHint
      ensures Valid() && insertHint == null && State() == old(State())
    {
      insertHint := null;
    }

    method Detach(task: Task, ghost k: int)
      requires Valid() && task in all && insertHint != task && Removable(task, k)
      modifies this`head, this`tail, this`chain, this`batch, all`next, all`prev, task`linked, task`place
      ensures Valid() && !task.linked && task.place == InHand
      ensures chain == if old(task.place) == Pending then old(chain)[..k] + old(chain)[k + 1..] else old(chain)
      ensures batch == if old(task.place) == Due then old(batch)[..k] + old(batch)[k + 1..] else old(batch)
      ensures State() == Dropped(old(State()), old(task.place), k)
      ensures old(Untaken()) ==> Untaken()
    {
      hide Valid, ChainOk, LineOk, PlacesOk, Items, Dropped, Removable;
      Beside(task, k);
      DroppedIs(State(), k);
      Unsplice(task, task.prev, task.next);
      if old(task.place) == Pending {
        chain := chain[..k] + chain[k + 1..];
        Removed(task, k);
      } else {
        batch := batch[..k] + batch[k + 1..];
        DueRemoved(task, k);
      }
    }

    lemma Beside(task: Task, k: int)
      requires Valid() && task in all && Removable(task, k)
      ensures var p, n := task.prev, task.next;
              && p != task && n != task && (p == n ==> p == null) && (p != null ==> p in all) && (n != null ==> n in all)
              && if task.place == Pending then
                   && 0 <= k < |chain| == |State().pending| && chain[k] == task && p == At(chain, k - 1) && n == At(chain, k + 1)
                 else
                   && 0 < k < |batch| - 1 && |batch| == |State().batch| && batch[k] == task && p == batch[k - 1] && n == batch[k + 1]
                   && task.place == Due
    {
      ValidChain();
      if task.place == Pending {
        Around(k);
        assert (k > 0 ==> chain[k - 1] in chain) && (k + 1 < |chain| ==> chain[k + 1] in chain);
      } else {
        Between(k);
      }
    }

    lemma ValidChain()
      requires Valid()
      ensures ChainOk() && |State().pending| == |chain| && |State().batch| == |batch|
      ensures (forall t :: t in chain ==> t in all) && (forall t :: t in batch ==> t in all)
    {}

    static lemma DroppedIs(e: Engine, k: int)
      ensures 0 <= k < |e.pending| ==> Dropped(e, Pending, k) == e.(pending := e.pending[..k] + e.pending[k + 1..])
      ensures 0 <= k < |e.batch| ==> Dropped(e, Due, k) == e.(batch := e.batch[..k] + e.batch[k + 1..])
    {}

    /** What a task inside the batch says about the tasks on either side. */
    lemma Between(k: int)
      requires Valid() && 0 < k < |batch| - 1
      ensures batch[k].prev == batch[k - 1] && batch[k].next == batch[k + 1]
      ensures batch[k - 1] in all && batch[k + 1] in all && batch[k - 1] != batch[k + 1]
      ensures batch[k - 1] != batch[k] && batch[k + 1] != batch[k]
    {
      assert Link(batch, k, Due) && batch[k - 1] in batch && batch[k + 1] in batch;
    }

    /** Two neighbours in the batch are joined, and nothing else about them changes. */
    twostate predicate Joined(p: Task, n: Task)
      reads p, n
    {
      && p.next == n && n.prev == p && p.prev == old(p.prev) && n.next == old(n.next)
      && p.linked == old(p.linked) && p.place == old(p.place) && p.due == old(p.due) && p.job == old(p.job)
      && n.linked == old(n.linked) && n.place == old(n.place) && n.due == old(n.due) && n.job == old(n.job)
    }

    twostate lemma DueRemoved(task: Task, new k: nat)
      requires old(Valid()) && 0 < k < |old(batch)| - 1 && old(batch)[k] == task
      requires batch == old(batch)[..k] + old(batch)[k + 1..]
      requires unchanged(this`head, this`tail, this`insertHint, this`chain, this`pool, this`spare, this`all)
      requires unchanged(this`batchHead, this`batchTail, this`tasksAlive, this`envelopesAlive, this`sent, this`freed)
      requires task.place == InHand && !task.linked && Joined(old(batch)[k - 1], old(batch)[k + 1])
      requires forall t :: t in all && t != task && t != old(batch)[k - 1] && t != old(batch)[k + 1] ==> Same(t)
      ensures Valid() && Items(chain) == old(Items(chain))
      ensures Items(batch) == old(Items(batch))[..k] + old(Items(batch))[k + 1..] && (old(Untaken()) ==> Untaken())
    {
      hide ChainOk, LineOk, Sorted, Items, PlacesOk, Same, Joined;
      RestKept(task, k);
      BatchShorter(task, k);
      PlacesShorter(task, k);
    }

    twostate lemma RestKept(task: Task, new k: nat)
      requires old(ChainOk()) && old(PlacesOk()) && 0 < k < |old(batch)| - 1 && old(batch)[k] == task
      requires old(LineOk(batchHead, batch, Due)) && old(LineOk(pool, spare, Pooled))
      requires unchanged(this`head, this`tail, this`insertHint, this`chain, this`pool, this`spare, this`all)
      requires forall t :: t in all && t != task && t != old(batch)[k - 1] && t != old(batch)[k + 1] ==> Same(t)
      ensures ChainOk() && LineOk(pool, spare, Pooled) && Items(chain) == old(Items(chain))
    {
      OldChainPlace();
      OldLinePlace((old(batchHead), old(batch)), Due);
      OldLinePlace((pool, spare), Pooled);
      assert task in old(batch) && old(batch)[k - 1] in old(batch) && old(batch)[k + 1] in old(batch);
      forall t | t in spare || t in old(chain) ensures Same(t) {}
      hide ChainOk, LineOk, Sorted, Items;
      ChainSame();
      LineSame((pool, spare), Pooled);
    }

    twostate lemma BatchShorter(task: Task, new k: nat)
      requires old(LineOk(batchHead, batch, Due)) && old(PlacesOk()) && 0 < k < |old(batch)| - 1 && old(batch)[k] == task
      requires batch == old(batch)[..k] + old(batch)[k + 1..] && unchanged(this`batchHead, this`all)
      requires Joined(old(batch)[k - 1], old(batch)[k + 1])
      requires forall t :: t in all && t != task && t != old(batch)[k - 1] && t != old(batch)[k + 1] ==> Same(t)
      ensures LineOk(batchHead, batch, Due) && (old(Untaken()) ==> Untaken())
      ensures Items(batch) == old(Items(batch))[..k] + old(Items(batch))[k + 1..]
    {
      SeqRemoved(old(batch), k);
      forall i | 0 <= i < |old(batch)| ensures old(batch)[i] in all {}
      forall i | 0 <= i < |batch| ensures Link(batch, i, Due) {
        var j := if i < k then i else i + 1;
        assert old(Link(batch, j, Due)) && batch[i] == old(batch)[j];
        assert j != k - 1 && j != k + 1 ==> Same(old(batch)[j]);
      }
      assert Items(batch) == old(Items(batch))[..k] + old(Items(batch))[k + 1..];
    }

    twostate lemma PlacesShorter(task: Task, new k: nat)
      requires old(PlacesOk()) && old(LineOk(batchHead, batch, Due)) && 0 < k < |old(batch)| - 1 && old(batch)[k] == task
      requires batch == old(batch)[..k] + old(batch)[k + 1..] && unchanged(this`chain, this`spare, this`all)
      requires task.place == InHand && !task.linked && Joined(old(batch)[k - 1], old(batch)[k + 1])
      requires forall t :: t in all && t != task && t != old(batch)[k - 1] && t != old(batch)[k + 1] ==> Same(t)
      ensures PlacesOk()
    {
      SeqRemoved(old(batch), k);
      forall t | t in all ensures Home(t) { assert old(Home(t)); }
    }

    /** What a task on the list says about the tasks on either side. */
    lemma Around(k: int)
      requires ChainOk() && 0 <= k < |chain|
      ensures var t := chain[k];
              && t.prev == At(chain, k - 1) && t.next == At(chain, k + 1)
              && t.prev != t && t.next != t && (t.prev == t.next ==> t.prev == null)
              && (t.prev == null ==> k == 0) && (t.next == null ==> k == |chain| - 1)
    {
      assert Node(chain, k) && Node(chain, k - 1) && Node(chain, k + 1);
    }

    twostate lemma Removed(task: Task, new k: nat)
      requires old(Valid()) && k < |old(chain)| && old(chain)[k] == task
      requires chain == old(chain)[..k] + old(chain)[k + 1..]
      requires all == old(all) && batch == old(batch) && spare == old(spare) && unchanged(this`batchHead, this`pool)
      requires unchanged(this`batchTail, this`tasksAlive, this`envelopesAlive, this`sent, this`freed)
      requires insertHint == if old(insertHint) == task then null else old(insertHint)
      requires var p, n := At(old(chain), k - 1), At(old(chain), k + 1);
               && (if p == null then head == n else head == old(head) && p.next == n)
               && (if n == null then tail == p else tail == old(tail) && n.prev == p)
               && forall t :: t in all && t != task ==>
                    && (t != p ==> t.next == old(t.next)) && (t != n ==> t.prev == old(t.prev))
                    && t.linked == old(t.linked) && t.place == old(t.place) && t.due == old(t.due) && t.job == old(t.job)
      requires task.place == InHand && !task.linked
      ensures Valid() && Items(chain) == old(Items(chain))[..k] + old(Items(chain))[k + 1..]
      ensures Items(batch) == old(Items(batch)) && (old(Untaken()) ==> Untaken())
    {
      assert old(Node(chain, k)) && old(Node(chain, k - 1)) && old(Node(chain, k + 1));
      forall i | 0 <= i < |old(chain)| ensures old(chain)[i] in all { }
      ChainRemoved(task, k);
      PlacesRemoved(task, k);
      LinesKept(task);
    }

    /** Work on the pending list leaves the batch and the pool alone. */
    twostate lemma LinesKept(task: Task)
      requires old(LineOk(batchHead, batch, Due)) && old(LineOk(pool, spare, Pooled))
      requires all == old(all) && batch == old(batch) && spare == old(spare) && unchanged(this`batchHead, this`pool)
      requires old(task.place) == InHand || old(task.place) == Pending
      requires (forall t :: t in batch ==> t in all) && (forall t :: t in spare ==> t in all)
      requires forall t :: t in old(all) && t != task && old(t.place) != Pending ==>
                 t.next == old(t.next) && t.prev == old(t.prev) && t.linked == old(t.linked)
                 && t.place == old(t.place) && t.due == old(t.due) && t.job == old(t.job)
      ensures LineOk(batchHead, batch, Due) && LineOk(pool, spare, Pooled) && Items(batch) == old(Items(batch))
      ensures old(Untaken()) ==> Untaken()
    {
      OldLinePlace((batchHead, batch), Due);
      OldLinePlace((pool, spare), Pooled);
      if batch != [] { assert batch[0] in batch; }
      LineSame((batchHead, batch), Due);
      LineSame((pool, spare), Pooled);
    }

    twostate lemma OldChainPlace()
      requires old(ChainOk())
      ensures forall t :: t in old(chain) ==> old(t.place) == Pending && old(t.linked)
    {
      forall t | t in old(chain) ensures old(t.place) == Pending && old(t.linked) {
        var i :| 0 <= i < |old(chain)| && old(chain)[i] == t;
        assert old(Node(chain, i));
      }
    }

    twostate lemma OldLinePlace(line: (Task?, seq<Task>), new place: Place)
      requires old(LineOk(line.0, line.1, place))
      ensures forall t :: t in line.1 ==> old(t.place) == place
    {
      var c := line.1;
      forall t | t in c ensures old(t.place) == place {
        var i :| 0 <= i < |c| && c[i] == t;
        assert old(Link(c, i, place));
      }
    }

    lemma ChainPlace()
      requires ChainOk()
      ensures forall t :: t in chain ==> t.place == Pending && t.linked
    {
      forall t | t in chain ensures t.place == Pending && t.linked {
        var i :| 0 <= i < |chain| && chain[i] == t;
        assert Node(chain, i);
      }
    }

    static lemma LinePlace(first: Task?, c: seq<Task>, place: Place)
      requires LineOk(first, c, place)
      ensures forall t :: t in c ==> t.place == place
    {
      forall t | t in c ensures t.place == place {
        var i :| 0 <= i < |c| && c[i] == t;
        assert Link(c, i, place);
      }
    }

    static lemma SeqRemoved(c: seq<Task>, k: nat)
      requires k < |c| && Distinct(c)
      ensures var r := c[..k] + c[k + 1..];
              Distinct(r) && c[k] !in r && forall t :: t in c && t != c[k] ==> t in r
    {
      var r := c[..k] + c[k + 1..];
      forall t | t in c && t != c[k] ensures t in r {
        var j :| 0 <= j < |c| && c[j] == t;
        assert r[if j < k then j else j - 1] == t;
      }
    }

    twostate lemma ChainRemoved(task: Task, new k: nat)
      requires old(ChainOk()) && k < |old(chain)| && old(chain)[k] == task
      requires chain == old(chain)[..k] + old(chain)[k + 1..]
      requires head == At(chain, 0) && tail == At(chain, |chain| - 1)
      requires insertHint == if old(insertHint) == task then null else old(insertHint)
      requires forall i :: 0 <= i < |old(chain)| && i != k ==> Stitched(old(chain)[i], i, k)
      ensures ChainOk() && Items(chain) == old(Items(chain))[..k] + old(Items(chain))[k + 1..]
    {
      NodesRemoved(k);
      SeqRemoved(old(chain), k);
      ItemsRemoved(k);
      SortedWithout(old(Items(chain)), k);
      hide Sorted, Distinct, Items, Node, Stitched;
    }

    /** A task of the chain when the k-th is taken out: only the two beside it notice. */
    twostate predicate Stitched(t: Task, i: int, k: nat)
      reads t
    {
      && t.next == (if i == k - 1 then At(old(chain), k + 1) else old(t.next))
      && t.prev == (if i == k + 1 then At(old(chain), k - 1) else old(t.prev))
      && t.linked == old(t.linked) && t.place == old(t.place) && t.due == old(t.due) && t.job == old(t.job)
    }

    twostate lemma NodesRemoved(new k: nat)
      requires old(ChainOk()) && k < |old(chain)| && chain == old(chain)[..k] + old(chain)[k + 1..]
      requires forall i :: 0 <= i < |old(chain)| && i != k ==> Stitched(old(chain)[i], i, k)
      ensures forall i {:trigger Node(chain, i)} :: 0 <= i < |chain| ==> Node(chain, i)
    {
      hide Sorted, Items, Distinct;
      forall i | 0 <= i < |chain| ensures Node(chain, i) {
        var j := if i < k then i else i + 1;
        assert old(Node(chain, j)) && Stitched(old(chain)[j], j, k);
      }
    }

    twostate lemma ItemsRemoved(new k: nat)
      requires k < |old(chain)| && chain == old(chain)[..k] + old(chain)[k + 1..]
      requires forall i :: 0 <= i < |old(chain)| && i != k ==> Stitched(old(chain)[i], i, k)
      ensures Items(chain) == old(Items(chain))[..k] + old(Items(chain))[k + 1..]
    {}

    static lemma SortedWithout(items: seq<Item>, k: nat)
      requires Sorted(items) && k < |items|
      ensures Sorted(items[..k] + items[k + 1..])
    {}

    twostate lemma PlacesRemoved(task: Task, new k: nat)
      requires old(PlacesOk()) && k < |old(chain)| && old(chain)[k] == task && Distinct(old(chain))
      requires chain == old(chain)[..k] + old(chain)[k + 1..]
      requires all == old(all) && batch == old(batch) && spare == old(spare)
      requires task.place == InHand && !task.linked
      requires forall t :: t in all && t != task ==> t.place == old(t.place) && t.linked == old(t.linked)
      ensures PlacesOk()
    {
      SeqRemoved(old(chain), k);
      forall t | t in all ensures Home(t) { assert old(Home(t)); }
    }

    twostate predicate Same(t: Task)
      reads t
    {
      && t.next == old(t.next) && t.prev == old(t.prev) && t.linked == old(t.linked)
      && t.place == old(t.place) && t.due == old(t.due) && t.job == old(t.job)
    }

    twostate lemma ChainSame()
      requires old(ChainOk()) && unchanged(this`head, this`tail, this`insertHint, this`chain)
      requires forall t :: t in old(chain) ==> Same(t)
      ensures ChainOk() && Items(chain) == old(Items(chain))
    {
      hide Sorted, Node, Items;
      NodesSame();
      ItemsSame();
    }

    twostate lemma NodesSame()
      requires unchanged(this`chain) && old(forall i {:trigger Node(chain, i)} :: 0 <= i < |chain| ==> Node(chain, i))
      requires forall t :: t in old(chain) ==> Same(t)
      ensures forall i {:trigger Node(chain, i)} :: 0 <= i < |chain| ==> Node(chain, i)
    {
      forall i | 0 <= i < |chain| ensures Node(chain, i) {
        assert old(Node(chain, i)) && chain[i] in old(chain) && Same(chain[i]);
      }
    }

    twostate lemma ItemsSame()
      requires unchanged(this`chain) && forall t :: t in old(chain) ==> Same(t)
      ensures Items(chain) == old(Items(chain))
    {
      forall i | 0 <= i < |chain| ensures Items(chain)[i] == old(Items(chain))[i] {
        assert chain[i] in old(chain) && Same(chain[i]);
      }
    }

    twostate lemma LineSame(line: (Task?, seq<Task>), new place: Place)
      requires old(LineOk(line.0, line.1, place))
      requires forall t :: t in line.1 ==>
                 t.next == old(t.next) && t.prev == old(t.prev) && t.linked == old(t.linked)
                 && t.place == old(t.place) && t.due == old(t.due) && t.job == old(t.job)
      ensures LineOk(line.0, line.1, place) && Items(line.1) == old(Items(line.1))
    {
      var c := line.1;
      forall i | 0 <= i < |c| ensures Link(c, i, place) { assert old(Link(c, i, place)) && c[i] in c; }
      assert Items(c) == old(Items(c));
    }

    /** Where a task due at the given moment goes: in front of the first entry
        due later. The walk resumes at the hint when that is not due later. */
    method FindPlace(due: Time) returns (current: Task?, ghost q: nat)
      requires Valid()
      ensures q <= |chain| && current == At(chain, q)
      ensures forall i :: 0 <= i < q ==> chain[i].due.NotAfter(due)
      ensures q < |chain| ==> due.Before(chain[q].due)
    {
      hide PlacesOk, LineOk;
      if insertHint != null && insertHint.linked && insertHint.due.NotAfter(due) {
        current := insertHint;
        q :| 0 <= q < |chain| && chain[q] == insertHint;
        forall i | 0 <= i < q ensures chain[i].due.NotAfter(due) {
          assert Items(chain)[i].due.NotAfter(Items(chain)[q].due);
        }
      } else {
        current, q := head, 0;
      }
      while current != null && current.due.NotAfter(due)
        invariant q <= |chain| && current == At(chain, q)
        invariant forall i :: 0 <= i < q ==> chain[i].due.NotAfter(due)
        decreases |chain| - q
      {
        assert Node(chain, q);
        current, q := current.next, q + 1;
      }
    }

    /** The pointer writes that put a task in front of current, or at the end. */
    method Splice(task: Task, current: Task?, ghost p: Task?)
      requires task.next == null && task.prev == null && p != task && current != task && (p == current ==> p == null)
      requires head == null <==> tail == null
      requires if current == null then p == tail else head != null && p == current.prev && (p == null <==> head == current)
      modifies this`head, this`tail, task`next, task`prev
      modifies (if p == null then {} else {p})`next, (if current == null then {} else {current})`prev
      ensures task.next == current && task.prev == p
      ensures if p == null then head == task else head == old(head) && p.next == task
      ensures if current == null then tail == task else tail == old(tail) && current.prev == task
    {
      if head == null {
        head, tail := task, task;
      } else if head == current {
        head.prev := task;
        task.next := head;
        head := task;
      } else if current == null {
        tail.next := task;
        task.prev := tail;
        tail := task;
      } else {
        task.next := current;
        task.prev := current.prev;
        current.prev := task;
        task.prev.next := task;
      }
    }

    /** What the ends of the list say about the tasks around a position. */
    lemma Neighbours(q: int)
      requires Valid() && 0 <= q <= |chain|
      ensures var p, n := At(chain, q - 1), At(chain, q);
              && (head == null <==> tail == null) && (p == n ==> p == null)
              && (if n == null then p == tail else head != null && n.prev == p && (p == null <==> head == n))
              && (p != null ==> p.place == Pending && p in all) && (n != null ==> n.place == Pending && n in all)
    {
      assert Node(chain, q) && Node(chain, q - 1);
      assert (q < |chain| ==> chain[q] in chain) && (q > 0 ==> chain[q - 1] in chain);
    }

    method Load(task: Task, due: Time, job: Job)
      modifies task`due, task`job, task`next, task`prev, task`linked, task`place
      ensures task.due == due && task.job == job && task.next == null && task.prev == null
      ensures task.linked && task.place == Pending
    {
      task.job, task.due := job, due;
      task.next, task.prev, task.linked, task.place := null, null, true, Pending;
    }

    /** Arm a task: it goes on the pending list by its due time, behind every
        task due no later. */
    method AddTaskDelay(task: Task, delaySeconds: nat, delayMicros: nat, job: Job)
      requires Valid() && task in all && task.place == InHand
      modifies this`head, this`tail, this`insertHint, this`chain, all`next, all`prev, task`due, task`job, task`linked, task`place
      ensures Valid() && task.place == Pending
      ensures State() == Add(old(State()), delaySeconds, delayMicros, job)
    {
      hide ChainOk, PlacesOk, LineOk, Items, Sorted, Node, Home;
      var due := DueAt(now, delaySeconds, delayMicros);
      ghost var q: nat;
      var current;
      current, q := FindPlace(due);
      Enlist(task, due, job, current, q);
    }

    /** The task takes its place in front of current. */
    method Enlist(task: Task, due: Time, job: Job, current: Task?, ghost q: nat)
      requires Valid() && task in all && task.place == InHand && q <= |chain| && current == At(chain, q)
      requires forall i :: 0 <= i < q ==> chain[i].due.NotAfter(due)
      requires q < |chain| ==> due.Before(chain[q].due)
      modifies this`head, this`tail, this`insertHint, this`chain, all`next, all`prev, task`due, task`job, task`linked, task`place
      ensures Valid() && task.place == Pending
      ensures State() == old(State()).(pending := InsertStable(old(State()).pending, Item(due, job)))
    {
      hide ChainOk, PlacesOk, LineOk, Items, Sorted, Node, Home;
      Neighbours(q);
      AtHome(task);
      ghost var p := At(chain, q - 1);
      Load(task, due, job);
      Splice(task, current, p);
      insertHint := task;
      chain := chain[..q] + [task] + chain[q..];
      Inserted(task, q);
    }

    lemma AtHome(t: Task)
      requires Valid() && t in all
      ensures Home(t)
    {}

    twostate lemma Inserted(task: Task, new q: nat)
      requires old(Valid()) && task in all && old(task.place) == InHand && q <= |old(chain)|
      requires chain == old(chain)[..q] + [task] + old(chain)[q..]
      requires all == old(all) && batch == old(batch) && spare == old(spare) && unchanged(this`batchHead, this`pool)
      requires unchanged(this`batchTail, this`tasksAlive, this`envelopesAlive, this`sent, this`freed, this`now, this`ran)
      requires insertHint == task
      requires forall i :: 0 <= i < q ==> old(chain[i].due).NotAfter(task.due)
      requires q < |old(chain)| ==> task.due.Before(old(chain[q].due))
      requires var p, n := At(old(chain), q - 1), At(old(chain), q);
               && task.next == n && task.prev == p
               && (if p == null then head == task else head == old(head) && p.next == task)
               && (if n == null then tail == task else tail == old(tail) && n.prev == task)
               && forall t :: t in all && t != task ==>
                    && (t != p ==> t.next == old(t.next)) && (t != n ==> t.prev == old(t.prev))
                    && t.linked == old(t.linked) && t.place == old(t.place) && t.due == old(t.due) && t.job == old(t.job)
      requires task.place == Pending && task.linked
      ensures Valid()
      ensures Items(chain) == InsertStable(old(Items(chain)), Item(task.due, task.job)) && Items(batch) == old(Items(batch))
    {
      assert Distinct(old(chain));
      hide ChainOk, LineOk, Sorted, Items;
      assert old(Home(task));
      OldChainPlace();
      ghost var p, n := At(old(chain), q - 1), At(old(chain), q);
      assert (p != null ==> p in old(chain)) && (n != null ==> n in old(chain));
      LinesKept(task);
      ChainInserted(task, q);
      PlacesInserted(task, q);
    }

    twostate lemma PlacesInserted(task: Task, new q: nat)
      requires old(PlacesOk()) && task in all && q <= |old(chain)|
      requires chain == old(chain)[..q] + [task] + old(chain)[q..]
      requires all == old(all) && batch == old(batch) && spare == old(spare)
      requires task.place == Pending
      requires forall t :: t in all && t != task ==> t.place == old(t.place) && t.linked == old(t.linked)
      ensures PlacesOk()
    {
      assert chain[q] == task;
      forall t | t in all ensures Home(t) {
        assert old(Home(t));
        if t in old(chain) { SeqInserted(old(chain), q, task, t); }
      }
    }

    static lemma SeqInserted(c: seq<Task>, q: nat, task: Task, t: Task)
      requires q <= |c| && t in c
      ensures t in c[..q] + [task] + c[q..]
    {
      var j :| 0 <= j < |c| && c[j] == t;
      assert (c[..q] + [task] + c[q..])[if j < q then j else j + 1] == t;
    }

    twostate lemma ChainInserted(task: Task, new q: nat)
      requires old(ChainOk()) && task !in old(chain) && q <= |old(chain)| && insertHint == task
      requires chain == old(chain)[..q] + [task] + old(chain)[q..]
      requires forall i :: 0 <= i < q ==> old(chain[i].due).NotAfter(task.due)
      requires q < |old(chain)| ==> task.due.Before(old(chain[q].due))
      requires var p, n := At(old(chain), q - 1), At(old(chain), q);
               && task.next == n && task.prev == p && task.place == Pending && task.linked
               && (if p == null then head == task else head == old(head) && p.next == task)
               && (if n == null then tail == task else tail == old(tail) && n.prev == task)
               && forall i :: 0 <= i < |old(chain)| ==>
                    var t := old(chain)[i];
                    && (i != q - 1 ==> t.next == old(t.next)) && (i != q ==> t.prev == old(t.prev))
                    && t.linked == old(t.linked) && t.place == old(t.place) && t.due == old(t.due) && t.job == old(t.job)
      ensures ChainOk()
      ensures Items(chain) == InsertStable(old(Items(chain)), Item(task.due, task.job))
    {
      hide Sorted, Items;
      forall i | 0 <= i < |chain| ensures Node(chain, i) {
        assert old(Node(chain, if i < q then i else i - 1));
      }
      assert chain[q] == task;
      ItemsInserted(task, q);
      InsertKeepsSorted(old(Items(chain)), Item(task.due, task.job));
    }

    twostate lemma ItemsInserted(task: Task, new q: nat)
      requires q <= |old(chain)| && chain == old(chain)[..q] + [task] + old(chain)[q..]
      requires forall i :: 0 <= i < q ==> old(chain[i].due).NotAfter(task.due)
      requires q < |old(chain)| ==> task.due.Before(old(chain[q].due))
      requires forall i :: 0 <= i < |old(chain)| ==>
                 var t := old(chain)[i]; t.due == old(t.due) && t.job == old(t.job)
      ensures Items(chain) == InsertStable(old(Items(chain)), Item(task.due, task.job))
    {
      var was, x := old(Items(chain)), Item(task.due, task.job);
      InsertStableAt(was, x, q);
      assert Items(chain) == was[..q] + [x] + was[q..];
    }

    // ---- the pool -----------------------------------------------------------

    /** A change to one struct that is on neither chain leaves both as they are. */
    twostate lemma OthersKept(task: Task)
      requires old(ChainOk()) && old(LineOk(batchHead, batch, Due)) && old(PlacesOk())
      requires unchanged(this`head, this`tail, this`insertHint, this`chain, this`batchHead, this`batch)
      requires old(task.place) == InHand || old(task.place) == Pooled
      requires forall t :: t in old(all) && t != task ==> Same(t)
      ensures ChainOk() && LineOk(batchHead, batch, Due)
      ensures Items(chain) == old(Items(chain)) && Items(batch) == old(Items(batch))
    {
      OldChainPlace();
      OldLinePlace((batchHead, batch), Due);
      LineSame((batchHead, batch), Due);
      ChainSame();
    }

    /** Hand out a task struct: a spare one if there is one, else a new one. */
    method GetTask() returns (task: Task)
      requires Valid()
      modifies this`pool, this`spare, this`all, this`tasksAlive, all`next, all`place
      ensures Valid() && task in all && task.place == InHand && fresh(all - old(all)) && old(all) <= all
      ensures State() == old(State())
      ensures task in old(all) ==> old(task.place) == Pooled
      ensures forall t :: t in old(all) && t != task ==> t.place == old(t.place)
      ensures tasksAlive == if old(spare) == [] then old(tasksAlive) + 1 else old(tasksAlive)
    {
      hide ChainOk, LineOk, PlacesOk, Items;
      PoolIsSpare();
      if pool != null {
        task := Pop();
      } else {
        task := new Task();
        tasksAlive := tasksAlive + 1;
        all := all + {task};
        Grown(task);
      }
    }

    lemma PoolIsSpare()
      requires Valid()
      ensures pool == null <==> spare == []
    {}

    method Pop() returns (task: Task)
      requires Valid() && pool != null
      modifies this`pool, this`spare, all`next, all`place
      ensures Valid() && task in all && task.place == InHand && spare == old(spare)[1..] && old(spare) != []
      ensures old(task.place) == Pooled && forall t :: t in all && t != task ==> t.place == old(t.place)
      ensures State() == old(State())
    {
      hide ChainOk, LineOk, PlacesOk, Items;
      PoolHead();
      task := pool;
      pool := task.next;
      task.next, task.place := null, InHand;
      spare := spare[1..];
      OthersKept(task);
      Popped(task);
    }

    lemma PoolHead()
      requires Valid() && pool != null
      ensures spare != [] && spare[0] == pool && pool in all && pool.place == Pooled && !pool.linked && pool.next == At(spare[1..], 0)
    {
      assert Link(spare, 0, Pooled) && spare[0] in spare;
    }

    twostate lemma Popped(task: Task)
      requires old(LineOk(pool, spare, Pooled)) && old(PlacesOk()) && old(spare) != [] && task == old(spare)[0]
      requires spare == old(spare)[1..] && pool == At(spare, 0)
      requires unchanged(this`chain, this`batch, this`all) && task.place == InHand && !task.linked
      requires forall t :: t in all && t != task ==> Same(t)
      ensures LineOk(pool, spare, Pooled) && PlacesOk()
    {
      forall i | 0 <= i < |spare| ensures Link(spare, i, Pooled) {
        assert old(Link(spare, i + 1, Pooled)) && old(spare)[i + 1] in old(spare);
        assert old(spare)[0] != old(spare)[i + 1] && Same(old(spare)[i + 1]);
      }
      forall t | t in all ensures Home(t) {
        assert old(Home(t));
        if t in old(spare) && t != task { assert t in old(spare)[1..]; }
      }
    }

    twostate lemma Grown(new task: Task)
      requires old(Valid()) && fresh(task) && all == old(all) + {task}
      requires unchanged(this`head, this`tail, this`insertHint, this`chain, this`batchHead, this`batch, this`pool, this`spare)
      requires task.place == InHand && !task.linked && forall t :: t in old(all) ==> Same(t)
      ensures ChainOk() && LineOk(batchHead, batch, Due) && LineOk(pool, spare, Pooled) && PlacesOk()
      ensures Items(chain) == old(Items(chain)) && Items(batch) == old(Items(batch))
    {
      LineSame((batchHead, batch), Due);
      LineSame((pool, spare), Pooled);
      ChainSame();
      forall t | t in all ensures Home(t) { assert t != task ==> old(Home(t)); }
    }

    /** Retire a task: off its chain if it is on one, and on the pool. */
    method RemoveTask(task: Task, ghost k: int)
      requires Valid() && task in all && (task.place == InHand || Removable(task, k))
      modifies this`head, this`tail, this`insertHint, this`chain, this`batch, this`pool, this`spare
      modifies all`next, all`prev, task`job, task`linked, task`place
      ensures Valid() && task.place == Pooled && tasksAlive == old(tasksAlive)
      ensures State() == if old(task.linked) then Dropped(old(State()), old(task.place), k) else old(State())
    {
      hide Valid, State, Dropped;
      LinkedIffChained(task);
      RemoveTaskFromList(task, k);
      Park(task);
    }

    method Park(task: Task)
      requires Valid() && task in all && task.place == InHand && !task.linked
      modifies this`pool, this`spare, task`job, task`next, task`place
      ensures Valid() && task.place == Pooled && State() == old(State())
    {
      task.job := Idle;
      task.next := pool;
      pool := task;
      task.place := Pooled;
      spare := [task] + spare;
      OthersKept(task);
      Parked(task);
    }

    twostate lemma Parked(task: Task)
      requires old(LineOk(pool, spare, Pooled)) && old(PlacesOk()) && task in all && old(task.place) == InHand
      requires spare == [task] + old(spare) && pool == task && task.next == old(pool)
      requires unchanged(this`chain, this`batch, this`all) && task.place == Pooled && !task.linked
      requires forall t :: t in all && t != task ==> Same(t)
      ensures LineOk(pool, spare, Pooled) && PlacesOk()
    {
      OldLinePlace((old(pool), old(spare)), Pooled);
      forall i | 0 <= i < |spare| ensures Link(spare, i, Pooled) {
        assert i > 0 ==> old(Link(spare, i - 1, Pooled)) && old(spare)[i - 1] in old(spare);
      }
      forall t | t in all ensures Home(t) {
        assert old(Home(t));
        if t in old(spare) { assert t in [task] + old(spare); }
      }
    }

    /** The n-th struct one comes to on the pool. */
    ghost function PoolAt(n: nat): Task?
      reads this, all
    {
      if n == 0 then pool
      else var t := PoolAt(n - 1); if t == null || t !in all then null else t.next
    }

    /** What RemoveTask does to a task on no list, which the program never asks about:
        the pool still comes to an end exactly when the task was not pooled already. */
    method ParkAny(task: Task, ghost k: nat)
      requires Valid() && task in all && (task.place == InHand || (k < |spare| && spare[k] == task))
      modifies this`pool, task`job, task`next
      ensures pool == task && task.next == old(pool) && task.job == Idle
      ensures (exists n :: PoolAt(n) == null) <==> old(task.place) == InHand
    {
      ghost var was := spare;
      LinePlace(pool, spare, Pooled);
      forall i | 0 <= i < |was| ensures was[i] in all && was[i].next == At(was, i + 1) {
        assert Link(spare, i, Pooled) && spare[i] in spare;
      }
      task.job := Idle;
      task.next := pool;
      pool := task;
      assert forall i :: 0 <= i < |was| && was[i] != task ==> was[i].next == At(was, i + 1);
      if old(task.place) == InHand {
        assert forall i :: 0 <= i < |was| ==> was[i] in was && was[i] != task;
        PoolOnce(task, was, |was| + 1);
      } else {
        forall n: nat ensures PoolAt(n) != null { PoolTurns(task, was, k, n); }
      }
    }

    lemma {:induction false} PoolOnce(task: Task, was: seq<Task>, n: nat)
      requires pool == task && task in all && task.next == At(was, 0) && n <= |was| + 1
      requires forall i :: 0 <= i < |was| ==> was[i] in all && was[i].next == At(was, i + 1)
      ensures PoolAt(n) == if n == 0 then task else At(was, n - 1)
    {
      if n > 0 { PoolOnce(task, was, n - 1); }
    }

    /** The k-th of the pool is its head again: whoever follows the pool comes round to it. */
    lemma {:induction false} PoolTurns(task: Task, was: seq<Task>, k: nat, n: nat)
      requires pool == task && k < |was| && was[k] == task && task.next == was[0]
      requires forall i :: 0 <= i <= k ==> was[i] in all && (i < k ==> was[i].next == At(was, i + 1))
      ensures exists i :: 0 <= i <= k && PoolAt(n) == was[i]
    {
      if n > 0 {
        PoolTurns(task, was, k, n - 1);
        var i :| 0 <= i <= k && PoolAt(n - 1) == was[i];
        assert PoolAt(n) == was[if i == k then 0 else i + 1];
      }
    }

    // ---- the due batch ------------------------------------------------------

    /** Nothing of this batch has run yet. */
    ghost predicate Untaken()
      reads this`batch, batch
    {
      batch != [] ==> batch[0].prev == null
    }

    /** Append a task to the batch. */
    method AddTaskToTail(task: Task)
      requires Valid() && task in all && task.place == InHand && Untaken()
      modifies this`batchHead, this`batchTail, this`batch, task`next, task`prev, task`linked, task`place
      modifies (if batch == [] then {} else {batch[|batch| - 1]})`next
      ensures Valid() && batch == old(batch) + [task] && Untaken()
      ensures State() == old(State()).(batch := old(State()).batch + [Item(task.due, task.job)])
    {
      hide ChainOk, PlacesOk, Items;
      AtHome(task);
      LinePlace(batchHead, batch, Due);
      task.linked := true;
      if batchHead == null {
        batchHead, batchTail := task, task;
        task.next, task.prev := null, null;
      } else {
        batchTail.next := task;
        task.next, task.prev := null, batchTail;
        batchTail := task;
      }
      task.place := Due;
      batch := batch + [task];
      Appended(task);
    }

    twostate lemma Appended(task: Task)
      requires old(Valid()) && task in all && old(task.place) == InHand
      requires batch == old(batch) + [task] && batchHead == At(batch, 0) && batchTail == task
      requires unchanged(this`head, this`tail, this`insertHint, this`chain, this`pool, this`spare, this`all)
      requires unchanged(this`tasksAlive, this`envelopesAlive, this`sent, this`freed)
      requires task.place == Due && task.linked && task.next == null && task.prev == At(old(batch), |old(batch)| - 1)
      requires old(batch) != [] ==> old(batchTail).next == task && old(batchTail) != task
      requires old(Untaken())
      requires forall t :: t in old(all) && t != task ==>
                 && (t != old(batchTail) || old(batch) == [] ==> t.next == old(t.next)) && t.prev == old(t.prev)
                 && t.linked == old(t.linked) && t.place == old(t.place) && t.due == old(t.due) && t.job == old(t.job)
      ensures Valid() && Items(chain) == old(Items(chain)) && Items(batch) == old(Items(batch)) + [Item(task.due, task.job)]
      ensures Untaken()
    {
      assert old(Home(task));
      OldChainPlace();
      OldLinePlace((old(batchHead), old(batch)), Due);
      OldLinePlace((pool, spare), Pooled);
      assert old(batch) != [] ==> old(batchTail) in old(batch);
      forall t | t in old(chain) ensures Same(t) { assert t in old(all) && t != task; }
      ChainSame();
      LineSame((pool, spare), Pooled);
      LineAppended(task);
      PlacesAppended(task);
    }

    twostate lemma LineAppended(task: Task)
      requires old(LineOk(batchHead, batch, Due)) && task !in old(batch) && old(Untaken())
      requires batch == old(batch) + [task] && batchHead == At(batch, 0)
      requires task.place == Due && task.linked && task.next == null && task.prev == At(old(batch), |old(batch)| - 1)
      requires forall i :: 0 <= i < |old(batch)| ==>
                 var t := old(batch)[i];
                 && t.next == (if i == |old(batch)| - 1 then task else old(t.next))
                 && t.prev == old(t.prev) && t.linked == old(t.linked) && t.place == old(t.place) && t.due == old(t.due) && t.job == old(t.job)
      ensures LineOk(batchHead, batch, Due) && Items(batch) == old(Items(batch)) + [Item(task.due, task.job)] && Untaken()
    {
      forall i | 0 <= i < |batch| ensures Link(batch, i, Due) {
        assert i < |old(batch)| ==> old(Link(batch, i, Due));
      }
      assert Items(batch) == old(Items(batch)) + [Item(task.due, task.job)];
    }

    twostate lemma PlacesAppended(task: Task)
      requires old(PlacesOk()) && task in all && task.place == Due
      requires batch == old(batch) + [task] && unchanged(this`chain, this`spare, this`all)
      requires forall t :: t in all && t != task ==> t.place == old(t.place) && t.linked == old(t.linked)
      ensures PlacesOk()
    {
      assert batch[|batch| - 1] == task;
      forall t | t in all ensures Home(t) {
        assert old(Home(t));
        if t in old(batch) { assert t in old(batch) + [task]; }
      }
    }

    /** What the head of the pending list says about the state. */
    lemma HeadItem()
      requires Valid()
      ensures head == null <==> State().pending == []
      ensures head != null ==> State().pending[0] == Item(head.due, head.job)
      ensures head != null ==> head == chain[0] && head in all && head.linked
    {
      assert Node(chain, 0);
    }

    /** Move the head of the pending list to the end of the batch. */
    method MoveHead()
      requires Valid() && head != null && State().pending != [] && Untaken()
      modifies this`head, this`tail, this`insertHint, this`chain, this`batchHead, this`batchTail, this`batch
      modifies all`next, all`prev, all`linked, all`place
      ensures Valid() && Untaken()
      ensures State() == old(State()).(pending := old(State()).pending[1..], batch := old(State()).batch + [old(State()).pending[0]])
    {
      hide Valid, Items, Untaken, Dropped, State;
      var current := head;
      HeadItem();
      HeadIsPending();
      ghost var was := State();
      DroppedIs(was, 0);
      assert was.pending[..0] + was.pending[1..] == was.pending[1..];
      BatchInAll();
      RemoveTaskFromList(current, 0);
      BatchInAll();
      AddTaskToTail(current);
    }

    lemma BatchInAll()
      requires Valid()
      ensures forall t :: t in batch ==> t in all
    {}

    /** Move everything that is due into the batch. */
    method ActivateTimedTasks()
      requires Valid() && State().batch == []
      modifies this`head, this`tail, this`insertHint, this`chain, this`batchHead, this`batchTail, this`batch
      modifies all`next, all`prev, all`linked, all`place
      ensures Valid() && State() == Activate(old(State()))
    {
      HeadItem();
      hide Valid, ChainOk, LineOk, PlacesOk, Items;
      while head != null && head.due.NotAfter(now)
        invariant Valid() && Untaken() && MoveDue(State()) == MoveDue(old(State())) && now == old(now)
        invariant head == null <==> State().pending == []
        invariant head != null ==> State().pending[0] == Item(head.due, head.job)
        decreases |State().pending|
      {
        MoveHead();
        HeadItem();
      }
      MoveDueIsActivate(old(State()));
    }

    // ---- running the batch --------------------------------------------------

    /** A task struct for a new piece of work, armed. A task some callback still
        holds is not touched. */
    method StartTask(delaySeconds: nat, delayMicros: nat, job: Job)
      requires Valid()
      modifies this`head, this`tail, this`insertHint, this`chain, this`pool, this`spare, this`all, this`tasksAlive, all
      ensures Valid() && State() == Add(old(State()), delaySeconds, delayMicros, job)
      ensures Untouched(old(all))
    {
      hide Valid, ChainOk, LineOk, PlacesOk, Items, State;
      var task := GetTask();
      AddTaskDelay(task, delaySeconds, delayMicros, job);
    }

    /** Tasks that were in hand before still are, and do the same job. */
    twostate predicate Untouched(was: set<Task>)
      requires forall t :: t in was ==> old(allocated(t))
      reads this`all, was
    {
      && was <= all && fresh(all - was)
      && forall t :: t in was && old(t.place) == InHand ==> t.place == InHand && t.job == old(t.job)
    }

    method CountSent()
      requires Valid()
      modifies this`envelopesAlive, this`sent
      ensures Valid() && State() == old(State()).(sent := old(State()).sent + 1)
    {
      hide ChainOk, LineOk, PlacesOk, Items;
      envelopesAlive, sent := envelopesAlive + 1, sent + 1;
    }

    /** SndMsgNode: an envelope on a task of its own, due at once. */
    method SndMsg()
      requires Valid()
      modifies this, all
      ensures Valid() && State() == SendMessage(old(State()))
      ensures Untouched(old(all))
    {
      hide Valid, ChainOk, LineOk, PlacesOk, Items, Add;
      StartTask(0, 0, Message(sent));
      CountSent();
    }

    /** Everything a callback asks for, in order. */
    method PerformActs(acts: seq<Act>)
      requires Valid()
      modifies this, all
      ensures Valid() && State() == PerformAll(old(State()), acts)
      ensures Untouched(old(all))
    {
      hide Valid, ChainOk, LineOk, PlacesOk, Items, State;
      var i := 0;
      while i < |acts|
        invariant 0 <= i <= |acts| && Valid() && Untouched(old(all))
        invariant PerformAll(State(), acts[i..]) == PerformAll(old(State()), acts)
      {
        assert acts[i..][0] == acts[i] && acts[i..][1..] == acts[i + 1..];
        match acts[i] {
          case Send => SndMsg();
          case Start(id, s, us) => StartTask(s, us, Timer(id));
          case Stop(id) => StopTimer(id);
        }
        i := i + 1;
      }
    }

    /** RemoveTask of a timer that waits on the pending list, by whoever holds it. */
    method StopTimer(id: nat)
      requires Valid()
      modifies this`head, this`tail, this`insertHint, this`chain, this`batch, this`pool, this`spare
      modifies all`next, all`prev, all`job, all`linked, all`place
      ensures Valid() && State() == StopPending(old(State()), id)
      ensures Untouched(old(all))
    {
      hide Valid, ChainOk, PlacesOk, LineOk, Items, Sorted, Dropped, StopPending;
      var task, i := FindTimer(id);
      StopIs(State(), id, i);
      DroppedIs(State(), i);
      if task != null { RemoveTask(task, i); }
    }

    /** The first pending timer of that name. */
    method FindTimer(id: nat) returns (task: Task?, ghost i: nat)
      requires Valid()
      ensures i <= |chain| == |State().pending| && task == At(chain, i)
      ensures task != null ==> task in all && task.linked && task.place == Pending && Removable(task, i)
      ensures task != null ==> State().pending[i].job == Timer(id)
      ensures forall j :: 0 <= j < i ==> State().pending[j].job != Timer(id)
    {
      HeadItem();
      task, i := head, 0;
      while task != null && task.job != Timer(id)
        invariant i <= |chain| && task == At(chain, i)
        invariant forall j :: 0 <= j < i ==> chain[j].job != Timer(id)
        decreases |chain| - i
      {
        assert Node(chain, i);
        task, i := task.next, i + 1;
      }
      ValidChain();
      if task != null { assert Node(chain, i) && task in chain; }
    }

    /** Take the first task off the batch; its neighbour's back pointer is left
        as it is. */
    method TakeFirst() returns (current: Task)
      requires Valid() && batchHead != null
      modifies this`batchHead, this`batch, all`next, all`prev, all`linked, all`place
      ensures Valid() && current in all && current.place == InHand && old(State()).batch != []
      ensures State() == old(State()).(batch := old(State()).batch[1..])
      ensures current.job == old(State()).batch[0].job
      ensures all == old(all) && current == old(batch)[0] && batch == old(batch)[1..]
      ensures batch != [] ==> batch[0].prev == current
    {
      assert Link(batch, 0, Due) && Link(batch, 1, Due);
      current := batchHead;
      batchHead := current.next;
      current.next, current.prev, current.linked, current.place := null, null, false, InHand;
      batch := batch[1..];
      hide ChainOk, LineOk, PlacesOk;
      Taken(current);
    }

    twostate lemma Taken(task: Task)
      requires old(Valid()) && old(batch) != [] && task == old(batch)[0]
      requires batch == old(batch)[1..] && batchHead == At(batch, 0)
      requires unchanged(this`head, this`tail, this`insertHint, this`chain, this`pool, this`spare, this`all, this`batchTail)
      requires task.place == InHand && !task.linked
      requires forall t :: t in old(all) && t != task ==> Same(t)
      ensures ChainOk() && LineOk(batchHead, batch, Due) && LineOk(pool, spare, Pooled) && PlacesOk()
      ensures Items(chain) == old(Items(chain)) && Items(batch) == old(Items(batch))[1..]
    {
      OldChainPlace();
      OldLinePlace((old(batchHead), old(batch)), Due);
      OldLinePlace((pool, spare), Pooled);
      assert task in old(batch) && task in old(all);
      ChainSame();
      LineSame((pool, spare), Pooled);
      LineTaken(task);
      PlacesTaken(task);
    }

    twostate lemma LineTaken(task: Task)
      requires old(LineOk(batchHead, batch, Due)) && old(batch) != [] && task == old(batch)[0]
      requires batch == old(batch)[1..] && batchHead == At(batch, 0)
      requires forall t :: t in old(batch) && t != task ==> Same(t)
      ensures LineOk(batchHead, batch, Due) && Items(batch) == old(Items(batch))[1..]
    {
      if batch != [] {
        assert old(Link(batch, 1, Due)) && old(batch)[1] in old(batch) && Same(old(batch)[1]);
        assert task !in batch;
      }
      forall i | 0 <= i < |batch| ensures Link(batch, i, Due) && Items(batch)[i] == old(Items(batch))[1..][i] {
        assert old(Link(batch, i + 1, Due)) && old(batch)[i + 1] in old(batch);
        assert old(batch)[0] != old(batch)[i + 1] && Same(old(batch)[i + 1]);
      }
    }

    twostate lemma PlacesTaken(task: Task)
      requires old(PlacesOk()) && old(batch) != [] && task == old(batch)[0] && task.place == InHand && !task.linked
      requires batch == old(batch)[1..] && unchanged(this`chain, this`spare, this`all)
      requires forall t :: t in all && t != task ==> Same(t)
      ensures PlacesOk()
    {
      forall t | t in all ensures Home(t) {
        assert old(Home(t));
        if t in old(batch) && t != task { assert t in old(batch)[1..]; }
      }
    }

    /** The envelope of a dispatched or torn-down message and its payload go. */
    method FreeEnvelope(serial: nat)
      requires Valid()
      modifies this`envelopesAlive, this`freed
      ensures Valid() && State() == old(State()).(freed := old(State()).freed + [serial])
    {
      hide ChainOk, LineOk, PlacesOk, Items;
      envelopesAlive := envelopesAlive - 1;
      freed := freed + [serial];
    }

    /** What becomes of the task itself once its callback has returned. A
        dispatched message parks its task and frees its envelope. */
    method SettleTask(current: Task, job: Job, fate: Fate)
      requires Valid() && current in all && current.place == InHand
      modifies this, all
      ensures Valid() && all == old(all)
      ensures State() == (var e := Settle(old(State()), job, fate);
                          e.(freed := e.freed + Serial(job), ran := e.ran + if job.Idle? then [] else [job]))
      ensures current.place == match fate case Rearm(_, _) => Pending case Retire => Pooled case Keep => InHand
    {
      hide Valid, ChainOk, LineOk, PlacesOk, Items;
      AtHome(current);
      match fate {
        case Rearm(s, us) => AddTaskDelay(current, s, us, job);
        case Retire => RemoveTask(current, 0);
        case Keep =>
      }
      if job.Message? { FreeEnvelope(job.serial); }
      Note(job);
    }

    /** The callbacks keep count of what ran, as objects do of their own turns. */
    method Note(job: Job)
      requires Valid()
      modifies this`ran
      ensures Valid() && State() == old(State()).(ran := old(State()).ran + if job.Idle? then [] else [job])
    {
      ran := ran + if job.Idle? then [] else [job];
    }

    /** One turn of the loop of ExecTasks. */
    method RunOne(react: Handler)
      requires Valid() && batchHead != null && State().batch != []
      modifies this, all
      ensures Valid() && State() == RunFirst(old(State()), react) && fresh(all - old(all))
      ensures Turns.Turn(old(State()), react, State())
    {
      hide Valid, ChainOk, LineOk, PlacesOk, Items, Turns.Turn;
      Turns.RunFirstTurns(State(), react);
      var current := TakeFirst();
      var job, at, count, turn := current.job, now, sent, |ran|;
      PerformActs(ActsOf(react, job, at, count, turn));
      SettleTask(current, job, FateOf(react, job, at, count, turn));
    }

    /** Run everything that is due. Whatever the callbacks add waits for the
        next call. Returns false when there was nothing to run and nothing waits. */
    method ExecTasks(react: Handler) returns (busy: bool)
      requires Valid() && State().batch == []
      modifies this, all
      ensures Valid() && State() == SchedModel.ExecTasks(old(State()), react) && State().batch == []
      ensures Turns.Call(old(State()), react, State())
      ensures busy <==> DueCount(old(State()).pending, old(State()).now) > 0 || State().pending != []
    {
      hide Valid, ChainOk, LineOk, PlacesOk, Items, State, RunBatch, Turns.Call;
      Turns.ExecTasksCalls(State(), react);
      ActivateTimedTasks();
      var count := Drain(react);
      HeadItem();
      busy := head != null || count > 0;
    }

    /** The loop of ExecTasks. */
    method Drain(react: Handler) returns (count: nat)
      requires Valid()
      modifies this, all
      ensures Valid() && State() == RunBatch(old(State()), react) && State().batch == []
      ensures count == |old(State()).batch|
    {
      hide Valid, ChainOk, LineOk, PlacesOk, Items, State, RunFirst;
      BatchItem();
      count := 0;
      while batchHead != null
        invariant Valid() && RunBatch(State(), react) == RunBatch(old(State()), react) && fresh(all - old(all))
        invariant batchHead == null <==> State().batch == []
        invariant count + |State().batch| == |old(State()).batch|
        decreases |State().batch|
      {
        RunFirstFrame(State(), react);
        RunOne(react);
        BatchItem();
        count := count + 1;
      }
    }

    lemma BatchItem()
      requires Valid()
      ensures batchHead == null <==> State().batch == []
    {}

    // ---- deletion and teardown ----------------------------------------------

    /** Take a retired task off the pool, if it is parked there. */
    method Unpool(task: Task)
      requires Valid() && task in all && task.place != Due && task.place != Pending
      modifies this`pool, this`spare, all`next, task`place
      ensures Valid() && task.place == InHand && State() == old(State())
    {
      var link: Task?, at, i := null, pool, 0;
      while at != null && at != task
        invariant 0 <= i <= |spare| && at == At(spare, i) && link == At(spare, i - 1)
        invariant forall j :: 0 <= j < i ==> spare[j] != task
        decreases |spare| - i
      {
        assert Link(spare, i, Pooled);
        link, at, i := at, at.next, i + 1;
      }
      assert Home(task);
      if at == task {
        assert Link(spare, i, Pooled);
        ghost var gone := spare;
        if link == null { pool := task.next; } else { link.next := task.next; }
        task.next, task.place := null, InHand;
        spare := spare[..i] + spare[i + 1..];
        Unpooled(task, i);
      }
    }

    twostate lemma Unpooled(task: Task, new i: nat)
      requires old(Valid()) && i < |old(spare)| && old(spare)[i] == task
      requires spare == old(spare)[..i] + old(spare)[i + 1..]
      requires unchanged(this`head, this`tail, this`insertHint, this`chain, this`batchHead, this`batchTail, this`batch, this`all)
      requires unchanged(this`tasksAlive, this`envelopesAlive, this`sent, this`freed)
      requires task.place == InHand && task.linked == old(task.linked)
      requires var link := At(old(spare), i - 1);
               && (if link == null then pool == At(old(spare), i + 1) else pool == old(pool) && link.next == At(old(spare), i + 1))
               && forall t :: t in old(all) && t != task ==>
                    && (t != link ==> t.next == old(t.next)) && t.prev == old(t.prev) && t.linked == old(t.linked)
                    && t.place == old(t.place) && t.due == old(t.due) && t.job == old(t.job)
      ensures Valid() && Items(chain) == old(Items(chain)) && Items(batch) == old(Items(batch))
    {
      OldChainPlace();
      OldLinePlace((batchHead, batch), Due);
      OldLinePlace((old(pool), old(spare)), Pooled);
      assert task in old(spare) && (i > 0 ==> old(spare)[i - 1] in old(spare));
      forall t | t in old(chain) ensures Same(t) { assert t in old(all); }
      ChainSame();
      LineSame((batchHead, batch), Due);
      LineShorter(task, i);
      PlacesUnpooled(task, i);
    }

    twostate lemma LineShorter(task: Task, new i: nat)
      requires old(LineOk(pool, spare, Pooled)) && i < |old(spare)| && old(spare)[i] == task
      requires spare == old(spare)[..i] + old(spare)[i + 1..]
      requires if i == 0 then pool == At(old(spare), 1) else pool == old(pool)
      requires forall j :: 0 <= j < |old(spare)| && j != i ==>
                 var t := old(spare)[j];
                 && t.next == (if j == i - 1 then At(old(spare), i + 1) else old(t.next))
                 && t.linked == old(t.linked) && t.place == old(t.place)
      ensures LineOk(pool, spare, Pooled)
    {
      SeqRemoved(old(spare), i);
      assert i > 0 ==> old(Link(spare, i, Pooled));
      forall j | 0 <= j < |spare| ensures Link(spare, j, Pooled) {
        assert old(Link(spare, if j < i then j else j + 1, Pooled));
      }
    }

    twostate lemma PlacesUnpooled(task: Task, new i: nat)
      requires old(PlacesOk()) && old(LineOk(pool, spare, Pooled)) && i < |old(spare)| && old(spare)[i] == task
      requires spare == old(spare)[..i] + old(spare)[i + 1..] && unchanged(this`chain, this`batch, this`all)
      requires task.place == InHand && task.linked == old(task.linked)
      requires forall t :: t in old(all) && t != task ==> t.place == old(t.place) && t.linked == old(t.linked)
      ensures PlacesOk()
    {
      assert old(Link(spare, i, Pooled));
      SeqRemoved(old(spare), i);
      forall t | t in all ensures Home(t) { assert old(Home(t)); }
    }

    /** A struct that is on neither chain says so. */
    lemma LinkedIffChained(task: Task)
      requires Valid() && task in all
      ensures task.linked <==> task.place == Pending || task.place == Due
    {
      assert Home(task);
      ChainPlace();
      if task.place == Due {
        var i :| 0 <= i < |batch| && batch[i] == task;
        assert Link(batch, i, Due);
      }
      if task.place == Pooled {
        var i :| 0 <= i < |spare| && spare[i] == task;
        assert Link(spare, i, Pooled);
      }
    }

    /** Unlink a task and tell its callback: a message waiting on it is torn down. */
    method DeactivateTask(task: Task, ghost k: int)
      requires Valid() && task in all && (task.linked ==> Removable(task, k)) && (task.job.Message? ==> task.linked)
      modifies this, all
      ensures Valid() && all == old(all) && unchanged(this`tasksAlive) && !task.linked && task.place != Due && task.place != Pending
      ensures State() == if old(task.linked) then Torn(old(State()), old(task.place), k) else old(State())
    {
      hide Valid, ChainOk, LineOk, PlacesOk, Items;
      LinkedIffChained(task);
      if task.linked { EntryAt(task, k); }
      RemoveTaskFromList(task, k);
      if task.job.Message? { FreeEnvelope(task.job.serial); }
    }

    lemma EntryAt(task: Task, k: nat)
      requires Valid() && Removable(task, k)
      ensures if task.place == Pending then k < |State().pending| && State().pending[k] == Item(task.due, task.job)
              else k < |State().batch| && State().batch[k] == Item(task.due, task.job)
    {}

    /** The k-th entry is gone from the pending list or the batch, its message torn
        down. */
    static ghost function Torn(e: Engine, place: Place, k: int): Engine {
      var gone := if place == Pending && 0 <= k < |e.pending| then Serial(e.pending[k].job)
                  else if place == Due && 0 <= k < |e.batch| then Serial(e.batch[k].job) else [];
      Dropped(e, place, k).(freed := e.freed + gone)
    }

    /** Free a task struct wherever it is: on a chain, on the pool or in hand. */
    method DeleteTask(task: Task, ghost k: int)
      requires Valid() && task in all && (task.linked ==> Removable(task, k)) && (task.job.Message? ==> task.linked)
      modifies this, all
      ensures Valid() && all == old(all) - {task} && tasksAlive == old(tasksAlive) - 1
      ensures State() == if old(task.linked) then Torn(old(State()), old(task.place), k) else old(State())
    {
      hide Valid, State;
      DeactivateTask(task, k);
      Unpool(task);
      Forget(task);
    }

    method Forget(task: Task)
      requires Valid() && task in all && task.place == InHand
      modifies this`all, this`tasksAlive
      ensures Valid() && all == old(all) - {task} && tasksAlive == old(tasksAlive) - 1 && State() == old(State())
    {
      hide ChainOk, LineOk, PlacesOk, Items;
      WithoutTask(task);
      all := all - {task};
      tasksAlive := tasksAlive - 1;
      Forgotten(task);
    }

    /** A task in hand is on no chain. */
    lemma WithoutTask(task: Task)
      requires Valid() && task in all && task.place == InHand
      ensures task !in chain && task !in batch && task !in spare
    {
      ChainPlace();
      LinePlace(batchHead, batch, Due);
      LinePlace(pool, spare, Pooled);
    }

    twostate lemma Forgotten(task: Task)
      requires old(PlacesOk()) && all == old(all) - {task} && unchanged(this`chain, this`batch, this`spare)
      requires task !in chain && task !in batch && task !in spare
      requires forall t :: t in all ==> unchanged(t)
      ensures PlacesOk()
    {
      forall t | t in all ensures Home(t) { assert old(Home(t)); }
    }

    /** Tear the list down: every pending task is deleted, then the pool is
        freed. Only tasks some object still holds are left. */
    method DeleteList()
      requires Valid() && State().batch == []
      modifies this, all
      ensures Valid() && State() == TearDown(old(State()))
      ensures spare == [] && (forall t :: t in all ==> t.place == InHand) && all <= old(all)
    {
      HeadItem();
      HeadIsPending();
      hide Valid, ChainOk, LineOk, PlacesOk, Items, State;
      while head != null
        invariant Valid() && TearDown(State()) == TearDown(old(State())) && State().batch == [] && all <= old(all)
        invariant head == null <==> State().pending == []
        invariant head != null ==> head in all && chain != [] && head == chain[0] && head.place == Pending && head.linked
        decreases |State().pending|
      {
        Peel(State());
        DeleteTask(head, 0);
        HeadItem();
        HeadIsPending();
      }
      FreePool();
    }

    /** Tearing down the first entry and then the rest is tearing down the list. */
    static lemma Peel(e: Engine)
      requires e.pending != []
      ensures TearDown(Torn(e, Pending, 0)) == TearDown(e) && |Torn(e, Pending, 0).pending| < |e.pending|
    {
      assert e.pending[..0] + e.pending[1..] == e.pending[1..];
      assert e.freed + Serial(e.pending[0].job) + Queued(e.pending[1..]) == e.freed + Queued(e.pending);
    }

    lemma HeadIsPending()
      requires Valid()
      ensures head != null ==> chain != [] && head.place == Pending
    {
      ChainPlace();
    }

    method FreePool()
      requires Valid() && State().pending == [] && State().batch == []
      modifies this, all
      ensures Valid() && State() == old(State())
      ensures spare == [] && (forall t :: t in all ==> t.place == InHand) && all <= old(all)
    {
      while pool != null
        invariant Valid() && State() == old(State()) && all <= old(all)
        decreases |spare|
      {
        var task := Pop();
        Forget(task);
      }
      forall t | t in all ensures t.place == InHand { assert Home(t); }
    }

    // ---- the clock ----------------------------------------------------------

    /** Move every pending due time by whole seconds, in unsigned arithmetic. */
    method AdjustDelayedTasks(offset: int)
      requires Valid() && NoWrap(State().pending, offset)
      modifies all`due
      ensures Valid() && State() == old(State()).(pending := Shift(old(State()).pending, offset))
    {
      hide Valid, PlacesOk, LineOk, ChainOk, Sorted, Node, Items, Moved, Shift, NoWrap;
      ghost var was := Items(chain);
      ChainInAll();
      ChainLinks();
      var current, i := head, 0;
      while current != null
        invariant 0 <= i <= |chain| && current == At(chain, i)
        invariant forall j :: 0 <= j < i ==> chain[j].due == Moved(was[j].due, offset)
        invariant forall j :: i <= j < |chain| ==> chain[j].due == was[j].due
        invariant forall t :: t in all && t.place != Pending ==> t.due == old(t.due)
        decreases |chain| - i
      {
        current.due := Moved(current.due, offset);
        current, i := current.next, i + 1;
      }
      Shifted(offset);
    }

    lemma ChainLinks()
      requires Valid()
      ensures Distinct(chain) && forall j :: 0 <= j < |chain| ==> chain[j].next == At(chain, j + 1)
    {
      forall j | 0 <= j < |chain| ensures chain[j].next == At(chain, j + 1) { assert Node(chain, j); }
    }

    lemma ChainInAll()
      requires Valid()
      ensures forall i :: 0 <= i < |chain| ==> chain[i] in all && chain[i].place == Pending
      ensures head == At(chain, 0)
    {
      ChainPlace();
      forall i | 0 <= i < |chain| ensures chain[i] in all { assert chain[i] in chain; }
    }

    twostate lemma Shifted(offset: int)
      requires old(Valid()) && NoWrap(old(Items(chain)), offset)
      requires unchanged(this) && forall t :: t in old(all) ==>
                 && t.next == old(t.next) && t.prev == old(t.prev) && t.linked == old(t.linked)
                 && t.place == old(t.place) && t.job == old(t.job)
      requires forall j :: 0 <= j < |chain| ==>
                 chain[j].due == Moved(old(chain[j].due), offset)
      requires forall t :: t in old(all) && t.place != Pending ==> t.due == old(t.due)
      ensures Valid() && Items(chain) == Shift(old(Items(chain)), offset) && Items(batch) == old(Items(batch))
    {
      OldChainPlace();
      OldLinePlace((batchHead, batch), Due);
      OldLinePlace((pool, spare), Pooled);
      LineSame((batchHead, batch), Due);
      LineSame((pool, spare), Pooled);
      forall i | 0 <= i < |chain| ensures Node(chain, i) {
        assert old(Node(chain, i)) && chain[i] in chain;
      }
      assert Items(chain) == Shift(old(Items(chain)), offset);
      ShiftKeepsSorted(old(Items(chain)), offset);
      forall t | t in all ensures Home(t) { assert old(Home(t)); }
    }

    static lemma ShiftKeepsSorted(items: seq<Item>, offset: int)
      requires NoWrap(items, offset) && Sorted(items)
      ensures Sorted(Shift(items, offset))
    {
      forall i | 0 <= i < |items|
        ensures Shift(items, offset)[i].due == Time(items[i].due.seconds + offset, items[i].due.micros)
      {
        SmallMod(items[i].due.seconds + offset);
      }
    }

    /** One reading of the clock: the jump it reports, if any. */
    method TimeUpdate(t: Time) returns (offset: int)
      requires Valid()
      modifies this`now
      ensures Valid() && offset == Jump(old(now), t) && State() == old(State()).(now := t)
    {
      var previous := if now.seconds == 0 then t.seconds else now.seconds;
      now := t;
      offset := now.seconds - previous;
      if !(offset < 0 || offset > 1) { offset := 0; }
    }

    /** One turn of the main loop: read the clock, follow a jump, run what is due. */
    method MainLoop(t: Time, react: Handler) returns (busy: bool)
      requires Valid() && State().batch == [] && NoWrap(State().pending, Jump(now, t))
      modifies this, all
      ensures Valid() && State() == SchedModel.ExecTasks(Tick(old(State()), t), react)
    {
      hide Valid;
      var offset := TimeUpdate(t);
      if offset != 0 { AdjustDelayedTasks(offset); }
      busy := ExecTasks(react);
    }

    /** Microseconds until the head of the list is due. */
    method SchedNextWakeMicros() returns (wait: int)
      requires Valid()
      ensures wait == NextWake(State())
    {
      if head == null { return 0; }
      HeadItem();
      var due := (head.due.seconds - now.seconds) * 1000000 + (head.due.micros - now.micros);
      wait := if due > 0 then due else 0;
    }
  }

  /** Three timers are due, the first one runs, and while it does the second is
      removed: the head of the batch is still the second, which leads nowhere, and the
      third, still waiting, is never reached. */
  method LostBatch() returns (list: TaskList, ghost lost: Task)
    ensures fresh(list) && list.batch == [lost] && lost.linked && lost.place == Due && lost.job == Timer(3)
    ensures list.batchHead != null && list.batchHead != lost && list.batchHead.next == null && !list.Right()
  {
    hide TaskList.Valid, TaskList.State, TaskList.Right;
    list := ThreeDueTasks();
    var running := list.TakeFirst();
    ThreeTasks(list);
    list.BatchInAll();
    lost := list.batch[1];
    assert list.batchHead.prev == running;
    list.UnspliceDueTask(list.batchHead, 0);
    assert list.batch == [lost];
  }

  method ThreeDueTasks() returns (list: TaskList)
    ensures fresh(list) && fresh(list.all) && list.Valid() && list.batchHead != null
    ensures |list.State().batch| == 3 && list.State().batch[2].job == Timer(3)
  {
    hide TaskList.Valid, TaskList.State;
    list := new TaskList();
    list.StartTask(0, 0, Timer(1));
    list.StartTask(0, 0, Timer(2));
    list.StartTask(0, 0, Timer(3));
    assert fresh(list.all);
    ThreeDue();
    list.ActivateTimedTasks();
    list.BatchItem();
  }

  lemma ThreeTasks(list: TaskList)
    requires list.Valid() && |list.State().batch| == 2 && list.State().batch[1].job == Timer(3)
    ensures |list.batch| == 2 && list.batch[1].job == Timer(3) && list.batchHead == list.batch[0] && list.batch[0] != list.batch[1]
  {}

  lemma ThreeDue()
    ensures var e := Add(Add(Add(START, 0, 0, Timer(1)), 0, 0, Timer(2)), 0, 0, Timer(3));
            e.batch == [] && |Activate(e).batch| == 3 && Activate(e).batch[2].job == Timer(3)
  {
    var now := Time(0, 0);
    var a, b, c := Item(now, Timer(1)), Item(now, Timer(2)), Item(now, Timer(3));
    InsertStableAt([], a, 0);
    InsertStableAt([a], b, 1);
    InsertStableAt([a, b], c, 2);
    assert [a] + [b] + [] == [a, b] && [a, b] + [c] + [] == [a, b, c];
    assert Add(START, 0, 0, Timer(1)).pending == [a];
    assert Add(Add(START, 0, 0, Timer(1)), 0, 0, Timer(2)).pending == [a, b];
    assert DueCount([c], now) == 1 && [b, c][1..] == [c] && DueCount([b, c], now) == 2 && [a, b, c][1..] == [b, c];
    assert DueCount([a, b, c], now) == 3;
  }
}
