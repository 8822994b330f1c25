/** What the scheduler of src/sched.c does to its lists, as values: a pending
    list sorted by due time, a batch of due work, and the messages that ride on
    it. The runs of the engine are sequences of the steps defined here. */
module SchedModel {

  /** A clock reading. The order is lexicographic, as the program compares it. */
  datatype Time = Time(seconds: int, micros: int) {
    predicate Before(t: Time) {
      seconds < t.seconds || (seconds == t.seconds && micros < t.micros)
    }
    predicate NotAfter(t: Time) {
      !t.Before(this)
    }
    /** Microseconds from this moment to a later one. */
    function Until(t: Time): int {
      (t.seconds - seconds) * 1000000 + (t.micros - micros)
    }
  }

  /** What a task calls back: nothing, the dispatch of the n-th message sent, or
      some object's own timer. */
  datatype Job = Idle | Message(serial: nat) | Timer(id: nat)

  datatype Item = Item(due: Time, job: Job)

  /** The moment a delay ends. Micros carry into seconds once, and only when
      they exceed a million. */
  function DueAt(now: Time, delaySeconds: nat, delayMicros: nat): Time {
    var s := now.seconds + delaySeconds;
    var us := now.micros + delayMicros;
    if us > 1000000 then Time(s + 1, us - 1000000) else Time(s, us)
  }

  ghost predicate Sorted(items: seq<Item>) {
    forall i, j :: 0 <= i < j < |items| ==> items[i].due.NotAfter(items[j].due)
  }

  /** Insertion from the head, behind every entry that is due no later. */
  function InsertStable(items: seq<Item>, x: Item): seq<Item> {
    if items == [] || x.due.Before(items[0].due) then [x] + items
    else [items[0]] + InsertStable(items[1..], x)
  }

  /** Any place behind entries due no later and in front of one due later is
      the place a stable insertion picks. */
  lemma {:induction false} InsertStableAt(items: seq<Item>, x: Item, q: nat)
    requires q <= |items|
    requires forall i :: 0 <= i < q ==> items[i].due.NotAfter(x.due)
    requires q < |items| ==> x.due.Before(items[q].due)
    ensures InsertStable(items, x) == items[..q] + [x] + items[q..]
  {
    if q > 0 {
      InsertStableAt(items[1..], x, q - 1);
      assert items[..q] == [items[0]] + items[1..][..q - 1];
      assert items[q..] == items[1..][q - 1..];
    }
  }

  /** Where a stable insertion puts the new entry. */
  function Slot(items: seq<Item>, x: Item): (q: nat)
    ensures q <= |items|
    ensures forall i :: 0 <= i < q ==> items[i].due.NotAfter(x.due)
    ensures q < |items| ==> x.due.Before(items[q].due)
  {
    if items == [] || x.due.Before(items[0].due) then 0 else 1 + Slot(items[1..], x)
  }

  lemma InsertKeepsSorted(items: seq<Item>, x: Item)
    requires Sorted(items)
    ensures Sorted(InsertStable(items, x))
  {
    InsertStableAt(items, x, Slot(items, x));
  }

  /** The entries that are due: the longest prefix not due later than now. */
  function DueCount(items: seq<Item>, now: Time): (k: nat)
    ensures k <= |items|
    ensures forall i :: 0 <= i < k ==> items[i].due.NotAfter(now)
    ensures k < |items| ==> now.Before(items[k].due)
  {
    if items == [] || now.Before(items[0].due) then 0 else 1 + DueCount(items[1..], now)
  }

  /** In a sorted list that prefix holds every due entry. */
  lemma NothingDueIsLeft(items: seq<Item>, now: Time, i: nat)
    requires Sorted(items) && DueCount(items, now) <= i < |items|
    ensures now.Before(items[i].due)
  {
    var k := DueCount(items, now);
    assert items[k].due.NotAfter(items[i].due) || i == k;
  }

  // ---- callbacks ----------------------------------------------------------

  /** What a callback asks the scheduler for while it runs. */
  datatype Act = Send | Start(id: nat, delaySeconds: nat, delayMicros: nat) | Stop(id: nat)

  /** What becomes of the callback's own task when it returns. */
  datatype Fate = Keep | Retire | Rearm(delaySeconds: nat, delayMicros: nat)

  datatype Reaction = Reaction(acts: seq<Act>, fate: Fate)

  /** Callbacks are arbitrary: what they do may depend on the job, the clock, how
      many messages were sent and how many callbacks ran so far. A dispatched message
      always hands its own task back to the pool. */
  type Handler = (Job, Time, nat, nat) -> Reaction

  function FateOf(react: Handler, job: Job, now: Time, sent: nat, turn: nat): Fate {
    if job.Message? then Retire else if job.Idle? then Keep else react(job, now, sent, turn).fate
  }

  function ActsOf(react: Handler, job: Job, now: Time, sent: nat, turn: nat): seq<Act> {
    if job.Idle? then [] else react(job, now, sent, turn).acts
  }

  // ---- the engine's state -------------------------------------------------

  datatype Engine = Engine(
    now: Time,
    pending: seq<Item>,      // the sorted list
    batch: seq<Item>,        // due, not yet run
    sent: nat,               // messages sent so far; the n-th carries serial n
    ran: seq<Job>,           // the callbacks run so far
    freed: seq<nat>)         // the messages whose payload was freed, in order

  function Add(e: Engine, delaySeconds: nat, delayMicros: nat, job: Job): Engine {
    e.(pending := InsertStable(e.pending, Item(DueAt(e.now, delaySeconds, delayMicros), job)))
  }

  /** Every message is a task due at once. */
  function SendMessage(e: Engine): Engine {
    Add(e, 0, 0, Message(e.sent)).(sent := e.sent + 1)
  }

  function Perform(e: Engine, act: Act): Engine {
    match act
    case Send => SendMessage(e)
    case Start(id, s, us) => Add(e, s, us, Timer(id))
    case Stop(id) => StopPending(e, id)
  }

  /** Retire another task: the first pending timer of that name, if there is one. */
  function StopPending(e: Engine, id: nat): Engine {
    e.(pending := WithoutTimer(e.pending, id))
  }

  function WithoutTimer(items: seq<Item>, id: nat): seq<Item> {
    if items == [] then []
    else if items[0].job == Timer(id) then items[1..]
    else [items[0]] + WithoutTimer(items[1..], id)
  }

  lemma {:induction false} WithoutTimerAt(items: seq<Item>, id: nat, i: nat)
    requires i <= |items| && (i < |items| ==> items[i].job == Timer(id))
    requires forall j :: 0 <= j < i ==> items[j].job != Timer(id)
    ensures WithoutTimer(items, id) == if i < |items| then items[..i] + items[i + 1..] else items
  {
    if items == [] {
    } else if i == 0 {
      assert items[..0] + items[1..] == items[1..];
    } else {
      WithoutTimerAt(items[1..], id, i - 1);
      assert items == [items[0]] + items[1..];
      if i < |items| { assert items[..i] + items[i + 1..] == [items[0]] + (items[1..][..i - 1] + items[1..][i..]); }
    }
  }

  lemma StopIs(e: Engine, id: nat, i: nat)
    requires i <= |e.pending| && (i < |e.pending| ==> e.pending[i].job == Timer(id))
    requires forall j :: 0 <= j < i ==> e.pending[j].job != Timer(id)
    ensures i < |e.pending| ==> StopPending(e, id) == e.(pending := e.pending[..i] + e.pending[i + 1..])
    ensures i == |e.pending| ==> StopPending(e, id) == e
  {
    WithoutTimerAt(e.pending, id, i);
  }

  /** Stopping a timer takes one entry out of the list, no message among them. */
  lemma {:induction false} StopKeeps(items: seq<Item>, id: nat)
    ensures Queued(WithoutTimer(items, id)) == Queued(items)
    ensures Sorted(items) ==> Sorted(WithoutTimer(items, id))
    ensures forall x :: x in WithoutTimer(items, id) ==> x in items
  {
    hide Sorted;
    if items != [] && items[0].job != Timer(id) {
      StopKeeps(items[1..], id);
      var rest := WithoutTimer(items[1..], id);
      assert ([items[0]] + rest)[1..] == rest;
      if Sorted(items) {
        SortedTail(items);
        StillSorted(items, rest);
      }
    } else if items != [] && Sorted(items) {
      SortedTail(items);
    }
  }

  lemma StillSorted(items: seq<Item>, rest: seq<Item>)
    requires items != [] && Sorted(items) && Sorted(rest) && forall x :: x in rest ==> x in items[1..]
    ensures Sorted([items[0]] + rest)
  {
    forall j | 0 <= j < |rest| ensures items[0].due.NotAfter(rest[j].due) {
      assert rest[j] in items[1..];
      var k :| 0 <= k < |items[1..]| && items[1..][k] == rest[j];
      assert items[k + 1] == rest[j];
    }
  }

  function PerformAll(e: Engine, acts: seq<Act>): Engine
    decreases |acts|
  {
    if acts == [] then e else PerformAll(Perform(e, acts[0]), acts[1..])
  }

  function Settle(e: Engine, job: Job, fate: Fate): Engine {
    match fate
    case Rearm(s, us) => Add(e, s, us, job)
    case _ => e
  }

  /** One turn of the loop of ExecTasks: the first of the batch runs. */
  function RunFirst(e: Engine, react: Handler): Engine
    requires e.batch != []
  {
    var job := e.batch[0].job;
    var fate := FateOf(react, job, e.now, e.sent, |e.ran|);
    var e1 := PerformAll(e.(batch := e.batch[1..]), ActsOf(react, job, e.now, e.sent, |e.ran|));
    var e2 := Settle(e1, job, fate);
    e2.(ran := e2.ran + (if job.Idle? then [] else [job]),
        freed := e2.freed + (if job.Message? then [job.serial] else []))
  }

  /** Callbacks work on the pending list only. */
  lemma {:induction false} PerformAllFrame(e: Engine, acts: seq<Act>)
    ensures var r := PerformAll(e, acts);
            r.now == e.now && r.batch == e.batch && r.ran == e.ran && r.freed == e.freed && r.sent >= e.sent
    decreases |acts|
  {
    if acts != [] { PerformAllFrame(Perform(e, acts[0]), acts[1..]); }
  }

  lemma RunFirstFrame(e: Engine, react: Handler)
    requires e.batch != []
    ensures var r := RunFirst(e, react); r.now == e.now && r.batch == e.batch[1..]
  {
    PerformAllFrame(e.(batch := e.batch[1..]), ActsOf(react, e.batch[0].job, e.now, e.sent, |e.ran|));
  }

  function RunBatch(e: Engine, react: Handler): Engine
    decreases |e.batch|
  {
    if e.batch == [] then e
    else
      RunFirstFrame(e, react);
      RunBatch(RunFirst(e, react), react)
  }

  /** Move everything that is due into the batch. */
  function Activate(e: Engine): Engine {
    var k := DueCount(e.pending, e.now);
    e.(pending := e.pending[k..], batch := e.batch + e.pending[..k])
  }

  /** The same one entry at a time, as the loop does it. */
  function MoveDue(e: Engine): Engine
    decreases |e.pending|
  {
    if e.pending == [] || e.now.Before(e.pending[0].due) then e
    else MoveDue(e.(pending := e.pending[1..], batch := e.batch + [e.pending[0]]))
  }

  lemma {:induction false} MoveDueIsActivate(e: Engine)
    ensures MoveDue(e) == Activate(e)
    decreases |e.pending|
  {
    var k := DueCount(e.pending, e.now);
    if e.pending == [] || e.now.Before(e.pending[0].due) {
      assert e.batch + e.pending[..0] == e.batch;
    } else {
      var e1 := e.(pending := e.pending[1..], batch := e.batch + [e.pending[0]]);
      MoveDueIsActivate(e1);
      assert e.pending[..k] == [e.pending[0]] + e1.pending[..k - 1];
      assert e1.batch + e1.pending[..k - 1] == e.batch + e.pending[..k];
    }
  }

  function ExecTasks(e: Engine, react: Handler): Engine {
    RunBatch(Activate(e), react)
  }

  function JobsOf(items: seq<Item>): seq<Job> {
    if items == [] then []
    else (if items[0].job.Idle? then [] else [items[0].job]) + JobsOf(items[1..])
  }

  /** Running a batch runs each of its jobs once, in order, and nothing else,
      whatever the callbacks do; the list they add to stays sorted. */
  lemma {:induction false} RunBatchRunsTheBatch(e: Engine, react: Handler)
    requires Sorted(e.pending)
    ensures var r := RunBatch(e, react);
            r.batch == [] && r.ran == e.ran + JobsOf(e.batch) && r.now == e.now && Sorted(r.pending)
    decreases |e.batch|
  {
    if e.batch != [] {
      RunFirstFrame(e, react);
      RunFirstSorted(e, react);
      RunBatchRunsTheBatch(RunFirst(e, react), react);
      PerformAllFrame(e.(batch := e.batch[1..]), ActsOf(react, e.batch[0].job, e.now, e.sent, |e.ran|));
      var first := if e.batch[0].job.Idle? then [] else [e.batch[0].job];
      assert RunFirst(e, react).ran == e.ran + first;
      assert (e.ran + first) + JobsOf(e.batch[1..]) == e.ran + JobsOf(e.batch);
    }
  }

  lemma {:induction false} PerformAllSorted(e: Engine, acts: seq<Act>)
    requires Sorted(e.pending)
    ensures Sorted(PerformAll(e, acts).pending)
    decreases |acts|
  {
    if acts != [] {
      PerformKeepsSorted(e, acts[0]);
      PerformAllSorted(Perform(e, acts[0]), acts[1..]);
    }
  }

  lemma PerformKeepsSorted(e: Engine, act: Act)
    requires Sorted(e.pending)
    ensures Sorted(Perform(e, act).pending)
  {
    match act
    case Send => InsertKeepsSorted(e.pending, Item(DueAt(e.now, 0, 0), Message(e.sent)));
    case Start(id, s, us) => InsertKeepsSorted(e.pending, Item(DueAt(e.now, s, us), Timer(id)));
    case Stop(id) => StopKeeps(e.pending, id);
  }

  lemma RunFirstSorted(e: Engine, react: Handler)
    requires e.batch != [] && Sorted(e.pending)
    ensures Sorted(RunFirst(e, react).pending)
  {
    var job := e.batch[0].job;
    var e0 := e.(batch := e.batch[1..]);
    PerformAllSorted(e0, ActsOf(react, job, e.now, e.sent, |e.ran|));
    PerformAllFrame(e0, ActsOf(react, job, e.now, e.sent, |e.ran|));
    var e1 := PerformAll(e0, ActsOf(react, job, e.now, e.sent, |e.ran|));
    match FateOf(react, job, e.now, e.sent, |e.ran|)
    case Rearm(s, us) => InsertKeepsSorted(e1.pending, Item(DueAt(e1.now, s, us), job));
    case _ =>
  }

  /** One call of ExecTasks runs exactly the work due when it starts: work that
      callbacks add, even with no delay, waits for the next call. */
  lemma ExecTasksRunsWhatIsDue(e: Engine, react: Handler)
    requires Sorted(e.pending) && e.batch == []
    ensures var k := DueCount(e.pending, e.now);
            var r := ExecTasks(e, react);
            && r.ran == e.ran + JobsOf(e.pending[..k])
            && (forall i :: 0 <= i < |e.pending| ==> (i < k <==> e.pending[i].due.NotAfter(e.now)))
            && r.batch == [] && Sorted(r.pending)
  {
    var k := DueCount(e.pending, e.now);
    forall i | k <= i < |e.pending| ensures e.now.Before(e.pending[i].due) {
      NothingDueIsLeft(e.pending, e.now, i);
    }
    RunBatchRunsTheBatch(Activate(e), react);
    assert [] + e.pending[..k] == e.pending[..k];
  }

  // ---- the clock ----------------------------------------------------------

  /** unsigned long: what the clock and the due times are counted in. */
  const WORD: int := 0x1_0000_0000_0000_0000

  /** The change of the cached clock that TimeUpdate reports: 0 unless the
      seconds went back or moved by more than one. The first reading ever is
      taken as it is. */
  function Jump(was: Time, t: Time): int {
    var offset := if was.seconds == 0 then 0 else t.seconds - was.seconds;
    if offset < 0 || offset > 1 then offset else 0
  }

  function Moved(t: Time, offset: int): Time {
    Time((t.seconds + offset) % WORD, t.micros)
  }

  function Shift(items: seq<Item>, offset: int): (r: seq<Item>)
    ensures |r| == |items|
    ensures forall i :: 0 <= i < |r| ==> r[i] == items[i].(due := Moved(items[i].due, offset))
  {
    seq(|items|, i requires 0 <= i < |items| => items[i].(due := Moved(items[i].due, offset)))
  }

  /** One clock reading of the main loop: a reported jump moves every pending
      task by the same whole seconds. */
  function Tick(e: Engine, t: Time): Engine {
    var offset := Jump(e.now, t);
    e.(now := t, pending := if offset != 0 then Shift(e.pending, offset) else e.pending)
  }

  predicate NoWrap(items: seq<Item>, offset: int) {
    forall i :: 0 <= i < |items| ==> 0 <= items[i].due.seconds + offset < WORD
  }

  /** A jump changes the remaining delay of every task by the same fraction of
      a second, the old micros minus the new ones, and keeps order and spacing. */
  lemma JumpKeepsDelays(e: Engine, t: Time)
    requires Jump(e.now, t) != 0 && NoWrap(e.pending, Jump(e.now, t))
    ensures var r := Tick(e, t);
            && |r.pending| == |e.pending|
            && (forall i :: 0 <= i < |e.pending| ==>
                  && r.pending[i].job == e.pending[i].job
                  && t.Until(r.pending[i].due) == e.now.Until(e.pending[i].due) + e.now.micros - t.micros)
            && (forall i, j :: 0 <= i < |e.pending| && 0 <= j < |e.pending| ==>
                  r.pending[i].due.Until(r.pending[j].due) == e.pending[i].due.Until(e.pending[j].due))
            && (Sorted(e.pending) ==> Sorted(r.pending))
  {
    var offset := Jump(e.now, t);
    forall i | 0 <= i < |e.pending|
      ensures Shift(e.pending, offset)[i].due == Time(e.pending[i].due.seconds + offset, e.pending[i].due.micros)
    {
      SmallMod(e.pending[i].due.seconds + offset);
    }
  }

  lemma SmallMod(x: int)
    requires 0 <= x < WORD
    ensures x % WORD == x
  {}

  /** The sleep the main loop takes: the wait for the head of the list. */
  function NextWake(e: Engine): int {
    if e.pending == [] then 0
    else var d := e.now.Until(e.pending[0].due); if d > 0 then d else 0
  }

  predicate Normal(items: seq<Item>) {
    forall i :: 0 <= i < |items| ==> 0 <= items[i].due.micros <= 1000000
  }

  /** The head is a task that is due soonest: nothing on the list is due within
      the sleep, and something is due at its end. */
  lemma NextWakeIsSoonest(e: Engine)
    requires Sorted(e.pending) && Normal(e.pending)
    ensures e.pending == [] ==> NextWake(e) == 0
    ensures forall i :: 0 <= i < |e.pending| ==>
              NextWake(e) <= (var d := e.now.Until(e.pending[i].due); if d > 0 then d else 0)
    ensures e.pending != [] ==>
              exists i :: 0 <= i < |e.pending| &&
                NextWake(e) == (var d := e.now.Until(e.pending[i].due); if d > 0 then d else 0)
  {
    if e.pending != [] {
      assert forall i :: 0 < i < |e.pending| ==> e.pending[0].due.NotAfter(e.pending[i].due);
      assert 0 <= 0 < |e.pending| && NextWake(e) == (var d := e.now.Until(e.pending[0].due); if d > 0 then d else 0);
    }
  }

  /** Sums of a clock reading and a delay under a million micros stay normal. */
  lemma DueAtNormal(now: Time, s: nat, us: nat)
    requires 0 <= now.micros < 1000000 && us <= 1000000
    ensures 0 <= DueAt(now, s, us).micros <= 1000000
    ensures now.Until(DueAt(now, s, us)) == s * 1000000 + us
  {}

  // ---- runs ---------------------------------------------------------------

  /** What can happen between two calls of the engine. */
  datatype Event =
    | Clock(t: Time)
    | Post                                                // SndMsg from outside a callback
    | Arm(id: nat, delaySeconds: nat, delayMicros: nat)
    | Cancel(i: nat)                                      // RemoveTask or DeleteTask of a pending timer
    | Exec(react: Handler)

  predicate Possible(e: Engine, ev: Event) {
    match ev
    case Clock(t) => 0 <= t.micros < 1000000
    case Cancel(i) => i < |e.pending| && !e.pending[i].job.Message?
    case _ => true
  }

  function Next(e: Engine, ev: Event): Engine
    requires Possible(e, ev)
  {
    match ev
    case Clock(t) => Tick(e, t)
    case Post => SendMessage(e)
    case Arm(id, s, us) => Add(e, s, us, Timer(id))
    case Cancel(i) => e.(pending := e.pending[..i] + e.pending[i + 1..])
    case Exec(react) => ExecTasks(e, react)
  }

  const START: Engine := Engine(Time(0, 0), [], [], 0, [], [])

  /** trace[i] is the state before the i-th event, trace[|evs|] the last one. */
  ghost predicate IsRun(evs: seq<Event>, trace: seq<Engine>) {
    && |trace| == |evs| + 1 && trace[0] == START
    && forall i :: 0 <= i < |evs| ==> Possible(trace[i], evs[i]) && trace[i + 1] == Next(trace[i], evs[i])
  }

  /** No pending message is due later than the clock reads. */
  predicate Prompt(e: Engine) {
    forall x :: x in e.pending && x.job.Message? ==> x.due.NotAfter(e.now)
  }

  /** A jump of the clock takes no due time around the end of its range. */
  predicate Ranged(e: Engine, ev: Event) {
    ev.Clock? && Jump(e.now, ev.t) != 0 ==> NoWrap(e.pending, Jump(e.now, ev.t))
  }

  /** If anything is sent while this event is handled, no message waits then that is
      due later than the clock reads. */
  predicate Timely(e: Engine, ev: Event)
    requires Possible(e, ev)
  {
    Next(e, ev).sent > e.sent ==> Prompt(e)
  }

  /** No event reads a clock that went back or jumped. */
  predicate Smooth(e: Engine, ev: Event) {
    ev.Clock? ==> e.now.NotAfter(ev.t) && Jump(e.now, ev.t) == 0
  }

  // ---- messages: conservation and order -----------------------------------

  function Serials(jobs: seq<Job>): seq<nat> {
    if jobs == [] then []
    else (if jobs[0].Message? then [jobs[0].serial] else []) + Serials(jobs[1..])
  }

  function Queued(items: seq<Item>): seq<nat> {
    if items == [] then []
    else (if items[0].job.Message? then [items[0].job.serial] else []) + Queued(items[1..])
  }

  function UpTo(n: nat): seq<nat> {
    seq(n, i => i)
  }

  lemma {:induction false} QueuedConcat(a: seq<Item>, b: seq<Item>)
    ensures Queued(a + b) == Queued(a) + Queued(b)
  {
    if a == [] {
      assert a + b == b;
    } else {
      assert (a + b)[0] == a[0] && (a + b)[1..] == a[1..] + b;
      QueuedConcat(a[1..], b);
      var first := if a[0].job.Message? then [a[0].job.serial] else [];
      assert first + (Queued(a[1..]) + Queued(b)) == (first + Queued(a[1..])) + Queued(b);
    }
  }

  lemma {:induction false} SerialsConcat(a: seq<Job>, b: seq<Job>)
    ensures Serials(a + b) == Serials(a) + Serials(b)
  {
    if a == [] {
      assert a + b == b;
    } else {
      assert (a + b)[0] == a[0] && (a + b)[1..] == a[1..] + b;
      SerialsConcat(a[1..], b);
      var first := if a[0].Message? then [a[0].serial] else [];
      assert first + (Serials(a[1..]) + Serials(b)) == (first + Serials(a[1..])) + Serials(b);
    }
  }

  lemma {:induction false} QueuedShift(items: seq<Item>, offset: int)
    ensures Queued(Shift(items, offset)) == Queued(items)
  {
    if items != [] {
      assert Shift(items, offset)[1..] == Shift(items[1..], offset);
      QueuedShift(items[1..], offset);
    }
  }

  function Serial(job: Job): seq<nat> {
    if job.Message? then [job.serial] else []
  }

  function Count(s: seq<nat>, n: nat): nat {
    if s == [] then 0 else (if s[0] == n then 1 else 0) + Count(s[1..], n)
  }

  lemma {:induction false} CountConcat(a: seq<nat>, b: seq<nat>, n: nat)
    ensures Count(a + b, n) == Count(a, n) + Count(b, n)
  {
    if a == [] {
      assert a + b == b;
    } else {
      assert (a + b)[1..] == a[1..] + b;
      CountConcat(a[1..], b, n);
    }
  }

  /** Insertion adds the one message, if the job is one, somewhere. */
  lemma {:induction false} QueuedInsertCount(items: seq<Item>, x: Item, n: nat)
    ensures Count(Queued(InsertStable(items, x)), n) == Count(Queued(items), n) + Count(Serial(x.job), n)
    ensures |Queued(InsertStable(items, x))| == |Queued(items)| + |Serial(x.job)|
  {
    if items == [] || x.due.Before(items[0].due) {
      QueuedConcat([x], items);
      CountConcat(Serial(x.job), Queued(items), n);
    } else {
      var first, rest := Serial(items[0].job), items[1..];
      QueuedInsertCount(rest, x, n);
      CountConcat(first, Queued(rest), n);
      CountConcat(first, Queued(InsertStable(rest, x)), n);
    }
  }

  /** A message that is due no earlier than every message on the list goes
      behind all of them; anything else leaves the messages as they are. */
  lemma {:induction false} QueuedInsert(items: seq<Item>, x: Item)
    requires x.job.Message? ==> forall i :: 0 <= i < |items| && items[i].job.Message? ==> items[i].due.NotAfter(x.due)
    requires Sorted(items)
    ensures Queued(InsertStable(items, x)) == Queued(items) + Serial(x.job)
  {
    hide Sorted;
    if items == [] {
    } else if x.due.Before(items[0].due) {
      QueuedConcat([x], items);
      if x.job.Message? { NoMessages(items, x.due); }
    } else {
      var first, rest := Serial(items[0].job), items[1..];
      SortedTail(items);
      QueuedInsert(rest, x);
      QueuedFirst(items[0], rest);
      QueuedFirst(items[0], InsertStable(rest, x));
      assert [items[0]] + rest == items;
      assert first + (Queued(rest) + Serial(x.job)) == (first + Queued(rest)) + Serial(x.job);
    }
  }

  lemma QueuedFirst(x: Item, rest: seq<Item>)
    ensures Queued([x] + rest) == Serial(x.job) + Queued(rest)
  {
    assert ([x] + rest)[1..] == rest;
  }

  lemma SortedTail(items: seq<Item>)
    requires items != [] && Sorted(items)
    ensures Sorted(items[1..])
  {}

  lemma {:induction false} NoMessages(items: seq<Item>, d: Time)
    requires items != [] && d.Before(items[0].due) && Sorted(items)
    requires forall i :: 0 <= i < |items| && items[i].job.Message? ==> items[i].due.NotAfter(d)
    ensures Queued(items) == []
  {
    if |items| > 1 {
      assert items[0].due.NotAfter(items[1].due);
      NoMessages(items[1..], d);
    }
  }

  /** Where the messages are: freed, in delivery, in the batch, on the list. */
  function Track(e: Engine, hand: seq<nat>): seq<nat> {
    e.freed + hand + Queued(e.batch) + Queued(e.pending)
  }

  /** Every message sent is in exactly one of these places, once. */
  ghost predicate Conserved(e: Engine, hand: seq<nat>) {
    && |Track(e, hand)| == e.sent
    && forall n: nat :: Count(Track(e, hand), n) == if n < e.sent then 1 else 0
  }

  /** The same with the order kept. */
  ghost predicate InOrder(e: Engine, hand: seq<nat>) {
    && Track(e, hand) == UpTo(e.sent)
    && Sorted(e.pending) && e.now.micros <= 1000000
  }

  /** Adding work, for a message the one sent next. */
  lemma AddConserves(e: Engine, hand: seq<nat>, s: nat, us: nat, job: Job)
    requires Conserved(e, hand) && (job.Message? ==> job.serial == e.sent)
    ensures Conserved(Add(e, s, us, job).(sent := e.sent + |Serial(job)|), hand)
  {
    var x := Item(DueAt(e.now, s, us), job);
    var before, after := e.freed + hand + Queued(e.batch), Add(e, s, us, job).(sent := e.sent + |Serial(job)|);
    QueuedInsertCount(e.pending, x, 0);
    forall n: nat ensures Count(Track(after, hand), n) == if n < after.sent then 1 else 0 {
      QueuedInsertCount(e.pending, x, n);
      CountConcat(before, Queued(e.pending), n);
      CountConcat(before, Queued(after.pending), n);
      assert Count(Track(e, hand), n) == if n < e.sent then 1 else 0;
    }
  }

  lemma AddInOrder(e: Engine, hand: seq<nat>, s: nat, us: nat, job: Job)
    requires InOrder(e, hand) && (job.Message? ==> Prompt(e) && job.serial == e.sent && s == us == 0)
    ensures InOrder(Add(e, s, us, job).(sent := e.sent + |Serial(job)|), hand)
  {
    var x := Item(DueAt(e.now, s, us), job);
    QueuedInsert(e.pending, x);
    InsertStableAt(e.pending, x, Slot(e.pending, x));
    InsertKeepsSorted(e.pending, x);
    var before := e.freed + hand + Queued(e.batch);
    assert before + (Queued(e.pending) + Serial(job)) == (before + Queued(e.pending)) + Serial(job);
    assert UpTo(e.sent) + Serial(job) == UpTo(e.sent + |Serial(job)|);
  }

  lemma StopKeepsMessages(e: Engine, hand: seq<nat>, id: nat)
    ensures Conserved(e, hand) ==> Conserved(StopPending(e, id), hand)
    ensures InOrder(e, hand) ==> InOrder(StopPending(e, id), hand)
  {
    StopKeeps(e.pending, id);
    assert Track(StopPending(e, id), hand) == Track(e, hand);
  }

  lemma {:induction false} PerformAllConserves(e: Engine, hand: seq<nat>, acts: seq<Act>)
    requires Conserved(e, hand)
    ensures Conserved(PerformAll(e, acts), hand)
    decreases |acts|
  {
    if acts != [] {
      match acts[0] {
        case Send => AddConserves(e, hand, 0, 0, Message(e.sent));
        case Start(id, s, us) => AddConserves(e, hand, s, us, Timer(id));
        case Stop(id) => StopKeepsMessages(e, hand, id);
      }
      PerformAllConserves(Perform(e, acts[0]), hand, acts[1..]);
    }
  }

  /** What a callback asks for makes no message wait that is due later than now. */
  lemma PerformPrompt(e: Engine, act: Act)
    requires e.now.micros <= 1000000
    ensures Prompt(Perform(e, act)) <==> Prompt(e)
    ensures var r := Perform(e, act); r.now == e.now && e.sent <= r.sent && (act.Send? ==> r.sent > e.sent)
  {
    match act
    case Send => InsertPrompt(e, Item(DueAt(e.now, 0, 0), Message(e.sent)));
    case Start(id, s, us) => InsertPrompt(e, Item(DueAt(e.now, s, us), Timer(id)));
    case Stop(id) => StopPrompt(e, id);
  }

  lemma InsertPrompt(e: Engine, x: Item)
    requires x.job.Message? ==> x.due.NotAfter(e.now)
    ensures Prompt(e.(pending := InsertStable(e.pending, x))) <==> Prompt(e)
  {
    InsertHas(e.pending, x);
  }

  lemma {:induction false} InsertHas(items: seq<Item>, x: Item)
    ensures forall y :: y in InsertStable(items, x) <==> y == x || y in items
  {
    if items != [] && !x.due.Before(items[0].due) {
      InsertHas(items[1..], x);
      assert forall y :: y in items <==> y == items[0] || y in items[1..];
    }
  }

  lemma StopPrompt(e: Engine, id: nat)
    ensures Prompt(StopPending(e, id)) <==> Prompt(e)
  {
    StopLeaves(e.pending, id);
    StopKeeps(e.pending, id);
  }

  lemma {:induction false} StopLeaves(items: seq<Item>, id: nat)
    ensures forall x :: x in items && x.job.Message? ==> x in WithoutTimer(items, id)
  {
    if items != [] && items[0].job != Timer(id) { StopLeaves(items[1..], id); }
  }

  lemma {:induction false} PerformAllInOrder(e: Engine, hand: seq<nat>, acts: seq<Act>)
    requires InOrder(e, hand) && (PerformAll(e, acts).sent > e.sent ==> Prompt(e))
    ensures InOrder(PerformAll(e, acts), hand) && (Prompt(PerformAll(e, acts)) <==> Prompt(e))
    decreases |acts|
  {
    if acts != [] {
      var r := Perform(e, acts[0]);
      PerformAllFrame(r, acts[1..]);
      PerformPrompt(e, acts[0]);
      hide Prompt, InOrder;
      match acts[0] {
        case Send => AddInOrder(e, hand, 0, 0, Message(e.sent));
        case Start(id, s, us) => AddInOrder(e, hand, s, us, Timer(id));
        case Stop(id) => StopKeepsMessages(e, hand, id);
      }
      PerformAllInOrder(r, hand, acts[1..]);
    }
  }

  /** Taking the first of the batch in hand, and letting go of it when it has run. */
  lemma TakeInHand(e: Engine)
    requires e.batch != []
    ensures Conserved(e, []) ==> Conserved(e.(batch := e.batch[1..]), Serial(e.batch[0].job))
    ensures InOrder(e, []) ==> InOrder(e.(batch := e.batch[1..]), Serial(e.batch[0].job))
    ensures Prompt(e) == Prompt(e.(batch := e.batch[1..]))
  {
    assert Queued(e.batch) == Serial(e.batch[0].job) + Queued(e.batch[1..]);
    assert Track(e, []) == Track(e.(batch := e.batch[1..]), Serial(e.batch[0].job));
  }

  lemma LetGo(e: Engine, hand: seq<nat>)
    ensures Conserved(e, hand) ==> Conserved(e.(freed := e.freed + hand), [])
    ensures InOrder(e, hand) ==> InOrder(e.(freed := e.freed + hand), [])
    ensures Prompt(e) == Prompt(e.(freed := e.freed + hand))
  {
    assert Track(e, hand) == Track(e.(freed := e.freed + hand), []);
  }

  lemma SettleKeeps(e: Engine, hand: seq<nat>, job: Job, fate: Fate)
    requires job.Message? ==> fate.Retire?
    ensures Conserved(e, hand) ==> Conserved(Settle(e, job, fate), hand)
    ensures InOrder(e, hand) ==> InOrder(Settle(e, job, fate), hand)
    ensures Prompt(Settle(e, job, fate)) <==> Prompt(e)
  {
    match fate
    case Rearm(s, us) =>
      if Conserved(e, hand) { AddConserves(e, hand, s, us, job); }
      if InOrder(e, hand) { AddInOrder(e, hand, s, us, job); }
      InsertPrompt(e, Item(DueAt(e.now, s, us), job));
    case _ =>
  }

  lemma RunFirstConserves(e: Engine, react: Handler)
    requires e.batch != [] && Conserved(e, [])
    ensures Conserved(RunFirst(e, react), [])
  {
    hide Conserved, InOrder, Prompt;
    var job, e0 := e.batch[0].job, e.(batch := e.batch[1..]);
    var acts, fate := ActsOf(react, job, e.now, e.sent, |e.ran|), FateOf(react, job, e.now, e.sent, |e.ran|);
    TakeInHand(e);
    PerformAllConserves(e0, Serial(job), acts);
    SettleKeeps(PerformAll(e0, acts), Serial(job), job, fate);
    var e2 := Settle(PerformAll(e0, acts), job, fate);
    LetGo(e2, Serial(job));
    RanIsExtra(e2.(freed := e2.freed + Serial(job)), e2.ran + (if job.Idle? then [] else [job]));
  }

  /** The order is kept as long as what is sent is sent promptly. */
  lemma RunFirstInOrder(e: Engine, react: Handler)
    requires e.batch != [] && InOrder(e, []) && (RunFirst(e, react).sent > e.sent ==> Prompt(e))
    ensures InOrder(RunFirst(e, react), []) && (Prompt(RunFirst(e, react)) <==> Prompt(e))
  {
    hide Conserved, InOrder, Prompt;
    var job, e0 := e.batch[0].job, e.(batch := e.batch[1..]);
    var acts, fate := ActsOf(react, job, e.now, e.sent, |e.ran|), FateOf(react, job, e.now, e.sent, |e.ran|);
    TakeInHand(e);
    PerformAllInOrder(e0, Serial(job), acts);
    SettleKeeps(PerformAll(e0, acts), Serial(job), job, fate);
    var e2 := Settle(PerformAll(e0, acts), job, fate);
    LetGo(e2, Serial(job));
    RanIsExtra(e2.(freed := e2.freed + Serial(job)), e2.ran + (if job.Idle? then [] else [job]));
  }

  lemma RanIsExtra(e: Engine, ran: seq<Job>)
    ensures Conserved(e, []) == Conserved(e.(ran := ran), [])
    ensures InOrder(e, []) == InOrder(e.(ran := ran), [])
    ensures Prompt(e) == Prompt(e.(ran := ran))
  {}

  lemma {:induction false} RunBatchConserves(e: Engine, react: Handler)
    requires Conserved(e, [])
    ensures Conserved(RunBatch(e, react), [])
    decreases |e.batch|
  {
    if e.batch != [] {
      RunFirstFrame(e, react);
      RunFirstConserves(e, react);
      RunBatchConserves(RunFirst(e, react), react);
    }
  }

  lemma {:induction false} SentGrows(e: Engine, react: Handler)
    ensures e.sent <= RunBatch(e, react).sent
    decreases |e.batch|
  {
    if e.batch != [] {
      RunFirstFrame(e, react);
      PerformAllFrame(e.(batch := e.batch[1..]), ActsOf(react, e.batch[0].job, e.now, e.sent, |e.ran|));
      SentGrows(RunFirst(e, react), react);
    }
  }

  lemma {:induction false} RunBatchInOrder(e: Engine, react: Handler)
    requires InOrder(e, []) && (RunBatch(e, react).sent > e.sent ==> Prompt(e))
    ensures InOrder(RunBatch(e, react), []) && (Prompt(RunBatch(e, react)) <==> Prompt(e))
    decreases |e.batch|
  {
    hide InOrder, Prompt;
    if e.batch != [] {
      RunFirstFrame(e, react);
      SentGrows(RunFirst(e, react), react);
      PerformAllFrame(e.(batch := e.batch[1..]), ActsOf(react, e.batch[0].job, e.now, e.sent, |e.ran|));
      RunFirstInOrder(e, react);
      RunBatchInOrder(RunFirst(e, react), react);
    }
  }

  lemma ActivateKeeps(e: Engine)
    requires e.batch == []
    ensures Conserved(e, []) ==> Conserved(Activate(e), [])
    ensures InOrder(e, []) ==> InOrder(Activate(e), [])
    ensures Prompt(Activate(e)) <==> Prompt(e)
  {
    var k := DueCount(e.pending, e.now);
    var due, rest := e.pending[..k], e.pending[k..];
    QueuedConcat(due, rest);
    assert e.pending == due + rest && [] + due == due;
    assert Track(e, []) == Track(Activate(e), []);
    hide InOrder, Conserved;
    assert forall x :: x in e.pending <==> x in due || x in rest;
  }

  lemma CancelKeeps(e: Engine, i: nat)
    requires i < |e.pending| && !e.pending[i].job.Message?
    ensures Queued(e.pending[..i] + e.pending[i + 1..]) == Queued(e.pending)
  {
    QueuedConcat(e.pending[..i], e.pending[i + 1..]);
    QueuedConcat(e.pending[..i], e.pending[i..]);
    assert e.pending == e.pending[..i] + e.pending[i..];
    assert e.pending[i..][1..] == e.pending[i + 1..];
  }

  lemma NextConserves(e: Engine, ev: Event)
    requires Possible(e, ev) && e.batch == [] && Conserved(e, [])
    ensures Next(e, ev).batch == [] && Conserved(Next(e, ev), [])
  {
    match ev
    case Clock(t) => QueuedShift(e.pending, Jump(e.now, t));
    case Post => AddConserves(e, [], 0, 0, Message(e.sent));
    case Arm(id, s, us) => AddConserves(e, [], s, us, Timer(id));
    case Cancel(i) => CancelKeeps(e, i);
    case Exec(react) =>
      ActivateKeeps(e);
      RunBatchConserves(Activate(e), react);
      RunBatchEnds(Activate(e), react);
  }

  lemma {:induction false} RunBatchEnds(e: Engine, react: Handler)
    ensures RunBatch(e, react).batch == [] && RunBatch(e, react).now == e.now
    decreases |e.batch|
  {
    if e.batch != [] {
      RunFirstFrame(e, react);
      RunBatchEnds(RunFirst(e, react), react);
    }
  }

  lemma TickInOrder(e: Engine, t: Time)
    requires InOrder(e, []) && 0 <= t.micros < 1000000 && (Jump(e.now, t) != 0 ==> NoWrap(e.pending, Jump(e.now, t)))
    ensures InOrder(Tick(e, t), [])
  {
    QueuedShift(e.pending, Jump(e.now, t));
    if Jump(e.now, t) != 0 { JumpKeepsDelays(e, t); }
    assert Track(Tick(e, t), []) == Track(e, []);
  }

  lemma CancelInOrder(e: Engine, i: nat)
    requires InOrder(e, []) && i < |e.pending| && !e.pending[i].job.Message?
    ensures InOrder(e.(pending := e.pending[..i] + e.pending[i + 1..]), [])
    ensures Prompt(e) ==> Prompt(e.(pending := e.pending[..i] + e.pending[i + 1..]))
  {
    CancelKeeps(e, i);
    assert forall x :: x in e.pending[..i] + e.pending[i + 1..] ==> x in e.pending;
  }

  lemma NextInOrder(e: Engine, ev: Event)
    requires Possible(e, ev) && e.batch == [] && InOrder(e, []) && Ranged(e, ev) && Timely(e, ev)
    ensures InOrder(Next(e, ev), [])
    ensures !ev.Clock? && Prompt(e) ==> Prompt(Next(e, ev))
  {
    assert e.now.micros <= 1000000;
    hide InOrder, Prompt;
    match ev
    case Clock(t) => TickInOrder(e, t);
    case Post =>
      AddInOrder(e, [], 0, 0, Message(e.sent));
      InsertPrompt(e, Item(DueAt(e.now, 0, 0), Message(e.sent)));
    case Arm(id, s, us) =>
      AddInOrder(e, [], s, us, Timer(id));
      InsertPrompt(e, Item(DueAt(e.now, s, us), Timer(id)));
    case Cancel(i) => CancelInOrder(e, i);
    case Exec(react) =>
      ActivateKeeps(e);
      RunBatchInOrder(Activate(e), react);
  }

  // Sending while a message waits that is due later puts the new one in front of it.

  /** Message m waits until after now, and of what was sent since the base one waits
      no longer than now. */
  ghost predicate Behind(e: Engine, m: nat, base: nat) {
    && e.now.micros <= 1000000 && e.sent >= base
    && (exists x :: x in e.pending && x.job == Message(m) && e.now.Before(x.due))
    && (e.sent > base ==> exists x :: x in e.pending && x.job.Message? && x.job.serial >= base && x.due.NotAfter(e.now))
  }

  lemma PerformBehind(e: Engine, act: Act, m: nat, base: nat)
    requires Behind(e, m, base)
    ensures Behind(Perform(e, act), m, base)
  {
    match act
    case Send =>
      var x := Item(DueAt(e.now, 0, 0), Message(e.sent));
      InsertHas(e.pending, x);
      assert x in Perform(e, act).pending && x.due == e.now;
    case Start(id, s, us) => InsertHas(e.pending, Item(DueAt(e.now, s, us), Timer(id)));
    case Stop(id) => StopLeaves(e.pending, id);
  }

  lemma {:induction false} PerformAllBehind(e: Engine, acts: seq<Act>, m: nat, base: nat)
    requires Behind(e, m, base)
    ensures Behind(PerformAll(e, acts), m, base)
    decreases |acts|
  {
    if acts != [] {
      PerformBehind(e, acts[0], m, base);
      PerformAllBehind(Perform(e, acts[0]), acts[1..], m, base);
    }
  }

  lemma {:induction false} RunBatchBehind(e: Engine, react: Handler, m: nat, base: nat)
    requires Behind(e, m, base)
    ensures Behind(RunBatch(e, react), m, base)
    decreases |e.batch|
  {
    if e.batch != [] {
      var job, e0 := e.batch[0].job, e.(batch := e.batch[1..]);
      var acts := ActsOf(react, job, e.now, e.sent, |e.ran|);
      RunFirstFrame(e, react);
      PerformAllBehind(e0, acts, m, base);
      SettleBehind(PerformAll(e0, acts), job, FateOf(react, job, e.now, e.sent, |e.ran|), m, base);
      RunBatchBehind(RunFirst(e, react), react, m, base);
    }
  }

  lemma SettleBehind(e: Engine, job: Job, fate: Fate, m: nat, base: nat)
    requires Behind(e, m, base)
    ensures Behind(Settle(e, job, fate), m, base)
  {
    match fate
    case Rearm(s, us) => InsertHas(e.pending, Item(DueAt(e.now, s, us), job));
    case _ =>
  }

  /** The serials of two pending messages stand in the order the messages do. */
  lemma {:induction false} QueuedPair(items: seq<Item>, i: nat, j: nat) returns (p: nat, q: nat)
    requires i < j < |items| && items[i].job.Message? && items[j].job.Message?
    ensures p < q < |Queued(items)| && Queued(items)[p] == items[i].job.serial && Queued(items)[q] == items[j].job.serial
  {
    if i == 0 {
      QueuedHas(items[1..], j - 1);
      q :| 0 <= q < |Queued(items[1..])| && Queued(items[1..])[q] == items[j].job.serial;
      p, q := 0, q + 1;
    } else {
      p, q := QueuedPair(items[1..], i - 1, j - 1);
      p, q := p + |Serial(items[0].job)|, q + |Serial(items[0].job)|;
    }
  }

  lemma SerialsIncrease(e: Engine, i: nat, j: nat)
    requires InOrder(e, []) && e.batch == [] && i < j < |e.pending| && e.pending[i].job.Message? && e.pending[j].job.Message?
    ensures e.pending[i].job.serial < e.pending[j].job.serial
  {
    var p, q := QueuedPair(e.pending, i, j);
    assert Track(e, []) == e.freed + Queued(e.pending);
    assert UpTo(e.sent)[|e.freed| + p] < UpTo(e.sent)[|e.freed| + q];
  }

  lemma BehindIsOutOfOrder(e: Engine, m: nat, base: nat)
    requires Behind(e, m, base) && e.sent > base > m && Sorted(e.pending) && e.batch == []
    ensures !InOrder(e, [])
  {
    var x :| x in e.pending && x.job == Message(m) && e.now.Before(x.due);
    var y :| y in e.pending && y.job.Message? && y.job.serial >= base && y.due.NotAfter(e.now);
    var j :| 0 <= j < |e.pending| && e.pending[j] == x;
    var i :| 0 <= i < |e.pending| && e.pending[i] == y;
    assert i < j;
    hide InOrder;
    if InOrder(e, []) { SerialsIncrease(e, i, j); }
  }

  lemma NextOutOfOrder(e: Engine, ev: Event)
    requires Possible(e, ev) && e.batch == [] && InOrder(e, []) && !Timely(e, ev)
    ensures !InOrder(Next(e, ev), [])
  {
    var x :| x in e.pending && x.job.Message? && e.now.Before(x.due);
    var k :| 0 <= k < |e.pending| && e.pending[k] == x;
    var m, base := e.pending[k].job.serial, e.sent;
    QueuedHas(e.pending, k);
    QueuedSmall(e, k);
    assert Behind(e, m, base);
    assert Sorted(e.pending);
    BehindNext(e, ev, m, base);
    BehindIsOutOfOrder(Next(e, ev), m, base);
  }

  /** It is Post or Exec: nothing else sends. */
  lemma BehindNext(e: Engine, ev: Event, m: nat, base: nat)
    requires Possible(e, ev) && Behind(e, m, base) && e.sent == base && e.batch == [] && Sorted(e.pending)
    requires Next(e, ev).sent > e.sent
    ensures Behind(Next(e, ev), m, base) && Sorted(Next(e, ev).pending) && Next(e, ev).batch == []
  {
    hide Behind, Sorted, Prompt;
    match ev
    case Post =>
      PerformBehind(e, Send, m, base);
      InsertKeepsSorted(e.pending, Item(DueAt(e.now, 0, 0), Message(e.sent)));
    case Exec(react) =>
      ActivateBehind(e, m, base);
      RunBatchBehind(Activate(e), react, m, base);
      ActivateSorted(e);
      RunBatchRunsTheBatch(Activate(e), react);
    case _ => assert false;
  }

  lemma ActivateSorted(e: Engine)
    requires Sorted(e.pending)
    ensures Sorted(Activate(e).pending)
  {}

  /** What waits until after now is not due. */
  lemma ActivateBehind(e: Engine, m: nat, base: nat)
    requires Behind(e, m, base) && e.sent == base
    ensures Behind(Activate(e), m, base)
  {
    var d := DueCount(e.pending, e.now);
    var x :| x in e.pending && x.job == Message(m) && e.now.Before(x.due);
    var k :| 0 <= k < |e.pending| && e.pending[k] == x;
    assert Activate(e).pending[k - d] == x;
  }

  /** In every run, whatever the clock does, each message sent is pending or
      freed, exactly once, and at rest the batch is empty. */
  lemma {:induction false} MessagesAreConserved(evs: seq<Event>, trace: seq<Engine>)
    requires IsRun(evs, trace)
    ensures var e := trace[|evs|];
            && e.batch == [] && |e.freed| + |Queued(e.pending)| == e.sent
            && forall n: nat :: Count(e.freed, n) + Count(Queued(e.pending), n) == if n < e.sent then 1 else 0
  {
    var e := trace[|evs|];
    ConservedAlong(evs, trace);
    assert Track(e, []) == e.freed + Queued(e.pending);
    forall n: nat ensures Count(e.freed, n) + Count(Queued(e.pending), n) == if n < e.sent then 1 else 0 {
      CountConcat(e.freed, Queued(e.pending), n);
    }
  }

  /** DeleteList: every message still on the list is torn down, its payload freed. */
  function TearDown(e: Engine): Engine {
    e.(pending := [], freed := e.freed + Queued(e.pending))
  }

  /** After any run and the teardown of the list, each payload was freed exactly
      once and no envelope is left. */
  lemma {:induction false} TearDownFreesEachOnce(evs: seq<Event>, trace: seq<Engine>)
    requires IsRun(evs, trace)
    ensures var e := TearDown(trace[|evs|]);
            |e.freed| == e.sent && forall n: nat :: Count(e.freed, n) == if n < e.sent then 1 else 0
  {
    var e := trace[|evs|];
    MessagesAreConserved(evs, trace);
    forall n: nat ensures Count(TearDown(e).freed, n) == if n < e.sent then 1 else 0 {
      CountConcat(e.freed, Queued(e.pending), n);
    }
  }

  lemma {:induction false} ConservedAlong(evs: seq<Event>, trace: seq<Engine>)
    requires IsRun(evs, trace)
    ensures trace[|evs|].batch == [] && Conserved(trace[|evs|], [])
  {
    if evs == [] {
      assert UpTo(0) == [];
    } else {
      var n := |evs| - 1;
      assert IsRun(evs[..n], trace[..n + 1]);
      ConservedAlong(evs[..n], trace[..n + 1]);
      NextConserves(trace[n], evs[n]);
    }
  }

  /** Dispatched in the order they were sent: the serials of the dispatches so far are
      0, 1, 2 and so on, and the ones still pending follow in order. */
  ghost predicate Fifo(e: Engine) {
    && Serials(e.ran) == UpTo(|Serials(e.ran)|)
    && Serials(e.ran) + Queued(e.pending) == UpTo(e.sent)
  }

  /** Exactly when: in a run whose clock stays in its range, messages are in the order
      they were sent all along if and only if nothing is ever sent while a message
      waits that is due later than the clock reads. The clock may go back and jump. */
  lemma DispatchedInOrderIff(evs: seq<Event>, trace: seq<Engine>)
    requires IsRun(evs, trace) && forall i :: 0 <= i < |evs| ==> Ranged(trace[i], evs[i])
    ensures (forall i :: 0 <= i <= |evs| ==> Fifo(trace[i])) <==> forall i :: 0 <= i < |evs| ==> Timely(trace[i], evs[i])
  {
    hide Fifo, Timely, InOrder, Ranged;
    if forall i :: 0 <= i < |evs| ==> Timely(trace[i], evs[i]) {
      forall i | 0 <= i <= |evs| ensures Fifo(trace[i]) {
        assert IsRun(evs[..i], trace[..i + 1]);
        InOrderAlong(evs[..i], trace[..i + 1]);
        InOrderIsFifo(evs[..i], trace[..i + 1]);
      }
    } else {
      var i := FirstUntimely(evs, trace);
      assert IsRun(evs[..i], trace[..i + 1]) && IsRun(evs[..i + 1], trace[..i + 2]);
      InOrderAlong(evs[..i], trace[..i + 1]);
      ConservedAlong(evs[..i], trace[..i + 1]);
      NextOutOfOrder(trace[i], evs[i]);
      InOrderIsFifo(evs[..i + 1], trace[..i + 2]);
      assert !Fifo(trace[i + 1]);
    }
  }

  lemma {:induction false} FirstUntimely(evs: seq<Event>, trace: seq<Engine>) returns (i: nat)
    requires IsRun(evs, trace) && !(forall i :: 0 <= i < |evs| ==> Timely(trace[i], evs[i]))
    ensures i < |evs| && !Timely(trace[i], evs[i]) && forall j :: 0 <= j < i ==> Timely(trace[j], evs[j])
  {
    i := 0;
    while Timely(trace[i], evs[i])
      invariant i < |evs| && forall j :: 0 <= j < i ==> Timely(trace[j], evs[j])
      decreases |evs| - i
    {
      i := i + 1;
    }
  }

  /** While the pending list is sorted, which it is along such runs. */
  lemma InOrderIsFifo(evs: seq<Event>, trace: seq<Engine>)
    requires IsRun(evs, trace) && forall i :: 0 <= i < |evs| ==> Ranged(trace[i], evs[i])
    ensures InOrder(trace[|evs|], []) <==> Fifo(trace[|evs|])
  {
    var e := trace[|evs|];
    ConservedAlong(evs, trace);
    FreedIsDispatchedAlong(evs, trace);
    SortedAlong(evs, trace);
    assert Track(e, []) == e.freed + Queued(e.pending);
    if InOrder(e, []) { assert e.freed == UpTo(e.sent)[..|e.freed|]; }
  }

  lemma {:induction false} SortedAlong(evs: seq<Event>, trace: seq<Engine>)
    requires IsRun(evs, trace) && forall i :: 0 <= i < |evs| ==> Ranged(trace[i], evs[i])
    ensures Sorted(trace[|evs|].pending) && trace[|evs|].now.micros <= 1000000
  {
    if evs != [] {
      var n := |evs| - 1;
      assert IsRun(evs[..n], trace[..n + 1]);
      SortedAlong(evs[..n], trace[..n + 1]);
      NextSorted(trace[n], evs[n]);
    }
  }

  lemma NextSorted(e: Engine, ev: Event)
    requires Possible(e, ev) && Sorted(e.pending) && e.now.micros <= 1000000 && Ranged(e, ev)
    ensures Sorted(Next(e, ev).pending) && Next(e, ev).now.micros <= 1000000
  {
    match ev
    case Clock(t) => if Jump(e.now, t) != 0 { JumpKeepsDelays(e, t); }
    case Post => InsertKeepsSorted(e.pending, Item(DueAt(e.now, 0, 0), Message(e.sent)));
    case Arm(id, s, us) => InsertKeepsSorted(e.pending, Item(DueAt(e.now, s, us), Timer(id)));
    case Cancel(_) =>
    case Exec(react) => RunBatchRunsTheBatch(Activate(e), react);
  }

  lemma {:induction false} InOrderAlong(evs: seq<Event>, trace: seq<Engine>)
    requires IsRun(evs, trace)
    requires forall i :: 0 <= i < |evs| ==> Ranged(trace[i], evs[i]) && Timely(trace[i], evs[i])
    ensures InOrder(trace[|evs|], [])
  {
    if evs == [] {
      assert UpTo(0) == [];
    } else {
      var n := |evs| - 1;
      assert IsRun(evs[..n], trace[..n + 1]);
      InOrderAlong(evs[..n], trace[..n + 1]);
      ConservedAlong(evs[..n], trace[..n + 1]);
      NextInOrder(trace[n], evs[n]);
    }
  }

  /** So it is in every run whose clock neither goes back nor jumps. */
  lemma DispatchedInOrder(evs: seq<Event>, trace: seq<Engine>)
    requires IsRun(evs, trace) && forall i :: 0 <= i < |evs| ==> Smooth(trace[i], evs[i])
    ensures Fifo(trace[|evs|])
  {
    forall i | 0 <= i < |evs| ensures Timely(trace[i], evs[i]) {
      assert IsRun(evs[..i], trace[..i + 1]);
      PromptAlong(evs[..i], trace[..i + 1]);
    }
    DispatchedInOrderIff(evs, trace);
  }

  lemma {:induction false} PromptAlong(evs: seq<Event>, trace: seq<Engine>)
    requires IsRun(evs, trace) && forall i :: 0 <= i < |evs| ==> Smooth(trace[i], evs[i])
    ensures InOrder(trace[|evs|], []) && Prompt(trace[|evs|])
  {
    if evs == [] {
      assert UpTo(0) == [];
    } else {
      var n := |evs| - 1;
      assert IsRun(evs[..n], trace[..n + 1]);
      PromptAlong(evs[..n], trace[..n + 1]);
      ConservedAlong(evs[..n], trace[..n + 1]);
      NextInOrder(trace[n], evs[n]);
    }
  }

  /** A payload is freed when its message is dispatched, and only then. */
  lemma {:induction false} FreedIsDispatchedAlong(evs: seq<Event>, trace: seq<Engine>)
    requires IsRun(evs, trace)
    ensures trace[|evs|].freed == Serials(trace[|evs|].ran)
  {
    if evs != [] {
      var n := |evs| - 1;
      assert IsRun(evs[..n], trace[..n + 1]);
      FreedIsDispatchedAlong(evs[..n], trace[..n + 1]);
      if evs[n].Exec? { FreedIsDispatched(Activate(trace[n]), evs[n].react); }
    }
  }

  lemma {:induction false} FreedIsDispatched(e: Engine, react: Handler)
    requires e.freed == Serials(e.ran)
    ensures RunBatch(e, react).freed == Serials(RunBatch(e, react).ran)
    decreases |e.batch|
  {
    if e.batch != [] {
      RunFirstFrame(e, react);
      var job := e.batch[0].job;
      PerformAllFrame(e.(batch := e.batch[1..]), ActsOf(react, job, e.now, e.sent, |e.ran|));
      SerialsConcat(e.ran, if job.Idle? then [] else [job]);
      FreedIsDispatched(RunFirst(e, react), react);
    }
  }

  /** Without that condition it does not hold: a message waiting when the clock
      jumps keeps its micros, and one sent after the jump can overtake it. */
  lemma JumpCanReorder()
    ensures exists evs: seq<Event>, trace: seq<Engine> :: IsRun(evs, trace) && Queued(trace[|evs|].pending) == [1, 0]
  {
    var evs := [Clock(Time(10, 900000)), Post, Clock(Time(20, 100000)), Post];
    var e1 := START.(now := Time(10, 900000));
    var e2 := e1.(pending := [Item(Time(10, 900000), Message(0))], sent := 1);
    var e3 := e2.(now := Time(20, 100000), pending := [Item(Time(20, 900000), Message(0))]);
    var e4 := e3.(pending := [Item(Time(20, 100000), Message(1)), Item(Time(20, 900000), Message(0))], sent := 2);
    assert Next(START, evs[0]) == e1;
    assert Next(e1, evs[1]) == e2;
    assert Next(e2, evs[2]) == e3 by { assert Shift(e2.pending, 10) == e3.pending; }
    assert Next(e3, evs[3]) == e4;
    hide Next;
    assert IsRun(evs, [START, e1, e2, e3, e4]);
    assert Queued(e4.pending) == [1, 0] by { assert e4.pending[1..][1..] == []; }
  }

  /** Exactly when: after a reading of the clock, the next message sent goes
      behind every pending one if and only if none of them is due later than
      the new reading. */
  lemma NextSendIsLastIff(e: Engine, t: Time)
    requires InOrder(e, []) && e.batch == [] && 0 <= t.micros < 1000000
    requires NoWrap(e.pending, Jump(e.now, t))
    ensures var r := Tick(e, t);
            Queued(SendMessage(r).pending) == Queued(r.pending) + [e.sent] <==>
            forall i :: 0 <= i < |r.pending| && r.pending[i].job.Message? ==> r.pending[i].due.NotAfter(t)
  {
    var r := Tick(e, t);
    if Jump(e.now, t) != 0 { JumpKeepsDelays(e, t); }
    var x := Item(t, Message(e.sent));
    if forall i :: 0 <= i < |r.pending| && r.pending[i].job.Message? ==> r.pending[i].due.NotAfter(t) {
      QueuedInsert(r.pending, x);
    } else {
      var i :| 0 <= i < |r.pending| && r.pending[i].job.Message? && t.Before(r.pending[i].due);
      QueuedShift(e.pending, Jump(e.now, t));
      QueuedSmall(e, i);
      Overtakes(r.pending, x, i);
    }
  }

  /** Pending serials are below the next one. */
  lemma QueuedSmall(e: Engine, i: nat)
    requires InOrder(e, []) && i < |e.pending|
    ensures forall n :: n in Queued(e.pending) ==> n < e.sent
  {
    forall n | n in Queued(e.pending) ensures n < e.sent {
      assert n in Track(e, []);
    }
  }

  /** A message in front of another one is not the last of them. */
  lemma {:induction false} Overtakes(items: seq<Item>, x: Item, i: nat)
    requires i < |items| && items[i].job.Message? && x.job.Message? && x.due.Before(items[i].due) && Sorted(items)
    requires x.job.serial !in Queued(items)
    ensures Queued(InsertStable(items, x)) != Queued(items) + [x.job.serial]
    ensures items[i].job.serial in Queued(items)
  {
    if x.due.Before(items[0].due) {
      QueuedConcat([x], items);
      QueuedHas(items, i);
      assert Queued(InsertStable(items, x))[0] == x.job.serial;
      assert (Queued(items) + [x.job.serial])[0] in Queued(items);
    } else {
      assert i > 0;
      var first, rest := Serial(items[0].job), items[1..];
      Overtakes(rest, x, i - 1);
      assert first + Queued(rest) == Queued(items);
      assert InsertStable(items, x) == [items[0]] + InsertStable(rest, x);
      assert Queued(InsertStable(items, x)) == first + Queued(InsertStable(rest, x));
      assert (first + Queued(InsertStable(rest, x)))[|first|..] == Queued(InsertStable(rest, x));
      assert (first + Queued(rest) + [x.job.serial])[|first|..] == Queued(rest) + [x.job.serial];
    }
  }

  lemma {:induction false} QueuedHas(items: seq<Item>, i: nat)
    requires i < |items| && items[i].job.Message?
    ensures items[i].job.serial in Queued(items)
  {
    if i > 0 { QueuedHas(items[1..], i - 1); }
  }
}
