/** What a turn of the scheduler, and a reading of the clock, does to each entry: told
    by its effects, so that it can be compared with what SchedModel computes. */
module Turns {
  import opened SchedModel

  // ---- time -------------------------------------------------------------------------

  /** Comparing two moments is comparing what is between them; a million micros count
      as not yet the next second. */
  lemma BeforeIff(s: Time, t: Time)
    requires 0 <= s.micros <= 1000000 && 0 <= t.micros <= 1000000
    ensures s.Before(t) <==> s.Until(t) > 0 || (s.Until(t) == 0 && s.seconds < t.seconds)
    ensures s.NotAfter(t) <==> !t.Before(s)
  {}

  /** The moment a delay from now ends; its micros are 1 to a million unless there are
      none to add. */
  predicate Delayed(now: Time, seconds: nat, micros: nat, due: Time) {
    && now.Until(due) == seconds * 1000000 + micros
    && (0 <= now.micros < 1000000 && micros <= 1000000 ==>
          0 <= due.micros <= 1000000 && (due.micros == 0 ==> now.micros + micros == 0))
  }

  /** A new entry behind all that is due no later; the others stay, in order. */
  ghost predicate Joined(left: seq<Item>, x: Item, r: seq<Item>) {
    exists q :: 0 <= q <= |left| && JoinedAt(left, x, r, q)
  }

  predicate JoinedAt(left: seq<Item>, x: Item, r: seq<Item>, q: nat)
    requires q <= |left|
  {
    && r == left[..q] + [x] + left[q..]
    && (forall i :: 0 <= i < q ==> left[i].due.NotAfter(x.due))
    && (q < |left| ==> x.due.Before(left[q].due))
  }

  /** A job waits, in its place, for as long as was asked. */
  ghost predicate Waits(now: Time, left: seq<Item>, job: Job, seconds: nat, micros: nat, r: seq<Item>) {
    exists due :: Delayed(now, seconds, micros, due) && Joined(left, Item(due, job), r)
  }

  /** The first timer of that name is gone, if there is one. */
  ghost predicate Stopped(left: seq<Item>, id: nat, r: seq<Item>) {
    || (r == left && forall i :: 0 <= i < |left| ==> left[i].job != Timer(id))
    || exists i :: 0 <= i < |left| && left[i].job == Timer(id) && r == left[..i] + left[i + 1..]
                   && forall j :: 0 <= j < i ==> left[j].job != Timer(id)
  }

  lemma AddWaits(e: Engine, seconds: nat, micros: nat, job: Job)
    ensures Waits(e.now, e.pending, job, seconds, micros, Add(e, seconds, micros, job).pending)
    ensures Add(e, seconds, micros, job) == e.(pending := Add(e, seconds, micros, job).pending)
  {
    var x := Item(DueAt(e.now, seconds, micros), job);
    var q := Slot(e.pending, x);
    InsertStableAt(e.pending, x, q);
    assert Delayed(e.now, seconds, micros, x.due);
    assert JoinedAt(e.pending, x, InsertStable(e.pending, x), q);
    assert Joined(e.pending, x, InsertStable(e.pending, x));
  }

  // ---- what a callback asks for -------------------------------------------------------

  ghost predicate Acted(e: Engine, act: Act, r: Engine) {
    && r == e.(pending := r.pending, sent := r.sent)
    && match act
       case Send => r.sent == e.sent + 1 && Waits(e.now, e.pending, Message(e.sent), 0, 0, r.pending)
       case Start(id, s, us) => r.sent == e.sent && Waits(e.now, e.pending, Timer(id), s, us, r.pending)
       case Stop(id) => r.sent == e.sent && Stopped(e.pending, id, r.pending)
  }

  lemma PerformActs(e: Engine, act: Act)
    ensures Acted(e, act, Perform(e, act))
  {
    match act
    case Send => AddWaits(e, 0, 0, Message(e.sent));
    case Start(id, s, us) => AddWaits(e, s, us, Timer(id));
    case Stop(id) =>
      var i := FirstTimer(e.pending, id);
      WithoutTimerAt(e.pending, id, i);
  }

  function FirstTimer(items: seq<Item>, id: nat): (i: nat)
    ensures i <= |items| && (i < |items| ==> items[i].job == Timer(id))
    ensures forall j :: 0 <= j < i ==> items[j].job != Timer(id)
  {
    if items == [] || items[0].job == Timer(id) then 0 else 1 + FirstTimer(items[1..], id)
  }

  /** From one state to the next, each act in turn. */
  ghost predicate Steps(acts: seq<Act>, mid: seq<Engine>) {
    |mid| == |acts| + 1 && forall i :: 0 <= i < |acts| ==> Acted(mid[i], acts[i], mid[i + 1])
  }

  lemma {:induction false} PerformSteps(e: Engine, acts: seq<Act>) returns (mid: seq<Engine>)
    ensures Steps(acts, mid) && mid[0] == e && mid[|acts|] == PerformAll(e, acts)
    decreases |acts|
  {
    if acts == [] {
      mid := [e];
    } else {
      hide Acted, Perform;
      PerformActs(e, acts[0]);
      var rest := PerformSteps(Perform(e, acts[0]), acts[1..]);
      mid := [e] + rest;
      forall i | 0 <= i < |acts| ensures Acted(mid[i], acts[i], mid[i + 1]) {
        if i > 0 { assert acts[i] == acts[1..][i - 1] && mid[i] == rest[i - 1]; }
      }
    }
  }

  // ---- one turn -----------------------------------------------------------------------

  /** The first job of the batch is asked once, with what has run and what was sent
      until then. What it asks for is done in order. A timer it re-arms waits as long
      as it says from now on, and a message is freed; nothing else is queued, and an
      idle task asks for nothing. */
  ghost predicate TurnBy(e: Engine, react: Handler, mid: seq<Engine>, r: Engine)
    requires e.batch != []
  {
    var job := e.batch[0].job;
    var says := react(job, e.now, e.sent, |e.ran|);
    var acts := if job.Idle? then [] else says.acts;
    && Steps(acts, mid) && mid[0] == e.(batch := e.batch[1..])
    && r == mid[|acts|].(pending := r.pending, ran := r.ran, freed := r.freed)
    && r.ran == e.ran + (if job.Idle? then [] else [job])
    && r.freed == e.freed + (if job.Message? then [job.serial] else [])
    && if job.Timer? && says.fate.Rearm?
       then Waits(e.now, mid[|acts|].pending, job, says.fate.delaySeconds, says.fate.delayMicros, r.pending)
       else r.pending == mid[|acts|].pending
  }

  ghost predicate Turn(e: Engine, react: Handler, r: Engine) {
    e.batch != [] && exists mid :: TurnBy(e, react, mid, r)
  }

  /** A turn is that. */
  lemma RunFirstTurns(e: Engine, react: Handler)
    requires e.batch != []
    ensures Turn(e, react, RunFirst(e, react))
  {
    hide Waits, Steps;
    var job := e.batch[0].job;
    var acts := ActsOf(react, job, e.now, e.sent, |e.ran|);
    var e0 := e.(batch := e.batch[1..]);
    var mid := PerformSteps(e0, acts);
    assert |mid| == |acts| + 1 by { StepsLength(acts, mid); }
    PerformAllFrame(e0, acts);
    match FateOf(react, job, e.now, e.sent, |e.ran|) {
      case Rearm(s, us) => AddWaits(mid[|acts|], s, us, job);
      case _ =>
    }
    assert TurnBy(e, react, mid, RunFirst(e, react));
  }

  lemma StepsLength(acts: seq<Act>, mid: seq<Engine>)
    requires Steps(acts, mid)
    ensures |mid| == |acts| + 1
  {}

  /** A timer that is re-armed is the one entry its turn adds to what its callback left,
      due exactly the delay it asked for from now. */
  lemma RearmedIsDueThen(e: Engine, react: Handler, id: nat, acts: seq<Act>, seconds: nat, micros: nat)
    requires e.batch != [] && e.batch[0].job == Timer(id)
    requires react(Timer(id), e.now, e.sent, |e.ran|) == Reaction(acts, Rearm(seconds, micros))
    ensures var left, r := PerformAll(e.(batch := e.batch[1..]), acts).pending, RunFirst(e, react).pending;
            exists q :: 0 <= q < |r| && r[q].job == Timer(id) && e.now.Until(r[q].due) == seconds * 1000000 + micros
                        && r[..q] + r[q + 1..] == left
  {
    hide Add, PerformAll, InsertStable, DueAt, Delayed, JoinedAt;
    var e1 := PerformAll(e.(batch := e.batch[1..]), acts);
    PerformAllFrame(e.(batch := e.batch[1..]), acts);
    var r := RunFirst(e, react).pending;
    assert r == Add(e1, seconds, micros, Timer(id)).pending;
    AddWaits(e1, seconds, micros, Timer(id));
    hide RunFirst;
    var due :| Delayed(e.now, seconds, micros, due) && Joined(e1.pending, Item(due, Timer(id)), r);
    var q :| 0 <= q <= |e1.pending| && JoinedAt(e1.pending, Item(due, Timer(id)), r, q);
    OneOut(e1.pending, Item(due, Timer(id)), r, q);
    assert e.now.Until(due) == seconds * 1000000 + micros by { HowLong(e.now, seconds, micros, due); }
  }

  lemma HowLong(now: Time, seconds: nat, micros: nat, due: Time)
    requires Delayed(now, seconds, micros, due)
    ensures now.Until(due) == seconds * 1000000 + micros
  {}

  lemma OneOut(left: seq<Item>, x: Item, r: seq<Item>, q: nat)
    requires q <= |left| && JoinedAt(left, x, r, q)
    ensures q < |r| && r[q] == x && r[..q] + r[q + 1..] == left
  {
    assert r[..q] == left[..q] && r[q + 1..] == left[q..];
  }

  // ---- one call ------------------------------------------------------------------------

  /** The turns of a batch, up to the last. */
  ghost predicate Turned(e: Engine, react: Handler, trace: seq<Engine>) {
    && |trace| == |e.batch| + 1 && trace[0] == e
    && forall i :: 0 <= i < |e.batch| ==> trace[i].batch == e.batch[i..] && Turn(trace[i], react, trace[i + 1])
  }

  lemma {:induction false} RunBatchTurns(e: Engine, react: Handler) returns (trace: seq<Engine>)
    ensures Turned(e, react, trace) && trace[|e.batch|] == RunBatch(e, react)
    decreases |e.batch|
  {
    hide RunFirst, Turn;
    if e.batch == [] {
      trace := [e];
    } else {
      RunFirstFrame(e, react);
      RunFirstTurns(e, react);
      var rest := RunBatchTurns(RunFirst(e, react), react);
      trace := [e] + rest;
      forall i | 0 <= i < |e.batch| ensures trace[i].batch == e.batch[i..] && Turn(trace[i], react, trace[i + 1]) {
        if i > 0 { assert e.batch[1..][i - 1..] == e.batch[i..] && trace[i] == rest[i - 1]; }
      }
    }
  }

  /** The first k entries are due and no more at the head; they are run, one turn each,
      in their order, and what their callbacks queue is left on the list. */
  ghost predicate CallBy(e: Engine, react: Handler, k: nat, trace: seq<Engine>, r: Engine) {
    && k <= |e.pending| && (forall i :: 0 <= i < k ==> e.pending[i].due.NotAfter(e.now))
    && (k < |e.pending| ==> e.now.Before(e.pending[k].due))
    && Turned(e.(pending := e.pending[k..], batch := e.batch + e.pending[..k]), react, trace)
    && r == trace[|trace| - 1]
  }

  ghost predicate Call(e: Engine, react: Handler, r: Engine) {
    exists k, trace :: CallBy(e, react, k, trace, r)
  }

  /** A call of ExecTasks is that. */
  lemma ExecTasksCalls(e: Engine, react: Handler)
    ensures Call(e, react, ExecTasks(e, react))
  {
    hide RunBatch, Turned;
    var k := DueCount(e.pending, e.now);
    var e0 := e.(pending := e.pending[k..], batch := e.batch + e.pending[..k]);
    var trace := RunBatchTurns(e0, react);
    assert |trace| == |e0.batch| + 1 by { TurnedLength(e0, react, trace); }
    assert CallBy(e, react, k, trace, ExecTasks(e, react));
  }

  lemma TurnedLength(e: Engine, react: Handler, trace: seq<Engine>)
    requires Turned(e, react, trace)
    ensures |trace| == |e.batch| + 1
  {}

  // ---- the clock ------------------------------------------------------------------------

  /** A reading of the clock. The first one, and one in the same or the next second,
      leaves every due time alone; any other moves each by the seconds between the two
      readings, around the end of a 64-bit count. */
  lemma ClockMoves(e: Engine, t: Time)
    ensures var r, d := Tick(e, t), t.seconds - e.now.seconds;
            && r == e.(now := t, pending := r.pending) && |r.pending| == |e.pending|
            && (e.now.seconds == 0 || d == 0 || d == 1 ==> r.pending == e.pending)
            && (e.now.seconds != 0 && d != 0 && d != 1 ==>
                  forall i :: 0 <= i < |e.pending| ==>
                    var was, due := e.pending[i].due, r.pending[i].due;
                    && r.pending[i].job == e.pending[i].job && due.micros == was.micros
                    && 0 <= due.seconds < 0x1_0000_0000_0000_0000 && (was.seconds + d - due.seconds) % 0x1_0000_0000_0000_0000 == 0)
  {
    var d := t.seconds - e.now.seconds;
    if e.now.seconds != 0 && d != 0 && d != 1 {
      forall i | 0 <= i < |e.pending|
        ensures (e.pending[i].due.seconds + d - (e.pending[i].due.seconds + d) % WORD) % WORD == 0
      {
        LessRemainder(e.pending[i].due.seconds + d);
      }
    }
  }

  lemma LessRemainder(x: int)
    ensures (x - x % WORD) % WORD == 0
  {
    var q := x / WORD;
    assert x - x % WORD == q * WORD;
    TimesWord(q);
  }

  lemma TimesWord(q: int)
    ensures q * WORD % WORD == 0
  {}
}
