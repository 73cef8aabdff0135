/**
 The recovery sequencer (modules/recovery_system.py:90-154).

 `start_recovery_for_user` guards the creation of a tracking row for a
 (user, bot) pair and launches `process_recovery_sequence`, which walks the
 bot's steps in list order: wait the step's own delay, re-read the tracking
 row, give up unless it is still "active", otherwise send the step. The
 tracking store is a map; the clock, the waits and the concurrent changes to
 the store made by the rest of the bot are replaced by an environment that
 says what each post-wait lookup observed. The routine's behaviour is a trace
 of `Wait`, `Send` and `Stop` events.
 */
module Sequencer {
  import opened Wrappers
  import opened Recovery

  type UserId = int
  type BotId = int
  type Key = (UserId, BotId)

  /** The status a tracking row must carry for the sequence to go on. */
  const Active: string := "active"

  /** A tracking row: its status string and the time tracking started. */
  datatype Row = Row(status: string, startedAt: int)

  type Store = map<Key, Row>

  // ---------------------------------------------------------------- start

  /**
   Where `start_recovery_for_user` raises, if anywhere: it has no handler of its
   own, so an exception leaves whatever was already written.
   */
  datatype StartFault =
    | StartsCleanly
    | TableRaises     // creating the tracking table
    | CheckRaises     // looking up the pair's row
    | ListingRaises   // listing the bot's steps
    | TrackingRaises  // writing the new row
    | TaskRaises      // scheduling the sequence, after the row is written

  datatype StartResult = StartResult(store: Store, launched: bool, raised: bool)

  /**
   `start_recovery_for_user` (modules/recovery_system.py:131-154): `steps` is what
   the step store lists for the bot, `now` the time recorded in a new row and
   `fault` the call that raises, if any.
   */
  function Start(store: Store, user: UserId, bot: BotId, steps: seq<Step>, now: int, fault: StartFault): (r: StartResult)
    // a sequence is launched exactly when nothing raises, no row exists (whatever its status) and steps exist
    ensures r.launched <==> fault.StartsCleanly? && (user, bot) !in store && |steps| > 0
    ensures r.launched ==> !r.raised
    // the call raises exactly when a raising call is reached
    ensures r.raised <==>
      || fault.TableRaises? || fault.CheckRaises?
      || ((user, bot) !in store && fault.ListingRaises?)
      || ((user, bot) !in store && |steps| > 0 && (fault.TrackingRaises? || fault.TaskRaises?))
    // the store changes only by the new active row, written when the start gets past the write
    ensures r.store == store || r.store == store[(user, bot) := Row(Active, now)]
    ensures r.store != store <==> (r.launched || (fault.TaskRaises? && (user, bot) !in store && |steps| > 0))
    ensures r.launched ==>
      && r.store.Keys == store.Keys + {(user, bot)}
      && r.store[(user, bot)].status == Active
      && forall k :: k in store ==> r.store[k] == store[k]
  {
    if fault.TableRaises? || fault.CheckRaises? then StartResult(store, false, true)
    else if (user, bot) in store then StartResult(store, false, false)
    else if fault.ListingRaises? then StartResult(store, false, true)
    else if |steps| == 0 then StartResult(store, false, false)
    else if fault.TrackingRaises? then StartResult(store, false, true)
    else
      var written := store[(user, bot) := Row(Active, now)];
      if fault.TaskRaises? then StartResult(written, false, true)
      else StartResult(written, true, false)
  }

  /** Starting twice in a row launches at most one sequence and leaves one row. */
  lemma StartIsIdempotent(store: Store, user: UserId, bot: BotId, steps: seq<Step>, now: int, later: int,
                          fault: StartFault)
    ensures var first := Start(store, user, bot, steps, now, StartsCleanly);
      var second := Start(first.store, user, bot, steps, later, fault);
      && !second.launched
      && second.store == first.store
      && ((user, bot) in second.store <==> ((user, bot) in store || |steps| > 0))
  {
  }

  /**
   When scheduling the sequence raises, the new row stays behind, active, with
   no sequence to send or stop anything; every later start for the pair then
   launches nothing.
   */
  lemma OrphanRowBlocksStarts(store: Store, user: UserId, bot: BotId, steps: seq<Step>, now: int,
                              laterSteps: seq<Step>, later: int, fault: StartFault)
    requires (user, bot) !in store && |steps| > 0
    ensures var first := Start(store, user, bot, steps, now, TaskRaises);
      && first.raised && !first.launched
      && (user, bot) in first.store && first.store[(user, bot)].status == Active
      && !Start(first.store, user, bot, laterSteps, later, fault).launched
  {
  }

  // ---------------------------------------------------------------- stop

  /**
   What `manager.stop_recovery_tracking` does to the row; the store is not part
   of this model, so both readings are kept.
   */
  datatype StopPolicy = DeleteRow | MarkStopped

  function StopTracking(store: Store, key: Key, policy: StopPolicy): (r: Store)
    ensures r.Keys <= store.Keys
    ensures key in r ==> r[key].status != Active
    ensures forall k :: k in store && k != key ==> k in r && r[k] == store[k]
  {
    match policy
    case DeleteRow => store - {key}
    case MarkStopped =>
      if key in store then store[key := store[key].(status := "stopped")] else store
  }

  // ---------------------------------------------------------------- process

  /** What `get_recovery_tracking` gave after a wait: a row, no row, or an exception. */
  datatype Observation = Tracked(row: Row) | Untracked | LookupFault

  /** The environment of one loop iteration: the post-wait lookup and the send's collaborators. */
  datatype Round = Round(observed: Observation, send: SendEnv)

  /**
   The environment of one run: the steps listed for the bot (None where the
   listing raises), one round per step, and whether stopping tracking at the
   end raises.
   */
  datatype ProcessEnv = ProcessEnv(listed: Option<seq<Step>>, rounds: seq<Round>, stopFaults: bool)

  predicate ValidEnv(env: ProcessEnv) {
    env.listed.Some? ==>
      && |env.rounds| >= |env.listed.value|
      && forall i :: 0 <= i < |env.listed.value| ==> ValidSendEnv(env.rounds[i].send)
  }

  datatype Event =
    | Wait(seconds: int)              // asyncio.sleep(seconds)
    | Send(index: nat, ok: bool)      // send_recovery for step `index`, and what it returned
    | Stop                            // stop_recovery_tracking

  /** How the routine ended. */
  datatype Exit =
    | NoSteps               // the listing was empty: return at once
    | ListingFailed         // the listing raised
    | Cancelled(at: nat)    // after step `at`'s wait the row was gone or not active
    | CheckFailed(at: nat)  // the lookup after step `at`'s wait raised
    | Finished              // every step was handled and tracking stopped
    | StopFailed            // every step was handled and stopping tracking raised

  datatype Run = Run(trace: seq<Event>, exit: Exit)

  /** The post-wait check lets the sequence go on. */
  predicate Live(o: Observation) {
    o.Tracked? && o.row.status == Active
  }

  /** The number of steps whose send was reached. */
  function Reached(exit: Exit, n: nat): nat {
    match exit
    case Cancelled(at) => at
    case CheckFailed(at) => at
    case Finished => n
    case StopFailed => n
    case _ => 0
  }

  /** The exits whose path calls stop_recovery_tracking. */
  predicate Cleans(exit: Exit) {
    exit.ListingFailed? || exit.CheckFailed? || exit.Finished? || exit.StopFailed?
  }

  /** `[lo, lo+1, ..., hi-1]`. */
  function Range(lo: nat, hi: nat): (r: seq<nat>)
    requires lo <= hi
    ensures |r| == hi - lo
    ensures forall i :: 0 <= i < |r| ==> r[i] == lo + i
  {
    seq(hi - lo, i requires 0 <= i < hi - lo => lo + i)
  }

  /** The step indices of the Send events of a trace, in trace order. */
  function SendIndices(t: seq<Event>): seq<nat> {
    if |t| == 0 then []
    else (if t[0].Send? then [t[0].index] else []) + SendIndices(t[1..])
  }

  function CountStops(t: seq<Event>): nat {
    if |t| == 0 then 0 else (if t[0] == Stop then 1 else 0) + CountStops(t[1..])
  }

  /** The total number of seconds waited in a trace. */
  function Elapsed(t: seq<Event>): int {
    if |t| == 0 then 0 else (if t[0].Wait? then t[0].seconds else 0) + Elapsed(t[1..])
  }

  /** The sum of the delays (minutes) of a list of steps. */
  function SumDelays(steps: seq<Step>): int {
    if |steps| == 0 then 0 else steps[0].delay + SumDelays(steps[1..])
  }

  lemma SendIndicesAppend(a: seq<Event>, b: seq<Event>)
    ensures SendIndices(a + b) == SendIndices(a) + SendIndices(b)
  {
    if |a| > 0 {
      assert (a + b)[1..] == a[1..] + b;
      SendIndicesAppend(a[1..], b);
    } else {
      assert a + b == b;
    }
  }

  lemma CountStopsAppend(a: seq<Event>, b: seq<Event>)
    ensures CountStops(a + b) == CountStops(a) + CountStops(b)
  {
    if |a| > 0 {
      assert (a + b)[1..] == a[1..] + b;
      CountStopsAppend(a[1..], b);
    } else {
      assert a + b == b;
    }
  }

  lemma ElapsedAppend(a: seq<Event>, b: seq<Event>)
    ensures Elapsed(a + b) == Elapsed(a) + Elapsed(b)
  {
    if |a| > 0 {
      assert (a + b)[1..] == a[1..] + b;
      ElapsedAppend(a[1..], b);
    } else {
      assert a + b == b;
    }
  }

  /** A wait and a send of step k put k in front of the rest's send indices. */
  lemma SendAfterWait(wait: Event, k: nat, ok: bool, rest: seq<Event>)
    requires wait.Wait?
    ensures SendIndices([wait, Send(k, ok)] + rest) == [k] + SendIndices(rest)
  {
    var head := [wait, Send(k, ok)];
    SendIndicesAppend(head, rest);
    assert head[1..] == [Send(k, ok)] && head[1..][1..] == [];
  }

  lemma RangeCons(lo: nat, hi: nat)
    requires lo < hi
    ensures [lo] + Range(lo + 1, hi) == Range(lo, hi)
  {
  }

  /** What send_recovery returns for each listed step, with that step's collaborators. */
  function SendOutcomes(steps: seq<Step>, rounds: seq<Round>): (r: seq<bool>)
    requires |steps| <= |rounds|
    requires forall i :: 0 <= i < |steps| ==> ValidSendEnv(rounds[i].send)
    ensures |r| == |steps|
  {
    seq(|steps|, i requires 0 <= i < |steps| => SendRecovery(steps[i], rounds[i].send).ok)
  }

  /**
   The loop of process_recovery_sequence from step `k` on
   (modules/recovery_system.py:102-124); `sent[i]` is what the send of step i
   returns, read only when that send is reached.
   */
  function Loop(steps: seq<Step>, rounds: seq<Round>, sent: seq<bool>, stopFaults: bool, k: nat): (r: Run)
    requires k <= |steps| <= |rounds|
    requires |steps| <= |sent|
    // sends are attempted for consecutive steps from k, in order, up to where the run ended
    ensures k <= Reached(r.exit, |steps|) <= |steps|
    ensures SendIndices(r.trace) == Range(k, Reached(r.exit, |steps|))
    ensures !r.exit.NoSteps? && !r.exit.ListingFailed?
    decreases |steps| - k
  {
    if k == |steps| then
      if stopFaults then Run([Stop, Stop], StopFailed) else Run([Stop], Finished)
    else
      var wait := Wait(steps[k].delay * 60);
      match rounds[k].observed
      case LookupFault =>
        assert [wait, Stop][1..] == [Stop] && [Stop][1..] == [];
        assert SendIndices([wait, Stop]) == [];
        Run([wait, Stop], CheckFailed(k))
      case Untracked => Run([wait], Cancelled(k))
      case Tracked(row) =>
        if row.status != Active then Run([wait], Cancelled(k))
        else
          var ok := sent[k];
          var rest := Loop(steps, rounds, sent, stopFaults, k + 1);
          var head := [wait, Send(k, ok)];
          SendAfterWait(wait, k, ok, rest.trace);
          RangeCons(k, Reached(rest.exit, |steps|));
          Run(head + rest.trace, rest.exit)
  }

  /** The loop past the last step: stop tracking, once more if the first call raised. */
  lemma LoopAtEnd(steps: seq<Step>, rounds: seq<Round>, sent: seq<bool>, stopFaults: bool)
    requires |steps| <= |rounds|
    requires |steps| <= |sent|
    ensures Loop(steps, rounds, sent, stopFaults, |steps|)
      == if stopFaults then Run([Stop, Stop], StopFailed) else Run([Stop], Finished)
  {
  }

  /** A check that finds no active row ends the loop after the step's wait. */
  lemma LoopHalts(steps: seq<Step>, rounds: seq<Round>, sent: seq<bool>, stopFaults: bool, k: nat)
    requires k < |steps| <= |rounds|
    requires |steps| <= |sent|
    requires !Live(rounds[k].observed)
    ensures Loop(steps, rounds, sent, stopFaults, k)
      == if rounds[k].observed.LookupFault? then Run([Wait(steps[k].delay * 60), Stop], CheckFailed(k))
         else Run([Wait(steps[k].delay * 60)], Cancelled(k))
  {
  }

  /** A check that finds an active row: wait, send step k, then the loop from k + 1. */
  lemma LoopGoesOn(steps: seq<Step>, rounds: seq<Round>, sent: seq<bool>, stopFaults: bool, k: nat)
    requires k < |steps| <= |rounds|
    requires |steps| <= |sent|
    requires Live(rounds[k].observed)
    ensures var rest := Loop(steps, rounds, sent, stopFaults, k + 1);
      var ok := sent[k];
      Loop(steps, rounds, sent, stopFaults, k) == Run([Wait(steps[k].delay * 60), Send(k, ok)] + rest.trace, rest.exit)
  {
  }

  /** Prefixing stop-free events changes nothing about the stops of a trace. */
  lemma StopFreePrefix(head: seq<Event>, rest: seq<Event>)
    requires Stop !in head
    ensures (Stop in head + rest) <==> (Stop in rest)
    ensures CountStops(head + rest) == CountStops(rest)
    ensures |rest| > 0 ==> (head + rest)[|head + rest| - 1] == rest[|rest| - 1]
  {
    CountStopsAppend(head, rest);
    CountStopsZero(head);
  }

  lemma CountStopsZero(t: seq<Event>)
    requires Stop !in t
    ensures CountStops(t) == 0
  {
    if |t| > 0 {
      assert t[0] in t;
      assert forall e :: e in t[1..] ==> e in t;
      CountStopsZero(t[1..]);
    }
  }

  /** Tracking is stopped on the exits that clean up, and only there; once on completion. */
  predicate StopsOnCleanup(r: Run) {
    && ((Stop in r.trace) <==> Cleans(r.exit))
    && (r.exit.Finished? ==> CountStops(r.trace) == 1 && r.trace[|r.trace| - 1] == Stop)
    && (r.exit.StopFailed? ==> CountStops(r.trace) == 2 && r.trace[|r.trace| - 1] == Stop)
  }

  lemma {:induction false} LoopStops(steps: seq<Step>, rounds: seq<Round>, sent: seq<bool>, stopFaults: bool, k: nat)
    requires k <= |steps| <= |rounds|
    requires |steps| <= |sent|
    ensures StopsOnCleanup(Loop(steps, rounds, sent, stopFaults, k))
    decreases |steps| - k
  {
    if k == |steps| {
      LoopAtEnd(steps, rounds, sent, stopFaults);
      assert [Stop, Stop][1..] == [Stop] && [Stop][1..] == [];
    } else if Live(rounds[k].observed) {
      var rest := Loop(steps, rounds, sent, stopFaults, k + 1);
      LoopGoesOn(steps, rounds, sent, stopFaults, k);
      LoopStops(steps, rounds, sent, stopFaults, k + 1);
      StopsAfterPrefix([Wait(steps[k].delay * 60), Send(k, sent[k])], rest);
    } else {
      LoopHalts(steps, rounds, sent, stopFaults, k);
    }
  }

  lemma StopsAfterPrefix(head: seq<Event>, rest: Run)
    requires Stop !in head
    requires StopsOnCleanup(rest)
    ensures StopsOnCleanup(Run(head + rest.trace, rest.exit))
  {
    StopFreePrefix(head, rest.trace);
  }

  /** `process_recovery_sequence(context, user_id, bot_id)` (modules/recovery_system.py:90-129). */
  function Process(env: ProcessEnv): (r: Run)
    requires ValidEnv(env)
    ensures env.listed.None? ==> r == Run([Stop], ListingFailed)
    ensures env.listed == Some([]) ==> r == Run([], NoSteps)
    // the steps sent are a prefix of the list, each attempted once, in list order
    ensures env.listed.Some? ==>
      Reached(r.exit, |env.listed.value|) <= |env.listed.value|
      && SendIndices(r.trace) == Range(0, Reached(r.exit, |env.listed.value|))
    // stop is called on completion and on an escaping exception, never on the early return
    ensures (Stop in r.trace) <==> Cleans(r.exit)
    ensures r.exit.Finished? ==> CountStops(r.trace) == 1 && r.trace[|r.trace| - 1] == Stop
  {
    match env.listed
    case None => Run([Stop], ListingFailed)
    case Some(steps) =>
      if |steps| == 0 then Run([], NoSteps)
      else
        var sent := SendOutcomes(steps, env.rounds);
        LoopStops(steps, env.rounds, sent, env.stopFaults, 0);
        Loop(steps, env.rounds, sent, env.stopFaults, 0)
  }
}

module SequencerProperties {
  import opened Wrappers
  import opened Recovery
  import opened Sequencer

  // ---------------------------------------------------------------- cancellation

  /**
   The exit of the loop from step k is decided by the first post-wait check,
   at or after k, that does not find an active row.
   */
  lemma {:induction false} LoopExit(steps: seq<Step>, rounds: seq<Round>, sent: seq<bool>, stopFaults: bool, k: nat)
    requires k <= |steps| <= |rounds|
    requires |steps| <= |sent|
    ensures var r := Loop(steps, rounds, sent, stopFaults, k);
      var j := Reached(r.exit, |steps|);
      && (forall i :: k <= i < j ==> Live(rounds[i].observed))
      && (j < |steps| ==>
            && !Live(rounds[j].observed)
            && r.exit == (if rounds[j].observed.LookupFault? then CheckFailed(j) else Cancelled(j)))
      && (j == |steps| ==> r.exit == (if stopFaults then StopFailed else Finished))
    decreases |steps| - k
  {
    if k < |steps| && Live(rounds[k].observed) {
      LoopExit(steps, rounds, sent, stopFaults, k + 1);
    }
  }

  /**
   The sequence is cancelled after step j's wait exactly when every earlier
   check found an active row and step j's check found none (without raising).
   */
  lemma CancelledIff(env: ProcessEnv, j: nat)
    requires ValidEnv(env) && env.listed.Some? && |env.listed.value| > 0
    ensures Process(env).exit == Cancelled(j) <==>
      && j < |env.listed.value|
      && (forall i :: 0 <= i < j ==> Live(env.rounds[i].observed))
      && !Live(env.rounds[j].observed)
      && !env.rounds[j].observed.LookupFault?
  {
    LoopExit(env.listed.value, env.rounds, SendOutcomes(env.listed.value, env.rounds), env.stopFaults, 0);
  }

  /** The sequence runs to the end exactly when every check found an active row. */
  lemma CompletesIff(env: ProcessEnv)
    requires ValidEnv(env) && env.listed.Some? && |env.listed.value| > 0
    ensures var r := Process(env);
      (r.exit.Finished? || r.exit.StopFailed?) <==>
        forall i :: 0 <= i < |env.listed.value| ==> Live(env.rounds[i].observed)
  {
    var steps := env.listed.value;
    var r := Process(env);
    LoopExit(steps, env.rounds, SendOutcomes(steps, env.rounds), env.stopFaults, 0);
    var j := Reached(r.exit, |steps|);
    if j < |steps| {
      assert !Live(env.rounds[j].observed);
    }
  }

  /** After a cancelling check at step j, step j and every later step go unsent and stop is not called. */
  lemma CancelledSendsNothingMore(env: ProcessEnv, j: nat)
    requires ValidEnv(env) && env.listed.Some?
    requires Process(env).exit == Cancelled(j)
    ensures forall e :: e in Process(env).trace ==> e != Stop && (e.Send? ==> e.index < j)
  {
    var r := Process(env);
    forall e | e in r.trace
      ensures e != Stop && (e.Send? ==> e.index < j)
    {
      if e.Send? {
        SendIndexMember(r.trace, e);
      }
    }
  }

  lemma SendIndexMember(t: seq<Event>, e: Event)
    requires e in t && e.Send?
    ensures e.index in SendIndices(t)
  {
    if t[0] != e {
      SendIndexMember(t[1..], e);
    }
  }

  // ---------------------------------------------------------------- timing

  /** Every send in `t` is of a step from k on, after 60 * (delay[k] + ... + delay[i]) seconds. */
  ghost predicate SendsTimed(steps: seq<Step>, k: nat, t: seq<Event>)
    requires k <= |steps|
  {
    forall p :: 0 <= p < |t| && t[p].Send? ==>
      && k <= t[p].index < |steps|
      && Elapsed(t[..p]) == 60 * SumDelays(steps[k..t[p].index + 1])
  }

  /**
   Before the send of step i, the loop from k has waited 60 times the sum of
   the delays of steps k..i: each wait is the step's own delay, one after the other.
   */
  lemma {:induction false} LoopElapsed(steps: seq<Step>, rounds: seq<Round>, sent: seq<bool>, stopFaults: bool, k: nat)
    requires k <= |steps| <= |rounds|
    requires |steps| <= |sent|
    ensures SendsTimed(steps, k, Loop(steps, rounds, sent, stopFaults, k).trace)
    decreases |steps| - k
  {
    var t := Loop(steps, rounds, sent, stopFaults, k).trace;
    if k < |steps| && Live(rounds[k].observed) {
      var rest := Loop(steps, rounds, sent, stopFaults, k + 1).trace;
      LoopElapsed(steps, rounds, sent, stopFaults, k + 1);
      assert t == [Wait(steps[k].delay * 60), t[1]] + rest && t[1].Send? && t[1].index == k;
      TimedCons(steps, k, t[1], rest);
    } else if k < |steps| {
      var wait := Wait(steps[k].delay * 60);
      if rounds[k].observed.LookupFault? {
        assert t == [wait, Stop];
      } else {
        assert t == [wait];
      }
    } else {
      assert t == [Stop] || t == [Stop, Stop];
    }
  }

  /** One more wait and send in front of a timed trace keeps it timed. */
  lemma TimedCons(steps: seq<Step>, k: nat, send: Event, rest: seq<Event>)
    requires k < |steps|
    requires send.Send? && send.index == k
    requires SendsTimed(steps, k + 1, rest)
    ensures SendsTimed(steps, k, [Wait(steps[k].delay * 60), send] + rest)
  {
    var wait := Wait(steps[k].delay * 60);
    var t := [wait, send] + rest;
    forall p | 0 <= p < |t| && t[p].Send?
      ensures k <= t[p].index < |steps|
      ensures Elapsed(t[..p]) == 60 * SumDelays(steps[k..t[p].index + 1])
    {
      if p == 1 {
        assert t[..1] == [wait];
        assert steps[k..k + 1] == [steps[k]];
      } else {
        var q := p - 2;
        var i := t[p].index;
        assert t[p] == rest[q];
        assert k + 1 <= i < |steps| && Elapsed(rest[..q]) == 60 * SumDelays(steps[k + 1..i + 1]);
        assert t[..p] == [wait, send] + rest[..q];
        ElapsedAppend([wait, send], rest[..q]);
        assert [wait, send][1..] == [send] && [send][1..] == [];
        assert Elapsed([wait, send]) == steps[k].delay * 60;
        var span := steps[k..i + 1];
        assert span[0] == steps[k] && span[1..] == steps[k + 1..i + 1];
        assert SumDelays(span) == steps[k].delay + SumDelays(steps[k + 1..i + 1]);
      }
    }
  }

  /** The send of step i happens 60 * (delay[0] + ... + delay[i]) seconds into the sequence. */
  lemma ElapsedBeforeSend(env: ProcessEnv, p: nat)
    requires ValidEnv(env) && env.listed.Some?
    requires p < |Process(env).trace| && Process(env).trace[p].Send?
    ensures var i := Process(env).trace[p].index;
      && i < |env.listed.value|
      && Elapsed(Process(env).trace[..p]) == 60 * SumDelays(env.listed.value[..i + 1])
  {
    var steps := env.listed.value;
    assert |steps| > 0 && Process(env) == Loop(steps, env.rounds, SendOutcomes(steps, env.rounds), env.stopFaults, 0);
    LoopElapsed(steps, env.rounds, SendOutcomes(steps, env.rounds), env.stopFaults, 0);
    assert steps[0..] == steps;
  }

  // ---------------------------------------------------------------- failed sends

  /** A trace with every send outcome forgotten. */
  function Erase(t: seq<Event>): (r: seq<Event>)
    ensures |r| == |t|
  {
    if |t| == 0 then []
    else [if t[0].Send? then Send(t[0].index, true) else t[0]] + Erase(t[1..])
  }

  /**
   What send_recovery returns never changes what the loop does next: two runs
   that observe the same tracking rows wait, attempt sends and stop alike,
   whatever their sends returned.
   */
  lemma {:induction false} SendResultsIgnored(steps: seq<Step>, a: seq<Round>, b: seq<Round>,
                                               sentA: seq<bool>, sentB: seq<bool>, stopFaults: bool, k: nat)
    requires k <= |steps| <= |a| && |steps| <= |b|
    requires |steps| <= |sentA| && |steps| <= |sentB|
    requires forall i :: 0 <= i < |steps| ==> a[i].observed == b[i].observed
    ensures Loop(steps, a, sentA, stopFaults, k).exit == Loop(steps, b, sentB, stopFaults, k).exit
    ensures Erase(Loop(steps, a, sentA, stopFaults, k).trace) == Erase(Loop(steps, b, sentB, stopFaults, k).trace)
    decreases |steps| - k
  {
    if k == |steps| {
      LoopAtEnd(steps, a, sentA, stopFaults);
      LoopAtEnd(steps, b, sentB, stopFaults);
    } else if Live(a[k].observed) {
      var restA := Loop(steps, a, sentA, stopFaults, k + 1);
      var restB := Loop(steps, b, sentB, stopFaults, k + 1);
      LoopGoesOn(steps, a, sentA, stopFaults, k);
      LoopGoesOn(steps, b, sentB, stopFaults, k);
      SendResultsIgnored(steps, a, b, sentA, sentB, stopFaults, k + 1);
      ErasedAlike(Wait(steps[k].delay * 60), k, sentA[k], sentB[k], restA, restB);
    } else {
      LoopHalts(steps, a, sentA, stopFaults, k);
      LoopHalts(steps, b, sentB, stopFaults, k);
    }
  }

  /** A wait and a send in front of two runs that differ only in send outcomes keep them so. */
  lemma ErasedAlike(wait: Event, k: nat, okA: bool, okB: bool, restA: Run, restB: Run)
    requires wait.Wait?
    requires restA.exit == restB.exit && Erase(restA.trace) == Erase(restB.trace)
    ensures Erase([wait, Send(k, okA)] + restA.trace) == Erase([wait, Send(k, okB)] + restB.trace)
  {
    EraseSend(wait, k, okA, restA.trace);
    EraseSend(wait, k, okB, restB.trace);
  }

  lemma EraseSend(wait: Event, k: nat, ok: bool, rest: seq<Event>)
    requires wait.Wait?
    ensures Erase([wait, Send(k, ok)] + rest) == [wait, Send(k, true)] + Erase(rest)
  {
    var t := [wait, Send(k, ok)] + rest;
    assert t[1..] == [Send(k, ok)] + rest && t[1..][1..] == rest;
  }

  // ---------------------------------------------------------------- the store

  /** The tracking store after the routine's own stop calls. */
  function ApplyStops(store: Store, key: Key, t: seq<Event>, policy: StopPolicy): Store {
    if |t| == 0 then store
    else ApplyStops(if t[0] == Stop then StopTracking(store, key, policy) else store, key, t[1..], policy)
  }

  lemma {:induction false} ApplyStopsEffect(store: Store, key: Key, t: seq<Event>, policy: StopPolicy)
    ensures Stop !in t ==> ApplyStops(store, key, t, policy) == store
    ensures Stop in t ==> var s := ApplyStops(store, key, t, policy);
      && (key in s ==> s[key].status != Active)
      && (policy.DeleteRow? ==> key !in s)
      && (policy.MarkStopped? ==> (key in s <==> key in store))
    ensures forall k :: k in store && k != key ==>
      (k in ApplyStops(store, key, t, policy) && ApplyStops(store, key, t, policy)[k] == store[k])
    decreases |t|
  {
    if |t| > 0 {
      var next := if t[0] == Stop then StopTracking(store, key, policy) else store;
      ApplyStopsEffect(next, key, t[1..], policy);
      if Stop in t && Stop !in t[1..] {
        assert t[0] == Stop;
      }
      if Stop !in t {
        assert forall e :: e in t[1..] ==> e in t;
      }
    }
  }

  /**
   After a run that ends on a cleaning path no active row is left for the pair.
   If stopping deletes the row, a later start launches a new sequence; if it
   only marks the row stopped, no later start ever launches one, because start
   does not look at the status.
   */
  lemma RestartAfterCleanup(env: ProcessEnv, store: Store, user: UserId, bot: BotId,
                            policy: StopPolicy, steps: seq<Step>, now: int, fault: StartFault)
    requires ValidEnv(env)
    requires (user, bot) in store
    requires Cleans(Process(env).exit)
    ensures var after := ApplyStops(store, (user, bot), Process(env).trace, policy);
      && ((user, bot) in after ==> after[(user, bot)].status != Active)
      && (policy.DeleteRow? ==> (Start(after, user, bot, steps, now, StartsCleanly).launched <==> |steps| > 0))
      && (policy.MarkStopped? ==> !Start(after, user, bot, steps, now, fault).launched)
  {
    ApplyStopsEffect(store, (user, bot), Process(env).trace, policy);
  }

  /**
   On the early-return paths (cancellation, empty listing) the routine leaves
   the store as it found it: an active row left there by an empty listing
   stays active and blocks every later start.
   */
  lemma NoCleanupOnEarlyReturn(env: ProcessEnv, store: Store, user: UserId, bot: BotId,
                               policy: StopPolicy, steps: seq<Step>, now: int, fault: StartFault)
    requires ValidEnv(env)
    requires Process(env).exit.Cancelled? || Process(env).exit.NoSteps?
    ensures ApplyStops(store, (user, bot), Process(env).trace, policy) == store
    ensures (user, bot) in store ==> !Start(store, user, bot, steps, now, fault).launched
  {
    ApplyStopsEffect(store, (user, bot), Process(env).trace, policy);
  }
}
