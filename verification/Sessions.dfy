/** The session manager: every two minutes it connects, keeps or stops the timing client. */
module Sessions {
  import opened Wrappers

  /** Seconds. The client runs from one buffer before a session to four buffers after it. */
  const BUFFER: int := 14 * 60

  const ENDED_COUNT_TO_FINISH: nat := 5

  datatype Session = Session(uid: string, start: int, end: int)

  /** What a check finds: the time, the schedule, whether the state's session has finished, and whether the store fails. */
  datatype Check = Check(now: int, schedule: seq<Session>, finished: bool, lookupFails: bool, addFails: bool)

  /** running: the client's flag. ended: sessionEndedCount. completed: the store's set, None without a store. */
  datatype State = State(running: bool, ended: nat, completed: Option<set<string>>)

  /** A check, or the client giving up on its own. */
  datatype Event = Tick(check: Check) | ClientExits

  predicate IsOpen(s: Session, now: int) {
    s.start - BUFFER < now < s.end + 4 * BUFFER
  }

  /** The first session of the schedule whose window is open. */
  function Active(schedule: seq<Session>, now: int): Option<Session> {
    if schedule == [] then None
    else if IsOpen(schedule[0], now) then Some(schedule[0])
    else Active(schedule[1..], now)
  }

  predicate KnownCompleted(m: State, c: Check, uid: string) {
    m.completed.Some? && !c.lookupFails && uid in m.completed.value
  }

  /** The finished check of a tick: a client that has just connected looks at an empty state. */
  predicate SeesFinished(m: State, c: Check) {
    m.running && c.finished
  }

  /** The check finds an open session that is not known to be completed. */
  predicate Watches(m: State, c: Check) {
    var active := Active(c.schedule, c.now);
    active.Some? && !KnownCompleted(m, c, active.value.uid)
  }

  /** The tick ends the session. */
  predicate Finalises(m: State, c: Check) {
    Watches(m, c) && SeesFinished(m, c) && m.ended + 1 >= ENDED_COUNT_TO_FINISH
  }

  function AfterTick(m: State, c: Check): State {
    var active := Active(c.schedule, c.now);
    if active.None? then (if m.running then m.(running := false, ended := 0) else m)
    else if KnownCompleted(m, c, active.value.uid) then m.(running := false)
    else
      var ended := if SeesFinished(m, c) then m.ended + 1 else 0;
      if ended < ENDED_COUNT_TO_FINISH then m.(running := true, ended := ended)
      else
        State(false, 0,
              if m.completed.Some? && !c.addFails then Some(m.completed.value + {active.value.uid}) else m.completed)
  }

  function Next(m: State, ev: Event): State {
    match ev
    case Tick(c) => AfterTick(m, c)
    case ClientExits => m.(running := false)
  }

  function Run(m: State, evs: seq<Event>): State {
    if evs == [] then m else Next(Run(m, evs[..|evs| - 1]), evs[|evs| - 1])
  }

  // ---- the object ----

  /** findActiveEvent. */
  method FindActiveEvent(schedule: seq<Session>, now: int) returns (active: Option<Session>)
    ensures active == Active(schedule, now)
    ensures active.None? <==> forall i :: 0 <= i < |schedule| ==> !IsOpen(schedule[i], now)
    ensures active.Some? ==> exists i :: 0 <= i < |schedule| && schedule[i] == active.value && IsOpen(schedule[i], now)
                                         && forall j :: 0 <= j < i ==> !IsOpen(schedule[j], now)
  {
    for i := 0 to |schedule|
      invariant forall j :: 0 <= j < i ==> !IsOpen(schedule[j], now)
      invariant Active(schedule, now) == Active(schedule[i..], now)
    {
      if IsOpen(schedule[i], now) {
        return Some(schedule[i]);
      }
      assert schedule[i..][1..] == schedule[i + 1..];
    }
    return None;
  }

  class Manager {
    var running: bool
    var sessionEndedCount: nat
    /** The completed sessions in the store, None without a store. */
    var completed: Option<set<string>>

    ghost function Abs(): State
      reads this
    {
      State(running, sessionEndedCount, completed)
    }

    constructor (completed: Option<set<string>>)
      ensures Abs() == State(false, 0, completed)
    {
      running, sessionEndedCount, this.completed := false, 0, completed;
    }

    /** handleFinalisedSessionCheck; finished is what the global state says now. */
    method HandleFinalisedSessionCheck(active: Session, finished: bool, addFails: bool) returns (done: bool)
      requires running
      modifies this
      ensures var ended := if finished then old(sessionEndedCount) + 1 else 0;
              && done == (ended >= ENDED_COUNT_TO_FINISH)
              && running == !done
              && sessionEndedCount == (if done then 0 else ended)
              && completed == if done && old(completed).Some? && !addFails then Some(old(completed).value + {active.uid})
                              else old(completed)
    {
      if finished {
        sessionEndedCount := sessionEndedCount + 1;
      } else {
        sessionEndedCount := 0;
      }
      if sessionEndedCount >= ENDED_COUNT_TO_FINISH {
        if completed.Some? && !addFails {
          completed := Some(completed.value + {active.uid});
        }
        running := false;
        sessionEndedCount := 0;
        return true;
      }
      return false;
    }

    /** checkAndManageConnection. Connecting resets the global state, which is then not finished. */
    method CheckAndManageConnection(c: Check)
      modifies this
      ensures Abs() == AfterTick(old(Abs()), c)
    {
      var active := FindActiveEvent(c.schedule, c.now);
      if active.Some? {
        if completed.Some? && !c.lookupFails && active.value.uid in completed.value {
          if running {
            running := false;
          }
          return;
        }
        var finished := c.finished;
        if !running {
          finished := false;
          running := true;
        }
        var _ := HandleFinalisedSessionCheck(active.value, finished, c.addFails);
      } else if running {
        running := false;
        sessionEndedCount := 0;
      }
    }
  }

  // ---- what one check does ----

  /** From 14 minutes before the session to 56 minutes after it, in seconds, the ends not included. */
  predicate InWindow(s: Session, now: int) {
    now > s.start - 840 && now < s.end + 3360
  }

  /** Without a session in its window a running client is stopped and the count cleared; otherwise nothing happens. */
  lemma NoSessionOpen(m: State, c: Check)
    requires forall i :: 0 <= i < |c.schedule| ==> !InWindow(c.schedule[i], c.now)
    ensures AfterTick(m, c) == if m.running then State(false, 0, m.completed) else m
  {
    if Active(c.schedule, c.now).Some? { ActiveIsScheduled(c.schedule, c.now); }
  }

  /** With session i the first one in its window: one that the store says is completed has the client stopped; any other
      has it running with the count of finished checks, until the fifth in a row stops it, clears the count and completes
      the session if there is a store that takes it. A client that did not run looks at an empty state. */
  lemma SessionOpen(m: State, c: Check, i: nat)
    requires i < |c.schedule| && InWindow(c.schedule[i], c.now)
    requires forall j :: 0 <= j < i ==> !InWindow(c.schedule[j], c.now)
    ensures var uid, after := c.schedule[i].uid, AfterTick(m, c);
            if m.completed.Some? && uid in m.completed.value && !c.lookupFails
            then after == State(false, m.ended, m.completed)
            else if !m.running || !c.finished then after == State(true, 0, m.completed)
            else if m.ended <= 3 then after == State(true, m.ended + 1, m.completed)
            else after == State(false, 0, if m.completed.Some? && !c.addFails then Some(m.completed.value + {uid})
                                          else m.completed)
  {
    FirstIsActive(c.schedule, c.now, i);
  }

  lemma {:induction false} FirstIsActive(schedule: seq<Session>, now: int, i: nat)
    requires i < |schedule| && InWindow(schedule[i], now)
    requires forall j :: 0 <= j < i ==> !InWindow(schedule[j], now)
    ensures Active(schedule, now) == Some(schedule[i])
  {
    if i > 0 {
      FirstIsActive(schedule[1..], now, i - 1);
    }
  }

  // ---- what holds over every sequence of checks ----

  /** The outcomes of the finished checks since the client connected. */
  function ChecksSinceConnect(m: State, evs: seq<Event>): seq<bool> {
    if evs == [] then []
    else
      var n := |evs| - 1;
      var before := Run(m, evs[..n]);
      match evs[n]
      case Tick(c) =>
        if !Watches(before, c) then []
        else if before.running then ChecksSinceConnect(m, evs[..n]) + [c.finished]
        else [false]
      case ClientExits => []
  }

  /** How many of the last checks were true. */
  function Trailing(checks: seq<bool>): (n: nat)
    ensures n <= |checks|
    ensures forall i :: |checks| - n <= i < |checks| ==> checks[i]
    ensures n < |checks| ==> !checks[|checks| - n - 1]
  {
    if checks == [] || !checks[|checks| - 1] then 0 else 1 + Trailing(checks[..|checks| - 1])
  }

  /** Between checks the count is below five and, while the client runs, it is the number of finished checks in a row
      since it connected. */
  lemma {:induction false} CountIsTrailingRun(completed: Option<set<string>>, evs: seq<Event>)
    ensures var m := Run(State(false, 0, completed), evs);
            && m.ended < ENDED_COUNT_TO_FINISH
            && (m.running ==> m.ended == Trailing(ChecksSinceConnect(State(false, 0, completed), evs)))
  {
    hide Active, KnownCompleted;
    if evs != [] {
      var start, n := State(false, 0, completed), |evs| - 1;
      CountIsTrailingRun(completed, evs[..n]);
      var before := Run(start, evs[..n]);
      if evs[n].Tick? && Watches(before, evs[n].check) && before.running {
        var checks, finished := ChecksSinceConnect(start, evs[..n]), evs[n].check.finished;
        assert (checks + [finished])[..|checks|] == checks;
      }
    }
  }

  /** A session is finalised by the fifth finished check in a row, and not before: exactly when the client was running,
      its last four checks were true and this one is. */
  lemma FinalisationNeedsFive(completed: Option<set<string>>, evs: seq<Event>, c: Check)
    ensures var start := State(false, 0, completed);
            var m, checks := Run(start, evs), ChecksSinceConnect(start, evs);
            Finalises(m, c) <==> Watches(m, c) && m.running && c.finished
                                 && |checks| >= 4 && forall i :: |checks| - 4 <= i < |checks| ==> checks[i]
  {
    hide Active, KnownCompleted, Run, ChecksSinceConnect;
    CountIsTrailingRun(completed, evs);
    var start := State(false, 0, completed);
    var checks := ChecksSinceConnect(start, evs);
    var t := Trailing(checks);
    if t < 4 && |checks| >= 4 {
      assert !checks[|checks| - t - 1];
    }
  }

  /** What a finalising tick does, and that no other tick completes a session. */
  lemma OnlyFinalisationCompletes(m: State, c: Check)
    requires m.ended < ENDED_COUNT_TO_FINISH
    ensures AfterTick(m, c).completed != m.completed ==> Finalises(m, c)
    ensures Finalises(m, c) ==> AfterTick(m, c).running == false && AfterTick(m, c).ended == 0
    ensures Watches(m, c) && !Finalises(m, c) ==> AfterTick(m, c).running
  {
    hide Active, KnownCompleted;
  }

  /** A client that runs after a check runs inside the window of a scheduled session that is not known to be completed. */
  lemma RunningMeansOpenWindow(m: State, c: Check)
    requires AfterTick(m, c).running
    ensures Watches(m, c)
    ensures exists i :: 0 <= i < |c.schedule| && IsOpen(c.schedule[i], c.now)
                        && Active(c.schedule, c.now) == Some(c.schedule[i])
  {
    ActiveIsScheduled(c.schedule, c.now);
  }

  lemma {:induction false} ActiveIsScheduled(schedule: seq<Session>, now: int)
    requires Active(schedule, now).Some?
    ensures exists i :: 0 <= i < |schedule| && IsOpen(schedule[i], now) && Active(schedule, now) == Some(schedule[i])
  {
    if !IsOpen(schedule[0], now) {
      ActiveIsScheduled(schedule[1..], now);
      var i :| 0 <= i < |schedule| - 1 && IsOpen(schedule[1..][i], now)
        && Active(schedule[1..], now) == Some(schedule[1..][i]);
      assert schedule[i + 1] == schedule[1..][i];
    }
  }

  lemma {:induction false} CompletedStays(m: State, evs: seq<Event>)
    ensures m.completed.Some? <==> Run(m, evs).completed.Some?
    ensures m.completed.Some? ==> m.completed.value <= Run(m, evs).completed.value
  {
    hide Active, KnownCompleted, SeesFinished;
    if evs != [] {
      CompletedStays(m, evs[..|evs| - 1]);
    }
  }

  /** Once a session is completed, no later check that finds it active, whatever happened in between, leaves the
      client running, unless the store cannot be asked. */
  lemma CompletedSessionNeverRuns(m: State, evs: seq<Event>, c: Check, uid: string)
    requires m.completed.Some? && uid in m.completed.value
    requires Active(c.schedule, c.now).Some? && Active(c.schedule, c.now).value.uid == uid && !c.lookupFails
    ensures !AfterTick(Run(m, evs), c).running
  {
    hide Active, Run;
    CompletedStays(m, evs);
  }

  /** Whether a check connects or keeps the client: an open session that the store does not say is completed, unless the
      check ends it. */
  lemma RunsAfterIff(m: State, c: Check)
    ensures AfterTick(m, c).running <==> Watches(m, c) && !Finalises(m, c)
  {
  }

  /** The check after a session was finalised, while its window is still open, connects to it again exactly when the
      store cannot be asked, when there is none, or when it did not take the session and did not have it before. */
  lemma FinalisedSessionRestartsIff(m: State, c: Check, next: Check)
    requires Finalises(m, c) && Active(next.schedule, next.now) == Active(c.schedule, c.now)
    ensures !AfterTick(m, c).running
    ensures AfterTick(AfterTick(m, c), next).running
            <==> next.lookupFails || m.completed.None?
                 || (c.addFails && Active(c.schedule, c.now).value.uid !in m.completed.value)
  {
    hide Active;
  }

  /** A session that the store took stays off through every later check that finds it active and can ask the store. */
  lemma FinalisedSessionStaysOff(m: State, c: Check, evs: seq<Event>, later: Check)
    requires Finalises(m, c) && m.completed.Some? && !c.addFails
    requires Active(later.schedule, later.now).Some? && !later.lookupFails
    requires Active(later.schedule, later.now).value.uid == Active(c.schedule, c.now).value.uid
    ensures !AfterTick(Run(AfterTick(m, c), evs), later).running
  {
    hide Active, Run;
    CompletedSessionNeverRuns(AfterTick(m, c), evs, later, Active(c.schedule, c.now).value.uid);
  }
}
