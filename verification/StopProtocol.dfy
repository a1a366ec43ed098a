/** The stop and teardown protocol of hev-socks5-tunnel.c, as interleaved atomic steps. */
module StopProtocol {

  type Id = nat

  /** Where the thread that calls init, run and fini is. The event task runs inside run. */
  datatype Phase =
    | Down        // no tunnel
    | Opening     // init, before the event sockets exist
    | Opened      // init, sockets exist, SEND not yet published
    | Ready       // init returned
    | Started     // run has tested STOP; the event task waits for a byte
    | GotByte     // the event task has read, SENT not yet cleared
    | Stopping    // SENT cleared, the tasks come to an end
    | Fini        // fini, before its first test of WAIT
    | Retrying    // fini found WAIT set and tries again
    | Tearing     // fini found WAIT clear and releases everything

  /** Where a caller of stop is. */
  datatype Pc =
    | Start                      // about to set WAIT
    | SawSend                    // holds WAIT, saw SEND, about to set SENT
    | Writing                    // holds WAIT, was first to set SENT, about to write a byte
    | Storing                    // holds WAIT, saw SEND clear, about to set STOP
    | Leaving(sawSend: bool)     // holds WAIT, about to clear it and return

  datatype Holder = Nobody | Caller(id: Id)

  /** The four bits of `tsync`, the event sockets and the threads. `written` and `read` count the bytes of
      one lifetime of the sockets. `holder` records who set WAIT last; no step looks at it. */
  datatype State = State(
    send: bool, sent: bool, wait: bool, stop: bool,
    open: bool, written: nat, read: nat,
    phase: Phase, callers: map<Id, Pc>, holder: Holder)

  datatype Step =
    | Call(i: Id) | TakeWait(i: Id) | SetSent(i: Id) | Write(i: Id) | SetStop(i: Id) | ClearWait(i: Id)
    | BeginInit | OpenSockets | FailInit | PublishSend
    | RunTest | EventRead(count: nat) | EventClear | RunReturn
    | FiniTest | Close

  predicate Enabled(s: State, step: Step)
  {
    match step
    case Call(i) => i !in s.callers
    case TakeWait(i) => i in s.callers && s.callers[i].Start?
    case SetSent(i) => i in s.callers && s.callers[i].SawSend?
    case Write(i) => i in s.callers && s.callers[i].Writing?
    case SetStop(i) => i in s.callers && s.callers[i].Storing?
    case ClearWait(i) => i in s.callers && s.callers[i].Leaving?
    case BeginInit => s.phase == Down
    case OpenSockets => s.phase == Opening
    case FailInit => s.phase == Opening || s.phase == Opened
    case PublishSend => s.phase == Opened
    case RunTest => s.phase == Ready
    case EventRead(count) => s.phase == Started && 1 <= count <= 4 && s.read + count <= s.written
    case EventClear => s.phase == GotByte
    case RunReturn => s.phase == Stopping
    case FiniTest => s.phase == Fini || s.phase == Retrying
    case Close => s.phase == Tearing
  }

  function Apply(s: State, step: Step): State
    requires Enabled(s, step)
  {
    match step
    case Call(i) => s.(callers := s.callers[i := Start])
    case TakeWait(i) =>
      if s.wait then s
      else s.(wait := true, holder := Caller(i), callers := s.callers[i := if s.send then SawSend else Storing])
    case SetSent(i) => s.(sent := true, callers := s.callers[i := if s.sent then Leaving(true) else Writing])
    case Write(i) => s.(written := s.written + 1, callers := s.callers[i := Leaving(true)])
    case SetStop(i) => s.(stop := true, callers := s.callers[i := Leaving(false)])
    case ClearWait(i) => s.(wait := false, holder := Nobody, callers := s.callers - {i})
    case BeginInit => s.(phase := Opening)
    case OpenSockets => s.(phase := Opened, open := true)
    case FailInit => s.(phase := Fini)
    case PublishSend => s.(phase := Ready, send := true)
    case RunTest => if s.stop then s.(phase := Fini, stop := false) else s.(phase := Started)
    case EventRead(count) => s.(phase := GotByte, read := s.read + count)
    case EventClear => s.(phase := Stopping, sent := false)
    case RunReturn => s.(phase := Fini)
    case FiniTest => s.(send := false, sent := false, phase := if s.wait then Retrying else Tearing)
    case Close => s.(phase := Down, open := false, written := 0, read := 0)
  }

  const Initial := State(false, false, false, false, false, 0, 0, Down, map[], Nobody)

  ghost predicate Holding(s: State, i: Id)
  {
    i in s.callers && !s.callers[i].Start?
  }

  ghost predicate At(s: State, i: Id, pc: Pc)
  {
    i in s.callers && s.callers[i] == pc
  }

  /** Exactly the caller recorded in `holder` is past setting WAIT. */
  ghost predicate Exclusive(s: State)
  {
    && (s.wait <==> s.holder.Caller?)
    && (forall i {:trigger Holding(s, i)} :: Holding(s, i) <==> s.holder == Caller(i))
  }

  ghost function Bit(b: bool): nat
  {
    if b then 1 else 0
  }

  ghost predicate HolderAt(s: State, pc: Pc)
  {
    s.holder.Caller? && At(s, s.holder.id, pc)
  }

  /** Bytes written or promised by a caller that has already set SENT. */
  ghost function Promised(s: State): nat
  {
    s.written + Bit(HolderAt(s, Writing))
  }

  /** How many bytes can have been written in each phase. */
  ghost predicate Counted(s: State)
  {
    match s.phase
    case Down | Opening | Opened => s.written == 0 && s.read == 0
    case Ready | Started => Promised(s) == Bit(s.sent) && s.read == 0
    case GotByte => s.written == 1 && Promised(s) == 1 && s.sent && s.read == 1
    case Stopping => Promised(s) == 1 + Bit(s.sent) && s.read == 1
    case Fini => Promised(s) <= 1 + Bit(s.sent) && (s.sent ==> Promised(s) >= 1)
    case Retrying => Promised(s) + Bit(HolderAt(s, SawSend)) <= 3 && (s.sent ==> Promised(s) >= 1)
    case Tearing => s.written <= 3
  }

  /** A caller that saw SEND holds WAIT while the sockets exist. */
  ghost predicate Guarded(s: State)
  {
    HolderAt(s, SawSend) || HolderAt(s, Writing) || HolderAt(s, Leaving(true)) ==>
      s.open && s.phase in {Ready, Started, GotByte, Stopping, Fini, Retrying}
  }

  ghost predicate Inv(s: State)
  {
    && Exclusive(s)
    && s.read <= s.written
    && (s.send ==> s.phase in {Ready, Started, GotByte, Stopping, Fini} && s.open)
    && (s.phase in {Ready, Started, GotByte, Stopping} ==> s.send)
    && (s.phase in {Down, Opening} ==> !s.open) && (s.phase == Opened ==> s.open)
    && (s.phase in {Tearing, Down, Opening, Opened} ==> !s.sent)
    && (!s.open ==> !s.sent && s.written == 0)
    && Guarded(s)
    && (HolderAt(s, Writing) ==> s.sent || s.phase == Retrying)
    && (HolderAt(s, Leaving(true)) ==> s.written >= 1)
    && Counted(s)
  }

  lemma InitialInv()
    ensures Inv(Initial)
  {
  }

  lemma ExclusiveKept(s: State, step: Step)
    requires Inv(s) && Enabled(s, step)
    ensures Exclusive(Apply(s, step))
  {
    var s' := Apply(s, step);
    if step.Call? || step.TakeWait? || step.SetSent? || step.Write? || step.SetStop? || step.ClearWait? {
      assert Holding(s, step.i) <==> s.holder == Caller(step.i);
    }
    forall i {:trigger Holding(s', i)}
      ensures Holding(s', i) <==> s'.holder == Caller(i)
    {
      assert Holding(s, i) <==> s.holder == Caller(i);
    }
  }

  ghost predicate ByCaller(step: Step)
  {
    step.Call? || step.TakeWait? || step.SetSent? || step.Write? || step.SetStop? || step.ClearWait?
  }

  lemma CallerStepInv(s: State, step: Step)
    requires Inv(s) && Enabled(s, step) && ByCaller(step)
    ensures Inv(Apply(s, step))
  {
    ExclusiveKept(s, step);
    assert Holding(s, step.i) <==> s.holder == Caller(step.i);
  }

  lemma PhaseStepInv(s: State, step: Step)
    requires Inv(s) && Enabled(s, step) && !ByCaller(step)
    ensures Inv(Apply(s, step))
  {
    ExclusiveKept(s, step);
  }

  /** Every atomic step of every thread keeps the invariant. */
  lemma StepInv(s: State, step: Step)
    requires Inv(s) && Enabled(s, step)
    ensures Inv(Apply(s, step))
  {
    if ByCaller(step) {
      CallerStepInv(s, step);
    } else {
      PhaseStepInv(s, step);
    }
  }

  // Whole runs.

  /** The states of a run, each obtained from the one before by an enabled step. */
  ghost predicate IsRun(states: seq<State>, steps: seq<Step>)
  {
    && |states| == |steps| + 1 && states[0] == Initial
    && forall k :: 0 <= k < |steps| ==> Next(states[k], steps[k], states[k + 1])
  }

  ghost predicate Next(s: State, step: Step, s': State)
  {
    Enabled(s, step) && s' == Apply(s, step)
  }

  lemma Took(states: seq<State>, steps: seq<Step>, k: nat)
    requires IsRun(states, steps) && k < |steps|
    ensures Enabled(states[k], steps[k]) && states[k + 1] == Apply(states[k], steps[k])
  {
    assert Next(states[k], steps[k], states[k + 1]);
  }

  lemma {:induction false} RunInv(states: seq<State>, steps: seq<Step>, k: nat)
    requires IsRun(states, steps) && k < |states|
    ensures Inv(states[k])
  {
    if k == 0 {
      InitialInv();
    } else {
      RunInv(states, steps, k - 1);
      Took(states, steps, k - 1);
      StepInv(states[k - 1], steps[k - 1]);
    }
  }

  /** In every state of every run at most one caller is between setting and clearing WAIT. */
  lemma AtMostOneHolder(states: seq<State>, steps: seq<Step>, k: nat, i: Id, j: Id)
    requires IsRun(states, steps) && k < |states|
    requires Holding(states[k], i) && Holding(states[k], j)
    ensures i == j && states[k].wait
  {
    RunInv(states, steps, k);
  }

  /** A caller about to write finds the event sockets open, and at most three bytes are written before they are
      closed. */
  lemma WritesAreSafe(states: seq<State>, steps: seq<Step>, k: nat, i: Id)
    requires IsRun(states, steps) && k < |states|
    ensures At(states[k], i, Writing) ==> states[k].open && states[k].written <= 2
    ensures states[k].written <= 3
  {
    RunInv(states, steps, k);
    assert Holding(states[k], i) <==> states[k].holder == Caller(i);
  }

  /** From the moment teardown begins until init publishes SEND again, SENT is clear and no caller can set it. */
  lemma SentIsFresh(states: seq<State>, steps: seq<Step>, k: nat, i: Id)
    requires IsRun(states, steps) && k < |states| && states[k].phase in {Tearing, Down, Opening, Opened}
    ensures !states[k].sent && !states[k].send && !At(states[k], i, SawSend) && !At(states[k], i, Writing)
  {
    RunInv(states, steps, k);
    assert Holding(states[k], i) <==> states[k].holder == Caller(i);
  }

  /** A stop that saw SEND returns only when a byte of this lifetime is waiting for the event task or was read by it. */
  lemma StopIsDelivered(states: seq<State>, steps: seq<Step>, k: nat, i: Id)
    requires IsRun(states, steps) && k < |states| && At(states[k], i, Leaving(true))
    ensures states[k].open && states[k].written >= 1
    ensures states[k].phase in {Ready, Started} ==> states[k].written - states[k].read >= 1
    ensures states[k].phase in {GotByte, Stopping} ==> states[k].read >= 1
  {
    RunInv(states, steps, k);
    assert Holding(states[k], i) <==> states[k].holder == Caller(i);
  }

  // Stops that find SEND clear.

  /** The run that shows a stop being lost: the caller reads SEND clear, run tests STOP, and only then STOP is set. */
  function LostStep(k: nat): Step
  {
    if k == 0 then Call(0)
    else if k == 1 then TakeWait(0)
    else if k == 2 then BeginInit
    else if k == 3 then OpenSockets
    else if k == 4 then PublishSend
    else if k == 5 then RunTest
    else if k == 6 then SetStop(0)
    else ClearWait(0)
  }

  /** The state before step `k` of that run. */
  function LostState(k: nat): State
  {
    if k == 0 then Initial
    else
      State(k >= 5, false, 2 <= k <= 7, k >= 7, k >= 4, 0, 0,
            if k < 3 then Down else if k == 3 then Opening else if k == 4 then Opened else if k == 5 then Ready
              else Started,
            if k == 1 then map[0 := Start] else if k <= 6 then map[0 := Storing]
              else if k == 7 then map[0 := Leaving(false)] else map[],
            if 2 <= k <= 7 then Caller(0) else Nobody)
  }

  lemma LostRun(k: nat)
    requires k < 8
    ensures Enabled(LostState(k), LostStep(k)) && LostState(k + 1) == Apply(LostState(k), LostStep(k))
  {
    var now, next := LostState(k), Apply(LostState(k), LostStep(k));
    assert next.callers == LostState(k + 1).callers;
  }

  /** Stop has returned without a byte being written, and the tunnel runs on. */
  ghost predicate RunsOn(s: State)
  {
    s.phase == Started && s.written == 0 && s.callers == map[]
  }

  /** Not every stop reaches the run in progress. */
  lemma StopCanBeLost() returns (states: seq<State>, steps: seq<Step>)
    ensures IsRun(states, steps) && |steps| == 8 && RunsOn(states[8])
    ensures forall k :: 0 <= k < 8 ==> steps[k] == LostStep(k)
  {
    states, steps := seq(9, k requires 0 <= k => LostState(k)), seq(8, k requires 0 <= k => LostStep(k));
    forall k | 0 <= k < 8 ensures Enabled(states[k], steps[k]) && states[k + 1] == Apply(states[k], steps[k]) {
      LostRun(k);
      assert Next(states[k], steps[k], states[k + 1]);
    }
  }

  /** STOP was set at step `b`, and no run has tested it from there to step `r`. */
  ghost predicate SetSince(steps: seq<Step>, b: nat, r: nat)
  {
    b < r <= |steps| && steps[b].SetStop? && forall k :: b < k < r ==> !steps[k].RunTest?
  }

  lemma {:induction false} StopStays(states: seq<State>, steps: seq<Step>, b: nat, r: nat)
    requires IsRun(states, steps) && SetSince(steps, b, r)
    ensures states[r].stop
    decreases r
  {
    StopAfter(states, steps, r - 1);
    if r > b + 1 {
      StopStays(states, steps, b, r - 1);
    }
  }

  /** Only SetStop sets STOP, and only RunTest clears it. */
  lemma StopChanges(s: State, step: Step)
    requires Enabled(s, step)
    ensures Apply(s, step).stop <==> step.SetStop? || (s.stop && !step.RunTest?)
  {
  }

  lemma StopAfter(states: seq<State>, steps: seq<Step>, k: nat)
    requires IsRun(states, steps) && k < |steps|
    ensures states[k + 1].stop <==> steps[k].SetStop? || (states[k].stop && !steps[k].RunTest?)
  {
    Took(states, steps, k);
    StopChanges(states[k], steps[k]);
  }

  /** STOP is never set but by a step that no run has tested since. */
  lemma {:induction false} StopComes(states: seq<State>, steps: seq<Step>, r: nat) returns (b: nat)
    requires IsRun(states, steps) && r < |states| && states[r].stop
    ensures SetSince(steps, b, r)
  {
    b := r - 1;
    StopAfter(states, steps, b);
    if !steps[b].SetStop? {
      b := StopComes(states, steps, r - 1);
    }
  }

  /** A run ends at once exactly when STOP was set since the run before it looked. */
  lemma RunStopsExactly(states: seq<State>, steps: seq<Step>, r: nat)
    requires IsRun(states, steps) && r < |steps| && steps[r].RunTest?
    ensures states[r + 1].phase == Fini <==> exists b :: SetSince(steps, b, r)
    ensures states[r + 1].phase == Fini || states[r + 1].phase == Started
  {
    Took(states, steps, r);
    if states[r].stop {
      var b := StopComes(states, steps, r);
    } else {
      forall b ensures !SetSince(steps, b, r) {
        if SetSince(steps, b, r) {
          StopStays(states, steps, b, r);
        }
      }
    }
  }

  /** Caller `i` finds WAIT and SEND clear at step `t` and sets STOP at step `b`. */
  ghost predicate SawClear(states: seq<State>, steps: seq<Step>, i: Id, t: nat, b: nat)
    requires IsRun(states, steps)
  {
    && t < b < |steps| && steps[t] == TakeWait(i) && !states[t].wait && !states[t].send
    && steps[b] == SetStop(i) && forall k :: t < k < b ==> steps[k] != SetStop(i)
  }

  lemma StoringStays(s: State, step: Step, i: Id)
    requires At(s, i, Storing) && Enabled(s, step) && step != SetStop(i)
    ensures At(Apply(s, step), i, Storing)
  {
  }

  lemma {:induction false} StillStoring(states: seq<State>, steps: seq<Step>, i: Id, t: nat, b: nat, k: nat)
    requires IsRun(states, steps) && SawClear(states, steps, i, t, b) && t < k <= b
    ensures At(states[k], i, Storing)
  {
    Took(states, steps, k - 1);
    if k > t + 1 {
      StillStoring(states, steps, i, t, b, k - 1);
      StoringStays(states[k - 1], steps[k - 1], i);
    }
  }

  /** Between the two steps of that caller nobody sets STOP. */
  lemma {:induction false} StopWaits(states: seq<State>, steps: seq<Step>, i: Id, t: nat, b: nat, k: nat)
    requires IsRun(states, steps) && SawClear(states, steps, i, t, b) && t < k <= b
    requires forall j :: t < j < k ==> !steps[j].RunTest?
    ensures states[k].stop == states[t].stop
  {
    StopAfter(states, steps, k - 1);
    if k > t + 1 {
      StopWaits(states, steps, i, t, b, k - 1);
      StillStoring(states, steps, i, t, b, k - 1);
      assert Holding(states[k - 1], i);
      if steps[k - 1].SetStop? {
        Took(states, steps, k - 1);
        assert Holding(states[k - 1], steps[k - 1].i);
        AtMostOneHolder(states, steps, k - 1, i, steps[k - 1].i);
      }
    }
  }

  /** A stop that found SEND clear ends the first run after that look exactly when its STOP comes before the test of
      that run, or STOP was set already. */
  lemma StopReachesRun(states: seq<State>, steps: seq<Step>, i: Id, t: nat, b: nat, r: nat)
    requires IsRun(states, steps) && SawClear(states, steps, i, t, b)
    requires t < r < |steps| && steps[r].RunTest? && forall k :: t < k < r ==> !steps[k].RunTest?
    ensures states[r + 1].phase == Fini <==> b < r || states[t].stop
  {
    Took(states, steps, r);
    if b < r {
      StopStays(states, steps, b, r);
    } else {
      StopWaits(states, steps, i, t, b, r);
    }
  }

  /** A stop that found SEND clear is honoured by the first run that tests STOP after it was set: that run ends at
      once. */
  lemma NextRunStops(states: seq<State>, steps: seq<Step>, b: nat, r: nat)
    requires IsRun(states, steps) && r < |steps| && steps[r].RunTest? && SetSince(steps, b, r)
    ensures states[r + 1].phase == Fini
  {
    RunStopsExactly(states, steps, r);
  }
}
