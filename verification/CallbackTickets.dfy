/** The tickets that put the frame callbacks of `queueBuffer` in order.

    Any number of threads queue buffers.  A thread takes its frame number and its ticket together, under the
    main lock; it calls back later, under another lock, when its ticket has become the current one.  The
    model interleaves these steps of all threads in every possible way. */
module CallbackTickets {

  type Thread = nat

  datatype Phase =
    | Outside
    | Waiting(ticket: nat, frame: nat)
    | CallingBack(ticket: nat, frame: nat)

  /** `phases` holds the threads that have not finished `queueBuffer`; `called` lists the frames whose
      callback has begun. */
  datatype State = State(phases: map<Thread, Phase>, next: nat, current: nat, frameCounter: nat, called: seq<nat>)
  {
    function PhaseOf(t: Thread): Phase {
      if t in phases then phases[t] else Outside
    }
  }

  const START: State := State(map[], 0, 0, 0, [])

  datatype Step = Queue(thread: Thread) | Begin(thread: Thread) | End(thread: Thread)

  predicate Enabled(s: State, step: Step) {
    var phase := s.PhaseOf(step.thread);
    match step
    case Queue(_) => phase.Outside?
    case Begin(_) => phase.Waiting? && phase.ticket == s.current
    case End(_) => phase.CallingBack?
  }

  function Do(s: State, step: Step): State
    requires Enabled(s, step)
  {
    var t, phase := step.thread, s.PhaseOf(step.thread);
    match step
    case Queue(_) =>
      s.(phases := s.phases[t := Waiting(s.next, s.frameCounter + 1)], next := s.next + 1, frameCounter := s.frameCounter + 1)
    case Begin(_) =>
      s.(phases := s.phases[t := CallingBack(phase.ticket, phase.frame)], called := s.called + [phase.frame])
    case End(_) =>
      s.(phases := s.phases - {t}, current := s.current + 1)
  }

  predicate Holds(s: State, t: Thread, ticket: nat) {
    !s.PhaseOf(t).Outside? && s.PhaseOf(t).ticket == ticket
  }

  ghost predicate Taken(s: State, ticket: nat) {
    exists t :: Holds(s, t, ticket)
  }

  /** Every ticket from the current one up to the next one has exactly one holder, and there are no others. */
  ghost predicate OneHolderEach(s: State) {
    && s.current <= s.next
    && (forall t :: !s.PhaseOf(t).Outside? ==> s.current <= s.PhaseOf(t).ticket < s.next)
    && (forall t, u :: !s.PhaseOf(t).Outside? && !s.PhaseOf(u).Outside? && s.PhaseOf(t).ticket == s.PhaseOf(u).ticket ==> t == u)
    && (forall k :: s.current <= k < s.next ==> Taken(s, k))
  }

  ghost predicate OnlyCurrentCallsBack(s: State) {
    forall t :: s.PhaseOf(t).CallingBack? ==> s.PhaseOf(t).ticket == s.current
  }

  ghost predicate SomeoneCallsBack(s: State) {
    exists t :: s.PhaseOf(t).CallingBack?
  }

  /** Ticket `k` belongs to the frame with number `k + 1`, and the callbacks begun so far are those of the
      first frames, in order. */
  ghost predicate FramesInOrder(s: State) {
    && s.frameCounter == s.next
    && (forall t :: !s.PhaseOf(t).Outside? ==> s.PhaseOf(t).frame == s.PhaseOf(t).ticket + 1)
    && |s.called| == s.current + (if SomeoneCallsBack(s) then 1 else 0)
    && forall i :: 0 <= i < |s.called| ==> s.called[i] == i + 1
  }

  ghost predicate Inv(s: State) {
    OneHolderEach(s) && OnlyCurrentCallsBack(s) && FramesInOrder(s)
  }

  lemma QueueKeepsHolders(s: State, t: Thread)
    requires Inv(s) && Enabled(s, Queue(t))
    ensures OneHolderEach(Do(s, Queue(t)))
  {
    var s' := Do(s, Queue(t));
    forall u
      ensures s'.PhaseOf(u) == if u == t then Waiting(s.next, s.frameCounter + 1) else s.PhaseOf(u)
    {
    }
    forall k | s'.current <= k < s'.next
      ensures Taken(s', k)
    {
      if k == s.next {
        assert Holds(s', t, k);
      } else {
        assert Taken(s, k);
        var u :| Holds(s, u, k);
        assert Holds(s', u, k);
      }
    }
  }

  lemma BeginKeepsHolders(s: State, t: Thread)
    requires Inv(s) && Enabled(s, Begin(t))
    ensures OneHolderEach(Do(s, Begin(t)))
  {
    var s' := Do(s, Begin(t));
    forall u, k: nat
      ensures Holds(s', u, k) <==> Holds(s, u, k)
    {
    }
    forall u | !s'.PhaseOf(u).Outside?
      ensures !s.PhaseOf(u).Outside? && s'.PhaseOf(u).ticket == s.PhaseOf(u).ticket
    {
    }
    forall k | s'.current <= k < s'.next
      ensures Taken(s', k)
    {
      assert Taken(s, k);
      var u :| Holds(s, u, k);
      assert Holds(s', u, k);
    }
  }

  lemma EndKeepsHolders(s: State, t: Thread)
    requires Inv(s) && Enabled(s, End(t))
    ensures OneHolderEach(Do(s, End(t)))
  {
    var s' := Do(s, End(t));
    forall u
      ensures s'.PhaseOf(u) == if u == t then Outside else s.PhaseOf(u)
    {
    }
    forall u | !s'.PhaseOf(u).Outside?
      ensures s'.current <= s'.PhaseOf(u).ticket
    {
      assert s.PhaseOf(u).ticket != s.PhaseOf(t).ticket;
    }
    forall k | s'.current <= k < s'.next
      ensures Taken(s', k)
    {
      assert Taken(s, k);
      var u :| Holds(s, u, k);
      assert Holds(s', u, k);
    }
  }

  lemma StepKeepsOrder(s: State, step: Step)
    requires Inv(s) && Enabled(s, step)
    ensures OnlyCurrentCallsBack(Do(s, step)) && FramesInOrder(Do(s, step))
  {
    var s', t := Do(s, step), step.thread;
    forall u
      ensures u != t ==> s'.PhaseOf(u) == s.PhaseOf(u)
    {
    }
    match step
    case Queue(_) =>
      assert SomeoneCallsBack(s') <==> SomeoneCallsBack(s) by {
        if u :| s.PhaseOf(u).CallingBack? { assert s'.PhaseOf(u).CallingBack?; }
        if u :| s'.PhaseOf(u).CallingBack? { assert s.PhaseOf(u).CallingBack?; }
      }
    case Begin(_) =>
      assert s'.PhaseOf(t).CallingBack?;
      assert !SomeoneCallsBack(s);
    case End(_) =>
      assert SomeoneCallsBack(s);
      assert !SomeoneCallsBack(s');
  }

  lemma StepKeepsInv(s: State, step: Step)
    requires Inv(s) && Enabled(s, step)
    ensures Inv(Do(s, step))
  {
    hide OneHolderEach, FramesInOrder, OnlyCurrentCallsBack;
    StepKeepsOrder(s, step);
    match step
    case Queue(t) => QueueKeepsHolders(s, t);
    case Begin(t) => BeginKeepsHolders(s, t);
    case End(t) => EndKeepsHolders(s, t);
  }

  /** The states a schedule passes through. */
  ghost predicate IsRun(s: State, steps: seq<Step>, s': State)
    decreases |steps|
  {
    if steps == [] then s == s' else Enabled(s, steps[0]) && IsRun(Do(s, steps[0]), steps[1..], s')
  }

  lemma {:induction false} RunKeepsInv(s: State, steps: seq<Step>, s': State)
    requires Inv(s) && IsRun(s, steps, s')
    ensures Inv(s')
    decreases |steps|
  {
    hide Inv;
    if steps != [] {
      StepKeepsInv(s, steps[0]);
      RunKeepsInv(Do(s, steps[0]), steps[1..], s');
    }
  }

  lemma StartIsFine()
    ensures Inv(START)
  {
  }

  /** Under every schedule the callbacks begin in the order of the frame numbers, none is skipped or
      repeated, and no two of them run at the same time. */
  lemma CallbacksAreInOrder(steps: seq<Step>, s: State)
    requires IsRun(START, steps, s)
    ensures forall i :: 0 <= i < |s.called| ==> s.called[i] == i + 1
    ensures s.current <= |s.called| <= s.current + 1 && |s.called| <= s.frameCounter
    ensures forall t, u :: s.PhaseOf(t).CallingBack? && s.PhaseOf(u).CallingBack? ==> t == u
  {
    StartIsFine();
    RunKeepsInv(START, steps, s);
    forall t, u | s.PhaseOf(t).CallingBack? && s.PhaseOf(u).CallingBack?
      ensures t == u
    {
      assert Holds(s, t, s.current) && Holds(s, u, s.current);
    }
  }

  /** Nobody waits for ever by itself: whenever some thread has queued a frame and not finished, a thread is
      in its callback or the thread with the current ticket can begin. */
  lemma SomeoneCanProceed(steps: seq<Step>, s: State, t: Thread)
    requires IsRun(START, steps, s) && !s.PhaseOf(t).Outside?
    ensures exists u :: Enabled(s, Begin(u)) || Enabled(s, End(u))
  {
    StartIsFine();
    RunKeepsInv(START, steps, s);
    assert Taken(s, s.current);
    var u :| Holds(s, u, s.current);
    assert Enabled(s, Begin(u)) || Enabled(s, End(u));
  }

  /** When a waiting thread calls back, its ticket is the current one and its own frame is the last one
      called: whoever had a lower ticket has finished, whoever has a higher one has not begun. */
  lemma {:induction false} ServedInTurn(s: State, steps: seq<Step>, s': State, t: Thread)
    requires Inv(s) && IsRun(s, steps, s')
    requires s.PhaseOf(t).Waiting? && s'.PhaseOf(t).CallingBack?
    requires forall i :: 0 <= i < |steps| ==> steps[i] != End(t)
    ensures s'.current == s.PhaseOf(t).ticket && s'.PhaseOf(t).ticket == s.PhaseOf(t).ticket
    ensures s'.called != [] && s'.called[|s'.called| - 1] == s.PhaseOf(t).frame
    decreases |steps|
  {
    var next := Do(s, steps[0]);
    StepKeepsInv(s, steps[0]);
    assert steps[0] != End(t);
    if next.PhaseOf(t).Waiting? {
      ServedInTurn(next, steps[1..], s', t);
    } else {
      StaysInCallback(next, steps[1..], s', t);
    }
  }

  lemma {:induction false} StaysInCallback(s: State, steps: seq<Step>, s': State, t: Thread)
    requires Inv(s) && IsRun(s, steps, s') && s.PhaseOf(t).CallingBack?
    requires forall i :: 0 <= i < |steps| ==> steps[i] != End(t)
    ensures s'.PhaseOf(t) == s.PhaseOf(t) && s'.current == s.current == s.PhaseOf(t).ticket
    ensures s'.called == s.called && s.called != [] && s.called[|s.called| - 1] == s.PhaseOf(t).frame
    decreases |steps|
  {
    assert SomeoneCallsBack(s);
    if steps != [] {
      var u := steps[0].thread;
      assert steps[0] != End(t);
      assert Holds(s, t, s.current);
      if steps[0].Begin? || steps[0].End? {
        assert Holds(s, u, s.current);
      }
      StepKeepsInv(s, steps[0]);
      StaysInCallback(Do(s, steps[0]), steps[1..], s', t);
    }
  }
}
