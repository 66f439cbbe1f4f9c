/** Channels as lossless pipes: what is accepted comes out once and in order, unless a
    process that owns or feeds the channel is cleaned up, or its receiver went to sleep in
    front of a message too long for its buffer. */
module KernelPipes {
  import opened KernelState
  import opened KernelInvariants
  import opened KernelSteps
  import opened Options

  /** Nobody sleeps on a channel that already holds a message. */
  predicate ReadyPipe(c: Channel) { c.waiter.active ==> c.count == 0 }

  /** The blocking receive that registers its waiter although the queue is not empty: the oldest
      message is longer than the receive buffer. */
  ghost predicate OversizedWait(s: State, step: Step, c: nat)
    requires Shape(s) && c < CHANNEL_LIMIT
  {
    && step.Recv? && step.chan == Some(c) && !step.poll && s.sched.current != 0
    && s.channels[c].active && !s.channels[c].waiter.active
    && 0 < step.capacity <= MESSAGE_MAX
    && s.channels[c].count > 0 && |s.channels[c].messages[s.channels[c].read].data| > step.capacity
  }

  ghost function Passed(x: Option<(nat, Message)>, c: nat): seq<Message> {
    if x.Some? && x.value.0 == c then [x.value.1] else []
  }

  /** The process whose resources the step cleans up, if it is a cleaning step. */
  function CleanedPid(s: State, step: Step): Option<nat> {
    match step
    case Exit(_) => Some(s.sched.current)
    case TerminateCall(target, _) => Some(target)
    case Kill(target, _) => Some(target)
    case Wait(child) => Some(child)
    case ReapStep(_, child) => Some(child)
    case _ => None
  }

  /** `d` is `c` with at most its waiter gone. */
  predicate Kept(c: Channel, d: Channel) {
    d == c.(waiter := d.waiter) && (d.waiter == c.waiter || !d.waiter.active)
  }

  /** What cleaning up `pid` may do to a channel. */
  predicate KeptButFor(c: Channel, d: Channel, pid: nat) {
    || !d.active
    || Kept(c, d)
    || (c.sender.active && c.sender.pid == pid && !d.sender.active && Kept(c.(sender := d.sender), d))
  }

  lemma KeptTrans(c: Channel, d: Channel, e: Channel, pid: nat)
    ensures Kept(c, d) && Kept(d, e) ==> Kept(c, e)
    ensures KeptButFor(c, d, pid) && KeptButFor(d, e, pid) && (!d.active ==> !e.active) ==> KeptButFor(c, e, pid)
  {
  }

  lemma CleanChannelKept(s: State, pid: nat, i: nat, c: nat)
    requires Shape(s) && i < CHANNEL_LIMIT && c < CHANNEL_LIMIT
    ensures var d := CleanChannel(s, pid, i).channels[c];
            KeptButFor(s.channels[c], d, pid) && (!s.channels[c].active ==> !d.active)
  {
  }

  lemma CleanupToKept(s: State, pid: nat, n: nat, c: nat)
    requires Shape(s) && n <= CHANNEL_LIMIT && c < CHANNEL_LIMIT
    ensures var d := CleanupTo(s, pid, n).channels[c];
            KeptButFor(s.channels[c], d, pid) && (!s.channels[c].active ==> !d.active)
  {
    if n > 0 {
      CleanupToKept(s, pid, n - 1, c);
      CleanChannelKept(CleanupTo(s, pid, n - 1), pid, n - 1, c);
      KeptTrans(s.channels[c], CleanupTo(s, pid, n - 1).channels[c], CleanupTo(s, pid, n).channels[c], pid);
    }
  }

  lemma ReleaseKept(s: State, child: nat, c: nat)
    requires Shape(s) && 0 < child < PROCESS_LIMIT && c < CHANNEL_LIMIT
    ensures var d := ReleaseSlot(s, child).channels[c];
            KeptButFor(s.channels[c], d, child) && (!s.channels[c].active ==> !d.active)
    ensures var d := WakeParent(s, child).channels[c];
            KeptButFor(s.channels[c], d, child) && (!s.channels[c].active ==> !d.active)
  {
    CleanupToKept(s.(input := CancelInputWait(s.input, child)), child, CHANNEL_LIMIT, c);
    if ParentWaits(s.sched, child) {
      var p := s.sched.tasks[child].parent;
      var s1 := s.(sched := SetTask(s.sched, p, s.sched.tasks[p].(
                   result := child, detail := s.sched.tasks[child].exitCode, waitingFor := None, state := Ready)));
      CleanupToKept(s1.(input := CancelInputWait(s1.input, child)), child, CHANNEL_LIMIT, c);
    }
  }

  lemma TimeoutsKept(s: State, n: nat, c: nat)
    requires Shape(s) && 1 <= n <= PROCESS_LIMIT && c < CHANNEL_LIMIT
    ensures Kept(s.channels[c], TimeoutsTo(s, n).channels[c])
  {
    if n > 1 {
      TimeoutsKept(s, n - 1, c);
      KeptTrans(s.channels[c], TimeoutsTo(s, n - 1).channels[c], TimeoutsTo(s, n).channels[c], 0);
    }
  }

  lemma TerminateKept(s: State, s0: State, pid: nat, code: nat, c: nat)
    requires Shape(s) && Shape(s0) && c < CHANNEL_LIMIT && (s0 == s || s0 == Cleanup(s, pid))
    ensures KeptButFor(s.channels[c], Terminate(s0, pid, code).channels[c], pid)
  {
    CleanupToKept(s.(input := CancelInputWait(s.input, pid)), pid, CHANNEL_LIMIT, c);
    if CanTerminate(s0.sched, pid) {
      var s2 := s0.(sched := Died(s0.sched, pid, code));
      ReleaseKept(s2, pid, c);
      KeptTrans(s.channels[c], s0.channels[c], WakeParent(s2, pid).channels[c], pid);
    }
  }

  lemma ExitKept(s: State, code: nat, c: nat)
    requires Inv(s) && c < CHANNEL_LIMIT
    ensures KeptButFor(s.channels[c], SysExit(s, code).channels[c], s.sched.current)
  {
    var pid := s.sched.current;
    var s0 := Cleanup(s, pid);
    CleanupToKept(s.(input := CancelInputWait(s.input, pid)), pid, CHANNEL_LIMIT, c);
    CleanupInv(s, pid);
    if pid != 0 {
      var s2 := s0.(sched := Died(s0.sched, pid, code));
      ReleaseKept(s2, pid, c);
      KeptTrans(s.channels[c], s0.channels[c], WakeParent(s2, pid).channels[c], pid);
    }
  }

  /** Cleaning steps: the channel is gone, or unchanged, or lost only the cleaned process's parked message. */
  lemma CleaningKept(s: State, step: Step, c: nat)
    requires Inv(s) && c < CHANNEL_LIMIT && CleanedPid(s, step).Some?
    ensures KeptButFor(s.channels[c], Next(s, step).state.channels[c], CleanedPid(s, step).value)
    ensures Next(s, step).accepted == None && Next(s, step).delivered == None
  {
    match step
    case Exit(code) => ExitKept(s, code, c);
    case TerminateCall(target, code) => TerminateKept(s, Cleanup(s, target), target, code, c);
    case Kill(target, code) => TerminateKept(s, s, target, code, c);
    case Wait(child) => if CanReap(s.sched, s.sched.current, child) { ReleaseKept(s, child, c); }
    case ReapStep(parent, child) => if CanReap(s.sched, parent, child) { ReleaseKept(s, child, c); }
  }

  lemma OtherStepsKept(s: State, step: Step, c: nat)
    requires Inv(s) && c < CHANNEL_LIMIT && s.channels[c].active && CleanedPid(s, step) == None
    requires !step.Send? && !step.Recv? && !step.Select?
    ensures Kept(s.channels[c], Next(s, step).state.channels[c])
    ensures Next(s, step).accepted == None && Next(s, step).delivered == None
  {
    assert Shape(s);
    hide Inv, RegistryInv, RegistryX, SchedInv;
    if step.Tick? {
      TickKept(s, c);
    } else if step.OpenChannel? {
      OpenKept(s, step.name, step.granted, c);
    } else {
      hide OnTick, CreateChannel, Reschedule, CreateUser;
    }
  }

  lemma TickKept(s: State, c: nat)
    requires Shape(s) && c < CHANNEL_LIMIT
    ensures Kept(s.channels[c], OnTick(s).channels[c])
  {
    TimeoutsKept(s.(sched := s.sched.(ticks := (s.sched.ticks + 1) % U64)), PROCESS_LIMIT, c);
    hide TimeoutsTo, ChargeTick, Kept;
  }

  lemma OpenKept(s: State, name: string, granted: bool, c: nat)
    requires Shape(s) && c < CHANNEL_LIMIT && s.channels[c].active
    ensures Kept(s.channels[c], CreateChannel(s, s.sched.current, name, granted).channels[c])
  {
    FirstFreeSpec(s.channels, 0);
    hide FirstFree;
  }

  // ----- the ring as a queue -----

  lemma EnqueueRing(c: Channel, m: Message)
    requires RingOk(c) && c.active && c.count < QUEUE_DEPTH
    ensures RingOk(Enqueue(c, m)) && Ring(Enqueue(c, m)) == Ring(c) + [m]
  {
    EnqueueOk(c, m);
    var d := Enqueue(c, m);
    forall i | 0 <= i < c.count + 1
      ensures Ring(d)[i] == (Ring(c) + [m])[i]
    {
      SlotsApart(c.read, i, c.count);
    }
  }

  /** Different offsets below the depth are different cells of the ring. */
  lemma SlotsApart(read: nat, i: nat, count: nat)
    requires read < QUEUE_DEPTH && i <= count < QUEUE_DEPTH
    ensures i < count ==> (read + i) % QUEUE_DEPTH != (read + count) % QUEUE_DEPTH
  {
  }

  lemma DequeueRing(c: Channel)
    requires RingOk(c) && c.active && c.count > 0
    ensures var d := c.(read := (c.read + 1) % QUEUE_DEPTH, count := c.count - 1);
            RingOk(d) && Ring(c) == [c.messages[c.read]] + Ring(d)
  {
    var d := c.(read := (c.read + 1) % QUEUE_DEPTH, count := c.count - 1);
    forall i | 0 <= i < c.count
      ensures Ring(c)[i] == ([c.messages[c.read]] + Ring(d))[i]
    {
      assert i > 0 ==> (d.read + (i - 1)) % QUEUE_DEPTH == (c.read + i) % QUEUE_DEPTH;
    }
  }

  /** Conservation for one channel across one step. */
  ghost predicate Conserved(s: State, o: Outcome, c: nat)
    requires Shape(s) && Shape(o.state) && c < CHANNEL_LIMIT
  {
    Outstanding(s.channels[c]) + Passed(o.accepted, c) == Passed(o.delivered, c) + Outstanding(o.state.channels[c])
  }

  lemma KeptConserves(c: Channel, d: Channel)
    requires RingOk(c) && RingOk(d) && Kept(c, d)
    ensures Outstanding(c) == Outstanding(d) && (ReadyPipe(c) ==> ReadyPipe(d))
  {
    assert Ring(c) == Ring(d);
  }

  /** Handing a message straight to a sleeper while others are still queued: the message comes
      out before them. It is only noticed when one of them is a different message. */
  ghost predicate Overtaking(s: State, step: Step, c: nat)
    requires Shape(s) && c < CHANNEL_LIMIT
  {
    && step.Send? && s.sched.current != 0 && step.chan == Some(c) && s.channels[c].active
    && s.channels[c].waiter.active && 0 < |step.data| <= s.channels[c].waiter.capacity
    && CanWake(s.sched, s.channels[c].waiter.pid)
    && exists i | 0 <= i < |Outstanding(s.channels[c])| ::
         Outstanding(s.channels[c])[i] != Message(s.sched.current, step.data)
  }

  /** Moving a message from the end to the front changes nothing only if all are that message. */
  lemma {:induction false} Rotation(q: seq<Message>, m: Message)
    ensures q + [m] == [m] + q <==> forall i | 0 <= i < |q| :: q[i] == m
  {
    if |q| > 0 {
      Rotation(q[1..], m);
      assert (q + [m])[0] == q[0] && q == [q[0]] + q[1..];
      if q[0] == m { RotationTail(q, m); }
      assert forall i | 0 <= i < |q[1..]| :: q[1..][i] == q[i + 1];
      assert forall i | 0 < i < |q| :: q[i] == q[1..][i - 1];
    }
  }

  lemma RotationTail(q: seq<Message>, m: Message)
    requires |q| > 0 && q[0] == m
    ensures q + [m] == [m] + q <==> q[1..] + [m] == [m] + q[1..]
  {
    assert q + [m] == [m] + (q[1..] + [m]);
    assert [m] + q == [m] + ([m] + q[1..]);
    assert ([m] + (q[1..] + [m]))[1..] == q[1..] + [m];
    assert ([m] + ([m] + q[1..]))[1..] == [m] + q[1..];
  }

  /** With nobody asleep in front of a message there is nothing to overtake. */
  lemma ReadyNotOvertaken(s: State, step: Step, c: nat)
    requires Inv(s) && c < CHANNEL_LIMIT && ReadyPipe(s.channels[c])
    ensures !Overtaking(s, step, c)
  {
    assert SenderOk(s, s.channels[c]);
  }

  lemma SendConserves(s: State, step: Step, c: nat)
    requires Inv(s) && s.sched.current != 0 && step.Send? && c < CHANNEL_LIMIT && s.channels[c].active
    ensures var o := Next(s, step);
            && o.state.channels[c].active && (Conserved(s, o, c) <==> !Overtaking(s, step, c))
            && (ReadyPipe(s.channels[c]) ==> ReadyPipe(o.state.channels[c]))
  {
    var o := Next(s, step);
    var a, b := s.channels[c], o.state.channels[c];
    if step.chan == Some(c) && 0 < |step.data| <= MESSAGE_MAX {
      assert SenderOk(s, a) && WaiterOk(s, a.waiter, 0);
      var m := Message(s.sched.current, step.data);
      if a.waiter.active {
        assert Ring(a) == Ring(b);
        Rotation(Outstanding(a), m);
      } else if a.count < QUEUE_DEPTH {
        EnqueueRing(a, m);
      } else {
        assert Ring(b) == Ring(a);
      }
    }
  }

  lemma ReceiveConserves(s: State, chan: Option<nat>, capacity: nat, c: nat)
    requires Inv(s) && c < CHANNEL_LIMIT && s.channels[c].active
    ensures var r := Receive(s, chan, capacity);
            && r.state.channels[c].active && (ReadyPipe(s.channels[c]) ==> ReadyPipe(r.state.channels[c]))
            && Outstanding(s.channels[c])
               == (if chan == Some(c) && r.message.Some? then [r.message.value] else []) + Outstanding(r.state.channels[c])
  {
    var a, b := s.channels[c], Receive(s, chan, capacity).state.channels[c];
    if chan == Some(c) && HeadFits(a, capacity) {
      DequeueRing(a);
      var d := a.(read := (a.read + 1) % QUEUE_DEPTH, count := a.count - 1);
      if a.sender.active {
        assert SenderOk(s, a);
        var e := d.(sender := a.sender.(active := false));
        assert Ring(e) == Ring(d);
        EnqueueRing(e, Message(a.sender.pid, a.sender.data));
      }
    }
  }

  lemma SelectEmpty(s: State, id: nat)
    requires Inv(s) && id < CHANNEL_LIMIT && s.channels[id].active && !HeadFits(s.channels[id], MESSAGE_MAX)
    ensures s.channels[id].count == 0
  {
    assert MessagesOk(s.channels[id]);
  }

  lemma RecvConserves(s: State, step: Step, c: nat)
    requires Inv(s) && c < CHANNEL_LIMIT && s.channels[c].active
    requires step.Recv? && s.sched.current != 0
    ensures var o := Next(s, step);
            && Conserved(s, o, c) && o.state.channels[c].active
            && (ReadyPipe(s.channels[c]) ==> (ReadyPipe(o.state.channels[c]) <==> !OversizedWait(s, step, c)))
  {
    var o := Next(s, step);
    ReceiveConserves(s, step.chan, step.capacity, c);
    var a, b := s.channels[c], o.state.channels[c];
    if o.delivered == None {
      assert b == a.(waiter := b.waiter);
      assert Ring(a) == Ring(b);
    }
  }

  lemma SelectConserves(s: State, step: Step, c: nat)
    requires Inv(s) && c < CHANNEL_LIMIT && s.channels[c].active
    requires step.Select? && s.sched.current != 0
    ensures var o := Next(s, step);
            && Conserved(s, o, c) && o.state.channels[c].active
            && (ReadyPipe(s.channels[c]) ==> ReadyPipe(o.state.channels[c]))
  {
    var o := Next(s, step);
    ReceiveConserves(s, step.chan, MESSAGE_MAX, c);
    var a, b := s.channels[c], o.state.channels[c];
    if o.delivered == None {
      assert b == a.(waiter := b.waiter);
      assert Ring(a) == Ring(b);
      if step.chan == Some(c) && b.waiter.active && !a.waiter.active { SelectEmpty(s, c); }
    }
  }

  /** A step conserves an open channel exactly when it does not hand a message past the queued
      ones; short of that only a cleanup can, by taking the parked message back. And a sleeper is
      put in front of a message exactly by a blocking receive whose buffer is too small for it. */
  lemma PipeStep(s: State, step: Step, c: nat)
    requires Inv(s) && c < CHANNEL_LIMIT && s.channels[c].active
    ensures var o := Next(s, step);
            && (CleanedPid(s, step) == None ==>
                  o.state.channels[c].active && (Conserved(s, o, c) <==> !Overtaking(s, step, c)))
            && (ReadyPipe(s.channels[c]) && o.state.channels[c].active ==>
                  !Overtaking(s, step, c) && (ReadyPipe(o.state.channels[c]) <==> !OversizedWait(s, step, c)))
            && (o.state.channels[c].active && !Conserved(s, o, c) && !Overtaking(s, step, c) ==>
                  s.channels[c].sender.active && CleanedPid(s, step) == Some(s.channels[c].sender.pid)
                  && !o.state.channels[c].sender.active)
  {
    var o := Next(s, step);
    var a, b := s.channels[c], o.state.channels[c];
    if ReadyPipe(a) { ReadyNotOvertaken(s, step, c); }
    if CleanedPid(s, step).Some? {
      CleaningKept(s, step, c);
      if Kept(a, b) { KeptConserves(a, b); }
    } else if step.Send? {
      if s.sched.current != 0 { SendConserves(s, step, c); }
    } else if step.Recv? {
      if s.sched.current != 0 { RecvConserves(s, step, c); }
    } else if step.Select? {
      if s.sched.current != 0 { SelectConserves(s, step, c); }
    } else {
      OtherStepsKept(s, step, c);
      KeptConserves(a, b);
    }
  }

  /** Never more than the queue and one parked message; and a parked sender means the queue is full. */
  lemma PipeBound(s: State, c: nat)
    requires Inv(s) && c < CHANNEL_LIMIT
    ensures |Outstanding(s.channels[c])| <= QUEUE_DEPTH + 1
    ensures s.channels[c].sender.active ==> |Ring(s.channels[c])| == QUEUE_DEPTH
  {
    assert SenderOk(s, s.channels[c]);
  }

  // ----- whole runs -----

  ghost function Accepted(s: State, steps: seq<Step>, c: nat): seq<Message>
    requires Shape(s)
    decreases |steps|
  {
    if |steps| == 0 then []
    else var k := |steps| - 1;
         Accepted(s, steps[..k], c) + Passed(Next(Run(s, steps[..k]), steps[k]).accepted, c)
  }

  ghost function Delivered(s: State, steps: seq<Step>, c: nat): seq<Message>
    requires Shape(s)
    decreases |steps|
  {
    if |steps| == 0 then []
    else var k := |steps| - 1;
         Delivered(s, steps[..k], c) + Passed(Next(Run(s, steps[..k]), steps[k]).delivered, c)
  }

  /** The channel stays open and no cleanup takes its parked message back. */
  ghost predicate StaysOpen(s: State, steps: seq<Step>, c: nat)
    requires Shape(s) && c < CHANNEL_LIMIT
    decreases |steps|
  {
    |steps| > 0 ==>
      var k := |steps| - 1;
      var r := Run(s, steps[..k]);
      && StaysOpen(s, steps[..k], c)
      && Next(r, steps[k]).state.channels[c].active
      && !(r.channels[c].sender.active && CleanedPid(r, steps[k]) == Some(r.channels[c].sender.pid))
  }

  /** What was in the channel followed by everything accepted is everything delivered followed by
      what is in the channel: nothing lost, repeated or reordered. */
  ghost predicate Lossless(s: State, steps: seq<Step>, c: nat)
    requires Shape(s) && c < CHANNEL_LIMIT
  {
    Outstanding(s.channels[c]) + Accepted(s, steps, c)
    == Delivered(s, steps, c) + Outstanding(Run(s, steps).channels[c])
  }

  /** ... after every prefix of the run. */
  ghost predicate AlwaysLossless(s: State, steps: seq<Step>, c: nat)
    requires Shape(s) && c < CHANNEL_LIMIT
    decreases |steps|
  {
    Lossless(s, steps, c) && (|steps| > 0 ==> AlwaysLossless(s, steps[..|steps| - 1], c))
  }

  ghost predicate NeverOvertaken(s: State, steps: seq<Step>, c: nat)
    requires Shape(s) && c < CHANNEL_LIMIT
    decreases |steps|
  {
    |steps| > 0 ==>
      var k := |steps| - 1;
      NeverOvertaken(s, steps[..k], c) && !Overtaking(Run(s, steps[..k]), steps[k], c)
  }

  /** No receiver goes to sleep in front of a message that does not fit. */
  ghost predicate NeverOversized(s: State, steps: seq<Step>, c: nat)
    requires Shape(s) && c < CHANNEL_LIMIT
    decreases |steps|
  {
    |steps| > 0 ==>
      var k := |steps| - 1;
      NeverOversized(s, steps[..k], c) && !OversizedWait(Run(s, steps[..k]), steps[k], c)
  }

  lemma Splice<T>(start: seq<T>, acc: seq<T>, a: seq<T>, del: seq<T>, mid: seq<T>, d: seq<T>, end: seq<T>)
    requires start + acc == del + mid
    ensures start + (acc + a) == (del + d) + end <==> mid + a == d + end
  {
    assert start + (acc + a) == (start + acc) + a;
    assert (del + mid) + a == del + (mid + a);
    assert (del + d) + end == del + (d + end);
    assert (del + (mid + a))[|del|..] == mid + a && (del + (d + end))[|del|..] == d + end;
  }

  /** One more step keeps the equation exactly when the step itself is conserved. */
  lemma LosslessStep(s: State, steps: seq<Step>, c: nat)
    requires Shape(s) && c < CHANNEL_LIMIT && |steps| > 0 && Lossless(s, steps[..|steps| - 1], c)
    ensures var r := Run(s, steps[..|steps| - 1]);
            Lossless(s, steps, c) <==> Conserved(r, Next(r, steps[|steps| - 1]), c)
  {
    var k := |steps| - 1;
    var r := Run(s, steps[..k]);
    var o := Next(r, steps[k]);
    Splice(Outstanding(s.channels[c]), Accepted(s, steps[..k], c), Passed(o.accepted, c),
           Delivered(s, steps[..k], c), Outstanding(r.channels[c]), Passed(o.delivered, c),
           Outstanding(o.state.channels[c]));
  }

  lemma LosslessStart(s: State, steps: seq<Step>, c: nat)
    requires Shape(s) && c < CHANNEL_LIMIT && |steps| == 0
    ensures Lossless(s, steps, c)
  {
    assert Accepted(s, steps, c) == [] && Delivered(s, steps, c) == [];
  }

  lemma OpenAt(s: State, steps: seq<Step>, c: nat)
    requires Shape(s) && c < CHANNEL_LIMIT && s.channels[c].active && StaysOpen(s, steps, c)
    ensures Run(s, steps).channels[c].active
  {
  }

  lemma LosslessUnlessOvertaken(s: State, steps: seq<Step>, c: nat)
    requires Inv(s) && c < CHANNEL_LIMIT && s.channels[c].active && |steps| > 0 && StaysOpen(s, steps, c)
    requires Lossless(s, steps[..|steps| - 1], c)
    ensures Lossless(s, steps, c) <==> !Overtaking(Run(s, steps[..|steps| - 1]), steps[|steps| - 1], c)
  {
    InvShape(s);
    var k := |steps| - 1;
    var r := Run(s, steps[..k]);
    assert Next(r, steps[k]).state.channels[c].active;
    assert !(r.channels[c].sender.active && CleanedPid(r, steps[k]) == Some(r.channels[c].sender.pid));
    assert StaysOpen(s, steps[..k], c);
    hide *;
    RunInv(s, steps[..k]);
    OpenAt(s, steps[..k], c);
    PipeStep(r, steps[k], c);
    LosslessStep(s, steps, c);
    if CleanedPid(r, steps[k]).Some? { CleaningNeverOvertakes(r, steps[k], c); }
  }

  lemma UnrollRun(s: State, steps: seq<Step>, c: nat)
    requires Shape(s) && c < CHANNEL_LIMIT && |steps| > 0
    ensures var k := |steps| - 1;
            && (StaysOpen(s, steps, c) ==> StaysOpen(s, steps[..k], c))
            && (AlwaysLossless(s, steps, c) <==> Lossless(s, steps, c) && AlwaysLossless(s, steps[..k], c))
            && (AlwaysLossless(s, steps[..k], c) ==> Lossless(s, steps[..k], c))
            && (NeverOvertaken(s, steps, c) <==>
                  NeverOvertaken(s, steps[..k], c) && !Overtaking(Run(s, steps[..k]), steps[k], c))
  {
    hide Lossless, Overtaking, Shape, Next;
  }

  /** A channel is a lossless queue all along a run if and only if no message is handed past the
      queued ones during it. */
  lemma {:induction false} PipeRun(s: State, steps: seq<Step>, c: nat)
    requires Inv(s) && c < CHANNEL_LIMIT && s.channels[c].active && StaysOpen(s, steps, c)
    ensures AlwaysLossless(s, steps, c) <==> NeverOvertaken(s, steps, c)
    decreases |steps|, 1
  {
    if |steps| == 0 {
      LosslessStart(s, steps, c);
    } else {
      PipeRunLast(s, steps, c);
    }
  }

  lemma PipeRunLast(s: State, steps: seq<Step>, c: nat)
    requires Inv(s) && c < CHANNEL_LIMIT && s.channels[c].active && |steps| > 0 && StaysOpen(s, steps, c)
    ensures AlwaysLossless(s, steps, c) <==> NeverOvertaken(s, steps, c)
    decreases |steps|, 0
  {
    InvShape(s);
    hide *;
    UnrollRun(s, steps, c);
    PipeRun(s, steps[..|steps| - 1], c);
    if Lossless(s, steps[..|steps| - 1], c) { LosslessUnlessOvertaken(s, steps, c); }
  }

  lemma CleaningNeverOvertakes(s: State, step: Step, c: nat)
    requires Shape(s) && c < CHANNEL_LIMIT && CleanedPid(s, step).Some?
    ensures !Overtaking(s, step, c)
  {
  }

  /** In particular when no receiver ever goes to sleep in front of a message too long for it. */
  lemma {:induction false} ReadyRun(s: State, steps: seq<Step>, c: nat)
    requires Inv(s) && c < CHANNEL_LIMIT && s.channels[c].active && ReadyPipe(s.channels[c])
    requires StaysOpen(s, steps, c) && NeverOversized(s, steps, c)
    ensures AlwaysLossless(s, steps, c) && ReadyPipe(Run(s, steps).channels[c])
    decreases |steps|
  {
    PipeRun(s, steps, c);
    if |steps| > 0 {
      var k := |steps| - 1;
      ReadyRun(s, steps[..k], c);
      PipeRun(s, steps[..k], c);
      OpenAt(s, steps[..k], c);
      RunInv(s, steps[..k]);
      PipeStep(Run(s, steps[..k]), steps[k], c);
    }
    hide Lossless, Overtaking, OversizedWait, Conserved, Inv, Next;
  }

  /** The receive that does so leaves its caller asleep in front of the queued messages ... */
  lemma OversizedSleeps(s: State, step: Step, c: nat)
    requires Inv(s) && c < CHANNEL_LIMIT && OversizedWait(s, step, c)
    ensures var r := Next(s, step).state;
            && r.channels[c] == s.channels[c].(waiter := Waiter(true, s.sched.current, step.capacity, false))
            && !ReadyPipe(r.channels[c]) && Ring(r.channels[c]) == Ring(s.channels[c])
            && r.sched.tasks[s.sched.current].state == Blocked
  {
    var r := Next(s, step).state;
    BlockInv(s.sched);
    AwakeUnregistered(s, s.sched.current);
    assert Receive(s, step.chan, step.capacity).message == None;
    assert r.channels[c] == s.channels[c].(waiter := Waiter(true, s.sched.current, step.capacity, false));
    assert Ring(r.channels[c]) == Ring(s.channels[c]);
  }

  /** ... and while it sleeps there, the next message that fits overtakes them. */
  lemma Overtakes(s: State, c: nat, data: seq<bv8>)
    requires Inv(s) && s.sched.current != 0 && c < CHANNEL_LIMIT && s.channels[c].active
    requires !ReadyPipe(s.channels[c]) && s.sched.tasks[s.channels[c].waiter.pid].state == Blocked
    requires 0 < |data| <= s.channels[c].waiter.capacity
    ensures var o := Next(s, Send(Some(c), data));
            && o.delivered == Some((c, Message(s.sched.current, data)))
            && Ring(o.state.channels[c]) == Ring(s.channels[c]) && |Ring(s.channels[c])| > 0
            && (Ring(s.channels[c])[0] != Message(s.sched.current, data) ==> !Conserved(s, o, c))
  {
    assert WaiterOk(s, s.channels[c].waiter, 0);
    var o := Next(s, Send(Some(c), data));
    assert Ring(o.state.channels[c]) == Ring(s.channels[c]);
    var a := Outstanding(s.channels[c]);
    assert (a + [Message(s.sched.current, data)])[0] == Ring(s.channels[c])[0];
  }
}
