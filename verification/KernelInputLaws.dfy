/** The input ring as a queue of events, and opening a channel: exactly what each changes. */
module KernelInputLaws {
  import opened KernelState
  import opened KernelInvariants
  import opened KernelSteps
  import opened KernelLaws
  import opened Options

  // ----- the event queue -----

  function Length(read: nat, write: nat): nat
    requires read < INPUT_CAPACITY
  {
    (write + INPUT_CAPACITY - read) % INPUT_CAPACITY
  }

  /** The cell of event `k`. */
  function Cell(read: nat, k: nat): (c: nat)
    ensures c < INPUT_CAPACITY
  {
    (read + k) % INPUT_CAPACITY
  }

  /** The events not yet taken, oldest first. */
  ghost function Queued(i: Input): (q: seq<Event>)
    requires InputOk(i)
    ensures |q| == Length(i.read, i.write) && forall k | 0 <= k < |q| :: q[k] == i.queue[Cell(i.read, k)]
  {
    seq(Length(i.read, i.write), k requires 0 <= k < Length(i.read, i.write) => i.queue[Cell(i.read, k)])
  }

  /** A mouse move takes the place of a mouse move still last in the queue; anything else goes
      behind it, and is dropped when 127 events wait. */
  function Joined(q: seq<Event>, e: Event): seq<Event> {
    if e.kind == 3 && |q| > 0 && q[|q| - 1].kind == 3 then q[|q| - 1 := e]
    else if |q| == 127 then q
    else q + [e]
  }

  lemma LengthIs(read: nat, write: nat)
    requires read < INPUT_CAPACITY && write < INPUT_CAPACITY
    ensures Length(read, write) == if write >= read then write - read else write + INPUT_CAPACITY - read
  {
  }

  lemma CellIs(read: nat, k: nat)
    requires read < INPUT_CAPACITY && k < INPUT_CAPACITY
    ensures Cell(read, k) == if read + k < INPUT_CAPACITY then read + k else read + k - INPUT_CAPACITY
  {
  }

  /** The cell after `w`, and the one before. */
  lemma Beside(w: nat)
    requires w < INPUT_CAPACITY
    ensures (w + 1) % INPUT_CAPACITY == if w == 127 then 0 else w + 1
    ensures (w + INPUT_CAPACITY - 1) % INPUT_CAPACITY == if w == 0 then 127 else w - 1
  {
  }

  lemma Cells(i: Input)
    requires InputOk(i)
    ensures Cell(i.read, Length(i.read, i.write)) == i.write && Length(i.read, i.write) < INPUT_CAPACITY
    ensures Length(i.read, i.write) == 0 <==> i.read == i.write
    ensures (i.write + 1) % INPUT_CAPACITY == i.read <==> Length(i.read, i.write) == 127
    ensures Length(i.read, i.write) > 0 ==> Cell(i.read, Length(i.read, i.write) - 1) == (i.write + INPUT_CAPACITY - 1) % INPUT_CAPACITY
    ensures Length(i.read, i.write) < 127 ==> Length(i.read, (i.write + 1) % INPUT_CAPACITY) == Length(i.read, i.write) + 1
    ensures Length(i.read, i.write) > 0 ==> Length((i.read + 1) % INPUT_CAPACITY, i.write) == Length(i.read, i.write) - 1
  {
    Beside(i.write);
    Beside(i.read);
    LengthIs(i.read, i.write);
    LengthIs(i.read, (i.write + 1) % INPUT_CAPACITY);
    LengthIs((i.read + 1) % INPUT_CAPACITY, i.write);
    hide Cell, Length;
    CellIs(i.read, Length(i.read, i.write));
    if Length(i.read, i.write) > 0 { CellIs(i.read, Length(i.read, i.write) - 1); }
  }

  lemma CellsApart(read: nat, k: nat, m: nat)
    requires read < INPUT_CAPACITY && k < m < INPUT_CAPACITY
    ensures Cell(read, k) != Cell(read, m)
  {
  }

  lemma CellAfter(read: nat, k: nat)
    requires read < INPUT_CAPACITY
    ensures Cell((read + 1) % INPUT_CAPACITY, k) == Cell(read, k + 1) && Cell(read, 0) == read
  {
  }

  lemma PushLaw(i: Input, e: Event)
    requires InputOk(i)
    ensures var j := PushEvent(i, e);
            InputOk(j) && j.waiter == i.waiter && Queued(j) == Joined(Queued(i), e)
  {
    hide Cell, Length;
    var j := PushEvent(i, e);
    Cells(i);
    var q, n := Queued(i), Length(i.read, i.write);
    assert |Queued(j)| == |Joined(q, e)|;
    forall k | 0 <= k < |Queued(j)| ensures Queued(j)[k] == Joined(q, e)[k] {
      if k < n { CellsApart(i.read, k, n); }
      if k + 1 < n { CellsApart(i.read, k, n - 1); }
    }
  }

  /** Taking an event takes the oldest. */
  lemma PollLaw(i: Input)
    requires InputOk(i)
    ensures i.read != i.write <==> |Queued(i)| > 0
    ensures |Queued(i)| > 0 ==>
              var j := i.(read := (i.read + 1) % INPUT_CAPACITY);
              InputOk(j) && i.queue[i.read] == Queued(i)[0] && Queued(j) == Queued(i)[1..]
  {
    Cells(i);
    CellAfter(i.read, 0);
    if i.read != i.write {
      var j := i.(read := (i.read + 1) % INPUT_CAPACITY);
      forall k | 0 <= k < |Queued(i)| - 1 ensures Cell(j.read, k) == Cell(i.read, k + 1) { CellAfter(i.read, k); }
      hide Cell, Length;
      forall k | 0 <= k < |Queued(i)| - 1 ensures Queued(j)[k] == Queued(i)[1..][k] {
        assert Cell(j.read, k) == Cell(i.read, k + 1);
      }
    }
  }

  /** An event goes to the task that sleeps for input, which loses both halves of its select; with
      none it joins the queue; only the six known kinds do either. */
  lemma EventLaw(s: State, e: Event)
    requires Inv(s)
    ensures var r := Next(s, Step.Event(e)).state; var w := s.input.waiter;
            if e.kind < 1 || e.kind > 6 then r == s
            else && r.input.waiter == None
                 && if w.Some? && s.sched.tasks[w.value].state == Blocked
                    then && Queued(r.input) == Queued(s.input) && Unselected(s, r, w.value)
                         && r.sched == s.sched.(tasks := s.sched.tasks[w.value := s.sched.tasks[w.value].(state := Ready,
                              waitingFor := None, timedWait := false, result := 2, detail := 40)])
                    else && Queued(r.input) == Joined(Queued(s.input), e) && r.sched == s.sched
                         && if w.Some? then Unselected(s, r, w.value) else r.channels == s.channels
  {
    assert InputWaiterOk(s);
    var i := s.input.(waiter := None);
    assert Queued(i) == Queued(s.input);
    PushLaw(i, e);
    PushLaw(s.input, e);
    hide PushEvent, RegistryX, SchedInv;
  }

  /** No channel has `p` waiting any more; nothing else changed on them. */
  ghost predicate Unselected(s: State, r: State, p: nat) {
    |r.channels| == |s.channels| && forall c | 0 <= c < |s.channels| ::
      r.channels[c] == if s.channels[c].active && s.channels[c].waiter.active && s.channels[c].waiter.pid == p
                       then s.channels[c].(waiter := s.channels[c].waiter.(active := false)) else s.channels[c]
  }

  // ----- opening a channel -----

  ghost predicate LowestFree(cs: seq<Channel>, c: nat) {
    c < |cs| && !cs[c].active && forall d | 0 <= d < c :: cs[d].active
  }

  lemma {:induction false} FirstFreeIs(cs: seq<Channel>, i: nat)
    requires i <= |cs|
    ensures var r := FirstFree(cs, i);
            i <= r <= |cs| && (r < |cs| ==> !cs[r].active) && forall d | i <= d < r :: cs[d].active
    decreases |cs| - i
  {
    if i < |cs| && cs[i].active { FirstFreeIs(cs, i + 1); }
  }

  /** What a channel's name and a handle for its owner allow. */
  predicate MayOpen(s: State, name: seq<char>) {
    0 < |name| < 24 && forall d | 0 <= d < |s.channels| && s.channels[d].active :: s.channels[d].name != name
  }

  /** A channel is opened in the lowest free slot, empty and owned by the caller, exactly under a new
      name of 1 to 23 characters while a slot is free and the owner's handle could be made. */
  lemma OpenLaw(s: State, name: seq<char>, granted: bool)
    requires Inv(s) && s.sched.current != 0
    ensures var r := Next(s, OpenChannel(name, granted)).state;
            && r.sched == s.sched && r.input == s.input
            && if MayOpen(s, name) && exists c: nat :: LowestFree(s.channels, c)
               then exists c: nat :: LowestFree(s.channels, c) && OnlyChannel(s, r, c)
                      && r.channels[c].active == granted && r.channels[c].owner == s.sched.current
                      && r.channels[c].name == name && r.channels[c].count == 0
                      && !r.channels[c].waiter.active && !r.channels[c].sender.active
               else r == s
  {
    FirstFreeIs(s.channels, 0);
    var i := FirstFree(s.channels, 0);
    assert i < |s.channels| ==> LowestFree(s.channels, i);
    assert (exists c: nat :: LowestFree(s.channels, c)) ==> i < |s.channels|;
    assert NameTaken(s.channels, name) <==> !(forall d | 0 <= d < |s.channels| && s.channels[d].active :: s.channels[d].name != name);
  }

  /** A call on a handle that stands for no channel does nothing; a select still takes events. */
  lemma NoChannelLaw(s: State, data: seq<bv8>, capacity: nat, poll: bool, delay: nat)
    requires Inv(s) && s.sched.current != 0
    ensures Next(s, Send(None, data)) == Outcome(s, None, None)
    ensures Next(s, Recv(None, capacity, poll)) == Outcome(s, None, None)
    ensures Next(s, Select(None, delay))
            == Outcome(if |Queued(s.input)| > 0 then s.(input := s.input.(read := (s.input.read + 1) % INPUT_CAPACITY)) else s,
                       None, None)
  {
    PollLaw(s.input);
    AwakeUnregistered(s, s.sched.current);
    CancelNothing(s, s.sched.current);
    hide CancelChannelWait, Queued;
  }
}
