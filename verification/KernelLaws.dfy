/** Exactly when each kernel entry does what, and what it then leaves, said of the fields of the
    tables alone. */
module KernelLaws {
  import opened KernelState
  import opened KernelInvariants
  import opened KernelSteps
  import opened KernelPipes
  import opened KernelFairness
  import opened Options

  /** No channel but `c` differs. */
  ghost predicate OnlyChannel(s: State, r: State, c: nat) {
    |r.channels| == |s.channels| && forall d | 0 <= d < |s.channels| && d != c :: r.channels[d] == s.channels[d]
  }

  /** The caller sleeps; it is in no wait for a child and has no timeout. */
  ghost predicate FellAsleep(s: State, r: State)
    requires Shape(s) && Shape(r)
  {
    var t := r.sched.tasks[s.sched.current];
    t == s.sched.tasks[s.sched.current].(state := Blocked, waitingFor := None) && r.sched.current != s.sched.current
  }

  // ----- send -----

  /** What it takes for a message to be accepted: a sleeping receiver with enough room, or else a
      free cell of the ring or of the parking place. */
  predicate Takes(s: State, c: nat, length: nat)
    requires Shape(s) && c < CHANNEL_LIMIT
  {
    var ch := s.channels[c];
    && ch.active && 0 < length <= MESSAGE_MAX
    && if ch.waiter.active
       then length <= ch.waiter.capacity && ch.waiter.pid < PROCESS_LIMIT && s.sched.tasks[ch.waiter.pid].state == Blocked
       else ch.count < QUEUE_DEPTH || !ch.sender.active
  }

  /** A send of the running user is accepted exactly when the channel takes it. */
  lemma SendAccepted(s: State, c: nat, data: seq<bv8>)
    requires Inv(s) && s.sched.current != 0 && c < CHANNEL_LIMIT
    ensures Next(s, Send(Some(c), data)).accepted
            == if Takes(s, c, |data|) then Some((c, Message(s.sched.current, data))) else None
  {
    assert WaiterOk(s, s.channels[c].waiter, 0);
  }

  /** Accepted by a sleeping receiver: handed over, and nothing queued. */
  lemma SendHandsOver(s: State, c: nat, data: seq<bv8>)
    requires Inv(s) && s.sched.current != 0 && c < CHANNEL_LIMIT && Takes(s, c, |data|) && s.channels[c].waiter.active
    ensures var o := Next(s, Send(Some(c), data)); var ch := s.channels[c];
            && o.delivered == Some((c, Message(s.sched.current, data))) && OnlyChannel(s, o.state, c)
            && o.state.channels[c] == ch.(waiter := ch.waiter.(active := false))
            && o.state.sched.tasks[ch.waiter.pid]
               == s.sched.tasks[ch.waiter.pid].(state := Ready, waitingFor := None, timedWait := false,
                                                result := if ch.waiter.multiplex then 1 else |data|,
                                                detail := if ch.waiter.multiplex then |data| else s.sched.current)
            && (forall p | 0 <= p < PROCESS_LIMIT && p != ch.waiter.pid :: o.state.sched.tasks[p] == s.sched.tasks[p])
            && o.state.sched.current == s.sched.current
  {
    assert WaiterOk(s, s.channels[c].waiter, 0);
  }

  /** Accepted with room in the ring: appended, and the caller runs on. */
  lemma SendQueues(s: State, c: nat, data: seq<bv8>)
    requires Inv(s) && s.sched.current != 0 && c < CHANNEL_LIMIT && Takes(s, c, |data|)
    requires !s.channels[c].waiter.active && s.channels[c].count < QUEUE_DEPTH
    ensures var o := Next(s, Send(Some(c), data)); var ch := s.channels[c]; var d := o.state.channels[c];
            && o.delivered == None && OnlyChannel(s, o.state, c) && o.state.sched == s.sched && o.state.input == s.input
            && Ring(d) == Ring(ch) + [Message(s.sched.current, data)]
            && d == ch.(messages := d.messages, write := d.write, count := ch.count + 1)
  {
    EnqueueRing(s.channels[c], Message(s.sched.current, data));
  }

  /** Accepted with the ring full: parked with its bytes, and the caller sleeps. */
  lemma SendParks(s: State, c: nat, data: seq<bv8>)
    requires Inv(s) && s.sched.current != 0 && c < CHANNEL_LIMIT && s.channels[c].active && 0 < |data| <= MESSAGE_MAX
    requires !s.channels[c].waiter.active && s.channels[c].count == QUEUE_DEPTH && !s.channels[c].sender.active
    ensures var o := Next(s, Send(Some(c), data));
            && o.accepted == Some((c, Message(s.sched.current, data))) && o.delivered == None
            && OnlyChannel(s, o.state, c) && o.state.input == s.input
            && o.state.channels[c] == s.channels[c].(sender := ParkedSender(true, s.sched.current, data))
            && FellAsleep(s, o.state)
  {
    SleepLaw(s);
  }

  /** Not accepted: nothing changes, except that a receiver the message is handed to in vain is
      struck off. */
  lemma SendRefuses(s: State, c: nat, data: seq<bv8>)
    requires Inv(s) && s.sched.current != 0 && c < CHANNEL_LIMIT && !Takes(s, c, |data|)
    ensures var o := Next(s, Send(Some(c), data)); var ch := s.channels[c];
            && o.delivered == None && OnlyChannel(s, o.state, c) && o.state.sched == s.sched
            && if ch.active && ch.waiter.active && 0 < |data| <= MESSAGE_MAX
               then o.state.channels[c] == ch.(waiter := ch.waiter.(active := false))
               else o.state == s
  {
    assert WaiterOk(s, s.channels[c].waiter, 0);
  }

  /** Blocking puts the running user to sleep and gives its processor away. */
  lemma SleepLaw(s: State)
    requires Inv(s) && s.sched.current != 0
    ensures var r := s.(sched := BlockCurrent(s.sched)); FellAsleep(s, r)
  {
    BlockInv(s.sched);
    var b := SetTask(s.sched, s.sched.current, s.sched.tasks[s.sched.current].(state := Blocked, waitingFor := None));
    NextReadySpec(b.tasks, b.current);
  }

  // ----- receive -----

  /** The oldest message is there and fits. */
  ghost predicate HasFor(s: State, c: nat, capacity: nat)
    requires Shape(s) && c < CHANNEL_LIMIT
  {
    s.channels[c].active && |Ring(s.channels[c])| > 0 && |Ring(s.channels[c])[0].data| <= capacity
  }

  /** The parked message, if there is one. */
  function Parked(c: Channel): seq<Message> {
    if c.sender.active then [Message(c.sender.pid, c.sender.data)] else []
  }

  lemma HeadIs(c: Channel)
    requires RingOk(c)
    ensures |Ring(c)| == c.count && (c.count > 0 ==> Ring(c)[0] == c.messages[c.read])
  {
  }

  /** What taking the head leaves: the rest of the queue with the parked message behind it, and the
      parked sender awake with the length of its message. */
  ghost predicate TookHead(s: State, r: State, c: nat)
    requires Shape(s) && Shape(r) && c < CHANNEL_LIMIT
  {
    var ch, d := s.channels[c], r.channels[c];
    && |Ring(ch)| > 0 && OnlyChannel(s, r, c) && r.input == s.input
    && Ring(d) == Ring(ch)[1..] + Parked(ch) && d.count == |Ring(d)|
    && d == ch.(messages := d.messages, read := d.read, write := d.write, count := d.count,
                sender := ch.sender.(active := false))
    && (forall p | 0 <= p < PROCESS_LIMIT && !(ch.sender.active && p == ch.sender.pid && s.sched.tasks[p].state == Blocked) ::
          r.sched.tasks[p] == s.sched.tasks[p])
    && (ch.sender.active && ch.sender.pid < PROCESS_LIMIT && s.sched.tasks[ch.sender.pid].state == Blocked ==>
          r.sched.tasks[ch.sender.pid] == s.sched.tasks[ch.sender.pid].(state := Ready, waitingFor := None,
                                            timedWait := false, result := |ch.sender.data|, detail := 0))
    && r.sched == s.sched.(tasks := r.sched.tasks)
  }

  lemma ReceiveTakes(s: State, c: nat, capacity: nat)
    requires Inv(s) && c < CHANNEL_LIMIT
    ensures var r := Receive(s, Some(c), capacity);
            && r.message == (if HasFor(s, c, capacity) then Some(Ring(s.channels[c])[0]) else None)
            && if HasFor(s, c, capacity) then TookHead(s, r.state, c) else r.state == s
  {
    var ch := s.channels[c];
    HeadIs(ch);
    if HasFor(s, c, capacity) {
      DequeueRing(ch);
      var d := ch.(read := (ch.read + 1) % QUEUE_DEPTH, count := ch.count - 1);
      assert Ring(ch)[1..] == Ring(d);
      if ch.sender.active {
        assert SenderOk(s, ch);
        var e := d.(sender := ch.sender.(active := false));
        assert Ring(e) == Ring(d);
        EnqueueRing(e, Message(ch.sender.pid, ch.sender.data));
      } else {
        assert ch.sender.(active := false) == ch.sender;
      }
    }
  }

  /** A receive of the running user: it gets the oldest message exactly when that is there and fits;
      otherwise it sleeps on the channel exactly when it does not poll and nobody else sleeps there;
      otherwise nothing happens. */
  lemma ReceiveLaw(s: State, c: nat, capacity: nat, poll: bool)
    requires Inv(s) && s.sched.current != 0 && c < CHANNEL_LIMIT
    ensures var o := Next(s, Recv(Some(c), capacity, poll)); var ch := s.channels[c];
            && o.accepted == None
            && if 0 < capacity <= MESSAGE_MAX && HasFor(s, c, capacity)
               then o.delivered == Some((c, Ring(ch)[0])) && TookHead(s, o.state, c)
               else && o.delivered == None
                    && if 0 < capacity <= MESSAGE_MAX && !poll && ch.active && !ch.waiter.active
                       then && o.state.channels[c] == ch.(waiter := Waiter(true, s.sched.current, capacity, false))
                            && OnlyChannel(s, o.state, c) && o.state.input == s.input && FellAsleep(s, o.state)
                       else o.state == s
  {
    ReceiveTakes(s, c, capacity);
    SleepLaw(s);
    hide Inv, Receive, HasFor, TookHead, Ring, BlockCurrent;
  }

  // ----- select -----

  /** The caller sleeps until a message, an event, or the timeout after `delay` ticks. */
  ghost predicate Selects(s: State, r: State, c: nat, delay: nat)
    requires Shape(s) && Shape(r) && c < CHANNEL_LIMIT
  {
    var pid := s.sched.current;
    var t := s.sched.tasks[pid].(state := Blocked, waitingFor := None);
    && OnlyChannel(s, r, c) && r.channels[c] == s.channels[c].(waiter := Waiter(true, pid, MESSAGE_MAX, true))
    && r.input == s.input.(waiter := Some(pid)) && r.sched.current != pid
    && r.sched.tasks[pid] == if delay == 0 then t
                             else t.(timedWait := true, wakeTick := (s.sched.ticks + delay) % U64, timeoutResult := 3)
  }

  lemma TimedSleepLaw(s: State, delay: nat)
    requires Inv(s) && s.sched.current != 0 && delay != 0
    ensures var r := BlockCurrentTimeout(s.sched, delay, 3); var pid := s.sched.current;
            && r.current != pid
            && r.tasks[pid] == s.sched.tasks[pid].(state := Blocked, waitingFor := None, timedWait := true,
                                  wakeTick := (s.sched.ticks + delay) % U64, timeoutResult := 3)
  {
    BlockTimeoutInv(s.sched, delay, 3);
    var b := SetTask(s.sched, s.sched.current, TimedSleep(s.sched.tasks[s.sched.current], s.sched.ticks, delay, 3));
    NextReadySpec(b.tasks, b.current);
  }

  /** A select takes the oldest message if there is one, else the oldest event if there is one, else
      sleeps exactly when nobody waits on the channel or for input. */
  lemma SelectLaw(s: State, c: nat, delay: nat)
    requires Inv(s) && s.sched.current != 0 && c < CHANNEL_LIMIT
    ensures var o := Next(s, Select(Some(c), delay)); var ch := s.channels[c];
            && o.accepted == None
            && if ch.active && |Ring(ch)| > 0 then o.delivered == Some((c, Ring(ch)[0])) && TookHead(s, o.state, c)
               else && o.delivered == None
                    && if s.input.read != s.input.write
                       then o.state == s.(input := s.input.(read := (s.input.read + 1) % INPUT_CAPACITY))
                       else if ch.active && !ch.waiter.active && s.input.waiter == None then Selects(s, o.state, c, delay)
                       else Unwaited(s, o.state, c)
  {
    ReceiveTakes(s, c, MESSAGE_MAX);
    HeadIs(s.channels[c]);
    assert MessagesOk(s.channels[c]);
    AwakeUnregistered(s, s.sched.current);
    CancelNothing(s, s.sched.current);
    SleepLaw(s);
    if delay != 0 { TimedSleepLaw(s, delay); }
    if CanWait(s, Some(c), MESSAGE_MAX) && s.input.waiter.Some? { RegisterUndone(s, c); }
    hide Inv, Receive, TookHead, Ring, BlockCurrent, BlockCurrentTimeout, CancelChannelWait;
  }

  /** The half registration taken back leaves the record of nobody. */
  ghost predicate Unwaited(s: State, r: State, c: nat)
    requires Shape(s) && Shape(r) && c < CHANNEL_LIMIT
  {
    && r.sched == s.sched && r.input == s.input && OnlyChannel(s, r, c)
    && r.channels[c] == s.channels[c].(waiter := r.channels[c].waiter)
    && (r.channels[c].waiter == s.channels[c].waiter || !(r.channels[c].waiter.active || s.channels[c].waiter.active))
  }

  lemma RegisterUndone(s: State, c: nat)
    requires Inv(s) && s.sched.current != 0 && c < CHANNEL_LIMIT && CanWait(s, Some(c), MESSAGE_MAX)
    ensures var s1 := Register(s, s.sched.current, c, MESSAGE_MAX, true);
            Unwaited(s, s1.(channels := CancelChannelWait(s1.channels, s.sched.current)), c)
  {
    AwakeUnregistered(s, s.sched.current);
  }
}
