/**
 The stall/run protocol between the hardware monitor thread, the servers listening to it, the
 GDB server that drives it, and a GDB client, as a state machine over atomic steps. Every pipe
 is a FIFO and the CPU may stop on its own at any time.
 */
module MonitorProtocol {

  /** The bytes 'S' and 'U' from a server to the monitor. */
  datatype Command = Stall | Unstall

  /** The bytes 'H' and 'R' from the monitor to a server. */
  datatype Event = Halted | Running

  /** A registered server: its two pipes, its idea of the target, and whether it heard anything yet. */
  datatype Conn = Conn(cmds: seq<Command>, events: seq<Event>, view: bool, notified: bool)

  /** What the monitor thread owns, with the stall bit of the CPU it polls. */
  datatype Monitor = Monitor(cpuStalled: bool, targetIsRunning: bool, conns: seq<Conn>)

  function Notified(c: Conn, e: Event): Conn
  {
    c.(events := c.events + [e], notified := true)
  }

  function Notify(m: Monitor, e: Event): (r: Monitor)
    ensures |r.conns| == |m.conns|
  {
    m.(conns := seq(|m.conns|, i requires 0 <= i < |m.conns| => Notified(m.conns[i], e)))
  }

  /** stall_cpu: write the stall bit and remember the result. */
  function StallCpu(m: Monitor, stall: bool): Monitor
  {
    m.(cpuStalled := stall, targetIsRunning := !stall)
  }

  /** One command byte taken from connection i. */
  function TakeCommand(m: Monitor, i: nat): (r: Monitor)
    requires i < |m.conns| && m.conns[i].cmds != []
    ensures |r.conns| == |m.conns|
  {
    var c := m.conns[i];
    var popped := m.(conns := m.conns[i := c.(cmds := c.cmds[1..])]);
    if c.cmds[0] == Stall then
      Notify(if m.targetIsRunning then StallCpu(popped, true) else popped, Halted)
    else
      Notify(if m.targetIsRunning then popped else StallCpu(popped, false), Running)
  }

  /** The poll after a quiet quarter second. */
  function Poll(m: Monitor): (r: Monitor)
    ensures |r.conns| == |m.conns|
  {
    if m.targetIsRunning && m.cpuStalled then Notify(m.(targetIsRunning := false), Halted) else m
  }

  /** Registration appends; removal moves the last connection into the vacated slot. */
  function Remove(conns: seq<Conn>, i: nat): (r: seq<Conn>)
    requires i < |conns|
    ensures |r| == |conns| - 1
  {
    conns[i := conns[|conns| - 1]][..|conns| - 1]
  }

  /** The server's view after it has read everything still in its pipe. */
  function Replay(view: bool, events: seq<Event>): bool
  {
    if events == [] then view else events[|events| - 1] == Running
  }

  // ---------- The GDB server and its client ----------

  /** Packets from GDB: the out-of-band break, a continue or step, and the `?` query. */
  datatype Packet = Break | Run | Query

  /** A stop reply, with what was true when it was sent. */
  datatype Report = Report(stalled: bool, answersQuery: bool, notified: bool)

  /**
   The whole system. Connection rsp belongs to the GDB server; clientBusy is the client waiting
   for the stop reply to its last run command.
   */
  datatype State = State(
    mon: Monitor,
    rsp: nat,
    clientWaiting: bool,
    inbox: seq<Packet>,
    clientBusy: bool,
    reports: seq<Report>)

  datatype Step =
    | SelfStop
    | ReadCommand(i: nat)
    | PollTarget
    | Listen(i: nat)
    | RspEvent
    | RspPacket
    | ClientSends(p: Packet)
    | Register(view: bool)
    | Unregister(i: nat)

  function SetConn(s: State, i: nat, c: Conn): State
    requires i < |s.mon.conns|
  {
    s.(mon := s.mon.(conns := s.mon.conns[i := c]))
  }

  function Reported(s: State, answersQuery: bool): State
    requires s.rsp < |s.mon.conns|
  {
    s.(reports := s.reports + [Report(s.mon.cpuStalled, answersQuery, s.mon.conns[s.rsp].notified)])
  }

  /** The pipe branch of handle_rsp. */
  function HandleEvent(s: State): State
    requires s.rsp < |s.mon.conns| && s.mon.conns[s.rsp].events != []
  {
    var c := s.mon.conns[s.rsp];
    var rest := c.(events := c.events[1..]);
    if c.events[0] == Running then
      SetConn(s, s.rsp, rest.(view := true))
    else
      var s' := SetConn(s, s.rsp, rest.(view := false));
      if c.view && s.clientWaiting then
        Reported(s', false).(clientWaiting := false, clientBusy := false)
      else s'
  }

  /** rsp_client_request, for the packets that matter here. */
  function HandlePacket(s: State): State
    requires s.rsp < |s.mon.conns| && s.inbox != []
  {
    var c := s.mon.conns[s.rsp];
    var s' := s.(inbox := s.inbox[1..]);
    match s.inbox[0]
    case Break => if c.view then SetConn(s', s.rsp, c.(cmds := c.cmds + [Stall])) else s'
    case Run =>
      if c.view then s'
      else SetConn(s', s.rsp, c.(cmds := c.cmds + [Unstall])).(clientWaiting := true)
    case Query => if c.view then s' else Reported(s', true)
  }

  /** One atomic step; a step that is not enabled changes nothing. */
  function Next(s: State, step: Step): State
    requires s.rsp < |s.mon.conns|
  {
    match step
    case SelfStop => s.(mon := s.mon.(cpuStalled := true))
    case ReadCommand(i) =>
      if i < |s.mon.conns| && s.mon.conns[i].cmds != [] then s.(mon := TakeCommand(s.mon, i)) else s
    case PollTarget => s.(mon := Poll(s.mon))
    case Listen(i) =>
      if i < |s.mon.conns| && i != s.rsp && s.mon.conns[i].events != [] then
        var c := s.mon.conns[i];
        SetConn(s, i, c.(events := c.events[1..], view := c.events[0] == Running))
      else s
    case RspEvent => if s.mon.conns[s.rsp].events != [] then HandleEvent(s) else s
    case RspPacket => if s.inbox != [] then HandlePacket(s) else s
    case ClientSends(p) =>
      // the client sends one run command per stop reply, and asks nothing while it waits
      if p == Break then s.(inbox := s.inbox + [Break])
      else if s.clientBusy then s
      else s.(inbox := s.inbox + [p], clientBusy := p == Run)
    case Register(view) => s.(mon := s.mon.(conns := s.mon.conns + [Conn([], [], view, false)]))
    case Unregister(i) =>
      if i < |s.mon.conns| && i != s.rsp then
        s.(mon := s.mon.(conns := Remove(s.mon.conns, i)),
           rsp := if s.rsp == |s.mon.conns| - 1 then i else s.rsp)
      else s
  }

  function Exec(s: State, steps: seq<Step>): State
    requires Inv(s)
    decreases steps
  {
    if steps == [] then s else
      StepKeepsInv(s, steps[0]);
      Exec(Next(s, steps[0]), steps[1..])
  }

  // ---------- The invariant ----------

  /** A server that has heard anything will believe the monitor once it has caught up. */
  ghost predicate ConnOk(c: Conn, running: bool)
  {
    if c.notified then Replay(c.view, c.events) == running else c.events == []
  }

  ghost predicate MonitorOk(m: Monitor)
  {
    && (!m.targetIsRunning ==> m.cpuStalled)
    && forall i :: 0 <= i < |m.conns| ==> ConnOk(m.conns[i], m.targetIsRunning)
  }

  function CountUnstall(cmds: seq<Command>): nat
  {
    if cmds == [] then 0 else (if cmds[0] == Unstall then 1 else 0) + CountUnstall(cmds[1..])
  }

  function CountRunning(events: seq<Event>): nat
  {
    if events == [] then 0 else (if events[0] == Running then 1 else 0) + CountRunning(events[1..])
  }

  predicate OnlyBreaks(inbox: seq<Packet>)
  {
    forall i :: 0 <= i < |inbox| ==> inbox[i] == Break
  }

  predicate NoRun(inbox: seq<Packet>)
  {
    forall i :: 0 <= i < |inbox| ==> inbox[i] != Run
  }

  /** One run command, with nothing but breaks behind it. */
  predicate OneRun(inbox: seq<Packet>)
  {
    inbox != [] && (if inbox[0] == Run then OnlyBreaks(inbox[1..]) else OneRun(inbox[1..]))
  }

  /**
   A run command is in exactly one place: in the client's stream, on the command pipe, on its
   way back as a Running event, or being executed.
   */
  ghost predicate RspOk(c: Conn, waiting: bool, busy: bool, inbox: seq<Packet>)
  {
    && (c.view ==> waiting && c.notified)
    && CountUnstall(c.cmds) + CountRunning(c.events) == (if waiting && !c.view then 1 else 0)
    && (if waiting then busy && OnlyBreaks(inbox) else if busy then OneRun(inbox) else NoRun(inbox))
  }

  ghost predicate Inv(s: State)
  {
    && s.rsp < |s.mon.conns|
    && MonitorOk(s.mon)
    && (forall i :: 0 <= i < |s.mon.conns| && i != s.rsp ==> s.mon.conns[i].cmds == [])
    && RspOk(s.mon.conns[s.rsp], s.clientWaiting, s.clientBusy, s.inbox)
    && forall i :: 0 <= i < |s.reports| ==> Honest(s.reports[i])
  }

  /**
   A stop reply is honest if the CPU was stalled when it was sent. The one excuse is a `?`
   answered before the monitor has ever spoken to this server.
   */
  predicate Honest(r: Report)
  {
    r.stalled || (r.answersQuery && !r.notified)
  }

  /** Right after a client connects: the stall command is in the pipe and nothing else is known. */
  ghost predicate Connected(s: State)
  {
    && s.rsp < |s.mon.conns|
    && s.mon.conns[s.rsp] == Conn([Stall], [], false, false)
    && MonitorOk(s.mon)
    && (forall i :: 0 <= i < |s.mon.conns| && i != s.rsp ==> s.mon.conns[i].cmds == [])
    && !s.clientWaiting && !s.clientBusy && s.inbox == [] && s.reports == []
  }

  // ---------- Preservation ----------

  lemma {:induction false} UnstallAppend(cmds: seq<Command>, c: Command)
    ensures CountUnstall(cmds + [c]) == CountUnstall(cmds) + (if c == Unstall then 1 else 0)
  {
    if cmds == [] {
      assert cmds + [c] == [c];
    } else {
      assert (cmds + [c])[1..] == cmds[1..] + [c];
      UnstallAppend(cmds[1..], c);
    }
  }

  lemma {:induction false} RunningAppend(events: seq<Event>, e: Event)
    ensures CountRunning(events + [e]) == CountRunning(events) + (if e == Running then 1 else 0)
  {
    if events == [] {
      assert events + [e] == [e];
    } else {
      assert (events + [e])[1..] == events[1..] + [e];
      RunningAppend(events[1..], e);
    }
  }

  lemma {:induction false} NoneRunning(events: seq<Event>)
    requires CountRunning(events) == 0
    ensures forall i :: 0 <= i < |events| ==> events[i] == Halted
  {
    if events != [] {
      NoneRunning(events[1..]);
    }
  }

  lemma {:induction false} InboxAppend(inbox: seq<Packet>)
    ensures OneRun(inbox) ==> OneRun(inbox + [Break])
    ensures NoRun(inbox) ==> OneRun(inbox + [Run])
  {
    if inbox != [] {
      assert (inbox + [Break])[1..] == inbox[1..] + [Break];
      assert (inbox + [Run])[1..] == inbox[1..] + [Run];
      InboxAppend(inbox[1..]);
    }
  }

  lemma {:induction false} CommandKeepsInv(s: State, i: nat)
    requires Inv(s)
    ensures Inv(Next(s, ReadCommand(i)))
  {
    if i < |s.mon.conns| && s.mon.conns[i].cmds != [] {
      assert i == s.rsp;
      var c := s.mon.conns[i];
      var m := Next(s, ReadCommand(i)).mon;
      RunningAppend(c.events, if c.cmds[0] == Stall then Halted else Running);
      assert MonitorOk(m);
    }
  }

  lemma {:induction false} PollKeepsInv(s: State)
    requires Inv(s)
    ensures Inv(Next(s, PollTarget))
  {
    RunningAppend(s.mon.conns[s.rsp].events, Halted);
  }

  lemma {:induction false} EventKeepsInv(s: State)
    requires Inv(s)
    ensures Inv(Next(s, RspEvent))
  {
    var c := s.mon.conns[s.rsp];
    if c.events != [] {
      var rest := c.events[1..];
      assert Replay(c.view, c.events) == Replay(c.events[0] == Running, rest);
      if c.events[0] == Halted && c.view {
        NoneRunning(c.events);
        assert !s.mon.targetIsRunning;
      }
    }
  }

  lemma {:induction false} PacketKeepsInv(s: State)
    requires Inv(s)
    ensures Inv(Next(s, RspPacket))
  {
    if s.inbox != [] {
      var c := s.mon.conns[s.rsp];
      UnstallAppend(c.cmds, Stall);
      UnstallAppend(c.cmds, Unstall);
      if s.inbox[0] == Query && !c.view && c.notified {
        NoneRunning(c.events);
        assert !s.mon.targetIsRunning;
      }
    }
  }

  lemma {:induction false} ClientKeepsInv(s: State, p: Packet)
    requires Inv(s)
    ensures Inv(Next(s, ClientSends(p)))
  {
    InboxAppend(s.inbox);
  }

  lemma {:induction false} ListenerKeepsInv(s: State, step: Step)
    requires Inv(s) && (step.Listen? || step.Register? || step.Unregister? || step.SelfStop?)
    ensures Inv(Next(s, step))
  {
  }

  lemma {:induction false} StepKeepsInv(s: State, step: Step)
    requires Inv(s)
    ensures Inv(Next(s, step))
  {
    match step
    case ReadCommand(i) => CommandKeepsInv(s, i);
    case PollTarget => PollKeepsInv(s);
    case RspEvent => EventKeepsInv(s);
    case RspPacket => PacketKeepsInv(s);
    case ClientSends(p) => ClientKeepsInv(s, p);
    case _ => ListenerKeepsInv(s, step);
  }

  lemma {:induction false} ExecKeepsInv(s: State, steps: seq<Step>)
    requires Inv(s)
    ensures Inv(Exec(s, steps))
    decreases steps
  {
    if steps != [] {
      StepKeepsInv(s, steps[0]);
      ExecKeepsInv(Next(s, steps[0]), steps[1..]);
    }
  }

  // ---------- The protocol's promises ----------

  lemma {:induction false} ConnectedIsInv(s: State)
    requires Connected(s)
    ensures Inv(s)
  {
    assert CountUnstall([Stall]) == 0;
  }

  /**
   Under every interleaving: the monitor believes the target stopped only when it is; every
   server that has been notified agrees with the monitor once it has read its pipe; every stop
   report is sent while the CPU is stalled, except a `?` answered before the first notification;
   and a run command is never met by a server that thinks the target is running.
   */
  lemma {:induction false} Safety(s: State, steps: seq<Step>)
    requires Connected(s)
    ensures Inv(s)
    ensures var t := Exec(s, steps);
      && t.rsp < |t.mon.conns|
      && (!t.mon.targetIsRunning ==> t.mon.cpuStalled)
      && (forall i :: 0 <= i < |t.mon.conns| && t.mon.conns[i].notified
            ==> Replay(t.mon.conns[i].view, t.mon.conns[i].events) == t.mon.targetIsRunning)
      && (forall r :: r in t.reports ==> r.stalled || (r.answersQuery && !r.notified))
      && (t.inbox != [] && t.inbox[0] == Run ==> !t.mon.conns[t.rsp].view)
  {
    ConnectedIsInv(s);
    ExecKeepsInv(s, steps);
    var t := Exec(s, steps);
    assert forall i :: 0 <= i < |t.mon.conns| ==> ConnOk(t.mon.conns[i], t.mon.targetIsRunning);
    forall r | r in t.reports
      ensures Honest(r)
    {
      var k :| 0 <= k < |t.reports| && t.reports[k] == r;
    }
  }

  /** Every report so far is true, and will be: until the monitor has spoken to us the CPU stands still. */
  ghost predicate AllTrue(s: State)
  {
    && Inv(s) && (!s.mon.conns[s.rsp].notified ==> s.mon.cpuStalled)
    && forall i :: 0 <= i < |s.reports| ==> s.reports[i].stalled
  }

  /** A step sends one report at most, and it says what the CPU is doing. */
  lemma {:induction false} StepReports(s: State, step: Step)
    requires Inv(s)
    ensures var t := Next(s, step);
      || t.reports == s.reports
      || exists q :: t.reports == s.reports + [Report(s.mon.cpuStalled, q, s.mon.conns[s.rsp].notified)]
  {
  }

  lemma {:induction false} StepKeepsTrue(s: State, step: Step)
    requires AllTrue(s)
    ensures AllTrue(Next(s, step))
  {
    StepKeepsInv(s, step);
    StepReports(s, step);
    var t := Next(s, step);
    if t.reports != s.reports {
      assert Honest(t.reports[|s.reports|]);
    }
  }

  lemma {:induction false} ExecKeepsTrue(s: State, steps: seq<Step>)
    requires AllTrue(s)
    ensures AllTrue(Exec(s, steps))
    decreases steps
  {
    if steps != [] {
      StepKeepsTrue(s, steps[0]);
      ExecKeepsTrue(Next(s, steps[0]), steps[1..]);
    }
  }

  /**
   Every stop report of every run after a client has connected is sent while the CPU is stalled,
   exactly if the CPU is stalled when the client connects.
   */
  lemma {:induction false} HonestExact(s: State)
    requires Connected(s)
    ensures Inv(s)
    ensures (forall steps :: forall r | r in Exec(s, steps).reports :: r.stalled) <==> s.mon.cpuStalled
  {
    ConnectedIsInv(s);
    if s.mon.cpuStalled {
      forall steps, r | r in Exec(s, steps).reports
        ensures r.stalled
      {
        ExecKeepsTrue(s, steps);
      }
    } else {
      EarlyQueryLies(s);
      var early := [ClientSends(Query), RspPacket];
      assert Report(false, true, false) in Exec(s, early).reports;
    }
  }

  /** The failing input: a `?` that overtakes the initial stall reports a stop of a running CPU. */
  lemma {:induction false} EarlyQueryLies(s: State)
    requires Connected(s)
    ensures Inv(s)
    ensures Exec(s, [ClientSends(Query), RspPacket]).reports == [Report(s.mon.cpuStalled, true, false)]
    ensures (forall r | r in Exec(s, [ClientSends(Query), RspPacket]).reports :: r.stalled) <==> s.mon.cpuStalled
  {
    ConnectedIsInv(s);
    var asked := Next(s, ClientSends(Query));
    StepKeepsInv(s, ClientSends(Query));
    assert asked == s.(inbox := [Query]);
    var answered := Next(asked, RspPacket);
    StepKeepsInv(asked, RspPacket);
    assert answered.reports == [Report(s.mon.cpuStalled, true, false)];
    ExecTwo(s, ClientSends(Query), RspPacket);
    assert answered.reports[0] in answered.reports;
  }

  lemma {:induction false} ExecTwo(s: State, a: Step, b: Step)
    requires Inv(s)
    ensures Inv(Next(s, a)) && Exec(s, [a, b]) == Next(Next(s, a), b)
  {
    StepKeepsInv(s, a);
    StepKeepsInv(Next(s, a), b);
    assert [a, b][1..] == [b] && [b][1..] == [];
    assert Exec(Next(Next(s, a), b), []) == Next(Next(s, a), b);
    assert Exec(Next(s, a), [b]) == Next(Next(s, a), b);
  }

  /** There are such states in which the CPU runs. */
  lemma {:induction false} RunningWhenConnected()
    ensures exists s: State :: Connected(s) && !s.mon.cpuStalled
  {
    var s := State(Monitor(false, true, [Conn([Stall], [], false, false)]), 0, false, [], false, []);
    assert Connected(s) && !s.mon.cpuStalled;
  }

  /** Nothing is on its way between the client, the server and the monitor. */
  predicate Quiescent(s: State)
    requires s.rsp < |s.mon.conns|
  {
    s.inbox == [] && s.mon.conns[s.rsp].cmds == [] && s.mon.conns[s.rsp].events == []
  }

  /**
   No stop is lost: when a waiting client has nothing left in flight, the monitor still polls the
   target, so a CPU that is stalled will be noticed and reported.
   */
  lemma {:induction false} NoLostStop(s: State, steps: seq<Step>)
    requires Connected(s)
    ensures Inv(s)
    ensures var t := Exec(s, steps);
      && t.rsp < |t.mon.conns|
      && (t.clientBusy && Quiescent(t) ==> t.mon.targetIsRunning && t.clientWaiting && t.mon.conns[t.rsp].view)
  {
    ConnectedIsInv(s);
    ExecKeepsInv(s, steps);
    BusyIsRunning(Exec(s, steps));
  }

  lemma {:induction false} BusyIsRunning(s: State)
    requires Inv(s)
    ensures s.clientBusy && Quiescent(s) ==>
      s.mon.targetIsRunning && s.clientWaiting && s.mon.conns[s.rsp].view && s.mon.conns[s.rsp].notified
  {
    assert ConnOk(s.mon.conns[s.rsp], s.mon.targetIsRunning);
  }

  /** The client has got its stop reply, and the CPU was stalled when it was sent. */
  predicate Answered(s: State)
  {
    !s.clientBusy && s.reports != [] && s.reports[|s.reports| - 1].stalled && !s.reports[|s.reports| - 1].answersQuery
  }

  /** A stalled CPU is noticed by the next poll and reported by the next event. */
  lemma {:induction false} StopReported(s: State)
    requires Inv(s) && s.clientBusy && Quiescent(s) && s.mon.cpuStalled
    ensures Exec(s, [PollTarget, RspEvent]).reports == s.reports + [Report(true, false, true)]
    ensures var t := Exec(s, [PollTarget, RspEvent]);
      Answered(t) && !t.clientWaiting && t.rsp < |t.mon.conns| && Quiescent(t) && !t.mon.conns[t.rsp].view
  {
    BusyIsRunning(s);
    var polled := Next(s, PollTarget);
    assert polled.mon.conns[s.rsp].events == [] + [Halted] == [Halted];
    ExecTwo(s, PollTarget, RspEvent);
  }

  /** What the servers, the monitor and the CPU do by themselves. */
  predicate Internal(step: Step)
  {
    step.SelfStop? || step.ReadCommand? || step.PollTarget? || step.RspEvent? || step.RspPacket?
  }

  lemma {:induction false} ExecCons(s: State, step: Step, rest: seq<Step>)
    requires Inv(s)
    ensures Inv(Next(s, step)) && Exec(s, [step] + rest) == Exec(Next(s, step), rest)
  {
    StepKeepsInv(s, step);
    assert ([step] + rest)[1..] == rest;
  }

  /** While the client waits, only its stop reply can end that. */
  lemma {:induction false} BusyUntilAnswered(s: State, step: Step)
    requires Inv(s) && s.clientBusy && Internal(step)
    ensures Next(s, step).clientBusy || Answered(Next(s, step))
  {
    StepKeepsInv(s, step);
    if !Next(s, step).clientBusy {
      assert Honest(Next(s, step).reports[|s.reports|]);
    }
  }

  /** What is in flight: a packet may become a command, and a command an event. */
  function InFlight(s: State): nat
    requires s.rsp < |s.mon.conns|
  {
    3 * |s.inbox| + 2 * |s.mon.conns[s.rsp].cmds| + |s.mon.conns[s.rsp].events|
  }

  function Pending(s: State): (step: Step)
    requires s.rsp < |s.mon.conns| && !Quiescent(s)
    ensures Internal(step)
  {
    if s.mon.conns[s.rsp].events != [] then RspEvent
    else if s.mon.conns[s.rsp].cmds != [] then ReadCommand(s.rsp)
    else RspPacket
  }

  lemma {:induction false} PendingDrains(s: State)
    requires Inv(s) && !Quiescent(s)
    ensures var t := Next(s, Pending(s)); t.rsp < |t.mon.conns| && InFlight(t) < InFlight(s)
  {
    StepKeepsInv(s, Pending(s));
  }

  /**
   No deadlock: from every state in which the client waits for a stop reply, the servers, the
   monitor and a CPU that stops can go on to one in which it has got it, truthfully.
   */
  lemma {:induction false} AlwaysAnswered(s: State) returns (steps: seq<Step>)
    requires Inv(s) && s.clientBusy
    ensures Answered(Exec(s, steps)) && forall i :: 0 <= i < |steps| ==> Internal(steps[i])
    decreases InFlight(s)
  {
    if Quiescent(s) {
      var stopped := Next(s, SelfStop);
      ExecCons(s, SelfStop, [PollTarget, RspEvent]);
      StopReported(stopped);
      steps := [SelfStop] + [PollTarget, RspEvent];
    } else {
      var step := Pending(s);
      var next := Next(s, step);
      BusyUntilAnswered(s, step);
      PendingDrains(s);
      var rest := [];
      ExecCons(s, step, []);
      if next.clientBusy {
        rest := AlwaysAnswered(next);
        ExecCons(s, step, rest);
      }
      steps := [step] + rest;
    }
  }

  // ---------- Every fair run answers ----------

  /** An endless run: the states, and the steps between them. */
  datatype Trace = Trace(at: nat -> State, step: nat -> Step)

  ghost predicate Follows(tr: Trace, n: nat)
  {
    Inv(tr.at(n)) && Inv(tr.at(n + 1)) && tr.at(n + 1) == Next(tr.at(n), tr.step(n))
  }

  /** A run in which the client waits in silence. */
  ghost predicate Silent(tr: Trace)
  {
    forall n: nat :: Follows(tr, n) && !tr.step(n).ClientSends?
  }

  /** What must not stop happening: reading the event pipe, the client's packets and the command pipe, polling. */
  datatype Duty = PipeRead | PacketRead | CommandRead | TargetPolled | TargetStops

  predicate IsDuty(s: State, step: Step, d: Duty)
  {
    match d
    case PipeRead => step == RspEvent
    case PacketRead => step == RspPacket
    case CommandRead => step == ReadCommand(s.rsp)
    case TargetPolled => step == PollTarget
    case TargetStops => step == SelfStop
  }

  ghost predicate Does(tr: Trace, j: nat, d: Duty)
  {
    IsDuty(tr.at(j), tr.step(j), d)
  }

  ghost predicate Again(tr: Trace, i: nat, d: Duty)
  {
    exists j: nat :: i <= j && Does(tr, j, d)
  }

  /** Each duty but the CPU's is done again and again. */
  ghost predicate Fair(tr: Trace)
  {
    forall i: nat, d: Duty :: d != TargetStops ==> Again(tr, i, d)
  }

  ghost predicate StopsAfter(tr: Trace, i: nat)
  {
    tr.at(i).mon.cpuStalled || Again(tr, i, TargetStops)
  }

  /** A CPU that runs stops again. */
  ghost predicate Stops(tr: Trace)
  {
    forall i: nat :: StopsAfter(tr, i)
  }

  function CountRun(inbox: seq<Packet>): nat
  {
    if inbox == [] then 0 else (if inbox[0] == Run then 1 else 0) + CountRun(inbox[1..])
  }

  /** The work still to be done: run commands weigh more, since they start the CPU and its polling anew. */
  function Work(s: State): nat
    requires s.rsp < |s.mon.conns|
  {
    var c := s.mon.conns[s.rsp];
    3 * |s.inbox| + 3 * CountRun(s.inbox) + 2 * |c.cmds| + 3 * CountUnstall(c.cmds) + |c.events|
    + if s.mon.targetIsRunning then 2 else 0
  }

  /** Nothing that matters to the waiting client has changed, except that the CPU may have stopped. */
  ghost predicate Unmoved(s: State, t: State)
  {
    && s.rsp < |s.mon.conns| && t.rsp < |t.mon.conns|
    && t.mon.conns[t.rsp] == s.mon.conns[s.rsp] && t.inbox == s.inbox
    && t.clientWaiting == s.clientWaiting && t.clientBusy == s.clientBusy
    && t.mon.targetIsRunning == s.mon.targetIsRunning && (s.mon.cpuStalled ==> t.mon.cpuStalled)
  }

  /** A step gets something done, or changes nothing that matters. */
  ghost predicate Progress(s: State, t: State)
    requires Inv(s) && Inv(t)
  {
    Answered(t) || (t.clientBusy && Work(t) < Work(s))
  }

  lemma {:induction false} StepProgress(s: State, step: Step)
    requires Inv(s) && s.clientBusy && !step.ClientSends?
    ensures Inv(Next(s, step)) && (Progress(s, Next(s, step)) || Unmoved(s, Next(s, step)))
  {
    StepKeepsInv(s, step);
    match step
    case ReadCommand(i) => CommandProgress(s, i);
    case RspEvent => EventProgress(s);
    case RspPacket => PacketProgress(s);
    case _ =>
  }

  lemma {:induction false} CommandProgress(s: State, i: nat)
    requires Inv(s) && s.clientBusy
    ensures Inv(Next(s, ReadCommand(i)))
    ensures Progress(s, Next(s, ReadCommand(i))) || Unmoved(s, Next(s, ReadCommand(i)))
    ensures i == s.rsp && s.mon.conns[i].cmds != [] ==> Progress(s, Next(s, ReadCommand(i)))
  {
    StepKeepsInv(s, ReadCommand(i));
  }

  lemma {:induction false} EventProgress(s: State)
    requires Inv(s) && s.clientBusy
    ensures Inv(Next(s, RspEvent))
    ensures if s.mon.conns[s.rsp].events != [] then Progress(s, Next(s, RspEvent)) else Next(s, RspEvent) == s
  {
    StepKeepsInv(s, RspEvent);
    if s.mon.conns[s.rsp].events != [] {
      BusyUntilAnswered(s, RspEvent);
    }
  }

  lemma {:induction false} PacketProgress(s: State)
    requires Inv(s) && s.clientBusy
    ensures Inv(Next(s, RspPacket))
    ensures if s.inbox != [] then Progress(s, Next(s, RspPacket)) else Next(s, RspPacket) == s
  {
    StepKeepsInv(s, RspPacket);
    if s.inbox != [] {
      UnstallAppend(s.mon.conns[s.rsp].cmds, Stall);
      UnstallAppend(s.mon.conns[s.rsp].cmds, Unstall);
    }
  }

  lemma {:induction false} UnmovedThen(s: State, t: State, u: State)
    requires Inv(s) && Inv(t) && Inv(u) && Unmoved(s, t)
    ensures Unmoved(t, u) ==> Unmoved(s, u)
    ensures Progress(t, u) ==> Progress(s, u)
    ensures Due(t) == Due(s) && Quiescent(t) == Quiescent(s)
  {
  }

  lemma {:induction false} StepThen(s: State, t: State, step: Step, u: State)
    requires Inv(s) && Inv(t) && Inv(u) && u == Next(t, step) && s.clientBusy && Unmoved(s, t) && !step.ClientSends?
    ensures Progress(s, u) || Unmoved(s, u)
  {
    StepProgress(t, step);
    UnmovedThen(s, t, u);
  }

  lemma {:induction false} InvNext(tr: Trace, n: nat)
    requires Silent(tr)
    ensures Inv(tr.at(n)) && Inv(tr.at(n + 1))
  {
    assert Follows(tr, n);
  }

  lemma {:induction false} StepThenAt(tr: Trace, i: nat, j: nat)
    requires Silent(tr) && Inv(tr.at(i)) && tr.at(i).clientBusy && Unmoved(tr.at(i), tr.at(j))
    ensures Inv(tr.at(j + 1)) && (Progress(tr.at(i), tr.at(j + 1)) || Unmoved(tr.at(i), tr.at(j + 1)))
  {
    assert Follows(tr, j);
    StepThen(tr.at(i), tr.at(j), tr.step(j), tr.at(j + 1));
  }

  /** Up to state j something has got done, or nothing has moved. */
  lemma {:induction false} MovedOrNot(tr: Trace, i: nat, j: nat) returns (k: nat)
    requires Silent(tr) && i <= j && Inv(tr.at(i)) && tr.at(i).clientBusy
    ensures i <= k && Inv(tr.at(j)) && Inv(tr.at(k))
    ensures Progress(tr.at(i), tr.at(k)) || Unmoved(tr.at(i), tr.at(j))
    decreases j
  {
    k := j;
    if i < j {
      k := MovedOrNot(tr, i, j - 1);
      InvNext(tr, j - 1);
      if !Progress(tr.at(i), tr.at(k)) {
        StepThenAt(tr, i, j - 1);
        k := j;
      }
    }
  }

  /** The duty that has work to do when nothing is going to move by itself. */
  function Due(s: State): Duty
    requires s.rsp < |s.mon.conns|
  {
    if s.mon.conns[s.rsp].events != [] then PipeRead
    else if s.mon.conns[s.rsp].cmds != [] then CommandRead
    else if s.inbox != [] then PacketRead
    else TargetPolled
  }

  /** Doing what is due gets something done. */
  lemma {:induction false} DueProgress(s: State, t: State, step: Step, u: State)
    requires Inv(s) && Inv(t) && Inv(u) && u == Next(t, step) && s.clientBusy && Unmoved(s, t)
    requires IsDuty(t, step, Due(s)) && (Quiescent(s) ==> s.mon.cpuStalled)
    ensures Progress(s, u)
  {
    UnmovedThen(s, t, u);
    match Due(t)
    case PipeRead => EventProgress(t);
    case CommandRead => CommandProgress(t, t.rsp);
    case PacketRead => PacketProgress(t);
    case _ => BusyIsRunning(t);
  }

  lemma {:induction false} DueAt(tr: Trace, i: nat, j: nat)
    requires Silent(tr) && Inv(tr.at(i)) && tr.at(i).clientBusy && Unmoved(tr.at(i), tr.at(j))
    requires Does(tr, j, Due(tr.at(i))) && (Quiescent(tr.at(i)) ==> tr.at(i).mon.cpuStalled)
    ensures Inv(tr.at(j + 1)) && Progress(tr.at(i), tr.at(j + 1))
  {
    assert Follows(tr, j);
    DueProgress(tr.at(i), tr.at(j), tr.step(j), tr.at(j + 1));
  }

  /** Something gets done after i, unless everything waits for a running CPU. */
  lemma {:induction false} NextProgress(tr: Trace, i: nat) returns (k: nat)
    requires Silent(tr) && Fair(tr) && Inv(tr.at(i)) && tr.at(i).clientBusy
    requires Quiescent(tr.at(i)) ==> tr.at(i).mon.cpuStalled
    ensures i <= k && Inv(tr.at(k)) && Progress(tr.at(i), tr.at(k))
  {
    var d := Due(tr.at(i));
    assert Again(tr, i, d);
    var j: nat :| i <= j && Does(tr, j, d);
    k := MovedOrNot(tr, i, j);
    if !Progress(tr.at(i), tr.at(k)) {
      DueAt(tr, i, j);
      k := j + 1;
    }
  }

  lemma {:induction false} StoppedNow(s: State, t: State, u: State)
    requires Inv(s) && Inv(t) && Inv(u) && u == Next(t, SelfStop) && Unmoved(s, t)
    ensures Unmoved(s, u) && u.mon.cpuStalled
  {
  }

  /** The CPU stops before anything else happens, unless something gets done first. */
  lemma {:induction false} StopComes(tr: Trace, i: nat) returns (k: nat)
    requires Silent(tr) && Stops(tr) && Inv(tr.at(i)) && tr.at(i).clientBusy && !tr.at(i).mon.cpuStalled
    ensures Inv(tr.at(k))
    ensures Progress(tr.at(i), tr.at(k)) || (Unmoved(tr.at(i), tr.at(k)) && tr.at(k).mon.cpuStalled)
  {
    assert StopsAfter(tr, i);
    var j: nat :| i <= j && Does(tr, j, TargetStops);
    k := MovedOrNot(tr, i, j);
    if !Progress(tr.at(i), tr.at(k)) {
      assert Follows(tr, j);
      StoppedNow(tr.at(i), tr.at(j), tr.at(j + 1));
      k := j + 1;
    }
  }

  lemma {:induction false} SomeProgress(tr: Trace, i: nat) returns (k: nat)
    requires Silent(tr) && Fair(tr) && Stops(tr) && Inv(tr.at(i)) && tr.at(i).clientBusy
    ensures Inv(tr.at(k)) && Progress(tr.at(i), tr.at(k))
  {
    k := i;
    if !tr.at(i).mon.cpuStalled {
      k := StopComes(tr, i);
    }
    if k == i || !Progress(tr.at(i), tr.at(k)) {
      var stopped := k;
      k := NextProgress(tr, stopped);
      UnmovedThen(tr.at(i), tr.at(stopped), tr.at(k));
    }
  }

  /**
   Every fair run answers: from every state in which the client waits, if the server and the monitor
   keep doing their work and a CPU that runs stops again, the client gets its stop reply, truthfully.
   */
  lemma {:induction false} FairlyAnswered(tr: Trace, i: nat) returns (k: nat)
    requires Silent(tr) && Fair(tr) && Stops(tr) && Inv(tr.at(i)) && tr.at(i).clientBusy
    ensures Answered(tr.at(k))
    decreases Work(tr.at(i))
  {
    k := SomeProgress(tr, i);
    if !Answered(tr.at(k)) {
      k := FairlyAnswered(tr, k);
    }
  }

  /** A stalled CPU, and no command to run it on its way. */
  ghost predicate StandsStill(s: State)
  {
    && Inv(s) && s.mon.cpuStalled
    && CountUnstall(s.mon.conns[s.rsp].cmds) == 0 && NoRun(s.inbox)
  }

  lemma {:induction false} StandsStep(s: State, step: Step)
    requires StandsStill(s) && !step.ClientSends?
    ensures StandsStill(Next(s, step))
  {
    StepKeepsInv(s, step);
    UnstallAppend(s.mon.conns[s.rsp].cmds, Stall);
  }

  lemma {:induction false} StillStands(tr: Trace, n: nat)
    requires Silent(tr) && StandsStill(tr.at(0))
    ensures StandsStill(tr.at(n))
  {
    if n > 0 {
      StillStands(tr, n - 1);
      assert Follows(tr, n - 1);
      StandsStep(tr.at(n - 1), tr.step(n - 1));
    }
  }

  /** In particular, once the CPU has stopped for good the client is answered without its help. */
  lemma {:induction false} StoppedIsAnswered(tr: Trace) returns (k: nat)
    requires Silent(tr) && Fair(tr) && StandsStill(tr.at(0)) && tr.at(0).clientBusy
    ensures Answered(tr.at(k))
  {
    forall i: nat
      ensures StopsAfter(tr, i)
    {
      StillStands(tr, i);
    }
    k := FairlyAnswered(tr, 0);
  }

  // ---------- What a command does ----------

  /** The event that announces a command. */
  function Announces(c: Command): Event
  {
    if c == Stall then Halted else Running
  }

  /**
   A command taken is obeyed and announced: to a monitor that knows what the target does, stall
   leaves the CPU stalled and unstall leaves it running, the monitor knows, and every server is told
   once. Only that command has left its pipe.
   */
  lemma {:induction false} CommandObeyed(m: Monitor, i: nat)
    requires i < |m.conns| && m.conns[i].cmds != [] && (!m.targetIsRunning ==> m.cpuStalled)
    ensures var c, r := m.conns[i].cmds[0], TakeCommand(m, i);
      && r.targetIsRunning == (c == Unstall)
      && (c == Stall ==> r.cpuStalled)
      && (c == Unstall ==> r.cpuStalled == (m.targetIsRunning && m.cpuStalled))
      && forall k :: 0 <= k < |m.conns| ==>
        && r.conns[k].events == m.conns[k].events + [Announces(c)] && r.conns[k].notified
        && r.conns[k].view == m.conns[k].view
        && m.conns[k].cmds == (if k == i then [c] else []) + r.conns[k].cmds
  {
  }

  /** An unstall command makes a stopped CPU run. */
  lemma {:induction false} UnstallRuns(m: Monitor, i: nat)
    requires i < |m.conns| && m.conns[i].cmds != [] && m.conns[i].cmds[0] == Unstall && !m.targetIsRunning
    ensures !TakeCommand(m, i).cpuStalled
  {
  }

  /** Removing a server keeps all others, each once. */
  lemma {:induction false} RemoveKeeps(conns: seq<Conn>, i: nat)
    requires i < |conns|
    ensures multiset(Remove(conns, i)) + multiset{conns[i]} == multiset(conns)
  {
    var n := |conns| - 1;
    var moved := conns[i := conns[n]];
    assert moved == Remove(conns, i) + [moved[n]];
    assert multiset(moved) == multiset(conns) - multiset{conns[i]} + multiset{conns[n]};
    assert moved[n] == conns[n];
  }

  /** A continue or step packet from a client of a stopped target makes the CPU run, and the server hears of it. */
  lemma {:induction false} RunStarts(s: State)
    requires Inv(s) && !s.clientBusy && Quiescent(s) && !s.mon.targetIsRunning
    ensures var t := Exec(s, [ClientSends(Run), RspPacket, ReadCommand(s.rsp)]);
      && !t.mon.cpuStalled && t.mon.targetIsRunning && t.clientBusy && t.clientWaiting
      && t.rsp == s.rsp < |t.mon.conns| && t.mon.conns[t.rsp].events == [Running]
  {
    var asked := Next(s, ClientSends(Run));
    assert asked == s.(inbox := [Run], clientBusy := true);
    StepKeepsInv(s, ClientSends(Run));
    var sent := Next(asked, RspPacket);
    StepKeepsInv(asked, RspPacket);
    assert sent.mon.conns[s.rsp].cmds == [Unstall];
    UnstallRuns(sent.mon, s.rsp);
    ExecTwo(asked, RspPacket, ReadCommand(s.rsp));
    ExecCons(s, ClientSends(Run), [RspPacket, ReadCommand(s.rsp)]);
    assert [ClientSends(Run)] + [RspPacket, ReadCommand(s.rsp)] == [ClientSends(Run), RspPacket, ReadCommand(s.rsp)];
  }

  // ---------- The break request ----------

  /** A break is passed on to the monitor exactly if the server believes that the target runs. */
  lemma {:induction false} BreakPassedOn(s: State)
    requires s.rsp < |s.mon.conns| && s.inbox != [] && s.inbox[0] == Break
    ensures var c, t := s.mon.conns[s.rsp], Next(s, RspPacket);
      && t.inbox == s.inbox[1..] && t.reports == s.reports && t.rsp < |t.mon.conns|
      && t.mon.conns[t.rsp].cmds == c.cmds + (if c.view then [Stall] else [])
  {
  }

  /** A break stops a program that would run for ever, and the client hears of it. */
  lemma {:induction false} BreakStops(s: State)
    requires Inv(s) && s.clientBusy && s.inbox == [Break]
    requires var c := s.mon.conns[s.rsp]; c.view && c.cmds == [] && c.events == []
    ensures var t := Exec(s, [RspPacket, ReadCommand(s.rsp), RspEvent]);
      Answered(t) && t.mon.cpuStalled && t.reports == s.reports + [Report(true, false, true)]
  {
    var passed := Next(s, RspPacket);
    StepKeepsInv(s, RspPacket);
    assert passed.mon.conns[s.rsp].cmds == [] + [Stall] == [Stall];
    var stalled := Next(passed, ReadCommand(s.rsp));
    StepKeepsInv(passed, ReadCommand(s.rsp));
    assert stalled.mon.conns[s.rsp].events == [] + [Halted] == [Halted];
    ExecTwo(passed, ReadCommand(s.rsp), RspEvent);
    ExecCons(s, RspPacket, [ReadCommand(s.rsp), RspEvent]);
    assert [RspPacket] + [ReadCommand(s.rsp), RspEvent] == [RspPacket, ReadCommand(s.rsp), RspEvent];
  }

  /**
   The client waits, no command to run the CPU is on its way, and the CPU is stalled, or will be by
   a stall command in the pipe, or by a break that meets a server which believes the target runs.
   */
  ghost predicate Stopping(s: State)
  {
    && Inv(s) && s.clientBusy && s.clientWaiting
    && var c := s.mon.conns[s.rsp];
       CountUnstall(c.cmds) == 0 && (s.mon.cpuStalled || c.cmds != [] || (c.view && s.inbox != []))
  }

  lemma {:induction false} StoppingStep(s: State, step: Step)
    requires Stopping(s) && !step.ClientSends?
    ensures Stopping(Next(s, step)) || Answered(Next(s, step))
  {
    StepKeepsInv(s, step);
    match step
    case RspEvent => StoppingEvent(s);
    case RspPacket => UnstallAppend(s.mon.conns[s.rsp].cmds, Stall);
    case _ =>
  }

  lemma {:induction false} StoppingEvent(s: State)
    requires Stopping(s)
    ensures Stopping(Next(s, RspEvent)) || Answered(Next(s, RspEvent))
  {
    StepKeepsInv(s, RspEvent);
    BusyUntilAnswered(s, RspEvent);
  }

  lemma {:induction false} StoppingNext(tr: Trace, n: nat)
    requires Silent(tr) && Stopping(tr.at(n))
    ensures Stopping(tr.at(n + 1)) || Answered(tr.at(n + 1))
  {
    assert Follows(tr, n);
    StoppingStep(tr.at(n), tr.step(n));
  }

  /** From i to k the client still waits for a CPU that is being stopped, unless it was answered in between. */
  lemma {:induction false} StoppingUntil(tr: Trace, i: nat, k: nat) returns (m: nat)
    requires Silent(tr) && i <= k && Stopping(tr.at(i))
    ensures Stopping(tr.at(k)) || Answered(tr.at(m))
    decreases k
  {
    m := k;
    if i < k {
      m := StoppingUntil(tr, i, k - 1);
      if !Answered(tr.at(m)) {
        StoppingNext(tr, k - 1);
        m := k;
      }
    }
  }

  /**
   Every fair run answers a break: no program keeps the client waiting, whether it would stop by
   itself or not, once a break has come to a server that believes the target runs.
   */
  lemma {:induction false} BreakAnswered(tr: Trace, i: nat) returns (k: nat)
    requires Silent(tr) && Fair(tr) && Stopping(tr.at(i))
    ensures Answered(tr.at(k))
    decreases Work(tr.at(i))
  {
    var next := NextProgress(tr, i);
    k := StoppingUntil(tr, i, next);
    if Answered(tr.at(next)) {
      k := next;
    } else if !Answered(tr.at(k)) {
      k := BreakAnswered(tr, next);
    }
  }
}
