/**
 The GDB server's side of the stall and run protocol, proved to take the steps MonitorProtocol
 gives it. Its messages to the client are stop reports; debug register traffic is left out.
 */
module GdbServer {
  import opened MonitorProtocol

  /** The fields of rsp that the protocol needs, and the two pipes to the monitor. */
  class RspServer {
    var commandPipe: seq<Command>
    var eventPipe: seq<Event>
    var targetRunning: bool
    var clientWaiting: bool
    var singleStepMode: bool
    var inbox: seq<Packet>
    ghost var notified: bool
    ghost var clientBusy: bool
    ghost var reports: seq<Report>

    /** rsp_server_request: a client has been accepted and the pipes are new. */
    constructor ()
      ensures commandPipe == [Stall] && eventPipe == [] && !targetRunning && !clientWaiting
      ensures inbox == [] && !notified && !clientBusy && reports == []
    {
      commandPipe, eventPipe, inbox := [], [], [];
      targetRunning, clientWaiting, singleStepMode := false, false, false;
      notified, clientBusy, reports := false, false, [];
      new;
      SetStallState(true);
    }

    /** This object is the server of the system state s. */
    ghost predicate Is(s: State)
      reads this
    {
      && s.rsp < |s.mon.conns|
      && s.mon.conns[s.rsp] == Conn(commandPipe, eventPipe, targetRunning, notified)
      && s.clientWaiting == clientWaiting && s.inbox == inbox
      && s.clientBusy == clientBusy && s.reports == reports
    }

    method SetStallState(stall: bool)
      modifies this`commandPipe
      ensures commandPipe == old(commandPipe) + [if stall then Stall else Unstall]
    {
      commandPipe := commandPipe + [if stall then Stall else Unstall];
    }

    method ReportException(ghost stalled: bool, ghost answersQuery: bool)
      modifies this`reports
      ensures reports == old(reports) + [Report(stalled, answersQuery, notified)]
    {
      reports := reports + [Report(stalled, answersQuery, notified)];
    }

    method ContinueGeneric()
      modifies this`commandPipe, this`clientWaiting, this`singleStepMode
      ensures commandPipe == old(commandPipe) + [Unstall] && clientWaiting && !singleStepMode
    {
      SetStallState(false);
      clientWaiting := true;
      singleStepMode := false;
    }

    method StepGeneric()
      modifies this`commandPipe, this`clientWaiting, this`singleStepMode
      ensures commandPipe == old(commandPipe) + [Unstall] && clientWaiting && singleStepMode
    {
      if !singleStepMode {
        singleStepMode := true;
      }
      SetStallState(false);
      clientWaiting := true;
    }

    /** The pipe branch of handle_rsp. */
    method HandlePipe(ghost s: State)
      requires Is(s) && eventPipe != []
      modifies this
      ensures Is(MonitorProtocol.HandleEvent(s))
    {
      var monitorStatus := eventPipe[0];
      eventPipe := eventPipe[1..];
      if monitorStatus == Halted {
        if targetRunning {
          targetRunning := false;
          if clientWaiting {
            ReportException(s.mon.cpuStalled, false);
            clientWaiting, clientBusy := false, false;
          }
        }
      } else {
        targetRunning := true;
      }
    }

    /** rsp_client_request, for the packets the protocol is about. */
    method ClientRequest(ghost s: State, step: bool)
      requires Is(s) && inbox != []
      modifies this
      ensures Is(MonitorProtocol.HandlePacket(s))
      ensures singleStepMode == if old(inbox)[0] == Run && !old(targetRunning) then step else old(singleStepMode)
    {
      var packet := inbox[0];
      inbox := inbox[1..];
      if targetRunning {
        if packet == Break {
          SetStallState(true);
        }
        return;
      }
      match packet
      case Break =>
      case Query => ReportException(s.mon.cpuStalled, true);
      case Run =>
        if step {
          StepGeneric();
        } else {
          ContinueGeneric();
        }
    }
  }
}
