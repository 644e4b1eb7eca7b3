/**
 The monitor thread itself: the shared connection table and the body of its endless loop.
 */
module HardwareMonitor {
  import opened MonitorProtocol

  const MAX_MONITOR_CONNECTIONS := 5

  /** The commands read in one pass over the connection table, in table order. */
  function TakeReady(m: Monitor, ready: seq<bool>, i: nat): Monitor
    requires i <= |m.conns| == |ready|
    requires forall k :: i <= k < |ready| && ready[k] ==> m.conns[k].cmds != []
    decreases |ready| - i
  {
    if i == |ready| then m
    else if ready[i] then TakeReady(TakeCommand(m, i), ready, i + 1)
    else TakeReady(m, ready, i + 1)
  }

  /** The protocol steps of such a pass. */
  function ReadSteps(ready: seq<bool>, i: nat): seq<Step>
    requires i <= |ready|
    decreases |ready| - i
  {
    if i == |ready| then []
    else (if ready[i] then [ReadCommand(i)] else []) + ReadSteps(ready, i + 1)
  }

  /** A pass is a run of the protocol: the ready connections' commands, one step each. */
  lemma {:induction false} PassIsRun(s: State, ready: seq<bool>, i: nat)
    requires Inv(s) && i <= |ready| == |s.mon.conns|
    requires forall k :: i <= k < |ready| && ready[k] ==> s.mon.conns[k].cmds != []
    ensures Exec(s, ReadSteps(ready, i)).mon == TakeReady(s.mon, ready, i)
    decreases |ready| - i
  {
    if i < |ready| {
      if ready[i] {
        var next := Next(s, ReadCommand(i));
        StepKeepsInv(s, ReadCommand(i));
        assert next.mon == TakeCommand(s.mon, i);
        OtherCommandsWait(s.mon, i);
        PassIsRun(next, ready, i + 1);
        assert ReadSteps(ready, i)[1..] == ReadSteps(ready, i + 1);
      } else {
        PassIsRun(s, ready, i + 1);
        assert ReadSteps(ready, i) == ReadSteps(ready, i + 1);
      }
    }
  }

  /** Taking one command leaves the commands of the other connections where they are. */
  lemma {:induction false} OtherCommandsWait(m: Monitor, i: nat)
    requires i < |m.conns| && m.conns[i].cmds != []
    ensures forall k :: 0 <= k < |m.conns| && k != i ==> TakeCommand(m, i).conns[k].cmds == m.conns[k].cmds
  {
  }

  class MonitorThread {
    var cpuStalled: bool
    var targetIsRunning: bool
    var connections: seq<Conn>
    /** The descriptor pair handed to each registered server. */
    var fds: seq<nat>
    var nextFd: nat

    ghost predicate Valid()
      reads this
    {
      && |fds| == |connections| <= MAX_MONITOR_CONNECTIONS
      && (forall i :: 0 <= i < |fds| ==> fds[i] < nextFd)
      && forall i, j :: 0 <= i < j < |fds| ==> fds[i] != fds[j]
    }

    function State(): Monitor
      reads this
    {
      Monitor(cpuStalled, targetIsRunning, connections)
    }

    /** start_monitor_thread: the target is assumed to run until a poll says otherwise. */
    constructor (stalled: bool)
      ensures Valid() && State() == Monitor(stalled, true, [])
    {
      cpuStalled, targetIsRunning, connections, fds, nextFd := stalled, true, [], [], 0;
    }

    method StallCpuNow(stall: bool)
      modifies this`cpuStalled, this`targetIsRunning
      ensures State() == StallCpu(old(State()), stall)
    {
      cpuStalled := stall;
      targetIsRunning := !stall;
    }

    method NotifyListeners(e: Event)
      modifies this`connections
      ensures State() == Notify(old(State()), e)
    {
      var i := 0;
      while i < |connections|
        invariant 0 <= i <= |connections| == |old(connections)|
        invariant forall k :: 0 <= k < i ==> connections[k] == Notified(old(connections)[k], e)
        invariant forall k :: i <= k < |connections| ==> connections[k] == old(connections)[k]
      {
        connections := connections[i := Notified(connections[i], e)];
        i := i + 1;
      }
      assert connections == Notify(old(State()), e).conns;
    }

    /** The branch for one ready connection. */
    method HandleCommand(i: nat)
      requires i < |connections| && connections[i].cmds != []
      modifies this`cpuStalled, this`targetIsRunning, this`connections
      ensures State() == TakeCommand(old(State()), i)
    {
      var c := connections[i];
      var cmd := c.cmds[0];
      connections := connections[i := c.(cmds := c.cmds[1..])];
      if cmd == Stall {
        if targetIsRunning {
          StallCpuNow(true);
        }
        NotifyListeners(Halted);
      } else {
        if !targetIsRunning {
          StallCpuNow(false);
        }
        NotifyListeners(Running);
      }
    }

    /** The pass over all connections after select() found some of them ready. */
    method HandleReady(ready: seq<bool>)
      requires |ready| == |connections|
      requires forall k :: 0 <= k < |ready| && ready[k] ==> connections[k].cmds != []
      modifies this`cpuStalled, this`targetIsRunning, this`connections
      ensures State() == TakeReady(old(State()), ready, 0)
    {
      for i := 0 to |connections|
        invariant |ready| == |connections|
        invariant forall k :: i <= k < |ready| && ready[k] ==> connections[k].cmds != []
        invariant TakeReady(old(State()), ready, 0) == TakeReady(State(), ready, i)
      {
        if ready[i] {
          HandleCommand(i);
        }
      }
    }

    /** The poll when select() timed out. */
    method PollHardware()
      modifies this`targetIsRunning, this`connections
      ensures State() == Poll(old(State()))
    {
      if targetIsRunning {
        if cpuStalled {
          targetIsRunning := false;
          NotifyListeners(Halted);
        }
      }
    }

    method Register(view: bool) returns (fd: int)
      requires Valid()
      modifies this`connections, this`fds, this`nextFd
      ensures Valid()
      ensures |old(connections)| >= MAX_MONITOR_CONNECTIONS ==> fd == -1 && State() == old(State()) && fds == old(fds)
      ensures |old(connections)| < MAX_MONITOR_CONNECTIONS
        ==> connections == old(connections) + [Conn([], [], view, false)] && fds == old(fds) + [fd] && fd !in old(fds)
    {
      if |connections| >= MAX_MONITOR_CONNECTIONS {
        return -1;
      }
      connections := connections + [Conn([], [], view, false)];
      fd := nextFd;
      fds := fds + [nextFd];
      nextFd := nextFd + 1;
    }

    /** Find the pair, and move the last entry into its slot. */
    method Unregister(fd: int) returns (found: bool)
      requires Valid()
      modifies this`connections, this`fds
      ensures Valid()
      ensures found == (fd in old(fds)) && fd !in fds
      ensures forall f :: f in fds <==> f in old(fds) && f != fd
      ensures found ==>
        exists i :: 0 <= i < |old(fds)| && old(fds)[i] == fd && connections == Remove(old(connections), i)
      ensures !found ==> connections == old(connections) && fds == old(fds)
    {
      found := false;
      for i := 0 to |connections|
        invariant connections == old(connections) && fds == old(fds)
        invariant forall k :: 0 <= k < i ==> fds[k] != fd
      {
        if fds[i] == fd {
          found := true;
          ghost var before := fds;
          var last := |connections| - 1;
          if i != last {
            connections := connections[i := connections[last]];
            fds := fds[i := fds[last]];
          }
          connections := connections[..last];
          fds := fds[..last];
          assert connections == Remove(old(connections), i);
          assert forall k :: 0 <= k < last ==> fds[k] == before[if k == i then last else k];
          forall f | f in before && f != fd
            ensures f in fds
          {
            var k :| 0 <= k < |before| && before[k] == f;
            assert fds[if k == last then i else k] == f;
          }
          return;
        }
      }
    }
  }
}
