/** Every operation can be carried to its end: from any state of any run, a request that is
    sent and not given up on returns, with the backend's own answer. */
module RpcCompletion {
  import opened Bytes
  import opened Messages
  import opened Stub
  import opened Rpc
  import opened RpcInvariant
  import opened RpcSafety
  import opened RpcProgress

  /** Call `k` is the one that sent `m`, and its caller has not given up. */
  ghost predicate Lasting(conn: Conn, k: nat, m: Message) {
    k < |conn.calls| && conn.calls[k].request == m && !conn.calls[k].phase.Abandoned?
  }

  lemma MovedLasting(conn: Conn, step: Step, now: nat, k: nat, m: Message)
    requires CanMove(conn, step) && OwnStep(step) && !step.Execute? && Lasting(conn, k, m)
    ensures Lasting(Moved(conn, step, now), k, m)
  {
    hide Decode, Await, WellSized, Encode;
  }

  lemma StepLasting<B(!new)>(exec: Exec<B>, s: Sys<B>, step: Step, c: nat, k: nat, m: Message)
    requires Sane(exec) && CanStep(s, step) && OwnStep(step) && c < |s.conns| && Lasting(s.conns[c], k, m)
    ensures c < |Apply(exec, s, step).conns| && Lasting(Apply(exec, s, step).conns[c], k, m)
  {
    hide CanMove, Moved, Serve, OwnStep;
    if step.c == c && !step.Execute? {
      MovedLasting(s.conns[c], step, |s.log|, k, m);
    } else if step.c == c {
      CanExecute(s.conns[c], step);
    }
  }

  lemma {:induction false} RunLasting<B(!new)>(exec: Exec<B>, s: Sys<B>, steps: seq<Step>, c: nat, k: nat, m: Message)
    requires Sane(exec) && IsRun(exec, s, steps) && forall i | 0 <= i < |steps| :: OwnStep(steps[i])
    requires c < |s.conns| && Lasting(s.conns[c], k, m)
    ensures c < |After(exec, s, steps).conns| && Lasting(After(exec, s, steps).conns[c], k, m)
    decreases |steps|
  {
    hide Unwrapped, CanStep, Apply, OwnStep, Lasting;
    if steps != [] {
      StepLasting(exec, s, steps[0], c, k, m);
      assert forall i | 0 <= i < |steps[1..]| :: steps[1..][i] == steps[i + 1];
      RunLasting(exec, Apply(exec, s, steps[0]), steps[1..], c, k, m);
    }
  }

  lemma {:induction false} RunAppends<B(!new)>(exec: Exec<B>, s: Sys<B>, a: seq<Step>, b: seq<Step>)
    requires Sane(exec) && IsRun(exec, s, a) && IsRun(exec, After(exec, s, a), b)
    ensures IsRun(exec, s, a + b) && After(exec, s, a + b) == After(exec, After(exec, s, a), b)
    decreases |a|
  {
    hide Unwrapped, CanStep, Apply;
    if a == [] {
      assert a + b == b;
    } else {
      RunAppends(exec, Apply(exec, s, a[0]), a[1..], b);
      assert (a + b)[0] == a[0] && (a + b)[1..] == a[1..] + b;
    }
  }

  lemma {:induction false} WrapAppends<B(!new)>(exec: Exec<B>, s: Sys<B>, a: seq<Step>, b: seq<Step>)
    requires Sane(exec) && IsRun(exec, s, a) && NeverWraps(exec, s, a)
    requires IsRun(exec, After(exec, s, a), b) && NeverWraps(exec, After(exec, s, a), b)
    requires IsRun(exec, s, a + b)
    ensures NeverWraps(exec, s, a + b)
    decreases |a|
  {
    hide Unwrapped, CanStep, Apply;
    if a == [] {
      assert a + b == b;
    } else {
      assert (a + b)[0] == a[0] && (a + b)[1..] == a[1..] + b;
      WrapAppends(exec, Apply(exec, s, a[0]), a[1..], b);
    }
  }

  lemma StaysReachable<B(!new)>(exec: Exec<B>, b0: B, s: Sys<B>, steps: seq<Step>)
    requires Sane(exec) && Reachable(exec, b0, s) && IsRun(exec, s, steps)
    ensures Reachable(exec, b0, After(exec, s, steps))
  {
    hide IsRun, After;
    var clients, before: seq<Step> :|
      IsRun(exec, Start(clients, b0), before) && s == After(exec, Start(clients, b0), before);
    RunAppends(exec, Start(clients, b0), before, steps);
  }

  lemma StaysReachableUnwrapped<B(!new)>(exec: Exec<B>, b0: B, s: Sys<B>, steps: seq<Step>)
    requires Sane(exec) && ReachableUnwrapped(exec, b0, s) && IsRun(exec, s, steps) && NeverWraps(exec, s, steps)
    ensures ReachableUnwrapped(exec, b0, After(exec, s, steps))
  {
    hide IsRun, After, NeverWraps;
    var clients, before: seq<Step> :|
      && IsRun(exec, Start(clients, b0), before) && NeverWraps(exec, Start(clients, b0), before)
      && s == After(exec, Start(clients, b0), before);
    RunAppends(exec, Start(clients, b0), before, steps);
    WrapAppends(exec, Start(clients, b0), before, steps);
  }

  lemma SentLasts<B(!new)>(exec: Exec<B>, s: Sys<B>, c: nat, body: Message)
    requires Sane(exec) && CanStep(s, Send(c, body))
    ensures var s' := Apply(exec, s, Send(c, body));
            |s'.conns| == |s.conns|
            && Lasting(s'.conns[c], |s.conns[c].calls|, body.WithId(s.conns[c].nextId))
  {
    hide Encode, WellSized, Message.WithId;
  }

  lemma RequestWithId(body: Message, id: u32)
    ensures IsRequest(body.WithId(id)) <==> IsRequest(body)
  {
  }

  lemma OneStepRun<B(!new)>(exec: Exec<B>, s: Sys<B>, step: Step)
    requires Sane(exec) && CanStep(s, step)
    ensures IsRun(exec, s, [step]) && After(exec, s, [step]) == Apply(exec, s, step)
    ensures Unwrapped(s) && Unwrapped(Apply(exec, s, step)) ==> NeverWraps(exec, s, [step])
  {
    hide Unwrapped, CanStep, Apply;
    assert [step][1..] == [];
  }

  /** Where nothing more happens by itself, a call that was not given up on has taken effect. */
  lemma StuckTookEffect<B(!new)>(exec: Exec<B>, b0: B, s: Sys<B>, c: nat, k: nat, m: Message)
    requires Sane(exec) && ReachableUnwrapped(exec, b0, s) && Stuck(s) && IsRequest(m)
    requires c < |s.conns| && Lasting(s.conns[c], k, m)
    ensures k < |s.conns[c].calls| && exists i :: TookEffect(exec, s, c, k, i)
  {
    hide TookEffect, ReachableUnwrapped, Legal, IsRequest, Stuck;
    StuckMeansAnswered(exec, b0, s, c, k);
    Linearizable(exec, b0, s);
  }

  /** Sending, and then the system's own steps until there are none. */
  lemma SendRunsOut<B(!new)>(exec: Exec<B>, b0: B, s: Sys<B>, send: Step) returns (rest: seq<Step>)
    requires Sane(exec) && ReachableUnwrapped(exec, b0, s) && CanStep(s, send) && Unwrapped(Apply(exec, s, send))
    ensures forall i | 0 <= i < |rest| :: OwnStep(rest[i])
    ensures IsRun(exec, Apply(exec, s, send), rest) && Stuck(After(exec, Apply(exec, s, send), rest))
    ensures IsRun(exec, s, [send] + rest)
    ensures After(exec, s, [send] + rest) == After(exec, Apply(exec, s, send), rest)
    ensures ReachableUnwrapped(exec, b0, After(exec, s, [send] + rest))
  {
    hide Inv, Faithful, Unwrapped, CanStep, Apply, Reachable, ReachableUnwrapped, IsRun, After, NeverWraps, Stuck, OwnStep;
    ReachableFaithful(exec, b0, s);
    StepKeeps(exec, b0, s, send);
    OneStepRun(exec, s, send);
    rest := RunsOut(exec, b0, Apply(exec, s, send));
    OwnRunNeverWraps(exec, Apply(exec, s, send), rest);
    RunAppends(exec, s, [send], rest);
    WrapAppends(exec, s, [send], rest);
    StaysReachableUnwrapped(exec, b0, s, [send] + rest);
  }

  /** Completion. In any state reached without reusing an outstanding id, whatever the other
      clients have in flight, a client may send any well-sized request whose id is free, and
      the system can go on by itself, nobody sending or giving up, until the call has
      returned what its execution deserves. */
  lemma Completes<B(!new)>(exec: Exec<B>, b0: B, s: Sys<B>, c: nat, body: Message) returns (rest: seq<Step>)
    requires Sane(exec) && ReachableUnwrapped(exec, b0, s)
    requires CanStep(s, Send(c, body)) && IsRequest(body) && Unwrapped(Apply(exec, s, Send(c, body)))
    ensures forall step | step in rest :: OwnStep(step)
    ensures IsRun(exec, s, [Send(c, body)] + rest)
    ensures var k, end := |s.conns[c].calls|, After(exec, s, [Send(c, body)] + rest);
            c < |end.conns| && k < |end.conns[c].calls| && exists i :: TookEffect(exec, end, c, k, i)
  {
    var send := Send(c, body);
    var k, m := |s.conns[c].calls|, body.WithId(s.conns[c].nextId);
    hide Unwrapped, CanStep, Apply, TookEffect, ReachableUnwrapped, IsRun, After, IsRequest, Stuck, OwnStep, Lasting;
    SentLasts(exec, s, c, body);
    RequestWithId(body, s.conns[c].nextId);
    rest := SendRunsOut(exec, b0, s, send);
    RunLasting(exec, Apply(exec, s, send), rest, c, k, m);
    StuckTookEffect(exec, b0, After(exec, s, [send] + rest), c, k, m);
  }
}
