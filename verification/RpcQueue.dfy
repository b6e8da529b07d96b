/** The bounded queue between a connection's tasks and its writing loop: it never holds more
    than its capacity, and otherwise leaves the tasks free in the order of their replies. */
module RpcQueue {
  import opened Messages
  import opened Stub
  import opened Rpc
  import opened RpcSteps
  import opened RpcSafety

  ghost predicate Bounded<B>(s: Sys<B>) {
    forall c | 0 <= c < |s.conns| :: |s.conns[c].replies| <= 32
  }

  lemma StepBounded<B(!new)>(exec: Exec<B>, s: Sys<B>, step: Step)
    requires Sane(exec) && Bounded(s) && CanStep(s, step)
    ensures Bounded(Apply(exec, s, step))
  {
    hide Decode, Dispatched, Recorded, Serve, Await, Encode, NeedsLock, WellSized, Received;
    if step.Route? {
      ReceivedKeeps(s.conns[step.c]);
    }
  }

  lemma {:induction false} RunBounded<B(!new)>(exec: Exec<B>, s: Sys<B>, steps: seq<Step>)
    requires Sane(exec) && Bounded(s) && IsRun(exec, s, steps)
    ensures Bounded(After(exec, s, steps))
    decreases |steps|
  {
    hide CanStep, Apply, Bounded;
    if steps != [] {
      StepBounded(exec, s, steps[0]);
      RunBounded(exec, Apply(exec, s, steps[0]), steps[1..]);
    }
  }

  /** In every reachable state at most 32 replies wait to be written. */
  lemma QueueBound<B(!new)>(exec: Exec<B>, b0: B, s: Sys<B>)
    requires Sane(exec) && Reachable(exec, b0, s)
    ensures forall c | 0 <= c < |s.conns| :: |s.conns[c].replies| <= 32
  {
    var clients, steps: seq<Step> :|
      IsRun(exec, Start(clients, b0), steps) && s == After(exec, Start(clients, b0), steps);
    RunBounded(exec, Start(clients, b0), steps);
  }

  /** The steps that put these replies of one task in the queue, in this order. */
  function Queueing(c: nat, k: nat, order: seq<Message>): seq<Step> {
    if order == [] then [] else [Enqueue(c, k, order[0])] + Queueing(c, k, order[1..])
  }

  function Tagged(k: nat, order: seq<Message>): seq<Reply> {
    if order == [] then [] else [Reply(k, order[0])] + Tagged(k, order[1..])
  }

  /** The task owes these replies, among others, and there is room for them. */
  ghost predicate Owes<B>(s: Sys<B>, c: nat, k: nat, order: seq<Message>) {
    && c < |s.conns| && k < |s.conns[c].tasks| && s.conns[c].tasks[k].Answering?
    && multiset(order) <= s.conns[c].tasks[k].unsent && |s.conns[c].replies| + |order| <= 32
  }

  /** Between the two states the task has put just these replies in the queue. */
  ghost predicate HasQueued<B>(s: Sys<B>, c: nat, k: nat, order: seq<Message>, s': Sys<B>) {
    && c < |s.conns| && k < |s.conns[c].tasks| && s.conns[c].tasks[k].Answering?
    && |s'.conns| == |s.conns| && s'.conns[c].replies == s.conns[c].replies + Tagged(k, order)
    && |s'.conns[c].tasks| == |s.conns[c].tasks| && s'.conns[c].tasks[k].Answering?
    && s'.conns[c].tasks[k].unsent == s.conns[c].tasks[k].unsent - multiset(order)
  }

  /** Whatever replies a task still owes, as far as the queue has room for them they can enter
      it in any order, whatever the rest of the system is at. */
  lemma {:induction false} AnyOrder<B(!new)>(exec: Exec<B>, s: Sys<B>, c: nat, k: nat, order: seq<Message>)
    requires Sane(exec) && Owes(s, c, k, order)
    ensures IsRun(exec, s, Queueing(c, k, order))
    ensures HasQueued(s, c, k, order, After(exec, s, Queueing(c, k, order)))
    decreases |order|
  {
    hide CanStep, Apply, IsRun, After, Owes, HasQueued;
    if order == [] {
      NoSteps(exec, s);
      NothingQueued(s, c, k);
    } else {
      OneQueued(exec, s, c, k, order);
      var next := Apply(exec, s, Enqueue(c, k, order[0]));
      AnyOrder(exec, next, c, k, order[1..]);
      StepFirst(exec, s, Enqueue(c, k, order[0]), Queueing(c, k, order[1..]));
      OneThenMore(s, next, After(exec, next, Queueing(c, k, order[1..])), c, k, order);
    }
  }

  lemma NothingQueued<B>(s: Sys<B>, c: nat, k: nat)
    requires Owes(s, c, k, [])
    ensures HasQueued(s, c, k, [], s)
  {
  }

  lemma OneThenMore<B>(s: Sys<B>, next: Sys<B>, s': Sys<B>, c: nat, k: nat, order: seq<Message>)
    requires order != [] && HasQueued(s, c, k, [order[0]], next) && HasQueued(next, c, k, order[1..], s')
    ensures HasQueued(s, c, k, order, s')
  {
    hide Tagged;
    TakenTwice(s.conns[c].tasks[k].unsent, order);
    TaggedAppend(s.conns[c].replies, k, order);
  }

  lemma TakenTwice(u: multiset<Message>, order: seq<Message>)
    requires order != []
    ensures u - multiset([order[0]]) - multiset(order[1..]) == u - multiset(order)
  {
    FirstReply(order);
  }

  lemma TaggedAppend(replies: seq<Reply>, k: nat, order: seq<Message>)
    requires order != []
    ensures replies + Tagged(k, [order[0]]) + Tagged(k, order[1..]) == replies + Tagged(k, order)
  {
    assert [order[0]][1..] == [];
    assert Tagged(k, [order[0]]) == [Reply(k, order[0])];
    assert Tagged(k, order) == [Reply(k, order[0])] + Tagged(k, order[1..]);
  }

  lemma FirstReply(order: seq<Message>)
    requires order != []
    ensures multiset(order) == multiset{order[0]} + multiset(order[1..])
  {
    assert order == [order[0]] + order[1..];
  }

  lemma NoSteps<B(!new)>(exec: Exec<B>, s: Sys<B>)
    requires Sane(exec)
    ensures IsRun(exec, s, []) && After(exec, s, []) == s
  {
  }

  lemma StepFirst<B(!new)>(exec: Exec<B>, s: Sys<B>, step: Step, steps: seq<Step>)
    requires Sane(exec) && CanStep(s, step) && IsRun(exec, Apply(exec, s, step), steps)
    ensures IsRun(exec, s, [step] + steps)
    ensures After(exec, s, [step] + steps) == After(exec, Apply(exec, s, step), steps)
  {
    hide CanStep, Apply;
    assert ([step] + steps)[1..] == steps;
  }

  lemma OneQueued<B(!new)>(exec: Exec<B>, s: Sys<B>, c: nat, k: nat, order: seq<Message>)
    requires Sane(exec) && Owes(s, c, k, order) && order != []
    ensures CanStep(s, Enqueue(c, k, order[0]))
    ensures Owes(Apply(exec, s, Enqueue(c, k, order[0])), c, k, order[1..])
    ensures HasQueued(s, c, k, [order[0]], Apply(exec, s, Enqueue(c, k, order[0])))
  {
    FirstReply(order);
    assert Tagged(k, [order[0]]) == [Reply(k, order[0])];
  }
}
