/** The kqueue backend as the program writes it.  Every method performs exactly its own steps of
    the machine in `Kqueue`, with the other actors active between any two of them, so the
    theorems about runs are theorems about this code; and no boxed operation context is ever
    read after it was freed. */
module KqueueObject {
  import opened Flows
  import opened Results
  import opened Words
  import K = Kqueue

  const EINPROGRESS: nat := 36

  datatype Who = Caller | Reactor | Worker(n: nat)

  predicate IsCall(e: K.Step) {
    !e.Harvest? && !e.Serve? && !e.Receive? && !e.Finish?
  }

  predicate Foreign(e: K.Step, me: Who) {
    match me
    case Caller => !IsCall(e)
    case Reactor => !e.Harvest? && !e.Serve?
    case Worker(n) => !(e.Finish? && e.serial == n)
  }

  /** What a step of others leaves alone: the caller's call in progress, the reactor's batch of
      events, a worker's job. */
  ghost predicate Keeps(s: K.Sys, t: K.Sys, me: Who) {
    s.h.subs <= t.h.subs && s.h.freed <= t.h.freed && K.Answers(s) <= K.Answers(t) &&
    match me
    case Caller => t.submitting == s.submitting && t.h.subs == s.h.subs && t.inFlight == s.inFlight && t.h.reaped == s.h.reaped
    case Reactor => t.events == s.events
    case Worker(n) => n in s.running ==> n in t.running
  }

  lemma OthersKeep(s: K.Sys, e: K.Step, me: Who)
    requires K.Enabled(s, e) && Foreign(e, me)
    ensures Keeps(s, K.Apply(s, e), me)
  {
    K.AnswersGrow(s, e);
    hide K.Answers;
    if e.Harvest? {
      K.FireAllKeeps(s, e.keys);
      FireAllKeepsRunning(s, e.keys);
    } else if e.SubmitSocket? || e.SubmitClose? {
      SubmissionKeeps(s, e);
      hide K.Apply;
    }
  }

  lemma SubmissionKeeps(s: K.Sys, e: K.Step)
    requires K.Enabled(s, e) && (e.SubmitSocket? || e.SubmitClose?)
    ensures var t := K.Apply(s, e);
            s.h.subs <= t.h.subs && s.h.freed <= t.h.freed && t.events == s.events && t.running == s.running
  {
  }

  lemma {:induction false} FireAllKeepsRunning(s: K.Sys, keys: seq<K.Key>)
    ensures K.FireAll(s, keys).running == s.running && K.FireAll(s, keys).jobs == s.jobs
    decreases |keys|
  {
    if keys != [] {
      FireAllKeepsRunning(K.Fire(s, keys[0]), keys[1..]);
    }
  }

  /** The steps of a run that callers took. */
  ghost function Calls(trace: seq<K.Step>): seq<K.Step> {
    if trace == [] then []
    else Calls(trace[..|trace| - 1]) + (if IsCall(trace[|trace| - 1]) then [trace[|trace| - 1]] else [])
  }

  /** The machine's state as the program stores it: results without serial numbers, jobs by the
      user data they carry, and the operation contexts that are allocated and not yet freed. */
  function Erase(q: seq<K.Completion>): seq<TorusResult> {
    seq(|q|, i requires 0 <= i < |q| => TorusResult(q[i].value, q[i].userData))
  }

  function Channel(s: K.Sys): seq<u64> {
    seq(|s.jobs|, i requires 0 <= i < |s.jobs| => if s.jobs[i] < |s.h.subs| then s.h.subs[s.jobs[i]] else 0)
  }

  function Contexts(s: K.Sys): map<nat, u64> {
    map n | n in s.h.sockets - s.h.freed && n < |s.h.subs| :: s.h.subs[n]
  }

  /** Which step handles a flow: the file pool, a one-shot event on the descriptor's read or
      write side, an immediate refusal, or an immediate close. */
  predicate Handles(flow: Flow, e: K.Step) {
    match flow.op
    case Read(_, _, _, _) => e == K.SubmitFile(flow.userData)
    case Write(_, _, _, _) => e == K.SubmitFile(flow.userData)
    case Readv(_, _, _) => e == K.SubmitFile(flow.userData)
    case Writev(_, _, _) => e == K.SubmitFile(flow.userData)
    case Accept(fd, _, _) => e.SubmitSocket? && e.userData == flow.userData && e.key == K.Key(fd, K.EvRead)
    case Recv(fd, _, _) => e.SubmitSocket? && e.userData == flow.userData && e.key == K.Key(fd, K.EvRead)
    case Send(fd, _, _) => e.SubmitSocket? && e.userData == flow.userData && e.key == K.Key(fd, K.EvWrite)
    case Connect(fd, _, _) =>
      || (e.SubmitSocket? && e.userData == flow.userData && e.key == K.Key(fd, K.EvWrite))
      || (e.SubmitRefused? && e.userData == flow.userData && e.error.Errno? && e.error.e != 36)
    case Close(fd) => e.SubmitClose? && e.userData == flow.userData && e.fd == fd
  }

  /** The completion a flow that is over at once is answered with. */
  function Immediately(e: K.Step): seq<TorusResult> {
    match e
    case SubmitSocket(userData, _, Errno(n)) => [TorusResult(0 - n, userData)]
    case SubmitRefused(userData, Errno(n)) => [TorusResult(0 - n, userData)]
    case SubmitClose(userData, _, Value(n)) => [TorusResult(n, userData)]
    case SubmitClose(userData, _, Errno(_)) => [TorusResult(-1, userData)]
    case _ => []
  }

  // ----- How each step changes what the program stores -----

  /** The machine's state `t`, stored in the program's fields. */
  ghost predicate StoredAs(t: K.Sys, completions: seq<TorusResult>, inFlight: u32, jobs: seq<u64>, contexts: map<nat, u64>) {
    && Erase(t.completions) == completions && t.inFlight == inFlight
    && Channel(t) == jobs && Contexts(t) == contexts
  }

  /** Jobs and contexts name submissions that exist. */
  lemma Known(s: K.Sys)
    requires K.Inv(s)
    ensures forall i :: 0 <= i < |s.jobs| ==> s.jobs[i] < |s.h.subs|
    ensures forall n :: n in s.h.sockets ==> n < |s.h.subs|
    ensures s.h.freed <= s.h.sockets
  {
    forall i | 0 <= i < |s.jobs| ensures s.jobs[i] < |s.h.subs| {
      var n := s.jobs[i];
      assert n in multiset(s.jobs);
      assert K.Places(s, n) == K.One(n < |s.h.subs|);
    }
    forall n | n in s.h.sockets ensures n < |s.h.subs| {
      assert K.Owning(s, n);
    }
    forall n | n in s.h.freed ensures n in s.h.sockets {
      assert K.Owning(s, n);
    }
  }

  lemma FileView(s: K.Sys, userData: u64)
    requires K.Inv(s) && s.submitting.Some?
    ensures StoredAs(K.Apply(s, K.SubmitFile(userData)), Erase(s.completions), s.inFlight, Channel(s) + [userData], Contexts(s))
  {
    Known(s);
    hide K.Inv;
    var t := K.Apply(s, K.SubmitFile(userData));
    assert Contexts(t) == Contexts(s);
    assert Channel(t) == Channel(s) + [userData];
  }

  lemma SocketView(s: K.Sys, userData: u64, key: K.Key, r: K.SysResult)
    requires K.Inv(s) && s.submitting.Some?
    ensures var n := |s.h.subs|; var t := K.Apply(s, K.SubmitSocket(userData, key, r));
            && n !in Contexts(s)
            && StoredAs(t, Erase(s.completions) + (if r.Errno? then [TorusResult(K.SocketOutcome(r), userData)] else []),
                        s.inFlight, Channel(s), if r.Errno? then Contexts(s) else Contexts(s)[n := userData])
  {
    Known(s);
    hide K.Inv;
  }

  lemma BoxedThenFreed(contexts: map<nat, u64>, ptr: nat, userData: u64)
    requires ptr !in contexts
    ensures contexts[ptr := userData] - {ptr} == contexts
  {
  }

  /** A registration that succeeds arms the event, one that fails is answered with its error. */
  lemma SocketEffect(s: K.Sys, e: K.Step)
    requires s.submitting.Some? && e.SubmitSocket?
    ensures K.Enabled(s, e)
    ensures e.registration.Value? ==> var t := K.Apply(s, e); e.key in t.registry && t.registry[e.key] == |s.h.subs|
    ensures Immediately(e) == if e.registration.Errno? then [TorusResult(K.SocketOutcome(e.registration), e.userData)] else []
  {
  }

  lemma PostShape(s: K.Sys, e: K.Step)
    requires K.Enabled(s, e) && (e.SubmitRefused? || e.SubmitClose?)
    ensures var t := K.Apply(s, e);
            && t.completions == s.completions + [K.Completion(|s.h.subs|, Immediate(e), e.userData)]
            && t.jobs == s.jobs && t.h.subs == s.h.subs + [e.userData] && t.inFlight == s.inFlight
            && t.h.sockets == s.h.sockets && t.h.freed == s.h.freed
  {
    if e.SubmitClose? {
      var t := K.Post(K.Enter(s, e.userData), |s.h.subs|, Immediate(e), e.userData);
      LoseShape(t, K.Key(e.fd, K.EvRead));
      LoseShape(K.Lose(t, K.Key(e.fd, K.EvRead)), K.Key(e.fd, K.EvWrite));
      hide K.Lose;
    }
  }

  lemma LoseShape(s: K.Sys, key: K.Key)
    ensures var t := K.Lose(s, key);
            && t.completions == s.completions && t.jobs == s.jobs && t.inFlight == s.inFlight
            && t.h.subs == s.h.subs && t.h.sockets == s.h.sockets && t.h.freed == s.h.freed
  {
  }

  /** The value a flow that is over at once completes with. */
  function Immediate(e: K.Step): int
    requires (e.SubmitRefused? && e.error.Errno?) || e.SubmitClose?
  {
    Immediately(e)[0].value
  }

  lemma PostView(s: K.Sys, e: K.Step)
    requires K.Inv(s) && K.Enabled(s, e) && (e.SubmitRefused? || e.SubmitClose?)
    ensures StoredAs(K.Apply(s, e), Erase(s.completions) + [TorusResult(Immediate(e), e.userData)],
                     s.inFlight, Channel(s), Contexts(s))
  {
    Known(s);
    hide K.Inv;
    PostShape(s, e);
    hide K.Apply, Immediate;
    var t := K.Apply(s, e);
    assert Contexts(t) == Contexts(s);
    assert Channel(t) == Channel(s);
  }

  lemma QuietView(s: K.Sys, e: K.Step)
    requires K.Enabled(s, e) && (e.SubmitBegin? || e.Harvest?)
    ensures StoredAs(K.Apply(s, e), Erase(s.completions), s.inFlight, Channel(s), Contexts(s))
  {
    if e.Harvest? {
      K.FireAllKeeps(s, e.keys);
      FireAllKeepsRunning(s, e.keys);
    }
  }

  lemma EndView(s: K.Sys)
    requires K.Enabled(s, K.SubmitEnd)
    ensures StoredAs(K.Apply(s, K.SubmitEnd), Erase(s.completions), Wrap32(s.inFlight + s.submitting.value), Channel(s), Contexts(s))
  {
  }

  /** Beginning and ending a call enters nothing. */
  lemma CallFrame(s: K.Sys, e: K.Step)
    requires K.Enabled(s, e) && (e.SubmitBegin? || e.SubmitEnd?)
    ensures var t := K.Apply(s, e);
            && t.h == s.h && t.submitting == (if e.SubmitBegin? then Some(0) else None)
  {
  }

  lemma OneLess(a: u32, count: nat)
    ensures Sub32((a - count) % U32, 1) == (a - (count + 1)) % U32
  {
  }

  lemma ReapView(s: K.Sys)
    requires K.Enabled(s, K.Reap)
    ensures StoredAs(K.Apply(s, K.Reap), [], (s.inFlight - |Erase(s.completions)|) % U32, Channel(s), Contexts(s))
  {
  }

  lemma ServeView(s: K.Sys, r: K.SysResult)
    requires K.Enabled(s, K.Serve(r))
    ensures var n := s.events[0];
            StoredAs(K.Apply(s, K.Serve(r)), Erase(s.completions) + [TorusResult(K.SocketOutcome(r), s.h.subs[n])],
                     s.inFlight, Channel(s), Contexts(s) - {n})
  {
  }

  lemma ServeFrame(s: K.Sys, r: K.SysResult)
    requires K.Enabled(s, K.Serve(r))
    ensures var t := K.Apply(s, K.Serve(r));
            && t.h.subs == s.h.subs && t.events == s.events[1..] && t.h.freed == s.h.freed + {s.events[0]}
            && K.Answers(t) == K.Answers(s) + [K.Completion(s.events[0], SocketValue(r), s.h.subs[s.events[0]])]
  {
  }

  /** What a socket operation completes with: the value of the call, or the negated error number. */
  function SocketValue(r: K.SysResult): int {
    if r.Value? then r.n else 0 - r.e
  }

  /** The completions of `batch` stand in `answers` at the positions `at`, in order, behind the
      first `from`, with the values of `results` and the user data of their submissions. */
  ghost predicate Posted(answers: seq<K.Completion>, from: nat, batch: seq<nat>, results: seq<K.SysResult>, at: seq<nat>, subs: seq<u64>) {
    && |results| == |at| == |batch|
    && (forall i :: 0 <= i < |at| ==> from <= at[i] < |answers| && batch[i] < |subs|
                                      && answers[at[i]] == K.Completion(batch[i], SocketValue(results[i]), subs[batch[i]]))
    && (forall i, j :: 0 <= i < j < |at| ==> at[i] < at[j])
  }

  lemma NothingPosted(answers: seq<K.Completion>, subs: seq<u64>)
    ensures Posted(answers, |answers|, [], [], [], subs)
  {
  }

  lemma PostedStays(a: seq<K.Completion>, b: seq<K.Completion>, from: nat, batch: seq<nat>, results: seq<K.SysResult>, at: seq<nat>,
                    subs: seq<u64>, more: seq<u64>)
    requires Posted(a, from, batch, results, at, subs) && a <= b && subs <= more
    ensures Posted(b, from, batch, results, at, more)
  {
  }

  lemma PostedOneMore(a: seq<K.Completion>, b: seq<K.Completion>, from: nat, batch: seq<nat>, results: seq<K.SysResult>, at: seq<nat>,
                      subs: seq<u64>, n: nat, r: K.SysResult)
    requires Posted(a, from, batch, results, at, subs) && from <= |a| && n < |subs|
    requires b == a + [K.Completion(n, SocketValue(r), subs[n])]
    ensures Posted(b, from, batch + [n], results + [r], at + [|a|], subs)
  {
  }

  lemma HarvestFrame(s: K.Sys, keys: seq<K.Key>)
    requires K.Enabled(s, K.Harvest(keys))
    ensures var t := K.Apply(s, K.Harvest(keys)); t.h == s.h && K.Answers(t) == K.Answers(s)
    ensures K.Reported(s, keys) ==>
              var t := K.Apply(s, K.Harvest(keys));
              && |t.events| == |keys| && (forall i :: 0 <= i < |keys| ==> t.events[i] == s.registry[keys[i]])
              && (forall k :: k in t.registry <==> k in s.registry && k !in keys)
              && (forall k :: k in t.registry ==> t.registry[k] == s.registry[k])
  {
    K.FireAllKeeps(s, keys);
    if K.Reported(s, keys) {
      K.ReportedAreCollected(s, keys);
      hide K.FireAll;
      assert |s.events| == 0;
    }
  }

  lemma FinishView(s: K.Sys, n: nat, r: K.SysResult)
    requires K.Enabled(s, K.Finish(n, r))
    ensures StoredAs(K.Apply(s, K.Finish(n, r)), Erase(s.completions) + [TorusResult(K.RawOutcome(r), s.h.subs[n])],
                     s.inFlight, Channel(s), Contexts(s))
  {
  }

  lemma ReceiveView(s: K.Sys)
    requires K.Enabled(s, K.Receive)
    ensures StoredAs(K.Apply(s, K.Receive), Erase(s.completions), s.inFlight, Channel(s)[1..], Contexts(s))
  {
  }

  /** A flow enters the machine under the next serial number, with its own user data. */
  lemma EntryOf(s: K.Sys, flow: Flow, e: K.Step)
    requires K.Enabled(s, e) && Handles(flow, e) && s.submitting.Some?
    ensures var t := K.Apply(s, e);
            && t.submitting == Some(s.submitting.value + 1) && t.h.subs == s.h.subs + [flow.userData]
            && t.h.reaped == s.h.reaped && t.inFlight == s.inFlight
  {
  }

  class KqueueBackend {
    var completions: seq<TorusResult>
    var inFlight: u32
    var jobs: seq<u64>
    var contexts: map<nat, u64>
    var s: K.Sys
    ghost var trace: seq<K.Step>

    ghost predicate Valid()
      reads this
    {
      K.Runs(K.Start(), trace) && K.After(K.Start(), trace) == s && Matches(s)
    }

    ghost predicate Matches(t: K.Sys)
      reads this
    {
      StoredAs(t, completions, inFlight, jobs, contexts)
    }

    constructor ()
      ensures Valid() && trace == []
    {
      completions, inFlight, jobs, contexts := [], 0, [], map[];
      s := K.Start();
      trace := [];
    }

    /** Records that the code just performed the step `e`. */
    method Record(e: K.Step)
      requires K.Runs(K.Start(), trace) && K.After(K.Start(), trace) == s
      requires K.Enabled(s, e) && Matches(K.Apply(s, e))
      modifies this`s, this`trace
      ensures Valid() && s == K.Apply(old(s), e) && trace == old(trace) + [e]
      ensures Calls(trace) == Calls(old(trace)) + (if IsCall(e) then [e] else [])
    {
      hide K.Apply, K.Enabled, K.Runs, K.After, Erase, Channel, Contexts;
      K.RunsOn(K.Start(), trace, e);
      s := K.Apply(s, e);
      assert (trace + [e])[..|trace|] == trace;
      trace := trace + [e];
    }

    /** Everybody but `me` takes any number of steps. */
    method Interfere(me: Who)
      requires Valid()
      modifies this
      ensures Valid() && Keeps(old(s), s, me)
      ensures me.Caller? ==> Calls(trace) == Calls(old(trace))
    {
      hide K.Apply, K.Enabled, K.Runs, K.After, Erase, Channel, Contexts;
      var n: nat := *;
      while n > 0
        invariant Valid() && Keeps(old(s), s, me)
        invariant me.Caller? ==> Calls(trace) == Calls(old(trace))
      {
        var e: K.Step := *;
        if K.Enabled(s, e) && Foreign(e, me) {
          OthersKeep(s, e, me);
          var t := K.Apply(s, e);
          completions, inFlight, jobs, contexts := Erase(t.completions), t.inFlight, Channel(t), Contexts(t);
          Record(e);
        }
        n := n - 1;
      }
    }

    /** What the machine's invariant says about the program's fields. */
    lemma Sound()
      requires Valid()
      ensures K.Inv(s)
    {
      K.StartIsGood();
      K.RunKeepsInv(K.Start(), trace);
    }

    /** `post_completion`. */
    method Post(value: int, userData: u64)
      modifies this`completions
      ensures completions == old(completions) + [TorusResult(value, userData)]
    {
      completions := completions + [TorusResult(value, userData)];
    }

    /** A boxed context is handed to the kernel; if the kernel refuses it, it is freed again and
        the error is posted. */
    method RegisterSocket(userData: u64, key: K.Key) returns (ghost e: K.Step)
      requires Valid() && s.submitting.Some?
      modifies this
      ensures Valid() && K.Enabled(old(s), e) && s == K.Apply(old(s), e) && Calls(trace) == Calls(old(trace)) + [e]
      ensures e.SubmitSocket? && e.userData == userData && e.key == key && jobs == old(jobs)
      ensures completions == old(completions) + Immediately(e)
      ensures e.registration.Value? ==> key in s.registry && s.registry[key] == |old(s).h.subs|
    {
      hide K.Runs, K.After;
      hide Erase, Channel, Contexts;
      Sound();
      var ptr := |s.h.subs|;
      var r: K.SysResult := *;
      e := K.SubmitSocket(userData, key, r);
      SocketView(s, userData, key, r);
      SocketEffect(s, e);
      hide K.Inv, K.Apply, K.SocketOutcome, Immediately, K.Enabled;
      BoxedThenFreed(contexts, ptr, userData);
      contexts := contexts[ptr := userData];
      if r.Errno? {
        contexts := contexts - {ptr};
        Post(K.SocketOutcome(r), userData);
      }
      Record(K.SubmitSocket(userData, key, r));
    }

    method SubmitOne(flow: Flow) returns (ghost e: K.Step)
      requires Valid() && s.submitting.Some?
      modifies this
      ensures Valid() && K.Enabled(old(s), e) && s == K.Apply(old(s), e)
      ensures Calls(trace) == Calls(old(trace)) + [e] && Handles(flow, e)
      // What is over at once is answered at once: a refusal with the negated error number, a close
      // with the raw value of the call.
      ensures completions == old(completions) + Immediately(e)
      ensures jobs == old(jobs) + (if e.SubmitFile? then [flow.userData] else [])
    {
      hide K.Runs, K.After;
      hide Erase, Channel, Contexts, K.Inv, K.Apply;
      Sound();
      match flow.op {
        case Accept(fd, _, _) => e := RegisterSocket(flow.userData, K.Key(fd, K.EvRead));
        case Recv(fd, _, _) => e := RegisterSocket(flow.userData, K.Key(fd, K.EvRead));
        case Send(fd, _, _) => e := RegisterSocket(flow.userData, K.Key(fd, K.EvWrite));
        case Connect(fd, _, _) =>
          var r: K.SysResult := *;
          if r.Errno? && r.e != EINPROGRESS {
            Post(K.SocketOutcome(r), flow.userData);
            PostView(s, K.SubmitRefused(flow.userData, r));
            Record(K.SubmitRefused(flow.userData, r));
            e := K.SubmitRefused(flow.userData, r);
          } else {
            e := RegisterSocket(flow.userData, K.Key(fd, K.EvWrite));
          }
        case Close(fd) =>
          var r: K.SysResult := *;
          Post(K.RawOutcome(r), flow.userData);
          PostView(s, K.SubmitClose(flow.userData, fd, r));
          Record(K.SubmitClose(flow.userData, fd, r));
          e := K.SubmitClose(flow.userData, fd, r);
        case _ =>
          jobs := jobs + [flow.userData];
          FileView(s, flow.userData);
          Record(K.SubmitFile(flow.userData));
          e := K.SubmitFile(flow.userData);
      }
    }

    /** Every flow is handled, in order, by the step that fits it, and the counter goes up by
        their number, while the reactor and the workers run on. */
    method Submit(flows: seq<Flow>) returns (submitted: nat, ghost steps: seq<K.Step>)
      requires Valid() && s.submitting.None?
      modifies this
      ensures Valid() && s.submitting.None?
      ensures submitted == |flows| && inFlight == Wrap32(old(inFlight) + |flows|)
      ensures s.h.subs == old(s).h.subs + UserDatas(flows) && s.h.reaped == old(s).h.reaped
      ensures |steps| == |flows| && forall i :: 0 <= i < |flows| ==> Handles(flows[i], steps[i])
      ensures Calls(trace) == Calls(old(trace)) + [K.SubmitBegin] + steps + [K.SubmitEnd]
    {
      hide K.Runs, K.After, K.Apply, Erase, Channel, Contexts, Handles;
      QuietView(s, K.SubmitBegin);
      CallFrame(s, K.SubmitBegin);
      Record(K.SubmitBegin);
      submitted, steps := SubmitAll(flows);
      inFlight := Wrap32(inFlight + submitted);
      EndView(s);
      CallFrame(s, K.SubmitEnd);
      Record(K.SubmitEnd);
    }

    /** The loop of `submit`. */
    method SubmitAll(flows: seq<Flow>) returns (submitted: nat, ghost steps: seq<K.Step>)
      requires Valid() && s.submitting == Some(0)
      modifies this
      ensures Valid() && s.submitting == Some(submitted) && submitted == |flows| == |steps|
      ensures s.h.subs == old(s).h.subs + UserDatas(flows) && s.h.reaped == old(s).h.reaped && s.inFlight == old(s).inFlight
      ensures forall i :: 0 <= i < |flows| ==> Handles(flows[i], steps[i])
      ensures Calls(trace) == Calls(old(trace)) + steps
    {
      hide K.Runs, K.After, K.Apply, Erase, Channel, Contexts, Handles;
      submitted := 0;
      steps := [];
      for i := 0 to |flows|
        invariant Valid() && s.submitting == Some(i) && submitted == i && |steps| == i
        invariant s.h.subs == old(s).h.subs + UserDatas(flows[..i]) && s.h.reaped == old(s).h.reaped
        invariant s.inFlight == old(s).inFlight
        invariant forall j :: 0 <= j < i ==> Handles(flows[j], steps[j])
        invariant Calls(trace) == Calls(old(trace)) + steps
      {
        Interfere(Caller);
        ghost var before := s;
        ghost var e := SubmitOne(flows[i]);
        EntryOf(before, flows[i], e);
        assert UserDatas(flows[..i + 1]) == UserDatas(flows[..i]) + [flows[i].userData];
        steps := steps + [e];
        submitted := submitted + 1;
      }
      assert flows[..|flows|] == flows;
      Interfere(Caller);
    }

    /** Drains the queue first in, first out, taking one off the counter for each. */
    method Reap(results: seq<TorusResult>) returns (filled: seq<TorusResult>, count: nat)
      requires Valid() && s.submitting.None?
      modifies this
      ensures Valid() && s == K.Apply(old(s), K.Reap) && Calls(trace) == Calls(old(trace)) + [K.Reap]
      ensures filled == results + old(completions) && count == |old(completions)| && completions == []
      ensures inFlight == (old(inFlight) - count) % U32
    {
      hide K.Runs, K.After, K.Apply, Erase, Channel, Contexts;
      filled := results;
      count := 0;
      while completions != []
        invariant count <= |old(completions)| && completions == old(completions)[count..]
        invariant filled == results + old(completions)[..count]
        invariant inFlight == (old(inFlight) - count) % U32
        invariant s == old(s) && trace == old(trace) && jobs == old(jobs) && contexts == old(contexts)
        decreases |completions|
      {
        var r := completions[0];
        completions := completions[1..];
        OneLess(old(inFlight), count);
        inFlight := Sub32(inFlight, 1);
        filled := filled + [r];
        count := count + 1;
      }
      assert old(completions)[..count] == old(completions);
      ReapView(s);
      Record(K.Reap);
    }

    /** One round of the reactor: the events the kernel reports are collected in their order and
        disarmed, and served one by one: of each, the context is read and freed, and one completion
        is posted under the user data found there.  `posted` are the places of these completions
        among all that have ever been posted, and `results` what the system calls gave. */
    method ReactorRound(keys: seq<K.Key>)
      returns (ghost batch: seq<nat>, ghost results: seq<K.SysResult>, ghost posted: seq<nat>, ghost harvested: K.Sys)
      requires Valid() && s.events == []
      modifies this
      ensures Valid() && s.events == [] && old(s).h.subs <= s.h.subs
      ensures K.Reported(old(s), keys) ==>
                && |batch| == |keys| && (forall i :: 0 <= i < |keys| ==> batch[i] == old(s).registry[keys[i]])
                && (forall k :: k in harvested.registry <==> k in old(s).registry && k !in keys)
                && (forall k :: k in harvested.registry ==> harvested.registry[k] == old(s).registry[k])
      ensures K.Enabled(old(s), K.Harvest(keys)) && harvested == K.Apply(old(s), K.Harvest(keys)) && batch == harvested.events
      ensures K.Answers(old(s)) <= K.Answers(s) && Posted(K.Answers(s), |K.Answers(old(s))|, batch, results, posted, s.h.subs)
      ensures forall i :: 0 <= i < |batch| ==> batch[i] in s.h.freed
    {
      hide K.Runs, K.After, Erase, Channel, Contexts, K.FireAll, K.Apply, K.Answers, Posted;
      QuietView(s, K.Harvest(keys));
      HarvestFrame(s, keys);
      Record(K.Harvest(keys));
      harvested, batch := s, s.events;
      results, posted := ServeAll();
    }

    /** The loop over the collected events, with everybody else active before each of them. */
    method ServeAll() returns (ghost results: seq<K.SysResult>, ghost posted: seq<nat>)
      requires Valid()
      modifies this
      ensures Valid() && s.events == [] && old(s).h.subs <= s.h.subs && K.Answers(old(s)) <= K.Answers(s)
      ensures Posted(K.Answers(s), |K.Answers(old(s))|, old(s).events, results, posted, s.h.subs)
      ensures forall i :: 0 <= i < |old(s).events| ==> old(s).events[i] in s.h.freed
    {
      hide K.Runs, K.After, K.Enabled, Erase, Channel, Contexts, K.Apply, K.Answers, Posted;
      results, posted := [], [];
      ghost var batch, before := s.events, K.Answers(s);
      NothingPosted(before, s.h.subs);
      while s.events != []
        invariant Valid() && old(s).h.subs <= s.h.subs && before <= K.Answers(s)
        invariant |results| <= |batch| && s.events == batch[|results|..]
        invariant Posted(K.Answers(s), |before|, batch[..|results|], results, posted, s.h.subs)
        invariant forall i :: 0 <= i < |results| ==> batch[i] in s.h.freed
        decreases |s.events|
      {
        ghost var mid, done := s, batch[..|results|];
        Interfere(Reactor);
        PostedStays(K.Answers(mid), K.Answers(s), |before|, done, results, posted, mid.h.subs, s.h.subs);
        mid := s;
        ghost var r := ServeEvent();
        PostedOneMore(K.Answers(mid), K.Answers(s), |before|, done, results, posted, s.h.subs, batch[|results|], r);
        assert batch[..|results| + 1] == done + [batch[|results|]];
        posted := posted + [|K.Answers(mid)|];
        results := results + [r];
      }
      assert batch[..|results|] == batch;
    }

    /** One event: the context it carries is live when it is read, its result is posted under the
        context's user data, and the context is freed. */
    method ServeEvent() returns (ghost r: K.SysResult)
      requires Valid() && s.events != []
      modifies this
      ensures Valid() && s.h.subs == old(s).h.subs && s.events == old(s).events[1..]
      ensures var ptr := old(s).events[0];
              && ptr in old(contexts) && contexts == old(contexts) - {ptr}
              && ptr < |s.h.subs| && old(contexts)[ptr] == s.h.subs[ptr] && s.h.freed == old(s).h.freed + {ptr}
              && completions == old(completions) + [TorusResult(SocketValue(r), s.h.subs[ptr])]
              && K.Answers(s) == K.Answers(old(s)) + [K.Completion(ptr, SocketValue(r), s.h.subs[ptr])]
    {
      hide K.Runs, K.After, Erase, Channel, Contexts, K.Apply, K.Answers;
      var ptr := s.events[0];
      LiveContext();
      var userData := contexts[ptr];
      var result: K.SysResult := *;
      Post(K.SocketOutcome(result), userData);
      contexts := contexts - {ptr};
      ServeView(s, result);
      ServeFrame(s, result);
      Record(K.Serve(result));
      r := result;
    }

    /** The context of the event the reactor is about to serve has not been freed. */
    lemma LiveContext()
      requires Valid() && s.events != []
      ensures s.events[0] < |s.h.subs| && s.events[0] in contexts && contexts[s.events[0]] == s.h.subs[s.events[0]]
    {
      Sound();
      var n := s.events[0];
      assert n in multiset(s.events);
      assert K.Owning(s, n) && K.Places(s, n) == K.One(n < |s.h.subs|);
    }

    /** A worker receives the oldest job, runs it with everybody else active, and posts the raw
        value the system call gave it, under the job's own user data. */
    method WorkerRun() returns (ghost r: K.SysResult)
      requires Valid() && jobs != []
      modifies this
      ensures Valid() && completions != []
      ensures completions[|completions| - 1] == TorusResult(if r.Value? then r.n else -1, old(jobs)[0])
      ensures old(s).jobs[0] < |s.h.subs| && s.h.subs[old(s).jobs[0]] == old(jobs)[0]
    {
      hide K.Runs, K.After;
      Sound();
      var n := s.jobs[0];
      assert n < |s.h.subs| by {
        assert n in multiset(s.jobs);
        assert K.Places(s, n) == K.One(n < |s.h.subs|);
      }
      hide K.Inv;
      var userData := jobs[0];
      jobs := jobs[1..];
      ReceiveView(s);
      Record(K.Receive);
      Interfere(Worker(n));
      var result: K.SysResult := *;
      assert userData == s.h.subs[n];
      Post(K.RawOutcome(result), userData);
      FinishView(s, n, result);
      Record(K.Finish(n, result));
      r := result;
    }
  }
}
