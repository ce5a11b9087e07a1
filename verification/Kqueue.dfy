/** The kqueue backend: a submitter, the reactor thread and the file worker pool share one
    completion queue and one counter.  `submit` and `reap` exclude each other (the backend sits
    behind a mutex); the reactor, the workers and the kernel interleave with everything. */
module Kqueue {
  import opened Results
  import opened Words

  datatype Filter = EvRead | EvWrite

  datatype Key = Key(fd: int, filter: Filter)

  /** What a system call returned: a non-negative value, or an error number. */
  datatype SysResult = Value(n: nat) | Errno(e: nat)

  /** File workers and `close` post the raw return value, -1 on error ... */
  function RawOutcome(r: SysResult): int {
    match r
    case Value(n) => n
    case Errno(_) => -1
  }

  /** ... while the reactor and failed registrations post the negated error number. */
  function SocketOutcome(r: SysResult): int {
    match r
    case Value(n) => n
    case Errno(e) => 0 - e
  }

  /** A completion; `serial` numbers the submission it answers. */
  datatype Completion = Completion(serial: nat, value: int, userData: u64)

  /** Submissions are numbered in order.  `running` are the jobs workers have received,
      `registry` is the kernel's table of armed one-shot events with the operation context each
      of them carries, `events` the contexts the reactor has collected and not yet served, and
      `submitting` the number of flows the current `submit` call has handled. */
  datatype Sys = Sys(
    jobs: seq<nat>, running: multiset<nat>, registry: map<Key, nat>, events: seq<nat>,
    completions: seq<Completion>, inFlight: u32, submitting: Option<nat>, h: History)

  /** The user data of every submission, which submissions boxed a context, which contexts
      were freed, which were overwritten or dropped by the kernel, and what was reaped. */
  datatype History = History(subs: seq<u64>, sockets: set<nat>, freed: set<nat>, lost: multiset<nat>, reaped: seq<Completion>)

  datatype Step =
    | SubmitBegin
    | SubmitFile(userData: u64)
    | SubmitSocket(userData: u64, key: Key, registration: SysResult)
    | SubmitRefused(userData: u64, error: SysResult)
    | SubmitClose(userData: u64, fd: int, result: SysResult)
    | SubmitEnd
    | Harvest(keys: seq<Key>)
    | Serve(result: SysResult)
    | Receive
    | Finish(serial: nat, result: SysResult)
    | Reap

  function Start(): Sys {
    Sys([], multiset{}, map[], [], [], 0, None, History([], {}, {}, multiset{}, []))
  }

  predicate Enabled(s: Sys, e: Step) {
    match e
    case SubmitBegin => s.submitting.None?
    case SubmitFile(_) => s.submitting.Some?
    case SubmitSocket(_, _, _) => s.submitting.Some?
    case SubmitRefused(_, error) => s.submitting.Some? && error.Errno?
    case SubmitClose(_, _, _) => s.submitting.Some?
    case SubmitEnd => s.submitting.Some?
    case Harvest(_) => s.events == []
    case Serve(_) => s.events != [] && s.events[0] < |s.h.subs|
    case Receive => s.jobs != []
    case Finish(n, _) => n in s.running && n < |s.h.subs|
    case Reap => s.submitting.None?
  }

  /** The next submission is entered; the caller says where it goes. */
  function Enter(s: Sys, userData: u64): Sys
    requires s.submitting.Some?
  {
    s.(submitting := Some(s.submitting.value + 1), h := s.h.(subs := s.h.subs + [userData]))
  }

  function Post(s: Sys, serial: nat, value: int, userData: u64): Sys {
    s.(completions := s.completions + [Completion(serial, value, userData)])
  }

  /** An operation context is allocated for submission `n` ... */
  function Boxed(s: Sys, n: nat): Sys {
    s.(h := s.h.(sockets := s.h.sockets + {n}))
  }

  /** ... and freed. */
  function Freed(s: Sys, n: nat): Sys {
    s.(h := s.h.(freed := s.h.freed + {n}))
  }

  function Lose(s: Sys, key: Key): Sys {
    if key in s.registry
    then s.(registry := s.registry - {key}, h := s.h.(lost := s.h.lost + multiset{s.registry[key]}))
    else s
  }

  /** One fired event: the one-shot registration disappears as its context is handed out. */
  function Fire(s: Sys, key: Key): Sys {
    if key in s.registry then s.(events := s.events + [s.registry[key]], registry := s.registry - {key}) else s
  }

  /** The events one `kevent` call returns, in the kernel's order. */
  function FireAll(s: Sys, keys: seq<Key>): Sys
    decreases |keys|
  {
    if keys == [] then s else FireAll(Fire(s, keys[0]), keys[1..])
  }

  function Apply(s: Sys, e: Step): Sys
    requires Enabled(s, e)
  {
    match e
    case SubmitBegin => s.(submitting := Some(0))
    case SubmitFile(userData) => Enter(s, userData).(jobs := s.jobs + [|s.h.subs|])
    case SubmitSocket(userData, key, registration) =>
      var n := |s.h.subs|;
      var t := Boxed(Enter(s, userData), n);
      if registration.Errno? then Post(Freed(t, n), n, SocketOutcome(registration), userData)
      else var u := Lose(t, key); u.(registry := u.registry[key := n])
    case SubmitRefused(userData, error) => Post(Enter(s, userData), |s.h.subs|, SocketOutcome(error), userData)
    case SubmitClose(userData, fd, result) =>
      var t := Post(Enter(s, userData), |s.h.subs|, RawOutcome(result), userData);
      if result.Value? then Lose(Lose(t, Key(fd, EvRead)), Key(fd, EvWrite)) else t
    case SubmitEnd => s.(inFlight := Wrap32(s.inFlight + s.submitting.value), submitting := None)
    case Harvest(keys) => FireAll(s, keys)
    case Serve(result) =>
      var n := s.events[0];
      Freed(Post(s, n, SocketOutcome(result), s.h.subs[n]), n).(events := s.events[1..])
    case Receive => s.(jobs := s.jobs[1..], running := s.running + multiset{s.jobs[0]})
    case Finish(n, result) =>
      Post(s, n, RawOutcome(result), s.h.subs[n]).(running := s.running - multiset{n})
    case Reap =>
      s.(completions := [], inFlight := Sub32(s.inFlight, |s.completions| % U32),
         h := s.h.(reaped := s.h.reaped + s.completions))
  }

  ghost predicate Runs(s: Sys, trace: seq<Step>)
    decreases |trace|
  {
    trace == [] || (Enabled(s, trace[0]) && Runs(Apply(s, trace[0]), trace[1..]))
  }

  ghost function After(s: Sys, trace: seq<Step>): Sys
    requires Runs(s, trace)
    decreases |trace|
  {
    if trace == [] then s else After(Apply(s, trace[0]), trace[1..])
  }

  // ----- Where every submission is -----

  function Serials(q: seq<Completion>): seq<nat> {
    seq(|q|, i requires 0 <= i < |q| => q[i].serial)
  }

  /** The contexts in the kernel's table, as a multiset. */
  ghost function Armed(registry: map<Key, nat>): multiset<nat>
  {
    multiset(registry.Values)
  }

  ghost predicate Injective(registry: map<Key, nat>) {
    forall j, k :: j in registry && k in registry && registry[j] == registry[k] ==> j == k
  }

  /** How often submission `k` occurs among the file jobs (queued or running), among the socket
      operations (armed in the kernel, collected by the reactor, or lost), and among the
      completions (waiting or reaped). */
  datatype Tally = Tally(files: int, sockets: int, answered: int)

  ghost function TallyOf(s: Sys, k: nat): Tally {
    Tally(multiset(s.jobs)[k] + s.running[k],
          Armed(s.registry)[k] + multiset(s.events)[k] + s.h.lost[k],
          multiset(Serials(s.completions))[k] + multiset(Serials(s.h.reaped))[k])
  }

  function Plus(t: Tally, files: int, sockets: int, answered: int): Tally {
    Tally(t.files + files, t.sockets + sockets, t.answered + answered)
  }

  /** In how many places submission `k` is. */
  ghost function Places(s: Sys, k: nat): int {
    TallyOf(s, k).files + TallyOf(s, k).sockets + TallyOf(s, k).answered
  }

  function Total(s: Sys): nat {
    |s.jobs| + |s.running| + |s.registry| + |s.events| + |s.completions| + |s.h.reaped| + |s.h.lost|
  }

  ghost predicate Accounted(s: Sys) {
    && Injective(s.registry)
    && (forall k: nat :: Places(s, k) == if k < |s.h.subs| then 1 else 0)
    && Total(s) == |s.h.subs|
  }

  lemma ArmedAdd(m: map<Key, nat>, k: Key, n: nat)
    requires Injective(m) && k !in m && n !in m.Values
    ensures Armed(m[k := n]) == Armed(m) + multiset{n} && Injective(m[k := n])
  {
    ValuesAdd(m, k, n);
    assert forall j :: j in m ==> m[j] in m.Values;
  }

  lemma ValuesAdd(m: map<Key, nat>, k: Key, n: nat)
    requires k !in m
    ensures m[k := n].Values == m.Values + {n}
  {
    var t := m[k := n];
    forall v | v in m.Values ensures v in t.Values {
      var j :| j in m && m[j] == v;
      assert t[j] == v;
    }
    assert t[k] == n;
  }

  lemma ArmedRemove(m: map<Key, nat>, k: Key)
    requires Injective(m) && k in m
    ensures Armed(m - {k}) + multiset{m[k]} == Armed(m) && Injective(m - {k})
  {
    var t := m - {k};
    forall v | v in m.Values && v != m[k] ensures v in t.Values {
      var j :| j in m && m[j] == v;
      assert t[j] == v;
    }
    assert m.Values == t.Values + {m[k]};
    assert m[k] !in t.Values;
  }

  lemma RegistrySize(m: map<Key, nat>, k: Key)
    ensures |m - {k}| == if k in m then |m| - 1 else |m|
  {
    assert (m - {k}).Keys == m.Keys - {k};
  }

  lemma LoseKeepsCount(s: Sys, k: Key)
    requires Injective(s.registry)
    ensures var t := Lose(s, k);
            && Injective(t.registry) && Armed(t.registry) + t.h.lost == Armed(s.registry) + s.h.lost
            && |t.registry| + |t.h.lost| == |s.registry| + |s.h.lost|
            && k !in t.registry && t.registry.Values <= s.registry.Values
  {
    if k in s.registry {
      ArmedRemove(s.registry, k);
      RegistrySize(s.registry, k);
    }
  }

  lemma SerialsAppend(q: seq<Completion>, c: Completion)
    ensures multiset(Serials(q + [c])) == multiset(Serials(q)) + multiset{c.serial}
  {
    assert Serials(q + [c]) == Serials(q) + [c.serial];
  }

  lemma SerialsConcat(q: seq<Completion>, r: seq<Completion>)
    ensures multiset(Serials(q + r)) == multiset(Serials(q)) + multiset(Serials(r))
  {
    assert Serials(q + r) == Serials(q) + Serials(r);
  }

  predicate IsSubmission(e: Step) {
    e.SubmitFile? || e.SubmitSocket? || e.SubmitRefused? || e.SubmitClose?
  }

  function One(b: bool): int {
    if b then 1 else 0
  }

  lemma HeadTail(q: seq<nat>)
    requires q != []
    ensures multiset(q) == multiset{q[0]} + multiset(q[1..])
  {
    assert q == [q[0]] + q[1..];
  }

  // ----- How each step moves submissions -----

  lemma FileMoves(s: Sys, userData: u64, k: nat)
    requires s.submitting.Some?
    ensures var t := Apply(s, SubmitFile(userData));
            TallyOf(t, k) == Plus(TallyOf(s, k), One(k == |s.h.subs|), 0, 0) && Total(t) == Total(s) + 1
  {
  }

  lemma PostMoves(s: Sys, serial: nat, value: int, userData: u64, k: nat)
    ensures var t := Post(s, serial, value, userData);
            TallyOf(t, k) == Plus(TallyOf(s, k), 0, 0, One(k == serial)) && Total(t) == Total(s) + 1
  {
    SerialsAppend(s.completions, Completion(serial, value, userData));
  }

  lemma LoseMoves(s: Sys, key: Key, k: nat)
    requires Injective(s.registry)
    ensures var t := Lose(s, key);
            && TallyOf(t, k) == TallyOf(s, k) && Total(t) == Total(s)
            && Injective(t.registry) && key !in t.registry && t.registry.Values <= s.registry.Values
  {
    LoseKeepsCount(s, key);
    assert (Armed(s.registry) + s.h.lost)[k] == Armed(s.registry)[k] + s.h.lost[k];
  }

  lemma ArmMoves(s: Sys, key: Key, n: nat, k: nat)
    requires Injective(s.registry) && key !in s.registry && n !in s.registry.Values
    ensures var t := s.(registry := s.registry[key := n]);
            TallyOf(t, k) == Plus(TallyOf(s, k), 0, One(k == n), 0) && Total(t) == Total(s) + 1 && Injective(t.registry)
  {
    ArmedAdd(s.registry, key, n);
  }

  lemma FireMoves(s: Sys, key: Key, k: nat)
    requires Injective(s.registry)
    ensures var t := Fire(s, key);
            TallyOf(t, k) == TallyOf(s, k) && Total(t) == Total(s) && Injective(t.registry)
  {
    if key in s.registry {
      ArmedRemove(s.registry, key);
      RegistrySize(s.registry, key);
      assert Armed(s.registry)[k] == (Armed(s.registry - {key}) + multiset{s.registry[key]})[k];
    }
  }

  lemma {:induction false} FireAllMoves(s: Sys, keys: seq<Key>, k: nat)
    requires Injective(s.registry)
    ensures var t := FireAll(s, keys);
            TallyOf(t, k) == TallyOf(s, k) && Total(t) == Total(s) && Injective(t.registry)
            && t.h == s.h && t.inFlight == s.inFlight && t.submitting == s.submitting && t.completions == s.completions
    decreases |keys|
  {
    if keys != [] {
      FireMoves(s, keys[0], k);
      FireAllMoves(Fire(s, keys[0]), keys[1..], k);
    }
  }

  lemma EnterMoves(s: Sys, userData: u64, k: nat)
    requires s.submitting.Some?
    ensures TallyOf(Enter(s, userData), k) == TallyOf(s, k) && Total(Enter(s, userData)) == Total(s)
  {
  }

  lemma BoxingMovesNothing(s: Sys, n: nat, k: nat)
    ensures TallyOf(Boxed(s, n), k) == TallyOf(s, k) && Total(Boxed(s, n)) == Total(s)
    ensures TallyOf(Freed(s, n), k) == TallyOf(s, k) && Total(Freed(s, n)) == Total(s)
  {
  }

  lemma SocketMoves(s: Sys, userData: u64, key: Key, registration: SysResult, k: nat)
    requires s.submitting.Some? && Injective(s.registry) && |s.h.subs| !in s.registry.Values
    ensures var t := Apply(s, SubmitSocket(userData, key, registration)); var me := One(k == |s.h.subs|);
            && TallyOf(t, k) == Plus(TallyOf(s, k), 0, if registration.Value? then me else 0, if registration.Errno? then me else 0)
            && Total(t) == Total(s) + 1 && Injective(t.registry)
  {
    hide Armed, Injective, Serials, TallyOf, Total;
    var n := |s.h.subs|;
    var t := Boxed(Enter(s, userData), n);
    EnterMoves(s, userData, k);
    BoxingMovesNothing(Enter(s, userData), n, k);
    if registration.Errno? {
      BoxingMovesNothing(t, n, k);
      PostMoves(Freed(t, n), n, SocketOutcome(registration), userData, k);
    } else {
      LoseMoves(t, key, k);
      ArmMoves(Lose(t, key), key, n, k);
    }
  }

  lemma RefusedMoves(s: Sys, userData: u64, error: SysResult, k: nat)
    requires Enabled(s, SubmitRefused(userData, error))
    ensures var t := Apply(s, SubmitRefused(userData, error));
            TallyOf(t, k) == Plus(TallyOf(s, k), 0, 0, One(k == |s.h.subs|)) && Total(t) == Total(s) + 1
  {
    hide TallyOf, Total;
    EnterMoves(s, userData, k);
    PostMoves(Enter(s, userData), |s.h.subs|, SocketOutcome(error), userData, k);
  }

  lemma CloseMoves(s: Sys, userData: u64, fd: int, result: SysResult, k: nat)
    requires s.submitting.Some? && Injective(s.registry)
    ensures var t := Apply(s, SubmitClose(userData, fd, result));
            && TallyOf(t, k) == Plus(TallyOf(s, k), 0, 0, One(k == |s.h.subs|)) && Total(t) == Total(s) + 1
            && Injective(t.registry)
  {
    hide Armed, Injective, Serials, TallyOf, Total;
    EnterMoves(s, userData, k);
    var t := Post(Enter(s, userData), |s.h.subs|, RawOutcome(result), userData);
    PostMoves(Enter(s, userData), |s.h.subs|, RawOutcome(result), userData, k);
    LoseMoves(t, Key(fd, EvRead), k);
    LoseMoves(Lose(t, Key(fd, EvRead)), Key(fd, EvWrite), k);
  }

  lemma ServeMoves(s: Sys, result: SysResult, k: nat)
    requires Enabled(s, Serve(result))
    ensures var t := Apply(s, Serve(result)); var me := One(k == s.events[0]);
            TallyOf(t, k) == Plus(TallyOf(s, k), 0, -me, me) && Total(t) == Total(s)
  {
    var n := s.events[0];
    HeadTail(s.events);
    SerialsAppend(s.completions, Completion(n, SocketOutcome(result), s.h.subs[n]));
    hide Serials, Armed;
  }

  lemma ReceiveMoves(s: Sys, k: nat)
    requires Enabled(s, Receive)
    ensures var t := Apply(s, Receive); TallyOf(t, k) == TallyOf(s, k) && Total(t) == Total(s)
  {
    HeadTail(s.jobs);
    hide Serials, Armed;
  }

  lemma FinishMoves(s: Sys, n: nat, result: SysResult, k: nat)
    requires Enabled(s, Finish(n, result))
    ensures var t := Apply(s, Finish(n, result)); var me := One(k == n);
            TallyOf(t, k) == Plus(TallyOf(s, k), -me, 0, me) && Total(t) == Total(s)
  {
    var v := RawOutcome(result);
    PostMoves(s, n, v, s.h.subs[n], k);
    StopsRunning(Post(s, n, v, s.h.subs[n]), n, k);
  }

  lemma StopsRunning(s: Sys, n: nat, k: nat)
    requires n in s.running
    ensures var t := s.(running := s.running - multiset{n});
            TallyOf(t, k) == Plus(TallyOf(s, k), -One(k == n), 0, 0) && Total(t) == Total(s) - 1
  {
    assert |s.running - multiset{n}| == |s.running| - 1;
  }

  lemma ReapMoves(s: Sys, k: nat)
    requires Enabled(s, Reap)
    ensures var t := Apply(s, Reap); TallyOf(t, k) == TallyOf(s, k) && Total(t) == Total(s)
  {
    SerialsConcat(s.h.reaped, s.completions);
    hide Armed;
  }

  /** What the step does to submission `k`'s tally. */
  function Change(s: Sys, e: Step, k: nat): Tally
    requires Enabled(s, e)
  {
    var entered := One(k == |s.h.subs|);
    match e
    case SubmitFile(_) => Tally(entered, 0, 0)
    case SubmitSocket(_, _, r) => if r.Value? then Tally(0, entered, 0) else Tally(0, 0, entered)
    case SubmitRefused(_, _) => Tally(0, 0, entered)
    case SubmitClose(_, _, _) => Tally(0, 0, entered)
    case Serve(_) => Tally(0, -One(k == s.events[0]), One(k == s.events[0]))
    case Finish(n, _) => Tally(-One(k == n), 0, One(k == n))
    case _ => Tally(0, 0, 0)
  }

  lemma StepMoves(s: Sys, e: Step, k: nat)
    requires Enabled(s, e) && Injective(s.registry) && |s.h.subs| !in s.registry.Values
    ensures var t := Apply(s, e); var c := Change(s, e, k);
            && TallyOf(t, k) == Plus(TallyOf(s, k), c.files, c.sockets, c.answered)
            && Total(t) == Total(s) + One(IsSubmission(e)) && Injective(t.registry)
  {
    hide TallyOf, Total, Armed, Injective;
    match e
    case SubmitBegin => NothingMoves(s, e, k);
    case SubmitEnd => NothingMoves(s, e, k);
    case SubmitFile(userData) => FileMoves(s, userData, k);
    case SubmitSocket(userData, key, registration) => SocketMoves(s, userData, key, registration, k);
    case SubmitRefused(userData, error) => RefusedMoves(s, userData, error, k);
    case SubmitClose(userData, fd, result) => CloseMoves(s, userData, fd, result, k);
    case Harvest(keys) => FireAllMoves(s, keys, k);
    case Serve(result) => ServeMoves(s, result, k);
    case Receive => ReceiveMoves(s, k);
    case Finish(n, result) => FinishMoves(s, n, result, k);
    case Reap => ReapMoves(s, k);
  }

  lemma NothingMoves(s: Sys, e: Step, k: nat)
    requires Enabled(s, e) && (e.SubmitBegin? || e.SubmitEnd?)
    ensures TallyOf(Apply(s, e), k) == TallyOf(s, k) && Total(Apply(s, e)) == Total(s) && Apply(s, e).registry == s.registry
  {
  }

  // ----- The invariant -----

  /** The counter owes one for every submission of a finished `submit` call not yet reaped. */
  function Owed(s: Sys): int {
    |s.h.subs| - |s.h.reaped| - (if s.submitting.Some? then s.submitting.value else 0)
  }

  ghost predicate Counted(s: Sys) {
    Owed(s) >= 0 && s.inFlight == Owed(s) % U32
  }

  ghost predicate Named(s: Sys, q: seq<Completion>) {
    forall c :: c in q ==> c.serial < |s.h.subs| && c.userData == s.h.subs[c.serial]
  }

  /** Socket operations own a context from submission on; it is freed exactly when the
      operation's completion is posted. */
  predicate Owned(t: Tally, socket: bool, freed: bool) {
    && (socket ==> t.files == 0)
    && (t.sockets > 0 ==> socket)
    && (socket ==> (freed <==> t.answered > 0))
    && (freed ==> socket)
  }

  ghost predicate Owning(s: Sys, k: nat) {
    (k in s.h.sockets ==> k < |s.h.subs|) && Owned(TallyOf(s, k), k in s.h.sockets, k in s.h.freed)
  }

  ghost predicate Inv(s: Sys) {
    && Accounted(s) && Counted(s)
    && Named(s, s.completions) && Named(s, s.h.reaped)
    && (forall k: nat :: Owning(s, k))
  }

  lemma FreshSerial(s: Sys)
    requires Accounted(s)
    ensures |s.h.subs| !in s.registry.Values
  {
    assert Places(s, |s.h.subs|) == 0;
  }

  lemma WrappedDifference(a: nat, b: nat)
    requires b <= a
    ensures Sub32(a % U32, b % U32) == (a - b) % U32
  {
  }

  lemma CountedStep(s: Sys, e: Step)
    requires Counted(s) && Enabled(s, e) && Total(s) == |s.h.subs|
    ensures Counted(Apply(s, e))
  {
    match e
    case Harvest(keys) => FireAllKeeps(s, keys);
    case Reap => WrappedDifference(Owed(s), |s.completions|);
    case SubmitEnd => assert (Owed(s) % U32 + s.submitting.value) % U32 == (Owed(s) + s.submitting.value) % U32;
    case SubmitSocket(_, _, _) => SubmittingKeepsOwed(s, e);
    case SubmitClose(_, _, _) => SubmittingKeepsOwed(s, e);
    case _ =>
  }

  /** A flow being submitted enters the history and the current call together. */
  lemma SubmittingKeepsOwed(s: Sys, e: Step)
    requires Enabled(s, e) && (e.SubmitSocket? || e.SubmitClose?)
    ensures Owed(Apply(s, e)) == Owed(s) && Apply(s, e).inFlight == s.inFlight
  {
  }

  lemma {:induction false} FireAllKeeps(s: Sys, keys: seq<Key>)
    ensures var t := FireAll(s, keys);
            t.h == s.h && t.inFlight == s.inFlight && t.submitting == s.submitting && t.completions == s.completions
    decreases |keys|
  {
    if keys != [] {
      FireAllKeeps(Fire(s, keys[0]), keys[1..]);
    }
  }

  /** A step posts at most one completion, under its submission's user data, and keeps the
      others. */
  lemma PostsNamed(s: Sys, e: Step)
    requires Enabled(s, e) && !e.Harvest? && !e.Reap?
    ensures var t := Apply(s, e);
            && t.h.reaped == s.h.reaped && s.h.subs <= t.h.subs
            && (t.completions == s.completions ||
                exists c :: t.completions == s.completions + [c] && c.serial < |t.h.subs| && c.userData == t.h.subs[c.serial])
  {
    var t := Apply(s, e);
    if t.completions != s.completions {
      var c := t.completions[|s.completions|];
      assert t.completions == s.completions + [c];
    }
  }

  lemma NamedStep(s: Sys, e: Step)
    requires Named(s, s.completions) && Named(s, s.h.reaped) && Enabled(s, e)
    ensures Named(Apply(s, e), Apply(s, e).completions) && Named(Apply(s, e), Apply(s, e).h.reaped)
  {
    if e.Harvest? {
      FireAllKeeps(s, e.keys);
    } else if !e.Reap? {
      PostsNamed(s, e);
      hide Apply;
    }
  }

  /** Which contexts a step allocates and frees. */
  lemma ContextStep(s: Sys, e: Step)
    requires Enabled(s, e)
    ensures var t := Apply(s, e); var n := |s.h.subs|;
            && t.h.sockets == s.h.sockets + (if e.SubmitSocket? then {n} else {})
            && t.h.freed == s.h.freed + (if e.SubmitSocket? && e.registration.Errno? then {n}
                                         else if e.Serve? then {s.events[0]} else {})
            && |t.h.subs| == n + One(IsSubmission(e))
  {
    var n := |s.h.subs|;
    assert s.h.sockets + {} == s.h.sockets && s.h.freed + {} == s.h.freed;
    match e
    case Harvest(keys) => FireAllKeeps(s, keys);
    case SubmitSocket(userData, key, registration) =>
      LoseKeepsContexts(Boxed(Enter(s, userData), n), key);
      hide Lose;
    case SubmitClose(userData, fd, result) =>
      var t := Post(Enter(s, userData), n, RawOutcome(result), userData);
      LoseKeepsContexts(t, Key(fd, EvRead));
      LoseKeepsContexts(Lose(t, Key(fd, EvRead)), Key(fd, EvWrite));
      hide Lose;
    case _ =>
  }

  lemma LoseKeepsContexts(s: Sys, key: Key)
    ensures var t := Lose(s, key); t.h.sockets == s.h.sockets && t.h.freed == s.h.freed && t.h.subs == s.h.subs
  {
  }

  /** An event about to be served, or a job about to finish, is where its submission is. */
  lemma Occupied(s: Sys, e: Step)
    requires Enabled(s, e)
    ensures e.Serve? ==> TallyOf(s, s.events[0]).sockets >= 1
    ensures e.Finish? ==> TallyOf(s, e.serial).files >= 1
  {
    if e.Serve? { assert s.events[0] in multiset(s.events); }
    hide Apply;
  }

  /** Whether submission `k` owns a context, and whether it was freed, after the step. */
  lemma ContextOf(s: Sys, e: Step, k: nat)
    requires Enabled(s, e)
    ensures k in Apply(s, e).h.sockets <==> k in s.h.sockets || (e.SubmitSocket? && k == |s.h.subs|)
    ensures k in Apply(s, e).h.freed <==>
              || k in s.h.freed || (e.SubmitSocket? && e.registration.Errno? && k == |s.h.subs|)
              || (e.Serve? && k == s.events[0])
    ensures |Apply(s, e).h.subs| == |s.h.subs| + One(IsSubmission(e))
  {
    ContextStep(s, e);
    hide Apply;
  }

  lemma OwningStep(s: Sys, e: Step, k: nat)
    requires Enabled(s, e) && Accounted(s) && Owning(s, k)
    ensures Owning(Apply(s, e), k)
  {
    hide TallyOf, Apply, Injective, Total;
    FreshSerial(s);
    StepMoves(s, e, k);
    ContextOf(s, e, k);
    Occupied(s, e);
    assert Places(s, k) == One(k < |s.h.subs|);
    hide Accounted;
    var t := TallyOf(s, k);
    assert t.files >= 0 && t.sockets >= 0 && t.answered >= 0 by { TallyIsNat(s, k); }
  }

  lemma TallyIsNat(s: Sys, k: nat)
    ensures var t := TallyOf(s, k); t.files >= 0 && t.sockets >= 0 && t.answered >= 0
  {
  }

  /** Only a submission entering changes in how many places a number is. */
  lemma ChangeIsEntry(s: Sys, e: Step, k: nat)
    requires Enabled(s, e)
    ensures var c := Change(s, e, k); c.files + c.sockets + c.answered == One(IsSubmission(e) && k == |s.h.subs|)
  {
  }

  lemma AccountedStep(s: Sys, e: Step)
    requires Enabled(s, e) && Accounted(s)
    ensures Accounted(Apply(s, e))
  {
    hide TallyOf, Apply, Enabled, Change, Total, Injective;
    FreshSerial(s);
    SubsStep(s, e);
    StepMoves(s, e, 0);
    forall k: nat ensures Places(Apply(s, e), k) == if k < |Apply(s, e).h.subs| then 1 else 0 {
      StepMoves(s, e, k);
      ChangeIsEntry(s, e, k);
      assert Places(s, k) == One(k < |s.h.subs|);
    }
  }

  lemma SubsStep(s: Sys, e: Step)
    requires Enabled(s, e)
    ensures |Apply(s, e).h.subs| == |s.h.subs| + One(IsSubmission(e))
  {
    if e.Harvest? { FireAllKeeps(s, e.keys); }
  }

  lemma StepKeepsInv(s: Sys, e: Step)
    requires Inv(s) && Enabled(s, e)
    ensures Inv(Apply(s, e))
  {
    AccountedStep(s, e);
    CountedStep(s, e);
    NamedStep(s, e);
    forall k: nat ensures Owning(Apply(s, e), k) {
      OwningStep(s, e, k);
    }
  }

  lemma StartIsGood()
    ensures Inv(Start())
  {
    assert Start().registry.Values == {};
  }

  lemma {:induction false} RunKeepsInv(s: Sys, trace: seq<Step>)
    requires Inv(s) && Runs(s, trace)
    ensures Inv(After(s, trace))
    decreases |trace|
  {
    hide Inv, Apply, Enabled;
    if trace != [] {
      StepKeepsInv(s, trace[0]);
      RunKeepsInv(Apply(s, trace[0]), trace[1..]);
    }
  }

  // ----- What holds of all runs -----

  /** Between calls the counter is the number of operations still in the backend: queued or
      running file jobs, armed or collected socket operations, completions nobody has reaped,
      and the operations that were lost. */
  lemma InFlightIsExact(trace: seq<Step>)
    requires Runs(Start(), trace) && After(Start(), trace).submitting.None?
    ensures var s := After(Start(), trace);
            s.inFlight == (|s.jobs| + |s.running| + |s.registry| + |s.events| + |s.completions| + |s.h.lost|) % U32
  {
    StartIsGood();
    RunKeepsInv(Start(), trace);
  }

  /** Reaping never takes more off the counter than is on it. */
  lemma ReapNeverUnderflows(trace: seq<Step>)
    requires Runs(Start(), trace) && After(Start(), trace).submitting.None?
    requires Owed(After(Start(), trace)) < U32
    ensures var s := After(Start(), trace); |s.completions| <= s.inFlight
  {
    StartIsGood();
    RunKeepsInv(Start(), trace);
  }

  /** Every submission is in exactly one place, and a completion that answers it, waiting or
      reaped, carries the user data it was submitted with. */
  lemma ExactlyOnce(trace: seq<Step>, k: nat)
    requires Runs(Start(), trace) && k < |After(Start(), trace).h.subs|
    ensures var s := After(Start(), trace);
            && TallyOf(s, k).files + TallyOf(s, k).sockets + TallyOf(s, k).answered == 1
            && (forall c :: (c in s.completions || c in s.h.reaped) && c.serial == k ==> c.userData == s.h.subs[k])
  {
    StartIsGood();
    RunKeepsInv(Start(), trace);
    assert Places(After(Start(), trace), k) == 1;
  }

  /** An operation context is freed exactly when its completion is posted: never while the
      kernel or the reactor still has it, never twice, and not at all if it was lost. */
  lemma ContextFreedOnce(trace: seq<Step>, k: nat)
    requires Runs(Start(), trace) && k in After(Start(), trace).h.sockets
    ensures var s := After(Start(), trace);
            && (k in s.h.freed <==> TallyOf(s, k).answered == 1)
            && (k in s.h.freed <==> !(k in s.registry.Values || k in s.events || k in s.h.lost))
            && (s.events != [] ==> s.events[0] !in s.h.freed)
  {
    StartIsGood();
    RunKeepsInv(Start(), trace);
    var s := After(Start(), trace);
    assert Owning(s, k) && Places(s, k) == 1;
    if s.events != [] {
      var n := s.events[0];
      assert n in multiset(s.events);
      assert Owning(s, n) && Places(s, n) == One(n < |s.h.subs|);
    }
  }

  // ----- Lost operations -----

  /** Registering over an armed event of the same descriptor and direction replaces its
      context; closing a descriptor drops the events armed on it. */
  predicate Overwrites(s: Sys, e: Step) {
    match e
    case SubmitSocket(_, key, registration) => registration.Value? && key in s.registry
    case SubmitClose(_, fd, result) => result.Value? && (Key(fd, EvRead) in s.registry || Key(fd, EvWrite) in s.registry)
    case _ => false
  }

  /** Operations are lost in exactly these two ways, and what is lost stays lost. */
  lemma LossIsExact(s: Sys, e: Step)
    requires Enabled(s, e)
    ensures s.h.lost <= Apply(s, e).h.lost
    ensures Apply(s, e).h.lost != s.h.lost <==> Overwrites(s, e)
  {
    match e
    case Harvest(keys) => FireAllKeeps(s, keys);
    case SubmitSocket(userData, key, registration) =>
      if key in s.registry { assert |s.h.lost + multiset{s.registry[key]}| == |s.h.lost| + 1; }
    case SubmitClose(userData, fd, result) =>
      LossOfClose(s, userData, fd, result);
    case _ =>
  }

  lemma LossOfClose(s: Sys, userData: u64, fd: int, result: SysResult)
    requires Enabled(s, SubmitClose(userData, fd, result))
    ensures var t := Apply(s, SubmitClose(userData, fd, result));
            s.h.lost <= t.h.lost && (|t.h.lost| > |s.h.lost| <==> Overwrites(s, SubmitClose(userData, fd, result)))
            && (t.h.lost == s.h.lost || |t.h.lost| > |s.h.lost|)
  {
  }

  ghost predicate Careful(s: Sys, trace: seq<Step>)
    requires Runs(s, trace)
    decreases |trace|
  {
    trace == [] || (!Overwrites(s, trace[0]) && Careful(Apply(s, trace[0]), trace[1..]))
  }

  /** A run loses nothing if and only if it never overwrites or closes an armed event. */
  lemma {:induction false} NothingLostIffCareful(s: Sys, trace: seq<Step>)
    requires Runs(s, trace)
    ensures s.h.lost <= After(s, trace).h.lost
    ensures After(s, trace).h.lost == s.h.lost <==> Careful(s, trace)
    decreases |trace|
  {
    hide Apply, Enabled, Overwrites;
    if trace != [] {
      LossIsExact(s, trace[0]);
      NothingLostIffCareful(Apply(s, trace[0]), trace[1..]);
    }
  }

  /** A lost operation is never answered, and keeps the counter from returning to zero. */
  lemma LostIsNeverAnswered(before: seq<Step>, after: seq<Step>, k: nat)
    requires Runs(Start(), before) && Runs(After(Start(), before), after) && k in After(Start(), before).h.lost
    ensures var s := After(After(Start(), before), after);
            && TallyOf(s, k).answered == 0
            && (s.submitting.None? && Owed(s) < U32 ==> s.inFlight > 0)
  {
    hide Inv, Apply, Enabled, TallyOf;
    var m := After(Start(), before);
    StartIsGood();
    RunKeepsInv(Start(), before);
    RunKeepsInv(m, after);
    NothingLostIffCareful(m, after);
    assert After(m, after).h.lost[k] >= m.h.lost[k] > 0;
    LostNow(After(m, after), k);
  }

  lemma LostNow(s: Sys, k: nat)
    requires Inv(s) && k in s.h.lost
    ensures TallyOf(s, k).answered == 0 && (s.submitting.None? && Owed(s) < U32 ==> s.inFlight > 0)
  {
    assert Places(s, k) <= 1;
    assert s.h.lost >= multiset{k};
    hide Owning, Named;
  }

  lemma {:induction false} RunsOn(s: Sys, trace: seq<Step>, e: Step)
    requires Runs(s, trace) && Enabled(After(s, trace), e)
    ensures Runs(s, trace + [e]) && After(s, trace + [e]) == Apply(After(s, trace), e)
    decreases |trace|
  {
    hide Apply, Enabled;
    if trace == [] {
      assert [e][1..] == [];
    } else {
      RunsOn(Apply(s, trace[0]), trace[1..], e);
      assert (trace + [e])[1..] == trace[1..] + [e];
    }
  }

  /** Two operations submitted for the same descriptor and direction: the first is lost. */
  lemma SomeRunLosesAnOperation(key: Key) returns (trace: seq<Step>)
    ensures Runs(Start(), trace)
    ensures var s := After(Start(), trace); s.submitting.None? && s.h.lost == multiset{0} && s.inFlight == 2 && |s.registry| == 1
  {
    hide Runs, After;
    var s0 := Start();
    Stay(s0);
    var e1, e2 := SubmitSocket(1, key, Value(0)), SubmitSocket(2, key, Value(0));
    var s1 := s0.(submitting := Some(0));
    var s2 := s1.(submitting := Some(1), registry := map[key := 0], h := s0.h.(subs := [1], sockets := {0}));
    var s3 := s2.(submitting := Some(2), registry := map[key := 1],
                  h := s0.h.(subs := [1, 2], sockets := {0, 1}, lost := multiset{0}));
    assert Apply(s0, SubmitBegin) == s1;
    assert Apply(s1, e1) == s2;
    assert map[key := 0] - {key} == map[];
    assert Apply(s2, e2) == s3;
    assert Apply(s3, SubmitEnd).inFlight == 2;
    RunsOn(s0, [], SubmitBegin);
    RunsOn(s0, [] + [SubmitBegin], e1);
    RunsOn(s0, [] + [SubmitBegin] + [e1], e2);
    RunsOn(s0, [] + [SubmitBegin] + [e1] + [e2], SubmitEnd);
    trace := [] + [SubmitBegin] + [e1] + [e2] + [SubmitEnd];
  }

  lemma Stay(s: Sys)
    ensures Runs(s, []) && After(s, []) == s
  {
  }

  // ----- Events are served, operations answered -----

  /** Keys as `kevent` reports them: armed, and each at most once. */
  ghost predicate Reported(s: Sys, keys: seq<Key>) {
    && (forall i :: 0 <= i < |keys| ==> keys[i] in s.registry)
    && (forall i, j :: 0 <= i < j < |keys| ==> keys[i] != keys[j])
  }

  /** Every reported event reaches the reactor with the context it was armed with, in the order of
      the report, and is disarmed; no other event is touched. */
  lemma {:induction false} ReportedAreCollected(s: Sys, keys: seq<Key>)
    requires Reported(s, keys)
    ensures var t := FireAll(s, keys);
            && |t.events| == |s.events| + |keys| && t.events[..|s.events|] == s.events
            && (forall i :: 0 <= i < |keys| ==> t.events[|s.events| + i] == s.registry[keys[i]])
            && (forall k :: k in t.registry <==> k in s.registry && k !in keys)
            && (forall k :: k in t.registry ==> t.registry[k] == s.registry[k])
    decreases |keys|
  {
    if keys != [] {
      var t := Fire(s, keys[0]);
      var rest := keys[1..];
      assert forall i :: 0 <= i < |rest| ==> rest[i] == keys[i + 1] && rest[i] != keys[0];
      assert forall k :: k in keys <==> k == keys[0] || k in rest;
      ReportedAreCollected(t, rest);
      var u := FireAll(t, rest);
      hide FireAll;
      forall i | 0 <= i < |keys| ensures u.events[|s.events| + i] == s.registry[keys[i]] {
        if i == 0 {
          assert u.events[..|t.events|][|s.events|] == s.registry[keys[0]];
        } else {
          assert u.events[|t.events| + (i - 1)] == t.registry[rest[i - 1]];
        }
      }
      assert u.events[..|t.events|][..|s.events|] == s.events;
    }
  }

  /** All completions ever posted, oldest first. */
  function Answers(s: Sys): seq<Completion> {
    s.h.reaped + s.completions
  }

  lemma AnswersGrow(s: Sys, e: Step)
    requires Enabled(s, e)
    ensures Answers(s) <= Answers(Apply(s, e))
  {
    if e.Harvest? {
      FireAllKeeps(s, e.keys);
    } else if e.Reap? {
    } else {
      PostsNamed(s, e);
      hide Apply;
    }
  }

  /** Submission `k` is answered by the end of the run `rest`. */
  ghost predicate AnsweredBy(s: Sys, rest: seq<Step>, k: nat) {
    Runs(s, rest) && TallyOf(After(s, rest), k).answered == 1
  }

  lemma Then(s: Sys, e: Step, rest: seq<Step>, k: nat)
    requires Enabled(s, e) && AnsweredBy(Apply(s, e), rest, k)
    ensures AnsweredBy(s, [e] + rest, k)
  {
    assert ([e] + rest)[1..] == rest;
  }

  /** A step answers its submission, which is then in no other place. */
  lemma AnsweredNow(s: Sys, e: Step, k: nat)
    requires Inv(s) && Enabled(s, e) && Change(s, e, k).answered == 1
    ensures AnsweredBy(s, [e], k)
  {
    StepKeepsInv(s, e);
    FreshSerial(s);
    hide Apply, Owning, Named, Counted, TallyOf;
    StepMoves(s, e, k);
    TallyIsNat(s, k);
    assert Places(Apply(s, e), k) <= 1;
    TallyIsNat(Apply(s, e), k);
    assert [e][1..] == [];
    Stay(Apply(s, e));
  }

  lemma CollectedIsKnown(s: Sys)
    requires Inv(s)
    ensures s.events != [] ==> s.events[0] < |s.h.subs|
    ensures forall n :: n in s.running ==> n < |s.h.subs|
  {
    hide Counted, Named, Owning;
    if s.events != [] {
      assert s.events[0] in multiset(s.events);
      assert Places(s, s.events[0]) == One(s.events[0] < |s.h.subs|);
    }
    forall n | n in s.running ensures n < |s.h.subs| {
      assert Places(s, n) == One(n < |s.h.subs|);
    }
  }

  /** A collected event is served after those before it. */
  lemma {:induction false} CollectedIsAnswered(s: Sys, k: nat) returns (rest: seq<Step>)
    requires Inv(s) && k in s.events
    ensures AnsweredBy(s, rest, k)
    decreases |s.events|
  {
    CollectedIsKnown(s);
    var e := Serve(Value(0));
    if s.events[0] == k {
      AnsweredNow(s, e, k);
      rest := [e];
    } else {
      StepKeepsInv(s, e);
      assert k in s.events[1..];
      hide Inv;
      rest := CollectedIsAnswered(Apply(s, e), k);
      Then(s, e, rest, k);
      rest := [e] + rest;
    }
  }

  /** An armed event is reported once the reactor is done with what it has, and then served. */
  lemma {:induction false} ArmedIsAnswered(s: Sys, key: Key) returns (rest: seq<Step>)
    requires Inv(s) && key in s.registry
    ensures AnsweredBy(s, rest, s.registry[key])
    decreases |s.events|
  {
    CollectedIsKnown(s);
    var e := if s.events == [] then Harvest([key]) else Serve(Value(0));
    StepKeepsInv(s, e);
    if s.events == [] {
      ReportedAreCollected(s, [key]);
      hide Inv, FireAll;
      rest := CollectedIsAnswered(Apply(s, e), s.registry[key]);
    } else {
      hide Inv;
      rest := ArmedIsAnswered(Apply(s, e), key);
    }
    Then(s, e, rest, s.registry[key]);
    rest := [e] + rest;
  }

  /** A queued job is received after those before it, and a running one finishes. */
  lemma {:induction false} JobIsAnswered(s: Sys, k: nat) returns (rest: seq<Step>)
    requires Inv(s) && (k in s.jobs || k in s.running)
    ensures AnsweredBy(s, rest, k)
    decreases |s.jobs|
  {
    if k in s.running {
      CollectedIsKnown(s);
      AnsweredNow(s, Finish(k, Value(0)), k);
      rest := [Finish(k, Value(0))];
    } else {
      StepKeepsInv(s, Receive);
      assert s.jobs[0] == k || k in s.jobs[1..];
      hide Inv;
      rest := JobIsAnswered(Apply(s, Receive), k);
      Then(s, Receive, rest, k);
      rest := [Receive] + rest;
    }
  }

  /** After any run, a submission that has not been answered can still be answered if and only if
      it has not been lost. */
  lemma AnswerableIffNotLost(trace: seq<Step>, k: nat)
    requires Runs(Start(), trace) && k < |After(Start(), trace).h.subs| && TallyOf(After(Start(), trace), k).answered == 0
    ensures k !in After(Start(), trace).h.lost <==> exists rest :: AnsweredBy(After(Start(), trace), rest, k)
  {
    var s := After(Start(), trace);
    StartIsGood();
    RunKeepsInv(Start(), trace);
    if k in s.h.lost {
      forall rest | Runs(s, rest) ensures !AnsweredBy(s, rest, k) {
        LostIsNeverAnswered(trace, rest, k);
      }
    } else {
      WhereItIs(s, k);
      hide Inv, Runs, After, TallyOf;
      if k in s.jobs || k in s.running {
        var rest := JobIsAnswered(s, k);
      } else if k in s.events {
        var rest := CollectedIsAnswered(s, k);
      } else {
        var key :| key in s.registry && s.registry[key] == k;
        var rest := ArmedIsAnswered(s, key);
      }
    }
  }

  lemma WhereItIs(s: Sys, k: nat)
    requires Inv(s) && k < |s.h.subs| && TallyOf(s, k).answered == 0 && k !in s.h.lost
    ensures k in s.jobs || k in s.running || k in s.events || exists key :: key in s.registry && s.registry[key] == k
  {
    assert Places(s, k) == 1;
    hide Counted, Named, Owning;
  }

  /** It happens: an operation is armed, reported, served and reaped with the value the system call
      gave it, and the counter is back at zero. */
  lemma SomeRunAnswers(key: Key, userData: u64, n: nat) returns (trace: seq<Step>)
    ensures Runs(Start(), trace)
    ensures var s := After(Start(), trace);
            s.h.reaped == [Completion(0, n, userData)] && s.inFlight == 0 && s.registry == map[] && s.h.freed == {0}
  {
    hide Runs, After;
    trace := OneArmed(key, userData);
    var s0, s3 := Start(), After(Start(), trace);
    var s4 := s3.(registry := map[], events := [0]);
    var s5 := s4.(events := [], completions := [Completion(0, n, userData)], h := s4.h.(freed := {0}));
    assert map[key := 0] - {key} == map[];
    assert Apply(s3, Harvest([key])) == s4 by { OneFires(s3, key); }
    assert Apply(s4, Serve(Value(n))) == s5;
    assert Apply(s5, Reap) == s5.(completions := [], inFlight := 0, h := s5.h.(reaped := s5.completions));
    hide Apply;
    RunsOn(s0, trace, Harvest([key]));
    trace := trace + [Harvest([key])];
    RunsOn(s0, trace, Serve(Value(n)));
    trace := trace + [Serve(Value(n))];
    RunsOn(s0, trace, Reap);
    trace := trace + [Reap];
  }

  /** One operation is submitted and armed. */
  lemma OneArmed(key: Key, userData: u64) returns (trace: seq<Step>)
    ensures Runs(Start(), trace)
    ensures After(Start(), trace) ==
            Start().(inFlight := 1, registry := map[key := 0], h := Start().h.(subs := [userData], sockets := {0}))
  {
    hide Runs, After;
    var s0 := Start();
    Stay(s0);
    var s1 := s0.(submitting := Some(0));
    var s2 := s1.(submitting := Some(1), registry := map[key := 0], h := s0.h.(subs := [userData], sockets := {0}));
    assert Apply(s0, SubmitBegin) == s1;
    assert Apply(s1, SubmitSocket(userData, key, Value(0))) == s2;
    assert Apply(s2, SubmitEnd) == s2.(submitting := None, inFlight := 1);
    hide Apply;
    RunsOn(s0, [], SubmitBegin);
    RunsOn(s0, [] + [SubmitBegin], SubmitSocket(userData, key, Value(0)));
    trace := [] + [SubmitBegin] + [SubmitSocket(userData, key, Value(0))];
    RunsOn(s0, trace, SubmitEnd);
    trace := trace + [SubmitEnd];
  }

  lemma OneFires(s: Sys, key: Key)
    ensures FireAll(s, [key]) == Fire(s, key)
  {
    assert [key][1..] == [];
  }

  // ----- Values and error numbers -----

  /** A call that succeeds reports its value, whoever made it. */
  lemma SuccessNumbers(n: nat)
    ensures IoOutcome(RawOutcome(Value(n))) == Ok(n)
    ensures IoOutcome(SocketOutcome(Value(n))) == Ok(n)
  {
  }

  /** A failed file operation or close reports error 1 whatever went wrong, so its number is
      right exactly when that is what went wrong; a failed socket operation reports the number
      the system gave. */
  lemma ErrorNumbers(e: nat)
    requires 0 < e < 0x8000_0000
    ensures IoOutcome(RawOutcome(Errno(e))) == Os(e) <==> e == 1
    ensures IoOutcome(SocketOutcome(Errno(e))) == Os(e)
  {
  }
}
