/** The reader adapter: a scratch buffer, one positional read at a time persisted across any number
    of polls, short transfers, and what a failed completion leaves behind.  A run interleaves the
    two halves of polls with completions, which the backend makes whenever it likes. */
module TokioReader {
  import opened AsyncTokio
  import opened Results
  import opened Words

  /** The read operation: none, in flight for `len` bytes at `at` (`here` unless the scratch buffer
      has been moved since), or completed with a raw result nobody has taken yet. */
  datatype ReadOp = NoRead | Reading(len: nat, at: nat, here: bool) | ReadDone(raw: int, len: nat)

  /** A read whose submission was refused and that the backend is going to run all the same. */
  datatype Stray = Stray(len: nat, at: nat, here: bool)

  /** `polling` is the room of a poll that has prepared the scratch buffer and not yet looked at
      the operation. */
  datatype Reader = Reader(
    file: seq<byte>, start: nat, offset: nat, scratch: seq<byte>, submitted: bool, op: ReadOp,
    strays: seq<Stray>, polling: Option<nat>, h: History)

  /** The bytes delivered, the answers given, the operations submitted and the completions taken. */
  datatype History = History(delivered: seq<byte>, answers: seq<Poll<seq<byte>>>, submissions: nat, taken: nat)

  /** `Begin` prepares the scratch buffer; a buffer that has to grow does so in place while its
      allocation lasts, and moves to another one after that. */
  datatype Step =
    | Begin(needed: nat, moves: bool)
    | Complete(n: nat)
    | Fail(errno: nat)
    | Disturb(i: nat, n: nat)
    | End(refusal: Option<Refusal>)

  function Start(file: seq<byte>, start: nat): Reader {
    Reader(file, start, start, [], false, NoRead, [], None, History([], [], 0, 0))
  }

  ghost predicate Enabled(s: Reader, e: Step) {
    match e
    case Begin(needed, moves) => s.polling.None? && (moves ==> needed > |s.scratch|)
    case Complete(n) => s.op.Reading? && n <= s.op.len && InFile(s.file, s.op.at, n) && (s.op.here ==> n <= |s.scratch|)
    case Fail(_) => s.op.Reading?
    case Disturb(i, n) =>
      i < |s.strays| && n <= s.strays[i].len && InFile(s.file, s.strays[i].at, n) && (s.strays[i].here ==> n <= |s.scratch|)
    case End(_) => s.polling.Some? && s.polling.value <= |s.scratch|
  }

  function Grown(scratch: seq<byte>, needed: nat): seq<byte> {
    if |scratch| < needed then scratch + seq(needed - |scratch|, _ => 0) else scratch
  }

  function AllMoved(strays: seq<Stray>): seq<Stray> {
    seq(|strays|, i requires 0 <= i < |strays| => strays[i].(here := false))
  }

  function Say(s: Reader, r: Poll<seq<byte>>): Reader {
    s.(polling := None, h := s.h.(answers := s.h.answers + [r]))
  }

  function Took(s: Reader): Reader {
    s.(op := NoRead, h := s.h.(taken := s.h.taken + 1))
  }

  ghost function Apply(s: Reader, e: Step): Reader
    requires Enabled(s, e)
  {
    match e
    case Begin(needed, moves) =>
      if needed == 0 then Say(s, Ready([]))
      else s.(scratch := Grown(s.scratch, needed), polling := Some(needed),
              op := if s.op.Reading? && moves then s.op.(here := false) else s.op,
              strays := if moves then AllMoved(s.strays) else s.strays)
    case Complete(n) =>
      s.(op := ReadDone(n, s.op.len),
         scratch := if s.op.here then Window(s.file, s.op.at, n) + s.scratch[n..] else s.scratch)
    case Fail(errno) => s.(op := ReadDone(-1 - errno, s.op.len))
    case Disturb(i, n) =>
      if s.strays[i].here then s.(scratch := Window(s.file, s.strays[i].at, n) + s.scratch[n..]) else s
    case End(refusal) =>
      if !s.submitted then
        match refusal
        case Some(why) =>
          var t := Say(s, Failed(Refused(why.error)));
          if why.left then t.(strays := s.strays + [Stray(s.polling.value, s.offset, true)]) else t
        case None =>
          Say(s, Pending).(op := Reading(s.polling.value, s.offset, true), submitted := true,
                           h := Say(s, Pending).h.(submissions := s.h.submissions + 1))
      else if !s.op.ReadDone? then Say(s, Pending)
      else if s.op.raw < 0 then Say(Took(s), Failed(IoOutcome(s.op.raw)))
      else if s.op.raw > s.polling.value then Say(Took(s), Panics)
      else
        var bytes := s.scratch[..s.op.raw];
        var t := Say(Took(s), Ready(bytes));
        t.(offset := s.offset + s.op.raw, submitted := false, h := t.h.(delivered := s.h.delivered + bytes))
  }

  ghost predicate Runs(s: Reader, trace: seq<Step>)
    decreases |trace|
  {
    trace == [] || (Enabled(s, trace[0]) && Runs(Apply(s, trace[0]), trace[1..]))
  }

  ghost function After(s: Reader, trace: seq<Step>): Reader
    requires Runs(s, trace)
    decreases |trace|
  {
    if trace == [] then s else After(Apply(s, trace[0]), trace[1..])
  }

  lemma {:induction false} RunsOn(s: Reader, trace: seq<Step>, e: Step)
    requires Runs(s, trace) && Enabled(After(s, trace), e)
    ensures Runs(s, trace + [e]) && After(s, trace + [e]) == Apply(After(s, trace), e)
    decreases |trace|
  {
    hide Apply, Enabled;
    if trace == [] {
      assert [e][1..] == [];
    } else {
      RunsOn(Apply(s, trace[0]), trace[1..], e);
      assert (trace + [e])[1..] == trace[1..] + [e];
    }
  }

  // ----- What holds of all runs -----

  /** A failed completion was taken, or the copy panicked: the adapter still believes an operation
      is submitted. */
  predicate Dead(s: Reader) {
    s.submitted && s.op.NoRead?
  }

  ghost predicate Inv(s: Reader) {
    && s.offset == s.start + |s.h.delivered|
    && (!s.op.NoRead? ==> s.submitted)
    && s.h.submissions == s.h.taken + (if s.op.NoRead? then 0 else 1)
    && (s.op.Reading? ==> s.op.at == s.offset && s.op.len <= |s.scratch|)
    && (s.op.ReadDone? ==> s.op.raw <= s.op.len <= |s.scratch|)
    && (s.polling.Some? ==> s.polling.value <= |s.scratch|)
    && (forall x :: x in s.strays && x.here ==> x.len <= |s.scratch|)
    && (Dead(s) <==> exists r :: r in s.h.answers && IsLoss(r))
  }

  lemma LossStep(answers: seq<Poll<seq<byte>>>, r: Poll<seq<byte>>)
    ensures (exists x :: x in answers + [r] && IsLoss(x)) <==> (exists x :: x in answers && IsLoss(x)) || IsLoss(r)
  {
    if x :| x in answers && IsLoss(x) { assert x in answers + [r]; }
    if IsLoss(r) { assert (answers + [r])[|answers|] == r; }
    if x :| x in answers + [r] && IsLoss(x) { assert x in answers || x == r; }
  }

  /** A poll without room ends where it begins. */
  predicate Empty(e: Step) {
    e.Begin? && e.needed == 0
  }

  /** What a poll answers when it ends. */
  ghost function Answer(s: Reader, e: Step): Poll<seq<byte>>
    requires Enabled(s, e) && (e.End? || Empty(e))
  {
    Apply(s, e).h.answers[|s.h.answers|]
  }

  lemma EndAnswers(s: Reader, e: Step)
    requires Inv(s) && Enabled(s, e)
    ensures if e.End? || Empty(e) then Apply(s, e).h.answers == s.h.answers + [Answer(s, e)]
            else Apply(s, e).h.answers == s.h.answers
    ensures e.End? || Empty(e) ==> (Dead(Apply(s, e)) <==> Dead(s) || IsLoss(Answer(s, e)))
    ensures !e.End? && !Empty(e) ==> (Dead(Apply(s, e)) <==> Dead(s))
  {
  }

  lemma StepKeepsInv(s: Reader, e: Step)
    requires Inv(s) && Enabled(s, e)
    ensures Inv(Apply(s, e))
  {
    EndAnswers(s, e);
    if e.End? || Empty(e) { LossStep(s.h.answers, Answer(s, e)); }
    hide IsLoss;
  }

  lemma {:induction false} RunKeepsInv(s: Reader, trace: seq<Step>)
    requires Inv(s) && Runs(s, trace)
    ensures Inv(After(s, trace))
    ensures After(s, trace).file == s.file && After(s, trace).start == s.start
    decreases |trace|
  {
    if trace != [] {
      StepKeepsInv(s, trace[0]);
      hide Inv;
      RunKeepsInv(Apply(s, trace[0]), trace[1..]);
    }
  }

  /** Each operation is submitted once, however often it is polled: every submission's completion
      has been taken, but for the one outstanding. */
  lemma OneSubmissionEach(file: seq<byte>, start: nat, trace: seq<Step>)
    requires Runs(Start(file, start), trace)
    ensures var s := After(Start(file, start), trace);
            s.h.submissions == s.h.taken + (if s.op.NoRead? then 0 else 1)
  {
    RunKeepsInv(Start(file, start), trace);
  }

  /** The adapter is dead if and only if one of its polls reported the failure of a submitted
      operation, or panicked. */
  lemma DeadIffLoss(file: seq<byte>, start: nat, trace: seq<Step>)
    requires Runs(Start(file, start), trace)
    ensures var s := After(Start(file, start), trace); Dead(s) <==> exists r :: r in s.h.answers && IsLoss(r)
  {
    RunKeepsInv(Start(file, start), trace);
  }

  /** From then on every poll with room answers `Pending`, nothing is delivered and nothing is
      submitted. */
  lemma {:induction false} DeadForEver(s: Reader, trace: seq<Step>)
    requires Dead(s) && Runs(s, trace)
    ensures var t := After(s, trace);
            && Dead(t) && t.h.delivered == s.h.delivered && t.h.submissions == s.h.submissions
            && s.h.answers <= t.h.answers
            && forall i :: |s.h.answers| <= i < |t.h.answers| ==> t.h.answers[i] in {Pending, Ready([])}
    decreases |trace|
  {
    if trace != [] {
      DeadForEver(Apply(s, trace[0]), trace[1..]);
    }
  }

  // ----- The bytes -----

  /** A submission is refused and its read published all the same. */
  predicate Leaves(e: Step) {
    e.End? && e.refusal.Some? && e.refusal.value.left
  }

  /** What a completed read has left in the scratch buffer and nobody has taken yet. */
  function Untaken(s: Reader): seq<byte> {
    if s.op.ReadDone? && 0 <= s.op.raw <= |s.scratch| then s.scratch[..s.op.raw] else []
  }

  /** The bytes delivered and about to be. */
  function Got(s: Reader): seq<byte> {
    s.h.delivered + Untaken(s)
  }

  /** There are as many of them as the reads have moved the offset. */
  ghost predicate Counted(s: Reader) {
    s.strays == [] && InFile(s.file, s.start, |Got(s)|)
  }

  ghost predicate Contiguous(s: Reader)
    requires Counted(s)
  {
    Got(s) == Window(s.file, s.start, |Got(s)|)
  }

  /** A completion is right if the backend writes to the scratch buffer itself, or if that happens
      to hold the same bytes already. */
  ghost predicate Right(s: Reader, e: Step)
    requires Enabled(s, e)
  {
    e.Complete? && !s.op.here && e.n <= |s.scratch| ==> s.scratch[..e.n] == Window(s.file, s.op.at, e.n)
  }

  ghost predicate AllRight(s: Reader, trace: seq<Step>)
    requires Runs(s, trace)
    decreases |trace|
  {
    trace == [] || (Right(s, trace[0]) && AllRight(Apply(s, trace[0]), trace[1..]))
  }

  lemma CompleteIsRight(s: Reader, n: nat)
    requires Inv(s) && Counted(s) && Enabled(s, Complete(n))
    ensures Counted(Apply(s, Complete(n)))
    ensures Contiguous(Apply(s, Complete(n))) <==> Contiguous(s) && Right(s, Complete(n))
  {
    var d, t := s.h.delivered, Apply(s, Complete(n));
    var w := Window(s.file, s.op.at, n);
    assert Untaken(t) == if s.op.here then w else s.scratch[..n] by {
      assert s.op.here ==> (w + s.scratch[n..])[..n] == w;
    }
    assert Got(s) == d;
    WindowsJoin(s.file, s.start, |d|, n);
    SameSoFar(d, Window(s.file, s.start, |d|), Untaken(t), w);
  }

  /** The rest only moves bytes from one place to the other. */
  lemma OthersKeepBytes(s: Reader, e: Step)
    requires Inv(s) && s.strays == [] && Enabled(s, e) && !Leaves(e) && !e.Complete?
    requires e.End? ==> !Answer(s, e).Panics?
    ensures Got(Apply(s, e)) == Got(s) && Apply(s, e).strays == []
  {
    match e
    case Begin(needed, _) =>
      assert s.op.ReadDone? && s.op.raw >= 0 ==> Grown(s.scratch, needed)[..s.op.raw] == s.scratch[..s.op.raw];
    case _ =>
  }

  /** In a run without panic, with no refused read left with the backend, the bytes delivered and
      about to be are the file's if and only if every completion was right. */
  lemma {:induction false} GotRun(s: Reader, trace: seq<Step>)
    requires Inv(s) && Counted(s) && Runs(s, trace) && forall e :: e in trace ==> !Leaves(e)
    requires forall r :: r in After(s, trace).h.answers ==> !r.Panics?
    ensures Counted(After(s, trace))
    ensures Contiguous(After(s, trace)) <==> Contiguous(s) && AllRight(s, trace)
    decreases |trace|
  {
    if trace != [] {
      var t := Apply(s, trace[0]);
      StepKeepsInv(s, trace[0]);
      EndAnswers(s, trace[0]);
      AnswersStay(t, trace[1..]);
      hide Inv, Counted, Contiguous, Right, Leaves;
      GotStep(s, trace[0]);
      GotRun(t, trace[1..]);
    }
  }

  lemma GotStep(s: Reader, e: Step)
    requires Inv(s) && Counted(s) && Enabled(s, e) && !Leaves(e)
    requires e.End? ==> !Answer(s, e).Panics?
    ensures Counted(Apply(s, e))
    ensures Contiguous(Apply(s, e)) <==> Contiguous(s) && Right(s, e)
  {
    if e.Complete? {
      CompleteIsRight(s, e.n);
    } else {
      OthersKeepBytes(s, e);
      hide Got;
    }
  }

  lemma {:induction false} AnswersStay(s: Reader, trace: seq<Step>)
    requires Inv(s) && Runs(s, trace)
    ensures s.h.answers <= After(s, trace).h.answers
    decreases |trace|
  {
    if trace != [] {
      EndAnswers(s, trace[0]);
      StepKeepsInv(s, trace[0]);
      hide Inv, Answer, IsLoss;
      AnswersStay(Apply(s, trace[0]), trace[1..]);
    }
  }

  /** Over any sequence of polls and completions, with any lengths, short transfers and pending
      polls, in which no poll panics, no refused read is left with the backend and no completion is
      left untaken, the bytes delivered are exactly the file's from the start offset to the current
      one if and only if every completion was written to the scratch buffer, or that held the same
      bytes already. */
  lemma StreamIsContiguous(file: seq<byte>, start: nat, trace: seq<Step>)
    requires Runs(Start(file, start), trace) && forall e :: e in trace ==> !Leaves(e)
    requires var s := After(Start(file, start), trace);
             Untaken(s) == [] && forall r :: r in s.h.answers ==> !r.Panics?
    ensures var s := After(Start(file, start), trace);
            && s.offset == start + |s.h.delivered| && InFile(file, start, |s.h.delivered|)
            && (s.h.delivered == Window(file, start, |s.h.delivered|) <==> AllRight(Start(file, start), trace))
  {
    var s := After(Start(file, start), trace);
    RunKeepsInv(Start(file, start), trace);
    GotRun(Start(file, start), trace);
    assert Got(s) == s.h.delivered;
  }

  // ----- A buffer that stays where it is -----

  /** The scratch buffer is moved while the backend is going to write to it. */
  predicate Moves(s: Reader, e: Step) {
    e.Begin? && e.moves && s.op.Reading?
  }

  ghost predicate NeverMoved(s: Reader, trace: seq<Step>)
    requires Runs(s, trace)
    decreases |trace|
  {
    trace == [] || (!Moves(s, trace[0]) && NeverMoved(Apply(s, trace[0]), trace[1..]))
  }

  ghost predicate Faithful(s: Reader) {
    Counted(s) && Contiguous(s) && (s.op.Reading? ==> s.op.here)
  }

  lemma FaithfulStep(s: Reader, e: Step)
    requires Inv(s) && Faithful(s) && Enabled(s, e) && !Moves(s, e) && !Leaves(e)
    ensures Faithful(Apply(s, e))
  {
    StaysHere(s, e);
    hide Inv, Counted, Contiguous, Apply, Enabled;
    if e.End? && Answer(s, e).Panics? {
      PanicKeepsPrefix(s, e);
    } else {
      GotStep(s, e);
      RightIfHere(s, e);
    }
  }

  lemma RightIfHere(s: Reader, e: Step)
    requires Enabled(s, e) && (s.op.Reading? ==> s.op.here)
    ensures Right(s, e)
  {
  }

  lemma StaysHere(s: Reader, e: Step)
    requires Enabled(s, e) && !Moves(s, e) && (s.op.Reading? ==> s.op.here)
    ensures Apply(s, e).op.Reading? ==> Apply(s, e).op.here
  {
  }

  lemma PanicKeepsPrefix(s: Reader, e: Step)
    requires Inv(s) && Counted(s) && Contiguous(s) && Enabled(s, e) && e.End? && Answer(s, e).Panics?
    ensures Counted(Apply(s, e)) && Contiguous(Apply(s, e))
  {
    var n := |s.h.delivered|;
    assert Got(Apply(s, e)) == s.h.delivered == Got(s)[..n];
    assert Window(s.file, s.start, |Got(s)|)[..n] == Window(s.file, s.start, n);
    hide Inv;
  }

  lemma {:induction false} FaithfulRun(s: Reader, trace: seq<Step>)
    requires Inv(s) && Faithful(s) && Runs(s, trace) && NeverMoved(s, trace) && forall e :: e in trace ==> !Leaves(e)
    ensures Inv(After(s, trace)) && Faithful(After(s, trace)) && After(s, trace).file == s.file && After(s, trace).start == s.start
    decreases |trace|
  {
    if trace != [] {
      FaithfulStep(s, trace[0]);
      StepKeepsInv(s, trace[0]);
      hide Inv, Faithful, Moves, Leaves;
      FaithfulRun(Apply(s, trace[0]), trace[1..]);
    }
  }

  /** A buffer that is never moved under an operation in flight is enough, and then not even a panic
      or an untaken completion does harm. */
  lemma UnmovedIsContiguous(file: seq<byte>, start: nat, trace: seq<Step>)
    requires Runs(Start(file, start), trace) && NeverMoved(Start(file, start), trace)
    requires forall e :: e in trace ==> !Leaves(e)
    ensures var s := After(Start(file, start), trace);
            if start <= |file| then start <= s.offset <= |file| && s.h.delivered == file[start..s.offset]
            else s.offset == start && s.h.delivered == []
  {
    var s := After(Start(file, start), trace);
    FaithfulRun(Start(file, start), trace);
    assert s.h.delivered == Got(s)[..|s.h.delivered|];
  }

  /** A run can move it: the second poll asks for more than the eight bytes of a vector's first
      allocation, and what is delivered is what the buffer held before. */
  lemma MovedBufferIsStale(file: seq<byte>) returns (trace: seq<Step>)
    requires |file| > 0 && file[0] != 0
    ensures Runs(Start(file, 0), trace)
    ensures After(Start(file, 0), trace).h.delivered == [0] != file[..1]
  {
    hide Runs, After;
    var s0 := Start(file, 0);
    Stay(s0);
    trace := Submit(s0, [], 1);
    RunsOn(s0, trace, Begin(9, true));
    trace := trace + [Begin(9, true)];
    RunsOn(s0, trace, Complete(1));
    trace := trace + [Complete(1)];
    RunsOn(s0, trace, End(None));
    trace := trace + [End(None)];
    assert After(s0, trace).h.delivered == Grown(Grown([], 1), 9)[..1];
  }

  /** An idle reader's poll with room for `n` bytes submits. */
  lemma Submit(s: Reader, before: seq<Step>, n: nat) returns (trace: seq<Step>)
    requires Runs(s, before) && n > 0
    requires var t := After(s, before); !t.submitted && t.op.NoRead? && t.polling.None?
    ensures Runs(s, trace)
    ensures var t := After(s, before);
            After(s, trace) == t.(scratch := Grown(t.scratch, n), op := Reading(n, t.offset, true), submitted := true,
                                  strays := After(s, trace).strays,
                                  h := t.h.(answers := t.h.answers + [Pending], submissions := t.h.submissions + 1))
            && (n <= |t.scratch| ==> After(s, trace).strays == t.strays)
  {
    hide Runs, After;
    var moves := n > |After(s, before).scratch|;
    RunsOn(s, before, Begin(n, moves));
    trace := before + [Begin(n, moves)];
    RunsOn(s, trace, End(None));
    trace := trace + [End(None)];
  }

  /** No refused read may be left with the backend either: a read that was refused and left with the backend runs into the
      scratch buffer of a later one. */
  lemma StrayReadIsDelivered(file: seq<byte>) returns (trace: seq<Step>)
    requires |file| > 1 && file[0] != file[1]
    ensures Runs(Start(file, 0), trace)
    ensures After(Start(file, 0), trace).h.delivered == [file[0], file[0]] != file[..2]
  {
    hide Runs, After, Apply, Enabled;
    var s0 := Start(file, 0);
    trace := LeaveOne(file);
    trace := OneRead(s0, trace, [file[0]]);
    assert After(s0, trace).h.delivered == [file[0]];
    trace := ReadUpToDelivery(s0, trace, [file[1]]);
    StrayLands(After(s0, trace));
    RunsOn(s0, trace, Disturb(0, 1));
    trace := trace + [Disturb(0, 1)];
    trace := Deliver(s0, trace, [file[0]]);
  }

  /** A one-byte read at the start of the file is refused and left with the backend. */
  lemma LeaveOne(file: seq<byte>) returns (trace: seq<Step>)
    ensures Runs(Start(file, 0), trace)
    ensures var s := After(Start(file, 0), trace);
            && s.strays == [Stray(1, 0, true)] && s.scratch == [0] && s.op.NoRead? && !s.submitted && s.polling.None?
            && s.offset == 0 && s.file == file && s.h.delivered == []
  {
    hide Runs, After;
    var s0 := Start(file, 0);
    Stay(s0);
    trace := [];
    RunsOn(s0, trace, Begin(1, true));
    trace := trace + [Begin(1, true)];
    RunsOn(s0, trace, End(Some(Refusal(1, true))));
    trace := trace + [End(Some(Refusal(1, true)))];
  }

  lemma StrayLands(s: Reader)
    requires s.strays == [Stray(1, 0, true)] && |s.scratch| == 1 && |s.file| > 0
    ensures Enabled(s, Disturb(0, 1)) && Apply(s, Disturb(0, 1)) == s.(scratch := [s.file[0]])
  {
  }

  /** A one-byte read is submitted and completed ... */
  lemma ReadUpToDelivery(s: Reader, before: seq<Step>, bytes: seq<byte>) returns (trace: seq<Step>)
    requires Runs(s, before)
    requires var t := After(s, before);
             !t.submitted && t.op.NoRead? && t.polling.None? && |t.scratch| == 1 && t.offset < |t.file| && bytes == [t.file[t.offset]]
    ensures Runs(s, trace)
    ensures var t, u := After(s, before), After(s, trace);
            && u.scratch == bytes && u.op == ReadDone(1, 1) && u.submitted && u.polling.None? && u.strays == t.strays
            && u.offset == t.offset && u.file == t.file && u.h.delivered == t.h.delivered
  {
    hide Runs, After;
    trace := Submit(s, before, 1);
    RunsOn(s, trace, Complete(1));
    trace := trace + [Complete(1)];
  }

  /** ... and the next poll delivers what the scratch buffer then holds. */
  lemma Deliver(s: Reader, before: seq<Step>, bytes: seq<byte>) returns (trace: seq<Step>)
    requires Runs(s, before)
    requires var t := After(s, before); t.scratch == bytes && |bytes| == 1 && t.op == ReadDone(1, 1) && t.submitted && t.polling.None?
    ensures Runs(s, trace)
    ensures var t, u := After(s, before), After(s, trace);
            && u.h.delivered == t.h.delivered + bytes && u.offset == t.offset + 1 && u.file == t.file && u.scratch == bytes
            && !u.submitted && u.op.NoRead? && u.polling.None? && u.strays == t.strays
  {
    hide Runs, After;
    trace := before;
    RunsOn(s, trace, Begin(1, false));
    trace := trace + [Begin(1, false)];
    RunsOn(s, trace, End(None));
    trace := trace + [End(None)];
    assert bytes[..1] == bytes;
  }

  lemma OneRead(s: Reader, before: seq<Step>, bytes: seq<byte>) returns (trace: seq<Step>)
    requires Runs(s, before)
    requires var t := After(s, before);
             !t.submitted && t.op.NoRead? && t.polling.None? && |t.scratch| == 1 && t.offset < |t.file| && bytes == [t.file[t.offset]]
    ensures Runs(s, trace)
    ensures var t, u := After(s, before), After(s, trace);
            && u.h.delivered == t.h.delivered + bytes && u.offset == t.offset + 1 && u.file == t.file && u.scratch == bytes
            && !u.submitted && u.op.NoRead? && u.polling.None? && u.strays == t.strays
  {
    trace := ReadUpToDelivery(s, before, bytes);
    trace := Deliver(s, trace, bytes);
  }

  lemma Stay(s: Reader)
    ensures Runs(s, []) && After(s, []) == s
  {
  }

  // ----- Polls of one length -----

  /** A poll during an operation asks for as much room as the one that submitted it. */
  predicate SameLength(s: Reader, e: Step) {
    e.Begin? && e.needed > 0 && !s.op.NoRead? ==> e.needed == s.op.len
  }

  ghost predicate Steady(s: Reader, trace: seq<Step>)
    requires Runs(s, trace)
    decreases |trace|
  {
    trace == [] || (SameLength(s, trace[0]) && Steady(Apply(s, trace[0]), trace[1..]))
  }

  /** A poll in progress has the room its operation was submitted with. */
  predicate InStep(s: Reader) {
    s.polling.Some? && !s.op.NoRead? ==> s.polling.value == s.op.len
  }

  /** Such polls never move the buffer, and never copy more than there is room for. */
  lemma {:induction false} SteadyIsSafe(s: Reader, trace: seq<Step>)
    requires Inv(s) && InStep(s) && Runs(s, trace) && Steady(s, trace)
    ensures NeverMoved(s, trace)
    ensures forall i :: |s.h.answers| <= i < |After(s, trace).h.answers| ==> !After(s, trace).h.answers[i].Panics?
    ensures s.h.answers <= After(s, trace).h.answers
    decreases |trace|
  {
    if trace != [] {
      StepKeepsInv(s, trace[0]);
      SafeStep(s, trace[0]);
      hide Inv, InStep, SameLength, Moves;
      SteadyIsSafe(Apply(s, trace[0]), trace[1..]);
    }
  }

  lemma SafeStep(s: Reader, e: Step)
    requires Inv(s) && InStep(s) && Enabled(s, e) && SameLength(s, e)
    ensures InStep(Apply(s, e)) && !Moves(s, e) && s.h.answers <= Apply(s, e).h.answers
    ensures |Apply(s, e).h.answers| <= |s.h.answers| + 1
    ensures |Apply(s, e).h.answers| == |s.h.answers| + 1 ==> !Apply(s, e).h.answers[|s.h.answers|].Panics?
  {
  }

  // ----- What every poll answers -----

  /** After any run, a poll with room answers `Pending` if and only if it has just submitted, the
      read is in flight, or the reader is dead.  A refusal is reported, with nothing submitted; a
      completed read is delivered whole, reported as the error it ended with, or too long for the
      room. */
  lemma PendingIff(file: seq<byte>, start: nat, trace: seq<Step>, refusal: Option<Refusal>)
    requires Runs(Start(file, start), trace) && After(Start(file, start), trace).polling.Some?
    ensures var s := After(Start(file, start), trace);
            && Enabled(s, End(refusal))
            && var r, t := Answer(s, End(refusal)), Apply(s, End(refusal));
               && (r == Pending <==> (!s.submitted && refusal.None?) || s.op.Reading? || Dead(s))
               && (!s.submitted && refusal.None? ==> t.submitted && t.op == Reading(s.polling.value, s.offset, true))
               && (!s.submitted && refusal.Some? ==> r == Failed(Refused(refusal.value.error)) && !t.submitted && t.op.NoRead?)
               && (s.op.ReadDone? ==> Reports(s.op.raw, s.polling.value, r) && t.op.NoRead? && t.submitted == !r.Ready?)
               && t.offset == s.offset + |t.h.delivered| - |s.h.delivered|
               && t.h.delivered == s.h.delivered + (if r.Ready? then r.value else [])
  {
    var s := After(Start(file, start), trace);
    RunKeepsInv(Start(file, start), trace);
    if s.op.ReadDone? { OutcomeIsExact(s.op.raw); }
    hide IsLoss;
  }

  /** What is said of a completion with raw value `raw` to a poll with `room` bytes. */
  predicate Reports(raw: int, room: nat, r: Poll<seq<byte>>) {
    && (raw > room ==> r.Panics?)
    && (0 <= raw <= room ==> r.Ready? && |r.value| == raw)
    && (raw < 0 ==> r.Failed? && r.error.Os?)
    && (-0x8000_0000 < raw < 0 ==> r == Failed(Os(-raw)))
  }

  // ----- Panics and dead readers -----

  /** The most bytes the read in flight can bring. */
  function Available(s: Reader): nat
    requires s.op.Reading?
  {
    var left: nat := if s.op.at < |s.file| then |s.file| - s.op.at else 0;
    if s.op.len < left then s.op.len else left
  }

  /** Some completion of the read in flight makes the poll in progress panic if and only if the
      poll has less room than the read can bring bytes. */
  lemma PanicsIff(file: seq<byte>, start: nat, trace: seq<Step>, refusal: Option<Refusal>)
    requires Runs(Start(file, start), trace)
    requires var s := After(Start(file, start), trace); s.op.Reading? && s.polling.Some?
    ensures var s := After(Start(file, start), trace);
            s.polling.value < Available(s)
            <==> exists n: nat :: Enabled(s, Complete(n)) && PanicsAt(Apply(s, Complete(n)), refusal)
  {
    var s := After(Start(file, start), trace);
    RunKeepsInv(Start(file, start), trace);
    forall n: nat | Enabled(s, Complete(n))
      ensures PanicsAt(Apply(s, Complete(n)), refusal) <==> n > s.polling.value
      ensures n <= Available(s)
    {
      assert s.submitted;
    }
    assert Enabled(s, Complete(Available(s)));
  }

  /** The same holds of the next poll after the completion. */
  lemma NextPollPanicsIff(file: seq<byte>, start: nat, trace: seq<Step>, needed: nat, moves: bool, refusal: Option<Refusal>)
    requires Runs(Start(file, start), trace) && needed > 0
    requires var s := After(Start(file, start), trace);
             s.op.Reading? && s.polling.None? && (moves ==> needed > |s.scratch|)
    ensures var s := After(Start(file, start), trace);
            needed < Available(s)
            <==> exists n: nat :: Enabled(s, Complete(n)) && PanicsNext(Apply(s, Complete(n)), needed, moves, refusal)
  {
    var s := After(Start(file, start), trace);
    RunKeepsInv(Start(file, start), trace);
    forall n: nat | Enabled(s, Complete(n))
      ensures PanicsNext(Apply(s, Complete(n)), needed, moves, refusal) <==> n > needed
      ensures n <= Available(s)
    {
      CompleteThenBegin(s, n, needed, moves);
    }
    assert Enabled(s, Complete(Available(s)));
  }

  lemma CompleteThenBegin(s: Reader, n: nat, needed: nat, moves: bool)
    requires Inv(s) && Enabled(s, Complete(n)) && s.polling.None? && needed > 0 && (moves ==> needed > |s.scratch|)
    ensures var t := Apply(s, Complete(n));
            && Enabled(t, Begin(needed, moves))
            && var u := Apply(t, Begin(needed, moves));
               u.submitted && u.op == ReadDone(n, s.op.len) && u.polling == Some(needed) && needed <= |u.scratch|
  {
  }

  ghost predicate PanicsNext(s: Reader, needed: nat, moves: bool, refusal: Option<Refusal>) {
    Enabled(s, Begin(needed, moves)) && PanicsAt(Apply(s, Begin(needed, moves)), refusal)
  }

  ghost predicate PanicsAt(s: Reader, refusal: Option<Refusal>) {
    Enabled(s, End(refusal)) && Answer(s, End(refusal)).Panics?
  }

  /** It happens: two bytes were asked for and have arrived, and the next poll has room for one. */
  lemma SomeRunPanics(file: seq<byte>) returns (trace: seq<Step>)
    requires |file| >= 2
    ensures Runs(Start(file, 0), trace)
    ensures var s := After(Start(file, 0), trace); s.h.answers == [Pending, Panics] && Dead(s)
  {
    hide Runs, After;
    var s0 := Start(file, 0);
    Stay(s0);
    trace := Submit(s0, [], 2);
    RunsOn(s0, trace, Complete(2));
    trace := trace + [Complete(2)];
    RunsOn(s0, trace, Begin(1, false));
    trace := trace + [Begin(1, false)];
    RunsOn(s0, trace, End(None));
    trace := trace + [End(None)];
  }

  /** A failed read is enough to lose the reader. */
  lemma SomeRunLosesTheReader(file: seq<byte>, errno: nat) returns (trace: seq<Step>)
    requires 0 < errno < 0x8000_0000
    ensures Runs(Start(file, 0), trace)
    ensures var s := After(Start(file, 0), trace);
            Dead(s) && s.h.answers == [Pending, Failed(Os(errno))]
  {
    hide Runs, After;
    var s0 := Start(file, 0);
    Stay(s0);
    OutcomeIsExact(0 - errno);
    trace := Submit(s0, [], 1);
    RunsOn(s0, trace, Fail(errno - 1));
    trace := trace + [Fail(errno - 1)];
    RunsOn(s0, trace, Begin(1, false));
    trace := trace + [Begin(1, false)];
    RunsOn(s0, trace, End(None));
    trace := trace + [End(None)];
  }

  // ----- The object -----

  datatype PendingRead = NoPending | InFlight(buf: array<byte>, len: nat, at: nat) | Completed(raw: int)

  datatype StrayRead = StrayRead(buf: array<byte>, len: nat, at: nat)

  class TorusAsyncReader {
    const file: seq<byte>
    const start: nat
    var offset: nat
    var scratch: array<byte>
    var filled: nat
    var submitted: bool
    var op: PendingRead
    var strays: seq<StrayRead>
    ghost var s: Reader
    ghost var trace: seq<Step>

    ghost predicate Valid()
      reads this, scratch
    {
      && Runs(Start(file, start), trace) && After(Start(file, start), trace) == s && s.polling.None? && Matches(s)
    }

    /** The scratch buffer is the first `filled` bytes of its allocation.  The backend writes to the
        allocation the operation was submitted with, which is this one unless it has been replaced
        since. */
    ghost predicate Matches(t: Reader)
      reads this, scratch
    {
      && t.file == file && filled <= scratch.Length && scratch[..filled] == t.scratch && offset == t.offset && submitted == t.submitted
      && |strays| == |t.strays|
      && (forall i :: 0 <= i < |strays| ==>
            strays[i].len <= strays[i].buf.Length && t.strays[i] == Stray(strays[i].len, strays[i].at, strays[i].buf == scratch))
      && match op
         case NoPending => t.op == NoRead
         case InFlight(buf, len, at) => t.op == Reading(len, at, buf == scratch) && len <= buf.Length
         case Completed(raw) => t.op.ReadDone? && t.op.raw == raw
    }

    /** The buffers the backend may write to. */
    function Buffers(): set<array<byte>>
      reads this
    {
      (set x | x in strays :: x.buf) + (if op.InFlight? then {op.buf} else {})
    }

    constructor (file: seq<byte>, start: nat)
      ensures Valid() && this.file == file && this.start == start && trace == [] && fresh(scratch) && op == NoPending
    {
      this.file, this.start := file, start;
      offset := start;
      scratch, filled := new byte[0], 0;
      submitted, op, strays := false, NoPending, [];
      s := Start(file, start);
      trace := [];
    }

    ghost method Record(e: Step)
      requires Runs(Start(file, start), trace) && After(Start(file, start), trace) == s
      requires Enabled(s, e)
      modifies this`s, this`trace
      ensures Runs(Start(file, start), trace) && After(Start(file, start), trace) == s
      ensures s == Apply(old(s), e) && trace == old(trace) + [e]
    {
      hide Apply, Enabled;
      RunsOn(Start(file, start), trace, e);
      s := Apply(s, e);
      trace := trace + [e];
    }

    /** The backend may complete the operation in flight, with an error or with any number of bytes
        up to the length asked for and the end of the file, and it may run any of the reads that
        were refused and left with it. */
    method Interfere()
      requires Runs(Start(file, start), trace) && After(Start(file, start), trace) == s && Matches(s)
      modifies this`op, this`s, this`trace, Buffers()
      ensures Runs(Start(file, start), trace) && After(Start(file, start), trace) == s && Matches(s)
      ensures s.polling == old(s).polling && s.h == old(s).h && (Dead(s) <==> Dead(old(s)))
      ensures Polls(trace) == Polls(old(trace)) && Buffers() <= old(Buffers())
      ensures if old(op).InFlight? then !op.NoPending? else op == old(op)
    {
      hide Runs, After, Window;
      var completes: bool, n: nat := *, *;
      if completes {
        CompleteOne();
      }
      while n > 0
        invariant Runs(Start(file, start), trace) && After(Start(file, start), trace) == s && Matches(s)
        invariant s.polling == old(s).polling && s.h == old(s).h && (Dead(s) <==> Dead(old(s)))
        invariant Polls(trace) == Polls(old(trace)) && Buffers() <= old(Buffers())
        invariant if old(op).InFlight? then !op.NoPending? else op == old(op)
      {
        var i: nat, count: nat := *, *;
        if i < |strays| && count <= strays[i].len && (count == 0 || strays[i].at + count <= |file|) {
          RunStray(i, count);
        }
        n := n - 1;
      }
    }

    method CompleteOne()
      requires Runs(Start(file, start), trace) && After(Start(file, start), trace) == s && Matches(s)
      modifies this`op, this`s, this`trace, Buffers()
      ensures Runs(Start(file, start), trace) && After(Start(file, start), trace) == s && Matches(s)
      ensures s.polling == old(s).polling && s.h == old(s).h && (Dead(s) <==> Dead(old(s)))
      ensures Polls(trace) == Polls(old(trace)) && Buffers() <= old(Buffers())
      ensures if old(op).InFlight? then !op.NoPending? else op == old(op)
    {
      hide Runs, After, Window, IsLoss;
      var fails: bool, n: nat := *, *;
      if op.InFlight? {
        if fails {
          op := Completed(-1 - n);
          PollsOn(trace, Fail(n));
          Record(Fail(n));
        } else if n <= op.len && (n == 0 || op.at + n <= |file|) {
          CompleteWith(n);
        }
      }
    }

    /** The backend writes to the buffer it was given, wherever the scratch buffer is by now. */
    method CompleteWith(n: nat)
      requires Runs(Start(file, start), trace) && After(Start(file, start), trace) == s && Matches(s)
      requires op.InFlight? && n <= op.len && InFile(file, op.at, n)
      modifies this`op, this`s, this`trace, op.buf
      ensures Runs(Start(file, start), trace) && After(Start(file, start), trace) == s && Matches(s)
      ensures s.polling == old(s).polling && s.h == old(s).h && !Dead(s)
      ensures op == Completed(n) && Polls(trace) == Polls(old(trace))
    {
      Sound();
      hide Runs, After, Window, IsLoss;
      WriteInto(op.buf, op.at, n);
      op := Completed(n);
      PollsOn(trace, Complete(n));
      Record(Complete(n));
    }

    /** A read that was refused runs after all. */
    method RunStray(i: nat, n: nat)
      requires Runs(Start(file, start), trace) && After(Start(file, start), trace) == s && Matches(s)
      requires i < |strays| && n <= strays[i].len && InFile(file, strays[i].at, n)
      modifies this`s, this`trace, strays[i].buf
      ensures Runs(Start(file, start), trace) && After(Start(file, start), trace) == s && Matches(s)
      ensures s.polling == old(s).polling && s.h == old(s).h && (Dead(s) <==> Dead(old(s)))
      ensures Polls(trace) == Polls(old(trace))
    {
      Sound();
      hide Runs, After, Window, IsLoss;
      assert s.strays[i] in s.strays;
      WriteInto(strays[i].buf, strays[i].at, n);
      PollsOn(trace, Disturb(i, n));
      Record(Disturb(i, n));
    }

    /** The backend writes `n` bytes of the file to the front of a buffer. */
    method WriteInto(buf: array<byte>, at: nat, n: nat)
      requires n <= buf.Length && InFile(file, at, n)
      modifies buf
      ensures forall k :: n <= k <= buf.Length ==> buf[..k] == Window(file, at, n) + old(buf[..k])[n..]
    {
      forall i | 0 <= i < n { buf[i] := file[at + i]; }
      WindowBytes(file, at, n);
    }

    lemma Sound()
      requires Runs(Start(file, start), trace) && After(Start(file, start), trace) == s
      ensures Inv(s)
    {
      RunKeepsInv(Start(file, start), trace);
    }

    /** `poll_read` with `needed` bytes of room; `refusal` is the backend's answer if the poll
        submits.  A poll is its two steps of the machine, with the backend free to complete the
        operation in between, and answers what the machine answers. */
    method PollRead(needed: nat, refusal: Option<Refusal>) returns (r: Poll<seq<byte>>)
      requires Valid()
      modifies this, scratch, Buffers()
      ensures Valid() && s.h.answers == old(s).h.answers + [r]
      ensures Polls(trace) == Polls(old(trace)) + OnePoll(needed, needed > old(scratch.Length), refusal)
      ensures s.h.submissions == old(s).h.submissions + (if needed > 0 && !old(submitted) && refusal.None? then 1 else 0)
      ensures r.Ready? ==> |r.value| <= needed && s.h.delivered == old(s).h.delivered + r.value
      ensures !r.Ready? ==> s.h.delivered == old(s).h.delivered
      ensures Dead(s) <==> Dead(old(s)) || IsLoss(r)
      // Without room nothing happens.
      ensures needed == 0 ==> r == Ready([]) && op == old(op) && submitted == old(submitted) && offset == old(offset)
      // The first poll of an operation submits, or reports the refusal.
      ensures needed > 0 && !old(submitted) && refusal.Some? ==>
                r == Failed(Refused(refusal.value.error)) && !submitted && op == NoPending && offset == old(offset)
      ensures needed > 0 && !old(submitted) && refusal.None? ==>
                r.Pending? && submitted && op == InFlight(scratch, needed, old(offset)) && offset == old(offset)
      // The later ones wait for the completion and report it.
      ensures needed > 0 && old(submitted) ==>
                && (r.Pending? ==> submitted && !op.Completed? && (op.NoPending? ==> old(op) == NoPending))
                && (!r.Pending? ==> op == NoPending && submitted == !r.Ready?)
                && (old(op).NoPending? ==> r.Pending?) && (old(op).Completed? ==> Reports(old(op).raw, needed, r))
                && offset == old(offset) + (if r.Ready? then |r.value| else 0)
    {
      hide Runs, After, Window, Inv, Dead, IsLoss, Apply;
      Resting();
      if needed == 0 {
        r := PollNothing();
        return;
      }
      PrepareScratch(needed);
      Interfere();
      r := FinishPoll(needed, refusal);
    }

    /** Between polls an operation is pending only if one was submitted. */
    lemma Resting()
      requires Runs(Start(file, start), trace) && After(Start(file, start), trace) == s && Matches(s)
      ensures !submitted ==> op.NoPending?
    {
      Sound();
    }

    method PollNothing() returns (r: Poll<seq<byte>>)
      requires Valid()
      modifies this`s, this`trace
      ensures Valid() && r == Ready([]) && s.h == old(s).h.(answers := old(s).h.answers + [r])
      ensures Polls(trace) == Polls(old(trace)) + [Begin(0, false)] && (Dead(s) <==> Dead(old(s))) && !IsLoss(r)
    {
      hide Runs, After;
      PollsOn(trace, Begin(0, false));
      Record(Begin(0, false));
      r := Ready([]);
    }

    /** `Vec::resize`: the buffer grows in place while its allocation lasts.  A new allocation is at
        least as long as a vector makes it, which is eight bytes or twice what it was, and as much
        longer as it could have been extended without moving. */
    method Resize(needed: nat)
      requires filled <= scratch.Length && filled < needed
      modifies this`scratch, this`filled, scratch
      ensures filled == needed <= scratch.Length && scratch[..filled] == Grown(old(scratch[..filled]), needed)
      ensures scratch[..old(filled)] == old(scratch[..filled]) && forall i :: old(filled) <= i < needed ==> scratch[i] == 0
      ensures if needed > old(scratch.Length) then fresh(scratch) else scratch == old(scratch)
    {
      if needed > scratch.Length {
        assert needed + 2 * filled + 8 >= 2 * filled;
        var size: nat :| size >= needed && size >= 2 * filled && size >= 8;
        var bigger := new byte[size];
        forall i | 0 <= i < needed { bigger[i] := if i < filled then scratch[i] else 0; }
        scratch, filled := bigger, needed;
      } else {
        forall i | filled <= i < needed { scratch[i] := 0; }
        filled := needed;
      }
    }

    method PrepareScratch(needed: nat)
      requires Valid() && needed > 0
      modifies this`scratch, this`filled, this`s, this`trace, scratch
      ensures Runs(Start(file, start), trace) && After(Start(file, start), trace) == s && Matches(s)
      ensures var moves := needed > old(scratch.Length);
              && s == Apply(old(s), Begin(needed, moves)) && (if moves then fresh(scratch) else scratch == old(scratch))
              && Polls(trace) == Polls(old(trace)) + [Begin(needed, moves)]
      ensures s.polling == Some(needed) && (Dead(s) <==> Dead(old(s))) && op == old(op) && strays == old(strays) && s.h == old(s).h
    {
      hide Runs, After, IsLoss, Apply, Grown;
      var moves := needed > scratch.Length;
      BeginFrame(s, needed, moves);
      GrownEnough(s.scratch, needed);
      if filled < needed {
        Resize(needed);
      }
      PollsOn(trace, Begin(needed, moves));
      Record(Begin(needed, moves));
    }

    method FinishPoll(needed: nat, refusal: Option<Refusal>) returns (r: Poll<seq<byte>>)
      requires Runs(Start(file, start), trace) && After(Start(file, start), trace) == s && Matches(s)
      requires s.polling == Some(needed)
      modifies this`op, this`strays, this`submitted, this`offset, this`s, this`trace
      ensures Valid() && s.h.answers == old(s).h.answers + [r]
      ensures Polls(trace) == Polls(old(trace)) + [End(refusal)]
      ensures s.h.submissions == old(s).h.submissions + (if !old(submitted) && refusal.None? then 1 else 0)
      ensures r.Ready? ==> |r.value| <= needed && s.h.delivered == old(s).h.delivered + r.value
      ensures !r.Ready? ==> s.h.delivered == old(s).h.delivered
      ensures Dead(s) <==> Dead(old(s)) || IsLoss(r)
      ensures !old(submitted) && refusal.Some? ==>
                r == Failed(Refused(refusal.value.error)) && !submitted && op == NoPending && offset == old(offset)
      ensures !old(submitted) && refusal.None? ==>
                r.Pending? && submitted && op == InFlight(scratch, needed, offset) && offset == old(offset)
      ensures old(submitted) && !old(op).Completed? ==> r.Pending? && submitted && op == old(op) && offset == old(offset)
      ensures old(submitted) && old(op).Completed? ==>
                && Reports(old(op).raw, needed, r) && op == NoPending && submitted == !r.Ready?
                && offset == old(offset) + (if r.Ready? then |r.value| else 0)
    {
      Sound();
      hide Runs, After, IsLoss, Window, InFile, Reports;
      EndAnswers(s, End(refusal));
      PollsOn(trace, End(refusal));
      if !submitted {
        match refusal
        case Some(why) =>
          r := Failed(Refused(why.error));
          if why.left {
            strays := strays + [StrayRead(scratch, needed, offset)];
          }
        case None =>
          op := InFlight(scratch, needed, offset);
          submitted := true;
          r := Pending;
      } else if !op.Completed? {
        r := Pending;
      } else {
        r := Take(needed, refusal);
        return;
      }
      Record(End(refusal));
    }

    /** The completion is taken: its bytes are copied out, or there is no room for them. */
    method Take(needed: nat, refusal: Option<Refusal>) returns (r: Poll<seq<byte>>)
      requires Runs(Start(file, start), trace) && After(Start(file, start), trace) == s && Matches(s)
      requires Inv(s) && s.polling == Some(needed) && submitted && op.Completed?
      modifies this`op, this`submitted, this`offset, this`s, this`trace
      ensures Valid() && trace == old(trace) + [End(refusal)] && s == Apply(old(s), End(refusal))
      ensures r == Answer(old(s), End(refusal)) && s.h.submissions == old(s).h.submissions
      ensures r.Ready? ==> |r.value| <= needed && s.h.delivered == old(s).h.delivered + r.value
      ensures !r.Ready? ==> s.h.delivered == old(s).h.delivered
      ensures Reports(old(op).raw, needed, r) && op == NoPending && submitted == !r.Ready?
      ensures offset == old(offset) + (if r.Ready? then |r.value| else 0)
    {
      hide Runs, After, IsLoss, Window, InFile;
      var raw := op.raw;
      OutcomeIsExact(raw);
      op := NoPending;
      if raw < 0 {
        r := Failed(IoOutcome(raw));
      } else if raw > needed {
        r := Panics;
      } else {
        r := Ready(scratch[..raw]);
        assert s.scratch[..raw] == scratch[..raw];
        offset := offset + raw;
        submitted := false;
      }
      Record(End(refusal));
    }
  }

  /** What the first half of a poll changes. */
  lemma BeginFrame(s: Reader, needed: nat, moves: bool)
    requires needed > 0 && Enabled(s, Begin(needed, moves))
    ensures var t := Apply(s, Begin(needed, moves));
            && t == s.(scratch := Grown(s.scratch, needed), polling := Some(needed), op := t.op, strays := t.strays)
            && t.op == (if s.op.Reading? && moves then s.op.(here := false) else s.op)
            && |t.strays| == |s.strays|
            && forall i :: 0 <= i < |s.strays| ==> t.strays[i] == (if moves then s.strays[i].(here := false) else s.strays[i])
  {
  }

  lemma GrownEnough(scratch: seq<byte>, needed: nat)
    ensures |scratch| >= needed ==> Grown(scratch, needed) == scratch
  {
  }

  /** The steps of one poll. */
  function OnePoll(needed: nat, moves: bool, refusal: Option<Refusal>): seq<Step> {
    if needed == 0 then [Begin(0, false)] else [Begin(needed, moves), End(refusal)]
  }

  /** The steps of a run that are halves of polls. */
  ghost function Polls(trace: seq<Step>): seq<Step> {
    if trace == [] then []
    else
      var e := trace[|trace| - 1];
      Polls(trace[..|trace| - 1]) + (if e.Begin? || e.End? then [e] else [])
  }

  lemma PollsOn(trace: seq<Step>, e: Step)
    ensures Polls(trace + [e]) == Polls(trace) + (if e.Begin? || e.End? then [e] else [])
  {
    assert (trace + [e])[..|trace|] == trace;
  }

  lemma WindowBytes(file: seq<byte>, from: nat, n: nat)
    requires InFile(file, from, n)
    ensures forall i :: 0 <= i < n ==> Window(file, from, n)[i] == file[from + i]
  {
  }
}
