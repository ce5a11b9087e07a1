/** The writer adapter: one positional write at a time persisted across any number of polls.  The
    operation refers to the caller's buffer, which is borrowed only for the poll that submits it;
    the backend reads the buffer when it gets to it, and by then it may have changed. */
module TokioWriter {
  import opened AsyncTokio
  import opened Results
  import opened Words

  /** The write operation: none, in flight with the bytes that were submitted and the bytes now in
      the buffer it refers to, or completed with a raw result nobody has taken yet. */
  datatype WriteOp = NoWrite | Writing(data: seq<byte>, mem: seq<byte>, at: nat) | WriteDone(raw: int, data: seq<byte>)

  /** A write whose submission was refused and that the backend is going to run all the same. */
  datatype Stray = Stray(len: nat, at: nat)

  datatype Writer = Writer(
    original: seq<byte>, start: nat, file: seq<byte>, offset: nat, submitted: bool, op: WriteOp, strays: seq<Stray>, h: History)

  /** The bytes the adapter has told its caller are written, all bytes of completed writes as they
      were submitted and as they reached the file, the answers given, and the operations submitted
      and taken. */
  datatype History = History(
    accepted: seq<byte>, promised: seq<byte>, landed: seq<byte>, answers: seq<Poll<nat>>, submissions: nat, taken: nat)

  datatype Step =
    | PollStep(buf: seq<byte>, refusal: Option<Refusal>)
    | Change(mem: seq<byte>)
    | Complete(n: nat)
    | Fail(errno: nat)
    | Disturb(i: nat, bytes: seq<byte>)

  function Start(file: seq<byte>, start: nat): Writer {
    Writer(file, start, file, start, false, NoWrite, [], History([], [], [], [], 0, 0))
  }

  predicate Enabled(s: Writer, e: Step) {
    match e
    case PollStep(_, _) => s.op.WriteDone? ==> s.op.raw <= |s.op.data|
    case Change(mem) => s.op.Writing? && |mem| == |s.op.mem|
    case Complete(n) => s.op.Writing? && n <= |s.op.data| && |s.op.mem| == |s.op.data|
    case Fail(_) => s.op.Writing?
    case Disturb(i, bytes) => i < |s.strays| && |bytes| <= s.strays[i].len
  }

  function Say(s: Writer, r: Poll<nat>): Writer {
    s.(h := s.h.(answers := s.h.answers + [r]))
  }

  function Took(s: Writer): Writer {
    s.(op := NoWrite, h := s.h.(taken := s.h.taken + 1))
  }

  function Apply(s: Writer, e: Step): Writer
    requires Enabled(s, e)
  {
    match e
    case PollStep(buf, refusal) =>
      if !s.submitted then
        match refusal
        case Some(why) =>
          var t := Say(s, Failed(Refused(why.error)));
          if why.left then t.(strays := s.strays + [Stray(|buf|, s.offset)]) else t
        case None =>
          var t := Say(s, Pending);
          t.(op := Writing(buf, buf, s.offset), submitted := true, h := t.h.(submissions := s.h.submissions + 1))
      else if !s.op.WriteDone? then Say(s, Pending)
      else if s.op.raw < 0 then Say(Took(s), Failed(IoOutcome(s.op.raw)))
      else
        var t := Say(Took(s), Ready(s.op.raw));
        t.(offset := s.offset + s.op.raw, submitted := false, h := t.h.(accepted := s.h.accepted + s.op.data[..s.op.raw]))
    case Change(mem) => s.(op := s.op.(mem := mem))
    case Complete(n) =>
      s.(op := WriteDone(n, s.op.data), file := Overwrite(s.file, s.op.at, s.op.mem[..n]),
         h := s.h.(promised := s.h.promised + s.op.data[..n], landed := s.h.landed + s.op.mem[..n]))
    case Fail(errno) => s.(op := WriteDone(-1 - errno, s.op.data))
    case Disturb(i, bytes) => s.(file := Overwrite(s.file, s.strays[i].at, bytes))
  }

  ghost predicate Runs(s: Writer, trace: seq<Step>)
    decreases |trace|
  {
    trace == [] || (Enabled(s, trace[0]) && Runs(Apply(s, trace[0]), trace[1..]))
  }

  ghost function After(s: Writer, trace: seq<Step>): Writer
    requires Runs(s, trace)
    decreases |trace|
  {
    if trace == [] then s else After(Apply(s, trace[0]), trace[1..])
  }

  lemma {:induction false} RunsOn(s: Writer, trace: seq<Step>, e: Step)
    requires Runs(s, trace) && Enabled(After(s, trace), e)
    ensures Runs(s, trace + [e]) && After(s, trace + [e]) == Apply(After(s, trace), e)
    decreases |trace|
  {
    hide Apply, Enabled;
    if trace == [] {
      assert [e][1..] == [];
    } else {
      RunsOn(Apply(s, trace[0]), trace[1..], e);
      assert (trace + [e])[1..] == trace[1..] + [e];
    }
  }

  // ----- What holds of all runs -----

  predicate Dead(s: Writer) {
    s.submitted && s.op.NoWrite?
  }

  /** What a completed write has added that its caller does not know of yet. */
  function Outstanding(s: Writer): seq<byte> {
    if s.op.WriteDone? && 0 <= s.op.raw <= |s.op.data| then s.op.data[..s.op.raw] else []
  }

  ghost predicate Inv(s: Writer) {
    && s.offset == s.start + |s.h.accepted|
    && (!s.op.NoWrite? ==> s.submitted)
    && s.h.submissions == s.h.taken + (if s.op.NoWrite? then 0 else 1)
    && (s.op.Writing? ==> s.op.at == s.offset && |s.op.mem| == |s.op.data|)
    && (s.op.WriteDone? ==> s.op.raw <= |s.op.data|)
    && s.h.promised == s.h.accepted + Outstanding(s) && |s.h.landed| == |s.h.promised|
    && (Dead(s) <==> exists r: Poll<nat> :: r in s.h.answers && IsLoss(r))
  }

  lemma LossStep(answers: seq<Poll<nat>>, r: Poll<nat>)
    ensures (exists x: Poll<nat> :: x in answers + [r] && IsLoss(x)) <==> (exists x: Poll<nat> :: x in answers && IsLoss(x)) || IsLoss(r)
  {
    if x: Poll<nat> :| x in answers && IsLoss(x) { assert x in answers + [r]; }
    if IsLoss(r) { assert (answers + [r])[|answers|] == r; }
    if x: Poll<nat> :| x in answers + [r] && IsLoss(x) { assert x in answers || x == r; }
  }

  /** What a poll answers. */
  function Answer(s: Writer, buf: seq<byte>, refusal: Option<Refusal>): Poll<nat>
    requires Enabled(s, PollStep(buf, refusal))
  {
    Apply(s, PollStep(buf, refusal)).h.answers[|s.h.answers|]
  }

  lemma PollAnswers(s: Writer, buf: seq<byte>, refusal: Option<Refusal>)
    requires Inv(s) && Enabled(s, PollStep(buf, refusal))
    ensures var t, r := Apply(s, PollStep(buf, refusal)), Answer(s, buf, refusal);
            && t.h.answers == s.h.answers + [r]
            && (Dead(t) <==> Dead(s) || IsLoss(r))
  {
  }

  lemma PollKeepsInv(s: Writer, buf: seq<byte>, refusal: Option<Refusal>)
    requires Inv(s) && Enabled(s, PollStep(buf, refusal))
    ensures Inv(Apply(s, PollStep(buf, refusal)))
  {
    PollAnswers(s, buf, refusal);
    LossStep(s.h.answers, Answer(s, buf, refusal));
    hide IsLoss, Overwrite;
    assert s.h.accepted + [] == s.h.accepted;
  }

  lemma CompleteKeepsInv(s: Writer, n: nat)
    requires Inv(s) && Enabled(s, Complete(n))
    ensures Inv(Apply(s, Complete(n)))
  {
    hide Overwrite, IsLoss;
    assert s.h.accepted + [] == s.h.accepted;
  }

  lemma StepKeepsInv(s: Writer, e: Step)
    requires Inv(s) && Enabled(s, e)
    ensures Inv(Apply(s, e)) && Apply(s, e).original == s.original && Apply(s, e).start == s.start
  {
    hide Overwrite, IsLoss;
    match e
    case PollStep(buf, refusal) => PollKeepsInv(s, buf, refusal);
    case Complete(n) => CompleteKeepsInv(s, n);
    case _ =>
  }

  lemma {:induction false} RunKeepsInv(s: Writer, trace: seq<Step>)
    requires Inv(s) && Runs(s, trace)
    ensures Inv(After(s, trace)) && After(s, trace).original == s.original && After(s, trace).start == s.start
    decreases |trace|
  {
    hide Inv, Apply, Enabled;
    if trace != [] {
      StepKeepsInv(s, trace[0]);
      RunKeepsInv(Apply(s, trace[0]), trace[1..]);
    }
  }

  lemma StartIsGood(file: seq<byte>, start: nat)
    ensures Inv(Start(file, start))
  {
  }

  /** Each operation is submitted once, however often it is polled. */
  lemma OneSubmissionEach(file: seq<byte>, start: nat, trace: seq<Step>)
    requires Runs(Start(file, start), trace)
    ensures var s := After(Start(file, start), trace);
            s.h.submissions == s.h.taken + (if s.op.NoWrite? then 0 else 1)
  {
    StartIsGood(file, start);
    RunKeepsInv(Start(file, start), trace);
  }

  /** The adapter is dead if and only if one of its polls reported the failure of a submitted
      write. */
  lemma DeadIffLoss(file: seq<byte>, start: nat, trace: seq<Step>)
    requires Runs(Start(file, start), trace)
    ensures var s := After(Start(file, start), trace); Dead(s) <==> exists r: Poll<nat> :: r in s.h.answers && IsLoss(r)
  {
    StartIsGood(file, start);
    RunKeepsInv(Start(file, start), trace);
  }

  lemma {:induction false} DeadForEver(s: Writer, trace: seq<Step>)
    requires Dead(s) && Runs(s, trace)
    ensures var t := After(s, trace);
            && Dead(t) && t.h.landed == s.h.landed && t.h.accepted == s.h.accepted && t.h.submissions == s.h.submissions
            && s.h.answers <= t.h.answers
            && forall i :: |s.h.answers| <= i < |t.h.answers| ==> t.h.answers[i] == Pending
    decreases |trace|
  {
    if trace != [] {
      DeadForEver(Apply(s, trace[0]), trace[1..]);
    }
  }

  // ----- The bytes -----

  /** A submission is refused and its write published all the same. */
  predicate Leaves(e: Step) {
    e.PollStep? && e.refusal.Some? && e.refusal.value.left
  }

  ghost predicate Placed(s: Writer) {
    s.strays == [] && s.file == Overwrite(s.original, s.start, s.h.landed)
  }

  lemma PlacedStep(s: Writer, e: Step)
    requires Inv(s) && Placed(s) && Enabled(s, e) && !Leaves(e)
    ensures Placed(Apply(s, e))
  {
    hide Overwrite, IsLoss;
    match e
    case Complete(n) =>
      WritesJoin(s.original, s.start, s.h.landed, s.op.mem[..n]);
      assert s.h.accepted + [] == s.h.accepted;
    case _ =>
  }

  lemma {:induction false} PlacedRun(s: Writer, trace: seq<Step>)
    requires Inv(s) && Placed(s) && Runs(s, trace) && forall e :: e in trace ==> !Leaves(e)
    ensures Placed(After(s, trace))
    decreases |trace|
  {
    hide Inv, Apply, Enabled, Placed, Leaves;
    if trace != [] {
      PlacedStep(s, trace[0]);
      StepKeepsInv(s, trace[0]);
      PlacedRun(Apply(s, trace[0]), trace[1..]);
    }
  }

  /** If no refused write is left with the backend, whatever the writes put into the file lies there
      in one piece from the start offset on, as many bytes as were promised, and nothing else of the
      file has changed. */
  lemma WritesAreContiguous(file: seq<byte>, start: nat, trace: seq<Step>)
    requires Runs(Start(file, start), trace) && forall e :: e in trace ==> !Leaves(e)
    ensures var s := After(Start(file, start), trace);
            && |s.h.landed| == |s.h.promised|
            && InFile(s.file, start, |s.h.landed|) && Window(s.file, start, |s.h.landed|) == s.h.landed
            && forall i :: 0 <= i < |file| && !(start <= i < start + |s.h.landed|) ==> i < |s.file| && s.file[i] == file[i]
  {
    hide Runs, After, Leaves;
    StartIsGood(file, start);
    RunKeepsInv(Start(file, start), trace);
    PlacedRun(Start(file, start), trace);
    WriteThenRead(file, start, After(Start(file, start), trace).h.landed);
  }

  /** When the backend reads the buffer, the bytes it takes are still those that were submitted. */
  predicate Unchanged(s: Writer, e: Step) {
    e.Complete? && s.op.Writing? && e.n <= |s.op.mem| && e.n <= |s.op.data| ==> s.op.mem[..e.n] == s.op.data[..e.n]
  }

  ghost predicate Undisturbed(s: Writer, trace: seq<Step>)
    requires Runs(s, trace)
    decreases |trace|
  {
    trace == [] || (Unchanged(s, trace[0]) && Undisturbed(Apply(s, trace[0]), trace[1..]))
  }

  lemma LandingStep(s: Writer, e: Step)
    requires Inv(s) && Enabled(s, e)
    ensures var t := Apply(s, e); t.h.landed == t.h.promised <==> s.h.landed == s.h.promised && Unchanged(s, e)
  {
    if e.Complete? {
      SameSoFar(s.h.landed, s.h.promised, s.op.mem[..e.n], s.op.data[..e.n]);
    }
    hide Overwrite, IsLoss;
  }

  lemma {:induction false} LandingRun(s: Writer, trace: seq<Step>)
    requires Inv(s) && Runs(s, trace)
    ensures After(s, trace).h.landed == After(s, trace).h.promised <==> s.h.landed == s.h.promised && Undisturbed(s, trace)
    decreases |trace|
  {
    hide Inv, Apply, Enabled, Unchanged;
    if trace != [] {
      LandingStep(s, trace[0]);
      StepKeepsInv(s, trace[0]);
      LandingRun(Apply(s, trace[0]), trace[1..]);
    }
  }

  /** With no completion outstanding and no refused write left with the backend, the bytes the
      caller was told are written can be read back in one piece if and only if, in every write,
      those bytes were still in the buffer when the backend came to read them. */
  lemma PrefixesAreContiguous(file: seq<byte>, start: nat, trace: seq<Step>)
    requires Runs(Start(file, start), trace) && Outstanding(After(Start(file, start), trace)) == []
    requires forall e :: e in trace ==> !Leaves(e)
    ensures var s := After(Start(file, start), trace);
            && InFile(s.file, start, |s.h.accepted|)
            && (Window(s.file, start, |s.h.accepted|) == s.h.accepted <==> Undisturbed(Start(file, start), trace))
  {
    hide Runs, After, Undisturbed, Leaves;
    StartIsGood(file, start);
    var s := After(Start(file, start), trace);
    RunKeepsInv(Start(file, start), trace);
    WritesAreContiguous(file, start, trace);
    LandingRun(Start(file, start), trace);
    hide Window, Overwrite;
    assert s.h.accepted + [] == s.h.accepted;
  }

  /** It happens: the caller reuses its buffer while the write is in flight, and the file gets the
      new bytes. */
  lemma SomeRunWritesOtherBytes(file: seq<byte>, a: byte, b: byte) returns (trace: seq<Step>)
    requires a != b
    ensures Runs(Start(file, 0), trace)
    ensures var s := After(Start(file, 0), trace);
            s.h.accepted == [a] && s.h.answers == [Pending, Ready(1)] && |s.file| > 0 && s.file[0] == b
  {
    hide Runs, After;
    var s0 := Start(file, 0);
    Stay(s0);
    trace := [];
    RunsOn(s0, trace, PollStep([a], None));
    trace := trace + [PollStep([a], None)];
    RunsOn(s0, trace, Change([b]));
    trace := trace + [Change([b])];
    RunsOn(s0, trace, Complete(1));
    trace := trace + [Complete(1)];
    RunsOn(s0, trace, PollStep([a], None));
    trace := trace + [PollStep([a], None)];
    assert [b][..1] == [b] && [a][..1] == [a];
  }

  /** And a refused write that was left with the backend overwrites what a later one has put in its
      place. */
  lemma StrayWriteOverwrites(file: seq<byte>, a: byte, b: byte) returns (trace: seq<Step>)
    requires a != b
    ensures Runs(Start(file, 0), trace)
    ensures var s := After(Start(file, 0), trace);
            s.h.accepted == [b] == s.h.landed && |s.file| > 0 && s.file[0] == a
  {
    hide Runs, After;
    var s0 := Start(file, 0);
    Stay(s0);
    trace := [];
    RunsOn(s0, trace, PollStep([a], Some(Refusal(1, true))));
    trace := trace + [PollStep([a], Some(Refusal(1, true)))];
    RunsOn(s0, trace, PollStep([b], None));
    trace := trace + [PollStep([b], None)];
    RunsOn(s0, trace, Complete(1));
    trace := trace + [Complete(1)];
    RunsOn(s0, trace, PollStep([b], None));
    trace := trace + [PollStep([b], None)];
    RunsOn(s0, trace, Disturb(0, [a]));
    trace := trace + [Disturb(0, [a])];
    assert [b][..1] == [b];
  }

  // ----- What every poll answers -----

  /** What is said of a completion with raw value `raw`. */
  predicate Reports(raw: int, r: Poll<nat>) {
    && (raw >= 0 ==> r == Ready(raw))
    && (raw < 0 ==> r.Failed? && r.error.Os?)
    && (-0x8000_0000 < raw < 0 ==> r == Failed(Os(-raw)))
  }

  /** After any run, a poll answers `Pending` if and only if it has just submitted, the write is in
      flight, or the writer is dead.  A refusal is reported, with nothing submitted; a completed
      write is answered with its count or its error. */
  lemma PendingIff(file: seq<byte>, start: nat, trace: seq<Step>, buf: seq<byte>, refusal: Option<Refusal>)
    requires Runs(Start(file, start), trace)
    ensures var s := After(Start(file, start), trace);
            && Enabled(s, PollStep(buf, refusal))
            && var r, t := Answer(s, buf, refusal), Apply(s, PollStep(buf, refusal));
               && (r == Pending <==> (!s.submitted && refusal.None?) || s.op.Writing? || Dead(s))
               && (!s.submitted && refusal.None? ==> t.submitted && t.op == Writing(buf, buf, s.offset))
               && (!s.submitted && refusal.Some? ==> r == Failed(Refused(refusal.value.error)) && !t.submitted && t.op.NoWrite?)
               && (s.op.WriteDone? ==> Reports(s.op.raw, r) && t.op.NoWrite? && t.submitted == !r.Ready?)
               && t.offset == s.offset + (if r.Ready? then r.value else 0)
  {
    var s := After(Start(file, start), trace);
    StartIsGood(file, start);
    RunKeepsInv(Start(file, start), trace);
    if s.op.WriteDone? { OutcomeIsExact(s.op.raw); }
    hide IsLoss;
  }

  // ----- Counts and buffers, dead writers -----

  /** A poll that takes the completion answers a count within the buffer it was given. */
  predicate Fits(s: Writer, buf: seq<byte>, refusal: Option<Refusal>)
    requires Enabled(s, PollStep(buf, refusal))
  {
    var r := Answer(s, buf, refusal);
    r.Ready? ==> r.value <= |buf|
  }

  /** While a write is in flight, the next poll is sure to answer no more than the buffer it was
      given holds if and only if that is at least as long as the buffer that was submitted. */
  lemma CountFitsIff(file: seq<byte>, start: nat, trace: seq<Step>, buf: seq<byte>, refusal: Option<Refusal>)
    requires Runs(Start(file, start), trace) && After(Start(file, start), trace).op.Writing?
    ensures var s := After(Start(file, start), trace);
            |DataOf(s)| <= |buf|
            <==> forall n: nat :: Enabled(s, Complete(n)) ==> Fits(Apply(s, Complete(n)), buf, refusal)
  {
    var s := After(Start(file, start), trace);
    StartIsGood(file, start);
    RunKeepsInv(Start(file, start), trace);
    hide Overwrite, Runs, After;
    assert Enabled(s, Complete(|DataOf(s)|));
    assert Answer(Apply(s, Complete(|DataOf(s)|)), buf, refusal) == Ready(|DataOf(s)|);
  }

  /** It happens: two bytes were submitted, and the poll that learns of them brought a buffer of
      one. */
  lemma SomeRunCountsTooFar(file: seq<byte>, a: byte, b: byte) returns (trace: seq<Step>)
    ensures Runs(Start(file, 0), trace) && |trace| > 0 && trace[|trace| - 1] == PollStep([a], None)
    ensures After(Start(file, 0), trace).h.answers == [Pending, Ready(2)]
  {
    hide Runs, After, Overwrite;
    var s0 := Start(file, 0);
    Stay(s0);
    trace := [];
    RunsOn(s0, trace, PollStep([a, b], None));
    trace := trace + [PollStep([a, b], None)];
    RunsOn(s0, trace, Complete(2));
    trace := trace + [Complete(2)];
    RunsOn(s0, trace, PollStep([a], None));
    trace := trace + [PollStep([a], None)];
  }

  /** A failed write is enough to lose the writer. */
  lemma SomeRunLosesTheWriter(file: seq<byte>, buf: seq<byte>, errno: nat) returns (trace: seq<Step>)
    requires 0 < errno < 0x8000_0000
    ensures Runs(Start(file, 0), trace)
    ensures var s := After(Start(file, 0), trace);
            Dead(s) && s.h.answers == [Pending, Failed(Os(errno))]
  {
    OutcomeIsExact(0 - errno);
    hide Runs, After, Overwrite;
    var s0 := Start(file, 0);
    Stay(s0);
    trace := [];
    RunsOn(s0, trace, PollStep(buf, None));
    trace := trace + [PollStep(buf, None)];
    RunsOn(s0, trace, Fail(errno - 1));
    trace := trace + [Fail(errno - 1)];
    RunsOn(s0, trace, PollStep(buf, None));
    trace := trace + [PollStep(buf, None)];
  }

  lemma Stay(s: Writer)
    ensures Runs(s, []) && After(s, []) == s
  {
  }

  // ----- The object -----

  datatype PendingWrite = NoPending | InFlight(buf: array<byte>, at: nat) | Completed(raw: int)

  datatype StrayWrite = StrayWrite(buf: array<byte>, at: nat)

  class TorusAsyncWriter {
    const original: seq<byte>
    const start: nat
    var file: seq<byte>
    var offset: nat
    var submitted: bool
    var op: PendingWrite
    var strays: seq<StrayWrite>
    ghost var s: Writer
    ghost var trace: seq<Step>

    ghost predicate Valid()
      reads this
    {
      && Runs(Start(original, start), trace) && After(Start(original, start), trace) == s
      && file == s.file && offset == s.offset && submitted == s.submitted
      && |strays| == |s.strays|
      && (forall i :: 0 <= i < |strays| ==> s.strays[i] == Stray(strays[i].buf.Length, strays[i].at))
      && match op
         case NoPending => s.op == NoWrite
         case InFlight(buf, at) => s.op.Writing? && s.op.at == at && |s.op.data| == |s.op.mem| == buf.Length
         case Completed(raw) => s.op.WriteDone? && s.op.raw == raw
    }

    constructor (file: seq<byte>, start: nat)
      ensures Valid() && original == file && this.start == start && trace == [] && !submitted
    {
      this.original, this.file, this.start := file, file, start;
      offset, submitted, op, strays := start, false, NoPending, [];
      s := Start(file, start);
      trace := [];
    }

    ghost method Record(e: Step)
      requires Runs(Start(original, start), trace) && After(Start(original, start), trace) == s && Enabled(s, e)
      modifies this`s, this`trace
      ensures Runs(Start(original, start), trace) && After(Start(original, start), trace) == s
      ensures s == Apply(old(s), e) && trace == old(trace) + [e] && Polls(trace) == Polls(old(trace)) + (if e.PollStep? then [e] else [])
    {
      hide Apply, Enabled;
      RunsOn(Start(original, start), trace, e);
      s := Apply(s, e);
      assert (trace + [e])[..|trace|] == trace;
      trace := trace + [e];
    }

    lemma Sound()
      requires Valid()
      ensures Inv(s)
    {
      StartIsGood(original, start);
      RunKeepsInv(Start(original, start), trace);
    }

    /** The backend may complete the write, with an error and the file untouched or with any number
        of the bytes that are in the caller's buffer now, and it may run any of the writes that were
        refused and left with it. */
    method Interfere()
      requires Valid()
      modifies this`op, this`file, this`s, this`trace
      ensures Valid() && Polls(trace) == Polls(old(trace)) && Told(s) == Told(old(s))
      ensures (Dead(s) <==> Dead(old(s))) && submitted == old(submitted)
      ensures DataOf(s) == DataOf(old(s)) && (s.op.WriteDone? ==> !old(s).op.NoWrite?)
      ensures offset == old(offset) && if old(op).InFlight? then !op.NoPending? else op == old(op)
    {
      hide Runs, After, Overwrite;
      var completes: bool, n: nat := *, *;
      if completes {
        CompleteOne();
      }
      while n > 0
        invariant Valid() && Polls(trace) == Polls(old(trace)) && Told(s) == Told(old(s))
        invariant (Dead(s) <==> Dead(old(s))) && submitted == old(submitted)
        invariant DataOf(s) == DataOf(old(s)) && (s.op.WriteDone? ==> !old(s).op.NoWrite?)
        invariant offset == old(offset) && if old(op).InFlight? then !op.NoPending? else op == old(op)
      {
        var i: nat, count: nat := *, *;
        if i < |strays| && count <= strays[i].buf.Length {
          var bytes := strays[i].buf[..count];
          file := Overwrite(file, strays[i].at, bytes);
          Record(Disturb(i, bytes));
        }
        n := n - 1;
      }
    }

    method CompleteOne()
      requires Valid()
      modifies this`op, this`file, this`s, this`trace
      ensures Valid() && Polls(trace) == Polls(old(trace)) && Told(s) == Told(old(s))
      ensures (Dead(s) <==> Dead(old(s))) && submitted == old(submitted)
      ensures DataOf(s) == DataOf(old(s)) && (s.op.WriteDone? ==> !old(s).op.NoWrite?)
      ensures offset == old(offset) && if old(op).InFlight? then !op.NoPending? else op == old(op)
    {
      hide Runs, After, Overwrite;
      var fails: bool, n: nat := *, *;
      if op.InFlight? {
        Record(Change(op.buf[..]));
        if fails {
          op := Completed(-1 - n);
          Record(Fail(n));
        } else if n <= op.buf.Length {
          file := Overwrite(file, op.at, op.buf[..n]);
          assert op.buf[..][..n] == op.buf[..n];
          op := Completed(n);
          Record(Complete(n));
        }
      }
    }

    /** `poll_write`, which submits a reference to `buf`.  The count it answers is about the bytes
        that were in the buffer of the poll that submitted. */
    method PollWrite(buf: array<byte>, refusal: Option<Refusal>) returns (r: Poll<nat>)
      requires Valid()
      modifies this
      ensures Valid() && s.h.answers == old(s).h.answers + [r]
      ensures Polls(trace) == Polls(old(trace)) + [PollStep(buf[..], refusal)]
      ensures s.h.submissions == old(s).h.submissions + (if !old(submitted) && refusal.None? then 1 else 0)
      ensures !old(submitted) && refusal.None? ==> r.Pending? && op == InFlight(buf, offset) && s.op.data == buf[..]
      ensures r.Ready? ==> r.value <= |DataOf(old(s))| && s.h.accepted == old(s).h.accepted + DataOf(old(s))[..r.value]
      ensures r.Ready? && |DataOf(old(s))| <= buf.Length ==> r.value <= buf.Length
      ensures !r.Ready? ==> s.h.accepted == old(s).h.accepted
      ensures Dead(s) <==> Dead(old(s)) || IsLoss(r)
      // The first poll of an operation submits, or reports the refusal.
      ensures !old(submitted) && refusal.Some? ==> r == Failed(Refused(refusal.value.error)) && !submitted && op == NoPending
      ensures !old(submitted) ==> offset == old(offset)
      // The later ones wait for the completion and report it.
      ensures old(submitted) ==>
                && (r.Pending? ==> submitted && !op.Completed? && (op.NoPending? ==> old(op) == NoPending))
                && (!r.Pending? ==> op == NoPending && submitted == !r.Ready?)
                && (old(op).NoPending? ==> r.Pending?) && (old(op).Completed? ==> Reports(old(op).raw, r))
                && offset == old(offset) + (if r.Ready? then r.value else 0)
    {
      hide Runs, After, Overwrite, IsLoss, Dead;
      Interfere();
      r := FinishPoll(buf, refusal);
    }

    /** The poll itself, which is one step of the machine. */
    method FinishPoll(buf: array<byte>, refusal: Option<Refusal>) returns (r: Poll<nat>)
      requires Valid()
      modifies this`op, this`strays, this`submitted, this`offset, this`s, this`trace
      ensures Valid() && s.h.answers == old(s).h.answers + [r]
      ensures Polls(trace) == Polls(old(trace)) + [PollStep(buf[..], refusal)]
      ensures s.h.submissions == old(s).h.submissions + (if !old(submitted) && refusal.None? then 1 else 0)
      ensures !old(submitted) && refusal.None? ==> r.Pending? && op == InFlight(buf, offset) && s.op.data == buf[..]
      ensures r.Ready? ==> r.value <= |DataOf(old(s))| && s.h.accepted == old(s).h.accepted + DataOf(old(s))[..r.value]
      ensures !r.Ready? ==> s.h.accepted == old(s).h.accepted
      ensures Dead(s) <==> Dead(old(s)) || IsLoss(r)
      ensures !old(submitted) && refusal.Some? ==> r == Failed(Refused(refusal.value.error)) && !submitted && op == NoPending
      ensures !old(submitted) ==> offset == old(offset)
      ensures old(submitted) && !old(op).Completed? ==> r.Pending? && submitted && op == old(op) && offset == old(offset)
      ensures old(submitted) && old(op).Completed? ==>
                && Reports(old(op).raw, r) && op == NoPending && submitted == !r.Ready?
                && offset == old(offset) + (if r.Ready? then r.value else 0)
    {
      if op.Completed? { OutcomeIsExact(op.raw); }
      hide Runs, After, Overwrite, IsLoss;
      Sound();
      PollAnswers(s, buf[..], refusal);
      hide Inv, Dead, Answer;
      ghost var e := PollStep(buf[..], refusal);
      if !submitted {
        match refusal
        case Some(why) =>
          r := Failed(Refused(why.error));
          if why.left {
            strays := strays + [StrayWrite(buf, offset)];
          }
        case None =>
          op := InFlight(buf, offset);
          submitted := true;
          r := Pending;
      } else if !op.Completed? {
        r := Pending;
      } else {
        var raw := op.raw;
        op := NoPending;
        if raw < 0 {
          r := Failed(IoOutcome(raw));
        } else {
          r := Ready(raw);
          offset := offset + raw;
          submitted := false;
        }
      }
      Record(e);
    }
  }

  /** What the caller has been told. */
  function Told(s: Writer): (seq<byte>, seq<Poll<nat>>, nat) {
    (s.h.accepted, s.h.answers, s.h.submissions)
  }

  /** The bytes of the write that is in flight or completed, as they were submitted. */
  function DataOf(s: Writer): seq<byte> {
    if s.op.NoWrite? then [] else s.op.data
  }

  /** The polls of a run. */
  ghost function Polls(trace: seq<Step>): seq<Step> {
    if trace == [] then []
    else
      var e := trace[|trace| - 1];
      Polls(trace[..|trace| - 1]) + (if e.PollStep? then [e] else [])
  }
}
