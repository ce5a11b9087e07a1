/** From a flow to the submission queue entry that stands for it, and what the kernel makes of
    that entry; fixed-buffer entries mean the same as plain ones. */
module UringLowering {
  import opened Words
  import opened Flows
  import L = Lease

  datatype Opcode =
    | Nop | ReadFixed | WriteFixed | AcceptOp | AsyncCancel | ConnectOp | CloseOp
    | ReadOp | WriteOp | SendOp | RecvOp

  function Code(op: Opcode): nat {
    match op
    case Nop => 0
    case ReadFixed => 4
    case WriteFixed => 5
    case AcceptOp => 13
    case AsyncCancel => 14
    case ConnectOp => 16
    case CloseOp => 19
    case ReadOp => 22
    case WriteOp => 23
    case SendOp => 26
    case RecvOp => 27
  }

  const BUFFER_SELECT: nat := 32
  const ACCEPT_MULTISHOT: nat := 1
  const RECV_MULTISHOT: nat := 2

  /** The 64-byte entry; `other` stands for the fields at its end, which nothing here sets. */
  datatype Sqe = Sqe(
    opcode: nat, flags: nat, ioprio: u16, fd: int, off: u64, addr: u64, len: u32,
    opFlags: u32, userData: u64, bufGroup: u16, other: nat)

  /** An entry after `write_bytes(sqe, 0, 1)`. */
  const ZERO: Sqe := Sqe(0, 0, 0, 0, 0, 0, 0, 0, 0, 0, 0)

  /** Registered base addresses and their index in the table given to the kernel. */
  type Registered = map<u64, u32>

  /** `fixed_index`: only exact base addresses, and only indices a 16-bit field can hold. */
  function FixedIndex(reg: Registered, buf: u64): Option<u16> {
    if buf in reg && reg[buf] < U16 then Some(reg[buf]) else None
  }

  /** Vectored flows with more than one buffer are not part of this model. */
  predicate Modelled(op: Operation) {
    (op.Readv? || op.Writev?) ==> |op.bufs| <= 1
  }

  /** Everything that can be submitted: a flow, or one of the calls of their own. */
  datatype Request =
    | Plain(flow: Flow)
    | AcceptMany(fd: int, addr: u64, addrlenPtr: u64, userData: u64)
    | RecvMany(fd: int, bgid: u16, userData: u64)
    | CancelOf(target: u64, userData: u64)

  predicate Submittable(r: Request) {
    r.Plain? ==> Modelled(r.flow.op)
  }

  // ----- Filling a slot -----

  /** `flags | IOSQE_BUFFER_SELECT`. */
  function WithBufferSelect(flags: nat): nat {
    if (flags / BUFFER_SELECT) % 2 == 1 then flags else flags + BUFFER_SELECT
  }

  function FillTransfer(reg: Registered, plain: Opcode, fixed: Opcode, fd: int, buf: u64, len: usize, offset: u64, slot: Sqe): Sqe {
    var sqe := match FixedIndex(reg, buf)
               case Some(i) => slot.(opcode := Code(fixed), bufGroup := i)
               case None => slot.(opcode := Code(plain));
    sqe.(fd := fd, addr := buf, len := len % U32, off := offset)
  }

  /** What the arm for `op` makes of a slot that holds `slot`: it assigns some fields and leaves
      the others. */
  function FillOp(reg: Registered, op: Operation, slot: Sqe): Sqe
    requires Modelled(op)
  {
    match op
    case Read(fd, buf, len, offset) => FillTransfer(reg, ReadOp, ReadFixed, fd, buf, len, offset, slot)
    case Write(fd, buf, len, offset) => FillTransfer(reg, WriteOp, WriteFixed, fd, buf, len, offset, slot)
    case Accept(fd, addr, addrlen) => slot.(opcode := Code(AcceptOp), fd := fd, addr := addr, len := 0, off := addrlen)
    case Connect(fd, addr, addrlen) => slot.(opcode := Code(ConnectOp), fd := fd, addr := addr, len := 0, off := addrlen)
    case Recv(fd, buf, len) => slot.(opcode := Code(RecvOp), fd := fd, addr := buf, len := len % U32)
    case Send(fd, buf, len) => slot.(opcode := Code(SendOp), fd := fd, addr := buf, len := len % U32)
    case Close(fd) => slot.(opcode := Code(CloseOp), fd := fd)
    case Readv(fd, bufs, offset) =>
      if bufs == [] then slot.(opcode := Code(Nop))
      else FillTransfer(reg, ReadOp, ReadFixed, fd, bufs[0].buf, bufs[0].len, offset, slot)
    case Writev(fd, bufs, offset) =>
      if bufs == [] then slot.(opcode := Code(Nop))
      else FillTransfer(reg, WriteOp, WriteFixed, fd, bufs[0].buf, bufs[0].len, offset, slot)
  }

  function Fill(reg: Registered, r: Request, slot: Sqe): Sqe
    requires Submittable(r)
  {
    match r
    case Plain(flow) => FillOp(reg, flow.op, slot).(userData := flow.userData)
    case AcceptMany(fd, addr, addrlenPtr, userData) =>
      slot.(opcode := Code(AcceptOp), fd := fd, addr := addr, len := 0, off := addrlenPtr, ioprio := ACCEPT_MULTISHOT,
           userData := userData)
    case RecvMany(fd, bgid, userData) =>
      slot.(opcode := Code(RecvOp), fd := fd, addr := 0, len := 0, ioprio := RECV_MULTISHOT, bufGroup := bgid,
           flags := WithBufferSelect(slot.flags), userData := userData)
    case CancelOf(target, userData) =>
      slot.(opcode := Code(AsyncCancel), fd := 0, addr := target, userData := userData)
  }

  /** The entry a request stands for is what its arm makes of a zeroed slot. */
  function Entry(reg: Registered, r: Request): Sqe
    requires Submittable(r)
  {
    Fill(reg, r, ZERO)
  }

  function LowerOp(reg: Registered, op: Operation): Sqe
    requires Modelled(op)
  {
    FillOp(reg, op, ZERO)
  }

  function Lower(reg: Registered, flow: Flow): Sqe
    requires Modelled(flow.op)
  {
    Entry(reg, Plain(flow))
  }

  function LowerAll(reg: Registered, flows: seq<Flow>): (r: seq<Sqe>)
    requires forall f :: f in flows ==> Modelled(f.op)
    ensures |r| == |flows|
  {
    seq(|flows|, i requires 0 <= i < |flows| => Lower(reg, flows[i]))
  }

  /** The multi-shot entries and the cancellation, which have their own calls. */
  function MultiAccept(fd: int, addr: u64, addrlenPtr: u64, userData: u64): Sqe {
    Entry(map[], AcceptMany(fd, addr, addrlenPtr, userData))
  }

  function MultiRecv(fd: int, bgid: u16, userData: u64): Sqe {
    Entry(map[], RecvMany(fd, bgid, userData))
  }

  function Cancel(target: u64, userData: u64): Sqe {
    Entry(map[], CancelOf(target, userData))
  }

  /** The fields that the arm for `r` leaves alone are zero. */
  predicate Clean(reg: Registered, r: Request, slot: Sqe)
    requires Submittable(r)
  {
    && slot.opFlags == 0 && slot.other == 0
    && (!r.AcceptMany? && !r.RecvMany? ==> slot.ioprio == 0)
    && (if r.RecvMany? then slot.flags in {0, BUFFER_SELECT} else slot.flags == 0)
    && (r.RecvMany? || UsesFixed(reg, r) || slot.bufGroup == 0)
    && (r.AcceptMany? || (r.Plain? && SetsOffset(r.flow.op)) || slot.off == 0)
    && (r.CancelOf? || (r.Plain? && (r.flow.op.Close? || IsNop(r.flow.op))) ==> slot.len == 0)
    && (r.Plain? && (r.flow.op.Close? || IsNop(r.flow.op)) ==> slot.addr == 0)
    && (r.Plain? && IsNop(r.flow.op) ==> slot.fd == 0)
  }

  predicate IsNop(op: Operation) {
    (op.Readv? || op.Writev?) && op.bufs == []
  }

  predicate SetsOffset(op: Operation) {
    !op.Recv? && !op.Send? && !op.Close? && !IsNop(op)
  }

  predicate UsesFixed(reg: Registered, r: Request)
    requires Submittable(r)
  {
    r.Plain? && Target(r.flow.op).Some? && FixedIndex(reg, Target(r.flow.op).value.buf).Some?
  }

  /** The arm makes the right entry of a used slot exactly if the fields it leaves alone are zero,
      which is why every slot is zeroed first. */
  lemma FillIsExact(reg: Registered, r: Request, slot: Sqe)
    requires Submittable(r)
    ensures Fill(reg, r, slot) == Entry(reg, r) <==> Clean(reg, r, slot)
  {
    match r
    case Plain(flow) => FillOpIsExact(reg, flow, slot);
    case _ =>
  }

  lemma FillOpIsExact(reg: Registered, flow: Flow, slot: Sqe)
    requires Modelled(flow.op)
    ensures Fill(reg, Plain(flow), slot) == Lower(reg, flow) <==> Clean(reg, Plain(flow), slot)
  {
  }

  /** Without the zeroing, a plain receive in a slot that a multi-shot one had used would itself be
      multi-shot and take its memory from the buffer ring. */
  lemma StaleFieldsWouldArm(reg: Registered, fd: int, buf: u64, len: usize, userData: u64, before: Request, table: seq<L.RegisterBuffer>)
    requires before.RecvMany?
    ensures Kernel(table, Fill(reg, Plain(Flow(Recv(fd, buf, len), userData)), Entry(reg, before)))
            == Select(fd, before.bgid, true)
    ensures Kernel(table, Fill(reg, Plain(Flow(Recv(fd, buf, len), userData)), ZERO)) == Socket(27, fd, buf, len % U32, false)
  {
  }

  // ----- What the kernel does with an entry -----

  datatype Direction = In | Out

  /** The effect of an entry: a positional transfer between a descriptor and a stretch of
      memory, a socket operation, a close, a cancellation, or nothing. */
  datatype Effect =
    | FileTransfer(dir: Direction, fd: int, from: nat, len: nat, offset: u64)
    | Socket(opcode: nat, fd: int, addr: u64, second: nat, many: bool)
    | Select(fd: int, group: u16, many: bool)
    | Closes(fd: int)
    | Cancels(target: u64)
    | Nothing
    | Invalid

  /** A fixed transfer must lie inside the registered buffer its index names. */
  function FixedTransfer(table: seq<L.RegisterBuffer>, e: Sqe, dir: Direction): Effect {
    if e.bufGroup < |table| && table[e.bufGroup].base <= e.addr
       && e.addr + e.len <= table[e.bufGroup].base + table[e.bufGroup].len
    then FileTransfer(dir, e.fd, e.addr, e.len, e.off)
    else Invalid
  }

  /** How the kernel reads an entry, by the numbers of its interface: the opcode, the flag that
      selects a provided buffer, and the bits that make an accept or a receive multi-shot. */
  function Kernel(table: seq<L.RegisterBuffer>, e: Sqe): Effect {
    match e.opcode
    case 0 => Nothing
    case 4 => FixedTransfer(table, e, In)
    case 5 => FixedTransfer(table, e, Out)
    case 13 => Socket(13, e.fd, e.addr, e.off, e.ioprio == 1)
    case 14 => Cancels(e.addr)
    case 16 => Socket(16, e.fd, e.addr, e.off, false)
    case 19 => Closes(e.fd)
    case 22 => FileTransfer(In, e.fd, e.addr, e.len, e.off)
    case 23 => FileTransfer(Out, e.fd, e.addr, e.len, e.off)
    case 26 => Socket(26, e.fd, e.addr, e.len, false)
    case 27 =>
      if e.flags == 32 then Select(e.fd, e.bufGroup, e.ioprio == 2) else Socket(27, e.fd, e.addr, e.len, false)
    case _ => Invalid
  }

  /** What a flow asks for. */
  function Meaning(op: Operation): Effect
    requires Modelled(op)
  {
    match op
    case Read(fd, buf, len, offset) => FileTransfer(In, fd, buf, len, offset)
    case Write(fd, buf, len, offset) => FileTransfer(Out, fd, buf, len, offset)
    case Accept(fd, addr, addrlen) => Socket(13, fd, addr, addrlen, false)
    case Connect(fd, addr, addrlen) => Socket(16, fd, addr, addrlen, false)
    case Recv(fd, buf, len) => Socket(27, fd, buf, len, false)
    case Send(fd, buf, len) => Socket(26, fd, buf, len, false)
    case Close(fd) => Closes(fd)
    case Readv(fd, bufs, offset) =>
      if bufs == [] then Nothing else FileTransfer(In, fd, bufs[0].buf, bufs[0].len, offset)
    case Writev(fd, bufs, offset) =>
      if bufs == [] then Nothing else FileTransfer(Out, fd, bufs[0].buf, bufs[0].len, offset)
  }

  /** How many bytes an operation asks to transfer. */
  function Extent(op: Operation): usize
    requires Modelled(op)
  {
    match op
    case Read(_, _, len, _) => len
    case Write(_, _, len, _) => len
    case Recv(_, _, len) => len
    case Send(_, _, len) => len
    case Readv(_, bufs, _) => if bufs == [] then 0 else bufs[0].len
    case Writev(_, bufs, _) => if bufs == [] then 0 else bufs[0].len
    case _ => 0
  }

  /** The operation with its length cut to 32 bits. */
  function Cut(op: Operation): (r: Operation)
    requires Modelled(op)
    ensures Modelled(r) && Extent(r) == Extent(op) % U32
    ensures r == op <==> Extent(op) < U32
  {
    match op
    case Read(fd, buf, len, offset) => Read(fd, buf, len % U32, offset)
    case Write(fd, buf, len, offset) => Write(fd, buf, len % U32, offset)
    case Recv(fd, buf, len) => Recv(fd, buf, len % U32)
    case Send(fd, buf, len) => Send(fd, buf, len % U32)
    case Readv(fd, bufs, offset) =>
      if bufs == [] then op else Readv(fd, [IoSlice(bufs[0].buf, bufs[0].len % U32)], offset)
    case Writev(fd, bufs, offset) =>
      if bufs == [] then op else Writev(fd, [IoSlice(bufs[0].buf, bufs[0].len % U32)], offset)
    case _ => op
  }

  /** Operations that ask for different lengths mean different things. */
  lemma CutChangesMeaning(op: Operation)
    requires Modelled(op)
    ensures Meaning(Cut(op)) == Meaning(op) <==> Extent(op) < U32
  {
  }

  /** The stretch of memory a file operation names, if it names one. */
  function Target(op: Operation): Option<IoSlice>
    requires Modelled(op)
  {
    match op
    case Read(_, buf, len, _) => Some(IoSlice(buf, len))
    case Write(_, buf, len, _) => Some(IoSlice(buf, len))
    case Readv(_, bufs, _) => if bufs == [] then None else Some(bufs[0])
    case Writev(_, bufs, _) => if bufs == [] then None else Some(bufs[0])
    case _ => None
  }

  predicate IsFixed(e: Sqe) {
    e.opcode == Code(ReadFixed) || e.opcode == Code(WriteFixed)
  }

  // ----- Registration -----

  /** `register_buffers`: the backend's table after the kernel has accepted the list. */
  function RegisterTable(table: seq<L.RegisterBuffer>): Registered
  {
    if table == [] then map[]
    else
      var n := |table| - 1;
      RegisterTable(table[..n])[table[n].base := Wrap32(n)]
  }

  ghost predicate DistinctBases(table: seq<L.RegisterBuffer>) {
    forall i, j :: 0 <= i < j < |table| ==> table[i].base != table[j].base
  }

  /** With distinct bases (which the lease registry guarantees) the table maps exactly the
      registered bases, each to its own position. */
  lemma {:induction false} TableIsExact(table: seq<L.RegisterBuffer>, buf: u64)
    requires DistinctBases(table) && |table| <= U32
    ensures buf in RegisterTable(table) <==> exists i :: 0 <= i < |table| && table[i].base == buf
    ensures forall i :: 0 <= i < |table| && table[i].base == buf ==> buf in RegisterTable(table) && RegisterTable(table)[buf] == i
  {
    if table != [] {
      var n := |table| - 1;
      var front := table[..n];
      assert forall i :: 0 <= i < n ==> front[i] == table[i];
      TableIsExact(front, buf);
      if buf == table[n].base {
        assert table[n].base == buf;
      } else if buf in RegisterTable(front) {
        var i :| 0 <= i < n && front[i].base == buf;
        assert table[i].base == buf;
      }
    }
  }

  // ----- Main results -----

  /** The list a lease registry hands to `register_leases`. */
  function LeaseTable(m: L.Regions): seq<L.RegisterBuffer> {
    L.BuffersBelow(m, U64)
  }

  lemma LeaseTableIsDistinct(m: L.Regions)
    requires L.WellFormed(m)
    ensures DistinctBases(LeaseTable(m))
  {
    L.BuffersListRegions(m, U64);
  }

  lemma LoweredForm(reg: Registered, op: Operation)
    requires Modelled(op)
    ensures var e := LowerOp(reg, op);
            && (IsFixed(e) <==> Target(op).Some? && FixedIndex(reg, Target(op).value.buf).Some?)
            && (IsFixed(e) ==> e.addr == Target(op).value.buf && e.len == Target(op).value.len % U32
                               && e.bufGroup == FixedIndex(reg, e.addr).value)
  {
  }

  lemma IndexIsPosition(table: seq<L.RegisterBuffer>, buf: u64)
    requires DistinctBases(table) && |table| <= U32
    ensures var x := FixedIndex(RegisterTable(table), buf);
            && (x.Some? <==> exists i :: 0 <= i < |table| && i < U16 && table[i].base == buf)
            && (x.Some? ==> x.value < |table| && table[x.value].base == buf)
  {
    TableIsExact(table, buf);
    hide RegisterTable, DistinctBases;
  }

  /** After `register_leases` with an unchanged registry, a file operation becomes a fixed one
      if and only if its buffer is the base of a region among the first 65536, and its index
      then names the kernel's entry for just that region. */
  lemma FixedIffRegionBase(m: L.Regions, op: Operation)
    requires L.WellFormed(m) && Modelled(op) && |LeaseTable(m)| <= U32
    ensures var table := LeaseTable(m); var e := LowerOp(RegisterTable(table), op);
            IsFixed(e) <==>
            Target(op).Some? && exists i :: 0 <= i < |table| && i < U16 && table[i].base == Target(op).value.buf
    ensures var table := LeaseTable(m); var e := LowerOp(RegisterTable(table), op);
            IsFixed(e) ==> e.bufGroup < |table| && table[e.bufGroup].base == e.addr == Target(op).value.buf
                           && e.addr in m && table[e.bufGroup].len == m[e.addr].len && e.len == Target(op).value.len % U32
  {
    hide LowerOp, LeaseTable, RegisterTable, IsFixed, DistinctBases, FixedIndex, Target, L.WellFormed;
    var table := LeaseTable(m);
    LeaseTableIsDistinct(m);
    LoweredForm(RegisterTable(table), op);
    if Target(op).Some? {
      var buf := Target(op).value.buf;
      IndexIsPosition(table, buf);
      var x := FixedIndex(RegisterTable(table), buf);
      if x.Some? { ListedIsRegion(m, x.value); }
    }
  }

  lemma ListedIsRegion(m: L.Regions, i: nat)
    requires L.WellFormed(m) && i < |LeaseTable(m)|
    ensures LeaseTable(m)[i].base in m && LeaseTable(m)[i].len == m[LeaseTable(m)[i].base].len
  {
    L.BuffersListRegions(m, U64);
  }

  /** The kernel does what the flow asked for if and only if the length fits 32 bits and a fixed
      transfer fits its region. */
  lemma LoweringKeepsMeaning(m: L.Regions, op: Operation)
    requires L.WellFormed(m) && Modelled(op) && |LeaseTable(m)| <= U32
    ensures var e := LowerOp(RegisterTable(LeaseTable(m)), op); IsFixed(e) ==> e.addr in m
    ensures var table := LeaseTable(m); var e := LowerOp(RegisterTable(table), op);
            Kernel(table, e) == Meaning(op) <==> Extent(op) < U32 && (IsFixed(e) ==> Extent(op) <= m[e.addr].len)
  {
    FixedIffRegionBase(m, op);
    WhatTheKernelDoes(m, op);
    LoweredForm(RegisterTable(LeaseTable(m)), op);
    CutChangesMeaning(op);
    hide LeaseTable, RegisterTable, L.WellFormed, Kernel, LowerOp, IsFixed, Meaning, Extent, Cut, Target;
  }

  /** The calls of their own: a multi-shot accept, a multi-shot receive from a group of buffers, and
      the cancellation of the operation with a given tag, each under its own user data. */
  lemma CallsKeepMeaning(table: seq<L.RegisterBuffer>, fd: int, addr: u64, addrlenPtr: u64, bgid: u16, target: u64, userData: u64)
    ensures var e := MultiAccept(fd, addr, addrlenPtr, userData);
            Kernel(table, e) == Socket(13, fd, addr, addrlenPtr, true) && e.userData == userData
    ensures var e := MultiRecv(fd, bgid, userData); Kernel(table, e) == Select(fd, bgid, true) && e.userData == userData
    ensures var e := Cancel(target, userData); Kernel(table, e) == Cancels(target) && e.userData == userData
  {
    hide FixedTransfer, FillOp;
  }

  /** A batch is lowered flow by flow, in order, each under its own user data. */
  lemma BatchKeepsMeaning(m: L.Regions, flows: seq<Flow>, i: nat)
    requires L.WellFormed(m) && |LeaseTable(m)| <= U32 && i < |flows| && forall f :: f in flows ==> Modelled(f.op)
    ensures |LowerAll(RegisterTable(LeaseTable(m)), flows)| == |flows|
    ensures var table := LeaseTable(m); var e := LowerAll(RegisterTable(table), flows)[i]; var op := flows[i].op;
            && e.userData == flows[i].userData && (IsFixed(e) ==> e.addr in m)
            && (Kernel(table, e) == Meaning(op) <==> Extent(op) < U32 && (IsFixed(e) ==> Extent(op) <= m[e.addr].len))
  {
    var reg := RegisterTable(LeaseTable(m));
    var flow := flows[i];
    LoweringKeepsMeaning(m, flow.op);
    TagChangesNothing(LeaseTable(m), LowerOp(reg, flow.op), flow.userData);
    assert LowerAll(reg, flows)[i] == Lower(reg, flow);
    TagIsAdded(reg, flow);
    hide LeaseTable, RegisterTable, L.WellFormed, Kernel, LowerOp, Lower, IsFixed, Meaning, Extent, LowerAll;
  }

  lemma TagIsAdded(reg: Registered, flow: Flow)
    requires Modelled(flow.op)
    ensures Lower(reg, flow) == LowerOp(reg, flow.op).(userData := flow.userData)
  {
    hide FillOp;
  }

  lemma TagChangesNothing(table: seq<L.RegisterBuffer>, e: Sqe, userData: u64)
    ensures var t := e.(userData := userData); Kernel(table, t) == Kernel(table, e) && (IsFixed(t) <==> IsFixed(e)) && t.addr == e.addr
  {
  }

  /** What it does in any case: the operation with its length cut to 32 bits, or nothing valid if
      that is fixed and longer than its region. */
  lemma WhatTheKernelDoes(m: L.Regions, op: Operation)
    requires L.WellFormed(m) && Modelled(op) && |LeaseTable(m)| <= U32
    ensures var table := LeaseTable(m); var e := LowerOp(RegisterTable(table), op);
            if IsFixed(e) && e.addr in m && e.len > m[e.addr].len then Kernel(table, e) == Invalid && Meaning(op) != Invalid
            else Kernel(table, e) == Meaning(Cut(op))
  {
    var table := LeaseTable(m);
    FixedIffRegionBase(m, op);
    hide LeaseTable, RegisterTable, L.WellFormed, Kernel, LowerOp, IsFixed;
    if IsFixed(LowerOp(RegisterTable(table), op)) {
      FixedForm(RegisterTable(table), table, op);
    } else {
      PlainForm(RegisterTable(table), table, op);
    }
  }

  /** A read of 2^32 bytes is carried out as a read of none, whose result looks like the end of
      the file. */
  lemma HugeReadReadsNothing(fd: int, buf: u64, offset: u64)
    ensures Kernel([], LowerOp(map[], Read(fd, buf, U32, offset))) == FileTransfer(In, fd, buf, 0, offset)
    ensures Meaning(Read(fd, buf, U32, offset)) == FileTransfer(In, fd, buf, U32, offset)
  {
  }

  lemma PlainForm(reg: Registered, table: seq<L.RegisterBuffer>, op: Operation)
    requires Modelled(op) && !IsFixed(LowerOp(reg, op))
    ensures Kernel(table, LowerOp(reg, op)) == Meaning(Cut(op))
  {
    hide Kernel, LowerOp, Meaning, Cut, IsFixed;
    if Target(op).Some? {
      PlainTransfer(reg, table, op);
    } else {
      OtherForm(reg, table, op);
    }
  }

  lemma PlainTransfer(reg: Registered, table: seq<L.RegisterBuffer>, op: Operation)
    requires Modelled(op) && !IsFixed(LowerOp(reg, op)) && Target(op).Some?
    ensures Kernel(table, LowerOp(reg, op)) == Meaning(Cut(op))
  {
  }

  lemma OtherForm(reg: Registered, table: seq<L.RegisterBuffer>, op: Operation)
    requires Modelled(op) && Target(op).None?
    ensures Kernel(table, LowerOp(reg, op)) == Meaning(Cut(op))
  {
    hide Kernel, LowerOp, Meaning, Cut;
    if op.Close? {
      CloseForm(reg, table, op.fd);
      assert op == Close(op.fd);
    } else if IsNop(op) {
      NopForm(reg, table, op);
    } else {
      SocketForm(reg, table, op);
    }
  }

  lemma CloseForm(reg: Registered, table: seq<L.RegisterBuffer>, fd: int)
    ensures Kernel(table, LowerOp(reg, Close(fd))) == Meaning(Cut(Close(fd)))
  {
  }

  lemma NopForm(reg: Registered, table: seq<L.RegisterBuffer>, op: Operation)
    requires IsNop(op)
    ensures Kernel(table, LowerOp(reg, op)) == Meaning(Cut(op))
  {
    hide Kernel, FixedIndex, FillTransfer;
    ZeroIsNop(table);
    assert LowerOp(reg, op) == ZERO;
    assert Cut(op) == op;
  }

  lemma ZeroIsNop(table: seq<L.RegisterBuffer>)
    ensures Kernel(table, ZERO) == Nothing
  {
    hide FixedTransfer;
  }

  lemma SocketForm(reg: Registered, table: seq<L.RegisterBuffer>, op: Operation)
    requires op.Accept? || op.Connect? || op.Recv? || op.Send?
    ensures Kernel(table, LowerOp(reg, op)) == Meaning(Cut(op))
  {
  }

  lemma FixedForm(reg: Registered, table: seq<L.RegisterBuffer>, op: Operation)
    requires Modelled(op) && IsFixed(LowerOp(reg, op))
    requires LowerOp(reg, op).bufGroup < |table| && table[LowerOp(reg, op).bufGroup].base == LowerOp(reg, op).addr
    ensures var e := LowerOp(reg, op);
            Kernel(table, e) == if e.len <= table[e.bufGroup].len then Meaning(Cut(op)) else Invalid
  {
  }

  /** After a successful `checkout` at a region's base the operation is a fixed one, and it does
      what the plain one does, same bytes and same file position, if and only if the length, cut
      to 32 bits, fits the region; it does what was asked if and only if the whole length fits
      both.  A checked-out buffer that does not run past the top of the address space always fits
      its region. */
  lemma CheckedOutMeansTheSame(m: L.Regions, op: Operation)
    requires L.WellFormed(m) && Modelled(op) && |LeaseTable(m)| < U16
    requires Target(op).Some? && Target(op).value.buf in m
    requires L.Checkout(m, Target(op).value.buf, Target(op).value.len).Ok?
    ensures var table, t := LeaseTable(m), Target(op).value; var fixed := LowerOp(RegisterTable(table), op);
            && IsFixed(fixed) && !IsFixed(LowerOp(map[], op))
            && (Kernel(table, fixed) == Kernel(table, LowerOp(map[], op)) <==> t.len % U32 <= m[t.buf].len)
            && (Kernel(table, fixed) == Meaning(op) <==> t.len < U32 && t.len <= m[t.buf].len)
            && (t.buf + t.len < U64 ==> t.len <= m[t.buf].len)
  {
    var table, t := LeaseTable(m), Target(op).value;
    WhatTheKernelDoes(m, op);
    LoweringKeepsMeaning(m, op);
    FixedIffRegionBase(m, op);
    LoweredForm(map[], op);
    PlainForm(map[], table, op);
    CheckoutAtBase(m, t.buf, t.len);
    BaseIsListed(m, t.buf);
    TargetIsExtent(op);
    NothingIsInvalid(Cut(op));
    hide LowerOp, LeaseTable, RegisterTable, IsFixed, Kernel, L.Checkout, L.WellFormed, Meaning, Target, Extent, Cut;
  }

  lemma TargetIsExtent(op: Operation)
    requires Modelled(op) && Target(op).Some?
    ensures Target(op).value.len == Extent(op)
  {
  }

  lemma NothingIsInvalid(op: Operation)
    requires Modelled(op)
    ensures Meaning(op) != Invalid
  {
  }

  lemma BaseIsListed(m: L.Regions, base: u64)
    requires L.WellFormed(m) && base in m
    ensures exists i :: 0 <= i < |LeaseTable(m)| && LeaseTable(m)[i].base == base
  {
    var table := L.BuffersBelow(m, U64);
    L.BuffersListRegions(m, U64);
    assert exists i :: 0 <= i < |table| && table[i].base == base;
    assert LeaseTable(m) == table;
  }

  lemma CheckoutAtBase(m: L.Regions, base: u64, len: usize)
    requires L.WellFormed(m) && base in m && L.Checkout(m, base, len).Ok?
    ensures m[base].len > 0 && len % U32 <= len && (base + len < U64 ==> len <= m[base].len)
  {
    L.LookupIsFullScan(m, base, L.Lookup(m, base).value);
    L.LocateIsExact(m, base, len, base);
    hide L.Locate, L.Lookup;
  }

  /** The registry lets any length through for a region that ends at the top of the address
      space; there the fixed form is refused although the checkout succeeded. */
  lemma TopOfMemory()
    ensures var m: L.Regions := map[U64 - 17 := L.LeaseRegion(U64 - 17, 16, 0)]; var op := Read(3, U64 - 17, 17, 0);
            && L.WellFormed(m) && L.Checkout(m, U64 - 17, 17).Ok?
            && Kernel(LeaseTable(m), LowerOp(RegisterTable(LeaseTable(m)), op)) == Invalid
  {
    var m: L.Regions := map[U64 - 17 := L.LeaseRegion(U64 - 17, 16, 0)];
    var op := Read(3, U64 - 17, 17, 0);
    assert L.WellFormed(m);
    L.LocateIsExact(m, U64 - 17, 17, U64 - 17);
    assert L.Checkout(m, U64 - 17, 17).Ok?;
    hide L.Locate, L.Lookup, L.Checkout, L.WellFormed, LowerOp, Kernel, RegisterTable;
    BaseIsListed(m, U64 - 17);
    OneEntry(m, U64 - 17);
    WhatTheKernelDoes(m, op);
    FixedIffRegionBase(m, op);
  }

  lemma OneEntry(m: L.Regions, base: u64)
    requires L.WellFormed(m) && m.Keys == {base}
    ensures |LeaseTable(m)| <= 1
  {
    L.BuffersListRegions(m, U64);
    var table := LeaseTable(m);
    assert forall i :: 0 <= i < |table| ==> table[i].base in m.Keys;
  }

  /** In a zeroed slot every field an operation does not use is zero: nothing is armed multi-shot,
      selects a buffer or carries flags unless asked to. */
  lemma NoStrayFields(reg: Registered, flow: Flow)
    requires Modelled(flow.op)
    ensures var e := Fill(reg, Plain(flow), ZERO);
            && e.flags == 0 && e.ioprio == 0 && e.opFlags == 0 && e.other == 0 && e.userData == flow.userData
            && (e.bufGroup != 0 ==> IsFixed(e)) && (e.off != 0 ==> SetsOffset(flow.op))
  {
  }
}
