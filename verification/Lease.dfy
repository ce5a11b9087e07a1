/** The lease registry: an ordered map from region bases to regions, in which every question
    about overlap or containment is answered from a single predecessor lookup. */
module Lease {
  import opened Words

  datatype LeaseRegion = LeaseRegion(start: usize, len: usize, inFlight: u32) {
    predicate Contains(addr: usize) {
      start <= addr < start + len
    }
  }

  datatype LeaseError =
    | Overlap(existingStart: usize, existingLen: usize)
    | NotRegistered
    | InFlight(count: u32)
    | OutOfBounds(requestedEnd: usize, regionEnd: int)

  datatype Result<+T> = Ok(value: T) | Err(error: LeaseError)

  type Regions = map<usize, LeaseRegion>

  /** Regions are filed under their base, end inside the address space, and do not overlap. */
  ghost predicate WellFormed(m: Regions) {
    && (forall k :: k in m ==> m[k].start == k && k + m[k].len < U64)
    && (forall j, k :: j in m && k in m && j < k ==> j + m[j].len <= k)
  }

  /** `range(..bound).next_back()`: the greatest key below `bound`. */
  function Predecessor(m: Regions, bound: nat): (r: Option<usize>)
    ensures r.None? ==> forall k :: k in m ==> k >= bound
    ensures r.Some? ==> r.value in m && r.value < bound && forall k :: k in m && k < bound ==> k <= r.value
  {
    if bound == 0 then None else if bound - 1 in m then Some(bound - 1) else Predecessor(m, bound - 1)
  }

  // ----- Operations -----

  function Register(m: Regions, start: usize, len: usize): Result<Regions> {
    var inserted := m[start := LeaseRegion(start, len, 0)];
    match Predecessor(m, SaturatingAdd(start, len))
    case None => Ok(inserted)
    case Some(k) =>
      if m[k].start + m[k].len > start then Err(Overlap(m[k].start, m[k].len)) else Ok(inserted)
  }

  function Unregister(m: Regions, start: usize): Result<Regions> {
    if start !in m then Err(NotRegistered)
    else if m[start].inFlight > 0 then Err(InFlight(m[start].inFlight))
    else Ok(m - {start})
  }

  /** The region `checkout`, `checkin` and `verify` look at: the predecessor, if it contains the address. */
  function Lookup(m: Regions, addr: usize): (r: Option<usize>)
    ensures r.Some? ==> r.value in m
  {
    match Predecessor(m, SaturatingAdd(addr, 1))
    case None => None
    case Some(k) => if m[k].Contains(addr) then Some(k) else None
  }

  /** The bounds check shared by `checkout` and `verify`. */
  function Locate(m: Regions, addr: usize, len: usize): (r: Result<usize>)
    ensures r.Ok? ==> r.value in m
  {
    match Lookup(m, addr)
    case None => Err(NotRegistered)
    case Some(k) =>
      if SaturatingAdd(addr, len) > m[k].start + m[k].len
      then Err(OutOfBounds(SaturatingAdd(addr, len), m[k].start + m[k].len))
      else Ok(k)
  }

  function Checkout(m: Regions, addr: usize, len: usize): Result<Regions> {
    match Locate(m, addr, len)
    case Err(e) => Err(e)
    case Ok(k) => Ok(m[k := m[k].(inFlight := if m[k].inFlight == U32 - 1 then U32 - 1 else m[k].inFlight + 1)])
  }

  function Checkin(m: Regions, addr: usize): Regions {
    match Lookup(m, addr)
    case None => m
    case Some(k) => if m[k].inFlight > 0 then m[k := m[k].(inFlight := m[k].inFlight - 1)] else m
  }

  function Verify(m: Regions, addr: usize, len: usize): Result<bool> {
    match Locate(m, addr, len)
    case Err(e) => Err(e)
    case Ok(k) => Ok(m[k].inFlight > 0)
  }

  // ----- One predecessor is enough -----

  /** `register` refuses exactly the ranges that some registered region overlaps, where a range
      that runs past the top of the address space ends there, and its error names such a region;
      otherwise it adds the region, and a range inside the address space leaves the registry well
      formed. */
  lemma RegisterIsExact(m: Regions, start: usize, len: usize)
    requires WellFormed(m)
    ensures var end := if start + len < U64 then start + len else U64 - 1;
            && (Register(m, start, len).Err? <==> exists k :: k in m && k < end && k + m[k].len > start)
            && (Register(m, start, len).Err? ==>
                  var e := Register(m, start, len).error;
                  e.Overlap? && e.existingStart in m && m[e.existingStart].len == e.existingLen
                  && e.existingStart < end && e.existingStart + e.existingLen > start)
    ensures Register(m, start, len).Ok? ==> Register(m, start, len).value == m[start := LeaseRegion(start, len, 0)]
    ensures Register(m, start, len).Ok? && start + len < U64 ==> WellFormed(Register(m, start, len).value)
  {
    var end := SaturatingAdd(start, len);
    var p := Predecessor(m, end);
    if k :| k in m && k < end && k + m[k].len > start {
      assert k <= p.value;
      assert p.value + m[p.value].len > start;
    }
  }

  /** A region of positive length is replaced in place exactly by a registration of length zero
      at its own base, which the overlap check lets through. */
  lemma ReplacementIsExact(m: Regions, start: usize, len: usize)
    requires WellFormed(m) && start + len < U64
    requires start in m && m[start].len > 0
    ensures Register(m, start, len).Ok? <==> len == 0
  {
    RegisterIsExact(m, start, len);
    if len > 0 {
      assert start < start + len && start + m[start].len > start;
    }
  }

  /** The lookup finds the region a full scan would find. */
  lemma LookupIsFullScan(m: Regions, addr: usize, k: usize)
    requires WellFormed(m)
    ensures Lookup(m, addr) == Some(k) <==> k in m && m[k].Contains(addr)
  {
    var p := Predecessor(m, SaturatingAdd(addr, 1));
    if k in m && m[k].Contains(addr) {
      assert k <= p.value <= addr;
    }
  }

  /** What `checkout` and `verify` answer, stated by a scan over all regions.  A range is
      accepted when it ends inside the region its address lies in; the one exception is a
      region that ends at the very top of the address space, where the saturated end lets
      every length through. */
  lemma LocateIsExact(m: Regions, addr: usize, len: usize, k: usize)
    requires WellFormed(m)
    ensures Locate(m, addr, len) == Err(NotRegistered) <==> forall j :: j in m ==> !m[j].Contains(addr)
    ensures Locate(m, addr, len) == Ok(k) <==>
              k in m && m[k].Contains(addr) && (addr + len <= k + m[k].len || k + m[k].len == U64 - 1)
    ensures k in m && m[k].Contains(addr) && !(addr + len <= k + m[k].len || k + m[k].len == U64 - 1) ==>
              Locate(m, addr, len) == Err(OutOfBounds(if addr + len < U64 then addr + len else U64 - 1, k + m[k].len))
  {
    LookupIsFullScan(m, addr, k);
    if Lookup(m, addr).Some? {
      LookupIsFullScan(m, addr, Lookup(m, addr).value);
    } else {
      forall j | j in m ensures !m[j].Contains(addr) {
        LookupIsFullScan(m, addr, j);
      }
    }
  }

  /** A checkout that is accepted counts one more operation on the region that contains the
      address, stopping at the largest count there is, and changes nothing else. */
  lemma CheckoutIsExact(m: Regions, addr: usize, len: usize, k: usize)
    requires WellFormed(m)
    ensures Locate(m, addr, len).Err? ==> Checkout(m, addr, len) == Err(Locate(m, addr, len).error)
    ensures Locate(m, addr, len) == Ok(k) ==>
              Checkout(m, addr, len).Ok?
              && var t := Checkout(m, addr, len).value;
                 && t.Keys == m.Keys && (forall j :: j in m && j != k ==> t[j] == m[j])
                 && t[k].start == k && t[k].len == m[k].len
                 && t[k].inFlight == (if m[k].inFlight < 0xffff_ffff then m[k].inFlight + 1 else 0xffff_ffff)
  {
  }

  /** A check-in counts one operation less on the region that contains the address, stopping at
      zero; without such a region it does nothing. */
  lemma CheckinIsExact(m: Regions, addr: usize)
    requires WellFormed(m)
    ensures Checkin(m, addr).Keys == m.Keys
    ensures forall k :: k in m ==>
              && Checkin(m, addr)[k].start == k && Checkin(m, addr)[k].len == m[k].len
              && Checkin(m, addr)[k].inFlight == (if m[k].Contains(addr) && m[k].inFlight > 0 then m[k].inFlight - 1 else m[k].inFlight)
  {
    forall k | k in m
      ensures Checkin(m, addr)[k] == if m[k].Contains(addr) && m[k].inFlight > 0 then m[k].(inFlight := m[k].inFlight - 1) else m[k]
    {
      LookupIsFullScan(m, addr, k);
    }
  }

  // ----- Counting -----

  /** A history of calls.  A `Checkin` names, besides the address it passes, the base of the
      region that the checkout it matches was resolved to. */
  datatype Call =
    | CallRegister(start: usize, len: usize)
    | CallUnregister(start: usize)
    | CallCheckout(addr: usize, len: usize)
    | CallCheckin(addr: usize, base: usize)

  /** The registry together with the outstanding checkouts of each region. */
  datatype Ledger = Ledger(regions: Regions, held: map<usize, multiset<usize>>)

  /** Regions are real memory of positive length, check-ins match earlier checkouts, and no
      region has 2^32 - 1 operations outstanding. */
  predicate Legal(s: Ledger, c: Call) {
    match c
    case CallRegister(start, len) => len > 0 && start + len < U64
    case CallUnregister(_) => true
    case CallCheckout(addr, _) => Lookup(s.regions, addr).Some? ==> s.regions[Lookup(s.regions, addr).value].inFlight < U32 - 1
    case CallCheckin(addr, base) => base in s.held && addr in s.held[base]
  }

  function Perform(s: Ledger, c: Call): Ledger
    requires Legal(s, c)
  {
    match c
    case CallRegister(start, len) =>
      (match Register(s.regions, start, len)
       case Err(_) => s
       case Ok(m) => Ledger(m, s.held[start := multiset{}]))
    case CallUnregister(start) =>
      (match Unregister(s.regions, start)
       case Err(_) => s
       case Ok(m) => Ledger(m, s.held - {start}))
    case CallCheckout(addr, len) =>
      (match Locate(s.regions, addr, len)
       case Err(_) => s
       case Ok(k) =>
         var before := if k in s.held then s.held[k] else multiset{};
         Ledger(Checkout(s.regions, addr, len).value, s.held[k := before + multiset{addr}]))
    case CallCheckin(addr, base) =>
      Ledger(Checkin(s.regions, addr), s.held[base := s.held[base] - multiset{addr}])
  }

  ghost predicate History(s: Ledger, calls: seq<Call>)
    decreases |calls|
  {
    calls == [] || (Legal(s, calls[0]) && History(Perform(s, calls[0]), calls[1..]))
  }

  ghost function After(s: Ledger, calls: seq<Call>): Ledger
    requires History(s, calls)
    decreases |calls|
  {
    if calls == [] then s else After(Perform(s, calls[0]), calls[1..])
  }

  ghost predicate Balanced(s: Ledger) {
    && WellFormed(s.regions) && s.held.Keys == s.regions.Keys
    && (forall k :: k in s.regions ==> CountsOutstanding(s, k))
  }

  /** Only one region's counter and outstanding checkouts changed, in step. */
  ghost predicate Recounted(s: Ledger, t: Ledger, k: usize)
    requires k in s.regions
  {
    && k in t.held && k in t.regions
    && t.regions == s.regions[k := s.regions[k].(inFlight := t.regions[k].inFlight)]
    && t.held == s.held[k := t.held[k]]
    && t.regions[k].inFlight == |t.held[k]|
    && (forall a :: a in t.held[k] ==> s.regions[k].Contains(a))
  }

  lemma RecountKeepsBalance(s: Ledger, t: Ledger, k: usize)
    requires Balanced(s) && k in s.regions && Recounted(s, t, k)
    ensures Balanced(t)
  {
    SameShape(s.regions, k, t.regions[k].inFlight);
    hide WellFormed;
    assert t.regions.Keys == s.regions.Keys && t.held.Keys == s.held.Keys;
    forall j | j in t.regions ensures CountsOutstanding(t, j) {
      if j != k { SameCount(s, t, j); }
    }
  }

  ghost predicate CountsOutstanding(s: Ledger, k: usize)
    requires k in s.regions && k in s.held
  {
    s.regions[k].inFlight == |s.held[k]| && forall a :: a in s.held[k] ==> s.regions[k].Contains(a)
  }

  lemma SameCount(s: Ledger, t: Ledger, j: usize)
    requires j in s.regions && j in t.regions && j in s.held && j in t.held && CountsOutstanding(s, j)
    requires t.regions[j] == s.regions[j] && t.held[j] == s.held[j]
    ensures CountsOutstanding(t, j)
  {
  }

  lemma SameShape(m: Regions, k: usize, count: u32)
    requires WellFormed(m) && k in m
    ensures WellFormed(m[k := m[k].(inFlight := count)])
  {
  }

  lemma CheckoutRecounts(s: Ledger, addr: usize, len: usize)
    requires Balanced(s) && Legal(s, CallCheckout(addr, len)) && Locate(s.regions, addr, len).Ok?
    ensures Recounted(s, Perform(s, CallCheckout(addr, len)), Locate(s.regions, addr, len).value)
  {
    LookupIsFullScan(s.regions, addr, Lookup(s.regions, addr).value);
  }

  lemma CheckinRecounts(s: Ledger, addr: usize, base: usize)
    requires Balanced(s) && Legal(s, CallCheckin(addr, base))
    ensures Recounted(s, Perform(s, CallCheckin(addr, base)), base)
  {
    LookupIsFullScan(s.regions, addr, base);
  }

  lemma RegisterKeepsBalance(s: Ledger, start: usize, len: usize)
    requires Balanced(s) && Legal(s, CallRegister(start, len)) && Register(s.regions, start, len).Ok?
    ensures Balanced(Ledger(s.regions[start := LeaseRegion(start, len, 0)], s.held[start := multiset{}]))
  {
    RegisterIsExact(s.regions, start, len);
    hide WellFormed, Register, Predecessor;
    var t := Ledger(s.regions[start := LeaseRegion(start, len, 0)], s.held[start := multiset{}]);
    forall k | k in t.regions ensures CountsOutstanding(t, k) {
      if k != start { SameCount(s, t, k); }
    }
  }

  lemma CallKeepsBalance(s: Ledger, c: Call)
    requires Balanced(s) && Legal(s, c)
    ensures Balanced(Perform(s, c))
  {
    hide WellFormed;
    match c
    case CallRegister(start, len) =>
      RegisterIsExact(s.regions, start, len);
      if Register(s.regions, start, len).Ok? {
        RegisterKeepsBalance(s, start, len);
      }
    case CallUnregister(start) =>
      if Unregister(s.regions, start).Ok? {
        FewerRegions(s.regions, start);
      }
    case CallCheckout(addr, len) =>
      if Locate(s.regions, addr, len).Ok? {
        CheckoutRecounts(s, addr, len);
        RecountKeepsBalance(s, Perform(s, c), Locate(s.regions, addr, len).value);
      }
    case CallCheckin(addr, base) =>
      CheckinRecounts(s, addr, base);
      RecountKeepsBalance(s, Perform(s, c), base);
  }

  lemma FewerRegions(m: Regions, start: usize)
    requires WellFormed(m)
    ensures WellFormed(m - {start})
  {
  }

  /** Over every history, each region's counter is the number of its outstanding checkouts, and
      each outstanding address still lies in the region its checkout was resolved to. */
  lemma {:induction false} CountsAreExact(calls: seq<Call>, s: Ledger)
    requires Balanced(s) && History(s, calls)
    ensures Balanced(After(s, calls))
    decreases |calls|
  {
    if calls != [] {
      CallKeepsBalance(s, calls[0]);
      CountsAreExact(calls[1..], Perform(s, calls[0]));
    }
  }

  lemma EmptyIsBalanced()
    ensures Balanced(Ledger(map[], map[]))
  {
  }

  /** After any history from the empty registry, unregistering a region succeeds exactly when
      nothing is checked out of it, and otherwise reports how much is. */
  lemma UnregisterIsExact(calls: seq<Call>, start: usize)
    requires History(Ledger(map[], map[]), calls)
    ensures var s := After(Ledger(map[], map[]), calls);
            match Unregister(s.regions, start)
            case Ok(m) => start in s.held && s.held[start] == multiset{} && m == s.regions - {start}
            case Err(InFlight(n)) => start in s.held && n == |s.held[start]| > 0
            case Err(e) => e == NotRegistered && start !in s.regions
  {
    EmptyIsBalanced();
    CountsAreExact(calls, Ledger(map[], map[]));
    hide Balanced, WellFormed;
    assert Balanced(After(Ledger(map[], map[]), calls));
    UnregisterNow(After(Ledger(map[], map[]), calls), start);
  }

  lemma UnregisterNow(s: Ledger, start: usize)
    requires Balanced(s)
    ensures match Unregister(s.regions, start)
            case Ok(m) => start in s.held && s.held[start] == multiset{} && m == s.regions - {start}
            case Err(InFlight(n)) => start in s.held && n == |s.held[start]| > 0
            case Err(e) => e == NotRegistered && start !in s.regions
  {
    hide WellFormed;
  }

  /** After any history from the empty registry, `verify` accepts exactly the ranges `checkout`
      accepts, and answers whether anything is checked out of the region. */
  lemma VerifyIsExact(calls: seq<Call>, addr: usize, len: usize)
    requires History(Ledger(map[], map[]), calls)
    ensures var s := After(Ledger(map[], map[]), calls);
            match Verify(s.regions, addr, len)
            case Ok(busy) => Checkout(s.regions, addr, len).Ok?
                             && exists k :: k in s.regions && k in s.held && s.regions[k].Contains(addr)
                                            && (busy <==> s.held[k] != multiset{})
            case Err(e) => Checkout(s.regions, addr, len) == Err(e)
  {
    EmptyIsBalanced();
    CountsAreExact(calls, Ledger(map[], map[]));
    hide Balanced, WellFormed;
    if Verify(After(Ledger(map[], map[]), calls).regions, addr, len).Ok? {
      VerifyNow(After(Ledger(map[], map[]), calls), addr, len);
    }
  }

  lemma VerifyNow(s: Ledger, addr: usize, len: usize)
    requires Balanced(s) && Verify(s.regions, addr, len).Ok?
    ensures exists k :: k in s.regions && k in s.held && s.regions[k].Contains(addr)
                        && (Verify(s.regions, addr, len).value <==> s.held[k] != multiset{})
  {
    var k := Locate(s.regions, addr, len).value;
    LookupIsFullScan(s.regions, addr, k);
    hide WellFormed;
    assert k in s.held;
  }

  /** A check-in leaves one more checkout of the address outstanding. */
  predicate LeavesOne(s: Ledger, c: Call, base: usize, addr: usize) {
    c == CallCheckin(addr, base) && base in s.held ==> s.held[base][addr] > 1
  }

  ghost predicate NeverTheLast(s: Ledger, calls: seq<Call>, base: usize, addr: usize)
    requires History(s, calls)
    decreases |calls|
  {
    calls == [] || (LeavesOne(s, calls[0], base, addr) && NeverTheLast(Perform(s, calls[0]), calls[1..], base, addr))
  }

  /** From the checkout of an address to the last check-in of it, no legal call moves, resizes or
      removes its region, and the address resolves to that region. */
  lemma {:induction false} CheckoutPinsRegion(s: Ledger, calls: seq<Call>, base: usize, addr: usize)
    requires Balanced(s) && History(s, calls) && base in s.held && addr in s.held[base]
    requires NeverTheLast(s, calls, base, addr)
    ensures var t := After(s, calls);
            && base in t.regions && t.regions[base].len == s.regions[base].len
            && base in t.held && addr in t.held[base] && Lookup(t.regions, addr) == Some(base)
    decreases |calls|
  {
    if calls == [] {
      LookupIsFullScan(s.regions, addr, base);
    } else {
      var c := calls[0];
      CallKeepsBalance(s, c);
      PinnedByCall(s, c, base, addr);
      hide WellFormed, Perform, Legal, LeavesOne;
      CheckoutPinsRegion(Perform(s, c), calls[1..], base, addr);
    }
  }

  /** The region is still there, and the address still held. */
  predicate Pinned(s: Ledger, t: Ledger, base: usize, addr: usize) {
    base in s.regions && base in t.regions && t.regions[base].len == s.regions[base].len && base in t.held && addr in t.held[base]
  }

  lemma PinnedByCall(s: Ledger, c: Call, base: usize, addr: usize)
    requires Balanced(s) && Legal(s, c) && base in s.held && addr in s.held[base] && LeavesOne(s, c, base, addr)
    ensures Pinned(s, Perform(s, c), base, addr)
  {
    hide WellFormed;
    match c
    case CallRegister(start, len) => PinnedByRegister(s, start, len, base, addr);
    case CallUnregister(_) =>
    case CallCheckout(_, _) =>
    case CallCheckin(a, b) => PinnedByCheckin(s, a, b, base, addr);
  }

  lemma PinnedByRegister(s: Ledger, start: usize, len: usize, base: usize, addr: usize)
    requires Balanced(s) && Legal(s, CallRegister(start, len)) && base in s.held && addr in s.held[base]
    ensures Pinned(s, Perform(s, CallRegister(start, len)), base, addr)
  {
    assert s.regions[base].Contains(addr);
    if start == base {
      ReplacementIsExact(s.regions, start, len);
    }
    hide WellFormed, Predecessor;
  }

  lemma PinnedByCheckin(s: Ledger, a: usize, b: usize, base: usize, addr: usize)
    requires Balanced(s) && Legal(s, CallCheckin(a, b)) && base in s.held && addr in s.held[base]
    requires LeavesOne(s, CallCheckin(a, b), base, addr)
    ensures Pinned(s, Perform(s, CallCheckin(a, b)), base, addr)
  {
    LookupIsFullScan(s.regions, a, b);
    hide WellFormed, Predecessor, Lookup;
  }

  // ----- The object -----

  class LeaseRegistry {
    var regions: Regions

    constructor ()
      ensures regions == map[]
    {
      regions := map[];
    }

    method RegisterRegion(start: usize, len: usize) returns (r: Result<()>)
      modifies this
      ensures match Register(old(regions), start, len)
              case Ok(m) => r == Ok(()) && regions == m
              case Err(e) => r == Err(e) && regions == old(regions)
    {
      var end := SaturatingAdd(start, len);
      var before := Predecessor(regions, end);
      if before.Some? {
        var existing := regions[before.value];
        if existing.start + existing.len > start {
          return Err(Overlap(existing.start, existing.len));
        }
      }
      regions := regions[start := LeaseRegion(start, len, 0)];
      r := Ok(());
    }

    /** Removes first and puts an in-flight region back. */
    method UnregisterRegion(start: usize) returns (r: Result<()>)
      modifies this
      ensures match Unregister(old(regions), start)
              case Ok(m) => r == Ok(()) && regions == m
              case Err(e) => r == Err(e) && regions == old(regions)
    {
      if start !in regions {
        return Err(NotRegistered);
      }
      var region := regions[start];
      regions := regions - {start};
      if region.inFlight > 0 {
        regions := regions[start := region];
        r := Err(InFlight(region.inFlight));
      } else {
        r := Ok(());
      }
    }

    method CheckoutBuffer(addr: usize, len: usize) returns (r: Result<()>)
      modifies this
      ensures match Checkout(old(regions), addr, len)
              case Ok(m) => r == Ok(()) && regions == m
              case Err(e) => r == Err(e) && regions == old(regions)
    {
      var before := Predecessor(regions, SaturatingAdd(addr, 1));
      if before.None? {
        return Err(NotRegistered);
      }
      var region := regions[before.value];
      if !region.Contains(addr) {
        return Err(NotRegistered);
      }
      var requestedEnd := SaturatingAdd(addr, len);
      if requestedEnd > region.start + region.len {
        return Err(OutOfBounds(requestedEnd, region.start + region.len));
      }
      var count := if region.inFlight < U32 - 1 then region.inFlight + 1 else region.inFlight;
      regions := regions[before.value := region.(inFlight := count)];
      r := Ok(());
    }

    method VerifyBuffer(addr: usize, len: usize) returns (r: Result<bool>)
      ensures r == Verify(regions, addr, len)
    {
      var before := Predecessor(regions, SaturatingAdd(addr, 1));
      if before.None? {
        return Err(NotRegistered);
      }
      var region := regions[before.value];
      if !region.Contains(addr) {
        return Err(NotRegistered);
      }
      var requestedEnd := SaturatingAdd(addr, len);
      if requestedEnd > region.start + region.len {
        return Err(OutOfBounds(requestedEnd, region.start + region.len));
      }
      r := Ok(region.inFlight > 0);
    }

    method CheckinBuffer(addr: usize)
      modifies this
      ensures regions == Checkin(old(regions), addr)
    {
      var before := Predecessor(regions, SaturatingAdd(addr, 1));
      if before.Some? {
        var region := regions[before.value];
        if region.Contains(addr) && region.inFlight > 0 {
          regions := regions[before.value := region.(inFlight := region.inFlight - 1)];
        }
      }
    }
  }

  // ----- Kernel registration -----

  datatype RegisterBuffer = RegisterBuffer(base: usize, len: usize)

  /** `as_register_buffers` below `bound`: the map's values in key order. */
  function BuffersBelow(m: Regions, bound: nat): seq<RegisterBuffer>
    decreases bound
  {
    match Predecessor(m, bound)
    case None => []
    case Some(k) => BuffersBelow(m, k) + [RegisterBuffer(m[k].start, m[k].len)]
  }

  /** Every region below the bound is listed once, in increasing order of address. */
  ghost predicate Lists(b: seq<RegisterBuffer>, m: Regions, bound: nat) {
    && (forall i :: 0 <= i < |b| ==> b[i].base < bound && b[i].base in m && b[i].len == m[b[i].base].len)
    && (forall i, j :: 0 <= i < j < |b| ==> b[i].base < b[j].base)
    && (forall k :: k in m && k < bound ==> exists i :: 0 <= i < |b| && b[i].base == k)
  }

  lemma {:induction false} BuffersListRegions(m: Regions, bound: nat)
    requires WellFormed(m)
    ensures Lists(BuffersBelow(m, bound), m, bound)
    decreases bound
  {
    var p := Predecessor(m, bound);
    if p.Some? {
      BuffersListRegions(m, p.value);
      hide Lists;
      ListOneMore(BuffersBelow(m, p.value), m, p.value, bound);
    }
  }

  lemma ListOneMore(b: seq<RegisterBuffer>, m: Regions, p: nat, bound: nat)
    requires WellFormed(m) && Predecessor(m, bound) == Some(p) && Lists(b, m, p)
    ensures Lists(b + [RegisterBuffer(m[p].start, m[p].len)], m, bound)
  {
    var c := b + [RegisterBuffer(m[p].start, m[p].len)];
    forall k | k in m && k < bound ensures exists i :: 0 <= i < |c| && c[i].base == k {
      if k < p {
        var i :| 0 <= i < |b| && b[i].base == k;
        assert c[i].base == k;
      } else {
        assert c[|b|].base == k;
      }
    }
    hide Predecessor;
  }
}
