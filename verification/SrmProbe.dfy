/** Probing a device: clocks, regulators and interrupts are acquired one by one, and whatever fails
    before the component is added releases all of them. */
module SrmProbe {
  import opened Prelude
  import opened SrmResources
  import opened SrmMessages

  datatype Kind = ClockRes | ReguRes | IrqRes

  /** `Got` and `Put` of the entry at a position, in the order the kernel sees them. */
  datatype Acquisition = Got(kind: Kind, entry: nat) | Put(kind: Kind, entry: nat)

  datatype Irq = Irq(index: Word32, irq: int)

  /** The device-tree node and what the kernel answers while it is probed. Allocation results are per
      loop pass; the acquiring calls return 0 or an error. */
  datatype Node = Node(
    present: bool, earlyBoot: bool,
    clockCount: Word32, clockName: nat -> string, parentOf: nat -> nat, clockAlloc: nat -> bool, clockGet: nat -> int,
    properties: seq<string>, reguAlloc: nat -> bool, reguGet: nat -> int,
    irqCount: int, irqAlloc: nat -> bool, irqOf: nat -> int, irqRequest: nat -> int,
    registerRet: int, addRet: int)

  const SUPPLY: string := "-supply"

  /** Is this property a regulator supply? Its name loses seven characters at the end. */
  predicate IsSupply(property: string) {
    Contains(property, SUPPLY) && !OccursAt(property, SUPPLY, 0)
  }

  function SupplyName(property: string): string
    requires IsSupply(property)
  {
    property[..|property| - |SUPPLY|]
  }

  // ---- the get loops ----------------------------------------------------------------------------------------------

  function GetClks(n: Node, cs: seq<Clk>): (seq<Clk>, seq<Acquisition>, int)
    requires |cs| <= n.clockCount
    decreases n.clockCount - |cs|
  {
    var i := |cs|;
    if i == n.clockCount then (cs, [], 0)
    else if !n.clockAlloc(i) || n.clockGet(i) != 0 then (cs, [], ENOMEM)
    else
      var (cs', evs, ret) := GetClks(n, cs + [Clk(i, n.clockName(i), n.parentOf(i), false)]);
      (cs', [Got(ClockRes, i)] + evs, ret)
  }

  function GetRegus(n: Node, j: nat, rs: seq<Regu>): (seq<Regu>, seq<Acquisition>, int)
    requires j <= |n.properties| && |rs| <= j
    decreases |n.properties| - j
  {
    if j == |n.properties| then (rs, [], 0)
    else if !IsSupply(n.properties[j]) then GetRegus(n, j + 1, rs)
    else if !n.reguAlloc(j) then (rs, [], ENOMEM)
    else if n.reguGet(j) != 0 then (rs, [], EINVAL)
    else
      var (rs', evs, ret) := GetRegus(n, j + 1, rs + [Regu(ToWord32(|rs|), SupplyName(n.properties[j]), false)]);
      (rs', [Got(ReguRes, |rs|)] + evs, ret)
  }

  /** The bound of the interrupt loop: the count, compared as unsigned. */
  function IrqBound(n: Node): Word32 {
    n.irqCount % TWO_32
  }

  function GetIrqs(n: Node, qs: seq<Irq>): (seq<Irq>, seq<Acquisition>, int)
    requires |qs| <= IrqBound(n)
    decreases IrqBound(n) - |qs|
  {
    var i := |qs|;
    if i == IrqBound(n) then (qs, [], 0)
    else if !n.irqAlloc(i) then (qs, [], ENOMEM)
    else if n.irqOf(i) <= 0 then (qs, [], n.irqOf(i))
    else if n.irqRequest(i) != 0 then (qs, [], n.irqRequest(i))
    else
      var (qs', evs, ret) := GetIrqs(n, qs + [Irq(i, n.irqOf(i))]);
      (qs', [Got(IrqRes, i)] + evs, ret)
  }

  /** Releasing a list front to back. */
  function PutFrom(kind: Kind, i: nat, count: nat): seq<Acquisition>
    requires i <= count
    decreases count - i
  {
    if i == count then [] else [Put(kind, i)] + PutFrom(kind, i + 1, count)
  }

  datatype Lists = Lists(clks: seq<Clk>, regus: seq<Regu>, irqs: seq<Irq>)

  const NOTHING: Lists := Lists([], [], [])

  function ClocksGet(n: Node): (seq<Clk>, seq<Acquisition>, int) {
    if !n.present || n.clockCount == 0 then ([], [], 0)
    else
      var (cs, evs, ret) := GetClks(n, []);
      if ret == 0 then (cs, evs, 0) else ([], evs + PutFrom(ClockRes, 0, |cs|), ret)
  }

  function RegusGet(n: Node): (seq<Regu>, seq<Acquisition>, int) {
    if !n.present then ([], [], 0)
    else
      var (rs, evs, ret) := GetRegus(n, 0, []);
      if ret == 0 then (rs, evs, 0) else ([], evs + PutFrom(ReguRes, 0, |rs|), ret)
  }

  /** An interrupt number of 0 takes the error path with result 0: everything is released, and probing
      carries on. */
  function IrqsGet(n: Node): (seq<Irq>, seq<Acquisition>, int) {
    if !n.present || n.irqCount == 0 || n.earlyBoot then ([], [], 0)
    else
      var (qs, evs, ret) := GetIrqs(n, []);
      if |qs| == IrqBound(n) then (qs, evs, 0) else ([], evs + PutFrom(IrqRes, 0, |qs|), ret)
  }

  function PutAll(l: Lists): seq<Acquisition> {
    PutFrom(IrqRes, 0, |l.irqs|) + PutFrom(ReguRes, 0, |l.regus|) + PutFrom(ClockRes, 0, |l.clks|)
  }

  /** What probing leaves: the lists, the acquisitions made and undone, the result, and whether it got as
      far as adding the component. */
  function Probe(n: Node): (Lists, seq<Acquisition>, int, bool) {
    var (cs, cevs, cret) := ClocksGet(n);
    if cret != 0 then (NOTHING, cevs, cret, false)
    else
      var (rs, revs, rret) := RegusGet(n);
      if rret != 0 then (NOTHING, cevs + revs + PutAll(Lists(cs, [], [])), rret, false)
      else
        var (qs, qevs, qret) := IrqsGet(n);
        if qret != 0 then (NOTHING, cevs + revs + qevs + PutAll(Lists(cs, rs, [])), qret, false)
        else if n.registerRet != 0 then (NOTHING, cevs + revs + qevs + PutAll(Lists(cs, rs, qs)), n.registerRet, false)
        else (Lists(cs, rs, qs), cevs + revs + qevs, n.addRet, true)
  }

  // ---- acquire or undo --------------------------------------------------------------------------------------------

  function Count(log: seq<Acquisition>, a: Acquisition): nat {
    if log == [] then 0 else (if log[0] == a then 1 else 0) + Count(log[1..], a)
  }

  lemma {:induction false} CountAppend(x: seq<Acquisition>, y: seq<Acquisition>, a: Acquisition)
    ensures Count(x + y, a) == Count(x, a) + Count(y, a)
  {
    if x == [] {
      assert x + y == y;
    } else {
      assert (x + y)[1..] == x[1..] + y;
      CountAppend(x[1..], y, a);
    }
  }

  function Between(lo: nat, i: nat, hi: nat): nat {
    if lo <= i < hi then 1 else 0
  }

  lemma {:induction false} PutFromCounts(kind: Kind, i: nat, count: nat, k: Kind, e: nat)
    requires i <= count
    ensures Count(PutFrom(kind, i, count), Put(k, e)) == if k == kind then Between(i, e, count) else 0
    ensures Count(PutFrom(kind, i, count), Got(k, e)) == 0
    decreases count - i
  {
    if i < count {
      PutFromCounts(kind, i + 1, count, k, e);
    }
  }

  lemma {:induction false} GetClksCounts(n: Node, cs: seq<Clk>, k: Kind, e: nat)
    requires |cs| <= n.clockCount
    ensures var (cs', evs, ret) := GetClks(n, cs);
      && |cs| <= |cs'| <= n.clockCount && cs'[..|cs|] == cs && (ret == 0 <==> |cs'| == n.clockCount)
      && Count(evs, Got(k, e)) == (if k == ClockRes then Between(|cs|, e, |cs'|) else 0)
      && Count(evs, Put(k, e)) == 0
      && (forall i :: |cs| <= i < |cs'| ==> cs'[i] == Clk(i, n.clockName(i), n.parentOf(i), false))
    decreases n.clockCount - |cs|
  {
    var i := |cs|;
    if i < n.clockCount && n.clockAlloc(i) && n.clockGet(i) == 0 {
      GetClksCounts(n, cs + [Clk(i, n.clockName(i), n.parentOf(i), false)], k, e);
    }
  }

  lemma {:induction false} GetRegusCounts(n: Node, j: nat, rs: seq<Regu>, k: Kind, e: nat)
    requires j <= |n.properties| && |rs| <= j && |n.properties| < U32_MAX
    ensures var (rs', evs, ret) := GetRegus(n, j, rs);
      && |rs| <= |rs'| <= |n.properties| && rs'[..|rs|] == rs
      && Count(evs, Got(k, e)) == (if k == ReguRes then Between(|rs|, e, |rs'|) else 0)
      && Count(evs, Put(k, e)) == 0
      && (forall i :: |rs| <= i < |rs'| ==> rs'[i].index == i && !rs'[i].enabled)
    decreases |n.properties| - j
  {
    if j < |n.properties| {
      if !IsSupply(n.properties[j]) {
        GetRegusCounts(n, j + 1, rs, k, e);
      } else if n.reguAlloc(j) && n.reguGet(j) == 0 {
        GetRegusCounts(n, j + 1, rs + [Regu(ToWord32(|rs|), SupplyName(n.properties[j]), false)], k, e);
      }
    }
  }

  lemma {:induction false} GetIrqsCounts(n: Node, qs: seq<Irq>, k: Kind, e: nat)
    requires |qs| <= IrqBound(n)
    ensures var (qs', evs, ret) := GetIrqs(n, qs);
      && |qs| <= |qs'| <= IrqBound(n) && qs'[..|qs|] == qs
      && Count(evs, Got(k, e)) == (if k == IrqRes then Between(|qs|, e, |qs'|) else 0)
      && Count(evs, Put(k, e)) == 0
      && (forall i :: |qs| <= i < |qs'| ==> qs'[i] == Irq(i, n.irqOf(i)))
      && (ret == 0 && |qs'| < IrqBound(n) ==> n.irqOf(|qs'|) == 0)
    decreases IrqBound(n) - |qs|
  {
    var i := |qs|;
    if i < IrqBound(n) && n.irqAlloc(i) && n.irqOf(i) > 0 && n.irqRequest(i) == 0 {
      GetIrqsCounts(n, qs + [Irq(i, n.irqOf(i))], k, e);
    }
  }

  /** Entries of each kind a set of lists holds. */
  function Held(l: Lists, k: Kind): nat {
    match k case ClockRes => |l.clks| case ReguRes => |l.regus| case IrqRes => |l.irqs|
  }

  /** `log` has acquired every entry at most once, and released exactly those not held in `l`. */
  predicate Settled(log: seq<Acquisition>, l: Lists, k: Kind, e: nat) {
    && Count(log, Got(k, e)) <= 1
    && Count(log, Got(k, e)) == Count(log, Put(k, e)) + Between(0, e, Held(l, k))
  }

  lemma ClocksGetSettled(n: Node, k: Kind, e: nat)
    ensures Settled(ClocksGet(n).1, Lists(ClocksGet(n).0, [], []), k, e)
    ensures k != ClockRes ==> Count(ClocksGet(n).1, Got(k, e)) == 0 && Count(ClocksGet(n).1, Put(k, e)) == 0
  {
    GetClksCounts(n, [], k, e);
    var (cs, evs, _) := GetClks(n, []);
    PutFromCounts(ClockRes, 0, |cs|, k, e);
    CountAppend(evs, PutFrom(ClockRes, 0, |cs|), Got(k, e));
    CountAppend(evs, PutFrom(ClockRes, 0, |cs|), Put(k, e));
  }

  lemma RegusGetSettled(n: Node, k: Kind, e: nat)
    requires |n.properties| < U32_MAX
    ensures Settled(RegusGet(n).1, Lists([], RegusGet(n).0, []), k, e)
    ensures k != ReguRes ==> Count(RegusGet(n).1, Got(k, e)) == 0 && Count(RegusGet(n).1, Put(k, e)) == 0
  {
    GetRegusCounts(n, 0, [], k, e);
    var (rs, evs, _) := GetRegus(n, 0, []);
    PutFromCounts(ReguRes, 0, |rs|, k, e);
    CountAppend(evs, PutFrom(ReguRes, 0, |rs|), Got(k, e));
    CountAppend(evs, PutFrom(ReguRes, 0, |rs|), Put(k, e));
  }

  lemma IrqsGetSettled(n: Node, k: Kind, e: nat)
    ensures Settled(IrqsGet(n).1, Lists([], [], IrqsGet(n).0), k, e)
    ensures k != IrqRes ==> Count(IrqsGet(n).1, Got(k, e)) == 0 && Count(IrqsGet(n).1, Put(k, e)) == 0
  {
    GetIrqsCounts(n, [], k, e);
    var (qs, evs, _) := GetIrqs(n, []);
    PutFromCounts(IrqRes, 0, |qs|, k, e);
    CountAppend(evs, PutFrom(IrqRes, 0, |qs|), Got(k, e));
    CountAppend(evs, PutFrom(IrqRes, 0, |qs|), Put(k, e));
  }

  lemma PutAllCounts(l: Lists, k: Kind, e: nat)
    ensures Count(PutAll(l), Got(k, e)) == 0
    ensures Count(PutAll(l), Put(k, e)) == Between(0, e, Held(l, k))
  {
    var a, b, c := PutFrom(IrqRes, 0, |l.irqs|), PutFrom(ReguRes, 0, |l.regus|), PutFrom(ClockRes, 0, |l.clks|);
    PutFromCounts(IrqRes, 0, |l.irqs|, k, e);
    PutFromCounts(ReguRes, 0, |l.regus|, k, e);
    PutFromCounts(ClockRes, 0, |l.clks|, k, e);
    forall x | x in {Got(k, e), Put(k, e)} ensures Count(a + b + c, x) == Count(a, x) + Count(b, x) + Count(c, x) {
      CountAppend(a + b, c, x);
      CountAppend(a, b, x);
    }
  }

  /** Putting everything back settles a log with nothing held. */
  lemma UndoSettles(log: seq<Acquisition>, l: Lists, k: Kind, e: nat)
    requires Settled(log, l, k, e)
    ensures Settled(log + PutAll(l), NOTHING, k, e)
  {
    PutAllCounts(l, k, e);
    CountAppend(log, PutAll(l), Got(k, e));
    CountAppend(log, PutAll(l), Put(k, e));
  }

  /** Two logs about different kinds of resource, one after the other. */
  lemma JoinSettles(a: seq<Acquisition>, la: Lists, b: seq<Acquisition>, lb: Lists, l: Lists, k: Kind, e: nat)
    requires Settled(a, la, k, e) && Settled(b, lb, k, e)
    requires Count(a, Got(k, e)) == 0 || Count(b, Got(k, e)) == 0
    requires Held(l, k) == Held(la, k) + Held(lb, k) && (Held(la, k) == 0 || Held(lb, k) == 0)
    ensures Settled(a + b, l, k, e)
  {
    CountAppend(a, b, Got(k, e));
    CountAppend(a, b, Put(k, e));
  }

  /** Every entry is acquired at most once. If probing stops before the component is added, nothing is
      held and every entry acquired has been released exactly once; otherwise exactly the listed entries
      are held. */
  lemma AcquireOrUndo(n: Node, k: Kind, e: nat)
    requires |n.properties| < U32_MAX
    ensures var (l, log, ret, added) := Probe(n);
      && Settled(log, l, k, e)
      && (!added ==> l == NOTHING && ret != 0)
  {
    ClocksGetSettled(n, k, e);
    RegusGetSettled(n, k, e);
    IrqsGetSettled(n, k, e);
    var (cs, cevs, _) := ClocksGet(n);
    var (rs, revs, _) := RegusGet(n);
    var (qs, qevs, _) := IrqsGet(n);
    JoinSettles(cevs, Lists(cs, [], []), revs, Lists([], rs, []), Lists(cs, rs, []), k, e);
    assert k == IrqRes ==> Count(cevs + revs, Got(k, e)) == 0 by { CountAppend(cevs, revs, Got(k, e)); }
    JoinSettles(cevs + revs, Lists(cs, rs, []), qevs, Lists([], [], qs), Lists(cs, rs, qs), k, e);
    UndoSettles(cevs + revs, Lists(cs, rs, []), k, e);
    UndoSettles(cevs + revs + qevs, Lists(cs, rs, qs), k, e);
  }

  ghost predicate StillHolds(log: seq<Acquisition>) {
    exists k, e :: Count(log, Got(k, e)) > Count(log, Put(k, e))
  }

  /** A failed probe still holds something exactly when everything was acquired, there was something to acquire,
      the notifier was registered, and only adding the component failed: that last step undoes nothing. */
  lemma FailedProbeHolds(n: Node)
    requires |n.properties| < U32_MAX && Probe(n).2 != 0
    ensures StillHolds(Probe(n).1) <==>
            ClocksGet(n).2 == 0 && RegusGet(n).2 == 0 && IrqsGet(n).2 == 0 && n.registerRet == 0
            && Lists(ClocksGet(n).0, RegusGet(n).0, IrqsGet(n).0) != NOTHING
  {
    var (l, log, ret, added) := Probe(n);
    if added && l != NOTHING {
      var k := if l.clks != [] then ClockRes else if l.regus != [] then ReguRes else IrqRes;
      AcquireOrUndo(n, k, 0);
    } else {
      forall k, e ensures Count(log, Got(k, e)) <= Count(log, Put(k, e)) {
        AcquireOrUndo(n, k, e);
      }
    }
  }

  lemma {:induction false} GetClksError(n: Node, cs: seq<Clk>)
    requires |cs| <= n.clockCount
    ensures var ret := GetClks(n, cs).2;
      ret != 0 ==> ret == -12 && exists i: nat :: i < n.clockCount && (!n.clockAlloc(i) || n.clockGet(i) != 0)
    decreases n.clockCount - |cs|
  {
    var i := |cs|;
    if i < n.clockCount && n.clockAlloc(i) && n.clockGet(i) == 0 {
      GetClksError(n, cs + [Clk(i, n.clockName(i), n.parentOf(i), false)]);
    }
  }

  /** What makes taking a supply fail, and with which status. */
  predicate SupplyFails(n: Node, i: nat, ret: int) {
    && i < |n.properties| && Supplies(n.properties[i])
    && if n.reguAlloc(i) then n.reguGet(i) != 0 && ret == -22 else ret == -12
  }

  lemma {:induction false} GetRegusError(n: Node, j: nat, rs: seq<Regu>)
    requires j <= |n.properties| && |rs| <= j
    ensures var ret := GetRegus(n, j, rs).2; ret != 0 ==> exists i: nat :: SupplyFails(n, i, ret)
    decreases |n.properties| - j
  {
    if j < |n.properties| {
      SupplyIsNamed(n.properties[j]);
      hide Supplies, IsSupply;
      if !IsSupply(n.properties[j]) {
        GetRegusError(n, j + 1, rs);
      } else if n.reguAlloc(j) && n.reguGet(j) == 0 {
        GetRegusError(n, j + 1, rs + [Regu(ToWord32(|rs|), SupplyName(n.properties[j]), false)]);
      } else {
        assert SupplyFails(n, j, GetRegus(n, j, rs).2);
      }
    }
  }

  predicate IrqFails(n: Node, i: nat, ret: int) {
    if !n.irqAlloc(i) then ret == -12 else if n.irqOf(i) < 0 then ret == n.irqOf(i) else ret == n.irqRequest(i)
  }

  lemma {:induction false} GetIrqsError(n: Node, qs: seq<Irq>)
    requires |qs| <= IrqBound(n)
    ensures var ret := GetIrqs(n, qs).2; ret != 0 ==> exists i: nat :: IrqFails(n, i, ret)
    decreases IrqBound(n) - |qs|
  {
    var i := |qs|;
    if i < IrqBound(n) {
      if n.irqAlloc(i) && n.irqOf(i) > 0 && n.irqRequest(i) == 0 {
        GetIrqsError(n, qs + [Irq(i, n.irqOf(i))]);
      } else {
        assert GetIrqs(n, qs).2 != 0 ==> IrqFails(n, i, GetIrqs(n, qs).2);
      }
    }
  }

  /** The status of a failed probe: -12 for a clock or for memory, -22 for a regulator, and what the kernel said for an
      interrupt, the notifier and the component. */
  lemma ProbeErrors(n: Node)
    requires Probe(n).2 != 0
    ensures var ret := Probe(n).2;
      || (ret == -12 && exists i: nat :: i < n.clockCount && (!n.clockAlloc(i) || n.clockGet(i) != 0))
      || (exists i: nat :: SupplyFails(n, i, ret))
      || (exists i: nat :: IrqFails(n, i, ret))
      || ret == n.registerRet || (n.registerRet == 0 && ret == n.addRet)
  {
    GetClksError(n, []);
    GetRegusError(n, 0, []);
    GetIrqsError(n, []);
    hide SupplyFails, IrqFails, PutFrom, GetClks, GetRegus, GetIrqs;
  }

  /** A property that names a supply: `-supply` occurs in it, but not at the start. */
  predicate Supplies(property: string) {
    (exists i :: 0 <= i <= |property| && OccursAt(property, "-supply", i)) && !OccursAt(property, "-supply", 0)
  }

  /** `names` are the supply properties from `j` on without their last seven characters, each once, in order; `at`
      says where. */
  ghost predicate SupplyNames(properties: seq<string>, j: nat, names: seq<string>, at: seq<nat>) {
    && |at| == |names|
    && (forall k, l :: 0 <= k < l < |at| ==> at[k] < at[l])
    && (forall k :: 0 <= k < |at| ==> j <= at[k] < |properties| && NamesSupply(names[k], properties[at[k]]))
    && (forall i :: j <= i < |properties| && Supplies(properties[i]) ==> i in at)
  }

  predicate NamesSupply(name: string, property: string) {
    Supplies(property) && 7 + |name| == |property| && IsPrefix(name, property)
  }

  function Names(rs: seq<Regu>): seq<string> {
    seq(|rs|, i requires 0 <= i < |rs| => rs[i].name)
  }

  lemma SkipProperty(properties: seq<string>, j: nat, names: seq<string>, at: seq<nat>)
    requires j < |properties| && !Supplies(properties[j]) && SupplyNames(properties, j + 1, names, at)
    ensures SupplyNames(properties, j, names, at)
  {
    hide Supplies, NamesSupply;
  }

  lemma TakeProperty(properties: seq<string>, j: nat, name: string, names: seq<string>, at: seq<nat>)
    requires j < |properties| && NamesSupply(name, properties[j]) && SupplyNames(properties, j + 1, names, at)
    ensures SupplyNames(properties, j, [name] + names, [j] + at)
  {
    hide Supplies, NamesSupply;
    forall i | j <= i < |properties| && Supplies(properties[i]) ensures i in [j] + at {
      assert i == j || i in at;
    }
  }

  lemma SupplyIsNamed(property: string)
    ensures IsSupply(property) <==> Supplies(property)
    ensures IsSupply(property) ==> NamesSupply(SupplyName(property), property)
  {
  }

  /** The supplies that the loop finds from property `j` on. */
  lemma {:induction false} GetRegusNames(n: Node, j: nat, rs: seq<Regu>) returns (at: seq<nat>)
    requires j <= |n.properties| && |rs| <= j && GetRegus(n, j, rs).2 == 0
    ensures var rs' := GetRegus(n, j, rs).0;
      |rs| <= |rs'| && rs'[..|rs|] == rs && SupplyNames(n.properties, j, Names(rs'[|rs|..]), at)
    decreases |n.properties| - j
  {
    hide IsSupply, SupplyName, Supplies, NamesSupply;
    at := [];
    if j < |n.properties| {
      var p := n.properties[j];
      SupplyIsNamed(p);
      if !IsSupply(p) {
        at := GetRegusNames(n, j + 1, rs);
        SkipProperty(n.properties, j, Names(GetRegus(n, j, rs).0[|rs|..]), at);
      } else {
        var next := rs + [Regu(ToWord32(|rs|), SupplyName(p), false)];
        at := GetRegusNames(n, j + 1, next);
        var rs' := GetRegus(n, j + 1, next).0;
        TakeProperty(n.properties, j, SupplyName(p), Names(rs'[|next|..]), at);
        at := [j] + at;
        assert rs'[|rs|] == rs'[..|next|][|rs|] && rs'[..|rs|] == rs'[..|next|][..|rs|];
        assert Names(rs'[|rs|..]) == [SupplyName(p)] + Names(rs'[|next|..]);
      }
    }
  }

  /** The lists a probed device works with: nothing enabled, the stored index is the position, names, parents and
      interrupt numbers are those of the node, and in early boot no interrupt is taken. */
  lemma ProbedLists(n: Node) returns (at: seq<nat>)
    requires |n.properties| < U32_MAX && Probe(n).3
    ensures var l := Probe(n).0;
      && ClksIndexed(l.clks) && RegusIndexed(l.regus)
      && |l.clks| == (if n.present then n.clockCount else 0)
      && (forall i :: 0 <= i < |l.clks| ==> l.clks[i] == Clk(i, n.clockName(i), n.parentOf(i), false))
      && (forall i :: 0 <= i < |l.regus| ==> !l.regus[i].enabled)
      && SupplyNames(if n.present then n.properties else [], 0, Names(l.regus), at)
      && (forall i :: 0 <= i < |l.irqs| ==> l.irqs[i] == Irq(i, n.irqOf(i)))
      && (!n.present || n.earlyBoot ==> l.irqs == [])
      && (n.present && !n.earlyBoot ==> l.irqs == [] || |l.irqs| == IrqBound(n))
      && (n.present && !n.earlyBoot && l.irqs == [] ==> IrqBound(n) == 0 || exists i: nat :: n.irqOf(i) == 0)
  {
    GetClksCounts(n, [], ClockRes, 0);
    GetRegusCounts(n, 0, [], ReguRes, 0);
    GetIrqsCounts(n, [], IrqRes, 0);
    at := [];
    if n.present {
      at := GetRegusNames(n, 0, []);
      assert RegusGet(n).0[0..] == RegusGet(n).0;
    }
    ghost var stop := |GetIrqs(n, []).0|;
    assert n.present && !n.earlyBoot && n.irqCount != 0 && stop < IrqBound(n) ==> n.irqOf(stop) == 0;
    hide SupplyNames, GetClks, GetRegus, GetIrqs, PutFrom, Count;
  }

  /** The device being probed: its three lists, filled by the get loops and emptied by the put loops. */
  class ProbedDevice {
    var clks: seq<Clk>
    var regus: seq<Regu>
    var irqs: seq<Irq>
    ghost var log: seq<Acquisition>

    function Held(): Lists
      reads this
    {
      Lists(clks, regus, irqs)
    }

    constructor ()
      ensures Held() == NOTHING && log == []
    {
      clks, regus, irqs := [], [], [];
      log := [];
    }

    method ClocksPut()
      modifies this`clks, this`log
      ensures clks == [] && log == old(log) + PutFrom(ClockRes, 0, |old(clks)|)
    {
      ghost var count := |clks|;
      ghost var all := PutFrom(ClockRes, 0, count);
      while clks != []
        invariant |clks| <= count && old(log) + all == log + PutFrom(ClockRes, count - |clks|, count)
      {
        ghost var i := count - |clks|;
        assert PutFrom(ClockRes, i, count) == [Put(ClockRes, i)] + PutFrom(ClockRes, i + 1, count);
        log := log + [Put(ClockRes, i)];
        clks := clks[1..];
      }
    }

    method RegusPut()
      modifies this`regus, this`log
      ensures regus == [] && log == old(log) + PutFrom(ReguRes, 0, |old(regus)|)
    {
      ghost var count := |regus|;
      ghost var all := PutFrom(ReguRes, 0, count);
      while regus != []
        invariant |regus| <= count && old(log) + all == log + PutFrom(ReguRes, count - |regus|, count)
      {
        ghost var i := count - |regus|;
        assert PutFrom(ReguRes, i, count) == [Put(ReguRes, i)] + PutFrom(ReguRes, i + 1, count);
        log := log + [Put(ReguRes, i)];
        regus := regus[1..];
      }
    }

    method IrqsPut()
      modifies this`irqs, this`log
      ensures irqs == [] && log == old(log) + PutFrom(IrqRes, 0, |old(irqs)|)
    {
      ghost var count := |irqs|;
      ghost var all := PutFrom(IrqRes, 0, count);
      while irqs != []
        invariant |irqs| <= count && old(log) + all == log + PutFrom(IrqRes, count - |irqs|, count)
      {
        ghost var i := count - |irqs|;
        assert PutFrom(IrqRes, i, count) == [Put(IrqRes, i)] + PutFrom(IrqRes, i + 1, count);
        log := log + [Put(IrqRes, i)];
        irqs := irqs[1..];
      }
    }

    method GetClocks(n: Node) returns (ret: int)
      requires clks == []
      modifies this`clks, this`log
      ensures var (cs, evs, r) := ClocksGet(n);
              clks == cs && log == old(log) + evs && ret == r
    {
      if !n.present || n.clockCount == 0 {
        return 0;
      }
      ghost var all := GetClks(n, []);
      ghost var done: seq<Acquisition> := [];
      var i := 0;
      while i < n.clockCount
        invariant |clks| == i <= n.clockCount
        invariant (all.0, all.2) == (GetClks(n, clks).0, GetClks(n, clks).2)
        invariant log == old(log) + done && all.1 == done + GetClks(n, clks).1
      {
        if !n.clockAlloc(i) || n.clockGet(i) != 0 {
          assert done == all.1;
          ClocksPut();
          return ENOMEM;
        }
        ghost var next := clks + [Clk(i, n.clockName(i), n.parentOf(i), false)];
        assert done + GetClks(n, clks).1 == done + [Got(ClockRes, i)] + GetClks(n, next).1;
        clks := clks + [Clk(i, n.clockName(i), n.parentOf(i), false)];
        log := log + [Got(ClockRes, i)];
        done := done + [Got(ClockRes, i)];
        i := i + 1;
      }
      return 0;
    }

    method GetRegulators(n: Node) returns (ret: int)
      requires regus == []
      modifies this`regus, this`log
      ensures var (rs, evs, r) := RegusGet(n);
              regus == rs && log == old(log) + evs && ret == r
    {
      if !n.present {
        return 0;
      }
      ghost var all := GetRegus(n, 0, []);
      var j := 0;
      while j < |n.properties|
        invariant |regus| <= j <= |n.properties|
        invariant (all.0, all.2) == (GetRegus(n, j, regus).0, GetRegus(n, j, regus).2)
        invariant old(log) + all.1 == log + GetRegus(n, j, regus).1
      {
        if IsSupply(n.properties[j]) {
          ret := if !n.reguAlloc(j) then ENOMEM else if n.reguGet(j) != 0 then EINVAL else 0;
          if ret != 0 {
            assert log == old(log) + all.1;
            RegusPut();
            return;
          }
          ghost var rest := GetRegus(n, j, regus).1;
          var index := |regus|;
          regus := regus + [Regu(ToWord32(index), SupplyName(n.properties[j]), false)];
          log := log + [Got(ReguRes, index)];
          assert rest == [Got(ReguRes, index)] + GetRegus(n, j + 1, regus).1;
        }
        j := j + 1;
      }
      return 0;
    }

    method GetInterrupts(n: Node) returns (ret: int)
      requires irqs == []
      modifies this`irqs, this`log
      ensures var (qs, evs, r) := IrqsGet(n);
              irqs == qs && log == old(log) + evs && ret == r
    {
      if !n.present || n.irqCount == 0 || n.earlyBoot {
        return 0;
      }
      ghost var all := GetIrqs(n, []);
      var i := 0;
      while i < IrqBound(n)
        invariant |irqs| == i <= IrqBound(n)
        invariant (all.0, all.2) == (GetIrqs(n, irqs).0, GetIrqs(n, irqs).2)
        invariant old(log) + all.1 == log + GetIrqs(n, irqs).1
      {
        if !n.irqAlloc(i) || n.irqOf(i) <= 0 || n.irqRequest(i) != 0 {
          ret := if !n.irqAlloc(i) then ENOMEM else if n.irqOf(i) <= 0 then n.irqOf(i) else n.irqRequest(i);
          assert log == old(log) + all.1;
          IrqsPut();
          return;
        }
        ghost var rest := GetIrqs(n, irqs).1;
        irqs := irqs + [Irq(i, n.irqOf(i))];
        log := log + [Got(IrqRes, i)];
        assert rest == [Got(IrqRes, i)] + GetIrqs(n, irqs).1;
        i := i + 1;
      }
      return 0;
    }

    method ProbeDevice(n: Node) returns (ret: int, added: bool)
      requires Held() == NOTHING && log == []
      modifies this
      ensures (Held(), log, ret, added) == Probe(n)
    {
      hide GetClks, GetRegus, GetIrqs, PutFrom;
      ret := GetClocks(n);
      assert log == ClocksGet(n).1;
      if ret != 0 {
        return ret, false;
      }
      ret := GetRegulators(n);
      if ret == 0 {
        ret := GetInterrupts(n);
        if ret == 0 {
          ret := n.registerRet;
          if ret == 0 {
            return n.addRet, true;
          }
        }
      }
      ghost var before, held := log, Held();
      IrqsPut();
      RegusPut();
      ClocksPut();
      assert log == before + PutAll(held);
      return ret, false;
    }
  }
}
