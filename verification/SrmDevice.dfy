/** One device of the system resource manager over its life: binds, unbinds and requests, with
    any of the kernel calls failing. */
module SrmDevice {
  import opened Prelude
  import opened SrmResources
  import opened SrmMessages

  function Bind(d: Dev, o: Oracle): (Dev, seq<HwEvent>, int) {
    var (cs, evs, ret) := ClocksSetup(d.clks, o.parentOn);
    if ret != 0 then (d.(clks := cs), evs, ret)
    else
      var (rs, evs', ret') := RegusSetup(d.regus, d.earlyBoot, o);
      (d.(clks := cs, regus := rs), evs + evs', ret')
  }

  function Unbind(d: Dev, o: Oracle): (Dev, seq<HwEvent>) {
    var (rs, evs) := DisableRegus(d.regus, 0, o.reguOff);
    var (cs, evs') := DisableParents(d.clks, 0);
    (d.(clks := cs, regus := rs), evs + evs')
  }

  datatype Op = BindOp(o: Oracle) | UnbindOp(o: Oracle) | MessageOp(msg: Msg, o: Oracle)

  function Apply(d: Dev, op: Op): (Dev, seq<HwEvent>) {
    match op
    case BindOp(o) => (Bind(d, o).0, Bind(d, o).1)
    case UnbindOp(o) => Unbind(d, o)
    case MessageOp(msg, o) =>
      if Contains(d.name, msg.deviceId) then (Serve(d, msg, o).0, Serve(d, msg, o).1) else (d, [])
  }

  /** The device after a run, and every successful kernel call made during it. */
  function Life(d: Dev, ops: seq<Op>): (Dev, seq<HwEvent>) {
    if ops == [] then (d, [])
    else
      var before := Life(d, ops[..|ops| - 1]);
      var (d', evs) := Apply(before.0, ops[|ops| - 1]);
      (d', before.1 + evs)
  }

  /** A message for another device does nothing to this one. */
  lemma NotForIt(d: Dev, msg: Msg, o: Oracle)
    requires forall i :: 0 <= i <= |d.name| ==> !OccursAt(d.name, msg.deviceId, i)
    ensures Apply(d, MessageOp(msg, o)) == (d, [])
  {
  }

  predicate OnlyClocks(evs: seq<HwEvent>) {
    forall i :: 0 <= i < |evs| ==> evs[i].ParentOn? || evs[i].ParentOff?
  }

  predicate OnlyRegus(evs: seq<HwEvent>) {
    forall i :: 0 <= i < |evs| ==> evs[i].ReguOn? || evs[i].ReguOff?
  }

  lemma KindsOfClockCalls(cs: seq<Clk>, i: nat, on: nat -> int)
    requires i <= |cs|
    ensures OnlyClocks(EnableParents(cs, i, on).1) && OnlyClocks(DisableParents(cs, i).1)
    decreases |cs| - i
  {
    if i < |cs| {
      KindsOfClockCalls(if cs[i].parentEnabled then cs else cs[i := cs[i].(parentEnabled := true)], i + 1, on);
      KindsOfClockCalls(if cs[i].parentEnabled then cs[i := cs[i].(parentEnabled := false)] else cs, i + 1, on);
    }
  }

  lemma KindsOfReguCalls(rs: seq<Regu>, i: nat, early: bool, o: Oracle)
    requires i <= |rs|
    ensures OnlyRegus(EnableRegus(rs, i, early, o).1) && OnlyRegus(DisableRegus(rs, i, o.reguOff).1)
    decreases |rs| - i
  {
    if i < |rs| {
      KindsOfReguCalls(rs, i + 1, early, o);
      KindsOfReguCalls(rs[i := rs[i].(enabled := true)], i + 1, early, o);
      KindsOfReguCalls(rs[i := rs[i].(enabled := false)], i + 1, early, o);
    }
  }

  /** A bind works on the clocks first and then on the regulators, an unbind the other way round. */
  lemma OrderOfCalls(d: Dev, o: Oracle)
    ensures exists a, b :: Bind(d, o).1 == a + b && OnlyClocks(a) && OnlyRegus(b)
    ensures exists a, b :: Unbind(d, o).1 == a + b && OnlyRegus(a) && OnlyClocks(b)
  {
    var (cs, evs, _) := EnableParents(d.clks, 0, o.parentOn);
    var (rs, evs', _) := EnableRegus(d.regus, 0, d.earlyBoot, o);
    KindsOfClockCalls(d.clks, 0, o.parentOn);
    KindsOfClockCalls(cs, 0, o.parentOn);
    KindsOfReguCalls(d.regus, 0, d.earlyBoot, o);
    KindsOfReguCalls(rs, 0, d.earlyBoot, o);
    var a, b := ClocksSetup(d.clks, o.parentOn).1, RegusSetup(d.regus, d.earlyBoot, o).1;
    assert OnlyClocks(a) && OnlyRegus(b) && OnlyRegus([]);
    assert Bind(d, o).1 == a + b || Bind(d, o).1 == a + [];
    var c, e := DisableRegus(d.regus, 0, o.reguOff).1, DisableParents(d.clks, 0).1;
    assert Unbind(d, o).1 == c + e;
  }

  // ---- conservation -----------------------------------------------------------------------------------------------

  /** The calls made account for exactly the flags that changed, on clock parent `p` and regulator `k`. */
  predicate Conserves(d: Dev, d': Dev, evs: seq<HwEvent>, p: nat, k: nat) {
    && NetParent(evs, p) == ParentsOn(d'.clks, p) - ParentsOn(d.clks, p)
    && NetRegu(evs, k) == Flag(d'.regus, k) - Flag(d.regus, k)
    && d'.name == d.name && d'.earlyBoot == d.earlyBoot
    && SameClocks(d.clks, d'.clks) && SameRegus(d.regus, d'.regus)
  }

  lemma ClockEventsOnly(cs: seq<Clk>, i: nat, on: nat -> int, k: nat)
    requires i <= |cs|
    ensures NetRegu(EnableParents(cs, i, on).1, k) == 0 && NetRegu(DisableParents(cs, i).1, k) == 0
    decreases |cs| - i
  {
    if i < |cs| {
      ClockEventsOnly(if cs[i].parentEnabled then cs else cs[i := cs[i].(parentEnabled := true)], i + 1, on, k);
      ClockEventsOnly(if cs[i].parentEnabled then cs[i := cs[i].(parentEnabled := false)] else cs, i + 1, on, k);
    }
  }

  lemma ReguEventsOnly(rs: seq<Regu>, i: nat, early: bool, o: Oracle, p: nat)
    requires i <= |rs|
    ensures NetParent(EnableRegus(rs, i, early, o).1, p) == 0 && NetParent(DisableRegus(rs, i, o.reguOff).1, p) == 0
    decreases |rs| - i
  {
    if i < |rs| {
      ReguEventsOnly(rs, i + 1, early, o, p);
      ReguEventsOnly(rs[i := rs[i].(enabled := true)], i + 1, early, o, p);
      ReguEventsOnly(rs[i := rs[i].(enabled := false)], i + 1, early, o, p);
    }
  }

  lemma ClocksSetupSilent(cs: seq<Clk>, on: nat -> int, k: nat)
    ensures NetRegu(ClocksSetup(cs, on).1, k) == 0
  {
    ClockEventsOnly(cs, 0, on, k);
    var (mid, evs, _) := EnableParents(cs, 0, on);
    ClockEventsOnly(mid, 0, on, k);
    NetReguAppend(evs, DisableParents(mid, 0).1, k);
  }

  lemma RegusSetupSilent(rs: seq<Regu>, early: bool, o: Oracle, p: nat)
    ensures NetParent(RegusSetup(rs, early, o).1, p) == 0
  {
    ReguEventsOnly(rs, 0, early, o, p);
    var (mid, evs, _) := EnableRegus(rs, 0, early, o);
    ReguEventsOnly(mid, 0, early, o, p);
    NetParentAppend(evs, DisableRegus(mid, 0, o.reguOff).1, p);
  }

  lemma BindConserves(d: Dev, o: Oracle, p: nat, k: nat)
    ensures Conserves(d, Bind(d, o).0, Bind(d, o).1, p, k)
  {
    ClocksSetupAllOrNothing(d.clks, o.parentOn, p);
    ClocksSetupSilent(d.clks, o.parentOn, k);
    RegusSetupOutcome(d.regus, d.earlyBoot, o, k);
    RegusSetupSilent(d.regus, d.earlyBoot, o, p);
    NetParentAppend(ClocksSetup(d.clks, o.parentOn).1, RegusSetup(d.regus, d.earlyBoot, o).1, p);
    NetReguAppend(ClocksSetup(d.clks, o.parentOn).1, RegusSetup(d.regus, d.earlyBoot, o).1, k);
  }

  lemma UnbindConserves(d: Dev, o: Oracle, p: nat, k: nat)
    ensures Conserves(d, Unbind(d, o).0, Unbind(d, o).1, p, k)
  {
    DisableRegusConserves(d.regus, 0, o.reguOff, k);
    DisableParentsConserves(d.clks, 0, p);
    ReguEventsOnly(d.regus, 0, false, o, p);
    ClockEventsOnly(d.clks, 0, o.parentOn, k);
    NetParentAppend(DisableRegus(d.regus, 0, o.reguOff).1, DisableParents(d.clks, 0).1, p);
    NetReguAppend(DisableRegus(d.regus, 0, o.reguOff).1, DisableParents(d.clks, 0).1, k);
  }

  lemma VoltageSilent(i: nat, cfg: Cfg, o: Oracle, p: nat, k: nat)
    ensures NetParent(ReguSetVoltage(i, cfg, o).0, p) == 0 && NetRegu(ReguSetVoltage(i, cfg, o).0, k) == 0
  {
  }

  lemma ReguSetConserves(rs: seq<Regu>, cfg: Cfg, o: Oracle, p: nat, k: nat)
    ensures var (rs', evs, _) := ReguSetCfg(rs, cfg, o);
            NetRegu(evs, k) == Flag(rs', k) - Flag(rs, k) && NetParent(evs, p) == 0 && SameRegus(rs, rs')
  {
    if FindRegu(rs, cfg).Some? {
      var i := FindRegu(rs, cfg).value;
      VoltageSilent(i, cfg, o, p, k);
      NetReguAppend([ReguOn(i)], ReguSetVoltage(i, cfg, o).0, k);
      NetReguAppend([ReguOff(i)], ReguSetVoltage(i, cfg, o).0, k);
      NetParentAppend([ReguOn(i)], ReguSetVoltage(i, cfg, o).0, p);
      NetParentAppend([ReguOff(i)], ReguSetVoltage(i, cfg, o).0, p);
    }
  }

  lemma ClockSetSilent(cs: seq<Clk>, cfg: Cfg, o: Oracle, p: nat, k: nat)
    ensures NetParent(ClockSetCfg(cs, cfg, o).0, p) == 0 && NetRegu(ClockSetCfg(cs, cfg, o).0, k) == 0
  {
  }

  lemma NothingDone(d: Dev, p: nat, k: nat)
    ensures Conserves(d, d, [], p, k)
  {
  }

  lemma ServeConserves(d: Dev, msg: Msg, o: Oracle, p: nat, k: nat)
    ensures Conserves(d, Serve(d, msg, o).0, Serve(d, msg, o).1, p, k)
  {
    hide ReguSetCfg, SrmMessages.ClockSetCfg, ClockGetCfg, ReguGetCfg, NetParent, NetRegu, ParentsOn;
    ReguSetConserves(d.regus, msg.cfg, o, p, k);
    NothingDone(d, p, k);
    ClockSetSilent(d.clks, msg.cfg, o, p, k);
  }

  lemma ApplyConserves(d: Dev, op: Op, p: nat, k: nat)
    ensures Conserves(d, Apply(d, op).0, Apply(d, op).1, p, k)
  {
    match op
    case BindOp(o) => BindConserves(d, o, p, k);
    case UnbindOp(o) => UnbindConserves(d, o, p, k);
    case MessageOp(msg, o) => ServeConserves(d, msg, o, p, k);
  }

  /** A device as `probe` leaves it: nothing enabled. */
  predicate Fresh(d: Dev) {
    && (forall i :: 0 <= i < |d.clks| ==> !d.clks[i].parentEnabled)
    && (forall i :: 0 <= i < |d.regus| ==> !d.regus[i].enabled)
  }

  lemma {:induction false} FreshHoldsNothing(cs: seq<Clk>, p: nat)
    requires forall i :: 0 <= i < |cs| ==> !cs[i].parentEnabled
    ensures ParentsOn(cs, p) == 0
  {
    if cs != [] {
      FreshHoldsNothing(cs[1..], p);
    }
  }

  /** In every state of every life, whatever has failed: the net enables this device holds on a clock are
      the entries flagged for it, and on a regulator one if it is flagged and none otherwise. */
  lemma {:induction false} EnablesConserved(d: Dev, ops: seq<Op>, p: nat, k: nat)
    requires Fresh(d)
    ensures NetParent(Life(d, ops).1, p) == ParentsOn(Life(d, ops).0.clks, p)
    ensures NetRegu(Life(d, ops).1, k) == Flag(Life(d, ops).0.regus, k)
    ensures SameClocks(d.clks, Life(d, ops).0.clks) && SameRegus(d.regus, Life(d, ops).0.regus)
  {
    if ops == [] {
      FreshHoldsNothing(d.clks, p);
    } else {
      var n := |ops| - 1;
      EnablesConserved(d, ops[..n], p, k);
      var before := Life(d, ops[..n]);
      ApplyConserves(before.0, ops[n], p, k);
      NetParentAppend(before.1, Apply(before.0, ops[n]).1, p);
      NetReguAppend(before.1, Apply(before.0, ops[n]).1, k);
    }
  }

  // ---- binding ----------------------------------------------------------------------------------------------------

  /** A successful bind holds everything. A failed one holds no clock exactly when a clock was what
      failed: if the regulators fail, the clocks stay enabled. */
  lemma BindOutcome(d: Dev, o: Oracle)
    ensures var (d', _, ret) := Bind(d, o);
      && (ret == 0 ==> (forall i :: 0 <= i < |d'.clks| ==> d'.clks[i].parentEnabled)
                       && (forall i :: 0 <= i < |d'.regus| ==> d'.regus[i].enabled || (d.earlyBoot && !o.reguIsOn(i))))
      && (ret != 0 && ClocksSetup(d.clks, o.parentOn).2 != 0 ==>
            (forall i :: 0 <= i < |d'.clks| ==> !d'.clks[i].parentEnabled) && d'.regus == d.regus
            && exists k :: 0 <= k < |d.clks| && !d.clks[k].parentEnabled && o.parentOn(k) == ret)
      && (ret != 0 && ClocksSetup(d.clks, o.parentOn).2 == 0 ==>
            (forall i :: 0 <= i < |d'.clks| ==> d'.clks[i].parentEnabled)
            && (forall i :: 0 <= i < |d'.regus| && d'.regus[i].enabled ==> o.reguOff(i) != 0)
            && exists k :: 0 <= k < |d.regus| && !d.regus[k].enabled && o.reguOn(k) == ret)
  {
    ClocksSetupAllOrNothing(d.clks, o.parentOn, 0);
    RegusSetupOutcome(d.regus, d.earlyBoot, o, 0);
  }

  /** Any life that ends in an unbind ends with no clock held by anyone's count, and with only those
      regulators held whose last disable call failed. */
  lemma EndsReleased(d: Dev, ops: seq<Op>, o: Oracle, p: nat, k: nat)
    requires Fresh(d)
    ensures var (d', evs) := Life(d, ops + [UnbindOp(o)]);
      && NetParent(evs, p) == 0
      && (forall i :: 0 <= i < |d'.clks| ==> !d'.clks[i].parentEnabled)
      && (var regus := Life(d, ops).0.regus;
          NetRegu(evs, k) == if k < |regus| && regus[k].enabled && o.reguOff(k) != 0 then 1 else 0)
  {
    var all := ops + [UnbindOp(o)];
    assert all[..|all| - 1] == ops;
    EnablesConserved(d, all, p, k);
    EnablesConserved(d, ops, p, k);
    DisableParentsAll(Life(d, ops).0.clks, 0);
    FreshHoldsNothing(Life(d, all).0.clks, p);
    DisableRegusOutcome(Life(d, ops).0.regus, 0, o.reguOff);
  }
}
