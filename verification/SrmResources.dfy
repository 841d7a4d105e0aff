/** Clocks and regulators a remote-processor device holds, and what setting them up and down does.
    Every kernel call may fail; what it returns for the i-th list entry is a parameter. */
module SrmResources {
  import opened Prelude

  const U32_MAX: Word32 := 0xFFFF_FFFF
  const EINVAL: int := -22
  const ENOMEM: int := -12

  /** A clock entry; `parent` identifies the clock's parent, which does not change. */
  datatype Clk = Clk(index: Word32, name: string, parent: nat, parentEnabled: bool)

  datatype Regu = Regu(index: Word32, name: string, enabled: bool)

  /** Kernel calls that succeeded in changing something, in order. */
  datatype HwEvent =
    | ParentOn(parent: nat) | ParentOff(parent: nat)
    | ReguOn(entry: nat) | ReguOff(entry: nat)
    | RateSet(entry: nat, rate: Word32)
    | VoltageSet(entry: nat, minUv: Word32, maxUv: Word32)

  /** What each kernel call returns for each entry during one operation. */
  datatype Oracle = Oracle(
    parentOn: nat -> int, reguOn: nat -> int, reguOff: nat -> int, reguIsOn: nat -> bool,
    rate: nat -> nat, setRate: nat -> int, rateAfter: nat -> nat,
    setVoltage: nat -> int, voltage: nat -> int)

  // ---- clocks -----------------------------------------------------------------------------------------------------

  function EnableParents(cs: seq<Clk>, i: nat, on: nat -> int): (seq<Clk>, seq<HwEvent>, int)
    requires i <= |cs|
    decreases |cs| - i
  {
    if i == |cs| then (cs, [], 0)
    else if cs[i].parentEnabled then EnableParents(cs, i + 1, on)
    else if on(i) != 0 then (cs, [], on(i))
    else
      var (cs', evs, ret) := EnableParents(cs[i := cs[i].(parentEnabled := true)], i + 1, on);
      (cs', [ParentOn(cs[i].parent)] + evs, ret)
  }

  function DisableParents(cs: seq<Clk>, i: nat): (seq<Clk>, seq<HwEvent>)
    requires i <= |cs|
    decreases |cs| - i
  {
    if i == |cs| then (cs, [])
    else if !cs[i].parentEnabled then DisableParents(cs, i + 1)
    else
      var (cs', evs) := DisableParents(cs[i := cs[i].(parentEnabled := false)], i + 1);
      (cs', [ParentOff(cs[i].parent)] + evs)
  }

  function ClocksSetup(cs: seq<Clk>, on: nat -> int): (seq<Clk>, seq<HwEvent>, int) {
    var (cs', evs, ret) := EnableParents(cs, 0, on);
    if ret == 0 then (cs', evs, 0)
    else (DisableParents(cs', 0).0, evs + DisableParents(cs', 0).1, ret)
  }

  /** How often this device holds a parent clock, as counted by the calls it made. */
  function NetParent(evs: seq<HwEvent>, p: nat): int {
    if evs == [] then 0
    else (if evs[0] == ParentOn(p) then 1 else if evs[0] == ParentOff(p) then -1 else 0) + NetParent(evs[1..], p)
  }

  /** How many entries with this parent are flagged as enabled. */
  function ParentsOn(cs: seq<Clk>, p: nat): nat {
    if cs == [] then 0
    else (if cs[0].parent == p && cs[0].parentEnabled then 1 else 0) + ParentsOn(cs[1..], p)
  }

  /** The same clocks, apart from their flags. */
  predicate SameClocks(a: seq<Clk>, b: seq<Clk>) {
    |a| == |b| && forall i :: 0 <= i < |a| ==> a[i].(parentEnabled := false) == b[i].(parentEnabled := false)
  }

  lemma {:induction false} NetParentAppend(a: seq<HwEvent>, b: seq<HwEvent>, p: nat)
    ensures NetParent(a + b, p) == NetParent(a, p) + NetParent(b, p)
  {
    if a == [] {
      assert a + b == b;
    } else {
      assert (a + b)[1..] == a[1..] + b;
      NetParentAppend(a[1..], b, p);
    }
  }

  lemma {:induction false} ParentsOnUpdate(cs: seq<Clk>, i: nat, flag: bool, p: nat)
    requires i < |cs|
    ensures ParentsOn(cs[i := cs[i].(parentEnabled := flag)], p)
            == ParentsOn(cs, p) + (if cs[i].parent == p && flag then 1 else 0)
               - (if cs[i].parent == p && cs[i].parentEnabled then 1 else 0)
  {
    var cs' := cs[i := cs[i].(parentEnabled := flag)];
    if i == 0 {
      assert cs'[1..] == cs[1..];
    } else {
      assert cs'[1..] == cs[1..][i - 1 := cs[1..][i - 1].(parentEnabled := flag)];
      ParentsOnUpdate(cs[1..], i - 1, flag, p);
    }
  }

  /** The calls made account for every flag that changed, whatever fails. */
  lemma {:induction false} EnableParentsConserves(cs: seq<Clk>, i: nat, on: nat -> int, p: nat)
    requires i <= |cs|
    ensures var (cs', evs, _) := EnableParents(cs, i, on);
            NetParent(evs, p) == ParentsOn(cs', p) - ParentsOn(cs, p) && SameClocks(cs, cs')
    decreases |cs| - i
  {
    if i < |cs| {
      if cs[i].parentEnabled {
        EnableParentsConserves(cs, i + 1, on, p);
      } else if on(i) == 0 {
        ParentsOnUpdate(cs, i, true, p);
        EnableParentsConserves(cs[i := cs[i].(parentEnabled := true)], i + 1, on, p);
      }
    }
  }

  lemma {:induction false} DisableParentsConserves(cs: seq<Clk>, i: nat, p: nat)
    requires i <= |cs|
    ensures var (cs', evs) := DisableParents(cs, i);
            NetParent(evs, p) == ParentsOn(cs', p) - ParentsOn(cs, p) && SameClocks(cs, cs')
    decreases |cs| - i
  {
    if i < |cs| {
      if cs[i].parentEnabled {
        ParentsOnUpdate(cs, i, false, p);
        DisableParentsConserves(cs[i := cs[i].(parentEnabled := false)], i + 1, p);
      } else {
        DisableParentsConserves(cs, i + 1, p);
      }
    }
  }

  lemma {:induction false} DisableParentsAll(cs: seq<Clk>, i: nat)
    requires i <= |cs| && forall k :: 0 <= k < i ==> !cs[k].parentEnabled
    ensures forall k :: 0 <= k < |DisableParents(cs, i).0| ==> !DisableParents(cs, i).0[k].parentEnabled
    decreases |cs| - i
  {
    if i < |cs| {
      DisableParentsAll(if cs[i].parentEnabled then cs[i := cs[i].(parentEnabled := false)] else cs, i + 1);
    }
  }

  /** Enabling stops at the first entry whose call fails, and returns that call's error. */
  lemma {:induction false} EnableParentsOutcome(cs: seq<Clk>, i: nat, on: nat -> int)
    requires i <= |cs| && forall k :: 0 <= k < i ==> cs[k].parentEnabled
    ensures var (cs', _, ret) := EnableParents(cs, i, on);
      && (ret == 0 ==> (forall k :: 0 <= k < |cs'| ==> cs'[k].parentEnabled)
                       && (forall k :: i <= k < |cs| && !cs[k].parentEnabled ==> on(k) == 0))
      && (ret != 0 ==> exists k :: i <= k < |cs| && !cs[k].parentEnabled && on(k) == ret
                         && forall j :: i <= j < k && !cs[j].parentEnabled ==> on(j) == 0)
    decreases |cs| - i
  {
    if i < |cs| && (cs[i].parentEnabled || on(i) == 0) {
      var next := if cs[i].parentEnabled then cs else cs[i := cs[i].(parentEnabled := true)];
      EnableParentsOutcome(next, i + 1, on);
      var (cs', _, ret) := EnableParents(cs, i, on);
      if ret != 0 {
        var k :| i + 1 <= k < |next| && !next[k].parentEnabled && on(k) == ret
                 && forall j :: i + 1 <= j < k && !next[j].parentEnabled ==> on(j) == 0;
        assert forall j :: i <= j < k && !cs[j].parentEnabled ==> on(j) == 0;
      }
    }
  }

  /** `clocks_setup` leaves every parent enabled on success and none on failure, and its calls balance. */
  lemma ClocksSetupAllOrNothing(cs: seq<Clk>, on: nat -> int, p: nat)
    ensures var (cs', evs, ret) := ClocksSetup(cs, on);
      && SameClocks(cs, cs')
      && NetParent(evs, p) == ParentsOn(cs', p) - ParentsOn(cs, p)
      && (ret == 0 ==> forall k :: 0 <= k < |cs'| ==> cs'[k].parentEnabled)
      && (ret != 0 ==> forall k :: 0 <= k < |cs'| ==> !cs'[k].parentEnabled)
      && (ret == 0 <==> forall k :: 0 <= k < |cs| && !cs[k].parentEnabled ==> on(k) == 0)
      && (ret != 0 ==> exists k :: 0 <= k < |cs| && !cs[k].parentEnabled && on(k) == ret)
  {
    EnableParentsOutcome(cs, 0, on);
    EnableParentsConserves(cs, 0, on, p);
    var (mid, evs, ret) := EnableParents(cs, 0, on);
    if ret != 0 {
      DisableParentsConserves(mid, 0, p);
      DisableParentsAll(mid, 0);
      NetParentAppend(evs, DisableParents(mid, 0).1, p);
    }
  }

  // ---- regulators -------------------------------------------------------------------------------------------------

  function EnableRegus(rs: seq<Regu>, i: nat, early: bool, o: Oracle): (seq<Regu>, seq<HwEvent>, int)
    requires i <= |rs|
    decreases |rs| - i
  {
    if i == |rs| then (rs, [], 0)
    else if rs[i].enabled || (early && !o.reguIsOn(i)) then EnableRegus(rs, i + 1, early, o)
    else if o.reguOn(i) != 0 then (rs, [], o.reguOn(i))
    else
      var (rs', evs, ret) := EnableRegus(rs[i := rs[i].(enabled := true)], i + 1, early, o);
      (rs', [ReguOn(i)] + evs, ret)
  }

  function DisableRegus(rs: seq<Regu>, i: nat, off: nat -> int): (seq<Regu>, seq<HwEvent>)
    requires i <= |rs|
    decreases |rs| - i
  {
    if i == |rs| then (rs, [])
    else if !rs[i].enabled || off(i) != 0 then DisableRegus(rs, i + 1, off)
    else
      var (rs', evs) := DisableRegus(rs[i := rs[i].(enabled := false)], i + 1, off);
      (rs', [ReguOff(i)] + evs)
  }

  function RegusSetup(rs: seq<Regu>, early: bool, o: Oracle): (seq<Regu>, seq<HwEvent>, int) {
    var (rs', evs, ret) := EnableRegus(rs, 0, early, o);
    if ret == 0 then (rs', evs, 0)
    else (DisableRegus(rs', 0, o.reguOff).0, evs + DisableRegus(rs', 0, o.reguOff).1, ret)
  }

  function NetRegu(evs: seq<HwEvent>, i: nat): int {
    if evs == [] then 0
    else (if evs[0] == ReguOn(i) then 1 else if evs[0] == ReguOff(i) then -1 else 0) + NetRegu(evs[1..], i)
  }

  function Flag(rs: seq<Regu>, i: nat): int {
    if i < |rs| && rs[i].enabled then 1 else 0
  }

  predicate SameRegus(a: seq<Regu>, b: seq<Regu>) {
    |a| == |b| && forall i :: 0 <= i < |a| ==> a[i].(enabled := false) == b[i].(enabled := false)
  }

  lemma {:induction false} NetReguAppend(a: seq<HwEvent>, b: seq<HwEvent>, i: nat)
    ensures NetRegu(a + b, i) == NetRegu(a, i) + NetRegu(b, i)
  {
    if a == [] {
      assert a + b == b;
    } else {
      assert (a + b)[1..] == a[1..] + b;
      NetReguAppend(a[1..], b, i);
    }
  }

  lemma {:induction false} EnableRegusConserves(rs: seq<Regu>, i: nat, early: bool, o: Oracle, k: nat)
    requires i <= |rs|
    ensures var (rs', evs, _) := EnableRegus(rs, i, early, o);
            NetRegu(evs, k) == Flag(rs', k) - Flag(rs, k) && SameRegus(rs, rs')
    decreases |rs| - i
  {
    if i < |rs| {
      if rs[i].enabled || (early && !o.reguIsOn(i)) {
        EnableRegusConserves(rs, i + 1, early, o, k);
      } else if o.reguOn(i) == 0 {
        EnableRegusConserves(rs[i := rs[i].(enabled := true)], i + 1, early, o, k);
      }
    }
  }

  lemma {:induction false} DisableRegusConserves(rs: seq<Regu>, i: nat, off: nat -> int, k: nat)
    requires i <= |rs|
    ensures var (rs', evs) := DisableRegus(rs, i, off);
            NetRegu(evs, k) == Flag(rs', k) - Flag(rs, k) && SameRegus(rs, rs')
    decreases |rs| - i
  {
    if i < |rs| {
      if !rs[i].enabled || off(i) != 0 {
        DisableRegusConserves(rs, i + 1, off, k);
      } else {
        DisableRegusConserves(rs[i := rs[i].(enabled := false)], i + 1, off, k);
      }
    }
  }

  /** Exactly the regulators whose disable call fails stay on. */
  lemma {:induction false} DisableRegusOutcome(rs: seq<Regu>, i: nat, off: nat -> int)
    requires i <= |rs|
    ensures var rs' := DisableRegus(rs, i, off).0;
            |rs'| == |rs| && forall k :: 0 <= k < |rs| ==>
              (rs'[k].enabled <==> rs[k].enabled && (k < i || off(k) != 0))
    decreases |rs| - i
  {
    if i < |rs| {
      DisableRegusOutcome(if !rs[i].enabled || off(i) != 0 then rs else rs[i := rs[i].(enabled := false)], i + 1, off);
    }
  }

  lemma {:induction false} EnableRegusOutcome(rs: seq<Regu>, i: nat, early: bool, o: Oracle)
    requires i <= |rs|
    requires forall k :: 0 <= k < i ==> rs[k].enabled || (early && !o.reguIsOn(k))
    ensures var (rs', _, ret) := EnableRegus(rs, i, early, o);
      && (ret == 0 ==> |rs'| == |rs|
                       && (forall k :: 0 <= k < |rs'| ==> rs'[k].enabled || (early && !o.reguIsOn(k)))
                       && (forall k :: 0 <= k < |rs'| && rs'[k].enabled && !rs[k].enabled ==>
                             !(early && !o.reguIsOn(k))))
      && (ret == 0 <==> forall k :: i <= k < |rs| && !rs[k].enabled && !(early && !o.reguIsOn(k)) ==> o.reguOn(k) == 0)
      && (ret != 0 ==> exists k :: i <= k < |rs| && !rs[k].enabled && o.reguOn(k) == ret)
    decreases |rs| - i
  {
    if i < |rs| && (rs[i].enabled || (early && !o.reguIsOn(i)) || o.reguOn(i) == 0) {
      var next := if rs[i].enabled || (early && !o.reguIsOn(i)) then rs else rs[i := rs[i].(enabled := true)];
      EnableRegusOutcome(next, i + 1, early, o);
      assert forall k :: i + 1 <= k < |rs| ==> next[k] == rs[k];
      if EnableRegus(rs, i, early, o).2 != 0 {
        var k :| i + 1 <= k < |rs| && !next[k].enabled && o.reguOn(k) == EnableRegus(rs, i, early, o).2;
        assert !rs[k].enabled;
      }
    }
  }

  /** `regus_setup`: on success every regulator is on, or in early boot was found off and left alone; on
      failure only regulators whose disable call fails are on. */
  lemma RegusSetupOutcome(rs: seq<Regu>, early: bool, o: Oracle, k: nat)
    ensures var (rs', evs, ret) := RegusSetup(rs, early, o);
      && SameRegus(rs, rs')
      && NetRegu(evs, k) == Flag(rs', k) - Flag(rs, k)
      && (ret == 0 ==> forall j :: 0 <= j < |rs'| ==> rs'[j].enabled || (early && !o.reguIsOn(j)))
      && (ret != 0 ==> forall j :: 0 <= j < |rs'| && rs'[j].enabled ==> o.reguOff(j) != 0)
      && (ret == 0 <==> forall j :: 0 <= j < |rs| && !rs[j].enabled && !(early && !o.reguIsOn(j)) ==> o.reguOn(j) == 0)
      && (ret != 0 ==> exists j :: 0 <= j < |rs| && !rs[j].enabled && o.reguOn(j) == ret)
  {
    EnableRegusOutcome(rs, 0, early, o);
    EnableRegusConserves(rs, 0, early, o, k);
    var (mid, evs, ret) := EnableRegus(rs, 0, early, o);
    if ret != 0 {
      DisableRegusConserves(mid, 0, o.reguOff, k);
      DisableRegusOutcome(mid, 0, o.reguOff);
      NetReguAppend(evs, DisableRegus(mid, 0, o.reguOff).1, k);
    }
  }
}
