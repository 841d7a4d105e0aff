/** Messages from the coprocessor: what one device makes of them, and how a chain of devices answers. */
module SrmMessages {
  import opened Prelude
  import opened SrmResources

  const MSG_GETCONFIG: Word32 := 0x00
  const MSG_SETCONFIG: Word32 := 0x01
  const MSG_ERROR: Word32 := 0xFF
  const RSC_CLOCK: Word32 := 0x00
  const RSC_REGU: Word32 := 0x01

  /** Length of the name field of a message, terminator included. */
  const NAME_SIZE: nat := 16

  /** The configuration part of a message. The clock and the regulator form are a union over the same
      bytes: `word` is the rate of the one and the enable field of the other. */
  datatype Cfg = Cfg(index: Word32, name: string, word: Word32, currMv: Word32, minMv: Word32, maxMv: Word32)

  datatype Msg = Msg(messageType: Word32, deviceId: string, rscType: Word32, cfg: Cfg)

  datatype Dev = Dev(name: string, earlyBoot: bool, clks: seq<Clk>, regus: seq<Regu>)

  /** `strscpy` into the name field. */
  function Truncated(name: string): string {
    if |name| < NAME_SIZE then name else name[..NAME_SIZE - 1]
  }

  /** `strstr(hay, needle) != NULL`. */
  predicate Contains(hay: string, needle: string) {
    exists i :: 0 <= i <= |hay| && OccursAt(hay, needle, i)
  }

  // ---- finding a resource -----------------------------------------------------------------------------------------

  /** Does a list entry with this index and name answer to the request? */
  predicate Answers(index: Word32, name: string, cfg: Cfg) {
    if cfg.index != U32_MAX then index == cfg.index else name == cfg.name
  }

  /** What a list entry is found by. */
  datatype Label = Label(index: Word32, name: string)

  function ClkLabels(cs: seq<Clk>): seq<Label> {
    seq(|cs|, i requires 0 <= i < |cs| => Label(cs[i].index, cs[i].name))
  }

  function ReguLabels(rs: seq<Regu>): seq<Label> {
    seq(|rs|, i requires 0 <= i < |rs| => Label(rs[i].index, rs[i].name))
  }

  /** The first entry from `i` on that answers to the request. */
  function FindFirst(ls: seq<Label>, cfg: Cfg, i: nat): (r: Option<nat>)
    requires i <= |ls|
    ensures r.Some? ==> i <= r.value < |ls| && Answers(ls[r.value].index, ls[r.value].name, cfg)
                        && forall j :: i <= j < r.value ==> !Answers(ls[j].index, ls[j].name, cfg)
    ensures r.None? ==> forall j :: i <= j < |ls| ==> !Answers(ls[j].index, ls[j].name, cfg)
    decreases |ls| - i
  {
    if i == |ls| then None
    else if Answers(ls[i].index, ls[i].name, cfg) then Some(i)
    else FindFirst(ls, cfg, i + 1)
  }

  function FindClk(cs: seq<Clk>, cfg: Cfg): Option<nat> {
    FindFirst(ClkLabels(cs), cfg, 0)
  }

  function FindRegu(rs: seq<Regu>, cfg: Cfg): Option<nat> {
    FindFirst(ReguLabels(rs), cfg, 0)
  }

  /** Lists built by the get loops: the stored index is the position. */
  predicate ClksIndexed(cs: seq<Clk>) {
    |cs| <= U32_MAX && forall i :: 0 <= i < |cs| ==> cs[i].index == i
  }

  predicate RegusIndexed(rs: seq<Regu>) {
    |rs| <= U32_MAX && forall i :: 0 <= i < |rs| ==> rs[i].index == i
  }

  // ---- one request ------------------------------------------------------------------------------------------------

  function ClockSetCfg(cs: seq<Clk>, cfg: Cfg, o: Oracle): (seq<HwEvent>, int) {
    match FindClk(cs, cfg)
    case None => ([], EINVAL)
    case Some(k) =>
      if cfg.word == 0 || o.rate(k) == cfg.word then ([], 0)
      else if o.setRate(k) != 0 then ([], o.setRate(k))
      else ([RateSet(k, cfg.word)], 0)
  }

  function ClockGetCfg(cs: seq<Clk>, cfg: Cfg, o: Oracle): (Cfg, int) {
    match FindClk(cs, cfg)
    case None => (cfg, EINVAL)
    case Some(k) => (cfg.(name := Truncated(cs[k].name), index := cs[k].index, word := ToWord32(o.rateAfter(k))), 0)
  }

  function ReguSetVoltage(k: nat, cfg: Cfg, o: Oracle): (seq<HwEvent>, int) {
    if cfg.minMv == 0 && cfg.maxMv == 0 then ([], 0)
    else if o.setVoltage(k) != 0 then ([], o.setVoltage(k))
    else ([VoltageSet(k, ToWord32(cfg.minMv * 1000), ToWord32(cfg.maxMv * 1000))], 0)
  }

  function ReguSetCfg(rs: seq<Regu>, cfg: Cfg, o: Oracle): (seq<Regu>, seq<HwEvent>, int) {
    match FindRegu(rs, cfg)
    case None => (rs, [], EINVAL)
    case Some(k) =>
      if !rs[k].enabled && cfg.word != 0 then
        if o.reguOn(k) != 0 then (rs, [], o.reguOn(k))
        else
          (rs[k := rs[k].(enabled := true)], [ReguOn(k)] + ReguSetVoltage(k, cfg, o).0, ReguSetVoltage(k, cfg, o).1)
      else if rs[k].enabled && cfg.word == 0 then
        if o.reguOff(k) != 0 then (rs, [], o.reguOff(k))
        else
          (rs[k := rs[k].(enabled := false)], [ReguOff(k)] + ReguSetVoltage(k, cfg, o).0, ReguSetVoltage(k, cfg, o).1)
      else (rs, ReguSetVoltage(k, cfg, o).0, ReguSetVoltage(k, cfg, o).1)
  }

  function ReguGetCfg(rs: seq<Regu>, cfg: Cfg, o: Oracle): (Cfg, int) {
    match FindRegu(rs, cfg)
    case None => (cfg, EINVAL)
    case Some(k) =>
      (Cfg(rs[k].index, Truncated(rs[k].name), if rs[k].enabled then 1 else 0,
           if o.voltage(k) < 0 then 0 else ToWord32(o.voltage(k) / 1000), 0, 0), 0)
  }

  /** What a device whose name matches does with a message: its new state, the calls made, the reply. */
  function Serve(d: Dev, msg: Msg, o: Oracle): (Dev, seq<HwEvent>, Msg) {
    if msg.messageType == MSG_SETCONFIG && msg.rscType == RSC_CLOCK then
      var (evs, ret) := ClockSetCfg(d.clks, msg.cfg, o);
      if ret != 0 then (d, evs, msg.(messageType := MSG_ERROR))
      else (d, evs, Reply(msg, ClockGetCfg(d.clks, msg.cfg, o)))
    else if msg.messageType == MSG_SETCONFIG && msg.rscType == RSC_REGU then
      var (rs, evs, ret) := ReguSetCfg(d.regus, msg.cfg, o);
      if ret != 0 then (d.(regus := rs), evs, msg.(messageType := MSG_ERROR))
      else (d.(regus := rs), evs, Reply(msg, ReguGetCfg(rs, msg.cfg, o)))
    else if msg.messageType == MSG_GETCONFIG && msg.rscType == RSC_CLOCK then
      (d, [], Reply(msg, ClockGetCfg(d.clks, msg.cfg, o)))
    else if msg.messageType == MSG_GETCONFIG && msg.rscType == RSC_REGU then
      (d, [], Reply(msg, ReguGetCfg(d.regus, msg.cfg, o)))
    else (d, [], msg.(messageType := MSG_ERROR))
  }

  function Reply(msg: Msg, got: (Cfg, int)): Msg {
    if got.1 != 0 then msg.(cfg := got.0, messageType := MSG_ERROR) else msg.(cfg := got.0)
  }

  /** The first device in the chain, from `i` on, whose name contains the device id. */
  function Addressee(ds: seq<Dev>, id: string, i: nat): (r: nat)
    requires i <= |ds|
    ensures i <= r <= |ds|
    ensures forall j :: i <= j < r ==> !Contains(ds[j].name, id)
    ensures r < |ds| ==> Contains(ds[r].name, id)
    decreases |ds| - i
  {
    if i == |ds| || Contains(ds[i].name, id) then i else Addressee(ds, id, i + 1)
  }

  // ---- lookups agree ----------------------------------------------------------------------------------------------

  /** On indexed lists, searching by index is positional lookup. */
  lemma FindByIndex(cs: seq<Clk>, rs: seq<Regu>, cfg: Cfg)
    requires ClksIndexed(cs) && RegusIndexed(rs) && cfg.index != U32_MAX
    ensures FindClk(cs, cfg) == if cfg.index < |cs| then Some(cfg.index) else None
    ensures FindRegu(rs, cfg) == if cfg.index < |rs| then Some(cfg.index) else None
  {
    FindLabelByIndex(ClkLabels(cs), cfg, 0);
    FindLabelByIndex(ReguLabels(rs), cfg, 0);
  }

  lemma {:induction false} FindLabelByIndex(ls: seq<Label>, cfg: Cfg, i: nat)
    requires forall k :: 0 <= k < |ls| ==> ls[k].index == k
    requires cfg.index != U32_MAX && i <= |ls|
    ensures FindFirst(ls, cfg, i) == if i <= cfg.index < |ls| then Some(cfg.index) else None
    decreases |ls| - i
  {
    if i < |ls| {
      FindLabelByIndex(ls, cfg, i + 1);
    }
  }

  /** A GET by index followed by a GET by the name it returned finds the same entry exactly when the name fits the
      field and no earlier entry has the same name. */
  lemma LabelThenByName(ls: seq<Label>, k: nat, c2: Cfg)
    requires k < |ls| && c2.index == U32_MAX && c2.name == Truncated(ls[k].name)
    ensures FindFirst(ls, c2, 0) == Some(k)
            <==> |ls[k].name| < NAME_SIZE && forall j :: 0 <= j < k ==> ls[j].name != ls[k].name
  {
    if |ls[k].name| < NAME_SIZE && forall j :: 0 <= j < k ==> ls[j].name != ls[k].name {
      assert Answers(ls[k].index, ls[k].name, c2);
      var r := FindFirst(ls, c2, 0);
      assert r.Some? && r.value <= k;
    }
  }

  // ---- SET then GET -----------------------------------------------------------------------------------------------

  /** A SETCONFIG whose set half succeeds is answered without error, by the entry the set half changed;
      for a regulator the reply reports the enable that was asked for. */
  lemma SetThenGet(d: Dev, msg: Msg, o: Oracle)
    requires msg.messageType == MSG_SETCONFIG && (msg.rscType == RSC_CLOCK || msg.rscType == RSC_REGU)
    ensures var (d', _, reply) := Serve(d, msg, o);
      && (msg.rscType == RSC_CLOCK && ClockSetCfg(d.clks, msg.cfg, o).1 == 0 ==>
            reply.messageType == MSG_SETCONFIG && FindClk(d.clks, msg.cfg).Some?
            && reply.cfg.index == d.clks[FindClk(d.clks, msg.cfg).value].index)
      && (msg.rscType == RSC_REGU && ReguSetCfg(d.regus, msg.cfg, o).2 == 0 ==>
            reply.messageType == MSG_SETCONFIG && FindRegu(d.regus, msg.cfg).Some?
            && reply.cfg.index == d.regus[FindRegu(d.regus, msg.cfg).value].index
            && reply.cfg.word == (if msg.cfg.word != 0 then 1 else 0)
            && d'.regus[FindRegu(d.regus, msg.cfg).value].enabled == (msg.cfg.word != 0))
  {
    if msg.rscType == RSC_REGU && ReguSetCfg(d.regus, msg.cfg, o).2 == 0 {
      SameFind(d.regus, ReguSetCfg(d.regus, msg.cfg, o).0, msg.cfg);
    }
  }

  lemma SameFind(a: seq<Regu>, b: seq<Regu>, cfg: Cfg)
    requires SameRegus(a, b)
    ensures FindRegu(a, cfg) == FindRegu(b, cfg)
  {
    forall i | 0 <= i < |a| ensures ReguLabels(a)[i] == ReguLabels(b)[i] {
      assert a[i].(enabled := false) == b[i].(enabled := false);
    }
    assert ReguLabels(a) == ReguLabels(b);
  }

  /** A regulator request can fail after it has already switched the regulator: the reply is an ERROR
      although the flag changed, exactly when the switch succeeded and setting the voltage failed. */
  lemma HalfDoneRequest(rs: seq<Regu>, cfg: Cfg, o: Oracle)
    ensures var (rs', _, ret) := ReguSetCfg(rs, cfg, o);
      ret != 0 && rs' != rs <==>
      FindRegu(rs, cfg).Some?
      && var k := FindRegu(rs, cfg).value;
         && rs[k].enabled != (cfg.word != 0)
         && (if cfg.word != 0 then o.reguOn(k) else o.reguOff(k)) == 0
         && (cfg.minMv != 0 || cfg.maxMv != 0) && o.setVoltage(k) != 0
  {
    if FindRegu(rs, cfg).Some? {
      var k := FindRegu(rs, cfg).value;
      assert rs[k := rs[k].(enabled := true)][k].enabled && !rs[k := rs[k].(enabled := false)][k].enabled;
    }
  }
}
