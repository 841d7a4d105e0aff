/** What a device answers to each message and what it does to the hardware, read off the state before, the message
    and the kernel's results. */
module SrmAnswers {
  import opened Prelude
  import opened SrmResources
  import opened SrmMessages

  // ---- what a reply reports ---------------------------------------------------------------------------------------

  /** `cut` is `name`, or its first 15 characters if it is longer. */
  predicate IsCut(cut: string, name: string) {
    IsPrefix(cut, name) && |cut| == if |name| <= 15 then |name| else 15
  }

  /** Index, name and current rate of the clock, in 32 bits. */
  predicate ReportsClk(cfg: Cfg, c: Clk, rate: nat) {
    && cfg.index == c.index && IsCut(cfg.name, c.name)
    && (cfg.word - rate) % 0x1_0000_0000 == 0
  }

  /** Index, name, enable flag and millivolts of the regulator; a voltage that cannot be read is 0. */
  predicate ReportsRegu(cfg: Cfg, r: Regu, microvolts: int) {
    && cfg.index == r.index && IsCut(cfg.name, r.name)
    && cfg.word == (if r.enabled then 1 else 0)
    && (if microvolts < 0 then cfg.currMv == 0 else (cfg.currMv - microvolts / 1000) % 0x1_0000_0000 == 0)
    && cfg.minMv == 0 && cfg.maxMv == 0
  }

  predicate ClkAnswers(d: Dev, cfg: Cfg, k: nat) {
    k < |d.clks| && if cfg.index != 0xFFFF_FFFF then d.clks[k].index == cfg.index else d.clks[k].name == cfg.name
  }

  predicate ReguAnswers(d: Dev, cfg: Cfg, k: nat) {
    k < |d.regus| && if cfg.index != 0xFFFF_FFFF then d.regus[k].index == cfg.index else d.regus[k].name == cfg.name
  }

  predicate FirstClk(d: Dev, cfg: Cfg, k: nat) {
    ClkAnswers(d, cfg, k) && forall j: nat :: j < k ==> !ClkAnswers(d, cfg, j)
  }

  predicate FirstRegu(d: Dev, cfg: Cfg, k: nat) {
    ReguAnswers(d, cfg, k) && forall j: nat :: j < k ==> !ReguAnswers(d, cfg, j)
  }

  /** A reply keeps the device id and the resource type of its message. */
  predicate Echoes(reply: Msg, msg: Msg) {
    reply.deviceId == msg.deviceId && reply.rscType == msg.rscType
  }

  /** The ERROR reply: type 0xFF, everything else as in the message. */
  predicate IsError(reply: Msg, msg: Msg) {
    Echoes(reply, msg) && reply.messageType == 0xFF && reply.cfg == msg.cfg
  }

  lemma FoundClk(d: Dev, cfg: Cfg)
    ensures match FindClk(d.clks, cfg)
            case Some(k) => FirstClk(d, cfg, k)
            case None => forall k: nat :: !ClkAnswers(d, cfg, k)
  {
    var ls := ClkLabels(d.clks);
    assert forall k: nat :: k < |d.clks| ==> ls[k] == Label(d.clks[k].index, d.clks[k].name);
    assert forall k: nat :: ClkAnswers(d, cfg, k) <==> k < |ls| && Answers(ls[k].index, ls[k].name, cfg);
  }

  lemma FoundRegu(d: Dev, cfg: Cfg)
    ensures match FindRegu(d.regus, cfg)
            case Some(k) => FirstRegu(d, cfg, k)
            case None => forall k: nat :: !ReguAnswers(d, cfg, k)
  {
    var ls := ReguLabels(d.regus);
    assert forall k: nat :: k < |d.regus| ==> ls[k] == Label(d.regus[k].index, d.regus[k].name);
    assert forall k: nat :: ReguAnswers(d, cfg, k) <==> k < |ls| && Answers(ls[k].index, ls[k].name, cfg);
  }

  lemma FirstIs(d: Dev, cfg: Cfg, k: nat)
    ensures FirstClk(d, cfg, k) ==> FindClk(d.clks, cfg) == Some(k)
    ensures FirstRegu(d, cfg, k) ==> FindRegu(d.regus, cfg) == Some(k)
  {
    FoundClk(d, cfg);
    FoundRegu(d, cfg);
  }

  // ---- GETCONFIG (0) ----------------------------------------------------------------------------------------------

  /** Nothing is done to the device or the hardware. The reply is of the same type, and reports the first clock that
      answers to the request, exactly when there is one. */
  lemma GetClock(d: Dev, msg: Msg, o: Oracle)
    requires msg.messageType == 0 && msg.rscType == 0
    ensures var (d', evs, reply) := Serve(d, msg, o);
      && d' == d && evs == []
      && (reply.messageType == 0 <==> exists k: nat :: ClkAnswers(d, msg.cfg, k))
      && (reply.messageType != 0 ==> IsError(reply, msg))
      && (forall k: nat :: FirstClk(d, msg.cfg, k) ==>
            Echoes(reply, msg) && ReportsClk(reply.cfg, d.clks[k], o.rateAfter(k)))
  {
    FoundClk(d, msg.cfg);
    CutName(d);
  }

  /** The same for a regulator. */
  lemma GetRegulator(d: Dev, msg: Msg, o: Oracle)
    requires msg.messageType == 0 && msg.rscType == 1
    ensures var (d', evs, reply) := Serve(d, msg, o);
      && d' == d && evs == []
      && (reply.messageType == 0 <==> exists k: nat :: ReguAnswers(d, msg.cfg, k))
      && (reply.messageType != 0 ==> IsError(reply, msg))
      && (forall k: nat :: FirstRegu(d, msg.cfg, k) ==>
            Echoes(reply, msg) && ReportsRegu(reply.cfg, d.regus[k], o.voltage(k)))
  {
    FoundRegu(d, msg.cfg);
    CutName(d);
  }

  lemma CutName(d: Dev)
    ensures forall k :: 0 <= k < |d.clks| ==> IsCut(Truncated(d.clks[k].name), d.clks[k].name)
    ensures forall k :: 0 <= k < |d.regus| ==> IsCut(Truncated(d.regus[k].name), d.regus[k].name)
  {
  }

  // ---- SETCONFIG (1) ----------------------------------------------------------------------------------------------

  /** Is a rate asked for that the clock does not have? */
  predicate RateWanted(msg: Msg, o: Oracle, k: nat) {
    msg.cfg.word != 0 && o.rate(k) != msg.cfg.word
  }

  /** One rate call goes to the clock found, with the requested rate, if and only if that rate is not zero, is not the
      current one, and the call succeeds. The reply is an ERROR if and only if no clock answers or the call that is
      needed fails; nothing has been done then. Otherwise it reports that clock as it is afterwards. */
  lemma SetClock(d: Dev, msg: Msg, o: Oracle, k: nat)
    requires msg.messageType == 1 && msg.rscType == 0
    ensures var (d', evs, reply) := Serve(d, msg, o);
      && d' == d
      && ((forall j: nat :: !ClkAnswers(d, msg.cfg, j)) ==> evs == [] && IsError(reply, msg))
      && (FirstClk(d, msg.cfg, k) ==>
            if RateWanted(msg, o, k) && o.setRate(k) != 0 then evs == [] && IsError(reply, msg)
            else
              && evs == (if RateWanted(msg, o, k) then [RateSet(k, msg.cfg.word)] else [])
              && reply.messageType == 1 && Echoes(reply, msg) && ReportsClk(reply.cfg, d.clks[k], o.rateAfter(k)))
  {
    hide FindClk;
    FoundClk(d, msg.cfg);
    if FirstClk(d, msg.cfg, k) {
      FirstIs(d, msg.cfg, k);
      CutName(d);
      assert IsCut(Truncated(d.clks[k].name), d.clks[k].name);
    }
    hide ClkAnswers, IsCut, Truncated;
  }

  /** Must the regulator be switched, and what does the call return? */
  predicate SwitchWanted(d: Dev, msg: Msg, k: nat)
    requires k < |d.regus|
  {
    d.regus[k].enabled != (msg.cfg.word != 0)
  }

  function SwitchResult(msg: Msg, o: Oracle, k: nat): int {
    if msg.cfg.word != 0 then o.reguOn(k) else o.reguOff(k)
  }

  predicate VoltageWanted(msg: Msg) {
    msg.cfg.minMv != 0 || msg.cfg.maxMv != 0
  }

  /** Lower bound, upper bound, in microvolts as the kernel's 32-bit integers hold them. */
  predicate AsksVoltage(e: HwEvent, msg: Msg, k: nat) {
    && e.VoltageSet? && e.entry == k
    && (e.minUv - 1000 * msg.cfg.minMv) % 0x1_0000_0000 == 0
    && (e.maxUv - 1000 * msg.cfg.maxMv) % 0x1_0000_0000 == 0
  }

  /** What a regulator request does to the hardware: the switch if the flag differs, then the voltage if bounds are
      given; `switched` and `volted` say whether they succeed. */
  predicate ReguCalls(evs: seq<HwEvent>, msg: Msg, k: nat, switched: bool, volted: bool) {
    && |evs| == (if switched then 1 else 0) + (if volted then 1 else 0)
    && (switched ==> evs[0] == if msg.cfg.word != 0 then ReguOn(k) else ReguOff(k))
    && (volted ==> AsksVoltage(evs[|evs| - 1], msg, k))
  }

  /** No regulator answers, or it must be switched and cannot be: an ERROR, and nothing has been done. Otherwise its
      flag is what was asked for; the voltage is set if bounds are given; if that fails the reply is an ERROR all the
      same, else it reports the regulator as it now is. */
  lemma SetRegulator(d: Dev, msg: Msg, o: Oracle, k: nat)
    requires msg.messageType == 1 && msg.rscType == 1
    ensures var (d', evs, reply) := Serve(d, msg, o);
      && ((forall j: nat :: !ReguAnswers(d, msg.cfg, j)) ==> d' == d && evs == [] && IsError(reply, msg))
      && (FirstRegu(d, msg.cfg, k) ==>
            if SwitchWanted(d, msg, k) && SwitchResult(msg, o, k) != 0 then d' == d && evs == [] && IsError(reply, msg)
            else
              && d' == d.(regus := d.regus[k := d.regus[k].(enabled := msg.cfg.word != 0)])
              && ReguCalls(evs, msg, k, SwitchWanted(d, msg, k), VoltageWanted(msg) && o.setVoltage(k) == 0)
              && (if VoltageWanted(msg) && o.setVoltage(k) != 0 then IsError(reply, msg)
                  else
                    && reply.messageType == 1 && Echoes(reply, msg)
                    && ReportsRegu(reply.cfg, d'.regus[k], o.voltage(k))))
  {
    hide FindRegu, IsCut, Truncated, ReguCalls;
    if FirstRegu(d, msg.cfg, k) {
      FirstIs(d, msg.cfg, k);
      ReguSet(d, msg, o, k);
      SameFind(d.regus, ReguSetCfg(d.regus, msg.cfg, o).0, msg.cfg);
      hide ReguSetCfg, ReguAnswers, SwitchWanted;
      CutName(Serve(d, msg, o).0);
    } else {
      FoundRegu(d, msg.cfg);
    }
  }

  /** The set half. */
  lemma ReguSet(d: Dev, msg: Msg, o: Oracle, k: nat)
    requires k < |d.regus| && FindRegu(d.regus, msg.cfg) == Some(k)
    ensures var (rs, evs, ret) := ReguSetCfg(d.regus, msg.cfg, o);
      && SameRegus(d.regus, rs)
      && if SwitchWanted(d, msg, k) && SwitchResult(msg, o, k) != 0 then rs == d.regus && evs == [] && ret != 0
         else
           && rs == d.regus[k := d.regus[k].(enabled := msg.cfg.word != 0)]
           && ReguCalls(evs, msg, k, SwitchWanted(d, msg, k), VoltageWanted(msg) && o.setVoltage(k) == 0)
           && (ret != 0 <==> VoltageWanted(msg) && o.setVoltage(k) != 0)
  {
    hide FindRegu;
    assert !SwitchWanted(d, msg, k) ==> d.regus[k := d.regus[k].(enabled := msg.cfg.word != 0)] == d.regus;
  }

  /** Any other type of message or of resource is an ERROR, and nothing is done. */
  lemma OtherMessages(d: Dev, msg: Msg, o: Oracle)
    requires msg.messageType > 1 || msg.rscType > 1
    ensures var (d', evs, reply) := Serve(d, msg, o); d' == d && evs == [] && IsError(reply, msg)
  {
  }

  // ---- two messages, one after the other ----------------------------------------------------------------------------

  predicate Indexed(d: Dev) {
    ClksIndexed(d.clks) && RegusIndexed(d.regus)
  }

  /** A GET by any means that is answered, followed by a GET by the index it returned, reports the same resource. */
  lemma GetThenByIndex(d: Dev, m1: Msg, m2: Msg, o: Oracle)
    requires Indexed(d) && m1.messageType == 0 == m2.messageType && m1.rscType == m2.rscType
    requires var r1 := Serve(d, m1, o).2; r1.messageType == 0 && m2.cfg.index == r1.cfg.index
    ensures var r1, r2 := Serve(d, m1, o).2, Serve(d, m2, o).2;
      && r2.messageType == 0 && r2.cfg.index == r1.cfg.index && r2.cfg.name == r1.cfg.name && r2.cfg.word == r1.cfg.word
  {
    FindByIndex(d.clks, d.regus, m2.cfg);
  }

  /** A GET by index followed by a GET by the name it returned reports the same clock exactly when that clock's name
      has at most 15 characters and no earlier clock has the same name. */
  lemma GetThenByName(d: Dev, m1: Msg, m2: Msg, o: Oracle)
    requires Indexed(d) && m1.messageType == 0 == m2.messageType && m1.rscType == 0 == m2.rscType
    requires m1.cfg.index < |d.clks| && m2.cfg.index == 0xFFFF_FFFF && m2.cfg.name == Serve(d, m1, o).2.cfg.name
    ensures var k, r2 := m1.cfg.index, Serve(d, m2, o).2;
      r2.messageType == 0 && r2.cfg.index == k
      <==> |d.clks[k].name| <= 15 && forall j :: 0 <= j < k ==> d.clks[j].name != d.clks[k].name
  {
    FindByIndex(d.clks, d.regus, m1.cfg);
    var ls, k := ClkLabels(d.clks), m1.cfg.index;
    LabelThenByName(ls, k, m2.cfg);
    assert forall j :: 0 <= j < |d.clks| ==> ls[j].name == d.clks[j].name;
    assert forall j :: 0 <= j < |d.clks| ==> d.clks[j].name == ls[j].name;
  }

  /** The same for a regulator. */
  lemma ReguThenByName(d: Dev, m1: Msg, m2: Msg, o: Oracle)
    requires Indexed(d) && m1.messageType == 0 == m2.messageType && m1.rscType == 1 == m2.rscType
    requires m1.cfg.index < |d.regus| && m2.cfg.index == 0xFFFF_FFFF && m2.cfg.name == Serve(d, m1, o).2.cfg.name
    ensures var k, r2 := m1.cfg.index, Serve(d, m2, o).2;
      r2.messageType == 0 && r2.cfg.index == k
      <==> |d.regus[k].name| <= 15 && forall j :: 0 <= j < k ==> d.regus[j].name != d.regus[k].name
  {
    FindByIndex(d.clks, d.regus, m1.cfg);
    var ls, k := ReguLabels(d.regus), m1.cfg.index;
    LabelThenByName(ls, k, m2.cfg);
    assert forall j :: 0 <= j < |d.regus| ==> ls[j].name == d.regus[j].name;
    assert forall j :: 0 <= j < |d.regus| ==> d.regus[j].name == ls[j].name;
  }
}
