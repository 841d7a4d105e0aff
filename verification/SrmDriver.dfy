/** The device driver as it runs: list loops that set flags, find entries and fill in messages. `log` records
    the kernel calls that succeeded. */
module SrmDriver {
  import opened Prelude
  import opened SrmResources
  import opened SrmMessages
  import opened SrmChain
  import SrmDevice

  /** The message endpoint; `attempts` are the messages passed to `rpmsg_send`. */
  class Endpoint {
    var attempts: seq<Msg>

    constructor ()
      ensures attempts == []
    {
      attempts := [];
    }

    method Send(msg: Msg, ret: int) returns (r: int)
      modifies this
      ensures attempts == old(attempts) + [msg] && r == ret
    {
      attempts := attempts + [msg];
      return ret;
    }
  }

  class Driver {
    const name: string
    const earlyBoot: bool
    var clks: seq<Clk>
    var regus: seq<Regu>
    ghost var log: seq<HwEvent>

    function State(): Dev
      reads this
    {
      Dev(name, earlyBoot, clks, regus)
    }

    constructor (name: string, earlyBoot: bool, clks: seq<Clk>, regus: seq<Regu>)
      ensures State() == Dev(name, earlyBoot, clks, regus) && log == []
    {
      this.name, this.earlyBoot, this.clks, this.regus := name, earlyBoot, clks, regus;
      log := [];
    }

    method ClocksUnsetup()
      modifies this`clks, this`log
      ensures clks == DisableParents(old(clks), 0).0 && log == old(log) + DisableParents(old(clks), 0).1
    {
      ghost var all := DisableParents(clks, 0);
      for i := 0 to |clks|
        invariant |clks| == |old(clks)|
        invariant all.0 == DisableParents(clks, i).0
        invariant old(log) + all.1 == log + DisableParents(clks, i).1
      {
        if clks[i].parentEnabled {
          ghost var rest := DisableParents(clks, i).1;
          log := log + [ParentOff(clks[i].parent)];
          clks := clks[i := clks[i].(parentEnabled := false)];
          assert rest == [ParentOff(clks[i].parent)] + DisableParents(clks, i + 1).1;
        }
      }
    }

    method ClocksSetup(on: nat -> int) returns (ret: int)
      modifies this`clks, this`log
      ensures var (cs, evs, r) := SrmResources.ClocksSetup(old(clks), on);
              clks == cs && log == old(log) + evs && ret == r
    {
      ghost var all := EnableParents(clks, 0, on);
      for i := 0 to |clks|
        invariant |clks| == |old(clks)|
        invariant (all.0, all.2) == (EnableParents(clks, i, on).0, EnableParents(clks, i, on).2)
        invariant old(log) + all.1 == log + EnableParents(clks, i, on).1
      {
        if !clks[i].parentEnabled {
          ret := on(i);
          if ret != 0 {
            assert log == old(log) + all.1;
            ClocksUnsetup();
            return;
          }
          ghost var rest := EnableParents(clks, i, on).1;
          log := log + [ParentOn(clks[i].parent)];
          clks := clks[i := clks[i].(parentEnabled := true)];
          assert rest == [ParentOn(clks[i].parent)] + EnableParents(clks, i + 1, on).1;
        }
      }
      return 0;
    }

    method RegusUnsetup(off: nat -> int)
      modifies this`regus, this`log
      ensures regus == DisableRegus(old(regus), 0, off).0 && log == old(log) + DisableRegus(old(regus), 0, off).1
    {
      ghost var all := DisableRegus(regus, 0, off);
      for i := 0 to |regus|
        invariant |regus| == |old(regus)|
        invariant all.0 == DisableRegus(regus, i, off).0
        invariant old(log) + all.1 == log + DisableRegus(regus, i, off).1
      {
        if regus[i].enabled && off(i) == 0 {
          ghost var rest := DisableRegus(regus, i, off).1;
          log := log + [ReguOff(i)];
          regus := regus[i := regus[i].(enabled := false)];
          assert rest == [ReguOff(i)] + DisableRegus(regus, i + 1, off).1;
        }
      }
    }

    method RegusSetup(o: Oracle) returns (ret: int)
      modifies this`regus, this`log
      ensures var (rs, evs, r) := SrmResources.RegusSetup(old(regus), earlyBoot, o);
              regus == rs && log == old(log) + evs && ret == r
    {
      ghost var all := EnableRegus(regus, 0, earlyBoot, o);
      for i := 0 to |regus|
        invariant |regus| == |old(regus)|
        invariant (all.0, all.2) == (EnableRegus(regus, i, earlyBoot, o).0, EnableRegus(regus, i, earlyBoot, o).2)
        invariant old(log) + all.1 == log + EnableRegus(regus, i, earlyBoot, o).1
      {
        if regus[i].enabled {
          continue;
        }
        if earlyBoot && !o.reguIsOn(i) {
          continue;
        }
        ret := o.reguOn(i);
        if ret != 0 {
          assert log == old(log) + all.1;
          RegusUnsetup(o.reguOff);
          return;
        }
        ghost var rest := EnableRegus(regus, i, earlyBoot, o).1;
        log := log + [ReguOn(i)];
        regus := regus[i := regus[i].(enabled := true)];
        assert rest == [ReguOn(i)] + EnableRegus(regus, i + 1, earlyBoot, o).1;
      }
      return 0;
    }

    method Bind(o: Oracle) returns (ret: int)
      modifies this
      ensures var (d, evs, r) := SrmDevice.Bind(old(State()), o);
              State() == d && log == old(log) + evs && ret == r
    {
      ret := ClocksSetup(o.parentOn);
      if ret != 0 {
        return;
      }
      ret := RegusSetup(o);
    }

    method Unbind(o: Oracle)
      modifies this
      ensures var (d, evs) := SrmDevice.Unbind(old(State()), o);
              State() == d && log == old(log) + evs
    {
      RegusUnsetup(o.reguOff);
      ClocksUnsetup();
    }

    method ClockFind(cfg: Cfg) returns (r: Option<nat>)
      ensures r == FindClk(clks, cfg)
    {
      for i := 0 to |clks|
        invariant FindClk(clks, cfg) == FindFirst(ClkLabels(clks), cfg, i)
      {
        if cfg.index != U32_MAX {
          if clks[i].index == cfg.index {
            return Some(i);
          }
        } else {
          if clks[i].name == cfg.name {
            return Some(i);
          }
        }
      }
      return None;
    }

    method ReguFind(cfg: Cfg) returns (r: Option<nat>)
      ensures r == FindRegu(regus, cfg)
    {
      for i := 0 to |regus|
        invariant FindRegu(regus, cfg) == FindFirst(ReguLabels(regus), cfg, i)
      {
        if cfg.index != U32_MAX {
          if regus[i].index == cfg.index {
            return Some(i);
          }
        } else {
          if regus[i].name == cfg.name {
            return Some(i);
          }
        }
      }
      return None;
    }

    method ClockSetCfg(cfg: Cfg, o: Oracle) returns (ret: int)
      modifies this`log
      ensures var (evs, r) := SrmMessages.ClockSetCfg(clks, cfg, o);
              log == old(log) + evs && ret == r
    {
      var c := ClockFind(cfg);
      if c.None? {
        return EINVAL;
      }
      if cfg.word != 0 && o.rate(c.value) != cfg.word {
        ret := o.setRate(c.value);
        if ret != 0 {
          return;
        }
        log := log + [RateSet(c.value, cfg.word)];
      }
      return 0;
    }

    method ClockGetCfg(cfg: Cfg, o: Oracle) returns (got: Cfg, ret: int)
      ensures (got, ret) == SrmMessages.ClockGetCfg(clks, cfg, o)
    {
      var c := ClockFind(cfg);
      if c.None? {
        return cfg, EINVAL;
      }
      got := cfg.(name := Truncated(clks[c.value].name));
      got := got.(index := clks[c.value].index);
      got := got.(word := ToWord32(o.rateAfter(c.value)));
      return got, 0;
    }

    method ReguSetCfg(cfg: Cfg, o: Oracle) returns (ret: int)
      modifies this`regus, this`log
      ensures var (rs, evs, r) := SrmMessages.ReguSetCfg(old(regus), cfg, o);
              regus == rs && log == old(log) + evs && ret == r
    {
      var r := ReguFind(cfg);
      if r.None? {
        return EINVAL;
      }
      var k := r.value;
      if !regus[k].enabled && cfg.word != 0 {
        ret := o.reguOn(k);
        if ret != 0 {
          return;
        }
        regus := regus[k := regus[k].(enabled := true)];
        log := log + [ReguOn(k)];
      } else if regus[k].enabled && cfg.word == 0 {
        ret := o.reguOff(k);
        if ret != 0 {
          return;
        }
        regus := regus[k := regus[k].(enabled := false)];
        log := log + [ReguOff(k)];
      }
      if cfg.minMv != 0 || cfg.maxMv != 0 {
        ret := o.setVoltage(k);
        if ret != 0 {
          return;
        }
        log := log + [VoltageSet(k, ToWord32(cfg.minMv * 1000), ToWord32(cfg.maxMv * 1000))];
      }
      return 0;
    }

    method ReguGetCfg(cfg: Cfg, o: Oracle) returns (got: Cfg, ret: int)
      ensures (got, ret) == SrmMessages.ReguGetCfg(regus, cfg, o)
    {
      var r := ReguFind(cfg);
      if r.None? {
        return cfg, EINVAL;
      }
      var k := r.value;
      got := cfg.(name := Truncated(regus[k].name), index := regus[k].index);
      got := got.(word := if regus[k].enabled then 1 else 0, minMv := 0, maxMv := 0);
      var v := o.voltage(k);
      if v < 0 {
        got := got.(currMv := 0);
      } else {
        got := got.(currMv := ToWord32(v / 1000));
      }
      return got, 0;
    }

    /** The device's callback in the chain: a message for another device leaves everything alone. */
    method NotifyCb(ept: Endpoint, msg: Msg, o: Oracle, sendRet: int) returns (code: int)
      modifies this`regus, this`log, ept
      ensures var (d, sent, c) := Notify(old(State()), msg, o, sendRet);
              State() == d && ept.attempts == old(ept.attempts) + sent && code == c
      ensures log == old(log) + (if Contains(name, msg.deviceId) then Serve(old(State()), msg, o).1 else [])
    {
      var out := msg;
      if !Contains(name, msg.deviceId) {
        return NOTIFY_DONE;
      }
      var ret := 0;
      if msg.messageType == MSG_SETCONFIG {
        if msg.rscType == RSC_CLOCK {
          ret := ClockSetCfg(msg.cfg, o);
          if ret == 0 {
            var got, r := ClockGetCfg(msg.cfg, o);
            out, ret := out.(cfg := got), r;
          }
        } else if msg.rscType == RSC_REGU {
          ret := ReguSetCfg(msg.cfg, o);
          if ret == 0 {
            var got, r := ReguGetCfg(msg.cfg, o);
            out, ret := out.(cfg := got), r;
          }
        } else {
          ret := EINVAL;
        }
      } else if msg.messageType == MSG_GETCONFIG {
        if msg.rscType == RSC_CLOCK {
          var got, r := ClockGetCfg(msg.cfg, o);
          out, ret := out.(cfg := got), r;
        } else if msg.rscType == RSC_REGU {
          var got, r := ReguGetCfg(msg.cfg, o);
          out, ret := out.(cfg := got), r;
        } else {
          ret := EINVAL;
        }
      } else {
        ret := EINVAL;
      }
      if ret != 0 {
        out := out.(messageType := MSG_ERROR);
      }
      ret := ept.Send(out, sendRet);
      return if ret != 0 then NOTIFY_BAD else NOTIFY_STOP;
    }
  }

  /** The core's receive callback over the registered devices. */
  method RpmsgCb(chain: seq<Driver>, ept: Endpoint, msg: Msg, o: Oracle, sendRet: int)
    requires forall i, j :: 0 <= i < j < |chain| ==> chain[i] != chain[j]
    modifies chain, ept
    ensures |ept.attempts| == |old(ept.attempts)| + 1 && ept.attempts[..|old(ept.attempts)|] == old(ept.attempts)
    ensures forall k :: 0 <= k < |chain| && Contains(chain[k].name, msg.deviceId)
                        && (forall j :: 0 <= j < k ==> !Contains(chain[j].name, msg.deviceId)) ==>
              chain[k].State() == Serve(old(chain[k].State()), msg, o).0
              && ept.attempts == old(ept.attempts) + [Serve(old(chain[k].State()), msg, o).2]
              && forall j :: 0 <= j < |chain| && j != k ==> chain[j].State() == old(chain[j].State())
    ensures (forall j :: 0 <= j < |chain| ==> !Contains(chain[j].name, msg.deviceId)) ==>
              ept.attempts == old(ept.attempts) + [msg.(messageType := MSG_ERROR)]
              && forall j :: 0 <= j < |chain| ==> chain[j].State() == old(chain[j].State())
  {
    for i := 0 to |chain|
      invariant ept.attempts == old(ept.attempts)
      invariant forall j :: 0 <= j < |chain| ==> chain[j].State() == old(chain[j].State())
      invariant forall j :: 0 <= j < i ==> !Contains(chain[j].name, msg.deviceId)
    {
      var code := chain[i].NotifyCb(ept, msg, o, sendRet);
      if Stops(code) {
        return;
      }
    }
    var error := msg.(messageType := MSG_ERROR);
    var r := ept.Send(error, sendRet);
  }
}
