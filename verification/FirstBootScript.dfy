/** The script itself, running on a board whose power may fail. */
module FirstBootScript {
  import opened FirstBoot

  /** From state `m` with `steps` ahead, state `m1` is reached when only `steps1` are left. */
  ghost predicate Reached(m: Machine, steps: seq<Step>, m1: Machine, steps1: seq<Step>) {
    && |steps1| <= |steps|
    && steps1 == steps[|steps| - |steps1|..]
    && m1 == After(m, steps[..|steps| - |steps1|])
  }

  class Board {
    var table: map<nat, string>
    var fs: FileSystem
    var kernel: set<nat>
    var mounted: bool
    var cache: set<string>
    /** How the commands to come turn out, and when the power fails. */
    var ahead: seq<Step>
    /** The command at hand. */
    var at: Command

    ghost function State(): Machine
      reads this
    {
      Machine(Disk(table, fs), kernel, mounted, cache, at)
    }

    /** From state `m` with `steps` ahead, one step has been made, unless none was left. */
    ghost predicate Stepped(m: Machine, steps: seq<Step>)
      reads this
    {
      if steps == [] then ahead == [] && State() == m
      else ahead == steps[1..] && State() == Next(m, steps[0])
    }

    /** From state `m` with `steps` ahead, the steps no longer ahead have been made. */
    ghost predicate Follows(m: Machine, steps: seq<Step>)
      reads this
    {
      Reached(m, steps, State(), ahead)
    }

    /** No script is running: the steps are used up, or the board is off, up, or has given up. */
    ghost predicate AtRest()
      reads this
    {
      ahead == [] || at == Off || at == Init || at == Halted
    }

    constructor (d: Disk, steps: seq<Step>)
      ensures State() == PoweredOff(d) && ahead == steps
    {
      table, fs := d.table, d.fs;
      kernel, mounted, cache := {}, false, {};
      ahead := steps;
      at := Off;
    }

    /** What the next step brings. Losing power ends whatever runs. */
    method Turn() returns (powered: bool, fails: bool, added: set<string>)
      modifies this
      ensures powered == (old(ahead) != [] && old(ahead)[0].Run?)
      ensures powered ==> old(ahead)[0] == Run(fails, added) && State() == old(State()) && ahead == old(ahead)[1..]
      ensures !powered ==> Stepped(old(State()), old(ahead)) && (ahead == [] || at == Off)
    {
      powered, fails, added := false, false, {};
      if ahead == [] {
        return;
      }
      var step := ahead[0];
      ahead := ahead[1..];
      match step {
        case Run(f, a) =>
          powered, fails, added := true, f, a;
        case PowerLoss(kept, left) =>
          if at == FinishMkfs {
            fs := left;
          } else if mounted && fs.F2fs? {
            fs := F2fs(fs.dirs + kept * cache);
          }
          kernel, mounted, cache := {}, false, {};
          at := Off;
      }
    }

    /** Give up, as `set -e` does. */
    method GiveUp()
      modifies this`at
      ensures at == Halted
    {
      at := Halted;
    }

    // The commands. `ok` tells the script to go on.

    method SgdiskFixBackup() returns (ok: bool)
      requires at == FixBackup
      modifies this
      ensures Stepped(old(State()), old(ahead))
      ensures if ok then at == CreatePartition else AtRest()
    {
      var powered, fails, added := Turn();
      ok := powered && !fails;
      if ok {
        at := CreatePartition;
      } else if powered {
        GiveUp();
      }
    }

    method SgdiskCreate() returns (ok: bool)
      requires at == CreatePartition
      modifies this
      ensures Stepped(old(State()), old(ahead))
      ensures if ok then at == FirstBoot.Reboot else AtRest()
    {
      var powered, fails, added := Turn();
      ok := powered && !fails && USER !in table;
      if ok {
        table := table[USER := RAW];
        at := FirstBoot.Reboot;
      } else if powered {
        GiveUp();
      }
    }

    method ForceReboot()
      requires at == FirstBoot.Reboot
      modifies this
      ensures Stepped(old(State()), old(ahead)) && AtRest()
    {
      var powered, fails, added := Turn();
      if powered && !fails {
        kernel, mounted, cache := {}, false, {};
        at := Off;
      } else if powered {
        GiveUp();
      }
    }

    /** Writing a file system takes time, so power may fail while it is half done. */
    method Mkfs() returns (ok: bool)
      requires at == StartMkfs
      modifies this
      ensures Follows(old(State()), old(ahead))
      ensures if ok then at == MountNew else AtRest()
    {
      ghost var m, steps := State(), ahead;
      var powered, fails, added := Turn();
      ok := powered && !fails && USER in kernel;
      if ok {
        fs := Torn;
        at := FinishMkfs;
      } else if powered {
        GiveUp();
      }
      assert Stepped(m, steps);
      FirstStep(m, steps);
      if !ok {
        return;
      }
      ghost var m1, steps1 := State(), ahead;
      powered, fails, added := Turn();
      ok := powered && !fails;
      if ok {
        fs := F2fs({});
        at := MountNew;
      } else if powered {
        GiveUp();
      }
      assert Stepped(m1, steps1);
      OneMore(m, steps, m1, steps1);
    }

    /** `mount_userdata` */
    method MountUserdata() returns (ok: bool)
      requires at == MountNew || at == MountUser
      modifies this
      ensures Stepped(old(State()), old(ahead))
      ensures if ok then at == (if old(at) == MountNew then MakeDir(0) else MountEtc) else AtRest()
    {
      var powered, fails, added := Turn();
      ok := powered && !fails && USER in kernel && fs.F2fs?;
      if ok {
        mounted, cache := true, fs.dirs;
        at := if at == MountNew then MakeDir(0) else MountEtc;
      } else if powered {
        GiveUp();
      }
    }

    method Mkdir(i: nat) returns (ok: bool)
      requires i < |DIRS| && at == MakeDir(i)
      modifies this
      ensures Stepped(old(State()), old(ahead))
      ensures if ok then at == (if i + 1 < |DIRS| then MakeDir(i + 1) else RunHooks) else AtRest()
    {
      var powered, fails, added := Turn();
      ok := powered && !fails;
      if ok {
        cache := cache + {DIRS[i]};
        at := if i + 1 < |DIRS| then MakeDir(i + 1) else RunHooks;
      } else if powered {
        GiveUp();
      }
    }

    method FormatHooks() returns (ok: bool)
      requires at == RunHooks
      modifies this
      ensures Stepped(old(State()), old(ahead))
      ensures if ok then at == FirstBoot.Unmount else AtRest()
    {
      var powered, fails, added := Turn();
      ok := powered && !fails;
      if ok {
        cache := cache + added;
        at := FirstBoot.Unmount;
      } else if powered {
        GiveUp();
      }
    }

    method Umount() returns (ok: bool)
      requires at == FirstBoot.Unmount
      modifies this
      ensures Stepped(old(State()), old(ahead))
      ensures if ok then at == FirstBoot.Rename else AtRest()
    {
      var powered, fails, added := Turn();
      ok := powered && !fails;
      if ok {
        fs := F2fs(cache);
        mounted := false;
        at := FirstBoot.Rename;
      } else if powered {
        GiveUp();
      }
    }

    method SgdiskRename() returns (ok: bool)
      requires at == FirstBoot.Rename
      modifies this
      ensures Stepped(old(State()), old(ahead))
      ensures if ok then at == FirstBoot.Partprobe else AtRest()
    {
      var powered, fails, added := Turn();
      ok := powered && !fails && USER in table;
      if ok {
        table := table[USER := NAMED];
        at := FirstBoot.Partprobe;
      } else if powered {
        GiveUp();
      }
    }

    method Partprobe() returns (ok: bool)
      requires at == FirstBoot.Partprobe
      modifies this
      ensures Stepped(old(State()), old(ahead))
      ensures if ok then at == MountUser else AtRest()
    {
      var powered, fails, added := Turn();
      ok := powered && !fails;
      if ok {
        kernel := table.Keys;
        at := MountUser;
      } else if powered {
        GiveUp();
      }
    }

    /** `mount_overlays` */
    method MountOverlays() returns (ok: bool)
      requires at == MountEtc
      modifies this
      ensures Stepped(old(State()), old(ahead))
      ensures if ok then at == StartInit else AtRest()
    {
      var powered, fails, added := Turn();
      ok := powered && !fails && DIRS[0] in cache && DIRS[1] in cache;
      if ok {
        at := StartInit;
      } else if powered {
        GiveUp();
      }
    }

    method ExecInit()
      requires at == StartInit
      modifies this
      ensures Stepped(old(State()), old(ahead)) && AtRest()
    {
      var powered, fails, added := Turn();
      if powered {
        at := Init;
      }
    }

    // The script's functions.

    /** `init_userdata_part` */
    method InitUserdataPart()
      requires at == FixBackup
      modifies this
      ensures Follows(old(State()), old(ahead)) && AtRest()
    {
      hide Reached, Next;
      ghost var m, steps := State(), ahead;
      var ok := SgdiskFixBackup();
      FirstStep(m, steps);
      if !ok {
        return;
      }
      ghost var m1, steps1 := State(), ahead;
      ok := SgdiskCreate();
      OneMore(m, steps, m1, steps1);
      if !ok {
        return;
      }
      m1, steps1 := State(), ahead;
      ForceReboot();
      OneMore(m, steps, m1, steps1);
    }

    /** The nine `mkdir` commands. */
    method MakeSkeleton() returns (ok: bool)
      requires at == MakeDir(0)
      modifies this
      ensures Follows(old(State()), old(ahead))
      ensures if ok then at == RunHooks else AtRest()
    {
      ghost var m, steps := State(), ahead;
      ok := true;
      var i := 0;
      NoStep(m, steps);
      while ok && i < |DIRS|
        invariant 0 <= i <= |DIRS|
        invariant Follows(m, steps)
        invariant if ok then at == (if i < |DIRS| then MakeDir(i) else RunHooks) else AtRest()
        decreases |DIRS| - i
      {
        ghost var m1, steps1 := State(), ahead;
        ok := Mkdir(i);
        OneMore(m, steps, m1, steps1);
        i := i + 1;
      }
    }

    /** `init_userdata_format` */
    method InitUserdataFormat() returns (ok: bool)
      requires at == StartMkfs
      modifies this
      ensures Follows(old(State()), old(ahead))
      ensures if ok then at == MountUser else AtRest()
    {
      hide Reached, Next, AnyRaw;
      ghost var m, steps := State(), ahead;
      ok := Mkfs();
      if !ok {
        return;
      }
      ghost var m1, steps1 := State(), ahead;
      ok := MountUserdata();
      OneMore(m, steps, m1, steps1);
      if !ok {
        return;
      }
      m1, steps1 := State(), ahead;
      ok := MakeSkeleton();
      Joined(m, steps, m1, steps1);
      if !ok {
        return;
      }
      m1, steps1 := State(), ahead;
      ok := FinishFormat();
      Joined(m, steps, m1, steps1);
    }

    /** The end of `init_userdata_format`, from the hooks on. */
    method FinishFormat() returns (ok: bool)
      requires at == RunHooks
      modifies this
      ensures Follows(old(State()), old(ahead))
      ensures if ok then at == MountUser else AtRest()
    {
      hide Reached, Next, AnyRaw;
      ghost var m, steps := State(), ahead;
      ok := FormatHooks();
      FirstStep(m, steps);
      if !ok {
        return;
      }
      ghost var m1, steps1 := State(), ahead;
      ok := Umount();
      OneMore(m, steps, m1, steps1);
      if !ok {
        return;
      }
      m1, steps1 := State(), ahead;
      ok := SgdiskRename();
      OneMore(m, steps, m1, steps1);
      if !ok {
        return;
      }
      m1, steps1 := State(), ahead;
      ok := Partprobe();
      OneMore(m, steps, m1, steps1);
    }

    /** The last lines of the script: mount, then init. */
    method StartSystem()
      requires at == MountUser
      modifies this
      ensures Follows(old(State()), old(ahead)) && AtRest()
    {
      hide Reached;
      ghost var m, steps := State(), ahead;
      var ok := MountUserdata();
      FirstStep(m, steps);
      if !ok {
        return;
      }
      ghost var m1, steps1 := State(), ahead;
      ok := MountOverlays();
      OneMore(m, steps, m1, steps1);
      if !ok {
        return;
      }
      m1, steps1 := State(), ahead;
      ExecInit();
      OneMore(m, steps, m1, steps1);
    }

    /** Counting the partitions; `ok` when there are enough. */
    method EnoughPartitions() returns (ok: bool)
      requires at == CountPartitions
      modifies this
      ensures Stepped(old(State()), old(ahead))
      ensures if ok then at == CheckRaw else at == FixBackup || AtRest()
    {
      var powered, fails, added := Turn();
      ok := false;
      if powered {
        if |table| == 0 {
          GiveUp();
        } else if |table| < NUM_DESIRED {
          at := FixBackup;
        } else {
          at := CheckRaw;
          ok := true;
        }
      }
    }

    /** Looking for a raw partition. */
    method Check()
      requires at == CheckRaw
      modifies this
      ensures Stepped(old(State()), old(ahead))
      ensures at == StartMkfs || at == MountUser || AtRest()
    {
      var powered, fails, added := Turn();
      if powered {
        at := if AnyRaw(table) then StartMkfs else MountUser;
      }
    }

    /** The script from its first to its last line. */
    method Script()
      requires at == CountPartitions
      modifies this
      ensures Follows(old(State()), old(ahead)) && AtRest()
    {
      hide Reached, Next, AnyRaw;
      ghost var m, steps := State(), ahead;
      var enough := EnoughPartitions();
      FirstStep(m, steps);
      if at == FixBackup {
        ghost var m1, steps1 := State(), ahead;
        InitUserdataPart();
        Joined(m, steps, m1, steps1);
      }
      if !enough {
        return;
      }
      ghost var m1, steps1 := State(), ahead;
      Check();
      OneMore(m, steps, m1, steps1);
      if at == StartMkfs {
        m1, steps1 := State(), ahead;
        var ok := InitUserdataFormat();
        Joined(m, steps, m1, steps1);
      }
      if at == MountUser {
        m1, steps1 := State(), ahead;
        StartSystem();
        Joined(m, steps, m1, steps1);
      }
    }

    /** Power on, boot, run, crash, again and again until the steps are used up. */
    method Live()
      requires at == Off
      modifies this
      ensures ahead == [] && State() == After(old(State()), old(ahead))
    {
      hide After;
      ghost var m, steps := State(), ahead;
      NoStep(m, steps);
      while ahead != []
        invariant Follows(m, steps) && AtRest()
        decreases |ahead|
      {
        ghost var m1, steps1 := State(), ahead;
        var powered, fails, added := Turn();
        if powered {
          if at == Off {
            kernel, mounted, cache := table.Keys, false, {};
            at := CountPartitions;
          } else if at == Init {
            cache := cache + added;
          }
        }
        assert Stepped(m1, steps1);
        OneMore(m, steps, m1, steps1);
        if at == CountPartitions {
          m1, steps1 := State(), ahead;
          Script();
          Joined(m, steps, m1, steps1);
        }
      }
      assert steps[..|steps|] == steps;
    }

    // How runs are put together.

    lemma NoStep(m: Machine, steps: seq<Step>)
      requires State() == m && ahead == steps
      ensures Follows(m, steps)
    {
      assert steps[..0] == [];
    }

    lemma FirstStep(m: Machine, steps: seq<Step>)
      requires Stepped(m, steps)
      ensures Follows(m, steps)
    {
      if steps != [] {
        assert steps[..1][..0] == [];
      }
    }

    lemma OneMore(m: Machine, steps: seq<Step>, m1: Machine, steps1: seq<Step>)
      requires Reached(m, steps, m1, steps1)
      requires Stepped(m1, steps1)
      ensures Follows(m, steps)
    {
      var n := |steps| - |steps1|;
      if steps1 != [] {
        assert steps[..n + 1][..n] == steps[..n];
      }
    }

    lemma Joined(m: Machine, steps: seq<Step>, m1: Machine, steps1: seq<Step>)
      requires Reached(m, steps, m1, steps1)
      requires Follows(m1, steps1)
      ensures Follows(m, steps)
    {
      ReachedJoined(m, steps, m1, steps1, State(), ahead);
    }
  }

  lemma ReachedJoined(m: Machine, steps: seq<Step>, m1: Machine, steps1: seq<Step>, m2: Machine, steps2: seq<Step>)
    requires Reached(m, steps, m1, steps1) && Reached(m1, steps1, m2, steps2)
    ensures Reached(m, steps, m2, steps2)
  {
    hide After, Next;
    var n, k := |steps| - |steps1|, |steps1| - |steps2|;
    assert steps[..n + k] == steps[..n] + steps1[..k];
    AfterJoined(m, steps[..n], steps1[..k]);
  }

  lemma {:induction false} AfterJoined(m: Machine, first: seq<Step>, second: seq<Step>)
    ensures After(m, first + second) == After(After(m, first), second)
  {
    if second == [] {
      assert first + second == first;
    } else {
      var n := |second| - 1;
      assert (first + second)[..|first + second| - 1] == first + second[..n];
      AfterJoined(m, first, second[..n]);
    }
  }
}
