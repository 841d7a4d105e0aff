/** The first-boot script as a state machine, one command per step, with power that may fail after any of them. */
module FirstBoot {
  import opened Prelude


  /** The partition the script creates, formats and mounts, and how many there should be. */
  const USER: nat := 8
  const NUM_DESIRED: nat := 8

  const RAW: string := "userdata-raw"
  const NAMED: string := "userdata"

  /** Directories created after formatting, in order; the first two carry the /etc overlay. */
  const DIRS: seq<string> := [
    "overlay/etc", "overlay/.etc-work", "overlay/usr/etc", "overlay/.usr-etc-work", "overlay/home",
    "overlay/.home-work", "logs", "logs/system", "overlay/.var-log-work"]

  /** What is on the user partition: nothing, the leavings of an interrupted mkfs, or a file system. */
  datatype FileSystem = Blank | Torn | F2fs(dirs: set<string>)

  /** What survives a power loss: partition names by number, and the user partition's contents. */
  datatype Disk = Disk(table: map<nat, string>, fs: FileSystem)

  /** The command about to run. */
  datatype Command =
    | Off | CountPartitions
    | FixBackup | CreatePartition | Reboot
    | CheckRaw | StartMkfs | FinishMkfs | MountNew | MakeDir(i: nat) | RunHooks | Unmount | Rename | Partprobe
    | MountUser | MountEtc | StartInit
    | Init | Halted

  /** `kernel` are the partitions the kernel knows; `cache` the directories of the mounted file system,
      written back at the latest by unmounting. */
  datatype Machine = Machine(disk: Disk, kernel: set<nat>, mounted: bool, cache: set<string>, at: Command)

  /** One step: the command at hand runs (it may fail; hooks, or the running system, may add directories), or the
      power fails. Then written-back directories are those in `kept`, and an mkfs under way leaves `left`. */
  datatype Step = Run(fails: bool, added: set<string>) | PowerLoss(kept: set<string>, left: FileSystem)

  /** `grep userdata-raw` finds the name. */
  predicate LooksRaw(name: string) {
    exists i :: 0 <= i <= |name| && OccursAt(name, RAW, i)
  }

  predicate AnyRaw(t: map<nat, string>) {
    exists n :: n in t && LooksRaw(t[n])
  }

  /** Powered off over a disk. */
  function PoweredOff(d: Disk): Machine {
    Machine(d, {}, false, {}, Off)
  }

  function Halt(m: Machine): Machine {
    m.(at := Halted)
  }

  function Named(d: Disk, name: string): Disk {
    d.(table := d.table[USER := name])
  }

  /** `mount_userdata`, going on at `next`. */
  function Mount(m: Machine, fails: bool, next: Command): Machine {
    if fails || USER !in m.kernel || !m.disk.fs.F2fs? then Halt(m)
    else m.(mounted := true, cache := m.disk.fs.dirs, at := next)
  }

  /** The command at hand, with `set -e`: whatever fails ends the script. */
  function Execute(m: Machine, fails: bool, added: set<string>): Machine {
    match m.at
    case Off => Machine(m.disk, m.disk.table.Keys, false, {}, CountPartitions)
    case CountPartitions =>
      // `expr` reports a result of zero as a failure
      if |m.disk.table| == 0 then Halt(m)
      else if |m.disk.table| < NUM_DESIRED then m.(at := FixBackup)
      else m.(at := CheckRaw)
    case FixBackup => if fails then Halt(m) else m.(at := CreatePartition)
    case CreatePartition =>
      if fails || USER in m.disk.table then Halt(m) else m.(disk := Named(m.disk, RAW), at := Reboot)
    case Reboot => if fails then Halt(m) else PoweredOff(m.disk)
    case CheckRaw => m.(at := if AnyRaw(m.disk.table) then StartMkfs else MountUser)
    case StartMkfs => if fails || USER !in m.kernel then Halt(m) else m.(disk := m.disk.(fs := Torn), at := FinishMkfs)
    case FinishMkfs => if fails then Halt(m) else m.(disk := m.disk.(fs := F2fs({})), at := MountNew)
    case MountNew => Mount(m, fails, MakeDir(0))
    case MakeDir(i) =>
      if fails || i >= |DIRS| then Halt(m)
      else m.(cache := m.cache + {DIRS[i]}, at := if i + 1 < |DIRS| then MakeDir(i + 1) else RunHooks)
    case RunHooks => if fails then Halt(m) else m.(cache := m.cache + added, at := Unmount)
    case Unmount => if fails then Halt(m) else m.(disk := m.disk.(fs := F2fs(m.cache)), mounted := false, at := Rename)
    case Rename =>
      if fails || USER !in m.disk.table then Halt(m) else m.(disk := Named(m.disk, NAMED), at := Partprobe)
    case Partprobe => if fails then Halt(m) else m.(kernel := m.disk.table.Keys, at := MountUser)
    case MountUser => Mount(m, fails, MountEtc)
    case MountEtc => if fails || !(DIRS[0] in m.cache && DIRS[1] in m.cache) then Halt(m) else m.(at := StartInit)
    case StartInit => m.(at := Init)
    case Init => m.(cache := m.cache + added)
    case Halted => m
  }

  /** What a power loss leaves behind. */
  function Lose(m: Machine, kept: set<string>, left: FileSystem): Machine {
    var fs := if m.at == FinishMkfs then left
              else if m.mounted && m.disk.fs.F2fs? then F2fs(m.disk.fs.dirs + kept * m.cache)
              else m.disk.fs;
    PoweredOff(m.disk.(fs := fs))
  }

  function Next(m: Machine, s: Step): Machine {
    match s
    case Run(fails, added) => Execute(m, fails, added)
    case PowerLoss(kept, left) => Lose(m, kept, left)
  }

  function After(m: Machine, steps: seq<Step>): Machine {
    if steps == [] then m else Next(After(m, steps[..|steps| - 1]), steps[|steps| - 1])
  }

  // ---- safety -----------------------------------------------------------------------------------------------------

  ghost predicate HasSkeleton(dirs: set<string>) {
    forall i :: 0 <= i < |DIRS| ==> DIRS[i] in dirs
  }

  /** Disks the script is meant for: no other partition looks raw, and a user partition that carries its final
      name has been fully initialised. */
  ghost predicate DiskOk(d: Disk) {
    && (forall n :: n in d.table && n != USER ==> !LooksRaw(d.table[n]))
    && (USER in d.table ==> d.table[USER] == RAW || d.table[USER] == NAMED)
    && (Finished(d) ==> d.fs.F2fs? && HasSkeleton(d.fs.dirs))
  }

  predicate Finished(d: Disk) {
    USER in d.table && d.table[USER] == NAMED
  }

  predicate Formatting(c: Command) {
    c.StartMkfs? || c.FinishMkfs? || c.MountNew? || c.MakeDir? || c.RunHooks? || c.Unmount? || c.Rename?
  }

  predicate Starting(c: Command) {
    c == Partprobe || c == MountUser || c == MountEtc || c == StartInit || c == Init || c == Halted
  }

  /** What holds before each command. */
  ghost predicate Inv(m: Machine) {
    && DiskOk(m.disk)
    && (Formatting(m.at) ==> USER in m.disk.table && m.disk.table[USER] == RAW)
    && (m.mounted ==> m.disk.fs.F2fs? && m.disk.fs.dirs <= m.cache)
    && (m.at == StartMkfs || m.at == FinishMkfs || m.at == MountNew ==> !m.mounted)
    && (m.at == Rename || m.at == MountUser ==> !m.mounted)
    && (m.at.MakeDir? ==> m.mounted && m.at.i < |DIRS| && forall j :: 0 <= j < m.at.i ==> DIRS[j] in m.cache)
    && (m.at == RunHooks || m.at == Unmount ==> m.mounted && HasSkeleton(m.cache))
    && (m.at == Rename ==> m.disk.fs.F2fs? && HasSkeleton(m.disk.fs.dirs))
    && (m.at == Partprobe ==> Finished(m.disk) && !m.mounted)
    && (m.at == MountUser ==> USER in m.kernel ==> Finished(m.disk))
    && (m.at == MountEtc || m.at == StartInit || m.at == Init ==> Finished(m.disk) && m.mounted && HasSkeleton(m.cache))
    && (m.at == Off || m.at == CountPartitions || m.at == CheckRaw ==> !m.mounted)
    && (m.at == CountPartitions || m.at == CheckRaw || m.at == StartMkfs ==> m.kernel == m.disk.table.Keys)
  }

  lemma RawNames()
    ensures LooksRaw(RAW) && !LooksRaw(NAMED)
  {
    assert RAW[0..|RAW|] == RAW;
    assert OccursAt(RAW, RAW, 0);
    assert |NAMED| < |RAW|;
  }

  lemma MakeDirKeeps(m: Machine, fails: bool)
    requires Inv(m) && m.at.MakeDir?
    ensures Inv(Execute(m, fails, {}))
  {
    assert |DIRS| == 9;
    var m' := Execute(m, fails, {});
    if m'.at == RunHooks {
      forall j | 0 <= j < |DIRS| ensures DIRS[j] in m'.cache {
        assert j < m.at.i || j == m.at.i;
      }
    }
  }

  lemma CountingKeeps(m: Machine, fails: bool)
    requires Inv(m) && (m.at == Off || m.at == CountPartitions)
    ensures Inv(Execute(m, fails, {}))
  {
    hide LooksRaw, HasSkeleton;
  }

  lemma CheckingKeeps(m: Machine, fails: bool)
    requires Inv(m) && m.at == CheckRaw
    ensures Inv(Execute(m, fails, {}))
  {
    RawNames();
    hide LooksRaw, HasSkeleton;
    if AnyRaw(m.disk.table) {
      var n :| n in m.disk.table && LooksRaw(m.disk.table[n]);
      assert n == USER;
    } else {
      assert USER in m.disk.table ==> !LooksRaw(m.disk.table[USER]);
    }
  }

  lemma CreatingKeeps(m: Machine, fails: bool)
    requires Inv(m) && (m.at == FixBackup || m.at == CreatePartition || m.at == Reboot)
    ensures Inv(Execute(m, fails, {}))
  {
    RawNames();
    hide LooksRaw;
    assert m.at == CreatePartition ==> m.mounted ==> m.disk.fs.F2fs?;
  }

  lemma FormattingKeeps(m: Machine, fails: bool, added: set<string>)
    requires Inv(m) && Formatting(m.at) && !m.at.MakeDir?
    ensures Inv(Execute(m, fails, added))
  {
    RawNames();
    assert |DIRS| == 9;
  }

  lemma MountingKeeps(m: Machine, fails: bool, added: set<string>)
    requires Inv(m) && (m.at == Partprobe || m.at == MountUser)
    ensures Inv(Execute(m, fails, added))
  {
    hide LooksRaw, HasSkeleton;
  }

  lemma StartingKeeps(m: Machine, fails: bool, added: set<string>)
    requires Inv(m) && Starting(m.at)
    ensures Inv(Execute(m, fails, added))
  {
    if m.at == Partprobe || m.at == MountUser {
      MountingKeeps(m, fails, added);
    }
  }

  lemma ExecuteKeeps(m: Machine, fails: bool, added: set<string>)
    requires Inv(m)
    ensures Inv(Execute(m, fails, added))
  {
    hide Inv;
    if m.at.MakeDir? {
      MakeDirKeeps(m, fails);
    } else if Formatting(m.at) {
      FormattingKeeps(m, fails, added);
    } else if Starting(m.at) {
      StartingKeeps(m, fails, added);
    } else if m.at == Off || m.at == CountPartitions {
      CountingKeeps(m, fails);
    } else if m.at == CheckRaw {
      CheckingKeeps(m, fails);
    } else {
      CreatingKeeps(m, fails);
    }
  }

  lemma LoseKeeps(m: Machine, kept: set<string>, left: FileSystem)
    requires Inv(m)
    ensures Inv(Lose(m, kept, left))
  {
    RawNames();
  }

  lemma {:induction false} AlwaysInv(d: Disk, steps: seq<Step>)
    requires DiskOk(d)
    ensures Inv(After(PoweredOff(d), steps))
  {
    if steps != [] {
      var n := |steps| - 1;
      AlwaysInv(d, steps[..n]);
      var m := After(PoweredOff(d), steps[..n]);
      match steps[n] {
        case Run(fails, added) => ExecuteKeeps(m, fails, added);
        case PowerLoss(kept, left) => LoseKeeps(m, kept, left);
      }
    }
  }

  /** Over every sequence of boots with power lost after any step: mkfs never runs on a partition that carries its
      final name, and init runs only with the whole skeleton on the mounted partition. */
  lemma NeverReformatted(d: Disk, steps: seq<Step>)
    requires DiskOk(d)
    ensures var m := After(PoweredOff(d), steps);
      && (m.at == StartMkfs || m.at == FinishMkfs ==> !Finished(m.disk))
      && (m.at == StartInit || m.at == Init ==> m.mounted && HasSkeleton(m.cache) && Finished(m.disk))
  {
    RawNames();
    AlwaysInv(d, steps);
  }

  lemma StepKeepsData(m: Machine, s: Step)
    requires Inv(m) && Finished(m.disk)
    ensures Finished(Next(m, s).disk)
    ensures m.disk.fs.F2fs? && Next(m, s).disk.fs.F2fs? && m.disk.fs.dirs <= Next(m, s).disk.fs.dirs
    ensures forall n :: n in m.disk.table ==> n in Next(m, s).disk.table && Next(m, s).disk.table[n] == m.disk.table[n]
  {
    RawNames();
  }

  /** Once a partition has its final name it keeps it, and everything written back to it stays: no later boot,
      crash or failure loses a directory. */
  lemma {:induction false} DataSurvives(d: Disk, before: seq<Step>, later: seq<Step>)
    requires DiskOk(d) && Finished(After(PoweredOff(d), before).disk)
    ensures var m := After(PoweredOff(d), before); var m' := After(PoweredOff(d), before + later);
      Finished(m'.disk) && m.disk.fs.F2fs? && m'.disk.fs.F2fs? && m.disk.fs.dirs <= m'.disk.fs.dirs
  {
    AlwaysInv(d, before);
    if later == [] {
      assert before + later == before;
    } else {
      var n := |later| - 1;
      DataSurvives(d, before, later[..n]);
      assert (before + later)[..|before + later| - 1] == before + later[..n];
      AlwaysInv(d, before + later[..n]);
      StepKeepsData(After(PoweredOff(d), before + later[..n]), later[n]);
    }
  }

  // ---- getting there ----------------------------------------------------------------------------------------------

  /** `n` steps without failure or power loss. */
  function Go(m: Machine, n: nat): Machine
    decreases n
  {
    if n == 0 then m else Go(Execute(m, false, {}), n - 1)
  }

  /** How often the machine is powered on during these steps. */
  function Boots(m: Machine, n: nat): nat
    decreases n
  {
    if n == 0 then 0 else (if m.at == Off then 1 else 0) + Boots(Execute(m, false, {}), n - 1)
  }

  /** Left alone the machine gets to init within this many boots. */
  ghost predicate ReachesInit(m: Machine, boots: nat) {
    exists n: nat :: Go(m, n).at == Init && Boots(m, n) <= boots
  }

  lemma Onward(m: Machine, boots: nat)
    requires ReachesInit(Execute(m, false, {}), boots)
    ensures ReachesInit(m, if m.at == Off then boots + 1 else boots)
  {
    var n: nat :| Go(Execute(m, false, {}), n).at == Init && Boots(Execute(m, false, {}), n) <= boots;
    assert Go(m, n + 1).at == Init && Boots(m, n + 1) <= (if m.at == Off then boots + 1 else boots);
  }

  /** Without failures the rest of the script after each command leads to init. */
  lemma MountedReaches(m: Machine)
    requires Inv(m) && (m.at == Partprobe || m.at == MountUser || m.at == MountEtc || m.at == StartInit || m.at == Init)
    requires m.at == MountUser ==> USER in m.kernel
    ensures ReachesInit(m, 0)
    decreases match m.at case Partprobe => 4 case MountUser => 3 case MountEtc => 2 case StartInit => 1 case _ => 0
  {
    if m.at == Init {
      assert Go(m, 0).at == Init && Boots(m, 0) == 0;
    } else {
      StartingKeeps(m, false, {});
      assert |DIRS| == 9;
      MountedReaches(Execute(m, false, {}));
      Onward(m, 0);
    }
  }

  lemma FormatReaches(m: Machine)
    requires Inv(m) && Formatting(m.at) && USER in m.kernel
    requires m.at == MountNew ==> m.disk.fs.F2fs?
    ensures ReachesInit(m, 0)
    decreases match m.at
              case StartMkfs => 20 case FinishMkfs => 19 case MountNew => 18 case MakeDir(i) => 3 + |DIRS| - i
              case RunHooks => 2 case Unmount => 1 case _ => 0
  {
    ExecuteKeeps(m, false, {});
    assert |DIRS| == 9;
    if m.at == Rename {
      MountedReaches(Execute(m, false, {}));
    } else {
      FormatReaches(Execute(m, false, {}));
    }
    Onward(m, 0);
  }

  /** A boot that finds enough partitions, the user partition among them, gets there at once. */
  lemma FullTableReaches(d: Disk)
    requires DiskOk(d) && USER in d.table && |d.table| >= NUM_DESIRED
    ensures ReachesInit(PoweredOff(d), 1)
  {
    RawNames();
    var m0 := PoweredOff(d);
    var m1 := Execute(m0, false, {});
    var m2 := Execute(m1, false, {});
    var m3 := Execute(m2, false, {});
    ExecuteKeeps(m0, false, {});
    ExecuteKeeps(m1, false, {});
    ExecuteKeeps(m2, false, {});
    assert m2.at == CheckRaw && m3.kernel == d.table.Keys;
    if m3.at == StartMkfs {
      FormatReaches(m3);
    } else {
      MountedReaches(m3);
    }
    Onward(m2, 0);
    Onward(m1, 0);
    Onward(m0, 0);
  }

  /** Partitions other than the user partition. */
  function Others(d: Disk): nat {
    |d.table.Keys - {8}|
  }

  lemma TableSize(d: Disk)
    ensures |d.table| == Others(d) + if USER in d.table then 1 else 0
  {
    if USER in d.table {
      assert d.table.Keys == (d.table.Keys - {USER}) + {USER};
    } else {
      assert d.table.Keys - {USER} == d.table.Keys;
    }
  }

  lemma NamingKeepsOthers(d: Disk, name: string)
    ensures Others(Named(d, name)) == Others(d)
  {
    assert Named(d, name).table.Keys - {USER} == d.table.Keys - {USER};
  }

  /** A fresh disk with seven partitions: one boot creates the eighth and reboots, the next gets to init. */
  lemma FreshDiskReaches(d: Disk)
    requires DiskOk(d) && 8 !in d.table && |d.table| == 7
    ensures ReachesInit(PoweredOff(d), 2)
    ensures Go(PoweredOff(d), 5) == PoweredOff(Named(d, "userdata-raw"))
  {
    RawNames();
    TableSize(d);
    var m0 := PoweredOff(d);
    var m1 := Execute(m0, false, {});
    var m2 := Execute(m1, false, {});
    var m3 := Execute(m2, false, {});
    var m4 := Execute(m3, false, {});
    var m5 := Execute(m4, false, {});
    var d' := Named(d, RAW);
    assert m5 == PoweredOff(d');
    FiveSteps(m0);
    NamingKeepsOthers(d, RAW);
    TableSize(d');
    FullTableReaches(d');
    Onward(m4, 1);
    Onward(m3, 1);
    Onward(m2, 1);
    Onward(m1, 1);
    Onward(m0, 1);
  }

  lemma FiveSteps(m: Machine)
    ensures var m1 := Execute(m, false, {}); var m2 := Execute(m1, false, {}); var m3 := Execute(m2, false, {});
      var m4 := Execute(m3, false, {}); Go(m, 5) == Execute(m4, false, {})
  {
    hide Execute;
  }

  /** Can this disk ever be booted? There must be seven partitions other than the eighth, or the eighth and at least
      eight others. */
  predicate CanStart(d: Disk) {
    Others(d) == 7 || (8 in d.table && Others(d) >= 8)
  }

  /** States a machine with such a disk is confined to. */
  ghost predicate Stuck(m: Machine) {
    && DiskOk(m.disk) && !CanStart(m.disk)
    && (m.at == Off || m.at == CountPartitions || m.at == FixBackup || m.at == CreatePartition || m.at == Reboot
        || m.at == Halted
        || (m.at == CheckRaw && USER !in m.disk.table && m.kernel == m.disk.table.Keys)
        || (m.at == MountUser && USER !in m.kernel))
    && (m.at == CountPartitions ==> m.kernel == m.disk.table.Keys)
    && (m.at == FixBackup || m.at == CreatePartition ==> |m.disk.table| < NUM_DESIRED)
  }

  lemma StuckCreating(m: Machine)
    requires Stuck(m) && m.at == CreatePartition
    ensures Stuck(Execute(m, false, {}))
  {
    RawNames();
    hide LooksRaw, HasSkeleton;
    TableSize(m.disk);
    NamingKeepsOthers(m.disk, RAW);
  }

  lemma NoRaw(d: Disk)
    requires DiskOk(d) && USER !in d.table
    ensures !AnyRaw(d.table)
  {
    hide LooksRaw;
  }

  lemma StuckChecking(m: Machine)
    requires Stuck(m) && m.at == CheckRaw
    ensures Stuck(Execute(m, false, {}))
  {
    hide LooksRaw, HasSkeleton, Others, DiskOk;
    assert !AnyRaw(m.disk.table) by { NoRaw(m.disk); }
    assert Execute(m, false, {}) == m.(at := MountUser);
  }

  lemma StuckStays(m: Machine)
    requires Stuck(m)
    ensures Stuck(Execute(m, false, {}))
  {
    if m.at == CreatePartition {
      StuckCreating(m);
    } else if m.at == CheckRaw {
      StuckChecking(m);
    } else {
      hide LooksRaw, HasSkeleton;
      TableSize(m.disk);
      assert Execute(m, false, {}).disk == m.disk;
    }
  }

  lemma {:induction false} StuckForGood(m: Machine, n: nat)
    requires Stuck(m)
    ensures Go(m, n).at != Init
    decreases n
  {
    if n > 0 {
      StuckStays(m);
      StuckForGood(Execute(m, false, {}), n - 1);
    }
  }

  /** Whatever has happened before, a machine left alone from power-on reaches init, within two boots, exactly
      when seven other partitions exist, or more of them and the user partition. */
  lemma ReachesInitIff(d: Disk)
    requires DiskOk(d)
    ensures CanStart(d) ==> ReachesInit(PoweredOff(d), 2)
    ensures !CanStart(d) ==> forall n: nat :: Go(PoweredOff(d), n).at != Init
  {
    TableSize(d);
    if CanStart(d) {
      if USER in d.table {
        FullTableReaches(d);
      } else {
        FreshDiskReaches(d);
      }
      assert ReachesInit(PoweredOff(d), 2);
    } else {
      forall n: nat ensures Go(PoweredOff(d), n).at != Init {
        StuckForGood(PoweredOff(d), n);
      }
    }
  }

  lemma StepKeepsTable(m: Machine, s: Step)
    ensures Others(Next(m, s).disk) == Others(m.disk)
    ensures USER in m.disk.table ==> USER in Next(m, s).disk.table
  {
    hide Others;
    NamingKeepsOthers(m.disk, RAW);
    NamingKeepsOthers(m.disk, NAMED);
    SameTable(m.disk, Next(m, s).disk);
    var d := Next(m, s).disk;
    assert d.table == m.disk.table || d == Named(m.disk, RAW) || d == Named(m.disk, NAMED);
  }

  lemma SameTable(d: Disk, d': Disk)
    ensures d.table == d'.table ==> Others(d) == Others(d')
  {
  }

  /** So recovery is always possible: if the disk could be booted at first, then after any sequence of boots,
      failures and power losses, turning it on and leaving it alone reaches init within two boots. */
  lemma {:induction false} AlwaysRecovers(d: Disk, steps: seq<Step>)
    requires DiskOk(d) && CanStart(d)
    ensures DiskOk(After(PoweredOff(d), steps).disk) && CanStart(After(PoweredOff(d), steps).disk)
    ensures ReachesInit(PoweredOff(After(PoweredOff(d), steps).disk), 2)
  {
    AlwaysInv(d, steps);
    if steps != [] {
      var n := |steps| - 1;
      AlwaysRecovers(d, steps[..n]);
      StepKeepsTable(After(PoweredOff(d), steps[..n]), steps[n]);
    }
    ReachesInitIff(After(PoweredOff(d), steps).disk);
  }

  /** Without the assumption about other names the promise breaks: with enough partitions, booting a finished disk
      leads to mkfs exactly when some other partition's name contains `userdata-raw`. */
  lemma OtherRawName(d: Disk)
    requires Finished(d) && |d.table| >= NUM_DESIRED
    ensures Go(PoweredOff(d), 3).at == StartMkfs <==> exists n :: n in d.table && n != USER && LooksRaw(d.table[n])
  {
    RawNames();
    var m1 := Execute(PoweredOff(d), false, {});
    var m2 := Execute(m1, false, {});
    assert m2.at == CheckRaw && m2.disk == d;
    assert Go(PoweredOff(d), 3) == Go(m1, 2) == Go(m2, 1) == Go(Execute(m2, false, {}), 0);
  }

  // ---- what formatting leaves ---------------------------------------------------------------------------------------

  /** The directories the script creates. */
  const SKELETON: set<string> := {
    "overlay/etc", "overlay/.etc-work", "overlay/usr/etc", "overlay/.usr-etc-work", "overlay/home",
    "overlay/.home-work", "logs", "logs/system", "overlay/.var-log-work"}

  /** `n` steps without failure or power loss, with hooks that create the directories `added`. */
  function GoAdding(m: Machine, added: set<string>, n: nat): Machine
    decreases n
  {
    if n == 0 then m else GoAdding(Execute(m, false, added), added, n - 1)
  }

  function FirstDirs(n: nat): set<string>
    requires n <= |DIRS|
  {
    set i | 0 <= i < n :: DIRS[i]
  }

  lemma SkeletonIsAll()
    ensures |DIRS| == 9 && FirstDirs(9) == SKELETON
  {
    assert |DIRS| == 9;
    assert forall d :: d in FirstDirs(9) <==> d in DIRS;
  }

  lemma {:induction false} MakesDirs(m: Machine, added: set<string>, i: nat)
    requires i < |DIRS| && m.at == MakeDir(i) && m.cache == FirstDirs(i)
    ensures GoAdding(m, added, |DIRS| - i) == m.(cache := FirstDirs(|DIRS|), at := RunHooks)
    decreases |DIRS| - i
  {
    var m' := Execute(m, false, added);
    assert m'.cache == FirstDirs(i + 1);
    if i + 1 < |DIRS| {
      MakesDirs(m', added, i + 1);
    } else {
      assert GoAdding(m', added, 0) == m';
    }
  }

  lemma {:induction false} GoesOn(m: Machine, added: set<string>, a: nat, b: nat)
    ensures GoAdding(m, added, a + b) == GoAdding(GoAdding(m, added, a), added, b)
    decreases a
  {
    if a > 0 {
      GoesOn(Execute(m, false, added), added, a - 1, b);
    }
  }

  lemma Three(m: Machine, added: set<string>)
    ensures GoAdding(m, added, 3) == Execute(Execute(Execute(m, false, added), false, added), false, added)
  {
    hide Execute;
    assert GoAdding(m, added, 3) == GoAdding(Execute(m, false, added), added, 2);
  }

  lemma FirstThree(m: Machine, added: set<string>)
    requires m.at == StartMkfs && USER in m.kernel
    ensures GoAdding(m, added, 3) == m.(disk := m.disk.(fs := F2fs({})), mounted := true, cache := {}, at := MakeDir(0))
  {
    Three(m, added);
  }

  lemma LastThree(m: Machine, added: set<string>)
    requires m.at == RunHooks && USER in m.disk.table
    ensures GoAdding(m, added, 3).at == Partprobe
    ensures GoAdding(m, added, 3).disk == Disk(m.disk.table[USER := NAMED], F2fs(m.cache + added))
  {
    Three(m, added);
  }

  /** An uninterrupted format leaves a file system with exactly the nine directories and those of the hooks, on the
      eighth partition, which then has its final name; no other partition is touched. */
  lemma FormatOutcome(m: Machine, added: set<string>)
    requires m.at == StartMkfs && 8 in m.kernel && 8 in m.disk.table
    ensures GoAdding(m, added, 15).disk == Disk(m.disk.table[8 := "userdata"], F2fs(SKELETON + added))
    ensures GoAdding(m, added, 15).at == Partprobe
  {
    SkeletonIsAll();
    NoDirs();
    hide FirstDirs, Execute, GoAdding;
    FirstThree(m, added);
    var m3 := GoAdding(m, added, 3);
    MakesDirs(m3, added, 0);
    LastThree(GoAdding(m3, added, 9), added);
    GoesOn(m, added, 3, 9);
    GoesOn(m, added, 12, 3);
  }

  lemma NoDirs()
    ensures FirstDirs(0) == {}
  {
  }

  lemma Names(d: Disk)
    ensures Finished(d) <==> 8 in d.table && d.table[8] == "userdata"
    ensures AnyRaw(d.table)
            <==> exists n, i :: n in d.table && 0 <= i <= |d.table[n]| && OccursAt(d.table[n], "userdata-raw", i)
  {
    forall n, i | n in d.table && 0 <= i <= |d.table[n]| && OccursAt(d.table[n], "userdata-raw", i)
      ensures AnyRaw(d.table)
    {
      assert LooksRaw(d.table[n]);
    }
  }

  /** A mount succeeds only for a partition the kernel knows, with a complete file system; the overlay only over both
      its directories; and only then does the script go on to init. */
  lemma MountsOnlyWhatIsThere(m: Machine, fails: bool, added: set<string>)
    ensures var m' := Execute(m, fails, added);
      && (m.at == MountUser && m'.at != Halted ==>
            m'.mounted && 8 in m.kernel && m.disk.fs.F2fs? && m'.cache == m.disk.fs.dirs)
      && (m.at == MountEtc && m'.at != Halted ==> "overlay/etc" in m.cache && "overlay/.etc-work" in m.cache)
      && (m'.at == Init && m.at != Init ==> m.at == StartInit)
      && (m'.at == StartInit ==> m.at == MountEtc)
  {
  }

  /** A disk without any partition is left alone for good. */
  lemma {:induction false} EmptyTableStays(m: Machine, n: nat)
    requires |m.disk.table| == 0 && (m.at == Off || m.at == CountPartitions || m.at == Halted)
    ensures Go(m, n).disk == m.disk && Go(m, n).at != Init
    decreases n
  {
    if n > 0 {
      EmptyTableStays(Execute(m, false, {}), n - 1);
    }
  }
}
