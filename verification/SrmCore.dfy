/** Preparing and unpreparing the resource manager core: registrations made and undone. */
module SrmCore {

  const ETIMEDOUT: int := -110

  /** How often the core is prepared, and how many registrations of each kind are in place. Taking back a
      registration that is not in place leaves nothing behind; `misses` counts how often that was tried. */
  datatype Core = Core(prepared: nat, populated: nat, masters: nat, rpmsgs: nat, misses: nat)

  const IDLE: Core := Core(0, 0, 0, 0, 0)

  /** What the kernel does during one prepare. */
  datatype Prep = Prep(
    populateRet: int, children: nat, addRet: int, boundInTime: bool, bindStatus: int, registerRet: int)

  function Prepare(c: Core, e: Prep): (Core, int) {
    if e.populateRet != 0 then (c, e.populateRet)
    else if e.children == 0 then (c.(populated := c.populated + 1, prepared := c.prepared + 1), 0)
    else if e.addRet != 0 then (c, e.addRet)
    else if !e.boundInTime then (c, ETIMEDOUT)
    else if e.bindStatus != 0 then (c, e.bindStatus)
    else if e.registerRet != 0 then (c, e.registerRet)
    else (Core(c.prepared + 1, c.populated + 1, c.masters + 1, c.rpmsgs + 1, c.misses), 0)
  }

  function Less(n: nat): nat {
    if n == 0 then 0 else n - 1
  }

  function Unprepare(c: Core): Core {
    if c.prepared == 0 then c
    else
      Core(c.prepared - 1, Less(c.populated), Less(c.masters), Less(c.rpmsgs),
           c.misses + if c.masters == 0 then 1 else 0)
  }

  datatype CoreOp = PrepareOp(e: Prep) | UnprepareOp

  function Run(ops: seq<CoreOp>): Core {
    if ops == [] then IDLE else RunOp(Run(ops[..|ops| - 1]), ops[|ops| - 1])
  }

  function RunOp(c: Core, op: CoreOp): Core {
    match op case PrepareOp(e) => Prepare(c, e).0 case UnprepareOp => Unprepare(c)
  }

  /** A prepare that succeeds without finding a child. */
  predicate IsChildless(op: CoreOp) {
    op.PrepareOp? && op.e.populateRet == 0 && op.e.children == 0
  }

  function Childless(ops: seq<CoreOp>): nat {
    if ops == [] then 0 else Childless(ops[..|ops| - 1]) + if IsChildless(ops[|ops| - 1]) then 1 else 0
  }

  /** Has a prepare found no child since the core was last unprepared altogether? */
  predicate ChildlessSinceIdle(ops: seq<CoreOp>) {
    ops != [] && Run(ops).prepared > 0 && (IsChildless(ops[|ops| - 1]) || ChildlessSinceIdle(ops[..|ops| - 1]))
  }

  /** A prepare succeeds if the children can be populated and there are none, or the master can be added, all are bound
      in time and well, and the message driver can be registered. It then counts; a failed one leaves no trace. */
  lemma PrepareOutcome(c: Core, e: Prep)
    ensures var (c', ret) := Prepare(c, e);
      && (ret == 0 <==> e.populateRet == 0 && (e.children > 0 ==> Registers(PrepareOp(e))))
      && (ret != 0 ==> c' == c)
      && (ret == 0 ==> c' == c.(prepared := c.prepared + 1, populated := c.populated + 1, masters := c'.masters,
                                rpmsgs := c'.rpmsgs))
      && (ret == 0 ==> c'.masters - c.masters == c'.rpmsgs - c.rpmsgs == if e.children > 0 then 1 else 0)
      && (e.populateRet == 0 && e.children > 0 && e.addRet == 0 && !e.boundInTime ==> ret == -110)
      && (e.populateRet == 0 && e.children > 0 && e.addRet == 0 && e.boundInTime && e.bindStatus != 0 ==>
            ret == e.bindStatus)
  {
  }

  /** Over any run of prepares, failed or not, and unprepares: the children are populated as often as the core is
      prepared, and the master and the message driver are registered exactly as often too if and only if every
      prepare since the core was last idle has found a child. */
  lemma {:induction false} RegistrationsMatch(ops: seq<CoreOp>)
    ensures var c := Run(ops);
      && c.populated == c.prepared
      && c.masters == c.rpmsgs <= c.prepared
      && (c.masters == c.prepared <==> !ChildlessSinceIdle(ops))
  {
    if ops != [] {
      RegistrationsMatch(ops[..|ops| - 1]);
    }
  }

  /** What is missing has been prepared without children and not yet been paid for: each childless prepare makes
      one unprepare, sooner or later, take back registrations that were never made. */
  lemma {:induction false} MissesPay(ops: seq<CoreOp>)
    ensures Run(ops).masters + Childless(ops) == Run(ops).prepared + Run(ops).misses
    ensures Run(ops).prepared == 0 ==> Run(ops).misses == Childless(ops)
  {
    if ops != [] {
      RegistrationsMatch(ops[..|ops| - 1]);
      MissesPay(ops[..|ops| - 1]);
    }
  }

  /** An unprepare takes back what is not there exactly when all that keeps the core prepared is childless. */
  lemma WhenUnprepareMisses(ops: seq<CoreOp>)
    ensures Run(ops + [UnprepareOp]).misses > Run(ops).misses
            <==> Run(ops).prepared > 0 && Run(ops).prepared + Run(ops).misses == Childless(ops)
  {
    assert (ops + [UnprepareOp])[..|ops|] == ops;
    MissesPay(ops);
  }

  /** A prepare that succeeds and finds a child. */
  predicate Registers(op: CoreOp) {
    && op.PrepareOp? && op.e.populateRet == 0 && op.e.children > 0
    && op.e.addRet == 0 && op.e.boundInTime && op.e.bindStatus == 0 && op.e.registerRet == 0
  }

  /** Which prepare an unprepare answers is not kept track of: with one prepare that found a child and one that
      did not, it takes back the only registrations and leaves the core prepared. */
  lemma ChildlessExample(with: CoreOp, without: CoreOp)
    requires Registers(with) && IsChildless(without)
    ensures Run([with, without, UnprepareOp]) == Core(1, 1, 0, 0, 0)
    ensures Run([without, UnprepareOp, with]) == Core(1, 1, 1, 1, 1)
  {
    RunThree(with, without, UnprepareOp);
    RunThree(without, UnprepareOp, with);
  }

  lemma RunThree(x: CoreOp, y: CoreOp, z: CoreOp)
    ensures Run([x, y, z]) == RunOp(RunOp(RunOp(IDLE, x), y), z)
  {
    assert [x, y, z][..2] == [x, y] && [x, y][..1] == [x] && [x][..0] == [];
    assert Run([x]) == RunOp(IDLE, x);
    assert Run([x, y]) == RunOp(Run([x]), y);
  }

  /** The driver's core object; `atomic_t prepared` and the registrations in place. */
  class CoreDriver {
    var prepared: nat
    ghost var populated: nat
    ghost var masters: nat
    ghost var rpmsgs: nat
    ghost var misses: nat

    ghost function State(): Core
      reads this
    {
      Core(prepared, populated, masters, rpmsgs, misses)
    }

    constructor ()
      ensures State() == IDLE
    {
      prepared := 0;
      populated, masters, rpmsgs, misses := 0, 0, 0, 0;
    }

    /** Each failure undoes the steps taken, last first. */
    method PrepareCore(e: Prep) returns (ret: int)
      modifies this
      ensures (State(), ret) == Prepare(old(State()), e)
      ensures ret != 0 ==> State() == old(State())
      ensures ret == 0 ==> prepared == old(prepared) + 1
    {
      ret := e.populateRet;
      if ret != 0 {
        return;
      }
      populated := populated + 1;
      if e.children == 0 {
        prepared := prepared + 1;
        return 0;
      }
      ret := e.addRet;
      if ret != 0 {
        populated := populated - 1;
        return;
      }
      masters := masters + 1;
      if !e.boundInTime {
        ret := ETIMEDOUT;
      } else {
        ret := e.bindStatus;
        if ret == 0 {
          ret := e.registerRet;
        }
      }
      if ret != 0 {
        masters := masters - 1;
        populated := populated - 1;
        return;
      }
      rpmsgs := rpmsgs + 1;
      prepared := prepared + 1;
    }

    method UnprepareCore()
      modifies this
      ensures State() == Unprepare(old(State()))
    {
      if prepared == 0 {
        return;
      }
      prepared := prepared - 1;
      rpmsgs := Less(rpmsgs);
      misses := misses + if masters == 0 then 1 else 0;
      masters := Less(masters);
      populated := Less(populated);
    }
  }
}
