/** Delivering a message: the notifier chain is called device by device until one stops it. */
module SrmChain {
  import opened Prelude
  import opened SrmResources
  import opened SrmMessages
  import SrmDevice

  const NOTIFY_DONE: int := 0x0000
  const NOTIFY_STOP_MASK: int := 0x8000
  const NOTIFY_BAD: int := 0x8002
  const NOTIFY_STOP: int := 0x8001

  predicate Stops(code: int) {
    (code / NOTIFY_STOP_MASK) % 2 == 1
  }

  /** A device's callback: new state, messages it tried to send, what it tells the chain. */
  function Notify(d: Dev, msg: Msg, o: Oracle, sendRet: int): (Dev, seq<Msg>, int) {
    if !Contains(d.name, msg.deviceId) then (d, [], NOTIFY_DONE)
    else (Serve(d, msg, o).0, [Serve(d, msg, o).2], if sendRet != 0 then NOTIFY_BAD else NOTIFY_STOP)
  }

  /** `blocking_notifier_call_chain` from the i-th device on. */
  function CallChain(ds: seq<Dev>, i: nat, msg: Msg, o: Oracle, sendRet: int): (seq<Dev>, seq<Msg>, int)
    requires i <= |ds|
    decreases |ds| - i
  {
    if i == |ds| then (ds, [], NOTIFY_DONE)
    else
      var (d, sent, code) := Notify(ds[i], msg, o, sendRet);
      if Stops(code) then (ds[i := d], sent, code)
      else
        var (ds', sent', code') := CallChain(ds[i := d], i + 1, msg, o, sendRet);
        (ds', sent + sent', code')
  }

  /** The core's receive callback: new states of all devices and every send attempted. */
  function Receive(ds: seq<Dev>, msg: Msg, o: Oracle, sendRet: int): (seq<Dev>, seq<Msg>) {
    var (ds', sent, code) := CallChain(ds, 0, msg, o, sendRet);
    (ds', if Stops(code) then sent else sent + [msg.(messageType := MSG_ERROR)])
  }

  lemma {:induction false} ChainStopsAtAddressee(ds: seq<Dev>, i: nat, msg: Msg, o: Oracle, sendRet: int)
    requires i <= |ds|
    ensures var k := Addressee(ds, msg.deviceId, i);
            var (ds', sent, code) := CallChain(ds, i, msg, o, sendRet);
            if k < |ds| then ds' == ds[k := Serve(ds[k], msg, o).0] && sent == [Serve(ds[k], msg, o).2] && Stops(code)
            else ds' == ds && sent == [] && !Stops(code)
    decreases |ds| - i
  {
    if i < |ds| && !Contains(ds[i].name, msg.deviceId) {
      assert ds[i := ds[i]] == ds;
      ChainStopsAtAddressee(ds, i + 1, msg, o, sendRet);
    }
  }

  /** Every message causes exactly one send attempt, whether or not it succeeds: by the first device
      whose name contains the id, or an ERROR from the core; no other device changes. */
  lemma ExactlyOneReply(ds: seq<Dev>, msg: Msg, o: Oracle, sendRet: int)
    ensures var k := Addressee(ds, msg.deviceId, 0);
            Receive(ds, msg, o, sendRet)
            == if k < |ds| then (ds[k := Serve(ds[k], msg, o).0], [Serve(ds[k], msg, o).2])
               else (ds, [msg.(messageType := MSG_ERROR)])
    ensures |Receive(ds, msg, o, sendRet).1| == 1
    ensures forall j :: 0 <= j < |ds| && j != Addressee(ds, msg.deviceId, 0) ==>
              Receive(ds, msg, o, sendRet).0[j] == ds[j]
  {
    ChainStopsAtAddressee(ds, 0, msg, o, sendRet);
    var error := msg.(messageType := MSG_ERROR);
    assert [] + [error] == [error];
  }

  /** Who that is: the first device in whose name the id occurs anywhere. */
  lemma AddresseeIs(ds: seq<Dev>, id: string)
    ensures var k := Addressee(ds, id, 0);
      && (forall j, i :: 0 <= j < k && 0 <= i <= |ds[j].name| ==> !OccursAt(ds[j].name, id, i))
      && (k < |ds| ==> exists i :: 0 <= i <= |ds[k].name| && OccursAt(ds[k].name, id, i))
  {
    forall j, i | 0 <= j < Addressee(ds, id, 0) && 0 <= i <= |ds[j].name| ensures !OccursAt(ds[j].name, id, i) {
      assert !Contains(ds[j].name, id);
    }
  }

  // ---- many devices, many messages --------------------------------------------------------------------------------

  datatype Delivery = Delivery(msg: Msg, o: Oracle, sendRet: int)

  /** All devices and all send attempts after a series of messages. */
  function Deliver(ds: seq<Dev>, ms: seq<Delivery>): (seq<Dev>, seq<Msg>) {
    if ms == [] then (ds, [])
    else
      var m := ms[|ms| - 1];
      var before := Deliver(ds, ms[..|ms| - 1]);
      var (ds', sent) := Receive(before.0, m.msg, m.o, m.sendRet);
      (ds', before.1 + sent)
  }

  /** Names do not change, so each message has the addressee it had at the start, and there are as many
      send attempts as messages, each carrying the device id it answers. */
  lemma {:induction false} EveryMessageAnswered(ds: seq<Dev>, ms: seq<Delivery>)
    ensures |Deliver(ds, ms).0| == |ds| && |Deliver(ds, ms).1| == |ms|
    ensures forall i :: 0 <= i < |ds| ==> Deliver(ds, ms).0[i].name == ds[i].name
    ensures forall j :: 0 <= j < |ms| ==> Deliver(ds, ms).1[j].deviceId == ms[j].msg.deviceId
                                          && Deliver(ds, ms).1[j].rscType == ms[j].msg.rscType
  {
    hide Receive, Serve;
    if ms != [] {
      var n := |ms| - 1;
      EveryMessageAnswered(ds, ms[..n]);
      var before := Deliver(ds, ms[..n]);
      ExactlyOneReply(before.0, ms[n].msg, ms[n].o, ms[n].sendRet);
      var k := Addressee(before.0, ms[n].msg.deviceId, 0);
      if k < |ds| {
        ServeKeepsIdentity(before.0[k], ms[n].msg, ms[n].o);
      }
    }
  }

  lemma ServeKeepsIdentity(d: Dev, msg: Msg, o: Oracle)
    ensures Serve(d, msg, o).0.name == d.name
    ensures Serve(d, msg, o).2.deviceId == msg.deviceId && Serve(d, msg, o).2.rscType == msg.rscType
  {
  }
}
