// Connection signals of pkg/virtualnode/connectivity/manager.go: which one-shot
// channels are closed, as devices come and go.
module Signals {

  /** The booleans for channels say whether the current channel is closed. */
  datatype State = State(
    devices: set<string>,
    connected: bool,
    disconnected: bool,
    rejected: bool,
    alreadyRejected: bool,
    cancelled: bool,
    stopped: bool,
    cleanups: nat)
  {
    ghost predicate Valid()
    {
      && connected != disconnected
      && alreadyRejected == rejected
      && (connected ==> devices != {})
      && (!cancelled && devices != {} ==> connected)
      && (stopped ==> cancelled)
    }
  }

  const Initial := State({}, false, true, false, false, false, false, 0)

  datatype Op =
    | Connect(id: string)                 // OnConnected, with the id initialize returned
    | Disconnect(id: string, all: bool)   // OnDisconnected, with what finalize returned
    | Reject
    | Cancel                              // the parent context ends
    | Close

  function Connected(s: State, id: string): (s': State)
  {
    if id == "" || s.stopped then s
    else
      var s1 := s.(devices := s.devices + {id});
      if s.devices != {} || s.cancelled || s.connected then s1
      else s1.(connected := true, disconnected := false, rejected := false, alreadyRejected := false)
  }

  function Disconnected(s: State, id: string, all: bool): (s': State)
  {
    if s.devices == {} then s
    else
      var s1 := s.(devices := if all then {} else s.devices - {id});
      if s1.devices != {} then s1
      else s1.(disconnected := true, connected := false, cleanups := s.cleanups + 1)
  }

  function Step(s: State, op: Op): (s': State)
  {
    match op
    case Connect(id) => Connected(s, id)
    case Disconnect(id, all) => Disconnected(s, id, all)
    case Reject => s.(rejected := true, alreadyRejected := true)
    case Cancel => s.(cancelled := true)
    case Close => if s.stopped then s else s.(cancelled := true, stopped := true)
  }

  function Run(s: State, ops: seq<Op>): (s': State)
    decreases ops
  {
    if ops == [] then s else Run(Step(s, ops[0]), ops[1..])
  }

  /** How often the set of devices alone, without any signal, goes from some to none. */
  function Losses(devices: set<string>, stopped: bool, ops: seq<Op>): (n: nat)
    decreases ops
  {
    if ops == [] then 0
    else match ops[0]
         case Connect(id) =>
           Losses(if id == "" || stopped then devices else devices + {id}, stopped, ops[1..])
         case Disconnect(id, all) =>
           var left := if all then {} else devices - {id};
           (if devices != {} && left == {} then 1 else 0) + Losses(left, stopped, ops[1..])
         case Close => Losses(devices, true, ops[1..])
         case _ => Losses(devices, stopped, ops[1..])
  }

  lemma StepKeepsSignals(s: State, op: Op)
    requires s.Valid()
    ensures Step(s, op).Valid()
  {
  }

  /**
   * In every run exactly one of the connected and disconnected signals is closed, the
   * rejection flag says whether the rejected signal is, and until the context ends the
   * connected signal is closed exactly while some device is connected. Sessions are
   * cleaned up once for each change from some devices to none.
   */
  lemma {:induction false} RunKeepsSignals(s: State, ops: seq<Op>)
    requires s.Valid()
    ensures Run(s, ops).Valid()
    ensures Run(s, ops).cleanups == s.cleanups + Losses(s.devices, s.stopped, ops)
    decreases ops
  {
    if ops != [] {
      StepKeepsSignals(s, ops[0]);
      RunKeepsSignals(Step(s, ops[0]), ops[1..]);
      match ops[0]
      case Disconnect(id, all) => if s.devices == {} { assert s.devices - {id} == {}; }
      case _ =>
    }
  }

  // ---------------------------------------------------------------- the signals from the operations alone

  /** The devices that are there after some operations. */
  function DevicesAfter(ops: seq<Op>): (ds: set<string>)
  {
    if ops == [] then {}
    else
      var front := ops[..|ops| - 1];
      match ops[|ops| - 1]
      case Connect(id) => if id == "" || Close in front then DevicesAfter(front) else DevicesAfter(front) + {id}
      case Disconnect(id, all) => if all then {} else DevicesAfter(front) - {id}
      case _ => DevicesAfter(front)
  }

  ghost predicate AnyDevice(ops: seq<Op>, j: nat) { j <= |ops| && DevicesAfter(ops[..j]) != {} }

  /** Operation k brings the first device, while the context lasts. */
  ghost predicate BringsFirst(ops: seq<Op>, k: nat)
  {
    && k < |ops| && ops[k].Connect? && ops[k].id != ""
    && DevicesAfter(ops[..k]) == {} && Cancel !in ops[..k] && Close !in ops[..k]
  }

  /** Some first device has come, and there have been devices ever since. */
  ghost predicate UpSince(ops: seq<Op>, k: nat)
  {
    BringsFirst(ops, k) && forall j :: k < j <= |ops| ==> AnyDevice(ops, j)
  }

  /** Operation k is a rejection, and no first device has come since. */
  ghost predicate RejectsSince(ops: seq<Op>, k: nat)
  {
    k < |ops| && ops[k] == Reject && forall j :: k < j < |ops| ==> !BringsFirst(ops, j)
  }

  ghost predicate Up(ops: seq<Op>) { exists k :: UpSince(ops, k) }

  ghost predicate Rejecting(ops: seq<Op>) { exists k :: RejectsSince(ops, k) }

  lemma PrefixOfSnoc(front: seq<Op>, op: Op, j: nat)
    requires j <= |front|
    ensures (front + [op])[..j] == front[..j] && front[..|front|] == front
  {
  }

  lemma BringsFirstSnoc(front: seq<Op>, op: Op, k: nat)
    requires k <= |front|
    ensures BringsFirst(front + [op], k) <==>
            if k < |front| then BringsFirst(front, k)
            else op.Connect? && op.id != "" && DevicesAfter(front) == {} && Cancel !in front && Close !in front
  {
    PrefixOfSnoc(front, op, k);
  }

  lemma DevicesSnoc(front: seq<Op>, op: Op)
    ensures DevicesAfter(front + [op]) ==
            if op.Connect? && op.id != "" && Close !in front then DevicesAfter(front) + {op.id}
            else if op.Disconnect? then (if op.all then {} else DevicesAfter(front) - {op.id})
            else DevicesAfter(front)
  {
    var ops := front + [op];
    assert ops[|ops| - 1] == op && ops[..|ops| - 1] == front;
  }

  lemma UpSinceGrows(front: seq<Op>, op: Op, k: nat)
    requires k < |front| && UpSince(front, k) && AnyDevice(front + [op], |front| + 1)
    ensures UpSince(front + [op], k)
  {
    BringsFirstSnoc(front, op, k);
    forall j | k < j <= |front| + 1 ensures AnyDevice(front + [op], j) {
      if j <= |front| { AnyDeviceSnoc(front, op, j); }
    }
  }

  lemma UpSinceShrinks(front: seq<Op>, op: Op, k: nat)
    requires k < |front| && UpSince(front + [op], k)
    ensures UpSince(front, k) && AnyDevice(front + [op], |front| + 1)
  {
    BringsFirstSnoc(front, op, k);
    forall j | k < j <= |front| ensures AnyDevice(front, j) { AnyDeviceSnoc(front, op, j); }
  }

  lemma AnyDeviceSnoc(front: seq<Op>, op: Op, j: nat)
    requires j <= |front|
    ensures AnyDevice(front + [op], j) <==> AnyDevice(front, j)
  {
    PrefixOfSnoc(front, op, j);
  }

  lemma AnyDeviceLast(ops: seq<Op>)
    ensures AnyDevice(ops, |ops|) <==> DevicesAfter(ops) != {}
  {
    assert ops[..|ops|] == ops;
  }

  lemma UpSinceNow(front: seq<Op>, op: Op)
    requires BringsFirst(front + [op], |front|)
    ensures UpSince(front + [op], |front|)
  {
    BringsFirstSnoc(front, op, |front|);
    DevicesSnoc(front, op);
    assert op.id in DevicesAfter(front + [op]);
    AnyDeviceLast(front + [op]);
  }

  lemma UpStays(front: seq<Op>, op: Op)
    requires Up(front + [op]) && !BringsFirst(front + [op], |front|)
    ensures Up(front) && DevicesAfter(front + [op]) != {}
  {
    var k: nat :| UpSince(front + [op], k);
    assert k < |front|;
    UpSinceShrinks(front, op, k);
    AnyDeviceLast(front + [op]);
  }

  lemma UpGrows(front: seq<Op>, op: Op)
    requires Up(front) && DevicesAfter(front + [op]) != {}
    ensures Up(front + [op])
  {
    var k: nat :| UpSince(front, k);
    AnyDeviceLast(front + [op]);
    UpSinceGrows(front, op, k);
  }

  lemma UpSnoc(front: seq<Op>, op: Op)
    ensures Up(front + [op]) <==> BringsFirst(front + [op], |front|) || (Up(front) && DevicesAfter(front + [op]) != {})
  {
    if BringsFirst(front + [op], |front|) {
      UpSinceNow(front, op);
    } else if Up(front + [op]) {
      UpStays(front, op);
    } else if Up(front) && DevicesAfter(front + [op]) != {} {
      UpGrows(front, op);
    }
  }

  lemma RejectingSnoc(front: seq<Op>, op: Op)
    ensures Rejecting(front + [op]) <==> op == Reject || (Rejecting(front) && !BringsFirst(front + [op], |front|))
  {
    var ops := front + [op];
    forall j | 0 <= j < |front| ensures BringsFirst(ops, j) <==> BringsFirst(front, j) { BringsFirstSnoc(front, op, j); }
    if k: nat :| RejectsSince(ops, k) {
      if k < |front| { assert RejectsSince(front, k); }
    }
    if k: nat :| RejectsSince(front, k) {
      if !BringsFirst(ops, |front|) { assert RejectsSince(ops, k); }
    }
    if op == Reject { assert RejectsSince(ops, |front|); }
  }

  lemma {:induction false} RunSnoc(s: State, ops: seq<Op>, op: Op)
    ensures Run(s, ops + [op]) == Step(Run(s, ops), op)
    decreases ops
  {
    if ops == [] {
      assert ([] + [op])[1..] == [];
    } else {
      assert (ops + [op])[1..] == ops[1..] + [op];
      RunSnoc(Step(s, ops[0]), ops[1..], op);
    }
  }

  /**
   * Every signal after every run, from the operations alone. The connected signal is closed
   * exactly when a first device came before the context ended and devices have been there ever
   * since; the rejected one exactly when no first device has come since the last rejection.
   */
  lemma {:induction false} SignalsAfter(ops: seq<Op>)
    ensures var s := Run(Initial, ops);
            && s.Valid() && s.devices == DevicesAfter(ops)
            && (s.stopped <==> Close in ops) && (s.cancelled <==> Close in ops || Cancel in ops)
            && (s.connected <==> Up(ops)) && s.disconnected == !s.connected
            && (s.rejected <==> Rejecting(ops))
  {
    if ops == [] {
      assert !Up(ops) && !Rejecting(ops);
    } else {
      var front, op := ops[..|ops| - 1], ops[|ops| - 1];
      SignalsAfter(front);
      assert ops == front + [op];
      var s, s' := Run(Initial, front), Run(Initial, ops);
      assert s' == Step(s, op) by { RunSnoc(Initial, front, op); }
      StepKeepsSignals(s, op);
      BringsFirstSnoc(front, op, |front|);
      DevicesSnoc(front, op);
      assert s'.connected <==> Up(ops) by { UpSnoc(front, op); }
      assert s'.rejected <==> Rejecting(ops) by { RejectingSnoc(front, op); }
    }
  }

  // ---------------------------------------------------------------- the object

  /** A chan struct{} used as a signal: closing it twice is a run-time panic. */
  class Signal {
    var closed: bool

    constructor (closed: bool)
      ensures this.closed == closed
    {
      this.closed := closed;
    }

    method Close()
      requires !closed
      modifies this
      ensures closed
    {
      closed := true;
    }
  }

  class BaseManager {
    var devices: set<string>
    var connected: Signal
    var disconnected: Signal
    var rejected: Signal
    var alreadyRejected: bool
    var cancelled: bool
    var stopped: bool
    ghost var cleanups: nat

    ghost function View(): (s: State)
      reads this, connected, disconnected, rejected
    {
      State(devices, connected.closed, disconnected.closed, rejected.closed,
            alreadyRejected, cancelled, stopped, cleanups)
    }

    ghost predicate Valid()
      reads this, connected, disconnected, rejected
    {
      && connected != disconnected && connected != rejected && disconnected != rejected
      && View().Valid()
    }

    constructor ()
      ensures Valid() && View() == Initial
      ensures fresh(connected) && fresh(disconnected) && fresh(rejected)
    {
      devices, alreadyRejected, cancelled, stopped, cleanups := {}, false, false, false, 0;
      connected := new Signal(false);
      disconnected := new Signal(true);
      rejected := new Signal(false);
    }

    method OnReject()
      requires Valid()
      modifies this, rejected
      ensures Valid() && View() == Step(old(View()), Reject)
      ensures connected == old(connected) && disconnected == old(disconnected) && rejected == old(rejected)
    {
      if alreadyRejected {
        return;
      }
      alreadyRejected := true;
      rejected.Close();
    }

    method OnConnected(id: string)
      requires Valid()
      modifies this, connected
      ensures Valid() && View() == Connected(old(View()), id)
      ensures fresh({connected, disconnected, rejected} - old({connected, disconnected, rejected}))
    {
      if id == "" || stopped {
        return;
      }
      var skipSignal := devices != {};
      devices := devices + {id};
      if skipSignal || cancelled || connected.closed {
        return;
      }
      connected.Close();
      disconnected := new Signal(false);
      rejected := new Signal(false);
      alreadyRejected := false;
    }

    method OnDisconnected(id: string, all: bool)
      requires Valid()
      modifies this, disconnected
      ensures Valid() && View() == Disconnected(old(View()), id, all)
      ensures fresh({connected, disconnected, rejected} - old({connected, disconnected, rejected}))
    {
      if devices == {} {
        return;
      }
      devices := if all then {} else devices - {id};
      if devices != {} {
        return;
      }
      if !disconnected.closed {
        disconnected.Close();
      }
      cleanups := cleanups + 1;
      connected := new Signal(false);
    }

    method OnClose()
      requires Valid()
      modifies this
      ensures Valid() && View() == Step(old(View()), Op.Close)
      ensures connected == old(connected) && disconnected == old(disconnected) && rejected == old(rejected)
    {
      if stopped {
        return;
      }
      cancelled := true;
      stopped := true;
    }
  }
}
