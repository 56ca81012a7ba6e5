// The gRPC streams of pkg/virtualnode/connectivity/mgr_grpc.go: any number of Sync
// loops sharing one map from device id to stream, and the connection signals.
module GrpcStreams {
  import opened Prelude
  import Signals

  /** A Sync call: in its loop, out of it with the deferred call pending, or returned. */
  datatype Phase = Running | Exiting | Exited

  datatype Stream = Stream(phase: Phase, alreadyOnline: bool, onlineID: string)

  datatype Message = InvalidState | Online(id: string) | Offline | Other(body: int)

  datatype State = State(base: Signals.State, clients: map<string, nat>, streams: map<nat, Stream>)
  {
    /** The stream has not returned and holds its device id. */
    ghost predicate Owns(s: nat)
    {
      s in streams && streams[s].phase != Exited && streams[s].alreadyOnline
    }

    ghost predicate Valid()
    {
      && base.Valid()
      && (forall s :: Owns(s) ==> streams[s].onlineID in clients && clients[streams[s].onlineID] == s)
      && (forall d :: d in clients ==>
            clients[d] in streams && streams[clients[d]].alreadyOnline && streams[clients[d]].onlineID == d)
    }
  }

  /** A new state, and the message handed on to onRecvMsg, if any. */
  datatype Effect = Effect(state: State, passed: Option<Message>)

  datatype Op =
    | Open(s: nat)
    | Receive(s: nat, msg: Message)
    | Leave(s: nat)                      // rejected, connection ended or channel closed
    | Finalize(s: nat)                   // the deferred OnDisconnected
    | Base(op: Signals.Op)               // anything else that touches the signals

  function SetStream(g: State, s: nat, t: Stream): (g': State) { g.(streams := g.streams[s := t]) }

  function RejectAll(g: State): (g': State) { g.(base := Signals.Step(g.base, Signals.Reject)) }

  function ReceiveOn(g: State, s: nat, msg: Message): (e: Effect)
    requires s in g.streams
  {
    var t := g.streams[s];
    match msg
    case InvalidState => Effect(SetStream(RejectAll(g), s, t.(phase := Exiting)), None)
    case Online(id) =>
      if t.alreadyOnline then Effect(RejectAll(g), None)
      else if id in g.clients then Effect(SetStream(RejectAll(g), s, t.(onlineID := id)), None)
      else Effect(SetStream(g.(clients := g.clients[id := s]), s, t.(onlineID := id, alreadyOnline := true)), Some(msg))
    case Offline => Effect(SetStream(g, s, t.(phase := Exiting)), None)
    case Other(_) => Effect(g, if t.alreadyOnline then Some(msg) else None)
  }

  /** The deferred call does nothing at all when no device is connected. */
  function FinalizeStream(g: State, s: nat): (g': State)
    requires s in g.streams
  {
    var t := g.streams[s];
    var g1 := SetStream(g, s, t.(phase := Exited));
    if g.base.devices == {} then g1
    else g1.(clients := if t.alreadyOnline then g.clients - {t.onlineID} else g.clients,
             base := Signals.Disconnected(g.base, t.onlineID, false))
  }

  function Step(g: State, op: Op): (e: Effect)
  {
    match op
    case Open(s) =>
      Effect(if s in g.streams then g else SetStream(g, s, Stream(Running, false, "")), None)
    case Receive(s, msg) =>
      if s in g.streams && g.streams[s].phase == Running then ReceiveOn(g, s, msg) else Effect(g, None)
    case Leave(s) =>
      Effect(if s in g.streams && g.streams[s].phase == Running
             then SetStream(g, s, g.streams[s].(phase := Exiting)) else g, None)
    case Finalize(s) =>
      Effect(if s in g.streams && g.streams[s].phase == Exiting then FinalizeStream(g, s) else g, None)
    case Base(op) => Effect(g.(base := Signals.Step(g.base, op)), None)
  }

  /** Entries of the shared map stay, except what the stream's own deferred call removes. */
  ghost predicate EntriesStay(g: State, g': State, op: Op)
  {
    forall d :: d in g.clients ==>
      if d in g'.clients then g'.clients[d] == g.clients[d] else op == Finalize(g.clients[d])
  }

  lemma ReceiveKeeps(g: State, s: nat, msg: Message)
    requires g.Valid() && s in g.streams && g.streams[s].phase == Running
    ensures var e := ReceiveOn(g, s, msg);
            && e.state.Valid() && EntriesStay(g, e.state, Receive(s, msg))
            && (e.passed.Some? ==>
                  && e.state.Owns(s) && e.passed.value == msg
                  && (msg.Online? ==> msg.id == e.state.streams[s].onlineID))
  {
    var g' := ReceiveOn(g, s, msg).state;
    forall r | g'.Owns(r) ensures g'.streams[r].onlineID in g'.clients && g'.clients[g'.streams[r].onlineID] == r {
      assert r != s ==> g.Owns(r);
    }
  }

  lemma FinalizeKeeps(g: State, s: nat)
    requires g.Valid() && s in g.streams && g.streams[s].phase == Exiting
    ensures FinalizeStream(g, s).Valid() && EntriesStay(g, FinalizeStream(g, s), Finalize(s))
  {
    var g' := FinalizeStream(g, s);
    forall r | g'.Owns(r) ensures g'.streams[r].onlineID in g'.clients && g'.clients[g'.streams[r].onlineID] == r {
      assert r != s && g.Owns(r);
    }
  }

  lemma PhaseKeeps(g: State, s: nat, t: Stream)
    requires g.Valid() && t.phase != Exited
    requires if s in g.streams then t == g.streams[s].(phase := t.phase) && g.streams[s].phase != Exited
             else !t.alreadyOnline
    ensures SetStream(g, s, t).Valid()
  {
    var g' := SetStream(g, s, t);
    forall r | g'.Owns(r) ensures g'.streams[r].onlineID in g'.clients && g'.clients[g'.streams[r].onlineID] == r {
      assert g.Owns(r);
    }
  }

  /** An online message is accepted: the stream has no id yet, and nobody holds this one. */
  ghost predicate Accepts(g: State, s: nat, msg: Message)
    requires s in g.streams
  {
    msg.Online? && !g.streams[s].alreadyOnline && msg.id !in g.clients
  }

  /**
   * What a running stream does with a message. It passes on exactly the ordinary messages of
   * a stream that holds an id and the online messages it accepts, leaves its loop exactly on
   * an invalid or offline message, and rejects exactly invalid and refused ones.
   */
  lemma ReceiveExact(g: State, s: nat, msg: Message)
    requires g.Valid() && s in g.streams && g.streams[s].phase == Running
    ensures var e := Step(g, Receive(s, msg));
            && e.passed == (if (msg.Other? && g.Owns(s)) || Accepts(g, s, msg) then Some(msg) else None)
            && e.state.streams.Keys == g.streams.Keys
            && (forall r :: r in g.streams && r != s ==> e.state.streams[r] == g.streams[r])
            && e.state.streams[s].phase == (if msg.InvalidState? || msg.Offline? then Exiting else Running)
            && (e.state.Owns(s) <==> g.Owns(s) || Accepts(g, s, msg))
            && e.state.clients == (if Accepts(g, s, msg) then g.clients[msg.id := s] else g.clients)
            && e.state.base == if msg.InvalidState? || (msg.Online? && !Accepts(g, s, msg))
                               then Signals.Step(g.base, Signals.Reject) else g.base
  {
  }

  /** Leaving the loop changes nothing but the phase of the stream. */
  lemma LeaveExact(g: State, s: nat)
    requires s in g.streams && g.streams[s].phase == Running
    ensures var g' := Step(g, Leave(s)).state;
            g'.streams[s].phase == Exiting && g'.streams[s].(phase := Running) == g.streams[s]
            && g'.(streams := g.streams) == g && g'.streams - {s} == g.streams - {s}
  {
  }

  /**
   * The end of a stream: while a device is connected its own entry goes, and no other, and
   * the device under its id is reported lost.
   */
  lemma FinalizeExact(g: State, s: nat)
    requires g.Valid() && s in g.streams && g.streams[s].phase == Exiting
    ensures var g' := Step(g, Finalize(s)).state;
            && g'.streams == g.streams[s := g.streams[s].(phase := Exited)]
            && (forall d :: d in g.clients ==> (d in g'.clients <==> g.clients[d] != s || g.base.devices == {}))
            && (forall d :: d in g'.clients ==> d in g.clients && g'.clients[d] == g.clients[d])
            && g'.base == Signals.Step(g.base, Signals.Disconnect(g.streams[s].onlineID, false))
  {
  }

  /** A device whose stream has ended while a device was connected can come back on another stream. */
  lemma DeviceComesBack(g: State, s: nat, r: nat)
    requires g.Valid() && g.Owns(s) && g.streams[s].phase == Exiting && g.base.devices != {}
    requires r in g.streams && g.streams[r].phase == Running && !g.streams[r].alreadyOnline
    ensures var id := g.streams[s].onlineID;
            var e := Step(Step(g, Finalize(s)).state, Receive(r, Online(id)));
            e.passed == Some(Online(id)) && e.state.Owns(r) && e.state.streams[r].onlineID == id
  {
    FinalizeExact(g, s);
    FinalizeKeeps(g, s);
    ReceiveExact(Step(g, Finalize(s)).state, r, Online(g.streams[s].onlineID));
  }

  /**
   * One step of any stream: an entry of the shared map is never overwritten, only its
   * owner's deferred call removes it, and a message is passed on only from a stream
   * that owns its id; an online message carries that very id.
   */
  lemma StepKeepsOwnership(g: State, op: Op)
    requires g.Valid()
    ensures var e := Step(g, op);
            && e.state.Valid() && EntriesStay(g, e.state, op)
            && (e.passed.Some? ==>
                  && op.Receive? && e.state.Owns(op.s) && e.passed.value == op.msg
                  && (op.msg.Online? ==> op.msg.id == e.state.streams[op.s].onlineID))
  {
    match op
    case Open(s) => if s !in g.streams { PhaseKeeps(g, s, Stream(Running, false, "")); }
    case Receive(s, msg) => if s in g.streams && g.streams[s].phase == Running { ReceiveKeeps(g, s, msg); }
    case Leave(s) =>
      if s in g.streams && g.streams[s].phase == Running { PhaseKeeps(g, s, g.streams[s].(phase := Exiting)); }
    case Finalize(s) => if s in g.streams && g.streams[s].phase == Exiting { FinalizeKeeps(g, s); }
    case Base(op) =>
      assert forall r :: g.Owns(r) <==> g.(base := Signals.Step(g.base, op)).Owns(r);
  }

  ghost function Run(g: State, ops: seq<Op>): (g': State)
    decreases ops
  {
    if ops == [] then g else Run(Step(g, ops[0]).state, ops[1..])
  }

  /** For any interleaving, two streams that have not returned are never online under one id. */
  lemma {:induction false} RunKeepsOwnersApart(g: State, ops: seq<Op>)
    requires g.Valid()
    ensures var g' := Run(g, ops);
            && g'.Valid()
            && forall r, s :: g'.Owns(r) && g'.Owns(s) && g'.streams[r].onlineID == g'.streams[s].onlineID ==> r == s
    decreases ops
  {
    if ops != [] {
      StepKeepsOwnership(g, ops[0]);
      RunKeepsOwnersApart(Step(g, ops[0]).state, ops[1..]);
    }
  }

  /**
   * A stream that was refused because its id was taken still remembers that id, and its
   * deferred call reports it as lost. Exactly then does the end of one stream drop a
   * connected device that belongs to another stream that has not ended.
   */
  lemma RefusedStreamDropsOwner(g: State, s: nat)
    requires g.Valid() && s in g.streams && g.streams[s].phase == Exiting
    ensures var g' := FinalizeStream(g, s);
            (exists r :: r != s && g.Owns(r) && g.streams[r].onlineID in g.base.devices - g'.base.devices)
            <==>
            && !g.streams[s].alreadyOnline
            && g.streams[s].onlineID in g.base.devices
            && g.streams[s].onlineID in g.clients
            && g.Owns(g.clients[g.streams[s].onlineID])
  {
    var id := g.streams[s].onlineID;
    if id in g.clients && g.Owns(g.clients[id]) && !g.streams[s].alreadyOnline && id in g.base.devices {
      var r := g.clients[id];
      assert r != s && g.Owns(r) && g.streams[r].onlineID == id;
    }
  }

  /** Stream 2 asks for the id that stream 1 is online under, is refused, and ends. */
  const RefusedRun: seq<Op> := [
    Open(1), Receive(1, Online("a")), Base(Signals.Connect("a")), Open(2), Receive(2, Online("a")), Leave(2), Finalize(2)]

  lemma {:induction false} RunChain(gs: seq<State>, ops: seq<Op>, n: nat)
    requires |gs| == |ops| + 1 && n <= |ops|
    requires forall i :: 0 <= i < |ops| ==> gs[i + 1] == Step(gs[i], ops[i]).state
    ensures Run(gs[0], ops[..n]) == gs[n]
  {
    if n > 0 {
      RunChain(gs, ops, n - 1);
      RunSnoc(gs[0], ops[..n - 1], ops[n - 1]);
      assert ops[..n] == ops[..n - 1] + [ops[n - 1]];
    }
  }

  lemma {:induction false} RunSnoc(g: State, ops: seq<Op>, op: Op)
    ensures Run(g, ops + [op]) == Step(Run(g, ops), op).state
    decreases ops
  {
    if ops == [] {
      assert ([] + [op])[1..] == [];
    } else {
      assert (ops + [op])[1..] == ops[1..] + [op];
      RunSnoc(Step(g, ops[0]).state, ops[1..], op);
    }
  }

  /** The states of that run: stream 1 online as "a", and stream 2 on its way. */
  ghost function Met(base: Signals.State, t: Stream): (g: State)
  {
    State(base, map["a" := 1], map[1 := Stream(Running, true, "a"), 2 := t])
  }

  lemma RefusedSteps()
    ensures var up := Signals.Step(Signals.Initial, Signals.Connect("a"));
            var refused := Signals.Step(up, Signals.Reject);
            && up.devices == refused.devices == {"a"}
            && Step(Met(up, Stream(Running, false, "")), Receive(2, Online("a"))).state == Met(refused, Stream(Running, false, "a"))
            && Step(Met(refused, Stream(Running, false, "a")), Leave(2)).state == Met(refused, Stream(Exiting, false, "a"))
            && Step(Met(refused, Stream(Exiting, false, "a")), Finalize(2)).state ==
               Met(Signals.Disconnected(refused, "a", false), Stream(Exited, false, "a"))
            && Signals.Disconnected(refused, "a", false).devices == {}
  {
    var up := Signals.Step(Signals.Initial, Signals.Connect("a"));
    assert up.devices == {"a"};
  }

  /** From the start, stream 1 goes online as "a"; the end of stream 2 drops "a" while stream 1 still holds it. */
  lemma RefusedStreamRun()
    ensures var before := Run(State(Signals.Initial, map[], map[]), RefusedRun[..6]);
            before.Owns(1) && before.streams[1].onlineID == "a" && "a" in before.base.devices
    ensures var after := Run(State(Signals.Initial, map[], map[]), RefusedRun);
            after.Owns(1) && after.streams[1].onlineID == "a" && "a" !in after.base.devices
  {
    var g0 := State(Signals.Initial, map[], map[]);
    var up := Signals.Step(Signals.Initial, Signals.Connect("a"));
    var refused := Signals.Step(up, Signals.Reject);
    var g1, g2 := Step(g0, Open(1)).state, State(Signals.Initial, map["a" := 1], map[1 := Stream(Running, true, "a")]);
    var g3, g4 := g2.(base := up), Met(up, Stream(Running, false, ""));
    var g5, g6 := Met(refused, Stream(Running, false, "a")), Met(refused, Stream(Exiting, false, "a"));
    var g7 := Met(Signals.Disconnected(refused, "a", false), Stream(Exited, false, "a"));
    RefusedSteps();
    assert Step(g1, Receive(1, Online("a"))).state == g2;
    assert Step(g3, Open(2)).state == g4;
    var gs := [g0, g1, g2, g3, g4, g5, g6, g7];
    RunChain(gs, RefusedRun, 6);
    RunChain(gs, RefusedRun, 7);
    assert RefusedRun[..7] == RefusedRun;
  }

  // ---------------------------------------------------------------- the object

  class GrpcManager {
    const base: Signals.BaseManager
    var clientSessions: map<string, nat>
    var streams: map<nat, Stream> // the local variables of every Sync call

    ghost function View(): (g: State)
      reads this, base, base.connected, base.disconnected, base.rejected
    {
      State(base.View(), clientSessions, streams)
    }

    ghost predicate Valid()
      reads this, base, base.connected, base.disconnected, base.rejected
    {
      base.Valid() && View().Valid()
    }

    constructor ()
      ensures Valid() && View() == State(Signals.Initial, map[], map[])
    {
      base := new Signals.BaseManager();
      clientSessions, streams := map[], map[];
    }

    /** One round of the loop in Sync. */
    method Receive(s: nat, msg: Message) returns (passed: Option<Message>)
      requires Valid() && s in streams && streams[s].phase == Running
      modifies this, base, base.rejected
      ensures Valid() && Effect(View(), passed) == ReceiveOn(old(View()), s, msg)
    {
      ReceiveKeeps(View(), s, msg);
      var t := streams[s];
      if msg.InvalidState? {
        base.OnReject();
        streams := streams[s := t.(phase := Exiting)];
        return None;
      }
      if msg.Online? {
        if t.alreadyOnline {
          base.OnReject();
          return None;
        }
        t := t.(onlineID := msg.id);
        if msg.id in clientSessions {
          streams := streams[s := t];
          base.OnReject();
          return None;
        }
        clientSessions := clientSessions[msg.id := s];
        t := t.(alreadyOnline := true);
        streams := streams[s := t];
      } else if msg.Offline? {
        streams := streams[s := t.(phase := Exiting)];
        return None;
      }
      if !t.alreadyOnline {
        return None;
      }
      return Some(msg);
    }

    method Finalize(s: nat)
      requires Valid() && s in streams && streams[s].phase == Exiting
      modifies this, base, base.disconnected
      ensures Valid() && View() == FinalizeStream(old(View()), s)
    {
      FinalizeKeeps(View(), s);
      var t := streams[s];
      streams := streams[s := t.(phase := Exited)];
      if base.devices != {} {
        if t.alreadyOnline {
          clientSessions := clientSessions - {t.onlineID};
        }
        base.OnDisconnected(t.onlineID, false);
      }
    }
  }
}
