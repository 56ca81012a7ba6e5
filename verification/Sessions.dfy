// Sessions of pkg/virtualnode/connectivity/session_manager.go as values: one
// session, the session table, its steps, and what every run of steps keeps.
module Sessions {
  import opened Prelude

  /** A Go channel: nil, open, or closed. */
  datatype Chan = Unset | Open | Closed

  /** A message from the device; `data` is stream data, anything else is a reply. */
  datatype Msg = Msg(sid: nat, data: bool, seqNo: nat, complete: bool, body: int)

  /** What a session puts on its message channel. */
  datatype Item = Reply(msg: Msg) | ErrorItem

  /** A chunk the sequence queue releases, and whether writing it to the stream's sink succeeds. */
  datatype Chunk = Chunk(data: bool, ioOk: bool)

  /**
   * What the sequence queue does with one offered message: the chunks it releases and
   * whether the sequence is complete. The queue is not modelled; any answer is allowed.
   */
  datatype Offer = Offer(released: seq<Chunk>, complete: bool)

  datatype SessionState = SessionState(
    epoch: nat,
    isStream: bool,
    done: Chan,        // _closed
    ready: Chan,       // streamReady
    fired: bool,       // _streamReady
    messages: Chan,    // msgCh
    inbox: seq<Item>)  // everything ever sent on msgCh
  {
    ghost predicate Valid()
    {
      && done != Unset && messages == done
      && (fired ==> ready != Open)
      && (done == Open && ready == Unset ==> !fired)
      && (done == Closed ==> fired)
    }

    /** The first data write closes the ready channel, so there has to be one. */
    predicate CanWrite() { isStream && !fired ==> ready != Unset }

    /** A stream whose creation timed out before its first data. */
    predicate Late() { isStream && ready == Closed && !fired }
  }

  function Fresh(epoch: nat, isStream: bool): (s: SessionState)
  {
    SessionState(epoch, isStream, Open, Unset, false, Open, [])
  }

  // ---------------------------------------------------------------- one session

  /** close(ch), which panics on a nil or closed channel. */
  function Shut(c: Chan): (r: Chan)
    requires c == Open
  {
    Closed
  }

  /** A send on the message channel, which panics once it is closed. */
  function Send(s: SessionState, i: Item): (s': SessionState)
    requires s.messages == Open
  {
    s.(inbox := s.inbox + [i])
  }

  function CloseSession(s: SessionState): (s': SessionState)
    requires s.done != Unset
  {
    if s.done == Closed then s
    else s.(done := Shut(s.done),
            ready := if !s.fired && s.ready == Open then Shut(s.ready) else s.ready,
            fired := true,
            messages := if s.messages == Open then Shut(s.messages) else s.messages)
  }

  function AttachStream(s: SessionState): (s': SessionState)
  {
    if s.ready != Unset then s else s.(ready := Open, fired := false)
  }

  /** The creation timeout closes the ready channel unless somebody else has. */
  function ExpireReady(s: SessionState): (s': SessionState)
  {
    if s.ready == Open then s.(ready := Shut(s.ready)) else s
  }

  /** writeToStream: the new state and whether it reported an error. */
  function Write(s: SessionState, ioOk: bool): (r: (SessionState, bool))
    requires s.CanWrite()
  {
    if !s.isStream then (s, true)
    else if s.fired then (s, !ioOk)
    else if s.ready == Closed then (s.(fired := true), true)
    else (s.(fired := true, ready := Shut(s.ready)), !ioOk)
  }

  /** One released chunk: stream data is written, a failed write is reported, replies are buffered. */
  function Release(s: SessionState, c: Chunk): (s': SessionState)
    requires s.messages == Open && (c.data ==> s.CanWrite())
    ensures s'.messages == Open
  {
    if !c.data then s
    else var (w, failed) := Write(s, c.ioOk);
         if failed then Send(w, ErrorItem) else w
  }

  predicate AnyData(cs: seq<Chunk>) { exists c :: c in cs && c.data }

  function ReleaseAll(s: SessionState, cs: seq<Chunk>): (s': SessionState)
    requires s.messages == Open && (AnyData(cs) ==> s.CanWrite())
    ensures s'.done == s.done
    decreases cs
  {
    if cs == [] then s else ReleaseAll(Release(s, cs[0]), cs[1..])
  }

  datatype Delivery = Delivery(session: SessionState, delivered: bool, complete: bool)

  /** Delivering the message writes to the stream. */
  predicate Writes(m: Msg, offer: Offer)
  {
    if m.seqNo == 0 && m.complete then m.data else AnyData(offer.released)
  }

  /** deliverMsg. Once a reply in several messages completes, close() has dropped its buffer. */
  function Deliver(s: SessionState, m: Msg, ioOk: bool, offer: Offer): (d: Delivery)
    requires s.Valid() && (Writes(m, offer) ==> s.CanWrite())
  {
    if s.done == Closed then Delivery(s, false, true)
    else if m.seqNo == 0 && m.complete then
      var s1 := if m.data then Release(s, Chunk(true, ioOk)) else Send(s, Reply(m));
      Delivery(CloseSession(s1), true, true)
    else
      var s1 := ReleaseAll(s, offer.released);
      if offer.complete then Delivery(CloseSession(s1), true, true) else Delivery(s1, true, false)
  }

  /** How a session may change: channels only open then close, and a closed one gets nothing more. */
  ghost predicate Advances(s: SessionState, s': SessionState)
  {
    && s'.epoch == s.epoch && s'.isStream == s.isStream
    && (s.done == Closed ==> s'.done == Closed)
    && (s.ready == Open ==> s'.ready != Unset)
    && (s.ready == Closed ==> s'.ready == Closed)
    && (s.fired && s.ready != Unset ==> s'.fired)
    && s.inbox <= s'.inbox
    && (s.messages == Closed ==> s'.messages == Closed && s'.inbox == s.inbox)
  }

  lemma {:induction false} ReleaseAllAdvances(s: SessionState, cs: seq<Chunk>)
    requires s.Valid() && s.done == Open && (AnyData(cs) ==> s.CanWrite())
    ensures var s' := ReleaseAll(s, cs);
            s'.Valid() && Advances(s, s') && s'.done == Open
    ensures forall m :: Reply(m) in ReleaseAll(s, cs).inbox ==> Reply(m) in s.inbox
    decreases cs
  {
    if cs != [] { ReleaseAllAdvances(Release(s, cs[0]), cs[1..]); }
  }

  /**
   * A delivery keeps the session in shape, ends it when it says complete, and adds a
   * reply to its channel exactly when the session is open and the whole reply is one
   * message: a reply in several messages is never delivered, whatever the queue does.
   */
  lemma DeliverAdvances(s: SessionState, m: Msg, ioOk: bool, offer: Offer)
    requires s.Valid() && (Writes(m, offer) ==> s.CanWrite())
    ensures var d := Deliver(s, m, ioOk, offer);
            && d.session.Valid() && Advances(s, d.session)
            && (d.complete <==> d.session.done == Closed)
            && (d.delivered <==> s.done == Open)
            && (forall n :: Reply(n) in d.session.inbox && Reply(n) !in s.inbox ==> n == m)
            && (Reply(m) !in s.inbox ==>
                  (Reply(m) in d.session.inbox <==> s.done == Open && m.seqNo == 0 && m.complete && !m.data))
  {
    if s.done == Open && !(m.seqNo == 0 && m.complete) { ReleaseAllAdvances(s, offer.released); }
  }

  /** How many of the chunks fail to be written: all for no stream, the first after a timeout, and those the sink refuses. */
  function Failures(isStream: bool, late: bool, cs: seq<Chunk>): (n: nat)
    decreases cs
  {
    if cs == [] then 0
    else if !cs[0].data then Failures(isStream, late, cs[1..])
    else (if !isStream || late || !cs[0].ioOk then 1 else 0) + Failures(isStream, false, cs[1..])
  }

  function Errors(n: nat): (items: seq<Item>) { seq(n, _ => ErrorItem) }

  /** Every chunk that fails to be written puts one error on the channel, and the first write releases whoever waits for it. */
  lemma {:induction false} ReleaseAllReports(s: SessionState, cs: seq<Chunk>)
    requires s.Valid() && s.done == Open && (AnyData(cs) ==> s.CanWrite())
    ensures var s' := ReleaseAll(s, cs);
            && s'.inbox == s.inbox + Errors(Failures(s.isStream, s.Late(), cs))
            && (if s.isStream && AnyData(cs) then s'.ready == Closed && s'.fired else s'.ready == s.ready && s'.fired == s.fired)
    decreases cs
  {
    if cs == [] {
      assert s.inbox + Errors(0) == s.inbox;
    } else {
      var s1 := Release(s, cs[0]);
      assert cs == [cs[0]] + cs[1..];
      ReleaseAllReports(s1, cs[1..]);
      if cs[0].data && s1.inbox != s.inbox {
        var n := Failures(s.isStream, false, cs[1..]);
        assert s1.inbox + Errors(n) == s.inbox + Errors(n + 1);
      }
    }
  }

  /**
   * What a delivery leaves on the channel of an open session: the reply, if it is one message,
   * or an error for each chunk that fails. It ends the session exactly when the message is
   * whole or the queue has the last one.
   */
  lemma DeliverExact(s: SessionState, m: Msg, ioOk: bool, offer: Offer)
    requires s.Valid() && (Writes(m, offer) ==> s.CanWrite())
    ensures var d, whole := Deliver(s, m, ioOk, offer), m.seqNo == 0 && m.complete;
            && (s.done == Closed ==> d.session == s)
            && (s.done == Open ==>
                  && (d.complete <==> whole || offer.complete)
                  && d.session.inbox == s.inbox +
                     if whole && !m.data then [Reply(m)]
                     else Errors(Failures(s.isStream, s.Late(),
                                          if whole then [Chunk(true, ioOk)] else offer.released)))
  {
    if s.done == Open {
      if m.seqNo == 0 && m.complete {
        var c := [Chunk(true, ioOk)];
        assert c[0] in c && c[1..] == [];
        if m.data {
          ReleaseAllReports(s, c);
          assert ReleaseAll(s, c) == Release(s, c[0]);
        }
      } else {
        ReleaseAllReports(s, offer.released);
      }
    }
  }

  // ---------------------------------------------------------------- the session table

  /**
   * Every session object ever made, by the id it was given; the ids in the table; the
   * last id issued; the current epoch; and the dispatches between their lookup and
   * their delivery.
   */
  datatype State = State(objs: map<nat, SessionState>, table: set<nat>, sid: nat, epoch: nat, flights: seq<Msg>)
  {
    ghost predicate Valid()
    {
      && table <= objs.Keys
      && (forall k :: k in objs ==> Fits(k))
      && (forall i :: 0 <= i < |flights| ==> flights[i].sid in objs)
    }

    /** In the table exactly while the message channel is open, and then, if unary, of this epoch. */
    ghost predicate Fits(k: nat)
      requires k in objs
    {
      && objs[k].Valid() && 0 < k <= sid
      && (k in table <==> objs[k].messages == Open)
      && (k in table && !objs[k].isStream ==> objs[k].epoch == epoch)
    }
  }

  function Start(now: nat): (st: State) { State(map[], {}, now, now, []) }

  datatype Op =
    | Add(arg: nat, isStream: bool)
    | SetStream(id: nat)
    | ReadyTimeout(id: nat)
    | Lookup(msg: Msg)                          // Dispatch, under the lock
    | Finish(k: nat, ioOk: bool, offer: Offer)  // the rest of that Dispatch
    | Delete(id: nat)
    | Cleanup(now: nat)

  function AddSession(st: State, arg: nat, isStream: bool): (st': State)
  {
    if arg in st.table then st
    else st.(objs := st.objs[st.sid + 1 := Fresh(st.epoch, isStream)],
             table := st.table + {st.sid + 1},
             sid := st.sid + 1)
  }

  function DeleteSession(st: State, id: nat): (st': State)
    requires id in st.table ==> id in st.objs && st.objs[id].done != Unset
  {
    if id !in st.table then st
    else st.(objs := st.objs[id := CloseSession(st.objs[id])], table := st.table - {id})
  }

  function Update(st: State, id: nat, s: SessionState): (st': State) { st.(objs := st.objs[id := s]) }

  /** Dispatch after the lookup: drop a message of an older epoch, else deliver it. */
  function DeliverTo(st: State, id: nat, m: Msg, ioOk: bool, offer: Offer): (st': State)
    requires id in st.objs && st.objs[id].Valid() && (Writes(m, offer) ==> st.objs[id].CanWrite())
  {
    var s := st.objs[id];
    DeliverAdvances(s, m, ioOk, offer);
    if s.epoch != st.epoch && !s.isStream then DeleteSession(st, id)
    else
      var d := Deliver(s, m, ioOk, offer);
      var st1 := Update(st, id, d.session);
      if d.complete then DeleteSession(st1, id) else st1
  }

  function CloseUnaryIn(objs: map<nat, SessionState>, table: set<nat>): (objs': map<nat, SessionState>)
    requires forall k :: k in objs ==> objs[k].done != Unset
  {
    map k | k in objs :: if k in table && !objs[k].isStream then CloseSession(objs[k]) else objs[k]
  }

  function StreamsIn(objs: map<nat, SessionState>, table: set<nat>): (streams: set<nat>)
    requires table <= objs.Keys
  {
    set k | k in table && objs[k].isStream
  }

  function CleanupSessions(st: State, now: nat): (st': State)
    requires st.table <= st.objs.Keys && forall k :: k in st.objs ==> st.objs[k].done != Unset
  {
    State(CloseUnaryIn(st.objs, st.table),
          StreamsIn(st.objs, st.table),
          if st.sid < now then now else st.sid,
          now,
          st.flights)
  }

  /** One operation; None is a runtime panic, the close of a nil ready channel. */
  function Step(st: State, op: Op): (r: Option<State>)
    requires st.Valid()
  {
    match op
    case Add(arg, isStream) => Some(AddSession(st, arg, isStream))
    case SetStream(id) => Some(if id in st.table then Update(st, id, AttachStream(st.objs[id])) else st)
    case ReadyTimeout(id) => Some(if id in st.objs then Update(st, id, ExpireReady(st.objs[id])) else st)
    case Lookup(m) => Some(if m.sid in st.table then st.(flights := st.flights + [m]) else st)
    case Finish(k, ioOk, offer) =>
      if k >= |st.flights| then Some(st)
      else
        var m := st.flights[k];
        var st1 := st.(flights := st.flights[..k] + st.flights[k + 1..]);
        if Writes(m, offer) && !st.objs[m.sid].CanWrite() then None
        else Some(DeliverTo(st1, m.sid, m, ioOk, offer))
    case Delete(id) => Some(DeleteSession(st, id))
    case Cleanup(now) => Some(CleanupSessions(st, now))
  }

  // ---------------------------------------------------------------- what one step keeps

  /** The rest of the state stands still: only the named session may change. */
  ghost predicate OnlyChanges(st: State, st': State, id: nat)
  {
    && st'.objs.Keys == st.objs.Keys && st'.sid == st.sid && st'.epoch == st.epoch
    && (forall k :: k in st.objs && k != id ==> st'.objs[k] == st.objs[k])
    && st.table - {id} <= st'.table <= st.table
  }

  lemma DeliverToKeeps(st: State, id: nat, m: Msg, ioOk: bool, offer: Offer)
    requires st.Valid() && id in st.objs && (Writes(m, offer) ==> st.objs[id].CanWrite())
    ensures var st' := DeliverTo(st, id, m, ioOk, offer);
            && st'.Valid() && OnlyChanges(st, st', id) && Advances(st.objs[id], st'.objs[id])
            && st'.flights == st.flights
  {
    DeliverAdvances(st.objs[id], m, ioOk, offer);
  }

  /** Everything that holds between one state of the table and any later one. */
  ghost predicate Later(st: State, st': State)
  {
    && st.objs.Keys <= st'.objs.Keys && st.sid <= st'.sid
    && (forall k :: k in st.objs ==> Advances(st.objs[k], st'.objs[k]))
    && (forall k :: k in st.objs && k !in st.table ==> k !in st'.table)
    && (forall k :: k in st'.objs && k !in st.objs ==> st.sid < k)
  }

  lemma LaterIsTransitive(a: State, b: State, c: State)
    requires Later(a, b) && Later(b, c)
    ensures Later(a, c)
  {
    forall k | k in a.objs ensures Advances(a.objs[k], c.objs[k]) {
      assert Advances(a.objs[k], b.objs[k]) && Advances(b.objs[k], c.objs[k]);
    }
  }

  /** Changing one session in place, in a way a session may change, keeps everything. */
  lemma UpdateKeeps(st: State, id: nat, s: SessionState)
    requires st.Valid() && id in st.objs && s.Valid() && Advances(st.objs[id], s) && s.messages == st.objs[id].messages
    ensures Update(st, id, s).Valid() && Later(st, Update(st, id, s))
  {
  }

  lemma DeleteKeeps(st: State, id: nat)
    requires st.Valid()
    ensures DeleteSession(st, id).Valid() && Later(st, DeleteSession(st, id))
  {
  }

  lemma CleanupKeeps(st: State, now: nat)
    requires st.Valid()
    ensures CleanupSessions(st, now).Valid() && Later(st, CleanupSessions(st, now))
  {
  }

  lemma FinishKeeps(st: State, k: nat, ioOk: bool, offer: Offer)
    requires st.Valid() && k < |st.flights| && Step(st, Finish(k, ioOk, offer)).Some?
    ensures var st' := Step(st, Finish(k, ioOk, offer)).value;
            && st'.Valid() && Later(st, st')
            && st'.flights == st.flights[..k] + st.flights[k + 1..]
  {
    var st1 := st.(flights := st.flights[..k] + st.flights[k + 1..]);
    forall i | 0 <= i < |st1.flights|
      ensures st1.flights[i].sid in st1.objs
    {
      assert st1.flights[i] == st.flights[if i < k then i else i + 1];
    }
    DeliverToKeeps(st1, st.flights[k].sid, st.flights[k], ioOk, offer);
  }

  /**
   * Every operation keeps the table right: a session is in it exactly while its message
   * channel is open, ids only grow, and no channel is reopened or used after its close.
   */
  lemma StepKeeps(st: State, op: Op)
    requires st.Valid() && Step(st, op).Some?
    ensures Step(st, op).value.Valid() && Later(st, Step(st, op).value)
  {
    match op
    case Add(arg, isStream) =>
    case SetStream(id) => if id in st.table { UpdateKeeps(st, id, AttachStream(st.objs[id])); }
    case ReadyTimeout(id) => if id in st.objs { UpdateKeeps(st, id, ExpireReady(st.objs[id])); }
    case Lookup(m) =>
    case Finish(k, ioOk, offer) => if k < |st.flights| { FinishKeeps(st, k, ioOk, offer); }
    case Delete(id) => DeleteKeeps(st, id);
    case Cleanup(now) => CleanupKeeps(st, now);
  }

  /**
   * A live id is used again. Otherwise a new session gets the id after the largest ever
   * issued, never 0: open, of the kind asked for, of this epoch, with nothing on its channel.
   */
  lemma AddIssuesFreshId(st: State, arg: nat, isStream: bool)
    requires st.Valid()
    ensures Step(st, Add(arg, isStream)).Some?
    ensures var st' := Step(st, Add(arg, isStream)).value;
            && (arg in st.table ==> st' == st)
            && (arg !in st.table ==>
                  && st.sid < st'.sid && st'.sid !in st.objs && (forall k :: k in st.objs ==> k < st'.sid)
                  && st'.table == st.table + {st'.sid} && st'.objs.Keys == st.objs.Keys + {st'.sid}
                  && (forall k :: k in st.objs ==> st'.objs[k] == st.objs[k])
                  && var s := st'.objs[st'.sid];
                     && s.messages == Open && s.done == Open && s.ready == Unset && s.inbox == []
                     && s.isStream == isStream && s.epoch == st.epoch)
  {
  }

  /**
   * Delete takes the session out of the table, closes its channels, sends nothing, and
   * touches no other session.
   */
  lemma DeleteEnds(st: State, id: nat)
    requires st.Valid()
    ensures Step(st, Delete(id)).Some?
    ensures var st' := Step(st, Delete(id)).value;
            && st'.table == st.table - {id} && OnlyChanges(st, st', id) && st'.flights == st.flights
            && (id in st.table ==>
                  && st'.objs[id].done == Closed && st'.objs[id].messages == Closed && st'.objs[id].ready != Open
                  && st'.objs[id].inbox == st.objs[id].inbox)
            && (id !in st.table ==> st' == st)
  {
  }

  /** SetStream gives a live session its ready channel, open, unless it has one, and changes nothing else. */
  lemma SetStreamOpensReady(st: State, id: nat)
    requires st.Valid()
    ensures Step(st, SetStream(id)).Some?
    ensures var st' := Step(st, SetStream(id)).value;
            && st'.table == st.table && OnlyChanges(st, st', id) && st'.flights == st.flights
            && (id !in st.table || st.objs[id].ready != Unset ==> st' == st)
            && (id in st.table && st.objs[id].ready == Unset ==>
                  && st'.objs[id].ready == Open && !st'.objs[id].fired
                  && st'.objs[id] == st.objs[id].(ready := st'.objs[id].ready, fired := st'.objs[id].fired))
  {
    if id in st.table { assert st.objs[id := st.objs[id]] == st.objs; }
  }

  /** After the creation timeout no ready channel is open, and nothing else has changed. */
  lemma TimeoutClosesReady(st: State, id: nat)
    requires st.Valid()
    ensures Step(st, ReadyTimeout(id)).Some?
    ensures var st' := Step(st, ReadyTimeout(id)).value;
            && st'.table == st.table && OnlyChanges(st, st', id) && st'.flights == st.flights
            && (id in st.objs ==>
                  && (st'.objs[id].ready == Closed <==> st.objs[id].ready != Unset) && st'.objs[id].ready != Open
                  && st'.objs[id] == st.objs[id].(ready := st'.objs[id].ready))
  {
  }

  /** A message is taken up for delivery exactly when its session is live. */
  lemma LookupTakesLive(st: State, m: Msg)
    requires st.Valid()
    ensures Step(st, Lookup(m)) == Some(if m.sid in st.table then st.(flights := st.flights + [m]) else st)
  {
  }

  /** A reply that is one message reaches the channel exactly when its session is still live, and ends it. */
  lemma FinishDelivers(st: State, k: nat, ioOk: bool, offer: Offer)
    requires st.Valid() && k < |st.flights|
    requires var m := st.flights[k]; !m.data && m.seqNo == 0 && m.complete
    ensures Step(st, Finish(k, ioOk, offer)).Some?
    ensures var m := st.flights[k];
            var st' := Step(st, Finish(k, ioOk, offer)).value;
            && OnlyChanges(st, st', m.sid) && m.sid !in st'.table
            && st'.objs[m.sid].inbox == st.objs[m.sid].inbox + if m.sid in st.table then [Reply(m)] else []
  {
    FinishKeeps(st, k, ioOk, offer);
  }

  /** The only panic: data for a stream session whose ready channel was never set. */
  lemma StepPanicsExactly(st: State, op: Op)
    requires st.Valid()
    ensures Step(st, op).None? <==>
            && op.Finish? && op.k < |st.flights| && Writes(st.flights[op.k], op.offer)
            && var s := st.objs[st.flights[op.k].sid];
               s.isStream && s.done == Open && s.ready == Unset
  {
  }

  /** Cleanup opens a new epoch, leaves only streams, and closes every other session. Ids go on growing. */
  lemma CleanupLeavesStreams(st: State, now: nat)
    requires st.Valid()
    ensures Step(st, Cleanup(now)).Some?
    ensures var st' := Step(st, Cleanup(now)).value;
            && st'.epoch == now && st'.sid >= st.sid && st'.sid >= now && (st'.sid == st.sid || st'.sid == now)
            && st'.objs.Keys == st.objs.Keys && st'.flights == st.flights
            && (forall k :: k in st.objs && k !in st.table ==> st'.objs[k] == st.objs[k])
            && (forall k :: k in st'.table <==> k in st.table && st.objs[k].isStream)
            && (forall k :: k in st'.table ==> st'.objs[k] == st.objs[k])
            && (forall k :: k in st.table && k !in st'.table ==> st'.objs[k].messages == Closed && st'.objs[k].inbox == st.objs[k].inbox)
  {
  }

  /** A message whose session is from an older epoch finds that session already out of the table. */
  lemma StaleIsGone(st: State, id: nat)
    requires st.Valid() && id in st.objs && st.objs[id].epoch != st.epoch && !st.objs[id].isStream
    ensures id !in st.table && DeleteSession(st, id) == st
  {
  }

  /** A message for an ended session changes nothing and is not delivered to anyone. */
  lemma LateMessageIsLost(st: State, id: nat, m: Msg, ioOk: bool, offer: Offer)
    requires st.Valid() && id in st.objs && id !in st.table
    ensures Writes(m, offer) ==> st.objs[id].CanWrite()
    ensures DeliverTo(st, id, m, ioOk, offer) == st
  {
    assert Update(st, id, st.objs[id]).objs == st.objs;
  }

  // ---------------------------------------------------------------- runs

  /**
   * A device answers only ids it was sent, and a stream's id is sent after its ready
   * channel is set: no message is looked up for a stream session without one.
   */
  ghost predicate Answered(st: State, op: Op)
  {
    op.Lookup? && op.msg.sid in st.table && op.msg.sid in st.objs && st.objs[op.msg.sid].isStream ==>
      st.objs[op.msg.sid].ready != Unset
  }

  ghost predicate FlightsReady(st: State)
    requires st.Valid()
  {
    forall i :: 0 <= i < |st.flights| && st.objs[st.flights[i].sid].isStream ==>
      st.objs[st.flights[i].sid].ready != Unset
  }

  lemma StepKeepsReady(st: State, op: Op)
    requires st.Valid() && FlightsReady(st) && Answered(st, op)
    ensures Step(st, op).Some? && Step(st, op).value.Valid() && FlightsReady(Step(st, op).value)
  {
    assert Step(st, op).Some? by { StepPanicsExactly(st, op); }
    StepKeeps(st, op);
    var st' := Step(st, op).value;
    forall i | 0 <= i < |st'.flights|
      ensures st'.objs[st'.flights[i].sid].isStream ==> st'.objs[st'.flights[i].sid].ready != Unset
    {
      var m := st'.flights[i];
      FlightsComeFrom(st, op, i);
      assert m.sid in st.objs && (st.objs[m.sid].isStream ==> st.objs[m.sid].ready != Unset);
      assert Advances(st.objs[m.sid], st'.objs[m.sid]);
    }
  }

  lemma FlightsComeFrom(st: State, op: Op, i: nat)
    requires st.Valid() && Step(st, op).Some? && i < |Step(st, op).value.flights|
    ensures var m := Step(st, op).value.flights[i];
            || (exists j :: 0 <= j < |st.flights| && st.flights[j] == m)
            || (op == Lookup(m) && m.sid in st.table)
  {
    var st' := Step(st, op).value;
    if op.Finish? && op.k < |st.flights| {
      FinishKeeps(st, op.k, op.ioOk, op.offer);
      assert st'.flights[i] == st.flights[if i < op.k then i else i + 1];
    } else if op.Lookup? {
      assert i < |st.flights| ==> st'.flights[i] == st.flights[i];
    } else {
      assert st'.flights == st.flights;
    }
  }

  ghost function Run(st: State, ops: seq<Op>): (r: Option<State>)
    requires st.Valid()
    ensures r.Some? ==> r.value.Valid()
    decreases ops
  {
    if ops == [] then Some(st)
    else if Step(st, ops[0]).None? then None
    else StepKeeps(st, ops[0]); Run(Step(st, ops[0]).value, ops[1..])
  }

  /** The device keeps to Answered in every state of the run. */
  ghost predicate Honest(st: State, ops: seq<Op>)
    requires st.Valid()
    decreases ops
  {
    if ops == [] then true
    else if Step(st, ops[0]).None? then Answered(st, ops[0])
    else StepKeeps(st, ops[0]); Answered(st, ops[0]) && Honest(Step(st, ops[0]).value, ops[1..])
  }

  lemma {:induction false} RunIsLater(st: State, ops: seq<Op>)
    requires st.Valid() && Run(st, ops).Some?
    ensures Later(st, Run(st, ops).value)
    decreases ops
  {
    if ops != [] {
      StepKeeps(st, ops[0]);
      var st1 := Step(st, ops[0]).value;
      RunIsLater(st1, ops[1..]);
      LaterIsTransitive(st, st1, Run(st, ops).value);
    }
  }

  /**
   * Over every run, however dispatches, timeouts, deletes and cleanups interleave:
   * nothing panics, the table stays right, ids are never reused, an ended session
   * stays ended, and each channel closes once and carries nothing afterwards.
   */
  lemma {:induction false} RunIsSafe(st: State, ops: seq<Op>)
    requires st.Valid() && FlightsReady(st) && Honest(st, ops)
    ensures Run(st, ops).Some? && Run(st, ops).value.Valid() && Later(st, Run(st, ops).value)
    decreases ops
  {
    if ops != [] {
      StepKeepsReady(st, ops[0]);
      RunIsSafe(Step(st, ops[0]).value, ops[1..]);
    }
    RunIsLater(st, ops);
  }

  /**
   * A session found in the table is stale when its message is delivered only if a Cleanup
   * ran in between, and has left the table then.
   */
  lemma StaleNeedsCleanup(st: State, ops: seq<Op>, id: nat)
    requires st.Valid() && id in st.table && Run(st, ops).Some?
    ensures var st' := Run(st, ops).value;
            && id in st'.objs
            && (!st'.objs[id].isStream && st'.objs[id].epoch != st'.epoch ==>
                  (exists op :: op in ops && op.Cleanup?) && id !in st'.table)
  {
    RunIsLater(st, ops);
    var st' := Run(st, ops).value;
    if !st'.objs[id].isStream && st'.objs[id].epoch != st'.epoch {
      StaleIsGone(st', id);
      if forall op :: op in ops ==> !op.Cleanup? { RunKeepsEpoch(st, ops, id); }
    }
  }

  lemma StepKeepsEpoch(st: State, op: Op, id: nat)
    requires st.Valid() && id in st.objs && Step(st, op).Some? && !op.Cleanup?
    ensures var st' := Step(st, op).value;
            && st'.epoch == st.epoch && id in st'.objs
            && st'.objs[id].epoch == st.objs[id].epoch && st'.objs[id].isStream == st.objs[id].isStream
  {
    if op.Finish? && op.k < |st.flights| {
      FinishKeeps(st, op.k, op.ioOk, op.offer);
      assert Advances(st.objs[id], Step(st, op).value.objs[id]);
    }
  }

  lemma {:induction false} RunKeepsEpoch(st: State, ops: seq<Op>, id: nat)
    requires st.Valid() && id in st.objs && Run(st, ops).Some?
    requires forall op :: op in ops ==> !op.Cleanup?
    ensures var st' := Run(st, ops).value;
            && st'.epoch == st.epoch && id in st'.objs
            && st'.objs[id].epoch == st.objs[id].epoch && st'.objs[id].isStream == st.objs[id].isStream
    decreases ops
  {
    if ops != [] {
      StepKeepsEpoch(st, ops[0], id);
      assert Step(st, ops[0]).value.Valid() by { StepKeeps(st, ops[0]); }
      RunKeepsEpoch(Step(st, ops[0]).value, ops[1..], id);
    }
  }

  lemma StepLeavesEnded(st: State, op: Op, id: nat)
    requires st.Valid() && id in st.objs && id !in st.table && Step(st, op).Some?
    ensures var st' := Step(st, op).value; id in st'.objs && id !in st'.table && st'.objs[id] == st.objs[id]
  {
    if op.Finish? && op.k < |st.flights| {
      var m := st.flights[op.k];
      FinishKeeps(st, op.k, op.ioOk, op.offer);
      if m.sid == id {
        LateMessageIsLost(st.(flights := st.flights[..op.k] + st.flights[op.k + 1..]), id, m, op.ioOk, op.offer);
      }
    }
  }

  /** An ended session is final: nothing that happens later, on any schedule, changes it. */
  lemma {:induction false} EndedIsFinal(st: State, ops: seq<Op>, id: nat)
    requires st.Valid() && id in st.objs && id !in st.table && Run(st, ops).Some?
    ensures var st' := Run(st, ops).value; id in st'.objs && id !in st'.table && st'.objs[id] == st.objs[id]
    decreases ops
  {
    if ops != [] {
      StepLeavesEnded(st, ops[0], id);
      StepKeeps(st, ops[0]);
      EndedIsFinal(Step(st, ops[0]).value, ops[1..], id);
    }
  }

  /**
   * The timeout of a unary session dispatches to and deletes the id its creator passed
   * in, not the id it was given. That id was not live and not in the future, and so
   * never names a session again: the timeout ends no session, in any later state.
   */
  lemma UnaryTimeoutEndsNothing(st: State, arg: nat, ops: seq<Op>)
    requires st.Valid() && FlightsReady(st) && Honest(st, ops)
    requires arg !in st.table && arg <= st.sid
    ensures Run(st, ops).Some?
    ensures var later := Run(st, ops).value;
            && arg !in later.table
            && (forall m: Msg :: m.sid == arg ==> Step(later, Lookup(m)) == Some(later))
            && Step(later, Delete(arg)) == Some(later)
  {
    RunIsSafe(st, ops);
  }

  // ---------------------------------------------------------------- runs that go wrong

  lemma {:induction false} RunChain(sts: seq<State>, ops: seq<Op>)
    requires |sts| == |ops| + 1 && forall i :: 0 <= i < |sts| ==> sts[i].Valid()
    requires forall i :: 0 <= i < |ops| ==> Step(sts[i], ops[i]) == Some(sts[i + 1])
    ensures Run(sts[0], ops) == Some(sts[|ops|])
    decreases ops
  {
    if ops != [] { RunChain(sts[1..], ops[1..]); }
  }

  /** A table with one unary session. */
  function Single(id: nat, now: nat, flights: seq<Msg>): (st: State)
  {
    State(map[id := Fresh(now, false)], {id}, id, now, flights)
  }

  /** That table after its session has ended. */
  function Ended(id: nat, now: nat): (st: State)
  {
    State(map[id := CloseSession(Fresh(now, false))], {}, id, now, [])
  }

  lemma SingleIsValid(id: nat, now: nat, m: Msg)
    requires 0 < id && m.sid == id
    ensures Single(id, now, []).Valid() && Single(id, now, [m]).Valid() && Ended(id, now).Valid()
  {
  }

  lemma LookupFinds(id: nat, now: nat, m: Msg)
    requires 0 < id && m.sid == id
    ensures Single(id, now, []).Valid() && Step(Single(id, now, []), Lookup(m)) == Some(Single(id, now, [m]))
  {
    SingleIsValid(id, now, m);
    assert [] + [m] == [m];
  }

  /** The queue takes a part of a reply, the last one or not. */
  lemma PartTaken(id: nat, now: nat, m: Msg, last: bool)
    requires 0 < id && m.sid == id && !(m.seqNo == 0 && m.complete)
    ensures Single(id, now, [m]).Valid()
    ensures Step(Single(id, now, [m]), Finish(0, true, Offer([], last))) ==
            Some(if last then Ended(id, now) else Single(id, now, []))
  {
    SingleIsValid(id, now, m);
    var st, s := Single(id, now, []), Fresh(now, false);
    assert [m][..0] + [m][1..] == [];
    assert !AnyData([]) && ReleaseAll(s, []) == s;
    if last {
      var closed := Update(st, id, CloseSession(s));
      assert closed.objs == Ended(id, now).objs && closed.objs[id := CloseSession(CloseSession(s))] == closed.objs;
      assert DeleteSession(closed, id) == Ended(id, now) by { assert {id} - {id} == {}; }
    } else {
      assert Update(st, id, s).objs == st.objs;
    }
  }

  /** A unary session that gets its reply in two messages ends with nothing on its channel. */
  lemma LongReplyIsLost(now: nat)
    ensures var first, last := Msg(now + 1, false, 0, false, 0), Msg(now + 1, false, 1, true, 1);
            Run(Start(now), [Add(0, false), Lookup(first), Finish(0, true, Offer([], false)),
                             Lookup(last), Finish(0, true, Offer([], true))]) == Some(Ended(now + 1, now))
    ensures Ended(now + 1, now).objs[now + 1].messages == Closed && Ended(now + 1, now).objs[now + 1].inbox == []
  {
    var id, first, last := now + 1, Msg(now + 1, false, 0, false, 0), Msg(now + 1, false, 1, true, 1);
    var sts := [Start(now), Single(id, now, []), Single(id, now, [first]), Single(id, now, []), Single(id, now, [last]), Ended(id, now)];
    SingleIsValid(id, now, first);
    SingleIsValid(id, now, last);
    LookupFinds(id, now, first);
    LookupFinds(id, now, last);
    PartTaken(id, now, first, false);
    PartTaken(id, now, last, true);
    assert AddSession(Start(now), 0, false) == Single(id, now, []);
    RunChain(sts, [Add(0, false), Lookup(first), Finish(0, true, Offer([], false)), Lookup(last), Finish(0, true, Offer([], true))]);
  }

  /** A unary session made for a caller that passed in id 0 is still open after its timeout. */
  lemma TimeoutLeavesSession(now: nat)
    ensures var timeout := [Lookup(Msg(0, false, 0, true, 0)), Delete(0)];
            var r := Run(Start(now), [Add(0, false)] + timeout);
            r.Some? && now + 1 in r.value.table && r.value.objs[now + 1].messages == Open
  {
    var id := now + 1;
    var open := Single(id, now, []);
    assert AddSession(Start(now), 0, false) == open;
    RunChain([Start(now), open, open, open], [Add(0, false)] + [Lookup(Msg(0, false, 0, true, 0)), Delete(0)]);
  }
}
