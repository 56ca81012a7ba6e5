// The session and SessionManager objects of
// pkg/virtualnode/connectivity/session_manager.go. Each method is proved against
// the function of module Sessions it implements.
module SessionManager {
  import opened Prelude
  import opened Sessions

  class Session {
    ghost const id: nat
    const epoch: nat
    const isStream: bool
    var done: Chan
    var ready: Chan
    var fired: bool
    var msgCh: Chan
    var inbox: seq<Item>

    function View(): (s: SessionState)
      reads this
    {
      SessionState(epoch, isStream, done, ready, fired, msgCh, inbox)
    }

    constructor (epoch: nat, isStream: bool, ghost id: nat)
      ensures View() == Fresh(epoch, isStream) && this.id == id
    {
      this.epoch, this.isStream, this.id := epoch, isStream, id;
      done, ready, fired, msgCh, inbox := Open, Unset, false, Open, [];
    }

    /** close(s.streamReady), which panics on a nil or closed channel. */
    method CloseReady()
      requires ready == Open
      modifies this`ready
      ensures ready == Closed
    {
      ready := Closed;
    }

    /** s.msgCh <- item, which panics on a closed channel. */
    method SendItem(i: Item)
      requires msgCh == Open
      modifies this`inbox
      ensures inbox == old(inbox) + [i]
    {
      inbox := inbox + [i];
    }

    method Close()
      requires done != Unset
      modifies this
      ensures View() == CloseSession(old(View()))
    {
      if done == Closed {
        return;
      }
      done := Closed;
      if !fired {
        fired := true;
        if ready == Open {
          CloseReady();
        }
      }
      if msgCh == Open {
        msgCh := Closed;
      }
    }

    method SetStream() returns (attached: bool)
      modifies this
      ensures View() == AttachStream(old(View()))
      ensures attached <==> old(ready) == Unset
    {
      if ready != Unset {
        return false;
      }
      ready := Open;
      fired := false;
      return true;
    }

    method OnCreationTimeout()
      modifies this
      ensures View() == ExpireReady(old(View()))
    {
      if ready == Open {
        CloseReady();
      }
    }

    method WriteToStream(ioOk: bool) returns (failed: bool)
      requires View().CanWrite()
      modifies this
      ensures (View(), failed) == Write(old(View()), ioOk)
    {
      if !isStream {
        return true;
      }
      if !fired {
        fired := true;
        if ready == Closed {
          return true;
        }
        CloseReady();
      }
      return !ioOk;
    }

    method ReleaseChunk(c: Chunk)
      requires msgCh == Open && (c.data ==> View().CanWrite())
      modifies this
      ensures View() == Release(old(View()), c)
    {
      if c.data {
        var failed := WriteToStream(c.ioOk);
        if failed {
          SendItem(ErrorItem);
        }
      }
    }

    method DeliverMsg(m: Msg, ioOk: bool, offer: Offer) returns (delivered: bool, complete: bool)
      requires View().Valid() && (Writes(m, offer) ==> View().CanWrite())
      modifies this
      ensures Delivery(View(), delivered, complete) == Deliver(old(View()), m, ioOk, offer)
    {
      ghost var before := View();
      DeliverAdvances(before, m, ioOk, offer);
      if done == Closed {
        return false, true;
      }
      if m.seqNo == 0 && m.complete {
        if m.data {
          ReleaseChunk(Chunk(true, ioOk));
        } else {
          SendItem(Reply(m));
        }
        Close();
        return true, true;
      }
      var i := 0;
      while i < |offer.released|
        invariant 0 <= i <= |offer.released|
        invariant View().Valid() && done == Open
        invariant AnyData(offer.released[i..]) ==> View().CanWrite()
        invariant ReleaseAll(before, offer.released) == ReleaseAll(View(), offer.released[i..])
      {
        ghost var rest := offer.released[i..];
        assert rest[0] == offer.released[i] && rest[1..] == offer.released[i + 1..];
        ReleaseAllAdvances(View(), rest[..1]);
        ReleaseChunk(offer.released[i]);
        i := i + 1;
      }
      if !offer.complete {
        return true, false;
      }
      Close();
      // close() has dropped the message buffer, so nothing is left to send
      return true, true;
    }
  }

  class SessionManager {
    var sessions: map<nat, Session>
    var sid: nat
    var epoch: nat
    ghost var issued: map<nat, Session>      // every session ever added, by id
    ghost var objs: map<nat, SessionState>   // and the state it is in

    ghost function View(): (st: State)
      reads this
    {
      State(objs, sessions.Keys, sid, epoch, [])
    }

    /** The table holds session objects that were issued, and no object has two ids. */
    ghost predicate Linked()
      reads `sessions, `issued, `objs, issued.Values
    {
      && (forall k :: k in sessions ==> k in issued && sessions[k] == issued[k])
      && objs.Keys == issued.Keys
      && (forall k :: k in issued ==> issued[k].id == k && issued[k].View() == objs[k])
    }

    ghost predicate Valid()
      reads this, issued.Values
    {
      Linked() && View().Valid()
    }

    constructor (now: nat)
      ensures Valid() && View() == Start(now)
    {
      sessions, sid, epoch, issued, objs := map[], now, now, map[], map[];
    }

    /** The loop runs once: no id above the last one issued is in the table. */
    method NextSid() returns (next: nat)
      requires forall k :: k in sessions ==> k <= sid
      modifies this`sid
      ensures next == sid == old(sid) + 1
    {
      var used := true;
      while used
        invariant if used then sid == old(sid) else sid == old(sid) + 1
        decreases used
      {
        sid := sid + 1;
        used := sid in sessions;
      }
      return sid;
    }

    method Add(arg: nat, isStream: bool) returns (realSid: nat)
      requires Valid()
      modifies this
      ensures Valid() && View() == AddSession(old(View()), arg, isStream)
      ensures realSid == if arg in old(sessions) then arg else old(sid) + 1
    {
      assert AddSession(View(), arg, isStream).Valid() by { Sessions.StepKeeps(View(), Op.Add(arg, isStream)); }
      if arg in sessions {
        return arg;
      }
      realSid := AddNew(isStream);
    }

    method AddNew(isStream: bool) returns (realSid: nat)
      requires Linked() && forall k :: k in issued ==> k <= sid
      modifies this
      ensures Linked() && realSid == old(sid) + 1
      ensures View() == State(old(objs)[realSid := Fresh(epoch, isStream)],
                              old(sessions).Keys + {realSid}, realSid, old(epoch), [])
    {
      var session := new Session(epoch, isStream, sid + 1);
      realSid := NextSid();
      sessions := sessions[realSid := session];
      issued, objs := issued[realSid := session], objs[realSid := session.View()];
      assert sessions.Keys == old(sessions).Keys + {realSid};
    }

    method Delete(id: nat)
      requires Valid()
      modifies this, issued.Values
      ensures Valid() && View() == DeleteSession(old(View()), id)
    {
      assert DeleteSession(View(), id).Valid() by { DeleteKeeps(View(), id); }
      CloseAndRemove(id);
    }

    method CloseAndRemove(id: nat)
      requires Linked() && (id in sessions ==> objs[id].done != Unset)
      modifies this`sessions, this`objs, issued.Values
      ensures Linked() && View() == DeleteSession(old(View()), id)
    {
      if id in sessions {
        sessions[id].Close();
        objs := objs[id := sessions[id].View()];
        sessions := sessions - {id};
      }
    }

    method SetStream(id: nat) returns (ok: bool)
      requires Valid()
      modifies this`objs, issued.Values
      ensures Valid() && Some(View()) == Step(old(View()), Op.SetStream(id))
      ensures ok <==> id in sessions && old(objs)[id].ready == Unset
    {
      if id !in sessions {
        return false;
      }
      ghost var target := Update(View(), id, AttachStream(objs[id]));
      assert target.Valid() by { UpdateKeeps(View(), id, AttachStream(objs[id])); }
      ok := AttachTo(id);
    }

    method AttachTo(id: nat) returns (ok: bool)
      requires Linked() && id in sessions
      modifies this`objs, sessions[id]
      ensures Linked() && objs == old(objs)[id := AttachStream(old(objs)[id])]
      ensures ok <==> old(objs)[id].ready == Unset
    {
      ok := sessions[id].SetStream();
      objs := objs[id := sessions[id].View()];
    }

    /** Dispatch after its lookup found `session`, which may have ended since. */
    method FinishDispatch(id: nat, m: Msg, ioOk: bool, offer: Offer, session: Session) returns (delivered: bool)
      requires Valid() && id in issued && session == issued[id]
      requires Writes(m, offer) ==> session.View().CanWrite()
      modifies this, issued.Values
      ensures Valid() && View() == DeliverTo(old(View()), id, m, ioOk, offer)
      ensures var s := old(View()).objs[id];
              delivered <==> (s.epoch == old(epoch) || s.isStream) && Deliver(s, m, ioOk, offer).delivered
    {
      assert DeliverTo(View(), id, m, ioOk, offer).Valid() by { DeliverToKeeps(View(), id, m, ioOk, offer); }
      if session.epoch != epoch && !session.isStream {
        Delete(id);
        return false;
      }
      delivered := DeliverLive(id, m, ioOk, offer, session);
    }

    method DeliverInPlace(id: nat, m: Msg, ioOk: bool, offer: Offer, session: Session)
      returns (delivered: bool, complete: bool)
      requires Linked() && id in issued && session == issued[id] && session.View().Valid()
      requires Writes(m, offer) ==> session.View().CanWrite()
      modifies this`objs, session
      ensures Linked() && objs == old(objs)[id := session.View()]
      ensures Delivery(session.View(), delivered, complete) == Deliver(old(session.View()), m, ioOk, offer)
    {
      delivered, complete := session.DeliverMsg(m, ioOk, offer);
      objs := objs[id := session.View()];
    }

    method DeliverLive(id: nat, m: Msg, ioOk: bool, offer: Offer, session: Session) returns (delivered: bool)
      requires Linked() && id in issued && session == issued[id] && session.View().Valid()
      requires Writes(m, offer) ==> session.View().CanWrite()
      requires session.epoch == epoch || session.isStream
      modifies this`sessions, this`objs, issued.Values
      ensures Linked() && View() == DeliverTo(old(View()), id, m, ioOk, offer)
      ensures delivered == Deliver(old(session.View()), m, ioOk, offer).delivered
    {
      var complete;
      delivered, complete := DeliverInPlace(id, m, ioOk, offer, session);
      if complete {
        CloseAndRemove(id);
      }
    }

    /**
     * Closes every session that is not a stream and takes it out of the table. The list
     * of ids is as long as the table, so its tail names id 0, which is never live.
     */
    method Cleanup(now: nat)
      requires Valid()
      modifies this, issued.Values
      ensures Valid() && View() == CleanupSessions(old(View()), now)
    {
      assert 0 !in sessions;
      assert CleanupSessions(View(), now).Valid() by { CleanupKeeps(View(), now); }
      DropAndAdvance(now);
    }

    method DropAndAdvance(now: nat)
      requires Linked() && 0 !in sessions && forall k :: k in objs ==> objs[k].done != Unset
      modifies this, issued.Values
      ensures Linked() && View() == CleanupSessions(old(View()), now)
    {
      DropUnary();
      epoch := now;
      if sid < now {
        sid := now;
      }
    }

    method DropUnary()
      requires Linked() && 0 !in sessions && forall k :: k in objs ==> objs[k].done != Unset
      modifies this`sessions, this`objs, issued.Values
      ensures Linked()
      ensures sessions.Keys == StreamsIn(old(objs), old(sessions).Keys)
      ensures objs == CloseUnaryIn(old(objs), old(sessions).Keys)
    {
      var allSid := CloseUnary();
      objs := CloseUnaryIn(objs, sessions.Keys);
      sessions := sessions - allSid;
      assert sessions.Keys == StreamsIn(old(objs), old(sessions).Keys);
    }

    /** The ids in the slice that is filled while sessions are closed; its unused slots hold 0. */
    method CloseUnary() returns (allSid: set<nat>)
      requires Linked() && forall k :: k in objs ==> objs[k].done != Unset
      modifies issued.Values
      ensures forall k :: k in issued ==>
                issued[k].View() == if k in sessions && !objs[k].isStream then CloseSession(objs[k]) else objs[k]
      ensures forall k :: k in allSid <==> k == 0 || (k in sessions && !objs[k].isStream)
    {
      var pending := sessions.Keys;
      ghost var closed: set<nat> := {};
      allSid := {0};
      while pending != {}
        invariant pending <= sessions.Keys && closed <= sessions.Keys && allSid == {0} + closed
        invariant forall k :: k in sessions ==> (k in closed <==> k !in pending && !objs[k].isStream)
        invariant forall k :: k in issued ==>
                    issued[k].View() == if k in closed then CloseSession(objs[k]) else objs[k]
        decreases pending
      {
        var k :| k in pending;
        pending := pending - {k};
        if !sessions[k].isStream {
          sessions[k].Close();
          closed := closed + {k};
          allSid := allSid + {k};
        }
      }
    }
  }
}
