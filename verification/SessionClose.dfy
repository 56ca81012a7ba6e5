// The close of a session of pkg/virtualnode/connectivity/session_manager.go, one level
// below the atomic operations of module Sessions: a closer first tests whether the session
// is closed, and then closes it. Delete and Cleanup do both under the locks of the manager
// and the session. A dispatch that completes its session does both under no lock.
module SessionClose {
  import opened Prelude
  import opened Sessions

  /** A call of close(): Delete and Cleanup hold the lock, a dispatch does not. */
  datatype Closer = Closer(id: nat, locked: bool)

  /** The session, and the closers that have found it open and have not closed it yet. */
  datatype Race = Race(session: SessionState, passed: set<Closer>)
  {
    /** The lock lets one of its holders pass at a time. */
    ghost predicate Valid()
    {
      && session.done != Unset
      && (forall a, b :: a in passed && b in passed && a.locked && b.locked ==> a == b)
    }
  }

  datatype Move = Test(c: Closer) | Close(c: Closer)

  /** One move; None is the panic of closing a closed channel. A closer that waits for the lock does not move. */
  function Step(r: Race, m: Move): (r': Option<Race>)
    requires r.session.done != Unset
  {
    match m
    case Test(c) =>
      if r.session.done == Closed || (c.locked && exists b :: b in r.passed && b.locked) then Some(r)
      else Some(r.(passed := r.passed + {c}))
    case Close(c) =>
      if c !in r.passed then Some(r)
      else if r.session.done == Closed then None
      else Some(Race(CloseSession(r.session), r.passed - {c}))
  }

  function Run(r: Race, ms: seq<Move>): (r': Option<Race>)
    requires r.session.done != Unset
    decreases ms
  {
    if ms == [] then Some(r)
    else match Step(r, ms[0])
         case None => None
         case Some(r1) => Run(r1, ms[1..])
  }

  /** At some point of the schedule two closers have passed the test and neither has closed. */
  ghost predicate TwoPass(r: Race, ms: seq<Move>)
    requires r.session.done != Unset
    decreases ms
  {
    || (exists a, b :: a in r.passed && b in r.passed && a != b)
    || (ms != [] && Step(r, ms[0]).Some? && TwoPass(Step(r, ms[0]).value, ms[1..]))
  }

  /** The schedule does not leave a closer between its test and its close. */
  ghost predicate RunsOut(r: Race, ms: seq<Move>)
    requires r.session.done != Unset
  {
    Run(r, ms).Some? ==> Run(r, ms).value.passed == {}
  }

  /** A closer that passed the test of a session closed since can only panic. */
  lemma {:induction false} DoomedPanics(r: Race, ms: seq<Move>)
    requires r.session.done == Closed && r.passed != {} && RunsOut(r, ms)
    ensures Run(r, ms).None?
    decreases ms
  {
    if ms != [] && Step(r, ms[0]).Some? { DoomedPanics(Step(r, ms[0]).value, ms[1..]); }
  }

  lemma {:induction false} TwoPassedPanic(r: Race, ms: seq<Move>, a: Closer, b: Closer)
    requires r.session.done == Open && a in r.passed && b in r.passed && a != b && RunsOut(r, ms)
    ensures Run(r, ms).None?
    decreases ms
  {
    if ms != [] {
      var r1 := Step(r, ms[0]).value;
      if r1.session.done == Closed {
        assert ms[0].Close?;
        assert a in r1.passed || b in r1.passed;
        DoomedPanics(r1, ms[1..]);
      } else {
        TwoPassedPanic(r1, ms[1..], a, b);
      }
    }
  }

  /** With at most one closer past the test, and none once it is closed, the first to close is the last. */
  lemma {:induction false} AlonePassesSafely(r: Race, ms: seq<Move>)
    requires r.session.done != Unset && (r.session.done == Closed ==> r.passed == {})
    requires RunsOut(r, ms) && Run(r, ms).None?
    ensures TwoPass(r, ms)
    decreases ms
  {
    if ms != [] && !(exists a, b :: a in r.passed && b in r.passed && a != b) {
      assert Step(r, ms[0]).Some?;
      var r1 := Step(r, ms[0]).value;
      assert r1.session.done == Closed ==> r1.passed == {};
      AlonePassesSafely(r1, ms[1..]);
    }
  }

  lemma {:induction false} TwoPassPanics(r: Race, ms: seq<Move>)
    requires r.session.done != Unset && (r.session.done == Closed ==> r.passed == {})
    requires RunsOut(r, ms) && TwoPass(r, ms)
    ensures Run(r, ms).None?
    decreases ms
  {
    if a, b :| a in r.passed && b in r.passed && a != b {
      TwoPassedPanic(r, ms, a, b);
    } else {
      var r1 := Step(r, ms[0]).value;
      if r1.session.done == Closed && r1.passed != {} {
        DoomedPanics(r1, ms[1..]);
      } else {
        TwoPassPanics(r1, ms[1..]);
      }
    }
  }

  /**
   * For every schedule of any closers on an open session: the session's channel is closed
   * twice, which panics, exactly when two closers pass the test before either closes.
   */
  lemma DoubleCloseIff(s: SessionState, ms: seq<Move>)
    requires s.Valid() && RunsOut(Race(s, {}), ms)
    ensures Run(Race(s, {}), ms).None? <==> TwoPass(Race(s, {}), ms)
  {
    if Run(Race(s, {}), ms).None? {
      AlonePassesSafely(Race(s, {}), ms);
    }
    if TwoPass(Race(s, {}), ms) {
      TwoPassPanics(Race(s, {}), ms);
    }
  }

  /**
   * Closers that hold the lock never close twice, on any schedule: the session is either
   * untouched or closed once, as the atomic operations of module Sessions have it.
   */
  lemma {:induction false} LockedCloseOnce(s: SessionState, r: Race, ms: seq<Move>)
    requires s.done != Unset && r.Valid() && (forall c :: c in r.passed ==> c.locked)
    requires if r.passed == {} then r.session == s || r.session == CloseSession(s) else r.session == s && s.done == Open
    requires forall m :: m in ms ==> m.c.locked
    ensures Run(r, ms).Some?
    ensures Run(r, ms).value.session == s || Run(r, ms).value.session == CloseSession(s)
    decreases ms
  {
    if ms != [] {
      assert ms[0].c.locked;
      var r1 := Step(r, ms[0]).value;
      if r1.passed != {} && ms[0].Close? {
        var c :| c in r1.passed;
        assert c in r.passed;
      }
      LockedCloseOnce(s, r1, ms[1..]);
    }
  }

  /** Two dispatches that both complete the session, or one of them and a Cleanup, close it twice. */
  lemma TwoDispatchesCloseTwice(epoch: nat, other: bool)
    ensures var a, b := Closer(1, false), Closer(2, other);
            Run(Race(Fresh(epoch, false), {}), [Test(a), Test(b), Close(a), Close(b)]).None?
  {
    var a, b, s := Closer(1, false), Closer(2, other), Fresh(epoch, false);
    var ms := [Test(a), Test(b), Close(a), Close(b)];
    var r1, r2, r3 := Race(s, {a}), Race(s, {a, b}), Race(CloseSession(s), {b});
    assert Step(Race(s, {}), ms[0]) == Some(r1) by { assert {} + {a} == {a}; }
    assert Step(r1, ms[1]) == Some(r2) by { assert {a} + {b} == {a, b}; }
    assert Step(r2, ms[2]) == Some(r3) by { assert {a, b} - {a} == {b}; }
    assert ms[1..][1..] == [Close(a), Close(b)] && ms[1..][1..][1..] == [Close(b)];
    assert Run(r3, [Close(b)]).None?;
    assert Run(r2, [Close(a), Close(b)]).None?;
    assert Run(r1, ms[1..]).None?;
  }
}
