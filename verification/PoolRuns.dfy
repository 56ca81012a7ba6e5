// Runs of the address pool on which pkg/util/ipam/ipam.go does not do what its name
// promises, and the exact condition under which no run hands an address out twice.
module PoolRuns {
  import opened Prelude
  import opened Addresses
  import opened Blocks
  import opened Pool

  /** The run of `ops` returns, with this pool and this log. */
  ghost predicate Leads(p: PoolState, ops: seq<Op>, q: PoolState, log: seq<Event>)
  {
    p.Sane() && AllFit(p.top, ops) && Run(p, ops) == Steps(q, log)
  }

  lemma Stay(p: PoolState)
    requires p.Sane()
    ensures Leads(p, [], p, [])
  {
  }

  /** A run goes on where another stopped. */
  lemma {:induction false} RunAppends(p: PoolState, ops: seq<Op>, op: Op)
    requires p.Sane() && AllFit(p.top, ops) && FitsOp(p.top, op) && Run(p, ops).Steps?
    ensures AllFit(p.top, ops + [op])
    ensures Run(p, ops + [op]) ==
            match Step(Run(p, ops).pool, op)
            case Steps(q, e) => Steps(q, Run(p, ops).events + e)
            case o => o
    decreases ops
  {
    var all := ops + [op];
    StepKeepsSane(p, all[0]);
    if ops == [] {
      assert all[1..] == [];
    } else {
      assert all[1..] == ops[1..] + [op];
      RunAppends(Step(p, ops[0]).pool, ops[1..], op);
    }
  }

  lemma Append(p: PoolState, ops: seq<Op>, q: PoolState, log: seq<Event>, op: Op, q': PoolState, log': seq<Event>)
    requires Leads(p, ops, q, log) && FitsOp(p.top, op)
    requires Step(q, op) == Steps(q', log')
    ensures Leads(p, ops + [op], q', log + log')
  {
    RunAppends(p, ops, op);
  }

  lemma FiveSteps(ps: seq<PoolState>, ops: seq<Op>, logs: seq<seq<Event>>)
    requires |ps| == 6 && |ops| == |logs| == 5 && ps[0].Sane() && AllFit(ps[0].top, ops)
    requires forall i :: 0 <= i < 5 ==>
               (ps[i].blocks != [] ==> ps[i].index < |ps[i].blocks|) && Step(ps[i], ops[i]) == Steps(ps[i + 1], logs[i])
    ensures Leads(ps[0], ops, ps[5], logs[0] + logs[1] + logs[2] + logs[3] + logs[4])
  {
    var p := ps[0];
    Stay(p);
    Append(p, [], p, [], ops[0], ps[1], logs[0]);
    assert ops[..1] == [] + [ops[0]] && [] + logs[0] == logs[0];
    Append(p, ops[..1], ps[1], logs[0], ops[1], ps[2], logs[1]);
    assert ops[..2] == ops[..1] + [ops[1]];
    Append(p, ops[..2], ps[2], logs[0] + logs[1], ops[2], ps[3], logs[2]);
    assert ops[..3] == ops[..2] + [ops[2]];
    Append(p, ops[..3], ps[3], logs[0] + logs[1] + logs[2], ops[3], ps[4], logs[3]);
    assert ops[..4] == ops[..3] + [ops[3]];
    Append(p, ops[..4], ps[4], logs[0] + logs[1] + logs[2] + logs[3], ops[4], ps[5], logs[4]);
    assert ops == ops[..4] + [ops[4]];
  }

  // ---------------------------------------------------------------- pools of single addresses

  function One(a: nat, top: nat): (b: BlockState) { NewBlock(Range(a, a), top) }

  function Spent(a: nat, top: nat): (b: BlockState) { BlockState(a, a, top, {a}, None) }

  lemma SingleAddress(a: nat, top: nat)
    requires a < top
    ensures AllocateIn(One(a, top), None) == Allocated(Spent(a, top), Success(a))
    ensures AllocateIn(Spent(a, top), None) == Allocated(Spent(a, top), Failure(NoneAvailable))
  {
    assert One(a, top).used + {a} == {a};
  }

  /** A range above the first k blocks and below the others goes between them. */
  lemma AddBetween(p: PoolState, r: Range, k: nat)
    requires p.Sane() && Fits(r, p.top) && k <= |p.blocks|
    requires forall i :: 0 <= i < k ==> p.blocks[i].end < r.start
    requires forall i :: k <= i < |p.blocks| ==> r.end < p.blocks[i].start
    ensures Step(p, Add(r)) == Steps(p.(blocks := p.blocks[..k] + [NewBlock(r, p.top)] + p.blocks[k..]), [])
  {
    PositionSplits(p.blocks, r.start);
  }

  // ---------------------------------------------------------------- a last address cannot be put back

  lemma LastAddressSteps(top: nat)
    requires top > 1
    ensures Step(Empty(top), Add(Range(1, 1))) == Steps(PoolState(top, [One(1, top)], 0), [])
    ensures Step(PoolState(top, [One(1, top)], 0), AllocateAny) ==
            Steps(PoolState(top, [Spent(1, top)], 0), [Handed(1)])
    ensures Step(PoolState(top, [Spent(1, top)], 0), PutBack(1)).Panics?
  {
    AddBetween(Empty(top), Range(1, 1), 0);
    SingleAddress(1, top);
  }

  /** The only address of the only block goes out, and putting it back panics. */
  lemma LastAddressCannotReturn(top: nat)
    requires top > 1
    ensures Leads(Empty(top), [Add(Range(1, 1)), AllocateAny], PoolState(top, [Spent(1, top)], 0), [Handed(1)])
    ensures Run(Empty(top), [Add(Range(1, 1)), AllocateAny, PutBack(1)]).Panics?
  {
    var p0, p1, p2 := Empty(top), PoolState(top, [One(1, top)], 0), PoolState(top, [Spent(1, top)], 0);
    LastAddressSteps(top);
    Stay(p0);
    Append(p0, [], p0, [], Add(Range(1, 1)), p1, []);
    Append(p0, [Add(Range(1, 1))], p1, [], AllocateAny, p2, [Handed(1)]);
    RunAppends(p0, [Add(Range(1, 1)), AllocateAny], PutBack(1));
  }

  // ---------------------------------------------------------------- the first of two blocks is missed

  lemma FirstOfTwoSteps(top: nat)
    requires top > 3
    ensures Step(Empty(top), Add(Range(1, 1))) == Steps(PoolState(top, [One(1, top)], 0), [])
    ensures Step(PoolState(top, [One(1, top)], 0), Add(Range(3, 3))) ==
            Steps(PoolState(top, [One(1, top), One(3, top)], 0), [])
    ensures Step(PoolState(top, [One(1, top), One(3, top)], 0), AllocateOne(1)).Panics?
  {
    AddBetween(Empty(top), Range(1, 1), 0);
    var p1 := PoolState(top, [One(1, top)], 0);
    AddBetween(p1, Range(3, 3), 1);
    assert p1.blocks[..1] + [One(3, top)] + p1.blocks[1..] == [One(1, top), One(3, top)];
    assert Search([One(1, top), One(3, top)], 1, 2, 2) == 2;
  }

  /** Address 1 is free in the first of two blocks, and asking for it panics. */
  lemma FirstOfTwoIsMissed(top: nat)
    requires top > 3
    ensures var p := PoolState(top, [One(1, top), One(3, top)], 0);
            Leads(Empty(top), [Add(Range(1, 1)), Add(Range(3, 3))], p, []) && p.Available(1)
    ensures Run(Empty(top), [Add(Range(1, 1)), Add(Range(3, 3)), AllocateOne(1)]).Panics?
  {
    var p0, p1, p2 := Empty(top), PoolState(top, [One(1, top)], 0), PoolState(top, [One(1, top), One(3, top)], 0);
    FirstOfTwoSteps(top);
    Stay(p0);
    Append(p0, [], p0, [], Add(Range(1, 1)), p1, []);
    Append(p0, [Add(Range(1, 1))], p1, [], Add(Range(3, 3)), p2, []);
    RunAppends(p0, [Add(Range(1, 1)), Add(Range(3, 3))], AllocateOne(1));
    assert p2.blocks[0].Contains(1) && 1 !in p2.blocks[0].used;
  }

  // ---------------------------------------------------------------- a block added behind the cursor

  lemma BehindCursorAdds(top: nat)
    requires top > 5
    ensures Step(Empty(top), Add(Range(3, 3))) == Steps(PoolState(top, [One(3, top)], 0), [])
    ensures Step(PoolState(top, [One(3, top)], 0), Add(Range(5, 5))) ==
            Steps(PoolState(top, [One(3, top), One(5, top)], 0), [])
  {
    AddBetween(Empty(top), Range(3, 3), 0);
    var p1 := PoolState(top, [One(3, top)], 0);
    AddBetween(p1, Range(5, 5), 1);
    assert p1.blocks[..1] + [One(5, top)] + p1.blocks[1..] == [One(3, top), One(5, top)];
  }

  lemma BehindCursorAdd(top: nat)
    requires top > 5
    ensures Step(PoolState(top, [Spent(3, top), Spent(5, top)], 1), Add(Range(1, 1))) ==
            Steps(PoolState(top, [One(1, top), Spent(3, top), Spent(5, top)], 1), [])
  {
    var p4 := PoolState(top, [Spent(3, top), Spent(5, top)], 1);
    AddBetween(p4, Range(1, 1), 0);
    assert p4.blocks[..0] + [One(1, top)] + p4.blocks[0..] == [One(1, top), Spent(3, top), Spent(5, top)];
  }

  lemma BehindCursorAllocates(top: nat)
    requires top > 5
    ensures Step(PoolState(top, [One(3, top), One(5, top)], 0), AllocateAny) ==
            Steps(PoolState(top, [Spent(3, top), One(5, top)], 0), [Handed(3)])
    ensures Step(PoolState(top, [Spent(3, top), One(5, top)], 0), AllocateAny) ==
            Steps(PoolState(top, [Spent(3, top), Spent(5, top)], 1), [Handed(5)])
    ensures var p := PoolState(top, [One(1, top), Spent(3, top), Spent(5, top)], 1);
            Step(p, AllocateAny) == Steps(p.(index := 2), [])
  {
    SingleAddress(3, top);
    SingleAddress(5, top);
    var p2, p3 := PoolState(top, [One(3, top), One(5, top)], 0), PoolState(top, [Spent(3, top), One(5, top)], 0);
    assert p2.blocks[0 := Spent(3, top)] == p3.blocks;
    assert p3.blocks[1 := Spent(5, top)] == [Spent(3, top), Spent(5, top)];
    assert AllocateFrom(p3, 1) == Steps(PoolState(top, [Spent(3, top), Spent(5, top)], 1), [Handed(5)]);
    var p5 := PoolState(top, [One(1, top), Spent(3, top), Spent(5, top)], 1);
    assert AllocateFrom(p5, 2) == Steps(p5.(index := 2), []);
  }

  /** Address 1 is free in a block added behind the cursor, and Allocate(nil) fails. */
  lemma AddedBehindCursorIsMissed(top: nat)
    requires top > 5
    ensures var p := PoolState(top, [One(1, top), Spent(3, top), Spent(5, top)], 1);
            && Leads(Empty(top), [Add(Range(3, 3)), Add(Range(5, 5)), AllocateAny, AllocateAny, Add(Range(1, 1))],
                     p, [Handed(3), Handed(5)])
            && p.Available(1) && Step(p, AllocateAny) == Steps(p.(index := 2), [])
  {
    var p0, p1, p2 := Empty(top), PoolState(top, [One(3, top)], 0), PoolState(top, [One(3, top), One(5, top)], 0);
    var p3, p4 := PoolState(top, [Spent(3, top), One(5, top)], 0), PoolState(top, [Spent(3, top), Spent(5, top)], 1);
    var p5 := PoolState(top, [One(1, top), Spent(3, top), Spent(5, top)], 1);
    var a3, a5, a1 := Add(Range(3, 3)), Add(Range(5, 5)), Add(Range(1, 1));
    BehindCursorAdds(top);
    BehindCursorAdd(top);
    BehindCursorAllocates(top);
    FiveSteps([p0, p1, p2, p3, p4, p5], [a3, a5, AllocateAny, AllocateAny, a1], [[], [], [Handed(3)], [Handed(5)], []]);
    assert [] + [] + [Handed(3)] + [Handed(5)] + [] == [Handed(3), Handed(5)];
    assert p5.blocks[0].Contains(1) && 1 !in p5.blocks[0].used;
  }

  // ---------------------------------------------------------------- a block at the top address

  /** The block of the all-ones host prefix after its address has gone out: the cursor is at zero. */
  function TopSpent(top: nat): (b: BlockState) { BlockState(top, top, top, {top}, Some(0)) }

  lemma TopAllocates(top: nat)
    requires top > 0
    ensures AllocateIn(One(top, top), None) == Allocated(TopSpent(top), Success(top))
    ensures AllocateIn(TopSpent(top), None).Allocated? && AllocateIn(TopSpent(top), None).result == Success(0)
  {
    assert One(top, top).used + {top} == {top};
    assert Wrapped(TopSpent(top), 0);
    WrappedHandsOutForeign(TopSpent(top), 0);
  }

  lemma TopSteps(top: nat)
    requires top > 0
    ensures Step(Empty(top), Add(Range(top, top))) == Steps(PoolState(top, [One(top, top)], 0), [])
    ensures Step(PoolState(top, [One(top, top)], 0), AllocateAny) ==
            Steps(PoolState(top, [TopSpent(top)], 0), [Handed(top)])
    ensures Step(PoolState(top, [TopSpent(top)], 0), Add(Range(0, 0))) ==
            Steps(PoolState(top, [One(0, top), TopSpent(top)], 0), [])
  {
    AddBetween(Empty(top), Range(top, top), 0);
    TopAllocates(top);
    var p2 := PoolState(top, [TopSpent(top)], 0);
    AddBetween(p2, Range(0, 0), 0);
    assert p2.blocks[..0] + [One(0, top)] + p2.blocks[0..] == [One(0, top), TopSpent(top)];
  }

  lemma TopStepsOn(top: nat)
    requires top > 0
    ensures Step(PoolState(top, [One(0, top), TopSpent(top)], 0), AllocateAny) ==
            Steps(PoolState(top, [Spent(0, top), TopSpent(top)], 0), [Handed(0)])
    ensures var o := Step(PoolState(top, [Spent(0, top), TopSpent(top)], 0), AllocateAny);
            o.Steps? && o.events == [Handed(0)]
  {
    SingleAddress(0, top);
    TopAllocates(top);
    var p3, p4 := PoolState(top, [One(0, top), TopSpent(top)], 0), PoolState(top, [Spent(0, top), TopSpent(top)], 0);
    assert p3.blocks[0 := Spent(0, top)] == p4.blocks;
    assert AllocateFrom(p4, 1).Steps? && AllocateFrom(p4, 1).events == [Handed(0)];
  }

  /** The block of the all-ones host prefix hands out its address, and then address 0, which another block has leased. */
  lemma TopBlockHandsOutTwice(top: nat)
    requires top > 0
    ensures var ops := [Add(Range(top, top)), AllocateAny, Add(Range(0, 0)), AllocateAny, AllocateAny];
            exists q :: Leads(Empty(top), ops, q, [Handed(top), Handed(0), Handed(0)])
  {
    var p0, p1, p2 := Empty(top), PoolState(top, [One(top, top)], 0), PoolState(top, [TopSpent(top)], 0);
    var p3, p4 := PoolState(top, [One(0, top), TopSpent(top)], 0), PoolState(top, [Spent(0, top), TopSpent(top)], 0);
    var at, a0 := Add(Range(top, top)), Add(Range(0, 0));
    TopSteps(top);
    TopStepsOn(top);
    var p5 := Step(p4, AllocateAny).pool;
    FiveSteps([p0, p1, p2, p3, p4, p5], [at, AllocateAny, a0, AllocateAny, AllocateAny],
              [[], [Handed(top)], [], [Handed(0)], [Handed(0)]]);
    assert [] + [Handed(top)] + [] + [Handed(0)] + [Handed(0)] == [Handed(top), Handed(0), Handed(0)];
  }

  /** No run that starts by adding the range, and adds nothing else at the top address, leases an address twice. */
  ghost predicate NeverTwice(top: nat, r: Range)
    requires Fits(r, top)
  {
    forall ops :: AllBelowTop(top, ops) ==>
      var o := Run(Empty(top), [Add(r)] + ops);
      o.Steps? ==> Replay({}, o.events).Some?
  }

  lemma TwiceIsIllegal(a: nat)
    requires a > 0
    ensures Replay({}, [Handed(a), Handed(0), Handed(0)]).None?
  {
    var log := [Handed(a), Handed(0), Handed(0)];
    var rest := log[1..];
    assert rest == [Handed(0), Handed(0)] && rest[1..] == [Handed(0)];
    assert Replay({a} + {0}, rest[1..]).None?;
    assert Replay({a}, rest).None?;
    assert {} + {a} == {a};
  }

  /**
   * A range NewBlock makes is safe if and only if it ends below the top address; the only
   * one that does not is that of the all-ones host prefix.
   */
  lemma SafeIffBelowTop(top: nat, r: Range)
    requires Fits(r, top) && (r.end == top ==> r.start == top)
    ensures NeverTwice(top, r) <==> r.end < top
  {
    if r.end < top {
      forall ops | AllBelowTop(top, ops) && Run(Empty(top), [Add(r)] + ops).Steps?
        ensures Replay({}, Run(Empty(top), [Add(r)] + ops).events).Some?
      {
        RunNeverHandsOutTwice(Empty(top), [Add(r)] + ops);
      }
    } else {
      var ops := [AllocateAny, Add(Range(0, 0)), AllocateAny, AllocateAny];
      TopBlockHandsOutTwice(top);
      TwiceIsIllegal(top);
      assert [Add(r)] + ops == [Add(Range(top, top)), AllocateAny, Add(Range(0, 0)), AllocateAny, AllocateAny];
      assert AllBelowTop(top, ops);
    }
  }

  // ---------------------------------------------------------------- a call that never returns

  function Requests(n: nat): (ops: seq<Op>) { seq(n, _ => AllocateAny) }

  /** A pool of one block answers as the block does, and hangs when the block does. */
  lemma {:induction false} OneBlockHangs(top: nat, b: BlockState, n: nat)
    requires b.Sane() && Calls(b, n).Some? && AllocateIn(Calls(b, n).value, None).Hangs?
    ensures var p := PoolState(top, [b], 0); p.Sane() && Run(p, Requests(n + 1)).Diverges?
    decreases n
  {
    var p, ops := PoolState(top, [b], 0), Requests(n + 1);
    assert ops[0] == AllocateAny && ops[1..] == Requests(n);
    if n > 0 {
      var c := AllocateIn(b, None).block;
      CallsKeepSane(b, None, 0);
      OneBlockHangs(top, c, n - 1);
      assert p.blocks[0 := c] == [c];
    }
  }

  /**
   * A pool of the all-ones host block alone: after as many requests as the family has
   * addresses, the next one never returns.
   */
  lemma TopPoolHangs(top: nat)
    requires top > 0
    ensures Run(Empty(top), [Add(Range(top, top))] + Requests(top + 2)).Diverges?
  {
    var ops := [Add(Range(top, top))] + Requests(top + 2);
    assert ops[1..] == Requests(top + 2);
    TopBlockHangs(top);
    AddBetween(Empty(top), Range(top, top), 0);
    OneBlockHangs(top, One(top, top), top + 1);
    assert Step(Empty(top), ops[0]) == Steps(PoolState(top, [One(top, top)], 0), []);
  }
}
