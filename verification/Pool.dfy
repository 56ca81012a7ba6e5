// The address pool of pkg/util/ipam/ipam.go: sorted, disjoint blocks and a block
// cursor. First the pool as a value and its steps, then what every run of steps
// keeps. Module AddressManager holds the object that changes its blocks in place.
module Pool {
  import opened Prelude
  import opened Addresses
  import opened Blocks

  datatype PoolState = PoolState(top: nat, blocks: seq<BlockState>, index: nat)
  {
    /** What every step keeps. */
    ghost predicate Sane()
    {
      && AllSane(blocks)
      && Sorted(blocks)
      && (index < |blocks| || (blocks == [] && index == 0))
    }

    /** A sane pool with no block at the top address, and every cursor where it belongs. */
    ghost predicate Valid()
    {
      && AllTidy(blocks)
      && Sorted(blocks)
      && (index < |blocks| || (blocks == [] && index == 0))
    }

    /** Every block the cursor has passed is full. */
    ghost predicate FullBefore()
    {
      forall i :: 0 <= i < index && i < |blocks| ==> blocks[i].Full()
    }

    /** Some block contains the address and does not have it in use. */
    ghost predicate Available(a: nat)
    {
      exists i :: 0 <= i < |blocks| && blocks[i].Contains(a) && a !in blocks[i].used
    }
  }

  ghost predicate AllSane(bs: seq<BlockState>)
  {
    forall i :: 0 <= i < |bs| ==> bs[i].Sane()
  }

  ghost predicate AllTidy(bs: seq<BlockState>)
  {
    forall i :: 0 <= i < |bs| ==> bs[i].Tidy() && bs[i].end < bs[i].top
  }

  function Empty(top: nat): (p: PoolState) { PoolState(top, [], 0) }

  /** In order of start, with no address in two blocks. */
  ghost predicate Sorted(bs: seq<BlockState>)
  {
    forall i, j :: 0 <= i < j < |bs| ==> bs[i].end < bs[j].start
  }

  datatype Event = Handed(a: nat) | TakenBack(a: nat)

  /** A step returns with what it handed out or took back, stops the process, or never ends. */
  datatype Outcome = Panics | Diverges | Steps(pool: PoolState, events: seq<Event>)

  // ---------------------------------------------------------------- steps

  predicate Overlapped(b: BlockState, r: Range) { !(b.end < r.start || b.start > r.end) }

  /** How many blocks start before an address: where sorting puts a new block. */
  function Position(bs: seq<BlockState>, start: nat): (k: nat)
    ensures k <= |bs|
  {
    if bs == [] || start < bs[0].start then 0 else 1 + Position(bs[1..], start)
  }

  function AddBlock(p: PoolState, r: Range): (o: Outcome)
  {
    if exists b :: b in p.blocks && Overlapped(b, r) then Steps(p, [])
    else
      var k := Position(p.blocks, r.start);
      Steps(p.(blocks := p.blocks[..k] + [NewBlock(r, p.top)] + p.blocks[k..]), [])
  }

  /** Allocate(nil) from block i on. */
  function AllocateFrom(p: PoolState, i: nat): (o: Outcome)
    requires i < |p.blocks|
    decreases |p.blocks| - i
  {
    match AllocateIn(p.blocks[i], None)
    case Hangs => Diverges
    case NilDereference => Panics
    case Allocated(b, Success(a)) => Steps(p.(blocks := p.blocks[i := b], index := i), [Handed(a)])
    case Allocated(_, Failure(_)) =>
      if i + 1 < |p.blocks| then AllocateFrom(p, i + 1) else Steps(p.(index := i), [])
  }

  /** sort.Search over "block i contains the address", between lo and hi. */
  function Search(bs: seq<BlockState>, a: nat, lo: nat, hi: nat): (k: nat)
    requires lo <= hi <= |bs|
    ensures lo <= k <= hi
    decreases hi - lo
  {
    if lo == hi then lo
    else
      var h := (lo + hi) / 2;
      if bs[h].Contains(a) then Search(bs, a, lo, h) else Search(bs, a, h + 1, hi)
  }

  function AllocateThis(p: PoolState, a: nat): (o: Outcome)
  {
    var i := Search(p.blocks, a, 0, |p.blocks|);
    if i == |p.blocks| then Panics
    else
      match AllocateIn(p.blocks[i], Some(a))
      case Hangs => Diverges
      case NilDereference => Panics
      case Allocated(b, Success(_)) => Steps(p.(blocks := p.blocks[i := b]), [Handed(a)])
      case Allocated(_, Failure(_)) => Steps(p, [])
  }

  /** PutBack from block i on: the first block that has the address in use takes it. */
  function PutBackFrom(p: PoolState, a: nat, i: nat): (o: Outcome)
    requires i <= |p.blocks|
    decreases |p.blocks| - i
  {
    if i == |p.blocks| then Steps(p, [])
    else
      match PutBackIn(p.blocks[i], a)
      case NilCursor => Panics
      case Answer(_, false) => PutBackFrom(p, a, i + 1)
      case Answer(b, true) =>
        Steps(p.(blocks := p.blocks[i := b], index := if i < p.index then i else p.index), [TakenBack(a)])
  }

  datatype Op = Add(range: Range) | AllocateAny | AllocateOne(a: nat) | PutBack(a: nat)

  predicate FitsOp(top: nat, op: Op) { op.Add? ==> Fits(op.range, top) }

  predicate BelowTop(top: nat, op: Op) { op.Add? ==> op.range.start <= op.range.end < top }

  ghost predicate AllFit(top: nat, ops: seq<Op>) { forall op :: op in ops ==> FitsOp(top, op) }

  ghost predicate AllBelowTop(top: nat, ops: seq<Op>) { forall op :: op in ops ==> BelowTop(top, op) }

  function Step(p: PoolState, op: Op): (o: Outcome)
    requires p.blocks != [] ==> p.index < |p.blocks|
  {
    match op
    case Add(r) => AddBlock(p, r)
    case AllocateAny => if p.blocks == [] then Panics else AllocateFrom(p, p.index)
    case AllocateOne(a) => AllocateThis(p, a)
    case PutBack(a) => PutBackFrom(p, a, 0)
  }

  lemma ValidIsSane(p: PoolState)
    requires p.Valid()
    ensures p.Sane()
  {
    forall i | 0 <= i < |p.blocks| ensures p.blocks[i].Sane() {
      TidyIsSane(p.blocks[i]);
    }
  }

  // ---------------------------------------------------------------- what one step does

  lemma {:induction false} PositionSplits(bs: seq<BlockState>, start: nat)
    requires Sorted(bs) && AllSane(bs)
    ensures forall i :: 0 <= i < Position(bs, start) ==> bs[i].start <= start
    ensures forall i :: Position(bs, start) <= i < |bs| ==> start < bs[i].start
  {
    if bs != [] && start >= bs[0].start {
      PositionSplits(bs[1..], start);
      forall i | 0 <= i < |bs|
        ensures i < Position(bs, start) ==> bs[i].start <= start
        ensures Position(bs, start) <= i ==> start < bs[i].start
      {
        if i > 0 { assert bs[i] == bs[1..][i - 1]; }
      }
    } else if bs != [] {
      forall i | 0 <= i < |bs| ensures start < bs[i].start {
        if i > 0 { assert bs[0].end < bs[i].start; }
      }
    }
  }

  lemma InsertBetween(bs: seq<BlockState>, b: BlockState, k: nat)
    requires Sorted(bs) && AllSane(bs) && b.Sane() && k <= |bs|
    requires forall i :: 0 <= i < k ==> bs[i].end < b.start
    requires forall i :: k <= i < |bs| ==> b.end < bs[i].start
    ensures var bs' := bs[..k] + [b] + bs[k..];
            && Sorted(bs') && AllSane(bs')
            && (AllTidy(bs) && b.Tidy() && b.end < b.top ==> AllTidy(bs'))
  {
    var bs' := bs[..k] + [b] + bs[k..];
    forall i | 0 <= i < |bs'| ensures bs'[i] == if i < k then bs[i] else if i == k then b else bs[i - 1] {}
  }

  /** Sorting a block that overlaps none into its place keeps the order. */
  lemma InsertKeepsSorted(bs: seq<BlockState>, r: Range, top: nat)
    requires Sorted(bs) && AllSane(bs) && Fits(r, top)
    requires forall b :: b in bs ==> !Overlapped(b, r)
    ensures var k := Position(bs, r.start);
            var bs' := bs[..k] + [NewBlock(r, top)] + bs[k..];
            Sorted(bs') && AllSane(bs') && (AllTidy(bs) && r.end < top ==> AllTidy(bs'))
  {
    PositionSplits(bs, r.start);
    forall i | 0 <= i < |bs| ensures bs[i].end < r.start || r.end < bs[i].start {
      assert !Overlapped(bs[i], r);
    }
    InsertBetween(bs, NewBlock(r, top), Position(bs, r.start));
  }

  /**
   * Adding a range refuses exactly the overlapping ones, keeps the order, and keeps
   * the blocks behind the cursor full exactly when the new block does not land there.
   */
  lemma AddBlockKeeps(p: PoolState, r: Range)
    requires p.Sane() && Fits(r, p.top)
    ensures AddBlock(p, r).Steps? && AddBlock(p, r).pool.Sane()
    ensures p.Valid() && r.end < p.top ==> AddBlock(p, r).pool.Valid()
    ensures AddBlock(p, r).pool == p <==> exists b :: b in p.blocks && Overlapped(b, r)
    ensures p.FullBefore() && AddBlock(p, r).pool != p ==>
              (AddBlock(p, r).pool.FullBefore() <==> p.index <= Position(p.blocks, r.start))
  {
    if !exists b :: b in p.blocks && Overlapped(b, r) {
      InsertKeepsSorted(p.blocks, r, p.top);
      var k, added, bs' := Position(p.blocks, r.start), NewBlock(r, p.top), AddBlock(p, r).pool.blocks;
      assert bs'[..k] == p.blocks[..k] && bs'[k] == added;
      assert !added.Full() by { assert r.start !in added.used; }
      assert |bs'| != |p.blocks|;
      if p.FullBefore() && p.index <= k {
        forall i | 0 <= i < p.index ensures bs'[i].Full() {
          assert bs'[..k][i] == p.blocks[..k][i];
        }
      }
    }
  }

  /** A range that shares an address with a block is refused; any other makes exactly its own addresses available. */
  lemma AddMakesAvailable(p: PoolState, r: Range)
    requires p.Sane() && Fits(r, p.top)
    ensures var p' := AddBlock(p, r).pool;
            if exists i, a: nat :: 0 <= i < |p.blocks| && p.blocks[i].Contains(a) && r.start <= a <= r.end then p' == p
            else
              && (forall a: nat :: p'.Available(a) <==> p.Available(a) || r.start <= a <= r.end)
              && Capacity(p'.blocks) == Capacity(p.blocks) + (r.end - r.start + 1)
              && InUse(p'.blocks) == InUse(p.blocks)
  {
    var p' := AddBlock(p, r).pool;
    forall i | 0 <= i < |p.blocks|
      ensures Overlapped(p.blocks[i], r) <==> exists a: nat :: p.blocks[i].Contains(a) && r.start <= a <= r.end
    {
      var a := if p.blocks[i].start < r.start then r.start else p.blocks[i].start;
      assert Overlapped(p.blocks[i], r) ==> p.blocks[i].Contains(a) && r.start <= a <= r.end;
    }
    if !exists b :: b in p.blocks && Overlapped(b, r) {
      forall i | 0 <= i < |p.blocks| ensures !Overlapped(p.blocks[i], r) { assert p.blocks[i] in p.blocks; }
      var k, added := Position(p.blocks, r.start), NewBlock(r, p.top);
      InUseInsert(p.blocks, k, added);
      CapacityInsert(p.blocks, k, added);
      forall a: nat ensures p'.Available(a) <==> p.Available(a) || added.Contains(a) {
        AvailableInsert(p, k, added, a);
      }
    }
  }

  lemma AvailableInsert(p: PoolState, k: nat, b: BlockState, a: nat)
    requires k <= |p.blocks| && b.used == {}
    ensures p.(blocks := p.blocks[..k] + [b] + p.blocks[k..]).Available(a) <==> p.Available(a) || b.Contains(a)
  {
    var p' := p.(blocks := p.blocks[..k] + [b] + p.blocks[k..]);
    if i :| 0 <= i < |p.blocks| && p.blocks[i].Contains(a) && a !in p.blocks[i].used {
      assert p'.blocks[if i < k then i else i + 1] == p.blocks[i];
    }
    if i :| 0 <= i < |p'.blocks| && p'.blocks[i].Contains(a) && a !in p'.blocks[i].used {
      assert p'.blocks[i] == if i < k then p.blocks[i] else if i == k then b else p.blocks[i - 1];
    }
    assert p'.blocks[k] == b;
  }

  lemma {:induction false} CapacityConcat(xs: seq<BlockState>, ys: seq<BlockState>)
    ensures Capacity(xs + ys) == Capacity(xs) + Capacity(ys)
  {
    if xs == [] {
      assert xs + ys == ys;
    } else {
      CapacityConcat(xs[1..], ys);
      assert (xs + ys)[1..] == xs[1..] + ys;
    }
  }

  lemma CapacityInsert(bs: seq<BlockState>, k: nat, b: BlockState)
    requires k <= |bs|
    ensures Capacity(bs[..k] + [b] + bs[k..]) == Capacity(bs) + (b.end - b.start + 1)
  {
    var front, back := bs[..k], bs[k..];
    assert bs == front + back;
    CapacityConcat(front + [b], back);
    CapacityConcat(front, [b]);
    CapacityConcat(front, back);
    assert Capacity([b]) == b.end - b.start + 1;
  }

  /** The pool with address a of block k taken into use, and the cursor at `index`. */
  function Leased(p: PoolState, k: nat, a: nat, index: nat): (p': PoolState)
    requires k < |p.blocks|
  {
    p.(blocks := p.blocks[k := p.blocks[k].WithUsed(p.blocks[k].used + {a})], index := index)
  }

  /** The pool with address a of block k free again. */
  function Released(p: PoolState, k: nat, a: nat, index: nat): (p': PoolState)
    requires k < |p.blocks|
  {
    p.(blocks := p.blocks[k := p.blocks[k].WithUsed(p.blocks[k].used - {a})], index := index)
  }

  /** Where the unspecific search ends: the first block from i on with a free address. */
  lemma {:induction false} AllocateFromLowest(p: PoolState, i: nat)
    requires p.Valid() && i < |p.blocks|
    ensures var o := AllocateFrom(p, i);
            && o.Steps?
            && (o.events == [] ==>
                  && o.pool == p.(index := |p.blocks| - 1)
                  && forall j :: i <= j < |p.blocks| ==> p.blocks[j].Full())
            && (o.events != [] ==> exists k: nat, a: nat ::
                  && i <= k < |p.blocks| && p.blocks[k].IsLowestFree(a)
                  && (forall j :: i <= j < k ==> p.blocks[j].Full())
                  && o == Steps(Leased(p, k, a, k), [Handed(a)]))
    decreases |p.blocks| - i
  {
    LowestFreeFound(p.blocks[i]);
    AllocateBelowTop(p.blocks[i], 0);
    if p.blocks[i].Full() && i + 1 < |p.blocks| {
      AllocateFromLowest(p, i + 1);
    }
  }

  /** With every earlier block full, the lowest free address of a block is the pool's. */
  lemma FirstFit(p: PoolState, k: nat, a: nat)
    requires p.Valid() && k < |p.blocks| && p.blocks[k].IsLowestFree(a)
    requires forall j :: 0 <= j < k ==> p.blocks[j].Full()
    ensures p.Available(a) && forall x: nat :: p.Available(x) ==> a <= x
  {
    forall x: nat | p.Available(x) ensures a <= x {
      var i :| 0 <= i < |p.blocks| && p.blocks[i].Contains(x) && x !in p.blocks[i].used;
      assert i >= k;
      if i > k { assert p.blocks[k].end < p.blocks[i].start; }
    }
  }

  /** The reply of Allocate(nil) is the lowest free address of the whole pool, if it has one. */
  ghost predicate IsFirstFit(p: PoolState, events: seq<Event>)
  {
    && (events == [] <==> forall a: nat :: !p.Available(a))
    && (events != [] ==>
          && |events| == 1 && events[0].Handed? && p.Available(events[0].a)
          && forall x: nat :: p.Available(x) ==> events[0].a <= x)
  }

  /**
   * Allocate(nil) hands out the lowest free address of the whole pool, and fails only when
   * there is none, if and only if every block behind the cursor is full. It keeps them full.
   */
  lemma AllocateAnyIsLowest(p: PoolState)
    requires p.Valid() && p.blocks != []
    ensures Step(p, AllocateAny).Steps?
    ensures IsFirstFit(p, Step(p, AllocateAny).events) <==> p.FullBefore()
    ensures p.FullBefore() ==> Step(p, AllocateAny).pool.FullBefore()
  {
    AllocateFromLowest(p, p.index);
    if p.FullBefore() {
      FirstFitWhenFullBefore(p);
    } else {
      var i :| 0 <= i < p.index && !p.blocks[i].Full();
      BehindCursorIsMissed(p, i);
    }
  }

  lemma FirstFitWhenFullBefore(p: PoolState)
    requires p.Valid() && p.blocks != [] && p.FullBefore()
    ensures var o := Step(p, AllocateAny); o.Steps? && IsFirstFit(p, o.events) && o.pool.FullBefore()
  {
    var o := Step(p, AllocateAny);
    AllocateFromLowest(p, p.index);
    if o.events == [] {
      forall x: nat ensures !p.Available(x) {}
    } else {
      var k: nat, a: nat :| p.index <= k < |p.blocks| && p.blocks[k].IsLowestFree(a)
                  && (forall j :: p.index <= j < k ==> p.blocks[j].Full())
                  && o.events == [Handed(a)] && o.pool.index == k
                  && o.pool.blocks[..k] == p.blocks[..k];
      FirstFit(p, k, a);
      forall i | 0 <= i < k ensures o.pool.blocks[i].Full() {
        assert o.pool.blocks[..k][i] == p.blocks[..k][i];
      }
    }
  }

  /** A free address in a block behind the cursor is lower than any the search can reach. */
  lemma BehindCursorIsMissed(p: PoolState, i: nat)
    requires p.Valid() && i < p.index && !p.blocks[i].Full()
    ensures Step(p, AllocateAny).Steps? && !IsFirstFit(p, Step(p, AllocateAny).events)
  {
    var o := Step(p, AllocateAny);
    AllocateFromLowest(p, p.index);
    LowestFreeFound(p.blocks[i]);
    var x := FirstIn(p.blocks[i].used, p.blocks[i].start, p.blocks[i].end).value;
    assert p.blocks[i].IsLowestFree(x);
    assert p.Available(x);
    if o.events != [] {
      var k: nat, a: nat :| p.index <= k < |p.blocks| && p.blocks[k].IsLowestFree(a) && o.events == [Handed(a)];
      assert p.blocks[i].end < p.blocks[k].start;
    }
  }

  // ---------------------------------------------------------------- looking up a specific address

  /** The indices sort.Search probes while every probe says no. */
  predicate OnProbeChain(t: nat, lo: nat, hi: nat)
    decreases hi - lo
  {
    lo < hi && var h := (lo + hi) / 2; t == h || (h < t && OnProbeChain(t, h + 1, hi))
  }

  lemma OnlyOneContains(bs: seq<BlockState>, a: nat, t: nat, i: nat)
    requires Sorted(bs) && t < |bs| && i < |bs| && i != t && bs[t].Contains(a)
    ensures !bs[i].Contains(a)
  {
    assert if i < t then bs[i].end < bs[t].start else bs[t].end < bs[i].start;
  }

  lemma {:induction false} SearchMisses(bs: seq<BlockState>, a: nat, lo: nat, hi: nat)
    requires lo <= hi <= |bs| && forall i :: lo <= i < hi ==> !bs[i].Contains(a)
    ensures Search(bs, a, lo, hi) == hi
    decreases hi - lo
  {
    if lo < hi { SearchMisses(bs, a, (lo + hi) / 2 + 1, hi); }
  }

  /** sort.Search needs a monotone test; on "contains" it finds a block only on the probe chain. */
  lemma {:induction false} SearchFinds(bs: seq<BlockState>, a: nat, lo: nat, hi: nat, t: nat)
    requires lo <= t < hi <= |bs|
    requires forall i :: lo <= i < hi ==> (bs[i].Contains(a) <==> i == t)
    ensures Search(bs, a, lo, hi) == if OnProbeChain(t, lo, hi) then t else hi
    decreases hi - lo
  {
    var h := (lo + hi) / 2;
    if h < t {
      SearchFinds(bs, a, h + 1, hi, t);
    } else if h == t {
      SearchMisses(bs, a, lo, h);
    } else {
      SearchMisses(bs, a, h + 1, hi);
    }
  }

  /**
   * A specific request panics exactly when the lookup runs off the list: no block
   * contains the address, or the one that does is not on the probe chain. Otherwise
   * it is decided by the only block that contains the address.
   */
  lemma AllocateOneExact(p: PoolState, a: nat)
    requires p.Valid()
    ensures Step(p, AllocateOne(a)).Panics? <==>
            forall t :: 0 <= t < |p.blocks| && p.blocks[t].Contains(a) ==> !OnProbeChain(t, 0, |p.blocks|)
    ensures forall t :: 0 <= t < |p.blocks| && p.blocks[t].Contains(a) && OnProbeChain(t, 0, |p.blocks|) ==>
              Step(p, AllocateOne(a)) ==
                if a in p.blocks[t].used then Steps(p, [])
                else Steps(Leased(p, t, a, p.index), [Handed(a)])
  {
    if t :| 0 <= t < |p.blocks| && p.blocks[t].Contains(a) {
      forall i | 0 <= i < |p.blocks| && i != t ensures !p.blocks[i].Contains(a) {
        OnlyOneContains(p.blocks, a, t, i);
      }
      SearchFinds(p.blocks, a, 0, |p.blocks|, t);
      AllocateBelowTop(p.blocks[t], a);
    } else {
      SearchMisses(p.blocks, a, 0, |p.blocks|);
    }
  }

  /** The lookup reaches every block only when there is at most one: the first of two is missed. */
  lemma LookupCompleteIff(n: nat)
    ensures (forall t :: 0 <= t < n ==> OnProbeChain(t, 0, n)) <==> n <= 1
    ensures n > 0 ==> OnProbeChain(n - 1, 0, n)
  {
    if n >= 2 { assert !OnProbeChain(0, 0, n); }
    if n > 0 { LastIsProbed(0, n); }
  }

  lemma {:induction false} LastIsProbed(lo: nat, hi: nat)
    requires lo < hi
    ensures OnProbeChain(hi - 1, lo, hi)
    decreases hi - lo
  {
    var h := (lo + hi) / 2;
    if h < hi - 1 { LastIsProbed(h + 1, hi); }
  }

  // ---------------------------------------------------------------- putting back

  lemma {:induction false} PutBackFromExact(p: PoolState, a: nat, i: nat)
    requires p.Valid() && i <= |p.blocks|
    ensures (forall j :: i <= j < |p.blocks| ==> a !in p.blocks[j].used) ==> PutBackFrom(p, a, i) == Steps(p, [])
    ensures forall k :: i <= k < |p.blocks| && a in p.blocks[k].used ==>
              PutBackFrom(p, a, i) ==
                if p.blocks[k].Full() then Panics
                else Steps(Released(p, k, a, if k < p.index then k else p.index), [TakenBack(a)])
    decreases |p.blocks| - i
  {
    if i < |p.blocks| {
      PutBackTidy(p.blocks[i], a);
      PutBackFromExact(p, a, i + 1);
      if a in p.blocks[i].used {
        forall k | i < k < |p.blocks| ensures a !in p.blocks[k].used {
          assert p.blocks[i].end < p.blocks[k].start;
        }
      }
    }
  }

  /**
   * Putting back changes nothing for an address not in use, and panics exactly when
   * the block it came from is full. So the cursor never has to move back: every block
   * behind it is full, and an address of such a block cannot be put back.
   */
  lemma PutBackExact(p: PoolState, a: nat)
    requires p.Valid()
    ensures a !in InUse(p.blocks) ==> Step(p, PutBack(a)) == Steps(p, [])
    ensures Step(p, PutBack(a)).Panics? <==>
            exists k :: 0 <= k < |p.blocks| && a in p.blocks[k].used && p.blocks[k].Full()
    ensures p.FullBefore() && Step(p, PutBack(a)).Steps? ==>
              Step(p, PutBack(a)).pool.index == p.index && Step(p, PutBack(a)).pool.FullBefore()
  {
    PutBackFromExact(p, a, 0);
    InUseIs(p.blocks, a);
    if k :| 0 <= k < |p.blocks| && a in p.blocks[k].used {
      forall j | 0 <= j < |p.blocks| && j != k ensures a !in p.blocks[j].used {
        OnlyOneContains(p.blocks, a, k, j);
      }
    }
  }

  // ---------------------------------------------------------------- conservation

  function InUse(bs: seq<BlockState>): (s: set<nat>)
  {
    if bs == [] then {} else bs[0].used + InUse(bs[1..])
  }

  function FreeIn(bs: seq<BlockState>): (s: set<nat>)
  {
    if bs == [] then {} else bs[0].Free() + FreeIn(bs[1..])
  }

  function Capacity(bs: seq<BlockState>): (n: int)
  {
    if bs == [] then 0 else bs[0].end - bs[0].start + 1 + Capacity(bs[1..])
  }

  lemma {:induction false} InUseIs(bs: seq<BlockState>, a: nat)
    ensures a in InUse(bs) <==> exists i :: 0 <= i < |bs| && a in bs[i].used
  {
    if bs != [] {
      InUseIs(bs[1..], a);
      assert bs == [bs[0]] + bs[1..];
    }
  }

  lemma {:induction false} FreeInIs(bs: seq<BlockState>, a: nat)
    ensures a in FreeIn(bs) <==> exists i :: 0 <= i < |bs| && a in bs[i].Free()
  {
    if bs != [] {
      FreeInIs(bs[1..], a);
      assert bs == [bs[0]] + bs[1..];
    }
  }

  /** Addresses in use plus free addresses always make up the blocks' sizes. */
  lemma {:induction false} Conservation(bs: seq<BlockState>)
    requires Sorted(bs) && AllTidy(bs)
    ensures |InUse(bs)| + |FreeIn(bs)| == Capacity(bs)
    ensures InUse(bs) !! FreeIn(bs)
  {
    if bs != [] {
      var b, rest := bs[0], bs[1..];
      Conservation(rest);
      UsedPlusFree(b);
      forall a: nat | a in InUse(rest) + FreeIn(rest) ensures !b.Contains(a) {
        InUseIs(rest, a);
        FreeInIs(rest, a);
        var i :| 0 <= i < |rest| && (a in rest[i].used || a in rest[i].Free());
        assert bs[0].end < bs[i + 1].start;
      }
      assert |InUse(bs)| == |b.used| + |InUse(rest)|;
      assert |FreeIn(bs)| == |b.Free()| + |FreeIn(rest)|;
    }
  }

  // ---------------------------------------------------------------- runs

  /** Replays a log of hand-outs and returns against a set of leased addresses. */
  function Replay(leased: set<nat>, log: seq<Event>): (r: Option<set<nat>>)
    decreases log
  {
    if log == [] then Some(leased)
    else match log[0]
         case Handed(a) => if a in leased then None else Replay(leased + {a}, log[1..])
         case TakenBack(a) => if a !in leased then None else Replay(leased - {a}, log[1..])
  }

  lemma {:induction false} AllocateFromSane(p: PoolState, i: nat)
    requires p.Sane() && i < |p.blocks|
    ensures AllocateFrom(p, i).Steps? ==> AllocateFrom(p, i).pool.Sane() && AllocateFrom(p, i).pool.top == p.top
    decreases |p.blocks| - i
  {
    CallsKeepSane(p.blocks[i], None, 0);
    if i + 1 < |p.blocks| { AllocateFromSane(p, i + 1); }
  }

  lemma {:induction false} PutBackFromSane(p: PoolState, a: nat, i: nat)
    requires p.Sane() && i <= |p.blocks|
    ensures PutBackFrom(p, a, i).Steps? ==>
              PutBackFrom(p, a, i).pool.Sane() && PutBackFrom(p, a, i).pool.top == p.top
    decreases |p.blocks| - i
  {
    if i < |p.blocks| {
      CallsKeepSane(p.blocks[i], None, a);
      PutBackFromSane(p, a, i + 1);
    }
  }

  /** Every step keeps the pool sane, also with a block at the top address. */
  lemma StepKeepsSane(p: PoolState, op: Op)
    requires p.Sane() && FitsOp(p.top, op)
    ensures Step(p, op).Steps? ==> Step(p, op).pool.Sane() && Step(p, op).pool.top == p.top
  {
    match op
    case Add(r) => AddBlockKeeps(p, r);
    case AllocateAny => if p.blocks != [] { AllocateFromSane(p, p.index); }
    case AllocateOne(a) =>
      var i := Search(p.blocks, a, 0, |p.blocks|);
      if i < |p.blocks| {
        CallsKeepSane(p.blocks[i], Some(a), 0);
      }
    case PutBack(a) => PutBackFromSane(p, a, 0);
  }

  /** Runs operations in order until one does not return. */
  ghost function Run(p: PoolState, ops: seq<Op>): (o: Outcome)
    requires p.Sane() && AllFit(p.top, ops)
    ensures o.Steps? ==> o.pool.Sane()
    decreases ops
  {
    if ops == [] then Steps(p, [])
    else
      StepKeepsSane(p, ops[0]);
      match Step(p, ops[0])
      case Panics => Panics
      case Diverges => Diverges
      case Steps(p1, e1) =>
        match Run(p1, ops[1..])
        case Panics => Panics
        case Diverges => Diverges
        case Steps(p2, e2) => Steps(p2, e1 + e2)
  }

  lemma InUseUpdate(bs: seq<BlockState>, k: nat, used: set<nat>, a: nat)
    requires Sorted(bs) && AllTidy(bs) && k < |bs| && bs[k].Contains(a)
    ensures used == bs[k].used + {a} ==> InUse(bs[k := bs[k].WithUsed(used)]) == InUse(bs) + {a}
    ensures used == bs[k].used - {a} ==> InUse(bs[k := bs[k].WithUsed(used)]) == InUse(bs) - {a}
    ensures a in InUse(bs) <==> a in bs[k].used
  {
    var bs' := bs[k := bs[k].WithUsed(used)];
    InUseIs(bs, a);
    forall i | 0 <= i < |bs| && i != k ensures a !in bs[i].used {
      assert if i < k then bs[i].end < bs[k].start else bs[k].end < bs[i].start;
    }
    forall x: nat
      ensures x in InUse(bs') <==> x in used || exists i :: 0 <= i < |bs| && i != k && x in bs[i].used
      ensures x in InUse(bs) <==> x in bs[k].used || exists i :: 0 <= i < |bs| && i != k && x in bs[i].used
    {
      InUseIs(bs', x);
      InUseIs(bs, x);
      assert bs'[k].used == used;
      if i :| 0 <= i < |bs| && i != k && x in bs[i].used { assert x in bs'[i].used; }
      if i :| 0 <= i < |bs'| && i != k && x in bs'[i].used { assert x in bs[i].used; }
    }
  }

  lemma {:induction false} InUseConcat(xs: seq<BlockState>, ys: seq<BlockState>)
    ensures InUse(xs + ys) == InUse(xs) + InUse(ys)
  {
    if xs == [] {
      assert xs + ys == ys;
    } else {
      InUseConcat(xs[1..], ys);
      assert (xs + ys)[1..] == xs[1..] + ys;
    }
  }

  lemma InUseInsert(bs: seq<BlockState>, k: nat, b: BlockState)
    requires k <= |bs| && b.used == {}
    ensures InUse(bs[..k] + [b] + bs[k..]) == InUse(bs)
  {
    InUseConcat(bs[..k] + [b], bs[k..]);
    InUseConcat(bs[..k], [b]);
    InUseConcat(bs[..k], bs[k..]);
    assert bs[..k] + bs[k..] == bs;
  }

  lemma HandOutKeeps(p: PoolState, k: nat, a: nat, index: nat)
    requires p.Valid() && k < |p.blocks| && index < |p.blocks|
    requires p.blocks[k].Contains(a) && a !in p.blocks[k].used
    ensures var p' := Leased(p, k, a, index);
            p'.Valid() && Replay(InUse(p.blocks), [Handed(a)]) == Some(InUse(p'.blocks))
  {
    AllocateBelowTop(p.blocks[k], a);
    InUseUpdate(p.blocks, k, p.blocks[k].used + {a}, a);
  }

  lemma TakeBackKeeps(p: PoolState, k: nat, a: nat, index: nat)
    requires p.Valid() && k < |p.blocks| && index < |p.blocks|
    requires a in p.blocks[k].used
    ensures var p' := Released(p, k, a, index);
            p'.Valid() && Replay(InUse(p.blocks), [TakenBack(a)]) == Some(InUse(p'.blocks))
  {
    PutBackTidy(p.blocks[k], a);
    assert p.blocks[k].Contains(a);
    InUseUpdate(p.blocks, k, p.blocks[k].used - {a}, a);
  }

  /**
   * With no block at the top address, a step never hangs and keeps the pool valid, and its
   * log is a legal move of the leased set.
   */
  lemma StepKeeps(p: PoolState, op: Op)
    requires p.Valid() && BelowTop(p.top, op)
    ensures !Step(p, op).Diverges?
    ensures Step(p, op).Steps? ==>
              && Step(p, op).pool.Valid() && Step(p, op).pool.top == p.top
              && Replay(InUse(p.blocks), Step(p, op).events) == Some(InUse(Step(p, op).pool.blocks))
  {
    match op
    case Add(r) =>
      ValidIsSane(p);
      AddBlockKeeps(p, r);
      InUseInsert(p.blocks, Position(p.blocks, r.start), NewBlock(r, p.top));
    case AllocateAny =>
      if p.blocks != [] { AllocateAnyKeeps(p); }
    case AllocateOne(a) =>
      AllocateOneKeeps(p, a);
    case PutBack(a) =>
      PutBackFromExact(p, a, 0);
      if k :| 0 <= k < |p.blocks| && a in p.blocks[k].used {
        TakeBackKeeps(p, k, a, if k < p.index then k else p.index);
      }
  }

  lemma AllocateAnyKeeps(p: PoolState)
    requires p.Valid() && p.blocks != []
    ensures var o := AllocateFrom(p, p.index);
            && o.Steps? && o.pool.Valid() && o.pool.top == p.top
            && Replay(InUse(p.blocks), o.events) == Some(InUse(o.pool.blocks))
  {
    AllocateFromLowest(p, p.index);
    var o := AllocateFrom(p, p.index);
    if o.events != [] {
      var k: nat, a: nat :| p.index <= k < |p.blocks| && p.blocks[k].IsLowestFree(a)
                  && o == Steps(Leased(p, k, a, k), [Handed(a)]);
      HandOutKeeps(p, k, a, k);
    }
  }

  lemma AllocateOneKeeps(p: PoolState, a: nat)
    requires p.Valid()
    ensures var o := AllocateThis(p, a);
            && !o.Diverges?
            && (o.Steps? ==>
                  && o.pool.Valid() && o.pool.top == p.top
                  && Replay(InUse(p.blocks), o.events) == Some(InUse(o.pool.blocks)))
  {
    var i := Search(p.blocks, a, 0, |p.blocks|);
    if i < |p.blocks| {
      AllocateBelowTop(p.blocks[i], a);
      if p.blocks[i].Contains(a) && a !in p.blocks[i].used {
        HandOutKeeps(p, i, a, p.index);
      }
    }
  }

  lemma {:induction false} ReplayConcat(leased: set<nat>, log1: seq<Event>, log2: seq<Event>)
    requires Replay(leased, log1).Some?
    ensures Replay(leased, log1 + log2) == Replay(Replay(leased, log1).value, log2)
    decreases log1
  {
    if log1 == [] {
      assert log1 + log2 == log2;
    } else {
      assert (log1 + log2)[1..] == log1[1..] + log2;
      var leased' := match log1[0] case Handed(a) => leased + {a} case TakenBack(a) => leased - {a};
      ReplayConcat(leased', log1[1..], log2);
    }
  }

  /**
   * Over every run that adds no block at the top address, whatever its order: no step
   * hangs, no address is handed out while it is still leased, none is taken back that is
   * not, and the addresses in use are exactly the leased ones. Used and free addresses
   * always add up to the blocks' sizes.
   */
  lemma {:induction false} RunNeverHandsOutTwice(p: PoolState, ops: seq<Op>)
    requires p.Valid() && AllBelowTop(p.top, ops)
    ensures p.Sane() && !Run(p, ops).Diverges?
    ensures Run(p, ops).Steps? ==>
              var o := Run(p, ops);
              && o.pool.Valid()
              && Replay(InUse(p.blocks), o.events) == Some(InUse(o.pool.blocks))
              && |InUse(o.pool.blocks)| + |FreeIn(o.pool.blocks)| == Capacity(o.pool.blocks)
    decreases ops
  {
    ValidIsSane(p);
    if ops == [] {
      Conservation(p.blocks);
    } else {
      var s := Step(p, ops[0]);
      StepKeeps(p, ops[0]);
      if s.Steps? {
        RunNeverHandsOutTwice(s.pool, ops[1..]);
        if Run(s.pool, ops[1..]).Steps? {
          ReplayConcat(InUse(p.blocks), s.events, Run(s.pool, ops[1..]).events);
        }
      }
    }
  }

  // ---------------------------------------------------------------- first fit over runs

  /** Every addition lands at or after the block cursor, or is refused. */
  ghost predicate AddsInOrder(p: PoolState, ops: seq<Op>)
    requires p.Sane() && AllFit(p.top, ops)
    decreases ops
  {
    ops == [] ||
    (StepKeepsSane(p, ops[0]);
     && (ops[0].Add? && AddBlock(p, ops[0].range).pool != p ==> p.index <= Position(p.blocks, ops[0].range.start))
     && (Step(p, ops[0]).Steps? ==> AddsInOrder(Step(p, ops[0]).pool, ops[1..])))
  }

  /** In every state of the run, Allocate(nil) is first-fit over the whole pool. */
  ghost predicate AlwaysFirstFit(p: PoolState, ops: seq<Op>)
    requires p.Sane() && AllFit(p.top, ops)
    decreases ops
  {
    && (p.blocks != [] ==> Step(p, AllocateAny).Steps? && IsFirstFit(p, Step(p, AllocateAny).events))
    && (ops == [] ||
        (StepKeepsSane(p, ops[0]);
         Step(p, ops[0]).Steps? ==> AlwaysFirstFit(Step(p, ops[0]).pool, ops[1..])))
  }

  /** A step keeps the blocks behind the cursor full unless it adds one there. */
  lemma StepKeepsFullBefore(p: PoolState, op: Op)
    requires p.Valid() && p.FullBefore() && BelowTop(p.top, op) && Step(p, op).Steps?
    ensures Step(p, op).pool.FullBefore() <==>
            (op.Add? && AddBlock(p, op.range).pool != p ==> p.index <= Position(p.blocks, op.range.start))
  {
    match op
    case Add(r) => ValidIsSane(p); AddBlockKeeps(p, r);
    case AllocateAny => AllocateAnyIsLowest(p);
    case AllocateOne(a) => AllocateOneExact(p, a);
    case PutBack(a) => PutBackExact(p, a);
  }

  /**
   * From a pool with full blocks behind the cursor, a run is first-fit in every state it
   * reaches if and only if it adds no block behind the cursor.
   */
  lemma {:induction false} FirstFitIffAddsInOrder(p: PoolState, ops: seq<Op>)
    requires p.Valid() && p.FullBefore() && AllBelowTop(p.top, ops)
    ensures p.Sane() && (AlwaysFirstFit(p, ops) <==> AddsInOrder(p, ops))
    decreases ops
  {
    ValidIsSane(p);
    if p.blocks != [] { AllocateAnyIsLowest(p); }
    if ops != [] && Step(p, ops[0]).Steps? {
      var p' := Step(p, ops[0]).pool;
      StepKeeps(p, ops[0]);
      StepKeepsSane(p, ops[0]);
      StepKeepsFullBefore(p, ops[0]);
      if p'.FullBefore() {
        FirstFitIffAddsInOrder(p', ops[1..]);
      } else {
        AllocateAnyIsLowest(p');
      }
    }
  }

  lemma {:induction false} AddsFirstAreInOrder(p: PoolState, ops: seq<Op>, n: nat)
    requires p.Sane() && AllFit(p.top, ops) && n <= |ops|
    requires forall i :: 0 <= i < |ops| ==> (ops[i].Add? <==> i < n)
    requires n > 0 ==> p.index == 0
    ensures AddsInOrder(p, ops)
    decreases ops
  {
    if ops != [] && Step(p, ops[0]).Steps? {
      StepKeepsSane(p, ops[0]);
      AddsFirstAreInOrder(Step(p, ops[0]).pool, ops[1..], if n > 0 then n - 1 else 0);
    }
  }

  /**
   * A pool that is given all its blocks before it is used, as the mesh controller does,
   * is first-fit for good.
   */
  lemma AddedFirstIsFirstFit(top: nat, ops: seq<Op>, n: nat)
    requires AllBelowTop(top, ops) && n <= |ops|
    requires forall i :: 0 <= i < |ops| ==> (ops[i].Add? <==> i < n)
    ensures AlwaysFirstFit(Empty(top), ops)
  {
    AddsFirstAreInOrder(Empty(top), ops, n);
    FirstFitIffAddsInOrder(Empty(top), ops);
  }
}
