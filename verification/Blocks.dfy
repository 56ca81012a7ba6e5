// One address block of pkg/util/ipam/block.go: a range, the set of addresses in
// use, and a cursor `next` that lets Allocate skip the search for a free address.
// First the block as a value, then the object.
module Blocks {
  import opened Prelude
  import opened Addresses

  /** `top` is the all-ones address of the family, after which cidr.Inc goes on at zero. */
  datatype BlockState = BlockState(start: nat, end: nat, top: nat, used: set<nat>, next: Option<nat>)
  {
    predicate Contains(a: nat) { start <= a <= end }

    ghost predicate Full() { forall a :: start <= a <= end ==> a in used }

    ghost predicate IsLowestFree(a: nat)
    {
      Contains(a) && a !in used && forall x :: start <= x < a ==> x in used
    }

    function Free(): (f: set<nat>) { Interval(start, end) - used }

    /** What no call ever breaks: the cursor of a block below the top address is in the block. */
    predicate Sane()
    {
      && start <= end <= top && (end == top ==> 0 < start)
      && (next.Some? ==> next.value <= end && (end < top ==> start <= next.value))
    }

    /** Only own addresses are in use, and the cursor is the lowest free one, nil when there is none. */
    predicate Tidy()
    {
      && start <= end <= top && (end == top ==> 0 < start)
      && (forall a :: a in used ==> Contains(a))
      && next == FirstIn(used, start, end)
    }

    /** The same block with other addresses in use and the cursor where it belongs. */
    function WithUsed(used': set<nat>): (b: BlockState)
    {
      this.(used := used', next := FirstIn(used', start, end))
    }
  }

  /** A block may be built on the range: NewBlock makes no other. */
  predicate Fits(r: Range, top: nat)
  {
    r.start <= r.end <= top && (r.end == top ==> 0 < r.start)
  }

  function NewBlock(r: Range, top: nat): (b: BlockState) { BlockState(r.start, r.end, top, {}, Some(r.start)) }

  /** The addresses of a range. */
  function Interval(lo: nat, hi: int): (s: set<nat>)
    ensures forall a: nat :: a in s <==> lo <= a <= hi
    ensures |s| == if lo <= hi then hi - lo + 1 else 0
    decreases hi + 1 - lo
  {
    if lo > hi then {} else Interval(lo, hi - 1) + {hi as nat}
  }

  /** The plain search the cursor replaces: the first free address between two bounds. */
  function FirstIn(used: set<nat>, lo: nat, hi: nat): (r: Option<nat>)
    decreases hi + 1 - lo
  {
    if lo > hi then None
    else if lo !in used then Some(lo)
    else FirstIn(used, lo + 1, hi)
  }

  lemma {:induction false} FirstInFinds(used: set<nat>, lo: nat, hi: nat)
    ensures FirstIn(used, lo, hi).None? <==> forall x :: lo <= x <= hi ==> x in used
    ensures FirstIn(used, lo, hi).Some? ==>
              var f := FirstIn(used, lo, hi).value;
              lo <= f <= hi && f !in used && forall x :: lo <= x < f ==> x in used
    decreases hi + 1 - lo
  {
    if lo <= hi && lo in used {
      FirstInFinds(used, lo + 1, hi);
    }
  }

  /** The search over the range finds the lowest free address, if there is one. */
  lemma LowestFreeFound(b: BlockState)
    ensures FirstIn(b.used, b.start, b.end).None? <==> b.Full()
    ensures forall a: nat :: FirstIn(b.used, b.start, b.end) == Some(a) <==> b.IsLowestFree(a)
  {
    FirstInFinds(b.used, b.start, b.end);
    forall a: nat | b.IsLowestFree(a)
      ensures FirstIn(b.used, b.start, b.end) == Some(a)
    {
      assert a in b.used || a !in b.used;
    }
  }

  /** Every address of the range is in use or free, never both. */
  lemma UsedPlusFree(b: BlockState)
    requires b.Tidy()
    ensures |b.used| + |b.Free()| == b.end - b.start + 1
  {
    assert Interval(b.start, b.end) == b.used + b.Free();
    assert b.used !! b.Free();
  }

  // ---------------------------------------------------------------- calls on a block

  /** Where the skip loop stops after address a: at a free address, past the end, or never. */
  datatype Stop = At(a: nat) | PastEnd | Never

  function Skip(b: BlockState, a: nat): (s: Stop)
  {
    var ahead := FirstIn(b.used, a + 1, b.end);
    if ahead.Some? then At(ahead.value)
    else if b.end < b.top then PastEnd
    else
      var around := FirstIn(b.used, 0, a);
      if around.Some? then At(around.value) else Never
  }

  /** moveToNextUnused: the block with its cursor moved on, unless the loop never ends. */
  function Moved(b: BlockState): (r: Option<BlockState>)
    requires b.next.Some?
  {
    match Skip(b, b.next.value)
    case At(a) => Some(b.(next := Some(a)))
    case PastEnd => Some(b.(next := None))
    case Never => None
  }

  datatype AllocateError = NotInBlock | AlreadyUsed | NoneAvailable

  /** Allocate returns, dereferences a nil cursor, or loops for good. */
  datatype AllocateReply = Allocated(block: BlockState, result: Result<nat, AllocateError>) | NilDereference | Hangs

  function HandOut(b: BlockState, a: nat, move: bool): (r: AllocateReply)
    requires b.next.Some?
  {
    if !move then Allocated(b.(used := b.used + {a}), Success(a))
    else match Moved(b)
         case Some(c) => Allocated(c.(used := c.used + {a}), Success(a))
         case None => Hangs
  }

  function AllocateIn(b: BlockState, ipReq: Option<nat>): (r: AllocateReply)
  {
    match ipReq
    case None =>
      if b.next.None? then Allocated(b, Failure(NoneAvailable)) else HandOut(b, b.next.value, true)
    case Some(a) =>
      if !b.Contains(a) then Allocated(b, Failure(NotInBlock))
      else if a in b.used then Allocated(b, Failure(AlreadyUsed))
      else if b.next.None? then NilDereference
      else HandOut(b, a, a == b.next.value)
  }

  /** PutBack either answers or dereferences a nil cursor. */
  datatype PutBackReply = Answer(block: BlockState, returned: bool) | NilCursor

  function PutBackIn(b: BlockState, a: nat): (r: PutBackReply)
  {
    if !b.Contains(a) || a !in b.used then Answer(b, false)
    else if b.next.None? then NilCursor
    else Answer(b.(used := b.used - {a}, next := if b.next.value > a then Some(a) else b.next), true)
  }

  // ---------------------------------------------------------------- what the calls keep

  lemma TidyIsSane(b: BlockState)
    requires b.Tidy()
    ensures b.Sane()
  {
    FirstInFinds(b.used, b.start, b.end);
  }

  lemma CallsKeepSane(b: BlockState, ipReq: Option<nat>, a: nat)
    requires b.Sane()
    ensures var r := AllocateIn(b, ipReq);
            r.Allocated? ==> r.block.Sane() && r.block.start == b.start && r.block.end == b.end
    ensures var r := PutBackIn(b, a);
            r.Answer? ==> r.block.Sane() && r.block.start == b.start && r.block.end == b.end
  {
    if b.next.Some? {
      FirstInFinds(b.used, b.next.value + 1, b.end);
      FirstInFinds(b.used, 0, b.next.value);
    }
  }

  /** Taking one free address of a tidy block into use, with the cursor moved if it was there. */
  lemma HandOutTidy(b: BlockState, a: nat)
    requires b.Tidy() && b.Contains(a) && a !in b.used
    ensures b.next.Some?
    ensures var r := HandOut(b, a, b.next == Some(a));
            var tidy := b.WithUsed(b.used + {a});
            && r.Allocated? && r.result == Success(a)
            && r.block == if b.end < b.top || !tidy.Full() then tidy else tidy.(next := Some(0))
  {
    var b' := b.WithUsed(b.used + {a});
    LowestFreeFound(b);
    LowestFreeFound(b');
    FirstInFinds(b.used, a + 1, b.end);
    var f, ahead := b.next, FirstIn(b.used, a + 1, b.end);
    if f == Some(a) && ahead.Some? {
      assert b'.IsLowestFree(ahead.value);
    } else if f.Some? && f != Some(a) {
      assert b'.IsLowestFree(f.value);
    }
  }

  /** The block HandOutTidy leaves is tidy, except a full one that ends at the top address. */
  lemma AfterHandOut(b: BlockState, a: nat)
    requires b.Tidy() && b.Contains(a)
    ensures b.WithUsed(b.used + {a}).Tidy()
    ensures b.end == b.top && b.WithUsed(b.used + {a}).Full() ==>
              && Wrapped(b.WithUsed(b.used + {a}).(next := Some(0)), 0)
              && !b.WithUsed(b.used + {a}).(next := Some(0)).Tidy()
  {
    LowestFreeFound(b.WithUsed(b.used + {a}));
  }

  /** What taking address a into use leaves of a tidy block. */
  ghost predicate TakenFrom(b: BlockState, a: nat, c: BlockState)
  {
    && c.used == b.used + {a}
    && (b.end < b.top ==> c == b.WithUsed(b.used + {a}))
    && (c.Tidy() <==> b.end < b.top || !c.Full())
    && (!c.Tidy() ==> Wrapped(c, 0))
  }

  lemma HandOutTakes(b: BlockState, a: nat)
    requires b.Tidy() && b.Contains(a) && a !in b.used
    ensures b.next.Some?
    ensures var r := HandOut(b, a, b.next == Some(a));
            r.Allocated? && r.result == Success(a) && TakenFrom(b, a, r.block)
  {
    HandOutTidy(b, a);
    AfterHandOut(b, a);
    LowestFreeFound(b.WithUsed(b.used + {a}));
  }

  /**
   * On a tidy block, Allocate hands out the lowest free address and fails only when the
   * block is full, or hands out the requested address unless it is foreign or in use. It
   * never reads a nil cursor and never loops. The block stays tidy unless its last free
   * address goes out and it ends at the top address: then the cursor has wrapped to zero.
   */
  lemma AllocateTidy(b: BlockState, ipReq: Option<nat>)
    requires b.Tidy()
    ensures var r := AllocateIn(b, ipReq);
            && r.Allocated?
            && (ipReq.None? ==> (r.result.Success? <==> !b.Full()) && (r.result.Success? ==> b.IsLowestFree(r.result.value)))
            && (ipReq.Some? ==>
                  && (r.result.Success? <==> b.Contains(ipReq.value) && ipReq.value !in b.used)
                  && (r.result.Success? ==> r.result.value == ipReq.value))
            && (if r.result.Success? then TakenFrom(b, r.result.value, r.block) else r.block == b)
  {
    LowestFreeFound(b);
    if ipReq.Some? && b.Contains(ipReq.value) && ipReq.value !in b.used {
      HandOutTakes(b, ipReq.value);
    } else if ipReq.None? && b.next.Some? {
      HandOutTakes(b, b.next.value);
    }
  }

  /** A tidy block takes back an address in use and stays tidy; its cursor is nil exactly when it is full. */
  lemma PutBackTidy(b: BlockState, a: nat)
    requires b.Tidy()
    ensures PutBackIn(b, a) ==
            if a !in b.used then Answer(b, false)
            else if b.Full() then NilCursor
            else Answer(b.WithUsed(b.used - {a}), true)
    ensures b.WithUsed(b.used - {a}).Tidy()
  {
    var b' := b.WithUsed(b.used - {a});
    LowestFreeFound(b);
    LowestFreeFound(b');
    if a in b.used && b.next.Some? {
      assert b'.IsLowestFree(if b.next.value > a then a else b.next.value);
    }
  }

  /** Below the top address the cursor is no more than a fast form of the plain search. */
  lemma AllocateBelowTop(b: BlockState, a: nat)
    requires b.Tidy() && b.end < b.top
    ensures AllocateIn(b, None) ==
            var f := FirstIn(b.used, b.start, b.end);
            if f.None? then Allocated(b, Failure(NoneAvailable))
            else Allocated(b.WithUsed(b.used + {f.value}), Success(f.value))
    ensures AllocateIn(b, Some(a)) ==
            if !b.Contains(a) then Allocated(b, Failure(NotInBlock))
            else if a in b.used then Allocated(b, Failure(AlreadyUsed))
            else Allocated(b.WithUsed(b.used + {a}), Success(a))
    ensures b.Contains(a) ==> b.WithUsed(b.used + {a}).Tidy()
  {
    LowestFreeFound(b);
    if b.next.Some? { HandOutTakes(b, b.next.value); }
    if b.Contains(a) {
      AfterHandOut(b, a);
      if a !in b.used { HandOutTakes(b, a); }
    }
  }

  /** All own addresses and the first n of the family are in use, and the cursor is outside the block. */
  ghost predicate Wrapped(b: BlockState, n: nat)
  {
    && b.start <= b.end == b.top && n < b.start && b.next == Some(n)
    && forall a: nat :: a in b.used <==> b.Contains(a) || a < n
  }

  /** A block whose cursor has wrapped hands out foreign addresses, from zero upwards, one call after the other. */
  lemma WrappedHandsOutForeign(b: BlockState, n: nat)
    requires Wrapped(b, n)
    ensures var r := AllocateIn(b, None);
            && r.Allocated? && r.result == Success(n) && !b.Contains(n)
            && (n + 1 < b.start ==> Wrapped(r.block, n + 1))
  {
    FirstInFinds(b.used, n + 1, b.end);
    FirstInFinds(b.used, 0, n);
    assert n !in b.used;
  }

  /** The skip loop never ends exactly when every address of the family is in use. */
  lemma HangsIffAllUsed(b: BlockState)
    requires b.Sane() && b.next.Some?
    ensures AllocateIn(b, None).Hangs? <==> b.end == b.top && forall a: nat :: a <= b.top ==> a in b.used
  {
    FirstInFinds(b.used, b.next.value + 1, b.end);
    FirstInFinds(b.used, 0, b.next.value);
  }

  /** The block after n calls of Allocate(nil) that all hand out an address. */
  function Calls(b: BlockState, n: nat): (r: Option<BlockState>)
    decreases n
  {
    if n == 0 then Some(b)
    else match AllocateIn(b, None)
         case Allocated(c, Success(_)) => Calls(c, n - 1)
         case _ => None
  }

  lemma {:induction false} WrappedHangs(b: BlockState, n: nat)
    requires Wrapped(b, n)
    ensures var r := Calls(b, b.start - n); r.Some? && AllocateIn(r.value, None).Hangs?
    decreases b.start - n
  {
    WrappedHandsOutForeign(b, n);
    var c := AllocateIn(b, None).block;
    if n + 1 < b.start {
      WrappedHangs(c, n + 1);
      assert Calls(b, b.start - n) == Calls(c, c.start - (n + 1));
    } else {
      LastForeign(b, n);
      assert Calls(b, 1) == Calls(c, 0);
    }
  }

  /** With the last foreign address every address of the family is in use. */
  lemma LastForeign(b: BlockState, n: nat)
    requires Wrapped(b, n) && n + 1 == b.start
    ensures var r := AllocateIn(b, None);
            r.Allocated? && r.result.Success? && AllocateIn(r.block, None).Hangs?
  {
    WrappedHandsOutForeign(b, n);
    FirstInFinds(b.used, n + 1, b.end);
    FirstInFinds(b.used, 0, n);
    HangsIffAllUsed(AllocateIn(b, None).block);
  }

  /** The block of the all-ones host prefix answers one call for each address of the family, and hangs in the next. */
  lemma TopBlockHangs(top: nat)
    requires top > 0
    ensures var r := Calls(NewBlock(Range(top, top), top), top + 1);
            r.Some? && AllocateIn(r.value, None).Hangs?
  {
    var b := NewBlock(Range(top, top), top);
    assert b.Tidy();
    AllocateTidy(b, None);
    var c := AllocateIn(b, None).block;
    assert c.Full() && Wrapped(c, 0);
    WrappedHangs(c, 0);
  }

  // ---------------------------------------------------------------- the object

  class Block {
    const start: nat
    const end: nat
    const top: nat
    var next: Option<nat>
    var inUse: set<nat>

    function View(): (b: BlockState)
      reads this
    {
      BlockState(start, end, top, inUse, next)
    }

    constructor (r: Range, top: nat)
      requires Fits(r, top)
      ensures View() == NewBlock(r, top)
    {
      start, end, this.top := r.start, r.end, top;
      next, inUse := Some(r.start), {};
    }

    /** cidr.Inc wraps from the all-ones address to zero. */
    function Inc(a: nat): (r: nat) { if a == top then 0 else a + 1 }

    /** The one call left out is the one that never returns: every address of the family is in use. */
    method MoveToNextUnused() returns (ret: Option<nat>)
      requires View().Sane() && (next.Some? ==> Moved(View()).Some?)
      modifies this`next
      ensures ret == old(next)
      ensures View() == if ret.None? then old(View()) else Moved(old(View())).value
    {
      if next.None? {
        return None;
      }
      ret := next;
      ghost var from, target := ret.value, Skip(View(), ret.value);
      FirstInFinds(inUse, from + 1, end);
      FirstInFinds(inUse, 0, from);
      var nextIP: nat, used := ret.value, true;
      ghost var wrapped := false;
      while used
        invariant used && !wrapped ==>
                    from <= nextIP <= end && FirstIn(inUse, from + 1, end) == FirstIn(inUse, nextIP + 1, end)
        invariant used && wrapped ==>
                    && end == top && FirstIn(inUse, from + 1, end).None? && FirstIn(inUse, 0, from).Some?
                    && nextIP < FirstIn(inUse, 0, from).value
        invariant !used ==> target == At(nextIP)
        decreases used, !wrapped, end - nextIP
      {
        wrapped := wrapped || nextIP == top;
        nextIP := Inc(nextIP);
        if end < nextIP {
          next := None;
          return;
        }
        used := nextIP in inUse;
      }
      next := Some(nextIP);
    }

    /** Not ok for the nil dereference; the one call left out is the one that never returns. */
    method Allocate(ipReq: Option<nat>) returns (ok: bool, r: Result<nat, AllocateError>)
      requires View().Sane() && !AllocateIn(View(), ipReq).Hangs?
      modifies this
      ensures match AllocateIn(old(View()), ipReq)
              case Allocated(b, answer) => ok && View() == b && r == answer
              case _ => !ok
    {
      if ipReq.Some? {
        var a := ipReq.value;
        if !View().Contains(a) {
          return true, Failure(NotInBlock);
        }
        if a in inUse {
          return true, Failure(AlreadyUsed);
        }
        if next.None? {
          return false, Failure(NoneAvailable);
        }
        if a == next.value {
          var _ := MoveToNextUnused();
        }
        inUse := inUse + {a};
        return true, Success(a);
      }
      var ret := MoveToNextUnused();
      if ret.None? {
        return true, Failure(NoneAvailable);
      }
      inUse := inUse + {ret.value};
      return true, Success(ret.value);
    }

    /** Not ok for the nil dereference, which comes after the address has left the set. */
    method PutBack(ip: nat) returns (ok: bool, returned: bool)
      modifies this
      ensures match PutBackIn(old(View()), ip)
              case NilCursor => !ok
              case Answer(b, answer) => ok && View() == b && returned == answer
    {
      if !View().Contains(ip) {
        return true, false;
      }
      if ip in inUse {
        inUse := inUse - {ip};
        if next.None? {
          return false, false;
        }
        if next.value > ip {
          next := Some(ip);
        }
        return true, true;
      }
      return true, false;
    }
  }
}
