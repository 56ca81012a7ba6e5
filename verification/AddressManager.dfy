// IPAddressManager of pkg/util/ipam/ipam.go, changing its blocks in place. Each
// method is proved against the step of the same name in module Pool.
module AddressManager {
  import opened Prelude
  import opened Addresses
  import opened Blocks
  import opened Pool

  datatype PoolError = NoneLeft | SpecificFailed

  /** A call returns, or indexes past the end of the block list or reads a nil cursor. */
  datatype Reply = Panic | Reply(result: Result<nat, PoolError>)

  class IPAddressManager {
    const top: nat // the all-ones address of the family
    var blocks: seq<Block>
    var blockIndex: nat

    ghost function View(): (p: PoolState)
      reads this, blocks
    {
      PoolState(top, seq(|blocks|, i requires 0 <= i < |blocks| reads this, blocks => blocks[i].View()), blockIndex)
    }

    ghost predicate Valid()
      reads this, blocks
    {
      && 0 < top
      && (forall i, j :: 0 <= i < j < |blocks| ==> blocks[i] != blocks[j])
      && View().Sane()
    }

    constructor (top: nat)
      requires 0 < top
      ensures Valid() && View() == Empty(top)
    {
      this.top, blocks, blockIndex := top, [], 0;
    }

    method HasOverlap(r: Range) returns (found: bool)
      requires Valid()
      ensures found <==> exists b :: b in View().blocks && Overlapped(b, r)
    {
      for i := 0 to |blocks|
        invariant forall j :: 0 <= j < i ==> !Overlapped(View().blocks[j], r)
      {
        if Overlapped(blocks[i].View(), r) {
          assert View().blocks[i] in View().blocks;
          return true;
        }
      }
      return false;
    }

    /** Where sort.Slice moves an appended block of a list that was in order. */
    method SortedPosition(start: nat) returns (k: nat)
      requires Valid()
      ensures k == Position(View().blocks, start)
    {
      PositionSplits(View().blocks, start);
      k := |blocks|;
      while k > 0 && start < blocks[k - 1].start
        invariant Position(View().blocks, start) <= k <= |blocks|
      {
        k := k - 1;
        assert View().blocks[k].start == blocks[k].start;
      }
      assert k > 0 ==> View().blocks[k - 1].start <= start;
    }

    method AddAddressBlock(c: Cidr, start: IPText, end: IPText) returns (ok: bool)
      requires Valid() && c.Valid()
      requires c.Cidr? ==> Pow2(c.bits) == top + 1
      modifies this
      ensures Valid()
      ensures match NewRange(c, start, end)
              case Failure(_) => !ok && View() == old(View())
              case Success(r) =>
                && AddBlock(old(View()), r) == Steps(View(), [])
                && (ok <==> forall b :: b in old(View()).blocks ==> !Overlapped(b, r))
                && (ok ==> forall a: nat :: View().Available(a) <==> old(View()).Available(a) || Usable(c, start, end, a))
    {
      var parsed := NewRange(c, start, end);
      if parsed.Failure? {
        return false;
      }
      RangeBelowTop(c, start, end);
      ghost var before := View();
      ok := AddRange(parsed.value);
      if ok {
        NowUsable(before, c, start, end);
      }
    }

    static lemma NowUsable(p: PoolState, c: Cidr, start: IPText, end: IPText)
      requires p.Sane() && c.Valid() && NewRange(c, start, end).Success? && Fits(NewRange(c, start, end).value, p.top)
      requires forall b :: b in p.blocks ==> !Overlapped(b, NewRange(c, start, end).value)
      ensures forall a: nat ::
                AddBlock(p, NewRange(c, start, end).value).pool.Available(a) <==> p.Available(a) || Usable(c, start, end, a)
    {
      var r := NewRange(c, start, end).value;
      AddMakesAvailable(p, r);
      forall i, a: nat | 0 <= i < |p.blocks| && p.blocks[i].Contains(a) ensures !(r.start <= a <= r.end) {
        assert p.blocks[i] in p.blocks;
      }
      NewRangeIsUsable(c, start, end);
    }

    method AddRange(r: Range) returns (ok: bool)
      requires Valid() && Fits(r, top)
      modifies this
      ensures Valid() && AddBlock(old(View()), r) == Steps(View(), [])
      ensures ok <==> forall b :: b in old(View()).blocks ==> !Overlapped(b, r)
    {
      var overlapped := HasOverlap(r);
      if overlapped {
        return false;
      }
      AddBlockKeeps(View(), r);
      var b := new Block(r, top);
      var k := SortedPosition(r.start);
      InsertBlock(k, b);
      return true;
    }

    method InsertBlock(k: nat, b: Block)
      requires Valid() && k <= |blocks| && b !in blocks
      requires View().(blocks := View().blocks[..k] + [b.View()] + View().blocks[k..]).Sane()
      modifies this`blocks
      ensures Valid()
      ensures View() == old(View().(blocks := View().blocks[..k] + [b.View()] + View().blocks[k..]))
    {
      ghost var before := blocks;
      blocks := blocks[..k] + [b] + blocks[k..];
      forall i | 0 <= i < |blocks|
        ensures forall j :: i < j < |blocks| ==> blocks[i] != blocks[j]
      {
        assert blocks[i] == if i < k then before[i] else if i == k then b else before[i - 1];
        forall j | i < j < |blocks| ensures blocks[i] != blocks[j] {
          assert blocks[j] == if j < k then before[j] else if j == k then b else before[j - 1];
        }
      }
      assert View().blocks == old(View().blocks)[..k] + [b.View()] + old(View().blocks)[k..];
    }

    method AllocateAt(i: nat, ipReq: Option<nat>) returns (ok: bool, ret: Result<nat, AllocateError>)
      requires Valid() && i < |blocks| && !AllocateIn(View().blocks[i], ipReq).Hangs?
      modifies blocks[i]
      ensures match AllocateIn(old(View()).blocks[i], ipReq)
              case Allocated(b, answer) =>
                ok && ret == answer && Valid() && View() == old(View()).(blocks := old(View()).blocks[i := b])
              case _ => !ok
    {
      assert View().blocks[i] == blocks[i].View();
      CallsKeepSane(blocks[i].View(), ipReq, 0);
      ok, ret := blocks[i].Allocate(ipReq);
      assert View().blocks == old(View()).blocks[i := blocks[i].View()];
    }

    method AllocateFirst(i: nat) returns (ret: Result<nat, AllocateError>)
      requires Valid() && i < |blocks| && AllocateIn(View().blocks[i], None).Allocated?
      modifies blocks[i]
      ensures Valid() && View() == old(View().(blocks := View().blocks[i := AllocateIn(View().blocks[i], None).block]))
      ensures ret == old(AllocateIn(View().blocks[i], None).result)
      ensures ret.Failure? ==> View() == old(View())
    {
      var _, first := AllocateAt(i, None);
      return first;
    }

    /** The one call left out is the one that never returns. */
    method Allocate(ipReq: Option<nat>) returns (r: Reply)
      requires Valid()
      requires !Step(View(), if ipReq.Some? then AllocateOne(ipReq.value) else AllocateAny).Diverges?
      modifies this, blocks
      ensures var o := Step(old(View()), if ipReq.Some? then AllocateOne(ipReq.value) else AllocateAny);
              match o
              case Panics => r == Panic
              case Steps(p, events) =>
                && View() == p && Valid() && r.Reply?
                && events == (if r.result.Success? then [Handed(r.result.value)] else [])
                && (r.result.Failure? ==> r.result.error == if ipReq.Some? then SpecificFailed else NoneLeft)
              case Diverges => false
    {
      if ipReq.None? {
        if |blocks| == 0 {
          return Panic;
        }
        r := AllocateInOrder();
        return;
      }
      var idx := FindBlock(ipReq.value);
      if idx == |blocks| {
        return Panic;
      }
      var ok, ret := AllocateAt(idx, ipReq);
      if !ok {
        return Panic;
      }
      return Reply(if ret.Success? then Success(ret.value) else Failure(SpecificFailed));
    }

    method AllocateInOrder() returns (r: Reply)
      requires Valid() && |blocks| > 0 && !AllocateFrom(View(), blockIndex).Diverges?
      modifies this, blocks
      ensures Valid() && r.Reply? && (r.result.Failure? ==> r.result.error == NoneLeft)
      ensures AllocateFrom(old(View()), old(blockIndex)) ==
              Steps(View(), if r.result.Success? then [Handed(r.result.value)] else [])
    {
      ghost var before := View();
      var ret := AllocateFirst(blockIndex);
      if ret.Failure? {
        while |blocks| > blockIndex + 1
          invariant blocks == old(blocks) && Valid() && View() == before.(index := blockIndex)
          invariant AllocateIn(before.blocks[blockIndex], None).Allocated?
          invariant AllocateIn(before.blocks[blockIndex], None).result.Failure?
          invariant AllocateFrom(before, old(blockIndex)) == AllocateFrom(before, blockIndex)
        {
          blockIndex := blockIndex + 1;
          assert View().blocks == before.blocks;
          ret := AllocateFirst(blockIndex);
          if ret.Success? {
            return Reply(Success(ret.value));
          }
        }
        return Reply(Failure(NoneLeft));
      }
      return Reply(Success(ret.value));
    }

    /** sort.Search over the blocks. */
    method FindBlock(a: nat) returns (k: nat)
      requires Valid()
      ensures k == Search(View().blocks, a, 0, |blocks|)
    {
      var i, j := 0, |blocks|;
      while i < j
        invariant 0 <= i <= j <= |blocks|
        invariant Search(View().blocks, a, 0, |blocks|) == Search(View().blocks, a, i, j)
      {
        var h := (i + j) / 2;
        if !blocks[h].View().Contains(a) {
          i := h + 1;
        } else {
          j := h;
        }
      }
      return i;
    }

    method PutBackAt(i: nat, ip: nat) returns (ok: bool, returned: bool)
      requires Valid() && i < |blocks|
      modifies blocks[i]
      ensures match PutBackIn(old(View()).blocks[i], ip)
              case NilCursor => !ok
              case Answer(b, answer) =>
                ok && returned == answer && Valid() && View() == old(View()).(blocks := old(View()).blocks[i := b])
    {
      assert View().blocks[i] == blocks[i].View();
      CallsKeepSane(blocks[i].View(), None, ip);
      ok, returned := blocks[i].PutBack(ip);
      assert View().blocks == old(View()).blocks[i := blocks[i].View()];
    }

    /** False when a block dereferenced its nil cursor. */
    method TakeBack(ip: nat) returns (ok: bool)
      requires Valid()
      modifies this, blocks
      ensures match Step(old(View()), PutBack(ip))
              case Steps(p, _) => ok && View() == p && Valid()
              case _ => !ok
    {
      ghost var before := View();
      for i := 0 to |blocks|
        invariant blocks == old(blocks) && Valid() && View() == before
        invariant Step(before, PutBack(ip)) == PutBackFrom(before, ip, i)
      {
        var returned;
        ok, returned := PutBackAt(i, ip);
        if !ok {
          return;
        }
        if returned {
          if i < blockIndex {
            blockIndex := i;
            assert View().blocks == before.blocks[i := blocks[i].View()];
          }
          return true;
        }
      }
      return true;
    }
  }
}
