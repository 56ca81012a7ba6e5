// Command chunks of pkg/virtualnode/connectivity/manager.go, and the upstream pump of
// pkg/virtualnode/pod that numbers what it reads from a client and posts it.
module Chunking {
  import opened Prelude

  datatype Cmd = Cmd(kind: int, sid: nat, seqNo: nat, complete: bool, payload: seq<Byte>)

  /** The commands doPostData makes of one payload. */
  function Chunks(kind: int, sid: nat, seqNo: nat, complete: bool, payload: seq<Byte>, limit: nat): (cs: seq<Cmd>)
    requires limit > 0
    ensures cs != []
    decreases |payload|
  {
    if |payload| > limit then
      [Cmd(kind, sid, seqNo, false, payload[..limit])] +
      Chunks(kind, sid, seqNo + 1, complete, payload[limit..], limit)
    else [Cmd(kind, sid, seqNo, complete, payload)]
  }

  function Joined(cs: seq<Cmd>): (bytes: seq<Byte>)
  {
    if cs == [] then [] else cs[0].payload + Joined(cs[1..])
  }

  /** Numbers run on from `from`, and no command but the last may be complete. */
  ghost predicate Numbered(cs: seq<Cmd>, from: nat)
  {
    forall i :: 0 <= i < |cs| ==> cs[i].seqNo == from + i && (i < |cs| - 1 ==> !cs[i].complete)
  }

  lemma OneMore(n: nat, limit: nat)
    ensures (n + 1) * limit == n * limit + limit
  {
  }

  /** As many chunks as the length needs, and at least one: max(1, ceil(length / limit)). */
  lemma {:induction false} ChunkCount(kind: int, sid: nat, seqNo: nat, complete: bool, payload: seq<Byte>, limit: nat)
    requires limit > 0
    ensures var n := |Chunks(kind, sid, seqNo, complete, payload, limit)|;
            && |payload| <= n * limit
            && (if payload == [] then n == 1 else (n - 1) * limit < |payload|)
    decreases |payload|
  {
    var n := |Chunks(kind, sid, seqNo, complete, payload, limit)|;
    if |payload| > limit {
      ChunkCount(kind, sid, seqNo + 1, complete, payload[limit..], limit);
      OneMore(n - 1, limit);
      OneMore(n - 2, limit);
    } else {
      assert n == 1 && n * limit == limit && (n - 1) * limit == 0;
    }
  }

  /**
   * The chunks of a payload put together give it back; each fits the limit, all but
   * the last fill it, and their numbers run on without a gap.
   */
  lemma {:induction false} ChunksCoverPayload(kind: int, sid: nat, seqNo: nat, complete: bool, payload: seq<Byte>, limit: nat)
    requires limit > 0
    ensures var cs := Chunks(kind, sid, seqNo, complete, payload, limit);
            && Joined(cs) == payload && Numbered(cs, seqNo) && cs[|cs| - 1].complete == complete
            && (forall i :: 0 <= i < |cs| ==> cs[i].kind == kind && cs[i].sid == sid && |cs[i].payload| <= limit)
            && (forall i :: 0 <= i < |cs| - 1 ==> |cs[i].payload| == limit)
    decreases |payload|
  {
    var cs := Chunks(kind, sid, seqNo, complete, payload, limit);
    if |payload| > limit {
      var rest := Chunks(kind, sid, seqNo + 1, complete, payload[limit..], limit);
      ChunksCoverPayload(kind, sid, seqNo + 1, complete, payload[limit..], limit);
      assert cs[1..] == rest;
      assert payload == payload[..limit] + payload[limit..];
      forall i | 0 < i < |cs| ensures cs[i] == rest[i - 1] {}
    } else {
      assert cs[1..] == [];
    }
  }

  /**
   * doPostData. `sends(i)` says whether the i-th send of this call succeeds; the call
   * stops at the first that does not, and returns the number of the last chunk tried.
   */
  method DoPostData(kind: int, sid: nat, seqNo: nat, complete: bool, payload: seq<Byte>, limit: nat, sends: nat -> bool)
    returns (tried: seq<Cmd>, lastSeq: nat, ok: bool)
    requires limit > 0
    ensures var cs := Chunks(kind, sid, seqNo, complete, payload, limit);
            && 0 < |tried| <= |cs| && tried == cs[..|tried|]
            && lastSeq == seqNo + |tried| - 1
            && (forall i :: 0 <= i < |tried| - 1 ==> sends(i))
            && (ok <==> sends(|tried| - 1))
            && (ok ==> tried == cs)
  {
    ghost var cs := Chunks(kind, sid, seqNo, complete, payload, limit);
    var rest := payload;
    tried, lastSeq := [], seqNo;
    while |rest| > limit
      invariant lastSeq == seqNo + |tried|
      invariant cs == tried + Chunks(kind, sid, lastSeq, complete, rest, limit)
      invariant forall i :: 0 <= i < |tried| ==> sends(i)
      decreases |rest|
    {
      var cmd := Cmd(kind, sid, lastSeq, false, rest[..limit]);
      ghost var before := tried;
      tried := tried + [cmd];
      assert cs == tried + Chunks(kind, sid, lastSeq + 1, complete, rest[limit..], limit);
      if !sends(|tried| - 1) {
        return tried, lastSeq, false;
      }
      lastSeq := lastSeq + 1;
      rest := rest[limit..];
    }
    tried := tried + [Cmd(kind, sid, lastSeq, complete, rest)];
    return tried, lastSeq, sends(|tried| - 1);
  }

  /**
   * Posts that are numbered one after the other share no number exactly when the
   * first payload fits one chunk.
   */
  lemma NumbersOverlapIff(kind: int, sid: nat, seqNo: nat, p: seq<Byte>, q: seq<Byte>, limit: nat)
    requires limit > 0
    ensures var first, second := Chunks(kind, sid, seqNo, false, p, limit), Chunks(kind, sid, seqNo + 1, false, q, limit);
            (exists c, d :: c in first && d in second && c.seqNo == d.seqNo) <==> |p| > limit
  {
    var first, second := Chunks(kind, sid, seqNo, false, p, limit), Chunks(kind, sid, seqNo + 1, false, q, limit);
    ChunksCoverPayload(kind, sid, seqNo, false, p, limit);
    ChunksCoverPayload(kind, sid, seqNo + 1, false, q, limit);
    if |p| > limit {
      assert first[1] in first && second[0] in second && first[1].seqNo == second[0].seqNo;
    }
  }

  // ---------------------------------------------------------------- the upstream pump

  const MaxBufSize := 1024 * 1024
  const DataUpstream := 1

  /** One Read: the bytes it returned and whether it also returned an error. */
  datatype Read = Read(bytes: seq<Byte>, err: bool)

  /** The data of the reads up to the first that fails without any. */
  function Blocks(script: seq<Read>): (bs: seq<seq<Byte>>)
  {
    if script == [] || (script[0].err && script[0].bytes == []) then []
    else [script[0].bytes] + Blocks(script[1..])
  }

  /** They are the data of all reads before the first that fails without any, an error with data included. */
  lemma {:induction false} BlocksEndAtFailure(script: seq<Read>)
    ensures |Blocks(script)| <= |script|
    ensures forall i :: 0 <= i < |Blocks(script)| ==>
              Blocks(script)[i] == script[i].bytes && !(script[i].err && script[i].bytes == [])
    ensures |Blocks(script)| < |script| ==> script[|Blocks(script)|] == Read([], true)
  {
    if script != [] && !(script[0].err && script[0].bytes == []) {
      BlocksEndAtFailure(script[1..]);
    }
  }

  /** What the device is sent for n blocks that all arrive: one command each, then the end mark. */
  function DataCmds(sid: nat, bs: seq<seq<Byte>>): (cs: seq<Cmd>)
  {
    seq(|bs|, i requires 0 <= i < |bs| => Cmd(DataUpstream, sid, i, false, bs[i]))
  }

  /**
   * The read loop and its deferred end mark. `sends(k)` says whether the k-th post of
   * the loop succeeds. `wire` is what was sent, `posted` counts the data posts, and
   * `failed` says that the last of them failed, which ends the loop. The device gets the
   * whole upstream unchanged, numbered from zero without a gap and with an end mark,
   * exactly when every post succeeds.
   */
  method Pump(sid: nat, script: seq<Read>, maxPayload: nat, sends: nat -> bool)
    returns (wire: seq<Cmd>, posted: nat, failed: bool)
    requires maxPayload > 0
    requires forall r :: r in script ==> |r.bytes| <= maxPayload && |r.bytes| <= MaxBufSize
    ensures posted <= |Blocks(script)| && (failed ==> posted > 0) && (!failed ==> posted == |Blocks(script)|)
    ensures wire == DataCmds(sid, Blocks(script)[..if failed then posted - 1 else posted]) +
                    if sends(posted) then [Cmd(DataUpstream, sid, posted, true, [])] else []
    ensures failed <==> exists k :: 0 <= k < |Blocks(script)| && !sends(k)
    ensures (forall k :: 0 <= k <= |Blocks(script)| ==> sends(k)) <==>
            && wire != [] && wire[|wire| - 1].complete && Numbered(wire, 0)
            && Joined(wire) == Flat(Blocks(script))
    ensures forall i :: 0 <= i < |wire| ==> wire[i].kind == DataUpstream && wire[i].sid == sid
  {
    ghost var bs := Blocks(script);
    var seqNo := 0;
    wire, failed := [], false;
    while seqNo < |script|
      invariant seqNo <= |script| && seqNo <= |bs| && !failed
      invariant bs[seqNo..] == Blocks(script[seqNo..])
      invariant wire == DataCmds(sid, bs[..seqNo])
      invariant forall k :: 0 <= k < seqNo ==> sends(k)
    {
      var r, k := script[seqNo], seqNo;
      assert script[k..][0] == r && script[k..][1..] == script[k + 1..];
      if r.err && r.bytes == [] {
        break;
      }
      assert bs[k] == bs[k..][0] == r.bytes && bs[k + 1..] == bs[k..][1..];
      seqNo := seqNo + 1;
      var tried, _, ok := DoPostData(DataUpstream, sid, k, false, r.bytes, maxPayload, _ => sends(k));
      if !ok {
        failed := true;
        break;
      }
      assert bs[..k + 1] == bs[..k] + [r.bytes];
      wire := wire + tried;
    }
    posted := seqNo;
    var tried, _, ok := DoPostData(DataUpstream, sid, posted, true, [], maxPayload, _ => sends(posted));
    if ok {
      wire := wire + tried;
    }
    WholeIff(sid, bs, posted, failed, sends(posted));
  }

  lemma {:induction false} JoinedIsFlat(sid: nat, bs: seq<seq<Byte>>, end: seq<Cmd>)
    ensures Joined(DataCmds(sid, bs) + end) == Flat(bs) + Joined(end)
  {
    JoinedFrom(sid, bs, end, 0);
    assert (DataCmds(sid, bs) + end)[0..] == DataCmds(sid, bs) + end && bs[0..] == bs;
  }

  lemma {:induction false} JoinedFrom(sid: nat, bs: seq<seq<Byte>>, end: seq<Cmd>, i: nat)
    requires i <= |bs|
    ensures Joined((DataCmds(sid, bs) + end)[i..]) == Flat(bs[i..]) + Joined(end)
    decreases |bs| - i
  {
    var all := DataCmds(sid, bs) + end;
    if i < |bs| {
      JoinedFrom(sid, bs, end, i + 1);
      assert all[i..][1..] == all[i + 1..] && bs[i..][1..] == bs[i + 1..];
      assert all[i..][0].payload == bs[i..][0];
    } else {
      assert all[i..] == end;
    }
  }

  function Flat(bs: seq<seq<Byte>>): (bytes: seq<Byte>)
  {
    if bs == [] then [] else bs[0] + Flat(bs[1..])
  }

  lemma WholeIff(sid: nat, bs: seq<seq<Byte>>, posted: nat, failed: bool, ended: bool)
    requires posted <= |bs| && (failed ==> posted > 0) && (!failed ==> posted == |bs|)
    ensures var wire := DataCmds(sid, bs[..if failed then posted - 1 else posted]) +
                        if ended then [Cmd(DataUpstream, sid, posted, true, [])] else [];
            && (!failed && ended <==> wire != [] && wire[|wire| - 1].complete && Numbered(wire, 0))
            && (!failed ==> Joined(wire) == Flat(bs))
            && forall i :: 0 <= i < |wire| ==> wire[i].kind == DataUpstream && wire[i].sid == sid
  {
    var sent := bs[..if failed then posted - 1 else posted];
    var end := if ended then [Cmd(DataUpstream, sid, posted, true, [])] else [];
    var wire := DataCmds(sid, sent) + end;
    JoinedIsFlat(sid, sent, end);
    if !failed { assert sent == bs; }
    assert Joined(end) == [] by { if ended { assert end[1..] == []; } }
    if failed && ended { assert wire[|wire| - 1].seqNo == |wire|; }
  }
}
