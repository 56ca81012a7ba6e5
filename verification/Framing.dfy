// Size-prefixed packets: written by writeToStream in
// pkg/virtualnode/connectivity/session_manager.go, read by the frame loop of
// pkg/virtualnode/pod/devpod_http_port_forward.go. The size is a base-128 varint,
// low group first, as in the Protocol Buffers encoding.
module Framing {
  import opened Prelude

  const MaxUint64 := 0x1_0000_0000_0000_0000 - 1

  /** binary.PutUvarint. */
  function Uvarint(x: nat): (bs: seq<Byte>)
    ensures bs != []
  {
    if x < 128 then [x] else [128 + x % 128] + Uvarint(x / 128)
  }

  datatype Varint = Value(x: nat, size: nat) | EndOfInput | Overflow

  /** binary.ReadUvarint, from its i-th byte on. */
  function ReadUvarint(bs: seq<Byte>, i: nat): (r: Varint)
    requires i <= 10
    ensures r.Value? ==> 0 < r.size <= |bs| && r.size <= 10 - i
    decreases 10 - i
  {
    if i == 10 then Overflow
    else if bs == [] then EndOfInput
    else if bs[0] < 128 then (if i == 9 && bs[0] > 1 then Overflow else Value(bs[0], 1))
    else match ReadUvarint(bs[1..], i + 1)
         case Value(x, n) => Value(bs[0] - 128 + 128 * x, n + 1)
         case r => r
  }

  /** What still fits in 64 bits once i groups of 7 bits are taken. */
  function Room(i: nat): (n: nat)
    requires i <= 9
    decreases 9 - i
  {
    if i == 9 then 2 else 128 * Room(i + 1)
  }

  /** Every value that fits is read back, in at most ten bytes, whatever follows it. */
  lemma {:induction false} UvarintRoundTrip(x: nat, rest: seq<Byte>, i: nat)
    requires i <= 9 && x < Room(i)
    ensures |Uvarint(x)| <= 10 - i
    ensures ReadUvarint(Uvarint(x) + rest, i) == Value(x, |Uvarint(x)|)
    decreases 9 - i
  {
    if x >= 128 {
      UvarintRoundTrip(x / 128, rest, i + 1);
      assert (Uvarint(x) + rest)[1..] == Uvarint(x / 128) + rest;
    }
  }

  lemma RoomIsUint64()
    ensures Room(0) == MaxUint64 + 1
  {
    assert Room(7) == 128 * (128 * 2);
    assert Room(5) == 128 * (128 * Room(7));
    assert Room(3) == 128 * (128 * Room(5));
    assert Room(1) == 128 * (128 * Room(3));
  }

  /** A size is read only if it fits 64 bits, and input ends only where every byte so far asks for another. */
  lemma {:induction false} ReadSizeFits(bs: seq<Byte>, i: nat)
    requires i <= 9
    ensures ReadUvarint(bs, i).Value? ==> ReadUvarint(bs, i).x < Room(i)
    ensures ReadUvarint(bs, i).EndOfInput? <==> |bs| < 10 - i && forall j :: 0 <= j < |bs| ==> bs[j] >= 128
    decreases 9 - i
  {
    if bs != [] && bs[0] >= 128 && i < 9 {
      ReadSizeFits(bs[1..], i + 1);
      forall j | 0 < j < |bs| ensures bs[j] == bs[1..][j - 1] {}
    } else {
      RoomIsLarge(i);
    }
  }

  lemma {:induction false} RoomIsLarge(i: nat)
    requires i <= 9
    ensures if i == 9 then Room(i) == 2 else Room(i) >= 256
    decreases 9 - i
  {
    if i < 9 { RoomIsLarge(i + 1); }
  }

  /** The ten-byte buffer takes every 64-bit size. */
  method PutUvarint(x: nat) returns (buf: array<Byte>, n: nat)
    requires x <= MaxUint64
    ensures fresh(buf) && buf.Length == 10 && n <= 10 && buf[..n] == Uvarint(x)
  {
    RoomIsUint64();
    UvarintRoundTrip(x, [], 0);
    buf := new Byte[10](_ => 0);
    var v, i := x, 0;
    ghost var done: seq<Byte> := [];
    while v >= 0x80
      invariant 0 <= i && i + |Uvarint(v)| <= 10
      invariant buf[..i] == done && done + Uvarint(v) == Uvarint(x)
      decreases v
    {
      var b: Byte := v % 128 + 128;
      Carry(done, v, Uvarint(x));
      buf[i] := b;
      i, v := i + 1, v / 128;
      assert buf[..i] == done + [b];
      done := done + [b];
    }
    buf[i] := v;
    n := i + 1;
    assert buf[..n] == done + [v];
  }

  lemma Carry(done: seq<Byte>, v: nat, all: seq<Byte>)
    requires v >= 128 && done + Uvarint(v) == all
    ensures (done + [128 + v % 128]) + Uvarint(v / 128) == all
    ensures |Uvarint(v)| == 1 + |Uvarint(v / 128)|
  {
  }

  // ---------------------------------------------------------------- frames

  function Frame(p: seq<Byte>): (bs: seq<Byte>) { Uvarint(|p|) + p }

  function Frames(ps: seq<seq<Byte>>): (bs: seq<Byte>)
  {
    if ps == [] then [] else Frame(ps[0]) + Frames(ps[1..])
  }

  /** The packets the frame loop takes from a byte stream before it stops. */
  function Packets(bs: seq<Byte>, max: nat): (ps: seq<seq<Byte>>)
  {
    match ReadUvarint(bs, 0)
    case Value(size, n) =>
      if size > max || n + size > |bs| then []
      else [bs[n..n + size]] + Packets(bs[n + size..], max)
    case _ => []
  }

  lemma FrameIsRead(p: seq<Byte>, rest: seq<Byte>, max: nat)
    requires |p| <= MaxUint64
    ensures Packets(Frame(p) + rest, max) == if |p| <= max then [p] + Packets(rest, max) else []
  {
    RoomIsUint64();
    var bs, n := Frame(p) + rest, |Uvarint(|p|)|;
    assert bs == Uvarint(|p|) + (p + rest);
    UvarintRoundTrip(|p|, p + rest, 0);
    assert bs[n..n + |p|] == p && bs[n + |p|..] == rest;
  }

  lemma {:induction false} SizeAsksForMore(x: nat, k: nat)
    requires k < |Uvarint(x)|
    ensures forall j :: 0 <= j < k ==> Uvarint(x)[j] >= 128
  {
    if x >= 128 && k > 0 { SizeAsksForMore(x / 128, k - 1); }
  }

  /** A frame that is cut short yields no packet. */
  lemma CutFrameIsDropped(p: seq<Byte>, k: nat, max: nat)
    requires |p| <= MaxUint64 && k < |Frame(p)|
    ensures Packets(Frame(p)[..k], max) == []
  {
    RoomIsUint64();
    var head, bs := Uvarint(|p|), Frame(p)[..k];
    UvarintRoundTrip(|p|, [], 0);
    if k < |head| {
      SizeAsksForMore(|p|, k);
      ReadSizeFits(bs, 0);
    } else {
      assert bs == head + p[..k - |head|];
      UvarintRoundTrip(|p|, p[..k - |head|], 0);
    }
  }

  ghost predicate AllWithin(ps: seq<seq<Byte>>, max: nat)
  {
    forall i :: 0 <= i < |ps| ==> |ps[i]| <= max
  }

  /** Packets within the limit are read back as they were written, whatever follows them. */
  lemma {:induction false} FramesRoundTrip(ps: seq<seq<Byte>>, rest: seq<Byte>, max: nat)
    requires max <= MaxUint64 && AllWithin(ps, max)
    ensures Packets(Frames(ps) + rest, max) == ps + Packets(rest, max)
  {
    if ps == [] {
      assert Frames(ps) + rest == rest;
      assert ps + Packets(rest, max) == Packets(rest, max);
    } else {
      FramesRoundTrip(ps[1..], rest, max);
      FrameIsRead(ps[0], Frames(ps[1..]) + rest, max);
      Regroup(Frame(ps[0]), Frames(ps[1..]), rest);
      Regroup([ps[0]], ps[1..], Packets(rest, max));
      assert ps == [ps[0]] + ps[1..];
    }
  }

  lemma Regroup<T>(a: seq<T>, b: seq<T>, c: seq<T>)
    ensures (a + b) + c == a + (b + c)
  {
  }

  /** A list of packets comes back whole exactly when each is within the reader's limit. */
  lemma {:induction false} FramesWholeIff(ps: seq<seq<Byte>>, max: nat)
    requires AllWithin(ps, MaxUint64)
    ensures Packets(Frames(ps), max) <= ps
    ensures Packets(Frames(ps), max) == ps <==> AllWithin(ps, max)
  {
    if ps != [] {
      var p, rest := ps[0], ps[1..];
      FramesWholeIff(rest, max);
      FrameIsRead(p, Frames(rest), max);
      assert ps == [p] + rest;
      ConsPrefix(p, Packets(Frames(rest), max), rest);
      assert AllWithin(ps, max) <==> |p| <= max && AllWithin(rest, max);
    }
  }

  lemma ConsPrefix<T>(x: T, a: seq<T>, b: seq<T>)
    requires a <= b
    ensures [x] + a <= [x] + b && ([x] + a == [x] + b <==> a == b)
  {
    assert ([x] + a)[1..] == a && ([x] + b)[1..] == b;
  }

  /** No byte stream is the frames of two different lists. */
  lemma FramesUnambiguous(ps: seq<seq<Byte>>, qs: seq<seq<Byte>>)
    requires AllWithin(ps, MaxUint64) && AllWithin(qs, MaxUint64)
    requires Frames(ps) == Frames(qs)
    ensures ps == qs
  {
    FramesWholeIff(ps, MaxUint64);
    FramesWholeIff(qs, MaxUint64);
  }

  // ---------------------------------------------------------------- writer and reader

  /** One Write: how many of the bytes given the sink takes at most, and whether it also returns an error. */
  datatype Write = Write(taken: nat, err: bool)

  function Least(a: nat, b: nat): (n: nat) { if a < b then a else b }

  /** What the first n writes would take together. */
  function Total(writes: nat -> Write, n: nat): (sum: nat)
  {
    if n == 0 then 0 else Total(writes, n - 1) + writes(n - 1).taken
  }

  /** The data loop of writeToStream. A write that takes nothing reports an error, as io.Writer demands. */
  method WriteData(data: seq<Byte>, writes: nat -> Write) returns (sink: seq<Byte>, ok: bool, made: nat)
    requires forall k: nat :: !writes(k).err ==> writes(k).taken > 0
    ensures sink == data[..Least(Total(writes, made), |data|)]
    ensures ok <==> forall k :: 0 <= k < made ==> !writes(k).err
    ensures ok ==> sink == data
    ensures forall k :: 0 <= k < made - 1 ==> !writes(k).err
  {
    var sum := 0;
    sink, made := [], 0;
    while sum != |data|
      invariant 0 <= sum <= |data| && sink == data[..sum] && sum == Least(Total(writes, made), |data|)
      invariant forall k :: 0 <= k < made ==> !writes(k).err
      decreases |data| - sum
    {
      var n := Least(writes(made).taken, |data| - sum);
      assert data[..sum + n] == data[..sum] + data[sum..sum + n];
      sink := sink + data[sum..sum + n];
      made := made + 1;
      if writes(made - 1).err {
        return sink, false, made;
      }
      sum := sum + n;
    }
    return sink, true, made;
  }

  /**
   * writeToStream past its ready check, with the outcome of the size write and of the k-th
   * data write. The size is written only once. It succeeds exactly when no write it makes
   * fails, stops at the first that does, and leaves exactly what the writes took.
   */
  method WriteToStream(data: seq<Byte>, prependSize: bool, sizeWrite: Write, writes: nat -> Write)
    returns (sink: seq<Byte>, ok: bool, made: nat)
    requires |data| <= MaxUint64
    requires !sizeWrite.err ==> sizeWrite.taken >= 10
    requires forall k: nat :: !writes(k).err ==> writes(k).taken > 0
    ensures ok <==> !(prependSize && sizeWrite.err) && forall k :: 0 <= k < made ==> !writes(k).err
    ensures ok ==> sink == if prependSize then Frame(data) else data
    ensures forall k :: 0 <= k < made - 1 ==> !writes(k).err
    ensures if prependSize && sizeWrite.err
            then made == 0 && sink == Uvarint(|data|)[..Least(sizeWrite.taken, |Uvarint(|data|)|)]
            else sink == (if prependSize then Uvarint(|data|) else []) + data[..Least(Total(writes, made), |data|)]
  {
    var head: seq<Byte> := [];
    if prependSize {
      var buf, n := PutUvarint(|data|);
      head := buf[..n];
      if sizeWrite.err {
        return head[..Least(sizeWrite.taken, n)], false, 0;
      }
    }
    var body;
    body, ok, made := WriteData(data, writes);
    sink := head + body;
  }

  /**
   * The frame loop. `sends(k)` says whether posting the k-th packet succeeds; a failed
   * post ends the loop only when sending is ensured.
   */
  method ReadFrames(bs: seq<Byte>, max: nat, ensureSend: bool, sends: nat -> bool) returns (posted: seq<seq<Byte>>)
    ensures posted <= Packets(bs, max)
    ensures posted != Packets(bs, max) ==> ensureSend && posted != [] && !sends(|posted| - 1)
    ensures ensureSend ==> forall k :: 0 <= k < |posted| - 1 ==> sends(k)
  {
    posted := [];
    var rest := bs;
    while true
      invariant Packets(bs, max) == posted + Packets(rest, max)
      invariant ensureSend ==> forall k :: 0 <= k < |posted| ==> sends(k)
      decreases |rest|
    {
      var head := DecodeUvarint(rest);
      if !head.Value? || head.x > max || head.size + head.x > |rest| {
        return;
      }
      var packet := rest[head.size..head.size + head.x];
      assert Packets(rest, max) == [packet] + Packets(rest[head.size + head.x..], max);
      rest := rest[head.size + head.x..];
      Regroup(posted, [packet], Packets(rest, max));
      posted := posted + [packet];
      if !sends(|posted| - 1) && ensureSend {
        return;
      }
    }
  }

  /** What the bytes read so far, x with the next group worth m, make of a varint read behind them. */
  function Combine(x: nat, m: nat, i: nat, v: Varint): (r: Varint)
  {
    match v
    case Value(y, n) => ShiftedFits(m, y); Value(x + m * y, i + n)
    case e => e
  }

  lemma ShiftedFits(m: nat, y: nat)
    ensures m * y >= 0
  {
  }

  lemma CombineGroup(x: nat, m: nat, i: nat, b: nat, v: Varint)
    requires v.Value?
    ensures m * b >= 0
    ensures Combine(x, m, i, Value(b + 128 * v.x, v.size + 1)) == Combine(x + m * b, 128 * m, i + 1, v)
  {
    assert m * (b + 128 * v.x) == m * b + (128 * m) * v.x;
  }

  method DecodeUvarint(bs: seq<Byte>) returns (r: Varint)
    ensures r == ReadUvarint(bs, 0)
  {
    var x: nat, m: nat, i: nat := 0, 1, 0;
    assert bs[0..] == bs;
    while i < 10
      invariant i <= 10 && i <= |bs|
      invariant ReadUvarint(bs, 0) == Combine(x, m, i, ReadUvarint(bs[i..], i))
    {
      if i == |bs| {
        return EndOfInput;
      }
      var b := bs[i];
      assert bs[i..][0] == b && bs[i..][1..] == bs[i + 1..];
      ShiftedFits(m, b);
      if b < 0x80 {
        if i == 9 && b > 1 {
          return Overflow;
        }
        return Value(x + m * b, i + 1);
      }
      var low: nat := b - 128;
      ShiftedFits(m, low);
      ghost var behind := ReadUvarint(bs[i + 1..], i + 1);
      if behind.Value? {
        CombineGroup(x, m, i, low, behind);
      }
      x, m, i := x + m * low, 128 * m, i + 1;
    }
    return Overflow;
  }
}
