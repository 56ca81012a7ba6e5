// Address arithmetic of pkg/util/ipam/block.go: byte strings and integers, masks,
// the last address of a prefix, and the range an address block is built from.
module Addresses {
  import opened Prelude

  // ---------------------------------------------------------------- integers and bytes

  /** big.Int.SetBytes: the value of a big-endian byte string. */
  function FromBytes(bs: seq<Byte>): (n: nat)
  {
    if bs == [] then 0 else 256 * FromBytes(bs[..|bs| - 1]) + bs[|bs| - 1]
  }

  /** big.Int.Bytes: the shortest big-endian byte string of a value. */
  function BigBytes(n: nat): (bs: seq<Byte>)
  {
    if n == 0 then [] else BigBytes(n / 256) + [n % 256]
  }

  /** The low `size` bytes of a value, padded with zeros in front. */
  function Padded(n: nat, size: nat): (bs: seq<Byte>)
    ensures |bs| == size
  {
    if size == 0 then [] else Padded(n / 256, size - 1) + [n % 256]
  }

  lemma {:induction false} PaddedAt(n: nat, size: nat, j: nat)
    requires j < size
    ensures var d := size - |BigBytes(n)|;
            Padded(n, size)[j] == if j >= d then BigBytes(n)[j - d] else 0
  {
    if j < size - 1 {
      PaddedAt(n / 256, size - 1, j);
      assert n == 0 ==> BigBytes(n / 256) == [];
    }
  }

  /** intToIP: pack the bytes of an integer into the end of a zeroed buffer. */
  method IntToIP(n: nat, size: nat) returns (ip: array<Byte>)
    ensures fresh(ip) && ip[..] == Padded(n, size)
  {
    var bytes := BigBytes(n);
    ip := new Byte[size](_ => 0);
    var i := 1;
    ghost var d := size - |bytes|;
    while i <= |bytes| && i <= size
      invariant 1 <= i <= size + 1 && i <= |bytes| + 1
      invariant forall j :: 0 <= j < size ==>
                  ip[j] == if size - i < j && j >= d then bytes[j - d] else 0
    {
      ip[size - i] := bytes[|bytes| - i];
      i := i + 1;
    }
    forall j | 0 <= j < size
      ensures ip[j] == Padded(n, size)[j]
    {
      PaddedAt(n, size, j);
    }
  }

  /** The low k bits of a value, that is, the value modulo 2^k. */
  function LowBits(x: nat, k: nat): (r: nat)
    ensures r <= x && r < Pow2(k)
  {
    if k == 0 then 0 else 2 * LowBits(x / 2, k - 1) + x % 2
  }

  lemma LowPair(x: nat, k: nat)
    ensures LowBits(x, k + 2) == 4 * LowBits(x / 4, k) + x % 4
  {
    var q, r := x / 4, x % 4;
    assert x / 2 == 2 * q + r / 2 && x / 2 / 2 == q;
    assert LowBits(x / 2, k + 1) == 2 * LowBits(q, k) + r / 2;
  }

  lemma LowNibble(x: nat, k: nat)
    ensures LowBits(x, k + 4) == 16 * LowBits(x / 16, k) + x % 16
  {
    LowPair(x, k + 2);
    LowPair(x / 4, k);
    var q, r := x / 16, x % 16;
    assert x == 16 * q + r && x / 4 == 4 * q + r / 4;
    assert x / 4 / 4 == q && x / 4 % 4 == r / 4 && x % 4 == r % 4;
  }

  lemma LowByte(x: nat, k: nat)
    ensures LowBits(x, k + 8) == 256 * LowBits(x / 256, k) + x % 256
  {
    LowNibble(x, k + 4);
    LowNibble(x / 16, k);
    var q, r := x / 256, x % 256;
    assert x == 256 * q + r && x / 16 == 16 * q + r / 16;
    assert x / 16 / 16 == q && x / 16 % 16 == r / 16 && x % 16 == r % 16;
  }

  /** Decoding what intToIP packed gives the value back, cut to the buffer's width. */
  lemma {:induction false} DecodePadded(n: nat, size: nat)
    ensures FromBytes(Padded(n, size)) == LowBits(n, 8 * size)
  {
    if size > 0 {
      var bs := Padded(n, size);
      assert bs[..size - 1] == Padded(n / 256, size - 1);
      DecodePadded(n / 256, size - 1);
      LowByte(n, 8 * (size - 1));
    }
  }

  /** Packing what SetBytes decoded gives the same byte string back. */
  lemma {:induction false} PackDecoded(bs: seq<Byte>)
    ensures Padded(FromBytes(bs), |bs|) == bs
  {
    if bs != [] {
      var front, b := bs[..|bs| - 1], bs[|bs| - 1];
      PackDecoded(front);
      assert bs == front + [b];
    }
  }

  // ---------------------------------------------------------------- prefixes

  /** The address with its h host bits cleared: the network address. */
  function Network(a: nat, h: nat): (r: nat)
  {
    if h == 0 then a else 2 * Network(a / 2, h - 1)
  }

  /** The address with its h host bits set: the last address of the network. */
  function Broadcast(a: nat, h: nat): (r: nat)
  {
    if h == 0 then a else 2 * Broadcast(a / 2, h - 1) + 1
  }

  /** A network has 2^h addresses, and they are the addresses between its two ends. */
  lemma {:induction false} NetworkSpan(a: nat, b: nat, h: nat)
    ensures Broadcast(a, h) == Network(a, h) + Pow2(h) - 1
    ensures Network(a, h) <= a <= Broadcast(a, h)
    ensures Network(a, h) == Network(b, h) <==> Network(a, h) <= b <= Broadcast(a, h)
    ensures Network(a, h) == Network(b, h) <==> Broadcast(a, h) == Broadcast(b, h)
  {
    if h > 0 { NetworkSpan(a / 2, b / 2, h - 1); }
  }

  lemma {:induction false} BroadcastOfLowBits(x: nat, h: nat, bits: nat)
    requires h <= bits
    ensures LowBits(Broadcast(x, h), bits) == Broadcast(LowBits(x, bits), h)
  {
    if h > 0 { BroadcastOfLowBits(x / 2, h - 1, bits - 1); }
  }

  /** big.Int.Or on non-negative values, bit by bit. */
  function BitOr(a: nat, b: nat): (r: nat)
  {
    if a == 0 then b
    else if b == 0 then a
    else (if a % 2 == 1 || b % 2 == 1 then 1 else 0) + 2 * BitOr(a / 2, b / 2)
  }

  lemma {:induction false} OrHostBits(h: nat, x: nat)
    ensures BitOr(Pow2(h) - 1, x) == Broadcast(x, h)
  {
    if h > 0 {
      var mask := Pow2(h) - 1;
      assert mask % 2 == 1 && mask / 2 == Pow2(h - 1) - 1;
      OrHostBits(h - 1, x / 2);
      if x == 0 {
        assert BitOr(mask, 0) == mask && BitOr(mask / 2, 0) == mask / 2;
      } else {
        assert BitOr(mask, x) == 1 + 2 * BitOr(mask / 2, x / 2);
      }
    }
  }

  /** lastIP: or the host bits into the address and pack the result. */
  function LastIP(ip: seq<Byte>, bits: nat, ones: nat): (r: seq<Byte>)
    requires ones <= bits
  {
    Padded(BitOr(Pow2(bits - ones) - 1, FromBytes(ip)), bits / 8)
  }

  /**
   * lastIP gives the last address of the prefix, whichever address of the
   * prefix it starts from and however wide its byte string is: net.ParseIP
   * returns 16 bytes for an IPv4 address, and only the low 4 are kept.
   */
  lemma LastIPIsBroadcast(ip: seq<Byte>, bits: nat, ones: nat)
    requires ones <= bits && bits % 8 == 0
    ensures FromBytes(LastIP(ip, bits, ones)) == Broadcast(LowBits(FromBytes(ip), bits), bits - ones)
  {
    OrHostBits(bits - ones, FromBytes(ip));
    DecodePadded(BitOr(Pow2(bits - ones) - 1, FromBytes(ip)), bits / 8);
    BroadcastOfLowBits(FromBytes(ip), bits - ones, bits);
  }

  /**
   * The 16-byte form net.ParseIP returns: an IPv4 address sits behind the
   * ::ffff prefix, an IPv6 address fills it.
   */
  function ParsedBytes(a: nat, bits: nat): (bs: seq<Byte>)
  {
    (if bits == 32 then seq(10, _ => 0) + [255, 255] else []) + Padded(a, bits / 8)
  }

  lemma {:induction false} LowBitsOfSmall(a: nat, k: nat)
    requires a < Pow2(k)
    ensures LowBits(a, k) == a
  {
    if k > 0 { LowBitsOfSmall(a / 2, k - 1); }
  }

  lemma {:induction false} DecodeSuffix(xs: seq<Byte>, a: nat, size: nat)
    ensures LowBits(FromBytes(xs + Padded(a, size)), 8 * size) == LowBits(a, 8 * size)
  {
    if size > 0 {
      var bs := xs + Padded(a, size);
      assert bs[..|bs| - 1] == xs + Padded(a / 256, size - 1);
      var f := FromBytes(xs + Padded(a / 256, size - 1));
      assert FromBytes(bs) == 256 * f + a % 256;
      DecodeSuffix(xs, a / 256, size - 1);
      LowByte(256 * f + a % 256, 8 * (size - 1));
      assert (256 * f + a % 256) / 256 == f;
      LowByte(a, 8 * (size - 1));
    }
  }

  /** lastIP of an address whose bytes come from net.ParseIP or from the network mask. */
  function LastAddress(a: nat, parsed: bool, bits: nat, ones: nat): (r: nat)
    requires ones <= bits && bits % 8 == 0 && a < Pow2(bits)
    ensures r == Broadcast(a, bits - ones)
  {
    var ip := if parsed then ParsedBytes(a, bits) else Padded(a, bits / 8);
    LastIPIsBroadcast(ip, bits, ones);
    DecodeSuffix(ip[..|ip| - bits / 8], a, bits / 8);
    LowBitsOfSmall(a, bits);
    assert ip == ip[..|ip| - bits / 8] + Padded(a, bits / 8);
    FromBytes(LastIP(ip, bits, ones))
  }

  // ---------------------------------------------------------------- NewBlock

  /** What net.ParseCIDR makes of a text: an address of `bits` bits and a prefix length. */
  datatype Cidr = BadCidr | Cidr(bits: nat, ip: nat, ones: nat)
  {
    ghost predicate Valid() { Cidr? ==> ip < Pow2(bits) && ones <= bits && bits % 8 == 0 }
  }

  /** An optional address argument: left empty, unparsable, or an address of some family. */
  datatype IPText = Omitted | Malformed | Given(bits: nat, value: nat)

  datatype Range = Range(start: nat, end: nat)

  datatype BlockError =
    | InvalidCidr | NoHostAddress | InvalidStart | StartOutside | InvalidEnd | EndOutside | InvalidPair

  /** net.IPNet.Contains: same family and same network bits. */
  predicate InPrefix(c: Cidr, family: nat, a: nat)
    requires c.Valid() && c.Cidr?
  {
    family == c.bits && Network(a, c.bits - c.ones) == Network(c.ip, c.bits - c.ones)
  }

  /** The network address is in the prefix, and the prefix is inside its family. */
  lemma NetworkFits(c: Cidr, a: nat)
    requires c.Valid() && c.Cidr?
    ensures InPrefix(c, c.bits, Network(c.ip, c.bits - c.ones))
    ensures InPrefix(c, c.bits, a) ==> a < Pow2(c.bits)
  {
    var h := c.bits - c.ones;
    NetworkSpan(c.ip, a, h);
    NetworkSpan(c.ip, Network(c.ip, h), h);
    BroadcastFits(c.ip, h, c.bits);
  }

  /** NewBlock up to the allocation of the Block object. */
  function NewRange(c: Cidr, start: IPText, end: IPText): (r: Result<Range, BlockError>)
    requires c.Valid()
  {
    if c.BadCidr? then Failure(InvalidCidr)
    else if c.ones == c.bits - 1 then Failure(NoHostAddress)
    else if start.Malformed? then Failure(InvalidStart)
    else if start.Given? && !InPrefix(c, start.bits, start.value) then Failure(StartOutside)
    else if end.Malformed? then Failure(InvalidEnd)
    else if end.Given? && !InPrefix(c, end.bits, end.value) then Failure(EndOutside)
    else
      var network := Network(c.ip, c.bits - c.ones);
      var startIP := if start.Given? then start.value else network;
      NetworkFits(c, startIP);
      var endIP := if end.Given? then end.value else LastAddress(startIP, start.Given?, c.bits, c.ones);
      Trim(c, startIP, endIP)
  }

  /** Unless the prefix is a single host, its first and last address are held back. */
  function Trim(c: Cidr, startIP: nat, endIP: nat): (r: Result<Range, BlockError>)
    requires c.Valid() && c.Cidr?
  {
    var network := Network(c.ip, c.bits - c.ones);
    NetworkFits(c, network);
    var last := LastAddress(network, false, c.bits, c.ones);
    var startInt := if c.ones != c.bits && startIP == network then startIP + 1 else startIP;
    var endInt := if c.ones != c.bits && endIP == last then endIP - 1 else endIP;
    if startInt > endInt then Failure(InvalidPair) else Success(Range(startInt, endInt))
  }

  /** Both optional arguments are absent or addresses of the prefix. */
  predicate WellFormed(c: Cidr, start: IPText, end: IPText)
    requires c.Valid()
  {
    && c.Cidr?
    && !start.Malformed? && (start.Given? ==> InPrefix(c, start.bits, start.value))
    && !end.Malformed? && (end.Given? ==> InPrefix(c, end.bits, end.value))
  }

  /**
   * An address a block may hand out: in the prefix, between the requested ends,
   * and, unless the prefix is a single host, neither its first nor its last address.
   */
  predicate Usable(c: Cidr, start: IPText, end: IPText, a: nat)
    requires c.Valid() && c.Cidr?
  {
    && InPrefix(c, c.bits, a)
    && (start.Given? ==> start.value <= a)
    && (end.Given? ==> a <= end.value)
    && (c.ones != c.bits ==> a != Network(c.ip, c.bits - c.ones) && a != Broadcast(c.ip, c.bits - c.ones))
  }

  /** The prefix as an interval, with the ends lastIP computes. */
  lemma PrefixIsInterval(c: Cidr, a: nat)
    requires c.Valid() && c.Cidr?
    ensures var h := c.bits - c.ones;
            && (InPrefix(c, c.bits, a) <==> Network(c.ip, h) <= a <= Broadcast(c.ip, h))
            && (InPrefix(c, c.bits, a) ==> Broadcast(a, h) == Broadcast(c.ip, h))
            && Network(c.ip, h) + Pow2(h) - 1 == Broadcast(c.ip, h)
  {
    NetworkSpan(c.ip, a, c.bits - c.ones);
  }

  /** The ends NewBlock settles on before it compares them. */
  ghost function Ends(c: Cidr, start: IPText, end: IPText): (r: (nat, int))
    requires c.Valid() && c.Cidr?
  {
    var h := c.bits - c.ones;
    var lo := if start.Given? then start.value else Network(c.ip, h);
    var hi := if end.Given? then end.value else Broadcast(c.ip, h);
    (if h != 0 && lo == Network(c.ip, h) then lo + 1 else lo,
     if h != 0 && hi == Broadcast(c.ip, h) then hi - 1 else hi)
  }

  lemma TrimEnds(c: Cidr, lo: nat, hi: nat)
    requires c.Valid() && c.Cidr?
    ensures var h := c.bits - c.ones;
            var lo' := if h != 0 && lo == Network(c.ip, h) then lo + 1 else lo;
            var hi' := if h != 0 && hi == Broadcast(c.ip, h) then hi - 1 else hi;
            Trim(c, lo, hi) == if lo' > hi' then Failure(InvalidPair) else Success(Range(lo', hi'))
  {
    var network := Network(c.ip, c.bits - c.ones);
    NetworkFits(c, network);
    PrefixIsInterval(c, network);
  }

  lemma NewRangeEnds(c: Cidr, start: IPText, end: IPText)
    requires c.Valid() && WellFormed(c, start, end) && c.ones != c.bits - 1
    ensures var (lo, hi) := Ends(c, start, end);
            NewRange(c, start, end) == if lo > hi then Failure(InvalidPair) else Success(Range(lo, hi))
  {
    var h := c.bits - c.ones;
    var lo := if start.Given? then start.value else Network(c.ip, h);
    var hi := if end.Given? then end.value else Broadcast(c.ip, h);
    NetworkFits(c, lo);
    PrefixIsInterval(c, lo);
    assert NewRange(c, start, end) == Trim(c, lo, hi);
    TrimEnds(c, lo, hi);
  }

  lemma UsableBounds(c: Cidr, start: IPText, end: IPText, a: nat)
    requires c.Valid() && WellFormed(c, start, end)
    ensures Usable(c, start, end, a) <==> Ends(c, start, end).0 <= a <= Ends(c, start, end).1
  {
    PrefixIsInterval(c, a);
    if start.Given? { PrefixIsInterval(c, start.value); }
    if end.Given? { PrefixIsInterval(c, end.value); }
  }

  /**
   * NewBlock accepts exactly the well-formed requests that leave some usable address,
   * and the range it builds is exactly the set of usable addresses.
   */
  lemma NewRangeIsUsable(c: Cidr, start: IPText, end: IPText)
    requires c.Valid()
    ensures NewRange(c, start, end).Success? <==>
            WellFormed(c, start, end) && exists a: nat :: Usable(c, start, end, a)
    ensures NewRange(c, start, end).Success? ==>
              var r := NewRange(c, start, end).value;
              r.start <= r.end && forall a: nat :: r.start <= a <= r.end <==> Usable(c, start, end, a)
  {
    var r := NewRange(c, start, end);
    if WellFormed(c, start, end) {
      forall a: nat
        ensures r.Success? ==> (r.value.start <= a <= r.value.end <==> Usable(c, start, end, a))
        ensures r.Failure? ==> !Usable(c, start, end, a)
      {
        UsableBounds(c, start, end, a);
        if c.ones == c.bits - 1 {
          PrefixIsInterval(c, a);
          assert Pow2(1) == 2 * Pow2(0);
        } else {
          NewRangeEnds(c, start, end);
        }
      }
      if r.Success? {
        NewRangeEnds(c, start, end);
        assert Usable(c, start, end, r.value.start);
      }
    }
  }

  /** The error names a fault the request has, and a request with that fault gets an error. */
  lemma RangeErrorIsTrue(c: Cidr, start: IPText, end: IPText)
    requires c.Valid() && NewRange(c, start, end).Failure?
    ensures match NewRange(c, start, end).error
            case InvalidCidr => c.BadCidr?
            case NoHostAddress => c.Cidr? && c.ones + 1 == c.bits
            case InvalidStart => start.Malformed?
            case StartOutside => c.Cidr? && start.Given? && !InPrefix(c, start.bits, start.value)
            case InvalidEnd => end.Malformed?
            case EndOutside => c.Cidr? && end.Given? && !InPrefix(c, end.bits, end.value)
            case InvalidPair => WellFormed(c, start, end) && forall a: nat :: !Usable(c, start, end, a)
  {
    NewRangeIsUsable(c, start, end);
  }

  /**
   * A range reaches the all-ones address of its family only when the prefix is
   * that single host: in every other prefix the last address is held back.
   */
  lemma RangeBelowTop(c: Cidr, start: IPText, end: IPText)
    requires c.Valid() && NewRange(c, start, end).Success?
    ensures NewRange(c, start, end).value.end < Pow2(c.bits)
    ensures NewRange(c, start, end).value.end == Pow2(c.bits) - 1 <==>
            c.ones == c.bits && c.ip == Pow2(c.bits) - 1
    ensures NewRange(c, start, end).value.end == Pow2(c.bits) - 1 ==>
              NewRange(c, start, end).value.start == Pow2(c.bits) - 1
  {
    var h := c.bits - c.ones;
    var end' := NewRange(c, start, end).value.end;
    NewRangeEnds(c, start, end);
    UsableBounds(c, start, end, end');
    PrefixIsInterval(c, end');
    BroadcastFits(c.ip, h, c.bits);
    if c.ones == c.bits && start.Given? { PrefixIsInterval(c, start.value); }
  }

  lemma {:induction false} BroadcastFits(a: nat, h: nat, bits: nat)
    requires h <= bits && a < Pow2(bits)
    ensures Broadcast(a, h) < Pow2(bits)
  {
    if h > 0 { BroadcastFits(a / 2, h - 1, bits - 1); }
  }
}
