/** IP addresses and the fake-IP pool (src/virtual_dns.rs). */
module Addresses {
  import opened Base

  /** An address is a family and the value of its octets. */
  datatype Ip = Ip(v6: bool, value: nat)

  function Width(v6: bool): nat {
    if v6 then 16 else 4
  }

  /** 256 to the n-th power. */
  function Power(n: nat): (p: nat)
    ensures p > 0
  {
    if n == 0 then 1 else 256 * Power(n - 1)
  }

  predicate ValidIp(ip: Ip) {
    ip.value < Power(Width(ip.v6))
  }

  /** The big-endian value of a string of octets. */
  function Value(octets: seq<Byte>): nat {
    if octets == [] then 0 else Value(octets[..|octets| - 1]) * 256 + octets[|octets| - 1]
  }

  function ToOctets(value: nat, n: nat): (octets: seq<Byte>)
    ensures |octets| == n
  {
    if n == 0 then [] else ToOctets(value / 256, n - 1) + [value % 256]
  }

  lemma {:induction false} FirstOctet(value: nat, n: nat)
    requires 0 < n && value < Power(n)
    ensures ToOctets(value, n)[0] == value / Power(n - 1)
  {
    if n == 1 {
      assert ToOctets(value / 256, 0) == [];
    } else {
      FirstOctet(value / 256, n - 1);
      NestedQuotient(value, 256, Power(n - 2));
    }
  }

  lemma PowerThree()
    ensures Power(3) == 0x100_0000
  {
  }

  /** The octets of the two smallest values. */
  lemma {:induction false} SmallOctets(n: nat)
    ensures ToOctets(0, n) == seq(n, _ => 0)
    ensures n > 0 ==> ToOctets(1, n) == seq(n - 1, _ => 0) + [1]
  {
    if n > 0 {
      SmallOctets(n - 1);
    }
  }

  lemma {:induction false} ValueOfOctets(value: nat, n: nat)
    requires value < Power(n)
    ensures Value(ToOctets(value, n)) == value
  {
    if n > 0 {
      ValueOfOctets(value / 256, n - 1);
      assert ToOctets(value, n)[..n - 1] == ToOctets(value / 256, n - 1);
    }
  }

  /** How a tail of equal octets enters the value: zeros shift, and 255s shift and fill. */
  lemma {:induction false} ValueOfTail(octets: seq<Byte>, n: nat)
    requires n <= |octets|
    ensures (forall i :: n <= i < |octets| ==> octets[i] == 0) ==>
      Value(octets) == Value(octets[..n]) * Power(|octets| - n)
    ensures (forall i :: n <= i < |octets| ==> octets[i] == 255) ==>
      Value(octets) == Value(octets[..n]) * Power(|octets| - n) + Power(|octets| - n) - 1
    decreases |octets|
  {
    if n == |octets| {
      assert octets[..n] == octets;
    } else {
      var front := octets[..|octets| - 1];
      ValueOfTail(front, n);
      assert front[..n] == octets[..n];
      Shift(Value(octets[..n]), Power(|front| - n));
    }
  }

  lemma Shift(a: nat, b: nat)
    ensures (a * b) * 256 == a * (256 * b)
  {
  }

  lemma {:induction false} ValueBound(octets: seq<Byte>)
    ensures Value(octets) < Power(|octets|)
  {
    if octets != [] {
      ValueBound(octets[..|octets| - 1]);
    }
  }

  /** `increment_ip`: the carry runs over the octets from the right; the value grows by one, and
      the last address wraps to zero. */
  method IncrementIp(address: Ip) returns (next: Ip)
    requires ValidIp(address)
    ensures ValidIp(next) && next.v6 == address.v6
    ensures next.value == if address.value + 1 == Power(Width(address.v6)) then 0 else address.value + 1
  {
    hide Power, Value, ToOctets;
    var n := Width(address.v6);
    var octets := ToOctets(address.value, n);
    ghost var was := octets;
    ValueOfOctets(address.value, n);
    var j := 0;
    while j < n
      invariant 0 <= j <= n && |octets| == n
      invariant octets[..n - j] == was[..n - j]
      invariant forall i :: n - j <= i < n ==> octets[i] == 0 && was[i] == 255
    {
      var i := n - 1 - j;
      if octets[i] != 255 {
        octets := octets[i := octets[i] + 1];
        assert octets[..i] == was[..i];
        CarryStops(was, octets, i);
        ValueBound(octets);
        return Ip(address.v6, Value(octets));
      }
      octets := octets[i := 0];
      j := j + 1;
    }
    AllCarried(was, octets);
    return Ip(address.v6, Value(octets));
  }

  lemma AllCarried(was: seq<Byte>, octets: seq<Byte>)
    requires |was| == |octets|
    requires forall k :: 0 <= k < |was| ==> was[k] == 255 && octets[k] == 0
    ensures Value(was) + 1 == Power(|was|) && Value(octets) == 0
  {
    ValueOfTail(was, 0);
    ValueOfTail(octets, 0);
  }

  lemma CarryStops(was: seq<Byte>, octets: seq<Byte>, i: nat)
    requires |was| == |octets| && i < |was| && octets[..i] == was[..i]
    requires was[i] != 255 && octets[i] == was[i] + 1
    requires forall k :: i < k < |was| ==> was[k] == 255 && octets[k] == 0
    ensures Value(octets) == Value(was) + 1
  {
    hide Power;
    var p := Power(|was| - i - 1);
    ValueOfTail(was, i + 1);
    ValueOfTail(octets, i + 1);
    assert was[..i + 1][..i] == was[..i] && octets[..i + 1][..i] == octets[..i];
    assert Value(octets[..i + 1]) == Value(was[..i + 1]) + 1;
    Distribute(Value(was[..i + 1]), p);
  }

  lemma Distribute(a: nat, p: nat)
    ensures (a + 1) * p == a * p + p
  {
  }

  // ---------------------------------------------------------------- the pool

  datatype Pool = Pool(network: Ip, broadcast: Ip)

  predicate ValidPool(pool: Pool) {
    && pool.network.v6 == pool.broadcast.v6
    && pool.network.value <= pool.broadcast.value
    && ValidIp(pool.broadcast)
  }

  predicate InPool(pool: Pool, ip: Ip) {
    && ip.v6 == pool.network.v6
    && pool.network.value <= ip.value <= pool.broadcast.value
  }

  function Size(pool: Pool): nat
    requires ValidPool(pool)
  {
    pool.broadcast.value - pool.network.value + 1
  }

  /** `upper_half_start` splits the pool in two halves, the upper one at most one larger. */
  function UpperHalfStart(pool: Pool): (start: Ip)
    requires ValidPool(pool)
    ensures InPool(pool, start)
    ensures var below := start.value - pool.network.value; below <= Size(pool) - below <= below + 1
  {
    var distance := pool.broadcast.value - pool.network.value;
    Ip(pool.network.v6, pool.network.value + distance / 2 + distance % 2)
  }

  /** The address `k` places after `start` on the ring of pool addresses. */
  function Around(pool: Pool, start: Ip, k: nat): (ip: Ip)
    requires ValidPool(pool) && InPool(pool, start) && k <= Size(pool)
    ensures InPool(pool, ip)
  {
    var value := start.value + k;
    Ip(start.v6, if value <= pool.broadcast.value then value else value - Size(pool))
  }

  /** Going once around meets every address of the pool, and the start again only at the end. */
  lemma AroundMeetsAll(pool: Pool, start: Ip, ip: Ip)
    requires ValidPool(pool) && InPool(pool, start) && InPool(pool, ip)
    ensures exists k: nat :: k < Size(pool) && Around(pool, start, k) == ip
    ensures forall k: nat :: 0 < k < Size(pool) ==> Around(pool, start, k) != start
    ensures Around(pool, start, Size(pool)) == start
  {
    var k: nat := if ip.value >= start.value then ip.value - start.value else ip.value - start.value + Size(pool);
    assert Around(pool, start, k) == ip;
  }

  /** The allocator's step to the next address: wrap at the last one, increment otherwise. */
  method Advance(pool: Pool, ip: Ip) returns (next: Ip)
    requires ValidPool(pool) && InPool(pool, ip)
    ensures InPool(pool, next)
    ensures next == Around(pool, ip, 1)
  {
    hide Power;
    if ip == pool.broadcast {
      return pool.network;
    }
    next := IncrementIp(ip);
  }
}
