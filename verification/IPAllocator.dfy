/** pkg/wireguard/allocator.go: sequential address reservation inside an IPv4 subnet. */
module IPAllocation {
  import opened Prelude

  /** An IPv4 address as its 32-bit number; the last octet is `a % 256`. */
  type Addr = nat

  const ADDRESS_SPACE: nat := 0x1_0000_0000

  /** `a` with its lowest `k` bits cleared, as a netmask does. */
  function Masked(a: Addr, k: nat): Addr {
    if k == 0 then a else 2 * Masked(a / 2, k - 1)
  }

  datatype Subnet = Subnet(base: Addr, prefix: nat) {

    function Size(): (n: nat)
      requires prefix <= 32
      ensures n >= 1
    {
      Pow2(32 - prefix)
    }

    ghost predicate Valid() {
      prefix <= 32 && Masked(base, 32 - prefix) == base && base + Size() <= ADDRESS_SPACE
    }

    function Broadcast(): Addr
      requires prefix <= 32
    {
      base + Size() - 1
    }

    /** `net.IPNet.Contains`: the bits kept by the mask are the network's. */
    predicate Contains(a: Addr)
      requires prefix <= 32
    {
      Masked(a, 32 - prefix) == base
    }
  }

  /** `ip[3]++` on a byte: the last octet wraps and nothing carries. */
  function OctetSucc(a: Addr): Addr {
    if a % 256 == 255 then a - 255 else a + 1
  }

  // ---------------------------------------------------------------- arithmetic of subnets

  lemma {:induction false} MaskedBounds(a: Addr, k: nat)
    ensures Masked(a, k) <= a < Masked(a, k) + Pow2(k)
    ensures Masked(Masked(a, k), k) == Masked(a, k)
  {
    if k > 0 {
      MaskedBounds(a / 2, k - 1);
    }
  }

  /** Two addresses with the same number of host bits cleared: equal, or a block apart. */
  lemma {:induction false} MaskedIsBlockStart(a: Addr, b: Addr, k: nat)
    requires Masked(b, k) == b && b <= a < b + Pow2(k)
    ensures Masked(a, k) == b
  {
    if k > 0 {
      MaskedIsBlockStart(a / 2, b / 2, k - 1);
    }
  }

  lemma {:induction false} MaskedFewerBits(a: Addr, j: nat, k: nat)
    requires j <= k && Masked(a, k) == a
    ensures Masked(a, j) == a
  {
    if j > 0 {
      MaskedFewerBits(a / 2, j - 1, k - 1);
    }
  }

  lemma {:induction false} NestedBlocks(a: Addr, j: nat, k: nat)
    requires j <= k && Masked(a, j) == a
    ensures a + Pow2(j) <= Masked(a, k) + Pow2(k)
  {
    if j == 0 {
      MaskedBounds(a, k);
    } else {
      NestedBlocks(a / 2, j - 1, k - 1);
    }
  }

  lemma Pow2Values()
    ensures Pow2(8) == 256 && Pow2(9) == 512 && Pow2(16) == 65536 && Pow2(32) == ADDRESS_SPACE
  {
    Pow2Split(8, 8);
    Pow2Split(16, 16);
  }

  lemma {:induction false} Pow2Monotone(j: nat, k: nat)
    requires j <= k
    ensures Pow2(j) <= Pow2(k)
  {
    if j < k {
      Pow2Monotone(j, k - 1);
    }
  }

  lemma MaskedTwoBits(a: Addr, k: nat)
    ensures Masked(a, k + 2) == 4 * Masked(a / 4, k)
  {
    assert a / 2 / 2 == a / 4;
    assert Masked(a, k + 2) == 2 * Masked(a / 2, k + 1);
    assert Masked(a / 2, k + 1) == 2 * Masked(a / 2 / 2, k);
  }

  lemma MaskedOctet(a: Addr)
    ensures Masked(a, 8) == a - a % 256
  {
    MaskedTwoBits(a, 6);
    MaskedTwoBits(a / 4, 4);
    MaskedTwoBits(a / 16, 2);
    MaskedTwoBits(a / 64, 0);
    assert a / 4 / 4 == a / 16 && a / 16 / 4 == a / 64 && a / 64 / 4 == a / 256;
  }

  lemma MaskedExactlyInBlock(a: Addr, b: Addr, k: nat)
    requires Masked(b, k) == b
    ensures Masked(a, k) == b <==> b <= a < b + Pow2(k)
  {
    MaskedBounds(a, k);
    if b <= a < b + Pow2(k) {
      MaskedIsBlockStart(a, b, k);
    }
  }

  /** Masking and interval arithmetic agree on membership. */
  lemma ContainsIsInterval(net: Subnet, a: Addr)
    requires net.Valid()
    ensures net.Contains(a) <==> net.base <= a <= net.Broadcast()
  {
    MaskedExactlyInBlock(a, net.base, 32 - net.prefix);
  }

  /** A prefix of 24 or longer keeps the whole subnet inside one last-octet block. */
  lemma LongPrefixInOneBlock(net: Subnet)
    requires net.Valid() && net.prefix >= 24
    ensures net.base % 256 + net.Size() <= 256
  {
    NestedBlocks(net.base, 32 - net.prefix, 8);
    MaskedOctet(net.base);
    Pow2Values();
  }

  /** A shorter prefix holds at least two whole blocks, the first starting at the network address. */
  lemma ShortPrefixHoldsBlocks(net: Subnet)
    requires net.Valid() && net.prefix < 24
    ensures net.base % 256 == 0 && net.Size() >= 512
  {
    MaskedFewerBits(net.base, 8, 32 - net.prefix);
    MaskedOctet(net.base);
    Pow2Monotone(9, 32 - net.prefix);
    Pow2Values();
  }

  // ---------------------------------------------------------------- what the search returns

  /** The lowest address of `[lo, hi)` outside `used`. */
  function LowestFree(lo: Addr, hi: nat, used: set<Addr>): (r: Option<Addr>)
    ensures r.Some? ==> lo <= r.value < hi && r.value !in used
    ensures r.Some? ==> forall a :: lo <= a < r.value ==> a in used
    ensures r.None? ==> forall a :: lo <= a < hi ==> a in used
    decreases hi - lo
  {
    if lo >= hi then None
    else if lo !in used then Some(lo)
    else LowestFree(lo + 1, hi, used)
  }

  /** The address handed out next: on a long prefix the lowest free one strictly between
      network and broadcast; on a shorter one the first block is scanned from `.1` round to `.0`. */
  function NextFree(net: Subnet, used: set<Addr>): (r: Option<Addr>)
    requires net.prefix <= 32
    ensures r.Some? ==> r.value !in used
  {
    if net.prefix >= 24 then LowestFree(net.base + 1, net.Broadcast(), used)
    else match LowestFree(net.base + 1, net.base + 256, used)
      case Some(a) => Some(a)
      case None => if net.base in used then None else Some(net.base)
  }

  /** The address examined by iteration `k` of the search loop. */
  function Candidate(net: Subnet, k: nat): Addr {
    net.base - net.base % 256 + (net.base % 256 + 1 + k) % 256
  }

  predicate LoopGuard(net: Subnet, a: Addr)
    requires net.prefix <= 32
  {
    net.Contains(a) && a != net.Broadcast()
  }

  /** Iteration `k` is the last: the guard fails or the candidate is free. */
  predicate StopsAt(net: Subnet, used: set<Addr>, k: nat)
    requires net.prefix <= 32
  {
    !LoopGuard(net, Candidate(net, k)) || Candidate(net, k) !in used
  }

  /** What a caller can check before calling: the search comes to an end. */
  ghost predicate SearchEnds(net: Subnet, used: set<Addr>) {
    net.prefix >= 24 || exists a :: net.base <= a < net.base + 256 && a !in used
  }

  lemma CandidateSucc(net: Subnet, k: nat)
    ensures Candidate(net, 0) == OctetSucc(net.base)
    ensures Candidate(net, k + 1) == OctetSucc(Candidate(net, k))
  {
    assert Candidate(net, k) % 256 == (net.base % 256 + 1 + k) % 256;
  }

  /** Up to the end of the block there is no wrap-around; one past it is the start of the block. */
  lemma CandidateInBlock(net: Subnet, k: nat)
    ensures net.base % 256 + 1 + k < 256 ==> Candidate(net, k) == net.base + 1 + k
    ensures net.base % 256 + 1 + k == 256 ==> Candidate(net, k) == net.base - net.base % 256
  {
    var n := net.base % 256 + 1 + k;
    if n < 256 {
      assert n % 256 == n;
    }
  }

  /** Long prefixes: iterations 0 .. size-3 examine base+1 .. broadcast-1, then the guard fails. */
  lemma LongPrefixCandidates(net: Subnet, k: nat)
    requires net.Valid() && net.prefix >= 24
    ensures k + 2 < net.Size() ==> Candidate(net, k) == net.base + 1 + k && LoopGuard(net, Candidate(net, k))
    ensures k + 2 == net.Size() || (k == 0 && net.Size() == 1) ==> !LoopGuard(net, Candidate(net, k))
  {
    LongPrefixInOneBlock(net);
    if k + 2 <= net.Size() || k == 0 {
      CandidateInBlock(net, k);
      ContainsIsInterval(net, Candidate(net, k));
    }
  }

  /** Shorter prefixes: the guard never fails and the candidates cycle through one block. */
  lemma ShortPrefixCandidates(net: Subnet, k: nat)
    requires net.Valid() && net.prefix < 24
    ensures net.base <= Candidate(net, k) < net.base + 256 && LoopGuard(net, Candidate(net, k))
    ensures k < 255 ==> Candidate(net, k) == net.base + 1 + k
    ensures k == 255 ==> Candidate(net, k) == net.base
  {
    ShortPrefixHoldsBlocks(net);
    ContainsIsInterval(net, Candidate(net, k));
  }

  /** The iteration at which a search on a long prefix stops at the latest. */
  function LastIteration(net: Subnet): nat
    requires net.prefix <= 32
  {
    if net.Size() >= 2 then net.Size() - 2 else 0
  }

  lemma LongPrefixStops(net: Subnet, used: set<Addr>)
    requires net.Valid() && net.prefix >= 24
    ensures StopsAt(net, used, LastIteration(net)) && LastIteration(net) < 255
  {
    LongPrefixCandidates(net, LastIteration(net));
    LongPrefixInOneBlock(net);
  }

  /** The iteration at which a search on a shorter prefix examines `a`. */
  function IterationOf(net: Subnet, a: Addr): nat
    requires net.base <= a < net.base + 256
  {
    if a == net.base then 255 else a - net.base - 1
  }

  lemma ShortPrefixStops(net: Subnet, used: set<Addr>, a: Addr)
    requires net.Valid() && net.prefix < 24 && net.base <= a < net.base + 256
    ensures Candidate(net, IterationOf(net, a)) == a
    ensures a !in used <==> StopsAt(net, used, IterationOf(net, a))
  {
    ShortPrefixCandidates(net, IterationOf(net, a));
  }

  /** The search of `NextAvailable` ends exactly when `SearchEnds` holds: always for /24 and longer,
      and for shorter prefixes only while the first block of 256 addresses has a free one. */
  lemma SearchEndsExactly(net: Subnet, used: set<Addr>)
    requires net.Valid()
    ensures (exists k: nat :: StopsAt(net, used, k)) <==> SearchEnds(net, used)
  {
    if net.prefix >= 24 {
      LongPrefixStops(net, used);
    } else {
      if a :| net.base <= a < net.base + 256 && a !in used {
        ShortPrefixStops(net, used, a);
      }
      if k: nat :| StopsAt(net, used, k) {
        ShortPrefixCandidates(net, k);
        assert net.base <= Candidate(net, k) < net.base + 256;
      }
    }
  }

  lemma FirstStopOnLongPrefix(net: Subnet, used: set<Addr>, k: nat)
    requires net.Valid() && net.prefix >= 24
    requires forall j: nat :: j < k ==> !StopsAt(net, used, j)
    requires StopsAt(net, used, k)
    ensures NextFree(net, used) ==
            if LoopGuard(net, Candidate(net, k)) then Some(Candidate(net, k)) else None
  {
    LongPrefixStops(net, used);
    assert k <= LastIteration(net);
    LongPrefixCandidates(net, k);
    forall a: Addr | net.base + 1 <= a < net.base + 1 + k && a < net.Broadcast()
      ensures a in used
    {
      LongPrefixCandidates(net, a - net.base - 1);
      assert !StopsAt(net, used, a - net.base - 1);
    }
  }

  lemma FirstStopOnShortPrefix(net: Subnet, used: set<Addr>, k: nat)
    requires net.Valid() && net.prefix < 24 && SearchEnds(net, used)
    requires forall j: nat :: j < k ==> !StopsAt(net, used, j)
    requires StopsAt(net, used, k)
    ensures NextFree(net, used) == Some(Candidate(net, k)) && LoopGuard(net, Candidate(net, k))
  {
    var a0 :| net.base <= a0 < net.base + 256 && a0 !in used;
    ShortPrefixStops(net, used, a0);
    ShortPrefixCandidates(net, k);
    assert k <= IterationOf(net, a0) < 256;
    forall a: Addr | net.base + 1 <= a < net.base + 1 + k && a < net.base + 256
      ensures a in used
    {
      ShortPrefixStops(net, used, a);
      assert !StopsAt(net, used, a - net.base - 1);
    }
  }

  /** The first stopping iteration yields the address `NextFree` names. */
  lemma FirstStopIsNextFree(net: Subnet, used: set<Addr>, k: nat)
    requires net.Valid() && SearchEnds(net, used)
    requires forall j: nat :: j < k ==> !StopsAt(net, used, j)
    requires StopsAt(net, used, k)
    ensures NextFree(net, used) ==
            if LoopGuard(net, Candidate(net, k)) then Some(Candidate(net, k)) else None
  {
    if net.prefix >= 24 {
      FirstStopOnLongPrefix(net, used, k);
    } else {
      FirstStopOnShortPrefix(net, used, k);
    }
  }

  /** The search stops within one sweep of the last octet. */
  lemma StopsWithinOneSweep(net: Subnet, used: set<Addr>, k: nat)
    requires net.Valid() && SearchEnds(net, used)
    requires forall j: nat :: j < k ==> !StopsAt(net, used, j)
    ensures k < 256
  {
    if net.prefix >= 24 {
      LongPrefixStops(net, used);
    } else {
      var a0 :| net.base <= a0 < net.base + 256 && a0 !in used;
      ShortPrefixStops(net, used, a0);
    }
  }

  /** On /24 and longer the answer is the lowest unused host address, and there is none
      exactly when every host address is used. */
  lemma NextFreeIsLowestHost(net: Subnet, used: set<Addr>)
    requires net.Valid() && net.prefix >= 24
    ensures NextFree(net, used).None? <==> forall a :: net.base < a < net.Broadcast() ==> a in used
    ensures forall a :: NextFree(net, used) == Some(a) <==>
                        && net.base < a < net.Broadcast() && a !in used
                        && forall b :: net.base < b < a ==> b in used
  {
    forall a | net.base < a < net.Broadcast() && a !in used && forall b :: net.base < b < a ==> b in used
      ensures NextFree(net, used) == Some(a)
    {
      assert LowestFree(net.base + 1, net.Broadcast(), used).Some?;
    }
  }

  /** On a shorter prefix the network address itself is handed out once .1 to .255 are taken. */
  lemma ShortPrefixHandsOutNetworkAddress(net: Subnet, used: set<Addr>)
    requires net.Valid() && net.prefix < 24
    ensures NextFree(net, used) == Some(net.base) <==>
            net.base !in used && forall a :: net.base < a < net.base + 256 ==> a in used
  {
  }

  // ---------------------------------------------------------------- the allocator object

  class IPAllocator {
    const net: Subnet
    var used: set<Addr>

    ghost predicate Valid() {
      net.Valid()
    }

    constructor (addr: Addr, prefix: nat)
      requires addr < ADDRESS_SPACE && prefix <= 32
      ensures Valid() && net.prefix == prefix && net.Contains(addr) && used == {}
    {
      net := Subnet(Masked(addr, 32 - prefix), prefix);
      used := {};
      new;
      MaskedSubnetIsValid(addr, prefix);
    }

    /** `Reserve`; `None` is Go's nil address, which no network contains. */
    method Reserve(a: Option<Addr>) returns (ok: bool)
      requires Valid()
      modifies this`used
      ensures ok == (a.Some? && net.Contains(a.value))
      ensures used == if ok then old(used) + {a.value} else old(used)
    {
      if a.None? || !net.Contains(a.value) {
        return false;
      }
      used := used + {a.value};
      return true;
    }

    method NextAvailable() returns (r: Option<Addr>)
      requires Valid() && SearchEnds(net, used)
      modifies this`used
      ensures r == NextFree(net, old(used))
      ensures used == if r.Some? then old(used) + {r.value} else old(used)
    {
      var ip := OctetSucc(net.base);
      ghost var k := 0;
      CandidateSucc(net, 0);
      while net.Contains(ip) && ip != net.Broadcast()
        invariant ip == Candidate(net, k) && used == old(used)
        invariant forall j: nat :: j < k ==> !StopsAt(net, used, j)
        decreases 256 - k
      {
        if ip !in used {
          FirstStopIsNextFree(net, used, k);
          used := used + {ip};
          return Some(ip);
        }
        CandidateSucc(net, k);
        ip, k := OctetSucc(ip), k + 1;
        StopsWithinOneSweep(net, used, k);
      }
      FirstStopIsNextFree(net, used, k);
      return None;
    }

    method Release(a: Option<Addr>)
      modifies this`used
      ensures used == if a.Some? then old(used) - {a.value} else old(used)
    {
      if a.Some? {
        used := used - {a.value};
      }
    }
  }

  lemma MaskedSubnetIsValid(addr: Addr, prefix: nat)
    requires addr < ADDRESS_SPACE && prefix <= 32
    ensures var net := Subnet(Masked(addr, 32 - prefix), prefix); net.Valid() && net.Contains(addr)
  {
    var k := 32 - prefix;
    MaskedBounds(addr, k);
    NestedBlocks(Masked(addr, k), k, 32);
    MaskedBounds(Masked(addr, k), 32);
    if Masked(Masked(addr, k), 32) != 0 {
      MaskedIsBlockStart(Masked(addr, k), 0, 32) by { MaskedZero(32); Pow2Values(); }
    }
    Pow2Values();
  }

  lemma {:induction false} MaskedZero(k: nat)
    ensures Masked(0, k) == 0
  {
    if k > 0 {
      MaskedZero(k - 1);
    }
  }

  // ---------------------------------------------------------------- whole runs

  datatype AllocatorCall = Take | Book(a: Addr) | Free(a: Addr)

  function HandedOut(net: Subnet, used: set<Addr>, c: AllocatorCall): Option<Addr>
    requires net.prefix <= 32
  {
    if c.Take? then NextFree(net, used) else None
  }

  function UsedAfter(net: Subnet, used: set<Addr>, c: AllocatorCall): set<Addr>
    requires net.prefix <= 32
  {
    match c
    case Take => (match NextFree(net, used) case Some(a) => used + {a} case None => used)
    case Book(a) => if net.Contains(a) then used + {a} else used
    case Free(a) => used - {a}
  }

  function UsedAfterAll(net: Subnet, used: set<Addr>, calls: seq<AllocatorCall>): set<Addr>
    requires net.prefix <= 32
  {
    if calls == [] then used
    else UsedAfter(net, UsedAfterAll(net, used, calls[..|calls| - 1]), calls[|calls| - 1])
  }

  function AnswerTo(net: Subnet, used: set<Addr>, calls: seq<AllocatorCall>, i: nat): Option<Addr>
    requires net.prefix <= 32 && i < |calls|
  {
    HandedOut(net, UsedAfterAll(net, used, calls[..i]), calls[i])
  }

  lemma {:induction false} StaysUsedUntilFreed(net: Subnet, used: set<Addr>, calls: seq<AllocatorCall>, i: nat,
                                               j: nat, a: Addr)
    requires net.prefix <= 32 && i < j <= |calls|
    requires AnswerTo(net, used, calls, i) == Some(a)
    requires forall m :: i < m < j ==> calls[m] != Free(a)
    ensures a in UsedAfterAll(net, used, calls[..j])
  {
    assert calls[..j][..j - 1] == calls[..j - 1];
    if j > i + 1 {
      StaysUsedUntilFreed(net, used, calls, i, j - 1, a);
    }
  }

  /** Over any run no address is handed out twice without a release of it in between. */
  lemma NoDoubleHandOut(net: Subnet, used: set<Addr>, calls: seq<AllocatorCall>, i: nat, j: nat, a: Addr)
    requires net.prefix <= 32 && i < j < |calls|
    requires AnswerTo(net, used, calls, i) == Some(a) && AnswerTo(net, used, calls, j) == Some(a)
    ensures exists m :: i < m < j && calls[m] == Free(a)
  {
    if forall m :: i < m < j ==> calls[m] != Free(a) {
      StaysUsedUntilFreed(net, used, calls, i, j, a);
    }
  }
}
