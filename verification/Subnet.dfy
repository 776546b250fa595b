/** Address arithmetic of an IPv4 subnet: which addresses `allocateIP` hands out and which ones
    `nodeAddress` keeps for the hosts. Addresses are integers below 2^32; the source computes on
    32-bit words, and every wrap-around is written out. */
module Subnet {
  import opened Options
  import opened Sets

  const Words := 0x1_0000_0000
  const MaxNodePorts := 5

  /** A 32-bit word from a sum or difference that stays within two words of it. */
  function Wrap(x: int): int {
    if x < 0 then x + Words else if x >= Words then x - Words else x
  }

  function Pow2(n: nat): (r: nat)
    ensures r >= 1
  {
    if n == 0 then 1 else 2 * Pow2(n - 1)
  }

  /** An address with its low `n` bits shifted out. */
  function HighBits(ip: nat, n: nat): nat {
    if n == 0 then ip else HighBits(ip / 2, n - 1)
  }

  /** A parsed CIDR: the bits under the mask, as a number, and how many there are. */
  datatype Cidr = Cidr(net: nat, ones: nat)

  predicate Valid(c: Cidr) {
    c.ones <= 32 && c.net < Pow2(c.ones)
  }

  /** What net.ParseCIDR makes of an address and a prefix length. */
  function Parse(ip: nat, ones: nat): Cidr
    requires ones <= 32
  {
    Cidr(HighBits(ip, 32 - ones), ones)
  }

  /** Same bits under the mask. */
  predicate Contains(c: Cidr, ip: nat)
    requires c.ones <= 32
  {
    HighBits(ip, 32 - c.ones) == c.net
  }

  function Size(c: Cidr): nat
    requires c.ones <= 32
  {
    Pow2(32 - c.ones)
  }

  function Base(c: Cidr): nat
    requires c.ones <= 32
  {
    c.net * Size(c)
  }

  /** Base plus size less two, in 32-bit words; the size of a /0 shifts out to zero. */
  function LastHost(c: Cidr): int
    requires c.ones <= 32
  {
    Wrap(Wrap(Base(c) + Wrap(Size(c))) - 2)
  }

  function NodeAddress(c: Cidr, rank: int): Option<nat>
    requires Valid(c)
  {
    if rank < 0 || rank >= MaxNodePorts then None
    else
      var addr := Wrap(LastHost(c) - rank);
      if 0 <= addr && Contains(c, addr) then Some(addr) else None
  }

  /** The base's first three octets, and `i` as the last. */
  function Candidate(c: Cidr, i: nat): nat
    requires c.ones <= 32
  {
    Base(c) / 256 * 256 + i
  }

  /** Candidate `i` is in the subnet and below the addresses kept for the hosts. */
  predicate Offered(c: Cidr, i: nat)
    requires c.ones <= 32
  {
    && 10 <= i < 250 && Contains(c, Candidate(c, i))
    && Candidate(c, i) <= Wrap(LastHost(c) - MaxNodePorts)
  }

  /** The first offered candidate from `i` on that is not used. */
  function FirstFree(c: Cidr, used: set<nat>, i: nat): (r: Option<nat>)
    requires c.ones <= 32 && 10 <= i <= 250
    ensures r.Some? ==> exists k :: IsFirst(c, used, i, k) && r.value == Candidate(c, k)
    ensures r.None? ==> forall k :: i <= k < 250 && Offered(c, k) ==> Candidate(c, k) in used
    decreases 250 - i
  {
    hide Candidate, Offered;
    if i == 250 then None
    else if Offered(c, i) && Candidate(c, i) !in used then
      assert IsFirst(c, used, i, i);
      Some(Candidate(c, i))
    else
      var r := FirstFree(c, used, i + 1);
      assert forall k :: IsFirst(c, used, i + 1, k) ==> IsFirst(c, used, i, k);
      r
  }

  ghost predicate IsFirst(c: Cidr, used: set<nat>, i: nat, k: nat)
    requires c.ones <= 32
  {
    && i <= k < 250 && Offered(c, k) && Candidate(c, k) !in used
    && forall j :: i <= j < k && Offered(c, j) ==> Candidate(c, j) in used
  }

  /** The scan of `allocateIP`. */
  method AllocateIP(c: Cidr, used: set<nat>) returns (ip: Option<nat>)
    requires c.ones <= 32
    ensures ip == FirstFree(c, used, 10)
  {
    hide Candidate, LastHost, Contains, Wrap;
    var i := 10;
    while i < 250
      invariant 10 <= i <= 250
      invariant FirstFree(c, used, 10) == FirstFree(c, used, i)
    {
      var cand := Candidate(c, i);
      if Contains(c, cand) {
        if !(cand > Wrap(LastHost(c) - MaxNodePorts)) {
          if cand !in used {
            return Some(cand);
          }
        }
      }
      i := i + 1;
    }
    return None;
  }

  // ---------- the arithmetic, without the wrap-around ----------

  lemma {:induction false} MulMono(a: int, b: int, m: nat)
    requires a <= b
    ensures a * m <= b * m
  {
  }

  lemma {:induction false} Distribute(a: int, b: int, m: int)
    ensures (a + b) * m == a * m + b * m
  {
  }

  lemma {:induction false} Doubled(a: int, p: int)
    ensures a * (2 * p) == 2 * (a * p)
  {
  }

  lemma {:induction false} Pow2Add(a: nat, b: nat)
    ensures Pow2(a + b) == Pow2(a) * Pow2(b)
  {
    if a > 0 {
      Pow2Add(a - 1, b);
      Doubled(Pow2(b), Pow2(a - 1));
    }
  }

  lemma {:induction false} Pow2Constants()
    ensures Pow2(8) == 256 && Pow2(32) == Words
  {
    assert Pow2(4) == 16;
    Pow2Add(4, 4);
    Pow2Add(8, 8);
    Pow2Add(16, 16);
  }

  /** Shifting out `n` bits is dividing by 2^n: the result tells the block of 2^n the address is in. */
  lemma {:induction false} BlockOf(ip: nat, n: nat)
    ensures HighBits(ip, n) * Pow2(n) <= ip < HighBits(ip, n) * Pow2(n) + Pow2(n)
  {
    if n > 0 {
      BlockOf(ip / 2, n - 1);
      Doubled(HighBits(ip, n), Pow2(n - 1));
    }
  }

  lemma {:induction false} BlockIsUnique(ip: nat, n: nat, q: nat)
    requires q * Pow2(n) <= ip < q * Pow2(n) + Pow2(n)
    ensures HighBits(ip, n) == q
  {
    BlockOf(ip, n);
    var h, m := HighBits(ip, n), Pow2(n);
    if h < q {
      MulMono(h + 1, q, m);
      Distribute(h, 1, m);
    } else if h > q {
      MulMono(q + 1, h, m);
      Distribute(q, 1, m);
    }
  }

  /** A subnet is a block that ends within the address space, and holds exactly its block. */
  lemma {:induction false} SubnetIsABlock(c: Cidr, ip: nat)
    requires Valid(c)
    ensures 1 <= Size(c) <= Words && Base(c) + Size(c) <= Words
    ensures Contains(c, ip) <==> Base(c) <= ip < Base(c) + Size(c)
  {
    Pow2Constants();
    Pow2Add(c.ones, 32 - c.ones);
    MulMono(c.net + 1, Pow2(c.ones), Size(c));
    Distribute(c.net, 1, Size(c));
    BlockOf(ip, 32 - c.ones);
    if Base(c) <= ip < Base(c) + Size(c) {
      BlockIsUnique(ip, 32 - c.ones, c.net);
    }
  }

  lemma {:induction false} ParseIsValid(ip: nat, ones: nat)
    requires ip < Words && ones <= 32
    ensures Valid(Parse(ip, ones)) && Contains(Parse(ip, ones), ip)
  {
    var h, m := HighBits(ip, 32 - ones), Pow2(32 - ones);
    BlockOf(ip, 32 - ones);
    Pow2Constants();
    Pow2Add(ones, 32 - ones);
    if h >= Pow2(ones) {
      MulMono(Pow2(ones), h, m);
    }
  }

  lemma {:induction false} LastHostValue(c: Cidr)
    requires Valid(c)
    ensures LastHost(c) == if Base(c) + Size(c) >= 2 then Base(c) + Size(c) - 2 else Words - 1
    ensures Size(c) == Words ==> Base(c) == 0
  {
    SubnetIsABlock(c, 0);
    hide Base, Size, Valid;
  }

  /** What is handed out, said plainly: the addresses of the base's own /24 with last octet 10 to 249
      that leave the top six of the subnet free. */
  lemma {:induction false} OfferedExactly(c: Cidr, i: nat)
    requires Valid(c)
    ensures Offered(c, i) <==>
            10 <= i < 250 && Base(c) <= Candidate(c, i) && Candidate(c, i) + 7 <= Base(c) + Size(c)
  {
    SubnetIsABlock(c, Candidate(c, i));
    LastHostValue(c);
    hide Base, Size, Valid, Contains, LastHost;
  }

  /** Candidate `i` is the address of the base's own /24 whose last octet is `i`. */
  lemma {:induction false} CandidateIs(c: Cidr, i: nat, ip: nat)
    requires c.ones <= 32 && i < 256
    ensures ip == Candidate(c, i) <==> ip / 256 == Base(c) / 256 && ip % 256 == i
  {
    hide Base;
  }

  /** Hosts of different rank get different addresses, all within the subnet's top six. */
  lemma {:induction false} NodeAddressesDistinct(c: Cidr, r: int, t: int)
    requires Valid(c) && NodeAddress(c, r).Some?
    ensures Contains(c, NodeAddress(c, r).value)
    ensures Base(c) + Size(c) < NodeAddress(c, r).value + 7
    ensures NodeAddress(c, t) == NodeAddress(c, r) ==> t == r
  {
    SubnetIsABlock(c, NodeAddress(c, r).value);
    LastHostValue(c);
    hide Base, Size, Valid, Contains, LastHost;
  }

  /** A host has an address exactly when its rank is 0 to 4 and the subnet reaches down that far below its
      broadcast address. */
  lemma {:induction false} NodeAddressIs(c: Cidr, r: int)
    requires Valid(c)
    ensures NodeAddress(c, r) ==
            if 0 <= r < 5 && r + 2 <= Size(c) then Some(Base(c) + Size(c) - 2 - r) else None
  {
    LastHostValue(c);
    SubnetIsABlock(c, 0);
    if 0 <= r < 5 && Wrap(LastHost(c) - r) >= 0 {
      SubnetIsABlock(c, Wrap(LastHost(c) - r));
    }
    hide Base, Size, Valid, Contains, LastHost;
  }

  /** For every subnet from /0 to /32: an address handed out to a compute is in the subnet, was not in
      use, and is never one a host holds. */
  lemma {:induction false} AllocationIsClear(c: Cidr, used: set<nat>, rank: int)
    requires Valid(c) && FirstFree(c, used, 10).Some?
    ensures var ip := FirstFree(c, used, 10).value;
            && ip < Words && Contains(c, ip) && ip !in used
            && NodeAddress(c, rank) != Some(ip)
  {
    var k :| IsFirst(c, used, 10, k) && FirstFree(c, used, 10).value == Candidate(c, k);
    OfferedExactly(c, k);
    SubnetIsABlock(c, Candidate(c, k));
    if NodeAddress(c, rank).Some? {
      NodeAddressesDistinct(c, rank, rank);
    }
  }

  // ---------- running out ----------

  /** The candidates still to be tried: at most 240 of them, whatever the subnet. */
  function Left(c: Cidr, used: set<nat>): set<nat>
    requires c.ones <= 32
  {
    set k: nat | 10 <= k < 250 && Offered(c, k) && Candidate(c, k) !in used
  }

  lemma {:induction false} LeftIsBounded(c: Cidr, used: set<nat>)
    requires c.ones <= 32
    ensures |Left(c, used)| <= 240
  {
    SubsetSize(Left(c, used), Octets(240));
  }

  /** The last octets from 10 on. */
  ghost function Octets(n: nat): (r: set<nat>)
    ensures |r| == n && forall k :: k in r <==> 10 <= k < 10 + n
  {
    if n == 0 then {} else Octets(n - 1) + {9 + n}
  }

  /** Marking the address just tried as used leaves strictly fewer to try. */
  lemma {:induction false} EachTryCosts(c: Cidr, used: set<nat>)
    requires c.ones <= 32 && FirstFree(c, used, 10).Some?
    ensures |Left(c, used + {FirstFree(c, used, 10).value})| < |Left(c, used)|
  {
    hide Offered, Candidate;
    var ip := FirstFree(c, used, 10).value;
    var k :| IsFirst(c, used, 10, k) && ip == Candidate(c, k);
    assert k in Left(c, used) && k !in Left(c, used + {ip});
    SubsetSize(Left(c, used + {ip}), Left(c, used) - {k});
  }
}
