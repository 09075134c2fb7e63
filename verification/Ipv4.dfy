/** Listing the addresses of IPv4 networks and ranges in wrapping 32-bit arithmetic. */
module Ipv4 {
  import opened Bytes
  import opened Wrappers

  const HALF := 0x8000_0000
  const MAX_INT32 := 0x7fff_ffff
  const LEN := 4

  type int32 = n: int | -0x8000_0000 <= n < 0x8000_0000

  type IP = ip: seq<byte> | |ip| == 4 witness [0, 0, 0, 0]

  /** Conversion between the two readings of 32 bits. */
  function Signed(w: word): int32 { if w < HALF then w else w - 0x1_0000_0000 }

  function Unsigned(n: int32): word { if n < 0 then n + 0x1_0000_0000 else n }

  /** Arithmetic on int32 keeps the low 32 bits. */
  function Wrap(n: int): int32 { Signed(n % 0x1_0000_0000) }

  function IpToInt(ip: IP): int32 { Signed(Uint32(ip)) }

  function IntToIP(n: int32): IP { PutUint32(Unsigned(n)) }

  function Pow2(k: nat): (n: nat)
    ensures n >= 1
  {
    if k == 0 then 1 else 2 * Pow2(k - 1)
  }

  /** How many of the low bits of byte i the mask of a prefix leaves to hosts. */
  function HostBits(p: nat, i: nat): (k: nat)
    ensures k <= 8
  {
    if 8 * (i + 1) <= p then 0 else if p <= 8 * i then 8 else 8 * (i + 1) - p
  }

  lemma Powers(k: nat)
    requires k <= 8
    ensures Pow2(k) == [1, 2, 4, 8, 16, 32, 64, 128, 256][k]
  {
    assert Pow2(3) == 8;
    assert Pow2(6) == 8 * Pow2(3);
  }

  /** net.CIDRMask. */
  function MaskByte(p: nat, i: nat): byte { Powers(HostBits(p, i)); 256 - Pow2(HostBits(p, i)) }

  function Mask(p: nat): IP { [MaskByte(p, 0), MaskByte(p, 1), MaskByte(p, 2), MaskByte(p, 3)] }

  /** The bitwise and of a byte and a mask byte, which is 256 less a power of two. */
  function And(b: byte, m: byte): byte { b - b % (256 - m) }

  /** The bitwise or of a byte and the complement of a mask byte. */
  function OrNot(b: byte, m: byte): int { And(b, m) + (255 - m) }

  /** IP.Mask. */
  function Masked(ip: IP, mask: IP): IP
  {
    [And(ip[0], mask[0]), And(ip[1], mask[1]), And(ip[2], mask[2]), And(ip[3], mask[3])]
  }

  lemma OrNotFits(b: byte, p: nat, i: nat)
    ensures 0 <= OrNot(b, MaskByte(p, i)) < 256
  {
    Powers(HostBits(p, i));
  }

  lemma {:induction false} Pow2Add(a: nat, b: nat)
    ensures Pow2(a + b) == Pow2(a) * Pow2(b)
  {
    if a > 0 {
      Pow2Add(a - 1, b);
      assert 2 * (Pow2(a - 1) * Pow2(b)) == (2 * Pow2(a - 1)) * Pow2(b);
    }
  }

  lemma Divided(n: nat, m: nat)
    requires m > 0
    ensures n == n / m * m + n % m && 0 <= n % m < m && n / m >= 0
  {
  }

  /** The multiple of m at or below n. */
  function RoundDown(n: nat, m: nat): (r: nat)
    requires m > 0
    ensures r <= n < r + m
  {
    if n < m then 0 else m + RoundDown(n - m, m)
  }

  lemma {:induction false} RoundsDown(q: nat, m: nat, r: nat)
    requires m > 0 && r < m
    ensures RoundDown(q * m + r, m) == q * m
  {
    if q > 0 {
      RoundsDown(q - 1, m, r);
      Distributes(q, -1, m);
      assert q * m + r - m == (q - 1) * m + r;
      MultipleIsFar(q, m);
    }
  }

  lemma MultipleIsFar(d: int, m: nat)
    ensures (d > 0 ==> d * m >= m) && (d < 0 ==> d * m <= 0 - m)
  {
  }

  lemma Distributes(a: int, b: int, c: int)
    ensures (a + b) * c == a * c + b * c && a * b * c == a * (b * c)
  {
  }

  lemma FitsBelow(r: nat, lo: nat, pw: nat, unit: nat)
    requires r < pw && lo < unit
    ensures r * unit + lo < pw * unit
  {
    assert r * unit <= (pw - 1) * unit;
    Distributes(pw, -1, unit);
  }

  lemma SplitBits(hi: nat, b: nat, pw: nat, q: nat)
    requires pw > 0 && q * pw == 256
    ensures hi * 256 + b == (hi * q + b / pw) * pw + b % pw
  {
    Distributes(hi * q, b / pw, pw);
    Distributes(hi, q, pw);
  }

  /** Where a mask ends inside a byte of n, with hi before and lo after it. */
  lemma CutAt(n: nat, m: nat, hi: nat, b: nat, lo: nat, pw: nat, q: nat, unit: nat)
    requires pw > 0 && q * pw == 256 && lo < unit
    requires n == (hi * 256 + b) * unit + lo && m == pw * unit
    ensures RoundDown(n, m) == n - (b % pw * unit + lo)
  {
    var k, r := hi * q + b / pw, b % pw;
    SplitBits(hi, b, pw, q);
    Distributes(k * pw, r, unit);
    Distributes(k, pw, unit);
    FitsBelow(r, lo, pw, unit);
    RoundsDown(k, m, r * unit + lo);
  }

  /** The number of host addresses of a prefix, broadcast and network included. */
  function Size(p: nat): nat
    requires p <= 32
  {
    Pow2(32 - p)
  }

  /** The byte the mask of a prefix ends in. */
  lemma MaskShape(p: nat, i: nat)
    requires p < 32 && i < LEN
    ensures i < p / 8 ==> MaskByte(p, i) == 255
    ensures i > p / 8 ==> MaskByte(p, i) == 0
    ensures i == p / 8 ==> MaskByte(p, i) == 256 - Pow2(8 - p % 8)
  {
    Powers(HostBits(p, i));
  }

  lemma Units(p: nat)
    requires p < 32
    ensures Size(p) == Pow2(8 - p % 8) * [0x100_0000, 0x1_0000, 256, 1][p / 8] && Pow2(p % 8) * Pow2(8 - p % 8) == 256
  {
    var j := p / 8;
    Pow2Add(8 - p % 8, 24 - 8 * j);
    Pow2Add(p % 8, 8 - p % 8);
    Powers(8);
    Pow2Add(8, 8);
    Pow2Add(16, 8);
    assert 24 - 8 * j == [24, 16, 8, 0][j];
  }

  /** A power of two that divides 256, with the quotient. */
  predicate Divides(pw: nat, q: nat) { 0 < pw <= 256 && q * pw == 256 }

  lemma AndIs(b: byte, pw: nat)
    requires 0 < pw <= 256
    ensures And(b, 256 - pw) == b as int - b as int % pw
  {
  }

  lemma AllOrNone(ip: IP)
    ensures forall i :: 0 <= i < LEN ==> And(ip[i], 0) == 0 && And(ip[i], 255) == ip[i]
  {
  }

  lemma Parts(b0: byte, b1: byte, b2: byte, b3: byte)
    ensures Uint32([b0, b1, b2, b3]) == b0 as int * 0x100_0000 + b1 as int * 0x1_0000 + b2 as int * 256 + b3
  {
  }

  lemma CutsFirst(ip: IP, pw: nat, q: nat)
    requires Divides(pw, q)
    ensures Uint32(Masked(ip, [256 - pw, 0, 0, 0])) == RoundDown(Uint32(ip), pw * 0x100_0000)
  {
    var n: nat, m := Uint32(ip), pw * 0x100_0000;
    var lo, x := (ip[1] as int * 256 + ip[2]) * 256 + ip[3], ip[0] as int % pw;
    assert n == (0 * 256 + ip[0] as int) * 0x100_0000 + lo;
    CutAt(n, m, 0, ip[0], lo, pw, q, 0x100_0000);
    AndIs(ip[0], pw);
    AllOrNone(ip);
    Parts(ip[0] as int - x, 0, 0, 0);
  }

  lemma CutsSecond(ip: IP, pw: nat, q: nat)
    requires Divides(pw, q)
    ensures Uint32(Masked(ip, [255, 256 - pw, 0, 0])) == RoundDown(Uint32(ip), pw * 0x1_0000)
  {
    var n: nat, m := Uint32(ip), pw * 0x1_0000;
    var lo, x := ip[2] as int * 256 + ip[3], ip[1] as int % pw;
    assert n == (ip[0] as int * 256 + ip[1]) * 0x1_0000 + lo;
    CutAt(n, m, ip[0], ip[1], lo, pw, q, 0x1_0000);
    AndIs(ip[1], pw);
    AllOrNone(ip);
    Parts(ip[0], ip[1] as int - x, 0, 0);
  }

  lemma CutsThird(ip: IP, pw: nat, q: nat)
    requires Divides(pw, q)
    ensures Uint32(Masked(ip, [255, 255, 256 - pw, 0])) == RoundDown(Uint32(ip), pw * 256)
  {
    CutAt(Uint32(ip), pw * 256, ip[0] as int * 256 + ip[1], ip[2], ip[3], pw, q, 256);
  }

  lemma CutsFourth(ip: IP, pw: nat, q: nat)
    requires Divides(pw, q)
    ensures Uint32(Masked(ip, [255, 255, 255, 256 - pw])) == RoundDown(Uint32(ip), pw)
  {
    CutAt(Uint32(ip), pw, (ip[0] as int * 256 + ip[1]) * 256 + ip[2], ip[3], 0, pw, q, 1);
  }

  /** The network an address is in: the multiple of the size at or below it. */
  function Network(n: nat, p: nat): nat
    requires p <= 32
  {
    RoundDown(n, Size(p))
  }

  /** Masking an address rounds it down to a multiple of the size of its network. */
  lemma MaskRoundsDown(ip: IP, p: nat)
    requires p <= 32
    ensures Uint32(Masked(ip, Mask(p))) == Network(Uint32(ip), p)
  {
    if p == 32 {
      CutsFourth(ip, 1, 256);
    } else {
      var pw, q := Pow2(8 - p % 8), Pow2(p % 8);
      Units(p);
      Powers(8 - p % 8);
      MaskShape(p, 0);
      MaskShape(p, 1);
      MaskShape(p, 2);
      MaskShape(p, 3);
      if p / 8 == 0 {
        CutsFirst(ip, pw, q);
      } else if p / 8 == 1 {
        CutsSecond(ip, pw, q);
      } else if p / 8 == 2 {
        CutsThird(ip, pw, q);
      } else {
        CutsFourth(ip, pw, q);
      }
    }
  }

  function Inverted(mask: IP): IP { [255 - mask[0], 255 - mask[1], 255 - mask[2], 255 - mask[3]] }

  lemma InvertedMask(p: nat)
    requires p <= 32
    ensures Uint32(Inverted(Mask(p))) == Size(p) - 1
  {
    if p < 32 {
      var pw, j := Pow2(8 - p % 8), p / 8;
      Units(p);
      MaskShape(p, 0);
      MaskShape(p, 1);
      MaskShape(p, 2);
      MaskShape(p, 3);
      InvertedBytes(pw, j, Inverted(Mask(p)));
    }
  }

  lemma InvertedBytes(pw: nat, j: nat, m: IP)
    requires j < LEN && forall i :: 0 <= i < LEN ==> m[i] as int == if i < j then 0 else if i == j then pw - 1 else 255
    ensures Uint32(m) == pw * [0x100_0000, 0x1_0000, 256, 1][j] - 1
  {
    Parts(m[0], m[1], m[2], m[3]);
    assert m == [m[0], m[1], m[2], m[3]];
  }

  /** Calculates the first and last addresses of a network. */
  method NetworkRange(ip: IP, p: nat) returns (first: IP, last: IP)
    requires p <= 32
    ensures Uint32(first) == Network(Uint32(ip), p)
    ensures Uint32(last) == Uint32(first) + (Size(p) - 1)
  {
    var mask := Mask(p);
    first := Masked(ip, mask);
    var bytes := new byte[LEN](_ => 0);
    for i := 0 to LEN
      invariant forall j :: 0 <= j < i ==> bytes[j] == OrNot(ip[j], mask[j])
    {
      OrNotFits(ip[i], p, i);
      bytes[i] := OrNot(ip[i], mask[i]);
    }
    last := bytes[..];
    MaskRoundsDown(ip, p);
    InvertedMask(p);
    LastIs(ip, mask, last);
  }

  lemma LastIs(ip: IP, mask: IP, last: IP)
    requires forall j :: 0 <= j < LEN ==> last[j] == OrNot(ip[j], mask[j])
    ensures Uint32(last) == Uint32(Masked(ip, mask)) + Uint32(Inverted(mask))
  {
  }

  /** The size of a network in int32: it overflows for prefix 1 and is 0 for prefix 0. */
  method NetworkSize(mask: IP) returns (size: int32)
    ensures size == Wrap(Signed(Uint32(Inverted(mask))) as int + 1)
  {
    var m := new byte[LEN](_ => 0);
    for i := 0 to LEN
      invariant forall j :: 0 <= j < i ==> m[j] == 255 - mask[j]
    {
      m[i] := 255 - mask[i];
    }
    assert m[..] == Inverted(mask);
    return Wrap(Signed(Uint32(m[..])) as int + 1);
  }

  /** How many addresses the loop makes room for: the overflow of prefix 1 is undone. */
  lemma MaxIs(p: nat)
    requires p <= 32
    ensures Size(p) <= 0x1_0000_0000 && (p > 0 ==> Size(p) <= HALF) && (p <= 31 ==> Size(p) >= 2)
    ensures Wrap(Wrap(Signed(Size(p) - 1) as int + 1) as int - 2) == if p == 0 then -2 else Size(p) - 2
  {
    Sizes(p);
    if p > 1 {
      InRange(Size(p));
    }
    if p > 0 {
      InRange(Size(p) - 2);
    }
  }

  lemma Sizes(p: nat)
    requires p <= 32
    ensures Size(p) <= Pow2(32) == 0x1_0000_0000 && (p > 0 ==> Size(p) <= HALF) && (p <= 31 ==> Size(p) >= 2)
    ensures (p == 0 ==> Size(p) == 0x1_0000_0000) && (p == 1 ==> Size(p) == HALF) && (p > 1 ==> Size(p) < HALF)
  {
    Powers(8);
    Pow2Add(8, 8);
    Pow2Add(16, 16);
    Pow2Grows(32 - p, 32);
    if p > 0 {
      Pow2Grows(32 - p, 31);
    }
    if p > 1 {
      Pow2Grows(32 - p, 30);
    }
    if p <= 31 {
      Pow2Grows(1, 32 - p);
    }
  }

  lemma {:induction false} Pow2Grows(a: nat, b: nat)
    requires a <= b
    ensures Pow2(a) <= Pow2(b)
  {
    if a < b {
      Pow2Grows(a, b - 1);
    }
  }

  lemma StepsOn(base: word, k: nat)
    requires base as int + k < 0x1_0000_0000
    ensures Unsigned(Wrap(Signed(base) as int + k)) == base as int + k
  {
  }

  /** The addresses strictly between two. */
  function Between(low: nat, high: nat): (ws: seq<word>)
    requires high <= 0xffff_ffff
  {
    if low + 1 >= high then [] else seq(high - low - 1, i requires 0 <= i < high - low - 1 => low + 1 + i)
  }

  function Numbers(ips: seq<IP>): seq<word> { seq(|ips|, i requires 0 <= i < |ips| => Uint32(ips[i])) }

  /**
   Lists the addresses of a network in order, but not its own and its broadcast address; none for prefixes 0,
   31 and 32.
   */
  method GetAvailableIP(ip: IP, p: nat) returns (ips: seq<IP>)
    requires p <= 32
    ensures var network := Network(Uint32(ip), p);
            var broadcast := network + (Size(p) - 1);
            && network <= Uint32(ip) <= broadcast <= 0xffff_ffff
            && Numbers(ips) == if p == 0 then [] else Between(network, broadcast)
  {
    var mask := Mask(p);
    var network := Masked(ip, mask);
    MaskRoundsDown(ip, p);
    AlignedTwice(Uint32(ip), p);
    var firstIP, _ := NetworkRange(network, p);
    var ipNum := IpToInt(firstIP);
    var size := NetworkSize(mask);
    var max := Wrap(size as int - 2);
    MaxIsHosts(p, mask, size, max);
    HostsBetween(p, Uint32(firstIP), max);
    ips := ListHosts(ipNum, max, Uint32(firstIP));
  }

  lemma MaxIsHosts(p: nat, mask: IP, size: int32, max: int32)
    requires p <= 32 && mask == Mask(p) && size == Wrap(Signed(Uint32(Inverted(mask))) as int + 1)
             && max == Wrap(size as int - 2)
    ensures max as int == if p == 0 then -2 else Size(p) - 2
  {
    WrappedSize(p, mask, size);
    MaxIs(p);
  }

  lemma WrappedSize(p: nat, mask: IP, size: int32)
    requires p <= 32 && mask == Mask(p) && size == Wrap(Signed(Uint32(Inverted(mask))) as int + 1)
    ensures 1 <= Size(p) <= 0x1_0000_0000 && size == Wrap(Signed(Size(p) - 1) as int + 1)
  {
    InvertedMask(p);
  }

  lemma HostsBetween(p: nat, base: nat, max: int32)
    requires p <= 32 && max as int == (if p == 0 then -2 else Size(p) - 2) && base + (Size(p) - 1) <= 0xffff_ffff
    ensures base + max < 0xffff_ffff
    ensures (if max <= 0 then [] else Between(base, base + max + 1))
            == if p == 0 then [] else Between(base, base + (Size(p) - 1))
  {
  }

  /** The loop over the hosts: max of them, from the one after the network. */
  method ListHosts(ipNum: int32, max: int32, ghost base: word) returns (ips: seq<IP>)
    requires ipNum == Signed(base) && base as int + max < 0xffff_ffff
    ensures Numbers(ips) == if max <= 0 then [] else Between(base, base + max + 1)
  {
    var pos: int32 := 1;
    ips := [];
    var attempt: int32 := 0;
    while attempt < max
      invariant attempt == |ips| == (if max <= 0 then 0 else attempt) && (attempt <= max || max < 0)
                && (attempt < max ==> pos == attempt + 1)
      invariant forall i :: 0 <= i < |ips| ==> Uint32(ips[i]) == base as int + 1 + i
    {
      var newNum := Wrap(ipNum as int + pos);
      StepsOn(base, pos);
      pos := NextPos(pos, max);
      WordBytes(Unsigned(newNum));
      ips := ips + [IntToIP(newNum)];
      attempt := attempt + 1;
    }
    assert |Numbers(ips)| == if max <= 0 then 0 else max;
  }

  function NextPos(pos: int32, max: int32): (next: int32)
    requires 0 < pos <= max
    ensures pos < max ==> next == pos + 1
  {
    pos % max + 1
  }

  lemma AlignedTwice(n: nat, p: nat)
    requires p <= 32 && n <= 0xffff_ffff
    ensures Network(Network(n, p), p) == Network(n, p) <= n <= Network(n, p) + (Size(p) - 1) <= 0xffff_ffff
  {
    var s, q := Size(p), Pow2(p);
    var k := n / s;
    Divided(n, s);
    RoundsDown(k, s, n % s);
    RoundsDown(k, s, 0);
    Fills(p);
    QuotientBelow(k, q, s, n);
    MultipleAtLeast(q - 1, k, s);
    Distributes(q, -1, s);
  }

  lemma QuotientBelow(k: nat, q: nat, s: nat, n: nat)
    requires k * s <= n < q * s
    ensures k < q
  {
    MultipleIfLess(k, q, s);
  }

  lemma MultipleIfLess(k: nat, q: nat, s: nat)
    ensures k >= q ==> k * s >= q * s
  {
    if k >= q {
      MultipleAtLeast(k, q, s);
    }
  }

  lemma Fills(p: nat)
    requires p <= 32
    ensures Pow2(p) * Size(p) == 0x1_0000_0000
  {
    Pow2Add(p, 32 - p);
    Sizes(p);
  }

  lemma MultipleAtLeast(a: int, b: int, s: nat)
    requires a >= b
    ensures a * s >= b * s
  {
    Distributes(b, a - b, s);
  }

  /** The end of a listing, or that it never ends. */
  datatype Listing = Listed(ips: seq<IP>) | Endless

  /** The addresses from one to another. */
  function Upto(from: nat, to: nat): seq<word>
    requires to <= 0xffff_ffff
  {
    if from > to then [] else seq(to - from + 1, i requires 0 <= i < to - from + 1 => from + i)
  }

  /** The same in the order of int32, where 128.0.0.0 comes before 0.0.0.0. */
  function SignedUpto(from: int32, to: int32): seq<word>
  {
    if from > to then []
    else seq<word>(to - from + 1, i requires 0 <= i < to - from + 1 => Unsigned(Wrap(from as int + i)))
  }

  /**
   Lists a range of addresses, none unless both ends are IPv4: completely and in order exactly when
   both ends are in the same half of the addresses and the end is not 127.255.255.255. Every int32 is
   at most the number of that address, so the loop goes on for ever and collects addresses without limit.
   */
  method GetAvailableIPRange(firstIP: Option<IP>, endIP: Option<IP>) returns (r: Listing)
    ensures r.Endless? <==> firstIP.Some? && endIP.Some? && IpToInt(endIP.value) == MAX_INT32
    ensures r.Listed? && (firstIP.None? || endIP.None?) ==> r.ips == []
    ensures r.Listed? && firstIP.Some? && endIP.Some? ==>
              Numbers(r.ips) == SignedUpto(IpToInt(firstIP.value), IpToInt(endIP.value))
    ensures firstIP.Some? && endIP.Some? ==>
              var first, end := Uint32(firstIP.value), Uint32(endIP.value);
              r.Listed? && Numbers(r.ips) == Upto(first, end) <==> (first < HALF <==> end < HALF) && end != MAX_INT32
  {
    if firstIP.None? || endIP.None? {
      return Listed([]);
    }
    var firstNum, endNum := IpToInt(firstIP.value), IpToInt(endIP.value);
    if endNum == MAX_INT32 {
      return Endless;
    }
    var ips := ListRange(firstNum, endNum);
    RangeExactly(Uint32(firstIP.value), Uint32(endIP.value));
    return Listed(ips);
  }

  method ListRange(firstNum: int32, endNum: int32) returns (ips: seq<IP>)
    requires endNum < MAX_INT32
    ensures Numbers(ips) == SignedUpto(firstNum, endNum)
  {
    var newNum := firstNum;
    ips := [];
    while newNum <= endNum
      invariant newNum == firstNum + |ips| && (|ips| > 0 ==> newNum <= endNum + 1)
      invariant forall i :: 0 <= i < |ips| ==> Uint32(ips[i]) == Unsigned(Wrap(firstNum as int + i))
      decreases endNum - newNum
    {
      InRange(newNum);
      InRange(newNum as int + 1);
      WordBytes(Unsigned(newNum));
      ips := ips + [IntToIP(newNum)];
      newNum := Wrap(newNum as int + 1);
    }
  }

  lemma InRange(n: int)
    requires -HALF <= n < HALF
    ensures Wrap(n) == n
  {
  }

  predicate Past(first: int32, end: int32, k: nat) { Wrap(first as int + k) > end }

  /** The loop stops somewhere exactly when the end is not 127.255.255.255. */
  lemma StopsExactly(first: int32, end: int32)
    ensures (exists k: nat :: Past(first, end, k)) <==> end != MAX_INT32
  {
    if end != MAX_INT32 {
      InRange(MAX_INT32);
      assert Past(first, end, MAX_INT32 - first);
    }
  }

  /** The order of int32 is that of the addresses exactly for ends in the same half of them. */
  lemma RangeExactly(first: word, end: word)
    ensures SignedUpto(Signed(first), Signed(end)) == Upto(first, end) <==> (first < HALF <==> end < HALF)
  {
    var a, b := SignedUpto(Signed(first), Signed(end)), Upto(first, end);
    if first < HALF <==> end < HALF {
      forall i | 0 <= i < |a|
        ensures a[i] == b[i]
      {
        StepsOn(first, i);
      }
      assert a == b;
    } else {
      assert |a| != |b|;
    }
  }
}
