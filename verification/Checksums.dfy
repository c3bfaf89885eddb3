/**
 * The Internet checksum and the tunnelled packet of src/Transmitter.cpp:831-896 (section 1 of RFC 1071, section
 * 3.1 of RFC 791).
 */
module Checksums {
  import opened Bytes
  import opened EncodingSymbols

  /** The longest buffer whose 16-bit words cannot overflow a 32-bit sum. */
  const MAX_SUMMED := 131072

  /** The sum of the big-endian words; a last odd byte counts as the upper half of one. */
  function Sum(b: seq<Byte>): nat {
    if |b| == 0 then 0
    else if |b| == 1 then b[0] as nat * 0x100
    else b[0] as nat * 0x100 + b[1] + Sum(b[2..])
  }

  lemma {:induction false} SumBound(b: seq<Byte>)
    ensures Sum(b) <= (|b| + 1) / 2 * 0xFFFF
  {
    if |b| >= 2 {
      SumBound(b[2..]);
    }
  }

  /** Adds the carries back in until none is left. */
  function Fold(n: nat): nat {
    if n < 0x1_0000 then n else Fold(n % 0x1_0000 + n / 0x1_0000)
  }

  /** Folding keeps the sum modulo 65535, and only 0 folds to 0. */
  lemma {:induction false} FoldIsModulo(n: nat)
    ensures Fold(n) < 0x1_0000 && Fold(n) % 0xFFFF == n % 0xFFFF && (Fold(n) == 0 <==> n == 0)
    decreases n
  {
    if n >= 0x1_0000 {
      var m := n % 0x1_0000 + n / 0x1_0000;
      assert n == m + 0xFFFF * (n / 0x1_0000);
      AddMultiple(m, n / 0x1_0000);
      FoldIsModulo(m);
    }
  }

  lemma AddMultiple(m: nat, q: nat)
    ensures (m + 0xFFFF * q) % 0xFFFF == m % 0xFFFF
  {
  }

  /** What `calculate_sum` returns, as the number its two bytes in memory spell. */
  function Checksum(b: seq<Byte>): (r: U16)
  {
    FoldIsModulo(Sum(b));
    0xFFFF - Fold(Sum(b))
  }

  lemma {:induction false} SumSplit(b: seq<Byte>, i: nat)
    requires i % 2 == 0 && i <= |b|
    ensures Sum(b) == Sum(b[..i]) + Sum(b[i..])
  {
    if i == 0 {
      assert b[0..] == b;
    } else {
      assert b[..i][2..] == b[2..][..i - 2] && b[2..][i - 2..] == b[i..];
      SumSplit(b[2..], i - 2);
    }
  }

  /** `calculate_sum`: the 32-bit accumulator never overflows. */
  method CalculateSum(b: seq<Byte>) returns (r: U16)
    requires |b| <= MAX_SUMMED
    ensures r == Checksum(b)
  {
    var cksum: U32 := 0;
    var at, len := 0, |b|;
    while len > 1
      invariant 0 <= at && at % 2 == 0 && 0 <= len && at + len == |b|
      invariant cksum == Sum(b[..at])
    {
      SumSplit(b[..at + 2], at);
      assert b[..at + 2][..at] == b[..at] && b[..at + 2][at..] == [b[at], b[at + 1]];
      PairSum(b[at], b[at + 1]);
      SumBound(b[..at + 2]);
      cksum := cksum + b[at] as int * 0x100 + b[at + 1];
      at, len := at + 2, len - 2;
    }
    SumSplit(b, at);
    SumBound(b);
    if len > 0 {
      cksum := cksum + b[at] as int * 0x100;
    }
    assert cksum == Sum(b);
    while cksum / 0x1_0000 > 0
      invariant Fold(cksum) == Fold(Sum(b))
      decreases cksum
    {
      cksum := cksum % 0x1_0000 + cksum / 0x1_0000;
    }
    r := 0xFFFF - cksum;
  }

  lemma PairSum(x: Byte, y: Byte)
    ensures Sum([x, y]) == x as nat * 0x100 + y
  {
    assert [x, y][2..] == [];
  }

  /** A value stored in an aligned field of zeros adds itself to the sum. */
  lemma SumWithField(b: seq<Byte>, i: nat, c: U16)
    requires i % 2 == 0 && i + 2 <= |b| && b[i] == b[i + 1] == 0
    ensures Sum(Splice(b, i, Be16(c))) == Sum(b) + c
  {
    SumAt(b, i);
    SumAt(Splice(b, i, Be16(c)), i);
    FieldSpliced(b, i, Be16(c));
    assert c == c / 0x100 % 0x100 * 0x100 + c % 0x100;
  }

  lemma SumAt(b: seq<Byte>, i: nat)
    requires i % 2 == 0 && i + 2 <= |b|
    ensures Sum(b) == Sum(b[..i]) + (b[i] as nat * 0x100 + b[i + 1]) + Sum(b[i + 2..])
  {
    SumSplit(b, i);
    assert b[i..][2..] == b[i + 2..];
  }

  lemma FieldSpliced(b: seq<Byte>, i: nat, field: seq<Byte>)
    requires i + 2 <= |b| && |field| == 2
    ensures var d := Splice(b, i, field);
      d[..i] == b[..i] && d[i] == field[0] && d[i + 1] == field[1] && d[i + 2..] == b[i + 2..]
  {
  }

  /** A buffer that carries its own checksum in an aligned field, zero before, sums to 0. */
  lemma ChecksumVerifies(b: seq<Byte>, i: nat)
    requires i % 2 == 0 && i + 2 <= |b| && b[i] == b[i + 1] == 0
    ensures Checksum(Splice(b, i, Be16(Checksum(b)))) == 0
  {
    var c := Checksum(b);
    SumWithField(b, i, c);
    FoldIsModulo(Sum(b));
    FoldIsModulo(Sum(b) + c);
    Complement(Sum(b), Fold(Sum(b)), Fold(Sum(b) + c));
  }

  lemma Complement(sum: nat, folded: nat, total: nat)
    requires folded < 0x1_0000 && folded % 0xFFFF == sum % 0xFFFF && (folded == 0 <==> sum == 0)
    requires total < 0x1_0000 && total % 0xFFFF == (sum + (0xFFFF - folded)) % 0xFFFF
    requires total == 0 <==> sum + (0xFFFF - folded) == 0
    ensures total == 0xFFFF
  {
    var q := sum / 0xFFFF - folded / 0xFFFF;
    assert sum - folded == 0xFFFF * q;
    assert sum + (0xFFFF - folded) == 0xFFFF * (q + 1);
    assert (0xFFFF * (q + 1)) % 0xFFFF == 0;
  }

  // ---------------------------------------------------------------------------------------------
  // The tunnelled packet
  // ---------------------------------------------------------------------------------------------

  const UDP: Byte := 17
  const TTL: Byte := 63

  function PseudoHeader(source: U32, dest: U32, udpLength: nat): (s: seq<Byte>)
    ensures |s| == 12
  {
    Be32(source) + Be32(dest) + [0, UDP] + Be16(udpLength)
  }

  function UdpHeader(port: U16, udpLength: nat, sum: U16): (s: seq<Byte>)
    ensures |s| == 8
  {
    Be16(port) + Be16(port) + Be16(udpLength) + Be16(sum)
  }

  function IpHeader(source: U32, dest: U32, size: nat, check: U16): (s: seq<Byte>)
    ensures |s| == 20
  {
    [0x45, 0] + Be16(size) + [0, 0, 0, 0] + [TTL, UDP] + Be16(check) + Be32(source) + Be32(dest)
  }

  lemma PartsRead(s: seq<Byte>, i: nat, n: nat)
    ensures i + 2 <= |s| && s[i..i + 2] == Be16(n) ==> Read16(s, i) == n % 0x1_0000
    ensures i + 4 <= |s| && s[i..i + 4] == Be32(n) ==> Read32(s, i) == n % 0x1_0000_0000
  {
    if i + 2 <= |s| && s[i..i + 2] == Be16(n) {
      ReadBe16(s, i, n);
    }
    if i + 4 <= |s| && s[i..i + 4] == Be32(n) {
      ReadBe32(s, i, n);
    }
  }

  /** The IPv4 header by position (section 3.1 of RFC 791): no options, not fragmented, 63 hops, UDP. */
  ghost predicate IsIpHeader(h: seq<Byte>, source: U32, dest: U32, size: nat) {
    && |h| >= 20 && h[0] == 0x45 && h[1] == 0 && Read16(h, 2) == size % 65536
    && h[4] == h[5] == h[6] == h[7] == 0 && h[8] == 63 && h[9] == 17
    && Read32(h, 12) == source && Read32(h, 16) == dest
  }

  /** The UDP header (RFC 768): both ports are the one sent to. */
  ghost predicate IsUdpHeader(h: seq<Byte>, at: nat, port: U16, udpLength: nat) {
    at + 8 <= |h| && Read16(h, at) == Read16(h, at + 2) == port && Read16(h, at + 4) == udpLength % 65536
  }

  /** The pseudo header a UDP checksum covers (RFC 768). */
  ghost predicate IsPseudoHeader(h: seq<Byte>, source: U32, dest: U32, udpLength: nat) {
    && |h| >= 12 && Read32(h, 0) == source && Read32(h, 4) == dest
    && h[8] == 0 && h[9] == 17 && Read16(h, 10) == udpLength % 65536
  }

  lemma IpHeaderFields(source: U32, dest: U32, size: nat, check: U16)
    ensures IsIpHeader(IpHeader(source, dest, size, check), source, dest, size)
    ensures Read16(IpHeader(source, dest, size, check), 10) == check
  {
    var h := IpHeader(source, dest, size, check);
    hide Read16, Read32, Be16, Be32;
    assert h[2..4] == Be16(size) && h[10..12] == Be16(check);
    assert h[12..16] == Be32(source) && h[16..20] == Be32(dest);
    PartsRead(h, 2, size);
    PartsRead(h, 10, check);
    PartsRead(h, 12, source);
    PartsRead(h, 16, dest);
  }

  lemma UdpHeaderFields(port: U16, udpLength: nat, sum: U16)
    ensures IsUdpHeader(UdpHeader(port, udpLength, sum), 0, port, udpLength)
    ensures Read16(UdpHeader(port, udpLength, sum), 6) == sum
  {
    var h := UdpHeader(port, udpLength, sum);
    hide Read16, Read32, Be16, Be32;
    assert h[0..2] == Be16(port) == h[2..4] && h[4..6] == Be16(udpLength) && h[6..8] == Be16(sum);
    PartsRead(h, 0, port);
    PartsRead(h, 2, port);
    PartsRead(h, 4, udpLength);
    PartsRead(h, 6, sum);
  }

  lemma PseudoHeaderFields(source: U32, dest: U32, udpLength: nat)
    ensures IsPseudoHeader(PseudoHeader(source, dest, udpLength), source, dest, udpLength)
  {
    var h := PseudoHeader(source, dest, udpLength);
    hide Read16, Read32, Be16, Be32;
    assert h[0..4] == Be32(source) && h[4..8] == Be32(dest) && h[10..12] == Be16(udpLength);
    PartsRead(h, 0, source);
    PartsRead(h, 4, dest);
    PartsRead(h, 10, udpLength);
  }

  /** The checksum a UDP packet is sent with. */
  function UdpSum(source: U32, dest: U32, port: U16, data: seq<Byte>): U16 {
    Checksum(PseudoHeader(source, dest, |data| + 8) + UdpHeader(port, |data| + 8, 0) + data)
  }

  function IpSum(source: U32, dest: U32, size: nat): U16 {
    Checksum(IpHeader(source, dest, size, 0))
  }

  /** `create_udp_pkt`: the pseudo header is written just in front of the packet at `at`. */
  method CreateUdpPacket(buf: array<Byte>, at: nat, source: U32, dest: U32, port: U16, data: seq<Byte>)
    requires 12 <= at && at + 8 + |data| <= buf.Length && 20 + |data| <= MAX_SUMMED
    modifies buf
    ensures buf[..] == Splice(old(buf[..]), at - 12,
              PseudoHeader(source, dest, |data| + 8)
              + UdpHeader(port, |data| + 8, UdpSum(source, dest, port, data)) + data)
    ensures IsPseudoHeader(buf[at - 12..at], source, dest, |data| + 8)
    ensures IsUdpHeader(buf[at..at + 8], 0, port, |data| + 8) && buf[at + 8..at + 8 + |data|] == data
    ensures Checksum(buf[at - 12..at + 8 + |data|]) == 0
  {
    hide PseudoHeader, UdpHeader, IsPseudoHeader, IsUdpHeader;
    var pseudo, header := PseudoHeader(source, dest, |data| + 8), UdpHeader(port, |data| + 8, 0);
    CopyInto(pseudo, buf, at - 12);
    CopyInto(header, buf, at);
    CopyInto(data, buf, at + 8);
    SpliceAppend(old(buf[..]), at - 12, pseudo, header);
    SpliceAppend(old(buf[..]), at - 12, pseudo + header, data);
    var sum := CalculateSum(buf[at - 12..at + 8 + |data|]);
    assert buf[at - 12..at + 8 + |data|] == pseudo + header + data;
    CopyInto(Be16(sum), buf, at + 6);
    PortsThenSum(port, |data| + 8, 0);
    PortsThenSum(port, |data| + 8, sum);
    SumInPlace(old(buf[..]), at - 12, pseudo, Be16(port) + Be16(port) + Be16(|data| + 8), data, sum);
    PseudoHeaderFields(source, dest, |data| + 8);
    UdpHeaderFields(port, |data| + 8, sum);
    TunnelHeadersVerify(source, dest, port, data, 0);
    SplicedParts(old(buf[..]), at - 12, pseudo, UdpHeader(port, |data| + 8, sum), data);
  }

  lemma PortsThenSum(port: U16, udpLength: nat, sum: U16)
    ensures UdpHeader(port, udpLength, sum) == Be16(port) + Be16(port) + Be16(udpLength) + Be16(sum)
  {
  }

  lemma SplicedParts(b: seq<Byte>, at: nat, x: seq<Byte>, y: seq<Byte>, z: seq<Byte>)
    requires at + |x| + |y| + |z| <= |b|
    ensures var s, n, m := Splice(b, at, x + y + z), at + |x|, at + |x| + |y|;
      s[at..n] == x && s[n..m] == y && s[m..m + |z|] == z && s[at..m + |z|] == x + y + z
  {
  }

  lemma SumInPlace(b: seq<Byte>, at: nat, pseudo: seq<Byte>, ports: seq<Byte>, data: seq<Byte>, sum: U16)
    requires |pseudo| == 12 && |ports| == 6 && at + 20 + |data| <= |b|
    ensures Splice(Splice(b, at, pseudo + (ports + Be16(0)) + data), at + 18, Be16(sum)) ==
            Splice(b, at, pseudo + (ports + Be16(sum)) + data)
  {
  }

  /** `create_ip_hdr` */
  method CreateIpHeader(buf: array<Byte>, source: U32, dest: U32, size: nat)
    requires 20 <= buf.Length
    modifies buf
    ensures buf[..] == Splice(old(buf[..]), 0, IpHeader(source, dest, size, IpSum(source, dest, size)))
    ensures IsIpHeader(buf[..20], source, dest, size) && Checksum(buf[..20]) == 0
  {
    hide IpHeader;
    var header := IpHeader(source, dest, size, 0);
    CopyInto(header, buf, 0);
    assert buf[..20] == header;
    var check := CalculateSum(buf[..20]);
    CopyInto(Be16(check), buf, 10);
    IpHeaderInPlace(old(buf[..]), source, dest, size, check);
    IpHeaderFields(source, dest, size, check);
    TunnelHeadersVerify(source, dest, 0, [], size);
    assert buf[..20] == IpHeader(source, dest, size, check);
  }

  lemma IpHeaderInPlace(b: seq<Byte>, source: U32, dest: U32, size: nat, check: U16)
    requires |b| >= 20
    ensures Splice(Splice(b, 0, IpHeader(source, dest, size, 0)), 10, Be16(check)) ==
            Splice(b, 0, IpHeader(source, dest, size, check))
  {
    var front, addresses := [0x45, 0] + Be16(size) + [0, 0, 0, 0] + [TTL, UDP], Be32(source) + Be32(dest);
    CheckInPlace(b, front, addresses, check);
    assert IpHeader(source, dest, size, 0) == front + Be16(0) + addresses;
    assert IpHeader(source, dest, size, check) == front + Be16(check) + addresses;
  }

  lemma CheckInPlace(b: seq<Byte>, front: seq<Byte>, addresses: seq<Byte>, check: U16)
    requires |front| == 10 && |addresses| == 8 && |b| >= 20
    ensures Splice(Splice(b, 0, front + Be16(0) + addresses), 10, Be16(check)) ==
            Splice(b, 0, front + Be16(check) + addresses)
  {
  }

  /** The headers of a tunnelled packet verify: the IPv4 header by itself, the UDP packet with its pseudo header. */
  lemma TunnelHeadersVerify(source: U32, dest: U32, port: U16, data: seq<Byte>, size: nat)
    ensures Checksum(IpHeader(source, dest, size, IpSum(source, dest, size))) == 0
    ensures Checksum(PseudoHeader(source, dest, |data| + 8)
                     + UdpHeader(port, |data| + 8, UdpSum(source, dest, port, data)) + data) == 0
  {
    var ip := IpHeader(source, dest, size, 0);
    ChecksumVerifies(ip, 10);
    assert IpHeader(source, dest, size, IpSum(source, dest, size)) == Splice(ip, 10, Be16(IpSum(source, dest, size)));
    var udp := PseudoHeader(source, dest, |data| + 8) + UdpHeader(port, |data| + 8, 0) + data;
    ChecksumVerifies(udp, 18);
    assert PseudoHeader(source, dest, |data| + 8) + UdpHeader(port, |data| + 8, UdpSum(source, dest, port, data)) + data
           == Splice(udp, 18, Be16(UdpSum(source, dest, port, data)));
  }

  /** What the send tick does with a packet when there is a tunnel (src/Transmitter.cpp:757-762). */
  method Tunnelled(source: U32, dest: U32, port: U16, data: seq<Byte>) returns (buf: array<Byte>)
    requires 20 + |data| <= MAX_SUMMED
    ensures fresh(buf) && buf.Length == |data| + 28
    ensures Checksum(buf[..20]) == 0
    ensures Checksum(PseudoHeader(source, dest, |data| + 8) + buf[20..]) == 0
    ensures buf[28..] == data
    ensures IsIpHeader(buf[..], source, dest, |data| + 28) && IsUdpHeader(buf[..], 20, port, |data| + 8)
    ensures IsPseudoHeader(PseudoHeader(source, dest, |data| + 8), source, dest, |data| + 8)
  {
    hide IpHeader, UdpHeader, PseudoHeader, IsIpHeader, IsUdpHeader, IsPseudoHeader, IpSum, UdpSum, Checksum;
    buf := new Byte[|data| + 28];
    CreateUdpPacket(buf, 20, source, dest, port, data);
    CreateIpHeader(buf, source, dest, |data| + 28);
    assert buf[..20] == IpHeader(source, dest, |data| + 28, IpSum(source, dest, |data| + 28));
    assert buf[20..] == UdpHeader(port, |data| + 8, UdpSum(source, dest, port, data)) + data;
    TunnelHeadersVerify(source, dest, port, data, |data| + 28);
    assert PseudoHeader(source, dest, |data| + 8) + buf[20..] ==
           PseudoHeader(source, dest, |data| + 8)
           + UdpHeader(port, |data| + 8, UdpSum(source, dest, port, data)) + data;
    HeadersSideBySide(source, dest, port, data, buf[..]);
  }

  lemma HeadersSideBySide(source: U32, dest: U32, port: U16, data: seq<Byte>, buf: seq<Byte>)
    requires |buf| == |data| + 28
    requires buf[..20] == IpHeader(source, dest, |data| + 28, IpSum(source, dest, |data| + 28))
    requires buf[20..28] == UdpHeader(port, |data| + 8, UdpSum(source, dest, port, data))
    ensures IsIpHeader(buf, source, dest, |data| + 28) && IsUdpHeader(buf, 20, port, |data| + 8)
    ensures IsPseudoHeader(PseudoHeader(source, dest, |data| + 8), source, dest, |data| + 8)
  {
    hide IpHeader, UdpHeader, PseudoHeader, IpSum, UdpSum;
    IpHeaderFields(source, dest, |data| + 28, IpSum(source, dest, |data| + 28));
    UdpHeaderFields(port, |data| + 8, UdpSum(source, dest, port, data));
    PseudoHeaderFields(source, dest, |data| + 8);
    assert forall i :: 0 <= i < 20 ==> buf[i] == buf[..20][i];
    assert forall i :: 20 <= i < 28 ==> buf[i] == buf[20..28][i - 20];
  }
}
