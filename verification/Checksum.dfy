/**
 The Internet checksum in_cksum and its use by udp_write.

 The reference is the one's complement sum of section 1 of RFC 1071: 16-bit
 addition whose carry is added back at every step.
 */
module Checksum {
  import opened Common

  /** How the host lays out a 16-bit integer in memory. */
  datatype Order = BigEnd | LittleEnd

  function Load(order: Order, first: Byte, second: Byte): (w: nat)
    ensures w < 0x1_0000
  {
    if order == BigEnd then first as int * 256 + second else second as int * 256 + first
  }

  function Store(order: Order, w: nat): (bs: seq<Byte>)
    requires w < 0x1_0000
    ensures |bs| == 2 && Load(order, bs[0], bs[1]) == w
  {
    if order == BigEnd then [w / 256, w % 256] else [w % 256, w / 256]
  }

  /** The 16-bit words of a packet; an odd last byte is followed by a zero byte. */
  function WordsIn(order: Order, p: seq<Byte>): (ws: seq<nat>)
    ensures |ws| == (|p| + 1) / 2
    ensures forall k :: 0 <= k < |ws| ==>
      ws[k] == Load(order, p[2 * k], if 2 * k + 1 < |p| then p[2 * k + 1] else 0) < 0x1_0000
  {
    seq((|p| + 1) / 2, k requires 0 <= k < (|p| + 1) / 2 =>
      Load(order, p[2 * k], if 2 * k + 1 < |p| then p[2 * k + 1] else 0))
  }

  function Total(ws: seq<nat>): nat {
    if ws == [] then 0 else Total(ws[..|ws| - 1]) + ws[|ws| - 1]
  }

  /** One's complement addition: the carry out of bit 15 is added back in. */
  function OnesAdd(a: nat, b: nat): (s: nat)
    requires a < 0x1_0000 && b < 0x1_0000
    ensures s < 0x1_0000
  {
    if a + b < 0x1_0000 then a + b else a + b - 0xffff
  }

  function OnesSum(ws: seq<nat>): (s: nat)
    requires forall k :: 0 <= k < |ws| ==> ws[k] < 0x1_0000
    ensures s < 0x1_0000
  {
    if ws == [] then 0 else OnesAdd(OnesSum(ws[..|ws| - 1]), ws[|ws| - 1])
  }

  function Complement(s: nat): (c: nat)
    requires s < 0x1_0000
    ensures c < 0x1_0000
  {
    0xffff - s
  }

  /** The checksum of RFC 1071. */
  function Cksum(order: Order, p: seq<Byte>): (c: nat)
    ensures c < 0x1_0000
  {
    Complement(OnesSum(WordsIn(order, p)))
  }

  // --------------------------------------------------------- deferred carries

  /** What a total is worth as a one's complement number: zero only for zero. */
  function Residue(n: nat): (r: nat)
    ensures r < 0x1_0000
  {
    if n == 0 then 0 else (n - 1) % 0xffff + 1
  }

  /** Folding until no carry remains. */
  function FoldAll(n: nat): (r: nat)
    ensures r < 0x1_0000
  {
    if n < 0x1_0000 then n else FoldAll(n / 0x1_0000 + n % 0x1_0000)
  }

  lemma {:induction false} FoldAllIsResidue(n: nat)
    ensures FoldAll(n) == Residue(n)
    decreases n
  {
    if n >= 0x1_0000 {
      FoldAllIsResidue(n / 0x1_0000 + n % 0x1_0000);
      FoldKeepsResidue(n);
    }
  }

  lemma FoldKeepsResidue(n: nat)
    requires n >= 0x1_0000
    ensures Residue(n / 0x1_0000 + n % 0x1_0000) == Residue(n)
  {
    var q, r := n / 0x1_0000, n % 0x1_0000;
    assert n - 1 == 0xffff * q + (q + r - 1);
    AddMultiple(q + r - 1, q);
  }

  lemma AddMultiple(x: nat, q: nat)
    ensures (0xffff * q + x) % 0xffff == x % 0xffff
  {
    assert 0xffff * q + x == 0xffff * (q + x / 0xffff) + x % 0xffff;
  }

  /** The source's two folds of a 32-bit sum, cut to 16 bits. */
  function TwoFolds(n: nat): (r: nat)
    ensures r < 0x1_0000
  {
    var s := n / 0x1_0000 + n % 0x1_0000;
    (s + s / 0x1_0000) % 0x1_0000
  }

  lemma LastFold(s: nat)
    requires s <= 0x1_fffe
    ensures (s + s / 0x1_0000) % 0x1_0000 == FoldAll(s)
  {
    if s >= 0x1_0000 {
      assert s / 0x1_0000 == 1 && s % 0x1_0000 == s - 0x1_0000;
      assert FoldAll(s) == FoldAll(s - 0xffff) == s - 0xffff;
    }
  }

  lemma FirstFold(n: nat)
    requires n < 0x1_0000_0000
    ensures n / 0x1_0000 + n % 0x1_0000 <= 0x1_fffe
    ensures FoldAll(n) == FoldAll(n / 0x1_0000 + n % 0x1_0000)
  {
    assert n / 0x1_0000 < 0x1_0000;
    if n < 0x1_0000 {
      assert n / 0x1_0000 == 0 && n % 0x1_0000 == n;
    }
  }

  /** Two folds are enough for any 32-bit sum. */
  lemma TwoFoldsAreEnough(n: nat)
    requires n < 0x1_0000_0000
    ensures TwoFolds(n) == FoldAll(n)
  {
    FirstFold(n);
    LastFold(n / 0x1_0000 + n % 0x1_0000);
  }

  lemma OnesAddResidue(n: nat, w: nat)
    requires w < 0x1_0000
    ensures OnesAdd(Residue(n), w) == Residue(n + w)
  {
    if n > 0 {
      var q, r := (n - 1) / 0xffff, Residue(n);
      assert n - 1 == 0xffff * q + (r - 1);
      AddMultiple(r + w - 1, q);
      assert n + w - 1 == 0xffff * q + (r + w - 1);
      if r + w >= 0x1_0000 {
        AddMultiple(r + w - 0x1_0000, 1);
      }
    }
  }

  /** Adding everything first and folding later gives the one's complement sum. */
  lemma {:induction false} OnesSumIsResidue(ws: seq<nat>)
    requires forall k :: 0 <= k < |ws| ==> ws[k] < 0x1_0000
    ensures OnesSum(ws) == Residue(Total(ws))
  {
    if ws != [] {
      var n := |ws| - 1;
      OnesSumIsResidue(ws[..n]);
      OnesAddResidue(Total(ws[..n]), ws[n]);
    }
  }

  lemma {:induction false} TotalBound(ws: seq<nat>)
    requires forall k :: 0 <= k < |ws| ==> ws[k] < 0x1_0000
    ensures Total(ws) <= 0xffff * |ws|
  {
    if ws != [] {
      TotalBound(ws[..|ws| - 1]);
    }
  }

  /** Only a packet of zero bytes has the sum zero. */
  lemma ZeroOnlyForZeros(order: Order, p: seq<Byte>)
    ensures Cksum(order, p) == 0xffff <==> forall i :: 0 <= i < |p| ==> p[i] == 0
  {
    var ws := WordsIn(order, p);
    OnesSumIsResidue(ws);
    TotalZero(ws);
    if Total(ws) == 0 {
      forall i | 0 <= i < |p| ensures p[i] == 0 {
        assert ws[i / 2] == 0;
      }
    }
  }

  lemma {:induction false} TotalZero(ws: seq<nat>)
    ensures Total(ws) == 0 <==> forall k :: 0 <= k < |ws| ==> ws[k] == 0
  {
    if ws != [] {
      TotalZero(ws[..|ws| - 1]);
      assert forall k :: 0 <= k < |ws| - 1 ==> ws[..|ws| - 1][k] == ws[k];
    }
  }

  /** The longest packet, in bytes, whose sum cannot overflow 32 bits. */
  const LONGEST := 2 * 0x1_0001

  /** Addition in a uint32_t. */
  function Add32(a: nat, b: nat): (s: nat)
    requires a < 0x1_0000_0000 && b < 0x1_0000
    ensures s < 0x1_0000_0000
  {
    if a + b < 0x1_0000_0000 then a + b else a + b - 0x1_0000_0000
  }

  /** Beyond that length the sum wraps. */
  lemma Add32Wraps(a: nat, b: nat)
    requires a < 0x1_0000_0000 && b < 0x1_0000
    ensures Add32(a, b) == (a + b) % 0x1_0000_0000
  {}

  lemma AddNext(ws: seq<nat>, k: nat, sum: nat)
    requires k < |ws| <= 0x1_0001 && sum == Total(ws[..k])
    requires forall j :: 0 <= j < |ws| ==> ws[j] < 0x1_0000
    ensures sum < 0x1_0000_0000 && Add32(sum, ws[k]) == Total(ws[..k + 1])
  {
    TotalBound(ws[..k + 1]);
    assert ws[..k + 1][..k] == ws[..k];
  }

  lemma FoldedAnswer(ws: seq<nat>)
    requires |ws| <= 0x1_0001
    requires forall k :: 0 <= k < |ws| ==> ws[k] < 0x1_0000
    ensures Total(ws) < 0x1_0000_0000 && 0xffff - TwoFolds(Total(ws)) == Complement(OnesSum(ws))
  {
    TotalBound(ws);
    OnesSumIsResidue(ws);
    TwoFoldsAreEnough(Total(ws));
    FoldAllIsResidue(Total(ws));
  }

  /** The accumulator after `w` words of a packet of `len` bytes. */
  ghost predicate Summed(ws: seq<nat>, w: nat, sum: nat, len: nat) {
    w <= |ws| && sum < 0x1_0000_0000 && (len <= LONGEST ==> sum == Total(ws[..w]))
  }

  lemma SumOn(order: Order, p: seq<Byte>, w: nat, sum: nat)
    requires 2 * w < |p| && Summed(WordsIn(order, p), w, sum, |p|)
    ensures var x := Load(order, p[2 * w], if 2 * w + 1 < |p| then p[2 * w + 1] else 0);
            Summed(WordsIn(order, p), w + 1, Add32(sum, x), |p|)
  {
    var ws := WordsIn(order, p);
    assert ws[w] == Load(order, p[2 * w], if 2 * w + 1 < |p| then p[2 * w + 1] else 0);
    if |p| <= LONGEST {
      AddNext(ws, w, sum);
    }
  }

  lemma SumStart(ws: seq<nat>, len: nat)
    ensures Summed(ws, 0, 0, len)
  {
    assert ws[..0] == [];
  }

  lemma SummedAll(ws: seq<nat>, w: nat, sum: nat, len: nat)
    requires Summed(ws, w, sum, len) && w == |ws|
    ensures len <= LONGEST ==> sum == Total(ws)
  {
    assert ws[..w] == ws;
  }

  /** The summing loop and the odd byte. */
  method SumWords(order: Order, addr: array<Byte>, len: nat) returns (sum: nat)
    requires len <= addr.Length
    ensures sum < 0x1_0000_0000
    ensures len <= 131074 ==> sum == Total(WordsIn(order, addr[..len]))
  {
    ghost var p := addr[..len];
    ghost var ws := WordsIn(order, p);
    var nleft, w := len, 0;
    sum := 0;
    SumStart(ws, len);
    while nleft > 1
      invariant 0 <= nleft <= len && len == nleft + 2 * w
      invariant Summed(ws, w, sum, len)
    {
      SumOn(order, p, w, sum);
      sum := Add32(sum, Load(order, addr[2 * w], addr[2 * w + 1]));
      w := w + 1;
      nleft := nleft - 2;
    }
    if nleft == 1 {
      SumOn(order, p, w, sum);
      sum := Add32(sum, Load(order, addr[2 * w], 0));
      w := w + 1;
    }
    SummedAll(ws, w, sum, len);
  }

  /** Up to LONGEST bytes, which is more than any IP packet has, the 32-bit sum does not overflow. */
  method InCksum(order: Order, addr: array<Byte>, len: nat) returns (answer: nat)
    requires len <= addr.Length
    ensures answer < 0x1_0000
    ensures len <= 131074 ==> answer == Cksum(order, addr[..len])
  {
    var sum := SumWords(order, addr, len);
    if len <= LONGEST {
      FoldedAnswer(WordsIn(order, addr[..len]));
    }
    answer := 0xffff - TwoFolds(sum);
  }

  // -------------------------------------------------------- byte-order swap

  function Swap(w: nat): (s: nat)
    requires w < 0x1_0000
    ensures s < 0x1_0000
  {
    w % 256 * 256 + w / 256
  }

  lemma SwapAdd(a: nat, b: nat)
    requires a < 0x1_0000 && b < 0x1_0000
    ensures Swap(OnesAdd(a, b)) == OnesAdd(Swap(a), Swap(b))
  {
    var a1, a0, b1, b0 := a / 256, a % 256, b / 256, b % 256;
    var lo, hi := a0 + b0, a1 + b1;
    assert a + b == hi * 256 + lo;
    assert Swap(a) + Swap(b) == lo * 256 + hi;
    // each half keeps its low byte and hands its carry to the other half
    var c0, c1 := lo / 256, hi / 256;
    assert c0 <= 1 && c1 <= 1;
    HalfCarry(hi, lo);
    HalfCarry(lo, hi);
  }

  /** End-around addition in terms of the two halves of the sum. */
  lemma HalfCarry(hi: nat, lo: nat)
    requires hi <= 510 && lo <= 510
    ensures var s := hi * 256 + lo;
            var r := if s < 0x1_0000 then s else s - 0xffff;
            var c0 := if lo + (if s < 0x1_0000 then 0 else 1) >= 256 then 1 else 0;
            r < 0x1_0000 ==>
              && r % 256 == lo + (if s < 0x1_0000 then 0 else 1) - 256 * c0
              && r / 256 == hi + c0 - (if s < 0x1_0000 then 0 else 256)
  {}

  /** Swapping the bytes of every word swaps the bytes of the sum (section 2 of RFC 1071). */
  lemma {:induction false} SwapSum(ws: seq<nat>, vs: seq<nat>)
    requires |ws| == |vs|
    requires forall k :: 0 <= k < |ws| ==> ws[k] < 0x1_0000
    requires forall k :: 0 <= k < |vs| ==> vs[k] < 0x1_0000 && vs[k] == Swap(ws[k])
    ensures OnesSum(vs) == Swap(OnesSum(ws))
  {
    if ws != [] {
      var n := |ws| - 1;
      SwapSum(ws[..n], vs[..n]);
      SwapAdd(OnesSum(ws[..n]), ws[n]);
    }
  }

  lemma SwapLoad(first: Byte, second: Byte)
    ensures Load(LittleEnd, first, second) == Swap(Load(BigEnd, first, second))
  {
    assert (first as int * 256 + second) / 256 == first;
  }

  lemma SwapComplement(s: nat)
    requires s < 0x1_0000
    ensures Store(BigEnd, Complement(s)) == Store(LittleEnd, Complement(Swap(s)))
  {
    var hi, lo := s / 256, s % 256;
    assert Complement(s) == (255 - hi) * 256 + (255 - lo);
    assert Complement(Swap(s)) == (255 - lo) * 256 + (255 - hi);
  }

  /** The checksum computed on either kind of host is the same pair of bytes in memory. */
  lemma SameBytesOnEveryHost(p: seq<Byte>)
    ensures Store(BigEnd, Cksum(BigEnd, p)) == Store(LittleEnd, Cksum(LittleEnd, p))
  {
    var ws, vs := WordsIn(BigEnd, p), WordsIn(LittleEnd, p);
    forall k | 0 <= k < |ws| ensures vs[k] == Swap(ws[k]) {
      SwapLoad(p[2 * k], if 2 * k + 1 < |p| then p[2 * k + 1] else 0);
    }
    SwapSum(ws, vs);
    SwapComplement(OnesSum(ws));
  }

  // ------------------------------------------------------------ verification

  /** A packet with the word at `k` replaced. */
  function WithWord(order: Order, p: seq<Byte>, k: nat, w: nat): (q: seq<Byte>)
    requires 2 * k + 1 < |p| && w < 0x1_0000
    ensures |q| == |p|
  {
    p[2 * k := Store(order, w)[0]][2 * k + 1 := Store(order, w)[1]]
  }

  lemma {:induction false} TotalUpdate(ws: seq<nat>, k: nat, w: nat)
    requires k < |ws| && ws[k] == 0
    ensures Total(ws[k := w]) == Total(ws) + w
  {
    var n := |ws| - 1;
    if k == n {
      assert ws[k := w][..n] == ws[..n];
    } else {
      assert ws[k := w][..n] == ws[..n][k := w];
      TotalUpdate(ws[..n], k, w);
    }
  }

  lemma WithWordTotal(order: Order, p: seq<Byte>, k: nat, w: nat)
    requires 2 * k + 1 < |p| && w < 0x1_0000 && p[2 * k] == p[2 * k + 1] == 0
    ensures Total(WordsIn(order, WithWord(order, p, k, w))) == Total(WordsIn(order, p)) + w
  {
    var ws := WordsIn(order, p);
    assert WordsIn(order, WithWord(order, p, k, w)) == ws[k := w];
    TotalUpdate(ws, k, w);
  }

  lemma FillsToMultiple(n: nat, w: nat)
    requires w == if Residue(n) == 0xffff then 0xffff else 0xffff - Residue(n)
    ensures Residue(n + w) == 0xffff
  {
    if n > 0 {
      var q := (n - 1) / 0xffff;
      assert n == 0xffff * q + Residue(n);
      AddMultiple(0xfffe, q);
      AddMultiple(0xfffe, q + 1);
    }
  }

  /** What goes into the checksum field: the checksum, or all ones when it is zero. */
  function Filler(order: Order, p: seq<Byte>): (w: nat)
    ensures 0 < w < 0x1_0000
  {
    if Cksum(order, p) == 0 then 0xffff else Cksum(order, p)
  }

  lemma ChecksByTotals(order: Order, p: seq<Byte>, q: seq<Byte>)
    requires Total(WordsIn(order, q)) == Total(WordsIn(order, p)) + Filler(order, p)
    ensures Cksum(order, q) == 0
  {
    CksumIsResidue(order, p);
    CksumIsResidue(order, q);
    FillsToMultiple(Total(WordsIn(order, p)), Filler(order, p));
  }

  /** A field that was zero and is filled like this makes the whole packet check to zero. */
  lemma FilledPacketChecks(order: Order, p: seq<Byte>, k: nat)
    requires 2 * k + 1 < |p| && p[2 * k] == p[2 * k + 1] == 0
    ensures Cksum(order, WithWord(order, p, k, Filler(order, p))) == 0
  {
    WithWordTotal(order, p, k, Filler(order, p));
    ChecksByTotals(order, p, WithWord(order, p, k, Filler(order, p)));
  }

  lemma CksumIsResidue(order: Order, p: seq<Byte>)
    ensures Cksum(order, p) == 0xffff - Residue(Total(WordsIn(order, p)))
  {
    OnesSumIsResidue(WordsIn(order, p));
  }

  // --------------------------------------------------------------- udp_write

  const HEADER := 28      // a pseudo-header of 20 bytes and a UDP header of 8
  const IPPROTO_UDP := 17

  /** The header with its checksum field still zero. */
  function BareHeader(userlen: nat, src: seq<Byte>, dst: seq<Byte>, sport: seq<Byte>, dport: seq<Byte>): (h: seq<Byte>)
    requires |src| == |dst| == 4 && |sport| == |dport| == 2
    ensures |h| == HEADER && h[26] == h[27] == 0
  {
    Zeros(9) + [IPPROTO_UDP] + WordBytes(8 + userlen) + src + dst + sport + dport + WordBytes(8 + userlen) + Zeros(2)
  }

  /** What the receiver sums: the pseudo-header rebuilt from the addresses and the UDP
      length of the packet, and everything from the UDP header on. */
  function PseudoPacket(packet: seq<Byte>): seq<Byte>
    requires |packet| >= HEADER
  {
    Zeros(9) + [packet[9]] + packet[24..26] + packet[12..20] + packet[20..]
  }

  /** Fills the header in front of `userlen` bytes of data.  `zeroSum` asks for no checksum. */
  method UdpWrite(order: Order, buf: array<Byte>, userlen: nat, zeroSum: bool,
                  src: seq<Byte>, dst: seq<Byte>, sport: seq<Byte>, dport: seq<Byte>)
    requires |src| == |dst| == 4 && |sport| == |dport| == 2
    requires buf.Length == HEADER + userlen
    modifies buf
    ensures buf[HEADER..] == old(buf[HEADER..])
    ensures buf[9] == 17 && buf[12..16] == src && buf[16..20] == dst
    ensures buf[20..22] == sport && buf[22..24] == dport
    ensures Load(BigEnd, buf[24], buf[25]) == (8 + userlen) % 0x10000
    ensures buf[0] == 0x45 && Load(BigEnd, buf[2], buf[3]) == buf.Length % 0x10000 && buf[8] == 64
    ensures buf[1] == buf[4] == buf[5] == buf[6] == buf[7] == 0
    ensures zeroSum ==> buf[26] == buf[27] == 0
    ensures !zeroSum ==> Load(order, buf[26], buf[27]) != 0
    ensures !zeroSum && buf.Length <= 131074 ==> Cksum(order, PseudoPacket(buf[..])) == 0
  {
    var bare := BareHeader(userlen, src, dst, sport, dport);
    CopyHeader(buf, bare);
    FinishPacket(order, buf, bare, zeroSum);
    BareFields(userlen, src, dst, sport, dport);
    InHeader(buf[..], bare);
    LoadWord(8 + userlen);
    LoadWord(buf.Length);
    assert buf[0] == buf[..9][0] && buf[1] == buf[..9][1] && buf[2] == buf[..9][2] && buf[3] == buf[..9][3];
    assert buf[4] == buf[..9][4] && buf[5] == buf[..9][5] && buf[6] == buf[..9][6] && buf[7] == buf[..9][7];
    assert buf[8] == buf[..9][8];
  }

  method CopyHeader(buf: array<Byte>, bare: seq<Byte>)
    requires buf.Length >= HEADER == |bare|
    modifies buf
    ensures buf[..] == bare + old(buf[HEADER..])
  {
    ghost var data := buf[HEADER..];
    for i := 0 to HEADER
      invariant buf[..i] == bare[..i] && buf[HEADER..] == data
    {
      buf[i] := bare[i];
      assert buf[..i + 1] == bare[..i] + [bare[i]];
    }
  }

  /** The checksum, and the rest of the IP header. */
  method FinishPacket(order: Order, buf: array<Byte>, ghost bare: seq<Byte>, zeroSum: bool)
    requires buf.Length >= HEADER == |bare| && buf[..HEADER] == bare
    requires bare[26] == bare[27] == 0 && bare[..9] == Zeros(9) && bare[10..12] == bare[24..26]
    modifies buf
    ensures buf[HEADER..] == old(buf[HEADER..]) && buf[9] == bare[9] && buf[12..26] == bare[12..26]
    ensures buf[..9] == [0x45, 0] + WordBytes(buf.Length) + [0, 0, 0, 0, 64]
    ensures zeroSum ==> buf[26] == buf[27] == 0
    ensures !zeroSum ==> Load(order, buf[26], buf[27]) != 0
    ensures !zeroSum && buf.Length <= 131074 ==> Cksum(order, PseudoPacket(buf[..])) == 0
  {
    ghost var filled := buf[..];
    if !zeroSum {
      PutSum(order, buf);
      filled := WithWord(order, filled, 13, Load(order, buf[26], buf[27]));
      assert buf[..] == filled;
    }
    FillIpHeader(buf);
    assert buf[26] == buf[9..][17] == filled[26] && buf[27] == buf[9..][18] == filled[27];
    assert buf[9] == buf[9..][0] == filled[9];
    SamePseudo(bare, filled, buf[..]);
  }

  lemma BareFields(userlen: nat, src: seq<Byte>, dst: seq<Byte>, sport: seq<Byte>, dport: seq<Byte>)
    requires |src| == |dst| == 4 && |sport| == |dport| == 2
    ensures var h := BareHeader(userlen, src, dst, sport, dport);
            && h[9] == 17 && h[12..16] == src && h[16..20] == dst && h[20..22] == sport && h[22..24] == dport
            && h[24..26] == WordBytes(8 + userlen)
  {}

  lemma InHeader(packet: seq<Byte>, bare: seq<Byte>)
    requires |packet| >= HEADER == |bare| && packet[12..26] == bare[12..26]
    ensures packet[12..16] == bare[12..16] && packet[16..20] == bare[16..20]
    ensures packet[20..22] == bare[20..22] && packet[22..24] == bare[22..24]
    ensures packet[24..26] == bare[24..26] && [packet[24], packet[25]] == bare[24..26]
  {
    forall k | 12 <= k < 26 ensures packet[k] == bare[k] {
      assert packet[12..26][k - 12] == bare[12..26][k - 12];
    }
  }

  lemma LoadWord(n: nat)
    ensures Load(BigEnd, WordBytes(n)[0], WordBytes(n)[1]) == n % 0x10000
  {
    var q, r := n / 0x10000, n % 0x10000;
    assert n / 256 == 256 * q + r / 256;
    assert n % 256 == r % 256;
  }

  /** The checksum of the whole buffer goes into its zeroed field. */
  method PutSum(order: Order, buf: array<Byte>)
    requires buf.Length >= HEADER && buf[26] == buf[27] == 0
    modifies buf
    ensures Load(order, buf[26], buf[27]) != 0
    ensures buf[..] == WithWord(order, old(buf[..]), 13, Load(order, buf[26], buf[27]))
    ensures buf.Length <= LONGEST ==> Cksum(order, buf[..]) == 0
  {
    ghost var was := buf[..];
    var sum := InCksum(order, buf, buf.Length);
    assert buf[..buf.Length] == was;
    if sum == 0 {
      sum := 0xffff;
    }
    buf[26], buf[27] := Store(order, sum)[0], Store(order, sum)[1];
    assert buf[..] == WithWord(order, was, 13, sum);
    if buf.Length <= LONGEST {
      FilledPacketChecks(order, was, 13);
    }
  }

  /** The receiver rebuilds the bytes that were summed. */
  lemma SamePseudo(bare: seq<Byte>, filled: seq<Byte>, packet: seq<Byte>)
    requires |bare| == HEADER && |filled| == |packet| >= HEADER
    requires bare[..9] == Zeros(9) && bare[10..12] == bare[24..26]
    requires filled[..26] == bare[..26] && packet[9..] == filled[9..]
    ensures PseudoPacket(packet) == filled && packet[12..26] == bare[12..26]
    ensures packet[HEADER..] == filled[HEADER..]
  {
    assert packet[HEADER..] == packet[9..][HEADER - 9..] == filled[HEADER..];
    assert packet[12..26] == packet[9..][3..17] == filled[12..26] == filled[..26][12..26];
    assert packet[9] == filled[9..][0] && packet[20..] == packet[9..][11..] == filled[20..];
    assert packet[24..26] == packet[9..][15..17] == filled[24..26] == filled[..26][24..26] == bare[24..26];
    assert packet[12..20] == packet[9..][3..11] == filled[12..20];
    assert filled[..9] == filled[..26][..9] == Zeros(9);
    assert filled[10..12] == filled[..26][10..12] == bare[10..12];
    assert filled == filled[..9] + [filled[9]] + filled[10..12] + filled[12..20] + filled[20..];
  }

  /** The IP fields that share the space of the pseudo-header; the protocol byte, the two
      bytes of the IP checksum and the addresses stay as they are. */
  method FillIpHeader(buf: array<Byte>)
    requires buf.Length >= HEADER
    modifies buf
    ensures buf[9..] == old(buf[9..])
    ensures buf[..9] == [0x45, 0] + WordBytes(buf.Length) + [0, 0, 0, 0, 64]
  {
    buf[0], buf[1] := 0x45, 0;
    buf[2], buf[3] := WordBytes(buf.Length)[0], WordBytes(buf.Length)[1];
    buf[4], buf[5], buf[6], buf[7] := 0, 0, 0, 0;
    buf[8] := 64;
  }
}
