/**
 Dotted-decimal IPv4 texts: inet_pton4 and inet_ntop4 of libfree, and the
 second parser inet_aton.
 */
module InetText4 {
  import opened Common
  import opened Fields

  // -------------------------------------------------------- reference forms

  predicate IsOctet(f: string) {
    f != "" && Digits(Dec, f) && NumVal(Dec, f) <= 255
  }

  /** Four dot-separated non-empty decimal fields of value at most 255. */
  predicate IsQuad(s: string) {
    var fs := Split(s, '.');
    |fs| == 4 && forall k :: 0 <= k < 4 ==> IsOctet(fs[k])
  }

  function QuadBytes(s: string): (bs: seq<Byte>)
    requires IsQuad(s)
    ensures |bs| == 4
  {
    var fs := Split(s, '.');
    seq(4, k requires 0 <= k < 4 => assert IsOctet(fs[k]); NumVal(Dec, fs[k]))
  }

  function QuadText(bs: seq<Byte>): string
    requires |bs| == 4
  {
    Join(seq(4, k requires 0 <= k < 4 => Numeral(Dec, bs[k])), '.')
  }

  /** Unsigned arithmetic on `modulus` values: what is left of `n` after wrapping around. */
  function Wrap(n: nat, modulus: nat): nat
    requires modulus > 0
  {
    if n < modulus then n else Wrap(n - modulus, modulus)
  }

  /** What inet_aton takes: at most four fields, possibly empty, read in an accumulator that wraps. */
  predicate IsAton(s: string, modulus: nat)
    requires modulus > 0
  {
    var fs := Split(s, '.');
    && |fs| <= 4
    && (forall k :: 0 <= k < |fs| ==> Digits(Dec, fs[k]) && Wrap(NumVal(Dec, fs[k]), modulus) <= 255)
  }

  function AtonBytes(s: string, modulus: nat): (bs: seq<Byte>)
    requires modulus > 0
    requires IsAton(s, modulus)
    ensures |bs| == 4
  {
    var fs := Split(s, '.');
    seq(4, k requires 0 <= k < 4 => if k < |fs| then Wrap(NumVal(Dec, fs[k]), modulus) else 0)
  }

  // ---------------------------------------------------------------- printer

  method CopyChars(dst: array<char>, at: nat, s: string)
    requires at + |s| <= dst.Length
    modifies dst
    ensures dst[..] == old(dst[..at]) + s + old(dst[at + |s|..])
  {
    forall i | 0 <= i < |s| {
      dst[at + i] := s[i];
    }
  }

  /** The C string copy: the characters and the terminating NUL. */
  method CopyString(dst: array<char>, at: nat, s: string)
    requires at + |s| < dst.Length
    modifies dst
    ensures dst[..] == old(dst[..at]) + s + ['\0'] + old(dst[at + |s| + 1..])
  {
    CopyChars(dst, at, s + ['\0']);
  }

  lemma QuadTextLength(bs: seq<Byte>)
    requires |bs| == 4
    ensures |QuadText(bs)| <= 15
  {
    var fs := seq(4, k requires 0 <= k < 4 => Numeral(Dec, bs[k]));
    OctetLength(bs[0]);
    OctetLength(bs[1]);
    OctetLength(bs[2]);
    OctetLength(bs[3]);
    assert Front(Front(Front(fs))) == [fs[0]];
    assert |Join(Front(Front(fs)), '.')| <= 7;
    assert |Join(Front(fs), '.')| <= 11;
  }

  /** The characters that the copy writes, with the NUL, if it is made. */
  function Copied(src: seq<Byte>, size: nat): nat
    requires |src| == 4
  {
    if |QuadText(src)| <= size then |QuadText(src)| + 1 else 0
  }

  /** The bound is compared with strlen, so the copy stays within `size` characters if and only
      if the text does not have exactly that many; 16 are always enough. */
  lemma CopyFits(src: seq<Byte>, size: nat)
    requires |src| == 4
    ensures Copied(src, size) <= size <==> |QuadText(src)| != size
    ensures size >= 16 ==> 0 < Copied(src, size) <= size
  {
    QuadTextLength(src);
  }

  /** A concrete address whose NUL goes one past the size given. */
  lemma CopyOverruns(src: seq<Byte>)
    requires src == [255, 255, 255, 255]
    ensures QuadText(src) == "255.255.255.255" && Copied(src, 15) == 16
  {
    NumeralOf255();
    var fs := seq(4, k requires 0 <= k < 4 => Numeral(Dec, src[k]));
    assert fs == ["255", "255", "255", "255"];
    assert Front(fs) == ["255", "255", "255"] && Front(Front(fs)) == ["255", "255"];
    assert Front(Front(Front(fs))) == ["255"];
    assert Join(["255", "255"], '.') == "255.255";
    assert Join(["255", "255", "255"], '.') == "255.255.255";
    assert Join(fs, '.') == "255.255.255.255";
  }

  lemma NumeralOf255()
    ensures Numeral(Dec, 255) == "255"
  {
    assert Numeral(Dec, 2) == "2" && Numeral(Dec, 25) == "25";
  }

  /** The caller has `size` characters of `dst` from `at` on.  A NUL that goes one past them is
      reported; it is written as long as it stays in the array. */
  method InetNtop4(src: seq<Byte>, dst: array<char>, at: nat, size: nat) returns (ok: bool, overrun: bool)
    requires |src| == 4 && at + size <= dst.Length
    modifies dst
    ensures ok == (|QuadText(src)| <= size) && overrun == (|QuadText(src)| == size)
    ensures !ok ==> dst[..] == old(dst[..])
    ensures ok && !overrun ==> dst[..] == old(dst[..at]) + QuadText(src) + ['\0'] + old(dst[at + |QuadText(src)| + 1..])
    ensures overrun && at + size < dst.Length ==>
              dst[..] == old(dst[..at]) + QuadText(src) + ['\0'] + old(dst[at + size + 1..])
    ensures overrun && at + size == dst.Length ==> dst[..] == old(dst[..at]) + QuadText(src)
  {
    var tmp := new char[16];
    QuadTextLength(src);
    CopyString(tmp, 0, QuadText(src));
    var text := tmp[..|QuadText(src)|];
    if |text| > size {
      return false, false;
    }
    if at + |text| < dst.Length {
      CopyString(dst, at, text);
    } else {
      CopyChars(dst, at, text);
    }
    return true, |text| == size;
  }

  // ----------------------------------------------------------------- parser

  /** A field that can no longer become an octet, whatever is still to be read. */
  ghost predicate Hopeless(f: string) {
    !Digits(Dec, f) || NumVal(Dec, f) > 255
  }

  lemma HopelessStays(f: string, g: string)
    requires f <= g && Hopeless(f)
    ensures !IsOctet(g)
  {
    if Digits(Dec, g) {
      forall k | 0 <= k < |f| ensures IsDigit(Dec, f[k]) { assert f[k] == g[k]; }
      NumValMonotone(Dec, f, g);
    }
  }

  /** The reasons for which inet_pton4 gives up after `s[..i]` rule out every continuation. */
  lemma NotQuad(s: string, i: nat)
    requires i <= |s|
    requires var fs := Split(s[..i], '.');
             || |fs| > 4
             || Hopeless(Last(fs))
             || (|fs| > 1 && fs[|fs| - 2] == "")
    ensures !IsQuad(s)
  {
    var fs, gs := Split(s[..i], '.'), Split(s, '.');
    SplitPrefix(s, '.', i);
    if |gs| == 4 {
      if Hopeless(Last(fs)) {
        HopelessStays(Last(fs), gs[|fs| - 1]);
      } else {
        assert gs[|fs| - 2] == Front(fs)[|fs| - 2] == "";
      }
    }
  }

  /** The state of the scan after the prefix `p`: `tmp` holds the values of its fields. */
  ghost predicate Scan4(p: string, tmp: seq<Byte>, tp: nat, octets: int, sawDigit: bool) {
    var fs := Split(p, '.');
    && |tmp| == 4
    && tp == |fs| - 1 < 4
    && octets == tp + (if sawDigit then 1 else 0)
    && sawDigit == (Last(fs) != "")
    && (forall k :: 0 <= k < tp ==> IsOctet(fs[k]) && tmp[k] == NumVal(Dec, fs[k]))
    && Digits(Dec, Last(fs)) && tmp[tp] == NumVal(Dec, Last(fs))
  }

  lemma ScanDigit(p: string, c: char, tmp: seq<Byte>, tp: nat, octets: int, sawDigit: bool)
    requires Scan4(p, tmp, tp, octets, sawDigit) && IsDigit(Dec, c)
    ensures var next := tmp[tp] * 10 + DigitVal(c);
            if next > 255 then Hopeless(Last(Split(p + [c], '.')))
            else Scan4(p + [c], tmp[tp := next], tp, tp + 1, true)
  {
    SplitPush(p, '.', c);
    var fs, gs := Split(p, '.'), Split(p + [c], '.');
    assert |gs| == |fs| && Last(gs) == Last(fs) + [c];
    forall k | 0 <= k < |fs| - 1 ensures gs[k] == fs[k] {}
    NumValStep(Dec, Last(fs), c);
  }

  lemma ScanDot4(p: string, tmp: seq<Byte>, tp: nat)
    requires Scan4(p, tmp, tp, tp + 1, true)
    ensures tp == 3 ==> |Split(p + ['.'], '.')| > 4
    ensures tp < 3 ==> Scan4(p + ['.'], tmp[tp + 1 := 0], tp + 1, tp + 1, false)
  {
    SplitPush(p, '.', '.');
    if tp < 3 {
      NextOctet(Split(p, '.'), tmp, tp);
    }
  }

  lemma NextOctet(fs: seq<string>, tmp: seq<Byte>, tp: nat)
    requires |tmp| == 4 && |fs| == tp + 1 && tp < 3
    requires forall k :: 0 <= k < tp ==> IsOctet(fs[k]) && tmp[k] == NumVal(Dec, fs[k])
    requires Last(fs) != "" && Digits(Dec, Last(fs)) && tmp[tp] == NumVal(Dec, Last(fs))
    ensures var gs := fs + [""];
            forall k :: 0 <= k < tp + 1 ==> IsOctet(gs[k]) && tmp[tp + 1 := 0][k] == NumVal(Dec, gs[k])
  {}

  lemma ScanOther4(p: string, c: char, tmp: seq<Byte>, tp: nat, octets: int, sawDigit: bool)
    requires Scan4(p, tmp, tp, octets, sawDigit) && !IsDigit(Dec, c) && !(c == '.' && sawDigit)
    ensures var fs := Split(p + [c], '.');
            Hopeless(Last(fs)) || (|fs| > 1 && fs[|fs| - 2] == "")
  {
    SplitPush(p, '.', c);
    NumValStep(Dec, Last(Split(p, '.')), c);
  }

  lemma ScanEnd4(s: string, tmp: seq<Byte>, tp: nat, octets: int, sawDigit: bool)
    requires Scan4(s, tmp, tp, octets, sawDigit)
    ensures IsQuad(s) <==> octets == 4
    ensures octets == 4 ==> tmp == QuadBytes(s)
  {
    var fs := Split(s, '.');
    if octets == 4 {
      assert IsOctet(fs[3]);
    } else if |fs| == 4 {
      assert !IsOctet(fs[3]);
    }
  }

  /** A digit of the current field. */
  method TakeDigit(src: string, i: nat, tmp: array<Byte>, tp: nat, octets0: int, sawDigit: bool)
    returns (ok: bool, octets: int)
    requires i < |src| && IsDigit(Dec, src[i]) && Scan4(src[..i], tmp[..], tp, octets0, sawDigit)
    modifies tmp
    ensures ok ==> Scan4(src[..i + 1], tmp[..], tp, octets, true)
    ensures !ok ==> !IsQuad(src)
  {
    octets := octets0;
    assert src[..i + 1] == src[..i] + [src[i]];
    ScanDigit(src[..i], src[i], tmp[..], tp, octets, sawDigit);
    var next := tmp[tp] * 10 + DigitVal(src[i]);
    if next > 255 {
      NotQuad(src, i + 1);
      return false, octets;
    }
    tmp[tp] := next;
    if !sawDigit {
      octets := octets + 1;
      assert octets <= 4;  // so the source's exit for a fifth octet is never taken here
    }
    ok := true;
  }

  /** A dot behind a field. */
  method TakeDot(src: string, i: nat, tmp: array<Byte>, tp0: nat, octets: int) returns (ok: bool, tp: nat)
    requires i < |src| && src[i] == '.' && Scan4(src[..i], tmp[..], tp0, octets, true)
    modifies tmp
    ensures ok ==> Scan4(src[..i + 1], tmp[..], tp, octets, false)
    ensures !ok ==> !IsQuad(src)
  {
    tp := tp0;
    assert src[..i + 1] == src[..i] + ['.'];
    ScanDot4(src[..i], tmp[..], tp);
    if octets == 4 {
      NotQuad(src, i + 1);
      return false, tp;
    }
    tp := tp + 1;
    tmp[tp] := 0;
    ok := true;
  }

  method InetPton4(src: string, dst: array<Byte>, at: nat) returns (ok: bool)
    requires at + 4 <= dst.Length
    modifies dst
    ensures ok == IsQuad(src)
    ensures dst[..] == if ok then old(dst[..at]) + QuadBytes(src) + old(dst[at + 4..]) else old(dst[..])
  {
    var tmp, octets;
    ok, tmp, octets := ScanQuadText(src);
    if !ok || octets < 4 {
      return false;
    }
    CopyBytes(tmp, dst, at);
  }

  lemma StartScan4(src: string, tmp: seq<Byte>)
    requires tmp == [0, 0, 0, 0]
    ensures Scan4(src[..0], tmp, 0, 0, false)
  {
    assert src[..0] == "";
  }

  lemma RefuseOther4(src: string, i: nat, tmp: seq<Byte>, tp: nat, octets: int, sawDigit: bool)
    requires i < |src| && Scan4(src[..i], tmp, tp, octets, sawDigit)
    requires !IsDigit(Dec, src[i]) && !(src[i] == '.' && sawDigit)
    ensures !IsQuad(src)
  {
    assert src[..i + 1] == src[..i] + [src[i]];
    ScanOther4(src[..i], src[i], tmp, tp, octets, sawDigit);
    NotQuad(src, i + 1);
  }

  /** The loop of inet_pton4. */
  method ScanQuadText(src: string) returns (ok: bool, tmp: array<Byte>, octets: int)
    ensures fresh(tmp) && tmp.Length == 4
    ensures ok && octets >= 4 ==> IsQuad(src) && tmp[..] == QuadBytes(src)
    ensures !ok || octets < 4 ==> !IsQuad(src)
  {
    tmp := new Byte[4](_ => 0);
    var sawDigit, tp: nat := false, 0;
    octets := 0;
    StartScan4(src, tmp[..]);
    for i := 0 to |src|
      invariant fresh(tmp) && Scan4(src[..i], tmp[..], tp, octets, sawDigit)
    {
      if IsDigit(Dec, src[i]) {
        ok, octets := TakeDigit(src, i, tmp, tp, octets, sawDigit);
        sawDigit := true;
      } else if src[i] == '.' && sawDigit {
        ok, tp := TakeDot(src, i, tmp, tp, octets);
        sawDigit := false;
      } else {
        RefuseOther4(src, i, tmp[..], tp, octets, sawDigit);
        ok := false;
      }
      if !ok {
        return;
      }
    }
    assert src[..|src|] == src;
    ScanEnd4(src, tmp[..], tp, octets, sawDigit);
    ok := true;
  }

  /** memcpy of all of `src`. */
  method CopyBytes(src: array<Byte>, dst: array<Byte>, at: nat)
    requires src != dst && at + src.Length <= dst.Length
    modifies dst
    ensures dst[..] == old(dst[..at]) + src[..] + old(dst[at + src.Length..])
  {
    forall k | 0 <= k < src.Length {
      dst[at + k] := src[k];
    }
  }

  // -------------------------------------------------------------- inet_aton

  function BigEndian(bs: seq<Byte>): nat {
    if bs == [] then 0 else BigEndian(Front(bs)) * 256 + Last(bs)
  }

  /** The last `k` octets of a number, in the order htonl stores them. */
  function Octets(n: nat, k: nat): (bs: seq<Byte>)
    ensures |bs| == k
  {
    if k == 0 then [] else Octets(n / 256, k - 1) + [n % 256]
  }

  lemma {:induction false} OctetsBack(bs: seq<Byte>)
    ensures Octets(BigEndian(bs), |bs|) == bs
  {
    if bs != [] {
      OctetsBack(Front(bs));
      FrontLast(bs);
    }
  }

  /** Wrapping at every digit is wrapping once at the end. */
  lemma {:induction false} AccStep(v: nat, d: nat, m: nat)
    requires m > 0
    ensures Wrap(Wrap(v, m) * 10 + d, m) == Wrap(v * 10 + d, m)
  {
    if v >= m {
      AccStep(v - m, d, m);
      WrapFive((v - m) * 10 + d + 5 * m, m);
      WrapFive((v - m) * 10 + d, m);
    }
  }

  lemma WrapFive(n: nat, m: nat)
    requires m > 0
    ensures Wrap(n + 5 * m, m) == Wrap(n, m)
  {
    assert Wrap(n + 5 * m, m) == Wrap(n + 4 * m, m) == Wrap(n + 3 * m, m);
    assert Wrap(n + 3 * m, m) == Wrap(n + 2 * m, m) == Wrap(n + m, m);
  }

  predicate BadAton(fs: seq<string>, modulus: nat)
    requires modulus > 0
  {
    || |fs| > 4
    || (exists k :: 0 <= k < |fs| && !Digits(Dec, fs[k]))
    || (exists k :: 0 <= k < |fs| - 1 && Wrap(NumVal(Dec, fs[k]), modulus) > 255)
  }

  lemma NotAton(s: string, i: nat, modulus: nat)
    requires modulus > 0
    requires i <= |s|
    requires BadAton(Split(s[..i], '.'), modulus)
    ensures !IsAton(s, modulus)
  {
    var fs, gs := Split(s[..i], '.'), Split(s, '.');
    SplitPrefix(s, '.', i);
    forall k | 0 <= k < |fs| - 1 ensures fs[k] == gs[k] {
      assert Front(fs)[k] == gs[k];
    }
    if !Digits(Dec, Last(fs)) {
      var k :| 0 <= k < |Last(fs)| && !IsDigit(Dec, Last(fs)[k]);
      assert !IsDigit(Dec, gs[|fs| - 1][k]);
    }
  }

  /** The state of the scan after the prefix `p`: `octets` are its complete fields. */
  ghost predicate AtonScan(p: string, octets: seq<Byte>, dots: nat, acc: nat, addr: nat, modulus: nat)
    requires modulus > 0
  {
    var fs := Split(p, '.');
    && dots == |octets| == |fs| - 1 <= 3
    && (forall k :: 0 <= k < |fs| ==> Digits(Dec, fs[k]))
    && (forall k :: 0 <= k < |octets| ==> octets[k] == Wrap(NumVal(Dec, fs[k]), modulus))
    && acc == Wrap(NumVal(Dec, Last(fs)), modulus)
    && addr == BigEndian(octets)
  }

  lemma AtonDigit(p: string, c: char, octets: seq<Byte>, dots: nat, acc: nat, addr: nat, modulus: nat)
    requires modulus > 0 && AtonScan(p, octets, dots, acc, addr, modulus) && IsDigit(Dec, c)
    ensures AtonScan(p + [c], octets, dots, Wrap(acc * 10 + DigitVal(c), modulus), addr, modulus)
  {
    LastGrows(p, '.', c);
    var fs, gs := Split(p, '.'), Split(p + [c], '.');
    forall k | 0 <= k < |fs| - 1 ensures gs[k] == fs[k] {
      assert Front(gs)[k] == Front(fs)[k];
    }
    NumValStep(Dec, Last(fs), c);
    AccStep(NumVal(Dec, Last(fs)), DigitVal(c), modulus);
  }

  lemma AtonDot(p: string, octets: seq<Byte>, dots: nat, acc: nat, addr: nat, modulus: nat)
    requires modulus > 0 && AtonScan(p, octets, dots, acc, addr, modulus)
    ensures dots == 3 ==> BadAton(Split(p + ['.'], '.'), modulus)
    ensures acc > 255 ==> BadAton(Split(p + ['.'], '.'), modulus)
    ensures dots < 3 && acc <= 255 ==> AtonScan(p + ['.'], octets + [acc], dots + 1, 0, addr * 256 + acc, modulus)
  {
    assert Front(p + ['.']) == p;
    var fs, gs := Split(p, '.'), Split(p + ['.'], '.');
    assert gs == fs + [""] && gs[|gs| - 2] == Last(fs);
    if acc <= 255 {
      assert Front(octets + [acc]) == octets;
    } else {
      assert Wrap(NumVal(Dec, gs[|gs| - 2]), modulus) > 255;
    }
  }

  lemma AtonOther(p: string, c: char, modulus: nat)
    requires modulus > 0 && c != '.' && !IsDigit(Dec, c)
    ensures BadAton(Split(p + [c], '.'), modulus)
  {
    assert Front(p + [c]) == p;
    var gs := Split(p + [c], '.');
    NumValStep(Dec, Last(Split(p, '.')), c);
    assert !Digits(Dec, gs[|gs| - 1]);
  }

  /** `modulus` is the number of values of the source's unsigned long; `ap` is the stored
      address, in network byte order.  The pass over the terminating NUL follows the loop. */
  method InetAton(cp: string, modulus: nat) returns (ok: bool, ap: seq<Byte>)
    requires modulus >= 0x1_0000_0000
    ensures ok == IsAton(cp, modulus)
    ensures ok ==> ap == AtonBytes(cp, modulus)
  {
    var dots: nat, acc: nat, addr: nat := 0, 0, 0;
    ghost var octets: seq<Byte> := [];
    for i := 0 to |cp|
      invariant AtonScan(cp[..i], octets, dots, acc, addr, modulus)
    {
      var cc := cp[i];
      assert cp[..i + 1] == cp[..i] + [cc];
      if cc == '.' {
        AtonDot(cp[..i], octets, dots, acc, addr, modulus);
        if dots + 1 > 3 || acc > 255 {
          NotAton(cp, i + 1, modulus);
          return false, [];
        }
        dots, addr, octets, acc := dots + 1, addr * 256 + acc, octets + [acc], 0;
      } else if IsDigit(Dec, cc) {
        AtonDigit(cp[..i], cc, octets, dots, acc, addr, modulus);
        acc := Wrap(acc * 10 + DigitVal(cc), modulus);
      } else {
        AtonOther(cp[..i], cc, modulus);
        NotAton(cp, i + 1, modulus);
        return false, [];
      }
    }
    assert cp[..|cp|] == cp;
    ok, ap := AtonEnd(cp, octets, dots, acc, addr, modulus);
  }

  /** The pass over the terminating NUL: the last field is taken like the others. */
  method AtonEnd(cp: string, ghost octets: seq<Byte>, dots: nat, acc: nat, addr: nat, ghost modulus: nat)
    returns (ok: bool, ap: seq<Byte>)
    requires modulus >= 0x1_0000_0000 && AtonScan(cp, octets, dots, acc, addr, modulus)
    ensures ok == IsAton(cp, modulus)
    ensures ok ==> ap == AtonBytes(cp, modulus)
  {
    if acc > 255 {
      return false, [];
    }
    assert Front(octets + [acc]) == octets;
    ap := StoreAddress(addr * 256 + acc, dots, octets + [acc]);
    return true, ap;
  }

  /** The shift that fills up missing low octets, and the store in network byte order. */
  method StoreAddress(addr: nat, dots: nat, ghost octets: seq<Byte>) returns (ap: seq<Byte>)
    requires dots <= 3 && |octets| == dots + 1 && addr == BigEndian(octets)
    ensures ap == octets + Zeros(3 - dots)
  {
    var shifted := addr;
    ghost var all := octets;
    for k := dots to 3
      invariant all == octets + Zeros(k - dots)
      invariant shifted == BigEndian(all)
    {
      shifted := shifted * 256;
      all := all + [0];
      assert Front(all) + [0] == all;
    }
    OctetsBack(all);
    return Octets(shifted, 4);
  }

  // --------------------------------------------------------------- theorems

  /** Every printed address is a dotted quad that stands for that address. */
  lemma QuadRoundTrip(bs: seq<Byte>)
    requires |bs| == 4
    ensures IsQuad(QuadText(bs)) && QuadBytes(QuadText(bs)) == bs
  {
    var fs := seq(4, k requires 0 <= k < 4 => Numeral(Dec, bs[k]));
    forall k | 0 <= k < 4 ensures IsOctet(fs[k]) && NumVal(Dec, fs[k]) == bs[k] && '.' !in fs[k] {
      NumeralRoundTrip(Dec, bs[k]);
      assert !IsDigit(Dec, '.');
    }
    SplitJoin(fs, '.');
  }

  /** inet_aton reads every dotted quad as inet_pton4 does, and it takes exactly these
      further texts: fewer than four fields, empty fields, and fields that wrap to an octet. */
  lemma AtonVersusPton4(s: string, modulus: nat)
    requires modulus >= 0x1_0000_0000
    ensures IsQuad(s) ==> IsAton(s, modulus) && AtonBytes(s, modulus) == QuadBytes(s)
    ensures var fs := Split(s, '.');
            IsQuad(s) <==>
            && IsAton(s, modulus)
            && |fs| == 4
            && forall k :: 0 <= k < 4 ==> fs[k] != "" && Wrap(NumVal(Dec, fs[k]), modulus) == NumVal(Dec, fs[k])
  {
    var fs := Split(s, '.');
    if |fs| == 4 {
      assert IsQuad(s) <==> IsOctet(fs[0]) && IsOctet(fs[1]) && IsOctet(fs[2]) && IsOctet(fs[3]);
    }
  }

  /** Wrapping is the remainder. */
  lemma {:induction false} WrapIsRemainder(n: nat, modulus: nat)
    requires modulus > 0
    ensures Wrap(n, modulus) == n % modulus
    decreases n
  {
    if n >= modulus {
      WrapIsRemainder(n - modulus, modulus);
      RemainderStep(n, modulus);
    }
  }

  lemma RemainderStep(n: nat, m: nat)
    requires 0 < m <= n
    ensures n % m == (n - m) % m
  {
    var q, r := (n - m) / m, (n - m) % m;
    assert n == m * (q + 1) + r;
    SameRemainder(n, m, q + 1, r);
  }

  lemma SameRemainder(n: nat, m: nat, q: nat, r: nat)
    requires m > 0 && n == m * q + r && r < m
    ensures n % m == r
  {
    var d := n / m - q;
    assert n == m * (n / m) + n % m;
    assert m * d == r - n % m;
    AtLeastOne(m, d);
  }

  lemma AtLeastOne(m: nat, d: int)
    ensures d > 0 ==> m * d >= m
    ensures d < 0 ==> m * d <= -(m as int)
  {}

  lemma OneText()
    ensures Split("1", '.') == ["1"] && NumVal(Dec, "1") == 1 && NumVal(Dec, "") == 0
  {
    SplitFree("1", '.');
    NumValStep(Dec, "", '1');
    assert "" + ['1'] == "1";
  }

  /** Each of the three families is inhabited: a field is missing, ... */
  lemma AtonTakesMissing()
    ensures IsAton("1", 0x1_0000_0000) && !IsQuad("1") && AtonBytes("1", 0x1_0000_0000) == [1, 0, 0, 0]
  {
    OneText();
  }

  /** ... or a field is empty, ... */
  lemma AtonTakesEmpty(s: string)
    requires s == "1.."
    ensures IsAton(s, 0x1_0000_0000) && !IsQuad(s) && AtonBytes(s, 0x1_0000_0000) == [1, 0, 0, 0]
  {
    OneText();
    assert Split("", '.') == [""];
    SplitAppend("", "", '.');
    SplitAppend("1", ".", '.');
    assert s == "1" + ['.'] + "." && "." == "" + ['.'] + "";
    assert Split(s, '.') == ["1", "", ""];
  }

  /** ... or the number in a field is an octet only after wrapping. */
  lemma AtonTakesWrapped(bs: seq<Byte>, modulus: nat)
    requires |bs| == 4 && modulus >= 0x1_0000_0000
    ensures var s := Join([Numeral(Dec, bs[0]), Numeral(Dec, bs[1]), Numeral(Dec, bs[2]),
                           Numeral(Dec, modulus + bs[3])], '.');
            IsAton(s, modulus) && AtonBytes(s, modulus) == bs && !IsQuad(s)
  {
    var fs := [Numeral(Dec, bs[0]), Numeral(Dec, bs[1]), Numeral(Dec, bs[2]), Numeral(Dec, modulus + bs[3])];
    forall k | 0 <= k < 4
      ensures Digits(Dec, fs[k]) && '.' !in fs[k]
      ensures NumVal(Dec, fs[k]) == if k < 3 then bs[k] else modulus + bs[3]
    {
      NumeralRoundTrip(Dec, if k < 3 then bs[k] else modulus + bs[3]);
      assert !IsDigit(Dec, '.');
    }
    SplitJoin(fs, '.');
    forall k | 0 <= k < 4 ensures Wrap(NumVal(Dec, fs[k]), modulus) == bs[k] {}
  }
}
