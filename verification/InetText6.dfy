/**
 IPv6 texts: the one-pass parser inet_pton6 with its in-place shift.

 The parser is proved equal to a reference reading of the fields between
 colons, and that reading is proved to give every text form of section 2.2 of
 RFC 1884 its meaning; what else is accepted is stated exactly.
 */
module InetText6 {
  import opened Common
  import opened Fields
  import opened InetText4

  // -------------------------------------------------------- reference forms

  /** One 16-bit group: hexadecimal digits of either case, any leading zeros. */
  predicate IsGroup(f: string) {
    f != "" && Digits(Hex, f) && NumVal(Hex, f) <= 0xffff
  }

  /** The bytes of a list of groups; an empty field stands for the gap and adds none. */
  function Encode(ts: seq<string>): seq<Byte> {
    if ts == [] then []
    else Encode(Front(ts)) + (if Last(ts) == "" then [] else WordBytes(NumVal(Hex, Last(ts))))
  }

  /** The bytes of the last field, which may be a dotted quad. */
  function TailBytes(f: string): seq<Byte> {
    if f == "" then []
    else if IsGroup(f) then WordBytes(NumVal(Hex, f))
    else if IsQuad(f) then QuadBytes(f)
    else []
  }

  /** The first empty field, or the length of the list. */
  function Gap(ts: seq<string>): (g: nat)
    ensures g <= |ts|
    ensures forall k :: 0 <= k < g ==> ts[k] != ""
    ensures g < |ts| ==> ts[g] == ""
  {
    if ts == [] then 0
    else
      var g := Gap(Front(ts));
      if g < |ts| - 1 || Last(ts) == "" then g else g + 1
  }

  /** `all` with its bytes from `c` on moved to the end of the 16 and zeros between;
      when there is no room to move, the bytes from `c` on are zeroed. */
  function Open(all: seq<Byte>, c: nat): (r: seq<Byte>)
    requires c <= |all| <= 16
    ensures |r| == 16
  {
    if |all| == 16 then all[..c] + Zeros(16 - c)
    else all[..c] + Zeros(16 - |all|) + all[c..]
  }

  /** A leading "::" loses its first colon; any other leading colon is refused. */
  function Strip(s: string): Option<string> {
    if |s| == 0 || s[0] != ':' then Some(s)
    else if |s| >= 2 && s[1] == ':' then Some(s[1..])
    else None
  }

  /** The fields before the last one: groups, and at most one gap. */
  predicate HeadOk(h: seq<string>) {
    && (forall k :: 0 <= k < |h| ==> h[k] == "" || IsGroup(h[k]))
    && (forall j, k :: 0 <= j < k < |h| ==> !(h[j] == "" && h[k] == ""))
  }

  predicate TailOk(t: string) {
    t == "" || IsGroup(t) || IsQuad(t)
  }

  /** The fields that inet_pton6 accepts. */
  predicate Accepted(ts: seq<string>)
    requires ts != []
  {
    var h, t := Front(ts), Last(ts);
    && HeadOk(h)
    && TailOk(t)
    && var n := |Encode(h)| + |TailBytes(t)|;
       if Gap(h) < |h| then n <= 16 else n == 16
  }

  function Value(ts: seq<string>): (r: seq<Byte>)
    requires ts != [] && Accepted(ts)
    ensures |r| == 16
  {
    var h := Front(ts);
    var all := Encode(h) + TailBytes(Last(ts));
    if Gap(h) < |h| then EncodePrefix(h, Gap(h)); Open(all, |Encode(h[..Gap(h)])|) else all
  }

  /** The reference parser. */
  function Parse6(s: string): Option<seq<Byte>> {
    match Strip(s)
    case None => None
    case Some(body) =>
      var ts := Split(body, ':');
      if Accepted(ts) then Some(Value(ts)) else None
  }

  lemma {:induction false} EncodeAppend(a: seq<string>, b: seq<string>)
    ensures Encode(a + b) == Encode(a) + Encode(b)
  {
    if b == [] {
      assert a + b == a;
    } else {
      EncodeAppend(a, Front(b));
      assert Front(a + b) == a + Front(b);
    }
  }

  lemma EncodePrefix(ts: seq<string>, k: nat)
    requires k <= |ts|
    ensures Encode(ts) == Encode(ts[..k]) + Encode(ts[k..])
  {
    assert ts == ts[..k] + ts[k..];
    EncodeAppend(ts[..k], ts[k..]);
  }

  // ------------------------------------------------------------- the parser

  /** A field from which no group can come any more. */
  ghost predicate NoGroup(f: string) {
    !Digits(Hex, f) || NumVal(Hex, f) > 0xffff
  }

  lemma NoGroupStays(f: string, g: string)
    requires f <= g && NoGroup(f)
    ensures !IsGroup(g) && g != ""
  {
    if Digits(Hex, g) {
      forall k | 0 <= k < |f| ensures IsDigit(Hex, f[k]) { assert f[k] == g[k]; }
      NumValMonotone(Hex, f, g);
    }
  }

  lemma QuadChars(f: string, k: nat)
    requires IsQuad(f) && k < |f|
    ensures f[k] == '.' || IsDigit(Dec, f[k])
  {
    if f[k] != '.' {
      var fs := Split(f[..k + 1], '.');
      SplitStep(f, '.', k);
      SplitPrefix(f, '.', k + 1);
      var g := Split(f, '.')[|fs| - 1];
      assert IsOctet(g) && Last(fs) <= g;
      assert f[k] == Last(Last(fs)) == g[|Last(fs)| - 1];
    }
  }

  /** A hexadecimal prefix of a quad lies in its first field and has a small value. */
  lemma QuadPrefix(p: string, f: string)
    requires IsQuad(f) && p <= f && Digits(Hex, p)
    ensures NumVal(Hex, p) <= 0xffff
  {
    assert f[..|p|] == p;
    assert !IsDigit(Hex, '.');
    SplitFree(p, '.');
    SplitPrefix(f, '.', |p|);
    var g := Split(f, '.')[0];
    assert IsOctet(g) && p <= g;
    forall k | 0 <= k < |p| ensures IsDigit(Dec, p[k]) { assert p[k] == g[k]; }
    NumValMonotone(Dec, p, g);
    DecimalAsHex(p);
  }

  /** Field `k` of the text cannot be accepted where it stands. */
  lemma BadField(ts: seq<string>, k: nat)
    requires k < |ts| && ts[k] != "" && !IsGroup(ts[k])
    requires k == |ts| - 1 ==> !IsQuad(ts[k])
    ensures !Accepted(ts)
  {
    if k < |ts| - 1 {
      assert Front(ts)[k] == ts[k];
    }
  }

  /** The scan has read `s[..i]`; its last field `f` has turned out wrong. */
  lemma BadScan(s: string, i: nat)
    requires i <= |s|
    requires var f := Last(Split(s[..i], ':'));
             NoGroup(f) && (Digits(Hex, f) || exists k :: 0 <= k < |f| && f[k] != '.' && !IsDigit(Hex, f[k]))
    ensures !Accepted(Split(s, ':'))
  {
    var fs, gs := Split(s[..i], ':'), Split(s, ':');
    SplitPrefix(s, ':', i);
    var f, g := Last(fs), gs[|fs| - 1];
    NoGroupStays(f, g);
    if IsQuad(g) {
      if Digits(Hex, f) {
        QuadPrefix(f, g);
      } else {
        var k :| 0 <= k < |f| && f[k] != '.' && !IsDigit(Hex, f[k]);
        QuadChars(g, k);
        assert g[k] == f[k];
      }
    }
    BadField(gs, |fs| - 1);
  }

  /** The complete fields read so far are already too many, too long or have two gaps. */
  lemma BadHead(s: string, i: nat, h: seq<string>)
    requires i <= |s| && h <= Front(Split(s[..i], ':'))
    requires !HeadOk(h) || |Encode(h)| > 16
    ensures !Accepted(Split(s, ':'))
  {
    var fs, gs := Split(s[..i], ':'), Split(s, ':');
    SplitPrefix(s, ':', i);
    var h' := Front(gs);
    assert h == Front(fs)[..|h|] == h'[..|h|];
    EncodePrefix(h', |h|);
    if HeadOk(h') {
      forall k | 0 <= k < |h| ensures h[k] == h'[k] {}
    }
  }

  /** The shift by hand that opens the gap. */
  method ShiftGap(tmp: array<Byte>, colonp: nat, tp: nat)
    requires tmp.Length == 16 && colonp <= tp <= 16
    requires tmp[tp..] == Zeros(16 - tp)
    modifies tmp
    ensures tmp[..] == Open(old(tmp[..tp]), colonp)
  {
    var n := tp - colonp;
    ghost var was := tmp[..];
    for i := 1 to n + 1
      invariant forall p :: 16 - i < p < 16 ==> tmp[p] == if tp == 16 then 0 else was[p - (16 - tp)]
      invariant forall p :: 0 <= p < tp - (i - 1) ==> tmp[p] == was[p]
      invariant forall p :: tp - (i - 1) <= p <= 16 - i ==> tmp[p] == 0
    {
      tmp[16 - i] := tmp[colonp + n - i];
      tmp[colonp + n - i] := 0;
    }
    ghost var want := Open(was[..tp], colonp);
    forall p | 0 <= p < 16 ensures tmp[p] == want[p] {
      if tp < 16 && p >= 16 - n {
        assert want[p] == was[..tp][colonp..][p - (16 - n)];
      }
    }
  }

  /** The complete fields `h` have been stored: `colonp` is -1 for the null pointer. */
  ghost predicate Heads(h: seq<string>, tmp: seq<Byte>, tp: nat, colonp: int) {
    && |tmp| == 16
    && HeadOk(h)
    && tp == |Encode(h)| <= 16
    && tmp == Encode(h) + Zeros(16 - tp)
    && colonp == (if Gap(h) < |h| then |Encode(h[..Gap(h)])| else -1)
  }

  /** What the scan of `p` has established. */
  ghost predicate Scan6(p: string, tmp: seq<Byte>, tp: nat, colonp: int, curtok: nat, sawXdigit: bool, val: nat) {
    var cur := Last(Split(p, ':'));
    && Heads(Front(Split(p, ':')), tmp, tp, colonp)
    && Digits(Hex, cur) && val == NumVal(Hex, cur) <= 0xffff
    && sawXdigit == (cur != "")
    && |cur| <= |p| && curtok == |p| - |cur|
  }

  lemma ScanXdigit(p: string, c: char, tmp: seq<Byte>, tp: nat, colonp: int, curtok: nat, saw: bool, val: nat)
    requires Scan6(p, tmp, tp, colonp, curtok, saw, val) && IsDigit(Hex, c)
    ensures val * 16 + DigitVal(c) > 0xffff ==>
              NoGroup(Last(Split(p + [c], ':'))) && Digits(Hex, Last(Split(p + [c], ':')))
    ensures val * 16 + DigitVal(c) <= 0xffff ==>
              Scan6(p + [c], tmp, tp, colonp, curtok, true, val * 16 + DigitVal(c))
  {
    assert Front(p + [c]) == p;
    NumValStep(Hex, Last(Split(p, ':')), c);
    assert Front(Split(p + [c], ':')) == Front(Split(p, ':'));
  }

  /** `tmp` with `bs` stored at `at`. */
  function Put(tmp: seq<Byte>, at: nat, bs: seq<Byte>): seq<Byte>
    requires at + |bs| <= |tmp|
  {
    tmp[..at] + bs + tmp[at + |bs|..]
  }

  lemma PutBehind(all: seq<Byte>, bs: seq<Byte>)
    requires |all| + |bs| <= 16
    ensures Put(all + Zeros(16 - |all|), |all|, bs) == all + bs + Zeros(16 - |all + bs|)
  {}

  lemma GapAppend(h: seq<string>, f: string)
    ensures Gap(h + [f]) == if Gap(h) < |h| || f == "" then Gap(h) else |h| + 1
    ensures Gap(h + [f]) <= |h| ==> (h + [f])[..Gap(h + [f])] == h[..Gap(h)]
  {
    assert Front(h + [f]) == h;
  }

  lemma HeadAppend(h: seq<string>, f: string)
    requires HeadOk(h)
    ensures HeadOk(h + [f]) <==> IsGroup(f) || (f == "" && Gap(h) == |h|)
  {
    var g := h + [f];
    if f == "" && Gap(h) < |h| {
      assert g[Gap(h)] == "" && g[|h|] == "";
    }
    if HeadOk(g) {
      assert g[|h|] == f;
    }
  }

  lemma ColonFields(p: string)
    ensures Front(Split(p + [':'], ':')) == Front(Split(p, ':')) + [Last(Split(p, ':'))]
    ensures Last(Split(p + [':'], ':')) == ""
  {
    assert Front(p + [':']) == p;
    var ts := Split(p, ':');
    assert Front(ts + [""]) == ts == Front(ts) + [Last(ts)];
  }

  lemma EncodeJoin(h: seq<string>, f: string)
    ensures Encode(h + [f]) == Encode(h) + (if f == "" then [] else WordBytes(NumVal(Hex, f)))
  {
    assert Front(h + [f]) == h;
  }

  lemma GapOpens(h: seq<string>, tmp: seq<Byte>, tp: nat)
    requires Heads(h, tmp, tp, -1)
    ensures Heads(h + [""], tmp, tp, tp)
  {
    var g := h + [""];
    assert Gap(h) == |h|;
    HeadAppend(h, "");
    GapAppend(h, "");
    EncodeJoin(h, "");
    assert g[..Gap(g)] == h;
  }

  lemma GroupJoins(h: seq<string>, f: string, tmp: seq<Byte>, tp: nat, colonp: int)
    requires Heads(h, tmp, tp, colonp) && IsGroup(f)
    ensures |Encode(h + [f])| == tp + 2
    ensures tp + 2 <= 16 ==> Heads(h + [f], Put(tmp, tp, WordBytes(NumVal(Hex, f))), tp + 2, colonp)
  {
    EncodeJoin(h, f);
    if tp + 2 <= 16 {
      HeadAppend(h, f);
      GapAppend(h, f);
      PutBehind(Encode(h), WordBytes(NumVal(Hex, f)));
    }
  }

  /** A colon that ends an empty field opens the gap. */
  lemma ScanGap(p: string, tmp: seq<Byte>, tp: nat, colonp: int, curtok: nat, val: nat)
    requires Scan6(p, tmp, tp, colonp, curtok, false, val)
    ensures colonp != -1 ==> !HeadOk(Front(Split(p + [':'], ':')))
    ensures colonp == -1 ==> Scan6(p + [':'], tmp, tp, tp, |p| + 1, false, val)
  {
    ColonFields(p);
    var h := Front(Split(p, ':'));
    if colonp == -1 {
      GapOpens(h, tmp, tp);
    } else {
      HeadAppend(h, "");
    }
  }

  /** A colon that ends a group stores it. */
  lemma ScanGroup(p: string, tmp: seq<Byte>, tp: nat, colonp: int, curtok: nat, val: nat)
    requires Scan6(p, tmp, tp, colonp, curtok, true, val)
    ensures tp + 2 > 16 ==> |Encode(Front(Split(p + [':'], ':')))| > 16
    ensures tp + 2 <= 16 ==>
              Scan6(p + [':'], Put(tmp, tp, WordBytes(val)), tp + 2, colonp, |p| + 1, false, 0)
  {
    ColonFields(p);
    GroupJoins(Front(Split(p, ':')), Last(Split(p, ':')), tmp, tp, colonp);
  }

  /** When no further colon follows, the last field is the text from its start on. */
  lemma LastField(s: string, i: nat, curtok: nat)
    requires i <= |s| && |Split(s[..i], ':')| == |Split(s, ':')|
    requires |Last(Split(s[..i], ':'))| <= i && curtok == i - |Last(Split(s[..i], ':'))|
    ensures Last(Split(s, ':')) == s[curtok..]
  {
    assert s[..i] + s[i..] == s;
    SplitRest(s[..i], s[i..], ':');
    SplitLastSuffix(s[..i], ':');
    assert s[curtok..] == s[..i][curtok..] + s[i..];
  }

  /** A dot lies at its place in the field that is going on. */
  lemma DotField(s: string, i: nat)
    requires i < |s| && s[i] == '.'
    ensures var fs, gs := Split(s[..i], ':'), Split(s, ':');
            && Grows(fs, gs)
            && |Last(fs)| < |gs[|fs| - 1]| && gs[|fs| - 1][|Last(fs)|] == '.'
  {
    var fs := Split(s[..i], ':');
    var ds := Split(s[..i + 1], ':');
    SplitStep(s, ':', i);
    SplitPrefix(s, ':', i);
    SplitPrefix(s, ':', i + 1);
    assert |ds| == |fs| && Last(ds)[|Last(fs)|] == '.';
  }

  /** A dot in the field that is going on when a colon still follows. */
  lemma DotBeforeColon(s: string, i: nat, curtok: nat)
    requires i < |s| && s[i] == '.' && curtok <= i
    requires |Split(s[..i], ':')| < |Split(s, ':')|
    ensures !IsQuad(s[curtok..]) && !Accepted(Split(s, ':'))
  {
    var fs, gs := Split(s[..i], ':'), Split(s, ':');
    DotField(s, i);
    var g := gs[|fs| - 1];
    assert !IsDigit(Hex, g[|Last(fs)|]) && g != "" && !IsGroup(g);
    BadField(gs, |fs| - 1);
    RestHasColon(s, i);
    var j :| i <= j < |s| && s[j] == ':';
    if IsQuad(s[curtok..]) {
      assert s[curtok..][j - curtok] == ':' && !IsDigit(Dec, ':');
      QuadChars(s[curtok..], j - curtok);
    }
  }

  /** A dot in the last field. */
  lemma DotAtEnd(s: string, i: nat, curtok: nat)
    requires i < |s| && s[i] == '.'
    requires |Last(Split(s[..i], ':'))| <= i && curtok == i - |Last(Split(s[..i], ':'))|
    requires |Split(s[..i], ':')| == |Split(s, ':')|
    ensures Front(Split(s, ':')) == Front(Split(s[..i], ':')) && Last(Split(s, ':')) == s[curtok..]
    ensures !IsQuad(s[curtok..]) ==> !Accepted(Split(s, ':'))
  {
    var fs, gs := Split(s[..i], ':'), Split(s, ':');
    DotField(s, i);
    LastField(s, i, curtok);
    var g := Last(gs);
    assert g[i - curtok] == '.' && !IsDigit(Hex, '.') && !IsGroup(g);
    if !IsQuad(g) {
      BadField(gs, |gs| - 1);
    }
  }

  /** The last field is a quad exactly when inet_pton4 takes the text from `curtok` on. */
  lemma ScanDot(s: string, i: nat, curtok: nat)
    requires i < |s| && s[i] == '.'
    requires |Last(Split(s[..i], ':'))| <= i && curtok == i - |Last(Split(s[..i], ':'))|
    ensures !IsQuad(s[curtok..]) ==> !Accepted(Split(s, ':'))
    ensures IsQuad(s[curtok..]) ==>
              Front(Split(s, ':')) == Front(Split(s[..i], ':')) && Last(Split(s, ':')) == s[curtok..]
  {
    DotField(s, i);
    if |Split(s[..i], ':')| < |Split(s, ':')| {
      DotBeforeColon(s, i, curtok);
    } else {
      DotAtEnd(s, i, curtok);
    }
  }

  lemma {:induction false} RestHasColon(s: string, i: nat)
    requires i <= |s| && |Split(s, ':')| > |Split(s[..i], ':')|
    ensures exists j :: i <= j < |s| && s[j] == ':'
    decreases |s|
  {
    assert s[..|s|] == s;
    if Last(s) == ':' {
      assert s[|s| - 1] == ':';
    } else {
      assert Front(s)[..i] == s[..i];
      RestHasColon(Front(s), i);
      var j :| i <= j < |Front(s)| && Front(s)[j] == ':';
      assert s[j] == ':';
    }
  }

  /** Everything has been stored: the last field added `TailBytes` behind the complete ones. */
  ghost predicate Stored(ts: seq<string>, tmp: seq<Byte>, tp: nat, colonp: int)
    requires ts != []
  {
    var h := Front(ts);
    var all := Encode(h) + TailBytes(Last(ts));
    && HeadOk(h) && TailOk(Last(ts))
    && tp == |all| <= 16
    && tmp == all + Zeros(16 - tp)
    && colonp == (if Gap(h) < |h| then |Encode(h[..Gap(h)])| else -1)
  }

  /** The gap, when there is one, is opened; without one the 16 bytes must be full. */
  lemma Finish(ts: seq<string>, tmp: seq<Byte>, tp: nat, colonp: int)
    requires ts != [] && Stored(ts, tmp, tp, colonp)
    ensures |tmp| == 16 && tp <= 16 && tmp[tp..] == Zeros(16 - tp)
    ensures colonp == -1 ==> (Accepted(ts) <==> tp == 16)
    ensures colonp == -1 && tp == 16 ==> tmp == Value(ts)
    ensures colonp != -1 ==> 0 <= colonp <= tp && Accepted(ts) && Value(ts) == Open(tmp[..tp], colonp)
  {
    var h := Front(ts);
    if Gap(h) < |h| {
      EncodePrefix(h, Gap(h));
    }
    assert tmp[..tp] == Encode(h) + TailBytes(Last(ts));
  }

  /** Reads `src` into 16 bytes of `dst`, which is not touched unless the result is true. */
  method InetPton6(src: string, dst: array<Byte>) returns (ok: bool)
    requires dst.Length >= 16
    modifies dst
    ensures ok == Parse6(src).Some?
    ensures dst[..] == if ok then Parse6(src).value + old(dst[16..]) else old(dst[..])
  {
    if |src| > 0 && src[0] == ':' {
      if |src| < 2 || src[1] != ':' {
        return false;
      }
      ok := ReadFields(src[1..], dst);
    } else {
      ok := ReadFields(src, dst);
    }
  }

  method ReadFields(s: string, dst: array<Byte>) returns (ok: bool)
    requires dst.Length >= 16
    modifies dst
    ensures ok == Accepted(Split(s, ':'))
    ensures dst[..] == if ok then Value(Split(s, ':')) + old(dst[16..]) else old(dst[..])
  {
    var tmp;
    ok, tmp := ReadBytes(s);
    if ok {
      CopyBytes(tmp, dst, 0);
    }
  }

  /** Everything but the copy. */
  method ReadBytes(s: string) returns (ok: bool, tmp: array<Byte>)
    ensures fresh(tmp) && tmp.Length == 16
    ensures ok == Accepted(Split(s, ':'))
    ensures ok ==> tmp[..] == Value(Split(s, ':'))
  {
    var tp, colonp;
    ok, tmp, tp, colonp := ScanText(s);
    if !ok {
      return;
    }
    Finish(Split(s, ':'), tmp[..], tp, colonp);
    if colonp != -1 {
      ShiftGap(tmp, colonp, tp);
      tp := 16;
    }
    ok := tp == 16;
  }

  method StoreWord(tmp: array<Byte>, tp: nat, val: nat)
    requires tp + 2 <= tmp.Length
    modifies tmp
    ensures tmp[..] == Put(old(tmp[..]), tp, WordBytes(val))
  {
    tmp[tp] := val / 256 % 256;
    tmp[tp + 1] := val % 256;
  }

  /** A colon: an empty field opens the gap, a group is stored. */
  method EndField(s: string, i: nat, tmp: array<Byte>, tp0: nat, colonp0: int, ghost curtok: nat,
                  sawXdigit: bool, val: nat)
    returns (ok: bool, tp: nat, colonp: int)
    requires i < |s| && s[i] == ':' && tmp.Length == 16
    requires Scan6(s[..i], tmp[..], tp0, colonp0, curtok, sawXdigit, val)
    modifies tmp
    ensures ok ==> Scan6(s[..i + 1], tmp[..], tp, colonp, i + 1, false, 0)
    ensures !ok ==> !Accepted(Split(s, ':'))
  {
    ok, tp, colonp := true, tp0, colonp0;
    TakeNext(s, i);
    assert |s[..i]| == i;
    if !sawXdigit {
      ScanGap(s[..i], tmp[..], tp, colonp, curtok, val);
      if colonp != -1 {
        BadHead(s, i + 1, Front(Split(s[..i + 1], ':')));
        return false, tp, colonp;
      }
      colonp := tp;
    } else {
      ScanGroup(s[..i], tmp[..], tp, colonp, curtok, val);
      if tp + 2 > 16 {
        BadHead(s, i + 1, Front(Split(s[..i + 1], ':')));
        return false, tp, colonp;
      }
      StoreWord(tmp, tp, val);
      tp := tp + 2;
    }
  }

  lemma TakeNext(s: string, i: nat)
    requires i < |s|
    ensures s[..i + 1] == s[..i] + [s[i]]
  {}

  /** A hexadecimal digit of the current field. */
  lemma TakeXdigit(s: string, i: nat, tmp: seq<Byte>, tp: nat, colonp: int, curtok: nat, saw: bool, val: nat)
    requires i < |s| && IsDigit(Hex, s[i]) && Scan6(s[..i], tmp, tp, colonp, curtok, saw, val)
    ensures val * 16 + DigitVal(s[i]) <= 0xffff ==>
              Scan6(s[..i + 1], tmp, tp, colonp, curtok, true, val * 16 + DigitVal(s[i]))
  {
    TakeNext(s, i);
    ScanXdigit(s[..i], s[i], tmp, tp, colonp, curtok, saw, val);
  }

  lemma XdigitValue(p: string, c: char, val: nat)
    requires c != ':' && IsDigit(Hex, c)
    requires Digits(Hex, Last(Split(p, ':'))) && val == NumVal(Hex, Last(Split(p, ':')))
    ensures Digits(Hex, Last(Split(p + [c], ':')))
    ensures NumVal(Hex, Last(Split(p + [c], ':'))) == val * 16 + DigitVal(c)
  {
    LastGrows(p, ':', c);
    NumValStep(Hex, Last(Split(p, ':')), c);
  }

  /** A digit that makes the group too large. */
  lemma RefuseXdigit(s: string, i: nat, val: nat)
    requires i < |s| && IsDigit(Hex, s[i]) && s[i] != ':'
    requires Digits(Hex, Last(Split(s[..i], ':'))) && val == NumVal(Hex, Last(Split(s[..i], ':')))
    requires val * 16 + DigitVal(s[i]) > 0xffff
    ensures !Accepted(Split(s, ':'))
  {
    XdigitValue(s[..i], s[i], val);
    TakeNext(s, i);
    TooLarge(s, i + 1);
  }

  lemma TooLarge(s: string, i: nat)
    requires i <= |s|
    requires Digits(Hex, Last(Split(s[..i], ':'))) && NumVal(Hex, Last(Split(s[..i], ':'))) > 0xffff
    ensures !Accepted(Split(s, ':'))
  {
    BadScan(s, i);
  }

  /** A hexadecimal digit: the value of the field so far has to stay within 16 bits. */
  method AddXdigit(s: string, i: nat, ghost tmp: seq<Byte>, ghost tp: nat, ghost colonp: int, ghost curtok: nat,
                   ghost saw: bool, val0: nat)
    returns (ok: bool, val: nat)
    requires i < |s| && IsDigit(Hex, s[i]) && Scan6(s[..i], tmp, tp, colonp, curtok, saw, val0)
    ensures ok ==> Scan6(s[..i + 1], tmp, tp, colonp, curtok, true, val)
    ensures !ok ==> !Accepted(Split(s, ':'))
  {
    val := val0 * 16 + DigitVal(s[i]);
    if val > 0xffff {
      RefuseXdigit(s, i, val0);
      return false, val;
    }
    TakeXdigit(s, i, tmp, tp, colonp, curtok, saw, val0);
    ok := true;
  }

  /** The scan of the text behind the first colon, up to the bytes of the last field. */
  method ScanText(s: string) returns (ok: bool, tmp: array<Byte>, tp: nat, colonp: int)
    ensures fresh(tmp) && tmp.Length == 16
    ensures ok ==> Stored(Split(s, ':'), tmp[..], tp, colonp)
    ensures !ok ==> !Accepted(Split(s, ':'))
  {
    tmp := new Byte[16](_ => 0);
    tp, colonp := 0, -1;
    var curtok: nat, sawXdigit, val: nat := 0, false, 0;
    StartScan(s, tmp[..]);
    for i := 0 to |s|
      invariant fresh(tmp) && tmp.Length == 16
      invariant Scan6(s[..i], tmp[..], tp, colonp, curtok, sawXdigit, val)
    {
      var ch := s[i];
      if IsDigit(Hex, ch) {
        ok, val := AddXdigit(s, i, tmp[..], tp, colonp, curtok, sawXdigit, val);
        if !ok {
          return;
        }
        sawXdigit := true;
      } else if ch == ':' {
        ok, tp, colonp := EndField(s, i, tmp, tp, colonp, curtok, sawXdigit, val);
        if !ok {
          return;
        }
        sawXdigit, val, curtok := false, 0, i + 1;
      } else if ch == '.' {
        ok := ScanQuad(s, i, tmp, tp, colonp, curtok, sawXdigit, val);
        return ok, tmp, if ok then tp + 4 else tp, colonp;
      } else {
        ScanOther(s, i);
        return false, tmp, tp, colonp;
      }
    }
    assert s[..|s|] == s;
    ok, tp := EndText(s, tmp, tp, colonp, curtok, sawXdigit, val);
  }

  lemma StartScan(s: string, tmp: seq<Byte>)
    requires tmp == Zeros(16)
    ensures Scan6(s[..0], tmp, 0, -1, 0, false, 0)
  {}

  /** The end of the text: the last group is stored. */
  method EndText(s: string, tmp: array<Byte>, tp0: nat, colonp: int, ghost curtok: nat, sawXdigit: bool, val: nat)
    returns (ok: bool, tp: nat)
    requires tmp.Length == 16 && Scan6(s, tmp[..], tp0, colonp, curtok, sawXdigit, val)
    modifies tmp
    ensures ok ==> Stored(Split(s, ':'), tmp[..], tp, colonp)
    ensures !ok ==> !Accepted(Split(s, ':'))
  {
    ok, tp := true, tp0;
    StoreLast(s, tmp[..], tp, colonp, curtok, sawXdigit, val);
    if sawXdigit {
      if tp + 2 > 16 {
        return false, tp;
      }
      StoreWord(tmp, tp, val);
      tp := tp + 2;
    }
  }

  lemma ScanOther(s: string, i: nat)
    requires i < |s| && s[i] != ':' && s[i] != '.' && !IsDigit(Hex, s[i])
    ensures !Accepted(Split(s, ':'))
  {
    SplitStep(s, ':', i);
    var cur := Last(Split(s[..i], ':'));
    NumValStep(Hex, cur, s[i]);
    var f := Last(Split(s[..i + 1], ':'));
    assert f[|cur|] == s[i];
    BadScan(s, i + 1);
  }

  lemma QuadTail(f: string, k: nat)
    requires IsQuad(f) && k < |f| && f[k] == '.'
    ensures TailBytes(f) == QuadBytes(f)
  {
    assert !IsDigit(Hex, f[k]);
  }

  /** A quad as last field: accepted only if it fits, and then it is stored. */
  lemma StoreTail(ts: seq<string>, tmp: seq<Byte>, tp: nat, colonp: int, bs: seq<Byte>)
    requires ts != [] && Heads(Front(ts), tmp, tp, colonp)
    requires TailOk(Last(ts)) && TailBytes(Last(ts)) == bs
    ensures tp + |bs| > 16 ==> !Accepted(ts)
    ensures tp + |bs| <= 16 ==> Stored(ts, Put(tmp, tp, bs), tp + |bs|, colonp)
  {
    if tp + |bs| <= 16 {
      PutBehind(Encode(Front(ts)), bs);
    }
  }

  lemma StoreLast(s: string, tmp: seq<Byte>, tp: nat, colonp: int, curtok: nat, saw: bool, val: nat)
    requires Scan6(s, tmp, tp, colonp, curtok, saw, val)
    ensures !saw ==> Stored(Split(s, ':'), tmp, tp, colonp)
    ensures saw && tp + 2 > 16 ==> !Accepted(Split(s, ':'))
    ensures saw && tp + 2 <= 16 ==>
              Stored(Split(s, ':'), Put(tmp, tp, WordBytes(val)), tp + 2, colonp)
  {
    var ts := Split(s, ':');
    if saw {
      assert IsGroup(Last(ts));
      StoreTail(ts, tmp, tp, colonp, WordBytes(val));
    } else {
      StoreTail(ts, tmp, tp, colonp, []);
      assert Put(tmp, tp, []) == tmp;
    }
  }

  lemma StoreQuad(s: string, i: nat, tmp: seq<Byte>, tp: nat, colonp: int, curtok: nat, saw: bool, val: nat)
    requires i < |s| && s[i] == '.'
    requires Scan6(s[..i], tmp, tp, colonp, curtok, saw, val)
    ensures curtok <= i
    ensures !IsQuad(s[curtok..]) || tp + 4 > 16 ==> !Accepted(Split(s, ':'))
    ensures IsQuad(s[curtok..]) && tp + 4 <= 16 ==>
              Stored(Split(s, ':'), Put(tmp, tp, QuadBytes(s[curtok..])), tp + 4, colonp)
  {
    ScanDot(s, i, curtok);
    if IsQuad(s[curtok..]) {
      assert s[curtok..][i - curtok] == '.';
      StoreQuadTail(Split(s, ':'), i - curtok, tmp, tp, colonp);
    }
  }

  lemma StoreQuadTail(ts: seq<string>, k: nat, tmp: seq<Byte>, tp: nat, colonp: int)
    requires ts != [] && Heads(Front(ts), tmp, tp, colonp)
    requires IsQuad(Last(ts)) && k < |Last(ts)| && Last(ts)[k] == '.'
    ensures tp + 4 > 16 ==> !Accepted(ts)
    ensures tp + 4 <= 16 ==> Stored(ts, Put(tmp, tp, QuadBytes(Last(ts))), tp + 4, colonp)
  {
    QuadTail(Last(ts), k);
    StoreTail(ts, tmp, tp, colonp, QuadBytes(Last(ts)));
  }

  /** The first dot: the rest of the text has to be a dotted quad that still fits. */
  method ScanQuad(s: string, i: nat, tmp: array<Byte>, tp: nat, colonp: int, curtok: nat, sawXdigit: bool, val: nat)
    returns (ok: bool)
    requires i < |s| && s[i] == '.' && tmp.Length == 16
    requires Scan6(s[..i], tmp[..], tp, colonp, curtok, sawXdigit, val)
    modifies tmp
    ensures ok ==> Stored(Split(s, ':'), tmp[..], tp + 4, colonp)
    ensures !ok ==> !Accepted(Split(s, ':'))
  {
    StoreQuad(s, i, tmp[..], tp, colonp, curtok, sawXdigit, val);
    if tp + 4 > 16 {
      return false;
    }
    ok := InetPton4(s[curtok..], tmp, tp);
  }
}
