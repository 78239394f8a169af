/**
 The IPv6 printer inet_ntop6, and the round trip through inet_pton6.
 */
module InetText6Print {
  import opened Common
  import opened Fields
  import opened InetText4
  import opened InetText6
  import opened InetText6Legal

  // ------------------------------------------------- the run that is shortened

  /** A run of zero words; base -1 stands for none. */
  datatype Run = Run(base: int, len: int)

  ghost predicate ZeroRun(w: seq<nat>, base: int, len: int) {
    0 <= base && 0 <= len && base + len <= |w| && forall k :: base <= k < base + len ==> w[k] == 0
  }

  /** The leftmost of the longest runs of at least two zero words, if there is one. */
  ghost predicate LeftmostLongest(w: seq<nat>, r: Run) {
    if r.base == -1 then forall b, l :: ZeroRun(w, b, l) ==> l <= 1
    else
      && r.len >= 2
      && ZeroRun(w, r.base, r.len)
      && forall b, l :: ZeroRun(w, b, l) ==> l <= r.len && (l == r.len ==> r.base <= b)
  }

  function Better(best: Run, cur: Run): Run {
    if cur.base != -1 && (best.base == -1 || cur.len > best.len) then cur else best
  }

  /** The variables `best` and `cur` after the words before `i`. */
  function ScanRuns(w: seq<nat>, i: nat): (Run, Run)
    requires i <= |w|
  {
    if i == 0 then (Run(-1, 0), Run(-1, 0))
    else
      var (best, cur) := ScanRuns(w, i - 1);
      if w[i - 1] == 0 then
        (best, if cur.base == -1 then Run(i - 1, 1) else Run(cur.base, cur.len + 1))
      else (Better(best, cur), Run(-1, cur.len))
  }

  function Chosen(w: seq<nat>): Run {
    var (best, cur) := ScanRuns(w, |w|);
    var r := Better(best, cur);
    if r.base != -1 && r.len < 2 then Run(-1, r.len) else r
  }

  /** Run `r` beats the zero run of `l` words at `b`. */
  ghost predicate Beats(r: Run, b: int, l: int) {
    r.base != -1 && l <= r.len && (l == r.len ==> r.base <= b)
  }

  ghost predicate RunsSeen(w: seq<nat>, i: nat, best: Run, cur: Run)
    requires i <= |w|
  {
    && (cur.base == -1 ==> i == 0 || w[i - 1] != 0)
    && (cur.base != -1 ==> ZeroRun(w, cur.base, cur.len) && cur.base + cur.len == i && cur.len >= 1)
    && (cur.base > 0 ==> w[cur.base - 1] != 0)
    && (best.base != -1 ==> ZeroRun(w, best.base, best.len) && best.len >= 1)
    && (best.base != -1 ==> best.base + best.len <= if cur.base == -1 then i else cur.base)
    && (forall b, l :: ZeroRun(w, b, l) && l >= 1 && b + l <= i ==>
          (cur.base != -1 && cur.base <= b) || Beats(best, b, l))
  }

  lemma ZeroSeen(w: seq<nat>, i: nat, best: Run, cur: Run)
    requires i < |w| && w[i] == 0 && RunsSeen(w, i, best, cur)
    ensures RunsSeen(w, i + 1, best, if cur.base == -1 then Run(i, 1) else Run(cur.base, cur.len + 1))
  {
    forall b, l | ZeroRun(w, b, l) && l >= 1 && b + l == i + 1
      ensures cur.base != -1 ==> cur.base <= b
      ensures cur.base == -1 ==> b == i
    {}
  }

  lemma OtherSeen(w: seq<nat>, i: nat, best: Run, cur: Run)
    requires i < |w| && w[i] != 0 && RunsSeen(w, i, best, cur)
    ensures RunsSeen(w, i + 1, Better(best, cur), Run(-1, cur.len))
  {
    forall b, l | ZeroRun(w, b, l) && l >= 1 && b + l <= i + 1
      ensures Beats(Better(best, cur), b, l)
    {
      assert w[b + l - 1] == 0;
      assert ZeroRun(w, b, l) && b + l <= i;
    }
  }

  lemma {:induction false} ScanRunsSeen(w: seq<nat>, i: nat)
    requires i <= |w|
    ensures RunsSeen(w, i, ScanRuns(w, i).0, ScanRuns(w, i).1)
  {
    if i > 0 {
      ScanRunsSeen(w, i - 1);
      var (best, cur) := ScanRuns(w, i - 1);
      if w[i - 1] == 0 {
        ZeroSeen(w, i - 1, best, cur);
      } else {
        OtherSeen(w, i - 1, best, cur);
      }
    }
  }

  /** The scan finds the leftmost longest run, as section 4.2 of RFC 5952 asks. */
  lemma ChosenIsLeftmostLongest(w: seq<nat>)
    ensures LeftmostLongest(w, Chosen(w))
  {
    ScanRunsSeen(w, |w|);
    var (best, cur) := ScanRuns(w, |w|);
    var r := Better(best, cur);
    forall b, l | ZeroRun(w, b, l) && l >= 1 ensures Beats(r, b, l) {}
    if r.base != -1 {
      assert ZeroRun(w, r.base, r.len);
    }
  }

  lemma LeftmostLongestIsUnique(w: seq<nat>, r: Run, q: Run)
    requires LeftmostLongest(w, r) && LeftmostLongest(w, q)
    ensures r.base == q.base && (r.base != -1 ==> r == q)
  {
    if r.base != -1 { assert ZeroRun(w, r.base, r.len); }
    if q.base != -1 { assert ZeroRun(w, q.base, q.len); }
  }

  // -------------------------------------------------------- the printed form

  function WordsOf(a: seq<Byte>): (w: seq<nat>)
    requires |a| == 16
    ensures |w| == 8 && forall k :: 0 <= k < 8 ==> w[k] < 65536
  {
    seq(8, k requires 0 <= k < 8 => Word(a[2 * k], a[2 * k + 1]))
  }

  function Word(hi: Byte, lo: Byte): (w: nat)
    ensures w < 65536
  {
    hi as int * 256 + lo
  }

  lemma WordBytesBack(hi: Byte, lo: Byte)
    ensures WordBytes(Word(hi, lo)) == [hi, lo]
  {
    assert (hi as int * 256 + lo) / 256 == hi;
  }

  /** The eight words as printf's %x writes them. */
  function Hexes(a: seq<Byte>): (gs: seq<string>)
    requires |a| == 16
    ensures |gs| == 8
  {
    seq(8, k requires 0 <= k < 8 => Numeral(Hex, WordsOf(a)[k]))
  }

  /** The words are an encapsulated IPv4 address. */
  predicate ShowsQuad(words: seq<nat>, r: Run)
    requires |words| == 8
  {
    r.base == 0 && (r.len == 6 || (r.len == 5 && words[5] == 0xffff))
  }

  function QuadOf(a: seq<Byte>, r: Run): Option<string>
    requires |a| == 16
  {
    if ShowsQuad(WordsOf(a), r) then Some(QuadText(a[12..])) else None
  }

  predicate InRange(r: Run, q: Option<string>) {
    && (r.base == -1 || (0 <= r.base && 2 <= r.len && r.base + r.len <= 8))
    && (q.Some? ==> r.base == 0 && 5 <= r.len <= 6)
  }

  function Form(gs: seq<string>, r: Run, q: Option<string>): Text6
    requires |gs| == 8 && InRange(r, q)
  {
    if r.base == -1 then Full(gs, None)
    else if q.Some? then Short([], gs[r.len..6], q)
    else Short(gs[..r.base], gs[r.base + r.len..], None)
  }

  lemma ChosenInRange(a: seq<Byte>)
    requires |a| == 16
    ensures InRange(Chosen(WordsOf(a)), QuadOf(a, Chosen(WordsOf(a))))
  {
    ChosenIsLeftmostLongest(WordsOf(a));
    var r := Chosen(WordsOf(a));
    if r.base != -1 { assert ZeroRun(WordsOf(a), r.base, r.len); }
  }

  function Printed(a: seq<Byte>): Text6
    requires |a| == 16
  {
    var r := Chosen(WordsOf(a));
    ChosenInRange(a);
    Form(Hexes(a), r, QuadOf(a, r))
  }

  /** The groups are short, legal and stand for the words of the address. */
  ghost predicate Shows(gs: seq<string>, a: seq<Byte>)
    requires |a| == 16 && |gs| == 8
  {
    forall k :: 0 <= k < 8 ==>
      IsGroup(gs[k]) && |gs[k]| <= 4 && WordBytes(NumVal(Hex, gs[k])) == a[2 * k..2 * k + 2]
  }

  lemma HexShows(a: seq<Byte>, k: nat)
    requires |a| == 16 && k < 8
    ensures var g := Hexes(a)[k];
            IsGroup(g) && |g| <= 4 && WordBytes(NumVal(Hex, g)) == [a[2 * k], a[2 * k + 1]]
  {
    NumeralRoundTrip(Hex, WordsOf(a)[k]);
    WordLength(WordsOf(a)[k]);
    WordBytesBack(a[2 * k], a[2 * k + 1]);
  }

  lemma HexesShow(a: seq<Byte>)
    requires |a| == 16
    ensures Shows(Hexes(a), a)
  {
    forall k | 0 <= k < 8
      ensures var g := Hexes(a)[k];
              IsGroup(g) && |g| <= 4 && WordBytes(NumVal(Hex, g)) == a[2 * k..2 * k + 2]
    {
      HexShows(a, k);
      Pair(a, 2 * k);
    }
  }

  lemma Pair(a: seq<Byte>, p: nat)
    requires p + 2 <= |a|
    ensures a[p..p + 2] == [a[p], a[p + 1]]
  {}

  lemma SliceOn(a: seq<Byte>, p: nat, q: nat)
    requires p <= q && q + 2 <= |a|
    ensures a[p..q + 2] == a[p..q] + a[q..q + 2]
  {}

  lemma {:induction false} GroupBytes(gs: seq<string>, a: seq<Byte>, i: nat, j: nat)
    requires |a| == 16 && |gs| == 8 && Shows(gs, a) && i <= j <= 8
    ensures Groups(gs[i..j]) && Words(gs[i..j]) == a[2 * i..2 * j]
    decreases j
  {
    if i < j {
      GroupBytes(gs, a, i, j - 1);
      SliceOn(a, 2 * i, 2 * (j - 1));
      OneMoreGroup(gs, i, j - 1);
    }
  }

  lemma OneMoreGroup(gs: seq<string>, i: nat, j: nat)
    requires i <= j < |gs| && Groups(gs[i..j]) && IsGroup(gs[j])
    ensures Groups(gs[i..j + 1]) && Words(gs[i..j + 1]) == Words(gs[i..j]) + WordBytes(NumVal(Hex, gs[j]))
  {
    assert Front(gs[i..j + 1]) == gs[i..j] && Last(gs[i..j + 1]) == gs[j];
    var hs, was := gs[i..j + 1], gs[i..j];
    assert hs == was + [gs[j]];
    assert forall k :: 0 <= k < |was| ==> IsGroup(was[k]);
  }

  lemma WordIsZero(a: seq<Byte>, k: nat)
    requires |a| == 16 && k < 8 && WordsOf(a)[k] == 0
    ensures a[2 * k] == 0 && a[2 * k + 1] == 0
  {
    assert WordsOf(a)[k] == Word(a[2 * k], a[2 * k + 1]);
  }

  lemma {:induction false} ZeroWordsAreZeroBytes(a: seq<Byte>, base: nat, len: nat)
    requires |a| == 16 && ZeroRun(WordsOf(a), base, len)
    ensures a[2 * base..2 * (base + len)] == Zeros(2 * len)
  {
    if len > 0 {
      ZeroWordsAreZeroBytes(a, base, len - 1);
      WordIsZero(a, base + len - 1);
      SliceOn(a, 2 * base, 2 * (base + len - 1));
      Pair(a, 2 * (base + len - 1));
      assert Zeros(2 * (len - 1)) + [0, 0] == Zeros(2 * len);
    }
  }

  lemma Reassemble(a: seq<Byte>, i: nat, j: nat, k: nat)
    requires |a| == 16 && i <= j <= k <= 16 && a[i..j] == Zeros(j - i)
    ensures a[..i] + Zeros(j - i) + (a[j..k] + a[k..]) == a
  {}

  lemma ShortQuadMeans(a: seq<Byte>, n: nat, right: seq<string>, quad: string)
    requires |a| == 16 && 0 < n <= 6 && |right| == 6 - n && Groups(right) && IsQuad(quad)
    requires a[..2 * n] == Zeros(2 * n) && Words(right) == a[2 * n..12] && QuadBytes(quad) == a[12..]
    ensures Short([], right, Some(quad)).Valid() && Short([], right, Some(quad)).Meaning() == a
  {
    QuadAround(a, 2 * n, right, QuadBytes(quad));
  }

  lemma QuadAround(a: seq<Byte>, p: nat, right: seq<string>, last: seq<Byte>)
    requires |a| == 16 && p <= 12 && 2 * |right| == 12 - p && |last| == 4
    requires a[..p] == Zeros(p) && Words(right) == a[p..12] && last == a[12..]
    ensures AroundGap([], right, last) == a
  {
    assert Words([]) == a[..0] && a[0..p] == a[..p];
    Reassemble(a, 0, p, 12);
  }

  lemma QuadFormMeans(gs: seq<string>, a: seq<Byte>, r: Run, q: Option<string>)
    requires |a| == 16 && |gs| == 8 && Shows(gs, a) && InRange(r, q) && ZeroRun(WordsOf(a), r.base, r.len)
    requires q == Some(QuadText(a[12..]))
    ensures Form(gs, r, q).Valid() && Form(gs, r, q).Meaning() == a
  {
    GroupBytes(gs, a, r.len, 6);
    QuadRoundTrip(a[12..]);
    ZeroWordsAreZeroBytes(a, 0, r.len);
    assert a[2 * 0..2 * (0 + r.len)] == a[..2 * r.len];
    ShortQuadMeans(a, r.len, gs[r.len..6], q.value);
  }

  lemma AroundGapMeans(a: seq<Byte>, i: nat, j: nat, left: seq<string>, right: seq<string>)
    requires |a| == 16 && i <= j <= 16 && a[i..j] == Zeros(j - i)
    requires 2 * |left| == i && 2 * |right| == 16 - j
    requires Words(left) == a[..i] && Words(right) == a[j..]
    ensures AroundGap(left, right, []) == a
  {
    Reassemble(a, i, j, 16);
    assert a[j..16] == a[j..] && a[16..] == [];
  }

  lemma ShortMeans(a: seq<Byte>, i: nat, m: nat, left: seq<string>, right: seq<string>)
    requires |a| == 16 && i < m <= 8 && |left| == i && |right| == 8 - m && Groups(left) && Groups(right)
    requires a[2 * i..2 * m] == Zeros(2 * (m - i)) && Words(left) == a[..2 * i] && Words(right) == a[2 * m..]
    ensures Short(left, right, None).Valid() && Short(left, right, None).Meaning() == a
  {
    AroundGapMeans(a, 2 * i, 2 * m, left, right);
  }

  lemma PlainFormMeans(gs: seq<string>, a: seq<Byte>, r: Run)
    requires |a| == 16 && |gs| == 8 && Shows(gs, a) && InRange(r, None) && r.base != -1
    requires ZeroRun(WordsOf(a), r.base, r.len)
    ensures Form(gs, r, None).Valid() && Form(gs, r, None).Meaning() == a
  {
    var m := r.base + r.len;
    ZeroWordsAreZeroBytes(a, r.base, r.len);
    Halves(gs, a, r.base, m);
    ShortMeans(a, r.base, m, gs[..r.base], gs[m..]);
  }

  lemma Halves(gs: seq<string>, a: seq<Byte>, i: nat, m: nat)
    requires |a| == 16 && |gs| == 8 && Shows(gs, a) && i <= m <= 8
    ensures Groups(gs[..i]) && Groups(gs[m..])
    ensures Words(gs[..i]) == a[..2 * i] && Words(gs[m..]) == a[2 * m..]
  {
    GroupBytes(gs, a, 0, i);
    GroupBytes(gs, a, m, 8);
    assert gs[0..i] == gs[..i] && gs[m..8] == gs[m..];
    assert a[0..2 * i] == a[..2 * i] && a[2 * m..16] == a[2 * m..];
  }

  /** The form that is printed is a legal text for exactly this address. */
  lemma PrintedMeans(a: seq<Byte>)
    requires |a| == 16
    ensures Printed(a).Valid() && Printed(a).Meaning() == a
  {
    var r := Chosen(WordsOf(a));
    ChosenIsLeftmostLongest(WordsOf(a));
    ChosenInRange(a);
    HexesShow(a);
    if r.base == -1 {
      var gs := Hexes(a);
      GroupBytes(gs, a, 0, 8);
      assert gs[0..8] == gs && a[0..16] + [] == a;
    } else if QuadOf(a, r).Some? {
      QuadFormMeans(Hexes(a), a, r, QuadOf(a, r));
    } else {
      PlainFormMeans(Hexes(a), a, r);
    }
  }

  /** Some long run at the start, before a word that is not zero. */
  lemma ChosenAtStart(w: seq<nat>, n: nat)
    requires |w| == 8 && 5 <= n < 8 && (forall k :: 0 <= k < n ==> w[k] == 0) && w[n] != 0
    ensures Chosen(w) == Run(0, n)
  {
    var r := Chosen(w);
    ChosenIsLeftmostLongest(w);
    assert ZeroRun(w, 0, n);
    assert r.base != -1 && r.len >= n && ZeroRun(w, r.base, r.len);
    InRun(w, r.base, r.len, n);
  }

  lemma InRun(w: seq<nat>, base: int, len: int, n: nat)
    requires ZeroRun(w, base, len) && n < |w|
    ensures base <= n < base + len ==> w[n] == 0
  {}

  lemma ChosenEndsThere(w: seq<nat>, n: nat)
    requires |w| == 8 && n < 8 && Chosen(w) == Run(0, n)
    ensures (forall k :: 0 <= k < n ==> w[k] == 0) && w[n] != 0
  {
    ChosenIsLeftmostLongest(w);
    assert ZeroRun(w, 0, n);
    if w[n] == 0 {
      assert ZeroRun(w, 0, n + 1);
    }
  }

  /** The addresses that are printed with a dotted tail: 96 zero bits and then not sixteen more,
      or 80 zero bits and sixteen ones. */
  lemma QuadShown(a: seq<Byte>)
    requires |a| == 16
    ensures var w := WordsOf(a);
            ShowsQuad(w, Chosen(w)) <==>
            && (forall k :: 0 <= k < 5 ==> w[k] == 0)
            && ((w[5] == 0 && w[6] != 0) || w[5] == 0xffff)
  {
    var w := WordsOf(a);
    if ShowsQuad(w, Chosen(w)) {
      ChosenEndsThere(w, Chosen(w).len);
    }
    if (forall k :: 0 <= k < 5 ==> w[k] == 0) && w[5] == 0 && w[6] != 0 {
      ChosenAtStart(w, 6);
    } else if (forall k :: 0 <= k < 5 ==> w[k] == 0) && w[5] == 0xffff {
      ChosenAtStart(w, 5);
    }
  }

  ghost predicate AllCanonical(gs: seq<string>) {
    forall k :: 0 <= k < |gs| ==> Canonical(Hex, gs[k])
  }

  lemma HexesAreCanonical(a: seq<Byte>)
    requires |a| == 16
    ensures AllCanonical(Hexes(a))
  {
    forall k | 0 <= k < 8 ensures Canonical(Hex, Hexes(a)[k]) {
      NumeralIsCanonical(Hex, WordsOf(a)[k]);
    }
  }

  /** What the printed text looks like: the groups in lower case without leading zeros, "::" just
      where the chosen run is, and the last four bytes as a dotted quad for just those addresses. */
  lemma PrintedShape(a: seq<Byte>)
    requires |a| == 16
    ensures var t, r := Printed(a), Chosen(WordsOf(a));
            && t.quad == (if ShowsQuad(WordsOf(a), r) then Some(QuadText(a[12..])) else None)
            && (t.Full? <==> r.base == -1)
            && (t.Full? ==> AllCanonical(t.groups))
            && (t.Short? ==>
                  && AllCanonical(t.left) && AllCanonical(t.right)
                  && |t.left| == r.base && |t.right| + t.Width() == 8 - r.base - r.len)
  {
    ChosenInRange(a);
    HexesAreCanonical(a);
  }

  /** Parsing what was printed gives the same 16 bytes back, for every address. */
  lemma RoundTrip(a: seq<Byte>)
    requires |a| == 16
    ensures Parse6(Printed(a).Render()) == Some(a)
  {
    PrintedMeans(a);
    LegalTextIsRead(Printed(a));
  }

  // ------------------------------------------------------------ the printer

  /** The text after the loop has passed the words before `i`. */
  function PrintedTo(gs: seq<string>, r: Run, i: nat): string
    requires |gs| == 8 && InRange(r, None) && i <= 8
  {
    if r.base == -1 || i <= r.base then Glue(gs[..i])
    else if i <= r.base + r.len then Glue(gs[..r.base]) + ":"
    else Glue(gs[..r.base]) + "::" + Join(gs[r.base + r.len..i], ':')
  }

  lemma SliceSnoc(gs: seq<string>, i: nat, j: nat)
    requires i <= j < |gs|
    ensures gs[i..j + 1] == gs[i..j] + [gs[j]]
  {}

  lemma GlueSnoc(fs: seq<string>, f: string)
    ensures Glue(fs + [f]) == if fs == [] then f else Glue(fs) + ":" + f
  {
    assert Front(fs + [f]) == fs;
  }

  lemma PrintStepLeft(gs: seq<string>, r: Run, i: nat)
    requires |gs| == 8 && InRange(r, None) && i < 8 && (r.base == -1 || i < r.base)
    ensures PrintedTo(gs, r, i + 1) == PrintedTo(gs, r, i) + (if i != 0 then ":" else "") + gs[i]
  {
    assert gs[..i + 1] == gs[..i] + [gs[i]];
    GlueSnoc(gs[..i], gs[i]);
    if i == 0 {
      assert Glue(gs[..0]) == "" && "" + "" + gs[i] == gs[i];
    }
  }

  lemma Assoc(a: string, b: string, c: string)
    ensures a + (b + c) == a + b + c
  {}

  lemma Assoc4(a: string, b: string, c: string)
    ensures a + (b + ":" + c) == a + b + ":" + c
  {}

  lemma PrintStepRight(gs: seq<string>, r: Run, i: nat)
    requires |gs| == 8 && InRange(r, None) && r.base != -1 && r.base + r.len <= i < 8
    ensures PrintedTo(gs, r, i + 1) == PrintedTo(gs, r, i) + ":" + gs[i]
  {
    var left, m := Glue(gs[..r.base]), r.base + r.len;
    SliceSnoc(gs, m, i);
    GlueSnoc(gs[m..i], gs[i]);
    if i == m {
      Assoc(left, ":", ":");
    } else {
      Assoc4(left + "::", Join(gs[m..i], ':'), gs[i]);
    }
  }

  /** One more word: nothing, a colon, or a colon and the word. */
  lemma PrintStep(gs: seq<string>, r: Run, i: nat)
    requires |gs| == 8 && InRange(r, None) && i < 8
    ensures PrintedTo(gs, r, i + 1) ==
            if r.base != -1 && r.base <= i < r.base + r.len then
              PrintedTo(gs, r, i) + (if i == r.base then ":" else "")
            else PrintedTo(gs, r, i) + (if i != 0 then ":" else "") + gs[i]
  {
    if r.base == -1 || i < r.base {
      PrintStepLeft(gs, r, i);
    } else if i >= r.base + r.len {
      PrintStepRight(gs, r, i);
    }
  }

  lemma {:induction false} PrintedLength(gs: seq<string>, r: Run, i: nat)
    requires |gs| == 8 && InRange(r, None) && i <= 8
    requires forall k :: 0 <= k < 8 ==> |gs[k]| <= 4
    ensures |PrintedTo(gs, r, i)| <= 5 * i
  {
    if i > 0 {
      PrintedLength(gs, r, i - 1);
      PrintStep(gs, r, i - 1);
    }
  }

  lemma RunToSix(gs: seq<string>, r: Run)
    requires |gs| == 8 && r.base == 0 && 5 <= r.len <= 6
    ensures PrintedTo(gs, r, 6) == if r.len == 6 then ":" else "::" + gs[5]
  {
    assert gs[..0] == [];
    if r.len == 5 {
      assert gs[5..6] == [gs[5]];
    }
  }

  lemma ShortQuadRender(right: seq<string>, quad: string)
    ensures Short([], right, Some(quad)).Render() == "::" + if right == [] then quad else Glue(right) + ":" + quad
  {
    GlueSnoc(right, quad);
    assert Glue([]) == "" && Short([], right, Some(quad)).Tail() == [quad];
  }

  lemma QuadRender(gs: seq<string>, r: Run, q: Option<string>)
    requires |gs| == 8 && InRange(r, q) && q.Some?
    ensures Form(gs, r, q).Render() == "::" + (if r.len == 6 then q.value else gs[5] + ":" + q.value)
  {
    var right := gs[r.len..6];
    assert right == if r.len == 6 then [] else [gs[5]];
    assert Form(gs, r, q) == Short([], right, Some(q.value));
    ShortQuadRender(right, q.value);
  }

  lemma QuadEnd(gs: seq<string>, r: Run, q: Option<string>)
    requires |gs| == 8 && InRange(r, q) && q.Some? && |gs[5]| <= 4
    ensures |PrintedTo(gs, r, 6)| <= 6
    ensures PrintedTo(gs, r, 6) + ":" + q.value == Form(gs, r, q).Render()
  {
    RunToSix(gs, r);
    QuadRender(gs, r, q);
    if r.len == 5 {
      Assoc("::", gs[5] + ":", q.value);
      Assoc("::", gs[5], ":");
    }
  }

  lemma PlainEnd(gs: seq<string>, r: Run)
    requires |gs| == 8 && InRange(r, None)
    ensures PrintedTo(gs, r, 8) + (if r.base != -1 && r.base + r.len == 8 then ":" else "")
            == Form(gs, r, None).Render()
  {
    if r.base == -1 {
      assert gs[..8] == gs && gs + [] == gs;
    } else {
      var left, right := gs[..r.base], gs[r.base + r.len..];
      assert right + [] == right && gs[r.base + r.len..8] == right;
      if right == [] {
        assert Glue(left) + ":" + ":" == Glue(left) + "::" + "";
      }
    }
  }

  method Preprocess(src: seq<Byte>) returns (words: array<nat>)
    requires |src| == 16
    ensures words[..] == WordsOf(src)
  {
    words := new nat[8](_ => 0);
    for i := 0 to 16
      invariant forall k :: 0 <= k < 8 ==>
        words[k] == Word(if 2 * k < i then src[2 * k] else 0, if 2 * k + 1 < i then src[2 * k + 1] else 0)
    {
      words[i / 2] := words[i / 2] + src[i] as int * (if i % 2 == 0 then 256 else 1);
    }
  }

  method FindRun(words: array<nat>) returns (best: Run)
    ensures best == Chosen(words[..])
  {
    best := Run(-1, 0);
    var cur := Run(-1, 0);
    for i := 0 to words.Length
      invariant (best, cur) == ScanRuns(words[..], i)
    {
      if words[i] == 0 {
        cur := if cur.base == -1 then Run(i, 1) else Run(cur.base, cur.len + 1);
      } else if cur.base != -1 {
        if best.base == -1 || cur.len > best.len {
          best := cur;
        }
        cur := Run(-1, cur.len);
      }
    }
    if cur.base != -1 {
      if best.base == -1 || cur.len > best.len {
        best := cur;
      }
    }
    if best.base != -1 && best.len < 2 {
      best := Run(-1, best.len);
    }
  }

  /** The formatting loop, in a buffer of 46 characters.  After the dotted quad the source
      leaves the loop; its test for a trailing run fails then, since the run ends at 5 or 6. */
  method Format(words: seq<nat>, tail: seq<Byte>, best: Run, ghost gs: seq<string>, ghost q: Option<string>)
    returns (tmp: array<char>, tp: nat)
    requires |words| == |gs| == 8 && |tail| == 4 && InRange(best, q)
    requires forall k :: 0 <= k < 8 ==> gs[k] == Numeral(Hex, words[k]) && |gs[k]| <= 4
    requires q == if ShowsQuad(words, best) then Some(QuadText(tail)) else None
    ensures fresh(tmp) && tmp.Length == 46 && tp < 46
    ensures tmp[..tp] == Form(gs, best, q).Render()
  {
    tmp := new char[46];
    tp := 0;
    for i := 0 to 8
      invariant fresh(tmp) && tmp.Length == 46 && (q.Some? ==> i <= 6)
      invariant tp == |PrintedTo(gs, best, i)| <= 5 * i
      invariant tmp[..tp] == PrintedTo(gs, best, i)
    {
      PrintedLength(gs, best, i + 1);
      if best.base != -1 && best.base <= i < best.base + best.len {
        tp := PutGap(tmp, tp, best, i, gs);
      } else {
        if i == 6 && ShowsQuad(words, best) {
          tp := PutTail(tmp, tp, best, tail, gs, q);
          return;
        }
        tp := PutWord(tmp, tp, best, i, words[i], gs);
      }
    }
    tp := PutEnd(tmp, tp, best, gs);
  }

  /** The colon before a word, and the word. */
  method PutWord(tmp: array<char>, tp: nat, best: Run, i: nat, word: nat, ghost gs: seq<string>) returns (tp': nat)
    requires |gs| == 8 && InRange(best, None) && i < 8 && gs[i] == Numeral(Hex, word) && |gs[i]| <= 4
    requires !(best.base != -1 && best.base <= i < best.base + best.len)
    requires tp + 5 < tmp.Length && tmp[..tp] == PrintedTo(gs, best, i)
    modifies tmp
    ensures tp <= tp' < tmp.Length && tmp[..tp'] == PrintedTo(gs, best, i + 1)
  {
    PrintStep(gs, best, i);
    tp' := tp;
    if i != 0 {
      tp' := Putc(tmp, tp, ':');
    }
    tp' := Sprintf(tmp, tp', Numeral(Hex, word));
  }

  /** The colon before the dotted quad, and the quad. */
  method PutTail(tmp: array<char>, tp: nat, best: Run, tail: seq<Byte>, ghost gs: seq<string>, ghost q: Option<string>)
    returns (tp': nat)
    requires |gs| == 8 && |tail| == 4 && InRange(best, q) && q == Some(QuadText(tail)) && |gs[5]| <= 4
    requires tp + 16 < tmp.Length && tmp[..tp] == PrintedTo(gs, best, 6)
    modifies tmp
    ensures tp' < tmp.Length && tmp[..tp'] == Form(gs, best, q).Render()
  {
    QuadEnd(gs, best, q);
    tp' := Putc(tmp, tp, ':');
    tp' := PutQuad(tmp, tp', tail);
  }

  /** A word inside the run: the first one leaves a colon. */
  method PutGap(tmp: array<char>, tp: nat, best: Run, i: nat, ghost gs: seq<string>) returns (tp': nat)
    requires |gs| == 8 && InRange(best, None) && i < 8 && best.base != -1 && best.base <= i < best.base + best.len
    requires tp < tmp.Length && tmp[..tp] == PrintedTo(gs, best, i)
    modifies tmp
    ensures tp <= tp' <= tmp.Length && tmp[..tp'] == PrintedTo(gs, best, i + 1)
  {
    PrintStep(gs, best, i);
    tp' := tp;
    if i == best.base {
      tp' := Putc(tmp, tp, ':');
    }
  }

  /** Behind the loop: a run at the end leaves another colon. */
  method PutEnd(tmp: array<char>, tp: nat, best: Run, ghost gs: seq<string>) returns (tp': nat)
    requires |gs| == 8 && InRange(best, None)
    requires tp + 1 < tmp.Length && tmp[..tp] == PrintedTo(gs, best, 8)
    modifies tmp
    ensures tp <= tp' < tmp.Length && tmp[..tp'] == Form(gs, best, None).Render()
  {
    PlainEnd(gs, best);
    tp' := tp;
    if best.base != -1 && best.base + best.len == 8 {
      tp' := Putc(tmp, tp, ':');
    }
  }

  method PutQuad(tmp: array<char>, tp: nat, quad: seq<Byte>) returns (tp': nat)
    requires |quad| == 4 && tp + 15 < tmp.Length
    modifies tmp
    ensures tp' == tp + |QuadText(quad)| < tmp.Length && tmp[..tp'] == old(tmp[..tp]) + QuadText(quad)
  {
    QuadTextLength(quad);
    var ok, overrun := InetNtop4(quad, tmp, tp, tmp.Length - tp);
    tp' := tp + |QuadText(quad)|;
  }

  /** Prints into `dst`, of which `size` characters may be used, or refuses. */
  method InetNtop6(src: seq<Byte>, dst: array<char>, size: nat) returns (ok: bool)
    requires |src| == 16 && size <= dst.Length
    modifies dst
    ensures ok == (|Printed(src).Render()| + 1 <= size)
    ensures !ok ==> dst[..] == old(dst[..])
    ensures ok ==> dst[..] == Printed(src).Render() + ['\0'] + old(dst[|Printed(src).Render()| + 1..])
  {
    var words := Preprocess(src);
    var best := FindRun(words);
    var tmp, tp := FormatWords(src, words, best);
    ok := CopyOut(dst, tmp[..tp], size);
  }

  /** The check for overflow, and the copy. */
  method CopyOut(dst: array<char>, text: string, size: nat) returns (ok: bool)
    requires size <= dst.Length
    modifies dst
    ensures ok == (|text| + 1 <= size)
    ensures !ok ==> dst[..] == old(dst[..])
    ensures ok ==> dst[..] == text + ['\0'] + old(dst[|text| + 1..])
  {
    if |text| + 1 > size {
      return false;
    }
    assert dst[..0] + text == text;
    CopyString(dst, 0, text);
    return true;
  }

  method FormatWords(src: seq<Byte>, words: array<nat>, best: Run) returns (tmp: array<char>, tp: nat)
    requires |src| == 16 && words[..] == WordsOf(src) && best == Chosen(WordsOf(src))
    ensures fresh(tmp) && tp < tmp.Length && tmp[..tp] == Printed(src).Render()
  {
    ChosenInRange(src);
    HexesShow(src);
    tmp, tp := Format(words[..], src[12..], best, Hexes(src), QuadOf(src, best));
  }

  method Putc(tmp: array<char>, tp: nat, c: char) returns (tp': nat)
    requires tp < tmp.Length
    modifies tmp
    ensures tp' == tp + 1 && tmp[..tp'] == old(tmp[..tp]) + [c]
  {
    tmp[tp] := c;
    tp' := tp + 1;
  }

  /** sprintf at `tp`, and the pointer moved to the NUL it wrote. */
  method Sprintf(tmp: array<char>, tp: nat, text: string) returns (tp': nat)
    requires tp + |text| < tmp.Length
    modifies tmp
    ensures tp' == tp + |text| && tmp[..tp'] == old(tmp[..tp]) + text
  {
    CopyString(tmp, tp, text);
    tp' := tp + |text|;
  }
}
