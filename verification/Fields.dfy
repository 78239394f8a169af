/**
 Texts cut at a separator, and numbers written in digits.

 These two notions are the reference against which the address parsers and
 printers are proved: a dotted quad is a text with four fields, an IPv6 text
 is a list of fields between colons.  A text is the characters before the
 terminating NUL of the C string.
 */
module Fields {

  function Last<T>(s: seq<T>): T
    requires s != []
  {
    s[|s| - 1]
  }

  function Front<T>(s: seq<T>): seq<T>
    requires s != []
  {
    s[..|s| - 1]
  }

  lemma FrontLast<T>(s: seq<T>)
    requires s != []
    ensures s == Front(s) + [Last(s)]
  {}

  lemma AppendFrontLast<T>(p: seq<T>, s: seq<T>)
    requires s != []
    ensures p + s == (p + Front(s)) + [Last(s)]
    ensures (p + Front(s))[..|p|] == p
  {}

  // ---------------------------------------------------------------- fields

  /** The fields of a text with one more character. */
  function Push(fs: seq<string>, sep: char, c: char): (gs: seq<string>)
    requires fs != []
    ensures gs != []
  {
    if c == sep then fs + [""] else Front(fs) + [Last(fs) + [c]]
  }

  /** The pieces of `s` between occurrences of `sep`; there is always one. */
  function Split(s: string, sep: char): (fs: seq<string>)
    ensures fs != []
  {
    if s == [] then [""] else Push(Split(Front(s), sep), sep, Last(s))
  }

  function Join(fs: seq<string>, sep: char): string
    requires fs != []
  {
    if |fs| == 1 then fs[0] else Join(Front(fs), sep) + [sep] + Last(fs)
  }

  predicate Free(fs: seq<string>, sep: char) {
    forall k :: 0 <= k < |fs| ==> sep !in fs[k]
  }

  lemma SplitPush(s: string, sep: char, c: char)
    ensures Split(s + [c], sep) == Push(Split(s, sep), sep, c)
  {
    assert Front(s + [c]) == s;
  }

  lemma SplitStep(s: string, sep: char, i: nat)
    requires i < |s|
    ensures Split(s[..i + 1], sep) == Push(Split(s[..i], sep), sep, s[i])
  {
    assert s[..i + 1] == s[..i] + [s[i]];
    SplitPush(s[..i], sep, s[i]);
  }

  /** A character that is no separator belongs to the last field. */
  lemma LastGrows(s: string, sep: char, c: char)
    requires c != sep
    ensures Front(Split(s + [c], sep)) == Front(Split(s, sep))
    ensures Last(Split(s + [c], sep)) == Last(Split(s, sep)) + [c]
    ensures |Split(s + [c], sep)| == |Split(s, sep)|
  {
    SplitPush(s, sep, c);
  }

  lemma {:induction false} SplitFree(s: string, sep: char)
    requires sep !in s
    ensures Split(s, sep) == [s]
  {
    if s != [] {
      SplitFree(Front(s), sep);
      assert s == Front(s) + [Last(s)];
    }
  }

  lemma PushAppend(fs: seq<string>, gs: seq<string>, sep: char, c: char)
    requires gs != []
    ensures Push(fs + gs, sep, c) == fs + Push(gs, sep, c)
  {
    if c == sep {
      assert (fs + gs) + [""] == fs + (gs + [""]);
    } else {
      assert Front(fs + gs) == fs + Front(gs) && Last(fs + gs) == Last(gs);
    }
  }

  lemma {:induction false} SplitAppend(a: string, b: string, sep: char)
    ensures Split(a + [sep] + b, sep) == Split(a, sep) + Split(b, sep)
  {
    if b == [] {
      assert a + [sep] + b == a + [sep];
      SplitPush(a, sep, sep);
    } else {
      var s := a + [sep] + Front(b);
      SplitAppend(a, Front(b), sep);
      assert a + [sep] + b == s + [Last(b)];
      SplitPush(s, sep, Last(b));
      PushAppend(Split(a, sep), Split(Front(b), sep), sep, Last(b));
    }
  }

  /** Splitting undoes joining. */
  lemma {:induction false} SplitJoin(fs: seq<string>, sep: char)
    requires fs != [] && Free(fs, sep)
    ensures Split(Join(fs, sep), sep) == fs
  {
    SplitFree(Last(fs), sep);
    FrontLast(fs);
    if |fs| > 1 {
      FreeFront(fs, sep);
      SplitJoin(Front(fs), sep);
      SplitAppend(Join(Front(fs), sep), Last(fs), sep);
    }
  }

  lemma FreeFront(fs: seq<string>, sep: char)
    requires |fs| > 1 && Free(fs, sep)
    ensures Free(Front(fs), sep)
  {}

  lemma JoinPush(fs: seq<string>, sep: char, c: char)
    requires fs != []
    ensures Join(Push(fs, sep, c), sep) == Join(fs, sep) + [c]
  {
    if c == sep {
      assert Front(fs + [""]) == fs;
      assert Join(fs, sep) + [sep] + "" == Join(fs, sep) + [c];
    } else {
      var gs := Push(fs, sep, c);
      assert Front(gs) == Front(fs) && Last(gs) == Last(fs) + [c];
      if |fs| > 1 {
        assert Join(gs, sep) == Join(Front(fs), sep) + [sep] + (Last(fs) + [c]);
      }
    }
  }

  lemma JoinSplitStep(t: string, sep: char, c: char)
    requires Join(Split(t, sep), sep) == t
    ensures Join(Split(t + [c], sep), sep) == t + [c]
  {
    SplitPush(t, sep, c);
    JoinPush(Split(t, sep), sep, c);
  }

  /** Joining undoes splitting. */
  lemma {:induction false} JoinSplit(s: string, sep: char)
    ensures Join(Split(s, sep), sep) == s
  {
    if s != [] {
      FrontLast(s);
      JoinSplit(Front(s), sep);
      JoinSplitStep(Front(s), sep, Last(s));
    }
  }

  lemma {:induction false} SplitIsFree(s: string, sep: char)
    ensures Free(Split(s, sep), sep)
  {
    if s != [] {
      SplitIsFree(Front(s), sep);
    }
  }

  lemma {:induction false} JoinAppend(a: seq<string>, b: seq<string>, sep: char)
    requires a != [] && b != []
    ensures Join(a + b, sep) == Join(a, sep) + [sep] + Join(b, sep)
  {
    assert Front(a + b) == a + Front(b);
    if |b| == 1 {
      assert Front(a + b) == a;
    } else {
      JoinAppend(a, Front(b), sep);
      assert Join(a + b, sep) == Join(a, sep) + [sep] + (Join(Front(b), sep) + [sep] + Last(b));
    }
  }

  /** `fs` are the fields of a prefix of a text whose fields are `gs`. */
  ghost predicate Grows(fs: seq<string>, gs: seq<string>) {
    && 0 < |fs| <= |gs|
    && Front(fs) == gs[..|fs| - 1]
    && Last(fs) <= gs[|fs| - 1]
  }

  lemma PushGrows(fs: seq<string>, gs: seq<string>, sep: char, c: char)
    requires Grows(fs, gs)
    ensures Grows(fs, Push(gs, sep, c))
  {
    var hs, n := Push(gs, sep, c), |fs| - 1;
    if n < |gs| - 1 {
      assert hs[..n] == gs[..n] && hs[n] == gs[n];
    } else {
      assert hs[..n] == gs[..n] && Last(gs) <= hs[n];
    }
  }

  /** What a scanner that has read `s[..i]` knows about the fields of all of `s`. */
  lemma {:induction false} SplitPrefix(s: string, sep: char, i: nat)
    requires i <= |s|
    ensures Grows(Split(s[..i], sep), Split(s, sep))
    decreases |s|
  {
    if i == |s| {
      assert s[..i] == s;
    } else {
      assert Front(s)[..i] == s[..i];
      SplitPrefix(Front(s), sep, i);
      PushGrows(Split(s[..i], sep), Split(Front(s), sep), sep, Last(s));
    }
  }

  /** If no separator follows, the last field takes all the rest. */
  lemma {:induction false} SplitRest(p: string, rest: string, sep: char)
    requires |Split(p, sep)| == |Split(p + rest, sep)|
    ensures Last(Split(p + rest, sep)) == Last(Split(p, sep)) + rest
  {
    if rest == [] {
      assert p + rest == p;
    } else {
      var t, c := p + Front(rest), Last(rest);
      AppendFrontLast(p, rest);
      SplitPush(t, sep, c);
      SplitPrefix(t, sep, |p|);
      SplitRest(p, Front(rest), sep);
      AppendFrontLast(Last(Split(p, sep)), rest);
    }
  }

  lemma {:induction false} SplitLastSuffix(s: string, sep: char)
    ensures |Last(Split(s, sep))| <= |s|
    ensures s[|s| - |Last(Split(s, sep))|..] == Last(Split(s, sep))
  {
    if s != [] && Last(s) != sep {
      SplitLastSuffix(Front(s), sep);
      SuffixOn(s, |s| - 1 - |Last(Split(Front(s), sep))|);
    }
  }

  lemma SuffixOn(s: string, i: nat)
    requires i < |s|
    ensures s[i..] == Front(s)[i..] + [Last(s)]
  {}

  // --------------------------------------------------------------- numbers

  datatype Base = Dec | Hex {
    function Size(): nat { if Dec? then 10 else 16 }
    function Times(n: nat): nat { if Dec? then n * 10 else n * 16 }
    function Quot(n: nat): nat { if Dec? then n / 10 else n / 16 }
    function Rem(n: nat): nat { if Dec? then n % 10 else n % 16 }
  }

  /** The value of a digit of either case; 99 is no digit in either base. */
  function DigitVal(c: char): nat {
    if '0' <= c <= '9' then c as int - '0' as int
    else if 'a' <= c <= 'f' then c as int - 'a' as int + 10
    else if 'A' <= c <= 'F' then c as int - 'A' as int + 10
    else 99
  }

  predicate IsDigit(base: Base, c: char) {
    DigitVal(c) < base.Size()
  }

  predicate Digits(base: Base, f: string) {
    forall k :: 0 <= k < |f| ==> IsDigit(base, f[k])
  }

  function NumVal(base: Base, f: string): nat {
    if f == [] then 0 else base.Times(NumVal(base, Front(f))) + DigitVal(Last(f))
  }

  function DigitChar(d: nat): char
    requires d < 16
  {
    "0123456789abcdef"[d]
  }

  /** `n` without leading zeros, as printf's %u and %x write it. */
  function Numeral(base: Base, n: nat): (f: string)
    ensures f != []
    decreases n
  {
    if n < base.Size() then [DigitChar(n)]
    else Numeral(base, base.Quot(n)) + [DigitChar(base.Rem(n))]
  }

  /** Which characters are digits. */
  lemma DigitChars(c: char)
    ensures IsDigit(Dec, c) <==> c in "0123456789"
    ensures IsDigit(Hex, c) <==> c in "0123456789abcdefABCDEF"
  {
    var decimals, lower, upper := "0123456789", "abcdef", "ABCDEF";
    if '0' <= c <= '9' {
      assert decimals[c as int - '0' as int] == c;
    } else if 'a' <= c <= 'f' {
      assert lower[c as int - 'a' as int] == c;
    } else if 'A' <= c <= 'F' {
      assert upper[c as int - 'A' as int] == c;
    }
    assert "0123456789abcdefABCDEF" == decimals + lower + upper;
  }

  /** What the digits are worth, in either case. */
  lemma DigitValues(k: nat)
    ensures k < 10 ==> DigitVal("0123456789"[k]) == k
    ensures k < 6 ==> DigitVal("abcdef"[k]) == DigitVal("ABCDEF"[k]) == 10 + k
  {}

  /** What the places are worth. */
  lemma PlaceValues(a: char, b: char, c: char, d: char)
    ensures NumVal(Dec, [a, b, c]) == 100 * DigitVal(a) + 10 * DigitVal(b) + DigitVal(c)
    ensures NumVal(Hex, [a, b, c, d])
         == 4096 * DigitVal(a) + 256 * DigitVal(b) + 16 * DigitVal(c) + DigitVal(d)
  {
    forall base: Base
      ensures NumVal(base, [a]) == DigitVal(a)
      ensures NumVal(base, [a, b]) == base.Times(DigitVal(a)) + DigitVal(b)
      ensures NumVal(base, [a, b, c]) == base.Times(base.Times(DigitVal(a)) + DigitVal(b)) + DigitVal(c)
    {
      assert Front([a]) == [] && Front([a, b]) == [a] && Front([a, b, c]) == [a, b];
    }
    assert Front([a, b, c, d]) == [a, b, c];
  }

  /** Leading zeros change nothing. */
  lemma {:induction false} LeadingZero(base: Base, f: string)
    ensures NumVal(base, "0" + f) == NumVal(base, f)
  {
    if f == "" {
      assert "0" + f == "0" && Front("0") == "";
    } else {
      assert Front("0" + f) == "0" + Front(f);
      LeadingZero(base, Front(f));
    }
  }

  lemma NumValStep(base: Base, f: string, c: char)
    ensures NumVal(base, f + [c]) == base.Times(NumVal(base, f)) + DigitVal(c)
    ensures Digits(base, f + [c]) <==> Digits(base, f) && IsDigit(base, c)
  {
    assert Front(f + [c]) == f;
    assert (f + [c])[|f|] == c;
    if Digits(base, f + [c]) {
      forall k | 0 <= k < |f| ensures IsDigit(base, f[k]) { assert (f + [c])[k] == f[k]; }
    }
  }

  lemma DigitRoundTrip(d: nat)
    requires d < 16
    ensures DigitVal(DigitChar(d)) == d
  {}

  /** Reading a printed number gives the number back. */
  lemma {:induction false} NumeralRoundTrip(base: Base, n: nat)
    ensures Digits(base, Numeral(base, n)) && NumVal(base, Numeral(base, n)) == n
    decreases n
  {
    if n < base.Size() {
      DigitRoundTrip(n);
      NumValStep(base, [], DigitChar(n));
      assert [] + [DigitChar(n)] == [DigitChar(n)];
    } else {
      NumeralRoundTrip(base, base.Quot(n));
      DigitRoundTrip(base.Rem(n));
      NumValStep(base, Numeral(base, base.Quot(n)), DigitChar(base.Rem(n)));
      QuotRem(base, n);
    }
  }

  lemma QuotRem(base: Base, n: nat)
    ensures base.Times(base.Quot(n)) + base.Rem(n) == n && base.Rem(n) < base.Size()
  {}

  predicate LowerDigit(base: Base, c: char) {
    c in "0123456789abcdef" && IsDigit(base, c)
  }

  /** No leading zeros, and lower case. */
  ghost predicate Canonical(base: Base, f: string) {
    && f != ""
    && (forall k :: 0 <= k < |f| ==> LowerDigit(base, f[k]))
    && (|f| > 1 ==> f[0] != '0')
  }

  lemma {:induction false} NumeralIsCanonical(base: Base, n: nat)
    ensures Canonical(base, Numeral(base, n))
    ensures n > 0 ==> Numeral(base, n)[0] != '0'
    decreases n
  {
    if n < base.Size() {
      DigitRoundTrip(n);
    } else {
      NumeralIsCanonical(base, base.Quot(n));
      DigitRoundTrip(base.Rem(n));
    }
  }

  lemma CanonicalDigit(c: char)
    requires c in "0123456789abcdef"
    ensures DigitVal(c) < 16 && DigitChar(DigitVal(c)) == c
  {}

  lemma NumeralStep(base: Base, v: nat, d: nat, g: string, c: char)
    requires v > 0 && d < base.Size() && DigitChar(d) == c && Numeral(base, v) == g
    ensures Numeral(base, base.Times(v) + d) == g + [c]
  {
    assert base.Quot(base.Times(v) + d) == v && base.Rem(base.Times(v) + d) == d;
  }

  lemma CanonicalFront(base: Base, f: string)
    requires Canonical(base, f) && |f| > 1
    ensures Canonical(base, Front(f)) && Front(f)[0] == f[0] != '0' && LowerDigit(base, Last(f))
  {
    forall k | 0 <= k < |f| - 1 ensures Front(f)[k] == f[k] {}
    assert Last(f) == f[|f| - 1];
  }

  /** A number is printed as the one canonical text for it. */
  lemma {:induction false} CanonicalIsNumeral(base: Base, f: string)
    requires Canonical(base, f)
    ensures Numeral(base, NumVal(base, f)) == f
    ensures f[0] != '0' ==> NumVal(base, f) > 0
  {
    if |f| == 1 {
      OneDigit(base, f);
    } else {
      CanonicalFront(base, f);
      CanonicalIsNumeral(base, Front(f));
      FrontLast(f);
      DigitsBack(base, Front(f), Last(f));
    }
  }

  lemma DigitsBack(base: Base, g: string, c: char)
    requires LowerDigit(base, c)
    requires NumVal(base, g) > 0 && Numeral(base, NumVal(base, g)) == g
    ensures Numeral(base, NumVal(base, g + [c])) == g + [c] && NumVal(base, g + [c]) > 0
  {
    CanonicalDigit(c);
    NumValStep(base, g, c);
    NumeralStep(base, NumVal(base, g), DigitVal(c), g, c);
  }

  lemma OneDigit(base: Base, f: string)
    requires Canonical(base, f) && |f| == 1
    ensures Numeral(base, NumVal(base, f)) == f
    ensures f[0] != '0' ==> NumVal(base, f) > 0
  {
    CanonicalDigit(f[0]);
    assert Front(f) == "" && NumVal(base, f) == DigitVal(f[0]) && f == [f[0]];
  }

  lemma OctetLength(n: nat)
    requires n < 256
    ensures |Numeral(Dec, n)| <= 3
  {
    assert |Numeral(Dec, n / 10)| <= 2;
  }

  lemma WordLength(n: nat)
    requires n < 65536
    ensures |Numeral(Hex, n)| <= 4
  {
    assert n / 16 / 16 / 16 < 16;
    assert |Numeral(Hex, n / 16 / 16)| <= 2;
    assert |Numeral(Hex, n / 16)| <= 3;
  }

  /** A field never gets a smaller value as more digits are read. */
  lemma {:induction false} NumValMonotone(base: Base, p: string, f: string)
    requires p <= f
    ensures NumVal(base, p) <= NumVal(base, f)
  {
    if |p| < |f| {
      assert p <= Front(f);
      NumValMonotone(base, p, Front(f));
    } else {
      assert p == f;
    }
  }

  /** A decimal field of an octet, read as hexadecimal, is still a 16-bit number. */
  lemma {:induction false} DecimalAsHex(f: string)
    requires Digits(Dec, f)
    ensures NumVal(Dec, f) < 10 ==> NumVal(Hex, f) == NumVal(Dec, f)
    ensures NumVal(Dec, f) < 100 ==> NumVal(Hex, f) < 160
    ensures NumVal(Dec, f) < 1000 ==> NumVal(Hex, f) < 2560
  {
    if f != [] {
      assert IsDigit(Dec, f[|f| - 1]);
      DecimalAsHex(Front(f));
    }
  }
}
