/**
 Either case of the hexadecimal digits: inet_pton6 reads every text as it reads the
 same text in lower case.
 */
module InetText6Case {
  import opened Common
  import opened Fields
  import opened InetText4
  import opened InetText6

  function Lower(c: char): char {
    if 'A' <= c <= 'F' then "abcdef"[c as int - 'A' as int] else c
  }

  function LowerText(s: string): (r: string)
    ensures |r| == |s|
  {
    seq(|s|, i requires 0 <= i < |s| => Lower(s[i]))
  }

  function LowerAll(fs: seq<string>): (gs: seq<string>)
    ensures |gs| == |fs|
  {
    seq(|fs|, k requires 0 <= k < |fs| => LowerText(fs[k]))
  }

  lemma LowerFront(f: string)
    requires f != ""
    ensures Front(LowerText(f)) == LowerText(Front(f)) && Last(LowerText(f)) == Lower(Last(f))
  {}

  lemma LowerAllFront(fs: seq<string>)
    requires fs != []
    ensures Front(LowerAll(fs)) == LowerAll(Front(fs)) && Last(LowerAll(fs)) == LowerText(Last(fs))
  {}

  lemma LowerAllPart(fs: seq<string>, k: nat)
    requires k <= |fs|
    ensures LowerAll(fs)[..k] == LowerAll(fs[..k])
  {}

  // ------------------------------------------------------ digits and fields

  lemma SameDigit(c: char)
    ensures DigitVal(Lower(c)) == DigitVal(c)
  {
    if 'A' <= c <= 'F' {
      DigitValues(c as int - 'A' as int);
    }
  }

  lemma {:induction false} SameNumber(base: Base, f: string)
    ensures NumVal(base, LowerText(f)) == NumVal(base, f)
  {
    if f != "" {
      LowerFront(f);
      SameNumber(base, Front(f));
      SameDigit(Last(f));
    }
  }

  lemma SameDigits(base: Base, f: string)
    ensures Digits(base, LowerText(f)) <==> Digits(base, f)
  {
    forall k | 0 <= k < |f| ensures IsDigit(base, LowerText(f)[k]) <==> IsDigit(base, f[k]) {
      SameDigit(f[k]);
    }
  }

  lemma LowerPush(fs: seq<string>, sep: char, c: char)
    requires fs != [] && (sep == ':' || sep == '.')
    ensures Push(LowerAll(fs), sep, Lower(c)) == LowerAll(Push(fs, sep, c))
  {
    if c != sep {
      LowerAllFront(fs);
      assert LowerText(Last(fs) + [c]) == LowerText(Last(fs)) + [Lower(c)];
    }
  }

  lemma {:induction false} SplitLower(s: string, sep: char)
    requires sep == ':' || sep == '.'
    ensures Split(LowerText(s), sep) == LowerAll(Split(s, sep))
  {
    if s == "" {
      assert LowerText("") == "" && LowerAll([""]) == [""];
    } else {
      LowerFront(s);
      SplitLower(Front(s), sep);
      LowerPush(Split(Front(s), sep), sep, Last(s));
    }
  }

  lemma SameGroup(f: string)
    ensures IsGroup(LowerText(f)) <==> IsGroup(f)
  {
    SameNumber(Hex, f);
    SameDigits(Hex, f);
    assert LowerText(f) == "" <==> f == "" by {
      assert |LowerText(f)| == |f|;
    }
  }

  lemma SameOctet(f: string)
    ensures IsOctet(LowerText(f)) <==> IsOctet(f)
    ensures NumVal(Dec, LowerText(f)) == NumVal(Dec, f)
  {
    SameNumber(Dec, f);
    SameDigits(Dec, f);
    assert |LowerText(f)| == |f|;
  }

  lemma SameQuad(s: string)
    ensures IsQuad(LowerText(s)) <==> IsQuad(s)
    ensures IsQuad(s) ==> QuadBytes(LowerText(s)) == QuadBytes(s)
  {
    SplitLower(s, '.');
    var fs, gs := Split(s, '.'), Split(LowerText(s), '.');
    forall k | 0 <= k < |fs|
      ensures IsOctet(gs[k]) <==> IsOctet(fs[k])
      ensures NumVal(Dec, gs[k]) == NumVal(Dec, fs[k])
    {
      SameOctet(fs[k]);
    }
  }

  // --------------------------------------------------------------- the text

  lemma {:induction false} SameEncoding(ts: seq<string>)
    ensures Encode(LowerAll(ts)) == Encode(ts) && Gap(LowerAll(ts)) == Gap(ts)
  {
    if ts != [] {
      LowerAllFront(ts);
      SameEncoding(Front(ts));
      SameNumber(Hex, Last(ts));
      assert |LowerText(Last(ts))| == |Last(ts)|;
    }
  }

  lemma SameHead(h: seq<string>)
    ensures HeadOk(LowerAll(h)) <==> HeadOk(h)
  {
    forall k | 0 <= k < |h|
      ensures IsGroup(LowerAll(h)[k]) <==> IsGroup(h[k])
      ensures LowerAll(h)[k] == "" <==> h[k] == ""
    {
      SameGroup(h[k]);
      assert |LowerText(h[k])| == |h[k]|;
    }
  }

  lemma SameTail(f: string)
    ensures TailOk(LowerText(f)) <==> TailOk(f)
    ensures TailBytes(LowerText(f)) == TailBytes(f)
  {
    SameGroup(f);
    SameQuad(f);
    SameNumber(Hex, f);
    assert |LowerText(f)| == |f|;
  }

  lemma SameFields(ts: seq<string>)
    requires ts != []
    ensures Accepted(LowerAll(ts)) <==> Accepted(ts)
    ensures Accepted(ts) ==> Value(LowerAll(ts)) == Value(ts)
  {
    var h := Front(ts);
    LowerAllFront(ts);
    SameHead(h);
    SameTail(Last(ts));
    SameEncoding(h);
    LowerAllPart(h, Gap(h));
    SameEncoding(h[..Gap(h)]);
  }

  lemma StripLower(s: string)
    ensures Strip(LowerText(s)) == match Strip(s) case None => None case Some(body) => Some(LowerText(body))
  {
    if |s| > 0 && s[0] == ':' {
      assert LowerText(s)[1..] == LowerText(s[1..]);
    }
  }

  /** Putting A-F into lower case changes neither whether a text is accepted nor its bytes. */
  lemma CaseDoesNotMatter(s: string)
    ensures Parse6(LowerText(s)) == Parse6(s)
  {
    StripLower(s);
    if Strip(s).Some? {
      SplitLower(Strip(s).value, ':');
      SameFields(Split(Strip(s).value, ':'));
    }
  }

  /** Four digits of either case stand for two bytes. */
  lemma FourDigits(a: char, b: char, c: char, d: char)
    requires IsDigit(Hex, a) && IsDigit(Hex, b) && IsDigit(Hex, c) && IsDigit(Hex, d)
    ensures IsGroup([a, b, c, d])
    ensures WordBytes(NumVal(Hex, [a, b, c, d])) == [16 * DigitVal(a) + DigitVal(b), 16 * DigitVal(c) + DigitVal(d)]
  {
    PlaceValues(a, b, c, d);
    TwoBytes(16 * DigitVal(a) + DigitVal(b), 16 * DigitVal(c) + DigitVal(d));
  }

  lemma TwoBytes(hi: nat, lo: nat)
    requires hi < 256 && lo < 256
    ensures WordBytes(256 * hi + lo) == [hi, lo] && 256 * hi + lo <= 0xffff
  {}
}
