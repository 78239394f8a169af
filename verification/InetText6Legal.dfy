/**
 The text forms of section 2.2 of RFC 1884, and what inet_pton6 does with
 them: every form is given its meaning, and exactly two kinds of irregular
 text are accepted besides.
 */
module InetText6Legal {
  import opened Common
  import opened Fields
  import opened InetText4
  import opened InetText6

  /** Eight groups, or groups around one "::"; the last two groups may be a dotted quad. */
  datatype Text6 =
    | Full(groups: seq<string>, quad: Option<string>)
    | Short(left: seq<string>, right: seq<string>, quad: Option<string>)
  {
    function Tail(): seq<string> {
      match quad
      case None => []
      case Some(q) => [q]
    }

    function Width(): nat {
      if quad.Some? then 2 else 0
    }

    predicate Valid() {
      && (quad.Some? ==> IsQuad(quad.value))
      && match this
         case Full(groups, _) => Groups(groups) && |groups| + Width() == 8
         case Short(left, right, _) => Groups(left) && Groups(right) && |left| + |right| + Width() <= 7
    }

    function Render(): string {
      match this
      case Full(groups, _) => Glue(groups + Tail())
      case Short(left, right, _) => Glue(left) + "::" + Glue(right + Tail())
    }

    /** The 16 bytes the text stands for. */
    function Meaning(): seq<Byte>
      requires Valid()
    {
      var last := if quad.Some? then QuadBytes(quad.value) else [];
      match this
      case Full(groups, _) => Words(groups) + last
      case Short(left, right, _) => AroundGap(left, right, last)
    }

    /** What lies between the colons once a leading colon is dropped. */
    function Tokens(): seq<string> {
      match this
      case Full(groups, _) => groups + Tail()
      case Short(left, right, _) => left + [""] + OrBlank(right + Tail())
    }
  }

  predicate Groups(gs: seq<string>) {
    forall k :: 0 <= k < |gs| ==> IsGroup(gs[k])
  }

  function Words(gs: seq<string>): seq<Byte> {
    if gs == [] then [] else Words(Front(gs)) + WordBytes(NumVal(Hex, Last(gs)))
  }

  /** Groups, as many zeros as are missing, groups and the last bytes. */
  function AroundGap(left: seq<string>, right: seq<string>, last: seq<Byte>): seq<Byte>
    requires 2 * |left| + 2 * |right| + |last| <= 16
  {
    Words(left) + Zeros(16 - 2 * |left| - 2 * |right| - |last|) + (Words(right) + last)
  }

  function OrBlank(fs: seq<string>): (r: seq<string>)
    ensures r != []
  {
    if fs == [] then [""] else fs
  }

  function Glue(fs: seq<string>): string {
    Join(OrBlank(fs), ':')
  }

  // ------------------------------------------------------ groups and fields

  lemma GroupChars(f: string)
    requires IsGroup(f) || IsQuad(f)
    ensures f != "" && ':' !in f
  {
    assert !IsDigit(Hex, ':') && !IsDigit(Dec, ':');
    if IsQuad(f) {
      assert f != "" by {
        assert Split("", '.') == [""];
      }
      forall k | 0 <= k < |f| ensures f[k] != ':' {
        QuadChars(f, k);
      }
    }
  }

  lemma {:induction false} EncodeGroups(gs: seq<string>)
    requires Groups(gs)
    ensures Encode(gs) == Words(gs) && |Words(gs)| == 2 * |gs|
    ensures Gap(gs) == |gs|
  {
    if gs != [] {
      assert Groups(Front(gs)) && IsGroup(Last(gs));
      EncodeGroups(Front(gs));
    }
  }

  lemma {:induction false} JoinFirst(fs: seq<string>)
    requires fs != [] && fs[0] != ""
    ensures Join(fs, ':') != "" && Join(fs, ':')[0] == fs[0][0]
  {
    if |fs| > 1 {
      JoinFirst(Front(fs));
    }
  }

  lemma JoinLast(fs: seq<string>)
    requires fs != [] && Last(fs) != ""
    ensures Join(fs, ':') != "" && Last(Join(fs, ':')) == Last(Last(fs))
  {}

  lemma TokenChars(t: Text6)
    requires t.Valid()
    ensures Free(t.Tokens(), ':')
    ensures forall k :: 0 <= k < |t.Tokens()| && (t.Full? || k < |t.left|) ==> t.Tokens()[k] != ""
  {
    forall f | IsGroup(f) || IsQuad(f) ensures f != "" && ':' !in f {
      GroupChars(f);
    }
  }

  lemma JoinBlank(r: seq<string>)
    requires r != []
    ensures Join([""] + r, ':') == ":" + Join(r, ':')
  {
    JoinAppend([""], r, ':');
  }

  lemma JoinAround(left: seq<string>, r: seq<string>)
    requires left != [] && r != []
    ensures Join(left + [""] + r, ':') == Join(left, ':') + "::" + Join(r, ':')
  {
    assert left + [""] + r == left + ([""] + r);
    JoinBlank(r);
    JoinAppend(left, [""] + r, ':');
    assert Join(left, ':') + [':'] + (":" + Join(r, ':')) == Join(left, ':') + "::" + Join(r, ':');
  }

  lemma FieldsOfFull(ts: seq<string>)
    requires ts != [] && Free(ts, ':') && ts[0] != ""
    ensures Strip(Join(ts, ':')) == Some(Join(ts, ':')) && Split(Join(ts, ':'), ':') == ts
  {
    JoinFirst(ts);
    assert ts[0][0] in ts[0];
    SplitJoin(ts, ':');
  }

  lemma FieldsOfShort(left: seq<string>, r: seq<string>)
    requires r != [] && Free(left + [""] + r, ':') && (left != [] ==> left[0] != "")
    ensures var s := Glue(left) + "::" + Join(r, ':');
            Strip(s).Some? && Split(Strip(s).value, ':') == left + [""] + r
  {
    if left == [] {
      assert left + [""] + r == [""] + r && Glue(left) + "::" + Join(r, ':') == "::" + Join(r, ':');
      FieldsAfterGap(r);
    } else {
      JoinAround(left, r);
      FieldsOfFull(left + [""] + r);
    }
  }

  lemma FieldsAfterGap(r: seq<string>)
    requires r != [] && Free([""] + r, ':')
    ensures Strip("::" + Join(r, ':')).Some? && Split(Strip("::" + Join(r, ':')).value, ':') == [""] + r
  {
    JoinBlank(r);
    SplitJoin([""] + r, ':');
    assert ("::" + Join(r, ':'))[1..] == Join([""] + r, ':');
  }

  /** Dropping a leading colon and cutting at the others gives the tokens back. */
  lemma RenderFields(t: Text6)
    requires t.Valid()
    ensures Strip(t.Render()).Some?
    ensures Split(Strip(t.Render()).value, ':') == t.Tokens()
  {
    TokenChars(t);
    match t
    case Full(groups, _) =>
      var ts := groups + t.Tail();
      assert ts == t.Tokens() && OrBlank(ts) == ts && ts[0] != "";
      FieldsOfFull(ts);
    case Short(left, right, _) =>
      if left != [] {
        assert t.Tokens()[0] == left[0] != "";
      }
      FieldsOfShort(left, OrBlank(right + t.Tail()));
  }

  /** The tokens of a form are accepted and stand for its meaning. */
  lemma TokensAccepted(t: Text6)
    requires t.Valid()
    ensures Accepted(t.Tokens()) && Value(t.Tokens()) == t.Meaning()
  {
    match t
    case Full(groups, quad) => FullAccepted(groups, quad);
    case Short(left, right, quad) => ShortAccepted(left, right, quad);
  }

  lemma FullAccepted(groups: seq<string>, quad: Option<string>)
    requires Full(groups, quad).Valid()
    ensures Accepted(Full(groups, quad).Tokens())
    ensures Value(Full(groups, quad).Tokens()) == Full(groups, quad).Meaning()
  {
    var ts := Full(groups, quad).Tokens();
    EncodeGroups(groups);
    if quad.Some? {
      QuadIsTail(quad.value);
      assert Front(ts) == groups;
    } else {
      EncodeGroups(Front(groups));
      assert ts == groups && IsGroup(Last(ts));
    }
  }

  lemma QuadIsTail(q: string)
    requires IsQuad(q)
    ensures q != "" && !IsGroup(q) && TailBytes(q) == QuadBytes(q)
  {
    GroupChars(q);
    QuadDot(q);
  }

  lemma QuadDot(q: string)
    requires IsQuad(q)
    ensures !Digits(Hex, q)
  {
    if '.' !in q {
      SplitFree(q, '.');
    } else {
      var k :| 0 <= k < |q| && q[k] == '.';
      assert !IsDigit(Hex, q[k]);
    }
  }

  /** The fields before the last one, and the last one. */
  lemma ShortSplit(t: Text6)
    requires t.Valid() && t.Short?
    ensures var rest := if t.quad.Some? || t.right == [] then t.right else Front(t.right);
            && Front(t.Tokens()) == t.left + [""] + rest && Groups(rest)
            && Last(t.Tokens()) == (if t.quad.Some? then t.quad.value else if t.right == [] then "" else Last(t.right))
  {
    var rest := if t.quad.Some? || t.right == [] then t.right else Front(t.right);
    var r := OrBlank(t.right + t.Tail());
    assert Front(t.Tokens()) == t.left + [""] + Front(r);
    assert Front(r) == rest;
  }

  lemma HeadOfGroups(left: seq<string>, right: seq<string>)
    requires Groups(left) && Groups(right)
    ensures var h := left + [""] + right;
            HeadOk(h) && Gap(h) == |left| && h[..|left|] == left
  {
    var h := left + [""] + right;
    assert h[|left|] == "";
    forall k | 0 <= k < |h| && k != |left| ensures IsGroup(h[k]) {
      if k < |left| { assert h[k] == left[k]; } else { assert h[k] == right[k - |left| - 1]; }
    }
  }

  lemma EncodeHead(left: seq<string>, right: seq<string>)
    requires Groups(left) && Groups(right)
    ensures Encode(left + [""] + right) == Words(left) + Words(right)
    ensures |Words(left)| == 2 * |left| && |Words(right)| == 2 * |right|
  {
    EncodeGroups(left);
    EncodeGroups(right);
    EncodeAppend(left + [""], right);
    GapAddsNothing(left);
  }

  lemma GapAddsNothing(left: seq<string>)
    ensures Encode(left + [""]) == Encode(left)
  {
    assert Front(left + [""]) == left;
  }

  lemma OpenParts(a: seq<Byte>, b: seq<Byte>)
    requires |a| + |b| < 16
    ensures Open(a + b, |a|) == a + Zeros(16 - |a| - |b|) + b
  {
    assert (a + b)[..|a|] == a && (a + b)[|a|..] == b;
  }

  /** All bytes that the fields give, and how many of them come before the gap. */
  function Given(ts: seq<string>): seq<Byte>
    requires ts != []
  {
    Encode(Front(ts)) + TailBytes(Last(ts))
  }

  function GapAt(ts: seq<string>): nat
    requires ts != []
  {
    |Encode(Front(ts)[..Gap(Front(ts))])|
  }

  lemma AssocBytes(a: seq<Byte>, b: seq<Byte>, c: seq<Byte>)
    ensures a + b + c == a + (b + c)
  {}

  /** Groups around a gap, and a last field that adds `tail`. */
  lemma FieldsAroundGap(ts: seq<string>, left: seq<string>, rest: seq<string>, tail: seq<Byte>)
    requires ts != [] && Groups(left) && Groups(rest)
    requires Front(ts) == left + [""] + rest && TailBytes(Last(ts)) == tail
    ensures HeadOk(Front(ts)) && Gap(Front(ts)) == |left| < |Front(ts)|
    ensures Given(ts) == Words(left) + (Words(rest) + tail) && GapAt(ts) == |Words(left)| == 2 * |left|
    ensures |Words(rest)| == 2 * |rest|
  {
    HeadOfGroups(left, rest);
    EncodeHead(left, rest);
    EncodeGroups(left);
    AssocBytes(Words(left), Words(rest), tail);
  }

  lemma ValueWithGap(ts: seq<string>)
    requires ts != [] && Accepted(ts) && Gap(Front(ts)) < |Front(ts)|
    ensures GapAt(ts) <= |Given(ts)| <= 16 && Value(ts) == Open(Given(ts), GapAt(ts))
  {
    EncodePrefix(Front(ts), Gap(Front(ts)));
  }

  lemma GapAccepted(ts: seq<string>, left: seq<string>, rest: seq<string>, tail: seq<Byte>)
    requires ts != [] && Groups(left) && Groups(rest)
    requires Front(ts) == left + [""] + rest && TailOk(Last(ts)) && TailBytes(Last(ts)) == tail
    requires 2 * |left| + 2 * |rest| + |tail| < 16
    ensures Accepted(ts)
  {
    HeadOfGroups(left, rest);
    EncodeHead(left, rest);
  }

  lemma GapValue(ts: seq<string>, left: seq<string>, rest: seq<string>, tail: seq<Byte>)
    requires ts != [] && Groups(left) && Groups(rest)
    requires Front(ts) == left + [""] + rest && TailOk(Last(ts)) && TailBytes(Last(ts)) == tail
    requires 2 * |left| + 2 * |rest| + |tail| < 16
    ensures Accepted(ts)
    ensures Value(ts) == AroundGap(left, rest, tail)
  {
    GapAccepted(ts, left, rest, tail);
    FieldsAroundGap(ts, left, rest, tail);
    ValueWithGap(ts);
    OpenParts(Words(left), Words(rest) + tail);
  }

  lemma LastGroup(left: seq<string>, right: seq<string>)
    requires right != [] && |left| + |right| <= 7
    ensures AroundGap(left, Front(right), WordBytes(NumVal(Hex, Last(right)))) == AroundGap(left, right, [])
  {
    var w := WordBytes(NumVal(Hex, Last(right)));
    assert Words(right) + [] == Words(Front(right)) + w;
  }

  lemma ShortAccepted(left: seq<string>, right: seq<string>, quad: Option<string>)
    requires Short(left, right, quad).Valid()
    ensures Accepted(Short(left, right, quad).Tokens())
    ensures Value(Short(left, right, quad).Tokens()) == Short(left, right, quad).Meaning()
  {
    var t := Short(left, right, quad);
    var ts := t.Tokens();
    ShortSplit(t);
    if quad.Some? {
      QuadIsTail(quad.value);
      GapValue(ts, left, right, QuadBytes(quad.value));
    } else if right == [] {
      GapValue(ts, left, [], []);
    } else {
      assert IsGroup(Last(right)) && Groups(Front(right));
      GapValue(ts, left, Front(right), WordBytes(NumVal(Hex, Last(right))));
      LastGroup(left, right);
    }
  }

  /** Every legal text is read as the 16 bytes it stands for. */
  lemma LegalTextIsRead(t: Text6)
    requires t.Valid()
    ensures Parse6(t.Render()) == Some(t.Meaning())
  {
    RenderFields(t);
    TokensAccepted(t);
  }

  // -------------------------------------------------- what else is accepted

  ghost predicate IsLegal(s: string) {
    exists t: Text6 :: t.Valid() && t.Render() == s
  }

  /** A single colon at the end. */
  predicate LoneColonEnd(s: string) {
    |s| > 0 && Last(s) == ':' && (|s| == 1 || s[|s| - 2] != ':')
  }

  /** A "::" beside groups that already fill the 16 bytes. */
  predicate FullGap(s: string) {
    match Strip(s)
    case None => false
    case Some(body) => FullFields(Split(body, ':'))
  }

  predicate FullFields(ts: seq<string>)
    requires ts != []
  {
    Gap(Front(ts)) < |Front(ts)| && |Given(ts)| == 16
  }

  /** The last field is empty although the field before it is not the gap. */
  predicate TrailingBlank(ts: seq<string>) {
    |ts| >= 2 && Last(ts) == "" && ts[|ts| - 2] != ""
  }

  lemma BlankEnd(ts: seq<string>)
    requires ts != [] && Free(ts, ':')
    ensures LoneColonEnd(Join(ts, ':')) <==> TrailingBlank(ts) || ts == ["", ""]
  {
    var s, f := Join(ts, ':'), Last(ts);
    if f != "" {
      JoinLast(ts);
      assert Last(f) in f;
    } else if |ts| >= 2 {
      var u := Front(ts);
      assert s == Join(u, ':') + ":";
      if Last(u) != "" {
        JoinLast(u);
        assert Last(Last(u)) in Last(u);
      } else if |u| >= 2 {
        assert Join(u, ':') == Join(Front(u), ':') + ":";
      } else {
        assert ts == ["", ""];
      }
    }
  }

  lemma LoneColonFields(s: string)
    requires Strip(s).Some?
    ensures LoneColonEnd(s) <==> TrailingBlank(Split(Strip(s).value, ':'))
  {
    var body := Strip(s).value;
    var ts := Split(body, ':');
    JoinSplit(body, ':');
    SplitIsFree(body, ':');
    BlankEnd(ts);
    if ts == ["", ""] {
      assert body == Join(ts, ':') == ":";
    }
  }

  lemma TokensRegular(t: Text6)
    requires t.Valid()
    ensures var ts := t.Tokens();
            && !TrailingBlank(ts)
            && (Gap(Front(ts)) < |Front(ts)| ==> |Encode(Front(ts))| + |TailBytes(Last(ts))| < 16)
  {
    var ts := t.Tokens();
    match t
    case Full(groups, quad) =>
      TokenChars(t);
      assert Last(ts) == ts[|ts| - 1] != "";
      forall k | 0 <= k < |Front(ts)| ensures Front(ts)[k] != "" { assert Front(ts)[k] == ts[k]; }
    case Short(left, right, quad) =>
      ShortSplit(t);
      var rest := if quad.Some? || right == [] then right else Front(right);
      EncodeHead(left, rest);
      if quad.Some? {
        QuadIsTail(quad.value);
      }
  }

  /** From accepted regular fields back to a legal form. */
  lemma FullForm(s: string)
    requires Parse6(s).Some?
    requires var ts := Split(Strip(s).value, ':'); Gap(Front(ts)) == |Front(ts)| && !TrailingBlank(ts)
    ensures IsLegal(s)
  {
    var body := Strip(s).value;
    var ts := Split(body, ':');
    var h, f := Front(ts), Last(ts);
    JoinSplit(body, ':');
    FrontLast(ts);
    forall k | 0 <= k < |h| ensures IsGroup(h[k]) {}
    EncodeGroups(h);
    assert |ts| >= 2 ==> ts[|ts| - 2] == h[|h| - 1];
    JoinFirst(ts);
    GroupChars(ts[0]);
    assert ts[0][0] in ts[0];
    assert s == body;
    var t := if IsGroup(f) then Full(ts, None) else Full(h, Some(f));
    if IsGroup(f) {
      assert ts + [] == ts;
    }
    assert t.Valid() && t.Render() == Join(ts, ':');
  }

  lemma CutAt<T>(s: seq<T>, k: nat)
    requires k < |s|
    ensures s == s[..k] + [s[k]] + s[k + 1..]
  {}

  lemma GapParts(h: seq<string>)
    requires HeadOk(h) && Gap(h) < |h|
    ensures Groups(h[..Gap(h)]) && Groups(h[Gap(h) + 1..])
    ensures h == h[..Gap(h)] + [""] + h[Gap(h) + 1..]
  {
    var g := Gap(h);
    CutAt(h, g);
    forall k | g < k < |h| ensures IsGroup(h[k]) { assert h[g] == ""; }
  }

  /** The text of fields around a gap. */
  lemma ShortRender(s: string, left: seq<string>, r: seq<string>)
    requires Strip(s).Some? && Groups(left) && r != []
    requires Join(left + [""] + r, ':') == Strip(s).value
    ensures s == Glue(left) + "::" + Join(r, ':')
  {
    var body := Strip(s).value;
    if left == [] {
      assert left + [""] + r == [""] + r;
      JoinBlank(r);
    } else {
      JoinAround(left, r);
      JoinFirst(left);
      GroupChars(left[0]);
      assert left[0][0] in left[0];
    }
  }

  lemma LegalShort(s: string, left: seq<string>, right: seq<string>)
    requires Groups(left) && Groups(right) && |left| + |right| <= 7
    requires s == Glue(left) + "::" + Glue(right)
    ensures IsLegal(s)
  {
    var t := Short(left, right, None);
    assert right + t.Tail() == right;
    assert t.Valid() && t.Render() == s;
  }

  lemma LegalShortQuad(s: string, left: seq<string>, right: seq<string>, q: string)
    requires Groups(left) && Groups(right) && IsQuad(q) && |left| + |right| <= 5
    requires s == Glue(left) + "::" + Glue(right + [q])
    ensures IsLegal(s)
  {
    var t := Short(left, right, Some(q));
    assert t.Valid() && t.Render() == s;
  }

  lemma ShortFormOf(s: string, left: seq<string>, rest: seq<string>, f: string)
    requires Groups(left) && Groups(rest) && TailOk(f) && (f == "" ==> rest == [])
    requires s == Glue(left) + "::" + Join(rest + [f], ':')
    requires 2 * |left| + 2 * |rest| + |TailBytes(f)| < 16
    ensures IsLegal(s)
  {
    var r := rest + [f];
    if f == "" {
      assert r == OrBlank([]);
      LegalShort(s, left, []);
    } else if IsGroup(f) {
      assert Groups(r) && OrBlank(r) == r;
      LegalShort(s, left, r);
    } else {
      assert OrBlank(r) == r && |TailBytes(f)| == 4;
      LegalShortQuad(s, left, rest, f);
    }
  }

  /** Accepted fields around a gap. */
  lemma LastOfRest(ts: seq<string>, left: seq<string>, rest: seq<string>, f: string)
    requires ts == left + [""] + (rest + [f]) && Groups(rest) && !TrailingBlank(ts)
    ensures f == "" ==> rest == []
  {
    if rest != [] {
      assert ts[|ts| - 2] == rest[|rest| - 1] && IsGroup(rest[|rest| - 1]) && Last(ts) == f;
    }
  }

  lemma RestBehind(h: seq<string>, left: seq<string>, rest: seq<string>, f: string)
    requires h == left + [""] + rest
    ensures h + [f] == left + [""] + (rest + [f])
  {}

  lemma ShortParts(ts: seq<string>)
    requires ts != [] && Accepted(ts) && !FullFields(ts) && Gap(Front(ts)) < |Front(ts)| && !TrailingBlank(ts)
    ensures var h, f := Front(ts), Last(ts);
            var left, rest := h[..Gap(h)], h[Gap(h) + 1..];
            && Groups(left) && Groups(rest) && TailOk(f) && (f == "" ==> rest == [])
            && 2 * |left| + 2 * |rest| + |TailBytes(f)| < 16
            && ts == left + [""] + (rest + [f])
  {
    var h, f := Front(ts), Last(ts);
    var left, rest := h[..Gap(h)], h[Gap(h) + 1..];
    FrontLast(ts);
    GapParts(h);
    EncodeHead(left, rest);
    RestBehind(h, left, rest, f);
    LastOfRest(ts, left, rest, f);
  }

  lemma ShortForm(s: string)
    requires Parse6(s).Some? && !FullGap(s)
    requires var ts := Split(Strip(s).value, ':'); Gap(Front(ts)) < |Front(ts)| && !TrailingBlank(ts)
    ensures IsLegal(s)
  {
    JoinSplit(Strip(s).value, ':');
    ShortFields(s, Split(Strip(s).value, ':'));
  }

  lemma ShortFields(s: string, ts: seq<string>)
    requires ts != [] && Strip(s).Some? && Join(ts, ':') == Strip(s).value
    requires Accepted(ts) && !FullFields(ts) && Gap(Front(ts)) < |Front(ts)| && !TrailingBlank(ts)
    ensures IsLegal(s)
  {
    var h, f := Front(ts), Last(ts);
    var left, rest := h[..Gap(h)], h[Gap(h) + 1..];
    ShortParts(ts);
    ShortRender(s, left, rest + [f]);
    ShortFormOf(s, left, rest, f);
  }

  /** inet_pton6 is documented to take the legal texts only.  It takes them and two kinds
      more: those that end in a single colon, and those with a "::" and no room for it. */
  lemma ExactlyAccepted(s: string)
    ensures IsLegal(s) <==> Parse6(s).Some? && !LoneColonEnd(s) && !FullGap(s)
  {
    if IsLegal(s) {
      var t: Text6 :| t.Valid() && t.Render() == s;
      RenderFields(t);
      TokensAccepted(t);
      TokensRegular(t);
      LoneColonFields(s);
    }
    if Parse6(s).Some? && !LoneColonEnd(s) && !FullGap(s) {
      LoneColonFields(s);
      var h := Front(Split(Strip(s).value, ':'));
      if Gap(h) < |h| {
        ShortForm(s);
      } else {
        FullForm(s);
      }
    }
  }

  lemma ByFields(s: string, ts: seq<string>)
    requires ts != [] && Strip(s).Some? && Split(Strip(s).value, ':') == ts
    ensures Parse6(s) == if Accepted(ts) then Some(Value(ts)) else None
    ensures FullGap(s) <==> FullFields(ts)
  {}

  lemma BlankLast(groups: seq<string>)
    requires Groups(groups) && groups != []
    ensures var ts := groups + [""];
            && Join(ts, ':') == Glue(groups) + ":"
            && LoneColonEnd(Join(ts, ':'))
            && Strip(Join(ts, ':')).Some? && Split(Strip(Join(ts, ':')).value, ':') == ts
  {
    var ts := groups + [""];
    assert Front(ts) == groups && Glue(groups) + ":" + "" == Glue(groups) + ":";
    forall k | 0 <= k < |ts| ensures ':' !in ts[k] {
      if k < |groups| { GroupChars(groups[k]); }
    }
    GroupChars(groups[0]);
    GroupChars(groups[|groups| - 1]);
    FieldsOfFull(ts);
    BlankEnd(ts);
  }

  lemma BlankLastValue(groups: seq<string>)
    requires Groups(groups) && |groups| == 8
    ensures Accepted(groups + [""]) && Value(groups + [""]) == Words(groups)
  {
    var ts := groups + [""];
    assert Front(ts) == groups;
    EncodeGroups(groups);
    assert Words(groups) + [] == Words(groups);
  }

  /** Any text of eight groups is accepted with a colon behind it, for the same bytes. */
  lemma TrailingColonTaken(groups: seq<string>)
    requires Groups(groups) && |groups| == 8
    ensures Parse6(Glue(groups) + ":") == Some(Words(groups)) && !IsLegal(Glue(groups) + ":")
  {
    BlankLast(groups);
    BlankLastValue(groups);
    ByFields(Glue(groups) + ":", groups + [""]);
    ExactlyAccepted(Glue(groups) + ":");
  }

  lemma OpenFull(all: seq<Byte>, c: nat)
    requires c <= |all| == 16
    ensures Open(all, c) == all[..c] + Zeros(16 - c)
    ensures Open(all, c) == all <==> forall i :: c <= i < 16 ==> all[i] == 0
  {
    if forall i :: c <= i < 16 ==> all[i] == 0 {
      assert Open(all, c) == all;
    } else {
      var i :| c <= i < 16 && all[i] != 0;
      assert Open(all, c)[i] == 0;
    }
  }

  lemma FullFieldsLose(ts: seq<string>)
    requires ts != [] && FullFields(ts) && Accepted(ts)
    ensures GapAt(ts) <= 16 && Value(ts) == Given(ts)[..GapAt(ts)] + Zeros(16 - GapAt(ts))
    ensures Value(ts) == Given(ts) <==> forall i :: GapAt(ts) <= i < 16 ==> Given(ts)[i] == 0
  {
    EncodePrefix(Front(ts), Gap(Front(ts)));
    OpenFull(Given(ts), GapAt(ts));
    assert Value(ts) == Open(Given(ts), GapAt(ts));
  }

  /** A "::" beside groups that fill the address is not ignored: the bytes from the gap on are
      lost.  The result is as if it were ignored if and only if those bytes are zero anyway. */
  lemma FullGapLoses(s: string, ts: seq<string>)
    requires FullGap(s) && Parse6(s).Some? && ts == Split(Strip(s).value, ':')
    ensures |Given(ts)| == 16 && GapAt(ts) <= 16
    ensures Parse6(s).value == Given(ts)[..GapAt(ts)] + Zeros(16 - GapAt(ts))
    ensures Parse6(s).value == Given(ts) <==> forall i :: GapAt(ts) <= i < 16 ==> Given(ts)[i] == 0
  {
    ByFields(s, ts);
    FullFieldsLose(ts);
  }

  lemma TextAroundGap(left: seq<string>, right: seq<string>)
    requires Groups(left) && Groups(right) && right != []
    ensures var s, ts := Glue(left) + "::" + Glue(right), left + [""] + right;
            && Strip(s).Some? && Split(Strip(s).value, ':') == ts
            && Front(ts) == left + [""] + Front(right) && Last(ts) == Last(right)
  {
    var ts := left + [""] + right;
    forall k | 0 <= k < |ts| ensures ':' !in ts[k] {
      if k != |left| {
        GroupChars(if k < |left| then left[k] else right[k - |left| - 1]);
      }
    }
    if left != [] {
      GroupChars(left[0]);
    }
    FieldsOfShort(left, right);
    AppendFrontLast(left + [""], right);
  }

  lemma FullFieldsValue(ts: seq<string>, left: seq<string>, right: seq<string>)
    requires Groups(left) && Groups(right) && |left| + |right| == 8 && right != []
    requires ts != [] && Front(ts) == left + [""] + Front(right) && Last(ts) == Last(right)
    ensures Accepted(ts) && FullFields(ts)
    ensures Given(ts) == Words(left) + Words(right)
    ensures Value(ts) == Words(left) + Zeros(2 * |right|)
  {
    assert IsGroup(right[|right| - 1]);
    FieldsAroundGap(ts, left, Front(right), WordBytes(NumVal(Hex, Last(right))));
    OpenFull(Given(ts), GapAt(ts));
    assert Value(ts) == Open(Given(ts), GapAt(ts));
    assert Given(ts)[..GapAt(ts)] == Words(left);
  }

  /** Any eight groups around a "::" are such a text. */
  lemma FullGapTaken(left: seq<string>, right: seq<string>)
    requires Groups(left) && Groups(right) && |left| + |right| == 8 && right != []
    ensures Parse6(Glue(left) + "::" + Glue(right)) == Some(Words(left) + Zeros(2 * |right|))
    ensures !IsLegal(Glue(left) + "::" + Glue(right))
  {
    var s, ts := Glue(left) + "::" + Glue(right), left + [""] + right;
    TextAroundGap(left, right);
    FullFieldsValue(ts, left, right);
    ByFields(s, ts);
    ExactlyAccepted(s);
  }

  lemma JoinStep(gs: seq<string>, k: nat)
    requires 0 < k < |gs|
    ensures Join(gs[..k + 1], ':') == Join(gs[..k], ':') + ":" + gs[k]
  {
    assert Front(gs[..k + 1]) == gs[..k];
  }

  lemma One()
    ensures IsGroup("1") && WordBytes(NumVal(Hex, "1")) == [0, 1]
  {
    NumValStep(Hex, "", '1');
    assert "" + ['1'] == "1";
  }

  function Pairs(n: nat): (bs: seq<Byte>)
    ensures |bs| == 2 * n
  {
    seq(2 * n, i requires 0 <= i < 2 * n => i % 2)
  }

  lemma {:induction false} OnesWords(gs: seq<string>)
    requires forall i :: 0 <= i < |gs| ==> gs[i] == "1"
    ensures Words(gs) == Pairs(|gs|)
  {
    if gs != [] {
      OnesWords(Front(gs));
      One();
      assert Pairs(|gs| - 1) + [0, 1] == Pairs(|gs|);
    }
  }

  lemma FourOnesText(gs: seq<string>)
    requires gs == ["1", "1", "1", "1"]
    ensures Groups(gs) && Glue(gs) == "1:1:1:1"
  {
    One();
    JoinStep(gs, 1);
    JoinStep(gs, 2);
    JoinStep(gs, 3);
    assert gs[..1] == ["1"] && gs[..4] == gs;
  }

  lemma FourOnesWords(gs: seq<string>)
    requires gs == ["1", "1", "1", "1"]
    ensures Words(gs) == [0, 1, 0, 1, 0, 1, 0, 1]
  {
    OnesWords(gs);
    assert Pairs(4) == [0, 1, 0, 1, 0, 1, 0, 1];
  }

  /** A concrete text that ends in a colon, is not legal and is accepted all the same. */
  lemma ColonAtTheEnd(s: string)
    requires s == "1:1:1:1:1:1:1:1:"
    ensures Parse6(s).Some? && !IsLegal(s)
  {
    var gs := ["1", "1", "1", "1"];
    FourOnesText(gs);
    JoinAppend(gs, gs, ':');
    assert Glue(gs + gs) + ":" == s;
    TrailingColonTaken(gs + gs);
  }

  lemma Twice(a: string, s: string)
    requires a == "1:1:1:1" && s == "1:1:1:1::1:1:1:1"
    ensures a + "::" + a == s
  {}

  /** A concrete text with a "::" that takes the last four of its eight ones away. */
  lemma GroupsLost(s: string)
    requires s == "1:1:1:1::1:1:1:1"
    ensures Parse6(s) == Some([0, 1, 0, 1, 0, 1, 0, 1, 0, 0, 0, 0, 0, 0, 0, 0]) && !IsLegal(s)
  {
    var gs := ["1", "1", "1", "1"];
    FourOnesText(gs);
    FourOnesWords(gs);
    Twice(Glue(gs), s);
    FullGapTaken(gs, gs);
    assert Words(gs) + Zeros(8) == [0, 1, 0, 1, 0, 1, 0, 1, 0, 0, 0, 0, 0, 0, 0, 0];
  }
}
