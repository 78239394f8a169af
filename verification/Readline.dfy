/**
 Three line readers over one stream: the byte-at-a-time `readline` of the
 server directory, its buffered form `readline_r`, and the library's
 `readline`, which buffers in static variables.

 read() is an environment step: the stream is a list of chunks, each of which
 one or more calls deliver, so a list of chunks is one way the kernel may split
 the bytes.
 */
module Readline {
  import opened Common

  const MAXLINE := 4096
  const NEWLINE: Byte := 10

  /** What the kernel holds for the next calls of read(); the end of the list is end-of-file. */
  datatype Chunk = Data(bytes: seq<Byte>) | Eof | Eintr | Error

  /** The stream without its split into chunks. */
  datatype Item = One(b: Byte) | AtEof | Interrupted | Failing

  function ItemsOf(bs: seq<Byte>): (r: seq<Item>)
    ensures |r| == |bs|
  {
    seq(|bs|, i requires 0 <= i < |bs| => One(bs[i]))
  }

  function Items(chunks: seq<Chunk>): seq<Item> {
    if chunks == [] then []
    else
      (match chunks[0]
       case Data(bs) => ItemsOf(bs)
       case Eof => [AtEof]
       case Eintr => [Interrupted]
       case Error => [Failing]) + Items(chunks[1..])
  }

  /** The stream as a reader sees it that repeats an interrupted read. */
  function Retried(items: seq<Item>): seq<Item> {
    if items == [] then []
    else (if items[0].Interrupted? then [] else [items[0]]) + Retried(items[1..])
  }

  // --------------------------------------------------------- reference form

  datatype Stop = AtNewline | Full | AtEnd | Failed

  /** The bytes stored for one line, why reading stopped, and the stream that is left. */
  datatype Line = Line(stored: seq<Byte>, stop: Stop, rest: seq<Item>)

  /** One line when `room` bytes may be stored before the NUL. */
  function OneLine(items: seq<Item>, room: nat): Line
    decreases |items|
  {
    if room == 0 then Line([], Full, items)
    else if items == [] then Line([], AtEnd, [])
    else match items[0]
      case AtEof => Line([], AtEnd, items[1..])
      case Interrupted => Line([], Failed, items[1..])
      case Failing => Line([], Failed, items[1..])
      case One(b) =>
        if b == NEWLINE then Line([b], AtNewline, items[1..])
        else var l := OneLine(items[1..], room - 1); l.(stored := [b] + l.stored)
  }

  /** The value both server forms return: one more than the bytes stored when the buffer
      is full or when end-of-file follows some bytes. */
  function Returned(l: Line): int {
    match l.stop
    case AtNewline => |l.stored|
    case Full => |l.stored| + 1
    case AtEnd => if l.stored == [] then 0 else |l.stored| + 1
    case Failed => -1
  }

  /** The value the library form returns. */
  function LibReturned(l: Line): int {
    match l.stop
    case AtNewline => |l.stored|
    case Full => |l.stored| + 1
    case AtEnd => |l.stored|
    case Failed => -1
  }

  /** The items that ended the line without giving a byte. */
  function Ended(items: seq<Item>, l: Line): nat {
    if l.stop.AtNewline? || l.stop.Full? || (l.stop.AtEnd? && |items| == |l.stored|) then 0 else 1
  }

  /** Nothing is lost or invented: the bytes stored, at most one end marker and the rest are
      the stream, in this order. */
  lemma {:induction false} LineConserves(items: seq<Item>, room: nat)
    ensures var l := OneLine(items, room);
            && |l.stored| <= room
            && |l.stored| + Ended(items, l) <= |items|
            && items[..|l.stored|] == ItemsOf(l.stored)
            && l.rest == items[|l.stored| + Ended(items, l)..]
    decreases |items|
  {
    if room > 0 && items != [] && items[0].One? && items[0].b != NEWLINE {
      var tail := items[1..];
      LineConserves(tail, room - 1);
      var m, l := OneLine(tail, room - 1), OneLine(items, room);
      var k := |m.stored|;
      assert l.stored == [items[0].b] + m.stored && Ended(items, l) == Ended(tail, m);
      ItemsSnoc(l.stored);
      assert l.stored[1..] == m.stored;
      assert items[..k + 1] == [items[0]] + tail[..k];
    }
  }

  /** A line ends at its first newline, and otherwise only when it is full or the stream ends. */
  lemma {:induction false} LineEnds(items: seq<Item>, room: nat)
    ensures var l := OneLine(items, room);
            && (forall i :: 0 <= i < |l.stored| - 1 ==> l.stored[i] != NEWLINE)
            && (l.stop.AtNewline? <==> l.stored != [] && l.stored[|l.stored| - 1] == NEWLINE)
            && (l.stop.Full? ==> |l.stored| == room)
    decreases |items|
  {
    if room > 0 && items != [] && items[0].One? && items[0].b != NEWLINE {
      LineEnds(items[1..], room - 1);
      var m, l := OneLine(items[1..], room - 1), OneLine(items, room);
      assert l.stored == [items[0].b] + m.stored;
    }
  }

  /** The bytes before a newline or another item, as far as there is room. */
  function Plain(items: seq<Item>, room: nat): (n: nat)
    ensures n <= room && n <= |items|
    decreases |items|
  {
    if room == 0 || items == [] || !items[0].One? || items[0].b == NEWLINE then 0
    else 1 + Plain(items[1..], room - 1)
  }

  /** Where a line stops, in terms of the stream. */
  lemma {:induction false} LineShape(items: seq<Item>, room: nat)
    ensures var l, n := OneLine(items, room), Plain(items, room);
            && (l.stop.Full? <==> n == room)
            && (l.stop.AtEnd? <==> n < room && (n == |items| || items[n].AtEof?))
            && (l.stop.AtNewline? <==> n < room && n < |items| && items[n] == One(NEWLINE))
            && |l.stored| == n + if l.stop.AtNewline? then 1 else 0
    decreases |items|
  {
    if room > 0 && items != [] && items[0].One? && items[0].b != NEWLINE {
      LineShape(items[1..], room - 1);
    }
  }

  /** Both values, from the stream: what comes behind the first `n` bytes decides. */
  lemma ReturnValues(items: seq<Item>, room: nat)
    ensures var l, n := OneLine(items, room), Plain(items, room);
            if n == room then Returned(l) == LibReturned(l) == n + 1
            else if n == |items| || items[n].AtEof? then
              Returned(l) == (if n == 0 then 0 else n + 1) && LibReturned(l) == n
            else if items[n] == One(NEWLINE) then Returned(l) == LibReturned(l) == n + 1
            else (items[n].Interrupted? || items[n].Failing?) && Returned(l) == LibReturned(l) == -1
  {
    LineShape(items, room);
    PlainStops(items, room);
  }

  lemma {:induction false} PlainStops(items: seq<Item>, room: nat)
    ensures var n := Plain(items, room);
            n < room && n < |items| ==> !items[n].One? || items[n].b == NEWLINE
    decreases |items|
  {
    if room > 0 && items != [] && items[0].One? && items[0].b != NEWLINE {
      PlainStops(items[1..], room - 1);
    }
  }

  /** The value returned is the number of bytes stored if and only if a newline is found in time
      or the stream is at its end at once. */
  lemma ReturnedIsCount(items: seq<Item>, room: nat)
    ensures var l, n := OneLine(items, room), Plain(items, room);
            Returned(l) == |l.stored| <==>
            || (n < room && n < |items| && items[n] == One(NEWLINE))
            || (n == 0 < room && (items == [] || items[0].AtEof?))
  {
    LineShape(items, room);
  }

  /** The library's value is it also when the end comes after some bytes. */
  lemma LibReturnedIsCount(items: seq<Item>, room: nat)
    ensures var l, n := OneLine(items, room), Plain(items, room);
            LibReturned(l) == |l.stored| <==>
            n < room && (n == |items| || items[n].AtEof? || items[n] == One(NEWLINE))
  {
    LineShape(items, room);
  }

  /** A full buffer and an end after some bytes, where the value is one more. */
  lemma ReturnedIsNotCount()
    ensures var l := OneLine([One(65)], 1); l.stored == [65] && Returned(l) == LibReturned(l) == 2
    ensures var l := OneLine([One(65)], 9); l.stored == [65] && Returned(l) == 2 && LibReturned(l) == 1
  {
    assert [One(65)][1..] == [];
    assert OneLine([], 8) == Line([], AtEnd, []);
  }

  // ------------------------------------------------------- interrupted reads

  function Skipped(items: seq<Item>): seq<Item> {
    if items != [] && items[0].Interrupted? then Skipped(items[1..]) else items
  }

  /** The item at which a line stops is an interrupted read. */
  predicate Cut(items: seq<Item>, room: nat) {
    var n := Plain(items, room);
    n < room && n < |items| && items[n].Interrupted?
  }

  /** When the read is repeated it fails. */
  predicate FailsNext(items: seq<Item>) {
    Skipped(items) != [] && Skipped(items)[0].Failing?
  }

  predicate Agree(a: Line, b: Line) {
    a.stored == b.stored && Returned(a) == Returned(b)
  }

  /** The line is the same when interrupted reads are repeated. */
  ghost predicate Uncut(items: seq<Item>, room: nat) {
    OneLine(Retried(items), room) == var l := OneLine(items, room); l.(rest := Retried(l.rest))
  }

  lemma UncutFurther(items: seq<Item>, room: nat)
    requires items != [] && room > 0 && items[0].One? && items[0].b != NEWLINE
    requires Uncut(items[1..], room - 1)
    ensures Uncut(items, room)
  {
    RetriedHead(items);
  }

  lemma {:induction false} SameLine(items: seq<Item>, room: nat)
    requires !Cut(items, room)
    ensures Uncut(items, room)
    decreases |items|
  {
    if items != [] && room > 0 {
      if items[0].One? && items[0].b != NEWLINE {
        SameLine(items[1..], room - 1);
        UncutFurther(items, room);
      } else {
        RetriedHead(items);
      }
    }
  }

  lemma RetriedHead(items: seq<Item>)
    requires items != []
    ensures !items[0].Interrupted? ==>
              && Retried(items) != [] && Retried(items)[0] == items[0] && Retried(items)[1..] == Retried(items[1..])
    ensures items[0].Interrupted? ==> Retried(items) == Retried(items[1..])
  {}

  lemma {:induction false} RetriedSkips(items: seq<Item>)
    ensures Retried(items) == Retried(Skipped(items))
    ensures Skipped(items) != [] ==> !Skipped(items)[0].Interrupted?
  {
    if items != [] && items[0].Interrupted? {
      RetriedSkips(items[1..]);
    }
  }

  /** A line cut by an interrupted read, and the same line when the read is repeated. */
  ghost predicate CutApart(items: seq<Item>, room: nat) {
    var a, b := OneLine(items, room), OneLine(Retried(items), room);
    && a.stop.Failed?
    && (Agree(a, b) <==> FailsNext(items[Plain(items, room)..]))
    && (Agree(a, b) ==> Retried(a.rest) == [Failing] + b.rest)
  }

  lemma {:induction false} CutLine(items: seq<Item>, room: nat)
    requires Cut(items, room)
    ensures CutApart(items, room)
    decreases |items|
  {
    if items[0].Interrupted? {
      assert items[0..] == items;
      CutAtOnce(items, room);
    } else {
      CutLine(items[1..], room - 1);
      CutFurther(items, room);
    }
  }

  lemma CutFurther(items: seq<Item>, room: nat)
    requires room > 0 && items != [] && items[0].One? && items[0].b != NEWLINE
    requires CutApart(items[1..], room - 1)
    ensures CutApart(items, room)
  {
    RetriedHead(items);
    var c, d := OneLine(items[1..], room - 1), OneLine(Retried(items[1..]), room - 1);
    LongerAgree(items[0].b, c, d);
    assert items[1..][Plain(items[1..], room - 1)..] == items[Plain(items, room)..];
  }

  lemma CutAtOnce(items: seq<Item>, room: nat)
    requires room > 0 && items != [] && items[0].Interrupted?
    ensures var a, b := OneLine(items, room), OneLine(Retried(items), room);
            && (Agree(a, b) <==> FailsNext(items))
            && (Agree(a, b) ==> Retried(a.rest) == [Failing] + b.rest)
            && a == Line([], Failed, items[1..])
  {
    RetriedSkips(items);
    RetriedSkips(items[1..]);
    var r := Skipped(items);
    if r != [] {
      RetriedHead(r);
      if r[0].Failing? {
        assert Retried(r) == [Failing] + Retried(r[1..]);
      }
    }
  }

  lemma LongerAgree(x: Byte, a: Line, b: Line)
    requires a.stop.Failed?
    ensures Agree(a.(stored := [x] + a.stored), b.(stored := [x] + b.stored)) <==> Agree(a, b)
  {
    assert ([x] + a.stored)[1..] == a.stored && ([x] + b.stored)[1..] == b.stored;
  }

  /** One call of the one-byte form, which gives up at an interrupted read, and of the buffered
      form, which repeats it: they store and return the same if and only if no interrupted read
      ends the line, or the repeated read fails. */
  lemma SameAnswer(items: seq<Item>, room: nat)
    ensures Agree(OneLine(items, room), OneLine(Retried(items), room))
       <==> !Cut(items, room) || FailsNext(items[Plain(items, room)..])
  {
    if Cut(items, room) {
      CutLine(items, room);
    } else {
      SameLine(items, room);
      assert Uncut(items, room);
    }
  }

  /** A concrete stream on which the two differ. */
  lemma InterruptionIsVisible()
    ensures var items := [Interrupted, One(10)];
            Returned(OneLine(items, 9)) == -1 && Returned(OneLine(Retried(items), 9)) == 1
  {
    var items := [Interrupted, One(NEWLINE)];
    assert items[1..] == [One(NEWLINE)] && items[1..][1..] == [];
    assert Retried(items[1..]) == [One(NEWLINE)] + Retried([]);
    assert Retried(items) == [One(NEWLINE)];
  }

  // ------------------------------------------------------ sequences of calls

  /** The bytes that a buffer takes besides the NUL. */
  function RoomOf(size: nat): nat {
    if size == 0 then 0 else size - 1
  }

  /** A whole sequence of calls, with the buffer sizes the caller passes. */
  function Calls(items: seq<Item>, sizes: seq<nat>): (ls: seq<Line>)
    ensures |ls| == |sizes|
    decreases |sizes|
  {
    if sizes == [] then []
    else
      var l := OneLine(items, RoomOf(sizes[0]));
      [l] + Calls(l.rest, sizes[1..])
  }

  /** The stream after a sequence of calls. */
  function Left(items: seq<Item>, sizes: seq<nat>): seq<Item>
    decreases |sizes|
  {
    if sizes == [] then items
    else Left(OneLine(items, RoomOf(sizes[0])).rest, sizes[1..])
  }

  ghost predicate AllAgree(a: seq<Line>, b: seq<Line>) {
    |a| == |b| && forall i :: 0 <= i < |a| ==> Agree(a[i], b[i])
  }

  /** The one-byte form comes upon an interrupted read. */
  predicate Meets(items: seq<Item>, sizes: seq<nat>)
    decreases |sizes|
  {
    sizes != [] && (Cut(items, RoomOf(sizes[0])) || Meets(OneLine(items, RoomOf(sizes[0])).rest, sizes[1..]))
  }

  lemma LineConsumes(items: seq<Item>, room: nat)
    ensures var l := OneLine(items, room);
            && |l.rest| <= |items| && l.rest == items[|items| - |l.rest|..]
            && (Cut(items, room) <==> Interrupted in items[..|items| - |l.rest|])
  {
    var l, n := OneLine(items, room), Plain(items, room);
    LineConserves(items, room);
    LineShape(items, room);
    var k := |items| - |l.rest|;
    assert k == |l.stored| + Ended(items, l);
    assert items[..|l.stored|] == ItemsOf(l.stored);
    assert forall i :: 0 <= i < |l.stored| ==> items[i] == items[..|l.stored|][i] && items[i].One?;
    if Interrupted in items[..k] {
      var i :| 0 <= i < k && items[i].Interrupted?;
      assert i == n;
    }
    if Cut(items, room) {
      assert items[..k][n] == Interrupted;
    }
  }

  lemma TwoParts(items: seq<Item>, k: nat, m: nat)
    requires k + m <= |items|
    ensures items[k..][m..] == items[k + m..] && items[..k + m] == items[..k] + items[k..][..m]
  {}

  /** In terms of the stream: an interrupted read is among the items that the calls take. */
  lemma {:induction false} MeetsIsTaken(items: seq<Item>, sizes: seq<nat>)
    ensures var k := |items| - |Left(items, sizes)|;
            k >= 0 && Left(items, sizes) == items[k..] && (Meets(items, sizes) <==> Interrupted in items[..k])
    decreases |sizes|
  {
    if sizes != [] {
      var rest := OneLine(items, RoomOf(sizes[0])).rest;
      LineConsumes(items, RoomOf(sizes[0]));
      MeetsIsTaken(rest, sizes[1..]);
      TwoParts(items, |items| - |rest|, |rest| - |Left(rest, sizes[1..])|);
    }
  }

  predicate AllFailing(items: seq<Item>) {
    forall i :: 0 <= i < |items| ==> items[i].Failing?
  }

  lemma LagOn(lag: seq<Item>, b: seq<Item>)
    requires lag != [] && b != [] && b[0] == Failing
    ensures lag + b == lag + [Failing] + b[1..]
    ensures (lag + b)[1..] == lag[1..] + b == lag[1..] + [Failing] + b[1..]
  {}

  /** Once the one-byte form is behind by failed reads it stays behind while the answers agree. */
  lemma {:induction false} StaysBehind(p: seq<Item>, b: seq<Item>, lag: seq<Item>, sizes: seq<nat>)
    requires Retried(p) == lag + b && lag != [] && AllFailing(lag) && Interrupted !in b
    requires AllAgree(Calls(p, sizes), Calls(b, sizes))
    ensures |Retried(Left(p, sizes))| > |Left(b, sizes)|
    decreases |sizes|
  {
    if sizes != [] {
      var room := RoomOf(sizes[0]);
      var x, y := OneLine(p, room), OneLine(b, room);
      assert Agree(Calls(p, sizes)[0], Calls(b, sizes)[0]);
      AgreeTail(p, b, sizes);
      if room == 0 {
        StaysBehind(p, b, lag, sizes[1..]);
      } else {
        assert Retried(p)[0] == lag[0];
        RetriedHead(p);
        assert x == Line([], Failed, p[1..]);
        LineShape(b, room);
        assert b != [] && b[0] in b && y == Line([], Failed, b[1..]);
        var more := if p[0].Interrupted? then lag else lag[1..];
        LagOn(lag, b);
        assert Retried(p[1..]) == more + b;
        StaysBehind(p[1..], b[1..], more + [Failing], sizes[1..]);
      }
    }
  }

  lemma AgreeTail(p: seq<Item>, b: seq<Item>, sizes: seq<nat>)
    requires sizes != []
    ensures AllAgree(Calls(p, sizes), Calls(b, sizes)) <==>
            && Agree(OneLine(p, RoomOf(sizes[0])), OneLine(b, RoomOf(sizes[0])))
            && AllAgree(Calls(OneLine(p, RoomOf(sizes[0])).rest, sizes[1..]),
                        Calls(OneLine(b, RoomOf(sizes[0])).rest, sizes[1..]))
  {
    var x, y := Calls(p, sizes), Calls(b, sizes);
    assert x[1..] == Calls(OneLine(p, RoomOf(sizes[0])).rest, sizes[1..]);
    assert y[1..] == Calls(OneLine(b, RoomOf(sizes[0])).rest, sizes[1..]);
    if AllAgree(x[1..], y[1..]) && Agree(x[0], y[0]) {
      forall i | 0 <= i < |x| ensures Agree(x[i], y[i]) {
        if i > 0 {
          assert Agree(x[1..][i - 1], y[1..][i - 1]);
        }
      }
    }
    if AllAgree(x, y) {
      assert Agree(x[0], y[0]);
      forall i | 0 <= i < |x| - 1 ensures Agree(x[1..][i], y[1..][i]) {
        assert Agree(x[i + 1], y[i + 1]);
      }
    }
  }

  lemma {:induction false} RetriedIsCalm(items: seq<Item>)
    ensures Interrupted !in Retried(items)
  {
    if items != [] {
      RetriedIsCalm(items[1..]);
    }
  }

  /** Any sequence of calls: the two forms answer alike and are left with the same stream if
      and only if the one-byte form comes upon no interrupted read. */
  lemma {:induction false} SameAnswers(items: seq<Item>, sizes: seq<nat>)
    ensures !Meets(items, sizes) <==>
            && AllAgree(Calls(items, sizes), Calls(Retried(items), sizes))
            && Left(Retried(items), sizes) == Retried(Left(items, sizes))
    decreases |sizes|
  {
    if sizes != [] {
      var room := RoomOf(sizes[0]);
      var a, b := OneLine(items, room), OneLine(Retried(items), room);
      AgreeTail(items, Retried(items), sizes);
      if Cut(items, room) {
        CutLine(items, room);
        if AllAgree(Calls(items, sizes), Calls(Retried(items), sizes)) {
          RetriedIsCalm(a.rest);
          assert forall x :: x in b.rest ==> x in Retried(a.rest);
          StaysBehind(a.rest, b.rest, [Failing], sizes[1..]);
        }
      } else {
        SameLine(items, room);
        SameAnswers(a.rest, sizes[1..]);
      }
    }
  }

  // ------------------------------------------------------------- the stream

  lemma ItemsSnoc(bs: seq<Byte>)
    requires bs != []
    ensures ItemsOf(bs) == [One(bs[0])] + ItemsOf(bs[1..])
  {}

  /** An open descriptor. */
  class Descriptor {
    var chunks: seq<Chunk>

    constructor (chunks: seq<Chunk>)
      ensures this.chunks == chunks
    {
      this.chunks := chunks;
    }

    ghost function Stream(): seq<Item>
      reads this
    {
      Items(chunks)
    }

    /** read(): the bytes of the first chunk that fit, or one of the other outcomes.  Chunks
        without bytes stand for nothing and are passed over. */
    method Read(buf: array<Byte>, count: nat) returns (n: int, intr: bool)
      requires 1 <= count <= buf.Length
      modifies this, buf
      ensures -1 <= n <= count
      ensures n > 0 ==> old(Stream()) == ItemsOf(buf[..n]) + Stream()
      ensures n == 0 ==> (old(Stream()) == [] && Stream() == []) || old(Stream()) == [AtEof] + Stream()
      ensures intr ==> n < 0
      ensures |chunks| <= old(|chunks|) && (n < 0 ==> |chunks| < old(|chunks|))
      ensures n < 0 ==> old(Stream()) == [if intr then Interrupted else Failing] + Stream()
      ensures buf[Max(n, 0)..] == old(buf[Max(n, 0)..])
    {
      intr := false;
      while chunks != [] && chunks[0] == Data([])
        invariant Stream() == old(Stream()) && buf[..] == old(buf[..])
        decreases |chunks|
      {
        chunks := chunks[1..];
      }
      if chunks == [] {
        return 0, false;
      }
      match chunks[0]
      case Eof => chunks := chunks[1..]; n := 0;
      case Eintr => chunks := chunks[1..]; n, intr := -1, true;
      case Error => chunks := chunks[1..]; n := -1;
      case Data(bs) =>
        var k := Min(count, |bs|);
        forall i | 0 <= i < k {
          buf[i] := bs[i];
        }
        SplitData(bs, k, chunks[1..]);
        assert buf[..k] == bs[..k];
        chunks := [Data(bs[k..])] + chunks[1..];
        n := k;
    }
  }

  lemma SplitData(bs: seq<Byte>, k: nat, more: seq<Chunk>)
    requires k <= |bs|
    ensures Items([Data(bs)] + more) == ItemsOf(bs[..k]) + Items([Data(bs[k..])] + more)
  {
    assert ([Data(bs)] + more)[1..] == more && ([Data(bs[k..])] + more)[1..] == more;
    assert ItemsOf(bs) == ItemsOf(bs[..k]) + ItemsOf(bs[k..]);
  }

  // ---------------------------------------------------------- the readers

  /** A read of one byte took the stream from `before` to `after`. */
  ghost predicate Got(before: seq<Item>, rc: int, b: Byte, after: seq<Item>) {
    if rc == 1 then before == [One(b)] + after
    else if rc == 0 then (before == [] && after == []) || before == [AtEof] + after
    else before == [Failing] + after || before == [Interrupted] + after
  }

  lemma LineGot(before: seq<Item>, rc: int, b: Byte, after: seq<Item>, room: nat)
    requires Got(before, rc, b, after) && room > 0
    ensures OneLine(before, room) ==
            if rc == 1 then
              if b == NEWLINE then Line([b], AtNewline, after)
              else var l := OneLine(after, room - 1); l.(stored := [b] + l.stored)
            else if rc == 0 then Line([], AtEnd, after)
            else Line([], Failed, after)
  {
    if before != [] {
      assert before[1..] == after;
    }
  }

  /** A line of which some bytes have been stored already. */
  function Behind(done: seq<Byte>, l: Line): Line {
    l.(stored := done + l.stored)
  }

  /** What one read leaves to be done of the line. */
  ghost predicate Turned(want: Line, done: seq<Byte>, rc: int, b: Byte, after: seq<Item>, room: nat)
    requires room > 0
  {
    want == if rc != 1 then Line(done, if rc == 0 then AtEnd else Failed, after)
            else if b == NEWLINE then Line(done + [b], AtNewline, after)
            else Behind(done + [b], OneLine(after, room - 1))
  }

  lemma LineTurn(done: seq<Byte>, before: seq<Item>, rc: int, b: Byte, after: seq<Item>, room: nat)
    requires Got(before, rc, b, after) && room > 0
    ensures Turned(Behind(done, OneLine(before, room)), done, rc, b, after, room)
  {
    LineGot(before, rc, b, after, room);
    assert done + [] == done;
    if rc == 1 && b != NEWLINE {
      Assoc(done, [b], OneLine(after, room - 1).stored);
    }
  }

  lemma Assoc(a: seq<Byte>, b: seq<Byte>, c: seq<Byte>)
    ensures a + (b + c) == a + b + c
  {}

  lemma LineFull(done: seq<Byte>, items: seq<Item>)
    ensures Behind(done, OneLine(items, 0)) == Line(done, Full, items)
  {
    assert done + [] == done;
  }

  /** A read of one byte, stored if there is one. */
  method OneByte(fd: Descriptor, ptr: array<Byte>, k: nat) returns (rc: int, c: Byte)
    requires k < ptr.Length
    modifies fd, ptr
    ensures Got(old(fd.Stream()), rc, c, fd.Stream())
    ensures ptr[..k] == old(ptr[..k]) && (rc == 1 ==> ptr[..k + 1] == old(ptr[..k]) + [c])
  {
    var buf := new Byte[1](_ => 0);
    var intr;
    rc, intr := fd.Read(buf, 1);
    c := buf[0];
    if rc == 1 {
      assert ItemsOf(buf[..1]) == [One(c)];
      ptr[k] := c;
    }
  }

  method PlainTurn(fd: Descriptor, ptr: array<Byte>, k: nat, ghost room: nat, ghost done: seq<Byte>, ghost want: Line)
    returns (rc: int, c: Byte)
    requires k < ptr.Length && room > 0
    requires done == ptr[..k] && want == Behind(done, OneLine(fd.Stream(), room))
    modifies fd, ptr
    ensures Turned(want, done, rc, c, fd.Stream(), room)
    ensures if rc == 1 then ptr[..k + 1] == done + [c] else ptr[..k] == done
  {
    ghost var before := fd.Stream();
    rc, c := OneByte(fd, ptr, k);
    LineTurn(done, before, rc, c, fd.Stream(), room);
  }

  /** The loop of the one-byte reader: `n` as the source's variable stands when it ends, `at`
      the number of bytes stored. */
  method PlainLoop(fd: Descriptor, ptr: array<Byte>, maxlen: nat, ghost want: Line) returns (n: nat, rc: int, at: nat)
    requires 1 <= maxlen <= ptr.Length && want == OneLine(fd.Stream(), maxlen - 1)
    modifies fd, ptr
    ensures fd.Stream() == want.rest
    ensures 1 <= n <= maxlen && at < maxlen && ptr[..at] == want.stored
    ensures at == if want.stop.AtNewline? then n else n - 1
    ensures (rc == 0 <==> want.stop.AtEnd?) && (rc != 0 && rc != 1 <==> want.stop.Failed?)
  {
    ghost var done: seq<Byte> := [];
    ghost var room: nat := maxlen - 1;
    assert want == Behind(done, want);
    n := 1;
    while n < maxlen
      invariant 1 <= n <= maxlen && room == maxlen - n
      invariant done == ptr[..n - 1] && want == Behind(done, OneLine(fd.Stream(), room))
    {
      var c;
      rc, c := PlainTurn(fd, ptr, n - 1, room, done, want);
      if rc != 1 {
        at := n - 1;
        return;
      }
      done := done + [c];
      if c == NEWLINE {
        at := n;
        return;
      }
      n, room := n + 1, room - 1;
    }
    rc, at := 1, n - 1;
    LineFull(done, fd.Stream());
  }

  /** The one-byte reader of the server directory. */
  method ReadlinePlain(fd: Descriptor, ptr: array<Byte>, maxlen: nat) returns (ret: int)
    requires 1 <= maxlen <= ptr.Length
    modifies fd, ptr
    ensures var l := OneLine(old(fd.Stream()), maxlen - 1);
            && fd.Stream() == l.rest
            && ret == Returned(l)
            && |l.stored| < ptr.Length && ptr[..|l.stored|] == l.stored
            && (ret > 0 ==> ptr[|l.stored|] == 0)
  {
    ghost var want := OneLine(fd.Stream(), maxlen - 1);
    var n, rc, at := PlainLoop(fd, ptr, maxlen, want);
    if rc == 0 && n == 1 {
      return 0;
    } else if rc != 0 && rc != 1 {
      return -1;
    }
    ptr[at] := 0;
    return n;
  }

  lemma RetriedOne(x: Item, items: seq<Item>)
    ensures Retried([x] + items) == (if x.Interrupted? then [] else [x]) + Retried(items)
  {
    assert ([x] + items)[1..] == items;
  }

  lemma PopItems(buf: seq<Byte>, from: nat, to: nat, rest: seq<Item>)
    requires from < to <= |buf|
    ensures Retried(ItemsOf(buf[from..to]) + rest) == [One(buf[from])] + Retried(ItemsOf(buf[from + 1..to]) + rest)
  {
    var ahead := buf[from..to];
    assert ahead[1..] == buf[from + 1..to];
    ItemsSnoc(ahead);
    assert ItemsOf(ahead) + rest == [One(ahead[0])] + (ItemsOf(ahead[1..]) + rest);
    RetriedOne(One(ahead[0]), ItemsOf(ahead[1..]) + rest);
  }

  /** A read that returned `n` has taken its bytes, or the condition it reports, off the stream. */
  ghost predicate ReadOn(was: seq<Item>, buf: seq<Byte>, n: int, now: seq<Item>)
    requires n <= |buf|
  {
    if n > 0 then was == Retried(ItemsOf(buf[..n]) + now)
    else if n == 0 then (was == [] && Retried(now) == []) || was == [AtEof] + Retried(now)
    else was == [Failing] + Retried(now)
  }

  /** A read for a full buffer, repeated while it is interrupted. */
  method ReadRetrying(fd: Descriptor, buf: array<Byte>) returns (n: int)
    requires buf.Length == MAXLINE
    modifies fd, buf
    ensures -1 <= n <= MAXLINE
    ensures ReadOn(Retried(old(fd.Stream())), buf[..], n, fd.Stream())
  {
    var intr;
    n, intr := fd.Read(buf, MAXLINE);
    while n < 0 && intr
      invariant -1 <= n <= MAXLINE && (intr ==> n < 0)
      invariant intr ==> Retried(old(fd.Stream())) == Retried(fd.Stream())
      invariant !intr ==> ReadOn(Retried(old(fd.Stream())), buf[..], n, fd.Stream())
      decreases |fd.chunks|, intr
    {
      ghost var before := fd.Stream();
      n, intr := fd.Read(buf, MAXLINE);
      if n == 0 && before != [] {
        RetriedOne(AtEof, fd.Stream());
      } else if n < 0 {
        RetriedOne(if intr then Interrupted else Failing, fd.Stream());
      }
    }
  }

  /** The reader's buffer between the descriptor and the caller: the fields of Rline, which
      are also the static variables of the library's form. */
  class Rline {
    const fd: Descriptor
    const buf: array<Byte>
    var cnt: int
    var bufptr: nat

    constructor (fd: Descriptor)
      ensures Valid() && this.fd == fd && fresh(buf) && Pending() == fd.Stream()
    {
      this.fd := fd;
      buf := new Byte[MAXLINE](_ => 0);
      cnt, bufptr := 0, 0;
      new;
      assert ItemsOf([]) == [];
    }

    ghost predicate Valid()
      reads this
    {
      buf.Length == MAXLINE && bufptr + Max(cnt, 0) <= MAXLINE
    }

    /** The bytes read ahead, followed by those the kernel still holds. */
    ghost function Pending(): seq<Item>
      requires Valid()
      reads this, buf, fd
    {
      ItemsOf(buf[bufptr..bufptr + Max(cnt, 0)]) + fd.Stream()
    }

    /** The stream as a caller of this reader sees it. */
    ghost function Stream(): seq<Item>
      requires Valid()
      reads this, buf, fd
    {
      Retried(Pending())
    }

    /** Fills the buffer when it is empty. */
    method Refill()
      requires Valid() && cnt <= 0
      modifies this, buf, fd
      ensures Valid()
      ensures cnt > 0 ==> Stream() == old(Stream())
      ensures cnt == 0 ==> (old(Stream()) == [] && Stream() == []) || old(Stream()) == [AtEof] + Stream()
      ensures cnt < 0 ==> old(Stream()) == [Failing] + Stream()
    {
      assert Pending() == fd.Stream();
      var n := ReadRetrying(fd, buf);
      cnt := n;
      if cnt > 0 {
        bufptr := 0;
        assert buf[0..0 + Max(cnt, 0)] == buf[..n];
      } else {
        assert Pending() == fd.Stream();
      }
    }

    /** The next byte, from the buffer whenever that holds one. */
    method MyRead() returns (rc: int, c: Byte)
      requires Valid()
      modifies this, buf, fd
      ensures Valid()
      ensures Got(old(Stream()), rc, c, Stream())
      ensures -1 <= rc <= 1
    {
      if cnt <= 0 {
        Refill();
        if cnt < 0 {
          return -1, 0;
        } else if cnt == 0 {
          return 0, 0;
        }
      }
      c := Pop();
      rc := 1;
    }

    method Pop() returns (c: Byte)
      requires Valid() && cnt > 0
      modifies this
      ensures Valid() && old(Stream()) == [One(c)] + Stream()
    {
      PopItems(buf[..], bufptr, bufptr + cnt, fd.Stream());
      cnt := cnt - 1;
      c := buf[bufptr];
      bufptr := bufptr + 1;
    }

    /** The next byte, stored if there is one. */
    method Fetch(ptr: array<Byte>, k: nat) returns (rc: int, c: Byte)
      requires Valid() && k < ptr.Length && ptr != buf
      modifies this, buf, fd, ptr
      ensures Valid()
      ensures Got(old(Stream()), rc, c, Stream()) && -1 <= rc <= 1
      ensures ptr[..k] == old(ptr[..k]) && (rc == 1 ==> ptr[..k + 1] == old(ptr[..k]) + [c])
    {
      rc, c := MyRead();
      if rc == 1 {
        ghost var after := Stream();
        ptr[k] := c;
        assert Stream() == after;
      }
    }

    /** One turn of the loop, for a line of which `done` has been stored. */
    method LoopTurn(ptr: array<Byte>, k: nat, ghost room: nat, ghost done: seq<Byte>, ghost want: Line)
      returns (rc: int, c: Byte)
      requires Valid() && k < ptr.Length && ptr != buf && room > 0
      requires done == ptr[..k] && want == Behind(done, OneLine(Stream(), room))
      modifies this, buf, fd, ptr
      ensures Valid() && -1 <= rc <= 1
      ensures Turned(want, done, rc, c, Stream(), room)
      ensures if rc == 1 then ptr[..k + 1] == done + [c] else ptr[..k] == done
    {
      ghost var before := Stream();
      rc, c := Fetch(ptr, k);
      LineTurn(done, before, rc, c, Stream(), room);
    }

    /** The loop both forms share: `n` as the source's variable stands when it ends, `at` the
        number of bytes stored. */
    method ReadLoop(ptr: array<Byte>, maxlen: nat, ghost want: Line) returns (n: nat, rc: int, at: nat)
      requires Valid() && 1 <= maxlen <= ptr.Length && ptr != buf
      requires want == OneLine(Stream(), maxlen - 1)
      modifies this, buf, fd, ptr
      ensures Valid() && Stream() == want.rest
      ensures 1 <= n <= maxlen && at < maxlen && ptr[..at] == want.stored && -1 <= rc <= 1
      ensures at == if want.stop.AtNewline? then n else n - 1
      ensures (rc == 0 <==> want.stop.AtEnd?) && (rc < 0 <==> want.stop.Failed?)
    {
      ghost var done: seq<Byte> := [];
      ghost var room: nat := maxlen - 1;
      assert want == Behind(done, want);
      n := 1;
      while n < maxlen
        invariant 1 <= n <= maxlen && Valid() && room == maxlen - n
        invariant done == ptr[..n - 1] && want == Behind(done, OneLine(Stream(), room))
      {
        var c;
        rc, c := LoopTurn(ptr, n - 1, room, done, want);
        if rc != 1 {
          at := n - 1;
          return;
        }
        done := done + [c];
        if c == NEWLINE {
          at := n;
          return;
        }
        n, room := n + 1, room - 1;
      }
      rc, at := 1, n - 1;
      LineFull(done, Stream());
    }

    /** The server's buffered form. */
    method ReadlineR(ptr: array<Byte>, maxlen: nat) returns (ret: int)
      requires Valid() && 1 <= maxlen <= ptr.Length && ptr != buf
      modifies this, buf, fd, ptr
      ensures Valid()
      ensures var l := OneLine(old(Stream()), maxlen - 1);
              && Stream() == l.rest
              && ret == Returned(l)
              && |l.stored| < ptr.Length && ptr[..|l.stored|] == l.stored
              && (ret > 0 ==> ptr[|l.stored|] == 0)
    {
      ghost var want := OneLine(Stream(), maxlen - 1);
      var n, rc, at := ReadLoop(ptr, maxlen, want);
      if rc == 0 && n == 1 {
        return 0;
      } else if rc < 0 {
        return -1;
      }
      ptr[at] := 0;
      return n;
    }

    /** The library's form: it stores the NUL at end-of-file too, and counts bytes there. */
    method Readline(ptr: array<Byte>, maxlen: nat) returns (ret: int)
      requires Valid() && 1 <= maxlen <= ptr.Length && ptr != buf
      modifies this, buf, fd, ptr
      ensures Valid()
      ensures var l := OneLine(old(Stream()), maxlen - 1);
              && Stream() == l.rest
              && ret == LibReturned(l)
              && |l.stored| < ptr.Length && ptr[..|l.stored|] == l.stored
              && (ret >= 0 ==> ptr[|l.stored|] == 0)
    {
      ghost var want := OneLine(Stream(), maxlen - 1);
      var n, rc, at := ReadLoop(ptr, maxlen, want);
      if rc < 0 {
        return -1;
      }
      ptr[at] := 0;
      return if rc == 0 then n - 1 else n;
    }
  }

  // ------------------------------------------------------ the two forms side by side

  datatype Form = ServerForm | LibraryForm

  function Value(l: Line, form: Form): int {
    match form
    case ServerForm => Returned(l)
    case LibraryForm => LibReturned(l)
  }

  /** The caller's buffers and the values returned are those of these lines. */
  ghost predicate Answers(out: seq<(seq<Byte>, int)>, lines: seq<Line>, form: Form) {
    && |out| == |lines|
    && forall i :: 0 <= i < |out| ==> lines[i].stored <= out[i].0 && out[i].1 == Value(lines[i], form)
  }

  lemma AnswersCons(buf: seq<Byte>, ret: int, line: Line, out: seq<(seq<Byte>, int)>, lines: seq<Line>, form: Form)
    requires Answers(out, lines, form) && line.stored <= buf && ret == Value(line, form)
    ensures Answers([(buf, ret)] + out, [line] + lines, form)
  {}

  /** One call, with a buffer of its own. */
  method BufferedCall(r: Rline, size: nat, form: Form, ghost items: seq<Item>) returns (buf: seq<Byte>, ret: int)
    requires r.Valid() && size >= 1 && r.Stream() == items
    modifies r, r.buf, r.fd
    ensures r.Valid()
    ensures var l := OneLine(items, size - 1); r.Stream() == l.rest && l.stored <= buf && ret == Value(l, form)
  {
    var ptr := new Byte[size](_ => 0);
    if form.ServerForm? {
      ret := r.ReadlineR(ptr, size);
    } else {
      ret := r.Readline(ptr, size);
    }
    buf := ptr[..];
    assert ptr[..|OneLine(items, size - 1).stored|] <= buf;
  }

  method PlainCall(fd: Descriptor, size: nat) returns (buf: seq<Byte>, ret: int)
    requires size >= 1
    modifies fd
    ensures var l := OneLine(old(fd.Stream()), size - 1); fd.Stream() == l.rest && l.stored <= buf && ret == Returned(l)
  {
    var ptr := new Byte[size](_ => 0);
    ghost var items := fd.Stream();
    ret := ReadlinePlain(fd, ptr, size);
    buf := ptr[..];
    assert ptr[..|OneLine(items, size - 1).stored|] <= buf;
  }

  /** Any sequence of calls of one of the two buffered forms. */
  method BufferedCalls(r: Rline, sizes: seq<nat>, form: Form, ghost items: seq<Item>)
    returns (out: seq<(seq<Byte>, int)>)
    requires r.Valid() && r.Stream() == items && forall i :: 0 <= i < |sizes| ==> sizes[i] >= 1
    modifies r, r.buf, r.fd
    ensures r.Valid() && r.Stream() == Left(items, sizes)
    ensures Answers(out, Calls(items, sizes), form)
    decreases |sizes|
  {
    if sizes == [] {
      return [];
    }
    ghost var line := OneLine(items, RoomOf(sizes[0]));
    var buf, ret := BufferedCall(r, sizes[0], form, items);
    var rest := BufferedCalls(r, sizes[1..], form, line.rest);
    AnswersCons(buf, ret, line, rest, Calls(line.rest, sizes[1..]), form);
    out := [(buf, ret)] + rest;
  }

  /** Any sequence of calls of the one-byte form. */
  method PlainCalls(fd: Descriptor, sizes: seq<nat>, ghost items: seq<Item>) returns (out: seq<(seq<Byte>, int)>)
    requires fd.Stream() == items && forall i :: 0 <= i < |sizes| ==> sizes[i] >= 1
    modifies fd
    ensures fd.Stream() == Left(items, sizes)
    ensures Answers(out, Calls(items, sizes), ServerForm)
    decreases |sizes|
  {
    if sizes == [] {
      return [];
    }
    ghost var line := OneLine(items, RoomOf(sizes[0]));
    var buf, ret := PlainCall(fd, sizes[0]);
    var rest := PlainCalls(fd, sizes[1..], line.rest);
    AnswersCons(buf, ret, line, rest, Calls(line.rest, sizes[1..]), ServerForm);
    out := [(buf, ret)] + rest;
  }

  /** The two forms, reading the same stream in whatever chunks, store and return the same over
      all calls as long as the one-byte form comes upon no interrupted read. */
  method SideBySide(chunks: seq<Chunk>, single: seq<Chunk>, sizes: seq<nat>)
    returns (buffered: seq<(seq<Byte>, int)>, plain: seq<(seq<Byte>, int)>)
    requires Items(chunks) == Items(single)
    requires forall i :: 0 <= i < |sizes| ==> sizes[i] >= 1
    ensures |buffered| == |plain| == |sizes|
    ensures Answers(plain, Calls(Items(single), sizes), ServerForm)
    ensures Answers(buffered, Calls(Retried(Items(single)), sizes), ServerForm)
    ensures !Meets(Items(single), sizes) ==>
              && Answers(buffered, Calls(Items(single), sizes), ServerForm)
              && forall i :: 0 <= i < |sizes| ==> buffered[i].1 == plain[i].1
  {
    var fd := new Descriptor(chunks);
    var r := new Rline(fd);
    buffered := BufferedCalls(r, sizes, ServerForm, r.Stream());
    var gd := new Descriptor(single);
    plain := PlainCalls(gd, sizes, gd.Stream());
    SameAnswers(Items(single), sizes);
    if !Meets(Items(single), sizes) {
      AgreeAnswers(buffered, Calls(Retried(Items(single)), sizes), Calls(Items(single), sizes));
    }
  }

  lemma AgreeAnswers(out: seq<(seq<Byte>, int)>, a: seq<Line>, b: seq<Line>)
    requires Answers(out, a, ServerForm) && AllAgree(b, a)
    ensures Answers(out, b, ServerForm)
  {}
}
