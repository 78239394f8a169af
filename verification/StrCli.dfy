/**
 The non-blocking client of nonblock/strclinonb.c: one loop copies standard input to a
 socket through the buffer `to` and the socket to standard output through `fr`.

 Each turn of the script says which of the selected descriptors select reports and how the
 reads and writes of that turn come out.  The program with its arrays and pointers is proved
 to do what a relay over sequences does, and the properties of every run are proved for that.
 */
module StrCli {
  import opened Common

  const MAXLINE := 4096

  /** How a read comes out; no bytes at all is end of file. */
  datatype ReadResult = ReadAgain | ReadError | Bytes(b: seq<Byte>)

  /** How a write comes out; `Wrote(k)` accepts up to k bytes. */
  datatype WriteResult = WriteAgain | WriteError | Wrote(k: nat)

  /** The descriptors selected for, or reported ready. */
  datatype Interest = Interest(stdin: bool, sockIn: bool, stdout: bool, sockOut: bool)

  datatype Turn = Turn(ready: Interest, stdin: ReadResult, sock: ReadResult, stdout: WriteResult, sockOut: WriteResult)

  datatype Status = Running | Done | ServerTerminated | SysError

  // ------------------------------------------------------------ a relay

  /** A buffer: where its live bytes begin, and those bytes. */
  datatype Half = Half(pos: nat, live: seq<Byte>)

  datatype Relay = Relay(
    to: Half,
    fr: Half,
    eof: bool,                    // stdineof
    status: Status,
    stdinRead: seq<Byte>,         // history of the four streams
    sockWritten: seq<Byte>,
    sockRead: seq<Byte>,
    stdoutWritten: seq<Byte>,
    fins: nat,                    // history: calls of shutdown
    finAt: nat)                   // history: bytes written before the last one

  const START := Relay(Half(0, []), Half(0, []), false, Running, [], [], [], [], 0, 0)

  /** The room behind the live bytes. */
  function Space(h: Half): int {
    MAXLINE - h.pos - |h.live|
  }

  /** What a read of at most `count` bytes delivers.  A read for nothing would return 0 and
      look like end of file, so it is excluded. */
  function Delivered(b: seq<Byte>, count: int): (d: seq<Byte>)
    requires count > 0
    ensures |d| <= count && d <= b && (d == [] <==> b == [])
  {
    if |b| <= count then b else b[..count]
  }

  function Filled(h: Half, d: seq<Byte>): Half {
    Half(h.pos, h.live + d)
  }

  /** A write of `n` bytes; an empty buffer is used from its beginning again. */
  function Drained(h: Half, n: nat): Half
    requires n <= |h.live|
  {
    if n == |h.live| then Half(0, []) else Half(h.pos + n, h.live[n..])
  }

  /** The descriptor sets handed to select. */
  function Selected(s: Relay): Interest {
    Interest(!s.eof && Space(s.to) > 0, Space(s.fr) > 0, s.fr.live != [], s.to.live != [])
  }

  /** FIN, when input is over and written. */
  function Shut(s: Relay): Relay {
    if s.eof && s.to.live == [] then s.(fins := s.fins + 1, finAt := |s.sockWritten|) else s
  }

  function AfterStdin(s: Relay, r: ReadResult): Relay
    requires Space(s.to) > 0
  {
    match r
    case ReadAgain => s
    case ReadError => s.(status := SysError)
    case Bytes(b) =>
      var d := Delivered(b, Space(s.to));
      if d == [] then Shut(s.(eof := true))
      else s.(to := Filled(s.to, d), stdinRead := s.stdinRead + d)
  }

  /** At end of file on the socket the loop is left at once. */
  function AfterSocket(s: Relay, r: ReadResult): Relay
    requires Space(s.fr) > 0
  {
    match r
    case ReadAgain => s
    case ReadError => s.(status := SysError)
    case Bytes(b) =>
      var d := Delivered(b, Space(s.fr));
      if d == [] then s.(status := if s.eof then Done else ServerTerminated)
      else s.(fr := Filled(s.fr, d), sockRead := s.sockRead + d)
  }

  function AfterStdout(s: Relay, w: WriteResult): Relay {
    match w
    case WriteAgain => s
    case WriteError => s.(status := SysError)
    case Wrote(k) =>
      var n := Min(k, |s.fr.live|);
      s.(fr := Drained(s.fr, n), stdoutWritten := s.stdoutWritten + s.fr.live[..n])
  }

  function AfterSend(s: Relay, w: WriteResult): Relay {
    match w
    case WriteAgain => s
    case WriteError => s.(status := SysError)
    case Wrote(k) =>
      var n := Min(k, |s.to.live|);
      Shut(s.(to := Drained(s.to, n), sockWritten := s.sockWritten + s.to.live[..n]))
  }

  function StdinPart(s: Relay, t: Turn): Relay {
    if t.ready.stdin && Selected(s).stdin then AfterStdin(s, t.stdin) else s
  }

  function SocketPart(s: Relay, t: Turn): Relay {
    if s.status.Running? && t.ready.sockIn && Space(s.fr) > 0 then AfterSocket(s, t.sock) else s
  }

  function StdoutPart(s: Relay, try: bool, t: Turn): Relay {
    if s.status.Running? && try && s.fr.live != [] then AfterStdout(s, t.stdout) else s
  }

  function SendPart(s: Relay, try: bool, t: Turn): Relay {
    if s.status.Running? && try && s.to.live != [] then AfterSend(s, t.sockOut) else s
  }

  /** The turn reads some bytes from standard input, or from the socket. */
  predicate GetsInput(s: Relay, t: Turn) {
    t.ready.stdin && Selected(s).stdin && t.stdin.Bytes? && t.stdin.b != []
  }

  predicate GetsReply(a: Relay, t: Turn) {
    a.status.Running? && t.ready.sockIn && Space(a.fr) > 0 && t.sock.Bytes? && t.sock.b != []
  }

  /** What has just been read is tried to be written at once. */
  predicate OutDue(s: Relay, t: Turn) {
    (t.ready.stdout && s.fr.live != []) || GetsReply(StdinPart(s, t), t)
  }

  predicate SendDue(s: Relay, t: Turn) {
    (t.ready.sockOut && s.to.live != []) || GetsInput(s, t)
  }

  /** What a turn has come to after its reads, and before the write to the socket. */
  function AfterReads(s: Relay, t: Turn): Relay {
    SocketPart(StdinPart(s, t), t)
  }

  function BeforeSend(s: Relay, t: Turn): Relay {
    StdoutPart(AfterReads(s, t), OutDue(s, t), t)
  }

  /** One turn. */
  function Turned(s: Relay, t: Turn): Relay {
    SendPart(BeforeSend(s, t), SendDue(s, t), t)
  }

  function Turns(s: Relay, ts: seq<Turn>): Relay
    decreases |ts|
  {
    if !s.status.Running? || ts == [] then s else Turns(Turned(s, ts[0]), ts[1..])
  }

  // ------------------------------------------------------------ what every run keeps

  /** An empty buffer is rewound, so a full one has something left to write. */
  predicate Fits(h: Half) {
    h.pos + |h.live| <= MAXLINE && (h.live == [] ==> h.pos == 0)
  }

  /** Nothing is lost or reordered in either direction; FIN has been sent, once, exactly when
      input is over and written, and nothing follows it. */
  ghost predicate Sound(s: Relay) {
    && Fits(s.to) && Fits(s.fr)
    && s.stdinRead == s.sockWritten + s.to.live
    && s.sockRead == s.stdoutWritten + s.fr.live
    && s.fins == (if s.eof && s.to.live == [] then 1 else 0)
    && (s.fins == 1 ==> s.finAt == |s.sockWritten|)
    && (s.status.Done? ==> s.eof) && (s.status.ServerTerminated? ==> !s.eof)
  }

  /** The streams only grow; after end of file no input comes, and after FIN no output. */
  ghost predicate Follows(s: Relay, r: Relay) {
    && s.stdinRead <= r.stdinRead && s.sockWritten <= r.sockWritten
    && s.sockRead <= r.sockRead && s.stdoutWritten <= r.stdoutWritten
    && (s.eof ==> r.eof && r.stdinRead == s.stdinRead)
    && (s.fins == 1 ==> r.fins == 1 && r.sockWritten == s.sockWritten)
  }

  /** select always waits for something: a direction whose buffer cannot be read into can
      be written from. */
  lemma SelectNeverEmpty(s: Relay)
    requires Sound(s)
    ensures Selected(s).sockIn || Selected(s).stdout
    ensures !s.eof ==> Selected(s).stdin || Selected(s).sockOut
  {}

  lemma Behind(a: seq<Byte>, b: seq<Byte>, c: seq<Byte>)
    ensures a + b + c == a + (b + c)
  {}

  lemma Front(a: seq<Byte>, live: seq<Byte>, n: nat)
    requires n <= |live|
    ensures a + live[..n] + live[n..] == a + live
  {}

  lemma StdinKeeps(s: Relay, t: Turn)
    requires Sound(s) && s.status.Running?
    ensures Sound(StdinPart(s, t)) && Follows(s, StdinPart(s, t))
  {
    if t.ready.stdin && Selected(s).stdin && t.stdin.Bytes? {
      Behind(s.sockWritten, s.to.live, Delivered(t.stdin.b, Space(s.to)));
    }
  }

  lemma SocketKeeps(s: Relay, t: Turn)
    requires Sound(s)
    ensures Sound(SocketPart(s, t)) && Follows(s, SocketPart(s, t))
  {
    if Space(s.fr) > 0 && t.sock.Bytes? {
      Behind(s.stdoutWritten, s.fr.live, Delivered(t.sock.b, Space(s.fr)));
    }
  }

  lemma StdoutKeeps(s: Relay, try: bool, t: Turn)
    requires Sound(s)
    ensures Sound(StdoutPart(s, try, t)) && Follows(s, StdoutPart(s, try, t))
  {
    if t.stdout.Wrote? {
      Front(s.stdoutWritten, s.fr.live, Min(t.stdout.k, |s.fr.live|));
    }
  }

  lemma SendKeeps(s: Relay, try: bool, t: Turn)
    requires Sound(s)
    ensures Sound(SendPart(s, try, t)) && Follows(s, SendPart(s, try, t))
  {
    if t.sockOut.Wrote? {
      Front(s.sockWritten, s.to.live, Min(t.sockOut.k, |s.to.live|));
    }
  }

  lemma FollowsOn(s: Relay, r: Relay, q: Relay)
    requires Follows(s, r) && Follows(r, q)
    ensures Follows(s, q)
  {}

  lemma TurnedKeeps(s: Relay, t: Turn)
    requires Sound(s) && s.status.Running?
    ensures Sound(Turned(s, t)) && Follows(s, Turned(s, t))
  {
    var a := StdinPart(s, t);
    var b := SocketPart(a, t);
    var out, send := OutDue(s, t), SendDue(s, t);
    var c := StdoutPart(b, out, t);
    StdinKeeps(s, t);
    SocketKeeps(a, t);
    FollowsOn(s, a, b);
    StdoutKeeps(b, out, t);
    FollowsOn(s, b, c);
    SendKeeps(c, send, t);
    FollowsOn(s, c, SendPart(c, send, t));
  }

  /** Any run.  It returns normally only after the end of input. */
  lemma {:induction false} AnyRun(s: Relay, ts: seq<Turn>)
    requires Sound(s)
    ensures Sound(Turns(s, ts)) && Follows(s, Turns(s, ts))
    decreases |ts|
  {
    if s.status.Running? && ts != [] {
      TurnedKeeps(s, ts[0]);
      AnyRun(Turned(s, ts[0]), ts[1..]);
      FollowsOn(s, Turned(s, ts[0]), Turns(s, ts));
    }
  }

  // ------------------------------------------------------ one turn, call by call

  /** The bytes that a read for `room` bytes takes, and those that a write of `live` takes. */
  function Got(tried: bool, r: ReadResult, room: int): seq<Byte> {
    if tried && r.Bytes? && room > 0 then r.b[..Min(|r.b|, room)] else []
  }

  function Put(tried: bool, w: WriteResult, live: seq<Byte>): seq<Byte> {
    if tried && w.Wrote? then live[..Min(w.k, |live|)] else []
  }

  /** Which of the four calls a turn makes, from what select reports and the calls before. */
  datatype Tries = Tries(stdin: bool, sock: bool, stdout: bool, send: bool)

  function TriesOf(s: Relay, t: Turn): Tries {
    var stdin := t.ready.stdin && !s.eof && s.to.pos + |s.to.live| < 4096;
    var sock := !(stdin && t.stdin.ReadError?) && t.ready.sockIn && s.fr.pos + |s.fr.live| < 4096;
    var over := (stdin && t.stdin.ReadError?) || (sock && (t.sock.ReadError? || t.sock == Bytes([])));
    var stdout := !over && ((t.ready.stdout && s.fr.live != []) || (sock && t.sock.Bytes?));
    var send := !over && !(stdout && t.stdout.WriteError?)
                && ((t.ready.sockOut && s.to.live != []) || (stdin && t.stdin.Bytes? && t.stdin.b != []));
    Tries(stdin, sock, stdout, send)
  }

  /** One turn without its parts: the four streams, the end of input and how the turn ends. */
  ghost predicate TurnIs(s: Relay, t: Turn, r: Relay) {
    var tries := TriesOf(s, t);
    var input := Got(tries.stdin, t.stdin, 4096 - s.to.pos - |s.to.live|);
    var reply := Got(tries.sock, t.sock, 4096 - s.fr.pos - |s.fr.live|);
    && r.stdinRead == s.stdinRead + input
    && r.sockRead == s.sockRead + reply
    && r.stdoutWritten == s.stdoutWritten + Put(tries.stdout, t.stdout, s.fr.live + reply)
    && r.sockWritten == s.sockWritten + Put(tries.send, t.sockOut, s.to.live + input)
    && (r.eof <==> s.eof || (tries.stdin && t.stdin == Bytes([])))
    && r.status == (if (tries.stdin && t.stdin.ReadError?) || (tries.sock && t.sock.ReadError?) then SysError
                    else if tries.sock && t.sock == Bytes([]) then (if r.eof then Done else ServerTerminated)
                    else if tries.stdout && t.stdout.WriteError? then SysError
                    else if tries.send && t.sockOut.WriteError? then SysError
                    else Running)
  }

  lemma StdinIs(s: Relay, t: Turn)
    requires Sound(s) && s.status.Running?
    ensures var a, tries := StdinPart(s, t), TriesOf(s, t);
            var input := Got(tries.stdin, t.stdin, 4096 - s.to.pos - |s.to.live|);
            && a.stdinRead == s.stdinRead + input && a.to.live == s.to.live + input
            && a.fr == s.fr && a.sockRead == s.sockRead && a.sockWritten == s.sockWritten
            && a.stdoutWritten == s.stdoutWritten
            && (a.eof <==> s.eof || (tries.stdin && t.stdin == Bytes([])))
            && a.status == (if tries.stdin && t.stdin.ReadError? then SysError else Running)
            && (GetsInput(s, t) <==> tries.stdin && t.stdin.Bytes? && t.stdin.b != [])
  {}

  lemma SocketIs(s: Relay, t: Turn)
    requires Sound(s) && s.status.Running?
    ensures var a, b, tries := StdinPart(s, t), AfterReads(s, t), TriesOf(s, t);
            var reply := Got(tries.sock, t.sock, 4096 - s.fr.pos - |s.fr.live|);
            && b.sockRead == s.sockRead + reply && b.fr.live == s.fr.live + reply
            && b.to == a.to && b.stdinRead == a.stdinRead && b.sockWritten == a.sockWritten
            && b.stdoutWritten == a.stdoutWritten && b.eof == a.eof
            && b.status == (if !a.status.Running? then a.status
                            else if tries.sock && t.sock.ReadError? then SysError
                            else if tries.sock && t.sock == Bytes([]) then (if a.eof then Done else ServerTerminated)
                            else Running)
            && (GetsReply(a, t) <==> tries.sock && t.sock.Bytes? && t.sock.b != [])
  {
    StdinIs(s, t);
  }

  lemma StdoutIs(b: Relay, try: bool, t: Turn)
    ensures var c := StdoutPart(b, try, t);
            var tried := b.status.Running? && try && b.fr.live != [];
            && c.stdoutWritten == b.stdoutWritten + Put(tried, t.stdout, b.fr.live)
            && c.to == b.to && c.stdinRead == b.stdinRead && c.sockRead == b.sockRead
            && c.sockWritten == b.sockWritten && c.eof == b.eof
            && c.status == (if tried && t.stdout.WriteError? then SysError else b.status)
  {}

  lemma SendIs(c: Relay, try: bool, t: Turn)
    ensures var r := SendPart(c, try, t);
            var tried := c.status.Running? && try && c.to.live != [];
            && r.sockWritten == c.sockWritten + Put(tried, t.sockOut, c.to.live)
            && r.stdinRead == c.stdinRead && r.sockRead == c.sockRead
            && r.stdoutWritten == c.stdoutWritten && r.eof == c.eof
            && r.status == (if tried && t.sockOut.WriteError? then SysError else c.status)
  {}

  /** What a turn does is fixed by what select reports and how the calls come out. */
  lemma TurnExactly(s: Relay, t: Turn)
    requires Sound(s) && s.status.Running?
    ensures TurnIs(s, t, Turned(s, t))
  {
    StdinIs(s, t);
    SocketIs(s, t);
    StdoutIs(AfterReads(s, t), OutDue(s, t), t);
    SendIs(BeforeSend(s, t), SendDue(s, t), t);
    TriesAre(s, t);
  }

  lemma TriesAre(s: Relay, t: Turn)
    requires Sound(s) && s.status.Running?
    ensures var tries := TriesOf(s, t);
            && (tries.stdout <==> AfterReads(s, t).status.Running? && OutDue(s, t) && AfterReads(s, t).fr.live != [])
            && (tries.send <==> BeforeSend(s, t).status.Running? && SendDue(s, t) && BeforeSend(s, t).to.live != [])
  {
    StdinIs(s, t);
    SocketIs(s, t);
    StdoutIs(AfterReads(s, t), OutDue(s, t), t);
  }

  /** Every attempted read and write of the turn succeeds. */
  predicate Smooth(t: Turn) {
    && t.stdin.Bytes? && t.sock.Bytes?
    && t.stdout.Wrote? && t.stdout.k > 0 && t.sockOut.Wrote? && t.sockOut.k > 0
  }

  /** select has something to report. */
  predicate Reported(s: Relay, t: Turn) {
    || (t.ready.stdin && Selected(s).stdin) || (t.ready.sockIn && Selected(s).sockIn)
    || (t.ready.stdout && Selected(s).stdout) || (t.ready.sockOut && Selected(s).sockOut)
  }

  function Traffic(s: Relay): nat {
    |s.stdinRead| + |s.sockWritten| + |s.sockRead| + |s.stdoutWritten|
  }

  lemma LessTraffic(s: Relay, r: Relay)
    requires Follows(s, r)
    ensures Traffic(s) <= Traffic(r)
    ensures s.stdinRead != r.stdinRead || s.sockWritten != r.sockWritten ==> Traffic(s) < Traffic(r)
    ensures s.sockRead != r.sockRead || s.stdoutWritten != r.stdoutWritten ==> Traffic(s) < Traffic(r)
  {}

  lemma StdinMoves(s: Relay, t: Turn)
    requires Sound(s) && s.status.Running? && Smooth(t) && t.ready.stdin && Selected(s).stdin
    ensures StdinPart(s, t).eof || StdinPart(s, t).stdinRead != s.stdinRead
  {
    assert t.stdin.b != [] ==> |Delivered(t.stdin.b, Space(s.to))| > 0;
  }

  lemma SocketMoves(s: Relay, t: Turn)
    requires Sound(s) && s.status.Running? && Smooth(t) && t.ready.sockIn && Space(s.fr) > 0
    ensures !SocketPart(s, t).status.Running? || SocketPart(s, t).sockRead != s.sockRead
  {
    assert t.sock.b != [] ==> |Delivered(t.sock.b, Space(s.fr))| > 0;
  }

  lemma WriteMoves(s: Relay, t: Turn)
    requires Sound(s) && s.status.Running? && Smooth(t)
    ensures s.fr.live != [] ==> StdoutPart(s, true, t).stdoutWritten != s.stdoutWritten
    ensures s.to.live != [] ==> SendPart(s, true, t).sockWritten != s.sockWritten
  {
    assert s.fr.live != [] ==> |s.fr.live[..Min(t.stdout.k, |s.fr.live|)]| > 0;
    assert s.to.live != [] ==> |s.to.live[..Min(t.sockOut.k, |s.to.live|)]| > 0;
  }

  lemma PartsFollow(s: Relay, t: Turn, out: bool, send: bool)
    requires Sound(s) && s.status.Running?
    ensures var a := StdinPart(s, t);
            var b := SocketPart(a, t);
            var c := StdoutPart(b, out, t);
            var r := SendPart(c, send, t);
            && Sound(a) && Sound(b) && Sound(c)
            && Traffic(s) <= Traffic(a) <= Traffic(b) <= Traffic(c) <= Traffic(r)
            && (a.stdinRead != s.stdinRead ==> Traffic(s) < Traffic(a))
            && (b.sockRead != a.sockRead ==> Traffic(a) < Traffic(b))
            && (c.stdoutWritten != b.stdoutWritten ==> Traffic(b) < Traffic(c))
            && (r.sockWritten != c.sockWritten ==> Traffic(c) < Traffic(r))
            && (s.eof || a.eof ==> r.eof)
  {
    var a := StdinPart(s, t);
    var b := SocketPart(a, t);
    var c := StdoutPart(b, out, t);
    StdinKeeps(s, t);
    SocketKeeps(a, t);
    StdoutKeeps(b, out, t);
    SendKeeps(c, send, t);
    LessTraffic(s, a);
    LessTraffic(a, b);
    LessTraffic(b, c);
    LessTraffic(c, SendPart(c, send, t));
  }

  /** A turn whose system calls succeed moves a byte or meets an end of file. */
  lemma TurnMoves(s: Relay, t: Turn)
    requires Sound(s) && s.status.Running? && Smooth(t) && Reported(s, t)
    ensures var r := Turned(s, t);
            Traffic(s) < Traffic(r) || (r.eof && !s.eof) || !r.status.Running?
  {
    var a := StdinPart(s, t);
    var b := SocketPart(a, t);
    var out, send := OutDue(s, t), SendDue(s, t);
    var c := StdoutPart(b, out, t);
    PartsFollow(s, t, out, send);
    if t.ready.stdin && Selected(s).stdin {
      StdinMoves(s, t);
    } else if a.status.Running? && t.ready.sockIn && Selected(s).sockIn {
      SocketMoves(a, t);
    } else if b.status.Running? && t.ready.stdout && s.fr.live != [] {
      WriteMoves(b, t);
    } else if c.status.Running? && t.ready.sockOut && s.to.live != [] {
      WriteMoves(c, t);
    }
  }

  /** End of file on the socket ends the loop at once, so what standard output did not accept
      before is never written: input ends, one byte comes and is not accepted, the server closes. */
  lemma LeftBehind(t: Turn, u: Turn)
    requires t == Turn(Interest(true, true, false, false), Bytes([]), Bytes([65]), WriteAgain, WriteAgain)
    requires u == Turn(Interest(false, true, false, false), Bytes([]), Bytes([]), WriteAgain, WriteAgain)
    ensures var r := Turns(START, [t, u]); r.status.Done? && r.sockRead == [65] && r.stdoutWritten == []
  {
    var s := Turned(START, t);
    assert StdinPart(START, t) == Shut(START.(eof := true));
    assert s.fr.live == s.sockRead == [65] && s.eof && s.status.Running?;
    assert Turned(s, u).status.Done?;
    assert [t, u][1..] == [u] && [u][1..] == [];
    assert Turns(s, [u]) == Turns(Turned(s, u), []);
  }

  /** A turn comes to the write to standard output with something to write. */
  predicate TriesOut(s: Relay, t: Turn) {
    AfterReads(s, t).status.Running? && AfterReads(s, t).fr.live != [] && OutDue(s, t)
  }

  /** That write accepts everything it is offered. */
  predicate TakesAllOut(s: Relay, t: Turn) {
    t.stdout.Wrote? && t.stdout.k >= |AfterReads(s, t).fr.live|
  }

  /** Whether the last write to standard output that the run has tried took everything. */
  predicate LastOutTookAll(s: Relay, ts: seq<Turn>, last: bool)
    decreases |ts|
  {
    if !s.status.Running? || ts == [] then last
    else LastOutTookAll(Turned(s, ts[0]), ts[1..], if TriesOut(s, ts[0]) then TakesAllOut(s, ts[0]) else last)
  }

  predicate TriesSend(s: Relay, t: Turn) {
    BeforeSend(s, t).status.Running? && BeforeSend(s, t).to.live != [] && SendDue(s, t)
  }

  predicate TakesAllSend(s: Relay, t: Turn) {
    t.sockOut.Wrote? && t.sockOut.k >= |BeforeSend(s, t).to.live|
  }

  /** Whether the last write to the socket that the run has tried took everything and no input
      came in a turn that ended before its write. */
  predicate LastSendTookAll(s: Relay, ts: seq<Turn>, last: bool)
    decreases |ts|
  {
    if !s.status.Running? || ts == [] then last
    else
      LastSendTookAll(Turned(s, ts[0]), ts[1..],
                      if TriesSend(s, ts[0]) then TakesAllSend(s, ts[0]) else last && !GetsInput(s, ts[0]))
  }

  lemma DrainedAll(h: Half, n: nat)
    requires n <= |h.live|
    ensures Drained(h, n).live == [] <==> n == |h.live|
  {
    assert n < |h.live| ==> |h.live[n..]| > 0;
  }

  /** What the four parts of a turn do to the two buffers. */
  lemma StdinFills(s: Relay, t: Turn)
    requires s.status.Running?
    ensures StdinPart(s, t).fr == s.fr
    ensures if GetsInput(s, t) then StdinPart(s, t).to.live != [] else StdinPart(s, t).to == s.to
  {}

  lemma SocketFills(a: Relay, t: Turn)
    ensures SocketPart(a, t).to == a.to
    ensures if GetsReply(a, t) then SocketPart(a, t).status.Running? && SocketPart(a, t).fr.live != []
            else SocketPart(a, t).fr == a.fr
  {}

  lemma StdoutDrains(b: Relay, try: bool, t: Turn)
    ensures StdoutPart(b, try, t).to == b.to
    ensures StdoutPart(b, try, t).fr.live == [] <==>
              if b.status.Running? && try && b.fr.live != [] then t.stdout.Wrote? && t.stdout.k >= |b.fr.live|
              else b.fr.live == []
  {
    if t.stdout.Wrote? {
      DrainedAll(b.fr, Min(t.stdout.k, |b.fr.live|));
    }
  }

  lemma SendDrains(c: Relay, try: bool, t: Turn)
    ensures SendPart(c, try, t).fr == c.fr
    ensures SendPart(c, try, t).to.live == [] <==>
              if c.status.Running? && try && c.to.live != [] then t.sockOut.Wrote? && t.sockOut.k >= |c.to.live|
              else c.to.live == []
  {
    if t.sockOut.Wrote? {
      DrainedAll(c.to, Min(t.sockOut.k, |c.to.live|));
    }
  }

  lemma OutOfOneTurn(s: Relay, t: Turn)
    requires s.status.Running?
    ensures Turned(s, t).fr.live == [] <==> if TriesOut(s, t) then TakesAllOut(s, t) else s.fr.live == []
  {
    StdinFills(s, t);
    SocketFills(StdinPart(s, t), t);
    StdoutDrains(AfterReads(s, t), OutDue(s, t), t);
    SendDrains(BeforeSend(s, t), SendDue(s, t), t);
  }

  lemma SendOfOneTurn(s: Relay, t: Turn)
    requires s.status.Running?
    ensures Turned(s, t).to.live == [] <==>
              if TriesSend(s, t) then TakesAllSend(s, t) else s.to.live == [] && !GetsInput(s, t)
  {
    StdinFills(s, t);
    SocketFills(StdinPart(s, t), t);
    StdoutDrains(AfterReads(s, t), OutDue(s, t), t);
    SendDrains(BeforeSend(s, t), SendDue(s, t), t);
  }

  lemma {:induction false} OutOfAnyRun(s: Relay, ts: seq<Turn>, last: bool)
    requires last <==> s.fr.live == []
    ensures LastOutTookAll(s, ts, last) <==> Turns(s, ts).fr.live == []
    decreases |ts|
  {
    if s.status.Running? && ts != [] {
      OutOfOneTurn(s, ts[0]);
      OutOfAnyRun(Turned(s, ts[0]), ts[1..], if TriesOut(s, ts[0]) then TakesAllOut(s, ts[0]) else last);
    }
  }

  lemma {:induction false} SendOfAnyRun(s: Relay, ts: seq<Turn>, last: bool)
    requires last <==> s.to.live == []
    ensures LastSendTookAll(s, ts, last) <==> Turns(s, ts).to.live == []
    decreases |ts|
  {
    if s.status.Running? && ts != [] {
      var next := if TriesSend(s, ts[0]) then TakesAllSend(s, ts[0]) else last && !GetsInput(s, ts[0]);
      SendOfOneTurn(s, ts[0]);
      SendOfAnyRun(Turned(s, ts[0]), ts[1..], next);
    }
  }

  lemma AllWritten(read: seq<Byte>, written: seq<Byte>, live: seq<Byte>)
    requires read == written + live
    ensures written == read <==> live == []
  {
    assert |read| == |written| + |live|;
    assert written + [] == written;
  }

  /** Everything read has been written on, in each direction, if and only if no write was tried
      or the last one took everything, and no input came in a turn that ended before its write. */
  lemma NothingLeftBehind(ts: seq<Turn>)
    ensures var r := Turns(START, ts); r.stdoutWritten == r.sockRead <==> LastOutTookAll(START, ts, true)
    ensures var r := Turns(START, ts); r.sockWritten == r.stdinRead <==> LastSendTookAll(START, ts, true)
  {
    var r := Turns(START, ts);
    AnyRun(START, ts);
    OutOfAnyRun(START, ts, true);
    SendOfAnyRun(START, ts, true);
    AllWritten(r.sockRead, r.stdoutWritten, r.fr.live);
    AllWritten(r.stdinRead, r.sockWritten, r.to.live);
  }

  // ------------------------------------------------------------ the program

  /** Copies what a read delivered behind the live part of a buffer. */
  method Fill(buf: array<Byte>, at: nat, d: seq<Byte>)
    requires at + |d| <= buf.Length
    modifies buf
    ensures buf[..at] == old(buf[..at]) && buf[at..at + |d|] == d
  {
    for k := 0 to |d|
      invariant buf[..at] == old(buf[..at]) && buf[at..at + k] == d[..k]
    {
      buf[at + k] := d[k];
    }
  }

  lemma Longer(was: seq<Byte>, now: seq<Byte>, lo: nat, at: nat, d: seq<Byte>)
    requires lo <= at && at + |d| <= |was| == |now|
    requires now[..at] == was[..at] && now[at..at + |d|] == d
    ensures now[lo..at + |d|] == was[lo..at] + d
  {
    assert now[lo..at] == now[..at][lo..] == was[lo..at];
    assert now[lo..at + |d|] == now[lo..at] + now[at..at + |d|];
  }

  lemma Shorter(buf: seq<Byte>, lo: nat, hi: nat, n: nat)
    requires lo + n <= hi <= |buf|
    ensures buf[lo..hi][..n] == buf[lo..lo + n] && buf[lo..hi][n..] == buf[lo + n..hi]
  {}

  class Client {
    const to: array<Byte>
    const fr: array<Byte>
    var toi: nat
    var too: nat
    var fri: nat
    var fro: nat
    var stdineof: bool
    var status: Status
    ghost var stdinRead: seq<Byte>      // history, as in Relay
    ghost var sockWritten: seq<Byte>
    ghost var sockRead: seq<Byte>
    ghost var stdoutWritten: seq<Byte>
    ghost var fins: nat
    ghost var finAt: nat

    constructor ()
      ensures Valid() && View() == START
      ensures fresh(to) && fresh(fr)
    {
      to, fr := new Byte[MAXLINE](_ => 0), new Byte[MAXLINE](_ => 0);
      toi, too, fri, fro, stdineof, status := 0, 0, 0, 0, false, Running;
      stdinRead, sockWritten, sockRead, stdoutWritten, fins, finAt := [], [], [], [], 0, 0;
    }

    ghost predicate Valid()
      reads this
    {
      && to.Length == fr.Length == MAXLINE && to != fr
      && too <= toi <= MAXLINE && fro <= fri <= MAXLINE
    }

    /** The relay that the arrays and pointers stand for. */
    ghost function View(): Relay
      requires Valid()
      reads this, to, fr
    {
      Relay(Half(too, to[too..toi]), Half(fro, fr[fro..fri]), stdineof, status,
            stdinRead, sockWritten, sockRead, stdoutWritten, fins, finAt)
    }

    /** The read from standard input. */
    method ReadStdin(r: ReadResult)
      requires Valid() && toi < MAXLINE
      modifies to, this`toi, this`stdineof, this`status, this`stdinRead, this`fins, this`finAt
      ensures Valid() && View() == AfterStdin(old(View()), r)
      ensures toi > old(toi) <==> r.Bytes? && r.b != []
    {
      if r.ReadError? {
        status := SysError;
      } else if r.Bytes? {
        var n := Delivered(r.b, MAXLINE - toi);
        if n == [] {
          stdineof := true;
          if too == toi {
            fins, finAt := fins + 1, |sockWritten|;
          }
        } else {
          Keep(n);
        }
      }
    }

    /** Bytes from standard input join the live part of `to`. */
    method Keep(n: seq<Byte>)
      requires Valid() && toi + |n| <= MAXLINE
      modifies to, this`toi, this`stdinRead
      ensures Valid()
      ensures View() == var s := old(View()); s.(to := Filled(s.to, n), stdinRead := s.stdinRead + n)
      ensures toi == old(toi) + |n|
    {
      ghost var was := to[..];
      Fill(to, toi, n);
      Longer(was, to[..], too, toi, n);
      stdinRead := stdinRead + n;
      toi := toi + |n|;
    }

    /** The read from the socket. */
    method ReadSocket(r: ReadResult)
      requires Valid() && fri < MAXLINE
      modifies fr, this`fri, this`status, this`sockRead
      ensures Valid() && View() == AfterSocket(old(View()), r)
      ensures fri > old(fri) <==> r.Bytes? && r.b != []
    {
      if r.ReadError? {
        status := SysError;
      } else if r.Bytes? {
        var n := Delivered(r.b, MAXLINE - fri);
        if n == [] {
          status := if stdineof then Done else ServerTerminated;
        } else {
          ghost var was := fr[..];
          Fill(fr, fri, n);
          Longer(was, fr[..], fro, fri, n);
          sockRead := sockRead + n;
          fri := fri + |n|;
        }
      }
    }

    /** Standard output has taken `n` bytes. */
    method Printed(n: nat)
      requires Valid() && n <= fri - fro
      modifies this`fro, this`fri, this`stdoutWritten
      ensures Valid()
      ensures View() == var s := old(View());
                        s.(fr := Drained(s.fr, n), stdoutWritten := s.stdoutWritten + s.fr.live[..n])
    {
      Shorter(fr[..], fro, fri, n);
      stdoutWritten := stdoutWritten + fr[fro..fro + n];
      fro := fro + n;
      if fro == fri {
        fro, fri := 0, 0;
      }
    }

    /** The write to standard output. */
    method WriteStdout(w: WriteResult)
      requires Valid() && fro < fri
      modifies this`fro, this`fri, this`status, this`stdoutWritten
      ensures Valid() && View() == AfterStdout(old(View()), w)
    {
      if w.WriteError? {
        status := SysError;
      } else if w.Wrote? {
        Printed(Min(w.k, fri - fro));
      }
    }

    /** The socket has taken `n` bytes; FIN goes after the last one. */
    method Sent(n: nat)
      requires Valid() && too < toi && n <= toi - too
      modifies this`too, this`toi, this`sockWritten, this`fins, this`finAt
      ensures Valid()
      ensures View() == var s := old(View());
                        Shut(s.(to := Drained(s.to, n), sockWritten := s.sockWritten + s.to.live[..n]))
    {
      Shorter(to[..], too, toi, n);
      sockWritten := sockWritten + to[too..too + n];
      too := too + n;
      if too == toi {
        too, toi := 0, 0;
        if stdineof {
          fins, finAt := fins + 1, |sockWritten|;
        }
      }
    }

    /** The write to the socket. */
    method WriteSocket(w: WriteResult)
      requires Valid() && too < toi
      modifies this`too, this`toi, this`status, this`sockWritten, this`fins, this`finAt
      ensures Valid() && View() == AfterSend(old(View()), w)
    {
      if w.WriteError? {
        status := SysError;
      } else if w.Wrote? {
        Sent(Min(w.k, toi - too));
      }
    }

    /** The half of a turn that reads: standard input first, then the socket. */
    method Reads(t: Turn) returns (fromStdin: bool, fromSock: bool)
      requires Valid() && status == Running
      modifies this, to, fr
      ensures Valid() && View() == AfterReads(old(View()), t)
      ensures fromStdin <==> GetsInput(old(View()), t)
      ensures fromSock <==> GetsReply(StdinPart(old(View()), t), t)
    {
      var was, had := toi, fri;
      if t.ready.stdin && !stdineof && toi < MAXLINE {
        ReadStdin(t.stdin);
      }
      fromStdin := toi > was;
      if status == Running && t.ready.sockIn && fri < MAXLINE {
        ReadSocket(t.sock);
      }
      fromSock := fri > had;
    }

    /** The half that writes; `out` and `send` say for which descriptor it is tried. */
    method Writes(out: bool, send: bool, t: Turn)
      requires Valid()
      modifies this, to, fr
      ensures Valid() && View() == SendPart(StdoutPart(old(View()), out, t), send, t)
    {
      if status == Running && out && fri > fro {
        WriteStdout(t.stdout);
      }
      if status == Running && send && toi > too {
        WriteSocket(t.sockOut);
      }
    }

    /** One turn of the loop. */
    method Once(t: Turn)
      requires Valid() && status == Running
      modifies this, to, fr
      ensures Valid() && View() == Turned(old(View()), t)
    {
      var wstdout := t.ready.stdout && fro != fri;
      var wsock := t.ready.sockOut && too != toi;
      var fromStdin, fromSock := Reads(t);
      Writes(wstdout || fromSock, wsock || fromStdin, t);
    }

    /** str_cli. */
    method Run(ts: seq<Turn>)
      requires Valid() && View() == START
      modifies this, to, fr
      ensures Valid() && View() == Turns(START, ts) && Sound(View())
      ensures status == Done ==> stdineof && (too == toi ==> sockWritten == stdinRead && fins == 1)
      ensures status == ServerTerminated ==> !stdineof && fins == 0
      ensures fins == 1 ==> sockWritten == stdinRead
    {
      AnyRun(START, ts);
      var i := 0;
      while i < |ts| && status == Running
        invariant 0 <= i <= |ts| && Valid()
        invariant Turns(View(), ts[i..]) == Turns(START, ts)
        decreases |ts| - i
      {
        assert ts[i..][0] == ts[i] && ts[i..][1..] == ts[i + 1..];
        Once(ts[i]);
        i := i + 1;
      }
      assert too == toi ==> View().to.live == [] && sockWritten + [] == sockWritten;
    }
  }
}
