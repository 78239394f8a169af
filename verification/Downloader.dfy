/**
 The parallel downloader of nonblock/web.c, with start_connect.c and write_get_cmd.c: up to
 20 files are fetched over at most `maxnconn` non-blocking connections, all watched by one
 select.

 The system may hand out any descriptor that is not open, so one that was closed may come
 back.  A script says what select reports and how connects, writes and reads come out.
 */
module Downloader {
  import opened Common

  const MAXFILES := 20

  /** f_flags: 0, F_CONNECTING, F_READING, F_DONE. */
  datatype Flags = Idle | Connecting | Reading | Done

  /** `fd` is left as it was when the file is done. */
  datatype File = File(flags: Flags, fd: int)

  datatype Connect = InProgress | Immediate | Refused

  datatype Read = Data | AtEnd | Failed

  /** `connects` are the outcomes of the connects made, `rs` and `ws` what select could report,
      `results` the outcomes of reads by file, and `broken` the files whose write fails. */
  datatype Turn = Turn(connects: seq<Connect>, rs: set<int>, ws: set<int>, results: seq<Read>, broken: set<nat>)

  function ConnectAt(connects: seq<Connect>, k: nat): Connect {
    if k < |connects| then connects[k] else InProgress
  }

  function ReadAt(results: seq<Read>, i: nat): Read {
    if i < |results| then results[i] else Data
  }

  function Num(fs: seq<File>, flags: Flags): (n: nat)
    ensures n <= |fs|
  {
    if fs == [] then 0 else Num(fs[..|fs| - 1], flags) + if fs[|fs| - 1].flags == flags then 1 else 0
  }

  lemma {:induction false} NumUpdate(fs: seq<File>, i: nat, f: File, flags: Flags)
    requires i < |fs|
    ensures Num(fs[i := f], flags) == Num(fs, flags)
              - (if fs[i].flags == flags then 1 else 0) + (if f.flags == flags then 1 else 0)
  {
    var n := |fs| - 1;
    if i == n {
      assert fs[i := f][..n] == fs[..n];
    } else {
      assert fs[i := f][..n] == fs[..n][i := f];
      NumUpdate(fs[..n], i, f, flags);
    }
  }

  lemma {:induction false} SomeFile(fs: seq<File>, flags: Flags)
    ensures Num(fs, flags) > 0 <==> exists i :: 0 <= i < |fs| && fs[i].flags == flags
  {
    if fs != [] {
      SomeFile(fs[..|fs| - 1], flags);
      assert forall i :: 0 <= i < |fs| - 1 ==> fs[..|fs| - 1][i] == fs[i];
    }
  }

  lemma {:induction false} NumTotal(fs: seq<File>)
    ensures Num(fs, Idle) + Num(fs, Connecting) + Num(fs, Reading) + Num(fs, Done) == |fs|
  {
    if fs != [] {
      NumTotal(fs[..|fs| - 1]);
    }
  }

  predicate Live(f: File) {
    f.flags.Connecting? || f.flags.Reading?
  }

  /** The descriptors of the files in a state. */
  function Fds(fs: seq<File>, flags: Flags): set<int> {
    set i | 0 <= i < |fs| && fs[i].flags == flags :: fs[i].fd
  }

  /** The descriptor sets are exactly those of the files: connecting and reading ones are
      watched for input, connecting ones for output; no two live files share a descriptor. */
  ghost predicate Watched(fs: seq<File>, rset: set<int>, wset: set<int>, maxfd: int) {
    && rset == Fds(fs, Connecting) + Fds(fs, Reading)
    && wset == Fds(fs, Connecting)
    && (forall i, j :: 0 <= i < j < |fs| && Live(fs[i]) && Live(fs[j]) ==> fs[i].fd != fs[j].fd)
    && (forall fd :: fd in rset ==> 0 <= fd <= maxfd)
  }

  /** The three counters are the numbers of files by state. */
  ghost predicate Counted(fs: seq<File>, nconn: int, nlefttoconn: int, nlefttoread: int) {
    && nlefttoconn == Num(fs, Idle)
    && nconn == Num(fs, Connecting) + Num(fs, Reading)
    && nlefttoread == |fs| - Num(fs, Done)
  }

  lemma Opened(fs: seq<File>, rset: set<int>, wset: set<int>, maxfd: int, i: nat, f: File)
    requires Watched(fs, rset, wset, maxfd) && i < |fs| && fs[i].flags.Idle?
    requires Live(f) && f.fd !in rset && f.fd >= 0
    ensures Watched(fs[i := f], rset + {f.fd}, if f.flags.Connecting? then wset + {f.fd} else wset, Max(maxfd, f.fd))
  {
    var gs := fs[i := f];
    assert gs[i] == f;
    assert forall j :: 0 <= j < |fs| && j != i ==> gs[j] == fs[j];
    assert forall fd :: fd in Fds(gs, f.flags) <==> fd in Fds(fs, f.flags) || fd == f.fd;
    assert forall flags :: flags != f.flags && flags != Idle ==> Fds(gs, flags) == Fds(fs, flags);
    assert forall j :: 0 <= j < |fs| && Live(fs[j]) ==> fs[j].fd in rset;
  }

  lemma Established(fs: seq<File>, rset: set<int>, wset: set<int>, maxfd: int, i: nat)
    requires Watched(fs, rset, wset, maxfd) && i < |fs| && fs[i].flags.Connecting?
    ensures Watched(fs[i := File(Reading, fs[i].fd)], rset, wset - {fs[i].fd}, maxfd)
    ensures fs[i].fd in rset
  {
    var gs := fs[i := File(Reading, fs[i].fd)];
    assert gs[i].fd == fs[i].fd;
    assert forall j :: 0 <= j < |fs| && j != i ==> gs[j] == fs[j];
    assert forall fd :: fd in Fds(gs, Reading) <==> fd in Fds(fs, Reading) || fd == fs[i].fd;
    assert forall fd :: fd in Fds(gs, Connecting) <==> fd in Fds(fs, Connecting) && fd != fs[i].fd;
  }

  lemma Closed(fs: seq<File>, rset: set<int>, wset: set<int>, maxfd: int, i: nat)
    requires Watched(fs, rset, wset, maxfd) && i < |fs| && fs[i].flags.Reading?
    ensures Watched(fs[i := File(Done, fs[i].fd)], rset - {fs[i].fd}, wset, maxfd)
    ensures fs[i].fd !in wset
  {
    var gs := fs[i := File(Done, fs[i].fd)];
    assert forall j :: 0 <= j < |fs| && j != i ==> gs[j] == fs[j];
    assert forall fd :: fd in Fds(gs, Reading) <==> fd in Fds(fs, Reading) && fd != fs[i].fd;
    assert forall fd :: fd in Fds(gs, Connecting) <==> fd in Fds(fs, Connecting);
  }

  /** Connections have been started for the idle files before `u`, each with the outcome that
      falls to it, and nothing else has changed. */
  ghost predicate Filled(was: seq<File>, fs: seq<File>, connects: seq<Connect>, u: nat) {
    && u <= |was| == |fs|
    && (forall j :: u <= j < |fs| ==> fs[j] == was[j])
    && (forall j :: 0 <= j < u ==>
          if was[j].flags.Idle? then
            Live(fs[j]) && (fs[j].flags.Connecting? <==> ConnectAt(connects, Num(was[..j], Idle)).InProgress?)
          else fs[j] == was[j])
  }

  lemma {:induction false} NoIdleBetween(fs: seq<File>, u: nat, i: nat)
    requires u <= i <= |fs| && forall j :: u <= j < i ==> !fs[j].flags.Idle?
    ensures Num(fs[..i], Idle) == Num(fs[..u], Idle)
  {
    if u < i {
      NoIdleBetween(fs, u, i - 1);
      assert fs[..i][..i - 1] == fs[..i - 1];
    }
  }

  lemma FilledOneMore(was: seq<File>, fs: seq<File>, connects: seq<Connect>, u: nat, i: nat, f: File)
    requires Filled(was, fs, connects, u) && i < |fs| && fs[i].flags.Idle? && Live(f)
    requires forall j :: 0 <= j < i ==> !fs[j].flags.Idle?
    requires f.flags.Connecting? <==> ConnectAt(connects, Num(was[..u], Idle)).InProgress?
    ensures Filled(was, fs[i := f], connects, i + 1)
    ensures Num(was[..i + 1], Idle) == Num(was[..u], Idle) + 1
  {
    assert i >= u;
    NoIdleBetween(was, u, i);
    assert was[..i + 1][..i] == was[..i];
  }

  /** The first idle file is the next one to get a connection. */
  lemma ItsTurn(was: seq<File>, fs: seq<File>, connects: seq<Connect>, broken: set<nat>, room: int, u: nat, i: nat)
    requires Filled(was, fs, connects, u) && i < |fs| && fs[i].flags.Idle?
    requires forall j :: 0 <= j < i ==> !fs[j].flags.Idle?
    requires NoneFails(was, connects, broken, room, u) && Num(was[..u], Idle) < room
    ensures var k := Num(was[..u], Idle);
            FailsAt(was, connects, broken, room, i) <==> Fails(ConnectAt(connects, k), i !in broken)
    ensures !FailsAt(was, connects, broken, room, i) ==> NoneFails(was, connects, broken, room, i + 1)
  {
    assert i >= u && was[i] == fs[i];
    NoIdleBetween(was, u, i);
  }

  /** An outcome of start_connect that ends the process. */
  predicate Fails(connect: Connect, works: bool) {
    connect.Refused? || (connect.Immediate? && !works)
  }

  /** The idle file `j` is given the k-th of the connections that are allowed, and that fails. */
  predicate FailsAt(was: seq<File>, connects: seq<Connect>, broken: set<nat>, room: int, j: nat)
    requires j < |was|
  {
    var k := Num(was[..j], Idle);
    was[j].flags.Idle? && k < room && Fails(ConnectAt(connects, k), j !in broken)
  }

  /** One of the connections that are started fails. */
  ghost predicate FillFails(was: seq<File>, connects: seq<Connect>, broken: set<nat>, room: int) {
    exists j :: 0 <= j < |was| && FailsAt(was, connects, broken, room, j)
  }

  /** How many connections may be started. */
  function RoomFor(fs: seq<File>, maxnconn: int): int {
    maxnconn - Num(fs, Connecting) - Num(fs, Reading)
  }

  lemma {:induction false} NumGrows(fs: seq<File>, u: nat, j: nat)
    requires u <= j <= |fs|
    ensures Num(fs[..u], Idle) <= Num(fs[..j], Idle)
  {
    if u < j {
      NumGrows(fs, u, j - 1);
      assert fs[..j][..j - 1] == fs[..j - 1];
    }
  }

  /** The connections for the idle files before `u` have been started and none has failed. */
  ghost predicate NoneFails(was: seq<File>, connects: seq<Connect>, broken: set<nat>, room: int, u: nat) {
    u <= |was| && forall j :: 0 <= j < u ==> !FailsAt(was, connects, broken, room, j)
  }

  /** When filling has come to its end the connections behind `u` are not wanted or not allowed. */
  lemma NoneFailsAtAll(was: seq<File>, fs: seq<File>, connects: seq<Connect>, broken: set<nat>, room: int, u: nat)
    requires Filled(was, fs, connects, u) && NoneFails(was, connects, broken, room, u)
    requires Num(fs, Idle) == 0 || Num(was[..u], Idle) >= room
    ensures !FillFails(was, connects, broken, room)
  {
    SomeFile(fs, Idle);
    forall j | 0 <= j < |was|
      ensures !FailsAt(was, connects, broken, room, j)
    {
      if j >= u {
        NumGrows(was, u, j);
        assert fs[j] == was[j];
      }
    }
  }

  /** No further connection is wanted or allowed. */
  predicate Full(fs: seq<File>, maxnconn: int) {
    Num(fs, Idle) == 0 || Num(fs, Connecting) + Num(fs, Reading) >= maxnconn
  }

  /** What select reports as readable and as writable. */
  function ReadableOf(fs: seq<File>, t: Turn): set<int> {
    t.rs * (Fds(fs, Connecting) + Fds(fs, Reading))
  }

  function WritableOf(fs: seq<File>, t: Turn): set<int> {
    t.ws * Fds(fs, Connecting)
  }

  /** The connections that a turn starts, none of which fails. */
  ghost predicate Begun(was: seq<File>, t: Turn, maxnconn: int, mid: seq<File>, u: nat) {
    && !FillFails(was, t.connects, t.broken, RoomFor(was, maxnconn))
    && Filled(was, mid, t.connects, u) && Full(mid, maxnconn)
  }

  /** An error exit in the scan of the files. */
  ghost predicate ScanFails(fs: seq<File>, rs: set<int>, ws: set<int>, results: seq<Read>, broken: set<nat>) {
    exists i :: 0 <= i < |fs| && Breaks(fs[i], rs, ws, ReadAt(results, i), i !in broken)
  }

  /** One turn of the main loop, for the files: connections are started, and then each file is
      treated by what select reports of its own descriptor. */
  ghost predicate TurnRule(was: seq<File>, t: Turn, maxnconn: int, mid: seq<File>, u: nat, now: seq<File>) {
    var rs, ws := ReadableOf(mid, t), WritableOf(mid, t);
    && Begun(was, t, maxnconn, mid, u) && !ScanFails(mid, rs, ws, t.results, t.broken)
    && |now| == |mid|
    && forall i :: 0 <= i < |mid| ==> now[i] == Served(mid[i], rs, ws, ReadAt(t.results, i))
  }

  /** The turn ends in an error exit. */
  ghost predicate TurnFails(was: seq<File>, t: Turn, maxnconn: int) {
    || FillFails(was, t.connects, t.broken, RoomFor(was, maxnconn))
    || exists mid, u :: Begun(was, t, maxnconn, mid, u)
                        && ScanFails(mid, ReadableOf(mid, t), WritableOf(mid, t), t.results, t.broken)
  }

  /** A run: the files before each turn and after the last one. */
  ghost predicate Run(trace: seq<seq<File>>, ts: seq<Turn>, maxnconn: int) {
    && 1 <= |trace| <= |ts| + 1
    && forall k :: 0 <= k < |trace| - 1 ==> Unfinished(trace[k]) && TurnTaken(trace[k], ts[k], maxnconn, trace[k + 1])
  }

  ghost predicate TurnTaken(was: seq<File>, t: Turn, maxnconn: int, now: seq<File>) {
    exists mid, u :: TurnRule(was, t, maxnconn, mid, u, now)
  }

  lemma RunOn(trace: seq<seq<File>>, ts: seq<Turn>, maxnconn: int, now: seq<File>)
    requires Run(trace, ts, maxnconn) && |trace| <= |ts| && Unfinished(trace[|trace| - 1])
    requires TurnTaken(trace[|trace| - 1], ts[|trace| - 1], maxnconn, now)
    ensures Run(trace + [now], ts, maxnconn)
  {}

  /** How far a file is from done. */
  function Distance(f: File): nat {
    match f.flags
    case Idle => 3
    case Connecting => 2
    case Reading => 1
    case Done => 0
  }

  function Rank(fs: seq<File>): nat {
    if fs == [] then 0 else Rank(fs[..|fs| - 1]) + Distance(fs[|fs| - 1])
  }

  lemma {:induction false} RankFalls(was: seq<File>, now: seq<File>)
    requires |was| == |now|
    requires forall j :: 0 <= j < |was| ==> now[j] == was[j] || Distance(now[j]) < Distance(was[j])
    ensures Rank(now) <= Rank(was) && (now != was ==> Rank(now) < Rank(was))
  {
    if was != [] {
      var n := |was| - 1;
      RankFalls(was[..n], now[..n]);
      assert was == was[..n] + [was[n]] && now == now[..n] + [now[n]];
    }
  }

  /** A turn changes nothing or brings the files nearer to done, so a run has at most three
      turns for each file in which anything happens. */
  lemma TurnsAdvance(was: seq<File>, t: Turn, maxnconn: int, now: seq<File>)
    requires TurnTaken(was, t, maxnconn, now)
    ensures Rank(now) <= Rank(was) && (now != was ==> Rank(now) < Rank(was))
    ensures Rank(was) <= 3 * |was|
  {
    var mid, u :| TurnRule(was, t, maxnconn, mid, u, now);
    RankFalls(was, now);
    RankBound(was);
  }

  lemma {:induction false} RankBound(fs: seq<File>)
    ensures Rank(fs) <= 3 * |fs|
  {
    if fs != [] {
      RankBound(fs[..|fs| - 1]);
    }
  }

  /** What a turn makes of a file once the connections are started: an answered connect makes it a
      reading one, and an end of file a done one; otherwise, or without a report, it stays. */
  lemma TurnServes(was: seq<File>, t: Turn, maxnconn: int, mid: seq<File>, u: nat, now: seq<File>, i: nat)
    requires TurnRule(was, t, maxnconn, mid, u, now) && i < |mid|
    ensures |now| == |mid| == |was| && now[i].fd == mid[i].fd
    ensures now[i].flags ==
            match mid[i].flags
            case Connecting => if mid[i].fd in t.rs || mid[i].fd in t.ws then Reading else Connecting
            case Reading =>
              if mid[i].fd in t.rs && i < |t.results| && t.results[i] == AtEnd then Done else Reading
            case Idle => Idle
            case Done => Done
  {
    assert Live(mid[i]) ==> mid[i].fd in Fds(mid, Connecting) + Fds(mid, Reading);
    assert mid[i].flags.Connecting? ==> mid[i].fd in Fds(mid, Connecting);
  }

  /** select reports every descriptor of the files, and whatever is read is at its end. */
  ghost predicate Eager(t: Turn, mid: seq<File>) {
    && |t.results| >= |mid|
    && forall i :: 0 <= i < |mid| ==> mid[i].fd in t.rs && mid[i].fd in t.ws && t.results[i] == AtEnd
  }

  /** Such a turn brings some file nearer to done. */
  lemma EagerTurnAdvances(was: seq<File>, t: Turn, maxnconn: int, mid: seq<File>, u: nat, now: seq<File>)
    requires TurnRule(was, t, maxnconn, mid, u, now) && Eager(t, mid) && Unfinished(was) && maxnconn > 0
    ensures Rank(now) < Rank(was)
  {
    var i := SomeLive(was, t, maxnconn, mid, u);
    TurnServes(was, t, maxnconn, mid, u, now, i);
    assert Distance(now[i]) < Distance(mid[i]) <= Distance(was[i]);
    assert TurnTaken(was, t, maxnconn, now);
    TurnsAdvance(was, t, maxnconn, now);
  }

  /** After the connections are started some file is live, unless all are done. */
  lemma SomeLive(was: seq<File>, t: Turn, maxnconn: int, mid: seq<File>, u: nat) returns (i: nat)
    requires Begun(was, t, maxnconn, mid, u) && Unfinished(was) && maxnconn > 0
    ensures i < |mid| == |was| && Live(mid[i]) && Distance(mid[i]) <= Distance(was[i])
  {
    NumTotal(mid);
    SomeFile(mid, Idle);
    SomeFile(mid, Connecting);
    SomeFile(mid, Reading);
    SomeUndone(was);
    var j :| 0 <= j < |was| && !was[j].flags.Done?;
    if Live(mid[j]) {
      return j;
    }
    assert mid[j].flags.Idle?;
    i :| 0 <= i < |mid| && Live(mid[i]);
  }

  lemma {:induction false} SomeUndone(fs: seq<File>)
    requires Unfinished(fs)
    ensures exists j :: 0 <= j < |fs| && !fs[j].flags.Done?
  {
    var n := |fs| - 1;
    if fs[n].flags.Done? {
      SomeUndone(fs[..n]);
      var j :| 0 <= j < n && !fs[..n][j].flags.Done?;
      assert !fs[j].flags.Done?;
    }
  }

  /** A turn that is eager about whatever connections it has started. */
  ghost predicate EagerTurn(was: seq<File>, t: Turn, maxnconn: int, now: seq<File>) {
    exists mid, u :: TurnRule(was, t, maxnconn, mid, u, now) && Eager(t, mid)
  }

  lemma EagerTurnLowers(was: seq<File>, t: Turn, maxnconn: int, now: seq<File>)
    requires EagerTurn(was, t, maxnconn, now) && Unfinished(was) && maxnconn > 0
    ensures Rank(now) < Rank(was)
  {
    var mid, u :| TurnRule(was, t, maxnconn, mid, u, now) && Eager(t, mid);
    EagerTurnAdvances(was, t, maxnconn, mid, u, now);
  }

  /** A run of such turns is over after at most three for each file. */
  lemma {:induction false} EagerRunEnds(trace: seq<seq<File>>, ts: seq<Turn>, maxnconn: int, k: nat)
    requires Run(trace, ts, maxnconn) && maxnconn > 0 && k < |trace|
    requires forall j :: 0 <= j < |trace| - 1 ==> EagerTurn(trace[j], ts[j], maxnconn, trace[j + 1])
    ensures Rank(trace[k]) + k <= Rank(trace[0]) <= 3 * |trace[0]|
    decreases k
  {
    RankBound(trace[0]);
    if k > 0 {
      EagerRunEnds(trace, ts, maxnconn, k - 1);
      EagerTurnLowers(trace[k - 1], ts[k - 1], maxnconn, trace[k]);
    }
  }

  /** When nothing goes wrong in a turn it does not end in an error exit. */
  lemma QuietTurn(was: seq<File>, t: Turn, maxnconn: int)
    requires Refused !in t.connects && Failed !in t.results && t.broken == {}
    ensures !TurnFails(was, t, maxnconn)
  {
    forall k: nat ensures ConnectAt(t.connects, k) != Refused && ReadAt(t.results, k) != Failed {}
  }

  /** A refused connection ends the process if it is made, ... */
  lemma RefusalEnds(was: seq<File>, t: Turn, maxnconn: int)
    requires Num(was, Idle) > 0 && RoomFor(was, maxnconn) > 0 && t.connects != [] && t.connects[0] == Refused
    ensures TurnFails(was, t, maxnconn)
  {
    var j := FirstIdle(was);
    NoIdleBetween(was, 0, j);
    assert was[..0] == [];
    assert FailsAt(was, t.connects, t.broken, RoomFor(was, maxnconn), j);
  }

  lemma {:induction false} FirstIdle(fs: seq<File>) returns (j: nat)
    requires Num(fs, Idle) > 0
    ensures j < |fs| && fs[j].flags == Idle && forall i :: 0 <= i < j ==> fs[i].flags != Idle
  {
    var n := |fs| - 1;
    if Num(fs[..n], Idle) > 0 {
      j := FirstIdle(fs[..n]);
      assert forall i :: 0 <= i <= j ==> fs[..n][i] == fs[i];
    } else {
      SomeFile(fs[..n], Idle);
      assert forall i :: 0 <= i < n ==> fs[..n][i] == fs[i];
      j := n;
    }
  }

  /** ... and so does a read or a command that fails. */
  lemma FailureEnds(was: seq<File>, t: Turn, maxnconn: int, mid: seq<File>, u: nat, i: nat)
    requires Begun(was, t, maxnconn, mid, u) && i < |mid| && mid[i].fd in t.rs
    requires || (mid[i].flags == Reading && i < |t.results| && t.results[i] == Failed)
             || (mid[i].flags == Connecting && i in t.broken)
    ensures TurnFails(was, t, maxnconn)
  {
    assert mid[i].fd in Fds(mid, Connecting) + Fds(mid, Reading);
    assert Breaks(mid[i], ReadableOf(mid, t), WritableOf(mid, t), ReadAt(t.results, i), i !in t.broken);
    assert ScanFails(mid, ReadableOf(mid, t), WritableOf(mid, t), t.results, t.broken);
  }

  predicate Unfinished(fs: seq<File>) {
    Num(fs, Done) < |fs|
  }

  /** There is always a descriptor that is not open. */
  lemma {:induction false} FreeDescriptor(open: set<int>, maxfd: int)
    requires forall fd :: fd in open ==> fd <= maxfd
    ensures exists fd :: fd >= 0 && fd !in open
  {
    assert Max(maxfd, 0) + 1 !in open;
  }

  class Web {
    const file: array<File>
    const maxnconn: int
    var nconn: int
    var nlefttoconn: int
    var nlefttoread: int
    var rset: set<int>
    var wset: set<int>
    var maxfd: int
    var aborted: bool   // err_sys: a connect or a write has failed

    constructor (argFiles: nat, maxnconn: int)
      ensures Valid() && !aborted && file.Length == Min(argFiles, 20) && this.maxnconn == maxnconn
      ensures nlefttoread == file.Length && rset == {} && fresh(file)
    {
      file := new File[Min(argFiles, MAXFILES)](_ => File(Idle, 0));
      this.maxnconn := maxnconn;
      rset, wset, maxfd, aborted := {}, {}, -1, false;
      nlefttoread, nlefttoconn, nconn := Min(argFiles, MAXFILES), Min(argFiles, MAXFILES), 0;
      new;
      AllIdle(file[..]);
    }

    ghost predicate Valid()
      reads this, file
    {
      && Watched(file[..], rset, wset, maxfd)
      && Counted(file[..], nconn, nlefttoconn, nlefttoread)
      && nconn <= Max(maxnconn, 0)
    }

    /** write_get_cmd */
    method WriteGetCmd(i: nat, works: bool)
      requires i < file.Length
      modifies this`rset, this`maxfd, this`aborted, file
      ensures !works ==> aborted && unchanged(file) && rset == old(rset) && maxfd == old(maxfd)
      ensures works ==> aborted == old(aborted) && file[..] == old(file[..])[i := File(Reading, old(file[i].fd))]
      ensures works ==> rset == old(rset) + {old(file[i].fd)} && maxfd == Max(old(maxfd), old(file[i].fd))
    {
      if !works {
        aborted := true;
        return;
      }
      file[i] := file[i].(flags := Reading);
      rset := rset + {file[i].fd};
      if file[i].fd > maxfd {
        maxfd := file[i].fd;
      }
    }

    /** start_connect: the file takes some descriptor that is not open. */
    method StartConnect(i: nat, connect: Connect, works: bool)
      requires Watched(file[..], rset, wset, maxfd) && i < file.Length && file[i].flags.Idle? && !aborted
      modifies this`rset, this`wset, this`maxfd, this`aborted, file
      ensures aborted <==> connect == Refused || (connect == Immediate && !works)
      ensures !aborted ==>
                && Watched(file[..], rset, wset, maxfd) && Live(file[i])
                && file[i].fd !in old(rset) && file[..] == old(file[..])[i := file[i]]
                && (connect.InProgress? <==> file[i].flags.Connecting?)
    {
      FreeDescriptor(rset, maxfd);
      var fd :| fd >= 0 && fd !in rset;
      ghost var fs := file[..];
      file[i] := file[i].(fd := fd);
      match connect {
        case Refused =>
          aborted := true;
        case InProgress =>
          Opened(fs, rset, wset, maxfd, i, File(Connecting, fd));
          file[i] := file[i].(flags := Connecting);
          rset, wset := rset + {fd}, wset + {fd};
          if fd > maxfd {
            maxfd := fd;
          }
          assert file[..] == fs[i := File(Connecting, fd)];
        case Immediate =>
          Opened(fs, rset, wset, maxfd, i, File(Reading, fd));
          WriteGetCmd(i, works);
          assert !aborted ==> file[..] == fs[i := File(Reading, fd)];
      }
    }

    /** The search for a file to read. */
    method FindIdle() returns (i: nat)
      ensures i <= file.Length && (forall j :: 0 <= j < i ==> !file[j].flags.Idle?)
      ensures i < file.Length ==> file[i].flags.Idle?
    {
      i := 0;
      while i < file.Length
        invariant i <= file.Length && forall j :: 0 <= j < i ==> !file[j].flags.Idle?
      {
        if file[i].flags.Idle? {
          return;
        }
        i := i + 1;
      }
    }

    /** A connection is started and counted. */
    method StartOne(i: nat, connect: Connect, works: bool)
      requires Valid() && !aborted && i < file.Length && file[i].flags.Idle? && nconn < maxnconn
      modifies this, file
      ensures nlefttoread == old(nlefttoread)
      ensures !aborted ==>
                && Valid() && Live(file[i]) && file[..] == old(file[..])[i := file[i]]
                && nlefttoconn == old(nlefttoconn) - 1 && nconn == old(nconn) + 1
                && (connect.InProgress? <==> file[i].flags.Connecting?)
      ensures aborted <==> Fails(connect, works)
    {
      ghost var fs := file[..];
      StartConnect(i, connect, works);
      if aborted { return; }
      Started(fs, i, file[i]);
      nconn := nconn + 1;
      nlefttoconn := nlefttoconn - 1;
    }

    /** New connections up to the limit.  `nothing` is the error exit of the search. */
    method Fill(connects: seq<Connect>, broken: set<nat>) returns (nothing: bool, ghost u: nat)
      requires Valid() && !aborted
      modifies this, file
      ensures !nothing
      ensures aborted <==> FillFails(old(file[..]), connects, broken, RoomFor(old(file[..]), maxnconn))
      ensures !aborted ==> Valid() && Full(file[..], maxnconn)
      ensures !aborted ==> Filled(old(file[..]), file[..], connects, u)
      ensures nlefttoread == old(nlefttoread)
    {
      nothing := false;
      var k := 0;
      ghost var was := file[..];
      ghost var room := RoomFor(was, maxnconn);
      u := 0;
      while nconn < maxnconn && nlefttoconn > 0
        invariant Valid() && !aborted && nlefttoread == old(nlefttoread)
        invariant Filled(was, file[..], connects, u) && k == Num(was[..u], Idle) && room == maxnconn - nconn + k
        invariant NoneFails(was, connects, broken, room, u)
        decreases nlefttoconn
      {
        nothing, u := StartNext(connects, broken, k, was, u, room);
        if nothing || aborted { return; }
        k := k + 1;
      }
      NoneFailsAtAll(was, file[..], connects, broken, room, u);
    }

    /** The next connection: the first idle file gets it. */
    method StartNext(connects: seq<Connect>, broken: set<nat>, k: nat,
                     ghost was: seq<File>, ghost u0: nat, ghost room: int)
      returns (nothing: bool, ghost u: nat)
      requires Valid() && !aborted && nconn < maxnconn && nlefttoconn > 0
      requires Filled(was, file[..], connects, u0) && k == Num(was[..u0], Idle) && room == maxnconn - nconn + k
      requires NoneFails(was, connects, broken, room, u0)
      modifies this, file
      ensures !nothing && nlefttoread == old(nlefttoread)
      ensures aborted ==> FillFails(was, connects, broken, room)
      ensures !aborted ==> Valid() && nlefttoconn == old(nlefttoconn) - 1 && nconn == old(nconn) + 1
      ensures !aborted ==> Filled(was, file[..], connects, u) && k + 1 == Num(was[..u], Idle)
      ensures !aborted ==> NoneFails(was, connects, broken, room, u)
    {
      var i := FindIdle();
      SomeFile(file[..], Idle);
      nothing, u := i == file.Length, i + 1;
      if nothing { return; }
      ghost var fs := file[..];
      ItsTurn(was, fs, connects, broken, room, u0, i);
      StartOne(i, ConnectAt(connects, k), i !in broken);
      if aborted { return; }
      FilledOneMore(was, fs, connects, u0, i, file[i]);
    }

    /** The read of a file at end of file. */
    method Close(i: nat)
      requires Valid() && i < file.Length && file[i].flags.Reading?
      modifies this`rset, this`nconn, this`nlefttoread, file
      ensures Valid() && file[..] == old(file[..])[i := File(Done, old(file[i].fd))]
      ensures nlefttoread == old(nlefttoread) - 1
    {
      ghost var fs := file[..];
      var fd := file[i].fd;
      Closed(fs, rset, wset, maxfd, i);
      Ended(fs, i);
      file[i] := file[i].(flags := Done);
      rset := rset - {fd};
      nconn := nconn - 1;
      nlefttoread := nlefttoread - 1;
      assert file[..] == fs[i := File(Done, fd)];
    }

    /** The connection of a file is established, or has failed, which is only reported. */
    method Connected(i: nat, works: bool)
      requires Valid() && !aborted && i < file.Length && file[i].flags.Connecting?
      modifies this`rset, this`wset, this`maxfd, this`aborted, file
      ensures aborted <==> !works
      ensures !aborted ==> Valid() && file[..] == old(file[..])[i := File(Reading, old(file[i].fd))]
    {
      ghost var fs := file[..];
      var fd := file[i].fd;
      Established(fs, rset, wset, maxfd, i);
      Moved(fs, i);
      wset := wset - {fd};
      WriteGetCmd(i, works);
      assert !aborted ==> rset == old(rset);
    }

    /** One file in the scan after select. */
    method Serve(i: nat, rs: set<int>, ws: set<int>, read: Read, works: bool)
      requires Valid() && !aborted && i < file.Length
      modifies this, file
      ensures aborted <==>
                var f := old(file[i]);
                || (f.flags == Connecting && (f.fd in rs || f.fd in ws) && !works)
                || (f.flags == Reading && f.fd in rs && read == Failed)
      ensures !aborted ==> Valid()
      ensures !aborted ==> file[..] == old(file[..])[i := Served(old(file[i]), rs, ws, read)]
      ensures nlefttoread <= old(nlefttoread)
    {
      ghost var fs := file[..];
      assert fs[i := fs[i]] == fs;
      var flags := file[i].flags;
      if flags.Idle? || flags.Done? {
        return;
      }
      var fd := file[i].fd;
      if flags.Connecting? && (fd in rs || fd in ws) {
        Connected(i, works);
      } else if flags.Reading? && fd in rs {
        if read.Failed? {
          aborted := true;
        } else if read.AtEnd? {
          Close(i);
        }
      }
    }

    /** The scan after select: each file is looked at once, with the readiness reported for its
        own descriptor. */
    method Scan(rs: set<int>, ws: set<int>, results: seq<Read>, broken: set<nat>)
      requires Valid() && !aborted
      modifies this, file
      ensures aborted <==> ScanFails(old(file[..]), rs, ws, results, broken)
      ensures !aborted ==> Valid()
      ensures !aborted ==> forall i :: 0 <= i < file.Length ==>
                file[i] == Served(old(file[..])[i], rs, ws, ReadAt(results, i))
      ensures nlefttoread <= old(nlefttoread)
    {
      ghost var fs := file[..];
      for i := 0 to file.Length
        invariant Valid() && !aborted && nlefttoread <= old(nlefttoread)
        invariant forall j :: 0 <= j < i ==> !Breaks(fs[j], rs, ws, ReadAt(results, j), j !in broken)
        invariant forall j :: 0 <= j < file.Length ==>
                    file[..][j] == if j < i then Served(fs[j], rs, ws, ReadAt(results, j)) else fs[j]
      {
        Serve(i, rs, ws, ReadAt(results, i), i !in broken);
        if aborted { return; }
      }
    }

    /** One turn of the main loop.  `idle` says that select was called with nothing open, which
        happens only when no connection is allowed at all. */
    method Once(t: Turn) returns (nothing: bool, idle: bool, ghost mid: seq<File>, ghost u: nat)
      requires Valid() && !aborted && nlefttoread > 0
      modifies this, file
      ensures !nothing && nlefttoread <= old(nlefttoread)
      ensures aborted ==> TurnFails(old(file[..]), t, maxnconn)
      ensures !aborted ==> Valid() && (idle <==> maxnconn <= 0)
      ensures !aborted ==> TurnRule(old(file[..]), t, maxnconn, mid, u, file[..])
    {
      idle := false;
      nothing, u := Fill(t.connects, t.broken);
      mid := file[..];
      if nothing || aborted { return; }
      assert Begun(old(file[..]), t, maxnconn, mid, u);
      idle := rset == {};
      SomethingOpen(file[..], rset, wset, maxfd, nconn, nlefttoconn, nlefttoread);
      Poll(t);
    }

    /** select and the scan behind it. */
    method Poll(t: Turn)
      requires Valid() && !aborted
      modifies this, file
      ensures nlefttoread <= old(nlefttoread)
      ensures var fs := old(file[..]);
              aborted <==> ScanFails(fs, ReadableOf(fs, t), WritableOf(fs, t), t.results, t.broken)
      ensures !aborted ==> Valid()
      ensures !aborted ==>
                var fs := old(file[..]);
                forall i :: 0 <= i < |fs| ==>
                  file[..][i] == Served(fs[i], ReadableOf(fs, t), WritableOf(fs, t), ReadAt(t.results, i))
    {
      var rs, ws := t.rs * rset, t.ws * wset;
      if rs + ws == {} { return; }
      Scan(rs, ws, t.results, t.broken);
    }

    /** main.  The loop is left only when every file is done, and then nothing is watched. */
    method Fetch(ts: seq<Turn>) returns (ghost trace: seq<seq<File>>)
      requires Valid() && !aborted
      modifies this, file
      ensures !aborted ==> Valid() && nconn + nlefttoconn == nlefttoread
      ensures Run(trace, ts, maxnconn) && trace[0] == old(file[..])
      ensures aborted ==> |trace| <= |ts| && TurnFails(trace[|trace| - 1], ts[|trace| - 1], maxnconn)
      ensures !aborted ==> trace[|trace| - 1] == file[..]
      ensures !aborted && |trace| <= |ts| ==> !Unfinished(file[..])
      ensures !aborted && !Unfinished(file[..]) ==>
                rset == wset == {} && forall i :: 0 <= i < file.Length ==> file[i].flags.Done?
    {
      var k := 0;
      trace := [file[..]];
      while nlefttoread > 0 && k < |ts|
        invariant Valid() && !aborted && |trace| == k + 1
        invariant Run(trace, ts, maxnconn) && trace[0] == old(file[..]) && trace[k] == file[..]
        decreases |ts| - k
      {
        var nothing, idle;
        ghost var mid, u;
        ghost var was := file[..];
        nothing, idle, mid, u := Once(ts[k]);
        if aborted { return; }
        assert TurnRule(was, ts[k], maxnconn, mid, u, file[..]);
        RunOn(trace, ts, maxnconn, file[..]);
        trace := trace + [file[..]];
        k := k + 1;
      }
      NumTotal(file[..]);
      SomethingOpen(file[..], rset, wset, maxfd, nconn, nlefttoconn, nlefttoread);
      if nlefttoread == 0 {
        AllDone(file[..]);
      }
    }
  }

  /** What the scan makes of a file. */
  function Served(f: File, rs: set<int>, ws: set<int>, read: Read): File {
    if f.flags.Connecting? && (f.fd in rs || f.fd in ws) then f.(flags := Reading)
    else if f.flags.Reading? && f.fd in rs && read.AtEnd? then f.(flags := Done)
    else f
  }

  /** The error exits of the write of the command and of the read. */
  predicate Breaks(f: File, rs: set<int>, ws: set<int>, read: Read, works: bool) {
    || (f.flags.Connecting? && (f.fd in rs || f.fd in ws) && !works)
    || (f.flags.Reading? && f.fd in rs && read.Failed?)
  }

  lemma {:induction false} AllIdle(fs: seq<File>)
    requires forall i :: 0 <= i < |fs| ==> fs[i].flags.Idle?
    ensures Num(fs, Idle) == |fs| && Num(fs, Connecting) == Num(fs, Reading) == Num(fs, Done) == 0
  {
    if fs != [] {
      AllIdle(fs[..|fs| - 1]);
    }
  }

  lemma {:induction false} AllDone(fs: seq<File>)
    requires Num(fs, Done) == |fs|
    ensures forall i :: 0 <= i < |fs| ==> fs[i].flags.Done?
  {
    if fs != [] {
      AllDone(fs[..|fs| - 1]);
    }
  }

  lemma Started(fs: seq<File>, i: nat, f: File)
    requires i < |fs| && fs[i].flags.Idle? && Live(f)
    ensures Num(fs[i := f], Idle) == Num(fs, Idle) - 1 && Num(fs[i := f], Done) == Num(fs, Done)
    ensures Num(fs[i := f], Connecting) + Num(fs[i := f], Reading) == Num(fs, Connecting) + Num(fs, Reading) + 1
  {
    NumUpdate(fs, i, f, Idle);
    NumUpdate(fs, i, f, Done);
    NumUpdate(fs, i, f, Connecting);
    NumUpdate(fs, i, f, Reading);
  }

  lemma Moved(fs: seq<File>, i: nat)
    requires i < |fs| && fs[i].flags.Connecting?
    ensures var gs := fs[i := File(Reading, fs[i].fd)];
            && Num(gs, Idle) == Num(fs, Idle) && Num(gs, Done) == Num(fs, Done)
            && Num(gs, Connecting) + Num(gs, Reading) == Num(fs, Connecting) + Num(fs, Reading)
  {
    var f := File(Reading, fs[i].fd);
    NumUpdate(fs, i, f, Idle);
    NumUpdate(fs, i, f, Done);
    NumUpdate(fs, i, f, Connecting);
    NumUpdate(fs, i, f, Reading);
  }

  lemma Ended(fs: seq<File>, i: nat)
    requires i < |fs| && fs[i].flags.Reading?
    ensures var gs := fs[i := File(Done, fs[i].fd)];
            && Num(gs, Idle) == Num(fs, Idle) && Num(gs, Done) == Num(fs, Done) + 1
            && Num(gs, Connecting) + Num(gs, Reading) == Num(fs, Connecting) + Num(fs, Reading) - 1
  {
    var f := File(Done, fs[i].fd);
    NumUpdate(fs, i, f, Idle);
    NumUpdate(fs, i, f, Done);
    NumUpdate(fs, i, f, Connecting);
    NumUpdate(fs, i, f, Reading);
  }

  /** Something is open exactly when a connection is counted. */
  lemma SomethingOpen(fs: seq<File>, rset: set<int>, wset: set<int>, maxfd: int, nconn: int,
                      nlefttoconn: int, nlefttoread: int)
    requires Watched(fs, rset, wset, maxfd) && Counted(fs, nconn, nlefttoconn, nlefttoread)
    ensures rset != {} <==> nconn > 0
    ensures nconn + nlefttoconn == nlefttoread && wset <= rset
  {
    NumTotal(fs);
    SomeFile(fs, Connecting);
    SomeFile(fs, Reading);
    if nconn > 0 {
      var i :| 0 <= i < |fs| && Live(fs[i]);
      assert fs[i].fd in rset;
    } else {
      assert Fds(fs, Connecting) == {} && Fds(fs, Reading) == {};
    }
  }
}
