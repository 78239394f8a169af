/**
 The tour of A4/assign4/tour_and.c: a source-routed packet visits the nodes of a list in
 order, every node on the way joins a multicast group, and the last one then calls the roll.

 A node is known by its address.  The network delivers every tour packet once; a multicast
 message reaches any of the members, each at most once, in any order.
 */
module Tour {
  import opened Common

  const STOPS := 25   // entries of the payload array

  /** The part of a tour_frame_t that the route depends on. */
  datatype Route = Route(payload: seq<nat>, index: nat, size: nat)

  /** The globals of one process, and counts of what it has done. */
  datatype Node = Node(
    visited: bool,          // already_visited
    stopPinging: bool,
    ticks: nat,             // count_till_five
    heardFirst: bool,       // mc_first_rcvd
    joins: nat, ends: nat, idents: nat)

  const FRESH := Node(false, false, 0, false, 0, 0, 0)

  // ------------------------------------------------------------ what one node does

  predicate Routable(r: Route) {
    r.index < r.size <= |r.payload|
  }

  function Join(x: Node): Node {
    if x.visited then x else x.(joins := x.joins + 1)
  }

  /** The node after a tour packet; at the last stop the packet goes no further. */
  function Visit(x: Node, r: Route): Node
    requires Routable(r)
  {
    if r.index + 1 == r.size then Join(x).(visited := false, stopPinging := true)
    else Join(x).(visited := true)
  }

  function NextStop(r: Route): Option<nat>
    requires Routable(r)
  {
    if r.index + 1 == r.size then None else Some(r.payload[r.index + 1])
  }

  function Tick(x: Node): Node {
    if !x.stopPinging then x
    else x.(ticks := x.ticks + 1, ends := if x.ticks + 1 == 5 then x.ends + 1 else x.ends)
  }

  function Hear(x: Node): Node {
    if x.heardFirst then x else x.(heardFirst := true, idents := x.idents + 1)
  }

  /** The addresses of the stops.  A name that cannot be resolved leaves the buffer as it was. */
  function Resolved(argv: seq<Option<nat>>, junk: nat): (r: seq<nat>)
    ensures |r| == |argv|
  {
    if argv == [] then []
    else
      var before := Resolved(argv[..|argv| - 1], junk);
      before + [match argv[|argv| - 1]
                case Some(ip) => ip
                case None => if before == [] then junk else before[|before| - 1]]
  }

  class Frame {
    const payload: array<nat>
    var index: nat
    var size: nat

    constructor ()
      ensures payload.Length == STOPS && fresh(payload)
    {
      payload := new nat[STOPS](_ => 0);
    }

    function View(): Route
      reads this, payload
    {
      Route(payload[..], index, size)
    }

    /** fill_t_frame_payload */
    method Fill(self: nat, argv: seq<Option<nat>>, junk: nat)
      requires payload.Length == STOPS && |argv| < STOPS
      modifies this, payload
      ensures View().index == 1 && View().size == |argv| + 1
      ensures payload[..size] == [self] + Resolved(argv, junk)
    {
      var ipAddr := junk;
      payload[0] := self;
      var i := 0;
      while i < |argv|
        invariant 0 <= i <= |argv| && payload[0] == self
        invariant payload[1..i + 1] == Resolved(argv[..i], junk)
        invariant ipAddr == if i == 0 then junk else payload[i]
      {
        OneMoreStop(argv, i, junk);
        i := i + 1;
        if argv[i - 1].Some? {
          ipAddr := argv[i - 1].value;
        }
        payload[i] := ipAddr;
        assert payload[1..i + 1] == payload[1..i] + [ipAddr];
      }
      size, index := i + 1, 1;
      assert argv[..i] == argv;
      assert payload[..size] == [payload[0]] + payload[1..size];
    }
  }

  /** Every stop that has an address is at its place; one that has none repeats the stop before. */
  lemma {:induction false} ResolvedStops(argv: seq<Option<nat>>, junk: nat, i: nat)
    requires i < |argv|
    ensures var r := Resolved(argv, junk);
            r[i] == match argv[i]
                    case Some(ip) => ip
                    case None => if i == 0 then junk else r[i - 1]
  {
    var n := |argv| - 1;
    if i < n {
      ResolvedStops(argv[..n], junk, i);
    }
  }

  lemma OneMoreStop(argv: seq<Option<nat>>, i: nat, junk: nat)
    requires i < |argv|
    ensures Resolved(argv[..i + 1], junk) == Resolved(argv[..i], junk)
      + [match argv[i]
         case Some(ip) => ip
         case None => if i == 0 then junk else Resolved(argv[..i], junk)[i - 1]]
  {
    assert argv[..i + 1][..i] == argv[..i];
  }

  /** One tour process. */
  class Process {
    const self: nat
    var alreadyVisited: bool
    var stopPinging: bool
    var countTillFive: nat
    var mcFirstRcvd: bool
    var joins: nat
    var ends: nat
    var idents: nat

    constructor (self: nat)
      ensures this.self == self && View() == FRESH
    {
      this.self := self;
      alreadyVisited, stopPinging, countTillFive, mcFirstRcvd := false, false, 0, false;
      joins, ends, idents := 0, 0, 0;
    }

    function View(): Node
      reads this
    {
      Node(alreadyVisited, stopPinging, countTillFive, mcFirstRcvd, joins, ends, idents)
    }

    /** start_tour */
    method StartTour(argv: seq<Option<nat>>, junk: nat) returns (frame: Frame, dst: nat)
      requires 0 < |argv| < STOPS && View() == FRESH
      modifies this
      ensures View() == FRESH.(visited := true, joins := 1)
      ensures frame.View().index == 1 && frame.View().size == |argv| + 1
      ensures frame.payload.Length == STOPS && frame.payload[..|argv| + 1] == [self] + Resolved(argv, junk)
      ensures dst == Resolved(argv, junk)[0]
    {
      frame := new Frame();
      frame.Fill(self, argv, junk);
      joins := joins + 1;
      alreadyVisited := true;
      assert frame.payload[..frame.size][1] == Resolved(argv, junk)[0];
      dst := frame.payload[1];
    }

    /** handle_tour.  The frame is passed on with its index stepped. */
    method HandleTour(frame: Frame) returns (dst: Option<nat>)
      requires Routable(frame.View())
      modifies this, frame`index
      ensures View() == Visit(old(View()), old(frame.View()))
      ensures dst == NextStop(old(frame.View()))
      ensures joins == old(joins) + if old(alreadyVisited) then 0 else 1
      ensures dst.None? ==> stopPinging && !alreadyVisited
      ensures dst.Some? ==> stopPinging == old(stopPinging) && alreadyVisited
      ensures frame.View() == old(frame.View()).(index := old(frame.index) + 1)
    {
      frame.index := frame.index + 1;
      if frame.index == frame.size {
        stopPinging := true;
        if !alreadyVisited {
          joins := joins + 1;
        }
        alreadyVisited := false;
        return None;
      }
      if !alreadyVisited {
        alreadyVisited := true;
        joins := joins + 1;
      }
      dst := Some(frame.payload[frame.index]);
    }

    /** handle_mc_msg.  `reply` says that this node identifies itself to the group. */
    method HandleMcMsg() returns (reply: bool)
      modifies this
      ensures View() == Hear(old(View()))
      ensures reply <==> !old(mcFirstRcvd)
      ensures idents == old(idents) + if reply then 1 else 0
    {
      reply := !mcFirstRcvd;
      if !mcFirstRcvd {
        idents := idents + 1;
        mcFirstRcvd := true;
      }
    }

    /** The timeout branch of the event loop. */
    method Timeout() returns (ended: bool)
      modifies this
      ensures View() == Tick(old(View()))
      ensures ended <==> old(stopPinging) && old(countTillFive) == 4
      ensures ends == old(ends) + if ended then 1 else 0
      ensures countTillFive == old(countTillFive) + if stopPinging then 1 else 0
    {
      if stopPinging {
        countTillFive := countTillFive + 1;
      }
      ended := stopPinging && countTillFive == 5;
      if ended {
        ends := ends + 1;
      }
    }
  }

  // ------------------------------------------------------------ all nodes together

  datatype Msg = Ended(sender: nat) | Member(sender: nat)

  datatype Packet = Packet(src: nat, dst: nat, route: Route)

  datatype Net = Net(
    nodes: map<nat, Node>,
    packet: Option<Packet>,         // the tour packet in flight
    msgs: set<Msg>,                 // multicast messages sent so far
    heard: set<(Msg, nat)>,         // history: which member has received which of them
    visits: seq<nat>)               // history: where the tour packet was delivered

  datatype Step = Deliver | Timeout(n: nat) | Receive(m: Msg, n: nat)

  predicate Enabled(s: Net, step: Step) {
    match step
    case Deliver => s.packet.Some? && s.packet.value.dst in s.nodes && Routable(s.packet.value.route)
    case Timeout(n) => n in s.nodes
    case Receive(m, n) => m in s.msgs && n in s.nodes && s.nodes[n].joins > 0 && (m, n) !in s.heard
  }

  function Next(s: Net, step: Step): Net
    requires Enabled(s, step)
  {
    match step
    case Deliver =>
      var p := s.packet.value;
      var to := NextStop(p.route);
      s.(nodes := s.nodes[p.dst := Visit(s.nodes[p.dst], p.route)],
         visits := s.visits + [p.dst],
         packet := if to.None? then None else Some(Packet(p.dst, to.value, p.route.(index := p.route.index + 1))))
    case Timeout(n) =>
      var x := Tick(s.nodes[n]);
      s.(nodes := s.nodes[n := x], msgs := s.msgs + if x.ends != s.nodes[n].ends then {Ended(n)} else {})
    case Receive(m, n) =>
      var x := Hear(s.nodes[n]);
      s.(nodes := s.nodes[n := x], heard := s.heard + {(m, n)},
         msgs := s.msgs + if x.idents != s.nodes[n].idents then {Member(n)} else {})
  }

  /** The tour through `t`, whose first entry is the node that starts it. */
  ghost predicate IsTour(t: seq<nat>, addrs: set<nat>) {
    2 <= |t| <= STOPS && forall i :: 0 <= i < |t| ==> t[i] in addrs
  }

  function Initial(t: seq<nat>, addrs: set<nat>): Net
    requires |t| >= 2
  {
    Net(map n | n in addrs :: if n == t[0] then FRESH.(visited := true, joins := 1) else FRESH,
        Some(Packet(t[0], t[1], Route(t, 1, |t|))), {}, {}, [])
  }

  /** One node after `d` deliveries. */
  ghost predicate NodeOk(t: seq<nat>, d: nat, n: nat, x: Node)
    requires d < |t|
  {
    && x.joins == (if n in t[..d + 1] then 1 else 0)
    && (d + 1 < |t| ==> (x.visited <==> n in t[..d + 1]))
    && (x.stopPinging <==> d + 1 == |t| && n == t[d])
    && (!x.stopPinging ==> x.ticks == 0)
    && x.ends == (if x.ticks >= 5 then 1 else 0)
    && x.idents == (if x.heardFirst then 1 else 0)
    && (x.heardFirst ==> n in t[..d + 1])
  }

  ghost predicate PacketOk(t: seq<nat>, s: Net) {
    && |s.visits| < |t| && s.visits == t[1..|s.visits| + 1]
    && s.packet == if |s.visits| + 1 == |t| then None
                   else Some(Packet(t[|s.visits|], t[|s.visits| + 1], Route(t, |s.visits| + 1, |t|)))
  }

  ghost predicate MsgsOk(t: seq<nat>, s: Net)
    requires |t| >= 2
  {
    && (forall m :: m in s.msgs ==>
          && m.sender in s.nodes
          && if m.Ended? then m.sender == t[|t| - 1] && s.nodes[m.sender].ends == 1 else s.nodes[m.sender].heardFirst)
    && (s.msgs != {} ==> Ended(t[|t| - 1]) in s.msgs)
    && (forall n :: n in s.nodes && s.nodes[n].ends == 1 ==> Ended(n) in s.msgs)
    && (forall n :: n in s.nodes && s.nodes[n].heardFirst ==> Member(n) in s.msgs)
    && (forall h :: h in s.heard ==> h.0 in s.msgs && h.1 in s.nodes && s.nodes[h.1].heardFirst)
  }

  ghost predicate Inv(t: seq<nat>, addrs: set<nat>, s: Net)
    requires IsTour(t, addrs)
  {
    && s.nodes.Keys == addrs
    && PacketOk(t, s)
    && (forall n :: n in addrs ==> NodeOk(t, |s.visits|, n, s.nodes[n]))
    && MsgsOk(t, s)
  }

  lemma DeliverKeepsNode(t: seq<nat>, d: nat, n: nat, x: Node)
    requires d + 1 < |t| && NodeOk(t, d, n, x)
    ensures NodeOk(t, d + 1, n, if n == t[d + 1] then Visit(x, Route(t, d + 1, |t|)) else x)
  {
    assert t[..d + 2] == t[..d + 1] + [t[d + 1]];
  }

  lemma DeliverKeepsMsgs(t: seq<nat>, s: Net, q: Net)
    requires |t| >= 2 && MsgsOk(t, s) && q.msgs == s.msgs && q.heard == s.heard && q.nodes.Keys == s.nodes.Keys
    requires forall n :: n in s.nodes ==>
               q.nodes[n].ends == s.nodes[n].ends && q.nodes[n].heardFirst == s.nodes[n].heardFirst
    ensures MsgsOk(t, q)
  {}

  lemma DeliverKeepsPacket(t: seq<nat>, s: Net)
    requires PacketOk(t, s) && Enabled(s, Deliver)
    ensures |s.visits| + 1 < |t| && s.packet.value.route == Route(t, |s.visits| + 1, |t|)
    ensures s.packet.value.dst == t[|s.visits| + 1]
    ensures PacketOk(t, Next(s, Deliver)) && |Next(s, Deliver).visits| == |s.visits| + 1
  {
    var d := |s.visits|;
    assert t[1..d + 2] == t[1..d + 1] + [t[d + 1]];
  }

  lemma DeliverKeepsInv(t: seq<nat>, addrs: set<nat>, s: Net)
    requires IsTour(t, addrs) && Inv(t, addrs, s) && Enabled(s, Deliver)
    ensures Inv(t, addrs, Next(s, Deliver))
  {
    var d, q := |s.visits|, Next(s, Deliver);
    DeliverKeepsPacket(t, s);
    forall n | n in addrs
      ensures NodeOk(t, d + 1, n, q.nodes[n])
    {
      DeliverKeepsNode(t, d, n, s.nodes[n]);
    }
    DeliverKeepsMsgs(t, s, q);
  }

  lemma TickKeepsNode(t: seq<nat>, d: nat, n: nat, x: Node)
    requires d < |t| && NodeOk(t, d, n, x)
    ensures NodeOk(t, d, n, Tick(x))
    ensures Tick(x).ends >= x.ends && Tick(x).heardFirst == x.heardFirst && Tick(x).joins == x.joins
    ensures Tick(x).ends != x.ends ==> Tick(x).ends == 1 && n == t[|t| - 1]
  {}

  lemma TickKeepsMsgs(t: seq<nat>, s: Net, n: nat, x: Node, ended: bool)
    requires |t| >= 2 && MsgsOk(t, s) && n in s.nodes && x.heardFirst == s.nodes[n].heardFirst
    requires if ended then x.ends == 1 && n == t[|t| - 1] else x.ends == s.nodes[n].ends
    ensures MsgsOk(t, s.(nodes := s.nodes[n := x], msgs := s.msgs + if ended then {Ended(n)} else {}))
  {}

  lemma TimeoutKeepsInv(t: seq<nat>, addrs: set<nat>, s: Net, n: nat)
    requires IsTour(t, addrs) && Inv(t, addrs, s) && Enabled(s, Step.Timeout(n))
    ensures Inv(t, addrs, Next(s, Step.Timeout(n)))
  {
    var x := Tick(s.nodes[n]);
    TickKeepsNode(t, |s.visits|, n, s.nodes[n]);
    TickKeepsMsgs(t, s, n, x, x.ends != s.nodes[n].ends);
  }

  lemma HearKeepsNode(t: seq<nat>, d: nat, n: nat, x: Node)
    requires d < |t| && NodeOk(t, d, n, x) && x.joins > 0
    ensures NodeOk(t, d, n, Hear(x)) && Hear(x).heardFirst && Hear(x).ends == x.ends
    ensures Hear(x).idents != x.idents <==> !x.heardFirst
  {}

  lemma HearKeepsMsgs(t: seq<nat>, s: Net, m: Msg, n: nat, x: Node, idents: bool)
    requires |t| >= 2 && MsgsOk(t, s) && n in s.nodes && m in s.msgs
    requires x.heardFirst && x.ends == s.nodes[n].ends && (idents <==> !s.nodes[n].heardFirst)
    ensures MsgsOk(t, s.(nodes := s.nodes[n := x], heard := s.heard + {(m, n)},
                         msgs := s.msgs + if idents then {Member(n)} else {}))
  {}

  lemma ReceiveKeepsInv(t: seq<nat>, addrs: set<nat>, s: Net, m: Msg, n: nat)
    requires IsTour(t, addrs) && Inv(t, addrs, s) && Enabled(s, Receive(m, n))
    ensures Inv(t, addrs, Next(s, Receive(m, n)))
  {
    var x := Hear(s.nodes[n]);
    HearKeepsNode(t, |s.visits|, n, s.nodes[n]);
    HearKeepsMsgs(t, s, m, n, x, x.idents != s.nodes[n].idents);
  }

  lemma InitialInv(t: seq<nat>, addrs: set<nat>)
    requires IsTour(t, addrs)
    ensures Inv(t, addrs, Initial(t, addrs))
  {
    assert t[..1] == [t[0]];
  }

  lemma HeardOneMore(s: Net, step: Step)
    requires Enabled(s, step)
    ensures |Next(s, step).heard| == |s.heard| + if step.Receive? then 1 else 0
  {}

  lemma StepKeepsInv(t: seq<nat>, addrs: set<nat>, s: Net, step: Step)
    requires IsTour(t, addrs) && Inv(t, addrs, s) && Enabled(s, step)
    ensures Inv(t, addrs, Next(s, step))
    ensures |Next(s, step).visits| == |s.visits| + if step.Deliver? then 1 else 0
    ensures |Next(s, step).heard| == |s.heard| + if step.Receive? then 1 else 0
  {
    HeardOneMore(s, step);
    match step
    case Deliver => DeliverKeepsInv(t, addrs, s);
    case Timeout(k) => TimeoutKeepsInv(t, addrs, s, k);
    case Receive(m, k) => ReceiveKeepsInv(t, addrs, s, m, k);
  }

  /** `s` is reached by `steps` in any interleaving of deliveries, timeouts and messages. */
  ghost predicate Reaches(t: seq<nat>, addrs: set<nat>, steps: seq<Step>, s: Net)
    requires IsTour(t, addrs)
    decreases |steps|
  {
    if steps == [] then s == Initial(t, addrs)
    else
      var n := |steps| - 1;
      exists q :: Reaches(t, addrs, steps[..n], q) && Enabled(q, steps[n]) && s == Next(q, steps[n])
  }

  function Receipts(steps: seq<Step>): nat {
    if steps == [] then 0 else Receipts(steps[..|steps| - 1]) + if steps[|steps| - 1].Receive? then 1 else 0
  }

  function Deliveries(steps: seq<Step>): nat {
    if steps == [] then 0 else Deliveries(steps[..|steps| - 1]) + if steps[|steps| - 1].Deliver? then 1 else 0
  }

  lemma {:induction false} ReachableInv(t: seq<nat>, addrs: set<nat>, steps: seq<Step>, s: Net)
    requires IsTour(t, addrs) && Reaches(t, addrs, steps, s)
    ensures Inv(t, addrs, s)
    ensures |s.visits| == Deliveries(steps) && |s.heard| == Receipts(steps)
    decreases |steps|
  {
    if steps == [] {
      InitialInv(t, addrs);
    } else {
      var n := |steps| - 1;
      var q :| Reaches(t, addrs, steps[..n], q) && Enabled(q, steps[n]) && s == Next(q, steps[n]);
      ReachableInv(t, addrs, steps[..n], q);
      StepKeepsInv(t, addrs, q, steps[n]);
    }
  }

  /** The tour visits the stops in order, never more than there are; the packet always names its
      real sender as the predecessor, and as long as it is in flight it can be delivered. */
  lemma VisitsInOrder(t: seq<nat>, addrs: set<nat>, steps: seq<Step>, s: Net)
    requires IsTour(t, addrs) && Reaches(t, addrs, steps, s)
    ensures s.visits <= t[1..] && Deliveries(steps) == |s.visits|
    ensures s.packet.None? <==> s.visits == t[1..]
    ensures s.packet.Some? ==> Enabled(s, Deliver) && s.packet.value.route.index > 0
    ensures s.packet.Some? ==> s.packet.value.route.payload[s.packet.value.route.index - 1] == s.packet.value.src
  {
    ReachableInv(t, addrs, steps, s);
    assert t[1..][..|s.visits|] == t[1..|s.visits| + 1];
  }

  /** Every node visited, however often, has joined the group once, and no other has. */
  lemma JoinsOnce(t: seq<nat>, addrs: set<nat>, steps: seq<Step>, s: Net, n: nat)
    requires IsTour(t, addrs) && Reaches(t, addrs, steps, s) && n in addrs
    ensures n in s.nodes && s.nodes[n].joins == if n == t[0] || n in s.visits then 1 else 0
  {
    ReachableInv(t, addrs, steps, s);
    assert NodeOk(t, |s.visits|, n, s.nodes[n]);
    FirstOrLater(t, |s.visits|, n);
  }

  lemma FirstOrLater(t: seq<nat>, d: nat, n: nat)
    requires d < |t|
    ensures n in t[..d + 1] <==> n == t[0] || n in t[1..d + 1]
  {
    assert t[..d + 1] == [t[0]] + t[1..d + 1];
  }

  /** The roll call: only the last stop ends the tour, once, after the last delivery; only
      members identify themselves, each once, and only after that. */
  lemma RollCall(t: seq<nat>, addrs: set<nat>, steps: seq<Step>, s: Net, n: nat)
    requires IsTour(t, addrs) && Reaches(t, addrs, steps, s) && n in addrs
    ensures n in s.nodes && s.nodes[n].ends <= 1 && s.nodes[n].idents <= 1
    ensures s.nodes[n].ends == 1 ==> n == t[|t| - 1] && s.packet.None?
    ensures s.nodes[n].ends == 1 <==> Ended(n) in s.msgs
    ensures s.nodes[n].idents == 1 <==> Member(n) in s.msgs
    ensures s.nodes[n].idents == 1 ==> n in t && Ended(t[|t| - 1]) in s.msgs && s.packet.None?
  {
    ReachableInv(t, addrs, steps, s);
    var last := t[|t| - 1];
    assert NodeOk(t, |s.visits|, n, s.nodes[n]);
    assert NodeOk(t, |s.visits|, last, s.nodes[last]);
    assert t[..|s.visits| + 1] <= t;
  }

  /** The timeouts of node `n` after the last delivery. */
  function LateTimeouts(steps: seq<Step>, n: nat): nat {
    if steps == [] || steps[|steps| - 1].Deliver? then 0
    else
      LateTimeouts(steps[..|steps| - 1], n) + if steps[|steps| - 1] == Step.Timeout(n) then 1 else 0
  }

  lemma {:induction false} TicksAreTimeouts(t: seq<nat>, addrs: set<nat>, steps: seq<Step>, s: Net)
    requires IsTour(t, addrs) && Reaches(t, addrs, steps, s)
    ensures var last := t[|t| - 1];
            last in s.nodes
            && s.nodes[last].ticks == if s.visits == t[1..] then LateTimeouts(steps, last) else 0
    decreases |steps|
  {
    ReachableInv(t, addrs, steps, s);
    if steps != [] {
      var n := |steps| - 1;
      var q :| Reaches(t, addrs, steps[..n], q) && Enabled(q, steps[n]) && s == Next(q, steps[n]);
      ReachableInv(t, addrs, steps[..n], q);
      TicksAreTimeouts(t, addrs, steps[..n], q);
      TicksOn(t, addrs, q, steps[n]);
    }
  }

  lemma WholeTour(t: seq<nat>, addrs: set<nat>, s: Net)
    requires IsTour(t, addrs) && Inv(t, addrs, s)
    ensures s.visits == t[1..] <==> |s.visits| + 1 == |t|
    ensures |s.visits| + 1 == |t| ==> s.packet.None?
    ensures var last := t[|t| - 1];
            && last in s.nodes && NodeOk(t, |s.visits|, last, s.nodes[last])
            && (s.nodes[last].stopPinging <==> |s.visits| + 1 == |t|)
  {
    assert NodeOk(t, |s.visits|, t[|t| - 1], s.nodes[t[|t| - 1]]);
  }

  /** The count of the last stop starts when the tour is over, and each of its timeouts adds one. */
  lemma TicksOn(t: seq<nat>, addrs: set<nat>, s: Net, step: Step)
    requires IsTour(t, addrs) && Inv(t, addrs, s) && Enabled(s, step) && Inv(t, addrs, Next(s, step))
    ensures var last, q := t[|t| - 1], Next(s, step);
            && last in s.nodes && last in q.nodes
            && (s.visits == t[1..] <==> |s.visits| + 1 == |t|) && (q.visits == t[1..] <==> |q.visits| + 1 == |t|)
            && (step.Deliver? ==> s.visits != t[1..] && q.nodes[last].ticks == s.nodes[last].ticks == 0)
            && (!step.Deliver? ==> q.visits == s.visits)
            && (!step.Deliver? ==> q.nodes[last].ticks == s.nodes[last].ticks
                                     + if step == Step.Timeout(last) && s.visits == t[1..] then 1 else 0)
  {
    WholeTour(t, addrs, s);
    WholeTour(t, addrs, Next(s, step));
  }

  /** The end message is sent: it has been sent if and only if the tour is over and the last stop
      has had five timeouts since. */
  lemma EndedAfterFive(t: seq<nat>, addrs: set<nat>, steps: seq<Step>, s: Net)
    requires IsTour(t, addrs) && Reaches(t, addrs, steps, s)
    ensures Ended(t[|t| - 1]) in s.msgs <==> Deliveries(steps) == |t| - 1 && LateTimeouts(steps, t[|t| - 1]) >= 5
  {
    var last := t[|t| - 1];
    ReachableInv(t, addrs, steps, s);
    TicksAreTimeouts(t, addrs, steps, s);
    WholeTour(t, addrs, s);
    RollCall(t, addrs, steps, s, last);
  }

  /** When the tour has been ended and every message has reached all members, the roll is
      complete: every node on the tour has identified itself. */
  lemma RollIsComplete(t: seq<nat>, addrs: set<nat>, steps: seq<Step>, s: Net, n: nat)
    requires IsTour(t, addrs) && Reaches(t, addrs, steps, s) && n in t
    requires Ended(t[|t| - 1]) in s.msgs && forall m, k :: !Enabled(s, Receive(m, k))
    ensures n in s.nodes && s.nodes[n].idents == 1 && Member(n) in s.msgs
  {
    ReachableInv(t, addrs, steps, s);
    var last := t[|t| - 1];
    assert NodeOk(t, |s.visits|, last, s.nodes[last]);
    assert t[..|s.visits| + 1] == t;
    assert NodeOk(t, |s.visits|, n, s.nodes[n]);
    assert !Enabled(s, Receive(Ended(last), n));
    assert (Ended(last), n) in s.heard;
  }

  lemma ReachesOn(t: seq<nat>, addrs: set<nat>, steps: seq<Step>, s: Net, step: Step)
    requires IsTour(t, addrs) && Reaches(t, addrs, steps, s) && Enabled(s, step)
    ensures Reaches(t, addrs, steps + [step], Next(s, step))
  {
    assert (steps + [step])[..|steps|] == steps;
  }

  /** The stops that have not heard of the end yet. */
  function Unheard(t: seq<nat>, nodes: map<nat, Node>): nat
    requires forall i :: 0 <= i < |t| ==> t[i] in nodes
  {
    if t == [] then 0 else Unheard(t[..|t| - 1], nodes) + if nodes[t[|t| - 1]].heardFirst then 0 else 1
  }

  lemma {:induction false} UnheardFalls(t: seq<nat>, was: map<nat, Node>, n: nat, x: Node)
    requires (forall i :: 0 <= i < |t| ==> t[i] in was) && n in was && x.heardFirst
    ensures Unheard(t, was[n := x]) <= Unheard(t, was)
    ensures n in t && !was[n].heardFirst ==> Unheard(t, was[n := x]) < Unheard(t, was)
  {
    if t != [] {
      UnheardFalls(t[..|t| - 1], was, n, x);
    }
  }

  lemma {:induction false} SomeUnheard(t: seq<nat>, nodes: map<nat, Node>) returns (n: nat)
    requires (forall i :: 0 <= i < |t| ==> t[i] in nodes) && Unheard(t, nodes) > 0
    ensures n in t && !nodes[n].heardFirst
  {
    n := t[|t| - 1];
    if nodes[n].heardFirst {
      n := SomeUnheard(t[..|t| - 1], nodes);
    }
  }

  lemma {:induction false} AllHeard(t: seq<nat>, nodes: map<nat, Node>, n: nat)
    requires (forall i :: 0 <= i < |t| ==> t[i] in nodes) && Unheard(t, nodes) == 0 && n in t
    ensures nodes[n].heardFirst
  {
    if n != t[|t| - 1] {
      AllHeard(t[..|t| - 1], nodes, n);
    }
  }

  /** How many timeouts the end message still takes. */
  function TicksLeft(t: seq<nat>, s: Net): int
    requires |t| >= 2 && t[|t| - 1] in s.nodes
  {
    Max(0, 5 - s.nodes[t[|t| - 1]].ticks)
  }

  ghost predicate Called(t: seq<nat>, s: Net) {
    forall n :: n in t ==> n in s.nodes && s.nodes[n].idents == 1 && Member(n) in s.msgs
  }

  /** What is still to be done before the roll is complete: deliveries, timeouts and receipts. */
  function ToDo(t: seq<nat>, s: Net): (int, int, int)
    requires |t| >= 2 && forall i :: 0 <= i < |t| ==> t[i] in s.nodes
  {
    (|t| - 1 - |s.visits|, TicksLeft(t, s), Unheard(t, s.nodes))
  }

  ghost predicate Less(a: (int, int, int), b: (int, int, int)) {
    && a.0 >= 0 && a.1 >= 0 && a.2 >= 0
    && (a.0 < b.0 || (a.0 == b.0 && (a.1 < b.1 || (a.1 == b.1 && a.2 < b.2))))
  }

  /** Nothing is left to be done. */
  predicate Complete(t: seq<nat>, s: Net)
    requires |t| >= 2 && forall i :: 0 <= i < |t| ==> t[i] in s.nodes
  {
    s.packet.None? && TicksLeft(t, s) == 0 && Unheard(t, s.nodes) == 0
  }

  /** The step can be taken and leaves less to be done. */
  ghost predicate Nearer(t: seq<nat>, s: Net, step: Step)
    requires |t| >= 2 && forall i :: 0 <= i < |t| ==> t[i] in s.nodes
  {
    && Enabled(s, step) && (forall i :: 0 <= i < |t| ==> t[i] in Next(s, step).nodes)
    && Less(ToDo(t, Next(s, step)), ToDo(t, s))
  }

  lemma StopsAreNodes(t: seq<nat>, addrs: set<nat>, s: Net)
    requires IsTour(t, addrs) && Inv(t, addrs, s)
    ensures forall i :: 0 <= i < |t| ==> t[i] in s.nodes && NodeOk(t, |s.visits|, t[i], s.nodes[t[i]])
  {}

  lemma DeliveryIsNext(t: seq<nat>, addrs: set<nat>, s: Net)
    requires IsTour(t, addrs) && Inv(t, addrs, s) && s.packet.Some?
    requires forall i :: 0 <= i < |t| ==> t[i] in s.nodes
    ensures Nearer(t, s, Deliver)
  {
    assert s.packet.value.dst == t[|s.visits| + 1];
  }

  lemma TimeoutIsNext(t: seq<nat>, addrs: set<nat>, s: Net)
    requires IsTour(t, addrs) && Inv(t, addrs, s) && s.packet.None?
    requires (forall i :: 0 <= i < |t| ==> t[i] in s.nodes) && TicksLeft(t, s) > 0
    ensures Nearer(t, s, Step.Timeout(t[|t| - 1]))
  {
    WholeTour(t, addrs, s);
  }

  lemma ReceiptIsNext(t: seq<nat>, addrs: set<nat>, s: Net, n: nat)
    requires IsTour(t, addrs) && Inv(t, addrs, s) && s.packet.None?
    requires forall i :: 0 <= i < |t| ==> t[i] in s.nodes
    requires TicksLeft(t, s) == 0 && n in t && !s.nodes[n].heardFirst
    ensures Nearer(t, s, Receive(Ended(t[|t| - 1]), n))
  {
    MayHear(t, addrs, s, n);
    UnheardFalls(t, s.nodes, n, Hear(s.nodes[n]));
    assert Next(s, Receive(Ended(t[|t| - 1]), n)).nodes == s.nodes[n := Hear(s.nodes[n])];
  }

  lemma MayHear(t: seq<nat>, addrs: set<nat>, s: Net, n: nat)
    requires IsTour(t, addrs) && Inv(t, addrs, s) && s.packet.None? && t[|t| - 1] in s.nodes
    requires TicksLeft(t, s) == 0 && n in t && n in s.nodes && !s.nodes[n].heardFirst
    ensures Enabled(s, Receive(Ended(t[|t| - 1]), n))
  {
    WholeTour(t, addrs, s);
    assert t[..|s.visits| + 1] == t;
    assert NodeOk(t, |s.visits|, n, s.nodes[n]);
    var last := t[|t| - 1];
    assert s.nodes[last].ends == 1 && Ended(last) in s.msgs;
  }

  /** The next thing to do can be done. */
  lemma OneNearer(t: seq<nat>, addrs: set<nat>, s: Net) returns (step: Step)
    requires IsTour(t, addrs) && Inv(t, addrs, s)
    requires (forall i :: 0 <= i < |t| ==> t[i] in s.nodes) && !Complete(t, s)
    ensures Nearer(t, s, step)
  {
    var last := t[|t| - 1];
    if s.packet.Some? {
      step := Deliver;
      DeliveryIsNext(t, addrs, s);
    } else if TicksLeft(t, s) > 0 {
      step := Step.Timeout(last);
      TimeoutIsNext(t, addrs, s);
    } else {
      var n := SomeUnheard(t, s.nodes);
      step := Receive(Ended(last), n);
      ReceiptIsNext(t, addrs, s, n);
    }
  }

  lemma NothingToDo(t: seq<nat>, addrs: set<nat>, s: Net)
    requires IsTour(t, addrs) && Inv(t, addrs, s) && (forall i :: 0 <= i < |t| ==> t[i] in s.nodes)
    requires Complete(t, s)
    ensures s.visits == t[1..] && Called(t, s)
  {
    WholeTour(t, addrs, s);
    forall n | n in t ensures n in s.nodes && s.nodes[n].idents == 1 && Member(n) in s.msgs {
      AllHeard(t, s.nodes, n);
      assert NodeOk(t, |s.visits|, n, s.nodes[n]);
    }
  }

  /** From every reachable state the tour can be finished and the whole roll be called. */
  lemma {:induction false} CanCallTheRoll(t: seq<nat>, addrs: set<nat>, steps: seq<Step>, s: Net)
    returns (more: seq<Step>, q: Net)
    requires IsTour(t, addrs) && Reaches(t, addrs, steps, s)
    ensures Reaches(t, addrs, steps + more, q) && q.visits == t[1..] && Called(t, q)
    decreases |t| - 1 - |s.visits|, if t[|t| - 1] in s.nodes then TicksLeft(t, s) else 0,
              if forall i :: 0 <= i < |t| ==> t[i] in s.nodes then Unheard(t, s.nodes) else 0
  {
    ReachableInv(t, addrs, steps, s);
    StopsAreNodes(t, addrs, s);
    if Complete(t, s) {
      NothingToDo(t, addrs, s);
      assert steps + [] == steps;
      return [], s;
    }
    var step := OneNearer(t, addrs, s);
    ReachesOn(t, addrs, steps, s, step);
    more, q := CanCallTheRoll(t, addrs, steps + [step], Next(s, step));
    JoinSteps(steps, step, more);
    more := [step] + more;
  }

  lemma JoinSteps(steps: seq<Step>, step: Step, more: seq<Step>)
    ensures steps + [step] + more == steps + ([step] + more)
  {}

  /** All that can ever be received in the roll call of a tour. */
  function AllReceipts(t: seq<nat>): set<(Msg, nat)>
    requires |t| >= 2
  {
    set m, n | m in ({Ended(t[|t| - 1])} + set k | k in t :: Member(k)) && n in t :: (m, n)
  }

  /** The roll call ends: however the run goes on, the number of messages received is bounded
      by the tour alone. */
  lemma RollCallEnds(t: seq<nat>, addrs: set<nat>, steps: seq<Step>, s: Net)
    requires IsTour(t, addrs) && Reaches(t, addrs, steps, s)
    ensures s.heard <= AllReceipts(t) && Receipts(steps) <= |AllReceipts(t)|
  {
    ReachableInv(t, addrs, steps, s);
    forall h | h in s.heard
      ensures h in AllReceipts(t)
    {
      RollCall(t, addrs, steps, s, h.0.sender);
      RollCall(t, addrs, steps, s, h.1);
    }
    Subset(s.heard, AllReceipts(t));
  }

  lemma {:induction false} Subset<T>(a: set<T>, b: set<T>)
    requires a <= b
    ensures |a| <= |b|
  {
    if a != {} {
      var x :| x in a;
      Subset(a - {x}, b - {x});
    }
  }
}
