/**
 The result list of getaddrinfo: ga_aistruct appends one node for each address, and ga_port
 walks the list once for each socket type, inserting clones into the list it is walking.
 */
module AddrInfo {
  import opened Common
  import opened Fields

  datatype Family = Inet | Inet6 | Local

  const SOCK_STREAM := 1
  const SOCK_DGRAM := 2

  /** The part of a sockaddr that is changed after its creation, in a buffer of its own. */
  class SockAddr {
    const address: seq<Byte>
    var port: int

    constructor (address: seq<Byte>, port: int)
      ensures this.address == address && this.port == port
    {
      this.address, this.port := address, port;
    }
  }

  /** An addrinfo.  The only flag that matters here is AI_CLONE. */
  class Node {
    var clone: bool
    const family: Family
    var socktype: int
    const protocol: int
    const addr: SockAddr?   // null if there was no memory for it
    var canonname: Option<string>
    var next: Node?

    constructor (clone: bool, family: Family, socktype: int, protocol: int, addr: SockAddr?, next: Node?)
      ensures this.clone == clone && this.family == family && this.socktype == socktype
      ensures this.protocol == protocol && this.addr == addr && this.next == next && canonname == None
    {
      this.clone, this.family, this.socktype, this.protocol := clone, family, socktype, protocol;
      this.addr, this.next, canonname := addr, next, None;
    }

    /** What the caller sees of the node. */
    function View(): Info
      reads this, addr
    {
      Info(clone, family, socktype, protocol, if addr == null then [] else addr.address,
           if addr == null then 0 else addr.port, canonname)
    }
  }

  datatype Info = Info(
    clone: bool, family: Family, socktype: int, protocol: int, address: seq<Byte>, port: int,
    canonname: Option<string>)

  /** The links lead from `head` through exactly these nodes to `tail`. */
  ghost predicate Chain(head: Node?, nodes: seq<Node>, tail: Node?)
    reads nodes
  {
    if nodes == [] then head == tail
    else
      var front, last := nodes[..|nodes| - 1], nodes[|nodes| - 1];
      last.next == tail && Chain(head, front, last)
  }

  function Addrs(nodes: seq<Node>): set<SockAddr?> {
    set n | n in nodes :: n.addr
  }

  /** `foot` holds everything that a walk of the list may write to. */
  ghost predicate Within(nodes: seq<Node>, foot: set<object>) {
    forall n :: n in nodes ==> n in foot && (n.addr != null ==> n.addr in foot)
  }

  /** No node occurs twice, and each has an address buffer that it shares with no other. */
  ghost predicate Separate(nodes: seq<Node>) {
    nodes == [] ||
    var front, last := nodes[..|nodes| - 1], nodes[|nodes| - 1];
    last !in front && last.addr != null && last.addr !in Addrs(front) && Separate(front)
  }

  /** The list as its user sees it. */
  ghost function Views(nodes: seq<Node>): (v: seq<Info>)
    reads nodes, Addrs(nodes)
    ensures |v| == |nodes|
  {
    if nodes == [] then [] else
    var front, last := nodes[..|nodes| - 1], nodes[|nodes| - 1];
    assert forall n :: n in front ==> n in nodes;
    Views(front) + [last.View()]
  }

  ghost predicate Whole(head: Node?, nodes: seq<Node>, tail: Node?, v: seq<Info>)
    reads nodes, Addrs(nodes)
  {
    Chain(head, nodes, tail) && Separate(nodes) && Views(nodes) == v
  }

  /** A node behind the last one. */
  lemma Snoc(head: Node?, nodes: seq<Node>, n: Node, v: seq<Info>)
    requires Whole(head, nodes, n, v) && n !in nodes && n.addr != null && n.addr !in Addrs(nodes)
    ensures Whole(head, nodes + [n], n.next, v + [n.View()])
    ensures Addrs(nodes + [n]) == Addrs(nodes) + {n.addr}
  {
    assert (nodes + [n])[..|nodes|] == nodes;
  }

  /** A node in front of the first one. */
  lemma {:induction false} Cons(n: Node, rest: seq<Node>, tail: Node?, w: seq<Info>)
    requires Whole(n.next, rest, tail, w) && n !in rest && n.addr != null && n.addr !in Addrs(rest)
    ensures Whole(n, [n] + rest, tail, [n.View()] + w)
  {
    if rest == [] {
      Snoc(n, [], n, []);
      assert [] + [n] == [n] + rest && [] + [n.View()] == [n.View()] + w;
    } else {
      var front, last := rest[..|rest| - 1], rest[|rest| - 1];
      assert last in rest && forall k :: k in front ==> k in rest;
      Cons(n, front, last, Views(front));
      Snoc(n, [n] + front, last, [n.View()] + Views(front));
      Rejoin(n, rest);
      Rejoin(n.View(), w);
    }
  }

  lemma Rejoin<T>(x: T, s: seq<T>)
    requires s != []
    ensures [x] + s == [x] + s[..|s| - 1] + [s[|s| - 1]]
  {}

  /** The node in front. */
  lemma {:induction false} Peel(head: Node?, nodes: seq<Node>, tail: Node?, v: seq<Info>)
    requires Whole(head, nodes, tail, v) && nodes != []
    ensures v != [] && head == nodes[0] && nodes[0].View() == v[0]
    ensures Whole(nodes[0].next, nodes[1..], tail, v[1..])
    ensures nodes[0] !in nodes[1..] && nodes[0].addr != null && nodes[0].addr !in Addrs(nodes[1..])
  {
    var front, last := nodes[..|nodes| - 1], nodes[|nodes| - 1];
    if front == [] {
      assert Chain(head, front, last) && Views(front) == [] && nodes[1..] == [] && v[1..] == [];
    } else {
      Peel(head, front, last, Views(front));
      Snoc(front[0].next, front[1..], last, Views(front)[1..]);
      assert nodes[1..] == front[1..] + [last];
      assert v[1..] == Views(front)[1..] + [last.View()];
    }
  }

  lemma Ends(head: Node?, nodes: seq<Node>, v: seq<Info>)
    requires Whole(head, nodes, null, v)
    ensures head == null <==> nodes == []
    ensures nodes != [] ==> head == nodes[0]
  {
    if nodes != [] {
      Peel(head, nodes, null, v);
    }
  }

  // ------------------------------------------------------------ what one call does to a list

  datatype Call = Call(port: int, socktype: int)

  /** The socket type, and the port where the address family has one. */
  function Stamp(x: Info, c: Call): Info {
    x.(socktype := c.socktype, port := if x.family.Local? then x.port else c.port)
  }

  /** A clone has AI_CLONE off and no canonical name. */
  function Copy(x: Info): Info {
    x.(clone := false, canonname := None)
  }

  /** What becomes of one node. */
  function Expand(x: Info, c: Call): (r: seq<Info>)
    ensures r != []
  {
    if x.clone && x.socktype != 0 then [x, Stamp(Copy(x), c)]
    else if x.clone || x.socktype == c.socktype then [Stamp(x, c)]
    else [x]
  }

  function ExpandAll(v: seq<Info>, c: Call): seq<Info> {
    if v == [] then [] else ExpandAll(v[..|v| - 1], c) + Expand(v[|v| - 1], c)
  }

  /** The number of ports set. */
  function Hits(v: seq<Info>, c: Call): nat {
    if v == [] then 0 else Hits(v[..|v| - 1], c) + Hit(v[|v| - 1], c)
  }

  function Hit(x: Info, c: Call): nat {
    if (x.clone || x.socktype == c.socktype) && !x.family.Local? then 1 else 0
  }

  /** The clones a call makes.  Each takes two allocations. */
  function Needs(v: seq<Info>): nat {
    if v == [] then 0 else Needs(v[..|v| - 1]) + Need(v[|v| - 1])
  }

  function Need(x: Info): nat {
    if x.clone && x.socktype != 0 then 1 else 0
  }

  // ------------------------------------------------------------ the list in the heap

  /** ga_clone: a copy of the node, with its own address buffer, goes in behind it.  `memory` is
      the number of allocations that succeed. */
  method GaClone(ai: Node, memory: nat) returns (n: Node?, left: nat)
    requires ai.addr != null
    modifies ai`next
    ensures n == null <==> memory < 2
    ensures n != null ==>
              && left == memory - 2 && fresh(n) && n.addr != null && fresh(n.addr)
              && ai.next == n && n.next == old(ai.next)
              && n.View() == Copy(ai.View())
    ensures memory == 0 ==> ai.next == old(ai.next)
    ensures memory == 1 ==> ai.next != null && fresh(ai.next) && ai.next.addr == null && ai.next.next == old(ai.next)
  {
    if memory == 0 {
      return null, 0;
    }
    if memory == 1 {
      var blank := new Node(false, ai.family, ai.socktype, ai.protocol, null, ai.next);
      ai.next := blank;
      return null, 0;
    }
    var addr := new SockAddr(ai.addr.address, ai.addr.port);
    n := new Node(false, ai.family, ai.socktype, ai.protocol, addr, ai.next);
    ai.next := n;
    left := memory - 2;
  }

  /** One turn of the loop of ga_port.  `at` is the node the walk has got to. */
  method Visit(ai: Node, c: Call, memory: nat) returns (at: Node?, found: nat, left: nat)
    requires ai.addr != null
    modifies ai, ai.addr
    ensures at == null <==> memory < 2 * old(Need(ai.View()))
    ensures at != null ==>
              && found == old(Hit(ai.View(), c)) && left == memory - 2 * old(Need(ai.View()))
              && at.next == old(ai.next) && at.addr != null
              && old(Expand(ai.View(), c)) == (if at == ai then [ai.View()] else [ai.View(), at.View()])
              && (at != ai ==> fresh(at) && fresh(at.addr) && ai.next == at)
  {
    at, found, left := ai, 0, memory;
    if ai.clone {
      if ai.socktype != 0 {
        at, left := GaClone(ai, memory);
        if at == null {
          return;
        }
      }
    } else if ai.socktype != c.socktype {
      return;
    }
    at.socktype := c.socktype;
    if at.family.Inet? || at.family.Inet6? {
      at.addr.port := c.port;
      found := 1;
    }
  }

  lemma ExpandOneMore(v: seq<Info>, k: nat, c: Call)
    requires k < |v|
    ensures ExpandAll(v[..k + 1], c) == ExpandAll(v[..k], c) + Expand(v[k], c)
    ensures Hits(v[..k + 1], c) == Hits(v[..k], c) + Hit(v[k], c)
    ensures Needs(v[..k + 1]) == Needs(v[..k]) + Need(v[k])
  {
    assert v[..k + 1][..k] == v[..k];
  }

  lemma {:induction false} NeedsGrows(v: seq<Info>, k: nat)
    requires k <= |v|
    ensures Needs(v[..k]) <= Needs(v)
  {
    if k < |v| {
      NeedsGrows(v[..|v| - 1], k);
      assert v[..|v| - 1][..k] == v[..k];
    } else {
      assert v[..k] == v;
    }
  }

  lemma WithinOn(done: seq<Node>, now: seq<Node>, ai: Node, foot: set<object>, grown: set<object>, more: set<object>)
    requires Within(done, grown) && Within([ai], foot) && foot <= grown
    requires forall n :: n in now ==> n in done || n == ai || (n in more && n.addr != null && n.addr in more)
    ensures Within(now, grown + more)
  {
    assert ai in [ai];
  }

  /** The counts of the walk after the first `k` nodes. */
  ghost predicate Walked(v: seq<Info>, k: nat, c: Call, nfound: int, left: nat, memory: nat) {
    k <= |v| && nfound == Hits(v[..k], c) && memory == left + 2 * Needs(v[..k])
  }

  lemma WalkOn(v: seq<Info>, k: nat, c: Call, nfound: int, left: nat, memory: nat)
    requires Walked(v, k, c, nfound, left, memory) && k < |v|
    ensures left < 2 * Need(v[k]) ==> memory < 2 * Needs(v)
    ensures left >= 2 * Need(v[k]) ==> Walked(v, k + 1, c, nfound + Hit(v[k], c), left - 2 * Need(v[k]), memory)
    ensures ExpandAll(v[..k + 1], c) == ExpandAll(v[..k], c) + Expand(v[k], c)
    ensures v[k..] != [] && v[k..][0] == v[k] && v[k..][1..] == v[k + 1..]
  {
    NeedsGrows(v, k + 1);
    ExpandOneMore(v, k, c);
  }

  /** The part of the list that the walk has done and the part ahead have nothing in common. */
  ghost predicate Apart(done: seq<Node>, rest: seq<Node>) {
    (forall n :: n in rest ==> n !in done) && Addrs(rest) !! Addrs(done)
  }

  /** Where the walk stands: `now` is done, `rest` is still ahead from `ai` on. */
  ghost predicate Walking(head: Node?, ai: Node?, now: seq<Node>, rest: seq<Node>, v: seq<Info>, k: nat, c: Call)
    reads now, rest, Addrs(now), Addrs(rest)
  {
    && k <= |v| && |rest| == |v| - k && Apart(now, rest)
    && Whole(head, now, ai, ExpandAll(v[..k], c)) && Whole(ai, rest, null, v[k..])
  }

  /** One turn of the walk. */
  method Walk(head: Node?, ai: Node, ghost now: seq<Node>, ghost rest: seq<Node>,
              ghost foot: set<object>, ghost grown: set<object>,
              ghost v: seq<Info>, ghost k: nat, c: Call, nfound: nat, memory: nat, ghost whole: nat)
    returns (ok: bool, next: Node?, total: nat, left: nat, ghost gone: seq<Node>, ghost more: set<object>)
    requires Walking(head, ai, now, rest, v, k, c) && Walked(v, k, c, nfound, memory, whole)
    requires Within(rest, foot) && Within(now, grown) && foot <= grown
    modifies foot
    ensures k < |v| && rest != [] && fresh(more)
    ensures !ok ==> whole < 2 * Needs(v)
    ensures ok ==>
              && Walking(head, next, gone, rest[1..], v, k + 1, c) && Walked(v, k + 1, c, total, left, whole)
              && Within(rest[1..], foot) && Within(gone, grown + more)
  {
    Ends(ai, rest, v[k..]);
    assert ai in rest;
    WalkOn(v, k, c, nfound, memory, whole);
    var found;
    ok, next, found, left, gone, more := Turn(head, ai, now, rest, ExpandAll(v[..k], c), v[k..], c, memory);
    total := nfound + found;
    if ok {
      WithinOn(now, gone, ai, foot, grown, more);
    }
  }

  /** ga_port.  The walk ends although the list grows under it, and the list becomes exactly
      what the call does to each of its nodes in turn.  It fails exactly if there is no memory
      for all the clones. */
  method GaPort(head: Node?, ghost nodes: seq<Node>, ghost foot: set<object>, ghost v: seq<Info>, c: Call, memory: nat)
    returns (nfound: int, left: nat, ghost now: seq<Node>, ghost grown: set<object>)
    requires Whole(head, nodes, null, v) && Within(nodes, foot)
    modifies foot
    ensures nfound == if memory < 2 * Needs(v) then -1 else Hits(v, c)
    ensures nfound >= 0 ==> Whole(head, now, null, ExpandAll(v, c)) && left == memory - 2 * Needs(v)
    ensures Within(now, grown) && foot <= grown && fresh(grown - foot)
  {
    nfound, left, now, grown := 0, memory, [], foot;
    var ai := head;
    ghost var rest, k := nodes, 0;
    while ai != null
      invariant Walking(head, ai, now, rest, v, k, c) && Walked(v, k, c, nfound, left, memory)
      invariant Within(rest, foot) && Within(now, grown)
      invariant foot <= grown && fresh(grown - foot)
      decreases |rest|
    {
      var ok;
      ghost var more;
      ok, ai, nfound, left, now, more := Walk(head, ai, now, rest, foot, grown, v, k, c, nfound, left, memory);
      if !ok {
        return -1, 0, [], foot;
      }
      grown, rest, k := grown + more, rest[1..], k + 1;
    }
    Ends(ai, rest, v[k..]);
    assert v[..k] == v;
  }

  lemma ApartFromHead(done: seq<Node>, rest: seq<Node>)
    requires Apart(done, rest) && rest != []
    ensures rest[0] !in done && rest[0].addr !in Addrs(done) && Apart(done, rest[1..])
  {
    assert rest[0] in rest && rest[0].addr in Addrs(rest);
    assert forall n :: n in rest[1..] ==> n in rest;
  }

  lemma ApartStill(done: seq<Node>, now: seq<Node>, tail: seq<Node>, ai: Node, at: Node)
    requires Apart(done, tail) && now == done + (if at == ai then [ai] else [ai, at])
    requires ai !in tail && at !in tail && ai.addr !in Addrs(tail) && at.addr !in Addrs(tail)
    ensures Apart(now, tail)
  {}

  /** The turn of the loop, seen in the whole list; `more` is what has been allocated. */
  method Turn(head: Node?, ai: Node, ghost done: seq<Node>, ghost rest: seq<Node>,
              ghost d: seq<Info>, ghost r: seq<Info>, c: Call, memory: nat)
    returns (ok: bool, next: Node?, found: nat, left: nat, ghost now: seq<Node>, ghost more: set<object>)
    requires Whole(head, done, ai, d) && Whole(ai, rest, null, r) && Apart(done, rest)
    modifies ai, ai.addr
    ensures r != [] && (ok <==> memory >= 2 * Need(r[0])) && fresh(more)
    ensures ok ==>
              && Whole(head, now, next, d + Expand(r[0], c)) && Whole(next, rest[1..], null, r[1..])
              && found == Hit(r[0], c) && left == memory - 2 * Need(r[0])
              && Apart(now, rest[1..])
              && forall n :: n in now ==> n in done || n == ai || (n in more && n.addr != null && n.addr in more)
  {
    Ends(ai, rest, r);
    Peel(ai, rest, null, r);
    ApartFromHead(done, rest);
    var at: Node?;
    at, found, left := VisitApart(head, ai, done, rest[1..], d, r, c, memory);
    ok, next, now, more := at != null, null, done, {};
    if ok {
      next := at.next;
      now := done + if at == ai then [ai] else [ai, at];
      if at != ai {
        more := {at, at.addr};
      }
      Extend(head, done, ai, at, d, Expand(r[0], c));
      ApartStill(done, now, rest[1..], ai, at);
    }
  }

  /** The visit leaves the nodes on both sides alone. */
  method VisitApart(head: Node?, ai: Node, ghost done: seq<Node>, ghost tail: seq<Node>,
                    ghost d: seq<Info>, ghost r: seq<Info>, c: Call, memory: nat)
    returns (at: Node?, found: nat, left: nat)
    requires Whole(head, done, ai, d) && r != [] && ai.View() == r[0] && Whole(ai.next, tail, null, r[1..])
    requires ai !in done && ai !in tail && ai.addr != null && ai.addr !in Addrs(done) && ai.addr !in Addrs(tail)
    modifies ai, ai.addr
    ensures at == null <==> memory < 2 * Need(r[0])
    ensures at != null ==>
              && Whole(head, done, ai, d) && Whole(at.next, tail, null, r[1..])
              && found == Hit(r[0], c) && left == memory - 2 * Need(r[0]) && at.addr != null
              && (at != ai ==> fresh(at) && fresh(at.addr) && ai.next == at)
              && Expand(r[0], c) == (if at == ai then [ai.View()] else [ai.View(), at.View()])
  {
    at, found, left := Visit(ai, c, memory);
  }

  /** One node, or a node and its clone, behind the part that is done. */
  lemma Extend(head: Node?, done: seq<Node>, ai: Node, at: Node, d: seq<Info>, e: seq<Info>)
    requires Whole(head, done, ai, d) && ai !in done && ai.addr != null && ai.addr !in Addrs(done)
    requires if at == ai then e == [ai.View()] else e == [ai.View(), at.View()]
    requires at.addr != null
    requires at != ai ==> ai.next == at && at !in done && at.addr !in Addrs(done) + {ai.addr}
    ensures Whole(head, done + if at == ai then [ai] else [ai, at], at.next, d + e)
    ensures Addrs(done + if at == ai then [ai] else [ai, at]) == Addrs(done) + {ai.addr, at.addr}
  {
    Snoc(head, done, ai, d);
    if at != ai {
      Snoc(head, done + [ai], at, d + [ai.View()]);
      assert done + [ai] + [at] == done + [ai, at];
      assert d + [ai.View()] + [at.View()] == d + e;
    }
  }

  // ------------------------------------------------------------ ga_aistruct and ga_serv

  datatype Rc = Ok | EaiNoname | EaiService | EaiMemory

  /** The size of sun_path. */
  const SUN_PATH := 108

  /** A node as ga_aistruct fills it in. */
  function NewHost(family: Family, address: seq<Byte>, socktype: int, protocol: int): Info {
    Info(socktype == 0, family, socktype, protocol, address, 0, None)
  }

  method Allocate(family: Family, address: seq<Byte>, socktype: int, protocol: int) returns (ai: Node)
    ensures fresh(ai) && ai.addr != null && fresh(ai.addr) && ai.next == null
    ensures ai.View() == NewHost(family, address, socktype, protocol)
  {
    var sa := new SockAddr(address, 0);
    ai := new Node(socktype == 0, family, socktype, protocol, sa, null);
  }

  lemma Outside(nodes: seq<Node>, foot: set<object>, ai: Node)
    requires Within(nodes, foot) && ai !in foot && ai.addr != null && ai.addr !in foot
    ensures ai !in nodes && ai.addr !in Addrs(nodes)
  {}

  /** The list under construction: `last` is the node that holds the tail pointer. */
  class Result {
    var head: Node?
    var last: Node?
    ghost var nodes: seq<Node>
    ghost var foot: set<object>

    constructor ()
      ensures head == null && nodes == [] && foot == {} && Valid([])
    {
      head, last, nodes, foot := null, null, [], {};
    }

    ghost predicate Valid(v: seq<Info>)
      reads this, nodes, Addrs(nodes)
    {
      && Whole(head, nodes, null, v) && last == (if nodes == [] then null else nodes[|nodes| - 1])
      && Within(nodes, foot) && (last != null ==> last in foot)
    }

    /** ga_aistruct.  When it fails the node may already be in the list without an address.  A
        Unix-domain path that a server is to bind is unlinked. */
    method GaAistruct(ghost v: seq<Info>, family: Family, address: seq<Byte>, socktype: int, protocol: int,
                      passive: bool, memory: nat)
      returns (rc: Rc, unlinked: bool)
      requires Valid(v)
      modifies this, last
      ensures rc.EaiService? <==> memory >= 1 && family.Local? && |address| >= 108
      ensures rc.EaiMemory? <==> memory == 0 || (memory == 1 && !(family.Local? && |address| >= 108))
      ensures rc.EaiService? || rc.EaiMemory? || rc.Ok?
      ensures rc.Ok? ==> Valid(v + [NewHost(family, address, socktype, protocol)])
      ensures rc.Ok? ==> |nodes| == |old(nodes)| + 1 && fresh(foot - old(foot))
      ensures unlinked <==> passive && family.Local? && |address| < SUN_PATH && memory >= 2
    {
      unlinked := false;
      if memory == 0 {
        return EaiMemory, false;
      }
      if family.Local? && |address| >= SUN_PATH {
        AppendBlank(v, family, socktype, protocol);
        return EaiService, false;
      }
      if memory == 1 {
        AppendBlank(v, family, socktype, protocol);
        return EaiMemory, false;
      }
      AppendNew(v, family, address, socktype, protocol);
      rc := Ok;
      if family.Local? {
        unlinked := passive;
      }
    }

    method AppendNew(ghost v: seq<Info>, family: Family, address: seq<Byte>, socktype: int, protocol: int)
      requires Valid(v)
      modifies this, last
      ensures Valid(v + [NewHost(family, address, socktype, protocol)])
      ensures |nodes| == |old(nodes)| + 1 && fresh(foot - old(foot))
    {
      var ai := Allocate(family, address, socktype, protocol);
      Append(v, ai);
    }

    /** A node without an address: the list is of no more use than to be freed. */
    method AppendBlank(ghost v: seq<Info>, family: Family, socktype: int, protocol: int)
      requires Valid(v)
      modifies this, last
      ensures nodes == old(nodes) && last != null && last.addr == null
    {
      var blank := new Node(socktype == 0, family, socktype, protocol, null, null);
      Link(v, blank);
      last := blank;
    }

    /** A finished node goes to the end of the list. */
    method Append(ghost v: seq<Info>, ai: Node)
      requires Valid(v) && ai.next == null && ai.addr != null
      requires ai !in foot && ai.addr !in foot
      modifies this, last
      ensures Valid(v + [old(ai.View())]) && nodes == old(nodes) + [ai] && foot == old(foot) + {ai, ai.addr}
    {
      Outside(nodes, foot, ai);
      Link(v, ai);
      Take(v, ai);
    }

    /** The tail pointer moves on. */
    method Take(ghost v: seq<Info>, ai: Node)
      requires Whole(head, nodes, ai, v) && ai.next == null && ai.addr != null && Within(nodes, foot)
      requires ai !in nodes && ai.addr !in Addrs(nodes)
      modifies this`nodes, this`last, this`foot
      ensures Valid(v + [ai.View()]) && nodes == old(nodes) + [ai] && foot == old(foot) + {ai, ai.addr}
    {
      Snoc(head, nodes, ai, v);
      nodes := nodes + [ai];
      foot := foot + {ai, ai.addr};
      last := ai;
    }

    /** The store through the tail pointer. */
    method Link(ghost v: seq<Info>, ai: Node)
      requires Valid(v) && ai !in nodes
      modifies this`head, last
      ensures Whole(head, nodes, ai, v) && ai.View() == old(ai.View()) && ai.next == old(ai.next)
    {
      if last == null {
        head := ai;
      } else {
        ghost var front := nodes[..|nodes| - 1];
        assert Whole(head, front, last, Views(front));
        last.next := ai;
        assert Whole(head, front, last, Views(front));
      }
    }
  }

  function Atoi(s: string): nat {
    if s == "" || !('0' <= s[|s| - 1] <= '9') then 0 else Atoi(s[..|s| - 1]) * 10 + (s[|s| - 1] - '0') as int
  }

  /** The digits that atoi converts. */
  function Leading(s: string): string {
    if s == "" || !('0' <= s[0] <= '9') then "" else [s[0]] + Leading(s[1..])
  }

  function PortNumber(serv: string): int {
    Atoi(Leading(serv)) % 0x10000
  }

  lemma DecimalRange(c: char)
    ensures IsDigit(Dec, c) <==> '0' <= c <= '9'
    ensures '0' <= c <= '9' ==> DigitVal(c) == (c - '0') as int
  {}

  lemma {:induction false} LeadingDigits(f: string, rest: string)
    requires Digits(Dec, f) && (rest == "" || !IsDigit(Dec, rest[0]))
    ensures Leading(f + rest) == f
    decreases |f|
  {
    if f == "" {
      assert f + rest == rest;
      if rest != "" {
        DecimalRange(rest[0]);
      }
    } else {
      DecimalRange(f[0]);
      assert (f + rest)[1..] == f[1..] + rest && [f[0]] + f[1..] == f;
      LeadingDigits(f[1..], rest);
    }
  }

  lemma {:induction false} AtoiIsValue(f: string)
    requires Digits(Dec, f)
    ensures Atoi(f) == NumVal(Dec, f)
  {
    if f != "" {
      DecimalRange(f[|f| - 1]);
      assert Front(f) == f[..|f| - 1] && Last(f) == f[|f| - 1];
      AtoiIsValue(f[..|f| - 1]);
    }
  }

  /** A port number is read in decimal up to the first other character, and kept in 16 bits. */
  lemma PortOfText(f: string, rest: string)
    requires Digits(Dec, f) && (rest == "" || !IsDigit(Dec, rest[0]))
    ensures PortNumber(f + rest) == NumVal(Dec, f) % 0x10000
  {
    LeadingDigits(f, rest);
    AtoiIsValue(f);
  }

  /** Every port is read back from its number. */
  lemma PortRoundTrip(port: nat)
    requires port < 0x10000
    ensures PortNumber(Numeral(Dec, port)) == port
  {
    NumeralRoundTrip(Dec, port);
    PortOfText(Numeral(Dec, port), "");
    assert Numeral(Dec, port) + "" == Numeral(Dec, port);
  }

  function ByName(answer: Option<int>, socktype: int): seq<Call> {
    if answer.Some? then [Call(answer.value, socktype)] else []
  }

  function NumericCalls(socktype: int, port: int): seq<Call> {
    if socktype != 0 then [Call(port, socktype)] else [Call(port, SOCK_STREAM), Call(port, SOCK_DGRAM)]
  }

  function NamedCalls(socktype: int, tcp: Option<int>, udp: Option<int>): seq<Call> {
    (if socktype == 0 || socktype == SOCK_STREAM then ByName(tcp, SOCK_STREAM) else [])
    + (if socktype == 0 || socktype == SOCK_DGRAM then ByName(udp, SOCK_DGRAM) else [])
  }

  /** The calls of ga_port that a service string leads to. */
  function ServiceCalls(socktype: int, serv: string, tcp: Option<int>, udp: Option<int>): seq<Call> {
    if serv != "" && '0' <= serv[0] <= '9' then NumericCalls(socktype, PortNumber(serv))
    else NamedCalls(socktype, tcp, udp)
  }

  /** The calls made when a service is given. */
  function Wanted(socktype: int, serv: string, tcp: Option<int>, udp: Option<int>): seq<Call> {
    if serv == "" then [] else ServiceCalls(socktype, serv, tcp, udp)
  }

  /** The list after a number of calls of ga_port, the ports set and the clones made in all of them. */
  function After(v: seq<Info>, calls: seq<Call>): seq<Info> {
    if calls == [] then v else ExpandAll(After(v, calls[..|calls| - 1]), calls[|calls| - 1])
  }

  function AllHits(v: seq<Info>, calls: seq<Call>): nat {
    if calls == [] then 0
    else AllHits(v, calls[..|calls| - 1]) + Hits(After(v, calls[..|calls| - 1]), calls[|calls| - 1])
  }

  function AllNeeds(v: seq<Info>, calls: seq<Call>): nat {
    if calls == [] then 0
    else AllNeeds(v, calls[..|calls| - 1]) + Needs(After(v, calls[..|calls| - 1]))
  }

  lemma AfterOneMore(v: seq<Info>, made: seq<Call>, c: Call)
    ensures After(v, made + [c]) == ExpandAll(After(v, made), c)
    ensures AllHits(v, made + [c]) == AllHits(v, made) + Hits(After(v, made), c)
    ensures AllNeeds(v, made + [c]) == AllNeeds(v, made) + Needs(After(v, made))
  {
    assert (made + [c])[..|made|] == made;
  }

  lemma LastApart(made: seq<Call>, more: seq<Call>)
    requires more != []
    ensures made + more[..|more| - 1] + [more[|more| - 1]] == made + more
  {}

  lemma {:induction false} AllNeedsGrows(v: seq<Info>, made: seq<Call>, more: seq<Call>)
    ensures AllNeeds(v, made) <= AllNeeds(v, made + more)
  {
    if more == [] {
      assert made + more == made;
    } else {
      AllNeedsGrows(v, made, more[..|more| - 1]);
      AfterOneMore(v, made + more[..|more| - 1], more[|more| - 1]);
      LastApart(made, more);
    }
  }

  /** Where ga_serv stands after some calls: -1 stands for a failed allocation. */
  ghost predicate Stands(head: Node?, nodes: seq<Node>, v: seq<Info>, made: seq<Call>, nfound: int,
                         left: nat, memory: nat)
    reads nodes, Addrs(nodes)
  {
    && (nfound < 0 <==> memory < 2 * AllNeeds(v, made))
    && (nfound >= 0 ==>
          && Whole(head, nodes, null, After(v, made)) && nfound == AllHits(v, made)
          && memory == left + 2 * AllNeeds(v, made))
  }

  /** One call of ga_port, and its contribution to the running total of ga_serv. */
  method Port(head: Node?, ghost nodes: seq<Node>, ghost foot: set<object>, ghost v: seq<Info>, ghost made: seq<Call>,
              nfound: nat, memory: nat, ghost whole: nat, c: Call)
    returns (total: int, left: nat, ghost now: seq<Node>, ghost grown: set<object>)
    requires Stands(head, nodes, v, made, nfound, memory, whole) && Within(nodes, foot)
    modifies foot
    ensures Stands(head, now, v, made + [c], total, left, whole)
    ensures Within(now, grown) && foot <= grown && fresh(grown - foot)
  {
    AfterOneMore(v, made, c);
    var found;
    found, left, now, grown := GaPort(head, nodes, foot, After(v, made), c, memory);
    total := if found < 0 then -1 else nfound + found;
  }

  /** The number of ports that each call sets. */
  function Counts(v: seq<Info>, calls: seq<Call>): (counts: seq<int>)
    ensures |counts| == |calls|
  {
    if calls == [] then []
    else
      var made := calls[..|calls| - 1];
      Counts(v, made) + [Hits(After(v, made), calls[|calls| - 1])]
  }

  /** Any sequence of calls of ga_port, until one fails. */
  method GaPorts(head: Node?, ghost nodes: seq<Node>, ghost foot: set<object>, ghost v: seq<Info>,
                 calls: seq<Call>, memory: nat)
    returns (counts: seq<int>, left: nat, ghost now: seq<Node>, ghost grown: set<object>)
    requires Whole(head, nodes, null, v) && Within(nodes, foot)
    modifies foot
    ensures |counts| <= |calls| && (|counts| == |calls| <==> memory >= 2 * AllNeeds(v, calls))
    ensures |counts| == |calls| ==>
              && Whole(head, now, null, After(v, calls)) && counts == Counts(v, calls)
              && left == memory - 2 * AllNeeds(v, calls)
    ensures Within(now, grown) && foot <= grown && fresh(grown - foot)
    decreases |calls|
  {
    if calls == [] {
      return [], memory, nodes, foot;
    }
    var n := |calls| - 1;
    counts, left, now, grown := GaPorts(head, nodes, foot, v, calls[..n], memory);
    if |counts| < n {
      return;
    }
    var nfound;
    nfound, left, now, grown := GaPort(head, now, grown, After(v, calls[..n]), calls[n], left);
    if nfound >= 0 {
      counts := counts + [nfound];
    }
  }

  /** The same for the list of a multihomed host: every call finds every address. */
  method GaPortsMultihomed(head: Node?, ghost nodes: seq<Node>, ghost foot: set<object>, ghost v: seq<Info>,
                           calls: seq<Call>, memory: nat)
    returns (counts: seq<int>, ghost now: seq<Node>, ghost grown: set<object>)
    requires Whole(head, nodes, null, v) && Within(nodes, foot)
    requires Distinct(calls) && forall i :: 0 <= i < |v| ==> Untyped(v[i])
    modifies foot
    ensures |counts| == |calls| <==> memory >= 2 * AllNeeds(v, calls)
    ensures |counts| == |calls| ==>
              && Whole(head, now, null, Blocks(v, calls))
              && forall i :: 0 <= i < |calls| ==> counts[i] == |v|
  {
    var left;
    counts, left, now, grown := GaPorts(head, nodes, foot, v, calls, memory);
    MultihomedBlocks(v, calls);
  }

  /** ga_serv for a port number. */
  method Numeric(head: Node?, ghost nodes: seq<Node>, ghost foot: set<object>, ghost v: seq<Info>,
                 socktype: int, port: int, memory: nat)
    returns (nfound: int, left: nat, ghost now: seq<Node>, ghost grown: set<object>)
    requires Whole(head, nodes, null, v) && Within(nodes, foot)
    modifies foot
    ensures Stands(head, now, v, NumericCalls(socktype, port), nfound, left, memory)
    ensures Within(now, grown) && foot <= grown && fresh(grown - foot)
  {
    if socktype != 0 {
      nfound, left, now, grown := Port(head, nodes, foot, v, [], 0, memory, memory, Call(port, socktype));
      assert [] + [Call(port, socktype)] == NumericCalls(socktype, port);
    } else {
      nfound, left, now, grown := Port(head, nodes, foot, v, [], 0, memory, memory, Call(port, SOCK_STREAM));
      assert [] + [Call(port, SOCK_STREAM)] == [Call(port, SOCK_STREAM)];
      assert [Call(port, SOCK_STREAM)] + [Call(port, SOCK_DGRAM)] == NumericCalls(socktype, port);
      if nfound < 0 {
        AllNeedsGrows(v, [Call(port, SOCK_STREAM)], [Call(port, SOCK_DGRAM)]);
        return;
      }
      nfound, left, now, grown :=
        Port(head, now, grown, v, [Call(port, SOCK_STREAM)], nfound, left, memory, Call(port, SOCK_DGRAM));
    }
  }

  /** One query of the service database, and the call of ga_port if it is answered. */
  method Query(head: Node?, ghost nodes: seq<Node>, ghost foot: set<object>, ghost v: seq<Info>, ghost made: seq<Call>,
               nfound: nat, asked: bool, answer: Option<int>, socktype: int, memory: nat, ghost whole: nat)
    returns (total: int, left: nat, ghost now: seq<Node>, ghost grown: set<object>)
    requires Stands(head, nodes, v, made, nfound, memory, whole) && Within(nodes, foot)
    modifies foot
    ensures Stands(head, now, v, made + (if asked then ByName(answer, socktype) else []), total, left, whole)
    ensures Within(now, grown) && foot <= grown && fresh(grown - foot)
  {
    total, left, now, grown := nfound, memory, nodes, foot;
    if asked && answer.Some? {
      total, left, now, grown := Port(head, nodes, foot, v, made, nfound, memory, whole, Call(answer.value, socktype));
    } else {
      assert made + [] == made;
    }
  }

  /** ga_serv for a service name. */
  method Named(head: Node?, ghost nodes: seq<Node>, ghost foot: set<object>, ghost v: seq<Info>,
               socktype: int, tcp: Option<int>, udp: Option<int>, memory: nat)
    returns (nfound: int, left: nat, ghost now: seq<Node>, ghost grown: set<object>)
    requires Whole(head, nodes, null, v) && Within(nodes, foot)
    modifies foot
    ensures Stands(head, now, v, NamedCalls(socktype, tcp, udp), nfound, left, memory)
    ensures Within(now, grown) && foot <= grown && fresh(grown - foot)
  {
    var tcpAsked, udpAsked := socktype == 0 || socktype == SOCK_STREAM, socktype == 0 || socktype == SOCK_DGRAM;
    ghost var first := if tcpAsked then ByName(tcp, SOCK_STREAM) else [];
    ghost var second := if udpAsked then ByName(udp, SOCK_DGRAM) else [];
    assert [] + first == first && first + second == NamedCalls(socktype, tcp, udp);
    nfound, left, now, grown := Query(head, nodes, foot, v, [], 0, tcpAsked, tcp, SOCK_STREAM, memory, memory);
    if nfound < 0 {
      AllNeedsGrows(v, first, second);
      return;
    }
    ghost var midway := grown;
    nfound, left, now, grown := Query(head, now, midway, v, first, nfound, udpAsked, udp, SOCK_DGRAM, left, memory);
  }

  /** ga_serv.  The service database is asked through its two answers. */
  method GaServ(head: Node?, ghost nodes: seq<Node>, ghost foot: set<object>, ghost v: seq<Info>,
                socktype: int, serv: string, tcp: Option<int>, udp: Option<int>, memory: nat)
    returns (rc: Rc, ghost now: seq<Node>, ghost grown: set<object>)
    requires Whole(head, nodes, null, v) && Within(nodes, foot)
    modifies foot
    ensures rc == if memory < 2 * AllNeeds(v, ServiceCalls(socktype, serv, tcp, udp)) then EaiMemory
                  else if AllHits(v, ServiceCalls(socktype, serv, tcp, udp)) > 0 then Ok
                  else if socktype == 0 then EaiNoname else EaiService
    ensures rc.Ok? ==> Whole(head, now, null, After(v, ServiceCalls(socktype, serv, tcp, udp)))
    ensures Within(now, grown) && foot <= grown && fresh(grown - foot)
  {
    var nfound, left;
    if serv != "" && '0' <= serv[0] <= '9' {
      nfound, left, now, grown := Numeric(head, nodes, foot, v, socktype, PortNumber(serv), memory);
    } else {
      nfound, left, now, grown := Named(head, nodes, foot, v, socktype, tcp, udp, memory);
    }
    rc := if nfound < 0 then EaiMemory else if nfound > 0 then Ok else if socktype == 0 then EaiNoname else EaiService;
  }

  /** The answers of the host search, as nodes. */
  function NewHosts(hosts: seq<(Family, seq<Byte>)>, socktype: int, protocol: int): (v: seq<Info>)
    ensures |v| == |hosts|
  {
    seq(|hosts|, i requires 0 <= i < |hosts| => NewHost(hosts[i].0, hosts[i].1, socktype, protocol))
  }

  lemma NewHostsOneMore(hosts: seq<(Family, seq<Byte>)>, i: nat, socktype: int, protocol: int)
    requires i < |hosts|
    ensures NewHosts(hosts[..i + 1], socktype, protocol)
         == NewHosts(hosts[..i], socktype, protocol) + [NewHost(hosts[i].0, hosts[i].1, socktype, protocol)]
  {}

  /** The addresses that the host search returns are not Unix-domain paths. */
  predicate Internet(hosts: seq<(Family, seq<Byte>)>) {
    forall i :: 0 <= i < |hosts| ==> !hosts[i].0.Local?
  }

  /** The loop over the addresses found. */
  method Build(hosts: seq<(Family, seq<Byte>)>, socktype: int, protocol: int, passive: bool, memory: nat)
    returns (rc: Rc, result: Result)
    requires Internet(hosts)
    ensures rc == if memory < 2 * |hosts| then EaiMemory else Ok
    ensures rc.Ok? ==> fresh(result) && fresh(result.foot) && result.Valid(NewHosts(hosts, socktype, protocol))
  {
    rc := Ok;
    result := new Result();
    ghost var v := [];
    for i := 0 to |hosts|
      invariant rc.Ok? && memory >= 2 * i
      invariant v == NewHosts(hosts[..i], socktype, protocol) && result.Valid(v)
      invariant fresh(result) && fresh(result.foot)
    {
      var unlinked;
      rc, unlinked := result.GaAistruct(v, hosts[i].0, hosts[i].1, socktype, protocol, passive, memory - 2 * i);
      if !rc.Ok? {
        return;
      }
      NewHostsOneMore(hosts, i, socktype, protocol);
      v := v + [NewHost(hosts[i].0, hosts[i].1, socktype, protocol)];
    }
    assert hosts[..|hosts|] == hosts;
  }

  /** AI_CANONNAME: the name found by the host search has been copied already, a host that was
      not looked up has not. */
  datatype Naming = NoName | Found(name: string) | Given(host: string)

  function NameOf(naming: Naming): Option<string> {
    match naming
    case NoName => None
    case Found(name) => Some(name)
    case Given(host) => Some(host)
  }

  /** The first node carries the name. */
  function Titled(v: seq<Info>, naming: Naming): (w: seq<Info>)
    ensures |w| == |v|
  {
    if v == [] then v else v[0 := v[0].(canonname := NameOf(naming))]
  }

  /** The canonical name goes to the first node. */
  method SetName(head: Node, ghost nodes: seq<Node>, ghost v: seq<Info>, naming: Naming)
    requires Whole(head, nodes, null, v) && (forall i :: 0 <= i < |v| ==> v[i].canonname == None)
    modifies head
    ensures Whole(head, nodes, null, Titled(v, naming))
  {
    Ends(head, nodes, v);
    Peel(head, nodes, null, v);
    match naming
    case NoName =>
      assert Titled(v, naming) == v;
    case _ =>
      StoreName(head, nodes[1..], v[0], v[1..], NameOf(naming));
      assert [head] + nodes[1..] == nodes;
      assert [v[0].(canonname := NameOf(naming))] + v[1..] == Titled(v, naming);
  }

  method StoreName(head: Node, ghost rest: seq<Node>, ghost first: Info, ghost w: seq<Info>, name: Option<string>)
    requires Whole(head.next, rest, null, w) && head.View() == first
    requires head !in rest && head.addr != null && head.addr !in Addrs(rest)
    modifies head
    ensures Whole(head, [head] + rest, null, [first.(canonname := name)] + w)
  {
    head.canonname := name;
    Cons(head, rest, null, w);
  }

  /** The nodes as they are before the service is looked at. */
  function Hosts(hosts: seq<(Family, seq<Byte>)>, socktype: int, protocol: int, naming: Naming): (v: seq<Info>)
    ensures |v| == |hosts|
  {
    Titled(NewHosts(hosts, socktype, protocol), naming)
  }

  /** One node for each address, in order, and the name on the first one. */
  lemma HostsAre(hosts: seq<(Family, seq<Byte>)>, socktype: int, protocol: int, naming: Naming, i: nat)
    requires i < |hosts|
    ensures Hosts(hosts, socktype, protocol, naming)[i] ==
            Info(socktype == 0, hosts[i].0, socktype, protocol, hosts[i].1, 0,
                 if i > 0 || naming.NoName? then None
                 else if naming.Found? then Some(naming.name) else Some(naming.host))
  {}

  /** The second half of getaddrinfo: a list of the addresses found, its name, then the service.
      Only a complete list is handed out. */
  method GetAddrInfo(hosts: seq<(Family, seq<Byte>)>, socktype: int, protocol: int, passive: bool, naming: Naming,
                     serv: string, tcp: Option<int>, udp: Option<int>, memory: nat)
    returns (rc: Rc, head: Node?, ghost nodes: seq<Node>)
    requires Internet(hosts)
    ensures rc == if memory < 2 * |hosts| then EaiMemory
                  else if hosts == [] then EaiNoname
                  else if memory == 2 * |hosts| && naming.Given? then EaiMemory
                  else if serv == "" then Ok
                  else if TwoPorts(socktype, serv, tcp, udp)
                          && memory < 4 * |hosts| + (if naming.Given? then 1 else 0)
                  then EaiMemory
                  else if PortFound(socktype, serv, tcp, udp) then Ok
                  else if socktype == 0 then EaiNoname else EaiService
    ensures !rc.Ok? ==> head == null
    ensures rc.Ok? ==>
              var v := Hosts(hosts, socktype, protocol, naming);
              Whole(head, nodes, null, After(v, Wanted(socktype, serv, tcp, udp)))
    ensures rc.Ok? ==>
              var v := Hosts(hosts, socktype, protocol, naming);
              Listed(After(v, Wanted(socktype, serv, tcp, udp)), v, socktype, serv, tcp, udp)
  {
    var result;
    rc, result := Build(hosts, socktype, protocol, passive, memory);
    head, nodes := null, [];
    if !rc.Ok? {
      return;
    }
    var aihead := result.head;
    ghost var all := NewHosts(hosts, socktype, protocol);
    Ends(aihead, result.nodes, all);
    if aihead == null {
      rc := EaiNoname;
      return;
    }
    if naming.Given? && memory - 2 * |hosts| == 0 {
      rc := EaiMemory;
      return;
    }
    assert aihead in result.nodes;
    SetName(aihead, result.nodes, all, naming);
    rc, head, nodes := AddService(aihead, result.nodes, result.foot, Titled(all, naming), socktype, serv, tcp, udp,
                                  memory - 2 * |hosts| - if naming.Given? then 1 else 0);
  }

  /** The service, if one is given. */
  method AddService(aihead: Node?, ghost given: seq<Node>, ghost foot: set<object>, ghost v: seq<Info>,
                    socktype: int, serv: string, tcp: Option<int>, udp: Option<int>, memory: nat)
    returns (rc: Rc, head: Node?, ghost nodes: seq<Node>)
    requires Whole(aihead, given, null, v) && Within(given, foot) && Fresh(v, socktype) && v != []
    modifies foot
    ensures rc == if serv == "" then Ok
                  else if TwoPorts(socktype, serv, tcp, udp) && memory < 2 * |v| then EaiMemory
                  else if PortFound(socktype, serv, tcp, udp) then Ok
                  else if socktype == 0 then EaiNoname else EaiService
    ensures !rc.Ok? ==> head == null
    ensures rc.Ok? ==>
              var list := After(v, Wanted(socktype, serv, tcp, udp));
              Whole(head, nodes, null, list) && Listed(list, v, socktype, serv, tcp, udp)
  {
    ServiceLists(v, socktype, serv, tcp, udp);
    if serv == "" {
      return Ok, aihead, given;
    }
    ghost var grown;
    rc, nodes, grown := GaServ(aihead, given, foot, v, socktype, serv, tcp, udp, memory);
    head := if rc.Ok? then aihead else null;
  }

  // ------------------------------------------------------------ what the service makes of the list

  predicate IsNumber(serv: string) {
    serv != "" && '0' <= serv[0] <= '9'
  }

  /** The ports for stream and for datagram sockets: a number is for both, and of the answers of
      the service database the one for tcp is for streams and the one for udp for datagrams. */
  function StreamPort(serv: string, tcp: Option<int>): Option<int> {
    if IsNumber(serv) then Some(PortNumber(serv)) else tcp
  }

  function DatagramPort(serv: string, udp: Option<int>): Option<int> {
    if IsNumber(serv) then Some(PortNumber(serv)) else udp
  }

  /** The port for the socket type that is asked for. */
  function TypedPort(socktype: int, serv: string, tcp: Option<int>, udp: Option<int>): Option<int> {
    if IsNumber(serv) then Some(PortNumber(serv))
    else if socktype == SOCK_STREAM then tcp
    else if socktype == SOCK_DGRAM then udp
    else None
  }

  predicate TwoPorts(socktype: int, serv: string, tcp: Option<int>, udp: Option<int>) {
    socktype == 0 && StreamPort(serv, tcp).Some? && DatagramPort(serv, udp).Some?
  }

  predicate PortFound(socktype: int, serv: string, tcp: Option<int>, udp: Option<int>) {
    if socktype == 0 then StreamPort(serv, tcp).Some? || DatagramPort(serv, udp).Some?
    else TypedPort(socktype, serv, tcp, udp).Some?
  }

  /** Every node gets the socket type and the port. */
  ghost predicate Ported(list: seq<Info>, v: seq<Info>, socktype: int, port: int) {
    && |list| == |v|
    && forall i :: 0 <= i < |v| ==> list[i] == v[i].(socktype := socktype, port := port)
  }

  /** The list for both ports, when no socket type is asked for. */
  ghost predicate BothListed(list: seq<Info>, v: seq<Info>, stream: Option<int>, datagram: Option<int>) {
    if stream.Some? && datagram.Some? then Paired(list, v, stream.value, datagram.value)
    else if stream.Some? then Ported(list, v, SOCK_STREAM, stream.value)
    else if datagram.Some? then Ported(list, v, SOCK_DGRAM, datagram.value)
    else list == v
  }

  /** The list for the addresses `v`. */
  ghost predicate Listed(list: seq<Info>, v: seq<Info>, socktype: int, serv: string,
                         tcp: Option<int>, udp: Option<int>)
  {
    if serv == "" then list == v
    else if socktype != 0 then
      var port := TypedPort(socktype, serv, tcp, udp);
      if port.Some? then Ported(list, v, socktype, port.value) else list == v
    else BothListed(list, v, StreamPort(serv, tcp), DatagramPort(serv, udp))
  }

  /** A Unix-domain address has no port to set. */
  lemma {:induction false} LocalHasNoPort(v: seq<Info>, c: Call, i: nat)
    requires (forall k :: 0 <= k < |v| ==> v[k].family.Local?) && i < |ExpandAll(v, c)|
    ensures Hits(v, c) == 0 && ExpandAll(v, c)[i].family.Local?
    ensures exists k :: 0 <= k < |v| && ExpandAll(v, c)[i].port == v[k].port
  {
    var n := |v| - 1;
    if i < |ExpandAll(v[..n], c)| {
      LocalHasNoPort(v[..n], c, i);
      var k :| 0 <= k < n && ExpandAll(v[..n], c)[i].port == v[..n][k].port;
      assert v[k].port == ExpandAll(v, c)[i].port;
    } else {
      NoLocalHits(v[..n], c);
      assert ExpandAll(v, c)[i] == Expand(v[n], c)[i - |ExpandAll(v[..n], c)|];
      assert ExpandAll(v, c)[i].port == v[n].port;
    }
  }

  lemma {:induction false} NoLocalHits(v: seq<Info>, c: Call)
    requires forall k :: 0 <= k < |v| ==> v[k].family.Local?
    ensures Hits(v, c) == 0
  {
    if v != [] {
      NoLocalHits(v[..|v| - 1], c);
    }
  }

  /** What one call does to nodes that are all alike. */
  lemma {:induction false} PortList(v: seq<Info>, c: Call)
    requires forall i :: 0 <= i < |v| ==> !v[i].family.Local?
    requires forall i :: 0 <= i < |v| ==>
               if v[i].clone then v[i].socktype == 0 else v[i].socktype == c.socktype
    ensures Ported(ExpandAll(v, c), v, c.socktype, c.port) && Hits(v, c) == |v| && Needs(v) == 0
  {
    if v != [] {
      PortList(v[..|v| - 1], c);
    }
  }

  lemma {:induction false} OneCall(v: seq<Info>, c: Call)
    requires forall i :: 0 <= i < |v| ==> !v[i].family.Local?
    requires forall i :: 0 <= i < |v| ==>
               if v[i].clone then v[i].socktype == 0 else v[i].socktype == c.socktype
    ensures After(v, [c]) == ExpandAll(v, c)
    ensures Ported(After(v, [c]), v, c.socktype, c.port) && AllHits(v, [c]) == |v| && AllNeeds(v, [c]) == 0
  {
    PortList(v, c);
    AfterOneMore(v, [], c);
    assert [] + [c] == [c];
  }

  lemma {:induction false} AllClones(v: seq<Info>)
    requires forall i :: 0 <= i < |v| ==> v[i].clone && v[i].socktype != 0
    ensures Needs(v) == |v|
  {
    if v != [] {
      AllClones(v[..|v| - 1]);
    }
  }

  lemma {:induction false} TwoCalls(v: seq<Info>, a: Call, b: Call)
    requires forall i :: 0 <= i < |v| ==> Untyped(v[i])
    requires a.socktype == SOCK_STREAM && b.socktype == SOCK_DGRAM
    ensures Paired(After(v, [a, b]), v, a.port, b.port)
    ensures AllHits(v, [a, b]) == 2 * |v| && AllNeeds(v, [a, b]) == |v|
  {
    StreamAndDatagram(v, a.port, b.port);
    assert a == Call(a.port, SOCK_STREAM) && b == Call(b.port, SOCK_DGRAM);
    OneCall(v, a);
    assert [a] + [b] == [a, b];
    AfterOneMore(v, [a], b);
    SecondCall(v, a, b);
  }

  lemma {:induction false} SecondCall(v: seq<Info>, a: Call, b: Call)
    requires forall i :: 0 <= i < |v| ==> Untyped(v[i])
    requires a.socktype == SOCK_STREAM && b.socktype == SOCK_DGRAM
    requires Ported(After(v, [a]), v, a.socktype, a.port)
    ensures Hits(After(v, [a]), b) == |v| && Needs(After(v, [a])) == |v|
  {
    ClonesHit(After(v, [a]), b);
    AllClones(After(v, [a]));
  }

  lemma {:induction false} ClonesHit(v: seq<Info>, c: Call)
    requires forall i :: 0 <= i < |v| ==> v[i].clone && !v[i].family.Local?
    ensures Hits(v, c) == |v|
  {
    if v != [] {
      ClonesHit(v[..|v| - 1], c);
    }
  }

  /** The nodes of the host search. */
  ghost predicate Fresh(v: seq<Info>, socktype: int) {
    forall i :: 0 <= i < |v| ==>
      !v[i].family.Local? && v[i].socktype == socktype && (v[i].clone <==> socktype == 0)
  }

  /** The ports set and the clones made by some calls. */
  ghost predicate Amounts(v: seq<Info>, calls: seq<Call>, found: bool, clones: nat) {
    (AllHits(v, calls) > 0 <==> v != [] && found) && AllNeeds(v, calls) == clones
  }

  lemma {:induction false} TypedLists(v: seq<Info>, socktype: int, serv: string, tcp: Option<int>, udp: Option<int>)
    requires Fresh(v, socktype) && socktype != 0 && serv != ""
    ensures var calls := ServiceCalls(socktype, serv, tcp, udp);
            && Listed(After(v, calls), v, socktype, serv, tcp, udp)
            && Amounts(v, calls, TypedPort(socktype, serv, tcp, udp).Some?, 0)
  {
    var calls, port := ServiceCalls(socktype, serv, tcp, udp), TypedPort(socktype, serv, tcp, udp);
    if port.Some? {
      assert calls == [Call(port.value, socktype)];
      OneCall(v, Call(port.value, socktype));
    } else {
      assert calls == [];
    }
  }

  /** The calls for a stream and for a datagram port. */
  function BothCalls(stream: Option<int>, datagram: Option<int>): seq<Call> {
    ByName(stream, SOCK_STREAM) + ByName(datagram, SOCK_DGRAM)
  }

  lemma CallsAreBoth(serv: string, tcp: Option<int>, udp: Option<int>)
    ensures ServiceCalls(0, serv, tcp, udp) == BothCalls(StreamPort(serv, tcp), DatagramPort(serv, udp))
  {}

  lemma {:induction false} UntypedLists(v: seq<Info>, stream: Option<int>, datagram: Option<int>)
    requires Fresh(v, 0)
    ensures BothListed(After(v, BothCalls(stream, datagram)), v, stream, datagram)
    ensures Amounts(v, BothCalls(stream, datagram), stream.Some? || datagram.Some?,
                    if stream.Some? && datagram.Some? then |v| else 0)
  {
    if stream.Some? && datagram.Some? {
      assert BothCalls(stream, datagram) == [Call(stream.value, SOCK_STREAM), Call(datagram.value, SOCK_DGRAM)];
      TwoCalls(v, Call(stream.value, SOCK_STREAM), Call(datagram.value, SOCK_DGRAM));
    } else if stream.Some? {
      assert BothCalls(stream, datagram) == [Call(stream.value, SOCK_STREAM)];
      OneCall(v, Call(stream.value, SOCK_STREAM));
    } else if datagram.Some? {
      assert BothCalls(stream, datagram) == [Call(datagram.value, SOCK_DGRAM)];
      OneCall(v, Call(datagram.value, SOCK_DGRAM));
    } else {
      assert BothCalls(stream, datagram) == [];
    }
  }

  /** The list, the number of ports set and the clones made, for every service and its answers. */
  lemma {:induction false} ServiceLists(v: seq<Info>, socktype: int, serv: string, tcp: Option<int>, udp: Option<int>)
    requires Fresh(v, socktype)
    ensures Listed(After(v, Wanted(socktype, serv, tcp, udp)), v, socktype, serv, tcp, udp)
    ensures serv != "" ==>
              Amounts(v, ServiceCalls(socktype, serv, tcp, udp), PortFound(socktype, serv, tcp, udp),
                      if TwoPorts(socktype, serv, tcp, udp) then |v| else 0)
  {
    if serv != "" && socktype != 0 {
      TypedLists(v, socktype, serv, tcp, udp);
    } else if serv != "" {
      CallsAreBoth(serv, tcp, udp);
      UntypedLists(v, StreamPort(serv, tcp), DatagramPort(serv, udp));
    }
  }

  // ------------------------------------------------------------ what the caller gets

  /** A node of a caller that gave no socket type. */
  ghost predicate Untyped(x: Info) {
    x.clone && x.socktype == 0 && !x.family.Local?
  }

  /** The socket types of the calls are all set and all different. */
  ghost predicate Distinct(calls: seq<Call>) {
    && (forall i :: 0 <= i < |calls| ==> calls[i].socktype != 0)
    && (forall i, j :: 0 <= i < j < |calls| ==> calls[i].socktype != calls[j].socktype)
  }

  /** The clones of a host, the newest first. */
  function Clones(h: Info, calls: seq<Call>): seq<Info> {
    if calls == [] then []
    else [Stamp(Copy(h), calls[|calls| - 1])] + Clones(h, calls[..|calls| - 1])
  }

  /** One address and its socket types: the first in front, then the later ones backwards. */
  function Block(h: Info, calls: seq<Call>): seq<Info> {
    if calls == [] then [h] else [Stamp(h, calls[0])] + Clones(h, calls[1..])
  }

  function Blocks(hosts: seq<Info>, calls: seq<Call>): seq<Info> {
    if hosts == [] then [] else Blocks(hosts[..|hosts| - 1], calls) + Block(hosts[|hosts| - 1], calls)
  }

  lemma CutBehind(a: seq<Info>, b: seq<Info>)
    requires b != []
    ensures (a + b)[..|a + b| - 1] == a + b[..|b| - 1] && (a + b)[|a + b| - 1] == b[|b| - 1]
  {}

  lemma Regroup(a: seq<Info>, b: seq<Info>, c: seq<Info>)
    ensures a + b + c == a + (b + c)
  {}

  lemma {:induction false} ExpandJoin(a: seq<Info>, b: seq<Info>, c: Call)
    ensures ExpandAll(a + b, c) == ExpandAll(a, c) + ExpandAll(b, c)
    ensures Hits(a + b, c) == Hits(a, c) + Hits(b, c)
  {
    if b == [] {
      assert a + b == a;
    } else {
      ExpandJoin(a, b[..|b| - 1], c);
      CutBehind(a, b);
      Regroup(ExpandAll(a, c), ExpandAll(b[..|b| - 1], c), Expand(b[|b| - 1], c));
    }
  }

  lemma ExpandOne(x: Info, c: Call)
    ensures ExpandAll([x], c) == Expand(x, c) && Hits([x], c) == Hit(x, c)
  {
    assert ExpandAll([x][..0], c) == [];
  }

  /** Later calls leave the clones of earlier ones alone. */
  lemma {:induction false} ClonesStay(h: Info, calls: seq<Call>, c: Call)
    requires forall i :: 0 <= i < |calls| ==> calls[i].socktype != c.socktype
    ensures ExpandAll(Clones(h, calls), c) == Clones(h, calls)
    ensures Hits(Clones(h, calls), c) == 0
  {
    if calls != [] {
      var first := Stamp(Copy(h), calls[|calls| - 1]);
      ClonesStay(h, calls[..|calls| - 1], c);
      ExpandOne(first, c);
      ExpandJoin([first], Clones(h, calls[..|calls| - 1]), c);
    }
  }

  lemma DistinctPart(calls: seq<Call>, c: Call)
    requires Distinct(calls + [c])
    ensures Distinct(calls) && c.socktype != 0
    ensures forall i :: 0 <= i < |calls| ==> calls[i].socktype != c.socktype && calls[i].socktype != 0
  {
    assert forall i :: 0 <= i < |calls| ==> (calls + [c])[i] == calls[i];
    assert (calls + [c])[|calls|] == c;
  }

  lemma BlockOneMore(h: Info, calls: seq<Call>, c: Call)
    requires calls != []
    ensures Block(h, calls + [c]) == [Stamp(h, calls[0]), Stamp(Copy(h), c)] + Clones(h, calls[1..])
  {
    assert (calls + [c])[1..] == calls[1..] + [c];
    assert (calls[1..] + [c])[..|calls| - 1] == calls[1..];
  }

  lemma BlockGrows(h: Info, calls: seq<Call>, c: Call)
    requires Untyped(h) && Distinct(calls + [c])
    ensures ExpandAll(Block(h, calls), c) == Block(h, calls + [c])
    ensures Hits(Block(h, calls), c) == 1
  {
    DistinctPart(calls, c);
    if calls == [] {
      ExpandOne(h, c);
      assert Clones(h, []) == [] && ([] + [c])[1..] == [];
    } else {
      ClonesStay(h, calls[1..], c);
      BlockOneMore(h, calls, c);
      FirstGrows(Stamp(h, calls[0]), Clones(h, calls[1..]), c);
    }
  }

  /** The first node of a block gets one more clone, and the clones behind it stay. */
  lemma FirstGrows(first: Info, clones: seq<Info>, c: Call)
    requires first.clone && first.socktype != 0 && !first.family.Local?
    requires ExpandAll(clones, c) == clones && Hits(clones, c) == 0
    ensures ExpandAll([first] + clones, c) == [first, Stamp(Copy(first), c)] + clones
    ensures Hits([first] + clones, c) == 1
  {
    ExpandOne(first, c);
    ExpandJoin([first], clones, c);
  }

  lemma {:induction false} BlocksGrow(hosts: seq<Info>, calls: seq<Call>, c: Call)
    requires forall i :: 0 <= i < |hosts| ==> Untyped(hosts[i])
    requires Distinct(calls + [c])
    ensures ExpandAll(Blocks(hosts, calls), c) == Blocks(hosts, calls + [c])
    ensures Hits(Blocks(hosts, calls), c) == |hosts|
  {
    if hosts != [] {
      BlocksGrow(hosts[..|hosts| - 1], calls, c);
      BlockGrows(hosts[|hosts| - 1], calls, c);
      ExpandJoin(Blocks(hosts[..|hosts| - 1], calls), Block(hosts[|hosts| - 1], calls), c);
    }
  }

  lemma {:induction false} BlocksAlone(hosts: seq<Info>)
    ensures Blocks(hosts, []) == hosts
  {
    if hosts != [] {
      var front, last := hosts[..|hosts| - 1], hosts[|hosts| - 1];
      BlocksAlone(front);
      assert Block(last, []) == [last] && front + [last] == hosts;
    }
  }

  /** A multihomed host and any number of socket types: one block for each address, in the
      order of the addresses, and every call finds every address once. */
  lemma {:induction false} MultihomedBlocks(hosts: seq<Info>, calls: seq<Call>)
    requires forall i :: 0 <= i < |hosts| ==> Untyped(hosts[i])
    requires Distinct(calls)
    ensures After(hosts, calls) == Blocks(hosts, calls)
    ensures forall i :: 0 <= i < |calls| ==> Counts(hosts, calls)[i] == |hosts|
    decreases |calls|
  {
    BlocksAlone(hosts);
    if calls != [] {
      var before, c := calls[..|calls| - 1], calls[|calls| - 1];
      assert calls == before + [c];
      DistinctPart(before, c);
      MultihomedBlocks(hosts, before);
      BlocksGrow(hosts, before, c);
    }
  }

  /** With a socket type given, only the calls for that type set ports, and no node is added. */
  lemma {:induction false} TypedList(hosts: seq<Info>, c: Call)
    requires forall i :: 0 <= i < |hosts| ==> !hosts[i].clone && !hosts[i].family.Local?
    ensures |ExpandAll(hosts, c)| == |hosts|
    ensures forall i :: 0 <= i < |hosts| ==>
              ExpandAll(hosts, c)[i] == if hosts[i].socktype == c.socktype then Stamp(hosts[i], c) else hosts[i]
  {
    if hosts != [] {
      TypedList(hosts[..|hosts| - 1], c);
    }
  }

  /** No socket type: a stream node and a datagram node for each address, in the order of the
      addresses, each with its own port. */
  lemma {:induction false} StreamAndDatagram(hosts: seq<Info>, tcp: int, udp: int)
    requires forall i :: 0 <= i < |hosts| ==> Untyped(hosts[i])
    ensures Paired(After(hosts, [Call(tcp, SOCK_STREAM), Call(udp, SOCK_DGRAM)]), hosts, tcp, udp)
  {
    MultihomedBlocks(hosts, [Call(tcp, SOCK_STREAM), Call(udp, SOCK_DGRAM)]);
    PairBlocks(hosts, tcp, udp);
  }

  /** The two nodes of every address. */
  ghost predicate Paired(v: seq<Info>, hosts: seq<Info>, tcp: int, udp: int) {
    && |v| == 2 * |hosts|
    && forall i :: 0 <= i < |hosts| ==>
         && v[2 * i] == hosts[i].(socktype := SOCK_STREAM, port := tcp)
         && v[2 * i + 1] == hosts[i].(clone := false, canonname := None, socktype := SOCK_DGRAM, port := udp)
  }

  lemma PairedOneMore(v: seq<Info>, hosts: seq<Info>, tcp: int, udp: int, h: Info)
    requires Paired(v, hosts, tcp, udp)
    ensures var pair := [h.(socktype := SOCK_STREAM, port := tcp),
                         h.(clone := false, canonname := None, socktype := SOCK_DGRAM, port := udp)];
            Paired(v + pair, hosts + [h], tcp, udp)
  {}

  lemma {:induction false} PairBlocks(hosts: seq<Info>, tcp: int, udp: int)
    requires forall i :: 0 <= i < |hosts| ==> Untyped(hosts[i])
    ensures Paired(Blocks(hosts, [Call(tcp, SOCK_STREAM), Call(udp, SOCK_DGRAM)]), hosts, tcp, udp)
  {
    if hosts != [] {
      var front, last := hosts[..|hosts| - 1], hosts[|hosts| - 1];
      PairBlocks(front, tcp, udp);
      PairBlock(last, tcp, udp);
      PairedOneMore(Blocks(front, [Call(tcp, SOCK_STREAM), Call(udp, SOCK_DGRAM)]), front, tcp, udp, last);
      assert hosts == front + [last];
    }
  }

  lemma PairBlock(h: Info, tcp: int, udp: int)
    requires Untyped(h)
    ensures Block(h, [Call(tcp, SOCK_STREAM), Call(udp, SOCK_DGRAM)])
         == [h.(socktype := SOCK_STREAM, port := tcp),
             h.(clone := false, canonname := None, socktype := SOCK_DGRAM, port := udp)]
  {
    BlockOneMore(h, [Call(tcp, SOCK_STREAM)], Call(udp, SOCK_DGRAM));
    assert [Call(tcp, SOCK_STREAM)] + [Call(udp, SOCK_DGRAM)] == [Call(tcp, SOCK_STREAM), Call(udp, SOCK_DGRAM)];
    assert Clones(h, [Call(tcp, SOCK_STREAM)][1..]) == [];
  }
}
