/**
 The preforked server of server/serv05.c and server/child05.c: the parent accepts and passes
 each connection to a free child through a stream pipe; a child that has served one writes a
 byte back.

 Children run, or die, between any two steps of the parent; a script says which do so at each
 such point.  A connection is known by its number in accept order.  The steps are functions of
 the whole state, the parent's methods are proved to be those steps, and the properties of
 every run are proved for them.
 */
module Prefork {
  import opened Common

  /** A Child structure, and the state of the child process and of its pipe. */
  datatype Child = Child(
    status: int,            // 0 = ready
    requests: seq<nat>,     // descriptors passed and not yet received
    serving: Option<nat>,   // the connection in web_child
    replies: nat,           // bytes written by the child and not yet read by the parent
    dead: bool)

  datatype ChildStep = Go(i: nat) | Die(i: nat)

  datatype Turn = Turn(
    waiting: seq<ChildStep>,        // what children do while the parent is in select
    clientWaiting: bool,            // a connection is pending when select looks
    beforeAccept: seq<ChildStep>,
    beforeRead: seq<seq<ChildStep>>)

  /** The error exits of the parent; `Stuck` is a read that waits for a byte. */
  datatype Exit = Running | NoChildren | PipeBroken | ChildDied | Stuck

  datatype Pool = Pool(
    cs: seq<Child>,
    navail: int,
    given: seq<nat>,        // history: the child that got the k-th connection
    served: seq<nat>,       // history: the connections served, in the order of their ends
    exit: Exit)

  const IDLE := Child(0, [], None, 0, false)

  // ------------------------------------------------------------ steps of the children

  /** A living child receives a descriptor, or it finishes and says so. */
  function Run(c: Child): Child {
    if c.dead then c
    else if c.serving.Some? then c.(serving := None, replies := c.replies + 1)
    else if c.requests != [] then c.(serving := Some(c.requests[0]), requests := c.requests[1..])
    else c
  }

  predicate CanRun(c: Child) {
    !c.dead && (c.serving.Some? || c.requests != [])
  }

  /** The connection that this step of the child finishes. */
  function Finished(c: Child): seq<nat> {
    if !c.dead && c.serving.Some? then [c.serving.value] else []
  }

  function Stepped(p: Pool, step: ChildStep): Pool {
    if step.i >= |p.cs| then p
    else match step
      case Go(i) => p.(cs := p.cs[i := Run(p.cs[i])], served := p.served + Finished(p.cs[i]))
      case Die(i) => p.(cs := p.cs[i := p.cs[i].(dead := true)])
  }

  function AllStepped(p: Pool, script: seq<ChildStep>): Pool
    decreases |script|
  {
    if script == [] then p else AllStepped(Stepped(p, script[0]), script[1..])
  }

  // ------------------------------------------------------------ steps of the parent

  /** The child that gets the next connection. */
  function FirstFree(cs: seq<Child>): (i: nat)
    ensures i <= |cs|
    ensures forall j :: 0 <= j < i ==> cs[j].status != 0
    ensures i < |cs| ==> cs[i].status == 0
  {
    if cs == [] then 0
    else
      var i := FirstFree(cs[..|cs| - 1]);
      assert forall j :: 0 <= j < |cs| - 1 ==> cs[..|cs| - 1][j] == cs[j];
      if i < |cs| - 1 then i else if cs[|cs| - 1].status == 0 then |cs| - 1 else |cs|
  }

  /** A pipe is readable when it holds a byte, or at the end of file that a dead child leaves. */
  predicate Readable(c: Child) {
    c.replies > 0 || c.dead
  }

  function ReadyOf(cs: seq<Child>): (r: seq<bool>)
    ensures |r| == |cs| && forall i :: 0 <= i < |cs| ==> r[i] == Readable(cs[i])
  {
    seq(|cs|, i requires 0 <= i < |cs| => Readable(cs[i]))
  }

  /** The descriptors select reports from `i` on. */
  function Count(ready: seq<bool>, i: nat): (n: nat)
    requires i <= |ready|
    ensures n == 0 <==> forall j :: i <= j < |ready| ==> !ready[j]
    decreases |ready| - i
  {
    if i == |ready| then 0 else (if ready[i] then 1 else 0) + Count(ready, i + 1)
  }

  function Accepted(p: Pool): Pool {
    var i := FirstFree(p.cs);
    if i == |p.cs| then p.(exit := NoChildren)
    else
      var q := p.(cs := p.cs[i := p.cs[i].(status := 1)], navail := p.navail - 1);
      if p.cs[i].dead then q.(exit := PipeBroken)
      else q.(cs := p.cs[i := p.cs[i].(status := 1, requests := p.cs[i].requests + [|p.given|])],
              given := p.given + [i])
  }

  function Freed(p: Pool, i: nat): Pool
    requires i < |p.cs|
  {
    var c := p.cs[i];
    if c.replies > 0 then
      p.(cs := p.cs[i := c.(status := 0, replies := c.replies - 1)], navail := p.navail + 1)
    else p.(exit := if c.dead then ChildDied else Stuck)
  }

  /** The scan at child `i`. */
  function Looked(p: Pool, ready: bool, script: seq<ChildStep>, i: nat): Pool
    requires i < |p.cs|
    ensures |Looked(p, ready, script, i).cs| == |p.cs|
  {
    SameSize(p, script);
    var q := AllStepped(p, script);
    if ready then Freed(q, i) else q
  }

  function At(scripts: seq<seq<ChildStep>>, i: nat): (script: seq<ChildStep>)
    ensures i < |scripts| ==> script == scripts[i]
  {
    if i < |scripts| then scripts[i] else []
  }

  /** The scan from child `i` on, which stops after as many as select has counted. */
  function Scanned(p: Pool, ready: seq<bool>, scripts: seq<seq<ChildStep>>, i: nat): Pool
    requires i <= |ready| == |p.cs|
    decreases |ready| - i
  {
    if !p.exit.Running? || Count(ready, i) == 0 then p
    else Scanned(Looked(p, ready[i], At(scripts, i), i), ready, scripts, i + 1)
  }

  function AfterAccept(q: Pool, listen: bool): Pool {
    if listen then Accepted(q) else q
  }

  /** What the parent does once select has returned in state `s`. */
  function Passed(s: Pool, t: Turn): Pool {
    var listen, ready := t.clientWaiting && s.navail > 0, ReadyOf(s.cs);
    if !listen && Count(ready, 0) == 0 then s
    else
      SameSize(s, t.beforeAccept);
      var q := AllStepped(s, t.beforeAccept);
      Scanned(AfterAccept(q, listen), ready, t.beforeRead, 0)
  }

  /** One turn of the loop of main. */
  function Turned(p: Pool, t: Turn): Pool {
    Passed(AllStepped(p, t.waiting), t)
  }

  function Turns(p: Pool, ts: seq<Turn>): Pool
    decreases |ts|
  {
    if !p.exit.Running? || ts == [] then p else Turns(Turned(p, ts[0]), ts[1..])
  }

  lemma {:induction false} SameSize(p: Pool, script: seq<ChildStep>)
    ensures |AllStepped(p, script).cs| == |p.cs|
    decreases |script|
  {
    if script != [] {
      SameSize(Stepped(p, script[0]), script[1..]);
    }
  }

  // ------------------------------------------------------------ what every run keeps

  /** A child is busy exactly when it has one request, one request in service or one byte
      ready for the parent. */
  predicate Consistent(c: Child) {
    (c.status == 0 || c.status == 1) && |c.requests| + (if c.serving.Some? then 1 else 0) + c.replies == c.status
  }

  /** The connection that a child has not finished. */
  function Job(c: Child): Option<nat> {
    if c.serving.Some? then c.serving else if c.requests != [] then Some(c.requests[0]) else None
  }

  function Available(cs: seq<Child>): (n: nat)
    ensures n <= |cs|
  {
    if cs == [] then 0 else Available(cs[..|cs| - 1]) + if cs[|cs| - 1].status == 0 then 1 else 0
  }

  /** Every connection is with the one child it was given to until that child has served it. */
  ghost predicate Accounted(cs: seq<Child>, given: seq<nat>, served: seq<nat>) {
    && (forall i :: 0 <= i < |cs| ==> Consistent(cs[i]))
    && (forall i :: 0 <= i < |cs| && Job(cs[i]).Some? ==>
          var k := Job(cs[i]).value; k < |given| && given[k] == i && k !in served)
    && (forall k :: 0 <= k < |given| && k !in served ==> given[k] < |cs| && Job(cs[given[k]]) == Some(k))
    && (forall a :: 0 <= a < |served| ==> served[a] < |given|)
    && (forall a, b :: 0 <= a < b < |served| ==> served[a] != served[b])
  }

  /** The parent never finds no child where `navail` promises one, and never waits for a byte
      that is not there. */
  ghost predicate Sound(p: Pool) {
    && !p.exit.NoChildren? && !p.exit.Stuck?
    && (!p.exit.PipeBroken? ==> p.navail == Available(p.cs) && Accounted(p.cs, p.given, p.served))
  }

  lemma {:induction false} AvailableUpdate(cs: seq<Child>, i: nat, c: Child)
    requires i < |cs|
    ensures Available(cs[i := c]) == Available(cs)
              - (if cs[i].status == 0 then 1 else 0) + (if c.status == 0 then 1 else 0)
  {
    var n := |cs| - 1;
    if i == n {
      assert cs[i := c][..n] == cs[..n];
    } else {
      assert cs[i := c][..n] == cs[..n][i := c];
      AvailableUpdate(cs[..n], i, c);
    }
  }

  lemma {:induction false} SomeAvailable(cs: seq<Child>)
    ensures Available(cs) > 0 <==> exists i :: 0 <= i < |cs| && cs[i].status == 0
  {
    if cs != [] {
      SomeAvailable(cs[..|cs| - 1]);
      assert forall i :: 0 <= i < |cs| - 1 ==> cs[..|cs| - 1][i] == cs[i];
    }
  }

  lemma {:induction false} AllAvailable(cs: seq<Child>)
    requires forall i :: 0 <= i < |cs| ==> cs[i].status == 0
    ensures Available(cs) == |cs|
  {
    if cs != [] {
      AllAvailable(cs[..|cs| - 1]);
    }
  }

  function Initial(n: nat): Pool {
    Pool(seq(n, _ => IDLE), n, [], [], Running)
  }

  lemma InitialIsSound(n: nat)
    ensures Sound(Initial(n))
  {
    AllAvailable(Initial(n).cs);
  }

  lemma Gave(cs: seq<Child>, given: seq<nat>, served: seq<nat>, i: nat, c: Child)
    requires Accounted(cs, given, served) && i < |cs| && cs[i].status == 0
    requires c == cs[i].(status := 1, requests := cs[i].requests + [|given|])
    ensures Accounted(cs[i := c], given + [i], served)
  {
    var ds := cs[i := c];
    assert Job(cs[i]).None? && Job(c) == Some(|given|);
    assert |given| !in served;
    forall k | 0 <= k < |given + [i]| && k !in served
      ensures (given + [i])[k] < |ds| && Job(ds[(given + [i])[k]]) == Some(k)
    {
      if k < |given| {
        assert Job(cs[given[k]]) == Some(k);
      }
    }
  }

  lemma Ran(cs: seq<Child>, given: seq<nat>, served: seq<nat>, i: nat)
    requires Accounted(cs, given, served) && i < |cs|
    ensures Accounted(cs[i := Run(cs[i])], given, served + Finished(cs[i]))
  {
    var ds, done := cs[i := Run(cs[i])], served + Finished(cs[i]);
    forall k | 0 <= k < |given| && k !in done
      ensures given[k] < |ds| && Job(ds[given[k]]) == Some(k)
    {
      assert k !in served;
      assert Job(cs[given[k]]) == Some(k);
    }
    forall j | 0 <= j < |ds| && Job(ds[j]).Some?
      ensures var k := Job(ds[j]).value; k < |given| && given[k] == j && k !in done
    {
      assert Job(ds[j]) == Job(cs[j]);
    }
  }

  /** A change that leaves every child its job and consistent. */
  lemma Kept(cs: seq<Child>, ds: seq<Child>, given: seq<nat>, served: seq<nat>)
    requires Accounted(cs, given, served) && |ds| == |cs|
    requires forall j :: 0 <= j < |cs| ==> Consistent(ds[j]) && Job(ds[j]) == Job(cs[j])
    ensures Accounted(ds, given, served)
  {}

  /** What children cannot do: change a status, take a byte back, or live again. */
  ghost predicate Meanwhile(cs: seq<Child>, ds: seq<Child>) {
    && |cs| == |ds|
    && forall j :: 0 <= j < |cs| ==>
         && ds[j].status == cs[j].status && ds[j].replies >= cs[j].replies
         && (cs[j].dead ==> ds[j].dead && ds[j].replies == cs[j].replies)
  }

  lemma GoKeeps(p: Pool, i: nat)
    requires Sound(p) && p.exit.Running? && i < |p.cs|
    ensures Sound(Stepped(p, Go(i))) && Meanwhile(p.cs, Stepped(p, Go(i)).cs)
  {
    Ran(p.cs, p.given, p.served, i);
    AvailableUpdate(p.cs, i, Run(p.cs[i]));
  }

  lemma DieKeeps(p: Pool, i: nat)
    requires Sound(p) && p.exit.Running? && i < |p.cs|
    ensures Sound(Stepped(p, Die(i))) && Meanwhile(p.cs, Stepped(p, Die(i)).cs)
  {
    var c := p.cs[i].(dead := true);
    assert Job(c) == Job(p.cs[i]) && (Consistent(p.cs[i]) ==> Consistent(c));
    Kept(p.cs, p.cs[i := c], p.given, p.served);
    AvailableUpdate(p.cs, i, c);
  }

  lemma StepKeeps(p: Pool, step: ChildStep)
    requires Sound(p) && p.exit.Running?
    ensures Sound(Stepped(p, step)) && Stepped(p, step).exit.Running?
    ensures Meanwhile(p.cs, Stepped(p, step).cs)
    ensures Stepped(p, step).navail == p.navail && Stepped(p, step).given == p.given
  {
    if step.i < |p.cs| {
      match step
      case Go(i) => GoKeeps(p, i);
      case Die(i) => DieKeeps(p, i);
    }
  }

  lemma MeanwhileOn(a: seq<Child>, b: seq<Child>, c: seq<Child>)
    requires Meanwhile(a, b) && Meanwhile(b, c)
    ensures Meanwhile(a, c)
  {}

  lemma {:induction false} AllStepsKeep(p: Pool, script: seq<ChildStep>)
    requires Sound(p) && p.exit.Running?
    ensures Sound(AllStepped(p, script)) && AllStepped(p, script).exit.Running?
    ensures Meanwhile(p.cs, AllStepped(p, script).cs)
    ensures AllStepped(p, script).navail == p.navail && AllStepped(p, script).given == p.given
    decreases |script|
  {
    if script != [] {
      StepKeeps(p, script[0]);
      AllStepsKeep(Stepped(p, script[0]), script[1..]);
      MeanwhileOn(p.cs, Stepped(p, script[0]).cs, AllStepped(p, script).cs);
    }
  }

  /** The new connection goes to the first free child, if that is alive. */
  lemma AcceptKeeps(p: Pool)
    requires Sound(p) && p.exit.Running? && p.navail > 0
    ensures Sound(Accepted(p)) && FirstFree(p.cs) < |p.cs| == |Accepted(p).cs|
    ensures Accepted(p).exit == if p.cs[FirstFree(p.cs)].dead then PipeBroken else Running
  {
    SomeAvailable(p.cs);
    var i := FirstFree(p.cs);
    if !p.cs[i].dead {
      var c := p.cs[i].(status := 1, requests := p.cs[i].requests + [|p.given|]);
      Gave(p.cs, p.given, p.served, i, c);
      AvailableUpdate(p.cs, i, c);
    }
  }

  lemma Quiet(c: Child)
    requires Consistent(c) && c.replies > 0
    ensures c.status == 1 && c.replies == 1 && Job(c).None? && Consistent(c.(status := 0, replies := 0))
  {}

  lemma FreedKeeps(p: Pool, i: nat)
    requires Sound(p) && p.exit.Running? && i < |p.cs| && Readable(p.cs[i])
    ensures Sound(Freed(p, i))
    ensures Freed(p, i).exit == if p.cs[i].replies > 0 then Running else ChildDied
  {
    if p.cs[i].replies > 0 {
      var c := p.cs[i].(status := 0, replies := p.cs[i].replies - 1);
      Quiet(p.cs[i]);
      Kept(p.cs, p.cs[i := c], p.given, p.served);
      AvailableUpdate(p.cs, i, c);
    }
  }

  /** The pipes reported from `i` on are still readable. */
  ghost predicate StillReady(cs: seq<Child>, ready: seq<bool>, i: nat) {
    |ready| == |cs| && forall j :: i <= j < |cs| && ready[j] ==> Readable(cs[j])
  }

  lemma LookKeeps(p: Pool, ready: seq<bool>, script: seq<ChildStep>, i: nat)
    requires Sound(p) && p.exit.Running? && i < |p.cs| && StillReady(p.cs, ready, i)
    ensures var q := Looked(p, ready[i], script, i);
            && Sound(q) && StillReady(q.cs, ready, i + 1) && q.given == p.given
            && (q.exit.Running? || q.exit.ChildDied?)
            && (q.exit.ChildDied? <==> ready[i] && p.cs[i].replies == 0)
            && (q.exit.Running? ==> SweptOne(p.cs, q.cs, i, ready[i]))
  {
    AllStepsKeep(p, script);
    var q := AllStepped(p, script);
    if ready[i] {
      assert Readable(q.cs[i]);
      FreedKeeps(q, i);
    }
  }

  /** The effect of looking at child `i`. */
  ghost predicate SweptOne(cs: seq<Child>, ds: seq<Child>, i: nat, ready: bool) {
    && |cs| == |ds|
    && forall j :: 0 <= j < |cs| ==>
         && ds[j].status == (if j == i && ready then 0 else cs[j].status)
         && (j != i && Readable(cs[j]) ==> (ds[j].replies == 0 <==> cs[j].replies == 0))
  }

  /** The effect of the scan from `i` on: the reported children are free, all others as before. */
  ghost predicate Swept(cs: seq<Child>, ds: seq<Child>, i: nat, ready: seq<bool>) {
    && |cs| == |ds| == |ready|
    && forall j :: 0 <= j < |cs| ==> ds[j].status == if i <= j && ready[j] then 0 else cs[j].status
  }

  lemma SweptOn(cs: seq<Child>, ds: seq<Child>, es: seq<Child>, i: nat, ready: seq<bool>)
    requires i < |ready| == |cs| && SweptOne(cs, ds, i, ready[i]) && Swept(ds, es, i + 1, ready)
    ensures Swept(cs, es, i, ready)
  {}

  /** A child that has only its end of file to give. */
  predicate Silent(c: Child) {
    c.dead && c.replies == 0
  }

  ghost predicate Orphaned(cs: seq<Child>) {
    exists j :: 0 <= j < |cs| && Silent(cs[j])
  }

  /** Some reported child from `i` on has only its end of file to give. */
  ghost predicate Lost(cs: seq<Child>, ready: seq<bool>, i: nat) {
    |ready| == |cs| && exists j :: i <= j < |cs| && ready[j] && cs[j].replies == 0
  }

  lemma LostOn(cs: seq<Child>, ds: seq<Child>, i: nat, ready: seq<bool>)
    requires i < |ready| == |cs| && StillReady(cs, ready, i) && SweptOne(cs, ds, i, ready[i])
    requires !(ready[i] && cs[i].replies == 0)
    ensures Lost(cs, ready, i) <==> Lost(ds, ready, i + 1)
  {
    if Lost(cs, ready, i) {
      var j :| i <= j < |cs| && ready[j] && cs[j].replies == 0;
      assert i + 1 <= j && ready[j] && ds[j].replies == 0;
    }
    if Lost(ds, ready, i + 1) {
      var j :| i + 1 <= j < |cs| && ready[j] && ds[j].replies == 0;
      assert Readable(cs[j]);
    }
  }

  /** What the scan from child `i` on comes to. */
  ghost predicate ScanRule(p: Pool, ready: seq<bool>, i: nat, q: Pool) {
    && Sound(q) && q.given == p.given
    && q.exit == (if Lost(p.cs, ready, i) then ChildDied else Running)
    && (q.exit.Running? ==> Swept(p.cs, q.cs, i, ready))
  }

  lemma NothingLeft(p: Pool, ready: seq<bool>, i: nat)
    requires Sound(p) && p.exit.Running? && i <= |p.cs| && StillReady(p.cs, ready, i) && Count(ready, i) == 0
    ensures ScanRule(p, ready, i, p)
  {}

  lemma ScanOn(p: Pool, q: Pool, r: Pool, ready: seq<bool>, i: nat)
    requires i < |p.cs| && StillReady(p.cs, ready, i) && q.given == p.given
    requires SweptOne(p.cs, q.cs, i, ready[i]) && !(ready[i] && p.cs[i].replies == 0)
    requires ScanRule(q, ready, i + 1, r)
    ensures ScanRule(p, ready, i, r)
  {
    LostOn(p.cs, q.cs, i, ready);
    if r.exit.Running? {
      SweptOn(p.cs, q.cs, r.cs, i, ready);
    }
  }

  /** The early exit skips no reported descriptor. */
  lemma {:induction false} ScanKeeps(p: Pool, ready: seq<bool>, scripts: seq<seq<ChildStep>>, i: nat)
    requires Sound(p) && p.exit.Running? && i <= |p.cs| && StillReady(p.cs, ready, i)
    ensures ScanRule(p, ready, i, Scanned(p, ready, scripts, i))
    decreases |ready| - i
  {
    if Count(ready, i) == 0 {
      NothingLeft(p, ready, i);
    } else {
      LookKeeps(p, ready, At(scripts, i), i);
      var q := Looked(p, ready[i], At(scripts, i), i);
      if q.exit.Running? {
        ScanKeeps(q, ready, scripts, i + 1);
        ScanOn(p, q, Scanned(q, ready, scripts, i + 1), ready, i);
      } else {
        assert ready[i] && p.cs[i].replies == 0;
      }
    }
  }

  /** The rule of one turn, in terms of what select sees: at most one connection is accepted,
      by the first free child; the children reported become free, and no others. */
  ghost predicate TurnRule(s: Pool, client: bool, q: Pool) {
    var accepted := client && s.navail > 0;
    && |q.cs| == |s.cs|
    && q.given == s.given + (if accepted then [FirstFree(s.cs)] else [])
    && forall j :: 0 <= j < |s.cs| ==>
         q.cs[j].status == if Readable(s.cs[j]) then 0
                           else if accepted && j == FirstFree(s.cs) then 1
                           else s.cs[j].status
  }

  lemma SameFree(cs: seq<Child>, ds: seq<Child>)
    requires |cs| == |ds| && forall i :: 0 <= i < |cs| ==> cs[i].status == ds[i].status
    ensures FirstFree(cs) == FirstFree(ds)
  {
    var i, j := FirstFree(cs), FirstFree(ds);
    assert i < |ds| ==> ds[i].status == 0;
    assert j < |cs| ==> cs[j].status == 0;
  }

  /** What was reported can still be read, and the same children are lost. */
  lemma StillReported(cs: seq<Child>, ds: seq<Child>)
    requires |cs| == |ds|
    requires forall j :: 0 <= j < |cs| && Readable(cs[j]) ==>
               Readable(ds[j]) && (ds[j].replies == 0 <==> cs[j].replies == 0)
    ensures StillReady(ds, ReadyOf(cs), 0) && (Lost(ds, ReadyOf(cs), 0) <==> Orphaned(cs))
  {
    var ready := ReadyOf(cs);
    if Lost(ds, ready, 0) {
      var j :| 0 <= j < |ds| && ready[j] && ds[j].replies == 0;
      assert Silent(cs[j]);
    }
    if Orphaned(cs) {
      var j :| 0 <= j < |cs| && Silent(cs[j]);
      assert ready[j] && ds[j].replies == 0;
    }
  }

  /** Between the selection and the scan. */
  lemma Selected(s: Pool, q: Pool, listen: bool)
    requires Sound(q) && q.exit.Running? && Meanwhile(s.cs, q.cs)
    requires listen ==> q.navail > 0
    ensures FirstFree(q.cs) == FirstFree(s.cs)
    ensures Sound(AfterAccept(q, listen)) && |AfterAccept(q, listen).cs| == |s.cs|
    ensures listen ==> FirstFree(s.cs) < |q.cs|
    ensures AfterAccept(q, listen).exit == if listen && q.cs[FirstFree(s.cs)].dead then PipeBroken else Running
    ensures AfterAccept(q, listen).exit.Running? ==>
              && StillReady(AfterAccept(q, listen).cs, ReadyOf(s.cs), 0)
              && (Lost(AfterAccept(q, listen).cs, ReadyOf(s.cs), 0) <==> Orphaned(s.cs))
  {
    SameFree(s.cs, q.cs);
    if listen {
      AcceptKeeps(q);
    }
    if AfterAccept(q, listen).exit.Running? {
      StillReported(s.cs, AfterAccept(q, listen).cs);
    }
  }

  lemma RuleHolds(s: Pool, q: Pool, e: Pool, client: bool)
    requires Sound(q) && q.exit.Running? && Meanwhile(s.cs, q.cs) && q.navail == s.navail && q.given == s.given
    requires FirstFree(q.cs) == FirstFree(s.cs)
    requires var r := AfterAccept(q, client && s.navail > 0);
             r.exit.Running? && Swept(r.cs, e.cs, 0, ReadyOf(s.cs)) && e.given == r.given
    ensures TurnRule(s, client, e)
  {
    if client && s.navail > 0 {
      AcceptKeeps(q);
    }
  }

  lemma NothingReported(s: Pool, client: bool)
    requires Count(ReadyOf(s.cs), 0) == 0 && !(client && s.navail > 0)
    ensures TurnRule(s, client, s) && !Orphaned(s.cs)
  {
    assert forall j :: 0 <= j < |s.cs| ==> !ReadyOf(s.cs)[j] && !Readable(s.cs[j]);
  }

  /** From the scan to the end of the turn. */
  lemma Reported(s: Pool, q: Pool, r: Pool, client: bool, scripts: seq<seq<ChildStep>>)
    requires Sound(q) && q.exit.Running? && Meanwhile(s.cs, q.cs) && q.navail == s.navail && q.given == s.given
    requires r == AfterAccept(q, client && s.navail > 0)
    ensures |r.cs| == |s.cs| && FirstFree(q.cs) == FirstFree(s.cs)
    ensures client && s.navail > 0 ==> FirstFree(s.cs) < |q.cs|
    ensures var e := Scanned(r, ReadyOf(s.cs), scripts, 0);
            && Sound(e)
            && e.exit == (if client && s.navail > 0 && q.cs[FirstFree(s.cs)].dead then PipeBroken
                          else if Orphaned(s.cs) then ChildDied else Running)
            && |e.cs| == |s.cs|
            && (e.exit.Running? ==> TurnRule(s, client, e))
  {
    Selected(s, q, client && s.navail > 0);
    ScanSize(r, ReadyOf(s.cs), scripts, 0);
    if r.exit.Running? {
      ScanKeeps(r, ReadyOf(s.cs), scripts, 0);
      if !Orphaned(s.cs) {
        RuleHolds(s, q, Scanned(r, ReadyOf(s.cs), scripts, 0), client);
      }
    }
  }

  lemma {:induction false} ScanSize(p: Pool, ready: seq<bool>, scripts: seq<seq<ChildStep>>, i: nat)
    requires i <= |ready| == |p.cs|
    ensures |Scanned(p, ready, scripts, i).cs| == |p.cs|
    decreases |ready| - i
  {
    if p.exit.Running? && Count(ready, i) != 0 {
      ScanSize(Looked(p, ready[i], At(scripts, i), i), ready, scripts, i + 1);
    }
  }

  /** One return of select.  The process ends exactly if the connection would go to a dead
      child, or else if select reports a child that is dead and has left no byte. */
  lemma PassedKeeps(s: Pool, t: Turn)
    requires Sound(s) && s.exit.Running?
    ensures Sound(Passed(s, t)) && |Passed(s, t).cs| == |s.cs|
    ensures t.clientWaiting && s.navail > 0 ==> FirstFree(s.cs) < |AllStepped(s, t.beforeAccept).cs|
    ensures Passed(s, t).exit ==
            if t.clientWaiting && s.navail > 0 && AllStepped(s, t.beforeAccept).cs[FirstFree(s.cs)].dead then PipeBroken
            else if Orphaned(s.cs) then ChildDied else Running
    ensures Passed(s, t).exit.Running? ==> TurnRule(s, t.clientWaiting, Passed(s, t))
  {
    if !(t.clientWaiting && s.navail > 0) && Count(ReadyOf(s.cs), 0) == 0 {
      NothingReported(s, t.clientWaiting);
    } else {
      AllStepsKeep(s, t.beforeAccept);
      var q := AllStepped(s, t.beforeAccept);
      Reported(s, q, AfterAccept(q, t.clientWaiting && s.navail > 0), t.clientWaiting, t.beforeRead);
    }
  }

  /** One turn, in terms of the state in which select returns. */
  lemma TurnedKeeps(p: Pool, t: Turn)
    requires Sound(p) && p.exit.Running?
    ensures Sound(Turned(p, t)) && |Turned(p, t).cs| == |p.cs|
    ensures Meanwhile(p.cs, AllStepped(p, t.waiting).cs)
    ensures Turned(p, t).exit.Running? ==> TurnRule(AllStepped(p, t.waiting), t.clientWaiting, Turned(p, t))
    ensures Orphaned(AllStepped(p, t.waiting).cs) ==> !Turned(p, t).exit.Running?
  {
    AllStepsKeep(p, t.waiting);
    PassedKeeps(AllStepped(p, t.waiting), t);
  }

  /** Any run, with children running and dying anywhere. */
  lemma {:induction false} AnyRun(p: Pool, ts: seq<Turn>)
    requires Sound(p)
    ensures Sound(Turns(p, ts)) && |Turns(p, ts).cs| == |p.cs|
    decreases |ts|
  {
    if p.exit.Running? && ts != [] {
      TurnedKeeps(p, ts[0]);
      AnyRun(Turned(p, ts[0]), ts[1..]);
    }
  }

  /** Two steps of a living child serve the connection it has, and then its byte is ready. */
  lemma ServesInTwoSteps(p: Pool, i: nat)
    requires Sound(p) && p.exit.Running? && i < |p.cs| && !p.cs[i].dead && Job(p.cs[i]).Some?
    ensures var q := AllStepped(p, [Go(i), Go(i)]);
            && Job(p.cs[i]).value in q.served && |q.cs| == |p.cs|
            && Job(q.cs[i]).None? && q.cs[i].replies == 1 && Readable(q.cs[i])
            && forall j :: 0 <= j < |p.cs| && j != i ==> q.cs[j] == p.cs[j]
  {
    var r := Stepped(p, Go(i));
    StepKeeps(p, Go(i));
    assert [Go(i), Go(i)][1..] == [Go(i)] && [Go(i)][1..] == [];
    assert AllStepped(p, [Go(i), Go(i)]) == AllStepped(r, [Go(i)]) == AllStepped(Stepped(r, Go(i)), []);
    if p.cs[i].serving.Some? {
      assert r.cs[i].serving.None? && r.cs[i].requests == [] && r.served == p.served + [p.cs[i].serving.value];
    } else {
      assert r.cs[i].serving == Some(p.cs[i].requests[0]);
    }
  }

  /** A child that dies is dead from then on, and it serves nothing more. */
  lemma {:induction false} DiesForGood(p: Pool, script: seq<ChildStep>, i: nat)
    requires Sound(p) && p.exit.Running? && i < |p.cs|
    requires p.cs[i].dead || Die(i) in script
    ensures |AllStepped(p, script).cs| == |p.cs| && AllStepped(p, script).cs[i].dead
    ensures p.cs[i].dead ==> AllStepped(p, script).cs[i] == p.cs[i]
    decreases |script|
  {
    if script != [] {
      StepKeeps(p, script[0]);
      DiesForGood(Stepped(p, script[0]), script[1..], i);
    }
  }

  /** A run turn by turn: where the parent goes on, the turn obeys its rule; it stops before the end
      of the script only at an error exit. */
  lemma {:induction false} RunByTurns(p: Pool, ts: seq<Turn>) returns (trace: seq<Pool>)
    requires Sound(p) && p.exit.Running?
    ensures Traced(trace, ts) && trace[0] == p && trace[|trace| - 1] == Turns(p, ts)
    ensures Turns(p, ts).exit.Running? ==> |trace| == |ts| + 1
    decreases |ts|
  {
    if ts == [] {
      return [p];
    }
    var q := Turned(p, ts[0]);
    TurnedKeeps(p, ts[0]);
    if !q.exit.Running? {
      return [p, q];
    }
    var rest := RunByTurns(q, ts[1..]);
    TraceOn(p, rest, ts);
    trace := [p] + rest;
  }

  /** Two states that follow each other in a run. */
  ghost predicate FollowsBy(p: Pool, t: Turn, q: Pool) {
    && Sound(p) && p.exit.Running?
    && (q.exit.Running? ==> TurnRule(AllStepped(p, t.waiting), t.clientWaiting, q))
  }

  ghost predicate Traced(trace: seq<Pool>, ts: seq<Turn>) {
    1 <= |trace| <= |ts| + 1 && forall k :: 0 <= k < |trace| - 1 ==> FollowsBy(trace[k], ts[k], trace[k + 1])
  }

  lemma TraceOn(p: Pool, rest: seq<Pool>, ts: seq<Turn>)
    requires ts != [] && Traced(rest, ts[1..]) && FollowsBy(p, ts[0], rest[0])
    ensures Traced([p] + rest, ts)
  {
    var trace := [p] + rest;
    forall k | 0 <= k < |trace| - 1 ensures FollowsBy(trace[k], ts[k], trace[k + 1]) {
      if k > 0 {
        assert ts[k] == ts[1..][k - 1] && trace[k] == rest[k - 1] && trace[k + 1] == rest[k];
      }
    }
  }

  /** When no child is available, some child can go on or can be read, so the select that
      leaves out the listening socket does not wait for ever. */
  lemma NeverDeaf(p: Pool)
    requires Sound(p) && p.exit.Running? && p.navail <= 0 && p.cs != []
    ensures exists i :: 0 <= i < |p.cs| && (CanRun(p.cs[i]) || Readable(p.cs[i]))
  {
    SomeAvailable(p.cs);
    assert p.cs[0].status != 0 && Consistent(p.cs[0]);
    assert CanRun(p.cs[0]) || Readable(p.cs[0]);
  }

  /** The connections accepted are the ones served and the ones children still have: no child
      has two, and none has one that another child has or that is served. */
  lemma EachConnectionOnce(n: nat, ts: seq<Turn>, k: nat)
    requires !Turns(Initial(n), ts).exit.PipeBroken? && k < |Turns(Initial(n), ts).given|
    ensures var p := Turns(Initial(n), ts);
            && (k in p.served <==> !exists i :: 0 <= i < |p.cs| && Job(p.cs[i]) == Some(k))
            && (k !in p.served ==> p.given[k] < |p.cs| && Job(p.cs[p.given[k]]) == Some(k))
            && (forall i, j :: 0 <= i < j < |p.cs| && Job(p.cs[i]).Some? ==> Job(p.cs[i]) != Job(p.cs[j]))
  {
    InitialIsSound(n);
    AnyRun(Initial(n), ts);
    var p := Turns(Initial(n), ts);
    if k !in p.served {
      assert Job(p.cs[p.given[k]]) == Some(k);
    }
    forall i, j | 0 <= i < j < |p.cs| && Job(p.cs[i]).Some?
      ensures Job(p.cs[i]) != Job(p.cs[j])
    {
      assert p.given[Job(p.cs[i]).value] == i;
    }
  }

  // ------------------------------------------------------------ the program

  class Server {
    const cptr: array<Child>
    var navail: int
    var connfd: nat                 // the number of the next connection
    var exit: Exit
    ghost var given: seq<nat>       // history, as in Pool
    ghost var served: seq<nat>

    constructor (nchildren: nat)
      ensures Valid() && View() == Initial(nchildren) && fresh(cptr)
    {
      cptr := new Child[nchildren](_ => IDLE);
      navail, connfd, exit := nchildren, 0, Running;
      given, served := [], [];
    }

    ghost predicate Valid()
      reads this
    {
      connfd == |given|
    }

    ghost function View(): Pool
      reads this, cptr
    {
      Pool(cptr[..], navail, given, served, exit)
    }

    /** child_main: one step of a child, or its death. */
    method RunChild(step: ChildStep)
      modifies cptr, this`served
      ensures View() == Stepped(old(View()), step)
    {
      if step.i < cptr.Length {
        match step
        case Die(i) =>
          cptr[i] := cptr[i].(dead := true);
        case Go(i) =>
          served := served + Finished(cptr[i]);
          cptr[i] := Run(cptr[i]);
      }
    }

    /** Some children take a step. */
    method Children(script: seq<ChildStep>)
      modifies cptr, this`served
      ensures View() == AllStepped(old(View()), script)
    {
      ghost var p := View();
      for s := 0 to |script|
        invariant AllStepped(View(), script[s..]) == AllStepped(p, script)
      {
        assert script[s..][0] == script[s] && script[s..][1..] == script[s + 1..];
        RunChild(script[s]);
      }
    }

    /** select on the pipes of all children, and on the listening socket unless all are busy. */
    method Select(clientWaiting: bool) returns (listen: bool, ready: seq<bool>, nsel: nat)
      ensures listen <==> clientWaiting && navail > 0
      ensures ready == ReadyOf(cptr[..])
      ensures nsel == Count(ready, 0) + if listen then 1 else 0
    {
      listen, ready := clientWaiting && navail > 0, ReadyOf(cptr[..]);
      nsel := Count(ready, 0) + if listen then 1 else 0;
    }

    /** The search for an available child. */
    method FindFree() returns (i: nat)
      ensures i == FirstFree(cptr[..])
    {
      i := 0;
      while i < cptr.Length
        invariant i <= cptr.Length
        invariant forall j :: 0 <= j < i ==> cptr[j].status != 0
      {
        if cptr[i].status == 0 {
          return;
        }
        i := i + 1;
      }
    }

    /** The new connection is passed on. */
    method Accept()
      requires Valid()
      modifies cptr, this`navail, this`connfd, this`given, this`exit
      ensures Valid() && View() == Accepted(old(View()))
    {
      var i := FindFree();
      if i == cptr.Length {
        exit := NoChildren;
        return;
      }
      navail := navail - 1;
      if cptr[i].dead {
        cptr[i] := cptr[i].(status := 1);
        exit := PipeBroken;
      } else {
        cptr[i] := cptr[i].(status := 1, requests := cptr[i].requests + [connfd]);
        connfd := connfd + 1;
        given := given + [i];
      }
    }

    /** The byte of child `i` is read, and the child is free again. */
    method ReadReply(i: nat)
      requires i < cptr.Length
      modifies cptr, this`navail, this`exit
      ensures View() == Freed(old(View()), i)
    {
      if cptr[i].replies > 0 {
        cptr[i] := cptr[i].(status := 0, replies := cptr[i].replies - 1);
        navail := navail + 1;
      } else {
        exit := if cptr[i].dead then ChildDied else Stuck;
      }
    }

    /** The scan at child `i`, after some children have run. */
    method Look(i: nat, ready: bool, script: seq<ChildStep>)
      requires i < cptr.Length
      modifies cptr, this`navail, this`served, this`exit
      ensures View() == Looked(old(View()), ready, script, i)
    {
      Children(script);
      if ready {
        ReadReply(i);
      }
    }

    /** The scan for newly available children, which counts `nsel` down. */
    method Scan(ready: seq<bool>, count: nat, scripts: seq<seq<ChildStep>>)
      requires exit == Running && |ready| == cptr.Length && count == Count(ready, 0) > 0
      modifies cptr, this`navail, this`served, this`exit
      ensures View() == Scanned(old(View()), ready, scripts, 0)
    {
      var nsel := count;
      ghost var p := View();
      for i := 0 to cptr.Length
        invariant nsel == Count(ready, i) > 0 && exit == Running
        invariant Scanned(View(), ready, scripts, i) == Scanned(p, ready, scripts, 0)
      {
        Look(i, ready[i], At(scripts, i));
        if exit != Running {
          return;
        }
        if ready[i] {
          nsel := nsel - 1;
          if nsel == 0 {
            return;
          }
        }
      }
    }

    /** One turn of the loop of main. */
    method Once(t: Turn)
      requires Valid() && exit == Running
      modifies this, cptr
      ensures Valid() && View() == Turned(old(View()), t)
    {
      Children(t.waiting);
      var listen, ready, nsel := Select(t.clientWaiting);
      if nsel == 0 { return; }
      Children(t.beforeAccept);
      if listen {
        Accept();
        nsel := nsel - 1;
        if exit != Running || nsel == 0 { return; }
      }
      Scan(ready, nsel, t.beforeRead);
    }

    /** The loop of main, over any number of turns. */
    method Serve(ts: seq<Turn>)
      requires Valid() && View() == Initial(cptr.Length)
      modifies this, cptr
      ensures Valid() && View() == Turns(Initial(cptr.Length), ts) && Sound(View())
      ensures exit == Running ==> 0 <= navail <= cptr.Length
    {
      InitialIsSound(cptr.Length);
      AnyRun(Initial(cptr.Length), ts);
      var t := 0;
      while t < |ts| && exit == Running
        invariant 0 <= t <= |ts| && Valid()
        invariant Turns(View(), ts[t..]) == Turns(Initial(cptr.Length), ts)
        decreases |ts| - t
      {
        assert ts[t..][0] == ts[t] && ts[t..][1..] == ts[t + 1..];
        Once(ts[t]);
        t := t + 1;
      }
    }
  }
}
