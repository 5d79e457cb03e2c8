/** What holds over whole runs of the attach/detach protocol, for every interleaving. */
module AttachRuns {
  import opened Wrappers
  import opened Iaas
  import opened AttachProtocol

  /** Event k leads from state k to state k + 1. */
  ghost predicate IsRun(states: seq<State>, events: seq<Event>) {
    |states| == |events| + 1 &&
    forall k :: 0 <= k < |events| ==> Enabled(states[k], events[k]) && states[k + 1] == Next(states[k], events[k])
  }

  ghost predicate RunsTo(s: State, events: seq<Event>, s': State) {
    exists states :: IsRun(states, events) && states[0] == s && states[|events|] == s'
  }

  lemma Stay(s: State)
    ensures RunsTo(s, [], s)
  {
    assert IsRun([s], []);
  }

  /** A run grows by one enabled event. */
  lemma Extend(s: State, events: seq<Event>, s1: State, e: Event, s2: State)
    requires RunsTo(s, events, s1) && Enabled(s1, e) && s2 == Next(s1, e)
    ensures RunsTo(s, events + [e], s2)
  {
    hide Enabled, Next;
    var states :| IsRun(states, events) && states[0] == s && states[|events|] == s1;
    var longer := states + [s2];
    assert IsRun(longer, events + [e]);
  }

  lemma ThreeSteps(s: State, e1: Event, s1: State, e2: Event, s2: State, e3: Event, s3: State)
    requires Enabled(s, e1) && s1 == Next(s, e1) && Enabled(s1, e2) && s2 == Next(s1, e2)
    requires Enabled(s2, e3) && s3 == Next(s2, e3)
    ensures RunsTo(s, [e1, e2, e3], s3)
  {
    hide Enabled, Next;
    assert IsRun([s, s1, s2, s3], [e1, e2, e3]);
  }

  lemma Join(s: State, events: seq<Event>, s1: State, more: seq<Event>, s2: State)
    requires RunsTo(s, events, s1) && RunsTo(s1, more, s2)
    ensures RunsTo(s, events + more, s2)
  {
    hide Enabled, Next;
    var first :| IsRun(first, events) && first[0] == s && first[|events|] == s1;
    var second :| IsRun(second, more) && second[0] == s1 && second[|more|] == s2;
    var all, n := first + second[1..], |events|;
    forall k | 0 <= k < |events + more|
      ensures Enabled(all[k], (events + more)[k]) && all[k + 1] == Next(all[k], (events + more)[k])
    {
      if k < n {
        assert all[k] == first[k] && all[k + 1] == first[k + 1];
      } else {
        assert all[k] == second[k - n] && all[k + 1] == second[k - n + 1];
      }
    }
    assert IsRun(all, events + more);
  }

  lemma {:induction false} RunKeepsInv(states: seq<State>, events: seq<Event>, k: nat)
    requires IsRun(states, events) && Inv(states[0]) && k < |states|
    ensures Inv(states[k])
  {
    if k == 0 {
    } else {
      RunKeepsInv(states, events, k - 1);
      StepKeepsInv(states[k - 1], events[k - 1]);
    }
  }

  lemma RunReachesInv(s: State, events: seq<Event>, s': State)
    requires Inv(s) && RunsTo(s, events, s')
    ensures Inv(s')
  {
    hide Inv;
    var states :| IsRun(states, events) && states[0] == s && states[|events|] == s';
    RunKeepsInv(states, events, |events|);
  }

  /** Attachment exclusivity: no interleaving of publish and unpublish calls, whatever fails
      or times out, ever attaches a volume twice; and AttachVolume is only ever issued for a
      volume that has no attachment at that moment. */
  lemma Exclusivity(states: seq<State>, events: seq<Event>, k: nat)
    requires IsRun(states, events) && Init(states[0]) && k < |states|
    ensures forall v :: v in states[k].volumes ==> |states[k].volumes[v].attachments| <= 1
    ensures k < |events| && events[k].AttachVolume? ==>
              var call := states[k].calls[events[k].c];
              && (call.vol in states[k].volumes ==> states[k].volumes[call.vol].attachments == [])
              && (Effective(events[k].o) ==> states[k + 1].volumes[call.vol].attachments == [call.machine])
  {
    RunKeepsInv(states, events, k);
    assert forall v :: v in states[k].volumes ==> GoodVolume(states[k].volumes[v]);
    if k < |events| && events[k].AttachVolume? {
      assert Agrees(states[k].calls[events[k].c], states[k].volumes);
    }
  }

  ghost predicate AttachedTo(s: State, v: string, m: string) {
    v in s.volumes && s.volumes[v].attachments == [m]
  }

  /** An effective detach of v from m, or the deletion of v. */
  ghost predicate Releases(s: State, e: Event, v: string, m: string)
    requires Enabled(s, e)
  {
    || (e.DeleteVolume? && e.vol == v)
    || (e.DetachVolume? && Effective(e.o) && s.calls[e.c] == UnpDetach(v, m))
  }

  lemma StaysAttachedStep(s: State, e: Event, v: string, m: string)
    requires Inv(s) && Enabled(s, e) && AttachedTo(s, v, m)
    ensures AttachedTo(Next(s, e), v, m) <==> !Releases(s, e, v, m)
  {
    if IsCallStep(e) {
      StepFrame(s, e);
      assert Agrees(s.calls[e.c], s.volumes);
    }
  }

  /** An attachment stays, alone, until it is detached or the volume is deleted: nothing that
      happens on other volumes, and no call for another machine, removes or joins it. */
  lemma {:induction false} StaysAttached(states: seq<State>, events: seq<Event>, i: nat, j: nat, v: string, m: string)
    requires IsRun(states, events) && Inv(states[0]) && i <= j < |states|
    requires AttachedTo(states[i], v, m)
    requires forall k :: i <= k < j ==> !Releases(states[k], events[k], v, m)
    ensures forall k :: i <= k <= j ==> AttachedTo(states[k], v, m)
  {
    if i == j {
    } else {
      StaysAttached(states, events, i, j - 1, v, m);
      RunKeepsInv(states, events, j - 1);
      StaysAttachedStep(states[j - 1], events[j - 1], v, m);
    }
  }

  /** Event e makes some publish call for v on machine m return success. */
  ghost predicate Publishes(s: State, e: Event, v: string, m: string)
    requires Enabled(s, e)
  {
    IsCallStep(e) && e.c in s.calls && !s.calls[e.c].Finished? &&
    Next(s, e).calls[e.c].Finished? && Next(s, e).calls[e.c].vol == v &&
    Next(s, e).calls[e.c].answer.PublishOk? && Next(s, e).calls[e.c].answer.machine == m
  }

  /** A publish call that reports success leaves its volume attached to its machine. */
  lemma PublishedIsAttached(s: State, e: Event, v: string, m: string)
    requires Inv(s) && Enabled(s, e) && Publishes(s, e, v, m) && v in Next(s, e).volumes
    ensures AttachedTo(Next(s, e), v, m)
  {
    StepFrame(s, e);
    assert Agrees(s.calls[e.c], s.volumes);
    assert s.calls[e.c].PubRead? || s.calls[e.c].PubPoll?;
  }

  /** While v is attached to a, no publish of v for another machine succeeds. */
  lemma NoOtherPublish(s: State, e: Event, v: string, a: string, b: string)
    requires Inv(s) && Enabled(s, e) && AttachedTo(s, v, a) && Publishes(s, e, v, b)
    ensures a == b
  {
    assert !Releases(s, e, v, a) by { assert !e.DetachVolume?; }
    StaysAttachedStep(s, e, v, a);
    PublishedIsAttached(s, e, v, b);
    assert Next(s, e).volumes[v].attachments[0] == a;
  }

  /** The first release of v from a at or after step i, if there is one before step j. */
  lemma FirstRelease(states: seq<State>, events: seq<Event>, i: nat, j: nat, v: string, a: string)
    returns (k: nat)
    requires IsRun(states, events) && i <= j <= |events|
    ensures i <= k <= j && forall x :: i <= x < k ==> !Releases(states[x], events[x], v, a)
    ensures k < j ==> Releases(states[k], events[k], v, a)
  {
    k := i;
    while k < j && !Releases(states[k], events[k], v, a)
      invariant i <= k <= j && forall x :: i <= x < k ==> !Releases(states[x], events[x], v, a)
    {
      k := k + 1;
    }
  }

  lemma ReleaseEmpties(s: State, e: Event, v: string, a: string)
    requires Inv(s) && Enabled(s, e) && AttachedTo(s, v, a) && Releases(s, e, v, a)
    ensures v in Next(s, e).volumes ==> Next(s, e).volumes[v].attachments == []
  {
  }

  /** Migration needs a detach: between a success for machine A and a success for another
      machine B the volume was detached from A, or deleted. The detach is effective: before it
      the volume is attached to A alone, after it to nothing. */
  lemma Migration(states: seq<State>, events: seq<Event>, i: nat, j: nat, v: string, a: string, b: string)
    returns (k: nat)
    requires IsRun(states, events) && Init(states[0]) && i < j < |events| && a != b
    requires Publishes(states[i], events[i], v, a) && v in states[i + 1].volumes
    requires Publishes(states[j], events[j], v, b)
    ensures i < k < j && Releases(states[k], events[k], v, a) && AttachedTo(states[k], v, a)
    ensures v in states[k + 1].volumes ==> states[k + 1].volumes[v].attachments == []
  {
    RunKeepsInv(states, events, i);
    PublishedIsAttached(states[i], events[i], v, a);
    k := FirstRelease(states, events, i + 1, j, v, a);
    StaysAttached(states, events, i + 1, k, v, a);
    RunKeepsInv(states, events, k);
    if k == j {
      NoOtherPublish(states[j], events[j], v, a, b);
    } else {
      ReleaseEmpties(states[k], events[k], v, a);
    }
  }

  lemma RefusesOther(s: State, c: nat, v: string, a: string, b: string)
    requires Inv(s) && AttachedTo(s, v, a) && a != b && c in s.calls && s.calls[c].PubRead? && s.calls[c].vol == v
    requires Resolve(s.machines, s.calls[c].node) == Some(b)
    ensures Next(s, ListMachines(c, Good)) == s.(calls := s.calls[c := Finished(v, Failed(FailedPrecondition))])
  {
    assert Agrees(s.calls[c], s.volumes);
    assert s.calls[c].copy.attachments == [a];
  }

  /** Until then a publish to B fails, and its decision changes nothing in the cloud. */
  lemma OtherMachineRefused(states: seq<State>, events: seq<Event>, i: nat, j: nat,
                            v: string, a: string, b: string)
    requires IsRun(states, events) && Init(states[0]) && i <= j < |events| && a != b
    requires AttachedTo(states[i], v, a)
    requires forall k :: i <= k < j ==> !Releases(states[k], events[k], v, a)
    requires events[j].ListMachines? && events[j].o == Good
    requires states[j].calls[events[j].c].PubRead? && states[j].calls[events[j].c].vol == v
    requires Resolve(states[j].machines, states[j].calls[events[j].c].node) == Some(b)
    ensures states[j + 1].calls[events[j].c] == Finished(v, Failed(FailedPrecondition))
    ensures states[j + 1].volumes == states[j].volumes
  {
    RunKeepsInv(states, events, 0);
    StaysAttached(states, events, i, j, v, a);
    RunKeepsInv(states, events, j);
    RefusesOther(states[j], events[j].c, v, a, b);
  }

  /** Convergence: once an attach of v to m has taken effect, even one that was reported as
      failed or never confirmed by polling, every later publish that resolves to m succeeds at
      its decision, whatever other calls did meanwhile, and no second AttachVolume for v is issued. */
  lemma Converges(states: seq<State>, events: seq<Event>, i: nat, j: nat)
    requires IsRun(states, events) && Init(states[0]) && i < j < |events|
    requires events[i].AttachVolume? && Effective(events[i].o)
    requires var k := states[i].calls[events[i].c];
             && (forall x :: i < x < j ==> !Releases(states[x], events[x], k.vol, k.machine))
             && events[j].ListMachines? && events[j].o == Good
             && states[j].calls[events[j].c].PubRead? && states[j].calls[events[j].c].vol == k.vol
             && Resolve(states[j].machines, states[j].calls[events[j].c].node) == Some(k.machine)
    ensures var k := states[i].calls[events[i].c];
            && states[j + 1].calls[events[j].c] ==
                 Finished(k.vol, PublishOk(states[j].calls[events[j].c].copy.name, k.machine))
            && states[j + 1].volumes == states[j].volumes && AttachedTo(states[j + 1], k.vol, k.machine)
            && forall x :: i < x < j && events[x].AttachVolume? ==> states[x].calls[events[x].c].vol != k.vol
  {
    var k := states[i].calls[events[i].c];
    Exclusivity(states, events, i);
    StaysAttached(states, events, i + 1, j, k.vol, k.machine);
    RunKeepsInv(states, events, j);
    assert Agrees(states[j].calls[events[j].c], states[j].volumes);
    forall x | i < x < j && events[x].AttachVolume? ensures states[x].calls[events[x].c].vol != k.vol
    {
      Exclusivity(states, events, x);
      assert AttachedTo(states[x], k.vol, k.machine);
    }
  }

  /** The retry itself: with a working API, three steps lead from any reachable state in which
      v is attached to m to a successful answer. */
  lemma RetrySucceeds(s: State, c: nat, v: string, node: string, m: string)
    requires Inv(s) && AttachedTo(s, v, m) && !InFlight(s, v) && c !in s.calls
    requires Resolve(s.machines, node) == Some(m)
    ensures Enabled(s, BeginPublish(c, v, node))
    ensures var s1 := Next(s, BeginPublish(c, v, node));
            Enabled(s1, GetVolume(c, Good)) &&
            var s2 := Next(s1, GetVolume(c, Good));
            Enabled(s2, ListMachines(c, Good)) &&
            var s3 := Next(s2, ListMachines(c, Good));
            s3.volumes == s.volumes && s3.calls == s.calls[c := Finished(v, PublishOk(s.volumes[v].name, m))]
  {
    var s1 := Next(s, BeginPublish(c, v, node));
    var s2 := Next(s1, GetVolume(c, Good));
    assert s2.calls[c] == PubRead(v, node, s.volumes[v]);
    assert s.calls[c := PubStart(v, node)][c := PubRead(v, node, s.volumes[v])] == s.calls[c := PubRead(v, node, s.volumes[v])];
    var s3 := Next(s2, ListMachines(c, Good));
    assert s3.calls == s.calls[c := Finished(v, PublishOk(s.volumes[v].name, m))];
  }

  // ----- the two machine resolutions -----

  /** ControllerUnpublishVolume: the node id itself if GetMachine finds it, else the list. */
  function UnpublishTarget(machines: seq<Machine>, known: set<string>, node: string): Option<string> {
    if node in known then Some(node) else Resolve(machines, node)
  }

  /** No machine of the list but the one with that identity is named by a known identity. */
  ghost predicate NoCollision(machines: seq<Machine>, known: set<string>, node: string) {
    node in known ==> forall m :: m in machines && Names(m, node) ==> m.identity == node
  }

  /** For a node id present in the list, the list scan of publish and the get-then-list
      fallback of unpublish agree unless the node id is the identity of a known machine and the
      first machine it names in the list is another one; without collisions they agree. */
  lemma ResolutionsAgree(machines: seq<Machine>, known: set<string>, node: string)
    requires Resolve(machines, node).Some?
    ensures UnpublishTarget(machines, known, node) == Resolve(machines, node)
            <==> (node in known ==> exists i :: FirstNamed(machines, node, i) && machines[i].identity == node)
    ensures NoCollision(machines, known, node)
            ==> UnpublishTarget(machines, known, node) == Resolve(machines, node)
  {
    var r := Resolve(machines, node);
    var i :| FirstNamed(machines, node, i) && machines[i].identity == r.value;
    forall j | FirstNamed(machines, node, j) ensures j == i {
    }
  }

  /** A machine named after another machine's identity makes them differ. */
  lemma ResolutionsMayDiffer()
    ensures var ms := [Machine("m-1", "m-2", "one"), Machine("m-2", "two", "two")];
            Resolve(ms, "m-2") == Some("m-1") && UnpublishTarget(ms, {"m-1", "m-2"}, "m-2") == Some("m-2")
  {
    var ms := [Machine("m-1", "m-2", "one"), Machine("m-2", "two", "two")];
    assert Names(ms[0], "m-2");
  }

  /** From an attached volume, an unpublish call's first three steps: the early exit for
      unattached volumes is not taken, and the machine is looked up. */
  lemma UnpublishLooksUp(s: State, c: nat, v: string, node: string, m: string) returns (s1: State, s2: State, s3: State)
    requires Inv(s) && AttachedTo(s, v, m) && !InFlight(s, v) && c !in s.calls
    ensures Enabled(s, BeginUnpublish(c, v, node)) && s1 == Next(s, BeginUnpublish(c, v, node))
    ensures Enabled(s1, GetVolume(c, Good)) && s2 == Next(s1, GetVolume(c, Good))
    ensures Enabled(s2, GetMachine(c, Good)) && s3 == Next(s2, GetMachine(c, Good))
    ensures s3 == s.(calls := s.calls[c := if node in s.known then UnpDetach(v, node) else UnpList(v, node)])
  {
    s1 := Next(s, BeginUnpublish(c, v, node));
    s2 := Next(s1, GetVolume(c, Good));
    assert s2.calls[c] == UnpMachine(v, node);
    s3 := Next(s2, GetMachine(c, Good));
    assert s3.calls == s.calls[c := s3.calls[c]];
  }

  /** The detach of the only attachment empties the volume and touches nothing else. */
  lemma DetachEmpties(s: State, c: nat, v: string, m: string)
    requires AttachedTo(s, v, m) && c in s.calls && s.calls[c] == UnpDetach(v, m)
    ensures Enabled(s, DetachVolume(c, Good))
    ensures Next(s, DetachVolume(c, Good)) == s.(calls := s.calls[c := UnpPoll(v, m)],
              volumes := s.volumes[v := s.volumes[v].(attachments := [], status := "detaching")])
  {
    assert Without([m], m) == [];
  }

  // ----- one call, undisturbed -----

  /** The API's truthful answer to a detach: done, or not found if the machine is not attached. */
  predicate Truthful(e: Event, t: Option<string>, m: string) {
    match e
    case GetVolume(_, o) => o == Good
    case GetMachine(_, o) => o == Good
    case ListMachines(_, o) => o == Good
    case DetachVolume(_, o) => o == if t == Some(m) then Good else NotFoundError
    case BeginUnpublish(_, _, _) => true
    case ChangeStatus(_, _) => true
    case _ => false
  }

  ghost predicate AllTruthful(events: seq<Event>, t: Option<string>, m: string) {
    forall e :: e in events ==> Truthful(e, t, m)
  }

  /** After the fallback list, the call detaches, or ends if no machine answers to the node id. */
  lemma ListEnds(s: State, c: nat, v: string, node: string) returns (s': State)
    requires c in s.calls && s.calls[c] == UnpList(v, node)
    ensures Enabled(s, ListMachines(c, Good)) && s' == Next(s, ListMachines(c, Good))
    ensures s' == s.(calls := s.calls[c := match Resolve(s.machines, node)
                                           case Some(m) => UnpDetach(v, m)
                                           case None => Finished(v, UnpublishOk)])
  {
    s' := Next(s, ListMachines(c, Good));
  }

  /** Detach, the volume turning available, and the poll that sees it. */
  lemma DetachEnds(s: State, c: nat, v: string, m: string) returns (s1: State, s2: State, s3: State)
    requires AttachedTo(s, v, m) && c in s.calls && s.calls[c] == UnpDetach(v, m)
    ensures Enabled(s, DetachVolume(c, Good)) && s1 == Next(s, DetachVolume(c, Good))
    ensures Enabled(s1, ChangeStatus(v, "available")) && s2 == Next(s1, ChangeStatus(v, "available"))
    ensures Enabled(s2, GetVolume(c, Good)) && s3 == Next(s2, GetVolume(c, Good))
    ensures v in s3.volumes && s3.volumes[v].attachments == [] && s3.machines == s.machines && s3.known == s.known
    ensures s3.calls == s.calls[c := Finished(v, UnpublishOk)]
  {
    DetachEmpties(s, c, v, m);
    s1 := Next(s, DetachVolume(c, Good));
    s2 := Next(s1, ChangeStatus(v, "available"));
    s3 := Next(s2, GetVolume(c, Good));
    assert s.calls[c := UnpPoll(v, m)][c := Finished(v, UnpublishOk)] == s.calls[c := Finished(v, UnpublishOk)];
  }

  /** A detach of a machine that is not attached is answered not-found, which counts as success. */
  lemma DetachMisses(s: State, c: nat, v: string, a: string, m: string) returns (s1: State)
    requires AttachedTo(s, v, m) && a != m && c in s.calls && s.calls[c] == UnpDetach(v, a)
    ensures Enabled(s, DetachVolume(c, NotFoundError)) && s1 == Next(s, DetachVolume(c, NotFoundError))
    ensures s1 == s.(calls := s.calls[c := Finished(v, UnpublishOk)])
  {
    s1 := Next(s, DetachVolume(c, NotFoundError));
  }

  /** The part of a fault-free unpublish that finds the machine. */
  lemma FaultFreeAim(s: State, c: nat, v: string, node: string, m: string) returns (events: seq<Event>, aim: State)
    requires Inv(s) && AttachedTo(s, v, m) && !InFlight(s, v) && c !in s.calls
    ensures RunsTo(s, events, aim) && AllTruthful(events, UnpublishTarget(s.machines, s.known, node), m)
    ensures events != [] && events[0] == BeginUnpublish(c, v, node)
    ensures aim == s.(calls := s.calls[c := match UnpublishTarget(s.machines, s.known, node)
                                            case Some(a) => UnpDetach(v, a)
                                            case None => Finished(v, UnpublishOk)])
  {
    var s1, s2, s3 := UnpublishLooksUp(s, c, v, node, m);
    hide Enabled, Next, Inv, RunsTo, Resolve, InFlight, AttachedTo;
    var first := [BeginUnpublish(c, v, node), GetVolume(c, Good), GetMachine(c, Good)];
    ThreeSteps(s, BeginUnpublish(c, v, node), s1, GetVolume(c, Good), s2, GetMachine(c, Good), s3);
    if node in s.known {
      events, aim := first, s3;
    } else {
      aim := ListEnds(s3, c, v, node);
      Extend(s, first, s3, ListMachines(c, Good), aim);
      events := first + [ListMachines(c, Good)];
      assert aim.calls == s.calls[c := aim.calls[c]];
    }
  }

  /** The part of a fault-free unpublish that detaches. */
  lemma FaultFreeDetach(s: State, events: seq<Event>, aim: State, c: nat, v: string, a: string, m: string)
    returns (all: seq<Event>, done: State)
    requires AttachedTo(s, v, m) && RunsTo(s, events, aim) && AllTruthful(events, Some(a), m)
    requires aim == s.(calls := s.calls[c := UnpDetach(v, a)])
    ensures RunsTo(s, all, done) && AllTruthful(all, Some(a), m) && events <= all
    ensures done.calls == s.calls[c := Finished(v, UnpublishOk)]
    ensures v in done.volumes && (done.volumes[v].attachments == [] <==> a == m) && (a != m ==> done.volumes == s.volumes)
  {
    if a == m {
      var s5, s6, s7 := DetachEnds(aim, c, v, m);
      hide Enabled, Next, RunsTo, AttachedTo;
      var last := [DetachVolume(c, Good), ChangeStatus(v, "available"), GetVolume(c, Good)];
      ThreeSteps(aim, last[0], s5, last[1], s6, last[2], s7);
      Join(s, events, aim, last, s7);
      all, done := events + last, s7;
      assert done.calls == s.calls[c := done.calls[c]];
    } else {
      done := DetachMisses(aim, c, v, a, m);
      hide Enabled, Next, RunsTo;
      Extend(s, events, aim, DetachVolume(c, NotFoundError), done);
      all := events + [DetachVolume(c, NotFoundError)];
      assert done.calls == s.calls[c := done.calls[c]];
    }
  }

  /** From any reachable state in which v is attached to m, an unpublish call can run to its end
      without failures, one such run being given here; it ends with success, and with the volume
      unattached if and only if the node id is aimed at m; otherwise no volume has changed. */
  lemma FaultFreeUnpublish(s: State, c: nat, v: string, node: string, m: string)
    returns (events: seq<Event>, done: State)
    requires Inv(s) && AttachedTo(s, v, m) && !InFlight(s, v) && c !in s.calls
    ensures events != [] && events[0] == BeginUnpublish(c, v, node)
    ensures RunsTo(s, events, done) && AllTruthful(events, UnpublishTarget(s.machines, s.known, node), m)
    ensures done.calls == s.calls[c := Finished(v, UnpublishOk)]
    ensures v in done.volumes
    ensures done.volumes[v].attachments == [] <==> UnpublishTarget(s.machines, s.known, node) == Some(m)
    ensures UnpublishTarget(s.machines, s.known, node) != Some(m) ==> done.volumes == s.volumes
  {
    hide Enabled, Next, Inv, RunsTo, InFlight, UnpublishTarget, AllTruthful;
    var t := UnpublishTarget(s.machines, s.known, node);
    events, done := FaultFreeAim(s, c, v, node, m);
    if t.Some? {
      events, done := FaultFreeDetach(s, events, done, c, v, t.value, m);
    }
  }

  lemma ReadStep(s: State, c: nat, v: string, node: string) returns (s': State)
    requires c in s.calls && s.calls[c] == PubStart(v, node) && v in s.volumes
    ensures Enabled(s, GetVolume(c, Good)) && s' == Next(s, GetVolume(c, Good))
    ensures s' == s.(calls := s.calls[c := PubRead(v, node, s.volumes[v])])
  {
    s' := Next(s, GetVolume(c, Good));
  }

  lemma DecideUnattached(s: State, c: nat, v: string, node: string, copy: Volume, m: string) returns (s': State)
    requires c in s.calls && s.calls[c] == PubRead(v, node, copy) && copy.attachments == [] && Resolve(s.machines, node) == Some(m)
    ensures Enabled(s, ListMachines(c, Good)) && s' == Next(s, ListMachines(c, Good))
    ensures s' == s.(calls := s.calls[c := PubAttach(v, copy.name, m)])
  {
    s' := Next(s, ListMachines(c, Good));
  }

  lemma AttachStep(s: State, c: nat, v: string, m: string) returns (s': State)
    requires c in s.calls && s.calls[c].PubAttach? && s.calls[c].vol == v && s.calls[c].machine == m && v in s.volumes
    ensures Enabled(s, AttachVolume(c, Good)) && s' == Next(s, AttachVolume(c, Good))
    ensures v in s'.volumes && s'.volumes[v].attachments == s.volumes[v].attachments + [m]
    ensures forall d :: d in s.calls && d != c ==> d in s'.calls && s'.calls[d] == s.calls[d]
  {
    s' := Next(s, AttachVolume(c, Good));
  }

  /** Attach, the volume turning attached, and the poll that sees it. */
  lemma AttachEnds(s: State, c: nat, v: string, context: string, m: string) returns (s1: State, s2: State, s3: State)
    requires v in s.volumes && s.volumes[v].attachments == [] && c in s.calls && s.calls[c] == PubAttach(v, context, m)
    ensures Enabled(s, AttachVolume(c, Good)) && s1 == Next(s, AttachVolume(c, Good))
    ensures Enabled(s1, ChangeStatus(v, "attached")) && s2 == Next(s1, ChangeStatus(v, "attached"))
    ensures Enabled(s2, GetVolume(c, Good)) && s3 == Next(s2, GetVolume(c, Good))
    ensures AttachedTo(s3, v, m) && s3.machines == s.machines && s3.known == s.known
    ensures s3.calls == s.calls[c := Finished(v, PublishOk(context, m))]
  {
    assert !IsAvailable("attached") by { assert |"attached"| != |"available"|; }
    s1 := Next(s, AttachVolume(c, Good));
    s2 := Next(s1, ChangeStatus(v, "attached"));
    s3 := Next(s2, GetVolume(c, Good));
    assert s.calls[c := PubPoll(v, context, m)][c := Finished(v, PublishOk(context, m))]
        == s.calls[c := Finished(v, PublishOk(context, m))];
  }

  /** The part of a fault-free publish of an unattached volume up to its decision. */
  lemma FaultFreeDecision(s: State, c: nat, v: string, node: string, m: string) returns (s3: State)
    requires v in s.volumes && s.volumes[v].attachments == [] && !InFlight(s, v) && c !in s.calls
    requires Resolve(s.machines, node) == Some(m)
    ensures RunsTo(s, [BeginPublish(c, v, node), GetVolume(c, Good), ListMachines(c, Good)], s3)
    ensures s3 == s.(calls := s.calls[c := PubAttach(v, s.volumes[v].name, m)])
  {
    var e1, e2, e3 := BeginPublish(c, v, node), GetVolume(c, Good), ListMachines(c, Good);
    var s1 := Next(s, e1);
    var s2 := ReadStep(s1, c, v, node);
    s3 := DecideUnattached(s2, c, v, node, s.volumes[v], m);
    ThreeSteps(s, e1, s1, e2, s2, e3, s3);
  }

  /** From any reachable state in which v is unattached, a publish call can run to its end
      without failures, with v attached to the machine that the node id stands for. */
  lemma FaultFreePublish(s: State, c: nat, v: string, node: string, m: string)
    returns (events: seq<Event>, done: State)
    requires Inv(s) && v in s.volumes && s.volumes[v].attachments == [] && !InFlight(s, v) && c !in s.calls
    requires Resolve(s.machines, node) == Some(m)
    ensures events == [BeginPublish(c, v, node), GetVolume(c, Good), ListMachines(c, Good), AttachVolume(c, Good),
                       ChangeStatus(v, "attached"), GetVolume(c, Good)]
    ensures RunsTo(s, events, done) && AttachedTo(done, v, m) && done.machines == s.machines && done.known == s.known
    ensures done.calls == s.calls[c := Finished(v, PublishOk(s.volumes[v].name, m))]
  {
    var e1, e2, e3 := BeginPublish(c, v, node), GetVolume(c, Good), ListMachines(c, Good);
    var e4, e5 := AttachVolume(c, Good), ChangeStatus(v, "attached");
    var name := s.volumes[v].name;
    var s3 := FaultFreeDecision(s, c, v, node, m);
    var s4, s5, s6 := AttachEnds(s3, c, v, name, m);
    hide *;
    assert s6.calls == s.calls[c := Finished(v, PublishOk(name, m))];
    ThreeSteps(s3, e4, s4, e5, s5, e2, s6);
    Join(s, [e1, e2, e3], s3, [e4, e5, e2], s6);
    events, done := [e1, e2, e3] + [e4, e5, e2], s6;
  }

  /** The input on which unpublish does not undo publish: publish for "m-2" resolves to m-1, which is only named so, and
      attaches there; unpublish for "m-2" goes to the machine with that identity, and answers
      success while the volume stays attached to m-1. */
  lemma UnpublishMisses() returns (s: State, events: seq<Event>, mid: State, more: seq<Event>, done: State)
    ensures s.machines == [Machine("m-1", "m-2", "one"), Machine("m-2", "two", "two")] && s.known == {"m-1", "m-2"}
    ensures Init(s) && s.calls == map[] && s.volumes == map["vol" := Volume("vol", "data", 1, [], "available")]
    ensures RunsTo(s, events, mid) && events != [] && events[0] == BeginPublish(0, "vol", "m-2")
    ensures mid.calls == map[0 := Finished("vol", PublishOk("data", "m-1"))] && AttachedTo(mid, "vol", "m-1")
    ensures RunsTo(mid, more, done) && more != [] && more[0] == BeginUnpublish(1, "vol", "m-2")
    ensures RunsTo(s, events + more, done) && AttachedTo(done, "vol", "m-1")
    ensures done.calls == mid.calls[1 := Finished("vol", UnpublishOk)]
  {
    ResolutionsMayDiffer();
    s := State(map["vol" := Volume("vol", "data", 1, [], "available")],
               [Machine("m-1", "m-2", "one"), Machine("m-2", "two", "two")], {"m-1", "m-2"}, map[]);
    assert Inv(s) && Init(s);
    events, mid := FaultFreePublish(s, 0, "vol", "m-2", "m-1");
    RunReachesInv(s, events, mid);
    hide Inv, Init, RunsTo, Enabled, Next, Resolve;
    more, done := FaultFreeUnpublish(mid, 1, "vol", "m-2", "m-1");
    Join(s, events, mid, more, done);
  }

  /** The fallback scan ends the call with success although the volume stays attached exactly
      when no machine of the list answers to the node id. */
  lemma AssumedDetached(s: State, c: nat, m: string)
    requires c in s.calls && s.calls[c].UnpList? && AttachedTo(s, s.calls[c].vol, m)
    ensures var s' := Next(s, ListMachines(c, Good));
            AttachedTo(s', s.calls[c].vol, m) &&
            (s'.calls[c] == Finished(s.calls[c].vol, UnpublishOk)
             <==> forall x :: x in s.machines ==> !Names(x, s.calls[c].node))
  {
  }

  /** An unpublish call's detach that names another machine leaves the attachment alone. */
  lemma DetachOnlyTarget(s: State, e: Event, v: string, m: string)
    requires Inv(s) && Enabled(s, e) && e.DetachVolume? && AttachedTo(s, v, m)
    requires s.calls[e.c].vol == v && s.calls[e.c].machine != m
    ensures AttachedTo(Next(s, e), v, m)
  {
    StaysAttachedStep(s, e, v, m);
  }

  // ----- why one call in flight per volume -----

  /** Two publish calls for one unattached volume, let in flight together, can both read it
      unattached and attach it twice: for any such state and any two node ids that stand for
      machines, one interleaving of six steps leads there. */
  lemma TwoInFlightAttachTwice(s: State, c: nat, d: nat, v: string, n1: string, n2: string, a: string, b: string)
    returns (done: State)
    requires c != d && c in s.calls && d in s.calls && s.calls[c] == PubStart(v, n1) && s.calls[d] == PubStart(v, n2)
    requires v in s.volumes && s.volumes[v].attachments == []
    requires Resolve(s.machines, n1) == Some(a) && Resolve(s.machines, n2) == Some(b)
    ensures RunsTo(s, [GetVolume(c, Good), GetVolume(d, Good), ListMachines(c, Good), ListMachines(d, Good),
                       AttachVolume(c, Good), AttachVolume(d, Good)], done)
    ensures v in done.volumes && done.volumes[v].attachments == [a, b]
  {
    hide Enabled, Next, RunsTo, Resolve;
    var s1 := ReadStep(s, c, v, n1);
    var s2 := ReadStep(s1, d, v, n2);
    var s3 := DecideUnattached(s2, c, v, n1, s.volumes[v], a);
    var s4 := DecideUnattached(s3, d, v, n2, s.volumes[v], b);
    var s5 := AttachStep(s4, c, v, a);
    done := AttachStep(s5, d, v, b);
    assert [] + [a] + [b] == [a, b];
    var e1, e2, e3, e4, e5, e6 := GetVolume(c, Good), GetVolume(d, Good), ListMachines(c, Good),
                                  ListMachines(d, Good), AttachVolume(c, Good), AttachVolume(d, Good);
    Stay(s);
    Extend(s, [], s, e1, s1);
    assert [] + [e1] == [e1];
    Extend(s, [e1], s1, e2, s2);
    assert [e1] + [e2] == [e1, e2];
    Extend(s, [e1, e2], s2, e3, s3);
    assert [e1, e2] + [e3] == [e1, e2, e3];
    Extend(s, [e1, e2, e3], s3, e4, s4);
    assert [e1, e2, e3] + [e4] == [e1, e2, e3, e4];
    Extend(s, [e1, e2, e3, e4], s4, e5, s5);
    assert [e1, e2, e3, e4] + [e5] == [e1, e2, e3, e4, e5];
    Extend(s, [e1, e2, e3, e4, e5], s5, e6, done);
    assert [e1, e2, e3, e4, e5] + [e6] == [e1, e2, e3, e4, e5, e6];
  }
}
