/** What a call answers, for every run: which failures make it fail, and what it decides otherwise. */
module AttachOutcomes {
  import opened Wrappers
  import opened Iaas
  import opened AttachProtocol
  import opened AttachRuns
  import opened AttachServes

  /** The API answered properly; not found is a proper answer to a detach. */
  predicate Proper(e: Event) {
    match e
    case GetVolume(_, o) => o == Good
    case GetMachine(_, o) => o == Good
    case ListMachines(_, o) => o == Good
    case AttachVolume(_, o) => o == Good
    case DetachVolume(_, o) => o == Good || o == NotFoundError
    case GiveUp(_) => false
    case _ => true
  }

  /** Between i and j, every step of call c was answered properly, and polling did not time out. */
  ghost predicate Undisturbed(events: seq<Event>, i: nat, j: nat, c: nat) {
    forall x :: i < x < j && x < |events| && IsCallStep(events[x]) && events[x].c == c ==> Proper(events[x])
  }

  // ----- what a read leads to -----

  /** The read a publish call starts with: a missing volume is NotFound, any error Unknown. */
  lemma PublishReads(states: seq<State>, events: seq<Event>, k: nat, c: nat, v: string, node: string)
    requires IsRun(states, events) && k < |events| && events[k].GetVolume? && events[k].c == c
    requires c in states[k].calls && states[k].calls[c] == PubStart(v, node)
    ensures c in states[k + 1].calls
    ensures var call' := states[k + 1].calls[c];
            && (v in states[k].volumes && events[k].o == Good ==> call' == PubRead(v, node, states[k].volumes[v]))
            && (call' == Finished(v, Failed(NotFound)) <==> events[k].o == Good && v !in states[k].volumes)
            && (call' == Finished(v, Failed(Unknown)) <==> events[k].o != Good)
  {
    StepAt(states, events, k);
  }

  /** A poll of a publish call: it succeeds if and only if the volume reads "attached", and any
      other status leaves the call polling. */
  lemma PublishPolls(states: seq<State>, events: seq<Event>, k: nat, c: nat)
    requires IsRun(states, events) && k < |events| && events[k].GetVolume? && events[k].c == c
    requires c in states[k].calls && states[k].calls[c].PubPoll?
    ensures c in states[k + 1].calls
    ensures var call, v := states[k].calls[c], states[k].calls[c].vol; var call' := states[k + 1].calls[c];
            var read := events[k].o == Good && v in states[k].volumes;
            && (call' == Finished(v, PublishOk(call.context, call.machine)) <==> read && IsAttached(states[k].volumes[v].status))
            && (call' == call <==> read && !IsAttached(states[k].volumes[v].status))
            && (call' == Finished(v, Failed(Unknown)) <==> !read)
  {
    StepAt(states, events, k);
  }

  /** The read an unpublish call starts with: success at once if and only if the volume is gone,
      or has no attachment and reads "available". */
  lemma UnpublishReads(states: seq<State>, events: seq<Event>, k: nat, c: nat, v: string, node: string)
    requires IsRun(states, events) && k < |events| && events[k].GetVolume? && events[k].c == c
    requires c in states[k].calls && states[k].calls[c] == UnpStart(v, node)
    ensures c in states[k + 1].calls
    ensures var call' := states[k + 1].calls[c];
            var idle := v !in states[k].volumes
                        || (states[k].volumes[v].attachments == [] && IsAvailable(states[k].volumes[v].status));
            && (call' == Finished(v, UnpublishOk) <==> events[k].o == Good && idle)
            && (call' == UnpMachine(v, node) <==> events[k].o == Good && !idle)
            && (call' == Finished(v, Failed(Unknown)) <==> events[k].o != Good)
  {
    StepAt(states, events, k);
  }

  /** A poll of an unpublish call: it succeeds if and only if the volume is gone or reads
      "available", and any other status leaves the call polling. */
  lemma UnpublishPolls(states: seq<State>, events: seq<Event>, k: nat, c: nat)
    requires IsRun(states, events) && k < |events| && events[k].GetVolume? && events[k].c == c
    requires c in states[k].calls && states[k].calls[c].UnpPoll?
    ensures c in states[k + 1].calls
    ensures var call, v := states[k].calls[c], states[k].calls[c].vol; var call' := states[k + 1].calls[c];
            var idle := v !in states[k].volumes || IsAvailable(states[k].volumes[v].status);
            && (call' == Finished(v, UnpublishOk) <==> events[k].o == Good && idle)
            && (call' == call <==> events[k].o == Good && !idle)
            && (call' == Finished(v, Failed(Unknown)) <==> events[k].o != Good)
  {
    StepAt(states, events, k);
  }

  /** What a call answers when the API fails one of its other steps: NotFound for an attach that
      the API answers so, Unknown otherwise; and a failing step always ends the call. */
  lemma FailingSteps(states: seq<State>, events: seq<Event>, k: nat, c: nat)
    requires IsRun(states, events) && k < |events| && IsCallStep(events[k]) && events[k].c == c && !Proper(events[k])
    ensures c in states[k].calls && c in states[k + 1].calls
    ensures states[k + 1].calls[c] ==
              Finished(states[k].calls[c].vol, Failed(if events[k].AttachVolume? && events[k].o == NotFoundError then NotFound else Unknown))
  {
    StepAt(states, events, k);
  }

  // ----- unpublish -----

  predicate Unpublishing(k: Call) { k.UnpStart? || k.UnpMachine? || k.UnpList? || k.UnpDetach? || k.UnpPoll? }

  /** Where an unpublish call stands, by whether everything was answered properly so far. */
  predicate UnpublishFares(k: Call, v: string, well: bool) {
    k.vol == v && if well then Unpublishing(k) || k == Finished(v, UnpublishOk) else k.Finished? && k.answer.Failed?
  }

  lemma UnpublishFaresOn(s: State, e: Event, c: nat, v: string, well: bool)
    requires Enabled(s, e) && c in s.calls && UnpublishFares(s.calls[c], v, well)
    ensures c in Next(s, e).calls
    ensures UnpublishFares(Next(s, e).calls[c], v, well && (IsCallStep(e) && e.c == c ==> Proper(e)))
  {
    hide EqualFold, Resolve;
  }

  lemma UndisturbedStep(events: seq<Event>, i: nat, j: nat, c: nat)
    requires i < j < |events|
    ensures Undisturbed(events, i, j + 1, c)
            <==> Undisturbed(events, i, j, c) && (IsCallStep(events[j]) && events[j].c == c ==> Proper(events[j]))
  {
  }

  lemma UnpublishBegins(states: seq<State>, events: seq<Event>, i: nat, c: nat, v: string, node: string)
    requires IsRun(states, events) && i < |events| && events[i] == BeginUnpublish(c, v, node)
    ensures c in states[i + 1].calls && UnpublishFares(states[i + 1].calls[c], v, Undisturbed(events, i, i + 1, c))
  {
    StepAt(states, events, i);
    assert Undisturbed(events, i, i + 1, c);
  }

  lemma UnpublishGoesOn(states: seq<State>, events: seq<Event>, i: nat, j: nat, c: nat, v: string)
    requires IsRun(states, events) && i < j < |events|
    requires c in states[j].calls && UnpublishFares(states[j].calls[c], v, Undisturbed(events, i, j, c))
    ensures c in states[j + 1].calls && UnpublishFares(states[j + 1].calls[c], v, Undisturbed(events, i, j + 1, c))
  {
    StepAt(states, events, j);
    hide IsRun, Enabled, Next, UnpublishFares, Proper, Undisturbed;
    UndisturbedStep(events, i, j, c);
    UnpublishFaresOn(states[j], events[j], c, v, Undisturbed(events, i, j, c));
  }

  /** An unpublish call fails if and only if the API fails one of its steps or its polling times
      out: otherwise it is still under way, or has answered success. */
  lemma {:induction false} UnpublishSucceedsIff(states: seq<State>, events: seq<Event>, i: nat, j: nat, c: nat, v: string, node: string)
    requires IsRun(states, events) && i < j < |states| && events[i] == BeginUnpublish(c, v, node)
    ensures c in states[j].calls && UnpublishFares(states[j].calls[c], v, Undisturbed(events, i, j, c))
  {
    hide Enabled, Next, UnpublishFares, Undisturbed;
    if j == i + 1 {
      UnpublishBegins(states, events, i, c, v, node);
    } else {
      UnpublishSucceedsIff(states, events, i, j - 1, c, v, node);
      UnpublishGoesOn(states, events, i, j - 1, c, v);
    }
  }

  /** The exact outcome: an unpublish of a volume attached to m that ends without a failing step
      or a timeout answers success, under every interleaving; and with the machines unchanged it
      has left the volume unattached if and only if the node id is aimed at m. */
  lemma UnpublishOutcome(states: seq<State>, events: seq<Event>, i: nat, k: nat, c: nat, v: string, node: string, m: string)
    requires IsRun(states, events) && Init(states[0]) && i < k < |events|
    requires events[i] == BeginUnpublish(c, v, node) && AttachedTo(states[i], v, m) && Steady(states, i, k + 1, v)
    requires c in states[k].calls && !states[k].calls[c].Finished?
    requires c in states[k + 1].calls && states[k + 1].calls[c].Finished? && Undisturbed(events, i, k + 1, c)
    ensures states[k + 1].calls[c] == Finished(v, UnpublishOk)
    ensures if UnpublishTarget(states[i].machines, states[i].known, node) == Some(m)
            then states[k + 1].volumes[v].attachments == []
            else AttachedTo(states[k + 1], v, m)
  {
    UnpublishSucceedsIff(states, events, i, k + 1, c, v, node);
    UnpublishDetachesIff(states, events, i, k, c, v, node, m);
  }

  // ----- publish -----

  /** What publish answers for a volume of that name attached to `a` (to nothing, if empty) and a
      node id that stands for t. */
  function Verdict(a: seq<string>, t: Option<string>, name: string): Answer {
    if t.None? then Failed(NotFound)
    else if a == [] || a == [t.value] then PublishOk(name, t.value)
    else Failed(FailedPrecondition)
  }

  /** What publish leaves attached. */
  function Left(a: seq<string>, t: Option<string>): seq<string> {
    if a == [] && t.Some? then [t.value] else a
  }

  /** Where a properly answered publish call for v stands; `was` is v as it was when it began. */
  ghost predicate OnCourse(s: State, c: nat, v: string, node: string, t: Option<string>, was: Volume) {
    v in s.volumes && c in s.calls && s.calls[c].vol == v && s.volumes[v].name == was.name &&
    var a := s.volumes[v].attachments;
    match s.calls[c]
    case PubStart(_, n) => n == node && a == was.attachments
    case PubRead(_, n, copy) => n == node && a == was.attachments && copy.name == was.name
    case PubAttach(_, context, m) => context == was.name && t == Some(m) && a == was.attachments == []
    case PubPoll(_, context, m) => context == was.name && t == Some(m) && was.attachments == [] && a == [m]
    case Finished(_, answer) => answer == Verdict(was.attachments, t, was.name) && a == Left(was.attachments, t)
    case _ => false
  }

  lemma OtherStepKeepsCourse(s: State, e: Event, c: nat, v: string, node: string, t: Option<string>, was: Volume)
    requires Inv(s) && Enabled(s, e) && OnCourse(s, c, v, node, t, was) && !s.calls[c].Finished?
    requires !(IsCallStep(e) && e.c == c) && v in Next(s, e).volumes
    ensures OnCourse(Next(s, e), c, v, node, t, was)
  {
    if IsCallStep(e) {
      StepFrame(s, e);
      assert s.calls[e.c].vol != v;
    }
  }

  /** The attachment scan on at most one attachment. */
  lemma DecideOne(a: seq<string>, target: string, name: string)
    requires |a| <= 1 && "" !in a
    ensures match Decide(a, target)
            case AlreadyAttached => Verdict(a, Some(target), name) == PublishOk(name, target) && Left(a, Some(target)) == a
            case WrongMachine => Verdict(a, Some(target), name) == Failed(FailedPrecondition) && Left(a, Some(target)) == a
            case Attach => a == []
  {
    if a != [] { assert a == [a[0]] && a[0] in a; }
  }

  lemma DecisionKeepsCourse(s: State, c: nat, v: string, node: string, t: Option<string>, was: Volume)
    requires OnCourse(s, c, v, node, t, was) && s.calls[c].PubRead? && t == Resolve(s.machines, node)
    requires Agrees(s.calls[c], s.volumes)
    ensures OnCourse(Next(s, ListMachines(c, Good)), c, v, node, t, was)
  {
    hide EqualFold, Resolve;
    if t.Some? {
      DecideOne(was.attachments, t.value, was.name);
      hide Decide, Verdict, Left;
    }
  }

  lemma OwnStepKeepsCourse(s: State, e: Event, c: nat, v: string, node: string, t: Option<string>, was: Volume)
    requires Inv(s) && Enabled(s, e) && OnCourse(s, c, v, node, t, was) && !s.calls[c].Finished?
    requires IsCallStep(e) && e.c == c && Proper(e) && t == Resolve(s.machines, node)
    ensures OnCourse(Next(s, e), c, v, node, t, was)
  {
    assert Agrees(s.calls[c], s.volumes);
    hide EqualFold, Inv, Resolve;
    if e.ListMachines? { DecisionKeepsCourse(s, c, v, node, t, was); }
  }

  lemma StepKeepsCourse(s: State, e: Event, c: nat, v: string, node: string, t: Option<string>, was: Volume)
    requires Inv(s) && Enabled(s, e) && OnCourse(s, c, v, node, t, was) && !s.calls[c].Finished?
    requires v in Next(s, e).volumes && t == Resolve(s.machines, node) && (IsCallStep(e) && e.c == c ==> Proper(e))
    ensures OnCourse(Next(s, e), c, v, node, t, was)
  {
    if IsCallStep(e) && e.c == c {
      OwnStepKeepsCourse(s, e, c, v, node, t, was);
    } else {
      OtherStepKeepsCourse(s, e, c, v, node, t, was);
    }
  }

  lemma BeginIsOnCourse(s: State, c: nat, v: string, node: string, t: Option<string>)
    requires Enabled(s, BeginPublish(c, v, node)) && v in s.volumes
    ensures OnCourse(Next(s, BeginPublish(c, v, node)), c, v, node, t, s.volumes[v])
  {
  }

  /** A call that has not ended at j had not ended the step before. */
  lemma PublishingBefore(states: seq<State>, events: seq<Event>, i: nat, j: nat, c: nat, v: string, node: string)
    requires IsRun(states, events) && i < j < |events| && events[i] == BeginPublish(c, v, node)
    requires c in states[j + 1].calls && !states[j + 1].calls[c].Finished?
    ensures c in states[j].calls && !states[j].calls[c].Finished?
  {
    PublishServesNode(states, events, i, j, c, v, node);
    StepAt(states, events, j);
    CallMoves(states[j], events[j], c);
  }

  lemma GoesOnOnCourse(states: seq<State>, events: seq<Event>, i: nat, j: nat, c: nat, v: string, node: string)
    requires IsRun(states, events) && Init(states[0]) && i < j < |events| && v in states[i].volumes
    requires Steady(states, i, j + 1, v) && Undisturbed(events, i, j + 1, c)
    requires OnCourse(states[j], c, v, node, Resolve(states[i].machines, node), states[i].volumes[v])
    requires !states[j].calls[c].Finished?
    ensures OnCourse(states[j + 1], c, v, node, Resolve(states[i].machines, node), states[i].volumes[v])
  {
    StepAt(states, events, j);
    RunKeepsInv(states, events, j);
    SteadyEarlier(states, i, j + 1, v);
    UndisturbedStep(events, i, j, c);
    hide *;
    StepKeepsCourse(states[j], events[j], c, v, node, Resolve(states[i].machines, node), states[i].volumes[v]);
  }

  lemma {:induction false} StaysOnCourse(states: seq<State>, events: seq<Event>, i: nat, j: nat, c: nat, v: string, node: string)
    requires IsRun(states, events) && Init(states[0]) && i < j < |states| && events[i] == BeginPublish(c, v, node)
    requires Steady(states, i, j, v) && v in states[i].volumes && Undisturbed(events, i, j, c)
    requires j == i + 1 || (c in states[j - 1].calls && !states[j - 1].calls[c].Finished?)
    ensures OnCourse(states[j], c, v, node, Resolve(states[i].machines, node), states[i].volumes[v])
  {
    hide Init, Enabled, Next, OnCourse, Inv, Resolve, Steady, Undisturbed, Proper;
    if j == i + 1 {
      StepAt(states, events, i);
      BeginIsOnCourse(states[i], c, v, node, Resolve(states[i].machines, node));
    } else {
      if j > i + 2 { PublishingBefore(states, events, i, j - 2, c, v, node); }
      SteadyEarlier(states, i, j, v);
      UndisturbedStep(events, i, j - 1, c);
      StaysOnCourse(states, events, i, j - 1, c, v, node);
      GoesOnOnCourse(states, events, i, j - 1, c, v, node);
    }
  }

  /** A publish of an unattached volume can only end in a poll that reads "attached". */
  lemma LastPollSaw(s: State, e: Event, c: nat, v: string, node: string, t: Option<string>, was: Volume)
    requires Inv(s) && Enabled(s, e) && OnCourse(s, c, v, node, t, was) && !s.calls[c].Finished?
    requires Next(s, e).calls[c].Finished? && was.attachments == [] && t.Some? && t == Resolve(s.machines, node)
    requires IsCallStep(e) && e.c == c ==> Proper(e)
    ensures e == GetVolume(c, Good) && v in s.volumes && IsAttached(s.volumes[v].status)
  {
    assert Agrees(s.calls[c], s.volumes);
    hide EqualFold, Inv, Resolve;
  }

  lemma OnCourseUntil(states: seq<State>, events: seq<Event>, i: nat, k: nat, c: nat, v: string, node: string)
    requires IsRun(states, events) && Init(states[0]) && i < k < |events| && events[i] == BeginPublish(c, v, node)
    requires v in states[i].volumes && Steady(states, i, k + 1, v) && Undisturbed(events, i, k + 1, c)
    requires c in states[k].calls && !states[k].calls[c].Finished?
    ensures OnCourse(states[k], c, v, node, Resolve(states[i].machines, node), states[i].volumes[v])
    ensures IsCallStep(events[k]) && events[k].c == c ==> Proper(events[k])
    ensures v in states[k].volumes && states[k].machines == states[i].machines
  {
    hide Init, Enabled, Next, OnCourse, Inv, Resolve, Steady, Undisturbed, Proper;
    if k > i + 1 { PublishingBefore(states, events, i, k - 1, c, v, node); }
    SteadyEarlier(states, i, k + 1, v);
    SteadyEarlier(states, i, k, v);
    UndisturbedStep(events, i, k, c);
    StaysOnCourse(states, events, i, k, c, v, node);
  }

  lemma EndsInPoll(states: seq<State>, events: seq<Event>, i: nat, k: nat, c: nat, v: string, node: string)
    requires IsRun(states, events) && Init(states[0]) && i < k < |events| && events[i] == BeginPublish(c, v, node)
    requires v in states[i].volumes && Steady(states, i, k + 1, v) && Undisturbed(events, i, k + 1, c)
    requires c in states[k].calls && !states[k].calls[c].Finished?
    requires c in states[k + 1].calls && states[k + 1].calls[c].Finished?
    requires states[i].volumes[v].attachments == [] && Resolve(states[i].machines, node).Some?
    ensures events[k] == GetVolume(c, Good) && v in states[k].volumes && IsAttached(states[k].volumes[v].status)
  {
    OnCourseUntil(states, events, i, k, c, v, node);
    StepAt(states, events, k);
    RunKeepsInv(states, events, k);
    hide *;
    LastPollSaw(states[k], events[k], c, v, node, Resolve(states[i].machines, node), states[i].volumes[v]);
  }

  /** The exact outcome of publish, under every interleaving, with the volume not deleted and the
      machines unchanged during the call: a call that ends without a failing step or a timeout
      answers NotFound if the node id names no machine; success for the machine, with its volume
      attached to it, if the volume was unattached or attached to it; and FailedPrecondition, with
      the attachment as it was, otherwise. A call that attached the volume ends with the poll that
      reads it "attached". */
  lemma PublishOutcome(states: seq<State>, events: seq<Event>, i: nat, k: nat, c: nat, v: string, node: string)
    requires IsRun(states, events) && Init(states[0]) && i < k < |events| && events[i] == BeginPublish(c, v, node)
    requires v in states[i].volumes && Steady(states, i, k + 1, v) && Undisturbed(events, i, k + 1, c)
    requires c in states[k].calls && !states[k].calls[c].Finished?
    requires c in states[k + 1].calls && states[k + 1].calls[c].Finished?
    ensures var was, t := states[i].volumes[v], Resolve(states[i].machines, node);
            && states[k + 1].calls[c] == Finished(v, Verdict(was.attachments, t, was.name))
            && states[k + 1].volumes[v].attachments == Left(was.attachments, t)
            && (was.attachments == [] && t.Some? ==>
                  events[k] == GetVolume(c, Good) && IsAttached(states[k].volumes[v].status))
  {
    StaysOnCourse(states, events, i, k + 1, c, v, node);
    hide Init, Inv, Enabled, Next, Steady, Undisturbed;
    if states[i].volumes[v].attachments == [] && Resolve(states[i].machines, node).Some? {
      EndsInPoll(states, events, i, k, c, v, node);
    }
  }
}
