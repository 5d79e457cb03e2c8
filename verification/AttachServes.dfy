/** Which machine a call acts on: the one its node id stood for when the call looked it up. */
module AttachServes {
  import opened Wrappers
  import opened Iaas
  import opened AttachProtocol
  import opened AttachRuns

  /** How step e can move call c on from k to k'. */
  ghost predicate Moves(s: State, e: Event, c: nat, k: Call, k': Call) {
    || k' == k
    || (k'.Finished? && k'.answer.Failed? && k'.vol == k.vol && !k.Finished?)
    || match k
       case PubStart(v, n) => k'.PubRead? && k'.vol == v && k'.node == n
       case PubRead(v, n, copy) =>
         e == ListMachines(c, Good) && Resolve(s.machines, n).Some? &&
         var m := Resolve(s.machines, n).value;
         k' == PubAttach(v, copy.name, m) || k' == Finished(v, PublishOk(copy.name, m))
       case PubAttach(v, context, m) => k' == PubPoll(v, context, m)
       case PubPoll(v, context, m) => k' == Finished(v, PublishOk(context, m))
       case UnpStart(v, n) => k' == UnpMachine(v, n) || k' == Finished(v, UnpublishOk)
       case UnpMachine(v, n) => e == GetMachine(c, Good) && k' == if n in s.known then UnpDetach(v, n) else UnpList(v, n)
       case UnpList(v, n) =>
         e == ListMachines(c, Good) &&
         k' == (match Resolve(s.machines, n) case Some(m) => UnpDetach(v, m) case None => Finished(v, UnpublishOk))
       case UnpDetach(v, m) => k' == UnpPoll(v, m) || k' == Finished(v, UnpublishOk)
       case UnpPoll(v, m) => k' == Finished(v, UnpublishOk)
       case Finished(_, _) => false
  }

  lemma CallMoves(s: State, e: Event, c: nat)
    requires Enabled(s, e) && c in s.calls
    ensures c in Next(s, e).calls && Moves(s, e, c, s.calls[c], Next(s, e).calls[c])
  {
    hide EqualFold;
  }

  lemma StepAt(states: seq<State>, events: seq<Event>, j: nat)
    requires IsRun(states, events) && j < |events|
    ensures Enabled(states[j], events[j]) && states[j + 1] == Next(states[j], events[j])
  {
  }

  // ----- publish -----

  /** Between i and j, call c listed the machines, and `node` stood for m in that list. */
  ghost predicate Listed(states: seq<State>, events: seq<Event>, i: int, j: int, c: nat, node: string, m: string)
    requires |states| == |events| + 1
  {
    exists x :: 0 <= i < x < j < |states| && events[x] == ListMachines(c, Good) && Resolve(states[x].machines, node) == Some(m)
  }

  /** Where a publish call for v and node, begun at i, can stand at j. */
  ghost predicate ServesPublish(states: seq<State>, events: seq<Event>, i: int, j: int, c: nat, v: string, node: string)
    requires |states| == |events| + 1 && 0 <= j < |states|
  {
    c in states[j].calls &&
    match states[j].calls[c]
    case PubStart(w, n) => w == v && n == node
    case PubRead(w, n, _) => w == v && n == node
    case PubAttach(w, _, m) => w == v && Listed(states, events, i, j, c, node, m)
    case PubPoll(w, _, m) => w == v && Listed(states, events, i, j, c, node, m)
    case Finished(w, answer) =>
      w == v && !answer.UnpublishOk? && (answer.PublishOk? ==> Listed(states, events, i, j, c, node, answer.machine))
    case _ => false
  }

  lemma ListedLater(states: seq<State>, events: seq<Event>, i: int, j: int, c: nat, node: string, m: string)
    requires |states| == |events| + 1 && 0 <= j < |events| && Listed(states, events, i, j, c, node, m)
    ensures Listed(states, events, i, j + 1, c, node, m)
  {
    var x :| 0 <= i < x < j < |states| && events[x] == ListMachines(c, Good) && Resolve(states[x].machines, node) == Some(m);
    assert i < x < j + 1 < |states|;
  }

  /** In every run a publish call for v and node only ever attaches v, to the machine the node
      id stood for when the call listed the machines, and only answers success for it. */
  lemma {:induction false} PublishServesNode(states: seq<State>, events: seq<Event>, i: nat, j: nat, c: nat, v: string, node: string)
    requires IsRun(states, events) && i < j < |states| && events[i] == BeginPublish(c, v, node)
    ensures ServesPublish(states, events, i, j, c, v, node)
  {
    if j == i + 1 {
      assert states[j] == Next(states[i], events[i]);
    } else {
      PublishServesNode(states, events, i, j - 1, c, v, node);
      CallMoves(states[j - 1], events[j - 1], c);
      hide Enabled, Next, Resolve;
      forall m | Listed(states, events, i, j - 1, c, node, m) ensures Listed(states, events, i, j, c, node, m) {
        ListedLater(states, events, i, j - 1, c, node, m);
      }
    }
  }

  ghost predicate SeesAttached(s: State, e: Event, c: nat, v: string, m: string)
    requires c in s.calls
  {
    || (e == GetVolume(c, Good) && s.calls[c].PubPoll? && s.calls[c].machine == m
        && v in s.volumes && IsAttached(s.volumes[v].status))
    || (e == ListMachines(c, Good) && s.calls[c].PubRead? && m in s.calls[c].copy.attachments)
  }

  /** Between i and j, call c saw v attached to m: in the copy its decision was made on, or by a
      poll that read the volume with the status "attached". */
  ghost predicate SawAttached(states: seq<State>, events: seq<Event>, i: int, j: int, c: nat, v: string, m: string)
    requires |states| == |events| + 1
  {
    exists x :: 0 <= i < x < j < |states| && c in states[x].calls && SeesAttached(states[x], events[x], c, v, m)
  }

  lemma SuccessSeen(s: State, e: Event, c: nat)
    requires Enabled(s, e) && c in s.calls && !s.calls[c].Finished?
    requires Next(s, e).calls[c].Finished? && Next(s, e).calls[c].answer.PublishOk?
    ensures SeesAttached(s, e, c, s.calls[c].vol, Next(s, e).calls[c].answer.machine)
  {
    hide EqualFold, Resolve;
  }

  lemma SawLater(states: seq<State>, events: seq<Event>, i: int, j: int, c: nat, v: string, m: string)
    requires |states| == |events| + 1 && 0 <= j < |events| && SawAttached(states, events, i, j, c, v, m)
    ensures SawAttached(states, events, i, j + 1, c, v, m)
  {
    hide SeesAttached;
    var x :| 0 <= i < x < j < |states| && c in states[x].calls && SeesAttached(states[x], events[x], c, v, m);
    assert i < x < j + 1 < |states|;
  }

  lemma SawNow(states: seq<State>, events: seq<Event>, i: nat, j: nat, c: nat, v: string, m: string)
    requires |states| == |events| + 1 && i < j < |events| && c in states[j].calls && SeesAttached(states[j], events[j], c, v, m)
    ensures SawAttached(states, events, i, j + 1, c, v, m)
  {
  }

  ghost predicate Succeeded(s: State, c: nat) {
    c in s.calls && s.calls[c].Finished? && s.calls[c].answer.PublishOk?
  }

  lemma SawStep(states: seq<State>, events: seq<Event>, i: nat, j: nat, c: nat, v: string)
    requires IsRun(states, events) && i < j < |events| && c in states[j].calls && states[j].calls[c].vol == v
    requires Succeeded(states[j], c) ==> SawAttached(states, events, i, j, c, v, states[j].calls[c].answer.machine)
    ensures Succeeded(states[j + 1], c) ==> SawAttached(states, events, i, j + 1, c, v, states[j + 1].calls[c].answer.machine)
  {
    StepAt(states, events, j);
    CallMoves(states[j], events[j], c);
    if Succeeded(states[j + 1], c) {
      var m := states[j + 1].calls[c].answer.machine;
      hide IsRun, Enabled, Next, Listed, SawAttached, SeesAttached, Resolve;
      if states[j].calls[c].Finished? {
        SawLater(states, events, i, j, c, v, m);
      } else {
        SuccessSeen(states[j], events[j], c);
        SawNow(states, events, i, j, c, v, m);
      }
    }
  }

  /** In every run a publish call answers success only once it has seen its volume attached: a
      call that attached it, only once a poll has read the status "attached". */
  lemma {:induction false} SuccessSawAttached(states: seq<State>, events: seq<Event>, i: nat, j: nat, c: nat, v: string, node: string)
    requires IsRun(states, events) && i < j < |states| && events[i] == BeginPublish(c, v, node)
    ensures Succeeded(states[j], c) ==> SawAttached(states, events, i, j, c, v, states[j].calls[c].answer.machine)
    decreases j
  {
    hide SawAttached;
    if j == i + 1 {
      StepAt(states, events, i);
    } else {
      PublishServesNode(states, events, i, j - 1, c, v, node);
      hide IsRun, Enabled, Next, Listed, Succeeded;
      SuccessSawAttached(states, events, i, j - 1, c, v, node);
      SawStep(states, events, i, j - 1, c, v);
    }
  }

  // ----- unpublish -----

  /** Between i and j, call c looked up `node` as a machine identity; `found` tells the result. */
  ghost predicate LookedUp(states: seq<State>, events: seq<Event>, i: int, j: int, c: nat, node: string, found: bool)
    requires |states| == |events| + 1
  {
    exists x :: 0 <= i < x < j < |states| && events[x] == GetMachine(c, Good) && (node in states[x].known <==> found)
  }

  /** Why an unpublish call for `node` acts on m: the node id is a known identity, or it is not
      and stood for m in the list. */
  ghost predicate Aimed(states: seq<State>, events: seq<Event>, i: int, j: int, c: nat, node: string, m: string)
    requires |states| == |events| + 1
  {
    || (m == node && LookedUp(states, events, i, j, c, node, true))
    || (LookedUp(states, events, i, j, c, node, false) && Listed(states, events, i, j, c, node, m))
  }

  /** Where an unpublish call for v and node, begun at i, can stand at j. */
  ghost predicate ServesUnpublish(states: seq<State>, events: seq<Event>, i: int, j: int, c: nat, v: string, node: string)
    requires |states| == |events| + 1 && 0 <= j < |states|
  {
    c in states[j].calls &&
    match states[j].calls[c]
    case UnpStart(w, n) => w == v && n == node
    case UnpMachine(w, n) => w == v && n == node
    case UnpList(w, n) => w == v && n == node && LookedUp(states, events, i, j, c, node, false)
    case UnpDetach(w, m) => w == v && Aimed(states, events, i, j, c, node, m)
    case UnpPoll(w, m) => w == v && Aimed(states, events, i, j, c, node, m)
    case Finished(w, answer) => w == v && !answer.PublishOk?
    case _ => false
  }

  lemma LookedUpLater(states: seq<State>, events: seq<Event>, i: int, j: int, c: nat, node: string, found: bool)
    requires |states| == |events| + 1 && 0 <= j < |events| && LookedUp(states, events, i, j, c, node, found)
    ensures LookedUp(states, events, i, j + 1, c, node, found)
  {
    var x :| 0 <= i < x < j < |states| && events[x] == GetMachine(c, Good) && (node in states[x].known <==> found);
    assert i < x < j + 1 < |states|;
  }

  lemma AimedLater(states: seq<State>, events: seq<Event>, i: int, j: int, c: nat, node: string, m: string)
    requires |states| == |events| + 1 && 0 <= j < |events| && Aimed(states, events, i, j, c, node, m)
    ensures Aimed(states, events, i, j + 1, c, node, m)
  {
    if LookedUp(states, events, i, j, c, node, true) && m == node {
      LookedUpLater(states, events, i, j, c, node, true);
    } else {
      LookedUpLater(states, events, i, j, c, node, false);
      ListedLater(states, events, i, j, c, node, m);
    }
  }

  lemma AimAt(states: seq<State>, events: seq<Event>, i: int, j: int, c: nat, node: string, m: string)
    requires |states| == |events| + 1
    requires (m == node && LookedUp(states, events, i, j, c, node, true))
          || (LookedUp(states, events, i, j, c, node, false) && Listed(states, events, i, j, c, node, m))
    ensures Aimed(states, events, i, j, c, node, m)
  {
  }

  lemma ServesUnpublishStep(states: seq<State>, events: seq<Event>, i: nat, j: nat, c: nat, v: string, node: string)
    requires |states| == |events| + 1 && i < j < |events| && ServesUnpublish(states, events, i, j, c, v, node)
    requires c in states[j + 1].calls && Moves(states[j], events[j], c, states[j].calls[c], states[j + 1].calls[c])
    ensures ServesUnpublish(states, events, i, j + 1, c, v, node)
  {
    hide Resolve, Aimed;
    var k, k' := states[j].calls[c], states[j + 1].calls[c];
    match k
    case UnpMachine(_, _) =>
      if k' != k && !k'.Finished? {
        assert LookedUp(states, events, i, j + 1, c, node, node in states[j].known);
        if k'.UnpDetach? { AimAt(states, events, i, j + 1, c, node, k'.machine); }
      }
    case UnpList(_, _) =>
      LookedUpLater(states, events, i, j, c, node, false);
      if k'.UnpDetach? {
        assert Listed(states, events, i, j + 1, c, node, k'.machine);
        AimAt(states, events, i, j + 1, c, node, k'.machine);
      }
    case UnpDetach(_, m) => AimedLater(states, events, i, j, c, node, m);
    case UnpPoll(_, m) => AimedLater(states, events, i, j, c, node, m);
    case _ =>
  }

  lemma BeginServes(states: seq<State>, events: seq<Event>, i: nat, c: nat, v: string, node: string)
    requires IsRun(states, events) && i < |events| && events[i] == BeginUnpublish(c, v, node)
    ensures ServesUnpublish(states, events, i, i + 1, c, v, node)
  {
    StepAt(states, events, i);
    assert states[i + 1].calls[c] == UnpStart(v, node);
  }

  lemma ServesUnpublishNext(states: seq<State>, events: seq<Event>, i: nat, j: nat, c: nat, v: string, node: string)
    requires IsRun(states, events) && i < j < |events| && ServesUnpublish(states, events, i, j, c, v, node)
    ensures ServesUnpublish(states, events, i, j + 1, c, v, node)
  {
    StepAt(states, events, j);
    CallMoves(states[j], events[j], c);
    hide Enabled, Next, Moves;
    ServesUnpublishStep(states, events, i, j, c, v, node);
  }

  /** In every run an unpublish call for v and node only ever detaches from v, and only the
      machine that is the node id, if that is known as an identity, or else the machine it stood
      for when the call listed the machines. */
  lemma {:induction false} UnpublishServesNode(states: seq<State>, events: seq<Event>, i: nat, j: nat, c: nat, v: string, node: string)
    requires IsRun(states, events) && i < j < |states| && events[i] == BeginUnpublish(c, v, node)
    ensures ServesUnpublish(states, events, i, j, c, v, node)
  {
    hide Enabled, Next, ServesUnpublish;
    if j == i + 1 {
      BeginServes(states, events, i, c, v, node);
    } else {
      UnpublishServesNode(states, events, i, j - 1, c, v, node);
      ServesUnpublishNext(states, events, i, j - 1, c, v, node);
    }
  }

  /** `node` stands for m, without collision, in every state of a stretch of the run. */
  ghost predicate StandsFor(states: seq<State>, i: int, k: int, node: string, m: string) {
    0 <= i <= k < |states| &&
    forall x :: i <= x <= k ==> Resolve(states[x].machines, node) == Some(m) && NoCollision(states[x].machines, states[x].known, node)
  }

  /** While `node` stands for m, an unpublish call for `node` aims at m. */
  lemma AimedAtOwn(states: seq<State>, events: seq<Event>, i: int, k: int, c: nat, node: string, named: string, m: string)
    requires |states| == |events| + 1 && Aimed(states, events, i, k, c, node, named) && StandsFor(states, i, k, node, m)
    ensures named == m
  {
    if named == node && LookedUp(states, events, i, k, c, node, true) {
      var x :| 0 <= i < x < k < |states| && events[x] == GetMachine(c, Good) && (node in states[x].known <==> true);
      ResolutionsAgree(states[x].machines, states[x].known, node);
    } else {
      var x :| 0 <= i < x < k < |states| && events[x] == ListMachines(c, Good) && Resolve(states[x].machines, node) == Some(named);
    }
  }

  lemma DetachEffectOn(s: State, e: Event, v: string, a: string)
    requires Inv(s) && Enabled(s, e) && e.DetachVolume? && Effective(e.o) && AttachedTo(s, v, a) && s.calls[e.c].vol == v
    ensures if a == s.calls[e.c].machine then Next(s, e).volumes[v].attachments == [] else AttachedTo(Next(s, e), v, a)
  {
    StaysAttachedStep(s, e, v, a);
    if a == s.calls[e.c].machine { ReleaseEmpties(s, e, v, a); }
  }

  /** In every run, whatever fails and whatever other calls do: while the node id stands for m
      without collision, every DetachVolume an unpublish call for that node issues names m; so
      it empties a volume attached to m and leaves any other attachment alone. */
  lemma DetachNamesOwn(states: seq<State>, events: seq<Event>, i: nat, k: nat, c: nat, v: string, node: string, m: string)
    requires IsRun(states, events) && Init(states[0]) && i < k < |events|
    requires events[i] == BeginUnpublish(c, v, node) && events[k].DetachVolume? && events[k].c == c
    requires StandsFor(states, i, k, node, m)
    ensures c in states[k].calls && states[k].calls[c] == UnpDetach(v, m)
    ensures forall a :: AttachedTo(states[k], v, a) && Effective(events[k].o) ==>
              if a == m then states[k + 1].volumes[v].attachments == [] else AttachedTo(states[k + 1], v, a)
  {
    StepAt(states, events, k);
    UnpublishServesNode(states, events, i, k, c, v, node);
    AimedAtOwn(states, events, i, k, c, node, states[k].calls[c].machine, m);
    RunKeepsInv(states, events, k);
    hide IsRun, Init, Inv, Aimed, StandsFor;
    forall a | AttachedTo(states[k], v, a) && Effective(events[k].o)
      ensures if a == m then states[k + 1].volumes[v].attachments == [] else AttachedTo(states[k + 1], v, a)
    {
      DetachEffectOn(states[k], events[k], v, a);
    }
  }

  /** Unpublish detaches exactly what publish attached: if a publish call for v and node, begun
      at p, answered success at q, then every DetachVolume of every later unpublish call for v
      and that node names the machine publish answered with, as long as the node id stands for
      one machine without collision. Any interleaving, any failures. */
  lemma UnpublishUndoesPublish(states: seq<State>, events: seq<Event>, p: nat, q: nat, i: nat, k: nat,
                               c1: nat, c2: nat, v: string, node: string, m: string)
    requires IsRun(states, events) && Init(states[0]) && p < q <= i < k < |events|
    requires events[p] == BeginPublish(c1, v, node) && c1 in states[q].calls
    requires states[q].calls[c1].Finished? && states[q].calls[c1].answer.PublishOk?
    requires events[i] == BeginUnpublish(c2, v, node) && events[k].DetachVolume? && events[k].c == c2
    requires StandsFor(states, p, k, node, m)
    ensures c2 in states[k].calls && states[k].calls[c2] == UnpDetach(v, states[q].calls[c1].answer.machine)
  {
    PublishServesNode(states, events, p, q, c1, v, node);
    assert StandsFor(states, i, k, node, m);
    DetachNamesOwn(states, events, i, k, c2, v, node, m);
  }

  // ----- when unpublish detaches -----

  /** Where an unpublish call aimed at t stands, with v attached to m when it began. */
  ghost predicate Underway(s: State, c: nat, v: string, node: string, t: Option<string>, m: string) {
    v in s.volumes && c in s.calls &&
    match s.calls[c]
    case UnpStart(w, n) => w == v && n == node && AttachedTo(s, v, m)
    case UnpMachine(w, n) => w == v && n == node && AttachedTo(s, v, m)
    case UnpList(w, n) => w == v && n == node && node !in s.known && AttachedTo(s, v, m)
    case UnpDetach(w, a) => w == v && t == Some(a) && AttachedTo(s, v, m)
    case UnpPoll(w, a) => w == v && t == Some(a) && if a == m then s.volumes[v].attachments == [] else AttachedTo(s, v, m)
    case Finished(w, answer) =>
      w == v && (answer == UnpublishOk ==> if t == Some(m) then s.volumes[v].attachments == [] else AttachedTo(s, v, m))
    case _ => false
  }

  lemma OtherStepKeepsUnderway(s: State, e: Event, c: nat, v: string, node: string, t: Option<string>, m: string)
    requires Inv(s) && Enabled(s, e) && Underway(s, c, v, node, t, m) && !s.calls[c].Finished?
    requires !(IsCallStep(e) && e.c == c) && v in Next(s, e).volumes
    requires Next(s, e).machines == s.machines && Next(s, e).known == s.known
    ensures Underway(Next(s, e), c, v, node, t, m)
  {
    if IsCallStep(e) {
      StepFrame(s, e);
      assert s.calls[e.c].vol != v;
    }
  }

  lemma OwnDetachKeepsUnderway(s: State, e: Event, c: nat, v: string, node: string, t: Option<string>, m: string)
    requires Enabled(s, e) && Underway(s, c, v, node, t, m) && e.DetachVolume? && e.c == c
    ensures Underway(Next(s, e), c, v, node, t, m)
  {
    assert Without([m], m) == [];
    hide EqualFold, UnpublishTarget, Resolve;
  }

  lemma OwnStepKeepsUnderway(s: State, e: Event, c: nat, v: string, node: string, t: Option<string>, m: string)
    requires Inv(s) && Enabled(s, e) && Underway(s, c, v, node, t, m) && !s.calls[c].Finished?
    requires IsCallStep(e) && e.c == c && t == UnpublishTarget(s.machines, s.known, node)
    ensures Underway(Next(s, e), c, v, node, t, m)
  {
    assert GoodVolume(s.volumes[v]);
    hide EqualFold, Inv;
    if e.DetachVolume? {
      OwnDetachKeepsUnderway(s, e, c, v, node, t, m);
    }
  }

  /** From i to j volume v is not deleted and the machines stay the same. */
  ghost predicate Steady(states: seq<State>, i: int, j: int, v: string) {
    0 <= i <= j < |states| &&
    forall x :: i <= x <= j ==>
      v in states[x].volumes && states[x].machines == states[i].machines && states[x].known == states[i].known
  }

  lemma SteadyEarlier(states: seq<State>, i: int, j: int, v: string)
    requires Steady(states, i, j, v) && i < j
    ensures Steady(states, i, j - 1, v)
    ensures v in states[j].volumes && states[j].machines == states[j - 1].machines && states[j].known == states[j - 1].known
    ensures states[j - 1].machines == states[i].machines && states[j - 1].known == states[i].known
  {
    assert states[j - 1].machines == states[i].machines;
  }

  lemma StepKeepsUnderway(s: State, e: Event, c: nat, v: string, node: string, t: Option<string>, m: string)
    requires Inv(s) && Enabled(s, e) && Underway(s, c, v, node, t, m) && !s.calls[c].Finished?
    requires v in Next(s, e).volumes && Next(s, e).machines == s.machines && Next(s, e).known == s.known
    requires t == UnpublishTarget(s.machines, s.known, node)
    ensures Underway(Next(s, e), c, v, node, t, m)
  {
    if IsCallStep(e) && e.c == c {
      OwnStepKeepsUnderway(s, e, c, v, node, t, m);
    } else {
      OtherStepKeepsUnderway(s, e, c, v, node, t, m);
    }
  }

  /** A call that has not ended at j had not ended the step before. */
  lemma NotFinishedBefore(states: seq<State>, events: seq<Event>, i: nat, j: nat, c: nat, v: string, node: string)
    requires IsRun(states, events) && i < j < |events| && events[i] == BeginUnpublish(c, v, node)
    requires c in states[j + 1].calls && !states[j + 1].calls[c].Finished?
    ensures c in states[j].calls && !states[j].calls[c].Finished?
  {
    UnpublishServesNode(states, events, i, j, c, v, node);
    StepAt(states, events, j);
    CallMoves(states[j], events[j], c);
  }

  lemma BeginIsUnderway(s: State, c: nat, v: string, node: string, t: Option<string>, m: string)
    requires Enabled(s, BeginUnpublish(c, v, node)) && AttachedTo(s, v, m)
    ensures Underway(Next(s, BeginUnpublish(c, v, node)), c, v, node, t, m)
  {
  }

  lemma {:induction false} StaysUnderway(states: seq<State>, events: seq<Event>, i: nat, j: nat, c: nat, v: string, node: string, m: string)
    requires IsRun(states, events) && Init(states[0]) && i < j < |states|
    requires events[i] == BeginUnpublish(c, v, node) && AttachedTo(states[i], v, m) && Steady(states, i, j, v)
    requires j == i + 1 || (c in states[j - 1].calls && !states[j - 1].calls[c].Finished?)
    ensures Underway(states[j], c, v, node, UnpublishTarget(states[i].machines, states[i].known, node), m)
  {
    StepAt(states, events, j - 1);
    var t := UnpublishTarget(states[i].machines, states[i].known, node);
    hide IsRun, Init, Enabled, Next, Underway, Inv, UnpublishTarget, Steady, AttachedTo;
    if j == i + 1 {
      BeginIsUnderway(states[i], c, v, node, t, m);
    } else {
      if j > i + 2 { NotFinishedBefore(states, events, i, j - 2, c, v, node); }
      SteadyEarlier(states, i, j, v);
      StaysUnderway(states, events, i, j - 1, c, v, node, m);
      RunKeepsInv(states, events, j - 1);
      StepKeepsUnderway(states[j - 1], events[j - 1], c, v, node, t, m);
    }
  }

  /** When a successful unpublish has detached: for a volume attached to m when the call began
      and not deleted meanwhile, under every interleaving and with the machines unchanged during
      the call, success leaves no attachment if and only if the node id is aimed at m, that is,
      m is the node id itself if that is a known identity, else the first listed machine it
      names; otherwise success leaves the volume attached. */
  lemma UnpublishDetachesIff(states: seq<State>, events: seq<Event>, i: nat, k: nat, c: nat, v: string, node: string, m: string)
    requires IsRun(states, events) && Init(states[0]) && i < k < |events|
    requires events[i] == BeginUnpublish(c, v, node) && AttachedTo(states[i], v, m) && Steady(states, i, k + 1, v)
    requires c in states[k].calls && !states[k].calls[c].Finished? && c in states[k + 1].calls
    requires states[k + 1].calls[c] == Finished(v, UnpublishOk)
    ensures states[k + 1].volumes[v].attachments == [] <==> UnpublishTarget(states[i].machines, states[i].known, node) == Some(m)
    ensures UnpublishTarget(states[i].machines, states[i].known, node) != Some(m) ==> AttachedTo(states[k + 1], v, m)
  {
    StaysUnderway(states, events, i, k + 1, c, v, node, m);
  }

  // ----- the same, for a history that is known by its events -----

  /** The events, from `start`, contain a publish call c for v and node that listed the machines
      when node stood for m, and that saw v attached to m. */
  ghost predicate PublishedFor(start: State, events: seq<Event>, c: nat, v: string, node: string, m: string) {
    exists states, i :: IsRun(states, events) && states[0] == start && 0 <= i < |events|
                        && events[i] == BeginPublish(c, v, node) && Listed(states, events, i, |events|, c, node, m)
                        && SawAttached(states, events, i, |events|, c, v, m)
  }

  ghost predicate AimedAtEnd(start: State, events: seq<Event>, c: nat, v: string, node: string, m: string) {
    exists states, i :: IsRun(states, events) && states[0] == start && 0 <= i < |events|
                        && events[i] == BeginUnpublish(c, v, node) && Aimed(states, events, i, |events|, c, node, m)
  }

  /** The events, from `start`, have a first part with an unpublish call c for v and node that
      aims at m. */
  ghost predicate AimedFor(start: State, events: seq<Event>, c: nat, v: string, node: string, m: string) {
    exists n :: 0 <= n <= |events| && AimedAtEnd(start, events[..n], c, v, node, m)
  }

  lemma AimedForLater(start: State, events: seq<Event>, later: seq<Event>, c: nat, v: string, node: string, m: string)
    requires AimedFor(start, events, c, v, node, m) && events <= later
    ensures AimedFor(start, later, c, v, node, m)
  {
    hide AimedAtEnd;
    var n :| 0 <= n <= |events| && AimedAtEnd(start, events[..n], c, v, node, m);
    assert later[..n] == events[..n];
  }

  lemma SuccessServes(start: State, events: seq<Event>, s: State, i: nat, c: nat, v: string, node: string)
    requires RunsTo(start, events, s) && i < |events| && events[i] == BeginPublish(c, v, node)
    requires c in s.calls && s.calls[c].Finished? && s.calls[c].answer.PublishOk?
    ensures PublishedFor(start, events, c, v, node, s.calls[c].answer.machine)
  {
    var states :| IsRun(states, events) && states[0] == start && states[|events|] == s;
    PublishServesNode(states, events, i, |events|, c, v, node);
    SuccessSawAttached(states, events, i, |events|, c, v, node);
  }

  lemma DetachServes(start: State, events: seq<Event>, s: State, i: nat, c: nat, v: string, node: string)
    requires RunsTo(start, events, s) && i < |events| && events[i] == BeginUnpublish(c, v, node)
    requires c in s.calls && s.calls[c].UnpDetach?
    ensures AimedFor(start, events, c, v, node, s.calls[c].machine)
  {
    var states :| IsRun(states, events) && states[0] == start && states[|events|] == s;
    UnpublishServesNode(states, events, i, |events|, c, v, node);
    hide IsRun, Aimed;
    assert AimedAtEnd(start, events, c, v, node, s.calls[c].machine);
    assert events[..|events|] == events;
  }
}
