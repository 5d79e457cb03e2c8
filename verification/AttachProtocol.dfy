/** The attach/detach protocol of ControllerPublishVolume and ControllerUnpublishVolume as a
    state machine. Every API call is one atomic step; between two steps of one call any number
    of steps of other calls, and of the cloud itself, may happen. */
module AttachProtocol {
  import opened Wrappers
  import opened Iaas

  datatype Answer = PublishOk(context: string, machine: string) | UnpublishOk | Failed(code: Code)

  /** Where a call stands, with its local variables. `copy` is the volume as read, which the
      decision uses although the cloud may have moved on. */
  datatype Call =
    | PubStart(vol: string, node: string)
    | PubRead(vol: string, node: string, copy: Volume)
    | PubAttach(vol: string, context: string, machine: string)
    | PubPoll(vol: string, context: string, machine: string)
    | UnpStart(vol: string, node: string)
    | UnpMachine(vol: string, node: string)
    | UnpList(vol: string, node: string)
    | UnpDetach(vol: string, machine: string)
    | UnpPoll(vol: string, machine: string)
    | Finished(vol: string, answer: Answer)

  /** `machines` is the region/VPC list, `known` the identities GetMachine finds. */
  datatype State = State(volumes: map<string, Volume>, machines: seq<Machine>,
                         known: set<string>, calls: map<nat, Call>)

  datatype Event =
    | BeginPublish(c: nat, vol: string, node: string)
    | BeginUnpublish(c: nat, vol: string, node: string)
    | GetVolume(c: nat, o: Outcome)
    | GetMachine(c: nat, o: Outcome)
    | ListMachines(c: nat, o: Outcome)
    | AttachVolume(c: nat, o: Outcome)
    | DetachVolume(c: nat, o: Outcome)
    | GiveUp(c: nat)
    // the cloud's own steps
    | ChangeStatus(vol: string, status: string)
    | ChangeMachines(machines: seq<Machine>, known: set<string>)
    | CreateVolume(volume: Volume)
    | DeleteVolume(vol: string)

  // ----- what the driver decides -----

  datatype Decision = AlreadyAttached | WrongMachine | Attach

  /** The attachment scan: a hit on the target wins; otherwise the last attachment scanned
      decides, and an empty identity there reads as "not attached". */
  function Decide(attachments: seq<string>, target: string): Decision {
    if target in attachments then AlreadyAttached
    else if attachments != [] && attachments[|attachments| - 1] != "" then WrongMachine
    else Attach
  }

  function AfterGetVolume(call: Call, vols: map<string, Volume>, o: Outcome): Call
    requires call.PubStart? || call.PubPoll? || call.UnpStart? || call.UnpPoll?
  {
    var v := call.vol;
    if o != Good then Finished(v, Failed(Unknown))
    else match call
    case PubStart(_, node) =>
      if v !in vols then Finished(v, Failed(NotFound)) else PubRead(v, node, vols[v])
    case PubPoll(_, context, machine) =>
      if v !in vols then Finished(v, Failed(Unknown))
      else if IsAttached(vols[v].status) then Finished(v, PublishOk(context, machine))
      else call
    case UnpStart(_, node) =>
      if v !in vols then Finished(v, UnpublishOk)
      else if vols[v].attachments == [] && IsAvailable(vols[v].status) then Finished(v, UnpublishOk)
      else UnpMachine(v, node)
    case UnpPoll(_, machine) =>
      if v !in vols || IsAvailable(vols[v].status) then Finished(v, UnpublishOk) else call
  }

  function AfterListMachines(call: Call, machines: seq<Machine>, o: Outcome): Call
    requires call.PubRead? || call.UnpList?
  {
    var v := call.vol;
    if o != Good then Finished(v, Failed(Unknown))
    else
      var target := Resolve(machines, call.node);
      if call.PubRead? then
        if target.None? then Finished(v, Failed(NotFound))
        else match Decide(call.copy.attachments, target.value)
          case AlreadyAttached => Finished(v, PublishOk(call.copy.name, target.value))
          case WrongMachine => Finished(v, Failed(FailedPrecondition))
          case Attach => PubAttach(v, call.copy.name, target.value)
      else if target.None? then Finished(v, UnpublishOk)
      else UnpDetach(v, target.value)
  }

  function AfterAttach(call: Call, o: Outcome): Call
    requires call.PubAttach?
  {
    match o
    case Good => PubPoll(call.vol, call.context, call.machine)
    case NotFoundError => Finished(call.vol, Failed(NotFound))
    case _ => Finished(call.vol, Failed(Unknown))
  }

  function AfterDetach(call: Call, o: Outcome): Call
    requires call.UnpDetach?
  {
    match o
    case Good => UnpPoll(call.vol, call.machine)
    case NotFoundError => Finished(call.vol, UnpublishOk)
    case _ => Finished(call.vol, Failed(Unknown))
  }

  // ----- what the API does -----

  predicate Effective(o: Outcome) { o == Good || o == FailLate }

  function Without(s: seq<string>, m: string): (r: seq<string>)
    ensures m !in r
    ensures forall x :: x in r <==> x in s && x != m
    ensures |r| <= |s|
    ensures m !in s ==> r == s
  {
    if s == [] then []
    else if s[0] == m then Without(s[1..], m)
    else [s[0]] + Without(s[1..], m)
  }

  /** AttachVolume adds one attachment: nothing in the API itself keeps a volume exclusive. */
  function AttachEffect(vols: map<string, Volume>, v: string, m: string): map<string, Volume>
    requires v in vols
  {
    vols[v := vols[v].(attachments := vols[v].attachments + [m], status := "attaching")]
  }

  /** DetachVolume removes the named machine's attachment only. */
  function DetachEffect(vols: map<string, Volume>, v: string, m: string): map<string, Volume>
    requires v in vols
  {
    vols[v := vols[v].(attachments := Without(vols[v].attachments, m), status := "detaching")]
  }

  predicate InFlight(s: State, v: string) {
    exists c :: c in s.calls && s.calls[c].vol == v && !s.calls[c].Finished?
  }

  predicate Enabled(s: State, e: Event) {
    match e
    case BeginPublish(c, v, n) => c !in s.calls && !InFlight(s, v)
    case BeginUnpublish(c, v, n) => c !in s.calls && !InFlight(s, v)
    case GetVolume(c, o) =>
      c in s.calls && (o == Good || o == Fail) &&
      (var k := s.calls[c]; k.PubStart? || k.PubPoll? || k.UnpStart? || k.UnpPoll?)
    case GetMachine(c, o) => c in s.calls && s.calls[c].UnpMachine? && (o == Good || o == Fail)
    case ListMachines(c, o) =>
      c in s.calls && (s.calls[c].PubRead? || s.calls[c].UnpList?) && (o == Good || o == Fail)
    case AttachVolume(c, o) =>
      c in s.calls && s.calls[c].PubAttach? && (Effective(o) ==> s.calls[c].vol in s.volumes)
    case DetachVolume(c, o) =>
      c in s.calls && s.calls[c].UnpDetach? &&
      (Effective(o) ==> s.calls[c].vol in s.volumes) &&
      (o == NotFoundError && s.calls[c].vol in s.volumes ==>
         s.calls[c].machine !in s.volumes[s.calls[c].vol].attachments)
    case GiveUp(c) => c in s.calls && (s.calls[c].PubPoll? || s.calls[c].UnpPoll?)
    case ChangeStatus(v, st) =>
      v in s.volumes && (IsAvailable(st) ==> s.volumes[v].attachments == [])
    case ChangeMachines(ms, known) => forall m :: m in ms ==> m.identity != ""
    case CreateVolume(vol) =>
      vol.identity !in s.volumes && !InFlight(s, vol.identity) && vol.attachments == []
    case DeleteVolume(v) => v in s.volumes
  }

  function Next(s: State, e: Event): State
    requires Enabled(s, e)
  {
    match e
    case BeginPublish(c, v, n) => s.(calls := s.calls[c := PubStart(v, n)])
    case BeginUnpublish(c, v, n) => s.(calls := s.calls[c := UnpStart(v, n)])
    case GetVolume(c, o) => s.(calls := s.calls[c := AfterGetVolume(s.calls[c], s.volumes, o)])
    case GetMachine(c, o) =>
      var k := s.calls[c];
      s.(calls := s.calls[c :=
        if o != Good then Finished(k.vol, Failed(Unknown))
        else if k.node in s.known then UnpDetach(k.vol, k.node)
        else UnpList(k.vol, k.node)])
    case ListMachines(c, o) => s.(calls := s.calls[c := AfterListMachines(s.calls[c], s.machines, o)])
    case AttachVolume(c, o) =>
      var k := s.calls[c];
      s.(volumes := if Effective(o) then AttachEffect(s.volumes, k.vol, k.machine) else s.volumes,
         calls := s.calls[c := AfterAttach(k, o)])
    case DetachVolume(c, o) =>
      var k := s.calls[c];
      s.(volumes := if Effective(o) then DetachEffect(s.volumes, k.vol, k.machine) else s.volumes,
         calls := s.calls[c := AfterDetach(k, o)])
    case GiveUp(c) => s.(calls := s.calls[c := Finished(s.calls[c].vol, Failed(Unknown))])
    case ChangeStatus(v, st) => s.(volumes := s.volumes[v := s.volumes[v].(status := st)])
    case ChangeMachines(ms, known) => s.(machines := ms, known := known)
    case CreateVolume(vol) => s.(volumes := s.volumes[vol.identity := vol])
    case DeleteVolume(v) => s.(volumes := map x | x in s.volumes && x != v :: s.volumes[x])
  }

  // ----- the invariant -----

  ghost predicate GoodVolume(v: Volume) {
    && |v.attachments| <= 1
    && "" !in v.attachments
    && (IsAvailable(v.status) ==> v.attachments == [])
  }

  /** What an unfinished call knows of its volume, as long as that volume exists: the stale
      copy still shows the cloud's attachments. */
  ghost predicate Agrees(k: Call, vols: map<string, Volume>) {
    match k
    case PubRead(v, _, copy) =>
      GoodVolume(copy) && (v in vols ==> copy.attachments == vols[v].attachments)
    case PubAttach(v, _, m) => m != "" && (v in vols ==> vols[v].attachments == [])
    case PubPoll(v, _, m) => m != "" && (v in vols ==> vols[v].attachments == [m])
    case UnpPoll(v, m) => v in vols ==> m !in vols[v].attachments
    case _ => true
  }

  ghost predicate OnePerVolume(calls: map<nat, Call>) {
    forall c, d :: c in calls && d in calls && c != d && !calls[c].Finished? && !calls[d].Finished?
      ==> calls[c].vol != calls[d].vol
  }

  ghost predicate Inv(s: State) {
    && (forall v :: v in s.volumes ==> GoodVolume(s.volumes[v]))
    && (forall m :: m in s.machines ==> m.identity != "")
    && OnePerVolume(s.calls)
    && (forall c :: c in s.calls ==> Agrees(s.calls[c], s.volumes))
  }

  /** No call in flight, every volume attached at most once. */
  ghost predicate Init(s: State) {
    && (forall v :: v in s.volumes ==> GoodVolume(s.volumes[v]))
    && (forall m :: m in s.machines ==> m.identity != "")
    && (forall c :: c in s.calls ==> s.calls[c].Finished?)
  }

  /** The call an event belongs to, if any. */
  predicate IsCallStep(e: Event) {
    e.GetVolume? || e.GetMachine? || e.ListMachines? || e.AttachVolume? || e.DetachVolume? || e.GiveUp?
  }

  /** A step of one call touches no other volume and no other call. */
  lemma StepFrame(s: State, e: Event)
    requires Enabled(s, e) && IsCallStep(e)
    ensures e.c in s.calls && !s.calls[e.c].Finished?
    ensures Next(s, e).calls == s.calls[e.c := Next(s, e).calls[e.c]]
    ensures Next(s, e).calls[e.c].vol == s.calls[e.c].vol
    ensures Next(s, e).machines == s.machines && Next(s, e).volumes.Keys == s.volumes.Keys
    ensures forall v :: v in s.volumes && v != s.calls[e.c].vol ==> Next(s, e).volumes[v] == s.volumes[v]
  {
  }

  lemma NotAvailable()
    ensures !IsAvailable("attaching") && !IsAvailable("detaching")
  {
    assert "attaching"[1] == 't' && "available"[1] == 'v' && "detaching"[1] == 'e';
  }

  lemma AttachAgrees(s: State, e: Event)
    requires Inv(s) && Enabled(s, e) && (e.AttachVolume? || e.DetachVolume?)
    ensures var v := s.calls[e.c].vol; var s' := Next(s, e);
            Agrees(s'.calls[e.c], s'.volumes) && (v in s'.volumes ==> GoodVolume(s'.volumes[v]))
  {
    NotAvailable();
    hide EqualFold;
    var k := s.calls[e.c];
    assert Agrees(k, s.volumes);
    assert k.vol in s.volumes ==> GoodVolume(s.volumes[k.vol]);
  }

  /** The step leaves its own call and volume in agreement. */
  lemma StepAgrees(s: State, e: Event)
    requires Inv(s) && Enabled(s, e) && IsCallStep(e)
    ensures var v := s.calls[e.c].vol; var s' := Next(s, e);
            Agrees(s'.calls[e.c], s'.volumes) && (v in s'.volumes ==> GoodVolume(s'.volumes[v]))
  {
    hide EqualFold;
    if e.AttachVolume? || e.DetachVolume? {
      AttachAgrees(s, e);
    } else {
      var k := s.calls[e.c];
      assert Agrees(k, s.volumes);
      assert k.vol in s.volumes ==> GoodVolume(s.volumes[k.vol]);
      assert Next(s, e).volumes == s.volumes;
    }
  }

  /** The other calls are on other volumes, so they still agree with the cloud. */
  lemma AgreesElsewhere(calls: map<nat, Call>, vols: map<string, Volume>,
                        calls': map<nat, Call>, vols': map<string, Volume>, c: nat)
    requires OnePerVolume(calls) && forall d :: d in calls ==> Agrees(calls[d], vols)
    requires c in calls && !calls[c].Finished? && c in calls' && Agrees(calls'[c], vols')
    requires calls' == calls[c := calls'[c]] && calls'[c].vol == calls[c].vol
    requires vols'.Keys == vols.Keys
    requires forall v :: v in vols && v != calls[c].vol ==> vols'[v] == vols[v]
    ensures OnePerVolume(calls') && forall d :: d in calls' ==> Agrees(calls'[d], vols')
  {
    forall d | d in calls' ensures Agrees(calls'[d], vols') {
      if d != c { assert Agrees(calls[d], vols); }
    }
  }

  lemma CallStepKeepsInv(s: State, e: Event)
    requires Inv(s) && Enabled(s, e) && IsCallStep(e)
    ensures Inv(Next(s, e))
  {
    StepFrame(s, e);
    StepAgrees(s, e);
    var s' := Next(s, e);
    assert OnePerVolume(s.calls);
    AgreesElsewhere(s.calls, s.volumes, s'.calls, s'.volumes, e.c);
  }

  lemma CloudStepKeepsInv(s: State, e: Event)
    requires Inv(s) && Enabled(s, e) && !IsCallStep(e)
    ensures Inv(Next(s, e))
  {
    var s' := Next(s, e);
    forall d | d in s'.calls ensures Agrees(s'.calls[d], s'.volumes) {
      assert d in s.calls ==> Agrees(s.calls[d], s.volumes);
    }
    forall v | v in s'.volumes ensures GoodVolume(s'.volumes[v]) {
      assert v in s.volumes ==> GoodVolume(s.volumes[v]);
    }
  }

  lemma StepKeepsInv(s: State, e: Event)
    requires Inv(s) && Enabled(s, e)
    ensures Inv(Next(s, e))
  {
    if IsCallStep(e) { CallStepKeepsInv(s, e); } else { CloudStepKeepsInv(s, e); }
  }
}
