/** ControllerPublishVolume and ControllerUnpublishVolume as the driver runs them: a scan over
    the machines, a scan over the attachments, one attach or detach, and polling. Each API call
    is a step of AttachProtocol; `Others` stands between any two of them. */
module Attachment {
  import opened Wrappers
  import opened Iaas
  import opened AttachProtocol
  import opened AttachRuns
  import opened AttachServes

  /** How often call c has read its volume. */
  ghost function Reads(events: seq<Event>, c: nat): nat {
    if events == [] then 0
    else
      var last := events[|events| - 1];
      Reads(events[..|events| - 1], c) + if last.GetVolume? && last.c == c then 1 else 0
  }

  /** The IaaS API as all calls share it. The ghost fields remember where every call stands
      and everything that happened since `start`. */
  class Cloud {
    var volumes: map<string, Volume>
    var machines: seq<Machine>
    var known: set<string>
    ghost var calls: map<nat, Call>
    ghost var events: seq<Event>
    ghost const start: State

    ghost function Now(): State
      reads this
    {
      State(volumes, machines, known, calls)
    }

    /** The present is reachable from an initial state by protocol steps. */
    ghost predicate Valid()
      reads this
    {
      Init(start) && RunsTo(start, events, Now()) && Inv(Now())
    }

    constructor (volumes: map<string, Volume>, machines: seq<Machine>, known: set<string>)
      requires forall v :: v in volumes ==> GoodVolume(volumes[v])
      requires forall m :: m in machines ==> m.identity != ""
      ensures Valid() && Now() == State(volumes, machines, known, map[]) && events == []
    {
      this.volumes, this.machines, this.known := volumes, machines, known;
      this.calls, this.events := map[], [];
      this.start := State(volumes, machines, known, map[]);
      new;
      Stay(start);
    }

    /** What a call knows of its volume. */
    lemma Knows(c: nat)
      requires Valid() && c in calls
      ensures Agrees(calls[c], volumes)
    {
    }

    /** The machine of a successful publish is the one its node id stood for. */
    lemma Served(i: nat, c: nat, v: string, node: string)
      requires Valid() && i < |events| && events[i] == AttachProtocol.BeginPublish(c, v, node)
      requires c in calls && calls[c].Finished? && calls[c].answer.PublishOk?
      ensures PublishedFor(start, events, c, v, node, calls[c].answer.machine)
    {
      SuccessServes(start, events, Now(), i, c, v, node);
    }

    /** The machine an unpublish call is about to detach is the one its node id leads to. */
    lemma AimServed(i: nat, c: nat, v: string, node: string)
      requires Valid() && i < |events| && events[i] == AttachProtocol.BeginUnpublish(c, v, node)
      requires c in calls && calls[c].UnpDetach?
      ensures AimedFor(start, events, c, v, node, calls[c].machine)
    {
      DetachServes(start, events, Now(), i, c, v, node);
    }

    /** Any number of steps of other calls and of the cloud itself. Callers may rely on no more
        than this contract. */
    method Others(ghost c: nat)
      requires Valid()
      modifies this
      ensures Valid() && old(events) <= events
      ensures c in calls <==> c in old(calls)
      ensures c in calls ==> calls[c] == old(calls)[c]
      ensures Reads(events, c) == Reads(old(events), c)
    {
    }

    /** Records step e, whose effect on the cloud's own fields has been made. */
    ghost method Record(s: State, e: Event)
      requires Inv(s) && Init(start) && RunsTo(start, events, s) && Enabled(s, e)
      requires volumes == Next(s, e).volumes && machines == s.machines && known == s.known
      requires IsCallStep(e) || e.BeginPublish? || e.BeginUnpublish?
      modifies `calls, `events
      ensures Valid() && events == old(events) + [e] && Now() == Next(s, e)
    {
      StepKeepsInv(s, e);
      Extend(start, events, s, e, Next(s, e));
      calls, events := Next(s, e).calls, events + [e];
    }

    ghost method BeginPublish(c: nat, vol: string, node: string)
      requires Valid() && c !in calls && !InFlight(Now(), vol)
      modifies `calls, `events
      ensures Valid() && events == old(events) + [AttachProtocol.BeginPublish(c, vol, node)]
      ensures calls == old(calls)[c := PubStart(vol, node)]
    {
      Record(Now(), AttachProtocol.BeginPublish(c, vol, node));
    }

    ghost method BeginUnpublish(c: nat, vol: string, node: string)
      requires Valid() && c !in calls && !InFlight(Now(), vol)
      modifies `calls, `events
      ensures Valid() && events == old(events) + [AttachProtocol.BeginUnpublish(c, vol, node)]
      ensures calls == old(calls)[c := UnpStart(vol, node)]
    {
      Record(Now(), AttachProtocol.BeginUnpublish(c, vol, node));
    }

    ghost method GiveUp(c: nat)
      requires Valid() && c in calls && (calls[c].PubPoll? || calls[c].UnpPoll?)
      modifies `calls, `events
      ensures Valid() && events == old(events) + [AttachProtocol.GiveUp(c)]
      ensures calls == old(calls)[c := Finished(old(calls)[c].vol, Failed(Unknown))]
    {
      Record(Now(), AttachProtocol.GiveUp(c));
    }

    method GetVolume(ghost c: nat, id: string) returns (r: Reply<Volume>, ghost o: Outcome)
      requires Valid() && c in calls && calls[c].vol == id
      requires calls[c].PubStart? || calls[c].PubPoll? || calls[c].UnpStart? || calls[c].UnpPoll?
      modifies `calls, `events
      ensures Valid() && events == old(events) + [AttachProtocol.GetVolume(c, o)]
      ensures calls == old(calls)[c := AfterGetVolume(old(calls)[c], volumes, o)]
      ensures r == if o != Good then Failure else if id in volumes then Value(volumes[id]) else Missing
    {
      var works: bool := *;
      o := if works then Good else Fail;
      r := if !works then Failure else if id in volumes then Value(volumes[id]) else Missing;
      Record(Now(), AttachProtocol.GetVolume(c, o));
    }

    method ListMachines(ghost c: nat) returns (r: Reply<seq<Machine>>, ghost o: Outcome)
      requires Valid() && c in calls && (calls[c].PubRead? || calls[c].UnpList?)
      modifies `calls, `events
      ensures Valid() && events == old(events) + [AttachProtocol.ListMachines(c, o)]
      ensures calls == old(calls)[c := AfterListMachines(old(calls)[c], machines, o)]
      ensures r == if o != Good then Failure else Value(machines)
    {
      var works: bool := *;
      o := if works then Good else Fail;
      r := if works then Value(machines) else Failure;
      Record(Now(), AttachProtocol.ListMachines(c, o));
    }

    method GetMachine(ghost c: nat, id: string) returns (r: Reply<string>, ghost o: Outcome)
      requires Valid() && c in calls && calls[c].UnpMachine? && calls[c].node == id
      modifies `calls, `events
      ensures Valid() && events == old(events) + [AttachProtocol.GetMachine(c, o)]
      ensures calls == old(calls)[c :=
                var k := old(calls)[c];
                if o != Good then Finished(k.vol, Failed(Unknown))
                else if id in known then UnpDetach(k.vol, id) else UnpList(k.vol, id)]
      ensures r == if o != Good then Failure else if id in known then Value(id) else Missing
    {
      var works: bool := *;
      o := if works then Good else Fail;
      r := if !works then Failure else if id in known then Value(id) else Missing;
      Record(Now(), AttachProtocol.GetMachine(c, o));
    }

    method AttachVolume(ghost c: nat, id: string, machine: string) returns (r: Reply<()>, ghost o: Outcome)
      requires Valid() && c in calls && calls[c].PubAttach? && calls[c].vol == id && calls[c].machine == machine
      modifies `volumes, `calls, `events
      ensures Valid() && events == old(events) + [AttachProtocol.AttachVolume(c, o)]
      ensures calls == old(calls)[c := AfterAttach(old(calls)[c], o)]
      ensures Effective(o) ==> id in old(volumes)
      ensures volumes == if Effective(o) then AttachEffect(old(volumes), id, machine) else old(volumes)
      ensures r == match o case Good => Value(()) case NotFoundError => Missing case _ => Failure
    {
      var rejected: bool, works: bool, reported: bool := *, *, *;
      ghost var s := Now();
      if id !in volumes || rejected {
        r, o := Missing, NotFoundError;
      } else {
        r := if reported && works then Value(()) else Failure;
        o := if !works then Fail else if reported then Good else FailLate;
        volumes := if works then AttachEffect(volumes, id, machine) else volumes;
      }
      Record(s, AttachProtocol.AttachVolume(c, o));
    }

    method DetachVolume(ghost c: nat, id: string, machine: string) returns (r: Reply<()>, ghost o: Outcome)
      requires Valid() && c in calls && calls[c].UnpDetach? && calls[c].vol == id && calls[c].machine == machine
      modifies `volumes, `calls, `events
      ensures Valid() && events == old(events) + [AttachProtocol.DetachVolume(c, o)]
      ensures calls == old(calls)[c := AfterDetach(old(calls)[c], o)]
      ensures Effective(o) ==> id in old(volumes)
      ensures volumes == if Effective(o) then DetachEffect(old(volumes), id, machine) else old(volumes)
      ensures o == NotFoundError ==> id in volumes ==> machine !in volumes[id].attachments
      ensures r == match o case Good => Value(()) case NotFoundError => Missing case _ => Failure
    {
      var works: bool, reported: bool := *, *;
      ghost var s := Now();
      if id !in volumes || machine !in volumes[id].attachments {
        r, o := Missing, NotFoundError;
      } else {
        r := if reported && works then Value(()) else Failure;
        o := if !works then Fail else if reported then Good else FailLate;
        volumes := if works then DetachEffect(volumes, id, machine) else volumes;
      }
      Record(s, AttachProtocol.DetachVolume(c, o));
    }
  }

  /** The machine scan both calls make: the first machine that the node id names. */
  method FindMachine(machines: seq<Machine>, node: string) returns (found: bool, identity: string)
    ensures Resolve(machines, node) == if found then Some(identity) else None
  {
    found, identity := false, node;
    for i := 0 to |machines|
      invariant !found && forall j :: 0 <= j < i ==> !Names(machines[j], node)
    {
      if machines[i].name == node || machines[i].identity == node || machines[i].slug == node {
        assert FirstNamed(machines, node, i);
        return true, machines[i].identity;
      }
    }
  }

  /** The attachment scan: whether the target is attached, and the last identity seen. */
  method ScanAttachments(attachments: seq<string>, target: string) returns (hit: bool, last: string)
    ensures hit <==> target in attachments
    ensures !hit ==> last == if attachments == [] then "" else attachments[|attachments| - 1]
  {
    last := "";
    for i := 0 to |attachments|
      invariant target !in attachments[..i]
      invariant last == if i == 0 then "" else attachments[i - 1]
    {
      last := attachments[i];
      if attachments[i] == target { return true, last; }
    }
    return false, last;
  }

  datatype PublishRequest = PublishRequest(volume: string, node: string, hasCapability: bool, readonly: bool)

  /** The answer a call is recorded with is the one its caller gets. */
  ghost predicate Reported(call: Call, vol: string, r: Result<string>) {
    match r
    case Ok(context) => call.Finished? && call.vol == vol && call.answer.PublishOk? && call.answer.context == context
    case Err(code) => call == Finished(vol, Failed(code))
  }

  /** The call's last step was to give up polling. */
  ghost predicate TimedOut(events: seq<Event>, c: nat) { events != [] && events[|events| - 1] == GiveUp(c) }

  /** Polls until the volume reads "attached"; `polls` is how many polls fit before the timeout. */
  method WaitUntilAttached(cloud: Cloud, ghost c: nat, vol: string, context: string, ghost machine: string, polls: nat)
    returns (r: Result<string>)
    requires cloud.Valid() && c in cloud.calls && cloud.calls[c] == PubPoll(vol, context, machine)
    modifies cloud
    ensures cloud.Valid() && old(cloud.events) <= cloud.events
    ensures c in cloud.calls && Reported(cloud.calls[c], vol, r)
    ensures r.Ok? ==> AttachedTo(cloud.Now(), vol, machine) && cloud.calls[c].answer.machine == machine
    ensures r.Ok? ==> IsAttached(cloud.volumes[vol].status)
    ensures TimedOut(cloud.events, c) ==> Reads(cloud.events, c) == Reads(old(cloud.events), c) + polls
  {
    hide Inv, RunsTo, Init;
    for n := 0 to polls
      invariant cloud.Valid() && old(cloud.events) <= cloud.events
      invariant c in cloud.calls && cloud.calls[c] == PubPoll(vol, context, machine)
      invariant Reads(cloud.events, c) == Reads(old(cloud.events), c) + n
    {
      cloud.Others(c);
      cloud.Knows(c);
      var now, o := cloud.GetVolume(c, vol);
      if !now.Value? { return Err(Unknown); }
      if IsAttached(now.value.status) { return Ok(context); }
    }
    cloud.GiveUp(c);
    return Err(Unknown);
  }

  method AttachAndWait(cloud: Cloud, ghost c: nat, vol: string, context: string, machine: string, polls: nat)
    returns (r: Result<string>)
    requires cloud.Valid() && c in cloud.calls && cloud.calls[c] == PubAttach(vol, context, machine)
    modifies cloud
    ensures cloud.Valid() && old(cloud.events) <= cloud.events
    ensures c in cloud.calls && Reported(cloud.calls[c], vol, r)
    ensures r.Ok? ==> AttachedTo(cloud.Now(), vol, machine) && cloud.calls[c].answer.machine == machine
  {
    hide Inv, RunsTo, Init, InFlight, Cloud.Valid, EqualFold;
    var attached, o := cloud.AttachVolume(c, vol, machine);
    if attached.Missing? { return Err(NotFound); }
    if attached.Failure? { return Err(Unknown); }
    r := WaitUntilAttached(cloud, c, vol, context, machine, polls);
  }

  /** The machine a publish call attaches to, or None once the call has ended with `r`. */
  method AimAttach(cloud: Cloud, ghost c: nat, vol: string, node: string, copy: Volume)
    returns (target: Option<string>, r: Result<string>)
    requires cloud.Valid() && c in cloud.calls && cloud.calls[c] == PubRead(vol, node, copy)
    modifies cloud
    ensures cloud.Valid() && old(cloud.events) <= cloud.events && c in cloud.calls
    ensures target.Some? ==> cloud.calls[c] == PubAttach(vol, copy.name, target.value)
    ensures target.Some? ==> target == Resolve(cloud.machines, node)
    ensures target.None? ==> Reported(cloud.calls[c], vol, r)
    ensures target.None? && r.Ok? ==> Resolve(cloud.machines, node) == Some(cloud.calls[c].answer.machine)
    ensures target.None? && r.Ok? && vol in cloud.volumes ==> AttachedTo(cloud.Now(), vol, cloud.calls[c].answer.machine)
  {
    hide Inv, RunsTo, Init;
    r := Err(Unknown);
    cloud.Knows(c);
    var listed, o := cloud.ListMachines(c);
    if listed.Failure? { return None, Err(Unknown); }
    var found, identity := FindMachine(listed.value, node);
    if !found { return None, Err(NotFound); }
    var hit, last := ScanAttachments(copy.attachments, identity);
    if hit { return None, Ok(copy.name); }
    if last != "" { return None, Err(FailedPrecondition); }
    return Some(identity), r;
  }

  /** The rest of a publish call once it has read the volume. */
  method DecideAndAttach(cloud: Cloud, ghost c: nat, vol: string, node: string, copy: Volume, polls: nat)
    returns (r: Result<string>)
    requires cloud.Valid() && c in cloud.calls && cloud.calls[c] == PubRead(vol, node, copy)
    modifies cloud
    ensures cloud.Valid() && old(cloud.events) <= cloud.events
    ensures c in cloud.calls && Reported(cloud.calls[c], vol, r)
    ensures r.Ok? && vol in cloud.volumes ==> AttachedTo(cloud.Now(), vol, cloud.calls[c].answer.machine)
  {
    hide Inv, RunsTo, Init, Cloud.Valid, AttachedTo, Resolve;
    var aim, early := AimAttach(cloud, c, vol, node, copy);
    if aim.None? { return early; }
    cloud.Others(c);
    r := AttachAndWait(cloud, c, vol, copy.name, aim.value, polls);
  }

  predicate Refused(req: PublishRequest) {
    req.volume == "" || req.node == "" || !req.hasCapability || req.readonly
  }

  /** Every interleaving with other calls is covered: the call is begun for the requested volume
      and node, its answer is what the protocol's call ends with, and success means that the
      machine is the one the requested node stood for when the call listed the machines, and that
      the volume, unless deleted meanwhile, is attached to it and to nothing else. */
  method ControllerPublishVolume(cloud: Cloud, ghost c: nat, req: PublishRequest, polls: nat) returns (r: Result<string>)
    requires cloud.Valid() && c !in cloud.calls && !InFlight(cloud.Now(), req.volume)
    modifies cloud
    ensures cloud.Valid() && old(cloud.events) <= cloud.events
    ensures Refused(req) ==> r == Err(InvalidArgument) && unchanged(cloud)
    ensures !Refused(req) ==>
              |old(cloud.events)| < |cloud.events|
              && cloud.events[|old(cloud.events)|] == BeginPublish(c, req.volume, req.node)
              && c in cloud.calls && Reported(cloud.calls[c], req.volume, r)
    ensures r.Ok? ==>
              c in cloud.calls && Reported(cloud.calls[c], req.volume, r)
              && PublishedFor(cloud.start, cloud.events, c, req.volume, req.node, cloud.calls[c].answer.machine)
              && (req.volume in cloud.volumes ==> AttachedTo(cloud.Now(), req.volume, cloud.calls[c].answer.machine))
  {
    hide Inv, RunsTo, Init, InFlight, Cloud.Valid, EqualFold, AttachedTo, Resolve, PublishedFor;
    if req.volume == "" { return Err(InvalidArgument); }
    if req.node == "" { return Err(InvalidArgument); }
    if !req.hasCapability { return Err(InvalidArgument); }
    if req.readonly { return Err(InvalidArgument); }
    cloud.BeginPublish(c, req.volume, req.node);
    cloud.Others(c);

    var got, o := cloud.GetVolume(c, req.volume);
    if got.Missing? { return Err(NotFound); }
    if got.Failure? { return Err(Unknown); }
    cloud.Others(c);
    r := DecideAndAttach(cloud, c, req.volume, req.node, got.value, polls);
    if r.Ok? { cloud.Served(|old(cloud.events)|, c, req.volume, req.node); }
  }

  datatype UnpublishRequest = UnpublishRequest(volume: string, node: string)

  ghost predicate UnpublishReported(call: Call, vol: string, r: Result<()>) {
    call == Finished(vol, match r case Ok(_) => UnpublishOk case Err(code) => Failed(code))
  }

  method WaitUntilDetached(cloud: Cloud, ghost c: nat, vol: string, ghost machine: string, polls: nat)
    returns (r: Result<()>)
    requires cloud.Valid() && c in cloud.calls && cloud.calls[c] == UnpPoll(vol, machine)
    modifies cloud
    ensures cloud.Valid() && old(cloud.events) <= cloud.events
    ensures c in cloud.calls && UnpublishReported(cloud.calls[c], vol, r)
    ensures vol in cloud.volumes ==> machine !in cloud.volumes[vol].attachments
    ensures r.Ok? && vol in cloud.volumes ==> cloud.volumes[vol].attachments == [] && IsAvailable(cloud.volumes[vol].status)
    ensures TimedOut(cloud.events, c) ==> Reads(cloud.events, c) == Reads(old(cloud.events), c) + polls
  {
    hide RunsTo, Init;
    cloud.Knows(c);
    for n := 0 to polls
      invariant cloud.Valid() && old(cloud.events) <= cloud.events
      invariant Reads(cloud.events, c) == Reads(old(cloud.events), c) + n
      invariant c in cloud.calls && cloud.calls[c] == UnpPoll(vol, machine)
      invariant vol in cloud.volumes ==> machine !in cloud.volumes[vol].attachments
    {
      cloud.Others(c);
      cloud.Knows(c);
      assert vol in cloud.volumes ==> GoodVolume(cloud.volumes[vol]);
      var now, o := cloud.GetVolume(c, vol);
      if now.Missing? { return Ok(()); }
      if now.Failure? { return Err(Unknown); }
      if IsAvailable(now.value.status) { return Ok(()); }
    }
    cloud.GiveUp(c);
    return Err(Unknown);
  }

  /** The read an unpublish call starts with; if not `attached`, the call has ended with `r`. */
  method ReadForDetach(cloud: Cloud, ghost c: nat, vol: string, ghost node: string) returns (attached: bool, r: Result<()>)
    requires cloud.Valid() && c in cloud.calls && cloud.calls[c] == UnpStart(vol, node)
    modifies cloud
    ensures cloud.Valid() && old(cloud.events) <= cloud.events && c in cloud.calls
    ensures attached ==> cloud.calls[c] == UnpMachine(vol, node)
    ensures !attached ==> UnpublishReported(cloud.calls[c], vol, r)
    ensures !attached && r.Ok? && vol in cloud.volumes ==> cloud.volumes[vol].attachments == []
  {
    hide Inv, RunsTo, Init;
    r := Err(Unknown);
    var got, o := cloud.GetVolume(c, vol);
    if got.Missing? { return false, Ok(()); }
    if got.Failure? { return false, Err(Unknown); }
    if |got.value.attachments| == 0 && IsAvailable(got.value.status) { return false, Ok(()); }
    return true, r;
  }

  /** The machine an unpublish call acts on, or None once the call has ended with `r`. */
  method AimDetach(cloud: Cloud, ghost c: nat, vol: string, node: string)
    returns (target: Option<string>, r: Result<()>)
    requires cloud.Valid() && c in cloud.calls && cloud.calls[c] == UnpMachine(vol, node)
    modifies cloud
    ensures cloud.Valid() && old(cloud.events) <= cloud.events && c in cloud.calls
    ensures target.Some? ==> cloud.calls[c] == UnpDetach(vol, target.value)
    ensures target.Some? ==> target == Resolve(cloud.machines, node) || (target == Some(node) && node in cloud.known)
    ensures target.None? ==> UnpublishReported(cloud.calls[c], vol, r)
    ensures target.None? && r.Ok? ==> Resolve(cloud.machines, node) == None
  {
    hide Inv, RunsTo, Init;
    r := Err(Unknown);
    var machine, o := cloud.GetMachine(c, node);
    if machine.Failure? { return None, Err(Unknown); }
    if machine.Value? { return Some(node), r; }
    cloud.Others(c);
    var listed, o1 := cloud.ListMachines(c);
    if listed.Failure? { return None, Err(Unknown); }
    var found, identity := FindMachine(listed.value, node);
    if !found { return None, Ok(()); }
    return Some(identity), r;
  }

  method DetachAndWait(cloud: Cloud, ghost c: nat, vol: string, machine: string, polls: nat) returns (r: Result<()>)
    requires cloud.Valid() && c in cloud.calls && cloud.calls[c] == UnpDetach(vol, machine)
    modifies cloud
    ensures cloud.Valid() && old(cloud.events) <= cloud.events
    ensures c in cloud.calls && UnpublishReported(cloud.calls[c], vol, r)
    ensures r.Ok? && vol in cloud.volumes ==> machine !in cloud.volumes[vol].attachments
  {
    hide Inv, RunsTo, Init, InFlight, Cloud.Valid, EqualFold;
    var detached, o := cloud.DetachVolume(c, vol, machine);
    if detached.Missing? { return Ok(()); }
    if detached.Failure? { return Err(Unknown); }
    r := WaitUntilDetached(cloud, c, vol, machine, polls);
  }

  /** What a successful unpublish may rely on: the volume is gone or unattached, or its target
      is not attached to it, or no machine of the list answers to the node id. */
  ghost predicate Unpublished(s: State, vol: string, node: string, target: Option<string>) {
    vol in s.volumes ==>
      || s.volumes[vol].attachments == []
      || (target.Some? && target.value !in s.volumes[vol].attachments)
      || (target.None? && Resolve(s.machines, node) == None)
  }

  /** The rest of an unpublish call, begun as event i, once it has read the volume. */
  method FindAndDetach(cloud: Cloud, ghost c: nat, vol: string, node: string, ghost i: nat, polls: nat)
    returns (r: Result<()>, ghost target: Option<string>)
    requires cloud.Valid() && c in cloud.calls && cloud.calls[c] == UnpMachine(vol, node)
    requires i < |cloud.events| && cloud.events[i] == BeginUnpublish(c, vol, node)
    modifies cloud
    ensures cloud.Valid() && old(cloud.events) <= cloud.events
    ensures c in cloud.calls && UnpublishReported(cloud.calls[c], vol, r)
    ensures target.Some? ==> AimedFor(cloud.start, cloud.events, c, vol, node, target.value)
    ensures r.Ok? ==> Unpublished(cloud.Now(), vol, node, target)
  {
    hide Inv, RunsTo, Init, Cloud.Valid, Resolve, AimedFor;
    var aim, early := AimDetach(cloud, c, vol, node);
    if aim.None? { return early, None; }
    cloud.AimServed(i, c, vol, node);
    ghost var aimed := cloud.events;
    cloud.Others(c);
    r := DetachAndWait(cloud, c, vol, aim.value, polls);
    target := aim;
    AimedForLater(cloud.start, aimed, cloud.events, c, vol, node, aim.value);
  }

  /** Every interleaving with other calls is covered: the call is begun for the requested volume
      and node, its answer is what the protocol's call ends with, and its target, if it gets as
      far as one, is the machine the requested node leads to. */
  method ControllerUnpublishVolume(cloud: Cloud, ghost c: nat, req: UnpublishRequest, polls: nat)
    returns (r: Result<()>, ghost target: Option<string>)
    requires cloud.Valid() && c !in cloud.calls && !InFlight(cloud.Now(), req.volume)
    modifies cloud
    ensures cloud.Valid() && old(cloud.events) <= cloud.events
    ensures req.volume == "" ==> r == Err(InvalidArgument) && unchanged(cloud)
    ensures req.volume != "" ==>
              |old(cloud.events)| < |cloud.events|
              && cloud.events[|old(cloud.events)|] == BeginUnpublish(c, req.volume, req.node)
              && c in cloud.calls && UnpublishReported(cloud.calls[c], req.volume, r)
    ensures target.Some? ==> AimedFor(cloud.start, cloud.events, c, req.volume, req.node, target.value)
    ensures r.Ok? ==> Unpublished(cloud.Now(), req.volume, req.node, target)
  {
    hide Inv, RunsTo, Init, InFlight, Cloud.Valid, EqualFold, Resolve, AimedFor;
    target := None;
    if req.volume == "" { return Err(InvalidArgument), None; }
    cloud.BeginUnpublish(c, req.volume, req.node);
    cloud.Others(c);

    var attached, ended := ReadForDetach(cloud, c, req.volume, req.node);
    if !attached { return ended, None; }
    cloud.Others(c);

    r, target := FindAndDetach(cloud, c, req.volume, req.node, |old(cloud.events)|, polls);
  }
}
