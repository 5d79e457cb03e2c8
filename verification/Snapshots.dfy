/** CreateSnapshot, DeleteSnapshot and the resolution of source volumes. */
module Snapshots {
  import opened Wrappers
  import opened Iaas
  import opened Capacity

  datatype SourceVolume = SourceVolume(identity: string, name: string)

  datatype Snapshot = Snapshot(identity: string, name: string, sourceVolume: Option<SourceVolume>,
                               sourceVolumeId: Option<string>, sizeGib: Option<int>, available: bool)

  datatype Store = Store(snaps: seq<Snapshot>, vols: seq<Volume>)

  // ----- pure helpers of the driver -----

  function SourceIdentity(snap: Snapshot): string {
    if snap.sourceVolume.Some? then snap.sourceVolume.value.identity
    else if snap.sourceVolumeId.Some? then snap.sourceVolumeId.value
    else ""
  }

  /** An empty `resolved` means that the requested source could not be resolved. */
  predicate SourceMatches(requested: string, resolved: string, snap: Snapshot) {
    var existing := SourceIdentity(snap);
    if existing == "" then false
    else if resolved != "" then resolved == existing
    else requested == existing || (snap.sourceVolume.Some? && requested == snap.sourceVolume.value.name)
  }

  datatype CsiSnapshot = CsiSnapshot(id: string, source: string, sizeBytes: int, ready: bool)

  function ToCsi(snap: Snapshot): CsiSnapshot {
    CsiSnapshot(snap.identity,
                if snap.sourceVolume.Some? then snap.sourceVolume.value.identity else "",
                if snap.sizeGib.Some? then BytesOf(snap.sizeGib.value) else 0,
                snap.available)
  }

  /** The source reported to the caller is the one that retries are compared with, except that a
      source known by its id field only is reported as empty. */
  lemma ReportedSourceIff(snap: Snapshot)
    ensures ToCsi(snap).source == SourceIdentity(snap) <==>
              (snap.sourceVolume.Some? || snap.sourceVolumeId.None? || snap.sourceVolumeId.value == "")
  {
  }

  // ----- resolveVolumeIdentity -----

  function Where(vols: seq<Volume>, p: Volume -> bool): (r: seq<Volume>)
    ensures forall v :: v in r <==> v in vols && p(v)
    ensures |r| <= |vols|
  {
    if vols == [] then []
    else if p(vols[0]) then [vols[0]] + Where(vols[1..], p)
    else Where(vols[1..], p)
  }

  function WithIdentity(vols: seq<Volume>, id: string): seq<Volume> { Where(vols, (v: Volume) => v.identity == id) }

  function WithName(vols: seq<Volume>, name: string): seq<Volume> { Where(vols, (v: Volume) => v.name == name) }

  /** Which volume an id denotes; the two flags say whether the two list calls work. */
  function Resolved(vols: seq<Volume>, id: string, first: bool, second: bool): Result<string> {
    if !first then Err(Internal)
    else
      var found := WithIdentity(vols, id);
      if found == [] && !second then Err(Internal)
      else
        var candidates := if found == [] then WithName(vols, id) else found;
        if candidates == [] then Err(NotFound)
        else if |candidates| > 1 then Err(Internal)
        else Ok(candidates[0].identity)
  }

  method ResolveVolumeIdentity(vols: seq<Volume>, id: string, first: bool, second: bool) returns (r: Result<string>)
    ensures r == Resolved(vols, id, first, second)
  {
    if !first { return Err(Internal); }
    var volumes := WithIdentity(vols, id);
    if |volumes| == 0 {
      if !second { return Err(Internal); }
      volumes := WithName(vols, id);
      if |volumes| == 0 { return Err(NotFound); }
    }
    if |volumes| > 1 { return Err(Internal); }
    return Ok(volumes[0].identity);
  }

  ghost predicate DistinctVolumes(vols: seq<Volume>) {
    forall i, j :: 0 <= i < j < |vols| ==> vols[i].identity != vols[j].identity
  }

  // ----- CreateSnapshot -----

  datatype Request = Request(name: string, source: string)

  /** What the API is free to say of an available snapshot: whether its source volume is given
      as a record, under which name, and its size. */
  datatype Shown = Shown(sourceName: Option<string>, sizeGib: Option<int>)

  /** How the API answers: the list filtered by name, the two volume lists, the creation with
      the new identity and how the source is represented, the wait, and the final read. */
  datatype Env = Env(listed: Reply<seq<Snapshot>>, first: bool, second: bool, create: Outcome,
                     newId: string, sourceName: Option<string>, wait: bool, get: Reply<Shown>)

  predicate SameSnapshot(a: Snapshot, b: Snapshot) {
    a.identity == b.identity && a.name == b.name && SourceIdentity(a) == SourceIdentity(b)
  }

  /** The snapshot as read once the wait has found it available. */
  function Reread(stored: Snapshot, shown: Shown): (now: Snapshot)
    ensures SameSnapshot(now, stored) && now.available && now.sizeGib == shown.sizeGib
    ensures now.sourceVolume.Some? <==> shown.sourceName.Some?
  {
    var source := SourceIdentity(stored);
    Snapshot(stored.identity, stored.name,
             if shown.sourceName.Some? then Some(SourceVolume(source, shown.sourceName.value)) else None,
             if source != "" then Some(source) else None, shown.sizeGib, true)
  }

  /** The name filter loses nothing; it may return more, which the driver checks. */
  ghost predicate Filtered(s: Store, name: string, env: Env) {
    env.listed.Value? ==>
      && (forall x :: x in env.listed.value ==> x in s.snaps)
      && (forall y :: y in s.snaps && y.name == name ==> y in env.listed.value)
  }

  function Made(req: Request, volume: string, env: Env): Snapshot {
    Snapshot(env.newId, req.name,
             if env.sourceName.Some? then Some(SourceVolume(volume, env.sourceName.value)) else None,
             Some(volume), None, false)
  }

  /** What becomes of an existing snapshot of the requested name. */
  function Existing(snap: Snapshot, source: string, resolved: Result<string>): Result<Snapshot> {
    if resolved.Err? && resolved.code != NotFound then Err(resolved.code)
    else if SourceMatches(source, if resolved.Ok? then resolved.value else "", snap) then Ok(snap)
    else Err(AlreadyExists)
  }

  /** Snapshot i is the first one in the list of that name. */
  ghost predicate FirstOfName(snaps: seq<Snapshot>, name: string, i: int) {
    0 <= i < |snaps| && snaps[i].name == name && forall j :: 0 <= j < i ==> snaps[j].name != name
  }

  function SnapshotNamed(snaps: seq<Snapshot>, name: string): (r: Option<Snapshot>)
    ensures r.Some? ==> exists i :: FirstOfName(snaps, name, i) && snaps[i] == r.value
    ensures r.None? <==> forall x :: x in snaps ==> x.name != name
  {
    if snaps == [] then None
    else if snaps[0].name == name then
      assert FirstOfName(snaps, name, 0);
      Some(snaps[0])
    else
      var rest := SnapshotNamed(snaps[1..], name);
      assert forall i :: FirstOfName(snaps[1..], name, i) ==> FirstOfName(snaps, name, i + 1);
      rest
  }

  function AfterGetOrCreate(s: Store, req: Request, env: Env): (Store, Result<Snapshot>) {
    if !env.listed.Value? then (s, Err(Internal))
    else
      var resolved := Resolved(s.vols, req.source, env.first, env.second);
      var found := SnapshotNamed(env.listed.value, req.name);
      if found.Some? then (s, Existing(found.value, req.source, resolved))
      else if resolved.Err? then (s, Err(resolved.code))
      else
        var made := Made(req, resolved.value, env);
        match env.create
        case Good => (s.(snaps := s.snaps + [made]), Ok(made))
        case FailLate => (s.(snaps := s.snaps + [made]), Err(Internal))
        case _ => (s, Err(Internal))
  }

  function ById(snaps: seq<Snapshot>, id: string): (r: Option<Snapshot>)
    ensures r.Some? ==> r.value in snaps && r.value.identity == id
    ensures r.None? ==> forall x :: x in snaps ==> x.identity != id
  {
    if snaps == [] then None
    else if snaps[0].identity == id then Some(snaps[0])
    else ById(snaps[1..], id)
  }

  function AfterCreate(s: Store, req: Request, env: Env): (Store, Result<CsiSnapshot>) {
    if req.name == "" || req.source == "" then (s, Err(InvalidArgument))
    else
      var (s', got) := AfterGetOrCreate(s, req, env);
      if got.Err? then (s', Err(got.code))
      else if !env.wait || env.get.Failure? then (s', Err(Internal))
      else
        var stored := ById(s'.snaps, got.value.identity);
        if env.get.Missing? || stored.None? then (s', Err(NotFound))
        else (s', Ok(ToCsi(Reread(stored.value, env.get.value))))
  }

  // ----- DeleteSnapshot -----

  function Without(snaps: seq<Snapshot>, id: string): (r: seq<Snapshot>)
    ensures forall x :: x in r <==> x in snaps && x.identity != id
  {
    if snaps == [] then []
    else if snaps[0].identity == id then Without(snaps[1..], id)
    else [snaps[0]] + Without(snaps[1..], id)
  }

  function AfterDelete(s: Store, id: string, o: Outcome): (Store, Result<()>) {
    if id == "" then (s, Err(InvalidArgument))
    else match o
      case Good => (s.(snaps := Without(s.snaps, id)), Ok(()))
      case FailLate => (s.(snaps := Without(s.snaps, id)), Err(Internal))
      case NotFoundError => (s, Ok(()))
      case Fail => (s, Err(Internal))
  }

  // ----- the driver's calls -----

  class Region {
    var store: Store

    constructor (store: Store)
      ensures this.store == store
    {
      this.store := store;
    }

    method GetOrCreateSnapshot(req: Request, env: Env) returns (r: Result<Snapshot>)
      modifies this
      ensures (store, r) == AfterGetOrCreate(old(store), req, env)
    {
      if !env.listed.Value? { return Err(Internal); }
      var snapshots := env.listed.value;
      for i := 0 to |snapshots|
        invariant store == old(store)
        invariant SnapshotNamed(snapshots, req.name) == SnapshotNamed(snapshots[i..], req.name)
      {
        if snapshots[i].name != req.name { continue; }
        var resolved := ResolveVolumeIdentity(store.vols, req.source, env.first, env.second);
        if resolved.Err? {
          if resolved.code == NotFound {
            if SourceMatches(req.source, "", snapshots[i]) { return Ok(snapshots[i]); }
            return Err(AlreadyExists);
          }
          return Err(resolved.code);
        }
        if !SourceMatches(req.source, resolved.value, snapshots[i]) { return Err(AlreadyExists); }
        return Ok(snapshots[i]);
      }

      var volume := ResolveVolumeIdentity(store.vols, req.source, env.first, env.second);
      if volume.Err? { return Err(volume.code); }
      var made := Made(req, volume.value, env);
      if env.create == Good || env.create == FailLate {
        store := store.(snaps := store.snaps + [made]);
      }
      if env.create != Good { return Err(Internal); }
      return Ok(made);
    }

    method CreateSnapshot(req: Request, env: Env) returns (r: Result<CsiSnapshot>)
      modifies this
      ensures (store, r) == AfterCreate(old(store), req, env)
    {
      if req.name == "" { return Err(InvalidArgument); }
      if req.source == "" { return Err(InvalidArgument); }
      var snapshot := GetOrCreateSnapshot(req, env);
      if snapshot.Err? { return Err(snapshot.code); }
      if !env.wait { return Err(Internal); }
      var stored := ById(store.snaps, snapshot.value.identity);
      if env.get.Missing? || (env.get.Value? && stored.None?) { return Err(NotFound); }
      if env.get.Failure? { return Err(Internal); }
      return Ok(ToCsi(Reread(stored.value, env.get.value)));
    }

    method DeleteSnapshot(id: string, o: Outcome) returns (r: Result<()>)
      modifies this
      ensures (store, r) == AfterDelete(old(store), id, o)
    {
      if id == "" { return Err(InvalidArgument); }
      if o == Good || o == FailLate { store := store.(snaps := Without(store.snaps, id)); }
      if o == Good || o == NotFoundError { return Ok(()); }
      return Err(Internal);
    }
  }
}
