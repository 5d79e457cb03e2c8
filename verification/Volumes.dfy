/** CreateVolume, ControllerExpandVolume and DeleteVolume on the region's volumes. */
module Volumes {
  import opened Wrappers
  import opened Iaas
  import opened Capacity

  /** The region's volumes, and every identity the API ever gave out. */
  datatype Store = Store(vols: seq<Volume>, used: set<string>)

  // ----- what the API does -----

  predicate FirstWhere(vols: seq<Volume>, p: Volume -> bool, i: int) {
    0 <= i < |vols| && p(vols[i]) && forall j :: 0 <= j < i ==> !p(vols[j])
  }

  function FirstIndex(vols: seq<Volume>, p: Volume -> bool): (r: Option<nat>)
    ensures r.None? <==> forall i :: 0 <= i < |vols| ==> !p(vols[i])
    ensures r.Some? ==> FirstWhere(vols, p, r.value)
  {
    if vols == [] then None
    else if p(vols[0]) then Some(0)
    else
      var rest := FirstIndex(vols[1..], p);
      assert forall i :: 0 < i < |vols| ==> vols[1..][i - 1] == vols[i];
      if rest.None? then None else Some(rest.value + 1)
  }

  /** Which volume a key denotes: the one with that identity, else the first of that name. */
  function Find(vols: seq<Volume>, key: string): (r: Option<nat>)
    ensures r.Some? ==>
              && r.value < |vols|
              && (vols[r.value].identity == key
                  || (vols[r.value].name == key && forall i :: 0 <= i < |vols| ==> vols[i].identity != key))
              && forall j :: 0 <= j < r.value ==> if vols[r.value].identity == key then vols[j].identity != key else vols[j].name != key
    ensures r.None? <==> forall i :: 0 <= i < |vols| ==> vols[i].identity != key && vols[i].name != key
  {
    var byIdentity := FirstIndex(vols, (v: Volume) => v.identity == key);
    if byIdentity.Some? then byIdentity else FirstIndex(vols, (v: Volume) => v.name == key)
  }

  // ----- CreateVolume -----

  datatype CreateRequest = CreateRequest(
    name: string, capabilitiesOk: bool, range: Option<CapacityRange>, accessible: bool,
    identityParameter: string, restore: Option<string>)

  /** How the API answers: `volumeType` is what resolving the type gives, `newId` the identity
      of a created volume. */
  datatype CreateEnv = CreateEnv(get: Outcome, volumeType: Result<()>, snapshot: Reply<()>,
                                 create: Outcome, newId: string)

  datatype Created = Created(volumeId: string, capacity: int)

  /** The key by which CreateVolume looks for an existing volume. */
  function KeyOf(req: CreateRequest): string {
    if req.identityParameter == "" then req.name else req.identityParameter
  }

  function FromExisting(volume: Volume, size: int): Result<Created> {
    if BytesOf(volume.size) != size then Err(AlreadyExists)
    else Ok(Created(volume.identity, BytesOf(volume.size)))
  }

  function RestoreCheck(req: CreateRequest, env: CreateEnv): Result<()> {
    match req.restore
    case None => Ok(())
    case Some(id) =>
      if id == "" then Err(InvalidArgument)
      else match env.snapshot
        case Value(_) => Ok(())
        case Missing => Err(NotFound)
        case Failure => Err(Internal)
  }

  function AddVolume(s: Store, req: CreateRequest, size: int, newId: string): Store {
    Store(s.vols + [Volume(newId, req.name, size / GIB, [], "available")], s.used + {newId})
  }

  function AfterCreate(s: Store, req: CreateRequest, env: CreateEnv): (Store, Result<Created>) {
    if req.name == "" || !req.capabilitiesOk then (s, Err(InvalidArgument))
    else if SizeOf(req.range).Err? then (s, Err(OutOfRange))
    else if !req.accessible then (s, Err(ResourceExhausted))
    else if env.get != Good then (s, Err(Internal))
    else
      var size, found := SizeOf(req.range).value, Find(s.vols, KeyOf(req));
      if found.Some? then (s, FromExisting(s.vols[found.value], size))
      else if env.volumeType.Err? then (s, Err(env.volumeType.code))
      else if RestoreCheck(req, env).Err? then (s, Err(RestoreCheck(req, env).code))
      else match env.create
        case Good => (AddVolume(s, req, size, env.newId), Ok(Created(env.newId, size)))
        case FailLate => (AddVolume(s, req, size, env.newId), Err(Internal))
        case NotFoundError => (s, Err(if req.restore.Some? then NotFound else Internal))
        case Fail => (s, Err(Internal))
  }

  // ----- ControllerExpandVolume -----

  /** unicode.IsSpace. */
  predicate IsSpace(c: char) {
    '\t' <= c <= '\r' || c == ' ' || c == '\U{85}' || c == '\U{A0}' || c == '\U{1680}'
    || '\U{2000}' <= c <= '\U{200A}' || c == '\U{2028}' || c == '\U{2029}' || c == '\U{202F}'
    || c == '\U{205F}' || c == '\U{3000}'
  }

  /** strings.TrimSpace leaves nothing. */
  predicate Blank(s: string) { forall i :: 0 <= i < |s| ==> IsSpace(s[i]) }

  datatype ExpandRequest = ExpandRequest(volumeId: string, range: Option<CapacityRange>, block: bool)
  datatype ExpandEnv = ExpandEnv(get: Outcome, update: Outcome)
  datatype Expanded = Expanded(capacity: int, nodeExpansion: bool)

  predicate LargeEnough(volume: Volume, gib: int) { volume.size >= gib }

  function Resize(s: Store, i: nat, gib: int): Store
    requires i < |s.vols|
  {
    s.(vols := s.vols[i := s.vols[i].(size := gib)])
  }

  function AfterExpand(s: Store, req: ExpandRequest, env: ExpandEnv): (Store, Result<Expanded>) {
    if Blank(req.volumeId) then (s, Err(InvalidArgument))
    else if SizeOf(req.range).Err? then (s, Err(OutOfRange))
    else
      var gib, found := SizeOf(req.range).value / GIB, Find(s.vols, req.volumeId);
      if env.get != Good || found.None? then (s, Err(Internal))
      else if LargeEnough(s.vols[found.value], gib) then
        (s, Ok(Expanded(BytesOf(s.vols[found.value].size), true)))
      else match env.update
        case Good => (Resize(s, found.value, gib), Ok(Expanded(BytesOf(gib), !req.block)))
        case FailLate => (Resize(s, found.value, gib), Err(Internal))
        case _ => (s, Err(Internal))
  }

  // ----- DeleteVolume -----

  function AfterDelete(s: Store, volumeId: string, o: Outcome): (Store, Result<()>) {
    if volumeId == "" then (s, Err(InvalidArgument))
    else
      var found := Find(s.vols, volumeId);
      var gone := if found.None? then s else s.(vols := s.vols[..found.value] + s.vols[found.value + 1..]);
      match o
      case Good => (gone, Ok(()))
      case FailLate => (gone, Err(Unknown))
      case NotFoundError => (s, Ok(()))
      case Fail => (s, Err(Unknown))
  }

  // ----- the driver's calls -----

  class Region {
    var store: Store

    constructor (store: Store)
      ensures this.store == store
    {
      this.store := store;
    }

    method CreateVolume(req: CreateRequest, env: CreateEnv) returns (r: Result<Created>)
      modifies this
      ensures (store, r) == AfterCreate(old(store), req, env)
    {
      if req.name == "" { return Err(InvalidArgument); }
      if !req.capabilitiesOk { return Err(InvalidArgument); }
      var size := SizeOf(req.range);
      if size.Err? { return Err(OutOfRange); }
      if !req.accessible { return Err(ResourceExhausted); }

      var volumeIdentity := req.identityParameter;
      if volumeIdentity == "" { volumeIdentity := req.name; }
      if env.get != Good { return Err(Internal); }
      var volume := Find(store.vols, volumeIdentity);
      if volume.Some? {
        r := FromExisting(store.vols[volume.value], size.value);
        return;
      }

      if env.volumeType.Err? { return Err(env.volumeType.code); }
      var restore := RestoreCheck(req, env);
      if restore.Err? { return Err(restore.code); }

      if env.create == Good || env.create == FailLate {
        store := AddVolume(store, req, size.value, env.newId);
      }
      if env.create != Good {
        if req.restore.Some? && env.create == NotFoundError { return Err(NotFound); }
        return Err(Internal);
      }
      return Ok(Created(env.newId, size.value));
    }

    method ControllerExpandVolume(req: ExpandRequest, env: ExpandEnv) returns (r: Result<Expanded>)
      modifies this
      ensures (store, r) == AfterExpand(old(store), req, env)
    {
      if Blank(req.volumeId) { return Err(InvalidArgument); }
      var resizeBytes := SizeOf(req.range);
      if resizeBytes.Err? { return Err(OutOfRange); }
      var gib := resizeBytes.value / GIB;

      var found := Find(store.vols, req.volumeId);
      if env.get != Good || found.None? { return Err(Internal); }
      var volume := store.vols[found.value];
      if LargeEnough(volume, gib) { return Ok(Expanded(BytesOf(volume.size), true)); }

      if env.update == Good || env.update == FailLate {
        store := Resize(store, found.value, gib);
      }
      if env.update != Good { return Err(Internal); }
      var nodeExpansionRequired := true;
      if req.block { nodeExpansionRequired := false; }
      return Ok(Expanded(BytesOf(gib), nodeExpansionRequired));
    }

    method DeleteVolume(volumeId: string, o: Outcome) returns (r: Result<()>)
      modifies this
      ensures (store, r) == AfterDelete(old(store), volumeId, o)
    {
      if volumeId == "" { return Err(InvalidArgument); }
      var found := Find(store.vols, volumeId);
      if (o == Good || o == FailLate) && found.Some? {
        store := store.(vols := store.vols[..found.value] + store.vols[found.value + 1..]);
      }
      if o == Good || o == NotFoundError { return Ok(()); }
      return Err(Unknown);
    }
  }
}
