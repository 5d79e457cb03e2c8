/** NodeStageVolume, NodeUnstageVolume, NodePublishVolume and NodeUnpublishVolume. */
module Node {
  import opened Wrappers
  import opened Devices
  import opened Mounter

  datatype Capability = NoCapability | Block | Filesystem(fsType: string, flags: seq<string>) | NoAccessType

  datatype StageRequest = StageRequest(volumeId: string, path: string, capability: Capability, noFormat: bool)

  /** Whether the file system on the staged device could be examined and grown. */
  datatype Growth = Grown | GrowFailed

  datatype PublishRequest = PublishRequest(volumeId: string, staging: string, target: string,
                                           readonly: bool, capability: Capability)

  function FsType(c: Capability): string
    requires c.Filesystem?
  {
    if c.fsType != "" then c.fsType else "ext4"
  }

  // ----- what the calls do -----

  /** The part of staging before the mount: check the attachment and format if need be. */
  function AfterPrepare(validate: bool, f: Faults, m: Mounts, source: string, fsType: string, noFormat: bool): (Mounts, Result<()>) {
    if noFormat then (m, Ok(()))
    else if validate && source !in f.attached then (m, Err(Internal))
    else if source in f.formatProbeErrors then (m, Err(Unknown))
    else if source in m.formatted then (m, Ok(()))
    else if source in f.formatErrors then (m, Err(Internal))
    else (m.(formatted := m.formatted[source := fsType], done := m.done + [Formatted(source, fsType)]), Ok(()))
  }

  /** Mounting unless the target is mounted already; what is mounted there is not looked at. */
  function AfterEnsureMounted(f: Faults, m: Mounts, source: string, target: string, fsType: string, options: seq<string>): (Mounts, Result<()>) {
    if target in f.mountProbeErrors then (m, Err(Unknown))
    else if target in m.points then (m, Ok(()))
    else if target in f.mountErrors then (m, Err(Internal))
    else (m.(points := m.points[target := source], done := m.done + [Mounted(source, target, fsType, options)]), Ok(()))
  }

  function AfterStage(validate: bool, f: Faults, m: Mounts, req: StageRequest, growth: Growth): (Mounts, Result<()>) {
    if req.volumeId == "" || req.path == "" || req.capability.NoCapability? then (m, Err(InvalidArgument))
    else if req.capability.Block? then (m, Ok(()))
    else if req.capability.NoAccessType? then (m, Err(InvalidArgument))
    else
      var source, fsType := DevicePath(req.volumeId), FsType(req.capability);
      var (m1, prepared) := AfterPrepare(validate, f, m, source, fsType, req.noFormat);
      if prepared.Err? then (m1, prepared)
      else
        var (m2, mounted) := AfterEnsureMounted(f, m1, source, req.path, fsType, req.capability.flags);
        if mounted.Err? then (m2, mounted)
        else (m2, if growth.Grown? then Ok(()) else Err(Internal))
  }

  function AfterUnmount(f: Faults, m: Mounts, target: string, code: Code): (Mounts, Result<()>) {
    if target in f.unmountErrors then (m, Err(code))
    else (m.(points := m.points - {target}, done := m.done + [Unmounted(target)]), Ok(()))
  }

  function AfterUnstage(f: Faults, m: Mounts, volumeId: string, path: string): (Mounts, Result<()>) {
    if volumeId == "" || path == "" then (m, Err(InvalidArgument))
    else if path in f.mountProbeErrors then (m, Err(Internal))
    else if path in m.points then AfterUnmount(f, m, path, Internal)
    else (m, Ok(()))
  }

  function BindOptions(readonly: bool): seq<string> {
    if readonly then ["bind", "ro"] else ["bind"]
  }

  predicate HasPrefix(s: string, prefix: string) { |prefix| <= |s| && s[..|prefix|] == prefix }

  /** `device` is what following the by-id link gives, if it can be followed. */
  function AfterPublish(f: Faults, m: Mounts, req: PublishRequest, device: Option<string>): (Mounts, Result<()>) {
    if req.volumeId == "" || req.staging == "" || req.target == "" || req.capability.NoCapability? then (m, Err(InvalidArgument))
    else match req.capability
      case Block =>
        if device.None? || !HasPrefix(device.value, "/dev") then (m, Err(Internal))
        else AfterEnsureMounted(f, m, device.value, req.target, "", BindOptions(req.readonly))
      case Filesystem(_, flags) =>
        AfterEnsureMounted(f, m, req.staging, req.target, FsType(req.capability), BindOptions(req.readonly) + flags)
      case _ => (m, Err(InvalidArgument))
  }

  function AfterUnpublish(f: Faults, m: Mounts, volumeId: string, target: string): (Mounts, Result<()>) {
    if volumeId == "" || target == "" then (m, Err(InvalidArgument))
    else AfterUnmount(f, m, target, Unknown)
  }

  // ----- the driver's calls -----

  class Driver {
    const mounter: MockMounter
    const validateAttachment: bool

    constructor (mounter: MockMounter, validateAttachment: bool)
      ensures this.mounter == mounter && this.validateAttachment == validateAttachment
    {
      this.mounter, this.validateAttachment := mounter, validateAttachment;
    }

    method NodeStageVolume(req: StageRequest, growth: Growth) returns (r: Result<()>)
      modifies mounter
      ensures mounter.faults == old(mounter.faults)
      ensures (mounter.Now(), r) == AfterStage(validateAttachment, mounter.faults, old(mounter.Now()), req, growth)
    {
      if req.volumeId == "" { return Err(InvalidArgument); }
      if req.path == "" { return Err(InvalidArgument); }
      if req.capability.NoCapability? { return Err(InvalidArgument); }
      if req.capability.Block? { return Ok(()); }
      if !req.capability.Filesystem? { return Err(InvalidArgument); }
      var source := DevicePath(req.volumeId);
      var fsType := "ext4";
      if req.capability.fsType != "" { fsType := req.capability.fsType; }

      if !req.noFormat {
        if validateAttachment {
          var attached := mounter.IsAttached(source);
          if !attached { return Err(Internal); }
        }
        var formatted := mounter.IsFormatted(source);
        if formatted.Err? { return Err(formatted.code); }
        if !formatted.value {
          var ok := mounter.Format(source, fsType);
          if !ok { return Err(Internal); }
        }
      }

      var mounted := mounter.IsMounted(req.path);
      if mounted.Err? { return Err(mounted.code); }
      if !mounted.value {
        var ok := mounter.Mount(source, req.path, fsType, req.capability.flags);
        if !ok { return Err(Internal); }
      }
      if growth.GrowFailed? { return Err(Internal); }
      return Ok(());
    }

    method NodeUnstageVolume(volumeId: string, path: string) returns (r: Result<()>)
      modifies mounter
      ensures mounter.faults == old(mounter.faults)
      ensures (mounter.Now(), r) == AfterUnstage(mounter.faults, old(mounter.Now()), volumeId, path)
    {
      if volumeId == "" { return Err(InvalidArgument); }
      if path == "" { return Err(InvalidArgument); }
      var mounted := mounter.IsMounted(path);
      if mounted.Err? { return Err(Internal); }
      if mounted.value {
        var ok := mounter.Unmount(path);
        if !ok { return Err(Internal); }
      }
      return Ok(());
    }

    method PublishFilesystem(req: PublishRequest, options: seq<string>) returns (r: Result<()>)
      requires req.capability.Filesystem?
      modifies mounter
      ensures mounter.faults == old(mounter.faults)
      ensures (mounter.Now(), r) == AfterEnsureMounted(mounter.faults, old(mounter.Now()), req.staging, req.target,
                                                       FsType(req.capability), options + req.capability.flags)
    {
      var mountOptions := options + req.capability.flags;
      var fsType := "ext4";
      if req.capability.fsType != "" { fsType := req.capability.fsType; }
      var mounted := mounter.IsMounted(req.target);
      if mounted.Err? { return Err(mounted.code); }
      if !mounted.value {
        var ok := mounter.Mount(req.staging, req.target, fsType, mountOptions);
        if !ok { return Err(Internal); }
      }
      return Ok(());
    }

    method PublishBlock(req: PublishRequest, options: seq<string>, device: Option<string>) returns (r: Result<()>)
      modifies mounter
      ensures mounter.faults == old(mounter.faults)
      ensures (mounter.Now(), r) ==
                if device.None? || !HasPrefix(device.value, "/dev") then (old(mounter.Now()), Err(Internal))
                else AfterEnsureMounted(mounter.faults, old(mounter.Now()), device.value, req.target, "", options)
    {
      if device.None? { return Err(Internal); }
      if !HasPrefix(device.value, "/dev") { return Err(Internal); }
      var mounted := mounter.IsMounted(req.target);
      if mounted.Err? { return Err(mounted.code); }
      if !mounted.value {
        var ok := mounter.Mount(device.value, req.target, "", options);
        if !ok { return Err(Internal); }
      }
      return Ok(());
    }

    method NodePublishVolume(req: PublishRequest, device: Option<string>) returns (r: Result<()>)
      modifies mounter
      ensures mounter.faults == old(mounter.faults)
      ensures (mounter.Now(), r) == AfterPublish(mounter.faults, old(mounter.Now()), req, device)
    {
      if req.volumeId == "" { return Err(InvalidArgument); }
      if req.staging == "" { return Err(InvalidArgument); }
      if req.target == "" { return Err(InvalidArgument); }
      if req.capability.NoCapability? { return Err(InvalidArgument); }
      var options := ["bind"];
      if req.readonly { options := options + ["ro"]; }
      assert options == BindOptions(req.readonly);
      match req.capability
      case Block => r := PublishBlock(req, options, device);
      case Filesystem(_, _) => r := PublishFilesystem(req, options);
      case _ => r := Err(InvalidArgument);
    }

    method NodeUnpublishVolume(volumeId: string, target: string) returns (r: Result<()>)
      modifies mounter
      ensures mounter.faults == old(mounter.faults)
      ensures (mounter.Now(), r) == AfterUnpublish(mounter.faults, old(mounter.Now()), volumeId, target)
    {
      if volumeId == "" { return Err(InvalidArgument); }
      if target == "" { return Err(InvalidArgument); }
      var ok := mounter.Unmount(target);
      if !ok { return Err(Unknown); }
      return Ok(());
    }
  }
}
