/** The in-memory mounter: what is mounted where, which devices are formatted, injected errors. */
module Mounter {
  import opened Wrappers

  /** What a mounter was made to do, in order. */
  datatype Effect =
    | Formatted(device: string, fsType: string)
    | Mounted(source: string, target: string, fsType: string, options: seq<string>)
    | Unmounted(target: string)

  datatype Mounts = Mounts(points: map<string, string>, formatted: map<string, string>, done: seq<Effect>)

  /** The devices attached, and the devices and paths whose operations fail. The two probe sets
      stand for errors of IsFormatted and IsMounted, which the real mounter can return. */
  datatype Faults = Faults(attached: set<string>, mountErrors: set<string>, unmountErrors: set<string>,
                           formatErrors: set<string>, formatProbeErrors: set<string>, mountProbeErrors: set<string>)

  class MockMounter {
    var mountPoints: map<string, string>
    var formattedDevices: map<string, string>
    var faults: Faults
    ghost var done: seq<Effect>

    ghost function Now(): Mounts
      reads this
    {
      Mounts(mountPoints, formattedDevices, done)
    }

    constructor (faults: Faults)
      ensures Now() == Mounts(map[], map[], []) && this.faults == faults
    {
      this.mountPoints, this.formattedDevices, this.faults, this.done := map[], map[], faults, [];
    }

    method Format(device: string, fsType: string) returns (ok: bool)
      modifies `formattedDevices, `done
      ensures ok <==> device !in faults.formatErrors
      ensures Now() == if ok then Mounts(mountPoints, old(formattedDevices)[device := fsType], old(done) + [Formatted(device, fsType)])
                       else old(Now())
    {
      if device in faults.formatErrors { return false; }
      formattedDevices := formattedDevices[device := fsType];
      done := done + [Formatted(device, fsType)];
      return true;
    }

    method IsAttached(source: string) returns (ok: bool)
      ensures ok <==> source in faults.attached
    {
      return source in faults.attached;
    }

    method IsFormatted(device: string) returns (r: Result<bool>)
      ensures r == if device in faults.formatProbeErrors then Err(Unknown) else Ok(device in formattedDevices)
    {
      if device in faults.formatProbeErrors { return Err(Unknown); }
      return Ok(device in formattedDevices);
    }

    method Mount(source: string, target: string, fsType: string, options: seq<string>) returns (ok: bool)
      modifies `mountPoints, `done
      ensures ok <==> target !in faults.mountErrors
      ensures Now() == if ok then Mounts(old(mountPoints)[target := source], formattedDevices,
                                         old(done) + [Mounted(source, target, fsType, options)])
                       else old(Now())
    {
      if target in faults.mountErrors { return false; }
      mountPoints := mountPoints[target := source];
      done := done + [Mounted(source, target, fsType, options)];
      return true;
    }

    method Unmount(target: string) returns (ok: bool)
      modifies `mountPoints, `done
      ensures ok <==> target !in faults.unmountErrors
      ensures Now() == if ok then Mounts(old(mountPoints) - {target}, formattedDevices, old(done) + [Unmounted(target)])
                       else old(Now())
    {
      if target in faults.unmountErrors { return false; }
      mountPoints := mountPoints - {target};
      done := done + [Unmounted(target)];
      return true;
    }

    method IsMounted(target: string) returns (r: Result<bool>)
      ensures r == if target in faults.mountProbeErrors then Err(Unknown) else Ok(target in mountPoints)
    {
      if target in faults.mountProbeErrors { return Err(Unknown); }
      return Ok(target in mountPoints);
    }
  }
}
