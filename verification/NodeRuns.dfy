/** What holds over sequential runs of node calls, with any injected failures. */
module NodeRuns {
  import opened Wrappers
  import opened Devices
  import opened Mounter
  import opened Node

  datatype Op =
    | Stage(sreq: StageRequest, growth: Growth)
    | Unstage(volumeId: string, path: string)
    | Publish(preq: PublishRequest, device: Option<string>)
    | Unpublish(volumeId: string, target: string)

  /** One call, with the failures in force while it runs. */
  datatype Step = Step(faults: Faults, validate: bool, op: Op)

  function Exec(m: Mounts, s: Step): (Mounts, Result<()>) {
    match s.op
    case Stage(req, growth) => AfterStage(s.validate, s.faults, m, req, growth)
    case Unstage(v, path) => AfterUnstage(s.faults, m, v, path)
    case Publish(req, device) => AfterPublish(s.faults, m, req, device)
    case Unpublish(v, target) => AfterUnpublish(s.faults, m, v, target)
  }

  function Run(m: Mounts, steps: seq<Step>): Mounts
    decreases |steps|
  {
    if steps == [] then m else Run(Exec(m, steps[0]).0, steps[1..])
  }

  // ----- format once -----

  /** Since `start`, where nothing had been done yet: no device was formatted twice or although
      it was formatted before, and what was formatted is still recorded as it was. */
  ghost predicate FormattedOnce(start: Mounts, m: Mounts) {
    && (forall d :: d in start.formatted ==> d in m.formatted && m.formatted[d] == start.formatted[d])
    && (forall i :: 0 <= i < |m.done| && m.done[i].Formatted? ==>
          m.done[i].device !in start.formatted
          && m.done[i].device in m.formatted && m.formatted[m.done[i].device] == m.done[i].fsType)
    && (forall i, j :: 0 <= i < j < |m.done| && m.done[i].Formatted? && m.done[j].Formatted? ==>
          m.done[i].device != m.done[j].device)
  }

  lemma NoFormatNeverFormats(m: Mounts, s: Step)
    requires s.op.Stage? && s.op.sreq.noFormat
    ensures Exec(m, s).0.formatted == m.formatted
    ensures forall i :: |m.done| <= i < |Exec(m, s).0.done| ==> !Exec(m, s).0.done[i].Formatted?
  {
    hide DevicePath;
  }

  lemma PrepareKeepsOnce(start: Mounts, v: bool, f: Faults, m: Mounts, source: string, fsType: string, noFormat: bool)
    requires FormattedOnce(start, m)
    ensures FormattedOnce(start, AfterPrepare(v, f, m, source, fsType, noFormat).0)
  {
  }

  lemma MountKeepsOnce(start: Mounts, f: Faults, m: Mounts, source: string, target: string, fsType: string, o: seq<string>)
    requires FormattedOnce(start, m)
    ensures FormattedOnce(start, AfterEnsureMounted(f, m, source, target, fsType, o).0)
  {
  }

  lemma UnmountKeepsOnce(start: Mounts, f: Faults, m: Mounts, target: string, code: Code)
    requires FormattedOnce(start, m)
    ensures FormattedOnce(start, AfterUnmount(f, m, target, code).0)
  {
  }

  lemma StepKeepsOnce(start: Mounts, m: Mounts, s: Step)
    requires FormattedOnce(start, m)
    ensures FormattedOnce(start, Exec(m, s).0)
  {
    hide DevicePath, FormattedOnce, AfterPrepare, AfterEnsureMounted, AfterUnmount;
    match s.op
    case Stage(req, _) =>
      if req.capability.Filesystem? {
        var source, fs := DevicePath(req.volumeId), FsType(req.capability);
        PrepareKeepsOnce(start, s.validate, s.faults, m, source, fs, req.noFormat);
        var m1 := AfterPrepare(s.validate, s.faults, m, source, fs, req.noFormat).0;
        MountKeepsOnce(start, s.faults, m1, source, req.path, fs, req.capability.flags);
      }
    case Publish(req, device) =>
      if req.capability.Filesystem? {
        MountKeepsOnce(start, s.faults, m, req.staging, req.target, FsType(req.capability),
                       BindOptions(req.readonly) + req.capability.flags);
      } else if device.Some? {
        MountKeepsOnce(start, s.faults, m, device.value, req.target, "", BindOptions(req.readonly));
      }
    case Unstage(_, path) => UnmountKeepsOnce(start, s.faults, m, path, Internal);
    case Unpublish(_, target) => UnmountKeepsOnce(start, s.faults, m, target, Unknown);
  }

  /** Format once: over every run with any failures a device is formatted at most once, never
      when it was formatted before the run, and its recorded file system never changes. */
  lemma {:induction false} FormatOnce(start: Mounts, m: Mounts, steps: seq<Step>)
    requires FormattedOnce(start, m)
    ensures FormattedOnce(start, Run(m, steps))
    decreases |steps|
  {
    if steps == [] {
    } else {
      StepKeepsOnce(start, m, steps[0]);
      FormatOnce(start, Exec(m, steps[0]).0, steps[1..]);
    }
  }

  // ----- where mounts come from -----

  datatype Origin = Staged(noFormat: bool) | Published

  /** The call that made a mount is remembered until the path is unmounted. */
  function Origins(m: Mounts, from: map<string, Origin>, s: Step): map<string, Origin> {
    var points := Exec(m, s).0.points;
    map p | p in points ::
      if p in m.points && p in from then from[p]
      else if s.op.Stage? then Staged(s.op.sreq.noFormat) else Published
  }

  function RunOrigins(m: Mounts, from: map<string, Origin>, steps: seq<Step>): map<string, Origin>
    decreases |steps|
  {
    if steps == [] then from else RunOrigins(Exec(m, steps[0]).0, Origins(m, from, steps[0]), steps[1..])
  }

  /** Every staged mount comes from a formatted device or was staged with formatting off. */
  ghost predicate MountsFormatted(m: Mounts, from: map<string, Origin>) {
    from.Keys == m.points.Keys &&
    forall p :: p in from && from[p] == Staged(false) ==> m.points[p] in m.formatted
  }

  lemma StepKeepsFormatted(m: Mounts, from: map<string, Origin>, s: Step)
    requires MountsFormatted(m, from)
    ensures MountsFormatted(Exec(m, s).0, Origins(m, from, s))
  {
    hide DevicePath;
  }

  lemma {:induction false} StagedFromFormatted(m: Mounts, from: map<string, Origin>, steps: seq<Step>)
    requires MountsFormatted(m, from)
    ensures MountsFormatted(Run(m, steps), RunOrigins(m, from, steps))
    decreases |steps|
  {
    if steps == [] {
    } else {
      StepKeepsFormatted(m, from, steps[0]);
      StagedFromFormatted(Exec(m, steps[0]).0, Origins(m, from, steps[0]), steps[1..]);
    }
  }

  // ----- stage and unstage -----

  /** The file system a request asks for: the one it names, or ext4. */
  function Requested(c: Capability): (fs: string)
    requires c.Filesystem?
  {
    if c.fsType == "" then "ext4" else c.fsType
  }

  /** What a successful stage makes the mounter do, in order, from an unmounted staging path: format
      the own device if that is neither formatted nor declined, and mount it with the requested
      file system and exactly the requested flags. */
  lemma StageDoes(v: bool, f: Faults, m: Mounts, req: StageRequest, growth: Growth)
    requires req.path !in m.points && req.capability.Filesystem? && AfterStage(v, f, m, req, growth).1.Ok?
    ensures var device, fs := DevicePath(req.volumeId), Requested(req.capability);
            AfterStage(v, f, m, req, growth).0.done ==
              m.done + (if req.noFormat || device in m.formatted then [] else [Formatted(device, fs)])
                     + [Mounted(device, req.path, fs, req.capability.flags)]
  {
    hide DevicePath;
  }

  /** Which requests a node call refuses as invalid, and that it does nothing then; and staging a
      block volume does nothing at all. */
  lemma NodeRefuses(m: Mounts, s: Step)
    ensures var (m', r) := Exec(m, s);
            var invalid := match s.op
              case Stage(req, _) => req.volumeId == "" || req.path == "" || req.capability.NoCapability? || req.capability.NoAccessType?
              case Unstage(v, path) => v == "" || path == ""
              case Publish(req, _) => req.volumeId == "" || req.staging == "" || req.target == ""
                                      || req.capability.NoCapability? || req.capability.NoAccessType?
              case Unpublish(v, target) => v == "" || target == "";
            && (r == Err(InvalidArgument) <==> invalid)
            && (invalid ==> m' == m)
            && (!invalid && s.op.Stage? && s.op.sreq.capability.Block? ==> m' == m && r == Ok(()))
  {
    hide DevicePath;
  }

  /** Unstaging leaves the path unmounted, or fails and leaves the mounts as they were; it fails if
      and only if the probe fails or the unmount of a mounted path does. */
  lemma UnstageExact(f: Faults, m: Mounts, volumeId: string, path: string)
    requires volumeId != "" && path != ""
    ensures var (m', r) := AfterUnstage(f, m, volumeId, path);
            && (r.Ok? <==> path !in f.mountProbeErrors && (path in m.points ==> path !in f.unmountErrors))
            && (r.Ok? ==> m'.points == m.points - {path} && m'.formatted == m.formatted
                          && m'.done == m.done + if path in m.points then [Unmounted(path)] else [])
            && (r.Err? ==> m' == m && r == Err(Internal))
  {
    assert path !in m.points ==> m.points - {path} == m.points;
  }

  /** Unpublishing leaves the target unmounted, or fails and leaves the mounts as they were; it fails
      if and only if the unmount does, which is also tried on an unmounted target. */
  lemma UnpublishExact(f: Faults, m: Mounts, volumeId: string, target: string)
    requires volumeId != "" && target != ""
    ensures var (m', r) := AfterUnpublish(f, m, volumeId, target);
            && (r.Ok? <==> target !in f.unmountErrors)
            && (r.Ok? ==> m'.points == m.points - {target} && m'.formatted == m.formatted
                          && m'.done == m.done + [Unmounted(target)])
            && (r.Err? ==> m' == m && r == Err(Unknown))
  {
  }

  /** From an unmounted staging path, a successful stage mounts the volume's device there and
      changes nothing but, possibly, that device's formatted entry; a second stage changes
      nothing; unstaging restores the mounts; and a second unstage changes nothing. */
  lemma StageUnstage(v: bool, f: Faults, m: Mounts, req: StageRequest, growth: Growth, f2: Faults)
    requires req.path !in m.points && req.capability.Filesystem?
    requires AfterStage(v, f, m, req, growth).1.Ok?
    requires AfterUnstage(f2, AfterStage(v, f, m, req, growth).0, req.volumeId, req.path).1.Ok?
    ensures var device := DevicePath(req.volumeId);
            var m1 := AfterStage(v, f, m, req, growth).0;
            var m2 := AfterUnstage(f2, m1, req.volumeId, req.path).0;
            && m1.points == m.points[req.path := device]
            && (m1.formatted == m.formatted || (device !in m.formatted && !req.noFormat
                  && m1.formatted == m.formatted[device := Requested(req.capability)]))
            && (req.noFormat || device in m1.formatted)
            && AfterStage(v, f, m1, req, growth) == (m1, Ok(()))
            && m2.points == m.points && m2.formatted == m1.formatted
            && AfterUnstage(f2, m2, req.volumeId, req.path) == (m2, Ok(()))
  {
    hide DevicePath;
    assert m.points[req.path := DevicePath(req.volumeId)] - {req.path} == m.points;
  }

  /** Which failures make staging a file system fail; and a failed stage leaves the mounts as they
      were, except that growing may fail when the path is mounted already. */
  lemma StageSucceedsIff(v: bool, f: Faults, m: Mounts, req: StageRequest, growth: Growth)
    requires req.volumeId != "" && req.path != "" && req.capability.Filesystem?
    ensures var device := DevicePath(req.volumeId);
            var (m', r) := AfterStage(v, f, m, req, growth);
            var ready := req.noFormat || ((v ==> device in f.attached) && device !in f.formatProbeErrors
                                          && (device in m.formatted || device !in f.formatErrors));
            var mountable := req.path !in f.mountProbeErrors && (req.path in m.points || req.path !in f.mountErrors);
            && (r.Ok? <==> ready && mountable && growth.Grown?)
            && (!ready ==> m' == m)
            && (r.Err? ==>
                  (r == Err(Unknown) <==>
                     if ready then req.path in f.mountProbeErrors else (v ==> device in f.attached) && device in f.formatProbeErrors)
                  && (r == Err(Unknown) || r == Err(Internal)))
            && (r.Err? ==> m'.points == m.points || (growth.GrowFailed? && m'.points == m.points[req.path := device]))
  {
    hide DevicePath;
  }

  /** A successful stage leaves the path mounted, but from the volume's own device if and only if
      the path was unmounted before or mounted from that device already: what is mounted there is
      not looked at. */
  lemma StagedRightIff(v: bool, f: Faults, m: Mounts, req: StageRequest, growth: Growth)
    requires req.capability.Filesystem? && AfterStage(v, f, m, req, growth).1.Ok?
    ensures var device := DevicePath(req.volumeId);
            var points := AfterStage(v, f, m, req, growth).0.points;
            && req.path in points
            && (points[req.path] == device <==> req.path !in m.points || m.points[req.path] == device)
  {
    hide DevicePath;
  }

  /** Staging succeeds on a path that something else is mounted on, and leaves it there. */
  lemma StagedWrong(volumeId: string)
    requires volumeId != ""
    ensures var none, m := Faults({}, {}, {}, {}, {}, {}), Mounts(map["/staging" := "tmpfs"], map[], []);
            var req := StageRequest(volumeId, "/staging", Filesystem("ext4", []), true);
            AfterStage(false, none, m, req, Grown) == (m, Ok(())) && m.points["/staging"] != DevicePath(volumeId)
  {
    assert DevicePath(volumeId)[0] == '/' && "tmpfs"[0] == 't';
  }

  /** Bind options: "bind" always, "ro" exactly if asked for read-only, then the requested flags. */
  predicate BindsAs(options: seq<string>, readonly: bool, flags: seq<string>) {
    && |flags| < |options| && options[|options| - |flags|..] == flags
    && var own := options[..|options| - |flags|];
       "bind" in own && ("ro" in own <==> readonly) && forall o :: o in own ==> o == "bind" || o == "ro"
  }

  lemma BindOptionsBind(readonly: bool, flags: seq<string>)
    ensures BindsAs(BindOptions(readonly) + flags, readonly, flags)
  {
    var own, all := BindOptions(readonly), BindOptions(readonly) + flags;
    assert all[..|all| - |flags|] == own && all[|all| - |flags|..] == flags;
    assert own[0] == "bind" && (readonly ==> own[1] == "ro");
    assert |"bind"| != |"ro"|;
  }

  /** A bind mount of the staging path, read-only exactly if asked, is all that publishing a
      file system does; unpublishing takes it away and may be repeated. */
  lemma PublishUnpublish(f: Faults, m: Mounts, req: PublishRequest, device: Option<string>, f2: Faults)
    requires req.target !in m.points && req.capability.Filesystem?
    requires AfterPublish(f, m, req, device).1.Ok? && req.target !in f2.unmountErrors
    ensures var m1 := AfterPublish(f, m, req, device).0;
            var m2 := AfterUnpublish(f2, m1, req.volumeId, req.target).0;
            && m1.points == m.points[req.target := req.staging] && m1.formatted == m.formatted
            && (exists o: seq<string> :: m1.done == m.done + [Mounted(req.staging, req.target, Requested(req.capability), o)]
                  && BindsAs(o, req.readonly, req.capability.flags))
            && AfterPublish(f, m1, req, device) == (m1, Ok(()))
            && m2.points == m.points && AfterUnpublish(f2, m2, req.volumeId, req.target).0.points == m2.points
  {
    var o := BindOptions(req.readonly) + req.capability.flags;
    BindOptionsBind(req.readonly, req.capability.flags);
    assert AfterPublish(f, m, req, device).0.done == m.done + [Mounted(req.staging, req.target, Requested(req.capability), o)];
    assert m.points[req.target := req.staging] - {req.target} == m.points;
  }

  /** Which failures make publishing a file system fail; and a failed publish changes nothing. */
  lemma PublishSucceedsIff(f: Faults, m: Mounts, req: PublishRequest, device: Option<string>)
    requires req.volumeId != "" && req.staging != "" && req.target != "" && req.capability.Filesystem?
    ensures var (m', r) := AfterPublish(f, m, req, device);
            && (r.Ok? <==> req.target !in f.mountProbeErrors && (req.target in m.points || req.target !in f.mountErrors))
            && (r.Err? || req.target in m.points ==> m' == m)
            && (r.Err? ==> r == Err(if req.target in f.mountProbeErrors then Unknown else Internal))
  {
  }

  /** Under "/dev": what following the by-id link must give. */
  predicate UnderDev(device: Option<string>) {
    device.Some? && |device.value| >= 4 && device.value[..4] == "/dev"
  }

  /** Publishing a block volume: it succeeds if and only if the device is found under "/dev" and
      the probe and, on an unmounted target, the mount succeed; then the device is bind mounted at
      the target, without a file system, read-only exactly if asked; otherwise, and on a target
      that is mounted already, nothing changes. */
  lemma PublishBlockExact(f: Faults, m: Mounts, req: PublishRequest, device: Option<string>)
    requires req.volumeId != "" && req.staging != "" && req.target != "" && req.capability.Block?
    ensures var (m', r) := AfterPublish(f, m, req, device);
            && (r.Ok? <==> UnderDev(device) && req.target !in f.mountProbeErrors
                           && (req.target in m.points || req.target !in f.mountErrors))
            && (r.Err? || req.target in m.points ==> m' == m)
            && (r.Err? ==> r == Err(if UnderDev(device) && req.target in f.mountProbeErrors then Unknown else Internal))
            && (r.Ok? && req.target !in m.points ==>
                  && m'.points == m.points[req.target := device.value] && m'.formatted == m.formatted
                  && exists o: seq<string> :: m'.done == m.done + [Mounted(device.value, req.target, "", o)]
                                              && BindsAs(o, req.readonly, []))
  {
    BindOptionsBind(req.readonly, []);
    assert BindOptions(req.readonly) + [] == BindOptions(req.readonly);
    var (m', r) := AfterPublish(f, m, req, device);
    if r.Ok? && req.target !in m.points {
      assert m'.done == m.done + [Mounted(device.value, req.target, "", BindOptions(req.readonly))];
    }
  }

  /** Publishing a block volume again changes nothing, and unpublishing undoes it. */
  lemma PublishBlockUndone(f: Faults, m: Mounts, req: PublishRequest, device: Option<string>, f2: Faults)
    requires req.target !in m.points && req.capability.Block?
    requires AfterPublish(f, m, req, device).1.Ok? && req.target !in f2.unmountErrors
    ensures var m1 := AfterPublish(f, m, req, device).0;
            var (m2, r) := AfterUnpublish(f2, m1, req.volumeId, req.target);
            AfterPublish(f, m1, req, device) == (m1, Ok(())) && r == Ok(()) && m2.points == m.points && m2.formatted == m.formatted
  {
    assert m.points[req.target := device.value] - {req.target} == m.points;
  }
}
