/** The mount chain for an orchestrator that keeps the order of the CSI specification's "Volume
    Lifecycle": stage before publish, unpublish every target before unstage. */
module MountChain {
  import opened Wrappers
  import opened Devices
  import opened Mounter
  import opened Node
  import opened NodeRuns

  /** The orchestrator's choice of paths: one staging path per volume, any number of targets,
      each for one volume; and which volumes are block volumes. */
  datatype Plan = Plan(staging: map<string, string>, owner: map<string, string>, block: set<string>)

  ghost predicate DistinctPaths(plan: Plan) {
    && (forall v, w :: v in plan.staging && w in plan.staging && v != w ==> plan.staging[v] != plan.staging[w])
    && (forall t :: t in plan.owner ==> plan.owner[t] in plan.staging)
    && (forall v, t :: v in plan.staging && t in plan.owner ==> plan.staging[v] != t)
  }

  /** `staged`: volumes whose stage succeeded and that were not unstaged since, successfully or
      not. `inUse`: targets whose publish was called and that were not successfully unpublished. */
  datatype World = World(m: Mounts, staged: set<string>, inUse: set<string>)

  predicate RightMode(plan: Plan, v: string, c: Capability) {
    if v in plan.block then c.Block? else c.Filesystem?
  }

  ghost predicate InOrder(plan: Plan, w: World, op: Op) {
    match op
    case Stage(req, _) =>
      req.volumeId in plan.staging && req.path == plan.staging[req.volumeId] && RightMode(plan, req.volumeId, req.capability)
    case Publish(req, _) =>
      req.volumeId in plan.staging && req.volumeId in w.staged && req.staging == plan.staging[req.volumeId]
      && req.target in plan.owner && plan.owner[req.target] == req.volumeId && RightMode(plan, req.volumeId, req.capability)
    case Unpublish(v, target) => target in plan.owner && plan.owner[target] == v
    case Unstage(v, path) =>
      v in plan.staging && path == plan.staging[v] && forall t :: t in w.inUse && t in plan.owner ==> plan.owner[t] != v
  }

  function After(w: World, s: Step): World {
    var (m, r) := Exec(w.m, s);
    match s.op
    case Stage(req, _) => World(m, if r.Ok? then w.staged + {req.volumeId} else w.staged, w.inUse)
    case Publish(req, _) => World(m, w.staged, w.inUse + {req.target})
    case Unpublish(_, target) => World(m, w.staged, if r.Ok? then w.inUse - {target} else w.inUse)
    case Unstage(v, _) => World(m, w.staged - {v}, w.inUse)
  }

  ghost predicate StagingRight(plan: Plan, w: World) {
    && (forall v :: v in plan.staging && plan.staging[v] in w.m.points ==>
          v !in plan.block && w.m.points[plan.staging[v]] == DevicePath(v))
    && (forall v :: v in w.staged ==> v in plan.staging && (v !in plan.block ==> plan.staging[v] in w.m.points))
  }

  ghost predicate TargetsRight(plan: Plan, w: World) {
    && (forall t :: t in plan.owner && t in w.m.points ==>
          t in w.inUse && plan.owner[t] in plan.staging
          && (plan.owner[t] !in plan.block ==> w.m.points[t] == plan.staging[plan.owner[t]]))
    && (forall t :: t in w.inUse ==> t in plan.owner && plan.owner[t] in w.staged)
  }

  ghost predicate Inv(plan: Plan, w: World) {
    DistinctPaths(plan) && StagingRight(plan, w) && TargetsRight(plan, w)
  }

  lemma StageEffect(m: Mounts, s: Step)
    requires s.op.Stage?
    ensures var (m', r) := Exec(m, s); var req := s.op.sreq;
            && (m'.points == m.points
                || (req.capability.Filesystem? && m'.points == m.points[req.path := DevicePath(req.volumeId)]))
            && (r.Ok? && req.capability.Filesystem? ==> req.path in m'.points)
  {
    hide DevicePath;
  }

  lemma StageKeeps(plan: Plan, w: World, s: Step)
    requires Inv(plan, w) && s.op.Stage? && InOrder(plan, w, s.op)
    ensures Inv(plan, After(w, s))
  {
    StageEffect(w.m, s);
    hide DevicePath, Exec;
  }

  lemma PublishEffect(m: Mounts, s: Step)
    requires s.op.Publish?
    ensures var m', req := Exec(m, s).0, s.op.preq;
            || m'.points == m.points
            || (req.target !in m.points && m'.points.Keys == m.points.Keys + {req.target}
                && (forall p :: p in m.points ==> m'.points[p] == m.points[p])
                && (req.capability.Filesystem? ==> m'.points[req.target] == req.staging))
  {
  }

  lemma PublishKeeps(plan: Plan, w: World, s: Step)
    requires Inv(plan, w) && s.op.Publish? && InOrder(plan, w, s.op)
    ensures Inv(plan, After(w, s))
  {
    PublishEffect(w.m, s);
    hide DevicePath, Exec;
  }

  lemma UnmountKeeps(plan: Plan, w: World, s: Step)
    requires Inv(plan, w) && (s.op.Unstage? || s.op.Unpublish?) && InOrder(plan, w, s.op)
    ensures Inv(plan, After(w, s))
  {
    hide DevicePath;
  }

  function RunWorld(w: World, steps: seq<Step>): World
    decreases |steps|
  {
    if steps == [] then w else RunWorld(After(w, steps[0]), steps[1..])
  }

  ghost predicate AllInOrder(plan: Plan, w: World, steps: seq<Step>)
    decreases |steps|
  {
    steps == [] || (InOrder(plan, w, steps[0].op) && AllInOrder(plan, After(w, steps[0]), steps[1..]))
  }

  lemma {:induction false} RunKeepsInv(plan: Plan, w: World, steps: seq<Step>)
    requires Inv(plan, w) && AllInOrder(plan, w, steps)
    ensures Inv(plan, RunWorld(w, steps))
    decreases |steps|
  {
    if steps == [] {
    } else {
      match steps[0].op {
        case Stage(_, _) => StageKeeps(plan, w, steps[0]);
        case Publish(_, _) => PublishKeeps(plan, w, steps[0]);
        case _ => UnmountKeeps(plan, w, steps[0]);
      }
      RunKeepsInv(plan, After(w, steps[0]), steps[1..]);
    }
  }

  /** The mount chain: after every run of calls in order, whatever failed, each mounted target of
      a file system volume has its volume's staging path as source, and that path is mounted
      from the volume's own device, which no other volume shares if ids are free of '/'. The
      staging path stays mounted as long as a target is. */
  lemma Chain(plan: Plan, m: Mounts, steps: seq<Step>)
    requires DistinctPaths(plan) && AllInOrder(plan, World(m, {}, {}), steps)
    requires forall v :: v in plan.staging ==> plan.staging[v] !in m.points
    requires forall t :: t in plan.owner ==> t !in m.points
    ensures var points := RunWorld(World(m, {}, {}), steps).m.points;
            forall t :: t in plan.owner && plan.owner[t] !in plan.block && t in points ==>
              var v := plan.owner[t];
              && points[t] == plan.staging[v]
              && plan.staging[v] in points && points[plan.staging[v]] == DevicePath(v)
              && (forall u :: u in plan.staging && u != v && '/' !in u && '/' !in v ==> DevicePath(u) != DevicePath(v))
  {
    var w := World(m, {}, {});
    RunKeepsInv(plan, w, steps);
    forall u, v: string | u != v && '/' !in u && '/' !in v ensures DevicePath(u) != DevicePath(v) {
      if DevicePath(u) == DevicePath(v) { DevicePathInjective(u, v); }
    }
  }

  /** A mounted target is bound to the staging path, which is mounted from the own device. */
  predicate ChainRight(m: Mounts, req: PublishRequest) {
    req.target in m.points ==>
      && m.points[req.target] == req.staging
      && req.staging in m.points && m.points[req.staging] == DevicePath(req.volumeId)
  }

  /** Where publishing a file system stops before it has mounted anything. */
  predicate Stops(f: Faults, req: PublishRequest) {
    req.volumeId == "" || req.staging == "" || req.target == ""
    || req.target in f.mountProbeErrors || req.target in f.mountErrors
  }

  /** Publishing a file system leaves a right chain behind if and only if it stops before the mount
      or the staging path was mounted from the volume's own device before; a target mounted before is left as it
      was, right or wrong. The call itself looks at neither. (A target that is its own staging
      path is bound to itself.) */
  lemma PublishRightIff(f: Faults, m: Mounts, req: PublishRequest, device: Option<string>)
    requires req.capability.Filesystem?
    ensures var m' := AfterPublish(f, m, req, device).0;
            if req.target in m.points then ChainRight(m', req) <==> ChainRight(m, req)
            else ChainRight(m', req) <==>
                   || Stops(f, req)
                   || (if req.staging == req.target then req.target == DevicePath(req.volumeId)
                       else req.staging in m.points && m.points[req.staging] == DevicePath(req.volumeId))
  {
    hide DevicePath;
  }

  /** Publishing on a fresh mounter, with nothing staged and nothing failing, succeeds and leaves
      the target bound to a path that nothing is mounted on. */
  lemma PublishUnstaged(volumeId: string)
    requires volumeId != ""
    ensures var none := Faults({}, {}, {}, {}, {}, {});
            var req := PublishRequest(volumeId, "/staging", "/target", false, Filesystem("ext4", []));
            var (m', r) := AfterPublish(none, Mounts(map[], map[], []), req, None);
            r == Ok(()) && m'.points == map["/target" := "/staging"] && !ChainRight(m', req)
  {
    hide DevicePath;
    assert "/staging" != "/target" by { assert "/staging"[1] == 's' && "/target"[1] == 't'; }
  }

  /** The order matters: publish does not look at the staging path, so without a stage before
      it, it succeeds all the same and binds whatever is there. */
  lemma PublishIgnoresStaging(f: Faults, m: Mounts, req: PublishRequest, device: Option<string>)
    requires req.volumeId != "" && req.staging != "" && req.target != "" && req.capability.Filesystem?
    requires req.target !in f.mountProbeErrors && req.target !in f.mountErrors && req.target !in m.points
    ensures AfterPublish(f, m, req, device).1 == Ok(())
    ensures AfterPublish(f, m, req, device).0.points == m.points[req.target := req.staging]
  {
  }
}
