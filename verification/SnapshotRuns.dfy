/** Get-or-create over runs, and what a source volume id denotes. */
module SnapshotRuns {
  import opened Wrappers
  import opened Iaas
  import opened Capacity
  import opened Snapshots

  // ----- resolution -----

  lemma EmptyIff<T>(s: seq<T>)
    ensures s == [] <==> forall x :: x !in s
  {
    if s != [] { assert s[0] in s; }
  }

  lemma {:induction false} AtMostOne(vols: seq<Volume>, id: string)
    requires DistinctVolumes(vols)
    ensures |WithIdentity(vols, id)| <= 1
  {
    if vols == [] {
    } else {
      AtMostOne(vols[1..], id);
      forall x | x in vols[1..] ensures x.identity != vols[0].identity {
        var k :| 0 <= k < |vols[1..]| && vols[1..][k] == x;
      }
      EmptyIff(WithIdentity(vols[1..], id));
    }
  }

  /** On a working API and distinct identities, an identity wins over any name; resolving what
      was resolved gives it back; and NotFound means that no volume has that identity or name. */
  lemma ResolutionCanonical(vols: seq<Volume>, id: string)
    requires DistinctVolumes(vols)
    ensures (exists v :: v in vols && v.identity == id) ==> Resolved(vols, id, true, true) == Ok(id)
    ensures Resolved(vols, id, true, true).Ok? ==>
              var r := Resolved(vols, id, true, true).value;
              Resolved(vols, r, true, true) == Ok(r) && exists v :: v in vols && v.identity == r && (r == id || v.name == id)
    ensures Resolved(vols, id, true, true) == Err(NotFound) <==>
              forall v :: v in vols ==> v.identity != id && v.name != id
  {
    var found := WithIdentity(vols, id);
    AtMostOne(vols, id);
    EmptyIff(found);
    EmptyIff(WithName(vols, id));
    if found != [] {
      assert found[0] in found;
    } else if Resolved(vols, id, true, true).Ok? {
      var v := WithName(vols, id)[0];
      assert v in WithName(vols, id);
      AtMostOne(vols, v.identity);
      assert v in WithIdentity(vols, v.identity);
      assert WithIdentity(vols, v.identity)[0] in WithIdentity(vols, v.identity);
    }
  }

  /** When resolving fails: on a list call that fails, or with several volumes of that name; and
      with NotFound, when both lists are empty. */
  lemma ResolutionFails(vols: seq<Volume>, id: string, first: bool, second: bool)
    requires DistinctVolumes(vols)
    ensures var held := exists v :: v in vols && v.identity == id;
            && (Resolved(vols, id, first, second) == Err(Internal) <==>
                  !first || (!held && (!second || |WithName(vols, id)| > 1)))
            && (Resolved(vols, id, first, second) == Err(NotFound) <==>
                  first && second && forall v :: v in vols ==> v.identity != id && v.name != id)
            && (Resolved(vols, id, first, second).Err? ==> Resolved(vols, id, first, second).code in {Internal, NotFound})
  {
    AtMostOne(vols, id);
    EmptyIff(WithIdentity(vols, id));
    EmptyIff(WithName(vols, id));
  }

  /** The source volume's record counts, else the source id. */
  lemma SourceOf(snap: Snapshot, source: SourceVolume, id: string)
    ensures SourceIdentity(snap.(sourceVolume := Some(source))) == source.identity
    ensures SourceIdentity(snap.(sourceVolume := None, sourceVolumeId := Some(id))) == id
    ensures SourceIdentity(snap.(sourceVolume := None, sourceVolumeId := None)) == ""
  {
  }

  /** What is reported of a snapshot. */
  lemma Reported(snap: Snapshot)
    ensures var shown := ToCsi(snap);
            && shown.id == snap.identity && (shown.ready <==> snap.available)
            && (snap.sizeGib.None? ==> shown.sizeBytes == 0)
            && (snap.sizeGib.Some? && 0 <= snap.sizeGib.value <= MAXIMUM_GIB ==> shown.sizeBytes == snap.sizeGib.value * GIB)
            && (snap.sourceVolume.Some? ==> shown.source == snap.sourceVolume.value.identity)
            && (snap.sourceVolume.None? ==> shown.source == "")
  {
  }

  // ----- an existing snapshot decides -----

  ghost predicate UniqueNames(snaps: seq<Snapshot>) {
    forall i, j :: 0 <= i < j < |snaps| ==> snaps[i].name != snaps[j].name
  }

  ghost predicate UniqueIds(snaps: seq<Snapshot>) {
    forall i, j :: 0 <= i < j < |snaps| ==> snaps[i].identity != snaps[j].identity
  }

  predicate Works(env: Env) { env.listed.Value? && env.first && env.second && env.wait && env.get.Value? }

  lemma FoundByName(s: Store, snap: Snapshot, name: string, env: Env)
    requires UniqueNames(s.snaps) && snap in s.snaps && snap.name == name && Filtered(s, name, env) && env.listed.Value?
    ensures SnapshotNamed(env.listed.value, name) == Some(snap)
  {
    var found := SnapshotNamed(env.listed.value, name);
    assert found.Some? && found.value in s.snaps;
  }

  lemma FoundById(s: Store, snap: Snapshot)
    requires UniqueIds(s.snaps) && snap in s.snaps
    ensures ById(s.snaps, snap.identity) == Some(snap)
  {
    var found := ById(s.snaps, snap.identity);
    assert found.Some? && found.value in s.snaps;
  }

  /** Whether the requested source is the snapshot's source. */
  ghost predicate SameSource(s: Store, source: string, snap: Snapshot) {
    var r := Resolved(s.vols, source, true, true);
    SourceIdentity(snap) != "" &&
    if r == Err(NotFound) || r == Ok("")
    then source == SourceIdentity(snap) || (snap.sourceVolume.Some? && source == snap.sourceVolume.value.name)
    else r == Ok(SourceIdentity(snap))
  }

  /** While a snapshot of that name exists, CreateSnapshot changes nothing; it returns that
      snapshot, ready, if the source is the same, and AlreadyExists otherwise, unless the source
      id is the name of several volumes. */
  lemma ExistingDecides(s: Store, snap: Snapshot, req: Request, env: Env)
    requires UniqueNames(s.snaps) && UniqueIds(s.snaps) && snap in s.snaps && snap.name == req.name
    requires Filtered(s, req.name, env) && Works(env) && req.name != "" && req.source != ""
    ensures var (s', r) := AfterCreate(s, req, env);
            && s' == s
            && (SameSource(s, req.source, snap) ==>
                  r == Ok(ToCsi(Reread(snap, env.get.value))) && r.value.id == snap.identity && r.value.ready)
            && (!SameSource(s, req.source, snap) ==>
                  r == Err(if Resolved(s.vols, req.source, true, true) == Err(Internal) then Internal else AlreadyExists))
  {
    FoundByName(s, snap, req.name, env);
    FoundById(s, snap);
  }

  lemma FoundAppended(s: Store, made: Snapshot)
    requires UniqueIds(s.snaps) && forall x :: x in s.snaps ==> x.identity != made.identity
    ensures ById(s.snaps + [made], made.identity) == Some(made)
    ensures (s.snaps + [made])[..|s.snaps|] == s.snaps && (s.snaps + [made])[|s.snaps|] == made
  {
    var snaps := s.snaps + [made];
    assert snaps[|s.snaps|] == made && made in snaps;
    forall i, j | 0 <= i < j < |snaps| ensures snaps[i].identity != snaps[j].identity {
      assert s.snaps[i] in s.snaps;
    }
    FoundById(Store(snaps, s.vols), made);
  }

  /** A lookup that does not fail gives what it gives on a working API. */
  lemma ResolvedDespite(vols: seq<Volume>, id: string, first: bool, second: bool)
    ensures Resolved(vols, id, first, second) == Err(Internal) || Resolved(vols, id, first, second) == Resolved(vols, id, true, true)
    ensures Resolved(vols, id, first, second).Err? ==> Resolved(vols, id, first, second).code in {Internal, NotFound}
  {
  }

  /** When a create succeeds while a snapshot of that name exists: the lookup works, the source is
      the same, and the wait and the final read succeed; whatever fails, nothing changes. */
  lemma ExistingSucceedsIff(s: Store, snap: Snapshot, req: Request, env: Env)
    requires UniqueNames(s.snaps) && UniqueIds(s.snaps) && snap in s.snaps && snap.name == req.name
    requires Filtered(s, req.name, env) && env.listed.Value? && req.name != "" && req.source != ""
    ensures var (s', r) := AfterCreate(s, req, env);
            && s' == s
            && (r.Ok? <==> Resolved(s.vols, req.source, env.first, env.second) != Err(Internal)
                           && SameSource(s, req.source, snap) && env.wait && env.get.Value?)
  {
    FoundByName(s, snap, req.name, env);
    FoundById(s, snap);
    ResolvedDespite(s.vols, req.source, env.first, env.second);
    hide Resolved, SnapshotNamed, ById, UniqueNames, UniqueIds, Filtered;
  }

  /** While the name is free and the source denotes a volume, a create on a working API adds one
      snapshot of exactly that volume and returns its new identity, ready. */
  lemma FreshCreate(s: Store, req: Request, env: Env)
    requires Filtered(s, req.name, env) && Works(env) && env.create == Good && req.name != "" && req.source != ""
    requires UniqueIds(s.snaps) && forall x :: x in s.snaps ==> x.name != req.name && x.identity != env.newId
    requires Resolved(s.vols, req.source, true, true).Ok?
    ensures var (s', r) := AfterCreate(s, req, env);
            && |s'.snaps| == |s.snaps| + 1 && s'.snaps[..|s.snaps|] == s.snaps && s'.vols == s.vols
            && (var made := s'.snaps[|s.snaps|];
                made.name == req.name && made.identity == env.newId
                && SourceIdentity(made) == Resolved(s.vols, req.source, true, true).value
                && r == Ok(ToCsi(Reread(made, env.get.value))) && r.value.id == env.newId && r.value.ready)
  {
    FoundAppended(s, Made(req, Resolved(s.vols, req.source, true, true).value, env));
  }

  /** With the name free, a create on a working lookup adds the snapshot if and only if the API
      creates it, even when that is reported as an error; and it succeeds if and only if the
      creation, the wait and the final read do. */
  lemma FreshCreateFails(s: Store, req: Request, env: Env)
    requires Filtered(s, req.name, env) && env.listed.Value? && req.name != "" && req.source != ""
    requires UniqueIds(s.snaps) && forall x :: x in s.snaps ==> x.name != req.name && x.identity != env.newId
    requires Resolved(s.vols, req.source, env.first, env.second).Ok?
    ensures var (s', r) := AfterCreate(s, req, env);
            && (env.create == Good || env.create == FailLate ==>
                  |s'.snaps| == |s.snaps| + 1 && s'.snaps[..|s.snaps|] == s.snaps && s'.vols == s.vols
                  && s'.snaps[|s.snaps|].name == req.name && s'.snaps[|s.snaps|].identity == env.newId
                  && SourceIdentity(s'.snaps[|s.snaps|]) == Resolved(s.vols, req.source, env.first, env.second).value)
            && (env.create == Fail || env.create == NotFoundError ==> s' == s)
            && (r.Ok? <==> env.create == Good && env.wait && env.get.Value?)
            && (r.Err? ==> r == Err(if env.create == Good && env.wait && env.get.Missing? then NotFound else Internal))
  {
    var made := Made(req, Resolved(s.vols, req.source, env.first, env.second).value, env);
    assert SnapshotNamed(env.listed.value, req.name).None?;
    assert SourceIdentity(made) == Resolved(s.vols, req.source, env.first, env.second).value;
    FoundAppended(s, made);
    hide Resolved, SnapshotNamed, UniqueIds;
  }

  /** Which error a create gets before it comes to creating anything, and that it changes nothing. */
  lemma CreateRefuses(s: Store, req: Request, env: Env)
    requires req.name == "" || req.source == "" || !env.listed.Value?
             || (SnapshotNamed(env.listed.value, req.name).None? && Resolved(s.vols, req.source, env.first, env.second).Err?)
    ensures var (s', r) := AfterCreate(s, req, env);
            && s' == s
            && r == Err(if req.name == "" || req.source == "" then InvalidArgument
                        else if !env.listed.Value? then Internal
                        else Resolved(s.vols, req.source, env.first, env.second).code)
  {
  }

  // ----- runs -----

  datatype Op =
    | Create(req: Request, env: Env)
    | Delete(id: string, o: Outcome)
    // the cloud's own steps: volumes come and go, and a snapshot may be shown differently
    | ChangeVolumes(vols: seq<Volume>)
    | Reshow(index: nat, snap: Snapshot)

  ghost predicate Allowed(s: Store, op: Op) {
    match op
    case Create(req, env) => Filtered(s, req.name, env) && forall x :: x in s.snaps ==> x.identity != env.newId
    case Delete(id, o) => true
    case ChangeVolumes(vols) => DistinctVolumes(vols)
    case Reshow(i, snap) => i < |s.snaps| && SameSnapshot(s.snaps[i], snap)
  }

  function Exec(s: Store, op: Op): Store {
    match op
    case Create(req, env) => AfterCreate(s, req, env).0
    case Delete(id, o) => AfterDelete(s, id, o).0
    case ChangeVolumes(vols) => s.(vols := vols)
    case Reshow(i, snap) => if i < |s.snaps| then s.(snaps := s.snaps[i := snap]) else s
  }

  function Run(s: Store, ops: seq<Op>): Store
    decreases |ops|
  {
    if ops == [] then s else Run(Exec(s, ops[0]), ops[1..])
  }

  ghost predicate AllAllowed(s: Store, ops: seq<Op>)
    decreases |ops|
  {
    ops == [] || (Allowed(s, ops[0]) && AllAllowed(Exec(s, ops[0]), ops[1..]))
  }

  ghost predicate Inv(s: Store) { UniqueNames(s.snaps) && UniqueIds(s.snaps) && DistinctVolumes(s.vols) }

  lemma PrependKeepsUnique(first: Snapshot, rest: seq<Snapshot>)
    requires UniqueNames(rest) && UniqueIds(rest)
    requires forall x :: x in rest ==> x.name != first.name && x.identity != first.identity
    ensures UniqueNames([first] + rest) && UniqueIds([first] + rest)
  {
  }

  lemma {:induction false} WithoutKeepsUnique(snaps: seq<Snapshot>, id: string)
    requires UniqueNames(snaps) && UniqueIds(snaps)
    ensures UniqueNames(Without(snaps, id)) && UniqueIds(Without(snaps, id))
  {
    if snaps == [] {
    } else {
      forall x | x in snaps[1..] ensures x.name != snaps[0].name && x.identity != snaps[0].identity {
        var k :| 0 <= k < |snaps[1..]| && snaps[1..][k] == x;
      }
      assert UniqueNames(snaps[1..]) && UniqueIds(snaps[1..]);
      hide UniqueNames, UniqueIds;
      WithoutKeepsUnique(snaps[1..], id);
      PrependKeepsUnique(snaps[0], Without(snaps[1..], id));
    }
  }

  /** CreateSnapshot changes the store only by adding a snapshot whose name was free. */
  lemma CreateAppends(s: Store, req: Request, env: Env)
    requires Filtered(s, req.name, env)
    ensures var s' := AfterCreate(s, req, env).0;
            s' == s || ((forall x :: x in s.snaps ==> x.name != req.name)
                        && exists made: Snapshot :: made.name == req.name && made.identity == env.newId
                                       && s' == s.(snaps := s.snaps + [made]))
  {
    var s' := AfterCreate(s, req, env).0;
    if s' != s {
      var made := Made(req, Resolved(s.vols, req.source, env.first, env.second).value, env);
      assert s' == s.(snaps := s.snaps + [made]);
    }
  }

  lemma AppendKeepsUnique(snaps: seq<Snapshot>, made: Snapshot)
    requires UniqueNames(snaps) && UniqueIds(snaps)
    requires forall x :: x in snaps ==> x.name != made.name && x.identity != made.identity
    ensures UniqueNames(snaps + [made]) && UniqueIds(snaps + [made])
  {
  }

  lemma StepKeepsInv(s: Store, op: Op)
    requires Inv(s) && Allowed(s, op)
    ensures Inv(Exec(s, op))
  {
    match op
    case Create(req, env) =>
      CreateAppends(s, req, env);
      if Exec(s, op) != s {
        var made: Snapshot :| made.name == req.name && made.identity == env.newId
                    && Exec(s, op) == s.(snaps := s.snaps + [made]);
        AppendKeepsUnique(s.snaps, made);
      }
    case Delete(id, o) => WithoutKeepsUnique(s.snaps, id);
    case ChangeVolumes(vols) =>
    case Reshow(i, snap) =>
  }

  /** Whatever the API does: a successful CreateSnapshot answers with a snapshot of the requested
      name that the store holds, ready to use, and if a source is reported, it is that snapshot's. */
  lemma AnswersReady(s: Store, req: Request, env: Env)
    requires Inv(s) && Allowed(s, Create(req, env)) && AfterCreate(s, req, env).1.Ok?
    ensures var (s', r) := AfterCreate(s, req, env);
            && r.value.ready
            && exists x :: x in s'.snaps && x.name == req.name && x.identity == r.value.id
                           && r.value.source == if env.get.value.sourceName.Some? then SourceIdentity(x) else ""
  {
    var s' := AfterCreate(s, req, env).0;
    var got := AfterGetOrCreate(s, req, env).1.value;
    StepKeepsInv(s, Create(req, env));
    assert s' == Exec(s, Create(req, env));
    assert got in s'.snaps && got.name == req.name;
    FoundById(s', got);
  }

  /** Over every run of creates and deletes with any failures, snapshot names stay unique. */
  lemma {:induction false} NamesOverRuns(s: Store, ops: seq<Op>)
    requires Inv(s) && AllAllowed(s, ops)
    ensures Inv(Run(s, ops))
    decreases |ops|
  {
    if ops == [] {
    } else {
      StepKeepsInv(s, ops[0]);
      NamesOverRuns(Exec(s, ops[0]), ops[1..]);
    }
  }

  // ----- deleting -----

  lemma {:induction false} WithoutOther(snaps: seq<Snapshot>, id: string)
    ensures (forall x :: x in snaps ==> x.identity != id) ==> Without(snaps, id) == snaps
  {
    if snaps == [] {
    } else if forall x :: x in snaps ==> x.identity != id {
      forall x | x in snaps[1..] ensures x.identity != id { assert x in snaps; }
      WithoutOther(snaps[1..], id);
    }
  }

  /** Deleting an identity removes the snapshots of that identity and nothing else, also when it is
      reported as an error; it succeeds if and only if the API did it or found none; and repeating
      it changes nothing. */
  lemma DeleteExact(s: Store, id: string, o: Outcome, again: Outcome)
    requires id != ""
    ensures var (s', r) := AfterDelete(s, id, o);
            && s'.vols == s.vols
            && (o == Good || o == FailLate ==> forall x :: x in s'.snaps <==> x in s.snaps && x.identity != id)
            && (o == Fail || o == NotFoundError ==> s' == s)
            && (r.Ok? <==> o == Good || o == NotFoundError) && (r.Err? ==> r == Err(Internal))
            && (o == Good || o == FailLate ==> AfterDelete(s', id, again).0 == s')
  {
    WithoutOther(AfterDelete(s, id, o).0.snaps, id);
  }

  ghost predicate NameFree(s: Store, name: string) { forall x :: x in s.snaps ==> x.name != name }

  lemma StepKeepsNameFree(s: Store, op: Op, name: string)
    requires Allowed(s, op) && NameFree(s, name) && !(op.Create? && op.req.name == name)
    ensures NameFree(Exec(s, op), name)
  {
    if op.Create? { CreateAppends(s, op.req, op.env); }
    if op.Reshow? {
      assert s.snaps[op.index] in s.snaps;
    }
  }

  lemma {:induction false} NameStaysFree(s: Store, ops: seq<Op>, name: string)
    requires AllAllowed(s, ops) && NameFree(s, name) && forall op :: op in ops ==> !(op.Create? && op.req.name == name)
    ensures NameFree(Run(s, ops), name)
    decreases |ops|
  {
    if ops == [] {
    } else {
      StepKeepsNameFree(s, ops[0], name);
      NameStaysFree(Exec(s, ops[0]), ops[1..], name);
    }
  }

  /** After a delete that took effect, and whatever else happens short of creating the name anew,
      a create of that name on a working API adds a new snapshot, with a new identity and the
      source that is asked for now. */
  lemma RecreateAfterDelete(s: Store, snap: Snapshot, o: Outcome, ops: seq<Op>, source: string, env: Env)
    requires Inv(s) && snap in s.snaps && snap.name != "" && snap.identity != "" && (o == Good || o == FailLate)
    requires var s1 := AfterDelete(s, snap.identity, o).0;
             && AllAllowed(s1, ops) && (forall op :: op in ops ==> !(op.Create? && op.req.name == snap.name))
             && var s2 := Run(s1, ops);
                Allowed(s2, Create(Request(snap.name, source), env)) && Works(env) && env.create == Good && source != ""
                && Resolved(s2.vols, source, true, true).Ok?
    ensures var s2 := Run(AfterDelete(s, snap.identity, o).0, ops);
            var (s3, r) := AfterCreate(s2, Request(snap.name, source), env);
            && |s3.snaps| == |s2.snaps| + 1 && s3.snaps[..|s2.snaps|] == s2.snaps
            && s3.snaps[|s2.snaps|].name == snap.name && s3.snaps[|s2.snaps|].identity == env.newId
            && SourceIdentity(s3.snaps[|s2.snaps|]) == Resolved(s2.vols, source, true, true).value
            && r.Ok? && r.value.id == env.newId && r.value.ready
  {
    var s1 := AfterDelete(s, snap.identity, o).0;
    StepKeepsInv(s, Delete(snap.identity, o));
    assert s1 == Exec(s, Delete(snap.identity, o));
    DeleteExact(s, snap.identity, o, o);
    forall x | x in s1.snaps ensures x.name != snap.name {
      var i :| 0 <= i < |s.snaps| && s.snaps[i] == x;
      var j :| 0 <= j < |s.snaps| && s.snaps[j] == snap;
    }
    NamesOverRuns(s1, ops);
    NameStaysFree(s1, ops, snap.name);
    FreshCreate(Run(s1, ops), Request(snap.name, source), env);
  }

  // ----- a snapshot that is held -----

  ghost predicate Holds(s: Store, snap: Snapshot) {
    exists x :: x in s.snaps && SameSnapshot(x, snap)
  }

  lemma StepKeepsSnapshot(s: Store, op: Op, snap: Snapshot)
    requires Allowed(s, op) && Holds(s, snap) && !(op.Delete? && op.id == snap.identity)
    ensures Holds(Exec(s, op), snap)
  {
    var x :| x in s.snaps && SameSnapshot(x, snap);
    var i :| 0 <= i < |s.snaps| && s.snaps[i] == x;
    var s' := Exec(s, op);
    if op.Reshow? { assert s'.snaps[i] in s'.snaps && SameSnapshot(s'.snaps[i], snap); }
    if op.Create? { assert s'.snaps[i] == x; }
    if op.Delete? { assert x in s'.snaps; }
  }

  /** A snapshot stays until it is deleted. */
  lemma {:induction false} SnapshotStays(s: Store, ops: seq<Op>, snap: Snapshot)
    requires AllAllowed(s, ops) && Holds(s, snap)
    requires forall op :: op in ops ==> !(op.Delete? && op.id == snap.identity)
    ensures Holds(Run(s, ops), snap)
    decreases |ops|
  {
    if ops == [] {
    } else {
      StepKeepsSnapshot(s, ops[0], snap);
      SnapshotStays(Exec(s, ops[0]), ops[1..], snap);
    }
  }

  /** A retry of a name that is held: nothing is created, the source decides. */
  lemma RetryOnHeld(s: Store, made: Snapshot, source: string, env: Env)
    requires Inv(s) && Holds(s, made) && made.name != "" && source != ""
    requires Filtered(s, made.name, env) && Works(env)
    ensures var (s', r) := AfterCreate(s, Request(made.name, source), env);
            var now := Resolved(s.vols, source, true, true);
            && s' == s
            && (SourceIdentity(made) != "" && now == Ok(SourceIdentity(made)) ==>
                  r.Ok? && r.value.id == made.identity && r.value.ready)
            && (now.Ok? && now.value != "" && now.value != SourceIdentity(made) ==> r == Err(AlreadyExists))
  {
    hide Resolved, AfterCreate;
    var snap :| snap in s.snaps && SameSnapshot(snap, made);
    ExistingDecides(s, snap, Request(made.name, source), env);
  }

  /** A create took effect, even if it reported an error. Whatever happens then, short of
      deleting that snapshot, a retry of the same name creates nothing, and if the source still
      resolves to the same volume it returns the same snapshot identity; a source that resolves
      to another volume yields AlreadyExists. */
  lemma RetryReturnsSame(s: Store, req: Request, env: Env, ops: seq<Op>, source: string, env2: Env)
    requires Inv(s) && Allowed(s, Create(req, env)) && AfterCreate(s, req, env).0 != s
    requires var s1 := AfterCreate(s, req, env).0;
             && AllAllowed(s1, ops) && (forall op :: op in ops ==> !(op.Delete? && op.id == env.newId))
             && Filtered(Run(s1, ops), req.name, env2) && Works(env2) && source != ""
    ensures Resolved(s.vols, req.source, true, true).Ok?
    ensures var s2 := Run(AfterCreate(s, req, env).0, ops);
            var (s3, r) := AfterCreate(s2, Request(req.name, source), env2);
            var now := Resolved(s2.vols, source, true, true);
            var original := Resolved(s.vols, req.source, true, true).value;
            && s3 == s2
            && (original != "" && now == Ok(original) ==> r.Ok? && r.value.id == env.newId && r.value.ready)
            && (now.Ok? && now.value != "" && now.value != original ==> r == Err(AlreadyExists))
  {
    var s1 := AfterCreate(s, req, env).0;
    var made := Made(req, Resolved(s.vols, req.source, true, true).value, env);
    assert made in s1.snaps && SameSnapshot(made, made);
    StepKeepsInv(s, Create(req, env));
    assert s1 == Exec(s, Create(req, env));
    SnapshotStays(s1, ops, made);
    NamesOverRuns(s1, ops);
    RetryOnHeld(Run(s1, ops), made, source, env2);
  }

  /** A snapshot taken by volume identity, retried after that volume is deleted, is returned if
      and only if no remaining volume carries the identity as its name. */
  lemma RetryAfterSourceDeleted(s: Store, snap: Snapshot, req: Request, env: Env)
    requires Inv(s) && snap in s.snaps && snap.name == req.name && req.name != ""
    requires req.source == SourceIdentity(snap) && req.source != ""
    requires forall v :: v in s.vols ==> v.identity != req.source && v.identity != ""
    requires Filtered(s, req.name, env) && Works(env)
    ensures AfterCreate(s, req, env).0 == s
    ensures var r := AfterCreate(s, req, env).1;
            && (r.Ok? <==> forall v :: v in s.vols ==> v.name != req.source)
            && (r.Ok? ==> r == Ok(ToCsi(Reread(snap, env.get.value))) && r.value.id == snap.identity && r.value.ready)
  {
    ExistingDecides(s, snap, req, env);
    ResolutionCanonical(s.vols, req.source);
  }
}
