/** What holds over sequential runs of create, expand and delete calls, with any failures. */
module VolumeRuns {
  import opened Wrappers
  import opened Iaas
  import opened Capacity
  import opened Volumes

  datatype Op =
    | Create(req: CreateRequest, env: CreateEnv)
    | Expand(ereq: ExpandRequest, eenv: ExpandEnv)
    | Delete(volumeId: string, o: Outcome)

  function Exec(s: Store, op: Op): Store {
    match op
    case Create(req, env) => AfterCreate(s, req, env).0
    case Expand(req, env) => AfterExpand(s, req, env).0
    case Delete(id, o) => AfterDelete(s, id, o).0
  }

  function Run(s: Store, ops: seq<Op>): Store
    decreases |ops|
  {
    if ops == [] then s else Run(Exec(s, ops[0]), ops[1..])
  }

  /** The API never gives an identity out twice. */
  ghost predicate FreshIdentities(s: Store, ops: seq<Op>)
    decreases |ops|
  {
    ops == [] || ((ops[0].Create? ==> ops[0].env.newId !in s.used) && FreshIdentities(Exec(s, ops[0]), ops[1..]))
  }

  ghost predicate Wf(s: Store) {
    && (forall v :: v in s.vols ==> v.identity in s.used)
    && (forall i, j :: 0 <= i < j < |s.vols| ==> s.vols[i].identity != s.vols[j].identity)
  }

  ghost predicate SizesWithin(s: Store, low: int) {
    forall v :: v in s.vols ==> low <= v.size <= MAXIMUM_GIB
  }

  /** Creating a volume only ever appends it. */
  lemma CreateAppends(s: Store, req: CreateRequest, env: CreateEnv)
    ensures var s' := AfterCreate(s, req, env).0;
            s' == s || (SizeOf(req.range).Ok? && Find(s.vols, KeyOf(req)).None?
                        && s' == AddVolume(s, req, SizeOf(req.range).value, env.newId))
  {
  }

  /** A volume of the new store is an old one, an old one grown by this call, or a created one. */
  lemma WhereFrom(s: Store, op: Op, v: Volume)
    requires v in Exec(s, op).vols
    ensures v in s.vols
            || (op.Create? && SizeOf(op.req.range).Ok? && v.identity == op.env.newId
                && v.size == SizeOf(op.req.range).value / GIB)
            || (op.Expand? && SizeOf(op.ereq.range).Ok? && v.size == SizeOf(op.ereq.range).value / GIB
                && exists w :: w in s.vols && w.identity == v.identity && w.size < v.size)
  {
    if op.Expand? && v !in s.vols {
      var found := Find(s.vols, op.ereq.volumeId).value;
      assert s.vols[found] in s.vols;
    }
  }

  lemma WfResize(s: Store, i: nat, gib: int)
    requires Wf(s) && i < |s.vols|
    ensures Wf(Resize(s, i, gib)) && Resize(s, i, gib).used == s.used
  {
    var s' := Resize(s, i, gib);
    forall v | v in s'.vols ensures v.identity in s.used {
      var j :| 0 <= j < |s'.vols| && s'.vols[j] == v;
      assert s.vols[j] in s.vols;
    }
  }

  lemma WfExpand(s: Store, req: ExpandRequest, env: ExpandEnv)
    requires Wf(s)
    ensures Wf(AfterExpand(s, req, env).0) && s.used == AfterExpand(s, req, env).0.used
  {
    hide Wf, Resize, SizeOf;
    var i := Find(s.vols, req.volumeId);
    if i.Some? && SizeOf(req.range).Ok? { WfResize(s, i.value, SizeOf(req.range).value / GIB); }
  }

  lemma WfDelete(s: Store, id: string, o: Outcome)
    requires Wf(s)
    ensures Wf(AfterDelete(s, id, o).0) && s.used == AfterDelete(s, id, o).0.used
  {
    hide Find;
  }

  lemma WfStep(s: Store, op: Op)
    requires Wf(s) && (op.Create? ==> op.env.newId !in s.used)
    ensures Wf(Exec(s, op)) && s.used <= Exec(s, op).used
  {
    match op
    case Create(req, env) => CreateAppends(s, req, env);
    case Expand(req, env) => WfExpand(s, req, env);
    case Delete(id, o) => WfDelete(s, id, o);
  }

  lemma StepKeepsSizes(s: Store, op: Op, low: int)
    requires SizesWithin(s, low) && (low == 0 || low == 1)
    requires low == 1 && op.Create? ==> !SmallWithLimit(op.req.range)
    ensures SizesWithin(Exec(s, op), low)
  {
    forall v | v in Exec(s, op).vols ensures low <= v.size <= MAXIMUM_GIB {
      WhereFrom(s, op, v);
      if v !in s.vols {
        var range := if op.Create? then op.req.range else op.ereq.range;
        FloorToGib(range, SizeOf(range).value);
      }
    }
  }

  /** One call: a volume that is there before and after has not shrunk. */
  lemma StepNeverShrinks(s: Store, op: Op, v: Volume, w: Volume)
    requires Wf(s) && (op.Create? ==> op.env.newId !in s.used)
    requires v in s.vols && w in Exec(s, op).vols && v.identity == w.identity
    ensures v.size <= w.size
  {
    WhereFrom(s, op, w);
  }

  /** An identity that has been used and is gone never comes back. */
  lemma {:induction false} GoneStaysGone(s: Store, ops: seq<Op>, id: string)
    requires Wf(s) && FreshIdentities(s, ops) && id in s.used && forall v :: v in s.vols ==> v.identity != id
    ensures forall v :: v in Run(s, ops).vols ==> v.identity != id
    decreases |ops|
  {
    if ops == [] {
    } else {
      WfStep(s, ops[0]);
      forall v | v in Exec(s, ops[0]).vols ensures v.identity != id { WhereFrom(s, ops[0], v); }
      GoneStaysGone(Exec(s, ops[0]), ops[1..], id);
    }
  }

  lemma {:induction false} SurvivesOrGone(s: Store, ops: seq<Op>, v: Volume, w: Volume)
    requires Wf(s) && FreshIdentities(s, ops) && v in s.vols && w in Run(s, ops).vols && v.identity == w.identity
    ensures v.size <= w.size
    decreases |ops|
  {
    if ops == [] {
    } else {
      var s1 := Exec(s, ops[0]);
      WfStep(s, ops[0]);
      if u :| u in s1.vols && u.identity == v.identity {
        StepNeverShrinks(s, ops[0], v, u);
        SurvivesOrGone(s1, ops[1..], u, w);
      } else {
        GoneStaysGone(s1, ops[1..], v.identity);
      }
    }
  }

  /** In no run does a volume shrink, and sizes stay within 16384 GiB, so that converting a
      stored size to bytes never overflows; and they stay at least 1 GiB when no create request
      has both bounds set with a requirement below 1 GiB. */
  lemma {:induction false} SizesOverRuns(s: Store, ops: seq<Op>, low: int)
    requires Wf(s) && FreshIdentities(s, ops) && SizesWithin(s, low) && (low == 0 || low == 1)
    requires low == 1 ==> forall op :: op in ops && op.Create? ==> !SmallWithLimit(op.req.range)
    ensures Wf(Run(s, ops)) && SizesWithin(Run(s, ops), low) && s.used <= Run(s, ops).used
    ensures forall v :: v in Run(s, ops).vols ==> BytesOf(v.size) == v.size * GIB
    ensures forall v, w :: v in s.vols && w in Run(s, ops).vols && v.identity == w.identity ==> v.size <= w.size
    decreases |ops|
  {
    if ops == [] {
      forall v, w | v in s.vols && w in s.vols && v.identity == w.identity ensures v == w { }
    } else {
      var s1 := Exec(s, ops[0]);
      WfStep(s, ops[0]);
      StepKeepsSizes(s, ops[0], low);
      SizesOverRuns(s1, ops[1..], low);
      forall v, w | v in s.vols && w in Run(s, ops).vols && v.identity == w.identity ensures v.size <= w.size {
        SurvivesOrGone(s, ops, v, w);
      }
    }
  }

  /** A successful expand leaves the larger of the old size and the floored request, reports
      exactly the stored bytes, and touches no other volume; the node is told not to expand
      exactly when a block volume has grown. */
  lemma ExpandExact(s: Store, req: ExpandRequest, env: ExpandEnv)
    requires SizesWithin(s, 0) && AfterExpand(s, req, env).1.Ok?
    ensures var (s', r) := AfterExpand(s, req, env);
            var i := Find(s.vols, req.volumeId).value;
            var gib := SizeOf(req.range).value / GIB;
            i < |s.vols| == |s'.vols|
            && s'.vols[i].size == (if s.vols[i].size < gib then gib else s.vols[i].size)
            && r.value.capacity == s'.vols[i].size * GIB
            && (!r.value.nodeExpansion <==> req.block && s'.vols[i].size > s.vols[i].size)
            && forall j :: 0 <= j < |s.vols| && j != i ==> s'.vols[j] == s.vols[j]
  {
    FloorToGib(req.range, SizeOf(req.range).value);
    var i := Find(s.vols, req.volumeId).value;
    assert s.vols[i] in s.vols;
  }

  lemma FindByIdentity(vols: seq<Volume>, id: string)
    requires exists v :: v in vols && v.identity == id
    ensures Find(vols, id).Some? && vols[Find(vols, id).value].identity == id
  {
    var k :| 0 <= k < |vols| && vols[k].identity == id;
    assert FirstIndex(vols, (v: Volume) => v.identity == id).Some?;
  }

  lemma RemoveAt(s: Store, i: nat)
    requires Wf(s) && i < |s.vols|
    ensures forall v :: v in s.vols[..i] + s.vols[i + 1..] <==> v in s.vols && v.identity != s.vols[i].identity
  {
    var rest := s.vols[..i] + s.vols[i + 1..];
    assert forall j :: 0 <= j < |rest| ==> rest[j] == s.vols[if j < i then j else j + 1];
    forall v | v in s.vols && v.identity != s.vols[i].identity ensures v in rest {
      var j :| 0 <= j < |s.vols| && s.vols[j] == v;
      assert v == rest[if j < i then j else j - 1];
    }
  }

  /** When no volume has the identity, a delete changes nothing if and only if it takes no effect
      or no volume has the identity as its name. */
  lemma DeleteKeepsIff(s: Store, id: string, o: Outcome)
    requires id != "" && forall v :: v in s.vols ==> v.identity != id
    ensures AfterDelete(s, id, o).0 == s <==> (o == Good || o == FailLate ==> forall v :: v in s.vols ==> v.name != id)
  {
    var found := Find(s.vols, id);
    if found.Some? {
      assert s.vols[found.value] in s.vols;
      assert |s.vols[..found.value] + s.vols[found.value + 1..]| == |s.vols| - 1;
    } else {
      forall v | v in s.vols ensures v.name != id {
        var i :| 0 <= i < |s.vols| && s.vols[i] == v;
      }
    }
  }

  /** Deleting by identity removes that volume and no other. A repeat that takes effect, reported
      or not, changes nothing if and only if no volume that is left has the identity as its name. */
  lemma DeleteExact(s: Store, id: string)
    requires Wf(s) && id != "" && exists v :: v in s.vols && v.identity == id
    ensures var (s', r) := AfterDelete(s, id, Good);
            && r == Ok(()) && s'.used == s.used
            && (forall v :: v in s'.vols <==> v in s.vols && v.identity != id)
            && forall o :: AfterDelete(s', id, o).0 == s'
                           <==> (o == Good || o == FailLate ==> forall v :: v in s'.vols ==> v.name != id)
  {
    FindByIdentity(s.vols, id);
    RemoveAt(s, Find(s.vols, id).value);
    hide Wf;
    var s' := AfterDelete(s, id, Good).0;
    forall o ensures AfterDelete(s', id, o).0 == s'
                     <==> (o == Good || o == FailLate ==> forall v :: v in s'.vols ==> v.name != id)
    {
      DeleteKeepsIff(s', id, o);
    }
  }

  /** Deleting the identity of one of two volumes twice deletes both, if it is the other's name. */
  lemma DeleteRepeats()
    ensures var a, b := Volume("vol-1", "data", 1, [], "available"), Volume("vol-2", "vol-1", 1, [], "available");
            var (s1, first) := AfterDelete(Store([a, b], {"vol-1", "vol-2"}), "vol-1", Good);
            var (s2, second) := AfterDelete(s1, "vol-1", Good);
            s1.vols == [b] && s2.vols == [] && first == Ok(()) && second == Ok(())
  {
    var a, b := Volume("vol-1", "data", 1, [], "available"), Volume("vol-2", "vol-1", 1, [], "available");
    assert "vol-1"[4] == '1' && "vol-2"[4] == '2';
    assert Find([a, b], "vol-1") == Some(0);
    assert [a, b][..0] + [a, b][1..] == [b];
    assert Find([b], "vol-1") == Some(0);
  }

  /** A delete answers success if and only if the id is not empty and the API deleted the volume or
      found none; it takes effect if the API did it, even when that is reported as an error. */
  lemma DeleteAnswers(s: Store, id: string, o: Outcome)
    ensures var (s', r) := AfterDelete(s, id, o);
            && (r.Ok? <==> id != "" && (o == Good || o == NotFoundError))
            && (r.Err? ==> r == Err(if id == "" then InvalidArgument else Unknown))
            && (o == Fail || o == NotFoundError || id == "" ==> s' == s)
            && (o == FailLate ==> s' == AfterDelete(s, id, Good).0)
  {
  }

  // ----- what CreateVolume and ControllerExpandVolume answer -----

  /** The request can be served in this region. */
  predicate WellFormed(req: CreateRequest) {
    req.name != "" && req.capabilitiesOk && SizeOf(req.range).Ok? && req.accessible
  }

  /** The volume type is known, and so is the snapshot if one is to be restored. */
  predicate Creatable(req: CreateRequest, env: CreateEnv) {
    env.volumeType.Ok? && (req.restore.Some? ==> req.restore.value != "" && env.snapshot.Value?)
  }

  /** What a request looks for: the volume-identity parameter or, without that, the name. */
  function Sought(req: CreateRequest): string {
    if req.identityParameter != "" then req.identityParameter else req.name
  }

  /** A volume that a request can find. */
  predicate Keyed(req: CreateRequest, v: Volume) { v.identity == Sought(req) || v.name == Sought(req) }

  lemma KeyFinds(vols: seq<Volume>, req: CreateRequest)
    ensures Find(vols, KeyOf(req)).None? <==> forall v :: v in vols ==> !Keyed(req, v)
    ensures Find(vols, KeyOf(req)).Some? ==>
              var v := vols[Find(vols, KeyOf(req)).value];
              Keyed(req, v) && (v.identity == Sought(req) || forall w :: w in vols ==> w.identity != Sought(req))
  {
    var found := Find(vols, KeyOf(req));
    assert KeyOf(req) == Sought(req);
    if found.None? {
      forall v | v in vols ensures !Keyed(req, v) {
        var i :| 0 <= i < |vols| && vols[i] == v;
      }
    } else {
      assert vols[found.value] in vols;
    }
  }

  /** With a free key: a volume is created if and only if the request is well formed and the API
      creates it, even when that is reported as an error; it is one volume more, unattached, with
      the requested name, the new identity, and less than one GiB below the size; and the answer
      is success, with that identity and size, if and only if the API reported success. */
  lemma CreateFree(s: Store, req: CreateRequest, env: CreateEnv)
    requires forall v :: v in s.vols ==> !Keyed(req, v)
    ensures var (s', r) := AfterCreate(s, req, env);
            var asked := WellFormed(req) && env.get == Good && Creatable(req, env);
            && (|s'.vols| == |s.vols| + 1 <==> asked && (env.create == Good || env.create == FailLate))
            && (|s'.vols| != |s.vols| + 1 ==> s' == s)
            && (r.Ok? <==> asked && env.create == Good)
            && (r.Ok? ==> r.value.volumeId == env.newId && r.value.capacity == SizeOf(req.range).value)
            && (|s'.vols| == |s.vols| + 1 ==>
                  var made, size := s'.vols[|s.vols|], SizeOf(req.range).value;
                  && s'.vols[..|s.vols|] == s.vols && s'.used == s.used + {env.newId}
                  && made.name == req.name && made.identity == env.newId && made.attachments == []
                  && size - GIB < made.size * GIB <= size)
  {
    KeyFinds(s.vols, req);
    hide SizeOf, Find, KeyOf;
  }

  /** With a volume under the key nothing is created: the answer is that volume if and only if its
      bytes are the computed size, and AlreadyExists otherwise. */
  lemma CreateFound(s: Store, req: CreateRequest, env: CreateEnv)
    requires SizesWithin(s, 0) && WellFormed(req) && env.get == Good && exists v :: v in s.vols && Keyed(req, v)
    ensures var (s', r) := AfterCreate(s, req, env);
            && s' == s && (r.Ok? || r == Err(AlreadyExists))
            && exists v :: v in s.vols && Keyed(req, v)
                           && (v.identity == Sought(req) || forall w :: w in s.vols ==> w.identity != Sought(req))
                           && (r.Ok? <==> v.size * GIB == SizeOf(req.range).value)
                           && (r.Ok? ==> r.value.volumeId == v.identity && r.value.capacity == v.size * GIB)
  {
    KeyFinds(s.vols, req);
    var v := s.vols[Find(s.vols, KeyOf(req)).value];
    hide SizeOf, Find, KeyOf;
    assert v in s.vols && Keyed(req, v);
  }

  /** Which error a refused request gets, and that a refused request creates nothing. */
  lemma CreateRefuses(s: Store, req: CreateRequest, env: CreateEnv)
    requires !WellFormed(req) || env.get != Good
    ensures var (s', r) := AfterCreate(s, req, env);
            && s' == s
            && r == Err(if req.name == "" || !req.capabilitiesOk then InvalidArgument
                        else if SizeOf(req.range).Err? then OutOfRange
                        else if !req.accessible then ResourceExhausted else Internal)
  {
  }

  /** Every success names a volume that the new store holds under that identity, and
      that is less than one GiB smaller than what is answered, the computed size. */
  lemma CreateAnswersStored(s: Store, req: CreateRequest, env: CreateEnv)
    requires SizesWithin(s, 0) && AfterCreate(s, req, env).1.Ok?
    ensures var (s', r) := AfterCreate(s, req, env);
            && r.value.capacity == SizeOf(req.range).value
            && exists v :: v in s'.vols && v.identity == r.value.volumeId
                           && r.value.capacity - GIB < v.size * GIB <= r.value.capacity
  {
    if !WellFormed(req) || env.get != Good { CreateRefuses(s, req, env); }
    hide AfterCreate, SizeOf;
    if v :| v in s.vols && Keyed(req, v) {
      CreateFound(s, req, env);
      hide Keyed;
    } else {
      CreateFree(s, req, env);
      var s' := AfterCreate(s, req, env).0;
      assert s'.vols[|s.vols|] in s'.vols;
    }
  }

  /** Which error the creation itself ends with: the volume type's; InvalidArgument for an empty
      snapshot id; NotFound for a missing one, found missing before or by the creation. */
  lemma CreateFails(s: Store, req: CreateRequest, env: CreateEnv)
    requires WellFormed(req) && env.get == Good && forall v :: v in s.vols ==> !Keyed(req, v)
    requires AfterCreate(s, req, env).1.Err?
    ensures var code := AfterCreate(s, req, env).1.code;
            && (env.volumeType.Err? ==> code == env.volumeType.code)
            && (env.volumeType.Ok? ==>
                  && (code == InvalidArgument <==> req.restore == Some(""))
                  && (code == NotFound <==>
                        && req.restore.Some? && req.restore.value != ""
                        && (env.snapshot.Missing? || (env.snapshot.Value? && env.create == NotFoundError)))
                  && (code == InvalidArgument || code == NotFound || code == Internal))
  {
    KeyFinds(s.vols, req);
    hide SizeOf, Find, KeyOf;
  }

  /** An expand succeeds if and only if the id is not blank, the range is accepted, the volume can
      be read, and it is large enough already or the API grows it. A failed one leaves the store
      as it was, except that a growth reported as an error has happened. */
  lemma ExpandSucceedsIff(s: Store, req: ExpandRequest, env: ExpandEnv)
    ensures var (s', r) := AfterExpand(s, req, env);
            var found := Find(s.vols, req.volumeId);
            var readable := !Blank(req.volumeId) && SizeOf(req.range).Ok? && env.get == Good && found.Some?;
            && (r.Ok? <==> readable && (SizeOf(req.range).value / GIB <= s.vols[found.value].size || env.update == Good))
            && (r.Err? ==> r == Err(if Blank(req.volumeId) then InvalidArgument
                                    else if SizeOf(req.range).Err? then OutOfRange else Internal))
            && (r.Err? ==> if readable && env.update == FailLate then s' == AfterExpand(s, req, env.(update := Good)).0 else s' == s)
  {
    hide SizeOf, Find;
  }

  /** Blank ids are those of white space only. */
  lemma BlankIds(a: string, b: string, c: char)
    requires Blank(a) && Blank(b)
    ensures Blank("") && Blank(" \t\r\n") && Blank(a + b)
    ensures 'a' <= c <= 'z' || 'A' <= c <= 'Z' || '0' <= c <= '9' || c == '-' ==> !Blank(a + [c] + b)
  {
    assert (a + [c] + b)[|a|] == c;
  }

  // ----- retrying CreateVolume -----

  predicate Works(env: CreateEnv) {
    env.get == Good && env.volumeType.Ok? && env.snapshot.Value? && env.create == Good
  }

  /** The volume just created is found under its name and its identity, and under no other key
      that found nothing before. */
  lemma FindAfterAdd(s: Store, req: CreateRequest, size: int, newId: string, key: string)
    requires Find(s.vols, key).None?
    ensures var s' := AddVolume(s, req, size, newId);
            Find(s'.vols, key) == if key == req.name || key == newId then Some(|s.vols|) else None
  {
    var s' := AddVolume(s, req, size, newId);
    assert forall i :: 0 <= i < |s.vols| ==> s'.vols[i] == s.vols[i];
    assert s'.vols[|s.vols|].identity == newId && s'.vols[|s.vols|].name == req.name;
  }

  /** Immediately repeating a call that created a volume, even one that reported an error after
      creating it, on a working API: no second volume appears exactly when the lookup key is the
      volume's name or identity, as it is without the volume-identity parameter; and then the
      retry answers with that volume and the requested size exactly when the size is a whole
      number of GiB, and with AlreadyExists otherwise. */
  lemma RetryCreate(s: Store, req: CreateRequest, env: CreateEnv, env2: CreateEnv)
    requires AfterCreate(s, req, env).0 != s && Works(env2)
    ensures SizeOf(req.range).Ok?
    ensures var (s1, first) := AfterCreate(s, req, env);
            var (s2, second) := AfterCreate(s1, req, env2);
            var size := SizeOf(req.range).value;
            && (first.Ok? ==> first == Ok(Created(env.newId, size)))
            && (s2.vols == s1.vols <==> KeyOf(req) == req.name || KeyOf(req) == env.newId)
            && (s2.vols == s1.vols ==>
                  second == if size % GIB == 0 then Ok(Created(env.newId, size)) else Err(AlreadyExists))
  {
    var size := SizeOf(req.range).value;
    CreateAppends(s, req, env);
    FindAfterAdd(s, req, size, env.newId, KeyOf(req));
    FloorToGib(req.range, size);
    var s1 := AfterCreate(s, req, env).0;
    assert |AddVolume(s1, req, size, env2.newId).vols| == |s1.vols| + 1;
  }

  ghost predicate NamesUnique(s: Store) {
    forall i, j :: 0 <= i < j < |s.vols| ==> s.vols[i].name != s.vols[j].name
  }

  /** On a working API a well-formed create request makes two volumes share a name exactly when
      its volume-identity parameter hides an existing volume of that name. */
  lemma CreateKeepsNamesIff(s: Store, req: CreateRequest, env: CreateEnv)
    requires NamesUnique(s) && Works(env) && req.name != "" && req.capabilitiesOk && req.accessible
    requires SizeOf(req.range).Ok? && RestoreCheck(req, env).Ok?
    ensures NamesUnique(AfterCreate(s, req, env).0) <==>
              Find(s.vols, KeyOf(req)).Some? || forall v :: v in s.vols ==> v.name != req.name
  {
    var s' := AfterCreate(s, req, env).0;
    if Find(s.vols, KeyOf(req)).None? {
      assert s'.vols[|s.vols|].name == req.name;
      assert forall i :: 0 <= i < |s.vols| ==> s'.vols[i] == s.vols[i];
    }
  }

  /** A create with the volume-identity parameter set adds a second volume named "data". */
  lemma CreateDoubles()
    ensures var a := Volume("vol-1", "data", 1, [], "available");
            var req := CreateRequest("data", true, None, true, "other", None);
            var (s', r) := AfterCreate(Store([a], {"vol-1"}), req, CreateEnv(Good, Ok(()), Value(()), Good, "vol-2"));
            r == Ok(Created("vol-2", DEFAULT_SIZE)) && s'.vols == [a, Volume("vol-2", "data", 16, [], "available")]
  {
    var a := Volume("vol-1", "data", 1, [], "available");
    assert |"other"| == |"vol-1"| && "other"[0] == 'o' && "vol-1"[0] == 'v' && |"data"| == 4;
    assert Find([a], "other").None?;
  }

  lemma NamesStep(s: Store, op: Op)
    requires NamesUnique(s) && (op.Create? ==> op.req.identityParameter == "")
    ensures NamesUnique(Exec(s, op))
  {
    hide SizeOf, Find, RestoreCheck;
    if op.Create? {
      CreateAppends(s, op.req, op.env);
      hide AfterCreate;
    }
  }

  /** Runs without the volume-identity parameter keep volume names unique. */
  lemma {:induction false} NamesOverRuns(s: Store, ops: seq<Op>)
    requires NamesUnique(s) && forall op :: op in ops && op.Create? ==> op.req.identityParameter == ""
    ensures NamesUnique(Run(s, ops))
    decreases |ops|
  {
    if ops == [] {
    } else {
      NamesStep(s, ops[0]);
      NamesOverRuns(Exec(s, ops[0]), ops[1..]);
    }
  }
}
