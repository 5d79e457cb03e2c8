/** ListVolumes and ListSnapshots: a page of identities, looked up in a map of records. */
module Listing {
  import opened Wrappers
  import opened Iaas
  import opened Capacity
  import opened Lex
  import opened Pagination
  import opened PaginationRuns
  import Snapshots

  type Snapshot = Snapshots.Snapshot
  type CsiSnapshot = Snapshots.CsiSnapshot

  function Identities<T>(records: seq<T>, key: T -> string): (r: seq<string>)
    ensures |r| == |records| && forall i :: 0 <= i < |r| ==> r[i] == key(records[i])
  {
    seq(|records|, i requires 0 <= i < |records| => key(records[i]))
  }

  lemma IdentitiesSnoc<T>(init: seq<T>, last: T, key: T -> string)
    ensures Identities(init + [last], key) == Identities(init, key) + [key(last)]
  {
  }

  /** The records by identity; of several with one identity the last. */
  function Index<T>(records: seq<T>, key: T -> string): (m: map<string, T>)
    ensures forall id :: id in m <==> id in Identities(records, key)
    ensures forall id :: id in m ==> key(m[id]) == id && m[id] in records
  {
    if records == [] then map[]
    else
      var init, last := records[..|records| - 1], records[|records| - 1];
      IdentitiesSnoc(init, last, key);
      assert records == init + [last];
      Index(init, key)[key(last) := last]
  }

  /** With distinct identities every record is found under its own. */
  lemma IndexFinds<T>(records: seq<T>, key: T -> string, i: nat)
    requires Distinct(Identities(records, key)) && i < |records|
    ensures key(records[i]) in Index(records, key) && Index(records, key)[key(records[i])] == records[i]
  {
    hide Index;
    var ids := Identities(records, key);
    assert ids[i] in ids;
    var found := Index(records, key)[ids[i]];
    var j :| 0 <= j < |records| && records[j] == found;
    assert ids[j] == key(found) == ids[i];
    assert i == j;
  }

  /** What a page of identities shows. */
  function EntriesFor<T, E>(records: seq<T>, key: T -> string, show: T -> E, ids: seq<string>): (r: seq<E>)
    requires forall id :: id in ids ==> id in Identities(records, key)
    ensures |r| == |ids|
  {
    seq(|ids|, i requires 0 <= i < |ids| => show(Index(records, key)[ids[i]]))
  }

  /** Each entry shows a record of its identity. */
  lemma EntryOwn<T, E>(records: seq<T>, key: T -> string, show: T -> E, ids: seq<string>, n: nat) returns (i: nat)
    requires n < |ids| && forall id :: id in ids ==> id in Identities(records, key)
    ensures i < |records| && key(records[i]) == ids[n] && EntriesFor(records, key, show, ids)[n] == show(records[i])
  {
    hide Index, Identities;
    assert ids[n] in ids;
    var record := Index(records, key)[ids[n]];
    i :| 0 <= i < |records| && records[i] == record;
  }

  lemma EntriesSnoc<T, E>(records: seq<T>, key: T -> string, show: T -> E, ids: seq<string>, n: nat)
    requires n < |ids| && forall id :: id in ids ==> id in Identities(records, key)
    ensures ids[n] in Index(records, key)
    ensures EntriesFor(records, key, show, ids[..n + 1])
         == EntriesFor(records, key, show, ids[..n]) + [show(Index(records, key)[ids[n]])]
  {
    hide Index, Identities;
    assert ids[n] in ids;
  }

  datatype Response<E> = Response(entries: seq<E>, nextToken: string)

  ghost predicate Answers<T, E>(records: seq<T>, key: T -> string, show: T -> E,
                                token: string, max: int, page: Result<Page>, r: Result<Response<E>>)
  {
    && IsPage(Identities(records, key), token, max, page)
    && (page.Err? ==> r == Err(page.code))
    && (page.Ok? ==>
          && (forall id :: id in Entries(page.value) ==> id in Identities(records, key))
          && r == Ok(Response(EntriesFor(records, key, show, Entries(page.value)), page.value.next)))
  }

  lemma PageListed(ids: seq<string>, token: string, max: int, p: Page)
    requires PageOf(ids, token, max, p)
    ensures forall id :: id in Entries(p) ==> id in ids
  {
    SameElements(p.ids, ids);
  }

  // ----- ListVolumes -----

  datatype VolumeEntry = VolumeEntry(volumeId: string, capacity: int, publishedNodes: seq<string>)

  function VolumeKey(v: Volume): string { v.identity }

  function ShowVolume(v: Volume): VolumeEntry { VolumeEntry(v.identity, BytesOf(v.size), v.attachments) }

  /** The conversion int32(x) of an unsigned integer. */
  function ToInt32(x: nat): (r: int32)
    ensures x < 0x8000_0000 ==> r as int == x
    ensures (x - r as int) % 0x1_0000_0000 == 0
  {
    var low := x % 0x1_0000_0000;
    if low < 0x8000_0000 then low as int32 else (low - 0x1_0000_0000) as int32
  }

  function EffectiveMax(maxEntries: int32, defaultPageSize: nat): int32 {
    if maxEntries == 0 && defaultPageSize > 0 then ToInt32(defaultPageSize) else maxEntries
  }

  predicate IsEntryOf(entry: VolumeEntry, id: string, v: Volume) {
    v.identity == id && entry.volumeId == id && entry.publishedNodes == v.attachments
    && (0 <= v.size <= MAXIMUM_GIB ==> entry.capacity == v.size * GIB)
  }

  ghost predicate ShowsOneOf(volumes: seq<Volume>, id: string, entry: VolumeEntry) {
    exists v :: v in volumes && IsEntryOf(entry, id, v)
  }

  /** The entries for a page of identities: for each the data of a listed volume of that identity,
      with its size in bytes. */
  ghost predicate ShowsVolumes(volumes: seq<Volume>, ids: seq<string>, entries: seq<VolumeEntry>) {
    |entries| == |ids| && forall n :: 0 <= n < |ids| ==> ShowsOneOf(volumes, ids[n], entries[n])
  }

  lemma VolumeShown(v: Volume)
    ensures IsEntryOf(ShowVolume(v), v.identity, v)
  {
  }

  lemma VolumesShown(volumes: seq<Volume>, ids: seq<string>, entries: seq<VolumeEntry>)
    requires forall id :: id in ids ==> id in Identities(volumes, VolumeKey)
    requires entries == EntriesFor(volumes, VolumeKey, ShowVolume, ids)
    ensures ShowsVolumes(volumes, ids, entries)
  {
    assert |entries| == |ids|;
    hide EntriesFor, Identities, ShowVolume;
    forall n | 0 <= n < |ids| ensures ShowsOneOf(volumes, ids[n], entries[n]) {
      var i := EntryOwn(volumes, VolumeKey, ShowVolume, ids, n);
      VolumeShown(volumes[i]);
      assert volumes[i] in volumes && IsEntryOf(entries[n], ids[n], volumes[i]);
    }
  }

  /** How many entries a page may have: the requested maximum, or the default page size without
      one; no bound if neither is given. */
  ghost predicate WithinMax(entries: nat, maxEntries: int32, defaultPageSize: nat) {
    && (maxEntries > 0 ==> entries <= maxEntries as int)
    && (maxEntries == 0 && 0 < defaultPageSize < 0x8000_0000 ==> entries <= defaultPageSize)
  }

  method CollectVolumes(volumes: seq<Volume>) returns (identities: seq<string>, byIdentity: map<string, Volume>)
    ensures identities == Identities(volumes, VolumeKey) && byIdentity == Index(volumes, VolumeKey)
  {
    identities, byIdentity := [], map[];
    for i := 0 to |volumes|
      invariant identities == Identities(volumes[..i], VolumeKey) && byIdentity == Index(volumes[..i], VolumeKey)
    {
      assert volumes[..i + 1] == volumes[..i] + [volumes[i]];
      identities := identities + [volumes[i].identity];
      byIdentity := byIdentity[volumes[i].identity := volumes[i]];
    }
    assert volumes[..|volumes|] == volumes;
  }

  method ShowVolumes(ghost volumes: seq<Volume>, byIdentity: map<string, Volume>, shown: seq<string>)
    returns (entries: seq<VolumeEntry>)
    requires byIdentity == Index(volumes, VolumeKey) && forall id :: id in shown ==> id in Identities(volumes, VolumeKey)
    ensures entries == EntriesFor(volumes, VolumeKey, ShowVolume, shown)
  {
    entries := [];
    for i := 0 to |shown|
      invariant entries == EntriesFor(volumes, VolumeKey, ShowVolume, shown[..i])
    {
      EntriesSnoc(volumes, VolumeKey, ShowVolume, shown, i);
      var vol := byIdentity[shown[i]];
      entries := entries + [VolumeEntry(vol.identity, BytesOf(vol.size), vol.attachments)];
    }
    assert shown[..|shown|] == shown;
  }

  /** `listed` is what the API's list call gives. */
  method ListVolumes(listed: Reply<seq<Volume>>, defaultPageSize: nat, startingToken: string, maxEntries: int32)
    returns (r: Result<Response<VolumeEntry>>, ghost page: Result<Page>)
    ensures !listed.Value? ==> r == Err(Internal)
    ensures listed.Value? ==> Answers(listed.value, VolumeKey, ShowVolume, startingToken,
                                      EffectiveMax(maxEntries, defaultPageSize) as int, page, r)
    ensures r.Ok? ==>
              && listed.Value? && page.Ok? && r.value.nextToken == page.value.next
              && ShowsVolumes(listed.value, Entries(page.value), r.value.entries)
              && WithinMax(|r.value.entries|, maxEntries, defaultPageSize)
  {
    page := Err(Internal);
    var max := maxEntries;
    if max == 0 && defaultPageSize > 0 { max := ToInt32(defaultPageSize); }
    if !listed.Value? { return Err(Internal), page; }
    var volumes := listed.value;
    var identities, volumesByIdentity := CollectVolumes(volumes);

    var paged := PaginateIdentities(identities, startingToken, max);
    page := paged;
    if paged.Err? { return Err(paged.code), paged; }
    var shown := paged.value.ids[paged.value.start..paged.value.end];
    PageListed(identities, startingToken, max as int, paged.value);
    var entries := ShowVolumes(volumes, volumesByIdentity, shown);
    VolumesShown(volumes, shown, entries);
    return Ok(Response(entries, paged.value.next)), paged;
  }

  // ----- ListSnapshots -----

  function SnapshotKey(s: Snapshot): string { s.identity }

  function ShowSnapshot(s: Snapshot): CsiSnapshot { Snapshots.ToCsi(s) }

  predicate IsSnapshotEntry(entry: CsiSnapshot, id: string, s: Snapshot) {
    s.identity == id && entry.id == id && (entry.ready <==> s.available)
    && entry.source == (if s.sourceVolume.Some? then s.sourceVolume.value.identity else "")
    && (s.sizeGib.None? ==> entry.sizeBytes == 0)
    && (s.sizeGib.Some? && 0 <= s.sizeGib.value <= MAXIMUM_GIB ==> entry.sizeBytes == s.sizeGib.value * GIB)
  }

  ghost predicate ShowsOneSnapshot(snapshots: seq<Snapshot>, id: string, entry: CsiSnapshot) {
    exists s :: s in snapshots && IsSnapshotEntry(entry, id, s)
  }

  /** The entries for a page of identities: for each the data of a listed snapshot of that identity,
      with its size in bytes, ready exactly if it is available. */
  ghost predicate ShowsSnapshots(snapshots: seq<Snapshot>, ids: seq<string>, entries: seq<CsiSnapshot>) {
    |entries| == |ids| && forall n :: 0 <= n < |ids| ==> ShowsOneSnapshot(snapshots, ids[n], entries[n])
  }

  lemma SnapshotShown(s: Snapshot)
    ensures IsSnapshotEntry(ShowSnapshot(s), s.identity, s)
  {
  }

  lemma SnapshotsShown(snapshots: seq<Snapshot>, ids: seq<string>, entries: seq<CsiSnapshot>)
    requires forall id :: id in ids ==> id in Identities(snapshots, SnapshotKey)
    requires entries == EntriesFor(snapshots, SnapshotKey, ShowSnapshot, ids)
    ensures ShowsSnapshots(snapshots, ids, entries)
  {
    assert |entries| == |ids|;
    hide EntriesFor, Identities, ShowSnapshot;
    forall n | 0 <= n < |ids| ensures ShowsOneSnapshot(snapshots, ids[n], entries[n]) {
      var i := EntryOwn(snapshots, SnapshotKey, ShowSnapshot, ids, n);
      SnapshotShown(snapshots[i]);
      assert snapshots[i] in snapshots && IsSnapshotEntry(entries[n], ids[n], snapshots[i]);
    }
  }

  method CollectSnapshots(snapshots: seq<Snapshot>) returns (identities: seq<string>, byIdentity: map<string, Snapshot>)
    ensures identities == Identities(snapshots, SnapshotKey) && byIdentity == Index(snapshots, SnapshotKey)
  {
    identities, byIdentity := [], map[];
    for i := 0 to |snapshots|
      invariant identities == Identities(snapshots[..i], SnapshotKey) && byIdentity == Index(snapshots[..i], SnapshotKey)
    {
      assert snapshots[..i + 1] == snapshots[..i] + [snapshots[i]];
      identities := identities + [snapshots[i].identity];
      byIdentity := byIdentity[snapshots[i].identity := snapshots[i]];
    }
    assert snapshots[..|snapshots|] == snapshots;
  }

  method ShowSnapshots(ghost snapshots: seq<Snapshot>, byIdentity: map<string, Snapshot>, shown: seq<string>)
    returns (entries: seq<CsiSnapshot>)
    requires byIdentity == Index(snapshots, SnapshotKey) && forall id :: id in shown ==> id in Identities(snapshots, SnapshotKey)
    ensures entries == EntriesFor(snapshots, SnapshotKey, ShowSnapshot, shown)
  {
    entries := [];
    for i := 0 to |shown|
      invariant entries == EntriesFor(snapshots, SnapshotKey, ShowSnapshot, shown[..i])
    {
      EntriesSnoc(snapshots, SnapshotKey, ShowSnapshot, shown, i);
      entries := entries + [Snapshots.ToCsi(byIdentity[shown[i]])];
    }
    assert shown[..|shown|] == shown;
  }

  /** `listed` is the filtered list; `one` the answer to GetSnapshot when an id is asked for. */
  method ListSnapshots(listed: Reply<seq<Snapshot>>, snapshotId: string, one: Reply<Snapshot>,
                       startingToken: string, maxEntries: int32)
    returns (r: Result<Response<CsiSnapshot>>, ghost page: Result<Page>)
    ensures snapshotId != "" ==> r == if one.Value? then Ok(Response([ShowSnapshot(one.value)], "")) else Err(Internal)
    ensures snapshotId == "" && !listed.Value? ==> r == Err(Internal)
    ensures snapshotId == "" && listed.Value? ==>
              Answers(listed.value, SnapshotKey, ShowSnapshot, startingToken, maxEntries as int, page, r)
    ensures snapshotId != "" && r.Ok? ==>
              one.Value? && r.value.nextToken == "" && ShowsSnapshots([one.value], [one.value.identity], r.value.entries)
    ensures snapshotId == "" && r.Ok? ==>
              && listed.Value? && page.Ok? && r.value.nextToken == page.value.next
              && ShowsSnapshots(listed.value, Entries(page.value), r.value.entries)
              && WithinMax(|r.value.entries|, maxEntries, 0)
  {
    page := Err(Internal);
    if snapshotId != "" {
      if !one.Value? { return Err(Internal), page; }
      assert one.value in [one.value] && IsSnapshotEntry(Snapshots.ToCsi(one.value), one.value.identity, one.value);
      return Ok(Response([Snapshots.ToCsi(one.value)], "")), page;
    }
    if !listed.Value? { return Err(Internal), page; }
    var snapshots := listed.value;
    var identities, snapshotsByIdentity := CollectSnapshots(snapshots);

    var paged := PaginateIdentities(identities, startingToken, maxEntries);
    page := paged;
    if paged.Err? { return Err(paged.code), paged; }
    var shown := paged.value.ids[paged.value.start..paged.value.end];
    PageListed(identities, startingToken, maxEntries as int, paged.value);
    var entries := ShowSnapshots(snapshots, snapshotsByIdentity, shown);
    SnapshotsShown(snapshots, shown, entries);
    return Ok(Response(entries, paged.value.next)), paged;
  }

  // ----- all pages of an unchanged collection -----

  /** The responses of the calls, joined. */
  ghost function AllEntries<T, E>(records: seq<T>, key: T -> string, show: T -> E, token: string, calls: seq<Fetch>): (r: seq<E>)
    requires Follows(token, calls) && Fixed(calls, Identities(records, key), calls[0].max)
    decreases |calls|
  {
    var p := calls[0].page;
    PageListed(calls[0].ids, token, calls[0].max, p);
    EntriesFor(records, key, show, Entries(p)) +
    if |calls| == 1 then [] else AllEntries(records, key, show, p.next, calls[1..])
  }

  lemma {:induction false} AllEntriesAt<T, E>(records: seq<T>, key: T -> string, show: T -> E, token: string, calls: seq<Fetch>)
    requires Follows(token, calls) && Fixed(calls, Identities(records, key), calls[0].max)
    ensures var listed := Listed(token, calls);
            && (forall id :: id in listed ==> id in Identities(records, key))
            && AllEntries(records, key, show, token, calls) == EntriesFor(records, key, show, listed)
    decreases |calls|
  {
    var p := calls[0].page;
    PageListed(calls[0].ids, token, calls[0].max, p);
    if |calls| == 1 {
    } else {
      AllEntriesAt(records, key, show, p.next, calls[1..]);
    }
  }

  /** Listing an unchanged collection of records with distinct identities to the end, in pages
      of k, shows every record exactly once, with its own data, in the order of identities. */
  lemma ListsEachOnce<T, E>(records: seq<T>, key: T -> string, show: T -> E, k: nat, calls: seq<Fetch>)
    requires Distinct(Identities(records, key)) && k > 0
    requires Follows("", calls) && Fixed(calls, Identities(records, key), k)
    ensures var all := AllEntries(records, key, show, "", calls); var listed := Listed("", calls);
            && |all| == |listed| == |records| && StrictlySorted(listed)
            && (forall i :: 0 <= i < |records| ==>
                  exists n :: 0 <= n < |all| && listed[n] == key(records[i]) && all[n] == show(records[i]))
  {
    var ids := Identities(records, key);
    FixedCollection(ids, k, calls);
    AllEntriesAt(records, key, show, "", calls);
    PaginationUnderChange(calls);
    var listed := Listed("", calls);
    SameElements(listed, ids);
    forall i | 0 <= i < |records|
      ensures exists n :: 0 <= n < |listed| && listed[n] == key(records[i])
                          && AllEntries(records, key, show, "", calls)[n] == show(records[i])
    {
      assert ids[i] in listed;
      var n :| 0 <= n < |listed| && listed[n] == ids[i];
      IndexFinds(records, key, i);
    }
  }

  lemma EntriesListed<T, E>(records: seq<T>, key: T -> string, show: T -> E, k: nat, calls: seq<Fetch>)
    returns (listed: seq<string>)
    requires (forall i, j :: 0 <= i < j < |records| ==> key(records[i]) != key(records[j])) && k > 0
    requires Follows("", calls) && Fixed(calls, Identities(records, key), k)
    ensures forall id :: id in listed ==> id in Identities(records, key)
    ensures Distinct(listed) && |listed| == |records|
    ensures AllEntries(records, key, show, "", calls) == EntriesFor(records, key, show, listed)
    ensures forall i :: 0 <= i < |records| ==> show(records[i]) in AllEntries(records, key, show, "", calls)
  {
    listed := Listed("", calls);
    assert Distinct(Identities(records, key));
    ListsEachOnce(records, key, show, k, calls);
    AllEntriesAt(records, key, show, "", calls);
    StrictlySortedDistinct(listed);
    hide *;
    var all := AllEntries(records, key, show, "", calls);
    forall i | 0 <= i < |records| ensures show(records[i]) in all {
      var n :| 0 <= n < |all| && listed[n] == key(records[i]) && all[n] == show(records[i]);
    }
  }

  lemma DistinctAt(ids: seq<string>)
    requires Distinct(ids)
    ensures forall n, m :: 0 <= n < m < |ids| ==> ids[n] != ids[m]
  {
  }

  lemma VolumeIds(volumes: seq<Volume>, ids: seq<string>, entries: seq<VolumeEntry>)
    requires ShowsVolumes(volumes, ids, entries) && Distinct(ids)
    ensures forall n, m :: 0 <= n < m < |entries| ==> entries[n].volumeId != entries[m].volumeId
  {
    hide Distinct;
    forall n | 0 <= n < |ids| ensures entries[n].volumeId == ids[n] {
      assert ShowsOneOf(volumes, ids[n], entries[n]);
    }
    DistinctAt(ids);
  }

  /** Listing volumes of distinct identities to the end shows each exactly once, with its own
      identity, its own size in bytes, and the machines it is attached to. */
  lemma EveryVolumeListed(volumes: seq<Volume>, k: nat, calls: seq<Fetch>)
    requires forall i, j :: 0 <= i < j < |volumes| ==> volumes[i].identity != volumes[j].identity
    requires (forall v :: v in volumes ==> 0 <= v.size <= MAXIMUM_GIB) && k > 0
    requires Follows("", calls) && Fixed(calls, Identities(volumes, VolumeKey), k)
    ensures var all := AllEntries(volumes, VolumeKey, ShowVolume, "", calls);
            && |all| == |volumes|
            && (forall n, m :: 0 <= n < m < |all| ==> all[n].volumeId != all[m].volumeId)
            && (forall i :: 0 <= i < |volumes| ==>
                  VolumeEntry(volumes[i].identity, volumes[i].size * GIB, volumes[i].attachments) in all)
  {
    var listed := EntriesListed(volumes, VolumeKey, ShowVolume, k, calls);
    var all := AllEntries(volumes, VolumeKey, ShowVolume, "", calls);
    VolumesShown(volumes, listed, all);
    forall i | 0 <= i < |volumes| ensures ShowVolume(volumes[i]) ==
                                            VolumeEntry(volumes[i].identity, volumes[i].size * GIB, volumes[i].attachments) {
      VolumeShown(volumes[i]);
      assert volumes[i] in volumes;
    }
    hide *;
    VolumeIds(volumes, listed, all);
  }

  lemma SnapshotIds(snapshots: seq<Snapshot>, ids: seq<string>, entries: seq<CsiSnapshot>)
    requires ShowsSnapshots(snapshots, ids, entries) && Distinct(ids)
    ensures forall n, m :: 0 <= n < m < |entries| ==> entries[n].id != entries[m].id
  {
    hide Distinct;
    forall n | 0 <= n < |ids| ensures entries[n].id == ids[n] {
      assert ShowsOneSnapshot(snapshots, ids[n], entries[n]);
    }
    DistinctAt(ids);
  }

  /** One of the entries shows the snapshot. */
  ghost predicate IsShown(entries: seq<CsiSnapshot>, s: Snapshot) {
    exists entry :: entry in entries && IsSnapshotEntry(entry, s.identity, s)
  }

  /** The same of snapshots. */
  lemma EverySnapshotListed(snapshots: seq<Snapshot>, k: nat, calls: seq<Fetch>)
    requires forall i, j :: 0 <= i < j < |snapshots| ==> snapshots[i].identity != snapshots[j].identity
    requires Follows("", calls) && Fixed(calls, Identities(snapshots, SnapshotKey), k) && k > 0
    ensures var all := AllEntries(snapshots, SnapshotKey, ShowSnapshot, "", calls);
            && |all| == |snapshots|
            && (forall n, m :: 0 <= n < m < |all| ==> all[n].id != all[m].id)
            && (forall i :: 0 <= i < |snapshots| ==> IsShown(all, snapshots[i]))
  {
    var listed := EntriesListed(snapshots, SnapshotKey, ShowSnapshot, k, calls);
    var all := AllEntries(snapshots, SnapshotKey, ShowSnapshot, "", calls);
    SnapshotsShown(snapshots, listed, all);
    SnapshotIds(snapshots, listed, all);
    hide AllEntries, EntriesFor, ShowSnapshot, Follows, Fixed, Identities, ShowsSnapshots;
    forall i | 0 <= i < |snapshots| ensures IsShown(all, snapshots[i]) {
      SnapshotShown(snapshots[i]);
    }
  }
}
