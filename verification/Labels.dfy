/** Custom labels: parsing the command-line form, and merging into the driver's own labels. */
module Labels {
  import opened Wrappers
  import opened Text

  type Bindings = map<string, string>

  // ----- parseCustomLabels -----

  /** The binding an item stands for: exactly one '='. */
  function Binding(item: string): Option<(string, string)> {
    var parts := Split(item, '=');
    if |parts| == 2 then Some((parts[0], parts[1])) else None
  }

  /** Item i is the last well-formed binding of k. */
  ghost predicate LastBinding(items: seq<string>, k: string, i: int) {
    0 <= i < |items| && Binding(items[i]).Some? && Binding(items[i]).value.0 == k &&
    forall j :: i < j < |items| && Binding(items[j]).Some? ==> Binding(items[j]).value.0 != k
  }

  /** The labels are the last well-formed binding of each key; malformed items count for nothing. */
  ghost predicate Binds(items: seq<string>, labels: Bindings) {
    && (forall k :: k in labels ==> exists i :: LastBinding(items, k, i) && labels[k] == Binding(items[i]).value.1)
    && (forall i :: 0 <= i < |items| && Binding(items[i]).Some? ==> Binding(items[i]).value.0 in labels)
  }

  lemma BindsUnique(items: seq<string>, a: Bindings, b: Bindings)
    requires Binds(items, a) && Binds(items, b)
    ensures a == b
  {
    forall k | k in a ensures k in b && a[k] == b[k] {
      var i :| LastBinding(items, k, i) && a[k] == Binding(items[i]).value.1;
      var j :| LastBinding(items, k, j) && b[k] == Binding(items[j]).value.1;
    }
    forall k | k in b ensures k in a {
      var j :| LastBinding(items, k, j) && b[k] == Binding(items[j]).value.1;
    }
  }

  lemma BindsSnoc(items: seq<string>, labels: Bindings, item: string)
    requires Binds(items, labels)
    ensures Binds(items + [item], if Binding(item).None? then labels
                                  else labels[Binding(item).value.0 := Binding(item).value.1])
  {
    var longer := items + [item];
    var b := Binding(item);
    var labels' := if b.None? then labels else labels[b.value.0 := b.value.1];
    assert longer[|items|] == item;
    forall k | k in labels' ensures exists i :: LastBinding(longer, k, i) && labels'[k] == Binding(longer[i]).value.1 {
      if b.Some? && k == b.value.0 {
        assert LastBinding(longer, k, |items|);
      } else {
        var i :| LastBinding(items, k, i) && labels[k] == Binding(items[i]).value.1;
        assert LastBinding(longer, k, i);
      }
    }
  }

  method ParseCustomLabels(customLabels: string) returns (labels: Bindings)
    ensures customLabels == "" ==> labels == map[]
    ensures Binds(Split(customLabels, ','), labels)
  {
    if customLabels == "" {
      assert Binding("").None?;
      return map[];
    }
    labels := map[];
    var items := Split(customLabels, ',');
    for i := 0 to |items|
      invariant Binds(items[..i], labels)
    {
      BindsSnoc(items[..i], labels, items[i]);
      assert items[..i + 1] == items[..i] + [items[i]];
      var parts := Split(items[i], '=');
      if |parts| == 2 { labels := labels[parts[0] := parts[1]]; }
    }
    assert items[..|items|] == items;
  }

  // ----- the round trip -----

  /** The entries listed are exactly those of the map, each once, in some order. */
  ghost predicate Lists(entries: seq<(string, string)>, m: Bindings) {
    && (forall i, j :: 0 <= i < j < |entries| ==> entries[i].0 != entries[j].0)
    && (forall i :: 0 <= i < |entries| ==> entries[i].0 in m && m[entries[i].0] == entries[i].1)
    && (forall k :: k in m ==> exists i :: 0 <= i < |entries| && entries[i].0 == k)
  }

  function PrintEntry(e: (string, string)): string { e.0 + "=" + e.1 }

  function PrintAll(entries: seq<(string, string)>): (items: seq<string>)
    ensures |items| == |entries| && forall i :: 0 <= i < |items| ==> items[i] == PrintEntry(entries[i])
  {
    seq(|entries|, i requires 0 <= i < |entries| => PrintEntry(entries[i]))
  }

  function Print(entries: seq<(string, string)>): string { Join(PrintAll(entries), ',') }

  predicate CleanText(s: string) { ',' !in s && '=' !in s }

  ghost predicate Clean(m: Bindings) { forall k :: k in m ==> CleanText(k) && CleanText(m[k]) }

  lemma BindingOfPrinted(e: (string, string))
    requires CleanText(e.0) && CleanText(e.1)
    ensures Binding(PrintEntry(e)) == Some(e) && ',' !in PrintEntry(e)
  {
    SplitJoin([e.0, e.1], '=');
    assert Join([e.0, e.1], '=') == PrintEntry(e) by {
      assert [e.0, e.1][1..] == [e.1];
      assert e.0 + ['='] + e.1 == e.0 + "=" + e.1;
    }
  }

  /** Every binding of the split text is free of separators. */
  lemma BindingIsClean(text: string, i: nat)
    requires i < |Split(text, ',')| && Binding(Split(text, ',')[i]).Some?
    ensures var b := Binding(Split(text, ',')[i]).value; CleanText(b.0) && CleanText(b.1)
  {
    var item := Split(text, ',')[i];
    var parts := Split(item, '=');
    JoinSplit(item, '=');
    assert parts[1..] == [parts[1]];
    assert item == parts[0] + ['='] + parts[1];
    assert ',' !in item;
  }

  lemma PrintedBinds(m: Bindings, entries: seq<(string, string)>, items: seq<string>)
    requires Lists(entries, m) && |items| == |entries|
    requires forall i :: 0 <= i < |entries| ==> Binding(items[i]) == Some(entries[i])
    ensures Binds(items, m)
  {
    hide Binding;
    forall k | k in m ensures exists i :: LastBinding(items, k, i) && m[k] == Binding(items[i]).value.1 {
      var i :| 0 <= i < |entries| && entries[i].0 == k;
      assert LastBinding(items, k, i);
    }
  }

  lemma RoundTrip(m: Bindings, entries: seq<(string, string)>, labels: Bindings)
    requires Lists(entries, m) && entries != [] && Clean(m) && Binds(Split(Print(entries), ','), labels)
    ensures labels == m
  {
    var items := PrintAll(entries);
    forall i | 0 <= i < |entries| ensures Binding(items[i]) == Some(entries[i]) && ',' !in items[i] {
      BindingOfPrinted(entries[i]);
    }
    hide Binding, Binds, Lists, Clean;
    SplitJoin(items, ',');
    PrintedBinds(m, entries, items);
    BindsUnique(items, labels, m);
  }

  /** Printing a non-empty map's entries as k=v joined by ',', in any order, and parsing gives
      the map back if and only if no key and no value contains ',' or '='. */
  lemma RoundTripIff(m: Bindings, entries: seq<(string, string)>, labels: Bindings)
    requires Lists(entries, m) && entries != [] && Binds(Split(Print(entries), ','), labels)
    ensures labels == m <==> Clean(m)
  {
    if Clean(m) {
      RoundTrip(m, entries, labels);
    } else if labels == m {
      var items := Split(Print(entries), ',');
      forall k | k in m ensures CleanText(k) && CleanText(m[k]) {
        var i :| LastBinding(items, k, i) && labels[k] == Binding(items[i]).value.1;
        BindingIsClean(Print(entries), i);
      }
    }
  }

  // ----- merging -----

  /** One step of the merge loop: a custom entry is taken only where the driver has none. */
  function MergeOne(labels: Bindings, k: string, v: string): Bindings {
    if k in labels then labels else labels[k := v]
  }

  function MergeInOrder(labels: Bindings, custom: Bindings, order: seq<string>): Bindings
    requires forall k :: k in order ==> k in custom
    decreases |order|
  {
    if order == [] then labels
    else MergeInOrder(MergeOne(labels, order[0], custom[order[0]]), custom, order[1..])
  }

  /** The custom entries of the given keys that the labels lack. */
  function Missing(labels: Bindings, custom: Bindings, order: seq<string>): Bindings {
    map k | k in custom && k in order && k !in labels :: custom[k]
  }

  lemma {:induction false} MergePart(labels: Bindings, custom: Bindings, order: seq<string>)
    requires forall k :: k in order ==> k in custom
    ensures MergeInOrder(labels, custom, order) == labels + Missing(labels, custom, order)
    decreases |order|
  {
    if order == [] {
    } else {
      var k0, rest := order[0], order[1..];
      var labels' := MergeOne(labels, k0, custom[k0]);
      MergePart(labels', custom, rest);
      assert forall k :: k in order <==> k == k0 || k in rest;
      var now, later := Missing(labels, custom, order), Missing(labels', custom, rest);
      assert (labels + now).Keys == (labels' + later).Keys;
    }
  }

  /** Whatever order Go visits the custom map in, the result is the custom entries overridden by
      the driver's own. */
  lemma {:induction false} MergeAnyOrder(labels: Bindings, custom: Bindings, order: seq<string>)
    requires forall k :: k in order <==> k in custom
    ensures MergeInOrder(labels, custom, order) == custom + labels
  {
    MergePart(labels, custom, order);
    assert custom + labels == labels + Missing(labels, custom, order);
  }

  /** The merge loop, visiting the custom entries in whatever order they come. */
  method Merge(labels: Bindings, custom: Bindings) returns (merged: Bindings)
    ensures merged == custom + labels
  {
    merged := labels;
    var todo := custom.Keys;
    while todo != {}
      invariant todo <= custom.Keys
      invariant merged == labels + map k | k in custom && k !in todo && k !in labels :: custom[k]
      decreases todo
    {
      var k :| k in todo;
      if k !in merged { merged := merged[k := custom[k]]; }
      todo := todo - {k};
    }
    assert merged == custom + labels;
  }

  datatype Driver = Driver(name: string, clusterIdentity: string, customLabels: Bindings, customAnnotations: Bindings)

  const CLUSTER: string := "k8s.thalassa.cloud/cluster-identity"

  function WithCluster(driver: Driver, labels: Bindings): Bindings {
    if driver.clusterIdentity != "" then labels[CLUSTER := driver.clusterIdentity] else labels
  }

  function VolumeLabels(driver: Driver): Bindings {
    map["k8s.thalassa.cloud/csi-driver" := "true", "k8s.thalassa.cloud/csi-driver-name" := driver.name]
  }

  function VolumeAnnotations(fstype: string): Bindings {
    var described := map["k8s.thalassa.cloud/description" := "Provisioned by Thalassa CSI driver"];
    if fstype != "" then described["k8s.thalassa.cloud/fstype" := fstype] else described
  }

  function Lookup(bindings: Bindings, k: string): Option<string> {
    if k in bindings then Some(bindings[k]) else None
  }

  predicate Gives(bindings: Bindings, k: string, v: Option<string>) { Lookup(bindings, k) == v }

  /** The labels say which driver made the thing and, if it is known, for which cluster. */
  predicate MarksDriver(driver: Driver, labels: Bindings) {
    && Gives(labels, "k8s.thalassa.cloud/csi-driver", Some("true"))
    && Gives(labels, "k8s.thalassa.cloud/csi-driver-name", Some(driver.name))
    && (driver.clusterIdentity != "" ==> Gives(labels, "k8s.thalassa.cloud/cluster-identity", Some(driver.clusterIdentity)))
    && (driver.clusterIdentity == "" ==>
          Gives(labels, "k8s.thalassa.cloud/cluster-identity", Lookup(driver.customLabels, "k8s.thalassa.cloud/cluster-identity")))
  }

  predicate MarksProvisioned(annotations: Bindings) {
    Gives(annotations, "k8s.thalassa.cloud/description", Some("Provisioned by Thalassa CSI driver"))
  }

  /** The contents that count, for whatever custom entries. */
  lemma VolumeContents(driver: Driver, fstype: string)
    ensures MarksDriver(driver, WithCluster(driver, driver.customLabels + VolumeLabels(driver)))
    ensures var annotations := driver.customAnnotations + VolumeAnnotations(fstype);
            && MarksProvisioned(annotations)
            && Gives(annotations, "k8s.thalassa.cloud/fstype",
                     if fstype != "" then Some(fstype) else Lookup(driver.customAnnotations, "k8s.thalassa.cloud/fstype"))
  {
    assert |CLUSTER| != |"k8s.thalassa.cloud/csi-driver"| && |CLUSTER| != |"k8s.thalassa.cloud/csi-driver-name"|;
    assert |"k8s.thalassa.cloud/csi-driver"| != |"k8s.thalassa.cloud/csi-driver-name"|;
    assert |"k8s.thalassa.cloud/fstype"| != |"k8s.thalassa.cloud/description"|;
  }

  /** The labels and annotations of buildCreateVolumeRequest. */
  method BuildVolumeLabels(driver: Driver, fstype: string) returns (labels: Bindings, annotations: Bindings)
    ensures labels == WithCluster(driver, driver.customLabels + VolumeLabels(driver))
    ensures annotations == driver.customAnnotations + VolumeAnnotations(fstype)
    ensures MarksDriver(driver, labels) && MarksProvisioned(annotations)
    ensures Gives(annotations, "k8s.thalassa.cloud/fstype",
                  if fstype != "" then Some(fstype) else Lookup(driver.customAnnotations, "k8s.thalassa.cloud/fstype"))
  {
    VolumeContents(driver, fstype);
    hide Gives, Lookup, MarksDriver, MarksProvisioned, VolumeLabels, VolumeAnnotations;
    labels := VolumeLabels(driver);
    annotations := VolumeAnnotations(fstype);
    labels := Merge(labels, driver.customLabels);
    annotations := Merge(annotations, driver.customAnnotations);
    if driver.clusterIdentity != "" { labels := labels[CLUSTER := driver.clusterIdentity]; }
  }

  function SnapshotLabels(driver: Driver, source: string): Bindings {
    VolumeLabels(driver)["csi.volume.id" := source]
  }

  function SnapshotAnnotations(name: string): Bindings {
    map["csi.snapshot.id" := name, "k8s.thalassa.cloud/description" := "Provisioned by Thalassa CSI driver"]
  }

  /** The labels and annotations of getOrCreateSnapshot. */
  method BuildSnapshotLabels(driver: Driver, name: string, source: string) returns (labels: Bindings, annotations: Bindings)
    ensures labels == WithCluster(driver, driver.customLabels + SnapshotLabels(driver, source))
    ensures annotations == driver.customAnnotations + SnapshotAnnotations(name)
    ensures MarksDriver(driver, labels) && MarksProvisioned(annotations)
    ensures Gives(labels, "csi.volume.id", Some(source)) && Gives(annotations, "csi.snapshot.id", Some(name))
  {
    labels := SnapshotLabels(driver, source);
    annotations := SnapshotAnnotations(name);
    labels := Merge(labels, driver.customLabels);
    annotations := Merge(annotations, driver.customAnnotations);
    if driver.clusterIdentity != "" { labels := labels[CLUSTER := driver.clusterIdentity]; }
  }

  /** Precedence in the built labels, key by key: cluster identity, the driver's own, custom. */
  lemma Precedence(driver: Driver, own: Bindings, k: string)
    ensures var built := WithCluster(driver, driver.customLabels + own);
            var forced := k == CLUSTER && driver.clusterIdentity != "";
            if forced then k in built && built[k] == driver.clusterIdentity
            else if k in own then k in built && built[k] == own[k]
            else if k in driver.customLabels then k in built && built[k] == driver.customLabels[k]
            else k !in built
  {
  }
}
