/** The device path of a volume. */
module Devices {
  import opened Text

  const BY_ID: string := "by-id"
  const PREFIX: string := "scsi-0QEMU_QEMU_HARDDISK_"

  /** filepath.Clean on the components of a rooted path; `done` is what is kept so far. */
  function CleanParts(done: seq<string>, parts: seq<string>): seq<string>
    decreases |parts|
  {
    if parts == [] then done
    else if parts[0] == "" || parts[0] == "." then CleanParts(done, parts[1..])
    else if parts[0] == ".." then CleanParts(if done == [] then [] else done[..|done| - 1], parts[1..])
    else CleanParts(done + [parts[0]], parts[1..])
  }

  function CleanRooted(path: string): string {
    "/" + Join(CleanParts([], Split(path, '/')), '/')
  }

  /** getDeviceByIDPath: joining cleans the path, so a '/' in the volume id is not kept as is. */
  function DevicePath(volumeId: string): string {
    CleanRooted(Join(["", "dev", "disk", BY_ID, PREFIX + volumeId], '/'))
  }

  predicate Plain(part: string) { part != "" && part != "." && part != ".." && '/' !in part }

  lemma {:induction false} CleanPlain(done: seq<string>, parts: seq<string>)
    requires forall i :: 0 <= i < |parts| ==> Plain(parts[i])
    ensures CleanParts(done, parts) == done + parts
    decreases |parts|
  {
    if parts == [] {
      assert done + parts == done;
    } else {
      CleanPlain(done + [parts[0]], parts[1..]);
      assert done + [parts[0]] + parts[1..] == done + parts;
    }
  }

  /** Without a '/' in the id, the path is the prefix and the id. */
  lemma DevicePathPlain(volumeId: string)
    requires '/' !in volumeId
    ensures DevicePath(volumeId) == "/" + Join(["dev", "disk", BY_ID, PREFIX + volumeId], '/')
  {
    var parts := ["dev", "disk", BY_ID, PREFIX + volumeId];
    assert |PREFIX + volumeId| > 2;
    SplitJoin([""] + parts, '/');
    assert [""] + parts == ["", "dev", "disk", BY_ID, PREFIX + volumeId];
    assert ([""] + parts)[1..] == parts;
    CleanPlain([], parts);
    assert [] + parts == parts;
  }

  lemma Append(a: string, b: string, c: string)
    ensures a + (b + c) == (a + b) + c
  {
  }

  /** Joining with the last part cut further makes no difference. */
  lemma {:induction false} JoinTail(init: seq<string>, tail: seq<string>, last: string)
    requires tail != [] && Join(tail, '/') == last
    ensures Join(init + tail, '/') == Join(init + [last], '/')
  {
    if init == [] {
      assert init + tail == tail && init + [last] == [last];
    } else {
      JoinTail(init[1..], tail, last);
      assert (init + tail)[1..] == init[1..] + tail && (init + [last])[1..] == init[1..] + [last];
    }
  }

  /** Cleaning plain components first, then the others. */
  lemma {:induction false} CleanApart(done: seq<string>, start: seq<string>, rest: seq<string>)
    requires forall i :: 0 <= i < |start| ==> Plain(start[i])
    ensures CleanParts(done, start + rest) == CleanParts(done + start, rest)
    decreases |start|
  {
    if start == [] {
      assert start + rest == rest && done + start == done;
    } else {
      CleanApart(done + [start[0]], start[1..], rest);
      assert (start + rest)[1..] == start[1..] + rest;
      assert done + [start[0]] + start[1..] == done + start;
    }
  }

  lemma JoinCons(x: string, rest: seq<string>)
    requires rest != []
    ensures Join([x] + rest, '/') == x + "/" + Join(rest, '/')
  {
    assert ([x] + rest)[1..] == rest;
  }

  lemma JoinThree(x: string, y: string, z: string)
    ensures Join([x, y, z], '/') == x + "/" + (y + "/" + z)
  {
    JoinCons(x, [y, z]);
    JoinCons(y, [z]);
    assert [x] + [y, z] == [x, y, z] && [y] + [z] == [y, z];
  }

  lemma Literals()
    ensures "/" + "dev" + "/" + "disk" + "/" + BY_ID + "/" == "/dev/disk/by-id/"
  {
    assert "/" + "dev" + "/" == "/dev/";
    assert "/dev/" + "disk" + "/" == "/dev/disk/";
    assert "/dev/disk/" + "by-id" + "/" == "/dev/disk/by-id/";
  }

  /** The same, written out. */
  lemma DevicePathIs(volumeId: string)
    requires '/' !in volumeId
    ensures DevicePath(volumeId) == "/dev/disk/by-id/" + "scsi-0QEMU_QEMU_HARDDISK_" + volumeId
  {
    DevicePathPlain(volumeId);
    var last := PREFIX + volumeId;
    var path := Join(["dev", "disk", BY_ID, last], '/');
    JoinCons("dev", ["disk", BY_ID, last]);
    assert ["dev"] + ["disk", BY_ID, last] == ["dev", "disk", BY_ID, last];
    JoinThree("disk", BY_ID, last);
    hide *;
    assert path == "dev" + "/" + ("disk" + "/" + (BY_ID + "/" + last));
    assert "/" + path == "/" + "dev" + "/" + "disk" + "/" + BY_ID + "/" + PREFIX + volumeId;
    Literals();
  }

  lemma CleanUp(first: string, b: string)
    requires Plain(first) && Plain(b)
    ensures CleanParts([], ["", "dev", "disk", BY_ID] + [first, "..", b]) == ["dev", "disk", BY_ID, b]
  {
    var kept := ["dev", "disk", BY_ID];
    CleanApart([], kept + [first], ["..", b]);
    CleanPlain(kept, [b]);
    hide Plain;
    var parts := ["", "dev", "disk", BY_ID] + [first, "..", b];
    assert parts[1..] == (kept + [first]) + ["..", b];
    assert [] + (kept + [first]) == kept + [first] && (kept + [first])[..3] == kept;
    assert ["..", b][1..] == [b] && kept + [b] == ["dev", "disk", BY_ID, b];
  }

  /** Two volume ids with a '/' can have one device: what precedes "/../" is cleaned away. */
  lemma DevicePathsCollide(a: string, b: string)
    requires '/' !in a && Plain(b)
    ensures DevicePath(a + "/../" + b) == "/" + Join(["dev", "disk", BY_ID, b], '/')
  {
    var first, id := PREFIX + a, PREFIX + (a + "/../" + b);
    assert Plain(first) by { assert first[..|PREFIX|] == PREFIX && |first| > 2; }
    var init, tail := ["", "dev", "disk", BY_ID], [first, "..", b];
    CleanUp(first, b);
    SplitJoin(init + tail, '/');
    hide CleanParts, Split, Join, Plain;
    JoinThree(first, "..", b);
    assert "/../" == "/" + ".." + "/";
    assert id == first + "/" + (".." + "/" + b);
    JoinTail(init, tail, id);
    assert init + [id] == ["", "dev", "disk", BY_ID, id];
  }

  /** Volume ids without '/' have devices of their own. */
  lemma DevicePathInjective(a: string, b: string)
    requires '/' !in a && '/' !in b && DevicePath(a) == DevicePath(b)
    ensures a == b
  {
    DevicePathPlain(a);
    DevicePathPlain(b);
    var pa, pb := ["dev", "disk", BY_ID, PREFIX + a], ["dev", "disk", BY_ID, PREFIX + b];
    assert DevicePath(a)[1..] == Join(pa, '/') && DevicePath(b)[1..] == Join(pb, '/');
    SplitJoin(pa, '/');
    SplitJoin(pb, '/');
    assert pa[3] == pb[3];
    assert pa[3][|PREFIX|..] == a && pb[3][|PREFIX|..] == b;
  }
}
