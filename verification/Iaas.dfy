/** The IaaS API's records, as far as the driver looks at them. */
module Iaas {
  import opened Wrappers

  datatype Machine = Machine(identity: string, name: string, slug: string)

  /** `attachments` lists the AttachedToIdentity of every attachment; `size` is in GiB. */
  datatype Volume = Volume(identity: string, name: string, size: int,
                           attachments: seq<string>, status: string)

  function Lower(c: char): char {
    if 'A' <= c <= 'Z' then c - 'A' + 'a' else c
  }

  /** strings.EqualFold. The driver only compares with "attached" and "available", whose
      letters have no case variants outside ASCII. */
  predicate EqualFold(a: string, b: string) {
    |a| == |b| && forall i :: 0 <= i < |a| ==> Lower(a[i]) == Lower(b[i])
  }

  predicate IsAvailable(status: string) { EqualFold(status, "available") }

  predicate IsAttached(status: string) { EqualFold(status, "attached") }

  /** The statuses that end polling, whatever their case, and some that do not. */
  lemma StatusesApart()
    ensures IsAttached("attached") && IsAttached("Attached") && !IsAttached("attaching") && !IsAttached("available")
    ensures IsAvailable("available") && IsAvailable("Available") && !IsAvailable("detaching") && !IsAvailable("attached")
  {
    assert |"attached"| == 8 && |"attaching"| == 9 && |"available"| == 9 && |"detaching"| == 9;
    assert "detaching"[0] == 'd' && "available"[0] == 'a';
  }

  /** A node id names a machine by name, identity or slug. */
  predicate Names(m: Machine, node: string) {
    m.name == node || m.identity == node || m.slug == node
  }

  /** No other node id names a machine. */
  lemma NamedByAll(m: Machine, node: string)
    ensures Names(m, m.name) && Names(m, m.identity) && Names(m, m.slug)
    ensures Names(m, node) ==> node in [m.name, m.identity, m.slug]
  {
  }

  /** Machine i is the first one in the list that the node id names. */
  ghost predicate FirstNamed(machines: seq<Machine>, node: string, i: int) {
    0 <= i < |machines| && Names(machines[i], node) &&
    forall j :: 0 <= j < i ==> !Names(machines[j], node)
  }

  /** The identity of the first machine in the list that the node id names. */
  function Resolve(machines: seq<Machine>, node: string): (r: Option<string>)
    ensures r.None? <==> forall m :: m in machines ==> !Names(m, node)
    ensures r.Some? ==> exists i :: FirstNamed(machines, node, i) && machines[i].identity == r.value
  {
    if machines == [] then None
    else if Names(machines[0], node) then
      assert FirstNamed(machines, node, 0);
      Some(machines[0].identity)
    else
      var rest := Resolve(machines[1..], node);
      assert forall i :: FirstNamed(machines[1..], node, i) ==> FirstNamed(machines, node, i + 1);
      rest
  }
}
