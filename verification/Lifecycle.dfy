/** Which Pods belong to a component of an allocation, and when they no longer need it
    (internal/controller/registration/lifecycle.go, componentMembers and releasable; pod_sync.go,
    podReadyForCleanup). */
module Lifecycle {
  import opened Ordering
  import opened SlurmJob

  datatype Pod = Pod(
    ref: string, uid: string, version: nat, ours: bool, terminal: bool, deleting: bool, node: string,
    finalizer: bool, lws: bool, gated: bool, jobLabel: int)

  function KeyOf(p: Pod): PodRecord {
    PodRecord(p.ref, p.uid)
  }

  /** podReadyForCleanup: bound Pods must finish; unbound Pods only need to be deleting. */
  predicate ReadyForCleanup(p: Pod) {
    p.terminal || (p.deleting && p.node == "")
  }

  predicate Releasable(members: map<PodRecord, Pod>) {
    || (forall k :: k in members ==> ReadyForCleanup(members[k]))
    || (exists k :: k in members && members[k].lws && ReadyForCleanup(members[k]))
  }

  // ---------------------------------------------------------------- membership

  datatype GroupError = NoError | NoPods | LeaderMissing | GroupReadFailed
  datatype GroupRead = GroupRead(pods: seq<Pod>, error: GroupError)
  datatype PodRead = Present(pod: Pod) | NotFound | PodReadFailed
  datatype RootRead = RootGroup(group: Group) | RootPod | RootNotFound | RootReadFailed

  /** What one reader of Kubernetes returns. */
  datatype View = View(
    groups: Group -> GroupRead, pods: string -> PodRead, roots: Pod -> RootRead,
    labeled: int -> Result<seq<Pod>, string>)

  ghost predicate Recorded(view: View, rec: PodRecord, p: Pod) {
    view.pods(rec.ref) == Present(p) && (rec.uid == "" || rec.uid == p.uid)
  }

  /** Records without a group also stand for the current group of a Pod they name. */
  ghost predicate FromRecord(view: View, rec: PodRecord, legacy: bool, p: Pod) {
    || Recorded(view, rec, p)
    || (&& legacy && view.pods(rec.ref).Present?
        && var q := view.pods(rec.ref).pod;
           Recorded(view, rec, q) && q.ours && view.roots(q).RootGroup? && p in view.groups(view.roots(q).group).pods)
  }

  /** A Pod belongs to a component through its current group, a recorded identity, or a published
      label it still needs. */
  ghost predicate Member(view: View, id: int, info: Ownership, p: Pod) {
    && p.ours
    && (|| (info.podGroup.Some? && p in view.groups(info.podGroup.value).pods)
        || (exists rec :: rec in info.pods && FromRecord(view, rec, info.podGroup.None?, p))
        || (view.labeled(id).Ok? && p in view.labeled(id).value && !p.terminal && !(p.deleting && p.node == "")))
  }

  /** Reads of one snapshot never disagree about a Pod. */
  ghost predicate Coherent(view: View) {
    forall i, a, p, j, b, q :: Member(view, i, a, p) && Member(view, j, b, q) && KeyOf(p) == KeyOf(q) ==> p == q
  }

  function AddOurs(members: map<PodRecord, Pod>, pods: seq<Pod>): (r: map<PodRecord, Pod>)
    ensures forall k :: k in members ==> k in r
    ensures forall p :: p in pods && p.ours ==> KeyOf(p) in r
    ensures forall k :: k in r ==>
              (k in members && r[k] == members[k]) || (r[k] in pods && r[k].ours && KeyOf(r[k]) == k)
    decreases |pods|
  {
    if pods == [] then members
    else
      var p := pods[0];
      AddOurs(if p.ours then members[KeyOf(p) := p] else members, pods[1..])
  }

  /** The reads that a recorded Pod takes succeed; a Pod or a root that is not found is no failure. */
  ghost predicate RecordReadable(view: View, rec: PodRecord, legacy: bool) {
    match view.pods(rec.ref)
    case PodReadFailed => false
    case NotFound => true
    case Present(pod) =>
      (rec.uid == "" || rec.uid == pod.uid) && legacy && pod.ours ==>
        !view.roots(pod).RootReadFailed?
        && (view.roots(pod).RootGroup? ==> !view.groups(view.roots(pod).group).error.GroupReadFailed?)
  }

  /** The reads that gathering the members takes succeed. */
  ghost predicate MembersReadable(view: View, id: int, info: Ownership) {
    && (info.podGroup.Some? ==> view.groups(info.podGroup.value).error in {NoError, NoPods})
    && (forall i :: 0 <= i < |info.pods| ==> RecordReadable(view, info.pods[i], info.podGroup.None?))
    && view.labeled(id).Ok?
  }

  method PodsOfRecord(view: View, rec: PodRecord, legacy: bool) returns (r: Result<seq<Pod>, string>)
    ensures r.Ok? <==> RecordReadable(view, rec, legacy)
    ensures r.Ok? ==> forall p: Pod :: p.ours ==> (p in r.value <==> FromRecord(view, rec, legacy, p))
  {
    match view.pods(rec.ref)
    case PodReadFailed => return Err("pod read failed");
    case NotFound => return Ok([]);
    case Present(pod) =>
      if rec.uid != "" && rec.uid != pod.uid {
        return Ok([]);
      }
      if !legacy || !pod.ours {
        return Ok([pod]);
      }
      match view.roots(pod)
      case RootReadFailed => return Err("workload root read failed");
      case RootNotFound => return Ok([pod]);
      case RootPod => return Ok([pod]);
      case RootGroup(group) =>
        var read := view.groups(group);
        return if read.error.GroupReadFailed? then Err("group read failed") else Ok([pod] + read.pods);
  }

  function StillNeeded(pods: seq<Pod>): (r: seq<Pod>)
    ensures forall p :: p in r <==> p in pods && !ReadyForCleanup(p)
  {
    if pods == [] then []
    else if ReadyForCleanup(pods[0]) then StillNeeded(pods[1..])
    else [pods[0]] + StillNeeded(pods[1..])
  }

  /** componentMembers: exactly the members, keyed by identity. */
  method ComponentMembers(view: View, id: int, info: Ownership) returns (r: Result<map<PodRecord, Pod>, string>)
    ensures r.Ok? <==> MembersReadable(view, id, info)
    ensures r.Ok? ==> forall k :: k in r.value ==> Member(view, id, info, r.value[k]) && KeyOf(r.value[k]) == k
    ensures r.Ok? ==> forall p :: Member(view, id, info, p) ==> KeyOf(p) in r.value
  {
    var members: map<PodRecord, Pod> := map[];
    if info.podGroup.Some? {
      var read := view.groups(info.podGroup.value);
      if !read.error.NoError? && !read.error.NoPods? {
        return Err("group read failed");
      }
      members := AddOurs(members, read.pods);
    }
    for n := 0 to |info.pods|
      invariant forall i :: 0 <= i < n ==> RecordReadable(view, info.pods[i], info.podGroup.None?)
      invariant forall k :: k in members ==> Member(view, id, info, members[k]) && KeyOf(members[k]) == k
      invariant info.podGroup.Some? ==> forall p :: p in view.groups(info.podGroup.value).pods && p.ours ==>
                  KeyOf(p) in members
      invariant forall m, p :: 0 <= m < n && FromRecord(view, info.pods[m], info.podGroup.None?, p) && p.ours ==>
                  KeyOf(p) in members
    {
      var pods := PodsOfRecord(view, info.pods[n], info.podGroup.None?);
      if pods.Err? {
        return Err(pods.error);
      }
      assert info.pods[n] in info.pods;
      members := AddOurs(members, pods.value);
    }
    match view.labeled(id)
    case Err(e) => return Err(e);
    case Ok(pods) => return Ok(AddOurs(members, StillNeeded(pods)));
  }
}
