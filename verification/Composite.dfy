/** Composite hierarchies: the upward resolution of an allocation's root (workload_api.go) and the downward collection
    of its PodGroups (composite_podgroup.go). */
module Composite {
  import opened Ordering

  const MAX_TREE_DEPTH := 4

  /** A CompositePodGroup; an empty parent name means none. Unsupported fields make a direct read fail. */
  datatype Group = Group(parent: string, basic: bool, supported: bool)

  type Hierarchy = map<string, Group>

  /** A PodGroup, what reading its Pods gives, and what translating it gives. */
  datatype PodGroup = PodGroup(name: string, parent: Option<string>, pods: Result<seq<string>, string>,
                               translated: Result<seq<string>, string>)

  /** Object names are not empty. */
  predicate Named(groups: Hierarchy) {
    "" !in groups
  }

  /** A group below which one allocation extends. */
  predicate Gang(groups: Hierarchy, name: string) {
    name in groups && !groups[name].basic
  }

  /** The k-th ancestor, as long as only gangs lie below it. */
  function Up(groups: Hierarchy, name: string, k: nat): Option<string> {
    if k == 0 then Some(name)
    else
      var below := Up(groups, name, k - 1);
      if below.Some? && Gang(groups, below.value) && groups[below.value].parent != ""
      then Some(groups[below.value].parent)
      else None
  }

  /** The target lies k steps above. */
  predicate Above(groups: Hierarchy, name: string, target: string, k: nat) {
    Up(groups, name, k) == Some(target)
  }

  ghost predicate Below(groups: Hierarchy, name: string, target: string) {
    exists k: nat :: Above(groups, name, target, k)
  }

  /** An allocation's root: a gang with no parent, or whose parent is a basic boundary. */
  predicate Root(groups: Hierarchy, name: string) {
    && Gang(groups, name)
    && (groups[name].parent == "" || (groups[name].parent in groups && groups[groups[name].parent].basic))
  }

  lemma {:induction false} UpAdd(groups: Hierarchy, name: string, a: nat, b: nat)
    requires Up(groups, name, a).Some?
    ensures Up(groups, name, a + b) == Up(groups, Up(groups, name, a).value, b)
  {
    if b > 0 {
      UpAdd(groups, name, a, b - 1);
    }
  }

  lemma {:induction false} UpDefined(groups: Hierarchy, name: string, a: nat, b: nat)
    requires a < b && Up(groups, name, b).Some?
    ensures Up(groups, name, a).Some? && Gang(groups, Up(groups, name, a).value)
  {
    if a < b - 1 {
      UpDefined(groups, name, a, b - 1);
    }
  }

  /** A root has nothing of its allocation above it. */
  lemma RootIsTop(groups: Hierarchy, root: string, k: nat)
    requires Root(groups, root) && k > 0
    ensures Up(groups, root, k).Some? ==> k == 1 && !Gang(groups, Up(groups, root, k).value)
  {
    if Up(groups, root, k).Some? {
      UpDefined(groups, root, 0, k);
      if k > 1 {
        UpDefined(groups, root, 1, k);
      }
      assert Up(groups, root, 0) == Some(root);
    }
  }

  /** A chain that does not repeat fits in the hierarchy. */
  lemma ChainFits(groups: Hierarchy, name: string, k: nat)
    requires Up(groups, name, k).Some?
    requires forall i, j :: 0 <= i < j < k ==> Up(groups, name, i) != Up(groups, name, j)
    ensures k <= |groups|
  {
    forall i: nat | i < k ensures Up(groups, name, i).Some? && Up(groups, name, i).value in groups {
      UpDefined(groups, name, i, k);
    }
    var chain := seq(k, i requires 0 <= i < k => Up(groups, name, i).value);
    DistinctCard(chain);
    CardOfSubset(Elements(chain), groups.Keys);
    assert |groups.Keys| == |groups|;
  }

  /** The shortest way up to a target is no longer than the hierarchy has groups, even if parents form a cycle. */
  lemma {:induction false} ShortWay(groups: Hierarchy, name: string, target: string, k: nat) returns (short: nat)
    requires Above(groups, name, target, k) && k > 0
    ensures 0 < short <= |groups| && short <= k && Above(groups, name, target, short)
  {
    if i, j :| 0 <= i < j < k && Up(groups, name, i) == Up(groups, name, j) {
      UpDefined(groups, name, i, k);
      UpDefined(groups, name, j, k);
      UpAdd(groups, name, i, k - j);
      UpAdd(groups, name, j, k - j);
      short := ShortWay(groups, name, target, i + (k - j));
    } else {
      short := k;
      ChainFits(groups, name, k);
    }
  }

  /** traverseParentChain finds the target exactly when it lies above the parent through gangs; its bound loses
      nothing. */
  method TraverseParentChain(parentName: string, target: string, groups: Hierarchy) returns (found: bool)
    requires target != ""
    ensures found <==> exists k: nat :: k > 0 && Above(groups, parentName, target, k)
  {
    var name := parentName;
    for n := 0 to |groups|
      invariant Up(groups, parentName, n) == Some(name)
      invariant forall k: nat :: 0 < k <= n ==> !Above(groups, parentName, target, k)
    {
      if name !in groups || groups[name].basic {
        NothingAbove(groups, parentName, target, n);
        return false;
      }
      if groups[name].parent == target {
        assert Above(groups, parentName, target, n + 1);
        return true;
      }
      if groups[name].parent == "" {
        NothingAbove(groups, parentName, target, n);
        return false;
      }
      name := groups[name].parent;
    }
    forall k: nat | k > 0 ensures !Above(groups, parentName, target, k) {
      if Above(groups, parentName, target, k) {
        var short := ShortWay(groups, parentName, target, k);
      }
    }
    return false;
  }

  lemma NothingAbove(groups: Hierarchy, name: string, target: string, n: nat)
    requires Up(groups, name, n + 1).None?
    requires forall k: nat :: 0 < k <= n ==> !Above(groups, name, target, k)
    ensures forall k: nat :: k > 0 ==> !Above(groups, name, target, k)
  {
    forall k: nat | k > n ensures Up(groups, name, k).None? {
      if Up(groups, name, k).Some? && k > n + 1 {
        UpDefined(groups, name, n + 1, k);
      }
    }
  }

  // --- upward resolution ---

  predicate Readable(groups: Hierarchy, name: string) {
    name in groups && groups[name].supported
  }

  /** The walk from a parent name reads m + 1 groups and stops at a basic one or at the top. */
  ghost predicate StopsAt(groups: Hierarchy, name: string, m: nat) {
    && (forall i: nat :: i <= m ==>
          && Up(groups, name, i).Some? && Up(groups, name, i).value in groups
          && groups[Up(groups, name, i).value].supported)
    && Up(groups, name, m + 1).None?
  }

  ghost function RootAt(groups: Hierarchy, name: string, m: nat): string
    requires StopsAt(groups, name, m)
  {
    if !groups[Up(groups, name, m).value].basic then Up(groups, name, m).value
    else if m == 0 then ""
    else Up(groups, name, m - 1).value
  }

  /** compositePodGroupRootName. */
  method RootName(groups: Hierarchy, parentName: string) returns (r: Result<string, string>)
    requires Named(groups)
    ensures r.Ok? <==> exists m: nat :: m < 4 && StopsAt(groups, parentName, m)
    ensures forall m: nat :: m < 4 && StopsAt(groups, parentName, m) ==> r == Ok(RootAt(groups, parentName, m))
  {
    var rootName, name := "", parentName;
    for n := 0 to MAX_TREE_DEPTH
      invariant Up(groups, parentName, n) == Some(name)
      invariant forall i: nat :: i < n ==>
                  Up(groups, parentName, i).Some? && Readable(groups, Up(groups, parentName, i).value)
      invariant rootName == if n == 0 then "" else Up(groups, parentName, n - 1).value
      invariant forall m: nat :: m < n ==> !StopsAt(groups, parentName, m)
    {
      if !Readable(groups, name) {
        assert forall m: nat :: m < MAX_TREE_DEPTH && m >= n ==> !StopsAt(groups, parentName, m);
        return Err("get CompositePodGroup");
      }
      if groups[name].basic {
        assert StopsAt(groups, parentName, n);
        return Ok(rootName);
      }
      rootName := name;
      if groups[name].parent == "" {
        assert StopsAt(groups, parentName, n);
        return Ok(rootName);
      }
      name := groups[name].parent;
      assert Up(groups, parentName, n + 1).Some?;
    }
    return Err("parent chain exceeds maximum depth");
  }

  /** A walk that succeeds with a name ends at a root that lies above, or at the parent itself. */
  lemma ResolvedIsRoot(groups: Hierarchy, name: string, m: nat)
    requires Named(groups) && StopsAt(groups, name, m) && RootAt(groups, name, m) != ""
    ensures Root(groups, RootAt(groups, name, m)) && Below(groups, name, RootAt(groups, name, m))
  {
    var top := Up(groups, name, m).value;
    assert Readable(groups, top);
    if groups[top].basic {
      UpDefined(groups, name, m - 1, m);
      assert Above(groups, name, RootAt(groups, name, m), m - 1);
    } else {
      assert Above(groups, name, top, m);
    }
  }

  /** No group lies below two roots. */
  lemma RootsApart(groups: Hierarchy, name: string, a: string, b: string)
    requires Root(groups, a) && Root(groups, b) && Below(groups, name, a) && Below(groups, name, b)
    ensures a == b
  {
    var i: nat :| Above(groups, name, a, i);
    var j: nat :| Above(groups, name, b, j);
    if i < j {
      UpAdd(groups, name, i, j - i);
      RootIsTop(groups, a, j - i);
    } else if j < i {
      UpAdd(groups, name, j, i - j);
      RootIsTop(groups, b, i - j);
    }
  }

  /** Downward membership agrees with upward resolution. */
  lemma MembershipAgrees(groups: Hierarchy, name: string, root: string, m: nat)
    requires Named(groups) && Root(groups, root) && StopsAt(groups, name, m)
    ensures Below(groups, name, root) <==> RootAt(groups, name, m) == root
  {
    if RootAt(groups, name, m) == root {
      ResolvedIsRoot(groups, name, m);
    }
    if Below(groups, name, root) {
      var k: nat :| Above(groups, name, root, k);
      if RootAt(groups, name, m) == "" {
        if k > 0 { UpDefined(groups, name, 0, k); }
      } else {
        ResolvedIsRoot(groups, name, m);
        RootsApart(groups, name, root, RootAt(groups, name, m));
      }
    }
  }

  // --- downward collection ---

  ghost predicate Member(groups: Hierarchy, pg: PodGroup, root: string) {
    pg.parent.Some? && Below(groups, pg.parent.value, root)
  }

  /** The components of a PodGroup; one without Pods has none. */
  function ComponentsOf(pg: PodGroup): Result<seq<string>, string> {
    if pg.pods.Err? then Err(pg.pods.error) else if pg.pods.value == [] then Ok([]) else pg.translated
  }

  /** The components a list of PodGroups contributes to the allocation of a root. */
  ghost function Components(groups: Hierarchy, podGroups: seq<PodGroup>, root: string): seq<string> {
    if podGroups == [] then []
    else
      var pg := podGroups[|podGroups| - 1];
      Components(groups, podGroups[..|podGroups| - 1], root)
      + (if Member(groups, pg, root) && ComponentsOf(pg).Ok? then ComponentsOf(pg).value else [])
  }

  ghost predicate AllTranslated(groups: Hierarchy, podGroups: seq<PodGroup>, root: string) {
    forall i :: 0 <= i < |podGroups| && Member(groups, podGroups[i], root) ==> Usable(podGroups[i])
  }

  /** The Pods are read, and if there are any the PodGroup is translated. */
  ghost predicate Usable(pg: PodGroup) {
    pg.pods.Ok? && (pg.pods.value != [] ==> pg.translated.Ok?)
  }

  /** The component comes from a PodGroup of the allocation that has Pods. */
  ghost predicate Contributed(groups: Hierarchy, podGroups: seq<PodGroup>, root: string, component: string) {
    exists pg :: pg in podGroups && Contributes(groups, pg, root, component)
  }

  ghost predicate Contributes(groups: Hierarchy, pg: PodGroup, root: string, component: string) {
    && Member(groups, pg, root) && pg.pods.Ok? && pg.pods.value != []
    && pg.translated.Ok? && component in pg.translated.value
  }

  lemma {:induction false} ComponentsContributed(groups: Hierarchy, podGroups: seq<PodGroup>, root: string,
                                                 component: string)
    requires AllTranslated(groups, podGroups, root)
    ensures component in Components(groups, podGroups, root) <==> Contributed(groups, podGroups, root, component)
  {
    if podGroups != [] {
      var before, pg := podGroups[..|podGroups| - 1], podGroups[|podGroups| - 1];
      assert podGroups == before + [pg];
      assert AllTranslated(groups, before, root);
      ComponentsContributed(groups, before, root, component);
      assert Member(groups, pg, root) ==> Usable(pg);
      if Contributed(groups, before, root, component) {
        var from :| from in before && Contributes(groups, from, root, component);
        assert from in podGroups;
      }
      assert Contributes(groups, pg, root, component) ==> Contributed(groups, podGroups, root, component);
      assert forall other :: other in podGroups ==> other in before || other == pg;
    }
  }

  /** fromCompositePodGroup. Listing the groups or the PodGroups of the namespace may fail. */
  method FromCompositePodGroup(groups: Hierarchy, listing: Result<(), string>, podGroups: Result<seq<PodGroup>, string>,
                               root: string)
    returns (r: Result<seq<string>, string>)
    requires Named(groups)
    ensures r.Ok? <==>
              && root in groups && groups[root].supported && listing.Ok? && podGroups.Ok?
              && AllTranslated(groups, podGroups.value, root)
    ensures r.Ok? ==> r.value == Components(groups, podGroups.value, root)
    ensures r.Ok? ==> forall c :: c in r.value <==> Contributed(groups, podGroups.value, root, c)
  {
    if !Readable(groups, root) {
      return Err("get CompositePodGroup");
    }
    if listing.Err? {
      return Err(listing.error);
    }
    if podGroups.Err? {
      return Err(podGroups.error);
    }
    var items, components := podGroups.value, [];
    for n := 0 to |items|
      invariant components == Components(groups, items[..n], root)
      invariant AllTranslated(groups, items[..n], root)
    {
      var pg := items[n];
      assert items[..n + 1][..n] == items[..n];
      if pg.parent.Some? {
        var found := pg.parent.value == root;
        if !found {
          found := TraverseParentChain(pg.parent.value, root, groups);
        }
        MemberFound(groups, pg, root, found);
        if found {
          assert Member(groups, items[n], root);
          if pg.pods.Err? {
            return Err(pg.pods.error);
          }
          if pg.pods.value != [] {
            if pg.translated.Err? {
              return Err(pg.translated.error);
            }
            components := components + pg.translated.value;
          }
        }
      }
    }
    assert items[..|items|] == items;
    forall c ensures c in components <==> Contributed(groups, items, root, c) {
      ComponentsContributed(groups, items, root, c);
    }
    return Ok(components);
  }

  lemma MemberFound(groups: Hierarchy, pg: PodGroup, root: string, found: bool)
    requires pg.parent.Some?
    requires found <==> pg.parent.value == root || exists k: nat :: k > 0 && Above(groups, pg.parent.value, root, k)
    ensures found <==> Member(groups, pg, root)
  {
    if pg.parent.value == root { assert Above(groups, pg.parent.value, root, 0); }
  }

  /** A PodGroup is translated into at most one allocation. */
  lemma AllocationsDisjoint(groups: Hierarchy, pg: PodGroup, a: string, b: string)
    requires Root(groups, a) && Root(groups, b) && a != b
    ensures !(Member(groups, pg, a) && Member(groups, pg, b))
  {
    if Member(groups, pg, a) && Member(groups, pg, b) {
      RootsApart(groups, pg.parent.value, a, b);
    }
  }
}
