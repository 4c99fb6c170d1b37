/** From a node's device inventory to the applied GRES inventory, and what allocations from it promise
    (internal/dra/gres.go, NodeInventory.GRES; inventory.go). */
module GresInventory {
  import opened Ordering
  import opened DevicePath
  import opened GresIndex
  import NI = NodeInventory
  import CI = CanonicalInventory
  import GA = GresAllocation
  import PS = PoolSnapshot

  /** How Slurm knows a profile's devices: as cores, as an indexed GRES if its name is valid, or not at all. */
  datatype Backend = CoreBitmap | Indexed(gres: Result<string, string>) | Unsupported

  predicate Translatable(b: Backend) {
    b.CoreBitmap? || (b.Indexed? && b.gres.Ok?)
  }

  /** The indexed profiles, in the order of the inventory. */
  function Translated(inv: seq<NI.ProfileInventory>, backend: string -> Backend): seq<Gres> {
    if inv == [] then []
    else
      var last := inv[|inv| - 1];
      Translated(inv[..|inv| - 1], backend)
      + match backend(last.profile)
        case Indexed(Ok(name)) => [Gres(name, last.profile, last.devices)]
        case _ => []
  }

  /** NodeInventory.GRES. */
  method ToGres(inv: seq<NI.ProfileInventory>, backend: string -> Backend) returns (r: Result<seq<Gres>, string>)
    ensures r.Ok? <==> forall k :: 0 <= k < |inv| ==> Translatable(backend(inv[k].profile))
    ensures r.Ok? ==> r.value == Translated(inv, backend)
  {
    var inventory: seq<Gres> := [];
    for n := 0 to |inv|
      invariant forall k :: 0 <= k < n ==> Translatable(backend(inv[k].profile))
      invariant inventory == Translated(inv[..n], backend)
    {
      assert inv[..n + 1][..n] == inv[..n];
      match backend(inv[n].profile) {
        case CoreBitmap =>
        case Unsupported => return Err("unsupported backend");
        case Indexed(gres) =>
          if gres.Err? {
            return Err(gres.error);
          }
          inventory := inventory + [Gres(gres.value, inv[n].profile, inv[n].devices)];
      }
    }
    assert inv[..|inv|] == inv;
    return Ok(inventory);
  }

  lemma {:induction false} TranslatedFrom(inv: seq<NI.ProfileInventory>, backend: string -> Backend, i: nat)
    returns (k: nat)
    requires i < |Translated(inv, backend)|
    ensures k < |inv| && inv[k].profile == Translated(inv, backend)[i].profile
            && inv[k].devices == Translated(inv, backend)[i].devices
    decreases |inv|
  {
    var before := inv[..|inv| - 1];
    if i < |Translated(before, backend)| {
      k := TranslatedFrom(before, backend, i);
    } else {
      k := |inv| - 1;
    }
  }

  /** Profiles are listed once, so that the inventory can be encoded. */
  lemma {:induction false} TranslatedApart(inv: seq<NI.ProfileInventory>, backend: string -> Backend)
    requires forall i, j :: 0 <= i < j < |inv| ==> StringLt(inv[i].profile, inv[j].profile)
    ensures ProfilesApart(Translated(inv, backend))
  {
    if inv != [] {
      var before, all := inv[..|inv| - 1], Translated(inv, backend);
      TranslatedApart(before, backend);
      forall i, j | 0 <= i < j < |all| ensures all[i].profile != all[j].profile {
        if j == |Translated(before, backend)| {
          var k := TranslatedFrom(before, backend, i);
          assert StringLt(inv[k].profile, inv[|inv| - 1].profile);
          StringConnected(inv[k].profile, inv[k].profile);
        }
      }
    }
  }

  /** A device that two profile lists of a built inventory have is at one place in one list. */
  lemma OnePlace(rules: NI.Rules, entries: seq<NI.Entry>, inv: seq<NI.ProfileInventory>, k: nat, l: nat, i: nat, j: nat)
    requires NI.InventoryOf(rules, entries, inv) && NI.NoDuplicates(rules, entries)
    requires k < |inv| && l < |inv| && i < |inv[k].devices| && j < |inv[l].devices|
             && inv[k].devices[i] == inv[l].devices[j]
    ensures k == l && i == j
  {
    var x := inv[k].devices[i];
    assert NI.ProfileOf(rules, entries, inv[k]) && x in inv[k].devices && x in inv[l].devices;
    assert NI.Has(rules, entries, inv[k].profile, x);
    var n :| 0 <= n < |entries| && NI.Belongs(rules, entries[n], inv[k].profile, x);
    CI.OneProfile(rules, entries, inv, entries[n]);
    NI.DeviceOrder();
    AscendingDistinct(inv[k].devices, NI.DeviceLt);
  }

  /** What was written to Slurm and read back. */
  ghost predicate WrittenAndRead(inventory: seq<Gres>, profiles: map<string, WireProfile>,
                                 applied: map<string, Applied>)
  {
    && (forall i :: 0 <= i < |inventory| ==> EntryOk(inventory[i])) && Encodes(inventory, profiles)
       && Slashless(inventory)
    && applied.Keys == profiles.Keys && forall p :: p in applied ==> Reads(profiles[p], applied[p])
  }

  lemma AppliedFrom(inv: seq<NI.ProfileInventory>, backend: string -> Backend, profiles: map<string, WireProfile>,
                    applied: map<string, Applied>, p: string) returns (k: nat)
    requires WrittenAndRead(Translated(inv, backend), profiles, applied) && p in applied
    ensures k < |inv| && inv[k].profile == p && inv[k].devices == applied[p].devices
  {
    var inventory := Translated(inv, backend);
    InventoryRoundTrip(inventory, profiles, applied);
    assert NamedBy(inventory, |inventory|, p);
    var i :| 0 <= i < |inventory| && inventory[i].profile == p;
    assert FaithfulAt(inventory, i, applied);
    k := TranslatedFrom(inv, backend, i);
  }

  /** The applied inventory that stems from a built one has each device in one profile, at one index. */
  lemma BuiltInventoried(rules: NI.Rules, node: string, slices: seq<PS.Slice>, inv: seq<NI.ProfileInventory>,
                         backend: string -> Backend,
                         profiles: map<string, WireProfile>, applied: map<string, Applied>)
    requires NI.Built(rules, node, slices, Ok(inv)) && WrittenAndRead(Translated(inv, backend), profiles, applied)
    ensures GA.Inventoried(applied)
  {
    var m, ids :| NI.Outcome(rules, node, slices, m, ids, Ok(inv));
    var entries := NI.Entries(m, ids);
    forall p, q, i, j | p in applied && q in applied && 0 <= i < |applied[p].devices| && 0 <= j < |applied[q].devices|
                        && applied[p].devices[i] == applied[q].devices[j]
      ensures p == q && i == j
    {
      var k := AppliedFrom(inv, backend, profiles, applied, p);
      var l := AppliedFrom(inv, backend, profiles, applied, q);
      OnePlace(rules, entries, inv, k, l, i, j);
    }
  }

  /** From resource slices to claims: on an inventory that was built from a node's slices, written and read back, and
      whose driver and device names have no slash, each request gets exactly its count of devices, and no device goes to
      two requests if and only if Slurm's used indexes do not repeat. */
  lemma NodeDevicesApart(rules: NI.Rules, node: string, slices: seq<PS.Slice>, inv: seq<NI.ProfileInventory>,
                         backend: string -> Backend,
                         profiles: map<string, WireProfile>, applied: map<string, Applied>,
                         indexed: seq<GA.Request>, layouts: seq<GA.Layout>, names: map<string, string>,
                         pools: map<string, seq<int>>, a: seq<GA.Allocation>, results: seq<seq<DeviceID>>)
    requires NI.Built(rules, node, slices, Ok(inv)) && WrittenAndRead(Translated(inv, backend), profiles, applied)
    requires GA.Cut(indexed, layouts, names, pools, a) && GA.Given(applied, a, results)
    ensures forall i :: 0 <= i < |a| ==> |results[i]| == indexed[i].count && Distinct(results[i])
    ensures (forall i, j :: 0 <= i < j < |a| ==> !GA.SharesDevice(results, i, j)) <==>
              GA.UsedOnce(indexed, names, layouts)
  {
    BuiltInventoried(rules, node, slices, inv, backend, profiles, applied);
    forall i | 0 <= i < |a| ensures |results[i]| == indexed[i].count && Distinct(results[i]) {
      GA.DevicesCounted(indexed, layouts, names, pools, a, applied, results, i);
    }
    GA.DevicesApart(indexed, layouts, names, pools, a, applied, results);
  }
}
