/** Giving each device of a node a GRES index, writing that down and reading it back (internal/dra/gres.go,
    EncodeAppliedInventory and DecodeAppliedInventory). */
module GresIndex {
  import opened Ordering
  import opened DevicePath

  /** One GRES type (a device profile) of a GRES name, with its devices in order. */
  datatype Gres = Gres(name: string, profile: string, devices: seq<DeviceID>)

  /** The structure stored, as JSON, in a node's Extra field. */
  datatype WireProfile = WireProfile(firstIndex: int, paths: seq<string>)

  datatype Wire = Wire(version: int, profiles: Option<map<string, WireProfile>>)

  datatype Applied = Applied(firstIndex: int, devices: seq<DeviceID>)

  const VERSION := 1

  // --- encoding ---

  /** The index after the devices of a GRES name in the first n types. */
  function Offset(inventory: seq<Gres>, n: nat, name: string): nat
    requires n <= |inventory|
  {
    if n == 0 then 0
    else Offset(inventory, n - 1, name) + if inventory[n - 1].name == name then |inventory[n - 1].devices| else 0
  }

  ghost predicate Encodable(d: DeviceID) {
    d.driver != "" && d.pool != "" && d.device != ""
  }

  ghost predicate EntryOk(g: Gres) {
    g.profile != "" && forall i :: 0 <= i < |g.devices| ==> Encodable(g.devices[i])
  }

  ghost predicate Written(g: Gres, w: WireProfile, first: int) {
    w.firstIndex == first && |w.paths| == |g.devices| && forall i :: 0 <= i < |g.devices| ==>
      Encode(g.devices[i]) == Ok(w.paths[i])
  }

  method EncodeEntry(g: Gres) returns (r: Result<seq<string>, string>)
    ensures r.Ok? <==> EntryOk(g)
    ensures r.Ok? ==> |r.value| == |g.devices| && forall i :: 0 <= i < |g.devices| ==>
              Encode(g.devices[i]) == Ok(r.value[i])
  {
    if g.profile == "" {
      return Err("empty device profile name");
    }
    var paths: seq<string> := [];
    for i := 0 to |g.devices|
      invariant |paths| == i && forall j :: 0 <= j < i ==>
                  Encodable(g.devices[j]) && Encode(g.devices[j]) == Ok(paths[j])
    {
      var path := Encode(g.devices[i]);
      if path.Err? {
        return Err(path.error);
      }
      paths := paths + [path.value];
    }
    return Ok(paths);
  }

  ghost predicate ProfilesApart(inventory: seq<Gres>) {
    forall i, j :: 0 <= i < j < |inventory| ==> inventory[i].profile != inventory[j].profile
  }

  ghost predicate WrittenAt(inventory: seq<Gres>, i: nat, profiles: map<string, WireProfile>)
    requires i < |inventory|
  {
    && inventory[i].profile in profiles
    && Written(inventory[i], profiles[inventory[i].profile], Offset(inventory, i, inventory[i].name))
  }

  ghost predicate NamedBy(inventory: seq<Gres>, n: nat, p: string)
    requires n <= |inventory|
  {
    exists i :: 0 <= i < n && inventory[i].profile == p
  }

  /** The first n types are encoded, each at the offset of its GRES name, and nothing else is. */
  ghost predicate EncodesFirst(inventory: seq<Gres>, n: nat, profiles: map<string, WireProfile>)
    requires n <= |inventory|
  {
    && (forall i :: 0 <= i < n ==> WrittenAt(inventory, i, profiles))
    && (forall p :: p in profiles ==> NamedBy(inventory, n, p))
  }

  ghost predicate Encodes(inventory: seq<Gres>, profiles: map<string, WireProfile>) {
    EncodesFirst(inventory, |inventory|, profiles)
  }

  lemma EncodedNames(inventory: seq<Gres>, n: nat, profiles: map<string, WireProfile>)
    requires n < |inventory| && EncodesFirst(inventory, n, profiles)
    ensures inventory[n].profile in profiles <==> NamedBy(inventory, n, inventory[n].profile)
  {
    if NamedBy(inventory, n, inventory[n].profile) {
      var i :| 0 <= i < n && inventory[i].profile == inventory[n].profile;
      assert WrittenAt(inventory, i, profiles);
    }
  }

  lemma EncodeNext(inventory: seq<Gres>, n: nat, profiles: map<string, WireProfile>, w: WireProfile)
    requires n < |inventory| && EncodesFirst(inventory, n, profiles) && inventory[n].profile !in profiles
    requires Written(inventory[n], w, Offset(inventory, n, inventory[n].name))
    ensures EncodesFirst(inventory, n + 1, profiles[inventory[n].profile := w])
  {
    var more, m := profiles[inventory[n].profile := w], n + 1;
    forall i | 0 <= i < m ensures WrittenAt(inventory, i, more) {
      if i < n { StaysWritten(inventory, n, profiles, w, i); }
    }
    forall p | p in more ensures NamedBy(inventory, m, p) {
      if p in profiles {
        assert NamedBy(inventory, n, p);
        var i :| 0 <= i < n && inventory[i].profile == p;
      } else {
        assert inventory[n].profile == p;
      }
    }
  }

  lemma StaysWritten(inventory: seq<Gres>, n: nat, profiles: map<string, WireProfile>, w: WireProfile, i: nat)
    requires i < n < |inventory| && WrittenAt(inventory, i, profiles) && inventory[n].profile !in profiles
    ensures WrittenAt(inventory, i, profiles[inventory[n].profile := w])
  {
  }

  /** Each type's profile is new. */
  ghost predicate NewAt(inventory: seq<Gres>, n: nat)
    requires n < |inventory|
  {
    !NamedBy(inventory, n, inventory[n].profile)
  }

  lemma ApartOneByOne(inventory: seq<Gres>)
    ensures ProfilesApart(inventory) <==> forall n :: 0 <= n < |inventory| ==> NewAt(inventory, n)
  {
    if forall n :: 0 <= n < |inventory| ==> NewAt(inventory, n) {
      forall i, j | 0 <= i < j < |inventory| ensures inventory[i].profile != inventory[j].profile {
        assert NewAt(inventory, j);
      }
    }
  }

  /** EncodeAppliedInventory: types that share a GRES name continue each other's indexes. */
  method EncodeAppliedInventory(inventory: seq<Gres>) returns (r: Result<Wire, string>)
    ensures r.Ok? <==> ProfilesApart(inventory) && forall i :: 0 <= i < |inventory| ==> EntryOk(inventory[i])
    ensures r.Ok? ==> r.value.version == 1 && r.value.profiles.Some? && Encodes(inventory, r.value.profiles.value)
  {
    ApartOneByOne(inventory);
    var profiles: map<string, WireProfile>, next: map<string, int> := map[], map[];
    for n := 0 to |inventory|
      invariant forall i :: 0 <= i < n ==> EntryOk(inventory[i]) && NewAt(inventory, i)
      invariant EncodesFirst(inventory, n, profiles)
      invariant forall name :: (if name in next then next[name] else 0) == Offset(inventory, n, name)
    {
      var g := inventory[n];
      var paths := EncodeEntry(g);
      if paths.Err? {
        return Err(paths.error);
      }
      EncodedNames(inventory, n, profiles);
      if g.profile in profiles {
        assert !NewAt(inventory, n);
        return Err("duplicate device profile");
      }
      var first := if g.name in next then next[g.name] else 0;
      EncodeNext(inventory, n, profiles, WireProfile(first, paths.value));
      profiles := profiles[g.profile := WireProfile(first, paths.value)];
      next := next[g.name := first + |g.devices|];
    }
    return Ok(Wire(VERSION, Some(profiles)));
  }

  // --- the ranges of a GRES name tile its indexes ---

  ghost predicate InRange(inventory: seq<Gres>, i: int, name: string, x: int) {
    && 0 <= i < |inventory| && inventory[i].name == name
    && Offset(inventory, i, name) <= x < Offset(inventory, i, name) + |inventory[i].devices|
  }

  lemma {:induction false} OffsetGrows(inventory: seq<Gres>, m: nat, n: nat, name: string)
    requires m <= n <= |inventory|
    ensures Offset(inventory, m, name) <= Offset(inventory, n, name)
  {
    if m < n {
      OffsetGrows(inventory, m, n - 1, name);
    }
  }

  lemma {:induction false} Covered(inventory: seq<Gres>, n: nat, name: string, x: nat) returns (i: nat)
    requires n <= |inventory| && x < Offset(inventory, n, name)
    ensures i < n && InRange(inventory, i, name, x)
  {
    if x < Offset(inventory, n - 1, name) {
      i := Covered(inventory, n - 1, name, x);
    } else {
      i := n - 1;
    }
  }

  /** Every index of a GRES name is in the range of exactly one type, and no range reaches beyond the total. */
  lemma Tiles(inventory: seq<Gres>, name: string, x: int)
    ensures 0 <= x < Offset(inventory, |inventory|, name) <==> exists i :: InRange(inventory, i, name, x)
    ensures forall i, j :: InRange(inventory, i, name, x) && InRange(inventory, j, name, x) ==> i == j
  {
    if 0 <= x < Offset(inventory, |inventory|, name) {
      var i := Covered(inventory, |inventory|, name, x);
    }
    forall i | InRange(inventory, i, name, x) ensures x < Offset(inventory, |inventory|, name) {
      OffsetGrows(inventory, i + 1, |inventory|, name);
    }
    forall i, j | InRange(inventory, i, name, x) && InRange(inventory, j, name, x) ensures i == j {
      if i < j {
        OffsetGrows(inventory, i + 1, j, name);
      } else if j < i {
        OffsetGrows(inventory, j + 1, i, name);
      }
    }
  }

  // --- decoding ---

  ghost predicate ReadableProfile(name: string, w: WireProfile) {
    name != "" && w.firstIndex >= 0 && forall i :: 0 <= i < |w.paths| ==> Decode(w.paths[i]).Ok?
  }

  ghost predicate Reads(w: WireProfile, a: Applied) {
    a.firstIndex == w.firstIndex && |a.devices| == |w.paths| && forall i :: 0 <= i < |w.paths| ==>
      Decode(w.paths[i]) == Ok(a.devices[i])
  }

  method DecodeProfile(name: string, w: WireProfile) returns (r: Result<Applied, string>)
    ensures r.Ok? <==> ReadableProfile(name, w)
    ensures r.Ok? ==> Reads(w, r.value)
  {
    if name == "" {
      return Err("empty device profile name");
    }
    if w.firstIndex < 0 {
      return Err("negative first Slurm GRES index");
    }
    var devices: seq<DeviceID> := [];
    for i := 0 to |w.paths|
      invariant |devices| == i && forall j :: 0 <= j < i ==> Decode(w.paths[j]) == Ok(devices[j])
    {
      var device := Decode(w.paths[i]);
      if device.Err? {
        return Err(device.error);
      }
      devices := devices + [device.value];
    }
    return Ok(Applied(w.firstIndex, devices));
  }

  method DecodeAppliedInventory(wire: Wire) returns (r: Result<map<string, Applied>, string>)
    ensures r.Ok? <==> wire.version == 1 && wire.profiles.Some?
                       && forall p :: p in wire.profiles.value ==> ReadableProfile(p, wire.profiles.value[p])
    ensures r.Ok? ==> r.value.Keys == wire.profiles.value.Keys && forall p :: p in r.value ==>
              Reads(wire.profiles.value[p], r.value[p])
  {
    if wire.version != VERSION {
      return Err("unsupported applied inventory version");
    }
    if wire.profiles.None? {
      return Err("applied inventory has no profiles map");
    }
    var profiles, rest := wire.profiles.value, wire.profiles.value.Keys;
    var inventory: map<string, Applied> := map[];
    while rest != {}
      invariant rest <= profiles.Keys && inventory.Keys == profiles.Keys - rest
      invariant forall p :: p in inventory ==> ReadableProfile(p, profiles[p]) && Reads(profiles[p], inventory[p])
    {
      var p := Pick(rest);
      var a := DecodeProfile(p, profiles[p]);
      if a.Err? {
        return Err(a.error);
      }
      inventory := inventory[p := a.value];
      rest := rest - {p};
    }
    return Ok(inventory);
  }

  ghost predicate Slashless(inventory: seq<Gres>) {
    forall i, k :: 0 <= i < |inventory| && 0 <= k < |inventory[i].devices| ==>
      NoSlash(inventory[i].devices[k].driver) && NoSlash(inventory[i].devices[k].device)
  }

  ghost predicate Faithful(inventory: seq<Gres>, applied: map<string, Applied>) {
    forall i :: 0 <= i < |inventory| ==> FaithfulAt(inventory, i, applied)
  }

  ghost predicate FaithfulAt(inventory: seq<Gres>, i: nat, applied: map<string, Applied>)
    requires i < |inventory|
  {
    && inventory[i].profile in applied
    && applied[inventory[i].profile] == Applied(Offset(inventory, i, inventory[i].name), inventory[i].devices)
  }

  /** What was encoded decodes to the same devices at the same indexes, exactly when no driver or device name has a
      slash. */
  lemma InventoryRoundTrip(inventory: seq<Gres>, profiles: map<string, WireProfile>, applied: map<string, Applied>)
    requires (forall i :: 0 <= i < |inventory| ==> EntryOk(inventory[i])) && Encodes(inventory, profiles)
    requires applied.Keys == profiles.Keys && forall p :: p in applied ==> Reads(profiles[p], applied[p])
    ensures Faithful(inventory, applied) <==> Slashless(inventory)
  {
    forall i | 0 <= i < |inventory|
      ensures FaithfulAt(inventory, i, applied) <==>
                forall k :: 0 <= k < |inventory[i].devices| ==>
                         NoSlash(inventory[i].devices[k].driver) && NoSlash(inventory[i].devices[k].device)
    {
      assert WrittenAt(inventory, i, profiles);
      ProfileRoundTrip(inventory[i], profiles[inventory[i].profile], Offset(inventory, i, inventory[i].name),
                       applied[inventory[i].profile]);
    }
  }

  /** An encoding without slashes in driver and device names can be decoded. */
  lemma SlashlessReadable(inventory: seq<Gres>, profiles: map<string, WireProfile>, p: string)
    requires (forall i :: 0 <= i < |inventory| ==> EntryOk(inventory[i])) && Encodes(inventory, profiles)
             && Slashless(inventory)
    requires p in profiles
    ensures ReadableProfile(p, profiles[p])
  {
    assert NamedBy(inventory, |inventory|, p);
    var i :| 0 <= i < |inventory| && inventory[i].profile == p;
    assert WrittenAt(inventory, i, profiles);
    forall k | 0 <= k < |profiles[p].paths| ensures Decode(profiles[p].paths[k]).Ok? {
      DecodeEncode(inventory[i].devices[k]);
    }
  }

  lemma ProfileRoundTrip(g: Gres, w: WireProfile, first: int, a: Applied)
    requires EntryOk(g) && Written(g, w, first) && Reads(w, a)
    ensures a == Applied(first, g.devices) <==>
              forall k :: 0 <= k < |g.devices| ==> NoSlash(g.devices[k].driver) && NoSlash(g.devices[k].device)
  {
    forall k | 0 <= k < |g.devices|
      ensures a.devices[k] == g.devices[k] <==> NoSlash(g.devices[k].driver) && NoSlash(g.devices[k].device)
    {
      DecodeEncode(g.devices[k]);
      assert Encode(g.devices[k]) == Ok(w.paths[k]) && Decode(w.paths[k]) == Ok(a.devices[k]);
    }
    if forall k :: 0 <= k < |g.devices| ==> NoSlash(g.devices[k].driver) && NoSlash(g.devices[k].device) {
      assert a.devices == g.devices;
    }
  }
}
