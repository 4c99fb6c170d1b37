/** Turning a Slurm core bitmap into per-device CPU shares (internal/nodeinfo/allocation.go). */
module CpuAllocation {
  import Bitmap
  import opened Ordering
  import opened CpuTopology
  import opened CpuGeometry
  import opened CpuInventory
  import opened NumaCores

  /** One device's part of an allocation: its request, its result and its configured CPU set. */
  datatype Share = Share(request: string, device: string, count: nat, cpus: set<int>)

  datatype Allocation = Allocation(shares: seq<Share>, cpuCount: nat)

  // --- request names ---

  function Itoa(n: nat): (s: string)
    ensures |s| > 0 && (n < 10 <==> |s| == 1)
  {
    if n < 10 then ["0123456789"[n]] else Itoa(n / 10) + ["0123456789"[n % 10]]
  }

  lemma {:induction false} ItoaInjective(a: nat, b: nat)
    requires Itoa(a) == Itoa(b)
    ensures a == b
  {
    var s := Itoa(a);
    if a < 10 {
      assert s[0] == "0123456789"[a] && s[0] == "0123456789"[b];
    } else {
      var p, q := Itoa(a / 10), Itoa(b / 10);
      assert s[|s| - 1] == "0123456789"[a % 10] && s[|s| - 1] == "0123456789"[b % 10];
      assert s[..|s| - 1] == p && s[..|s| - 1] == q;
      ItoaInjective(a / 10, b / 10);
    }
  }

  function RequestName(g: Group): string
    requires g.socket >= 0
  {
    if g.numa < 0 then "cpu-socket-" + Itoa(g.socket) else "cpu-numa-" + Itoa(g.numa)
  }

  /** Distinct groups of one accepted inventory have distinct request names. */
  lemma RequestsDistinct(groups: set<Group>, g: Group, h: Group)
    requires GroupsOk(groups) && g in groups && h in groups && g.socket >= 0 && h.socket >= 0 && g.numa >= -1
             && h.numa >= -1
    requires RequestName(g) == RequestName(h)
    ensures g == h
  {
    var s := RequestName(g);
    if g.numa < 0 {
      assert s[11..] == Itoa(g.socket) && s[11..] == Itoa(h.socket);
      ItoaInjective(g.socket, h.socket);
    } else {
      assert s[9..] == Itoa(g.numa) && s[9..] == Itoa(h.numa);
      ItoaInjective(g.numa, h.numa);
    }
  }

  // --- shares ---

  ghost function ShareOf(d: Device, whole: set<int>): Share
    requires d.group.socket >= 0
  {
    Share(RequestName(d.group), d.name, |d.cpus * whole|, d.cpus * whole)
  }

  function Total(shares: seq<Share>): nat {
    if shares == [] then 0 else Total(shares[..|shares| - 1]) + shares[|shares| - 1].count
  }

  ghost predicate Parsed(inv: Inventory) {
    forall n :: n in inv ==> inv[n].group.socket >= 0 && inv[n].group.numa >= -1 && DeviceOk(inv[n])
  }

  /** Before the k-th device: the shares of the earlier devices, in order, and what is left. */
  ghost predicate Shared(inv: Inventory, names: seq<string>, whole: set<int>, k: nat, left: set<int>,
                         shares: seq<Share>, owners: seq<nat>)
    requires Parsed(inv) && Listing(inv, names) && k <= |names|
  {
    && |owners| == |shares| && left <= whole && |left| + Total(shares) == |whole|
    && (forall i :: 0 <= i < |shares| ==>
         owners[i] < k && shares[i] == ShareOf(inv[names[owners[i]]], whole) && shares[i].cpus != {})
    && (forall i, j :: 0 <= i < j < |owners| ==> owners[i] < owners[j])
    && (forall j :: 0 <= j < k ==> inv[names[j]].cpus !! left)
       && (forall x :: x in whole && x !in left ==> InShares(shares, x))
  }

  ghost predicate InShares(shares: seq<Share>, x: int) {
    exists i :: 0 <= i < |shares| && x in shares[i].cpus
  }

  lemma InMoreShares(shares: seq<Share>, share: Share, x: int)
    ensures InShares(shares + [share], x) <==> InShares(shares, x) || x in share.cpus
  {
    var more := shares + [share];
    if i :| 0 <= i < |shares| && x in shares[i].cpus {
      assert more[i] == shares[i];
    }
    assert more[|shares|] == share;
  }

  lemma PartLeft(inv: Inventory, names: seq<string>, whole: set<int>, k: nat, left: set<int>, shares: seq<Share>,
                 owners: seq<nat>)
    requires Sound(inv) && Parsed(inv) && Listing(inv, names) && k < |names|
             && Shared(inv, names, whole, k, left, shares, owners)
    ensures inv[names[k]].cpus * left == inv[names[k]].cpus * whole
  {
    forall x | x in inv[names[k]].cpus * whole ensures x in left {
      forall i | 0 <= i < |shares| ensures x !in shares[i].cpus {
        assert names[owners[i]] != names[k];
      }
    }
  }

  lemma SkipDevice(inv: Inventory, names: seq<string>, whole: set<int>, k: nat, left: set<int>, shares: seq<Share>,
                   owners: seq<nat>)
    requires Parsed(inv) && Listing(inv, names) && k < |names| && Shared(inv, names, whole, k, left, shares, owners)
    requires inv[names[k]].cpus * left == {}
    ensures Shared(inv, names, whole, k + 1, left, shares, owners)
  {
    var cpus := inv[names[k]].cpus;
    assert forall x :: x in left && x in cpus ==> x in cpus * left;
  }

  lemma NextShare(inv: Inventory, names: seq<string>, whole: set<int>, k: nat, left: set<int>, shares: seq<Share>,
                  owners: seq<nat>)
    requires Parsed(inv) && Listing(inv, names) && k < |names| && Shared(inv, names, whole, k, left, shares, owners)
    requires inv[names[k]].cpus * left == inv[names[k]].cpus * whole != {}
    ensures var d := inv[names[k]];
            Shared(inv, names, whole, k + 1, left - d.cpus * whole, shares + [ShareOf(d, whole)], owners + [k])
  {
    var d := inv[names[k]];
    var part := d.cpus * whole;
    var more := shares + [ShareOf(d, whole)];
    assert more[..|shares|] == shares;
    assert |left - part| == |left| - |part|;
    forall x | x in whole && x !in left - part ensures InShares(more, x) {
      InMoreShares(shares, ShareOf(d, whole), x);
    }
  }

  /** The shares split the CPUs of the bitmap among the devices: nothing is lost, nothing is given twice. */
  ghost predicate Conserves(inv: Inventory, whole: set<int>, a: Allocation) {
    && a.cpuCount == |whole| && Total(a.shares) == a.cpuCount
    && (forall i :: 0 <= i < |a.shares| ==> PartOf(inv, whole, a.shares[i]))
    && (forall i, j :: 0 <= i < j < |a.shares| ==> Separate(a.shares[i], a.shares[j]))
    && (forall x :: x in whole ==> InShares(a.shares, x))
  }

  /** A share is what its device has of the CPUs, within the device's capacity. */
  ghost predicate PartOf(inv: Inventory, whole: set<int>, s: Share) {
    && s.device in inv && s.cpus == inv[s.device].cpus * whole && s.cpus != {}
       && s.count == |s.cpus| <= inv[s.device].capacity
  }

  ghost predicate Separate(s: Share, t: Share) {
    s.device != t.device && s.request != t.request && s.cpus !! t.cpus
  }

  lemma SharesConserve(inv: Inventory, names: seq<string>, whole: set<int>, shares: seq<Share>, owners: seq<nat>)
    requires Sound(inv) && Parsed(inv) && GroupsOk(Groups(inv)) && Listing(inv, names)
    requires Shared(inv, names, whole, |names|, {}, shares, owners)
    ensures Conserves(inv, whole, Allocation(shares, |whole|))
  {
    forall i | 0 <= i < |shares| ensures PartOf(inv, whole, shares[i]) {
      CardOfSubset(shares[i].cpus, inv[names[owners[i]]].cpus);
    }
    forall i, j | 0 <= i < j < |shares| ensures Separate(shares[i], shares[j]) {
      assert owners[i] < owners[j];
      SharesSeparate(inv, whole, names[owners[i]], names[owners[j]]);
    }
  }

  lemma SharesSeparate(inv: Inventory, whole: set<int>, m: string, n: string)
    requires Sound(inv) && Parsed(inv) && GroupsOk(Groups(inv)) && m in inv && n in inv && m != n
    ensures Separate(ShareOf(inv[m], whole), ShareOf(inv[n], whole))
  {
    var d, e := inv[m], inv[n];
    assert d.group in Groups(inv) && e.group in Groups(inv);
    if RequestName(d.group) == RequestName(e.group) {
      RequestsDistinct(Groups(inv), d.group, e.group);
    }
  }

  /** Every CPU of a core map belongs to a device. */
  lemma CpuHasDevice(inv: Inventory, cores: seq<Core>, m: CPUMap, bits: Bits, names: seq<string>, x: int)
    requires Sound(inv) && Maps(inv, cores, m) && Listing(inv, names) && x in MachineOf(m, bits)
    ensures exists j :: 0 <= j < |names| && x in inv[names[j]].cpus
  {
    MachineHas(m, bits, x);
    var k :| Named(m, bits, k, x);
    CoreCpus(inv, cores, m, k);
    var n, y :| n in inv && y in inv[n].cpus && m.infos[x] == InfoOf(inv[n], y);
    assert n in names;
    var j :| 0 <= j < |names| && names[j] == n;
  }

  /** The device class accepts every device that would give CPUs. */
  ghost predicate ClassAccepts(inv: Inventory, whole: set<int>, matches: string -> bool) {
    forall n :: n in inv && inv[n].cpus * whole != {} ==> matches(n)
  }

  /** The device loop of AllocateCPUs. Neither a device's capacity nor CPUs without a device can stop it. */
  method ShareOut(inv: Inventory, m: CPUMap, bits: Bits, whole: set<int>, matches: string -> bool,
                  ghost cores: seq<Core>)
    returns (r: Result<Allocation, string>)
    requires Sound(inv) && Parsed(inv) && GroupsOk(Groups(inv)) && Maps(inv, cores, m) && whole == MachineOf(m, bits)
    ensures r.Ok? <==> ClassAccepts(inv, whole, matches)
    ensures r.Ok? ==> Conserves(inv, whole, r.value)
  {
    var names := SortedCPUDeviceNames(inv);
    var left, shares, ok;
    ghost var owners;
    left, shares, ok, owners := TakeShares(inv, names, whole, matches);
    if !ok {
      return Err("CPU device does not match CPU DeviceClass");
    }
    NothingLeft(inv, cores, m, bits, names, whole, left, shares, owners);
    if left != {} {
      assert false;
    }
    SharesConserve(inv, names, whole, shares, owners);
    return Ok(Allocation(shares, |whole|));
  }

  method TakeShares(inv: Inventory, names: seq<string>, whole: set<int>, matches: string -> bool)
    returns (left: set<int>, shares: seq<Share>, ok: bool, ghost owners: seq<nat>)
    requires Sound(inv) && Parsed(inv) && Listing(inv, names)
    ensures ok <==> ClassAccepts(inv, whole, matches)
    ensures ok ==> Shared(inv, names, whole, |names|, left, shares, owners)
  {
    left, shares, owners, ok := whole, [], [], true;
    for k := 0 to |names|
      invariant ok && Shared(inv, names, whole, k, left, shares, owners)
      invariant forall j :: 0 <= j < k && inv[names[j]].cpus * whole != {} ==> matches(names[j])
    {
      left, shares, ok, owners := TakeShare(inv, names, whole, k, left, shares, owners, matches(names[k]));
      if !ok {
        return;
      }
    }
  }

  method TakeShare(inv: Inventory, names: seq<string>, whole: set<int>, k: nat, left: set<int>, shares: seq<Share>,
                   ghost owners: seq<nat>, matched: bool)
    returns (left': set<int>, shares': seq<Share>, ok: bool, ghost owners': seq<nat>)
    requires Sound(inv) && Parsed(inv) && Listing(inv, names) && k < |names|
             && Shared(inv, names, whole, k, left, shares, owners)
    ensures ok <==> inv[names[k]].cpus * whole == {} || matched
    ensures ok ==> Shared(inv, names, whole, k + 1, left', shares', owners')
  {
    var device := inv[names[k]];
    left', shares', ok, owners' := left, shares, true, owners;
    PartLeft(inv, names, whole, k, left, shares, owners);
    var part := device.cpus * left;
    if part == {} {
      SkipDevice(inv, names, whole, k, left, shares, owners);
      return;
    }
    if !matched {
      ok := false;
      return;
    }
    CardOfSubset(part, device.cpus);
    if device.capacity < |part| {
      assert false;
    }
    NextShare(inv, names, whole, k, left, shares, owners);
    left' := left - part;
    shares' := shares + [Share(RequestName(device.group), device.name, |part|, part)];
    owners' := owners + [k];
  }

  lemma NothingLeft(inv: Inventory, cores: seq<Core>, m: CPUMap, bits: Bits, names: seq<string>, whole: set<int>,
                    left: set<int>,
                    shares: seq<Share>, owners: seq<nat>)
    requires Sound(inv) && Parsed(inv) && Maps(inv, cores, m) && Listing(inv, names) && whole == MachineOf(m, bits)
    requires Shared(inv, names, whole, |names|, left, shares, owners)
    ensures left == {}
  {
    forall x ensures x !in left {
      if x in whole {
        CpuHasDevice(inv, cores, m, bits, names, x);
      }
    }
  }

  /** A node has at most one geometry. */
  lemma ShapeUnique(node: NodeInfo, cores: seq<Core>, a: Shape, b: Shape)
    requires node.devices != map[] && |node.cpuMap.abstractToMachine| == |cores|
    requires HasShape(node.devices, cores, node.cpuMap, a) && HasShape(node.devices, cores, node.cpuMap, b)
    ensures a == b
  {
    var n :| n in node.devices;
    var g := node.devices[n].group;
    assert g in Groups(node.devices) && CountIn(cores, g) == a.cores == b.cores;
    CountPositive(cores, g);
    var k :| 0 <= k < |cores| && cores[k].group == g;
    assert |node.cpuMap.abstractToMachine[k]| == a.threads;
  }

  /** The node has a geometry, and it is the one Slurm reports, where Slurm reports one. */
  ghost predicate GeometryAgrees(node: NodeInfo, cores: seq<Core>, sockets: int, coresPerSocket: int) {
    && node.devices != map[]
    && exists shape ::
         HasShape(node.devices, cores, node.cpuMap, shape) && sockets in {0, shape.sockets}
         && coresPerSocket in {0, shape.cores}
  }

  // --- the core bitmap ---

  predicate At(bits: Bits, n: nat) {
    n < |bits| && bits[n]
  }

  ghost predicate SameBits(a: Bits, b: Bits) {
    forall n: nat :: At(a, n) <==> At(b, n)
  }

  function BitsOf(bm: seq<Bitmap.Block>): Bits {
    seq(64 * |bm|, n requires 0 <= n => Bitmap.Bit(bm, n))
  }

  predicate HexBit(numeral: string, n: nat) {
    (Bitmap.DigitAt(numeral, n / 4) / Bitmap.Power(n % 4)) % 2 == 1
  }

  /** The bits of a hexadecimal numeral. */
  function HexBits(numeral: string): Bits {
    seq(4 * |numeral|, n requires 0 <= n => HexBit(numeral, n))
  }

  /** The cores a job's bitmap names. */
  function CoresOf(coreBitmap: string): Bits {
    HexBits(Bitmap.TrimPrefix(coreBitmap))
  }

  lemma ZeroBit(n: nat)
    ensures (0 / Bitmap.Power(n)) % 2 == 0
  {
  }

  lemma DenotedBits(numeral: string, bm: seq<Bitmap.Block>)
    requires Bitmap.Denotes(numeral, bm)
    ensures SameBits(HexBits(numeral), BitsOf(bm))
  {
    forall n: nat ensures At(HexBits(numeral), n) <==> At(BitsOf(bm), n) {
      assert Bitmap.DigitAt(numeral, n / 4) == Bitmap.DigitOf(bm, n / 4);
      assert HexBit(numeral, n) <==> Bitmap.Bit(bm, n);
      ZeroBit(n % 4);
      if n >= 4 * |numeral| { assert n / 4 >= |numeral|; }
      if n >= 64 * |bm| { assert n / 4 / 16 >= |bm|; }
    }
  }

  lemma {:induction false} SameOnes(a: Bits, b: Bits)
    requires SameBits(a, b)
    ensures Ones(a) == Ones(b)
    decreases |a| + |b|
  {
    if |a| > |b| {
      assert !At(b, |a| - 1) && !At(a, |a| - 1);
      DropFalse(a, b);
      SameOnes(a[..|a| - 1], b);
    } else if |b| > |a| {
      assert !At(a, |b| - 1) && !At(b, |b| - 1);
      DropFalse(b, a);
      SameOnes(a, b[..|b| - 1]);
    } else {
      forall n | 0 <= n < |a| ensures a[n] == b[n] {
        assert At(a, n) <==> At(b, n);
      }
      assert a == b;
    }
  }

  lemma DropFalse(a: Bits, b: Bits)
    requires SameBits(a, b) && |a| > |b|
    ensures SameBits(a[..|a| - 1], b) && SameBits(b, a[..|a| - 1])
  {
    var fewer := a[..|a| - 1];
    forall n: nat ensures At(fewer, n) <==> At(b, n) {
      assert At(a, n) <==> At(b, n);
    }
  }

  /** Bitmaps with the same bits name the same CPUs. */
  lemma SameCpus(m: CPUMap, a: Bits, b: Bits)
    requires SameBits(a, b)
    ensures Ones(a) == Ones(b) && (InRange(m, a) <==> InRange(m, b)) && MachineOf(m, a) == MachineOf(m, b)
  {
    SameOnes(a, b);
    forall k: nat ensures At(a, k) <==> At(b, k) {
    }
    assert (forall k :: 0 <= k < |a| && a[k] ==> At(b, k)) && (forall k :: 0 <= k < |b| && b[k] ==> At(a, k)) by {
      assert forall k :: 0 <= k < |a| && a[k] ==> At(a, k);
      assert forall k :: 0 <= k < |b| && b[k] ==> At(b, k);
    }
    forall x ensures x in MachineOf(m, a) <==> x in MachineOf(m, b) {
      MachineHas(m, a, x);
      MachineHas(m, b, x);
      if k :| Named(m, a, k, x) { assert At(b, k) && Named(m, b, k, x); }
      if k :| Named(m, b, k, x) { assert At(a, k) && Named(m, a, k, x); }
    }
  }

  // --- the whole allocation ---

  /** A device class: whether it carries configuration, and whether all its selectors accept a device. */
  datatype DeviceClass = DeviceClass(configured: bool, matches: string -> bool)

  /** AllocateCPUs. The class is what reading it from Kubernetes gave. */
  method AllocateCPUs(node: NodeInfo, coreBitmap: string, allocationKey: string,
                      deviceClass: Result<DeviceClass, string>, sockets: int,
                      coresPerSocket: int, ghost cores: seq<Core>)
    returns (r: Result<Allocation, string>)
    requires Sound(node.devices) && Parsed(node.devices) && GroupsOk(Groups(node.devices))
             && Maps(node.devices, cores, node.cpuMap)
    ensures r.Ok? <==> (
              && coreBitmap != "" && allocationKey != "" && deviceClass.Ok? && !deviceClass.value.configured
              && GeometryAgrees(node, cores, sockets, coresPerSocket) && Bitmap.AllHex(Bitmap.TrimPrefix(coreBitmap))
              && InRange(node.cpuMap, CoresOf(coreBitmap)) && Ones(CoresOf(coreBitmap)) > 0
              && ClassAccepts(node.devices, MachineOf(node.cpuMap, CoresOf(coreBitmap)), deviceClass.value.matches))
    ensures r.Ok? ==> Conserves(node.devices, MachineOf(node.cpuMap, CoresOf(coreBitmap)), r.value)
    ensures r.Ok? ==> forall shape :: HasShape(node.devices, cores, node.cpuMap, shape) ==>
              r.value.cpuCount == Ones(CoresOf(coreBitmap)) * shape.threads
  {
    if coreBitmap == "" {
      return Err("missing Slurm CPU allocation bitmap");
    }
    if allocationKey == "" {
      return Err("missing CPU allocation identity");
    }
    if deviceClass.Err? {
      return Err(deviceClass.error);
    }
    if deviceClass.value.configured {
      return Err("CPU DeviceClass configuration is unsupported");
    }
    var geometry := Geometry(node.cpuMap, node.devices, cores);
    if geometry.Err? {
      return Err(geometry.error);
    }
    var shape := geometry.value;
    if shape.sockets == 0 {
      assert |node.devices.Keys| == |node.devices|;
      return Err("no applied grouped CPU inventory");
    }
    forall other | HasShape(node.devices, cores, node.cpuMap, other) ensures other == shape {
      ShapeUnique(node, cores, shape, other);
    }
    if (sockets != 0 && sockets != shape.sockets) || (coresPerSocket != 0 && coresPerSocket != shape.cores) {
      return Err("allocated Slurm geometry differs from applied CPU mapping");
    }
    var parsed := Bitmap.NewFrom(coreBitmap);
    if parsed.Err? {
      return Err(parsed.error);
    }
    DenotedBits(Bitmap.TrimPrefix(coreBitmap), parsed.value);
    SameCpus(node.cpuMap, CoresOf(coreBitmap), BitsOf(parsed.value));
    r := AllocateBits(node, BitsOf(parsed.value), deviceClass.value.matches, shape, cores);
  }

  method AllocateBits(node: NodeInfo, bits: Bits, matches: string -> bool, ghost shape: Shape, ghost cores: seq<Core>)
    returns (r: Result<Allocation, string>)
    requires Sound(node.devices) && Parsed(node.devices) && GroupsOk(Groups(node.devices))
             && Maps(node.devices, cores, node.cpuMap)
    requires node.devices != map[] && HasShape(node.devices, cores, node.cpuMap, shape)
    ensures r.Ok? <==>
              InRange(node.cpuMap, bits) && Ones(bits) > 0
              && ClassAccepts(node.devices, MachineOf(node.cpuMap, bits), matches)
    ensures r.Ok? ==>
              Conserves(node.devices, MachineOf(node.cpuMap, bits), r.value)
              && r.value.cpuCount == Ones(bits) * shape.threads
  {
    if !InRange(node.cpuMap, bits) {
      return Err("bitmap contains a core outside the applied CPU mapping");
    }
    MapApart(node.devices, cores, node.cpuMap, shape);
    MachineCount(node.cpuMap, shape.threads, bits);
    var cpus := ToMachineCPUs(node.cpuMap, bits);
    NonEmpty(cpus, Ones(bits), shape.threads);
    if cpus == {} {
      return Err("empty Slurm CPU allocation");
    }
    r := ShareOut(node.devices, node.cpuMap, bits, cpus, matches, cores);
  }

  /** Slurm's bitmap may be written out and read back on the way: the CPUs are the same. */
  lemma SameAllocation(m: CPUMap, a: seq<Bitmap.Block>, b: seq<Bitmap.Block>)
    requires forall n: nat :: Bitmap.Bit(a, n) <==> Bitmap.Bit(b, n)
    ensures MachineOf(m, BitsOf(a)) == MachineOf(m, BitsOf(b)) && Ones(BitsOf(a)) == Ones(BitsOf(b))
  {
    forall n: nat ensures At(BitsOf(a), n) <==> At(BitsOf(b), n) {
      assert Bitmap.Bit(a, n) <==> Bitmap.Bit(b, n);
      ZeroBit(n % 4);
      if n >= 64 * |a| { assert n / 4 / 16 >= |a|; }
      if n >= 64 * |b| { assert n / 4 / 16 >= |b|; }
    }
    SameCpus(m, BitsOf(a), BitsOf(b));
  }

  /** An inventory that NewNodeInfo accepted is one that CPUs can be allocated from, and it has a geometry. */
  lemma AcceptedReady(devices: seq<Device>, node: NodeInfo, cores: seq<Core>)
    requires forall k :: 0 <= k < |devices| ==>
               DeviceOk(devices[k]) && devices[k].group.socket >= 0 && devices[k].group.numa >= -1
    requires Filed(devices, node.devices) && Sound(node.devices) && Uniform(node.devices)
             && Maps(node.devices, cores, node.cpuMap)
    ensures Parsed(node.devices) && GroupsOk(Groups(node.devices))
    ensures node.devices != map[] ==> GeometryAgrees(node, cores, 0, 0)
  {
    UniformAsListed(node.devices, cores, node.cpuMap);
    if node.devices != map[] {
      var n :| n in node.devices;
      var g := node.devices[n].group;
      assert g in Groups(node.devices);
      CoreGroups(node.devices, cores, node.cpuMap);
      CountPositive(cores, g);
      var k :| 0 <= k < |cores| && cores[k].group == g;
      CoreCpus(node.devices, cores, node.cpuMap, k);
      var shape := Shape(|node.devices|, CountIn(cores, g), |node.cpuMap.abstractToMachine[k]|);
      assert HasShape(node.devices, cores, node.cpuMap, shape);
    }
  }

  lemma NonEmpty(cpus: set<int>, ones: nat, t: nat)
    requires |cpus| == ones * t && t > 0
    ensures cpus == {} <==> ones == 0
  {
    if ones > 0 {
      assert ones * t >= t;
    }
  }
}
