/** Decoding a device's SMT layout into a sibling map (internal/nodeinfo/cpuinfo.go, decodeSMTLayout). */
module SmtLayout {
  import opened Ordering

  const MAX_TOPOLOGY_CPUS := 65535
  const MAX_INT32 := 0x7fff_ffff

  /** One atom of the layout: parsed CPU IDs in ascending order, and the stride if it has one. */
  datatype Atom = Atom(cpus: seq<int>, stride: Option<int>)

  type Siblings = map<int, int>

  predicate Listed(cpus: seq<int>) {
    && (forall i, j :: 0 <= i < j < |cpus| ==> cpus[i] < cpus[j])
    && (forall i :: 0 <= i < |cpus| ==> 0 <= cpus[i] <= MAX_INT32)
  }

  ghost predicate Has(cpus: seq<int>, x: int) {
    exists i :: 0 <= i < |cpus| && cpus[i] == x
  }

  /** The lower halves of a split of the CPUs into pairs {x, x + d}. */
  ghost predicate Lower(cpus: seq<int>, d: int, low: iset<int>) {
    && (forall x :: x in low ==> Has(cpus, x) && Has(cpus, x + d) && x + d !in low)
    && (forall x :: Has(cpus, x) && x !in low ==> x - d in low)
  }

  ghost predicate Pairable(cpus: seq<int>, d: int) {
    exists low :: Lower(cpus, d, low)
  }

  /** The greedy choice: a CPU is a lower half unless the CPU one stride below is. */
  ghost predicate Greedy(cpus: seq<int>, d: int, x: int)
    requires d > 0
    decreases if x >= 0 then x + 1 else 0
  {
    x >= 0 && Has(cpus, x) && !Greedy(cpus, d, x - d)
  }

  /** Any split is the greedy one. */
  lemma {:induction false} LowerIsGreedy(cpus: seq<int>, d: int, low: iset<int>, x: int)
    requires d > 0 && Listed(cpus) && Lower(cpus, d, low)
    ensures x in low <==> Greedy(cpus, d, x)
    decreases if x >= 0 then x + 1 else 0
  {
    if x >= 0 {
      LowerIsGreedy(cpus, d, low, x - d);
      assert x - d in low ==> x - d + d == x;
    }
  }

  lemma PairingUnique(cpus: seq<int>, d: int, a: iset<int>, b: iset<int>)
    requires d > 0 && Listed(cpus) && Lower(cpus, d, a) && Lower(cpus, d, b)
    ensures a == b
  {
    forall x ensures x in a <==> x in b {
      LowerIsGreedy(cpus, d, a, x);
      LowerIsGreedy(cpus, d, b, x);
    }
  }

  /** Every greedy lower half has a partner. */
  ghost predicate Partnered(cpus: seq<int>, d: int)
    requires d > 0
  {
    forall x :: Greedy(cpus, d, x) ==> Has(cpus, x + d)
  }

  /** The greedy choice is sound and complete: a set can be split into pairs exactly when it splits greedily. */
  lemma GreedyDecides(cpus: seq<int>, d: int)
    requires d > 0 && Listed(cpus)
    ensures Partnered(cpus, d) <==> Pairable(cpus, d)
  {
    if Partnered(cpus, d) {
      GreedySplits(cpus, d);
    }
    if low :| Lower(cpus, d, low) {
      forall x | Greedy(cpus, d, x) ensures Has(cpus, x + d) {
        LowerIsGreedy(cpus, d, low, x);
      }
    }
  }

  lemma GreedySplits(cpus: seq<int>, d: int)
    requires d > 0 && Partnered(cpus, d) && Listed(cpus)
    ensures Pairable(cpus, d)
  {
    var greedy := iset x | Greedy(cpus, d, x);
    assert Lower(cpus, d, greedy) by {
      forall x | x in greedy ensures Has(cpus, x) && Has(cpus, x + d) && x + d !in greedy {
        assert x + d - d == x;
      }
    }
  }

  /** The sibling of a CPU in an accepted atom. */
  ghost function SiblingIn(atom: Atom, x: int): int
    requires atom.stride.Some? ==> atom.stride.value > 0
  {
    if atom.stride.None? then -1
    else if Greedy(atom.cpus, atom.stride.value, x) then x + atom.stride.value
    else x - atom.stride.value
  }

  ghost predicate Accepted(atom: Atom) {
    atom.stride.Some? ==> atom.stride.value > 0 && Partnered(atom.cpus, atom.stride.value)
  }

  /** The CPUs of the atom are added, each with its sibling. */
  ghost predicate Extends(before: Siblings, after: Siblings, atom: Atom)
    requires Accepted(atom)
  {
    && (forall x :: x in after <==> x in before || Has(atom.cpus, x))
    && (forall x :: x in before && x in after ==> after[x] == before[x])
    && (forall x {:trigger SiblingIn(atom, x)} :: Has(atom.cpus, x) ==> x in after && after[x] == SiblingIn(atom, x))
  }

  ghost predicate Fresh(siblings: Siblings, cpus: seq<int>) {
    forall i :: 0 <= i < |cpus| ==> cpus[i] !in siblings
  }

  method NoDuplicates(siblings: Siblings, cpus: seq<int>) returns (ok: bool)
    ensures ok <==> Fresh(siblings, cpus)
  {
    for i := 0 to |cpus|
      invariant forall j :: 0 <= j < i ==> cpus[j] !in siblings
    {
      if cpus[i] in siblings {
        return false;
      }
    }
    return true;
  }

  method Single(siblings: Siblings, cpus: seq<int>) returns (m: Siblings)
    requires Fresh(siblings, cpus)
    ensures Extends(siblings, m, Atom(cpus, None))
  {
    m := siblings;
    for i := 0 to |cpus|
      invariant forall x :: x in m <==> x in siblings || Has(cpus[..i], x)
      invariant forall x :: x in siblings ==> m[x] == siblings[x]
      invariant forall x :: x in m && x !in siblings ==> m[x] == -1
    {
      HasMore(cpus, i);
      if cpus[i] in m {
        continue;
      }
      m := m[cpus[i] := -1];
    }
    assert cpus[..|cpus|] == cpus;
  }

  lemma HasMore(cpus: seq<int>, i: nat)
    requires i < |cpus|
    ensures forall x :: Has(cpus[..i + 1], x) <==> Has(cpus[..i], x) || x == cpus[i]
  {
    var before, more := cpus[..i], cpus[..i + 1];
    forall x ensures Has(more, x) <==> Has(before, x) || x == cpus[i] {
      HasNext(cpus, i, x);
    }
  }

  /** A CPU the greedy loop has dealt with before its i-th: an earlier one, or the partner of an earlier lower half. */
  ghost predicate Reached(cpus: seq<int>, d: int, i: nat, x: int)
    requires d > 0 && i <= |cpus|
  {
    Has(cpus[..i], x) || (Has(cpus[..i], x - d) && Greedy(cpus, d, x - d))
  }

  /** What the greedy loop knows of a CPU before its i-th step. */
  ghost predicate At(siblings: Siblings, m: Siblings, cpus: seq<int>, d: int, i: nat, x: int)
    requires d > 0 && i <= |cpus|
  {
    && (x in m <==> x in siblings || Reached(cpus, d, i, x))
    && (x in siblings && x in m ==> m[x] == siblings[x])
    && (x in m && x !in siblings ==> m[x] == if Greedy(cpus, d, x) then x + d else x - d)
    && (Has(cpus[..i], x) && Greedy(cpus, d, x) ==> Has(cpus, x + d))
  }

  ghost predicate Halfway(siblings: Siblings, m: Siblings, cpus: seq<int>, d: int, i: nat)
    requires d > 0 && i <= |cpus|
  {
    forall x :: At(siblings, m, cpus, d, i, x)
  }

  method Paired(siblings: Siblings, cpus: seq<int>, d: int) returns (r: Result<Siblings, string>)
    requires d > 0 && Listed(cpus) && Fresh(siblings, cpus)
    ensures r.Ok? <==> Partnered(cpus, d)
    ensures r.Ok? ==> Extends(siblings, r.value, Atom(cpus, Some(d)))
  {
    var m := siblings;
    assert Halfway(siblings, m, cpus, d, 0);
    for i := 0 to |cpus|
      invariant Halfway(siblings, m, cpus, d, i)
    {
      var cpu := cpus[i];
      Unpaired(siblings, m, cpus, d, i);
      if cpu in m {
        Skipped(siblings, m, cpus, d, i);
        continue;
      }
      var other := cpu + d;
      HasIn(cpus, other);
      if other > MAX_INT32 || other !in cpus {
        return Err("CPU has no sibling at stride");
      }
      PartnerUnpaired(siblings, m, cpus, d, i);
      if other in m {
        assert false;
      }
      Joined(siblings, m, cpus, d, i);
      m := m[cpu := other][other := cpu];
    }
    Finished(siblings, m, cpus, d);
    return Ok(m);
  }

  lemma EarlierSmaller(cpus: seq<int>, i: nat, y: int)
    requires Listed(cpus) && i < |cpus| && Has(cpus[..i], y)
    ensures Has(cpus, y) && y < cpus[i]
  {
    var k :| 0 <= k < i && cpus[..i][k] == y;
    assert cpus[k] == y;
  }

  lemma SmallerEarlier(cpus: seq<int>, i: nat, y: int)
    requires Listed(cpus) && i < |cpus| && Has(cpus, y) && y < cpus[i]
    ensures Has(cpus[..i], y)
  {
    var k :| 0 <= k < |cpus| && cpus[k] == y;
    assert k < i && cpus[..i][k] == y;
  }

  lemma HasIn(cpus: seq<int>, y: int)
    ensures Has(cpus, y) <==> y in cpus
    ensures Listed(cpus) && Has(cpus, y) ==> y <= MAX_INT32
  {
  }

  /** The CPU at hand is unpaired exactly when it is a lower half. */
  lemma Unpaired(siblings: Siblings, m: Siblings, cpus: seq<int>, d: int, i: nat)
    requires d > 0 && Listed(cpus) && Fresh(siblings, cpus) && i < |cpus| && Halfway(siblings, m, cpus, d, i)
    ensures Has(cpus, cpus[i]) && (cpus[i] !in m <==> Greedy(cpus, d, cpus[i]))
  {
    var x := cpus[i];
    assert At(siblings, m, cpus, d, i, x);
    if Has(cpus[..i], x) { EarlierSmaller(cpus, i, x); }
    if Greedy(cpus, d, x - d) { SmallerEarlier(cpus, i, x - d); }
  }

  /** And then its partner is unpaired too. */
  lemma PartnerUnpaired(siblings: Siblings, m: Siblings, cpus: seq<int>, d: int, i: nat)
    requires d > 0 && Listed(cpus) && Fresh(siblings, cpus) && i < |cpus| && Halfway(siblings, m, cpus, d, i)
    requires Has(cpus, cpus[i] + d)
    ensures cpus[i] + d !in m
  {
    var y := cpus[i] + d;
    assert At(siblings, m, cpus, d, i, y);
    var k :| 0 <= k < |cpus| && cpus[k] == y;
    if Has(cpus[..i], y) { EarlierSmaller(cpus, i, y); }
    if Has(cpus[..i], y - d) { EarlierSmaller(cpus, i, y - d); }
  }

  lemma HasNext(cpus: seq<int>, i: nat, x: int)
    requires i < |cpus|
    ensures Has(cpus[..i + 1], x) <==> Has(cpus[..i], x) || x == cpus[i]
  {
    var before, more := cpus[..i], cpus[..i + 1];
    if k :| 0 <= k < |before| && before[k] == x {
      assert more[k] == x;
    }
    if k :| 0 <= k < |more| && more[k] == x {
      assert k < i ==> before[k] == x;
    }
    assert more[i] == cpus[i];
  }

  lemma Skipped(siblings: Siblings, m: Siblings, cpus: seq<int>, d: int, i: nat)
    requires d > 0 && i < |cpus| && Halfway(siblings, m, cpus, d, i) && cpus[i] in m && !Greedy(cpus, d, cpus[i])
    ensures Halfway(siblings, m, cpus, d, i + 1)
  {
    var j := i + 1;
    forall x ensures At(siblings, m, cpus, d, j, x) {
      assert At(siblings, m, cpus, d, i, x);
      HasNext(cpus, i, x);
      HasNext(cpus, i, x - d);
    }
  }

  lemma Joined(siblings: Siblings, m: Siblings, cpus: seq<int>, d: int, i: nat)
    requires d > 0 && i < |cpus| && Fresh(siblings, cpus) && Halfway(siblings, m, cpus, d, i)
    requires Greedy(cpus, d, cpus[i]) && cpus[i] + d !in m && Has(cpus, cpus[i] + d)
    ensures Halfway(siblings, m[cpus[i] := cpus[i] + d][cpus[i] + d := cpus[i]], cpus, d, i + 1)
  {
    var next := m[cpus[i] := cpus[i] + d][cpus[i] + d := cpus[i]];
    var k :| 0 <= k < |cpus| && cpus[k] == cpus[i] + d;
    var j := i + 1;
    forall x ensures At(siblings, next, cpus, d, j, x) {
      assert At(siblings, m, cpus, d, i, x);
      HasNext(cpus, i, x);
      HasNext(cpus, i, x - d);
      assert !Greedy(cpus, d, cpus[i] + d) by { assert cpus[i] + d - d == cpus[i]; }
    }
  }

  lemma Finished(siblings: Siblings, m: Siblings, cpus: seq<int>, d: int)
    requires d > 0 && Fresh(siblings, cpus) && Listed(cpus) && Halfway(siblings, m, cpus, d, |cpus|)
    ensures Partnered(cpus, d) && Extends(siblings, m, Atom(cpus, Some(d)))
  {
    assert cpus[..|cpus|] == cpus;
    forall x ensures Greedy(cpus, d, x) ==> Has(cpus, x + d) {
      assert At(siblings, m, cpus, d, |cpus|, x);
    }
    forall x ensures Reached(cpus, d, |cpus|, x) <==> Has(cpus, x) {
      assert x - d + d == x;
    }
    forall x ensures x in m <==> x in siblings || Has(cpus, x) {
      assert At(siblings, m, cpus, d, |cpus|, x);
    }
    forall x | x in siblings && x in m ensures m[x] == siblings[x] {
      assert At(siblings, m, cpus, d, |cpus|, x);
    }
    forall x | Has(cpus, x) ensures x in m && m[x] == SiblingIn(Atom(cpus, Some(d)), x) {
      assert At(siblings, m, cpus, d, |cpus|, x);
    }
  }

  // --- a whole layout ---

  ghost function Domain(atoms: seq<Atom>): set<int> {
    if atoms == [] then {}
    else
      var cpus := atoms[|atoms| - 1].cpus;
      Domain(atoms[..|atoms| - 1]) + CpuSet(cpus)
  }

  ghost function CpuSet(cpus: seq<int>): set<int> {
    set i | 0 <= i < |cpus| :: cpus[i]
  }

  lemma CpuSetHas(cpus: seq<int>)
    ensures forall x :: x in CpuSet(cpus) <==> Has(cpus, x)
  {
  }

  ghost predicate Valid(atoms: seq<Atom>) {
    forall n :: 0 <= n < |atoms| ==> Listed(atoms[n].cpus)
  }

  /** The n-th atom shares no CPU with an earlier one. */
  ghost predicate ApartFrom(atoms: seq<Atom>, n: nat)
    requires n < |atoms|
  {
    forall a, x :: 0 <= a < n && Has(atoms[a].cpus, x) ==> !Has(atoms[n].cpus, x)
  }

  /** No CPU is in two atoms. */
  ghost predicate Apart(atoms: seq<Atom>) {
    forall n :: 0 <= n < |atoms| ==> ApartFrom(atoms, n)
  }

  ghost predicate AllAccepted(atoms: seq<Atom>) {
    forall n :: 0 <= n < |atoms| ==> Accepted(atoms[n])
  }

  /** The map lists exactly the layout's CPUs, each with its sibling. */
  ghost predicate Decoded(atoms: seq<Atom>, m: Siblings) {
    && AllAccepted(atoms) && m.Keys == Domain(atoms)
    && forall n :: 0 <= n < |atoms| ==> DecodedAtom(atoms[n], m)
  }

  ghost predicate DecodedAtom(atom: Atom, m: Siblings)
    requires Accepted(atom)
  {
    forall x {:trigger SiblingIn(atom, x)} :: Has(atom.cpus, x) ==> x in m && m[x] == SiblingIn(atom, x)
  }

  lemma {:induction false} DomainHas(atoms: seq<Atom>)
    ensures forall x :: x in Domain(atoms) <==> exists n :: 0 <= n < |atoms| && Has(atoms[n].cpus, x)
  {
    if atoms != [] {
      var before := atoms[..|atoms| - 1];
      DomainHas(before);
      CpuSetHas(atoms[|atoms| - 1].cpus);
      forall x ensures x in Domain(atoms) <==> exists n :: 0 <= n < |atoms| && Has(atoms[n].cpus, x) {
        if n :| 0 <= n < |atoms| && Has(atoms[n].cpus, x) {
          assert n < |before| ==> before[n] == atoms[n];
        }
        if n :| 0 <= n < |before| && Has(before[n].cpus, x) {
          assert before[n] == atoms[n];
        }
      }
    }
  }

  lemma DomainGrows(atoms: seq<Atom>, n: nat)
    requires n <= |atoms|
    ensures Domain(atoms[..n]) <= Domain(atoms)
  {
    DomainHas(atoms);
    DomainHas(atoms[..n]);
  }

  lemma DecodedMore(atoms: seq<Atom>, n: nat, before: Siblings, after: Siblings)
    requires n < |atoms| && Decoded(atoms[..n], before) && Accepted(atoms[n])
    requires Fresh(before, atoms[n].cpus) && Extends(before, after, atoms[n])
    ensures Decoded(atoms[..n + 1], after)
  {
    var first, more := atoms[..n], atoms[..n + 1];
    assert more[..n] == first;
    forall k | 0 <= k < n + 1 ensures Accepted(more[k]) && DecodedAtom(more[k], after) {
      if k < n {
        assert first[k] == more[k];
        assert DecodedAtom(first[k], before);
        KeptAtom(first[k], before, after, atoms[n]);
      }
    }
    CpuSetHas(atoms[n].cpus);
    assert Domain(more) == Domain(first) + CpuSet(atoms[n].cpus);
    assert before.Keys == Domain(first);
    forall x: int ensures x in after.Keys <==> x in Domain(more) {
      assert x in before.Keys <==> x in Domain(first);
    }
    assert after.Keys == Domain(more);
  }

  lemma KeptAtom(atom: Atom, before: Siblings, after: Siblings, added: Atom)
    requires Accepted(atom) && Accepted(added) && DecodedAtom(atom, before) && Extends(before, after, added)
    ensures DecodedAtom(atom, after)
  {
    forall x | Has(atom.cpus, x) ensures x in after && after[x] == SiblingIn(atom, x) {
      assert x in before && before[x] == SiblingIn(atom, x) && x in after by { var y := SiblingIn(atom, x); }
    }
  }

  lemma NotFresh(atoms: seq<Atom>, n: nat, m: Siblings)
    requires n < |atoms| && Decoded(atoms[..n], m)
    ensures Fresh(m, atoms[n].cpus) <==> ApartFrom(atoms, n)
  {
    DomainHas(atoms[..n]);
    if !Fresh(m, atoms[n].cpus) {
      var i :| 0 <= i < |atoms[n].cpus| && atoms[n].cpus[i] in m;
      assert Has(atoms[n].cpus, atoms[n].cpus[i]);
    }
    if a, x :| 0 <= a < n && Has(atoms[a].cpus, x) && Has(atoms[n].cpus, x) {
      assert atoms[..n][a] == atoms[a] && DecodedAtom(atoms[..n][a], m);
      assert m[x] == SiblingIn(atoms[..n][a], x);
    }
  }

  /** One atom: its CPUs must be new, its stride positive, and a strided set must split into pairs. */
  method DecodeAtom(m: Siblings, atom: Atom) returns (r: Result<Siblings, string>)
    requires Listed(atom.cpus)
    ensures r.Ok? <==> Fresh(m, atom.cpus) && Accepted(atom)
    ensures r.Ok? ==> Extends(m, r.value, atom)
  {
    var unseen := NoDuplicates(m, atom.cpus);
    if !unseen {
      return Err("duplicate CPU in SMT map");
    }
    if atom.stride.None? {
      var single := Single(m, atom.cpus);
      return Ok(single);
    }
    if atom.stride.value <= 0 {
      return Err("invalid SMT stride");
    }
    r := Paired(m, atom.cpus, atom.stride.value);
  }

  method DecodeNext(atoms: seq<Atom>, n: nat, m: Siblings) returns (r: Result<Siblings, string>)
    requires n < |atoms| && Listed(atoms[n].cpus) && Decoded(atoms[..n], m)
    ensures r.Ok? <==> ApartFrom(atoms, n) && Accepted(atoms[n])
    ensures r.Ok? ==> Decoded(atoms[..n + 1], r.value)
  {
    NotFresh(atoms, n, m);
    r := DecodeAtom(m, atoms[n]);
    if r.Ok? {
      DecodedMore(atoms, n, m, r.value);
    }
  }

  lemma TooLarge(atoms: seq<Atom>, n: nat, m: Siblings)
    requires n <= |atoms| && m.Keys == Domain(atoms[..n])
    ensures |m| <= |Domain(atoms)|
  {
    DomainGrows(atoms, n);
    CardOfSubset(Domain(atoms[..n]), Domain(atoms));
    assert |m.Keys| == |m|;
  }

  /** The first n atoms are each apart from the ones before and acceptable. */
  ghost predicate Fine(atoms: seq<Atom>, n: nat)
    requires n <= |atoms|
  {
    n == 0 || (Fine(atoms, n - 1) && ApartFrom(atoms, n - 1) && Accepted(atoms[n - 1]))
  }

  lemma {:induction false} FineEach(atoms: seq<Atom>, n: nat)
    requires n <= |atoms|
    ensures Fine(atoms, n) <==> forall k :: 0 <= k < n ==> ApartFrom(atoms, k) && Accepted(atoms[k])
  {
    if n > 0 {
      FineEach(atoms, n - 1);
    }
  }

  lemma {:induction false} FineBefore(atoms: seq<Atom>, n: nat, m: nat)
    requires n <= m <= |atoms| && Fine(atoms, m)
    ensures Fine(atoms, n)
  {
    if n < m {
      FineBefore(atoms, n, m - 1);
    }
  }

  method DecodeAtoms(atoms: seq<Atom>) returns (r: Result<Siblings, string>)
    requires Valid(atoms)
    ensures r.Ok? <==> Fine(atoms, |atoms|) && |Domain(atoms)| <= MAX_TOPOLOGY_CPUS
    ensures r.Ok? ==> Decoded(atoms, r.value)
  {
    var m: Siblings := map[];
    for n := 0 to |atoms|
      invariant Decoded(atoms[..n], m) && |m| <= MAX_TOPOLOGY_CPUS && Fine(atoms, n)
    {
      var next := DecodeNext(atoms, n, m);
      if next.Err? {
        if Fine(atoms, |atoms|) { FineBefore(atoms, n + 1, |atoms|); }
        return Err(next.error);
      }
      m := next.value;
      TooLarge(atoms, n + 1, m);
      if |m| > MAX_TOPOLOGY_CPUS {
        return Err("SMT map exceeds supported size");
      }
    }
    assert atoms[..|atoms|] == atoms;
    assert |m.Keys| == |m|;
    return Ok(m);
  }

  /** decodeSMTLayout, after parsing: it accepts exactly the layouts whose atoms are apart, whose strided atoms can be
      split into pairs, and that are not too large. */
  method DecodeLayout(atoms: seq<Atom>) returns (r: Result<Siblings, string>)
    requires forall n, i :: 0 <= n < |atoms| && 0 <= i < |atoms[n].cpus| ==> 0 <= atoms[n].cpus[i] < 0x8000_0000
    requires forall n, i, j :: 0 <= n < |atoms| && 0 <= i < j < |atoms[n].cpus| ==> atoms[n].cpus[i] < atoms[n].cpus[j]
    ensures r.Ok? <==> Apart(atoms) && AllAccepted(atoms) && |Domain(atoms)| <= 65535
    ensures r.Ok? ==> Decoded(atoms, r.value)
  {
    r := DecodeAtoms(atoms);
    FineEach(atoms, |atoms|);
  }

  lemma AtomMutual(atom: Atom, x: int)
    requires Listed(atom.cpus) && Accepted(atom) && atom.stride.Some? && Has(atom.cpus, x)
    ensures var y := SiblingIn(atom, x); Has(atom.cpus, y) && SiblingIn(atom, y) == x && y != x && y >= 0
  {
    var d := atom.stride.value;
    var low := if Greedy(atom.cpus, d, x) then x else x - d;
    assert Greedy(atom.cpus, d, low) && low >= 0 && Has(atom.cpus, low + d);
    assert !Greedy(atom.cpus, d, low + d) by { assert low + d - d == low; }
  }

  /** In a decoded layout siblings are mutual, and no CPU is its own sibling. */
  lemma SiblingsMutual(atoms: seq<Atom>, m: Siblings, x: int)
    requires Valid(atoms) && Decoded(atoms, m) && x in m
    ensures m[x] == -1 || (m[x] in m && m[m[x]] == x && m[x] != x)
  {
    DomainHas(atoms);
    var n :| 0 <= n < |atoms| && Has(atoms[n].cpus, x);
    assert DecodedAtom(atoms[n], m);
    assert m[x] == SiblingIn(atoms[n], x);
    if atoms[n].stride.Some? {
      AtomMutual(atoms[n], x);
      assert m[m[x]] == SiblingIn(atoms[n], m[x]);
    }
  }

  lemma DecodedNatural(atoms: seq<Atom>, m: Siblings, x: int)
    requires Valid(atoms) && Decoded(atoms, m) && x in m
    ensures x >= 0
  {
    DomainHas(atoms);
    var n :| 0 <= n < |atoms| && Has(atoms[n].cpus, x);
  }
}
