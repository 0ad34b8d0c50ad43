/** The place of each core in the machine, and its APIC id. */
module TopologyInfo {
  import opened Helpers

  const SMT_SHIFT: nat := 16            // 4 bits: up to 16 threads on a core
  const PACKAGE_SHIFT: nat := 0x1_0000  // 16 bits: up to 4096 cores in a package, with 65536 threads

  /** What a core is set up with: the threads of a core, and the cores of its package. */
  datatype Param = Param(smt: nat, cores: nat) {
    /** No division by zero, and the indices fit into their bits. */
    predicate Ok() {
      0 < smt <= SMT_SHIFT && 0 < cores && cores * SMT_SHIFT <= PACKAGE_SHIFT
    }

    /** The hardware threads of a package. */
    function Size(): nat {
      cores * smt
    }
  }

  datatype Place = Place(package: nat, core: nat, smt: nat)

  function ApicId(p: Place): nat {
    p.package * PACKAGE_SHIFT + p.core * SMT_SHIFT + p.smt
  }

  // ---------- a run of set-ups, in order ----------

  ghost predicate AllOk(params: seq<Param>) {
    forall i | 0 <= i < |params| :: params[i].Ok()
  }

  /** How many cores of the package are still to come before core i is set up. */
  ghost function Left(params: seq<Param>, i: nat): nat
    requires AllOk(params) && i <= |params|
  {
    if i == 0 then 0 else
    var before := Left(params, i - 1);
    SizePositive(params[i - 1]);
    (if before == 0 then params[i - 1].Size() else before) - 1
  }

  lemma SizePositive(p: Param)
    requires p.Ok()
    ensures p.Size() > 0
  {
    Ordered(1, p.cores, p.smt);
  }

  /** The number of packages that cores before i belong to. */
  ghost function Packages(params: seq<Param>, i: nat): nat
    requires AllOk(params) && i <= |params|
  {
    if i == 0 then 0 else Packages(params, i - 1) + if Left(params, i - 1) == 0 then 1 else 0
  }

  lemma {:induction false} PackagesGrow(params: seq<Param>, i: nat, j: nat)
    requires AllOk(params) && i <= j <= |params|
    ensures Packages(params, i) <= Packages(params, j)
    decreases j - i
  {
    if i < j {
      PackagesGrow(params, i, j - 1);
    }
  }

  lemma SomePackage(params: seq<Param>, i: nat)
    requires AllOk(params) && i < |params|
    ensures Packages(params, i + 1) > 0
  {
    PackagesGrow(params, 1, i + 1);
    assert Packages(params, 1) == 1;
  }

  /** Where core i is put. */
  ghost function PlaceOf(params: seq<Param>, i: nat): Place
    requires AllOk(params) && i < |params|
  {
    SomePackage(params, i);
    Place(Packages(params, i + 1) - 1, i / params[i].smt % params[i].cores, i % params[i].smt)
  }

  /** A core that does not start a package is set up like the core before it. */
  ghost predicate SameWithinPackage(params: seq<Param>)
    requires AllOk(params)
  {
    forall i | 0 < i < |params| && Left(params, i) > 0 :: params[i] == params[i - 1]
  }

  // ---------- ids can be taken apart ----------

  predicate Fits(p: Place) {
    p.smt < SMT_SHIFT && p.core * SMT_SHIFT < PACKAGE_SHIFT
  }

  /** Shifting and masking gives back where the core is. */
  lemma ApicIdTakenApart(p: Place)
    requires Fits(p)
    ensures var id := ApicId(p);
      id / 0x1_0000 == p.package && id % 0x1_0000 / 16 == p.core && id % 16 == p.smt
  {
    var id, low := ApicId(p), p.core * 16 + p.smt;
    assert p.core <= 4095 && low < 65536;
    TakenApart(id, 65536, p.package, low);
    TakenApart(low, 16, p.core, p.smt);
    TakenApart(id, 16, 4096 * p.package + p.core, p.smt);
  }

  lemma TakenApart(x: nat, d: nat, q: nat, r: nat)
    requires r < d && x == q * d + r
    ensures x / d == q && x % d == r
  {
    assert x == x / d * d + x % d;
    Ordered(x / d + 1, q, d);
    Ordered(q + 1, x / d, d);
  }

  lemma PlacesFit(params: seq<Param>, i: nat)
    requires AllOk(params) && i < |params|
    ensures Fits(PlaceOf(params, i))
  {
  }

  // ---------- ids are distinct ----------

  /** In one package each core takes one of the places left. */
  lemma {:induction false} LeftCountsDown(params: seq<Param>, i: nat, j: nat)
    requires AllOk(params) && SameWithinPackage(params) && i < j < |params|
    requires Packages(params, i + 1) == Packages(params, j + 1)
    ensures params[j] == params[i] && Left(params, i + 1) == Left(params, j + 1) + (j - i)
    decreases j - i
  {
    PackagesGrow(params, i + 1, j);
    if i + 1 < j {
      LeftCountsDown(params, i, j - 1);
    }
  }

  lemma {:induction false} LeftIsLess(params: seq<Param>, i: nat)
    requires AllOk(params) && SameWithinPackage(params) && i < |params|
    ensures Left(params, i + 1) < params[i].Size()
  {
    SizePositive(params[i]);
    if i > 0 && Left(params, i) > 0 {
      LeftIsLess(params, i - 1);
    }
  }

  /** Two cores less than a package apart have different places in it. */
  lemma PlacesDiffer(i: nat, j: nat, smt: nat, cores: nat)
    requires 0 < smt && 0 < cores && i < j < i + cores * smt
    ensures i % smt != j % smt || i / smt % cores != j / smt % cores
  {
    if i % smt == j % smt && i / smt % cores == j / smt % cores {
      var a, b := i / smt, j / smt;
      QuotientsApart(i, j, smt, cores);
      QuotientsEqual(a, b, cores);
      assert false;
    }
  }

  lemma Between(k: int, n: nat, m: nat)
    requires m > 0 && 0 < k * m < n * m
    ensures 0 < k < n
  {
    Ordered(k, 0, m);
    Ordered(n, k, m);
  }

  lemma Ordered(a: int, b: int, m: nat)
    ensures a <= b ==> a * m <= b * m
  {
    if a <= b {
      assert b * m == a * m + (b - a) * m;
    }
  }

  lemma QuotientsApart(i: nat, j: nat, smt: nat, cores: nat)
    requires 0 < smt && 0 < cores && i < j < i + cores * smt && i % smt == j % smt
    ensures i / smt < j / smt < i / smt + cores
  {
    var a, b := i / smt, j / smt;
    Multiple(i, j, smt);
    Between(b - a, cores, smt);
  }

  lemma Multiple(i: nat, j: nat, d: nat)
    requires d > 0 && i % d == j % d
    ensures j - i == (j / d - i / d) * d
  {
    assert i == i / d * d + i % d && j == j / d * d + j % d;
  }

  lemma QuotientsEqual(a: nat, b: nat, cores: nat)
    requires 0 < cores && a < b < a + cores
    ensures a % cores != b % cores
  {
    if a % cores == b % cores {
      Multiple(a, b, cores);
      Between(b / cores - a / cores, 1, cores);
      assert false;
    }
  }

  /** The same core and thread index for two cores. */
  predicate SameIndices(i: nat, p: Param, j: nat, q: Param)
    requires p.Ok() && q.Ok()
  {
    i % p.smt == j % q.smt && i / p.smt % p.cores == j / q.smt % q.cores
  }

  /** Exactly when two cores get the same APIC id: they fall into the same package, and what each was set up with gives
      them the same indices. */
  lemma ApicIdsCollideIff(params: seq<Param>, i: nat, j: nat)
    requires AllOk(params) && i < j < |params|
    ensures ApicId(PlaceOf(params, i)) == ApicId(PlaceOf(params, j)) <==>
      Packages(params, i + 1) == Packages(params, j + 1) && SameIndices(i, params[i], j, params[j])
  {
    hide ApicId, Packages;
    PlacesFit(params, i);
    PlacesFit(params, j);
    ApicIdTakenApart(PlaceOf(params, i));
    ApicIdTakenApart(PlaceOf(params, j));
    SomePackage(params, i);
    SomePackage(params, j);
  }

  /** So with the cores of a package set up alike no two cores have the same APIC id, whatever the sizes of the
      packages. */
  lemma ApicIdsDiffer(params: seq<Param>, i: nat, j: nat)
    requires AllOk(params) && SameWithinPackage(params) && i < j < |params|
    ensures ApicId(PlaceOf(params, i)) != ApicId(PlaceOf(params, j))
  {
    hide ApicId, PlaceOf;
    ApicIdsCollideIff(params, i, j);
    if Packages(params, i + 1) == Packages(params, j + 1) {
      LeftCountsDown(params, i, j);
      LeftIsLess(params, i);
      PlacesDiffer(i, j, params[i].smt, params[i].cores);
    }
  }

  /** Three application cores, of which two share a cache, and a core beyond them, which shares with nobody: the last
      application core has opened a package of two, and the other core takes its second place, with its index. */
  lemma ExtraCoreCollides()
    ensures var params := [Param(1, 2), Param(1, 2), Param(1, 2), Param(1, 1)];
      && AllOk(params) && !SameWithinPackage(params)
      && ApicId(PlaceOf(params, 2)) == ApicId(PlaceOf(params, 3))
  {
    var params := [Param(1, 2), Param(1, 2), Param(1, 2), Param(1, 1)];
    assert Left(params, 0) == 0 && Left(params, 1) == 1 && Left(params, 2) == 0 && Left(params, 3) == 1;
    assert Packages(params, 2) == 1 && Packages(params, 3) == Packages(params, 4) == 2;
    ApicIdsCollideIff(params, 2, 3);
  }

  lemma {:induction false} EarlierCoresStay(params: seq<Param>, p: Param, i: nat)
    requires AllOk(params) && p.Ok() && i <= |params|
    ensures Left(params + [p], i) == Left(params, i) && Packages(params + [p], i) == Packages(params, i)
    decreases i
  {
    if i > 0 {
      EarlierCoresStay(params, p, i - 1);
    }
  }

  // ---------- how many cores a package holds ----------

  lemma StartsIff(params: seq<Param>, i: nat)
    requires AllOk(params) && i < |params|
    ensures Left(params, i) == 0 <==> i == 0 || PlaceOf(params, i).package != PlaceOf(params, i - 1).package
  {
    SomePackage(params, i);
    if i > 0 {
      SomePackage(params, i - 1);
    }
  }

  lemma {:induction false} PackageFills(params: seq<Param>, i: nat, k: nat)
    requires AllOk(params) && i <= k < |params| && Left(params, i) == 0 && k - i < params[i].Size()
    ensures Packages(params, k + 1) == Packages(params, i + 1)
    ensures Left(params, k + 1) == params[i].Size() - 1 - (k - i)
    decreases k - i
  {
    if i < k {
      PackageFills(params, i, k - 1);
    }
  }

  /** A core that is first in its package decides how many there are: it and those right after it, as many as the
      package has hardware threads, and nobody else, whatever the others are set up with. */
  lemma PackageHolds(params: seq<Param>, i: nat, k: nat)
    requires AllOk(params) && i <= k < |params|
    requires i == 0 || PlaceOf(params, i).package != PlaceOf(params, i - 1).package
    ensures PlaceOf(params, k).package == PlaceOf(params, i).package <==> k < i + params[i].cores * params[i].smt
  {
    StartsIff(params, i);
    SomePackage(params, i);
    SomePackage(params, k);
    var n := params[i].Size();
    SizePositive(params[i]);
    if k - i < n {
      PackageFills(params, i, k);
    } else {
      PackageFills(params, i, i + n - 1);
      PackagesGrow(params, i + n + 1, k + 1);
    }
  }

  lemma NextQuotient(i: nat, n: nat)
    requires n > 0
    ensures i % n == n - 1 ==> (i + 1) / n == i / n + 1 && (i + 1) % n == 0
    ensures i % n < n - 1 ==> (i + 1) / n == i / n && (i + 1) % n == i % n + 1
  {
    var q, r := i / n, i % n;
    assert i == q * n + r;
    if r == n - 1 {
      assert (q + 1) * n == q * n + n;
      TakenApart(i + 1, n, q + 1, 0);
    } else {
      TakenApart(i + 1, n, q, r + 1);
    }
  }

  lemma {:induction false} AlikeFrom(params: seq<Param>, p: Param, size: nat, i: nat)
    requires AllOk(params) && p.Ok() && i < |params| && forall k | 0 <= k < |params| :: params[k] == p
    requires size == p.Size() && size > 0
    ensures Packages(params, i + 1) == i / size + 1 && Left(params, i + 1) == size - 1 - i % size
  {
    hide Param.Size, Param.Ok;
    if i == 0 {
      TakenApart(0, size, 0, 0);
      assert Left(params, 0) == 0 && Packages(params, 0) == 0;
    } else {
      AlikeFrom(params, p, size, i - 1);
      NextQuotient(i - 1, size);
    }
  }

  /** On a machine of like cores the number of a core says which package it is in: a package has room for every thread
      of the cores that share its cache. */
  lemma AlikePackages(params: seq<Param>, p: Param, size: nat, i: nat)
    requires AllOk(params) && p.Ok() && i < |params| && forall k | 0 <= k < |params| :: params[k] == p
    requires size == p.cores * p.smt
    ensures size > 0 && PlaceOf(params, i).package == i / size
  {
    SizePositive(p);
    AlikeFrom(params, p, size, i);
    SomePackage(params, i);
  }

  /** Threads are numbered through a core, cores through a package: the next core is the next thread of the same core,
      or the first thread of the next core, or of the first core again. */
  lemma NextPlace(params: seq<Param>, p: Param, i: nat)
    requires AllOk(params) && i + 1 < |params| && params[i] == params[i + 1] == p
    ensures PlaceOf(params, 0) == Place(0, 0, 0)
    ensures var here, next := PlaceOf(params, i), PlaceOf(params, i + 1);
      if here.smt + 1 < p.smt then next.smt == here.smt + 1 && next.core == here.core
      else next.smt == 0 && next.core == if here.core + 1 < p.cores then here.core + 1 else 0
  {
    assert Packages(params, 1) == 1 by { assert Left(params, 0) == 0; }
    TakenApart(0, params[0].smt, 0, 0);
    TakenApart(0, params[0].cores, 0, 0);
    NextQuotient(i, p.smt);
    if i % p.smt == p.smt - 1 {
      NextQuotient(i / p.smt, p.cores);
    }
  }

  // ---------- setting up ----------

  /** The counters shared by all cores; -1 stands for no package and no core yet. */
  class Counters {
    var package: int
    var coresThisPackage: nat
    var coreIdLast: int

    constructor ()
      ensures package == -1 && coresThisPackage == 0 && coreIdLast == -1
    {
      package, coresThisPackage, coreIdLast := -1, 0, -1;
    }

    /** These cores were set up, in order. */
    ghost predicate After(params: seq<Param>)
      reads this
    {
      && AllOk(params)
      && coreIdLast == |params| - 1
      && package == Packages(params, |params|) - 1
      && coresThisPackage == Left(params, |params|)
    }
  }

  /** Done, a failed assertion, or a division by zero: of the counts by no threads per core, or of an index by the
      cores of a package, which are none when fewer share the cache than a core has threads. */
  datatype Outcome = Done | AssertionFails | DividesByZero

  class Topology {
    const coreId: nat
    var apicId: int
    var smtIndex: int
    var smtCount: int
    var coreIndex: int
    var coreCount: int
    var package: int

    constructor (coreId: nat)
      ensures this.coreId == coreId && apicId == -1
    {
      this.coreId := coreId;
      apicId, smtIndex, smtCount, coreIndex, coreCount, package := -1, -1, -1, -1, -1, -1;
    }

    /** Sets up a core; on a mesh all application cores are in one package, otherwise those that share the last-level
        cache. */
    method Setup(c: Counters, smtCores: nat, llcSharers: nat, mesh: Option<nat>, ghost params: seq<Param>)
      returns (r: Outcome)
      requires c.After(params)
      modifies this, c
      ensures var sharers := if mesh.Some? then mesh.value else llcSharers;
        if smtCores == 0 || sharers < smtCores then r.DividesByZero? else
        var p := Param(smtCores, sharers / smtCores);
        if !(coreId == |params| && p.Ok()) then r.AssertionFails? else
        && r.Done? && c.After(params + [p])
        && var place := PlaceOf(params + [p], coreId);
           && apicId == ApicId(place) && smtCount == p.smt && coreCount == p.cores
           && smtIndex == place.smt && coreIndex == place.core && package == place.package
    {
      if smtCores == 0 {
        return DividesByZero;
      }
      var id := coreId;
      smtIndex := id % smtCores;
      smtCount := smtCores;
      id := id / smtCores;
      var coresPerPackage := if mesh.Some? then mesh.value else llcSharers;
      CoresInPackage(coresPerPackage, smtCores);
      coresPerPackage := coresPerPackage / smtCores;
      if coresPerPackage == 0 {
        return DividesByZero;
      }
      coreIndex := id % coresPerPackage;
      coreCount := coresPerPackage;
      ghost var p := Param(smtCores, coresPerPackage);
      if p.Ok() {
        EarlierCoresStay(params, p, |params|);
      }
      if c.coreIdLast != coreId - 1 {
        return AssertionFails;
      }
      if c.coresThisPackage == 0 {
        c.package := c.package + 1;
        c.coresThisPackage := coresPerPackage * smtCores;
      }
      c.coresThisPackage := c.coresThisPackage - 1;
      c.coreIdLast := coreId;
      package := c.package;
      if smtCores > SMT_SHIFT || coresPerPackage * SMT_SHIFT > PACKAGE_SHIFT {
        return AssertionFails;
      }
      apicId := package * PACKAGE_SHIFT + coreIndex * SMT_SHIFT + smtIndex;
      r := Done;
    }
  }

  lemma CoresInPackage(sharers: nat, smt: nat)
    requires smt > 0
    ensures sharers / smt == 0 <==> sharers < smt
    ensures sharers / smt > 0 ==> sharers / smt * smt > 0
  {
    Ordered(1, sharers / smt, smt);
  }
}
