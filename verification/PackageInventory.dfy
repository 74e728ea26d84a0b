/**
 * The inventory of runtime packages: a worklist over the dependency graph,
 * which may be cyclic, that keeps one package for each name and version.
 */
module PackageInventory {
  import opened Wrappers
  import opened Sorting

  datatype Package = Package(name: string, version: string, root: string, dependencies: seq<string>)

  /** A dependency of a package that cannot be found or lacks its metadata. */
  datatype Error = Unresolved(package: Package, dependency: string)

  /** The installed packages, and which one a dependency name means for a package. */
  datatype Graph = Graph(installed: set<Package>, resolve: (Package, string) -> Option<Package>)

  function KeyOf(p: Package): string {
    p.name + "@" + p.version
  }

  ghost predicate Closed(g: Graph) {
    forall p, n | p in g.installed && n in p.dependencies && g.resolve(p, n).Some? ::
        g.resolve(p, n).value in g.installed
  }

  predicate HasKey(s: seq<Package>, key: string) {
    exists i | 0 <= i < |s| :: KeyOf(s[i]) == key
  }

  function Keys(s: seq<Package>): set<string> {
    set p | p in s :: KeyOf(p)
  }

  function AllKeys(g: Graph): set<string> {
    set p | p in g.installed :: KeyOf(p)
  }

  /** The dependencies of a package from the k-th on, or the first one that is missing. */
  function Dependencies(g: Graph, p: Package, k: nat): Result<seq<Package>, Error>
    requires k <= |p.dependencies|
    decreases |p.dependencies| - k
  {
    if k == |p.dependencies| then Ok([])
    else
      match g.resolve(p, p.dependencies[k])
      case None => Err(Unresolved(p, p.dependencies[k]))
      case Some(d) =>
        match Dependencies(g, p, k + 1)
        case Err(e) => Err(e)
        case Ok(rest) => Ok([d] + rest)
  }

  ghost predicate Within(g: Graph, s: seq<Package>) {
    forall p | p in s :: p in g.installed
  }

  lemma {:induction false} DependenciesWithin(g: Graph, p: Package, k: nat)
    requires Closed(g) && p in g.installed && k <= |p.dependencies|
    ensures Dependencies(g, p, k).Ok? ==> Within(g, Dependencies(g, p, k).value)
    decreases |p.dependencies| - k
  {
    if k < |p.dependencies| { DependenciesWithin(g, p, k + 1); }
  }

  /** How many keys are still to be found. */
  ghost function Missing(g: Graph, found: seq<Package>): nat {
    |AllKeys(g) - Keys(found)|
  }

  lemma FindingShrinks(g: Graph, found: seq<Package>, p: Package)
    requires p in g.installed && !HasKey(found, KeyOf(p))
    ensures Missing(g, found + [p]) < Missing(g, found)
  {
    var before, after := AllKeys(g) - Keys(found), AllKeys(g) - Keys(found + [p]);
    assert KeyOf(p) in before by {
      forall q | q in found ensures KeyOf(q) != KeyOf(p) {}
    }
    assert KeyOf(p) !in after by { assert p in found + [p]; }
    forall k | k in after ensures k in before {
      assert forall q | q in found :: q in found + [p];
    }
    SubsetSmaller(after, before, KeyOf(p));
  }

  lemma SubsetSmaller(a: set<string>, b: set<string>, x: string)
    requires a <= b && x in b && x !in a
    ensures |a| < |b|
  {
    assert a <= b - {x};
    SubsetSize(a, b - {x});
  }

  lemma {:induction false} SubsetSize(a: set<string>, b: set<string>)
    requires a <= b
    ensures |a| <= |b|
    decreases b
  {
    if x :| x in a {
      SubsetSize(a - {x}, b - {x});
      assert |a| == |a - {x}| + 1 && |b| == |b - {x}| + 1;
    }
  }

  /** The worklist: first in first out, the first package of each key is kept. */
  function Walk(g: Graph, queue: seq<Package>, found: seq<Package>): Result<seq<Package>, Error>
    requires Closed(g) && Within(g, queue)
    decreases Missing(g, found), |queue|
  {
    if queue == [] then Ok(found)
    else if HasKey(found, KeyOf(queue[0])) then Walk(g, queue[1..], found)
    else
      match Dependencies(g, queue[0], 0)
      case Err(e) => Err(e)
      case Ok(more) =>
        DependenciesWithin(g, queue[0], 0);
        FindingShrinks(g, found, queue[0]);
        Walk(g, queue[1..] + more, found + [queue[0]])
  }

  /** The same worklist, step by step; the result is listed in the order of the caller's collation. */
  method CollectRuntimePackages(g: Graph, seeds: seq<Package>, le: (Package, Package) -> bool)
    returns (r: Result<seq<Package>, Error>)
    requires Closed(g) && Within(g, seeds)
    ensures r == match Walk(g, seeds, []) case Err(e) => Err(e) case Ok(found) => Ok(Sort(le, found))
  {
    var packages: seq<Package> := [];
    var queue := seeds;
    while |queue| > 0
      invariant Within(g, queue)
      invariant Walk(g, queue, packages) == Walk(g, seeds, [])
      decreases Missing(g, packages), |queue|
    {
      var current := queue[0];
      var rest := queue[1..];
      assert Within(g, rest);
      if HasKey(packages, KeyOf(current)) {
        queue := rest;
        continue;
      }
      FindingShrinks(g, packages, current);
      DependenciesWithin(g, current, 0);
      var dependencies := ReadDependencies(g, current);
      if dependencies.Err? { return Err(dependencies.error); }
      queue := rest + dependencies.value;
      packages := packages + [current];
    }
    return Ok(Sort(le, packages));
  }

  method ReadDependencies(g: Graph, p: Package) returns (r: Result<seq<Package>, Error>)
    ensures r == Dependencies(g, p, 0)
  {
    var pushed: seq<Package> := [];
    if Dependencies(g, p, 0).Ok? { assert pushed + Dependencies(g, p, 0).value == Dependencies(g, p, 0).value; }
    for k := 0 to |p.dependencies|
      invariant Dependencies(g, p, 0)
                == match Dependencies(g, p, k) case Err(e) => Err(e) case Ok(rest) => Ok(pushed + rest)
    {
      var d := g.resolve(p, p.dependencies[k]);
      if d.None? { return Err(Unresolved(p, p.dependencies[k])); }
      ghost var before := pushed;
      pushed := pushed + [d.value];
      if Dependencies(g, p, k + 1).Ok? {
        assert before + ([d.value] + Dependencies(g, p, k + 1).value) == pushed + Dependencies(g, p, k + 1).value;
      }
    }
    assert pushed + [] == pushed;
    return Ok(pushed);
  }

  // -------------------------------------------------------------- reachability

  ghost predicate Edge(g: Graph, p: Package, q: Package) {
    exists n | n in p.dependencies :: g.resolve(p, n) == Some(q)
  }

  ghost predicate Path(g: Graph, path: seq<Package>) {
    path != [] && forall i | 0 <= i < |path| - 1 :: Edge(g, path[i], path[i + 1])
  }

  ghost predicate Reachable(g: Graph, seeds: seq<Package>, p: Package) {
    exists path :: Path(g, path) && path[0] in seeds && path[|path| - 1] == p
  }

  lemma SeedReachable(g: Graph, seeds: seq<Package>, p: Package)
    requires p in seeds
    ensures Reachable(g, seeds, p)
  {
    assert Path(g, [p]) && [p][0] in seeds;
  }

  lemma EdgeReachable(g: Graph, seeds: seq<Package>, p: Package, q: Package)
    requires Reachable(g, seeds, p) && Edge(g, p, q)
    ensures Reachable(g, seeds, q)
  {
    var path :| Path(g, path) && path[0] in seeds && path[|path| - 1] == p;
    var longer := path + [q];
    forall i | 0 <= i < |longer| - 1 ensures Edge(g, longer[i], longer[i + 1]) {
      if i < |path| - 1 { assert Edge(g, path[i], path[i + 1]); }
    }
    assert longer[|longer| - 1] == q && longer[0] in seeds;
  }

  lemma {:induction false} DependenciesAreEdges(g: Graph, p: Package, k: nat)
    requires k <= |p.dependencies|
    ensures match Dependencies(g, p, k)
            case Err(e) => e.package == p && e.dependency in p.dependencies && g.resolve(p, e.dependency).None?
            case Ok(ds) => (forall d | d in ds :: Edge(g, p, d))
                           && (forall i | k <= i < |p.dependencies| ::
                                 g.resolve(p, p.dependencies[i]).Some? && g.resolve(p, p.dependencies[i]).value in ds)
    decreases |p.dependencies| - k
  {
    if k < |p.dependencies| { DependenciesAreEdges(g, p, k + 1); }
  }

  ghost predicate AllReachable(g: Graph, seeds: seq<Package>, s: seq<Package>) {
    forall p | p in s :: Reachable(g, seeds, p)
  }

  ghost predicate DistinctKeys(s: seq<Package>) {
    forall i, j | 0 <= i < j < |s| :: KeyOf(s[i]) != KeyOf(s[j])
  }

  /** The package is found under its key or still waiting. */
  ghost predicate Covered(queue: seq<Package>, found: seq<Package>, p: Package) {
    HasKey(found, KeyOf(p)) || p in queue
  }

  /** Every dependency of a found package exists and is covered. */
  ghost predicate ClosedUpTo(g: Graph, queue: seq<Package>, found: seq<Package>) {
    forall p, n | p in found && n in p.dependencies ::
        g.resolve(p, n).Some? && Covered(queue, found, g.resolve(p, n).value)
  }

  lemma CoverSkips(queue: seq<Package>, found: seq<Package>, p: Package)
    requires queue != [] && HasKey(found, KeyOf(queue[0])) && Covered(queue, found, p)
    ensures Covered(queue[1..], found, p)
  {
    assert queue == [queue[0]] + queue[1..];
  }

  lemma CoverGrows(queue: seq<Package>, found: seq<Package>, more: seq<Package>, p: Package)
    requires queue != [] && Covered(queue, found, p)
    ensures Covered(queue[1..] + more, found + [queue[0]], p)
  {
    var longer := found + [queue[0]];
    assert longer[|found|] == queue[0];
    if HasKey(found, KeyOf(p)) {
      var i :| 0 <= i < |found| && KeyOf(found[i]) == KeyOf(p);
      assert longer[i] == found[i];
    }
    assert queue == [queue[0]] + queue[1..];
  }

  lemma ClosedGrows(g: Graph, queue: seq<Package>, found: seq<Package>, more: seq<Package>)
    requires queue != [] && ClosedUpTo(g, queue, found) && Dependencies(g, queue[0], 0) == Ok(more)
    ensures ClosedUpTo(g, queue[1..] + more, found + [queue[0]])
  {
    DependenciesAreEdges(g, queue[0], 0);
    forall p, n | p in found + [queue[0]] && n in p.dependencies
      ensures g.resolve(p, n).Some? && Covered(queue[1..] + more, found + [queue[0]], g.resolve(p, n).value)
    {
      if p in found {
        CoverGrows(queue, found, more, g.resolve(p, n).value);
      } else {
        var i :| 0 <= i < |p.dependencies| && p.dependencies[i] == n;
        assert g.resolve(p, n).value in more;
      }
    }
  }

  /** What the worklist keeps from step to step. */
  ghost predicate Invariant(g: Graph, seeds: seq<Package>, queue: seq<Package>, found: seq<Package>) {
    && AllReachable(g, seeds, queue)
    && AllReachable(g, seeds, found)
    && DistinctKeys(found)
    && ClosedUpTo(g, queue, found)
    && forall p | p in seeds :: Covered(queue, found, p)
  }

  lemma SkipKeeps(g: Graph, seeds: seq<Package>, queue: seq<Package>, found: seq<Package>)
    requires Invariant(g, seeds, queue, found) && queue != [] && HasKey(found, KeyOf(queue[0]))
    ensures Invariant(g, seeds, queue[1..], found)
  {
    forall p | Covered(queue, found, p) ensures Covered(queue[1..], found, p) { CoverSkips(queue, found, p); }
  }

  lemma FindKeeps(g: Graph, seeds: seq<Package>, queue: seq<Package>, found: seq<Package>, more: seq<Package>)
    requires Invariant(g, seeds, queue, found) && queue != [] && !HasKey(found, KeyOf(queue[0]))
    requires Dependencies(g, queue[0], 0) == Ok(more)
    ensures Invariant(g, seeds, queue[1..] + more, found + [queue[0]])
  {
    DependenciesAreEdges(g, queue[0], 0);
    forall d | d in more ensures Reachable(g, seeds, d) { EdgeReachable(g, seeds, queue[0], d); }
    ClosedGrows(g, queue, found, more);
    forall p | p in seeds ensures Covered(queue[1..] + more, found + [queue[0]], p) {
      CoverGrows(queue, found, more, p);
    }
  }

  /** A reachable package has a dependency that does not resolve. */
  ghost predicate Fails(g: Graph, seeds: seq<Package>, e: Error) {
    Reachable(g, seeds, e.package) && e.dependency in e.package.dependencies && g.resolve(e.package, e.dependency).None?
  }

  lemma {:induction false} WalkKeeps(g: Graph, seeds: seq<Package>, queue: seq<Package>, found: seq<Package>)
    requires Closed(g) && Within(g, queue) && Invariant(g, seeds, queue, found)
    ensures Walk(g, queue, found).Err? ==> Fails(g, seeds, Walk(g, queue, found).error)
    ensures Walk(g, queue, found).Ok? ==> Invariant(g, seeds, [], Walk(g, queue, found).value)
    decreases Missing(g, found), |queue|
  {
    if queue == [] {
    } else {
      if HasKey(found, KeyOf(queue[0])) {
        SkipKeeps(g, seeds, queue, found);
        WalkKeeps(g, seeds, queue[1..], found);
      } else {
        var deps := Dependencies(g, queue[0], 0);
        DependenciesAreEdges(g, queue[0], 0);
        if deps.Ok? {
          DependenciesWithin(g, queue[0], 0);
          FindingShrinks(g, found, queue[0]);
          FindKeeps(g, seeds, queue, found, deps.value);
          WalkKeeps(g, seeds, queue[1..] + deps.value, found + [queue[0]]);
        }
      }
    }
  }

  /**
   * Whatever the graph: every listed package is reachable, no key is listed
   * twice, and the list is closed under dependencies, up to keys. A failure
   * names a reachable package with a dependency that does not resolve.
   */
  lemma InventoryIsClosed(g: Graph, seeds: seq<Package>)
    requires Closed(g) && Within(g, seeds)
    ensures Walk(g, seeds, []).Err? ==> Fails(g, seeds, Walk(g, seeds, []).error)
    ensures Walk(g, seeds, []).Ok? ==> Invariant(g, seeds, [], Walk(g, seeds, []).value)
  {
    forall p | p in seeds ensures Reachable(g, seeds, p) { SeedReachable(g, seeds, p); }
    WalkKeeps(g, seeds, seeds, []);
  }

  /** Name and version determine a reachable package. */
  ghost predicate KeysDetermine(g: Graph, seeds: seq<Package>) {
    forall p, q | Reachable(g, seeds, p) && Reachable(g, seeds, q) && KeyOf(p) == KeyOf(q) :: p == q
  }

  lemma {:induction false} PathEndsInside(g: Graph, seeds: seq<Package>, r: seq<Package>, path: seq<Package>)
    requires Invariant(g, seeds, [], r) && KeysDetermine(g, seeds)
    requires Path(g, path) && path[0] in seeds
    ensures path[|path| - 1] in r
    decreases |path|
  {
    var last := path[|path| - 1];
    assert Reachable(g, seeds, last);
    if |path| == 1 {
      assert Covered([], r, last);
    } else {
      var init := path[..|path| - 1];
      var p := init[|init| - 1];
      assert forall i | 0 <= i < |init| - 1 :: Edge(g, init[i], init[i + 1]) by {
        forall i | 0 <= i < |init| - 1 ensures Edge(g, init[i], init[i + 1]) { assert Edge(g, path[i], path[i + 1]); }
      }
      PathEndsInside(g, seeds, r, init);
      assert Edge(g, path[|path| - 2], path[|path| - 1]);
      var n :| n in p.dependencies && g.resolve(p, n) == Some(last);
      assert Covered([], r, last);
    }
    var i :| 0 <= i < |r| && KeyOf(r[i]) == KeyOf(last);
    assert r[i] in r;
  }

  /**
   * When name and version determine the package the inventory fails exactly
   * when some reachable package has a dependency that does not resolve, and
   * otherwise lists exactly the reachable packages, each once.
   */
  lemma InventoryIsReachable(g: Graph, seeds: seq<Package>)
    requires Closed(g) && Within(g, seeds) && KeysDetermine(g, seeds)
    ensures Walk(g, seeds, []).Err? <==> exists e :: Fails(g, seeds, e)
    ensures Walk(g, seeds, []).Ok? ==> forall p :: p in Walk(g, seeds, []).value <==> Reachable(g, seeds, p)
    ensures Walk(g, seeds, []).Ok? ==> forall i, j | 0 <= i < j < |Walk(g, seeds, []).value| ::
                                         Walk(g, seeds, []).value[i] != Walk(g, seeds, []).value[j]
  {
    InventoryIsClosed(g, seeds);
    if Walk(g, seeds, []).Ok? {
      var r := Walk(g, seeds, []).value;
      forall p | Reachable(g, seeds, p) ensures p in r {
        var path :| Path(g, path) && path[0] in seeds && path[|path| - 1] == p;
        PathEndsInside(g, seeds, r, path);
      }
    } else {
      assert Fails(g, seeds, Walk(g, seeds, []).error);
    }
  }

  /** The list holds the reachable packages and no others. */
  ghost predicate Lists(g: Graph, seeds: seq<Package>, r: seq<Package>) {
    forall p :: p in r <==> Reachable(g, seeds, p)
  }

  lemma SameKeyOnce(r: seq<Package>, p: Package, q: Package)
    requires DistinctKeys(r) && p in r && q in r && KeyOf(p) == KeyOf(q)
    ensures p == q
  {
    var i :| 0 <= i < |r| && r[i] == p;
    var j :| 0 <= j < |r| && r[j] == q;
    assert i == j;
  }

  lemma ExactListDetermines(g: Graph, seeds: seq<Package>, r: seq<Package>)
    requires DistinctKeys(r) && Lists(g, seeds, r)
    ensures KeysDetermine(g, seeds)
  {
    forall p, q | Reachable(g, seeds, p) && Reachable(g, seeds, q) && KeyOf(p) == KeyOf(q) ensures p == q {
      SameKeyOnce(r, p, q);
    }
  }

  /**
   * An inventory that is written lists exactly the reachable packages if and
   * only if name and version determine the package; and only when they do not
   * can it be written although a reachable dependency does not resolve.
   */
  lemma InventoryIsExactIff(g: Graph, seeds: seq<Package>)
    requires Closed(g) && Within(g, seeds) && Walk(g, seeds, []).Ok?
    ensures Lists(g, seeds, Walk(g, seeds, []).value) <==> KeysDetermine(g, seeds)
    ensures (exists e :: Fails(g, seeds, e)) ==> !KeysDetermine(g, seeds)
  {
    InventoryIsClosed(g, seeds);
    if KeysDetermine(g, seeds) {
      InventoryIsReachable(g, seeds);
    } else if Lists(g, seeds, Walk(g, seeds, []).value) {
      ExactListDetermines(g, seeds, Walk(g, seeds, []).value);
    }
  }

  /**
   * Two copies of one name and version with different dependencies: the second
   * copy and what only it needs are left out.
   */
  lemma SecondCopyIsLeftOut(resolve: (Package, string) -> Option<Package>)
    requires var b := Package("b", "1", "/b", []);
             resolve(Package("a", "1", "/y/a", ["b"]), "b") == Some(b)
    ensures var first, second, b := Package("a", "1", "/x/a", []), Package("a", "1", "/y/a", ["b"]),
            Package("b", "1", "/b", []);
            var g := Graph({first, second, b}, resolve);
            Closed(g) && Walk(g, [first, second], []) == Ok([first]) && Reachable(g, [first, second], b)
  {
    var first, second, b := Package("a", "1", "/x/a", []), Package("a", "1", "/y/a", ["b"]),
        Package("b", "1", "/b", []);
    var g := Graph({first, second, b}, resolve);
    var seeds := [first, second];
    assert Closed(g);
    assert Within(g, seeds);
    assert Dependencies(g, first, 0) == Ok([]);
    assert seeds[1..] + [] == [second] && [] + [first] == [first];
    assert KeyOf([first][0]) == KeyOf(second);
    assert HasKey([first], KeyOf(second));
    assert [second][1..] == [];
    assert Walk(g, [second], [first]) == Walk(g, [], [first]);
    SeedReachable(g, seeds, second);
    assert "b" in second.dependencies;
    EdgeReachable(g, seeds, second, b);
  }

  // ------------------------------------------------------------ names and versions

  lemma AtSign(a: string, b: string, c: string, d: string)
    requires a + "@" + b == c + "@" + d && |a| < |c|
    ensures '@' in b
  {
    var s := a + "@" + b;
    assert s[|c|] == "@"[0];
    assert s[|c|] == b[|c| - |a| - 1];
  }

  /** As a version has no at sign, the key tells packages of another name or version apart. */
  lemma KeyIff(p: Package, q: Package)
    requires '@' !in p.version && '@' !in q.version
    ensures KeyOf(p) == KeyOf(q) <==> p.name == q.name && p.version == q.version
  {
    if KeyOf(p) == KeyOf(q) {
      if |p.name| < |q.name| {
        AtSign(p.name, p.version, q.name, q.version);
      } else if |q.name| < |p.name| {
        AtSign(q.name, q.version, p.name, p.version);
      }
      assert KeyOf(p)[..|p.name|] == p.name && KeyOf(q)[..|q.name|] == q.name;
      assert KeyOf(p)[|p.name| + 1..] == p.version && KeyOf(q)[|q.name| + 1..] == q.version;
    }
  }

  ghost predicate PlainVersions(g: Graph) {
    forall p | p in g.installed :: '@' !in p.version
  }

  /** A package of this name and version is listed. */
  ghost predicate Listed(r: seq<Package>, p: Package) {
    exists x | x in r :: x.name == p.name && x.version == p.version
  }

  lemma ListedIff(g: Graph, r: seq<Package>, p: Package)
    requires PlainVersions(g) && Within(g, r) && p in g.installed
    ensures HasKey(r, KeyOf(p)) <==> Listed(r, p)
  {
    forall x | x in r ensures KeyOf(x) == KeyOf(p) <==> x.name == p.name && x.version == p.version { KeyIff(x, p); }
    if HasKey(r, KeyOf(p)) {
      var i :| 0 <= i < |r| && KeyOf(r[i]) == KeyOf(p);
      assert r[i] in r;
    }
    if x :| x in r && x.name == p.name && x.version == p.version {
      var i :| 0 <= i < |r| && r[i] == x;
      assert KeyOf(r[i]) == KeyOf(p);
    }
  }

  lemma ReachableIsInstalled(g: Graph, seeds: seq<Package>, p: Package)
    requires Closed(g) && Within(g, seeds) && Reachable(g, seeds, p)
    ensures p in g.installed
  {
    var path :| Path(g, path) && path[0] in seeds && path[|path| - 1] == p;
    PathIsInstalled(g, path, |path| - 1);
  }

  lemma {:induction false} PathIsInstalled(g: Graph, path: seq<Package>, i: nat)
    requires Closed(g) && Path(g, path) && path[0] in g.installed && i < |path|
    ensures path[i] in g.installed
  {
    if i > 0 {
      PathIsInstalled(g, path, i - 1);
      assert Edge(g, path[i - 1], path[i]);
    }
  }

  /**
   * By name and version: of the seeds, and of the dependencies of whatever is
   * listed, every version of every name is listed, and each of them once.
   */
  lemma EveryVersionIsListed(g: Graph, seeds: seq<Package>)
    requires Closed(g) && Within(g, seeds) && PlainVersions(g) && Walk(g, seeds, []).Ok?
    ensures var r := Walk(g, seeds, []).value;
            && (forall p | p in seeds :: Listed(r, p))
            && (forall p, n | p in r && n in p.dependencies ::
                 g.resolve(p, n).Some? && Listed(r, g.resolve(p, n).value))
            && (forall i, j | 0 <= i < j < |r| :: r[i].name != r[j].name || r[i].version != r[j].version)
  {
    InventoryIsClosed(g, seeds);
    var r := Walk(g, seeds, []).value;
    forall p | p in r ensures p in g.installed { ReachableIsInstalled(g, seeds, p); }
    forall p | p in seeds ensures Listed(r, p) {
      assert Covered([], r, p);
      ListedIff(g, r, p);
    }
    forall p, n | p in r && n in p.dependencies
      ensures g.resolve(p, n).Some? && Listed(r, g.resolve(p, n).value)
    {
      ListedIff(g, r, g.resolve(p, n).value);
    }
    forall i, j | 0 <= i < j < |r| ensures r[i].name != r[j].name || r[i].version != r[j].version {
      assert r[i] in r && r[j] in r;
      KeyIff(r[i], r[j]);
    }
  }
}
