/**
 * Installing a package with everything it depends on (`installPackage`): a
 * depth-first walk over a dependency graph that may hold cycles. The registry
 * is a map from names to manifests; a missing name is a manifest that cannot be fetched.
 */
module PackageInstaller {
  import opened Sequences

  /** What becomes of the tarball: there is none to get, it breaks off after its folder was made, or it is extracted. */
  datatype Tarball = Missing | BreaksOff | Extracted

  datatype Manifest = Manifest(tarball: Tarball, dependencies: seq<string>)
  type Registry = map<string, Manifest>

  /** Downloads of this package succeed. */
  predicate Available(registry: Registry, name: string)
  {
    name in registry && registry[name].tarball.Extracted?
  }

  /** Downloading this package leaves a folder behind, complete or not. */
  predicate LeavesFolder(registry: Registry, name: string)
  {
    name in registry && !registry[name].tarball.Missing?
  }

  predicate DependsOn(registry: Registry, a: string, b: string)
  {
    a in registry && b in registry[a].dependencies
  }

  /** `path` follows dependencies, and only its last package may have been in the folder beforehand. */
  ghost predicate IsPath(registry: Registry, present: set<string>, path: seq<string>)
  {
    && path != []
    && forall i :: 0 <= i < |path| - 1 ==> path[i] !in present && DependsOn(registry, path[i], path[i + 1])
  }

  /** Reachable through packages that the folder did not hold; with an empty folder, plainly reachable. */
  ghost predicate Reachable(registry: Registry, present: set<string>, from: string, to: string)
  {
    exists path :: IsPath(registry, present, path) && path[0] == from && path[|path| - 1] == to
  }

  lemma ReachableSelf(registry: Registry, present: set<string>, name: string)
    ensures Reachable(registry, present, name, name)
  {
    assert IsPath(registry, present, [name]);
  }

  lemma ReachableVia(registry: Registry, present: set<string>, a: string, b: string, c: string)
    requires a !in present && DependsOn(registry, a, b)
    requires Reachable(registry, present, b, c)
    ensures Reachable(registry, present, a, c)
  {
    var path :| IsPath(registry, present, path) && path[0] == b && path[|path| - 1] == c;
    var longer := [a] + path;
    forall i | 0 <= i < |longer| - 1
      ensures longer[i] !in present && DependsOn(registry, longer[i], longer[i + 1])
    {
      if i > 0 {
        assert longer[i] == path[i - 1] && longer[i + 1] == path[i];
      }
    }
    assert IsPath(registry, present, longer);
  }

  /** What was walked completely: of each new package, all dependencies are in the set too. */
  ghost predicate Closed(registry: Registry, present: set<string>, news: set<string>, visited: set<string>)
  {
    forall p :: p in news && p !in present ==>
                  Available(registry, p) && forall d :: DependsOn(registry, p, d) ==> d in visited
  }

  lemma {:induction false} ClosedHoldsReachable(
      registry: Registry, present: set<string>, visited: set<string>, path: seq<string>)
    requires Closed(registry, present, visited, visited)
    requires IsPath(registry, present, path) && path[0] in visited
    ensures path[|path| - 1] in visited
    decreases |path|
  {
    if |path| > 1 {
      assert DependsOn(registry, path[0], path[1]);
      var rest := path[1..];
      forall i | 0 <= i < |rest| - 1
        ensures rest[i] !in present && DependsOn(registry, rest[i], rest[i + 1])
      {
        assert rest[i] == path[i + 1] && rest[i + 1] == path[i + 2];
      }
      ClosedHoldsReachable(registry, present, visited, rest);
    }
  }

  /** Every name that the registry mentions. */
  ghost function Mentioned(registry: Registry): set<string>
  {
    registry.Keys + set p, d | p in registry && d in registry[p].dependencies :: d
  }

  class Installer {
    const registry: Registry
    ghost const present: set<string>  // what the folder held at the start
    var folder: set<string>           // what the folder holds now
    var visited: set<string>
    var fetched: seq<string>          // packages downloaded completely, in order
    var broken: set<string>           // packages of which a download broke off

    ghost predicate Valid()
      reads this
    {
      && folder == present + (set p | p in fetched) + broken
      && (forall p :: p in fetched ==> p in visited && p !in present && Available(registry, p))
      && (forall p :: p in broken ==> p in visited && p !in present && LeavesFolder(registry, p) && !Available(registry, p))
      && Distinct(fetched)
    }

    constructor (registry: Registry, present: set<string>)
      ensures this.registry == registry && this.present == present
      ensures Valid() && folder == present && visited == {} && fetched == [] && broken == {}
    {
      this.registry, this.present := registry, present;
      folder, visited, fetched, broken := present, {}, [], {};
    }

    method InstallPackage(name: string, ghost names: set<string>) returns (ok: bool)
      requires Valid() && name in names && Mentioned(registry) <= names
      modifies this
      ensures Valid() && old(visited) <= visited && name in visited && old(fetched) <= fetched && old(broken) <= broken
      ensures name !in old(visited) && LeavesFolder(registry, name) ==> name in folder
      // only reachable packages are walked
      ensures forall p :: p in visited - old(visited) ==> Reachable(registry, present, name, p)
      // a completed walk is closed, has fetched what was not there and has left nothing broken
      ensures ok ==> Closed(registry, present, visited - old(visited), visited) && broken == old(broken)
      ensures ok ==> forall p :: p in visited - old(visited) && p !in present ==> p in fetched || p in old(broken)
      // a walk stops only at a package that cannot be downloaded
      ensures !ok ==> exists p :: Reachable(registry, present, name, p) && p !in present && !Available(registry, p)
      decreases names - visited, 1
    {
      if name in visited {
        return true;
      }
      visited := visited + {name};
      ReachableSelf(registry, present, name);
      if name in folder {
        return true;
      }
      if !LeavesFolder(registry, name) {
        return false;
      }
      if !Available(registry, name) {
        folder, broken := folder + {name}, broken + {name};
        return false;
      }
      folder, fetched := folder + {name}, fetched + [name];
      ok := InstallDependencies(name, old(visited), names);
    }

    /** The loop over the dependencies of a package that was just extracted. */
    method InstallDependencies(name: string, ghost before: set<string>, ghost names: set<string>) returns (ok: bool)
      requires Valid() && name in names && Mentioned(registry) <= names
      requires name !in before && visited == before + {name} && Available(registry, name) && name !in present
      requires name in fetched
      modifies this
      ensures Valid() && old(visited) <= visited && old(fetched) <= fetched && old(broken) <= broken
      ensures forall p :: p in visited - before ==> Reachable(registry, present, name, p)
      ensures ok ==> Closed(registry, present, visited - before, visited) && broken == old(broken)
      ensures ok ==> forall p :: p in visited - before && p !in present ==> p in fetched || p in old(broken)
      ensures !ok ==> exists p :: Reachable(registry, present, name, p) && p !in present && !Available(registry, p)
      decreases names - before, 0
    {
      ReachableSelf(registry, present, name);
      var dependencies := registry[name].dependencies;
      for i := 0 to |dependencies|
        invariant Valid() && before + {name} <= visited && old(fetched) <= fetched && broken == old(broken)
        invariant forall p :: p in visited - before ==> Reachable(registry, present, name, p)
        invariant Closed(registry, present, visited - before - {name}, visited)
        invariant forall p :: p in visited - before && p !in present ==> p in fetched || p in broken
        invariant forall j :: 0 <= j < i ==> dependencies[j] in visited
      {
        var dependency := dependencies[i];
        assert DependsOn(registry, name, dependency);
        ok := InstallPackage(dependency, names);
        forall p | Reachable(registry, present, dependency, p)
          ensures Reachable(registry, present, name, p)
        {
          ReachableVia(registry, present, name, dependency, p);
        }
        if !ok {
          return;
        }
      }
      ok := true;
    }
  }

  /**
   * `downloadPackage`: the walk ends on every finite graph; it succeeds exactly when all
   * reachable packages are there or can be downloaded, and then the folder holds exactly
   * those besides what it held; nothing is downloaded twice. A failed walk may leave a
   * package's folder behind whose download broke off.
   */
  method DownloadPackage(registry: Registry, name: string, present: set<string>)
    returns (ok: bool, folder: set<string>, fetched: seq<string>)
    ensures ok <==> forall p :: Reachable(registry, present, name, p) ==> p in present || Available(registry, p)
    ensures ok ==> forall p :: p in folder <==> p in present || Reachable(registry, present, name, p)
    ensures ok ==> forall p :: p in folder <==> p in present || p in fetched
    ensures forall p :: p in folder && p !in present && p !in fetched ==> LeavesFolder(registry, p) && !Available(registry, p)
    ensures present <= folder && (forall p :: p in fetched ==> p in folder)
    ensures forall p :: p in fetched ==> Reachable(registry, present, name, p) && p !in present && Available(registry, p)
    ensures name in folder <==> name in present || LeavesFolder(registry, name)
    ensures name in present ==> fetched == [] && folder == present
    ensures Distinct(fetched)
    ensures ok ==> (Complete(registry, name, folder) <==> PresentIsClosed(registry, name, present))
  {
    if name in present {
      PresentReachesItself(registry, present, name);
      CompleteIff(registry, name, present, present);
      return true, present, [];
    }
    var installer := new Installer(registry, present);
    ok := installer.InstallPackage(name, Mentioned(registry) + {name});
    folder, fetched := installer.folder, installer.fetched;
    ghost var visited := installer.visited;
    if ok {
      assert visited - {} == visited;
      forall p | Reachable(registry, present, name, p)
        ensures p in visited
      {
        var path :| IsPath(registry, present, path) && path[0] == name && path[|path| - 1] == p;
        ClosedHoldsReachable(registry, present, visited, path);
      }
      CompleteIff(registry, name, present, folder);
    }
  }

  /** The package is there with everything it depends on, directly or not. */
  ghost predicate Complete(registry: Registry, name: string, folder: set<string>)
  {
    forall p :: Reachable(registry, {}, name, p) ==> p in folder
  }

  /** Of the packages needed that were there before, each dependency was there too or is reached by the walk. */
  ghost predicate PresentIsClosed(registry: Registry, name: string, present: set<string>)
  {
    forall p, q :: p in present && Reachable(registry, {}, name, p) && DependsOn(registry, p, q) ==>
      q in present || Reachable(registry, present, name, q)
  }

  /** A success report means that everything is there exactly if what was there before was closed in that sense. */
  lemma CompleteIff(registry: Registry, name: string, present: set<string>, folder: set<string>)
    requires forall p :: p in folder <==> p in present || Reachable(registry, present, name, p)
    ensures Complete(registry, name, folder) <==> PresentIsClosed(registry, name, present)
  {
    if Complete(registry, name, folder) {
      forall p, q | p in present && Reachable(registry, {}, name, p) && DependsOn(registry, p, q)
        ensures q in folder
      {
        ReachableThen(registry, {}, name, p, q);
      }
    }
    if PresentIsClosed(registry, name, present) {
      forall p | Reachable(registry, {}, name, p)
        ensures p in folder
      {
        var path :| IsPath(registry, {}, path) && path[0] == name && path[|path| - 1] == p;
        PathStaysIn(registry, name, present, folder, path, |path| - 1);
      }
    }
  }

  lemma ReachableThen(registry: Registry, present: set<string>, a: string, b: string, c: string)
    requires Reachable(registry, present, a, b) && b !in present && DependsOn(registry, b, c)
    ensures Reachable(registry, present, a, c)
  {
    var path :| IsPath(registry, present, path) && path[0] == a && path[|path| - 1] == b;
    var longer := path + [c];
    forall i | 0 <= i < |longer| - 1
      ensures longer[i] !in present && DependsOn(registry, longer[i], longer[i + 1])
    {
      if i < |path| - 1 {
        assert longer[i] == path[i] && longer[i + 1] == path[i + 1];
      }
    }
    assert IsPath(registry, present, longer);
  }

  lemma {:induction false} PathStaysIn(
      registry: Registry, name: string, present: set<string>, folder: set<string>, path: seq<string>, i: nat)
    requires forall p :: p in folder <==> p in present || Reachable(registry, present, name, p)
    requires PresentIsClosed(registry, name, present)
    requires IsPath(registry, {}, path) && path[0] == name && i < |path|
    ensures path[i] in folder && Reachable(registry, {}, name, path[i])
  {
    if i == 0 {
      ReachableSelf(registry, present, name);
      ReachableSelf(registry, {}, name);
    } else {
      PathStaysIn(registry, name, present, folder, path, i - 1);
      ReachableThen(registry, {}, name, path[i - 1], path[i]);
      if path[i - 1] !in present {
        ReachableThen(registry, present, name, path[i - 1], path[i]);
      }
    }
  }

  lemma PresentReachesItself(registry: Registry, present: set<string>, name: string)
    requires name in present
    ensures forall p :: Reachable(registry, present, name, p) <==> p == name
  {
    ReachableSelf(registry, present, name);
    forall p | Reachable(registry, present, name, p)
      ensures p == name
    {
      var path :| IsPath(registry, present, path) && path[0] == name && path[|path| - 1] == p;
    }
  }

  /**
   * An interrupted installation is taken for a complete one: once the package's own folder is
   * there, the next call reports success and downloads nothing, although some package it needs
   * was never downloaded completely exactly if the first call failed.
   */
  method RetryAfterFailure(registry: Registry, name: string)
    returns (first: bool, second: bool, installed: seq<string>, again: seq<string>)
    ensures first <==> forall p :: Reachable(registry, {}, name, p) ==> Available(registry, p)
    ensures second <==> LeavesFolder(registry, name)
    ensures second ==> again == []
    ensures !first <==> exists p :: Reachable(registry, {}, name, p) && p !in installed + again
  {
    var folder, folder2;
    first, folder, installed := DownloadPackage(registry, name, {});
    ReachableSelf(registry, {}, name);
    second, folder2, again := DownloadPackage(registry, name, folder);
    if name in folder {
      PresentReachesItself(registry, folder, name);
      assert installed + [] == installed;
    } else {
      ReachableSelf(registry, folder, name);
      assert !Available(registry, name);
      assert name !in installed + again;
    }
  }
}
