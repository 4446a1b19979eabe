/** The Spigot dependency download plan: reading each POM's dependencies and
    repositories, keeping only plain `compile` dependencies with literal versions,
    and merging the API and server lists into insertion-ordered sets.

    The XML document is abstracted: a POM is the list of its `dependencies`
    elements, each with the `dependency` elements under it, and the list of its
    `repositories` elements, each with its `repository` elements. An element is
    given by the text of each named descendant, in document order, so `item(0)`
    is the first text and an empty list is a missing element. */
module SpigotDependencies {
  import opened Wrappers
  import opened Text

  datatype DependencyElement = DependencyElement(
    scopes: seq<string>,
    groupIds: seq<string>,
    artifactIds: seq<string>,
    versions: seq<string>)

  datatype RepositoryElement = RepositoryElement(urls: seq<string>)

  datatype Pom = Pom(dependencies: seq<seq<DependencyElement>>, repositories: seq<seq<RepositoryElement>>)

  /** Group, artifact and version coordinates; compared by value. */
  datatype MavenArtifact = MavenArtifact(group: string, artifact: string, version: string)

  datatype MavenSetup = MavenSetup(repos: seq<string>, artifacts: seq<MavenArtifact>)

  /** The NullPointerException of reading the text of a missing element. */
  datatype PomError = MissingElement(tag: string)

  /** Maven Central is implicit in every POM. */
  const MavenCentral := "https://repo.maven.apache.org/maven2/"

  /** `getDependency`: only `compile` scope (the default) and a version without `${`
      give an artifact; a missing coordinate of an in-scope dependency is an error. */
  function GetDependency(node: DependencyElement): Result<Option<MavenArtifact>, PomError> {
    var scope := if node.scopes == [] then "compile" else node.scopes[0];
    if scope != "compile" then Success(None)
    else if node.groupIds == [] then Failure(MissingElement("groupId"))
    else if node.artifactIds == [] then Failure(MissingElement("artifactId"))
    else if node.versions == [] then Failure(MissingElement("version"))
    else if Contains(node.versions[0], "${") then Success(None)
    else Success(Some(MavenArtifact(node.groupIds[0], node.artifactIds[0], node.versions[0])))
  }

  /** A dependency gives an artifact exactly when its scope is absent or `compile`, all
      three coordinates are present and the version holds no `${`; the artifact carries
      the three texts unchanged. Out-of-scope dependencies are skipped without looking
      at their coordinates. */
  lemma GetDependencySpec(node: DependencyElement)
    ensures var inScope := node.scopes == [] || node.scopes[0] == "compile";
      var complete := node.groupIds != [] && node.artifactIds != [] && node.versions != [];
      && (GetDependency(node).Failure? <==> inScope && !complete)
      && (!inScope ==> GetDependency(node) == Success(None))
      && (GetDependency(node) == Success(None) <==> !inScope || (complete && Contains(node.versions[0], "${")))
      && (GetDependency(node).Success? && GetDependency(node).value.Some? ==>
            GetDependency(node).value.value
              == MavenArtifact(node.groupIds[0], node.artifactIds[0], node.versions[0]))
  {
  }

  function DependencyItems(node: DependencyElement): Result<seq<MavenArtifact>, PomError> {
    var a :- GetDependency(node);
    Success(if a.Some? then [a.value] else [])
  }

  /** A repository contributes the text of its first `url`; without one it is an error. */
  function RepositoryItems(node: RepositoryElement): Result<seq<string>, PomError> {
    if node.urls == [] then Failure(MissingElement("url")) else Success([node.urls[0]])
  }

  /** The items of each element in order; the first failing element stops the walk. */
  function Collect<T, U>(xs: seq<T>, f: T -> Result<seq<U>, PomError>): Result<seq<U>, PomError>
    decreases |xs|
  {
    if xs == [] then Success([])
    else
      var prev :- Collect(xs[..|xs| - 1], f);
      var cur :- f(xs[|xs| - 1]);
      Success(prev + cur)
  }

  /** The same over a list of groups, group by group. */
  function CollectGroups<T, U>(groups: seq<seq<T>>, f: T -> Result<seq<U>, PomError>): Result<seq<U>, PomError>
    decreases |groups|
  {
    if groups == [] then Success([])
    else
      var prev :- CollectGroups(groups[..|groups| - 1], f);
      var cur :- Collect(groups[|groups| - 1], f);
      Success(prev + cur)
  }

  function Flatten<T>(groups: seq<seq<T>>): seq<T>
    decreases |groups|
  {
    if groups == [] then [] else Flatten(groups[..|groups| - 1]) + groups[|groups| - 1]
  }

  /** Walking two lists one after the other is walking their concatenation. */
  lemma {:induction false} CollectConcat<T, U>(a: seq<T>, b: seq<T>, f: T -> Result<seq<U>, PomError>)
    ensures Collect(a + b, f) ==
      match Collect(a, f)
      case Failure(e) => Failure(e)
      case Success(p) =>
        match Collect(b, f)
        case Failure(e) => Failure(e)
        case Success(q) => Success(p + q)
    decreases |b|
  {
    if b == [] {
      assert a + b == a;
      if Collect(a, f).Success? {
        assert Collect(a, f).value + [] == Collect(a, f).value;
      }
    } else {
      var b', last := b[..|b| - 1], b[|b| - 1];
      assert (a + b)[..|a + b| - 1] == a + b';
      assert (a + b)[|a + b| - 1] == last;
      CollectConcat(a, b', f);
      if Collect(a, f).Success? && Collect(b', f).Success? && f(last).Success? {
        var p, q, c := Collect(a, f).value, Collect(b', f).value, f(last).value;
        assert p + q + c == p + (q + c);
      }
    }
  }

  /** Group by group is the same walk as over the flattened list. */
  lemma {:induction false} CollectGroupsFlatten<T, U>(groups: seq<seq<T>>, f: T -> Result<seq<U>, PomError>)
    ensures CollectGroups(groups, f) == Collect(Flatten(groups), f)
    decreases |groups|
  {
    if groups != [] {
      CollectGroupsFlatten(groups[..|groups| - 1], f);
      CollectConcat(Flatten(groups[..|groups| - 1]), groups[|groups| - 1], f);
    }
  }

  /** The walk fails exactly when some element fails, and otherwise yields exactly the
      items of the elements. */
  lemma {:induction false} CollectSpec<T, U>(xs: seq<T>, f: T -> Result<seq<U>, PomError>)
    ensures Collect(xs, f).Failure? <==> exists i :: 0 <= i < |xs| && f(xs[i]).Failure?
    ensures Collect(xs, f).Success? ==>
      forall u :: u in Collect(xs, f).value <==> exists i :: 0 <= i < |xs| && f(xs[i]).Success? && u in f(xs[i]).value
    decreases |xs|
  {
    if xs != [] {
      var init, last := xs[..|xs| - 1], xs[|xs| - 1];
      CollectSpec(init, f);
      if exists i :: 0 <= i < |init| && f(init[i]).Failure? {
        var i :| 0 <= i < |init| && f(init[i]).Failure?;
        assert xs[i] == init[i];
      }
      if exists i :: 0 <= i < |xs| && f(xs[i]).Failure? {
        var i :| 0 <= i < |xs| && f(xs[i]).Failure?;
        if i < |init| {
          assert init[i] == xs[i];
        }
      }
      if Collect(xs, f).Success? {
        forall u
          ensures u in Collect(xs, f).value <==> exists i :: 0 <= i < |xs| && f(xs[i]).Success? && u in f(xs[i]).value
        {
          if exists i :: 0 <= i < |init| && f(init[i]).Success? && u in f(init[i]).value {
            var i :| 0 <= i < |init| && f(init[i]).Success? && u in f(init[i]).value;
            assert xs[i] == init[i];
          }
          if exists i :: 0 <= i < |xs| && f(xs[i]).Success? && u in f(xs[i]).value {
            var i :| 0 <= i < |xs| && f(xs[i]).Success? && u in f(xs[i]).value;
            if i < |init| {
              assert init[i] == xs[i];
            }
          }
        }
      }
    }
  }

  /** A walk over repositories that succeeds found a url in each, and yields each first
      url in order. */
  lemma {:induction false} RepositoryUrls(xs: seq<RepositoryElement>)
    requires Collect(xs, RepositoryItems).Success?
    ensures var urls := Collect(xs, RepositoryItems).value;
      |urls| == |xs| && forall i :: 0 <= i < |xs| ==> xs[i].urls != [] && urls[i] == xs[i].urls[0]
    decreases |xs|
  {
    if xs != [] {
      var init, last := xs[..|xs| - 1], xs[|xs| - 1];
      assert forall i :: 0 <= i < |init| ==> init[i] == xs[i];
      RepositoryUrls(init);
      assert RepositoryItems(last) == Success([last.urls[0]]);
    }
  }

  lemma {:induction false} CollectPrefixFailure<T, U>(xs: seq<T>, f: T -> Result<seq<U>, PomError>, n: nat)
    requires n <= |xs| && Collect(xs[..n], f).Failure?
    ensures Collect(xs, f) == Collect(xs[..n], f)
    decreases |xs| - n
  {
    if n < |xs| {
      assert xs[..n + 1][..n] == xs[..n];
      CollectPrefixFailure(xs, f, n + 1);
    } else {
      assert xs[..n] == xs;
    }
  }

  lemma {:induction false} CollectGroupsPrefixFailure<T, U>(groups: seq<seq<T>>, f: T -> Result<seq<U>, PomError>, n: nat)
    requires n <= |groups| && CollectGroups(groups[..n], f).Failure?
    ensures CollectGroups(groups, f) == CollectGroups(groups[..n], f)
    decreases |groups| - n
  {
    if n < |groups| {
      assert groups[..n + 1][..n] == groups[..n];
      CollectGroupsPrefixFailure(groups, f, n + 1);
    } else {
      assert groups[..n] == groups;
    }
  }

  /** What `parsePom` returns: Maven Central, then the first url of each repository;
      the accepted dependencies in document order. */
  function PomSetup(pom: Pom): Result<MavenSetup, PomError> {
    var artifacts :- CollectGroups(pom.dependencies, DependencyItems);
    var repos :- CollectGroups(pom.repositories, RepositoryItems);
    Success(MavenSetup([MavenCentral] + repos, artifacts))
  }

  /** The repositories start with Maven Central, followed by each repository's first url
      in document order. */
  lemma PomReposSpec(pom: Pom)
    requires PomSetup(pom).Success?
    ensures var repos, elems := PomSetup(pom).value.repos, Flatten(pom.repositories);
      |repos| == |elems| + 1 && repos[0] == MavenCentral
      && forall i :: 0 <= i < |elems| ==> elems[i].urls != [] && repos[i + 1] == elems[i].urls[0]
  {
    PomSetupParts(pom);
    CollectGroupsFlatten(pom.repositories, RepositoryItems);
    RepositoryUrls(Flatten(pom.repositories));
  }

  /** A parsed POM is Maven Central before the repository walk, and the dependency walk. */
  lemma PomSetupParts(pom: Pom)
    requires PomSetup(pom).Success?
    ensures CollectGroups(pom.dependencies, DependencyItems).Success?
    ensures CollectGroups(pom.repositories, RepositoryItems).Success?
    ensures PomSetup(pom).value.artifacts == CollectGroups(pom.dependencies, DependencyItems).value
    ensures PomSetup(pom).value.repos == [MavenCentral] + CollectGroups(pom.repositories, RepositoryItems).value
  {
  }

  /** A dependency that gives an artifact. */
  predicate Accepted(node: DependencyElement) {
    GetDependency(node).Success? && GetDependency(node).value.Some?
  }

  /** The positions of the elements satisfying `p`, in order. */
  function Positions<T>(xs: seq<T>, p: T -> bool): seq<nat>
    decreases |xs|
  {
    if xs == [] then []
    else
      var n := |xs| - 1;
      Positions(xs[..n], p) + (if p(xs[n]) then [n] else [])
  }

  /** Each position is that of an element satisfying `p`. */
  lemma {:induction false} PositionsValid<T>(xs: seq<T>, p: T -> bool)
    ensures forall k :: 0 <= k < |Positions(xs, p)| ==> Positions(xs, p)[k] < |xs| && p(xs[Positions(xs, p)[k]])
    decreases |xs|
  {
    if xs != [] {
      var n := |xs| - 1;
      var init := xs[..n];
      PositionsValid(init, p);
      var prev := Positions(init, p);
      var idx := Positions(xs, p);
      assert idx == prev + (if p(xs[n]) then [n] else []);
      forall k | 0 <= k < |idx|
        ensures idx[k] < |xs| && p(xs[idx[k]])
      {
        if k < |prev| {
          var j := prev[k];
          assert j < |init| && p(init[j]);
          assert idx[k] == j && init[j] == xs[j];
        }
      }
    }
  }

  /** The positions are strictly increasing. */
  lemma {:induction false} PositionsIncreasing<T>(xs: seq<T>, p: T -> bool)
    ensures forall j, k :: 0 <= j < k < |Positions(xs, p)| ==> Positions(xs, p)[j] < Positions(xs, p)[k]
    decreases |xs|
  {
    if xs != [] {
      var n := |xs| - 1;
      var init := xs[..n];
      PositionsIncreasing(init, p);
      PositionsValid(init, p);
      var prev := Positions(init, p);
      var idx := Positions(xs, p);
      assert idx == prev + (if p(xs[n]) then [n] else []);
      forall j, k | 0 <= j < k < |idx|
        ensures idx[j] < idx[k]
      {
        assert idx[j] == prev[j];
        if k < |prev| {
          assert idx[k] == prev[k];
        } else {
          assert prev[j] < |init|;
        }
      }
    }
  }

  /** Every element satisfying `p` has its position listed. */
  lemma {:induction false} PositionsComplete<T>(xs: seq<T>, p: T -> bool)
    ensures forall i :: 0 <= i < |xs| && p(xs[i]) ==> i in Positions(xs, p)
    decreases |xs|
  {
    if xs != [] {
      var n := |xs| - 1;
      var init := xs[..n];
      PositionsComplete(init, p);
      var prev := Positions(init, p);
      var idx := Positions(xs, p);
      assert idx == prev + (if p(xs[n]) then [n] else []);
      forall i | 0 <= i < |xs| && p(xs[i])
        ensures i in idx
      {
        if i < n {
          assert init[i] == xs[i];
          assert i in prev;
        } else {
          assert idx[|idx| - 1] == n;
        }
      }
    }
  }

  /** The positions of the accepted dependencies, in document order. */
  function AcceptedPositions(deps: seq<DependencyElement>): seq<nat> {
    Positions(deps, Accepted)
  }

  /** A dependency walk that succeeds yields, at each position, the artifact of the
      accepted dependency at the matching accepted position. */
  lemma {:induction false} DependencyArtifacts(deps: seq<DependencyElement>)
    requires Collect(deps, DependencyItems).Success?
    ensures var a, idx := Collect(deps, DependencyItems).value, AcceptedPositions(deps);
      |a| == |idx| && forall k :: 0 <= k < |idx| ==>
        idx[k] < |deps| && GetDependency(deps[idx[k]]) == Success(Some(a[k]))
    decreases |deps|
  {
    if deps != [] {
      var n := |deps| - 1;
      var init := deps[..n];
      DependencyArtifacts(init);
      PositionsValid(init, Accepted);
      var prev, prevIdx := Collect(init, DependencyItems).value, AcceptedPositions(init);
      var a, idx := Collect(deps, DependencyItems).value, AcceptedPositions(deps);
      assert a == prev + DependencyItems(deps[n]).value;
      forall k | 0 <= k < |idx|
        ensures idx[k] < |deps| && GetDependency(deps[idx[k]]) == Success(Some(a[k]))
      {
        if k < |prevIdx| {
          assert idx[k] == prevIdx[k] && a[k] == prev[k] && init[prevIdx[k]] == deps[prevIdx[k]];
        }
      }
    }
  }

  /** An accepted artifact occurs in a successful dependency walk exactly when some
      dependency gives it. */
  lemma DependencyArtifactsMembers(deps: seq<DependencyElement>)
    requires Collect(deps, DependencyItems).Success?
    ensures forall a :: a in Collect(deps, DependencyItems).value <==>
      exists i :: 0 <= i < |deps| && GetDependency(deps[i]) == Success(Some(a))
  {
    forall a | a in Collect(deps, DependencyItems).value
      ensures exists i :: 0 <= i < |deps| && GetDependency(deps[i]) == Success(Some(a))
    {
      ArtifactHasSource(deps, a);
    }
    forall a, i | 0 <= i < |deps| && GetDependency(deps[i]) == Success(Some(a))
      ensures a in Collect(deps, DependencyItems).value
    {
      SourceHasArtifact(deps, i);
    }
  }

  lemma ArtifactHasSource(deps: seq<DependencyElement>, a: MavenArtifact)
    requires Collect(deps, DependencyItems).Success? && a in Collect(deps, DependencyItems).value
    ensures exists i :: 0 <= i < |deps| && GetDependency(deps[i]) == Success(Some(a))
  {
    var artifacts, idx := Collect(deps, DependencyItems).value, AcceptedPositions(deps);
    DependencyArtifacts(deps);
    var k :| 0 <= k < |artifacts| && artifacts[k] == a;
    assert GetDependency(deps[idx[k]]) == Success(Some(a));
  }

  lemma SourceHasArtifact(deps: seq<DependencyElement>, i: nat)
    requires Collect(deps, DependencyItems).Success? && i < |deps| && Accepted(deps[i])
    ensures GetDependency(deps[i]).value.value in Collect(deps, DependencyItems).value
  {
    var artifacts, idx := Collect(deps, DependencyItems).value, AcceptedPositions(deps);
    DependencyArtifacts(deps);
    PositionsComplete(deps, Accepted);
    var k :| 0 <= k < |idx| && idx[k] == i;
    assert artifacts[k] == GetDependency(deps[i]).value.value;
  }

  /** The artifacts are those of the accepted dependencies, in document order and once
      per accepted dependency: the k-th artifact comes from the k-th accepted position,
      the positions strictly increase, and every accepted dependency has one. */
  lemma PomArtifactsSpec(pom: Pom)
    requires PomSetup(pom).Success?
    ensures var deps, idx, artifacts := Flatten(pom.dependencies), AcceptedPositions(Flatten(pom.dependencies)), PomSetup(pom).value.artifacts;
      |artifacts| == |idx|
      && (forall k :: 0 <= k < |idx| ==> idx[k] < |deps| && GetDependency(deps[idx[k]]) == Success(Some(artifacts[k])))
      && (forall j, k :: 0 <= j < k < |idx| ==> idx[j] < idx[k])
      && (forall i :: 0 <= i < |deps| && Accepted(deps[i]) ==> i in idx)
    ensures var deps := Flatten(pom.dependencies);
      forall a :: a in PomSetup(pom).value.artifacts <==>
        exists i :: 0 <= i < |deps| && GetDependency(deps[i]) == Success(Some(a))
  {
    var deps := Flatten(pom.dependencies);
    PomSetupParts(pom);
    CollectGroupsFlatten(pom.dependencies, DependencyItems);
    assert PomSetup(pom).value.artifacts == Collect(deps, DependencyItems).value;
    DependencyArtifacts(deps);
    DependencyArtifactsMembers(deps);
    PositionsIncreasing(deps, Accepted);
    PositionsComplete(deps, Accepted);
  }

  /** The POM is rejected exactly when an in-scope dependency or a repository lacks an element. */
  lemma PomFailsSpec(pom: Pom)
    ensures PomSetup(pom).Failure? <==>
      (exists i :: 0 <= i < |Flatten(pom.dependencies)| && GetDependency(Flatten(pom.dependencies)[i]).Failure?)
      || (exists i :: 0 <= i < |Flatten(pom.repositories)| && Flatten(pom.repositories)[i].urls == [])
  {
    var deps, elems := Flatten(pom.dependencies), Flatten(pom.repositories);
    CollectGroupsFlatten(pom.dependencies, DependencyItems);
    CollectGroupsFlatten(pom.repositories, RepositoryItems);
    CollectSpec(deps, DependencyItems);
    CollectSpec(elems, RepositoryItems);
    assert forall i :: 0 <= i < |deps| ==> (DependencyItems(deps[i]).Failure? <==> GetDependency(deps[i]).Failure?);
    assert forall i :: 0 <= i < |elems| ==> (RepositoryItems(elems[i]).Failure? <==> elems[i].urls == []);
  }

  /** `parsePom` over the abstract document: the dependency walk, then the repository walk. */
  method ParsePom(pom: Pom) returns (r: Result<MavenSetup, PomError>)
    ensures r == PomSetup(pom)
  {
    var depList := CollectDependencies(pom.dependencies);
    if depList.Failure? {
      return Failure(depList.error);
    }
    var repoList := CollectRepositories(pom.repositories);
    if repoList.Failure? {
      return Failure(repoList.error);
    }
    r := Success(MavenSetup(repoList.value, depList.value));
  }

  /** The loop over `dependencies` elements, each walked by the inner loop. */
  method CollectDependencies(list: seq<seq<DependencyElement>>) returns (r: Result<seq<MavenArtifact>, PomError>)
    ensures r == CollectGroups(list, DependencyItems)
  {
    var depList: seq<MavenArtifact> := [];
    for i := 0 to |list|
      invariant CollectGroups(list[..i], DependencyItems) == Success(depList)
    {
      assert list[..i + 1][..i] == list[..i];
      var group := CollectDependencyGroup(list[i]);
      if group.Failure? {
        CollectGroupsPrefixFailure(list, DependencyItems, i + 1);
        return Failure(group.error);
      }
      depList := depList + group.value;
    }
    assert list[..|list|] == list;
    r := Success(depList);
  }

  /** The inner loop over the `dependency` elements of one `dependencies` element. */
  method CollectDependencyGroup(nodes: seq<DependencyElement>) returns (r: Result<seq<MavenArtifact>, PomError>)
    ensures r == Collect(nodes, DependencyItems)
  {
    var items: seq<MavenArtifact> := [];
    for j := 0 to |nodes|
      invariant Collect(nodes[..j], DependencyItems) == Success(items)
    {
      assert nodes[..j + 1][..j] == nodes[..j];
      var artifact := GetDependency(nodes[j]);
      if artifact.Failure? {
        CollectPrefixFailure(nodes, DependencyItems, j + 1);
        return Failure(artifact.error);
      }
      if artifact.value.Some? {
        items := items + [artifact.value.value];
      } else {
        assert items + [] == items;
      }
    }
    assert nodes[..|nodes|] == nodes;
    r := Success(items);
  }

  /** The loop over `repositories` elements, after Maven Central. */
  method CollectRepositories(repos: seq<seq<RepositoryElement>>) returns (r: Result<seq<string>, PomError>)
    ensures match CollectGroups(repos, RepositoryItems)
      case Failure(e) => r == Failure(e)
      case Success(urls) => r == Success([MavenCentral] + urls)
  {
    var repoList: seq<string> := [MavenCentral];
    ghost var urls: seq<string> := [];
    for i := 0 to |repos|
      invariant CollectGroups(repos[..i], RepositoryItems) == Success(urls)
      invariant repoList == [MavenCentral] + urls
    {
      assert repos[..i + 1][..i] == repos[..i];
      var group := CollectRepositoryGroup(repos[i]);
      if group.Failure? {
        CollectGroupsPrefixFailure(repos, RepositoryItems, i + 1);
        return Failure(group.error);
      }
      repoList := repoList + group.value;
      urls := urls + group.value;
    }
    assert repos[..|repos|] == repos;
    r := Success(repoList);
  }

  /** The inner loop over the `repository` elements of one `repositories` element. */
  method CollectRepositoryGroup(nodes: seq<RepositoryElement>) returns (r: Result<seq<string>, PomError>)
    ensures r == Collect(nodes, RepositoryItems)
  {
    var items: seq<string> := [];
    for j := 0 to |nodes|
      invariant Collect(nodes[..j], RepositoryItems) == Success(items)
    {
      assert nodes[..j + 1][..j] == nodes[..j];
      if nodes[j].urls == [] {
        CollectPrefixFailure(nodes, RepositoryItems, j + 1);
        return Failure(MissingElement("url"));
      }
      items := items + [nodes[j].urls[0]];
    }
    assert nodes[..|nodes|] == nodes;
    r := Success(items);
  }

  predicate NoDuplicates<T(==)>(s: seq<T>) {
    forall i, j :: 0 <= i < j < |s| ==> s[i] != s[j]
  }

  /** Adding a list to an insertion-ordered set: each element not yet present is appended. */
  function InsertAll<T(==)>(acc: seq<T>, xs: seq<T>): seq<T>
    decreases |xs|
  {
    if xs == [] then acc
    else
      var prev := InsertAll(acc, xs[..|xs| - 1]);
      if xs[|xs| - 1] in prev then prev else prev + [xs[|xs| - 1]]
  }

  /** The set keeps what it held, in place and first; afterwards it holds exactly the old
      elements and the added ones, each once. */
  lemma {:induction false} InsertAllSpec<T>(acc: seq<T>, xs: seq<T>)
    requires NoDuplicates(acc)
    ensures var r := InsertAll(acc, xs);
      |acc| <= |r| && r[..|acc|] == acc && NoDuplicates(r)
      && (forall x :: x in r <==> x in acc || x in xs)
    decreases |xs|
  {
    if xs != [] {
      var init := xs[..|xs| - 1];
      InsertAllSpec(acc, init);
      var prev := InsertAll(acc, init);
      var r := InsertAll(acc, xs);
      assert r[..|acc|] == prev[..|acc|];
      forall x ensures x in xs <==> x in init || x == xs[|xs| - 1] {
        assert xs == init + [xs[|xs| - 1]];
      }
    }
  }

  /** `+=` on a `mutableSetOf`. */
  method AddAll<T(==)>(s: seq<T>, xs: seq<T>) returns (r: seq<T>)
    ensures r == InsertAll(s, xs)
  {
    r := s;
    for i := 0 to |xs|
      invariant r == InsertAll(s, xs[..i])
    {
      assert xs[..i + 1][..i] == xs[..i];
      if xs[i] !in r {
        r := r + [xs[i]];
      }
    }
    assert xs[..|xs|] == xs;
  }

  /** The repositories and artifacts the downloads are planned from: the API setup's,
      then the server setup's, without repeats. */
  method PlanDownloads(apiSetup: MavenSetup, serverSetup: MavenSetup) returns (spigotRepos: seq<string>, artifacts: seq<MavenArtifact>)
    ensures spigotRepos == InsertAll(InsertAll([], apiSetup.repos), serverSetup.repos)
    ensures artifacts == InsertAll(InsertAll([], apiSetup.artifacts), serverSetup.artifacts)
  {
    spigotRepos := AddAll([], apiSetup.repos);
    spigotRepos := AddAll(spigotRepos, serverSetup.repos);
    artifacts := AddAll([], apiSetup.artifacts);
    artifacts := AddAll(artifacts, serverSetup.artifacts);
  }

  /** The merged lists hold each repository and artifact of either POM exactly once, and
      when both POMs were parsed Maven Central comes first. */
  lemma PlanDownloadsSpec(apiSetup: MavenSetup, serverSetup: MavenSetup)
    ensures var repos := InsertAll(InsertAll([], apiSetup.repos), serverSetup.repos);
      NoDuplicates(repos) && forall x :: x in repos <==> x in apiSetup.repos || x in serverSetup.repos
    ensures var arts := InsertAll(InsertAll([], apiSetup.artifacts), serverSetup.artifacts);
      NoDuplicates(arts) && forall x :: x in arts <==> x in apiSetup.artifacts || x in serverSetup.artifacts
    ensures |apiSetup.repos| > 0 && apiSetup.repos[0] == MavenCentral ==>
      var repos := InsertAll(InsertAll([], apiSetup.repos), serverSetup.repos);
      |repos| > 0 && repos[0] == MavenCentral
  {
    InsertAllSpec([], apiSetup.repos);
    InsertAllSpec(InsertAll([], apiSetup.repos), serverSetup.repos);
    InsertAllSpec([], apiSetup.artifacts);
    InsertAllSpec(InsertAll([], apiSetup.artifacts), serverSetup.artifacts);
    if |apiSetup.repos| > 0 && apiSetup.repos[0] == MavenCentral {
      FirstInserted(apiSetup.repos);
    }
  }

  /** Into an empty set, the first element of the list is the first element of the set. */
  lemma {:induction false} FirstInserted<T>(xs: seq<T>)
    requires |xs| > 0
    ensures |InsertAll([], xs)| > 0 && InsertAll([], xs)[0] == xs[0]
    decreases |xs|
  {
    if |xs| > 1 {
      FirstInserted(xs[..|xs| - 1]);
    }
  }
}
