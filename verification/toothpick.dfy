/** The fork-level settings of the patcher plugin: names derived from the fork name
    and versions, the two subprojects, and the list of upstreams read from the
    numbered files of the `upstreamConfig` directory, ordered by their number.

    The settings object is a snapshot of its properties; a property that is declared
    `lateinit` and not yet assigned is `None`, and reading it is an error. Listing the
    directory and loading a properties file are not modelled: the files come in as
    names with their key/value maps, in the order the directory listing gives. */
module Toothpick {
  import opened Wrappers
  import opened Text

  /** A configured subproject, known here only by identity. */
  datatype SubprojectRef = SubprojectRef(id: nat)

  datatype Extension = Extension(
    forkName: Option<string>,
    minecraftVersion: Option<string>,
    nmsRevision: Option<string>,
    currentBranch: Option<string>,
    upstreamBranch: string,
    paperclipName: Option<string>,
    apiProject: Option<SubprojectRef>,
    serverProject: Option<SubprojectRef>)

  /** The UninitializedPropertyAccessException of reading an unassigned property. */
  datatype ExtensionError = Uninitialized(property: string)

  const DefaultUpstreamBranch := "origin/master"

  /** A freshly created extension: nothing assigned, the upstream branch at its default. */
  function NewExtension(): (e: Extension)
    ensures e.upstreamBranch == DefaultUpstreamBranch
    ensures e.forkName.None? && e.minecraftVersion.None? && e.nmsRevision.None? && e.currentBranch.None?
    ensures e.paperclipName.None? && e.apiProject.None? && e.serverProject.None?
  {
    Extension(None, None, None, None, DefaultUpstreamBranch, None, None, None)
  }

  function Get(value: Option<string>, property: string): Result<string, ExtensionError> {
    if value.None? then Failure(Uninitialized(property)) else Success(value.value)
  }

  /** `forkNameLowercase`, with lower-casing restricted to ASCII letters. */
  function ForkNameLowercase(e: Extension): Result<string, ExtensionError> {
    var fork :- Get(e.forkName, "forkName");
    Success(LowerAscii(fork))
  }

  /** `calcPaperclipName`: the configured name, or the lower-cased fork name with
      `-paperclip.jar` appended. */
  function CalcPaperclipName(e: Extension): (r: Result<string, ExtensionError>)
    ensures e.paperclipName.Some? ==> r == Success(e.paperclipName.value)
    ensures e.paperclipName.None? && e.forkName.None? ==> r == Failure(Uninitialized("forkName"))
    ensures e.paperclipName.None? && e.forkName.Some? ==>
      r.Success? && |r.value| == |e.forkName.value| + |"-paperclip.jar"|
      && r.value[..|e.forkName.value|] == LowerAscii(e.forkName.value)
      && r.value[|e.forkName.value|..] == "-paperclip.jar"
  {
    if e.paperclipName.Some? then Success(e.paperclipName.value)
    else
      var lower :- ForkNameLowercase(e);
      LowerAsciiSpec(e.forkName.value);
      Success(lower + "-paperclip.jar")
  }

  /** The derived jar name holds no upper-case ASCII letter before its suffix, and two
      fork names differing only in ASCII case give the same jar name. */
  lemma CalcPaperclipNameCaseInsensitive(e: Extension, fork1: string, fork2: string)
    requires e.paperclipName.None?
    requires LowerAscii(fork1) == LowerAscii(fork2)
    ensures CalcPaperclipName(e.(forkName := Some(fork1))) == CalcPaperclipName(e.(forkName := Some(fork2)))
    ensures var r := CalcPaperclipName(e.(forkName := Some(fork1))).value;
      forall i :: 0 <= i < |fork1| ==> !('A' <= r[i] <= 'Z')
  {
    LowerAsciiSpec(fork1);
  }

  /** `calcVersionString`: the Minecraft version and the NMS revision joined by `-`. */
  function CalcVersionString(e: Extension): (r: Result<string, ExtensionError>)
    ensures r.Success? <==> e.minecraftVersion.Some? && e.nmsRevision.Some?
    ensures e.minecraftVersion.None? ==> r == Failure(Uninitialized("minecraftVersion"))
    ensures e.minecraftVersion.Some? && e.nmsRevision.None? ==> r == Failure(Uninitialized("nmsRevision"))
  {
    var mc :- Get(e.minecraftVersion, "minecraftVersion");
    var nms :- Get(e.nmsRevision, "nmsRevision");
    Success(mc + "-" + nms)
  }

  /** The version string is the Minecraft version, `-`, and the NMS revision, whatever
      the versions hold; when the Minecraft version holds no `-`, the string splits back
      into the two parts at its first `-`. */
  lemma CalcVersionStringSplits(e: Extension)
    requires e.minecraftVersion.Some? && e.nmsRevision.Some?
    ensures var v, mc, nms := CalcVersionString(e).value, e.minecraftVersion.value, e.nmsRevision.value;
      |v| == |mc| + 1 + |nms| && v[..|mc|] == mc && v[|mc|] == '-' && v[|mc| + 1..] == nms
    ensures '-' !in e.minecraftVersion.value ==>
      BeforeFirst(CalcVersionString(e).value, '-') == e.minecraftVersion.value
  {
    var v, mc, nms := CalcVersionString(e).value, e.minecraftVersion.value, e.nmsRevision.value;
    assert v == mc + ("-" + nms);
    if '-' !in mc {
      BeforeFirstPrefix(mc, "-" + nms, '-');
    }
  }

  lemma {:induction false} BeforeFirstPrefix(s: string, rest: string, c: char)
    requires c !in s && |rest| > 0 && rest[0] == c
    ensures BeforeFirst(s + rest, c) == s
    decreases |s|
  {
    if s == [] {
      assert s + rest == rest;
    } else {
      assert (s + rest)[1..] == s[1..] + rest;
      BeforeFirstPrefix(s[1..], rest, c);
    }
  }

  /** `currentBranchDisplayName`: the current branch with every `/` + Minecraft version removed. */
  function CurrentBranchDisplayName(e: Extension): Result<string, ExtensionError> {
    var branch :- Get(e.currentBranch, "currentBranch");
    var mc :- Get(e.minecraftVersion, "minecraftVersion");
    Success(ReplaceAll(branch, "/" + mc, ""))
  }

  /** The display name is never longer than the branch, and a branch not mentioning the
      version is shown as it is. */
  lemma CurrentBranchDisplayNameSpec(e: Extension)
    requires e.currentBranch.Some? && e.minecraftVersion.Some?
    ensures CurrentBranchDisplayName(e).Success?
    ensures |CurrentBranchDisplayName(e).value| <= |e.currentBranch.value|
    ensures !Contains(e.currentBranch.value, "/" + e.minecraftVersion.value) ==>
      CurrentBranchDisplayName(e).value == e.currentBranch.value
  {
    var branch, mc := e.currentBranch.value, e.minecraftVersion.value;
    ReplaceAllShrinks(branch, "/" + mc, "");
    if !Contains(branch, "/" + mc) {
      ReplaceAllAbsent(branch, "/" + mc, "");
    }
  }

  /** A branch `b/<version>…` with no `/` in `b` loses the `/<version>` after `b`; the
      rest is scanned in the same way. In particular `b/<version>` is shown as `b`. */
  lemma CurrentBranchDropsVersion(e: Extension, b: string, rest: string)
    requires e.minecraftVersion.Some? && '/' !in b
    requires e.currentBranch == Some(b + "/" + e.minecraftVersion.value + rest)
    ensures CurrentBranchDisplayName(e) == Success(b + ReplaceAll(rest, "/" + e.minecraftVersion.value, ""))
    ensures rest == [] ==> CurrentBranchDisplayName(e) == Success(b)
  {
    var target := "/" + e.minecraftVersion.value;
    assert e.currentBranch.value == b + (target + rest);
    ReplaceAllSkip(b, target + rest, target, "");
    ReplaceAllAtStart(target, rest, "");
    assert "" + ReplaceAll(rest, target, "") == ReplaceAll(rest, target, "");
    if rest == [] {
      assert ReplaceAll(rest, target, "") == [];
      assert b + [] == b;
    }
  }

  /** `subprojects`: empty before the fork is named, otherwise the API and server
      projects under the fork name with `-API` and `-Server` appended. */
  function Subprojects(e: Extension): (r: Result<map<string, SubprojectRef>, ExtensionError>)
    ensures e.forkName.None? ==> r == Success(map[])
    ensures e.forkName.Some? ==> (r.Success? <==> e.apiProject.Some? && e.serverProject.Some?)
  {
    if e.forkName.None? then Success(map[])
    else
      var api :- if e.apiProject.None? then Failure(Uninitialized("apiProject")) else Success(e.apiProject.value);
      var server :- if e.serverProject.None? then Failure(Uninitialized("serverProject")) else Success(e.serverProject.value);
      Success(map[e.forkName.value + "-API" := api, e.forkName.value + "-Server" := server])
  }

  /** With a fork name the map has exactly two distinct keys, mapping to the API and the
      server project. */
  lemma SubprojectsSpec(e: Extension)
    requires e.forkName.Some? && e.apiProject.Some? && e.serverProject.Some?
    ensures var m, fork := Subprojects(e).value, e.forkName.value;
      m.Keys == {fork + "-API", fork + "-Server"} && |m.Keys| == 2
      && m[fork + "-API"] == e.apiProject.value && m[fork + "-Server"] == e.serverProject.value
  {
    var fork := e.forkName.value;
    assert (fork + "-API")[|fork| + 1] == 'A' && (fork + "-Server")[|fork| + 1] == 'S';
    assert fork + "-API" != fork + "-Server";
  }

  // ---------------------------------------------------------------------------
  // getUpstreams

  /** A file of the `upstreamConfig` directory: its name and the properties it defines. */
  datatype ConfigFile = ConfigFile(name: string, properties: map<string, string>)

  datatype Upstream = Upstream(
    name: Option<string>,
    useBlackList: bool,
    list: Option<string>,
    rootProjectDir: string,
    branch: Option<string>,
    id: int)

  datatype UpstreamError =
    | NoConfigDirectory                   // the listing is null
    | MissingUseBlackList(file: string)   // `!!` on an absent `useBlackList`
    | NameTooShort(file: string)          // `substring(0, 4)` on a shorter name
    | BadId(file: string)                 // `Integer.parseInt` rejects the first four characters

  function Property(props: map<string, string>, key: string): Option<string> {
    if key in props then Some(props[key]) else None
  }

  /** `String.toBoolean`: `true` in any case. */
  predicate ToBoolean(s: string) {
    LowerAscii(s) == "true"
  }

  /** One upstream from the properties in effect and the file name: the id is the
      number in the first four characters of the name. */
  function ReadUpstream(props: map<string, string>, fileName: string, rootProjectDir: string): (r: Result<Upstream, UpstreamError>)
    ensures r.Success? <==>
      "useBlackList" in props && |fileName| >= 4 && ParseInt(fileName[..4]).Some?
    ensures "useBlackList" !in props ==> r == Failure(MissingUseBlackList(fileName))
    ensures "useBlackList" in props && |fileName| < 4 ==> r == Failure(NameTooShort(fileName))
    ensures "useBlackList" in props && |fileName| >= 4 && ParseInt(fileName[..4]).None? ==>
      r == Failure(BadId(fileName))
    ensures r.Success? ==>
      r.value.id == ParseInt(fileName[..4]).value && r.value.rootProjectDir == rootProjectDir
      && r.value.name == Property(props, "name") && r.value.list == Property(props, "list")
      && r.value.branch == Property(props, "branch")
      && (r.value.useBlackList <==> LowerAscii(props["useBlackList"]) == "true")
  {
    if "useBlackList" !in props then Failure(MissingUseBlackList(fileName))
    else if |fileName| < 4 then Failure(NameTooShort(fileName))
    else
      match ParseInt(fileName[..4])
      case None => Failure(BadId(fileName))
      case Some(id) =>
        Success(Upstream(Property(props, "name"), ToBoolean(props["useBlackList"]), Property(props, "list"),
                         rootProjectDir, Property(props, "branch"), id))
  }

  /** The one properties object after loading the given files into it in turn: a key
      keeps the value of the last file defining it. */
  function LoadedProperties(files: seq<ConfigFile>): map<string, string>
    decreases |files|
  {
    if files == [] then map[] else LoadedProperties(files[..|files| - 1]) + files[|files| - 1].properties
  }

  /** The upstreams as the loop reads them: each file is loaded into the properties
      object shared by the whole loop before its upstream is built. */
  function ReadAllShared(files: seq<ConfigFile>, rootProjectDir: string): Result<seq<Upstream>, UpstreamError>
    decreases |files|
  {
    if files == [] then Success([])
    else
      var prev :- ReadAllShared(files[..|files| - 1], rootProjectDir);
      var u :- ReadUpstream(LoadedProperties(files), files[|files| - 1].name, rootProjectDir);
      Success(prev + [u])
  }

  /** The upstreams read with a fresh properties object per file. */
  function ReadAll(files: seq<ConfigFile>, rootProjectDir: string): Result<seq<Upstream>, UpstreamError>
    decreases |files|
  {
    if files == [] then Success([])
    else
      var prev :- ReadAll(files[..|files| - 1], rootProjectDir);
      var last := files[|files| - 1];
      var u :- ReadUpstream(last.properties, last.name, rootProjectDir);
      Success(prev + [u])
  }

  /** With fresh properties per file there is one upstream per file, built from that
      file's own name and properties alone. */
  lemma {:induction false} ReadAllPerFile(files: seq<ConfigFile>, rootProjectDir: string)
    ensures ReadAll(files, rootProjectDir).Success? <==>
      forall i :: 0 <= i < |files| ==> ReadUpstream(files[i].properties, files[i].name, rootProjectDir).Success?
    ensures ReadAll(files, rootProjectDir).Success? ==>
      var us := ReadAll(files, rootProjectDir).value;
      |us| == |files| && forall i :: 0 <= i < |files| ==>
        ReadUpstream(files[i].properties, files[i].name, rootProjectDir) == Success(us[i])
    decreases |files|
  {
    if files != [] {
      var init, last := files[..|files| - 1], files[|files| - 1];
      ReadAllPerFile(init, rootProjectDir);
      var r := ReadUpstream(last.properties, last.name, rootProjectDir);
      if ReadAll(init, rootProjectDir).Failure? {
        var i :| 0 <= i < |init| && ReadUpstream(init[i].properties, init[i].name, rootProjectDir).Failure?;
        assert files[i] == init[i];
      } else if r.Failure? {
        assert files[|files| - 1] == last;
      } else {
        var us := ReadAll(files, rootProjectDir).value;
        assert us == ReadAll(init, rootProjectDir).value + [r.value];
        forall i | 0 <= i < |files|
          ensures ReadUpstream(files[i].properties, files[i].name, rootProjectDir) == Success(us[i])
        {
          if i < |init| {
            assert files[i] == init[i];
          }
        }
      }
    }
  }

  /** The upstream the loop as written builds for the file at `i`: from the properties
      loaded so far, that file's loaded last, and that file's name. */
  function SharedRead(files: seq<ConfigFile>, i: nat, rootProjectDir: string): Result<Upstream, UpstreamError>
    requires i < |files|
  {
    ReadUpstream(LoadedProperties(files[..i + 1]), files[i].name, rootProjectDir)
  }

  /** The loop as written gives one upstream per file, each the file's own `SharedRead`,
      and fails exactly when one of those fails. */
  lemma ReadAllSharedPerFile(files: seq<ConfigFile>, rootProjectDir: string)
    ensures ReadAllShared(files, rootProjectDir).Success? <==>
      forall i :: 0 <= i < |files| ==> SharedRead(files, i, rootProjectDir).Success?
    ensures ReadAllShared(files, rootProjectDir).Success? ==>
      var us := ReadAllShared(files, rootProjectDir).value;
      |us| == |files| && forall i :: 0 <= i < |files| ==> SharedRead(files, i, rootProjectDir) == Success(us[i])
  {
    ReadAllSharedPrefix(files, rootProjectDir, |files|);
    assert files[..|files|] == files;
  }

  /** The same for the first `n` files. */
  lemma {:induction false} ReadAllSharedPrefix(files: seq<ConfigFile>, rootProjectDir: string, n: nat)
    requires n <= |files|
    ensures ReadAllShared(files[..n], rootProjectDir).Success? <==>
      forall i :: 0 <= i < n ==> SharedRead(files, i, rootProjectDir).Success?
    ensures ReadAllShared(files[..n], rootProjectDir).Success? ==>
      var us := ReadAllShared(files[..n], rootProjectDir).value;
      |us| == n && forall i :: 0 <= i < n ==> SharedRead(files, i, rootProjectDir) == Success(us[i])
    decreases n
  {
    if n > 0 {
      var m := n - 1;
      ReadAllSharedPrefix(files, rootProjectDir, m);
      if ReadAllShared(files[..m], rootProjectDir).Failure? {
        assert files[..n][..m] == files[..m];
        assert ReadAllShared(files[..n], rootProjectDir).Failure?;
        var i :| 0 <= i < m && SharedRead(files, i, rootProjectDir).Failure?;
      } else {
        ReadAllSharedStep(files, rootProjectDir, m);
        var prev := ReadAllShared(files[..m], rootProjectDir).value;
        var r := SharedRead(files, m, rootProjectDir);
        if r.Success? {
          var us := ReadAllShared(files[..n], rootProjectDir).value;
          assert us == prev + [r.value];
          SharedReadSnoc(files, rootProjectDir, prev, r.value);
        }
      }
    }
  }

  lemma SharedReadSnoc(files: seq<ConfigFile>, rootProjectDir: string, prev: seq<Upstream>, u: Upstream)
    requires |prev| < |files|
    requires forall i :: 0 <= i < |prev| ==> SharedRead(files, i, rootProjectDir) == Success(prev[i])
    requires SharedRead(files, |prev|, rootProjectDir) == Success(u)
    ensures forall i :: 0 <= i < |prev| + 1 ==> SharedRead(files, i, rootProjectDir) == Success((prev + [u])[i])
  {
  }

  /** Every upstream the loop as written reads is that of its file: one per file, in
      listing order, with the id the file name's first four characters give. Reading
      fails exactly when some file leaves `useBlackList` unset in the properties loaded
      so far or has a name whose first four characters are not a number. */
  lemma SharedUpstreamIds(files: seq<ConfigFile>, rootProjectDir: string)
    ensures ReadAllShared(files, rootProjectDir).Success? <==>
      forall i :: 0 <= i < |files| ==>
        "useBlackList" in LoadedProperties(files[..i + 1])
        && |files[i].name| >= 4 && ParseInt(files[i].name[..4]).Some?
    ensures ReadAllShared(files, rootProjectDir).Success? ==>
      var us := ReadAllShared(files, rootProjectDir).value;
      |us| == |files| && forall i :: 0 <= i < |files| ==>
        us[i].id == ParseInt(files[i].name[..4]).value && us[i].rootProjectDir == rootProjectDir
  {
    ReadAllSharedPerFile(files, rootProjectDir);
    forall i | 0 <= i < |files|
      ensures SharedRead(files, i, rootProjectDir).Success? <==>
        "useBlackList" in LoadedProperties(files[..i + 1])
        && |files[i].name| >= 4 && ParseInt(files[i].name[..4]).Some?
    {
    }
  }

  /** The keys an upstream is built from. */
  predicate DefinesAllKeys(f: ConfigFile) {
    "name" in f.properties && "useBlackList" in f.properties && "list" in f.properties && "branch" in f.properties
  }

  /** When every file defines all four keys, sharing the properties object changes nothing. */
  lemma {:induction false} SharedAgreesWhenComplete(files: seq<ConfigFile>, rootProjectDir: string)
    requires forall i :: 0 <= i < |files| ==> DefinesAllKeys(files[i])
    ensures ReadAllShared(files, rootProjectDir) == ReadAll(files, rootProjectDir)
    decreases |files|
  {
    if files != [] {
      var init, last := files[..|files| - 1], files[|files| - 1];
      assert forall i :: 0 <= i < |init| ==> init[i] == files[i];
      SharedAgreesWhenComplete(init, rootProjectDir);
      var shared := LoadedProperties(files);
      assert shared == LoadedProperties(init) + last.properties;
      assert Property(shared, "name") == Property(last.properties, "name");
      assert Property(shared, "list") == Property(last.properties, "list");
      assert Property(shared, "branch") == Property(last.properties, "branch");
      assert shared["useBlackList"] == last.properties["useBlackList"];
    }
  }

  /** Two files read with the shared properties object: the second sees both files' keys. */
  lemma ReadAllSharedPair(f0: ConfigFile, f1: ConfigFile, rootProjectDir: string)
    requires ReadUpstream(f0.properties, f0.name, rootProjectDir).Success?
    requires ReadUpstream(f0.properties + f1.properties, f1.name, rootProjectDir).Success?
    ensures ReadAllShared([f0, f1], rootProjectDir) == Success([
      ReadUpstream(f0.properties, f0.name, rootProjectDir).value,
      ReadUpstream(f0.properties + f1.properties, f1.name, rootProjectDir).value])
  {
    var files := [f0, f1];
    var u0 := ReadUpstream(f0.properties, f0.name, rootProjectDir).value;
    var u1 := ReadUpstream(f0.properties + f1.properties, f1.name, rootProjectDir).value;
    assert files[..1] == [f0] && [f0][..0] == [];
    assert LoadedProperties([f0]) == map[] + f0.properties == f0.properties;
    assert [] + [u0] == [u0] && [u0] + [u1] == [u0, u1];
    assert ReadAllShared([f0], rootProjectDir) == Success([u0]);
    assert ReadAllShared(files[..|files| - 1], rootProjectDir) == Success([u0]);
    assert files[|files| - 1] == f1;
    assert LoadedProperties(files) == f0.properties + f1.properties;
    assert ReadAllShared(files, rootProjectDir) == Success([u0] + [u1]);
  }

  /** Two files read with fresh properties: each sees its own keys only. */
  lemma ReadAllPair(f0: ConfigFile, f1: ConfigFile, rootProjectDir: string)
    requires ReadUpstream(f0.properties, f0.name, rootProjectDir).Success?
    requires ReadUpstream(f1.properties, f1.name, rootProjectDir).Success?
    ensures ReadAll([f0, f1], rootProjectDir) == Success([
      ReadUpstream(f0.properties, f0.name, rootProjectDir).value,
      ReadUpstream(f1.properties, f1.name, rootProjectDir).value])
  {
    var files := [f0, f1];
    var u0 := ReadUpstream(f0.properties, f0.name, rootProjectDir).value;
    var u1 := ReadUpstream(f1.properties, f1.name, rootProjectDir).value;
    assert files[..1] == [f0] && [f0][..0] == [];
    assert [] + [u0] == [u0] && [u0] + [u1] == [u0, u1];
    assert ReadAll([f0], rootProjectDir) == Success([u0]);
    assert ReadAll(files[..|files| - 1], rootProjectDir) == Success([u0]);
    assert files[|files| - 1] == f1;
    assert ReadAll(files, rootProjectDir) == Success([u0] + [u1]);
  }

  /** Two readable config files where only the first defines `branch`: with the shared
      properties object the second upstream takes the first file's branch, while with
      fresh properties it has none. */
  lemma SharedPropertiesLeak(f0: ConfigFile, f1: ConfigFile, rootProjectDir: string)
    requires ReadUpstream(f0.properties, f0.name, rootProjectDir).Success?
    requires ReadUpstream(f1.properties, f1.name, rootProjectDir).Success?
    requires "branch" in f0.properties && "branch" !in f1.properties
    ensures ReadAllShared([f0, f1], rootProjectDir).Success? && |ReadAllShared([f0, f1], rootProjectDir).value| == 2
    ensures ReadAllShared([f0, f1], rootProjectDir).value[1].branch == Some(f0.properties["branch"])
    ensures ReadAll([f0, f1], rootProjectDir).Success? && |ReadAll([f0, f1], rootProjectDir).value| == 2
    ensures ReadAll([f0, f1], rootProjectDir).value[1].branch == None
  {
    var shared := f0.properties + f1.properties;
    assert "useBlackList" in shared && shared["branch"] == f0.properties["branch"];
    ReadAllSharedPair(f0, f1, rootProjectDir);
    ReadAllPair(f0, f1, rootProjectDir);
  }

  /** An instance: `0001-Paper` on branch `master`, then `0002-Extra` without a branch. */
  lemma SharedPropertiesLeakExample()
    ensures var files := [
        ConfigFile("0001-Paper", map["useBlackList" := "false", "branch" := "master"]),
        ConfigFile("0002-Extra", map["useBlackList" := "true"])];
      ReadAllShared(files, "/fork").Success? && |ReadAllShared(files, "/fork").value| == 2
      && ReadAllShared(files, "/fork").value[1].branch == Some("master")
      && ReadAll(files, "/fork").Success? && |ReadAll(files, "/fork").value| == 2
      && ReadAll(files, "/fork").value[1].branch == None
  {
    var f0 := ConfigFile("0001-Paper", map["useBlackList" := "false", "branch" := "master"]);
    var f1 := ConfigFile("0002-Extra", map["useBlackList" := "true"]);
    assert ParseInt(f0.name[..4]).Some? by {
      assert f0.name[..4] == "0001";
      assert "0001"[..3] == "000" && "000"[..2] == "00" && "00"[..1] == "0" && "0"[..0] == [];
    }
    assert ParseInt(f1.name[..4]).Some? by {
      assert f1.name[..4] == "0002";
      assert "0002"[..3] == "000" && "000"[..2] == "00" && "00"[..1] == "0" && "0"[..0] == [];
    }
    SharedPropertiesLeak(f0, f1, "/fork");
  }

  /** A list ordered by id. */
  predicate SortedById(us: seq<Upstream>) {
    forall i, j :: 0 <= i < j < |us| ==> us[i].id <= us[j].id
  }

  /** Inserts after every element whose id is not greater. */
  function InsertById(sorted: seq<Upstream>, u: Upstream): seq<Upstream>
    decreases |sorted|
  {
    if sorted == [] then [u]
    else if u.id < sorted[0].id then [u] + sorted
    else [sorted[0]] + InsertById(sorted[1..], u)
  }

  /** The stable sort by id that `sorted { a, b -> a.id - b.id }` performs; the ids come
      from four characters, so the subtraction cannot overflow. */
  function SortById(us: seq<Upstream>): seq<Upstream>
    decreases |us|
  {
    if us == [] then [] else InsertById(SortById(us[..|us| - 1]), us[|us| - 1])
  }

  /** The upstreams with a given id, in order. */
  function WithId(us: seq<Upstream>, id: int): seq<Upstream>
    decreases |us|
  {
    if us == [] then [] else (if us[0].id == id then [us[0]] else []) + WithId(us[1..], id)
  }

  lemma {:induction false} WithIdConcat(a: seq<Upstream>, b: seq<Upstream>, id: int)
    ensures WithId(a + b, id) == WithId(a, id) + WithId(b, id)
    decreases |a|
  {
    if a == [] {
      assert a + b == b;
    } else {
      assert a == [a[0]] + a[1..];
      assert a + b == [a[0]] + (a[1..] + b);
      WithIdCons(a[0], a[1..] + b, id);
      WithIdCons(a[0], a[1..], id);
      WithIdConcat(a[1..], b, id);
    }
  }

  lemma WithIdCons(u: Upstream, rest: seq<Upstream>, id: int)
    ensures WithId([u] + rest, id) == (if u.id == id then [u] else []) + WithId(rest, id)
  {
    assert ([u] + rest)[1..] == rest;
  }

  lemma {:induction false} WithIdNoneAbove(sorted: seq<Upstream>, id: int)
    requires SortedById(sorted) && (sorted != [] ==> id < sorted[0].id)
    ensures WithId(sorted, id) == []
    decreases |sorted|
  {
    if sorted != [] {
      WithIdNoneAbove(sorted[1..], id);
    }
  }

  /** Insertion keeps the elements and adds the new one. */
  lemma {:induction false} InsertByIdElements(sorted: seq<Upstream>, u: Upstream)
    ensures multiset(InsertById(sorted, u)) == multiset(sorted) + multiset{u}
    decreases |sorted|
  {
    if sorted != [] && u.id >= sorted[0].id {
      InsertByIdElements(sorted[1..], u);
      assert sorted == [sorted[0]] + sorted[1..];
    }
  }

  /** Insertion keeps a lower bound that the list and the new element respect. */
  lemma {:induction false} InsertByIdBound(sorted: seq<Upstream>, u: Upstream, bound: int)
    requires forall i :: 0 <= i < |sorted| ==> bound <= sorted[i].id
    requires bound <= u.id
    ensures forall i :: 0 <= i < |InsertById(sorted, u)| ==> bound <= InsertById(sorted, u)[i].id
    decreases |sorted|
  {
    if sorted != [] && u.id >= sorted[0].id {
      InsertByIdBound(sorted[1..], u, bound);
    }
  }

  /** Insertion into an ordered list keeps it ordered. */
  lemma {:induction false} InsertByIdSorted(sorted: seq<Upstream>, u: Upstream)
    requires SortedById(sorted)
    ensures SortedById(InsertById(sorted, u))
    decreases |sorted|
  {
    if sorted != [] && u.id >= sorted[0].id {
      var tail := InsertById(sorted[1..], u);
      InsertByIdSorted(sorted[1..], u);
      InsertByIdBound(sorted[1..], u, sorted[0].id);
      assert InsertById(sorted, u) == [sorted[0]] + tail;
    }
  }

  /** The tail of an ordered list is ordered. */
  lemma SortedTail(sorted: seq<Upstream>)
    requires SortedById(sorted) && sorted != []
    ensures SortedById(sorted[1..])
  {
    forall i, j | 0 <= i < j < |sorted| - 1 ensures sorted[1..][i].id <= sorted[1..][j].id {
      assert sorted[1..][i] == sorted[i + 1] && sorted[1..][j] == sorted[j + 1];
    }
  }

  /** Insertion puts the new element after the others with its id. */
  lemma {:induction false} InsertByIdStable(sorted: seq<Upstream>, u: Upstream, id: int)
    requires SortedById(sorted)
    ensures WithId(InsertById(sorted, u), id) == WithId(sorted, id) + (if u.id == id then [u] else [])
    decreases |sorted|
  {
    if sorted == [] {
      WithIdCons(u, [], id);
      assert [u] + [] == [u];
    } else if u.id < sorted[0].id {
      InsertByIdStableFront(sorted, u, id);
    } else {
      SortedTail(sorted);
      InsertByIdStable(sorted[1..], u, id);
      InsertByIdStableStep(sorted, u, id);
    }
  }

  /** Inserted in front of larger ids, the new element comes after every element with its id: there are none. */
  lemma InsertByIdStableFront(sorted: seq<Upstream>, u: Upstream, id: int)
    requires SortedById(sorted) && sorted != [] && u.id < sorted[0].id
    ensures WithId(InsertById(sorted, u), id) == WithId(sorted, id) + (if u.id == id then [u] else [])
  {
    assert InsertById(sorted, u) == [u] + sorted;
    WithIdCons(u, sorted, id);
    if u.id == id {
      WithIdNoneAbove(sorted, id);
      assert [u] + [] == [] + [u];
    } else {
      assert [] + WithId(sorted, id) == WithId(sorted, id) + [];
    }
  }

  /** Passing the head: the head's contribution stays in front. */
  lemma InsertByIdStableStep(sorted: seq<Upstream>, u: Upstream, id: int)
    requires sorted != [] && u.id >= sorted[0].id
    requires WithId(InsertById(sorted[1..], u), id) == WithId(sorted[1..], id) + (if u.id == id then [u] else [])
    ensures WithId(InsertById(sorted, u), id) == WithId(sorted, id) + (if u.id == id then [u] else [])
  {
    var head, tail := sorted[0], InsertById(sorted[1..], u);
    var h, added := (if head.id == id then [head] else []), (if u.id == id then [u] else []);
    assert InsertById(sorted, u) == [head] + tail;
    WithIdCons(head, tail, id);
    WithIdCons(head, sorted[1..], id);
    assert sorted == [head] + sorted[1..];
    assert h + (WithId(sorted[1..], id) + added) == (h + WithId(sorted[1..], id)) + added;
  }

  lemma {:induction false} SortByIdSorted(us: seq<Upstream>)
    ensures SortedById(SortById(us))
    decreases |us|
  {
    if us != [] {
      SortByIdSorted(us[..|us| - 1]);
      InsertByIdSorted(SortById(us[..|us| - 1]), us[|us| - 1]);
    }
  }

  lemma {:induction false} SortByIdElements(us: seq<Upstream>)
    ensures multiset(SortById(us)) == multiset(us)
    decreases |us|
  {
    if us != [] {
      var init, last := us[..|us| - 1], us[|us| - 1];
      var sortedInit := SortById(init);
      assert SortById(us) == InsertById(sortedInit, last);
      SortByIdElements(init);
      InsertByIdElements(sortedInit, last);
      SameElementsSnoc(SortById(us), sortedInit, init, last, us);
    }
  }

  /** Adding `last` to lists with the same elements keeps them with the same elements. */
  lemma SameElementsSnoc(inserted: seq<Upstream>, sorted: seq<Upstream>, init: seq<Upstream>, last: Upstream, us: seq<Upstream>)
    requires multiset(inserted) == multiset(sorted) + multiset{last}
    requires multiset(sorted) == multiset(init) && us == init + [last]
    ensures multiset(inserted) == multiset(us)
  {
  }

  lemma {:induction false} SortByIdStable(us: seq<Upstream>, id: int)
    ensures WithId(SortById(us), id) == WithId(us, id)
    decreases |us|
  {
    if us != [] {
      var init, last := us[..|us| - 1], us[|us| - 1];
      SortByIdStable(init, id);
      SortByIdSorted(init);
      InsertByIdStable(SortById(init), last, id);
      WithIdConcat(init, [last], id);
      assert us == init + [last];
      assert WithId([last], id) == (if last.id == id then [last] else []) by {
        WithIdCons(last, [], id);
        assert [last] + [] == [last];
      }
    }
  }

  /** The sort orders by id, keeps exactly the elements, and keeps the listing order of
      upstreams with equal ids. */
  lemma SortByIdSpec(us: seq<Upstream>)
    ensures SortedById(SortById(us))
    ensures multiset(SortById(us)) == multiset(us)
    ensures forall id :: WithId(SortById(us), id) == WithId(us, id)
  {
    SortByIdSorted(us);
    SortByIdElements(us);
    forall id ensures WithId(SortById(us), id) == WithId(us, id) {
      SortByIdStable(us, id);
    }
  }

  /** `getUpstreams`: every listed file read in turn into one properties object, then
      the upstreams sorted by id. */
  method GetUpstreams(files: Option<seq<ConfigFile>>, rootProjectDir: string) returns (r: Result<seq<Upstream>, UpstreamError>)
    ensures files.None? ==> r == Failure(NoConfigDirectory)
    ensures files.Some? ==>
      match ReadAllShared(files.value, rootProjectDir)
      case Failure(e) => r == Failure(e)
      case Success(us) => r == Success(SortById(us))
  {
    if files.None? {
      return Failure(NoConfigDirectory);
    }
    var upstreams := files.value;
    var upstreamArray: seq<Upstream> := [];
    var prop: map<string, string> := map[];
    for i := 0 to |upstreams|
      invariant prop == LoadedProperties(upstreams[..i])
      invariant ReadAllShared(upstreams[..i], rootProjectDir) == Success(upstreamArray)
    {
      ReadAllSharedStep(upstreams, rootProjectDir, i);
      prop := prop + upstreams[i].properties;
      var upstream := ReadUpstream(prop, upstreams[i].name, rootProjectDir);
      if upstream.Failure? {
        ReadAllSharedPrefixFailure(upstreams, rootProjectDir, i + 1);
        return Failure(upstream.error);
      }
      upstreamArray := upstreamArray + [upstream.value];
    }
    assert upstreams[..|upstreams|] == upstreams;
    r := Success(SortById(upstreamArray));
  }

  /** One more file: the properties gain its keys, and its upstream is appended. */
  lemma ReadAllSharedStep(files: seq<ConfigFile>, rootProjectDir: string, i: nat)
    requires i < |files| && ReadAllShared(files[..i], rootProjectDir).Success?
    ensures LoadedProperties(files[..i + 1]) == LoadedProperties(files[..i]) + files[i].properties
    ensures ReadAllShared(files[..i + 1], rootProjectDir) ==
      match ReadUpstream(LoadedProperties(files[..i + 1]), files[i].name, rootProjectDir)
      case Failure(e) => Failure(e)
      case Success(u) => Success(ReadAllShared(files[..i], rootProjectDir).value + [u])
  {
    assert files[..i + 1][..i] == files[..i];
    assert files[..i + 1][i] == files[i];
  }

  lemma {:induction false} ReadAllSharedPrefixFailure(files: seq<ConfigFile>, rootProjectDir: string, n: nat)
    requires n <= |files| && ReadAllShared(files[..n], rootProjectDir).Failure?
    ensures ReadAllShared(files, rootProjectDir) == ReadAllShared(files[..n], rootProjectDir)
    decreases |files| - n
  {
    if n < |files| {
      assert files[..n + 1][..n] == files[..n];
      ReadAllSharedPrefixFailure(files, rootProjectDir, n + 1);
    } else {
      assert files[..n] == files;
    }
  }

  /** The intended `getUpstreams`: a fresh properties object per file, then the sort. */
  function Upstreams(files: Option<seq<ConfigFile>>, rootProjectDir: string): Result<seq<Upstream>, UpstreamError> {
    if files.None? then Failure(NoConfigDirectory)
    else
      var us :- ReadAll(files.value, rootProjectDir);
      Success(SortById(us))
  }

  /** The intended result holds one upstream per file, each built from its own file,
      ordered by the number in the file name. */
  lemma UpstreamsSpec(files: seq<ConfigFile>, rootProjectDir: string)
    requires Upstreams(Some(files), rootProjectDir).Success?
    ensures var us := Upstreams(Some(files), rootProjectDir).value;
      SortedById(us) && |us| == |files|
      && forall u :: u in us <==>
        exists i :: 0 <= i < |files| && ReadUpstream(files[i].properties, files[i].name, rootProjectDir) == Success(u)
  {
    var read := ReadAll(files, rootProjectDir).value;
    var us := SortById(read);
    ReadAllPerFile(files, rootProjectDir);
    SortByIdSpec(read);
    assert |us| == |multiset(us)| == |multiset(read)| == |read|;
    forall u ensures u in us <==>
        exists i :: 0 <= i < |files| && ReadUpstream(files[i].properties, files[i].name, rootProjectDir) == Success(u)
    {
      assert u in us <==> u in multiset(us);
      assert u in read <==> u in multiset(read);
      if u in read {
        var i :| 0 <= i < |read| && read[i] == u;
        assert ReadUpstream(files[i].properties, files[i].name, rootProjectDir) == Success(u);
      }
    }
  }

  /** What `getUpstreams` as written returns: sorted by id, one upstream per file, and
      each the one the loop builds for its file. */
  lemma GetUpstreamsSpec(files: seq<ConfigFile>, rootProjectDir: string)
    requires ReadAllShared(files, rootProjectDir).Success?
    ensures var us := SortById(ReadAllShared(files, rootProjectDir).value);
      SortedById(us) && |us| == |files|
      && forall u :: u in us <==> exists i :: 0 <= i < |files| && SharedRead(files, i, rootProjectDir) == Success(u)
  {
    var read := ReadAllShared(files, rootProjectDir).value;
    var us := SortById(read);
    ReadAllSharedPerFile(files, rootProjectDir);
    SortByIdSpec(read);
    assert |us| == |multiset(us)| == |multiset(read)| == |read|;
    forall u ensures u in us <==> exists i :: 0 <= i < |files| && SharedRead(files, i, rootProjectDir) == Success(u)
    {
      assert u in us <==> u in multiset(us);
      assert u in read <==> u in multiset(read);
      if u in read {
        var i :| 0 <= i < |read| && read[i] == u;
        assert SharedRead(files, i, rootProjectDir) == Success(u);
      }
    }
  }
}
