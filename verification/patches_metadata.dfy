/** The metadata records of the patcher's Yatoclip support: the set of patches with
    their hashes, the package relocations, and the paths excluded from copying.
    The constructors check their arguments for null and a relocation rewrites its
    package names from dotted to slashed form. */
module PatchesMetadata {
  import opened Wrappers
  import opened Text

  /** `Objects.requireNonNull` failing on the named argument. */
  datatype NullPointer = NullPointer(argument: string)

  /** One patch: the fields are stored as given, null included. */
  datatype PatchMetadata = PatchMetadata(
    name: Option<string>,
    originalHash: Option<string>,
    targetHash: Option<string>,
    patchHash: Option<string>)

  datatype Relocation = Relocation(from: string, to: string, includeSubPackages: bool)

  /** The record classes compare by identity, so two equal-looking records are two
      elements of a set: they are kept as multisets of values. */
  datatype PatchesMetadata = PatchesMetadata(
    patches: multiset<PatchMetadata>,
    relocations: multiset<Relocation>,
    copyExcludes: set<string>)

  /** A package name with every `.` turned into `/`. */
  function PackagePath(name: string): string {
    ReplaceAll(name, ".", "/")
  }

  /** Normalising keeps the length and every other character in place, leaves no `.`,
      and normalising again changes nothing. */
  lemma PackagePathSpec(name: string)
    ensures |PackagePath(name)| == |name|
    ensures forall i :: 0 <= i < |name| ==>
      PackagePath(name)[i] == (if name[i] == '.' then '/' else name[i])
    ensures '.' !in PackagePath(name)
    ensures PackagePath(PackagePath(name)) == PackagePath(name)
  {
    var r := PackagePath(name);
    ReplaceCharPointwise(name, '.', '/');
    assert forall i :: 0 <= i < |r| ==> r[i] != '.';
    ReplaceCharPointwise(r, '.', '/');
    assert PackagePath(r) == r;
  }

  /** The `Relocation` constructor: `from` is checked before `to`. */
  function NewRelocation(from: Option<string>, to: Option<string>, includeSubPackages: bool): (r: Result<Relocation, NullPointer>)
    ensures r.Success? <==> from.Some? && to.Some?
    ensures from.None? ==> r == Failure(NullPointer("from"))
    ensures from.Some? && to.None? ==> r == Failure(NullPointer("to"))
  {
    if from.None? then Failure(NullPointer("from"))
    else if to.None? then Failure(NullPointer("to"))
    else Success(Relocation(PackagePath(from.value), PackagePath(to.value), includeSubPackages))
  }

  /** A built relocation holds slashed names of the same lengths as the dotted ones given,
      keeps the flag, and rebuilding it from its own fields gives it back. */
  lemma NewRelocationSpec(from: string, to: string, includeSubPackages: bool)
    ensures var r := NewRelocation(Some(from), Some(to), includeSubPackages).value;
      '.' !in r.from && '.' !in r.to && |r.from| == |from| && |r.to| == |to|
      && (forall i :: 0 <= i < |from| && from[i] != '.' ==> r.from[i] == from[i])
      && (forall i :: 0 <= i < |to| && to[i] != '.' ==> r.to[i] == to[i])
      && r.includeSubPackages == includeSubPackages
      && NewRelocation(Some(r.from), Some(r.to), r.includeSubPackages) == Success(r)
  {
    PackagePathSpec(from);
    PackagePathSpec(to);
  }

  /** The `PatchesMetadata` constructor: `copyExcludes`, then `relocations`, then `patches`
      are checked; the record exposes exactly the given contents. */
  function NewPatchesMetadata(
    patches: Option<multiset<PatchMetadata>>,
    relocations: Option<multiset<Relocation>>,
    copyExcludes: Option<set<string>>): (r: Result<PatchesMetadata, NullPointer>)
    ensures r.Success? <==> patches.Some? && relocations.Some? && copyExcludes.Some?
    ensures copyExcludes.None? ==> r == Failure(NullPointer("copyExcludes"))
    ensures copyExcludes.Some? && relocations.None? ==> r == Failure(NullPointer("relocations"))
    ensures copyExcludes.Some? && relocations.Some? && patches.None? ==> r == Failure(NullPointer("patches"))
    ensures r.Success? ==>
      r.value.patches == patches.value && r.value.relocations == relocations.value
      && r.value.copyExcludes == copyExcludes.value
  {
    if copyExcludes.None? then Failure(NullPointer("copyExcludes"))
    else if relocations.None? then Failure(NullPointer("relocations"))
    else if patches.None? then Failure(NullPointer("patches"))
    else Success(PatchesMetadata(patches.value, relocations.value, copyExcludes.value))
  }
}
