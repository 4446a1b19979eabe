/** The mapping graph the reobfuscation rules work on: a set of top-level class
    mappings, each holding its inner-class, method and field mappings, and the
    lookups by obfuscated name that the rules use. Inner classes are addressed by
    full names joined with `$` (`a$b` is the inner class `b` of `a`). */
module Mappings {
  import opened Wrappers
  import opened Text

  datatype ParameterMapping = ParameterMapping(index: nat, deobfName: string)

  datatype MethodMapping = MethodMapping(
    obfName: string,
    descriptor: string,
    deobfName: string,
    params: seq<ParameterMapping>)

  /** A field is keyed by its obfuscated name and, when known, its type. */
  datatype FieldMapping = FieldMapping(obfName: string, fieldType: Option<string>, deobfName: string)

  datatype ClassMapping = ClassMapping(
    obfName: string,
    deobfName: string,
    inner: seq<ClassMapping>,
    methods: seq<MethodMapping>,
    fields: seq<FieldMapping>)

  datatype MappingSet = MappingSet(topLevel: seq<ClassMapping>)

  /** What the classpath knows of a class: its name and the name of its outer class. */
  datatype ClassData = ClassData(name: string, outerClass: Option<string>)

  /** The full obfuscated and deobfuscated names of a class. */
  datatype FullName = FullName(obf: string, deobf: string)

  /** A class mapping together with the full names of the class enclosing it, if any. */
  datatype Located = Located(outer: Option<FullName>, mapping: ClassMapping)

  /** An inner class's full name is its outer class's full name, `$`, and its own name. */
  function FullNameOf(l: Located): FullName {
    match l.outer
    case None => FullName(l.mapping.obfName, l.mapping.deobfName)
    case Some(o) => FullName(o.obf + "$" + l.mapping.obfName, o.deobf + "$" + l.mapping.deobfName)
  }

  /** A member addressed by owning class, obfuscated name and descriptor or type. */
  datatype MemberReference = MemberReference(owner: string, name: string, descriptor: Option<string>)

  function MethodReference(owner: string, m: MethodMapping): MemberReference {
    MemberReference(owner, m.obfName, Some(m.descriptor))
  }

  function FieldReference(owner: string, f: FieldMapping): MemberReference {
    MemberReference(owner, f.obfName, f.fieldType)
  }

  /** Position of the first mapping with obfuscated name `obf`, or `|classes|` when there is none. */
  function IndexOf(classes: seq<ClassMapping>, obf: string): (k: nat)
    ensures k <= |classes|
    ensures k < |classes| ==> classes[k].obfName == obf
    ensures forall j :: 0 <= j < k ==> classes[j].obfName != obf
    decreases |classes|
  {
    if classes == [] then 0
    else if classes[0].obfName == obf then 0
    else 1 + IndexOf(classes[1..], obf)
  }

  function FindClass(classes: seq<ClassMapping>, obf: string): Option<ClassMapping> {
    var k := IndexOf(classes, obf);
    if k < |classes| then Some(classes[k]) else None
  }

  /** Follows a path of simple obfuscated names from the top level inwards. */
  function Lookup(classes: seq<ClassMapping>, path: seq<string>): Option<ClassMapping>
    requires |path| > 0
    decreases |path|
  {
    match FindClass(classes, path[0])
    case None => None
    case Some(c) => if |path| == 1 then Some(c) else Lookup(c.inner, path[1..])
  }

  /** The simple names making up a full class name. */
  function ClassPath(name: string): (path: seq<string>)
    ensures |path| > 0
  {
    Split(name, '$')
  }

  /** The path of a full class name names that class: joined with `$` it gives the name back. */
  lemma ClassPathNamesClass(name: string)
    ensures Join(ClassPath(name), "$") == name
  {
    JoinSplit(name, '$');
  }

  function GetClassMapping(s: MappingSet, name: string): Option<ClassMapping> {
    Lookup(s.topLevel, ClassPath(name))
  }

  /** A mapping created on demand maps the class to its own name and holds nothing. */
  function NewClassMapping(obf: string): ClassMapping {
    ClassMapping(obf, obf, [], [], [])
  }

  /** Get-or-create along a path, then set the deobfuscated name of the class it ends at. */
  function GetOrCreate(classes: seq<ClassMapping>, path: seq<string>, deobf: string): seq<ClassMapping>
    requires |path| > 0
    decreases |path|
  {
    var k := IndexOf(classes, path[0]);
    var base := if k < |classes| then classes[k] else NewClassMapping(path[0]);
    var updated :=
      if |path| == 1 then base.(deobfName := deobf)
      else base.(inner := GetOrCreate(base.inner, path[1..], deobf));
    if k < |classes| then classes[k := updated] else classes + [updated]
  }

  /** The first position holding `obf` is the same after get-or-create along a path starting with `obf`. */
  lemma GetOrCreateIndex(classes: seq<ClassMapping>, path: seq<string>, deobf: string)
    requires |path| > 0
    ensures var r, k := GetOrCreate(classes, path, deobf), IndexOf(classes, path[0]);
      IndexOf(r, path[0]) == k && k < |r|
      && |r| == (if k < |classes| then |classes| else |classes| + 1)
      && (forall j :: 0 <= j < |classes| && j != k ==> r[j] == classes[j])
  {
    var r, k := GetOrCreate(classes, path, deobf), IndexOf(classes, path[0]);
    assert r[k].obfName == path[0];
  }

  /** After get-or-create the path leads to a mapping carrying the new deobfuscated name. */
  lemma {:induction false} GetOrCreateFinds(classes: seq<ClassMapping>, path: seq<string>, deobf: string)
    requires |path| > 0
    ensures var found := Lookup(GetOrCreate(classes, path, deobf), path);
      found.Some? && found.value.deobfName == deobf
    decreases |path|
  {
    GetOrCreateIndex(classes, path, deobf);
    if |path| > 1 {
      var k := IndexOf(classes, path[0]);
      var base := if k < |classes| then classes[k] else NewClassMapping(path[0]);
      GetOrCreateFinds(base.inner, path[1..], deobf);
    }
  }

  /** Get-or-create with the same path and name a second time changes nothing. */
  lemma {:induction false} GetOrCreateIdempotent(classes: seq<ClassMapping>, path: seq<string>, deobf: string)
    requires |path| > 0
    ensures GetOrCreate(GetOrCreate(classes, path, deobf), path, deobf) == GetOrCreate(classes, path, deobf)
    decreases |path|
  {
    var once := GetOrCreate(classes, path, deobf);
    GetOrCreateIndex(classes, path, deobf);
    var k := IndexOf(classes, path[0]);
    var base := if k < |classes| then classes[k] else NewClassMapping(path[0]);
    if |path| > 1 {
      GetOrCreateIdempotent(base.inner, path[1..], deobf);
    }
    var twice := GetOrCreate(once, path, deobf);
    assert |twice| == |once|;
    forall j | 0 <= j < |once| ensures twice[j] == once[j] {
    }
  }

  /** An existing mapping keeps its inner classes, methods and fields; only its name changes. */
  lemma {:induction false} GetOrCreateKeepsExisting(classes: seq<ClassMapping>, path: seq<string>, deobf: string)
    requires |path| > 0 && Lookup(classes, path).Some?
    ensures Lookup(GetOrCreate(classes, path, deobf), path) == Some(Lookup(classes, path).value.(deobfName := deobf))
    decreases |path|
  {
    GetOrCreateIndex(classes, path, deobf);
    if |path| > 1 {
      var k := IndexOf(classes, path[0]);
      GetOrCreateKeepsExisting(classes[k].inner, path[1..], deobf);
    }
  }

  /** The classes enclosed by `l` located under it. */
  function Child(l: Located, c: ClassMapping): Located {
    Located(Some(FullNameOf(l)), c)
  }

  /** Every class mapping of a forest with its enclosing full names, outer before inner. */
  function ClassesOf(outer: Option<FullName>, classes: seq<ClassMapping>): seq<Located>
    decreases classes
  {
    if classes == [] then []
    else
      var l := Located(outer, classes[0]);
      [l] + ClassesOf(Some(FullNameOf(l)), classes[0].inner) + ClassesOf(outer, classes[1..])
  }

  function AllClasses(s: MappingSet): seq<Located> {
    ClassesOf(None, s.topLevel)
  }
}
