/** The mapping-change rules the reobfuscation-mappings task writes itself:
    three change contributors, the get-or-create change one of them proposes,
    the field-stripping contributor behind `filterFieldMappings`, the rebuild of
    a mapping tree in `copyFieldMappings`, and the order of the change chain.

    A contributor looks at one class (its classpath data and its mapping, either
    possibly absent) and submits proposed changes to a registry; a separate step
    applies them. Each contributor is a method over a `ChangeRegistry`, proved to
    append exactly the list a specification function gives; the lemmas below are
    about those functions. */
module ReobfMappings {
  import opened Wrappers
  import opened Text
  import opened Mappings

  /** A proposed mapping change, as submitted to a change registry. */
  datatype Change =
    | RemoveParameterMapping(member: MemberReference, index: nat)
    | RemoveClassMapping(className: string)
    | RemoveMapping(member: MemberReference)
    | AddClassMapping(target: string, deobfName: string)

  /** The registry contributors submit to: the changes in submission order. */
  class ChangeRegistry {
    var changes: seq<Change>

    constructor()
      ensures changes == []
    {
      changes := [];
    }

    method SubmitChange(c: Change)
      modifies this
      ensures changes == old(changes) + [c]
    {
      changes := changes + [c];
    }
  }

  // ---------------------------------------------------------------------------
  // RemoveAllParameterMappings

  /** One removal per parameter mapping of `m`, in order. */
  function MethodParameterRemovals(owner: string, m: MethodMapping): seq<Change> {
    seq(|m.params|, j requires 0 <= j < |m.params| =>
      RemoveParameterMapping(MethodReference(owner, m), m.params[j].index))
  }

  function ParameterRemovalsOf(owner: string, methods: seq<MethodMapping>): seq<Change>
    decreases |methods|
  {
    if methods == [] then []
    else MethodParameterRemovals(owner, methods[0]) + ParameterRemovalsOf(owner, methods[1..])
  }

  /** What RemoveAllParameterMappings proposes for a class: nothing without a mapping. */
  function ParameterRemovals(classMapping: Option<Located>): seq<Change> {
    match classMapping
    case None => []
    case Some(l) => ParameterRemovalsOf(FullNameOf(l).obf, l.mapping.methods)
  }

  lemma {:induction false} ParameterRemovalsSnoc(owner: string, methods: seq<MethodMapping>, m: MethodMapping)
    ensures ParameterRemovalsOf(owner, methods + [m])
         == ParameterRemovalsOf(owner, methods) + MethodParameterRemovals(owner, m)
    decreases |methods|
  {
    if methods == [] {
      assert ParameterRemovalsOf(owner, [m][1..]) == [];
    } else {
      assert (methods + [m])[1..] == methods[1..] + [m];
      ParameterRemovalsSnoc(owner, methods[1..], m);
    }
  }

  /** A change is proposed exactly when it removes the parameter at some index of some method. */
  lemma {:induction false} ParameterRemovalsMembership(owner: string, methods: seq<MethodMapping>, c: Change)
    ensures c in ParameterRemovalsOf(owner, methods) <==>
      exists i, j :: 0 <= i < |methods| && 0 <= j < |methods[i].params|
        && c == RemoveParameterMapping(MethodReference(owner, methods[i]), methods[i].params[j].index)
    decreases |methods|
  {
    if methods != [] {
      ParameterRemovalsMembership(owner, methods[1..], c);
      var here := MethodParameterRemovals(owner, methods[0]);
      if c in here {
        var j :| 0 <= j < |here| && here[j] == c;
        assert 0 <= j < |methods[0].params|;
      }
      if exists i, j :: (0 <= i < |methods| && 0 <= j < |methods[i].params|
        && c == RemoveParameterMapping(MethodReference(owner, methods[i]), methods[i].params[j].index))
      {
        var i, j :| 0 <= i < |methods| && 0 <= j < |methods[i].params|
          && c == RemoveParameterMapping(MethodReference(owner, methods[i]), methods[i].params[j].index);
        if i == 0 {
          assert here[j] == c;
        } else {
          assert methods[1..][i - 1] == methods[i];
        }
      }
    }
  }

  /** Exactly one proposal per parameter mapping, so methods without parameters add nothing. */
  lemma {:induction false} ParameterRemovalsCount(owner: string, methods: seq<MethodMapping>)
    ensures |ParameterRemovalsOf(owner, methods)|
         == Sum(seq(|methods|, i requires 0 <= i < |methods| => |methods[i].params|))
    decreases |methods|
  {
    var counts := seq(|methods|, i requires 0 <= i < |methods| => |methods[i].params|);
    if methods != [] {
      ParameterRemovalsCount(owner, methods[1..]);
      assert counts[1..] == seq(|methods[1..]|, i requires 0 <= i < |methods[1..]| => |methods[1..][i].params|);
    }
  }

  /** Submits a removal for every parameter mapping of every method mapping of the class. */
  method RemoveAllParameterMappings(classMapping: Option<Located>, registry: ChangeRegistry)
    modifies registry
    ensures registry.changes == old(registry.changes) + ParameterRemovals(classMapping)
  {
    if classMapping.None? {
      return;
    }
    var owner := FullNameOf(classMapping.value).obf;
    var methods := classMapping.value.mapping.methods;
    for i := 0 to |methods|
      invariant registry.changes == old(registry.changes) + ParameterRemovalsOf(owner, methods[..i])
    {
      var params := methods[i].params;
      ParameterRemovalsSnoc(owner, methods[..i], methods[i]);
      assert methods[..i + 1] == methods[..i] + [methods[i]];
      if params == [] {
        continue;
      }
      var ref := MethodReference(owner, methods[i]);
      ghost var before := registry.changes;
      for j := 0 to |params|
        invariant registry.changes == before + MethodParameterRemovals(owner, methods[i])[..j]
      {
        registry.SubmitChange(RemoveParameterMapping(ref, params[j].index));
        assert MethodParameterRemovals(owner, methods[i])[..j + 1]
            == MethodParameterRemovals(owner, methods[i])[..j] + [RemoveParameterMapping(ref, params[j].index)];
      }
    }
    assert methods[..|methods|] == methods;
  }

  // ---------------------------------------------------------------------------
  // RemoveObfSpigotMappings

  /** What RemoveObfSpigotMappings proposes: drop a mapping whose full deobfuscated name has no `/`. */
  function ObfSpigotRemovals(classMapping: Option<Located>): seq<Change> {
    match classMapping
    case None => []
    case Some(l) =>
      if Contains(FullNameOf(l).deobf, "/") then [] else [RemoveClassMapping(FullNameOf(l).obf)]
  }

  /** The class is dropped, under its full obfuscated name, exactly when neither its own
      deobfuscated name nor that of any enclosing class holds a `/`. */
  lemma ObfSpigotRemovalsSpec(l: Located)
    ensures ObfSpigotRemovals(Some(l)) == [RemoveClassMapping(FullNameOf(l).obf)] <==>
      '/' !in l.mapping.deobfName && (l.outer.Some? ==> '/' !in l.outer.value.deobf)
    ensures ObfSpigotRemovals(Some(l)) == [] <==>
      '/' in l.mapping.deobfName || (l.outer.Some? && '/' in l.outer.value.deobf)
  {
    var full := FullNameOf(l).deobf;
    ContainsChar(full, '/');
    assert Contains(full, "/") <==> Contains(full, ['/']);
    if l.outer.Some? {
      assert full == l.outer.value.deobf + "$" + l.mapping.deobfName;
      assert '/' in full <==> '/' in l.outer.value.deobf || '/' in l.mapping.deobfName;
    }
  }

  method RemoveObfSpigotMappings(classMapping: Option<Located>, registry: ChangeRegistry)
    modifies registry
    ensures registry.changes == old(registry.changes) + ObfSpigotRemovals(classMapping)
  {
    if classMapping.None? {
      return;
    }
    var names := FullNameOf(classMapping.value);
    if !Contains(names.deobf, "/") {
      registry.SubmitChange(RemoveClassMapping(names.obf));
    }
  }

  // ---------------------------------------------------------------------------
  // PropagateOuterClassMappings and the change it proposes

  predicate HasInnerNamed(outer: ClassMapping, deobfName: string) {
    exists i :: 0 <= i < |outer.inner| && outer.inner[i].deobfName == deobfName
  }

  /** What PropagateOuterClassMappings proposes for an unmapped inner class of a mapped
      outer class: a mapping to its simple name, unless the outer one already has an
      inner-class mapping to that name. */
  function OuterClassProposals(currentClass: Option<ClassData>, classMapping: Option<Located>, mappings: MappingSet): seq<Change> {
    if currentClass.None? || classMapping.Some? then []
    else
      var name := AfterLast(currentClass.value.name, '$');
      match currentClass.value.outerClass
      case None => []
      case Some(outer) =>
        match GetClassMapping(mappings, outer)
        case None => []
        case Some(outerMapping) =>
          if HasInnerNamed(outerMapping, name) then []
          else [AddClassMapping(currentClass.value.name, name)]
  }

  /** Something is proposed exactly when none of the five excluded cases holds. */
  lemma OuterClassProposalsWhen(currentClass: Option<ClassData>, classMapping: Option<Located>, mappings: MappingSet)
    ensures OuterClassProposals(currentClass, classMapping, mappings) != [] <==>
      currentClass.Some? && classMapping.None? && currentClass.value.outerClass.Some?
      && GetClassMapping(mappings, currentClass.value.outerClass.value).Some?
      && !HasInnerNamed(GetClassMapping(mappings, currentClass.value.outerClass.value).value,
                        AfterLast(currentClass.value.name, '$'))
  {
  }

  /** What is proposed is one mapping of the class to the text after its last `$`. */
  lemma OuterClassProposalsShape(currentClass: Option<ClassData>, classMapping: Option<Located>, mappings: MappingSet)
    requires OuterClassProposals(currentClass, classMapping, mappings) != []
    ensures var name := currentClass.value.name;
      var simple := AfterLast(name, '$');
      OuterClassProposals(currentClass, classMapping, mappings) == [AddClassMapping(name, simple)]
      && '$' !in simple && |simple| <= |name| && simple == name[|name| - |simple|..]
      && (|simple| == |name| || name[|name| - |simple| - 1] == '$')
  {
    AfterLastSpec(currentClass.value.name, '$');
  }

  method PropagateOuterClassMappings(
    currentClass: Option<ClassData>, classMapping: Option<Located>, mappings: MappingSet, registry: ChangeRegistry)
    modifies registry
    ensures registry.changes == old(registry.changes) + OuterClassProposals(currentClass, classMapping, mappings)
  {
    if currentClass.None? || classMapping.Some? {
      return;
    }
    var name := AfterLast(currentClass.value.name, '$');
    if currentClass.value.outerClass.None? {
      return;
    }
    var outerMappings := GetClassMapping(mappings, currentClass.value.outerClass.value);
    if outerMappings.None? {
      return;
    }
    if HasInnerNamed(outerMappings.value, name) {
      return;
    }
    registry.SubmitChange(AddClassMapping(currentClass.value.name, name));
  }

  /** The change AddClassMapping(target, deobfName) applied to a mapping set:
      get or create the mapping for `target` and set its deobfuscated name. */
  function ApplyAddClassMapping(s: MappingSet, target: string, deobfName: string): MappingSet {
    MappingSet(GetOrCreate(s.topLevel, ClassPath(target), deobfName))
  }

  /** After the change the target is mapped to the given name; applying it again changes
      nothing; an existing mapping of the target keeps its members and inner classes. */
  lemma AddClassMappingSpec(s: MappingSet, target: string, deobfName: string)
    ensures var after := ApplyAddClassMapping(s, target, deobfName);
      GetClassMapping(after, target).Some? && GetClassMapping(after, target).value.deobfName == deobfName
    ensures var after := ApplyAddClassMapping(s, target, deobfName);
      ApplyAddClassMapping(after, target, deobfName) == after
    ensures GetClassMapping(s, target).Some? ==>
      GetClassMapping(ApplyAddClassMapping(s, target, deobfName), target)
        == Some(GetClassMapping(s, target).value.(deobfName := deobfName))
  {
    GetOrCreateFinds(s.topLevel, ClassPath(target), deobfName);
    GetOrCreateIdempotent(s.topLevel, ClassPath(target), deobfName);
    if GetClassMapping(s, target).Some? {
      GetOrCreateKeepsExisting(s.topLevel, ClassPath(target), deobfName);
    }
  }

  /** The class a class-mapping change is about. */
  function TargetClass(c: Change): string
    requires c.AddClassMapping? || c.RemoveClassMapping?
  {
    if c.AddClassMapping? then c.target else c.className
  }

  /** A proposal of PropagateOuterClassMappings, once applied, maps the inner class
      under its full name to its simple name. */
  lemma PropagatedMappingApplies(currentClass: Option<ClassData>, classMapping: Option<Located>, mappings: MappingSet)
    requires OuterClassProposals(currentClass, classMapping, mappings) != []
    ensures var c := OuterClassProposals(currentClass, classMapping, mappings)[0];
      var after := ApplyAddClassMapping(mappings, c.target, c.deobfName);
      TargetClass(c) == currentClass.value.name
      && GetClassMapping(after, currentClass.value.name).Some?
      && GetClassMapping(after, currentClass.value.name).value.deobfName == AfterLast(currentClass.value.name, '$')
  {
    OuterClassProposalsShape(currentClass, classMapping, mappings);
    var c := OuterClassProposals(currentClass, classMapping, mappings)[0];
    AddClassMappingSpec(mappings, c.target, c.deobfName);
  }

  /** A mapping set updated in place by class-mapping changes. */
  class MutableMappingSet {
    var current: MappingSet

    constructor(s: MappingSet)
      ensures current == s
    {
      current := s;
    }

    /** `AddClassMappingChange.applyChange`: get-or-create the target and rename it. */
    method ApplyChange(c: Change)
      requires c.AddClassMapping?
      modifies this
      ensures current == ApplyAddClassMapping(old(current), c.target, c.deobfName)
    {
      current := MappingSet(GetOrCreate(current.topLevel, ClassPath(c.target), c.deobfName));
    }
  }

  // ---------------------------------------------------------------------------
  // filterFieldMappings

  /** What RemoveFieldMappings proposes for a class: the removal of each of its fields. */
  function FieldRemovals(classMapping: Option<Located>): seq<Change> {
    match classMapping
    case None => []
    case Some(l) =>
      seq(|l.mapping.fields|, i requires 0 <= i < |l.mapping.fields| =>
        RemoveMapping(FieldReference(FullNameOf(l).obf, l.mapping.fields[i])))
  }

  method RemoveFieldMappings(classMapping: Option<Located>, registry: ChangeRegistry)
    modifies registry
    ensures registry.changes == old(registry.changes) + FieldRemovals(classMapping)
  {
    if classMapping.None? {
      return;
    }
    var owner := FullNameOf(classMapping.value).obf;
    var fields := classMapping.value.mapping.fields;
    for i := 0 to |fields|
      invariant registry.changes == old(registry.changes) + FieldRemovals(classMapping)[..i]
    {
      registry.SubmitChange(RemoveMapping(FieldReference(owner, fields[i])));
      assert FieldRemovals(classMapping)[..i + 1] == FieldRemovals(classMapping)[..i] + [RemoveMapping(FieldReference(owner, fields[i]))];
    }
  }

  /** The proposals of one contributor pass over the given classes. */
  function FieldRemovalsOver(classes: seq<Located>): seq<Change>
    decreases |classes|
  {
    if classes == [] then [] else FieldRemovals(Some(classes[0])) + FieldRemovalsOver(classes[1..])
  }

  /** The members a batch of changes removes. */
  function RemovedMembers(changes: seq<Change>): set<MemberReference> {
    set c | c in changes && c.RemoveMapping? :: c.member
  }

  function KeptFields(owner: string, fields: seq<FieldMapping>, removed: set<MemberReference>): seq<FieldMapping>
    decreases |fields|
  {
    if fields == [] then []
    else
      var kept := if FieldReference(owner, fields[0]) in removed then [] else [fields[0]];
      kept + KeptFields(owner, fields[1..], removed)
  }

  /** A batch of member removals applied to a forest of class mappings. */
  function ApplyRemovals(outer: Option<FullName>, classes: seq<ClassMapping>, removed: set<MemberReference>): seq<ClassMapping>
    decreases classes
  {
    if classes == [] then []
    else
      var l := Located(outer, classes[0]);
      [classes[0].(inner := ApplyRemovals(Some(FullNameOf(l)), classes[0].inner, removed),
                   fields := KeptFields(FullNameOf(l).obf, classes[0].fields, removed))]
      + ApplyRemovals(outer, classes[1..], removed)
  }

  /** `filterFieldMappings`: one pass of RemoveFieldMappings over every class, then the batch applied. */
  function FilterFieldMappings(s: MappingSet): MappingSet {
    MappingSet(ApplyRemovals(None, s.topLevel, RemovedMembers(FieldRemovalsOver(AllClasses(s)))))
  }

  /** The forest with every field mapping dropped and nothing else changed. */
  function WithoutFields(classes: seq<ClassMapping>): seq<ClassMapping>
    decreases classes
  {
    if classes == [] then []
    else [classes[0].(inner := WithoutFields(classes[0].inner), fields := [])] + WithoutFields(classes[1..])
  }

  lemma {:induction false} FieldRemovalsOverCovers(classes: seq<Located>, k: nat, i: nat)
    requires k < |classes| && i < |classes[k].mapping.fields|
    ensures RemoveMapping(FieldReference(FullNameOf(classes[k]).obf, classes[k].mapping.fields[i]))
         in FieldRemovalsOver(classes)
    decreases |classes|
  {
    if k == 0 {
      assert FieldRemovals(Some(classes[0]))[i]
          == RemoveMapping(FieldReference(FullNameOf(classes[0]).obf, classes[0].mapping.fields[i]));
    } else {
      assert classes[1..][k - 1] == classes[k];
      FieldRemovalsOverCovers(classes[1..], k - 1, i);
    }
  }

  lemma {:induction false} KeptFieldsNone(owner: string, fields: seq<FieldMapping>, removed: set<MemberReference>)
    requires forall i :: 0 <= i < |fields| ==> FieldReference(owner, fields[i]) in removed
    ensures KeptFields(owner, fields, removed) == []
    decreases |fields|
  {
    if fields != [] {
      KeptFieldsNone(owner, fields[1..], removed);
    }
  }

  /** Removals covering every field of every class strip all fields and nothing else. */
  lemma {:induction false} ApplyRemovalsStrips(outer: Option<FullName>, classes: seq<ClassMapping>, removed: set<MemberReference>)
    requires forall k, i :: 0 <= k < |ClassesOf(outer, classes)| && 0 <= i < |ClassesOf(outer, classes)[k].mapping.fields| ==>
      FieldReference(FullNameOf(ClassesOf(outer, classes)[k]).obf, ClassesOf(outer, classes)[k].mapping.fields[i]) in removed
    ensures ApplyRemovals(outer, classes, removed) == WithoutFields(classes)
    decreases classes
  {
    if classes != [] {
      var l := Located(outer, classes[0]);
      var all := ClassesOf(outer, classes);
      var innerAll := ClassesOf(Some(FullNameOf(l)), classes[0].inner);
      var rest := ClassesOf(outer, classes[1..]);
      assert all == [l] + innerAll + rest;
      forall i | 0 <= i < |classes[0].fields|
        ensures FieldReference(FullNameOf(l).obf, classes[0].fields[i]) in removed
      {
        assert all[0] == l;
      }
      KeptFieldsNone(FullNameOf(l).obf, classes[0].fields, removed);
      forall k, i | 0 <= k < |innerAll| && 0 <= i < |innerAll[k].mapping.fields|
        ensures FieldReference(FullNameOf(innerAll[k]).obf, innerAll[k].mapping.fields[i]) in removed
      {
        assert all[1 + k] == innerAll[k];
      }
      ApplyRemovalsStrips(Some(FullNameOf(l)), classes[0].inner, removed);
      forall k, i | 0 <= k < |rest| && 0 <= i < |rest[k].mapping.fields|
        ensures FieldReference(FullNameOf(rest[k]).obf, rest[k].mapping.fields[i]) in removed
      {
        assert all[1 + |innerAll| + k] == rest[k];
      }
      ApplyRemovalsStrips(outer, classes[1..], removed);
    }
  }

  /** `filterFieldMappings` leaves the class tree and the method mappings as they were
      and keeps no field mapping at all. */
  lemma FilterFieldMappingsStripsFields(s: MappingSet)
    ensures FilterFieldMappings(s).topLevel == WithoutFields(s.topLevel)
  {
    var classes := AllClasses(s);
    var removed := RemovedMembers(FieldRemovalsOver(classes));
    forall k, i | 0 <= k < |classes| && 0 <= i < |classes[k].mapping.fields|
      ensures FieldReference(FullNameOf(classes[k]).obf, classes[k].mapping.fields[i]) in removed
    {
      FieldRemovalsOverCovers(classes, k, i);
    }
    ApplyRemovalsStrips(None, s.topLevel, removed);
  }

  /** A forest with no field mapping anywhere. */
  predicate NoFields(classes: seq<ClassMapping>)
    decreases classes
  {
    forall i :: 0 <= i < |classes| ==> classes[i].fields == [] && NoFields(classes[i].inner)
  }

  lemma {:induction false} WithoutFieldsHasNone(classes: seq<ClassMapping>)
    ensures NoFields(WithoutFields(classes))
    decreases classes
  {
    if classes != [] {
      WithoutFieldsHasNone(classes[0].inner);
      WithoutFieldsHasNone(classes[1..]);
      var r := WithoutFields(classes);
      forall i | 0 <= i < |r| ensures r[i].fields == [] && NoFields(r[i].inner) {
        if i > 0 {
          assert r[i] == WithoutFields(classes[1..])[i - 1];
        }
      }
    }
  }

  // ---------------------------------------------------------------------------
  // copyFieldMappings

  /** `Optional.get()` on a missing class mapping: the class that was not found. */
  datatype CopyError = MissingClass(obfName: string)

  /** A field named `if` or `do` is keyed as `if_` or `do_`; every other field is kept as it is. */
  function EscapedField(f: FieldMapping): FieldMapping {
    if f.obfName == "if" || f.obfName == "do" then f.(obfName := f.obfName + "_") else f
  }

  function EscapedFields(fields: seq<FieldMapping>): seq<FieldMapping> {
    seq(|fields|, i requires 0 <= i < |fields| => EscapedField(fields[i]))
  }

  /** The copy of one class: names and methods from the base mapping, inner classes
      rebuilt recursively, fields from the field-side mapping. */
  function CopiedClass(base: ClassMapping, fieldClass: ClassMapping): Result<ClassMapping, CopyError>
    decreases base, 1
  {
    var inner :- CopiedClasses(base.inner, fieldClass.inner);
    Success(ClassMapping(base.obfName, base.deobfName, inner, base.methods, EscapedFields(fieldClass.fields)))
  }

  /** The copies of the base classes in order, each paired with the field-side class of
      the same obfuscated name; the first class without one is the error. */
  function CopiedClasses(bases: seq<ClassMapping>, fieldClasses: seq<ClassMapping>): Result<seq<ClassMapping>, CopyError>
    decreases bases, 0
  {
    if bases == [] then Success([])
    else
      var prev :- CopiedClasses(bases[..|bases| - 1], fieldClasses);
      var last := bases[|bases| - 1];
      match FindClass(fieldClasses, last.obfName)
      case None => Failure(MissingClass(last.obfName))
      case Some(fieldClass) =>
        var copy :- CopiedClass(last, fieldClass);
        Success(prev + [copy])
  }

  /** `out` is the rebuild of `bases` against `fieldClasses`: same length; each class keeps
      its obfuscated and deobfuscated names and its method mappings, takes its fields
      (escaped) from the field-side class of the same obfuscated name, and its inner
      classes are rebuilt in the same way. */
  predicate Mirrors(out: seq<ClassMapping>, bases: seq<ClassMapping>, fieldClasses: seq<ClassMapping>)
    decreases bases
  {
    |out| == |bases|
    && forall i :: 0 <= i < |bases| ==>
      out[i].obfName == bases[i].obfName && out[i].deobfName == bases[i].deobfName
      && out[i].methods == bases[i].methods
      && match FindClass(fieldClasses, bases[i].obfName)
         case None => false
         case Some(fc) => out[i].fields == EscapedFields(fc.fields) && Mirrors(out[i].inner, bases[i].inner, fc.inner)
  }

  /** Every class of the base tree has a counterpart, at the same place, on the field side. */
  predicate Covered(bases: seq<ClassMapping>, fieldClasses: seq<ClassMapping>)
    decreases bases
  {
    forall i :: 0 <= i < |bases| ==>
      match FindClass(fieldClasses, bases[i].obfName)
      case None => false
      case Some(fc) => Covered(bases[i].inner, fc.inner)
  }

  lemma {:induction false} MirrorsSnoc(out: seq<ClassMapping>, bases: seq<ClassMapping>, fieldClasses: seq<ClassMapping>, o: ClassMapping, b: ClassMapping)
    requires Mirrors(out, bases, fieldClasses) && Mirrors([o], [b], fieldClasses)
    ensures Mirrors(out + [o], bases + [b], fieldClasses)
  {
    var out', bases' := out + [o], bases + [b];
    forall i | 0 <= i < |bases'|
      ensures out'[i].obfName == bases'[i].obfName && out'[i].deobfName == bases'[i].deobfName
        && out'[i].methods == bases'[i].methods
        && match FindClass(fieldClasses, bases'[i].obfName)
           case None => false
           case Some(fc) => out'[i].fields == EscapedFields(fc.fields) && Mirrors(out'[i].inner, bases'[i].inner, fc.inner)
    {
      if i < |bases| {
        assert out'[i] == out[i] && bases'[i] == bases[i];
      } else {
        assert out'[i] == [o][0] && bases'[i] == [b][0];
      }
    }
  }

  lemma {:induction false} CoveredSnoc(bases: seq<ClassMapping>, fieldClasses: seq<ClassMapping>)
    requires bases != []
    ensures Covered(bases, fieldClasses) <==>
      Covered(bases[..|bases| - 1], fieldClasses) && Covered([bases[|bases| - 1]], fieldClasses)
  {
    var init, last := bases[..|bases| - 1], bases[|bases| - 1];
    if Covered(init, fieldClasses) && Covered([last], fieldClasses) {
      forall i | 0 <= i < |bases|
        ensures match FindClass(fieldClasses, bases[i].obfName)
          case None => false
          case Some(fc) => Covered(bases[i].inner, fc.inner)
      {
        if i < |init| {
          assert bases[i] == init[i];
        } else {
          assert bases[i] == [last][0];
        }
      }
    }
    if Covered(bases, fieldClasses) {
      forall i | 0 <= i < |init|
        ensures match FindClass(fieldClasses, init[i].obfName)
          case None => false
          case Some(fc) => Covered(init[i].inner, fc.inner)
      {
        assert init[i] == bases[i];
      }
      assert [last][0] == bases[|bases| - 1];
    }
  }

  /** One step of the rebuild: the base classes but the last, then the last one. */
  lemma CopiedClassesLast(bases: seq<ClassMapping>, fieldClasses: seq<ClassMapping>)
    requires bases != []
    ensures var init, last := bases[..|bases| - 1], bases[|bases| - 1];
      var fc := FindClass(fieldClasses, last.obfName);
      (CopiedClasses(bases, fieldClasses).Success? <==>
        CopiedClasses(init, fieldClasses).Success? && fc.Some? && CopiedClass(last, fc.value).Success?)
      && (CopiedClasses(bases, fieldClasses).Success? ==>
        CopiedClasses(bases, fieldClasses).value == CopiedClasses(init, fieldClasses).value + [CopiedClass(last, fc.value).value])
  {
  }

  lemma CoveredSingle(b: ClassMapping, fieldClasses: seq<ClassMapping>)
    ensures Covered([b], fieldClasses) <==>
      FindClass(fieldClasses, b.obfName).Some? && Covered(b.inner, FindClass(fieldClasses, b.obfName).value.inner)
  {
    assert [b][0] == b;
  }

  lemma MirrorsSingle(o: ClassMapping, b: ClassMapping, fieldClasses: seq<ClassMapping>, fc: ClassMapping)
    requires FindClass(fieldClasses, b.obfName) == Some(fc)
    requires o.obfName == b.obfName && o.deobfName == b.deobfName && o.methods == b.methods
    requires o.fields == EscapedFields(fc.fields) && Mirrors(o.inner, b.inner, fc.inner)
    ensures Mirrors([o], [b], fieldClasses)
  {
    assert [o][0] == o && [b][0] == b;
  }

  /** The rebuild succeeds exactly when the field side covers the base tree, and then
      it mirrors the base tree with fields taken only from the field side. */
  lemma {:induction false} CopiedClassesSpec(bases: seq<ClassMapping>, fieldClasses: seq<ClassMapping>)
    ensures CopiedClasses(bases, fieldClasses).Success? <==> Covered(bases, fieldClasses)
    ensures CopiedClasses(bases, fieldClasses).Success? ==>
      Mirrors(CopiedClasses(bases, fieldClasses).value, bases, fieldClasses)
    decreases bases, 0
  {
    if bases != [] {
      var init, last := bases[..|bases| - 1], bases[|bases| - 1];
      CopiedClassesSpec(init, fieldClasses);
      CoveredSnoc(bases, fieldClasses);
      CoveredSingle(last, fieldClasses);
      CopiedClassesLast(bases, fieldClasses);
      var found := FindClass(fieldClasses, last.obfName);
      if found.Some? {
        var fc := found.value;
        CopiedClassSpec(last, fc);
        if CopiedClasses(bases, fieldClasses).Success? {
          var copy := CopiedClass(last, fc).value;
          MirrorsSingle(copy, last, fieldClasses, fc);
          MirrorsSnoc(CopiedClasses(init, fieldClasses).value, init, fieldClasses, copy, last);
          assert init + [last] == bases;
        }
      }
    }
  }

  lemma {:induction false} CopiedClassSpec(base: ClassMapping, fieldClass: ClassMapping)
    ensures CopiedClass(base, fieldClass).Success? <==> Covered(base.inner, fieldClass.inner)
    ensures CopiedClass(base, fieldClass).Success? ==>
      var c := CopiedClass(base, fieldClass).value;
      c.obfName == base.obfName && c.deobfName == base.deobfName && c.methods == base.methods
      && c.fields == EscapedFields(fieldClass.fields) && Mirrors(c.inner, base.inner, fieldClass.inner)
    decreases base, 1
  {
    CopiedClassesSpec(base.inner, fieldClass.inner);
  }

  /** Each copied field keeps its type and deobfuscated name; `if` and `do` gain a `_`
      and every other name is kept, so no copied field is keyed `if` or `do`. */
  lemma EscapedFieldSpec(f: FieldMapping)
    ensures EscapedField(f).fieldType == f.fieldType && EscapedField(f).deobfName == f.deobfName
    ensures f.obfName == "if" ==> EscapedField(f).obfName == "if_"
    ensures f.obfName == "do" ==> EscapedField(f).obfName == "do_"
    ensures f.obfName != "if" && f.obfName != "do" ==> EscapedField(f) == f
    ensures EscapedField(f).obfName != "if" && EscapedField(f).obfName != "do"
  {
  }

  /** `copyFieldMappings` over whole sets: rebuild every top-level class of the base set. */
  method CopyFieldMappings(baseMappings: MappingSet, fieldMappings: MappingSet) returns (r: Result<MappingSet, CopyError>)
    ensures match CopiedClasses(baseMappings.topLevel, fieldMappings.topLevel)
      case Success(classes) => r == Success(MappingSet(classes))
      case Failure(e) => r == Failure(e)
  {
    var output: seq<ClassMapping> := [];
    var bases := baseMappings.topLevel;
    for i := 0 to |bases|
      invariant CopiedClasses(bases[..i], fieldMappings.topLevel) == Success(output)
    {
      assert bases[..i + 1][..i] == bases[..i];
      var fieldClassMapping := FindClass(fieldMappings.topLevel, bases[i].obfName);
      if fieldClassMapping.None? {
        r := Failure(MissingClass(bases[i].obfName));
        PrefixFailure(bases, fieldMappings.topLevel, i + 1);
        return;
      }
      var newClassMapping := CopyClassFieldMappings(bases[i], fieldClassMapping.value);
      if newClassMapping.Failure? {
        r := Failure(newClassMapping.error);
        PrefixFailure(bases, fieldMappings.topLevel, i + 1);
        return;
      }
      CopiedClassesLast(bases[..i + 1], fieldMappings.topLevel);
      output := output + [newClassMapping.value];
    }
    assert bases[..|bases|] == bases;
    r := Success(MappingSet(output));
  }

  /** Once a prefix of the base classes fails, the whole rebuild fails with the same error. */
  lemma {:induction false} PrefixFailure(bases: seq<ClassMapping>, fieldClasses: seq<ClassMapping>, n: nat)
    requires n <= |bases| && CopiedClasses(bases[..n], fieldClasses).Failure?
    ensures CopiedClasses(bases, fieldClasses) == CopiedClasses(bases[..n], fieldClasses)
    decreases |bases| - n
  {
    if n < |bases| {
      assert bases[..n + 1][..n] == bases[..n];
      PrefixFailure(bases, fieldClasses, n + 1);
    } else {
      assert bases[..n] == bases;
    }
  }

  /** The recursive half of `copyFieldMappings`: inner classes first, then methods, then fields. */
  method CopyClassFieldMappings(baseClassMapping: ClassMapping, fieldClassMapping: ClassMapping)
    returns (r: Result<ClassMapping, CopyError>)
    ensures r == CopiedClass(baseClassMapping, fieldClassMapping)
    decreases baseClassMapping
  {
    var inners := baseClassMapping.inner;
    var newInner: seq<ClassMapping> := [];
    for i := 0 to |inners|
      invariant CopiedClasses(inners[..i], fieldClassMapping.inner) == Success(newInner)
    {
      assert inners[..i + 1][..i] == inners[..i];
      var fieldInner := FindClass(fieldClassMapping.inner, inners[i].obfName);
      if fieldInner.None? {
        r := Failure(MissingClass(inners[i].obfName));
        PrefixFailure(inners, fieldClassMapping.inner, i + 1);
        return;
      }
      var copy := CopyClassFieldMappings(inners[i], fieldInner.value);
      if copy.Failure? {
        r := Failure(copy.error);
        PrefixFailure(inners, fieldClassMapping.inner, i + 1);
        return;
      }
      CopiedClassesLast(inners[..i + 1], fieldClassMapping.inner);
      newInner := newInner + [copy.value];
    }
    assert inners[..|inners|] == inners;

    var methods: seq<MethodMapping> := [];
    for i := 0 to |baseClassMapping.methods|
      invariant methods == baseClassMapping.methods[..i]
    {
      methods := methods + [baseClassMapping.methods[i]];
    }
    assert baseClassMapping.methods[..|baseClassMapping.methods|] == baseClassMapping.methods;

    var source := fieldClassMapping.fields;
    var fields: seq<FieldMapping> := [];
    for i := 0 to |source|
      invariant fields == EscapedFields(source[..i])
    {
      var name := source[i].obfName;
      if name == "if" || name == "do" {
        fields := fields + [FieldMapping(name + "_", source[i].fieldType, source[i].deobfName)];
      } else {
        fields := fields + [source[i]];
      }
    }
    assert source[..|source|] == source;
    r := Success(ClassMapping(baseClassMapping.obfName, baseClassMapping.deobfName, newInner, methods, fields));
  }

  // ---------------------------------------------------------------------------
  // The change chain of the reobfuscation task

  /** The contributors of the chain; the three from the mapping library are names only. */
  datatype ContributorName =
    | RemoveUnused | RemoveAllParameters | RemoveObfSpigot | PropagateOuterClass | PropagateUp | CopyDown

  /** The links in the order they are added; the contributors of one link see one snapshot. */
  const ReobfChain: seq<seq<ContributorName>> :=
    [[RemoveUnused], [RemoveAllParameters, RemoveObfSpigot], [PropagateOuterClass], [PropagateUp], [CopyDown]]

  /** The position of the link holding a contributor: unused mappings go first, the
      parameter and obf-name removals share the second link, and outer-class
      propagation, propagation up and copying down follow in that order. */
  function LinkOf(c: ContributorName): (k: nat)
    ensures k < |ReobfChain| && c in ReobfChain[k]
    ensures forall j :: 0 <= j < |ReobfChain| && c in ReobfChain[j] ==> j == k
  {
    match c
    case RemoveUnused => 0
    case RemoveAllParameters => 1
    case RemoveObfSpigot => 1
    case PropagateOuterClass => 2
    case PropagateUp => 3
    case CopyDown => 4
  }
}
