# corrosive build logic in Dafny

This project models the rules that corrosive's Gradle plugins implement themselves. Corrosive is a set of paperweight/toothpick-style build plugins for a Minecraft server fork. The plugins call git, Maven, the mapping library and the filesystem. Those calls are left out: the results of git and of file reads are passed in as values.

- **Reobfuscation mappings** (`reobf.dfy`, over the mapping tree in `mappings.dfy`):
  - three change contributors, each a method that appends to a `ChangeRegistry`;
  - the `AddClassMappingChange` they propose, applied by get-or-create;
  - the field stripping of `filterFieldMappings`;
  - the tree rebuild of `copyFieldMappings`, which takes classes and methods from one set and fields from another and escapes `if`/`do`;
  - the order of the change chain's links.

  Each contributor is proved to submit exactly the list that a specification function computes from the class it is shown. The lemmas are about those functions.
- **Patch header parser** (`patch_parser.dfy`): the line scan that finds the author, subject and co-authors of a patch file, and the guard that decides when a name is MIME-decoded. The decoder itself is a function parameter.
- **Command helpers** (`cmd_util.dfy`): the exit-code gate, the `git`/`bash` argument vectors, and `${key}` template substitution.
- **Yatoclip metadata** (`patches_metadata.dfy`): null checks, and the rewriting of relocation package names from dotted to slashed form.
- **Spigot dependencies** (`spigot_deps.dfy`):
  - the dependency filter;
  - the order of the repository and artifact lists read from a POM, which is abstracted to its elements' texts;
  - the insertion-ordered union of the API and server lists.
- **Patch applier** (`patch_applier.dfy`): a class holding the recorded commit, the `git am` exit rule, and the unfinished-patch check.
- **Toothpick extension** (`toothpick.dfy`): the derived names, the subprojects, and the upstream list, which is read from numbered config files and stably sorted by number.

`text.dfy` holds the JVM string operations that these rules use. It has `String.replace`, `split(c)[0]`, the two `trim`s, `substringAfterLast`, `String.join`, ASCII lower-casing, and decimal rendering and parsing of integers. `wrappers.dfy` holds `Option` and `Result`. A Java `null` is `None`. A thrown exception is a `Failure` naming it.

The mapping library's lookups are taken as follows:
- A full class name is split at every `$` into a path of simple names.
- `getClassMapping` follows that path from the top level inwards.
- `getOrCreateClassMapping` creates each missing class on the path. A created class maps to its own name.

## Model

| member | source | states |
|---|---|---|
| ReobfMappings.RemoveAllParameterMappings | paperweight-lib/src/main/kotlin/tasks/GenerateReobfMappings.kt:111-129 | the registry gains exactly the parameter removals of the class; nothing without a mapping |
| ReobfMappings.ParameterRemovalsMembership | paperweight-lib/src/main/kotlin/tasks/GenerateReobfMappings.kt:116-124 | a change is proposed iff it removes parameter index p of method m, keyed by the owner's full obfuscated name, m's name and m's descriptor |
| ReobfMappings.ParameterRemovalsCount | paperweight-lib/src/main/kotlin/tasks/GenerateReobfMappings.kt:116-124 | one proposal per parameter mapping, so methods without parameters add nothing |
| ReobfMappings.RemoveObfSpigotMappings | paperweight-lib/src/main/kotlin/tasks/GenerateReobfMappings.kt:131-142 | the registry gains the obf-Spigot removal for the class and nothing else |
| ReobfMappings.ObfSpigotRemovalsSpec | paperweight-lib/src/main/kotlin/tasks/GenerateReobfMappings.kt:136-138 | the class is removed, under its full obfuscated name, iff neither its deobfuscated name nor its outer class's full deobfuscated name holds `/`; otherwise nothing is proposed |
| ReobfMappings.PropagateOuterClassMappings | paperweight-lib/src/main/kotlin/tasks/GenerateReobfMappings.kt:144-163 | the registry gains exactly the outer-class proposal for the class |
| ReobfMappings.OuterClassProposalsWhen | paperweight-lib/src/main/kotlin/tasks/GenerateReobfMappings.kt:147-157 | something is proposed iff there is class data, no mapping, an outer class, a mapping for it, and no inner mapping of it with the simple name |
| ReobfMappings.OuterClassProposalsShape | paperweight-lib/src/main/kotlin/tasks/GenerateReobfMappings.kt:151-159 | the proposal is AddClassMapping(name, simple), where simple is the `$`-free suffix of name that follows its last `$` or is the whole name |
| ReobfMappings.AddClassMappingSpec | paperweight-lib/src/main/kotlin/tasks/GenerateReobfMappings.kt:165-171 | after the change the target is mapped to the new name; applying it twice equals once; an existing mapping keeps its members |
| ReobfMappings.MutableMappingSet.ApplyChange | paperweight-lib/src/main/kotlin/tasks/GenerateReobfMappings.kt:168-170 | the set held in place becomes the get-or-create update of the target |
| ReobfMappings.PropagatedMappingApplies | paperweight-lib/src/main/kotlin/tasks/GenerateReobfMappings.kt:159-170 | a propagated change targets the inner class, and once applied that class maps to its simple name |
| Mappings.GetOrCreateFinds | paperweight-lib/src/main/kotlin/tasks/GenerateReobfMappings.kt:169 | after get-or-create the path leads to a mapping with the new deobfuscated name |
| Mappings.GetOrCreateIdempotent | paperweight-lib/src/main/kotlin/tasks/GenerateReobfMappings.kt:169 | get-or-create with the same path and name twice equals once |
| Mappings.GetOrCreateKeepsExisting | paperweight-lib/src/main/kotlin/tasks/GenerateReobfMappings.kt:169 | an existing mapping keeps inner classes, methods and fields; only its name changes |
| ReobfMappings.RemoveFieldMappings | paperweight-lib/src/main/kotlin/tasks/GenerateReobfMappings.kt:230-237 | the registry gains one removal per field mapping of the class, in order |
| ReobfMappings.FilterFieldMappingsStripsFields | paperweight-lib/src/main/kotlin/tasks/GenerateReobfMappings.kt:229-242 | the filtered set is the input with every field mapping dropped and classes and methods unchanged |
| ReobfMappings.WithoutFieldsHasNone | paperweight-lib/src/main/kotlin/tasks/GenerateReobfMappings.kt:229-242 | no class of the stripped tree keeps a field mapping |
| ReobfMappings.CopyFieldMappings | paperweight-lib/src/main/kotlin/tasks/GenerateReobfMappings.kt:244-254 | the loop over top-level classes returns the rebuilt set, or the first missing class |
| ReobfMappings.CopyClassFieldMappings | paperweight-lib/src/main/kotlin/tasks/GenerateReobfMappings.kt:256-280 | inner classes rebuilt recursively, methods copied and fields escaped, as the rebuild specification says |
| ReobfMappings.CopiedClassesSpec | paperweight-lib/src/main/kotlin/tasks/GenerateReobfMappings.kt:244-270 | the rebuild succeeds iff every base class, inner ones too, has a same-named counterpart on the field side; then the output mirrors the base tree's names and methods and takes fields only from the field side |
| ReobfMappings.CopiedClassSpec | paperweight-lib/src/main/kotlin/tasks/GenerateReobfMappings.kt:256-279 | a copied class has the base names and methods and the field side's fields, escaped |
| ReobfMappings.EscapedFieldSpec | paperweight-lib/src/main/kotlin/tasks/GenerateReobfMappings.kt:271-279 | `if`/`do` become `if_`/`do_` with the same type and deobfuscated name; other fields are unchanged; no copied field is named `if` or `do` |
| ReobfMappings.LinkOf | paperweight-lib/src/main/kotlin/tasks/GenerateReobfMappings.kt:212-218 | every contributor sits in exactly one link of the chain |
| PatchParser.NeedsDecodingIffEquals | paperweight-patcher/src/main/kotlin/PatchParser.kt:65 | the decode guard holds iff the text contains `=`; the `=?UTF-8` prefix test adds nothing |
| PatchParser.DecodeStringIfNeeded | paperweight-patcher/src/main/kotlin/PatchParser.kt:64-73 | text without `=` is returned unchanged; otherwise the decoder's result, or an IOException when it rejects |
| PatchParser.NameFieldSpec | paperweight-patcher/src/main/kotlin/PatchParser.kt:46-49 | a parsed name holds no `<` and starts and ends with a character above the space |
| PatchParser.HeaderPrefixesExclusive | paperweight-patcher/src/main/kotlin/PatchParser.kt:45-59 | no line starts with two of the three header prefixes |
| PatchParser.ParsePatch | paperweight-patcher/src/main/kotlin/PatchParser.kt:39-62 | the loop computes the header scan; a missing parent directory is an error after the scan |
| PatchParser.ScanFrom | paperweight-patcher/src/main/kotlin/PatchParser.kt:41-49 | from is "Unknown" without a `From: ` line, else the decoded name of the last one |
| PatchParser.ScanSubject | paperweight-patcher/src/main/kotlin/PatchParser.kt:41-52 | subject is "Unknown" without a `Subject: ` line, else the stripped text of the last one |
| PatchParser.ScanCoAuthors | paperweight-patcher/src/main/kotlin/PatchParser.kt:53-58 | the co-authors are the decoded names of the `Co-authored-by: ` lines, one each, in file order |
| PatchParser.ScanFailsIff | paperweight-patcher/src/main/kotlin/PatchParser.kt:44-60 | parsing fails iff some author or co-author name cannot be decoded |
| PatchParser.CoAuthorStringSpec | paperweight-patcher/src/main/kotlin/PatchParser.kt:76-82 | every co-author occurs in the joined string, and its length is the names' total plus two per separator |
| PatchParser.PatchInfoStringSpec | paperweight-patcher/src/main/kotlin/PatchParser.kt:84-98 | the rendering opens with the parent, closes with `]}` and contains every co-author |
| CmdUtil.EnsureSuccess | paperweight-patcher/src/main/kotlin/Util.kt:59-69 | success iff the exit code is 0, returning the output untouched; otherwise the handler runs once on the result and the error starts with the fixed message |
| CmdUtil.EnsureSuccessNamesExitCode | paperweight-patcher/src/main/kotlin/Util.kt:64-67 | the exit code parses back from the error message |
| CmdUtil.GitCmd | paperweight-patcher/src/main/kotlin/Util.kt:71-77 | the argument vector is `git` then the caller's arguments; the environment is dropped |
| CmdUtil.BashCmd | paperweight-patcher/src/main/kotlin/Util.kt:79-85 | the argument vector is `bash -c` then the caller's arguments; the environment is dropped |
| CmdUtil.CommandsIgnoreEnvironment | paperweight-patcher/src/main/kotlin/Util.kt:71-85 | calls differing only in environment build the same invocation; git and bash invocations differ |
| CmdUtil.ApplyReplacements | paperweight-patcher/src/main/kotlin/Util.kt:87-95 | the loop replaces each pair's `${key}` in order, as the left fold says |
| CmdUtil.ApplyAllConcat | paperweight-patcher/src/main/kotlin/Util.kt:91-93 | applying p then q equals applying p and then q to the result, so later pairs see earlier substitutions |
| CmdUtil.ApplyAllNoMarker | paperweight-patcher/src/main/kotlin/Util.kt:92 | a string without `${` is returned unchanged by any pairs |
| CmdUtil.ApplyAllIdentity | paperweight-patcher/src/main/kotlin/Util.kt:92 | pairs mapping each key to its own placeholder change nothing |
| PatchesMetadata.PackagePathSpec | paperweight-patcher/src/main/java/org/yatopiamc/yatoclip/gradle/PatchesMetadata.java:69-70 | normalising keeps the length and every non-`.` character, leaves no `.`, and is idempotent |
| PatchesMetadata.NewRelocation | paperweight-patcher/src/main/java/org/yatopiamc/yatoclip/gradle/PatchesMetadata.java:66-72 | a null `from`, then a null `to`, is rejected; otherwise a relocation is built |
| PatchesMetadata.NewRelocationSpec | paperweight-patcher/src/main/java/org/yatopiamc/yatoclip/gradle/PatchesMetadata.java:66-72 | the stored names are slashed and dot-free, the flag is kept, and rebuilding from the fields gives the same relocation |
| PatchesMetadata.NewPatchesMetadata | paperweight-patcher/src/main/java/org/yatopiamc/yatoclip/gradle/PatchesMetadata.java:37-44 | null copyExcludes, relocations and patches are rejected in that order; otherwise the contents are exposed unchanged |
| SpigotDependencies.GetDependencySpec | paperweight-lib/src/main/kotlin/tasks/download-task.kt:199-226 | an artifact iff the scope is absent or `compile`, the coordinates are present and the version has no `${`; it carries the three texts; out-of-scope dependencies never fail |
| SpigotDependencies.ParsePom | paperweight-lib/src/main/kotlin/tasks/download-task.kt:158-197 | the dependency walk and then the repository walk give the POM setup |
| SpigotDependencies.CollectDependencies | paperweight-lib/src/main/kotlin/tasks/download-task.kt:172-183 | the outer loop collects the accepted artifacts group by group, in document order, and stops at the first error |
| SpigotDependencies.CollectDependencyGroup | paperweight-lib/src/main/kotlin/tasks/download-task.kt:177-182 | the inner loop collects the artifacts of one group's accepted dependencies, in order |
| SpigotDependencies.CollectRepositories | paperweight-lib/src/main/kotlin/tasks/download-task.kt:185-194 | the outer loop appends each repository's first url after Maven Central, group by group |
| SpigotDependencies.CollectRepositoryGroup | paperweight-lib/src/main/kotlin/tasks/download-task.kt:188-193 | the inner loop collects one group's first urls, and a repository without a url is an error |
| SpigotDependencies.PomReposSpec | paperweight-lib/src/main/kotlin/tasks/download-task.kt:160-194 | the repositories are Maven Central, then each repository's first url in document order |
| SpigotDependencies.PomArtifactsSpec | paperweight-lib/src/main/kotlin/tasks/download-task.kt:172-183 | the artifacts are the accepted dependencies' artifacts in document order, once each: the k-th artifact comes from the k-th accepted position, the positions strictly increase, and every accepted dependency has one; membership follows |
| SpigotDependencies.DependencyArtifacts | paperweight-lib/src/main/kotlin/tasks/download-task.kt:177-182 | a successful dependency walk yields, position by position, the artifact of each accepted dependency |
| SpigotDependencies.PomFailsSpec | paperweight-lib/src/main/kotlin/tasks/download-task.kt:172-213 | the POM is rejected iff an in-scope dependency lacks a coordinate or a repository lacks a url |
| SpigotDependencies.AddAll | paperweight-lib/src/main/kotlin/tasks/download-task.kt:138-139 | `+=` on an insertion-ordered set appends each new element once |
| SpigotDependencies.InsertAllSpec | paperweight-lib/src/main/kotlin/tasks/download-task.kt:138-144 | the union keeps the old elements first and in place, has no duplicates, and holds exactly the old and added elements |
| SpigotDependencies.PlanDownloads | paperweight-lib/src/main/kotlin/tasks/download-task.kt:138-144 | the repositories and the artifacts are the API lists followed by the new server entries |
| SpigotDependencies.PlanDownloadsSpec | paperweight-lib/src/main/kotlin/tasks/download-task.kt:138-144 | both unions have no duplicates and hold exactly the entries of either POM; Maven Central comes first |
| PatchApplying.PatchApplier.constructor | paperweight-lib/src/main/kotlin/tasks/patchremap/PatchApplier.kt:31-41 | a new applier has no recorded message, author or time |
| PatchApplying.PatchApplier.RecordCommit | paperweight-lib/src/main/kotlin/tasks/patchremap/PatchApplier.kt:68-72 | all three fields are set from the last commit |
| PatchApplying.PatchApplier.ClearCommit | paperweight-lib/src/main/kotlin/tasks/patchremap/PatchApplier.kt:74-78 | all three fields are unset |
| PatchApplying.PatchApplier.CommitChanges | paperweight-lib/src/main/kotlin/tasks/patchremap/PatchApplier.kt:80-89 | the outcome follows the recorded fields; a failure leaves them as they were, and a success clears them |
| PatchApplying.CommitOutcome | paperweight-lib/src/main/kotlin/tasks/patchremap/PatchApplier.kt:82-88 | message, author and time are checked in that order; with all set, `git add .` then a commit replaying the three |
| PatchApplying.RecordAndCommitTwice | paperweight-lib/src/main/kotlin/tasks/patchremap/PatchApplier.kt:68-89 | from any prior state of an applier: record then commit succeeds with the recorded message, author and date; a second commit without a new record fails on the message; the record ends empty |
| PatchApplying.PatchApplier.ApplyPatch | paperweight-lib/src/main/kotlin/tasks/patchremap/PatchApplier.kt:91-98 | runs `git am --3way --ignore-whitespace` on the patch's absolute path, and fails iff that exits non-zero, with a message naming the patch |
| PatchApplying.PatchApplier.IsUnfinishedPatch | paperweight-lib/src/main/kotlin/tasks/patchremap/PatchApplier.kt:110-122 | false off the unmapped branch; on it, an error iff the tree is dirty, else whether the trimmed last messages differ |
| PatchApplying.IsUnfinishedPatchPadded | paperweight-lib/src/main/kotlin/tasks/patchremap/PatchApplier.kt:111-118 | trailing whitespace in git's output changes no decision |
| Toothpick.NewExtension | paperweight-patcher/src/main/kotlin/ToothpickExtension.kt:48 | the upstream branch defaults to `origin/master`; nothing else is assigned |
| Toothpick.CalcPaperclipName | paperweight-patcher/src/main/kotlin/ToothpickExtension.kt:50-52 | the configured name if set, else the lower-cased fork name followed by `-paperclip.jar`; an error if the fork name is unassigned |
| Toothpick.CalcPaperclipNameCaseInsensitive | paperweight-patcher/src/main/kotlin/ToothpickExtension.kt:36-52 | fork names equal up to ASCII case give the same jar name, with no upper-case letter in its stem |
| Toothpick.CalcVersionString | paperweight-patcher/src/main/kotlin/ToothpickExtension.kt:62-63 | defined iff both versions are assigned; the Minecraft version is read first |
| Toothpick.CalcVersionStringSplits | paperweight-patcher/src/main/kotlin/ToothpickExtension.kt:62-63 | the string is exactly the Minecraft version, `-`, then the NMS revision; for a Minecraft version without `-` (so not for one such as `1.17-pre1`) its part before the first `-` is the Minecraft version |
| Toothpick.CurrentBranchDisplayNameSpec | paperweight-patcher/src/main/kotlin/ToothpickExtension.kt:59-61 | the display name is never longer than the branch, and equals it when the branch does not mention `/` + version |
| Toothpick.CurrentBranchDropsVersion | paperweight-patcher/src/main/kotlin/ToothpickExtension.kt:59-61 | a branch `b/<version>` followed by more text, with no `/` in `b`, is shown as `b` followed by the rest with its own occurrences removed; `b/<version>` alone is shown as `b` |
| Text.ReplaceAllAtStart | paperweight-patcher/src/main/kotlin/ToothpickExtension.kt:61 | `replace` removes a leading occurrence of the target and resumes the scan after it |
| Text.ReplaceAllSkip | paperweight-patcher/src/main/kotlin/ToothpickExtension.kt:61 | `replace` copies unchanged a stretch where no occurrence can start, then continues the scan |
| Toothpick.Subprojects | paperweight-patcher/src/main/kotlin/ToothpickExtension.kt:77-81 | empty before the fork is named; otherwise defined iff both projects are assigned |
| Toothpick.SubprojectsSpec | paperweight-patcher/src/main/kotlin/ToothpickExtension.kt:77-81 | the keys are exactly fork-API and fork-Server, two distinct keys, mapping to the API and server projects |
| Toothpick.ReadUpstream | paperweight-patcher/src/main/kotlin/ToothpickExtension.kt:106-116 | an upstream iff `useBlackList` is present and the name's first four characters parse; its id is that number and its fields are the properties; otherwise the first failing check names the error: missing `useBlackList`, then a name shorter than four, then an id that does not parse |
| Toothpick.GetUpstreams | paperweight-patcher/src/main/kotlin/ToothpickExtension.kt:100-120 | the loop reads every file into the shared properties object, then sorts by id; no listing is an error |
| Toothpick.SortByIdSpec | paperweight-patcher/src/main/kotlin/ToothpickExtension.kt:119 | the sort orders by id, is a permutation, and keeps the listing order among equal ids |
| Toothpick.SharedAgreesWhenComplete | paperweight-patcher/src/main/kotlin/ToothpickExtension.kt:104-118 | when every file defines name, useBlackList, list and branch, the shared properties object changes nothing |
| Toothpick.SharedPropertiesLeak | paperweight-patcher/src/main/kotlin/ToothpickExtension.kt:104-113 | for any two readable files where only the first defines `branch`, the loop as written gives the second upstream the first's branch; with fresh properties it has none |
| Toothpick.SharedPropertiesLeakExample | paperweight-patcher/src/main/kotlin/ToothpickExtension.kt:104-113 | `0001-Paper` on `master`, then `0002-Extra` without a branch: the second upstream is read on `master` |
| Toothpick.ReadAllPerFile | paperweight-patcher/src/main/kotlin/ToothpickExtension.kt:105-118 | with fresh properties, one upstream per file, each built from its own file only |
| Toothpick.ReadAllSharedPerFile | paperweight-patcher/src/main/kotlin/ToothpickExtension.kt:104-118 | the loop as written reads one upstream per file, in listing order, each from the properties loaded up to and including its file, and fails iff one of those reads fails |
| Toothpick.SharedUpstreamIds | paperweight-patcher/src/main/kotlin/ToothpickExtension.kt:104-118 | the loop as written succeeds iff every file has `useBlackList` among the properties loaded so far and a name whose first four characters parse as an integer; then each upstream's id is that integer |
| Toothpick.GetUpstreamsSpec | paperweight-patcher/src/main/kotlin/ToothpickExtension.kt:100-120 | the as-written result is sorted by id, has one upstream per file, and holds exactly the upstreams the loop builds for the files |
| Toothpick.UpstreamsSpec | paperweight-patcher/src/main/kotlin/ToothpickExtension.kt:100-120 | the intended list is sorted by id and holds one upstream per file, each built from its own file |

## Left out

- The mapping library's own contributors and machinery are left out. This covers RemoveUnusedMappings, PropagateMappingsUp, CopyMappingsDown, the hydrators, `ChangeChain.applyChain`, the completion manager, `reverse`/`merge` and TINY reading and writing. Their code is not part of this model. The chain is modelled only by the order of its links.
- The order in which the chain visits classes, and the class data it passes, belong to that library. `filterFieldMappings` is modelled as one pass over every class mapping, outer before inner, with the field removals applied at the end.
- Applying the removal changes that are proposed for parameters and classes is library behaviour. Only the proposals are modelled. Field removal is given the meaning "drop the field with that reference".
- ReobfMappings.CopyClassFieldMappings: the library keys field mappings by signature, so an `if_` field could replace an existing one with the same signature. The model keeps both. It also copies a method mapping as the same value.
- Duplicate obfuscated names among sibling class mappings cannot occur in the library. Lookups here take the first one.
- File reading and MIME decoding in the patch parser are left out. The lines and a decoder are parameters. A failed read is not modelled.
- `cmd` is left out, because it starts a process, streams its output and logs it. Also left out are `gitSigningEnabled`, `temporarilyDisableGitSigning`, `reEnableGitSigning`, `gitHash` and `jenkins`, which are git and environment queries.
- The `Collections.unmodifiableSet` views in the Yatoclip metadata are modelled as copies. Later changes to the caller's sets are not seen.
- The metadata records compare by identity. This is modelled as multisets of values.
- XML parsing, the download queue and `deleteRecursively` are left out. `MavenArtifact` is not part of this model; it is taken to compare by value.
- The git commands of the patch applier are left out: `checkoutRemapped`, `checkoutOld`, `commitInitialSource`, `commitInitialRemappedSource`, `generatePatches` and the runs inside `commitChanges` and `isUnfinishedPatch`. `commitChanges` returns its commands. The outputs and exit codes of the `branch --show-current`, `diff-index` and `log` runs in `isUnfinishedPatch` are parameters.
- PatchApplying.PatchApplier.IsUnfinishedPatch: the `update-index --refresh` run between the branch check and `diff-index` is not modelled. Its output and exit code are not parameters, and a failure of that run is not a case of the model. The `Git` helper that runs it is not part of this model.
- Toothpick.CalcPaperclipName: lower-cases ASCII letters only, where `toLowerCase(Locale.ENGLISH)` also maps other letters.
- `upstreamLowercase` is left out for the same reason.
- Text.ParseInt: accepts ASCII digits only, where `Integer.parseInt` also accepts other Unicode decimal digits.
- `paperDir`, `paperDecompDir` and `paperWorkDir` are left out, because they walk the filesystem. The `server`/`api` configuration blocks are left out, because they are Gradle DSL callbacks. The resolution of the `upstreamConfig` path is left out too.
- The `Upstream` and `ToothpickSubproject` classes are not part of this model. An upstream is a record of its first six constructor arguments, and a subproject is an opaque handle.
- Toothpick.ReadUpstream: the seventh `Upstream` argument, the Gradle `project`, is not stored, because the model has no Gradle projects.
- Toothpick.ReadUpstream: reading the `lateinit` `project` before it is assigned throws after `Integer.parseInt` succeeds. The model does not include that failure.
- The extension is modelled as a snapshot of its properties, which the build script assigns.

## Findings

| source | as written | input that shows it | evidently intended | confidence | as-written member | corrected member |
|---|---|---|---|---|---|---|
| paperweight-patcher/src/main/kotlin/ToothpickExtension.kt:104-106 | one `Properties` object is created before the loop and every config file is loaded into it, so a key missing from a later file keeps the earlier file's value | `0001-Paper` with `branch=master`, then `0002-Extra` without `branch`: the second upstream gets branch `master` instead of null (Toothpick.SharedPropertiesLeakExample) | each upstream is built from its own file's properties only | medium, not executed | Toothpick.SharedPropertiesLeak | Toothpick.UpstreamsSpec |
