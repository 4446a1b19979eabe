/** The patch applier of the patch-remapping task: the commit it has recorded and
    will replay onto the remapped branch, the rule for a failed `git am`, and the
    check for a patch left half-applied. Git runs are not modelled: their outputs
    and exit codes are parameters, and the commands are returned as argument lists. */
module PatchApplying {
  import opened Wrappers
  import opened Text

  datatype ApplierError =
    | NotSet(message: string)           // PaperweightException from commitChanges
    | PatchFailed(message: string)      // RuntimeException from applyPatch
    | UnknownState(message: string)     // PaperweightException from isUnfinishedPatch

  /** The git commands `commitChanges` runs once its checks pass. */
  function CommitCommands(message: string, author: string, time: string): seq<seq<string>> {
    [["add", "."], ["commit", "-m", message, "--author=" + author, "--date=" + time]]
  }

  /** What `commitChanges` does with the recorded fields: the message, author and time
      are checked in that order, and with all three set the commit replays them. */
  function CommitOutcome(message: Option<string>, author: Option<string>, time: Option<string>): (r: Result<seq<seq<string>>, ApplierError>)
    ensures r.Success? <==> message.Some? && author.Some? && time.Some?
    ensures message.None? ==> r == Failure(NotSet("commitMessage not set"))
    ensures message.Some? && author.None? ==> r == Failure(NotSet("commitAuthor not set"))
    ensures message.Some? && author.Some? && time.None? ==> r == Failure(NotSet("commitTime not set"))
    ensures r.Success? ==>
      |r.value| == 2 && r.value[0] == ["add", "."] && |r.value[1]| == 5
      && r.value[1][..3] == ["commit", "-m", message.value]
      && StartsWith(r.value[1][3], "--author=") && |r.value[1][3]| >= 9 && r.value[1][3][9..] == author.value
      && StartsWith(r.value[1][4], "--date=") && |r.value[1][4]| >= 7 && r.value[1][4][7..] == time.value
  {
    if message.None? then Failure(NotSet("commitMessage not set"))
    else if author.None? then Failure(NotSet("commitAuthor not set"))
    else if time.None? then Failure(NotSet("commitTime not set"))
    else Success(CommitCommands(message.value, author.value, time.value))
  }

  class PatchApplier {
    const remappedBranch: string
    const unmappedBranch: string

    var commitMessage: Option<string>
    var commitAuthor: Option<string>
    var commitTime: Option<string>

    /** Nothing is recorded yet. */
    constructor(remappedBranch: string, unmappedBranch: string)
      ensures this.remappedBranch == remappedBranch && this.unmappedBranch == unmappedBranch
      ensures commitMessage.None? && commitAuthor.None? && commitTime.None?
    {
      this.remappedBranch := remappedBranch;
      this.unmappedBranch := unmappedBranch;
      commitMessage := None;
      commitAuthor := None;
      commitTime := None;
    }

    /** `recordCommit`: the body, author line and date of the HEAD commit, as git printed them. */
    method RecordCommit(message: string, author: string, time: string)
      modifies this
      ensures commitMessage == Some(message) && commitAuthor == Some(author) && commitTime == Some(time)
    {
      commitMessage := Some(message);
      commitAuthor := Some(author);
      commitTime := Some(time);
    }

    method ClearCommit()
      modifies this
      ensures commitMessage.None? && commitAuthor.None? && commitTime.None?
    {
      commitMessage := None;
      commitAuthor := None;
      commitTime := None;
    }

    /** `commitChanges`: fails without touching the record when a field is unset;
        otherwise clears the record and returns the git commands it runs. */
    method CommitChanges() returns (r: Result<seq<seq<string>>, ApplierError>)
      modifies this
      ensures r == CommitOutcome(old(commitMessage), old(commitAuthor), old(commitTime))
      ensures r.Failure? ==>
        commitMessage == old(commitMessage) && commitAuthor == old(commitAuthor) && commitTime == old(commitTime)
      ensures r.Success? ==> commitMessage.None? && commitAuthor.None? && commitTime.None?
    {
      if commitMessage.None? {
        return Failure(NotSet("commitMessage not set"));
      }
      var message := commitMessage.value;
      if commitAuthor.None? {
        return Failure(NotSet("commitAuthor not set"));
      }
      var author := commitAuthor.value;
      if commitTime.None? {
        return Failure(NotSet("commitTime not set"));
      }
      var time := commitTime.value;
      ClearCommit();
      r := Success([["add", "."], ["commit", "-m", message, "--author=" + author, "--date=" + time]]);
    }

    /** `applyPatch` given the exit code of `git am`: the arguments it runs git with (the
        three-way, whitespace-tolerant `am` of the patch's absolute path), and the outcome,
        which fails, naming the patch, exactly when that code is not zero. */
    function ApplyPatch(patch: string, absolutePatch: string, exitCode: int): (r: (seq<string>, Result<(), ApplierError>))
      ensures |r.0| == 4 && r.0[0] == "am" && r.0[3] == absolutePatch
      ensures "--3way" in r.0 && "--ignore-whitespace" in r.0
      ensures r.1.Success? <==> exitCode == 0
      ensures r.1.Failure? ==> r.1.error == PatchFailed("Patch failed to apply: " + patch)
    {
      var args := ["am", "--3way", "--ignore-whitespace", absolutePatch];
      if exitCode != 0 then (args, Failure(PatchFailed("Patch failed to apply: " + patch))) else (args, Success(()))
    }

    /** `isUnfinishedPatch`, given the output of `git branch --show-current`, the exit code
        of `git diff-index --quiet HEAD --`, and the last commit message of the unmapped
        and of the remapped branch. */
    function IsUnfinishedPatch(currentBranch: string, diffIndexExit: int, unmappedLog: string, remappedLog: string): (r: Result<bool, ApplierError>)
      ensures Trim(currentBranch, IsWhitespace) != unmappedBranch ==> r == Success(false)
      ensures Trim(currentBranch, IsWhitespace) == unmappedBranch ==>
        (r.Success? <==> diffIndexExit == 0)
        && (r.Success? ==> (r.value <==> Trim(unmappedLog, IsWhitespace) != Trim(remappedLog, IsWhitespace)))
    {
      if Trim(currentBranch, IsWhitespace) != unmappedBranch then Success(false)
      else if diffIndexExit == 0 then
        Success(Trim(unmappedLog, IsWhitespace) != Trim(remappedLog, IsWhitespace))
      else Failure(UnknownState("Unknown state: repo has uncommitted changes"))
    }
  }

  /** Whitespace git adds around its output (the final newline) changes no decision:
      on the unmapped branch with a clean tree, a patch is unfinished exactly when the
      two last commit messages differ. */
  lemma IsUnfinishedPatchPadded(applier: PatchApplier, pad: string, unmapped: string, remapped: string)
    requires forall k :: 0 <= k < |pad| ==> IsWhitespace(pad[k])
    requires applier.unmappedBranch != [] ==>
      !IsWhitespace(applier.unmappedBranch[0]) && !IsWhitespace(applier.unmappedBranch[|applier.unmappedBranch| - 1])
    requires unmapped != [] ==> !IsWhitespace(unmapped[0]) && !IsWhitespace(unmapped[|unmapped| - 1])
    requires remapped != [] ==> !IsWhitespace(remapped[0]) && !IsWhitespace(remapped[|remapped| - 1])
    ensures applier.IsUnfinishedPatch(applier.unmappedBranch + pad, 0, unmapped + pad, remapped + pad)
         == Success(unmapped != remapped)
  {
    TrimTrailingPad(applier.unmappedBranch, pad);
    TrimTrailingPad(unmapped, pad);
    TrimTrailingPad(remapped, pad);
  }

  lemma TrimTrailingPad(s: string, pad: string)
    requires forall k :: 0 <= k < |pad| ==> IsWhitespace(pad[k])
    requires s != [] ==> !IsWhitespace(s[0]) && !IsWhitespace(s[|s| - 1])
    ensures Trim(s + pad, IsWhitespace) == s
  {
    TrimPadded([], s, pad, IsWhitespace);
    assert [] + s + pad == s + pad;
  }

  /** A recorded commit is replayed once, whatever the applier held before: recording
      and committing succeeds with the recorded message, author and date and clears the
      record, and a second commit without a new record fails on the message and leaves
      the record empty. */
  method RecordAndCommitTwice(applier: PatchApplier, message: string, author: string, time: string)
    returns (first: Result<seq<seq<string>>, ApplierError>, second: Result<seq<seq<string>>, ApplierError>)
    modifies applier
    ensures first == Success(CommitCommands(message, author, time))
    ensures second == Failure(NotSet("commitMessage not set"))
    ensures applier.commitMessage.None? && applier.commitAuthor.None? && applier.commitTime.None?
  {
    applier.RecordCommit(message, author, time);
    first := applier.CommitChanges();
    second := applier.CommitChanges();
  }
}
