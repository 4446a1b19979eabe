/** The patch-header parser of the patcher plugin: from the lines of a patch file it
    takes the author (`From: `), the subject (`Subject: `) and the co-authors
    (`Co-authored-by: `), decoding MIME-encoded names, plus the name of the
    directory the patch sits in. */
module PatchParser {
  import opened Wrappers
  import opened Text

  /** MIME decoding of encoded words is a library call; it is a parameter here and
      `None` stands for an unsupported encoding. */
  type Decoder = string -> Option<string>

  datatype ParseError =
    | DecodeFailure(text: string)  // the IOException wrapping the unsupported encoding
    | NoParentDirectory            // the patch file has no parent directory

  datatype PatchInfo = PatchInfo(parent: string, from: string, subject: string, coAuthors: seq<string>)

  /** The header fields gathered so far. */
  datatype Header = Header(from: string, subject: string, coAuthors: seq<string>)

  const DefaultHeader := Header("Unknown", "Unknown", [])

  const FromPrefix := "From: "
  const SubjectPrefix := "Subject: "
  const CoAuthorPrefix := "Co-authored-by: "

  /** The guard of `decodeStringIfNeeded`. */
  predicate NeedsDecoding(org: string) {
    Contains(org, "=") || StartsWith(org, "=?UTF-8")
  }

  /** The second half of the guard adds nothing: a string starting with `=?UTF-8` holds `=`. */
  lemma NeedsDecodingIffEquals(org: string)
    ensures NeedsDecoding(org) <==> Contains(org, "=")
  {
    if StartsWith(org, "=?UTF-8") {
      ContainsAt(org, "=?UTF-8", 0);
      ContainsPrefixOf(org, "=", "?UTF-8");
    }
  }

  /** Strings holding `=` go through the decoder and fail when it does; others are kept. */
  function DecodeStringIfNeeded(org: string, decode: Decoder): (r: Result<string, ParseError>)
    ensures !Contains(org, "=") ==> r == Success(org)
    ensures Contains(org, "=") ==>
      match decode(org)
      case None => r == Failure(DecodeFailure(org))
      case Some(text) => r == Success(text)
  {
    NeedsDecodingIffEquals(org);
    if NeedsDecoding(org) then
      match decode(org)
      case None => Failure(DecodeFailure(org))
      case Some(text) => Success(text)
    else Success(org)
  }

  /** The name on a `From: ` or `Co-authored-by: ` line: every occurrence of the prefix
      removed, cut before the first `<`, and trimmed of characters up to the space. */
  function NameField(line: string, prefix: string): string
    requires prefix != []
  {
    Trim(BeforeFirst(ReplaceAll(line, prefix, ""), '<'), IsControlOrSpace)
  }

  /** The text of a `Subject: ` line with every `Subject: ` and `[PATCH]` removed, trimmed. */
  function SubjectText(line: string): string {
    Trim(ReplaceAll(ReplaceAll(line, SubjectPrefix, ""), "[PATCH]", ""), IsControlOrSpace)
  }

  /** A parsed name holds no `<` and neither starts nor ends with a blank. */
  lemma NameFieldSpec(line: string, prefix: string)
    requires prefix != []
    ensures var n := NameField(line, prefix);
      '<' !in n && (n != [] ==> !IsControlOrSpace(n[0]) && !IsControlOrSpace(n[|n| - 1]))
  {
    var cut := BeforeFirst(ReplaceAll(line, prefix, ""), '<');
    BeforeFirstSpec(ReplaceAll(line, prefix, ""), '<');
    TrimSpec(cut, IsControlOrSpace);
    var n := NameField(line, prefix);
    var i := |cut| - |TrimStart(cut, IsControlOrSpace)|;
    assert forall k :: 0 <= k < |n| ==> n[k] == cut[i + k];
  }

  /** The three header prefixes exclude each other, so a line is of at most one kind. */
  lemma HeaderPrefixesExclusive(line: string)
    ensures !(StartsWith(line, FromPrefix) && StartsWith(line, SubjectPrefix))
    ensures !(StartsWith(line, FromPrefix) && StartsWith(line, CoAuthorPrefix))
    ensures !(StartsWith(line, SubjectPrefix) && StartsWith(line, CoAuthorPrefix))
  {
    if StartsWith(line, FromPrefix) {
      assert line[0] == 'F';
    }
    if StartsWith(line, SubjectPrefix) {
      assert line[0] == 'S';
    }
  }

  /** One line's effect on the header. */
  function Step(h: Header, line: string, decode: Decoder): Result<Header, ParseError> {
    if StartsWith(line, FromPrefix) then
      var from :- DecodeStringIfNeeded(NameField(line, FromPrefix), decode);
      Success(h.(from := from))
    else if StartsWith(line, SubjectPrefix) then
      Success(h.(subject := SubjectText(line)))
    else if StartsWith(line, CoAuthorPrefix) then
      var name :- DecodeStringIfNeeded(NameField(line, CoAuthorPrefix), decode);
      Success(h.(coAuthors := h.coAuthors + [name]))
    else
      Success(h)
  }

  /** The header after the lines in file order; the first failing decode stops the scan. */
  function ScanLines(lines: seq<string>, decode: Decoder): Result<Header, ParseError>
    decreases |lines|
  {
    if lines == [] then Success(DefaultHeader)
    else
      var h :- ScanLines(lines[..|lines| - 1], decode);
      Step(h, lines[|lines| - 1], decode)
  }

  /** A line whose name would have to be decoded and cannot be. */
  predicate DecodeFails(line: string, decode: Decoder) {
    (StartsWith(line, FromPrefix) && DecodeStringIfNeeded(NameField(line, FromPrefix), decode).Failure?)
    || (StartsWith(line, CoAuthorPrefix) && DecodeStringIfNeeded(NameField(line, CoAuthorPrefix), decode).Failure?)
  }

  /** The raw co-author names, in file order. */
  function CoAuthorLines(lines: seq<string>): seq<string>
    decreases |lines|
  {
    if lines == [] then []
    else
      var last := lines[|lines| - 1];
      CoAuthorLines(lines[..|lines| - 1])
      + (if StartsWith(last, CoAuthorPrefix) then [NameField(last, CoAuthorPrefix)] else [])
  }

  /** Parsing fails exactly when some author or co-author name cannot be decoded. */
  lemma {:induction false} ScanFailsIff(lines: seq<string>, decode: Decoder)
    ensures ScanLines(lines, decode).Failure? <==> exists i :: 0 <= i < |lines| && DecodeFails(lines[i], decode)
    decreases |lines|
  {
    if lines != [] {
      var init, last := lines[..|lines| - 1], lines[|lines| - 1];
      ScanFailsIff(init, decode);
      HeaderPrefixesExclusive(last);
      if exists i :: 0 <= i < |init| && DecodeFails(init[i], decode) {
        var i :| 0 <= i < |init| && DecodeFails(init[i], decode);
        assert lines[i] == init[i];
      }
      if exists i :: 0 <= i < |lines| && DecodeFails(lines[i], decode) {
        var i :| 0 <= i < |lines| && DecodeFails(lines[i], decode);
        if i < |init| {
          assert init[i] == lines[i];
        }
      }
    }
  }

  /** The co-authors are the co-author lines' names, decoded, in file order. */
  lemma {:induction false} ScanCoAuthors(lines: seq<string>, decode: Decoder)
    requires ScanLines(lines, decode).Success?
    ensures var raw, names := CoAuthorLines(lines), ScanLines(lines, decode).value.coAuthors;
      |names| == |raw| && forall i :: 0 <= i < |raw| ==> DecodeStringIfNeeded(raw[i], decode) == Success(names[i])
    decreases |lines|
  {
    if lines != [] {
      var init, last := lines[..|lines| - 1], lines[|lines| - 1];
      ScanCoAuthors(init, decode);
      HeaderPrefixesExclusive(last);
    }
  }

  /** One line sets the author exactly when it is a `From: ` line, and the subject
      exactly when it is a `Subject: ` line. */
  lemma StepFields(h: Header, line: string, decode: Decoder)
    requires Step(h, line, decode).Success?
    ensures StartsWith(line, FromPrefix) ==>
      DecodeStringIfNeeded(NameField(line, FromPrefix), decode) == Success(Step(h, line, decode).value.from)
    ensures !StartsWith(line, FromPrefix) ==> Step(h, line, decode).value.from == h.from
    ensures StartsWith(line, SubjectPrefix) ==> Step(h, line, decode).value.subject == SubjectText(line)
    ensures !StartsWith(line, SubjectPrefix) ==> Step(h, line, decode).value.subject == h.subject
  {
    HeaderPrefixesExclusive(line);
  }

  /** The scan of all lines is the scan of all but the last, then one step. */
  lemma ScanLast(lines: seq<string>, decode: Decoder)
    requires lines != [] && ScanLines(lines, decode).Success?
    ensures ScanLines(lines[..|lines| - 1], decode).Success?
    ensures Step(ScanLines(lines[..|lines| - 1], decode).value, lines[|lines| - 1], decode) == ScanLines(lines, decode)
  {
  }

  /** The author is the decoded name of the last `From: ` line, or `Unknown` without one. */
  lemma {:induction false} ScanFrom(lines: seq<string>, decode: Decoder)
    requires ScanLines(lines, decode).Success?
    ensures (forall i :: 0 <= i < |lines| ==> !StartsWith(lines[i], FromPrefix)) ==>
      ScanLines(lines, decode).value.from == "Unknown"
    ensures forall k :: (0 <= k < |lines| && StartsWith(lines[k], FromPrefix)
      && (forall j :: k < j < |lines| ==> !StartsWith(lines[j], FromPrefix))) ==>
      DecodeStringIfNeeded(NameField(lines[k], FromPrefix), decode) == Success(ScanLines(lines, decode).value.from)
    decreases |lines|
  {
    if lines != [] {
      var init, last := lines[..|lines| - 1], lines[|lines| - 1];
      ScanLast(lines, decode);
      ScanFrom(init, decode);
      StepFields(ScanLines(init, decode).value, last, decode);
      var from := ScanLines(lines, decode).value.from;
      if !StartsWith(last, FromPrefix) {
        assert forall i :: 0 <= i < |init| ==> init[i] == lines[i];
        forall k | 0 <= k < |lines| && StartsWith(lines[k], FromPrefix)
          && (forall j :: k < j < |lines| ==> !StartsWith(lines[j], FromPrefix))
          ensures DecodeStringIfNeeded(NameField(lines[k], FromPrefix), decode) == Success(from)
        {
          assert forall j :: k < j < |init| ==> init[j] == lines[j];
        }
      }
    }
  }

  /** The subject is that of the last `Subject: ` line, or `Unknown` without one. */
  lemma {:induction false} ScanSubject(lines: seq<string>, decode: Decoder)
    requires ScanLines(lines, decode).Success?
    ensures (forall i :: 0 <= i < |lines| ==> !StartsWith(lines[i], SubjectPrefix)) ==>
      ScanLines(lines, decode).value.subject == "Unknown"
    ensures forall k :: (0 <= k < |lines| && StartsWith(lines[k], SubjectPrefix)
      && (forall j :: k < j < |lines| ==> !StartsWith(lines[j], SubjectPrefix))) ==>
      ScanLines(lines, decode).value.subject == SubjectText(lines[k])
    decreases |lines|
  {
    if lines != [] {
      var init, last := lines[..|lines| - 1], lines[|lines| - 1];
      ScanLast(lines, decode);
      ScanSubject(init, decode);
      StepFields(ScanLines(init, decode).value, last, decode);
      var subject := ScanLines(lines, decode).value.subject;
      if !StartsWith(last, SubjectPrefix) {
        assert forall i :: 0 <= i < |init| ==> init[i] == lines[i];
        forall k | 0 <= k < |lines| && StartsWith(lines[k], SubjectPrefix)
          && (forall j :: k < j < |lines| ==> !StartsWith(lines[j], SubjectPrefix))
          ensures subject == SubjectText(lines[k])
        {
          assert forall j :: k < j < |init| ==> init[j] == lines[j];
        }
      }
    }
  }

  /** Once a prefix of the lines fails, the whole scan fails with the same error. */
  lemma {:induction false} ScanPrefixFailure(lines: seq<string>, decode: Decoder, n: nat)
    requires n <= |lines| && ScanLines(lines[..n], decode).Failure?
    ensures ScanLines(lines, decode) == ScanLines(lines[..n], decode)
    decreases |lines| - n
  {
    if n < |lines| {
      assert lines[..n + 1][..n] == lines[..n];
      ScanPrefixFailure(lines, decode, n + 1);
    } else {
      assert lines[..n] == lines;
    }
  }

  /** `parsePatch` on the lines of a patch file and the name of its parent directory. */
  method ParsePatch(lines: seq<string>, parentName: Option<string>, decode: Decoder) returns (r: Result<PatchInfo, ParseError>)
    ensures match ScanLines(lines, decode)
      case Failure(e) => r == Failure(e)
      case Success(h) =>
        r == (if parentName.None? then Failure(NoParentDirectory)
              else Success(PatchInfo(parentName.value, h.from, h.subject, h.coAuthors)))
  {
    var from := "Unknown";
    var subject := "Unknown";
    var coAuthors: seq<string> := [];
    for i := 0 to |lines|
      invariant ScanLines(lines[..i], decode) == Success(Header(from, subject, coAuthors))
    {
      var line := lines[i];
      assert lines[..i + 1][..i] == lines[..i];
      if StartsWith(line, FromPrefix) {
        var name := DecodeStringIfNeeded(NameField(line, FromPrefix), decode);
        if name.Failure? {
          r := Failure(name.error);
          ScanPrefixFailure(lines, decode, i + 1);
          return;
        }
        from := name.value;
      } else if StartsWith(line, SubjectPrefix) {
        subject := SubjectText(line);
      } else if StartsWith(line, CoAuthorPrefix) {
        var name := DecodeStringIfNeeded(NameField(line, CoAuthorPrefix), decode);
        if name.Failure? {
          r := Failure(name.error);
          ScanPrefixFailure(lines, decode, i + 1);
          return;
        }
        coAuthors := coAuthors + [name.value];
      }
    }
    assert lines[..|lines|] == lines;
    if parentName.None? {
      return Failure(NoParentDirectory);
    }
    r := Success(PatchInfo(parentName.value, from, subject, coAuthors));
  }

  /** `coAuthorString`: a function that ignores its argument and joins the co-authors with `, `. */
  function CoAuthorString(info: PatchInfo, ignored: string): string {
    Join(info.coAuthors, ", ")
  }

  /** Every co-author appears in the joined string, whose length is the names' plus
      two characters between each two names. */
  lemma CoAuthorStringSpec(info: PatchInfo, ignored: string)
    ensures forall i :: 0 <= i < |info.coAuthors| ==> Contains(CoAuthorString(info, ignored), info.coAuthors[i])
    ensures |CoAuthorString(info, ignored)| ==
      Sum(seq(|info.coAuthors|, i requires 0 <= i < |info.coAuthors| => |info.coAuthors[i]|))
      + (if info.coAuthors == [] then 0 else 2 * (|info.coAuthors| - 1))
  {
    forall i | 0 <= i < |info.coAuthors| ensures Contains(CoAuthorString(info, ignored), info.coAuthors[i]) {
      JoinContainsEach(info.coAuthors, ", ", i);
    }
    var xs := info.coAuthors;
    JoinLength(xs, ", ");
    var lens := seq(|xs|, i requires 0 <= i < |xs| => |xs[i]|);
    assert lens == seq(|info.coAuthors|, i requires 0 <= i < |info.coAuthors| => |info.coAuthors[i]|);
    assert |Join(xs, ", ")| == Sum(lens) + (if xs == [] then 0 else (|xs| - 1) * 2);
  }

  /** `toString`, with the co-author list rendered as a bracketed, comma-separated list. */
  function PatchInfoString(info: PatchInfo): string {
    "PatchInfo{parent='" + info.parent + "', from='" + info.from + "', subject='" + info.subject
    + "', coAuthors=[" + Join(info.coAuthors, ", ") + "]}"
  }

  /** The rendering opens with the parent directory and closes the list and the braces. */
  lemma PatchInfoStringSpec(info: PatchInfo)
    ensures StartsWith(PatchInfoString(info), "PatchInfo{parent='" + info.parent + "'")
    ensures var s := PatchInfoString(info); |s| >= 2 && s[|s| - 2..] == "]}"
    ensures forall i :: 0 <= i < |info.coAuthors| ==> Contains(PatchInfoString(info), info.coAuthors[i])
  {
    var s := PatchInfoString(info);
    var head := "PatchInfo{parent='" + info.parent + "', from='" + info.from + "', subject='" + info.subject + "', coAuthors=[";
    assert s == head + Join(info.coAuthors, ", ") + "]}";
    assert s[..|"PatchInfo{parent='" + info.parent + "'"|] == "PatchInfo{parent='" + info.parent + "'";
    forall i | 0 <= i < |info.coAuthors| ensures Contains(s, info.coAuthors[i]) {
      JoinContainsEach(info.coAuthors, ", ", i);
      ContainsConcat(head, Join(info.coAuthors, ", "), info.coAuthors[i]);
      ContainsConcat(head + Join(info.coAuthors, ", "), "]}", info.coAuthors[i]);
    }
  }
}
