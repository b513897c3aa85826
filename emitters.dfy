/** The two text emitters: the doc.ts line fragments and the commmands.sh visibility script. */
module Emitters {
  import opened Types
  import opened Text
  import opened RegionMap

  // ---------------------------------------------------------------- line fragments

  /** `re.sub("^{", "", y)`: drop one opening brace at the very start. */
  function StripLeadingBrace(y: string): string
  {
    if |y| > 0 && y[0] == '{' then y[1..] else y
  }

  /**
   * `re.sub("}$", "", y)`: drop one closing brace at the end, where `$` also matches
   * just before a final newline.
   */
  function StripTrailingBrace(y: string): string
  {
    if |y| > 0 && y[|y| - 1] == '}' then y[..|y| - 1]
    else if |y| >= 2 && y[|y| - 2..] == "}\n" then y[..|y| - 2] + "\n"
    else y
  }

  function StripBraces(y: string): string
  {
    StripTrailingBrace(StripLeadingBrace(y))
  }

  /** Stripping undoes wrapping a text in braces. */
  lemma StripWrapped(body: string)
    ensures StripBraces("{" + body + "}") == body
  {
    assert ("{" + body + "}")[1..] == body + "}";
  }

  /** Before a final newline the closing brace still goes, the newline stays. */
  lemma StripWrappedNewline(body: string)
    ensures StripBraces("{" + body + "}\n") == body + "\n"
  {
    var a := body + "}\n";
    assert ("{" + body + "}\n")[1..] == a;
    assert a[|a| - 2..] == "}\n";
    assert a[..|a| - 2] == body;
  }

  /** A text with no brace at either end is written unchanged. */
  lemma StripUnbraced(y: string)
    requires y == [] || (y[0] != '{' && y[|y| - 1] != '}')
    requires '\n' !in y
    ensures StripBraces(y) == y
  {
    if |y| >= 2 {
      assert y[|y| - 1] in y;
    }
  }

  /**
   * Without newlines, stripping drops the first character exactly when it is `{` and then
   * the last remaining character exactly when it is `}`; nothing else changes.
   */
  lemma StripSlice(y: string)
    requires '\n' !in y
    ensures var i := if |y| > 0 && y[0] == '{' then 1 else 0;
            var j := if |y| > i && y[|y| - 1] == '}' then |y| - 1 else |y|;
            i <= j && StripBraces(y) == y[i..j]
  {
    if |y| >= 2 {
      assert y[|y| - 2] in y;
    }
  }

  /** One doc.ts line: the record text without its braces, then a comma. */
  function FragmentLine(post: string): string
  {
    StripBraces(post) + ","
  }

  function FragmentLines(posts: seq<string>): (lines: seq<string>)
    ensures |lines| == |posts|
    ensures forall i :: 0 <= i < |posts| ==> lines[i] == FragmentLine(posts[i])
  {
    seq(|posts|, i requires 0 <= i < |posts| => FragmentLine(posts[i]))
  }

  /** The doc.ts loop: one line per record text, each the stripped text followed by ",\n". */
  method WriteLineFragments(posts: seq<string>) returns (ts: string)
    ensures ts == Unlines(FragmentLines(posts))
  {
    ts := "";
    for i := 0 to |posts|
      invariant ts == Unlines(FragmentLines(posts)[..i])
    {
      var y := posts[i];
      y := StripLeadingBrace(y);
      y := StripTrailingBrace(y);
      UnlinesSnoc(FragmentLines(posts)[..i], y + ",");
      assert FragmentLines(posts)[..i + 1] == FragmentLines(posts)[..i] + [y + ","];
      ts := ts + y + ",\n";
    }
    assert FragmentLines(posts)[..|posts|] == FragmentLines(posts);
  }

  /** Read back, doc.ts holds exactly one line per record text (texts without newlines). */
  lemma FragmentsReadBack(posts: seq<string>)
    requires forall i :: 0 <= i < |posts| ==> '\n' !in posts[i]
    ensures SplitLines(Unlines(FragmentLines(posts))) == FragmentLines(posts)
    ensures |SplitLines(Unlines(FragmentLines(posts)))| == |posts|
  {
    var lines := FragmentLines(posts);
    forall i | 0 <= i < |lines|
      ensures '\n' !in lines[i]
    {
      StripSlice(posts[i]);
      assert forall c :: c in StripBraces(posts[i]) ==> c in posts[i];
    }
    SplitUnlines(lines);
  }

  // ---------------------------------------------------------------- command script

  const CommandPrefix: string := "aws ec2 modify-image-attribute --region "
  const ImageIdOption: string := " --image-id "
  const GrantArgument: string := " --launch-permission 'Add=[{Group=all}]'"
  const RevokeArgument: string := " --launch-permission 'Remove=[{Group=all}]'"

  /** The part of a visibility command that names the region and the image. */
  function Target(region: string, imageId: string): string
  {
    CommandPrefix + region + ImageIdOption + imageId
  }

  /** The command that makes the image public in its region. */
  function GrantCommand(region: string, imageId: string): string
  {
    Target(region, imageId) + GrantArgument
  }

  /** The command that makes the image private again. */
  function RevokeCommand(region: string, imageId: string): string
  {
    Target(region, imageId) + RevokeArgument
  }

  /** The grant line written for one entry. */
  ghost function GrantLine(e: RegionEntry): string
    requires IsRegionEntry(e)
  {
    GrantCommand(RegionOf(e), ImageIdOf(e))
  }

  /** The revoke command written, commented out, for one entry. */
  ghost function RevokeLine(e: RegionEntry): string
    requires IsRegionEntry(e)
  {
    RevokeCommand(RegionOf(e), ImageIdOf(e))
  }

  /** The script's grant lines, one per entry, in document order. */
  ghost function Grants(cdi2: seq<RegionEntry>): seq<string>
    requires forall i :: 0 <= i < |cdi2| ==> IsRegionEntry(cdi2[i])
  {
    seq(|cdi2|, i requires 0 <= i < |cdi2| && IsRegionEntry(cdi2[i]) => GrantLine(cdi2[i]))
  }

  /** The script's revoke commands, one per entry, in document order. */
  ghost function Revokes(cdi2: seq<RegionEntry>): seq<string>
    requires forall i :: 0 <= i < |cdi2| ==> IsRegionEntry(cdi2[i])
  {
    seq(|cdi2|, i requires 0 <= i < |cdi2| && IsRegionEntry(cdi2[i]) => RevokeLine(cdi2[i]))
  }

  /** Shell comments: each line prefixed with `#`. */
  function Commented(lines: seq<string>): (out: seq<string>)
    ensures |out| == |lines|
    ensures forall i :: 0 <= i < |lines| ==> out[i] == "#" + lines[i]
  {
    seq(|lines|, i requires 0 <= i < |lines| => "#" + lines[i])
  }

  /** The script: all grants first, active; then all revokes, commented out. */
  ghost function ScriptLines(cdi2: seq<RegionEntry>): seq<string>
    requires forall i :: 0 <= i < |cdi2| ==> IsRegionEntry(cdi2[i])
  {
    Grants(cdi2) + Commented(Revokes(cdi2))
  }

  /** The first loop of the commmands.sh block: one public and one private command per entry. */
  method CollectCommands(cdi2: seq<RegionEntry>) returns (makePublic: seq<string>, makePrivate: seq<string>)
    requires forall i :: 0 <= i < |cdi2| ==> IsRegionEntry(cdi2[i])
    ensures makePublic == Grants(cdi2)
    ensures makePrivate == Revokes(cdi2)
  {
    makePublic, makePrivate := [], [];
    for i := 0 to |cdi2|
      invariant |makePublic| == |makePrivate| == i
      invariant forall j :: 0 <= j < i ==> makePublic[j] == GrantLine(cdi2[j])
      invariant forall j :: 0 <= j < i ==> makePrivate[j] == RevokeLine(cdi2[j])
    {
      var dct := cdi2[i];
      // Each entry has a single region key, so `for region in dct` runs once.
      assert RegionOf(dct) in dct;
      var region :| region in dct;
      OnlyKey(dct, region);
      var ami := dct[region]["ami"];
      makePublic := makePublic + [GrantCommand(region, ami)];
      makePrivate := makePrivate + [RevokeCommand(region, ami)];
    }
  }

  /**
   * The commmands.sh block: collect the commands, then write every public command,
   * then every private command behind `#`.
   */
  method WriteCommandScript(cdi2: seq<RegionEntry>) returns (script: string)
    requires forall i :: 0 <= i < |cdi2| ==> IsRegionEntry(cdi2[i])
    ensures script == Unlines(ScriptLines(cdi2))
  {
    var makePublic, makePrivate := CollectCommands(cdi2);
    script := "";
    for i := 0 to |makePublic|
      invariant script == Unlines(makePublic[..i])
    {
      assert makePublic[..i + 1] == makePublic[..i] + [makePublic[i]];
      UnlinesSnoc(makePublic[..i], makePublic[i]);
      script := script + makePublic[i] + "\n";
    }
    assert makePublic[..|makePublic|] == makePublic;
    ghost var revoked := Commented(makePrivate);
    assert makePublic + revoked[..0] == makePublic;
    for i := 0 to |makePrivate|
      invariant script == Unlines(makePublic + revoked[..i])
    {
      var line := "#" + makePrivate[i];
      PrefixSnoc(makePublic, revoked, i);
      UnlinesSnoc(makePublic + revoked[..i], line);
      script := script + line + "\n";
    }
    assert revoked[..|makePrivate|] == revoked;
  }

  /** For n entries, including none, the script has exactly 2n lines. */
  lemma ScriptLength(cdi2: seq<RegionEntry>)
    requires forall j :: 0 <= j < |cdi2| ==> IsRegionEntry(cdi2[j])
    ensures |ScriptLines(cdi2)| == 2 * |cdi2|
  {
  }

  /**
   * The layout of the script for n entries: 2n lines; line i grants entry i, uncommented;
   * line n + i revokes the same region and image behind `#`.
   */
  lemma ScriptLayout(cdi2: seq<RegionEntry>, i: nat)
    requires forall j :: 0 <= j < |cdi2| ==> IsRegionEntry(cdi2[j])
    requires i < |cdi2|
    ensures |ScriptLines(cdi2)| == 2 * |cdi2|
    ensures ScriptLines(cdi2)[i] == GrantCommand(RegionOf(cdi2[i]), ImageIdOf(cdi2[i]))
    ensures ScriptLines(cdi2)[|cdi2| + i] == "#" + RevokeCommand(RegionOf(cdi2[i]), ImageIdOf(cdi2[i]))
    ensures ScriptLines(cdi2)[i][0] != '#' && ScriptLines(cdi2)[|cdi2| + i][0] == '#'
  {
    var t := Target(RegionOf(cdi2[i]), ImageIdOf(cdi2[i]));
    assert CommandPrefix[0] == 'a';
    assert t[0] == 'a';
    assert GrantCommand(RegionOf(cdi2[i]), ImageIdOf(cdi2[i]))[0] == 'a';
  }

  /** Grant and revoke lines of one entry differ only in their permission argument. */
  lemma GrantRevokeSameTarget(region: string, imageId: string)
    ensures GrantCommand(region, imageId)[..|Target(region, imageId)|] == Target(region, imageId)
    ensures RevokeCommand(region, imageId)[..|Target(region, imageId)|] == Target(region, imageId)
    ensures GrantCommand(region, imageId) != RevokeCommand(region, imageId)
    ensures GrantCommand(region, imageId) == Target(region, imageId) + " --launch-permission '" + "Add" + "=[{Group=all}]'"
    ensures RevokeCommand(region, imageId) == Target(region, imageId) + " --launch-permission '" + "Remove" + "=[{Group=all}]'"
  {
    var t := Target(region, imageId);
    assert GrantArgument[22] == 'A' && RevokeArgument[22] == 'R';
    assert GrantCommand(region, imageId)[|t| + 22] == 'A';
    assert RevokeCommand(region, imageId)[|t| + 22] == 'R';
  }

  /** An entry whose region and image id hold no newline. */
  ghost predicate SingleLineEntry(e: RegionEntry)
  {
    IsRegionEntry(e) && '\n' !in RegionOf(e) && '\n' !in ImageIdOf(e)
  }

  lemma CommandsSingleLine(e: RegionEntry)
    requires SingleLineEntry(e)
    ensures '\n' !in GrantLine(e) && '\n' !in "#" + RevokeLine(e)
  {
    assert '\n' !in CommandPrefix && '\n' !in ImageIdOption;
    assert '\n' !in GrantArgument && '\n' !in RevokeArgument;
    var r, a := RegionOf(e), ImageIdOf(e);
    NoNewlineConcat(CommandPrefix, r);
    NoNewlineConcat(CommandPrefix + r, ImageIdOption);
    NoNewlineConcat(CommandPrefix + r + ImageIdOption, a);
    NoNewlineConcat(Target(r, a), GrantArgument);
    NoNewlineConcat(Target(r, a), RevokeArgument);
    NoNewlineConcat("#", RevokeCommand(r, a));
  }

  /** Read back, the script holds exactly its 2n lines (regions and ids without newlines). */
  lemma ScriptReadBack(cdi2: seq<RegionEntry>)
    requires forall j :: 0 <= j < |cdi2| ==> IsRegionEntry(cdi2[j])
    requires forall j :: 0 <= j < |cdi2| ==> SingleLineEntry(cdi2[j])
    ensures SplitLines(Unlines(ScriptLines(cdi2))) == ScriptLines(cdi2)
    ensures |SplitLines(Unlines(ScriptLines(cdi2)))| == 2 * |cdi2|
  {
    var lines := ScriptLines(cdi2);
    var n := |cdi2|;
    forall k | 0 <= k < |lines|
      ensures '\n' !in lines[k]
    {
      var j := if k < n then k else k - n;
      CommandsSingleLine(cdi2[j]);
    }
    SplitUnlines(lines);
  }

  lemma NoNewlineConcat(a: string, b: string)
    requires '\n' !in a && '\n' !in b
    ensures '\n' !in a + b
  {
  }
}
