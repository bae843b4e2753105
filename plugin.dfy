/** The substitution engine every file-type plugin shares: an ordered list of version regexes,
    each run on the file content as rewritten by the ones before it. A regex that matches with
    one capture group has its captured version replaced by the new version, inside the first
    occurrence of the matched text, and a change record is kept. */
module Plugins {
  import opened Wrappers
  import opened Text
  import opened VersionTypes
  import opened VersionRegex
  import opened VersionUtils
  import VersionProperties

  datatype VersionUpdateResult = VersionUpdateResult(versionType: string, oldVersion: string, newVersion: string)

  datatype FileUpdateResult = FileUpdateResult(newFileContent: string, updatedVersions: seq<VersionUpdateResult>)

  datatype VersionPartDelimiter = DOT | COMMA

  /** What `RegExp.prototype.exec` gives on success: the matched text (element 0) and the
      capture groups after it, `None` for a group that did not take part. */
  datatype ExecResult = ExecResult(fullMatch: string, captures: seq<Option<string>>)

  /** A plugin's regex, taken as an opaque matcher on the whole content. */
  datatype PluginVersionRegex = PluginVersionRegex(
    regex: string -> Option<ExecResult>,
    versionPartDelimiter: VersionPartDelimiter,
    versionType: string)

  /** The message of the `TypeError` thrown when `.trim()` is called on a missing capture. */
  const UNDEFINED_CAPTURE_MESSAGE: string := "Cannot read properties of undefined (reading 'trim')"

  /** The entry takes effect: its regex matches with exactly one capture group. */
  predicate Applies(entry: PluginVersionRegex, content: string) {
    var matches := entry.regex(content);
    matches.Some? && |matches.value.captures| == 1
  }

  /** The new version text for an old one. DOT entries update the text with the dot regex and
      no padding; COMMA entries always read the old version with the comma regex first (even
      for an explicit rule) and write the result with commas, padded to four parts. */
  function NewVersionString(oldVersionString: string, versionUpdateRule: VersionUpdateRule,
                            versionPartDelimiter: VersionPartDelimiter): (r: Result<string>)
    ensures versionPartDelimiter == DOT && versionUpdateRule.SetExplicitVersion? ==>
      r == Ok(versionUpdateRule.explicitVersion)
    ensures versionPartDelimiter == DOT && versionUpdateRule.UsePattern? ==>
      (r.Err? <==> !MatchesWhole(NumberWithDotDelimiter, oldVersionString))
    ensures versionPartDelimiter == DOT && versionUpdateRule.UsePattern? && r.Err? ==>
      r.message == ParseVersionErrorMessage(oldVersionString, NumberWithDotDelimiter)
    ensures versionPartDelimiter == DOT && versionUpdateRule.UsePattern? && r.Ok? ==>
      r.value == FormatVersion(
        UpdateParsedVersion(ParseVersion(oldVersionString, NumberWithDotDelimiter).value, versionUpdateRule).value, ".", false)
    ensures versionPartDelimiter == COMMA ==>
      (r.Err? <==> !MatchesWhole(NumberWithCommaDelimiter, oldVersionString)
                   || (versionUpdateRule.SetExplicitVersion?
                       && !MatchesWhole(NumberWithDotDelimiter, versionUpdateRule.explicitVersion)))
    ensures versionPartDelimiter == COMMA && !MatchesWhole(NumberWithCommaDelimiter, oldVersionString) ==>
      r == Err(ParseVersionErrorMessage(oldVersionString, NumberWithCommaDelimiter))
    ensures versionPartDelimiter == COMMA && MatchesWhole(NumberWithCommaDelimiter, oldVersionString)
            && versionUpdateRule.SetExplicitVersion? && !MatchesWhole(NumberWithDotDelimiter, versionUpdateRule.explicitVersion) ==>
      r == Err(ParseVersionErrorMessage(versionUpdateRule.explicitVersion, NumberWithDotDelimiter))
    ensures versionPartDelimiter == COMMA && r.Ok? ==>
      r.value == FormatVersion(
        UpdateParsedVersion(ParseVersion(oldVersionString, NumberWithCommaDelimiter).value, versionUpdateRule).value, ",", true)
  {
    match versionPartDelimiter
    case DOT =>
      UpdateNonParsedVersion(oldVersionString, versionUpdateRule, NumberWithDotDelimiter, ".")
    case COMMA =>
      var parsedOldVersion :- ParseVersion(oldVersionString, NumberWithCommaDelimiter);
      var newVersion :- UpdateParsedVersion(parsedOldVersion, versionUpdateRule);
      Ok(FormatVersion(newVersion, ",", true))
  }

  /** One entry on the current content: `None` when it does not apply, otherwise the rewritten
      content and the change record. */
  function ApplyEntry(content: string, entry: PluginVersionRegex, versionUpdateRule: VersionUpdateRule)
    : (r: Result<Option<(string, VersionUpdateResult)>>)
    ensures r == Ok(None) <==> !Applies(entry, content)
    ensures r.Err? ==> Applies(entry, content)
    ensures r.Err? <==>
      Applies(entry, content)
      && (var capture := entry.regex(content).value.captures[0];
          capture.None? || NewVersionString(Trim(capture.value), versionUpdateRule, entry.versionPartDelimiter).Err?)
    ensures r.Err? && entry.regex(content).value.captures[0].None? ==> r.message == UNDEFINED_CAPTURE_MESSAGE
    ensures r.Err? && entry.regex(content).value.captures[0].Some? ==>
      r.message == NewVersionString(Trim(entry.regex(content).value.captures[0].value), versionUpdateRule,
                                    entry.versionPartDelimiter).message
    ensures r.Ok? && r.value.Some? ==>
      var matches := entry.regex(content).value;
      var (newContent, record) := r.value.value;
      && matches.captures[0].Some?
      && record.versionType == entry.versionType
      && record.oldVersion == Trim(matches.captures[0].value)
      && NewVersionString(record.oldVersion, versionUpdateRule, entry.versionPartDelimiter) == Ok(record.newVersion)
      && newContent == ReplaceFirst(content, matches.fullMatch, ReplaceFirst(matches.fullMatch, record.oldVersion, record.newVersion))
  {
    var matches := entry.regex(content);
    if !(matches.Some? && |matches.value.captures| == 1) then Ok(None)
    else if matches.value.captures[0].None? then Err(UNDEFINED_CAPTURE_MESSAGE)
    else
      var oldVersionPatternMatch := matches.value.fullMatch;
      var oldVersionString := Trim(matches.value.captures[0].value);
      var newVersionString :- NewVersionString(oldVersionString, versionUpdateRule, entry.versionPartDelimiter);
      var replacement := ReplaceFirst(oldVersionPatternMatch, oldVersionString, newVersionString);
      Ok(Some((ReplaceFirst(content, oldVersionPatternMatch, replacement),
               VersionUpdateResult(entry.versionType, oldVersionString, newVersionString))))
  }

  /** The loop over the entries from a given content and list of records: each entry sees the
      content left by the ones before it, and the first error ends the run. The records only
      grow, by at most one per entry. */
  function Run(content: string, updatedVersions: seq<VersionUpdateResult>, entries: seq<PluginVersionRegex>,
               versionUpdateRule: VersionUpdateRule): (r: Result<(string, seq<VersionUpdateResult>)>)
    ensures r.Ok? ==> updatedVersions <= r.value.1 && |r.value.1| <= |updatedVersions| + |entries|
    decreases |entries|
  {
    if entries == [] then Ok((content, updatedVersions))
    else
      match ApplyEntry(content, entries[0], versionUpdateRule)
      case Err(message) => Err(message)
      case Ok(None) => Run(content, updatedVersions, entries[1..], versionUpdateRule)
      case Ok(Some((newContent, record))) => Run(newContent, updatedVersions + [record], entries[1..], versionUpdateRule)
  }

  lemma RunStep(content: string, updatedVersions: seq<VersionUpdateResult>, entries: seq<PluginVersionRegex>,
                versionUpdateRule: VersionUpdateRule)
    requires entries != []
    ensures ApplyEntry(content, entries[0], versionUpdateRule).Err? ==>
      Run(content, updatedVersions, entries, versionUpdateRule) == Err(ApplyEntry(content, entries[0], versionUpdateRule).message)
    ensures ApplyEntry(content, entries[0], versionUpdateRule) == Ok(None) ==>
      Run(content, updatedVersions, entries, versionUpdateRule) == Run(content, updatedVersions, entries[1..], versionUpdateRule)
    ensures ApplyEntry(content, entries[0], versionUpdateRule).Ok? && ApplyEntry(content, entries[0], versionUpdateRule).value.Some? ==>
      var (newContent, record) := ApplyEntry(content, entries[0], versionUpdateRule).value.value;
      Run(content, updatedVersions, entries, versionUpdateRule) == Run(newContent, updatedVersions + [record], entries[1..], versionUpdateRule)
  {
  }

  /** What updating a file gives: `None` when no entry applied, otherwise the final content
      with all change records. */
  function FileUpdate(entries: seq<PluginVersionRegex>, fileContent: string, versionUpdateRule: VersionUpdateRule)
    : (r: Result<Option<FileUpdateResult>>)
  {
    match Run(fileContent, [], entries, versionUpdateRule)
    case Err(message) => Err(message)
    case Ok((newFileContent, updatedVersions)) =>
      if |updatedVersions| == 0 then Ok(None) else Ok(Some(FileUpdateResult(newFileContent, updatedVersions)))
  }

  class Plugin {
    var versionRegexes: seq<PluginVersionRegex>

    constructor(versionRegexes: seq<PluginVersionRegex>)
      ensures this.versionRegexes == versionRegexes
    {
      this.versionRegexes := versionRegexes;
    }

    /** Runs every version regex in order on the content as rewritten so far and collects the
        change records; `None` when no regex applied. */
    method UpdateFile(fileContent: string, versionUpdateRule: VersionUpdateRule) returns (r: Result<Option<FileUpdateResult>>)
      ensures r == FileUpdate(versionRegexes, fileContent, versionUpdateRule)
    {
      var content := fileContent;
      var updatedVersions: seq<VersionUpdateResult> := [];
      for i := 0 to |versionRegexes|
        invariant Run(content, updatedVersions, versionRegexes[i..], versionUpdateRule)
               == Run(fileContent, [], versionRegexes, versionUpdateRule)
      {
        var versionRegex := versionRegexes[i];
        RunStep(content, updatedVersions, versionRegexes[i..], versionUpdateRule);
        assert versionRegexes[i..][0] == versionRegex;
        assert versionRegexes[i..][1..] == versionRegexes[i + 1..];
        var matches := versionRegex.regex(content);
        if matches.Some? && |matches.value.captures| == 1 {
          var oldVersionPatternMatch := matches.value.fullMatch;
          if matches.value.captures[0].None? {
            return Err(UNDEFINED_CAPTURE_MESSAGE);
          }
          var oldVersionString := Trim(matches.value.captures[0].value);
          var newVersion := NewVersion(oldVersionString, versionUpdateRule, versionRegex.versionPartDelimiter);
          if newVersion.Err? {
            return Err(newVersion.message);
          }
          var newVersionString := newVersion.value;
          var oldVersionPatternMatchReplacement := ReplaceFirst(oldVersionPatternMatch, oldVersionString, newVersionString);
          content := ReplaceFirst(content, oldVersionPatternMatch, oldVersionPatternMatchReplacement);
          updatedVersions := updatedVersions + [VersionUpdateResult(versionRegex.versionType, oldVersionString, newVersionString)];
        }
      }
      assert versionRegexes[|versionRegexes|..] == [];
      if |updatedVersions| == 0 {
        return Ok(None);
      }
      return Ok(Some(FileUpdateResult(content, updatedVersions)));
    }
  }

  /** The switch on the delimiter in the loop body. */
  method NewVersion(oldVersionString: string, versionUpdateRule: VersionUpdateRule,
                    versionPartDelimiter: VersionPartDelimiter) returns (r: Result<string>)
    ensures r == NewVersionString(oldVersionString, versionUpdateRule, versionPartDelimiter)
  {
    match versionPartDelimiter
    case DOT =>
      r := UpdateNonParsedVersion(oldVersionString, versionUpdateRule, NumberWithDotDelimiter, ".");
    case COMMA =>
      var parsedOldVersion :- ParseVersion(oldVersionString, NumberWithCommaDelimiter);
      var newVersion :- UpdateParsedVersion(parsedOldVersion, versionUpdateRule);
      r := Ok(FormatVersion(newVersion, ",", true));
  }

  // ----- Properties of the run -----

  /** A run over entries that all fail to apply changes nothing. */
  lemma {:induction false} RunSkipsAll(content: string, updatedVersions: seq<VersionUpdateResult>,
                                       entries: seq<PluginVersionRegex>, versionUpdateRule: VersionUpdateRule)
    requires forall k :: 0 <= k < |entries| ==> !Applies(entries[k], content)
    ensures Run(content, updatedVersions, entries, versionUpdateRule) == Ok((content, updatedVersions))
    decreases |entries|
  {
    if entries != [] {
      RunStep(content, updatedVersions, entries, versionUpdateRule);
      RunSkipsAll(content, updatedVersions, entries[1..], versionUpdateRule);
    }
  }

  /** A run adds no record exactly when no entry applies to the content it starts from (an
      entry that applies either adds a record or fails the run). */
  lemma {:induction false} NoRecordIffNoneApplies(content: string, updatedVersions: seq<VersionUpdateResult>,
                                                  entries: seq<PluginVersionRegex>, versionUpdateRule: VersionUpdateRule)
    ensures (var r := Run(content, updatedVersions, entries, versionUpdateRule); r.Ok? && |r.value.1| == |updatedVersions|)
      <==> forall k :: 0 <= k < |entries| ==> !Applies(entries[k], content)
    decreases |entries|
  {
    if entries != [] {
      RunStep(content, updatedVersions, entries, versionUpdateRule);
      NoRecordIffNoneApplies(content, updatedVersions, entries[1..], versionUpdateRule);
      if Applies(entries[0], content) {
        // Not every entry skips, and the run either fails or grows the records.
      } else {
        assert forall k :: 1 <= k < |entries| ==> entries[k] == entries[1..][k - 1];
      }
    }
  }

  /** Running two lists of entries one after the other is running their concatenation: each
      entry sees the content the earlier ones left. */
  lemma {:induction false} RunAppend(content: string, updatedVersions: seq<VersionUpdateResult>,
                                     first: seq<PluginVersionRegex>, second: seq<PluginVersionRegex>,
                                     versionUpdateRule: VersionUpdateRule)
    ensures Run(content, updatedVersions, first + second, versionUpdateRule)
         == match Run(content, updatedVersions, first, versionUpdateRule)
            case Err(message) => Err(message)
            case Ok((content', updatedVersions')) => Run(content', updatedVersions', second, versionUpdateRule)
    decreases |first|
  {
    if first == [] {
      assert first + second == second;
    } else {
      var all := first + second;
      assert all[0] == first[0] && all[1..] == first[1..] + second;
      RunStep(content, updatedVersions, all, versionUpdateRule);
      RunStep(content, updatedVersions, first, versionUpdateRule);
      match ApplyEntry(content, first[0], versionUpdateRule)
      case Err(_) =>
      case Ok(None) =>
        RunAppend(content, updatedVersions, first[1..], second, versionUpdateRule);
      case Ok(Some((newContent, record))) =>
        RunAppend(newContent, updatedVersions + [record], first[1..], second, versionUpdateRule);
    }
  }

  /** The file is left alone (`None`) exactly when no regex applies to it. */
  lemma NoUpdateIffNoneApplies(entries: seq<PluginVersionRegex>, fileContent: string, versionUpdateRule: VersionUpdateRule)
    ensures FileUpdate(entries, fileContent, versionUpdateRule) == Ok(None)
      <==> forall k :: 0 <= k < |entries| ==> !Applies(entries[k], fileContent)
  {
    NoRecordIffNoneApplies(fileContent, [], entries, versionUpdateRule);
  }

  /** An update that happens holds one to as many records as there are regexes. */
  lemma UpdateRecordCount(entries: seq<PluginVersionRegex>, fileContent: string, versionUpdateRule: VersionUpdateRule)
    requires FileUpdate(entries, fileContent, versionUpdateRule).Ok?
    requires FileUpdate(entries, fileContent, versionUpdateRule).value.Some?
    ensures 1 <= |FileUpdate(entries, fileContent, versionUpdateRule).value.value.updatedVersions| <= |entries|
  {
    var r := Run(fileContent, [], entries, versionUpdateRule);
    assert r.Ok?;
  }

  /** When the first regex that applies fails (a missing capture or a version that does not
      parse), the whole update fails with its message and no result is returned. */
  lemma FirstFailureStops(entries: seq<PluginVersionRegex>, fileContent: string, versionUpdateRule: VersionUpdateRule, k: nat)
    requires k < |entries|
    requires forall i :: 0 <= i < k ==> !Applies(entries[i], fileContent)
    requires ApplyEntry(fileContent, entries[k], versionUpdateRule).Err?
    ensures FileUpdate(entries, fileContent, versionUpdateRule)
         == Err(ApplyEntry(fileContent, entries[k], versionUpdateRule).message)
  {
    var rest := entries[k..];
    RunAfterSkips(fileContent, entries, versionUpdateRule, k);
    assert rest[0] == entries[k];
    RunStep(fileContent, [], rest, versionUpdateRule);
  }

  /** A run over entries of which the first `k` do not apply is the run over the others. */
  lemma RunAfterSkips(content: string, entries: seq<PluginVersionRegex>, versionUpdateRule: VersionUpdateRule, k: nat)
    requires k <= |entries|
    requires forall i :: 0 <= i < k ==> !Applies(entries[i], content)
    ensures Run(content, [], entries, versionUpdateRule) == Run(content, [], entries[k..], versionUpdateRule)
  {
    var skipped, rest := entries[..k], entries[k..];
    assert entries == skipped + rest;
    assert forall i :: 0 <= i < |skipped| ==> skipped[i] == entries[i];
    RunSkipsAll(content, [], skipped, versionUpdateRule);
    RunAppend(content, [], skipped, rest, versionUpdateRule);
  }

  /** Replacing the old version inside the first occurrence of the matched text changes the
      content at one place only: the first occurrence of the old version within the first
      occurrence of the match. Everything before and after it is kept. */
  lemma SpliceAtFirstOccurrence(content: string, fullMatch: string, oldVersion: string, newVersion: string)
    requires IndexOf(content, fullMatch).Some? && IndexOf(fullMatch, oldVersion).Some?
    ensures var p := IndexOf(content, fullMatch).value + IndexOf(fullMatch, oldVersion).value;
      && OccursAt(content, oldVersion, p)
      && ReplaceFirst(content, fullMatch, ReplaceFirst(fullMatch, oldVersion, newVersion))
         == content[..p] + newVersion + content[p + |oldVersion|..]
  {
    var i := IndexOf(content, fullMatch).value;
    var j := IndexOf(fullMatch, oldVersion).value;
    ReplaceFirstAt(fullMatch, oldVersion, newVersion, j);
    var inner := ReplaceFirst(fullMatch, oldVersion, newVersion);
    ReplaceFirstAt(content, fullMatch, inner, i);
    Splice(content, fullMatch, oldVersion, newVersion, i, j);
  }

  /** A capture that trims to nothing occurs at the very start of the matched text, so the new
      version is put in front of the match rather than in place of the capture. */
  lemma EmptyOldVersionIsPrefixed(fullMatch: string, newVersion: string)
    ensures ReplaceFirst(fullMatch, "", newVersion) == newVersion + fullMatch
  {
    assert OccursAt(fullMatch, "", 0);
    assert fullMatch[..0] + newVersion + fullMatch[0..] == newVersion + fullMatch;
  }

  lemma ReplaceFirstAt(s: string, pat: string, rep: string, i: nat)
    requires IndexOf(s, pat) == Some(i)
    ensures i + |pat| <= |s| && ReplaceFirst(s, pat, rep) == s[..i] + rep + s[i + |pat|..]
  {
  }

  lemma Splice(content: string, fullMatch: string, oldVersion: string, newVersion: string, i: nat, j: nat)
    requires OccursAt(content, fullMatch, i) && OccursAt(fullMatch, oldVersion, j)
    ensures OccursAt(content, oldVersion, i + j)
    ensures content[..i] + (fullMatch[..j] + newVersion + fullMatch[j + |oldVersion|..]) + content[i + |fullMatch|..]
         == content[..i + j] + newVersion + content[i + j + |oldVersion|..]
  {
    var before, after := content[..i], content[i + |fullMatch|..];
    assert content == before + fullMatch + after;
    var head, tail := fullMatch[..j], fullMatch[j + |oldVersion|..];
    assert fullMatch == head + oldVersion + tail;
    var x, y := before + head, tail + after;
    assert content == x + oldVersion + y;
    assert content[..i + j] == x;
    assert content[i + j + |oldVersion|..] == y;
    assert content[i + j..i + j + |oldVersion|] == oldVersion;
  }

  /** The values followed by zeros up to four of them. */
  function ZeroPadded(ns: seq<nat>): (r: seq<nat>)
    requires |ns| <= 4
    ensures |r| == 4 && r[..|ns|] == ns && forall k :: |ns| <= k < 4 ==> r[k] == 0
  {
    if |ns| == 0 then [0, 0, 0, 0]
    else if |ns| == 1 then ns + [0, 0, 0]
    else if |ns| == 2 then ns + [0, 0]
    else if |ns| == 3 then ns + [0]
    else ns
  }

  /** Padding a version read from one to four numbers fills the missing parts with zeros. */
  lemma PaddedParts(ns: seq<nat>)
    requires 1 <= |ns| <= 4
    ensures PartValues(VersionProperties.VersionOfParts(ns)) == ZeroPadded(ns)
  {
  }

  /** What a COMMA entry writes always has four parts and reads back with the comma regex. */
  lemma CommaVersionIsPadded(oldVersionString: string, versionUpdateRule: VersionUpdateRule)
    requires NewVersionString(oldVersionString, versionUpdateRule, COMMA).Ok?
    ensures var newVersionString := NewVersionString(oldVersionString, versionUpdateRule, COMMA).value;
      && |Split(newVersionString, ',')| == 4
      && ParseVersion(newVersionString, NumberWithCommaDelimiter).Ok?
  {
    var parsed := ParseVersion(oldVersionString, NumberWithCommaDelimiter).value;
    var newVersion := UpdateParsedVersion(parsed, versionUpdateRule).value;
    VersionProperties.ParsePaddedFormat(newVersion, NumberWithCommaDelimiter);
    assert [NumberWithCommaDelimiter.Delimiter()] == ",";
  }

  /** One to four numbers, padded and written with commas. */
  lemma PaddedFormatOfParts(ns: seq<nat>)
    requires 1 <= |ns| <= 4
    ensures FormatVersion(VersionProperties.VersionOfParts(ns), ",", true) == Join(Numerals(ZeroPadded(ns)), ",")
  {
    var v := VersionProperties.VersionOfParts(ns);
    var parts := PartValues(v);
    PaddedParts(ns);
    assert WrittenTailLength(v, true) == 3;
    assert parts[..4] == parts;
  }

  /** A COMMA entry given an explicit dotted version of one to four numbers writes it with
      commas, padded with zeros to four parts, once the old version reads with the comma
      regex. */
  lemma CommaExplicitVersion(oldVersionString: string, ns: seq<nat>)
    requires 1 <= |ns| <= 4 && MatchesWhole(NumberWithCommaDelimiter, oldVersionString)
    ensures NewVersionString(oldVersionString, SetExplicitVersion(Join(Numerals(ns), ".")), COMMA)
         == Ok(Join(Numerals(ZeroPadded(ns)), ","))
  {
    var explicitVersion, v := Join(Numerals(ns), "."), VersionProperties.VersionOfParts(ns);
    assert [NumberWithDotDelimiter.Delimiter()] == ".";
    VersionProperties.ParseJoinedNumerals(ns, NumberWithDotDelimiter);
    assert ParseVersion(explicitVersion, NumberWithDotDelimiter) == Ok(v);
    var rule := SetExplicitVersion(explicitVersion);
    var parsed := ParseVersion(oldVersionString, NumberWithCommaDelimiter).value;
    assert UpdateParsedVersion(parsed, rule) == Ok(v);
    var r := NewVersionString(oldVersionString, rule, COMMA);
    assert r.Ok?;
    assert r.value == FormatVersion(v, ",", true);
    PaddedFormatOfParts(ns);
  }
}
