/** The first version of the update-rule engine, kept beside the current one: the same
    instruction language, but fixed to the dotted regexes, `.` as the written delimiter, no
    padding, and its own message for a version it cannot read. Each operation is related to
    its counterpart in the current engine. */
module LegacyVersionUtils {
  import opened Wrappers
  import opened Text
  import opened VersionTypes
  import opened VersionRegex
  import VersionUtils

  const UNSUPPORTED_FORMAT_MESSAGE: string := "Unsupported version format: "

  /** The instruction is trimmed and must not be empty; a `bump-*` keyword stands for its
      pattern; a text the numeric regex reads whole is an explicit version, one only the rule
      regex reads whole is a pattern, and anything else is an explicit version as written. */
  function ParseVersionUpdateRule(input: string): (r: Result<VersionUpdateRule>)
    ensures r == VersionUtils.ParseVersionUpdateRule(input)
  {
    var input := Trim(input);
    if |input| == 0 then Err(VersionUtils.EMPTY_INPUT_MESSAGE)
    else
      var lower := ToLower(input);
      var input :=
        if lower == VersionUtils.BUMP_MAJOR_COMMAND then "^.?.?.?"
        else if lower == VersionUtils.BUMP_MINOR_COMMAND then "*.^.?.?"
        else if lower == VersionUtils.BUMP_BUILD_COMMAND then "*.*.^.?"
        else if lower == VersionUtils.BUMP_REVISION_COMMAND then "*.*.*.^"
        else input;
      var matches := Exec(NumberWithDotDelimiter, input);
      if matches.Some? && matches.value.text == input then
        Ok(SetExplicitVersion(input))
      else
        var matches := Exec(UpdateRule, input);
        if matches.Some? && matches.value.text == input then
          var groups := matches.value.captures;
          Ok(UsePattern(VersionUpdatePattern(
            ParseVersionPartUpdateRule(groups[0]),
            ParseVersionPartUpdateRule(groups[1]),
            ParseVersionPartUpdateRule(groups[2]),
            ParseVersionPartUpdateRule(groups[3]))))
        else
          Ok(SetExplicitVersion(input))
  }

  /** One slot: `?`, `*`, `^`, a number to overwrite with, and Remove for a group that did not
      take part. */
  function ParseVersionPartUpdateRule(input: Option<string>): (r: VersionPartUpdateRule)
    ensures r == VersionUtils.ParseVersionPartUpdateRule(input)
  {
    if input == Some("?") then LeaveUnchanged
    else if input == Some("*") then LeaveUnchangedSetMissingToZero
    else if input == Some("^") then Bump
    else if input.Some? && IsNumeral(input.value) then Overwrite(NumeralValue(input.value))
    else Remove
  }

  /** The new value of one part under its slot rule; `None` stands for `null`. */
  function GetNewVersionPart(currentVersionPart: Option<nat>, versionPartUpdateRule: VersionPartUpdateRule): (r: Option<nat>)
    ensures r == VersionUtils.GetNewVersionPart(currentVersionPart, versionPartUpdateRule)
  {
    match versionPartUpdateRule
    case LeaveUnchanged => currentVersionPart
    case LeaveUnchangedSetMissingToZero => if currentVersionPart.Some? then currentVersionPart else Some(0)
    case Bump => if currentVersionPart.Some? then Some(currentVersionPart.value + 1) else Some(1)
    case Overwrite(n) => Some(n)
    case Remove => None
  }

  /** A version text is read with the dotted numeric regex, which must match the whole text as
      given; any other text is rejected with the legacy message. */
  function ParseVersion(version: string): (r: Result<Version>)
    ensures r.Ok? <==> MatchesWhole(NumberWithDotDelimiter, version)
    ensures r.Ok? ==> r == VersionUtils.ParseVersion(version, NumberWithDotDelimiter)
    ensures r.Err? ==> r.message == UNSUPPORTED_FORMAT_MESSAGE + version
  {
    var matches := Exec(NumberWithDotDelimiter, Trim(version));
    VersionUtils.TrimmedMatchIsWholeMatch(NumberWithDotDelimiter, version);
    VersionUtils.NumberMatchCaptures(NumberWithDotDelimiter, Trim(version));
    if matches.Some? && matches.value.text == version then
      Ok(VersionUtils.VersionOfCaptures(matches.value.captures))
    else
      Err(UNSUPPORTED_FORMAT_MESSAGE + version)
  }

  /** The major part, then each further part while the previous one is present, joined by
      dots: the same text the current engine writes without padding. */
  function FormatVersion(version: Version): (r: string)
    ensures r == VersionUtils.FormatVersion(version, ".", false)
    ensures r == Join(VersionUtils.Numerals(PartValues(version)[..1 + PresentTailLength(version)]), ".")
  {
    var result := NatToString(version.major);
    if version.minor.Some? then
      var result := result + "." + NatToString(version.minor.value);
      if version.build.Some? then
        var result := result + "." + NatToString(version.build.value);
        if version.revision.Some? then
          result + "." + NatToString(version.revision.value)
        else result
      else result
    else result
  }

  /** Applies a rule to a version text. An explicit version is returned as it is. Under a
      pattern the text is parsed and its parts are replaced one after the other, major first
      (a removed major becomes 0), and the result is written out. The outcome is the current
      engine's on the dotted regex and `.`, except for the wording of the parse error. */
  method GetNewVersion(currentVersion: string, versionUpdateRule: VersionUpdateRule) returns (r: Result<string>)
    ensures versionUpdateRule.SetExplicitVersion? ==> r == Ok(versionUpdateRule.explicitVersion)
    ensures r.Err? <==> VersionUtils.UpdateNonParsedVersion(currentVersion, versionUpdateRule, NumberWithDotDelimiter, ".").Err?
    ensures r.Ok? ==> r == VersionUtils.UpdateNonParsedVersion(currentVersion, versionUpdateRule, NumberWithDotDelimiter, ".")
    ensures r.Err? ==> r.message == UNSUPPORTED_FORMAT_MESSAGE + currentVersion
  {
    if versionUpdateRule.SetExplicitVersion? {
      return Ok(versionUpdateRule.explicitVersion);
    }
    var version :- ParseVersion(currentVersion);
    ghost var parsed := version;
    var updatePattern := versionUpdateRule.updatePattern;
    version := version.(major := GetNewVersionPart(Some(version.major), updatePattern.major).GetOr(0));
    version := version.(minor := GetNewVersionPart(version.minor, updatePattern.minor));
    version := version.(build := GetNewVersionPart(version.build, updatePattern.build));
    version := version.(revision := GetNewVersionPart(version.revision, updatePattern.revision));
    assert version == VersionUtils.UpdateParsedVersion(parsed, versionUpdateRule).value;
    return Ok(FormatVersion(version));
  }
}
