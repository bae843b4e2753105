/** The version model and the update-rule engine: parsing an instruction into a rule, parsing
    and formatting versions, and applying a rule to a version. */
module VersionUtils {
  import opened Wrappers
  import opened Text
  import opened VersionTypes
  import opened VersionRegex

  const BUMP_MAJOR_COMMAND: string := "bump-major"
  const BUMP_MINOR_COMMAND: string := "bump-minor"
  const BUMP_BUILD_COMMAND: string := "bump-build"
  const BUMP_REVISION_COMMAND: string := "bump-revision"

  const EMPTY_INPUT_MESSAGE: string := "Version input is empty."

  /** The `switch` on the lower-cased instruction: a `bump-*` keyword stands for a pattern text. */
  function ExpandBumpCommand(input: string): string {
    var lower := ToLower(input);
    if lower == BUMP_MAJOR_COMMAND then "^.?.?.?"
    else if lower == BUMP_MINOR_COMMAND then "*.^.?.?"
    else if lower == BUMP_BUILD_COMMAND then "*.*.^.?"
    else if lower == BUMP_REVISION_COMMAND then "*.*.*.^"
    else input
  }

  /** An instruction is trimmed, must not be empty, and after keyword expansion is an explicit
      version if the numeric regex reads it whole, a pattern if only the rule regex does, and an
      explicit version (taken verbatim) otherwise. */
  function ParseVersionUpdateRule(input: string): (r: Result<VersionUpdateRule>)
    ensures r.Err? <==> Trim(input) == []
    ensures r.Err? ==> r.message == EMPTY_INPUT_MESSAGE
    ensures r.Ok? && r.value.SetExplicitVersion? ==> r.value.explicitVersion == ExpandBumpCommand(Trim(input))
    ensures r.Ok? ==>
      var text := ExpandBumpCommand(Trim(input));
      (r.value.UsePattern? <==> MatchesWhole(UpdateRule, text) && !MatchesWhole(NumberWithDotDelimiter, text))
    ensures r.Ok? && r.value.UsePattern? ==>
      var groups := Exec(UpdateRule, ExpandBumpCommand(Trim(input))).value.captures;
      r.value.updatePattern == VersionUpdatePattern(
        ParseVersionPartUpdateRule(groups[0]), ParseVersionPartUpdateRule(groups[1]),
        ParseVersionPartUpdateRule(groups[2]), ParseVersionPartUpdateRule(groups[3]))
  {
    var input := Trim(input);
    if |input| == 0 then Err(EMPTY_INPUT_MESSAGE)
    else
      var input := ExpandBumpCommand(input);
      var numberMatch := Exec(NumberWithDotDelimiter, input);
      if numberMatch.Some? && numberMatch.value.text == input then
        Ok(SetExplicitVersion(input))
      else
        var ruleMatch := Exec(UpdateRule, input);
        if ruleMatch.Some? && ruleMatch.value.text == input then
          var groups := ruleMatch.value.captures;
          Ok(UsePattern(VersionUpdatePattern(
            ParseVersionPartUpdateRule(groups[0]),
            ParseVersionPartUpdateRule(groups[1]),
            ParseVersionPartUpdateRule(groups[2]),
            ParseVersionPartUpdateRule(groups[3]))))
        else
          Ok(SetExplicitVersion(input))
  }

  /** One slot of a pattern: `?`, `*`, `^`, a number, or an absent group (`undefined`, which
      `parseInt` turns into NaN) meaning Remove. */
  function ParseVersionPartUpdateRule(input: Option<string>): (r: VersionPartUpdateRule)
    ensures r.Remove? <==> !(input.Some? && IsToken(UpdateRule, input.value))
    ensures r.Overwrite? ==> input.Some? && IsNumeral(input.value) && r.overwriteTo == NumeralValue(input.value)
  {
    if input == Some("?") then LeaveUnchanged
    else if input == Some("*") then LeaveUnchangedSetMissingToZero
    else if input == Some("^") then Bump
    else if input.Some? && IsNumeral(input.value) then Overwrite(NumeralValue(input.value))
    else
      assert input.Some? && |input.value| == 1 ==> input.value == [input.value[0]];
      Remove
  }

  /** The text a slot is written as; `None` for Remove, which a short pattern leaves out. */
  function SlotText(rule: VersionPartUpdateRule): Option<string> {
    match rule
    case LeaveUnchanged => Some("?")
    case LeaveUnchangedSetMissingToZero => Some("*")
    case Bump => Some("^")
    case Overwrite(n) => Some(NatToString(n))
    case Remove => None
  }

  /** Reading back the text of any slot gives the slot. */
  lemma SlotTextRoundTrip(rule: VersionPartUpdateRule)
    ensures ParseVersionPartUpdateRule(SlotText(rule)) == rule
  {
    if rule.Overwrite? {
      var t := NatToString(rule.overwriteTo);
      NumeralValueOfNatToString(rule.overwriteTo);
      assert t != "?" && t != "*" && t != "^" by { assert IsDigit(t[0]); }
    }
  }

  /** The per-part table of a pattern. */
  function GetNewVersionPart(current: Option<nat>, rule: VersionPartUpdateRule): (r: Option<nat>)
    ensures r.None? <==> rule.Remove? || (rule.LeaveUnchanged? && current.None?)
    ensures rule.LeaveUnchanged? ==> r == current
    ensures rule.LeaveUnchangedSetMissingToZero? ==> r == Some(current.GetOr(0))
    ensures rule.Bump? ==> r == Some(current.GetOr(0) + 1)
    ensures rule.Overwrite? ==> r == Some(rule.overwriteTo)
  {
    match rule
    case LeaveUnchanged => current
    case LeaveUnchangedSetMissingToZero => if current.Some? then current else Some(0)
    case Bump => if current.Some? then Some(current.value + 1) else Some(1)
    case Overwrite(n) => Some(n)
    case Remove => None
  }

  /** A pattern updates each part by the table (major falls back to 0); an explicit version is
      the literal read with the dot regex, whatever the current version is. */
  function UpdateParsedVersion(currentVersion: Version, versionUpdateRule: VersionUpdateRule): (r: Result<Version>)
    ensures versionUpdateRule.UsePattern? ==>
      var p := versionUpdateRule.updatePattern;
      && r.Ok?
      && (p.major.Remove? ==> r.value.major == 0)
      && (!p.major.Remove? ==> Some(r.value.major) == GetNewVersionPart(Some(currentVersion.major), p.major))
      && r.value.minor == GetNewVersionPart(currentVersion.minor, p.minor)
      && r.value.build == GetNewVersionPart(currentVersion.build, p.build)
      && r.value.revision == GetNewVersionPart(currentVersion.revision, p.revision)
    ensures versionUpdateRule.SetExplicitVersion? ==>
      r == ParseVersion(versionUpdateRule.explicitVersion, NumberWithDotDelimiter)
  {
    match versionUpdateRule
    case SetExplicitVersion(explicitVersion) => ParseVersion(explicitVersion, NumberWithDotDelimiter)
    case UsePattern(updatePattern) =>
      Ok(Version(
        GetNewVersionPart(Some(currentVersion.major), updatePattern.major).GetOr(0),
        GetNewVersionPart(currentVersion.minor, updatePattern.minor),
        GetNewVersionPart(currentVersion.build, updatePattern.build),
        GetNewVersionPart(currentVersion.revision, updatePattern.revision)))
  }

  /** An explicit version replaces the text as it is, without reading the current version;
      a pattern needs the current version to parse, and fails exactly as parsing fails. */
  function UpdateNonParsedVersion(currentVersion: string, versionUpdateRule: VersionUpdateRule,
                                  versionNumberRegex: NumberRegex, versionPartDelimiter: string): (r: Result<string>)
    ensures versionUpdateRule.SetExplicitVersion? ==> r == Ok(versionUpdateRule.explicitVersion)
    ensures versionUpdateRule.UsePattern? ==>
      (r.Err? <==> ParseVersion(currentVersion, versionNumberRegex).Err?)
      && (r.Err? ==> r.message == ParseVersion(currentVersion, versionNumberRegex).message)
      && (r.Ok? ==> r.value == FormatVersion(
            UpdateParsedVersion(ParseVersion(currentVersion, versionNumberRegex).value, versionUpdateRule).value,
            versionPartDelimiter, false))
  {
    match versionUpdateRule
    case SetExplicitVersion(explicitVersion) => Ok(explicitVersion)
    case UsePattern(_) =>
      var currentParsedVersion :- ParseVersion(currentVersion, versionNumberRegex);
      var newParsedVersion := UpdateParsedVersion(currentParsedVersion, versionUpdateRule).value;
      Ok(FormatVersion(newParsedVersion, versionPartDelimiter, false))
  }

  function ParseVersionErrorMessage(version: string, versionNumberRegex: NumberRegex): string {
    "Version '" + version + "' doesn't match regular expression: " + versionNumberRegex.Source()
  }

  /** `parseInt` of a group, `null` when the group is absent. */
  function PartValue(group: Option<string>): (r: Option<nat>)
    requires group.Some? ==> AllDigits(group.value)
  {
    if group.Some? then Some(NumeralValue(group.value)) else None
  }

  /** The regex runs on the trimmed text but the match must equal the text as given, so this
      succeeds exactly when the regex reads the untrimmed text whole. */
  function ParseVersion(version: string, versionNumberRegex: NumberRegex): (r: Result<Version>)
    ensures r.Ok? <==> MatchesWhole(versionNumberRegex, version)
    ensures r.Err? ==> r.message == ParseVersionErrorMessage(version, versionNumberRegex)
  {
    var matches := Exec(versionNumberRegex, Trim(version));
    TrimmedMatchIsWholeMatch(versionNumberRegex, version);
    NumberMatchCaptures(versionNumberRegex, Trim(version));
    if matches.Some? && matches.value.text == version then
      Ok(VersionOfCaptures(matches.value.captures))
    else
      Err(ParseVersionErrorMessage(version, versionNumberRegex))
  }

  /** Four groups, the first present, each present one a run of digits. */
  predicate AreNumeralCaptures(groups: seq<Option<string>>) {
    && |groups| == 4 && groups[0].Some?
    && forall k :: 0 <= k < 4 && groups[k].Some? ==> AllDigits(groups[k].value)
  }

  /** A number regex captures only runs of digits. */
  lemma NumberMatchCaptures(r: NumberRegex, s: string)
    ensures Exec(r, s).Some? ==> AreNumeralCaptures(Exec(r, s).value.captures)
  {
  }

  /** The version read from the four capture groups of a match: the major part always, each
      other part when its group took part. */
  function VersionOfCaptures(groups: seq<Option<string>>): (v: Version)
    requires AreNumeralCaptures(groups)
    ensures v.major == NumeralValue(groups[0].value)
    ensures v.minor.Some? <==> groups[1].Some?
    ensures v.build.Some? <==> groups[2].Some?
    ensures v.revision.Some? <==> groups[3].Some?
    ensures groups[1].Some? ==> v.minor == Some(NumeralValue(groups[1].value))
    ensures groups[2].Some? ==> v.build == Some(NumeralValue(groups[2].value))
    ensures groups[3].Some? ==> v.revision == Some(NumeralValue(groups[3].value))
  {
    Version(NumeralValue(groups[0].value), PartValue(groups[1]), PartValue(groups[2]), PartValue(groups[3]))
  }

  /** Matching the trimmed text against the text itself is the same as matching the text: a
      match holds no whitespace, so a text with whitespace at either end never matches whole. */
  lemma TrimmedMatchIsWholeMatch(r: VersionRegex, version: string)
    ensures (Exec(r, Trim(version)).Some? && Exec(r, Trim(version)).value.text == version) <==> MatchesWhole(r, version)
  {
    if Trim(version) != version {
      if MatchesWhole(r, version) {
        MatchHasNoWhitespace(r, version);
        assert false;
      }
    }
  }

  lemma MatchHasNoWhitespace(r: VersionRegex, s: string)
    requires MatchesWhole(r, s)
    ensures Trim(s) == s
  {
    if s != [] {
      MatchCharacters(r, s);
      assert Exec(r, s).value.text == s;
      RegexCharIsNotWhitespace(r, s[0]);
      RegexCharIsNotWhitespace(r, s[|s| - 1]);
    }
  }

  lemma RegexCharIsNotWhitespace(r: VersionRegex, c: char)
    requires IsRegexChar(r, c)
    ensures !IsWhitespace(c)
  {
  }

  lemma MatchCharacters(r: VersionRegex, s: string)
    requires Exec(r, s).Some?
    ensures forall i :: 0 <= i < |Exec(r, s).value.text| ==> IsRegexChar(r, Exec(r, s).value.text[i])
  {
    var i := FirstTokenStart(r, s, 0);
    OptionalGroupsCharacters(r, s, TokenEnd(r, s, i), 3);
  }

  predicate IsRegexChar(r: VersionRegex, c: char) {
    IsTokenStart(r, c) || c == r.Delimiter()
  }

  lemma {:induction false} OptionalGroupsCharacters(r: VersionRegex, s: string, p: nat, n: nat)
    requires p <= |s|
    ensures forall j :: p <= j < OptionalGroups(r, s, p, n).1 ==> IsRegexChar(r, s[j])
    decreases n
  {
    if n > 0 {
      var q := if p < |s| && s[p] == r.Delimiter() then p + 1 else p;
      OptionalGroupsCharacters(r, s, TokenEnd(r, s, q), n - 1);
    }
  }

  /** The parts of a version, written as decimal numerals. */
  function Numerals(ns: seq<nat>): (ts: seq<string>)
    ensures |ts| == |ns| && forall k :: 0 <= k < |ns| ==> ts[k] == NatToString(ns[k])
  {
    if ns == [] then [] else [NatToString(ns[0])] + Numerals(ns[1..])
  }

  /** How many parts after `major` are written: all three when padding, otherwise those before
      the first absent one. */
  function WrittenTailLength(version: Version, includeTrailingZeros: bool): nat {
    if includeTrailingZeros then 3 else PresentTailLength(version)
  }

  /** The written parts are always a prefix of major, minor, build, revision (absent ones as 0). */
  function FormatVersion(version: Version, versionPartDelimiter: string, includeTrailingZeros: bool): (r: string)
    ensures r == Join(Numerals(PartValues(version)[..1 + WrittenTailLength(version, includeTrailingZeros)]), versionPartDelimiter)
  {
    var d := versionPartDelimiter;
    var ns := PartValues(version);
    var major, minor := NatToString(version.major), NatToString(version.minor.GetOr(0));
    var build, revision := NatToString(version.build.GetOr(0)), NatToString(version.revision.GetOr(0));
    JoinOfShortLists(major, minor, build, revision, d);
    NumeralsOfPrefixes(ns);
    if !(version.minor.Some? || includeTrailingZeros) then major
    else if !(version.build.Some? || includeTrailingZeros) then major + d + minor
    else if !(version.revision.Some? || includeTrailingZeros) then major + d + minor + d + build
    else major + d + minor + d + build + d + revision
  }

  lemma NumeralsOfPrefixes(ns: seq<nat>)
    requires |ns| == 4
    ensures Numerals(ns[..1]) == [NatToString(ns[0])]
    ensures Numerals(ns[..2]) == [NatToString(ns[0]), NatToString(ns[1])]
    ensures Numerals(ns[..3]) == [NatToString(ns[0]), NatToString(ns[1]), NatToString(ns[2])]
    ensures Numerals(ns[..4]) == [NatToString(ns[0]), NatToString(ns[1]), NatToString(ns[2]), NatToString(ns[3])]
  {
  }

  lemma JoinOfShortLists(a: string, b: string, c: string, e: string, d: string)
    ensures Join([a], d) == a
    ensures Join([a, b], d) == a + d + b
    ensures Join([a, b, c], d) == a + d + b + d + c
    ensures Join([a, b, c, e], d) == a + d + b + d + c + d + e
  {
    assert [a, b][1..] == [b];
    assert Join([c, e], d) == c + d + e by { assert [c, e][1..] == [e]; }
    assert Join([b, c], d) == b + d + c by { assert [b, c][1..] == [c]; }
    assert Join([b, c, e], d) == b + d + c + d + e by { assert [b, c, e][1..] == [c, e]; }
    assert [a, b, c][1..] == [b, c];
    assert [a, b, c, e][1..] == [b, c, e];
  }
}
