/** What the update-rule engine promises: formatting and parsing are inverse, the bump keywords
    are the patterns they stand for and raise the version, a pattern written out reads back as
    itself, and an explicit version never looks at the current one. */
module VersionProperties {
  import opened Wrappers
  import opened Text
  import opened VersionTypes
  import opened VersionRegex
  import opened VersionUtils

  /** The version with every absent part set to 0. */
  function Padded(v: Version): Version {
    Version(v.major, Some(v.minor.GetOr(0)), Some(v.build.GetOr(0)), Some(v.revision.GetOr(0)))
  }

  lemma NumeralsAreTokens(r: VersionRegex, ns: seq<nat>)
    ensures forall k :: 0 <= k < |Numerals(ns)| ==> IsToken(r, Numerals(ns)[k]) && IsCanonicalNumeral(Numerals(ns)[k])
  {
  }

  /** What parsing makes of a text the regex reads whole from its start. */
  lemma ParseVersionOfMatch(s: string, regex: NumberRegex, groups: seq<Option<string>>)
    requires Exec(regex, s) == Some(RegexMatch(0, s, groups))
    ensures |groups| == 4 && groups[0].Some?
    ensures forall k :: 0 <= k < 4 && groups[k].Some? ==> IsNumeral(groups[k].value)
    ensures ParseVersion(s, regex)
         == Ok(Version(NumeralValue(groups[0].value), PartValue(groups[1]), PartValue(groups[2]), PartValue(groups[3])))
  {
    assert MatchesWhole(regex, s);
    ParseOfWholeMatch(s, regex);
    assert Exec(regex, s).value.captures == groups;
  }

  lemma ParseOfWholeMatch(s: string, regex: NumberRegex)
    requires MatchesWhole(regex, s)
    ensures AreNumeralCaptures(Exec(regex, s).value.captures)
    ensures ParseVersion(s, regex) == Ok(VersionOfCaptures(Exec(regex, s).value.captures))
  {
    MatchHasNoWhitespace(regex, s);
    assert Trim(s) == s;
    NumberMatchCaptures(regex, s);
  }

  /** The value a present part is written with reads back as that value. */
  lemma PartValueOfWritten(part: Option<nat>, present: bool)
    requires present <==> part.Some?
    ensures PartValue(if present then Some(NatToString(part.GetOr(0))) else None) == part
  {
    if present {
      NumeralValueOfNatToString(part.value);
    }
  }

  /** The version whose parts are one to four values, the missing ones absent. */
  function VersionOfParts(ns: seq<nat>): Version
    requires 1 <= |ns| <= 4
  {
    Version(ns[0], if |ns| > 1 then Some(ns[1]) else None,
            if |ns| > 2 then Some(ns[2]) else None, if |ns| > 3 then Some(ns[3]) else None)
  }

  /** One to four values written as numerals and joined with the delimiter parse as those values. */
  lemma ParseJoinedNumerals(ns: seq<nat>, regex: NumberRegex)
    requires 1 <= |ns| <= 4
    ensures ParseVersion(Join(Numerals(ns), [regex.Delimiter()]), regex) == Ok(VersionOfParts(ns))
  {
    var parts := Numerals(ns);
    var s := Join(parts, [regex.Delimiter()]);
    NumeralsAreTokens(regex, ns);
    ExecOfJoinedTokens(regex, parts);
    var gs := PresentGroups(parts, 4);
    ParseVersionOfMatch(s, regex, gs);
    PresentGroupsShape(parts);
    forall k | 0 <= k < |ns| ensures NumeralValue(parts[k]) == ns[k] {
      NumeralValueOfNatToString(ns[k]);
    }
    assert PartValue(gs[1]) == if |ns| > 1 then Some(ns[1]) else None;
    assert PartValue(gs[2]) == if |ns| > 2 then Some(ns[2]) else None;
    assert PartValue(gs[3]) == if |ns| > 3 then Some(ns[3]) else None;
  }

  /** Formatting without padding and parsing back gives the version, when it has no gaps. */
  lemma ParseFormatRoundTrip(v: Version, regex: NumberRegex)
    requires HasNoGaps(v)
    ensures ParseVersion(FormatVersion(v, [regex.Delimiter()], false), regex) == Ok(v)
  {
    var ns := PartValues(v)[..1 + PresentTailLength(v)];
    ParseJoinedNumerals(ns, regex);
    VersionOfWrittenParts(v);
  }

  /** The written parts of a version without gaps rebuild it. */
  lemma VersionOfWrittenParts(v: Version)
    requires HasNoGaps(v)
    ensures VersionOfParts(PartValues(v)[..1 + PresentTailLength(v)]) == v
  {
    var ns := PartValues(v)[..1 + PresentTailLength(v)];
    if v.minor.None? {
      assert ns == [v.major];
    } else if v.build.None? {
      assert ns == [v.major, v.minor.value];
    } else if v.revision.None? {
      assert ns == [v.major, v.minor.value, v.build.value];
    } else {
      assert ns == [v.major, v.minor.value, v.build.value, v.revision.value];
    }
  }

  /** A version built from one to four values writes exactly those values. */
  lemma WrittenPartsOfVersion(ns: seq<nat>)
    requires 1 <= |ns| <= 4
    ensures PresentTailLength(VersionOfParts(ns)) == |ns| - 1
    ensures PartValues(VersionOfParts(ns))[..|ns|] == ns
  {
    var v := VersionOfParts(ns);
    if |ns| == 1 {
      assert PartValues(v)[..1] == [ns[0]];
    } else if |ns| == 2 {
      assert PartValues(v)[..2] == [ns[0], ns[1]];
    } else if |ns| == 3 {
      assert PartValues(v)[..3] == [ns[0], ns[1], ns[2]];
    } else {
      assert PartValues(v)[..4] == [ns[0], ns[1], ns[2], ns[3]];
    }
  }

  /** The groups of one to four present values: the values, then absent ones. */
  lemma PresentGroupsShape(ns: seq<string>)
    requires 1 <= |ns| <= 4
    ensures forall k :: 0 <= k < 4 ==> PresentGroups(ns, 4)[k] == if k < |ns| then Some(ns[k]) else None
  {
    var g := PresentGroups(ns, 4);
    assert g == [Some(ns[0])] + PresentGroups(ns[1..], 3);
    if |ns| == 1 {
      assert PresentGroups([], 3) == [None, None, None];
    } else if |ns| == 2 {
      assert PresentGroups(ns[1..], 3) == [Some(ns[1])] + PresentGroups([], 2);
    } else if |ns| == 3 {
      assert PresentGroups(ns[1..], 3) == [Some(ns[1])] + PresentGroups(ns[2..], 2);
      assert PresentGroups(ns[2..], 2) == [Some(ns[2])] + PresentGroups([], 1);
    } else {
      assert PresentGroups(ns[1..], 3) == [Some(ns[1])] + PresentGroups(ns[2..], 2);
      assert PresentGroups(ns[2..], 2) == [Some(ns[2])] + PresentGroups(ns[3..], 1);
      assert PresentGroups(ns[3..], 1) == [Some(ns[3])] + PresentGroups([], 0);
    }
  }

  /** With padding there are always four parts, and they read back as the padded version. */
  lemma ParsePaddedFormat(v: Version, regex: NumberRegex)
    ensures ParseVersion(FormatVersion(v, [regex.Delimiter()], true), regex) == Ok(Padded(v))
    ensures |Split(FormatVersion(v, [regex.Delimiter()], true), regex.Delimiter())| == 4
  {
    var ns := PartValues(v);
    assert ns[..4] == ns;
    ParseJoinedNumerals(ns, regex);
    PaddedFormatSplits(v, regex.Delimiter());
  }

  /** A numeral never contains a character other than a digit. */
  lemma NumeralsOmit(ns: seq<nat>, d: char)
    requires !IsDigit(d)
    ensures Omits(Numerals(ns), d)
  {
    var parts := Numerals(ns);
    forall k | 0 <= k < |parts| ensures d !in parts[k] {
      assert IsCanonicalNumeral(parts[k]);
    }
  }

  lemma PaddedFormatSplits(v: Version, d: char)
    requires !IsDigit(d)
    ensures |Split(FormatVersion(v, [d], true), d)| == 4
  {
    var ns := PartValues(v);
    assert ns[..4] == ns;
    NumeralsOmit(ns, d);
    SplitJoin(Numerals(ns), d);
  }

  /** A delimiter-joined list of one to four canonical numerals parses and formats back to itself. */
  lemma FormatParseRoundTrip(parts: seq<string>, regex: NumberRegex)
    requires 1 <= |parts| <= 4
    requires forall k :: 0 <= k < |parts| ==> IsCanonicalNumeral(parts[k])
    ensures ParseVersion(Join(parts, [regex.Delimiter()]), regex).Ok?
    ensures FormatVersion(ParseVersion(Join(parts, [regex.Delimiter()]), regex).value, [regex.Delimiter()], false)
         == Join(parts, [regex.Delimiter()])
  {
    var ns := CanonicalNumeralValues(parts);
    ParseJoinedNumerals(ns, regex);
    FormatOfParts(ns, [regex.Delimiter()]);
  }

  /** Canonical numerals are the numerals of their values. */
  lemma CanonicalNumeralValues(parts: seq<string>) returns (ns: seq<nat>)
    requires forall k :: 0 <= k < |parts| ==> IsCanonicalNumeral(parts[k])
    ensures Numerals(ns) == parts
  {
    ns := seq(|parts|, k requires 0 <= k < |parts| => NumeralValue(parts[k]));
    forall k | 0 <= k < |parts| ensures Numerals(ns)[k] == parts[k] {
      NatToStringOfNumeral(parts[k]);
    }
  }

  /** A version built from one to four values is written as exactly those values. */
  lemma FormatOfParts(ns: seq<nat>, d: string)
    requires 1 <= |ns| <= 4
    ensures FormatVersion(VersionOfParts(ns), d, false) == Join(Numerals(ns), d)
  {
    WrittenPartsOfVersion(ns);
  }

  /** The slots a pattern text spells out: those before the first Remove. */
  function WrittenSlots(p: VersionUpdatePattern): (slots: seq<VersionPartUpdateRule>)
    ensures |slots| <= 4 && forall k :: 0 <= k < |slots| ==> !slots[k].Remove?
  {
    if p.major.Remove? then []
    else if p.minor.Remove? then [p.major]
    else if p.build.Remove? then [p.major, p.minor]
    else if p.revision.Remove? then [p.major, p.minor, p.build]
    else [p.major, p.minor, p.build, p.revision]
  }

  /** A pattern a text can express: a first slot, no slot after a Remove, and at least one slot
      that is not a number (an all-number text is an explicit version instead). */
  predicate IsWritablePattern(p: VersionUpdatePattern) {
    && !p.major.Remove?
    && (p.minor.Remove? ==> p.build.Remove?)
    && (p.build.Remove? ==> p.revision.Remove?)
    && exists k :: 0 <= k < |WrittenSlots(p)| && !WrittenSlots(p)[k].Overwrite?
  }

  /** The texts of the written slots. */
  function SlotTexts(p: VersionUpdatePattern): (texts: seq<string>)
    ensures |texts| == |WrittenSlots(p)|
  {
    var slots := WrittenSlots(p);
    seq(|slots|, k requires 0 <= k < |slots| => SlotText(slots[k]).value)
  }

  /** The instruction text of a pattern, such as `*.^.0`. */
  function PatternText(p: VersionUpdatePattern): string {
    Join(SlotTexts(p), ".")
  }

  /** A character of one of the parts is a character of the joined text. */
  lemma {:induction false} JoinContains(parts: seq<string>, sep: string, k: nat, i: nat)
    requires k < |parts| && i < |parts[k]|
    ensures parts[k][i] in Join(parts, sep)
  {
    if k == 0 {
      if |parts| > 1 {
        assert Join(parts, sep) == parts[0] + (sep + Join(parts[1..], sep));
        assert Join(parts, sep)[i] == parts[0][i];
      }
    } else {
      JoinContains(parts[1..], sep, k - 1, i);
      assert Join(parts, sep) == (parts[0] + sep) + Join(parts[1..], sep);
    }
  }

  /** A text that contains a slot symbol is never read whole by the dot regex. */
  lemma SymbolDefeatsNumberRegex(s: string, c: char)
    requires c in s && IsSlotSymbol(c)
    ensures !MatchesWhole(NumberWithDotDelimiter, s)
  {
    if MatchesWhole(NumberWithDotDelimiter, s) {
      MatchCharacters(NumberWithDotDelimiter, s);
    }
  }

  lemma SlotTextsAreTokens(p: VersionUpdatePattern)
    ensures forall k :: 0 <= k < |SlotTexts(p)| ==> IsToken(UpdateRule, SlotTexts(p)[k])
  {
    var slots := WrittenSlots(p);
    forall k | 0 <= k < |slots| ensures IsToken(UpdateRule, SlotTexts(p)[k]) {
      SlotTextRoundTrip(slots[k]);
    }
  }

  /** The text of a writable pattern holds a slot symbol, so it is no version number. */
  lemma PatternTextIsNoNumber(p: VersionUpdatePattern)
    requires IsWritablePattern(p)
    ensures !MatchesWhole(NumberWithDotDelimiter, PatternText(p))
  {
    var slots := WrittenSlots(p);
    var texts := SlotTexts(p);
    var k :| 0 <= k < |slots| && !slots[k].Overwrite?;
    assert |texts[k]| == 1 && IsSlotSymbol(texts[k][0]);
    JoinContains(texts, ".", k, 0);
    SymbolDefeatsNumberRegex(PatternText(p), texts[k][0]);
  }

  /** The rule regex reads the text of a writable pattern whole, the dot regex does not, and
      the text has no surrounding whitespace. */
  lemma PatternTextMatch(p: VersionUpdatePattern)
    requires IsWritablePattern(p)
    ensures Exec(UpdateRule, PatternText(p)) == Some(RegexMatch(0, PatternText(p), PresentGroups(SlotTexts(p), 4)))
    ensures !MatchesWhole(NumberWithDotDelimiter, PatternText(p))
    ensures Trim(PatternText(p)) == PatternText(p)
  {
    var text := PatternText(p);
    assert [UpdateRule.Delimiter()] == ".";
    assert text == Join(SlotTexts(p), [UpdateRule.Delimiter()]);
    SlotTextsAreTokens(p);
    ExecOfJoinedTokens(UpdateRule, SlotTexts(p));
    MatchHasNoWhitespace(UpdateRule, text);
    PatternTextIsNoNumber(p);
  }

  lemma PatternGroups(p: VersionUpdatePattern)
    requires IsWritablePattern(p)
    ensures var gs := PresentGroups(SlotTexts(p), 4);
      VersionUpdatePattern(ParseVersionPartUpdateRule(gs[0]), ParseVersionPartUpdateRule(gs[1]),
                           ParseVersionPartUpdateRule(gs[2]), ParseVersionPartUpdateRule(gs[3])) == p
  {
    var slots := WrittenSlots(p);
    var texts := SlotTexts(p);
    forall k | 0 <= k < |slots| ensures ParseVersionPartUpdateRule(Some(texts[k])) == slots[k] {
      SlotTextRoundTrip(slots[k]);
    }
    PresentGroupsShape(texts);
    var gs := PresentGroups(texts, 4);
    assert forall j :: 0 <= j < 4 ==> ParseVersionPartUpdateRule(gs[j]) == if j < |slots| then slots[j] else Remove;
  }

  /** Any instruction that trims and expands to the text of a pattern parses as that pattern. */
  lemma PatternInstruction(input: string, p: VersionUpdatePattern)
    requires IsWritablePattern(p)
    requires Trim(input) != [] && ExpandBumpCommand(Trim(input)) == PatternText(p)
    ensures ParseVersionUpdateRule(input) == Ok(UsePattern(p))
  {
    PatternTextMatch(p);
    PatternGroups(p);
  }

  /** Only a text starting with `b` or `B` can be a bump keyword. */
  lemma NonKeywordIsKept(s: string)
    requires s != [] && s[0] != 'b' && s[0] != 'B'
    ensures ExpandBumpCommand(s) == s
  {
    assert ToLower(s)[0] != 'b';
  }

  /** The text of a writable pattern starts with the text of its first slot. */
  lemma PatternTextStart(p: VersionUpdatePattern)
    requires IsWritablePattern(p)
    ensures PatternText(p) != [] && IsTokenStart(UpdateRule, PatternText(p)[0])
  {
    var texts := SlotTexts(p);
    SlotTextsAreTokens(p);
    JoinIsHeadAndTail(texts, '.');
    assert PatternText(p)[0] == texts[0][0];
  }

  /** A pattern written out as text reads back as the same pattern. */
  lemma PatternTextRoundTrip(p: VersionUpdatePattern)
    requires IsWritablePattern(p)
    ensures ParseVersionUpdateRule(PatternText(p)) == Ok(UsePattern(p))
  {
    PatternTextMatch(p);
    PatternTextStart(p);
    NonKeywordIsKept(PatternText(p));
    PatternInstruction(PatternText(p), p);
  }

  const BUMP_MAJOR_PATTERN := VersionUpdatePattern(Bump, LeaveUnchanged, LeaveUnchanged, LeaveUnchanged)
  const BUMP_MINOR_PATTERN := VersionUpdatePattern(LeaveUnchangedSetMissingToZero, Bump, LeaveUnchanged, LeaveUnchanged)
  const BUMP_BUILD_PATTERN :=
    VersionUpdatePattern(LeaveUnchangedSetMissingToZero, LeaveUnchangedSetMissingToZero, Bump, LeaveUnchanged)
  const BUMP_REVISION_PATTERN :=
    VersionUpdatePattern(LeaveUnchangedSetMissingToZero, LeaveUnchangedSetMissingToZero, LeaveUnchangedSetMissingToZero, Bump)

  /** A four-slot pattern is spelled by its four slot texts. */
  lemma FourSlotPatternText(p: VersionUpdatePattern)
    requires !p.major.Remove? && !p.minor.Remove? && !p.build.Remove? && !p.revision.Remove?
    ensures PatternText(p) == SlotText(p.major).value + "." + SlotText(p.minor).value + "."
                            + SlotText(p.build).value + "." + SlotText(p.revision).value
  {
    var texts := SlotTexts(p);
    assert texts == [SlotText(p.major).value, SlotText(p.minor).value, SlotText(p.build).value, SlotText(p.revision).value];
    JoinOfShortLists(texts[0], texts[1], texts[2], texts[3], ".");
  }

  /** A four-slot pattern whose slots are one-character symbols, the first not a number, is
      writable and spelled by those four characters. */
  lemma SymbolPatternText(p: VersionUpdatePattern, c0: char, c1: char, c2: char, c3: char)
    requires !p.major.Overwrite?
    requires SlotText(p.major) == Some([c0]) && SlotText(p.minor) == Some([c1])
    requires SlotText(p.build) == Some([c2]) && SlotText(p.revision) == Some([c3])
    ensures IsWritablePattern(p) && PatternText(p) == [c0, '.', c1, '.', c2, '.', c3]
  {
    FourSlotPatternText(p);
    assert !WrittenSlots(p)[0].Overwrite?;
  }

  /** The bump patterns are written `^.?.?.?`, `*.^.?.?`, `*.*.^.?` and `*.*.*.^`. */
  lemma BumpPatternTexts()
    ensures IsWritablePattern(BUMP_MAJOR_PATTERN) && PatternText(BUMP_MAJOR_PATTERN) == "^.?.?.?"
    ensures IsWritablePattern(BUMP_MINOR_PATTERN) && PatternText(BUMP_MINOR_PATTERN) == "*.^.?.?"
    ensures IsWritablePattern(BUMP_BUILD_PATTERN) && PatternText(BUMP_BUILD_PATTERN) == "*.*.^.?"
    ensures IsWritablePattern(BUMP_REVISION_PATTERN) && PatternText(BUMP_REVISION_PATTERN) == "*.*.*.^"
  {
    SymbolPatternText(BUMP_MAJOR_PATTERN, '^', '?', '?', '?');
    SymbolPatternText(BUMP_MINOR_PATTERN, '*', '^', '?', '?');
    SymbolPatternText(BUMP_BUILD_PATTERN, '*', '*', '^', '?');
    SymbolPatternText(BUMP_REVISION_PATTERN, '*', '*', '*', '^');
  }

  /** The bump keywords, in any letter case and with surrounding whitespace, stand for the
      patterns `^.?.?.?`, `*.^.?.?`, `*.*.^.?` and `*.*.*.^`. */
  lemma BumpCommandPatterns(input: string)
    ensures ToLower(Trim(input)) == BUMP_MAJOR_COMMAND ==> ParseVersionUpdateRule(input) == Ok(UsePattern(BUMP_MAJOR_PATTERN))
    ensures ToLower(Trim(input)) == BUMP_MINOR_COMMAND ==> ParseVersionUpdateRule(input) == Ok(UsePattern(BUMP_MINOR_PATTERN))
    ensures ToLower(Trim(input)) == BUMP_BUILD_COMMAND ==> ParseVersionUpdateRule(input) == Ok(UsePattern(BUMP_BUILD_PATTERN))
    ensures ToLower(Trim(input)) == BUMP_REVISION_COMMAND ==> ParseVersionUpdateRule(input) == Ok(UsePattern(BUMP_REVISION_PATTERN))
  {
    var trimmed := Trim(input);
    var lower := ToLower(trimmed);
    BumpPatternTexts();
    if lower == BUMP_MAJOR_COMMAND {
      assert trimmed != [] && ExpandBumpCommand(trimmed) == "^.?.?.?";
      PatternInstruction(input, BUMP_MAJOR_PATTERN);
    } else if lower == BUMP_MINOR_COMMAND {
      assert trimmed != [] && ExpandBumpCommand(trimmed) == "*.^.?.?";
      PatternInstruction(input, BUMP_MINOR_PATTERN);
    } else if lower == BUMP_BUILD_COMMAND {
      assert trimmed != [] && ExpandBumpCommand(trimmed) == "*.*.^.?";
      PatternInstruction(input, BUMP_BUILD_PATTERN);
    } else if lower == BUMP_REVISION_COMMAND {
      assert trimmed != [] && ExpandBumpCommand(trimmed) == "*.*.*.^";
      PatternInstruction(input, BUMP_REVISION_PATTERN);
    }
  }

  /** The version an instruction turns `v` into, if the instruction is valid. */
  function UpdatedBy(input: string, v: Version): Option<Version> {
    match ParseVersionUpdateRule(input)
    case Err(_) => None
    case Ok(rule) =>
      match UpdateParsedVersion(v, rule)
      case Err(_) => None
      case Ok(w) => Some(w)
  }

  /** What each bump keyword does: it raises its part by one (an absent part counting as 0),
      makes the parts before it present, and leaves the parts after it as they were. */
  lemma BumpCommandUpdates(input: string, v: Version)
    ensures ToLower(Trim(input)) == BUMP_MAJOR_COMMAND ==>
      UpdatedBy(input, v) == Some(Version(v.major + 1, v.minor, v.build, v.revision))
    ensures ToLower(Trim(input)) == BUMP_MINOR_COMMAND ==>
      UpdatedBy(input, v) == Some(Version(v.major, Some(v.minor.GetOr(0) + 1), v.build, v.revision))
    ensures ToLower(Trim(input)) == BUMP_BUILD_COMMAND ==>
      UpdatedBy(input, v) == Some(Version(v.major, Some(v.minor.GetOr(0)), Some(v.build.GetOr(0) + 1), v.revision))
    ensures ToLower(Trim(input)) == BUMP_REVISION_COMMAND ==>
      UpdatedBy(input, v)
      == Some(Version(v.major, Some(v.minor.GetOr(0)), Some(v.build.GetOr(0)), Some(v.revision.GetOr(0) + 1)))
  {
    BumpCommandPatterns(input);
    BumpPatternUpdates(v);
  }

  lemma BumpPatternUpdates(v: Version)
    ensures UpdateParsedVersion(v, UsePattern(BUMP_MAJOR_PATTERN)) == Ok(Version(v.major + 1, v.minor, v.build, v.revision))
    ensures UpdateParsedVersion(v, UsePattern(BUMP_MINOR_PATTERN))
         == Ok(Version(v.major, Some(v.minor.GetOr(0) + 1), v.build, v.revision))
    ensures UpdateParsedVersion(v, UsePattern(BUMP_BUILD_PATTERN))
         == Ok(Version(v.major, Some(v.minor.GetOr(0)), Some(v.build.GetOr(0) + 1), v.revision))
    ensures UpdateParsedVersion(v, UsePattern(BUMP_REVISION_PATTERN))
         == Ok(Version(v.major, Some(v.minor.GetOr(0)), Some(v.build.GetOr(0)), Some(v.revision.GetOr(0) + 1)))
  {
  }

  /** Every bump keyword gives a strictly greater version. */
  lemma BumpCommandRaisesVersion(input: string, v: Version)
    requires ToLower(Trim(input)) in {BUMP_MAJOR_COMMAND, BUMP_MINOR_COMMAND, BUMP_BUILD_COMMAND, BUMP_REVISION_COMMAND}
    ensures UpdatedBy(input, v).Some? && Precedes(v, UpdatedBy(input, v).value)
  {
    BumpCommandUpdates(input, v);
  }

  lemma NumberTextMatch(parts: seq<string>)
    requires 1 <= |parts| <= 4
    requires forall k :: 0 <= k < |parts| ==> IsNumeral(parts[k])
    ensures MatchesWhole(NumberWithDotDelimiter, Join(parts, "."))
    ensures Join(parts, ".") != [] && IsDigit(Join(parts, ".")[0])
  {
    assert [NumberWithDotDelimiter.Delimiter()] == ".";
    ExecOfJoinedTokens(NumberWithDotDelimiter, parts);
    JoinIsHeadAndTail(parts, '.');
    assert Join(parts, ".")[0] == parts[0][0];
  }

  /** An instruction made of one to four dot-joined numbers is an explicit version, kept as written. */
  lemma NumberInstructionIsExplicit(parts: seq<string>)
    requires 1 <= |parts| <= 4
    requires forall k :: 0 <= k < |parts| ==> IsNumeral(parts[k])
    ensures ParseVersionUpdateRule(Join(parts, ".")) == Ok(SetExplicitVersion(Join(parts, ".")))
  {
    var text := Join(parts, ".");
    NumberTextMatch(parts);
    MatchHasNoWhitespace(NumberWithDotDelimiter, text);
    NonKeywordIsKept(text);
  }

  /** A version written with a number under a pattern reads as the version of those numbers,
      and the pattern's result is written without padding. */
  lemma UpdateOfWrittenVersion(ns: seq<nat>, p: VersionUpdatePattern)
    requires 1 <= |ns| <= 4
    ensures UpdateNonParsedVersion(Join(Numerals(ns), "."), UsePattern(p), NumberWithDotDelimiter, ".")
         == Ok(FormatVersion(UpdateParsedVersion(VersionOfParts(ns), UsePattern(p)).value, ".", false))
  {
    assert [NumberWithDotDelimiter.Delimiter()] == ".";
    ParseJoinedNumerals(ns, NumberWithDotDelimiter);
  }

  /** At two dots followed by the number `b` at the end of the text, the optional groups are:
      nothing between the two dots, then `b`, then nothing. */
  lemma GapGroups(s: string, n: nat, b: string)
    requires IsNumeral(b) && n + 2 + |b| == |s|
    requires s[n] == '.' && s[n + 1] == '.' && s[n + 2..] == b
    ensures OptionalGroups(NumberWithDotDelimiter, s, n, 3) == ([None, Some(b), None], |s|)
  {
    var r := NumberWithDotDelimiter;
    var tail := OptionalGroups(r, s, |s|, 1);
    OptionalGroupsAtEnd(r, s, 1);
    assert PresentGroups([], 1) == [None];
    var mid := OptionalGroups(r, s, n + 1, 2);
    assert s[n + 2..n + 2 + |b|] == b;
    OptionalGroupsStep(r, s, n + 1, b, 2);
    assert [Some(b)] + tail.0 == [Some(b), None];
    OptionalGroupsEmptyStep(r, s, n, 3);
    assert [None] + mid.0 == [None, Some(b), None];
  }

  /** A number, two dots and a number make a whole match whose second group did not take part. */
  lemma GapMatch(s: string, a: string, b: string)
    requires IsNumeral(a) && IsNumeral(b) && |s| == |a| + 2 + |b|
    requires s[..|a|] == a && s[|a|] == '.' && s[|a| + 1] == '.' && s[|a| + 2..] == b
    ensures Exec(NumberWithDotDelimiter, s) == Some(RegexMatch(0, s, [Some(a), None, Some(b), None]))
  {
    var gs := [None, Some(b), None];
    GapGroups(s, |a|, b);
    LeadingNumber(s, a);
    ExecWhole(NumberWithDotDelimiter, s, |a|, gs);
    assert [Some(a)] + gs == [Some(a), None, Some(b), None];
  }

  /** A text that starts with a number followed by a dot has that number as its first token. */
  lemma LeadingNumber(s: string, a: string)
    requires IsNumeral(a) && |a| < |s| && s[..|a|] == a && s[|a|] == '.'
    ensures IsTokenStart(NumberWithDotDelimiter, s[0]) && TokenEnd(NumberWithDotDelimiter, s, 0) == |a|
  {
    assert s[0..|a|] == a && s[0] == a[0];
    TokenEndOfToken(NumberWithDotDelimiter, s, 0, a);
  }

  /** A version with an empty part, such as `1..2`, parses with a gap: minor absent, build
      present. */
  lemma GapVersionParses(a: string, b: string)
    requires IsNumeral(a) && IsNumeral(b)
    ensures ParseVersion(a + ".." + b, NumberWithDotDelimiter)
         == Ok(Version(NumeralValue(a), None, Some(NumeralValue(b)), None))
  {
    var s := a + ".." + b;
    assert s[..|a|] == a && s[|a|] == '.' && s[|a| + 1] == '.' && s[|a| + 2..] == b;
    GapMatch(s, a, b);
    ParseVersionOfMatch(s, NumberWithDotDelimiter, [Some(a), None, Some(b), None]);
  }

  /** Formatting a version with a gap stops at the gap: only the parts before it are written. */
  lemma GapVersionFormats(major: nat, build: nat)
    ensures FormatVersion(Version(major, None, Some(build), None), ".", false) == NatToString(major)
  {
    var v := Version(major, None, Some(build), None);
    assert PartValues(v)[..1] == [major];
  }

  /** A Remove slot cuts the unpadded output at that part: with minor removed only the major
      part is written, with build removed at most major and minor, with revision removed at
      most three parts. */
  lemma RemoveCutsOutput(v: Version, p: VersionUpdatePattern, d: string)
    ensures var w := UpdateParsedVersion(v, UsePattern(p)).value;
      && (p.minor.Remove? ==> FormatVersion(w, d, false) == NatToString(w.major))
      && (p.build.Remove? ==> WrittenTailLength(w, false) <= 1)
      && (p.revision.Remove? ==> WrittenTailLength(w, false) <= 2)
  {
    var w := UpdateParsedVersion(v, UsePattern(p)).value;
    if p.minor.Remove? {
      assert PartValues(w)[..1] == [w.major];
    }
  }

  /** A pattern instruction applied to a version written as numbers gives the numbers of the
      updated version. */
  lemma PatternOnNumbers(instruction: string, p: VersionUpdatePattern, ns: seq<nat>, ms: seq<nat>)
    requires IsWritablePattern(p) && PatternText(p) == instruction
    requires instruction != [] && instruction[0] != 'b' && instruction[0] != 'B'
    requires !IsWhitespace(instruction[0]) && !IsWhitespace(instruction[|instruction| - 1])
    requires 1 <= |ns| <= 4 && 1 <= |ms| <= 4
    requires UpdateParsedVersion(VersionOfParts(ns), UsePattern(p)) == Ok(VersionOfParts(ms))
    ensures ParseVersionUpdateRule(instruction) == Ok(UsePattern(p))
    ensures UpdateNonParsedVersion(Join(Numerals(ns), "."), ParseVersionUpdateRule(instruction).value, NumberWithDotDelimiter, ".")
         == Ok(Join(Numerals(ms), "."))
  {
    NonKeywordIsKept(instruction);
    PatternInstruction(instruction, p);
    UpdateOfWrittenVersion(ns, p);
    FormatOfParts(ms, ".");
  }

  /** The pattern instructions of the source's own examples, applied to dotted versions. */
  lemma PatternUpdateExamples()
    ensures ParseVersionUpdateRule("*.^.^").Ok? && UpdateNonParsedVersion("1.1.45", ParseVersionUpdateRule("*.^.^").value, NumberWithDotDelimiter, ".") == Ok("1.2.46")
    ensures ParseVersionUpdateRule("^.0.^").Ok? && UpdateNonParsedVersion("1.1.45", ParseVersionUpdateRule("^.0.^").value, NumberWithDotDelimiter, ".") == Ok("2.0.46")
    ensures ParseVersionUpdateRule("*.*").Ok? && UpdateNonParsedVersion("1.1.1.1", ParseVersionUpdateRule("*.*").value, NumberWithDotDelimiter, ".") == Ok("1.1")
    ensures ParseVersionUpdateRule("*.*.?").Ok? && UpdateNonParsedVersion("1.1", ParseVersionUpdateRule("*.*.?").value, NumberWithDotDelimiter, ".") == Ok("1.1")
  {
    StarBumpBump();
    BumpZeroBump();
    StarStar();
    StarStarQuery();
  }

  lemma SmallNumerals()
    ensures NatToString(0) == "0" && NatToString(1) == "1" && NatToString(2) == "2"
    ensures NatToString(45) == "45" && NatToString(46) == "46"
  {
    assert NatToString(4) == "4";
  }

  /** The dotted texts of the examples, as joins of their numerals. */
  lemma DottedExamples()
    ensures Join(["1", "1", "45"], ".") == "1.1.45"
    ensures Join(["1", "2", "46"], ".") == "1.2.46"
    ensures Join(["2", "0", "46"], ".") == "2.0.46"
    ensures Join(["1", "1", "1", "1"], ".") == "1.1.1.1"
    ensures Join(["1", "1"], ".") == "1.1"
  {
    JoinOfShortLists("1", "1", "45", "", ".");
    JoinOfShortLists("1", "2", "46", "", ".");
    JoinOfShortLists("2", "0", "46", "", ".");
    JoinOfShortLists("1", "1", "1", "1", ".");
  }

  lemma StarBumpBump()
    ensures ParseVersionUpdateRule("*.^.^").Ok? && UpdateNonParsedVersion("1.1.45", ParseVersionUpdateRule("*.^.^").value, NumberWithDotDelimiter, ".") == Ok("1.2.46")
  {
    SmallNumerals();
    var p := VersionUpdatePattern(LeaveUnchangedSetMissingToZero, Bump, Bump, Remove);
    assert WrittenSlots(p)[0] == LeaveUnchangedSetMissingToZero;
    assert SlotTexts(p) == ["*", "^", "^"];
    assert PatternText(p) == "*.^.^";
    assert Numerals([1, 1, 45]) == ["1", "1", "45"];
    assert Numerals([1, 2, 46]) == ["1", "2", "46"];
    DottedExamples();
    PatternOnNumbers("*.^.^", p, [1, 1, 45], [1, 2, 46]);
  }

  lemma BumpZeroBump()
    ensures ParseVersionUpdateRule("^.0.^").Ok? && UpdateNonParsedVersion("1.1.45", ParseVersionUpdateRule("^.0.^").value, NumberWithDotDelimiter, ".") == Ok("2.0.46")
  {
    SmallNumerals();
    var p := VersionUpdatePattern(Bump, Overwrite(0), Bump, Remove);
    assert WrittenSlots(p)[0] == Bump;
    assert SlotTexts(p) == ["^", "0", "^"];
    assert PatternText(p) == "^.0.^";
    assert Numerals([1, 1, 45]) == ["1", "1", "45"];
    assert Numerals([2, 0, 46]) == ["2", "0", "46"];
    DottedExamples();
    PatternOnNumbers("^.0.^", p, [1, 1, 45], [2, 0, 46]);
  }

  lemma StarStar()
    ensures ParseVersionUpdateRule("*.*").Ok? && UpdateNonParsedVersion("1.1.1.1", ParseVersionUpdateRule("*.*").value, NumberWithDotDelimiter, ".") == Ok("1.1")
  {
    SmallNumerals();
    var p := VersionUpdatePattern(LeaveUnchangedSetMissingToZero, LeaveUnchangedSetMissingToZero, Remove, Remove);
    assert WrittenSlots(p)[0] == LeaveUnchangedSetMissingToZero;
    assert SlotTexts(p) == ["*", "*"];
    assert PatternText(p) == "*.*";
    assert Numerals([1, 1, 1, 1]) == ["1", "1", "1", "1"];
    assert Numerals([1, 1]) == ["1", "1"];
    DottedExamples();
    PatternOnNumbers("*.*", p, [1, 1, 1, 1], [1, 1]);
  }

  lemma StarStarQuery()
    ensures ParseVersionUpdateRule("*.*.?").Ok? && UpdateNonParsedVersion("1.1", ParseVersionUpdateRule("*.*.?").value, NumberWithDotDelimiter, ".") == Ok("1.1")
  {
    SmallNumerals();
    var p := VersionUpdatePattern(LeaveUnchangedSetMissingToZero, LeaveUnchangedSetMissingToZero, LeaveUnchanged, Remove);
    assert WrittenSlots(p)[0] == LeaveUnchangedSetMissingToZero;
    assert SlotTexts(p) == ["*", "*", "?"];
    assert PatternText(p) == "*.*.?";
    assert Numerals([1, 1]) == ["1", "1"];
    DottedExamples();
    PatternOnNumbers("*.*.?", p, [1, 1], [1, 1]);
  }

  /** The optional delimiters let a rule text leave a slot empty, end in a dot, or run two
      slots together; each empty or missing slot is Remove. */
  lemma GapPatternTexts()
    ensures ParseVersionUpdateRule("*..^")
         == Ok(UsePattern(VersionUpdatePattern(LeaveUnchangedSetMissingToZero, Remove, Bump, Remove)))
    ensures ParseVersionUpdateRule("*^")
         == Ok(UsePattern(VersionUpdatePattern(LeaveUnchangedSetMissingToZero, Bump, Remove, Remove)))
    ensures ParseVersionUpdateRule("^.")
         == Ok(UsePattern(VersionUpdatePattern(Bump, Remove, Remove, Remove)))
  {
    EmptySlotRule();
    UndottedRule();
    TrailingDotRule();
  }

  /** What the rule regex reads from a text decides the rule, once the text is no keyword,
      has no surrounding whitespace, and is not a dotted number. */
  lemma RuleOfMatch(text: string, groups: seq<Option<string>>)
    requires text != [] && text[0] != 'b' && text[0] != 'B'
    requires !IsWhitespace(text[0]) && !IsWhitespace(text[|text| - 1])
    requires !MatchesWhole(NumberWithDotDelimiter, text)
    requires Exec(UpdateRule, text) == Some(RegexMatch(0, text, groups))
    ensures ParseVersionUpdateRule(text) == Ok(UsePattern(VersionUpdatePattern(
      ParseVersionPartUpdateRule(groups[0]), ParseVersionPartUpdateRule(groups[1]),
      ParseVersionPartUpdateRule(groups[2]), ParseVersionPartUpdateRule(groups[3]))))
  {
    NonKeywordIsKept(text);
  }

  lemma SymbolRules()
    ensures ParseVersionPartUpdateRule(Some("*")) == LeaveUnchangedSetMissingToZero
    ensures ParseVersionPartUpdateRule(Some("^")) == Bump
    ensures ParseVersionPartUpdateRule(None) == Remove
  {
  }

  lemma EmptySlotRule()
    ensures ParseVersionUpdateRule("*..^")
         == Ok(UsePattern(VersionUpdatePattern(LeaveUnchangedSetMissingToZero, Remove, Bump, Remove)))
  {
    var s := "*..^";
    EmptySlotMatch();
    SymbolDefeatsNumberRegex(s, '*');
    SymbolRules();
    RuleOfMatch(s, [Some("*"), None, Some("^"), None]);
  }

  lemma EmptySlotMatch()
    ensures Exec(UpdateRule, "*..^") == Some(RegexMatch(0, "*..^", [Some("*"), None, Some("^"), None]))
  {
    var r, s := UpdateRule, "*..^";
    OptionalGroupsAtEnd(r, s, 1);
    assert PresentGroups([], 1) == [None];
    assert s[3..4] == "^";
    assert |s| == 4 && OptionalGroups(r, s, 4, 1) == ([None], 4);
    OptionalGroupsStep(r, s, 2, "^", 2);
    assert 2 + 1 + |"^"| == 4;
    assert [Some("^")] + [None] == [Some("^"), None];
    assert OptionalGroups(r, s, 2, 2) == ([Some("^"), None], 4);
    OptionalGroupsEmptyStep(r, s, 1, 3);
    assert [None] + [Some("^"), None] == [None, Some("^"), None];
    assert OptionalGroups(r, s, 1, 3) == ([None, Some("^"), None], 4);
    assert TokenEnd(r, s, 0) == 1;
    ExecWhole(r, s, 1, [None, Some("^"), None]);
    assert s[..1] == "*";
    assert [Some(s[..1])] + [None, Some("^"), None] == [Some("*"), None, Some("^"), None];
  }

  lemma UndottedRule()
    ensures ParseVersionUpdateRule("*^")
         == Ok(UsePattern(VersionUpdatePattern(LeaveUnchangedSetMissingToZero, Bump, Remove, Remove)))
  {
    UndottedMatch();
    SymbolDefeatsNumberRegex("*^", '*');
    SymbolRules();
    RuleOfMatch("*^", [Some("*"), Some("^"), None, None]);
  }

  lemma UndottedMatch()
    ensures Exec(UpdateRule, "*^") == Some(RegexMatch(0, "*^", [Some("*"), Some("^"), None, None]))
  {
    var r, s := UpdateRule, "*^";
    OptionalGroupsAtEnd(r, s, 2);
    assert PresentGroups([], 2) == [None, None];
    assert TokenEnd(r, s, 1) == 2 && s[1..2] == "^";
    assert s[1] != '.';
    assert OptionalGroups(r, s, 1, 3) == ([Some(s[1..2])] + OptionalGroups(r, s, 2, 2).0, OptionalGroups(r, s, 2, 2).1);
    assert [Some("^")] + [None, None] == [Some("^"), None, None];
    assert OptionalGroups(r, s, 1, 3) == ([Some("^"), None, None], 2);
    assert TokenEnd(r, s, 0) == 1;
    ExecWhole(r, s, 1, [Some("^"), None, None]);
    assert s[..1] == "*";
    assert [Some(s[..1])] + [Some("^"), None, None] == [Some("*"), Some("^"), None, None];
  }

  lemma TrailingDotRule()
    ensures ParseVersionUpdateRule("^.")
         == Ok(UsePattern(VersionUpdatePattern(Bump, Remove, Remove, Remove)))
  {
    TrailingDotMatch();
    SymbolDefeatsNumberRegex("^.", '^');
    SymbolRules();
    RuleOfMatch("^.", [Some("^"), None, None, None]);
  }

  lemma TrailingDotMatch()
    ensures Exec(UpdateRule, "^.") == Some(RegexMatch(0, "^.", [Some("^"), None, None, None]))
  {
    var r, s := UpdateRule, "^.";
    OptionalGroupsAtEnd(r, s, 2);
    assert PresentGroups([], 2) == [None, None];
    assert TokenEnd(r, s, 2) == 2;
    assert s[1] == '.';
    assert OptionalGroups(r, s, 1, 3) == ([None] + OptionalGroups(r, s, 2, 2).0, OptionalGroups(r, s, 2, 2).1);
    var none: Option<string> := None;
    assert [none] + [none, none] == [none, none, none];
    assert OptionalGroups(r, s, 1, 3) == ([None, None, None], 2);
    assert TokenEnd(r, s, 0) == 1;
    ExecWhole(r, s, 1, [None, None, None]);
    assert s[..1] == "^";
    assert [Some(s[..1])] + [none, none, none] == [Some("^"), None, None, None];
  }
}
