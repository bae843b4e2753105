# dotnet-project-version-updater in Dafny

This project models the core of dotnet-project-version-updater, a tool that bumps or overwrites
version numbers inside .NET project files, assembly-info sources, NuSpec manifests and resource
scripts. The tool has three parts. The Dafny modules follow them:

- **The version model and the update-rule language** (`VersionTypes`, `VersionRegex`,
  `VersionUtils`, `VersionProperties`):
  - an instruction such as `bump-minor`, `4.5.6` or `*.^.?` becomes a rule: an explicit
    version, or a pattern of four slot rules;
  - a version text is read into a four-part record (major, then optional minor, build and
    revision), updated by the rule and written back.
  - `VersionRegex` replaces the three regular expressions of the source with hand-written
    recognisers. Every part after the first group is optional, so JavaScript's `exec` never
    backtracks, and the greedy left-to-right scan is exactly what `exec` returns.
- **The legacy engine** (`LegacyVersionUtils`). This is the older copy of the same language: dots
  only, no padding, and its own error message. Each of its operations is proved equal to the
  current engine's on dotted input. Its `GetNewVersion` overwrites the parsed record one field at
  a time, as the source does.
- **The tag filter** (`FilterUtils`). A list such as `csproj.version, nuspec` becomes a list of
  plugin filters with their tag filters. Names are lower-cased and the first spelling is kept.
  Bare `*` elements, empty sides of a dot, duplicates and conflicting wildcards are rejected.
  `ParsePluginTagFilterString` is the source's loop, written as a method. It is proved equal to
  the fold `ParsedFilters`, and every successful parse is well formed: plugins are distinct,
  tags are distinct within a plugin, and a `*` tag is always the only tag of its plugin.
  Conversely, a list parses exactly when it has none of the rejected elements
  (`ParsedFiltersOkIff`).
- **The substitution engine** (`Plugins`). The class `Plugin` keeps its list of version regexes.
  `UpdateFile` runs each regex on the content as the earlier ones left it. Where a regex matches
  with one capture group, it replaces the old version inside the first occurrence of the matched
  text and records `{versionType, oldVersion, newVersion}`. The method is proved equal to the
  fold `FileUpdate`, and the lemmas state what that fold guarantees.

Thrown errors become `Err(message)` with the source's message text, and `null` or `undefined`
become `None`. Version parts are unbounded naturals.

Behaviour worth noting, as the code does it:
- `parseVersion` runs the regex on the trimmed text but compares the match with the text as
  given. A version with surrounding whitespace is therefore rejected, not trimmed
  (`VersionUtils.ParseVersion`).
- Because every delimiter is optional in the number regex, `1..2` is read whole, as major 1 and
  build 2 with minor absent. Formatting it again stops at the gap and writes `1`
  (`VersionProperties.GapVersionParses`, `VersionProperties.GapVersionFormats`).
- A COMMA entry parses the old version and pads the result to four parts even under an explicit
  rule. It fails when the old version does not read with the comma regex, even though an
  explicit version does not need it (`Plugins.NewVersionString`, `Plugins.CommaExplicitVersion`).
- `updateFile` takes no tag filter and does not check for a second occurrence of a version. It
  replaces the first occurrence of the matched text by plain string replacement
  (`Plugins.SpliceAtFirstOccurrence`). A capture that trims to nothing occurs at the start of the
  match, so the new version is put in front of the matched text
  (`Plugins.EmptyOldVersionIsPrefixed`).
- An empty element between two commas of a tag filter is not rejected. It names a plugin with
  an empty name and the tag `*`.

## Model

| member | source | states |
|---|---|---|
| VersionUtils.ParseVersionUpdateRule | src/utils/version-utils.ts:12-74 | Fails exactly when the instruction is blank, with "Version input is empty.". An explicit version is the trimmed instruction after keyword expansion. The rule is a pattern exactly when the rule regex reads that text whole and the dot regex does not. The four slot rules are read from the rule regex's four groups, in order |
| VersionUtils.ParseVersionPartUpdateRule | src/utils/version-utils.ts:111-159 | A slot is Remove exactly when its group is absent or not a slot token. Overwrite carries the value of the digits |
| VersionUtils.SlotTextRoundTrip | src/utils/version-utils.ts:111-159 | Reading back the text of any slot rule gives that slot rule |
| VersionUtils.GetNewVersionPart | src/utils/version-utils.ts:161-176 | The per-part table. Leave-unchanged keeps the value; leave-or-zero gives the value or 0; bump gives value+1 or 1; overwrite gives n; remove gives null. The result is null only for remove, or for leave-unchanged of an absent part |
| VersionUtils.UpdateParsedVersion | src/utils/version-utils.ts:91-109 | A pattern always succeeds. Each part is the per-part table applied to the current part and its slot rule. A removed major becomes 0. An explicit rule gives the literal as the dot regex reads it, and fails as that parse fails |
| VersionUtils.UpdateNonParsedVersion | src/utils/version-utils.ts:76-89 | An explicit rule returns the literal without reading the current version. A pattern fails exactly when the current version does not parse, with the parse message. Otherwise the result is the updated record written back with the delimiter, unpadded |
| VersionUtils.ParseVersion | src/utils/version-utils.ts:178-200 | Succeeds exactly when the regex reads the untrimmed text whole. Otherwise fails with "Version '<v>' doesn't match regular expression: <regex>" |
| VersionUtils.VersionOfCaptures | src/utils/version-utils.ts:183-193 | Major is the value of the first group. Minor, build and revision are present exactly when their groups took part, and then hold the values of those groups |
| VersionUtils.TrimmedMatchIsWholeMatch | src/utils/version-utils.ts:180-181 | Matching the trimmed text against the text as given is the same as the regex reading the text whole. A text with surrounding whitespace never matches |
| VersionUtils.FormatVersion | src/utils/version-utils.ts:202-218 | The output is the delimiter-joined numerals of a prefix of major, minor, build, revision: up to the first absent part, or all four (absent ones as 0) when padding |
| VersionRegex.Exec | src/utils/version-utils.ts:8-10 | `exec`: no match exactly when no token starts anywhere. A match starts at the leftmost place where a token can start. It is a slice of the text with four groups; the first is present, every present group is a token of the regex, and the match text begins with the first group |
| VersionRegex.ExecLayout | src/utils/version-utils.ts:8-10 | A match text is its first group followed by each later group that took part, each with or without a delimiter before it. A missing group leaves a delimiter at most. So a match need not be tokens joined by delimiters (`1..2`, `1.`, `*^`) |
| VersionRegex.ExecOfJoinedTokens | src/utils/version-utils.ts:8-10 | One to four tokens joined by the delimiter are matched whole, with those tokens as the groups and the rest absent |
| VersionProperties.ParseJoinedNumerals | src/utils/version-utils.ts:178-200 | One to four numbers joined by the delimiter parse as exactly those parts, the others absent |
| VersionProperties.ParseFormatRoundTrip | src/utils/version-utils.ts:178-218 | Parsing the unpadded formatting of a gap-free version gives the version back |
| VersionProperties.FormatParseRoundTrip | src/utils/version-utils.ts:178-218 | One to four canonical numerals joined by the delimiter parse, and format back to the same text |
| VersionProperties.ParsePaddedFormat | src/utils/version-utils.ts:202-218 | Padded output always has four parts and reads back as the version with absent parts set to 0 |
| VersionProperties.FormatOfParts | src/utils/version-utils.ts:202-218 | A version of one to four values is written as exactly those values |
| VersionProperties.GapMatch | src/utils/version-utils.ts:9 | The dot regex reads a text of the form number, two dots, number whole. Its second group does not take part |
| VersionProperties.GapVersionParses | src/utils/version-utils.ts:178-200 | `a..b` parses as major a, minor absent, build b, revision absent |
| VersionProperties.GapVersionFormats | src/utils/version-utils.ts:202-218 | A version with an absent minor part is written as its major part alone, whatever its build part |
| VersionProperties.SymbolDefeatsNumberRegex | src/utils/version-utils.ts:9 | A text containing `?`, `*` or `^` is never read whole by the dot regex |
| VersionProperties.PatternTextRoundTrip | src/utils/version-utils.ts:35-74 | The text of any pattern a text can express (first slot present, no slot after a removed one, not all numbers) parses back as that pattern |
| VersionProperties.PatternInstruction | src/utils/version-utils.ts:12-74 | Any instruction that trims and expands to such a pattern's text parses as that pattern |
| VersionProperties.NonKeywordIsKept | src/utils/version-utils.ts:20-34 | An instruction not starting with `b` or `B` is not changed by keyword expansion |
| VersionProperties.BumpPatternTexts | src/utils/version-utils.ts:20-34 | The four keyword expansions are the patterns written `^.?.?.?`, `*.^.?.?`, `*.*.^.?` and `*.*.*.^` |
| VersionProperties.BumpCommandPatterns | src/utils/version-utils.ts:14-34 | The bump keywords, in any letter case and with surrounding whitespace, parse as those four patterns |
| VersionProperties.BumpPatternUpdates | src/utils/version-utils.ts:91-109 | Each bump pattern raises its part by one (absent counts as 0). It makes the parts before it present and keeps the parts after it |
| VersionProperties.BumpCommandUpdates | src/utils/version-utils.ts:12-109 | The same effect, stated for the keyword instructions themselves |
| VersionProperties.BumpCommandRaisesVersion | src/utils/version-utils.ts:12-109 | Every bump keyword gives a strictly greater version |
| VersionProperties.NumberInstructionIsExplicit | src/utils/version-utils.ts:35-44 | One to four dot-joined numbers are an explicit version, kept as written |
| VersionProperties.UpdateOfWrittenVersion | src/utils/version-utils.ts:76-109 | A version written as one to four numbers is updated under a pattern as the record of those numbers |
| VersionProperties.RemoveCutsOutput | src/utils/version-utils.ts:91-109 | A pattern whose minor slot is Remove writes the major part alone. A Remove build slot leaves at most two parts, a Remove revision slot at most three |
| VersionProperties.PatternOnNumbers | src/utils/version-utils.ts:12-109 | An instruction that is the text of a pattern parses as that pattern. A dotted version of numbers is then updated to the dotted numbers of the updated record |
| VersionProperties.PatternUpdateExamples | src/tests/version-utils-tests.ts:94-102 | `*.^.^` on `1.1.45` gives `1.2.46`; `^.0.^` on `1.1.45` gives `2.0.46`; `*.*` on `1.1.1.1` gives `1.1`; `*.*.?` on `1.1` gives `1.1` |
| VersionProperties.GapPatternTexts | src/utils/version-utils.ts:8-74 | The rule regex reads gap texts whole: `*..^` is leave-or-zero, Remove, bump, Remove; `*^` is leave-or-zero, bump, Remove, Remove; `^.` is bump and three Removes |
| LegacyVersionUtils.ParseVersionUpdateRule | src/version-utils.ts:52-114 | Equal to the current engine's parse of the instruction |
| LegacyVersionUtils.ParseVersionPartUpdateRule | src/version-utils.ts:131-179 | Equal to the current engine's slot rule |
| LegacyVersionUtils.GetNewVersionPart | src/version-utils.ts:181-196 | Equal to the current engine's per-part table |
| LegacyVersionUtils.ParseVersion | src/version-utils.ts:198-220 | Succeeds exactly when the dot regex reads the text whole, and then equals the current engine's parse. Otherwise fails with "Unsupported version format: <v>" |
| LegacyVersionUtils.FormatVersion | src/version-utils.ts:222-238 | Equal to the current engine's unpadded formatting with `.`: the numerals up to the first absent part, joined by dots |
| LegacyVersionUtils.GetNewVersion | src/version-utils.ts:116-129 | An explicit rule returns the literal. Otherwise fails exactly when the current engine's update with the dot regex and `.` fails, with the legacy message; when it succeeds the result equals that update |
| FilterUtils.SplitElement | src/utils/filter-utils.ts:31-45 | Rejects an element exactly when its first dot is at the start or at the end. Without a dot the tag is `*`. Otherwise name and tag are non-empty, the name has no dot, and name + "." + tag is the element |
| FilterUtils.FindPlugin | src/utils/filter-utils.ts:48 | `find`: the first plugin filter with the name, or none when no filter has it |
| FilterUtils.ParsePluginTagFilterString | src/utils/filter-utils.ts:3-83 | The loop gives exactly the fold `ParsedFilters`, errors included; `ParsedFiltersWellFormed` states that a successful result is well formed |
| FilterUtils.AddElements | src/utils/filter-utils.ts:21-80 | The loop over the elements equals the fold over them from no filters, stopping at the first error |
| FilterUtils.AddElement | src/utils/filter-utils.ts:24-79 | One loop iteration equals one step of the fold |
| FilterUtils.SplitAtDot | src/utils/filter-utils.ts:31-45 | The imperative split equals `SplitElement` |
| FilterUtils.AddToPlugin | src/utils/filter-utils.ts:46-79 | Find or create, checks and push equal the fold's step for a split element |
| FilterUtils.UniversalFilterCases | src/utils/filter-utils.ts:6-18 | A missing, blank or `*` list gives the single filter `*` with tag `*`, keeping the trimmed text (or "") as its spelling |
| FilterUtils.InvalidElementRejects | src/utils/filter-utils.ts:25-37 | A bare `*` element, or one with an empty side of its first dot, makes the whole parse fail, wherever it stands |
| FilterUtils.DuplicateBeforeWildcard | src/utils/filter-utils.ts:59-62 | An element whose tag its plugin already holds fails as a duplicate, even when the tag is `*` |
| FilterUtils.WildcardConflicts | src/utils/filter-utils.ts:63-75 | Adding `*` to a plugin with tags names the element and its plugin spelling. Adding a tag after `*` names the plugin's first spelling |
| FilterUtils.AddFilterElementOk | src/utils/filter-utils.ts:46-79 | A successful step keeps the filters well formed and lower-cased and extends them. It adds exactly one tag filter and selects the element's plugin and tag |
| FilterUtils.AddFilterElementsOk | src/utils/filter-utils.ts:21-80 | A successful parse of a list keeps those properties. It adds one tag filter per element and selects every element's plugin and tag |
| FilterUtils.ParsedFiltersWellFormed | src/utils/filter-utils.ts:48-79 | Every successful parse has distinct plugins, distinct tags per plugin, and `*` only as a sole tag |
| FilterUtils.ParsedListSelectsElements | src/utils/filter-utils.ts:21-80 | A parsed list is lower-cased, holds one tag filter per element, and selects every element's plugin and tag |
| FilterUtils.PluginSlotFacts | src/utils/filter-utils.ts:48-58 | Finding or creating the plugin filter keeps the names distinct and lower-cased and the earlier filters in place |
| FilterUtils.AddFilterElementOkIff | src/utils/filter-utils.ts:24-79 | One element is added exactly when it is not a bare `*`, has no empty side of its dot, its tag is not yet held by its plugin, and neither it nor the plugin's first tag is `*` when the plugin has tags |
| FilterUtils.AddFilterElementTags | src/utils/filter-utils.ts:46-79 | A successful step appends the element's tag to its plugin's tags and leaves every other plugin's tags as they were |
| FilterUtils.LaterElementAcceptable | src/utils/filter-utils.ts:46-79 | After one element is added, a later one passes the checks exactly when it passed them before and the two name different pairs, with no `*` tag when they name the same plugin |
| FilterUtils.AddFilterElementsOkIff | src/utils/filter-utils.ts:21-80 | Adding a list of elements succeeds exactly when each is acceptable against the filters so far and the elements are pairwise compatible |
| FilterUtils.ParsedFiltersOkIff | src/utils/filter-utils.ts:3-83 | A list that is not universal parses exactly when it has no bare `*`, no empty side of a dot, no element twice (ignoring case) and a `*` tag only for a plugin no other element names |
| FilterUtils.TagsWithNewTag | src/utils/filter-utils.ts:59-79 | A tag that passes the duplicate and wildcard checks keeps the plugin's tags well formed |
| Plugins.NewVersionString | src/plugins/plugin.ts:51-64 | DOT: an explicit rule gives the literal, and a pattern fails exactly when the dot regex does not read the old version. A pattern that succeeds writes the updated record with `.`, unpadded. COMMA: fails exactly when the comma regex does not read the old version or an explicit literal is not read whole by the dot regex, with the message of the parse that failed; on success writes the updated record with `,`, padded to four parts |
| Plugins.ApplyEntry | src/plugins/plugin.ts:45-72 | An entry does nothing exactly when its regex does not match with one capture group. Otherwise it fails exactly when the capture is missing (with the runtime's message) or the new version fails (with its message), and else records the trimmed capture and its new version and rewrites the content |
| Plugins.Run | src/plugins/plugin.ts:42-73 | The records only grow, by at most one per entry |
| Plugins.Plugin.constructor | src/plugins/plugin.ts:32-35 | Keeps the list of version regexes |
| Plugins.Plugin.UpdateFile | src/plugins/plugin.ts:40-87 | The loop gives exactly `FileUpdate` of the plugin's regexes |
| Plugins.NewVersion | src/plugins/plugin.ts:51-64 | The switch on the delimiter equals `NewVersionString` |
| Plugins.NoUpdateIffNoneApplies | src/plugins/plugin.ts:43-86 | The result is `null` exactly when no regex matches the file with one capture group |
| Plugins.NoRecordIffNoneApplies | src/plugins/plugin.ts:43-73 | From any state, a run adds no record exactly when no entry applies to the content it starts from |
| Plugins.RunSkipsAll | src/plugins/plugin.ts:46 | Entries that do not apply leave content and records as they were |
| Plugins.RunAppend | src/plugins/plugin.ts:43-66 | Running two lists of entries one after the other equals running their concatenation: each entry sees the content the earlier ones left |
| Plugins.UpdateRecordCount | src/plugins/plugin.ts:67-86 | An update that happens holds between one record and as many records as there are regexes |
| Plugins.FirstFailureStops | src/plugins/plugin.ts:43-64 | When the first regex that applies fails, the whole update fails with its message |
| Plugins.SpliceAtFirstOccurrence | src/plugins/plugin.ts:65-66 | The rewrite replaces the old version at one place only: its first occurrence inside the first occurrence of the matched text. Everything before and after is kept |
| Plugins.EmptyOldVersionIsPrefixed | src/plugins/plugin.ts:49-65 | A capture that trims to nothing puts the new version in front of the matched text |
| Plugins.CommaVersionIsPadded | src/plugins/plugin.ts:57-61 | A COMMA entry always writes four comma-separated parts that read back with the comma regex |
| Plugins.CommaExplicitVersion | src/plugins/plugin.ts:57-61 | An explicit dotted version of one to four numbers is written by a COMMA entry with commas and padded with zeros to four parts (explicit `4.5.6` on `1,2,3,0` gives `4,5,6,0`) |

## Left out

- I/O, the GitHub Actions entry point and the file walker (`src/index.ts`, `src/updater.ts`) are not part of this model. They read inputs, glob files and write them back.
- The per-file-type plugins (`src/plugins/*-plugin.ts`, `src/plugins/plugins.ts`) are not part of this model. They hold tables of regular expressions and a file-extension test. A plugin's regex is a parameter here: a function from the content to an optional match with its capture groups.
- The JavaScript regex engine is not modelled. The three version regexes are hand-written recognisers. A plugin regex's `lastIndex` state (global or sticky flags) is not modelled.
- `String.prototype.replace` is modelled as a literal replacement of the first occurrence. `$` substitution patterns in the replacement text (for example a new version containing `$&`) are not modelled.
- `trim` is modelled on ECMAScript's whitespace and line terminators. `toLowerCase` is modelled on ASCII letters only, so Unicode case mapping is not modelled.
- Version parts are unbounded naturals. JavaScript's floating-point `number` and `parseInt`'s precision loss above 2^53 are not modelled.
- VersionUtils.ParseVersionPartUpdateRule: a present group that is no slot token gives Remove, where `parseInt` would read a leading number out of junk. The rule regex only ever captures slot tokens, so this case is not reached.
- Plugins.NewVersionString: the source's default branch for an unknown delimiter ("Unexpected version part delimiter") cannot be reached, because the delimiter is a closed datatype of DOT and COMMA.
- Plugins.ApplyEntry: a missing capture fails with the message of the `TypeError` the JavaScript runtime raises. The exact wording of that message depends on the runtime.
- The tag filter is modelled on sequences of values. The source pushes a tag onto the filter object it found, in place. The model updates that filter at its index, with the same resulting list.
