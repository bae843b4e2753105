/** The tag filter: a comma-separated list of `plugin.tag` elements that selects which file
    types, and which tags inside them, the updater touches. Parsing groups the elements by
    plugin (names compared without letter case, the first spelling kept) and rejects a bare
    `*` element, an element with an empty side of its dot, a repeated element, and a `*` tag
    that is not the only tag of its plugin. */
module FilterUtils {
  import opened Wrappers
  import opened Text

  datatype TagFilter = TagFilter(tagName: string, originalTagName: string)

  datatype PluginFilter = PluginFilter(pluginName: string, originalPluginName: string, tagFilters: seq<TagFilter>)

  const WILDCARD: string := "*"

  /** The filter that selects every tag of every plugin. */
  function UniversalFilter(originalPluginName: string): PluginFilter {
    PluginFilter(WILDCARD, originalPluginName, [TagFilter(WILDCARD, "")])
  }

  function OnlyElementMessage(list: string): string {
    "'*' must be the only element in the tag filter list: '" + list + "'."
  }

  function InvalidFilterMessage(element: string, list: string): string {
    "'" + element + "' is not a valid filter in the tag filter list: '" + list + "'."
  }

  function DuplicateFilterMessage(element: string, list: string): string {
    "Duplicate filter: '" + element + "' in the tag filter list: '" + list + "'."
  }

  function OnlyFilterMessage(element: string, pluginName: string, list: string): string {
    "'" + element + "' must be the only filter for the '" + pluginName + "' file type in the tag filter list: '" + list + "'."
  }

  /** An element split at its first dot into a plugin name and a tag; an element without a dot
      names every tag of the plugin. `None` when a side of the dot is empty. */
  function SplitElement(element: string): (r: Option<(string, string)>)
    ensures r.None? <==>
      '.' in element && (element[0] == '.' || (element[|element| - 1] == '.' && '.' !in element[..|element| - 1]))
    ensures r.Some? && '.' !in element ==> r.value == (element, WILDCARD)
    ensures r.Some? && '.' in element ==>
      && r.value.0 + "." + r.value.1 == element
      && r.value.0 != [] && r.value.1 != [] && '.' !in r.value.0
  {
    var dotPosition := IndexOfChar(element, '.');
    if dotPosition != -1 then
      if dotPosition == 0 || dotPosition == |element| - 1 then
        None
      else
        var name, tag := element[..dotPosition], element[dotPosition + 1..];
        assert name + "." + tag == element;
        assert element[0] == element[..dotPosition][0];
        assert element[..|element| - 1][dotPosition] == '.';
        Some((name, tag))
    else
      Some((element, WILDCARD))
  }

  /** `Array.prototype.find` on the plugin filters: the first one with the given (lower-cased)
      name, given by its index. */
  function FindPlugin(filters: seq<PluginFilter>, name: string): (r: Option<nat>)
    ensures r.Some? ==> r.value < |filters| && filters[r.value].pluginName == name
    ensures r.Some? ==> forall i :: 0 <= i < r.value ==> filters[i].pluginName != name
    ensures r.None? ==> forall i :: 0 <= i < |filters| ==> filters[i].pluginName != name
  {
    FindPluginFrom(filters, name, 0)
  }

  function FindPluginFrom(filters: seq<PluginFilter>, name: string, start: nat): (r: Option<nat>)
    requires start <= |filters|
    ensures r.Some? ==> start <= r.value < |filters| && filters[r.value].pluginName == name
    ensures r.Some? ==> forall i :: start <= i < r.value ==> filters[i].pluginName != name
    ensures r.None? ==> forall i :: start <= i < |filters| ==> filters[i].pluginName != name
    decreases |filters| - start
  {
    if start == |filters| then None
    else if filters[start].pluginName == name then Some(start)
    else FindPluginFrom(filters, name, start + 1)
  }

  predicate HasTag(tags: seq<TagFilter>, name: string) {
    exists k :: 0 <= k < |tags| && tags[k].tagName == name
  }

  /** One element added to the filters built from the elements before it. */
  function AddFilterElement(filters: seq<PluginFilter>, rawElement: string, list: string): (r: Result<seq<PluginFilter>>)
  {
    var element := Trim(rawElement);
    if element == WILDCARD then Err(OnlyElementMessage(list))
    else
      match SplitElement(element)
      case None => Err(InvalidFilterMessage(element, list))
      case Some((pluginName, pluginTag)) => AddSplitElement(filters, element, pluginName, pluginTag, list)
  }

  /** A split element added: its plugin filter found or created, then the duplicate and
      wildcard checks, then the tag appended. */
  function AddSplitElement(filters: seq<PluginFilter>, element: string, pluginName: string, pluginTag: string, list: string): (r: Result<seq<PluginFilter>>)
  {
    var nameLower, tagLower := ToLower(pluginName), ToLower(pluginTag);
    var (filters, j) := PluginSlot(filters, nameLower, pluginName);
    var filter := filters[j];
    if HasTag(filter.tagFilters, tagLower) then Err(DuplicateFilterMessage(element, list))
    else if |filter.tagFilters| > 0 && tagLower == WILDCARD then Err(OnlyFilterMessage(element, pluginName, list))
    else if |filter.tagFilters| > 0 && filter.tagFilters[0].tagName == WILDCARD then
      Err(OnlyFilterMessage(filter.originalPluginName + ".*", filter.originalPluginName, list))
    else Ok(AddTag(filters, j, TagFilter(tagLower, pluginTag)))
  }

  /** The filters with a plugin filter for `nameLower` (a new one, without tags, appended when
      there is none yet) and its index. */
  function PluginSlot(filters: seq<PluginFilter>, nameLower: string, pluginName: string): (r: (seq<PluginFilter>, nat))
    ensures r.1 < |r.0| && r.0[r.1].pluginName == nameLower
  {
    match FindPlugin(filters, nameLower)
    case None => (filters + [PluginFilter(nameLower, pluginName, [])], |filters|)
    case Some(j) => (filters, j)
  }

  lemma PluginSlotCases(filters: seq<PluginFilter>, nameLower: string, pluginName: string)
    ensures FindPlugin(filters, nameLower).None? ==>
      PluginSlot(filters, nameLower, pluginName) == (filters + [PluginFilter(nameLower, pluginName, [])], |filters|)
    ensures FindPlugin(filters, nameLower).Some? ==>
      PluginSlot(filters, nameLower, pluginName) == (filters, FindPlugin(filters, nameLower).value)
  {
  }

  /** The filters with `tag` appended to the tags of plugin filter `j`. */
  function AddTag(filters: seq<PluginFilter>, j: nat, tag: TagFilter): (r: seq<PluginFilter>)
    requires j < |filters|
  {
    filters[j := filters[j].(tagFilters := filters[j].tagFilters + [tag])]
  }

  /** The elements added one after the other; the first error stops the parse. */
  function AddFilterElements(filters: seq<PluginFilter>, elements: seq<string>, list: string): (r: Result<seq<PluginFilter>>)
    decreases |elements|
  {
    if elements == [] then Ok(filters)
    else
      match AddFilterElement(filters, elements[0], list)
      case Err(message) => Err(message)
      case Ok(next) => AddFilterElements(next, elements[1..], list)
  }

  lemma AddFilterElementsStep(filters: seq<PluginFilter>, elements: seq<string>, list: string)
    requires elements != []
    ensures AddFilterElement(filters, elements[0], list).Err? ==>
      AddFilterElements(filters, elements, list) == Err(AddFilterElement(filters, elements[0], list).message)
    ensures AddFilterElement(filters, elements[0], list).Ok? ==>
      AddFilterElements(filters, elements, list)
      == AddFilterElements(AddFilterElement(filters, elements[0], list).value, elements[1..], list)
  {
  }

  /** What parsing a tag filter gives: the universal filter for a missing, blank or `*` list,
      otherwise the comma-separated elements added in order. */
  function ParsedFilters(input: Option<string>): (r: Result<seq<PluginFilter>>)
  {
    var trimmed := TrimmedList(input);
    if IsUniversalList(trimmed) then
      Ok([UniversalFilter(trimmed.GetOr(""))])
    else
      AddFilterElements([], Split(trimmed.value, ','), trimmed.value)
  }

  /** The list with surrounding whitespace removed; `None` when there is no list. */
  function TrimmedList(input: Option<string>): Option<string> {
    if input.Some? then Some(Trim(input.value)) else None
  }

  /** A missing, blank or `*` list selects everything. */
  predicate IsUniversalList(trimmed: Option<string>) {
    trimmed.None? || trimmed.value == WILDCARD || trimmed.value == ""
  }

  /** The parser as the source runs it: the universal filter for a missing, blank or `*`
      list, otherwise a loop over the comma-separated elements. */
  method ParsePluginTagFilterString(pluginTagFilterString: Option<string>) returns (r: Result<seq<PluginFilter>>)
    ensures r == ParsedFilters(pluginTagFilterString)
  {
    var trimmed := TrimmedList(pluginTagFilterString);
    if IsUniversalList(trimmed) {
      var result: seq<PluginFilter> := [];
      result := result + [UniversalFilter(trimmed.GetOr(""))];
      assert result == [UniversalFilter(trimmed.GetOr(""))];
      r := Ok(result);
    } else {
      r := AddElements(Split(trimmed.value, ','), trimmed.value);
    }
  }

  /** The loop: each element added to the filters built so far, returning at the first error. */
  method AddElements(filterStringParts: seq<string>, list: string) returns (r: Result<seq<PluginFilter>>)
    ensures r == AddFilterElements([], filterStringParts, list)
  {
    var result: seq<PluginFilter> := [];
    var i := 0;
    while i < |filterStringParts|
      invariant 0 <= i <= |filterStringParts|
      invariant AddFilterElements(result, filterStringParts[i..], list) == AddFilterElements([], filterStringParts, list)
    {
      AddFilterElementsStep(result, filterStringParts[i..], list);
      assert filterStringParts[i..][0] == filterStringParts[i];
      var step := AddElement(result, filterStringParts[i], list);
      if step.Err? {
        return Err(step.message);
      }
      result := step.value;
      assert filterStringParts[i..][1..] == filterStringParts[i + 1..];
      i := i + 1;
    }
    assert filterStringParts[i..] == [];
    return Ok(result);
  }

  /** The body of the parser's loop for one element: trim it, reject a bare `*`, split it at
      its first dot, and add it. */
  method AddElement(result: seq<PluginFilter>, rawElement: string, list: string) returns (r: Result<seq<PluginFilter>>)
    ensures r == AddFilterElement(result, rawElement, list)
  {
    var filterStringPart := Trim(rawElement);
    if filterStringPart == WILDCARD {
      return Err(OnlyElementMessage(list));
    }
    var split := SplitAtDot(filterStringPart);
    if split.None? {
      return Err(InvalidFilterMessage(filterStringPart, list));
    }
    var (pluginName, pluginTag) := split.value;
    r := AddToPlugin(result, filterStringPart, pluginName, pluginTag, list);
  }

  /** The split at the first dot, as the loop does it: `None` for an empty side. */
  method SplitAtDot(filterStringPart: string) returns (r: Option<(string, string)>)
    ensures r == SplitElement(filterStringPart)
  {
    var dotPosition := IndexOfChar(filterStringPart, '.');
    if dotPosition != -1 {
      if dotPosition == 0 || dotPosition == |filterStringPart| - 1 {
        return None;
      }
      return Some((filterStringPart[..dotPosition], filterStringPart[dotPosition + 1..]));
    }
    return Some((filterStringPart, WILDCARD));
  }

  /** Finds the element's plugin filter or pushes a new one, runs the duplicate and wildcard
      checks, and appends the tag. */
  method AddToPlugin(result: seq<PluginFilter>, element: string, pluginName: string, pluginTag: string, list: string)
    returns (r: Result<seq<PluginFilter>>)
    ensures r == AddSplitElement(result, element, pluginName, pluginTag, list)
  {
    var pluginNameLowerCase, pluginTagLowerCase := ToLower(pluginName), ToLower(pluginTag);
    PluginSlotCases(result, pluginNameLowerCase, pluginName);
    var filters := result;
    var found := FindPlugin(filters, pluginNameLowerCase);
    var j;
    if found.None? {
      filters := filters + [PluginFilter(pluginNameLowerCase, pluginName, [])];
      j := |filters| - 1;
    } else {
      j := found.value;
    }
    var resultPluginFilter := filters[j];
    if HasTag(resultPluginFilter.tagFilters, pluginTagLowerCase) {
      return Err(DuplicateFilterMessage(element, list));
    } else if |resultPluginFilter.tagFilters| > 0 {
      if pluginTagLowerCase == WILDCARD {
        return Err(OnlyFilterMessage(element, pluginName, list));
      } else if resultPluginFilter.tagFilters[0].tagName == WILDCARD {
        var original := resultPluginFilter.originalPluginName;
        return Err(OnlyFilterMessage(original + ".*", original, list));
      }
    }
    filters := filters[j := resultPluginFilter.(tagFilters := resultPluginFilter.tagFilters + [TagFilter(pluginTagLowerCase, pluginTag)])];
    return Ok(filters);
  }

  // ----- What a successful parse guarantees -----

  /** Tags of one plugin: at least one, no name twice, and `*` only as the sole tag. */
  predicate TagsWellFormed(tags: seq<TagFilter>) {
    && |tags| > 0
    && (forall k, l :: 0 <= k < l < |tags| ==> tags[k].tagName != tags[l].tagName)
    && (forall k :: 0 <= k < |tags| && tags[k].tagName == WILDCARD ==> |tags| == 1)
  }

  predicate DistinctNames(filters: seq<PluginFilter>) {
    forall i, j :: 0 <= i < j < |filters| ==> filters[i].pluginName != filters[j].pluginName
  }

  /** No plugin twice, and the tags of each well formed. */
  predicate WellFormed(filters: seq<PluginFilter>) {
    && DistinctNames(filters)
    && (forall i :: 0 <= i < |filters| ==> TagsWellFormed(filters[i].tagFilters))
  }

  /** Each stored name is the lower-cased spelling it was written with. */
  predicate PluginLowered(filter: PluginFilter) {
    && filter.pluginName == ToLower(filter.originalPluginName)
    && forall k :: 0 <= k < |filter.tagFilters| ==>
         filter.tagFilters[k].tagName == ToLower(filter.tagFilters[k].originalTagName)
  }

  predicate Lowered(filters: seq<PluginFilter>) {
    forall i :: 0 <= i < |filters| ==> PluginLowered(filters[i])
  }

  /** `after` keeps every plugin of `before` at its place, with its spelling, and with its tags
      as a prefix of the new ones; new plugins come after the old. */
  predicate Extends(before: seq<PluginFilter>, after: seq<PluginFilter>) {
    && |before| <= |after|
    && forall i :: 0 <= i < |before| ==>
         && after[i].pluginName == before[i].pluginName
         && after[i].originalPluginName == before[i].originalPluginName
         && before[i].tagFilters <= after[i].tagFilters
  }

  /** The number of tag filters over all plugins. */
  function TagCount(filters: seq<PluginFilter>): nat {
    if filters == [] then 0 else TagCount(filters[..|filters| - 1]) + |filters[|filters| - 1].tagFilters|
  }

  /** Some plugin filter with this name holds a tag filter with this name. */
  predicate Selects(filters: seq<PluginFilter>, pluginName: string, tagName: string) {
    exists i :: 0 <= i < |filters| && filters[i].pluginName == pluginName && HasTag(filters[i].tagFilters, tagName)
  }

  /** The lower-cased plugin and tag an element names, when it names one. */
  function ElementKey(rawElement: string): Option<(string, string)> {
    match SplitElement(Trim(rawElement))
    case None => None
    case Some((name, tag)) => Some((ToLower(name), ToLower(tag)))
  }

  lemma {:induction false} TagCountUpdate(filters: seq<PluginFilter>, j: nat, filter: PluginFilter)
    requires j < |filters|
    ensures TagCount(filters[j := filter]) + |filters[j].tagFilters| == TagCount(filters) + |filter.tagFilters|
    decreases |filters|
  {
    var updated := filters[j := filter];
    var n := |filters| - 1;
    if j < n {
      TagCountUpdate(filters[..n], j, filter);
      assert updated[..n] == filters[..n][j := filter];
    } else {
      assert updated[..n] == filters[..n];
    }
  }

  lemma TagsWithNewTag(tags: seq<TagFilter>, tag: TagFilter)
    requires tags == [] || TagsWellFormed(tags)
    requires !HasTag(tags, tag.tagName)
    requires |tags| > 0 ==> tag.tagName != WILDCARD && tags[0].tagName != WILDCARD
    ensures TagsWellFormed(tags + [tag])
  {
    var after := tags + [tag];
    forall k, l | 0 <= k < l < |after| ensures after[k].tagName != after[l].tagName {
      if l == |tags| {
        assert after[k] == tags[k];
      }
    }
  }

  /** Finding or creating the plugin filter keeps the names distinct and lower-cased and the
      other filters as they were; a found filter has well-formed tags, a new one none. */
  lemma PluginSlotFacts(filters: seq<PluginFilter>, nameLower: string, pluginName: string)
    requires WellFormed(filters) && Lowered(filters) && nameLower == ToLower(pluginName)
    ensures var (grown, j) := PluginSlot(filters, nameLower, pluginName);
      && DistinctNames(grown) && Lowered(grown) && Extends(filters, grown)
      && TagCount(grown) == TagCount(filters)
      && (forall i :: 0 <= i < |grown| && i != j ==> TagsWellFormed(grown[i].tagFilters))
      && (grown[j].tagFilters == [] || TagsWellFormed(grown[j].tagFilters))
  {
    PluginSlotCases(filters, nameLower, pluginName);
    if FindPlugin(filters, nameLower).None? {
      AppendNewPlugin(filters, PluginFilter(nameLower, pluginName, []));
    }
  }

  /** A plugin filter without tags for a new name keeps the filters' names distinct and
      lower-cased, and changes no tag. */
  lemma AppendNewPlugin(filters: seq<PluginFilter>, filter: PluginFilter)
    requires WellFormed(filters) && Lowered(filters)
    requires PluginLowered(filter) && filter.tagFilters == []
    requires forall i :: 0 <= i < |filters| ==> filters[i].pluginName != filter.pluginName
    ensures var grown := filters + [filter];
      && DistinctNames(grown) && Lowered(grown) && Extends(filters, grown)
      && TagCount(grown) == TagCount(filters)
      && (forall i :: 0 <= i < |filters| ==> TagsWellFormed(grown[i].tagFilters))
  {
    var grown := filters + [filter];
    assert forall i :: 0 <= i < |filters| ==> grown[i] == filters[i];
    assert grown[|filters|] == filter;
    forall i, j | 0 <= i < j < |grown| ensures grown[i].pluginName != grown[j].pluginName {
      if j == |filters| {
        assert grown[i].pluginName == filters[i].pluginName;
      }
    }
    forall i | 0 <= i < |grown| ensures PluginLowered(grown[i]) {
      if i < |filters| {
        assert PluginLowered(filters[i]);
      }
    }
    assert grown[..|grown| - 1] == filters;
  }

  /** Appending an acceptable tag to one plugin filter makes the filters well formed, adds one
      tag filter, and selects that plugin and tag. */
  lemma AddTagFacts(grown: seq<PluginFilter>, j: nat, tag: TagFilter)
    requires j < |grown| && DistinctNames(grown) && Lowered(grown)
    requires forall i :: 0 <= i < |grown| && i != j ==> TagsWellFormed(grown[i].tagFilters)
    requires TagsWellFormed(grown[j].tagFilters + [tag])
    requires tag.tagName == ToLower(tag.originalTagName)
    ensures var after := AddTag(grown, j, tag);
      && WellFormed(after) && Lowered(after) && Extends(grown, after)
      && TagCount(after) == TagCount(grown) + 1
      && Selects(after, grown[j].pluginName, tag.tagName)
  {
    var after := AddTag(grown, j, tag);
    AddTagWellFormed(grown, j, tag);
    AddTagLowered(grown, j, tag);
    AddTagExtends(grown, j, tag);
    TagCountUpdate(grown, j, after[j]);
    assert HasTag(after[j].tagFilters, tag.tagName) by {
      assert after[j].tagFilters[|grown[j].tagFilters|] == tag;
    }
    assert after[j].pluginName == grown[j].pluginName;
  }

  lemma AddTagExtends(grown: seq<PluginFilter>, j: nat, tag: TagFilter)
    requires j < |grown|
    ensures Extends(grown, AddTag(grown, j, tag))
  {
    var after := AddTag(grown, j, tag);
    assert grown[j].tagFilters <= after[j].tagFilters;
    assert forall i :: 0 <= i < |after| && i != j ==> after[i] == grown[i];
  }

  lemma AddTagWellFormed(grown: seq<PluginFilter>, j: nat, tag: TagFilter)
    requires j < |grown| && DistinctNames(grown)
    requires forall i :: 0 <= i < |grown| && i != j ==> TagsWellFormed(grown[i].tagFilters)
    requires TagsWellFormed(grown[j].tagFilters + [tag])
    ensures WellFormed(AddTag(grown, j, tag))
  {
    var after := AddTag(grown, j, tag);
    assert forall i :: 0 <= i < |after| ==> after[i].pluginName == grown[i].pluginName;
    assert forall i :: 0 <= i < |after| && i != j ==> after[i] == grown[i];
  }

  lemma AddTagLowered(grown: seq<PluginFilter>, j: nat, tag: TagFilter)
    requires j < |grown| && Lowered(grown)
    requires tag.tagName == ToLower(tag.originalTagName)
    ensures Lowered(AddTag(grown, j, tag))
  {
    var after := AddTag(grown, j, tag);
    var tags := after[j].tagFilters;
    assert PluginLowered(grown[j]);
    forall k | 0 <= k < |tags| ensures tags[k].tagName == ToLower(tags[k].originalTagName) {
      if k < |grown[j].tagFilters| {
        assert tags[k] == grown[j].tagFilters[k];
      }
    }
    assert PluginLowered(after[j]);
    assert forall i :: 0 <= i < |after| && i != j ==> after[i] == grown[i];
  }

  lemma ExtendsTransitive(a: seq<PluginFilter>, b: seq<PluginFilter>, c: seq<PluginFilter>)
    requires Extends(a, b) && Extends(b, c)
    ensures Extends(a, c)
  {
  }

  /** A successful step keeps the filters well formed and lower-cased, extends them, adds
      exactly one tag filter, and selects the element's plugin and tag. */
  lemma AddFilterElementOk(filters: seq<PluginFilter>, rawElement: string, list: string)
    requires WellFormed(filters) && Lowered(filters)
    requires AddFilterElement(filters, rawElement, list).Ok?
    ensures var after := AddFilterElement(filters, rawElement, list).value;
      && WellFormed(after) && Lowered(after) && Extends(filters, after)
      && TagCount(after) == TagCount(filters) + 1
      && ElementSelected(after, rawElement)
  {
    var element := Trim(rawElement);
    var (pluginName, pluginTag) := SplitElement(element).value;
    var nameLower, tagLower := ToLower(pluginName), ToLower(pluginTag);
    var (grown, j) := PluginSlot(filters, nameLower, pluginName);
    var tag := TagFilter(tagLower, pluginTag);
    PluginSlotFacts(filters, nameLower, pluginName);
    TagsWithNewTag(grown[j].tagFilters, tag);
    AddTagFacts(grown, j, tag);
    ExtendsTransitive(filters, grown, AddTag(grown, j, tag));
  }

  /** The element names a plugin and tag, and the filters select them. */
  predicate ElementSelected(filters: seq<PluginFilter>, rawElement: string) {
    ElementKey(rawElement).Some? && Selects(filters, ElementKey(rawElement).value.0, ElementKey(rawElement).value.1)
  }

  predicate AllSelected(filters: seq<PluginFilter>, elements: seq<string>) {
    forall k :: 0 <= k < |elements| ==> ElementSelected(filters, elements[k])
  }

  lemma AllSelectedCons(filters: seq<PluginFilter>, elements: seq<string>)
    requires elements != [] && ElementSelected(filters, elements[0]) && AllSelected(filters, elements[1..])
    ensures AllSelected(filters, elements)
  {
    forall k | 0 <= k < |elements| ensures ElementSelected(filters, elements[k]) {
      if k > 0 {
        assert elements[k] == elements[1..][k - 1];
      }
    }
  }

  /** Parsing a list of elements gives well-formed, lower-cased filters that extend the ones
      before, with one more tag filter per element, and every element's plugin and tag
      selected. */
  lemma {:induction false} AddFilterElementsOk(filters: seq<PluginFilter>, elements: seq<string>, list: string)
    requires WellFormed(filters) && Lowered(filters)
    requires AddFilterElements(filters, elements, list).Ok?
    ensures var after := AddFilterElements(filters, elements, list).value;
      && WellFormed(after) && Lowered(after) && Extends(filters, after)
      && TagCount(after) == TagCount(filters) + |elements|
      && AllSelected(after, elements)
    decreases |elements|
  {
    if elements != [] {
      AddFilterElementsStep(filters, elements, list);
      var next := AddFilterElement(filters, elements[0], list).value;
      AddFilterElementOk(filters, elements[0], list);
      AddFilterElementsOk(next, elements[1..], list);
      var after := AddFilterElements(next, elements[1..], list).value;
      ExtendsTransitive(filters, next, after);
      var key := ElementKey(elements[0]).value;
      SelectsExtended(next, after, key.0, key.1);
      AllSelectedCons(after, elements);
    }
  }

  lemma SelectsExtended(before: seq<PluginFilter>, after: seq<PluginFilter>, pluginName: string, tagName: string)
    requires Extends(before, after) && Selects(before, pluginName, tagName)
    ensures Selects(after, pluginName, tagName)
  {
    var i :| 0 <= i < |before| && before[i].pluginName == pluginName && HasTag(before[i].tagFilters, tagName);
    var k :| 0 <= k < |before[i].tagFilters| && before[i].tagFilters[k].tagName == tagName;
    assert after[i].tagFilters[k] == before[i].tagFilters[k];
  }

  /** Every successful parse is well formed: plugins distinct, tags distinct within a plugin,
      and a `*` tag always the only tag of its plugin. */
  lemma ParsedFiltersWellFormed(input: Option<string>)
    ensures ParsedFilters(input).Ok? ==> WellFormed(ParsedFilters(input).value)
  {
    var trimmed := TrimmedList(input);
    if !IsUniversalList(trimmed) && ParsedFilters(input).Ok? {
      AddFilterElementsOk([], Split(trimmed.value, ','), trimmed.value);
    }
  }

  /** A list of several elements parses to filters that select exactly one tag per element,
      and select every element's plugin and tag. */
  lemma ParsedListSelectsElements(list: string)
    requires Trim(list) == list && list != "" && list != WILDCARD
    requires ParsedFilters(Some(list)).Ok?
    ensures var filters := ParsedFilters(Some(list)).value;
      var elements := Split(list, ',');
      && Lowered(filters)
      && TagCount(filters) == |elements|
      && AllSelected(filters, elements)
  {
    ParsedFiltersOfList(list);
    ElementsSelected(Split(list, ','), list);
  }

  lemma ElementsSelected(elements: seq<string>, list: string)
    requires AddFilterElements([], elements, list).Ok?
    ensures var filters := AddFilterElements([], elements, list).value;
      && Lowered(filters) && TagCount(filters) == |elements| && AllSelected(filters, elements)
  {
    AddFilterElementsOk([], elements, list);
  }

  lemma ParsedFiltersOfList(list: string)
    requires Trim(list) == list && list != "" && list != WILDCARD
    ensures ParsedFilters(Some(list)) == AddFilterElements([], Split(list, ','), list)
  {
    assert TrimmedList(Some(list)) == Some(list);
    assert !IsUniversalList(Some(list));
  }

  /** A missing, blank or `*` list gives the single universal filter, keeping the trimmed
      text (or nothing) as its spelling. */
  lemma UniversalFilterCases(input: Option<string>)
    ensures input.None? ==> ParsedFilters(input) == Ok([PluginFilter("*", "", [TagFilter("*", "")])])
    ensures input.Some? && Trim(input.value) == "" ==> ParsedFilters(input) == Ok([PluginFilter("*", "", [TagFilter("*", "")])])
    ensures input.Some? && Trim(input.value) == "*" ==> ParsedFilters(input) == Ok([PluginFilter("*", "*", [TagFilter("*", "")])])
  {
  }

  /** A list with a bare `*` element, or an element with an empty side of its dot, is
      rejected, whatever the other elements are. */
  lemma {:induction false} InvalidElementRejects(filters: seq<PluginFilter>, elements: seq<string>, list: string, k: nat)
    requires k < |elements| && (Trim(elements[k]) == WILDCARD || ElementKey(elements[k]).None?)
    ensures AddFilterElements(filters, elements, list).Err?
    decreases |elements|
  {
    if k == 0 {
      assert AddFilterElement(filters, elements[0], list).Err?;
    } else {
      match AddFilterElement(filters, elements[0], list)
      case Err(_) =>
      case Ok(next) =>
        assert elements[k] == elements[1..][k - 1];
        InvalidElementRejects(next, elements[1..], list, k - 1);
    }
  }

  /** An element that names a plugin and tag reaches the plugin lookup. */
  lemma AddFilterElementSplit(filters: seq<PluginFilter>, rawElement: string, list: string)
    requires ElementKey(rawElement).Some? && Trim(rawElement) != WILDCARD
    ensures var (pluginName, pluginTag) := SplitElement(Trim(rawElement)).value;
      AddFilterElement(filters, rawElement, list) == AddSplitElement(filters, Trim(rawElement), pluginName, pluginTag, list)
  {
  }

  /** The plugin filter found for an element's name is the one at `j` when no earlier filter
      has that name. */
  lemma SlotOfKnownPlugin(filters: seq<PluginFilter>, pluginName: string, j: nat)
    requires j < |filters| && filters[j].pluginName == ToLower(pluginName)
    requires forall i :: 0 <= i < j ==> filters[i].pluginName != filters[j].pluginName
    ensures PluginSlot(filters, ToLower(pluginName), pluginName) == (filters, j)
  {
  }

  /** An element whose tag a plugin already holds is a duplicate, even when it is `*`: the
      duplicate check comes before the wildcard checks. */
  lemma DuplicateBeforeWildcard(filters: seq<PluginFilter>, rawElement: string, list: string, j: nat)
    requires ElementKey(rawElement).Some? && Trim(rawElement) != WILDCARD
    requires j < |filters| && filters[j].pluginName == ElementKey(rawElement).value.0
    requires forall i :: 0 <= i < j ==> filters[i].pluginName != filters[j].pluginName
    requires HasTag(filters[j].tagFilters, ElementKey(rawElement).value.1)
    ensures AddFilterElement(filters, rawElement, list) == Err(DuplicateFilterMessage(Trim(rawElement), list))
  {
    var (pluginName, pluginTag) := SplitElement(Trim(rawElement)).value;
    AddFilterElementSplit(filters, rawElement, list);
    SlotOfKnownPlugin(filters, pluginName, j);
  }

  /** Adding `*` to a plugin that already has a tag names the element and its own spelling of
      the plugin; adding a tag to a plugin that has `*` names the plugin's first spelling. */
  lemma WildcardConflicts(filters: seq<PluginFilter>, rawElement: string, list: string, j: nat)
    requires ElementKey(rawElement).Some? && Trim(rawElement) != WILDCARD
    requires j < |filters| && filters[j].pluginName == ElementKey(rawElement).value.0
    requires forall i :: 0 <= i < j ==> filters[i].pluginName != filters[j].pluginName
    requires |filters[j].tagFilters| > 0 && !HasTag(filters[j].tagFilters, ElementKey(rawElement).value.1)
    ensures ElementKey(rawElement).value.1 == WILDCARD ==>
      AddFilterElement(filters, rawElement, list)
      == Err(OnlyFilterMessage(Trim(rawElement), SplitElement(Trim(rawElement)).value.0, list))
    ensures ElementKey(rawElement).value.1 != WILDCARD && filters[j].tagFilters[0].tagName == WILDCARD ==>
      AddFilterElement(filters, rawElement, list)
      == Err(OnlyFilterMessage(filters[j].originalPluginName + ".*", filters[j].originalPluginName, list))
  {
    var (pluginName, pluginTag) := SplitElement(Trim(rawElement)).value;
    AddFilterElementSplit(filters, rawElement, list);
    SlotOfKnownPlugin(filters, pluginName, j);
  }

  // ----- When a parse succeeds -----

  /** The tags already held for a (lower-cased) plugin name: none when there is no filter for
      it yet. */
  function PluginTags(filters: seq<PluginFilter>, nameLower: string): seq<TagFilter> {
    match FindPlugin(filters, nameLower)
    case None => []
    case Some(j) => filters[j].tagFilters
  }

  /** A tag passes the duplicate and wildcard checks against the plugin's tags. */
  predicate TagAcceptable(tags: seq<TagFilter>, tagLower: string) {
    && !HasTag(tags, tagLower)
    && (|tags| > 0 ==> tagLower != WILDCARD && tags[0].tagName != WILDCARD)
  }

  /** The element is no bare `*`, has no empty side of its dot, and its tag passes the checks
      against the filters built so far. */
  predicate ElementAcceptable(filters: seq<PluginFilter>, rawElement: string) {
    && Trim(rawElement) != WILDCARD
    && ElementKey(rawElement).Some?
    && TagAcceptable(PluginTags(filters, ElementKey(rawElement).value.0), ElementKey(rawElement).value.1)
  }

  /** Two elements that may stand in one list: they name different (plugin, tag) pairs, and
      when they name the same plugin neither names its tag `*`. */
  predicate Compatible(a: Option<(string, string)>, b: Option<(string, string)>) {
    && a.Some? && b.Some? && a.value != b.value
    && (a.value.0 == b.value.0 ==> a.value.1 != WILDCARD && b.value.1 != WILDCARD)
  }

  predicate PairwiseCompatible(elements: seq<string>) {
    forall k, l :: 0 <= k < l < |elements| ==> Compatible(ElementKey(elements[k]), ElementKey(elements[l]))
  }

  /** A list the parser accepts, stated without running it: no bare `*`, no element with an
      empty side of its dot, no element twice (ignoring case), and a `*` tag only for a plugin
      named by no other element. */
  predicate AcceptableElements(elements: seq<string>) {
    && (forall k :: 0 <= k < |elements| ==> Trim(elements[k]) != WILDCARD && ElementKey(elements[k]).Some?)
    && PairwiseCompatible(elements)
  }

  /** The elements can all be added to the filters built so far. */
  predicate Admissible(filters: seq<PluginFilter>, elements: seq<string>) {
    && PairwiseCompatible(elements)
    && forall k :: 0 <= k < |elements| ==> ElementAcceptable(filters, elements[k])
  }

  /** One step succeeds exactly when the element is acceptable. */
  lemma AddFilterElementOkIff(filters: seq<PluginFilter>, rawElement: string, list: string)
    ensures AddFilterElement(filters, rawElement, list).Ok? <==> ElementAcceptable(filters, rawElement)
  {
    var element := Trim(rawElement);
    if element != WILDCARD && SplitElement(element).Some? {
      var (pluginName, pluginTag) := SplitElement(element).value;
      var nameLower, tagLower := ToLower(pluginName), ToLower(pluginTag);
      AddFilterElementSplit(filters, rawElement, list);
      assert ElementKey(rawElement).value == (nameLower, tagLower);
      SlotHoldsTags(filters, nameLower, pluginName);
    }
  }

  /** The plugin filter found or created for a name holds that name's tags. */
  lemma SlotHoldsTags(filters: seq<PluginFilter>, nameLower: string, pluginName: string)
    ensures PluginSlot(filters, nameLower, pluginName).0[PluginSlot(filters, nameLower, pluginName).1].tagFilters
         == PluginTags(filters, nameLower)
  {
    PluginSlotCases(filters, nameLower, pluginName);
  }

  /** `find` looks at names only. */
  lemma FindPluginByNames(a: seq<PluginFilter>, b: seq<PluginFilter>, name: string)
    requires |a| == |b| && forall i :: 0 <= i < |a| ==> a[i].pluginName == b[i].pluginName
    ensures FindPlugin(a, name) == FindPlugin(b, name)
  {
    var x, y := FindPlugin(a, name), FindPlugin(b, name);
    if x.Some? && y.Some? {
      assert !(x.value < y.value) && !(y.value < x.value);
    }
  }

  /** A plugin filter appended for another name leaves `find` of a name as it was. */
  lemma FindPluginAppend(filters: seq<PluginFilter>, filter: PluginFilter, name: string)
    ensures filter.pluginName != name ==> FindPlugin(filters + [filter], name) == FindPlugin(filters, name)
    ensures filter.pluginName == name && FindPlugin(filters, name).None? ==>
      FindPlugin(filters + [filter], name) == Some(|filters|)
  {
    var grown := filters + [filter];
    assert forall i :: 0 <= i < |filters| ==> grown[i] == filters[i];
    assert grown[|filters|] == filter;
    var x, y := FindPlugin(grown, name), FindPlugin(filters, name);
    if x.Some? && y.Some? {
      assert !(x.value < y.value) && !(y.value < x.value);
    }
  }

  /** Filling the slot of a plugin appends the tag to that plugin's tags and changes no other
      plugin's tags. */
  lemma SlotTags(filters: seq<PluginFilter>, nameLower: string, pluginName: string, tag: TagFilter)
    ensures var (grown, j) := PluginSlot(filters, nameLower, pluginName);
      && grown[j].tagFilters == PluginTags(filters, nameLower)
      && PluginTags(AddTag(grown, j, tag), nameLower) == PluginTags(filters, nameLower) + [tag]
      && forall other :: other != nameLower ==> PluginTags(AddTag(grown, j, tag), other) == PluginTags(filters, other)
  {
    PluginSlotCases(filters, nameLower, pluginName);
    var (grown, j) := PluginSlot(filters, nameLower, pluginName);
    var after := AddTag(grown, j, tag);
    var created := PluginFilter(nameLower, pluginName, []);
    FindPluginAppend(filters, created, nameLower);
    assert FindPlugin(grown, nameLower) == Some(j);
    FindPluginByNames(after, grown, nameLower);
    forall other | other != nameLower
      ensures PluginTags(after, other) == PluginTags(filters, other)
    {
      FindPluginByNames(after, grown, other);
      FindPluginAppend(filters, created, other);
      var f := FindPlugin(grown, other);
      if f.Some? {
        assert f.value != j;
        assert after[f.value] == grown[f.value];
      }
    }
  }

  /** A successful step appends the element's tag to its plugin's tags and changes no other
      plugin's tags. */
  lemma AddFilterElementTags(filters: seq<PluginFilter>, rawElement: string, list: string)
    requires ElementAcceptable(filters, rawElement)
    ensures AddFilterElement(filters, rawElement, list).Ok?
    ensures var after := AddFilterElement(filters, rawElement, list).value;
      var (nameLower, tagLower) := ElementKey(rawElement).value;
      && PluginTags(after, nameLower) == PluginTags(filters, nameLower) + [TagFilter(tagLower, SplitElement(Trim(rawElement)).value.1)]
      && forall other :: other != nameLower ==> PluginTags(after, other) == PluginTags(filters, other)
  {
    AddFilterElementOkIff(filters, rawElement, list);
    var (pluginName, pluginTag) := SplitElement(Trim(rawElement)).value;
    var nameLower, tagLower := ToLower(pluginName), ToLower(pluginTag);
    var tag := TagFilter(tagLower, pluginTag);
    SlotTags(filters, nameLower, pluginName, tag);
    var (grown, j) := PluginSlot(filters, nameLower, pluginName);
    AddFilterElementSplit(filters, rawElement, list);
    assert AddFilterElement(filters, rawElement, list) == Ok(AddTag(grown, j, tag));
  }

  lemma HasTagAppend(tags: seq<TagFilter>, tag: TagFilter, name: string)
    ensures HasTag(tags + [tag], name) <==> HasTag(tags, name) || tag.tagName == name
  {
    var all := tags + [tag];
    if HasTag(tags, name) {
      var k :| 0 <= k < |tags| && tags[k].tagName == name;
      assert all[k] == tags[k];
    }
    if tag.tagName == name {
      assert all[|tags|] == tag;
    }
  }

  /** Once an acceptable tag is appended, another tag passes the checks exactly when it passed
      them before, differs from the appended one, and neither is `*`. */
  lemma TagAcceptableAfter(tags: seq<TagFilter>, tag: TagFilter, tagLower: string)
    requires TagAcceptable(tags, tag.tagName)
    ensures TagAcceptable(tags + [tag], tagLower)
        <==> TagAcceptable(tags, tagLower) && tag.tagName != tagLower && tag.tagName != WILDCARD && tagLower != WILDCARD
  {
    HasTagAppend(tags, tag, tagLower);
    if |tags| > 0 {
      assert (tags + [tag])[0] == tags[0];
    } else {
      assert (tags + [tag])[0] == tag;
    }
  }

  /** With the first element acceptable, a later element passes the checks after the first
      is added exactly when it passes them before and the two may stand in one list. */
  lemma LaterElementAcceptable(filters: seq<PluginFilter>, first: string, later: string, list: string)
    requires ElementAcceptable(filters, first)
    ensures AddFilterElement(filters, first, list).Ok?
    ensures ElementAcceptable(AddFilterElement(filters, first, list).value, later)
        <==> ElementAcceptable(filters, later) && Compatible(ElementKey(first), ElementKey(later))
  {
    AddFilterElementTags(filters, first, list);
    var after := AddFilterElement(filters, first, list).value;
    var tag0 := TagFilter(ElementKey(first).value.1, SplitElement(Trim(first)).value.1);
    LaterAcceptableOn(filters, after, first, tag0, later);
  }

  /** `LaterElementAcceptable` for any filters that hold the first element's tag appended to
      its plugin's tags and every other plugin's tags unchanged. */
  lemma LaterAcceptableOn(filters: seq<PluginFilter>, after: seq<PluginFilter>, first: string, tag0: TagFilter, later: string)
    requires ElementAcceptable(filters, first) && tag0.tagName == ElementKey(first).value.1
    requires PluginTags(after, ElementKey(first).value.0) == PluginTags(filters, ElementKey(first).value.0) + [tag0]
    requires forall other :: other != ElementKey(first).value.0 ==> PluginTags(after, other) == PluginTags(filters, other)
    ensures ElementAcceptable(after, later) <==> ElementAcceptable(filters, later) && Compatible(ElementKey(first), ElementKey(later))
  {
    var p0 := ElementKey(first).value.0;
    if Trim(later) != WILDCARD && ElementKey(later).Some? {
      var (p, t) := ElementKey(later).value;
      if p == p0 {
        TagAcceptableAfter(PluginTags(filters, p), tag0, t);
      } else {
        assert PluginTags(after, p) == PluginTags(filters, p);
      }
    }
  }

  /** With the first element acceptable, the list is admissible exactly when the rest is
      admissible after the first is added. */
  lemma AdmissibleCons(filters: seq<PluginFilter>, elements: seq<string>, list: string)
    requires elements != [] && ElementAcceptable(filters, elements[0])
    ensures AddFilterElement(filters, elements[0], list).Ok?
    ensures Admissible(filters, elements) <==> Admissible(AddFilterElement(filters, elements[0], list).value, elements[1..])
  {
    AddFilterElementOkIff(filters, elements[0], list);
    var after := AddFilterElement(filters, elements[0], list).value;
    forall l | 1 <= l < |elements|
      ensures ElementAcceptable(after, elements[l])
          <==> ElementAcceptable(filters, elements[l]) && Compatible(ElementKey(elements[0]), ElementKey(elements[l]))
    {
      LaterElementAcceptable(filters, elements[0], elements[l], list);
    }
    AdmissibleShift(filters, after, elements);
  }

  /** The list rule behind `AdmissibleCons`, for any filters `after` on which each later
      element is acceptable exactly when it was before and is compatible with the first. */
  lemma AdmissibleShift(filters: seq<PluginFilter>, after: seq<PluginFilter>, elements: seq<string>)
    requires elements != [] && ElementAcceptable(filters, elements[0])
    requires forall l :: 1 <= l < |elements| ==>
      (ElementAcceptable(after, elements[l]) <==>
        ElementAcceptable(filters, elements[l]) && Compatible(ElementKey(elements[0]), ElementKey(elements[l])))
    ensures Admissible(filters, elements) <==> Admissible(after, elements[1..])
  {
    if Admissible(after, elements[1..]) {
      AdmissibleShiftBack(filters, after, elements);
    }
    if Admissible(filters, elements) {
      AdmissibleShiftForward(filters, after, elements);
    }
  }

  lemma AdmissibleShiftBack(filters: seq<PluginFilter>, after: seq<PluginFilter>, elements: seq<string>)
    requires elements != [] && ElementAcceptable(filters, elements[0])
    requires forall l :: 1 <= l < |elements| ==>
      (ElementAcceptable(after, elements[l]) <==>
        ElementAcceptable(filters, elements[l]) && Compatible(ElementKey(elements[0]), ElementKey(elements[l])))
    requires Admissible(after, elements[1..])
    ensures Admissible(filters, elements)
  {
    var rest := elements[1..];
    forall l | 1 <= l < |elements|
      ensures ElementAcceptable(filters, elements[l]) && Compatible(ElementKey(elements[0]), ElementKey(elements[l]))
    {
      assert elements[l] == rest[l - 1];
    }
    forall k, l | 1 <= k < l < |elements|
      ensures Compatible(ElementKey(elements[k]), ElementKey(elements[l]))
    {
      assert elements[k] == rest[k - 1] && elements[l] == rest[l - 1];
    }
  }

  lemma AdmissibleShiftForward(filters: seq<PluginFilter>, after: seq<PluginFilter>, elements: seq<string>)
    requires elements != [] && ElementAcceptable(filters, elements[0])
    requires forall l :: 1 <= l < |elements| ==>
      (ElementAcceptable(after, elements[l]) <==>
        ElementAcceptable(filters, elements[l]) && Compatible(ElementKey(elements[0]), ElementKey(elements[l])))
    requires Admissible(filters, elements)
    ensures Admissible(after, elements[1..])
  {
    var rest := elements[1..];
    forall l | 0 <= l < |rest| ensures ElementAcceptable(after, rest[l]) {
      assert rest[l] == elements[l + 1];
    }
    forall k, l | 0 <= k < l < |rest|
      ensures Compatible(ElementKey(rest[k]), ElementKey(rest[l]))
    {
      assert rest[k] == elements[k + 1] && rest[l] == elements[l + 1];
    }
  }

  /** Adding a list of elements succeeds exactly when the list is admissible. */
  lemma {:induction false} AddFilterElementsOkIff(filters: seq<PluginFilter>, elements: seq<string>, list: string)
    ensures AddFilterElements(filters, elements, list).Ok? <==> Admissible(filters, elements)
    decreases |elements|
  {
    if elements != [] {
      AddFilterElementsStep(filters, elements, list);
      AddFilterElementOkIff(filters, elements[0], list);
      if ElementAcceptable(filters, elements[0]) {
        var after := AddFilterElement(filters, elements[0], list).value;
        AddFilterElementsOkIff(after, elements[1..], list);
        AdmissibleCons(filters, elements, list);
      }
    }
  }

  /** Before any element is added, admissible means acceptable. */
  lemma AdmissibleFromEmpty(elements: seq<string>)
    ensures Admissible([], elements) <==> AcceptableElements(elements)
  {
    forall k | 0 <= k < |elements|
      ensures ElementAcceptable([], elements[k]) <==> Trim(elements[k]) != WILDCARD && ElementKey(elements[k]).Some?
    {
      if ElementKey(elements[k]).Some? {
        assert PluginTags([], ElementKey(elements[k]).value.0) == [];
      }
    }
  }

  /** A list that is not universal parses exactly when its elements are acceptable: no bare
      `*`, no empty side of a dot, no duplicate and no wildcard conflict. */
  lemma ParsedFiltersOkIff(input: Option<string>)
    ensures !IsUniversalList(TrimmedList(input)) ==>
      (ParsedFilters(input).Ok? <==> AcceptableElements(Split(Trim(input.value), ',')))
  {
    if !IsUniversalList(TrimmedList(input)) {
      var list := Trim(input.value);
      var elements := Split(list, ',');
      assert ParsedFilters(input) == AddFilterElements([], elements, list);
      AddFilterElementsOkIff([], elements, list);
      AdmissibleFromEmpty(elements);
    }
  }
}
