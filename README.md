# filter-feed core, modelled in Dafny

filter-feed fetches an RSS or Atom feed for a user, removes the entries a
saved filter picks, and returns the rest of the feed with " (filtered)"
appended to its title. This project models three parts of it and proves
what each one does.

- **Canonical items** (item.py, module `Items`). An RSS `<item>` or an Atom
  `<entry>` becomes an `Item(title, date, description)`. Each field comes
  from the first direct child with the field's tag. A missing child gives
  `None`. The date converter is a parameter and may raise.
- **Rule-tree validation** (model.py, modules `Json` and `RuleTree`). The
  `FilterFeed.query_builder` validator walks a jQuery QueryBuilder JSON
  tree twice. One walk checks every group's `condition`, the other every
  leaf's `id`. `validate_jqqb` turns any exception into `False`.
  - Python's evaluation is modelled exactly: dict subscripting, `in` on
    dicts, lists and strings, and `for` over any container. Each raises
    where Python raises.
  - The accepted trees are proved to be exactly the JSON that decodes into
    a typed `RuleNode` tree: groups with `And`/`Or` and leaves naming an
    `Item` field.
- **Detection and in-place filtering** (main.py, module `Feed`).
  - `detectRss`, `detectAtom` and handleHttp's RSS-then-Atom-then-passthrough
    order are pure functions.
  - `modifyRss` and `modifyAtom` are methods of the class `Document`, which
    holds the parsed tree in the field `root`.
  - The removal loop (`RemoveMatching`) cuts entries out of a sequence one
    by one. It takes the entry test as a parameter. `TitleMatch` is the
    substring test main.py:80 applies: `settings.title_match in
    item_title.text`.

Supporting modules: `Python` holds `None`, exceptions and substring `in`.
`Xml` is a simplified ElementTree: tag, optional text, ordered children,
with `find` by exact tag. A namespaced tag is spelled
`{http://www.w3.org/2005/Atom}title`, as ElementTree spells it.

Where the code and its tests disagree, the model follows the code:

- Detection compares tags exactly, and detectRss runs first. So an `<rss>`
  root is treated as RSS even when the document is served as
  `application/atom+xml` (`Feed.RssTakesPrecedence`).
- A namespaced Atom root `{http://www.w3.org/2005/Atom}feed` is not
  detected without the Atom content type
  (`Feed.NamespacedAtomRootNotDetected`). test_main.py:28-34 expects it to
  be detected.
- `.//feed/title` looks for a `feed` element below the root. The root of
  a standard Atom document is itself the `feed`, so its title is never
  suffixed (`Feed.AtomRootTitleNotSuffixed`).
- A namespaced Atom document has no unqualified `entry` children, so
  `modifyAtom` leaves it unchanged (`Feed.NamespacedAtomUntouched`).
  test_main.py:122-165 expect the title suffixed and the matching entry
  removed.
- The removal tests configure the filter as `FilterFeed(query_builder={…})`
  with an `equal` rule on the title (test_main.py:73-82, 91-100, 109-118).
  `filter_feed.FilterFeed` declares only `url` and `title_match`
  (filter_feed.py:6-11), and modifyRss and modifyAtom read only
  `settings.title_match` (main.py:80, 93). So the tests' rule never reaches
  the code that filters. `Feed.RssRemoveExample` and `Feed.RssKeepExample`
  therefore replace the tests' `equal "foo"` and `equal "bar"` rules with
  `title_match` "foo" and "bar", under the substring test the code applies.

## Model

| member | source | states |
|---|---|---|
| Python.InIffOccurs | main.py:80 | Python's `in` on two strings holds exactly when the first occurs as a contiguous substring of the second at some position |
| Xml.FirstWhere | item.py:17 | returns the index of the first element satisfying the predicate, or None exactly when none does |
| Xml.FindIndex | item.py:17 | `find(tag)` gives the first direct child with exactly that tag; None exactly when no child has it |
| Xml.Find | item.py:17 | the element found has the tag and is the first child with it; it exists exactly when some child has the tag |
| Xml.FindIndexIgnoresLater | item.py:17 | once a child with the tag exists, appending more children does not change what `find` returns |
| Items.Str | item.py:16 | `str` on an element's text never raises; a missing text gives the string "None", any other text is itself |
| Items.Content | item.py:16-18 | `_content` cannot raise unless the converter can |
| Items.ContentOfAbsent | item.py:17-18 | an absent child gives None without consulting the converter, so it never raises |
| Items.ContentOfFirst | item.py:17-18 | a present child's text, None included, goes to the converter; only the first child with the tag counts; a raising converter makes `_content` raise the same exception |
| Items.FromRssItem | item.py:21-26 | `fromRssItem`; its behaviour is stated by RssFieldMapping, RssFailsOnlyOnDate, RssEmptyItem and RssIgnoresLaterChildren |
| Items.RssIgnoresLaterChildren | item.py:21-26 | later children with the same tags never change the RSS item once the first ones exist |
| Items.RssFailsOnlyOnDate | item.py:21-26 | `fromRssItem` raises exactly when a `pubDate` child exists and the date converter raises on its text |
| Items.RssFieldMapping | item.py:21-26 | field by field, whichever children are present: the title and description are the text of the first `title` and `description` child ("None" for an element without text, None for no child); the date is the converted text of the first `pubDate`, None without one |
| Items.RssEmptyItem | item.py:21-26 | an item with none of the three children gives `Item(None, None, None)` |
| Items.FromAtomEntry | item.py:29-34 | `fromAtomEntry`; its behaviour is stated by AtomFieldMapping, AtomFailsOnlyOnDate and AtomIgnoresUnqualified |
| Items.AtomFieldMapping | item.py:29-34 | field by field, whichever children are present: title, description and date come from the first Atom-qualified `title`, `summary` and `updated` child, each None without one |
| Items.AtomFailsOnlyOnDate | item.py:29-34 | `fromAtomEntry` raises exactly when a qualified `updated` child exists and the date converter raises on its text |
| Items.AtomIgnoresUnqualified | item.py:29-34 | an entry with only unqualified children gives `Item(None, None, None)`: unqualified `title`/`summary` are not seen |
| Json.Subscript | model.py:33 | `d[key]` succeeds exactly when `d` is a dict with the key, and gives a value stored under it; a dict without the key raises KeyError; any other value raises TypeError |
| Json.Contains | model.py:35 | `"rules" in r` raises exactly for None, booleans and numbers; on a dict it is key membership |
| Json.Iterate | model.py:34 | `for` succeeds exactly on lists, dicts and strings; a list yields its elements, a dict its keys in order, a string its one-character strings in order |
| RuleTree.Children | model.py:34 | a group's children exist only when it has a `"rules"` member, and are what iterating that member yields |
| RuleTree.CheckCondition | model.py:32-37 | `recurse_check_condition`; stated by ChecksIffDecodes, AcceptedEverywhere and MissingConditionRejected |
| RuleTree.CheckConditionFrom | model.py:34-36 | the loop of `recurse_check_condition` over the children; stated by ChecksIffDecodes and CheckConditionOfNonObject |
| RuleTree.CheckLeafId | model.py:47 | the leaf assertion; stated by FieldOf, AcceptedEverywhere and MissingIdRejected |
| RuleTree.CheckFields | model.py:42-48 | `recurse_check_fields`; stated by ChecksIffDecodes and AcceptedEverywhere |
| RuleTree.CheckFieldsFrom | model.py:43-47 | the loop of `recurse_check_fields` over the children; stated by ChecksIffDecodes |
| RuleTree.ValidateProperty | model.py:25-50 | on success the input is returned unchanged; it raises exactly when one of the two walks raises |
| RuleTree.ValidateJqqb | model.py:12-17 | `validate_jqqb`; stated by ValidateIffDecodes and EncodeValidates |
| RuleTree.FieldNamesAreItemFields | item.py:9-12 | the leaf ids the field walk accepts are exactly the names of Item's three fields |
| RuleTree.ConditionOf | model.py:33 | a condition is accepted exactly when it is the string "AND" or "OR" |
| RuleTree.FieldOf | model.py:47 | a leaf id is accepted exactly when it is a string naming an Item field |
| RuleTree.CheckConditionOfNonObject | model.py:35-36 | a non-dict child that passes the `in` test makes both walks raise the TypeError of their first subscript |
| RuleTree.Decode | model.py:32-48 | the reading of an accepted tree as a typed group; the result is always a group, and ChecksIffDecodes and DecodeEncode relate it to the walks and to Encode |
| RuleTree.Encode | test_model.py:14-20 | the minimal JSON of a typed tree; DecodeEncode and EncodeValidates state its round trip and its acceptance |
| RuleTree.DecodeFromShape | model.py:34-36 | in a decoded child list every child is a dict, and each child decodes as a group or a leaf according to whether it has a `"rules"` key |
| RuleTree.ChecksIffDecodes | model.py:32-48 | both walks return without raising exactly when the tree decodes into a typed rule tree |
| RuleTree.ValidateIffDecodes | model.py:12-17 | `validate_jqqb` is total and returns True exactly for the JSON that decodes into a typed rule tree |
| RuleTree.DecodeEncode | model.py:32-48 | decoding the JSON of a typed group gives back that group |
| RuleTree.EncodeValidates | model.py:12-17 | every typed group, in its minimal encoding (leaves carrying only `id`), is accepted |
| RuleTree.AcceptedEverywhere | model.py:32-48 | in an accepted tree every node is a dict; the root and every node with `"rules"` has condition "AND" or "OR"; every other node has an id naming an Item field |
| RuleTree.MissingConditionRejected | model.py:33 | a dict without `"condition"` is rejected with KeyError("condition") |
| RuleTree.MissingRulesRejected | model.py:34 | a group with a good condition and no `"rules"` is rejected with KeyError("rules") |
| RuleTree.MissingIdRejected | model.py:47 | a leaf without `"id"`, as the only child of an AND group, is rejected with KeyError("id") |
| RuleTree.ValidEmptyExamples | test_model.py:13-17 | the empty OR and AND groups are accepted |
| RuleTree.InvalidConditionExamples | test_model.py:23-30 | conditions "asdfasdf", "or" and "and" are rejected |
| RuleTree.LeafIdExamples | test_model.py:19-34 | a leaf with id "title" is accepted and one with id "asdf" is rejected |
| RuleTree.NonListRules | model.py:34 | `"rules"` may be any iterable: an empty dict or string is accepted, a non-empty string is rejected |
| Feed.DetectRss | main.py:96-101 | `detectRss`; stated by RssTakesPrecedence, UnknownExactly and DetectionExamples |
| Feed.DetectAtom | main.py:103-108 | `detectAtom`; stated by UnknownExactly, DetectionExamples and NamespacedAtomRootNotDetected |
| Feed.Classify | main.py:121-126 | the RSS branch is taken exactly when detectRss holds, the Atom branch exactly when detectRss fails and detectAtom holds |
| Feed.UnknownExactly | main.py:96-108 | a document is passed through exactly when its content type is neither feed type and its root tag is neither `rss` nor `feed` |
| Feed.RssTakesPrecedence | main.py:96-101 | the RSS content type wins over any root, and an `rss` root wins over any content type, the Atom one included |
| Feed.DetectionExamples | test_main.py:11-58 | the detection cases of the tests that agree with the code, `text/html` with `<html>` included |
| Feed.NamespacedAtomRootNotDetected | main.py:103-108 | a root tagged `{http://www.w3.org/2005/Atom}feed` with a generic content type is detected as neither format |
| Feed.TitleSite | main.py:69 | the title found is the first `title` child of the first `channel`/`feed` child of the root that holds one; None exactly when no such child holds a title |
| Feed.SuffixTitle | main.py:69-73 | the title step; stated by SuffixTitleOnce, NoTitleNoChange and RssTitleFailsFirst |
| Feed.SuffixTitleOnce | main.py:69-73 | a title with text gets " (filtered)" appended exactly once; `find` still finds that title, and every other element is unchanged |
| Feed.NoTitleNoChange | main.py:69-71 | when no child of the root is a container holding a `title` (no container at all, or containers without a title), the document is left unchanged |
| Feed.RssTitleExample | test_main.py:61-67 | `<rss><channel><title>foo</title></channel></rss>` gets the title "foo (filtered)" |
| Feed.TitleMatch | main.py:79-80 | the entry test of the loop; stated by TitleMatchMeaning |
| Feed.TitleMatchMeaning | main.py:79-80 | the entry test raises exactly when the entry's first title has no text; it removes exactly when that text contains `title_match` |
| Feed.SurvivorsMembership | main.py:78-81 | a child survives exactly when it is not an entry the test removes |
| Feed.SurvivorsKeepOthers | main.py:78-81 | children that are not entries, such as the channel title, are all kept in their original order |
| Feed.SurvivorsIdempotent | main.py:78-81 | filtering the survivors again removes nothing more |
| Feed.Filtered | main.py:78-81 | the intended pass of the removal loop; stated by FilteredWithoutRaise and FilteredStopsAtRaise, and implemented by RemoveMatching |
| Feed.FilteredWithoutRaise | main.py:78-81 | when no entry makes the test raise, the loop succeeds and leaves exactly the survivors, in order |
| Feed.FilteredStopsAtRaise | main.py:78-81 | the first raising entry ends the loop with its exception; the children before it are filtered, the rest are untouched |
| Feed.RemoveMatching | main.py:78-81 | the in-place removal loop leaves exactly what `Filtered` specifies and raises exactly when it does |
| Feed.FilteredAsWritten | main.py:78-81 | the pass as the code runs it, skipping the child after each removal; stated by ConsecutiveMatchSkipped |
| Feed.ConsecutiveMatchSkipped | main.py:78-81 | as written, of two consecutive removed entries the second survives; with the intended removal neither does |
| Feed.ConsecutiveFooItemsSkipped | main.py:78-81 | the same with two items titled "foo" and `title_match` "foo" |
| Feed.RssModified | main.py:67-81 | what `modifyRss` leaves and raises; stated by RssMissingChannel, RssTitleFailsFirst, RssFiltersFirstChannel and the two test examples |
| Feed.AtomModified | main.py:83-94 | what `modifyAtom` leaves and raises; stated by AtomRootTitleNotSuffixed and NamespacedAtomUntouched |
| Feed.Dispatch | main.py:121-126 | what handleHttp does to the parsed document; stated by Classify and UnknownPassesThrough |
| Feed.RssMissingChannel | main.py:75-77 | a root without a `channel` child makes modifyRss raise "Missing channel element" and leaves the root unchanged |
| Feed.RssTitleFailsFirst | main.py:69-77 | a channel title without text raises a TypeError before the channel check and before any removal |
| Feed.RssFiltersFirstChannel | main.py:67-81 | without raising entries, modifyRss succeeds; the first channel holds exactly its survivors; the rest of the titled document is unchanged |
| Feed.AtomRootTitleNotSuffixed | main.py:83-94 | on a standard Atom root the title is not suffixed and the root keeps exactly its surviving children; there is no container check |
| Feed.NamespacedAtomUntouched | main.py:83-94 | a document with neither `feed` nor `entry` children is left unchanged by modifyAtom |
| Feed.UnknownPassesThrough | main.py:125-126 | a document detected as neither format leaves handleHttp's rewrite unchanged and without error |
| Feed.RssRemoveExample | test_main.py:69-85 | the item titled "foo" is removed with `title_match` "foo"; the channel title stays and is suffixed |
| Feed.RssKeepExample | test_main.py:87-103 | the same item is kept with `title_match` "bar"; the channel title is suffixed |
| Feed.Document.AppendTitleSuffix | main.py:69-73 | the title step leaves the root `SuffixTitle` specifies, and leaves it unchanged when it raises |
| Feed.Document.ModifyRss | main.py:67-81 | the new root and the outcome are those of `RssModified` on the old root |
| Feed.Document.ModifyAtom | main.py:83-94 | the new root and the outcome are those of `AtomModified` on the old root |
| Feed.Document.HandleFeed | main.py:121-126 | the new root and the outcome are those of `Dispatch`, which tries RSS, then Atom, then passes through |

## Left out

- The logging, tracing and error-reporting set-up (main.py:22-64, 112, 130-139) is not modelled. Neither are the warnings and the error message the core logs. These are I/O.
- handleHttp's datastore lookup, upstream fetch, parse, serialisation and response are not modelled (main.py:113-120, 127-129). Only the dispatch of the parsed document is. An exception from the rewrite is returned as `Raised`, where the source re-raises it.
- XML parsing and serialisation, attributes, tails and namespace declarations are not represented. Tags are plain strings.
- The date converters (`parsedate_to_datetime`, `datetime.fromisoformat`) are foreign parsers, so they are an abstract `Converter` parameter that may raise.
- RuleTree.ValidateProperty: the `Evaluator` trial run at model.py:26-27 belongs to a foreign library and is taken to succeed. A tree it rejects is accepted by the model.
- RuleTree.ValidateIffDecodes: nesting depth is unbounded in the model. In Python a tree nested deeper than the recursion limit (about 1000 frames) makes `recurse_check_condition` raise RecursionError, which the bare `except:` at model.py:15 turns into False; the model accepts such a tree when it decodes.
- RuleTree.EncodeValidates: stated for the minimal encoding, whose leaves carry only `id`. The `field`, `type`, `input`, `operator` and `value` keys the query-builder UI also writes are not represented; only the `Evaluator` reads them, and it is taken to succeed.
- URL validation (model.py:20-22) is a foreign call and is not modelled.
- JSON objects are kept as member lists, and lookup takes the first member with a key. `json.loads` keeps the last duplicate, so the model agrees with Python only on objects with distinct keys. JSON floats are not represented.
- Feed.TitleSite: `.//channel/title` and `.//feed/title` search every depth. The model looks one level down: a container that is a direct child of the root, and a `title` that is a direct child of the container.
- Feed.RssModified: `.//item` also visits items outside the first channel. On a match, `chan.remove` then raises ValueError (main.py:81). The model examines only the direct children of the first channel.
- Feed.AtomModified: entries below the root's direct children are not modelled. `root.remove` would raise ValueError on them (main.py:94).
- The iterator skip after a removal (main.py:78-81, 91-94) is modelled only as the finding below. The rest of the model uses the intended removal.
- The other files: view.py, feed_admin.py, ndb_user_datastore.py, create_feed.py, app.py, filter_feed.py and the test scaffolding. They are Flask handlers, datastore persistence and command-line wrappers. `KeyConverter` and `ViewFilterPermission` are not part of this model.

## Findings

| source | as written | input that shows it | evidently intended | confidence | as-written member | corrected member |
|---|---|---|---|---|---|---|
| main.py:78-81 | `chan.remove(item)` runs inside `for item in root.iterfind(".//item")`, which walks the same child list by position. After a removal the next child slides into the freed position, and the iterator steps past it unexamined. modifyAtom (main.py:91-94) has the same loop. | a channel with two consecutive items titled "foo", and `title_match` "foo": the second item survives | every item whose title contains `title_match` is removed | medium; follows from ElementTree's positional iteration; not executed | Feed.FilteredAsWritten (Feed.ConsecutiveMatchSkipped) | Feed.Filtered (Feed.FilteredWithoutRaise, Feed.RemoveMatching) |
