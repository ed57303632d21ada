# vois core, modelled in Dafny

This project models the logic of `vois`, a library of Jupyter widgets for
dashboards. It covers the pure helpers, and the state each widget keeps
behind its buttons, lists and trees. It proves what that code promises.

Each core source file has its own module:

- colour strings: `colors.dfy`;
- the tree builders and the treeview operations:
  - `treeviewindex.dfy`, `treeviewops.dfy`, `treeviewbuilder.dfy` and `treenodes.dfy`;
  - with the shared path helpers in `paths.dfy` and `pathtrees.dfy`;
- the sortable list: `sortablelist.dfy`;
- GeoJSON filtering and joining: `geojsonutils.dfy`;
- the treemap and ipytree builders: `treemapplotly.dfy` and `ipytrees.dfy`;
- the bubble chart and the rank chart: `svgbubbles.dfy` and `svgrank.dfy`;
- raster layers and the layer manager: `layers.dfy` and `layermanager.dfy`;
- the toggle, the multi-switch and the range slider: `toggle.dfy`, `multiswitch.dfy` and `rangeslider.dfy`;
- the palette editor: `paletteeditor.dfy`;
- the single select, the image select and the date picker: `selectsingle.dfy`, `selectimage.dfy` and `datepicker.dfy`;
- the EU country registry: `eucountries.dfy`;
- the two map-utility files: `templatemaputils.dfy` and `geomaputils.dfy`;
- the day calendar: `daycalendar.dfy`.

`wrappers.dfy` holds the shared `Option` and `Result` types. It also holds the
Python exceptions a call can raise, as `Err(ValueError)` and its siblings.
`pystrings.dfy` models the Python string operations the code relies on:
`split`, `join`, `strip`, `int()` and `str()`. `mapfolds.dfy` models dictionaries
filled in a loop, where a later entry overwrites an earlier one.

How the Python is turned into Dafny:

- A widget whose methods update its fields is a `class`, with one field per
  attribute the logic reads; a method updates those fields in place.
- Each of its handlers is a method that states the object's new state.
- Lists and dictionaries are `seq` and `map`.
- A callback such as `on_change` is a call count or a log of its arguments.
- Python's `None` is `Option.None`.
- A raised exception is an `Err` or `Failure` result.

The ipyvuetify, ipyleaflet and ipywidgets objects are not modelled. Where
the logic reads one of them, it appears as the few fields that logic reads.

## Model

| member | source | states |
|---|---|---|
| Colors.Normalize | src/vois/colors.py:30-35 | a value above valuemax gives valuemax, one below valuemin gives valuemin, any other is returned unchanged, so the result lies in the interval when it is not empty |
| Colors.NormalizeIdempotent | src/vois/colors.py:30-35 | normalising an already normalised value changes nothing |
| Colors.Format02x | src/vois/colors.py:413 | a byte prints as exactly two lower-case hexadecimal digits whose value is the byte |
| Colors.Rgb2Hex | src/vois/colors.py:392-413 | an in-range colour prints as `#` and six lower-case hexadecimal digits, two per channel in r, g, b order |
| Colors.Hex2Rgb | src/vois/colors.py:417-441 | the empty string raises IndexError; every other failure is a ValueError from `int(_, 16)` |
| Colors.ParseHexPair | src/vois/colors.py:440 | `int(_, 16)` of two lower-case hexadecimal digits is their pair value |
| Colors.HexRoundTrip | src/vois/colors.py:413-441 | parsing the printed form of an in-range colour gives the colour back |
| Colors.Hex2RgbOfHexColor | src/vois/colors.py:438-441 | a `#rrggbb` string parses to the triple its three digit pairs denote |
| Colors.HexStringRoundTrip | src/vois/colors.py:413-441 | printing the parsed triple of a `#rrggbb` string gives the string back |
| Colors.PairDetermines | src/vois/colors.py:413 | two digit pairs with the same value are the same pair, so `rgb2hex` is one-to-one on in-range colours |
| Colors.HexHashOptional | src/vois/colors.py:438-440 | a non-empty string parses to the same result with or without a leading `#` |
| Colors.Text2Rgb | src/vois/colors.py:445-471 | the result is (0,0,0) unless the string starts with `rgb(` and has at least three comma-separated fields; a failure is a ValueError |
| Colors.TextExtraFieldsIgnored | src/vois/colors.py:466-469 | appending more fields after the third changes nothing |
| Colors.TextFieldsOfRgb2Text | src/vois/colors.py:467 | the fields seen in `rgb(r,g,b)` are the three printed integers |
| Colors.TextRoundTrip | src/vois/colors.py:466-469 | every integer triple survives printing as `rgb(r,g,b)` and parsing with `text2rgb` |
| Colors.String2Rgb | src/vois/colors.py:475-492 | the empty string raises IndexError; a leading `#` goes to `hex2rgb`; an `rgb(` prefix goes to `text2rgb`; anything else is (0,0,0) |
| Colors.String2RgbRoundTrips | src/vois/colors.py:488-492 | both printed forms of a colour parse back to it through `string2rgb` |
| Colors.MinRgb | src/vois/colors.py:377 | each channel is the smaller of the two channels |
| Colors.Darken | src/vois/colors.py:371-377 | the blend exists exactly when both colours parse |
| Colors.DarkenCommutes | src/vois/colors.py:375-377 | swapping the two colours changes neither whether the blend exists nor the blend |
| Colors.DarkenSelf | src/vois/colors.py:375-377 | blending a colour with itself gives `rgb2hex(string2rgb(c))`, or the parse error |
| Colors.DarkenIsMinimum | src/vois/colors.py:375-377 | for in-range colours the blend parses back to a colour no lighter than either input in any channel, each channel taken from one of the two inputs |
| PyStrings.Slice | src/vois/colors.py:440 | `s[i:j]` has the clamped length and holds `s[i + k]` at position k |
| PyStrings.Split | src/vois/colors.py:467 | `split` always yields at least one piece |
| PyStrings.JoinSplit | vois/svgBubblesChart.py:41 | joining the pieces of a split with the same separator gives the input back |
| PyStrings.SplitJoin | src/vois/colors.py:467 | splitting a join of separator-free parts gives the parts back |
| PyStrings.ParseInt | src/vois/colors.py:469 | `int(s, base)` fails only with ValueError, and succeeds only on white space, one sign, an optional prefix and valid digits |
| PyStrings.ParseIntToString | src/vois/colors.py:469 | `int(str(n)) == n` for every integer, negative ones included |
| SvgBubbles.Normalize | vois/svgBubblesChart.py:41-42 | the label keeps its length; `_` and `-` become spaces and every other character is kept |
| SvgBubbles.WordsJoin | vois/svgBubblesChart.py:41-43 | the words joined again by single spaces give the normalised label |
| SvgBubbles.WrapJoin | vois/svgBubblesChart.py:45-53 | with the corrected first row, the rows joined by single spaces hold the words in their original order, and no row is empty |
| SvgBubbles.WrapGreedy | vois/svgBubblesChart.py:48-53 | a word joins the current row exactly when it fits, so no two neighbouring rows would have fitted in one |
| SvgBubbles.WrapRowBound | vois/svgBubblesChart.py:48-53 | a row longer than maxlen + 1 is a single word that did not fit anywhere |
| SvgBubbles.LeadingEmptyRow | vois/svgBubblesChart.py:45-53 | as written, a first word longer than maxlen leaves an empty first row |
| SvgBubbles.OneWord | vois/svgBubblesChart.py:41-43 | a label without spaces, `_` or `-` is a single word |
| SvgBubbles.LongWordExample | vois/svgBubblesChart.py:45-53 | `splitstring('ab', 1)` gives `['', 'ab']` as written and `['ab']` once corrected |
| SvgBubbles.SplitString | vois/svgBubblesChart.py:39-55 | ZeroDivisionError exactly when maxlen is 0; otherwise the loop as written computes the greedy wrap of the label's words, keeping an empty first row before a first word longer than maxlen |
| SvgBubbles.SplitStringCorrected | vois/svgBubblesChart.py:39-55 | ZeroDivisionError exactly when maxlen is 0; otherwise, with the first-row test corrected, the loop computes the wrap in which an empty row always takes the next word |
| SvgBubbles.MaxLenX | vois/svgBubblesChart.py:205-208 | x labels wrap at 12 characters exactly when there are more than 15 x values, and at 20 otherwise |
| SvgBubbles.RowsNeededIsMax | vois/svgBubblesChart.py:209-213 | the row count is at least 1, at least the as-written `splitstring` row count of every label longer than maxlenx, and equal to 1 or to one of them |
| SvgBubbles.LabelRows | vois/svgBubblesChart.py:204-213 | the `nrows` loop, wrapping at `maxlenx` with `splitstring` as written, computes that maximum |
| SvgBubbles.OneLongLabelRows | vois/svgBubblesChart.py:209-213 | one label made of a single word longer than maxlenx counts two rows, where the corrected wrap needs one |
| SvgBubbles.IndexOf | vois/svgBubblesChart.py:216 | `values.index(x)` is the first position holding x |
| SvgBubbles.IndexMap | vois/svgBubblesChart.py:215-219 | the map's keys are exactly the values, and each maps to its first position |
| SvgBubbles.IndexOfDistinct | vois/svgBubblesChart.py:215-219 | in a list without repeats, every value maps to its own position |
| SvgBubbles.Flip | vois/svgBubblesChart.py:288-290 | a click on a series in range flips exactly that flag; any other event or item leaves every flag unchanged |
| SvgBubbles.FlipTwice | vois/svgBubblesChart.py:288-290 | two clicks on the same legend item restore the flags |
| SvgBubbles.BubblesChart.constructor | vois/svgBubblesChart.py:205-228 | both index maps send each axis value to its position, and there is one True display flag per colour value |
| SvgBubbles.BubblesChart.OnLegendClick | vois/svgBubblesChart.py:271-292 | the flags become the flipped flags, and both index maps are kept |
| SvgRank.Entries | src/vois/svgRankChart.py:214-215 | entry i is names[i], values[i] and the 1-based position i + 1 |
| SvgRank.Insert | src/vois/svgRankChart.py:215 | one step of the sort adds the entry once and keeps every other entry |
| SvgRank.InsertSorted | src/vois/svgRankChart.py:215 | inserting into a list sorted by non-increasing value keeps it sorted |
| SvgRank.InsertStable | src/vois/svgRankChart.py:215 | inserting an entry later than all others keeps the entries of equal value in their original order |
| SvgRank.SortDesc | src/vois/svgRankChart.py:215 | the sort is a permutation of its input, sorted by non-increasing value |
| SvgRank.SortDescStable | src/vois/svgRankChart.py:215 | entries of equal value keep their original order, as Python's stable sort keeps them |
| SvgRank.RankingSpec | src/vois/svgRankChart.py:214-215 | `ordered` holds each (name, value, position) exactly once, sorted by non-increasing value, with ties in original order |
| SvgRank.FirstIsLargest | src/vois/svgRankChart.py:217-219 | the first ranked entry carries a largest value, and its original position points back at that value |
| SvgRank.Nearest | src/vois/svgRankChart.py:189-191 | None exactly when there is no space; otherwise a space at least as near the middle as every other, the first on ties |
| SvgRank.SplitName | src/vois/svgRankChart.py:187-195 | a name without a space gives (s, ''); otherwise the two parts joined by a space give the name back |
| SvgRank.SplitNameAtNearest | src/vois/svgRankChart.py:188-193 | the cut is at the space nearest `len(s)//2`, the first such on ties |
| SvgRank.NextSelected | src/vois/svgRankChart.py:349-355 | the selection becomes -1 exactly when deselection is enabled and the clicked entry was selected; otherwise it is that entry's original position |
| SvgRank.ClickTwice | src/vois/svgRankChart.py:349-355 | with deselection enabled, a second click on the same entry clears the selection again |
| SvgRank.RankChart.constructor | src/vois/svgRankChart.py:214-219 | the chart holds the ranking; with `selectfirstatstart` the first entry is selected and reported |
| SvgRank.RankChart.Click | src/vois/svgRankChart.py:345-365 | a row outside Python's index range raises IndexError and changes nothing; otherwise the selection follows NextSelected and `on_change` receives the entry, or None once cleared |
| SvgRank.Create | src/vois/svgRankChart.py:174-183 | no chart exactly when the names are empty, the lengths differ, or `fixedcolors` is given a colour list of another length |
| GeojsonUtils.GeojsonJson | deploy/vois/geojsonUtils.py:43-49 | a document that is not an object raises AttributeError; an object is accepted exactly when its type is 'FeatureCollection' and its features are a list, and otherwise Exception is raised |
| GeojsonUtils.PyEqReflexive | deploy/vois/geojsonUtils.py:261 | Python's `==` on JSON values holds between a value and itself, nested lists and dicts included |
| GeojsonUtils.PyEqSymmetric | deploy/vois/geojsonUtils.py:307 | Python's `==` on JSON values is symmetric, so `fvalue == fieldvalue` and list membership agree in either order |
| GeojsonUtils.TrueEqualsOne | deploy/vois/geojsonUtils.py:307 | `True == 1 == 1.0` while `1 != '1'` |
| GeojsonUtils.GeojsonCount | deploy/vois/geojsonUtils.py:95-110 | the count exists exactly when the document is accepted, and is the number of features |
| GeojsonUtils.FirstWithout | deploy/vois/geojsonUtils.py:149-150 | the first feature whose properties are absent or null, where a loop reading `f['properties']` raises; none exactly when every feature has a properties object |
| GeojsonUtils.GeojsonAll | deploy/vois/geojsonUtils.py:156-194 | one value per feature, in order, None where the attribute is absent; KeyError at a first feature without properties, TypeError at a first one with null properties |
| GeojsonUtils.AllHasCountValues | deploy/vois/geojsonUtils.py:110 | geojsonAll gives as many values as geojsonCount counts |
| GeojsonUtils.GeojsonAttributes | deploy/vois/geojsonUtils.py:114-152 | the result is exactly the union of the property keys of all features; KeyError at a first feature without properties, AttributeError at a first one with null properties |
| GeojsonUtils.OutputMembers | deploy/vois/geojsonUtils.py:249-255 | the output collection has type 'FeatureCollection', and it has 'crs', copied, exactly when the input has it |
| GeojsonUtils.FirstKey | deploy/vois/geojsonUtils.py:261-262 | a dict lookup finds the first entry whose key is `==` to the key value, or none when no key is |
| GeojsonUtils.BoolKeyFindsIntEntry | deploy/vois/geojsonUtils.py:261-262 | a key value `true` or `1.0` finds the dict entry with key 1; the string '1' does not |
| GeojsonUtils.Joined | deploy/vois/geojsonUtils.py:258-263 | a matching feature gains addedfieldname = keytovaluedict[key] with its other properties untouched; any other feature is unchanged |
| GeojsonUtils.MatchingFeatures | deploy/vois/geojsonUtils.py:258-265 | exactly the features whose key value is in the dictionary |
| GeojsonUtils.MatchingSnoc | deploy/vois/geojsonUtils.py:257-265 | the matching features keep their input order |
| GeojsonUtils.JoinOutputSnoc | deploy/vois/geojsonUtils.py:257-267 | one more feature adds its joined form at the end, or with innerMode only when it matches |
| GeojsonUtils.GeojsonJoin | deploy/vois/geojsonUtils.py:200-269 | the errors of geojsonJson; TypeError when some feature has null properties or a list or dict key value; otherwise the joined features (all, or with innerMode only the matching), order kept, in a new collection |
| GeojsonUtils.JoinFeatures | deploy/vois/geojsonUtils.py:257-267 | the feature loop raises TypeError exactly when some feature has null properties or a list or dict key value, and otherwise emits the joined features, all or with innerMode only the matching ones |
| GeojsonUtils.JoinOuterKeepsOrder | deploy/vois/geojsonUtils.py:257-267 | without innerMode every input feature is kept, in its place |
| GeojsonUtils.SelectedFeatures | deploy/vois/geojsonUtils.py:303-308 | exactly the features whose field is `==` to fieldvalue, or to one of its elements when it is a list |
| GeojsonUtils.SelectedSnoc | deploy/vois/geojsonUtils.py:303-308 | the selected features keep their input order |
| GeojsonUtils.FilterTrueIsOne | deploy/vois/geojsonUtils.py:307 | a field holding true passes a filter on the value 1; a field holding '1' does not |
| GeojsonUtils.GeojsonFilter | deploy/vois/geojsonUtils.py:274-310 | the errors of geojsonJson; TypeError when some feature has null properties; otherwise the selected features, in input order, in a new collection |
| GeojsonUtils.FilterFeatures | deploy/vois/geojsonUtils.py:303-308 | the feature loop raises TypeError exactly when some feature has null properties, and otherwise keeps the selected features in input order |
| GeojsonUtils.FilterIdempotent | deploy/vois/geojsonUtils.py:303-308 | filtering twice with the same test gives what filtering once gives |
| Paths.Extend | src/vois/vuetify/treeview.py:811-812 | the first part alone starts the fullname; each later part is appended after the separator |
| Paths.PathNames | src/vois/vuetify/treeview.py:806-817 | one fullname is visited per part of the path |
| Paths.AccIsJoin | src/vois/vuetify/treeview.py:808-812 | while the first part is not empty, the accumulated fullname is the parts joined by the separator |
| Paths.PathNamesArePrefixes | src/vois/vuetify/treeview.py:806-817 | the i-th fullname visited is the first i + 1 parts joined: the prefixes of the path at its separators, ending with the path itself |
| Paths.PathStep | src/vois/vuetify/treeview.py:809-817 | each part adds exactly one fullname, the accumulated one, to those visited |
| Paths.VisitedGrows | src/vois/vuetify/treeview.py:809-817 | registering each visited fullname keeps the registered names equal to the old ones plus those visited so far |
| Paths.PathSetGrows | src/vois/vuetify/treeview.py:806-817 | the same holds over the whole list of paths |
| TreeviewIndex.IndexNodeFolds | src/vois/vuetify/treeview.py:409-417 | `id2fullname`, `fullname2id` and `id2parentid` are the dictionary folds, in walk order, of the (id, fullname) pairs, the swapped pairs and the (child, parent) pairs, so a later write overwrites an earlier one |
| TreeviewIndex.IndexNodeChildFrame | src/vois/vuetify/treeview.py:412-417 | indexing a subtree that carries no dict with id k leaves the `id2childrenid` entry of k as it was, present or absent |
| TreeviewIndex.IndexKidsAppends | src/vois/vuetify/treeview.py:413-417 | when no descendant carries the parent's id, the loop appends exactly the child ids, in order, to the parent's list |
| TreeviewIndex.IndexNodeChildren | src/vois/vuetify/treeview.py:412-417 | with unique ids, every dict with a 'children' key gets exactly its child ids, in order |
| TreeviewIndex.IndexNodeChildKeys | src/vois/vuetify/treeview.py:412-413 | only dicts with a 'children' key get an `id2childrenid` entry |
| TreeviewIndex.DoIndexInverse | src/vois/vuetify/treeview.py:394-417 | with distinct fullnames, `fullname2id[id2fullname[i]] == i` for every indexed id |
| TreeviewIndex.DoIndexNames | src/vois/vuetify/treeview.py:394-417 | with unique ids, `id2fullname` maps exactly the ids of the tree, each to its dict's fullname, and `fullname2id` knows exactly the tree's fullnames |
| TreeviewIndex.DoIndexIdsKnown | src/vois/vuetify/treeview.py:410-411 | every id `fullname2id` gives is a key of `id2fullname` |
| TreeviewIndex.DoIndexByName | src/vois/vuetify/treeview.py:410-411 | with distinct fullnames, each dict's fullname maps to that dict's id |
| TreeviewIndex.DoIndexInverseBack | src/vois/vuetify/treeview.py:410-411 | with unique ids, `id2fullname[fullname2id[f]] == f` |
| TreeviewIndex.DoIndexFullnameAgreed | src/vois/vuetify/treeview.py:410-411 | a fullname that only dicts with one id carry maps to that id |
| TreeviewIndex.DoIndexIdAgreed | src/vois/vuetify/treeview.py:410-411 | an id that only dicts with one fullname carry maps to that fullname |
| TreeviewIndex.ParentPairsHas | src/vois/vuetify/treeview.py:414-415 | every parent/child link of the tree is written to `id2parentid` |
| TreeviewIndex.ParentPairsFrom | src/vois/vuetify/treeview.py:414-415 | every pair written to `id2parentid` is a parent/child link of the tree |
| TreeviewIndex.DoIndexParents | src/vois/vuetify/treeview.py:394-417 | for a single root with unique ids, `id2parentid` maps exactly the non-root ids, each child to its parent's id |
| TreeviewIndex.IndexNodeParentsBelow | src/vois/vuetify/treeview.py:414-415 | when child ids exceed their parent's, every `id2parentid` entry points to a smaller id, so the ancestor walk of `setActive` ends |
| TreeviewIndex.DoIndexChildren | src/vois/vuetify/treeview.py:394-417 | for a single root with unique ids, `id2childrenid` maps exactly the dicts with a 'children' key, each to its child ids in order |
| TreeviewOps.LookupAll | src/vois/vuetify/treeview.py:426 | a list comprehension over a dict succeeds exactly when every key is present, and then gives each key's value in order; otherwise KeyError |
| TreeviewOps.LookupRoundTrip | src/vois/vuetify/treeview.py:440-456 | looking fullnames up in `fullname2id` and the ids back up in an inverse `id2fullname` gives back exactly the fullnames |
| TreeviewOps.Dedup | src/vois/vuetify/treeview.py:435 | `list(set(...))` holds each element of the input once and nothing else |
| TreeviewOps.KeysList | src/vois/vuetify/treeview.py:462 | `list(d.keys())` holds exactly the keys of the dict |
| TreeviewOps.MaxKey | src/vois/vuetify/treeview.py:592 | `max(d.keys())` is a key not below any other key |
| TreeviewOps.GetActive | src/vois/vuetify/treeview.py:467-474 | None without an active node; otherwise the active id's fullname, or KeyError when the id is not indexed |
| TreeviewOps.FirstChildFullnameAsWritten | src/vois/vuetify/treeview.py:504-512 | None for an unknown fullname; IndexError for a node whose child list is empty |
| TreeviewOps.FirstChildFullname | src/vois/vuetify/treeview.py:503-512 | None for an unknown fullname or a node without children; a fullname returned is that of the node's first child id |
| TreeviewOps.GetChildren | src/vois/vuetify/treeview.py:524-547 | [] for an unknown fullname; IndexError when there is no first item to search |
| TreeviewOps.AncestorChain | src/vois/vuetify/treeview.py:488-495 | the ids the ancestor walk collects are all below the start id, and there are some exactly when the start id has a parent |
| TreeviewOps.AncestorChainClosed | src/vois/vuetify/treeview.py:488-495 | the collected ids hold the start id's parent and the parent of each collected id: every ancestor is opened |
| TreeviewOps.AncestorChainDistinct | src/vois/vuetify/treeview.py:488-495 | no ancestor id is collected twice |
| TreeviewOps.TreeviewOperations.constructor | src/vois/vuetify/treeview.py:385-390 | the operations object holds the treeview and the four dicts index its items |
| TreeviewOps.TreeviewOperations.DoIndex | src/vois/vuetify/treeview.py:394-405 | the dicts are rebuilt from the items and the treeview is unchanged |
| TreeviewOps.TreeviewOperations.IndexItem | src/vois/vuetify/treeview.py:409-417 | indexing one item extends the four dicts as the recursive indexing of that item does |
| TreeviewOps.TreeviewOperations.SetOpened | src/vois/vuetify/treeview.py:431-436 | KeyError, with nothing changed, exactly when some fullname is unknown; otherwise the opened list is the distinct ids of the fullnames and nothing else changes |
| TreeviewOps.TreeviewOperations.SetSelected | src/vois/vuetify/treeview.py:449-454 | as `setOpened`, for the selected list |
| TreeviewOps.TreeviewOperations.OpenAll | src/vois/vuetify/treeview.py:458-463 | the opened list holds each indexed id once, and nothing else changes |
| TreeviewOps.TreeviewOperations.SetActive | src/vois/vuetify/treeview.py:478-500 | an unknown fullname changes nothing; a known one becomes active and current, and the opened ids become the old ones plus all its ancestors plus node 1, each once |
| TreeviewOps.TreeviewOperations.SetChildren | src/vois/vuetify/treeview.py:552-602 | an unknown fullname changes nothing; for a known one the only item becomes the first item with the node's children replaced by new dicts numbered from one past the largest id, and the dicts are reindexed; a single-item tree with a non-negative root id whose child ids lie above their parent ids keeps that shape, so every parent id in the new `id2parentid` is below its child id and `setActive` can follow |
| TreeviewOps.ReplaceOrdered | src/vois/vuetify/treeview.py:581-600 | giving a dict children whose ids exceed its own keeps every child id above its parent id in a tree with a non-negative root id |
| TreeviewOps.ReplaceSeqOrdered | src/vois/vuetify/treeview.py:585-587 | the same for the recursion over a children list |
| TreeviewOps.ChildDicts | src/vois/vuetify/treeview.py:593-597 | one child dict per fullname, ids counting up from the first free id, name and fullname both the given fullname |
| TreeviewOps.MakeChildren | src/vois/vuetify/treeview.py:593-597 | the loop builds exactly those child dicts |
| TreeviewOps.SelectedRoundTrip | src/vois/vuetify/treeview.py:440-456 | on an indexed tree with unique ids, `getSelected()` after `setSelected(names)` gives back exactly the names |
| TreeviewOps.GetChildrenOfNode | src/vois/vuetify/treeview.py:524-547 | on an indexed single-root tree with unique ids and fullnames, `getChildren` of a node lists its children's fullnames in order |
| TreeviewOps.FirstChildOfNode | src/vois/vuetify/treeview.py:503-512 | on such a tree the corrected `getFirstChildFullname` gives the first child's fullname, or None for a node with no children |
| TreeviewOps.ReplacedFullnameKept | src/vois/vuetify/treeview.py:582-602 | after the children are replaced, the node is still in the tree with the new children, and `fullname2id` still maps its fullname to its id |
| TreeviewOps.ReplacedChildNames | src/vois/vuetify/treeview.py:593-602 | after reindexing, each new child id maps to its own fullname |
| TreeviewOps.SetChildrenThenGetChildren | src/vois/vuetify/treeview.py:552-602 | `getChildren(f)` after `setChildren(f, names)` gives back exactly the names |
| TreeviewOps.AncestorChainOfRoot | src/vois/vuetify/treeview.py:488-497 | on an indexed tree the root has no ancestors, so `setActive` of the root opens only node 1 |
| TreeviewOps.AncestorChainOfChild | src/vois/vuetify/treeview.py:488-495 | the ancestors of a child are its parent followed by the parent's ancestors |
| TreeviewOps.EmptyChildrenFirstChildRaises | src/vois/vuetify/treeview.py:504-512 | after `setChildren('A', [])`, `getFirstChildFullname('A')` raises IndexError as written, where the corrected version returns None |
| TreeNodes.Preorder | src/vois/vuetify/treeview.py:409-417 | the depth-first walk of a dict starts with the dict itself |
| TreeNodes.ChildInPreorder | src/vois/vuetify/treeview.py:412-417 | the children of a dict met by the walk are met by the walk too |
| TreeNodes.CalculateIdsOfLeavesSpec | src/vois/vuetify/treeview.py:820-826 | `calculateIdsOfLeaves(node, listofids)` extends the list by the ids of the childless dicts, depth first and left to right |
| TreeNodes.LeavesWithSharedDefault | src/vois/vuetify/treeview.py:1051-1057 | the module-level version called without a list returns whatever earlier calls left in the shared default list, followed by this tree's leaf ids |
| TreeNodes.SharedDefaultAccumulates | src/vois/vuetify/treeview.py:1051-1057 | two one-node trees in one session: the second call returns [1, 1] where its own leaves are [1] |
| TreeNodes.LeavesOfTree | src/vois/vuetify/treeview.py:829 | with a fresh list, the result is exactly the tree's leaf ids in walk order |
| TreeNodes.Id2NameIsFirstInWalk | src/vois/vuetify/treeview.py:223-230 | `id2Name` returns the fullname of the first dict with the id in the depth-first walk |
| TreeNodes.Id2NameFinds | src/vois/vuetify/treeview.py:223-230 | `id2Name` finds a fullname exactly when some dict carries the id, and the fullname is that dict's |
| TreeNodes.ChildrenSearchAbsent | src/vois/vuetify/treeview.py:530-540 | an id no dict carries gives no children |
| TreeNodes.ChildrenSearchFinds | src/vois/vuetify/treeview.py:530-540 | with unique ids the search gives exactly the child ids of the dict carrying the id |
| TreeNodes.ReplaceChildren | src/vois/vuetify/treeview.py:582-588 | replacing children keeps the top dict's id and fullname |
| TreeNodes.ReplaceAbsent | src/vois/vuetify/treeview.py:582-588 | an id no dict carries leaves the tree unchanged |
| TreeNodes.ReplaceSearch | src/vois/vuetify/treeview.py:582-588 | after the replacement, the children search for the id gives the new children's ids |
| TreeNodes.ReplaceMatches | src/vois/vuetify/treeview.py:582-588 | every dict of the new tree carrying the id has exactly the new children |
| TreeNodes.ReplaceFrom | src/vois/vuetify/treeview.py:582-588 | every dict of the new tree is a new child or has the id and fullname of an old dict |
| TreeNodes.ReplaceKeepsId2Name | src/vois/vuetify/treeview.py:582-588 | the fullname found for the replaced id does not change |
| TreeNodes.ExpandGrows | src/vois/vuetify/treeview.py:205-212 | `expandSelectionToParents` only appends to the selection: the old selection is a prefix of the new |
| TreeNodes.ExpandAddsInnerIds | src/vois/vuetify/treeview.py:205-212 | only ids of dicts with a 'children' key are added |
| TreeNodes.ExpandKeepsDistinct | src/vois/vuetify/treeview.py:211 | a selection without repeats stays without repeats |
| TreeNodes.ExpandFromAllLeaves | src/vois/vuetify/treeview.py:205-212 | when every leaf is selected, every dict of the tree ends up selected |
| TreeNodes.ExpandSelectsFullParent | src/vois/vuetify/treeview.py:206-212 | a dict whose children are all selected ends up selected |
| TreeNodes.CustomTreeview.constructor | src/vois/vuetify/treeview.py:102 | the treeview starts with the given selection |
| TreeNodes.CustomTreeview.ExpandSelectionToParents | src/vois/vuetify/treeview.py:205-212 | the new selection is the recursive expansion of the old one, to which the lemmas above apply |
| TreeviewBuilder.Attach | src/vois/vuetify/treeview.py:783-795 | appending a child keeps the parent's id and names, gives it a 'children' key, and its child list is the old one (or the repeated parent when it had none) followed by the child |
| TreeviewBuilder.AttachKeepsArena | src/vois/vuetify/treeview.py:783-795 | appending a registered dict to an older registered parent keeps every child link pointing to a later-created dict, and keeps every id |
| TreeviewBuilder.AddKeepsArena | src/vois/vuetify/treeview.py:775-782 | registering a fresh dict with the next id keeps the registry well formed |
| TreeviewBuilder.CoreAdd | src/vois/vuetify/treeview.py:775-782 | registering a fresh dict keeps the registry invariant, keeps every id, and keeps every dict under its own fullname |
| TreeviewBuilder.CoreAttach | src/vois/vuetify/treeview.py:783-795 | appending, with or without a repeated parent taking the next id, keeps the registry invariant |
| TreeviewBuilder.Materialize | src/vois/vuetify/treeview.py:845 | the nested dict read out of the registry has the registered id, names and number of children |
| TreeviewBuilder.ForestRegister | src/vois/vuetify/treeview.py:775-782 | a fresh dict with the next id and no children forms a subtree of its own id alone; every other subtree keeps its ids, and none of them holds the new id |
| TreeviewBuilder.ForestAttach | src/vois/vuetify/treeview.py:783-795 | appending a fresh childless dict, after the repeated parent when one is given, adds its id (and the repeated parent's) to the subtree of the parent and of every dict above it; the subtrees stay disjoint below the next id, and each repeated parent stays a leaf with an id of its own above its parent's |
| TreeviewBuilder.MaterializeShape | src/vois/vuetify/treeview.py:845 | the tree read out of a registry key has unique ids in its walk, each child's id above its parent's, and exactly the ids of that key's subtree |
| TreeviewBuilder.MaterializeKidsShape | src/vois/vuetify/treeview.py:845 | the same for a 'children' list: unique ids, each child above the parent, and the disjoint union of the entries' subtrees |
| TreeviewBuilder.NoCopiesAdd | src/vois/vuetify/treeview.py:775-782 | registering a dict adds no repeated-parent copy to any 'children' list |
| TreeviewBuilder.NoCopiesAttach | src/vois/vuetify/treeview.py:783-795 | without the repeated parent, appending a child adds no copy either |
| TreeviewBuilder.MaterializeBacked | src/vois/vuetify/treeview.py:845 | with every dict registered under its fullname and no repeated parent, each dict of the tree is the registered dict of its fullname, with its id |
| TreeviewBuilder.BackedDistinct | src/vois/vuetify/treeview.py:845 | a walk with unique ids whose dicts are so registered holds no fullname twice |
| TreeviewBuilder.ListTreeBuilder.constructor | src/vois/vuetify/treeview.py:799-803 | the root is the only dict, with id 1, `nextid` is 2, and the root's name maps to 1 |
| TreeviewBuilder.ListTreeBuilder.AddPaths | src/vois/vuetify/treeview.py:806-817 | after the path loop the registered fullnames are the old ones plus every prefix of every name, with no id changed |
| TreeviewBuilder.ListTreeBuilder.AddPath | src/vois/vuetify/treeview.py:807-817 | one name registers every prefix of its parts, with no id changed |
| TreeviewBuilder.ListTreeBuilder.AddPart | src/vois/vuetify/treeview.py:810-817 | the fullname grows by one part; a known fullname changes nothing; a new one becomes a child of the dict of the previous fullname, or of the root |
| TreeviewBuilder.ListTreeBuilder.AddNode | src/vois/vuetify/treeview.py:768-797 | a known name changes nothing; a new one gets the next id and is registered, and below a parent it is appended to the parent's children, after a repeated parent when the list is new and that option is on |
| TreeviewBuilder.ListTreeBuilder.AddChild | src/vois/vuetify/treeview.py:770-795 | a new name below a registered parent is registered and then appended to that parent |
| TreeviewBuilder.ListTreeBuilder.Register | src/vois/vuetify/treeview.py:771-782 | the new dict takes the next id, is registered under the name, and its substituted fullname maps to the id |
| TreeviewBuilder.ListTreeBuilder.AttachTo | src/vois/vuetify/treeview.py:783-795 | a parent without children gets a new list, started by the repeated parent (taking the next id) when that option is on and the parent is not the root, then the child |
| TreeviewBuilder.KnownIds | src/vois/vuetify/treeview.py:830 | the ids of the names that are known, each known name contributing its id in order, unknown names skipped |
| TreeviewBuilder.SelectedIds | src/vois/vuetify/treeview.py:828-830 | with `select_all` every leaf id in walk order; otherwise the ids of the known selected names |
| TreeviewBuilder.OpenedIds | src/vois/vuetify/treeview.py:834-837 | nothing with `opened_all`; the root alone when no name is given; otherwise the ids of the known opened names |
| TreeviewBuilder.ActiveIdOrRaise | src/vois/vuetify/treeview.py:840-843 | KeyError exactly for an unknown active name; otherwise its id, or None |
| TreeviewBuilder.ActiveIdOrNone | src/vois/vuetify/treeview.py:1253-1256 | the id of a known active name, and None otherwise |
| TreeviewBuilder.CreateTreeviewFromList | src/vois/vuetify/treeview.py:611-845 | the registry holds the root and every prefix of every name; the tree's single item is the root with id 1, with its selected, opened and active ids; KeyError exactly for an unknown active name; the tree's walk has unique ids, each child's id above its parent's and so every parent id below its child's in the index; without repeated parents and substitutions no fullname occurs twice |
| TreeviewBuilder.ColumnsTreeBuilder.constructor | src/vois/vuetify/treeview.py:1219-1224 | an empty root name becomes 'Root', which is the only dict, with id 1 |
| TreeviewBuilder.ColumnsTreeBuilder.AddNode | src/vois/vuetify/treeview.py:1011-1047 | a known fullname returns its dict and changes nothing, `nextid` included; a new one gets the next id and is appended to the parent as in the nested `addNode` |
| TreeviewBuilder.ColumnsTreeBuilder.Register | src/vois/vuetify/treeview.py:1027-1033 | the new dict is registered under its fullname, which maps to the next id |
| TreeviewBuilder.ColumnsTreeBuilder.AttachTo | src/vois/vuetify/treeview.py:1034-1046 | as the nested `addNode`, with the repeated parent's fullname one level below the parent |
| TreeviewBuilder.ColumnsTreeBuilder.AddRow | src/vois/vuetify/treeview.py:1227-1237 | one row registers the parent under the root and the child under the parent |
| TreeviewBuilder.ColumnsTreeBuilder.AddBelow | src/vois/vuetify/treeview.py:1018-1020 | a name below a registered dict is registered under the parent's fullname, the separator and the name |
| TreeviewBuilder.ColumnsTreeBuilder.AddRows | src/vois/vuetify/treeview.py:1227-1237 | after the row loop the registry holds the root, one dict per distinct parent and one per distinct parent and child pair |
| TreeviewBuilder.CreateTreeviewFromDF2Columns | src/vois/vuetify/treeview.py:1067-1261 | the tree holds the root and the dicts of the rows; the single item is the root with id 1; an unknown active name gives no active node; the walk has unique ids, each child's id above its parent's and every parent id below its child's in the index; without repeated parents no fullname occurs twice |
| PathTrees.AncestorsWithin | src/vois/treemapPlotly.py:127-129 | every node the ancestor walk visits is registered, and none is deeper than where the walk starts |
| PathTrees.AncestorsFrame | src/vois/treemapPlotly.py:119-129 | registering a new node does not change the ancestors of the nodes already there |
| PathTrees.SubtreeSumAbsent | src/vois/treemapPlotly.py:121-125 | a name not yet registered has nothing in its subtree |
| PathTrees.SubtreeSumAdd | src/vois/treemapPlotly.py:121-129 | registering a node with a value adds that value to the subtree sum of the node itself and of each ancestor, and to no other |
| PathTrees.SubtreeOfRootIsTotal | src/vois/treemapPlotly.py:136-152 | when every node is the root or below it, the root's subtree sum is the sum of all the values |
| PathTrees.AddAlongAncestors | src/vois/treemapPlotly.py:127-129 | the walk adds the value to each ancestor exactly once and leaves every other node as it was |
| PathTrees.RegistryAdd | src/vois/treemapPlotly.py:121-125 | registering a new name after the others, one level below its parent, keeps the registry well formed |
| PathTrees.SumsAdd | src/vois/treemapPlotly.py:119-131 | registering a node and walking its ancestors keeps every node's value equal to the sum of the initial values over its subtree |
| PathTrees.BelowRoot | src/vois/treemapPlotly.py:136-152 | when only the root lacks a parent, every other node has the root among its ancestors |
| PathTrees.RootedTotals | src/vois/treemapPlotly.py:136-152 | below a root that comes first and alone lacks a parent, the root's subtree sum is the total and every later node has a parent |
| PathTrees.AggregatingTree.constructor | src/vois/treemapPlotly.py:133-134 | the registry starts empty |
| PathTrees.AggregatingTree.AddNode | src/vois/treemapPlotly.py:119-131 | a registered name changes nothing and gives None; a new one is registered last with its parent, its value is added to it and to every ancestor, and every value stays the sum over its subtree |
| PathTrees.AggregatingTree.Register | src/vois/treemapPlotly.py:122-125 | the new name comes last, with its parent and its value |
| PathTrees.AggregatingTree.Propagate | src/vois/treemapPlotly.py:127-129 | the value is added to every ancestor of the parent, the parent included, and to nothing else |
| TreemapPlotly.AddKeepsRooted | src/vois/treemapPlotly.py:147-152 | registering a non-root node with a parent and its `valuefor` value keeps the root first and the only node without a parent |
| TreemapPlotly.AddPart | src/vois/treemapPlotly.py:143-152 | the fullname grows by one part; a new fullname is registered below the node of the previous prefix, or below the root when that prefix is not a node |
| TreemapPlotly.AddPath | src/vois/treemapPlotly.py:140-152 | one name registers every prefix of its parts |
| TreemapPlotly.AddPaths | src/vois/treemapPlotly.py:139-152 | after the loop the nodes are the old ones plus every prefix of every name |
| TreemapPlotly.Outputs | src/vois/treemapPlotly.py:156-166 | one label, parent and value per node in registration order, the parent being the parent's name or None |
| TreemapPlotly.NewRooted | src/vois/treemapPlotly.py:133-136 | the tree starts with the root alone, created with 0 and no parent |
| TreemapPlotly.CreateTreemapFromList | src/vois/treemapPlotly.py:59-166 | the root is the first label and the only one without a parent; every prefix of every name is a label once; every value is the sum of the `valuefor` values in its subtree, so the root's value is their total |
| TreemapPlotly.ParentLabelAsWritten | src/vois/treemapPlotly.py:161-163 | the parent label as written: a parent named other than 'None' is kept, no parent gives None |
| TreemapPlotly.NoneNamedParentLost | src/vois/treemapPlotly.py:161-163 | a parent named 'None' is reported as no parent at all |
| IpyTrees.RootOf | src/vois/ipytrees.py:131-133 | there is a root node exactly when `rootName` is non-empty, and it is that name |
| IpyTrees.AddKeepsRootedOpt | src/vois/ipytrees.py:144-149 | registering a non-root name below a node keeps the root (if any) first and alone below the `Tree` |
| IpyTrees.AddKeepsStarted | src/vois/ipytrees.py:147-149 | registering a name with its `valuefor` value keeps every node's starting value its `valuefor` value |
| IpyTrees.NewListTree | src/vois/ipytrees.py:128-133 | the tree starts with the root node alone when `rootName` is non-empty, with no node otherwise |
| IpyTrees.AddPart | src/vois/ipytrees.py:140-149 | the fullname grows by the part joined with '.', whatever the separator; a new one is registered below the previous prefix's node, else the root |
| IpyTrees.AddPath | src/vois/ipytrees.py:137-149 | one name registers every prefix of its parts split at the separator and joined with '.' |
| IpyTrees.CreateIpytreeFromList | src/vois/ipytrees.py:58-158 | the nodes are the root (if any) and every '.'-joined prefix of every name, each once; every value is the sum of the `valuefor` values in its subtree, so a root node holds the total |
| IpyTrees.RowNamesGrows | src/vois/ipytrees.py:218-226 | the row loop keeps the nodes equal to the start ones plus both labels of every row seen |
| IpyTrees.NewColumnsTree | src/vois/ipytrees.py:210-215 | as for the list builder |
| IpyTrees.AddUnder | src/vois/ipytrees.py:193-208 | a new name is registered below the given parent with the given value, and no node registered before changes its parent or starting value |
| IpyTrees.AddRow | src/vois/ipytrees.py:219-226 | a row adds its parent label below the root with 0 and its child label below the parent's node with the row value; a label already seen is not added again |
| IpyTrees.CreateIpytreeFromDF2Columns | src/vois/ipytrees.py:165-232 | the nodes are the root (if any) and every label of both columns once; every value is the sum of the values in its subtree |
| SortableList.Swap | src/vois/vuetify/sortableList.py:361-365 | a tuple swap exchanges the two entries and leaves every other entry in place |
| SortableList.RemoveAt | src/vois/vuetify/sortableList.py:434-438 | `del s[i]` shortens the list by one, keeping the entries before `i` and shifting the later ones down |
| SortableList.SwapPermutes | src/vois/vuetify/sortableList.py:361-365 | a swap keeps the same items |
| SortableList.RemoveAtMultiset | src/vois/vuetify/sortableList.py:434 | a removal drops exactly the removed item |
| SortableList.DisableOnly | src/vois/vuetify/sortableList.py:338-342 | after `update_buttons` exactly one button of a list is disabled (the last down button, the first up button), each button staying on its row |
| SortableList.SetRaised | src/vois/vuetify/sortableList.py:584-589 | setting `raised` on one card leaves the others as they are |
| SortableList.SwapKeepsRaised | src/vois/vuetify/sortableList.py:346-380 | after a swap the raised card is at the position the active row moved to |
| SortableList.RemoveKeepsRaised | src/vois/vuetify/sortableList.py:427-438 | after a removal the raised card is at the adjusted active index, or none is raised when the active row was removed |
| SortableList.ReraiseKeeps | src/vois/vuetify/sortableList.py:583-589 | lowering a card and raising the active one again gives back the same cards |
| SortableList.SortableList.constructor | src/vois/vuetify/sortableList.py:237-295 | the caller's list object itself is kept (not a copy), nothing is active, nothing is reported, and with an `itemContent` one card and three buttons per item, only the first up and last down buttons disabled |
| SortableList.SortableList.AddAll | src/vois/vuetify/sortableList.py:289-290 | the loop of `__init__` creates the widgets of every item in order |
| SortableList.SortableList.AddWidgets | src/vois/vuetify/sortableList.py:465-511 | without `itemContent` nothing changes; otherwise one new card and down, up and remove buttons go first (on top) or last, the down button disabled when last and the up button when first |
| SortableList.SortableList.OnAdd | src/vois/vuetify/sortableList.py:299-308 | no new item changes nothing; a new one goes first or last into the kept list object, with its card and buttons placed as `doAddItem` places them and the active index shifted on top, reported as changed and as added at the position it took |
| SortableList.SortableList.DoAddItem | src/vois/vuetify/sortableList.py:312-334 | the item is inserted in place into the kept list object, first (on top) or last; the new card and buttons go to the same end, the old first up (or last down) button is re-enabled and the new row's up (or down) button disabled; the active index keeps pointing at the same item; the change is reported |
| SortableList.SortableList.UpdateButtons | src/vois/vuetify/sortableList.py:338-342 | only the last down button and the first up button are disabled |
| SortableList.SortableList.SetActive | src/vois/vuetify/sortableList.py:581-591 | an index outside the cards changes nothing; otherwise the old active card is lowered and reported deactivated, and the new one raised and reported activated |
| SortableList.SortableList.Activate | src/vois/vuetify/sortableList.py:581-591 | on a valid list the active setter keeps exactly the active card raised; an index outside the cards changes nothing, otherwise the old active card is reported deactivated and the new one activated |
| SortableList.SortableList.OnClickCard | src/vois/vuetify/sortableList.py:457-461 | a click activates the card, with the deactivated/activated reports, only when the list is activatable; otherwise cards, active index and reports stay as they were |
| SortableList.SortableList.SwapRows | src/vois/vuetify/sortableList.py:357-366 | rows a and a+1 trade places in every parallel list, the buttons are re-flagged, and the raised card moves with its row |
| SortableList.SortableList.OnDown | src/vois/vuetify/sortableList.py:346-380 | an enabled down button swaps its row with the next in every list; the active index follows the active row; the change, the move and any reactivation are reported in order |
| SortableList.SortableList.OnUp | src/vois/vuetify/sortableList.py:384-418 | an enabled up button swaps its row with the previous one, with the same bookkeeping |
| SortableList.SortableList.OnDel | src/vois/vuetify/sortableList.py:422-446 | the row is removed from every list; the active index becomes -1 when it was the removed row and shifts down when it was after it; removing, deactivation, change and removal are reported in order |
| SortableList.SortableList.RemoveRow | src/vois/vuetify/sortableList.py:434-440 | the row leaves every parallel list and the buttons are re-flagged |
| SortableList.SortableList.SetItems | src/vois/vuetify/sortableList.py:543-563 | the given list object itself becomes the items, nothing is active, the widgets are rebuilt one row per item, and the change is reported |
| SortableList.SharedDefaultExample | src/vois/vuetify/sortableList.py:231-237 | as written, an item added to one list built without items appears in a second list built afterwards, which gets a card for it |
| SortableList.NewWithoutItems | src/vois/vuetify/sortableList.py:231-237 | with a fresh default list, a list built without items starts empty with a list object of its own |
| SortableList.FreshDefaultExample | src/vois/vuetify/sortableList.py:231-237 | with the fresh default, adding to the first list leaves a second one empty |
| SortableList.DownThenUpRestores | src/vois/vuetify/sortableList.py:346-418 | moving a row down and then back up gives the original list |
| Layers.AllFields | src/vois/vuetify/layers.py:95-113 | the settings list names every optional setting |
| Layers.NormaliseSpec | src/vois/vuetify/layers.py:116-136 | an 'inv' prefix of the colour scheme becomes the reverse flag and is dropped; `interpolate` defaults to 'NEAREST' when missing or empty; no other setting changes; the mode is discrete exactly with a colour map, otherwise continuous, with the custom colours split at ',' when given |
| Layers.Serialised | src/vois/vuetify/layers.py:235-280 | the dictionary always carries the format; with a path it carries only the path, otherwise every setting that is set, the length-checked ones only when non-empty |
| Layers.RoundTrip | src/vois/vuetify/layers.py:235-372 | a path-less layer saved with `toDict` reads back with `fromDict` without error, to the same carried settings, which normalise to themselves |
| Layers.PathRoundTrip | src/vois/vuetify/layers.py:238-311 | a layer with a non-empty path saves only the path and reads back to that path alone |
| Layers.InteraproLayer.constructor | src/vois/vuetify/layers.py:69-136 | the name, visibility, opacity and path as given, the settings normalised |
| Layers.InteraproLayer.Normalize | src/vois/vuetify/layers.py:116-136 | TypeError exactly when a length-checked setting or `interpolate` is not a string; otherwise the state is the normalisation of the settings |
| Layers.InteraproLayer.ReadColorscheme | src/vois/vuetify/layers.py:116-120 | the 'inv' prefix is moved into the reverse flag and `interpolate` is left alone |
| Layers.InteraproLayer.ReadMode | src/vois/vuetify/layers.py:128-136 | discrete with a colour map; continuous and predefined with custom colours split at ','; continuous and not predefined otherwise |
| Layers.InteraproLayer.ToDict | src/vois/vuetify/layers.py:235-280 | the dictionary is the serialisation of the path and settings |
| Layers.InteraproLayer.FromDict | src/vois/vuetify/layers.py:284-372 | name, visibility and opacity are reset; it succeeds exactly when the format key exists and, for the known format, the read values are strings where `len` is applied; another format clears the settings; the known one loads the path or the non-empty settings and normalises them |
| Layers.KeepSettings | src/vois/vuetify/layers.py:313-350 | TypeError exactly when a length-checked setting present is not a string; otherwise the carried settings of the given keys |
| LayerManager.CollectSpec | src/vois/vuetify/layers.py:845-855 | the collected items are the non-base map layers in reverse map order, each copying its map layer at its `mapindex`, with ids counting 0, 1, 2, ... in map order |
| LayerManager.CollectOnlyFirstBase | src/vois/vuetify/layers.py:845-855 | on a map whose only base layer is at the bottom every other layer is collected, the item at row p describing the map layer at position |list| - p |
| LayerManager.Reindexed | src/vois/vuetify/layers.py:878-881 | renumbering keeps the number of items |
| LayerManager.Ids | src/vois/vuetify/layers.py:882-883 | one layer id per item |
| LayerManager.IndexedPrefix | src/vois/vuetify/layers.py:875-883 | after p steps of `indexLayers` the two dictionaries hold exactly the ids of the first p items and the positions |list| down to |list| - p + 1, each mapping to the other |
| LayerManager.IndexedByIndexLayers | src/vois/vuetify/layers.py:875-883 | with distinct ids, `indexLayers` leaves two dictionaries describing the list |
| LayerManager.IndexedInverse | src/vois/vuetify/layers.py:875-883 | `layerid2mapindex` and `mapindex2layerid` are inverse to each other |
| LayerManager.SwapAligned | src/vois/vuetify/layers.py:887-893 | swapping two neighbouring rows and their map layers keeps map and list aligned |
| LayerManager.RemoveAligned | src/vois/vuetify/layers.py:905-911 | removing a row and its map layer keeps map and list aligned |
| LayerManager.ReindexedIds | src/vois/vuetify/layers.py:878-881 | renumbering keeps every layer id |
| LayerManager.SwapIds | src/vois/vuetify/sortableList.py:361 | swapping rows swaps their ids |
| LayerManager.SwapDistinct | src/vois/vuetify/layers.py:887-902 | swapping keeps the ids distinct and below the next id |
| LayerManager.MoveKeeps | src/vois/vuetify/layers.py:887-893 | in a consistent manager rows i and i + 1 sit at map positions |list| - i and one below; swapping both and re-indexing keeps it consistent |
| LayerManager.SwapIndexed | src/vois/vuetify/layers.py:887-902 | after a swap the ids stay distinct and the rebuilt dictionaries describe them |
| LayerManager.RemoveKeeps | src/vois/vuetify/layers.py:905-911 | in a consistent manager row i sits at map position |list| - i; removing both and re-indexing keeps it consistent |
| LayerManager.AddKeeps | src/vois/vuetify/layers.py:915-938 | adding a layer on top of list and map, with the next id, and extending both dictionaries keeps the manager consistent |
| LayerManager.LookupKeeps | src/vois/vuetify/layers.py:960-971 | `layerid2mapindex` leads from a row to its map layer, and changing both alike keeps the manager consistent |
| LayerManager.InitKeeps | src/vois/vuetify/layers.py:838-858 | a map whose only base layer is at the bottom gives a consistent manager |
| LayerManager.CollectLayers | src/vois/vuetify/layers.py:845-855 | the loop collects exactly the items of the reference collection, and the next id is their number |
| LayerManager.Layers.constructor | src/vois/vuetify/layers.py:838-858 | the items are the collected ones renumbered; on a map whose only base layer is at the bottom the manager starts consistent |
| LayerManager.Layers.IndexLayers | src/vois/vuetify/layers.py:875-883 | the items are renumbered |list| down to 1 from the top and the two dictionaries are rebuilt from them |
| LayerManager.Layers.MoveDown | src/vois/vuetify/layers.py:887-893 | IndexError with nothing changed on the last row; otherwise the rows swap, then the map layers at the two rows' positions swap and the manager is re-indexed, or IndexError when a position is past the map |
| LayerManager.Layers.MoveUp | src/vois/vuetify/layers.py:896-902 | the same, with the row above |
| LayerManager.Layers.Remove | src/vois/vuetify/layers.py:905-911 | IndexError with nothing changed past the list; otherwise the map layer at the row's position (if any) and the row are removed and the manager re-indexed |
| LayerManager.Layers.AddNewLayer | src/vois/vuetify/layers.py:915-938 | a non-base item goes on top of the list with the next id and the position past the map, its layer goes on top of the map, and a consistent manager stays consistent |
| LayerManager.Layers.OnVisible | src/vois/vuetify/layers.py:960-964 | KeyError for an unknown id before any change; otherwise the row's flag flips first, then the map layer at that position (Python indexing) takes the new flag, or IndexError outside the map with the row already flipped and the map unchanged |
| LayerManager.Layers.OnOpacity | src/vois/vuetify/layers.py:967-971 | KeyError for an unknown id before any change; otherwise the row first gets a tenth of the slider value, then its map layer does, or IndexError outside the map with the row already changed and the map unchanged |
| MapFolds.UpdAllConcat | src/vois/vuetify/treeview.py:409-417 | assigning the pairs of two lists in turn is assigning the pairs of their concatenation |
| MapFolds.UpdAllDomain | src/vois/vuetify/treeview.py:409-417 | the keys after the assignments are the old keys plus the assigned ones |
| MapFolds.UpdAllUntouched | src/vois/vuetify/treeview.py:409-417 | a key no pair assigns keeps its value |
| MapFolds.UpdAllAgreed | src/vois/vuetify/treeview.py:409-417 | a key every pair assigns the same value gets that value |
| MapFolds.UpdAllUniqueKey | src/vois/vuetify/treeview.py:409-417 | a key assigned by a single pair gets that pair's value |
| MapFolds.UpdAllValues | src/vois/vuetify/treeview.py:409-417 | every value after the assignments is the old one or that of some pair |
| MapFolds.UpdAllInverseFrom | src/vois/vuetify/treeview.py:410-411 | assigning pairs to a dict and their swaps to its inverse keeps the two dicts inverse, when the pairs' values are new and distinct |
| MapFolds.UpdAllInverse | src/vois/vuetify/treeview.py:410-411 | from empty dicts, assigning pairs with distinct values and their swaps gives two inverse dicts |
| Wrappers.PyIndex | src/vois/vuetify/Toggle.py:325-330 | a Python position is valid exactly when it lies in [-n, n); the index it reaches is the position itself or, counted from the end, n plus it |
| Toggle.Toggle.constructor | src/vois/vuetify/Toggle.py:112-207 | button i is selected exactly when i is the initial index, so with an index in range exactly one button is selected |
| Toggle.Toggle.Click | src/vois/vuetify/Toggle.py:325-330 | the button at the old index (negative counts from the end) is deselected and the clicked one selected, and the click is reported; an old index off either end raises IndexError and changes nothing; one selected button stays one |
| Toggle.Toggle.SetValue | src/vois/vuetify/Toggle.py:232-238 | a value outside the buttons changes and reports nothing; any other acts as a click on that button |
| Toggle.Toggle.SetDark | src/vois/vuetify/Toggle.py:318-322 | every button takes the new dark flag and nothing else changes |
| MultiSwitch.Exclusive | src/vois/vuetify/MultiSwitch.py:268-283 | the flags after a double click: the k-th set and every other clear |
| MultiSwitch.ExclusiveCount | src/vois/vuetify/MultiSwitch.py:268-283 | a double click leaves exactly one flag set when k is an option, none otherwise |
| MultiSwitch.MultiSwitch.constructor | src/vois/vuetify/MultiSwitch.py:120-227 | every button shows its option's initial flag and nothing has been reported |
| MultiSwitch.MultiSwitch.Click | src/vois/vuetify/MultiSwitch.py:261-265 | only flag k flips, the buttons follow, and the new flags are reported |
| MultiSwitch.MultiSwitch.DblClick | src/vois/vuetify/MultiSwitch.py:268-283 | with double-click management only option k stays set and the flags are reported; without it nothing changes |
| MultiSwitch.MultiSwitch.SetValue | src/vois/vuetify/MultiSwitch.py:252-258 | a list of the same length replaces the flags and is reported; one of another length is ignored |
| RangeSlider.DefaultMaxint | src/vois/vuetify/rangeSliderFloat.py:109-119 | without a given maxint, 10 to the number of decimals, kept between 10 and 100000 |
| RangeSlider.ClampBounds | src/vois/vuetify/rangeSliderFloat.py:344 | the clamped value lies in the range, is an end when the value is beyond it and the value itself inside it |
| RangeSlider.TruncMonotone | src/vois/vuetify/rangeSliderFloat.py:344 | Python int() of non-negative reals keeps order and stays non-negative |
| RangeSlider.TruncBound | src/vois/vuetify/rangeSliderFloat.py:344 | int() of a real in [0, n] lies in [0, n] |
| RangeSlider.QuotientBounds | src/vois/vuetify/rangeSliderFloat.py:344 | an offset within the range scales into [0, maxint], the ends to the ends |
| RangeSlider.QuotientMonotone | src/vois/vuetify/rangeSliderFloat.py:344 | scaling keeps the order of offsets |
| RangeSlider.Float2IntegerBounds | src/vois/vuetify/rangeSliderFloat.py:343-344 | on a proper range every value converts into [0, maxint], values at or below the minimum to 0 and at or above the maximum to maxint |
| RangeSlider.Float2IntegerMonotone | src/vois/vuetify/rangeSliderFloat.py:343-344 | the conversion keeps the order of values |
| RangeSlider.Arranged | src/vois/vuetify/rangeSliderFloat.py:380-386 | the pair is put in order and each end clipped to the range only where it lies outside it; the result can be reversed only after a clip |
| RangeSlider.RangeSlider.constructor | src/vois/vuetify/rangeSliderFloat.py:95-147 | maxint is the given one or the default; the initial integers are the converted selection and the slider starts on them; on a proper range with an ordered selection the slider pair is ordered within [0, maxint]; the slider and every button start enabled |
| RangeSlider.RangeSlider.OnSliderChange | src/vois/vuetify/rangeSliderFloat.py:279-297 | the pair is reported and each step button is disabled exactly when its step is not allowed |
| RangeSlider.RangeSlider.UpMin | src/vois/vuetify/rangeSliderFloat.py:301-305 | below the upper end the lower end rises by one and is reported; otherwise nothing changes; the ordered pair within bounds is kept |
| RangeSlider.RangeSlider.DnMin | src/vois/vuetify/rangeSliderFloat.py:308-312 | above zero the lower end falls by one and is reported; otherwise nothing changes; the invariant is kept |
| RangeSlider.RangeSlider.UpMax | src/vois/vuetify/rangeSliderFloat.py:322-326 | below maxint the upper end rises by one and is reported; otherwise nothing changes; the invariant is kept |
| RangeSlider.RangeSlider.DnMax | src/vois/vuetify/rangeSliderFloat.py:329-333 | above the lower end the upper end falls by one and is reported; otherwise nothing changes; the invariant is kept |
| RangeSlider.RangeSlider.ResetMin | src/vois/vuetify/rangeSliderFloat.py:315-318 | the lower end returns to its initial integer, unchecked, and the pair stays ordered exactly when that integer is not above the upper end |
| RangeSlider.RangeSlider.ResetMax | src/vois/vuetify/rangeSliderFloat.py:336-339 | the upper end returns to its initial integer, unchecked, and the pair stays ordered exactly when the lower end is not above it |
| RangeSlider.RangeSlider.SetValue | src/vois/vuetify/rangeSliderFloat.py:378-391 | the slider takes the arranged pair converted to integers and reports it; on a proper range the pair is ordered within [0, maxint] |
| RangeSlider.RangeSlider.SetDisabled | src/vois/vuetify/rangeSliderFloat.py:400-411 | the slider, the reset buttons (when created) and all four step buttons take the flag, and the pair is untouched; afterwards the step buttons can disagree with the allowed steps (enabled on an equal pair, or disabled on a pair with 0 < v1 < v2, whose lower end may move both ways) |
| PaletteEditor.ColorList2Items | src/vois/vuetify/paletteEditor.py:55-69 | one entry per colour, in order, each valued 0 with an empty class |
| PaletteEditor.ItemColors | src/vois/vuetify/paletteEditor.py:486-503 | the entries' colours, one per entry, in order |
| PaletteEditor.ItemColorsOfColorList | src/vois/vuetify/paletteEditor.py:55-69 | reading the colours of the entries built from a colour list gives the list back |
| PaletteEditor.UpperConcat | src/vois/vuetify/paletteEditor.py:74-75 | upper-casing distributes over concatenation |
| PaletteEditor.RGB | src/vois/vuetify/paletteEditor.py:74-75 | the `{:02X}` form of the three channels is the upper-case form of the `{:02x}` one |
| PaletteEditor.UpperByte | src/vois/vuetify/paletteEditor.py:74-75 | a byte printed with `{:02X}` is two upper-case hexadecimal digits denoting it |
| PaletteEditor.RGBSpec | src/vois/vuetify/paletteEditor.py:74-75 | an in-range colour prints as `#` and six upper-case digits, each pair denoting its channel |
| PaletteEditor.ParseUpperPair | src/vois/vuetify/paletteEditor.py:74-75 | two upper-case hexadecimal digits parse back to the value they denote |
| PaletteEditor.RGBRoundTrip | src/vois/vuetify/paletteEditor.py:74-75 | `hex2rgb` reads an in-range colour printed by `RGB` back to its channels |
| PaletteEditor.Renumbered | src/vois/vuetify/paletteEditor.py:403-423 | the renumbered entries, one per entry |
| PaletteEditor.RenumberedSpec | src/vois/vuetify/paletteEditor.py:403-423 | colours and classes are kept, the first value is the start and each value is one more than the one before |
| PaletteEditor.AscendingKeepsFirst | src/vois/vuetify/paletteEditor.py:403-411 | the ascending renumbering keeps the first entry as it was |
| PaletteEditor.DescendingKeepsLast | src/vois/vuetify/paletteEditor.py:415-423 | the descending renumbering ends at the old last value and keeps the last entry |
| PaletteEditor.Recolored | src/vois/vuetify/paletteEditor.py:507-514 | one entry per entry |
| PaletteEditor.RecoloredSpec | src/vois/vuetify/paletteEditor.py:507-514 | the colours repeat the list cyclically, values and classes are kept |
| PaletteEditor.RecoloredRoundTrip | src/vois/vuetify/paletteEditor.py:486-514 | setting as many colours as entries and reading them back gives that list |
| PaletteEditor.Reverse | src/vois/vuetify/paletteEditor.py:375-378 | entry i of the result is entry n-1-i of the list |
| PaletteEditor.ReverseTwice | src/vois/vuetify/paletteEditor.py:375-378 | reverting twice restores the order |
| PaletteEditor.PaletteEditor.constructor | src/vois/vuetify/paletteEditor.py:130-236 | the editor holds the given entries |
| PaletteEditor.PaletteEditor.CurrentColors | src/vois/vuetify/paletteEditor.py:486-503 | the getter returns the entries' colours and changes nothing |
| PaletteEditor.PaletteEditor.OnRevert | src/vois/vuetify/paletteEditor.py:375-378 | the entries in reverse order |
| PaletteEditor.PaletteEditor.OnZero | src/vois/vuetify/paletteEditor.py:393-399 | every entry valued 0, colour and class kept |
| PaletteEditor.PaletteEditor.OnAsc | src/vois/vuetify/paletteEditor.py:403-411 | values rising by one from the first value; an empty palette is left alone |
| PaletteEditor.PaletteEditor.OnDesc | src/vois/vuetify/paletteEditor.py:415-423 | values rising by one to the old last value; an empty palette is left alone |
| PaletteEditor.PaletteEditor.SetColors | src/vois/vuetify/paletteEditor.py:507-514 | entry i takes colour i modulo the list's length; an empty list raises ZeroDivisionError on a non-empty palette and changes nothing |
| SelectSingle.Accepted | src/vois/vuetify/selectSingle.py:185-195 | an allowed value is stored as it is, a missing or empty one as `''`, and any other raises ValueError; these three cases are exactly the outcomes |
| SelectSingle.SetGetRoundTrip | src/vois/vuetify/selectSingle.py:156-190 | assigning a value whose reverse mapping is allowed and reading it back through the mapping gives the value, when the two mappings are inverse |
| SelectSingle.Colors | src/vois/vuetify/selectSingle.py:134-140 | with a coloured background and a non-empty allowed selection the text takes the select colour and the background the widget colour; otherwise the widget colour on white |
| SelectSingle.SelectSingle.constructor | src/vois/vuetify/selectSingle.py:97-131 | the selection is stored as the setter stores it and nothing has been reported; the widget shows it on the background `__getColors` computes, while its colour is the widget colour itself (not the highlighted text colour) until the first input |
| SelectSingle.SelectSingle.Value | src/vois/vuetify/selectSingle.py:156-176 | the stored value, passed through the mapping when there is one |
| SelectSingle.SelectSingle.SetValue | src/vois/vuetify/selectSingle.py:178-195 | an allowed value is stored, shown and reported; a missing or empty one stores `''` without touching the widget or reporting; any other raises ValueError and changes nothing |
| SelectSingle.SelectSingle.OnInput | src/vois/vuetify/selectSingle.py:143-148 | the widget's choice is stored unchecked, the colours follow it and it is reported |
| SelectSingle.Create | src/vois/vuetify/selectSingle.py:97-108 | construction raises ValueError exactly when the setter refuses the selection, and otherwise stores what the setter stores |
| SelectImage.AllCompleted | src/vois/vuetify/selectImage.py:163-174 | one description per image |
| SelectImage.AllCompletedSpec | src/vois/vuetify/selectImage.py:163-174 | each image carries its position as index and every key; a present key keeps its value, a missing one gets the default, the image source is untouched |
| SelectImage.AllCompletedIdempotent | src/vois/vuetify/selectImage.py:245-257 | completing completed images again changes nothing |
| SelectImage.Complete | src/vois/vuetify/selectImage.py:163-174 | the loop numbers and completes every image |
| SelectImage.SelectImage.constructor | src/vois/vuetify/selectImage.py:152-188 | the images are completed; an integer selection naming an image selects it, anything else selects none; the chosen index and the selection agree |
| SelectImage.SelectImage.OnInput | src/vois/vuetify/selectImage.py:192-198 | the index sent by the widget is taken unchecked, -1 without one, and reported |
| SelectImage.SelectImage.SetValue | src/vois/vuetify/selectImage.py:223-231 | an integer index of an image (booleans count) selects it; anything else gives -1 and `''`; the call is reported either way |
| SelectImage.SelectImage.SetImages | src/vois/vuetify/selectImage.py:235-260 | the new images are completed and the selection cleared, with no report |
| DatePicker.ActivatorHook | src/vois/vuetify/DatePicker.py:129-132 | the text field opens the menu exactly when the picker is not disabled |
| DatePicker.DatePicker.constructor | src/vois/vuetify/DatePicker.py:93-153 | a missing date is today's; the text field and the picker show the date, and the hook follows the disabled flag |
| DatePicker.DatePicker.OnInput | src/vois/vuetify/DatePicker.py:159-163 | the picked date is stored, copied to the text field and reported |
| DatePicker.DatePicker.SetDate | src/vois/vuetify/DatePicker.py:193-204 | a string of ten characters with dashes at 4 and 7 is stored everywhere and reported; anything else stores None everywhere without a report |
| DatePicker.DatePicker.SetDisabled | src/vois/vuetify/DatePicker.py:227-234 | the flag is stored and the hook cleared exactly when disabled |
| EuCountries.StrLtAsymmetric | src/vois/eucountries.py:200 | no two strings are each below the other under Python's string order |
| EuCountries.StrLtTransitive | src/vois/eucountries.py:200 | Python's string order is transitive |
| EuCountries.StrLtTotal | src/vois/eucountries.py:200 | any two strings are equal or one is below the other |
| EuCountries.InsertBy | src/vois/eucountries.py:200 | one insertion step of the stable sort adds exactly the element |
| EuCountries.InsertSorted | src/vois/eucountries.py:200 | inserting into a key-sorted list keeps it sorted |
| EuCountries.SortBy | src/vois/eucountries.py:200 | `sorted(s, key=...)` has as many elements as s |
| EuCountries.SortByPermutes | src/vois/eucountries.py:200 | the sort returns the same elements with their multiplicities |
| EuCountries.SortBySorted | src/vois/eucountries.py:200 | the sort returns the elements in key order |
| EuCountries.SortBySpec | src/vois/eucountries.py:199-202 | the sort is a permutation ordered by key |
| EuCountries.MembersSpec | src/vois/eucountries.py:196-198 | an entry is listed exactly when it is registered, is a country and, for the euro listing, uses the euro |
| EuCountries.ListingSpec | src/vois/eucountries.py:186-234 | a listing holds exactly the members, once per registration, sorted by name or by code |
| EuCountries.Codes | src/vois/eucountries.py:207-212 | the codes of the countries, in their order |
| EuCountries.Names | src/vois/eucountries.py:249-254 | the names of the countries, in their order |
| EuCountries.FirstSpec | src/vois/eucountries.py:272-273 | the first element with a key is found exactly when one has it, and it is the earliest |
| EuCountries.Countries.constructor | src/vois/eucountries.py:160 | the registry starts empty |
| EuCountries.Countries.Add | src/vois/eucountries.py:87-94 | a known code appends one country with its alpha-3 code and flag URL; an unknown code raises KeyError and adds nothing |
| EuCountries.Countries.Collect | src/vois/eucountries.py:195-198 | the loop keeps exactly the countries of the listing, in registration order |
| EuCountries.Countries.EuroArea | src/vois/eucountries.py:186-202 | the euro countries sorted by name or by code |
| EuCountries.Countries.EuropeanUnion | src/vois/eucountries.py:218-234 | the countries, aggregates excluded, sorted by name or by code |
| EuCountries.Countries.EuroAreaCodes | src/vois/eucountries.py:207-212 | the codes of the euro countries, in name order |
| EuCountries.Countries.EuropeanUnionCodes | src/vois/eucountries.py:239-244 | the codes of the countries, in name order |
| EuCountries.Countries.EuropeanUnionNames | src/vois/eucountries.py:249-254 | the names of the countries, in name order |
| EuCountries.Countries.ByCode | src/vois/eucountries.py:258-273 | the first country with the code, and None exactly when no country has it |
| EuCountries.Countries.ByName | src/vois/eucountries.py:276-291 | the first country with the name, and None exactly when no country has it |
| EuCountries.NamesSorted | src/vois/eucountries.py:249-254 | the listed names are in alphabetical order |
| EuCountries.Abbreviations | src/vois/eucountries.py:419 | the abbreviations of the languages, in their order |
| EuCountries.AbbreviationsSorted | src/vois/eucountries.py:415-419 | the abbreviation listing is every abbreviation, once per language, in alphabetical order |
| EuCountries.Languages.constructor | src/vois/eucountries.py:388 | the registry starts empty |
| EuCountries.Languages.Add | src/vois/eucountries.py:391-392 | one language appended at the end |
| EuCountries.Languages.EuropeanUnionLanguages | src/vois/eucountries.py:398-410 | the languages, each once per registration, sorted by name or by abbreviation |
| EuCountries.Languages.EuropeanUnionAbbreviations | src/vois/eucountries.py:415-419 | every abbreviation, once per language, in alphabetical order |
| EuCountries.Languages.ByAbbreviation | src/vois/eucountries.py:423-438 | the first language with the abbreviation, and None exactly when none has it |
| EuCountries.Languages.ByName | src/vois/eucountries.py:441-456 | the first language with the name, and None exactly when none has it |
| GeoMapUtils.NonPopups | src/vois/geo/mapUtils.py:217-219 | the layers left when the popups are removed, no more of them than before |
| GeoMapUtils.NonPopupsSpec | src/vois/geo/mapUtils.py:217-219 | a layer survives exactly when it was there and is not a popup; a map without popups keeps its layers |
| GeoMapUtils.FindByName | src/vois/geo/mapUtils.py:155-159 | the position of the first layer with the name, and none exactly when no layer has it |
| GeoMapUtils.GetLayer | src/vois/geo/mapUtils.py:184-187 | the first layer with the name, and None exactly when no layer has it |
| GeoMapUtils.PlacedFound | src/vois/geo/mapUtils.py:155-164 | after a layer is placed, looking its name up finds it, and the list grows by one exactly when no layer had that name |
| GeoMapUtils.Map.RemoveAllPopups | src/vois/geo/mapUtils.py:217-219 | walking from the last layer, exactly the popups are removed and the rest keep their order |
| GeoMapUtils.Map.AddLayer | src/vois/geo/mapUtils.py:151-164 | popups removed, the layer renamed and given the opacity, then put in place of the first layer with that name or added at the end, and returned |
| GeoMapUtils.Map.Clear | src/vois/geo/mapUtils.py:232-241 | only the old first layer remains, or no layer when there was none |
| GeoMapUtils.Map.GetCardByName | src/vois/geo/mapUtils.py:274-284 | the card of the first widget control with that name, controls unchanged; otherwise exactly one new card control with that name is added at the position and its card returned |
| GeoMapUtils.FindCard | src/vois/geo/mapUtils.py:274-278 | the position of the first control holding a card with the name, and none exactly when no control does |
| TemplateMapUtils.SubstituteSpec | src/vois/templates/mapUtils.py:346-365 | a value that is no placeholder is kept; when no argument is itself a placeholder each placeholder becomes its argument |
| TemplateMapUtils.SubstituteChains | src/vois/templates/mapUtils.py:346-356 | the tests run one after the other on the same value, so a colour argument equal to 'STROKE-COLOR' is replaced again by the stroke colour |
| TemplateMapUtils.RecoloredLayer | src/vois/templates/mapUtils.py:342-368 | the new layer has no more members than the old |
| TemplateMapUtils.Recolored | src/vois/templates/mapUtils.py:340-372 | the new symbol has one layer per layer |
| TemplateMapUtils.RecoloredLayerConcat | src/vois/templates/mapUtils.py:343-368 | members are processed one at a time, so the kept members stay in their order |
| TemplateMapUtils.RecoloredLayerNoNone | src/vois/templates/mapUtils.py:367-368 | no kept member has the value None |
| TemplateMapUtils.RecoloredLayerMembers | src/vois/templates/mapUtils.py:343-368 | a member is kept exactly when it is the substitution of some old member and its value is not None |
| TemplateMapUtils.RecoloredLayerAllKept | src/vois/templates/mapUtils.py:343-368 | when no value becomes None the layer is substituted member by member |
| TemplateMapUtils.RecolorLayer | src/vois/templates/mapUtils.py:342-368 | the inner loop builds the recoloured layer |
| TemplateMapUtils.SetColor | src/vois/templates/mapUtils.py:339-372 | the outer loop builds the recoloured symbol |
| TemplateMapUtils.NativeDimension | src/vois/templates/mapUtils.py:36-38 | 256 pixels from size 3 up, 80 at size 2, 30 below |
| TemplateMapUtils.DoClip | src/vois/templates/mapUtils.py:278-300 | the image is clipped exactly when the requested dimension is below the native one of the size class |
| TemplateMapUtils.DoClipMonotone | src/vois/templates/mapUtils.py:292-300 | a smaller request clips whenever a larger one does; nothing clips at 256 or more and everything below 30 |
| TemplateMapUtils.AddLayer | src/vois/templates/mapUtils.py:117-131 | the returned layer has the name and opacity, is in place of the first same-named layer or at the end, and is what looking its name up finds |
| DayCalendar.Weekday | deploy/vois/vuetify/dayCalendar.py:38-39 | the weekday of a date, from 0 for Monday to 6 |
| DayCalendar.Monday | deploy/vois/vuetify/dayCalendar.py:38-39 | the Monday on or at most six days before the date |
| DayCalendar.NumberOfWeeks | deploy/vois/vuetify/dayCalendar.py:35-41 | the end's Monday lies the counted number of weeks, less one, after the start's Monday |
| DayCalendar.MondaysWeeksApart | deploy/vois/vuetify/dayCalendar.py:40-41 | two Mondays are a whole number of weeks apart, so the floor division is exact |
| DayCalendar.NumberOfWeeksCovers | deploy/vois/vuetify/dayCalendar.py:35-41 | from a start to a later end at least one week is counted and the end falls in the last; two days of one week count one week |
| DayCalendar.Repeat | deploy/vois/vuetify/dayCalendar.py:157 | the ring repeated n times |
| DayCalendar.DistinctSpec | deploy/vois/vuetify/dayCalendar.py:157-159 | the distinct days are exactly the listed days, none twice |
| DayCalendar.EventsSpec | deploy/vois/vuetify/dayCalendar.py:154-160 | one event per distinct day and no two on the same day; with counting its name is a ring per occurrence of the day, without it is empty |
| DayCalendar.EventsCountAll | deploy/vois/vuetify/dayCalendar.py:157 | with counting the events hold one ring per entry of the list |
| DayCalendar.TotalCountOnto | deploy/vois/vuetify/dayCalendar.py:157 | one more entry adds one ring to its own day's total and none elsewhere |
| DayCalendar.TotalCountSnoc | deploy/vois/vuetify/dayCalendar.py:157 | the total over one more day adds that day's occurrences |
| DayCalendar.DayCalendar.constructor | deploy/vois/vuetify/dayCalendar.py:103-146 | the card is 53 pixels per week; without a given height the widget is 10 pixels taller; the events are built from the days |
| DayCalendar.DayCalendar.Days2Events | deploy/vois/vuetify/dayCalendar.py:154-160 | the events are rebuilt from the days and handed to the calendar |
| DayCalendar.DayCalendar.SetDays | deploy/vois/vuetify/dayCalendar.py:231-234 | the list is replaced and the events rebuilt from it |
| DayCalendar.DayCalendar.SetColor | deploy/vois/vuetify/dayCalendar.py:204-207 | the colour is stored and the calendar's event colour follows |

## Left out

- Widgets and display: the ipyvuetify, ipywidgets, ipyleaflet and ipytree objects, their styling, `draw` and every `display` call. Only the fields the logic reads or writes are kept.
- Callbacks are a call count or a log of their arguments; what a callback does is not modelled.
- Clicks come from existing buttons, so `Toggle.Toggle.Click`, `MultiSwitch.MultiSwitch.Click` and the sortable-list handlers require an index in range.
- PyStrings.Split, TreemapPlotly.CreateTreemapFromList, IpyTrees.CreateIpytreeFromList and TreeviewBuilder.CreateTreeviewFromList require a non-empty separator, because Python's `str.split('')` raises ValueError. With an empty list of names the source never splits and returns the lone root; the model excludes that case too.
- PyStrings.ParseInt: Unicode digits are not modelled; only ASCII ones are. White space is the full set that `str.isspace` accepts.
- TreeNodes.ReplaceChildren requires the new children to have other ids than the replaced node and no children of their own. `setChildren` always builds such children, and the requirement makes the replacement terminate.
- TreeviewOps: the search box, `getOpened` and the other widget-forwarding methods of the treeview are not modelled; the handlers only forward widget state.
- TreeviewBuilder: the dicts shared between the registry and the parent's 'children' list are modelled as registry keys, read out into a tree by `Materialize`.
- CreateTreeviewFromList: distinct fullnames are proved only without `repeat_parent_as_first_child` and without `substitutionDict`. The repeated parent takes its parent's name as fullname (treeview.py:788), which repeats the parent's fullname when names are full, and a substitution can map two names to one fullname.
- CreateTreeviewFromDF2Columns: distinct fullnames are proved only without `repeat_parent_as_first_child`. The repeated parent's fullname, one level below its parent (treeview.py:1039), is also the fullname of a child with the parent's own name.
- IpyTrees: the ipytree node flags (icons, opened, disabled) are not modelled, only names, parents and values.
- IpyTrees and TreeviewBuilder: a DataFrame is a sequence of rows holding the cells the builders read; `float(...)` of a value cell is a real given with the row.
- Floats are modelled as exact reals in RangeSlider, SvgRank (the ranking compares exact values), TreemapPlotly, IpyTrees, TemplateMapUtils, GeojsonUtils and LayerManager (`OnOpacity` stores a tenth of the slider value exactly); rounding is not modelled.
- RangeSlider.Float2Integer requires minvalue != maxvalue, because Python raises ZeroDivisionError there; the widget is unusable with such a range.
- RangeSlider: `integer2float`, the text fields and the labels are not modelled; the log holds the integer pair that `onchange` receives as floats.
- SvgBubbles: the drawing, the DataFrame and the mapping of a click to a legend item are not modelled. The axis values are given sorted and without repeats, as `sorted(set(...))` returns them.
- SvgRank: the SVG text and the mapping of click coordinates to a row are not modelled.
- Layers: the `eval` of colour-map names in `getItems`, the tile service and the JSON text are not modelled.
- Layers.InteraproLayer.constructor: the settings the source later measures with `len`, slices or splits (`colorfile`, `colortable`, `colormap`, `valuemap`, `colorscheme`, `colorcustom`) and `interpolate` are assumed to be strings. The source accepts a number in `colorfile`, `colortable` or `valuemap` (without a colour map) and only its `toDict` then raises TypeError; a number in `colorscheme` or `interpolate` makes `__init__` raise TypeError, and one in `colorcustom` AttributeError. These errors are not modelled.
- Layers.InteraproLayer.FromDict: on KeyError or TypeError the source stops after resetting the layer and perhaps assigning some settings; for those cases the model states only the reset fields and the layer's invariant.
- LayerManager: the collection at construction is proved consistent only when the map's base layer is its first layer (`OnlyFirstBase`), as maps built by the library are.
- LayerManager.Layers.MoveUp requires index >= 1, because the up button is disabled on the first row.
- MultiSwitch: `on_change` receives the widget's own list, which later clicks change in place; the log holds the flags as they were at each call. One label per value is assumed, since the double click walks the buttons.
- Toggle: the colour setters only restyle the buttons and are not modelled.
- TreeviewOps.TreeviewOperations.SetActive: requires every parent id in `id2parentid` to be non-negative and below its child's id, which holds for the trees both builders make and which `SetChildren` keeps. A hand-built tree with a child id below its parent's id has an acyclic parent map, and the source's ancestor walk ends on it, but the model cannot be called on it. On a cyclic parent map, which needs repeated ids, the source's walk never ends; that case is not modelled.
- MultiSwitch.MultiSwitch.constructor, MultiSwitch.MultiSwitch.SetValue, DatePicker.DatePicker.SetDisabled: the inputs arrive already coerced by `bool()`. Python truthiness of other values (`[1, 0, 'x']` stored as `[True, False, True]`, `disabled = 0`) is not modelled.
- Toggle, MultiSwitch, RangeSlider and SvgRank: the `changes` and `notified` logs record every call the source would make to `onchange`/`on_change`, whether or not a callback was given; the source skips the call when none was given. SelectSingle, SelectImage and DatePicker instead count calls only when a callback was given.
- SelectSingle: the `disabled` and `color` setters are not modelled. The `color` setter gives the widget the new colour as it is, and assigns the background it computes to the selectSingle object rather than to the widget.
- SelectSingle.SelectSingle.SetValue: like the source, it does not recompute the colours.
- SelectImage: the image dicts are shared with the caller and updated in place in the source; the model returns new values.
- SortableList: the kept list object is shared with the caller, as in the source; a caller that changes it directly, outside the widget's handlers, leaves the cards out of step with it, which `Valid()` then no longer describes.
- PaletteEditor: `onrandom` draws random colours and is not modelled; the upload and download dialogs are file I/O.
- PaletteEditor: the sortable list holding the entries, with its cards and buttons, is not modelled; the model keeps only its items.
- EuCountries: the module-level download of the ISO table, the flag images and the registry contents filled at import are not modelled. The ISO table is a parameter.
- EuCountries.SortBy models Python's stable sort by insertion. Stability itself is not stated.
- DayCalendar: dates are day numbers, as `date.toordinal()` gives them; `strptime` and the string format are not modelled.
- DayCalendar.Events: without `show_count` the source lists `set(days)` in an unspecified order. The model uses first-occurrence order; only the set of events and their names are stated.
- DayCalendar: the click handlers only forward the clicked day to a callback and are not modelled.
- TemplateMapUtils: `getLayer` of this file is the same search as `GeoMapUtils.GetLayer`; `clear` and `removeLayer` of this file are not modelled.
- TemplateMapUtils: `symbol2Image` draws the symbol through an HTTP service and PIL; only its clipping decision is modelled.
- GeoMapUtils: ipyleaflet removes and substitutes layers by identity; the model works on positions in a list of values.
- GeoMapUtils: `removeLayer`, `removeCardByName` and `zoomToExtents` are not modelled.
- GeojsonUtils: documents are given parsed; the `NaN` and `Infinity` literals that `json.loads` accepts are not modelled (floats are finite reals).
- GeojsonUtils: a feature is an object; a feature that is not one, and a "properties" member that is neither an object nor null (a list, a string), are not modelled.
- GeojsonUtils: the keys of `keytovaluedict` are JSON values; Python keys that no JSON value equals (a tuple, say) are not modelled.
- GeojsonUtils.GeojsonJoin: the source adds the field to the parsed input features in place; the model builds new features, which the text output cannot tell apart.

## Findings

| source | as written | input that shows it | evidently intended | confidence | as-written member | corrected member |
|---|---|---|---|---|---|---|
| src/vois/vuetify/treeview.py:1051-1057 | the module-level `calculateIdsOfLeaves` has a default list shared by every call, so leaves accumulate across calls | two calls without a list on the one-node tree with id 1: the second returns [1, 1] | a fresh list per call, giving the tree's own leaves | not executed | TreeNodes.SharedDefaultAccumulates | TreeNodes.LeavesOfTree |
| src/vois/vuetify/treeview.py:504-512 | `getFirstChildFullname` indexes `[0]` of the child list even when it is empty | `setChildren('A', [])` then `getFirstChildFullname('A')` raises IndexError | None for a node without children, as its documentation says | not executed | TreeviewOps.EmptyChildrenFirstChildRaises | TreeviewOps.FirstChildFullname |
| src/vois/treemapPlotly.py:161-163 | the parent label is tested as the string 'None', so a parent named 'None' is mistaken for no parent | the path 'None.x' with separator '.': the node 'None.x' is listed with parent None instead of 'None' | only the root has no parent | not executed | TreemapPlotly.NoneNamedParentLost | TreemapPlotly.Outputs |
| src/vois/vuetify/sortableList.py:231-237 | the default `items=[]` is one list object shared by every sortableList built without items, and `doAddItem` inserts into it in place | build a list without items, add 7, build a second list without items: it holds [7] and shows one card | a fresh empty list per instance | not executed | SortableList.SharedDefaultExample | SortableList.NewWithoutItems |
| vois/svgBubblesChart.py:45-53 | a first word longer than maxlen is put on a second row, after an empty first row | `splitstring('ab', 1)` gives ['', 'ab'] | ['ab']: no empty rows | not executed | SvgBubbles.LongWordExample | SvgBubbles.SplitStringCorrected |
