# RapidMiner GUI and registry core, modelled in Dafny

This project models the parts of RapidMiner (the Unuk code base) that hold sequential logic. The surrounding
Swing wiring is not modelled.

- **Configuration registry** (`ConfigurationManager`): configurators keyed by type id, and a table of
  configured objects per type, keyed by name. It covers registration, lookup behind an access hook, ad-hoc
  creation, and a one-time initialisation. Initialisation loads the persisted parameter sets of each type and
  puts declared defaults in place of null values. There is also the `<configuration>` XML format with its
  writer and reader, and a proof that reading back what was written gives the stored parameters.
  (Modules `ConfigTypes`, `ConfigManager`, `ConfigXml`; helpers `Strings` for Java's String order, which compares UTF-16
  code units and is the key order of a TreeMap, `PairMaps` for a map built by successive `put`s.)
- **Colour-scheme list** (`DefaultPlotterStyleProvider`): an ordered list of colour schemes whose first
  entries are protected defaults, a selected index, and three fonts. An invariant is kept by every
  operation: the defaults stay the prefix of the list and no scheme appears twice. (Module `PlotterStyle`;
  helper `Lists` for the `java.util.List` operations.)
- **Package list model** (`AbstractPackageListModel`): the start gate of an update and the body of the
  fetch task. That body drops the names the descriptor cache cannot resolve, keeping the order of the rest,
  and reports integer progress values. Also modelled: the size and element rules of the list, `add`, and
  the row reported by `update(PackageDescriptor)`. (Module `PackageList`.)
- **`replace(text, what, by)` expression function** (`ReplaceRegex`): a step of the postfix stack machine.
  (Module `ReplaceRegex`.)
- **Speech-bubble decisions** (`BubbleWindow`): the choice of the pointer corner, the search for a
  button by resource id in a component tree, and the paddings chosen for each corner. (Module
  `BubbleWindow`.)
- **Regular-expression dialog** (`RegexpPropertyDialog`):
  - the construct and shortcut tables;
  - the text splicing of the construct, shortcut, item and popup handlers, with their caret and
    selection arithmetic;
  - the truncated popup labels;
  - the numbered match preview;
  - the list of matched items.

  The regular-expression engine is a parameter. (Module `RegexpDialog`.)
- **Operator documentation view** (`OperatorDocumentationBrowser`): the resource path of an operator's
  documentation, the guards that decide when the shown operator changes, the html post-processing, and
  the choice of process a tutorial link opens. (Module `DocumentationBrowser`.)

Modelling conventions:
- A Java `null` is `None`.
- An exception is the `Failure` or `Fail` arm of a `Result` or `Outcome` (module `Wrappers`).
- Calls into code that is not part of this model become function-valued parameters or `const` fields:
  - `loadAllParameters`, `checkAccess` and `Configurator.create`;
  - the descriptor cache;
  - `String.replaceAll`, `Pattern.compile` and `Matcher.matches`;
  - the class loader's `getResource`.

Where the repository's written design and its code disagree, the model follows the code.
- `register` replaces the object table of the type with an empty one. Re-registering a type therefore
  discards its objects, although the design says they are kept.
- During loading, a declared default replaces only a value that is present and null. A key that the
  loaded parameter set omits stays absent, although the design speaks of filling omitted keys.
- `update()` starts another fetch task whenever `shouldUpdate()` holds, and `updatedOnce` is set only at
  the end of a task. A second `update()` while a fetch runs therefore starts a second task, although the
  design says it is suppressed (`PackageListModel.Update` counts such tasks in `pendingTasks`).

## Model

| member | source | states |
|---|---|---|
| ConfigManager.ConfigurationManager.constructor | src/com/rapidminer/tools/config/ConfigurationManager.java:29-40 | a new manager has no configurators, no objects and is not initialised; the registry invariant holds |
| ConfigManager.ConfigurationManager.Register | src/com/rapidminer/tools/config/ConfigurationManager.java:51-61 | a null configurator and a null type id are rejected without change; otherwise the configurator is stored under its id and that type's object table becomes empty, discarding earlier objects; the invariant is kept; getConfigurator then answers the new configurator |
| ConfigManager.ConfigurationManager.GetConfigurator | src/com/rapidminer/tools/config/ConfigurationManager.java:64-66 | null exactly when no configurator is registered under the id; under the registry's invariant the configurator answered carries that very id and has an object table |
| ConfigManager.ConfigurationManager.GetAllTypeIds | src/com/rapidminer/tools/config/ConfigurationManager.java:69-73 | lists exactly the registered type ids, each once, in ascending String order, the key order of the TreeMap that holds them |
| Strings.SortedKeys | src/com/rapidminer/tools/config/ConfigurationManager.java:71 | the keys of a set, strictly ascending, each exactly once |
| Strings.LexLessTotal | src/com/rapidminer/tools/config/ConfigurationManager.java:32 | String order, as a TreeMap uses it, relates any two distinct strings |
| Strings.Utf16Injective | src/com/rapidminer/tools/config/ConfigurationManager.java:32 | two different strings never have the same UTF-16 code units, so comparing code units orders strings and not only their encodings |
| Strings.SurrogatesSortLow | src/com/rapidminer/tools/config/ConfigurationManager.java:32 | a character above U+FFFF sorts by its high surrogate, so U+10000 comes before U+E000, as in Java |
| Strings.LexLessTransitive | src/com/rapidminer/tools/config/ConfigurationManager.java:32 | String order is transitive |
| Strings.LexLessIrreflexive | src/com/rapidminer/tools/config/ConfigurationManager.java:32 | no string sorts before itself |
| Strings.LeastExists | src/com/rapidminer/tools/config/ConfigurationManager.java:32 | every finite non-empty set of strings has a least element, so the ascending listing exists |
| ConfigManager.ConfigurationManager.Lookup | src/com/rapidminer/tools/config/ConfigurationManager.java:80-98 | a denial of the access hook comes first; then an unknown type gives "no such configuration type" and an absent name "no such configured object"; it succeeds exactly when the hook passes and the name is stored under the type, and then answers the stored object, which carries that name |
| ConfigManager.ConfigurationManager.RegisterConfigurable | src/com/rapidminer/tools/config/ConfigurationManager.java:102-108 | an unregistered type is rejected without change; otherwise the object is filed under its own name in its type's table, replacing one of the same name, and every other type is untouched |
| ConfigManager.ConfigurationManager.Initialize | src/com/rapidminer/tools/config/ConfigurationManager.java:110-123 | afterwards the manager is initialised; a second call changes no table; a first call loads every registered type as LoadConfiguration states |
| ConfigManager.ConfigurationManager.LoadConfiguration | src/com/rapidminer/tools/config/ConfigurationManager.java:125-155 | every registered type is loaded: a type whose parameters fail to load keeps its table; otherwise each loaded entry has been created and registered, in the iteration order of the loaded map; no type is added or removed |
| ConfigManager.ConfigurationManager.LoadTypeAt | src/com/rapidminer/tools/config/ConfigurationManager.java:126-154 | one pass of the outer loop adds the next type id to the types loaded and leaves the later ones as they were before the loop |
| ConfigManager.ConfigurationManager.LoadType | src/com/rapidminer/tools/config/ConfigurationManager.java:127-152 | loading one type changes only that type's table, and changes it as TypeLoaded says |
| ConfigManager.ConfigurationManager.LoadEntries | src/com/rapidminer/tools/config/ConfigurationManager.java:134-151 | every entry of the loaded parameter sets is visited exactly once, the type's table ends as the entries registered in that order over the table before, and no other type changes |
| ConfigManager.ConfigurationManager.LoadEntry | src/com/rapidminer/tools/config/ConfigurationManager.java:135-151 | one entry is created from its translated parameters and registered when create succeeds, and skipped when it fails |
| ConfigManager.CreateEntry | src/com/rapidminer/tools/config/ConfigurationManager.java:136-147 | create is called with the entry's name and its values, defaults put in |
| ConfigManager.TranslateParameters | src/com/rapidminer/tools/config/ConfigurationManager.java:136-146 | every loaded key is kept; a non-null value is copied; a null value becomes the declared default when the key is declared, and stays null otherwise |
| ConfigManager.ParameterListToMap | src/com/rapidminer/tools/config/ConfigurationManager.java:170-176 | builds the map that successive puts of (key, declaration) build |
| ConfigManager.ParameterListToMapLastWins | src/com/rapidminer/tools/config/ConfigurationManager.java:170-176 | a declared key maps to its last declaration in the list |
| PairMaps.MapOfPairsDomain | src/com/rapidminer/tools/config/ConfigurationManager.java:170-176 | a key is in the map built by puts exactly when some pair carries it |
| PairMaps.MapOfPairsLastWins | src/com/rapidminer/tools/config/ConfigurationManager.java:212-214 | the value of a key is that of the last pair carrying it (a later put wins) |
| PairMaps.MapOfPairsOfDistinct | src/com/rapidminer/tools/config/ConfigurationManager.java:209-213 | puts of distinct keys that agree with a map on all its keys rebuild that map |
| ConfigManager.RegisteredKeys | src/com/rapidminer/tools/config/ConfigurationManager.java:134-152 | after loading, a type's table holds exactly the names it held before plus the names of the objects created |
| ConfigManager.RegisteredUntouched | src/com/rapidminer/tools/config/ConfigurationManager.java:134-152 | a name no loaded entry creates keeps its earlier object, or stays absent |
| ConfigManager.RegisteredLastWins | src/com/rapidminer/tools/config/ConfigurationManager.java:147-148 | a name maps to the object created by the last entry that produced that name |
| ConfigManager.RegisteredNamesKept | src/com/rapidminer/tools/config/ConfigurationManager.java:134-152 | when create keeps entry names, the table after loading is the old table overridden by the created objects, whatever the iteration order |
| ConfigManager.ConfigurationManager.Create | src/com/rapidminer/tools/config/ConfigurationManager.java:157-165 | an unknown type and a failing create are errors that change nothing; on success the object built from empty parameters is filed under its name, and a later lookup that passes the access hook answers it |
| ConfigManager.ConfigurationManager.GetConfigurablesAsXml | src/com/rapidminer/tools/config/ConfigurationManager.java:178-197 | an unregistered type is an error; the document cannot be built exactly when some stored object cannot be written (the type id or a key is not an XML name, or a value is null); reading the written document back gives every stored name with its parameters as strings |
| ConfigXml.ToXml | src/com/rapidminer/tools/config/ConfigurationManager.java:188-197 | fails exactly when the type id or a parameter key is not an XML 1.0 name, which createElement rejects, or a value is null; an invalid type id is reported first, and at each key a bad name before a null value; otherwise yields an element named after the type, with the object's name attribute and one `<key>value</key>` child per parameter |
| ConfigXml.ConfigurablesAsXml | src/com/rapidminer/tools/config/ConfigurationManager.java:178-186 | fails exactly when some stored object cannot be written; otherwise a `<configuration>` document with one element per stored object in ascending name order |
| ConfigXml.ParametersOf | src/com/rapidminer/tools/config/ConfigurationManager.java:208-213 | the parameter map of an element is the one the puts of (tag, text) of its children build |
| ConfigXml.FromXml | src/com/rapidminer/tools/config/ConfigurationManager.java:199-217 | a root other than `configuration` is rejected; each child tagged with the type id maps its name attribute to its parameters, a later child of the same name winning |
| ConfigXml.TextOfParameterElement | src/com/rapidminer/tools/config/ConfigurationManager.java:193 | the text content of a written parameter element is its value |
| ConfigXml.ParametersRoundTrip | src/com/rapidminer/tools/config/ConfigurationManager.java:188-213 | reading the parameters of a written element gives the object's parameters as strings |
| ConfigXml.XmlRoundTrip | src/com/rapidminer/tools/config/ConfigurationManager.java:178-217 | reading a written document back gives every stored name with its parameters as strings |
| PlotterStyle.DefaultPlotterStyleProvider.constructor | src/com/rapidminer/gui/new_plotter/templates/style/DefaultPlotterStyleProvider.java:121-155 | the list is [Colorful, Forest], both are defaults, index 0 is selected, and all three fonts are Dialog plain 10 |
| PlotterStyle.DefaultPlotterStyleProvider.SetAxesFont | src/com/rapidminer/gui/new_plotter/templates/style/DefaultPlotterStyleProvider.java:173-182 | null is rejected and the font kept; otherwise exactly the given font is stored |
| PlotterStyle.DefaultPlotterStyleProvider.SetLegendFont | src/com/rapidminer/gui/new_plotter/templates/style/DefaultPlotterStyleProvider.java:193-202 | null is rejected and the font kept; otherwise exactly the given font is stored |
| PlotterStyle.DefaultPlotterStyleProvider.SetTitleFont | src/com/rapidminer/gui/new_plotter/templates/style/DefaultPlotterStyleProvider.java:213-222 | null is rejected and the font kept; otherwise exactly the given font is stored |
| PlotterStyle.DefaultPlotterStyleProvider.SetSelectedColorSchemeIndex | src/com/rapidminer/gui/new_plotter/templates/style/DefaultPlotterStyleProvider.java:228-239 | an index below 0 or past the list is rejected and the selection kept; otherwise it becomes the selected index |
| PlotterStyle.DefaultPlotterStyleProvider.SetSelectedColorScheme | src/com/rapidminer/gui/new_plotter/templates/style/DefaultPlotterStyleProvider.java:246-257 | null is rejected without change; an absent scheme is appended first; afterwards the selected scheme is the given one |
| PlotterStyle.DefaultPlotterStyleProvider.GetColorSchemes | src/com/rapidminer/gui/new_plotter/templates/style/DefaultPlotterStyleProvider.java:272-278 | a copy of the list that, under the provider's invariant, starts with the default schemes and holds no scheme twice |
| PlotterStyle.DefaultPlotterStyleProvider.AddColorScheme | src/com/rapidminer/gui/new_plotter/templates/style/DefaultPlotterStyleProvider.java:285-287 | null and a duplicate are rejected without change; otherwise the scheme is appended |
| PlotterStyle.DefaultPlotterStyleProvider.AddColorSchemeAt | src/com/rapidminer/gui/new_plotter/templates/style/DefaultPlotterStyleProvider.java:295-314 | null, an index inside the default prefix and a duplicate are rejected without change; otherwise the scheme is inserted at the index clamped to the list size, and the invariant is kept |
| PlotterStyle.DefaultPlotterStyleProvider.RemoveColorSchemeAt | src/com/rapidminer/gui/new_plotter/templates/style/DefaultPlotterStyleProvider.java:321-332 | a negative index, a default's index and an index past the end are rejected without change; otherwise that entry is removed, the selected index stays, and the invariant is kept |
| PlotterStyle.DefaultPlotterStyleProvider.RemoveColorScheme | src/com/rapidminer/gui/new_plotter/templates/style/DefaultPlotterStyleProvider.java:339-347 | a default is rejected without change; otherwise the first occurrence is dropped (nothing for null or an absent scheme), after which the scheme is gone |
| PlotterStyle.DefaultPlotterStyleProvider.GetColorScheme | src/com/rapidminer/gui/new_plotter/templates/style/DefaultPlotterStyleProvider.java:350-356 | the selected scheme, and an error exactly when the selected index lies outside the list |
| PlotterStyle.InsertKeepsInvariant | src/com/rapidminer/gui/new_plotter/templates/style/DefaultPlotterStyleProvider.java:299-309 | inserting an absent scheme at or after the defaults keeps them as prefix and keeps the list free of duplicates |
| PlotterStyle.RemoveKeepsInvariant | src/com/rapidminer/gui/new_plotter/templates/style/DefaultPlotterStyleProvider.java:321-347 | removing an entry after the defaults keeps them as prefix and keeps the list free of duplicates |
| Lists.InsertAt | src/com/rapidminer/gui/new_plotter/templates/style/DefaultPlotterStyleProvider.java:306 | List.add(index, x): one entry longer, x at the index, the entries before it unchanged and those after it shifted |
| Lists.RemoveAt | src/com/rapidminer/gui/new_plotter/templates/style/DefaultPlotterStyleProvider.java:330 | List.remove(index): one entry shorter, the entries before unchanged and those after shifted down |
| Lists.IndexOf | src/com/rapidminer/gui/new_plotter/templates/style/DefaultPlotterStyleProvider.java:255 | List.indexOf: -1 exactly when absent, otherwise the first position holding the value |
| Lists.RemoveFirst | src/com/rapidminer/gui/new_plotter/templates/style/DefaultPlotterStyleProvider.java:345 | List.remove(Object): unchanged when absent, otherwise the entry at its first position removed |
| Lists.RemovedIsGone | src/com/rapidminer/gui/new_plotter/templates/style/DefaultPlotterStyleProvider.java:345 | in a list without duplicates, the removed value is no longer present |
| PackageList.PackageListModel.constructor | src/com/rapid_i/deployment/update/client/listmodels/AbstractPackageListModel.java:47-58 | a new model is not updated, not fetching, has progress 0 and an empty list |
| PackageList.PackageListModel.Update | src/com/rapid_i/deployment/update/client/listmodels/AbstractPackageListModel.java:60-97 | when an update is due the model is marked fetching and one more fetch task is pending; otherwise nothing changes |
| PackageList.PackageListModel.RunFetchTask | src/com/rapid_i/deployment/update/client/listmodels/AbstractPackageListModel.java:65-95 | a fetch that fails reports only 5 and keeps the list; a completed one sets updatedOnce, keeps exactly the resolvable names in their order and reports 5, 25 and the formula's values; fetching is false at the end either way; after a completed fetch shouldUpdate answers false, so later updates start nothing, and a failed fetch leaves it as it was |
| PackageList.PackageListModel.LookUpNames | src/com/rapid_i/deployment/update/client/listmodels/AbstractPackageListModel.java:72-81 | the iterator loop leaves exactly the names the cache resolves, in their original order, and reports 30 + 70*a/size after the a-th name |
| PackageList.FetchStep | src/com/rapid_i/deployment/update/client/listmodels/AbstractPackageListModel.java:75-80 | the name under the iterator is the next fetched one, and removing it or stepping over it keeps the list the resolved prefix followed by the names not yet looked up |
| PackageList.ResolvedNames | src/com/rapid_i/deployment/update/client/listmodels/AbstractPackageListModel.java:72-81 | a name is kept exactly when it was fetched and resolves; the kept names keep their relative order; a fully resolvable list is kept whole |
| Lists.Filter | src/com/rapid_i/deployment/update/client/listmodels/AbstractPackageListModel.java:75-81 | the kept entries are never more than the list |
| Lists.FilterMembers | src/com/rapid_i/deployment/update/client/listmodels/AbstractPackageListModel.java:75-81 | an entry is kept exactly when it is in the list and accepted |
| Lists.FilterAppend | src/com/rapid_i/deployment/update/client/listmodels/AbstractPackageListModel.java:75-81 | the kept entries of a concatenation are those of its first part followed by those of its second |
| Lists.FilterKeepsAll | src/com/rapid_i/deployment/update/client/listmodels/AbstractPackageListModel.java:75-81 | a list whose every entry is accepted is kept whole |
| Lists.FilterSnoc | src/com/rapid_i/deployment/update/client/listmodels/AbstractPackageListModel.java:75-81 | one more entry is appended to the kept ones exactly when it is accepted |
| PackageList.ProgressUpToAt | src/com/rapid_i/deployment/update/client/listmodels/AbstractPackageListModel.java:68-79 | the values reported are 5, then 25, then the formula's value after each looked-up name |
| PackageList.ProgressValuesLength | src/com/rapid_i/deployment/update/client/listmodels/AbstractPackageListModel.java:68-79 | size + 2 values are reported |
| PackageList.ProgressValuesMonotone | src/com/rapid_i/deployment/update/client/listmodels/AbstractPackageListModel.java:68-79 | the reported values never decrease |
| PackageList.ProgressValuesBounded | src/com/rapid_i/deployment/update/client/listmodels/AbstractPackageListModel.java:68-79 | every value lies in [5, 100], and those of the formula in [30, 100] |
| PackageList.ProgressValuesEnd | src/com/rapid_i/deployment/update/client/listmodels/AbstractPackageListModel.java:68-79 | the last value is exactly 100 when any name was fetched; with none the formula is never evaluated and 25 is the last value |
| PackageList.ProgressBounds | src/com/rapid_i/deployment/update/client/listmodels/AbstractPackageListModel.java:79 | 30 + 70*a/size lies in [30, 100] for 0 < a <= size |
| PackageList.ProgressMonotone | src/com/rapid_i/deployment/update/client/listmodels/AbstractPackageListModel.java:79 | the formula does not decrease as a grows |
| PackageList.ProgressFull | src/com/rapid_i/deployment/update/client/listmodels/AbstractPackageListModel.java:79 | the formula gives exactly 100 at a = size |
| PackageList.PackageListModel.GetSize | src/com/rapid_i/deployment/update/client/listmodels/AbstractPackageListModel.java:122-128 | 1 while fetching or when the list is empty, else the number of names; never below 1 |
| PackageList.PackageListModel.GetElementAt | src/com/rapid_i/deployment/update/client/listmodels/AbstractPackageListModel.java:131-135 | the loading placeholder with the progress while fetching, the no-packages placeholder for an empty list, otherwise the cache entry of the name at the index; an index outside the list is an IndexOutOfBoundsException |
| PackageList.PackageListModel.ChangedRow | src/com/rapid_i/deployment/update/client/listmodels/AbstractPackageListModel.java:137-140 | -1 exactly when the package id is not listed, otherwise its first position |
| PackageList.PackageListModel.Add | src/com/rapid_i/deployment/update/client/listmodels/AbstractPackageListModel.java:142-145 | the id is appended: one entry longer, the id last, earlier entries unchanged |
| ReplaceRegex.OperandStack.Pop | src/com/rapidminer/tools/math/function/expressions/text/ReplaceRegex.java:50-52 | Stack.pop: the top value, removed; an empty stack is an EmptyStackException |
| ReplaceRegex.OperandStack.Push | src/com/rapidminer/tools/math/function/expressions/text/ReplaceRegex.java:72 | Stack.push: the value becomes the new top |
| ReplaceRegex.ReplaceRegexCommand.constructor | src/com/rapidminer/tools/math/function/expressions/text/ReplaceRegex.java:40-42 | the function takes exactly three parameters |
| ReplaceRegex.ReplaceRegexCommand.Run | src/com/rapidminer/tools/math/function/expressions/text/ReplaceRegex.java:46-76 | pops by, then what, then text; on success exactly one result replaces the three arguments and everything below them is untouched; a failure leaves only what was below them; fewer than three values is an EmptyStackException |
| ReplaceRegex.Apply | src/com/rapidminer/tools/math/function/expressions/text/ReplaceRegex.java:55-75 | a successful result is the unknown marker or a string |
| ReplaceRegex.UnknownPropagates | src/com/rapidminer/tools/math/function/expressions/text/ReplaceRegex.java:55-58 | an unknown argument in any position yields exactly the unknown marker, before any type check |
| ReplaceRegex.ApplySucceedsIff | src/com/rapidminer/tools/math/function/expressions/text/ReplaceRegex.java:55-75 | succeeds exactly when an argument is unknown, or all three are strings, the target is non-empty and replaceAll neither rejects the expression nor the replacement string; the string result is then replaceAll(text, what, by) |
| ReplaceRegex.ApplyFailures | src/com/rapidminer/tools/math/function/expressions/text/ReplaceRegex.java:60-75 | with no unknown argument: a non-string argument is exactly the type error, an empty target exactly the target error, the caught pattern error exactly an invalid expression, and the escaping IllegalArgumentException or IndexOutOfBoundsException exactly a bad replacement string |
| BubbleWindow.CalculateAlignment | src/com/rapidminer/gui/tools/components/BubbleWindow.java:612-653 | top-left: LEFTTOP unless TOPLEFT or LEFTTOP is preferred and the component is at most a third of the frame high; top-right: likewise with RIGHTTOP; bottom-left: BOTTOMLEFT unless BOTTOMLEFT or LEFTBOTTOM is preferred and 3*width <= x; bottom-right: TOPRIGHT unless BOTTOMRIGHT or RIGHTBOTTOM is preferred |
| BubbleWindow.AlignmentFitsQuadrant | src/com/rapidminer/gui/tools/components/BubbleWindow.java:623-652 | the chosen alignment always belongs to the component's quadrant, and an unsuitable preference yields the quadrant's default |
| BubbleWindow.AlignmentIdempotent | src/com/rapidminer/gui/tools/components/BubbleWindow.java:623-652 | choosing again with the chosen alignment as preference gives the same alignment |
| BubbleWindow.InsetsFor | src/com/rapidminer/gui/tools/components/BubbleWindow.java:174-207 | 35 (CORNER_RADIUS + 15) on the pointer's side and 10 elsewhere: title top for TOP*, left of both for LEFT*, text bottom for BOTTOM*, right of both for RIGHT*; the text's top is 0 |
| BubbleWindow.FirstMatchSpec | src/com/rapidminer/gui/tools/components/BubbleWindow.java:488-510 | the first match of a sequence is absent exactly when nothing matches, and otherwise a matching entry preceded by no match |
| BubbleWindow.FirstMatchAppend | src/com/rapidminer/gui/tools/components/BubbleWindow.java:499-507 | the first match of a concatenation is that of the first part if it has one, else that of the second |
| BubbleWindow.FindButtonIsFirstInPreOrder | src/com/rapidminer/gui/tools/components/BubbleWindow.java:488-510 | findButton answers the first matching button of the tree in depth-first pre-order |
| BubbleWindow.FindInChildrenIsFirst | src/com/rapidminer/gui/tools/components/BubbleWindow.java:499-508 | the loop over the children from the i-th on answers the first match in the pre-order of those subtrees |
| BubbleWindow.FindButtonFindsMatch | src/com/rapidminer/gui/tools/components/BubbleWindow.java:488-510 | null exactly when no component of the tree is a button with that rm_id, and otherwise such a button |
| RegexpDialog.TablesConsistent | src/com/rapidminer/gui/properties/RegexpPropertyDialog.java:110-137 | all tables have an entry for each of the 11 constructs, and each row's selection indices lie within its construct |
| RegexpDialog.PopupLabel | src/com/rapidminer/gui/properties/RegexpPropertyDialog.java:682 | a label longer than 14 characters becomes its first 14 and "..."; others are unchanged; never more than 17 |
| RegexpDialog.OnlyPunctuationTruncated | src/com/rapidminer/gui/properties/RegexpPropertyDialog.java:681-682 | of the 21 popup entries only the punctuation shortcut is cut |
| RegexpDialog.Splice | src/com/rapidminer/gui/properties/RegexpPropertyDialog.java:940-941 | the text before the cursor, then the inserted text, then the rest: the length grows by the insertion's |
| RegexpDialog.SpliceRemovable | src/com/rapidminer/gui/properties/RegexpPropertyDialog.java:940-941 | cutting the inserted text out again restores the original |
| RegexpDialog.Enclose | src/com/rapidminer/gui/properties/RegexpPropertyDialog.java:447-451 | the construct's first k characters before the selection, the selection verbatim, the rest after it; everything else unchanged |
| RegexpDialog.EncloseRemovable | src/com/rapidminer/gui/properties/RegexpPropertyDialog.java:447-451 | cutting both construct halves out again restores the original |
| RegexpDialog.EnclosedTextReselected | src/com/rapidminer/gui/properties/RegexpPropertyDialog.java:444-455 | for every enclosing construct, the selection afterwards covers exactly the previously selected text |
| RegexpDialog.DisjunctionCaretNegativeAsWritten | src/com/rapidminer/gui/properties/RegexpPropertyDialog.java:125-127 | with the declared table, inserting the disjunction with the cursor before the fifth character asks, at line 462, for a negative caret position (-4 at the start) |
| RegexpDialog.AsWrittenCaretRejected | src/com/rapidminer/gui/properties/RegexpPropertyDialog.java:457-462 | with the declared table, the plain insertion asks for a caret position outside the new text exactly for the disjunction with the cursor before the fifth character |
| RegexpDialog.PlainCaretInRange | src/com/rapidminer/gui/properties/RegexpPropertyDialog.java:457-466 | with the corrected table every plain construct insertion asks for a caret position inside the new text |
| RegexpDialog.Numbered | src/com/rapidminer/gui/properties/RegexpPropertyDialog.java:299-301 | one row per kept match, the i-th holding its text, groups and the number i + 1 |
| RegexpDialog.NumberedSnoc | src/com/rapidminer/gui/properties/RegexpPropertyDialog.java:299-303 | keeping one more match appends exactly one row, with that match's text and groups and the next number, and leaves the earlier rows as they were |
| RegexpDialog.KeptInText | src/com/rapidminer/gui/properties/RegexpPropertyDialog.java:290-291 | the kept matches are non-empty and lie in the text |
| RegexpDialog.PreviewShape | src/com/rapidminer/gui/properties/RegexpPropertyDialog.java:287-310 | the placeholder alone exactly when no non-empty match was found; otherwise one row per non-empty match, numbered 1 to their count in order |
| RegexpDialog.KeptIffNonEmpty | src/com/rapidminer/gui/properties/RegexpPropertyDialog.java:291 | a match is previewed exactly when it is non-empty |
| RegexpDialog.MatchingMembers | src/com/rapidminer/gui/properties/RegexpPropertyDialog.java:904-908 | an item is listed exactly when the expression matches all of it |
| RegexpDialog.Clamp | src/com/rapidminer/gui/properties/RegexpPropertyDialog.java:463-464 | selection bounds are clamped into the text and a position inside it is kept |
| RegexpDialog.RegexpPropertyDialog.HasSelection | src/com/rapidminer/gui/properties/RegexpPropertyDialog.java:444 | there is selected text exactly when the selection's start lies before its end |
| RegexpDialog.RegexpPropertyDialog.SetText | src/com/rapidminer/gui/properties/RegexpPropertyDialog.java:461 | the text is replaced and the caret goes to its end |
| RegexpDialog.RegexpPropertyDialog.SetCaretPosition | src/com/rapidminer/gui/properties/RegexpPropertyDialog.java:462 | a position outside the text is rejected without change; otherwise the caret moves there and the selection collapses |
| RegexpDialog.RegexpPropertyDialog.Select | src/com/rapidminer/gui/properties/RegexpPropertyDialog.java:463-464 | both ends clamped to the text, the end raised to the start, the caret at the end |
| RegexpDialog.RegexpPropertyDialog.SetSelectionStart | src/com/rapidminer/gui/properties/RegexpPropertyDialog.java:463 | the start moves to the clamped position and the end is kept, raised to the start if needed |
| RegexpDialog.RegexpPropertyDialog.SetSelectionEnd | src/com/rapidminer/gui/properties/RegexpPropertyDialog.java:464 | the end moves to the clamped position, raised to the kept start if needed |
| RegexpDialog.RegexpPropertyDialog.FireRegularExpressionUpdated | src/com/rapidminer/gui/properties/RegexpPropertyDialog.java:892-923 | the matched items are the items the expression fully matches, in order, and none when it does not compile; OK is enabled exactly when it compiles |
| RegexpDialog.RegexpPropertyDialog.CheckDocument | src/com/rapidminer/gui/properties/RegexpPropertyDialog.java:282-316 | with a replacement text appendReplacement accepts, or with no non-empty match, the result list is the preview of the text: non-empty matches numbered from 1, or the placeholder alone; otherwise the uncaught appendReplacement exception leaves only the row of the first non-empty match, numbered 1, with no placeholder |
| RegexpDialog.RegexpPropertyDialog.InsertAtCursor | src/com/rapidminer/gui/properties/RegexpPropertyDialog.java:935-946 | the text is spliced in at the caret, the caret placed after it with no selection; then OK is enabled exactly when the new expression compiles, and a dialog with items lists those it fully matches (none if it does not compile) |
| RegexpDialog.RegexpPropertyDialog.ShortcutClicked | src/com/rapidminer/gui/properties/RegexpPropertyDialog.java:554-566 | without a selected row nothing changes; otherwise the shortcut is spliced in at the caret, the caret placed after it with no selection, OK enabled exactly when the new expression compiles, and the matched items refilled for it |
| RegexpDialog.RegexpPropertyDialog.ItemClicked | src/com/rapidminer/gui/properties/RegexpPropertyDialog.java:838-852 | only an index inside the item list inserts, and then as the shortcut does: spliced at the caret, caret after it, OK and the matched items refreshed for the new expression; otherwise nothing changes |
| RegexpDialog.RegexpPropertyDialog.EncloseConstruct | src/com/rapidminer/gui/properties/RegexpPropertyDialog.java:444-456 | the construct wraps the selection; afterwards the mark is the old selection start plus the first selection index and the caret (dot) the old selection end plus the second, so the enclosed text is selected with the caret at its end |
| RegexpDialog.RegexpPropertyDialog.InsertConstruct | src/com/rapidminer/gui/properties/RegexpPropertyDialog.java:457-466 | the construct is spliced in at the caret; with the declared caret table the disjunction before the fifth character then fails on setCaretPosition, leaving the caret at the end of the new text and nothing selected; every other insertion leaves the mark at the old caret plus the first selection index and the caret (dot) at the old caret plus the second, selecting the construct's inner characters with the caret at their end |
| RegexpDialog.RegexpPropertyDialog.ConstructClicked | src/com/rapidminer/gui/properties/RegexpPropertyDialog.java:439-468 | without a selected row nothing changes; an enclosing construct with selected text wraps it; otherwise the construct is inserted at the caret; mark and caret (dot) are then the ends the index tables give, with the caret at the end, and OK and the matched items are refreshed for the new expression, except for the disjunction before the fifth character, whose IllegalArgumentException leaves the caret at the end and skips the update of the matched items and the OK state |
| DocumentationBrowser.DocumentationRoot | src/com/rapidminer/gui/OperatorDocumentationBrowser.java:159-162 | "core/" (DOCUMENTATION_ROOT, line 93) without a provider, else the provider's prefix and "/"; it always ends with "/" |
| DocumentationBrowser.DotsToSlashes | src/com/rapidminer/gui/OperatorDocumentationBrowser.java:163 | the same length, each dot a slash, every other character kept |
| DocumentationBrowser.NoDotsLeft | src/com/rapidminer/gui/OperatorDocumentationBrowser.java:163 | no dot is left in the group path |
| DocumentationBrowser.ResourcePathShape | src/com/rapidminer/gui/OperatorDocumentationBrowser.java:159-166 | the path is the root, the dot-free group path, "/", the key and ".xml", each recoverable at its position |
| DocumentationBrowser.ReplaceAllWithoutTarget | src/com/rapidminer/gui/OperatorDocumentationBrowser.java:336 | a text without the attribute passes the replacement unchanged |
| DocumentationBrowser.RenderHtml | src/com/rapidminer/gui/OperatorDocumentationBrowser.java:336-343 | the shown html is wrapped exactly once in `<html>` and `</html>` around the converted html with the attribute replaced |
| DocumentationBrowser.AttributeCanSurvive | src/com/rapidminer/gui/OperatorDocumentationBrowser.java:336 | one replacement pass can leave an occurrence of the attribute: the space put in its place completes a new one |
| DocumentationBrowser.LastProcess | src/com/rapidminer/gui/OperatorDocumentationBrowser.java:247-254 | absent exactly when no child is named process, else the position of a child so named after which none is |
| DocumentationBrowser.SelectTutorialProcess | src/com/rapidminer/gui/OperatorDocumentationBrowser.java:245-254 | the (N-1)-th tutorial is taken, and its last child named process (null without one); an N outside the tutorials is the null dereference |
| DocumentationBrowser.OperatorDocumentationBrowser.constructor | src/com/rapidminer/gui/OperatorDocumentationBrowser.java:89 | nothing is shown, no URL is known, selections are not ignored, and the editor shows the empty page |
| DocumentationBrowser.OperatorDocumentationBrowser.AssignDocumentation | src/com/rapidminer/gui/OperatorDocumentationBrowser.java:158-170 | the URL remembered is the class loader's answer for the shown operator's resource path, and the loading page of changeDocumentation (lines 311-313) is shown |
| DocumentationBrowser.OperatorDocumentationBrowser.ShowDocumentation | src/com/rapidminer/gui/OperatorDocumentationBrowser.java:336-345 | the editor shows the rendered html of the converted documentation |
| DocumentationBrowser.OperatorDocumentationBrowser.SetSelection | src/com/rapidminer/gui/OperatorDocumentationBrowser.java:147-152 | an empty selection is an IndexOutOfBoundsException without change; the first selected operator is shown, and its documentation assigned, exactly when it differs from the shown one and selections are not ignored; otherwise nothing changes |
| DocumentationBrowser.OperatorDocumentationBrowser.SetDisplayedOperator | src/com/rapidminer/gui/OperatorDocumentationBrowser.java:381-388 | a non-null, non-deprecated operator is shown, and its documentation assigned, exactly when nothing is shown or its name differs; otherwise nothing changes |
| DocumentationBrowser.SameNameKeepsDisplay | src/com/rapidminer/gui/OperatorDocumentationBrowser.java:382-384 | offering an operator with the shown one's name never changes the display |

## Left out

- Swing and AWT throughout: layout, painting, listeners, timers, popups, focus and the inline text
  attributes. `BubbleWindow`'s shape geometry and positioning are left out too. The caret and selection
  of the dialog's text field follow `JTextComponent` (caret dot and mark, `select`'s clamping, caret
  to the end on `setText`). That behaviour is not part of this model, so it is stated in
  `RegexpDialog.RegexpPropertyDialog` as it is documented.
- Threads, `synchronized` blocks, `ProgressThread`, `SwingUtilities.invokeLater` and the documentation
  update queue. The background task bodies are sequential methods (`RunFetchTask`, `ShowDocumentation`).
  The order in which the UI thread runs posted notifications is not modelled.
- Change notifications (`fireContentsChanged`, `fireIntervalAdded`, `setChanged`/`notifyObservers`),
  logging, and I18N message lookup. Messages are reduced to the data they carry.
- The regular-expression engine (`String.replaceAll`, `Pattern.compile`, `Matcher.find`/`matches`).
  These are parameters. Whether `appendReplacement` accepts the replacement text is the parameter
  `replacementValid` of `CheckDocument`; the replaced text it builds with `appendTail`, the result
  tab title, and `updatePattern`/`clearResults` of the inline search document are not modelled.
- The XML library, the stream opening and `parseXmlAndReturnHtml` of the documentation view. The
  converted html is an input of `ShowDocumentation`. The serialisation of the chosen tutorial process
  and the rest of the hyperlink handler are not modelled.
- `SelectTutorialProcess`: takes the tutorial number as an integer. The `Integer.parseInt` of the
  link's suffix, and its NumberFormatException, are not modelled.
- `loadAllParameters`, `saveConfiguration`, `checkAccess` and `Configurator.create` are abstract.
  They are parameters that may fail. `getInstance` (the singleton) is not modelled.
- `ConfigManager.ConfigurationManager.LoadConfiguration`: the iteration order of the HashMap that
  `loadAllParameters` returns is arbitrary. It is chosen nondeterministically and returned as a ghost
  value, so the contract states the result for that order. `RegisteredNamesKept` gives the
  order-free result when create keeps entry names.
- `ConfigXml.ToXml`: the order of the parameter children follows the object's map and is unspecified.
  The contract states the children as a set whose text values match, not their order.
- `ConfigXml.IsXmlName`: the Name production of section 2.3 of XML 1.0 (Fifth Edition). A DOM
  implementation that checks the narrower character classes of the Fourth Edition rejects more
  names; those are written successfully in the model.
- `RegexpDialog`: text positions (caret, selection, `substring` bounds, match bounds, the popup label
  cut at 14) count Dafny characters, which are Unicode scalar values. Java counts UTF-16 code
  units, so the positions agree with the dialog only for text without characters above U+FFFF.
  (Sorting, by contrast, compares UTF-16 code units exactly, see `Strings.LexLess`.)
- `PlotterStyle.ColorScheme`: schemes compare by value. `ColorScheme.equals` is not part of this
  model. If it were identity, `AddColorScheme`'s duplicate test, `SetSelectedColorScheme`'s `indexOf`
  and `RemoveColorScheme`'s default test would differ from the model on schemes that are equal in
  value but distinct objects.
- `DefaultPlotterStyleProvider.createXML`/`loadFromXML`, `getStyleProviderPanel` and the font getters
  are not modelled. Fonts are opaque values.
- `PackageList.PackageListModel.LookUpNames`: `30 + 70 * a / size` is computed on unbounded integers.
  Java's 32-bit `int` would overflow in `70 * a` only beyond about 30 million names.
- `PackageList.PackageListModel.RunFetchTask`: an exception thrown by `fetchPackageNames` is the
  `None` argument. The progress listener's `setTotal`/`complete` calls are not modelled.
  `modifyPackageList` is the base class's no-op.
- `BookmarksPackageListModel`, `UpdatePanel`, `AbstractPatchedTransferHandler`, the tour steps,
  `WelcomeTourAction`, `ClusteringAlgorithms` and `KernelModelSupportVectorRenderer` are not part of
  this model.
- `ReplaceRegex.ReplaceRegexCommand.Run`: `checkStack` is not modelled. A stack with fewer than three
  values fails on the pop that finds it empty, having lost the values popped before.
- `BubbleWindow.FindButton`: a null name (a NullPointerException in `name.equals`) is not modelled.
  Non-container components have no children. Component locations are the integer screen
  coordinates `getLocationOnScreen` gives, so `xSize > xloc / 3` in `double` is exactly
  `3 * xSize > xloc`.
- `DocumentationBrowser.RenderHtml`: weaker than the promise that the shown html never contains the
  rmdoc namespace attribute. A single `String.replace` pass does not guarantee that, and
  `AttributeCanSurvive` exhibits an input where the attribute remains. The model states the wrapping
  and the replacement pass instead.
- `DocumentationBrowser.OperatorDocumentationBrowser.SetSelection`: operator equality is the
  identity `equals` of `Operator`, modelled as equality of an id. `ignoreSelections` is changed
  only by the hyperlink handler, which is not modelled.

## Findings

| source | as written | input that shows it | evidently intended | confidence | as-written member | corrected member |
|---|---|---|---|---|---|---|
| src/com/rapidminer/gui/properties/RegexpPropertyDialog.java:125-127 | the caret adjustment table has 12 entries for 11 constructs, and -5 for the one-character disjunction (row 10); inserting it asks, at line 462, for caret position cursor + 1 - 5 | double-click the disjunction in the construct table with the caret at position 0 to 3 (e.g. in an empty field): setCaretPosition(-4 + cursor) throws IllegalArgumentException | adjustment 0 for the disjunction, so the caret lands after the inserted character | not executed | RegexpDialog.DisjunctionCaretNegativeAsWritten | RegexpDialog.PlainCaretInRange |

The dialog's handlers (`InsertConstruct`, `ConstructClicked`) use the table as declared, so their
contracts state the exception; `AsWrittenCaretRejected` gives exactly the inputs that raise it.
