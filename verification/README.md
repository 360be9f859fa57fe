# Prompt DB and Prompt Stack, modelled in Dafny

ComfyUI Prompt DB keeps named text prompts in `prompts.json`, a JSON
object that maps each category to an object of prompt name → prompt
text. It consists of two parts.

- **Backend:**
  - five HTTP endpoints: list categories, list a category's prompts, read a prompt's text, save, create;
  - the *Prompt DB* node, which outputs its text widget;
  - the *Prompt Stack* node, whose `stack_prompts` joins the texts of the numbered entries `prompt_<k>_category` / `prompt_<k>_name` / `prompt_<k>_enabled` with a separator.
- **Front end**, two extensions:
  - `web/prompt_db.js` wires the Prompt DB node's dropdowns and its Save and Create buttons to the endpoints;
  - `web/prompt_stack.js` adds and removes stack entries, keeps a live preview and restores entries from a saved workflow.

The model has one module per concern.

- **Data and helpers:**
  - `Js`: JSON/JavaScript values and truthiness.
  - `AssocList`: Python's insertion-ordered `dict`.
  - `Text`: `join`, JavaScript `trim`, decimal entry numbers, Python string order.
  - `SortedStrings`: `sorted(set(...))`.
  - `EntryNames`: `prompt_<k>_<field>` and the remove-button label.
  - `Widgets`: the widget record and the shared dropdown selection rule.
- **Backend:**
  - `PromptDbServer`: every endpoint is a pure function of the file contents it loads. A mutation returns its reply together with the new contents. How the write went is a parameter: it succeeds, fails to open the file (which then is unchanged), or fails while dumping after `open(..., 'w')` has emptied the file (which then reads as an empty database).
  - `PromptStackServer`: `stack_prompts` and `INPUT_TYPES`.
- **Front end:** `PromptDbClient` and `PromptStackClient`.
  - Every `fetchApi` call is answered by the backend model on a database snapshot.
  - An `alert` is returned as its message.
  - A widget callback runs after the host has stored the chosen value.
- **Relating the two sides:**
  - `StackAgreement` proves that the preview shows what the node outputs, under three conditions: the node's entries 1..n follow widgets without a `prompt_` name, in the layout `addPromptEntry` builds (a freshly created node is not laid out that way); the node has a `preview_text` widget; and the backend does not raise. The separator must also be non-empty. Two further assumptions about the host are not checked by anything in the repository. First, the node and the endpoints read the same `prompts.json`: `stack_prompts` reads it under `get_user_db_path()` (prompt_stack.py:10-11, 86-89) while the endpoints read it under `get_comfy_path()` (prompt_db.py:129-130, 160-161, 194-195). Second, the node is called with every entry widget's value as a keyword argument (`EntryKwargs`), although `INPUT_TYPES` declares only entry 1 (prompt_stack.py:67-72) and `onGetInputs` forwards no category or name (`StackInputs.GetInputsOfEntries`). The package also registers only the Prompt DB node (prompt_db.py:314-316, __init__.py:1), so `PromptStack` is reachable only if the host loads it some other way. The backend declares no `preview_text` input (prompt_stack.py:62-76), so unless the host supplies such a widget, `updatePreview` returns at once and the preview is never shown.
  - `StackRestore` states the values each entry holds after `onConfigure`, and what `onSerialize` writes for a restored node.
  - `EntrySave` shows that a freshly created node saves its entry in a layout the restore parser misreads, and gives a corrected save that reads back every entry.
  - `StackInputs` proves what `onGetInputs` reports for the entry layout that `addPromptEntry` creates.

## Model

| member | source | states |
|---|---|---|
| AssocList.Put | prompt_db.py:240-245 | dict assignment: the key then maps to the new value; every other key keeps its value; key order is kept, and a new key goes last |
| AssocList.PutKeepsKeysDistinct | prompt_db.py:240-245 | assignment never creates a repeated key |
| AssocList.LookupFindsStoredKeys | prompt_db.py:172-173 | `get` finds a key exactly when it is among the stored keys, with a value stored under it |
| PromptDbServer.NamesAreEntries | prompt_db.py:172-175 | a name is listed for a category exactly when that prompt has a stored text |
| PromptDbServer.LoadCategories | prompt_db.py:141-142 | status 200; one category per top-level key, in stored order |
| PromptDbServer.LoadPrompts | prompt_db.py:153-179 | a falsy, non-string or unknown category lists nothing; status 500 with an empty list exactly when the category holds a truthy non-object; otherwise the category's names in stored order |
| PromptDbServer.StoredText | prompt_db.py:206 | the `get` chain raises exactly when the category holds a non-object; a non-empty result is the text stored for that string pair; for a string pair otherwise it is the stored text or "" |
| PromptDbServer.LoadPromptText | prompt_db.py:186-212 | falsy inputs give "" with status 200; status 500 exactly when both are truthy and the category holds a non-object; otherwise the stored text, or "" for a missing prompt or non-string inputs |
| PromptDbServer.Save | prompt_db.py:219-262 | an empty category or name is refused and nothing changes. Success exactly when both are non-empty, the category holds no non-object and the write succeeds. Status 500 exactly for the non-object case. On success the prompt stores the text, a new category or name is appended to the key order, and every other category and prompt is unchanged. A dump that fails after the file was opened for writing leaves it unreadable, which every later load reads as the empty database; any other failure leaves the file unchanged |
| PromptDbServer.Create | prompt_db.py:269-311 | the same as Save, with the prompt's text set to "", overwriting any text it had, and the "Created" message; a failed dump likewise leaves the file unreadable |
| PromptDbServer.CreateIsSaveOfEmptyText | prompt_db.py:289-294 | create stores exactly what saving an empty text stores, and succeeds exactly when that save does |
| PromptDbServer.SaveThenLoadText | prompt_db.py:240-254 | after a successful save, the text endpoint returns the saved text, the prompt is listed under its category, and the category is listed |
| PromptDbServer.LoadStored | prompt_db.py:172-208 | any stored prompt is listed, its category is listed, and its text loads with status 200 |
| PromptDbServer.FailedDumpLosesEveryPrompt | prompt_db.py:233-251 | after a dump fails, no category is listed and no prompt is stored, and the next successful save leaves only its own prompt in the file |
| PromptDbServer.SaveKeepsWellFormed | prompt_db.py:240-251 | saving keeps keys distinct at both levels of the file |
| PromptDbServer.GetPrompt | prompt_db.py:99-101 | the Prompt DB node outputs its text widget unchanged |
| PromptStackServer.Contribution | prompt_stack.py:106-114 | an entry that is not selected (enabled, truthy category and name) adds nothing; a selected entry raises exactly when its string category holds a non-object; a selected entry whose stored text is non-empty adds exactly that text, and otherwise nothing |
| PromptStackServer.ScanShrinks | prompt_stack.py:95-116 | each pass of `while True` consumes a key of the finite keyword map, so the loop ends |
| PromptStackServer.StackPrompts | prompt_stack.py:81-120 | with no first entry the result is ""; the call raises exactly when the scan raises |
| PromptStackServer.StackPromptsLoop | prompt_stack.py:95-119 | the counting loop that appends to a list computes StackPrompts |
| PromptStackServer.CollectFront | prompt_stack.py:95-116 | collecting entries lo..hi-1 is entry lo's contribution, then the rest |
| PromptStackServer.ScanIsCollect | prompt_stack.py:95-116 | from entry n on, the scan collects exactly the entries before the first one whose category or name is not passed |
| PromptStackServer.StackPromptsCollects | prompt_stack.py:81-120 | the result is the separator-join (", " by default) of the non-empty stored texts of the selected entries 1..m-1, in entry order, where m is the first entry not passed |
| PromptStackServer.ScanCongruent | prompt_stack.py:95-116 | keyword maps that agree on which entries are passed and on what they contribute give the same scan |
| PromptStackServer.CollectCongruent | prompt_stack.py:106-114 | entries with the same three values contribute alike |
| PromptStackServer.LaterEntriesIgnored | prompt_stack.py:101-103 | anything passed for entries above the first missing one does not change the result |
| PromptStackServer.SetEnabledKeepsOtherEntries | prompt_stack.py:97-108 | setting one entry's enabled flag leaves every other entry's three values as they were |
| PromptStackServer.MissingEnabledCountsAsEnabled | prompt_stack.py:108 | a missing `prompt_<k>_enabled` behaves exactly like True |
| PromptStackServer.EntryNotInDbContributesNothing | prompt_stack.py:111-114 | an entry whose prompt is not stored gives the same result as the entry disabled |
| PromptStackServer.AllPromptNames | prompt_stack.py:47-53 | strictly sorted, and holds exactly the names of the object-valued categories |
| PromptStackServer.InputTypes | prompt_stack.py:24-74 | the categories are the file's keys, or ["default"] with names ["new prompt"] when there are none or reading failed; the names are the sorted union; each default is its list's first element, or "" for no names |
| PromptStackServer.InputTypesNamesAreCanonical | prompt_stack.py:48-53 | the name list is the only strictly sorted list of that union, and its default is the least name |
| SortedStrings.Insert | prompt_stack.py:48-51 | adding a name keeps the list strictly sorted, and its elements are the old ones plus the name |
| SortedStrings.InsertAll | prompt_stack.py:48-53 | adding names keeps the list strictly sorted, with exactly the union of the elements |
| SortedStrings.SortedIsUnique | prompt_stack.py:53 | two strictly sorted lists with the same elements are equal |
| SortedStrings.HeadIsLeast | prompt_stack.py:70 | the first element of a sorted list precedes every other one |
| Text.BeforeTransitive | prompt_stack.py:53 | Python's string order is transitive |
| Text.BeforeTotal | prompt_stack.py:53 | any two distinct strings are ordered |
| Text.Trim | web/prompt_db.js:180-181 | the result is a slice of the input, surrounded only by white space on both sides; it neither starts nor ends with white space; it is empty exactly when the input is all white space |
| Text.ParseNatToString | web/prompt_stack.js:98 | reading back an entry number's decimal form gives the number |
| Text.NatToStringInjective | web/prompt_stack.js:227-244 | distinct entry numbers render differently |
| Text.TakeUntil | web/prompt_stack.js:98 | `split('_')[1]`: a prefix of the text that holds no separator, followed by the separator if it is shorter |
| EntryNames.TagOfPrefixedName | web/prompt_stack.js:98 | the tag read back from any name with entry k's prefix is k's number |
| EntryNames.EntryKeyInjective | web/prompt_stack.js:240-242 | different entries or fields never share a widget name |
| EntryNames.PrefixSeparatesEntries | web/prompt_stack.js:249-251 | only entry k's own names start with `prompt_<k>_` |
| EntryNames.RemoveButtonNameInjective | web/prompt_stack.js:248 | different entries have different remove-button labels |
| EntryNames.RemoveButtonIsNoEntryName | web/prompt_stack.js:315 | a remove button is never taken for a `prompt_` widget |
| Widgets.FindIndex | web/prompt_stack.js:99-100 | the first widget with the name, or none exactly when no widget carries it |
| Widgets.FindIndexSkips | web/prompt_stack.js:99-100 | searching past a prefix without the name finds what follows |
| Widgets.Choose | web/prompt_stack.js:128-133 | the selection is always in the list (or "" for an empty list); it is the restored name when that is in the list, else the first |
| Widgets.ChooseIsStable | web/prompt_stack.js:154-160 | selecting again from the same list keeps the selection |
| PromptStackClient.FetchCategories | web/prompt_stack.js:17-35 | the category list is the file's keys |
| PromptStackClient.FetchPrompts | web/prompt_stack.js:38-58 | a non-empty category's names, else nothing |
| PromptStackClient.FetchText | web/prompt_stack.js:61-82 | the stored text for truthy string inputs, else "" |
| PromptStackClient.UpdateCategoryDropdown | web/prompt_stack.js:124-133 | the options become the categories; the value follows the selection rule and is one of them (or "" when there are none); nothing else changes |
| PromptStackClient.UpdatePromptDropdown | web/prompt_stack.js:151-161 | with a falsy category nothing changes; otherwise the options become the category's names and the value follows the selection rule |
| PromptStackClient.EnabledWidgets | web/prompt_stack.js:95 | every kept widget has an enabled-toggle name |
| PromptStackClient.EnabledWidgetsMembers | web/prompt_stack.js:95 | the filter keeps exactly the widgets with an enabled-toggle name |
| PromptStackClient.EnabledWidgetsAppend | web/prompt_stack.js:95 | the filter works piecewise, so it keeps widget order |
| PromptStackClient.SeparatorText | web/prompt_stack.js:91 | never empty; a non-empty string separator is used as is; a falsy one becomes ", " |
| PromptStackClient.EntryText | web/prompt_stack.js:97-111 | a non-empty preview text means the toggle is on, the entry's category and name widgets exist with truthy values, and the text is stored for them; conversely, a truthy toggle whose category and name widgets hold non-empty strings with a stored text shows exactly that text |
| PromptStackClient.PreviewTexts | web/prompt_stack.js:97-112 | at most one text per toggle, and no empty text |
| PromptStackClient.PreviewText | web/prompt_stack.js:86-89 | there is a preview exactly when both a preview widget and a separator widget exist |
| PromptStackClient.UpdatePreview | web/prompt_stack.js:85-121 | only the first preview widget's value changes, and it takes the preview text; without a preview or separator widget nothing changes |
| PromptStackClient.UpdatePreviewLoop | web/prompt_stack.js:97-115 | the await-and-push loop computes UpdatePreview |
| PromptStackClient.NextEntryNumber | web/prompt_stack.js:227-229 | the default number is one more than the number of enabled toggles |
| PromptStackClient.NumberOfEntryNames | web/prompt_stack.js:240-248 | every name entry k's widgets carry yields k |
| PromptStackClient.MaxEntryNumber | web/prompt_stack.js:240-248 | bounds every number a widget name carries |
| PromptStackClient.FreshEntryNumber | web/prompt_stack.js:227-229 | the corrected default: at least 1 and above every number in use |
| PromptStackClient.FreshEntryNumberIsFresh | web/prompt_stack.js:227-229 | no widget carries a name of the fresh entry, neither an entry name nor a remove button |
| PromptStackClient.AddEntry | web/prompt_stack.js:226-267 | appends four widgets after the existing ones, carrying the names of the given or default entry number, in order |
| PromptStackClient.AddNumberedEntry | web/prompt_stack.js:232-267 | with a settled number, appends that entry's four names after the existing widgets |
| PromptStackClient.NewEntryNames | web/prompt_stack.js:240-248 | a new entry is toggle, category, name, then the remove button, all numbered k |
| PromptStackClient.AddEntrySelects | web/prompt_stack.js:231-266 | the toggle starts with the given flag (default on); the category is the given one or else the first; the prompt follows the selection rule over that category's names |
| PromptStackClient.AddEntryIsFresh | web/prompt_stack.js:227-229 | an entry added with the corrected default shares no name with the widgets already there |
| PromptStackClient.RemoveMiddleToggle | web/prompt_stack.js:248-257 | removing entry 2 from entries 1..3 leaves the toggles of entries 1 and 3 |
| PromptStackClient.TwoTogglesEnabled | web/prompt_stack.js:228 | those two toggles count as two enabled widgets |
| PromptStackClient.NextEntryNumberCollides | web/prompt_stack.js:227-229 | as written, the next entry after that removal is numbered 3 and its toggle takes the name `prompt_3_enabled`, which entry 3 still carries |
| PromptStackClient.RemoveEntry | web/prompt_stack.js:248-257 | a widget is kept exactly when it was there and is neither a `prompt_<n>_` widget nor entry n's remove button |
| PromptStackClient.RemoveEntryAppend | web/prompt_stack.js:249-254 | removal works piecewise, so kept widgets keep their order |
| PromptStackClient.RemoveEntryIdempotent | web/prompt_stack.js:248-257 | removing an entry twice is removing it once |
| PromptStackClient.RemoveEntryKeepsOtherEntries | web/prompt_stack.js:249-251 | every other entry's widgets and remove button are kept |
| PromptStackClient.Emit | web/prompt_stack.js:384-393 | a skipped widget contributes nothing; otherwise its hook's value, or its value unless that is undefined |
| PromptStackClient.Serialize | web/prompt_stack.js:380-396 | at most one value per widget |
| PromptStackClient.SerializeAppend | web/prompt_stack.js:383-394 | serialization works widget by widget, in widget order |
| PromptStackClient.SerializeIgnoresDropped | web/prompt_stack.js:385-388 | inserting a skipped widget anywhere changes nothing |
| PromptStackClient.ParseFrom | web/prompt_stack.js:342-348 | groups of four from index i; row j reads the three values after the group's skipped one |
| PromptStackClient.ParseEntries | web/prompt_stack.js:339-348 | (length-1)/4 rows when there are at least five values, else none; row j is enabled, category, name at indices 4j+2, 4j+3, 4j+4 |
| PromptStackClient.ParseEntriesLoop | web/prompt_stack.js:341-348 | the `i += 4` loop computes ParseEntries |
| PromptStackClient.Groups | web/prompt_stack.js:342-348 | the value layout the parser expects: a head value, then a skipped value and three entry values per row |
| PromptStackClient.ParseEntriesOfGroups | web/prompt_stack.js:339-348 | parsing that layout gives back the rows written into it |
| PromptStackClient.Strip | web/prompt_stack.js:315-325 | keeps exactly the widgets without a `prompt_` name that are not labelled remove buttons |
| PromptStackClient.StripOne | web/prompt_stack.js:315-325 | one widget is kept as it is, or dropped, by the two name and label tests |
| PromptStackClient.StripAppend | web/prompt_stack.js:315-325 | stripping works piecewise, so the kept widgets keep their order |
| PromptStackClient.NewEntries | web/prompt_stack.js:351-354 | four widgets per parsed row |
| PromptStackClient.AddEntries | web/prompt_stack.js:351-354 | the rows' entries go after the widgets already there, which are kept |
| PromptStackClient.NewEntriesNames | web/prompt_stack.js:351-354 | row j becomes entry first + j, at position 4j |
| PromptStackClient.AddEntriesNames | web/prompt_stack.js:351-354 | row j becomes entry first + j, right after the kept widgets and the j entries before it |
| PromptStackClient.AddEntriesNumbered | web/prompt_stack.js:351-354 | the restored entries are numbered 1, 2, … four widgets apart |
| PromptStackClient.FinalStep | web/prompt_stack.js:362-371 | one step renames nothing; it changes only the category widget and its partner; the category widget gets the category list and the selection rule |
| PromptStackClient.FinalPassFrom | web/prompt_stack.js:360-376 | renames nothing; touches only category and prompt-name widgets; leaves earlier category widgets as they were |
| PromptStackClient.FinalPassSelectsCategories | web/prompt_stack.js:360-372 | afterwards every category widget that has a prompt partner lists the file's categories and selects one of them (or "" when there are none) |
| PromptStackClient.FinalStepKeepsPartners | web/prompt_stack.js:363-364 | a step keeps every category widget's partner |
| PromptStackClient.NamesDecideFindIndex | web/prompt_stack.js:364 | widget lists with the same names answer every search alike |
| PromptStackClient.UpdatePreviewKeepsNames | web/prompt_stack.js:114-115 | refreshing the preview renames nothing |
| PromptStackClient.Restore | web/prompt_stack.js:312-377 | the kept widgets are followed by one entry per parsed row, numbered from 1, after the dropdown pass and the preview refresh (the restored values are stated by StackRestore.RestoreValues) |
| PromptStackClient.InputsFromKeys | web/prompt_stack.js:402-411 | the walk keeps what it collected and adds only keys of entries it has not yet passed |
| PromptStackClient.GetInputs | web/prompt_stack.js:399-418 | every reported key is the separator or an entry key; the separator is reported, with its value, exactly when its widget exists |
| StackAgreement.LayoutFind | web/prompt_stack.js:240-248 | in the layout `addPromptEntry` builds, field o of entry k is found at index 4(k-1)+o |
| StackAgreement.EntryKwargsAreKwargsOf | prompt_stack.py:97-108 | the assumed keyword arguments for a layout (every entry widget's value) pass exactly entries 1..n, with their widgets' values |
| StackAgreement.KwargsReach | prompt_stack.py:101-103 | on such arguments the scan covers entries 1..n and stops at n+1 |
| StackAgreement.EnabledWidgetsOfLayout | web/prompt_stack.js:95 | the enabled toggles of a layout are the entries' toggles, in entry order |
| StackAgreement.EntryAgrees | web/prompt_stack.js:97-111 | when the backend does not raise, an entry's preview text and its stack contribution agree |
| StackAgreement.CollectIsPreview | web/prompt_stack.js:97-112 | the preview's texts for entries 1..m are the texts the scan collects |
| StackAgreement.PreviewJoinsStackedTexts | web/prompt_stack.js:91-115 | when the scan does not raise, the preview joins the stacked texts with the separator the preview shows |
| StackAgreement.PreviewMatchesStack | web/prompt_stack.js:85-121 | with a non-empty separator and no exception, the preview text is exactly `stack_prompts`' result on the same database when every entry widget's value is passed as a keyword argument |
| StackAgreement.EmptySeparatorPreviewDiffers | web/prompt_stack.js:91 | with an empty separator the preview joins with ", " while the backend joins with "" |
| StackAgreement.NumberedRunIsLayout | web/prompt_stack.js:351-354 | the numbered entries after the kept widgets form the layout |
| StackAgreement.RestoreLaysOutEntries | web/prompt_stack.js:312-377 | after `onConfigure`, the kept widgets (none of them an entry widget) are followed by the layout of the parsed entries |
| StackRestore.RestoredEntries | web/prompt_stack.js:351-354 | four widgets per parsed row |
| StackRestore.RestoredEntriesAt | web/prompt_stack.js:351-371 | row j becomes entry first + j at position 4j, with the row's restored flag, category and prompt |
| StackRestore.SelectedCategorySettles | web/prompt_stack.js:124-133 | the category `addPromptEntry` selects is refined by the final pass to the parsed category when it is listed, else the first listed, else ""; a parsed category that is falsy or listed is kept as selected |
| StackRestore.SettledNewEntry | web/prompt_stack.js:231-266 | an entry added for a row and then refreshed by the final pass holds the parsed flag (on when missing), the restored category with the category list, and the prompt chosen from that category's names, where the parsed name counts only when the parsed category was kept |
| StackRestore.PassSettlesEntries | web/prompt_stack.js:360-372 | the final pass refreshes each entry in turn, four widgets at a time, leaving the widgets before it as they were |
| StackRestore.SettleAllNewEntries | web/prompt_stack.js:351-372 | refreshing freshly added entries gives the restored entries |
| StackRestore.RestorePassSettles | web/prompt_stack.js:312-372 | after the dropdown pass the node holds the kept widgets, unchanged, followed by the restored entries |
| StackRestore.RestoreIsRestoredEntries | web/prompt_stack.js:312-377 | `onConfigure` leaves the preview refresh of the kept widgets followed by the restored entries |
| StackRestore.PreviewKeepsBody | web/prompt_stack.js:114-115 | the preview refresh leaves every widget after the head as it was when none of them is the preview widget |
| StackRestore.RestoreValues | web/prompt_stack.js:312-377 | past the kept widgets, `onConfigure` leaves exactly the restored entries of the parsed rows |
| StackRestore.SerializeRestoredEntry | web/prompt_stack.js:380-396 | a restored entry writes its flag, category, prompt name and the remove button's "" |
| StackRestore.SerializeRestore | web/prompt_stack.js:380-396 | a restored node writes the kept widgets' values, then four values per restored row; the preview widget changes nothing |
| StackRestore.ParseRestoredValues | web/prompt_stack.js:339-348 | two leading values followed by the restored values parse back to the restored rows |
| StackRestore.RestoreRoundTrip | web/prompt_stack.js:312-396 | when the kept widgets write two values (the separator and the add button), saving a restored node and loading it again gives each entry's restored values |
| StackRestore.CleanRowRestored | web/prompt_stack.js:124-161 | a row with a defined flag, a listed category and one of its prompts is restored as it was |
| StackRestore.RestoredRowIsStable | web/prompt_stack.js:124-161 | restoring a restored row changes nothing, so a second save and load keeps every value |
| StackRestore.RestoreRoundTripClean | web/prompt_stack.js:312-396 | when every parsed row is clean, save after load writes back the parsed rows |
| EntrySave.FreshNodeSaved | web/prompt_stack.js:380-396 | a fresh node (separator, entry 1's category, name and flag, then the add button) writes those five values in that order |
| EntrySave.FreshNodeMisread | web/prompt_stack.js:339-348 | as written, loading a fresh node's save reads entry 1 as (name, flag, "") and matches the saved entry only when flag, category and name coincide with that; with a boolean flag, the reload selects the first category and the toggle holds the prompt name |
| EntrySave.FieldValue | web/prompt_stack.js:99-100 | the value of the first widget with the name, or undefined when none has it |
| EntrySave.EntryRows | web/prompt_stack.js:95-100 | one row per toggle: its value and those of the category and name widgets sharing its tag |
| EntrySave.SaveByEntry | web/prompt_stack.js:339-348 | the corrected save: one group per enabled toggle after the separator, and the parser reads back exactly each entry's flag, category and name |
| EntrySave.FreshNodeReadBack | web/prompt_stack.js:339-348 | with the corrected save, a fresh node's entry reads back as it was |
| EntrySave.SaveByEntryOfLayout | web/prompt_stack.js:339-348 | on a laid-out node, the corrected save reads back every entry whatever the widgets before them |
| EntrySave.SaveByEntryRestoreRoundTrip | web/prompt_stack.js:312-377 | with the corrected save, save after load gives each entry's restored values with no condition on the kept widgets |
| StackInputs.EntryStep | web/prompt_stack.js:402-411 | on one entry in layout order, the walk records its toggle and moves on, passing by its category, name and button |
| StackInputs.InputsOverEntries | web/prompt_stack.js:402-411 | from entry m on, the walk records exactly the toggles of entries m..n |
| StackInputs.GetInputsOfEntries | web/prompt_stack.js:399-418 | on a node laid out by `addPromptEntry`, every entry's enabled flag is forwarded with its value, and no category or name at all |
| StackInputs.GetInputsAfterRestore | web/prompt_stack.js:312-418 | after `onConfigure`, exactly the restored entries' enabled flags are reported, and none of their categories or names |
| PromptDbClient.LoadText | web/prompt_db.js:70-104 | only the text area changes; a failed request changes nothing; otherwise it shows the stored text, or "" |
| PromptDbClient.LoadPrompts | web/prompt_db.js:24-67 | a failed request changes nothing; no names clears the options, name and text; otherwise the names become the options, the first is selected, and its stored text is shown; the category and creation fields are kept |
| PromptDbClient.LoadTextTwice | web/prompt_db.js:70-104 | loading the same text again changes nothing |
| PromptDbClient.OnCategoryChanged | web/prompt_db.js:114-121 | the value is kept; a non-empty value loads its prompts |
| PromptDbClient.OnPromptNameChanged | web/prompt_db.js:124-131 | only the name and text change; the text is loaded only when both the name and the category are non-empty; a failed text request (a non-object category) leaves the text as it was |
| PromptDbClient.Init | web/prompt_db.js:261-270 | without a category nothing happens |
| PromptDbClient.InitIsLoadPrompts | web/prompt_db.js:261-270 | the second text request at creation is redundant: creation ends where `loadPrompts` ends |
| PromptDbClient.ReloadAfterConfigure | web/prompt_db.js:320-329 | only the text changes, and only when both the category and the name are non-empty and the request succeeds; then it is the stored text, or "" |
| PromptDbClient.SaveClick | web/prompt_db.js:134-170 | an empty category or name alerts before any request and changes nothing; otherwise the file is the server's save result; no alert exactly when the category holds no non-object and the write succeeds; the status alert for a 500, or "Save failed:" with the server's write error |
| PromptDbClient.SaveClickChecksFirst | web/prompt_db.js:139-142 | the server never refuses a click for a missing input |
| PromptDbClient.SaveClickThenReload | web/prompt_db.js:134-170 | after a successful save, reloading the prompt shows the text that was saved |
| PromptDbClient.AddOption | web/prompt_db.js:210-219 | the category is added once, at the end, and the other options are kept |
| PromptDbClient.AddOptionKeepsDistinct | web/prompt_db.js:211-212 | options without repeats stay without repeats |
| PromptDbClient.AddOptionIdempotent | web/prompt_db.js:211-212 | adding the same category twice is adding it once |
| PromptDbClient.Created | web/prompt_db.js:209-249 | after a create, the category joins the category widget's option list and is selected, the name options become the category's names, the new name is selected among them with an empty text, and both creation fields are cleared |
| PromptDbClient.CreateClick | web/prompt_db.js:178-259 | after trimming, an empty category alerts first and then an empty name, before any request, and nothing changes; otherwise the file is what the server's create left; an alert leaves the node unchanged; a 500 alerts "API call failed with status: 500" and a refused create alerts "Create failed: " with the server's message; when the category widget has no option list, a successful create still stores the empty prompt but raises a TypeError that the `catch` reports; otherwise success updates the node as Created states |
| PromptDbClient.CreateClickSucceeds | web/prompt_db.js:178-259 | Create ends without an alert exactly when both trimmed fields are non-empty, the category holds no non-object, the write succeeds, and the category widget has an option list |
| PromptDbClient.CreateClickThenReload | web/prompt_db.js:222-249 | after a successful Create, reloading shows the new, empty prompt |
| PromptDbClient.SerializeCore | web/prompt_db.js:277-295 | each index holds that widget's value when it is a core widget and a hole otherwise; the array ends at the last core widget |
| PromptDbClient.Pad | web/prompt_db.js:284-289 | holes up to the length, the stored values kept |
| PromptDbClient.ConfigureFrom | web/prompt_db.js:309-318 | a core widget takes the stored value at its index unless it is undefined; other widgets, and widgets past the values, are left alone |
| PromptDbClient.ConfigureTouchesOnlyCoreValues | web/prompt_db.js:309-318 | configure changes nothing but the values of core widgets |
| PromptDbClient.ConfigureSerializeRoundTrip | web/prompt_db.js:277-318 | configuring with a node's own serialized values leaves it unchanged |
| PromptDbClient.ConfigureRestoresSavedLayout | web/prompt_db.js:277-318 | on a node with the same widget names, each core widget gets its saved value (when defined) and every other widget stays |
| PromptDbClient.SaveLoadKeepsCoreFields | web/prompt_db.js:277-318 | saving one node and loading the values into another gives it the first's category, prompt name and text, and keeps its own options and Create fields |
| PromptDbClient.ConfigureLoop | web/prompt_db.js:309-318 | the loop over the indices below both lengths computes the restore |

## Left out

- HTTP transport, request parsing and `aiohttp` responses. Each endpoint takes its decoded fields and returns the status (200 or 500) with the body.
- Reading `prompts.json` and the fallbacks for a missing or unreadable file: `ensure_prompts_file`, `get_comfy_path` / `get_user_db_path`, and writing the default database. The handlers take the database they loaded.
- A top-level JSON value that is not an object is not modelled. `Db` is always an object of categories. A category's value may be any JSON value; only its truthiness and whether it is an object matter.
- Request fields that are not strings are not modelled for save and create: they are taken as strings. The listing and text endpoints model scalar non-string fields (null, booleans, numbers).
- A request field that is a JSON array or object is not modelled: `Value` has no such case. For such a `category`, `prompts_db.get(category, {})` raises TypeError and the listing and text endpoints reply with status 500 (prompt_db.py:172, 206).
- Stored prompt texts are modelled as strings. A stored non-string value (a number, a list) is not: the text endpoint would return it as it is (prompt_db.py:206-208), and `separator.join` in `stack_prompts` would raise on it (prompt_stack.py:119).
- The host's `addWidget` is assumed to leave a widget's `label` unset. So the label tests at web/prompt_stack.js:321 and 385-388 never match a remove button: remove buttons are serialized as "", and `Strip` keeps a remove button that has no `prompt_` name.
- The handlers' generic exception path (`Error: …` with status 500) is modelled only for a category that holds a non-object. No other exception can arise from the modelled inputs.
- The import at prompt_stack.py:3 names `get_user_db_path` and `DEFAULT_PROMPTS`. prompt_db.py defines neither of them. The model assumes the module loads; `INPUT_TYPES` takes the loaded database or its failure as a parameter.
- DOM updates (`inputEl`), `computeSize`, `setDirtyCanvas`, console logging, `pylog.py` and `IS_CHANGED` have no effect on the modelled state.
- Timers and asynchronous interleaving (`setTimeout`, `.then`, un-awaited promises) are not modelled. Each front-end operation runs to completion in program order on one database snapshot. `setupCategoryHandler`'s chained callbacks are modelled as the dropdown refreshes they perform.
- `createPreviewWidgets` and the host's own `configure` / `serialize` / `onConfigure` hooks are not modelled. `Restore` starts from the widgets the host restored.
- A failed `fetch` that throws on the client is not modelled: "Error during save" is not produced, and "Error creating prompt" only for the missing option list. Each request is answered by the backend model.
- The JSON round trip of `null` versus `undefined` in `widgets_values` is not modelled. `ConfigureSerializeRoundTrip` works on in-memory values.
- The Python and JavaScript test files are not part of this model.
- PromptDbServer.Save and PromptDbServer.Create: how the write goes is a parameter, not derived from the data. Python's `json.dump` raises on a string holding a lone surrogate, which a Dafny `string` cannot hold, and on a full disk, which the model does not see. Which bytes a failed dump leaves in the file is not modelled either: any partial object fails to decode, so the file is modelled as empty.
- StackAgreement.PreviewMatchesStack: the agreement holds only under two host assumptions that nothing in the repository guarantees. The node must read the same `prompts.json` as the endpoints, although the two paths come from `get_user_db_path()` and `get_comfy_path()`. And every entry widget's value must be passed as a keyword argument, although only entry 1 is a declared input and `onGetInputs` forwards no category or name.
- PromptDbClient.Created and PromptDbClient.CreateClick: the `category` input is a STRING widget (prompt_db.py:63) and the extension never gives it an option list. Whether the host's widget has `options.values` is a field of `Node`. When it has none, `includes` on undefined raises a TypeError after the server has stored the prompt. The alert text uses V8's wording of that error.
- PromptDbClient.NodeWidgets: the `category` and `prompt_name` inputs are text boxes, as their STRING type makes them. The option lists the callbacks give them are kept as widget options, which a text box does not display.
- PromptStackClient.AddEntries: the restored entries are appended as one list rather than one `await addPromptEntry` call at a time. The two agree because a numbered entry's widgets depend only on the database and the row, not on the widgets already there.
- PromptStackClient.Restore: its own contract states the layout and the names only. The restored values are stated by StackRestore.RestoreValues and StackRestore.RestoredEntriesAt, and the save/load round trip by StackRestore.RestoreRoundTrip.
- PromptStackClient.AddEntry: it uses the corrected default number (see Findings); `NextEntryNumber` keeps the number as written.

## Findings

| source | as written | input that shows it | evidently intended | confidence | as-written member | corrected member |
|---|---|---|---|---|---|---|
| web/prompt_stack.js:227-229 | a new entry without an explicit number is numbered one more than the count of `prompt_*_enabled` widgets | entries 1, 2 and 3, then remove entry 2: two toggles remain, so the next entry is numbered 3 and a second `prompt_3_enabled` appears beside the existing one | a number no widget is using, so that every entry's widgets keep their own names | not executed | PromptStackClient.NextEntryNumberCollides | PromptStackClient.AddEntryIsFresh |
| web/prompt_stack.js:339-348 | the parser reads (flag, category, name) from the three values after each group's first, which fits the layout of a restored node only | a fresh node as the backend's inputs create it: separator ", ", `prompt_1_category` "default", `prompt_1_name` "new prompt", `prompt_1_enabled` true, then the add button. It saves `[", ", "default", "new prompt", true, ""]`, which loads as flag "new prompt", category true, name "" | every entry reads back with the flag, category and name it was saved with | not executed | EntrySave.FreshNodeMisread | EntrySave.FreshNodeReadBack |

The corrected save is `EntrySave.SaveByEntry`. It also reads back every restored node with no condition on the kept widgets (`EntrySave.SaveByEntryRestoreRoundTrip`). The rest of the model keeps `onSerialize` as written: on a restored node whose kept widgets write two values, it reads back the same rows (`StackRestore.RestoreRoundTrip`).

Three further behaviours are modelled as written and proved, but are not claimed as defects, because the intent is not evident:

- A dump that fails after `open(..., 'w')` has emptied `prompts.json` leaves an unreadable file. Every later load reads it as the empty database, so the next successful save writes only its own prompt (`PromptDbServer.FailedDumpLosesEveryPrompt`).

- The preview joins with ", " when the separator is empty, while `stack_prompts` joins with "" (`StackAgreement.EmptySeparatorPreviewDiffers`).
- `onGetInputs` expects each entry's category and name before its toggle. `addPromptEntry` creates the toggle first, so only the enabled flags are forwarded (`StackInputs.GetInputsOfEntries`).
