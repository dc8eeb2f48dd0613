# TfsUtil core, modelled in Dafny

TfsUtil is a Windows desktop utility for Team Foundation Server version
control. Its main window lists the registered project collections in a
server menu and opens content tabs. A merge search control, which also
exists as a stand-alone window, finds the changesets that are still to be
merged from a source branch into a target branch. It offers path
suggestions for the source branch while the user types. It then lists the
merge candidates the server reports, optionally only one user's, oldest
first.

This project models the parts of that program that follow rules of their
own, module by module:

- **`TfsWrappers`** covers the server connection wrapper:
  - its two-state dispose machine and the accessors it guards;
  - the folder listing;
  - the path auto-suggestion pipeline: normalise the typed path, split it into folder and name, filter the listing by case-insensitive prefix, sort, and suppress a lone exact match.
- **`MergeSearchControlViewModels`** covers the control's view model:
  - the busy flag and the `SourceBranch` setter with their change notifications;
  - the current target branch;
  - the source-branch query (flatten, distinct, sort);
  - the merge-candidate query;
  - the sole-selection query;
  - the two continuations that refill the lists, run in sequence.
- **`MergeSearchControls`** covers the merge search control:
  - the keyboard-driven popup with a wrapping index;
  - popup state and popup list;
  - search validation, the merge direction text, the owner filter and sort, and the fill loop;
  - context-menu enabling;
  - its nested model's `SourceBranch` setter.
- **`MergeSearchWindows`** covers the stand-alone window. It has the same elements as the control, but its popup index clamps instead of wrapping, and it queries the raw merge candidates of an older revision.
- **`MainWindows`** covers the main window: the ordered server menu with at most one checked item and a placeholder, server selection, and adding and removing content tabs.
- **`Helper`**, **`ControlItems`**, **`MergeCandidateWrappers`** and **`BooleanToVisibilityConverters`** cover the shared helpers, the list item value object, the candidate wrapper with its derived fields, and the visibility converter.
- **`Wrappers`**, **`Text`**, **`Sorting`**, **`Formatting`** and **`CandidateSelection`** state the library semantics the program relies on:
  - `null` and exceptions;
  - trimming and ordinal case-insensitive comparison;
  - LINQ's `OrderBy`/`ThenBy`, `Where` and `Distinct`;
  - decimal formatting and `string.Join`;
  - the candidate query shared by the three copies.

Conventions:

- `null` is `Option.None`.
- A thrown exception is a `Result.Failure` carrying the exception's type and arguments.
- Objects whose state the program changes in place are classes: the windows, the control, the view model, menu items and the collections they refill.
- Everything the server, the WPF framework or the user supplies is a parameter. This covers folder listings, merge candidates, branch objects, focus and window flags, and the outcome of the progress window.

The three copies of the merge-candidate query each keep their own record
types, because the files come from different revisions:

- the view model's candidates carry an `IsSelected` flag;
- the control wraps them in `MergeCandidateWrapper`;
- the window sorts the server's raw `MergeCandidate` objects through their changesets.

## Model

| member | source | states |
|---|---|---|
| `Text.TrimStartSpec` | TfsUtil/TfsWrapper.cs:92 | `TrimStart` removes exactly the leading white space: the result is a suffix of the input that is empty or starts with a non-white character, and everything removed is white space. |
| `Text.TrimEndSpec` | TfsUtil/TfsWrapper.cs:92 | `TrimEnd` removes exactly the trailing white space: the result is a prefix of the input that is empty or ends with a non-white character, and everything removed is white space. |
| `Text.TrimSpec` | TfsUtil/TfsWrapper.cs:92 | `Trim()` is the input with its leading and trailing white space removed: a slice of the input with no white space at either end. |
| `Text.TrimEmptyIffBlank` | TfsUtil/TfsWrapper.cs:92-93 | A string trims to the empty string exactly when it is empty or all white space (`IsNullOrWhiteSpace`). |
| `Text.Fold` | TfsUtil/TfsWrapper.cs:101 | Ordinal case folding keeps the length and folds each character on its own. |
| `Text.LexLeReflexive` | TfsUtil/TfsWrapper.cs:137 | The ordinal string order is reflexive. |
| `Text.LexLeTotal` | TfsUtil/TfsWrapper.cs:137 | Any two strings are comparable in the ordinal order. |
| `Text.LexLeTransitive` | TfsUtil/TfsWrapper.cs:137 | The ordinal order is transitive. |
| `Text.LexLeAntisymmetric` | TfsUtil/TfsWrapper.cs:137 | The ordinal order is antisymmetric: strings ordered both ways are equal. |
| `Sorting.ByKeyTotalPreorder` | TfsUtil/TfsWrapper.cs:136 | `OrderBy(key, comparer)` orders by a total preorder whenever the comparer is one. |
| `Sorting.ThenByTotalPreorder` | TfsUtil/TfsWrapper.cs:136-137 | `OrderBy(...).ThenBy(...)` is a total preorder when both orders are. |
| `Sorting.ThenByMeaning` | TfsUtil/TfsWrapper.cs:136-137 | `ThenBy` consults the second order exactly for elements the first order finds equal. |
| `Sorting.IntLeTotalPreorder` | TfsUtil/Controls/MergeSearchControlViewModel.cs:357-358 | Integer keys (ticks, changeset ids, work item ids) are totally ordered. |
| `Sorting.LexLeTotalOrder` | TfsUtil/TfsWrapper.cs:137 | The ordinal string order is a total order. |
| `Sorting.Filter` | TfsUtil/Controls/MergeSearchControlViewModel.cs:345-347 | `Where(p)` keeps each element that satisfies `p`, as often as it occurs, and nothing else; its order is proved in `FilterInOrder` and `FilterAppend`. |
| `Sorting.FilterAll` | TfsUtil/Controls/MergeSearchControlViewModel.cs:260 | `Where` keeps the whole sequence when every element satisfies the predicate. |
| `Sorting.FilterEmpty` | TfsUtil/Controls/MergeSearchControl.xaml.cs:257 | `Where` is empty exactly when no element satisfies the predicate (`!Any()`). |
| `Sorting.IsSubsequence` | TfsUtil/Controls/MergeSearchControlViewModel.cs:260 | Defines "the elements of `b`, some left out, in their order", the order `Where` keeps. |
| `Sorting.FilterInOrder` | TfsUtil/Controls/MergeSearchControlViewModel.cs:260 | `Where(p)` returns its elements in the order of its input. |
| `Sorting.FilterAppend` | TfsUtil/Controls/MergeSearchControlViewModel.cs:260 | `Where(p)` reads its input left to right: one more element at the end is appended to the result exactly when it satisfies `p`. With the empty case this fixes contents and order. |
| `Sorting.FilterSingleton` | TfsUtil/Controls/MergeSearchControlViewModel.cs:265-266 | `Where` returns exactly the one element when only that one satisfies the predicate. |
| `Sorting.FilterTwo` | TfsUtil/Controls/MergeSearchControlViewModel.cs:265-266 | `Where` returns two or more elements when two positions satisfy the predicate. |
| `Sorting.Distinct` | TfsUtil/Controls/MergeSearchControlViewModel.cs:310 | `Distinct()` keeps every element of the input, no other, and none twice. |
| `Sorting.InsertBy` | TfsUtil/Controls/MergeSearchControlViewModel.cs:356-358 | Inserting one element adds exactly that element and keeps every other one. |
| `Sorting.SortBy` | TfsUtil/Controls/MergeSearchControlViewModel.cs:356-358 | `OrderBy`/`ThenBy` returns a permutation of its input; its order is proved in `SortBySorted`. |
| `Sorting.InsertBySorted` | TfsUtil/Controls/MergeSearchControlViewModel.cs:356-358 | Inserting into a sorted sequence keeps it sorted under a total preorder. |
| `Sorting.SortBySorted` | TfsUtil/Controls/MergeSearchControlViewModel.cs:356-358 | The sort result is sorted under any total preorder. |
| `Sorting.SortedDistinctStrict` | TfsUtil/Controls/MergeSearchControlViewModel.cs:310-311 | A sorted sequence without duplicates under an antisymmetric order is strictly increasing. |
| `Sorting.PermutationKeepsDistinct` | TfsUtil/Controls/MergeSearchControlViewModel.cs:310-311 | Sorting a duplicate-free sequence keeps it duplicate-free. |
| `Formatting.DigitChar` | TfsUtil/Wrappers/MergeCandidateWrapper.cs:46 | A digit value below ten gives a decimal digit character. |
| `Formatting.DigitValue` | TfsUtil/Wrappers/MergeCandidateWrapper.cs:46 | Reading a digit character back gives the value that prints as it. |
| `Formatting.NatDigits` | TfsUtil/Wrappers/MergeCandidateWrapper.cs:46 | `ToString("D")` of a natural number is a non-empty string of digits. |
| `Formatting.DecimalString` | TfsUtil/Wrappers/MergeCandidateWrapper.cs:46 | `ToString("D")` of any integer is non-empty, has no comma and does not start with a space. |
| `Formatting.NatDigitsRoundTrip` | TfsUtil/Wrappers/MergeCandidateWrapper.cs:46 | Parsing the digits of a natural number gives that number back. |
| `Formatting.DecimalRoundTrip` | TfsUtil/Wrappers/MergeCandidateWrapper.cs:46 | Parsing `ToString("D")` of any integer, negative ones included, gives it back. |
| `Formatting.SplitAt` | TfsUtil/Wrappers/MergeCandidateWrapper.cs:44-46 | Splitting at a separator always yields at least one piece. |
| `Formatting.IdListString` | TfsUtil/Wrappers/MergeCandidateWrapper.cs:44-46 | The ids formatted with `ToString("D")` and joined by `", "`; `IdListRoundTrip` proves the text empty exactly for no ids and parsed back to the ids in order. |
| `Formatting.SplitJoined` | TfsUtil/Wrappers/MergeCandidateWrapper.cs:44-46 | Splitting `string.Join(", ", parts)` at the commas gives the first part, then each other part with its leading space, provided no part contains a comma. |
| `Formatting.DecimalStrings` | TfsUtil/Wrappers/MergeCandidateWrapper.cs:46 | `Select(id => id.ToString("D"))` formats each id in place. |
| `Formatting.ParseSpacedIdsRoundTrip` | TfsUtil/Wrappers/MergeCandidateWrapper.cs:44-46 | The joined pieces after the first, each with its leading space, parse back to their ids. |
| `Formatting.IdListRoundTrip` | TfsUtil/Wrappers/MergeCandidateWrapper.cs:44-46 | The comma-joined id list is empty exactly for no ids, and parsing it gives the ids back in order. |
| `CandidateSelection.CandidateOrderTotal` | TfsUtil/Controls/MergeSearchControlViewModel.cs:356-358 | `OrderBy(CreationDate).ThenBy(ChangesetId)` is a total preorder. |
| `CandidateSelection.CandidateOrder` | TfsUtil/Controls/MergeSearchControlViewModel.cs:356-358 | `OrderBy(item => item.CreationDate).ThenBy(item => item.ChangesetId)` as an order on candidates; its meaning is stated in `CandidateOrderMeaning` and `CandidateOrderTotal`. |
| `CandidateSelection.CandidateOrderMeaning` | TfsUtil/Controls/MergeSearchControlViewModel.cs:356-358 | A candidate precedes another when it is older, or equally old with a changeset id no larger. |
| `CandidateSelection.FilterByOwner` | TfsUtil/Controls/MergeSearchControlViewModel.cs:341-348 | With a non-empty user name, only candidates whose owner equals it ignoring case remain. With an empty one, all remain. |
| `CandidateSelection.FilterByOwnerIgnoresCase` | TfsUtil/Controls/MergeSearchControlViewModel.cs:343-347 | Two user names equal under `OrdinalIgnoreCase` keep exactly the same candidates in the same order. |
| `CandidateSelection.SelectSpec` | TfsUtil/Controls/MergeSearchControlViewModel.cs:341-360 | The query keeps each admitted candidate as often as it occurs, and nothing else. It orders them by date, then changeset id. |
| `CandidateSelection.Select` | TfsUtil/Controls/MergeSearchControlViewModel.cs:341-360 | The candidate query shared by the three copies: filter by owner, then sort by date and changeset id; its properties are proved in `SelectSpec` and `SelectEmpty`. |
| `CandidateSelection.SelectEmpty` | TfsUtil/Controls/MergeSearchControl.xaml.cs:250-260 | The query is empty exactly when every candidate is excluded, that is, the user name is non-empty and no candidate's owner matches it (an empty input included). |
| `CandidateSelection.SelectIgnoresCase` | TfsUtil/Controls/MergeSearchControlViewModel.cs:343-358 | The whole query gives the same result for two user names equal ignoring case. |
| `TfsWrappers.ActualPathSpec` | TfsUtil/TfsWrapper.cs:92-104 | A null or blank path, and `$` itself, become `$/`. A trimmed path not starting with `$` gives no suggestions. Any other path is used trimmed, is at least two characters long, starts with `$` and does not end in white space. |
| `TfsWrappers.ActualPath` | TfsUtil/TfsWrapper.cs:92-104 | The normalised path `GetSuggestions` works with, or no suggestions; its cases are proved in `ActualPathSpec`. |
| `TfsWrappers.LastSeparator` | TfsUtil/TfsWrapper.cs:117-118 | Finds the last `\` or `/` of the path, or reports that there is none. |
| `TfsWrappers.SplitPath` | TfsUtil/TfsWrapper.cs:109-119 | With a trailing separator, the folder is the path without its last character and there is no name. Otherwise the folder is everything before the last separator and the name is everything after it. |
| `TfsWrappers.NameNeverBlank` | TfsUtil/TfsWrapper.cs:117-133 | The name split off a normalised path is never blank, so the prefix filter always applies to a path without a trailing separator. |
| `TfsWrappers.QueryFolder` | TfsUtil/TfsWrapper.cs:184-187 | Folder `$` is queried as `$/`; every other folder is queried as it is. |
| `TfsWrappers.SuggestionOrder` | TfsUtil/TfsWrapper.cs:135-137 | Suggestions are ordered by their case-folded text, and equal folded texts ordinally; `SuggestionOrderTotal` proves it a total preorder and `GetSuggestionsSpec` that the result is sorted by it. |
| `TfsWrappers.SuggestionOrderTotal` | TfsUtil/TfsWrapper.cs:135-138 | Case-insensitive order, then ordinal order, is a total preorder. |
| `TfsWrappers.Candidates` | TfsUtil/TfsWrapper.cs:127-133 | Without a name, every listed item is a candidate. With one, exactly the items that start with the typed path ignoring case, each as often as listed. Either way the candidates keep the listing order. |
| `TfsWrappers.Offer` | TfsUtil/TfsWrapper.cs:135-145 | Sorts the candidates ignoring case, then ordinally, and offers nothing when the only one is the typed path; its meaning is proved in `GetSuggestionsSpec`. |
| `TfsWrappers.TfsWrapper.Open` | TfsUtil/TfsWrapper.cs:37-50 | A new wrapper is connected to the given address and not disposed. |
| `TfsWrappers.TfsWrapper.New` | TfsUtil/TfsWrapper.cs:41-44 | A null address throws `ArgumentNullException("url")`. Otherwise a live wrapper is made. |
| `TfsWrappers.TfsWrapper.EnsureNotDisposed` | TfsUtil/TfsWrapper.cs:168-174 | Succeeds exactly while the wrapper is not disposed. Afterwards it throws `ObjectDisposedException` naming the type. |
| `TfsWrappers.TfsWrapper.GetTeamProjectCollection` | TfsUtil/TfsWrapper.cs:62-69 | Returns the collection exactly while not disposed. Afterwards it throws `ObjectDisposedException`. |
| `TfsWrappers.TfsWrapper.GetVersionControlServer` | TfsUtil/TfsWrapper.cs:71-78 | Returns the collection's version-control service exactly while not disposed. Afterwards it throws `ObjectDisposedException`. |
| `TfsWrappers.TfsWrapper.GetService` | TfsUtil/TfsWrapper.cs:84-88 | Returns the requested service of the collection exactly while not disposed. Afterwards it throws `ObjectDisposedException`. |
| `TfsWrappers.TfsWrapper.Dispose` | TfsUtil/TfsWrapper.cs:152-162 | Disposes the collection once and sets `IsDisposed`. A second call changes nothing. Afterwards every guarded accessor throws. |
| `TfsWrappers.TfsWrapper.GetItemsInternal` | TfsUtil/TfsWrapper.cs:177-197 | A blank folder, or a failed listing, gives null. Otherwise the result is the listing of the folder, with `$` read as `$/`. |
| `TfsWrappers.TfsWrapper.GetSuggestions` | TfsUtil/TfsWrapper.cs:90-146 | A disposed wrapper suggests nothing, because its listing call throws and the exception is swallowed. |
| `TfsWrappers.Suggest` | TfsUtil/TfsWrapper.cs:101-104 | A path not rooted at `$` gives no suggestions. |
| `TfsWrappers.LiveSuggestions` | TfsUtil/TfsWrapper.cs:90-146 | A live wrapper suggests exactly what the suggestion pipeline computes from the server's listings. |
| `TfsWrappers.GetSuggestionsSpec` | TfsUtil/TfsWrapper.cs:121-145 | A folder that cannot be listed gives nothing. Otherwise the result is empty exactly when there are no candidates or the only one equals the typed path ignoring case. A non-empty result is a permutation of the candidates, sorted ignoring case and then ordinally. |
| `TfsWrappers.SuggestionsFromListing` | TfsUtil/TfsWrapper.cs:121-133 | Every suggestion is an entry of the folder's listing. Unless the path ends with a separator, each suggestion starts with the typed path ignoring case. |
| `Helper.EnsureNotNull` | TfsUtil/Helper.cs:41-54 | Returns its argument unchanged; null throws `ArgumentNullException("value")`. |
| `Helper.Collection.constructor` | TfsUtil/Helper.cs:239-243 | A new collection is empty. |
| `Helper.Collection.Clear` | TfsUtil/Helper.cs:258 | `Clear()` leaves the collection empty. |
| `Helper.Collection.Add` | TfsUtil/Helper.cs:265 | `Add(item)` appends the item. |
| `Helper.Collection.Count` | TfsUtil/Helper.cs:239-243 | `Count` is the number of items. |
| `Helper.ReplaceContents` | TfsUtil/Helper.cs:239-274 | A null collection or null contents throw `ArgumentNullException` before anything changes. Otherwise the same collection is returned, holding exactly the new contents in order. |
| `Helper.AsCollection` | TfsUtil/Helper.cs:276-279 | The result is a one-element sequence holding the instance. |
| `Helper.ServerItemExistsSafe` | TfsUtil/Helper.cs:282-309 | A null server throws. Otherwise the result is true exactly when the path is not blank and the server answers true without throwing. |
| `Helper.Element.constructor` | TfsUtil/Helper.cs:427-436 | An element records whether it is a window, and its parent. |
| `Helper.FirstWindow` | TfsUtil/Helper.cs:427-439 | The result is the first window on the parent chain, before which no element is a window. It is null exactly when the chain has no window. |
| `Helper.GetWindow` | TfsUtil/Helper.cs:416-440 | A null control throws. Otherwise the loop walks the parent chain from the control itself and returns its first window, or null. |
| `Helper.IsThreadAbort` | TfsUtil/Helper.cs:192-195 | True exactly for thread-abort and thread-interrupted exceptions. |
| `ControlItems.ControlItem.constructor` | TfsUtil/ControlItem.cs:16-20 | Stores the item. A null text becomes empty. |
| `ControlItems.ControlItem.FromItem` | TfsUtil/ControlItem.cs:26-30 | The text is the item's `ToString()`, or empty for a null item or a null string. |
| `ControlItems.ControlItem.Equals` | TfsUtil/ControlItem.cs:71-84 | False for null. True for the same item object. Otherwise true exactly when the items are equal. |
| `ControlItems.ControlItem.EqualsObject` | TfsUtil/ControlItem.cs:52-55 | An object that is not a `ControlItem` of the same type is never equal; a `ControlItem` is compared by its item. |
| `ControlItems.ControlItem.GetHashCode` | TfsUtil/ControlItem.cs:57-60 | The hash is 0 for a null item, and otherwise the item's hash. |
| `ControlItems.ControlItem.ToString` | TfsUtil/ControlItem.cs:62-65 | `ToString()` is the text. |
| `ControlItems.EqualsConsistentWithHash` | TfsUtil/ControlItem.cs:57-84 | Equal control items have equal hash codes. |
| `ControlItems.EqualsEquivalence` | TfsUtil/ControlItem.cs:71-84 | `Equals` is reflexive, symmetric and transitive. |
| `MergeCandidateWrappers.WorkItemIds` | TfsUtil/Wrappers/MergeCandidateWrapper.cs:43-46 | Projects the work item wrappers to their ids, in order. |
| `MergeCandidateWrappers.NewMergeCandidateWrapper` | TfsUtil/Wrappers/MergeCandidateWrapper.cs:19-47 | A null candidate throws `ArgumentNullException`, and a candidate without a changeset throws `ArgumentException`. Construction succeeds exactly otherwise. |
| `MergeCandidateWrappers.WrapperFields` | TfsUtil/Wrappers/MergeCandidateWrapper.cs:35-43 | `AsString`, `ChangesetId` and `CreationDate` are copied. `Owner` and `Comment` have null replaced by empty. There is one work item wrapper per work item, in the changeset's order. |
| `MergeCandidateWrappers.WorkItemIdsAsStringSpec` | TfsUtil/Wrappers/MergeCandidateWrapper.cs:44-46 | `WorkItemIdsAsString` is empty exactly when there are no work items. It parses back to the work item ids, each as often as it occurs, in ascending order. |
| `MergeCandidateWrappers.WrapAll` | TfsUtil/Wrappers/MergeCandidateWrapper.cs:23-31 | Wrapping a candidate list succeeds exactly when every candidate has a changeset, and then wraps each one in place. Otherwise it throws the constructor's `ArgumentException`. |
| `MergeCandidateWrappers.ToString` | TfsUtil/Wrappers/MergeCandidateWrapper.cs:99-102 | `ToString()` is `MergeCandidateWrapper. {`, then `AsString`, then `}`. |
| `MergeSearchControlViewModels.CreateBranchItem` | TfsUtil/Controls/MergeSearchControlViewModel.cs:312 | `ControlItem.Create(new ItemIdentifier(path), path)` holds the identifier, with a null text shown as empty. |
| `MergeSearchControlViewModels.FirstPosition` | TfsUtil/Controls/MergeSearchControlViewModel.cs:323-324 | `MoveCurrentToFirst()` selects the first item, or none (-1) in an empty list. |
| `MergeSearchControlViewModels.FirstItem` | TfsUtil/Controls/MergeSearchControlViewModel.cs:217-218 | `MoveCurrentToFirst()` makes the first item current, and none in an empty list. |
| `MergeSearchControlViewModels.PathLeTotalOrder` | TfsUtil/Controls/MergeSearchControlViewModel.cs:311 | The default string order, with null first, is a total order. |
| `MergeSearchControlViewModels.PathLe` | TfsUtil/Controls/MergeSearchControlViewModel.cs:311 | `Comparer<string>.Default` on branch paths, null first; proved a total order in `PathLeTotalOrder`. |
| `MergeSearchControlViewModels.Flatten` | TfsUtil/Controls/MergeSearchControlViewModel.cs:303-308 | The flattened identifiers are exactly the child branches, related branches and root items of the branch objects. |
| `MergeSearchControlViewModels.Paths` | TfsUtil/Controls/MergeSearchControlViewModel.cs:309 | `Select(item => item.Item)` takes each identifier's path, in order. |
| `MergeSearchControlViewModels.GetSourceBranchesSpec` | TfsUtil/Controls/MergeSearchControlViewModel.cs:295-316 | Every branch path of every branch object is listed exactly once, and no other path is listed. Paths are strictly increasing, and each item shows its own path. |
| `MergeSearchControlViewModels.GetSourceBranches` | TfsUtil/Controls/MergeSearchControlViewModel.cs:295-316 | The source branch list built from the root branch objects; its properties are proved in `GetSourceBranchesSpec`. |
| `MergeSearchControlViewModels.SortedDistinctPaths` | TfsUtil/Controls/MergeSearchControlViewModel.cs:310-311 | `Distinct().OrderBy(...)` keeps every path and no other, strictly increasing. |
| `MergeSearchControlViewModels.Unselected` | TfsUtil/Controls/MergeSearchControlViewModel.cs:338 | Freshly wrapped candidates are unselected, one per wrapper, in order. |
| `MergeSearchControlViewModels.GetMergeCandidatesSpec` | TfsUtil/Controls/MergeSearchControlViewModel.cs:331-362 | The query throws exactly when a server candidate has no changeset. With a null or empty user name it keeps every wrapped candidate; otherwise exactly those whose owner matches ignoring case. It keeps each as often as it occurs, unselected, and orders them by date, then changeset id. |
| `MergeSearchControlViewModels.GetMergeCandidates` | TfsUtil/Controls/MergeSearchControlViewModel.cs:331-362 | The candidate query over the server's answer, failing when a candidate has no changeset; its properties are proved in `GetMergeCandidatesSpec`. |
| `MergeSearchControlViewModels.SourceBranchesTask` | TfsUtil/Controls/MergeSearchControlViewModel.cs:295-301 | The source-branch task: faulted by a connection or branch-query failure, else the branch list. |
| `MergeSearchControlViewModels.SourceBranchesTaskSpec` | TfsUtil/Controls/MergeSearchControlViewModel.cs:295-316 | The source-branch task completes exactly when the server connects and answers, and then yields the branch list of its branch objects. A connection failure faults it with that exception. |
| `MergeSearchControlViewModels.MergeCandidatesTask` | TfsUtil/Controls/MergeSearchControlViewModel.cs:331-362 | The candidate task: faulted by a connection or query failure, or by a candidate without changeset, else the query's result. |
| `MergeSearchControlViewModels.MergeCandidatesTaskSpec` | TfsUtil/Controls/MergeSearchControlViewModel.cs:331-362 | The candidate task completes exactly when the server connects and answers with candidates that all have changesets, and then yields `GetMergeCandidates`. A candidate without a changeset faults it with `ArgumentException`. |
| `MergeSearchControlViewModels.SelectedCandidates` | TfsUtil/Controls/MergeSearchControlViewModel.cs:341-360 | The candidate query over unselected candidates keeps exactly the owner-matching ones, unselected, in date and id order. |
| `MergeSearchControlViewModels.MergeSearchControlViewModel.constructor` | TfsUtil/Controls/MergeSearchControlViewModel.cs:28-43 | A new view model is idle, with an empty source branch, three empty lists and no current item in any view. |
| `MergeSearchControlViewModels.MergeSearchControlViewModel.SetSourceBranch` | TfsUtil/Controls/MergeSearchControlViewModel.cs:93-103 | Null is stored as empty. Only a change of value is stored and announced. |
| `MergeSearchControlViewModels.MergeSearchControlViewModel.SetIsBusy` | TfsUtil/Controls/MergeSearchControlViewModel.cs:152-170 | Returns the previous flag and leaves the flag equal to the argument. It notifies `IsBusy` only when the value changes. |
| `MergeSearchControlViewModels.MergeSearchControlViewModel.TargetBranch` | TfsUtil/Controls/MergeSearchControlViewModel.cs:106-118 | Empty exactly when the target view has no current item, it has no value, or its path is null or blank. Otherwise it is that path. |
| `MergeSearchControlViewModels.MergeSearchControlViewModel.RefreshTargetBranches` | TfsUtil/Controls/MergeSearchControlViewModel.cs:192-219 | The list is cleared first. When the source branch's targets can be computed, the list becomes them and the view moves to the first. When connecting or querying the relationships throws, that exception escapes, the list stays empty and the view does not move. |
| `MergeSearchControlViewModels.MergeSearchControlViewModel.OnRefreshSourceBranchesFinished` | TfsUtil/Controls/MergeSearchControlViewModel.cs:318-329 | A null result becomes an empty list. The source list is replaced and its view moved to the first item. Busy is cleared, with one notification if it was set. The target branches are then refreshed, with the outcomes of `RefreshTargetBranches`. The source branch and the candidates with their view stay. |
| `MergeSearchControlViewModels.MergeSearchControlViewModel.OnSearchMergeCandidatesFinished` | TfsUtil/Controls/MergeSearchControlViewModel.cs:364-373 | A null result becomes an empty list. The candidates are replaced and their view moved to the first one. Busy is cleared, with one notification if it was set. The source branch and both branch views stay. |
| `MergeSearchControlViewModels.MergeSearchControlViewModel.RefreshSourceBranches` | TfsUtil/Controls/MergeSearchControlViewModel.cs:177-190 | Busy is raised. When the branch task faults, no continuation runs: busy stays, only the raise is notified, and both lists and views stay. When it completes, the source list is its result and moves to the first item, busy is cleared (two notifications, or one if it was already set), and the targets are refreshed, or their exception escapes with the target list cleared and its current item kept. The source branch and the candidates stay either way. |
| `MergeSearchControlViewModels.MergeSearchControlViewModel.SearchMergeCandidates` | TfsUtil/Controls/MergeSearchControlViewModel.cs:221-256 | Busy is raised. When the candidate task completes, the list becomes its result, the view moves to the first candidate and busy is cleared (two notifications, or one if it was already set). When it faults, the list and its view stay and busy stays, with only the raise notified. The source branch and both branch views stay either way. |
| `MergeSearchControlViewModels.MergeSearchControlViewModel.GetSelectedMergeCandidates` | TfsUtil/Controls/MergeSearchControlViewModel.cs:258-261 | Returns every selected candidate, as often as it is listed, in list order, and nothing else. |
| `MergeSearchControlViewModels.MergeSearchControlViewModel.GetSoleSelectedMergeCandidate` | TfsUtil/Controls/MergeSearchControlViewModel.cs:263-267 | Returns the selected candidate when exactly one is selected, and null when none or several are. |
| `MergeSearchControlViewModels.BranchItems` | TfsUtil/Controls/MergeSearchControlViewModel.cs:211-213 | One branch item per merge relationship, in order, each showing its path. |
| `MergeSearchControlViewModels.TargetBranchItemsSpec` | TfsUtil/Controls/MergeSearchControlViewModel.cs:192-213 | A blank source branch has no targets and needs no server. Otherwise a failure to connect escapes. A source branch the server cannot confirm has no targets. A failing relationship query escapes. An answer gives one item per relationship, in the server's order, each showing its path. |
| `MergeSearchControlViewModels.TargetBranchItems` | TfsUtil/Controls/MergeSearchControlViewModel.cs:192-213 | The target list `RefreshTargetBranches` builds, or the exception it lets escape; its cases are proved in `TargetBranchItemsSpec`. |
| `MergeSearchControlViewModels.SoleSelection` | TfsUtil/Controls/MergeSearchControlViewModel.cs:263-267 | Exactly one candidate is selected exactly when the selection has one element, and the selection then holds that candidate. |
| `MergeSearchControls.MergeSearchWindowModel.constructor` | TfsUtil/Controls/MergeSearchControl.xaml.cs:475-485 | The nested model starts with an empty source branch and no notifications. |
| `MergeSearchControls.MergeSearchWindowModel.SetSourceBranch` | TfsUtil/Controls/MergeSearchControl.xaml.cs:515-532 | Null is stored as empty. Only a change of value is stored and announced. |
| `MergeSearchControls.WrapInverse` | TfsUtil/Controls/MergeSearchControl.xaml.cs:384-411 | On a non-empty list, Up and Down keep the index in [-1, Count-1] and undo each other. |
| `MergeSearchControls.WrapUp` | TfsUtil/Controls/MergeSearchControl.xaml.cs:386-394 | Up: one item back; from no selection to the last item. Its effect is described by `WrapInverse` and `UpCycle`. |
| `MergeSearchControls.WrapDown` | TfsUtil/Controls/MergeSearchControl.xaml.cs:395-403 | Down: one item on; past the last item to no selection. Its effect is described by `WrapInverse` and `DownCycle`. |
| `MergeSearchControls.DownCycle` | TfsUtil/Controls/MergeSearchControl.xaml.cs:395-403 | From no selection, Down visits the items first to last, and one more press returns to no selection. |
| `MergeSearchControls.UpCycle` | TfsUtil/Controls/MergeSearchControl.xaml.cs:386-394 | From no selection, Up visits the items last to first, and one more press returns to no selection. |
| `MergeSearchControls.DirectionFormat` | TfsUtil/Controls/MergeSearchControl.xaml.cs:203-212 | The direction text starts `'src' ⇒ 'tgt'` and continues with ` by 'user'` exactly when the trimmed user name is not empty. |
| `MergeSearchControls.Direction` | TfsUtil/Controls/MergeSearchControl.xaml.cs:203-212 | The merge direction text; its shape is proved in `DirectionFormat`. |
| `MergeSearchControls.ErrorText` | TfsUtil/Controls/MergeSearchControl.xaml.cs:237-243 | `Error occurred: [<type>] <message>`, the text shown for a server failure. |
| `MergeSearchControls.TargetPath` | TfsUtil/Controls/MergeSearchControl.xaml.cs:193-202 | No target path exactly when the selected target item, its identifier or its path is null, or the path is empty. Otherwise the path is non-empty. |
| `MergeSearchControls.SearchExplainsEmptyList` | TfsUtil/Controls/MergeSearchControl.xaml.cs:179-272 | The candidate list is empty exactly when a message is shown or an exception escapes, and never both happen. |
| `MergeSearchControls.Search` | TfsUtil/Controls/MergeSearchControl.xaml.cs:179-272 | What a search leaves on screen; its properties are proved in `SearchExplainsEmptyList`, `SearchValidatesFirst` and `SearchListsOnlyAnswers`. |
| `MergeSearchControls.Answer` | TfsUtil/Controls/MergeSearchControl.xaml.cs:231-271 | The screen after the progress window closes: cancelled, failed, or the found candidates. |
| `MergeSearchControls.SearchValidatesFirst` | TfsUtil/Controls/MergeSearchControl.xaml.cs:186-200 | A blank source or an unset target stops the search with its message, whatever the server would answer. No direction is shown and nothing is listed. |
| `MergeSearchControls.SearchListsOnlyAnswers` | TfsUtil/Controls/MergeSearchControl.xaml.cs:186-265 | Candidates are listed only after both branches are validated, the window is found, and the server has answered with candidates that all wrapped. |
| `MergeSearchControls.FoundListsMatchingCandidates` | TfsUtil/Controls/MergeSearchControl.xaml.cs:247-271 | The listed candidates are the wrapped ones whose owner matches ignoring case (all of them for an empty name), each as often as reported, by date then id. "Nothing is found" is shown exactly when none match. |
| `MergeSearchControls.Found` | TfsUtil/Controls/MergeSearchControl.xaml.cs:247-271 | The owner-filtered, sorted candidates, or "Nothing is found"; proved in `FoundListsMatchingCandidates`. |
| `MergeSearchControls.MergeSearchControl.constructor` | TfsUtil/Controls/MergeSearchControl.xaml.cs:56-62 | A new control has a fresh nested model, an empty popup and an empty candidate list. |
| `MergeSearchControls.MergeSearchControl.New` | TfsUtil/Controls/MergeSearchControl.xaml.cs:38-51 | A null server address throws `ArgumentNullException`. Otherwise the model gets the address. |
| `MergeSearchControls.MergeSearchControl.SelectedPopupItem` | TfsUtil/Controls/MergeSearchControl.xaml.cs:377 | The popup's selected item exists exactly when the index is within the list. |
| `MergeSearchControls.MergeSearchControl.UpdateSourceBranchPopupState` | TfsUtil/Controls/MergeSearchControl.xaml.cs:114-124 | The popup is open exactly when the window is active, focus is in the combo box, the drop-down is closed and the list has items. |
| `MergeSearchControls.MergeSearchControl.UpdateSourceBranchPopupList` | TfsUtil/Controls/MergeSearchControl.xaml.cs:131-158 | The popup list is cleared and, for a non-blank source branch, holds one item per suggestion, tagged with it. |
| `MergeSearchControls.MergeSearchControl.FillPopup` | TfsUtil/Controls/MergeSearchControl.xaml.cs:147-157 | The loop adds one item per suggestion, in order. |
| `MergeSearchControls.MergeSearchControl.SelectPopupItem` | TfsUtil/Controls/MergeSearchControl.xaml.cs:160-177 | Returns false, leaving the text unchanged, for a null item or blank tag. Otherwise it sets the combo text to the tag and returns true. |
| `MergeSearchControls.MergeSearchControl.KeyDown` | TfsUtil/Controls/MergeSearchControl.xaml.cs:362-414 | Escape closes the popup and is handled. While the popup is open, Enter selects. Up/Down on a non-empty list move the index by `WrapUp`/`WrapDown`, so `WrapInverse`, `DownCycle` and `UpCycle` describe the keys. The index stays in [-1, Count-1], and nothing else changes. |
| `MergeSearchControls.MergeSearchControl.SearchMergeCandidates` | TfsUtil/Controls/MergeSearchControl.xaml.cs:179-272 | Clears the screen, then leaves the direction, message and listed candidates that the search specification prescribes. An escaping exception is the failure result. |
| `MergeSearchControls.MergeSearchControl.ShowAnswer` | TfsUtil/Controls/MergeSearchControl.xaml.cs:231-271 | After the progress window closes, cancellation, server failure or the filtered and sorted candidates are shown as prescribed. |
| `MergeSearchControls.MergeSearchControl.FillCandidates` | TfsUtil/Controls/MergeSearchControl.xaml.cs:267-271 | The loop adds one list item per candidate, in order, showing its `ToString()`. |
| `MergeSearchControls.MergeSearchControl.GetSoleSelectedMergeCandidate` | TfsUtil/Controls/MergeSearchControl.xaml.cs:274-282 | Returns the candidate of the only selected row, and null unless exactly one row is selected. |
| `MergeSearchControls.MergeSearchControl.ContextMenuOpening` | TfsUtil/Controls/MergeSearchControl.xaml.cs:421-439 | Without a context menu the event is handled and nothing changes. Otherwise the copy items are enabled for a sole selection, work item ids only when that candidate has some. |
| `MergeSearchWindows.MergeSearchWindowModel.constructor` | TfsUtil/MergeSearchWindow.xaml.cs:39-41 | The nested model starts with an empty source branch and no notifications. |
| `MergeSearchWindows.MergeSearchWindowModel.SetSourceBranch` | TfsUtil/MergeSearchWindow.xaml.cs:114-130 | Null is stored as empty. Only a change of value is stored and announced. |
| `MergeSearchWindows.DownSaturates` | TfsUtil/MergeSearchWindow.xaml.cs:537-548 | Down presses walk towards the last item and stay there, without wrapping. |
| `MergeSearchWindows.UpSaturates` | TfsUtil/MergeSearchWindow.xaml.cs:532-548 | Up presses walk towards the first item and stay there. They never reach "no selection", and from it they do not move. |
| `MergeSearchWindows.ClampUp` | TfsUtil/MergeSearchWindow.xaml.cs:532-548 | Up: one item back, unless that leaves the list. Its effect is described by `UpSaturates`. |
| `MergeSearchWindows.ClampDown` | TfsUtil/MergeSearchWindow.xaml.cs:537-548 | Down: one item on, unless that leaves the list. Its effect is described by `DownSaturates`. |
| `MergeSearchWindows.FoundThrows` | TfsUtil/MergeSearchWindow.xaml.cs:412-420 | The query throws `NullReferenceException` exactly when a candidate has no changeset. It then shows and lists nothing. |
| `MergeSearchWindows.FoundLists` | TfsUtil/MergeSearchWindow.xaml.cs:412-436 | With every changeset present, the listed candidates are those whose changeset owner matches ignoring case (all for an empty name), by date then id. "Nothing is found" is shown exactly when none match. |
| `MergeSearchWindows.Answer` | TfsUtil/MergeSearchWindow.xaml.cs:397-426 | The window after the worker ends: the cancelled message, the `Error occurred: [<type>] <message>` text, or what `Found` shows for the server's candidates. |
| `MergeSearchWindows.Found` | TfsUtil/MergeSearchWindow.xaml.cs:412-436 | The window's query over the raw candidates; proved in `FoundThrows` and `FoundLists`. |
| `MergeSearchWindows.Selected` | TfsUtil/MergeSearchWindow.xaml.cs:415-430 | The query over candidates with changesets keeps the owner-matching ones, each as often as it occurs, in date and id order. |
| `MergeSearchWindows.SearchExplainsEmptyList` | TfsUtil/MergeSearchWindow.xaml.cs:358-437 | The list is empty exactly when a message is shown or an exception escapes, and never both happen. |
| `MergeSearchWindows.Search` | TfsUtil/MergeSearchWindow.xaml.cs:358-437 | What a search leaves in the window; its properties are proved in `SearchExplainsEmptyList` and `SearchValidatesFirst`. |
| `MergeSearchWindows.SearchValidatesFirst` | TfsUtil/MergeSearchWindow.xaml.cs:364-378 | A blank source or an unset target stops the search with its message, whatever the server would answer. |
| `MergeSearchWindows.MergeSearchWindow.constructor` | TfsUtil/MergeSearchWindow.xaml.cs:222-228 | A new window has a fresh nested model, an empty popup and an empty candidate list. |
| `MergeSearchWindows.MergeSearchWindow.New` | TfsUtil/MergeSearchWindow.xaml.cs:233-246 | A null server address throws `ArgumentNullException`. Otherwise the model gets the address. |
| `MergeSearchWindows.MergeSearchWindow.SelectedPopupItem` | TfsUtil/MergeSearchWindow.xaml.cs:527 | The popup's selected item exists exactly when the index is within the list. |
| `MergeSearchWindows.MergeSearchWindow.UpdateSourceBranchPopupState` | TfsUtil/MergeSearchWindow.xaml.cs:296-303 | The popup is open exactly when focus is in the combo box, the drop-down is closed and the list has items. |
| `MergeSearchWindows.MergeSearchWindow.UpdateSourceBranchPopupList` | TfsUtil/MergeSearchWindow.xaml.cs:310-337 | The popup list is cleared and, for a non-blank source branch, holds one item per suggestion, tagged with it. |
| `MergeSearchWindows.MergeSearchWindow.FillPopup` | TfsUtil/MergeSearchWindow.xaml.cs:326-336 | The loop adds one item per suggestion, in order. |
| `MergeSearchWindows.MergeSearchWindow.SelectPopupItem` | TfsUtil/MergeSearchWindow.xaml.cs:339-356 | Returns false, leaving the text unchanged, for a null item or blank tag. Otherwise it sets the combo text to the tag and returns true. |
| `MergeSearchWindows.MergeSearchWindow.KeyDown` | TfsUtil/MergeSearchWindow.xaml.cs:512-550 | Escape closes the popup and is handled. While the popup is open, Enter selects. Up/Down move the index by `ClampUp`/`ClampDown`, so `DownSaturates` and `UpSaturates` describe the keys. At the ends the index stays. |
| `MergeSearchWindows.MergeSearchWindow.SearchMergeCandidates` | TfsUtil/MergeSearchWindow.xaml.cs:358-437 | Clears the list, then leaves the message and listed candidates that the search specification prescribes. An escaping exception is the failure result. |
| `MergeSearchWindows.MergeSearchWindow.ShowAnswer` | TfsUtil/MergeSearchWindow.xaml.cs:397-436 | After the progress window closes, cancellation, server failure, the null-changeset exception or the filtered and sorted candidates are shown as prescribed. |
| `MergeSearchWindows.MergeSearchWindow.FillCandidates` | TfsUtil/MergeSearchWindow.xaml.cs:432-436 | The loop adds one list item per candidate, in order, showing its `ToString()`. |
| `MainWindows.ServerOrderAsWrittenThrows` | TfsUtil/MainWindow.xaml.cs:67-71 | Two collections named `DefaultCollection` on two servers make the menu sort, as written, throw. |
| `MainWindows.ServerOrderAsWritten` | TfsUtil/MainWindow.xaml.cs:67-71 | The menu sort as written: it throws `ArgumentException` when two names are equal ignoring case, because `Uri` is not comparable. Otherwise it sorts by name ignoring case. |
| `MainWindows.NameOrderMeaning` | TfsUtil/MainWindow.xaml.cs:69 | `OrderBy(item => item.Name, OrdinalIgnoreCase)` compares case-folded names. |
| `MainWindows.ServerOrderMeaning` | TfsUtil/MainWindow.xaml.cs:69-70 | A collection precedes another by folded name, and on equal folded names by address. |
| `MainWindows.ServerOrderTotal` | TfsUtil/MainWindow.xaml.cs:69-70 | The intended server order is a total preorder. |
| `MainWindows.ServerOrder` | TfsUtil/MainWindow.xaml.cs:67-71 | The intended order: name ignoring case, then address; its meaning is proved in `ServerOrderMeaning` and `ServerOrderTotal`. |
| `MainWindows.ServerOrderSpec` | TfsUtil/MainWindow.xaml.cs:67-71 | The intended sort keeps every collection as often as it occurs. It orders them by name ignoring case, then by address. |
| `MainWindows.ServerOrdersAgree` | TfsUtil/MainWindow.xaml.cs:67-71 | Where the code as written does not throw, it gives the intended order. |
| `MainWindows.SortByAgrees` | TfsUtil/MainWindow.xaml.cs:69-70 | Without two names equal ignoring case, the tie-break never changes the sort. |
| `MainWindows.InsertAgrees` | TfsUtil/MainWindow.xaml.cs:69-70 | Inserting a collection whose folded name no other shares does not depend on the tie-break. |
| `MainWindows.MenuItem.constructor` | TfsUtil/MainWindow.xaml.cs:76-82 | A new menu item has the given header, tool tip, enabled flag and tag, and is unchecked. |
| `MainWindows.TabItem.constructor` | TfsUtil/MainWindow.xaml.cs:148-162 | A new tab has the given header text, server address and content. |
| `MainWindows.CheckedItems` | TfsUtil/MainWindow.xaml.cs:112-116 | `Items.OfType<MenuItem>().Where(item => item.IsChecked)` lists checked items of the menu, and every checked item. |
| `MainWindows.NoneChecked` | TfsUtil/MainWindow.xaml.cs:112-116 | With no item checked, nothing is listed as checked. |
| `MainWindows.OnlyOneChecked` | TfsUtil/MainWindow.xaml.cs:112-131 | When only one item may be checked, at most one distinct item is. |
| `MainWindows.RemoveFirst` | TfsUtil/MainWindow.xaml.cs:175 | `Items.Remove(tab)` removes one occurrence of a present tab and changes nothing otherwise. |
| `MainWindows.IndexOf` | TfsUtil/MainWindow.xaml.cs:175 | The position of the first occurrence of a tab. |
| `MainWindows.StaysAfterRemoval` | TfsUtil/MainWindow.xaml.cs:175 | A tab other than the one removed stays. |
| `MainWindows.MainWindow.constructor` | TfsUtil/MainWindow.xaml.cs:61-102 | The window starts with the server menu refreshed and no tabs. |
| `MainWindows.MainWindow.RefreshTfsServers` | TfsUtil/MainWindow.xaml.cs:61-102 | The menu lists the collections in the intended order, one enabled item each, with the first checked and selected. An empty menu gets one disabled placeholder and nothing is selected. At most one item is ever checked. |
| `MainWindows.MainWindow.SelectFirstServer` | TfsUtil/MainWindow.xaml.cs:91-101 | Selects the first item, or adds the placeholder when the menu is empty. |
| `MainWindows.MainWindow.FillServerMenu` | TfsUtil/MainWindow.xaml.cs:73-89 | The loop adds one fresh, unchecked item per collection, in order, and returns the first. |
| `MainWindows.MainWindow.SelectServer` | TfsUtil/MainWindow.xaml.cs:104-132 | Null clears the selection. Two checked items make `SingleOrDefault` throw with nothing changed. Otherwise only the given item is checked, when it carries server info, and its server is selected; without info the selection is cleared, and an item outside the menu keeps its check mark. |
| `MainWindows.MainWindow.AddContentTab` | TfsUtil/MainWindow.xaml.cs:139-166 | Without a server it throws `InvalidOperationException`; a null content throws `ArgumentNullException`. Otherwise it appends a tab headed `<header> @ <server name>` and selects it. |
| `MainWindows.MainWindow.RemoveContentTab` | TfsUtil/MainWindow.xaml.cs:168-176 | Null does nothing. Otherwise the first occurrence of the tab is removed; the selection moves only if it was that tab. |
| `MainWindows.MainWindow.CloseActiveContent` | TfsUtil/MainWindow.xaml.cs:217-221 | Removes the tab passed with the command, or else the selected tab. |
| `MainWindows.MainWindow.CanExecuteMergeSearch` | TfsUtil/MainWindow.xaml.cs:202-205 | The merge search command is enabled exactly when a server is selected. |
| `MainWindows.MainWindow.CanCloseActiveContent` | TfsUtil/MainWindow.xaml.cs:212-215 | Closing is enabled exactly when a tab is selected (`HasAnyContentTab`). |
| `BooleanToVisibilityConverters.BooleanToVisibilityConverter.constructor` | TfsUtil/Converters/BooleanToVisibilityConverter.cs:18-22 | By default `true` is `Visible` and `false` is `Hidden`. |
| `BooleanToVisibilityConverters.BooleanToVisibilityConverter.SetTrueVisibility` | TfsUtil/Converters/BooleanToVisibilityConverter.cs:28-32 | Sets `TrueVisibility` only. |
| `BooleanToVisibilityConverters.BooleanToVisibilityConverter.SetFalseVisibility` | TfsUtil/Converters/BooleanToVisibilityConverter.cs:34-38 | Sets `FalseVisibility` only. |
| `BooleanToVisibilityConverters.BooleanToVisibilityConverter.Convert` | TfsUtil/Converters/BooleanToVisibilityConverter.cs:44-57 | Converts exactly the booleans: `true` to `TrueVisibility`, `false` to `FalseVisibility`. Anything else, null included, throws `ArgumentException` for `value`. |
| `BooleanToVisibilityConverters.BooleanToVisibilityConverter.ConvertBack` | TfsUtil/Converters/BooleanToVisibilityConverter.cs:59-62 | Always throws `NotSupportedException`. |
| `BooleanToVisibilityConverters.BooleanToVisibilityConverter.ConvertOneToOne` | TfsUtil/Converters/BooleanToVisibilityConverter.cs:44-57 | With two different visibilities configured, any two bound values that convert to the same visibility are the same boolean. |

## Left out

- Threads and scheduling: the progress window's worker thread, `Task` scheduling and `TaskScheduler.FromCurrentSynchronizationContext`, and the `_isBusy` lock. Continuations run one after another, so interleavings are not modelled.
- Server calls are parameters. The view model's server (`MergeSearchControlViewModels.Server`) answers each call or throws: connecting, `QueryRootBranchObjects`, `QueryMergeRelationships` and `GetMergeCandidates`. A throwing `ServerItemExists` is swallowed by `ServerItemExistsSafe`. A folder listing in `TfsWrapper` is null when the call fails. The control and the window receive the progress window's outcome, which includes a server failure.
- `MainWindows.MainWindow.RefreshTfsServers`: the registered collections come from the local registry (`RegisteredTfsConnections.GetProjectCollections()`) and are a given list; a failure to read the registry is not modelled.
- `MergeSearchControlViewModels.MergeSearchControlViewModel.OnRefreshSourceBranchesFinished`: the source view's `CurrentChanged` handler (`SourceBranchesView_CurrentChanged`) also refreshes the target branches when `MoveCurrentToFirst` changes the current item. On a given server that refresh computes the same list as the explicit one after it, so the model runs the refresh once. It does not capture that, when the refresh throws inside that handler, the exception escapes before the busy flag is cleared.
- `MergeSearchControlViewModels.MergeSearchControlViewModel.RefreshSourceBranches`: an exception that faults a task is unobserved and is not modelled beyond "no continuation runs". Exceptions from disposing the connection (`using`) are not modelled.
- `Path.GetDirectoryName`/`Path.GetFileName` become a split at the last `\` or `/`. Separator normalisation and invalid-path exceptions are not modelled.
- `StringComparison.OrdinalIgnoreCase` is modelled as ASCII case folding. Non-ASCII case pairs are not covered.
- The default culture-sensitive string order used for branch paths (`OrderBy(item => item)`) is modelled as the ordinal order.
- `Sorting.SortBy`: LINQ's `OrderBy` is stable, so elements the order finds equal keep their input order. The model proves that the result is a sorted permutation, but it does not prove stability.
- `Text.LexLe` compares strings character by character as Unicode scalar values. .NET's ordinal comparison compares UTF-16 code units, so the two orders differ between a supplementary-plane character and one in U+E000 to U+FFFF.
- `DateTime` is its tick count, and `Uri` is its absolute-URI string. `Lazy<T>` is evaluated on first use, which is unobservable here.
- WPF rendering and layout are not modelled: the VisualBrush background text, `SizeChanged` handlers, `MoveCaretToEnd`, `ScrollIntoView` and the popup width.
- The clipboard, `WindowsIdentity` (`FillCurrentUserName`, `ClearUserName`), the copy-to-clipboard click handlers, `IsModal`, `ShowMessageBox` and `HandleException` are left out. A shown message is recorded as a value.
- The nested models' `RefreshTargetBranches` inside the control and the window behaves as the view model's `RefreshTargetBranches`, and their source branch list is built by the same pipeline as `GetSourceBranches`. Both are modelled in the view model only.
- The nested models' `RefreshSourceBranches` is not modelled, and it differs from the view model's in three ways. It runs synchronously on the UI thread, from `Initialize()` in the `Loaded` handlers. It never sets a busy flag. An exception from connecting or from `QueryRootBranchObjects` escapes into the `Loaded` handler, where the view model's copy would fault a task and skip its continuation.
- `Window_Loaded` title formatting is left out, and the window title is an input.
- `MainWindows.MainWindow.RemoveContentTab`: the tab the WPF `TabControl` selects after removing the selected tab (the one now at the removed index, else the last) is an assumption about the framework, not code of the program.
- `Helper.ReplaceContents`: the `List<T>.AddRange` fast path has the same effect as the item-by-item loop and is modelled once.
- `T.Equals` and `GetHashCode` of items inside `ControlItem` are structural equality and an uninterpreted hash that agrees with it.
- `Helper.GetWindow`: the parent chain is assumed finite and acyclic and is given as a ghost list of the chain's elements.
- Reflection helpers, `App`, `DateTimeConverter`, the plain data holders and the merge-search command handlers (`DoExecuteMergeSearch`, `ExecuteMergeSearch`, which open a content tab) are not part of this model. The two `CanExecute` handlers are modelled as predicates.
- The converter's `targetType`, `parameter` and `culture` arguments are unused by the program and are left out.

## Findings

| source | as written | input that shows it | evidently intended | confidence | as-written member | corrected member |
|---|---|---|---|---|---|---|
| TfsUtil/MainWindow.xaml.cs:67-71 | The server menu is sorted with `.ThenBy(item => item.Uri)`. `Uri` does not implement `IComparable`, so the default comparer throws `ArgumentException` whenever it has to compare two URIs, that is, whenever two collections have names equal ignoring case. | Two collections named `DefaultCollection` at `http://alpha:8080/tfs/defaultcollection` and `http://beta:8080/tfs/defaultcollection`. | Break ties by the URI's string form, so the menu is sorted by name ignoring case, then by address. | medium, not executed | `MainWindows.ServerOrderAsWritten` (counterexample `MainWindows.ServerOrderAsWrittenThrows`) | `MainWindows.ServerOrder` (`MainWindows.ServerOrderSpec`, `MainWindows.ServerOrdersAgree`) |
