/** `MergeSearchControl`: the user control that searches the changesets
    still to be merged from a source branch into a target branch. It offers
    path suggestions for the source branch in a popup list driven by the
    keyboard, validates the two branches, runs the server query and lists the
    candidates it finds. WPF elements are reduced to the state the code
    reads and writes; the server's answers and the window's focus flags are
    inputs.
 */
module MergeSearchControls {
  import opened Wrappers
  import opened Text
  import Helper
  import ControlItems
  import MCW = MergeCandidateWrappers
  import CandidateSelection
  import TfsWrappers

  /** The server's `ItemIdentifier`, reduced to its `Item` path. */
  datatype ItemIdentifier = ItemIdentifier(item: Option<string>)

  /** A `ListBoxItem` of the suggestion popup; `tag` is its `Tag` when that
      is a string, and null otherwise. */
  datatype ListBoxItem = ListBoxItem(tag: Option<string>)

  /** The keys the popup reacts to. */
  datatype Key = Escape | Enter | Up | Down | OtherKey

  const SourceBranchProperty := "SourceBranch"

  const SourceNotSelected := "The source branch is not selected properly."
  const TargetNotSelected := "The target branch is not selected properly."
  const OperationCancelled := "The operation is cancelled."
  const NothingFound := "Nothing is found matching the criteria."
  const EmptyArgument := "The value can be neither empty string nor null."

  // ---------------------------------------------------------------------
  // The nested view model

  /** The nested `MergeSearchWindowModel`: the server address and the source
      branch the combo box is bound to. `notifications` lists the
      `PropertyChanged` events raised, oldest first. */
  class MergeSearchWindowModel {
    var tfsServerUri: TfsWrappers.Uri
    var sourceBranch: string
    var notifications: seq<string>

    constructor (tfsServerUri: TfsWrappers.Uri)
      ensures this.tfsServerUri == tfsServerUri
      ensures sourceBranch == "" && notifications == []
    {
      this.tfsServerUri := tfsServerUri;
      sourceBranch := "";
      notifications := [];
    }

    /** The `SourceBranch` setter: null is stored as the empty string, and
        only a change of value is stored and announced. */
    method SetSourceBranch(value: Option<string>)
      modifies this`sourceBranch, this`notifications
      ensures sourceBranch == value.GetOr("")
      ensures old(sourceBranch) == value.GetOr("") ==> notifications == old(notifications)
      ensures old(sourceBranch) != value.GetOr("") ==> notifications == old(notifications) + [SourceBranchProperty]
    {
      var actualValue := value.GetOr("");
      if sourceBranch != actualValue {
        sourceBranch := actualValue;
        notifications := notifications + [SourceBranchProperty];
      }
    }
  }

  // ---------------------------------------------------------------------
  // Keyboard selection in the suggestion popup

  /** Up: one item back; from "no item selected" (-1) round to the last item. */
  function WrapUp(index: int, count: nat): int {
    if index - 1 < -1 then count - 1 else index - 1
  }

  /** Down: one item on; past the last item round to "no item selected". */
  function WrapDown(index: int, count: nat): int {
    if index + 1 >= count then -1 else index + 1
  }

  /** On a non-empty list, Up and Down keep the index in [-1, count - 1] and
      undo each other. */
  lemma WrapInverse(index: int, count: nat)
    requires count > 0 && -1 <= index < count
    ensures -1 <= WrapUp(index, count) < count && -1 <= WrapDown(index, count) < count
    ensures WrapDown(WrapUp(index, count), count) == index
    ensures WrapUp(WrapDown(index, count), count) == index
  {
  }

  /** The index after pressing Down `k` times. */
  function DownPresses(index: int, count: nat, k: nat): int {
    if k == 0 then index else WrapDown(DownPresses(index, count, k - 1), count)
  }

  /** The index after pressing Up `k` times. */
  function UpPresses(index: int, count: nat, k: nat): int {
    if k == 0 then index else WrapUp(UpPresses(index, count, k - 1), count)
  }

  /** Starting with no item selected, Down visits the items first to last,
      and one press more returns to no item selected. */
  lemma {:induction false} DownCycle(count: nat, k: nat)
    requires count > 0 && k <= count + 1
    ensures k <= count ==> DownPresses(-1, count, k) == k - 1
    ensures k == count + 1 ==> DownPresses(-1, count, k) == -1
  {
    if k > 0 {
      DownCycle(count, k - 1);
    }
  }

  /** Starting with no item selected, Up visits the items last to first,
      and one press more returns to no item selected. */
  lemma {:induction false} UpCycle(count: nat, k: nat)
    requires count > 0 && k <= count + 1
    ensures k <= count ==> UpPresses(-1, count, k) == if k == 0 then -1 else count - k
    ensures k == count + 1 ==> UpPresses(-1, count, k) == -1
  {
    if k > 0 {
      UpCycle(count, k - 1);
    }
  }

  predicate PopupTags(items: seq<ListBoxItem>, suggestions: seq<string>) {
    |items| == |suggestions| && forall i :: 0 <= i < |items| ==> items[i].tag == Some(suggestions[i])
  }

  /** The candidate list shows `candidates` in order, each by its `ToString()`. */
  predicate Shows(items: seq<ControlItems.ControlItem<MCW.MergeCandidateWrapper>>, candidates: seq<MCW.MergeCandidateWrapper>) {
    && |items| == |candidates|
    && forall i :: 0 <= i < |items| ==> items[i].item == Some(candidates[i]) && items[i].text == MCW.ToString(candidates[i])
  }

  /** Whether `SelectPopupItem` accepts a list box item: it exists and its
      tag is a non-blank string. */
  predicate Selectable(lbi: Option<ListBoxItem>) {
    lbi.Some? && !IsNullOrWhiteSpace(lbi.value.tag)
  }

  /** How the background worker ended, as the progress window reports it:
      the user cancelled, the server query threw, or the server answered. */
  datatype WorkerOutcome =
    | Cancelled
    | ServerFailed(typeName: string, message: string)
    | ServerAnswered(candidates: seq<MCW.MergeCandidate>)

  /** What a search leaves on screen: the merge direction text, the text
      shown behind the candidate list (null for none), the listed
      candidates, and the exception that escapes, if any. */
  datatype SearchView = SearchView(
    direction: string,
    backText: Option<string>,
    listed: seq<MCW.MergeCandidateWrapper>,
    thrown: Option<Error>)

  /** The merge direction: `'source' ⇒ 'target'`, then ` by 'user'` for a
      non-empty user name. */
  function Direction(source: string, target: string, userName: string): string {
    var head := "'" + source + "' \U{21D2} '" + target + "'";
    if userName == "" then head else head + " by '" + userName + "'"
  }

  /** The direction text starts with both branch names quoted around the
      arrow, and it goes on, with the user's name, exactly when that name is
      not empty. */
  lemma DirectionFormat(source: string, target: string, userName: string)
    ensures var r, head := Direction(source, target, userName), "'" + source + "' \U{21D2} '" + target + "'";
      && |head| <= |r| && r[..|head|] == head
      && (userName == "" <==> r == head)
      && (userName != "" ==> r[|head|..] == " by '" + userName + "'")
  {
  }

  /** `string.Format("Error occurred: [{0}] {1}", type name, message)`. */
  function ErrorText(typeName: string, message: string): string {
    "Error occurred: [" + typeName + "] " + message
  }

  /** The target branch path, or null when the selected target item, its
      identifier or its path is null, or the path is empty. */
  function TargetPath(target: ControlItems.ControlItem?<ItemIdentifier>): (r: Option<string>)
    ensures r.None? <==> target == null || target.item.None? || IsNullOrEmpty(target.item.value.item)
    ensures r.Some? ==> r.value != "" && target.item.value.item == r
  {
    if target == null || target.item.None? || IsNullOrEmpty(target.item.value.item) then None
    else target.item.value.item
  }

  function OwnerOf(w: MCW.MergeCandidateWrapper): Option<string> { Some(w.owner) }
  function CreationDateOf(w: MCW.MergeCandidateWrapper): int { w.creationDate }
  function ChangesetIdOf(w: MCW.MergeCandidateWrapper): int { w.changesetId }

  /** The whole of `SearchMergeCandidates`, as the screen state it leaves:
      `window` is the hosting window's title, `None` when the control has no
      window. */
  function Search(sourceBranch: string, target: ControlItems.ControlItem?<ItemIdentifier>,
                  userNameText: Option<string>, window: Option<string>, outcome: WorkerOutcome): SearchView
  {
    if IsNullOrWhiteSpace(Some(sourceBranch)) then SearchView("", Some(SourceNotSelected), [], None)
    else match TargetPath(target)
      case None => SearchView("", Some(TargetNotSelected), [], None)
      case Some(targetBranch) =>
        var userName := Trim(userNameText.GetOr(""));
        var direction := Direction(sourceBranch, targetBranch, userName);
        match window
        case None => SearchView(direction, None, [], Some(ArgumentNull("value")))
        case Some(title) =>
          if title == "" then SearchView(direction, None, [], Some(Argument(EmptyArgument, "title")))
          else Answer(direction, userName, outcome)
  }

  /** The screen after the worker has ended. */
  function Answer(direction: string, userName: string, outcome: WorkerOutcome): SearchView {
    match outcome
    case Cancelled => SearchView(direction, Some(OperationCancelled), [], None)
    case ServerFailed(t, m) => SearchView(direction, Some(ErrorText(t, m)), [], None)
    case ServerAnswered(candidates) =>
      match MCW.WrapAll(candidates)
      case Failure(e) => SearchView(direction, Some(ErrorText(TypeName(e), Message(e))), [], None)
      case Success(wrappers) => Found(direction, userName, wrappers)
  }

  /** The screen once the server's candidates are wrapped. */
  function Found(direction: string, userName: string, wrappers: seq<MCW.MergeCandidateWrapper>): SearchView {
    if CandidateSelection.FilterByOwner(wrappers, userName, OwnerOf) == [] then
      SearchView(direction, Some(NothingFound), [], None)
    else
      SearchView(direction, None, CandidateSelection.Select(wrappers, userName, OwnerOf, CreationDateOf, ChangesetIdOf), None)
  }

  /** A search either lists candidates or says why it does not: the list is
      empty exactly when a text is shown behind it or an exception escapes,
      and it never does both. */
  lemma SearchExplainsEmptyList(sourceBranch: string, target: ControlItems.ControlItem?<ItemIdentifier>,
                                userNameText: Option<string>, window: Option<string>, outcome: WorkerOutcome)
    ensures var v := Search(sourceBranch, target, userNameText, window, outcome);
      && (v.listed == [] <==> v.backText.Some? || v.thrown.Some?)
      && !(v.backText.Some? && v.thrown.Some?)
  {
    if !IsNullOrWhiteSpace(Some(sourceBranch)) && TargetPath(target).Some? && window.Some? && window.value != ""
       && outcome.ServerAnswered? && MCW.WrapAll(outcome.candidates).Success?
    {
      var userName := Trim(userNameText.GetOr(""));
      var direction := Direction(sourceBranch, TargetPath(target).value, userName);
      FoundListsMatchingCandidates(direction, userName, MCW.WrapAll(outcome.candidates).value);
    }
  }

  /** A blank source branch or an unset target stops the search before the
      direction is shown or the server is asked, whatever the server would
      have answered. */
  lemma SearchValidatesFirst(sourceBranch: string, target: ControlItems.ControlItem?<ItemIdentifier>,
                             userNameText: Option<string>, window: Option<string>, outcome: WorkerOutcome)
    requires IsNullOrWhiteSpace(Some(sourceBranch)) || TargetPath(target).None?
    ensures var v := Search(sourceBranch, target, userNameText, window, outcome);
      && v.direction == "" && v.listed == [] && v.thrown.None?
      && v.backText == Some(if IsNullOrWhiteSpace(Some(sourceBranch)) then SourceNotSelected else TargetNotSelected)
      && forall w, o :: Search(sourceBranch, target, userNameText, w, o) == v
  {
  }

  /** Candidates are listed only after both branches validated, the window
      was found, and the server answered with candidates that all wrapped;
      the direction then names both branches and the user. */
  lemma SearchListsOnlyAnswers(sourceBranch: string, target: ControlItems.ControlItem?<ItemIdentifier>,
                               userNameText: Option<string>, window: Option<string>, outcome: WorkerOutcome)
    requires Search(sourceBranch, target, userNameText, window, outcome).listed != []
    ensures !IsNullOrWhiteSpace(Some(sourceBranch)) && TargetPath(target).Some? && window.Some? && window.value != ""
    ensures outcome.ServerAnswered? && MCW.WrapAll(outcome.candidates).Success?
    ensures var userName := Trim(userNameText.GetOr(""));
      && Search(sourceBranch, target, userNameText, window, outcome)
         == Found(Direction(sourceBranch, TargetPath(target).value, userName), userName, MCW.WrapAll(outcome.candidates).value)
  {
  }

  /** The listed candidates are the wrapped candidates whose owner matches
      the user name, ignoring case (all of them for an empty name), each as
      often as the server reported it, from the oldest to the newest and
      equally old ones by ascending changeset id. */
  lemma FoundListsMatchingCandidates(direction: string, userName: string, wrappers: seq<MCW.MergeCandidateWrapper>)
    ensures var v := Found(direction, userName, wrappers);
      && v.direction == direction && v.thrown.None?
      && (v.backText.None? <==> v.listed != [])
      && (forall w :: multiset(v.listed)[w] ==
            if userName == "" || CandidateSelection.OwnerMatches(Some(w.owner), userName) then multiset(wrappers)[w] else 0)
      && (forall i, j :: 0 <= i < j < |v.listed| ==>
            v.listed[i].creationDate < v.listed[j].creationDate
            || (v.listed[i].creationDate == v.listed[j].creationDate && v.listed[i].changesetId <= v.listed[j].changesetId))
  {
    CandidateSelection.SelectSpec(wrappers, userName, OwnerOf, CreationDateOf, ChangesetIdOf);
    var filtered := CandidateSelection.FilterByOwner(wrappers, userName, OwnerOf);
    if filtered != [] {
      CandidateSelection.SelectEmpty(wrappers, userName, OwnerOf, CreationDateOf, ChangesetIdOf);
      if userName == "" {
        assert wrappers != [];
      } else {
        var k :| 0 <= k < |wrappers| && wrappers[k] == filtered[0];
      }
    }
  }

  // ---------------------------------------------------------------------
  // The control

  class MergeSearchControl {
    const model: MergeSearchWindowModel
    /** `SourceBranchPopup.IsOpen`. */
    var popupIsOpen: bool
    /** `SourceBranchPopupListBox.Items` and its `SelectedIndex`. */
    var popupItems: seq<ListBoxItem>
    var selectedIndex: int
    /** `SourceBranchComboBox.Text`. */
    var comboText: string
    /** `MergeDirectionTextBox.Text`. */
    var mergeDirection: string
    /** The text shown behind the candidate list, null for none. */
    var backText: Option<string>
    /** `MergeCandidatesListView.Items` and its `SelectedItems`. */
    var candidateItems: seq<ControlItems.ControlItem<MCW.MergeCandidateWrapper>>
    var selectedItems: seq<ControlItems.ControlItem<MCW.MergeCandidateWrapper>>
    /** `IsEnabled` of the three context-menu items. */
    var copyChangesetEnabled: bool
    var copyCommentEnabled: bool
    var copyWorkItemIdsEnabled: bool

    /** The popup index stays in [-1, Count - 1]; the selected candidates are
        listed ones, and every listed item holds a candidate. */
    predicate Valid()
      reads this
    {
      && -1 <= selectedIndex < |popupItems|
      && (forall x :: x in selectedItems ==> x in candidateItems)
      && (forall k :: 0 <= k < |candidateItems| ==> candidateItems[k].item.Some?)
    }

    constructor (tfsServerUri: TfsWrappers.Uri)
      ensures Valid() && fresh(model) && model.tfsServerUri == tfsServerUri
      ensures model.sourceBranch == "" && popupItems == [] && !popupIsOpen
      ensures candidateItems == [] && selectedItems == [] && backText.None? && mergeDirection == ""
    {
      model := new MergeSearchWindowModel(tfsServerUri);
      popupIsOpen := false;
      popupItems := [];
      selectedIndex := -1;
      comboText := "";
      mergeDirection := "";
      backText := None;
      candidateItems := [];
      selectedItems := [];
      copyChangesetEnabled := true;
      copyCommentEnabled := true;
      copyWorkItemIdsEnabled := true;
    }

    /** `MergeSearchControl(tfsServerUri)`: a null address is rejected. */
    static method New(tfsServerUri: Option<TfsWrappers.Uri>) returns (r: Result<MergeSearchControl>)
      ensures tfsServerUri.None? ==> r == Failure(ArgumentNull("tfsServerUri"))
      ensures tfsServerUri.Some? ==>
        r.Success? && fresh(r.value) && r.value.Valid() && r.value.model.tfsServerUri == tfsServerUri.value
    {
      if tfsServerUri.None? {
        return Failure(ArgumentNull("tfsServerUri"));
      }
      var control := new MergeSearchControl(tfsServerUri.value);
      return Success(control);
    }

    /** `SourceBranchPopupListBox.SelectedItem`. */
    function SelectedPopupItem(): (r: Option<ListBoxItem>)
      reads this
      ensures r.Some? <==> 0 <= selectedIndex < |popupItems|
      ensures r.Some? ==> r.value == popupItems[selectedIndex]
    {
      if 0 <= selectedIndex < |popupItems| then Some(popupItems[selectedIndex]) else None
    }

    /** `UpdateSourceBranchPopupState()`: `window` is the hosting window's
        `IsActive`, `None` when there is no window. */
    method UpdateSourceBranchPopupState(window: Option<bool>, keyboardFocusWithin: bool, dropDownOpen: bool)
      modifies this`popupIsOpen
      ensures popupIsOpen <==> window == Some(true) && keyboardFocusWithin && !dropDownOpen && |popupItems| > 0
    {
      popupIsOpen := window.Some? && window.value && keyboardFocusWithin && !dropDownOpen && |popupItems| > 0;
    }

    /** `UpdateSourceBranchPopupList()`: the list is cleared, and for a
        non-blank source branch refilled with what a fresh wrapper suggests,
        one item per suggestion tagged with it. */
    method UpdateSourceBranchPopupList(getItems: string -> Option<seq<string>>)
      requires Valid()
      modifies this`popupItems, this`selectedIndex
      ensures Valid() && selectedIndex == -1
      ensures IsNullOrWhiteSpace(Some(model.sourceBranch)) ==> popupItems == []
      ensures !IsNullOrWhiteSpace(Some(model.sourceBranch)) ==>
        PopupTags(popupItems, TfsWrappers.Suggest(Some(model.sourceBranch), getItems))
    {
      popupItems := [];
      selectedIndex := -1;
      var sourceBranchText := model.sourceBranch;
      if IsNullOrWhiteSpace(Some(sourceBranchText)) {
        return;
      }
      var tfsWrapper := new TfsWrappers.TfsWrapper.Open(model.tfsServerUri);
      var suggestions := tfsWrapper.GetSuggestions(Some(sourceBranchText), getItems);
      TfsWrappers.LiveSuggestions(tfsWrapper, Some(sourceBranchText), getItems);
      tfsWrapper.Dispose();
      FillPopup(suggestions);
    }

    method FillPopup(suggestions: seq<string>)
      requires popupItems == [] && selectedIndex == -1
      modifies this`popupItems
      ensures PopupTags(popupItems, suggestions)
    {
      var i := 0;
      while i < |suggestions|
        invariant 0 <= i <= |suggestions|
        invariant PopupTags(popupItems, suggestions[..i])
      {
        popupItems := popupItems + [ListBoxItem(Some(suggestions[i]))];
        i := i + 1;
      }
      assert suggestions[..i] == suggestions;
    }

    /** `SelectPopupItem(comboBox, lbi)`: a usable item's tag becomes the
        combo box text. */
    method SelectPopupItem(lbi: Option<ListBoxItem>) returns (selected: bool)
      modifies this`comboText
      ensures selected <==> Selectable(lbi)
      ensures selected ==> comboText == lbi.value.tag.value
      ensures !selected ==> comboText == old(comboText)
    {
      if lbi.None? {
        return false;
      }
      var path := lbi.value.tag;
      if IsNullOrWhiteSpace(path) {
        return false;
      }
      comboText := path.value;
      return true;
    }

    /** `SourceBranchStackPanel_PreviewKeyDown`: Escape closes the popup;
        while it is open, Enter takes the selected suggestion, and Up and
        Down move through a non-empty list, wrapping round through "no item
        selected". The result is `e.Handled`. */
    method KeyDown(key: Key) returns (handled: bool)
      requires Valid()
      modifies this`popupIsOpen, this`selectedIndex, this`comboText
      ensures Valid()
      ensures key.Escape? ==> handled && !popupIsOpen
      ensures !key.Escape? ==> popupIsOpen == old(popupIsOpen)
      ensures !key.Enter? ==> comboText == old(comboText)
      ensures !(key.Up? || key.Down?) || !old(popupIsOpen) || |popupItems| == 0 ==> selectedIndex == old(selectedIndex)
      ensures !key.Escape? && !old(popupIsOpen) ==> !handled && comboText == old(comboText)
      ensures key.Enter? && old(popupIsOpen) ==>
        var lbi := old(SelectedPopupItem());
        && (handled <==> Selectable(lbi))
        && (handled ==> comboText == lbi.value.tag.value)
        && (!handled ==> comboText == old(comboText))
      ensures (key.Up? || key.Down?) && old(popupIsOpen) ==> (handled <==> |popupItems| > 0)
      ensures key.Up? && old(popupIsOpen) && |popupItems| > 0 ==> selectedIndex == WrapUp(old(selectedIndex), |popupItems|)
      ensures key.Down? && old(popupIsOpen) && |popupItems| > 0 ==> selectedIndex == WrapDown(old(selectedIndex), |popupItems|)
      ensures key.OtherKey? ==> !handled
    {
      handled := false;
      if key.Escape? {
        handled := true;
        popupIsOpen := false;
        return;
      }
      if popupIsOpen {
        if key.Enter? {
          handled := SelectPopupItem(SelectedPopupItem());
          return;
        }
        var noItemSelectedIndex := -1;
        var newSelectedIndex: Option<int> := None;
        if |popupItems| > 0 {
          if key.Up? {
            handled := true;
            var index := selectedIndex - 1;
            if index < noItemSelectedIndex {
              index := |popupItems| - 1;
            }
            newSelectedIndex := Some(index);
          } else if key.Down? {
            handled := true;
            var index := selectedIndex + 1;
            if index >= |popupItems| {
              index := noItemSelectedIndex;
            }
            newSelectedIndex := Some(index);
          }
        }
        if newSelectedIndex.Some? && newSelectedIndex.value >= noItemSelectedIndex && newSelectedIndex.value < |popupItems| {
          selectedIndex := newSelectedIndex.value;
        }
      }
    }

    /** `SearchMergeCandidates()`: clears the direction, the back text and
        the list, then leaves the screen as `Search` describes; an escaping
        exception is the failure result. */
    method SearchMergeCandidates(target: ControlItems.ControlItem?<ItemIdentifier>, userNameText: Option<string>,
                                 window: Option<string>, outcome: WorkerOutcome) returns (r: Result<()>)
      requires Valid()
      modifies this`candidateItems, this`selectedItems, this`mergeDirection, this`backText
      ensures Valid()
      ensures var v := Search(model.sourceBranch, target, userNameText, window, outcome);
        && mergeDirection == v.direction
        && backText == v.backText
        && selectedItems == []
        && Shows(candidateItems, v.listed)
        && (v.thrown.Some? ==> r == Failure(v.thrown.value))
        && (v.thrown.None? ==> r == Success(()))
    {
      ghost var v := Search(model.sourceBranch, target, userNameText, window, outcome);
      candidateItems := [];
      selectedItems := [];
      mergeDirection := "";
      backText := None;

      var sourceBranch := model.sourceBranch;
      if IsNullOrWhiteSpace(Some(sourceBranch)) {
        backText := Some(SourceNotSelected);
        assert v == SearchView("", backText, [], None);
        return Success(());
      }
      if target == null || target.item.None? || IsNullOrEmpty(target.item.value.item) {
        backText := Some(TargetNotSelected);
        assert v == SearchView("", backText, [], None);
        return Success(());
      }
      var targetBranch := target.item.value.item.value;
      var userName := Trim(userNameText.GetOr(""));
      mergeDirection := Direction(sourceBranch, targetBranch, userName);

      var ownerWindow := Helper.EnsureNotNull(window);
      if ownerWindow.Failure? {
        assert v == SearchView(mergeDirection, None, [], Some(ArgumentNull("value")));
        return Failure(ownerWindow.error);
      }
      if ownerWindow.value == "" {
        assert v == SearchView(mergeDirection, None, [], Some(Argument(EmptyArgument, "title")));
        return Failure(Argument(EmptyArgument, "title"));
      }

      assert v == Answer(mergeDirection, userName, outcome);
      ShowAnswer(mergeDirection, userName, outcome);
      return Success(());
    }

    /** The part of `SearchMergeCandidates` after the progress window has
        closed: the worker's outcome becomes a message or the list. */
    method ShowAnswer(ghost direction: string, userName: string, outcome: WorkerOutcome)
      requires candidateItems == [] && backText.None?
      modifies this`candidateItems, this`backText
      ensures backText == Answer(direction, userName, outcome).backText
      ensures Shows(candidateItems, Answer(direction, userName, outcome).listed)
    {
      var mergeCandidates: seq<MCW.MergeCandidateWrapper>;
      match outcome {
        case Cancelled =>
          backText := Some(OperationCancelled);
          return;
        case ServerFailed(t, m) =>
          backText := Some(ErrorText(t, m));
          return;
        case ServerAnswered(candidates) =>
          var wrapped := MCW.WrapAll(candidates);
          if wrapped.Failure? {
            backText := Some(ErrorText(TypeName(wrapped.error), Message(wrapped.error)));
            return;
          }
          mergeCandidates := wrapped.value;
      }

      var filteredCandidates := CandidateSelection.FilterByOwner(mergeCandidates, userName, OwnerOf);
      if filteredCandidates == [] {
        backText := Some(NothingFound);
        return;
      }
      var ordered := CandidateSelection.Select(mergeCandidates, userName, OwnerOf, CreationDateOf, ChangesetIdOf);
      FillCandidates(ordered);
    }

    /** The `foreach` that adds one list item per candidate, showing the
        candidate's `ToString()`. */
    method FillCandidates(ordered: seq<MCW.MergeCandidateWrapper>)
      requires candidateItems == []
      modifies this`candidateItems
      ensures Shows(candidateItems, ordered)
    {
      var i := 0;
      while i < |ordered|
        invariant 0 <= i <= |ordered|
        invariant Shows(candidateItems, ordered[..i])
      {
        var item := new ControlItems.ControlItem(Some(ordered[i]), Some(MCW.ToString(ordered[i])));
        candidateItems := candidateItems + [item];
        i := i + 1;
      }
      assert ordered[..i] == ordered;
    }

    /** The user selects some of the listed candidates. */
    method SelectCandidates(items: seq<ControlItems.ControlItem<MCW.MergeCandidateWrapper>>)
      requires Valid()
      requires forall x :: x in items ==> x in candidateItems
      modifies this`selectedItems
      ensures Valid() && selectedItems == items
    {
      selectedItems := items;
    }

    /** `GetSoleSelectedMergeCandidate()`: the candidate of the only selected
        row, null unless exactly one row is selected. */
    function GetSoleSelectedMergeCandidate(): (r: Option<MCW.MergeCandidateWrapper>)
      requires Valid()
      reads this, selectedItems
      ensures r.Some? <==> |selectedItems| == 1
      ensures r.Some? ==> exists k :: 0 <= k < |candidateItems| && candidateItems[k] == selectedItems[0] && candidateItems[k].item == r
    {
      if |selectedItems| != 1 then None
      else
        assert selectedItems[0] in candidateItems;
        selectedItems[0].item
    }

    /** `MergeCandidatesListView_ContextMenuOpening`: without a context menu
        the event is swallowed; otherwise the copy commands are enabled for
        a sole selection, copying work item ids only when it has some. The
        result is `e.Handled`. */
    method ContextMenuOpening(hasContextMenu: bool) returns (handled: bool)
      requires Valid()
      modifies this`copyChangesetEnabled, this`copyCommentEnabled, this`copyWorkItemIdsEnabled
      ensures !hasContextMenu ==>
        && handled
        && copyChangesetEnabled == old(copyChangesetEnabled)
        && copyCommentEnabled == old(copyCommentEnabled)
        && copyWorkItemIdsEnabled == old(copyWorkItemIdsEnabled)
      ensures hasContextMenu ==>
        && !handled
        && (copyChangesetEnabled <==> |selectedItems| == 1)
        && (copyCommentEnabled <==> |selectedItems| == 1)
        && (copyWorkItemIdsEnabled <==>
              |selectedItems| == 1 && GetSoleSelectedMergeCandidate().value.workItemIdsAsString != "")
    {
      if !hasContextMenu {
        return true;
      }
      var isSoleItemSelected := |selectedItems| == 1;
      copyChangesetEnabled := isSoleItemSelected;
      copyCommentEnabled := isSoleItemSelected;
      if isSoleItemSelected {
        var mergeCandidate := GetSoleSelectedMergeCandidate();
        copyWorkItemIdsEnabled := mergeCandidate.Some? && !IsNullOrEmpty(Some(mergeCandidate.value.workItemIdsAsString));
      } else {
        copyWorkItemIdsEnabled := false;
      }
      return false;
    }
  }
}
