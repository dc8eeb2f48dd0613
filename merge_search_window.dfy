/** `MergeSearchWindow`: the stand-alone window that searches the changesets
    still to be merged from a source branch into a target branch. It shares
    its look with the merge search control, but it is an older copy of the
    logic: its popup index stops at the ends of the list instead of wrapping
    round, the title it hands to the progress window is its own, and it
    lists the server's merge candidates themselves rather than wrappers of
    them. The list box items, keys, worker outcomes and message texts are the
    control's.
 */
module MergeSearchWindows {
  import opened Wrappers
  import opened Text
  import ControlItems
  import MCW = MergeCandidateWrappers
  import CandidateSelection
  import TfsWrappers
  import MSC = MergeSearchControls

  // ---------------------------------------------------------------------
  // The nested view model

  /** The window's own nested `MergeSearchWindowModel`: the server address
      and the source branch the combo box is bound to. `notifications` lists
      the `PropertyChanged` events raised, oldest first. */
  class MergeSearchWindowModel {
    var tfsServerUri: TfsWrappers.Uri
    var sourceBranch: string
    var notifications: seq<string>

    constructor (tfsServerUri: TfsWrappers.Uri)
      ensures this.tfsServerUri == tfsServerUri
      ensures sourceBranch == "" && notifications == []
    {
      this.tfsServerUri := tfsServerUri;
      sourceBranch := "";
      notifications := [];
    }

    /** The `SourceBranch` setter: null is stored as the empty string, and
        only a change of value is stored and announced. */
    method SetSourceBranch(value: Option<string>)
      modifies this`sourceBranch, this`notifications
      ensures sourceBranch == value.GetOr("")
      ensures old(sourceBranch) == value.GetOr("") ==> notifications == old(notifications)
      ensures old(sourceBranch) != value.GetOr("") ==> notifications == old(notifications) + [MSC.SourceBranchProperty]
    {
      var actualValue := value.GetOr("");
      if sourceBranch != actualValue {
        sourceBranch := actualValue;
        notifications := notifications + [MSC.SourceBranchProperty];
      }
    }
  }

  // ---------------------------------------------------------------------
  // Keyboard selection in the suggestion popup

  /** Up: one item back, unless that leaves the list (index 0 stays put, and
      so does "no item selected"). */
  function ClampUp(index: int, count: nat): int {
    if 0 <= index - 1 < count then index - 1 else index
  }

  /** Down: one item on, unless that leaves the list (the last item stays put). */
  function ClampDown(index: int, count: nat): int {
    if 0 <= index + 1 < count then index + 1 else index
  }

  /** The index after pressing Down `k` times. */
  function DownSteps(index: int, count: nat, k: nat): int {
    if k == 0 then index else ClampDown(DownSteps(index, count, k - 1), count)
  }

  /** The index after pressing Up `k` times. */
  function UpSteps(index: int, count: nat, k: nat): int {
    if k == 0 then index else ClampUp(UpSteps(index, count, k - 1), count)
  }

  /** Down presses walk towards the last item and then stay there; on an
      empty list nothing is ever selected. */
  lemma {:induction false} DownSaturates(index: int, count: nat, k: nat)
    requires -1 <= index < count
    ensures DownSteps(index, count, k) == if index + k < count then index + k else count - 1
  {
    if k > 0 {
      DownSaturates(index, count, k - 1);
    }
  }

  /** Up presses walk towards the first item and then stay there; they never
      reach "no item selected", and from it they do not move at all. */
  lemma {:induction false} UpSaturates(index: int, count: nat, k: nat)
    requires -1 <= index < count
    ensures UpSteps(index, count, k) == if index == -1 then -1 else if index - k >= 0 then index - k else 0
  {
    if k > 0 {
      UpSaturates(index, count, k - 1);
    }
  }

  // ---------------------------------------------------------------------
  // The search

  /** What a search leaves on screen: the text shown behind the candidate
      list (null for none), the listed merge candidates, and the exception
      that escapes, if any. */
  datatype WindowView = WindowView(backText: Option<string>, listed: seq<MCW.MergeCandidate>, thrown: Option<Error>)

  /** Every candidate has a changeset, so the query can read it. */
  predicate HasChangesets(cands: seq<MCW.MergeCandidate>) {
    forall i :: 0 <= i < |cands| ==> cands[i].changeset.Some?
  }

  /** `item.Changeset.Owner` and the sort keys; only read once every
      candidate is known to have a changeset. */
  function OwnerOf(c: MCW.MergeCandidate): Option<string> {
    if c.changeset.Some? then c.changeset.value.owner else None
  }
  function CreationDateOf(c: MCW.MergeCandidate): int {
    if c.changeset.Some? then c.changeset.value.creationDate else 0
  }
  function ChangesetIdOf(c: MCW.MergeCandidate): int {
    if c.changeset.Some? then c.changeset.value.changesetId else 0
  }

  /** The whole of `SearchMergeCandidates`, as the screen state it leaves:
      `title` is the window's title, which the progress window requires to
      be neither null nor empty. */
  function Search(sourceBranch: string, target: ControlItems.ControlItem?<MSC.ItemIdentifier>,
                  userNameText: Option<string>, title: Option<string>, outcome: MSC.WorkerOutcome): WindowView
  {
    if IsNullOrWhiteSpace(Some(sourceBranch)) then WindowView(Some(MSC.SourceNotSelected), [], None)
    else if MSC.TargetPath(target).None? then WindowView(Some(MSC.TargetNotSelected), [], None)
    else
      var userName := Trim(userNameText.GetOr(""));
      if IsNullOrEmpty(title) then WindowView(None, [], Some(Argument(MSC.EmptyArgument, "title")))
      else Answer(userName, outcome)
  }

  /** The screen after the worker has ended. */
  function Answer(userName: string, outcome: MSC.WorkerOutcome): WindowView {
    match outcome
    case Cancelled => WindowView(Some(MSC.OperationCancelled), [], None)
    case ServerFailed(t, m) => WindowView(Some(MSC.ErrorText(t, m)), [], None)
    case ServerAnswered(candidates) => Found(userName, candidates)
  }

  /** The screen once the server has answered. The owner filter reads every
      candidate's changeset when a user name is given, and the sort reads
      every remaining one; either way a candidate without a changeset makes
      the query throw `NullReferenceException` before anything is listed. */
  function Found(userName: string, cands: seq<MCW.MergeCandidate>): WindowView {
    if !HasChangesets(cands) then WindowView(None, [], Some(NullReference))
    else if CandidateSelection.FilterByOwner(cands, userName, OwnerOf) == [] then WindowView(Some(MSC.NothingFound), [], None)
    else WindowView(None, CandidateSelection.Select(cands, userName, OwnerOf, CreationDateOf, ChangesetIdOf), None)
  }

  /** The query throws exactly when a candidate has no changeset, and then
      shows and lists nothing. */
  lemma FoundThrows(userName: string, cands: seq<MCW.MergeCandidate>)
    ensures var v := Found(userName, cands);
      && (v.thrown.Some? <==> exists i :: 0 <= i < |cands| && cands[i].changeset.None?)
      && (v.thrown.Some? ==> v.thrown == Some(NullReference) && v.backText.None? && v.listed == [])
  {
  }

  /** When every candidate has a changeset, the query lists the candidates
      whose changeset owner equals the user name, ignoring case (all of them
      for an empty name), each as often as the server reported it, from the
      oldest to the newest and equally old ones by ascending changeset id;
      it says "nothing found" exactly when that list is empty. */
  lemma FoundLists(userName: string, cands: seq<MCW.MergeCandidate>)
    requires HasChangesets(cands)
    ensures var v := Found(userName, cands);
      && v.thrown.None?
      && (v.backText.None? <==> v.listed != [])
      && (v.backText.Some? ==> v.backText == Some(MSC.NothingFound))
      && (forall c :: multiset(v.listed)[c] ==
            if userName == "" || CandidateSelection.OwnerMatches(OwnerOf(c), userName) then multiset(cands)[c] else 0)
      && (forall i :: 0 <= i < |v.listed| ==> v.listed[i].changeset.Some?)
      && (userName != "" ==> forall i :: 0 <= i < |v.listed| ==>
            v.listed[i].changeset.value.owner.Some? && EqualsIgnoreCase(v.listed[i].changeset.value.owner.value, userName))
      && (forall i, j :: 0 <= i < j < |v.listed| ==>
            var a, b := v.listed[i].changeset.value, v.listed[j].changeset.value;
            a.creationDate < b.creationDate || (a.creationDate == b.creationDate && a.changesetId <= b.changesetId))
  {
    var r := CandidateSelection.Select(cands, userName, OwnerOf, CreationDateOf, ChangesetIdOf);
    assert r == [] <==> CandidateSelection.FilterByOwner(cands, userName, OwnerOf) == [] by {
      CandidateSelection.SelectEmpty(cands, userName, OwnerOf, CreationDateOf, ChangesetIdOf);
      var filtered := CandidateSelection.FilterByOwner(cands, userName, OwnerOf);
      if filtered != [] && userName != "" {
        var k :| 0 <= k < |cands| && cands[k] == filtered[0];
      }
    }
    assert Found(userName, cands) == if r == [] then WindowView(Some(MSC.NothingFound), [], None) else WindowView(None, r, None);
    Selected(userName, cands);
  }

  /** `SelectSpec` read through the changesets of this revision's candidates. */
  lemma Selected(userName: string, cands: seq<MCW.MergeCandidate>)
    requires HasChangesets(cands)
    ensures var r := CandidateSelection.Select(cands, userName, OwnerOf, CreationDateOf, ChangesetIdOf);
      && (forall c :: multiset(r)[c] ==
            if userName == "" || CandidateSelection.OwnerMatches(OwnerOf(c), userName) then multiset(cands)[c] else 0)
      && (forall i :: 0 <= i < |r| ==> r[i].changeset.Some?)
      && (userName != "" ==> forall i :: 0 <= i < |r| ==>
            r[i].changeset.value.owner.Some? && EqualsIgnoreCase(r[i].changeset.value.owner.value, userName))
      && (forall i, j :: 0 <= i < j < |r| ==>
            var a, b := r[i].changeset.value, r[j].changeset.value;
            a.creationDate < b.creationDate || (a.creationDate == b.creationDate && a.changesetId <= b.changesetId))
  {
    var r := CandidateSelection.Select(cands, userName, OwnerOf, CreationDateOf, ChangesetIdOf);
    CandidateSelection.SelectSpec(cands, userName, OwnerOf, CreationDateOf, ChangesetIdOf);
    forall i | 0 <= i < |r| ensures r[i].changeset.Some? {
      var k :| 0 <= k < |cands| && cands[k] == r[i];
    }
  }

  /** A search either lists candidates or says why it does not: the list is
      empty exactly when a text is shown behind it or an exception escapes,
      and it never does both. */
  lemma SearchExplainsEmptyList(sourceBranch: string, target: ControlItems.ControlItem?<MSC.ItemIdentifier>,
                                userNameText: Option<string>, title: Option<string>, outcome: MSC.WorkerOutcome)
    ensures var v := Search(sourceBranch, target, userNameText, title, outcome);
      && (v.listed == [] <==> v.backText.Some? || v.thrown.Some?)
      && !(v.backText.Some? && v.thrown.Some?)
  {
    if !IsNullOrWhiteSpace(Some(sourceBranch)) && MSC.TargetPath(target).Some? && !IsNullOrEmpty(title)
       && outcome.ServerAnswered?
    {
      if HasChangesets(outcome.candidates) {
        FoundLists(Trim(userNameText.GetOr("")), outcome.candidates);
      }
    }
  }

  /** A blank source branch or an unset target stops the search with its
      message before the server is asked, whatever the title and whatever
      the server would have answered. */
  lemma SearchValidatesFirst(sourceBranch: string, target: ControlItems.ControlItem?<MSC.ItemIdentifier>,
                             userNameText: Option<string>, title: Option<string>, outcome: MSC.WorkerOutcome)
    requires IsNullOrWhiteSpace(Some(sourceBranch)) || MSC.TargetPath(target).None?
    ensures var v := Search(sourceBranch, target, userNameText, title, outcome);
      && v.listed == [] && v.thrown.None?
      && v.backText == Some(if IsNullOrWhiteSpace(Some(sourceBranch)) then MSC.SourceNotSelected else MSC.TargetNotSelected)
      && forall t, o :: Search(sourceBranch, target, userNameText, t, o) == v
  {
  }

  /** The list box shows `cands` in order, each by its `ToString()`. */
  predicate Lists(items: seq<ControlItems.ControlItem<MCW.MergeCandidate>>, cands: seq<MCW.MergeCandidate>) {
    && |items| == |cands|
    && forall i :: 0 <= i < |items| ==> items[i].item == Some(cands[i]) && items[i].text == cands[i].asString
  }

  // ---------------------------------------------------------------------
  // The window

  class MergeSearchWindow {
    const model: MergeSearchWindowModel
    /** The window's `Title`. */
    const title: Option<string>
    /** `SourceBranchPopup.IsOpen`. */
    var popupIsOpen: bool
    /** `SourceBranchPopupListBox.Items` and its `SelectedIndex`. */
    var popupItems: seq<MSC.ListBoxItem>
    var selectedIndex: int
    /** `SourceBranchComboBox.Text`. */
    var comboText: string
    /** The text shown behind the candidate list, null for none. */
    var backText: Option<string>
    /** `MergeCandidatesListView.Items`. */
    var candidateItems: seq<ControlItems.ControlItem<MCW.MergeCandidate>>

    /** The popup index stays in [-1, Count - 1], and every listed item holds
        a candidate. */
    predicate Valid()
      reads this
    {
      && -1 <= selectedIndex < |popupItems|
      && (forall k :: 0 <= k < |candidateItems| ==> candidateItems[k].item.Some?)
    }

    constructor (tfsServerUri: TfsWrappers.Uri, title: Option<string>)
      ensures Valid() && fresh(model) && model.tfsServerUri == tfsServerUri && this.title == title
      ensures model.sourceBranch == "" && popupItems == [] && !popupIsOpen
      ensures candidateItems == [] && backText.None?
    {
      model := new MergeSearchWindowModel(tfsServerUri);
      this.title := title;
      popupIsOpen := false;
      popupItems := [];
      selectedIndex := -1;
      comboText := "";
      backText := None;
      candidateItems := [];
    }

    /** `MergeSearchWindow(tfsServerUri)`: a null address is rejected. */
    static method New(tfsServerUri: Option<TfsWrappers.Uri>, title: Option<string>) returns (r: Result<MergeSearchWindow>)
      ensures tfsServerUri.None? ==> r == Failure(ArgumentNull("tfsServerUri"))
      ensures tfsServerUri.Some? ==>
        r.Success? && fresh(r.value) && r.value.Valid() && r.value.model.tfsServerUri == tfsServerUri.value
    {
      if tfsServerUri.None? {
        return Failure(ArgumentNull("tfsServerUri"));
      }
      var window := new MergeSearchWindow(tfsServerUri.value, title);
      return Success(window);
    }

    /** `SourceBranchPopupListBox.SelectedItem`. */
    function SelectedPopupItem(): (r: Option<MSC.ListBoxItem>)
      reads this
      ensures r.Some? <==> 0 <= selectedIndex < |popupItems|
      ensures r.Some? ==> r.value == popupItems[selectedIndex]
    {
      if 0 <= selectedIndex < |popupItems| then Some(popupItems[selectedIndex]) else None
    }

    /** `UpdateSourceBranchPopupState()`: unlike the control, the window does
        not ask whether it is active. */
    method UpdateSourceBranchPopupState(keyboardFocusWithin: bool, dropDownOpen: bool)
      modifies this`popupIsOpen
      ensures popupIsOpen <==> keyboardFocusWithin && !dropDownOpen && |popupItems| > 0
    {
      popupIsOpen := keyboardFocusWithin && !dropDownOpen && |popupItems| > 0;
    }

    /** `UpdateSourceBranchPopupList()`: the list is cleared, and for a
        non-blank source branch refilled with what a fresh wrapper suggests,
        one item per suggestion tagged with it. */
    method UpdateSourceBranchPopupList(getItems: string -> Option<seq<string>>)
      requires Valid()
      modifies this`popupItems, this`selectedIndex
      ensures Valid() && selectedIndex == -1
      ensures IsNullOrWhiteSpace(Some(model.sourceBranch)) ==> popupItems == []
      ensures !IsNullOrWhiteSpace(Some(model.sourceBranch)) ==>
        MSC.PopupTags(popupItems, TfsWrappers.Suggest(Some(model.sourceBranch), getItems))
    {
      popupItems := [];
      selectedIndex := -1;
      var sourceBranchText := model.sourceBranch;
      if IsNullOrWhiteSpace(Some(sourceBranchText)) {
        return;
      }
      var tfsWrapper := new TfsWrappers.TfsWrapper.Open(model.tfsServerUri);
      var suggestions := tfsWrapper.GetSuggestions(Some(sourceBranchText), getItems);
      TfsWrappers.LiveSuggestions(tfsWrapper, Some(sourceBranchText), getItems);
      tfsWrapper.Dispose();
      FillPopup(suggestions);
    }

    method FillPopup(suggestions: seq<string>)
      requires popupItems == [] && selectedIndex == -1
      modifies this`popupItems
      ensures MSC.PopupTags(popupItems, suggestions)
    {
      var i := 0;
      while i < |suggestions|
        invariant 0 <= i <= |suggestions|
        invariant MSC.PopupTags(popupItems, suggestions[..i])
      {
        popupItems := popupItems + [MSC.ListBoxItem(Some(suggestions[i]))];
        i := i + 1;
      }
      assert suggestions[..i] == suggestions;
    }

    /** `SelectPopupItem(comboBox, lbi)`: a usable item's tag becomes the
        combo box text. */
    method SelectPopupItem(lbi: Option<MSC.ListBoxItem>) returns (selected: bool)
      modifies this`comboText
      ensures selected <==> MSC.Selectable(lbi)
      ensures selected ==> comboText == lbi.value.tag.value
      ensures !selected ==> comboText == old(comboText)
    {
      if lbi.None? {
        return false;
      }
      var path := lbi.value.tag;
      if IsNullOrWhiteSpace(path) {
        return false;
      }
      comboText := path.value;
      return true;
    }

    /** `StackPanel_PreviewKeyDown`: Escape closes the popup; while it is
        open, Enter takes the selected suggestion, and Up and Down are always
        handled but move the index only while it stays on an item. The
        result is `e.Handled`. */
    method KeyDown(key: MSC.Key) returns (handled: bool)
      requires Valid()
      modifies this`popupIsOpen, this`selectedIndex, this`comboText
      ensures Valid()
      ensures key.Escape? ==> handled && !popupIsOpen
      ensures !key.Escape? ==> popupIsOpen == old(popupIsOpen)
      ensures !key.Enter? ==> comboText == old(comboText)
      ensures !(key.Up? || key.Down?) || !old(popupIsOpen) ==> selectedIndex == old(selectedIndex)
      ensures !key.Escape? && !old(popupIsOpen) ==> !handled && comboText == old(comboText)
      ensures key.Enter? && old(popupIsOpen) ==>
        var lbi := old(SelectedPopupItem());
        && (handled <==> MSC.Selectable(lbi))
        && (handled ==> comboText == lbi.value.tag.value)
        && (!handled ==> comboText == old(comboText))
      ensures (key.Up? || key.Down?) && old(popupIsOpen) ==> handled
      ensures key.Up? && old(popupIsOpen) ==> selectedIndex == ClampUp(old(selectedIndex), |popupItems|)
      ensures key.Down? && old(popupIsOpen) ==> selectedIndex == ClampDown(old(selectedIndex), |popupItems|)
      ensures key.OtherKey? ==> !handled
    {
      handled := false;
      if key.Escape? {
        handled := true;
        popupIsOpen := false;
        return;
      }
      if popupIsOpen {
        if key.Enter? {
          handled := SelectPopupItem(SelectedPopupItem());
          return;
        }
        var newSelectedIndex: Option<int> := None;
        if key.Up? {
          handled := true;
          newSelectedIndex := Some(selectedIndex - 1);
        } else if key.Down? {
          handled := true;
          newSelectedIndex := Some(selectedIndex + 1);
        }
        if newSelectedIndex.Some? && newSelectedIndex.value >= 0 && newSelectedIndex.value < |popupItems| {
          selectedIndex := newSelectedIndex.value;
        }
      }
    }

    /** `SearchMergeCandidates()`: clears the list and the back text, then
        leaves the screen as `Search` describes; an escaping exception is the
        failure result. */
    method SearchMergeCandidates(target: ControlItems.ControlItem?<MSC.ItemIdentifier>, userNameText: Option<string>,
                                 outcome: MSC.WorkerOutcome) returns (r: Result<()>)
      requires Valid()
      modifies this`candidateItems, this`backText
      ensures Valid()
      ensures var v := Search(model.sourceBranch, target, userNameText, title, outcome);
        && backText == v.backText
        && Lists(candidateItems, v.listed)
        && (v.thrown.Some? ==> r == Failure(v.thrown.value))
        && (v.thrown.None? ==> r == Success(()))
    {
      ghost var v := Search(model.sourceBranch, target, userNameText, title, outcome);
      candidateItems := [];
      backText := None;

      var sourceBranch := model.sourceBranch;
      if IsNullOrWhiteSpace(Some(sourceBranch)) {
        backText := Some(MSC.SourceNotSelected);
        assert v == WindowView(backText, [], None);
        return Success(());
      }
      if target == null || target.item.None? || IsNullOrEmpty(target.item.value.item) {
        backText := Some(MSC.TargetNotSelected);
        assert v == WindowView(backText, [], None);
        return Success(());
      }
      var userName := Trim(userNameText.GetOr(""));

      if IsNullOrEmpty(title) {
        assert v == WindowView(None, [], Some(Argument(MSC.EmptyArgument, "title")));
        return Failure(Argument(MSC.EmptyArgument, "title"));
      }

      assert v == Answer(userName, outcome);
      r := ShowAnswer(userName, outcome);
    }

    /** The part of `SearchMergeCandidates` after the progress window has
        closed: the worker's outcome becomes a message, an exception or the
        list. */
    method ShowAnswer(userName: string, outcome: MSC.WorkerOutcome) returns (r: Result<()>)
      requires candidateItems == [] && backText.None?
      modifies this`candidateItems, this`backText
      ensures backText == Answer(userName, outcome).backText
      ensures Lists(candidateItems, Answer(userName, outcome).listed)
      ensures Answer(userName, outcome).thrown.Some? ==> r == Failure(Answer(userName, outcome).thrown.value)
      ensures Answer(userName, outcome).thrown.None? ==> r == Success(())
    {
      var mergeCandidates: seq<MCW.MergeCandidate>;
      match outcome {
        case Cancelled =>
          backText := Some(MSC.OperationCancelled);
          return Success(());
        case ServerFailed(t, m) =>
          backText := Some(MSC.ErrorText(t, m));
          return Success(());
        case ServerAnswered(candidates) =>
          mergeCandidates := candidates;
      }

      // The owner filter or the sort dereferences a null changeset.
      if !HasChangesets(mergeCandidates) {
        return Failure(NullReference);
      }

      var filteredCandidates := CandidateSelection.FilterByOwner(mergeCandidates, userName, OwnerOf);
      if filteredCandidates == [] {
        backText := Some(MSC.NothingFound);
        return Success(());
      }
      var ordered := CandidateSelection.Select(mergeCandidates, userName, OwnerOf, CreationDateOf, ChangesetIdOf);
      FillCandidates(ordered);
      return Success(());
    }

    /** The `foreach` that adds one list item per candidate, showing the
        candidate's `ToString()`. */
    method FillCandidates(ordered: seq<MCW.MergeCandidate>)
      requires candidateItems == []
      modifies this`candidateItems
      ensures Lists(candidateItems, ordered)
    {
      var i := 0;
      while i < |ordered|
        invariant 0 <= i <= |ordered|
        invariant Lists(candidateItems, ordered[..i])
      {
        var item := new ControlItems.ControlItem(Some(ordered[i]), Some(ordered[i].asString));
        candidateItems := candidateItems + [item];
        i := i + 1;
      }
      assert ordered[..i] == ordered;
    }
  }
}
