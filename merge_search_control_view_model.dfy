/** `MergeSearchControlViewModel`: the state behind the merge search control
    (busy flag, typed source branch, the source and target branch lists and
    the merge candidates), and the queries that fill it.

    This revision of the view model has its own record types: branch items
    expose their identifier as `Value`, and merge candidates carry an
    `IsSelected` flag. The version-control server's answers are parameters:
    `serverItemExists` (`None` when the call throws), `queryMergeRelationships`,
    the root branch objects and the server's merge candidates. The tasks that
    run the queries are replaced by running their continuations in sequence.
 */
module MergeSearchControlViewModels {
  import opened Wrappers
  import opened Text
  import Sorting
  import Helper
  import MCW = MergeCandidateWrappers
  import CandidateSelection

  /** `ItemIdentifier`: a server path, which may be null. */
  datatype ItemIdentifier = ItemIdentifier(item: Option<string>)

  /** A branch item of this revision: `Value` and `Text`. */
  datatype BranchItem = BranchItem(value: Option<ItemIdentifier>, text: string)

  /** The parts of a root `BranchObject` the source branch list is made of. */
  datatype BranchObject = BranchObject(
    childBranches: seq<ItemIdentifier>,
    relatedBranches: seq<ItemIdentifier>,
    rootItem: ItemIdentifier)

  /** A merge candidate of this revision: the wrapper and its `IsSelected` flag. */
  datatype Candidate = Candidate(wrapper: MCW.MergeCandidateWrapper, isSelected: bool)

  /** The property names `PropertyChanged` reports. */
  const IsBusyProperty: string := "IsBusy"
  const SourceBranchProperty: string := "SourceBranch"

  /** `ControlItem.Create(value, text)`: a null text is stored as empty. */
  function CreateBranchItem(value: ItemIdentifier, text: Option<string>): (b: BranchItem)
    ensures b.value == Some(value)
    ensures text.Some? ==> b.text == text.value
    ensures text.None? ==> b.text == ""
  {
    BranchItem(Some(value), text.GetOr(""))
  }

  /** The path a branch item stands for; null when it has no value. */
  function PathOf(b: BranchItem): Option<string> {
    if b.value.Some? then b.value.value.item else None
  }

  /** The position `MoveCurrentToFirst()` leaves: the first item, or -1
      (before the first) for an empty list. */
  function FirstPosition(count: nat): (p: int)
    ensures count == 0 ==> p == -1
    ensures count > 0 ==> p == 0
  {
    if count == 0 then -1 else 0
  }

  // ---------------------------------------------------------------------
  // GetSourceBranches

  /** `Comparer<string>.Default`: null first, then the strings in order. The
      culture-sensitive string order is replaced by the ordinal one. */
  predicate PathLe(a: Option<string>, b: Option<string>) {
    a.None? || (b.Some? && LexLe(a.value, b.value))
  }

  lemma PathLeTotalOrder()
    ensures Sorting.TotalPreorder(PathLe) && Sorting.Antisymmetric(PathLe)
  {
    Sorting.LexLeTotalOrder();
    forall a, b, c | PathLe(a, b) && PathLe(b, c) ensures PathLe(a, c) {
      if a.Some? { assert LexLe(a.value, b.value) && LexLe(b.value, c.value); }
    }
    forall a, b ensures PathLe(a, b) || PathLe(b, a) {
      if a.Some? && b.Some? { assert LexLe(a.value, b.value) || LexLe(b.value, a.value); }
    }
    forall a, b | PathLe(a, b) && PathLe(b, a) ensures a == b {
      if a.Some? && b.Some? { assert a.value == b.value; }
    }
  }

  /** `ChildBranches.Concat(RelatedBranches).Concat(RootItem.AsCollection())` of
      every branch object, in order. */
  function Flatten(objs: seq<BranchObject>): (r: seq<ItemIdentifier>)
    ensures forall x :: x in r <==> exists k :: 0 <= k < |objs| && x in Members(objs[k])
    decreases |objs|
  {
    if objs == [] then []
    else
      var rest := Flatten(objs[1..]);
      assert forall k :: 1 <= k < |objs| ==> Members(objs[k]) == Members(objs[1..][k - 1]);
      Members(objs[0]) + rest
  }

  function Members(o: BranchObject): seq<ItemIdentifier> {
    o.childBranches + o.relatedBranches + Helper.AsCollection(o.rootItem)
  }

  /** `.Select(item => item.Item)`. */
  function Paths(ids: seq<ItemIdentifier>): (r: seq<Option<string>>)
    ensures |r| == |ids|
    ensures forall i :: 0 <= i < |ids| ==> r[i] == ids[i].item
  {
    seq(|ids|, i requires 0 <= i < |ids| => ids[i].item)
  }

  /** `GetSourceBranches()` over the root branch objects the server returns. */
  function GetSourceBranches(objs: seq<BranchObject>): seq<BranchItem> {
    var paths := Sorting.SortBy(Sorting.Distinct(Paths(Flatten(objs))), PathLe);
    seq(|paths|, i requires 0 <= i < |paths| => CreateBranchItem(ItemIdentifier(paths[i]), paths[i]))
  }

  /** The source branch list names every branch of every branch object
      (children, related branches and the root item) exactly once, in strictly
      increasing order, and each item shows its own path. */
  lemma GetSourceBranchesSpec(objs: seq<BranchObject>)
    ensures var r, all := GetSourceBranches(objs), Paths(Flatten(objs));
      && (forall i :: 0 <= i < |r| ==> r[i].value.Some? && r[i].text == PathOf(r[i]).GetOr(""))
      && (forall p :: p in all <==> exists i :: 0 <= i < |r| && PathOf(r[i]) == p)
      && (forall i, j :: 0 <= i < j < |r| ==> PathLe(PathOf(r[i]), PathOf(r[j])) && PathOf(r[i]) != PathOf(r[j]))
  {
    var all := Paths(Flatten(objs));
    var paths := Sorting.SortBy(Sorting.Distinct(all), PathLe);
    var r := GetSourceBranches(objs);
    assert forall i :: 0 <= i < |r| ==> PathOf(r[i]) == paths[i];
    SortedDistinctPaths(all);
    forall p ensures p in all <==> exists i :: 0 <= i < |r| && PathOf(r[i]) == p {
      if p in paths {
        var i :| 0 <= i < |paths| && paths[i] == p;
        assert PathOf(r[i]) == p;
      }
    }
  }

  /** Sorting the distinct paths keeps every path and no other, and leaves
      them strictly increasing. */
  lemma SortedDistinctPaths(all: seq<Option<string>>)
    ensures var paths := Sorting.SortBy(Sorting.Distinct(all), PathLe);
      && (forall p :: p in all <==> p in paths)
      && (forall i, j :: 0 <= i < j < |paths| ==> PathLe(paths[i], paths[j]) && paths[i] != paths[j])
  {
    var distinct := Sorting.Distinct(all);
    var paths := Sorting.SortBy(distinct, PathLe);
    PathLeTotalOrder();
    Sorting.SortBySorted(distinct, PathLe);
    Sorting.PermutationKeepsDistinct(distinct, paths);
    Sorting.SortedDistinctStrict(paths, PathLe);
    forall p ensures p in all <==> p in paths {
      assert p in paths <==> p in multiset(paths);
      assert p in distinct <==> p in multiset(distinct);
    }
  }

  // ---------------------------------------------------------------------
  // GetMergeCandidates

  function Unselected(ws: seq<MCW.MergeCandidateWrapper>): (r: seq<Candidate>)
    ensures |r| == |ws|
    ensures forall i :: 0 <= i < |ws| ==> r[i] == Candidate(ws[i], false)
  {
    seq(|ws|, i requires 0 <= i < |ws| => Candidate(ws[i], false))
  }

  function OwnerOf(c: Candidate): Option<string> { Some(c.wrapper.owner) }
  function CreationDateOf(c: Candidate): int { c.wrapper.creationDate }
  function ChangesetIdOf(c: Candidate): int { c.wrapper.changesetId }

  /** `GetMergeCandidates(sourceBranch, targetBranch, userName)` over the merge
      candidates the server returns for the two branches. */
  function GetMergeCandidates(serverCandidates: seq<MCW.MergeCandidate>, userName: Option<string>): Result<seq<Candidate>> {
    match MCW.WrapAll(serverCandidates)
    case Failure(e) => Failure(e)
    case Success(ws) =>
      Success(CandidateSelection.Select(Unselected(ws), userName.GetOr(""), OwnerOf, CreationDateOf, ChangesetIdOf))
  }

  /** The query fails exactly when a server candidate has no changeset. It
      keeps each wrapped candidate whose owner equals the user name ignoring
      case (all of them for a null or empty user name), nothing else, and
      orders them by creation date and then changeset id. */
  lemma GetMergeCandidatesSpec(serverCandidates: seq<MCW.MergeCandidate>, userName: Option<string>)
    ensures var r := GetMergeCandidates(serverCandidates, userName);
      && (r.Success? <==> forall i :: 0 <= i < |serverCandidates| ==> serverCandidates[i].changeset.Some?)
      && (r.Success? ==>
        var all := Unselected(MCW.WrapAll(serverCandidates).value);
        && (forall c :: multiset(r.value)[c] ==
              if IsNullOrEmpty(userName) || EqualsIgnoreCase(c.wrapper.owner, userName.value) then multiset(all)[c] else 0)
        && (forall i :: 0 <= i < |r.value| ==> !r.value[i].isSelected)
        && (!IsNullOrEmpty(userName) ==> forall i :: 0 <= i < |r.value| ==> EqualsIgnoreCase(r.value[i].wrapper.owner, userName.value))
        && (forall i, j :: 0 <= i < j < |r.value| ==>
              var a, b := r.value[i].wrapper, r.value[j].wrapper;
              a.creationDate < b.creationDate || (a.creationDate == b.creationDate && a.changesetId <= b.changesetId)))
  {
    var r := GetMergeCandidates(serverCandidates, userName);
    if r.Success? {
      var all := Unselected(MCW.WrapAll(serverCandidates).value);
      var u := userName.GetOr("");
      assert r.value == CandidateSelection.Select(all, u, OwnerOf, CreationDateOf, ChangesetIdOf);
      assert IsNullOrEmpty(userName) <==> u == "";
      SelectedCandidates(all, u);
    }
  }

  /** `SelectSpec` in terms of this revision's candidates, none of them selected. */
  lemma SelectedCandidates(all: seq<Candidate>, u: string)
    requires forall i :: 0 <= i < |all| ==> !all[i].isSelected
    ensures var r := CandidateSelection.Select(all, u, OwnerOf, CreationDateOf, ChangesetIdOf);
      && (forall c :: multiset(r)[c] == if u == "" || EqualsIgnoreCase(c.wrapper.owner, u) then multiset(all)[c] else 0)
      && (forall i :: 0 <= i < |r| ==> !r[i].isSelected)
      && (u != "" ==> forall i :: 0 <= i < |r| ==> EqualsIgnoreCase(r[i].wrapper.owner, u))
      && (forall i, j :: 0 <= i < j < |r| ==>
            var a, b := r[i].wrapper, r[j].wrapper;
            a.creationDate < b.creationDate || (a.creationDate == b.creationDate && a.changesetId <= b.changesetId))
  {
    var r := CandidateSelection.Select(all, u, OwnerOf, CreationDateOf, ChangesetIdOf);
    CandidateSelection.SelectSpec(all, u, OwnerOf, CreationDateOf, ChangesetIdOf);
    forall i | 0 <= i < |r| ensures !r[i].isSelected {
      assert r[i] in all;
    }
  }

  // ---------------------------------------------------------------------
  // The server and the tasks

  /** An exception the server side throws: its type name and message. */
  datatype ServerError = ServerError(typeName: string, message: string)

  /** A server call's outcome: the answer, or the exception it throws. */
  datatype Answer<T> = Answered(value: T) | Threw(error: ServerError)

  /** The version-control server as the view model sees it.
      `connection` is the exception `CreateTfsWrapper()` or its
      `VersionControlServer` throws, if any; `itemExists` answers
      `ServerItemExists` (`None` when that call throws); the other fields
      answer `QueryMergeRelationships`, `QueryRootBranchObjects(RecursionType.Full)`
      and `GetMergeCandidates(source, target, RecursionType.Full)`. */
  datatype Server = Server(
    connection: Option<ServerError>,
    itemExists: string -> Option<bool>,
    mergeRelationships: string -> Answer<seq<ItemIdentifier>>,
    rootBranchObjects: Answer<seq<BranchObject>>,
    mergeCandidates: (string, string) -> Answer<seq<MCW.MergeCandidate>>)

  /** How a background task ends: with its result, or faulted by an
      exception of the named type. */
  datatype TaskOutcome<T> = RanToCompletion(result: T) | Faulted(exceptionType: string)

  /** The task `RefreshSourceBranches` starts: `GetSourceBranches()` on a new
      connection. */
  function SourceBranchesTask(server: Server): TaskOutcome<seq<BranchItem>> {
    if server.connection.Some? then Faulted(server.connection.value.typeName)
    else match server.rootBranchObjects
      case Threw(e) => Faulted(e.typeName)
      case Answered(objs) => RanToCompletion(GetSourceBranches(objs))
  }

  /** The source-branch task completes exactly when the server connects and
      answers, and then yields the sorted branch list of its branch objects. */
  lemma SourceBranchesTaskSpec(server: Server)
    ensures var t := SourceBranchesTask(server);
      && (t.RanToCompletion? <==> server.connection.None? && server.rootBranchObjects.Answered?)
      && (t.RanToCompletion? ==> t.result == GetSourceBranches(server.rootBranchObjects.value))
      && (server.connection.Some? ==> t == Faulted(server.connection.value.typeName))
  {
  }

  /** The task `SearchMergeCandidates` starts: `GetMergeCandidates(...)` on a
      new connection. */
  function MergeCandidatesTask(server: Server, sourceBranch: string, targetBranch: string,
                               userName: Option<string>): TaskOutcome<seq<Candidate>> {
    if server.connection.Some? then Faulted(server.connection.value.typeName)
    else match server.mergeCandidates(sourceBranch, targetBranch)
      case Threw(e) => Faulted(e.typeName)
      case Answered(cs) =>
        match GetMergeCandidates(cs, userName)
        case Failure(e) => Faulted(TypeName(e))
        case Success(r) => RanToCompletion(r)
  }

  /** The candidate task completes exactly when the server connects, answers,
      and every candidate it reports has a changeset; it then yields the
      query's result. A candidate without a changeset faults it with the
      wrapper's `ArgumentException`. */
  lemma MergeCandidatesTaskSpec(server: Server, sourceBranch: string, targetBranch: string, userName: Option<string>)
    ensures var t, answer := MergeCandidatesTask(server, sourceBranch, targetBranch, userName),
                             server.mergeCandidates(sourceBranch, targetBranch);
      && (t.RanToCompletion? <==>
            && server.connection.None? && answer.Answered?
            && forall i :: 0 <= i < |answer.value| ==> answer.value[i].changeset.Some?)
      && (t.RanToCompletion? ==> t.result == GetMergeCandidates(answer.value, userName).value)
      && (server.connection.None? && answer.Answered? && t.Faulted? ==> t.exceptionType == "System.ArgumentException")
  {
    var answer := server.mergeCandidates(sourceBranch, targetBranch);
    if server.connection.None? && answer.Answered? {
      GetMergeCandidatesSpec(answer.value, userName);
      var w := MCW.WrapAll(answer.value);
      if w.Failure? {
        assert GetMergeCandidates(answer.value, userName) == Failure(w.error);
      }
    }
  }

  /** The current item `MoveCurrentToFirst()` leaves: the first item, or none. */
  function FirstItem<T>(items: seq<T>): (r: Option<T>)
    ensures r.None? <==> items == []
    ensures r.Some? ==> r.value == items[0]
  {
    if items == [] then None else Some(items[0])
  }

  // ---------------------------------------------------------------------
  // The view model

  /** The view model. The source-branch and candidate views are refreshed
      and moved together, so their current positions are kept as indexes;
      the target view's current item is kept as the item itself, because
      `TargetBranch` reads it and it goes stale when a refresh throws after
      the list was cleared. */
  class MergeSearchControlViewModel {
    var isBusy: bool
    var sourceBranch: string
    /** The `PropertyChanged` notifications raised so far, by property name. */
    var notifications: seq<string>
    const sourceBranches: Helper.Collection<BranchItem>
    const targetBranches: Helper.Collection<BranchItem>
    const mergeCandidates: Helper.Collection<Candidate>
    /** The current positions of the source and candidate views (-1: none). */
    var sourceCurrent: int
    var mergeCandidatesCurrent: int
    /** `TargetBranchesView.CurrentItem`. */
    var targetCurrentItem: Option<BranchItem>

    ghost predicate Valid()
      reads this, sourceBranches, targetBranches, mergeCandidates
    {
      && sourceBranches != targetBranches
      && -1 <= sourceCurrent < |sourceBranches.items|
      && -1 <= mergeCandidatesCurrent < |mergeCandidates.items|
    }

    constructor ()
      ensures Valid() && fresh(sourceBranches) && fresh(targetBranches) && fresh(mergeCandidates)
      ensures !isBusy && sourceBranch == "" && notifications == []
      ensures sourceBranches.items == [] && targetBranches.items == [] && mergeCandidates.items == []
      ensures sourceCurrent == -1 && mergeCandidatesCurrent == -1 && targetCurrentItem.None?
    {
      isBusy := false;
      sourceBranch := "";
      notifications := [];
      sourceBranches := new Helper.Collection();
      targetBranches := new Helper.Collection();
      mergeCandidates := new Helper.Collection();
      sourceCurrent, mergeCandidatesCurrent := -1, -1;
      targetCurrentItem := None;
    }

    /** The `SourceBranch` setter: null is stored as empty, and only a real
        change is stored and notified. */
    method SetSourceBranch(value: Option<string>)
      modifies this`sourceBranch, this`notifications
      ensures sourceBranch == value.GetOr("")
      ensures old(sourceBranch) == sourceBranch ==> notifications == old(notifications)
      ensures old(sourceBranch) != sourceBranch ==> notifications == old(notifications) + [SourceBranchProperty]
    {
      var actualValue := value.GetOr("");
      if sourceBranch == actualValue {
        return;
      }
      sourceBranch := actualValue;
      notifications := notifications + [SourceBranchProperty];
    }

    /** `SetIsBusy(value)`: returns the previous flag; notifies only a change. */
    method SetIsBusy(value: bool) returns (previous: bool)
      modifies this`isBusy, this`notifications
      ensures previous == old(isBusy) && isBusy == value
      ensures previous == value ==> notifications == old(notifications)
      ensures previous != value ==> notifications == old(notifications) + [IsBusyProperty]
    {
      previous := isBusy;
      if value == isBusy {
        return;
      }
      isBusy := value;
      notifications := notifications + [IsBusyProperty];
    }

    /** `TargetBranch`: the path of the target view's current item, or empty
        when there is no current item, it has no value, or its path is null
        or blank. */
    function TargetBranch(): (r: string)
      reads this
      ensures r == "" || !IsBlank(r)
      ensures r != "" <==>
        && targetCurrentItem.Some?
        && PathOf(targetCurrentItem.value).Some?
        && !IsBlank(PathOf(targetCurrentItem.value).value)
      ensures r != "" ==> Some(r) == PathOf(targetCurrentItem.value)
    {
      match targetCurrentItem
      case None => ""
      case Some(current) =>
        if current.value.None? || IsNullOrWhiteSpace(current.value.value.item) then ""
        else current.value.value.item.value
    }

    /** `RefreshTargetBranches()`: clears the target list, then fills it with
        the branches the source branch merges to (none when the source
        branch is blank or does not exist) and moves to the first. An
        exception from connecting or from `QueryMergeRelationships` escapes
        after the clear, leaving the list empty and the view not moved. */
    method RefreshTargetBranches(server: Server) returns (thrown: Option<ServerError>)
      requires Valid()
      modifies targetBranches, this`targetCurrentItem
      ensures Valid()
      ensures TargetBranchItems(sourceBranch, server).Answered? ==>
        && thrown.None?
        && targetBranches.items == TargetBranchItems(sourceBranch, server).value
        && targetCurrentItem == FirstItem(targetBranches.items)
      ensures TargetBranchItems(sourceBranch, server).Threw? ==>
        && thrown == Some(TargetBranchItems(sourceBranch, server).error)
        && targetBranches.items == []
        && targetCurrentItem == old(targetCurrentItem)
    {
      targetBranches.Clear();
      var relationships: seq<ItemIdentifier> := [];
      if !IsNullOrWhiteSpace(Some(sourceBranch)) {
        if server.connection.Some? {
          return server.connection;
        }
        var itemExists := Helper.ServerItemExistsSafe(Some(()), Some(sourceBranch), ItemTypeAny,
                                                   (_: (), p: string, _: ItemType) => server.itemExists(p));
        if itemExists == Success(true) {
          match server.mergeRelationships(sourceBranch)
          case Threw(e) =>
            return Some(e);
          case Answered(ids) =>
            relationships := ids;
        }
      }
      var items := BranchItems(relationships);
      var _ := Helper.ReplaceContents(targetBranches, Some(items));
      targetCurrentItem := FirstItem(targetBranches.items);
      thrown := None;
    }

    /** `OnRefreshSourceBranchesFinished(task)`: a null result is an empty
        list; the view moves to the first branch, the busy flag is cleared
        and the target branches are refreshed. The candidates stay. */
    method OnRefreshSourceBranchesFinished(result: Option<seq<BranchItem>>, server: Server)
      returns (thrown: Option<ServerError>)
      requires Valid()
      modifies sourceBranches, targetBranches, this`sourceCurrent, this`targetCurrentItem, this`isBusy, this`notifications
      ensures Valid() && !isBusy && sourceBranch == old(sourceBranch)
      ensures sourceBranches.items == result.GetOr([])
      ensures sourceCurrent == FirstPosition(|sourceBranches.items|)
      ensures mergeCandidates.items == old(mergeCandidates.items) && mergeCandidatesCurrent == old(mergeCandidatesCurrent)
      ensures notifications == old(notifications) + (if old(isBusy) then [IsBusyProperty] else [])
      ensures TargetBranchItems(sourceBranch, server).Answered? ==>
        && thrown.None?
        && targetBranches.items == TargetBranchItems(sourceBranch, server).value
        && targetCurrentItem == FirstItem(targetBranches.items)
      ensures TargetBranchItems(sourceBranch, server).Threw? ==>
        && thrown == Some(TargetBranchItems(sourceBranch, server).error)
        && targetBranches.items == []
        && targetCurrentItem == old(targetCurrentItem)
    {
      var _ := Helper.ReplaceContents(sourceBranches, Some(result.GetOr([])));
      sourceCurrent := FirstPosition(|sourceBranches.items|);
      var _ := SetIsBusy(false);
      thrown := RefreshTargetBranches(server);
    }

    /** `OnSearchMergeCandidatesFinished(task)`: a null result is an empty
        list; the view moves to the first candidate and the busy flag is
        cleared. The branch lists and their views stay. */
    method OnSearchMergeCandidatesFinished(result: Option<seq<Candidate>>)
      requires Valid()
      modifies mergeCandidates, this`mergeCandidatesCurrent, this`isBusy, this`notifications
      ensures Valid() && !isBusy && sourceBranch == old(sourceBranch)
      ensures mergeCandidates.items == result.GetOr([])
      ensures mergeCandidatesCurrent == FirstPosition(|mergeCandidates.items|)
      ensures sourceCurrent == old(sourceCurrent) && targetCurrentItem == old(targetCurrentItem)
      ensures notifications == old(notifications) + (if old(isBusy) then [IsBusyProperty] else [])
    {
      var _ := Helper.ReplaceContents(mergeCandidates, Some(result.GetOr([])));
      mergeCandidatesCurrent := FirstPosition(|mergeCandidates.items|);
      var _ := SetIsBusy(false);
    }

    /** `RefreshSourceBranches()` with its task run to completion: busy while
        the branches are queried, then the continuation. The continuation
        runs only when the task completes: when connecting or querying the
        branch objects throws, nothing is refilled and the view model stays
        busy. `thrown` is the exception that escapes the continuation. */
    method RefreshSourceBranches(server: Server) returns (thrown: Option<ServerError>)
      requires Valid()
      modifies sourceBranches, targetBranches, this`sourceCurrent, this`targetCurrentItem, this`isBusy, this`notifications
      ensures Valid() && sourceBranch == old(sourceBranch)
      ensures mergeCandidates.items == old(mergeCandidates.items) && mergeCandidatesCurrent == old(mergeCandidatesCurrent)
      ensures SourceBranchesTask(server).Faulted? ==>
        && isBusy && thrown.None?
        && sourceBranches.items == old(sourceBranches.items) && sourceCurrent == old(sourceCurrent)
        && targetBranches.items == old(targetBranches.items) && targetCurrentItem == old(targetCurrentItem)
        && notifications == old(notifications) + (if old(isBusy) then [] else [IsBusyProperty])
      ensures SourceBranchesTask(server).RanToCompletion? ==>
        && !isBusy
        && sourceBranches.items == SourceBranchesTask(server).result
        && sourceCurrent == FirstPosition(|sourceBranches.items|)
        && notifications == old(notifications) + (if old(isBusy) then [IsBusyProperty] else [IsBusyProperty, IsBusyProperty])
        && (TargetBranchItems(sourceBranch, server).Answered? ==>
              && thrown.None?
              && targetBranches.items == TargetBranchItems(sourceBranch, server).value
              && targetCurrentItem == FirstItem(targetBranches.items))
        && (TargetBranchItems(sourceBranch, server).Threw? ==>
              && thrown == Some(TargetBranchItems(sourceBranch, server).error)
              && targetBranches.items == []
              && targetCurrentItem == old(targetCurrentItem))
    {
      var _ := SetIsBusy(true);
      var task := SourceBranchesTask(server);
      if task.RanToCompletion? {
        thrown := OnRefreshSourceBranchesFinished(Some(task.result), server);
      } else {
        thrown := None;
      }
    }

    /** `SearchMergeCandidates(sourceBranch, targetBranch, userName)` with its
        task run to completion. The continuation runs only when the task
        completes: when connecting or the server query throws, or a server
        candidate has no changeset, the list is left as it was and the view
        model stays busy. The branch lists and their views stay either way. */
    method SearchMergeCandidates(server: Server, sourceBranch: string, targetBranch: string, userName: Option<string>)
      requires Valid()
      modifies mergeCandidates, this`mergeCandidatesCurrent, this`isBusy, this`notifications
      ensures Valid()
      ensures this.sourceBranch == old(this.sourceBranch)
      ensures sourceCurrent == old(sourceCurrent) && targetCurrentItem == old(targetCurrentItem)
      ensures MergeCandidatesTask(server, sourceBranch, targetBranch, userName).RanToCompletion? ==>
        && !isBusy
        && mergeCandidates.items == MergeCandidatesTask(server, sourceBranch, targetBranch, userName).result
        && mergeCandidatesCurrent == FirstPosition(|mergeCandidates.items|)
        && notifications == old(notifications) + (if old(isBusy) then [IsBusyProperty] else [IsBusyProperty, IsBusyProperty])
      ensures MergeCandidatesTask(server, sourceBranch, targetBranch, userName).Faulted? ==>
        && isBusy
        && mergeCandidates.items == old(mergeCandidates.items)
        && mergeCandidatesCurrent == old(mergeCandidatesCurrent)
        && notifications == old(notifications) + (if old(isBusy) then [] else [IsBusyProperty])
    {
      var _ := SetIsBusy(true);
      var task := MergeCandidatesTask(server, sourceBranch, targetBranch, userName);
      if task.RanToCompletion? {
        OnSearchMergeCandidatesFinished(Some(task.result));
      }
    }

    /** `GetSelectedMergeCandidates()`: every selected candidate, as often as
        it is listed, in list order, and nothing else. */
    function GetSelectedMergeCandidates(): (r: seq<Candidate>)
      reads this, mergeCandidates
      ensures forall c :: multiset(r)[c] == if c.isSelected then multiset(mergeCandidates.items)[c] else 0
      ensures Sorting.IsSubsequence(r, mergeCandidates.items)
      ensures forall i :: 0 <= i < |r| ==> r[i].isSelected && r[i] in mergeCandidates.items
    {
      var selected := (c: Candidate) => c.isSelected;
      Sorting.FilterInOrder(mergeCandidates.items, selected);
      Sorting.Filter(mergeCandidates.items, selected)
    }

    /** `GetSoleSelectedMergeCandidate()`: the selected candidate when it is
        the only one, null when none or several are selected. */
    function GetSoleSelectedMergeCandidate(): (r: Option<Candidate>)
      reads this, mergeCandidates
      ensures r.Some? <==> exists i :: 0 <= i < |mergeCandidates.items| && IsSoleSelected(mergeCandidates.items, i)
      ensures r.Some? ==>
        exists i :: 0 <= i < |mergeCandidates.items| && IsSoleSelected(mergeCandidates.items, i) && r.value == mergeCandidates.items[i]
    {
      var selected := GetSelectedMergeCandidates();
      SoleSelection(mergeCandidates.items);
      if |selected| == 1 then Some(selected[0]) else None
    }
  }

  /** `ItemType.Any`, the only item type the view model asks about. */
  datatype ItemType = ItemTypeAny

  /** `.Select(item => ControlItem.Create(item, item.Item))`. */
  function BranchItems(ids: seq<ItemIdentifier>): (r: seq<BranchItem>)
    ensures |r| == |ids|
    ensures forall i :: 0 <= i < |ids| ==> r[i] == CreateBranchItem(ids[i], ids[i].item)
  {
    seq(|ids|, i requires 0 <= i < |ids| => CreateBranchItem(ids[i], ids[i].item))
  }

  /** The target branch list `RefreshTargetBranches` builds for
      `sourceBranch`, or the exception it lets escape. */
  function TargetBranchItems(sourceBranch: string, server: Server): Answer<seq<BranchItem>> {
    if IsBlank(sourceBranch) then Answered([])
    else if server.connection.Some? then Threw(server.connection.value)
    else if server.itemExists(sourceBranch) != Some(true) then Answered([])
    else match server.mergeRelationships(sourceBranch)
      case Threw(e) => Threw(e)
      case Answered(ids) => Answered(BranchItems(ids))
  }

  /** A blank source branch has no target branches and needs no server. A
      failure to connect escapes. A source branch the server cannot confirm
      has none. Otherwise a failing relationship query escapes, and an
      answer gives one item per merge relationship, in the server's order,
      showing its path. */
  lemma TargetBranchItemsSpec(sourceBranch: string, server: Server)
    ensures var r, exists_ := TargetBranchItems(sourceBranch, server), server.itemExists(sourceBranch);
      && (IsBlank(sourceBranch) ==> r == Answered([]))
      && (!IsBlank(sourceBranch) && server.connection.Some? ==> r == Threw(server.connection.value))
      && (server.connection.None? && exists_ != Some(true) ==> r == Answered([]))
      && (r.Threw? ==>
            && !IsBlank(sourceBranch)
            && (server.connection.Some? || (exists_ == Some(true) && server.mergeRelationships(sourceBranch) == Threw(r.error))))
      && (!IsBlank(sourceBranch) && server.connection.None? && exists_ == Some(true) &&
          server.mergeRelationships(sourceBranch).Answered? ==>
            var ids := server.mergeRelationships(sourceBranch).value;
            && r.Answered? && |r.value| == |ids|
            && forall i :: 0 <= i < |ids| ==> PathOf(r.value[i]) == ids[i].item && r.value[i].text == ids[i].item.GetOr(""))
  {
  }

  /** Exactly the candidate at `i` is selected. */
  predicate IsSoleSelected(items: seq<Candidate>, i: nat)
    requires i < |items|
  {
    items[i].isSelected && forall j :: 0 <= j < |items| && j != i ==> !items[j].isSelected
  }

  /** The selection holds one candidate exactly when one index is selected. */
  lemma SoleSelection(items: seq<Candidate>)
    ensures var selected := Sorting.Filter(items, (c: Candidate) => c.isSelected);
      && (|selected| == 1 <==> exists i :: 0 <= i < |items| && IsSoleSelected(items, i))
      && (forall i :: 0 <= i < |items| && IsSoleSelected(items, i) ==> selected == [items[i]])
  {
    var p := (c: Candidate) => c.isSelected;
    var selected := Sorting.Filter(items, p);
    forall i | 0 <= i < |items| && IsSoleSelected(items, i) ensures selected == [items[i]] {
      Sorting.FilterSingleton(items, p, i);
    }
    if |selected| == 1 {
      assert selected[0] in items;
      var i :| 0 <= i < |items| && items[i] == selected[0];
      forall j | 0 <= j < |items| && j != i ensures !items[j].isSelected {
        if items[j].isSelected {
          if i < j { Sorting.FilterTwo(items, p, i, j); } else { Sorting.FilterTwo(items, p, j, i); }
        }
      }
      assert IsSoleSelected(items, i);
    }
  }
}
