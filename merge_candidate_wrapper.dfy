/** `MergeCandidateWrapper`: an immutable snapshot of a merge candidate that
    the version-control server reported, with its derived display fields.
    The server's objects are inputs; their `ToString()` texts are given.
 */
module MergeCandidateWrappers {
  import opened Wrappers
  import Sorting
  import Formatting

  /** The server's changeset, as far as the wrapper reads it. `CreationDate`
      is a tick count; `Owner` and `Comment` may be null. */
  datatype Changeset = Changeset(
    changesetId: int,
    creationDate: int,
    owner: Option<string>,
    comment: Option<string>,
    workItemIds: seq<int>)

  /** The server's merge candidate; its changeset may be null. `asString` is
      what its `ToString()` returns. */
  datatype MergeCandidate = MergeCandidate(changeset: Option<Changeset>, asString: string)

  /** `WorkItemWrapper`, reduced to the work item's `Id`. */
  datatype WorkItemWrapper = WorkItemWrapper(id: int)

  datatype MergeCandidateWrapper = MergeCandidateWrapper(
    asString: string,
    creationDate: int,
    changesetId: int,
    owner: string,
    comment: string,
    workItems: seq<WorkItemWrapper>,
    workItemIdsAsString: string)

  function WorkItemIds(items: seq<WorkItemWrapper>): (ids: seq<int>)
    ensures |ids| == |items|
    ensures forall i :: 0 <= i < |items| ==> ids[i] == items[i].id
  {
    seq(|items|, i requires 0 <= i < |items| => items[i].id)
  }

  /** The constructor: the argument checks, then the derived fields. The work
      item ids are ordered ascending (`OrderBy(item => item.Id)`) and joined
      with ", ". */
  function NewMergeCandidateWrapper(mergeCandidate: Option<MergeCandidate>): (r: Result<MergeCandidateWrapper>)
    ensures mergeCandidate.None? ==> r == Failure(ArgumentNull("mergeCandidate"))
    ensures mergeCandidate.Some? && mergeCandidate.value.changeset.None? ==>
      r == Failure(Argument("The associated changeset cannot be null.", "mergeCandidate"))
    ensures r.Success? <==> mergeCandidate.Some? && mergeCandidate.value.changeset.Some?
  {
    match mergeCandidate
    case None => Failure(ArgumentNull("mergeCandidate"))
    case Some(mc) =>
      match mc.changeset
      case None => Failure(Argument("The associated changeset cannot be null.", "mergeCandidate"))
      case Some(changeset) =>
        var workItems := seq(|changeset.workItemIds|, i requires 0 <= i < |changeset.workItemIds| =>
          WorkItemWrapper(changeset.workItemIds[i]));
        Success(MergeCandidateWrapper(
          mc.asString,
          changeset.creationDate,
          changeset.changesetId,
          changeset.owner.GetOr(""),
          changeset.comment.GetOr(""),
          workItems,
          Formatting.IdListString(Sorting.SortBy(WorkItemIds(workItems), Sorting.IntLe))))
  }

  /** The fields copied from the changeset: id and date unchanged, owner and
      comment with null replaced by the empty string, one work item wrapper
      per changeset work item in the changeset's order. */
  lemma WrapperFields(mc: MergeCandidate)
    requires mc.changeset.Some?
    ensures var r, cs := NewMergeCandidateWrapper(Some(mc)), mc.changeset.value;
      && r.Success?
      && r.value.asString == mc.asString
      && r.value.changesetId == cs.changesetId
      && r.value.creationDate == cs.creationDate
      && (cs.owner.Some? ==> r.value.owner == cs.owner.value)
      && (cs.owner.None? ==> r.value.owner == "")
      && (cs.comment.Some? ==> r.value.comment == cs.comment.value)
      && (cs.comment.None? ==> r.value.comment == "")
      && WorkItemIds(r.value.workItems) == cs.workItemIds
  {
  }

  /** `WorkItemIdsAsString` lists every work item id exactly once, ascending:
      parsing it back gives a sorted permutation of the changeset's ids, and
      it is empty exactly when there are no work items. */
  lemma WorkItemIdsAsStringSpec(mc: MergeCandidate)
    requires mc.changeset.Some?
    ensures var w, ids := NewMergeCandidateWrapper(Some(mc)).value, mc.changeset.value.workItemIds;
      && (w.workItemIdsAsString == "" <==> ids == [])
      && Formatting.ParseIdList(w.workItemIdsAsString).Some?
      && var parsed := Formatting.ParseIdList(w.workItemIdsAsString).value;
      && multiset(parsed) == multiset(ids)
      && (forall i, j :: 0 <= i < j < |parsed| ==> parsed[i] <= parsed[j])
  {
    var w := NewMergeCandidateWrapper(Some(mc)).value;
    var ids := mc.changeset.value.workItemIds;
    assert WorkItemIds(w.workItems) == ids;
    var sorted := Sorting.SortBy(ids, Sorting.IntLe);
    Formatting.IdListRoundTrip(sorted);
    Sorting.IntLeTotalPreorder();
    Sorting.SortBySorted(ids, Sorting.IntLe);
  }

  /** `.Select(item => new MergeCandidateWrapper(item)).ToArray()`: the first
      constructor exception stops the query. */
  function WrapAll(cands: seq<MergeCandidate>): (r: Result<seq<MergeCandidateWrapper>>)
    ensures r.Success? <==> forall i :: 0 <= i < |cands| ==> cands[i].changeset.Some?
    ensures r.Success? ==>
      && |r.value| == |cands|
      && forall i :: 0 <= i < |cands| ==> NewMergeCandidateWrapper(Some(cands[i])) == Success(r.value[i])
    ensures r.Failure? ==> r.error == Argument("The associated changeset cannot be null.", "mergeCandidate")
    decreases |cands|
  {
    if cands == [] then Success([])
    else
      match (NewMergeCandidateWrapper(Some(cands[0])), WrapAll(cands[1..]))
      case (Failure(e), _) => Failure(e)
      case (_, Failure(e)) => Failure(e)
      case (Success(w), Success(ws)) => Success([w] + ws)
  }

  /** `ToString()`: `"MergeCandidateWrapper. {" + AsString + "}"`. */
  function ToString(w: MergeCandidateWrapper): (r: string)
    ensures |r| == |"MergeCandidateWrapper. {"| + |w.asString| + 1
    ensures r[..|"MergeCandidateWrapper. {"|] == "MergeCandidateWrapper. {"
    ensures r[|"MergeCandidateWrapper. {"|..|r| - 1] == w.asString && r[|r| - 1] == '}'
  {
    "MergeCandidateWrapper. {" + w.asString + "}"
  }
}
