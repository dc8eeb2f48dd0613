/** The merge-candidate query that the view model, the merge search control
    and the merge search window each spell out:

        candidates.Where(c => string.Equals(owner(c), userName, OrdinalIgnoreCase))   // only for a non-empty user name
                  .OrderBy(c => creationDate(c)).ThenBy(c => changesetId(c))

    Each copy applies it to its own candidate type, so the owner, the
    creation date (a tick count) and the changeset id are parameters.
 */
module CandidateSelection {
  import opened Wrappers
  import Text
  import Sorting

  /** `string.Equals(owner, userName, StringComparison.OrdinalIgnoreCase)`:
      a null owner equals no user name. */
  predicate OwnerMatches(owner: Option<string>, userName: string) {
    owner.Some? && Text.EqualsIgnoreCase(owner.value, userName)
  }

  /** `OrderBy(creationDate).ThenBy(changesetId)`. */
  function CandidateOrder<C>(date: C -> int, id: C -> int): (C, C) -> bool {
    Sorting.ThenBy(Sorting.ByKey(date, Sorting.IntLe), Sorting.ByKey(id, Sorting.IntLe))
  }

  lemma CandidateOrderTotal<C(!new)>(date: C -> int, id: C -> int)
    ensures Sorting.TotalPreorder(CandidateOrder(date, id))
  {
    Sorting.IntLeTotalPreorder();
    Sorting.ByKeyTotalPreorder(date, Sorting.IntLe);
    Sorting.ByKeyTotalPreorder(id, Sorting.IntLe);
    Sorting.ThenByTotalPreorder(Sorting.ByKey(date, Sorting.IntLe), Sorting.ByKey(id, Sorting.IntLe));
  }

  /** One candidate precedes another when it is older, or equally old with a
      smaller or equal changeset id. */
  lemma CandidateOrderMeaning<C>(date: C -> int, id: C -> int, a: C, b: C)
    ensures CandidateOrder(date, id)(a, b) <==> date(a) < date(b) || (date(a) == date(b) && id(a) <= id(b))
  {
    var first, second := Sorting.ByKey(date, Sorting.IntLe), Sorting.ByKey(id, Sorting.IntLe);
    assert first(a, b) == Sorting.IntLe(date(a), date(b)) && first(b, a) == Sorting.IntLe(date(b), date(a));
    assert second(a, b) == Sorting.IntLe(id(a), id(b));
    Sorting.ThenByMeaning(first, second, a, b);
  }

  /** The owner filter, applied only for a non-empty user name. */
  function FilterByOwner<C(!new)>(cands: seq<C>, userName: string, owner: C -> Option<string>): (r: seq<C>)
    ensures userName == "" ==> r == cands
    ensures userName != "" ==> forall i :: 0 <= i < |r| ==> OwnerMatches(owner(r[i]), userName)
  {
    if userName != "" then Sorting.Filter(cands, c => OwnerMatches(owner(c), userName)) else cands
  }

  /** The owner filter treats user names that are equal ignoring case alike. */
  lemma FilterByOwnerIgnoresCase<C(!new)>(cands: seq<C>, u: string, v: string, owner: C -> Option<string>)
    requires Text.EqualsIgnoreCase(u, v)
    ensures FilterByOwner(cands, u, owner) == FilterByOwner(cands, v, owner)
  {
    assert |u| == |Text.Fold(u)| == |Text.Fold(v)| == |v|;
    if u != "" {
      Sorting.FilterSame(cands, c => OwnerMatches(owner(c), u), c => OwnerMatches(owner(c), v));
    }
  }

  /** The whole query. */
  function Select<C(!new)>(cands: seq<C>, userName: string, owner: C -> Option<string>,
                           date: C -> int, id: C -> int): seq<C>
  {
    Sorting.SortBy(FilterByOwner(cands, userName, owner), CandidateOrder(date, id))
  }

  /** The query keeps every candidate the owner filter admits, as often as
      it occurs, and no other; with an empty user name that is all of them.
      The result runs from the oldest candidate to the newest, and equally
      old candidates by ascending changeset id. */
  lemma SelectSpec<C(!new)>(cands: seq<C>, userName: string, owner: C -> Option<string>,
                            date: C -> int, id: C -> int)
    ensures var r := Select(cands, userName, owner, date, id);
      && (forall c :: multiset(r)[c] == if userName == "" || OwnerMatches(owner(c), userName) then multiset(cands)[c] else 0)
      && (forall i :: 0 <= i < |r| ==> r[i] in cands)
      && (userName != "" ==> forall i :: 0 <= i < |r| ==> OwnerMatches(owner(r[i]), userName))
      && (forall i, j :: 0 <= i < j < |r| ==>
            date(r[i]) < date(r[j]) || (date(r[i]) == date(r[j]) && id(r[i]) <= id(r[j])))
  {
    var filtered := FilterByOwner(cands, userName, owner);
    var r := Select(cands, userName, owner, date, id);
    CandidateOrderTotal(date, id);
    Sorting.SortBySorted(filtered, CandidateOrder(date, id));
    forall i | 0 <= i < |r| ensures r[i] in cands && (userName != "" ==> OwnerMatches(owner(r[i]), userName)) {
      assert r[i] in multiset(filtered);
      var k :| 0 <= k < |filtered| && filtered[k] == r[i];
    }
    forall i, j | 0 <= i < j < |r|
      ensures date(r[i]) < date(r[j]) || (date(r[i]) == date(r[j]) && id(r[i]) <= id(r[j]))
    {
      CandidateOrderMeaning(date, id, r[i], r[j]);
    }
  }

  /** Two user names equal ignoring case select the same candidates in the
      same order. */
  lemma SelectIgnoresCase<C(!new)>(cands: seq<C>, u: string, v: string, owner: C -> Option<string>,
                                  date: C -> int, id: C -> int)
    requires Text.EqualsIgnoreCase(u, v)
    ensures Select(cands, u, owner, date, id) == Select(cands, v, owner, date, id)
  {
    FilterByOwnerIgnoresCase(cands, u, v, owner);
  }

  /** The query is empty exactly when no candidate passes the owner filter. */
  lemma SelectEmpty<C(!new)>(cands: seq<C>, userName: string, owner: C -> Option<string>,
                             date: C -> int, id: C -> int)
    ensures Select(cands, userName, owner, date, id) == [] <==>
      forall i :: 0 <= i < |cands| ==> userName != "" && !OwnerMatches(owner(cands[i]), userName)
  {
    var r := Select(cands, userName, owner, date, id);
    SelectSpec(cands, userName, owner, date, id);
    if r == [] {
      forall i | 0 <= i < |cands| ensures userName != "" && !OwnerMatches(owner(cands[i]), userName) {
        assert multiset(r)[cands[i]] == 0;
      }
    } else {
      assert r[0] in cands;
    }
  }
}
