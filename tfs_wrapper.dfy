/** `TfsWrapper`: the connection to one team project collection. It can be
    disposed once, after which its accessors throw, and it offers completions
    for a typed server path.

    The server's folder listing (`VersionControlServer.GetItems` with one
    level of recursion) is the parameter `getItems`: `None` when the call
    throws, otherwise the listed server paths in the server's order.
 */
module TfsWrappers {
  import opened Wrappers
  import opened Text
  import Sorting

  type Uri = string

  /** `TfsWrapper.TfsRoot` and `TfsWrapper.TfsPathSeparator`. */
  const TfsRoot: string := "$"
  const TfsPathSeparator: string := "/"

  /** The full name of the wrapper type, as `ObjectDisposedException` reports it. */
  const TypeFullName: string := "TfsUtil.TfsWrapper"

  /** The collection object the wrapper opens for its URL, and the services it provides. */
  datatype TeamProjectCollection = TeamProjectCollection(uri: Uri)
  datatype VersionControlServer = VersionControlServer(collection: TeamProjectCollection)

  /** `Path.DirectorySeparatorChar` and `Path.AltDirectorySeparatorChar` on Windows. */
  predicate IsSeparator(c: char) {
    c == '\\' || c == '/'
  }

  // ---------------------------------------------------------------------
  // Path normalisation

  /** The path `GetSuggestions` works with: the trimmed input, `$/` for an
      empty one or for `$`; `None` when it is not rooted at `$`, in which case
      there are no suggestions. */
  function ActualPath(path: Option<string>): Option<string> {
    var actualPath := if path.None? then "" else Trim(path.value);
    if actualPath == "" then Some(TfsRoot + TfsPathSeparator)
    else if actualPath == TfsRoot then Some(actualPath + TfsPathSeparator)
    else if !StartsWithIgnoreCase(actualPath, TfsRoot) then None
    else Some(actualPath)
  }

  /** A null or blank path, and `$` itself, become the root `$/`; any other
      trimmed path not starting with `$` has no suggestions; the rest is the
      trimmed path. A result is at least two characters long, starts with `$`
      and does not end with white space. */
  lemma ActualPathSpec(path: Option<string>)
    ensures var r := ActualPath(path);
      && (IsNullOrWhiteSpace(path) ==> r == Some(TfsRoot + TfsPathSeparator))
      && (path.Some? && Trim(path.value) == TfsRoot ==> r == Some(TfsRoot + TfsPathSeparator))
      && (path.Some? && Trim(path.value) != "" && Trim(path.value)[0] != '$' ==> r.None?)
      && (path.Some? && Trim(path.value) != "" && Trim(path.value) != TfsRoot && Trim(path.value)[0] == '$' ==>
            r == Some(Trim(path.value)))
      && (r.Some? ==> |r.value| >= 2 && r.value[0] == '$' && !IsWhiteSpace(r.value[|r.value| - 1]))
  {
    if path.Some? {
      var actualPath := Trim(path.value);
      TrimEmptyIffBlank(path.value);
      TrimSpec(path.value);
      if actualPath != "" && actualPath != TfsRoot && StartsWithIgnoreCase(actualPath, TfsRoot) {
        assert Fold(actualPath[..1])[0] == '$';
      }
    }
  }

  /** The position of the last separator in `s`, if any. */
  function LastSeparator(s: string): (r: Option<nat>)
    ensures r.Some? ==> r.value < |s| && IsSeparator(s[r.value])
    ensures r.Some? ==> forall j :: r.value < j < |s| ==> !IsSeparator(s[j])
    ensures r.None? ==> forall j :: 0 <= j < |s| ==> !IsSeparator(s[j])
    decreases |s|
  {
    if s == [] then None
    else if IsSeparator(s[|s| - 1]) then Some(|s| - 1)
    else LastSeparator(s[..|s| - 1])
  }

  /** The folder to list and the name being typed (`null` after a trailing
      separator). Without a trailing separator, the path is split at its last
      separator as `Path.GetDirectoryName` and `Path.GetFileName` split it. */
  function SplitPath(actualPath: string): (r: (string, Option<string>))
    requires actualPath != ""
    ensures IsSeparator(actualPath[|actualPath| - 1]) ==>
      r.1.None? && r.0 + [actualPath[|actualPath| - 1]] == actualPath
    ensures !IsSeparator(actualPath[|actualPath| - 1]) ==>
      && r.1.Some?
      && (forall j :: 0 <= j < |r.1.value| ==> !IsSeparator(r.1.value[j]))
      && ((r.0 == "" && r.1.value == actualPath) || exists c :: IsSeparator(c) && r.0 + [c] + r.1.value == actualPath)
  {
    var lastChar := actualPath[|actualPath| - 1];
    if IsSeparator(lastChar) then
      (actualPath[..|actualPath| - 1], None)
    else
      match LastSeparator(actualPath)
      case None => ("", Some(actualPath))
      case Some(k) =>
        assert actualPath[..k] + [actualPath[k]] + actualPath[k + 1..] == actualPath;
        (actualPath[..k], Some(actualPath[k + 1..]))
  }

  /** Without a trailing separator the typed name is never blank: it ends
      with the path's last character, which is neither white space nor a
      separator. So `GetSuggestions` filters whenever it has a name. */
  lemma NameNeverBlank(actualPath: string)
    requires actualPath != "" && !IsWhiteSpace(actualPath[|actualPath| - 1])
    ensures SplitPath(actualPath).1.Some? ==> !IsNullOrWhiteSpace(SplitPath(actualPath).1)
  {
    var r := SplitPath(actualPath);
    if r.1.Some? {
      var name := r.1.value;
      if r.0 == "" && name == actualPath {
        assert !IsWhiteSpace(name[|name| - 1]);
      } else {
        var c :| IsSeparator(c) && r.0 + [c] + name == actualPath;
        assert name != [];
        assert (r.0 + [c] + name)[|actualPath| - 1] == name[|name| - 1];
      }
    }
  }

  /** The folder `GetItemsInternal` actually asks for: `$` is the root `$/`. */
  function QueryFolder(folder: string): (r: string)
    ensures folder == TfsRoot ==> r == "$/"
    ensures folder != TfsRoot ==> r == folder
  {
    if folder == TfsRoot then folder + TfsPathSeparator else folder
  }

  /** The order of the suggestions: `OrdinalIgnoreCase`, then `Ordinal`. */
  function SuggestionOrder(): (string, string) -> bool {
    Sorting.ThenBy(Sorting.ByKey(Fold, LexLe), LexLe)
  }

  lemma SuggestionOrderTotal()
    ensures Sorting.TotalPreorder(SuggestionOrder())
  {
    Sorting.LexLeTotalOrder();
    Sorting.ByKeyTotalPreorder(Fold, LexLe);
    Sorting.ThenByTotalPreorder(Sorting.ByKey(Fold, LexLe), LexLe);
  }

  /** The listing entries offered for `actualPath`: all of them after a
      trailing separator, otherwise those that start with the whole typed path. */
  function Candidates(items: seq<string>, actualPath: string, name: Option<string>): (r: seq<string>)
    ensures IsNullOrWhiteSpace(name) ==> r == items
    ensures forall i :: 0 <= i < |r| ==>
      r[i] in items && (!IsNullOrWhiteSpace(name) ==> StartsWithIgnoreCase(r[i], actualPath))
    ensures !IsNullOrWhiteSpace(name) ==>
      forall x :: multiset(r)[x] == if StartsWithIgnoreCase(x, actualPath) then multiset(items)[x] else 0
    ensures Sorting.IsSubsequence(r, items)
  {
    if !IsNullOrWhiteSpace(name) then
      var offered := item => StartsWithIgnoreCase(item, actualPath);
      Sorting.FilterInOrder(items, offered);
      Sorting.Filter(items, offered)
    else
      Sorting.SubsequenceReflexive(items);
      items
  }

  // ---------------------------------------------------------------------
  // The wrapper object

  class TfsWrapper {
    const url: Uri
    const teamProjectCollection: TeamProjectCollection
    var isDisposed: bool
    /** How many times the underlying collection has been disposed. */
    var collectionDisposals: nat

    ghost predicate Valid()
      reads this
    {
      && teamProjectCollection == TeamProjectCollection(url)
      && collectionDisposals == (if isDisposed then 1 else 0)
    }

    constructor Open(url: Uri)
      ensures Valid() && this.url == url && !isDisposed
    {
      this.url := url;
      teamProjectCollection := TeamProjectCollection(url);
      isDisposed := false;
      collectionDisposals := 0;
    }

    /** `new TfsWrapper(url)`: a null URL is rejected. */
    static method New(url: Option<Uri>) returns (r: Result<TfsWrapper>)
      ensures url.None? ==> r == Failure(ArgumentNull("url"))
      ensures url.Some? ==>
        && r.Success? && fresh(r.value) && r.value.Valid()
        && r.value.url == url.value && !r.value.isDisposed
    {
      if url.None? {
        return Failure(ArgumentNull("url"));
      }
      var w := new TfsWrapper.Open(url.value);
      return Success(w);
    }

    /** `EnsureNotDisposed()`. */
    function EnsureNotDisposed(): (r: Result<()>)
      reads this
      ensures r.Success? <==> !isDisposed
      ensures r.Failure? ==> r.error == ObjectDisposed(TypeFullName)
    {
      if isDisposed then Failure(ObjectDisposed(TypeFullName)) else Success(())
    }

    function GetTeamProjectCollection(): (r: Result<TeamProjectCollection>)
      reads this
      ensures r.Success? <==> !isDisposed
      ensures r.Success? ==> r.value == teamProjectCollection
      ensures r.Failure? ==> r.error == ObjectDisposed(TypeFullName)
    {
      match EnsureNotDisposed()
      case Failure(e) => Failure(e)
      case Success(_) => Success(teamProjectCollection)
    }

    function GetVersionControlServer(): (r: Result<VersionControlServer>)
      reads this
      ensures r.Success? <==> !isDisposed
      ensures r.Success? ==> r.value.collection == teamProjectCollection
      ensures r.Failure? ==> r.error == ObjectDisposed(TypeFullName)
    {
      match EnsureNotDisposed()
      case Failure(e) => Failure(e)
      case Success(_) => Success(VersionControlServer(teamProjectCollection))
    }

    /** `GetService<T>()`; `service` is what the collection returns for `T`. */
    function GetService<T>(service: TeamProjectCollection -> T): (r: Result<T>)
      reads this
      ensures r.Success? <==> !isDisposed
      ensures r.Success? ==> r.value == service(teamProjectCollection)
      ensures r.Failure? ==> r.error == ObjectDisposed(TypeFullName)
    {
      match EnsureNotDisposed()
      case Failure(e) => Failure(e)
      case Success(_) => Success(service(teamProjectCollection))
    }

    /** `Dispose()`: disposes the collection the first time only. */
    method Dispose()
      requires Valid()
      modifies this
      ensures Valid() && isDisposed
      ensures collectionDisposals == 1
      ensures old(isDisposed) ==> collectionDisposals == old(collectionDisposals)
      ensures GetTeamProjectCollection().Failure? && GetVersionControlServer().Failure?
    {
      if isDisposed {
        return;
      }
      collectionDisposals := collectionDisposals + 1;
      isDisposed := true;
    }

    /** `GetItemsInternal(folder)`: `null` for a blank folder, and `null` when
        the listing throws, which it does once the wrapper is disposed. */
    function GetItemsInternal(folder: string, getItems: string -> Option<seq<string>>): (r: Option<seq<string>>)
      reads this
      ensures IsBlank(folder) ==> r.None?
      ensures isDisposed ==> r.None?
      ensures !IsBlank(folder) && !isDisposed ==> r == getItems(QueryFolder(folder))
    {
      if IsNullOrWhiteSpace(Some(folder)) then None
      else
        var folder' := QueryFolder(folder);
        match GetVersionControlServer()
        case Failure(_) => None
        case Success(_) => getItems(folder')
    }

    /** `GetSuggestions(path)`. */
    function GetSuggestions(path: Option<string>, getItems: string -> Option<seq<string>>): (r: seq<string>)
      reads this
      ensures isDisposed ==> r == []
    {
      match ActualPath(path)
      case None => []
      case Some(actualPath) =>
        var (folder, name) := SplitPath(actualPath);
        match GetItemsInternal(folder, getItems)
        case None => []
        case Some(items) => Offer(actualPath, name, items)
    }
  }

  /** The suggestions offered from a folder listing: the candidates sorted
      by `SuggestionOrder`, or nothing when the only one is the typed path. */
  function Offer(actualPath: string, name: Option<string>, items: seq<string>): seq<string> {
    var result := Sorting.SortBy(Candidates(items, actualPath, name), SuggestionOrder());
    if |result| == 1 && EqualsIgnoreCase(result[0], actualPath) then [] else result
  }

  /** What a wrapper that is not disposed suggests for `path`, given the
      server's folder listings: no wrapper state is involved. */
  function Suggest(path: Option<string>, getItems: string -> Option<seq<string>>): (r: seq<string>)
    ensures ActualPath(path).None? ==> r == []
  {
    match ActualPath(path)
    case None => []
    case Some(actualPath) =>
      var (folder, name) := SplitPath(actualPath);
      if IsBlank(folder) then []
      else match getItems(QueryFolder(folder))
        case None => []
        case Some(items) => Offer(actualPath, name, items)
  }

  /** A wrapper that is not disposed suggests what `Suggest` describes. */
  lemma LiveSuggestions(w: TfsWrapper, path: Option<string>, getItems: string -> Option<seq<string>>)
    requires !w.isDisposed
    ensures w.GetSuggestions(path, getItems) == Suggest(path, getItems)
  {
  }

  /** What `GetSuggestions` returns when the path is rooted at `$`: nothing
      if the folder cannot be listed; otherwise the listing entries (after a
      trailing separator, all of them; else those starting with the typed
      path, ignoring case), sorted ignoring case and then ordinally, except
      that a single entry equal to the typed path is not offered. */
  lemma GetSuggestionsSpec(w: TfsWrapper, path: Option<string>, getItems: string -> Option<seq<string>>)
    requires ActualPath(path).Some?
    ensures var actualPath := ActualPath(path).value;
      var (folder, name) := SplitPath(actualPath);
      var r := w.GetSuggestions(path, getItems);
      match w.GetItemsInternal(folder, getItems)
      case None => r == []
      case Some(items) =>
        var expected := Candidates(items, actualPath, name);
        && (r == [] <==> expected == [] || (|expected| == 1 && EqualsIgnoreCase(expected[0], actualPath)))
        && (r != [] ==> multiset(r) == multiset(expected))
        && Sorting.SortedBy(r, SuggestionOrder())
  {
    var actualPath := ActualPath(path).value;
    var (folder, name) := SplitPath(actualPath);
    match w.GetItemsInternal(folder, getItems)
    case None =>
    case Some(items) =>
      var expected := Candidates(items, actualPath, name);
      var sorted := Sorting.SortBy(expected, SuggestionOrder());
      SuggestionOrderTotal();
      Sorting.SortBySorted(expected, SuggestionOrder());
      if |expected| == 1 {
        assert sorted[0] in multiset(expected);
      }
  }

  /** Every suggestion is an entry of the folder's listing and, unless the
      path ends with a separator, starts with the typed path ignoring case. */
  lemma SuggestionsFromListing(w: TfsWrapper, path: Option<string>, getItems: string -> Option<seq<string>>, i: nat)
    requires ActualPath(path).Some?
    requires i < |w.GetSuggestions(path, getItems)|
    ensures var actualPath := ActualPath(path).value;
      var folder := SplitPath(actualPath).0;
      var s := w.GetSuggestions(path, getItems)[i];
      && !IsBlank(folder) && !w.isDisposed
      && getItems(QueryFolder(folder)).Some?
      && s in getItems(QueryFolder(folder)).value
      && (!IsSeparator(actualPath[|actualPath| - 1]) ==> StartsWithIgnoreCase(s, actualPath))
  {
    var actualPath := ActualPath(path).value;
    var (folder, name) := SplitPath(actualPath);
    ActualPathSpec(path);
    NameNeverBlank(actualPath);
    var r := w.GetSuggestions(path, getItems);
    assert w.GetItemsInternal(folder, getItems).Some?;
    var items := w.GetItemsInternal(folder, getItems).value;
    var expected := Candidates(items, actualPath, name);
    assert r == Offer(actualPath, name, items);
    SuggestionOrderTotal();
    Sorting.SortBySorted(expected, SuggestionOrder());
    assert r[i] in multiset(expected);
    var k :| 0 <= k < |expected| && expected[k] == r[i];
  }
}
