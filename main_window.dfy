/** `MainWindow`: the server menu, filled from the registered project
    collections with the selected server checked, and the content tabs the
    commands open and close. Menu items and tabs are objects: the menu
    toggles their `IsChecked` flags in place, and tabs are removed by
    reference. The registered collections are an input.
 */
module MainWindows {
  import opened Wrappers
  import opened Text
  import Sorting

  /** A `RegisteredProjectCollection`: its `Name` and its `Uri`, written out
      as its absolute URI. */
  datatype RegisteredCollection = RegisteredCollection(name: string, uri: string)

  /** `TfsServerInfo`: the collection's name and address. */
  datatype ServerInfo = ServerInfo(name: string, uri: string)

  /** A `TabContentControl`, reduced to its `Header`. */
  datatype TabContent = TabContent(header: string)

  const NoServersFound := "No registered servers found."
  const ServerNotSelected := "The TFS server is not selected."
  const MoreThanOneMatch := "Sequence contains more than one matching element"
  const NotComparable := "At least one object must implement IComparable."

  // ---------------------------------------------------------------------
  // The order of the server menu

  function NameKey(c: RegisteredCollection): string { Fold(c.name) }
  function UriKey(c: RegisteredCollection): string { c.uri }

  /** `OrderBy(item => item.Name, StringComparer.OrdinalIgnoreCase)` alone. */
  function NameOrder(): (RegisteredCollection, RegisteredCollection) -> bool {
    Sorting.ByKey(NameKey, LexLe)
  }

  /** Two collections whose names are equal ignoring case. */
  predicate SameNames(cols: seq<RegisteredCollection>) {
    exists i, j :: 0 <= i < j < |cols| && EqualsIgnoreCase(cols[i].name, cols[j].name)
  }

  /** The ordering as written: `.ThenBy(item => item.Uri)` compares `Uri`
      objects with the default comparer, and `Uri` does not implement
      `IComparable`. The tie-break is consulted for every two collections
      whose names are equal ignoring case, so any such pair makes the sort
      throw; without one, the names alone decide. */
  function ServerOrderAsWritten(cols: seq<RegisteredCollection>): Result<seq<RegisteredCollection>> {
    if SameNames(cols) then Failure(ArgumentWithoutName(NotComparable))
    else Success(Sorting.SortBy(cols, NameOrder()))
  }

  /** Two collections of the same name on two servers, the usual
      `DefaultCollection`, make the menu's sort throw. */
  lemma ServerOrderAsWrittenThrows()
    ensures var cols := [RegisteredCollection("DefaultCollection", "http://alpha:8080/tfs/defaultcollection"),
                         RegisteredCollection("DefaultCollection", "http://beta:8080/tfs/defaultcollection")];
      ServerOrderAsWritten(cols) == Failure(ArgumentWithoutName(NotComparable))
  {
    var cols := [RegisteredCollection("DefaultCollection", "http://alpha:8080/tfs/defaultcollection"),
                 RegisteredCollection("DefaultCollection", "http://beta:8080/tfs/defaultcollection")];
    assert EqualsIgnoreCase(cols[0].name, cols[1].name);
  }

  /** The evidently intended order: by name ignoring case, then by the
      address as a string. */
  function ServerOrder(): (RegisteredCollection, RegisteredCollection) -> bool {
    Sorting.ThenBy(NameOrder(), Sorting.ByKey(UriKey, LexLe))
  }

  /** The name order compares the case-folded names. */
  lemma NameOrderMeaning(a: RegisteredCollection, b: RegisteredCollection)
    ensures NameOrder()(a, b) == LexLe(Fold(a.name), Fold(b.name))
  {
    assert NameKey(a) == Fold(a.name) && NameKey(b) == Fold(b.name);
    assert Sorting.ByKey(NameKey, LexLe)(a, b) == LexLe(NameKey(a), NameKey(b));
  }

  /** One collection precedes another when its folded name comes first, or
      the names fold alike and its address comes first. */
  lemma ServerOrderMeaning(a: RegisteredCollection, b: RegisteredCollection)
    ensures ServerOrder()(a, b) ==
      (LexLe(Fold(a.name), Fold(b.name)) && (!LexLe(Fold(b.name), Fold(a.name)) || LexLe(a.uri, b.uri)))
  {
    NameOrderMeaning(a, b);
    NameOrderMeaning(b, a);
    assert Sorting.ByKey(UriKey, LexLe)(a, b) == LexLe(a.uri, b.uri);
  }

  lemma ServerOrderTotal()
    ensures Sorting.TotalPreorder(ServerOrder())
  {
    Sorting.LexLeTotalOrder();
    Sorting.ByKeyTotalPreorder(NameKey, LexLe);
    Sorting.ByKeyTotalPreorder(UriKey, LexLe);
    Sorting.ThenByTotalPreorder(NameOrder(), Sorting.ByKey(UriKey, LexLe));
  }

  /** The intended order sorts any list of collections without failing: the
      result holds every collection as often as the input does, ordered by
      name ignoring case and equal names by address. */
  lemma ServerOrderSpec(cols: seq<RegisteredCollection>)
    ensures var r := Sorting.SortBy(cols, ServerOrder());
      && multiset(r) == multiset(cols)
      && forall i, j :: 0 <= i < j < |r| ==>
           LexLe(Fold(r[i].name), Fold(r[j].name))
           && (Fold(r[i].name) == Fold(r[j].name) ==> LexLe(r[i].uri, r[j].uri))
  {
    var r := Sorting.SortBy(cols, ServerOrder());
    ServerOrderTotal();
    Sorting.SortBySorted(cols, ServerOrder());
    forall i, j | 0 <= i < j < |r|
      ensures LexLe(Fold(r[i].name), Fold(r[j].name)) && (Fold(r[i].name) == Fold(r[j].name) ==> LexLe(r[i].uri, r[j].uri))
    {
      var a, b := Fold(r[i].name), Fold(r[j].name);
      assert ServerOrder()(r[i], r[j]);
      ServerOrderMeaning(r[i], r[j]);
      if a == b {
        Text.LexLeReflexive(a);
      }
    }
  }

  /** Where the code as written does not throw, it agrees with the intended
      order. */
  lemma ServerOrdersAgree(cols: seq<RegisteredCollection>)
    requires !SameNames(cols)
    ensures ServerOrderAsWritten(cols) == Success(Sorting.SortBy(cols, ServerOrder()))
  {
    SortByAgrees(cols);
  }

  /** Without two names equal ignoring case, the tie-break is never needed. */
  lemma {:induction false} SortByAgrees(cols: seq<RegisteredCollection>)
    requires !SameNames(cols)
    ensures Sorting.SortBy(cols, NameOrder()) == Sorting.SortBy(cols, ServerOrder())
  {
    if cols != [] {
      forall i, j | 0 <= i < j < |cols[1..]| ensures !EqualsIgnoreCase(cols[1..][i].name, cols[1..][j].name) {
        assert cols[1..][i] == cols[i + 1] && cols[1..][j] == cols[j + 1];
      }
      SortByAgrees(cols[1..]);
      var rest := Sorting.SortBy(cols[1..], NameOrder());
      forall k | 0 <= k < |rest| ensures Fold(rest[k].name) != Fold(cols[0].name) {
        assert rest[k] in multiset(cols[1..]);
        var m :| 0 <= m < |cols[1..]| && cols[1..][m] == rest[k];
        assert cols[m + 1] == rest[k];
      }
      InsertAgrees(cols[0], rest);
    }
  }

  /** Inserting a collection whose name no other shares ignoring case. */
  lemma {:induction false} InsertAgrees(x: RegisteredCollection, s: seq<RegisteredCollection>)
    requires forall k :: 0 <= k < |s| ==> Fold(s[k].name) != Fold(x.name)
    ensures Sorting.InsertBy(x, s, NameOrder()) == Sorting.InsertBy(x, s, ServerOrder())
  {
    if s != [] {
      var a, b := Fold(x.name), Fold(s[0].name);
      assert !(LexLe(a, b) && LexLe(b, a)) by {
        if LexLe(a, b) && LexLe(b, a) {
          Text.LexLeAntisymmetric(a, b);
        }
      }
      NameOrderMeaning(x, s[0]);
      ServerOrderMeaning(x, s[0]);
      InsertAgrees(x, s[1..]);
    }
  }

  // ---------------------------------------------------------------------
  // Menu items and tabs

  /** A server `MenuItem`: `Header`, `ToolTip`, `IsEnabled`, the server info
      in its `Tag` (null for none) and `IsChecked`. */
  class MenuItem {
    const header: string
    const toolTip: Option<string>
    const isEnabled: bool
    const tag: Option<ServerInfo>
    var isChecked: bool

    constructor (header: string, toolTip: Option<string>, isEnabled: bool, tag: Option<ServerInfo>)
      ensures this.header == header && this.toolTip == toolTip && this.isEnabled == isEnabled && this.tag == tag
      ensures !isChecked
    {
      this.header := header;
      this.toolTip := toolTip;
      this.isEnabled := isEnabled;
      this.tag := tag;
      isChecked := false;
    }
  }

  /** A content `TabItem`: the header text and server address of its
      `ContentTabViewModel`, and its content. */
  class TabItem {
    const headerText: string
    const tfsServerUri: string
    const content: TabContent

    constructor (headerText: string, tfsServerUri: string, content: TabContent)
      ensures this.headerText == headerText && this.tfsServerUri == tfsServerUri && this.content == content
    {
      this.headerText := headerText;
      this.tfsServerUri := tfsServerUri;
      this.content := content;
    }
  }

  /** No menu item occurs twice. */
  predicate Distinct(items: seq<MenuItem>) {
    forall i, j :: 0 <= i < j < |items| ==> items[i] != items[j]
  }

  /** `Items.OfType<MenuItem>().Where(item => item.IsChecked)`. */
  function CheckedItems(items: seq<MenuItem>): (r: seq<MenuItem>)
    reads items
    ensures forall k :: 0 <= k < |r| ==> r[k] in items && r[k].isChecked
    ensures forall k :: 0 <= k < |items| && items[k].isChecked ==> items[k] in r
  {
    if items == [] then []
    else (if items[0].isChecked then [items[0]] else []) + CheckedItems(items[1..])
  }

  predicate AtMostOneChecked(items: seq<MenuItem>)
    reads items
  {
    |CheckedItems(items)| <= 1
  }

  /** With no item checked, none is listed as checked. */
  lemma {:induction false} NoneChecked(items: seq<MenuItem>)
    requires forall k :: 0 <= k < |items| ==> !items[k].isChecked
    ensures CheckedItems(items) == []
  {
    if items != [] {
      NoneChecked(items[1..]);
    }
  }

  /** When only `x` may be checked, at most one distinct item is. */
  lemma {:induction false} OnlyOneChecked(items: seq<MenuItem>, x: MenuItem)
    requires Distinct(items)
    requires forall m :: m in items && m.isChecked ==> m == x
    ensures AtMostOneChecked(items)
  {
    if items != [] {
      OnlyOneChecked(items[1..], x);
      if items[0].isChecked {
        forall k | 0 <= k < |items[1..]| ensures !items[1..][k].isChecked {
          assert items[1..][k] == items[k + 1] != items[0];
        }
        NoneChecked(items[1..]);
      }
    }
  }

  /** The menu lists `cols` in order, one enabled, unchecked-or-checked item
      per collection, headed by its name, with its address as tool tip and
      its server info as tag. */
  predicate ServerMenuShows(items: seq<MenuItem>, cols: seq<RegisteredCollection>) {
    && |items| == |cols|
    && forall k :: 0 <= k < |items| ==>
         && items[k].header == cols[k].name
         && items[k].toolTip == Some(cols[k].uri)
         && items[k].isEnabled
         && items[k].tag == Some(ServerInfo(cols[k].name, cols[k].uri))
  }

  /** `ContentTabs.Items.Remove(tab)`: the first occurrence goes. */
  function RemoveFirst(tabs: seq<TabItem>, tab: TabItem): (r: seq<TabItem>)
    ensures tab !in tabs ==> r == tabs
    ensures tab in tabs ==> |r| == |tabs| - 1 && multiset(r) == multiset(tabs) - multiset{tab}
  {
    if tabs == [] then []
    else if tabs[0] == tab then
      assert tabs == [tabs[0]] + tabs[1..];
      tabs[1..]
    else
      assert tabs == [tabs[0]] + tabs[1..];
      [tabs[0]] + RemoveFirst(tabs[1..], tab)
  }

  function Min(a: int, b: int): int { if a <= b then a else b }

  /** The position of the first occurrence of `tab`. */
  function IndexOf(tabs: seq<TabItem>, tab: TabItem): (k: nat)
    requires tab in tabs
    ensures k < |tabs| && tabs[k] == tab && tab !in tabs[..k]
  {
    if tabs[0] == tab then 0 else 1 + IndexOf(tabs[1..], tab)
  }

  // ---------------------------------------------------------------------
  // The window

  class MainWindow {
    /** `ServerMenu.Items`. */
    var serverItems: seq<MenuItem>
    /** `ViewModel.SelectedServer`. */
    var selectedServer: Option<ServerInfo>
    /** `ContentTabs.Items` and `ContentTabs.SelectedItem`. */
    var contentTabs: seq<TabItem>
    var selectedTab: Option<TabItem>

    /** No menu item is listed twice, at most one is checked, and the
        selected tab is one of the tabs. */
    predicate Valid()
      reads this, serverItems
    {
      && Distinct(serverItems)
      && AtMostOneChecked(serverItems)
      && (selectedTab.Some? ==> selectedTab.value in contentTabs)
    }

    /** `MainWindow()`: the server menu is filled at once. */
    constructor (collections: seq<RegisteredCollection>)
      ensures Valid() && contentTabs == [] && selectedTab.None?
      ensures ServerMenu(collections)
    {
      serverItems := [];
      selectedServer := None;
      contentTabs := [];
      selectedTab := None;
      new;
      RefreshTfsServers(collections);
    }

    /** The server menu after a refresh from `collections`: the placeholder
        alone when there is none, otherwise one item per collection in the
        intended order, the first checked and selected. */
    predicate ServerMenu(collections: seq<RegisteredCollection>)
      reads this, serverItems
    {
      MenuOf(Sorting.SortBy(collections, ServerOrder()))
    }

    /** The server menu showing `ordered`. */
    predicate MenuOf(ordered: seq<RegisteredCollection>)
      reads this, serverItems
    {
      if ordered == [] then
        && |serverItems| == 1
        && serverItems[0].header == NoServersFound && serverItems[0].toolTip.None?
        && !serverItems[0].isEnabled && serverItems[0].tag.None? && !serverItems[0].isChecked
        && selectedServer.None?
      else
        && ServerMenuShows(serverItems, ordered)
        && selectedServer == Some(ServerInfo(ordered[0].name, ordered[0].uri))
        && (forall k :: 0 <= k < |serverItems| ==> (serverItems[k].isChecked <==> k == 0))
    }

    /** `CanExecuteMergeSearch`. */
    predicate CanExecuteMergeSearch()
      reads this
    {
      selectedServer.Some?
    }

    /** `CanCloseActiveContent`: `HasAnyContentTab()`. */
    predicate CanCloseActiveContent()
      reads this
    {
      selectedTab.Some?
    }

    /** `RefreshTfsServers()`: the menu is cleared and refilled, one item per
        registered collection, the first one is selected, and an empty menu
        gets a disabled placeholder. The collections are put in the intended
        order (see `ServerOrderAsWritten` for the code as written). */
    method RefreshTfsServers(collections: seq<RegisteredCollection>)
      modifies this`serverItems, this`selectedServer
      ensures Distinct(serverItems) && AtMostOneChecked(serverItems)
      ensures ServerMenu(collections)
    {
      var tfsCollections := Sorting.SortBy(collections, ServerOrder());
      var firstItem := FillServerMenu(tfsCollections);
      SelectFirstServer(tfsCollections, firstItem);
    }

    /** `SelectServer(firstItem)`, then the placeholder for an empty menu. */
    method SelectFirstServer(ordered: seq<RegisteredCollection>, firstItem: MenuItem?)
      requires ServerMenuShows(serverItems, ordered) && Distinct(serverItems)
      requires forall k :: 0 <= k < |serverItems| ==> !serverItems[k].isChecked
      requires firstItem == if ordered == [] then null else serverItems[0]
      modifies this`serverItems, this`selectedServer, serverItems
      ensures Distinct(serverItems) && AtMostOneChecked(serverItems)
      ensures MenuOf(ordered)
    {
      NoneChecked(serverItems);
      var _ := SelectServer(firstItem);
      if |serverItems| == 0 {
        var placeholder := new MenuItem(NoServersFound, None, false, None);
        serverItems := [placeholder];
      }
      if firstItem != null {
        OnlyOneChecked(serverItems, firstItem);
      } else {
        OnlyOneChecked(serverItems, serverItems[0]);
      }
    }

    /** `Items.Clear()` and the `foreach` that adds one server item per
        collection; the result is the first item added, null for none. */
    method FillServerMenu(cols: seq<RegisteredCollection>) returns (firstItem: MenuItem?)
      modifies this`serverItems
      ensures ServerMenuShows(serverItems, cols) && Distinct(serverItems)
      ensures forall k :: 0 <= k < |serverItems| ==> fresh(serverItems[k]) && !serverItems[k].isChecked
      ensures firstItem == if cols == [] then null else serverItems[0]
    {
      serverItems := [];
      firstItem := null;
      var i := 0;
      while i < |cols|
        invariant 0 <= i <= |cols|
        invariant ServerMenuShows(serverItems, cols[..i])
        invariant Distinct(serverItems)
        invariant forall k :: 0 <= k < |serverItems| ==> fresh(serverItems[k]) && !serverItems[k].isChecked
        invariant firstItem == if i == 0 then null else serverItems[0]
      {
        var c := cols[i];
        var serverItem := new MenuItem(c.name, Some(c.uri), true, Some(ServerInfo(c.name, c.uri)));
        if firstItem == null {
          firstItem := serverItem;
        }
        serverItems := serverItems + [serverItem];
        i := i + 1;
      }
      assert cols[..i] == cols;
    }

    /** `SelectServer(menuItem)`: null clears the selection. Otherwise the
        checked item, if any, is unchecked (two checked items make
        `SingleOrDefault` throw first), and an item carrying server info is
        checked and its server selected; one without clears the selection. */
    method SelectServer(menuItem: MenuItem?) returns (r: Result<()>)
      modifies this`selectedServer, serverItems, menuItem
      ensures menuItem == null ==>
        r == Success(()) && selectedServer.None? && forall m :: m in serverItems ==> m.isChecked == old(m.isChecked)
      ensures menuItem != null && old(|CheckedItems(serverItems)|) > 1 ==>
        && r == Failure(InvalidOperation(MoreThanOneMatch))
        && selectedServer == old(selectedServer)
        && menuItem.isChecked == old(menuItem.isChecked)
        && forall m :: m in serverItems ==> m.isChecked == old(m.isChecked)
      ensures menuItem != null && old(|CheckedItems(serverItems)|) <= 1 ==>
        && r == Success(())
        && selectedServer == menuItem.tag
        && (menuItem.tag.Some? ==> menuItem.isChecked)
        && (forall m :: m in serverItems ==> (m.isChecked <==> m == menuItem && menuItem.tag.Some?))
        && (menuItem !in serverItems && menuItem.tag.None? ==> menuItem.isChecked == old(menuItem.isChecked))
        && (Distinct(serverItems) ==> AtMostOneChecked(serverItems))
    {
      if menuItem == null {
        selectedServer := None;
        return Success(());
      }
      var checked := CheckedItems(serverItems);
      if |checked| > 1 {
        return Failure(InvalidOperation(MoreThanOneMatch));
      }
      if |checked| == 1 {
        checked[0].isChecked := false;
      }
      assert forall m :: m in serverItems ==> !m.isChecked;
      var serverInfo := menuItem.tag;
      if serverInfo.None? {
        selectedServer := None;
      } else {
        menuItem.isChecked := true;
        selectedServer := serverInfo;
      }
      if Distinct(serverItems) {
        OnlyOneChecked(serverItems, menuItem);
      }
      return Success(());
    }

    /** `AddContentTab(tabContentControl)`: needs a selected server and a
        content; the new tab, headed `"<header> @ <server name>"`, is added
        last and selected. */
    method AddContentTab(content: Option<TabContent>) returns (r: Result<TabItem>)
      requires Valid()
      modifies this`contentTabs, this`selectedTab
      ensures Valid()
      ensures !old(CanExecuteMergeSearch()) ==>
        r == Failure(InvalidOperation(ServerNotSelected)) && contentTabs == old(contentTabs) && selectedTab == old(selectedTab)
      ensures old(CanExecuteMergeSearch()) && content.None? ==>
        r == Failure(ArgumentNull("value")) && contentTabs == old(contentTabs) && selectedTab == old(selectedTab)
      ensures old(CanExecuteMergeSearch()) && content.Some? ==>
        && r.Success? && fresh(r.value)
        && r.value.headerText == content.value.header + " @ " + selectedServer.value.name
        && r.value.tfsServerUri == selectedServer.value.uri
        && r.value.content == content.value
        && contentTabs == old(contentTabs) + [r.value]
        && selectedTab == Some(r.value)
        && CanCloseActiveContent()
    {
      if selectedServer.None? {
        return Failure(InvalidOperation(ServerNotSelected));
      }
      if content.None? {
        return Failure(ArgumentNull("value"));
      }
      var server := selectedServer.value;
      var contentTab := new TabItem(content.value.header + " @ " + server.name, server.uri, content.value);
      contentTabs := contentTabs + [contentTab];
      selectedTab := Some(contentTab);
      return Success(contentTab);
    }

    /** `RemoveContentTab(contentTab)`: null does nothing; otherwise the
        first occurrence of the tab is removed. When the removed tab was the
        selected one, the tab control selects the tab that took its place, or
        the new last tab, or none when no tab is left. */
    method RemoveContentTab(contentTab: TabItem?)
      requires Valid()
      modifies this`contentTabs, this`selectedTab
      ensures Valid()
      ensures contentTab == null ==> contentTabs == old(contentTabs) && selectedTab == old(selectedTab)
      ensures contentTab != null ==> contentTabs == RemoveFirst(old(contentTabs), contentTab)
      ensures contentTab != null && old(selectedTab) != Some(contentTab) ==> selectedTab == old(selectedTab)
      ensures contentTab != null && old(selectedTab) == Some(contentTab) ==>
        selectedTab == if contentTabs == [] then None
                       else Some(contentTabs[Min(IndexOf(old(contentTabs), contentTab), |contentTabs| - 1)])
      ensures CanCloseActiveContent() <==> (old(CanCloseActiveContent()) && contentTabs != [])
    {
      if contentTab == null {
        return;
      }
      if contentTab !in contentTabs {
        return;
      }
      var k := IndexOf(contentTabs, contentTab);
      var remaining := RemoveFirst(contentTabs, contentTab);
      if selectedTab == Some(contentTab) {
        selectedTab := if remaining == [] then None
                       else if k < |remaining| then Some(remaining[k])
                       else Some(remaining[|remaining| - 1]);
      } else if selectedTab.Some? {
        StaysAfterRemoval(contentTabs, contentTab, selectedTab.value);
      }
      contentTabs := remaining;
    }

    /** `ExecuteCloseActiveContent`: the tab passed with the command, or else
        the selected one, is removed. */
    method CloseActiveContent(parameter: Option<TabItem>)
      requires Valid()
      modifies this`contentTabs, this`selectedTab
      ensures Valid()
      ensures parameter.Some? ==> contentTabs == RemoveFirst(old(contentTabs), parameter.value)
      ensures parameter.None? && old(selectedTab).Some? ==> contentTabs == RemoveFirst(old(contentTabs), old(selectedTab).value)
      ensures parameter.None? && old(selectedTab).None? ==> contentTabs == old(contentTabs)
    {
      var contentTab: TabItem? := if parameter.Some? then parameter.value
                                  else if selectedTab.Some? then selectedTab.value else null;
      RemoveContentTab(contentTab);
    }
  }

  /** A tab other than the one removed stays. */
  lemma {:induction false} StaysAfterRemoval(tabs: seq<TabItem>, tab: TabItem, x: TabItem)
    requires x in tabs && x != tab
    ensures x in RemoveFirst(tabs, tab)
  {
    if tabs[0] != tab && tabs[0] != x {
      StaysAfterRemoval(tabs[1..], tab, x);
    }
  }
}
