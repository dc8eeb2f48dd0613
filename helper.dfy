/** `Helper`: the extension methods the windows and controls share. The
    version-control server is a parameter; WPF elements are reduced to
    whether they are a `Window` and their logical parent.
 */
module Helper {
  import opened Wrappers
  import Text

  /** `EnsureNotNull()`: the value itself, or `ArgumentNullException` for null. */
  function EnsureNotNull<T>(value: Option<T>): (r: Result<T>)
    ensures value.None? ==> r == Failure(ArgumentNull("value"))
    ensures value.Some? ==> r == Success(value.value)
  {
    match value
    case None => Failure(ArgumentNull("value"))
    case Some(v) => Success(v)
  }

  /** An `ICollection<T>` that a control or a view model owns and refills. */
  class Collection<T> {
    var items: seq<T>

    constructor ()
      ensures items == []
    {
      items := [];
    }

    method Clear()
      modifies this
      ensures items == []
    {
      items := [];
    }

    method Add(item: T)
      modifies this
      ensures items == old(items) + [item]
    {
      items := items + [item];
    }

    function Count(): (n: nat)
      reads this
      ensures n == |items|
    {
      |items|
    }
  }

  /** `ReplaceContents(collection, newContents)`: both arguments are checked
      before anything changes; then the collection is cleared and refilled
      one item at a time, and the same collection is returned. */
  method ReplaceContents<T>(collection: Collection?<T>, newContents: Option<seq<T>>) returns (r: Result<Collection<T>>)
    modifies collection
    ensures collection == null ==> r == Failure(ArgumentNull("collection"))
    ensures collection != null && newContents.None? ==>
      r == Failure(ArgumentNull("newContents")) && collection.items == old(collection.items)
    ensures collection != null && newContents.Some? ==>
      r == Success(collection) && collection.items == newContents.value
  {
    if collection == null {
      return Failure(ArgumentNull("collection"));
    }
    if newContents.None? {
      return Failure(ArgumentNull("newContents"));
    }
    var contents := newContents.value;
    collection.Clear();
    var i := 0;
    while i < |contents|
      invariant 0 <= i <= |contents|
      invariant collection.items == contents[..i]
    {
      collection.Add(contents[i]);
      i := i + 1;
    }
    return Success(collection);
  }

  /** `AsCollection()`: the sequence holding just `instance`. */
  function AsCollection<T>(instance: T): (r: seq<T>)
    ensures |r| == 1 && r[0] == instance
  {
    [instance]
  }

  /** `ServerItemExistsSafe(server, path, itemType)`. `serverItemExists` is
      the server's answer, `None` when the call throws. */
  function ServerItemExistsSafe<S, K>(server: Option<S>, path: Option<string>, itemType: K,
                                      serverItemExists: (S, string, K) -> Option<bool>): (r: Result<bool>)
    ensures server.None? ==> r == Failure(ArgumentNull("versionControlServer"))
    ensures server.Some? ==> r.Success?
    ensures r == Success(true) <==>
      server.Some? && !Text.IsNullOrWhiteSpace(path) && serverItemExists(server.value, path.value, itemType) == Some(true)
  {
    match server
    case None => Failure(ArgumentNull("versionControlServer"))
    case Some(s) =>
      if Text.IsNullOrWhiteSpace(path) then Success(false)
      else match serverItemExists(s, path.value, itemType)
        case None => Success(false)
        case Some(b) => Success(b)
  }

  // ---------------------------------------------------------------------
  // GetWindow

  /** A `FrameworkElement`: whether it is a `Window`, and its `Parent` when
      that is a `FrameworkElement` (null otherwise). */
  class Element {
    const isWindow: bool
    const parent: Element?

    constructor (isWindow: bool, parent: Element?)
      ensures this.isWindow == isWindow && this.parent == parent
    {
      this.isWindow := isWindow;
      this.parent := parent;
    }
  }

  /** `chain` lists `e`, its parent, its parent's parent, ..., up to the
      element without a parent. The logical tree has no cycles, so every
      element has such a chain. */
  ghost predicate IsParentChain(e: Element, chain: seq<Element>) {
    && |chain| > 0
    && chain[0] == e
    && (forall i :: 0 <= i < |chain| - 1 ==> chain[i].parent == chain[i + 1])
    && chain[|chain| - 1].parent == null
  }

  /** The first window in `chain`, or null. */
  function FirstWindow(chain: seq<Element>): (r: Element?)
    ensures r != null ==>
      && r.isWindow
      && exists i :: 0 <= i < |chain| && chain[i] == r && (forall j :: 0 <= j < i ==> !chain[j].isWindow)
    ensures r == null <==> forall i :: 0 <= i < |chain| ==> !chain[i].isWindow
  {
    if chain == [] then null
    else if chain[0].isWindow then chain[0]
    else
      var r := FirstWindow(chain[1..]);
      if r == null then null
      else
        var i :| 0 <= i < |chain[1..]| && chain[1..][i] == r && forall j :: 0 <= j < i ==> !chain[1..][j].isWindow;
        assert chain[i + 1] == r && forall j :: 0 <= j < i + 1 ==> !chain[j].isWindow;
        r
  }

  /** `GetWindow(control)`: walks up the parents from the control itself and
      returns the nearest `Window`, or null when the chain has none. */
  method GetWindow(control: Element?, ghost chain: seq<Element>) returns (r: Result<Element?>)
    requires control != null ==> IsParentChain(control, chain)
    ensures control == null ==> r == Failure(ArgumentNull("control"))
    ensures control != null ==> r == Success(FirstWindow(chain))
  {
    if control == null {
      return Failure(ArgumentNull("control"));
    }
    var current: Element? := control;
    ghost var k := 0;
    while current != null
      invariant 0 <= k <= |chain|
      invariant k < |chain| ==> current == chain[k]
      invariant k == |chain| ==> current == null
      invariant FirstWindow(chain) == FirstWindow(chain[k..])
      decreases |chain| - k
    {
      if current.isWindow {
        return Success(current);
      }
      current := current.parent;
      k := k + 1;
    }
    return Success(null);
  }

  // ---------------------------------------------------------------------
  // IsThreadAbort

  /** The exception types the program tells apart. */
  datatype ExceptionKind = ThreadAbort | ThreadInterrupted | OtherException(typeName: string)

  /** `IsThreadAbort()`: true for `ThreadAbortException` and `ThreadInterruptedException`. */
  predicate IsThreadAbort(e: ExceptionKind)
    ensures IsThreadAbort(e) <==> !e.OtherException?
  {
    e.ThreadAbort? || e.ThreadInterrupted?
  }
}
