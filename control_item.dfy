/** `ControlItem<T>`: an item shown in a list or combo box together with its
    display text. Instances are immutable; two of them are equal when their
    items are, so a control can find an item again by value.
 */
module ControlItems {
  import opened Wrappers

  /** An argument of `Equals(object)`: `null`, an object of another type, or a `ControlItem<T>`. */
  datatype Obj<T(==)> = NullObject | OtherObject | Item(c: ControlItem<T>)

  /** `item` is `None` for a null `T`; equality of items is `T`'s own equality. */
  class ControlItem<T(==)> {
    const item: Option<T>
    const text: string

    /** `ControlItem(item, text)`: a null text is stored as empty. */
    constructor (item: Option<T>, text: Option<string>)
      ensures this.item == item
      ensures text.Some? ==> this.text == text.value
      ensures text.None? ==> this.text == ""
    {
      this.item := item;
      this.text := text.GetOr("");
    }

    /** `ControlItem(item)`: the text is `item.ToString()`, empty for a null
        item (or a null `ToString()` result). */
    constructor FromItem(item: Option<T>, toString: T -> Option<string>)
      ensures this.item == item
      ensures item.None? ==> text == ""
      ensures item.Some? ==> text == toString(item.value).GetOr("")
    {
      this.item := item;
      this.text := if item.None? then "" else toString(item.value).GetOr("");
    }

    /** `Equals(ControlItem<T>)`. */
    predicate Equals(other: ControlItem?<T>)
      ensures Equals(other) <==> other != null && other.item == item
      ensures other == this ==> Equals(other)
    {
      if other == null then false
      else if other == this then true
      else item == other.item
    }

    /** `Equals(object)`: the argument as a `ControlItem<T>`, `null` for other types. */
    predicate EqualsObject(obj: Obj<T>)
      ensures EqualsObject(obj) <==> obj.Item? && obj.c.item == item
    {
      Equals(if obj.Item? then obj.c else null)
    }

    /** `GetHashCode()`: 0 for a null item, otherwise the item's hash. */
    function GetHashCode(hash: T -> int): (h: int)
      ensures item.None? ==> h == 0
      ensures item.Some? ==> h == hash(item.value)
    {
      if item.None? then 0 else hash(item.value)
    }

    /** `ToString()`: the display text, never null. */
    function ToString(): (s: string)
      ensures s == text
    {
      text
    }
  }

  /** Equal control items have equal hash codes, for any hash of `T`. */
  lemma EqualsConsistentWithHash<T>(a: ControlItem<T>, b: ControlItem<T>, hash: T -> int)
    requires a.Equals(b)
    ensures a.GetHashCode(hash) == b.GetHashCode(hash)
  {
  }

  /** `Equals` is an equivalence on non-null control items. */
  lemma EqualsEquivalence<T>(a: ControlItem<T>, b: ControlItem<T>, c: ControlItem<T>)
    ensures a.Equals(a)
    ensures a.Equals(b) ==> b.Equals(a)
    ensures a.Equals(b) && b.Equals(c) ==> a.Equals(c)
  {
  }
}
