/** `BooleanToVisibilityConverter`: a binding converter that shows a
    `Visibility` for a boolean, with the visibility for each of the two
    values settable. The target type, parameter and culture of the
    converter interface are not used and are left out.
 */
module BooleanToVisibilityConverters {
  import opened Wrappers

  /** `System.Windows.Visibility`. */
  datatype Visibility = Visible | Hidden | Collapsed

  /** The `object` handed to the converter: a boxed boolean, `null`, or a
      value of some other type, named by its type. */
  datatype Boxed = Null | Bool(b: bool) | Other(typeName: string)

  const NotBoolean := "The value type must be Boolean."

  class BooleanToVisibilityConverter {
    /** `TrueVisibility` and `FalseVisibility`. */
    var trueVisibility: Visibility
    var falseVisibility: Visibility

    /** By default `true` shows and `false` hides while keeping the layout. */
    constructor ()
      ensures trueVisibility == Visible && falseVisibility == Hidden
    {
      trueVisibility := Visible;
      falseVisibility := Hidden;
    }

    method SetTrueVisibility(v: Visibility)
      modifies this
      ensures trueVisibility == v && falseVisibility == old(falseVisibility)
    {
      trueVisibility := v;
    }

    method SetFalseVisibility(v: Visibility)
      modifies this
      ensures falseVisibility == v && trueVisibility == old(trueVisibility)
    {
      falseVisibility := v;
    }

    /** `Convert`: only a boxed boolean converts; anything else, `null`
        included, is rejected as an invalid `value` argument. A boolean is
        shown with the visibility configured for it. */
    function Convert(value: Boxed): (r: Result<Visibility>)
      reads this
      ensures r.Success? <==> value.Bool?
      ensures !value.Bool? ==> r == Failure(Argument(NotBoolean, "value"))
      ensures value == Bool(true) ==> r == Success(trueVisibility)
      ensures value == Bool(false) ==> r == Success(falseVisibility)
    {
      match value
      case Bool(b) => Success(if b then trueVisibility else falseVisibility)
      case _ => Failure(Argument(NotBoolean, "value"))
    }

    /** `ConvertBack`: the conversion is one-way; every value is refused. */
    function ConvertBack(value: Visibility): (r: Result<Boxed>)
      ensures r.Failure? && r.error.NotSupported?
    {
      Failure(NotSupported)
    }

    /** Whenever the two configured visibilities differ, a shown visibility
        tells which value was bound: two values that both convert to the
        same visibility are the same boolean. */
    lemma ConvertOneToOne(v1: Boxed, v2: Boxed)
      requires trueVisibility != falseVisibility
      requires Convert(v1).Success? && Convert(v1) == Convert(v2)
      ensures v1 == v2
    {
    }
  }
}
