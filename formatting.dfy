/** `Int32.ToString("D")` and `string.Join`, each with the parser that undoes
    it, so that the strings the program builds can be shown to keep all
    their information.
 */
module Formatting {
  import opened Wrappers

  predicate IsDigit(c: char) {
    '0' <= c <= '9'
  }

  predicate AllDigits(s: string) {
    forall i :: 0 <= i < |s| ==> IsDigit(s[i])
  }

  function DigitChar(d: nat): (c: char)
    requires d < 10
    ensures IsDigit(c)
  {
    (d + '0' as int) as char
  }

  function DigitValue(c: char): (d: nat)
    requires IsDigit(c)
    ensures d < 10 && DigitChar(d) == c
  {
    c as int - '0' as int
  }

  /** The decimal digits of `n`, most significant first, without leading zeros. */
  function NatDigits(n: nat): (r: string)
    ensures |r| > 0 && AllDigits(r)
    decreases n
  {
    if n < 10 then [DigitChar(n)] else NatDigits(n / 10) + [DigitChar(n % 10)]
  }

  /** `n.ToString("D")`: an optional minus sign, then the digits. */
  function DecimalString(n: int): (r: string)
    ensures |r| > 0 && ',' !in r && r[0] != ' '
  {
    if n < 0 then "-" + NatDigits(-n) else NatDigits(n)
  }

  /** The value of a non-empty digit string. */
  function ParseDigits(s: string): nat
    requires |s| > 0 && AllDigits(s)
    decreases |s|
  {
    if |s| == 1 then DigitValue(s[0])
    else ParseDigits(s[..|s| - 1]) * 10 + DigitValue(s[|s| - 1])
  }

  /** Reads back what `DecimalString` writes; `None` for anything else. */
  function ParseDecimal(s: string): Option<int> {
    if |s| > 1 && s[0] == '-' && AllDigits(s[1..]) then Some(0 - ParseDigits(s[1..]))
    else if |s| > 0 && AllDigits(s) then Some(ParseDigits(s))
    else None
  }

  lemma {:induction false} NatDigitsRoundTrip(n: nat)
    ensures ParseDigits(NatDigits(n)) == n
    decreases n
  {
    if n >= 10 {
      NatDigitsRoundTrip(n / 10);
      var s := NatDigits(n);
      assert s[..|s| - 1] == NatDigits(n / 10);
    }
  }

  /** `ToString("D")` loses nothing: parsing it gives the number back. */
  lemma DecimalRoundTrip(n: int)
    ensures ParseDecimal(DecimalString(n)) == Some(n)
  {
    if n < 0 {
      NatDigitsRoundTrip(-n);
      assert DecimalString(n)[1..] == NatDigits(-n);
    } else {
      NatDigitsRoundTrip(n);
      assert IsDigit(DecimalString(n)[0]);
    }
  }

  // ---------------------------------------------------------------------
  // string.Join and its inverse

  /** `string.Join(sep, parts)`. */
  function Join(sep: string, parts: seq<string>): string
    decreases |parts|
  {
    if |parts| == 0 then ""
    else if |parts| == 1 then parts[0]
    else parts[0] + sep + Join(sep, parts[1..])
  }

  /** The pieces of `s` between the occurrences of `sep` (at least one piece). */
  function SplitAt(s: string, sep: char): (r: seq<string>)
    ensures |r| >= 1
    decreases |s|
  {
    if s == [] then [[]]
    else
      var rest := SplitAt(s[1..], sep);
      if s[0] == sep then [[]] + rest else [[s[0]] + rest[0]] + rest[1..]
  }

  lemma {:induction false} SplitWithoutSeparator(a: string, sep: char, b: string)
    requires sep !in a
    ensures SplitAt(a + b, sep) == [a + SplitAt(b, sep)[0]] + SplitAt(b, sep)[1..]
    decreases |a|
  {
    if a != [] {
      SplitWithoutSeparator(a[1..], sep, b);
      assert (a + b)[1..] == a[1..] + b;
      assert [a[0]] + (a[1..] + SplitAt(b, sep)[0]) == a + SplitAt(b, sep)[0];
    } else {
      assert a + b == b;
      assert a + SplitAt(b, sep)[0] == SplitAt(b, sep)[0];
    }
  }

  /** `", "` between the parts; none of them contains a comma. */
  function JoinedWithCommas(parts: seq<string>): string {
    Join(", ", parts)
  }

  /** The parts after the first, as `SplitAt(_, ',')` sees them: each keeps the
      space that followed its comma. */
  function Spaced(parts: seq<string>): seq<string>
    decreases |parts|
  {
    if parts == [] then [] else [" " + parts[0]] + Spaced(parts[1..])
  }

  /** A comma and a space after a comma-free prefix end its piece, and the
      space starts the next one. */
  lemma SplitCommaSpace(first: string, tail: string)
    requires ',' !in first
    ensures SplitAt(first + ", " + tail, ',') == [first, " " + SplitAt(tail, ',')[0]] + SplitAt(tail, ',')[1..]
  {
    var y := " " + tail;
    var x := [','] + y;
    assert first + ", " + tail == first + x;
    assert SplitAt(first + x, ',') == [first + SplitAt(x, ',')[0]] + SplitAt(x, ',')[1..] by {
      SplitWithoutSeparator(first, ',', x);
    }
    assert SplitAt(x, ',') == [[]] + SplitAt(y, ',') by {
      assert x[1..] == y;
    }
    assert SplitAt(y, ',') == [" " + SplitAt(tail, ',')[0]] + SplitAt(tail, ',')[1..] by {
      SplitWithoutSeparator(" ", ',', tail);
    }
    assert first + [] == first;
  }

  /** One more part in front of a joined list adds one piece in front of
      its split. */
  lemma SplitJoinedStep(parts: seq<string>)
    requires |parts| > 1 && ',' !in parts[0]
    requires SplitAt(Join(", ", parts[1..]), ',') == [parts[1]] + Spaced(parts[2..])
    ensures SplitAt(JoinedWithCommas(parts), ',') == [parts[0]] + Spaced(parts[1..])
  {
    var rest := parts[1..];
    var tail := Join(", ", rest);
    SplitCommaSpace(parts[0], tail);
    assert JoinedWithCommas(parts) == parts[0] + ", " + tail;
    assert rest[1..] == parts[2..];
  }

  lemma {:induction false} SplitJoined(parts: seq<string>)
    requires |parts| > 0
    requires forall i :: 0 <= i < |parts| ==> ',' !in parts[i]
    ensures SplitAt(JoinedWithCommas(parts), ',') == [parts[0]] + Spaced(parts[1..])
    decreases |parts|
  {
    if |parts| == 1 {
      SplitWithoutSeparator(parts[0], ',', []);
      assert parts[0] + [] == parts[0];
    } else {
      SplitJoined(parts[1..]);
      assert parts[1..][1..] == parts[2..];
      SplitJoinedStep(parts);
    }
  }

  /** Reads back a list written by `IdListString`. */
  function ParseIdList(s: string): Option<seq<int>> {
    if s == "" then Some([])
    else
      var pieces := SplitAt(s, ',');
      match (ParseDecimal(pieces[0]), ParseSpacedIds(pieces[1..]))
      case (Some(first), Some(rest)) => Some([first] + rest)
      case _ => None
  }

  function ParseSpacedIds(pieces: seq<string>): Option<seq<int>>
    decreases |pieces|
  {
    if pieces == [] then Some([])
    else if |pieces[0]| == 0 || pieces[0][0] != ' ' then None
    else match (ParseDecimal(pieces[0][1..]), ParseSpacedIds(pieces[1..]))
      case (Some(first), Some(rest)) => Some([first] + rest)
      case _ => None
  }

  /** The decimal images of `ids`. */
  function DecimalStrings(ids: seq<int>): (r: seq<string>)
    ensures |r| == |ids|
    ensures forall i :: 0 <= i < |ids| ==> r[i] == DecimalString(ids[i])
  {
    seq(|ids|, i requires 0 <= i < |ids| => DecimalString(ids[i]))
  }

  /** `string.Join(", ", ids.Select(id => id.ToString("D")))`. */
  function IdListString(ids: seq<int>): string {
    JoinedWithCommas(DecimalStrings(ids))
  }

  lemma {:induction false} ParseSpacedIdsRoundTrip(ids: seq<int>)
    ensures ParseSpacedIds(Spaced(DecimalStrings(ids))) == Some(ids)
    decreases |ids|
  {
    if ids != [] {
      var pieces := Spaced(DecimalStrings(ids));
      var first := DecimalString(ids[0]);
      assert |pieces[0]| > 0 && pieces[0][0] == ' ' && pieces[0][1..] == first by {
        assert DecimalStrings(ids)[0] == first;
        assert pieces[0] == " " + first;
      }
      assert ParseDecimal(first) == Some(ids[0]) by {
        DecimalRoundTrip(ids[0]);
      }
      assert ParseSpacedIds(pieces[1..]) == Some(ids[1..]) by {
        ParseSpacedIdsRoundTrip(ids[1..]);
        assert DecimalStrings(ids)[1..] == DecimalStrings(ids[1..]);
        assert pieces[1..] == Spaced(DecimalStrings(ids[1..]));
      }
      assert ids == [ids[0]] + ids[1..];
    }
  }

  /** The id list string loses nothing: it is empty exactly for no ids, and
      parsing it gives the ids back, in order. */
  lemma IdListRoundTrip(ids: seq<int>)
    ensures IdListString(ids) == "" <==> ids == []
    ensures ParseIdList(IdListString(ids)) == Some(ids)
  {
    var parts := DecimalStrings(ids);
    if ids != [] {
      assert IdListString(ids)[..|parts[0]|] == parts[0] by {
        if |parts| > 1 { assert IdListString(ids) == parts[0] + (", " + Join(", ", parts[1..])); }
      }
      SplitJoined(parts);
      DecimalRoundTrip(ids[0]);
      assert parts[1..] == DecimalStrings(ids[1..]);
      ParseSpacedIdsRoundTrip(ids[1..]);
      assert ids == [ids[0]] + ids[1..];
    }
  }
}
