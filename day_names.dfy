/** Chapter 10 (Modules): the exported `dayName` / `dayNumber` pair over a
    constant array of names. */
module DayNames {
  import opened Wrappers

  const Names: seq<string> := ["Sunday", "Monday", "Tuesday", "Wednesday",
                               "Thursday", "Friday", "Saturday"]

  /** `names[number]`: undefined (None) outside the array. */
  function DayName(number: int): (r: Option<string>)
    ensures r.Some? <==> 0 <= number < 7
    ensures r.Some? ==> r.value == Names[number]
  {
    if 0 <= number < |Names| then Some(Names[number]) else None
  }

  /** `Array.prototype.indexOf`: the first position of x, or -1. */
  function IndexOf<T(==)>(s: seq<T>, x: T): (r: int)
    ensures -1 <= r < |s|
    ensures r == -1 <==> x !in s
    ensures r >= 0 ==> s[r] == x && x !in s[..r]
  {
    if s == [] then -1
    else if s[0] == x then 0
    else
      var k := IndexOf(s[1..], x);
      if k == -1 then -1 else k + 1
  }

  /** `names.indexOf(name)`. */
  function DayNumber(name: string): (r: int)
    ensures r == -1 <==> name !in Names
    ensures r != -1 ==> 0 <= r < 7 && Names[r] == name
  {
    IndexOf(Names, name)
  }

  lemma NamesDistinct()
    ensures forall i, j :: 0 <= i < j < |Names| ==> Names[i] != Names[j]
  {
    assert Names[0][1] == 'u' && Names[6][1] == 'a';
    assert Names[2][1] == 'u' && Names[4][1] == 'h';
  }

  /** dayNumber undoes dayName on 0 .. 6. */
  lemma DayNumberOfDayName(n: int)
    requires 0 <= n < 7
    ensures DayNumber(DayName(n).value) == n
  {
    NamesDistinct();
  }

  /** dayName undoes dayNumber on every name in the array. */
  lemma DayNameOfDayNumber(s: string)
    requires s in Names
    ensures DayName(DayNumber(s)) == Some(s)
  {
  }

  lemma DayNameEnds()
    ensures DayName(0) == Some("Sunday") && DayName(6) == Some("Saturday")
    ensures DayName(7) == None && DayNumber("Someday") == -1
  {
    assert "Someday" !in Names by {
      assert "Someday"[1] == 'o';
    }
  }
}
