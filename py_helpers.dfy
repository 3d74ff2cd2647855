/** The two Python helpers: `stringToNum`, which converts a numeric string
    and answers None otherwise, and `sumList`, which adds up the numeric
    elements of a list and skips the rest. */
module PyHelpers {
  import opened Wrappers

  /** The Python values these helpers meet. A bool is Python's 0 or 1. */
  datatype PyValue =
    | PyInt(i: int)
    | PyBool(b: bool)
    | PyStr(s: string)
    | PyNone

  predicate IsDigit(c: char)
  {
    '0' <= c <= '9'
  }

  /** `str.isnumeric()` on ASCII text: non-empty and all digits. */
  predicate IsNumeric(s: string)
  {
    |s| > 0 && forall i :: 0 <= i < |s| ==> IsDigit(s[i])
  }

  function DigitValue(c: char): nat
    requires IsDigit(c)
  {
    (c as int) - ('0' as int)
  }

  /** `int(s)` on a digit string, read from the most significant digit. */
  function DigitsValue(s: string): nat
    requires forall i :: 0 <= i < |s| ==> IsDigit(s[i])
  {
    if s == [] then 0 else 10 * DigitsValue(s[..|s| - 1]) + DigitValue(s[|s| - 1])
  }

  /** `stringToNum(numString)`: `int(numString)` when `isnumeric()` holds;
      otherwise the function prints and falls off its end (None). A
      non-string has no `isnumeric`, and the AttributeError is caught: None. */
  function StringToNum(numString: PyValue): (r: Option<nat>)
    ensures r.Some? <==> numString.PyStr? && IsNumeric(numString.s)
  {
    match numString
    case PyStr(s) => if IsNumeric(s) then Some(DigitsValue(s)) else None
    case _ => None
  }

  /** The decimal numeral of n, with no leading zeros: the reference for
      what `int` reads back. */
  function Decimal(n: nat): (r: string)
    ensures |r| > 0 && forall i :: 0 <= i < |r| ==> IsDigit(r[i])
  {
    var d := ['0' + (n % 10) as char];
    if n < 10 then d else Decimal(n / 10) + d
  }

  /** stringToNum reads back every numeral. */
  lemma {:induction false} StringToNumOfDecimal(n: nat)
    ensures StringToNum(PyStr(Decimal(n))) == Some(n)
  {
    DigitsValueOfDecimal(n);
  }

  lemma {:induction false} DigitsValueOfDecimal(n: nat)
    ensures DigitsValue(Decimal(n)) == n
  {
    var r := Decimal(n);
    if n >= 10 {
      DigitsValueOfDecimal(n / 10);
      assert r[..|r| - 1] == Decimal(n / 10);
    }
  }

  lemma StringToNumRejects()
    ensures StringToNum(PyStr("")) == None
    ensures StringToNum(PyStr("-4")) == None
    ensures StringToNum(PyInt(4)) == None && StringToNum(PyNone) == None
    ensures StringToNum(PyStr("42")) == Some(42)
  {
    assert !IsDigit("-4"[0]);
    assert "42"[..1] == "4" && "4"[..0] == "";
    assert DigitsValue("4") == 4;
  }

  /** What `output += n` adds for one element, or None where Python raises
      TypeError (a string or None added to an int). */
  function NumericValue(v: PyValue): Option<int>
  {
    match v
    case PyInt(i) => Some(i)
    case PyBool(b) => Some(if b then 1 else 0)
    case _ => None
  }

  /** The sum of the elements that can be added to an int. */
  function NumericSum(xs: seq<PyValue>): int
  {
    if xs == [] then 0
    else NumericSum(xs[..|xs| - 1]) + (match NumericValue(xs[|xs| - 1]) case Some(v) => v case None => 0)
  }

  /** `sumList(list)`: a for loop whose `output += n` is wrapped in a
      try/except TypeError that skips the element. */
  method SumList(list: seq<PyValue>) returns (output: int)
    ensures output == NumericSum(list)
  {
    output := 0;
    for k := 0 to |list|
      invariant output == NumericSum(list[..k])
    {
      assert list[..k + 1][..k] == list[..k];
      var n := list[k];
      match NumericValue(n)
      case Some(v) =>
        output := output + v;
      case None =>
    }
    assert list[..|list|] == list;
  }

  /** Summing is additive over concatenation, so every element's contribution
      is counted once, and elements that raise TypeError add nothing. */
  lemma {:induction false} NumericSumAppend(xs: seq<PyValue>, ys: seq<PyValue>)
    ensures NumericSum(xs + ys) == NumericSum(xs) + NumericSum(ys)
    decreases |ys|
  {
    if ys != [] {
      var n := |ys| - 1;
      assert (xs + ys)[..|xs + ys| - 1] == xs + ys[..n];
      assert (xs + ys)[|xs + ys| - 1] == ys[n];
      NumericSumAppend(xs, ys[..n]);
    } else {
      assert xs + ys == xs;
    }
  }

  lemma NumericSumSkips(xs: seq<PyValue>, s: string)
    ensures NumericSum(xs + [PyStr(s)]) == NumericSum(xs)
    ensures NumericSum(xs + [PyNone]) == NumericSum(xs)
  {
    assert (xs + [PyStr(s)])[..|xs|] == xs;
    assert (xs + [PyNone])[..|xs|] == xs;
  }

  /** The script's call `sumList([2, 6, 12, True])`. */
  lemma SumListExample()
    ensures NumericSum([PyInt(2), PyInt(6), PyInt(12), PyBool(true)]) == 21
    ensures NumericSum([]) == 0
  {
    var xs := [PyInt(2), PyInt(6), PyInt(12), PyBool(true)];
    assert xs[..3] == [PyInt(2), PyInt(6), PyInt(12)];
    assert xs[..3][..2] == [PyInt(2), PyInt(6)];
    assert xs[..3][..2][..1] == [PyInt(2)];
    assert [PyInt(2)][..0] == [];
    assert NumericSum([PyInt(2)]) == 2;
    assert NumericSum([PyInt(2), PyInt(6)]) == 8;
    assert NumericSum([PyInt(2), PyInt(6), PyInt(12)]) == 20;
  }
}
