/** Chapter 4 (Data Structures: Objects and Arrays): the to-do queue kept in
    an array, and the exercises `range`, `sum`, `reverseArray` and
    `reverseArrayInPlace`. */
module DataStructures {
  import opened Wrappers

  /** A JavaScript array that is changed through a shared reference: `push`
      and `pop` use its end, `unshift` and `shift` its front. Reading past
      either end gives `undefined`, written None. */
  class JsArray<T> {
    var items: seq<T>

    constructor (items: seq<T>)
      ensures this.items == items
    {
      this.items := items;
    }

    method Push(x: T)
      modifies this
      ensures items == old(items) + [x]
    {
      items := items + [x];
    }

    method Pop() returns (x: Option<T>)
      modifies this
      ensures old(items) == [] ==> x == None && items == []
      ensures old(items) != [] ==> x == Some(old(items)[|old(items)| - 1]) && items == old(items)[..|old(items)| - 1]
    {
      if items == [] {
        return None;
      }
      x := Some(items[|items| - 1]);
      items := items[..|items| - 1];
    }

    method Unshift(x: T)
      modifies this
      ensures items == [x] + old(items)
    {
      items := [x] + items;
    }

    method Shift() returns (x: Option<T>)
      modifies this
      ensures old(items) == [] ==> x == None && items == []
      ensures old(items) != [] ==> x == Some(old(items)[0]) && items == old(items)[1..]
    {
      if items == [] {
        return None;
      }
      x := Some(items[0]);
      items := items[1..];
    }
  }

  // The to-do queue. The script's global `todoList` is passed in.

  /** `remember(task)`: the task joins the end of the queue. */
  method Remember(todoList: JsArray<string>, task: string)
    modifies todoList
    ensures todoList.items == old(todoList.items) + [task]
  {
    todoList.Push(task);
  }

  /** `rememberUrgently(task)`: the task goes to the front. */
  method RememberUrgently(todoList: JsArray<string>, task: string)
    modifies todoList
    ensures todoList.items == [task] + old(todoList.items)
  {
    todoList.Unshift(task);
  }

  /** `getTask()`: removes and returns the front task, or `undefined` when
      the queue is empty. The remaining tasks keep their order. */
  method GetTask(todoList: JsArray<string>) returns (task: Option<string>)
    modifies todoList
    ensures old(todoList.items) == [] ==> task == None && todoList.items == []
    ensures old(todoList.items) != [] ==> task == Some(old(todoList.items)[0])
    ensures old(todoList.items) != [] ==> todoList.items == old(todoList.items)[1..]
  {
    task := todoList.Shift();
  }

  /** The script's use of the queue: six tasks remembered, the front one
      got, then an urgent task put in front of the other five. */
  method TodoDemo() returns (first: Option<string>, remaining: seq<string>)
    ensures first == Some("groceries")
    ensures remaining == ["get lit", "game with the boys", "feed taro", "shower", "run", "pet taro"]
  {
    var todoList := new JsArray([]);
    Remember(todoList, "groceries");
    Remember(todoList, "game with the boys");
    Remember(todoList, "feed taro");
    Remember(todoList, "shower");
    Remember(todoList, "run");
    Remember(todoList, "pet taro");
    assert todoList.items == ["groceries", "game with the boys", "feed taro", "shower", "run", "pet taro"];
    first := GetTask(todoList);
    assert todoList.items == ["game with the boys", "feed taro", "shower", "run", "pet taro"];
    RememberUrgently(todoList, "get lit");
    remaining := todoList.items;
  }

  /** What `range(a, b, step)` returns: a, a + step, ... while the value has
      not passed b, in the direction of the step; nothing for step 0. */
  function RangeOf(a: int, b: int, step: int): seq<int>
    decreases if step > 0 then b - a + step else if step < 0 then a - b - step else 0
  {
    if step > 0 && a <= b then [a] + RangeOf(a + step, b, step)
    else if step < 0 && a >= b then [a] + RangeOf(a + step, b, step)
    else []
  }

  /** With a positive step: starts at a, goes up by step, stays at most b,
      and stops at the last value before passing b; empty when a > b. */
  lemma {:induction false} RangeUp(a: int, b: int, step: int)
    requires step > 0
    ensures var r := RangeOf(a, b, step);
      && (r == [] <==> a > b)
      && (r != [] ==> r[0] == a && r[|r| - 1] + step > b)
      && (forall k :: 0 <= k < |r| - 1 ==> r[k + 1] == r[k] + step)
      && (forall k :: 0 <= k < |r| ==> r[k] <= b)
    decreases b - a + step
  {
    if a <= b {
      RangeUp(a + step, b, step);
      var r, r' := RangeOf(a, b, step), RangeOf(a + step, b, step);
      assert r == [a] + r';
      assert forall k :: 1 <= k < |r| ==> r[k] == r'[k - 1];
    }
  }

  /** With a negative step: starts at a, goes down by step, stays at least
      b, and stops at the last value before passing b; empty when a < b. */
  lemma {:induction false} RangeDown(a: int, b: int, step: int)
    requires step < 0
    ensures var r := RangeOf(a, b, step);
      && (r == [] <==> a < b)
      && (r != [] ==> r[0] == a && r[|r| - 1] + step < b)
      && (forall k :: 0 <= k < |r| - 1 ==> r[k + 1] == r[k] + step)
      && (forall k :: 0 <= k < |r| ==> r[k] >= b)
    decreases a - b - step
  {
    if a >= b {
      RangeDown(a + step, b, step);
      var r, r' := RangeOf(a, b, step), RangeOf(a + step, b, step);
      assert r == [a] + r';
      assert forall k :: 1 <= k < |r| ==> r[k] == r'[k - 1];
    }
  }

  lemma RangeZeroStep(a: int, b: int)
    ensures RangeOf(a, b, 0) == []
  {
  }

  /** `range(a, b, step)`: a for loop in the direction of the sign of step. */
  method Range(a: int, b: int, step: int := 1) returns (arr: seq<int>)
    ensures arr == RangeOf(a, b, step)
  {
    arr := [];
    if step > 0 {
      var i := a;
      while i <= b
        invariant arr + RangeOf(i, b, step) == RangeOf(a, b, step)
        decreases b - i
      {
        arr := arr + [i];
        i := i + step;
      }
    } else if step < 0 {
      var i := a;
      while i >= b
        invariant arr + RangeOf(i, b, step) == RangeOf(a, b, step)
        decreases i - b
      {
        arr := arr + [i];
        i := i + step;
      }
    }
  }

  /** The arithmetic sum of a list of numbers. */
  function SumOf(xs: seq<int>): int
  {
    if xs == [] then 0 else SumOf(xs[..|xs| - 1]) + xs[|xs| - 1]
  }

  lemma {:induction false} SumOfAppend(xs: seq<int>, ys: seq<int>)
    ensures SumOf(xs + ys) == SumOf(xs) + SumOf(ys)
    decreases |ys|
  {
    if ys == [] {
      assert xs + ys == xs;
    } else {
      var n := |ys| - 1;
      assert (xs + ys)[..|xs + ys| - 1] == xs + ys[..n];
      SumOfAppend(xs, ys[..n]);
    }
  }

  /** `sum(item)`: adds every element with `+=`. */
  method Sum(item: seq<int>) returns (summation: int)
    ensures summation == SumOf(item)
  {
    summation := 0;
    for k := 0 to |item|
      invariant summation == SumOf(item[..k])
    {
      assert item[..k + 1][..k] == item[..k];
      summation := summation + item[k];
    }
    assert item[..|item|] == item;
  }

  /** The sum of a unit-step range is Gauss's formula, for a <= b + 1: the
      ranges from a to b and from a to a - 1 (empty). For a > b + 1 the range
      is also empty, but the formula no longer gives 0. */
  lemma {:induction false} SumOfUnitRange(a: int, b: int)
    requires a <= b + 1
    ensures 2 * SumOf(RangeOf(a, b, 1)) == (a + b) * (b - a + 1)
    decreases b - a
  {
    if a <= b {
      SumOfUnitRange(a + 1, b);
      SumOfAppend([a], RangeOf(a + 1, b, 1));
      assert SumOf([a]) == a;
    } else {
      assert RangeOf(a, b, 1) == [];
    }
  }

  /** The script's `sum(range(1, 10))`. */
  lemma SumOneToTen()
    ensures SumOf(RangeOf(1, 10, 1)) == 55
  {
    SumOfUnitRange(1, 10);
  }

  /** The elements of s, last first. */
  function Reversed<T>(s: seq<T>): (r: seq<T>)
    ensures |r| == |s|
  {
    if s == [] then [] else Reversed(s[1..]) + [s[0]]
  }

  lemma {:induction false} ReversedIndex<T>(s: seq<T>, k: nat)
    requires k < |s|
    ensures Reversed(s)[k] == s[|s| - 1 - k]
  {
    if k < |s| - 1 {
      ReversedIndex(s[1..], k);
    }
  }

  /** Reversing twice gives the list back. */
  lemma ReversedTwice<T>(s: seq<T>)
    ensures Reversed(Reversed(s)) == s
  {
    var r := Reversed(s);
    forall k | 0 <= k < |s|
      ensures Reversed(r)[k] == s[k]
    {
      ReversedIndex(r, k);
      ReversedIndex(s, |s| - 1 - k);
    }
  }

  /** `reverseArray(array)`: pops every element of its argument onto a new
      array, so the argument ends empty. */
  method ReverseArray<T>(arr: JsArray<T>) returns (reversed: seq<T>)
    modifies arr
    ensures reversed == Reversed(old(arr.items))
    ensures arr.items == []
  {
    reversed := [];
    ghost var original := arr.items;
    while |arr.items| > 0
      invariant |arr.items| <= |original|
      invariant arr.items == original[..|arr.items|]
      invariant reversed == Reversed(original[|arr.items|..])
      decreases |arr.items|
    {
      ghost var k := |arr.items| - 1;
      var x := arr.Pop();
      assert original[k..][1..] == original[k + 1..];
      reversed := reversed + [x.value];
    }
  }

  /** `reverseArrayInPlace(array)`: swaps the mirror positions from the
      outside in and returns the same array. */
  method ReverseArrayInPlace<T>(arr: array<T>) returns (result: array<T>)
    modifies arr
    ensures result == arr
    ensures arr[..] == Reversed(old(arr[..]))
  {
    var step := 0;
    var n := arr.Length;
    while step < n - 1 - step
      invariant 0 <= step <= n / 2 + 1
      invariant step <= n - step
      invariant forall k :: 0 <= k < step ==> arr[k] == old(arr[n - 1 - k]) && arr[n - 1 - k] == old(arr[k])
      invariant forall k :: step <= k < n - step ==> arr[k] == old(arr[k])
    {
      var switchValue := arr[0 + step];
      arr[0 + step] := arr[n - 1 - step];
      arr[n - 1 - step] := switchValue;
      step := step + 1;
    }
    forall k | 0 <= k < n
      ensures arr[..][k] == Reversed(old(arr[..]))[k]
    {
      ReversedIndex(old(arr[..]), k);
    }
    result := arr;
  }
}
