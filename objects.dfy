/** Chapter 6 (The Secret Life of Objects): classes with validating setters,
    private fields, a vector value type and the `Group` set exercise. */
module SecretLifeOfObjects {

  /** `class Rectangle`: its setters ignore a value that is not positive. */
  class Rectangle {
    var width: int
    var height: int

    /** The constructor stores both sides unchecked. */
    constructor (width: int, height: int)
      ensures this.width == width && this.height == height
    {
      this.width := width;
      this.height := height;
    }

    /** `set width(newWidth)`. */
    method SetWidth(newWidth: int)
      modifies this`width
      ensures width == if newWidth > 0 then newWidth else old(width)
    {
      if newWidth > 0 {
        width := newWidth;
      }
    }

    /** `set height(newHeight)`. */
    method SetHeight(newHeight: int)
      modifies this`height
      ensures height == if newHeight > 0 then newHeight else old(height)
    {
      if newHeight > 0 {
        height := newHeight;
      }
    }

    /** `get area()`. */
    function Area(): (r: int)
      reads this
      ensures width > 0 && height > 0 ==> r > 0
    {
      width * height
    }
  }

  /** The script after the class: `new Rectangle(10, 20)`, then
      `rect.width = 30`. The script's commented-out `rect.height = -10` is
      said there to throw; the setter in fact only logs an error and keeps
      the height, which is what the last call here shows. */
  method RectangleDemo() returns (width: int, height: int, area: int)
    ensures width == 30 && height == 20 && area == 600
  {
    var rect := new Rectangle(10, 20);
    rect.SetWidth(30);
    rect.SetHeight(-10);
    width, height, area := rect.width, rect.height, rect.Area();
  }

  /** One assignment through a setter: `rect.width = value` or
      `rect.height = value`. */
  datatype SetterCall = WidthTo(value: int) | HeightTo(value: int)

  /** Once both sides are positive, no sequence of setter calls can make the
      area non-positive: the calls are made one by one, in order. */
  method SettersKeepAreaPositive(rect: Rectangle, calls: seq<SetterCall>)
    requires rect.width > 0 && rect.height > 0
    modifies rect
    ensures rect.width > 0 && rect.height > 0 && rect.Area() > 0
  {
    for i := 0 to |calls|
      invariant rect.width > 0 && rect.height > 0
    {
      match calls[i]
      case WidthTo(w) => rect.SetWidth(w);
      case HeightTo(h) => rect.SetHeight(h);
    }
  }

  /** `class Person`: `setName` ignores a falsy name; for a string that is
      the empty string. */
  class Person {
    var name: string
    var age: int

    constructor (name: string, age: int)
      ensures this.name == name && this.age == age
    {
      this.name := name;
      this.age := age;
    }

    method GetName() returns (r: string)
      ensures r == name
    {
      r := name;
    }

    method SetName(newName: string)
      modifies this`name
      ensures name == if newName != "" then newName else old(name)
    {
      if newName != "" {
        name := newName;
      }
    }
  }

  /** `class Car` with the strictly private `#make` and `#model`, which
      nothing can change after construction. */
  class Car {
    const make: string
    const model: string

    constructor (make: string, model: string)
      ensures GetMake() == make && GetModel() == model
    {
      this.make := make;
      this.model := model;
    }

    function GetMake(): string
    {
      make
    }

    function GetModel(): string
    {
      model
    }
  }

  /** `class Vec`: `plus` and `minus` build a new vector from the two
      operands, which are values and so stay as they were. */
  datatype Vec = Vec(x: int, y: int)
  {
    function Plus(other: Vec): (r: Vec)
      ensures r.Minus(other) == this
    {
      Vec(x + other.x, y + other.y)
    }

    function Minus(other: Vec): (r: Vec)
      ensures r.x + other.x == x && r.y + other.y == y
    {
      Vec(x - other.x, y - other.y)
    }
  }

  /** minus undoes plus, and plus does not depend on the operands' order. */
  lemma PlusMinusInverse(a: Vec, b: Vec)
    ensures a.Plus(b).Minus(b) == a
    ensures a.Minus(b).Plus(b) == a
    ensures a.Plus(b) == b.Plus(a)
  {
  }

  /** The script's calls: (1, 2) + (2, 3) and (1, 2) - (2, 3). */
  lemma VecExamples()
    ensures Vec(1, 2).Plus(Vec(2, 3)) == Vec(3, 5)
    ensures Vec(1, 2).Minus(Vec(2, 3)) == Vec(-1, -1)
  {
  }

  /** No value occurs twice. */
  ghost predicate NoDuplicates<T>(s: seq<T>)
  {
    forall i, j :: 0 <= i < j < |s| ==> s[i] != s[j]
  }

  /** `elements.filter(element => element !== n)`. */
  function Without<T(==)>(s: seq<T>, n: T): (r: seq<T>)
    ensures n !in r
    ensures forall x :: x in r ==> x in s
    ensures forall x :: x in s && x != n ==> x in r
    ensures |r| <= |s|
  {
    if s == [] then []
    else if s[0] == n then Without(s[1..], n)
    else [s[0]] + Without(s[1..], n)
  }

  /** In a duplicate-free list the filter takes out exactly the one position
      holding n and keeps every other element in its order. */
  lemma {:induction false} WithoutRemovesOnePosition<T>(s: seq<T>, i: nat)
    requires NoDuplicates(s) && i < |s|
    ensures Without(s, s[i]) == s[..i] + s[i + 1..]
  {
    if i == 0 {
      WithoutAbsent(s[1..], s[0]);
    } else {
      assert NoDuplicates(s[1..]);
      WithoutRemovesOnePosition(s[1..], i - 1);
      assert s[1..][i - 1] == s[i];
      assert s[..i] == [s[0]] + s[1..][..i - 1];
      assert s[i + 1..] == s[1..][i..];
    }
  }

  lemma {:induction false} WithoutAbsent<T>(s: seq<T>, n: T)
    requires n !in s
    ensures Without(s, n) == s
  {
    if s != [] {
      WithoutAbsent(s[1..], n);
    }
  }

  lemma {:induction false} WithoutKeepsNoDuplicates<T>(s: seq<T>, n: T)
    requires NoDuplicates(s)
    ensures NoDuplicates(Without(s, n))
  {
    if n in s {
      var i :| 0 <= i < |s| && s[i] == n;
      WithoutRemovesOnePosition(s, i);
    } else {
      WithoutAbsent(s, n);
    }
  }

  /** The distinct values of s in order of first occurrence. */
  function Distinct<T(==)>(s: seq<T>): (r: seq<T>)
  {
    if s == [] then []
    else
      var d := Distinct(s[..|s| - 1]);
      if s[|s| - 1] in d then d else d + [s[|s| - 1]]
  }

  /** Distinct keeps every value, drops nothing else, and repeats nothing. */
  lemma {:induction false} DistinctIsSetOfValues<T>(s: seq<T>)
    ensures forall x :: x in Distinct(s) <==> x in s
    ensures NoDuplicates(Distinct(s))
  {
    if s != [] {
      var n := |s| - 1;
      DistinctIsSetOfValues(s[..n]);
      assert s == s[..n] + [s[n]];
    }
  }

  /** The index of the first occurrence of x in s, or |s| when x is absent.
      This is the notion of `DayNames.IndexOf`, which answers -1 instead of
      |s| for an absent value; here |s| keeps the result a `nat`, so that
      first occurrences of present values compare directly. */
  function FirstIndex<T(==)>(s: seq<T>, x: T): (r: nat)
    ensures r <= |s|
    ensures r == |s| <==> x !in s
    ensures r < |s| ==> s[r] == x && x !in s[..r]
  {
    if s == [] then 0
    else if s[0] == x then 0
    else
      var r := 1 + FirstIndex(s[1..], x);
      assert r < |s| ==> s[..r] == [s[0]] + s[1..][..r - 1];
      r
  }

  /** A position holding x with no x before it is the first index of x. */
  lemma FirstIndexUnique<T>(s: seq<T>, x: T, k: nat)
    requires k < |s| && s[k] == x && x !in s[..k]
    ensures FirstIndex(s, x) == k
  {
  }

  /** Appending to a sequence does not move the first occurrence of a value
      that was already there. */
  lemma FirstIndexPrefix<T>(s: seq<T>, n: nat, x: T)
    requires n <= |s| && x in s[..n]
    ensures FirstIndex(s, x) == FirstIndex(s[..n], x)
  {
    var k := FirstIndex(s[..n], x);
    assert s[..k] == s[..n][..k];
    FirstIndexUnique(s, x, k);
  }

  lemma DistinctMember<T>(s: seq<T>, x: T)
    requires x in Distinct(s)
    ensures x in s
  {
    DistinctIsSetOfValues(s);
  }

  /** Distinct lists the values in the order of their first occurrence. */
  lemma {:induction false} DistinctInFirstOccurrenceOrder<T>(s: seq<T>)
    ensures forall i, j :: 0 <= i < j < |Distinct(s)| ==>
      FirstIndex(s, Distinct(s)[i]) < FirstIndex(s, Distinct(s)[j]) < |s|
  {
    if s != [] {
      var n := |s| - 1;
      var d := Distinct(s[..n]);
      DistinctInFirstOccurrenceOrder(s[..n]);
      DistinctIsSetOfValues(s[..n]);
      forall x | x in d
        ensures FirstIndex(s, x) == FirstIndex(s[..n], x) < n
      {
        DistinctMember(s[..n], x);
        FirstIndexPrefix(s, n, x);
      }
      if s[n] !in d {
        assert s[n] !in s[..n];
        FirstIndexUnique(s, s[n], n);
        var e := d + [s[n]];
        forall i, j | 0 <= i < j < |e|
          ensures FirstIndex(s, e[i]) < FirstIndex(s, e[j]) < |s|
        {
          assert e[i] == d[i] && e[i] in d;
          if j < |d| {
            assert e[j] == d[j] && e[j] in d;
          }
        }
      } else {
        forall i, j | 0 <= i < j < |d|
          ensures FirstIndex(s, d[i]) < FirstIndex(s, d[j]) < |s|
        {
          assert d[i] in d && d[j] in d;
        }
      }
    }
  }

  /** `class Group`: a list without duplicates behind a private field. */
  class Group<T(==)> {
    var elements: seq<T>

    ghost predicate Valid()
      reads this
    {
      NoDuplicates(elements)
    }

    constructor ()
      ensures Valid() && elements == []
    {
      elements := [];
    }

    /** `add(n)`: pushes n unless it is already there. */
    method Add(n: T)
      requires Valid()
      modifies this
      ensures Valid()
      ensures elements == if n in old(elements) then old(elements) else old(elements) + [n]
    {
      if n !in elements {
        elements := elements + [n];
      }
    }

    /** `delete(n)`: filters n out when it is there. */
    method Delete(n: T)
      requires Valid()
      modifies this
      ensures Valid()
      ensures elements == Without(old(elements), n)
    {
      if n in elements {
        WithoutKeepsNoDuplicates(elements, n);
        elements := Without(elements, n);
      } else {
        WithoutAbsent(elements, n);
      }
    }

    /** `has(n)`. */
    method Has(n: T) returns (r: bool)
      ensures r <==> n in elements
    {
      if n in elements {
        return true;
      } else {
        return false;
      }
    }

    /** `Group.from(array)`: walks the array, adding each value not met
        before. */
    static method From(arr: seq<T>) returns (group: Group<T>)
      ensures fresh(group) && group.Valid()
      ensures group.elements == Distinct(arr)
      ensures forall x :: x in group.elements <==> x in arr
      ensures forall i, j :: 0 <= i < j < |group.elements| ==>
        FirstIndex(arr, group.elements[i]) < FirstIndex(arr, group.elements[j])
    {
      var uniques: seq<T> := [];
      group := new Group();
      for k := 0 to |arr|
        invariant uniques == Distinct(arr[..k]) == group.elements
        invariant group.Valid()
      {
        assert arr[..k + 1][..k] == arr[..k];
        if arr[k] !in uniques {
          uniques := uniques + [arr[k]];
          group.Add(arr[k]);
        }
      }
      assert arr[..|arr|] == arr;
      DistinctIsSetOfValues(arr);
      DistinctInFirstOccurrenceOrder(arr);
    }
  }

  /** The script: `Group.from([10, 20])` has 10 and not 30, and after
      `add(10)` and `delete(10)` it no longer has 10. */
  method GroupDemo() returns (has10: bool, has30: bool, hasAfterDelete: bool)
    ensures has10 && !has30 && !hasAfterDelete
  {
    var group := Group.From([10, 20]);
    DistinctIsSetOfValues([10, 20]);
    has10 := group.Has(10);
    has30 := group.Has(30);
    group.Add(10);
    group.Delete(10);
    hasAfterDelete := group.Has(10);
  }
}
