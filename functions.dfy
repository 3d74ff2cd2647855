/** Chapter 3 (Functions): small arithmetic and string exercises. */
module Functions {

  /** `square(x)`: x times itself, never negative. */
  function Square(x: int): (r: int)
    ensures r >= 0
    ensures x != 0 ==> r > 0
  {
    x * x
  }

  /** `cube(x)`: keeps the sign of its argument. */
  function Cube(x: int): (r: int)
    ensures x > 0 ==> r > 0
    ensures x < 0 ==> r < 0
    ensures x == 0 ==> r == 0
  {
    x * x * x
  }

  /** JavaScript's `%`: the remainder takes the sign of the dividend. */
  function JsRemainder(n: int, d: int): int
    requires d != 0
  {
    if n >= 0 then n % d else -((-n) % d)
  }

  /** `roundTo(n, step)`: `n - remainder + (remainder < step / 2 ? 0 : step)`.
      The comparison with the real number `step / 2` is written `2 * remainder < step`. */
  function RoundTo(n: int, step: int): int
    requires step != 0
  {
    var remainder := JsRemainder(n, step);
    n - remainder + (if 2 * remainder < step then 0 else step)
  }

  /** For a non-negative n and a positive step, `roundTo` gives a multiple of
      step nearest to n, a remainder of exactly half a step rounding up. */
  lemma RoundToNearest(n: int, step: int)
    requires n >= 0 && step > 0
    ensures RoundTo(n, step) == step * (n / step + (if 2 * (n % step) < step then 0 else 1))
    ensures -step <= 2 * (RoundTo(n, step) - n) <= step
    ensures 2 * (n % step) == step ==> 2 * RoundTo(n, step) == 2 * n + step
    ensures 2 * (n % step) < step ==> RoundTo(n, step) <= n
    ensures 2 * (n % step) >= step ==> RoundTo(n, step) > n
  {
    var q, rem := n / step, n % step;
    assert n == step * q + rem;
    assert 0 <= rem < step;
    assert JsRemainder(n, step) == rem;
  }

  /** `minimum(a, b)`: the smaller argument. */
  function Minimum(a: int, b: int): (r: int)
    ensures r <= a && r <= b
    ensures r == a || r == b
  {
    if a < b then a else b
  }

  /** `isEven(n)`: recursion on n - 2, which only stops for n >= 0. */
  function IsEven(n: int): (r: bool)
    requires n >= 0
    ensures r <==> n % 2 == 0
  {
    if n == 0 then true
    else if n == 1 then false
    else IsEven(n - 2)
  }

  /** The number of positions of s that hold c: the specification of the
      two bean-counting loops. */
  function Occurrences(s: string, c: char): (r: nat)
    ensures r <= |s|
  {
    if s == [] then 0
    else Occurrences(s[..|s| - 1], c) + (if s[|s| - 1] == c then 1 else 0)
  }

  /** Occurrences is the size of the set of indices holding c. */
  lemma {:induction false} OccurrencesCountsIndices(s: string, c: char)
    ensures Occurrences(s, c) == |set i | 0 <= i < |s| && s[i] == c|
  {
    if s != [] {
      var n := |s| - 1;
      OccurrencesCountsIndices(s[..n], c);
      var before := set i | 0 <= i < n && s[..n][i] == c;
      var all := set i | 0 <= i < |s| && s[i] == c;
      assert before == set i | 0 <= i < n && s[i] == c;
      if s[n] == c {
        assert all == before + {n};
      } else {
        assert all == before;
      }
    }
  }

  /** `countChar(string, char)`: a while loop over the indices. */
  method CountChar(s: string, c: char) returns (counter: nat)
    ensures counter == Occurrences(s, c)
  {
    var i := 0;
    var max := |s|;
    counter := 0;
    while i < max
      invariant 0 <= i <= max
      invariant counter == Occurrences(s[..i], c)
    {
      assert s[..i + 1][..i] == s[..i];
      if s[i] == c {
        counter := counter + 1;
      }
      i := i + 1;
    }
    assert s[..max] == s;
  }

  /** `countBs(string)`: the same loop with the character fixed to 'B'. */
  method CountBs(s: string) returns (counter: nat)
    ensures counter == Occurrences(s, 'B')
  {
    var i := 0;
    var max := |s|;
    counter := 0;
    while i < max
      invariant 0 <= i <= max
      invariant counter == Occurrences(s[..i], 'B')
    {
      assert s[..i + 1][..i] == s[..i];
      if s[i] == 'B' {
        counter := counter + 1;
      }
      i := i + 1;
    }
    assert s[..max] == s;
  }

  /** The two calls the chapter logs: `countBs("BOB")` and `countChar("kakkerlak", "k")`. */
  lemma BeanCountingExamples()
    ensures Occurrences("BOB", 'B') == 2
    ensures Occurrences("kakkerlak", 'k') == 4
  {
    assert "BOB"[..2] == "BO" && "BO"[..1] == "B" && "B"[..0] == "";
    assert "kakkerlak"[..8] == "kakkerla" && "kakkerla"[..7] == "kakkerl";
    assert "kakkerl"[..6] == "kakker" && "kakker"[..5] == "kakke";
    assert "kakke"[..4] == "kakk" && "kakk"[..3] == "kak";
    assert "kak"[..2] == "ka" && "ka"[..1] == "k" && "k"[..0] == "";
    assert Occurrences("kak", 'k') == 2;
    assert Occurrences("kakker", 'k') == 3;
  }
}
