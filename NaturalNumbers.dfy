/**
 * Natural numbers encoded as the lengths of tuples (examples/natural_numbers.ts).
 * A number n is represented by a tuple of n placeholder elements; arithmetic builds
 * new tuples and reads their length back. The placeholder element is the unit value.
 */
module NaturalNumbers {
  import opened Wrappers

  /** A tuple whose only information is its length. */
  type Tally = seq<()>

  /** `[...T, U]`: one more element, at the end. */
  function Append<T>(s: seq<T>, x: T): (r: seq<T>)
    ensures |r| == |s| + 1
    ensures r[..|s|] == s && r[|s|] == x
  {
    s + [x]
  }

  /**
   * `CreateArrOfLen<N, CurrArr>`: keeps appending a placeholder to the accumulator
   * until its length is n. The source starts from `[]`; started from a longer
   * accumulator it would never stop, hence the requires.
   */
  function CreateArrOfLenFrom(n: nat, curr: Tally): (r: Tally)
    requires |curr| <= n
    ensures |r| == n
    decreases n - |curr|
  {
    if |curr| == n then curr else CreateArrOfLenFrom(n, Append(curr, ()))
  }

  /** `CreateArrOfLen<N>` with the default empty accumulator. */
  function CreateArrOfLen(n: nat): (r: Tally)
    ensures |r| == n
    ensures n == 0 ==> r == []
  {
    CreateArrOfLenFrom(n, [])
  }

  /** `[...A, ...B]` */
  function Concat<T>(a: seq<T>, b: seq<T>): (r: seq<T>)
    ensures |r| == |a| + |b|
    ensures r[..|a|] == a && r[|a|..] == b
  {
    a + b
  }

  /** `T["length"]` */
  function Length<T>(s: seq<T>): nat
  {
    |s|
  }

  /** `Length<Concat<CreateArrOfLen<N>, CreateArrOfLen<M>>>` */
  function Add(n: nat, m: nat): (r: nat)
    ensures r == n + m
  {
    Length(Concat(CreateArrOfLen(n), CreateArrOfLen(m)))
  }

  /**
   * The match `S extends [...infer U, ...Suffix]`: the prefix U when `suffix` ends `s`,
   * and no match otherwise.
   */
  function SplitOffSuffix<T(==)>(s: seq<T>, suffix: seq<T>): (r: Option<seq<T>>)
    ensures r.Some? <==> |suffix| <= |s| && s[|s| - |suffix|..] == suffix
    ensures r.Some? ==> r.value + suffix == s
  {
    if |suffix| <= |s| && s[|s| - |suffix|..] == suffix then Some(s[..|s| - |suffix|]) else None
  }

  /** Two tallies of the same length are the same tuple. */
  lemma {:induction false} TallyExtensional(a: Tally, b: Tally)
    requires |a| == |b|
    ensures a == b
  {
    forall i | 0 <= i < |a|
      ensures a[i] == b[i]
    {
      var x, y := a[i], b[i];
      match x case () => match y case () =>
    }
  }

  /**
   * `CreateArrOfLen<N> extends [...infer U, ...CreateArrOfLen<M>] ? Length<U> : never`:
   * the difference when m <= n, and `never` when the subtrahend is larger.
   */
  function Sub(n: nat, m: nat): (r: Option<nat>)
    ensures r == if m <= n then Some(n - m) else None
  {
    var whole, part := CreateArrOfLen(n), CreateArrOfLen(m);
    assert m <= n ==> whole[n - m..] == part by {
      if m <= n { TallyExtensional(whole[n - m..], part); }
    }
    match SplitOffSuffix(whole, part)
    case Some(u) => Some(Length(u))
    case None => None
  }

  /** Subtraction undone by addition. */
  lemma AddSubRoundTrip(n: nat, m: nat)
    requires m <= n
    ensures Sub(n, m).Some? && Add(Sub(n, m).value, m) == n
  {
  }

  /** Addition undone by subtraction. */
  lemma SubAddRoundTrip(n: nat, m: nat)
    ensures Sub(Add(n, m), m) == Some(n)
  {
  }

  /** `MultiplyElems<T, N>`: n placeholders for every element of t, concatenated. */
  function MultiplyElems<T>(t: seq<T>, n: nat): (r: Tally)
    ensures |r| == |t| * n
  {
    if t == [] then []
    else
      var rest := MultiplyElems(t[1..], n);
      assert |rest| == (|t| - 1) * n;
      CreateArrOfLen(n) + rest
  }

  /** `Length<MultiplyElems<CreateArrOfLen<N>, M>>` */
  function Mul(n: nat, m: nat): (r: nat)
    ensures r == n * m
  {
    Length(MultiplyElems(CreateArrOfLen(n), m))
  }

  lemma MulByZero(n: nat)
    ensures Mul(n, 0) == 0 && Mul(0, n) == 0
  {
  }

  /**
   * Every `Add`, `Sub` and `Mul` test case checked beside the definitions, and one
   * subtraction below zero, which is `never`.
   */
  lemma Samples()
    ensures Add(1, 1) == 2 && Add(0, 1) == 1 && Add(42, 58) == 100
    ensures Sub(1, 1) == Some(0) && Sub(1, 0) == Some(1) && Sub(42, 2) == Some(40)
    ensures Sub(100, 42) == Some(58)
    ensures Mul(1, 1) == 1 && Mul(1, 0) == 0 && Mul(0, 1) == 0 && Mul(0, 0) == 0
    ensures Mul(2, 2) == 4 && Mul(4, 12) == 48
    ensures Sub(1, 2) == None
  {
  }
}
