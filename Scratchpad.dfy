/**
 * The Advent of Code 2022 day 6 exercise of scratch-pad/index.ts: a string becomes a
 * tuple of one-letter strings, and the answer is the position just after the first
 * four consecutive pairwise-distinct letters.
 */
module Scratchpad {
  import opened Wrappers
  import opened Logic
  import NaturalNumbers

  /**
   * `StringToArrayOfChars<S, CurrArr>`: peels the first letter off the string and
   * appends it, as a one-letter string, to the accumulator.
   */
  function StringToArrayOfCharsFrom(s: string, curr: seq<string>): (r: seq<string>)
    ensures |r| == |curr| + |s|
    ensures r[..|curr|] == curr
    ensures forall i :: 0 <= i < |s| ==> r[|curr| + i] == [s[i]]
    decreases |s|
  {
    if |s| > 0 then
      var curr' := NaturalNumbers.Append(curr, [s[0]]);
      var r := StringToArrayOfCharsFrom(s[1..], curr');
      assert r[|curr|] == [s[0]] by {
        assert r[..|curr'|][|curr|] == curr'[|curr|];
      }
      assert r[..|curr|] == curr by {
        assert r[..|curr|] == r[..|curr'|][..|curr|];
      }
      assert forall i :: 1 <= i < |s| ==> r[|curr'| + (i - 1)] == [s[i]];
      r
    else curr
  }

  /** `StringToArrayOfChars<S>`, started from the empty tuple. */
  function StringToArrayOfChars(s: string): (r: seq<string>)
    ensures |r| == |s|
    ensures forall i :: 0 <= i < |s| ==> r[i] == [s[i]]
  {
    var r := StringToArrayOfCharsFrom(s, []);
    assert forall i :: 0 <= i < |s| ==> r[0 + i] == [s[i]];
    r
  }

  /** No element occurs twice. */
  predicate Distinct<T(==)>(xs: seq<T>)
  {
    forall i, j :: 0 <= i < j < |xs| ==> xs[i] != xs[j]
  }

  /** `Elem<X, T>`: `Or<Equals<X, Y>, Elem<X, Ys>>` over the tuple, `false` at the end. */
  function Elem<T(==)>(x: T, xs: seq<T>): (r: bool)
    ensures r <==> x in xs
  {
    if xs == [] then false else Or(x == xs[0], Elem(x, xs[1..]))
  }

  /** `HasDuplicates<T>`: the head occurs in the tail, or the tail has duplicates. */
  function HasDuplicates<T(==)>(xs: seq<T>): (r: bool)
    ensures r <==> !Distinct(xs)
  {
    if |xs| == 0 then false
    else
      var r := Or(Elem(xs[0], xs[1..]), HasDuplicates(xs[1..]));
      assert Distinct(xs) <==> xs[0] !in xs[1..] && Distinct(xs[1..]) by {
        if xs[0] in xs[1..] {
          var k :| 0 <= k < |xs[1..]| && xs[1..][k] == xs[0];
          assert xs[0] == xs[k + 1];
        }
        if !Distinct(xs[1..]) {
          var i, j :| 0 <= i < j < |xs[1..]| && xs[1..][i] == xs[1..][j];
          assert xs[i + 1] == xs[j + 1];
        }
        if xs[0] !in xs[1..] && Distinct(xs[1..]) {
          forall i, j | 0 <= i < j < |xs| ensures xs[i] != xs[j] {
            if i == 0 {
              assert xs[j] == xs[1..][j - 1];
            } else {
              assert xs[i] == xs[1..][i - 1] && xs[j] == xs[1..][j - 1];
            }
          }
        }
      }
      r
  }

  /** The four elements starting at i exist and are pairwise distinct. */
  predicate MarkerAt<T(==)>(arr: seq<T>, i: nat)
  {
    i + 4 <= |arr| && Distinct(arr[i..i + 4])
  }

  lemma MarkerShift<T>(arr: seq<T>, j: nat)
    requires |arr| > 0
    ensures MarkerAt(arr[1..], j) <==> MarkerAt(arr, j + 1)
  {
    if j + 5 <= |arr| {
      assert arr[1..][j..j + 4] == arr[j + 1..j + 5];
    }
  }

  /**
   * `Solution<Arr, Idx>`: while at least four elements remain, answers `Idx` when the
   * first four are distinct and otherwise drops one element and counts on; `never` when
   * fewer than four remain.
   */
  function SolutionFrom<T(==)>(arr: seq<T>, idx: nat): (r: Option<nat>)
    ensures r.Some? <==> exists i: nat :: MarkerAt(arr, i)
    ensures r.Some? ==>
      && idx <= r.value
      && MarkerAt(arr, r.value - idx)
      && forall j :: 0 <= j < r.value - idx ==> !MarkerAt(arr, j)
    decreases |arr|
  {
    if |arr| >= 4 then
      assert arr[..4] == arr[0..0 + 4];
      assert Not(HasDuplicates(arr[..4])) ==> MarkerAt(arr, 0);
      if Not(HasDuplicates(arr[..4])) then Some(idx)
      else
        var r := SolutionFrom(arr[1..], NaturalNumbers.Add(idx, 1));
        assert forall j: nat :: MarkerAt(arr[1..], j) <==> MarkerAt(arr, j + 1) by {
          forall j: nat ensures MarkerAt(arr[1..], j) <==> MarkerAt(arr, j + 1) {
            MarkerShift(arr, j);
          }
        }
        assert (exists i: nat :: MarkerAt(arr, i)) ==> exists i: nat :: MarkerAt(arr[1..], i) by {
          if exists i: nat :: MarkerAt(arr, i) {
            var i: nat :| MarkerAt(arr, i);
            assert i != 0;
            assert MarkerAt(arr[1..], i - 1);
          }
        }
        assert r.Some? ==> forall j :: 0 <= j < r.value - idx ==> !MarkerAt(arr, j) by {
          if r.Some? {
            forall j | 0 <= j < r.value - idx ensures !MarkerAt(arr, j) {
              if j > 0 {
                assert !MarkerAt(arr[1..], j - 1);
              }
            }
          }
        }
        r
    else
      None
  }

  /** The four elements just before position k exist and are pairwise distinct. */
  predicate MarkerEndsAt<T(==)>(arr: seq<T>, k: nat)
  {
    4 <= k <= |arr| && Distinct(arr[k - 4..k])
  }

  /**
   * `Solution<Arr>`, counting from 4: the position just after the first window of four
   * distinct elements, and `never` when there is none.
   */
  function Solution<T(==)>(arr: seq<T>): (r: Option<nat>)
    ensures r.Some? <==> exists k: nat :: MarkerEndsAt(arr, k)
    ensures r.Some? ==> MarkerEndsAt(arr, r.value) && forall k: nat :: k < r.value ==> !MarkerEndsAt(arr, k)
  {
    var r := SolutionFrom(arr, 4);
    assert forall k: nat :: MarkerEndsAt(arr, k) <==> k >= 4 && MarkerAt(arr, k - 4);
    assert (exists k: nat :: MarkerEndsAt(arr, k)) <==> exists i: nat :: MarkerAt(arr, i) by {
      if exists i: nat :: MarkerAt(arr, i) {
        var i: nat :| MarkerAt(arr, i);
        assert MarkerEndsAt(arr, i + 4);
      }
    }
    r
  }

  /** The first marker determines the answer. */
  lemma SolutionIsFirstMarker<T>(arr: seq<T>, m: nat)
    requires MarkerEndsAt(arr, m)
    requires forall k: nat :: k < m ==> !MarkerEndsAt(arr, k)
    ensures Solution(arr) == Some(m)
  {
    assert Solution(arr).Some?;
  }

  /** A window of one-letter strings is distinct exactly when its letters are. */
  lemma CharsMarker(s: string, k: nat)
    ensures MarkerEndsAt(StringToArrayOfChars(s), k) <==> MarkerEndsAt(s, k)
  {
    var arr := StringToArrayOfChars(s);
    if 4 <= k <= |s| {
      var w, v := arr[k - 4..k], s[k - 4..k];
      assert forall i :: 0 <= i < 4 ==> w[i] == [v[i]];
      assert Distinct(w) <==> Distinct(v) by {
        assert forall i, j :: 0 <= i < 4 && 0 <= j < 4 ==> (w[i] == w[j] <==> v[i] == v[j]) by {
          forall i, j | 0 <= i < 4 && 0 <= j < 4 ensures (w[i] == w[j] <==> v[i] == v[j]) {
            assert w[i] == [v[i]] && w[j] == [v[j]];
            if w[i] == w[j] { assert w[i][0] == w[j][0]; }
          }
        }
      }
    }
  }

  /** Two equal letters inside the window ending at k. */
  lemma NotMarker(s: string, k: nat, a: nat, b: nat)
    requires 4 <= k <= |s| && k - 4 <= a < b < k && s[a] == s[b]
    ensures !MarkerEndsAt(s, k)
  {
    assert s[k - 4..k][a - (k - 4)] == s[k - 4..k][b - (k - 4)];
  }

  /** Four letters that differ pairwise. */
  lemma IsMarker(s: string, k: nat)
    requires 4 <= k <= |s|
    requires s[k - 4] != s[k - 3] && s[k - 4] != s[k - 2] && s[k - 4] != s[k - 1]
    requires s[k - 3] != s[k - 2] && s[k - 3] != s[k - 1] && s[k - 2] != s[k - 1]
    ensures MarkerEndsAt(s, k)
  {
  }

  /** The answer for a string is its first marker position. */
  lemma SolutionOfChars(s: string, m: nat)
    requires MarkerEndsAt(s, m)
    requires forall k: nat :: k < m ==> !MarkerEndsAt(s, k)
    ensures Solution(StringToArrayOfChars(s)) == Some(m)
  {
    var arr := StringToArrayOfChars(s);
    CharsMarker(s, m);
    forall k: nat | k < m ensures !MarkerEndsAt(arr, k) {
      CharsMarker(s, k);
    }
    SolutionIsFirstMarker(arr, m);
  }

  /** The five puzzle inputs checked in the scratch pad and their answers. */
  lemma Sample1(s: string)
    requires s == "mjqjpqmgbljsphdztnvjfqwrcgsmlb"
    ensures Solution(StringToArrayOfChars(s)) == Some(7)
  {
    forall k: nat | k < 7 ensures !MarkerEndsAt(s, k) {
      if k == 4 { NotMarker(s, 4, 1, 3); }
      else if k == 5 { NotMarker(s, 5, 1, 3); }
      else if k == 6 { NotMarker(s, 6, 2, 5); }
    }
    IsMarker(s, 7);
    SolutionOfChars(s, 7);
  }

  lemma Sample2(s: string)
    requires s == "bvwbjplbgvbhsrlpgdmjqwftvncz"
    ensures Solution(StringToArrayOfChars(s)) == Some(5)
  {
    NotMarker(s, 4, 0, 3);
    IsMarker(s, 5);
    SolutionOfChars(s, 5);
  }

  lemma Sample3(s: string)
    requires s == "nppdvjthqldpwncqszvftbrmjlhg"
    ensures Solution(StringToArrayOfChars(s)) == Some(6)
  {
    forall k: nat | k < 6 ensures !MarkerEndsAt(s, k) {
      if k == 4 { NotMarker(s, 4, 1, 2); }
      else if k == 5 { NotMarker(s, 5, 1, 2); }
    }
    IsMarker(s, 6);
    SolutionOfChars(s, 6);
  }

  lemma Sample4(s: string)
    requires s == "nznrnfrfntjfmvfwmzdfjlvtqnbhcprsg"
    ensures Solution(StringToArrayOfChars(s)) == Some(10)
  {
    forall k: nat | k < 10 ensures !MarkerEndsAt(s, k) {
      if k == 4 { NotMarker(s, 4, 0, 2); }
      else if k == 5 { NotMarker(s, 5, 2, 4); }
      else if k == 6 { NotMarker(s, 6, 2, 4); }
      else if k == 7 { NotMarker(s, 7, 3, 6); }
      else if k == 8 { NotMarker(s, 8, 5, 7); }
      else if k == 9 { NotMarker(s, 9, 5, 7); }
    }
    IsMarker(s, 10);
    SolutionOfChars(s, 10);
  }

  lemma Sample5(s: string)
    requires s == "zcfzfwzzqfrljwzlrfnpqdbhtmscgvjw"
    ensures Solution(StringToArrayOfChars(s)) == Some(11)
  {
    forall k: nat | k < 11 ensures !MarkerEndsAt(s, k) {
      if k == 4 { NotMarker(s, 4, 0, 3); }
      else if k == 5 { NotMarker(s, 5, 2, 4); }
      else if k == 6 { NotMarker(s, 6, 2, 4); }
      else if k == 7 { NotMarker(s, 7, 3, 6); }
      else if k == 8 { NotMarker(s, 8, 6, 7); }
      else if k == 9 { NotMarker(s, 9, 6, 7); }
      else if k == 10 { NotMarker(s, 10, 6, 7); }
    }
    IsMarker(s, 11);
    SolutionOfChars(s, 11);
  }

  /** The membership and duplicate checks of the scratch pad. */
  lemma ElemAndDuplicateSamples()
    ensures Elem(2, [1, 2, 3]) && Elem(3, [1, 2, 3]) && !Elem(42, [1, 2, 3]) && !Elem(0, [1, 2, 3])
    ensures !HasDuplicates([1, 2, 3]) && HasDuplicates([1, 2, 3, 4, 2]) && !HasDuplicates<int>([])
  {
    assert [1, 2, 3, 4, 2][1] == [1, 2, 3, 4, 2][4];
  }
}
