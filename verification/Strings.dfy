/** Python's ordering of strings, `sorted`, `sorted(set(..))` and `str.lower`. */
module Strings {
  /** Code-point order, the order of Python's `<=` on `str`. */
  predicate Leq(a: string, b: string) {
    a == "" || (b != "" && (a[0] < b[0] || (a[0] == b[0] && Leq(a[1..], b[1..]))))
  }

  predicate Less(a: string, b: string) {
    a != b && Leq(a, b)
  }

  /** The order of strings: a proper beginning comes first, and otherwise the first different character decides. */
  lemma {:induction false} LessIff(a: string, b: string)
    ensures Less(a, b) <==> a < b || exists i :: FirstDifference(a, b, i) && a[i] < b[i]
  {
    if a == "" || b == "" {
    } else if a[0] != b[0] {
      assert FirstDifference(a, b, 0);
      assert forall i :: FirstDifference(a, b, i) ==> i == 0;
    } else {
      LessIff(a[1..], b[1..]);
      assert a == [a[0]] + a[1..] && b == [b[0]] + b[1..];
      forall i | 0 <= i ensures FirstDifference(a[1..], b[1..], i) <==> FirstDifference(a, b, i + 1) {
        if i < |a[1..]| && i < |b[1..]| {
          assert a[..i + 1] == [a[0]] + a[1..][..i] && b[..i + 1] == [b[0]] + b[1..][..i];
          assert a[..i + 1][1..] == a[1..][..i] && b[..i + 1][1..] == b[1..][..i];
        }
      }
      assert forall i :: FirstDifference(a, b, i) ==> FirstDifference(a[1..], b[1..], i - 1);
    }
  }

  predicate FirstDifference(a: string, b: string, i: int) {
    0 <= i < |a| && i < |b| && a[..i] == b[..i] && a[i] != b[i]
  }

  lemma {:induction false} LeqIsTotalOrder(a: string, b: string, c: string)
    ensures Leq(a, a)
    ensures Leq(a, b) || Leq(b, a)
    ensures Leq(a, b) && Leq(b, a) ==> a == b
    ensures Leq(a, b) && Leq(b, c) ==> Leq(a, c)
    decreases |a| + |b| + |c|
  {
    if a == "" {
    } else {
      LeqIsTotalOrder(a[1..], if b == "" then b else b[1..], if c == "" then c else c[1..]);
      if b != "" && a[0] == b[0] && a[1..] == b[1..] {
        assert a == [a[0]] + a[1..] && b == [b[0]] + b[1..];
      }
    }
  }

  ghost predicate Sorted(xs: seq<string>) {
    forall i, j {:trigger Leq(xs[i], xs[j])} :: 0 <= i < j < |xs| ==> Leq(xs[i], xs[j])
  }

  ghost predicate StrictlySorted(xs: seq<string>) {
    forall i, j {:trigger Less(xs[i], xs[j])} :: 0 <= i < j < |xs| ==> Less(xs[i], xs[j])
  }

  ghost function Elements<T>(xs: seq<T>): set<T> {
    set x | x in xs
  }

  lemma HeadIsLeast(xs: seq<string>)
    requires StrictlySorted(xs) && xs != []
    ensures forall x :: x in xs[1..] ==> Less(xs[0], x)
    ensures StrictlySorted(xs[1..])
  {
    forall x | x in xs[1..] ensures Less(xs[0], x) {
      var i :| 0 <= i < |xs[1..]| && xs[1..][i] == x;
      assert Less(xs[0], xs[i + 1]);
    }
    forall i, j | 0 <= i < j < |xs[1..]| ensures Less(xs[1..][i], xs[1..][j]) {
      assert Less(xs[i + 1], xs[j + 1]);
    }
  }

  /** A strictly sorted list is determined by its elements. */
  lemma {:induction false} StrictlySortedIsUnique(xs: seq<string>, ys: seq<string>)
    requires StrictlySorted(xs) && StrictlySorted(ys)
    requires forall x :: x in xs <==> x in ys
    ensures xs == ys
  {
    assert xs != [] ==> xs[0] in xs;
    assert ys != [] ==> ys[0] in ys;
    if xs == [] {
    } else {
      assert xs[0] in ys && ys[0] in xs;
      HeadIsLeast(xs);
      HeadIsLeast(ys);
      assert forall x :: x in xs <==> x == xs[0] || x in xs[1..];
      assert forall x :: x in ys <==> x == ys[0] || x in ys[1..];
      LeqIsTotalOrder(xs[0], ys[0], xs[0]);
      assert xs[0] == ys[0];
      forall x ensures x in xs[1..] <==> x in ys[1..] {
        assert x in xs <==> x == xs[0] || x in xs[1..];
        assert x in ys <==> x == ys[0] || x in ys[1..];
        assert xs[0] !in xs[1..] && ys[0] !in ys[1..];
      }
      StrictlySortedIsUnique(xs[1..], ys[1..]);
    }
  }

  function Insert(x: string, xs: seq<string>): (ys: seq<string>)
    ensures forall y {:trigger y in ys} :: y in ys <==> y == x || y in xs
    ensures |ys| == |xs| + 1
    ensures Sorted(xs) ==> Sorted(ys)
  {
    if xs == [] then [x]
    else
      LeqIsTotalOrder(x, xs[0], x);
      if Leq(x, xs[0]) then
        assert Sorted(xs) ==> forall i :: 0 <= i < |xs| ==> Leq(x, xs[i]) by {
          forall i | 0 <= i < |xs| && Sorted(xs) ensures Leq(x, xs[i]) { LeqIsTotalOrder(x, xs[0], xs[i]); }
        }
        [x] + xs
      else
        assert forall y :: y in xs <==> y == xs[0] || y in xs[1..];
        var rest := Insert(x, xs[1..]);
        assert Sorted(xs) ==> forall i :: 0 <= i < |rest| ==> Leq(xs[0], rest[i]) by {
          forall i | 0 <= i < |rest| && Sorted(xs) ensures Leq(xs[0], rest[i]) { assert rest[i] in rest; }
        }
        [xs[0]] + rest
  }

  /** Python's `sorted(xs)`. */
  function Sort(xs: seq<string>): (ys: seq<string>)
    ensures Sorted(ys) && |ys| == |xs|
    ensures forall y {:trigger y in ys} :: y in ys <==> y in xs
  {
    if xs == [] then []
    else
      assert forall y :: y in xs <==> y == xs[0] || y in xs[1..];
      Insert(xs[0], Sort(xs[1..]))
  }

  lemma {:induction false} InsertedIsPermutation(x: string, xs: seq<string>)
    ensures multiset(Insert(x, xs)) == multiset(xs) + multiset{x}
  {
    if xs == [] {
    } else {
      InsertedIsPermutation(x, xs[1..]);
      assert xs == [xs[0]] + xs[1..];
    }
  }

  /** Sorting loses no entry and repeats none. */
  lemma {:induction false} SortedIsPermutation(xs: seq<string>)
    ensures Sorted(Sort(xs)) && multiset(Sort(xs)) == multiset(xs)
  {
    if xs == [] {
    } else {
      SortedIsPermutation(xs[1..]);
      InsertedIsPermutation(xs[0], Sort(xs[1..]));
      assert xs == [xs[0]] + xs[1..];
    }
  }

  function InsertNew(x: string, xs: seq<string>): (ys: seq<string>)
    requires StrictlySorted(xs)
    ensures forall y {:trigger y in ys} :: y in ys <==> y == x || y in xs
    ensures StrictlySorted(ys)
  {
    if xs == [] then [x]
    else
      LeqIsTotalOrder(x, xs[0], x);
      assert forall y :: y in xs <==> y == xs[0] || y in xs[1..];
      if x == xs[0] then xs
      else if Leq(x, xs[0]) then
        assert forall i :: 0 <= i < |xs| ==> Less(x, xs[i]) by {
          forall i | 0 <= i < |xs| ensures Less(x, xs[i]) {
            assert i > 0 ==> Less(xs[0], xs[i]);
            LeqIsTotalOrder(x, xs[0], xs[i]);
            LeqIsTotalOrder(xs[i], xs[0], x);
          }
        }
        [x] + xs
      else
        var rest := InsertNew(x, xs[1..]);
        assert forall i :: 0 <= i < |rest| ==> Less(xs[0], rest[i]) by {
          forall i | 0 <= i < |rest| ensures Less(xs[0], rest[i]) { assert rest[i] in rest; }
        }
        [xs[0]] + rest
  }

  /** Python's `sorted(set(xs))`. */
  function SortedSet(xs: seq<string>): (ys: seq<string>)
    ensures StrictlySorted(ys)
    ensures forall y {:trigger y in ys} :: y in ys <==> y in xs
  {
    if xs == [] then []
    else
      assert forall y :: y in xs <==> y == xs[0] || y in xs[1..];
      InsertNew(xs[0], SortedSet(xs[1..]))
  }

  /** `list(set(xs))`: the distinct entries, in no promised order. */
  method ListOfSet(xs: seq<string>) returns (ys: seq<string>)
    ensures forall y {:trigger y in ys} :: y in ys <==> y in xs
    ensures forall i, j :: 0 <= i < j < |ys| ==> ys[i] != ys[j]
  {
    ys := [];
    for i := 0 to |xs|
      invariant forall y :: y in ys <==> y in xs[..i]
      invariant forall j, k :: 0 <= j < k < |ys| ==> ys[j] != ys[k]
    {
      assert forall y :: y in xs[..i + 1] <==> y in xs[..i] || y == xs[i];
      if xs[i] !in ys { ys := ys + [xs[i]]; }
    }
    assert xs[..|xs|] == xs;
  }

  function LowerChar(c: char): char {
    if 'A' <= c <= 'Z' then (c as int + 32) as char else c
  }

  /** `str.lower` on ASCII text. */
  function Lower(s: string): (r: string)
    ensures |r| == |s|
    ensures forall i {:trigger r[i]} :: 0 <= i < |s| ==> r[i] == LowerChar(s[i])
  {
    seq(|s|, i requires 0 <= i < |s| => LowerChar(s[i]))
  }

  const CAPITALS := "ABCDEFGHIJKLMNOPQRSTUVWXYZ"
  const SMALL_LETTERS := "abcdefghijklmnopqrstuvwxyz"

  /** Lowering puts the small letter for each capital one, and leaves every other character. */
  lemma LowerIs(s: string, i: nat)
    requires i < |s|
    ensures forall n :: 0 <= n < 26 && s[i] == CAPITALS[n] ==> Lower(s)[i] == SMALL_LETTERS[n]
    ensures s[i] !in CAPITALS ==> Lower(s)[i] == s[i]
  {
    LettersInOrder();
    if 'A' <= s[i] <= 'Z' {
      var n := s[i] as int - 'A' as int;
      assert CAPITALS[n] == s[i];
    }
  }

  lemma LettersInOrder()
    ensures |CAPITALS| == |SMALL_LETTERS| == 26
    ensures forall n :: 0 <= n < 26 ==> CAPITALS[n] as int == 65 + n && SMALL_LETTERS[n] as int == 97 + n
  {
  }

  lemma LowerTwice(s: string)
    ensures Lower(Lower(s)) == Lower(s)
  {
  }

  function LowerAll(xs: seq<string>): (ys: seq<string>)
    ensures |ys| == |xs|
    ensures forall i {:trigger ys[i]} :: 0 <= i < |xs| ==> ys[i] == Lower(xs[i])
  {
    seq(|xs|, i requires 0 <= i < |xs| => Lower(xs[i]))
  }
}
