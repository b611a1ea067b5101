/** The `sort` step of the single-list charts: `Array.prototype.sort` with a
    comparator on member counts, which is stable, specified here as a stable
    insertion sort. */
module Ranking {

  /** A joined detail record reduced to what the charts use: its name and the
      length of its member list (`pokemon` for a type, `pokemon_species` for a
      generation). */
  datatype Detail = Detail(name: string, memberCount: nat)

  datatype Direction = Ascending | Descending

  /** The comparator: `a.pokemons.length - b.pokemons.length` when ascending,
      `b.pokemons.length - a.pokemons.length` when descending. */
  function Compare(dir: Direction, a: Detail, b: Detail): int
  {
    match dir
    case Ascending => a.memberCount - b.memberCount
    case Descending => b.memberCount - a.memberCount
  }

  /** `a` may stay ahead of `b` exactly when the comparator is not positive. */
  predicate InOrder(dir: Direction, a: nat, b: nat)
  {
    match dir
    case Ascending => a <= b
    case Descending => a >= b
  }

  lemma CompareInOrder(dir: Direction, a: Detail, b: Detail)
    ensures Compare(dir, a, b) <= 0 <==> InOrder(dir, a.memberCount, b.memberCount)
  {
  }

  /** No later element should have come before an earlier one. */
  ghost predicate Sorted(dir: Direction, s: seq<Detail>)
  {
    forall i, j :: 0 <= i < j < |s| ==> Compare(dir, s[i], s[j]) <= 0
  }

  /** The elements with a given member count, in their order in `s`. */
  function WithCount(s: seq<Detail>, n: nat): (r: seq<Detail>)
  {
    if s == [] then []
    else if s[0].memberCount == n then [s[0]] + WithCount(s[1..], n)
    else WithCount(s[1..], n)
  }

  /** Puts `x` in front of the first element it may precede. */
  function Insert(dir: Direction, x: Detail, t: seq<Detail>): seq<Detail>
  {
    if t == [] || Compare(dir, x, t[0]) <= 0 then [x] + t
    else [t[0]] + Insert(dir, x, t[1..])
  }

  /** `s.sort(comparator)`: stable, so elements that compare equal keep their order. */
  function SortBy(dir: Direction, s: seq<Detail>): seq<Detail>
  {
    if s == [] then [] else Insert(dir, s[0], SortBy(dir, s[1..]))
  }

  lemma {:induction false} InsertPermutes(dir: Direction, x: Detail, t: seq<Detail>)
    ensures multiset(Insert(dir, x, t)) == multiset(t) + multiset{x}
  {
    if t == [] || Compare(dir, x, t[0]) <= 0 {
    } else {
      InsertPermutes(dir, x, t[1..]);
      assert t == [t[0]] + t[1..];
    }
  }

  lemma {:induction false} InsertSorted(dir: Direction, x: Detail, t: seq<Detail>)
    requires Sorted(dir, t)
    ensures Sorted(dir, Insert(dir, x, t))
  {
    if t == [] || Compare(dir, x, t[0]) <= 0 {
    } else {
      var rest := Insert(dir, x, t[1..]);
      InsertSorted(dir, x, t[1..]);
      InsertPermutes(dir, x, t[1..]);
      forall y | y in rest
        ensures Compare(dir, t[0], y) <= 0
      {
        assert y in multiset(rest);
        if y != x {
          assert y in multiset(t[1..]);
        }
      }
    }
  }

  lemma {:induction false} InsertKeepsTies(dir: Direction, x: Detail, t: seq<Detail>, n: nat)
    ensures WithCount(Insert(dir, x, t), n)
         == if x.memberCount == n then [x] + WithCount(t, n) else WithCount(t, n)
  {
    if t == [] || Compare(dir, x, t[0]) <= 0 {
      assert Insert(dir, x, t)[1..] == t;
    } else {
      InsertKeepsTies(dir, x, t[1..], n);
      assert Insert(dir, x, t)[1..] == Insert(dir, x, t[1..]);
    }
  }

  /** The sort returns a permutation of its input. */
  lemma {:induction false} SortByPermutes(dir: Direction, s: seq<Detail>)
    ensures multiset(SortBy(dir, s)) == multiset(s)
  {
    if s != [] {
      SortByPermutes(dir, s[1..]);
      InsertPermutes(dir, s[0], SortBy(dir, s[1..]));
      assert s == [s[0]] + s[1..];
    }
  }

  /** The sort returns its input in comparator order. */
  lemma {:induction false} SortBySorted(dir: Direction, s: seq<Detail>)
    ensures Sorted(dir, SortBy(dir, s))
  {
    if s != [] {
      SortBySorted(dir, s[1..]);
      InsertSorted(dir, s[0], SortBy(dir, s[1..]));
    }
  }

  /** Stability: the records that share a member count come out in input order. */
  lemma {:induction false} SortByStable(dir: Direction, s: seq<Detail>, n: nat)
    ensures WithCount(SortBy(dir, s), n) == WithCount(s, n)
  {
    if s != [] {
      SortByStable(dir, s[1..], n);
      InsertKeepsTies(dir, s[0], SortBy(dir, s[1..]), n);
    }
  }

  lemma SortByLength(dir: Direction, s: seq<Detail>)
    ensures |SortBy(dir, s)| == |s|
  {
    SortByPermutes(dir, s);
    assert |multiset(SortBy(dir, s))| == |multiset(s)|;
  }
}
