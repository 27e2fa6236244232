/** Lists without repetition, strings in code-point order and the one way to list a set of them in that order, and
    stable sorting by a rank. */
module Sorting {

  predicate Distinct<T(==)>(xs: seq<T>) {
    forall i, j :: 0 <= i < j < |xs| ==> xs[i] != xs[j]
  }

  predicate Less(a: string, b: string) {
    b != "" && (a == "" || a[0] < b[0] || (a[0] == b[0] && Less(a[1..], b[1..])))
  }

  lemma {:induction false} LessIsStrict(a: string)
    ensures !Less(a, a)
  {
    if a != "" {
      LessIsStrict(a[1..]);
    }
  }

  lemma {:induction false} LessInTurn(a: string, b: string, c: string)
    requires Less(a, b) && Less(b, c)
    ensures Less(a, c)
    decreases |a|
  {
    if a != "" && a[0] == b[0] == c[0] {
      LessInTurn(a[1..], b[1..], c[1..]);
    }
  }

  lemma {:induction false} LessIsTotal(a: string, b: string)
    ensures a == b || Less(a, b) || Less(b, a)
    decreases |a|
  {
    if a != "" && b != "" && a[0] == b[0] {
      LessIsTotal(a[1..], b[1..]);
      assert a == [a[0]] + a[1..] && b == [b[0]] + b[1..];
    }
  }

  predicate Ascending(s: seq<string>) {
    forall i, j :: 0 <= i < j < |s| ==> Less(s[i], s[j])
  }

  ghost predicate Lists(s: seq<string>, names: set<string>) {
    Ascending(s) && forall x :: x in s <==> x in names
  }

  function Insert(s: seq<string>, x: string): seq<string> {
    if s == [] then [x] else if Less(x, s[0]) then [x] + s else [s[0]] + Insert(s[1..], x)
  }

  lemma {:induction false} InsertKeeps(s: seq<string>, x: string, y: string)
    ensures y in Insert(s, x) <==> y == x || y in s
  {
    hide Less;
    if s != [] && !Less(x, s[0]) {
      InsertKeeps(s[1..], x, y);
      assert s == [s[0]] + s[1..];
    }
  }

  lemma {:induction false} InsertAscends(s: seq<string>, x: string)
    requires Ascending(s) && x !in s
    ensures Ascending(Insert(s, x))
  {
    hide Less;
    if s == [] {
    } else if Less(x, s[0]) {
      forall j | 0 <= j < |s| ensures Less(x, s[j]) {
        if j > 0 {
          LessInTurn(x, s[0], s[j]);
        }
      }
    } else {
      InsertAscends(s[1..], x);
      var rest := Insert(s[1..], x);
      forall j | 0 <= j < |rest| ensures Less(s[0], rest[j]) {
        InsertKeeps(s[1..], x, rest[j]);
        LessIsTotal(s[0], x);
      }
    }
  }

  /** `sorted` on a set of distinct names. */
  ghost function Sorted(names: set<string>): (s: seq<string>)
    ensures Lists(s, names)
    decreases |names|
  {
    if names == {} then [] else
      var x :| x in names;
      var rest := Sorted(names - {x});
      InsertLists(rest, names - {x}, x);
      Insert(rest, x)
  }

  lemma InsertLists(s: seq<string>, names: set<string>, x: string)
    requires Lists(s, names) && x !in names
    ensures Lists(Insert(s, x), names + {x})
    ensures forall all :: all == names + {x} ==> Lists(Insert(s, x), all)
  {
    hide Less, Ascending;
    InsertAscends(s, x);
    forall y ensures y in Insert(s, x) <==> y in names + {x} {
      InsertKeeps(s, x, y);
    }
  }

  lemma {:induction false} ListsIsUnique(a: seq<string>, b: seq<string>, names: set<string>)
    requires Lists(a, names) && Lists(b, names)
    ensures a == b
    decreases |a|
  {
    hide Less;
    if a == [] {
      HasItsFirst(b);
    } else {
      assert a[0] in names && a[0] in b;
      FirstIsLeast(a, b, names);
      RestLists(a, names);
      RestLists(b, names);
      ListsIsUnique(a[1..], b[1..], names - {a[0]});
      assert a == [a[0]] + a[1..] && b == [b[0]] + b[1..];
    }
  }

  lemma HasItsFirst(s: seq<string>)
    ensures s != [] ==> exists x :: x in s
  {
    assert s != [] ==> s[0] in s;
  }

  lemma FirstIsLeast(a: seq<string>, b: seq<string>, names: set<string>)
    requires Lists(a, names) && Lists(b, names) && a != [] && b != []
    ensures a[0] == b[0]
  {
    hide Less;
    assert a[0] in b && b[0] in a;
    if a[0] != b[0] {
      var i :| 0 <= i < |b| && b[i] == a[0];
      var j :| 0 <= j < |a| && a[j] == b[0];
      assert Less(b[0], a[0]) && Less(a[0], b[0]);
      LessInTurn(a[0], b[0], a[0]);
      LessIsStrict(a[0]);
    }
  }

  lemma RestLists(a: seq<string>, names: set<string>)
    requires Lists(a, names) && a != []
    ensures Lists(a[1..], names - {a[0]})
  {
    hide Less;
    forall j | 1 <= j < |a| ensures a[j] != a[0] {
      assert Less(a[0], a[j]);
      LessIsStrict(a[0]);
    }
    assert a == [a[0]] + a[1..];
  }

  method Sort(names: set<string>) returns (s: seq<string>)
    ensures s == Sorted(names)
  {
    hide Less, Insert, Lists;
    var todo := names;
    s := [];
    NothingLists();
    assert names - names == {};
    while todo != {}
      invariant todo <= names && Lists(s, names - todo)
      decreases |todo|
    {
      var x :| x in todo;
      InsertLists(s, names - todo, x);
      assert names - (todo - {x}) == names - todo + {x};
      s := Insert(s, x);
      todo := todo - {x};
    }
    assert names - {} == names;
    ListsIsUnique(s, Sorted(names), names);
  }

  lemma NothingLists()
    ensures Lists([], {})
  {
  }

  // ---- sorting by a rank ----

  predicate InOrder<T>(xs: seq<T>, rank: T -> nat) {
    forall i :: 0 < i < |xs| ==> rank(xs[i - 1]) <= rank(xs[i])
  }

  /** Puts `x` behind everything that does not rank above it, as a stable sort does. */
  function Placed<T>(xs: seq<T>, x: T, rank: T -> nat): (placed: seq<T>)
    ensures multiset(placed) == multiset(xs) + multiset{x} && |placed| == |xs| + 1
    ensures placed[|placed| - 1] == x || (xs != [] && placed[|placed| - 1] == xs[|xs| - 1])
  {
    if xs == [] || rank(xs[|xs| - 1]) <= rank(x) then xs + [x]
    else
      var init, last := xs[..|xs| - 1], xs[|xs| - 1];
      assert xs == init + [last];
      Placed(init, x, rank) + [last]
  }

  /** The elements by rank, equal ranks in the order given. */
  function StableSorted<T>(xs: seq<T>, rank: T -> nat): (sorted: seq<T>)
    ensures multiset(sorted) == multiset(xs) && |sorted| == |xs|
  {
    if xs == [] then [] else
      assert xs == xs[..|xs| - 1] + [xs[|xs| - 1]];
      Placed(StableSorted(xs[..|xs| - 1], rank), xs[|xs| - 1], rank)
  }

  lemma {:induction false} PlacedInOrder<T>(xs: seq<T>, x: T, rank: T -> nat)
    requires InOrder(xs, rank)
    ensures InOrder(Placed(xs, x, rank), rank)
  {
    if xs != [] && rank(xs[|xs| - 1]) > rank(x) {
      var init, last := xs[..|xs| - 1], xs[|xs| - 1];
      PlacedInOrder(init, x, rank);
      var placed := Placed(init, x, rank);
      assert init != [] ==> rank(init[|init| - 1]) <= rank(last);
      assert rank(placed[|placed| - 1]) <= rank(last);
    }
  }

  lemma {:induction false} StableSortedInOrder<T>(xs: seq<T>, rank: T -> nat)
    ensures InOrder(StableSorted(xs, rank), rank)
  {
    if xs != [] {
      StableSortedInOrder(xs[..|xs| - 1], rank);
      PlacedInOrder(StableSorted(xs[..|xs| - 1], rank), xs[|xs| - 1], rank);
    }
  }

  method StableSort<T>(xs: seq<T>, rank: T -> nat) returns (sorted: seq<T>)
    ensures sorted == StableSorted(xs, rank)
  {
    hide Placed;
    sorted := [];
    for i := 0 to |xs|
      invariant sorted == StableSorted(xs[..i], rank)
    {
      sorted := Placed(sorted, xs[i], rank);
      assert xs[..i + 1][..i] == xs[..i];
    }
    assert xs[..|xs|] == xs;
  }

  // ---- what holds between every earlier and every later element ----

  predicate Pairwise<T>(holds: (T, T) -> bool, xs: seq<T>) {
    forall i, j :: 0 <= i < j < |xs| ==> holds(xs[i], xs[j])
  }

  /** What sorting makes of `x` in front of `y`. */
  predicate Fits<T>(holds: (T, T) -> bool, rank: T -> nat, x: T, y: T) {
    if rank(x) <= rank(y) then holds(x, y) else holds(y, x)
  }

  lemma {:induction false} LastIsHighest<T>(xs: seq<T>, rank: T -> nat, i: nat)
    requires InOrder(xs, rank) && i < |xs|
    ensures rank(xs[i]) <= rank(xs[|xs| - 1])
    decreases |xs| - i
  {
    if i < |xs| - 1 {
      LastIsHighest(xs, rank, i + 1);
    }
  }

  predicate Every<T>(holds: T -> bool, xs: seq<T>) {
    forall i :: 0 <= i < |xs| ==> holds(xs[i])
  }

  lemma OneMoreEvery<T>(holds: T -> bool, init: seq<T>, last: T)
    ensures Every(holds, init + [last]) <==> Every(holds, init) && holds(last)
  {
    var xs := init + [last];
    assert xs[|init|] == last;
    assert forall i :: 0 <= i < |init| ==> init[i] == xs[i];
    if Every(holds, xs) {
      forall i | 0 <= i < |init| ensures holds(init[i]) {
        assert init[i] == xs[i];
      }
    }
  }

  lemma {:induction false} OneMorePairwise<T>(holds: (T, T) -> bool, init: seq<T>, last: T)
    ensures Pairwise(holds, init + [last]) <==> Pairwise(holds, init) && Every(x => holds(x, last), init)
  {
    var xs := init + [last];
    assert forall i :: 0 <= i < |init| ==> xs[i] == init[i];
    assert xs[|init|] == last;
    if Pairwise(holds, xs) {
      forall i | 0 <= i < |init| ensures holds(init[i], last) {
        assert holds(xs[i], xs[|init|]);
      }
    }
  }

  lemma {:induction false} SameMembers<T>(xs: seq<T>, ys: seq<T>, holds: T -> bool)
    requires multiset(xs) == multiset(ys)
    ensures Every(holds, xs) <==> Every(holds, ys)
  {
    forall i | 0 <= i < |xs| ensures xs[i] in ys {
      assert xs[i] in multiset(ys);
    }
    forall i | 0 <= i < |ys| ensures ys[i] in xs {
      assert ys[i] in multiset(xs);
    }
  }

  lemma {:induction false} PlacedPairwise<T>(holds: (T, T) -> bool, xs: seq<T>, x: T, rank: T -> nat)
    requires InOrder(xs, rank)
    ensures Pairwise(holds, Placed(xs, x, rank)) <==> Pairwise(holds, xs) && Every(y => Fits(holds, rank, y, x), xs)
  {
    hide Pairwise, Every;
    var fits := y => Fits(holds, rank, y, x);
    if xs == [] || rank(xs[|xs| - 1]) <= rank(x) {
      OneMorePairwise(holds, xs, x);
      AllBefore(holds, xs, x, rank);
    } else {
      var init, last := xs[..|xs| - 1], xs[|xs| - 1];
      var placed := Placed(init, x, rank);
      PlacedPairwise(holds, init, x, rank);
      OneMorePairwise(holds, placed, last);
      assert xs == init + [last];
      OneMorePairwise(holds, init, last);
      OneMoreEvery(fits, init, last);
      SameMembers(placed, init + [x], y => holds(y, last));
      OneMoreEvery(y => holds(y, last), init, x);
    }
  }

  lemma {:induction false} AllBefore<T>(holds: (T, T) -> bool, xs: seq<T>, x: T, rank: T -> nat)
    requires InOrder(xs, rank) && (xs != [] ==> rank(xs[|xs| - 1]) <= rank(x))
    ensures Every(y => Fits(holds, rank, y, x), xs) <==> Every(y => holds(y, x), xs)
  {
    forall i | 0 <= i < |xs| ensures rank(xs[i]) <= rank(x) {
      LastIsHighest(xs, rank, i);
    }
  }

  /** A relation holds throughout the sorted list if and only if it holds, the way the ranks turn each
      pair, throughout the list as given. */
  lemma {:induction false} StableSortedPairwise<T>(holds: (T, T) -> bool, xs: seq<T>, rank: T -> nat)
    ensures Pairwise(holds, StableSorted(xs, rank)) <==> Pairwise((x, y) => Fits(holds, rank, x, y), xs)
  {
    hide Pairwise, Every, Fits;
    var fits := (x, y) => Fits(holds, rank, x, y);
    if xs == [] {
      NothingPairwise(holds);
      NothingPairwise(fits);
    } else {
      var init, last := xs[..|xs| - 1], xs[|xs| - 1];
      var sorted := StableSorted(init, rank);
      StableSortedPairwise(holds, init, rank);
      StableSortedInOrder(init, rank);
      PlacedPairwise(holds, sorted, last, rank);
      assert xs == init + [last];
      OneMorePairwise(fits, init, last);
      SameMembers(sorted, init, y => Fits(holds, rank, y, last));
      EverySame(x => fits(x, last), y => Fits(holds, rank, y, last), init);
    }
  }

  lemma {:induction false} EverySame<T>(f: T -> bool, g: T -> bool, xs: seq<T>)
    requires forall x :: f(x) == g(x)
    ensures Every(f, xs) == Every(g, xs)
  {
  }

  lemma NothingPairwise<T>(holds: (T, T) -> bool)
    ensures Pairwise(holds, [])
  {
  }

  // ---- sorting what a function makes of each element ----

  function Mapped<S, T>(f: S -> T, xs: seq<S>): (ys: seq<T>)
    ensures |ys| == |xs| && forall i :: 0 <= i < |xs| ==> ys[i] == f(xs[i])
  {
    seq(|xs|, i requires 0 <= i < |xs| => f(xs[i]))
  }

  lemma MappedAppend<S, T>(f: S -> T, xs: seq<S>, x: S)
    ensures Mapped(f, xs + [x]) == Mapped(f, xs) + [f(x)]
  {
  }

  lemma {:induction false} MappedPlaced<S, T>(f: S -> T, xs: seq<S>, x: S, rank: S -> nat, other: T -> nat)
    requires forall y :: rank(y) == other(f(y))
    ensures Mapped(f, Placed(xs, x, rank)) == Placed(Mapped(f, xs), f(x), other)
  {
    hide Mapped;
    var ys := Mapped(f, xs);
    if xs == [] || rank(xs[|xs| - 1]) <= rank(x) {
      MappedAppend(f, xs, x);
      assert Placed(xs, x, rank) == xs + [x];
      assert Placed(ys, f(x), other) == ys + [f(x)];
    } else {
      var init, last := xs[..|xs| - 1], xs[|xs| - 1];
      assert xs == init + [last];
      MappedAppend(f, init, last);
      assert ys[..|ys| - 1] == Mapped(f, init) && ys[|ys| - 1] == f(last);
      MappedPlaced(f, init, x, rank, other);
      assert Placed(xs, x, rank) == Placed(init, x, rank) + [last];
      MappedAppend(f, Placed(init, x, rank), last);
      assert Placed(ys, f(x), other) == Placed(Mapped(f, init), f(x), other) + [f(last)];
    }
  }

  /** Sorting first or mapping first makes no difference. */
  lemma {:induction false} MappedStableSorted<S, T>(f: S -> T, xs: seq<S>, rank: S -> nat, other: T -> nat)
    requires forall y :: rank(y) == other(f(y))
    ensures Mapped(f, StableSorted(xs, rank)) == StableSorted(Mapped(f, xs), other)
  {
    hide Placed, Mapped;
    if xs != [] {
      var init, last := xs[..|xs| - 1], xs[|xs| - 1];
      MappedStableSorted(f, init, rank, other);
      MappedPlaced(f, StableSorted(init, rank), last, rank, other);
      MappedAppend(f, init, last);
      assert xs == init + [last];
      StableSortedAppend(init, last, rank);
      StableSortedAppend(Mapped(f, init), f(last), other);
    }
  }

  lemma StableSortedAppend<T>(init: seq<T>, last: T, rank: T -> nat)
    ensures StableSorted(init + [last], rank) == Placed(StableSorted(init, rank), last, rank)
  {
    assert (init + [last])[..|init|] == init;
  }
}
