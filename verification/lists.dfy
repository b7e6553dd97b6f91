/** Filtering and mapping of lists, in order. */
module Lists {

  function Filter<T>(keep: T -> bool, xs: seq<T>): (ys: seq<T>)
    ensures |ys| <= |xs|
  {
    if xs == [] then []
    else if keep(xs[0]) then [xs[0]] + Filter(keep, xs[1..])
    else Filter(keep, xs[1..])
  }

  function Map<T, U>(f: T -> U, xs: seq<T>): (ys: seq<U>)
    ensures |ys| == |xs|
    ensures forall i :: 0 <= i < |xs| ==> ys[i] == f(xs[i])
  {
    seq(|xs|, i requires 0 <= i < |xs| => f(xs[i]))
  }

  lemma MapAppend<T, U>(f: T -> U, xs: seq<T>, x: T)
    ensures Map(f, xs + [x]) == Map(f, xs) + [f(x)]
  {
  }

  lemma FilterHead<T>(keep: T -> bool, x: T, xs: seq<T>)
    ensures Filter(keep, [x] + xs) == (if keep(x) then [x] else []) + Filter(keep, xs)
  {
    assert ([x] + xs)[1..] == xs;
  }

  lemma {:induction false} FilterConcat<T>(keep: T -> bool, a: seq<T>, b: seq<T>)
    ensures Filter(keep, a + b) == Filter(keep, a) + Filter(keep, b)
    decreases |a|, 2
  {
    if a == [] {
      assert a + b == b && Filter(keep, a) == [];
    } else {
      assert a == [a[0]] + a[1..];
      FilterConcatStep(keep, a[0], a[1..], b);
    }
  }

  lemma {:induction false} FilterConcatStep<T>(keep: T -> bool, x: T, a: seq<T>, b: seq<T>)
    ensures Filter(keep, [x] + a + b) == Filter(keep, [x] + a) + Filter(keep, b)
    decreases |a| + 1, 1
  {
    hide Filter;
    FilterConcat(keep, a, b);
    assert [x] + a + b == [x] + (a + b);
    FilterHead(keep, x, a + b);
    FilterHead(keep, x, a);
  }

  /** One more element at the end, the step of every filtering loop. */
  lemma FilterStep<T>(keep: T -> bool, xs: seq<T>, i: nat)
    requires i < |xs|
    ensures Filter(keep, xs[..i + 1]) == Filter(keep, xs[..i]) + if keep(xs[i]) then [xs[i]] else []
  {
    assert xs[..i + 1] == xs[..i] + [xs[i]];
    FilterConcat(keep, xs[..i], [xs[i]]);
    assert Filter(keep, [xs[i]][1..]) == [];
  }

  lemma {:induction false} FilterMembers<T>(keep: T -> bool, xs: seq<T>)
    ensures forall x :: x in Filter(keep, xs) <==> x in xs && keep(x)
  {
    if xs != [] {
      FilterMembers(keep, xs[1..]);
      assert xs == [xs[0]] + xs[1..];
      var f := Filter(keep, xs[1..]);
      assert keep(xs[0]) ==> forall x :: x in [xs[0]] + f <==> x == xs[0] || x in f;
    }
  }

  lemma {:induction false} FilterAll<T>(keep: T -> bool, xs: seq<T>)
    requires forall x :: x in xs ==> keep(x)
    ensures Filter(keep, xs) == xs
  {
    if xs != [] {
      assert xs[0] in xs;
      FilterAll(keep, xs[1..]);
    }
  }

  lemma {:induction false} FilterAllExactly<T>(keep: T -> bool, xs: seq<T>)
    ensures Filter(keep, xs) == xs <==> forall x :: x in xs ==> keep(x)
    ensures |Filter(keep, xs)| == |xs| ==> Filter(keep, xs) == xs
  {
    if xs != [] {
      FilterAllExactly(keep, xs[1..]);
      assert xs == [xs[0]] + xs[1..];
      if keep(xs[0]) {
        assert Filter(keep, xs)[1..] == Filter(keep, xs[1..]);
      }
    }
  }

  lemma {:induction false} FilterNone<T>(keep: T -> bool, xs: seq<T>)
    requires forall x :: x in xs ==> !keep(x)
    ensures Filter(keep, xs) == []
  {
    if xs != [] {
      assert xs[0] in xs;
      FilterNone(keep, xs[1..]);
    }
  }

  lemma {:induction false} FilterTwice<T>(keep: T -> bool, xs: seq<T>)
    ensures Filter(keep, Filter(keep, xs)) == Filter(keep, xs)
  {
    if xs != [] {
      FilterTwice(keep, xs[1..]);
      FilterHead(keep, xs[0], Filter(keep, xs[1..]));
    }
  }

  lemma FilterAppend<T>(keep: T -> bool, xs: seq<T>, x: T)
    ensures Filter(keep, xs + [x]) == Filter(keep, xs) + if keep(x) then [x] else []
  {
    FilterConcat(keep, xs, [x]);
    assert Filter(keep, [x][1..]) == [];
  }

  predicate Distinct<T(==)>(xs: seq<T>) {
    forall i, j :: 0 <= i < j < |xs| ==> xs[i] != xs[j]
  }

  lemma {:induction false} FilterDistinct<T>(keep: T -> bool, xs: seq<T>)
    requires Distinct(xs)
    ensures Distinct(Filter(keep, xs))
  {
    if xs != [] {
      assert forall i :: 0 <= i < |xs| - 1 ==> xs[1..][i] == xs[i + 1];
      FilterDistinct(keep, xs[1..]);
      FilterMembers(keep, xs[1..]);
      var rest := Filter(keep, xs[1..]);
      forall i | 0 <= i < |rest|
        ensures rest[i] != xs[0]
      {
        assert rest[i] in rest;
      }
    }
  }

  lemma {:induction false} FilterCommutes<T>(f: T -> bool, g: T -> bool, xs: seq<T>)
    ensures Filter(f, Filter(g, xs)) == Filter(g, Filter(f, xs))
  {
    if xs != [] {
      FilterCommutes(f, g, xs[1..]);
      FilterHead(f, xs[0], Filter(g, xs[1..]));
      FilterHead(g, xs[0], Filter(f, xs[1..]));
    }
  }

  /** An element that is kept stands where the number of those kept before it says. */
  lemma FilterPlace<T>(keep: T -> bool, xs: seq<T>, i: nat)
    requires i < |xs| && keep(xs[i])
    ensures |Filter(keep, xs[..i])| < |Filter(keep, xs)| && Filter(keep, xs)[|Filter(keep, xs[..i])|] == xs[i]
  {
    assert xs == xs[..i] + ([xs[i]] + xs[i + 1..]);
    FilterConcat(keep, xs[..i], [xs[i]] + xs[i + 1..]);
    FilterHead(keep, xs[i], xs[i + 1..]);
  }

  function Among<T(==)>(chosen: seq<T>): T -> bool {
    (x: T) => x in chosen
  }

  lemma {:induction false} FilterSame<T>(f: T -> bool, g: T -> bool, xs: seq<T>)
    requires forall x :: x in xs ==> (f(x) <==> g(x))
    ensures Filter(f, xs) == Filter(g, xs)
  {
    if xs != [] {
      assert xs[0] in xs;
      FilterSame(f, g, xs[1..]);
    }
  }

  lemma {:induction false} FilterWithin<T>(f: T -> bool, g: T -> bool, xs: seq<T>)
    requires forall x :: x in xs && f(x) ==> g(x)
    ensures Filter(f, Filter(g, xs)) == Filter(f, xs)
  {
    if xs != [] {
      assert xs[0] in xs;
      FilterWithin(f, g, xs[1..]);
      FilterHead(f, xs[0], Filter(g, xs[1..]));
    }
  }

  /** Every finite set can be listed without repetition. */
  lemma {:induction false} SomeOrder<T>(names: set<T>) returns (order: seq<T>)
    ensures forall n :: n in order <==> n in names
    ensures forall i, j :: 0 <= i < j < |order| ==> order[i] != order[j]
  {
    if names == {} {
      order := [];
    } else {
      var n :| n in names;
      var rest := SomeOrder(names - {n});
      order := [n] + rest;
    }
  }
}
