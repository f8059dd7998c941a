/** Generic sequence combinators: the `map`, `filter` and `flat` of
    JavaScript arrays, with the facts the rest of the model relies on. */
module Lists {

  function Map<A, B>(f: A -> B, xs: seq<A>): (r: seq<B>)
    ensures |r| == |xs|
    ensures forall i :: 0 <= i < |xs| ==> r[i] == f(xs[i])
  {
    seq(|xs|, i requires 0 <= i < |xs| => f(xs[i]))
  }

  lemma HeadTail<A>(xs: seq<A>)
    requires |xs| >= 1
    ensures [xs[0]] + xs[1..] == xs
  {
  }

  lemma MapCons<A, B>(f: A -> B, x: A, ys: seq<A>)
    ensures Map(f, [x] + ys) == [f(x)] + Map(f, ys)
  {
  }

  lemma MapConcat<A, B>(f: A -> B, a: seq<A>, b: seq<A>)
    ensures Map(f, a + b) == Map(f, a) + Map(f, b)
  {
  }

  lemma MapSingle<A, B>(f: A -> B, x: A)
    ensures Map(f, [x]) == [f(x)]
  {
  }

  /** Mapping a function that fixes every element changes nothing. */
  lemma MapFixed<A>(f: A -> A, xs: seq<A>)
    requires forall i :: 0 <= i < |xs| ==> f(xs[i]) == xs[i]
    ensures Map(f, xs) == xs
  {
  }

  /** Keeps, in order, the elements that satisfy `p`. */
  function Filter<A(!new)>(p: A -> bool, xs: seq<A>): (r: seq<A>)
    ensures |r| <= |xs|
    ensures forall i :: 0 <= i < |r| ==> p(r[i])
    ensures forall x :: x in r ==> x in xs
  {
    if |xs| == 0 then []
    else (if p(xs[0]) then [xs[0]] else []) + Filter(p, xs[1..])
  }

  /** Concatenation of a sequence of sequences. */
  function Flatten<A>(xss: seq<seq<A>>): seq<A>
  {
    if |xss| == 0 then [] else xss[0] + Flatten(xss[1..])
  }

  lemma FlattenCons<A>(x: seq<A>, xss: seq<seq<A>>)
    ensures Flatten([x] + xss) == x + Flatten(xss)
  {
    assert ([x] + xss)[1..] == xss;
  }

  lemma AllOfConcat<A>(p: A -> bool, a: seq<A>, b: seq<A>)
    requires forall i :: 0 <= i < |a| ==> p(a[i])
    requires forall i :: 0 <= i < |b| ==> p(b[i])
    ensures forall i :: 0 <= i < |a + b| ==> p((a + b)[i])
  {
  }

  lemma FilterCons<A(!new)>(p: A -> bool, x: A, ys: seq<A>)
    ensures Filter(p, [x] + ys) == (if p(x) then [x] else []) + Filter(p, ys)
  {
    assert ([x] + ys)[1..] == ys;
  }

  lemma FilterSingle<A(!new)>(p: A -> bool, x: A)
    ensures Filter(p, [x]) == if p(x) then [x] else []
  {
    assert [x][1..] == [];
  }

  lemma {:induction false} FilterConcat<A(!new)>(p: A -> bool, a: seq<A>, b: seq<A>)
    ensures Filter(p, a + b) == Filter(p, a) + Filter(p, b)
    decreases |a|
  {
    if |a| == 0 {
      assert a + b == b;
    } else {
      assert (a + b)[0] == a[0];
      assert (a + b)[1..] == a[1..] + b;
      FilterConcat(p, a[1..], b);
    }
  }

  /** A property every element has survives filtering. */
  lemma FilterPreserves<A(!new)>(p: A -> bool, q: A -> bool, xs: seq<A>)
    requires forall i :: 0 <= i < |xs| ==> q(xs[i])
    ensures forall i :: 0 <= i < |Filter(p, xs)| ==> q(Filter(p, xs)[i])
  {
    var r := Filter(p, xs);
    forall i | 0 <= i < |r| ensures q(r[i]) {
      assert r[i] in xs;
    }
  }

  lemma {:induction false} FilterKeepsAll<A(!new)>(p: A -> bool, xs: seq<A>)
    requires forall i :: 0 <= i < |xs| ==> p(xs[i])
    ensures Filter(p, xs) == xs
    decreases |xs|
  {
    if |xs| > 0 {
      FilterKeepsAll(p, xs[1..]);
    }
  }

  lemma {:induction false} FilterDropsAll<A(!new)>(p: A -> bool, xs: seq<A>)
    requires forall i :: 0 <= i < |xs| ==> !p(xs[i])
    ensures Filter(p, xs) == []
    decreases |xs|
  {
    if |xs| > 0 {
      FilterDropsAll(p, xs[1..]);
    }
  }

  lemma {:induction false} FlattenConcat<A>(a: seq<seq<A>>, b: seq<seq<A>>)
    ensures Flatten(a + b) == Flatten(a) + Flatten(b)
    decreases |a|
  {
    if |a| == 0 {
      assert a + b == b;
    } else {
      assert (a + b)[0] == a[0];
      assert (a + b)[1..] == a[1..] + b;
      FlattenConcat(a[1..], b);
    }
  }
}
