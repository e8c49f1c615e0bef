/** Alphabetical order of names, and the one way to list a set in that order. */
module Names {
  import opened Lists

  predicate Before(a: string, b: string) {
    if b == "" then false
    else if a == "" then true
    else if a[0] != b[0] then a[0] < b[0]
    else Before(a[1..], b[1..])
  }

  lemma {:induction false} BeforeTotal(a: string, b: string)
    ensures a == b || Before(a, b) || Before(b, a)
    ensures !(Before(a, b) && Before(b, a)) && !Before(a, a)
    decreases |a|
  {
    if a != "" {
      BeforeTotal(a[1..], a[1..]);
      if b != "" {
        BeforeTotal(a[1..], b[1..]);
        assert a == [a[0]] + a[1..] && b == [b[0]] + b[1..];
      }
    }
  }

  lemma {:induction false} BeforeTrans(a: string, b: string, c: string)
    requires Before(a, b) && Before(b, c)
    ensures Before(a, c)
    decreases |a|
  {
    if a != "" && a[0] == b[0] == c[0] {
      BeforeTrans(a[1..], b[1..], c[1..]);
    }
  }

  /** Equal up to `k`, and there the first one ends or has the smaller character. */
  ghost predicate SmallerAt(a: string, b: string, k: nat) {
    k <= |a| && k < |b| && a[..k] == b[..k] && (k < |a| ==> a[k] as int < b[k] as int)
  }

  /** Alphabetical order: the first difference decides, and a name comes before its continuations. */
  lemma {:induction false} BeforeMeaning(a: string, b: string)
    ensures Before(a, b) <==> exists k: nat :: SmallerAt(a, b, k)
    decreases |a|
  {
    if a == "" || b == "" {
      if b != "" { assert SmallerAt(a, b, 0); }
    } else if a[0] != b[0] {
      FirstDiffers(a, b);
    } else {
      BeforeMeaning(a[1..], b[1..]);
      if k: nat :| SmallerAt(a[1..], b[1..], k) { SmallerOneOn(a, b, k); }
      if k: nat :| SmallerAt(a, b, k) { SmallerOneBack(a, b, k); }
    }
  }

  lemma FirstDiffers(a: string, b: string)
    requires a != "" && b != "" && a[0] != b[0]
    ensures a[0] < b[0] <==> exists k: nat :: SmallerAt(a, b, k)
  {
    if a[0] < b[0] { assert SmallerAt(a, b, 0); }
    if k: nat :| SmallerAt(a, b, k) {
      if k > 0 { assert a[..k][0] == b[..k][0]; }
    }
  }

  lemma SmallerOneOn(a: string, b: string, k: nat)
    requires a != "" && b != "" && a[0] == b[0] && SmallerAt(a[1..], b[1..], k)
    ensures SmallerAt(a, b, k + 1)
  {
    assert a[..k + 1] == [a[0]] + a[1..][..k] && b[..k + 1] == [b[0]] + b[1..][..k];
  }

  lemma SmallerOneBack(a: string, b: string, k: nat)
    requires a != "" && b != "" && a[0] == b[0] && SmallerAt(a, b, k)
    ensures k > 0 && SmallerAt(a[1..], b[1..], k - 1)
  {
    assert k > 0 ==> a[1..][..k - 1] == a[..k][1..] && b[1..][..k - 1] == b[..k][1..];
  }

  ghost predicate Increasing(xs: seq<string>) {
    forall i, j | 0 <= i < j < |xs| :: Before(xs[i], xs[j])
  }

  /** A strictly increasing list is determined by the set of its elements. */
  lemma {:induction false} IncreasingUnique(xs: seq<string>, ys: seq<string>)
    requires Increasing(xs) && Increasing(ys) && Elems(xs) == Elems(ys)
    ensures xs == ys
    decreases |xs|
  {
    if xs == [] || ys == [] {
      EmptyElems(xs);
      EmptyElems(ys);
    } else {
      FirstIsLeast(xs, ys[0]);
      FirstIsLeast(ys, xs[0]);
      BeforeTotal(xs[0], ys[0]);
      TailElems(xs);
      TailElems(ys);
      IncreasingUnique(xs[1..], ys[1..]);
    }
  }

  lemma FirstIsLeast(xs: seq<string>, y: string)
    requires xs != [] && Increasing(xs)
    ensures y in Elems(xs) ==> y == xs[0] || Before(xs[0], y)
    ensures xs[0] in Elems(xs)
  {
  }

  lemma TailElems(xs: seq<string>)
    requires xs != [] && Increasing(xs)
    ensures Elems(xs[1..]) == Elems(xs) - {xs[0]}
    ensures Increasing(xs[1..])
  {
    BeforeTotal(xs[0], xs[0]);
    assert xs == [xs[0]] + xs[1..];
  }

  function Insert(xs: seq<string>, x: string): (r: seq<string>)
    ensures Elems(r) == Elems(xs) + {x}
  {
    ElemsCons(x, xs);
    if xs == [] || Before(x, xs[0]) then [x] + xs
    else
      assert xs == [xs[0]] + xs[1..];
      ElemsCons(xs[0], xs[1..]);
      ElemsCons(xs[0], Insert(xs[1..], x));
      [xs[0]] + Insert(xs[1..], x)
  }

  lemma {:induction false} InsertIncreasing(xs: seq<string>, x: string)
    requires Increasing(xs) && x !in xs
    ensures Increasing(Insert(xs, x))
  {
    if xs == [] {
    } else if Before(x, xs[0]) {
      forall j | 1 <= j < |xs| ensures Before(x, xs[j]) {
        BeforeTrans(x, xs[0], xs[j]);
      }
    } else {
      InsertIncreasing(xs[1..], x);
      BeforeTotal(x, xs[0]);
      var r := Insert(xs[1..], x);
      forall j | 0 <= j < |r| ensures Before(xs[0], r[j]) {
        assert r[j] in Elems(r);
      }
    }
  }

  /** `xs.sort()` for distinct names. */
  function Sort(xs: seq<string>): (r: seq<string>)
    ensures Elems(r) == Elems(xs)
  {
    if xs == [] then []
    else
      assert xs == [xs[0]] + xs[1..];
      ElemsCons(xs[0], xs[1..]);
      Insert(Sort(xs[1..]), xs[0])
  }

  lemma {:induction false} SortIncreasing(xs: seq<string>)
    requires Distinct(xs)
    ensures Increasing(Sort(xs))
  {
    if xs != [] {
      SortIncreasing(xs[1..]);
      var tail := Sort(xs[1..]);
      assert xs[0] in tail <==> xs[0] in Elems(tail);
      InsertIncreasing(Sort(xs[1..]), xs[0]);
    }
  }

  ghost function Listed(s: set<string>): seq<string> {
    if s == {} then []
    else
      var x :| x in s;
      [x] + Listed(s - {x})
  }

  lemma {:induction false} ListedElems(s: set<string>)
    ensures Elems(Listed(s)) == s && Distinct(Listed(s))
  {
    if s != {} {
      var x :| x in s && Listed(s) == [x] + Listed(s - {x});
      ListedElems(s - {x});
      ElemsCons(x, Listed(s - {x}));
      forall j | 0 <= j < |Listed(s - {x})| ensures Listed(s - {x})[j] != x {
        assert Listed(s - {x})[j] in Elems(Listed(s - {x}));
      }
    }
  }

  /** The elements of a set in alphabetical order. */
  ghost function Sorted(s: set<string>): (r: seq<string>)
    ensures Increasing(r) && Elems(r) == s
  {
    ListedElems(s);
    SortIncreasing(Listed(s));
    Sort(Listed(s))
  }
}
