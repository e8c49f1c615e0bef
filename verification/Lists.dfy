/** Lists of texts, seen as sets. */
module Lists {

  ghost function Elems(xs: seq<string>): set<string> {
    set x | x in xs
  }

  lemma ElemsCons(x: string, xs: seq<string>)
    ensures Elems([x] + xs) == {x} + Elems(xs)
  {
  }

  lemma ElemsConcat(xs: seq<string>, ys: seq<string>)
    ensures Elems(xs + ys) == Elems(xs) + Elems(ys)
  {
  }

  lemma ElemsOne(x: string)
    ensures Elems([x]) == {x}
  {
  }

  lemma EmptyElems(xs: seq<string>)
    ensures Elems(xs) == {} <==> xs == []
  {
    assert xs != [] ==> xs[0] in Elems(xs);
  }

  ghost predicate Distinct(xs: seq<string>) {
    forall i, j | 0 <= i < j < |xs| :: xs[i] != xs[j]
  }

  lemma ElemsOfInit(xs: seq<string>)
    requires xs != []
    ensures Elems(xs) == Elems(xs[..|xs| - 1]) + {xs[|xs| - 1]}
    ensures Distinct(xs) ==> Distinct(xs[..|xs| - 1]) && xs[|xs| - 1] !in Elems(xs[..|xs| - 1])
  {
    assert xs == xs[..|xs| - 1] + [xs[|xs| - 1]];
  }
}
