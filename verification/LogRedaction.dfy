/**
 The secret masker of the deployment logs: a registry of secrets (`Redactor`)
 and a masker for text that arrives in chunks (`StreamRedactor`).
 */
module LogRedaction {
  import opened Lists
  import opened Masking

  // ---- string primitives the masker is written with ------------------------

  /** First position at or after `from` where `pat` occurs, or -1. */
  function IndexOf(t: string, pat: string, from: nat): (r: int)
    ensures r == -1 || (from <= r && OccursAt(t, pat, r))
    ensures forall i | from <= i && (r == -1 || i < r) :: !OccursAt(t, pat, i)
    decreases |t| - from
  {
    if from + |pat| > |t| then -1
    else if OccursAt(t, pat, from) then from
    else IndexOf(t, pat, from + 1)
  }

  predicate StartsWith(t: string, prefix: string) {
    |prefix| <= |t| && t[..|prefix|] == prefix
  }

  function Max(a: int, b: int): int { if a >= b then a else b }
  function Min(a: int, b: int): int { if a <= b then a else b }

  /** `[...new Set(xs)]`: the first occurrence of each element, in order. */
  function Dedup(xs: seq<string>): (r: seq<string>)
    ensures Distinct(r) && Elems(r) == Elems(xs)
  {
    if xs == [] then []
    else
      ElemsOfInit(xs);
      var init, x := Dedup(xs[..|xs| - 1]), xs[|xs| - 1];
      assert x in Elems(init) <==> x in init;
      if x in init then init else init + [x]
  }

  function DropEmpty(xs: seq<string>): (r: seq<string>)
    requires Distinct(xs)
    ensures Distinct(r) && Elems(r) == Elems(xs) - {""}
  {
    if xs == [] then []
    else
      ElemsOfInit(xs);
      var init, x := DropEmpty(xs[..|xs| - 1]), xs[|xs| - 1];
      assert x in Elems(init) <==> x in init;
      ElemsConcat(init, [x]);
      ElemsOne(x);
      if x == "" then init else init + [x]
  }

  /** Puts `x` behind every form that is at least as long: the sort is stable. */
  function InsertByLength(sorted: seq<string>, x: string): (r: seq<string>)
    ensures Elems(r) == Elems(sorted) + {x}
    ensures LongestFirst(sorted) ==> LongestFirst(r)
    ensures Distinct(sorted) && x !in sorted ==> Distinct(r)
  {
    if sorted == [] || |x| > |sorted[0]| then [x] + sorted
    else
      var r' := InsertByLength(sorted[1..], x);
      InsertedElems(sorted, x, r');
      [sorted[0]] + r'
  }

  lemma InsertedElems(sorted: seq<string>, x: string, r: seq<string>)
    requires sorted != [] && Elems(r) == Elems(sorted[1..]) + {x}
    ensures Elems([sorted[0]] + r) == Elems(sorted) + {x}
    ensures forall i | 0 <= i < |r| :: r[i] == x || r[i] in sorted[1..]
  {
    assert sorted == [sorted[0]] + sorted[1..];
    ElemsConcat([sorted[0]], sorted[1..]);
    ElemsConcat([sorted[0]], r);
    ElemsOne(sorted[0]);
    forall i | 0 <= i < |r| ensures r[i] == x || r[i] in sorted[1..] {
      assert r[i] in Elems(r);
    }
  }

  function SortByLength(xs: seq<string>): (r: seq<string>)
    requires Distinct(xs)
    ensures LongestFirst(r) && Distinct(r) && Elems(r) == Elems(xs)
  {
    if xs == [] then []
    else
      ElemsOfInit(xs);
      var init, x := SortByLength(xs[..|xs| - 1]), xs[|xs| - 1];
      assert x in Elems(init) <==> x in init;
      InsertByLength(init, x)
  }

  /** The form list after registering a secret and its encoding. */
  function WithForms(forms: seq<string>, secret: string, encoded: string): (r: seq<string>)
    ensures LongestFirst(r) && Distinct(r) && NonEmptyForms(r)
    ensures Elems(r) == Elems(forms) + {secret, encoded} - {""}
  {
    var r := SortByLength(DropEmpty(Dedup(forms + [secret, encoded])));
    assert Elems(forms + [secret, encoded]) == Elems(forms) + {secret, encoded};
    assert forall i | 0 <= i < |r| :: r[i] in Elems(r);
    r
  }

  // ---- forms of one length keep their order --------------------------------------

  ghost function OfLength(xs: seq<string>, n: nat): seq<string> {
    if xs == [] then []
    else OfLength(xs[..|xs| - 1], n) + if |xs[|xs| - 1]| == n then [xs[|xs| - 1]] else []
  }

  lemma {:induction false} OfLengthConcat(a: seq<string>, b: seq<string>, n: nat)
    ensures OfLength(a + b, n) == OfLength(a, n) + OfLength(b, n)
  {
    if b == [] {
      assert a + b == a;
    } else {
      assert (a + b)[..|a + b| - 1] == a + b[..|b| - 1];
      OfLengthConcat(a, b[..|b| - 1], n);
    }
  }

  lemma OfLengthOne(x: string, n: nat)
    ensures OfLength([x], n) == if |x| == n then [x] else []
  {
    assert [x][..0] == [];
  }

  lemma {:induction false} NoneOfLength(xs: seq<string>, n: nat)
    requires forall i | 0 <= i < |xs| :: |xs[i]| != n
    ensures OfLength(xs, n) == []
  {
    if xs != [] { NoneOfLength(xs[..|xs| - 1], n); }
  }

  /** In front of shorter forms only. */
  lemma InFrontStable(sorted: seq<string>, x: string, n: nat)
    requires forall i | 0 <= i < |sorted| :: |sorted[i]| < |x|
    ensures OfLength([x] + sorted, n) == OfLength(sorted, n) + OfLength([x], n)
  {
    OfLengthConcat([x], sorted, n);
    OfLengthOne(x, n);
    if |x| == n { NoneOfLength(sorted, n); }
  }

  lemma BehindFirst(first: string, rest: seq<string>, r: seq<string>, x: string, n: nat)
    requires OfLength(r, n) == OfLength(rest, n) + OfLength([x], n)
    ensures OfLength([first] + r, n) == OfLength([first] + rest, n) + OfLength([x], n)
  {
    OfLengthConcat([first], rest, n);
    OfLengthConcat([first], r, n);
  }

  lemma {:induction false} InsertStable(sorted: seq<string>, x: string, n: nat)
    requires LongestFirst(sorted)
    ensures OfLength(InsertByLength(sorted, x), n) == OfLength(sorted, n) + OfLength([x], n)
  {
    if sorted == [] || |x| > |sorted[0]| {
      InFrontStable(sorted, x, n);
    } else {
      assert sorted == [sorted[0]] + sorted[1..];
      InsertStable(sorted[1..], x, n);
      BehindFirst(sorted[0], sorted[1..], InsertByLength(sorted[1..], x), x, n);
    }
  }

  lemma {:induction false} SortStable(xs: seq<string>, n: nat)
    requires Distinct(xs)
    ensures OfLength(SortByLength(xs), n) == OfLength(xs, n)
  {
    if xs != [] {
      var init, x := xs[..|xs| - 1], xs[|xs| - 1];
      SortStable(init, n);
      InsertStable(SortByLength(init), x, n);
      OfLengthOne(x, n);
    }
  }

  lemma {:induction false} DedupKeeps(xs: seq<string>)
    requires Distinct(xs)
    ensures Dedup(xs) == xs
  {
    if xs != [] {
      DedupKeeps(xs[..|xs| - 1]);
      assert xs == xs[..|xs| - 1] + [xs[|xs| - 1]];
    }
  }

  function WithNew(xs: seq<string>, x: string): seq<string> {
    if x in xs then xs else xs + [x]
  }

  lemma DedupOne(xs: seq<string>, x: string, once: seq<string>)
    requires Dedup(xs) == once
    ensures Dedup(xs + [x]) == WithNew(once, x)
  {
    assert (xs + [x])[..|xs|] == xs;
  }

  lemma {:induction false} DropEmptyKeeps(xs: seq<string>)
    requires Distinct(xs) && NonEmptyForms(xs)
    ensures DropEmpty(xs) == xs
  {
    if xs != [] {
      DropEmptyKeeps(xs[..|xs| - 1]);
      assert xs == xs[..|xs| - 1] + [xs[|xs| - 1]];
    }
  }

  lemma DropEmptyOne(xs: seq<string>, x: string)
    requires Distinct(xs + [x]) && Distinct(xs)
    ensures DropEmpty(xs + [x]) == if x == "" then DropEmpty(xs) else DropEmpty(xs) + [x]
  {
    assert (xs + [x])[..|xs|] == xs;
  }

  /** What a secret brings: itself and its encoding, as far as they are new. */
  function NewForms(forms: seq<string>, secret: string, encoded: string): seq<string> {
    (if secret in forms then [] else [secret]) + if encoded in forms || encoded in {secret, ""} then [] else [encoded]
  }

  lemma OneByOne(xs: seq<string>, a: string, b: string)
    ensures xs + [a, b] == (xs + [a]) + [b]
  {
  }

  lemma DedupTwo(forms: seq<string>, a: string, b: string)
    requires Distinct(forms)
    ensures Dedup(forms + [a, b]) == WithNew(WithNew(forms, a), b)
  {
    DedupKeeps(forms);
    DedupOne(forms, a, forms);
    DedupOne(forms + [a], b, WithNew(forms, a));
    OneByOne(forms, a, b);
  }

  lemma DropNew(xs: seq<string>, x: string)
    requires Distinct(xs) && NonEmptyForms(xs)
    ensures Distinct(WithNew(xs, x)) && DropEmpty(WithNew(xs, x)) == if x == "" then xs else WithNew(xs, x)
  {
    DropEmptyKeeps(xs);
    if x !in xs { DropEmptyOne(xs, x); }
  }

  lemma NewBehind(forms: seq<string>, secret: string, encoded: string)
    requires secret != "" && NonEmptyForms(forms)
    ensures var once := WithNew(forms, secret);
            forms + NewForms(forms, secret, encoded) == if encoded == "" then once else WithNew(once, encoded)
  {
    var once := WithNew(forms, secret);
    assert encoded in once <==> encoded in forms || encoded == secret;
  }

  lemma ListedOnce(forms: seq<string>, secret: string, encoded: string)
    requires Distinct(forms) && NonEmptyForms(forms) && secret != ""
    ensures DropEmpty(Dedup(forms + [secret, encoded])) == forms + NewForms(forms, secret, encoded)
  {
    DedupTwo(forms, secret, encoded);
    DropNew(WithNew(forms, secret), encoded);
    NewBehind(forms, secret, encoded);
  }

  /** The old forms of a length stay in their order, and the new ones come behind them. */
  lemma WithFormsStable(forms: seq<string>, secret: string, encoded: string, n: nat)
    requires Distinct(forms) && NonEmptyForms(forms) && secret != ""
    ensures OfLength(WithForms(forms, secret, encoded), n) == OfLength(forms, n) + OfLength(NewForms(forms, secret, encoded), n)
  {
    ListedOnce(forms, secret, encoded);
    SortStable(DropEmpty(Dedup(forms + [secret, encoded])), n);
    OfLengthConcat(forms, NewForms(forms, secret, encoded), n);
  }

  /** The masked forms of a set of secrets: each one raw and encoded. */
  ghost function FormsOf(known: set<string>, encode: string -> string): set<string> {
    (known + set s | s in known :: encode(s)) - {""}
  }

  lemma FormsOfUnion(a: set<string>, b: set<string>, encode: string -> string)
    ensures FormsOf(a + b, encode) == FormsOf(a, encode) + FormsOf(b, encode)
  {
  }

  lemma FormsOfOne(s: string, encode: string -> string)
    ensures FormsOf({s}, encode) == {s, encode(s)} - {""}
  {
  }

  /** The form list of a registry: the raw and encoded known secrets, each once, longest first. */
  ghost predicate FormList(forms: seq<string>, known: set<string>, encode: string -> string) {
    && NonEmptyForms(forms) && Distinct(forms) && LongestFirst(forms)
    && "" !in known
    && Elems(forms) == FormsOf(known, encode)
  }

  // ---- the registry of secrets ---------------------------------------------

  class Redactor {
    var forms: seq<string>
    var known: set<string>
    /** URL encoding of a secret. */
    const encode: string -> string

    ghost predicate Valid()
      reads this
    {
      FormList(forms, known, encode)
    }

    constructor (encode: string -> string)
      ensures Valid() && forms == [] && known == {} && this.encode == encode
    {
      this.encode := encode;
      forms := [];
      known := {};
    }

    /** Registers a secret; null is modelled by the empty text, which is ignored. */
    method Add(secret: string)
      requires Valid()
      modifies this
      ensures Valid()
      ensures known == old(known) + {secret} - {""}
      ensures Elems(forms) == Elems(old(forms)) + FormsOf({secret} - {""}, encode)
      ensures secret in old(known) ==> forms == old(forms)
      // Forms of one length stay in the order in which they came.
      ensures forall n: nat :: OfLength(forms, n) ==
                OfLength(old(forms), n)
                + if secret == "" || secret in old(known) then [] else OfLength(NewForms(old(forms), secret, encode(secret)), n)
    {
      forall n: nat | secret != ""
        ensures OfLength(WithForms(forms, secret, encode(secret)), n) ==
                OfLength(forms, n) + OfLength(NewForms(forms, secret, encode(secret)), n)
      {
        WithFormsStable(forms, secret, encode(secret), n);
      }
      if secret == "" || secret in known {
        FormsOfUnion(known, {secret} - {""}, encode);
        assert known + ({secret} - {""}) == known;
        return;
      }
      FormsOfUnion(known, {secret}, encode);
      FormsOfOne(secret, encode);
      assert {secret} - {""} == {secret};
      known := known + {secret};
      forms := WithForms(forms, secret, encode(secret));
    }

    method AddAll(secrets: seq<string>)
      requires Valid()
      modifies this
      ensures Valid()
      ensures known == old(known) + Elems(secrets) - {""}
      ensures Elems(old(forms)) <= Elems(forms)
    {
      assert known == old(known) + Elems(secrets[..0]) - {""};
      for i := 0 to |secrets|
        invariant Valid()
        invariant known == old(known) + Elems(secrets[..i]) - {""}
        invariant Elems(old(forms)) <= Elems(forms)
      {
        ElemsOfInit(secrets[..i + 1]);
        assert secrets[..i + 1][..i] == secrets[..i];
        Add(secrets[i]);
      }
      assert secrets[..|secrets|] == secrets;
    }

    method Mask(text: string) returns (out: string)
      requires Valid()
      ensures out == Apply(forms, text)
    {
      out := text;
      for i := 0 to |forms|
        invariant Apply(forms[i..], out) == Apply(forms, text)
      {
        var s := forms[i];
        assert forms[i..][0] == s && forms[i..][1..] == forms[i + 1..];
        if IndexOf(out, s, 0) != -1 {
          out := ReplaceAll(out, s);
        } else {
          NothingToReplace(out, s);
        }
      }
      assert forms[|forms|..] == [];
    }

    function Size(): nat
      reads this
    {
      |known|
    }
  }

  lemma SliceOneOn(t: string, i: nat, n: nat)
    requires t != ""
    ensures i + n <= |t[1..]| ==> t[1..][i..i + n] == t[i + 1..i + 1 + n]
  {
  }

  lemma {:induction false} NothingToReplace(t: string, f: string)
    requires f != "" && forall i | 0 <= i :: !OccursAt(t, f, i)
    ensures ReplaceAll(t, f) == t
    decreases |t|
  {
    if t != "" {
      ReplaceMiss(t, f);
      forall i | 0 <= i ensures !OccursAt(t[1..], f, i) {
        assert !OccursAt(t, f, i + 1);
        SliceOneOn(t, i, |f|);
      }
      NothingToReplace(t[1..], f);
    }
  }

  // ---- the stream masker ----------------------------------------------------

  class StreamRedactor {
    var pending: string
    const redactor: Redactor

    constructor (redactor: Redactor)
      ensures pending == "" && this.redactor == redactor
    {
      pending := "";
      this.redactor := redactor;
    }

    /** Releases what can be released now; the rest is held for the next push. */
    method Push(raw: string) returns (out: string)
      requires redactor.Valid()
      modifies this
      ensures out == Released(redactor.forms, old(pending), raw)
      ensures pending == Held(redactor.forms, old(pending), raw)
    {
      var text := pending + raw;
      if redactor.Size() == 0 {
        assert redactor.known == {};
        EmptyElems(redactor.forms);
        assert SafeCut(redactor.forms, text, |text|);
        assert text[..|text|] == text && text[|text|..] == "";
        pending := "";
        out := text;
        return;
      }
      var cut := SafeLength(text);
      pending := text[cut..];
      out := redactor.Mask(text[..cut]);
    }

    /** Ends a phase: the held text goes out, masked. */
    method Flush() returns (out: string)
      requires redactor.Valid()
      modifies this
      ensures out == Apply(redactor.forms, old(pending)) && pending == ""
    {
      var text := pending;
      pending := "";
      if text != "" {
        out := redactor.Mask(text);
      } else {
        EmptyStaysEmpty(redactor.forms);
        out := "";
      }
    }

    /** Cuts before the first tail that is a proper prefix of a form. */
    method HeldLength(text: string) returns (cut: nat)
      requires redactor.Valid()
      ensures cut <= |text| && NoSafeAbove(redactor.forms, text, cut)
      ensures NoneHeld(redactor.forms, text, cut)
    {
      var forms := redactor.forms;
      cut := |text|;
      for k := 0 to |forms|
        invariant cut <= |text|
        invariant NoSafeAbove(forms, text, cut)
        invariant NoneHeld(forms[..k], text, cut)
      {
        var f := forms[k];
        var i := IndexOf(text, [f[0]], Max(0, |text| - |f| + 1));
        SkippedNotHeld(text, f, Max(0, |text| - |f| + 1), i);
        while i != -1 && i < |text|
          invariant i == -1 || Max(0, |text| - |f| + 1) <= i
          invariant forall j | 0 <= j < |text| && (i == -1 || j < i) :: !HeldAt(text, f, j)
          decreases if i == -1 then 0 else |text| + 1 - i
        {
          if StartsWith(f, text[i..]) && |f| > |text| - i {
            HeldForbids(forms, text, f, i, cut);
            cut := Min(cut, i);
            break;
          }
          ghost var was := i;
          i := IndexOf(text, [f[0]], i + 1);
          SkippedNotHeld(text, f, was + 1, i);
        }
        NoneHeldGrows(forms, k, text, cut);
      }
      assert forms[..|forms|] == forms;
    }

    /** The longest head of `text` that can be released now: no shorter one. */
    method SafeLength(text: string) returns (cut: nat)
      requires redactor.Valid()
      ensures cut == GreatestSafeCut(redactor.forms, text)
    {
      var forms := redactor.forms;
      cut := HeldLength(text);
      var moved := true;
      while moved
        invariant cut <= |text|
        invariant NoSafeAbove(forms, text, cut)
        invariant NoneHeld(forms, text, cut)
        invariant !moved ==> forall g | g in forms :: !Straddles(text, g, cut)
        decreases cut, moved
      {
        moved := false;
        ghost var start := cut;
        for k := 0 to |forms|
          invariant cut <= start <= |text|
          invariant cut == start <==> !moved
          invariant NoSafeAbove(forms, text, cut)
          invariant !moved ==> forall g | g in forms[..k] :: !Straddles(text, g, cut)
        {
          var f := forms[k];
          var s := IndexOf(text, f, Max(0, cut - |f|));
          ghost var top := cut;
          while s != -1 && s < cut
            invariant cut == top
            invariant s == -1 || 0 <= s
            invariant s != -1 ==> OccursAt(text, f, s)
            invariant forall j | 0 <= j && (s == -1 || j < s) && j < cut < j + |f| :: !OccursAt(text, f, j)
            decreases if s == -1 then 0 else |text| + 1 - s
          {
            if s + |f| > cut {
              StraddleForbids(forms, text, f, s, cut);
              cut := s;
              moved := true;
              break;
            }
            s := IndexOf(text, f, s + 1);
          }
          assert forms[..k + 1] == forms[..k] + [f];
        }
        assert forms[..|forms|] == forms;
      }
      SafeCutIff(forms, text, cut);
    }
  }

  ghost predicate NoneHeld(forms: seq<string>, t: string, cut: int) {
    forall g, j | g in forms && 0 <= j < cut :: !HeldAt(t, g, j)
  }

  lemma NoneHeldGrows(forms: seq<string>, k: nat, t: string, cut: int)
    requires k < |forms| && NoneHeld(forms[..k], t, cut)
    requires forall j | 0 <= j < cut :: !HeldAt(t, forms[k], j)
    ensures NoneHeld(forms[..k + 1], t, cut)
  {
    assert forms[..k + 1] == forms[..k] + [forms[k]];
  }

  ghost predicate NoSafeAbove(forms: seq<string>, t: string, cut: int) {
    forall d | cut < d <= |t| :: !SafeCut(forms, t, d)
  }

  lemma HeldForbids(forms: seq<string>, t: string, f: string, i: nat, cut: nat)
    requires NonEmptyForms(forms) && f in forms && cut <= |t| && NoSafeAbove(forms, t, cut)
    requires HeldAt(t, f, i)
    ensures NoSafeAbove(forms, t, Min(cut, i))
  {
    forall d | Min(cut, i) < d <= |t| ensures !SafeCut(forms, t, d) {
      SafeCutIff(forms, t, d);
    }
  }

  lemma StraddleForbids(forms: seq<string>, t: string, f: string, s: nat, cut: nat)
    requires NonEmptyForms(forms) && f in forms && cut <= |t| && NoSafeAbove(forms, t, cut)
    requires OccursAt(t, f, s) && s < cut < s + |f|
    ensures NoSafeAbove(forms, t, s)
  {
    forall d | s < d <= |t| ensures !SafeCut(forms, t, d) {
      SafeCutIff(forms, t, d);
      assert d <= cut ==> Straddles(t, f, d);
    }
  }

  lemma SkippedNotHeld(t: string, f: string, lo: nat, hi: int)
    requires f != "" && hi == IndexOf(t, [f[0]], lo)
    ensures forall j | lo <= j < |t| && (hi == -1 || j < hi) :: !HeldAt(t, f, j)
  {
    forall j | lo <= j < |t| && (hi == -1 || j < hi) ensures !HeldAt(t, f, j) {
      assert !OccursAt(t, [f[0]], j);
      assert t[j..j + 1] == [t[j]];
      assert t[j..][0] == t[j];
    }
  }

  lemma {:induction false} EmptyStaysEmpty(forms: seq<string>)
    requires NonEmptyForms(forms)
    ensures Apply(forms, "") == ""
  {
    if forms != [] {
      EmptyStaysEmpty(forms[1..]);
    }
  }
}
