/**
 Text masking as a mathematical object: what replacing a list of secret forms
 by "***" does to a text, when a text may be cut in two without changing the
 result, and what a stream of chunks masked piece by piece releases.
 */
module Masking {
  import opened Lists

  const MASK := "***"

  // ---- occurrences ---------------------------------------------------------

  predicate OccursAt(t: string, f: string, s: int) {
    0 <= s && s + |f| <= |t| && t[s..s + |f|] == f
  }

  ghost predicate Contains(t: string, f: string) {
    exists s :: OccursAt(t, f, s)
  }

  /** An occurrence of `f` starts before position `c` of `t` and ends after it. */
  ghost predicate Straddles(t: string, f: string, c: int) {
    exists s :: s < c < s + |f| && OccursAt(t, f, s)
  }

  // ---- texts and the mask ----------------------------------------------------

  /** No three mask characters in a row. */
  ghost predicate MaskFree(s: string) {
    !Contains(s, MASK)
  }

  /** Neither a mask nor the end of one at the front. */
  ghost predicate FrontSolid(s: string) {
    MaskFree(s) && (s != "" ==> s[0] != '*')
  }

  /** Neither a mask nor the beginning of one at the back. */
  ghost predicate BackSolid(s: string) {
    MaskFree(s) && (s != "" ==> s[|s| - 1] != '*')
  }

  /** No mask, and no part of a mask beside it, can become part of such a text. */
  ghost predicate Solid(s: string) {
    s != "" && FrontSolid(s) && BackSolid(s)
  }

  /** Forms that do no harm in a stream; every other form does beside some form of this kind. */
  ghost predicate Harmless(f: string) {
    f == "*" || f == MASK || Solid(f)
  }

  ghost predicate Maskable(forms: seq<string>) {
    NonEmptyForms(forms) && forall i | 0 <= i < |forms| :: Harmless(forms[i])
  }

  lemma Joined(a: string, b: string, c: string)
    ensures (a + b) + c == a + (b + c) && "" + a == a && a + "" == a
  {
  }

  lemma CharOf(t: string, f: string, s: int, j: int)
    ensures OccursAt(t, f, s) && 0 <= j < |f| ==> t[s + j] == f[j]
  {
    if OccursAt(t, f, s) && 0 <= j < |f| { assert t[s..s + |f|][j] == t[s + j]; }
  }

  lemma OccursInPart(s: string, i: nat, j: nat, f: string, k: int)
    requires i <= j <= |s| && OccursAt(s[i..j], f, k)
    ensures OccursAt(s, f, i + k)
  {
    var part := s[i..j];
    assert forall x | 0 <= x < |f| :: f[x] == part[k..k + |f|][x] == part[k + x] == s[i + k + x];
    assert s[i + k..i + k + |f|] == f;
  }

  lemma MaskFreePart(s: string, i: nat, j: nat)
    requires MaskFree(s) && i <= j <= |s|
    ensures MaskFree(s[i..j])
  {
    forall k ensures !OccursAt(s[i..j], MASK, k) {
      if OccursAt(s[i..j], MASK, k) {
        OccursInPart(s, i, j, MASK, k);
      }
    }
  }

  lemma SolidParts(s: string, k: nat)
    requires k <= |s|
    ensures FrontSolid(s) ==> FrontSolid(s[..k])
    ensures BackSolid(s) ==> BackSolid(s[k..])
  {
    if MaskFree(s) {
      MaskFreePart(s, 0, k);
      MaskFreePart(s, k, |s|);
      assert s[0..k] == s[..k] && s[k..|s|] == s[k..];
    }
  }

  ghost predicate NonEmptyForms(forms: seq<string>) {
    forall i | 0 <= i < |forms| :: forms[i] != ""
  }

  // ---- masking -------------------------------------------------------------

  /** `t.split(f).join('***')`: leftmost non-overlapping occurrences go. */
  function ReplaceAll(t: string, f: string): string
    requires f != ""
    decreases |t|
  {
    if |t| < |f| then t
    else if t[..|f|] == f then MASK + ReplaceAll(t[|f|..], f)
    else [t[0]] + ReplaceAll(t[1..], f)
  }

  /** Masks the forms one after the other, in list order. */
  function Apply(forms: seq<string>, t: string): string
    requires NonEmptyForms(forms)
  {
    if forms == [] then t else Apply(forms[1..], ReplaceAll(t, forms[0]))
  }

  // ---- what masking keeps --------------------------------------------------

  ghost predicate IsPrefix(s: string, t: string) {
    |s| <= |t| && t[..|s|] == s
  }

  ghost predicate IsSuffix(s: string, t: string) {
    |s| <= |t| && t[|t| - |s|..] == s
  }

  ghost predicate KeepsPrefixes(t: string, o: string) {
    forall s: string | BackSolid(s) && IsPrefix(s, o) :: IsPrefix(s, t)
  }

  ghost predicate KeepsSuffixes(t: string, o: string) {
    forall s: string | FrontSolid(s) && IsSuffix(s, o) :: IsSuffix(s, t)
  }

  /**
   `o` is an image of `t`: whatever part of `o` touches no mask was already
   there in `t`, at the same end when it sits at an end.
   */
  ghost predicate Image(t: string, o: string) {
    && KeepsPrefixes(t, o)
    && KeepsSuffixes(t, o)
    && (forall s: string | Solid(s) && Contains(o, s) :: Contains(t, s))
    && (MaskFree(o) ==> o == t)
  }

  lemma ImageTrans(t: string, o: string, p: string)
    requires Image(t, o) && Image(o, p)
    ensures Image(t, p)
  {
  }

  lemma MaskInFront(s: string, rest: string)
    requires IsPrefix(s, MASK + rest) && s != ""
    ensures !BackSolid(s)
  {
    assert forall i | 0 <= i < |s| :: s[i] == (MASK + rest)[i];
    if |s| >= 3 { assert OccursAt(s, MASK, 0); }
  }

  lemma ReplaceHit(t: string, f: string)
    requires f != "" && OccursAt(t, f, 0)
    ensures t == f + t[|f|..] && ReplaceAll(t, f) == MASK + ReplaceAll(t[|f|..], f)
  {
  }

  lemma ReplaceMiss(t: string, f: string)
    requires f != "" && t != "" && !OccursAt(t, f, 0)
    ensures t == [t[0]] + t[1..] && ReplaceAll(t, f) == [t[0]] + ReplaceAll(t[1..], f)
  {
  }

  lemma PrefixBehindChar(c: char, s: string, r: string, t: string)
    requires IsPrefix(s, [c] + r) && s != ""
    ensures IsPrefix(s[1..], r)
    ensures IsPrefix(s[1..], t) ==> IsPrefix(s, [c] + t)
  {
    assert s[1..] == ([c] + r)[..|s|][1..] == r[..|s| - 1];
    assert IsPrefix(s[1..], t) ==> ([c] + t)[..|s|] == [c] + t[..|s| - 1] == [c] + s[1..];
  }

  lemma PrefixOfReplaced(t: string, f: string, s: string)
    requires f != "" && BackSolid(s) && IsPrefix(s, ReplaceAll(t, f))
    ensures IsPrefix(s, t)
    decreases |t|
  {
    if t != "" && s != "" {
      if OccursAt(t, f, 0) {
        ReplaceHit(t, f);
        MaskInFront(s, ReplaceAll(t[|f|..], f));
      } else {
        ReplaceMiss(t, f);
        SolidParts(s, 1);
        PrefixBehindChar(t[0], s, ReplaceAll(t[1..], f), t[1..]);
        PrefixOfReplaced(t[1..], f, s[1..]);
      }
    }
  }

  lemma OccursBehind(p: string, r: string, s: string, k: int)
    requires |p| <= k
    ensures OccursAt(p + r, s, k) <==> OccursAt(r, s, k - |p|)
  {
    if k + |s| <= |p| + |r| {
      assert (p + r)[k..k + |s|] == r[k - |p|..k - |p| + |s|];
    }
  }

  lemma NotInMask(r: string, s: string, k: int)
    requires s != "" && s[0] != '*' && OccursAt(MASK + r, s, k)
    ensures k >= 3
  {
    assert (MASK + r)[k..k + |s|][0] == (MASK + r)[k];
  }

  /** A part of the output that touches no mask, found again in the input. */
  lemma FactorOfReplaced(t: string, f: string, s: string, k: int) returns (j: int)
    requires f != "" && Solid(s) && OccursAt(ReplaceAll(t, f), s, k)
    ensures OccursAt(t, s, j)
    decreases |t|
  {
    j := k;
    if t == "" {
    } else if OccursAt(t, f, 0) {
      var rest := t[|f|..];
      ReplaceHit(t, f);
      NotInMask(ReplaceAll(rest, f), s, k);
      OccursBehind(MASK, ReplaceAll(rest, f), s, k);
      j := FactorOfReplaced(rest, f, s, k - 3);
      OccursBehind(f, rest, s, j + |f|);
      j := j + |f|;
    } else if k == 0 {
      PrefixOfReplaced(t, f, s);
    } else {
      var rest := t[1..];
      ReplaceMiss(t, f);
      OccursBehind([t[0]], ReplaceAll(rest, f), s, k);
      j := FactorOfReplaced(rest, f, s, k - 1);
      OccursBehind([t[0]], rest, s, j + 1);
      j := j + 1;
    }
  }

  lemma MaskShows(rest: string)
    ensures !MaskFree(MASK + rest)
  {
    assert OccursAt(MASK + rest, MASK, 0);
  }

  lemma MaskFreeReplaced(t: string, f: string)
    requires f != "" && MaskFree(ReplaceAll(t, f))
    ensures ReplaceAll(t, f) == t
    decreases |t|
  {
    var r := ReplaceAll(t, f);
    if t != "" {
      if OccursAt(t, f, 0) {
        ReplaceHit(t, f);
        MaskShows(ReplaceAll(t[|f|..], f));
      } else {
        ReplaceMiss(t, f);
        MaskFreePart(r, 1, |r|);
        assert r[1..|r|] == ReplaceAll(t[1..], f);
        MaskFreeReplaced(t[1..], f);
      }
    }
  }

  lemma SuffixOfTail(s: string, p: string, t: string)
    ensures |s| <= |t| ==> (IsSuffix(s, p + t) <==> IsSuffix(s, t))
  {
    if |s| <= |t| {
      assert (p + t)[|p + t| - |s|..] == t[|t| - |s|..];
    }
  }

  lemma MaskInSuffix(s: string, rest: string)
    requires IsSuffix(s, MASK + rest) && |s| > |rest|
    ensures !FrontSolid(s)
  {
    assert s[0] == (MASK + rest)[3 + |rest| - |s|];
  }

  lemma SuffixBehindMask(s: string, rest: string)
    requires FrontSolid(s) && IsSuffix(s, MASK + rest)
    ensures IsSuffix(s, rest)
  {
    if |s| > |rest| { MaskInSuffix(s, rest); }
    SuffixOfTail(s, MASK, rest);
  }

  lemma SuffixOfReplaced(t: string, f: string, s: string)
    requires f != "" && FrontSolid(s) && IsSuffix(s, ReplaceAll(t, f))
    ensures IsSuffix(s, t)
    decreases |t|
  {
    if t == "" {
    } else if OccursAt(t, f, 0) {
      ReplaceHit(t, f);
      SuffixBehindMask(s, ReplaceAll(t[|f|..], f));
      SuffixOfReplaced(t[|f|..], f, s);
      SuffixOfTail(s, f, t[|f|..]);
    } else {
      ReplaceMiss(t, f);
      if |s| == |ReplaceAll(t, f)| {
        MaskFreeReplaced(t, f);
      } else {
        SuffixOfTail(s, [t[0]], ReplaceAll(t[1..], f));
        SuffixOfReplaced(t[1..], f, s);
        SuffixOfTail(s, [t[0]], t[1..]);
      }
    }
  }

  lemma ReplaceIsImage(t: string, f: string)
    requires f != ""
    ensures Image(t, ReplaceAll(t, f))
  {
    var o := ReplaceAll(t, f);
    forall s: string | BackSolid(s) && IsPrefix(s, o) ensures IsPrefix(s, t) { PrefixOfReplaced(t, f, s); }
    forall s: string | FrontSolid(s) && IsSuffix(s, o) ensures IsSuffix(s, t) { SuffixOfReplaced(t, f, s); }
    forall s: string | Solid(s) && Contains(o, s) ensures Contains(t, s) {
      var k :| OccursAt(o, s, k);
      var j := FactorOfReplaced(t, f, s, k);
    }
    if MaskFree(o) { MaskFreeReplaced(t, f); }
  }

  /** Masking invents no text: every part of the output that touches no mask was in the input. */
  lemma {:induction false} ApplyIsImage(forms: seq<string>, t: string)
    requires NonEmptyForms(forms)
    ensures Image(t, Apply(forms, t))
  {
    if forms != [] {
      var t' := ReplaceAll(t, forms[0]);
      ReplaceIsImage(t, forms[0]);
      ApplyIsImage(forms[1..], t');
      ImageTrans(t, t', Apply(forms, t));
    }
  }

  // ---- masking hides every form -------------------------------------------

  lemma {:induction false} ReplacedIsGone(t: string, f: string, s: int)
    requires Solid(f)
    ensures !OccursAt(ReplaceAll(t, f), f, s)
    decreases |t|
  {
    if t != "" && OccursAt(ReplaceAll(t, f), f, s) {
      if OccursAt(t, f, 0) {
        ReplaceHit(t, f);
        NotInMask(ReplaceAll(t[|f|..], f), f, s);
        OccursBehind(MASK, ReplaceAll(t[|f|..], f), f, s);
        ReplacedIsGone(t[|f|..], f, s - 3);
      } else if s == 0 {
        PrefixOfReplaced(t, f, f);
      } else {
        ReplaceMiss(t, f);
        OccursBehind([t[0]], ReplaceAll(t[1..], f), f, s);
        ReplacedIsGone(t[1..], f, s - 1);
      }
    }
  }

  /** After masking, no solid form is left anywhere in the text, whatever the other forms are. */
  lemma {:induction false} ApplyHides(forms: seq<string>, t: string, f: string)
    requires NonEmptyForms(forms) && f in forms && Solid(f)
    ensures !Contains(Apply(forms, t), f)
  {
    var t' := ReplaceAll(t, forms[0]);
    if f == forms[0] {
      forall s ensures !OccursAt(t', f, s) { ReplacedIsGone(t, f, s); }
      ApplyIsImage(forms[1..], t');
    } else {
      ApplyHides(forms[1..], t', f);
    }
  }

  // ---- cutting a text ------------------------------------------------------

  lemma DropKeepsCut(a: string, b: string, f: string, d: nat)
    requires d <= |a| && !Straddles(a + b, f, |a|)
    ensures !Straddles(a[d..] + b, f, |a| - d)
    ensures (a + b)[d..] == a[d..] + b
  {
    var a' := a[d..];
    forall s | s < |a'| < s + |f| ensures !OccursAt(a' + b, f, s) {
      if OccursAt(a' + b, f, s) {
        assert (a' + b)[s..s + |f|] == (a + b)[s + d..s + d + |f|];
        assert OccursAt(a + b, f, s + d);
      }
    }
  }

  lemma {:induction false} ReplaceSplits(a: string, b: string, f: string)
    requires f != "" && !Straddles(a + b, f, |a|)
    ensures ReplaceAll(a + b, f) == ReplaceAll(a, f) + ReplaceAll(b, f)
    decreases |a|
  {
    var t := a + b;
    if a == "" {
      assert t == b;
    } else if OccursAt(t, f, 0) {
      assert a[..|f|] == t[..|f|];
      DropKeepsCut(a, b, f, |f|);
      ReplaceSplits(a[|f|..], b, f);
    } else {
      assert |f| <= |a| ==> a[..|f|] == t[..|f|];
      ReplaceMiss(t, f);
      ReplaceMiss(a, f);
      DropKeepsCut(a, b, f, 1);
      ReplaceSplits(a[1..], b, f);
    }
  }

  lemma OccursInMiddle(pre: string, f: string, post: string)
    ensures OccursAt(pre + f + post, f, |pre|)
  {
  }

  lemma JointOccurrence(a: string, b: string, left: string, right: string)
    requires IsSuffix(left, a) && IsPrefix(right, b)
    ensures OccursAt(a + b, left + right, |a| - |left|)
  {
    var pre, post := a[..|a| - |left|], b[|right|..];
    OccursInMiddle(pre, left + right, post);
    assert a == pre + left && b == right + post;
    assert a + b == pre + (left + right) + post;
  }

  lemma PartsAtJoint(a: string, b: string, f: string, s: int)
    requires s <= |a| <= s + |f| && OccursAt(a + b, f, s)
    ensures IsSuffix(f[..|a| - s], a) && IsPrefix(f[|a| - s..], b)
  {
    var t, k := a + b, |a| - s;
    assert f[..k] == t[s..s + |f|][..k] == t[s..|a|] == a[s..];
    assert f[k..] == t[s..s + |f|][k..] == t[|a|..s + |f|] == b[..|f| - k];
  }

  /** An occurrence across the joint of two images was there before masking. */
  lemma StraddleBefore(a: string, b: string, a': string, b': string, f: string)
    requires KeepsSuffixes(a, a') && KeepsPrefixes(b, b') && Solid(f)
    requires Straddles(a' + b', f, |a'|)
    ensures Straddles(a + b, f, |a|)
  {
    var s :| s < |a'| < s + |f| && OccursAt(a' + b', f, s);
    var left, right := f[..|a'| - s], f[|a'| - s..];
    PartsAtJoint(a', b', f, s);
    SolidParts(f, |a'| - s);
    JointOccurrence(a, b, left, right);
    assert left + right == f;
  }

  lemma MaskReplacedByItself(t: string)
    ensures ReplaceAll(t, MASK) == t
    decreases |t|
  {
    if |t| >= 3 {
      MaskReplacedByItself(t[1..]);
      MaskReplacedByItself(t[3..]);
      assert t == t[..3] + t[3..] == [t[0]] + t[1..];
    }
  }

  lemma ReplaceImagesSplit(f: string, a: string, b: string, a': string, b': string)
    requires Harmless(f) && KeepsSuffixes(a, a') && KeepsPrefixes(b, b') && !Straddles(a + b, f, |a|)
    ensures ReplaceAll(a' + b', f) == ReplaceAll(a', f) + ReplaceAll(b', f)
  {
    if f == MASK {
      MaskReplacedByItself(a');
      MaskReplacedByItself(b');
      MaskReplacedByItself(a' + b');
    } else {
      if f != "*" && Straddles(a' + b', f, |a'|) {
        StraddleBefore(a, b, a', b', f);
      }
      ReplaceSplits(a', b', f);
    }
  }

  lemma {:induction false} ImagesSplit(forms: seq<string>, a: string, b: string, a': string, b': string)
    requires Maskable(forms) && Image(a, a') && Image(b, b')
    requires forall f | f in forms :: !Straddles(a + b, f, |a|)
    ensures Apply(forms, a' + b') == Apply(forms, a') + Apply(forms, b')
  {
    if forms != [] {
      var f := forms[0];
      ReplaceImagesSplit(f, a, b, a', b');
      ReplaceIsImage(a', f);
      ReplaceIsImage(b', f);
      ImageTrans(a, a', ReplaceAll(a', f));
      ImageTrans(b, b', ReplaceAll(b', f));
      ImagesSplit(forms[1..], a, b, ReplaceAll(a', f), ReplaceAll(b', f));
    }
  }

  /** Where no form straddles the joint, masking the halves masks the whole. */
  lemma ApplySplits(forms: seq<string>, a: string, b: string)
    requires Maskable(forms)
    requires forall f | f in forms :: !Straddles(a + b, f, |a|)
    ensures Apply(forms, a + b) == Apply(forms, a) + Apply(forms, b)
  {
    ImagesSplit(forms, a, b, a, b);
  }

  // ---- safe cuts -----------------------------------------------------------

  /** Whatever text follows, no form will ever straddle position `c`. */
  ghost predicate SafeCut(forms: seq<string>, t: string, c: int) {
    && 0 <= c <= |t|
    && forall u: string, f | f in forms :: !Straddles(t + u, f, c)
  }

  ghost function SafeCutBelow(forms: seq<string>, t: string, c: nat): (r: nat)
    requires c <= |t|
    ensures r <= c && SafeCut(forms, t, r)
    ensures forall d | r < d <= c :: !SafeCut(forms, t, d)
  {
    if c == 0 || SafeCut(forms, t, c) then c else SafeCutBelow(forms, t, c - 1)
  }

  /** The longest head of `t` that may be released without waiting for more text. */
  ghost function GreatestSafeCut(forms: seq<string>, t: string): (r: nat)
    ensures r <= |t| && SafeCut(forms, t, r)
    ensures forall d | r < d <= |t| :: !SafeCut(forms, t, d)
  {
    SafeCutBelow(forms, t, |t|)
  }

  /** `t[i..]` is a proper prefix of `f`: the tail may still grow into the form. */
  predicate HeldAt(t: string, f: string, i: int) {
    0 <= i < |t| && |t| - i < |f| && f[..|t| - i] == t[i..]
  }

  /** A cut is safe exactly when it splits no form and leaves no half-grown one behind. */
  lemma SafeCutIff(forms: seq<string>, t: string, c: int)
    requires NonEmptyForms(forms) && 0 <= c <= |t|
    ensures SafeCut(forms, t, c) <==>
              forall f | f in forms :: !Straddles(t, f, c) && forall i | 0 <= i < c :: !HeldAt(t, f, i)
  {
    assert t + "" == t;
    forall f, i | f in forms && 0 <= i < c && HeldAt(t, f, i) ensures !SafeCut(forms, t, c) {
      var u := f[|t| - i..];
      assert f == t[i..] + u;
      assert (t + u)[i..] == f;
      assert OccursAt(t + u, f, i);
      assert Straddles(t + u, f, c);
    }
    if forall f | f in forms :: !Straddles(t, f, c) && forall i | 0 <= i < c :: !HeldAt(t, f, i) {
      forall u: string, f | f in forms ensures !Straddles(t + u, f, c) {
        if s :| s < c < s + |f| && OccursAt(t + u, f, s) {
          if s + |f| <= |t| {
            assert OccursAt(t, f, s);
          } else {
            assert f[..|t| - s] == t[s..];
            assert HeldAt(t, f, s);
          }
        }
      }
    }
  }

  // ---- streams -------------------------------------------------------------

  ghost function Released(forms: seq<string>, pending: string, raw: string): string
    requires NonEmptyForms(forms)
  {
    var t := pending + raw;
    Apply(forms, t[..GreatestSafeCut(forms, t)])
  }

  ghost function Held(forms: seq<string>, pending: string, raw: string): string {
    var t := pending + raw;
    t[GreatestSafeCut(forms, t)..]
  }

  ghost function Concat(chunks: seq<string>): string {
    if chunks == [] then "" else chunks[0] + Concat(chunks[1..])
  }

  /** Everything released by pushing the chunks one by one and flushing at the end. */
  ghost function StreamOut(forms: seq<string>, pending: string, chunks: seq<string>): string
    requires NonEmptyForms(forms)
    decreases |chunks|
  {
    if chunks == [] then Apply(forms, pending)
    else Released(forms, pending, chunks[0]) + StreamOut(forms, Held(forms, pending, chunks[0]), chunks[1..])
  }

  lemma Regroup(t: string, c: nat, rest: string)
    requires c <= |t|
    ensures t[..c] + (t[c..] + rest) == t + rest
  {
  }

  lemma {:induction false} StreamFromPending(forms: seq<string>, pending: string, chunks: seq<string>)
    requires Maskable(forms)
    ensures StreamOut(forms, pending, chunks) == Apply(forms, pending + Concat(chunks))
    decreases |chunks|
  {
    if chunks == [] {
      assert pending + Concat(chunks) == pending;
    } else {
      var t := pending + chunks[0];
      var c := GreatestSafeCut(forms, t);
      var rest := Concat(chunks[1..]);
      StreamFromPending(forms, t[c..], chunks[1..]);
      Regroup(t, c, rest);
      assert t + rest == pending + Concat(chunks);
      ApplySplits(forms, t[..c], t[c..] + rest);
    }
  }

  /**
   The way a text is cut into chunks is invisible: for every chunking the
   released pieces, joined, are the masked text.
   */
  lemma ChunkingInvisible(forms: seq<string>, chunks: seq<string>)
    requires Maskable(forms)
    ensures StreamOut(forms, "", chunks) == Apply(forms, Concat(chunks))
  {
    StreamFromPending(forms, "", chunks);
    assert "" + Concat(chunks) == Concat(chunks);
  }

  /** Same text, two chunkings, same output. */
  lemma ChunkingsAgree(forms: seq<string>, xs: seq<string>, ys: seq<string>)
    requires Maskable(forms) && Concat(xs) == Concat(ys)
    ensures StreamOut(forms, "", xs) == StreamOut(forms, "", ys)
  {
    ChunkingInvisible(forms, xs);
    ChunkingInvisible(forms, ys);
  }

  // ---- secrets registered while the stream runs ------------------------------

  /** One push, with the forms registered at that moment. */
  datatype Push = Push(forms: seq<string>, raw: string)

  ghost predicate AllNonEmpty(pushes: seq<Push>) {
    forall i {:trigger pushes[i]} | 0 <= i < |pushes| :: NonEmptyForms(pushes[i].forms)
  }

  /** Every push happens with `f` registered. */
  ghost predicate AllMask(pushes: seq<Push>, f: string) {
    AllNonEmpty(pushes) && forall i {:trigger pushes[i]} | 0 <= i < |pushes| :: f in pushes[i].forms
  }

  /** Everything released by the pushes and by the flush that follows them. */
  ghost function ReleasedBy(pending: string, pushes: seq<Push>, last: seq<string>): string
    requires NonEmptyForms(last) && AllNonEmpty(pushes)
    decreases |pushes|
  {
    if pushes == [] then Apply(last, pending)
    else
      var p := pushes[0];
      Released(p.forms, pending, p.raw) + ReleasedBy(Held(p.forms, pending, p.raw), pushes[1..], last)
  }

  ghost function Raws(pushes: seq<Push>): string {
    if pushes == [] then "" else pushes[0].raw + Raws(pushes[1..])
  }

  lemma PrefixOfJoin(a: string, b: string, a': string, b': string)
    requires Image(a, a') && KeepsPrefixes(b, b')
    ensures KeepsPrefixes(a + b, a' + b')
  {
    forall s: string | BackSolid(s) && IsPrefix(s, a' + b') ensures IsPrefix(s, a + b) {
      if |s| <= |a'| {
        assert a'[..|s|] == (a' + b')[..|s|];
        assert IsPrefix(s, a);
        assert (a + b)[..|s|] == a[..|s|];
      } else {
        var tail := s[|a'|..];
        assert s[..|a'|] == a';
        MaskFreePart(s, 0, |a'|);
        assert a' == a;
        SolidParts(s, |a'|);
        assert tail == (a' + b')[|a'|..|s|] == b'[..|tail|];
        assert IsPrefix(tail, b');
        assert (a + b)[..|s|] == a + b[..|tail|] == s;
      }
    }
  }

  lemma OccurrenceInJoin(a: string, b: string, f: string, s: int)
    ensures OccursAt(a + b, f, s) ==>
              OccursAt(a, f, s) || OccursAt(b, f, s - |a|) || Straddles(a + b, f, |a|)
  {
    if OccursAt(a + b, f, s) {
      if s + |f| <= |a| {
        assert a[s..s + |f|] == (a + b)[s..s + |f|];
      } else if s >= |a| {
        assert b[s - |a|..s - |a| + |f|] == (a + b)[s..s + |f|];
      }
    }
  }

  lemma JoinHides(a: string, b: string, a': string, b': string, f: string)
    requires Image(a, a') && KeepsPrefixes(b, b') && Solid(f)
    requires !Straddles(a + b, f, |a|) && !Contains(a', f) && !Contains(b', f)
    ensures !Contains(a' + b', f)
  {
    forall s ensures !OccursAt(a' + b', f, s) {
      OccurrenceInJoin(a', b', f, s);
      if Straddles(a' + b', f, |a'|) {
        StraddleBefore(a, b, a', b', f);
      }
    }
  }

  /** One release in front of text `b'` that stands for `t[c..] + u`. */
  lemma ReleaseHides(forms: seq<string>, t: string, f: string, u: string, b': string)
    requires NonEmptyForms(forms) && f in forms && Solid(f) && !Contains(b', f)
    requires KeepsPrefixes(t[GreatestSafeCut(forms, t)..] + u, b')
    ensures var c := GreatestSafeCut(forms, t);
            && !Contains(Apply(forms, t[..c]) + b', f)
            && KeepsPrefixes(t + u, Apply(forms, t[..c]) + b')
  {
    var c := GreatestSafeCut(forms, t);
    var a, b := t[..c], t[c..] + u;
    assert a + b == t + u;
    ApplyIsImage(forms, a);
    ApplyHides(forms, a, f);
    JoinHides(a, b, Apply(forms, a), b', f);
    PrefixOfJoin(a, b, Apply(forms, a), b');
  }

  /**
   A form registered in the middle of a stream never shows in what is released
   from then on up to the next flush: not inside one release, not across
   releases, whatever the other forms are and whichever are registered later.
   */
  lemma {:induction false} LateFormHidden(pending: string, pushes: seq<Push>, last: seq<string>, f: string)
    requires NonEmptyForms(last) && f in last && AllMask(pushes, f) && Solid(f)
    ensures !Contains(ReleasedBy(pending, pushes, last), f)
    ensures KeepsPrefixes(pending + Raws(pushes), ReleasedBy(pending, pushes, last))
    decreases |pushes|
  {
    if pushes == [] {
      assert pending + Raws(pushes) == pending;
      ApplyHides(last, pending, f);
      ApplyIsImage(last, pending);
    } else {
      var p, u := pushes[0], Raws(pushes[1..]);
      var t := pending + p.raw;
      var c := GreatestSafeCut(p.forms, t);
      var released := ReleasedBy(t[c..], pushes[1..], last);
      LateFormHidden(t[c..], pushes[1..], last, f);
      ReleaseHides(p.forms, t, f, u, released);
      assert t + u == pending + (p.raw + u);
      assert ReleasedBy(pending, pushes, last) == Apply(p.forms, t[..c]) + released;
    }
  }

  // ---- longest form first ----------------------------------------------------

  ghost predicate LongestFirst(forms: seq<string>) {
    forall i, j | 0 <= i < j < |forms| :: |forms[i]| >= |forms[j]|
  }

  predicate AllStars(t: string) {
    forall i | 0 <= i < |t| :: t[i] == '*'
  }

  lemma StarsUntouched(t: string, f: string)
    requires AllStars(t) && Harmless(f) && f != "*"
    ensures ReplaceAll(t, f) == t
    decreases |t|
  {
    if f == MASK {
      MaskReplacedByItself(t);
    } else if |t| >= |f| {
      assert t[..|f|][0] == t[0];
      StarsUntouched(t[1..], f);
    }
  }

  lemma {:induction false} StarsStay(forms: seq<string>, t: string)
    requires Maskable(forms) && "*" !in forms && AllStars(t)
    ensures Apply(forms, t) == t
  {
    if forms != [] {
      assert forms[0] in forms;
      StarsUntouched(t, forms[0]);
      StarsStay(forms[1..], t);
    }
  }

  lemma StarsTripled(t: string)
    requires AllStars(t)
    ensures AllStars(ReplaceAll(t, "*")) && |ReplaceAll(t, "*")| == 3 * |t|
    decreases |t|
  {
    if t != "" {
      assert t[..1] == [t[0]];
      StarsTripled(t[1..]);
    }
  }

  lemma {:induction false} StarsGrow(forms: seq<string>, t: string)
    requires Maskable(forms) && Distinct(forms) && "*" in forms && AllStars(t)
    ensures |Apply(forms, t)| == 3 * |t|
  {
    if forms[0] == "*" {
      StarsTripled(t);
      assert forall k | 0 <= k < |forms[1..]| :: forms[1..][k] == forms[k + 1];
      StarsStay(forms[1..], ReplaceAll(t, "*"));
    } else {
      StarsUntouched(t, forms[0]);
      StarsGrow(forms[1..], t);
    }
  }

  /**
   A secret is masked as a whole, even when it contains a shorter secret: exactly
   the secret `*`, tried later, masks the mask once more.
   */
  lemma {:induction false} FormMaskedWhole(forms: seq<string>, i: nat)
    requires Maskable(forms) && LongestFirst(forms) && Distinct(forms) && i < |forms|
    ensures (Apply(forms, forms[i]) == MASK) <==> ("*" !in forms[i + 1..])
  {
    var f := forms[i];
    if i == 0 {
      assert ReplaceAll(f, f) == MASK + "" == MASK;
      if "*" in forms[1..] { StarsGrow(forms[1..], MASK); } else { StarsStay(forms[1..], MASK); }
    } else {
      var g := forms[0];
      ReplaceMiss(f, g);
      assert ReplaceAll(f[1..], g) == f[1..];
      assert ReplaceAll(f, g) == f;
      assert forms[1..][i - 1] == f && forms[1..][i..] == forms[i + 1..];
      FormMaskedWhole(forms[1..], i - 1);
    }
  }

  /** ... and wherever no other form overlaps its ends, inside any text. */
  lemma FormMaskedInText(forms: seq<string>, i: nat, a: string, b: string)
    requires Maskable(forms) && LongestFirst(forms) && Distinct(forms)
    requires i < |forms| && "*" !in forms[i + 1..]
    requires var f := forms[i];
             forall g | g in forms :: !Straddles(a + (f + b), g, |a|) && !Straddles(f + b, g, |f|)
    ensures Apply(forms, a + (forms[i] + b)) == Apply(forms, a) + (MASK + Apply(forms, b))
  {
    ApplySplits(forms, a, forms[i] + b);
    ApplySplits(forms, forms[i], b);
    FormMaskedWhole(forms, i);
  }

  // ---- why a form must not end in the mask character -------------------------

  /** The mask of one form can complete another that ends in '*'. */
  lemma StarFormsBreakStreaming()
    ensures var forms := ["ab", "x*"];
            NonEmptyForms(forms) && StreamOut(forms, "", ["xa", "b"]) != Apply(forms, Concat(["xa", "b"]))
  {
    OneShotOfStars();
    StreamOfStars();
    assert ["xa", "b"][1..] == ["b"] && ["b"][1..] == [];
    assert Concat(["xa", "b"]) == "xab";
    var out := StreamOut(["ab", "x*"], "", ["xa", "b"]);
    assert out[0] == 'x';
  }

  lemma OneShotOfStars()
    ensures Apply(["ab", "x*"], "xab") == "*****"
  {
    assert "xab"[1..] == "ab" && "xab"[..2] == "xa" && "ab"[2..] == "" && "ab"[..2] == "ab";
    assert ReplaceAll("ab", "ab") == MASK + "" == MASK;
    assert ReplaceAll("xab", "ab") == ['x'] + MASK == "x***";
    assert "x***"[..2] == "x*" && "x***"[2..] == "**" && "**"[1..] == "*" && "**"[..2] == "**";
    assert ReplaceAll("**", "x*") == "**";
    assert ReplaceAll("x***", "x*") == MASK + "**" == "*****";
    ApplyTwo("xab");
  }

  lemma ApplyTwo(t: string)
    ensures Apply(["ab", "x*"], t) == ReplaceAll(ReplaceAll(t, "ab"), "x*")
  {
    var second: seq<string> := ["x*"];
    assert ["ab", "x*"] == ["ab"] + second && second == ["x*"] + [];
    ApplyFirst("ab", second, t);
    ApplyFirst("x*", [], ReplaceAll(t, "ab"));
  }

  lemma ApplyFirst(f: string, rest: seq<string>, t: string)
    requires f != "" && NonEmptyForms(rest) && NonEmptyForms([f] + rest)
    ensures Apply([f] + rest, t) == Apply(rest, ReplaceAll(t, f))
  {
    assert ([f] + rest)[1..] == rest;
  }

  lemma StreamOfStars()
    ensures StreamOut(["ab", "x*"], "", ["xa", "b"]) == "x" + StreamOut(["ab", "x*"], "a", ["b"])
  {
    var forms, chunks := ["ab", "x*"], ["xa", "b"];
    FirstCut();
    assert "" + chunks[0] == "xa" && "xa"[..1] == "x" && "xa"[1..] == "a";
    assert chunks[1..] == ["b"];
    ApplyTwo("x");
    assert ReplaceAll("x", "ab") == "x" && ReplaceAll("x", "x*") == "x";
    assert Released(forms, "", chunks[0]) == "x" && Held(forms, "", chunks[0]) == "a";
    StreamStep(forms, "", chunks);
  }

  lemma StreamStep(forms: seq<string>, pending: string, chunks: seq<string>)
    requires NonEmptyForms(forms) && chunks != []
    ensures StreamOut(forms, pending, chunks) ==
              Released(forms, pending, chunks[0]) + StreamOut(forms, Held(forms, pending, chunks[0]), chunks[1..])
  {
  }

  lemma FirstCut()
    ensures GreatestSafeCut(["ab", "x*"], "xa") == 1
  {
    var forms := ["ab", "x*"];
    assert !SafeCut(forms, "xa", 2) by {
      assert "xa" + "b" == "xab" && "xab"[1..3] == "ab";
      assert OccursAt("xa" + "b", forms[0], 1);
      assert forms[0] in forms && Straddles("xa" + "b", forms[0], 2);
    }
    SafeCutIff(forms, "xa", 1);
    assert SafeCut(forms, "xa", 1) by {
      assert !OccursAt("xa", "ab", 0) && !OccursAt("xa", "x*", 0) by {
        assert "xa"[0..2][0] == 'x' && "xa"[0..2][1] == 'a';
      }
      assert !HeldAt("xa", "ab", 0) && !HeldAt("xa", "x*", 0);
    }
  }
}
