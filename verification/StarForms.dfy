/**
 Which secrets may contain the mask character: exactly the harmless ones can be
 masked chunk by chunk. Beside any other secret one further secret and one way of
 cutting a text make the stream release something else than the masked text.
 */
module StarForms {
  import opened Lists
  import opened LogRedaction
  import opened Masking
  import opened UrlEncoding

  // ---- replacing changes the text ----------------------------------------------

  lemma TooLong(t: string, f: string)
    requires f != "" && |t| <= |f| && t != f
    ensures ReplaceAll(t, f) == t
  {
    if t != "" && |t| == |f| {
      assert t[..|f|] == t;
      assert ReplaceAll(t[1..], f) == t[1..];
    }
  }

  lemma {:induction false} ReplaceSize(t: string, f: string)
    requires f != ""
    ensures |f| >= 3 ==> |ReplaceAll(t, f)| <= |t|
    ensures |f| <= 3 ==> |ReplaceAll(t, f)| >= |t|
    decreases |t|
  {
    if t != "" {
      if OccursAt(t, f, 0) {
        ReplaceHit(t, f);
        ReplaceSize(t[|f|..], f);
      } else {
        ReplaceMiss(t, f);
        ReplaceSize(t[1..], f);
      }
    }
  }

  lemma {:induction false} ReplaceChanges(t: string, f: string, s: nat)
    requires f != "" && f != MASK && OccursAt(t, f, s)
    ensures ReplaceAll(t, f) != t
    decreases |t|
  {
    if OccursAt(t, f, 0) {
      var rest := t[|f|..];
      ReplaceHit(t, f);
      ReplaceSize(rest, f);
      if |f| == 3 {
        assert (MASK + ReplaceAll(rest, f))[..3] == MASK && (f + rest)[..3] == f;
      }
    } else {
      var rest := t[1..];
      ReplaceMiss(t, f);
      OccursBehind([t[0]], rest, f, s);
      ReplaceChanges(rest, f, s - 1);
      assert ([t[0]] + ReplaceAll(rest, f))[1..] == ReplaceAll(rest, f);
    }
  }

  ghost predicate AllLonger(forms: seq<string>, n: nat) {
    forall f | f in forms :: |f| > n
  }

  lemma {:induction false} ShortUntouched(forms: seq<string>, t: string)
    requires NonEmptyForms(forms) && AllLonger(forms, |t|)
    ensures Apply(forms, t) == t
  {
    if forms != [] {
      assert forms[0] in forms;
      assert ReplaceAll(t, forms[0]) == t;
      ShortUntouched(forms[1..], t);
    }
  }

  lemma ShortStreams(forms: seq<string>, t: string)
    requires NonEmptyForms(forms) && AllLonger(forms, |t|)
    ensures StreamOut(forms, "", [t]) == t
  {
    OneChunk(forms, "", t);
    var c := GreatestSafeCut(forms, "" + t);
    Joined(t, "", "");
    ShortUntouched(forms, t[..c]);
    ShortUntouched(forms, t[c..]);
    assert t[..c] + t[c..] == t;
  }

  lemma OneChunk(forms: seq<string>, pending: string, t: string)
    requires NonEmptyForms(forms)
    ensures var all := pending + t; var c := GreatestSafeCut(forms, all);
            StreamOut(forms, pending, [t]) == Apply(forms, all[..c]) + Apply(forms, all[c..])
  {
    StreamStep(forms, pending, [t]);
    assert [t][1..] == [];
  }

  lemma TwoChunks(forms: seq<string>, x: string, y: string)
    requires NonEmptyForms(forms)
    ensures var c := GreatestSafeCut(forms, x);
            StreamOut(forms, "", [x, y]) == Apply(forms, x[..c]) + StreamOut(forms, x[c..], [y])
  {
    StreamStep(forms, "", [x, y]);
    assert [x, y][1..] == [y];
    Joined(x, "", "");
  }

  lemma ReleasedThen(forms: seq<string>, p: string, x: string, y: string)
    requires NonEmptyForms(forms) && GreatestSafeCut(forms, p + x) == |p|
    ensures StreamOut(forms, "", [p + x, y]) == Apply(forms, p) + StreamOut(forms, x, [y])
  {
    TwoChunks(forms, p + x, y);
    assert (p + x)[..|p|] == p && (p + x)[|p|..] == x;
  }

  lemma ConcatTwo(x: string, y: string)
    ensures Concat([x, y]) == x + y
  {
    assert [x, y][1..] == [y] && [y][1..] == [];
    assert Concat([y]) == y + "" == y;
  }

  lemma HeldChar(t: string, f: string, i: int, j: int)
    ensures HeldAt(t, f, i) && 0 <= j < |t| - i ==> t[i + j] == f[j]
  {
    if HeldAt(t, f, i) && 0 <= j < |t| - i { assert f[..|t| - i][j] == t[i..][j]; }
  }

  // ---- the companion -------------------------------------------------------------

  /** A second secret, `cddd...`. */
  predicate Companion(g: string) {
    g != "" && g[0] == 'c' && forall i | 0 < i < |g| :: g[i] == 'd'
  }

  function NewCompanion(n: nat): (g: string)
    ensures Companion(g) && |g| == n + 1
  {
    ['c'] + seq(n, _ => 'd')
  }

  /** A secret and its encoding, as far as the masker can tell them apart here. */
  ghost predicate Twins(e: string, f: string) {
    && f != "" && e != "" && (e == f || |e| >= |f| + 2)
    && Stars(e) == Stars(f)
    && (e[0] == '*' <==> f[0] == '*')
    && forall i | 0 <= i < |f| && f[i] == '*' :: StarFrom(e, i)
  }

  ghost predicate StarFrom(e: string, i: nat) {
    exists j :: i <= j < |e| && e[j] == '*'
  }

  function Three(g: string, e: string, f: string): seq<string> {
    if e == f then [g, f] else [g, e, f]
  }

  lemma ApplyThree(g: string, e: string, f: string, t: string, t': string)
    requires g != "" && Twins(e, f) && ReplaceAll(t, g) == t' && (e == f || ReplaceAll(t', e) == t')
    ensures Apply(Three(g, e, f), t) == ReplaceAll(t', f)
  {
    ApplyFirst(f, [], t');
    assert [f] == [f] + [];
    if e == f {
      assert [g, f] == [g] + [f];
      ApplyFirst(g, [f], t);
    } else {
      assert [e, f] == [e] + [f] && [g, e, f] == [g] + [e, f];
      ApplyFirst(e, [f], t');
      ApplyFirst(g, [e, f], t);
    }
  }

  /** A text too short for the encoding, or with more mask characters, is not touched by it. */
  lemma TwinMisses(e: string, f: string, t: string)
    requires Twins(e, f) && |t| <= |f| + 2 && (|t| <= |f| || Stars(t) > Stars(f))
    ensures e == f || ReplaceAll(t, e) == t
  {
    if e != f { TooLong(t, e); }
  }

  // ---- forms that begin with the mask character ------------------------------------

  lemma CutBehind(forms: seq<string>, t: string)
    requires NonEmptyForms(forms) && forall h, i | h in forms && 0 <= i < |t| :: !HeldAt(t, h, i)
    ensures GreatestSafeCut(forms, t) == |t|
  {
    SafeCutIff(forms, t, |t|);
  }

  lemma CompanionGoes(g: string, e: string, f: string)
    requires Companion(g) && Twins(e, f) && f[0] == '*'
    ensures GreatestSafeCut(Three(g, e, f), g) == |g|
  {
    forall h, i | h in Three(g, e, f) && 0 <= i < |g| ensures !HeldAt(g, h, i) {
      HeldChar(g, h, i, 0);
    }
    CutBehind(Three(g, e, f), g);
  }

  lemma MaskedWhole(g: string)
    requires g != ""
    ensures ReplaceAll(g, g) == MASK
  {
    ReplaceHit(g, g);
    assert g == g + "";
  }

  lemma CompanionThen(g: string, y: string)
    requires |y| < |g|
    ensures ReplaceAll(g + y, g) == MASK + y
  {
    ReplaceHit(g + y, g);
  }

  lemma FrontText(f: string)
    requires f != "" && f[0] == '*'
    ensures MASK + f[1..] == "**" + f && OccursAt(MASK + f[1..], f, 2)
    ensures Stars(MASK + f[1..]) == Stars(f) + 2
  {
    var t := MASK + f[1..];
    assert t == "**" + f;
    assert multiset(t) == multiset("**") + multiset(f);
    assert t[2..2 + |f|] == f;
  }

  lemma MaskTooShort(e: string, f: string)
    requires Twins(e, f) && |f| >= 2 && f != "**" && f != MASK
    ensures ReplaceAll(MASK, f) == MASK && (e == f || ReplaceAll(MASK, e) == MASK)
  {
    if e != f { TooLong(MASK, e); }
    if |f| >= 3 {
      TooLong(MASK, f);
    } else {
      assert MASK[..2] == "**" && MASK[1..] == "**" && "**"[..2] == "**" && "**"[1..] == "*";
      ReplaceMiss(MASK, f);
      ReplaceMiss("**", f);
    }
  }

  /** The rest of the form, behind the released mask, completes it. */
  lemma FrontTears(g: string, e: string, f: string)
    requires Companion(g) && Twins(e, f) && |g| > |e|
    requires f[0] == '*' && |f| >= 2 && f != "**" && f != MASK
    ensures var forms, chunks, t := Three(g, e, f), [g, f[1..]], MASK + f[1..];
            StreamOut(forms, "", chunks) == t && Apply(forms, Concat(chunks)) == ReplaceAll(t, f)
  {
    FrontStreams(g, e, f);
    ConcatTwo(g, f[1..]);
    FrontOneShot(g, e, f, f[1..], MASK + f[1..]);
  }

  lemma FrontOneShot(g: string, e: string, f: string, y: string, t: string)
    requires Companion(g) && Twins(e, f) && |g| > |e| && f[0] == '*' && y == f[1..] && t == MASK + y
    ensures Apply(Three(g, e, f), g + y) == ReplaceAll(t, f)
  {
    CompanionThen(g, y);
    FrontText(f);
    TwinMisses(e, f, t);
    ApplyThree(g, e, f, g + y, t);
  }

  lemma FrontStreams(g: string, e: string, f: string)
    requires Companion(g) && Twins(e, f) && |g| > |e|
    requires f[0] == '*' && |f| >= 2 && f != "**" && f != MASK
    ensures StreamOut(Three(g, e, f), "", [g, f[1..]]) == MASK + f[1..]
  {
    var forms, y := Three(g, e, f), f[1..];
    CompanionGoes(g, e, f);
    Joined(g, "", "");
    ReleasedThen(forms, g, "", y);
    MaskedWhole(g);
    MaskTooShort(e, f);
    ApplyThree(g, e, f, g, MASK);
    ShortStreams(forms, y);
  }

  /** The form `**` is found in every mask, and once more where it meets a further `*`. */
  lemma DoubleStarTears(g: string)
    requires Companion(g) && |g| > 2
    ensures var forms, chunks := Three(g, "**", "**"), [g, "*"];
            StreamOut(forms, "", chunks) == "*****" && Apply(forms, Concat(chunks)) == "******"
  {
    DoubleStars();
    DoubleStarStreams(g);
    ConcatTwo(g, "*");
    CompanionThen(g, "*");
    ApplyThree(g, "**", "**", g + "*", "****");
  }

  lemma DoubleStarStreams(g: string)
    requires Companion(g) && |g| > 2
    ensures StreamOut(Three(g, "**", "**"), "", [g, "*"]) == "****" + "*"
  {
    var forms := Three(g, "**", "**");
    CompanionGoes(g, "**", "**");
    Joined(g, "", "");
    ReleasedThen(forms, g, "", "*");
    MaskedWhole(g);
    DoubleStars();
    ApplyThree(g, "**", "**", g, MASK);
    ShortStreams(forms, "*");
  }

  lemma DoubleStars()
    ensures ReplaceAll(MASK, "**") == "****" && ReplaceAll("****", "**") == "******"
  {
    assert MASK[..2] == "**" && MASK[2..] == "*" && ReplaceAll("*", "**") == "*";
    assert "**"[..2] == "**" && "**"[2..] == "" && ReplaceAll("**", "**") == MASK + "";
    assert "****"[..2] == "**" && "****"[2..] == "**";
  }

  // ---- forms that hold a mask or end in the mask character --------------------------

  lemma CompanionNotAcross(p: string, y: string, g: string)
    requires Companion(g) && y != "" && y[0] == 'c'
    ensures !Straddles(p + y, g, |p|)
    ensures forall i | 0 <= i < |p| :: !HeldAt(p + y, g, i)
  {
    var t := p + y;
    forall s | s < |p| < s + |g| ensures !OccursAt(t, g, s) {
      CharOf(t, g, s, |p| - s);
    }
    forall i | 0 <= i < |p| ensures !HeldAt(t, g, i) {
      HeldChar(t, g, i, |p| - i);
    }
  }

  lemma StarNotAcross(p: string, x: string, h: string, s: int)
    requires StarFrom(h, |p|) && '*' !in x
    ensures !OccursAt(p + x, h, s)
  {
    var j :| |p| <= j < |h| && h[j] == '*';
    CharOf(p + x, h, s, j);
  }

  /** What stands in front of a companion that has begun is released. */
  lemma CutAtCompanion(g: string, e: string, f: string, p: string, x: string)
    requires Companion(g) && Twins(e, f) && IsPrefix(x, g) && |e| <= |x| < |g|
    requires StarFrom(e, |p|) && StarFrom(f, |p|)
    ensures GreatestSafeCut(Three(g, e, f), p + x) == |p|
  {
    var forms, t := Three(g, e, f), p + x;
    assert x[0] == g[0];
    assert '*' !in x by { assert forall i | 0 <= i < |x| :: x[i] == g[i]; }
    CompanionNotAcross(p, x, g);
    forall h | h in forms
      ensures !Straddles(t, h, |p|) && forall i | 0 <= i < |p| :: !HeldAt(t, h, i)
    {
      if h != g {
        forall s ensures !OccursAt(t, h, s) { StarNotAcross(p, x, h, s); }
      }
    }
    SafeCutIff(forms, t, |p|);
    assert t[|p|..] == x;
    assert HeldAt(t, g, |p|) && g in forms;
    forall d | |p| < d <= |t| ensures !SafeCut(forms, t, d) { SafeCutIff(forms, t, d); }
  }

  lemma MaskThenShort(h: string, s: string)
    requires h != "" && h[0] != '*' && |s| < |h|
    ensures ReplaceAll(MASK + s, h) == MASK + s
  {
    var t := MASK + s;
    forall i | 0 <= i ensures !OccursAt(t, h, i) {
      CharOf(t, h, i, 0);
    }
    NothingToReplace(t, h);
  }

  lemma MaskedWith(g: string, e: string, f: string, s: string)
    requires Companion(g) && Twins(e, f) && |g| > |e| && f[0] != '*' && |s| < |f|
    ensures Apply(Three(g, e, f), g + s) == MASK + s
  {
    CompanionThen(g, s);
    MaskThenShort(e, s);
    MaskThenShort(f, s);
    ApplyThree(g, e, f, g + s, MASK + s);
  }

  /** The rest of the companion, and text behind it: released at once, or in two pieces behind the companion. */
  lemma RestInPieces(forms: seq<string>, g: string, k: nat, s: string) returns (c: int)
    requires NonEmptyForms(forms) && g in forms && k <= |g|
    ensures var out := StreamOut(forms, g[..k], [g[k..] + s]);
            (c == -1 && out == Apply(forms, "") + Apply(forms, g + s))
            || (0 <= c <= |s| && out == Apply(forms, g + s[..c]) + Apply(forms, s[c..]))
  {
    var t := g + s;
    Regroup(g, k, s);
    OneChunk(forms, g[..k], g[k..] + s);
    c := GreatestSafeCut(forms, t);
    if c == 0 {
      assert t[..0] == "" && t[0..] == t;
      c := -1;
    } else {
      CompanionNotCut(forms, g, s, c);
      c := c - |g|;
      assert t[..|g| + c] == g + s[..c] && t[|g| + c..] == s[c..];
    }
  }

  lemma RestOfCompanion(g: string, e: string, f: string, k: nat, s: string)
    requires Companion(g) && Twins(e, f) && |g| > |e| && f[0] != '*' && |s| < |f| && k <= |g|
    ensures StreamOut(Three(g, e, f), g[..k], [g[k..] + s]) == MASK + s
  {
    var c := RestInPieces(Three(g, e, f), g, k, s);
    if c == -1 {
      ThreeShort(g, e, f, "");
      MaskedWith(g, e, f, s);
    } else {
      PiecesBehind(g, e, f, s, c);
    }
  }

  lemma PiecesBehind(g: string, e: string, f: string, s: string, k: nat)
    requires Companion(g) && Twins(e, f) && |g| > |e| && f[0] != '*' && |s| < |f| && k <= |s|
    ensures Apply(Three(g, e, f), g + s[..k]) + Apply(Three(g, e, f), s[k..]) == MASK + s
  {
    MaskedWith(g, e, f, s[..k]);
    ThreeShort(g, e, f, s[k..]);
    assert s[..k] + s[k..] == s;
    Joined(MASK, s[..k], s[k..]);
  }

  lemma ThreeShort(g: string, e: string, f: string, t: string)
    requires Twins(e, f) && |g| > |e| && |t| < |f|
    ensures Apply(Three(g, e, f), t) == t
  {
    ShortUntouched(Three(g, e, f), t);
  }

  lemma CompanionNotCut(forms: seq<string>, g: string, s: string, c: nat)
    requires g in forms && 0 < c <= |g + s| && SafeCut(forms, g + s, c)
    ensures c >= |g|
  {
    var t := g + s;
    assert t + "" == t;
    OccursInMiddle("", g, s);
    assert "" + g + s == t;
    assert !Straddles(t + "", g, c);
  }

  /** The mask of the companion, behind released text, completes the form. */
  lemma BackTears(g: string, e: string, f: string, p: string, s: string)
    requires Companion(g) && Twins(e, f) && |g| > |e| && f[0] != '*' && |s| < |f| && |p| < |f|
    requires StarFrom(e, |p|) && StarFrom(f, |p|)
    requires var t := p + (MASK + s); |t| <= |f| + 2 && (|t| <= |f| || Stars(t) > Stars(f))
    ensures var forms, chunks, t := Three(g, e, f), [p + g[..|e|], g[|e|..] + s], p + (MASK + s);
            StreamOut(forms, "", chunks) == t && Apply(forms, Concat(chunks)) == ReplaceAll(t, f)
  {
    BackStreams(g, e, f, p, g[..|e|], s);
    ConcatTwo(p + g[..|e|], g[|e|..] + s);
    Joined(p, g[..|e|], g[|e|..] + s);
    Regroup(g, |e|, s);
    BackOneShot(g, e, f, p, s, p + (MASK + s));
  }

  lemma BackStreams(g: string, e: string, f: string, p: string, x: string, s: string)
    requires Companion(g) && Twins(e, f) && |g| > |e| && f[0] != '*' && |s| < |f| && |p| < |f|
    requires StarFrom(e, |p|) && StarFrom(f, |p|) && x == g[..|e|]
    ensures StreamOut(Three(g, e, f), "", [p + x, g[|e|..] + s]) == p + (MASK + s)
  {
    CutAtCompanion(g, e, f, p, x);
    ThreeShort(g, e, f, p);
    RestOfCompanion(g, e, f, |e|, s);
    ReleasedThen(Three(g, e, f), p, x, g[|e|..] + s);
  }

  lemma BackOneShot(g: string, e: string, f: string, p: string, s: string, t: string)
    requires Companion(g) && Twins(e, f) && |g| > |e| && |p| < |g| && |s| < |g| && t == p + (MASK + s)
    requires |t| <= |f| + 2 && (|t| <= |f| || Stars(t) > Stars(f))
    ensures Apply(Three(g, e, f), p + (g + s)) == ReplaceAll(t, f)
  {
    CompanionNotAcross(p, g + s, g);
    ReplaceSplits(p, g + s, g);
    CompanionThen(g, s);
    TwinMisses(e, f, t);
    ApplyThree(g, e, f, p + (g + s), t);
  }

  // ---- every other form tears -----------------------------------------------------------

  /** A text and two chunks of it for which the stream releases something else, the form itself included. */
  lemma TearingChunks(g: string, e: string, f: string) returns (x: string, y: string)
    requires Companion(g) && Twins(e, f) && |g| > |e| && !Harmless(f) && (f == "**" ==> e == f)
    ensures var forms := Three(g, e, f);
            && StreamOut(forms, "", [x, y]) != Apply(forms, Concat([x, y]))
            && Contains(StreamOut(forms, "", [x, y]), f)
  {
    if f == "**" {
      x, y := g, "*";
      DoubleStarTears(g);
      assert OccursAt("*****", f, 0);
    } else if f[0] == '*' {
      x, y := g, f[1..];
      FrontTears(g, e, f);
      FrontText(f);
      ReplaceChanges(MASK + y, f, 2);
    } else {
      x, y := TearingBehind(g, e, f);
    }
  }

  lemma TearingBehind(g: string, e: string, f: string) returns (x: string, y: string)
    requires Companion(g) && Twins(e, f) && |g| > |e| && !Harmless(f) && f[0] != '*'
    ensures var forms := Three(g, e, f);
            && StreamOut(forms, "", [x, y]) != Apply(forms, Concat([x, y]))
            && Contains(StreamOut(forms, "", [x, y]), f)
  {
    var i := StarWithin(f);
    var p := f[..i];
    var s := if OccursAt(f, MASK, i) then f[i + 3..] else "";
    x, y := p + g[..|e|], g[|e|..] + s;
    BackText(f, i, s);
    BackTears(g, e, f, p, s);
    ReplaceChanges(p + (MASK + s), f, 0);
  }

  /** Where a mask begins in the form, or else its last character. */
  lemma StarWithin(f: string) returns (i: nat)
    requires f != "" && f[0] != '*' && !Harmless(f)
    ensures 0 < i < |f| && f[i] == '*' && (OccursAt(f, MASK, i) || i == |f| - 1)
  {
    if k :| OccursAt(f, MASK, k) {
      assert f[k] == f[k..k + 3][0] == '*';
      i := k;
    } else {
      i := |f| - 1;
    }
  }

  lemma BackText(f: string, i: nat, s: string)
    requires i < |f| && f[i] == '*'
    requires if OccursAt(f, MASK, i) then s == f[i + 3..] else s == "" && i == |f| - 1
    ensures var t := f[..i] + (MASK + s);
            OccursAt(t, f, 0) && |t| <= |f| + 2 && (|t| <= |f| || Stars(t) > Stars(f))
  {
    var p := f[..i];
    var t := p + (MASK + s);
    if OccursAt(f, MASK, i) {
      assert f == p + (f[i..i + 3] + f[i + 3..]) == t;
    } else {
      assert f == p + "*" && MASK + s == MASK;
      assert t == f + "**";
      assert multiset(t) == multiset(f) + multiset("**");
    }
    assert t[0..|f|] == f;
  }

  lemma EncodedTwins(code: char -> string, f: string)
    requires UrlCode(code) && f != ""
    ensures Twins(Encode(code, f), f)
    ensures f == "**" ==> Encode(code, f) == f
  {
    EncodeFirst(code, f);
    EncodeGrows(code, f);
    EncodeStars(code, f);
    forall i | 0 <= i < |f| && f[i] == '*' ensures StarFrom(Encode(code, f), i) { StarBehind(code, f, i); }
    if f == "**" { EncodeUnreserved(code, f); }
  }

  lemma ThreeIsFormList(g: string, e: string, f: string, encode: string -> string)
    requires encode(g) == g && encode(f) == e && f != "" && e != "" && |g| > |e| && (e == f || |e| > |f|)
    ensures FormList(Three(g, e, f), {g, f}, encode)
  {
    var forms := Three(g, e, f);
    assert Elems(forms) == {g, e, f};
    assert FormsOf({g, f}, encode) == {g, e, f};
  }

  lemma {:induction false} CompanionHarmless(g: string)
    requires Companion(g)
    ensures Harmless(g) && forall i | 0 <= i < |g| :: Unreserved(g[i])
  {
    forall k ensures !OccursAt(g, MASK, k) {
      CharOf(g, MASK, k, 0);
    }
  }

  ghost predicate OthersHarmless(known: set<string>, f: string) {
    f in known && forall s | s in known && s != f :: Harmless(s)
  }

  /** Beside any harmless secrets, and in whichever chunks the text comes, the chunks do not show. */
  ghost predicate Unnoticed(f: string, encode: string -> string) {
    forall known, forms, chunks | OthersHarmless(known, f) && FormList(forms, known, encode) ::
      StreamOut(forms, "", chunks) == Apply(forms, Concat(chunks))
  }

  lemma KnownHarmless(forms: seq<string>, known: set<string>, encode: string -> string)
    requires UrlEncodes(encode) && FormList(forms, known, encode) && forall s | s in known :: Harmless(s)
    ensures Maskable(forms)
  {
    var code :| UrlCode(code) && forall s :: encode(s) == Encode(code, s);
    forall i | 0 <= i < |forms| ensures Harmless(forms[i]) {
      assert forms[i] in Elems(forms);
      if forms[i] !in known {
        var s :| s in known && encode(s) == forms[i];
        EncodeHarmless(code, s);
      }
    }
  }

  /**
   A secret can be masked chunk by chunk beside any harmless secrets exactly when
   it is harmless itself: `*`, the mask, or a text that neither begins nor ends
   in the mask character and holds no three of them in a row.
   */
  lemma HarmlessIff(f: string, encode: string -> string)
    requires UrlEncodes(encode) && f != ""
    ensures Harmless(f) <==> Unnoticed(f, encode)
  {
    if Harmless(f) {
      forall known, forms, chunks | OthersHarmless(known, f) && FormList(forms, known, encode)
        ensures StreamOut(forms, "", chunks) == Apply(forms, Concat(chunks))
      {
        KnownHarmless(forms, known, encode);
        ChunkingInvisible(forms, chunks);
      }
    } else {
      var known, forms, chunks := TornStream(f, encode);
      assert StreamOut(forms, "", chunks) != Apply(forms, Concat(chunks));
    }
  }

  lemma TornStream(f: string, encode: string -> string)
    returns (known: set<string>, forms: seq<string>, chunks: seq<string>)
    requires UrlEncodes(encode) && f != "" && !Harmless(f)
    ensures OthersHarmless(known, f) && FormList(forms, known, encode) && |chunks| == 2
    ensures StreamOut(forms, "", chunks) != Apply(forms, Concat(chunks))
    ensures Contains(StreamOut(forms, "", chunks), f)
  {
    var g, e := CompanionFor(f, encode);
    var x, y := TearingChunks(g, e, f);
    known, forms, chunks := {g, f}, Three(g, e, f), [x, y];
  }

  lemma CompanionFor(f: string, encode: string -> string) returns (g: string, e: string)
    requires UrlEncodes(encode) && f != ""
    ensures Companion(g) && Harmless(g) && e == encode(f) && Twins(e, f) && |g| > |e| && (f == "**" ==> e == f)
    ensures FormList(Three(g, e, f), {g, f}, encode)
  {
    var code :| UrlCode(code) && forall s :: encode(s) == Encode(code, s);
    e := encode(f);
    EncodedTwins(code, f);
    g := NewCompanion(|e|);
    CompanionHarmless(g);
    EncodeUnreserved(code, g);
    ThreeIsFormList(g, e, f, encode);
  }
}
