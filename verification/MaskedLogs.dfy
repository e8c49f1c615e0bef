/**
 Secrets over the whole life of a deployment log. The log releases held text at
 every step, before the step's own line, so a secret can come together across
 that border: exactly which secrets can, and that all others never show, in the
 emitted text, in the rows that are saved, or at any client.
 */
module MaskedLogs {
  import opened DeploymentLogs
  import opened Lists
  import opened LogRedaction
  import opened Masking
  import opened Options
  import opened StarForms
  import opened UrlEncoding

  /** How every step line begins. */
  const MARK := "\n==> "

  /** What is written to the log, with the forms registered at that moment. */
  datatype Entry =
    | Output(forms: seq<string>, text: string)
    | StepLine(forms: seq<string>, text: string)
    | NoteLine(forms: seq<string>, text: string)
    | LastLine(forms: seq<string>, text: string)

  function Raw(e: Entry): string {
    match e
    case Output(_, text) => text
    case StepLine(_, text) => MARK + text + "\n"
    case NoteLine(_, text) => "==> " + text + "\n"
    case LastLine(_, text) => "\n" + text + "\n"
  }

  ghost predicate AllUsable(entries: seq<Entry>) {
    forall i {:trigger entries[i]} | 0 <= i < |entries| :: NonEmptyForms(entries[i].forms)
  }

  /** The forms are those of some registry, and `f` is one of them. */
  ghost predicate Knows(forms: seq<string>, f: string, encode: string -> string) {
    f in forms && exists known :: FormList(forms, known, encode)
  }

  /** `f` is registered from the start. */
  ghost predicate Registered(entries: seq<Entry>, f: string, encode: string -> string) {
    && AllUsable(entries)
    && forall i {:trigger entries[i]} | 0 <= i < |entries| :: Knows(entries[i].forms, f, encode)
  }

  /** The text that the entries make the log emit, when `pending` is held back before them. */
  ghost function Emitted(pending: string, entries: seq<Entry>): string
    requires AllUsable(entries)
    decreases |entries|
  {
    if entries == [] then ""
    else
      var e, rest := entries[0], entries[1..];
      match e
      case StepLine(forms, _) =>
        Apply(forms, pending) + (Released(forms, "", Raw(e)) + Emitted(Held(forms, "", Raw(e)), rest))
      case LastLine(forms, _) =>
        Released(forms, pending, Raw(e)) + Apply(forms, Held(forms, pending, Raw(e)))
      case _ =>
        Released(e.forms, pending, Raw(e)) + Emitted(Held(e.forms, pending, Raw(e)), rest)
  }

  ghost function Raws(entries: seq<Entry>): string {
    if entries == [] then ""
    else if entries[0].LastLine? then Raw(entries[0])
    else Raw(entries[0]) + Raws(entries[1..])
  }

  // ---- what can come together at a step ----------------------------------------

  /** The text can stand at the start of what follows a drain. */
  predicate CanFollowDrain(y: string) {
    (|y| <= |MARK| && MARK[..|y|] == y) || (|MARK| <= |y| && y[..|MARK|] == MARK)
  }

  /** No proper tail of the secret reads like the start of a step line. */
  predicate SafeAtSteps(f: string) {
    forall k | 0 < k < |f| :: !CanFollowDrain(f[k..])
  }

  /** In particular a secret is safe when only its first character may be a line break. */
  lemma OneLineIsSafe(f: string)
    requires forall k | 0 < k < |f| :: f[k] != '\n'
    ensures SafeAtSteps(f)
  {
    forall k | 0 < k < |f| ensures !CanFollowDrain(f[k..]) {
      assert f[k..][0] == f[k] && MARK[0] == '\n';
      FollowsWithBreak(f[k..]);
    }
  }

  lemma FollowsWithBreak(y: string)
    requires y != ""
    ensures CanFollowDrain(y) ==> y[0] == '\n'
  {
    assert MARK[0] == '\n';
    if |y| <= |MARK| { assert MARK[..|y|][0] == MARK[0]; } else { assert y[..|MARK|][0] == y[0]; }
  }

  lemma NoneStraddles(a: string, rest: string, f: string)
    requires SafeAtSteps(f)
    ensures !Straddles(a + (MARK + rest), f, |a|)
  {
    var b := MARK + rest;
    forall s | s < |a| < s + |f| ensures !OccursAt(a + b, f, s) {
      if OccursAt(a + b, f, s) {
        PartsAtJoint(a, b, f, s);
        PrefixesAgree(f[|a| - s..], rest);
      }
    }
  }

  lemma PrefixesAgree(y: string, rest: string)
    requires IsPrefix(y, MARK + rest)
    ensures CanFollowDrain(y)
  {
    if |y| <= |MARK| {
      assert (MARK + rest)[..|y|] == MARK[..|y|];
    } else {
      assert y[..|MARK|] == (MARK + rest)[..|MARK|] == MARK;
    }
  }

  // ---- safe secrets never show ------------------------------------------------------

  /** One push and what is released after it. */
  lemma PushHides(forms: seq<string>, pending: string, raw: string, u: string, after: string, f: string)
    requires NonEmptyForms(forms) && f in forms && Solid(f) && !Contains(after, f)
    requires KeepsPrefixes(Held(forms, pending, raw) + u, after)
    ensures !Contains(Released(forms, pending, raw) + after, f)
    ensures KeepsPrefixes((pending + raw) + u, Released(forms, pending, raw) + after)
  {
    ReleaseHides(forms, pending + raw, f, u, after);
  }

  lemma DrainHides(forms: seq<string>, pending: string, f: string)
    requires NonEmptyForms(forms) && f in forms && Solid(f)
    ensures !Contains(Apply(forms, pending), f) && KeepsPrefixes(pending + "", Apply(forms, pending))
  {
    ApplyHides(forms, pending, f);
    ApplyIsImage(forms, pending);
    assert pending + "" == pending;
  }

  lemma StepHides(forms: seq<string>, pending: string, tail: string, after: string, f: string)
    requires NonEmptyForms(forms) && f in forms && Solid(f) && SafeAtSteps(f)
    requires !Contains(after, f) && KeepsPrefixes(MARK + tail, after)
    ensures !Contains(Apply(forms, pending) + after, f)
    ensures KeepsPrefixes(pending + (MARK + tail), Apply(forms, pending) + after)
  {
    ApplyHides(forms, pending, f);
    ApplyIsImage(forms, pending);
    NoneStraddles(pending, tail, f);
    JoinHides(pending, MARK + tail, Apply(forms, pending), after, f);
    PrefixOfJoin(pending, MARK + tail, Apply(forms, pending), after);
  }

  lemma StepText(text: string, rest: string)
    ensures (MARK + text + "\n") + rest == MARK + (text + "\n" + rest)
  {
  }

  ghost predicate AllKnow(entries: seq<Entry>, f: string) {
    AllUsable(entries) && forall i {:trigger entries[i]} | 0 <= i < |entries| :: f in entries[i].forms
  }

  /** A safe secret shows nowhere in what is emitted: not in one release, and not across releases or drains. */
  lemma {:induction false} SafeSecretHidden(pending: string, entries: seq<Entry>, f: string)
    requires AllKnow(entries, f) && SafeAtSteps(f) && Solid(f)
    ensures !Contains(Emitted(pending, entries), f)
    ensures KeepsPrefixes(pending + Raws(entries), Emitted(pending, entries))
    decreases |entries|
  {
    if entries != [] {
      var e, rest := entries[0], entries[1..];
      var raw, u := Raw(e), Raws(rest);
      match e
      case StepLine(forms, text) =>
        var held := Held(forms, "", raw);
        SafeSecretHidden(held, rest, f);
        PushHides(forms, "", raw, u, Emitted(held, rest), f);
        Joined(raw, "", "");
        StepText(text, u);
        StepHides(forms, pending, text + "\n" + u, Released(forms, "", raw) + Emitted(held, rest), f);
      case LastLine(forms, _) =>
        var held := Held(forms, pending, raw);
        DrainHides(forms, held, f);
        PushHides(forms, pending, raw, "", Apply(forms, held), f);
        Joined(pending + raw, "", "");
      case _ =>
        var held := Held(e.forms, pending, raw);
        SafeSecretHidden(held, rest, f);
        PushHides(e.forms, pending, raw, u, Emitted(held, rest), f);
        Joined(pending, raw, u);
    }
  }

  // ---- the others do -----------------------------------------------------------------

  /** A text the masker changes nothing in before position `|y|`. */
  lemma {:induction false} FrontStays(t: string, f: string, y: string)
    requires f != "" && IsPrefix(y, t) && forall s | 0 <= s < |y| :: !OccursAt(t, f, s)
    ensures IsPrefix(y, ReplaceAll(t, f))
    decreases |t|
  {
    if y != "" {
      ReplaceMiss(t, f);
      assert IsPrefix(y[1..], t[1..]) by { assert t[1..][..|y| - 1] == t[..|y|][1..]; }
      forall s | 0 <= s < |y| - 1 ensures !OccursAt(t[1..], f, s) {
        assert !OccursAt(t, f, s + 1);
        OccursBehind([t[0]], t[1..], f, s + 1);
        assert [t[0]] + t[1..] == t;
      }
      FrontStays(t[1..], f, y[1..]);
      assert y == [t[0]] + y[1..];
    }
  }

  /** A line that lets the secret come together: the rest of it, or else one that is no secret itself. */
  function LineFor(f: string, k: nat): string
    requires k < |f|
  {
    var y := f[k..];
    if |y| > |MARK| then y[|MARK|..] else if |f| > 5 && f[5] == '\n' then "a" else ""
  }

  lemma AfterStep(f: string, k: nat)
    requires 0 < k < |f| && CanFollowDrain(f[k..])
    ensures var y, t := f[k..], MARK + LineFor(f, k) + "\n" + "\n\n";
            IsPrefix(y, t) && forall s | 0 <= s < |y| :: !OccursAt(t, f, s)
  {
    var y, line := f[k..], LineFor(f, k);
    var t := MARK + line + "\n" + "\n\n";
    assert MARK == ['\n', '=', '=', '>', ' '];
    assert |t| == 8 + |line| && t[0] == '\n' && t[1] == '=' && t[2] == '=' && t[3] == '>' && t[4] == ' ';
    assert t[..5] == MARK && (|line| > 0 ==> t[5] == line[0]) && (|line| == 0 ==> t[5] == '\n');
    FollowsWithBreak(y);
    assert f[k] == y[0] == '\n';
    if |y| > 5 {
      assert y == MARK + line;
      assert t[..|y|] == y;
    } else {
      assert y == MARK[..|y|] == t[..5][..|y|] == t[..|y|];
    }
    forall s | 0 <= s < |y| ensures !OccursAt(t, f, s) {
      if OccursAt(t, f, s) {
        assert forall j | 0 <= j < |f| :: f[j] == t[s..s + |f|][j] == t[s + j];
        NotEarly(f, k, line, t, s);
      }
    }
  }

  lemma NotEarly(f: string, k: nat, line: string, t: string, s: nat)
    requires 0 < k < |f| && line == LineFor(f, k) && |t| == 8 + |line|
    requires f[k] == '\n' && s < |f| - k && s + |f| <= |t|
    requires |f| - k <= 5 ==> f[k..] == ['\n', '=', '=', '>', ' '][..|f| - k]
    requires t[1] == '=' && t[2] == '=' && t[3] == '>' && t[4] == ' '
    requires (|line| > 0 ==> t[5] == line[0]) && (|line| == 0 ==> t[5] == '\n')
    requires |f| - k <= 5 ==> forall j | 5 < j < |t| :: t[j] == '\n'
    ensures exists j :: 0 <= j < |f| && f[j] != t[s + j]
  {
    if s + k <= 4 {
      assert f[k] != t[s + k];
    } else if |f| - k >= 2 {
      assert |f| - k <= 5;
      assert f[k + 1] == f[k..][1] == '=';
      assert f[k + 1] != t[s + (k + 1)];
    } else {
      assert s == 0 && f[5] != t[0 + 5];
    }
  }

  /** What a log with one line behind a step shows. */
  lemma EmittedOfThree(forms: seq<string>, x: string, line: string)
    requires Maskable(forms)
    ensures Emitted("", [Output(forms, x), StepLine(forms, line), LastLine(forms, "")]) ==
            Apply(forms, x) + Apply(forms, MARK + line + "\n" + "\n\n")
  {
    var t1, t2 := MARK + line + "\n", "\n" + "" + "\n";
    ThreeEntries(forms, x, line);
    TwoPushes(forms, x);
    TwoPieces(forms, t1, t2);
    assert t2 == "\n\n";
  }

  lemma Assembles(x: string, y: string, out: string)
    requires IsPrefix(y, out)
    ensures Contains(x + out, x + y)
  {
    OccursInMiddle("", x + y, out[|y|..]);
    assert out == y + out[|y|..];
    assert "" + (x + y) + out[|y|..] == x + out;
  }

  /** The encoding has no characters of a step mark, and is too long for a line. */
  lemma EncodingNotInStep(e: string, line: string, s: int)
    requires |e| > |line| && forall x | x in e :: Unreserved(x) || x == '%'
    ensures !OccursAt(MARK + line + "\n" + "\n\n", e, s)
  {
    var t := MARK + line + "\n" + "\n\n";
    assert |t| == |line| + 8 && forall i | 0 <= i < |t| && !(5 <= i < |t| - 3) :: t[i] in MARK;
    CharOf(t, e, s, 0);
    CharOf(t, e, s, |e| - 1);
    assert forall x | x in MARK :: !Unreserved(x) && x != '%';
    assert e[0] in e && e[|e| - 1] in e;
  }

  /** The forms of a log that knows one secret, `f`, which holds a line break. */
  lemma BothForms(f: string, encode: string -> string)
    requires UrlEncodes(encode) && Solid(f) && '\n' in f
    ensures var e := encode(f);
            && Knows([e, f], f, encode) && Maskable([e, f])
            && |e| > |f| && forall x | x in e :: Unreserved(x) || x == '%'
  {
    var code :| UrlCode(code) && forall s :: encode(s) == Encode(code, s);
    EncodeChars(code, f);
    assert !Unreserved('\n');
    EncodeGrows(code, f);
    EncodeHarmless(code, f);
    FormsOfTwo(encode(f), f, encode);
  }

  lemma FormsOfTwo(e: string, f: string, encode: string -> string)
    requires encode(f) == e && |e| > |f| > 0
    ensures Knows([e, f], f, encode)
  {
    FormsOfOne(f, encode);
    ElemsCons(e, [f]);
    ElemsOne(f);
    assert [e, f] == [e] + [f];
    assert FormList([e, f], {f}, encode);
  }

  lemma ApplyBoth(e: string, f: string, t: string)
    requires e != "" && f != "" && ReplaceAll(t, e) == t
    ensures Apply([e, f], t) == ReplaceAll(t, f)
  {
    assert [e, f] == [e] + [f] && [f] == [f] + [];
    ApplyFirst(e, [f], t);
    ApplyFirst(f, [], t);
  }

  lemma TailHasBreak(f: string, k: nat)
    requires 0 < k < |f| && CanFollowDrain(f[k..])
    ensures f[k] == '\n' && |LineFor(f, k)| <= |f|
  {
    FollowsWithBreak(f[k..]);
    assert f[k..][0] == f[k];
  }

  /** The beginning of the secret and a step line that completes it, each masked with both forms. */
  lemma BothShow(e: string, f: string, k: nat, t: string)
    requires |e| > |f| && forall x | x in e :: Unreserved(x) || x == '%'
    requires 0 < k < |f| && CanFollowDrain(f[k..]) && t == MARK + LineFor(f, k) + "\n" + "\n\n"
    ensures Contains(Apply([e, f], f[..k]) + Apply([e, f], t), f)
  {
    TailHasBreak(f, k);
    TooLong(f[..k], e);
    TooLong(f[..k], f);
    ApplyBoth(e, f, f[..k]);
    forall s | 0 <= s ensures !OccursAt(t, e, s) { EncodingNotInStep(e, LineFor(f, k), s); }
    NothingToReplace(t, e);
    ApplyBoth(e, f, t);
    AfterStep(f, k);
    FrontStays(t, f, f[k..]);
    Assembles(f[..k], f[k..], ReplaceAll(t, f));
    assert f[..k] + f[k..] == f;
  }

  /** A secret with such a tail shows in full: it is written in front of a step, and the step line completes it. */
  lemma TornSecretShows(f: string, k: nat, encode: string -> string)
    requires UrlEncodes(encode) && Solid(f) && 0 < k < |f| && CanFollowDrain(f[k..])
    ensures var forms := [encode(f), f];
            var entries := [Output(forms, f[..k]), StepLine(forms, LineFor(f, k)), LastLine(forms, "")];
            Registered(entries, f, encode) && Contains(Emitted("", entries), f)
  {
    var forms, line := [encode(f), f], LineFor(f, k);
    TailHasBreak(f, k);
    assert '\n' in f;
    BothForms(f, encode);
    EmittedOfThree(forms, f[..k], line);
    BothShow(encode(f), f, k, MARK + line + "\n" + "\n\n");
  }

  /** A chunk that is pushed and then drained comes out masked as a whole. */
  lemma TwoPushes(forms: seq<string>, x: string)
    requires Maskable(forms)
    ensures Released(forms, "", x) + Apply(forms, Held(forms, "", x)) == Apply(forms, x)
  {
    ChunkingInvisible(forms, [x]);
    StreamStep(forms, "", [x]);
    assert [x][1..] == [];
    assert Concat([x]) == x + "" == x;
  }

  lemma TwoPieces(forms: seq<string>, t1: string, t2: string)
    requires Maskable(forms)
    ensures var held := Held(forms, "", t1);
            Released(forms, "", t1) + (Released(forms, held, t2) + Apply(forms, Held(forms, held, t2))) ==
            Apply(forms, t1 + t2)
  {
    var chunks, held := [t1, t2], Held(forms, "", t1);
    ChunkingInvisible(forms, chunks);
    StreamStep(forms, "", chunks);
    assert chunks[1..] == [t2] && [t2][1..] == [];
    StreamStep(forms, held, [t2]);
    assert Concat([t2]) == t2 + "" == t2;
    assert Concat(chunks) == t1 + t2;
  }

  lemma ThreeEntries(forms: seq<string>, x: string, line: string)
    requires NonEmptyForms(forms)
    ensures var entries := [Output(forms, x), StepLine(forms, line), LastLine(forms, "")];
            var t1, t2 := MARK + line + "\n", "\n" + "" + "\n";
            var held := Held(forms, "", t1);
            Emitted("", entries) ==
            (Released(forms, "", x) + Apply(forms, Held(forms, "", x)))
            + (Released(forms, "", t1) + (Released(forms, held, t2) + Apply(forms, Held(forms, held, t2))))
  {
    var entries := [Output(forms, x), StepLine(forms, line), LastLine(forms, "")];
    assert entries[1..] == [StepLine(forms, line), LastLine(forms, "")];
    assert entries[1..][1..] == [LastLine(forms, "")];
    var t1 := MARK + line + "\n";
    var last := Emitted(Held(forms, "", t1), entries[1..][1..]);
    assert Emitted(Held(forms, "", x), entries[1..]) ==
           Apply(forms, Held(forms, "", x)) + (Released(forms, "", t1) + last);
    Joined(Released(forms, "", x), Apply(forms, Held(forms, "", x)), Released(forms, "", t1) + last);
  }

  lemma TwoOutputs(forms: seq<string>, x: string, y: string)
    requires NonEmptyForms(forms)
    ensures var entries := [Output(forms, x), Output(forms, y), StepLine(forms, "")];
            IsPrefix(StreamOut(forms, "", [x, y]), Emitted("", entries))
  {
    var entries := [Output(forms, x), Output(forms, y), StepLine(forms, "")];
    var held := Held(forms, "", x);
    var step := Emitted(Held(forms, held, y), [StepLine(forms, "")]);
    assert entries[1..] == [Output(forms, y), StepLine(forms, "")];
    assert entries[1..][1..] == [StepLine(forms, "")];
    assert Emitted("", entries) == Released(forms, "", x) + (Released(forms, held, y) + step);
    StreamStep(forms, "", [x, y]);
    StreamStep(forms, held, [y]);
    assert [x, y][1..] == [y] && [y][1..] == [];
    assert IsPrefix(Apply(forms, Held(forms, held, y)), step);
    PrefixUnder(Released(forms, held, y), Apply(forms, Held(forms, held, y)), step);
    PrefixUnder(Released(forms, "", x), StreamOut(forms, held, [y]), Released(forms, held, y) + step);
  }

  lemma PrefixUnder(a: string, s: string, t: string)
    requires IsPrefix(s, t)
    ensures IsPrefix(a + s, a + t)
  {
    assert (a + t)[..|a| + |s|] == a + t[..|s|];
  }

  /** A secret that a mask, or the beginning or the end of one, can be part of shows beside some other secret. */
  lemma StarSecretShows(f: string, encode: string -> string) returns (entries: seq<Entry>)
    requires UrlEncodes(encode) && f != "" && !Solid(f)
    ensures Registered(entries, f, encode) && Contains(Emitted("", entries), f)
  {
    var forms, x, y;
    if Harmless(f) {
      forms, x, y := [f], f, "";
      MaskSecret(f, encode);
    } else {
      var known, forms', chunks := TornStream(f, encode);
      forms, x, y := forms', chunks[0], chunks[1];
      assert chunks == [x, y];
      assert f in Elems(forms);
    }
    entries := [Output(forms, x), Output(forms, y), StepLine(forms, "")];
    TwoOutputs(forms, x, y);
    PrefixShows(StreamOut(forms, "", [x, y]), Emitted("", entries), f);
  }

  lemma PrefixShows(s: string, t: string, f: string)
    requires IsPrefix(s, t) && Contains(s, f)
    ensures Contains(t, f)
  {
    var i :| OccursAt(s, f, i);
    OccursInFront(s, t[|s|..], f, i);
    assert s + t[|s|..] == t;
  }

  /** `*` and the mask itself show in every mask. */
  lemma MaskSecret(f: string, encode: string -> string)
    requires UrlEncodes(encode) && (f == "*" || f == MASK)
    ensures NonEmptyForms([f]) && Knows([f], f, encode) && Contains(StreamOut([f], "", [f, ""]), f)
  {
    var code :| UrlCode(code) && forall s :: encode(s) == Encode(code, s);
    EncodeUnreserved(code, f);
    FormsOfOne(f, encode);
    ElemsOne(f);
    assert FormList([f], {f}, encode);
    MaskShowsStar(f);
    ChunkingInvisible([f], [f, ""]);
    ConcatTwo(f, "");
    Joined(f, "", "");
  }

  lemma MaskShowsStar(f: string)
    requires f == "*" || f == MASK
    ensures Contains(Apply([f], f), f)
  {
    assert [f] == [f] + [];
    ApplyFirst(f, [], f);
    MaskedWhole(f);
    assert OccursAt(MASK, f, 0);
  }

  /** Hidden in every log, whatever is written, in which pieces, at which steps, and with whichever other secrets. */
  ghost predicate AlwaysHidden(f: string, encode: string -> string) {
    forall entries | Registered(entries, f, encode) :: !Contains(Emitted("", entries), f)
  }

  /**
   Exactly these secrets stay hidden in every log: no tail reads like the start
   of a step line, no mask character stands at an end, and no three in a row.
   */
  lemma HiddenIffSafe(f: string, encode: string -> string)
    requires UrlEncodes(encode) && f != ""
    ensures (Solid(f) && SafeAtSteps(f)) <==> AlwaysHidden(f, encode)
  {
    if !Solid(f) {
      var entries := StarSecretShows(f, encode);
    } else if SafeAtSteps(f) {
      forall entries | Registered(entries, f, encode) ensures !Contains(Emitted("", entries), f) {
        RegisteredKnow(entries, f, encode);
        SafeSecretHidden("", entries, f);
      }
    } else {
      var k :| 0 < k < |f| && CanFollowDrain(f[k..]);
      TornSecretShows(f, k, encode);
    }
  }

  lemma RegisteredKnow(entries: seq<Entry>, f: string, encode: string -> string)
    requires Registered(entries, f, encode)
    ensures AllKnow(entries, f)
  {
    forall i | 0 <= i < |entries| ensures f in entries[i].forms {
      assert Knows(entries[i].forms, f, encode);
    }
  }

  /** Such a secret: one that ends in a line break. */
  lemma LineBreakSecretShows(encode: string -> string)
    requires UrlEncodes(encode) && encode("abc\n") == "abc%0A"
    ensures var f, forms := "abc\n", ["abc%0A", "abc\n"];
            var entries := [Output(forms, "abc"), StepLine(forms, ""), LastLine(forms, "")];
            !SafeAtSteps(f) && Registered(entries, f, encode) && Contains(Emitted("", entries), f)
  {
    var f := "abc\n";
    assert f[..3] == "abc" && f[3..] == "\n" && MARK[..1] == "\n";
    assert CanFollowDrain(f[3..]);
    assert LineFor(f, 3) == "";
    PlainSolid(f);
    TornSecretShows(f, 3, encode);
  }

  /** Text without any mask character is solid. */
  lemma PlainSolid(f: string)
    requires f != "" && '*' !in f
    ensures Solid(f)
  {
    forall s ensures !OccursAt(f, MASK, s) { CharOf(f, MASK, s, 0); }
  }

  // ---- rows and clients ------------------------------------------------------------------

  /** Rows only ever hold the beginning of what was emitted. */
  ghost predicate RowsBehind(p: Pipe) {
    && IsPrefix(p.row.logs, p.emitted) && IsPrefix(p.entity.logs, p.emitted)
    && forall i | 0 <= i < |p.writes| :: IsPrefix(p.writes[i].logs, p.emitted)
  }

  lemma LongerText(s: string, t: string, u: string)
    requires IsPrefix(s, t)
    ensures IsPrefix(s, t + u)
  {
    assert (t + u)[..|s|] == t[..|s|];
  }

  lemma FlushedBehind(p: Pipe)
    requires RowsBehind(p) && p.entity.logs + p.buffer == p.emitted
    ensures RowsBehind(Flush(p))
  {
    assert IsPrefix(p.emitted, p.emitted);
  }

  lemma NextBehind(s: System, e: Event)
    requires Inv(s) && Possible(s, e) && RowsBehind(s.pipe)
    ensures RowsBehind(Next(s, e).pipe)
  {
    var p := s.pipe;
    match e
    case Emits(chunk) =>
      LongerText(p.row.logs, p.emitted, chunk);
      LongerText(p.entity.logs, p.emitted, chunk);
      forall i | 0 <= i < |p.writes| ensures IsPrefix(p.writes[i].logs, p.emitted + chunk) {
        LongerText(p.writes[i].logs, p.emitted, chunk);
      }
    case Flushes => FlushedBehind(p);
    case BeginsFinish(st, error) =>
      FlushedBehind(p.(entity := p.entity.(status := st, errorMessage := error), phase := Finishing));
    case _ =>
  }

  lemma {:induction false} RunBehind(s: System, events: seq<Event>)
    requires Inv(s) && PossibleRun(s, events) && RowsBehind(s.pipe)
    ensures RowsBehind(Run(s, events).pipe)
    decreases |events|
  {
    if events != [] {
      NextInv(s, events[0]);
      NextBehind(s, events[0]);
      RunBehind(Next(s, events[0]), events[1..]);
    }
  }

  lemma OccursInFront(s: string, r: string, f: string, i: int)
    ensures OccursAt(s, f, i) ==> OccursAt(s + r, f, i)
  {
    if OccursAt(s, f, i) { assert (s + r)[i..i + |f|] == s[i..i + |f|]; }
  }

  lemma PrefixHides(s: string, t: string, f: string)
    requires IsPrefix(s, t) && !Contains(t, f)
    ensures !Contains(s, f)
  {
    assert s + t[|s|..] == t;
    forall i ensures !OccursAt(s, f, i) {
      OccursInFront(s, t[|s|..], f, i);
    }
  }

  ghost predicate Hides(text: Option<string>, f: string) {
    text.None? || !Contains(text.value, f)
  }

  ghost predicate ErrorsHide(p: Pipe, f: string) {
    && Hides(p.row.errorMessage, f) && Hides(p.entity.errorMessage, f)
    && forall i | 0 <= i < |p.writes| :: Hides(p.writes[i].errorMessage, f)
  }

  /** No error message that the events store holds `f`. */
  ghost predicate StoresNone(events: seq<Event>, f: string) {
    forall i | 0 <= i < |events| && events[i].BeginsFinish? :: Hides(events[i].error, f)
  }

  lemma {:induction false} RunHidesErrors(s: System, events: seq<Event>, f: string)
    requires ErrorsHide(s.pipe, f) && StoresNone(events, f)
    ensures ErrorsHide(Run(s, events).pipe, f)
    decreases |events|
  {
    if events != [] {
      NextHidesErrors(s, events[0], f);
      assert forall i | 0 <= i < |events[1..]| :: events[1..][i] == events[i + 1];
      RunHidesErrors(Next(s, events[0]), events[1..], f);
    }
  }

  lemma NextHidesErrors(s: System, e: Event, f: string)
    requires ErrorsHide(s.pipe, f) && (e.BeginsFinish? ==> Hides(e.error, f))
    ensures ErrorsHide(Next(s, e).pipe, f)
  {
  }

  /** `f` is in no column of a stored row or of a save under way, not on the bus, and at no client. */
  ghost predicate ShownNowhere(s: System, f: string) {
    && !Contains(s.pipe.emitted, f) && Hides(s.pipe.live, f)
    && !Contains(s.pipe.row.logs, f) && !Contains(s.pipe.entity.logs, f)
    && (forall i | 0 <= i < |s.pipe.writes| :: !Contains(s.pipe.writes[i].logs, f))
    && ErrorsHide(s.pipe, f)
    && forall c | c in s.clients :: Hides(Shown(s.clients[c]), f)
  }

  /** What is neither emitted nor stored as an error message is nowhere else. */
  lemma NowhereElse(first: string, events: seq<Event>, f: string)
    requires PossibleRun(System(Started(first), map[]), events) && StoresNone(events, f)
    requires !Contains(first + Chunks(events), f)
    ensures ShownNowhere(Run(System(Started(first), map[]), events), f)
  {
    var s0 := System(Started(first), map[]);
    var s := Run(s0, events);
    assert PipeInv(s0.pipe);
    RunEmits(s0, events);
    RunInv(s0, events);
    RunBehind(s0, events);
    RunHidesErrors(s0, events, f);
    ClientsShowExactlyTheLog(first, events);
    BehindHides(s.pipe, f);
  }

  lemma BehindHides(p: Pipe, f: string)
    requires RowsBehind(p) && !Contains(p.emitted, f)
    ensures !Contains(p.row.logs, f) && !Contains(p.entity.logs, f)
    ensures forall i | 0 <= i < |p.writes| :: !Contains(p.writes[i].logs, f)
  {
    PrefixHides(p.row.logs, p.emitted, f);
    PrefixHides(p.entity.logs, p.emitted, f);
    forall i | 0 <= i < |p.writes| ensures !Contains(p.writes[i].logs, f) {
      PrefixHides(p.writes[i].logs, p.emitted, f);
    }
  }

  /** Error messages are stored masked, with `f` registered. */
  ghost predicate ErrorsMasked(events: seq<Event>, f: string, encode: string -> string) {
    forall i | 0 <= i < |events| && events[i].BeginsFinish? :: IsMasked(events[i].error, f, encode)
  }

  ghost predicate IsMasked(error: Option<string>, f: string, encode: string -> string) {
    error.Some? ==> exists forms, message :: NonEmptyForms(forms) && Knows(forms, f, encode) && error.value == Apply(forms, message)
  }

  /**
   In every system run whose text comes from a log that knows a safe secret, the
   secret is nowhere at any moment: in no row, in no save under way, not on the
   bus, and at no client.
   */
  lemma SecretNowhere(first: string, events: seq<Event>, entries: seq<Entry>, f: string, encode: string -> string)
    requires PossibleRun(System(Started(first), map[]), events) && ErrorsMasked(events, f, encode)
    requires Registered(entries, f, encode) && IsPrefix(first + Chunks(events), Emitted("", entries))
    requires Solid(f) && SafeAtSteps(f)
    ensures ShownNowhere(Run(System(Started(first), map[]), events), f)
  {
    RegisteredKnow(entries, f, encode);
    SafeSecretHidden("", entries, f);
    PrefixHides(first + Chunks(events), Emitted("", entries), f);
    forall i | 0 <= i < |events| && events[i].BeginsFinish? ensures Hides(events[i].error, f) {
      assert IsMasked(events[i].error, f, encode);
      MaskedHides(events[i].error, f, encode);
    }
    NowhereElse(first, events, f);
  }

  lemma MaskedHides(error: Option<string>, f: string, encode: string -> string)
    requires IsMasked(error, f, encode) && Solid(f)
    ensures Hides(error, f)
  {
    if error.Some? {
      var forms, message :| NonEmptyForms(forms) && Knows(forms, f, encode) && error.value == Apply(forms, message);
      ApplyHides(forms, message, f);
    }
  }

  /** The row object lags behind by exactly the buffer, and the rows are behind it. */
  ghost predicate Behind(p: Pipe) {
    p.entity.logs + p.buffer == p.emitted && RowsBehind(p)
  }

  lemma EmitBehind(p: Pipe, chunk: string)
    requires Behind(p)
    ensures Behind(Emit(p, chunk))
  {
    Joined(p.entity.logs, p.buffer, chunk);
    LongerText(p.row.logs, p.emitted, chunk);
    LongerText(p.entity.logs, p.emitted, chunk);
    forall i | 0 <= i < |p.writes| ensures IsPrefix(p.writes[i].logs, p.emitted + chunk) {
      LongerText(p.writes[i].logs, p.emitted, chunk);
    }
  }

  lemma AnnounceBehind(p: Pipe, s: Status)
    requires Behind(p)
    ensures Behind(Announce(p, s)) && Behind(EndFinish(p))
  {
  }

  lemma FlushBehind(p: Pipe)
    requires Behind(p)
    ensures Behind(Flush(p))
  {
    FlushedBehind(p);
    Joined(p.emitted, "", "");
  }

  lemma FinishBehind(p: Pipe, s: Status, error: Option<string>)
    requires Behind(p)
    ensures Behind(BeginFinish(p, s, error))
  {
    FlushBehind(p.(entity := p.entity.(status := s, errorMessage := error), phase := Finishing));
  }

  /** The error message that `finish` masks. */
  lemma FinishHides(p: Pipe, s: Status, forms: seq<string>, error: Option<string>, f: string)
    requires NonEmptyForms(forms) && f in forms && Solid(f) && ErrorsHide(p, f)
    ensures ErrorsHide(BeginFinish(p, s, MaskedError(forms, error)), f)
  {
    if error.Some? { ApplyHides(forms, error.value, f); }
  }

  /** The rows are behind the text, and their error messages hide `f` if it can be hidden. */
  ghost predicate Tidy(p: Pipe, f: string) {
    Behind(p) && (Solid(f) ==> ErrorsHide(p, f))
  }

  // ---- a log object over its life ------------------------------------------------------------

  datatype Command =
    | Register(secret: string)
    | Write(text: string)
    | DoStep(status: Status, text: string)
    | DoNote(text: string)
    | DoFlush(force: bool)
    | DoFinish(status: Status, text: string, error: Option<string>)

  predicate WritesText(c: Command) {
    !c.Register? && !c.DoFlush?
  }

  function EntryOf(c: Command, forms: seq<string>): Entry
    requires WritesText(c)
  {
    match c
    case Write(text) => Output(forms, text)
    case DoStep(_, text) => StepLine(forms, text)
    case DoNote(text) => NoteLine(forms, text)
    case DoFinish(_, text, _) => LastLine(forms, text)
  }

  /** The entries are those the commands ask for, in order and up to the end of the log, with all forms known by then. */
  ghost predicate Follows(entries: seq<Entry>, commands: seq<Command>, known: set<string>, encode: string -> string)
    decreases |commands|
  {
    if commands == [] then entries == []
    else if commands[0].Register? then Follows(entries, commands[1..], known + {commands[0].secret} - {""}, encode)
    else if commands[0].DoFlush? then Follows(entries, commands[1..], known, encode)
    else
      && entries != [] && entries[0] == EntryOf(commands[0], entries[0].forms) && FormList(entries[0].forms, known, encode)
      && if commands[0].DoFinish? then |entries| == 1 else Follows(entries[1..], commands[1..], known, encode)
  }

  ghost predicate LogReady(log: DeploymentLog, f: string)
    reads log, log.redactor
  {
    log.Valid() && f in log.redactor.forms
  }

  lemma UsableCons(e: Entry, rest: seq<Entry>, f: string, encode: string -> string)
    requires NonEmptyForms(e.forms) && Knows(e.forms, f, encode) && Registered(rest, f, encode)
    ensures Registered([e] + rest, f, encode)
  {
    var all := [e] + rest;
    forall i | 0 <= i < |all| ensures NonEmptyForms(all[i].forms) && Knows(all[i].forms, f, encode) {
      if i > 0 { assert all[i] == rest[i - 1]; }
    }
  }

  lemma EmittedCons(pending: string, e: Entry, rest: seq<Entry>, before: string)
    requires NonEmptyForms(e.forms) && AllUsable(rest) && AllUsable([e] + rest) && !e.LastLine?
    ensures before + Emitted(pending, [e] + rest) ==
            if e.StepLine?
            then before + Apply(e.forms, pending) + Released(e.forms, "", Raw(e)) + Emitted(Held(e.forms, "", Raw(e)), rest)
            else before + Released(e.forms, pending, Raw(e)) + Emitted(Held(e.forms, pending, Raw(e)), rest)
  {
    assert ([e] + rest)[1..] == rest;
    if e.StepLine? {
      Joined(before, Apply(e.forms, pending), Released(e.forms, "", Raw(e)) + Emitted(Held(e.forms, "", Raw(e)), rest));
      Joined(before + Apply(e.forms, pending), Released(e.forms, "", Raw(e)), Emitted(Held(e.forms, "", Raw(e)), rest));
    } else {
      Joined(before, Released(e.forms, pending, Raw(e)), Emitted(Held(e.forms, pending, Raw(e)), rest));
    }
  }

  /** Registers a secret while the log is in use. */
  method RegisterSecret(log: DeploymentLog, secret: string, ghost f: string)
    requires LogReady(log, f)
    modifies log.redactor
    ensures LogReady(log, f) && log.redactor.known == old(log.redactor.known) + {secret} - {""}
  {
    assert f in Elems(log.redactor.forms);
    log.redactor.Add(secret);
    assert f in Elems(log.redactor.forms);
  }

  /**
   Whatever is done with a log until it finishes: the text it emits is that of
   the entries written, with the forms registered at each.
   */
  method Perform(log: DeploymentLog, commands: seq<Command>, ghost f: string) returns (ghost entries: seq<Entry>)
    requires LogReady(log, f)
    modifies log, log.events, log.stream, log.deployments, log.redactor
    ensures Registered(entries, f, log.redactor.encode)
    ensures Follows(entries, commands, old(log.redactor.known), log.redactor.encode)
    ensures Tidy(old(log.Now()), f) ==> Tidy(log.Now(), f)
    ensures log.emitted == old(log.emitted) + Emitted(old(log.stream.pending), entries)
    decreases |commands|, 0
  {
    entries := [];
    if commands == [] {
      Joined(log.emitted, "", "");
      return;
    }
    ghost var before, pending := log.emitted, log.stream.pending;
    var rest := commands[1..];
    match commands[0]
    case Register(secret) =>
      RegisterSecret(log, secret, f);
      entries := Perform(log, rest, f);
    case DoFlush(force) =>
      ghost var p := log.Now();
      log.FlushBuffer(force);
      if Tidy(p, f) { FlushBehind(p); }
      assert log.emitted == log.Now().emitted;
      entries := Perform(log, rest, f);
    case DoFinish(_, _, _) =>
      entries := PerformLast(log, commands[0], f);
    case _ =>
      ghost var e := PutEntry(log, commands[0], f);
      entries := Continue(log, rest, f, e, before, pending);
  }

  /** What putting an entry makes of the log. */
  ghost function Put(p: Pipe, forms: seq<string>, pending: string, c: Command): Pipe
    requires NonEmptyForms(forms) && WritesText(c) && !c.DoFinish?
  {
    var raw := Raw(EntryOf(c, forms));
    match c
    case DoStep(status, _) =>
      Flush(Emit(Announce(Emit(p, Apply(forms, pending)), status), Released(forms, "", raw)))
    case DoNote(_) => Flush(Emit(p, Released(forms, pending, raw)))
    case _ => Emit(p, Released(forms, pending, raw))
  }

  lemma PutHidesErrors(p: Pipe, forms: seq<string>, pending: string, c: Command, f: string)
    requires NonEmptyForms(forms) && WritesText(c) && !c.DoFinish? && ErrorsHide(p, f)
    ensures ErrorsHide(Put(p, forms, pending, c), f)
  {
  }

  lemma PutTidy(p: Pipe, forms: seq<string>, pending: string, c: Command, f: string)
    requires NonEmptyForms(forms) && WritesText(c) && !c.DoFinish?
    ensures Tidy(p, f) ==> Tidy(Put(p, forms, pending, c), f)
  {
    if Tidy(p, f) {
      PutBehind(p, forms, pending, c);
      if Solid(f) { PutHidesErrors(p, forms, pending, c, f); }
    }
  }

  lemma PutBehind(p: Pipe, forms: seq<string>, pending: string, c: Command)
    requires NonEmptyForms(forms) && WritesText(c) && !c.DoFinish?
    ensures Behind(p) ==> Behind(Put(p, forms, pending, c))
  {
    if Behind(p) {
      var raw := Raw(EntryOf(c, forms));
      EmitBehind(p, Released(forms, pending, raw));
      FlushBehind(Emit(p, Released(forms, pending, raw)));
      if c.DoStep? {
        EmitBehind(p, Apply(forms, pending));
        AnnounceBehind(Emit(p, Apply(forms, pending)), c.status);
        EmitBehind(Announce(Emit(p, Apply(forms, pending)), c.status), Released(forms, "", raw));
        FlushBehind(Emit(Announce(Emit(p, Apply(forms, pending)), c.status), Released(forms, "", raw)));
      }
    }
  }

  lemma EmitAdds(p: Pipe, chunk: string)
    ensures Emit(p, chunk).emitted == p.emitted + chunk
  {
    Joined(p.emitted, "", "");
  }

  lemma PutEmits(p: Pipe, forms: seq<string>, pending: string, c: Command)
    requires NonEmptyForms(forms) && WritesText(c) && !c.DoFinish?
    ensures var raw := Raw(EntryOf(c, forms));
            Put(p, forms, pending, c).emitted ==
            if c.DoStep?
            then p.emitted + Apply(forms, pending) + Released(forms, "", raw)
            else p.emitted + Released(forms, pending, raw)
  {
    var raw := Raw(EntryOf(c, forms));
    EmitAdds(p, Released(forms, pending, raw));
    if c.DoStep? {
      EmitAdds(p, Apply(forms, pending));
      EmitAdds(Announce(Emit(p, Apply(forms, pending)), c.status), Released(forms, "", raw));
    }
  }

  method PutText(log: DeploymentLog, c: Command)
    requires log.Valid() && WritesText(c) && !c.DoFinish?
    modifies log, log.events, log.stream, log.deployments
    ensures log.Valid() && log.Now() == Put(old(log.Now()), log.redactor.forms, old(log.stream.pending), c)
    ensures log.stream.pending ==
            Held(log.redactor.forms, if c.DoStep? then "" else old(log.stream.pending), Raw(EntryOf(c, log.redactor.forms)))
  {
    match c
    case Write(text) => log.Append(text);
    case DoStep(status, text) => log.Step(status, text);
    case DoNote(text) => log.Note(text);
  }

  /** Writes one entry that does not end the log. */
  method PutEntry(log: DeploymentLog, c: Command, ghost f: string) returns (ghost e: Entry)
    requires LogReady(log, f) && WritesText(c) && !c.DoFinish?
    modifies log, log.events, log.stream, log.deployments
    ensures e == EntryOf(c, e.forms) && FormList(e.forms, log.redactor.known, log.redactor.encode)
    ensures Tidy(old(log.Now()), f) ==> Tidy(log.Now(), f)
    ensures LogReady(log, f) && NonEmptyForms(e.forms) && Knows(e.forms, f, log.redactor.encode) && !e.LastLine?
    ensures var pending := old(log.stream.pending);
      && log.stream.pending == (if e.StepLine? then Held(e.forms, "", Raw(e)) else Held(e.forms, pending, Raw(e)))
      && log.emitted == if e.StepLine?
                        then old(log.emitted) + Apply(e.forms, pending) + Released(e.forms, "", Raw(e))
                        else old(log.emitted) + Released(e.forms, pending, Raw(e))
  {
    ghost var forms, p, pending := log.redactor.forms, log.Now(), log.stream.pending;
    e := EntryOf(c, forms);
    PutTidy(p, forms, pending, c, f);
    PutEmits(p, forms, pending, c);
    PutText(log, c);
    assert log.emitted == log.Now().emitted;
  }

  /** What ending the log makes of it. */
  ghost function Ended(p: Pipe, forms: seq<string>, pending: string, c: Command): Pipe
    requires NonEmptyForms(forms) && c.DoFinish?
  {
    var raw := Raw(EntryOf(c, forms));
    EndFinish(BeginFinish(Emit(Emit(p, Released(forms, pending, raw)), Apply(forms, Held(forms, pending, raw))),
                          c.status, MaskedError(forms, c.error)))
  }

  lemma EndedTidy(p: Pipe, forms: seq<string>, pending: string, c: Command, f: string)
    requires NonEmptyForms(forms) && c.DoFinish? && f in forms
    ensures Tidy(p, f) ==> Tidy(Ended(p, forms, pending, c), f)
  {
    if Tidy(p, f) {
      var raw := Raw(EntryOf(c, forms));
      var p1 := Emit(p, Released(forms, pending, raw));
      var p2 := Emit(p1, Apply(forms, Held(forms, pending, raw)));
      EmitBehind(p, Released(forms, pending, raw));
      EmitBehind(p1, Apply(forms, Held(forms, pending, raw)));
      FinishBehind(p2, c.status, MaskedError(forms, c.error));
      AnnounceBehind(BeginFinish(p2, c.status, MaskedError(forms, c.error)), c.status);
      if Solid(f) { FinishHides(p2, c.status, forms, c.error, f); }
    }
  }

  lemma EndedEmits(p: Pipe, forms: seq<string>, pending: string, c: Command)
    requires NonEmptyForms(forms) && c.DoFinish?
    ensures AllUsable([EntryOf(c, forms)])
    ensures Ended(p, forms, pending, c).emitted == p.emitted + Emitted(pending, [EntryOf(c, forms)])
  {
    var raw := Raw(EntryOf(c, forms));
    var out, last := Released(forms, pending, raw), Apply(forms, Held(forms, pending, raw));
    EmitAdds(p, out);
    EmitAdds(Emit(p, out), last);
    Joined(p.emitted, out, last);
  }

  method PutLast(log: DeploymentLog, c: Command)
    requires log.Valid() && c.DoFinish?
    modifies log, log.events, log.stream, log.deployments
    ensures log.Now() == Ended(old(log.Now()), log.redactor.forms, old(log.stream.pending), c)
  {
    log.FinishUpToSave(c.status, c.text, c.error);
    log.FinishAfterSave();
  }

  method PerformLast(log: DeploymentLog, c: Command, ghost f: string) returns (ghost entries: seq<Entry>)
    requires LogReady(log, f) && c.DoFinish?
    modifies log, log.events, log.stream, log.deployments
    ensures |entries| == 1 && entries[0] == EntryOf(c, entries[0].forms)
    ensures FormList(entries[0].forms, log.redactor.known, log.redactor.encode)
    ensures Tidy(old(log.Now()), f) ==> Tidy(log.Now(), f)
    ensures Registered(entries, f, log.redactor.encode)
    ensures log.emitted == old(log.emitted) + Emitted(old(log.stream.pending), entries)
  {
    ghost var forms := log.redactor.forms;
    entries := [EntryOf(c, forms)];
    assert Knows(forms, f, log.redactor.encode);
    EndedTidy(log.Now(), forms, log.stream.pending, c, f);
    EndedEmits(log.Now(), forms, log.stream.pending, c);
    PutLast(log, c);
    assert log.emitted == log.Now().emitted;
  }

  /** The commands behind a first entry that was just written. */
  method Continue(log: DeploymentLog, rest: seq<Command>, ghost f: string, ghost e: Entry, ghost before: string,
                  ghost pending: string)
    returns (ghost entries: seq<Entry>)
    requires LogReady(log, f)
    requires NonEmptyForms(e.forms) && Knows(e.forms, f, log.redactor.encode) && !e.LastLine?
    requires log.stream.pending == if e.StepLine? then Held(e.forms, "", Raw(e)) else Held(e.forms, pending, Raw(e))
    requires log.emitted == if e.StepLine? then before + Apply(e.forms, pending) + Released(e.forms, "", Raw(e))
                            else before + Released(e.forms, pending, Raw(e))
    modifies log, log.events, log.stream, log.deployments, log.redactor
    ensures Registered(entries, f, log.redactor.encode) && log.emitted == before + Emitted(pending, entries)
    ensures entries != [] && entries[0] == e
    ensures Follows(entries[1..], rest, old(log.redactor.known), log.redactor.encode)
    ensures Tidy(old(log.Now()), f) ==> Tidy(log.Now(), f)
    decreases |rest|, 1
  {
    ghost var tail := Perform(log, rest, f);
    entries := [e] + tail;
    UsableCons(e, tail, f, log.redactor.encode);
    EmittedCons(pending, e, tail, before);
  }

  /** A safe secret that a new log knows shows neither in what the log emits nor in what it saves. */
  method Life(log: DeploymentLog, commands: seq<Command>, ghost f: string)
    requires LogReady(log, f) && log.emitted == "" && log.stream.pending == ""
    requires Behind(log.Now()) && ErrorsHide(log.Now(), f) && Solid(f) && SafeAtSteps(f)
    modifies log, log.events, log.stream, log.deployments, log.redactor
    ensures !Contains(log.emitted, f) && !Contains(log.deployment.logs, f)
    ensures forall i | 0 <= i < |log.deployments.writes| :: !Contains(log.deployments.writes[i].logs, f)
    ensures ErrorsHide(log.Now(), f)
  {
    ghost var entries := Perform(log, commands, f);
    RegisteredKnow(entries, f, log.redactor.encode);
    SafeSecretHidden("", entries, f);
    Joined(Emitted("", entries), "", "");
    BehindHides(log.Now(), f);
  }
}
