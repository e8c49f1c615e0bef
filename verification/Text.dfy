/** The string operations the name parsers are written with. */
module Text {

  /** White space as `trim()` and `\s` know it. */
  predicate IsSpace(c: char) {
    || '\t' <= c <= '\r' || c == ' ' || c == '\U{00A0}' || c == '\U{1680}'
    || '\U{2000}' <= c <= '\U{200A}' || c == '\U{2028}' || c == '\U{2029}'
    || c == '\U{202F}' || c == '\U{205F}' || c == '\U{3000}' || c == '\U{FEFF}'
  }

  function TrimStart(s: string): (r: string)
    ensures r == "" || !IsSpace(r[0])
  {
    if s != "" && IsSpace(s[0]) then TrimStart(s[1..]) else s
  }

  function TrimEnd(s: string): (r: string)
    ensures r == "" || (s != "" && r[0] == s[0] && !IsSpace(r[|r| - 1]))
  {
    if s != "" && IsSpace(s[|s| - 1]) then TrimEnd(s[..|s| - 1]) else s
  }

  predicate Trimmed(s: string) {
    s == "" || (!IsSpace(s[0]) && !IsSpace(s[|s| - 1]))
  }

  function Trim(s: string): (r: string)
    ensures Trimmed(r)
  {
    TrimEnd(TrimStart(s))
  }

  lemma TrimNothing(s: string)
    requires Trimmed(s)
    ensures Trim(s) == s
  {
  }

  ghost predicate Blank(s: string) {
    forall i | 0 <= i < |s| :: IsSpace(s[i])
  }

  /** White space and line ends of sections 12.2 and 12.3 of ECMA-262, by code point. */
  lemma SpaceCodes(c: char)
    ensures IsSpace(c) <==>
            var n := c as int;
            || n in {9, 10, 11, 12, 13, 32, 160, 5760, 8232, 8233, 8239, 8287, 12288, 65279} || 8192 <= n <= 8202
  {
  }

  /** Trimming takes blanks from both ends and nothing else. */
  lemma TrimTakesBlanks(a: string, s: string, b: string)
    requires Blank(a) && Blank(b) && Trimmed(s)
    ensures Trim(a + (s + b)) == s
  {
    if s == "" {
      assert Blank(a + (s + b));
      TrimBlank(a + (s + b));
    } else {
      assert (s + b)[0] == s[0];
      TrimStartTakes(a, s + b);
      TrimEndTakes(s, b);
    }
  }

  lemma {:induction false} TrimBlank(s: string)
    requires Blank(s)
    ensures TrimStart(s) == ""
  {
    if s != "" { TrimBlank(s[1..]); }
  }

  lemma {:induction false} TrimStartTakes(a: string, t: string)
    requires Blank(a) && t != "" && !IsSpace(t[0])
    ensures TrimStart(a + t) == t
  {
    if a == "" {
      assert a + t == t;
    } else {
      assert (a + t)[1..] == a[1..] + t;
      TrimStartTakes(a[1..], t);
    }
  }

  lemma {:induction false} TrimEndTakes(t: string, b: string)
    requires Blank(b) && t != "" && !IsSpace(t[|t| - 1])
    ensures TrimEnd(t + b) == t
  {
    if b == "" {
      assert t + b == t;
    } else {
      assert (t + b)[..|t + b| - 1] == t + b[..|b| - 1];
      TrimEndTakes(t, b[..|b| - 1]);
    }
  }

  function IndexFrom(s: string, c: char, i: nat): (r: int)
    requires i <= |s|
    ensures r == -1 || (i <= r < |s| && s[r] == c)
    decreases |s| - i
  {
    if i == |s| then -1 else if s[i] == c then i else IndexFrom(s, c, i + 1)
  }

  function LastIndexBefore(s: string, c: char, i: nat): (r: int)
    requires i <= |s|
    ensures r == -1 || (0 <= r < i && s[r] == c)
  {
    if i == 0 then -1 else if s[i - 1] == c then i - 1 else LastIndexBefore(s, c, i - 1)
  }

  /** Position of the first `c`, or -1. */
  function IndexOf(s: string, c: char): (r: int)
    ensures r == -1 || (0 <= r < |s| && s[r] == c)
  {
    IndexFrom(s, c, 0)
  }

  /** Position of the last `c`, or -1. */
  function LastIndexOf(s: string, c: char): (r: int)
    ensures r == -1 || (0 <= r < |s| && s[r] == c)
  {
    LastIndexBefore(s, c, |s|)
  }

  lemma {:induction false} NoneSkipped(s: string, c: char, i: nat)
    requires i <= |s|
    ensures var r := IndexFrom(s, c, i); forall k | i <= k < (if r == -1 then |s| else r) :: s[k] != c
    decreases |s| - i
  {
    if i < |s| && s[i] != c { NoneSkipped(s, c, i + 1); }
  }

  lemma {:induction false} NonePassed(s: string, c: char, i: nat)
    requires i <= |s|
    ensures var r := LastIndexBefore(s, c, i); forall k | r < k < i :: s[k] != c
  {
    if i > 0 && s[i - 1] != c { NonePassed(s, c, i - 1); }
  }

  lemma IndexOfIsFirst(s: string, c: char)
    ensures var r := IndexOf(s, c);
      (r == -1 <==> c !in s) && (r == -1 || c !in s[..r]) && forall k | 0 <= k < r :: s[k] != c
  {
    NoneSkipped(s, c, 0);
  }

  lemma LastIndexOfIsLast(s: string, c: char)
    ensures var r := LastIndexOf(s, c);
      (r == -1 <==> c !in s) && c !in s[r + 1..] && forall k | r < k < |s| :: s[k] != c
  {
    NonePassed(s, c, |s|);
  }

  /** There is only one first position, and only one last. */
  lemma FirstAt(s: string, c: char, k: nat)
    requires k < |s| && s[k] == c && forall i | 0 <= i < k :: s[i] != c
    ensures IndexOf(s, c) == k
  {
    IndexOfIsFirst(s, c);
  }

  lemma LastAt(s: string, c: char, k: nat)
    requires k < |s| && s[k] == c && forall i | k < i < |s| :: s[i] != c
    ensures LastIndexOf(s, c) == k
  {
    LastIndexOfIsLast(s, c);
  }

  /** ASCII lower case. */
  function LowerChar(c: char): char {
    if 'A' <= c <= 'Z' then c - 'A' + 'a' else c
  }

  function Lower(s: string): (r: string)
    ensures |r| == |s|
  {
    if s == "" then "" else [LowerChar(s[0])] + Lower(s[1..])
  }

  lemma {:induction false} LowerAt(s: string, i: nat)
    requires i < |s|
    ensures Lower(s)[i] == LowerChar(s[i])
  {
    if i > 0 { LowerAt(s[1..], i - 1); }
  }

  predicate IsUpperChar(c: char) {
    'A' <= c <= 'Z'
  }

  predicate IsLower(s: string) {
    forall i | 0 <= i < |s| :: !IsUpperChar(s[i])
  }

  lemma LowerCharOnce(c: char)
    ensures LowerChar(c) == c <==> !IsUpperChar(c)
    ensures !IsUpperChar(LowerChar(c))
    ensures c == '/' <==> LowerChar(c) == '/'
  {
  }

  lemma LowerEach(s: string)
    ensures forall i | 0 <= i < |s| ::
              && !IsUpperChar(Lower(s)[i]) && (Lower(s)[i] == s[i] <==> !IsUpperChar(s[i]))
              && (Lower(s)[i] == '/' <==> s[i] == '/')
  {
    forall i | 0 <= i < |s|
      ensures !IsUpperChar(Lower(s)[i]) && (Lower(s)[i] == s[i] <==> !IsUpperChar(s[i]))
      ensures Lower(s)[i] == '/' <==> s[i] == '/'
    {
      LowerAt(s, i);
      LowerCharOnce(s[i]);
    }
  }

  lemma LowerFixes(s: string)
    ensures Lower(s) == s <==> IsLower(s)
    ensures IsLower(Lower(s))
  {
    LowerEach(s);
  }

  /** Capitals become the letters 32 places on; every other character stays. */
  lemma LowerLetters(s: string, i: nat)
    requires i < |s|
    ensures Lower(s)[i] as int == s[i] as int + if 65 <= s[i] as int <= 90 then 32 else 0
  {
    LowerAt(s, i);
    LowerCode(s[i]);
  }

  lemma LowerCode(c: char)
    ensures LowerChar(c) as int == c as int + if 65 <= c as int <= 90 then 32 else 0
  {
  }

  lemma LowerConcat(s: string, t: string)
    ensures Lower(s + t) == Lower(s) + Lower(t)
  {
    forall i: nat | i < |s + t| ensures Lower(s + t)[i] == (Lower(s) + Lower(t))[i] {
      LowerAt(s + t, i);
      if i < |s| { LowerAt(s, i); } else { LowerAt(t, i - |s|); }
    }
  }

  /** `s.split(c)`. */
  function Split(s: string, c: char): (r: seq<string>)
    ensures |r| >= 1
    decreases |s|
  {
    var k := IndexOf(s, c);
    if k == -1 then [s] else [s[..k]] + Split(s[k + 1..], c)
  }

  /** The parts are what lies between the separators: none of them holds one. */
  lemma {:induction false} SplitParts(s: string, c: char)
    ensures forall i | 0 <= i < |Split(s, c)| :: c !in Split(s, c)[i]
    decreases |s|
  {
    IndexOfIsFirst(s, c);
    if c in s {
      var rest := Split(s[IndexOf(s, c) + 1..], c);
      SplitParts(s[IndexOf(s, c) + 1..], c);
      SplitStep(s, c);
      assert forall i | 0 < i < |Split(s, c)| :: Split(s, c)[i] == rest[i - 1];
    }
  }

  lemma SplitNone(s: string, c: char)
    ensures |Split(s, c)| == 1 <==> c !in s
  {
    IndexOfIsFirst(s, c);
  }

  /** Splitting off the first part. */
  lemma SplitStep(s: string, c: char)
    requires c in s
    ensures var k := IndexOf(s, c); k >= 0 && Split(s, c) == [s[..k]] + Split(s[k + 1..], c)
  {
    IndexOfIsFirst(s, c);
  }

  /** `parts.join(c)`. */
  function Join(parts: seq<string>, c: char): string
    requires parts != []
  {
    if |parts| == 1 then parts[0] else parts[0] + [c] + Join(parts[1..], c)
  }

  lemma JoinStep(part: string, parts: seq<string>, c: char)
    requires parts != []
    ensures Join([part] + parts, c) == part + [c] + Join(parts, c)
  {
    assert ([part] + parts)[1..] == parts;
  }

  /** Joining puts one separator between neighbours. */
  lemma JoinTwo(a: string, b: string, c: char)
    ensures Join([a], c) == a && Join([a, b], c) == a + [c] + b
  {
    assert [a, b][1..] == [b];
  }

  lemma CutAt(s: string, k: nat)
    requires k < |s|
    ensures s[..k] + [s[k]] + s[k + 1..] == s
  {
  }

  lemma {:induction false} JoinSplit(s: string, c: char)
    ensures Join(Split(s, c), c) == s
    decreases |s|
  {
    var k := IndexOf(s, c);
    if k == -1 {
    } else {
      JoinSplit(s[k + 1..], c);
      JoinStep(s[..k], Split(s[k + 1..], c), c);
      CutAt(s, k);
    }
  }
}
