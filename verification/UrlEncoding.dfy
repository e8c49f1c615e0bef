/** `encodeURIComponent` (section 19.2.6.4 of ECMA-262), as far as the masker depends on it. */
module UrlEncoding {
  import opened Masking

  /** The characters that stand for themselves. */
  predicate Unreserved(c: char) {
    'A' <= c <= 'Z' || 'a' <= c <= 'z' || '0' <= c <= '9' || c in "-_.!~*'()"
  }

  predicate EscapeChar(c: char) {
    c == '%' || '0' <= c <= '9' || 'A' <= c <= 'F'
  }

  /** Any other character becomes one or more escapes such as `%0A`. */
  ghost predicate UrlCode(code: char -> string) {
    forall c: char ::
      if Unreserved(c) then code(c) == [c] else |code(c)| >= 3 && forall x | x in code(c) :: EscapeChar(x)
  }

  function Encode(code: char -> string, s: string): string {
    if s == "" then "" else code(s[0]) + Encode(code, s[1..])
  }

  /** The encoding works character by character. */
  ghost predicate UrlEncodes(encode: string -> string) {
    exists code :: UrlCode(code) && forall s :: encode(s) == Encode(code, s)
  }

  lemma EncodeCons(code: char -> string, c: char, s: string)
    ensures Encode(code, [c] + s) == code(c) + Encode(code, s)
  {
    assert ([c] + s)[1..] == s;
  }

  lemma {:induction false} EncodeConcat(code: char -> string, a: string, b: string)
    ensures Encode(code, a + b) == Encode(code, a) + Encode(code, b)
  {
    if a == "" {
      assert a + b == b;
    } else {
      var c, rest := a[0], a[1..];
      EncodeConcat(code, rest, b);
      assert a == [c] + rest;
      Joined([c], rest, b);
      EncodeCons(code, c, rest + b);
      EncodeCons(code, c, rest);
      Joined(code(c), Encode(code, rest), Encode(code, b));
    }
  }

  lemma EncodeOne(code: char -> string, c: char)
    ensures Encode(code, [c]) == code(c)
  {
    assert Encode(code, [c][1..]) == "";
  }

  /** The encoding of a text is the text, or longer by two characters at least. */
  lemma {:induction false} EncodeGrows(code: char -> string, s: string)
    requires UrlCode(code)
    ensures Encode(code, s) == s || |Encode(code, s)| >= |s| + 2
  {
    if s != "" {
      assert s == [s[0]] + s[1..];
      EncodeGrows(code, s[1..]);
    }
  }

  /** Unreserved text is its own encoding. */
  lemma {:induction false} EncodeUnreserved(code: char -> string, s: string)
    requires UrlCode(code) && forall i | 0 <= i < |s| :: Unreserved(s[i])
    ensures Encode(code, s) == s
  {
    if s != "" {
      assert s == [s[0]] + s[1..];
      EncodeUnreserved(code, s[1..]);
    }
  }

  /** Encoded text consists of unreserved characters and escapes. */
  lemma {:induction false} EncodeChars(code: char -> string, s: string)
    requires UrlCode(code)
    ensures forall x | x in Encode(code, s) :: Unreserved(x) || x == '%'
  {
    if s != "" {
      EncodeChars(code, s[1..]);
    }
  }

  // ---- the mask character stays where it is ------------------------------------

  function Stars(s: string): nat {
    multiset(s)['*']
  }

  lemma CodeStars(code: char -> string, c: char)
    requires UrlCode(code)
    ensures c == '*' ==> code(c) == "*"
    ensures c != '*' ==> '*' !in code(c) && code(c) != ""
  {
    assert Unreserved('*');
    assert !EscapeChar('*');
  }

  lemma {:induction false} EncodeStars(code: char -> string, s: string)
    requires UrlCode(code)
    ensures Stars(Encode(code, s)) == Stars(s)
  {
    if s != "" {
      var c, rest := s[0], s[1..];
      assert s == [c] + rest;
      EncodeStars(code, rest);
      CodeStars(code, c);
      assert Stars(code(c)) == Stars([c]);
    }
  }

  lemma EncodeFirst(code: char -> string, s: string)
    requires UrlCode(code) && s != ""
    ensures Encode(code, s) != "" && (Encode(code, s)[0] == '*' <==> s[0] == '*')
    ensures s[0] == '*' ==> Encode(code, s) == "*" + Encode(code, s[1..])
  {
    CodeStars(code, s[0]);
    assert s[0] != '*' ==> code(s[0])[0] in code(s[0]);
  }

  lemma EncodeLast(code: char -> string, s: string)
    requires UrlCode(code) && s != ""
    ensures var e := Encode(code, s); e != "" && (e[|e| - 1] == '*' <==> s[|s| - 1] == '*')
  {
    var init, c := s[..|s| - 1], s[|s| - 1];
    assert s == init + [c];
    EncodeConcat(code, init, [c]);
    EncodeOne(code, c);
    CodeStars(code, c);
    assert c != '*' ==> code(c)[|code(c)| - 1] in code(c);
  }

  /** A mask character of the text is found in the encoding, at the same place or further back. */
  lemma StarBehind(code: char -> string, s: string, i: nat)
    requires UrlCode(code) && i < |s| && s[i] == '*'
    ensures exists j :: i <= j < |Encode(code, s)| && Encode(code, s)[j] == '*'
  {
    var a, b := s[..i], s[i..];
    assert s == a + b;
    EncodeConcat(code, a, b);
    EncodeGrows(code, a);
    EncodeFirst(code, b);
    assert Encode(code, s)[|Encode(code, a)|] == '*';
  }

  lemma MaskBehind(p: string, s: string, k: int)
    requires '*' !in p && OccursAt(p + s, MASK, k)
    ensures k >= |p|
  {
    assert (p + s)[k..k + 3][0] == (p + s)[k];
  }

  lemma StarsInFront(s: string)
    requires |s| >= 3 && s[0] == s[1] == s[2] == '*'
    ensures OccursAt(s, MASK, 0)
  {
  }

  /** No mask comes into being. */
  lemma {:induction false} EncodeMaskFree(code: char -> string, s: string)
    requires UrlCode(code) && MaskFree(s)
    ensures MaskFree(Encode(code, s))
  {
    if s != "" {
      var c, rest := s[0], s[1..];
      MaskFreePart(s, 1, |s|);
      assert s[1..|s|] == rest;
      EncodeMaskFree(code, rest);
      CodeStars(code, c);
      forall k ensures !OccursAt(code(c) + Encode(code, rest), MASK, k) {
        if OccursAt(code(c) + Encode(code, rest), MASK, k) {
          if c == '*' && k == 0 {
            EncodedMaskAtFront(code, s);
          } else {
            if c != '*' { MaskBehind(code(c), Encode(code, rest), k); }
            OccursBehind(code(c), Encode(code, rest), MASK, k);
          }
        }
      }
    }
  }

  lemma EncodedMaskAtFront(code: char -> string, s: string)
    requires UrlCode(code) && OccursAt(Encode(code, s), MASK, 0)
    ensures !MaskFree(s)
  {
    var e := Encode(code, s);
    assert e[..3] == MASK && e[0] == '*' && e[1] == '*' && e[2] == '*';
    EncodeFirst(code, s);
    assert Encode(code, s[1..]) == e[1..];
    EncodeFirst(code, s[1..]);
    assert Encode(code, s[1..][1..]) == e[1..][1..];
    EncodeFirst(code, s[1..][1..]);
    StarsInFront(s);
  }

  /** Encoding a harmless form gives a harmless form. */
  lemma EncodeHarmless(code: char -> string, s: string)
    requires UrlCode(code)
    ensures Solid(s) ==> Solid(Encode(code, s))
    ensures Harmless(s) ==> Harmless(Encode(code, s))
  {
    if Solid(s) {
      EncodeMaskFree(code, s);
      EncodeFirst(code, s);
      EncodeLast(code, s);
    } else if s == "*" || s == MASK {
      EncodeUnreserved(code, s);
    }
  }
}
