/** Which hosts a certificate covers, and the wildcard names asked for. */
module CertNames {
  import opened Options
  import opened Text

  function DropDot(s: string): string {
    if s != "" && s[|s| - 1] == '.' then s[..|s| - 1] else s
  }

  /** The form names are compared in. */
  function Canon(s: string): string {
    DropDot(Lower(Trim(s)))
  }

  /**
   A wildcard stands for exactly one label, the leftmost one, which must not
   be empty (section 6.4.3 of RFC 6125); what follows it has at least two
   labels and is more than a lone dot.
   */
  predicate WildcardCovers(host: seq<string>, name: seq<string>) {
    && |name| >= 3 && name[0] == "*" && name[1..] != ["", ""]
    && |host| == |name| && host[0] != "" && host[1..] == name[1..]
  }

  predicate Covers(name: string, host: string) {
    && host != "" && name != ""
    && (name == host || WildcardCovers(Split(host, '.'), Split(name, '.')))
  }

  /** Blanks around a name, its case, and one dot at its end make no difference. */
  lemma CanonForgets(a: string, s: string, dot: bool, b: string)
    requires Blank(a) && Blank(b) && s != "" && Trimmed(s) && s[|s| - 1] != '.'
    ensures Canon(a + (WithDot(s, dot) + b)) == Lower(s)
  {
    TrimTakesBlanks(a, WithDot(s, dot), b);
    CanonOfTrimmed(s, dot);
  }

  /** A name, with or without a last dot. */
  function WithDot(s: string, dot: bool): (r: string)
    requires s != "" && Trimmed(s)
    ensures Trimmed(r)
  {
    var r := s + ['.'];
    assert r[0] == s[0] && r[|r| - 1] == '.';
    if dot then r else s
  }

  lemma CanonOfTrimmed(s: string, dot: bool)
    requires s != "" && Trimmed(s) && s[|s| - 1] != '.'
    ensures DropDot(Lower(WithDot(s, dot))) == Lower(s)
  {
    if dot {
      LowerConcat(s, ['.']);
      LowerOfDot();
      DropDotBehind(Lower(s));
    } else {
      NoDotAtEnd(s);
    }
  }

  lemma NoDotAtEnd(s: string)
    requires s != "" && s[|s| - 1] != '.'
    ensures DropDot(Lower(s)) == Lower(s)
  {
    LowerLetters(s, |s| - 1);
  }

  lemma LowerOfDot()
    ensures Lower(['.']) == ['.']
  {
    LowerAt(['.'], 0);
  }

  lemma DropDotBehind(s: string)
    ensures DropDot(s + ['.']) == s
  {
    assert (s + ['.'])[..|s|] == s;
  }

  lemma NothingIsCanon()
    ensures Canon("") == "" && Canon(".") == ""
  {
    LowerOfDot();
    TrimNothing(['.']);
  }

  // ------------------------------------------------ labels and suffixes

  lemma SplitFirst(first: string, rest: string)
    requires '.' !in first
    ensures Split(first + "." + rest, '.') == [first] + Split(rest, '.')
  {
    var s := first + "." + rest;
    FirstAt(s, '.', |first|);
    assert s[..|first|] == first && s[|first| + 1..] == rest;
    SplitStep(s, '.');
  }

  lemma SplitOnce(s: string, t: string)
    ensures (Split(s, '.') == Split(t, '.')) <==> (s == t)
  {
    JoinSplit(s, '.');
    JoinSplit(t, '.');
  }

  lemma LoneDot(base: string)
    ensures (Split(base, '.') == ["", ""]) <==> (base == ".")
    ensures |Split(base, '.')| >= 2 <==> '.' in base
  {
    SplitFirst("", "");
    SplitOnce(base, ".");
    SplitNone(base, '.');
    assert "" + "." + "" == ".";
  }

  predicate StartsWith(s: string, p: string) {
    |s| >= |p| && s[..|p|] == p
  }

  predicate EndsWith(s: string, p: string) {
    |s| >= |p| && s[|s| - |p|..] == p
  }

  /** The suffix test of one wildcard name. */
  predicate SuffixTest(host: string, name: string)
    requires StartsWith(name, "*.")
  {
    var suffix := name[1..];
    && |suffix| >= 3 && '.' in suffix[1..] && EndsWith(host, suffix)
    && var first := host[..|host| - |suffix|]; first != "" && '.' !in first
  }

  lemma WildcardShape(base: string)
    ensures StartsWith("*." + base, "*.") && ("*." + base)[1..] == "." + base
    ensures "*." + base == "*" + "." + base
  {
  }

  lemma LabelsOfWildcard(base: string)
    ensures Split("*" + "." + base, '.') == ["*"] + Split(base, '.')
  {
    SplitFirst("*", base);
  }

  /** Ending in `.base` behind a single label is having that label and then those of `base`. */
  lemma EndsInLabels(host: string, base: string)
    ensures var h := Split(host, '.');
            (exists first :: first != "" && '.' !in first && host == first + "." + base) <==>
            (|h| > 1 && h[0] != "" && h[1..] == Split(base, '.'))
  {
    var h := Split(host, '.');
    forall first | '.' !in first && host == first + "." + base ensures h == [first] + Split(base, '.') {
      SplitFirst(first, base);
    }
    SplitNone(host, '.');
    IndexOfIsFirst(host, '.');
    if |h| > 1 && h[0] != "" && h[1..] == Split(base, '.') {
      SplitStep(host, '.');
      SplitOnce(host[IndexOf(host, '.') + 1..], base);
      CutAt(host, IndexOf(host, '.'));
      assert host == h[0] + "." + base;
    }
  }

  lemma CoversByLabels(h: seq<string>, base: string)
    ensures WildcardCovers(h, ["*"] + Split(base, '.')) <==>
            |base| >= 2 && '.' in base && |h| > 1 && h[0] != "" && h[1..] == Split(base, '.')
  {
    LoneDot(base);
    assert (["*"] + Split(base, '.'))[1..] == Split(base, '.');
  }

  lemma SuffixIsLabels(host: string, base: string)
    ensures StartsWith("*." + base, "*.")
    ensures SuffixTest(host, "*." + base) <==> WildcardCovers(Split(host, '.'), Split("*." + base, '.'))
  {
    WildcardShape(base);
    LabelsOfWildcard(base);
    CoversByLabels(Split(host, '.'), base);
    EndsInLabels(host, base);
    SuffixAsConcat(host, base);
  }

  lemma SuffixAsConcat(host: string, base: string)
    requires ("*." + base)[1..] == "." + base && StartsWith("*." + base, "*.")
    ensures SuffixTest(host, "*." + base) <==>
            |base| >= 2 && '.' in base && exists first :: first != "" && '.' !in first && host == first + "." + base
  {
    assert ("." + base)[1..] == base;
    if EndsWith(host, "." + base) {
      assert host == host[..|host| - |base| - 1] + "." + base;
    }
    forall first | host == first + "." + base ensures EndsWith(host, "." + base) && host[..|host| - |base| - 1] == first {
      assert host == first + ("." + base);
    }
  }

  /** Only a name that starts with `*.` covers by wildcard. */
  lemma WildcardStart(host: string, name: string)
    ensures WildcardCovers(Split(host, '.'), Split(name, '.')) ==> StartsWith(name, "*.")
  {
    if '.' in name {
      SplitStep(name, '.');
      CutAt(name, IndexOf(name, '.'));
    }
  }

  predicate NameTest(host: string, name: string) {
    name != "" && (name == host || (StartsWith(name, "*.") && SuffixTest(host, name)))
  }

  /** The suffix test decides what the labels define. */
  lemma NameTestIsCovers(host: string, name: string)
    requires host != ""
    ensures NameTest(host, name) <==> Covers(name, host)
  {
    WildcardStart(host, name);
    if StartsWith(name, "*.") {
      assert name == "*." + name[2..];
      SuffixIsLabels(host, name[2..]);
    }
  }

  predicate AnyMatches(h: string, names: seq<string>) {
    names != [] && (NameTest(h, Canon(names[0])) || AnyMatches(h, names[1..]))
  }

  predicate DomainMatches(host: string, names: seq<string>) {
    var h := Canon(host);
    h != "" && AnyMatches(h, names)
  }

  lemma {:induction false} FoundByMatch(h: string, names: seq<string>) returns (i: nat)
    requires AnyMatches(h, names)
    ensures i < |names| && NameTest(h, Canon(names[i]))
  {
    if NameTest(h, Canon(names[0])) {
      i := 0;
    } else {
      var j := FoundByMatch(h, names[1..]);
      i := j + 1;
      assert names[1..][j] == names[i];
    }
  }

  lemma {:induction false} MatchFound(h: string, names: seq<string>, i: nat)
    requires i < |names| && NameTest(h, Canon(names[i]))
    ensures AnyMatches(h, names)
  {
    if i > 0 { MatchFound(h, names[1..], i - 1); }
  }

  /** The search says yes exactly when some name covers the host, label by label. */
  lemma DomainMatchesByLabels(host: string, names: seq<string>)
    ensures DomainMatches(host, names) <==> exists i | 0 <= i < |names| :: Covers(Canon(names[i]), Canon(host))
  {
    var h := Canon(host);
    if DomainMatches(host, names) {
      var i := FoundByMatch(h, names);
      NameTestIsCovers(h, Canon(names[i]));
    }
    if i :| 0 <= i < |names| && Covers(Canon(names[i]), h) {
      NameTestIsCovers(h, Canon(names[i]));
      MatchFound(h, names, i);
    }
  }

  // ------------------------------------------- the wildcard of a host

  datatype CertMode = Http | Dns | DnsWildcard

  datatype Routing = Routing(main: Option<string>)

  function Labels(host: string): seq<string> {
    Split(Lower(Trim(host)), '.')
  }

  /** The parent of a host; nothing for fewer than three labels. */
  function WildcardBase(host: string): Option<string> {
    var labels := Labels(host);
    if |labels| < 3 then None else Some(Join(labels[1..], '.'))
  }

  function DnsRouting(host: string, mode: Option<CertMode>): Option<Routing> {
    if mode == Some(Dns) then Some(Routing(None))
    else if mode == Some(DnsWildcard) then
      var main := WildcardBase(host);
      Some(Routing(if Truthy(main) then main else None))
    else None
  }

  function HostOf(first: string, rest: Option<string>): string {
    if rest.Some? then first + "." + rest.value else first
  }

  /**
   A wildcard is asked for exactly when a host has a parent of two labels or
   more, and then for that parent; in the other modes there is none.
   */
  lemma WildcardIsParent(a: string, first: string, rest: Option<string>, b: string)
    requires Blank(a) && Blank(b) && '.' !in first
    requires Trimmed(HostOf(first, rest)) && IsLower(HostOf(first, rest))
    ensures DnsRouting(a + (HostOf(first, rest) + b), Some(DnsWildcard)) ==
            Some(Routing(if rest.Some? && '.' in rest.value then rest else None))
  {
    TrimTakesBlanks(a, HostOf(first, rest), b);
    LowerFixes(HostOf(first, rest));
    BaseOf(a + (HostOf(first, rest) + b), first, rest);
  }

  lemma OtherModes(host: string)
    ensures DnsRouting(host, Some(Dns)) == Some(Routing(None))
    ensures DnsRouting(host, Some(Http)) == None && DnsRouting(host, None) == None
  {
  }

  lemma BaseOf(host: string, first: string, rest: Option<string>)
    requires '.' !in first && Lower(Trim(host)) == HostOf(first, rest)
    ensures WildcardBase(host) == if rest.Some? && '.' in rest.value then rest else None
  {
    if rest.Some? { ParentOf(first, rest.value); } else { SplitNone(first, '.'); }
  }

  lemma ParentOf(first: string, rest: string)
    requires '.' !in first
    ensures var labels := Split(first + "." + rest, '.');
            (|labels| >= 3 <==> '.' in rest) && |labels| >= 2 && Join(labels[1..], '.') == rest
  {
    SplitFirst(first, rest);
    SplitNone(rest, '.');
    JoinSplit(rest, '.');
    assert ([first] + Split(rest, '.'))[1..] == Split(rest, '.');
  }

  lemma LowerStaysTrimmed(s: string)
    requires Trimmed(s)
    ensures Trimmed(Lower(s)) && IsLower(Lower(s))
  {
    LowerFixes(s);
    if s != "" {
      LowerAt(s, 0);
      LowerAt(s, |s| - 1);
    }
  }

  /** A text taken apart at its first dot. */
  lemma HostAndParent(t: string)
    requires |Split(t, '.')| >= 3
    ensures var labels := Split(t, '.');
            var base := Join(labels[1..], '.');
            t == labels[0] + "." + base && '.' !in labels[0] && '.' in base && Split(base, '.') == labels[1..]
  {
    SplitNone(t, '.');
    SplitStep(t, '.');
    IndexOfIsFirst(t, '.');
    var rest := t[IndexOf(t, '.') + 1..];
    JoinSplit(rest, '.');
    SplitNone(rest, '.');
    CutAt(t, IndexOf(t, '.'));
  }

  /** The name asked for is already in the form names are compared in, up to a last dot. */
  lemma CanonOfWildcard(first: string, base: string)
    requires base != "" && Trimmed(first + "." + base) && IsLower(first + "." + base)
    ensures Canon("*." + base) == "*." + DropDot(base)
    ensures DropDot(first + "." + base) == first + "." + DropDot(base)
  {
    var name, t := "*." + base, first + "." + base;
    assert name[|name| - 1] == base[|base| - 1] == t[|t| - 1];
    TrimNothing(name);
    forall i | 0 <= i < |name| ensures !IsUpperChar(name[i]) {
      if i >= 2 { assert t[|first| + 1 + (i - 2)] == name[i]; }
    }
    LowerFixes(name);
  }

  lemma CoversBeside(first: string, base: string)
    requires '.' !in first
    ensures Covers("*." + base, first + "." + base) <==>
            first == "*" || (first != "" && '.' in base && |base| >= 2)
  {
    WildcardShape(base);
    LabelsOfWildcard(base);
    SplitFirst(first, base);
    CoversByLabels([first] + Split(base, '.'), base);
    assert ([first] + Split(base, '.'))[1..] == Split(base, '.');
    SameFirst(first, "*", base);
  }

  lemma SameFirst(a: string, b: string, rest: string)
    ensures (a + "." + rest == b + "." + rest) <==> (a == b)
  {
    var s, t := a + "." + rest, b + "." + rest;
    if s == t { assert a == s[..|a|] && b == t[..|b|]; }
  }

  lemma OneName(host: string, name: string)
    requires Canon(host) != ""
    ensures DomainMatches(host, [name]) <==> Covers(Canon(name), Canon(host))
  {
    var names := [name];
    assert !AnyMatches(Canon(host), names[1..]);
    NameTestIsCovers(Canon(host), Canon(name));
  }

  /**
   The wildcard asked for a host covers that host exactly when the host's
   first label is a star, or is not empty while the parent, without its last
   dot, still has two labels and is more than a lone dot.
   */
  lemma WildcardCoversItsHost(host: string)
    requires |Labels(host)| >= 3
    ensures DnsRouting(host, Some(DnsWildcard)) == Some(Routing(WildcardBase(host)))
    ensures var first, base := Labels(host)[0], DropDot(WildcardBase(host).value);
            DomainMatches(host, ["*." + WildcardBase(host).value]) <==>
            first == "*" || (first != "" && '.' in base && |base| >= 2)
  {
    var t := Lower(Trim(host));
    var first, base := Labels(host)[0], WildcardBase(host).value;
    LowerStaysTrimmed(Trim(host));
    HostAndParent(t);
    CanonOfWildcard(first, base);
    CoversBeside(first, DropDot(base));
    OneName(host, "*." + base);
  }

  /** In particular for every host of three or more labels, none of them empty. */
  lemma PlainHostIsCovered(host: string)
    requires |Labels(host)| >= 3 && "" !in Labels(host)
    ensures DomainMatches(host, ["*." + WildcardBase(host).value])
  {
    var t := Lower(Trim(host));
    HostAndParent(t);
    NoLastDot(WildcardBase(host).value);
    WildcardCoversItsHost(host);
  }

  lemma EndsAsItsTail(a: string, b: string)
    requires b != "" && DropDot(b) == b
    ensures DropDot(a + "." + b) == a + "." + b && |a + "." + b| >= 2
  {
    var s := a + "." + b;
    assert s[|s| - 1] == b[|b| - 1];
  }

  /** A text without empty labels does not end in a dot, and has two characters if it has a dot. */
  lemma {:induction false} NoLastDot(s: string)
    requires "" !in Split(s, '.')
    ensures s != "" && DropDot(s) == s && ('.' in s ==> |s| >= 2)
    decreases |s|
  {
    SplitNone(s, '.');
    if '.' in s {
      SplitStep(s, '.');
      var k := IndexOf(s, '.');
      var labels := Split(s[k + 1..], '.');
      assert Split(s, '.')[1..] == labels;
      assert forall i | 0 <= i < |labels| :: labels[i] == Split(s, '.')[i + 1];
      NoLastDot(s[k + 1..]);
      CutAt(s, k);
      EndsAsItsTail(s[..k], s[k + 1..]);
    } else {
      assert Split(s, '.') == [s];
    }
  }
}
