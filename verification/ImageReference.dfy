/**
 The two readers of Docker image references, as two meanings given to one
 spelling: `[host/]path[:tag][@digest]`.
 */
module ImageReference {
  import opened Options
  import opened Text

  /** The written parts of a reference, before any default is filled in. */
  datatype Parts = Parts(host: Option<string>, path: string, tag: Option<string>, digest: Option<string>)

  predicate LooksLikeHost(part: string) {
    '.' in part || ':' in part || part == "localhost"
  }

  function LastSegment(s: string): string {
    s[LastIndexOf(s, '/') + 1..]
  }

  function CutHost(s: string): (Option<string>, string) {
    var slash := IndexOf(s, '/');
    if slash >= 0 && LooksLikeHost(s[..slash]) then (Some(s[..slash]), s[slash + 1..]) else (None, s)
  }

  /** No part holds a character that would make it read as another part. */
  predicate Proper(p: Parts) {
    && '@' !in p.path
    && (p.tag.None? ==> ':' !in LastSegment(p.path))
    && (p.host.Some? ==> LooksLikeHost(p.host.value) && '/' !in p.host.value && '@' !in p.host.value)
    && (p.host.None? ==> CutHost(p.path).0.None?)
    && (p.tag.Some? ==> '/' !in p.tag.value && ':' !in p.tag.value && '@' !in p.tag.value)
  }

  function Body(p: Parts): string {
    if p.host.Some? then p.host.value + "/" + p.path else p.path
  }

  function Head(p: Parts): string {
    if p.tag.Some? then Body(p) + ":" + p.tag.value else Body(p)
  }

  function Spell(p: Parts): string {
    if p.digest.Some? then Head(p) + "@" + p.digest.value else Head(p)
  }

  function CutDigest(s: string): (string, Option<string>) {
    var at := IndexOf(s, '@');
    if at >= 0 then (s[..at], Some(s[at + 1..])) else (s, None)
  }

  function CutTag(s: string): (string, Option<string>) {
    var colon := LastIndexOf(s, ':');
    if colon > LastIndexOf(s, '/') then (s[..colon], Some(s[colon + 1..])) else (s, None)
  }

  function PartsOf(s: string): Parts {
    var (head, digest) := CutDigest(s);
    var (body, tag) := CutTag(head);
    var (host, path) := CutHost(body);
    Parts(host, path, tag, digest)
  }

  // -------------------------------------------------- spelling and reading

  lemma LastSlashAfter(h: string, p: string)
    ensures LastIndexOf(h + "/" + p, '/') == |h| + 1 + LastIndexOf(p, '/')
  {
    var s := h + "/" + p;
    var k := LastIndexOf(p, '/');
    LastIndexOfIsLast(p, '/');
    assert s[|h| + 1 + k + 1..] == p[k + 1..];
    LastAt(s, '/', |h| + 1 + k);
  }

  lemma LastSegmentAfterSlash(h: string, p: string)
    ensures LastSegment(h + "/" + p) == LastSegment(p)
  {
    var s, i := h + "/" + p, LastIndexOf(h + "/" + p, '/') + 1;
    LastSlashAfter(h, p);
    DropAfter(h, p, i - |h| - 1);
    assert s[i..] == p[i - |h| - 1..];
  }

  lemma DropAfter(h: string, p: string, k: nat)
    requires k <= |p|
    ensures (h + "/" + p)[|h| + 1 + k..] == p[k..]
  {
  }

  lemma CutDigestAt(head: string, digest: string)
    requires '@' !in head
    ensures CutDigest(head + "@" + digest) == (head, Some(digest))
    ensures CutDigest(head) == (head, None)
  {
    var s := head + "@" + digest;
    assert s[..|head|] == head;
    assert s[|head| + 1..] == digest;
    FirstAt(s, '@', |head|);
  }

  lemma CutTagAt(body: string, tag: string)
    requires '/' !in tag && ':' !in tag
    ensures CutTag(body + ":" + tag) == (body, Some(tag))
  {
    var s := body + ":" + tag;
    assert s[..|body|] == body;
    assert s[|body| + 1..] == tag;
    LastAt(s, ':', |body|);
  }

  lemma CutNoTag(body: string)
    ensures CutTag(body).1.None? <==> ':' !in LastSegment(body)
    ensures CutTag(body).1.None? ==> CutTag(body).0 == body
  {
    var colon, slash := LastIndexOf(body, ':'), LastIndexOf(body, '/');
    LastIndexOfIsLast(body, ':');
    if colon > slash { InTail(body, colon, slash + 1); } else { NoneAfter(body, ':', slash + 1); }
  }

  lemma InTail(s: string, i: nat, k: nat)
    requires k <= i < |s|
    ensures s[i] in s[k..]
  {
    assert s[k..][i - k] == s[i];
  }

  lemma NoneAfter(s: string, c: char, k: nat)
    requires k <= |s| && LastIndexOf(s, c) < k
    ensures c !in s[k..]
  {
    LastIndexOfIsLast(s, c);
  }

  /** A tag that was cut holds neither separator. */
  lemma CutTagPlain(s: string)
    requires CutTag(s).1.Some?
    ensures s == CutTag(s).0 + ":" + CutTag(s).1.value
    ensures '/' !in CutTag(s).1.value && ':' !in CutTag(s).1.value
  {
    var colon := LastIndexOf(s, ':');
    NoneAfter(s, '/', colon + 1);
    NoneAfter(s, ':', colon + 1);
    CutAt(s, colon);
  }

  lemma CutHostAt(h: string, path: string)
    requires '/' !in h && LooksLikeHost(h)
    ensures CutHost(h + "/" + path) == (Some(h), path)
  {
    var s := h + "/" + path;
    assert s[..|h|] == h;
    assert s[|h| + 1..] == path;
    FirstAt(s, '/', |h|);
  }

  lemma Without(a: string, separator: string, b: string, c: char)
    requires c !in a && c !in separator && c !in b
    ensures c !in a + separator + b
  {
  }

  lemma HeadHasNoAt(p: Parts)
    requires '@' !in p.path && (p.host.Some? ==> '@' !in p.host.value) && (p.tag.Some? ==> '@' !in p.tag.value)
    ensures '@' !in Head(p)
  {
    if p.host.Some? { Without(p.host.value, "/", p.path, '@'); }
    assert '@' !in Body(p);
    if p.tag.Some? { Without(Body(p), ":", p.tag.value, '@'); }
  }

  lemma ReadBody(p: Parts)
    requires Proper(p)
    ensures CutHost(Body(p)) == (p.host, p.path)
  {
    if p.host.Some? { CutHostAt(p.host.value, p.path); } else { CutHostWhole(p.path); }
  }

  lemma ReadHead(p: Parts)
    requires Proper(p)
    ensures CutTag(Head(p)) == (Body(p), p.tag)
  {
    var body := Body(p);
    if p.tag.Some? {
      CutTagAt(body, p.tag.value);
    } else {
      if p.host.Some? { LastSegmentAfterSlash(p.host.value, p.path); }
      CutNoTag(body);
    }
  }

  lemma ReadWhole(head: string, digest: Option<string>)
    requires '@' !in head
    ensures CutDigest(if digest.Some? then head + "@" + digest.value else head) == (head, digest)
  {
    CutDigestAt(head, if digest.Some? then digest.value else "");
  }

  /** Reading a spelling gives back the parts that were spelled. */
  lemma ReadSpelling(p: Parts)
    requires Proper(p)
    ensures PartsOf(Spell(p)) == p
  {
    HeadHasNoAt(p);
    ReadWhole(Head(p), p.digest);
    assert CutDigest(Spell(p)) == (Head(p), p.digest);
    ReadHead(p);
    ReadBody(p);
  }

  lemma CutDigestWhole(s: string)
    ensures var (head, digest) := CutDigest(s);
      '@' !in head && s == if digest.Some? then head + "@" + digest.value else head
  {
    IndexOfIsFirst(s, '@');
    if '@' in s { CutAt(s, IndexOf(s, '@')); }
  }

  lemma CutHostWhole(s: string)
    ensures var (host, path) := CutHost(s);
      && s == (if host.Some? then host.value + "/" + path else path)
      && (host.Some? ==> LooksLikeHost(host.value) && '/' !in host.value && LastSegment(s) == LastSegment(path))
  {
    var (host, path) := CutHost(s);
    IndexOfIsFirst(s, '/');
    if host.Some? {
      CutAt(s, IndexOf(s, '/'));
      LastSegmentAfterSlash(host.value, path);
    }
  }

  /** Every string is the spelling of proper parts. */
  lemma SpellReading(s: string)
    ensures Proper(PartsOf(s)) && Spell(PartsOf(s)) == s
  {
    var (head, digest) := CutDigest(s);
    CutDigestWhole(s);
    var (body, tag) := CutTag(head);
    CutNoTag(head);
    if tag.Some? { CutTagPlain(head); }
    CutHostWhole(body);
    var p := PartsOf(s);
    assert Body(p) == body;
    assert Head(p) == head;
    SplitCharacters(p);
  }

  /** Where a character of the head can come from. */
  lemma SplitCharacters(p: Parts)
    requires '@' !in Head(p)
    ensures '@' !in p.path && (p.host.Some? ==> '@' !in p.host.value) && (p.tag.Some? ==> '@' !in p.tag.value)
  {
    assert forall c | c in Body(p) :: c in Head(p);
    assert forall c | c in p.path :: c in Body(p);
    assert p.host.Some? ==> forall c | c in p.host.value :: c in Body(p);
    assert p.tag.Some? ==> forall c | c in p.tag.value :: c in Head(p);
  }

  /** A tag behind the path does not change whether the path starts with a host. */
  lemma HostSurvivesTag(path: string, tag: string)
    requires '/' !in tag
    ensures CutHost(path).0 == CutHost(path + ":" + tag).0
  {
    var s, k := path + ":" + tag, IndexOf(path, '/');
    IndexOfIsFirst(path, '/');
    IndexOfIsFirst(s, '/');
    if k != -1 {
      assert s[..k] == path[..k];
      FirstAt(s, '/', k);
    }
  }

  lemma HeadWith(host: Option<string>, path: string, tag: Option<string>)
    ensures var rest := if tag.Some? then path + ":" + tag.value else path;
            Head(Parts(host, path, tag, None)) == if host.Some? then host.value + "/" + rest else rest
  {
    if host.Some? && tag.Some? {
      assert (host.value + "/" + path) + ":" + tag.value == host.value + "/" + (path + ":" + tag.value);
    }
  }

  /** It does not matter whether the host or the tag is cut first. */
  lemma CutsCommute(head: string, host: Option<string>, rest: string, path: string, tag: Option<string>)
    requires '@' !in head && CutHost(head) == (host, rest) && CutTag(rest) == (path, tag)
    ensures PartsOf(head) == Parts(host, path, tag, None)
  {
    var p := Parts(host, path, tag, None);
    CutHostWhole(head);
    CutNoTag(rest);
    if tag.Some? {
      CutTagPlain(rest);
      HostSurvivesTag(path, tag.value);
    }
    HeadWith(host, path, tag);
    SplitCharacters(p);
    ReadSpelling(p);
  }

  // ------------------------------------------------------ the two meanings

  const HUB := "registry-1.docker.io"
  const CANONICAL_HUB := "docker.io"
  const HUB_HOSTS: set<string> := {"docker.io", "index.docker.io", "registry-1.docker.io"}

  datatype ImageReference = ImageReference(registry: string, repository: string, tag: string,
                                           digest: Option<string>)

  datatype CanonicalRef = CanonicalRef(name: string, tag: Option<string>, digest: Option<string>)

  function OfficialPath(path: string): string {
    if '/' in path then path else "library/" + path
  }

  function TagOf(tag: Option<string>): string {
    if tag.Some? then tag.value else "latest"
  }

  function RegistryOf(host: Option<string>): string {
    if host.None? || host.value == "docker.io" || host.value == "index.docker.io" then HUB else host.value
  }

  function RepositoryAt(registry: string, path: string): string {
    if registry == HUB then OfficialPath(path) else path
  }

  /** What a registry client asks for. */
  function Resolve(p: Parts): ImageReference {
    var registry := RegistryOf(p.host);
    ImageReference(registry, RepositoryAt(registry, p.path), TagOf(p.tag), p.digest)
  }

  function CanonicalHost(host: Option<string>): string {
    if host.None? || Lower(host.value) in HUB_HOSTS then CANONICAL_HUB else Lower(host.value)
  }

  function NameOf(host: string, path: string): string {
    host + "/" + if host == CANONICAL_HUB then OfficialPath(path) else path
  }

  function CanonicalTag(tag: Option<string>, digest: Option<string>): Option<string> {
    if Truthy(tag) || Truthy(digest) then tag else Some("latest")
  }

  function LowerAll(o: Option<string>): Option<string> {
    if o.Some? then Some(Lower(o.value)) else None
  }

  /** What images are compared by before one is removed. */
  function Canonicalize(p: Parts): CanonicalRef {
    CanonicalRef(NameOf(CanonicalHost(p.host), p.path), CanonicalTag(p.tag, p.digest), LowerAll(p.digest))
  }

  predicate HasSpace(s: string) {
    exists i | 0 <= i < |s| :: IsSpace(s[i])
  }

  /** The text can name an image. */
  predicate Names(s: string) {
    s != "" && !HasSpace(s) && Body(PartsOf(s)) != ""
  }

  lemma BodyLeft(s: string, head: string, body: string)
    requires CutDigest(s).0 == head && CutTag(head).0 == body
    ensures Body(PartsOf(s)) == body
    ensures PartsOf(s) == Parts(CutHost(body).0, CutHost(body).1, CutTag(head).1, CutDigest(s).1)
  {
    CutHostWhole(body);
  }

  /** Nothing but a tag stands before the digest, or before the end. */
  ghost predicate NamelessUpTo(s: string, n: nat) {
    && n <= |s| && (n < |s| ==> s[n] == '@') && (forall i | 0 <= i < n :: s[i] != '@')
    && (n == 0 || (s[0] == ':' && forall i | 0 < i < n :: s[i] != '/' && s[i] != ':'))
  }

  /** A text names an image exactly when it holds no blank and something before tag and digest. */
  lemma NamesIff(s: string)
    ensures Names(s) <==> (forall i | 0 <= i < |s| :: !IsSpace(s[i])) && forall n: nat :: !NamelessUpTo(s, n)
  {
    BodyMissing(s);
  }

  lemma BodyMissing(s: string)
    ensures Body(PartsOf(s)) == "" <==> exists n: nat :: NamelessUpTo(s, n)
  {
    var head := CutDigest(s).0;
    BodyLeft(s, head, CutTag(head).0);
    NothingBeforeTag(head);
    HeadEnds(s, head);
    NamelessHead(s, head);
  }

  lemma NamelessHead(s: string, head: string)
    requires |head| <= |s| && (|head| < |s| ==> s[|head|] == '@')
    requires forall i | 0 <= i < |head| :: s[i] != '@' && s[i] == head[i]
    ensures OnlyTag(head) <==> exists n: nat :: NamelessUpTo(s, n)
  {
    if OnlyTag(head) { assert NamelessUpTo(s, |head|); }
    if n: nat :| NamelessUpTo(s, n) { OneHead(s, |head|, n); }
  }

  predicate OnlyTag(head: string) {
    head == "" || (head[0] == ':' && forall i | 0 < i < |head| :: head[i] != '/' && head[i] != ':')
  }

  /** The head is what comes before the first `@`. */
  lemma HeadEnds(s: string, head: string)
    requires head == CutDigest(s).0
    ensures |head| <= |s| && s[..|head|] == head && (|head| < |s| ==> s[|head|] == '@')
    ensures forall i | 0 <= i < |head| :: s[i] != '@' && s[i] == head[i]
  {
    IndexOfIsFirst(s, '@');
  }

  lemma OneHead(s: string, k: nat, n: nat)
    requires k <= |s| && (k < |s| ==> s[k] == '@') && (forall i | 0 <= i < k :: s[i] != '@')
    requires n <= |s| && (n < |s| ==> s[n] == '@') && (forall i | 0 <= i < n :: s[i] != '@')
    ensures k == n
  {
  }

  lemma NothingBeforeTag(head: string)
    ensures CutTag(head).0 == "" <==> OnlyTag(head)
  {
    LastIndexOfIsLast(head, ':');
    LastIndexOfIsLast(head, '/');
    EmptyBefore(head, LastIndexOf(head, ':'), LastIndexOf(head, '/'));
  }

  lemma EmptyBefore(head: string, colon: int, slash: int)
    requires -1 <= colon < |head| && (colon >= 0 ==> head[colon] == ':') && forall k | colon < k < |head| :: head[k] != ':'
    requires -1 <= slash < |head| && (slash >= 0 ==> head[slash] == '/') && forall k | slash < k < |head| :: head[k] != '/'
    ensures (if colon > slash then head[..colon] else head) == "" <==> OnlyTag(head)
  {
  }

  lemma ReadInOrder(s: string, head: string, rest: string, p: Parts)
    requires CutDigest(s) == (head, p.digest) && CutHost(head) == (p.host, rest) && CutTag(rest) == (p.path, p.tag)
    ensures PartsOf(s) == p
  {
    CutDigestWhole(s);
    CutsCommute(head, p.host, rest, p.path, p.tag);
  }

  method SplitRegistry(rest: string) returns (registry: string, path: string, ghost host: Option<string>)
    ensures registry == RegistryOf(host) && CutHost(rest) == (host, path)
  {
    var firstSlash := IndexOf(rest, '/');
    var first := if firstSlash >= 0 then rest[..firstSlash] else "";
    registry, path, host := HUB, rest, None;
    if firstSlash >= 0 && LooksLikeHost(first) {
      registry := first;
      path := rest[firstSlash + 1..];
      host := Some(first);
    }
    if registry == "docker.io" || registry == "index.docker.io" {
      registry := HUB;
    }
  }

  method TakeDigest(ref: string) returns (rest: string, digest: Option<string>)
    ensures CutDigest(ref) == (rest, digest)
  {
    rest, digest := ref, None;
    var at := IndexOf(rest, '@');
    if at >= 0 {
      digest := Some(rest[at + 1..]);
      rest := rest[..at];
    }
  }

  method TakeTag(ref: string) returns (rest: string, tag: Option<string>)
    ensures CutTag(ref) == (rest, tag)
  {
    rest, tag := ref, None;
    var slash, colon := LastIndexOf(rest, '/'), LastIndexOf(rest, ':');
    if colon > slash {
      tag := Some(rest[colon + 1..]);
      rest := rest[..colon];
    }
  }

  method ParseImageRef(ref: string) returns (r: ImageReference)
    ensures r == Resolve(PartsOf(Trim(ref)))
  {
    var rest, digest := TakeDigest(Trim(ref));
    var registry, tagged, host := SplitRegistry(rest);
    var path, tag := TakeTag(tagged);
    ReadInOrder(Trim(ref), rest, tagged, Parts(host, path, tag, digest));
    return ImageReference(registry, RepositoryAt(registry, path), TagOf(tag), digest);
  }

  /** The spelling of `ref` with `tag` for its tag and without a digest. */
  function Retagged(ref: string, tag: string): string {
    Spell(PartsOf(Trim(ref)).(tag := Some(tag), digest := None))
  }

  method WithTag(ref: string, tag: string) returns (r: string)
    ensures r == Retagged(ref, tag)
  {
    var rest, digest := TakeDigest(Trim(ref));
    var untagged, oldTag := TakeTag(rest);
    BodyLeft(Trim(ref), rest, untagged);
    return untagged + ":" + tag;
  }

  /** Dropping the first of the segments is dropping the host. */
  lemma SplitHost(s: string)
    ensures var (host, path), parts := CutHost(s), Split(s, '/');
      && (host.Some? <==> |parts| > 1 && LooksLikeHost(parts[0]))
      && (host.Some? ==> host.value == parts[0] && Split(path, '/') == parts[1..])
      && (host.None? ==> path == s)
  {
    SplitNone(s, '/');
    IndexOfIsFirst(s, '/');
    if '/' in s { SplitStep(s, '/'); }
  }

  method JoinOfficial(host: string, parts: seq<string>) returns (name: string)
    requires parts != []
    requires |parts| > 1 <==> '/' in Join(parts, '/')
    ensures name == NameOf(host, Join(parts, '/'))
  {
    var whole := parts;
    if host == CANONICAL_HUB && |parts| == 1 {
      JoinStep("library", parts, '/');
      whole := ["library"] + parts;
    }
    return host + "/" + Join(whole, '/');
  }

  method CanonicalName(rest: string) returns (name: string)
    ensures var (host, path) := CutHost(rest); name == NameOf(CanonicalHost(host), path)
  {
    var parts := Split(rest, '/');
    SplitHost(rest);
    JoinSplit(CutHost(rest).1, '/');
    SplitNone(CutHost(rest).1, '/');
    var host := CANONICAL_HUB;
    if |parts| > 1 && LooksLikeHost(parts[0]) {
      host := Lower(parts[0]);
      parts := parts[1..];
      if host in HUB_HOSTS { host := CANONICAL_HUB; }
    }
    assert parts == Split(CutHost(rest).1, '/');
    name := JoinOfficial(host, parts);
  }

  lemma CanonicalOf(p: Parts)
    ensures Canonicalize(p) == CanonicalRef(NameOf(CanonicalHost(p.host), p.path),
                                            CanonicalTag(p.tag, LowerAll(p.digest)), LowerAll(p.digest))
  {
  }

  method ParseCanonical(ref: string) returns (r: Option<CanonicalRef>)
    ensures r == if Names(Trim(ref)) then Some(Canonicalize(PartsOf(Trim(ref)))) else None
  {
    var trimmed := Trim(ref);
    if trimmed == "" || HasSpace(trimmed) { return None; }
    var head, digest := TakeDigest(trimmed);
    var rest, tag := TakeTag(head);
    BodyLeft(trimmed, head, rest);
    if rest == "" { return None; }
    var name := CanonicalName(rest);
    digest := LowerAll(digest);
    CanonicalOf(PartsOf(trimmed));
    return Some(CanonicalRef(name, CanonicalTag(tag, digest), digest));
  }

  // ----------------------------------------------------------- main results

  predicate PlainTag(tag: string) {
    && '/' !in tag && ':' !in tag && '@' !in tag
    && (tag == "" || !IsSpace(tag[|tag| - 1]))
  }

  lemma SpellingEnds(p: Parts)
    ensures Body(p) != "" ==> Spell(p) != "" && Spell(p)[0] == Body(p)[0]
    ensures p.digest.None? && p.tag.Some? && p.tag.value != "" ==>
              Spell(p) != "" && Spell(p)[|Spell(p)| - 1] == p.tag.value[|p.tag.value| - 1]
  {
  }

  lemma RetagProper(p: Parts, tag: string)
    requires Proper(p) && PlainTag(tag)
    ensures Proper(p.(tag := Some(tag), digest := None))
  {
  }

  lemma RetagTrimmed(p: Parts, tag: string)
    requires Trimmed(Spell(p)) && PlainTag(tag)
    ensures Trimmed(Spell(p.(tag := Some(tag), digest := None)))
  {
    var q := p.(tag := Some(tag), digest := None);
    var s := Body(p) + ":" + tag;
    assert Spell(q) == s;
    SpellingEnds(p);
    assert s[|s| - 1] == if tag == "" then ':' else tag[|tag| - 1];
    assert s[0] == if Body(p) == "" then ':' else Body(p)[0];
  }

  lemma ReadTagsArePlain(p: Parts)
    requires Proper(p) && Trimmed(Spell(p)) && p.digest.None? && p.tag.Some?
    ensures PlainTag(p.tag.value)
  {
    SpellingEnds(p);
  }

  lemma RetaggedParts(ref: string, tag: string)
    requires PlainTag(tag)
    ensures PartsOf(Trim(Retagged(ref, tag))) == PartsOf(Trim(ref)).(tag := Some(tag), digest := None)
  {
    var p := PartsOf(Trim(ref));
    var q := p.(tag := Some(tag), digest := None);
    SpellReading(Trim(ref));
    RetagProper(p, tag);
    RetagTrimmed(p, tag);
    TrimNothing(Spell(q));
    ReadSpelling(q);
  }

  lemma ResolveRetagged(p: Parts, tag: string)
    ensures Resolve(p.(tag := Some(tag), digest := None)) == Resolve(p).(tag := tag, digest := None)
  {
  }

  /**
   Changing the tag changes the tag, drops the digest and keeps registry and
   repository, for exactly the tags that hold no separator and do not end in
   white space.
   */
  lemma RetagKeepsTheRest(ref: string, tag: string)
    ensures (Resolve(PartsOf(Trim(Retagged(ref, tag)))) ==
             Resolve(PartsOf(Trim(ref))).(tag := tag, digest := None)) <==> PlainTag(tag)
  {
    if PlainTag(tag) {
      RetaggedParts(ref, tag);
      ResolveRetagged(PartsOf(Trim(ref)), tag);
    } else {
      ResolvedTag(Trim(Retagged(ref, tag)));
    }
  }

  lemma LatestIsPlain()
    ensures PlainTag("latest")
  {
  }

  /** A reference without a digest has a plain tag. */
  lemma ResolvedTag(s: string)
    requires Trimmed(s)
    ensures Resolve(PartsOf(s)).digest.None? ==> PlainTag(Resolve(PartsOf(s)).tag)
  {
    var p := PartsOf(s);
    SpellReading(s);
    LatestIsPlain();
    if p.digest.None? && p.tag.Some? { ReadTagsArePlain(p); }
  }

  // ------------------------------------------- what the readers make of a text

  /** The pieces of a reference as a user writes them; `host` ends at the first slash. */
  predicate Pieces(host: Option<string>, path: string, tag: Option<string>) {
    && '@' !in path
    && (tag.None? ==> forall i | 0 <= i < |path| && path[i] == ':' :: '/' in path[i..])
    && (tag.Some? ==> '/' !in tag.value && ':' !in tag.value && '@' !in tag.value)
    && match host
       case Some(h) => '/' !in h && '@' !in h && ('.' in h || ':' in h || h == "localhost")
       case None =>
         forall k | 0 <= k < |path| && path[k] == '/' && '/' !in path[..k] ::
           '.' !in path[..k] && ':' !in path[..k] && path[..k] != "localhost"
  }

  function Written(host: Option<string>, path: string, tag: Option<string>, digest: Option<string>): string {
    (if host.Some? then host.value + "/" + path else path)
    + (if tag.Some? then ":" + tag.value else "")
    + (if digest.Some? then "@" + digest.value else "")
  }

  lemma WrittenIsSpelled(host: Option<string>, path: string, tag: Option<string>, digest: Option<string>)
    ensures Written(host, path, tag, digest) == Spell(Parts(host, path, tag, digest))
  {
  }

  lemma PiecesAreProper(host: Option<string>, path: string, tag: Option<string>, digest: Option<string>)
    requires Pieces(host, path, tag)
    ensures Proper(Parts(host, path, tag, digest))
  {
    if tag.None? { NoColonAtEnd(path); }
    if host.None? { NoHostInFront(path); }
  }

  lemma NoColonAtEnd(path: string)
    requires forall i | 0 <= i < |path| && path[i] == ':' :: '/' in path[i..]
    ensures ':' !in LastSegment(path)
  {
    LastIndexOfIsLast(path, '/');
    var k := LastIndexOf(path, '/') + 1;
    forall i | 0 <= i < |path[k..]| ensures path[k..][i] != ':' {
      NoneAfter(path, '/', k);
      assert path[k + i..] == path[k..][i..];
    }
  }

  lemma NoHostInFront(path: string)
    requires forall k | 0 <= k < |path| && path[k] == '/' && '/' !in path[..k] ::
               '.' !in path[..k] && ':' !in path[..k] && path[..k] != "localhost"
    ensures CutHost(path).0.None?
  {
    IndexOfIsFirst(path, '/');
  }

  lemma WrittenIsRead(host: Option<string>, path: string, tag: Option<string>, digest: Option<string>)
    requires Pieces(host, path, tag)
    ensures PartsOf(Written(host, path, tag, digest)) == Parts(host, path, tag, digest)
  {
    WrittenIsSpelled(host, path, tag, digest);
    PiecesAreProper(host, path, tag, digest);
    ReadSpelling(Parts(host, path, tag, digest));
  }

  /** Docker Hub goes without a host and under three names. */
  predicate IsHub(host: Option<string>) {
    host.None? || host.value == "docker.io" || host.value == "index.docker.io" || host.value == "registry-1.docker.io"
  }

  /** One-part paths on the hub are those of official images. */
  function OnHub(hub: bool, path: string): string {
    if hub && '/' !in path then "library/" + path else path
  }

  lemma ClientMeans(p: Parts)
    ensures var r := Resolve(p);
            && r.registry == (if IsHub(p.host) then "registry-1.docker.io" else p.host.value)
            && r.repository == OnHub(IsHub(p.host), p.path)
            && r.tag == (if p.tag.Some? then p.tag.value else "latest") && r.digest == p.digest
  {
  }

  lemma GuardMeans(p: Parts)
    ensures var r, host := Canonicalize(p), LowerAll(p.host);
            && r.name == (if IsHub(host) then "docker.io" else host.value) + "/" + OnHub(IsHub(host), p.path)
            && r.tag == (if (p.tag == None || p.tag == Some("")) && (p.digest == None || p.digest == Some(""))
                         then Some("latest") else p.tag)
            && r.digest == LowerAll(p.digest)
  {
  }

  /** The first reader: the hub's registry, `library/` in front of official images, `latest` for no tag. */
  lemma ClientReads(host: Option<string>, path: string, tag: Option<string>, digest: Option<string>)
    requires Pieces(host, path, tag)
    ensures var r := Resolve(PartsOf(Written(host, path, tag, digest)));
            && r.registry == (if IsHub(host) then "registry-1.docker.io" else host.value)
            && r.repository == OnHub(IsHub(host), path)
            && r.tag == (if tag.Some? then tag.value else "latest") && r.digest == digest
  {
    WrittenIsRead(host, path, tag, digest);
    ClientMeans(Parts(host, path, tag, digest));
  }

  /** The second: the same under `docker.io`, hosts and digests in lower case, `latest` only without tag and digest. */
  lemma GuardReads(host: Option<string>, path: string, tag: Option<string>, digest: Option<string>)
    requires Pieces(host, path, tag)
    ensures var r, h := Canonicalize(PartsOf(Written(host, path, tag, digest))), LowerAll(host);
            && r.name == (if IsHub(h) then "docker.io" else h.value) + "/" + OnHub(IsHub(h), path)
            && r.tag == (if (tag == None || tag == Some("")) && (digest == None || digest == Some("")) then Some("latest") else tag)
            && r.digest == LowerAll(digest)
  {
    WrittenIsRead(host, path, tag, digest);
    GuardMeans(Parts(host, path, tag, digest));
  }

  /** Retagging a written reference: the same text up to the tag, the new tag, nothing else. */
  lemma RetaggedText(host: Option<string>, path: string, tag: Option<string>, digest: Option<string>, next: string)
    requires Pieces(host, path, tag) && Trimmed(Written(host, path, tag, digest))
    ensures Retagged(Written(host, path, tag, digest), next) == Written(host, path, Some(next), None)
  {
    TrimNothing(Written(host, path, tag, digest));
    WrittenIsSpelled(host, path, tag, digest);
    WrittenIsSpelled(host, path, Some(next), None);
    PiecesAreProper(host, path, tag, digest);
    ReadSpelling(Parts(host, path, tag, digest));
  }

  // -------------------------------------------------------------- agreement

  /** The name the removal guard uses, made from what the registry client uses. */
  function SharedName(r: ImageReference): string {
    (if r.registry == HUB then CANONICAL_HUB else r.registry) + "/" + r.repository
  }

  lemma HubsAreLower()
    ensures forall h | h in HUB_HOSTS :: IsLower(h) && '/' !in h
  {
  }

  lemma SameUpToSlash(a: string, x: string, b: string, y: string)
    requires '/' !in a && '/' !in b && a + "/" + x == b + "/" + y
    ensures a == b
  {
    FirstAt(a + "/" + x, '/', |a|);
    FirstAt(b + "/" + y, '/', |b|);
    assert a == (a + "/" + x)[..|a|];
    assert b == (b + "/" + y)[..|b|];
  }

  lemma LowerKeepsSlashes(s: string)
    ensures '/' in Lower(s) <==> '/' in s
  {
    LowerEach(s);
    if '/' in s {
      var i :| 0 <= i < |s| && s[i] == '/';
      assert Lower(s)[i] == '/';
    }
  }

  /** The two readers name the same repository exactly when the host has no ASCII capital. */
  lemma NamesAgree(p: Parts)
    requires p.host.Some? ==> '/' !in p.host.value
    ensures (Canonicalize(p).name == SharedName(Resolve(p))) <==> (p.host.Some? ==> IsLower(p.host.value))
  {
    HubsAreLower();
    if p.host.Some? {
      var h := p.host.value;
      LowerFixes(h);
      LowerKeepsSlashes(h);
      if !IsLower(h) {
        UpperHost(h, p.path);
      }
    }
  }

  lemma UpperHost(h: string, path: string)
    requires !IsLower(h) && '/' !in h
    ensures NameOf(CanonicalHost(Some(h)), path) != h + "/" + path
  {
    HubsAreLower();
    LowerFixes(h);
    LowerKeepsSlashes(h);
    var c := CanonicalHost(Some(h));
    var rest := if c == CANONICAL_HUB then OfficialPath(path) else path;
    assert NameOf(c, path) == c + "/" + rest;
    if c + "/" + rest == h + "/" + path { SameUpToSlash(c, rest, h, path); }
  }

  /**
   Whatever the text, and so wherever the second reader answers, the digests always agree up to case, the
   names agree exactly for hosts in lower case, and the tags agree exactly
   when the reference has no tag and no digest, or has a tag and that tag or the
   digest is not empty. Lower case is that of ASCII letters, for `Lower` and for
   the condition alike.
   */
  lemma ReadersAgree(ref: string)
    ensures var p := PartsOf(Trim(ref));
            var client, guard := Resolve(p), Canonicalize(p);
            && guard.digest == LowerAll(client.digest)
            && ((guard.name == SharedName(client)) <==> (p.host.Some? ==> IsLower(p.host.value)))
            && ((guard.tag == Some(client.tag)) <==>
                if p.tag.None? then !Truthy(p.digest) else p.tag.value != "" || Truthy(p.digest))
  {
    SpellReading(Trim(ref));
    NamesAgree(PartsOf(Trim(ref)));
    TagsAgree(PartsOf(Trim(ref)).tag, PartsOf(Trim(ref)).digest);
  }

  lemma TagsAgree(tag: Option<string>, digest: Option<string>)
    ensures (CanonicalTag(tag, digest) == Some(TagOf(tag))) <==>
            if tag.None? then !Truthy(digest) else tag.value != "" || Truthy(digest)
  {
    EmptyIsNotLatest();
  }

  lemma EmptyIsNotLatest()
    ensures "latest" != ""
  {
  }

  /** Every default written out: `registry/repository:tag[@digest]`. */
  function Explicit(r: ImageReference): Parts {
    Parts(Some(r.registry), r.repository, Some(r.tag), r.digest)
  }

  lemma HubIsAHost()
    ensures LooksLikeHost(HUB) && '@' !in HUB && '/' !in HUB && !IsSpace(HUB[0])
    ensures HUB != "docker.io" && HUB != "index.docker.io"
    ensures '@' !in "library/" && '/' in "library/"
  {
    assert HUB[8] == '-' && HUB[10] == '.';
    assert "library/"[7] == '/';
  }

  lemma RegistryIsAHost(p: Parts)
    requires Proper(p)
    ensures var r := RegistryOf(p.host); LooksLikeHost(r) && '/' !in r && '@' !in r
  {
    HubIsAHost();
  }

  lemma RepositoryHasNoAt(registry: string, path: string)
    requires '@' !in path
    ensures '@' !in RepositoryAt(registry, path)
  {
    HubIsAHost();
  }

  lemma TagIsPlain(p: Parts)
    requires Proper(p)
    ensures var t := TagOf(p.tag); '/' !in t && ':' !in t && '@' !in t
  {
    LatestIsPlain();
  }

  lemma ExplicitIsProper(p: Parts)
    requires Proper(p)
    ensures Proper(Explicit(Resolve(p)))
  {
    RegistryIsAHost(p);
    RepositoryHasNoAt(RegistryOf(p.host), p.path);
    TagIsPlain(p);
  }

  lemma ExplicitResolves(p: Parts)
    ensures Resolve(Explicit(Resolve(p))) == Resolve(p)
  {
    HubIsAHost();
  }

  lemma ExplicitIsTrimmed(p: Parts)
    requires Proper(p) && Trimmed(Spell(p))
    ensures Trimmed(Spell(Explicit(Resolve(p))))
  {
    HubIsAHost();
    LatestIsPlain();
    if p.digest.None? && p.tag.Some? { ReadTagsArePlain(p); }
    SpellingEnds(p);
    KeepsTrimmed(p, Explicit(Resolve(p)));
  }

  lemma KeepsTrimmed(p: Parts, q: Parts)
    requires Trimmed(Spell(p)) && q.digest == p.digest && q.tag.Some? && q.host.Some?
    requires q.host.value != "" && !IsSpace(q.host.value[0]) && (p.digest.None? ==> PlainTag(q.tag.value))
    ensures Trimmed(Spell(q))
  {
    SpellingEnds(q);
    if p.digest.Some? && p.digest.value != "" {
      assert Spell(p)[|Spell(p)| - 1] == p.digest.value[|p.digest.value| - 1];
    }
  }

  /** Writing out what was read, and reading it again, changes nothing. */
  lemma ReadWrittenOut(ref: string)
    ensures var r := Resolve(PartsOf(Trim(ref))); Resolve(PartsOf(Trim(Spell(Explicit(r))))) == r
  {
    var p := PartsOf(Trim(ref));
    SpellReading(Trim(ref));
    ExplicitIsProper(p);
    ExplicitIsTrimmed(p);
    ExplicitResolves(p);
    TrimNothing(Spell(Explicit(Resolve(p))));
    ReadSpelling(Explicit(Resolve(p)));
  }
}
