/**
 The order in which the panel's tables are dumped and restored: every table
 after the ones its foreign keys reference.
 */
module TableOrder {
  import opened Lists
  import opened Names
  import opened Options

  /** A table of the entity metadata with the tables its relations reference. */
  datatype Meta = Meta(table: string, references: seq<string>)

  /** A foreign key of the live schema, with names as the database prints them. */
  datatype ForeignKey = ForeignKey(table: string, referenced: string)

  /** For each table the tables it references. */
  type Graph = map<string, set<string>>

  // ---- reading the schema ----------------------------------------------------

  predicate LineBreak(c: char) {
    c == '\n' || c == '\r' || c == '\U{2028}' || c == '\U{2029}'
  }

  /** Strips a `public.` prefix and the quotes around a printed name. */
  function PlainTableName(name: string): string {
    Unquoted(if |name| >= 7 && name[..7] == "public." then name[7..] else name)
  }

  function Unquoted(n: string): string {
    if |n| >= 2 && n[0] == '"' && n[|n| - 1] == '"' && (forall i | 0 < i < |n| - 1 :: !LineBreak(n[i]))
    then n[1..|n| - 1] else n
  }

  /** How the database prints a table: with its schema or without, in quotes if the name needs them. */
  function Printed(t: string, schema: bool, quoted: bool): string {
    (if schema then "public." else "") + if quoted then ['"'] + t + ['"'] else t
  }

  /** A name that is printed as it is, and not taken for something else. */
  predicate PrintsPlainly(t: string) {
    !(|t| >= 2 && t[0] == '"' && t[|t| - 1] == '"') && !(|t| >= 7 && t[..7] == "public.")
  }

  /** However the database prints a table, its name is read back, unless it has a line break between its quotes. */
  lemma PrintedNameRead(t: string, schema: bool, quoted: bool)
    requires !quoted ==> PrintsPlainly(t)
    ensures PlainTableName(Printed(t, schema, quoted)) == t <==>
            !quoted || forall i | 0 <= i < |t| :: t[i] !in {'\n', '\r', '\U{2028}', '\U{2029}'}
  {
    var n := if quoted then ['"'] + t + ['"'] else t;
    var name := Printed(t, schema, quoted);
    if schema {
      assert name == "public." + n && name[..7] == "public." && name[7..] == n;
    } else {
      assert name == n && !(|n| >= 7 && n[..7] == "public.") by {
        if |n| >= 7 && quoted { assert n[..7][0] == '"' && "public."[0] == 'p'; }
      }
    }
    if quoted { QuotedNameRead(t); }
  }

  lemma QuotedNameRead(t: string)
    ensures Unquoted(['"'] + t + ['"']) == t <==> forall i | 0 <= i < |t| :: t[i] !in {'\n', '\r', '\U{2028}', '\U{2029}'}
  {
    var n := ['"'] + t + ['"'];
    assert n[1..|n| - 1] == t && |n| != |t|;
    if i :| 0 <= i < |t| && t[i] in {'\n', '\r', '\U{2028}', '\U{2029}'} {
      assert LineBreak(n[i + 1]);
      assert Unquoted(n) == n;
    } else {
      assert forall i | 0 < i < |n| - 1 :: n[i] == t[i - 1];
    }
  }

  function References(m: Meta): set<string> {
    set r | r in m.references && r != m.table
  }

  function MetaDeps(metas: seq<Meta>): Graph {
    if metas == [] then map[]
    else
      var m := metas[|metas| - 1];
      MetaDeps(metas[..|metas| - 1])[m.table := References(m)]
  }

  function WithKey(g: Graph, fk: ForeignKey): Graph {
    var table, referenced := PlainTableName(fk.table), PlainTableName(fk.referenced);
    if table == referenced || table !in g then g else g[table := g[table] + {referenced}]
  }

  function WithKeys(g: Graph, fks: seq<ForeignKey>): Graph {
    if fks == [] then g else WithKey(WithKeys(g, fks[..|fks| - 1]), fks[|fks| - 1])
  }

  function DepsOf(metas: seq<Meta>, fks: seq<ForeignKey>): Graph {
    WithKeys(MetaDeps(metas), fks)
  }

  // ---- what an order is, and what stands in its way -----------------------------

  /** `a` references `b`, and both are tables to order. */
  ghost predicate Edge(g: Graph, a: string, b: string) {
    a in g && b in g && b in g[a]
  }

  ghost predicate Cycle(g: Graph, p: seq<string>) {
    && p != []
    && (forall i | 0 <= i < |p| - 1 :: Edge(g, p[i], p[i + 1]))
    && Edge(g, p[|p| - 1], p[0])
  }

  /** Every table exactly once, each after all the tables it references. */
  ghost predicate IsOrder(g: Graph, out: seq<string>) {
    && Distinct(out) && Elems(out) == g.Keys
    && forall i, t | 0 <= i < |out| && Edge(g, out[i], t) :: t in out[..i]
  }

  // ---- the order -------------------------------------------------------------------

  predicate IsReady(g: Graph, done: set<string>, t: string)
    requires t in g
  {
    t !in done && forall p | p in g[t] :: p in done || p !in g
  }

  ghost function Ready(g: Graph, done: set<string>): set<string> {
    set t | t in g && IsReady(g, done, t)
  }

  /** The layers still to come, each in alphabetical order; none when stuck. */
  ghost function Layers(g: Graph, done: set<string>): Option<seq<string>>
    decreases |g.Keys - done|
  {
    var ready := Ready(g, done);
    if g.Keys <= done then Some([])
    else if ready == {} then None
    else
      ReadyShrinks(g, done);
      Prefixed(Sorted(ready), Layers(g, done + ready))
  }

  function Prefixed(xs: seq<string>, r: Option<seq<string>>): Option<seq<string>> {
    if r.None? then None else Some(xs + r.value)
  }

  lemma ReadyShrinks(g: Graph, done: set<string>)
    requires Ready(g, done) != {}
    ensures |g.Keys - (done + Ready(g, done))| < |g.Keys - done|
  {
    var t :| t in Ready(g, done);
    CardLess(g.Keys - (done + Ready(g, done)), g.Keys - done, t);
  }

  ghost function OrderOf(g: Graph): Option<seq<string>> {
    Layers(g, {})
  }

  lemma CardLess(a: set<string>, b: set<string>, x: string)
    requires a <= b - {x} && x in b
    ensures |a| < |b|
  {
    SubsetCard(a, b - {x});
  }

  lemma {:induction false} SubsetCard<T>(a: set<T>, b: set<T>)
    requires a <= b
    ensures |a| <= |b| && (|a| == |b| ==> a == b)
  {
    if a != {} {
      var x :| x in a;
      SubsetCard(a - {x}, b - {x});
    }
  }

  // ---- the order is right -----------------------------------------------------------

  /** `out` lists what is left to list after `done`, in a legal order. */
  ghost predicate Completes(g: Graph, done: set<string>, out: seq<string>) {
    && Distinct(out) && Elems(out) == g.Keys - done
    && forall i, t | 0 <= i < |out| && Edge(g, out[i], t) :: t in done || t in out[..i]
  }

  lemma IncreasingDistinct(xs: seq<string>)
    requires Increasing(xs)
    ensures Distinct(xs)
  {
    forall i, j | 0 <= i < j < |xs| ensures xs[i] != xs[j] {
      BeforeTotal(xs[i], xs[j]);
    }
  }

  lemma LayerApart(g: Graph, done: set<string>, layer: seq<string>, rest: seq<string>)
    requires Elems(layer) == Ready(g, done) && Distinct(layer)
    requires Completes(g, done + Ready(g, done), rest)
    ensures Distinct(layer + rest) && Elems(layer + rest) == g.Keys - done
    ensures forall i | 0 <= i < |layer| :: layer[i] in Ready(g, done)
  {
    forall i | 0 <= i < |layer| ensures layer[i] in Ready(g, done) {
      assert layer[i] in Elems(layer);
    }
    forall i | 0 <= i < |rest| ensures rest[i] !in Ready(g, done) && rest[i] !in done && rest[i] in g {
      assert rest[i] in Elems(rest);
    }
    assert Elems(layer + rest) == Elems(layer) + Elems(rest);
  }

  lemma LayerCompletes(g: Graph, done: set<string>, layer: seq<string>, rest: seq<string>)
    requires Elems(layer) == Ready(g, done) && Distinct(layer)
    requires Completes(g, done + Ready(g, done), rest)
    ensures Completes(g, done, layer + rest)
  {
    var out := layer + rest;
    LayerApart(g, done, layer, rest);
    forall i, t | 0 <= i < |out| && Edge(g, out[i], t) ensures t in done || t in out[..i] {
      if i >= |layer| {
        var k := i - |layer|;
        assert out[..i] == layer + rest[..k];
        assert t in Elems(layer) ==> t in layer;
      }
    }
  }

  lemma {:induction false} LayersComplete(g: Graph, done: set<string>)
    ensures Layers(g, done).Some? ==> Completes(g, done, Layers(g, done).value)
    decreases |g.Keys - done|
  {
    var ready := Ready(g, done);
    if !(g.Keys <= done) && ready != {} {
      ReadyShrinks(g, done);
      LayersComplete(g, done + ready);
      if Layers(g, done).Some? {
        IncreasingDistinct(Sorted(ready));
        LayerCompletes(g, done, Sorted(ready), Layers(g, done + ready).value);
      }
    }
  }

  /** `succ` leads from each table of `stuck` to another one it waits for. */
  ghost predicate Waits(g: Graph, stuck: set<string>, succ: map<string, string>, t: string) {
    t in succ && succ[t] in stuck && Edge(g, t, succ[t])
  }

  ghost predicate AllWait(g: Graph, stuck: set<string>, succ: map<string, string>) {
    forall t {:trigger Waits(g, stuck, succ, t)} | t in stuck :: Waits(g, stuck, succ, t)
  }

  ghost predicate Path(g: Graph, p: seq<string>) {
    p != [] && forall i | 0 <= i < |p| - 1 :: Edge(g, p[i], p[i + 1])
  }

  lemma PathGrows(g: Graph, path: seq<string>, q: string)
    requires Path(g, path) && Edge(g, path[|path| - 1], q)
    ensures Path(g, path + [q])
  {
    var p := path + [q];
    forall i | 0 <= i < |p| - 1 ensures Edge(g, p[i], p[i + 1]) {
      if i < |path| - 1 { assert p[i] == path[i] && p[i + 1] == path[i + 1]; }
    }
  }

  lemma PathCloses(g: Graph, path: seq<string>, k: nat)
    requires Path(g, path) && k < |path| && Edge(g, path[|path| - 1], path[k])
    ensures Cycle(g, path[k..])
  {
    var p := path[k..];
    forall i | 0 <= i < |p| - 1 ensures Edge(g, p[i], p[i + 1]) {
      assert p[i] == path[k + i] && p[i + 1] == path[k + i + 1];
    }
  }

  lemma VisitedGrows(stuck: set<string>, path: seq<string>, q: string)
    requires q in stuck && q !in path && Elems(path) <= stuck
    ensures Elems(path + [q]) <= stuck
    ensures |stuck - Elems(path + [q])| < |stuck - Elems(path)|
  {
    ElemsConcat(path, [q]);
    ElemsOne(q);
    assert q !in Elems(path);
    CardLess(stuck - Elems(path + [q]), stuck - Elems(path), q);
  }

  /** Where every table of a nonempty set waits for another one of it, there is a cycle. */
  lemma {:induction false} WalkFindsCycle(g: Graph, stuck: set<string>, succ: map<string, string>, path: seq<string>)
    returns (p: seq<string>)
    requires AllWait(g, stuck, succ) && Path(g, path) && Elems(path) <= stuck
    ensures Cycle(g, p)
    decreases |stuck - Elems(path)|
  {
    var last := path[|path| - 1];
    assert last in Elems(path);
    assert Waits(g, stuck, succ, last);
    var q := succ[last];
    if q in path {
      var k :| 0 <= k < |path| && path[k] == q;
      PathCloses(g, path, k);
      p := path[k..];
    } else {
      PathGrows(g, path, q);
      VisitedGrows(stuck, path, q);
      p := WalkFindsCycle(g, stuck, succ, path + [q]);
    }
  }

  ghost function Awaited(g: Graph, done: set<string>, t: string): string
    requires t in g && t !in done && !IsReady(g, done, t)
  {
    var q :| q in g[t] && q !in done && q in g;
    q
  }

  lemma {:induction false} StuckMeansCycle(g: Graph, done: set<string>) returns (p: seq<string>)
    requires Layers(g, done).None?
    ensures Cycle(g, p)
    decreases |g.Keys - done|
  {
    var ready := Ready(g, done);
    if ready == {} {
      var stuck := g.Keys - done;
      assert forall t | t in stuck :: t !in ready;
      var succ := map t | t in stuck :: Awaited(g, done, t);
      var t :| t in stuck;
      ElemsOne(t);
      assert AllWait(g, stuck, succ) by {
        forall t | t in stuck ensures Waits(g, stuck, succ, t) {
          assert succ[t] == Awaited(g, done, t);
        }
      }
      p := WalkFindsCycle(g, stuck, succ, [t]);
    } else {
      ReadyShrinks(g, done);
      p := StuckMeansCycle(g, done + ready);
    }
  }

  /** Along a path of references positions in an order go down. */
  lemma {:induction false} PositionsFall(g: Graph, out: seq<string>, p: seq<string>, k: nat) returns (a: nat, b: nat)
    requires IsOrder(g, out) && Path(g, p) && k < |p| && p[0] in g
    ensures a < |out| && out[a] == p[0] && b < |out| && out[b] == p[k] && b + k <= a
  {
    if k == 0 {
      assert p[0] in Elems(out);
      a :| 0 <= a < |out| && out[a] == p[0];
      b := a;
    } else {
      var b';
      a, b' := PositionsFall(g, out, p, k - 1);
      assert Edge(g, out[b'], p[k]);
      assert p[k] in out[..b'];
      b :| 0 <= b < b' && out[..b'][b] == p[k];
    }
  }

  lemma OrderExcludesCycles(g: Graph, out: seq<string>, p: seq<string>)
    requires IsOrder(g, out)
    ensures !Cycle(g, p)
  {
    if Cycle(g, p) {
      var around := p + [p[0]];
      var a, b := PositionsFall(g, out, around, |p|);
    }
  }

  /** An order is found exactly when the references have no cycle, and it is one. */
  lemma OrderIffAcyclic(g: Graph)
    ensures OrderOf(g).Some? ==> IsOrder(g, OrderOf(g).value)
    ensures OrderOf(g).Some? <==> forall p :: !Cycle(g, p)
  {
    LayersComplete(g, {});
    if OrderOf(g).Some? {
      assert g.Keys - {} == g.Keys;
      forall p ensures !Cycle(g, p) { OrderExcludesCycles(g, OrderOf(g).value, p); }
    } else {
      var p := StuckMeansCycle(g, {});
    }
  }

  // ---- which order it is -------------------------------------------------------------

  /** The length of the longest chain of references from a table, over its references. */
  ghost predicate RankOf(g: Graph, rank: map<string, nat>, t: string)
    requires t in rank
  {
    && (forall p | Edge(g, t, p) :: p in rank && rank[p] < rank[t])
    && (rank[t] > 0 ==> exists p :: Edge(g, t, p) && p in rank && rank[p] == rank[t] - 1)
  }

  ghost predicate Ranked(g: Graph, rank: map<string, nat>) {
    forall t | t in rank :: RankOf(g, rank, t)
  }

  /** Lower rank first, and names of one rank in alphabetical order. */
  ghost predicate ByRank(rank: map<string, nat>, out: seq<string>) {
    && (forall i | 0 <= i < |out| :: out[i] in rank)
    && forall i, j | 0 <= i < j < |out| ::
         rank[out[i]] < rank[out[j]] || (rank[out[i]] == rank[out[j]] && Before(out[i], out[j]))
  }

  ghost predicate ByRankFrom(rank: map<string, nat>, out: seq<string>, n: nat) {
    ByRank(rank, out) && forall i | 0 <= i < |out| :: rank[out[i]] >= n
  }

  /** After `n` layers: what is done is ranked below `n`, what is left waits for the layer before. */
  ghost predicate LayersDone(g: Graph, done: set<string>, rank: map<string, nat>, n: nat) {
    && rank.Keys == done <= g.Keys && Ranked(g, rank) && (forall t | t in rank :: rank[t] < n)
    && (n > 0 ==> forall t | t in g && t !in done :: exists p :: Edge(g, t, p) && (p in rank ==> rank[p] == n - 1))
  }

  ghost function WithLayer(rank: map<string, nat>, layer: set<string>, n: nat): map<string, nat> {
    map t | t in rank.Keys + layer :: if t in rank then rank[t] else n
  }

  lemma OneLayerDone(g: Graph, done: set<string>, rank: map<string, nat>, n: nat)
    requires LayersDone(g, done, rank, n)
    ensures LayersDone(g, done + Ready(g, done), WithLayer(rank, Ready(g, done), n), n + 1)
  {
    var ready := Ready(g, done);
    var next := WithLayer(rank, ready, n);
    forall t | t in next ensures RankOf(g, next, t) {
      if t in rank {
        RankStays(g, rank, next, t);
      } else {
        ReadyRank(g, done, rank, n, t);
      }
    }
    forall t | t in g && t !in done + ready ensures exists p :: Edge(g, t, p) && (p in next ==> next[p] == n) {
      var p := StillWaits(g, done, t);
      assert p in next ==> next[p] == n;
    }
  }

  lemma StillWaits(g: Graph, done: set<string>, t: string) returns (p: string)
    requires t in g && t !in done && t !in Ready(g, done)
    ensures Edge(g, t, p) && p !in done
  {
    assert !IsReady(g, done, t);
    p :| p in g[t] && p !in done && p in g;
  }

  lemma RankStays(g: Graph, rank: map<string, nat>, next: map<string, nat>, t: string)
    requires t in rank && RankOf(g, rank, t) && forall u | u in rank :: u in next && next[u] == rank[u]
    ensures t in next && RankOf(g, next, t)
  {
  }

  lemma ReadyRank(g: Graph, done: set<string>, rank: map<string, nat>, n: nat, t: string)
    requires LayersDone(g, done, rank, n) && t in Ready(g, done)
    ensures var next := WithLayer(rank, Ready(g, done), n); t in next && RankOf(g, next, t)
  {
    var next := WithLayer(rank, Ready(g, done), n);
    assert t !in rank && next[t] == n;
    if n > 0 {
      var p :| Edge(g, t, p) && (p in rank ==> rank[p] == n - 1);
      assert Edge(g, t, p) && p in next && next[p] == n - 1;
    }
  }

  /** One layer in front of the later ones. */
  lemma LayerInFront(rank: map<string, nat>, layer: seq<string>, rest: seq<string>, n: nat)
    requires Increasing(layer) && (forall i | 0 <= i < |layer| :: layer[i] in rank && rank[layer[i]] == n)
    requires ByRankFrom(rank, rest, n + 1)
    ensures ByRankFrom(rank, layer + rest, n)
  {
  }

  lemma {:induction false} LayersByRank(g: Graph, done: set<string>, rank: map<string, nat>, n: nat)
    returns (all: map<string, nat>)
    requires LayersDone(g, done, rank, n) && Layers(g, done).Some?
    ensures all.Keys == g.Keys && Ranked(g, all) && ByRankFrom(all, Layers(g, done).value, n)
    ensures forall t | t in rank :: t in all && all[t] == rank[t]
    decreases |g.Keys - done|
  {
    var ready := Ready(g, done);
    if g.Keys <= done {
      all := rank;
    } else {
      ReadyShrinks(g, done);
      OneLayerDone(g, done, rank, n);
      all := LayersByRank(g, done + ready, WithLayer(rank, ready, n), n + 1);
      FirstLayer(g, done);
      ReadyInFront(all, ready, Layers(g, done + ready).value, n);
    }
  }

  lemma FirstLayer(g: Graph, done: set<string>)
    requires Layers(g, done).Some? && !(g.Keys <= done)
    ensures Layers(g, done + Ready(g, done)).Some?
    ensures Layers(g, done).value == Sorted(Ready(g, done)) + Layers(g, done + Ready(g, done)).value
  {
  }

  lemma ReadyInFront(rank: map<string, nat>, ready: set<string>, rest: seq<string>, n: nat)
    requires forall t | t in ready :: t in rank && rank[t] == n
    requires ByRankFrom(rank, rest, n + 1)
    ensures ByRankFrom(rank, Sorted(ready) + rest, n)
  {
    var layer := Sorted(ready);
    forall i | 0 <= i < |layer| ensures layer[i] in ready { assert layer[i] in Elems(layer); }
    LayerInFront(rank, layer, rest, n);
  }

  /** The order found: by the longest chain of references below a table, and then by name. */
  lemma OrderByRank(g: Graph) returns (rank: map<string, nat>)
    requires OrderOf(g).Some?
    ensures rank.Keys == g.Keys && Ranked(g, rank) && ByRank(rank, OrderOf(g).value)
  {
    rank := LayersByRank(g, {}, map[], 0);
  }

  // ---- the input order does not matter --------------------------------------------------

  ghost predicate DistinctTables(metas: seq<Meta>) {
    forall i, j | 0 <= i < j < |metas| :: metas[i].table != metas[j].table
  }

  /** A live foreign key leads from `t` to the other table `r`. */
  ghost predicate HasKey(fks: seq<ForeignKey>, t: string, r: string) {
    t != r && exists k :: k in fks && PlainTableName(k.table) == t && PlainTableName(k.referenced) == r
  }

  lemma {:induction false} MetaDepsMeaning(metas: seq<Meta>)
    requires DistinctTables(metas)
    ensures forall m | m in metas :: m.table in MetaDeps(metas) && MetaDeps(metas)[m.table] == References(m)
    ensures forall t | t in MetaDeps(metas) :: exists m :: m in metas && m.table == t
  {
    if metas != [] {
      var init, m := metas[..|metas| - 1], metas[|metas| - 1];
      assert metas == init + [m];
      MetaDepsMeaning(init);
    }
  }

  lemma {:induction false} WithKeysMeaning(g: Graph, fks: seq<ForeignKey>, t: string, r: string)
    requires t in g
    ensures t in WithKeys(g, fks) && (r in WithKeys(g, fks)[t] <==> r in g[t] || HasKey(fks, t, r))
  {
    if fks != [] {
      var init, fk := fks[..|fks| - 1], fks[|fks| - 1];
      assert fks == init + [fk];
      WithKeysMeaning(g, init, t, r);
    }
  }

  lemma {:induction false} WithKeysTables(g: Graph, fks: seq<ForeignKey>)
    ensures WithKeys(g, fks).Keys == g.Keys
  {
    if fks != [] {
      WithKeysTables(g, fks[..|fks| - 1]);
    }
  }

  /** The references of a table, straight from the schema; never to itself. */
  lemma DepsMeaning(metas: seq<Meta>, fks: seq<ForeignKey>, m: Meta, r: string)
    requires DistinctTables(metas) && m in metas
    ensures m.table in DepsOf(metas, fks)
    ensures r in DepsOf(metas, fks)[m.table] <==> r != m.table && (r in m.references || HasKey(fks, m.table, r))
  {
    MetaDepsMeaning(metas);
    WithKeysMeaning(MetaDeps(metas), fks, m.table, r);
  }

  /** Reordering tables or foreign keys, or repeating a key, changes nothing. */
  lemma InputOrderIrrelevant(metas: seq<Meta>, metas': seq<Meta>, fks: seq<ForeignKey>, fks': seq<ForeignKey>)
    requires DistinctTables(metas) && DistinctTables(metas')
    requires forall m :: m in metas <==> m in metas'
    requires forall k :: k in fks <==> k in fks'
    ensures OrderOf(DepsOf(metas, fks)) == OrderOf(DepsOf(metas', fks'))
  {
    DepsIncluded(metas, metas', fks, fks');
    DepsIncluded(metas', metas, fks', fks);
    assert DepsOf(metas, fks) == DepsOf(metas', fks');
  }

  lemma DepsIncluded(metas: seq<Meta>, metas': seq<Meta>, fks: seq<ForeignKey>, fks': seq<ForeignKey>)
    requires DistinctTables(metas) && DistinctTables(metas')
    requires forall m :: m in metas <==> m in metas'
    requires forall k :: k in fks <==> k in fks'
    ensures var g, g' := DepsOf(metas, fks), DepsOf(metas', fks');
            forall t | t in g :: t in g' && g[t] == g'[t]
  {
    var g, g' := DepsOf(metas, fks), DepsOf(metas', fks');
    forall t | t in g ensures t in g' && g[t] == g'[t] {
      WithKeysTables(MetaDeps(metas), fks);
      MetaDepsMeaning(metas);
      var m :| m in metas && m.table == t;
      DepsMeaning(metas', fks', m, t);
      forall r ensures r in g[t] <==> r in g'[t] {
        DepsMeaning(metas, fks, m, r);
        DepsMeaning(metas', fks', m, r);
        assert HasKey(fks, t, r) <==> HasKey(fks', t, r);
      }
    }
  }

  // ---- the algorithm ----------------------------------------------------------------------

  /** The tables whose references are all done, whatever order the map yields them in. */
  method ReadyTables(deps: Graph, done: set<string>) returns (ready: seq<string>)
    ensures Increasing(ready) && Elems(ready) == Ready(deps, done)
  {
    var rest := deps.Keys;
    var found: seq<string> := [];
    while rest != {}
      invariant rest <= deps.Keys && Distinct(found)
      invariant Elems(found) == Ready(deps, done) - rest
      decreases rest
    {
      var t :| t in rest;
      rest := rest - {t};
      if IsReady(deps, done, t) {
        assert t !in Elems(found);
        ElemsConcat(found, [t]);
        ElemsOne(t);
        found := found + [t];
      }
    }
    SortIncreasing(found);
    ready := Sort(found);
  }

  /** The reference map of the metadata, extended by the live foreign keys. */
  method ReadSchema(metas: seq<Meta>, fks: seq<ForeignKey>) returns (deps: Graph)
    ensures deps == DepsOf(metas, fks)
  {
    deps := map[];
    for i := 0 to |metas|
      invariant deps == MetaDeps(metas[..i])
    {
      assert metas[..i + 1][..i] == metas[..i];
      deps := deps[metas[i].table := References(metas[i])];
    }
    assert metas[..|metas|] == metas;
    for i := 0 to |fks|
      invariant deps == WithKeys(MetaDeps(metas), fks[..i])
    {
      assert fks[..i + 1][..i] == fks[..i];
      var table, referenced := PlainTableName(fks[i].table), PlainTableName(fks[i].referenced);
      if table == referenced { continue; }
      if table in deps {
        deps := deps[table := deps[table] + {referenced}];
      }
    }
    assert fks[..|fks|] == fks;
  }

  lemma PrefixedTwice(xs: seq<string>, ys: seq<string>, r: Option<seq<string>>)
    ensures Prefixed(xs, Prefixed(ys, r)) == Prefixed(xs + ys, r)
  {
    if r.Some? {
      assert xs + (ys + r.value) == (xs + ys) + r.value;
    }
  }

  method TakeAll(out: seq<string>, done: set<string>, ready: seq<string>) returns (out': seq<string>, done': set<string>)
    ensures out' == out + ready && done' == done + Elems(ready)
  {
    out', done' := out, done;
    for i := 0 to |ready|
      invariant out' == out + ready[..i] && done' == done + Elems(ready[..i])
    {
      assert ready[..i + 1] == ready[..i] + [ready[i]];
      ElemsConcat(ready[..i], [ready[i]]);
      ElemsOne(ready[i]);
      out' := out' + [ready[i]];
      done' := done' + {ready[i]};
    }
    assert ready[..|ready|] == ready;
  }

  lemma OneLayer(g: Graph, done: set<string>, ready: seq<string>)
    requires Increasing(ready) && Elems(ready) == Ready(g, done) && !(g.Keys <= done)
    ensures Layers(g, done) == if ready == [] then None else Prefixed(ready, Layers(g, done + Ready(g, done)))
  {
    EmptyElems(ready);
    IncreasingUnique(ready, Sorted(Ready(g, done)));
  }

  lemma LayerGrows(g: Graph, done: set<string>, ready: seq<string>)
    requires ready != [] && Elems(ready) == Ready(g, done) && done <= g.Keys
    ensures |done| < |done + Elems(ready)| && done + Elems(ready) <= g.Keys
  {
    assert ready[0] in Elems(ready);
    CardLess(done, done + Elems(ready), ready[0]);
  }

  lemma NotAllDone(g: Graph, done: set<string>)
    requires done <= g.Keys
    ensures |done| < |g| <==> !(g.Keys <= done)
  {
    assert |g| == |g.Keys|;
    SubsetCard(done, g.Keys);
    if g.Keys <= done { assert done == g.Keys; }
  }

  /** Taking a layer moves the order forward, and `done` grows. */
  lemma LayerStep(g: Graph, done: set<string>, ready: seq<string>, out: seq<string>)
    requires !(g.Keys <= done)
    requires Increasing(ready) && Elems(ready) == Ready(g, done)
    ensures Prefixed(out, Layers(g, done)) ==
              if ready == [] then None else Prefixed(out + ready, Layers(g, done + Elems(ready)))
  {
    OneLayer(g, done, ready);
    PrefixedTwice(out, ready, Layers(g, done + Elems(ready)));
  }

  lemma AllDone(g: Graph, done: set<string>, out: seq<string>)
    requires done <= g.Keys && |done| >= |g| && OrderOf(g) == Prefixed(out, Layers(g, done))
    ensures OrderOf(g) == Some(out)
  {
    assert |g| == |g.Keys|;
    SubsetCard(done, g.Keys);
    assert out + [] == out;
  }

  lemma StartOfOrder(g: Graph)
    ensures OrderOf(g) == Prefixed([], Layers(g, {}))
  {
    assert OrderOf(g).Some? ==> [] + OrderOf(g).value == OrderOf(g).value;
  }

  /** Takes every table that is ready, layer after layer, until all are done or none is. */
  method ComputeOrder(metas: seq<Meta>, fks: seq<ForeignKey>) returns (r: Option<seq<string>>)
    ensures r == OrderOf(DepsOf(metas, fks))
  {
    var deps := ReadSchema(metas, fks);
    var out: seq<string>, done: set<string> := [], {};
    StartOfOrder(deps);
    while |done| < |deps|
      invariant done <= deps.Keys
      invariant OrderOf(deps) == Prefixed(out, Layers(deps, done))
      decreases |deps| - |done|
    {
      var ready := ReadyTables(deps, done);
      NotAllDone(deps, done);
      LayerStep(deps, done, ready, out);
      if |ready| == 0 { return None; }
      LayerGrows(deps, done, ready);
      out, done := TakeAll(out, done, ready);
    }
    AllDone(deps, done, out);
    r := Some(out);
  }
}
