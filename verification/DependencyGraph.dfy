/** The `depends_on` relation as a graph: chains, reachability, cycles and levels.

    These definitions do not mention the sort: they are what the catalogue's
    algorithms are proved against. */
module DependencyGraph {
  import opened Ordering
  import opened KeyOrder

  /** Each key with the keys it depends on directly. */
  type Graph = map<string, set<string>>

  /** Every dependency named is a key of the graph. */
  ghost predicate Closed(g: Graph) {
    forall k, d :: k in g && d in g[k] ==> d in g
  }

  /** A walk along `depends_on` edges; a single key is a walk of no edge. */
  ghost predicate IsPath(g: Graph, p: seq<string>) {
    && p != []
    && (forall i :: 0 <= i < |p| ==> p[i] in g)
    && (forall i :: 0 <= i < |p| - 1 ==> p[i + 1] in g[p[i]])
  }

  ghost predicate PathBetween(g: Graph, p: seq<string>, a: string, b: string) {
    IsPath(g, p) && |p| >= 2 && p[0] == a && p[|p| - 1] == b
  }

  /** `b` is reachable from `a` over one or more edges. */
  ghost predicate Reaches(g: Graph, a: string, b: string) {
    exists p :: PathBetween(g, p, a, b)
  }

  ghost predicate Cyclic(g: Graph) {
    exists k :: Reaches(g, k, k)
  }

  /** A chain of `n` edges starts at `k`. */
  ghost predicate HasChain(g: Graph, k: string, n: nat)
    decreases n
  {
    k in g && (n == 0 || exists d :: d in g[k] && HasChain(g, d, n - 1))
  }

  ghost function Reachable(g: Graph, a: string): set<string> {
    set k | k in g && Reaches(g, a, k)
  }

  ghost function Reaching(g: Graph, b: string): set<string> {
    set k | k in g && Reaches(g, k, b)
  }

  lemma EdgeReaches(g: Graph, a: string, b: string)
    requires a in g && b in g && b in g[a]
    ensures Reaches(g, a, b)
  {
    assert PathBetween(g, [a, b], a, b);
  }

  lemma ReachesTransitive(g: Graph, a: string, b: string, c: string)
    requires Reaches(g, a, b) && Reaches(g, b, c)
    ensures Reaches(g, a, c)
  {
    var p :| PathBetween(g, p, a, b);
    var q :| PathBetween(g, q, b, c);
    var r := p + q[1..];
    forall i | 0 <= i < |r| - 1 ensures r[i + 1] in g[r[i]] {
      if i >= |p| - 1 { assert r[i] == q[i - |p| + 1] && r[i + 1] == q[i - |p| + 2]; }
    }
    assert PathBetween(g, r, a, c);
  }

  /** A set that holds the direct dependencies of `a` and of each of its members holds all `a` reaches. */
  lemma {:induction false} ClosedSetHoldsReachable(g: Graph, a: string, s: set<string>, p: seq<string>)
    requires IsPath(g, p) && |p| >= 2 && (p[0] == a || p[0] in s)
    requires a in g && g[a] <= s
    requires forall k :: k in s && k in g ==> g[k] <= s
    ensures p[|p| - 1] in s
  {
    assert p[1] in g[p[0]];
    if |p| > 2 { ClosedSetHoldsReachable(g, a, s, p[1..]); }
  }

  lemma {:induction false} ChainShortens(g: Graph, k: string, n: nat, m: nat)
    requires HasChain(g, k, n) && m <= n
    ensures HasChain(g, k, m)
    decreases n
  {
    if m > 0 {
      var d :| d in g[k] && HasChain(g, d, n - 1);
      ChainShortens(g, d, n - 1, m - 1);
    }
  }

  lemma {:induction false} ChainAsPath(g: Graph, k: string, n: nat) returns (p: seq<string>)
    requires HasChain(g, k, n)
    ensures IsPath(g, p) && |p| == n + 1 && p[0] == k
    decreases n
  {
    p := [k];
    if n > 0 {
      var d :| d in g[k] && HasChain(g, d, n - 1);
      var q := ChainAsPath(g, d, n - 1);
      p := p + q;
    }
  }

  /** A walk through a cycle can be continued for ever. */
  lemma {:induction false} CycleFeedsChains(g: Graph, p: seq<string>, i: nat, n: nat)
    requires IsPath(g, p) && |p| >= 2 && p[0] == p[|p| - 1] && i < |p|
    ensures HasChain(g, p[i], n)
    decreases n
  {
    if n > 0 {
      var j := if i == |p| - 1 then 0 else i;
      assert p[j + 1] in g[p[j]];
      CycleFeedsChains(g, p, j + 1, n - 1);
    }
  }

  lemma {:induction false} PathFeedsChains(g: Graph, p: seq<string>, n: nat)
    requires IsPath(g, p) && Reaches(g, p[|p| - 1], p[|p| - 1])
    ensures HasChain(g, p[0], n)
    decreases |p|
  {
    if |p| == 1 {
      var c :| PathBetween(g, c, p[0], p[0]);
      CycleFeedsChains(g, c, 0, n);
    } else {
      PathFeedsChains(g, p[1..], n);
      if n > 0 {
        ChainShortens(g, p[1], n, n - 1);
        assert p[1] in g[p[0]];
      }
    }
  }

  /** `k` lies on a cycle or leads into one. */
  ghost predicate LeadsToCycle(g: Graph, k: string) {
    exists c :: (c == k || Reaches(g, k, c)) && Reaches(g, c, c)
  }

  /** Pigeonhole on keys: a chain as long as the graph is large must revisit a key. */
  lemma LongChainMeetsCycle(g: Graph, k: string)
    requires HasChain(g, k, |g|)
    ensures LeadsToCycle(g, k)
  {
    var p := ChainAsPath(g, k, |g|);
    assert forall x :: x in p ==> x in g.Keys;
    assert |g.Keys| == |g|;
    var i, j := Pigeonhole(p, g.Keys);
    assert PathBetween(g, p[i..j + 1], p[i], p[i]);
    assert Reaches(g, p[i], p[i]);
    if i > 0 { assert PathBetween(g, p[..i + 1], k, p[i]); }
    assert p[i] == k || Reaches(g, k, p[i]);
  }

  lemma CycleMakesLongChains(g: Graph, k: string, n: nat)
    requires LeadsToCycle(g, k)
    ensures HasChain(g, k, n)
  {
    var c :| (c == k || Reaches(g, k, c)) && Reaches(g, c, c);
    if c == k {
      var p :| PathBetween(g, p, k, k);
      PathFeedsChains(g, [k], n);
    } else {
      var p :| PathBetween(g, p, k, c);
      PathFeedsChains(g, p, n);
    }
  }

  /** A chain longer than the number of keys goes on for ever. */
  lemma LongChainIsEndless(g: Graph, k: string, m: nat, n: nat)
    requires HasChain(g, k, m) && m >= |g|
    ensures HasChain(g, k, n)
  {
    ChainShortens(g, k, m, |g|);
    LongChainMeetsCycle(g, k);
    CycleMakesLongChains(g, k, n);
  }

  /** The length of the longest chain from `k`, counted up to `bound`. */
  ghost function LongestWithin(g: Graph, k: string, bound: nat): (n: nat)
    ensures n <= bound
    ensures k in g ==> HasChain(g, k, n)
    ensures forall m :: n < m <= bound ==> !HasChain(g, k, m)
  {
    if bound == 0 || HasChain(g, k, bound) then bound else LongestWithin(g, k, bound - 1)
  }

  /** The length of the longest dependency chain from `k` (capped at the number of keys). */
  ghost function Level(g: Graph, k: string): nat {
    LongestWithin(g, k, |g|)
  }

  lemma LevelIs(g: Graph, k: string, n: nat)
    requires HasChain(g, k, n) && !HasChain(g, k, n + 1)
    ensures Level(g, k) == n < |g|
  {
    if n >= |g| { LongChainIsEndless(g, k, n, n + 1); }
    if Level(g, k) > n { ChainShortens(g, k, Level(g, k), n + 1); }
  }

  /** Without a cycle a dependency lies on a strictly lower level. */
  lemma DependencyIsLower(g: Graph, k: string, d: string)
    requires Closed(g) && !Cyclic(g) && k in g && d in g[k]
    ensures Level(g, d) < Level(g, k)
  {
    var n := Level(g, d);
    assert HasChain(g, d, n);
    assert HasChain(g, k, n + 1);
    if n + 1 > |g| { LongChainMeetsCycle(g, d); }
  }

  /** Enable order: by length of the longest dependency chain, then by key. */
  ghost predicate Earlier(g: Graph, a: string, b: string) {
    Level(g, a) < Level(g, b) || (Level(g, a) == Level(g, b) && KeyLess(a, b))
  }

  ghost function ByLevel(g: Graph): (string, string) -> bool {
    (a, b) => Earlier(g, a, b)
  }

  lemma ByLevelIsStrict(g: Graph)
    ensures StrictOrder(ByLevel(g))
  {
    KeyOrderIsStrict();
  }

  /** The canonical listing of the keys: it depends on the graph alone. */
  ghost function EnableOrder(g: Graph): (order: seq<string>)
    ensures Ascending(order, ByLevel(g)) && Elements(order) == g.Keys && |order| == |g|
  {
    ByLevelIsStrict(g);
    Sorted(g.Keys, ByLevel(g))
  }

  lemma {:induction false} PathDescends(g: Graph, p: seq<string>)
    requires Closed(g) && !Cyclic(g) && IsPath(g, p) && |p| >= 2
    ensures Level(g, p[|p| - 1]) < Level(g, p[0])
  {
    assert p[1] in g[p[0]];
    DependencyIsLower(g, p[0], p[1]);
    if |p| > 2 { PathDescends(g, p[1..]); }
  }

  lemma ReachesDescends(g: Graph, a: string, b: string)
    requires Closed(g) && !Cyclic(g) && Reaches(g, a, b)
    ensures Level(g, b) < Level(g, a)
  {
    var p :| PathBetween(g, p, a, b);
    PathDescends(g, p);
  }

  lemma OrderAscends(g: Graph, i: nat, j: nat)
    requires i <= j < |g|
    ensures Level(g, EnableOrder(g)[i]) <= Level(g, EnableOrder(g)[j])
  {
    if i < j { assert ByLevel(g)(EnableOrder(g)[i], EnableOrder(g)[j]); }
  }

  /** Each key comes after everything it needs, directly or not. */
  lemma DependenciesComeFirst(g: Graph, i: nat, j: nat)
    requires Closed(g) && !Cyclic(g)
    requires i < |g| && j < |g| && Reaches(g, EnableOrder(g)[i], EnableOrder(g)[j])
    ensures j < i
  {
    ReachesDescends(g, EnableOrder(g)[i], EnableOrder(g)[j]);
    if i <= j { OrderAscends(g, i, j); }
  }
}
