/** What the export search promises on arbitrary, possibly cyclic, module graphs. */
module ResolveProperties {
  import opened ModuleGraph
  import opened ResolveExport

  // ---------------------------------------------------------------- star branches as a set

  /** `d` is what the branch through star source `src` contributes. */
  ghost predicate BranchGives(g: Graph, src: Path, name: Name, visited: set<Key>, d: Path) {
    && src in g
    && var r := Resolve(g, src, name, visited);
       r.Found? && d == Credit(r.definer, src)
  }

  lemma {:induction false} StarDefinersAre(g: Graph, stars: seq<Path>, name: Name, visited: set<Key>, d: Path)
    ensures d in StarDefiners(g, stars, name, visited)
       <==> exists src :: src in stars && BranchGives(g, src, name, visited, d)
    decreases |stars|
  {
    if stars != [] {
      var last := |stars| - 1;
      assert stars == stars[..last] + [stars[last]];
      StarDefinersAre(g, stars[..last], name, visited, d);
      if BranchGives(g, stars[last], name, visited, d) {
        assert stars[last] in stars;
      }
    }
  }

  // ---------------------------------------------------------------- order of the star sources

  /** The two graphs differ only in the order and repetition of the star sources. */
  ghost predicate SameUpToStarOrder(g: Graph, h: Graph) {
    && g.Keys == h.Keys
    && forall p :: p in g ==> SameModuleUpToStarOrder(g[p], h[p])
  }

  ghost predicate SameModuleUpToStarOrder(m: Module, n: Module) {
    m.(stars := n.stars) == n && (forall s :: s in m.stars <==> s in n.stars)
  }

  /** Neither the result nor the defining module depends on the order of the star sources. */
  lemma {:induction false} StarOrderIrrelevant(g: Graph, h: Graph, p: Path, name: Name, visited: set<Key>)
    requires SameUpToStarOrder(g, h)
    ensures Resolve(g, p, name, visited) == Resolve(h, p, name, visited)
    decreases Universe(g, name) - visited
  {
    if p in g && (g[p].path, name) !in visited {
      var key := (g[p].path, name);
      if name in g[p].indirect {
        var (src, srcName) := g[p].indirect[name];
        UniverseShrinks(g, p, name, srcName, visited);
        StarOrderIrrelevant(g, h, src, srcName, visited + {key});
      } else if name !in g[p].direct && name != DEFAULT {
        UniverseShrinks(g, p, name, name, visited);
        forall src
          ensures Resolve(g, src, name, visited + {key}) == Resolve(h, src, name, visited + {key})
        {
          StarOrderIrrelevant(g, h, src, name, visited + {key});
        }
        var ds := StarDefiners(g, g[p].stars, name, visited + {key});
        var es := StarDefiners(h, h[p].stars, name, visited + {key});
        forall d
          ensures d in ds <==> d in es
        {
          StarDefinersAre(g, g[p].stars, name, visited + {key}, d);
          StarDefinersAre(h, h[p].stars, name, visited + {key}, d);
          assert forall src :: BranchGives(g, src, name, visited + {key}, d)
                          <==> BranchGives(h, src, name, visited + {key}, d);
        }
        assert ds == es;
        assert Conclude(g[p], name, ds) == Conclude(h[p], name, es);
      }
    }
  }

  // ---------------------------------------------------------------- circular chains

  /** The query `k` is answered by a named re-export whose source module is known. */
  predicate Renames(g: Graph, k: Key) {
    k.0 in g && k.1 in g[k.0].indirect && g[k.0].indirect[k.1].0 in g
  }

  /** The key reached after following `n` named re-exports from `k`, if the chain is that long. */
  ghost predicate ChainStays(g: Graph, k: Key, n: nat)
    decreases n
  {
    n == 0 || (Renames(g, k) && ChainStays(g, g[k.0].indirect[k.1], n - 1))
  }

  lemma {:induction false} EndlessChainIsCircular(g: Graph, k: Key, visited: set<Key>)
    requires WellKeyed(g)
    requires forall n: nat :: ChainStays(g, k, n)
    ensures Resolve(g, k.0, k.1, visited) == Circular
    decreases Universe(g, k.1) - visited
  {
    assert ChainStays(g, k, 1);
    if k !in visited {
      var next := g[k.0].indirect[k.1];
      UniverseShrinks(g, k.0, k.1, next.1, visited);
      forall n: nat
        ensures ChainStays(g, next, n)
      {
        assert ChainStays(g, k, n + 1);
      }
      EndlessChainIsCircular(g, next, visited + {k});
    }
  }

  lemma {:induction false} ChainShortens(g: Graph, k: Key, m: nat, n: nat)
    requires m <= n && ChainStays(g, k, n)
    ensures ChainStays(g, k, m)
    decreases m
  {
    if m > 0 {
      ChainShortens(g, g[k.0].indirect[k.1], m - 1, n - 1);
    }
  }

  lemma {:induction false} EndingChainIsNotCircular(g: Graph, k: Key, n: nat, visited: set<Key>)
    requires WellKeyed(g)
    requires ChainStays(g, k, n) && !ChainStays(g, k, n + 1)
    requires forall v :: v in visited ==> ChainStays(g, v, n + 1)
    ensures Resolve(g, k.0, k.1, visited) != Circular
    decreases n
  {
    if Renames(g, k) {
      assert n > 0;
      forall v | v in visited + {k}
        ensures ChainStays(g, v, n)
      {
        if v in visited { ChainShortens(g, v, n, n + 1); }
      }
      EndingChainIsNotCircular(g, g[k.0].indirect[k.1], n - 1, visited + {k});
    }
  }

  lemma {:induction false} LastLink(g: Graph, k: Key, n: nat) returns (m: nat)
    requires !ChainStays(g, k, n)
    ensures ChainStays(g, k, m) && !ChainStays(g, k, m + 1)
    decreases n
  {
    if ChainStays(g, k, n - 1) { m := n - 1; } else { m := LastLink(g, k, n - 1); }
  }

  /** A query is CIRCULAR exactly when its chain of named re-exports never leaves the named re-exports. */
  lemma {:induction false} CircularIffChainEndless(g: Graph, p: Path, name: Name)
    requires WellKeyed(g)
    ensures Resolve(g, p, name, {}) == Circular <==> forall n: nat :: ChainStays(g, (p, name), n)
  {
    var k := (p, name);
    if forall n: nat :: ChainStays(g, k, n) {
      EndlessChainIsCircular(g, k, {});
    } else {
      var n: nat :| !ChainStays(g, k, n);
      var m := LastLink(g, k, n);
      EndingChainIsNotCircular(g, k, m, {});
    }
  }
}
