/** The search of `Analyzer::resolveModuleExport`: as a recursive function on values, and as the method
    with the visited set and the star-export loop, which computes that function. */
module ResolveExport {
  import opened ModuleGraph

  /** The four result codes; 0 (FOUND) carries the path of the defining module. */
  datatype Resolution = Found(definer: Path) | NotFound | Circular | Ambiguous

  // ---------------------------------------------------------------- termination measure

  ghost function Paths(g: Graph): set<Path> {
    set p | p in g :: g[p].path
  }

  ghost function RenamedNames(g: Graph): set<Name> {
    set p, n | p in g && n in g[p].indirect :: g[p].indirect[n].1
  }

  /** Every key that a query for `name` can put into the visited set. */
  ghost function Universe(g: Graph, name: Name): set<Key> {
    set p, n | p in Paths(g) && n in RenamedNames(g) + {name} :: (p, n)
  }

  lemma {:induction false} UniverseShrinks(g: Graph, p: Path, name: Name, name': Name, visited: set<Key>)
    requires p in g && (g[p].path, name) !in visited
    requires name' == name || (name in g[p].indirect && name' == g[p].indirect[name].1)
    ensures Universe(g, name') - (visited + {(g[p].path, name)}) < Universe(g, name) - visited
  {
    var key := (g[p].path, name);
    assert key in Universe(g, name) - visited;
    assert Universe(g, name') <= Universe(g, name);
  }

  // ---------------------------------------------------------------- the search on values

  /** The path credited for a star branch: an empty defining path gives way to the star source. */
  function Credit(definer: Path, source: Path): Path {
    if definer == "" then source else definer
  }

  function Only(s: set<Path>): (x: Path)
    requires |s| == 1
    ensures s == {x}
  {
    OnlyOne(s);
    var x :| x in s;
    x
  }

  lemma {:induction false} OnlyOne(s: set<Path>)
    requires |s| == 1
    ensures exists x :: x in s
    ensures forall x, y :: x in s && y in s ==> x == y
    ensures forall x :: x in s ==> s == {x}
  {
    var x :| x in s;
    assert |s - {x}| == 0;
    assert s == {x};
  }

  function Resolve(g: Graph, p: Path, name: Name, visited: set<Key>): Resolution
    decreases Universe(g, name) - visited, 0
  {
    if p !in g then NotFound
    else
      var m := g[p];
      var key := (m.path, name);
      if key in visited then Circular
      else if name in m.indirect then
        var (src, srcName) := m.indirect[name];
        UniverseShrinks(g, p, name, srcName, visited);
        if src !in g then NotFound else Resolve(g, src, srcName, visited + {key})
      else if name in m.direct then Found(m.path)
      else
        UniverseShrinks(g, p, name, name, visited);
        var definers := if name == DEFAULT then {} else StarDefiners(g, m.stars, name, visited + {key});
        Conclude(m, name, definers)
  }

  /** The defining modules the star branches of `stars` report, each branch with its own visited set. */
  function StarDefiners(g: Graph, stars: seq<Path>, name: Name, visited: set<Key>): set<Path>
    decreases Universe(g, name) - visited, |stars| + 1
  {
    if stars == [] then {}
    else
      var last := |stars| - 1;
      var src := stars[last];
      var before := StarDefiners(g, stars[..last], name, visited);
      if src !in g then before
      else match Resolve(g, src, name, visited)
        case Found(d) => before + {Credit(d, src)}
        case _ => before
  }

  /** What follows the star search: ambiguity, the one definer, the export-table fallback, and the
      benefit of the doubt for a module that is still being analysed. */
  function Conclude(m: Module, name: Name, definers: set<Path>): Resolution {
    if |definers| > 1 then Ambiguous
    else if |definers| == 1 then Found(Only(definers))
    else if m.Exports(name) || !m.analyzed then Found(m.path)
    else NotFound
  }

  // ---------------------------------------------------------------- the search as the source runs it

  method ResolveModuleExport(g: Graph, p: Path, name: Name, visited: set<Key>)
      returns (res: Resolution, visited': set<Key>)
    ensures res == Resolve(g, p, name, visited)
    ensures visited <= visited'
    decreases Universe(g, name) - visited
  {
    visited' := visited;
    if p !in g { return NotFound, visited'; }
    var m := g[p];
    var key := (m.path, name);
    if key in visited' { return Circular, visited'; }
    visited' := visited' + {key};
    if name in m.indirect {
      var (src, srcName) := m.indirect[name];
      UniverseShrinks(g, p, name, srcName, visited);
      if src !in g { return NotFound, visited'; }
      res, visited' := ResolveModuleExport(g, src, srcName, visited');
      return;
    }
    if name in m.direct { return Found(m.path), visited'; }
    UniverseShrinks(g, p, name, name, visited);
    if name != DEFAULT && m.stars != [] {
      var definers: set<Path> := {};
      for i := 0 to |m.stars|
        invariant definers == StarDefiners(g, m.stars[..i], name, visited')
      {
        assert m.stars[..i+1][..i] == m.stars[..i];
        var src := m.stars[i];
        if src !in g { continue; }
        var branch, _ := ResolveModuleExport(g, src, name, visited');
        if branch.Found? {
          definers := definers + {Credit(branch.definer, src)};
        }
      }
      assert m.stars[..|m.stars|] == m.stars;
      if |definers| > 1 { return Ambiguous, visited'; }
      if |definers| == 1 {
        OnlyOne(definers);
        var d :| d in definers;
        return Found(d), visited';
      }
    }
    if m.Exports(name) || !m.analyzed { return Found(m.path), visited'; }
    return NotFound, visited';
  }
}
