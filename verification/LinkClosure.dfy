/** The transitive closure of the runtime libraries a program links against. */
module LinkClosure {

  type Lib = string
  type Dir = string
  datatype Dependency = Dependency(lib: Lib, dir: Dir)
  type Dependencies = map<Lib, seq<Dependency>>

  const EVENTS := Dependency("ts_events", "events")
  const STREAM := Dependency("ts_stream", "stream")
  const NET := Dependency("ts_net", "net")

  const EXT_DEPS: Dependencies := map[
    "ts_net" := [EVENTS, STREAM],
    "ts_http" := [EVENTS, STREAM, NET, Dependency("ts_fetch", "fetch")],
    "ts_http2" := [EVENTS, STREAM, NET],
    "ts_fetch" := [Dependency("ts_url", "url")],
    "ts_fs" := [EVENTS, STREAM],
    "ts_child_process" := [EVENTS, STREAM],
    "ts_cluster" := [EVENTS, Dependency("ts_child_process", "child_process"), NET],
    "ts_dgram" := [EVENTS],
    "ts_readline" := [EVENTS, STREAM],
    "ts_stream" := [EVENTS],
    "ts_tty" := [EVENTS, STREAM, NET]
  ]

  // ---------------------------------------------------------------- what the loop is for

  ghost predicate Closed(deps: Dependencies, libs: set<Lib>) {
    forall lib, d :: lib in deps && lib in libs && d in deps[lib] ==> d.lib in libs
  }

  /** A chain of dependencies that starts at a seed and ends at `lib`. */
  ghost predicate Chain(deps: Dependencies, seeds: set<Lib>, lib: Lib, length: nat)
    decreases length
  {
    if length == 0 then lib in seeds
    else exists from, d :: from in deps && d in deps[from] && d.lib == lib && Chain(deps, seeds, from, length - 1)
  }

  ghost predicate Needed(deps: Dependencies, seeds: set<Lib>, lib: Lib) {
    exists length: nat :: Chain(deps, seeds, lib, length)
  }

  ghost predicate AllNeeded(deps: Dependencies, seeds: set<Lib>, libs: set<Lib>) {
    forall lib :: lib in libs ==> Needed(deps, seeds, lib)
  }

  /** `libs` is the least superset of `seeds` closed under the dependencies. */
  ghost predicate LeastClosed(deps: Dependencies, seeds: set<Lib>, libs: set<Lib>) {
    && seeds <= libs
    && Closed(deps, libs)
    && forall other: set<Lib> :: seeds <= other && Closed(deps, other) ==> libs <= other
  }

  /** `dir` is given for `lib` by some library among `libs`. */
  ghost predicate Given(deps: Dependencies, libs: set<Lib>, lib: Lib, dir: Dir) {
    exists from :: from in libs && from in deps && Dependency(lib, dir) in deps[from]
  }

  /** Every library added has a directory given for it, and every directory added belongs to a library added. */
  ghost predicate DirsFollow(deps: Dependencies, seeds: set<Lib>, seedDirs: set<Dir>, libs: set<Lib>, dirs: set<Dir>) {
    && seedDirs <= dirs
    && (forall lib :: lib in libs && lib !in seeds ==> exists dir :: dir in dirs && Given(deps, libs, lib, dir))
    && (forall dir :: dir in dirs && dir !in seedDirs ==>
          exists lib :: lib in libs && lib !in seeds && Given(deps, libs, lib, dir))
  }

  // ---------------------------------------------------------------- the loop

  /** Every library the table or the seeds mention: the bound that makes the loop stop. */
  function Mentioned(deps: Dependencies, seeds: set<Lib>): set<Lib> {
    seeds + (set lib, d | lib in deps && d in deps[lib] :: d.lib)
  }

  ghost predicate Progress(deps: Dependencies, seeds: set<Lib>, seedDirs: set<Dir>, libs: set<Lib>, dirs: set<Dir>) {
    && seeds <= libs <= Mentioned(deps, seeds)
    && AllNeeded(deps, seeds, libs)
    && DirsFollow(deps, seeds, seedDirs, libs, dirs)
  }

  lemma {:induction false} AddKeepsProgress(deps: Dependencies, seeds: set<Lib>, seedDirs: set<Dir>, libs: set<Lib>,
                                            dirs: set<Dir>, from: Lib, d: Dependency)
    requires Progress(deps, seeds, seedDirs, libs, dirs)
    requires from in libs && from in deps && d in deps[from] && d.lib !in libs
    ensures Progress(deps, seeds, seedDirs, libs + {d.lib}, dirs + {d.dir})
  {
    var length: nat :| Chain(deps, seeds, from, length);
    assert Chain(deps, seeds, d.lib, length + 1);
    assert d == Dependency(d.lib, d.dir);
    assert Given(deps, libs + {d.lib}, d.lib, d.dir);
    assert forall lib, dir :: Given(deps, libs, lib, dir) ==> Given(deps, libs + {d.lib}, lib, dir);
    var libs', dirs' := libs + {d.lib}, dirs + {d.dir};
    forall lib | lib in libs' && lib !in seeds
      ensures exists dir :: dir in dirs' && Given(deps, libs', lib, dir)
    {
      if lib == d.lib {
        assert d.dir in dirs';
      } else {
        var dir :| dir in dirs && Given(deps, libs, lib, dir);
        assert dir in dirs' && Given(deps, libs', lib, dir);
      }
    }
  }

  /** The inner loop over the dependencies of one required library. */
  method AddDependencies(deps: Dependencies, from: Lib, ghost seeds: set<Lib>, ghost seedDirs: set<Dir>,
                         libs: set<Lib>, dirs: set<Dir>)
    returns (libs': set<Lib>, dirs': set<Dir>, changed: bool)
    requires from in deps && from in libs && Progress(deps, seeds, seedDirs, libs, dirs)
    ensures libs <= libs' && (changed <==> libs != libs')
    ensures Progress(deps, seeds, seedDirs, libs', dirs')
    ensures forall d :: d in deps[from] ==> d.lib in libs'
    ensures forall lib :: lib in libs' && lib !in libs ==> exists d :: d in deps[from] && d.lib == lib
  {
    libs', dirs', changed := libs, dirs, false;
    for i := 0 to |deps[from]|
      invariant libs <= libs' && (changed <==> libs != libs')
      invariant Progress(deps, seeds, seedDirs, libs', dirs')
      invariant forall d :: d in deps[from][..i] ==> d.lib in libs'
      invariant forall lib :: lib in libs' && lib !in libs ==> exists d :: d in deps[from] && d.lib == lib
    {
      var d := deps[from][i];
      if d.lib !in libs' {
        AddKeepsProgress(deps, seeds, seedDirs, libs', dirs', from, d);
        libs', dirs', changed := libs' + {d.lib}, dirs' + {d.dir}, true;
      }
    }
  }

  /** One round over the table, whose entries come in no fixed order. */
  method OneRound(deps: Dependencies, ghost seeds: set<Lib>, ghost seedDirs: set<Dir>, libs: set<Lib>, dirs: set<Dir>)
    returns (libs': set<Lib>, dirs': set<Dir>, changed: bool)
    requires Progress(deps, seeds, seedDirs, libs, dirs)
    ensures libs <= libs' && (changed <==> libs != libs')
    ensures Progress(deps, seeds, seedDirs, libs', dirs')
    ensures !changed ==> Closed(deps, libs')
  {
    libs', dirs', changed := libs, dirs, false;
    var left := deps.Keys;
    while left != {}
      invariant left <= deps.Keys
      invariant libs <= libs' && (changed <==> libs != libs')
      invariant Progress(deps, seeds, seedDirs, libs', dirs')
      invariant !changed ==>
        forall lib, d :: lib in deps && lib !in left && lib in libs && d in deps[lib] ==> d.lib in libs
    {
      var lib :| lib in left;
      left := left - {lib};
      if lib in libs' {
        var more;
        libs', dirs', more := AddDependencies(deps, lib, seeds, seedDirs, libs', dirs');
        changed := changed || more;
      }
    }
  }

  method CloseOver(deps: Dependencies, seeds: set<Lib>, seedDirs: set<Dir>) returns (libs: set<Lib>, dirs: set<Dir>)
    ensures LeastClosed(deps, seeds, libs)
    ensures forall lib :: lib in libs <==> Needed(deps, seeds, lib)
    ensures DirsFollow(deps, seeds, seedDirs, libs, dirs)
  {
    libs, dirs := seeds, seedDirs;
    assert AllNeeded(deps, seeds, libs) by {
      assert forall lib :: lib in seeds ==> Chain(deps, seeds, lib, 0);
    }
    var changed := true;
    while changed
      invariant Progress(deps, seeds, seedDirs, libs, dirs)
      invariant !changed ==> Closed(deps, libs)
      decreases Mentioned(deps, seeds) - libs, changed
    {
      libs, dirs, changed := OneRound(deps, seeds, seedDirs, libs, dirs);
    }
    NeededIsLeast(deps, seeds, libs);
  }

  // ---------------------------------------------------------------- what follows from the result

  lemma {:induction false} ChainStaysInside(deps: Dependencies, seeds: set<Lib>, libs: set<Lib>, lib: Lib, length: nat)
    requires seeds <= libs && Closed(deps, libs) && Chain(deps, seeds, lib, length)
    ensures lib in libs
    decreases length
  {
    if length > 0 {
      var from, d :| from in deps && d in deps[from] && d.lib == lib && Chain(deps, seeds, from, length - 1);
      ChainStaysInside(deps, seeds, libs, from, length - 1);
    }
  }

  /** A closed set with the seeds in it that holds needed libraries only is the least such set, holding all of them. */
  lemma {:induction false} NeededIsLeast(deps: Dependencies, seeds: set<Lib>, libs: set<Lib>)
    requires seeds <= libs && Closed(deps, libs) && AllNeeded(deps, seeds, libs)
    ensures LeastClosed(deps, seeds, libs)
    ensures forall lib :: lib in libs <==> Needed(deps, seeds, lib)
  {
    forall other: set<Lib>, lib | seeds <= other && Closed(deps, other) && Needed(deps, seeds, lib)
      ensures lib in other
    {
      var length: nat :| Chain(deps, seeds, lib, length);
      ChainStaysInside(deps, seeds, other, lib, length);
    }
  }

  /** The table gives each library one directory, whichever library asks for it. */
  ghost predicate OneDirEach(deps: Dependencies) {
    forall lib, dir, dir' :: Given(deps, deps.Keys, lib, dir) && Given(deps, deps.Keys, lib, dir') ==> dir == dir'
  }

  /** Libraries never depend on the iteration order; the directories do not either if the table is consistent. */
  lemma {:induction false} OrderIrrelevant(deps: Dependencies, seeds: set<Lib>, seedDirs: set<Dir>,
                                           libs: set<Lib>, dirs: set<Dir>, libs': set<Lib>, dirs': set<Dir>)
    requires LeastClosed(deps, seeds, libs) && DirsFollow(deps, seeds, seedDirs, libs, dirs)
    requires LeastClosed(deps, seeds, libs') && DirsFollow(deps, seeds, seedDirs, libs', dirs')
    ensures libs == libs'
    ensures OneDirEach(deps) ==> dirs == dirs'
  {
    assert libs <= libs' && libs' <= libs;
    if OneDirEach(deps) {
      DirsWithin(deps, seeds, seedDirs, libs, dirs, dirs');
      DirsWithin(deps, seeds, seedDirs, libs, dirs', dirs);
    }
  }

  lemma {:induction false} DirsWithin(deps: Dependencies, seeds: set<Lib>, seedDirs: set<Dir>, libs: set<Lib>,
                                      dirs: set<Dir>, dirs': set<Dir>)
    requires OneDirEach(deps)
    requires DirsFollow(deps, seeds, seedDirs, libs, dirs) && DirsFollow(deps, seeds, seedDirs, libs, dirs')
    ensures dirs <= dirs'
  {
    assert forall lib, dir :: Given(deps, libs, lib, dir) ==> Given(deps, deps.Keys, lib, dir);
    forall dir | dir in dirs && dir !in seedDirs
      ensures dir in dirs'
    {
      var lib :| lib in libs && lib !in seeds && Given(deps, libs, lib, dir);
      var dir' :| dir' in dirs' && Given(deps, libs, lib, dir');
      assert dir == dir';
    }
  }

  /** The driver's own table is consistent. */
  lemma {:induction false} DriverTableOneDirEach()
    ensures OneDirEach(EXT_DEPS)
  {
    forall lib, dir | Given(EXT_DEPS, EXT_DEPS.Keys, lib, dir)
      ensures |lib| >= 3 && dir == lib[3..]
    {
      var from :| from in EXT_DEPS && Dependency(lib, dir) in EXT_DEPS[from];
      assert "ts_events"[3..] == "events" && "ts_stream"[3..] == "stream" && "ts_net"[3..] == "net";
      assert "ts_fetch"[3..] == "fetch" && "ts_url"[3..] == "url" && "ts_child_process"[3..] == "child_process";
    }
  }
}
