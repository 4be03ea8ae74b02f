/** `load_parsers()` of `simulation_visualizer/file/parsers/__init__.py` and of the
    identical `simulation_visualizer/parsers/__init__.py`: import every plugin module
    of the package directory, skipping non-modules and modules that raise
    `ImportError`.

    Importing a module executes its body once: each parser class it defines is
    registered by the metaclass as the definition runs, and a body may raise
    after some definitions. A module that raised is not kept in `sys.modules`,
    so a later `load_parsers()` executes it again; one that completed is kept and
    not executed again. */
module Loader {
  import opened Errors
  import Plugin

  /** A directory entry found by the glob, as `Path.stem` and `Path.suffix`. */
  datatype Entry = Entry(stem: string, suffix: string)

  /** What executing a module's body does: the parser classes it defines, in
      order, and the exception it raises after them, if any. */
  datatype ModuleBody = ModuleBody(defines: seq<Plugin.Descriptor>, raises: Option<Exc>)

  /** The filter at the head of the loop. */
  predicate Skipped(e: Entry) {
    e.stem == "__init__" || (e.suffix != ".py" && e.suffix != ".pyc")
  }

  /** The names in `sys.modules` and the descriptors registered so far. */
  datatype LoadState = LoadState(imported: set<string>, registered: seq<Plugin.Descriptor>)

  /** `importlib.import_module("." + stem, package)`: nothing happens for a module
      already imported; a name with no module raises `ModuleNotFoundError`;
      otherwise the body runs, registering its classes, and the module is kept
      only if the body completes. */
  function Import(stem: string, bodies: map<string, ModuleBody>, st: LoadState): (r: (Option<Exc>, LoadState))
    ensures r.0.None? ==> stem in r.1.imported
    ensures r.0.Some? ==> r.1.imported == st.imported
    ensures stem in st.imported ==> r == (None, st)
    ensures st.registered <= r.1.registered
  {
    if stem in st.imported then (None, st)
    else if stem !in bodies then (Some(ModuleNotFound(stem)), st)
    else
      var b := bodies[stem];
      var st' := st.(registered := st.registered + b.defines);
      if b.raises.Some? then (b.raises, st')
      else (None, st'.(imported := st.imported + {stem}))
  }

  /** The loop of `load_parsers()` from a state: the exception that escapes, if
      any, and the state it leaves. */
  function Load(entries: seq<Entry>, bodies: map<string, ModuleBody>, st: LoadState): (r: (Option<Exc>, LoadState))
    ensures st.registered <= r.1.registered
    ensures r.0.Some? ==> !IsImportError(r.0.value)
    decreases |entries|
  {
    if entries == [] then (None, st)
    else if Skipped(entries[0]) then Load(entries[1..], bodies, st)
    else
      var (e, st') := Import(entries[0].stem, bodies, st);
      if e.Some? && !IsImportError(e.value) then (e, st')
      else Load(entries[1..], bodies, st')
  }

  /** `sys.modules`, reduced to the names of the plugin modules imported. */
  class Modules {
    var imported: set<string>

    constructor ()
      ensures imported == {}
    {
      imported := {};
    }
  }

  /** One `import_module` call, registering the classes the body defines. */
  method ImportModule(sys: Modules, mount: Plugin.ParserMount, stem: string, bodies: map<string, ModuleBody>)
    returns (raised: Option<Exc>)
    modifies sys, mount
    ensures var (e, st) := Import(stem, bodies, LoadState(old(sys.imported), Plugin.Descriptors(old(mount.parsers))));
      && raised == e
      && sys.imported == st.imported
      && Plugin.Descriptors(mount.parsers) == st.registered
  {
    if stem in sys.imported {
      return None;
    }
    if stem !in bodies {
      return Some(ModuleNotFound(stem));
    }
    var body := bodies[stem];
    ghost var before := Plugin.Descriptors(mount.parsers);
    for i := 0 to |body.defines|
      invariant Plugin.Descriptors(mount.parsers) == before + body.defines[..i]
      invariant sys.imported == old(sys.imported)
    {
      var _ := mount.Mount(body.defines[i]);
      assert body.defines[..i + 1] == body.defines[..i] + [body.defines[i]];
    }
    assert body.defines[..|body.defines|] == body.defines;
    if body.raises.Some? {
      return body.raises;
    }
    sys.imported := sys.imported + {stem};
    return None;
  }

  /** `load_parsers()`: returns the exception that escapes the loop, if any. */
  method LoadParsers(sys: Modules, mount: Plugin.ParserMount, entries: seq<Entry>, bodies: map<string, ModuleBody>)
    returns (raised: Option<Exc>)
    modifies sys, mount
    ensures var (e, st) := Load(entries, bodies, LoadState(old(sys.imported), Plugin.Descriptors(old(mount.parsers))));
      && raised == e
      && sys.imported == st.imported
      && Plugin.Descriptors(mount.parsers) == st.registered
  {
    ghost var start := LoadState(sys.imported, Plugin.Descriptors(mount.parsers));
    var k := 0;
    while k < |entries|
      invariant 0 <= k <= |entries|
      invariant Load(entries, bodies, start)
             == Load(entries[k..], bodies, LoadState(sys.imported, Plugin.Descriptors(mount.parsers)))
    {
      ghost var here := LoadState(sys.imported, Plugin.Descriptors(mount.parsers));
      assert entries[k..][1..] == entries[k + 1..];
      if Skipped(entries[k]) {
        k := k + 1;
        continue;
      }
      var e := ImportModule(sys, mount, entries[k].stem, bodies);
      if e.Some? && !IsImportError(e.value) {
        return e;
      }
      k := k + 1;
    }
    return None;
  }

  // ---------------------------------------------------------------------------
  // Properties of the loop

  /** Loading a list is loading its first part, then (if nothing escaped) the rest. */
  lemma {:induction false} LoadAppend(a: seq<Entry>, b: seq<Entry>, bodies: map<string, ModuleBody>, st: LoadState)
    ensures Load(a + b, bodies, st)
         == (var (e, st') := Load(a, bodies, st); if e.Some? then (e, st') else Load(b, bodies, st'))
    decreases |a|
  {
    if a == [] {
      assert a + b == b;
    } else {
      assert (a + b)[1..] == a[1..] + b;
      if Skipped(a[0]) {
        LoadAppend(a[1..], b, bodies, st);
      } else {
        var (e, st') := Import(a[0].stem, bodies, st);
        if !(e.Some? && !IsImportError(e.value)) {
          LoadAppend(a[1..], b, bodies, st');
        }
      }
    }
  }

  /** A skipped entry (`__init__`, or a suffix other than `.py` and `.pyc`) changes
      nothing, wherever it stands. */
  lemma SkippedEntryIgnored(a: seq<Entry>, x: Entry, b: seq<Entry>, bodies: map<string, ModuleBody>, st: LoadState)
    requires Skipped(x)
    ensures Load(a + [x] + b, bodies, st) == Load(a + b, bodies, st)
  {
    LoadAppend(a, [x] + b, bodies, st);
    LoadAppend(a, b, bodies, st);
    assert a + [x] + b == a + ([x] + b);
    assert ([x] + b)[1..] == b;
  }

  /** A module that raises `ImportError` (or `ModuleNotFoundError`) does not stop
      the loop: the entries after it are loaded, and the classes it defined before
      raising stay registered. */
  lemma ImportErrorContinues(x: Entry, b: seq<Entry>, bodies: map<string, ModuleBody>, st: LoadState)
    requires !Skipped(x) && x.stem !in st.imported && x.stem in bodies
    requires var body := bodies[x.stem]; body.raises.Some? && IsImportError(body.raises.value)
    ensures Load([x] + b, bodies, st)
         == Load(b, bodies, st.(registered := st.registered + bodies[x.stem].defines))
  {
    assert ([x] + b)[1..] == b;
  }

  /** Any other exception escapes: whatever follows is not loaded. */
  lemma OtherErrorAborts(a: seq<Entry>, x: Entry, b: seq<Entry>, bodies: map<string, ModuleBody>, st: LoadState)
    requires Load(a, bodies, st).0.None?
    requires var st' := Load(a, bodies, st).1;
      !Skipped(x) && x.stem !in st'.imported && x.stem in bodies
    requires var body := bodies[x.stem]; body.raises.Some? && !IsImportError(body.raises.value)
    ensures Load(a + [x] + b, bodies, st).0 == bodies[x.stem].raises
    ensures Load(a + [x] + b, bodies, st).1.registered
         == Load(a, bodies, st).1.registered + bodies[x.stem].defines
  {
    LoadAppend(a, [x] + b, bodies, st);
    assert a + [x] + b == a + ([x] + b);
  }

  /** The classes every loadable entry defines, in entry order. */
  function Defined(entries: seq<Entry>, bodies: map<string, ModuleBody>): seq<Plugin.Descriptor>
    decreases |entries|
  {
    if entries == [] then []
    else if Skipped(entries[0]) || entries[0].stem !in bodies then Defined(entries[1..], bodies)
    else bodies[entries[0].stem].defines + Defined(entries[1..], bodies)
  }

  /** The modules that complete, with distinct names: nothing escapes and the
      registry grows by the classes of the entries in enumeration order. */
  lemma {:induction false} RegistryFollowsEntryOrder(entries: seq<Entry>, bodies: map<string, ModuleBody>, st: LoadState)
    requires forall i :: 0 <= i < |entries| && !Skipped(entries[i]) ==>
      entries[i].stem !in st.imported && (entries[i].stem in bodies ==> bodies[entries[i].stem].raises.None?)
    requires forall i, j :: 0 <= i < j < |entries| && !Skipped(entries[i]) && !Skipped(entries[j]) ==>
      entries[i].stem != entries[j].stem
    ensures Load(entries, bodies, st).0.None?
    ensures Load(entries, bodies, st).1.registered == st.registered + Defined(entries, bodies)
    decreases |entries|
  {
    if entries != [] {
      var rest := entries[1..];
      if Skipped(entries[0]) {
        RegistryFollowsEntryOrder(rest, bodies, st);
      } else {
        var st' := Import(entries[0].stem, bodies, st).1;
        assert forall i :: 0 <= i < |rest| && !Skipped(rest[i]) ==> rest[i].stem !in st'.imported by {
          forall i | 0 <= i < |rest| && !Skipped(rest[i])
            ensures rest[i].stem !in st'.imported
          {
            assert rest[i] == entries[i + 1];
          }
        }
        assert forall i, j :: 0 <= i < j < |rest| && !Skipped(rest[i]) && !Skipped(rest[j]) ==>
          rest[i].stem != rest[j].stem by {
          forall i, j | 0 <= i < j < |rest| && !Skipped(rest[i]) && !Skipped(rest[j])
            ensures rest[i].stem != rest[j].stem
          {
            assert rest[i] == entries[i + 1] && rest[j] == entries[j + 1];
          }
        }
        RegistryFollowsEntryOrder(rest, bodies, st');
      }
    }
  }

  /** Loading again after a clean load registers nothing new when every module
      that fails does so before defining a class (as `example_plugin.py` does). */
  lemma {:induction false} ReloadRegistersNothing(entries: seq<Entry>, bodies: map<string, ModuleBody>, st: LoadState)
    requires forall s :: s in bodies && bodies[s].raises.Some? ==> bodies[s].defines == []
    requires Load(entries, bodies, st).0.None?
    ensures Load(entries, bodies, Load(entries, bodies, st).1).1.registered
         == Load(entries, bodies, st).1.registered
  {
    var fin := Load(entries, bodies, st).1;
    LoadedStaysLoaded(entries, bodies, st);
    ReloadFrom(entries, bodies, fin);
  }

  /** Every module that completed during a load is in `sys.modules` afterwards. */
  lemma {:induction false} LoadedStaysLoaded(entries: seq<Entry>, bodies: map<string, ModuleBody>, st: LoadState)
    requires Load(entries, bodies, st).0.None?
    ensures forall i :: (0 <= i < |entries| && !Skipped(entries[i]) && entries[i].stem in bodies
      && bodies[entries[i].stem].raises.None?) ==> entries[i].stem in Load(entries, bodies, st).1.imported
    ensures st.imported <= Load(entries, bodies, st).1.imported
    decreases |entries|
  {
    if entries != [] {
      var rest := entries[1..];
      var st' := if Skipped(entries[0]) then st else Import(entries[0].stem, bodies, st).1;
      LoadedStaysLoaded(rest, bodies, st');
      forall i | 0 <= i < |entries| && !Skipped(entries[i]) && entries[i].stem in bodies
        && bodies[entries[i].stem].raises.None?
        ensures entries[i].stem in Load(entries, bodies, st).1.imported
      {
        if i > 0 {
          assert entries[i] == rest[i - 1];
        }
      }
    }
  }

  /** From a state where every completing module is imported, a load leaves the
      registry as it is. */
  lemma {:induction false} ReloadFrom(entries: seq<Entry>, bodies: map<string, ModuleBody>, st: LoadState)
    requires forall s :: s in bodies && bodies[s].raises.Some? ==> bodies[s].defines == []
    requires forall i :: (0 <= i < |entries| && !Skipped(entries[i]) && entries[i].stem in bodies
      && bodies[entries[i].stem].raises.None?) ==> entries[i].stem in st.imported
    ensures Load(entries, bodies, st).1.registered == st.registered
    ensures Load(entries, bodies, st).1.imported == st.imported
    decreases |entries|
  {
    if entries != [] {
      var rest := entries[1..];
      assert forall i :: 0 <= i < |rest| ==> rest[i] == entries[i + 1];
      if !Skipped(entries[0]) {
        var r := Import(entries[0].stem, bodies, st);
        assert r.1 == st;
        if !(r.0.Some? && !IsImportError(r.0.value)) {
          ReloadFrom(rest, bodies, st);
        }
      } else {
        ReloadFrom(rest, bodies, st);
      }
    }
  }

  /** A module that defines a class and then raises `ImportError` registers that
      class again on every load, since the failed import is not remembered. */
  lemma FailedModuleRegistersTwice(d: Plugin.Descriptor)
    ensures var entries := [Entry("half_ready", ".py")];
      var bodies := map["half_ready" := ModuleBody([d], Some(ImportError("not ready")))];
      var first := Load(entries, bodies, LoadState({}, []));
      && first == (None, LoadState({}, [d]))
      && Load(entries, bodies, first.1) == (None, LoadState({}, [d, d]))
  {
    var entries := [Entry("half_ready", ".py")];
    var bodies := map["half_ready" := ModuleBody([d], Some(ImportError("not ready")))];
    assert !Skipped(entries[0]);
    assert entries[1..] == [];
    var s0 := LoadState({}, []);
    var r0 := Import("half_ready", bodies, s0);
    assert r0.1 == LoadState({}, [d]);
    assert r0 == (Some(ImportError("not ready")), LoadState({}, [d]));
    assert Load(entries, bodies, s0) == (None, LoadState({}, [d]));
    var r1 := Import("half_ready", bodies, r0.1);
    assert r1.1 == LoadState({}, [d, d]);
    assert r1 == (Some(ImportError("not ready")), LoadState({}, [d, d]));
  }

  /** The legacy plugin directory listed alphabetically: `__init__.py` is skipped,
      `dpmd_devi.py` fails on its `simulation_progress` import, `example_plugin.py`
      raises `ImportError` before defining anything, and the three other modules
      register their parser, so the registry holds lcurve, LAMMPS and COLVAR. */
  lemma LegacyDirectory(devi: Plugin.Descriptor, lcurve: Plugin.Descriptor, lammps: Plugin.Descriptor,
                        colvar: Plugin.Descriptor)
    ensures var entries := [Entry("__init__", ".py"), Entry("__pycache__", ""), Entry("dpmd_devi", ".py"),
                            Entry("dpmd_lcurve", ".py"), Entry("example_plugin", ".py"),
                            Entry("lmp_metad_run", ".py"), Entry("plumed_colvar", ".py")];
      var bodies := map[
        "dpmd_devi" := ModuleBody([], Some(ModuleNotFound("simulation_progress"))),
        "dpmd_lcurve" := ModuleBody([lcurve], None),
        "example_plugin" := ModuleBody([], Some(ImportError("Module not yet ready for production"))),
        "lmp_metad_run" := ModuleBody([lammps], None),
        "plumed_colvar" := ModuleBody([colvar], None)];
      Load(entries, bodies, LoadState({}, [])).1.registered == [lcurve, lammps, colvar]
  {
    var entries := LegacyEntries();
    var bodies := LegacyBodies(lcurve, lammps, colvar);
    var s0 := LoadState({}, []);
    var s3 := LoadState({"dpmd_lcurve", "lmp_metad_run", "plumed_colvar"}, [lcurve, lammps, colvar]);
    LegacyFromDevi(lcurve, lammps, colvar);
    assert Load(entries[1..], bodies, s0) == (None, s3) by {
      assert entries[1..][0].suffix == [] && Skipped(entries[1..][0]);
      assert entries[1..][1..] == entries[2..];
    }
    assert entries[0].stem == "__init__" && Skipped(entries[0]);
  }

  /** The entries of the legacy plugin directory, listed alphabetically (the
      order `Path.glob` yields is the file system's). */
  function LegacyEntries(): (es: seq<Entry>)
    ensures |es| == 7
  {
    [Entry("__init__", ".py"), Entry("__pycache__", ""), Entry("dpmd_devi", ".py"),
     Entry("dpmd_lcurve", ".py"), Entry("example_plugin", ".py"),
     Entry("lmp_metad_run", ".py"), Entry("plumed_colvar", ".py")]
  }

  /** What the bodies of the legacy plugin modules do. */
  function LegacyBodies(lcurve: Plugin.Descriptor, lammps: Plugin.Descriptor, colvar: Plugin.Descriptor)
    : map<string, ModuleBody>
  {
    map[
      "dpmd_devi" := ModuleBody([], Some(ModuleNotFound("simulation_progress"))),
      "dpmd_lcurve" := ModuleBody([lcurve], None),
      "example_plugin" := ModuleBody([], Some(ImportError("Module not yet ready for production"))),
      "lmp_metad_run" := ModuleBody([lammps], None),
      "plumed_colvar" := ModuleBody([colvar], None)]
  }

  /** The last two legacy modules, after lcurve, register LAMMPS and COLVAR. */
  lemma LegacyFromLammps(lcurve: Plugin.Descriptor, lammps: Plugin.Descriptor, colvar: Plugin.Descriptor)
    ensures Load(LegacyEntries()[5..], LegacyBodies(lcurve, lammps, colvar), LoadState({"dpmd_lcurve"}, [lcurve]))
         == (None, LoadState({"dpmd_lcurve", "lmp_metad_run", "plumed_colvar"}, [lcurve, lammps, colvar]))
  {
    var entries := LegacyEntries();
    var bodies := LegacyBodies(lcurve, lammps, colvar);
    var s1 := LoadState({"dpmd_lcurve"}, [lcurve]);
    var s2 := LoadState({"dpmd_lcurve", "lmp_metad_run"}, [lcurve, lammps]);
    var s3 := LoadState({"dpmd_lcurve", "lmp_metad_run", "plumed_colvar"}, [lcurve, lammps, colvar]);
    assert Load(entries[6..], bodies, s2) == (None, s3) by {
      var r := Import("plumed_colvar", bodies, s2);
      assert r.1.registered == s3.registered && r.1.imported == s3.imported;
      assert entries[6..][1..] == [];
    }
    var r := Import("lmp_metad_run", bodies, s1);
    assert r.1.registered == s2.registered && r.1.imported == s2.imported;
    assert entries[5..][1..] == entries[6..];
  }

  /** From `dpmd_devi` on, the legacy directory registers lcurve, LAMMPS and COLVAR. */
  lemma LegacyFromDevi(lcurve: Plugin.Descriptor, lammps: Plugin.Descriptor, colvar: Plugin.Descriptor)
    ensures Load(LegacyEntries()[2..], LegacyBodies(lcurve, lammps, colvar), LoadState({}, []))
         == (None, LoadState({"dpmd_lcurve", "lmp_metad_run", "plumed_colvar"}, [lcurve, lammps, colvar]))
  {
    var entries := LegacyEntries();
    var bodies := LegacyBodies(lcurve, lammps, colvar);
    var s0 := LoadState({}, []);
    var s1 := LoadState({"dpmd_lcurve"}, [lcurve]);
    var s3 := LoadState({"dpmd_lcurve", "lmp_metad_run", "plumed_colvar"}, [lcurve, lammps, colvar]);
    LegacyFromLammps(lcurve, lammps, colvar);
    assert Load(entries[4..], bodies, s1) == (None, s3) by {
      assert Import("example_plugin", bodies, s1).1 == s1;
      assert entries[4..][1..] == entries[5..];
    }
    assert Load(entries[3..], bodies, s0) == (None, s3) by {
      var r := Import("dpmd_lcurve", bodies, s0);
      assert r.1.registered == s1.registered && r.1.imported == s1.imported;
      assert entries[3..][1..] == entries[4..];
    }
    assert Import("dpmd_devi", bodies, s0).1 == s0;
    assert entries[2..][1..] == entries[3..];
  }
}
