/** The command-line environment: where sets are fetched from, the name of
    the index file, and the local data path, resolved lazily by the legacy
    resolver and cached. */
module CliConfiguration {
  import opened Platform
  import opened LhaConfiguration

  const INDEX_FILENAME: string := "pdfsets.index"
  const CVMFSBASE: string := "/cvmfs/sft.cern.ch/lcg/external/lhapdfsets/current/"
  const URLBASE: string := "http://lhapdfsets.web.cern.ch/lhapdfsets/current/"

  /** `os.environ.get(name, default)`. */
  function EnvOr(env: map<string, string>, name: string, default: string): (r: string)
    ensures name in env ==> r == env[name]
    ensures name !in env ==> r == default
  {
    if name in env then env[name] else default
  }

  /** The two sources the environment starts from: the CVMFS mirror, then
      the web server, each overridable by its variable. */
  function InitialSources(env: map<string, string>): (r: seq<string>)
    ensures |r| == 2
    ensures r[0] == EnvOr(env, "LHAPDF_CVMFSBASE", CVMFSBASE)
    ensures r[1] == EnvOr(env, "LHAPDF_URLBASE", URLBASE)
  {
    [EnvOr(env, "LHAPDF_CVMFSBASE", CVMFSBASE), EnvOr(env, "LHAPDF_URLBASE", URLBASE)]
  }

  /** Without overriding variables the sources are the two built-in bases. */
  lemma DefaultSources(env: map<string, string>)
    requires "LHAPDF_CVMFSBASE" !in env && "LHAPDF_URLBASE" !in env
    ensures InitialSources(env) == [CVMFSBASE, URLBASE]
  {
  }

  /** The sources after prepending `added` one by one, in that order: the
      latest addition comes first, the initial sources last. */
  function AfterAdding(sources: seq<string>, added: seq<string>): seq<string>
    decreases |added|
  {
    if added == [] then sources
    else AfterAdding([added[0]] + sources, added[1..])
  }

  /** Adding sources never drops or reorders one: the result is the added
      sources newest first, followed by the sources there were before. */
  lemma {:induction false} AfterAddingKeepsOrder(sources: seq<string>, added: seq<string>)
    ensures |AfterAdding(sources, added)| == |added| + |sources|
    ensures AfterAdding(sources, added)[|added|..] == sources
    ensures forall i :: 0 <= i < |added| ==> AfterAdding(sources, added)[i] == added[|added| - 1 - i]
    decreases |added|
  {
    if added != [] {
      AfterAddingKeepsOrder([added[0]] + sources, added[1..]);
      var r := AfterAdding(sources, added);
      assert r[|added|..] == r[|added| - 1..][1..];
    }
  }

  class Environment {
    var sources: seq<string>
    const indexFilename: string := INDEX_FILENAME
    /** `_datapath`: None until first resolved or set. */
    var datapath: Option<Path>
    /** `_listdir`: None until first read. */
    var listdir: Option<Path>

    constructor(env: map<string, string>)
      ensures sources == InitialSources(env)
      ensures indexFilename == INDEX_FILENAME
      ensures datapath.None? && listdir.None?
    {
      sources := [EnvOr(env, "LHAPDF_CVMFSBASE", CVMFSBASE), EnvOr(env, "LHAPDF_URLBASE", URLBASE)];
      datapath := None;
      listdir := None;
    }

    /** The `sources` generator, drained: every source in stored order. */
    method Sources() returns (r: seq<string>)
      ensures r == sources
    {
      r := [];
      var i := 0;
      while i < |sources|
        invariant 0 <= i <= |sources|
        invariant r == sources[..i]
      {
        r := r + [sources[i]];
        i := i + 1;
      }
    }

    /** The `datapath` getter: resolves with the legacy resolver only while
        nothing is cached; a failure is raised and caches nothing. */
    method GetDatapath(host: Host) returns (r: Result<Path>)
      modifies this
      ensures old(datapath).Some? ==> r == Ok(old(datapath).value)
      ensures old(datapath).None? ==> r == LegacyDataPath(host)
      ensures datapath == (if r.Ok? then Some(r.value) else None)
      ensures sources == old(sources) && listdir == old(listdir)
    {
      if datapath.None? {
        var resolved := LegacyDataPath(host);
        if resolved.Err? {
          return Err(resolved.error);
        }
        datapath := Some(resolved.value);
      }
      r := Ok(datapath.value);
    }

    /** The `datapath` setter: stores the path as given, whether or not it
        names a directory (the check only logs). */
    method SetDatapath(newDatapath: string)
      modifies this
      ensures datapath == Some(ToPath(newDatapath))
      ensures sources == old(sources) && listdir == old(listdir)
    {
      datapath := Some(ToPath(newDatapath));
    }

    /** The `listdir` getter: snapshots the data path on first read; later
        changes of the data path do not reach it. */
    method GetListdir(host: Host) returns (r: Result<Path>)
      modifies this
      ensures old(listdir).Some? ==> r == Ok(old(listdir).value) && datapath == old(datapath)
      ensures old(listdir).None? && old(datapath).Some? ==> r == Ok(old(datapath).value) && datapath == old(datapath)
      ensures old(listdir).None? && old(datapath).None? ==>
                r == LegacyDataPath(host) && datapath == (if r.Ok? then Some(r.value) else None)
      ensures listdir == (if old(listdir).Some? then old(listdir) else if r.Ok? then Some(r.value) else None)
      ensures sources == old(sources)
    {
      if listdir.None? {
        var current := GetDatapath(host);
        if current.Err? {
          return Err(current.error);
        }
        listdir := Some(current.value);
      }
      r := Ok(listdir.value);
    }

    /** `index_filename`: always the built-in name. */
    function IndexFilename(): (r: string)
      ensures r == "pdfsets.index"
    {
      indexFilename
    }

    /** `add_source`: the new source takes priority over all previous ones. */
    method AddSource(newSource: string)
      modifies this
      ensures sources == [newSource] + old(sources)
      ensures datapath == old(datapath) && listdir == old(listdir)
    {
      sources := [newSource] + sources;
    }
  }

  /** One more `add_source` after a series of them: the series' result with
      the new source in front, so repeated `AddSource` calls build
      `AfterAdding`. */
  lemma {:induction false} AfterAddingOneMore(sources: seq<string>, added: seq<string>, newSource: string)
    ensures AfterAdding(sources, added + [newSource]) == [newSource] + AfterAdding(sources, added)
    decreases |added|
  {
    if added != [] {
      assert (added + [newSource])[1..] == added[1..] + [newSource];
      AfterAddingOneMore([added[0]] + sources, added[1..], newSource);
    }
  }
}
