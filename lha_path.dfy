/** The LHAPDF data path: where installed PDF sets and the global resource
    files are looked for, and the first-match lookups over it. */
module LhaPath {
  import opened Strings
  import opened Platform

  /** The variables that name the data path explicitly, highest priority first. */
  const DATA_PATH_VARIABLES: seq<string> := ["LHAPDF_DATA_PATH", "LHAPATH"]

  /** Where a prefix keeps LHAPDF data (`prefix / "share/LHAPDF/"`), and the
      nested directory some systems add below it. */
  const SHARE_LHAPDF: Path := ["share", "LHAPDF"]
  const NESTED := "lhapdf"

  /** `SHARE_LHAPDF` is what `pathlib` makes of "share/LHAPDF/": a relative
      path of two plain names with a trailing separator appends both names. */
  lemma SlashTwoNames(prefix: Path, a: string, b: string)
    requires PlainPart(a) && PlainPart(b)
    ensures Slash(prefix, a + ['/'] + b + ['/']) == prefix + [a, b]
  {
    TwoNamesPath(a, b);
  }

  /** A relative text of two plain names and a trailing separator is the
      path of those two parts. */
  lemma TwoNamesPath(a: string, b: string)
    requires PlainPart(a) && PlainPart(b)
    ensures ToPath(a + ['/'] + b + ['/']) == [a, b]
  {
    var tail := b + ['/'] + "";
    assert a + ['/'] + b + ['/'] == a + ['/'] + tail;
    SplitAtFirst(b, '/', "");
    SplitAtFirst(a, '/', tail);
    assert Split("", "/") == [""];
    assert Split(a + ['/'] + tail, "/") == [a, b, ""];
    assert KeepParts([a, b, ""]) == [a, b] by {
      assert [a, b, ""][1..] == [b, ""];
      assert [b, ""][1..] == [""];
      assert KeepParts([""]) == [];
      assert KeepParts([b, ""]) == [b];
    }
  }

  const NO_DATA_DIRECTORY := "No data directory for LHAPDF found"

  /** The value of the first variable of `names` that is set. */
  function FirstSetVariable(host: Host, names: seq<string>): (r: Option<string>)
    ensures r.Some? <==> exists i :: 0 <= i < |names| && names[i] in host.env
    ensures r.Some? ==> exists i :: 0 <= i < |names| && names[i] in host.env && r.value == host.env[names[i]]
                                     && forall j :: 0 <= j < i ==> names[j] !in host.env
  {
    if names == [] then None
    else if names[0] in host.env then Some(host.env[names[0]])
    else
      var r := FirstSetVariable(host, names[1..]);
      assert forall i :: 1 <= i < |names| ==> names[i] == names[1..][i - 1];
      r
  }

  /** One `pathlib.Path` per string, in order. */
  function ToPaths(ss: seq<string>): seq<Path>
  {
    seq(|ss|, i requires 0 <= i < |ss| => ToPath(ss[i]))
  }

  /** The installation prefixes in probe order: `sys.prefix`, `$PREFIX` (absent
      when unset), `~/.local`, `sys.base_prefix`. */
  function PrefixCandidates(host: Host): seq<Option<Path>>
  {
    [ Some(ToPath(host.sysPrefix)),
      match host.Getenv("PREFIX") case Some(v) => Some(ToPath(v)) case None => None,
      Some(ToPath(host.home) + [".local"]),
      Some(ToPath(host.basePrefix)) ]
  }

  /** What one prefix contributes when its `share/LHAPDF` is a directory: the
      nested `lhapdf` directory if there is one, else `share/LHAPDF` itself. */
  function Probe(fs: FileSystem, prefix: Path): (r: Option<Path>)
    ensures r.Some? <==> fs.IsDir(prefix + SHARE_LHAPDF)
    ensures r.Some? ==> fs.IsDir(r.value)
    ensures r.Some? ==> r.value == (if fs.IsDir(prefix + SHARE_LHAPDF + [NESTED])
                                   then (prefix + SHARE_LHAPDF + [NESTED])
                                   else (prefix + SHARE_LHAPDF))
  {
    var lhapdfPath := prefix + SHARE_LHAPDF;
    if !fs.IsDir(lhapdfPath) then None
    else if fs.IsDir(lhapdfPath + [NESTED]) then Some(lhapdfPath + [NESTED])
    else Some(lhapdfPath)
  }

  /** The entries a candidate prefix adds to the data path: none or one. */
  function HitOf(fs: FileSystem, candidate: Option<Path>): seq<Path>
  {
    match candidate
    case None => []
    case Some(prefix) => match Probe(fs, prefix) case None => [] case Some(p) => [p]
  }

  /** Every hit of the candidates, in probe order, duplicates included. */
  function PrefixHits(fs: FileSystem, candidates: seq<Option<Path>>): seq<Path>
  {
    if candidates == [] then []
    else PrefixHits(fs, candidates[..|candidates| - 1]) + HitOf(fs, candidates[|candidates| - 1])
  }

  /** `lhapdf_datapath()`: the explicit variable split on ':', else every prefix
      hit, else what the legacy `lhapdf` package reports. */
  function DataPath(host: Host): Result<seq<Path>>
  {
    match FirstSetVariable(host, DATA_PATH_VARIABLES)
    case Some(v) => Ok(ToPaths(Split(v, ":")))
    case None =>
      var hits := PrefixHits(host.fs, PrefixCandidates(host));
      if |hits| > 0 then Ok(hits)
      else
        match host.lhapdfPaths
        case Some(ps) => Ok(ToPaths(ps))
        case None => Err(FileNotFound(NO_DATA_DIRECTORY))
  }

  /** `lhapdf_datapath()` as the source runs it: returns from the variable
      loop, then appends prefix hits one candidate at a time. */
  method LhapdfDatapath(host: Host) returns (r: Result<seq<Path>>)
    ensures r == DataPath(host)
  {
    var names := DATA_PATH_VARIABLES;
    var i := 0;
    while i < |names|
      invariant 0 <= i <= |names|
      invariant FirstSetVariable(host, names) == FirstSetVariable(host, names[i..])
    {
      if names[i] in host.env {
        return Ok(ToPaths(Split(host.env[names[i]], ":")));
      }
      assert names[i..][1..] == names[i + 1..];
      i := i + 1;
    }
    var candidates := PrefixCandidates(host);
    var paths: seq<Path> := [];
    var k := 0;
    while k < |candidates|
      invariant 0 <= k <= |candidates|
      invariant paths == PrefixHits(host.fs, candidates[..k])
    {
      var candidate := candidates[k];
      if candidate.Some? {
        var lhapdfPath := candidate.value + SHARE_LHAPDF;
        if host.fs.IsDir(lhapdfPath) {
          if host.fs.IsDir(lhapdfPath + [NESTED]) {
            paths := paths + [(lhapdfPath + [NESTED])];
          } else {
            paths := paths + [lhapdfPath];
          }
        }
      }
      assert candidates[..k + 1][..k] == candidates[..k];
      k := k + 1;
    }
    assert candidates[..k] == candidates;
    if |paths| > 0 {
      return Ok(paths);
    }
    match host.lhapdfPaths
    case Some(ps) =>
      r := Ok(ToPaths(ps));
    case None =>
      r := Err(FileNotFound(NO_DATA_DIRECTORY));
  }

  /** The prefix hits are exactly the successful probes, one per candidate and
      in candidate order: position by position, hit `h` comes from candidate
      `idx[h]`, the indices increase, and a candidate whose probe succeeds is
      never passed over. */
  lemma {:induction false} PrefixHitsInOrder(fs: FileSystem, candidates: seq<Option<Path>>)
    returns (idx: seq<nat>)
    ensures |idx| == |PrefixHits(fs, candidates)|
    ensures forall h :: 0 <= h < |idx| ==>
              idx[h] < |candidates| && HitOf(fs, candidates[idx[h]]) == [PrefixHits(fs, candidates)[h]]
    ensures forall h, g :: 0 <= h < g < |idx| ==> idx[h] < idx[g]
    ensures forall c :: 0 <= c < |candidates| && HitOf(fs, candidates[c]) != [] ==> c in idx
  {
    idx := HitPositions(fs, candidates);
    forall h | 0 <= h < |idx|
      ensures idx[h] < |candidates| && HitOf(fs, candidates[idx[h]]) == [PrefixHits(fs, candidates)[h]]
    {
      HitPositionAt(fs, candidates, h);
    }
    forall h, g | 0 <= h < g < |idx| ensures idx[h] < idx[g] {
      HitPositionsIncrease(fs, candidates, h, g);
    }
    forall c | 0 <= c < |candidates| && HitOf(fs, candidates[c]) != [] ensures c in idx {
      HitPositionsComplete(fs, candidates, c);
    }
  }

  /** The positions of the candidates that hit, in order. */
  function HitPositions(fs: FileSystem, candidates: seq<Option<Path>>): (r: seq<nat>)
    ensures |r| == |PrefixHits(fs, candidates)|
    ensures forall h :: 0 <= h < |r| ==> r[h] < |candidates|
  {
    if candidates == [] then []
    else
      var n := |candidates| - 1;
      HitPositions(fs, candidates[..n]) + (if HitOf(fs, candidates[n]) != [] then [n] else [])
  }

  lemma {:induction false} HitPositionAt(fs: FileSystem, candidates: seq<Option<Path>>, h: nat)
    requires h < |HitPositions(fs, candidates)|
    ensures HitOf(fs, candidates[HitPositions(fs, candidates)[h]]) == [PrefixHits(fs, candidates)[h]]
  {
    var n := |candidates| - 1;
    var front := candidates[..n];
    var frontHits := PrefixHits(fs, front);
    assert PrefixHits(fs, candidates) == frontHits + HitOf(fs, candidates[n]);
    if h < |HitPositions(fs, front)| {
      HitPositionAt(fs, front, h);
      assert HitPositions(fs, candidates)[h] == HitPositions(fs, front)[h];
      assert front[HitPositions(fs, front)[h]] == candidates[HitPositions(fs, front)[h]];
    } else {
      assert PrefixHits(fs, candidates)[h] == HitOf(fs, candidates[n])[0];
    }
  }

  lemma {:induction false} HitPositionsIncrease(fs: FileSystem, candidates: seq<Option<Path>>, h: nat, g: nat)
    requires h < g < |HitPositions(fs, candidates)|
    ensures HitPositions(fs, candidates)[h] < HitPositions(fs, candidates)[g]
  {
    var n := |candidates| - 1;
    var front := candidates[..n];
    var before := HitPositions(fs, front);
    assert HitPositions(fs, candidates)[h] == before[h];
    if g < |before| {
      HitPositionsIncrease(fs, front, h, g);
    }
  }

  lemma {:induction false} HitPositionsComplete(fs: FileSystem, candidates: seq<Option<Path>>, c: nat)
    requires c < |candidates| && HitOf(fs, candidates[c]) != []
    ensures c in HitPositions(fs, candidates)
  {
    var n := |candidates| - 1;
    var front := candidates[..n];
    var last := if HitOf(fs, candidates[n]) != [] then [n] else [];
    assert HitPositions(fs, candidates) == HitPositions(fs, front) + last;
    if c < n {
      assert front[c] == candidates[c];
      HitPositionsComplete(fs, front, c);
    } else {
      assert last == [n];
    }
  }

  /** A candidate's hit is its successful probe. */
  lemma HitOfProbe(fs: FileSystem, candidate: Option<Path>)
    ensures HitOf(fs, candidate) != [] <==> candidate.Some? && Probe(fs, candidate.value).Some?
    ensures HitOf(fs, candidate) != [] ==> HitOf(fs, candidate) == [Probe(fs, candidate.value).value]
  {
  }

  /** Every entry found by probing the prefixes is an existing directory. */
  lemma PrefixHitsAreDirectories(fs: FileSystem, candidates: seq<Option<Path>>)
    ensures forall h :: 0 <= h < |PrefixHits(fs, candidates)| ==> fs.IsDir(PrefixHits(fs, candidates)[h])
  {
    var idx := PrefixHitsInOrder(fs, candidates);
    forall h | 0 <= h < |idx| ensures fs.IsDir(PrefixHits(fs, candidates)[h]) {
      HitOfProbe(fs, candidates[idx[h]]);
    }
  }

  /** An explicitly set `LHAPDF_DATA_PATH` wins; then `LHAPATH`. Either is
      split on ':' with no check that the parts exist, so the data path is
      never empty. */
  lemma DataPathFromVariables(host: Host)
    ensures "LHAPDF_DATA_PATH" in host.env ==>
      DataPath(host) == Ok(ToPaths(Split(host.env["LHAPDF_DATA_PATH"], ":")))
    ensures "LHAPDF_DATA_PATH" !in host.env && "LHAPATH" in host.env ==>
      DataPath(host) == Ok(ToPaths(Split(host.env["LHAPATH"], ":")))
    ensures FirstSetVariable(host, DATA_PATH_VARIABLES).Some? ==> DataPath(host).Ok? && |DataPath(host).value| >= 1
  {
    if "LHAPDF_DATA_PATH" !in host.env && "LHAPATH" in host.env {
      assert DATA_PATH_VARIABLES[1] == "LHAPATH";
      assert FirstSetVariable(host, DATA_PATH_VARIABLES[1..]) == Some(host.env["LHAPATH"]);
    }
  }

  /** Without the variables, a non-empty list of prefix hits is the data path,
      and the legacy package is asked only when there is none. */
  lemma DataPathFromPrefixes(host: Host)
    requires "LHAPDF_DATA_PATH" !in host.env && "LHAPATH" !in host.env
    ensures |PrefixHits(host.fs, PrefixCandidates(host))| > 0 ==>
      DataPath(host) == Ok(PrefixHits(host.fs, PrefixCandidates(host)))
    ensures |PrefixHits(host.fs, PrefixCandidates(host))| == 0 ==>
      DataPath(host) == (match host.lhapdfPaths
                         case Some(ps) => Ok(ToPaths(ps))
                         case None => Err(FileNotFound(NO_DATA_DIRECTORY)))
  {
    assert FirstSetVariable(host, DATA_PATH_VARIABLES).None?;
  }

  /** The hits of four candidates are their hits one after the other. */
  lemma PrefixHitsOfFour(fs: FileSystem, cands: seq<Option<Path>>)
    requires |cands| == 4
    ensures PrefixHits(fs, cands) == HitOf(fs, cands[0]) + HitOf(fs, cands[1]) + HitOf(fs, cands[2]) + HitOf(fs, cands[3])
  {
    assert cands[..3][..2] == cands[..2] && cands[..2][..1] == cands[..1] && cands[..1][..0] == [];
    assert PrefixHits(fs, cands[..1]) == HitOf(fs, cands[0]);
    assert PrefixHits(fs, cands[..2]) == HitOf(fs, cands[0]) + HitOf(fs, cands[1]);
    assert PrefixHits(fs, cands[..3]) == HitOf(fs, cands[0]) + HitOf(fs, cands[1]) + HitOf(fs, cands[2]);
  }

  /** Duplicates are kept: when `sys.prefix` and `sys.base_prefix` are the same
      installation with a `share/LHAPDF` directory, it is listed first and last. */
  lemma SamePrefixListedTwice(host: Host)
    requires "LHAPDF_DATA_PATH" !in host.env && "LHAPATH" !in host.env
    requires host.sysPrefix == host.basePrefix
    requires host.fs.IsDir(ToPath(host.sysPrefix) + SHARE_LHAPDF)
    ensures DataPath(host).Ok?
    ensures var roots := DataPath(host).value;
            |roots| >= 2 && roots[0] == roots[|roots| - 1]
  {
    var cands := PrefixCandidates(host);
    assert cands[3] == cands[0] && cands[0] == Some(ToPath(host.sysPrefix));
    SameEndsHitTwice(host.fs, cands);
    DataPathFromPrefixes(host);
  }

  /** Four candidates whose first and last are the same hit: the hits start
      and end with it. */
  lemma SameEndsHitTwice(fs: FileSystem, cands: seq<Option<Path>>)
    requires |cands| == 4 && cands[3] == cands[0]
    requires cands[0].Some? && fs.IsDir(cands[0].value + SHARE_LHAPDF)
    ensures var hits := PrefixHits(fs, cands);
            |hits| >= 2 && hits[0] == hits[|hits| - 1]
  {
    PrefixHitsOfFour(fs, cands);
    var hit := HitOf(fs, cands[0]);
    assert |hit| == 1;
    assert PrefixHits(fs, cands) == hit + (HitOf(fs, cands[1]) + HitOf(fs, cands[2])) + hit;
  }

  /** The legacy package may report an empty list: the data path is then
      empty although resolution succeeded. */
  lemma LegacyPackageMayGiveEmptyPath()
    ensures DataPath(Host(map[], "", "", "", "", FileSystem(map[]), Some([]))) == Ok([])
  {
    var host := Host(map[], "", "", "", "", FileSystem(map[]), Some([]));
    var cands := PrefixCandidates(host);
    var idx := PrefixHitsInOrder(host.fs, cands);
    if idx != [] {
      HitOfProbe(host.fs, cands[idx[0]]);
    }
    assert ToPaths([]) == [];
    DataPathFromPrefixes(host);
  }

  /** The first root, in order, under which `root / name` is accepted. */
  function FirstWhere(roots: seq<Path>, name: string, accept: Path -> bool): (r: Option<Path>)
    ensures r.Some? <==> exists i :: 0 <= i < |roots| && accept(Slash(roots[i], name))
    ensures r.Some? ==> exists i :: 0 <= i < |roots| && r.value == Slash(roots[i], name) && accept(r.value)
                                     && forall j :: 0 <= j < i ==> !accept(Slash(roots[j], name))
  {
    if roots == [] then None
    else if accept(Slash(roots[0], name)) then Some(Slash(roots[0], name))
    else
      var r := FirstWhere(roots[1..], name, accept);
      assert forall i :: 1 <= i < |roots| ==> roots[i] == roots[1..][i - 1];
      r
  }

  const NO_SET := "No PDF set '"
  const NOT_AVAILABLE := "' available in LHAPDF path."
  const NO_RESOURCE := "No global configuration file '"
  const NOT_FOUND := "' found in LHAPDF path."

  function NoSetMessage(setname: string): string
  {
    NO_SET + setname + NOT_AVAILABLE
  }

  function NoResourceMessage(filename: string): string
  {
    NO_RESOURCE + filename + NOT_FOUND
  }

  /** `locate(setname)`: `root / setname` for the first root where it exists. */
  function Locate(host: Host, setname: string): (r: Result<Path>)
    ensures DataPath(host).Err? ==> r == Err(DataPath(host).error)
    ensures DataPath(host).Ok? ==>
      var roots := DataPath(host).value;
      && (r.Ok? <==> exists i :: 0 <= i < |roots| && host.fs.Exists(Slash(roots[i], setname)))
      && (r.Ok? ==> exists i :: 0 <= i < |roots| && r.value == Slash(roots[i], setname) && host.fs.Exists(r.value)
                               && forall j :: 0 <= j < i ==> !host.fs.Exists(Slash(roots[j], setname)))
      && (r.Err? ==> r.error == FileNotFound(NoSetMessage(setname)))
  {
    match DataPath(host)
    case Err(e) => Err(e)
    case Ok(roots) =>
      match FirstWhere(roots, setname, p => host.fs.Exists(p))
      case Some(p) => Ok(p)
      case None => Err(FileNotFound(NoSetMessage(setname)))
  }

  /** `global_resource(filename)`: `root / filename` for the first root where it
      is a regular file; a directory of that name does not count. */
  function GlobalResource(host: Host, filename: string): (r: Result<Path>)
    ensures DataPath(host).Err? ==> r == Err(DataPath(host).error)
    ensures DataPath(host).Ok? ==>
      var roots := DataPath(host).value;
      && (r.Ok? <==> exists i :: 0 <= i < |roots| && host.fs.IsFile(Slash(roots[i], filename)))
      && (r.Ok? ==> exists i :: 0 <= i < |roots| && r.value == Slash(roots[i], filename) && host.fs.IsFile(r.value)
                               && forall j :: 0 <= j < i ==> !host.fs.IsFile(Slash(roots[j], filename)))
      && (r.Err? ==> r.error == FileNotFound(NoResourceMessage(filename)))
  {
    match DataPath(host)
    case Err(e) => Err(e)
    case Ok(roots) =>
      match FirstWhere(roots, filename, p => host.fs.IsFile(p))
      case Some(p) => Ok(p)
      case None => Err(FileNotFound(NoResourceMessage(filename)))
  }

  const CONFIGURATION := "lhapdf.conf"

  /** The index file name; it is the same name as the configuration file. */
  const INDEX := "lhapdf.conf"

  /** `config()`. */
  function Config(host: Host): Result<Path>
  {
    GlobalResource(host, CONFIGURATION)
  }

  /** `index()`. */
  function Index(host: Host): Result<Path>
  {
    GlobalResource(host, INDEX)
  }

  /** Both specialisations resolve the same file `lhapdf.conf`. */
  lemma IndexIsConfig(host: Host)
    ensures Index(host) == Config(host) == GlobalResource(host, "lhapdf.conf")
  {
  }
}
