/** The older data-path resolver: the same sources as `LhaPath.DataPath`,
    but it stops at the first hit and yields one path, never split on ':'. */
module LhaConfiguration {
  import opened Strings
  import opened Platform
  import opened LhaPath

  /** The hit of the first candidate prefix that has one. */
  function FirstProbe(fs: FileSystem, candidates: seq<Option<Path>>): (r: Option<Path>)
    ensures r.Some? <==> exists c :: 0 <= c < |candidates| && HitOf(fs, candidates[c]) != []
    ensures r.Some? ==> exists c :: 0 <= c < |candidates| && HitOf(fs, candidates[c]) == [r.value]
                                     && forall d :: 0 <= d < c ==> HitOf(fs, candidates[d]) == []
  {
    if candidates == [] then None
    else
      HitOfProbe(fs, candidates[0]);
      if HitOf(fs, candidates[0]) != [] then Some(HitOf(fs, candidates[0])[0])
      else
        var r := FirstProbe(fs, candidates[1..]);
        assert forall c :: 1 <= c < |candidates| ==> candidates[c] == candidates[1..][c - 1];
        r
  }

  /** `lhapdf_datapath()` of the legacy module: the first variable set, taken
      whole; else the first prefix hit; else the first path of the legacy
      package (an `IndexError` when it reports none). */
  function LegacyDataPath(host: Host): Result<Path>
  {
    match FirstSetVariable(host, DATA_PATH_VARIABLES)
    case Some(v) => Ok(ToPath(v))
    case None =>
      match FirstProbe(host.fs, PrefixCandidates(host))
      case Some(p) => Ok(p)
      case None =>
        match host.lhapdfPaths
        case Some(ps) => if ps == [] then Err(IndexError) else Ok(ToPath(ps[0]))
        case None => Err(FileNotFound(NO_DATA_DIRECTORY))
  }

  /** The first probe is the first of all prefix hits. */
  lemma FirstProbeIsFirstHit(fs: FileSystem, candidates: seq<Option<Path>>)
    ensures FirstProbe(fs, candidates).Some? <==> |PrefixHits(fs, candidates)| > 0
    ensures FirstProbe(fs, candidates).Some? ==> FirstProbe(fs, candidates).value == PrefixHits(fs, candidates)[0]
  {
    var idx := PrefixHitsInOrder(fs, candidates);
    var r := FirstProbe(fs, candidates);
    if r.Some? {
      var c :| 0 <= c < |candidates| && HitOf(fs, candidates[c]) == [r.value]
               && forall d :: 0 <= d < c ==> HitOf(fs, candidates[d]) == [];
      assert c in idx;
      assert idx[0] == c;
    }
  }

  /** The legacy resolver agrees with the first entry of `LhaPath.DataPath`
      except where the two differ: a variable holding ':' is taken
      whole, and an empty report from the legacy package is an `IndexError`. */
  lemma LegacyIsFirstOfDataPath(host: Host)
    ensures FirstSetVariable(host, DATA_PATH_VARIABLES).Some? ==>
      var v := FirstSetVariable(host, DATA_PATH_VARIABLES).value;
      && LegacyDataPath(host) == Ok(ToPath(v))
      && (CountChar(v, ':') == 0 ==> DataPath(host) == Ok([ToPath(v)]))
    ensures FirstSetVariable(host, DATA_PATH_VARIABLES).None? ==>
      match DataPath(host)
      case Ok(roots) => if roots == [] then LegacyDataPath(host) == Err(IndexError)
                        else LegacyDataPath(host) == Ok(roots[0])
      case Err(e) => LegacyDataPath(host) == Err(e)
  {
    var first := FirstSetVariable(host, DATA_PATH_VARIABLES);
    if first.Some? {
      var v := first.value;
      if CountChar(v, ':') == 0 {
        SplitCharCount(v, ':');
        assert ToPaths(Split(v, ":")) == [ToPath(v)] by {
          assert |Split(v, ":")| == 1;
          JoinSplit(v, ":", -1);
        }
      }
    } else {
      FirstProbeIsFirstHit(host.fs, PrefixCandidates(host));
      match host.lhapdfPaths {
        case Some(ps) =>
          if ps != [] {
            assert ToPaths(ps)[0] == ToPath(ps[0]);
          }
        case None =>
      }
    }
  }

  /** A variable holding several ':'-separated paths is one path to the legacy
      resolver and several to `LhaPath.DataPath`. */
  lemma ColonSeparatedIsOnePath(host: Host)
    requires "LHAPDF_DATA_PATH" in host.env
    ensures LegacyDataPath(host) == Ok(ToPath(host.env["LHAPDF_DATA_PATH"]))
    ensures DataPath(host).Ok?
    ensures |DataPath(host).value| == CountChar(host.env["LHAPDF_DATA_PATH"], ':') + 1
  {
    DataPathFromVariables(host);
    SplitCharCount(host.env["LHAPDF_DATA_PATH"], ':');
  }
}
