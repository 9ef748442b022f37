/** The registry of installed PDF sets: every set directory found under the
    data path, keyed by name, the earliest root winning. */
module LhaUtils {
  import opened Platform
  import opened LhaPath

  /** The entry `name` of `root` is an installed set: a directory that holds
      the regular file `<name>.info`. */
  predicate Qualifies(fs: FileSystem, root: Path, name: string)
  {
    fs.IsDir(root + [name]) && fs.IsFile(Slash(root + [name], name + ".info"))
  }

  /** `root` lists `name` and that entry is an installed set. */
  predicate Offers(fs: FileSystem, root: Path, name: string)
  {
    fs.IsDir(root) && name in fs.nodes[root].entries && Qualifies(fs, root, name)
  }

  /** The inner loop of `list_installed` over the entries of one root: an entry
      already registered is skipped, a qualifying one is added under its name. */
  function AddEntries(fs: FileSystem, cwd: string, root: Path, names: seq<string>, acc: map<string, Path>)
    : map<string, Path>
  {
    if names == [] then acc
    else
      var before := AddEntries(fs, cwd, root, names[..|names| - 1], acc);
      var name := names[|names| - 1];
      if name in before then before
      else if Qualifies(fs, root, name) then before[name := Absolute(cwd, root + [name])]
      else before
  }

  /** The outer loop over the roots; listing a root that is not a directory fails. */
  function Installed(fs: FileSystem, cwd: string, roots: seq<Path>): Result<map<string, Path>>
  {
    if roots == [] then Ok(map[])
    else
      match Installed(fs, cwd, roots[..|roots| - 1])
      case Err(e) => Err(e)
      case Ok(acc) =>
        match fs.IterDir(roots[|roots| - 1])
        case Err(e) => Err(e)
        case Ok(names) => Ok(AddEntries(fs, cwd, roots[|roots| - 1], names, acc))
  }

  /** `list_installed()` as a value. */
  function ListInstalledSpec(host: Host): Result<map<string, Path>>
  {
    match DataPath(host)
    case Err(e) => Err(e)
    case Ok(roots) => Installed(host.fs, host.cwd, roots)
  }

  /** The inner loop of `list_installed`: registers the qualifying entries of
      one root that are not registered yet. */
  method RegisterEntries(fs: FileSystem, cwd: string, pathdir: Path, names: seq<string>,
                         start: map<string, Path>) returns (pdfs: map<string, Path>)
    ensures pdfs == AddEntries(fs, cwd, pathdir, names, start)
  {
    pdfs := start;
    var j := 0;
    while j < |names|
      invariant 0 <= j <= |names|
      invariant pdfs == AddEntries(fs, cwd, pathdir, names[..j], start)
    {
      var pdf := pathdir + [names[j]];
      if names[j] !in pdfs && fs.IsDir(pdf) && fs.IsFile(Slash(pdf, names[j] + ".info")) {
        pdfs := pdfs[names[j] := Absolute(cwd, pdf)];
      }
      assert names[..j + 1][..j] == names[..j];
      j := j + 1;
    }
    assert names[..j] == names;
  }

  /** `list_installed()`: resolves the data path, then fills the registry. */
  method ListInstalled(host: Host) returns (r: Result<map<string, Path>>)
    ensures r == ListInstalledSpec(host)
  {
    var datapath := LhapdfDatapath(host);
    if datapath.Err? {
      return Err(datapath.error);
    }
    r := RegisterRoots(host.fs, host.cwd, datapath.value);
  }

  /** The outer loop of `list_installed`: the roots in order, each listed and
      its entries registered; a root that cannot be listed stops it. */
  method RegisterRoots(fs: FileSystem, cwd: string, roots: seq<Path>) returns (r: Result<map<string, Path>>)
    ensures r == Installed(fs, cwd, roots)
  {
    var pdfs: map<string, Path> := map[];
    var i := 0;
    while i < |roots|
      invariant 0 <= i <= |roots|
      invariant Installed(fs, cwd, roots[..i]) == Ok(pdfs)
    {
      var pathdir := roots[i];
      assert roots[..i + 1][..i] == roots[..i];
      var listing := fs.IterDir(pathdir);
      if listing.Err? {
        InstalledErrorStops(fs, cwd, roots, i + 1);
        return Err(listing.error);
      }
      pdfs := RegisterEntries(fs, cwd, pathdir, listing.value, pdfs);
      i := i + 1;
    }
    assert roots[..i] == roots;
    r := Ok(pdfs);
  }

  /** Once listing a root has failed, the whole registry fails with that error. */
  lemma {:induction false} InstalledErrorStops(fs: FileSystem, cwd: string, roots: seq<Path>, k: nat)
    requires k <= |roots|
    requires Installed(fs, cwd, roots[..k]).Err?
    ensures Installed(fs, cwd, roots) == Installed(fs, cwd, roots[..k])
    decreases |roots| - k
  {
    if k < |roots| {
      assert roots[..k + 1][..k] == roots[..k];
      InstalledErrorStops(fs, cwd, roots, k + 1);
    } else {
      assert roots[..k] == roots;
    }
  }

  /** One root's entries: names already registered keep their path; a new
      name is registered exactly when the root offers it, under its path there. */
  lemma {:induction false} AddEntriesSpec(fs: FileSystem, cwd: string, root: Path, names: seq<string>,
                                          acc: map<string, Path>, name: string)
    ensures var m := AddEntries(fs, cwd, root, names, acc);
            && (name in acc ==> name in m && m[name] == acc[name])
            && (name !in acc ==> (name in m <==> name in names && Qualifies(fs, root, name)))
            && (name !in acc && name in m ==> m[name] == Absolute(cwd, root + [name]))
  {
    if names != [] {
      var front := names[..|names| - 1];
      AddEntriesSpec(fs, cwd, root, front, acc, name);
      assert names == front + [names[|names| - 1]];
      assert name in names <==> name in front || name == names[|names| - 1];
    }
  }

  /** The registry holds exactly the names some root offers; each maps to its
      absolute path under the earliest root, in data-path order, that offers it
      (an earlier root listing the name without qualifying does not block it). */
  lemma {:induction false} InstalledSpec(fs: FileSystem, cwd: string, roots: seq<Path>, name: string)
    requires Installed(fs, cwd, roots).Ok?
    ensures var m := Installed(fs, cwd, roots).value;
            && (name in m <==> exists i :: 0 <= i < |roots| && Offers(fs, roots[i], name))
            && (name in m ==> exists i :: 0 <= i < |roots| && Offers(fs, roots[i], name)
                                          && m[name] == Absolute(cwd, roots[i] + [name])
                                          && forall j :: 0 <= j < i ==> !Offers(fs, roots[j], name))
  {
    if roots != [] {
      var n := |roots| - 1;
      var front := roots[..n];
      InstalledSpec(fs, cwd, front, name);
      var acc := Installed(fs, cwd, front).value;
      var m := Installed(fs, cwd, roots).value;
      var names := fs.nodes[roots[n]].entries;
      assert fs.IsDir(roots[n]) && m == AddEntries(fs, cwd, roots[n], names, acc);
      AddEntriesSpec(fs, cwd, roots[n], names, acc, name);
      if name in acc {
        var i :| 0 <= i < n && Offers(fs, front[i], name) && acc[name] == Absolute(cwd, front[i] + [name])
                 && forall j :: 0 <= j < i ==> !Offers(fs, front[j], name);
        assert front[i] == roots[i];
        assert forall j :: 0 <= j < i ==> !Offers(fs, roots[j], name) by {
          forall j | 0 <= j < i ensures !Offers(fs, roots[j], name) {
            assert front[j] == roots[j];
          }
        }
        assert name in m && Offers(fs, roots[i], name) && m[name] == Absolute(cwd, roots[i] + [name]);
      } else {
        assert forall j :: 0 <= j < n ==> !Offers(fs, roots[j], name) by {
          forall j | 0 <= j < n ensures !Offers(fs, roots[j], name) {
            assert front[j] == roots[j];
          }
        }
        if name in m {
          assert Offers(fs, roots[n], name) && m[name] == Absolute(cwd, roots[n] + [name]);
        } else {
          forall j | 0 <= j < |roots| ensures !Offers(fs, roots[j], name) {
            if j == n {
              assert !Offers(fs, roots[n], name);
            }
          }
        }
      }
    }
  }

  /** Listing fails exactly when some root of the data path is not a directory. */
  lemma {:induction false} InstalledFailsOnNonDirectory(fs: FileSystem, cwd: string, roots: seq<Path>)
    ensures Installed(fs, cwd, roots).Err? <==> exists i :: 0 <= i < |roots| && !fs.IsDir(roots[i])
  {
    if roots != [] {
      var n := |roots| - 1;
      InstalledFailsOnNonDirectory(fs, cwd, roots[..n]);
      assert forall i :: 0 <= i < n ==> roots[..n][i] == roots[i];
    }
  }
}
