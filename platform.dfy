/** The outside world the LHA reader consults, as one immutable snapshot:
    environment variables, interpreter prefixes, the file system and the
    optional legacy `lhapdf` package. Python exceptions become `Error` values. */
module Platform {
  import opened Strings

  datatype Option<+T> = None | Some(value: T)

  /** A value as `yaml.safe_load` hands it over: `Null` is Python's `None`,
      `Text` a string, `Other` any other scalar or collection (with its `str()`). */
  datatype Value = Null | Text(text: string) | Other(shown: string)

  /** A YAML mapping with string keys. */
  type Header = map<string, Value>

  /** What `yaml.safe_load` makes of a document: a mapping, some other value
      (including `None` for an empty document), or a syntax error. */
  datatype YamlDoc = Mapping(entries: Header) | NotMapping | Malformed

  /** The exceptions that can leave the modelled code. */
  datatype Error =
    | FileNotFound(message: string)  // FileNotFoundError raised by the resolver itself
    | OSError(path: Path)            // the OS refused to read or list `path` (missing, wrong kind)
    | ValueError(message: string)
    | TypeError(message: string)
    | IndexError
    | AttributeError                 // `.get` on a YAML document that is not a mapping
    | YamlError                      // `yaml.YAMLError`
    | MemberSkip(id: string)         // the reader's own skip signal

  datatype Result<+T> = Ok(value: T) | Err(error: Error)

  /** The values of `results` in order, or the first error among them. */
  function Sequence<T>(results: seq<Result<T>>): Result<seq<T>>
  {
    if results == [] then Ok([])
    else
      match Sequence(results[..|results| - 1])
      case Err(e) => Err(e)
      case Ok(values) =>
        match results[|results| - 1]
        case Err(e) => Err(e)
        case Ok(v) => Ok(values + [v])
  }

  /** `f` applied to each element, in order. */
  function MapResults<A, B>(f: A -> Result<B>, xs: seq<A>): (r: seq<Result<B>>)
    ensures |r| == |xs| && forall i :: 0 <= i < |xs| ==> r[i] == f(xs[i])
  {
    if xs == [] then [] else [f(xs[0])] + MapResults(f, xs[1..])
  }

  /** Apply `f` to each element in turn, collecting the values and stopping
      at the first error. */
  method Traverse<A, B>(f: A -> Result<B>, xs: seq<A>) returns (r: Result<seq<B>>)
    ensures r == Sequence(MapResults(f, xs))
  {
    ghost var results := MapResults(f, xs);
    var values: seq<B> := [];
    var j := 0;
    while j < |xs|
      invariant 0 <= j <= |xs|
      invariant Sequence(results[..j]) == Ok(values)
    {
      var v := f(xs[j]);
      SequenceStep(results, j);
      if v.Err? {
        SequenceErrorStops(results, j + 1);
        return Err(v.error);
      }
      values := values + [v.value];
      j := j + 1;
    }
    assert results[..j] == results;
    r := Ok(values);
  }

  /** `Sequence` succeeds exactly when every result does, and then holds
      their values in order. */
  lemma {:induction false} SequenceOk<T>(results: seq<Result<T>>)
    ensures Sequence(results).Ok? <==> forall i :: 0 <= i < |results| ==> results[i].Ok?
    ensures Sequence(results).Ok? ==> (|Sequence(results).value| == |results|
              && forall i :: 0 <= i < |results| ==> results[i] == Ok(Sequence(results).value[i]))
  {
    if results != [] {
      var n := |results| - 1;
      SequenceOk(results[..n]);
      assert forall i :: 0 <= i < n ==> results[..n][i] == results[i];
    }
  }

  /** A failing `Sequence` fails with the first error. */
  lemma {:induction false} SequenceFirstError<T>(results: seq<Result<T>>)
    requires Sequence(results).Err?
    ensures exists i :: 0 <= i < |results| && results[i] == Err(Sequence(results).error)
                        && forall j :: 0 <= j < i ==> results[j].Ok?
  {
    var n := |results| - 1;
    var front := results[..n];
    assert forall i :: 0 <= i < n ==> front[i] == results[i];
    SequenceOk(front);
    if Sequence(front).Err? {
      SequenceFirstError(front);
      var i :| 0 <= i < n && front[i] == Err(Sequence(front).error) && forall j :: 0 <= j < i ==> front[j].Ok?;
      assert results[i] == Err(Sequence(results).error);
    } else {
      assert results[n] == Err(Sequence(results).error);
    }
  }

  /** One more result: an earlier error stays, a new error replaces the
      values, a new value is appended. */
  lemma SequenceStep<T>(results: seq<Result<T>>, j: nat)
    requires j < |results|
    ensures Sequence(results[..j + 1]) ==
              if Sequence(results[..j]).Err? then Sequence(results[..j])
              else if results[j].Err? then Err(results[j].error)
              else Ok(Sequence(results[..j]).value + [results[j].value])
  {
    assert results[..j + 1][..j] == results[..j];
  }

  /** Once a prefix has failed, the whole sequence fails with its error. */
  lemma {:induction false} SequenceErrorStops<T>(results: seq<Result<T>>, k: nat)
    requires k <= |results| && Sequence(results[..k]).Err?
    ensures Sequence(results) == Sequence(results[..k])
    decreases |results| - k
  {
    if k < |results| {
      assert results[..k + 1][..k] == results[..k];
      SequenceErrorStops(results, k + 1);
    } else {
      assert results[..k] == results;
    }
  }

  /** A file-system path as the tuple of its `pathlib` parts; an absolute
      path starts with the part "/". */
  type Path = seq<string>

  /** A part that `pathlib` keeps: not empty, not ".", without '/'. */
  predicate PlainPart(c: string)
  {
    c != "" && c != "." && forall k :: 0 <= k < |c| ==> c[k] != '/'
  }

  predicate WellFormed(p: Path)
  {
    forall i :: 0 <= i < |p| ==> PlainPart(p[i]) || (i == 0 && p[i] == "/")
  }

  /** The parts kept from the pieces of a path string. */
  function KeepParts(pieces: seq<string>): (r: seq<string>)
    ensures forall i :: 0 <= i < |r| ==> r[i] in pieces && r[i] != "" && r[i] != "."
  {
    if pieces == [] then []
    else (if pieces[0] == "" || pieces[0] == "." then [] else [pieces[0]]) + KeepParts(pieces[1..])
  }

  lemma {:induction false} SplitPiecesHaveNoSeparator(s: string, c: char)
    ensures forall i :: 0 <= i < |Split(s, [c])| ==> forall k :: 0 <= k < |Split(s, [c])[i]| ==> Split(s, [c])[i][k] != c
    decreases |s|
  {
    if |s| >= 1 {
      SplitPiecesHaveNoSeparator(s[1..], c);
      var rest := Split(s[1..], [c]);
      if s[..1] != [c] {
        assert Split(s, [c]) == [[s[0]] + rest[0]] + rest[1..];
      }
    }
  }

  /** `pathlib.PurePosixPath(s).parts`, except that a text starting with
      exactly two slashes, which `pathlib` keeps as the root `//`, is rooted at
      `/` like any other absolute path. */
  function ToPath(s: string): (p: Path)
    ensures WellFormed(p)
  {
    SplitPiecesHaveNoSeparator(s, '/');
    (if |s| > 0 && s[0] == '/' then ["/"] else []) + KeepParts(Split(s, "/"))
  }

  /** `p / s`: an absolute `s` replaces `p`, a relative one is appended part by part. */
  function Slash(p: Path, s: string): Path
  {
    var q := ToPath(s);
    if q != [] && q[0] == "/" then q else p + q
  }

  /** Joining a plain name appends exactly that one part. */
  lemma SlashPlain(p: Path, name: string)
    requires PlainPart(name)
    ensures Slash(p, name) == p + [name]
  {
    SplitWithoutSeparator(name, '/');
    assert Split(name, "/") == [name];
    assert KeepParts([name]) == [name];
  }

  /** `Path.name`: the last part, or "" for the root and for ".". */
  function Name(p: Path): string
  {
    if p == [] || p == ["/"] then "" else p[|p| - 1]
  }

  /** `Path.parent`. */
  function Parent(p: Path): Path
  {
    if p == [] || p == ["/"] then p else p[..|p| - 1]
  }

  /** `Path.absolute()`, given the working directory. */
  function Absolute(cwd: string, p: Path): Path
  {
    if p != [] && p[0] == "/" then p else ToPath(cwd) + p
  }

  /** One entry of the file system: a directory with its entries in the order
      `iterdir` yields them, a regular file with its text, or anything else. */
  datatype Node = Directory(entries: seq<string>) | RegularFile(content: string) | Special

  datatype FileSystem = FileSystem(nodes: map<Path, Node>)
  {
    /** `Path.exists()`. */
    predicate Exists(p: Path) { p in nodes }

    /** `Path.is_dir()`. */
    predicate IsDir(p: Path) { p in nodes && nodes[p].Directory? }

    /** `Path.is_file()`. */
    predicate IsFile(p: Path) { p in nodes && nodes[p].RegularFile? }

    /** `Path.read_text()`. */
    function ReadText(p: Path): (r: Result<string>)
      ensures r.Ok? <==> IsFile(p)
    {
      if IsFile(p) then Ok(nodes[p].content) else Err(OSError(p))
    }

    /** The names `Path.iterdir()` yields. */
    function IterDir(p: Path): (r: Result<seq<string>>)
      ensures r.Ok? <==> IsDir(p)
    {
      if IsDir(p) then Ok(nodes[p].entries) else Err(OSError(p))
    }
  }

  /** Everything the resolver and the reader read from outside: `os.environ`,
      `sys.prefix`, `sys.base_prefix`, `Path.home()`, the working directory, the
      file system, and `lhapdf.paths()` (`None` when `import lhapdf` fails). */
  datatype Host = Host(
    env: map<string, string>,
    sysPrefix: string,
    basePrefix: string,
    home: string,
    cwd: string,
    fs: FileSystem,
    lhapdfPaths: Option<seq<string>>)
  {
    /** `os.environ.get(name)`. */
    function Getenv(name: string): Option<string>
    {
      if name in env then Some(env[name]) else None
    }
  }
}
