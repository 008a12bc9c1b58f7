/**
 * Locating and loading the configuration file: a fixed list of candidate
 * paths is searched in priority order, the first one that is a regular file
 * is read, and the outcome is the parsed document, a not-found error naming
 * the requested file, or a decode error naming the resolved path.
 */
module ConfigLoad {

  datatype Option<T> = None | Some(value: T)

  datatype Result<T, E> = Ok(value: T) | Err(error: E)

  datatype LoadError =
    | NotFound(name: string)     // no candidate is a regular file
    | DecodeError(path: string)  // the resolved file does not parse

  /** The parts of the process environment the search depends on. */
  datatype Env = Env(cwd: string, installDir: string, home: string)

  /** Joins a path onto a directory; an absolute path replaces the directory, as with pathlib. */
  function Join(dir: string, name: string): (path: string)
    ensures |name| > 0 && name[0] == '/' ==> path == name
    ensures |name| <= |path| && path[|path| - |name|..] == name
  {
    if |name| > 0 && name[0] == '/' then name else dir + "/" + name
  }

  /** A relative path is joined under the directory, after a separator. */
  lemma JoinUnder(dir: string, name: string)
    requires !(|name| > 0 && name[0] == '/')
    ensures var path := Join(dir, name); |dir| < |path| && path[..|dir|] == dir && path[|dir|] == '/'
  {
  }

  /**
   * The candidates in priority order: the path as given, under the working
   * directory, under the program's install directory, and under the user's
   * ~/.config/xair-obs directory.
   */
  function Candidates(config: string, env: Env): (cands: seq<string>)
    ensures |cands| == 4 && cands[0] == config
    ensures |config| > 0 && config[0] == '/' ==> forall q :: 0 <= q < 4 ==> cands[q] == config
  {
    [ config,
      Join(env.cwd, config),
      Join(env.installDir, config),
      Join(Join(Join(env.home, ".config"), "xair-obs"), config) ]
  }

  /** `cands[q]` is a file and no earlier candidate is. */
  ghost predicate FirstFileAt(cands: seq<string>, isFile: string -> bool, q: int)
  {
    0 <= q < |cands| && isFile(cands[q]) && forall p :: 0 <= p < q ==> !isFile(cands[p])
  }

  /** The first candidate that is a regular file, if any. */
  function FirstFile(cands: seq<string>, isFile: string -> bool): (r: Option<string>)
    ensures r.None? <==> forall q :: 0 <= q < |cands| ==> !isFile(cands[q])
    ensures r.Some? ==> exists q :: FirstFileAt(cands, isFile, q) && cands[q] == r.value
    decreases |cands|
  {
    if cands == [] then None
    else if isFile(cands[0]) then
      assert FirstFileAt(cands, isFile, 0);
      Some(cands[0])
    else
      var r := FirstFile(cands[1..], isFile);
      if r.Some? then
        FirstFileShift(cands, isFile, r.value);
        r
      else
        r
  }

  /** A first file after a candidate that is not a file is a first file of the whole list. */
  lemma FirstFileShift(cands: seq<string>, isFile: string -> bool, path: string)
    requires cands != [] && !isFile(cands[0])
    requires exists q :: FirstFileAt(cands[1..], isFile, q) && cands[1..][q] == path
    ensures exists q :: FirstFileAt(cands, isFile, q) && cands[q] == path
  {
    var q :| FirstFileAt(cands[1..], isFile, q) && cands[1..][q] == path;
    assert FirstFileAt(cands, isFile, q + 1);
  }

  /** `FirstFileAt` picks at most one position. */
  lemma FirstFileAtUnique(cands: seq<string>, isFile: string -> bool, q: int, q': int)
    requires FirstFileAt(cands, isFile, q) && FirstFileAt(cands, isFile, q')
    ensures q == q'
  {
  }

  /** The first file among the four candidates, if any. */
  function GetFilepath(config: string, env: Env, isFile: string -> bool): (r: Option<string>)
    ensures r.None? <==> forall q :: 0 <= q < 4 ==> !isFile(Candidates(config, env)[q])
    ensures r.Some? ==> isFile(r.value)
    ensures forall q :: FirstFileAt(Candidates(config, env), isFile, q) ==> r == Some(Candidates(config, env)[q])
  {
    var cands := Candidates(config, env);
    var r := FirstFile(cands, isFile);
    assert forall q :: FirstFileAt(cands, isFile, q) ==> r == Some(cands[q]) by {
      forall q | FirstFileAt(cands, isFile, q) ensures r == Some(cands[q]) {
        var q' :| FirstFileAt(cands, isFile, q') && cands[q'] == r.value;
        FirstFileAtUnique(cands, isFile, q, q');
      }
    }
    r
  }

  /** The search returns candidate `q` exactly when it is the first candidate that is a file. */
  lemma GetFilepathPriority(config: string, env: Env, isFile: string -> bool, q: nat)
    requires q < 4
    requires isFile(Candidates(config, env)[q])
    requires forall p :: 0 <= p < q ==> !isFile(Candidates(config, env)[p])
    ensures GetFilepath(config, env, isFile) == Some(Candidates(config, env)[q])
  {
    var cands := Candidates(config, env);
    var r := GetFilepath(config, env, isFile);
    var q' :| FirstFileAt(cands, isFile, q') && cands[q'] == r.value;
    assert q <= q';
    assert q' <= q;
  }

  /**
   * Loads the configuration: not found when no candidate is a file, a decode
   * error naming the resolved path when it does not parse, and the parsed
   * document otherwise. `parse` stands for reading and decoding the file.
   */
  function LoadConfig<T>(config: string, env: Env, isFile: string -> bool,
                         parse: string -> Option<T>): (r: Result<T, LoadError>)
    ensures r == Err(NotFound(config))
        <==> forall q :: 0 <= q < 4 ==> !isFile(Candidates(config, env)[q])
    ensures r.Ok? <==> exists q :: FirstFileAt(Candidates(config, env), isFile, q)
                                && parse(Candidates(config, env)[q]).Some?
    ensures r.Ok? ==> exists q :: FirstFileAt(Candidates(config, env), isFile, q)
                               && parse(Candidates(config, env)[q]) == Some(r.value)
    ensures r.Err? && r.error.DecodeError? ==>
              && GetFilepath(config, env, isFile) == Some(r.error.path)
              && parse(r.error.path).None?
    ensures r.Err? && r.error.NotFound? ==> r.error.name == config
    ensures forall q :: FirstFileAt(Candidates(config, env), isFile, q) && parse(Candidates(config, env)[q]).None?
              ==> r == Err(DecodeError(Candidates(config, env)[q]))
  {
    match GetFilepath(config, env, isFile)
    case None => Err(NotFound(config))
    case Some(path) =>
      match parse(path)
      case None => Err(DecodeError(path))
      case Some(doc) => Ok(doc)
  }
}
