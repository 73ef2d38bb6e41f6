/** Field resolution (out/out.go lines 77-95): the closures readSource and
    fromTextOrFile. The file system is a map from absolute path to contents; a
    path it does not hold cannot be read. */
module Resolve {
  import opened Wrappers
  import opened Errors
  import opened Tokens

  type FileSystem = map<string, string>

  /** filepath.IsAbs on a Unix system. */
  predicate IsAbs(path: string) {
    |path| > 0 && path[0] == '/'
  }

  /** filepath.Join of a directory and a relative path, without cleaning. */
  function JoinPath(dir: string, path: string): string {
    dir + "/" + path
  }

  /** Where readSource looks for `path`: as given when absolute, else under the source root. */
  function Locate(sourceRoot: string, path: string): string {
    if IsAbs(path) then path else JoinPath(sourceRoot, path)
  }

  /** ioutil.ReadFile. */
  function ReadFile(fs: FileSystem, path: string): Result<string, Error> {
    if path in fs then Success(fs[path]) else Failure(ReadFailed(path, "no such file or directory"))
  }

  /** The closure readSource: read the located file and substitute the build tokens. */
  function ReadSource(sourceRoot: string, path: string, fs: FileSystem,
                      tokens: map<string, string>, order: seq<string>): (r: Result<string, Error>)
    ensures r.Success? <==> Locate(sourceRoot, path) in fs
    ensures r.Success? ==> r.value == ReplaceTokens(fs[Locate(sourceRoot, path)], tokens, order)
    ensures r.Failure? ==> r.error.ReadFailed? && r.error.path == Locate(sourceRoot, path)
  {
    var contents :- ReadFile(fs, Locate(sourceRoot, path));
    Success(ReplaceTokens(contents, tokens, order))
  }

  /** The closure fromTextOrFile: inline text wins over a file path; with
      neither, the field is empty. */
  function FromTextOrFile(text: string, path: string, sourceRoot: string, fs: FileSystem,
                          tokens: map<string, string>, order: seq<string>): (r: Result<string, Error>)
    ensures text != "" ==> r == Success(ReplaceTokens(text, tokens, order))
    ensures text == "" && path == "" ==> r == Success("")
    ensures text == "" && path != "" ==> (r.Success? <==> Locate(sourceRoot, path) in fs)
    ensures text == "" && r.Success? && path != "" ==>
              r.value == ReplaceTokens(fs[Locate(sourceRoot, path)], tokens, order)
    ensures r.Failure? ==> text == "" && path != "" && r.error == ReadFailed(Locate(sourceRoot, path), "no such file or directory")
  {
    if text != "" then Success(ReplaceTokens(text, tokens, order))
    else if path != "" then ReadSource(sourceRoot, path, fs, tokens, order)
    else Success("")
  }

  /** Two file systems that agree on one path. */
  predicate AgreeAt(fs1: FileSystem, fs2: FileSystem, path: string) {
    (path in fs1 <==> path in fs2) && (path in fs1 ==> fs1[path] == fs2[path])
  }

  /** With inline text, or with neither text nor path, no file is read: the
      result is the same whatever the file system holds. */
  lemma NoFileReadUnlessPathOnly(text: string, path: string, sourceRoot: string, fs1: FileSystem, fs2: FileSystem,
                                 tokens: map<string, string>, order: seq<string>)
    requires text != "" || path == ""
    ensures FromTextOrFile(text, path, sourceRoot, fs1, tokens, order)
         == FromTextOrFile(text, path, sourceRoot, fs2, tokens, order)
  {
  }

  /** Otherwise exactly one file is consulted: a relative path under the
      source root, an absolute one as given. */
  lemma OnlyLocatedFileRead(text: string, path: string, sourceRoot: string, fs1: FileSystem, fs2: FileSystem,
                            tokens: map<string, string>, order: seq<string>)
    requires AgreeAt(fs1, fs2, Locate(sourceRoot, path))
    ensures FromTextOrFile(text, path, sourceRoot, fs1, tokens, order)
         == FromTextOrFile(text, path, sourceRoot, fs2, tokens, order)
  {
  }
}
