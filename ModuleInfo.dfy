/** The part of src/Modules/ModuleInfo.cs the loader relies on: the record's
    name and its file, and the path arithmetic that derives the name. */
module ModuleInfos {
  import opened Wrappers

  predicate IsSeparator(c: char)
  {
    c == '/' || c == '\\'
  }

  /** The index of the last character satisfying `dot ? c == '.' : IsSeparator(c)`,
      or -1 when there is none. */
  function LastIndex(s: string, dot: bool): (r: int)
    ensures -1 <= r < |s|
    ensures r >= 0 ==> (if dot then s[r] == '.' else IsSeparator(s[r]))
    ensures forall k :: r < k < |s| ==> !(if dot then s[k] == '.' else IsSeparator(s[k]))
  {
    if |s| == 0 then -1
    else if (if dot then s[|s| - 1] == '.' else IsSeparator(s[|s| - 1])) then |s| - 1
    else LastIndex(s[..|s| - 1], dot)
  }

  /** `Path.IsPathRooted` for a path that starts with a directory separator.
      Drive-qualified Windows paths (`C:...`) are not modelled. */
  predicate IsRooted(path: string)
  {
    |path| > 0 && IsSeparator(path[0])
  }

  /** `Path.Combine(directory, name)`: a rooted `name` replaces the directory,
      an empty side yields the other, and otherwise a separator joins the two
      unless the directory already ends in one. */
  function Combine(directory: string, name: string): string
  {
    if |name| == 0 then directory
    else if IsRooted(name) || |directory| == 0 then name
    else if IsSeparator(directory[|directory| - 1]) then directory + name
    else directory + "/" + name
  }

  /** `Path.GetFileNameWithoutExtension` of a non-null path: the last path
      segment without its last extension. */
  function FileNameWithoutExtension(path: string): string
  {
    var file := path[LastIndex(path, false) + 1..];
    var dot := LastIndex(file, true);
    if dot < 0 then file else file[..dot]
  }

  /** A character sequence that `LastIndex` cannot stop inside. */
  lemma {:induction false} LastIndexSkipsSuffix(a: string, b: string, dot: bool)
    requires forall k :: 0 <= k < |b| ==> !(if dot then b[k] == '.' else IsSeparator(b[k]))
    ensures LastIndex(a + b, dot) == LastIndex(a, dot)
    decreases |b|
  {
    if |b| > 0 {
      var ab := a + b;
      assert ab[..|ab| - 1] == a + b[..|b| - 1];
      LastIndexSkipsSuffix(a, b[..|b| - 1], dot);
    } else {
      assert a + b == a;
    }
  }

  /** The file the loader looks up for a module name, `<directory>/<name>.dll`
      or `<directory>/<name>/<name>.dll`, yields that name back, provided the
      name holds no path separator. A dotted name such as `My.Module` is
      no exception: only the `.dll` the loader appends is stripped. */
  lemma NameOfModuleFile(directory: string, name: string)
    requires forall k :: 0 <= k < |name| ==> !IsSeparator(name[k])
    ensures FileNameWithoutExtension(Combine(directory, name + ".dll")) == name
    ensures FileNameWithoutExtension(Combine(Combine(directory, name), name + ".dll")) == name
  {
    FileOf(directory, name);
    FileOf(Combine(directory, name), name);
  }

  lemma {:induction false} FileOf(directory: string, name: string)
    requires forall k :: 0 <= k < |name| ==> !IsSeparator(name[k])
    ensures FileNameWithoutExtension(Combine(directory, name + ".dll")) == name
  {
    var leaf := name + ".dll";
    assert !IsRooted(leaf) by { assert leaf[0] == if |name| > 0 then name[0] else '.'; }
    var prefix := JoinPrefix(directory);
    JoinPrefixEnds(directory);
    var path := prefix + leaf;
    assert Combine(directory, leaf) == path;
    LastIndexSkipsSuffix(prefix, leaf, false);
    assert path[|prefix|..] == leaf;
    LeafName(name);
  }

  /** What `Combine` puts in front of a non-empty relative name. */
  function JoinPrefix(directory: string): string
  {
    if |directory| == 0 then "" else if IsSeparator(directory[|directory| - 1]) then directory else directory + "/"
  }

  lemma JoinPrefixEnds(directory: string)
    ensures LastIndex(JoinPrefix(directory), false) == |JoinPrefix(directory)| - 1
  {
  }

  lemma {:induction false} LeafName(name: string)
    requires forall k :: 0 <= k < |name| ==> !IsSeparator(name[k])
    ensures FileNameWithoutExtension(name + ".dll") == name
  {
    var leaf := name + ".dll";
    LastIndexSkipsSuffix("", leaf, false);
    assert "" + leaf == leaf;
    assert leaf == (name + ".") + "dll";
    LastIndexSkipsSuffix(name + ".", "dll", true);
    assert (name + ".")[..|name|] == name;
    assert leaf[..|name|] == name;
  }

  /** The module record. Directory layout, shadow copies and assembly
      loading are file-system work outside this model. */
  class ModuleInfo {
    const Name: string
    var ParentFile: string

    /** The constructor as evidently intended (lines 29-37): the name is the
        module file's name without extension. */
    constructor(moduleFile: string)
      ensures ParentFile == moduleFile
      ensures Name == FileNameWithoutExtension(moduleFile)
    {
      ParentFile := moduleFile;
      Name := FileNameWithoutExtension(moduleFile);
    }
  }

  /** The fields the constructor sets, each null (`None`) until assigned. */
  datatype RecordFields = RecordFields(
    Name: Option<string>,
    ParentFile: Option<string>,
    ModuleDirectory: Option<string>)

  /** The constructor as written (lines 29-33), step by step from a record
      whose fields are all null: `ParentFile` is set, then `Name` is computed
      from `Name` itself, still null, so it stays null; combining the core
      module directory with the null name throws `ArgumentNullException` for
      `path2`. On success the result would be the record up to its module
      directory. */
  function ConstructAsWritten(coreDirectory: string, moduleFile: string): (r: Result<RecordFields>)
  {
    var unset := RecordFields(None, None, None);
    var withFile := unset.(ParentFile := Some(moduleFile));
    var withName := withFile.(Name := NameAsWritten(withFile.Name));
    match withName.Name
    case None => Failure(ArgumentNull("path2"))
    case Some(n) => Success(withName.(ModuleDirectory := Some(Combine(coreDirectory, n))))
  }

  /** `Path.GetFileNameWithoutExtension` of a possibly null path. */
  function NameAsWritten(path: Option<string>): Option<string>
  {
    match path
    case None => None
    case Some(p) => Some(FileNameWithoutExtension(p))
  }

  /** Every module file, however well formed, fails to produce a record,
      whereas reading `ParentFile` at line 32 gives the name the corrected
      constructor stores. */
  lemma ConstructAsWrittenAlwaysFails(coreDirectory: string, moduleFile: string)
    ensures ConstructAsWritten(coreDirectory, moduleFile) == Failure(ArgumentNull("path2"))
    ensures NameAsWritten(Some(moduleFile)) == Some(FileNameWithoutExtension(moduleFile))
  {
  }
}
