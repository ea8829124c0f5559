/**
 * The sandboxed file tool: every operation canonicalises its path and refuses
 * it, before touching the disk, unless it starts with the sandbox root.
 */
module FileTools {
  import opened Wrappers
  import opened Text
  import opened ToolResults
  import opened FileSystem

  const PathOutsideSandbox: string := "Path outside sandbox"
  const NoDirectory: string := "Path has no directory"
  const FileExists: string := "File exists"
  const DefaultMaxBytes: int := 1_048_576

  /** What a read returns: the bytes (null when missing) and whether the file was there. */
  datatype ReadResult = ReadResult(content: Option<seq<byte>>, success: bool)

  /** `bytes.Take(maxBytes)` applied when the file is longer than the cap. */
  function Truncate(bytes: seq<byte>, maxBytes: int): (r: seq<byte>)
    ensures |r| == (if maxBytes <= 0 then 0 else if |bytes| <= maxBytes then |bytes| else maxBytes)
    ensures r == bytes[..|r|]
  {
    if |bytes| > maxBytes then bytes[..if maxBytes < 0 then 0 else maxBytes] else bytes
  }

  class FileTools {
    const sandbox: string
    /** `Path.GetFullPath`, the platform's canonicalisation. */
    const fullPath: string -> string

    /** The sandbox is the given directory, or the user's profile directory by default. */
    constructor(sandbox: Option<string>, userProfile: string, fullPath: string -> string)
      ensures this.sandbox == sandbox.GetOr(userProfile) && this.fullPath == fullPath
    {
      this.sandbox := sandbox.GetOr(userProfile);
      this.fullPath := fullPath;
    }

    /**
     * The canonical path, when it starts with the sandbox string ignoring
     * case; otherwise the "outside sandbox" error the source throws.
     */
    function Sanitize(path: string): (r: Result<string, string>)
      ensures r.Success? <==> StartsWith(Lower(fullPath(path)), Lower(sandbox))
      ensures r.Success? ==> r.value == fullPath(path)
      ensures r.Failure? ==> r.error == PathOutsideSandbox
    {
      var full := fullPath(path);
      if StartsWithIgnoreCase(full, sandbox) then Success(full) else Failure(PathOutsideSandbox)
    }

    /**
     * Checks the path, creates its parent directory, then either refuses an
     * existing file (no `overwrite`) or stores exactly `content` there.
     */
    method Write(disk: Disk, path: string, content: seq<byte>, overwrite: bool := false)
      returns (r: Result<ToolResult, string>)
      modifies disk
      ensures Sanitize(path).Failure? ==> r == Failure(PathOutsideSandbox) && unchanged(disk)
      ensures Sanitize(path).Success? && DirectoryName(fullPath(path)) in {None, Some("")} ==>
                r == Failure(NoDirectory) && unchanged(disk)
      ensures Sanitize(path).Success? && DirectoryName(fullPath(path)) !in {None, Some("")} ==>
                && disk.dirs == old(disk.dirs) + AncestorsAndSelf(DirectoryName(fullPath(path)).value)
                && if !overwrite && fullPath(path) in old(disk.files) then
                     r == Success(ToolResult(false, stderr := Some(FileExists))) && disk.files == old(disk.files)
                   else
                     r == Success(ToolResult(true)) && disk.files == old(disk.files)[fullPath(path) := content]
    {
      var sanitized := Sanitize(path);
      if sanitized.Failure? {
        return Failure(sanitized.error);
      }
      var full := sanitized.value;
      var dir := DirectoryName(full);
      if dir == None || dir == Some("") {
        return Failure(NoDirectory);
      }
      disk.CreateDirectory(dir.value);
      if !overwrite && full in disk.files {
        return Success(ToolResult(false, stderr := Some(FileExists)));
      }
      disk.WriteAllBytes(full, content);
      return Success(ToolResult(true));
    }

    /** Reads a file under the sandbox, truncated to at most `maxBytes` bytes. */
    function Read(disk: Disk, path: string, maxBytes: int := DefaultMaxBytes): (r: Result<ReadResult, string>)
      reads disk
      ensures r.Failure? <==> Sanitize(path).Failure?
      ensures r.Failure? ==> r.error == PathOutsideSandbox
      ensures r.Success? ==> (r.value.success <==> fullPath(path) in disk.files)
      ensures r.Success? && !r.value.success ==> r.value.content == None
      ensures r.Success? && r.value.success ==>
                r.value.content == Some(Truncate(disk.files[fullPath(path)], maxBytes))
    {
      var sanitized := Sanitize(path);
      if sanitized.Failure? then Failure(sanitized.error)
      else if sanitized.value !in disk.files then Success(ReadResult(None, false))
      else Success(ReadResult(Some(Truncate(disk.files[sanitized.value], maxBytes)), true))
    }

    /**
     * The full paths of the immediate children of a directory under the
     * sandbox whose names match `pattern` (default `*`); none when the
     * directory does not exist.
     */
    function ListDir(disk: Disk, path: string, pattern: Option<string> := None): (r: Result<set<string>, string>)
      reads disk
      ensures r.Failure? <==> Sanitize(path).Failure?
      ensures r.Success? && fullPath(path) !in disk.dirs ==> r.value == {}
      ensures r.Success? ==> forall e :: e in r.value <==>
                && fullPath(path) in disk.dirs
                && (e in disk.files || e in disk.dirs)
                && DirectoryName(e) == Some(fullPath(path))
                && Matches(pattern.GetOr("*"), FileName(e))
    {
      var sanitized := Sanitize(path);
      if sanitized.Failure? then Failure(sanitized.error)
      else
        var full := sanitized.value;
        if full !in disk.dirs then Success({})
        else Success(set e | e in disk.files.Keys + disk.dirs
                               && DirectoryName(e) == Some(full)
                               && Matches(pattern.GetOr("*"), FileName(e)))
    }
  }

  /** A canonical path that spells the sandbox, in any letter case, and goes on passes the check. */
  lemma UnderSandboxPasses(tool: FileTools, path: string, rest: string)
    requires Lower(tool.fullPath(path)) == Lower(tool.sandbox + rest)
    ensures tool.Sanitize(path).Success?
  {
    StartsWithIgnoreCaseAppend(tool.sandbox, rest);
  }

  /** The check is a plain prefix test: a sibling directory such as `<sandbox>-other` passes too. */
  lemma SiblingDirectoryPasses(tool: FileTools, path: string, rest: string)
    requires tool.fullPath(path) == tool.sandbox + "-other" + rest
    ensures tool.Sanitize(path).Success?
  {
    assert tool.sandbox + "-other" + rest == tool.sandbox + ("-other" + rest);
    UnderSandboxPasses(tool, path, "-other" + rest);
  }

  /** With no pattern, listing an existing directory returns every immediate child. */
  lemma ListDirDefaultListsAll(tool: FileTools, disk: Disk, path: string, e: string)
    requires tool.Sanitize(path).Success? && tool.fullPath(path) in disk.dirs
    requires e in disk.files || e in disk.dirs
    requires DirectoryName(e) == Some(tool.fullPath(path))
    ensures e in tool.ListDir(disk, path).value
  {
    StarMatchesAll(FileName(e));
  }

  /** A read never returns more than the cap, and returns the whole file when it fits. */
  lemma ReadWholeFileWhenSmall(tool: FileTools, disk: Disk, path: string, maxBytes: int)
    requires tool.Sanitize(path).Success? && tool.fullPath(path) in disk.files
    requires |disk.files[tool.fullPath(path)]| <= maxBytes
    ensures tool.Read(disk, path, maxBytes) == Success(ReadResult(Some(disk.files[tool.fullPath(path)]), true))
  {
    var bytes := disk.files[tool.fullPath(path)];
    assert Truncate(bytes, maxBytes) == bytes[..|bytes|] == bytes;
  }

  /** Writing with `overwrite` and reading back returns the written bytes. */
  method WriteThenRead(tool: FileTools, disk: Disk, path: string, content: seq<byte>)
    returns (written: Result<ToolResult, string>, read: Result<ReadResult, string>)
    requires tool.Sanitize(path).Success? && DirectoryName(tool.fullPath(path)) !in {None, Some("")}
    requires |content| <= DefaultMaxBytes
    modifies disk
    ensures written == Success(ToolResult(true))
    ensures read == Success(ReadResult(Some(content), true))
  {
    written := tool.Write(disk, path, content, true);
    read := tool.Read(disk, path);
    ReadWholeFileWhenSmall(tool, disk, path, DefaultMaxBytes);
  }
}
