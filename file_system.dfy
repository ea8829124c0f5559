/**
 * The host file system as the tools see it: Windows path strings, and a disk
 * holding byte files and a set of directories.
 */
module FileSystem {
  import opened Wrappers
  import Text

  newtype byte = b: int | 0 <= b < 256

  // ---------------------------------------------------------------- paths

  /** Windows accepts both separators. */
  predicate IsSeparator(c: char) {
    c == '\\' || c == '/'
  }

  /** A drive: an ASCII letter followed by a colon. */
  predicate HasDrive(p: string) {
    |p| >= 2 && ('a' <= p[0] <= 'z' || 'A' <= p[0] <= 'Z') && p[1] == ':'
  }

  /** `Path.IsPathRooted` on Windows: a leading separator or a drive letter and colon. */
  predicate IsRooted(p: string) {
    (|p| >= 1 && IsSeparator(p[0])) || HasDrive(p)
  }

  /**
   * `Path.Combine(first, second)`: a rooted `second` replaces `first`; an
   * empty side yields the other; otherwise one `\` goes between them unless
   * either side already has a separator there.
   */
  function Combine(first: string, second: string): (r: string)
    ensures IsRooted(second) || first == [] ==> r == second
    ensures !IsRooted(second) && first != [] ==>
              && |first| + |second| <= |r| <= |first| + |second| + 1
              && r[..|first|] == first && r[|r| - |second|..] == second
  {
    if IsRooted(second) || first == [] then second
    else if second == [] then first
    else if IsSeparator(first[|first| - 1]) || IsSeparator(second[0]) then first + second
    else first + "\\" + second
  }

  /** The index of the last separator of `p`, or -1 when it has none. */
  function LastSeparator(p: string): (k: int)
    ensures -1 <= k < |p|
    ensures k >= 0 ==> IsSeparator(p[k])
    ensures forall j :: k < j < |p| ==> !IsSeparator(p[j])
  {
    if p == [] then -1
    else if IsSeparator(p[|p| - 1]) then |p| - 1
    else LastSeparator(p[..|p| - 1])
  }

  /**
   * The length of the root of a Windows path: `X:\` (3), `X:` (2), a leading
   * separator (1), or none (0).
   */
  function RootLength(p: string): (n: nat)
    ensures n <= |p|
  {
    if HasDrive(p) && |p| >= 3 && IsSeparator(p[2]) then 3
    else if HasDrive(p) then 2
    else if |p| >= 1 && IsSeparator(p[0]) then 1
    else 0
  }

  /**
   * `Path.GetDirectoryName`: null (None) for a bare root; otherwise everything
   * before the last separator, keeping the root whole; "" for a name without
   * any directory part.
   */
  function DirectoryName(p: string): (r: Option<string>)
    ensures r.None? <==> |p| <= RootLength(p)
    ensures r.Some? ==> RootLength(p) <= |r.value| < |p| && r.value == p[..|r.value|]
  {
    var root := RootLength(p);
    var k := LastSeparator(p);
    if |p| <= root then None
    else if k < root then Some(p[..root])
    else Some(p[..k])
  }

  /** `Path.GetFileName`: the suffix after the last separator, which holds no separator. */
  function FileName(p: string): (r: string)
    ensures |r| <= |p| && r == p[|p| - |r|..]
    ensures forall i :: 0 <= i < |r| ==> !IsSeparator(r[i])
    ensures |r| < |p| ==> IsSeparator(p[|p| - |r| - 1])
  {
    p[LastSeparator(p) + 1..]
  }

  /** A plain file name: no separator and no drive colon. */
  predicate IsPlainName(name: string) {
    name != [] && forall i :: 0 <= i < |name| ==> !IsSeparator(name[i]) && name[i] != ':'
  }

  /**
   * Combining a directory with a plain name and splitting the result again
   * gives back the directory and the name.
   */
  lemma CombineSplits(dir: string, name: string)
    requires dir != [] && RootLength(dir) < |dir| && !IsSeparator(dir[|dir| - 1])
    requires IsPlainName(name)
    ensures Combine(dir, name) == dir + "\\" + name
    ensures DirectoryName(Combine(dir, name)) == Some(dir)
    ensures FileName(Combine(dir, name)) == name
  {
    var p := dir + "\\" + name;
    assert !IsRooted(name) && !IsSeparator(name[0]);
    assert p[|dir|] == '\\';
    forall j | |dir| < j < |p|
      ensures !IsSeparator(p[j])
    {
      assert p[j] == name[j - |dir| - 1];
    }
    var k := LastSeparator(p);
    assert k == |dir|;
    assert RootLength(p) <= |dir| by {
      if |dir| < 3 {
        assert p[1] == (if |dir| == 1 then '\\' else dir[1]);
      }
    }
    assert p[..|dir|] == dir;
    assert p[|dir| + 1..] == name;
  }

  /**
   * A directory and every ancestor `Directory.CreateDirectory` creates along
   * with it, up to but not including the root.
   */
  function AncestorsAndSelf(dir: string): (s: set<string>)
    ensures dir in s
    ensures forall a :: a in s ==> RootLength(dir) < |a| <= |dir| || a == dir
  {
    {dir} + set i | RootLength(dir) < i < |dir| && IsSeparator(dir[i]) :: dir[..i]
  }

  /**
   * Literal wildcard matching of a file name, ignoring ASCII case: `*`
   * matches any run of characters and `?` exactly one character; every other
   * character matches itself in either case. A pattern without `*` matches
   * only names of its own length. The extra Win32 rules for `?`, `.` and
   * `*.*` are not part of this definition (see LiteralWildcards).
   */
  function Matches(pattern: string, name: string): (r: bool)
    ensures r && '*' !in pattern ==> |name| == |pattern|
    decreases |pattern| + |name|
  {
    if pattern == [] then name == []
    else if pattern[0] == '*' then
      Matches(pattern[1..], name) || (name != [] && Matches(pattern, name[1..]))
    else
      assert '*' !in pattern ==> '*' !in pattern[1..];
      name != [] && (pattern[0] == '?' || Text.LowerChar(pattern[0]) == Text.LowerChar(name[0]))
      && Matches(pattern[1..], name[1..])
  }

  /** Matching does not see the case of the name. */
  lemma {:induction false} MatchesIgnoresCase(pattern: string, name: string)
    ensures Matches(pattern, Text.Lower(name)) == Matches(pattern, name)
    decreases |pattern| + |name|
  {
    var low := Text.Lower(name);
    if name != [] {
      Text.LowerSlice(name, 1, |name|);
      assert low[1..] == Text.Lower(name[1..]);
      assert Text.LowerChar(low[0]) == Text.LowerChar(name[0]);
    }
    if pattern != [] {
      if pattern[0] == '*' {
        MatchesIgnoresCase(pattern[1..], name);
        if name != [] {
          MatchesIgnoresCase(pattern, name[1..]);
        }
      } else if name != [] {
        MatchesIgnoresCase(pattern[1..], name[1..]);
      }
    }
  }

  /** `*.TXT` lists `a.txt`. */
  lemma UpperCaseExtensionMatches()
    ensures Matches("*.TXT", "a.txt")
  {
    assert Matches("TXT", "txt");
    assert Matches(".TXT", ".txt");
    assert Matches("*.TXT", ".txt");
  }

  /** The pattern is read literally: `?` always takes one character and `*.*` needs a dot. */
  lemma LiteralWildcards()
    ensures !Matches("a?", "a")
    ensures !Matches("a?.txt", "a.txt")
    ensures !Matches("*.*", "README")
  {
    assert !Matches(".*", "");
    assert !Matches("?.txt", ".txt") by {
      assert !Matches(".txt", "txt");
    }
  }

  /** The default pattern `*` lists every name. */
  lemma {:induction false} StarMatchesAll(name: string)
    ensures Matches("*", name)
  {
    if name != [] {
      StarMatchesAll(name[1..]);
    }
  }

  // ---------------------------------------------------------------- the disk

  class Disk {
    var files: map<string, seq<byte>>
    var dirs: set<string>

    constructor(files: map<string, seq<byte>>, dirs: set<string>)
      ensures this.files == files && this.dirs == dirs
    {
      this.files := files;
      this.dirs := dirs;
    }

    /** `Directory.CreateDirectory`: the directory and its missing ancestors now exist. */
    method CreateDirectory(dir: string)
      modifies this
      ensures dirs == old(dirs) + AncestorsAndSelf(dir)
      ensures files == old(files)
    {
      dirs := dirs + AncestorsAndSelf(dir);
    }

    /** `File.WriteAllBytes`: the file holds exactly `content`, created or replaced. */
    method WriteAllBytes(path: string, content: seq<byte>)
      modifies this
      ensures files == old(files)[path := content]
      ensures dirs == old(dirs)
    {
      files := files[path := content];
    }

    /** `File.AppendAllText` with the text already encoded: the file grows by `tail`. */
    method Append(path: string, tail: seq<byte>)
      modifies this
      ensures files == old(files)[path := Contents(old(files), path) + tail]
      ensures dirs == old(dirs)
    {
      files := files[path := Contents(files, path) + tail];
    }
  }

  /** The bytes of a file, or nothing for a missing file. */
  function Contents(files: map<string, seq<byte>>, path: string): seq<byte> {
    if path in files then files[path] else []
  }
}
