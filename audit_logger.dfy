/**
 * The audit log: one JSON document per line, appended to a file named after
 * the current UTC day under `<base>\WindowsOperator\logs`.
 */
module AuditLogger {
  import opened Wrappers
  import opened Text
  import opened Calendar
  import opened FileSystem

  const LineFeed: byte := 10
  const DirectoryNotFound: string := "Could not find a part of the path"

  /** How many times byte `b` occurs in `s`. */
  function CountByte(s: seq<byte>, b: byte): (n: nat)
    ensures n <= |s|
  {
    if s == [] then 0 else CountByte(s[..|s| - 1], b) + (if s[|s| - 1] == b then 1 else 0)
  }

  /** Counting is additive over concatenation. */
  lemma {:induction false} CountByteAppend(s: seq<byte>, t: seq<byte>, b: byte)
    ensures CountByte(s + t, b) == CountByte(s, b) + CountByte(t, b)
    decreases |t|
  {
    if t == [] {
      assert s + t == s;
    } else {
      assert (s + t)[..|s + t| - 1] == s + t[..|t| - 1];
      CountByteAppend(s, t[..|t| - 1], b);
    }
  }

  /** A path made of `Combine(_, "logs")` ends in `logs`. */
  lemma CombineLogsEndsInLogs(first: string)
    ensures var p := Combine(first, "logs"); |p| >= 4 && p[|p| - 4..] == "logs"
  {
    assert !IsRooted("logs");
  }

  class AuditLogger {
    /** The base directory: the given one, or the local application-data folder. */
    const local: string
    const logDir: string := Combine(Combine(local, "WindowsOperator"), "logs")
    /** `Environment.NewLine`, encoded. */
    const newLine: seq<byte>

    /** The log directory is `<base>\WindowsOperator\logs`, created at once with its ancestors. */
    constructor(disk: Disk, baseDir: Option<string>, localAppData: string, newLine: seq<byte>)
      modifies disk
      ensures logDir == Combine(Combine(baseDir.GetOr(localAppData), "WindowsOperator"), "logs")
      ensures this.newLine == newLine
      ensures disk.dirs == old(disk.dirs) + AncestorsAndSelf(logDir)
      ensures disk.files == old(disk.files)
      ensures logDir in disk.dirs
    {
      local := baseDir.GetOr(localAppData);
      this.newLine := newLine;
      new;
      disk.CreateDirectory(logDir);
    }

    /** The file of one UTC day, `<logDir>\yyyyMMdd.jsonl`: its name ends the path. */
    function DayFile(utcNow: Date): (path: string)
      requires ValidDate(utcNow)
      ensures |path| >= 14 && path[|path| - 14..] == Compact(utcNow) + ".jsonl"
    {
      var name := Compact(utcNow) + ".jsonl";
      assert IsDigit(name[0]) && IsDigit(name[1]);
      Combine(logDir, name)
    }

    /**
     * Appends the serialized entry and a line break to the day's file; the
     * file is created if missing, but a missing log directory is an error.
     */
    method Log(disk: Disk, serialized: seq<byte>, utcNow: Date) returns (r: Result<(), string>)
      requires ValidDate(utcNow)
      modifies disk
      ensures logDir !in old(disk.dirs) ==> r == Failure(DirectoryNotFound) && unchanged(disk)
      ensures logDir in old(disk.dirs) ==>
                && r == Success(())
                && disk.files == old(disk.files)[DayFile(utcNow) :=
                                   Contents(old(disk.files), DayFile(utcNow)) + serialized + newLine]
                && disk.dirs == old(disk.dirs)
    {
      if logDir !in disk.dirs {
        return Failure(DirectoryNotFound);
      }
      var path := DayFile(utcNow);
      var before := Contents(disk.files, path);
      disk.Append(path, serialized + newLine);
      assert before + (serialized + newLine) == before + serialized + newLine;
      return Success(());
    }
  }

  /** The day file sits directly in the log directory under the name `yyyyMMdd.jsonl`. */
  lemma DayFileSplits(logger: AuditLogger, d: Date)
    requires ValidDate(d)
    ensures DirectoryName(logger.DayFile(d)) == Some(logger.logDir)
    ensures FileName(logger.DayFile(d)) == Compact(d) + ".jsonl"
  {
    var dir := logger.logDir;
    CombineLogsEndsInLogs(Combine(logger.local, "WindowsOperator"));
    assert dir[|dir| - 1] == "logs"[3];
    var name := Compact(d) + ".jsonl";
    forall i | 0 <= i < |name|
      ensures !IsSeparator(name[i]) && name[i] != ':'
    {
      if i < 8 {
        assert IsDigit(Compact(d)[i]);
      } else {
        assert name[i] == ".jsonl"[i - 8];
      }
    }
    CombineSplits(dir, name);
  }

  /** Entries of different days go to different files. */
  lemma DayFileInjective(logger: AuditLogger, d1: Date, d2: Date)
    requires ValidDate(d1) && ValidDate(d2) && d1 != d2
    ensures logger.DayFile(d1) != logger.DayFile(d2)
  {
    var p1, p2 := logger.DayFile(d1), logger.DayFile(d2);
    CompactInjective(d1, d2);
    assert p1[|p1| - 14..][..8] == Compact(d1);
    assert p2[|p2| - 14..][..8] == Compact(d2);
  }

  /**
   * With a line break holding exactly one line feed and an entry holding
   * none (JSON escapes them), every logged entry adds exactly one line.
   */
  lemma LogAddsOneLine(before: seq<byte>, serialized: seq<byte>, newLine: seq<byte>)
    requires CountByte(serialized, LineFeed) == 0
    requires CountByte(newLine, LineFeed) == 1
    ensures CountByte(before + serialized + newLine, LineFeed) == CountByte(before, LineFeed) + 1
  {
    CountByteAppend(before, serialized, LineFeed);
    CountByteAppend(before + serialized, newLine, LineFeed);
  }
}
