# Windows operator tool layer and KalmCount, modelled in Dafny

The repository holds two unrelated programs, and this project models the
sequential core of each.

**The Windows operator tool layer (C#).** It has five parts:
- a keyword risk classifier;
- a rule-based example planner;
- a sandboxed file tool (write, read, list);
- the `ToolResult` envelope every tool returns, and the UI-automation stubs;
- the day-partitioned JSON-lines audit logger.

The file system is a `Disk` class: a map from full path to bytes, plus a set
of directories. `FileTools` and `AuditLogger` are classes whose methods
change the disk and whose functions read it. .NET's `Path.Combine`,
`Path.GetDirectoryName` and `Path.GetFileName` are written out for
Windows-style separators. `Path.GetFullPath` is a function the tool is
constructed with.

**The KalmCount wellness app (TypeScript/React).** It has these parts:
- the Kalm score (streak, weighted mood momentum, activity bonus) and the per-day activity log;
- the dose counter with its edit field, the progress colour, and the mood check-in;
- the mantra carousel with its legacy migration, and the guided reflection chat and journal;
- the shipment tracking URL;
- the footer's backup, restore and backup reminder.

React state becomes class fields, updated by methods with `modifies`
clauses. `localStorage` is a string-to-string map. Calendar days are integer
day numbers. The app's `YYYY-MM-DD` and the logger's `yyyyMMdd` formats are
written out in `Calendar`, with their parsers and round-trip lemmas.

Modules:
- Shared helpers:
  - `Wrappers`: `Option`, `Result`.
  - `Text`: case mapping, substring search, ECMAScript `trim`, decimal digits and `parseInt`.
  - `Calendar`: dates and their formats.
- C# side: `FileSystem`, `ToolResults`, `UIAutomationTools`, `RiskEvaluator`, `ExamplePlanner`, `FileTools`, `AuditLogger`.
- App side: `Types`, `Constants`, `App`, `DoseTracker`, `SessionCompanion`, `ShipmentTracker`, `Footer`.

The sandbox check in `FileTools` is a case-insensitive string prefix, with
no directory-boundary check. The model keeps that behaviour, and
`FileTools.SiblingDirectoryPasses` states it: `<sandbox>-other\...` passes.

## Model

| member | source | states |
|---|---|---|
| RiskEvaluator.AnyContained | src/WindowsOperator.Core/RiskEvaluator.cs:16 | true exactly when some keyword of the list occurs in the text |
| RiskEvaluator.IsHighRisk | src/WindowsOperator.Core/RiskEvaluator.cs:8-17 | high risk iff the text, lower-cased in ASCII, has one of uninstall, registry, delete, format, shutdown, firewall at some position |
| RiskEvaluator.UpperCaseDoesNotMatter | src/WindowsOperator.Core/RiskEvaluator.cs:15 | upper-casing the input never changes the verdict |
| RiskEvaluator.ReformatIsHighRisk | src/WindowsOperator.Core/RiskEvaluator.cs:16 | matching is by substring, so "reformat" is flagged through "format" |
| RiskEvaluator.Monotone | src/WindowsOperator.Core/RiskEvaluator.cs:16 | any text containing a high-risk text is high risk |
| RiskEvaluator.EmptyIsNotHighRisk | src/WindowsOperator.Core/RiskEvaluator.cs:16 | the empty string is not high risk |
| RiskEvaluator.PleaseUninstallIsHighRisk | tests/WindowsOperator.Tests/RiskEvaluatorTests.cs:11 | "Please uninstall FooApp" is high risk |
| ExamplePlanner.Tools | src/WindowsOperator.Core/ExamplePlanner.cs:11 | the tool names of a plan, one per step, in order |
| ExamplePlanner.Plan | src/WindowsOperator.Core/ExamplePlanner.cs:16-38 | the plan is empty exactly when the request holds none of the three triggers in any case, and has at most four steps |
| ExamplePlanner.NotepadRequest | src/WindowsOperator.Core/ExamplePlanner.cs:18-24 | any request containing "open notepad" in any case (even with other triggers) gets open_app, type_text, file_write, open_app, the write targeting Desktop/hello.txt with overwrite true |
| ExamplePlanner.ZipRequest | src/WindowsOperator.Core/ExamplePlanner.cs:25-29 | a "zip" request without the Notepad trigger gets run_powershell then open_app |
| ExamplePlanner.UninstallRequest | src/WindowsOperator.Core/ExamplePlanner.cs:30-33 | an "uninstall" request without earlier triggers gets one run_powershell step whose command is high risk |
| ExamplePlanner.UnknownRequest | src/WindowsOperator.Core/ExamplePlanner.cs:34-37 | a request with no trigger gets the empty plan |
| ExamplePlanner.TriggerAnywhere | src/WindowsOperator.Core/ExamplePlanner.cs:18 | a trigger is found wherever it sits in the request |
| ExamplePlanner.NotepadScenario | tests/WindowsOperator.Tests/ExamplePlannerTests.cs:13-16 | the Notepad example request gets four steps starting open_app, type_text |
| ExamplePlanner.UninstallScenario | tests/WindowsOperator.Tests/ExamplePlannerTests.cs:23-26 | the uninstall example gets a single run_powershell step whose command is high risk |
| ExamplePlanner.UninstallScenarioLacksOtherTriggers | tests/WindowsOperator.Tests/ExamplePlannerTests.cs:23 | the uninstall example contains neither "open notepad" nor "zip" in any case |
| ToolResults.DefaultsWhenOmitted | src/WindowsOperator.Core/Tools/ToolResult.cs:6 | an envelope built from Success alone has no stdout, no stderr, exit code 0 and no duration |
| UIAutomationTools.FocusWindow | src/WindowsOperator.Core/Tools/UIAutomationTools.cs:8-9 | for any arguments: failure whose only message is "UI automation not available on this platform"; other members at their defaults |
| UIAutomationTools.UiFind | src/WindowsOperator.Core/Tools/UIAutomationTools.cs:11-12 | the same failure envelope for any arguments |
| UIAutomationTools.UiClick | src/WindowsOperator.Core/Tools/UIAutomationTools.cs:14-15 | the same failure envelope for any path |
| UIAutomationTools.TypeText | src/WindowsOperator.Core/Tools/UIAutomationTools.cs:17-18 | failure with "SendInput not available on this platform", other members at their defaults |
| UIAutomationTools.Hotkey | src/WindowsOperator.Core/Tools/UIAutomationTools.cs:20-21 | the same SendInput failure for any keys |
| FileSystem.LastSeparator | src/WindowsOperator.Core/Tools/FileTools.cs:28 | the index of the last path separator, or -1; no separator follows it |
| FileSystem.RootLength | src/WindowsOperator.Core/Tools/FileTools.cs:28 | the length of the path's root (drive and/or leading separator), never past the end |
| FileSystem.Combine | src/WindowsOperator.Core/AuditLogger.cs:15 | `Path.Combine`: a rooted second part or an empty first part gives the second part; else the first part, at most one separator, then the second part |
| FileSystem.DirectoryName | src/WindowsOperator.Core/Tools/FileTools.cs:28 | `Path.GetDirectoryName`: none for a bare root; else a proper prefix of the path that keeps its root |
| FileSystem.FileName | src/WindowsOperator.Core/Tools/FileTools.cs:50 | `Path.GetFileName`: the suffix after the last separator, holding no separator |
| FileSystem.Matches | src/WindowsOperator.Core/Tools/FileTools.cs:50 | literal `*`/`?` wildcard matching (`?` takes exactly one character, `*.*` needs a dot), ignoring ASCII case; a pattern without `*` only matches names of its own length |
| FileSystem.LiteralWildcards | src/WindowsOperator.Core/Tools/FileTools.cs:50 | the model reads patterns literally: `a?` does not match `a`, `a?.txt` does not match `a.txt`, `*.*` does not match `README` (where Windows matches all three) |
| FileSystem.MatchesIgnoresCase | src/WindowsOperator.Core/Tools/FileTools.cs:50 | lower-casing the name never changes whether it matches |
| FileSystem.UpperCaseExtensionMatches | src/WindowsOperator.Core/Tools/FileTools.cs:50 | `*.TXT` matches `a.txt` |
| FileSystem.CombineSplits | src/WindowsOperator.Core/AuditLogger.cs:21 | combining a directory with a plain file name joins them with one separator, and the directory and file name are read back from the result |
| FileSystem.AncestorsAndSelf | src/WindowsOperator.Core/Tools/FileTools.cs:29 | the directories that creating a directory brings into existence: the directory itself and its ancestors below the root |
| FileSystem.StarMatchesAll | src/WindowsOperator.Core/Tools/FileTools.cs:50 | the default search pattern `*` matches every name |
| FileSystem.Disk.CreateDirectory | src/WindowsOperator.Core/Tools/FileTools.cs:29 | adds the directory and its ancestors; no file changes |
| FileSystem.Disk.WriteAllBytes | src/WindowsOperator.Core/Tools/FileTools.cs:32 | the path holds exactly the content; every other file and all directories unchanged |
| FileSystem.Disk.Append | src/WindowsOperator.Core/AuditLogger.cs:23 | the file's old content (empty if absent) followed by the tail; nothing else changes |
| FileTools.Truncate | src/WindowsOperator.Core/Tools/FileTools.cs:41-42 | the first min(length, maxBytes) bytes, none for a non-positive limit |
| FileTools.FileTools.constructor | src/WindowsOperator.Core/Tools/FileTools.cs:12-15 | the sandbox is the given one, or the user profile when none is given |
| FileTools.FileTools.Sanitize | src/WindowsOperator.Core/Tools/FileTools.cs:17-23 | succeeds with the full path iff it starts with the sandbox, ignoring ASCII case; otherwise fails with "Path outside sandbox" |
| FileTools.FileTools.Write | src/WindowsOperator.Core/Tools/FileTools.cs:25-34 | outside the sandbox or without a directory: fails and the disk is untouched; else creates the directory (also when the write is then refused), refuses an existing file without overwrite with "File exists" leaving files as they were, and otherwise stores exactly the content and nothing else |
| FileTools.FileTools.Read | src/WindowsOperator.Core/Tools/FileTools.cs:36-44 | outside the sandbox fails; a missing file gives (null, false); an existing one its truncated content with true |
| FileTools.FileTools.ListDir | src/WindowsOperator.Core/Tools/FileTools.cs:46-52 | outside the sandbox fails; a missing directory gives nothing; else exactly the existing immediate children whose names match the pattern (default `*`) as `FileSystem.Matches` reads it literally, ignoring ASCII case |
| FileTools.UnderSandboxPasses | src/WindowsOperator.Core/Tools/FileTools.cs:20 | a full path that is the sandbox plus a suffix, in any case, passes the check |
| FileTools.SiblingDirectoryPasses | src/WindowsOperator.Core/Tools/FileTools.cs:20 | the check is a plain prefix: `<sandbox>-other\...` also passes |
| FileTools.ListDirDefaultListsAll | src/WindowsOperator.Core/Tools/FileTools.cs:50 | with no pattern, every immediate child of an existing directory is listed |
| FileTools.ReadWholeFileWhenSmall | src/WindowsOperator.Core/Tools/FileTools.cs:40-43 | a file no longer than the limit is read back whole |
| FileTools.WriteThenRead | tests/WindowsOperator.Tests/FileToolsTests.cs:20-24 | writing with overwrite then reading the same path succeeds and returns exactly the written bytes |
| AuditLogger.CountByte | src/WindowsOperator.Core/AuditLogger.cs:23 | the number of occurrences of a byte, never more than the length |
| AuditLogger.CountByteAppend | src/WindowsOperator.Core/AuditLogger.cs:23 | counting distributes over concatenation |
| AuditLogger.AuditLogger.constructor | src/WindowsOperator.Core/AuditLogger.cs:12-17 | the log directory is `<base or LocalAppData>\WindowsOperator\logs` and exists afterwards; no file changes |
| AuditLogger.AuditLogger.Log | src/WindowsOperator.Core/AuditLogger.cs:19-24 | appends the serialized entry and the newline to the UTC day's file; the old content stays a prefix; no other file or directory changes |
| AuditLogger.AuditLogger.DayFile | src/WindowsOperator.Core/AuditLogger.cs:21 | the day's file path ends with that day's `yyyyMMdd.jsonl` |
| AuditLogger.DayFileSplits | src/WindowsOperator.Core/AuditLogger.cs:21 | the day file lies directly in the log directory and is named `yyyyMMdd.jsonl` |
| AuditLogger.DayFileInjective | src/WindowsOperator.Core/AuditLogger.cs:21 | different days log to different files |
| AuditLogger.LogAddsOneLine | src/WindowsOperator.Core/AuditLogger.cs:22-23 | an entry without line feeds plus a one-line-feed newline adds exactly one line |
| Text.LowerOfUpper | src/WindowsOperator.Core/RiskEvaluator.cs:15 | lower-casing forgets any earlier upper-casing |
| Text.Lower | src/WindowsOperator.Core/RiskEvaluator.cs:15 | same length; ASCII capitals become their lower-case letter, every other character stays, no capital is left |
| Text.LowerOccurrences | src/WindowsOperator.Core/ExamplePlanner.cs:18 | the lower-cased text contains the lower-cased pattern exactly when the pattern occurs somewhere ignoring case |
| Text.ContainsIgnoreCase | src/WindowsOperator.Core/ExamplePlanner.cs:18 | `Contains(_, OrdinalIgnoreCase)`: true exactly when the pattern occurs at some position ignoring case |
| Text.StartsWithIgnoreCase | src/WindowsOperator.Core/Tools/FileTools.cs:20 | `StartsWith(_, OrdinalIgnoreCase)`: true exactly when the text is long enough and its prefix equals the pattern ignoring case |
| Text.LowerAppend | src/WindowsOperator.Core/RiskEvaluator.cs:15 | lower-casing distributes over concatenation |
| Text.LowerSlice | src/WindowsOperator.Core/RiskEvaluator.cs:15 | lower-casing commutes with slicing |
| Text.ContainsIff | src/WindowsOperator.Core/RiskEvaluator.cs:16 | substring search succeeds exactly when the pattern occurs at some position |
| Text.ContainsSelf | src/WindowsOperator.Core/RiskEvaluator.cs:16 | a text contains itself and the empty string |
| Text.OccursAtNested | src/WindowsOperator.Core/RiskEvaluator.cs:16 | an occurrence inside an occurrence is an occurrence at the summed offset |
| Text.ContainsTransitive | src/WindowsOperator.Core/RiskEvaluator.cs:16 | containment is transitive |
| Text.StartsWithIgnoreCaseAppend | src/WindowsOperator.Core/Tools/FileTools.cs:20 | a string starts with itself as prefix of any extension, ignoring case |
| Text.TrimStart | components/SessionCompanion.tsx:488 | never longer than its input |
| Text.TrimEnd | components/SessionCompanion.tsx:488 | never longer than its input |
| Text.TrimStartSpec | components/SessionCompanion.tsx:488 | removes exactly the leading whitespace: the result is a suffix whose first character is not whitespace |
| Text.TrimEndSpec | components/SessionCompanion.tsx:488 | removes exactly the trailing whitespace: the result is a prefix whose last character is not whitespace |
| Text.TrimIsSlice | components/SessionCompanion.tsx:490 | the trimmed text is a slice of the input that starts and ends with a non-whitespace character |
| Text.TrimIdempotent | components/SessionCompanion.tsx:490 | trimming twice equals trimming once |
| Text.TrimEmptyIff | components/SessionCompanion.tsx:488 | the text is blank iff every character is whitespace |
| Text.Trim | components/SessionCompanion.tsx:488 | never longer than its input; empty, or starting and ending with a non-whitespace character |
| Text.Join | components/SessionCompanion.tsx:775 | `Array.prototype.join`: "" for no parts; else starts with the first part and ends with the last |
| Text.JoinSnoc | components/SessionCompanion.tsx:775 | one part joins to itself, and each further part follows the joined text after exactly one separator |
| Text.DigitChar | components/DoseTracker.tsx:598 | a digit value becomes a decimal digit character |
| Text.DigitValue | components/DoseTracker.tsx:636 | the value of a digit character, inverse of DigitChar |
| Text.NatToString | components/DoseTracker.tsx:598 | a non-empty string of digits without a leading zero |
| Text.NatToStringValue | components/DoseTracker.tsx:598 | the digits printed for n denote n |
| Text.DigitPrefix | components/DoseTracker.tsx:636 | the longest prefix made of digits |
| Text.DigitPrefixOfDigits | components/DoseTracker.tsx:636 | an all-digit string is its own digit prefix |
| Text.ParseIntOfDigits | components/DoseTracker.tsx:636-637 | parseInt of a digit string is its value, and NaN for the empty string |
| Text.ParseIntOfNatToString | components/DoseTracker.tsx:636 | parseInt reads back a printed natural number |
| Text.IntToString | components/DoseTracker.tsx:598 | String(n): the digits of n, after a minus sign when negative |
| Text.ParseIntOfIntToString | components/DoseTracker.tsx:636 | parseInt(String(n)) == n for every integer |
| Text.ParseInt | components/DoseTracker.tsx:636 | `parseInt`: NaN for a blank text; a text starting with a digit gives a non-negative number |
| Calendar.Pow10 | src/WindowsOperator.Core/AuditLogger.cs:21 | powers of ten are positive |
| Calendar.Digits | src/WindowsOperator.Core/AuditLogger.cs:21 | a zero-padded field of exactly w digits |
| Calendar.DigitsRoundTrip | src/WindowsOperator.Core/AuditLogger.cs:21 | a w-digit field denotes n modulo 10^w |
| Calendar.DigitsOfSmall | src/WindowsOperator.Core/AuditLogger.cs:21 | a number below 10^w is read back from its w-digit field |
| Calendar.Compact | src/WindowsOperator.Core/AuditLogger.cs:21 | `yyyyMMdd` is eight digits |
| Calendar.CompactRoundTrip | src/WindowsOperator.Core/AuditLogger.cs:21 | parsing `yyyyMMdd` gives back the date |
| Calendar.CompactInjective | src/WindowsOperator.Core/AuditLogger.cs:21 | different dates get different `yyyyMMdd` names |
| Calendar.Iso | components/Footer.tsx:24 | `YYYY-MM-DD` is ten characters with dashes at 4 and 7 |
| Calendar.IsoRoundTrip | components/Footer.tsx:15 | parsing `YYYY-MM-DD` gives back the date |
| Calendar.ParseIso | components/Footer.tsx:15 | a parsed date is valid and prints back as exactly the text read |
| Calendar.IsoOfFields | components/Footer.tsx:15 | printing the fields read from a well-formed ISO text gives the text back |
| Calendar.DigitsOfValue | components/Footer.tsx:15 | a digit field is recovered from its value and width |
| Calendar.DayNumber | App.tsx:52-53 | days since 1970-01-01, which has number 0 |
| Calendar.NextDay | App.tsx:58 | the following calendar day is a valid date |
| Calendar.YearLength | App.tsx:58 | from one March 1 to the next is 366 days when the February between is a leap one, else 365 |
| Calendar.DayNumberNextDay | App.tsx:58-61 | consecutive calendar days have consecutive day numbers, so "one day back" is "day number minus one" |
| App.InsertDesc | App.tsx:45 | inserting into a newest-first list keeps it newest-first and adds exactly the element |
| App.SortDesc | App.tsx:45 | the history sorted newest first, a permutation of the input |
| App.Run | App.tsx:56-68 | the length of the leading run of consecutive days, at least 1 for a non-empty list |
| App.RunIsConsecutive | App.tsx:58-67 | the run's logs are one day apart counting back from the first, and the run stops at the first gap |
| App.Streak | App.tsx:48-70 | 0 unless the newest log is from today or yesterday; then the length of the leading run of consecutive days, at least 1 |
| App.StreakIsConsecutiveDays | App.tsx:51-70 | the streak is non-zero exactly when the newest log is from today or yesterday; it counts consecutive days back from the newest log and stops at the first gap |
| App.StreakScore | App.tsx:71 | five points per day up to ten days, so 5 * min(streak, 10): exactly 50 from ten days on |
| App.Weight | App.tsx:85 | max(1, 8 - daysAgo): at least 1, and either 1 or 8 - daysAgo |
| App.Recent | App.tsx:74-75 | exactly the logs of the last seven days |
| App.RecentSingle | App.tsx:75 | a single log is kept exactly when it is from the last seven days |
| App.RecentConcat | App.tsx:75 | the filter distributes over concatenation, so order and copies are kept |
| App.RecentSnoc | App.tsx:75 | a log at the end is kept exactly when it is from the last seven days |
| App.TotalWeight | App.tsx:87 | at least one per log |
| App.WeightedMood | App.tsx:86 | 0 for no logs; with moods 0..5, between 0 and 5 times the total weight |
| App.WeightedMoodBounds | App.tsx:86 | with moods in [lo, hi], the weighted sum lies between lo and hi times the total weight |
| App.MoodScoreBounds | App.tsx:77-92 | with moods 1..5 the mood score lies in [0, 40], and in [8, 40] when there are recent logs |
| App.MoodScore | App.tsx:77-92 | 0 when there are no logs from the last seven days |
| App.MoodsInRangePermutation | App.tsx:45 | sorting keeps moods in range |
| App.ActivityCount | App.tsx:97 | at most 4, 0 iff nothing was done, 4 iff everything was |
| App.ActivityScore | App.tsx:95-99 | 2.5 per activity done today, between 0 and 10; 0 without a record for today |
| App.Round | App.tsx:101 | Math.round: the nearest integer, halves rounded up |
| App.ComputeStreak | App.tsx:48-70 | the loop computes exactly the streak |
| App.ComputeMoodScore | App.tsx:77-92 | the accumulating loop computes exactly the mood score |
| App.CalculateKalmScore | App.tsx:42-103 | (0, 0) for an empty history; otherwise the streak of the newest-first history, and in every case the score the loops compute equals KalmScore: min(100, round(streak points + mood momentum + activity points)), between 0 and 100 when moods are 1..5 |
| App.KalmScoreBounds | App.tsx:71-102 | with moods from 1 to 5 the final score lies between 0 and 100 |
| App.KalmScore | App.tsx:42-103 | 0 for an empty history and never above 100 |
| App.FinalScoreBounds | App.tsx:101-102 | streak points 0..50, mood 0..40 and activities 0..10 round and cap to a score from 0 to 100 |
| App.FindIndex | App.tsx:124 | the first index holding the day, or -1 when none does |
| App.FindDay | App.tsx:106 | the first record of the day in the list, or none when the list has none |
| App.MarkDone | App.tsx:132 | same day, with exactly the one activity added |
| App.FreshDay | App.tsx:135-142 | the day with only the one activity done |
| App.LogActivity | App.tsx:122-146 | unchanged if already done today; else today's record gets only that flag and every other record stays; without a record for today one is appended with only that activity |
| App.LogActivityMarksToday | App.tsx:122-146 | after logging, today's record exists and has the activity done |
| App.LogActivityIdempotent | App.tsx:128-129 | logging the same activity twice equals logging it once |
| DoseTracker.Decremented | components/DoseTracker.tsx:608 | count minus days, floored at 0 |
| DoseTracker.DecrementedCompose | components/DoseTracker.tsx:600-613 | catching up in two steps equals catching up once by the total |
| DoseTracker.GetProgressStyle | components/DoseTracker.tsx:568-591 | blue iff count > 10, yellow iff 5 < count <= 10, red iff count <= 5 |
| DoseTracker.ProgressStyleMonotone | components/DoseTracker.tsx:568-591 | fewer troches never give a calmer colour |
| DoseTracker.AcceptedBufferSavesSmallCount | components/DoseTracker.tsx:630-638 | a buffer the edit field accepted parses to a count from 0 to 999 |
| DoseTracker.DoseCounter.constructor | components/DoseTracker.tsx:594-598 | the stored count (default 30) and date (default today), not editing, buffer showing the count |
| DoseTracker.DoseCounter.SetCount | components/DoseTracker.tsx:615-617 | a changed count refreshes the edit buffer to its decimal text |
| DoseTracker.DoseCounter.CatchUp | components/DoseTracker.tsx:600-613 | after d > 0 days the count is max(0, count - d) and the date today; otherwise nothing changes |
| DoseTracker.DoseCounter.AddShipment | components/DoseTracker.tsx:619-626 | the count grows by exactly 30 |
| DoseTracker.DoseCounter.StartEditing | components/DoseTracker.tsx:716 | enters edit mode, nothing else changes |
| DoseTracker.DoseCounter.CountChange | components/DoseTracker.tsx:628-633 | accepts only digit strings of at most 3 characters, else the buffer stays |
| DoseTracker.DoseCounter.SaveCount | components/DoseTracker.tsx:635-641 | the count becomes max(0, parsed), an unparsable buffer is ignored, an untouched buffer keeps the count, and edit mode always ends |
| DoseTracker.DoseCounter.KeyDown | components/DoseTracker.tsx:643-650 | Enter saves like SaveCount: the count becomes max(0, parsed), an unparsable buffer is ignored, the buffer shows a changed count, and edit mode ends; Escape resets the buffer to the count and leaves edit mode; other keys change nothing |
| DoseTracker.SelectMood | components/DoseTracker.tsx:419-421 | choosing the selected mood clears it, any other selects it |
| DoseTracker.SelectMoodTwice | components/DoseTracker.tsx:419-421 | with nothing or the same mood selected, choosing a mood twice restores that selection; with another mood selected, it ends with none |
| DoseTracker.RemoveTag | components/DoseTracker.tsx:425 | exactly the other tags remain |
| DoseTracker.RemoveAbsentTag | components/DoseTracker.tsx:425 | removing an absent tag changes nothing |
| DoseTracker.RemoveTagConcat | components/DoseTracker.tsx:425 | removal distributes over concatenation, so order and copies of other tags are kept |
| DoseTracker.RemoveTagCons | components/DoseTracker.tsx:425 | a front or single tag is dropped exactly when it is the removed tag |
| DoseTracker.ToggleTag | components/DoseTracker.tsx:423-427 | flips the tag's membership, others unchanged |
| DoseTracker.ToggleTagTwice | components/DoseTracker.tsx:423-427 | two toggles restore the set, and the list itself for a tag not present |
| DoseTracker.RemoveTagAppend | components/DoseTracker.tsx:425 | removing a just-appended tag is removing it from the original list |
| DoseTracker.TodaysLog | components/DoseTracker.tsx:397 | the first log of today in the history, or none when there is none |
| DoseTracker.OtherDays | components/DoseTracker.tsx:433 | exactly the logs of other days |
| DoseTracker.OtherDaysConcat | components/DoseTracker.tsx:433 | the filter distributes over concatenation, so order and copies are kept |
| DoseTracker.OtherDaysCons | components/DoseTracker.tsx:433 | a front or single log is kept exactly when it is from another day |
| DoseTracker.CheckinUpsert | components/DoseTracker.tsx:432-435 | after saving, today has exactly the new log and other days' logs are kept |
| DoseTracker.TodaysLogOfAppend | components/DoseTracker.tsx:434 | a log appended to a list without its day is that day's log |
| DoseTracker.MoodTracker.constructor | components/DoseTracker.tsx:397-402 | the form shows today's log, or is blank and open |
| DoseTracker.MoodTracker.Sync | components/DoseTracker.tsx:404-417 | the form is reloaded from today's log of the history |
| DoseTracker.MoodTracker.HandleMoodSelect | components/DoseTracker.tsx:419-421 | applies SelectMood, nothing else changes |
| DoseTracker.MoodTracker.HandleTagToggle | components/DoseTracker.tsx:423-427 | applies ToggleTag, nothing else changes |
| DoseTracker.MoodTracker.HandleSaveCheckin | components/DoseTracker.tsx:429-437 | without a mood or with a blank intention nothing changes; else today's log is replaced by one with the trimmed intention and the form shows it, closed |
| SessionCompanion.NextIndex | components/SessionCompanion.tsx:428-431 | (i+1) mod n: the next index, wrapping to 0 |
| SessionCompanion.PrevIndex | components/SessionCompanion.tsx:433-436 | (i-1+n) mod n: the previous index, wrapping to n-1 |
| SessionCompanion.NextPrevInverse | components/SessionCompanion.tsx:428-436 | next and previous undo each other |
| SessionCompanion.NextCycles | components/SessionCompanion.tsx:430 | k steps forward land on (i+k) mod n, so n steps return to the start |
| SessionCompanion.NextSteps | components/SessionCompanion.tsx:430 | repeated steps stay in range |
| SessionCompanion.RemoveAt | components/SessionCompanion.tsx:508 | removes exactly the element at the index, or nothing when out of range |
| SessionCompanion.Dedup | components/SessionCompanion.tsx:399 | `[...new Set(s)]`: no duplicates and the same elements |
| SessionCompanion.DedupPrefix | components/SessionCompanion.tsx:399 | de-duplicating an extension keeps the earlier result as its prefix |
| SessionCompanion.DedupOfDistinct | components/SessionCompanion.tsx:399 | a list without duplicates is unchanged |
| SessionCompanion.MergeKeepsMantras | components/SessionCompanion.tsx:396-400 | the merge has no duplicates, holds every own and legacy mantra and nothing else, and keeps a duplicate-free own list as its prefix |
| SessionCompanion.Migrated | components/SessionCompanion.tsx:391-408 | a non-empty legacy list is merged into My Mantras; anything else leaves the categories as stored |
| SessionCompanion.Mantras.constructor | components/SessionCompanion.tsx:372-408 | the migrated categories, the stored or first category, index 0; the legacy key is removed when migrated or malformed |
| SessionCompanion.Mantras.HandleNext | components/SessionCompanion.tsx:428-431 | moves to the next index, and does nothing for an empty category |
| SessionCompanion.Mantras.HandlePrev | components/SessionCompanion.tsx:433-436 | moves to the previous index, and does nothing for an empty category |
| SessionCompanion.Mantras.HandleAddMantraSubmit | components/SessionCompanion.tsx:484-502 | blank text changes nothing; else the trimmed text is appended to My Mantras, which is selected, and the index points at it |
| SessionCompanion.Mantras.AddToMyMantras | components/SessionCompanion.tsx:489-500 | appends the text to My Mantras, selects it, points at the new last element and closes the form |
| SessionCompanion.Mantras.HandleDelete | components/SessionCompanion.tsx:504-513 | only in a non-empty My Mantras: removes exactly the current element, clamping the index to max(0, len-1) when it falls off the end |
| SessionCompanion.Mantras.HandleCategoryChange | components/SessionCompanion.tsx:515-520 | selects the category and resets the index to 0 |
| SessionCompanion.Max0 | components/SessionCompanion.tsx:511 | max(0, n): n when non-negative, 0 when negative |
| SessionCompanion.UserTexts | components/SessionCompanion.tsx:783-785 | only texts the user sent, in order |
| SessionCompanion.UserTextsAppend | components/SessionCompanion.tsx:783-785 | appending a message adds its text exactly when the user sent it |
| SessionCompanion.FormattedParts | components/SessionCompanion.tsx:792-799 | the first four answers each under their prompt heading, the rest joined under "Final Thoughts" |
| SessionCompanion.PromptHeading | components/SessionCompanion.tsx:795 | the prompt in bold markers followed by a line break: the prompt is read back from inside it |
| SessionCompanion.AnswersRecoverable | components/SessionCompanion.tsx:795 | each prompt answer is read back after its heading |
| SessionCompanion.Capped | components/SessionCompanion.tsx:809 | the first min(len, 50) entries |
| SessionCompanion.NewEntryFirst | components/SessionCompanion.tsx:809 | the new entry comes first, at most 50 are kept, the rest in their order |
| SessionCompanion.EditWhere | components/SessionCompanion.tsx:857 | entries with the id get the new text and timestamp, keeping their chat; the others stay |
| SessionCompanion.AddedText | components/SessionCompanion.tsx:775 | "\n\n**Added on ", the stamp, "**\n", then the answers one per line ending the text |
| SessionCompanion.AppendWhere | components/SessionCompanion.tsx:777-780 | entries with the id get the suffix after their own current text, the new timestamp and the chat; the others stay |
| SessionCompanion.RemoveEntry | components/SessionCompanion.tsx:871 | exactly the entries with other ids remain |
| SessionCompanion.RemoveEntryConcat | components/SessionCompanion.tsx:871 | deletion distributes over concatenation, so order and copies of other entries are kept |
| SessionCompanion.RemoveEntryCons | components/SessionCompanion.tsx:871 | a front or single entry stays exactly when its id is another one |
| SessionCompanion.FinalHistory | components/SessionCompanion.tsx:761-763 | the chat plus the trimmed pending input, when that is not blank |
| SessionCompanion.Drop | components/SessionCompanion.tsx:766 | `slice(n)`: the suffix after n elements, empty past the end |
| SessionCompanion.Reflections.constructor | components/SessionCompanion.tsx:710-721 | the stored entries, no editing, no delete target, chat idle |
| SessionCompanion.Reflections.StartChat | components/SessionCompanion.tsx:738-750 | continuing an entry with a chat resumes it past the prompts; otherwise a fresh chat with the first prompt |
| SessionCompanion.Reflections.ResetChat | components/SessionCompanion.tsx:752-758 | the chat becomes idle; entries and editing state are kept |
| SessionCompanion.Reflections.SetUserInput | components/SessionCompanion.tsx:719 | only the pending input changes |
| SessionCompanion.Reflections.HandleChatSubmit | components/SessionCompanion.tsx:816-831 | blank input changes nothing; else the trimmed answer is appended, then the next prompt while prompts remain, and the index rises by one |
| SessionCompanion.Reflections.HandleSaveReflection | components/SessionCompanion.tsx:760-813 | continuing: nothing without new user texts, else the added text (stamp heading, new texts one per line) is appended to that entry's current text and its chat and timestamp replaced; new: nothing without answers, else the formatted entry goes first under the cap and the activity is logged; the chat always resets, editing state kept |
| SessionCompanion.Reflections.SaveContinued | components/SessionCompanion.tsx:765-780 | the continuing half of the save: appends the added text to the entry's current text, or nothing without new texts; the chat resets |
| SessionCompanion.Reflections.SaveNew | components/SessionCompanion.tsx:782-812 | the new-entry half: nothing without answers; else the formatted entry goes first under the cap and the activity is logged; the chat resets |
| SessionCompanion.Reflections.HandleEnter | components/SessionCompanion.tsx:833-842 | at the last prompt or when continuing: exactly the effect of HandleSaveReflection; otherwise exactly HandleChatSubmit (blank input changes nothing, else answer, next prompt while prompts remain, index + 1, input cleared), with entries, chat activity and the continued entry kept; editing state always kept |
| SessionCompanion.Reflections.HandleStartEdit | components/SessionCompanion.tsx:844-847 | edits the entry, starting from its text; the chat state is kept |
| SessionCompanion.Reflections.HandleCancelEdit | components/SessionCompanion.tsx:849-852 | stops editing and clears the text; the chat state is kept |
| SessionCompanion.Reflections.HandleSaveEdit | components/SessionCompanion.tsx:854-860 | blank text or no entry being edited: nothing changes; else only the matching entry gets the trimmed text and a new timestamp, and editing ends; the chat state is kept |
| SessionCompanion.Reflections.HandleDeleteRequest | components/SessionCompanion.tsx:862-864 | records what is to be deleted; the chat state is kept |
| SessionCompanion.Reflections.HandleConfirmDelete | components/SessionCompanion.tsx:866-877 | "all" empties the list; one entry removes exactly the entries with its id and ends editing it; the target is always cleared; the chat state is kept |
| ShipmentTracker.UpdateField | components/ShipmentTracker.tsx:72-74 | the named field takes the value; the other field is unchanged |
| ShipmentTracker.UpdateFieldLaws | components/ShipmentTracker.tsx:73 | writing a field's own value changes nothing, and the last write wins |
| ShipmentTracker.CarrierPrefix | components/ShipmentTracker.tsx:76 | the carrier's URL prefix from the table; an unknown carrier reads "undefined" |
| ShipmentTracker.TrackingUrl | components/ShipmentTracker.tsx:76 | "#" without a number; else the carrier's prefix followed by exactly the number |
| ShipmentTracker.TrackingUrlInjective | components/ShipmentTracker.tsx:76 | for one carrier, different numbers give different URLs |
| ShipmentTracker.TrackDisabled | components/ShipmentTracker.tsx:96 | the button is disabled exactly when the URL would be `#` |
| ShipmentTracker.ModalShown | components/ShipmentTracker.tsx:102 | the page shows exactly when it was opened and the URL is not `#` |
| ShipmentTracker.ModalShowsRealUrl | components/ShipmentTracker.tsx:96-102 | an open modal always shows a real URL with the button enabled; clearing the number hides it and disables the button |
| Footer.LocalStorage.constructor | components/Footer.tsx:44 | the storage holds the given items |
| Footer.LocalStorage.SetItem | components/Footer.tsx:89 | the key takes the value; no other key changes |
| Footer.BackupOf | components/Footer.tsx:28-48 | exactly the listed keys that have a stored value, each with that value |
| Footer.Backup | components/Footer.tsx:27-48 | the loop builds exactly the backup of the storage |
| Footer.BackupFileName | components/Footer.tsx:55-56 | `calmcount_backup_<YYYY-MM-DD>.json`, 32 characters |
| Footer.BackupFileNameRoundTrip | components/Footer.tsx:55-56 | the UTC day is read back from the file name |
| Footer.StringValues | components/Footer.tsx:87-91 | exactly the string-valued members among the keys, unwrapped |
| Footer.Restore | components/Footer.tsx:63-104 | no file: nothing; an empty read, unparsable text, or a non-object: refused and storage untouched; an object: every string member is written, no other key changes |
| Footer.WriteStrings | components/Footer.tsx:87-91 | the key loop leaves the storage as before overridden by exactly the string members of the object |
| Footer.StringValuesStep | components/Footer.tsx:88-89 | visiting one more key writes its value exactly when it is a string |
| Footer.BackupJson | components/Footer.tsx:50 | the backup as a JSON object with the same keys |
| Footer.RestoreOwnBackupChangesNothing | components/Footer.tsx:50-91 | restoring a backup of the storage leaves the storage as it was |
| Footer.RestoreIntoEmptyStorage | components/Footer.tsx:50-91 | restoring a backup into empty storage recreates exactly the backed-up keys and values |
| Footer.ReminderDueCases | components/Footer.tsx:13-20 | never dismissed: shown; dismissed 8+ days ago: shown; within 6 days: hidden; exactly 7 days ago: shown once past midnight |
| Footer.ReminderDue | components/Footer.tsx:14-17 | due when nothing was dismissed; never due for a dismissal value that is not a `YYYY-MM-DD` date |
| Footer.FooterState.constructor | components/Footer.tsx:10-11 | the stored dismissal date, reminder hidden |
| Footer.FooterState.ReminderEffect | components/Footer.tsx:13-20 | shows the reminder when due and never hides it |
| Footer.FooterState.DismissReminder | components/Footer.tsx:22-25 | hides the reminder and records today as the dismissal date |
| Footer.DismissStaysHidden | components/Footer.tsx:13-25 | after dismissal, the effect the new date triggers keeps the reminder hidden |

## Left out

- The clock is a parameter everywhere:
  - calendar days are integer day numbers (`today`, the mood-log and activity dates);
  - the logger's UTC date and the footer's time of day are passed in;
  - a reflection's `Date.now()` id, ISO timestamp and "Added on" stamp are given as strings.
- Luxon's arithmetic across daylight-saving changes is not modelled: a day is always 86400 seconds.
- `Path.GetFullPath` is a function the file tool receives, not modelled. `Path.GetDirectoryName` and `Path.GetFileName` are written out for `\` and `/` separators and drive roots. UNC paths and other .NET path normalisation are not modelled.
- Case folding covers ASCII letters only. .NET's `ToLowerInvariant` and `OrdinalIgnoreCase` also fold non-ASCII letters (`É`/`é`, the dotless `ı` against `I`, the dotted `İ`). The members below lose that:
- Text.Lower: maps `A`..`Z` only; every other character, including non-ASCII capitals, stays as it is.
- Text.ContainsIgnoreCase: equates ASCII letters of different case only; `OrdinalIgnoreCase` equates non-ASCII letters too.
- Text.StartsWithIgnoreCase: the same ASCII-only equality as ContainsIgnoreCase.
- RiskEvaluator.IsHighRisk: a keyword reached only through non-ASCII lower-casing (a dotted capital `İ` in `UNİNSTALL`) is not flagged by the model.
- ExamplePlanner.Plan: a trigger spelled with a non-ASCII letter that `OrdinalIgnoreCase` equates with an ASCII one (the dotless `ı` in `Unınstall`) gets no plan in the model.
- FileTools.FileTools.Sanitize: with the sandbox `C:\Users\José`, the path `C:\USERS\JOSÉ\a.txt` is refused by the model and accepted by .NET.
- FileTools.FileTools.ListDir: names match the pattern ignoring ASCII case only; Windows name matching also folds non-ASCII letters. The pattern is read literally as `FileSystem.Matches` does, so the Win32 wildcard rules below are missing from the listing too: `*.*` lists no name without a dot (it drops `README`), and `a?.txt` drops `a.txt`.
- FileSystem.Matches: the same ASCII-only folding as ListDir. It also does not model the Win32 wildcard rules that `Directory.GetFileSystemEntries` applies: a `?` also matches no character before a `.` or at the end of the name (`a?` matches `a`, `a?.txt` matches `a.txt`); `*.*` and `.` mean `*`; a trailing `*.` matches names without an extension. The model takes every pattern character literally, as `FileSystem.LiteralWildcards` states.
- FileSystem.Disk: paths are compared as exact strings, so FileTools.FileTools.Write, Read and ListDir do not see NTFS's case-insensitive names or .NET's tolerance of a trailing separator. With `C:\S\A.txt` stored, a write to `c:\s\a.txt` without overwrite creates a second file instead of failing with "File exists". `ListDir("C:\S\")` lists nothing instead of the children of `C:\S`.
- `Directory.GetFileSystemEntries` returns a set: the order of the listing is not modelled. The pattern language is `*` and `?` only, read literally (see `FileSystem.Matches` above). .NET's 8.3 short-name matching quirks are not modelled.
- JSON parsing and serialisation are not modelled:
  - the logger receives the serialised entry as bytes;
  - restore receives `JSON.parse` as a function;
  - the backup's JSON text is a `Json` value, without `JSON.stringify` indentation.
- Footer.Restore: an unparsable file is refused with a fixed message, not the browser's `SyntaxError` text. The confirmation alert and the page reload after a restore are not modelled. So are the Blob, download link and `FileReader` plumbing of backup and restore.
- Calendar.ParseIso: reads only the extended calendar form `YYYY-MM-DD`; the other ISO 8601 forms luxon accepts (date-times, the basic form, week and ordinal dates) give None.
- Footer.ReminderDue: reads a stored dismissal date only in the form `YYYY-MM-DD` (`Calendar.ParseIso`). Luxon's `DateTime.fromISO` also reads date-times (`2020-01-01T00:00`), the basic form (`20200101`), week dates (`2020-W01-3`) and ordinal dates (`2020-001`); for such a value the model never shows the reminder, while the source shows it once the date is more than a week old.
- `async`/`Task`, I/O exceptions other than a missing log directory, and file-system concurrency are not modelled. Every operation runs to completion in one step.
- The `useLocalStorage` hook's persistence is implicit: a stored state is a field of the class.
- ExamplePlanner.Plan: determinism needs no lemma, because `Plan` is a Dafny function. Step arguments are a small `Json` map rather than `JsonElement`.
- App.SortDesc is a stable insertion sort on dates. JavaScript's `sort` may order logs of the same date differently, which changes neither the streak nor the score.
- App.CalculateKalmScore assumes well-formed `YYYY-MM-DD` dates. An unparsable date (luxon's invalid DateTime, `NaN` millis) is not modelled.
- The app's timers, confetti, vibration, autoplay, focus and scroll effects, and the mantra "viewed" activity logging are presentation or timing and are not modelled. The same goes for the meditation and breathing players, `handleSuggestIntention` (random) and the mood-history week grouping.
- The PowerShell and process tools, the OpenAI client and the WinUI shell are outside the modelled core.
- `Types` and `Constants` transcribe the record shapes and the data tables: reflection prompts, carrier URLs, mood options and the "My Mantras" category name. They hold no behaviour.
