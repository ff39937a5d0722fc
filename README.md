# windows-defender: a Dafny model of the wrapper's logic

The windows-defender package drives the Windows Defender command-line tool
(`MpCmdRun.exe`). For each operation it checks its arguments, builds the
ordered list of tokens that the tool receives, runs the tool once and
interprets the outcome. Two operations also read the tool's text output:
- the custom scan turns its report into `{ threat, files }` records;
- `quarantine.list` turns its listing into `{ threat, files: [{ file, time }] }` records.

The repository holds two versions of the wrapper:
- `src/index.ts` is the current version;
- `index.js` is an earlier version with fewer operations.

Both versions are modelled.

Modules (one file each):

- `Text` (text.dfy): the JavaScript string and array operations the wrapper
  chains together: `split` with a string separator, `join`, `slice` with
  negative indices, `startsWith` and the empty-line filter.
- `Js` (js.dfy): argument values as the wrapper's checks tell them apart,
  the errors an operation can throw, how a run of the tool ends, and
  `Array.prototype.map` with a callback that may throw.
- `Patterns` (patterns.dfy): each regular expression the parsers apply,
  written out as the matcher it denotes under JavaScript's rules. These
  are `/Threat *: (.+)/`, `/file *: (.+)/g`, `/ThreatName = (.+)/`,
  `/ +(.+)/g`, single and global searches, and "`.` stops at a line
  terminator".
- `RuleSplit` (rulesplit.dfy): `split(/^-*$/gm)`. This is the loop of
  `String.prototype.split` with a pattern that matches every line made
  only of dashes, and every empty line.
- `ThreatReport` (threatreport.dfy): the custom-scan report parser shared by
  both versions.
- `QuarantineReport` (quarantine.dfy): the `quarantine.list` parser.
- `Defender` (defender.dfy): the operations of `src/index.ts`.
- `DefenderJs` (defenderjs.dfy): the operations of `index.js`.

The tool is a parameter: a function from an argument list to a `ToolResult`,
which is either success with its output, or failure with an exit code and
output. Elevation (`isAdmin`), `path.resolve` and `fs.pathExists` are fields
of a `Host` parameter. An operation returns a `Run`. A `Run` holds the
argument list handed to the tool (`None` when a check stopped the operation
first) and the outcome: the value returned or the error thrown.

Where this model departs from the prose description of the package, it
follows the code:
- The threat name is the rest of the `Threat` line, not trimmed.
- `scan.full` takes timeouts from 1 to 29. `scan` and `scan.quick` take
  anything above 0 up to 30.
- A custom scan accepts any string as its path, the empty string included.
- A report or listing that does not match throws the TypeError of reading
  `.groups` or `.map` from a failed match. It is not a parse error that
  names the offending block.
- The exclusion check can still throw before it runs the tool: elevation is
  missing, or the path is not a string. Once the tool has run, it never
  throws.

## Model

| member | source | states |
|---|---|---|
| `Text.JoinSplit` | src/index.ts:146 | splitting on a separator and joining with it again gives the text back |
| `Text.SplitJoinCrlf` | src/index.ts:146 | lines holding no CRLF, joined with CRLF and split again, come back unchanged |
| `Js.MapOrThrowEach` | src/index.ts:146-149 | `map` returns exactly when every callback returns, with each value at its element's place; otherwise it throws the error of the first callback that throws |
| `Patterns.FirstMatchLeftmost` | src/index.ts:147 | a single search returns the match at the leftmost position where the pattern matches, and there is none before it |
| `Patterns.FirstCaptureShape` | src/index.ts:147 | a `(.+)` capture is never empty and never crosses a line break |
| `Patterns.AllFoundRecapture` | src/index.ts:148 | each text found by a global search, searched again, yields the same capture |
| `Patterns.AllFoundLines` | src/index.ts:148 | a global search of lines joined with LF finds exactly the matches of each line, in line order |
| `Patterns.FirstCaptureLines` | src/index.ts:147 | a single search of joined lines finds the first line's match |
| `RuleSplit.SplitAtRules` | src/index.ts:146 | splitting on rule lines yields no pieces exactly for the empty text |
| `RuleSplit.SplitCharacterised` | src/index.ts:146 | for every non-empty text, a list is its split exactly when some cuts describe it: each piece runs from the end of the previous cut rule's dashes to the first line start where a dash-only line begins and does not end where the piece began; the last piece runs to the end |
| `RuleSplit.SplitRebuilds` | src/index.ts:146 | for every non-empty text, the pieces with the cut dash-only rule texts put back between them rebuild the text |
| `ThreatReport.ParseBlocksEach` | src/index.ts:146-149 | the parser yields exactly one record per block, in block order, each what its block reads as; it yields a list only when every block reads |
| `ThreatReport.ParseBlockCharacterised` | src/index.ts:147-148 | a block reads as a threat exactly when it has a `Threat` line and at least one `file` line: the threat is the first `Threat` capture, the files every `file` capture in order; otherwise TypeError |
| `ThreatReport.ParseBlockShape` | src/index.ts:147-148 | a record read from a block has a non-empty single-line name and at least one file, each a non-empty single line |
| `ThreatReport.ParseReportErrors` | src/index.ts:146-149 | the only error the parser throws is TypeError |
| `ThreatReport.ShortOutputNoThreats` | src/index.ts:146 | output of six lines or fewer holds no block and reads as no threats |
| `ThreatReport.ParseRendered` | src/index.ts:146-149 | the report of any well-formed threats, under any five header lines, rule line and last line, reads back as exactly those threats in order |
| `QuarantineReport.CleanSplitConcat` | src/index.ts:87-91 | cutting at the `ThreatName` anchors loses no text: the entries concatenate to the list body |
| `QuarantineReport.CleanSplitEntries` | src/index.ts:87-91 | every entry but the text before the first anchor starts with a `ThreatName = ` line whose value is non-empty |
| `QuarantineReport.QuarantinedLine` | src/index.ts:94 | a file line splits at the last ` quarantined at ` that leaves both sides non-empty, and spells the line back; it has no match exactly when no such occurrence exists |
| `QuarantineReport.ParseEntryCharacterised` | src/index.ts:92-95 | an entry reads exactly when it has a `ThreatName` line, a line with a space, and every later line with a space reads as a file; threat = first `ThreatName` capture, one file per later line in order; otherwise TypeError |
| `QuarantineReport.ParseListEach` | src/index.ts:87-95 | one record per entry, in order, or the TypeError of the first entry that does not read |
| `QuarantineReport.ParseListing` | src/index.ts:87-95 | a listing of well-formed quarantined threats, after any two header lines, reads back as exactly those threats, each with its files and times in order |
| `Defender.DecimalRoundTrip` | src/index.ts:134 | the digits sent for a timeout stand for that timeout |
| `Defender.Awaited` | src/index.ts:140 | the model's primitive for `await execa`: an awaited tool run resolves exactly when the tool succeeds, and otherwise throws the tool's own error |
| `Defender.CustomScanArgsLayout` | src/index.ts:134-137 | the custom-scan list starts `-Scan -ScanType 3 -File <resolved dir> -Timeout <t>`; `-BootSectorScan` is present iff `scanBootSector`, `-DisableRemediation` iff not `remediate`, boot sector first, nothing else |
| `Defender.ClassifyScan` | src/index.ts:139-153 | success gives `[]`; exit 2 with output starting `CmdTool`, or any other failure code, rethrows the tool's error; a list comes from a failure only on exit 2 without the banner |
| `Defender.ClassifyScanErrors` | src/index.ts:139-153 | once the tool has run, `scan` throws only the tool's own error or a report TypeError; exit 2 without the banner is the report parsed |
| `Defender.ClassifyScanReport` | src/index.ts:144-149 | exit 2 with the report of well-formed threats returns those threats in order |
| `Defender.Scan` | src/index.ts:120-154 | bad arguments throw before any tool run; otherwise exactly one run with the custom-scan list, classified as above |
| `Defender.ScanTimeoutRange` | src/index.ts:120-132 | `scan` accepts a timeout exactly when 0 < t <= 30; the default passes; a non-string path is refused |
| `Defender.FullScan` | src/index.ts:158-164 | runs only for a timeout from 1 to 29 or none (then 7); sends exactly `-Scan -ScanType 2 -Timeout <t>`, whose digits stand for t; otherwise refused before any run |
| `Defender.QuickScan` | src/index.ts:166-172 | runs only for a timeout with 0 < t <= 30 or none (then 1); sends exactly `-Scan -ScanType 1 -Timeout <t>`, whose digits stand for t; otherwise refused before any run |
| `Defender.FullCancel` | src/index.ts:174-178 | sends exactly `-Scan -ScanType 2 -Cancel` |
| `Defender.QuickCancel` | src/index.ts:180-184 | sends exactly `-Scan -ScanType 1 -Cancel` |
| `Defender.CancelsMatchScans` | src/index.ts:158-184 | each cancel names its own scan's type, and the two differ |
| `Defender.TimeoutBounds` | src/index.ts:158-172 | quick: 30 accepted, 0 refused, default accepted; full: 1 and 29 accepted, 0 and 30 refused, default accepted |
| `Defender.Elevated` | src/index.ts:13-15 | the model's primitive for `forceAdmin` then `execa`: nothing runs without elevation (AdminRequired); with it, one run of the given list |
| `Defender.FixedOperations` | src/index.ts:36-71 | `removeAll`, `revert` and `revert.engine` send `-RemoveDefinitions` with `-All`, nothing, or `-Engine`, and only when elevated |
| `Defender.RestoreAllArgs` | src/index.ts:113-116 | `restore.all` sends `-Restore -All`, and only when elevated |
| `Defender.AddDynamicSignature` | src/index.ts:53-57 | elevation, then a string check, then exactly `-AddDynamicSignature -Path <path>`, the path as given, not resolved |
| `Defender.UpdateDefinitions` | src/index.ts:46-50 | no elevation needed; a non-string `unc` is refused; exactly `-SignatureUpdate -UNC <resolved unc>` iff `unc` is truthy, `-SignatureUpdate -MMPC` otherwise |
| `Defender.RemoveDynamicSignatures` | src/index.ts:58-63 | elevation, then the check; exactly `-RemoveDynamicSignature -SignatureSetID <id>` iff `id` is a string, else `-RemoveDefinitions -DynamicSignatures` |
| `Defender.EmptyStringDispatch` | src/index.ts:46-63 | `""` falls back to `-MMPC` for the update but names the empty signature set for the removal |
| `Defender.IsExcluded` | src/index.ts:24-33 | elevation, then the check; exactly `-CheckExclusion -Path <resolved dir>`; once the tool runs the answer is `true` iff it succeeded, never an error |
| `Defender.QuarantineList` | src/index.ts:84-96 | elevation first; `-Restore -ListAll`; a failed run throws its own error; a successful run's outcome is its output read by the listing parser |
| `Defender.QuarantineListReads` | src/index.ts:84-96 | a successful listing of well-formed threats returns exactly those threats |
| `Defender.QuarantineListErrors` | src/index.ts:84-96 | after a successful run the only possible error is the TypeError of an unreadable entry |
| `Defender.RestoreArgsLayout` | src/index.ts:102-107 | `-Restore -Path <resolved>` iff the resolved path exists, else `-Restore -Name <name unchanged>`; `-FilePath <resolved dir>` appended iff `restoreDir` is a string |
| `Defender.Restore` | src/index.ts:98-110 | elevation, then the checks, then one run of the restore list |
| `DefenderJs.AppliedKeys` | index.js:11-15 | after the assignments, the properties set are those set before and those assigned |
| `DefenderJs.AppliedLastWins` | index.js:11-15 | the last assignment to a property decides what it holds |
| `DefenderJs.ScanFunction.Assign` | index.js:12-15 | assigning a property replaces that one command and leaves the others |
| `DefenderJs.ScanFunction.Load` | index.js:11-15 | loading the module leaves the commands the assignments of lines 11-15 and 59 produce, in order |
| `DefenderJs.LoadedAsWritten` | index.js:11-15 | after load `scan`, `scan.quick`, `scan.full` send types 0, 1, 2; `scan.cancel` cancels 0; `scan.quick.cancel` cancels 2; `scan.full` has no cancel |
| `DefenderJs.LoadedIntended` | index.js:13-15 | with line 15 assigning `scan.full.cancel`, every scan has a cancel of its own type |
| `DefenderJs.CustomArgsLayout` | index.js:39-42 | `-Scan -ScanType 3 -File <resolved dir>`, then `-BootSectorScan` iff `scanBootSector`, `-DisableRemediation` iff not `remediate`; no `-Timeout` flag |
| `DefenderJs.CustomArgsAgainstTimed` | index.js:39-42 | the two versions' lists differ only by `-Timeout <t>` after the path |
| `DefenderJs.ClassifyCustom` | index.js:44-57 | success gives `[]`; exit 2 is always parsed; any other failure rethrows the tool's error |
| `DefenderJs.CustomScan` | index.js:16-58 | a non-string path or non-boolean flag throws before any run; otherwise one run, classified as above |
| `DefenderJs.ClassifiersAgree` | index.js:44-57 | the two versions classify every run alike except exit 2 with output starting `CmdTool`. There `src/index.ts` rethrows and `index.js` parses, never rethrowing |
| `DefenderJs.CrashBannerReadAsClean` | index.js:49-53 | exit 2 with only the `CmdTool` banner: `index.js` returns `[]`, `src/index.ts` throws |
| `DefenderJs.DocExampleParsed` | index.js:17-33 | the doc comment's report reads as two records in order, the first with two files and the second with one |

## Left out

- Spawning the tool (`execa`), locating it (`defender-path`) and the
  throw at module load when it is missing: the tool is a function parameter.
- `isAdmin`, `path.resolve` and `fs.pathExists` are fields of `Host`.
  Nothing is assumed about what they return.
- Promises and `async`: an operation is a single call that returns or
  throws. JavaScript error objects are reduced to the exit code and output.
- The internals of `ow` and `@sindresorhus/is`. Only the predicates each
  call checks are modelled.
- `clean-split` is not part of this model. It is assumed to cut the text
  just before every match of the global search for `ThreatName = .+` and
  to drop empty pieces, so with `anchor: "right"` each anchor line opens
  its entry.
- Numbers are integers. Fractional and non-finite timeouts, and
  `toString` of anything but a whole number, are left out.
- Regular expressions are modelled only for the specific patterns used.
- `DefenderJs.CustomArgsLayout`: states that no flag position holds
  `-Timeout`. The path position holds whatever `path.resolve` returns,
  which this model does not constrain.
- `Defender.IsExcluded`: "never throws" holds once the tool has run. The
  elevation and string checks can still throw before that, as the code
  does.

## Findings

| source | as written | input that shows it | evidently intended | confidence | as-written member | corrected member |
|---|---|---|---|---|---|---|
| index.js:15 | assigns `scan.quick.cancel` a second time, with scan type 2 | load the module, then call `scan.quick.cancel()`: it cancels a full scan, and `scan.full.cancel` does not exist | `scan.full.cancel = …` (as src/index.ts:174-178 has it) | high, not executed | `DefenderJs.LoadedAsWritten` | `DefenderJs.LoadedIntended` |
| index.js:49 | exit code 2 is always parsed as a threat report | exit 2 with output `CmdTool: Failed with hr = 0x80508023` returns `[]` (no threats) | rethrow the tool's error when the output starts with `CmdTool` (as src/index.ts:145 does) | high, not executed | `DefenderJs.CrashBannerReadAsClean` | `Defender.ClassifyScan` |
