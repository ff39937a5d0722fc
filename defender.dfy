/**
 * The operations of src/index.ts that decide what the command-line tool is
 * asked to do and what becomes of its answer: the custom, full and quick
 * scans and their cancels, the definitions update, the removal of dynamic
 * signatures, the exclusion check, and listing and restoring quarantined
 * threats.
 *
 * Everything the wrapper asks of the machine is a parameter: the tool is a
 * function from an argument list to the way its run ends, and the host says
 * whether the process is elevated, what `path.resolve` makes of a path and
 * whether `fs.pathExists` finds one.
 */
module Defender {
  import opened Text
  import opened Js
  import opened ThreatReport
  import opened RuleSplit
  import QuarantineReport

  /** One run of the command-line tool with the given arguments. */
  type Tool = seq<string> -> ToolResult

  /** `isAdmin()`, `path.resolve` and `fs.pathExists`. */
  datatype Host = Host(admin: bool, resolve: string -> string, pathExists: string -> bool)

  // ----- numbers as the tool receives them -----

  function Digit(d: nat): (c: char)
    requires d < 10
    ensures '0' <= c <= '9' && c as int - '0' as int == d
  {
    ('0' as int + d) as char
  }

  predicate AllDigits(s: string) {
    forall k | 0 <= k < |s| :: '0' <= s[k] <= '9'
  }

  /** `n.toString()` for a whole number that is not negative: its decimal
      digits, with no leading zero. */
  function DecimalString(n: nat): (s: string)
    ensures s != [] && AllDigits(s)
    ensures n > 0 ==> s[0] != '0'
    decreases n
  {
    if n < 10 then [Digit(n)] else DecimalString(n / 10) + [Digit(n % 10)]
  }

  /** The number a string of decimal digits stands for. */
  function DecimalValue(s: string): nat
    requires AllDigits(s)
    decreases |s|
  {
    if s == [] then 0 else DecimalValue(s[..|s| - 1]) * 10 + (s[|s| - 1] as int - '0' as int)
  }

  /** The digits of a timeout stand for that timeout. */
  lemma {:induction false} DecimalRoundTrip(n: nat)
    ensures DecimalValue(DecimalString(n)) == n
    decreases n
  {
    if n >= 10 {
      DecimalRoundTrip(n / 10);
      var s := DecimalString(n);
      assert s[..|s| - 1] == DecimalString(n / 10);
    }
  }

  // ----- reading an argument list -----

  /** The argument that follows the first `flag`, as the tool reads its
      options. */
  function OptionValue(args: seq<string>, flag: string): Option<string>
    decreases |args|
  {
    if |args| < 2 then None
    else if args[0] == flag then Some(args[1])
    else OptionValue(args[1..], flag)
  }

  /** The first `flag` among the arguments sits at `i`: its value is the
      argument after it. */
  lemma {:induction false} OptionValueAt(args: seq<string>, flag: string, i: nat)
    requires i + 1 < |args| && args[i] == flag
    requires forall j | 0 <= j < i :: args[j] != flag
    ensures OptionValue(args, flag) == Some(args[i + 1])
    decreases i
  {
    if i > 0 {
      OptionValueAt(args[1..], flag, i - 1);
    }
  }

  /** What an operation that awaits the tool and resolves with nothing ends
      with: the tool's failure is thrown on unchanged. This is the model's
      primitive for `await execa(...)`; its ensures are its definition, not a
      property proved about it. */
  function Awaited(result: ToolResult): (r: Outcome<Unit>)
    ensures r.Returned? <==> result.Succeeded?
    ensures r.Threw? ==> r.error == result.AsError()
  {
    if result.Succeeded? then Returned(Unit) else Threw(result.AsError())
  }

  // ----- the argument checks -----

  /** `ow(timeout, ow.number.is((val) => val > 0 && val <= 30))` */
  predicate ScanTimeoutValid(v: Value) {
    v.Number? && 0 < v.n <= 30
  }

  /** `ow(timeout, ow.number.inRange(1, 29))`, both ends included. */
  predicate FullTimeoutValid(v: Value) {
    v.Number? && 1 <= v.n <= 29
  }

  /** `ow(v, ow.optional.string)` */
  predicate OptionalString(v: Value) {
    v.Undefined? || v.Str?
  }

  const DefaultScanTimeout: int := 1
  const DefaultFullTimeout: int := 7
  const DefaultQuickTimeout: int := 1

  // ----- scan (the custom scan of one path) -----

  /** The options object of `scan`; a property left out is `undefined`, and
      leaving the whole object out is leaving out every property. */
  datatype ScanOptions = ScanOptions(scanBootSector: Value, remediate: Value, timeout: Value)

  const NoScanOptions: ScanOptions := ScanOptions(Undefined, Undefined, Undefined)

  /** The checks `scan` makes on its arguments, defaults applied, before it
      runs anything. */
  predicate ScanArgumentsValid(dir: Value, options: ScanOptions) {
    && dir.Str?
    && WithDefault(options.scanBootSector, Bool(false)).Bool?
    && WithDefault(options.remediate, Bool(false)).Bool?
    && ScanTimeoutValid(WithDefault(options.timeout, Number(DefaultScanTimeout)))
  }

  /** The arguments of a custom scan of `file`: the scan of type 3 with its
      timeout, then the boot-sector flag when asked for, then the flag that
      turns remediation off when remediation is not asked for. */
  function CustomScanArgs(file: string, timeout: nat, bootSector: bool, remediate: bool): seq<string> {
    ["-Scan", "-ScanType", "3", "-File", file, "-Timeout", DecimalString(timeout)]
    + (if bootSector then ["-BootSectorScan"] else [])
    + (if remediate then [] else ["-DisableRemediation"])
  }

  /** The custom-scan arguments: the path and the timeout at their places,
      `-BootSectorScan` exactly when the boot sector is to be scanned,
      `-DisableRemediation` exactly when remediation is not asked for, the
      former first, and nothing else. */
  lemma CustomScanArgsLayout(file: string, timeout: nat, bootSector: bool, remediate: bool)
    ensures var args := CustomScanArgs(file, timeout, bootSector, remediate);
            && |args| == 7 + (if bootSector then 1 else 0) + (if remediate then 0 else 1)
            && args[..5] == ["-Scan", "-ScanType", "3", "-File", file]
            && args[5] == "-Timeout" && AllDigits(args[6]) && DecimalValue(args[6]) == timeout
            && ("-BootSectorScan" in args[7..] <==> bootSector)
            && ("-DisableRemediation" in args[7..] <==> !remediate)
            && (bootSector ==> args[7] == "-BootSectorScan")
  {
    DecimalRoundTrip(timeout);
    var args := CustomScanArgs(file, timeout, bootSector, remediate);
    assert args[7..] == (if bootSector then ["-BootSectorScan"] else [])
                        + (if remediate then [] else ["-DisableRemediation"]);
    assert "-BootSectorScan" != "-DisableRemediation" by {
      assert |"-BootSectorScan"| != |"-DisableRemediation"|;
    }
  }

  /** What `scan` makes of the tool's run: nothing found when the tool
      succeeds; the report read into threats when it exits with code 2,
      unless its output opens with the `CmdTool` banner of a failed run; the
      tool's own error otherwise. */
  function ClassifyScan(result: ToolResult): (r: Outcome<seq<Threat>>)
    ensures result.Succeeded? ==> r == Returned([])
    ensures result.Failed? && (result.code != 2 || StartsWith(result.stdout, "CmdTool")) ==>
              r == Threw(result.AsError())
    ensures r.Returned? && result.Failed? ==> result.code == 2 && !StartsWith(result.stdout, "CmdTool")
  {
    match result
    case Succeeded(_) => Returned([])
    case Failed(code, stdout) =>
      if code == 2 then
        if StartsWith(stdout, "CmdTool") then Threw(result.AsError())
        else ParseReport(stdout)
      else Threw(result.AsError())
  }

  /** Whatever `scan` throws once the tool has run is the tool's own error or
      the TypeError of a report it cannot read; a run that exits with code 2
      reads as the report it printed. */
  lemma ClassifyScanErrors(result: ToolResult)
    ensures ClassifyScan(result).Threw? ==>
              result.Failed? &&
              (ClassifyScan(result).error == result.AsError() || ClassifyScan(result).error == TypeError)
    ensures result.Failed? && result.code == 2 && !StartsWith(result.stdout, "CmdTool") ==>
              ClassifyScan(result) == ParseReport(result.stdout)
  {
    if result.Failed? && result.code == 2 && !StartsWith(result.stdout, "CmdTool") {
      var blocks := Blocks(result.stdout);
      ParseBlocksEach(blocks);
      MapOrThrowEach(blocks, ParseBlock);
      if ParseReport(result.stdout).Threw? {
        var k :| 0 <= k < |blocks| && ParseBlock(blocks[k]) == Threw(ParseReport(result.stdout).error);
        ParseBlockCharacterised(blocks[k]);
      }
    }
  }

  /** A scan whose report lists well-formed threats returns those threats,
      in order, provided the report does not open with the `CmdTool` banner. */
  lemma ClassifyScanReport(header: seq<string>, ts: seq<Threat>, rule: string, footer: string)
    requires |header| == 5 && !StartsWith(header[0], "CmdTool") && IsRule(rule)
    requires CrlfFree(header) && !Occurs(footer, CRLF)
    requires forall k | 0 <= k < |ts| :: WellFormed(ts[k])
    ensures ClassifyScan(Failed(2, Report(header, ts, rule, footer))) == Returned(ts)
  {
    var stdout := Report(header, ts, rule, footer);
    ParseRendered(header, ts, rule, footer);
    assert !StartsWith(stdout, "CmdTool") by {
      var lines := header + ReportLines(ts, rule) + [footer];
      assert lines == [header[0]] + lines[1..];
      JoinAppend([header[0]], lines[1..], CRLF);
      assert stdout == header[0] + CRLF + Join(lines[1..], CRLF);
      BannerStaysInFirstLine(header[0], Join(lines[1..], CRLF));
    }
  }

  /** A first line that does not open with the banner does not get it from
      what follows its line break. */
  lemma BannerStaysInFirstLine(line: string, rest: string)
    requires !StartsWith(line, "CmdTool")
    ensures !StartsWith(line + CRLF + rest, "CmdTool")
  {
    var s := line + CRLF + rest;
    if |line| >= 7 {
      assert line[..7] == s[..7];
    } else if |s| >= 7 {
      assert s[..7][|line|] == '\r' != "CmdTool"[|line|];
    }
  }

  /** `scan(dir, options)` (src/index.ts:120-154): the checks, the argument
      list grown one flag at a time, one run of the tool, and what is made of
      it. */
  method Scan(host: Host, tool: Tool, dir: Value, options: ScanOptions) returns (run: Run<seq<Threat>>)
    ensures !ScanArgumentsValid(dir, options) ==> run == Run(None, Threw(ArgumentError))
    ensures ScanArgumentsValid(dir, options) ==>
              var args := CustomScanArgs(host.resolve(dir.s),
                                         WithDefault(options.timeout, Number(DefaultScanTimeout)).n,
                                         WithDefault(options.scanBootSector, Bool(false)).b,
                                         WithDefault(options.remediate, Bool(false)).b);
              run == Run(Some(args), ClassifyScan(tool(args)))
  {
    var scanBootSector := WithDefault(options.scanBootSector, Bool(false));
    var remediate := WithDefault(options.remediate, Bool(false));
    var timeout := WithDefault(options.timeout, Number(DefaultScanTimeout));
    if !dir.Str? || !scanBootSector.Bool? || !remediate.Bool? || !ScanTimeoutValid(timeout) {
      return Run(None, Threw(ArgumentError));
    }
    var opts := ["-Scan", "-ScanType", "3", "-File", host.resolve(dir.s), "-Timeout", DecimalString(timeout.n)];
    if scanBootSector.b == true {
      opts := opts + ["-BootSectorScan"];
    }
    if remediate.b == false {
      opts := opts + ["-DisableRemediation"];
    }
    assert opts == CustomScanArgs(host.resolve(dir.s), timeout.n, scanBootSector.b, remediate.b);
    run := Run(Some(opts), ClassifyScan(tool(opts)));
  }

  /** The timeouts `scan` takes: any from just above 0 up to 30, and the
      default of 1 when none is given; a path that is not a string or a flag
      that is not a boolean is refused whatever the timeout. */
  lemma ScanTimeoutRange(dir: string, t: int)
    ensures ScanArgumentsValid(Str(dir), ScanOptions(Undefined, Undefined, Number(t))) <==> 0 < t <= 30
    ensures ScanArgumentsValid(Str(dir), NoScanOptions)
    ensures forall v: Value :: !v.Str? ==> !ScanArgumentsValid(v, ScanOptions(Undefined, Undefined, Number(t)))
  {
  }

  // ----- scan.full, scan.quick and their cancels -----

  /** `scan.full({ timeout })` (src/index.ts:158-164): a full scan, type 2,
      with a timeout from 1 to 29, 7 when none is given. */
  function FullScan(tool: Tool, timeout: Value): (run: Run<Unit>)
    ensures run.invocation.Some? <==> timeout.Undefined? || (timeout.Number? && 1 <= timeout.n <= 29)
    ensures run.invocation.None? ==> run.outcome == Threw(ArgumentError)
    ensures run.invocation.Some? ==>
              var t := if timeout.Undefined? then DefaultFullTimeout else timeout.n;
              var args := run.invocation.value;
              && args == ["-Scan", "-ScanType", "2", "-Timeout", DecimalString(t)]
              && AllDigits(args[4]) && DecimalValue(args[4]) == t
              && run.outcome == Awaited(tool(args))
  {
    var t := WithDefault(timeout, Number(DefaultFullTimeout));
    if !FullTimeoutValid(t) then Run(None, Threw(ArgumentError))
    else
      var args := ["-Scan", "-ScanType", "2", "-Timeout", DecimalString(t.n)];
      DecimalRoundTrip(t.n);
      Run(Some(args), Awaited(tool(args)))
  }

  /** `scan.quick({ timeout })` (src/index.ts:166-172): a quick scan, type 1,
      with a timeout from just above 0 up to 30, 1 when none is given. */
  function QuickScan(tool: Tool, timeout: Value): (run: Run<Unit>)
    ensures run.invocation.Some? <==> timeout.Undefined? || (timeout.Number? && 0 < timeout.n <= 30)
    ensures run.invocation.None? ==> run.outcome == Threw(ArgumentError)
    ensures run.invocation.Some? ==>
              var t := if timeout.Undefined? then DefaultQuickTimeout else timeout.n;
              var args := run.invocation.value;
              && args == ["-Scan", "-ScanType", "1", "-Timeout", DecimalString(t)]
              && AllDigits(args[4]) && DecimalValue(args[4]) == t
              && run.outcome == Awaited(tool(args))
  {
    var t := WithDefault(timeout, Number(DefaultQuickTimeout));
    if !ScanTimeoutValid(t) then Run(None, Threw(ArgumentError))
    else
      var args := ["-Scan", "-ScanType", "1", "-Timeout", DecimalString(t.n)];
      DecimalRoundTrip(t.n);
      Run(Some(args), Awaited(tool(args)))
  }

  /** `scan.full.cancel()` (src/index.ts:174-178) */
  function FullCancel(tool: Tool): (run: Run<Unit>)
    ensures run.invocation == Some(["-Scan", "-ScanType", "2", "-Cancel"])
    ensures run.outcome == Awaited(tool(run.invocation.value))
  {
    var args := ["-Scan", "-ScanType", "2", "-Cancel"];
    Run(Some(args), Awaited(tool(args)))
  }

  /** `scan.quick.cancel()` (src/index.ts:180-184) */
  function QuickCancel(tool: Tool): (run: Run<Unit>)
    ensures run.invocation == Some(["-Scan", "-ScanType", "1", "-Cancel"])
    ensures run.outcome == Awaited(tool(run.invocation.value))
  {
    var args := ["-Scan", "-ScanType", "1", "-Cancel"];
    Run(Some(args), Awaited(tool(args)))
  }

  /** Each cancel stops the kind of scan it hangs under: the full scan's
      cancel names the full scan's type, the quick scan's the quick scan's,
      and the two differ. A corollary of the exact lists in the contracts
      above, kept as the counterpart of `DefenderJs.LoadedAsWritten`, where
      the earlier version gets this wrong. */
  lemma CancelsMatchScans(tool: Tool)
    ensures OptionValue(FullCancel(tool).invocation.value, "-ScanType")
         == OptionValue(FullScan(tool, Undefined).invocation.value, "-ScanType")
    ensures OptionValue(QuickCancel(tool).invocation.value, "-ScanType")
         == OptionValue(QuickScan(tool, Undefined).invocation.value, "-ScanType")
    ensures OptionValue(FullCancel(tool).invocation.value, "-ScanType")
         != OptionValue(QuickCancel(tool).invocation.value, "-ScanType")
  {
    assert "2" != "1" by {
      assert "2"[0] != "1"[0];
    }
  }

  /** Boundary examples of the ranges in the contracts above: 30 and just
      above 0 are quick-scan timeouts, 0 is not; 1 and 29 are full-scan
      timeouts, 0 and 30 are not; both defaults pass their own checks. */
  lemma TimeoutBounds(tool: Tool)
    ensures QuickScan(tool, Number(30)).invocation.Some? && QuickScan(tool, Number(0)).invocation.None?
    ensures QuickScan(tool, Undefined).invocation.Some?
    ensures FullScan(tool, Number(1)).invocation.Some? && FullScan(tool, Number(29)).invocation.Some?
    ensures FullScan(tool, Number(0)).invocation.None? && FullScan(tool, Number(30)).invocation.None?
    ensures FullScan(tool, Undefined).invocation.Some?
  {
  }

  // ----- the operations that only need elevation -----

  /** An operation that demands elevation and then hands a fixed argument
      list to the tool: nothing runs without elevation, and with it the
      tool's failure is thrown on unchanged. This is the model's primitive
      for `forceAdmin()` followed by `await execa(...)`; its ensures are its
      definition, not a property proved about it. */
  function Elevated(host: Host, tool: Tool, args: seq<string>): (run: Run<Unit>)
    ensures run.invocation.Some? <==> host.admin
    ensures !host.admin ==> run.outcome == Threw(AdminRequired)
    ensures run.invocation.Some? ==> run.invocation.value == args && run.outcome == Awaited(tool(args))
  {
    if !host.admin then Run(None, Threw(AdminRequired)) else Run(Some(args), Awaited(tool(args)))
  }

  /** `definitions.removeAll()` (src/index.ts:36-39) */
  function RemoveAllDefinitions(host: Host, tool: Tool): Run<Unit> {
    Elevated(host, tool, ["-RemoveDefinitions", "-All"])
  }

  /** `definitions.revert()` (src/index.ts:41-44) */
  function RevertDefinitions(host: Host, tool: Tool): Run<Unit> {
    Elevated(host, tool, ["-RemoveDefinitions"])
  }

  /** `definitions.revert.engine()` (src/index.ts:67-70) */
  function RevertEngine(host: Host, tool: Tool): Run<Unit> {
    Elevated(host, tool, ["-RemoveDefinitions", "-Engine"])
  }

  /** `quarantine.restore.all()` (src/index.ts:113-116) */
  function RestoreAll(host: Host, tool: Tool): Run<Unit> {
    Elevated(host, tool, ["-Restore", "-All"])
  }

  /** The three ways of removing definitions each send `-RemoveDefinitions`
      first and differ in what follows; none of them runs without
      elevation. These are instances of `Elevated`, spelled out per
      operation. */
  lemma FixedOperations(host: Host, tool: Tool)
    ensures host.admin ==>
              && RemoveAllDefinitions(host, tool).invocation == Some(["-RemoveDefinitions", "-All"])
              && RevertDefinitions(host, tool).invocation == Some(["-RemoveDefinitions"])
              && RevertEngine(host, tool).invocation == Some(["-RemoveDefinitions", "-Engine"])
    ensures !host.admin ==>
              && RemoveAllDefinitions(host, tool) == Run(None, Threw(AdminRequired))
              && RevertDefinitions(host, tool) == Run(None, Threw(AdminRequired))
              && RevertEngine(host, tool) == Run(None, Threw(AdminRequired))
  {
  }

  /** Restoring everything sends `-Restore -All`, and only when elevated. */
  lemma RestoreAllArgs(host: Host, tool: Tool)
    ensures RestoreAll(host, tool).invocation == if host.admin then Some(["-Restore", "-All"]) else None
    ensures !host.admin ==> RestoreAll(host, tool).outcome == Threw(AdminRequired)
  {
  }

  /** `definitions.dynamicSignatures.add(path)` (src/index.ts:53-57):
      elevation, a string check, and the path handed to the tool as given,
      without resolving it. */
  function AddDynamicSignature(host: Host, tool: Tool, path: Value): (run: Run<Unit>)
    ensures !host.admin ==> run == Run(None, Threw(AdminRequired))
    ensures host.admin && !path.Str? ==> run == Run(None, Threw(ArgumentError))
    ensures run.invocation.Some? <==> host.admin && path.Str?
    ensures run.invocation.Some? ==>
              && run.invocation.value == ["-AddDynamicSignature", "-Path", path.s]
              && run.outcome == Awaited(tool(run.invocation.value))
  {
    if !host.admin then Run(None, Threw(AdminRequired))
    else if !path.Str? then Run(None, Threw(ArgumentError))
    else
      var args := ["-AddDynamicSignature", "-Path", path.s];
      Run(Some(args), Awaited(tool(args)))
  }

  // ----- definitions -----

  /** `definitions.update(unc)` (src/index.ts:46-50): update from the UNC
      share when one is given and not empty, from Microsoft's servers
      otherwise. No elevation is demanded. */
  function UpdateDefinitions(host: Host, tool: Tool, unc: Value): (run: Run<Unit>)
    ensures run.invocation.Some? <==> OptionalString(unc)
    ensures run.invocation.None? ==> run.outcome == Threw(ArgumentError)
    ensures run.invocation.Some? ==>
              var args := run.invocation.value;
              && |args| >= 2 && args[0] == "-SignatureUpdate"
              && (args[1] == "-UNC" <==> Truthy(unc))
              && (args[1] == "-MMPC" <==> !Truthy(unc))
              && (Truthy(unc) ==> args == ["-SignatureUpdate", "-UNC", host.resolve(unc.s)])
              && (!Truthy(unc) ==> args == ["-SignatureUpdate", "-MMPC"])
              && run.outcome == Awaited(tool(args))
  {
    if !OptionalString(unc) then Run(None, Threw(ArgumentError))
    else if Truthy(unc) then
      var args := ["-SignatureUpdate", "-UNC", host.resolve(unc.s)];
      Run(Some(args), Awaited(tool(args)))
    else
      var args := ["-SignatureUpdate", "-MMPC"];
      Run(Some(args), Awaited(tool(args)))
  }

  /** `definitions.dynamicSignatures.remove(id)` (src/index.ts:58-63): remove
      the signature set `id` whenever `id` is a string, the empty string
      included, and all dynamic signatures otherwise; elevation first. */
  function RemoveDynamicSignatures(host: Host, tool: Tool, id: Value): (run: Run<Unit>)
    ensures !host.admin ==> run == Run(None, Threw(AdminRequired))
    ensures host.admin && !OptionalString(id) ==> run == Run(None, Threw(ArgumentError))
    ensures run.invocation.Some? <==> host.admin && OptionalString(id)
    ensures run.invocation.Some? ==>
              var args := run.invocation.value;
              && |args| >= 2
              && (args[1] == "-SignatureSetID" <==> id.Str?)
              && (id.Str? ==> args == ["-RemoveDynamicSignature", "-SignatureSetID", id.s])
              && (!id.Str? ==> args == ["-RemoveDefinitions", "-DynamicSignatures"])
              && run.outcome == Awaited(tool(args))
  {
    if !host.admin then Run(None, Threw(AdminRequired))
    else if !OptionalString(id) then Run(None, Threw(ArgumentError))
    else if id.Str? then
      var args := ["-RemoveDynamicSignature", "-SignatureSetID", id.s];
      Run(Some(args), Awaited(tool(args)))
    else
      var args := ["-RemoveDefinitions", "-DynamicSignatures"];
      Run(Some(args), Awaited(tool(args)))
  }

  /** An edge case of the two contracts above: the empty string is a string
      but not truthy, so the update falls back to Microsoft's servers while
      the removal names the empty signature set. */
  lemma EmptyStringDispatch(host: Host, tool: Tool)
    ensures UpdateDefinitions(host, tool, Str("")).invocation == Some(["-SignatureUpdate", "-MMPC"])
    ensures host.admin ==>
              RemoveDynamicSignatures(host, tool, Str("")).invocation
              == Some(["-RemoveDynamicSignature", "-SignatureSetID", ""])
  {
  }

  // ----- exclusions -----

  /** `isExcluded(dir)` (src/index.ts:24-33): whether the tool's exclusion
      check for the resolved path succeeds. Once the tool has run, the
      answer is a boolean and never an error. */
  function IsExcluded(host: Host, tool: Tool, dir: Value): (run: Run<bool>)
    ensures !host.admin ==> run == Run(None, Threw(AdminRequired))
    ensures host.admin && !dir.Str? ==> run == Run(None, Threw(ArgumentError))
    ensures run.invocation.Some? <==> host.admin && dir.Str?
    ensures run.invocation.Some? ==>
              && run.invocation.value == ["-CheckExclusion", "-Path", host.resolve(dir.s)]
              && run.outcome == Returned(tool(run.invocation.value).Succeeded?)
  {
    if !host.admin then Run(None, Threw(AdminRequired))
    else if !dir.Str? then Run(None, Threw(ArgumentError))
    else
      var args := ["-CheckExclusion", "-Path", host.resolve(dir.s)];
      Run(Some(args), Returned(tool(args).Succeeded?))
  }

  // ----- quarantine -----

  /** `quarantine.list()` (src/index.ts:84-96): the tool's list of quarantined
      threats, read; a failed run throws its own error. */
  function QuarantineList(host: Host, tool: Tool): (run: Run<seq<QuarantineReport.QuarantinedThreat>>)
    ensures !host.admin ==> run == Run(None, Threw(AdminRequired))
    ensures host.admin ==> run.invocation == Some(["-Restore", "-ListAll"])
    ensures host.admin && tool(["-Restore", "-ListAll"]).Failed? ==>
              run.outcome == Threw(tool(["-Restore", "-ListAll"]).AsError())
    ensures host.admin && tool(["-Restore", "-ListAll"]).Succeeded? ==>
              run.outcome == QuarantineReport.ParseList(tool(["-Restore", "-ListAll"]).stdout)
    ensures run.outcome.Returned? ==> tool(["-Restore", "-ListAll"]).Succeeded?
  {
    if !host.admin then Run(None, Threw(AdminRequired))
    else
      var args := ["-Restore", "-ListAll"];
      match tool(args)
      case Failed(_, _) => Run(Some(args), Threw(tool(args).AsError()))
      case Succeeded(stdout) => Run(Some(args), QuarantineReport.ParseList(stdout))
  }

  /** Listing what the tool reports as quarantined gives back those threats,
      in order, each with its files and times; what cannot be read throws a
      TypeError. */
  lemma QuarantineListReads(host: Host, tool: Tool, header: seq<string>, indent: string,
                            ts: seq<QuarantineReport.QuarantinedThreat>)
    requires host.admin
    requires tool(["-Restore", "-ListAll"]) == Succeeded(QuarantineReport.Listing(header, indent, ts))
    requires |header| == 2 && CrlfFree(header) && QuarantineReport.IsIndent(indent)
    requires forall k | 0 <= k < |ts| :: QuarantineReport.WellFormedEntry(ts[k])
    ensures QuarantineList(host, tool).outcome == Returned(ts)
  {
    QuarantineReport.ParseListing(header, indent, ts);
  }

  /** Once the tool has listed the quarantine, the only error left is the
      TypeError of an entry that cannot be read. */
  lemma QuarantineListErrors(host: Host, tool: Tool)
    requires host.admin && tool(["-Restore", "-ListAll"]).Succeeded?
    ensures QuarantineList(host, tool).outcome.Threw? ==> QuarantineList(host, tool).outcome.error == TypeError
  {
    QuarantineReport.ParseListEach(tool(["-Restore", "-ListAll"]).stdout);
  }

  /** The arguments of a restore: by path when the resolved name exists, by
      threat name, unchanged, otherwise; then the folder to restore into,
      resolved, when one is given. */
  function RestoreArgs(host: Host, name: string, restoreDir: Value): seq<string> {
    var resolved := host.resolve(name);
    var present := host.pathExists(resolved);
    ["-Restore", if present then "-Path" else "-Name", if present then resolved else name]
    + (if restoreDir.Str? then ["-FilePath", host.resolve(restoreDir.s)] else [])
  }

  /** The restore arguments: `-Path` with the resolved name exactly when that
      path exists, `-Name` with the name as given exactly when it does not,
      and `-FilePath` with the resolved folder exactly when a folder is
      given. */
  lemma RestoreArgsLayout(host: Host, name: string, restoreDir: Value)
    ensures var args := RestoreArgs(host, name, restoreDir);
            var present := host.pathExists(host.resolve(name));
            && args[0] == "-Restore"
            && (args[1] == "-Path" <==> present)
            && (args[1] == "-Name" <==> !present)
            && args[2] == (if present then host.resolve(name) else name)
            && (|args| == 5 <==> restoreDir.Str?)
            && |args| in {3, 5}
            && (restoreDir.Str? ==> args[3] == "-FilePath" && args[4] == host.resolve(restoreDir.s))
  {
  }

  /** `quarantine.restore(name, restoreDir)` (src/index.ts:98-110): elevation,
      the checks, then the argument list grown by the folder when one is
      given, and one run of the tool. */
  method Restore(host: Host, tool: Tool, name: Value, restoreDir: Value) returns (run: Run<Unit>)
    ensures !host.admin ==> run == Run(None, Threw(AdminRequired))
    ensures host.admin && !(name.Str? && OptionalString(restoreDir)) ==> run == Run(None, Threw(ArgumentError))
    ensures host.admin && name.Str? && OptionalString(restoreDir) ==>
              var args := RestoreArgs(host, name.s, restoreDir);
              run == Run(Some(args), Awaited(tool(args)))
  {
    if !host.admin {
      return Run(None, Threw(AdminRequired));
    }
    if !name.Str? || !OptionalString(restoreDir) {
      return Run(None, Threw(ArgumentError));
    }
    var present := host.pathExists(host.resolve(name.s));
    var opts := ["-Restore", if present then "-Path" else "-Name", if present then host.resolve(name.s) else name.s];
    if restoreDir.Str? {
      opts := opts + ["-FilePath"];
      opts := opts + [host.resolve(restoreDir.s)];
    }
    assert opts == RestoreArgs(host, name.s, restoreDir);
    run := Run(Some(opts), Awaited(tool(opts)));
  }
}
