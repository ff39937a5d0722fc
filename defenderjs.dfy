/**
 * The earlier version of the wrapper, index.js: the scan commands that the
 * module hangs on the `scan` function object as it loads, and the custom
 * scan of one path, which reads the same report as src/index.ts but has no
 * timeout and no guard against the `CmdTool` banner.
 */
module DefenderJs {
  import opened Text
  import opened Js
  import opened ThreatReport
  import opened RuleSplit
  import Defender

  // ----- the commands hung on `scan` as the module loads -----

  /** The three system scans, by the scan type they send. */
  datatype Kind = Default | Quick | Full

  /** A property of the `scan` function object: the function that starts a
      kind of scan (`scan`, `scan.quick`, `scan.full`) or the one that cancels
      it (`scan.cancel`, `scan.quick.cancel`, `scan.full.cancel`). */
  datatype Property = Start(kind: Kind) | Cancel(kind: Kind)

  /** One assignment of the module body: the property it sets and the fixed
      argument list that the stored function hands to the tool. */
  datatype Assignment = Assignment(property: Property, args: seq<string>)

  /** The assignments of index.js:11-15 and 59, in the order they run. Line 15
      sets `scan.quick.cancel` a second time. */
  const AsWritten: seq<Assignment> := [
    Assignment(Start(Default), ["-Scan", "-ScanType", "0"]),
    Assignment(Start(Quick), ["-Scan", "-ScanType", "1"]),
    Assignment(Cancel(Quick), ["-Scan", "-ScanType", "1", "-Cancel"]),
    Assignment(Start(Full), ["-Scan", "-ScanType", "2"]),
    Assignment(Cancel(Quick), ["-Scan", "-ScanType", "2", "-Cancel"]),
    Assignment(Cancel(Default), ["-Scan", "-ScanType", "0", "-Cancel"])
  ]

  /** The same assignments with line 15 setting the full scan's cancel, which
      is what its argument list (scan type 2) is for. */
  const Intended: seq<Assignment> := [
    Assignment(Start(Default), ["-Scan", "-ScanType", "0"]),
    Assignment(Start(Quick), ["-Scan", "-ScanType", "1"]),
    Assignment(Cancel(Quick), ["-Scan", "-ScanType", "1", "-Cancel"]),
    Assignment(Start(Full), ["-Scan", "-ScanType", "2"]),
    Assignment(Cancel(Full), ["-Scan", "-ScanType", "2", "-Cancel"]),
    Assignment(Cancel(Default), ["-Scan", "-ScanType", "0", "-Cancel"])
  ]

  /** The commands after running `body` from `commands`, one assignment after
      the other. */
  function Applied(commands: map<Property, seq<string>>, body: seq<Assignment>): map<Property, seq<string>>
    decreases |body|
  {
    if body == [] then commands
    else Applied(commands[body[0].property := body[0].args], body[1..])
  }

  /** The properties set after the body are those set before it and those
      the body assigns. */
  lemma {:induction false} AppliedKeys(commands: map<Property, seq<string>>, body: seq<Assignment>)
    ensures Applied(commands, body).Keys == commands.Keys + set a | a in body :: a.property
    decreases |body|
  {
    if body != [] {
      AppliedKeys(commands[body[0].property := body[0].args], body[1..]);
      assert forall a :: a in body <==> a == body[0] || a in body[1..];
    }
  }

  /** The last assignment to a property decides what it holds. */
  lemma {:induction false} AppliedLastWins(commands: map<Property, seq<string>>, body: seq<Assignment>, k: nat)
    requires k < |body|
    requires forall j | k < j < |body| :: body[j].property != body[k].property
    ensures body[k].property in Applied(commands, body)
    ensures Applied(commands, body)[body[k].property] == body[k].args
    decreases |body|
  {
    var next := commands[body[0].property := body[0].args];
    if k == 0 {
      AppliedUntouched(next, body[1..], body[0].property);
    } else {
      forall j | k - 1 < j < |body[1..]| ensures body[1..][j].property != body[1..][k - 1].property {
        assert body[1..][j] == body[j + 1];
      }
      AppliedLastWins(next, body[1..], k - 1);
    }
  }

  /** A property the body never assigns keeps what it held. */
  lemma {:induction false} AppliedUntouched(commands: map<Property, seq<string>>, body: seq<Assignment>, p: Property)
    requires p in commands
    requires forall j | 0 <= j < |body| :: body[j].property != p
    ensures p in Applied(commands, body) && Applied(commands, body)[p] == commands[p]
    decreases |body|
  {
    if body != [] {
      AppliedUntouched(commands[body[0].property := body[0].args], body[1..], p);
    }
  }

  /** The `scan` function object after index.js has loaded. */
  class ScanFunction {
    /** The argument list that the function stored under each property
        hands to the tool. */
    var commands: map<Property, seq<string>>

    /** `scan.<property> = () => execa(defenderPath, args)` */
    method Assign(property: Property, args: seq<string>)
      modifies this
      ensures commands == old(commands)[property := args]
    {
      commands := commands[property := args];
    }

    /** Loading index.js: the assignments of lines 11-15 and 59, in order. */
    constructor Load()
      ensures commands == Applied(map[], AsWritten)
    {
      commands := map[];
      new;
      Assign(Start(Default), ["-Scan", "-ScanType", "0"]);
      Assign(Start(Quick), ["-Scan", "-ScanType", "1"]);
      Assign(Cancel(Quick), ["-Scan", "-ScanType", "1", "-Cancel"]);
      Assign(Start(Full), ["-Scan", "-ScanType", "2"]);
      Assign(Cancel(Quick), ["-Scan", "-ScanType", "2", "-Cancel"]);
      Assign(Cancel(Default), ["-Scan", "-ScanType", "0", "-Cancel"]);
    }

    /** Loading index.js with line 15 assigning `scan.full.cancel`. */
    constructor LoadIntended()
      ensures commands == Applied(map[], Intended)
    {
      commands := map[];
      new;
      Assign(Start(Default), ["-Scan", "-ScanType", "0"]);
      Assign(Start(Quick), ["-Scan", "-ScanType", "1"]);
      Assign(Cancel(Quick), ["-Scan", "-ScanType", "1", "-Cancel"]);
      Assign(Start(Full), ["-Scan", "-ScanType", "2"]);
      Assign(Cancel(Full), ["-Scan", "-ScanType", "2", "-Cancel"]);
      Assign(Cancel(Default), ["-Scan", "-ScanType", "0", "-Cancel"]);
    }
  }

  /** Every scan that is there has a cancel, and that cancel names the scan
      type of the scan it hangs under. */
  predicate CancelsMatchScans(commands: map<Property, seq<string>>) {
    forall k: Kind | Start(k) in commands ::
      && Cancel(k) in commands
      && Defender.OptionValue(commands[Cancel(k)], "-ScanType") == Defender.OptionValue(commands[Start(k)], "-ScanType")
  }

  /** The scan type a scan or cancel command sends is the one written
      after `-ScanType`. */
  lemma ScanTypeSent(args: seq<string>, t: string)
    requires args == ["-Scan", "-ScanType", t] || args == ["-Scan", "-ScanType", t, "-Cancel"]
    ensures Defender.OptionValue(args, "-ScanType") == Some(t)
  {
    Defender.OptionValueAt(args, "-ScanType", 1);
  }

  lemma AsWrittenKeys()
    ensures Applied(map[], AsWritten).Keys
         == {Start(Default), Start(Quick), Start(Full), Cancel(Quick), Cancel(Default)}
  {
    AppliedKeys(map[], AsWritten);
    assert (set a | a in AsWritten :: a.property)
        == {Start(Default), Start(Quick), Start(Full), Cancel(Quick), Cancel(Default)} by {
      assert AsWritten[0].property == Start(Default) && AsWritten[1].property == Start(Quick);
      assert AsWritten[3].property == Start(Full) && AsWritten[5].property == Cancel(Default);
      assert AsWritten[4].property == Cancel(Quick);
    }
  }

  lemma AsWrittenValues()
    ensures var m := Applied(map[], AsWritten);
            && Start(Default) in m && m[Start(Default)] == ["-Scan", "-ScanType", "0"]
            && Start(Quick) in m && m[Start(Quick)] == ["-Scan", "-ScanType", "1"]
            && Start(Full) in m && m[Start(Full)] == ["-Scan", "-ScanType", "2"]
            && Cancel(Quick) in m && m[Cancel(Quick)] == ["-Scan", "-ScanType", "2", "-Cancel"]
            && Cancel(Default) in m && m[Cancel(Default)] == ["-Scan", "-ScanType", "0", "-Cancel"]
  {
    AppliedLastWins(map[], AsWritten, 0);
    AppliedLastWins(map[], AsWritten, 1);
    AppliedLastWins(map[], AsWritten, 3);
    AppliedLastWins(map[], AsWritten, 4);
    AppliedLastWins(map[], AsWritten, 5);
  }

  /** The commands as index.js loads them: the scans send types 0, 1 and 2;
      `scan.cancel` cancels type 0; `scan.quick.cancel` ends up cancelling
      type 2, the full scan; `scan.full` has no cancel at all, so the
      cancels do not match the scans. */
  lemma LoadedAsWritten()
    ensures var m := Applied(map[], AsWritten);
            && m.Keys == {Start(Default), Start(Quick), Start(Full), Cancel(Quick), Cancel(Default)}
            && Defender.OptionValue(m[Start(Default)], "-ScanType") == Some("0")
            && Defender.OptionValue(m[Start(Quick)], "-ScanType") == Some("1")
            && Defender.OptionValue(m[Start(Full)], "-ScanType") == Some("2")
            && m[Cancel(Default)] == ["-Scan", "-ScanType", "0", "-Cancel"]
            && m[Cancel(Quick)] == ["-Scan", "-ScanType", "2", "-Cancel"]
            && Cancel(Full) !in m
            && !CancelsMatchScans(m)
  {
    var m := Applied(map[], AsWritten);
    AsWrittenKeys();
    AsWrittenValues();
    ScanTypeSent(m[Start(Default)], "0");
    ScanTypeSent(m[Start(Quick)], "1");
    ScanTypeSent(m[Start(Full)], "2");
  }

  lemma IntendedKeys()
    ensures Applied(map[], Intended).Keys
         == {Start(Default), Start(Quick), Start(Full), Cancel(Default), Cancel(Quick), Cancel(Full)}
  {
    AppliedKeys(map[], Intended);
    assert (set a | a in Intended :: a.property)
        == {Start(Default), Start(Quick), Start(Full), Cancel(Default), Cancel(Quick), Cancel(Full)} by {
      assert Intended[0].property == Start(Default) && Intended[1].property == Start(Quick);
      assert Intended[2].property == Cancel(Quick) && Intended[3].property == Start(Full);
      assert Intended[4].property == Cancel(Full) && Intended[5].property == Cancel(Default);
    }
  }

  lemma IntendedValues()
    ensures var m := Applied(map[], Intended);
            && Start(Default) in m && m[Start(Default)] == ["-Scan", "-ScanType", "0"]
            && Start(Quick) in m && m[Start(Quick)] == ["-Scan", "-ScanType", "1"]
            && Start(Full) in m && m[Start(Full)] == ["-Scan", "-ScanType", "2"]
            && Cancel(Default) in m && m[Cancel(Default)] == ["-Scan", "-ScanType", "0", "-Cancel"]
            && Cancel(Quick) in m && m[Cancel(Quick)] == ["-Scan", "-ScanType", "1", "-Cancel"]
            && Cancel(Full) in m && m[Cancel(Full)] == ["-Scan", "-ScanType", "2", "-Cancel"]
  {
    AppliedLastWins(map[], Intended, 0);
    AppliedLastWins(map[], Intended, 1);
    AppliedLastWins(map[], Intended, 2);
    AppliedLastWins(map[], Intended, 3);
    AppliedLastWins(map[], Intended, 4);
    AppliedLastWins(map[], Intended, 5);
  }

  /** With line 15 assigning the full scan's cancel, every scan has a cancel
      and each cancel names its own scan's type. */
  lemma LoadedIntended()
    ensures var m := Applied(map[], Intended);
            && m.Keys == {Start(Default), Start(Quick), Start(Full), Cancel(Default), Cancel(Quick), Cancel(Full)}
            && CancelsMatchScans(m)
            && m[Cancel(Quick)] == ["-Scan", "-ScanType", "1", "-Cancel"]
            && m[Cancel(Full)] == ["-Scan", "-ScanType", "2", "-Cancel"]
  {
    var m := Applied(map[], Intended);
    IntendedKeys();
    IntendedValues();
    ScanTypeSent(m[Start(Default)], "0");
    ScanTypeSent(m[Start(Quick)], "1");
    ScanTypeSent(m[Start(Full)], "2");
    ScanTypeSent(m[Cancel(Default)], "0");
    ScanTypeSent(m[Cancel(Quick)], "1");
    ScanTypeSent(m[Cancel(Full)], "2");
  }

  // ----- scan.custom -----

  /** The options object of `scan.custom`; it has no timeout. */
  datatype CustomOptions = CustomOptions(scanBootSector: Value, remediate: Value)

  const NoCustomOptions: CustomOptions := CustomOptions(Undefined, Undefined)

  /** The checks `scan.custom` makes on its arguments, defaults applied,
      before it runs anything (index.js:35-37). */
  predicate CustomArgumentsValid(dir: Value, options: CustomOptions) {
    && dir.Str?
    && WithDefault(options.scanBootSector, Bool(false)).Bool?
    && WithDefault(options.remediate, Bool(false)).Bool?
  }

  /** The arguments of a custom scan of `file` as index.js builds them: the
      scan of type 3 of that file, then the boot-sector flag when asked for,
      then the flag that turns remediation off when remediation is not asked
      for. */
  function CustomArgs(file: string, bootSector: bool, remediate: bool): seq<string> {
    ["-Scan", "-ScanType", "3", "-File", file]
    + (if bootSector then ["-BootSectorScan"] else [])
    + (if remediate then [] else ["-DisableRemediation"])
  }

  /** The index.js custom-scan arguments: the path at its place,
      `-BootSectorScan` exactly when the boot sector is to be scanned,
      `-DisableRemediation` exactly when remediation is not asked for, the
      former first, and no `-Timeout` flag. */
  lemma CustomArgsLayout(file: string, bootSector: bool, remediate: bool)
    ensures var args := CustomArgs(file, bootSector, remediate);
            && |args| == 5 + (if bootSector then 1 else 0) + (if remediate then 0 else 1)
            && args[..5] == ["-Scan", "-ScanType", "3", "-File", file]
            && ("-BootSectorScan" in args[5..] <==> bootSector)
            && ("-DisableRemediation" in args[5..] <==> !remediate)
            && (bootSector ==> args[5] == "-BootSectorScan")
            && "-Timeout" !in args[..4] && "-Timeout" !in args[5..]
  {
    var args := CustomArgs(file, bootSector, remediate);
    assert args[5..] == (if bootSector then ["-BootSectorScan"] else [])
                        + (if remediate then [] else ["-DisableRemediation"]);
    assert "-BootSectorScan" != "-DisableRemediation" by {
      assert |"-BootSectorScan"| != |"-DisableRemediation"|;
    }
    assert "-Timeout" != "-BootSectorScan" && "-Timeout" != "-DisableRemediation" by {
      assert |"-Timeout"| != |"-BootSectorScan"| && |"-Timeout"| != |"-DisableRemediation"|;
    }
    assert "-Timeout" !in args[..4] by {
      assert "-Timeout" != "-Scan" by { assert |"-Timeout"| != |"-Scan"|; }
      assert "-Timeout" != "-ScanType" by { assert "-Timeout"[1] != "-ScanType"[1]; }
      assert "-Timeout" != "-File" by { assert |"-Timeout"| != |"-File"|; }
    }
  }

  /** The two versions build the same list but for the timeout: src/index.ts
      puts `-Timeout <n>` right after the path, where index.js puts nothing. */
  lemma CustomArgsAgainstTimed(file: string, timeout: nat, bootSector: bool, remediate: bool)
    ensures var args := CustomArgs(file, bootSector, remediate);
            Defender.CustomScanArgs(file, timeout, bootSector, remediate)
            == args[..5] + ["-Timeout", Defender.DecimalString(timeout)] + args[5..]
  {
  }

  /** What `scan.custom` makes of the tool's run: nothing found when the tool
      succeeds, the report read into threats whenever it exits with code 2,
      the tool's own error for any other exit. */
  function ClassifyCustom(result: ToolResult): (r: Outcome<seq<Threat>>)
    ensures result.Succeeded? ==> r == Returned([])
    ensures result.Failed? && result.code != 2 ==> r == Threw(result.AsError())
    ensures result.Failed? && result.code == 2 ==> r == ParseReport(result.stdout)
  {
    match result
    case Succeeded(_) => Returned([])
    case Failed(code, stdout) =>
      if code == 2 then ParseReport(stdout)
      else Threw(result.AsError())
  }

  /** `scan.custom(dir, options)` (index.js:16-58): the checks, the argument
      list grown one flag at a time, one run of the tool, and what is made of
      it. No elevation is asked for. */
  method CustomScan(host: Defender.Host, tool: Defender.Tool, dir: Value, options: CustomOptions)
    returns (run: Run<seq<Threat>>)
    ensures !CustomArgumentsValid(dir, options) ==> run == Run(None, Threw(ArgumentError))
    ensures CustomArgumentsValid(dir, options) ==>
              var args := CustomArgs(host.resolve(dir.s),
                                     WithDefault(options.scanBootSector, Bool(false)).b,
                                     WithDefault(options.remediate, Bool(false)).b);
              run == Run(Some(args), ClassifyCustom(tool(args)))
  {
    var scanBootSector := WithDefault(options.scanBootSector, Bool(false));
    var remediate := WithDefault(options.remediate, Bool(false));
    if !dir.Str? || !scanBootSector.Bool? || !remediate.Bool? {
      return Run(None, Threw(ArgumentError));
    }
    var opts := ["-Scan", "-ScanType", "3", "-File", host.resolve(dir.s)];
    if scanBootSector.b == true {
      opts := opts + ["-BootSectorScan"];
    }
    if remediate.b == false {
      opts := opts + ["-DisableRemediation"];
    }
    assert opts == CustomArgs(host.resolve(dir.s), scanBootSector.b, remediate.b);
    run := Run(Some(opts), ClassifyCustom(tool(opts)));
  }

  /** The two custom scans make the same of every run of the tool but one
      kind: an exit with code 2 whose output opens with `CmdTool`. There
      src/index.ts throws the tool's own error, while index.js reads the
      output as a report, so its result is a list of threats or a TypeError
      and never the tool's error. */
  lemma ClassifiersAgree(result: ToolResult)
    ensures !(result.Failed? && result.code == 2 && StartsWith(result.stdout, "CmdTool")) ==>
              ClassifyCustom(result) == Defender.ClassifyScan(result)
    ensures result.Failed? && result.code == 2 && StartsWith(result.stdout, "CmdTool") ==>
              && Defender.ClassifyScan(result) == Threw(result.AsError())
              && ClassifyCustom(result) == ParseReport(result.stdout)
              && ClassifyCustom(result) != Threw(result.AsError())
  {
    if result.Failed? && result.code == 2 {
      ParseReportErrors(result.stdout);
    }
  }

  /** The crash banner of a run that failed with code 2, a single line
      opening with `CmdTool`. */
  const CrashBanner: string := "CmdTool: Failed with hr = 0x80508023"

  /** A run that failed with code 2 and printed only the crash banner: index.js
      reports that nothing was found, where src/index.ts throws the failure. */
  lemma CrashBannerReadAsClean()
    ensures var result := Failed(2, CrashBanner);
            && ClassifyCustom(result) == Returned([])
            && Defender.ClassifyScan(result) == Threw(result.AsError())
  {
    assert StartsWith(CrashBanner, "CmdTool");
    assert NoLineTerminator(CrashBanner);
    NoLineTerminatorNoCrlf(CrashBanner);
    SplitCrlfNone(CrashBanner);
    ShortOutputNoThreats(CrashBanner);
  }

  /** The folder the doc comment of `scan.custom` scanned, one path
      component at a time. */
  const ExampleFolder: string := "D:\\" + "0 - Richie Bendall\\" + "GitHub\\" + "windows-defender\\" + "f\\"

  /** The name of the doc comment's third file, a 64-digit hash, written in
      four pieces of 16 digits. */
  const ExampleHash: string := "edac70a21147f442" + "ce6cc0736c6ea249" + "79e39925ca537823" + "78d91b9c24f3fb54"

  /** The result shown in the doc comment of `scan.custom` (index.js:17-33):
      two threats, the first found in two files, the second in one. */
  const DocExample: seq<Threat> := [
    Threat("Virus:DOS/EICAR_Test_File",
           [ExampleFolder + "eicar.com.txt", ExampleFolder + "eicar.com copy.txt"]),
    Threat("Trojan:Win32/Woreflint.A!cl",
           [ExampleFolder + ExampleHash])
  ]

  /** A line without a line terminator and with no `f` followed by `i`
      holds no `file`. */
  lemma NoFileIn(s: string)
    requires NoLineTerminator(s)
    requires forall k | 0 <= k < |s| - 3 :: s[k] != 'f' || s[k + 1] != 'i'
    ensures !Occurs(s, "file")
  {
    var w := "file";
    assert w[0] == 'f' && w[1] == 'i';
    forall i | 0 <= i <= |s| - 4 ensures !OccursAt(s, w, i) {
      assert s[i + 0] != w[0] || s[i + 1] != w[1];
    }
  }

  lemma FolderSingleLine()
    ensures NoLineTerminator(ExampleFolder)
  {
    var a, b, c, d, e := "D:\\", "0 - Richie Bendall\\", "GitHub\\", "windows-defender\\", "f\\";
    assert ExampleFolder == a + b + c + d + e;
    assert NoLineTerminator(a) && NoLineTerminator(b) && NoLineTerminator(c);
    assert NoLineTerminator(d) && NoLineTerminator(e);
    NoLineTerminatorAppend(a, b);
    NoLineTerminatorAppend(a + b, c);
    NoLineTerminatorAppend(a + b + c, d);
    NoLineTerminatorAppend(a + b + c + d, e);
  }

  lemma HashSingleLine()
    ensures NoLineTerminator(ExampleHash)
  {
    var a, b, c, d := "edac70a21147f442", "ce6cc0736c6ea249", "79e39925ca537823", "78d91b9c24f3fb54";
    assert ExampleHash == a + b + c + d;
    assert NoLineTerminator(a) && NoLineTerminator(b);
    assert NoLineTerminator(c) && NoLineTerminator(d);
    NoLineTerminatorAppend(a, b);
    NoLineTerminatorAppend(a + b, c);
    NoLineTerminatorAppend(a + b + c, d);
  }

  /** The two threat names are single lines that hold no `file`. */
  lemma ExampleNames()
    ensures LineValue("Virus:DOS/EICAR_Test_File") && !Occurs("Virus:DOS/EICAR_Test_File", "file")
    ensures LineValue("Trojan:Win32/Woreflint.A!cl") && !Occurs("Trojan:Win32/Woreflint.A!cl", "file")
  {
    assert NoLineTerminator("Virus:DOS/EICAR_Test_File");
    NoFileIn("Virus:DOS/EICAR_Test_File");
    assert NoLineTerminator("Trojan:Win32/Woreflint.A!cl");
    NoFileIn("Trojan:Win32/Woreflint.A!cl");
  }

  /** A file of the example folder is a single line. */
  lemma ExampleFile(name: string)
    requires name != [] && NoLineTerminator(name)
    ensures LineValue(ExampleFolder + name)
  {
    FolderSingleLine();
    NoLineTerminatorAppend(ExampleFolder, name);
  }

  lemma DocExampleFirst()
    ensures WellFormed(DocExample[0])
  {
    ExampleNames();
    assert NoLineTerminator("eicar.com.txt") && NoLineTerminator("eicar.com copy.txt");
    ExampleFile("eicar.com.txt");
    ExampleFile("eicar.com copy.txt");
  }

  lemma DocExampleSecond()
    ensures WellFormed(DocExample[1])
  {
    ExampleNames();
    HashSingleLine();
    ExampleFile(ExampleHash);
  }

  /** A scan that exits with code 2 and prints a report of the doc comment's
      two threats, under any five header lines, rule and last line, returns
      exactly those two threats in that order. */
  lemma DocExampleParsed(header: seq<string>, rule: string, footer: string)
    requires |header| == 5 && IsRule(rule) && CrlfFree(header) && !Occurs(footer, CRLF)
    ensures ClassifyCustom(Failed(2, Report(header, DocExample, rule, footer))) == Returned(DocExample)
    ensures |DocExample| == 2 && |DocExample[0].files| == 2 && |DocExample[1].files| == 1
  {
    DocExampleFirst();
    DocExampleSecond();
    ParseRendered(header, DocExample, rule, footer);
  }
}
