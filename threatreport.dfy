/**
 * The custom-scan report parser: the tool's text output after a scan that
 * found threats, read into one `Threat` per block. The same expression chain
 * appears in both versions of the wrapper (src/index.ts:146-148 and
 * index.js:50-53).
 */
module ThreatReport {
  import opened Text
  import opened Patterns
  import opened RuleSplit
  import opened Js

  /** A detected threat and the files it was found in. */
  datatype Threat = Threat(threat: string, files: seq<string>)

  /** `/Threat *: (?<threat>.+)/` */
  const ThreatPattern: Pattern := Labelled("Threat")
  /** `/file *: (.+)/`, used both globally and per match */
  const FilePattern: Pattern := Labelled("file")

  /** Lines the tool prints before the report proper, and after it. */
  const HeaderLines: int := 5
  const FooterLines: int := 1

  /** `stdout.split("\r\n").slice(5, -1).join("\n").split(/^-*$/gm).slice(0, -1)`:
      the report's blocks, the piece after the last rule dropped. */
  function Blocks(stdout: string): (blocks: seq<string>)
  {
    var lines := Split(stdout, CRLF);
    var body := Join(Slice(lines, HeaderLines, -FooterLines), LF);
    Slice(SplitAtRules(body), 0, -1)
  }

  /** One block read into a threat: the capture of the first `Threat` line,
      and the captures of all `file` lines. A missing `Threat` line makes
      `.groups` read from `null`; no `file` line at all makes `.map` read from
      `null`; both throw a TypeError. */
  function ParseBlock(block: string): Outcome<Threat>
  {
    match FirstCapture(ThreatPattern, block)
    case None => Threw(TypeError)
    case Some(name) =>
      match MatchGlobal(FilePattern, block)
      case None => Threw(TypeError)
      case Some(texts) =>
        match CaptureEach(FilePattern, texts)
        case None => Threw(TypeError)
        case Some(files) => Returned(Threat(name, files))
  }

  /** `blocks.map(parse)`: the first block that throws ends the call. */
  function ParseBlocks(blocks: seq<string>): Outcome<seq<Threat>>
  {
    MapOrThrow(blocks, ParseBlock)
  }

  /** The whole parser, applied to the output of a scan that found threats. */
  function ParseReport(stdout: string): Outcome<seq<Threat>>
  {
    ParseBlocks(Blocks(stdout))
  }

  // ----- what the parser returns -----

  /** One record per block, in order, each what its own block reads as; or
      the error of the first block that cannot be read. */
  lemma ParseBlocksEach(blocks: seq<string>)
    ensures var r := ParseBlocks(blocks);
            && (r.Returned? <==> forall k | 0 <= k < |blocks| :: ParseBlock(blocks[k]).Returned?)
            && (r.Returned? ==>
                  && |r.value| == |blocks|
                  && forall k | 0 <= k < |blocks| :: ParseBlock(blocks[k]) == Returned(r.value[k]))
  {
    MapOrThrowEach(blocks, ParseBlock);
  }

  /** A block reads as a threat exactly when it has a `Threat` line and at
      least one `file` line; the threat is the first `Threat` capture and the
      files are the `file` captures in order. */
  lemma ParseBlockCharacterised(block: string)
    ensures var name := FirstCapture(ThreatPattern, block);
            var found := AllFound(FilePattern, block, 0);
            ParseBlock(block)
            == if name.Some? && found != [] then Returned(Threat(name.value, Captures(found)))
               else Threw(TypeError)
  {
    var found := AllFound(FilePattern, block, 0);
    AllFoundRecapture(FilePattern, block, 0);
    CaptureEachOfFound(FilePattern, found);
  }

  /** Whatever a block reads as has a non-empty threat name and at least one
      file, each name and file a non-empty piece of a single line. */
  lemma ParseBlockShape(block: string)
    requires ParseBlock(block).Returned?
    ensures var t := ParseBlock(block).value;
            && t.threat != [] && NoLineTerminator(t.threat)
            && t.files != []
            && forall k | 0 <= k < |t.files| :: t.files[k] != [] && NoLineTerminator(t.files[k])
  {
    ParseBlockCharacterised(block);
    FirstCaptureShape(ThreatPattern, block);
    AllFoundShape(FilePattern, block, 0);
  }

  /** The only error the parser throws is the TypeError of a block it
      cannot read. */
  lemma ParseReportErrors(stdout: string)
    ensures ParseReport(stdout).Threw? ==> ParseReport(stdout).error == TypeError
  {
    var blocks := Blocks(stdout);
    MapOrThrowEach(blocks, ParseBlock);
    if ParseReport(stdout).Threw? {
      var k :| 0 <= k < |blocks| && ParseBlock(blocks[k]) == Threw(ParseReport(stdout).error);
      ParseBlockCharacterised(blocks[k]);
    }
  }

  /** Output of six lines or fewer holds no block: the five header lines
      and the last line take all of it, and it reads as no threats. */
  lemma ShortOutputNoThreats(stdout: string)
    requires |Split(stdout, CRLF)| <= HeaderLines + FooterLines
    ensures Blocks(stdout) == [] && ParseReport(stdout) == Returned([])
  {
    var lines := Split(stdout, CRLF);
    assert Slice(lines, HeaderLines, -FooterLines) == [];
    assert Join([], LF) == [];
    assert SplitAtRules([]) == [];
  }

  // ----- well-formed reports -----

  /** `<tag> : <value>`: the form of the report's labelled lines. */
  function LabelLine(tag: string, value: string): string {
    tag + " : " + value
  }

  function FileLines(files: seq<string>): (lines: seq<string>)
    ensures |lines| == |files|
    ensures forall k | 0 <= k < |files| :: lines[k] == LabelLine("file", files[k])
  {
    if files == [] then [] else [LabelLine("file", files[0])] + FileLines(files[1..])
  }

  /** The lines the tool prints for one threat. */
  function BlockLines(t: Threat): seq<string> {
    [LabelLine("Threat", t.threat)] + FileLines(t.files)
  }

  /** Each threat's lines, closed by a rule line. */
  function ReportLines(ts: seq<Threat>, rule: string): seq<string> {
    if ts == [] then [] else BlockLines(ts[0]) + [rule] + ReportLines(ts[1..], rule)
  }

  /** The output of a scan that found the threats `ts`: header lines, the
      threats' blocks, and a last line, joined with "\r\n". */
  function Report(header: seq<string>, ts: seq<Threat>, rule: string, footer: string): string {
    Join(header + ReportLines(ts, rule) + [footer], CRLF)
  }

  /** A threat the report can carry: a name that holds no `file` (which a
      global search for `file` lines would pick up), and at least one file. */
  predicate WellFormed(t: Threat) {
    && LineValue(t.threat) && !Occurs(t.threat, "file")
    && t.files != [] && forall k | 0 <= k < |t.files| :: LineValue(t.files[k])
  }

  /** Every threat of the list is well-formed, stated one threat at a time. */
  predicate AllWellFormed(ts: seq<Threat>) {
    ts != [] ==> WellFormed(ts[0]) && AllWellFormed(ts[1..])
  }

  lemma {:induction false} AllWellFormedEach(ts: seq<Threat>)
    requires forall k | 0 <= k < |ts| :: WellFormed(ts[k])
    ensures AllWellFormed(ts)
    decreases |ts|
  {
    if ts != [] {
      forall k | 0 <= k < |ts[1..]| ensures WellFormed(ts[1..][k]) {
        assert ts[1..][k] == ts[k + 1];
      }
      AllWellFormedEach(ts[1..]);
    }
  }

  /** The text of one block, up to the rule line that closes it. */
  function BlockText(t: Threat): string {
    Join(BlockLines(t), LF) + LF
  }

  /** The pieces the rule lines cut a report body into, but the last: every
      block but the first starts with the line break that ended the rule
      above it. */
  function Segments(pre: string, ts: seq<Threat>): (segs: seq<string>)
    ensures |segs| == |ts|
    decreases |ts|
  {
    if ts == [] then [] else [pre + BlockText(ts[0])] + Segments(LF, ts[1..])
  }

  // ----- reading a well-formed report back -----

  lemma LabelLineShape(tag: string, value: string)
    requires tag != [] && NoLineTerminator(tag) && LineValue(value)
    ensures var line := LabelLine(tag, value);
            line != [] && line[0] == tag[0] && NoLineTerminator(line)
  {
    var line := LabelLine(tag, value);
    forall k | 0 <= k < |line| ensures !IsLineTerminator(line[k]) {
      if k < |tag| {
        assert line[k] == tag[k];
      } else if k >= |tag| + 3 {
        assert line[k] == value[k - |tag| - 3];
      }
    }
  }

  /** A labelled line matches its own label's pattern as a whole, with the
      value as the capture. */
  lemma LabelLineMatch(tag: string, value: string)
    requires LineValue(value)
    ensures var line := LabelLine(tag, value);
            MatchAt(Labelled(tag), line, 0) == Some(Match(0, |tag| + 3, |line|))
            && line[|tag| + 3..] == value
  {
    var line := LabelLine(tag, value);
    var g := |tag| + 3;
    assert OccursAt(line, tag, 0) by {
      forall k | 0 <= k < |tag| ensures line[0 + k] == tag[k] { }
    }
    assert RunEnd(line, |tag|, ' ') == |tag| + 1 by {
      assert line[|tag|] == ' ' && line[|tag| + 1] == ':';
    }
    assert OccursAt(line, ": ", |tag| + 1) by {
      assert line[|tag| + 1] == ':' && line[|tag| + 2] == ' ';
    }
    assert LineEnd(line, g) == |line| by {
      forall k | g <= k < |line| ensures !IsLineTerminator(line[k]) {
        assert line[k] == value[k - g];
      }
      LineEndAt(line, g, |line|);
    }
    assert line[g..] == value;
  }

  /** No `tag` line is found in a line whose fixed part cannot start the
      label and whose value does not hold it. */
  lemma NoLabelMatch(tag: string, pre: string, value: string)
    requires tag != [] && !Occurs(value, tag)
    requires forall k | 0 <= k < |pre| :: pre[k] != tag[0]
    ensures forall i | 0 <= i <= |pre + value| :: MatchAt(Labelled(tag), pre + value, i).None?
  {
    var line := pre + value;
    forall i | 0 <= i <= |line| ensures !OccursAt(line, tag, i) {
      if i < |pre| {
        assert line[i + 0] == pre[i];
      } else {
        OccursAtShift(pre, value, tag, i - |pre|);
      }
    }
  }

  /** A threat's own line holds no `file` match. */
  lemma ThreatLineNoFile(name: string)
    requires !Occurs(name, "file")
    ensures AllFound(FilePattern, LabelLine("Threat", name), 0) == []
  {
    var pre := "Threat : ";
    assert LabelLine("Threat", name) == pre + name;
    NoLabelMatch("file", pre, name);
    NoMatchFound(FilePattern, pre + name);
  }

  /** The `file` lines of a block yield their files, in order. */
  lemma {:induction false} FileLinesFound(files: seq<string>)
    requires forall k | 0 <= k < |files| :: LineValue(files[k])
    ensures Captures(FoundInLines(FilePattern, FileLines(files))) == files
    decreases |files|
  {
    if files != [] {
      var line := LabelLine("file", files[0]);
      LabelLineMatch("file", files[0]);
      WholeLineFound(FilePattern, line, 7);
      FileLinesFound(files[1..]);
      var fs := FoundInLines(FilePattern, FileLines(files));
      var rest := FoundInLines(FilePattern, FileLines(files[1..]));
      assert FileLines(files)[1..] == FileLines(files[1..]);
      assert fs == [Found(line, files[0])] + rest;
      assert Captures(fs) == [files[0]] + Captures(rest);
    }
  }

  /** A block's text is its lines joined with "\n", with an empty line in
      front when a rule line came before it. */
  lemma SegmentLines(pre: string, t: Threat)
    requires pre == [] || pre == LF
    ensures pre + BlockText(t) == Join(SegmentLineList(pre, t), LF)
  {
    var bl := BlockLines(t);
    JoinAppend(bl, [""], LF);
    if pre == LF {
      JoinAppend([""], bl + [""], LF);
      assert SegmentLineList(pre, t) == [""] + (bl + [""]);
    } else {
      assert SegmentLineList(pre, t) == bl + [""];
    }
  }

  /** The lines of a block's text, each on its own. */
  function SegmentLineList(pre: string, t: Threat): seq<string> {
    (if pre == [] then [] else [""]) + [LabelLine("Threat", t.threat)] + (FileLines(t.files) + [""])
  }

  lemma SegmentThreat(pre: string, t: Threat)
    requires pre == [] || pre == LF
    requires LineValue(t.threat)
    ensures FirstCaptureInLines(ThreatPattern, SegmentLineList(pre, t)) == Some(t.threat)
  {
    var threatLine := LabelLine("Threat", t.threat);
    var rest := FileLines(t.files) + [""];
    assert FirstCapture(ThreatPattern, threatLine) == Some(t.threat) by {
      LabelLineMatch("Threat", t.threat);
      WholeLineFound(ThreatPattern, threatLine, 9);
    }
    assert FirstCaptureInLines(ThreatPattern, [threatLine] + rest) == Some(t.threat);
    if pre == LF {
      NoMatchFound(ThreatPattern, "");
      assert SegmentLineList(pre, t) == [""] + ([threatLine] + rest);
    } else {
      assert SegmentLineList(pre, t) == [threatLine] + rest;
    }
  }

  lemma SegmentFiles(pre: string, t: Threat)
    requires pre == [] || pre == LF
    requires WellFormed(t)
    ensures var found := FoundInLines(FilePattern, SegmentLineList(pre, t));
            Captures(found) == t.files && found != []
  {
    var threatLine := LabelLine("Threat", t.threat);
    var pad: seq<string> := if pre == [] then [] else [""];
    var fileLines := FileLines(t.files);
    var head := FoundInLines(FilePattern, pad + [threatLine]);
    var tail := FoundInLines(FilePattern, fileLines + [""]);
    assert FoundInLines(FilePattern, SegmentLineList(pre, t)) == head + tail by {
      FoundInLinesAppend(FilePattern, pad + [threatLine], fileLines + [""]);
    }
    HeadNoFiles(pad, t.threat);
    assert tail == FoundInLines(FilePattern, fileLines) by {
      FoundInLinesAppend(FilePattern, fileLines, [""]);
      EmptyLineNoFile();
    }
    FileLinesFound(t.files);
    assert head + tail == tail;
  }

  lemma EmptyLineNoFile()
    ensures FoundInLines(FilePattern, [""]) == []
  {
    NoMatchFound(FilePattern, "");
    assert FoundInLines(FilePattern, [""]) == AllFound(FilePattern, "", 0) + FoundInLines(FilePattern, []);
  }

  /** Neither the empty line in front of a block nor its `Threat` line has a
      `file` match. */
  lemma HeadNoFiles(pad: seq<string>, name: string)
    requires pad == [] || pad == [""]
    requires !Occurs(name, "file")
    ensures FoundInLines(FilePattern, pad + [LabelLine("Threat", name)]) == []
  {
    var threatLine := LabelLine("Threat", name);
    FoundInLinesAppend(FilePattern, pad, [threatLine]);
    assert FoundInLines(FilePattern, [threatLine]) == [] by {
      ThreatLineNoFile(name);
      assert FoundInLines(FilePattern, [threatLine])
          == AllFound(FilePattern, threatLine, 0) + FoundInLines(FilePattern, []);
    }
    if pad == [""] {
      EmptyLineNoFile();
    }
  }

  /** The text of each block reads back as its threat. */
  lemma ParseSegment(pre: string, t: Threat)
    requires pre == [] || pre == LF
    requires WellFormed(t)
    ensures ParseBlock(pre + BlockText(t)) == Returned(t)
  {
    var seg := pre + BlockText(t);
    var lines := SegmentLineList(pre, t);
    assert seg == Join(lines, LF) by {
      SegmentLines(pre, t);
    }
    assert FirstCapture(ThreatPattern, seg) == Some(t.threat) by {
      FirstCaptureLines(ThreatPattern, lines);
      SegmentThreat(pre, t);
    }
    assert Captures(AllFound(FilePattern, seg, 0)) == t.files && AllFound(FilePattern, seg, 0) != [] by {
      AllFoundLines(FilePattern, lines);
      SegmentFiles(pre, t);
    }
    ParseBlockCharacterised(seg);
  }

  /** Every line of a block is a labelled line, so none is a rule. */
  lemma BlockLinesShape(t: Threat)
    requires WellFormed(t)
    ensures var bl := BlockLines(t);
            forall k | 0 <= k < |bl| :: bl[k] != [] && NoLineTerminator(bl[k]) && bl[k][0] != '-'
  {
    var bl := BlockLines(t);
    forall k | 0 <= k < |bl| ensures bl[k] != [] && NoLineTerminator(bl[k]) && bl[k][0] != '-' {
      if k == 0 {
        LabelLineShape("Threat", t.threat);
      } else {
        assert bl[k] == FileLines(t.files)[k - 1];
        LabelLineShape("file", t.files[k - 1]);
      }
    }
  }

  lemma BlockTextPlain(t: Threat)
    requires WellFormed(t)
    ensures var x := BlockText(t);
            x != [] && PlainLines(x) && x[|x| - 1] == '\n'
  {
    BlockLinesShape(t);
    PlainJoin(BlockLines(t));
  }

  /** A report body is the first block's text and its rule, then a line
      break and the rest. */
  lemma ReportBodyCons(ts: seq<Threat>, rule: string)
    requires ts != []
    ensures Join(ReportLines(ts, rule), LF)
         == BlockText(ts[0]) + rule
            + (if |ts| == 1 then [] else LF + Join(ReportLines(ts[1..], rule), LF))
  {
    var bl := BlockLines(ts[0]);
    var rest := ReportLines(ts[1..], rule);
    JoinAppend(bl, [rule], LF);
    assert Join(bl + [rule], LF) == BlockText(ts[0]) + rule;
    if |ts| == 1 {
      assert ReportLines(ts, rule) == bl + [rule];
    } else {
      assert ts[1..] != [];
      JoinAppend(bl + [rule], rest, LF);
    }
  }

  /** The rule lines cut a report body into its blocks' texts, and an empty
      piece after the last rule. */
  lemma {:induction false} SplitReportBody(pre: string, ts: seq<Threat>, rule: string)
    requires pre == [] || pre == LF
    requires ts != [] && IsRule(rule)
    requires AllWellFormed(ts)
    ensures SplitFrom(pre + Join(ReportLines(ts, rule), LF), 0, 0) == Segments(pre, ts) + [""]
    decreases |ts|
  {
    BlockTextPlain(ts[0]);
    SplitBodyStep(pre, ts, rule);
    if |ts| > 1 {
      SplitReportBody(LF, ts[1..], rule);
    }
  }

  /** One step of the split of a report body: the first block's text, then
      the split of what follows its rule line. */
  lemma SplitBodyStep(pre: string, ts: seq<Threat>, rule: string)
    requires pre == [] || pre == LF
    requires ts != [] && IsRule(rule)
    requires var x := BlockText(ts[0]); x != [] && PlainLines(x) && x[|x| - 1] == '\n'
    ensures SplitFrom(pre + Join(ReportLines(ts, rule), LF), 0, 0)
         == [pre + BlockText(ts[0])]
            + (if |ts| == 1 then [""] else SplitFrom(LF + Join(ReportLines(ts[1..], rule), LF), 0, 0))
  {
    var x := BlockText(ts[0]);
    var tail := if |ts| == 1 then [] else LF + Join(ReportLines(ts[1..], rule), LF);
    assert pre + Join(ReportLines(ts, rule), LF) == (pre + x) + rule + tail by {
      ReportBodyCons(ts, rule);
    }
    OpensPieceAfter(pre, x);
    SplitBlockThenRest(pre + x, rule, tail);
  }

  /** A piece closed by a rule; the split then goes on with the line break
      after the rule, or ends with an empty piece. */
  lemma SplitBlockThenRest(piece: string, rule: string, tail: string)
    requires OpensPiece(piece) && IsRule(rule)
    requires tail == [] || tail[0] == '\n'
    ensures SplitFrom(piece + rule + tail, 0, 0)
         == [piece] + (if tail == [] then [""] else SplitFrom(tail, 0, 0))
  {
    var c := piece + rule;
    SplitChunk(piece, rule, tail);
    if tail != [] {
      assert c[|c| - 1] == rule[|rule| - 1];
      SplitAfterRule(c, tail);
    } else {
      assert c + tail == c;
    }
  }

  lemma {:induction false} ParseSegments(pre: string, ts: seq<Threat>)
    requires pre == [] || pre == LF
    requires AllWellFormed(ts)
    ensures ParseBlocks(Segments(pre, ts)) == Returned(ts)
    decreases |ts|
  {
    if ts != [] {
      var segs := Segments(pre, ts);
      assert segs == [pre + BlockText(ts[0])] + Segments(LF, ts[1..]);
      assert ParseBlock(segs[0]) == Returned(ts[0]) by {
        ParseSegment(pre, ts[0]);
      }
      assert ParseBlocks(segs[1..]) == Returned(ts[1..]) by {
        assert segs[1..] == Segments(LF, ts[1..]);
        ParseSegments(LF, ts[1..]);
      }
      assert [ts[0]] + ts[1..] == ts;
    }
  }

  lemma {:induction false} ReportLinesShape(ts: seq<Threat>, rule: string)
    requires IsRule(rule)
    requires forall k | 0 <= k < |ts| :: WellFormed(ts[k])
    ensures SingleLines(ReportLines(ts, rule))
    decreases |ts|
  {
    if ts != [] {
      var bl := BlockLines(ts[0]);
      BlockLinesShape(ts[0]);
      assert SingleLines(bl);
      assert SingleLines([rule]) by {
        assert forall k | 0 <= k < |rule| :: rule[k] == '-';
      }
      ReportLinesShape(ts[1..], rule);
      SingleLinesAppend(bl, [rule]);
      SingleLinesAppend(bl + [rule], ReportLines(ts[1..], rule));
    }
  }

  /** The lines between the header and the last line of a report are its
      body lines. */
  lemma ReportBodyLines(header: seq<string>, ts: seq<Threat>, rule: string, footer: string)
    requires |header| == 5 && IsRule(rule)
    requires CrlfFree(header) && !Occurs(footer, CRLF)
    requires forall k | 0 <= k < |ts| :: WellFormed(ts[k])
    ensures Slice(Split(Report(header, ts, rule, footer), CRLF), HeaderLines, -FooterLines)
         == ReportLines(ts, rule)
  {
    var body := ReportLines(ts, rule);
    var lines := header + body + [footer];
    assert CrlfFree(lines) by {
      ReportLinesShape(ts, rule);
      SingleLinesCrlfFree(body);
      CrlfFreeAppend(header, body);
      CrlfFreeAppend(header + body, [footer]);
    }
    SplitJoinCrlf(lines);
    assert lines[5..|lines| - 1] == body;
  }

  /** Reading back the report of any well-formed threats gives those threats,
      in order: one record per block, none when the scan listed none. */
  lemma ParseRendered(header: seq<string>, ts: seq<Threat>, rule: string, footer: string)
    requires |header| == 5 && IsRule(rule)
    requires CrlfFree(header) && !Occurs(footer, CRLF)
    requires forall k | 0 <= k < |ts| :: WellFormed(ts[k])
    ensures ParseReport(Report(header, ts, rule, footer)) == Returned(ts)
  {
    var stdout := Report(header, ts, rule, footer);
    var body := Join(ReportLines(ts, rule), LF);
    assert Blocks(stdout) == Slice(SplitAtRules(body), 0, -1) by {
      ReportBodyLines(header, ts, rule, footer);
    }
    if ts == [] {
      assert body == [];
    } else {
      assert SplitAtRules(body) == Segments([], ts) + [""] by {
        AllWellFormedEach(ts);
        SplitReportBody([], ts, rule);
        assert [] + body == body;
        ReportBodyCons(ts, rule);
      }
      assert Blocks(stdout) == Segments([], ts);
      AllWellFormedEach(ts);
      ParseSegments([], ts);
    }
  }
}
