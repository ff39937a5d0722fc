/**
 * The quarantine-list parser (src/index.ts:86-95): the output of
 * `-Restore -ListAll` read into one `QuarantinedThreat` per `ThreatName`
 * entry, each with the files the tool keeps for it and when each of them
 * was quarantined.
 *
 * `cleanSplit` comes from the clean-split package, which is not part of this
 * model. It is taken to cut the text in front of every match of the global
 * search for `ThreatName = .+` (so that, with `anchor: "right"`, each match
 * opens the piece that follows it) and to drop the empty pieces.
 */
module QuarantineReport {
  import opened Text
  import opened Patterns
  import opened Js

  datatype QuarantinedFile = QuarantinedFile(file: string, time: string)

  /** A quarantined threat and the files held for it. */
  datatype QuarantinedThreat = QuarantinedThreat(threat: string, files: seq<QuarantinedFile>)

  /** Lines the tool prints before the list. */
  const ListHeaderLines: int := 2

  /** The fixed part of `/(?<file>.+) quarantined at (?<time>.+)/`. */
  const Phrase: string := " quarantined at "

  /** `stdout.split("\r\n").slice(2).filter((line) => line !== "").join("\n")` */
  function ListBody(stdout: string): string {
    var lines := Split(stdout, CRLF);
    Join(DropEmpty(Slice(lines, ListHeaderLines, |lines|)), LF)
  }

  // ----- cutting the list into entries -----

  /** The cuts made in front of each match of the global search for
      `ThreatName = .+`: the current piece began at `p`, and the search
      resumes at `from`, where the previous match ended. */
  function AnchorCut(s: string, p: nat, from: nat): (pieces: seq<string>)
    requires p <= from <= |s|
    ensures pieces != []
    decreases |s| - from
  {
    match FirstMatch(ThreatName, s, from)
    case None => [s[p..]]
    case Some(m) => [s[p..m.start]] + AnchorCut(s, m.start, m.end)
  }

  /** `cleanSplit(text, /ThreatName = .+/g, { anchor: "right" })` */
  function CleanSplit(text: string): seq<string> {
    DropEmpty(AnchorCut(text, 0, 0))
  }

  // ----- reading one entry -----

  /** The last position from `hi` down to `lo` where the phrase starts. */
  function LastPhrase(s: string, lo: nat, hi: nat): (r: Option<nat>)
    requires lo <= hi
    ensures r.Some? ==> lo <= r.value <= hi && OccursAt(s, Phrase, r.value)
    decreases hi - lo
  {
    if OccursAt(s, Phrase, hi) then Some(hi)
    else if hi == lo then None
    else LastPhrase(s, lo, hi - 1)
  }

  /** `(.+) quarantined at (.+)` tried at `j`. The first `.+` is greedy and
      gives back one character at a time, so it ends at the last occurrence
      of the phrase on the line that still leaves the second `.+` a
      character; the second `.+` runs to the end of the line. */
  function QuarantinedAt(s: string, j: nat): (r: Option<QuarantinedFile>)
    requires j <= |s|
  {
    var e := LineEnd(s, j);
    if j + |Phrase| + 2 <= e then
      match LastPhrase(s, j + 1, e - |Phrase| - 1)
      case None => None
      case Some(k) => Some(QuarantinedFile(s[j..k], s[k + |Phrase|..e]))
    else None
  }

  /** The leftmost match at or after `j`. */
  function SearchQuarantined(s: string, j: nat): (r: Option<QuarantinedFile>)
    requires j <= |s|
    decreases |s| - j
  {
    if QuarantinedAt(s, j).Some? then QuarantinedAt(s, j)
    else if j == |s| then None
    else SearchQuarantined(s, j + 1)
  }

  /** `{ ...file.match(/(?<file>.+) quarantined at (?<time>.+)/).groups }`:
      the spread of `.groups` read from the `null` of a failed match throws. */
  function ReadFile(text: string): Outcome<QuarantinedFile> {
    match SearchQuarantined(text, 0)
    case None => Threw(TypeError)
    case Some(f) => Returned(f)
  }

  /** One entry read into a quarantined threat: the threat is the capture of
      the first `ThreatName = ` line; every line with a space yields one
      capture of ` +(.+)`, and every capture but the first (that of the
      `ThreatName` line itself) is read as a file and the time it was
      quarantined. A missing match anywhere throws a TypeError. */
  function ParseEntry(entry: string): Outcome<QuarantinedThreat> {
    match FirstCapture(ThreatName, entry)
    case None => Threw(TypeError)
    case Some(name) =>
      match MatchGlobal(Indented, entry)
      case None => Threw(TypeError)
      case Some(texts) =>
        match CaptureEach(Indented, texts)
        case None => Threw(TypeError)
        case Some(caps) =>
          match MapOrThrow(Slice(caps, 1, |caps|), ReadFile)
          case Threw(e) => Threw(e)
          case Returned(files) => Returned(QuarantinedThreat(name, files))
  }

  /** The whole parser, applied to the output of `-Restore -ListAll`. */
  function ParseList(stdout: string): Outcome<seq<QuarantinedThreat>> {
    MapOrThrow(CleanSplit(ListBody(stdout)), ParseEntry)
  }

  // ----- the cut -----

  function Concat(pieces: seq<string>): string {
    if pieces == [] then [] else pieces[0] + Concat(pieces[1..])
  }

  lemma {:induction false} AnchorCutConcat(s: string, p: nat, from: nat)
    requires p <= from <= |s|
    ensures Concat(AnchorCut(s, p, from)) == s[p..]
    decreases |s| - from
  {
    match FirstMatch(ThreatName, s, from)
    case None =>
      assert Concat(AnchorCut(s, p, from)) == s[p..] + Concat([]);
    case Some(m) =>
      var pieces := AnchorCut(s, p, from);
      AnchorCutConcat(s, m.start, m.end);
      assert pieces[1..] == AnchorCut(s, m.start, m.end);
      assert s[p..m.start] + s[m.start..] == s[p..];
  }

  lemma {:induction false} DropEmptyConcat(pieces: seq<string>)
    ensures Concat(DropEmpty(pieces)) == Concat(pieces)
    decreases |pieces|
  {
    if pieces != [] {
      DropEmptyConcat(pieces[1..]);
      assert Concat(pieces) == pieces[0] + Concat(pieces[1..]);
      if pieces[0] != [] {
        var r := DropEmpty(pieces);
        assert r == [pieces[0]] + DropEmpty(pieces[1..]);
        assert r[1..] == DropEmpty(pieces[1..]);
      } else {
        assert DropEmpty(pieces) == DropEmpty(pieces[1..]);
      }
    }
  }

  /** The entries, put back together, are the text: the cut loses nothing and
      repeats nothing. */
  lemma CleanSplitConcat(text: string)
    ensures Concat(CleanSplit(text)) == text
  {
    AnchorCutConcat(text, 0, 0);
    DropEmptyConcat(AnchorCut(text, 0, 0));
  }

  /** An entry that opens with a `ThreatName = ` line whose value is not empty. */
  predicate AnchoredEntry(e: string) {
    StartsWith(e, ThreatNamePrefix) && |ThreatNamePrefix| < LineEnd(e, |ThreatNamePrefix|)
  }

  /** The text in front of the first `ThreatName = ` line. */
  function Preamble(s: string): string {
    match FirstMatch(ThreatName, s, 0)
    case None => s
    case Some(m) => s[..m.start]
  }

  /** A piece that starts at a `ThreatName = ` match and reaches at least to
      its end opens with that line. */
  lemma PieceAnchored(s: string, p: nat, e: nat, q: nat)
    requires p <= e <= q <= |s|
    requires ThreatNameAt(s, p) == Some(Match(p, p + |ThreatNamePrefix|, e))
    ensures AnchoredEntry(s[p..q])
  {
    var piece := s[p..q];
    var g := |ThreatNamePrefix|;
    assert OccursAt(s, ThreatNamePrefix, p) && e == LineEnd(s, p + g);
    assert piece[..g] == ThreatNamePrefix by {
      forall k | 0 <= k < g ensures piece[k] == ThreatNamePrefix[k] {
        assert piece[k] == s[p + k];
      }
    }
    LineEndFacts(s, p + g);
    forall k | g <= k < e - p ensures !IsLineTerminator(piece[k]) {
      assert piece[k] == s[p + k];
    }
    if e - p < |piece| {
      assert piece[e - p] == s[e];
    }
    LineEndAt(piece, g, e - p);
  }

  /** Every piece but the first opens with its `ThreatName = ` line; so does
      the first when the search resumed past a match that opened it. */
  lemma {:induction false} AnchorCutAnchored(s: string, p: nat, from: nat)
    requires p <= from <= |s|
    requires p < from ==> ThreatNameAt(s, p) == Some(Match(p, p + |ThreatNamePrefix|, from))
    ensures p < from ==> AnchoredEntry(AnchorCut(s, p, from)[0])
    ensures forall k | 1 <= k < |AnchorCut(s, p, from)| :: AnchoredEntry(AnchorCut(s, p, from)[k])
    decreases |s| - from
  {
    FirstMatchLeftmost(ThreatName, s, from);
    match FirstMatch(ThreatName, s, from)
    case None =>
      if p < from {
        PieceAnchored(s, p, from, |s|);
      }
    case Some(m) =>
      if p < from {
        PieceAnchored(s, p, from, m.start);
      }
      assert ThreatNameAt(s, m.start) == Some(m);
      AnchorCutAnchored(s, m.start, m.end);
      var pieces := AnchorCut(s, p, from);
      assert pieces[1..] == AnchorCut(s, m.start, m.end);
      forall k | 1 <= k < |pieces| ensures AnchoredEntry(pieces[k]) {
        assert pieces[k] == pieces[1..][k - 1];
      }
  }

  /** Each entry is either the text in front of the first `ThreatName = `
      line or opens with such a line. */
  lemma CleanSplitEntries(text: string)
    ensures forall e | e in CleanSplit(text) :: e == Preamble(text) || AnchoredEntry(e)
  {
    var pieces := AnchorCut(text, 0, 0);
    AnchorCutAnchored(text, 0, 0);
    assert pieces[0] == Preamble(text);
    forall e | e in CleanSplit(text) ensures e == Preamble(text) || AnchoredEntry(e) {
      assert e in pieces;
      var k :| 0 <= k < |pieces| && pieces[k] == e;
      if k > 0 {
        assert AnchoredEntry(pieces[k]);
      }
    }
  }

  // ----- what an entry reads as -----

  /** An entry that opens with `ThreatName = X` reads, if at all, as the
      threat `X`: the rest of its first line. */
  lemma AnchoredThreat(e: string)
    requires AnchoredEntry(e)
    ensures var g := |ThreatNamePrefix|;
            FirstCapture(ThreatName, e) == Some(e[g..LineEnd(e, g)])
    ensures ParseEntry(e).Returned? ==>
              ParseEntry(e).value.threat == e[|ThreatNamePrefix|..LineEnd(e, |ThreatNamePrefix|)]
  {
    var g := |ThreatNamePrefix|;
    assert OccursAt(e, ThreatNamePrefix, 0) by {
      forall k | 0 <= k < g ensures e[k] == ThreatNamePrefix[k] {
        assert e[k] == e[..g][k];
      }
    }
    FirstMatchIs(ThreatName, e, 0, 0);
  }

  lemma {:induction false} LastPhraseFacts(s: string, lo: nat, hi: nat)
    requires lo <= hi
    ensures LastPhrase(s, lo, hi).Some? ==>
              forall k | LastPhrase(s, lo, hi).value < k <= hi :: !OccursAt(s, Phrase, k)
    ensures LastPhrase(s, lo, hi).None? ==> forall k | lo <= k <= hi :: !OccursAt(s, Phrase, k)
    decreases hi - lo
  {
    if !OccursAt(s, Phrase, hi) && hi > lo {
      LastPhraseFacts(s, lo, hi - 1);
    }
  }

  lemma {:induction false} SearchNone(s: string, j: nat)
    requires j <= |s|
    requires forall i | j <= i <= |s| :: QuarantinedAt(s, i).None?
    ensures SearchQuarantined(s, j).None?
    decreases |s| - j
  {
    if j < |s| {
      SearchNone(s, j + 1);
    }
  }

  /** On one line of text, a match splits the line at the last occurrence
      of the phrase that leaves both sides non-empty, and there is no match
      exactly when no such occurrence exists. */
  lemma QuarantinedLine(c: string)
    requires NoLineTerminator(c)
    ensures SearchQuarantined(c, 0).Some? ==>
              var f := SearchQuarantined(c, 0).value;
              && c == Spelled(f) && f.file != [] && f.time != []
              && forall k | |f.file| < k && k + |Phrase| < |c| :: !OccursAt(c, Phrase, k)
    ensures SearchQuarantined(c, 0).None? <==>
              forall k | 0 < k && k + |Phrase| < |c| :: !OccursAt(c, Phrase, k)
  {
    if QuarantinedAt(c, 0).None? {
      QuarantinedLineNone(c);
    } else {
      QuarantinedLineSome(c);
    }
  }

  /** A line where the pattern fails at its start has no match at all, and no
      occurrence of the phrase with text on both sides. */
  lemma QuarantinedLineNone(c: string)
    requires NoLineTerminator(c) && QuarantinedAt(c, 0).None?
    ensures SearchQuarantined(c, 0).None?
    ensures forall k | 0 < k && k + |Phrase| < |c| :: !OccursAt(c, Phrase, k)
  {
    forall j | 0 <= j <= |c| ensures LineEnd(c, j) == |c| {
      LineEndAt(c, j, |c|);
    }
    var n := |Phrase|;
    if n + 2 <= |c| {
      LastPhraseFacts(c, 1, |c| - n - 1);
    }
    SearchNone(c, 0);
  }

  /** A line where the pattern matches at its start is split at the last
      occurrence of the phrase that leaves text on both sides. */
  lemma QuarantinedLineSome(c: string)
    requires NoLineTerminator(c) && QuarantinedAt(c, 0).Some?
    ensures SearchQuarantined(c, 0) == QuarantinedAt(c, 0)
    ensures var f := QuarantinedAt(c, 0).value;
            && c == Spelled(f) && f.file != [] && f.time != []
            && OccursAt(c, Phrase, |f.file|) && |f.file| + |Phrase| < |c|
            && forall k | |f.file| < k && k + |Phrase| < |c| :: !OccursAt(c, Phrase, k)
  {
    var n := |Phrase|;
    assert LineEnd(c, 0) == |c| by {
      LineEndAt(c, 0, |c|);
    }
    var k := LastPhrase(c, 1, |c| - n - 1).value;
    var f := QuarantinedAt(c, 0).value;
    assert f == QuarantinedFile(c[0..k], c[k + n..|c|]);
    assert |f.file| == k;
    forall j | k < j && j + n < |c| ensures !OccursAt(c, Phrase, j) {
      LastPhraseFacts(c, 1, |c| - n - 1);
      assert j <= |c| - n - 1;
    }
    assert c == Spelled(f) by {
      assert c[k..k + n] == Phrase;
      assert c == c[..k] + c[k..k + n] + c[k + n..];
    }
  }

  /** A line's capture is spelled back from the file and time it reads as. */
  function Spelled(f: QuarantinedFile): string {
    f.file + Phrase + f.time
  }

  /** A file the list can carry: a file that does not start with a space
      (` +` would take it as indentation), and a time after which the phrase
      does not come again. */
  predicate WellFormedFile(f: QuarantinedFile) {
    && LineValue(f.file) && f.file[0] != ' ' && LineValue(f.time)
    && !Occurs([' '] + f.time, Phrase)
    && !Occurs(Spelled(f), ThreatNamePrefix)
  }

  lemma {:induction false} LastPhraseIs(s: string, lo: nat, hi: nat, k: nat)
    requires lo <= k <= hi && OccursAt(s, Phrase, k)
    requires forall i | k < i <= hi :: !OccursAt(s, Phrase, i)
    ensures LastPhrase(s, lo, hi) == Some(k)
    decreases hi - k
  {
    if k < hi {
      LastPhraseIs(s, lo, hi - 1, k);
    }
  }

  /** The phrase cannot start again inside itself, one character or more in. */
  lemma PhraseNoOverlap(d: nat)
    requires 1 <= d < |Phrase| - 1
    ensures !(Phrase[d] == ' ' && Phrase[d + 1] == 'q')
  {
    assert d == 1 || d == 2 || d == 3 || d == 4 || d == 5 || d == 6 || d == 7 || d == 8
        || d == 9 || d == 10 || d == 11 || d == 12 || d == 13 || d == 14;
  }

  /** The file, the phrase and the time make one line of text. */
  lemma SpelledLine(f: QuarantinedFile)
    requires LineValue(f.file) && LineValue(f.time)
    ensures NoLineTerminator(Spelled(f))
  {
    var c := Spelled(f);
    var a, n := |f.file|, |Phrase|;
    forall k | 0 <= k < |c| ensures !IsLineTerminator(c[k]) {
      if k < a {
        assert c[k] == f.file[k];
      } else if k >= a + n {
        assert c[k] == f.time[k - a - n];
      } else {
        assert c[k] == Phrase[k - a];
      }
    }
  }

  lemma OccursAtHead(s: string, pattern: string, i: nat)
    requires |pattern| >= 2
    ensures OccursAt(s, pattern, i) ==> s[i] == pattern[0] && s[i + 1] == pattern[1]
  {
    if OccursAt(s, pattern, i) {
      assert s[i + 0] == pattern[0];
    }
  }

  /** The phrase does not start again inside its own occurrence after the
      file. */
  lemma NoPhraseInPhrase(f: QuarantinedFile, i: nat)
    requires |f.file| < i < |f.file| + |Phrase| - 1
    ensures !OccursAt(Spelled(f), Phrase, i)
  {
    var c := Spelled(f);
    var a := |f.file|;
    PhraseNoOverlap(i - a);
    assert c[i] == Phrase[i - a] && c[i + 1] == Phrase[i + 1 - a];
    OccursAtHead(c, Phrase, i);
  }

  /** Nor can it start in the last space of the phrase or after it, since it
      does not occur in the time with that space in front. */
  lemma NoPhraseInTime(f: QuarantinedFile, j: nat)
    requires !Occurs([' '] + f.time, Phrase)
    ensures !OccursAt(Spelled(f), Phrase, |f.file| + |Phrase| - 1 + j)
  {
    var n := |Phrase|;
    var a := f.file + Phrase[..n - 1];
    var b := [' '] + f.time;
    assert Spelled(f) == a + b by {
      assert Phrase == Phrase[..n - 1] + [' '];
    }
    OccursAtShift(a, b, Phrase, j);
    assert !OccursAt(b, Phrase, j);
  }

  /** In a well-formed file's line the phrase starts right after the file and
      nowhere later. */
  lemma PhraseOnlyAfterFile(f: QuarantinedFile)
    requires !Occurs([' '] + f.time, Phrase)
    ensures OccursAt(Spelled(f), Phrase, |f.file|)
    ensures forall i | |f.file| < i :: !OccursAt(Spelled(f), Phrase, i)
  {
    var c := Spelled(f);
    var a, n := |f.file|, |Phrase|;
    assert OccursAt(c, Phrase, a) by {
      forall k | 0 <= k < n ensures c[a + k] == Phrase[k] {
        assert c[a + k] == (f.file + Phrase)[a + k];
      }
    }
    forall i | a < i ensures !OccursAt(c, Phrase, i) {
      if i < a + n - 1 {
        NoPhraseInPhrase(f, i);
      } else {
        NoPhraseInTime(f, i - (a + n - 1));
      }
    }
  }

  /** A well-formed file's line reads back as that file. */
  lemma ReadSpelled(f: QuarantinedFile)
    requires LineValue(f.file) && LineValue(f.time) && !Occurs([' '] + f.time, Phrase)
    ensures ReadFile(Spelled(f)) == Returned(f)
  {
    var c := Spelled(f);
    var a := |f.file|;
    SpelledLine(f);
    PhraseOnlyAfterFile(f);
    ReadSplitAt(c, a);
    assert c[0..a] == f.file && c[a + |Phrase|..] == f.time;
  }

  /** A line in which the phrase occurs at `a`, after some text and before
      some more, and nowhere further on reads as split at `a`. */
  lemma ReadSplitAt(c: string, a: nat)
    requires NoLineTerminator(c) && 1 <= a && a + |Phrase| < |c|
    requires OccursAt(c, Phrase, a)
    requires forall i | a < i :: !OccursAt(c, Phrase, i)
    ensures ReadFile(c) == Returned(QuarantinedFile(c[0..a], c[a + |Phrase|..]))
  {
    var n := |Phrase|;
    LineEndAt(c, 0, |c|);
    LastPhraseIs(c, 1, |c| - n - 1, a);
    assert QuarantinedAt(c, 0) == Some(QuarantinedFile(c[0..a], c[a + n..|c|]));
    assert c[a + n..|c|] == c[a + n..];
    assert SearchQuarantined(c, 0) == QuarantinedAt(c, 0);
  }

  /** The ` +(.+)` captures of an entry, one per line with a space. */
  function IndentedCaptures(e: string): seq<string> {
    Captures(AllFound(Indented, e, 0))
  }

  /** An entry reads as a threat exactly when it has a `ThreatName = ` line,
      some line with a space, and every line with a space after the first
      reads as a file; the threat is the first `ThreatName` capture, and the
      files come one per such line, in order, each the line's capture split
      at the last suitable occurrence of the phrase. Anything else throws a
      TypeError. */
  lemma ParseEntryCharacterised(e: string)
    ensures ParseEntry(e).Returned? <==>
              && FirstCapture(ThreatName, e).Some? && IndentedCaptures(e) != []
              && forall j | 1 <= j < |IndentedCaptures(e)| :: ReadFile(IndentedCaptures(e)[j]).Returned?
    ensures ParseEntry(e).Returned? ==>
              && ParseEntry(e).value.threat == FirstCapture(ThreatName, e).value
              && |ParseEntry(e).value.files| == |IndentedCaptures(e)| - 1
    ensures ParseEntry(e).Returned? ==>
              forall j | 0 <= j < |ParseEntry(e).value.files| ::
                var f := ParseEntry(e).value.files[j];
                && ReadFile(IndentedCaptures(e)[j + 1]) == Returned(f)
                && IndentedCaptures(e)[j + 1] == Spelled(f) && f.file != [] && f.time != []
    ensures ParseEntry(e).Threw? ==> ParseEntry(e).error == TypeError
  {
    var found := AllFound(Indented, e, 0);
    var caps := IndentedCaptures(e);
    AllFoundRecapture(Indented, e, 0);
    CaptureEachOfFound(Indented, found);
    AllFoundShape(Indented, e, 0);
    if caps != [] {
      var rest := Slice(caps, 1, |caps|);
      assert rest == caps[1..];
      MapOrThrowEach(rest, ReadFile);
      forall j | 0 <= j < |rest| ensures NoLineTerminator(rest[j]) {
        assert rest[j] == found[j + 1].capture;
      }
      forall j | 0 <= j < |rest| && ReadFile(rest[j]).Returned?
        ensures var f := ReadFile(rest[j]).value;
                rest[j] == Spelled(f) && f.file != [] && f.time != []
      {
        QuarantinedLine(rest[j]);
      }
    }
  }

  /** The list reads as one record per entry, in order, or throws the error
      of the first entry that cannot be read. */
  lemma ParseListEach(stdout: string)
    ensures ParseList(stdout).Returned? <==>
              forall e | e in CleanSplit(ListBody(stdout)) :: ParseEntry(e).Returned?
    ensures ParseList(stdout).Returned? ==>
              && |ParseList(stdout).value| == |CleanSplit(ListBody(stdout))|
              && forall k | 0 <= k < |CleanSplit(ListBody(stdout))| ::
                   ParseEntry(CleanSplit(ListBody(stdout))[k]) == Returned(ParseList(stdout).value[k])
    ensures ParseList(stdout).Threw? ==> ParseList(stdout).error == TypeError
  {
    var entries := CleanSplit(ListBody(stdout));
    MapOrThrowEach(entries, ParseEntry);
    if ParseList(stdout).Threw? {
      var k :| 0 <= k < |entries| && ParseEntry(entries[k]) == Threw(ParseList(stdout).error);
      ParseEntryCharacterised(entries[k]);
    }
  }

  // ----- well-formed lists -----

  /** Indentation: one or more spaces. */
  predicate IsIndent(indent: string) {
    indent != [] && forall k | 0 <= k < |indent| :: indent[k] == ' '
  }

  function AnchorLine(threat: string): string {
    ThreatNamePrefix + threat
  }

  /** How the tool lists one quarantined file: indented, then the file and
      when it was quarantined. */
  function FileLine(indent: string, f: QuarantinedFile): string {
    indent + Spelled(f)
  }

  function FileLines(indent: string, files: seq<QuarantinedFile>): (lines: seq<string>)
    ensures |lines| == |files|
    ensures forall k | 0 <= k < |files| :: lines[k] == FileLine(indent, files[k])
  {
    if files == [] then [] else [FileLine(indent, files[0])] + FileLines(indent, files[1..])
  }

  /** The lines the tool prints for one quarantined threat. */
  function EntryLines(indent: string, t: QuarantinedThreat): seq<string> {
    [AnchorLine(t.threat)] + FileLines(indent, t.files)
  }

  function ListLines(indent: string, ts: seq<QuarantinedThreat>): seq<string> {
    if ts == [] then [] else EntryLines(indent, ts[0]) + ListLines(indent, ts[1..])
  }

  /** The output of `-Restore -ListAll` for the quarantined threats `ts`:
      header lines, each threat's lines, and a last line break, joined with
      "\r\n". */
  function Listing(header: seq<string>, indent: string, ts: seq<QuarantinedThreat>): string {
    Join(header + ListLines(indent, ts) + [""], CRLF)
  }

  predicate WellFormedEntry(t: QuarantinedThreat) {
    LineValue(t.threat) && forall k | 0 <= k < |t.files| :: WellFormedFile(t.files[k])
  }

  /** The text of each entry once the list is cut: its lines joined with
      "\n", and the line break in front of the next entry, if any. */
  function Pieces(indent: string, ts: seq<QuarantinedThreat>): (pieces: seq<string>)
    requires ts != []
    ensures |pieces| == |ts|
    ensures forall k | 0 <= k < |ts| ::
              pieces[k] == Join(EntryLines(indent, ts[k]) + (if k + 1 < |ts| then [""] else []), LF)
    decreases |ts|
  {
    var first := Join(EntryLines(indent, ts[0]), LF);
    if |ts| == 1 then
      assert EntryLines(indent, ts[0]) + [] == EntryLines(indent, ts[0]);
      [first]
    else
      JoinAppend(EntryLines(indent, ts[0]), [""], LF);
      [first + LF] + Pieces(indent, ts[1..])
  }

  lemma AnchorLineMatch(threat: string)
    requires LineValue(threat)
    ensures var line := AnchorLine(threat);
            && MatchAt(ThreatName, line, 0) == Some(Match(0, |ThreatNamePrefix|, |line|))
            && line[|ThreatNamePrefix|..] == threat
            && NoLineTerminator(line)
  {
    var line := AnchorLine(threat);
    var g := |ThreatNamePrefix|;
    assert OccursAt(line, ThreatNamePrefix, 0) by {
      forall k | 0 <= k < g ensures line[k] == ThreatNamePrefix[k] { }
    }
    forall k | 0 <= k < |line| ensures !IsLineTerminator(line[k]) {
      if k >= g {
        assert line[k] == threat[k - g];
      }
    }
    LineEndAt(line, g, |line|);
  }

  /** A `ThreatName` line holds exactly one ` +(.+)` match: from the space
      after `ThreatName`. */
  lemma AnchorLineIndented(threat: string)
    requires LineValue(threat)
    ensures |AllFound(Indented, AnchorLine(threat), 0)| == 1
  {
    var line := AnchorLine(threat);
    AnchorLineMatch(threat);
    LineEndAt(line, 10, |line|);
    assert line[10] == ' ' && line[11] == '=';
    RunEndAt(line, 10, ' ', 11);
    assert MatchAt(Indented, line, 10) == Some(Match(10, 11, |line|));
    forall j | 0 <= j < 10 ensures MatchAt(Indented, line, j).None? {
      assert line[j] == ThreatNamePrefix[j];
    }
    FirstMatchIs(Indented, line, 0, 10);
    FirstMatchAtEnd(Indented, line);
  }

  /** A file's line is one ` +(.+)` match whose capture is the line after its
      indentation, and holds no `ThreatName = ` match. */
  lemma FileLineMatch(indent: string, f: QuarantinedFile)
    requires IsIndent(indent) && WellFormedFile(f)
    ensures var line := FileLine(indent, f);
            && AllFound(Indented, line, 0) == [Found(line, Spelled(f))]
            && AllFound(ThreatName, line, 0) == [] && FirstCapture(ThreatName, line) == None
            && NoLineTerminator(line)
  {
    var line := FileLine(indent, f);
    var c := Spelled(f);
    var n := |Phrase|;
    assert line == indent + c;
    SpelledLine(f);
    forall k | 0 <= k < |line| ensures !IsLineTerminator(line[k]) {
      if k >= |indent| {
        assert line[k] == c[k - |indent|];
      }
    }
    LineEndAt(line, 0, |line|);
    assert line[|indent|] == f.file[0];
    RunEndAt(line, 0, ' ', |indent|);
    assert line[|indent|..] == c;
    WholeLineFound(Indented, line, |indent|);
    forall i | 0 <= i <= |line| ensures !OccursAt(line, ThreatNamePrefix, i) {
      if i < |indent| {
        assert line[i + 0] == ' ' && ThreatNamePrefix[0] == 'T';
      } else {
        OccursAtShift(indent, c, ThreatNamePrefix, i - |indent|);
        if OccursAt(c, ThreatNamePrefix, i - |indent|) {
          assert Occurs(c, ThreatNamePrefix);
        }
      }
    }
    NoMatchFound(ThreatName, line);
  }

  /** The lines' captures, one per file. */
  function Spellings(files: seq<QuarantinedFile>): (r: seq<string>)
    ensures |r| == |files| && forall k | 0 <= k < |files| :: r[k] == Spelled(files[k])
  {
    if files == [] then [] else [Spelled(files[0])] + Spellings(files[1..])
  }

  /** The files' lines yield one ` +(.+)` capture each: the line after its
      indentation. */
  lemma {:induction false} FileLinesCaptured(indent: string, files: seq<QuarantinedFile>)
    requires IsIndent(indent)
    requires forall k | 0 <= k < |files| :: WellFormedFile(files[k])
    ensures Captures(FoundInLines(Indented, FileLines(indent, files))) == Spellings(files)
    decreases |files|
  {
    if files != [] {
      var lines := FileLines(indent, files);
      var first := Found(FileLine(indent, files[0]), Spelled(files[0]));
      var rest := FoundInLines(Indented, lines[1..]);
      assert AllFound(Indented, lines[0], 0) == [first] by {
        FileLineMatch(indent, files[0]);
      }
      assert lines[1..] == FileLines(indent, files[1..]);
      FileLinesCaptured(indent, files[1..]);
      assert FoundInLines(Indented, lines) == [first] + rest;
      assert ([first] + rest)[1..] == rest;
    }
  }

  /** No file line holds a `ThreatName = ` match. */
  lemma {:induction false} FileLinesNoAnchor(indent: string, files: seq<QuarantinedFile>)
    requires IsIndent(indent)
    requires forall k | 0 <= k < |files| :: WellFormedFile(files[k])
    ensures FirstCaptureInLines(ThreatName, FileLines(indent, files)) == None
    decreases |files|
  {
    if files != [] {
      var lines := FileLines(indent, files);
      assert FirstCapture(ThreatName, lines[0]) == None by {
        FileLineMatch(indent, files[0]);
      }
      assert lines[1..] == FileLines(indent, files[1..]);
      FileLinesNoAnchor(indent, files[1..]);
    }
  }

  /** Every file spelled out reads back as itself. */
  lemma ReadSpellings(files: seq<QuarantinedFile>)
    requires forall k | 0 <= k < |files| :: WellFormedFile(files[k])
    ensures MapOrThrow(Spellings(files), ReadFile) == Returned(files)
  {
    var texts := Spellings(files);
    forall k | 0 <= k < |files| ensures ReadFile(texts[k]) == Returned(files[k]) {
      ReadSpelled(files[k]);
    }
    MapOrThrowEach(texts, ReadFile);
    var r := MapOrThrow(texts, ReadFile);
    assert r.Returned?;
    forall k | 0 <= k < |files| ensures r.value[k] == files[k] {
      assert ReadFile(texts[k]) == Returned(r.value[k]);
    }
    assert r.value == files;
  }

  lemma EmptyLineNothing()
    ensures FoundInLines(Indented, [""]) == [] && FirstCaptureInLines(ThreatName, [""]) == None
  {
    NoMatchFound(Indented, "");
    NoMatchFound(ThreatName, "");
    assert FoundInLines(Indented, [""]) == AllFound(Indented, "", 0) + FoundInLines(Indented, []);
  }

  /** An entry's text, with or without the line break after it, reads back
      as its threat. */
  /** A rendered entry: its one `ThreatName` capture is the threat. */
  lemma EntryThreatName(indent: string, t: QuarantinedThreat, pad: seq<string>)
    requires IsIndent(indent) && WellFormedEntry(t)
    requires pad == [] || pad == [""]
    ensures FirstCapture(ThreatName, Join(EntryLines(indent, t) + pad, LF)) == Some(t.threat)
  {
    var lines := EntryLines(indent, t) + pad;
    assert lines == [AnchorLine(t.threat)] + (FileLines(indent, t.files) + pad);
    FirstCaptureLines(ThreatName, lines);
    AnchorLineMatch(t.threat);
    WholeLineFound(ThreatName, AnchorLine(t.threat), |ThreatNamePrefix|);
  }

  /** A rendered entry: the indented lines found are the anchor line's one,
      then those of its file lines. */
  lemma EntryFound(indent: string, t: QuarantinedThreat, pad: seq<string>)
    requires IsIndent(indent) && WellFormedEntry(t)
    requires pad == [] || pad == [""]
    ensures var found := AllFound(Indented, Join(EntryLines(indent, t) + pad, LF), 0);
            |found| == |t.files| + 1 &&
            found[1..] == FoundInLines(Indented, FileLines(indent, t.files))
  {
    var anchor := AnchorLine(t.threat);
    var fileLines := FileLines(indent, t.files);
    var lines := EntryLines(indent, t) + pad;
    assert lines == [anchor] + (fileLines + pad);
    AllFoundLines(Indented, lines);
    assert FoundInLines(Indented, lines) == AllFound(Indented, anchor, 0) + FoundInLines(Indented, fileLines + pad);
    FoundInLinesAppend(Indented, fileLines, pad);
    if pad == [""] {
      EmptyLineNothing();
    }
    AnchorLineIndented(t.threat);
    FileLinesCaptured(indent, t.files);
  }

  /** A rendered entry: capturing each indented text again gives the file
      spellings after the anchor's capture. */
  lemma EntryCaptures(indent: string, t: QuarantinedThreat, pad: seq<string>)
    requires IsIndent(indent) && WellFormedEntry(t)
    requires pad == [] || pad == [""]
    ensures var found := AllFound(Indented, Join(EntryLines(indent, t) + pad, LF), 0);
            found != [] &&
            CaptureEach(Indented, Texts(found)) == Some(Captures(found)) &&
            Slice(Captures(found), 1, |Captures(found)|) == Spellings(t.files)
  {
    var e := Join(EntryLines(indent, t) + pad, LF);
    var found := AllFound(Indented, e, 0);
    EntryFound(indent, t, pad);
    AllFoundRecapture(Indented, e, 0);
    CaptureEachOfFound(Indented, found);
    FileLinesCaptured(indent, t.files);
    var caps := Captures(found);
    var tail := found[1..];
    assert |Captures(tail)| == |t.files|;
    forall j | 0 <= j < |t.files| ensures caps[1..][j] == Captures(tail)[j] {
      assert found[j + 1] == tail[j];
    }
  }

  lemma ParseEntryLines(indent: string, t: QuarantinedThreat, pad: seq<string>)
    requires IsIndent(indent) && WellFormedEntry(t)
    requires pad == [] || pad == [""]
    ensures ParseEntry(Join(EntryLines(indent, t) + pad, LF)) == Returned(t)
  {
    var e := Join(EntryLines(indent, t) + pad, LF);
    EntryThreatName(indent, t, pad);
    EntryCaptures(indent, t, pad);
    ReadSpellings(t.files);
  }

  /** A list body opens with its first entry's `ThreatName` line, and that is
      the only `ThreatName = ` match in the entry's lines. */
  lemma EntryAnchor(indent: string, t: QuarantinedThreat)
    requires IsIndent(indent) && WellFormedEntry(t)
    ensures var c := Join(EntryLines(indent, t), LF);
            var a := |AnchorLine(t.threat)|;
            && a <= |c|
            && FirstMatch(ThreatName, c, 0) == Some(Match(0, |ThreatNamePrefix|, a))
            && FirstMatch(ThreatName, c, a) == None
  {
    var anchor := AnchorLine(t.threat);
    var fileLines := FileLines(indent, t.files);
    var c := Join(EntryLines(indent, t), LF);
    AnchorLineMatch(t.threat);
    FirstMatchIs(ThreatName, anchor, 0, 0);
    FirstMatchAtEnd(ThreatName, anchor);
    if fileLines == [] {
      assert EntryLines(indent, t) == [anchor];
    } else {
      var f := Join(fileLines, LF);
      assert c == anchor + ['\n'] + f by {
        JoinAppend([anchor], fileLines, LF);
      }
      assert FirstMatch(ThreatName, f, 0) == None by {
        FileLinesNoAnchor(indent, t.files);
        FirstCaptureLines(ThreatName, fileLines);
      }
      FirstMatchAcross(ThreatName, anchor, '\n', f, 0);
      FirstMatchAcross(ThreatName, anchor, '\n', f, |anchor|);
    }
  }

  /** Past a prefix `a`, the cut of `a + b` goes exactly as that of `b`. */
  lemma {:induction false} AnchorCutShift(a: string, b: string, p: nat, from: nat)
    requires p <= from <= |b|
    ensures AnchorCut(a + b, |a| + p, |a| + from) == AnchorCut(b, p, from)
    decreases |b| - from
  {
    var s := a + b;
    FirstMatchShift(ThreatName, a, b, from);
    match FirstMatch(ThreatName, b, from)
    case None =>
      assert s[|a| + p..] == b[p..];
    case Some(m) =>
      assert s[|a| + p..|a| + m.start] == b[p..m.start];
      AnchorCutShift(a, b, m.start, m.end);
  }

  /** A list body is its first entry's text, then a line break and the rest
      of the list when there is more. */
  lemma ListJoinCons(indent: string, ts: seq<QuarantinedThreat>)
    requires ts != []
    ensures |ts| == 1 ==> Join(ListLines(indent, ts), LF) == Join(EntryLines(indent, ts[0]), LF)
    ensures |ts| > 1 ==>
              Join(ListLines(indent, ts), LF)
              == Join(EntryLines(indent, ts[0]), LF) + ['\n'] + Join(ListLines(indent, ts[1..]), LF)
  {
    if |ts| == 1 {
      assert ListLines(indent, ts[1..]) == [];
      assert ListLines(indent, ts) == EntryLines(indent, ts[0]) + [];
      assert ListLines(indent, ts) == EntryLines(indent, ts[0]);
    } else {
      assert ListLines(indent, ts[1..]) != [];
      JoinAppend(EntryLines(indent, ts[0]), ListLines(indent, ts[1..]), LF);
    }
  }

  /** A list body opens with its first entry's `ThreatName` line, and the cut
      from the end of that line yields the entries' texts. */
  lemma {:induction false} CutEntries(indent: string, ts: seq<QuarantinedThreat>)
    requires IsIndent(indent) && ts != []
    requires forall k | 0 <= k < |ts| :: WellFormedEntry(ts[k])
    ensures |AnchorLine(ts[0].threat)| <= |Join(ListLines(indent, ts), LF)|
    ensures FirstMatch(ThreatName, Join(ListLines(indent, ts), LF), 0)
         == Some(Match(0, |ThreatNamePrefix|, |AnchorLine(ts[0].threat)|))
    ensures AnchorCut(Join(ListLines(indent, ts), LF), 0, |AnchorLine(ts[0].threat)|)
         == Pieces(indent, ts)
    decreases |ts|
  {
    var c := Join(EntryLines(indent, ts[0]), LF);
    var a := |AnchorLine(ts[0].threat)|;
    var s := Join(ListLines(indent, ts), LF);
    EntryAnchor(indent, ts[0]);
    ListJoinCons(indent, ts);
    if |ts| == 1 {
      assert s[0..] == c;
    } else {
      var tail := ts[1..];
      var rest := Join(ListLines(indent, tail), LF);
      var a2 := |AnchorLine(tail[0].threat)|;
      forall k | 0 <= k < |tail| ensures WellFormedEntry(tail[k]) {
        assert tail[k] == ts[k + 1];
      }
      CutEntries(indent, tail);
      AnchorBeforeBreak(c, rest, a);
      NextAnchorAfterBreak(c, rest, a, a2);
      AnchorCutAfterBreak(c, rest, a, a2);
      assert Pieces(indent, ts) == [c + LF] + Pieces(indent, tail);
    }
  }

  /** With no `ThreatName` line left in `x` from `a` on, the search from `a`
      finds the one that opens `y`, past the line break. */
  lemma NextAnchorAfterBreak(x: string, y: string, a: nat, a2: nat)
    requires a <= |x| && a2 <= |y|
    requires FirstMatch(ThreatName, x, a) == None
    requires FirstMatch(ThreatName, y, 0) == Some(Match(0, |ThreatNamePrefix|, a2))
    ensures FirstMatch(ThreatName, x + ['\n'] + y, a)
         == Some(Match(|x| + 1, |x| + 1 + |ThreatNamePrefix|, |x| + 1 + a2))
  {
    FirstMatchAcross(ThreatName, x, '\n', y, a);
  }

  /** A `ThreatName` line found in `x` is found first in `x`, a line break
      and `y`. */
  lemma AnchorBeforeBreak(x: string, y: string, a: nat)
    requires FirstMatch(ThreatName, x, 0) == Some(Match(0, |ThreatNamePrefix|, a))
    ensures FirstMatch(ThreatName, x + ['\n'] + y, 0) == Some(Match(0, |ThreatNamePrefix|, a))
  {
    FirstMatchAcross(ThreatName, x, '\n', y, 0);
  }

  /** When the search from `a` finds the next `ThreatName` line just after a
      line break, the cut closes the piece with that break and goes on as the
      cut of the text after it. */
  lemma AnchorCutAfterBreak(x: string, y: string, a: nat, a2: nat)
    requires a <= |x| && a2 <= |y|
    requires FirstMatch(ThreatName, x + ['\n'] + y, a)
          == Some(Match(|x| + 1, |x| + 1 + |ThreatNamePrefix|, |x| + 1 + a2))
    ensures AnchorCut(x + ['\n'] + y, 0, a) == [x + LF] + AnchorCut(y, 0, a2)
  {
    var s := x + ['\n'] + y;
    var d := |x| + 1;
    assert s[0..d] == x + LF;
    AnchorCutShift(x + ['\n'], y, 0, a2);
  }

  /** A list body is cut in front of each entry's `ThreatName` line: an
      empty piece in front of the first, then the entries' texts. */
  lemma CutListBody(indent: string, ts: seq<QuarantinedThreat>)
    requires IsIndent(indent) && ts != []
    requires forall k | 0 <= k < |ts| :: WellFormedEntry(ts[k])
    ensures AnchorCut(Join(ListLines(indent, ts), LF), 0, 0) == [""] + Pieces(indent, ts)
  {
    var s := Join(ListLines(indent, ts), LF);
    CutEntries(indent, ts);
    assert AnchorCut(s, 0, 0) == [s[0..0]] + AnchorCut(s, 0, |AnchorLine(ts[0].threat)|);
  }

  lemma {:induction false} ListLinesShape(indent: string, ts: seq<QuarantinedThreat>)
    requires IsIndent(indent)
    requires forall k | 0 <= k < |ts| :: WellFormedEntry(ts[k])
    ensures var lines := ListLines(indent, ts);
            SingleLines(lines) && forall k | 0 <= k < |lines| :: lines[k] != []
    decreases |ts|
  {
    if ts != [] {
      var el := EntryLines(indent, ts[0]);
      assert SingleLines(el) && forall k | 0 <= k < |el| :: el[k] != [] by {
        AnchorLineMatch(ts[0].threat);
        forall k | 1 <= k < |el| ensures NoLineTerminator(el[k]) {
          FileLineMatch(indent, ts[0].files[k - 1]);
        }
      }
      ListLinesShape(indent, ts[1..]);
      SingleLinesAppend(el, ListLines(indent, ts[1..]));
      var lines := ListLines(indent, ts);
      forall k | 0 <= k < |lines| ensures lines[k] != [] {
        if k >= |el| {
          assert lines[k] == ListLines(indent, ts[1..])[k - |el|];
        }
      }
    }
  }

  lemma {:induction false} DropEmptyNone(lines: seq<string>)
    requires forall k | 0 <= k < |lines| :: lines[k] != []
    ensures DropEmpty(lines + [""]) == lines
    decreases |lines|
  {
    if lines == [] {
      assert DropEmpty([""]) == DropEmpty([]);
    } else {
      assert (lines + [""])[1..] == lines[1..] + [""];
      DropEmptyNone(lines[1..]);
    }
  }

  /** The body of a rendered list is its entries' lines joined with "\n". */
  lemma ListingBody(header: seq<string>, indent: string, ts: seq<QuarantinedThreat>)
    requires |header| == 2 && CrlfFree(header) && IsIndent(indent)
    requires forall k | 0 <= k < |ts| :: WellFormedEntry(ts[k])
    ensures ListBody(Listing(header, indent, ts)) == Join(ListLines(indent, ts), LF)
  {
    var body := ListLines(indent, ts);
    var lines := header + body + [""];
    ListLinesShape(indent, ts);
    assert CrlfFree(lines) by {
      SingleLinesCrlfFree(body);
      CrlfFreeAppend(header, body);
      assert CrlfFree([""]);
      CrlfFreeAppend(header + body, [""]);
    }
    SplitJoinCrlf(lines);
    assert Slice(lines, ListHeaderLines, |lines|) == body + [""];
    DropEmptyNone(body);
  }

  /** The clean split of a rendered list body yields one piece per entry. */
  lemma CleanSplitListBody(indent: string, ts: seq<QuarantinedThreat>)
    requires IsIndent(indent) && ts != []
    requires forall k | 0 <= k < |ts| :: WellFormedEntry(ts[k])
    ensures CleanSplit(Join(ListLines(indent, ts), LF)) == Pieces(indent, ts)
  {
    CutListBody(indent, ts);
    var pieces := Pieces(indent, ts);
    forall k | 0 <= k < |pieces| ensures pieces[k] != [] {
      assert pieces[k][0] == 'T';
    }
    assert DropEmpty([""] + pieces) == DropEmpty(pieces);
    DropEmptyKeep(pieces);
  }

  /** Reading back the list of any well-formed quarantined threats gives
      those threats, in order: one record per `ThreatName` line, each with
      one file per indented line under it. */
  lemma ParseListing(header: seq<string>, indent: string, ts: seq<QuarantinedThreat>)
    requires |header| == 2 && CrlfFree(header) && IsIndent(indent)
    requires forall k | 0 <= k < |ts| :: WellFormedEntry(ts[k])
    ensures ParseList(Listing(header, indent, ts)) == Returned(ts)
  {
    ListingBody(header, indent, ts);
    if ts == [] {
      FirstMatchAtEnd(ThreatName, "");
      assert AnchorCut("", 0, 0) == [""];
      assert DropEmpty([""]) == DropEmpty([]);
    } else {
      CleanSplitListBody(indent, ts);
      var pieces := Pieces(indent, ts);
      MapOrThrowEach(pieces, ParseEntry);
      forall k | 0 <= k < |ts| ensures ParseEntry(pieces[k]) == Returned(ts[k]) {
        ParseEntryLines(indent, ts[k], if k + 1 < |ts| then [""] else []);
      }
      var r := ParseList(Listing(header, indent, ts));
      assert r.value == ts;
    }
  }

  lemma {:induction false} DropEmptyKeep(lines: seq<string>)
    requires forall k | 0 <= k < |lines| :: lines[k] != []
    ensures DropEmpty(lines) == lines
    decreases |lines|
  {
    if lines != [] {
      DropEmptyKeep(lines[1..]);
    }
  }
}
