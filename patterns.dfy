/**
 * The regular expressions the two report parsers apply, each written out as
 * the exact matcher it denotes under JavaScript's rules: `.` stops at a line
 * terminator, quantifiers are greedy and give back only what the rest of the
 * pattern needs, a search tries the leftmost start first, and a global search
 * resumes where the previous match ended.
 */
module Patterns {
  import opened Text

  /** Where a match lies in the searched string: the whole match is
      `s[start..end]`, its capture group `s[groupStart..end]`. */
  datatype Match = Match(start: nat, groupStart: nat, end: nat)

  /** A match as the program sees it: the matched text and its capture. */
  datatype Found = Found(text: string, capture: string)

  /** The patterns with a trailing `(.+)` capture that the parsers use. */
  datatype Pattern =
    | Labelled(tag: string)  // /<tag> *: (.+)/, as /Threat *: (?<threat>.+)/ and /file *: (.+)/
    | ThreatName             // /ThreatName = (.+)/, also the chunk anchor /ThreatName = .+/
    | Indented               // / +(.+)/

  const ThreatNamePrefix: string := "ThreatName = "

  /** A pattern whose literal parts hold no line terminator, so that none of
      its matches can run across a line break. */
  predicate LineBound(p: Pattern) {
    p.Labelled? ==> NoLineTerminator(p.tag)
  }

  // ----- the building blocks: `.+` to the end of the line, ` *` -----

  /** Where `.+` started at `i` stops and `$` holds: the first line terminator
      at or after `i`, or the end of the string. */
  function LineEnd(s: string, i: nat): (e: nat)
    requires i <= |s|
    ensures i <= e <= |s|
    decreases |s| - i
  {
    if i == |s| || IsLineTerminator(s[i]) then i else LineEnd(s, i + 1)
  }

  lemma {:induction false} LineEndFacts(s: string, i: nat)
    requires i <= |s|
    ensures forall k | i <= k < LineEnd(s, i) :: !IsLineTerminator(s[k])
    ensures LineEnd(s, i) < |s| ==> IsLineTerminator(s[LineEnd(s, i)])
    decreases |s| - i
  {
    if i < |s| && !IsLineTerminator(s[i]) {
      LineEndFacts(s, i + 1);
    }
  }

  /** The line end is the one position with no terminator before it and a
      terminator (or the end of the string) at it. */
  lemma {:induction false} LineEndAt(s: string, i: nat, e: nat)
    requires i <= e <= |s|
    requires forall k | i <= k < e :: !IsLineTerminator(s[k])
    requires e < |s| ==> IsLineTerminator(s[e])
    ensures LineEnd(s, i) == e
    decreases e - i
  {
    if i < e {
      LineEndAt(s, i + 1, e);
    }
  }

  lemma LineEndWithin(s: string, i: nat, j: nat)
    requires i <= |s| && i <= j <= LineEnd(s, i)
    ensures LineEnd(s, j) == LineEnd(s, i)
  {
    LineEndFacts(s, i);
    LineEndAt(s, j, LineEnd(s, i));
  }

  /** Where a greedy run of `c` started at `i` ends (` *`, ` +` and `-*`). */
  function RunEnd(s: string, i: nat, c: char): (e: nat)
    requires i <= |s|
    ensures i <= e <= |s|
    decreases |s| - i
  {
    if i == |s| || s[i] != c then i else RunEnd(s, i + 1, c)
  }

  lemma {:induction false} RunEndFacts(s: string, i: nat, c: char)
    requires i <= |s|
    ensures forall k | i <= k < RunEnd(s, i, c) :: s[k] == c
    ensures RunEnd(s, i, c) < |s| ==> s[RunEnd(s, i, c)] != c
    decreases |s| - i
  {
    if i < |s| && s[i] == c {
      RunEndFacts(s, i + 1, c);
    }
  }

  lemma {:induction false} RunEndAt(s: string, i: nat, c: char, e: nat)
    requires i <= e <= |s|
    requires forall k | i <= k < e :: s[k] == c
    requires e < |s| ==> s[e] != c
    ensures RunEnd(s, i, c) == e
    decreases e - i
  {
    if i < e {
      RunEndAt(s, i + 1, c, e);
    }
  }

  // ----- the patterns tried at one position -----

  /** `(.+)` tried at `k`: the rest of the line, which must not be empty. */
  function RestOfLine(s: string, start: nat, k: nat): (r: Option<Match>)
    requires start <= k <= |s|
    ensures r.Some? ==> r.value.start == start && r.value.groupStart == k < r.value.end <= |s|
  {
    var e := LineEnd(s, k);
    if k < e then Some(Match(start, k, e)) else None
  }

  /** `<tag> *: (.+)` tried at `i`. */
  function LabelledAt(tag: string, s: string, i: nat): (r: Option<Match>)
    requires i <= |s|
    ensures r.Some? ==> r.value.start == i < r.value.groupStart < r.value.end <= |s|
  {
    if OccursAt(s, tag, i) then
      var j := RunEnd(s, i + |tag|, ' ');
      if OccursAt(s, ": ", j) then RestOfLine(s, i, j + 2) else None
    else None
  }

  /** `ThreatName = (.+)` tried at `i`. */
  function ThreatNameAt(s: string, i: nat): (r: Option<Match>)
    requires i <= |s|
    ensures r.Some? ==> r.value.start == i < r.value.groupStart < r.value.end <= |s|
  {
    if OccursAt(s, ThreatNamePrefix, i) then RestOfLine(s, i, i + |ThreatNamePrefix|) else None
  }

  /** ` +(.+)` tried at `i`: ` +` is greedy but leaves `.+` at least one
      character, so when the spaces run to the end of the line the capture is
      the last space alone. */
  function IndentedAt(s: string, i: nat): (r: Option<Match>)
    requires i <= |s|
    ensures r.Some? ==> r.value.start == i < r.value.groupStart < r.value.end <= |s|
  {
    var e := LineEnd(s, i);
    if i + 2 <= e && s[i] == ' ' then
      var r := RunEnd(s, i, ' ');
      Some(Match(i, if r < e then r else e - 1, e))
    else None
  }

  /** The pattern tried at exactly position `i`. */
  function MatchAt(p: Pattern, s: string, i: nat): (r: Option<Match>)
    requires i <= |s|
    ensures r.Some? ==> r.value.start == i < r.value.groupStart < r.value.end <= |s|
  {
    match p
    case Labelled(tag) => LabelledAt(tag, s, i)
    case ThreatName => ThreatNameAt(s, i)
    case Indented => IndentedAt(s, i)
  }

  /** The rest of a line holds no line terminator. */
  lemma RestOfLineShape(s: string, k: nat)
    requires k <= |s|
    ensures NoLineTerminator(s[k..LineEnd(s, k)])
  {
    var e := LineEnd(s, k);
    LineEndFacts(s, k);
    forall j | 0 <= j < e - k
      ensures !IsLineTerminator(s[k..e][j])
    {
      assert s[k..e][j] == s[k + j];
    }
  }

  lemma IndentedEnd(s: string, i: nat)
    requires i <= |s| && IndentedAt(s, i).Some?
    ensures var m := IndentedAt(s, i).value; m.end == LineEnd(s, m.groupStart)
  {
    LineEndWithin(s, i, IndentedAt(s, i).value.groupStart);
  }

  /** Every match runs from its capture to the end of that line, and the
      capture is a non-empty piece of one line. */
  lemma MatchAtEnd(p: Pattern, s: string, i: nat)
    requires i <= |s| && MatchAt(p, s, i).Some?
    ensures var m := MatchAt(p, s, i).value;
            m.end == LineEnd(s, m.groupStart) && NoLineTerminator(s[m.groupStart..m.end])
  {
    RestOfLineShape(s, MatchAt(p, s, i).value.groupStart);
    if p.Indented? {
      IndentedEnd(s, i);
    }
  }

  /** No pattern matches at the end of the string: each needs a character. */
  lemma NoMatchAtEnd(p: Pattern, s: string)
    ensures MatchAt(p, s, |s|).None?
  {
  }

  // ----- searching -----

  /** The outcome of trying the pattern at each position of `s` from `i` on,
      the end included: what a search walks through. */
  function Attempts(p: Pattern, s: string, i: nat): (a: seq<Option<Match>>)
    requires i <= |s| + 1
    ensures |a| == |s| + 1 - i
    decreases |s| + 1 - i
  {
    if i == |s| + 1 then [] else [MatchAt(p, s, i)] + Attempts(p, s, i + 1)
  }

  lemma {:induction false} AttemptsAt(p: Pattern, s: string, i: nat, k: nat)
    requires i <= k <= |s|
    ensures Attempts(p, s, i)[k - i] == MatchAt(p, s, k)
    decreases k - i
  {
    if i < k {
      AttemptsAt(p, s, i + 1, k);
    }
  }

  lemma AttemptsAll(p: Pattern, s: string)
    ensures forall k | 0 <= k <= |s| :: Attempts(p, s, 0)[k] == MatchAt(p, s, k)
  {
    forall k | 0 <= k <= |s| ensures Attempts(p, s, 0)[k] == MatchAt(p, s, k) {
      AttemptsAt(p, s, 0, k);
    }
  }

  /** The first successful attempt at or after `from`. */
  function FirstIn(a: seq<Option<Match>>, from: nat): (r: Option<Match>)
    requires from < |a|
    decreases |a| - from
  {
    if a[from].Some? then a[from]
    else if from + 1 == |a| then None
    else FirstIn(a, from + 1)
  }

  /** The leftmost match at or after `from`, the way `exec` searches. */
  function FirstMatch(p: Pattern, s: string, from: nat): (r: Option<Match>)
    requires from <= |s|
    ensures r.Some? ==> from <= r.value.start < r.value.groupStart < r.value.end <= |s|
  {
    var a := Attempts(p, s, 0);
    AttemptsAll(p, s);
    FirstInLeftmost(a, from);
    FirstIn(a, from)
  }

  lemma {:induction false} FirstInLeftmost(a: seq<Option<Match>>, from: nat)
    requires from < |a|
    ensures FirstIn(a, from).Some? ==>
              exists j | from <= j < |a| :: a[j] == FirstIn(a, from) && forall i | from <= i < j :: a[i].None?
    ensures FirstIn(a, from).None? ==> forall i | from <= i < |a| :: a[i].None?
    decreases |a| - from
  {
    if a[from].None? && from + 1 < |a| {
      FirstInLeftmost(a, from + 1);
      if FirstIn(a, from).Some? {
        var j :| from + 1 <= j < |a| && a[j] == FirstIn(a, from) && forall i | from + 1 <= i < j :: a[i].None?;
        assert forall i | from <= i < j :: a[i].None?;
      }
    }
  }

  /** What `FirstMatch` finds is a match, and no match starts before it. */
  lemma FirstMatchLeftmost(p: Pattern, s: string, from: nat)
    requires from <= |s|
    ensures var r := FirstMatch(p, s, from);
            && (r.Some? ==> MatchAt(p, s, r.value.start) == r)
            && (r.Some? ==> forall i | from <= i < r.value.start :: MatchAt(p, s, i).None?)
            && (r.None? ==> forall i | from <= i <= |s| :: MatchAt(p, s, i).None?)
  {
    AttemptsAll(p, s);
    FirstInLeftmost(Attempts(p, s, 0), from);
  }

  lemma {:induction false} FirstInSkip(a: seq<Option<Match>>, from: nat, to: nat)
    requires from <= to < |a|
    requires forall i | from <= i < to :: a[i].None?
    ensures FirstIn(a, from) == FirstIn(a, to)
    decreases (to as int) - (from as int)
  {
    if from < to {
      FirstInSkip(a, from + 1, to);
    }
  }

  /** A search that starts where nothing can match resumes at the next
      place where something might. */
  lemma FirstMatchSkip(p: Pattern, s: string, from: nat, to: nat)
    requires from <= to <= |s|
    requires forall i | from <= i < to :: MatchAt(p, s, i).None?
    ensures FirstMatch(p, s, from) == FirstMatch(p, s, to)
  {
    AttemptsAll(p, s);
    FirstInSkip(Attempts(p, s, 0), from, to);
  }

  /** A search finds the match at `i` when nothing matches between where it
      starts and `i`. */
  lemma FirstMatchIs(p: Pattern, s: string, from: nat, i: nat)
    requires from <= i <= |s| && MatchAt(p, s, i).Some?
    requires forall j | from <= j < i :: MatchAt(p, s, j).None?
    ensures FirstMatch(p, s, from) == MatchAt(p, s, i)
  {
    FirstMatchSkip(p, s, from, i);
    FirstMatchLeftmost(p, s, i);
  }

  /** A search that starts at the end of the string finds nothing. */
  lemma FirstMatchAtEnd(p: Pattern, s: string)
    ensures FirstMatch(p, s, |s|).None?
  {
    FirstMatchLeftmost(p, s, |s|);
    NoMatchAtEnd(p, s);
  }

  /** The capture of a match. */
  function FoundOf(s: string, m: Match): Found
    requires m.start <= m.groupStart <= m.end <= |s|
  {
    Found(s[m.start..m.end], s[m.groupStart..m.end])
  }

  /** `s.match(re)` read through `.groups`: the capture of the first match,
      `None` where the program reads `.groups` of `null`. */
  function FirstCapture(p: Pattern, s: string): Option<string>
  {
    match FirstMatch(p, s, 0)
    case None => None
    case Some(m) => Some(s[m.groupStart..m.end])
  }

  /** A capture is never empty and never holds a line terminator. */
  lemma FirstCaptureShape(p: Pattern, s: string)
    ensures var r := FirstCapture(p, s);
            r.Some? ==> r.value != [] && NoLineTerminator(r.value)
  {
    FirstMatchLeftmost(p, s, 0);
    var r := FirstMatch(p, s, 0);
    if r.Some? {
      MatchAtEnd(p, s, r.value.start);
    }
  }

  /** The matches of a global search from `from` on: each starts where the
      previous one ended. */
  function AllFound(p: Pattern, s: string, from: nat): seq<Found>
    requires from <= |s|
    decreases |s| - from
  {
    match FirstMatch(p, s, from)
    case None => []
    case Some(m) => [FoundOf(s, m)] + AllFound(p, s, m.end)
  }

  function Texts(fs: seq<Found>): (r: seq<string>)
    ensures |r| == |fs| && forall k | 0 <= k < |fs| :: r[k] == fs[k].text
  {
    if fs == [] then [] else [fs[0].text] + Texts(fs[1..])
  }

  function Captures(fs: seq<Found>): (r: seq<string>)
    ensures |r| == |fs| && forall k | 0 <= k < |fs| :: r[k] == fs[k].capture
  {
    if fs == [] then [] else [fs[0].capture] + Captures(fs[1..])
  }

  /** `s.match(re)` with the `g` flag: the matched texts, or `None` for the
      `null` returned when nothing matches. */
  function MatchGlobal(p: Pattern, s: string): Option<seq<string>>
  {
    var fs := AllFound(p, s, 0);
    if fs == [] then None else Some(Texts(fs))
  }

  /** `texts.map((t) => t.match(re).groups.x)`: `None` is the TypeError a text
      without a match would raise. */
  function CaptureEach(p: Pattern, texts: seq<string>): Option<seq<string>>
  {
    if texts == [] then Some([])
    else match (FirstCapture(p, texts[0]), CaptureEach(p, texts[1..]))
      case (Some(c), Some(cs)) => Some([c] + cs)
      case _ => None
  }

  // ----- re-matching the text of a match -----

  lemma OccursAtSlice(s: string, lo: nat, hi: nat, pattern: string, i: nat)
    requires lo <= hi <= |s| && lo + i + |pattern| <= hi
    ensures OccursAt(s[lo..hi], pattern, i) == OccursAt(s, pattern, lo + i)
  {
    forall k | 0 <= k < |pattern|
      ensures s[lo..hi][i + k] == pattern[k] <==> s[lo + i + k] == pattern[k]
    {
    }
  }

  /** The text of a line's tail, cut out, is a line of its own. */
  lemma LineEndOfPiece(s: string, i: nat, g: nat)
    requires i <= g <= |s|
    ensures LineEnd(s[i..LineEnd(s, g)], g - i) == LineEnd(s, g) - i
  {
    var e := LineEnd(s, g);
    LineEndFacts(s, g);
    LineEndAt(s[i..e], g - i, e - i);
  }

  lemma RecaptureLabelled(tag: string, s: string, i: nat)
    requires i <= |s| && LabelledAt(tag, s, i).Some?
    ensures var m := LabelledAt(tag, s, i).value;
            LabelledAt(tag, s[i..m.end], 0) == Some(Match(0, m.groupStart - i, m.end - i))
  {
    var m := LabelledAt(tag, s, i).value;
    var j := RunEnd(s, i + |tag|, ' ');
    OccursAtSlice(s, i, m.end, tag, 0);
    RunEndFacts(s, i + |tag|, ' ');
    RunEndAt(s[i..m.end], |tag|, ' ', j - i);
    OccursAtSlice(s, i, m.end, ": ", j - i);
    LineEndOfPiece(s, i, m.groupStart);
  }

  lemma RecaptureThreatName(s: string, i: nat)
    requires i <= |s| && ThreatNameAt(s, i).Some?
    ensures var m := ThreatNameAt(s, i).value;
            ThreatNameAt(s[i..m.end], 0) == Some(Match(0, m.groupStart - i, m.end - i))
  {
    var m := ThreatNameAt(s, i).value;
    OccursAtSlice(s, i, m.end, ThreatNamePrefix, 0);
    LineEndOfPiece(s, i, m.groupStart);
  }

  lemma RecaptureIndented(s: string, i: nat)
    requires i <= |s| && IndentedAt(s, i).Some?
    ensures var m := IndentedAt(s, i).value;
            IndentedAt(s[i..m.end], 0) == Some(Match(0, m.groupStart - i, m.end - i))
  {
    var m := IndentedAt(s, i).value;
    var t := s[i..m.end];
    LineEndOfPiece(s, i, i);
    RunEndFacts(s, i, ' ');
    var r := RunEnd(s, i, ' ');
    if r < m.end {
      RunEndAt(t, 0, ' ', r - i);
    } else {
      RunEndAt(t, 0, ' ', |t|);
    }
  }

  /** Matching the text of a match again finds it at its start, with the same
      capture: the reason `t.match(re).groups` never fails on such a text. */
  lemma RecaptureText(p: Pattern, s: string, i: nat)
    requires i <= |s| && MatchAt(p, s, i).Some?
    ensures var m := MatchAt(p, s, i).value;
            FirstCapture(p, s[i..m.end]) == Some(s[m.groupStart..m.end])
  {
    var m := MatchAt(p, s, i).value;
    var t := s[i..m.end];
    match p {
      case Labelled(tag) => RecaptureLabelled(tag, s, i);
      case ThreatName => RecaptureThreatName(s, i);
      case Indented => RecaptureIndented(s, i);
    }
    assert MatchAt(p, t, 0) == Some(Match(0, m.groupStart - i, |t|));
    assert t[m.groupStart - i..|t|] == s[m.groupStart..m.end];
  }

  /** Each text matches again on its own, with its capture. */
  predicate Recaptured(p: Pattern, fs: seq<Found>) {
    forall k | 0 <= k < |fs| :: FirstCapture(p, fs[k].text) == Some(fs[k].capture)
  }

  /** Every text a global search returns matches again on its own, with the
      same capture. */
  lemma {:induction false} AllFoundRecapture(p: Pattern, s: string, from: nat)
    requires from <= |s|
    ensures Recaptured(p, AllFound(p, s, from))
    decreases |s| - from
  {
    FirstMatchLeftmost(p, s, from);
    match FirstMatch(p, s, from)
    case None =>
    case Some(m) =>
      assert MatchAt(p, s, m.start) == Some(m);
      RecaptureText(p, s, m.start);
      AllFoundRecapture(p, s, m.end);
      var rest := AllFound(p, s, m.end);
      var fs := [FoundOf(s, m)] + rest;
      assert AllFound(p, s, from) == fs;
      forall k | 0 <= k < |fs|
        ensures FirstCapture(p, fs[k].text) == Some(fs[k].capture)
      {
        if k > 0 {
          assert fs[k] == rest[k - 1];
        }
      }
  }

  /** Every capture is a non-empty piece of one line. */
  predicate LineCaptures(fs: seq<Found>) {
    forall k | 0 <= k < |fs| :: fs[k].capture != [] && NoLineTerminator(fs[k].capture)
  }

  /** Every capture of a global search is a non-empty piece of one line. */
  lemma {:induction false} AllFoundShape(p: Pattern, s: string, from: nat)
    requires from <= |s|
    ensures LineCaptures(AllFound(p, s, from))
    decreases |s| - from
  {
    FirstMatchLeftmost(p, s, from);
    match FirstMatch(p, s, from) {
      case None =>
      case Some(m) =>
        assert MatchAt(p, s, m.start) == Some(m);
        MatchAtEnd(p, s, m.start);
        AllFoundShape(p, s, m.end);
        var rest := AllFound(p, s, m.end);
        var fs := [FoundOf(s, m)] + rest;
        assert AllFound(p, s, from) == fs;
        forall k | 0 <= k < |fs| ensures fs[k].capture != [] && NoLineTerminator(fs[k].capture) {
          if k > 0 {
            assert fs[k] == rest[k - 1];
          } else {
            assert fs[0].capture == s[m.groupStart..m.end];
          }
        }
    }
  }

  /** Matching every text of a global match again yields exactly the
      captures of the global match, in order. */
  lemma {:induction false} CaptureEachOfFound(p: Pattern, fs: seq<Found>)
    requires Recaptured(p, fs)
    ensures CaptureEach(p, Texts(fs)) == Some(Captures(fs))
  {
    if fs != [] {
      CaptureEachOfFound(p, fs[1..]);
      assert Texts(fs)[1..] == Texts(fs[1..]);
      assert Captures(fs) == [fs[0].capture] + Captures(fs[1..]);
    }
  }

  // ----- text in front: a pattern looks only forward -----

  function Shift(r: Option<Match>, d: nat): Option<Match> {
    match r
    case None => None
    case Some(m) => Some(Match(m.start + d, m.groupStart + d, m.end + d))
  }

  lemma LineEndShift(a: string, b: string, i: nat)
    requires i <= |b|
    ensures LineEnd(a + b, |a| + i) == |a| + LineEnd(b, i)
  {
    LineEndFacts(b, i);
    LineEndAt(a + b, |a| + i, |a| + LineEnd(b, i));
  }

  lemma RunEndShift(a: string, b: string, i: nat, c: char)
    requires i <= |b|
    ensures RunEnd(a + b, |a| + i, c) == |a| + RunEnd(b, i, c)
  {
    RunEndFacts(b, i, c);
    RunEndAt(a + b, |a| + i, c, |a| + RunEnd(b, i, c));
  }

  lemma OccursAtShift(a: string, b: string, pattern: string, i: nat)
    ensures OccursAt(a + b, pattern, |a| + i) == OccursAt(b, pattern, i)
  {
    if i + |pattern| <= |b| {
      assert (a + b)[|a| + i..|a| + i + |pattern|] == b[i..i + |pattern|];
    }
  }

  lemma RestOfLineShift(a: string, b: string, start: nat, k: nat)
    requires start <= k <= |b|
    ensures RestOfLine(a + b, |a| + start, |a| + k) == Shift(RestOfLine(b, start, k), |a|)
  {
    LineEndShift(a, b, k);
  }

  lemma LabelledShift(tag: string, a: string, b: string, i: nat)
    requires i <= |b|
    ensures LabelledAt(tag, a + b, |a| + i) == Shift(LabelledAt(tag, b, i), |a|)
  {
    OccursAtShift(a, b, tag, i);
    if OccursAt(b, tag, i) {
      var j := RunEnd(b, i + |tag|, ' ');
      RunEndShift(a, b, i + |tag|, ' ');
      OccursAtShift(a, b, ": ", j);
      if OccursAt(b, ": ", j) {
        RestOfLineShift(a, b, i, j + 2);
      }
    }
  }

  lemma ThreatNameShift(a: string, b: string, i: nat)
    requires i <= |b|
    ensures ThreatNameAt(a + b, |a| + i) == Shift(ThreatNameAt(b, i), |a|)
  {
    OccursAtShift(a, b, ThreatNamePrefix, i);
    if OccursAt(b, ThreatNamePrefix, i) {
      RestOfLineShift(a, b, i, i + |ThreatNamePrefix|);
    }
  }

  lemma IndentedShift(a: string, b: string, i: nat)
    requires i <= |b|
    ensures IndentedAt(a + b, |a| + i) == Shift(IndentedAt(b, i), |a|)
  {
    LineEndShift(a, b, i);
    if i < |b| {
      RunEndShift(a, b, i, ' ');
    }
  }

  lemma MatchAtShift(p: Pattern, a: string, b: string, i: nat)
    requires i <= |b|
    ensures MatchAt(p, a + b, |a| + i) == Shift(MatchAt(p, b, i), |a|)
  {
    match p
    case Labelled(tag) => LabelledShift(tag, a, b, i);
    case ThreatName => ThreatNameShift(a, b, i);
    case Indented => IndentedShift(a, b, i);
  }

  lemma {:induction false} FirstInShift(a: seq<Option<Match>>, c: seq<Option<Match>>, d: nat, i: nat)
    requires i < |c| && |a| == d + |c|
    requires forall k | i <= k < |c| :: a[d + k] == Shift(c[k], d)
    ensures FirstIn(a, d + i) == Shift(FirstIn(c, i), d)
    decreases |c| - i
  {
    if c[i].None? && i + 1 < |c| {
      FirstInShift(a, c, d, i + 1);
    }
  }

  lemma FirstMatchShift(p: Pattern, a: string, b: string, i: nat)
    requires i <= |b|
    ensures FirstMatch(p, a + b, |a| + i) == Shift(FirstMatch(p, b, i), |a|)
  {
    var at, bt := Attempts(p, a + b, 0), Attempts(p, b, 0);
    AttemptsAll(p, a + b);
    AttemptsAll(p, b);
    forall k | i <= k < |bt| ensures at[|a| + k] == Shift(bt[k], |a|) {
      MatchAtShift(p, a, b, k);
    }
    FirstInShift(at, bt, |a|, i);
  }

  lemma FoundOfShift(a: string, b: string, m: Match)
    requires m.start <= m.groupStart <= m.end <= |b|
    ensures FoundOf(a + b, Match(m.start + |a|, m.groupStart + |a|, m.end + |a|)) == FoundOf(b, m)
  {
    assert (a + b)[|a| + m.start..|a| + m.end] == b[m.start..m.end];
    assert (a + b)[|a| + m.groupStart..|a| + m.end] == b[m.groupStart..m.end];
  }

  /** The matches of a global search in `b` are the same texts when `b` is
      preceded by anything. */
  lemma {:induction false} AllFoundShift(p: Pattern, a: string, b: string, i: nat)
    requires i <= |b|
    ensures AllFound(p, a + b, |a| + i) == AllFound(p, b, i)
    decreases |b| - i
  {
    FirstMatchShift(p, a, b, i);
    match FirstMatch(p, b, i)
    case None =>
    case Some(m) =>
      var m' := Match(m.start + |a|, m.groupStart + |a|, m.end + |a|);
      assert AllFound(p, a + b, |a| + i) == [FoundOf(a + b, m')] + AllFound(p, a + b, |a| + m.end);
      assert AllFound(p, a + b, |a| + m.end) == AllFound(p, b, m.end) by {
        AllFoundShift(p, a, b, m.end);
      }
      assert FoundOf(a + b, m') == FoundOf(b, m) by {
        FoundOfShift(a, b, m);
      }
  }

  // ----- a line break in between: no match runs across one -----

  lemma LineEndBeforeBreak(x: string, y: string, i: nat)
    requires i <= |x| && y != [] && IsLineTerminator(y[0])
    ensures LineEnd(x + y, i) == LineEnd(x, i)
  {
    LineEndFacts(x, i);
    LineEndAt(x + y, i, LineEnd(x, i));
  }

  lemma RunEndBeforeBreak(x: string, y: string, i: nat, c: char)
    requires i <= |x| && y != [] && y[0] != c
    ensures RunEnd(x + y, i, c) == RunEnd(x, i, c)
  {
    RunEndFacts(x, i, c);
    RunEndAt(x + y, i, c, RunEnd(x, i, c));
  }

  lemma OccursAtBeforeBreak(x: string, y: string, pattern: string, i: nat)
    requires i <= |x| && y != [] && IsLineTerminator(y[0]) && NoLineTerminator(pattern)
    ensures OccursAt(x + y, pattern, i) == OccursAt(x, pattern, i)
  {
    if |x| < i + |pattern| <= |x + y| {
      assert (x + y)[i + (|x| - i)] == y[0];
      assert !IsLineTerminator(pattern[|x| - i]);
    }
  }

  lemma RestOfLineBeforeBreak(x: string, y: string, start: nat, k: nat)
    requires start <= k <= |x| && y != [] && IsLineTerminator(y[0])
    ensures RestOfLine(x + y, start, k) == RestOfLine(x, start, k)
  {
    LineEndBeforeBreak(x, y, k);
  }

  lemma LabelledBeforeBreak(tag: string, x: string, y: string, i: nat)
    requires i <= |x| && y != [] && IsLineTerminator(y[0]) && NoLineTerminator(tag)
    ensures LabelledAt(tag, x + y, i) == LabelledAt(tag, x, i)
  {
    OccursAtBeforeBreak(x, y, tag, i);
    if OccursAt(x, tag, i) {
      var j := RunEnd(x, i + |tag|, ' ');
      RunEndBeforeBreak(x, y, i + |tag|, ' ');
      OccursAtBeforeBreak(x, y, ": ", j);
      if OccursAt(x, ": ", j) {
        RestOfLineBeforeBreak(x, y, i, j + 2);
      }
    }
  }

  lemma ThreatNameBeforeBreak(x: string, y: string, i: nat)
    requires i <= |x| && y != [] && IsLineTerminator(y[0])
    ensures ThreatNameAt(x + y, i) == ThreatNameAt(x, i)
  {
    OccursAtBeforeBreak(x, y, ThreatNamePrefix, i);
    if OccursAt(x, ThreatNamePrefix, i) {
      RestOfLineBeforeBreak(x, y, i, i + |ThreatNamePrefix|);
    }
  }

  lemma IndentedBeforeBreak(x: string, y: string, i: nat)
    requires i <= |x| && y != [] && IsLineTerminator(y[0])
    ensures IndentedAt(x + y, i) == IndentedAt(x, i)
  {
    LineEndBeforeBreak(x, y, i);
    if i < |x| {
      RunEndBeforeBreak(x, y, i, ' ');
    }
  }

  /** A pattern tried in front of a line break sees only the text before it. */
  lemma MatchAtBeforeBreak(p: Pattern, x: string, y: string, i: nat)
    requires LineBound(p) && i <= |x| && y != [] && IsLineTerminator(y[0])
    ensures MatchAt(p, x + y, i) == MatchAt(p, x, i)
  {
    match p
    case Labelled(tag) => LabelledBeforeBreak(tag, x, y, i);
    case ThreatName => ThreatNameBeforeBreak(x, y, i);
    case Indented => IndentedBeforeBreak(x, y, i);
  }

  /** Searching text that a line break `t` divides: the first match in front
      of the break if there is one, otherwise the first match after it. */
  lemma {:induction false} FirstInAcross(a: seq<Option<Match>>, b: seq<Option<Match>>, c: seq<Option<Match>>, from: nat)
    requires from < |b| && c != [] && |a| == |b| + |c|
    requires forall i | from <= i < |b| :: a[i] == b[i]
    requires forall i | 0 <= i < |c| :: a[|b| + i] == Shift(c[i], |b|)
    ensures FirstIn(a, from) == if FirstIn(b, from).Some? then FirstIn(b, from) else Shift(FirstIn(c, 0), |b|)
    decreases |b| - from
  {
    if b[from].None? {
      if from + 1 < |b| {
        FirstInAcross(a, b, c, from + 1);
      } else {
        FirstInShift(a, c, |b|, 0);
      }
    }
  }

  lemma FirstMatchAcross(p: Pattern, x: string, t: char, y: string, from: nat)
    requires LineBound(p) && from <= |x| && IsLineTerminator(t)
    ensures FirstMatch(p, x + [t] + y, from)
         == if FirstMatch(p, x, from).Some? then FirstMatch(p, x, from)
            else Shift(FirstMatch(p, y, 0), |x| + 1)
  {
    var s := x + [t] + y;
    var a, b, c := Attempts(p, s, 0), Attempts(p, x, 0), Attempts(p, y, 0);
    AttemptsAll(p, s);
    AttemptsAll(p, x);
    AttemptsAll(p, y);
    forall i | from <= i < |b| ensures a[i] == b[i] {
      assert s == x + ([t] + y);
      MatchAtBeforeBreak(p, x, [t] + y, i);
    }
    forall i | 0 <= i < |c| ensures a[|b| + i] == Shift(c[i], |b|) {
      MatchAtShift(p, x + [t], y, i);
    }
    FirstInAcross(a, b, c, from);
  }

  lemma FoundOfBeforeBreak(x: string, y: string, m: Match)
    requires m.start <= m.groupStart <= m.end <= |x|
    ensures FoundOf(x + y, m) == FoundOf(x, m)
  {
    assert (x + y)[m.start..m.end] == x[m.start..m.end];
    assert (x + y)[m.groupStart..m.end] == x[m.groupStart..m.end];
  }

  /** A global search through text that a line break divides finds the
      matches in front of the break, then those after it. */
  lemma {:induction false} AllFoundAcross(p: Pattern, x: string, t: char, y: string, from: nat)
    requires LineBound(p) && from <= |x| && IsLineTerminator(t)
    ensures AllFound(p, x + [t] + y, from) == AllFound(p, x, from) + AllFound(p, y, 0)
    decreases |x| - from
  {
    var s := x + [t] + y;
    match FirstMatch(p, x, from)
    case Some(m) =>
      var f := FoundOf(x, m);
      var rest, restX, restY := AllFound(p, s, m.end), AllFound(p, x, m.end), AllFound(p, y, 0);
      assert AllFound(p, s, from) == [f] + rest by {
        FirstMatchAcross(p, x, t, y, from);
        assert s == x + ([t] + y);
        FoundOfBeforeBreak(x, [t] + y, m);
      }
      assert AllFound(p, x, from) == [f] + restX;
      assert rest == restX + restY by {
        AllFoundAcross(p, x, t, y, m.end);
      }
      AppendAssoc([f], restX, restY);
    case None =>
      FirstMatchAcross(p, x, t, y, from);
      AllFoundAfterBreak(p, x, t, y, from);
  }

  lemma AppendAssoc<T>(a: seq<T>, b: seq<T>, c: seq<T>)
    ensures a + (b + c) == (a + b) + c
  {
  }

  lemma AllFoundAfterBreak(p: Pattern, x: string, t: char, y: string, from: nat)
    requires from <= |x|
    requires FirstMatch(p, x + [t] + y, from) == Shift(FirstMatch(p, y, 0), |x| + 1)
    ensures AllFound(p, x + [t] + y, from) == AllFound(p, y, 0)
  {
    var s := x + [t] + y;
    assert FirstMatch(p, s, from) == FirstMatch(p, s, |x| + 1) by {
      FirstMatchShift(p, x + [t], y, 0);
    }
    assert AllFound(p, s, from) == AllFound(p, s, |x| + 1) by {
      AllFoundSameFirst(p, s, from, |x| + 1);
    }
    AllFoundShift(p, x + [t], y, 0);
  }

  lemma AllFoundSameFirst(p: Pattern, s: string, i: nat, j: nat)
    requires i <= |s| && j <= |s| && FirstMatch(p, s, i) == FirstMatch(p, s, j)
    ensures AllFound(p, s, i) == AllFound(p, s, j)
  {
  }

  /** The matches of a global search in each line on its own, line after line. */
  function FoundInLines(p: Pattern, lines: seq<string>): seq<Found>
  {
    if lines == [] then [] else AllFound(p, lines[0], 0) + FoundInLines(p, lines[1..])
  }

  lemma {:induction false} FoundInLinesAppend(p: Pattern, xs: seq<string>, ys: seq<string>)
    ensures FoundInLines(p, xs + ys) == FoundInLines(p, xs) + FoundInLines(p, ys)
    decreases |xs|
  {
    if xs == [] {
      assert xs + ys == ys;
    } else {
      assert (xs + ys)[1..] == xs[1..] + ys;
      FoundInLinesAppend(p, xs[1..], ys);
    }
  }

  /** The first capture of the first line that has one. */
  function FirstCaptureInLines(p: Pattern, lines: seq<string>): Option<string>
  {
    if lines == [] then None
    else if FirstCapture(p, lines[0]).Some? then FirstCapture(p, lines[0])
    else FirstCaptureInLines(p, lines[1..])
  }

  lemma AllFoundEmpty(p: Pattern)
    ensures AllFound(p, "", 0) == []
  {
    NoMatchAtEnd(p, "");
  }

  /** A global search through lines joined with "\n" finds what it finds in
      each line, in order. */
  lemma {:induction false} AllFoundLines(p: Pattern, lines: seq<string>)
    requires LineBound(p)
    ensures AllFound(p, Join(lines, LF), 0) == FoundInLines(p, lines)
    decreases |lines|
  {
    if |lines| == 0 {
      AllFoundEmpty(p);
    } else if |lines| == 1 {
      assert FoundInLines(p, lines) == AllFound(p, lines[0], 0) + FoundInLines(p, []);
    } else {
      var rest := Join(lines[1..], LF);
      assert Join(lines, LF) == lines[0] + ['\n'] + rest;
      AllFoundAcross(p, lines[0], '\n', rest, 0);
      AllFoundLines(p, lines[1..]);
    }
  }

  /** Matching text that a line break divides yields the capture in front of
      the break if there is one, otherwise the one after it. */
  lemma FirstCaptureAcross(p: Pattern, x: string, t: char, y: string)
    requires LineBound(p) && IsLineTerminator(t)
    ensures FirstCapture(p, x + [t] + y)
         == if FirstCapture(p, x).Some? then FirstCapture(p, x) else FirstCapture(p, y)
  {
    var s := x + [t] + y;
    FirstMatchAcross(p, x, t, y, 0);
    match FirstMatch(p, x, 0)
    case Some(m) =>
      assert s[m.groupStart..m.end] == x[m.groupStart..m.end];
    case None =>
      match FirstMatch(p, y, 0)
      case None =>
      case Some(m) =>
        assert s[m.groupStart + |x| + 1..m.end + |x| + 1] == y[m.groupStart..m.end];
  }

  /** Matching lines joined with "\n" yields the capture of the first line
      that matches. */
  lemma {:induction false} FirstCaptureLines(p: Pattern, lines: seq<string>)
    requires LineBound(p)
    ensures FirstCapture(p, Join(lines, LF)) == FirstCaptureInLines(p, lines)
    decreases |lines|
  {
    if |lines| == 0 {
      NoMatchAtEnd(p, "");
    } else if |lines| > 1 {
      var rest := Join(lines[1..], LF);
      assert Join(lines, LF) == lines[0] + ['\n'] + rest;
      FirstCaptureAcross(p, lines[0], '\n', rest);
      FirstCaptureLines(p, lines[1..]);
    }
  }

  /** A line that matches as a whole is one match of a global search. */
  lemma WholeLineFound(p: Pattern, line: string, g: nat)
    requires MatchAt(p, line, 0) == Some(Match(0, g, |line|))
    ensures AllFound(p, line, 0) == [Found(line, line[g..])]
    ensures FirstCapture(p, line) == Some(line[g..])
  {
    NoMatchAtEnd(p, line);
    assert line[0..|line|] == line;
  }

  /** A line where the pattern finds nothing adds nothing to a global search. */
  lemma NoMatchFound(p: Pattern, line: string)
    requires forall i | 0 <= i <= |line| :: MatchAt(p, line, i).None?
    ensures AllFound(p, line, 0) == [] && FirstCapture(p, line) == None
  {
    FirstMatchSkip(p, line, 0, |line|);
    NoMatchAtEnd(p, line);
  }
}
