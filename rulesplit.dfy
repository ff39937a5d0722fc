/**
 * `text.split(/^-*$/gm)`: cutting the threat report at its rule lines.
 * `^-*$` with the `m` flag matches at the start of every line made only of
 * dashes, and also at the start of every empty line (zero dashes).
 * `String.prototype.split` tries the pattern at each position `q` in turn,
 * skips a match that ends where the current piece began, and never tries
 * the end of the string itself.
 */
module RuleSplit {
  import opened Text
  import opened Patterns

  /** `^-*$` tried at exactly `q`: where the match ends, if `q` starts a line
      and that line holds nothing but dashes. */
  function RuleAt(s: string, q: nat): (r: Option<nat>)
    requires q <= |s|
    ensures r.Some? ==> q <= r.value <= |s|
  {
    if LineStart(s, q) then
      var d := RunEnd(s, q, '-');
      if d == |s| || IsLineTerminator(s[d]) then Some(d) else None
    else None
  }

  /** The loop of `String.prototype.split` with a regular expression: the
      current piece began at `p`, and the pattern is tried next at `q`. */
  function SplitFrom(s: string, p: nat, q: nat): (pieces: seq<string>)
    requires p <= q <= |s|
    ensures |pieces| >= 1
    decreases |s| - q, q - p
  {
    if q == |s| then [s[p..]]
    else match RuleAt(s, q)
      case None => SplitFrom(s, p, q + 1)
      case Some(e) =>
        if e == p then SplitFrom(s, p, q + 1)
        else [s[p..q]] + SplitFrom(s, e, e)
  }

  /** `s.split(/^-*$/gm)`. The pattern matches the empty string, so `""`
      splits into no pieces at all. */
  function SplitAtRules(s: string): (pieces: seq<string>)
    ensures s == [] <==> pieces == []
  {
    if s == [] then [] else SplitFrom(s, 0, 0)
  }

  /** Position `q` starts a line: `^` holds there under the `m` flag. */
  predicate LineStart(s: string, q: nat)
    requires q <= |s|
  {
    q == 0 || IsLineTerminator(s[q - 1])
  }

  /** A rule line of the report: one or more dashes. */
  predicate IsRule(r: string) {
    r != [] && forall k | 0 <= k < |r| :: r[k] == '-'
  }

  /** A character that can start a line which is not a rule: neither a dash
      nor a line terminator (an empty line would count as a rule). */
  predicate Plain(c: char) {
    c != '-' && !IsLineTerminator(c)
  }

  /** Every line that starts inside `x`, including the one at its first
      character, starts with a plain character. */
  predicate PlainLines(x: string) {
    forall k {:trigger LineStart(x, k)} | 0 <= k < |x| && LineStart(x, k) :: Plain(x[k])
  }

  /** A line of text followed by a line break is plain when the line is not
      empty, holds no line terminator and does not start with a dash. */
  lemma PlainLine(line: string)
    requires line != [] && NoLineTerminator(line) && line[0] != '-'
    ensures PlainLines(line + LF)
  {
    var x := line + LF;
    forall k | 0 < k < |x| ensures !LineStart(x, k) {
      assert x[k - 1] == line[k - 1];
    }
    assert x[0] == line[0];
  }

  lemma PlainLinesAppend(x: string, y: string)
    requires PlainLines(x) && PlainLines(y)
    ensures PlainLines(x + y)
  {
    var s := x + y;
    forall k | 0 <= k < |s| && LineStart(s, k)
      ensures Plain(s[k])
    {
      if k < |x| {
        assert s[k] == x[k];
        if k > 0 {
          assert s[k - 1] == x[k - 1];
        }
        assert LineStart(x, k);
      } else {
        assert s[k] == y[k - |x|];
        if k > |x| {
          assert s[k - 1] == y[k - |x| - 1];
        }
        assert LineStart(y, k - |x|);
      }
    }
  }

  /** Lines that are not empty, hold no line terminator and do not start
      with a dash, each followed by a line break, are plain. */
  lemma {:induction false} PlainJoin(lines: seq<string>)
    requires lines != []
    requires forall k | 0 <= k < |lines| ::
               lines[k] != [] && NoLineTerminator(lines[k]) && lines[k][0] != '-'
    ensures PlainLines(Join(lines, LF) + LF)
    decreases |lines|
  {
    PlainLine(lines[0]);
    if |lines| > 1 {
      PlainJoin(lines[1..]);
      assert Join(lines, LF) + LF == (lines[0] + LF) + (Join(lines[1..], LF) + LF);
      PlainLinesAppend(lines[0] + LF, Join(lines[1..], LF) + LF);
    }
  }

  /** What the split can take as one piece before the next rule: it does not
      start with a dash, ends with a line break, and every other line in it
      starts with a plain character. Its first line may be empty: the split
      skips an empty match where the piece begins. */
  predicate OpensPiece(piece: string) {
    && piece != [] && piece[0] != '-' && piece[|piece| - 1] == '\n'
    && forall k {:trigger LineStart(piece, k)} | 0 < k < |piece| && LineStart(piece, k) :: Plain(piece[k])
  }

  /** A block's lines, after nothing or after the line break that ended the
      rule above them, open a piece. */
  lemma OpensPieceAfter(pre: string, x: string)
    requires pre == [] || pre == LF
    requires x != [] && PlainLines(x) && x[|x| - 1] == '\n'
    ensures OpensPiece(pre + x)
  {
    var s := pre + x;
    assert x[0] != '-' by {
      assert LineStart(x, 0);
    }
    assert s[0] != '-';
    forall k | 0 < k < |s| && LineStart(s, k) ensures Plain(s[k]) {
      assert s[k] == x[k - |pre|];
      if k > |pre| {
        assert s[k - 1] == x[k - |pre| - 1];
      }
      assert LineStart(x, k - |pre|);
    }
  }

  /** No rule starts inside a piece past its first position. */
  lemma NoRuleInPiece(piece: string, post: string, q: nat)
    requires OpensPiece(piece) && 0 < q < |piece|
    ensures RuleAt(piece + post, q).None?
  {
    var s := piece + post;
    assert s[q] == piece[q];
    assert s[q - 1] == piece[q - 1];
    if LineStart(s, q) {
      assert LineStart(piece, q);
      assert RunEnd(s, q, '-') == q;
    }
  }

  /** Trying positions where no rule starts only moves `q` on. */
  lemma {:induction false} SplitSkip(s: string, p: nat, q: nat, q2: nat)
    requires p <= q <= q2 <= |s|
    requires forall i | q <= i < q2 :: RuleAt(s, i).None?
    ensures SplitFrom(s, p, q) == SplitFrom(s, p, q2)
    decreases q2 - q
  {
    if q < q2 {
      SplitSkip(s, p, q + 1, q2);
    }
  }

  /** Past the start of `b`, a rule of `a + b` is a rule of `b`. */
  lemma RuleAtShift(a: string, b: string, q: nat)
    requires 1 <= q <= |b|
    ensures RuleAt(a + b, |a| + q)
         == if RuleAt(b, q).Some? then Some(|a| + RuleAt(b, q).value) else None
  {
    var s := a + b;
    assert s[|a| + q - 1] == b[q - 1];
    RunEndShift(a, b, q, '-');
    var d := RunEnd(b, q, '-');
    if d < |b| {
      assert s[|a| + d] == b[d];
    }
  }

  /** Past the start of `b`, the split of `a + b` goes exactly as that of `b`. */
  lemma {:induction false} SplitShift(a: string, b: string, p: nat, q: nat)
    requires 1 <= q && p <= q <= |b|
    ensures SplitFrom(a + b, |a| + p, |a| + q) == SplitFrom(b, p, q)
    decreases |b| - q, q - p
  {
    var s := a + b;
    if q < |b| {
      RuleAtShift(a, b, q);
      match RuleAt(b, q) {
        case None =>
          SplitMoveOn(s, |a| + p, |a| + q);
          SplitMoveOn(b, p, q);
          SplitShift(a, b, p, q + 1);
          assert SplitFrom(s, |a| + p, |a| + q) == SplitFrom(b, p, q);
        case Some(e) =>
          if e == p {
            SplitMoveOn(s, |a| + p, |a| + q);
            SplitMoveOn(b, p, q);
            SplitShift(a, b, p, q + 1);
            assert SplitFrom(s, |a| + p, |a| + q) == SplitFrom(b, p, q);
          } else {
            CutAtRule(s, |a| + p, |a| + q, |a| + e);
            CutAtRule(b, p, q, e);
            SplitShift(a, b, e, e);
            assert s[|a| + p..|a| + q] == b[p..q];
            assert SplitFrom(s, |a| + p, |a| + q) == SplitFrom(b, p, q);
          }
      }
    } else {
      SplitAtEnd(s, |a| + p);
      SplitAtEnd(b, p);
      assert s[|a| + p..] == b[p..];
      assert SplitFrom(s, |a| + p, |a| + q) == SplitFrom(b, p, q);
    }
  }

  /** At the end of the text the split yields the rest as its last piece. */
  lemma SplitAtEnd(s: string, p: nat)
    requires p <= |s|
    ensures SplitFrom(s, p, |s|) == [s[p..]]
  {
  }

  /** Where no rule starts, or only an empty one where the piece began, the
      split moves on to the next position. */
  lemma SplitMoveOn(s: string, p: nat, q: nat)
    requires p <= q < |s|
    requires RuleAt(s, q).None? || RuleAt(s, q) == Some(p)
    ensures SplitFrom(s, p, q) == SplitFrom(s, p, q + 1)
  {
  }

  /** A piece, then a rule: the split yields the piece and carries on after
      the rule's dashes. */
  lemma SplitChunk(piece: string, rule: string, tail: string)
    requires OpensPiece(piece) && IsRule(rule)
    requires tail == [] || tail[0] == '\n'
    ensures |piece| + |rule| <= |piece + rule + tail|
    ensures var s := piece + rule + tail;
            SplitFrom(s, 0, 0) == [piece] + SplitFrom(s, |piece| + |rule|, |piece| + |rule|)
  {
    var s := piece + rule + tail;
    assert SplitFrom(s, 0, 0) == SplitFrom(s, 0, |piece|) by {
      assert s == piece + (rule + tail);
      ChunkSkip(piece, rule + tail);
    }
    assert RuleAt(s, |piece|) == Some(|piece| + |rule|) by {
      ChunkRule(piece, rule, tail);
    }
    assert s[0..|piece|] == piece;
    CutAtRule(s, 0, |piece|, |piece| + |rule|);
  }

  /** A rule found at `q` that ends past the start of the current piece
      closes that piece at `q`. */
  lemma CutAtRule(s: string, p: nat, q: nat, e: nat)
    requires p <= q < |s| && RuleAt(s, q) == Some(e) && e != p
    ensures e <= |s| && SplitFrom(s, p, q) == [s[p..q]] + SplitFrom(s, e, e)
  {
  }

  /** Up to the end of a piece there is nothing to cut at but an empty
      first line, which ends where the piece began. */
  lemma ChunkSkip(piece: string, post: string)
    requires OpensPiece(piece)
    ensures SplitFrom(piece + post, 0, 0) == SplitFrom(piece + post, 0, |piece|)
  {
    var s := piece + post;
    forall i | 1 <= i < |piece| ensures RuleAt(s, i).None? {
      NoRuleInPiece(piece, post, i);
    }
    SplitSkip(s, 0, 1, |piece|);
    assert s[0] == piece[0];
    assert RunEnd(s, 0, '-') == 0;
  }

  /** A rule line right after a line break is found where it starts and
      ends where its dashes do. */
  lemma ChunkRule(head: string, rule: string, tail: string)
    requires head != [] && IsLineTerminator(head[|head| - 1]) && IsRule(rule)
    requires tail == [] || IsLineTerminator(tail[0])
    ensures RuleAt(head + rule + tail, |head|) == Some(|head| + |rule|)
  {
    var s := head + rule + tail;
    var q, e := |head|, |head| + |rule|;
    assert s[q - 1] == head[q - 1];
    forall k | q <= k < e ensures s[k] == '-' {
      assert s[k] == rule[k - q];
    }
    if e < |s| {
      assert s[e] == tail[0];
    }
    RunEndAt(s, q, '-', e);
  }

  /** After a rule's dashes, the split goes on as that of the rest of the
      text, which begins with the line break that ended the rule. */
  lemma SplitAfterRule(c: string, b: string)
    requires c != [] && c[|c| - 1] == '-' && b != [] && IsLineTerminator(b[0])
    ensures SplitFrom(c + b, |c|, |c|) == SplitFrom(b, 0, 0)
  {
    var s := c + b;
    assert s[|c| - 1] == '-';
    SplitPastDash(s, |c|, |c|);
    SplitShift(c, b, 0, 1);
    SplitEmptyFirstLine(b);
  }

  /** No rule starts right after a dash. */
  lemma SplitPastDash(s: string, p: nat, q: nat)
    requires 0 < q < |s| && p <= q && s[q - 1] == '-'
    ensures SplitFrom(s, p, q) == SplitFrom(s, p, q + 1)
  {
    assert RuleAt(s, q).None?;
  }

  /** A text that opens with a line break: the empty match at its start is
      skipped. */
  lemma SplitEmptyFirstLine(b: string)
    requires b != [] && IsLineTerminator(b[0])
    ensures SplitFrom(b, 0, 0) == SplitFrom(b, 0, 1)
  {
    assert RunEnd(b, 0, '-') == 0;
    assert RuleAt(b, 0) == Some(0);
  }

  // ----- what the split yields, for every text -----

  /** A cut the split made: the rule line it matched starts at `at` and its
      dashes end at `end`. */
  datatype Cut = Cut(at: nat, end: nat)

  /** While the current piece began at `p`, the split may cut at `q`: a rule
      line starts there and does not end where the piece began. */
  predicate CutAllowed(s: string, p: nat, q: nat)
    requires q < |s|
  {
    RuleAt(s, q).Some? && RuleAt(s, q).value != p
  }

  /** No cut is allowed at any position from `lo` up to `hi`. */
  predicate NoCutBetween(s: string, p: nat, lo: nat, hi: nat)
    requires hi <= |s|
  {
    forall j | lo <= j < hi :: !CutAllowed(s, p, j)
  }

  /** The text from `p` on, cut at `cuts` in order, gives `pieces`: each
      piece runs from where the previous rule's dashes ended up to the first
      position where a cut is allowed, and the last one runs to the end of
      the text. */
  predicate SplitsAs(s: string, p: nat, cuts: seq<Cut>, pieces: seq<string>)
    requires p <= |s|
    decreases |cuts|
  {
    && |pieces| == |cuts| + 1
    && if cuts == [] then pieces[0] == s[p..] && NoCutBetween(s, p, p, |s|)
       else
         var c := cuts[0];
         && p <= c.at < |s| && RuleAt(s, c.at) == Some(c.end) && c.end != p
         && pieces[0] == s[p..c.at] && NoCutBetween(s, p, p, c.at)
         && SplitsAs(s, c.end, cuts[1..], pieces[1..])
  }

  /** Where no cut is allowed, the split only moves `q` on. */
  lemma {:induction false} SkipNoCut(s: string, p: nat, q: nat, q2: nat)
    requires p <= q <= q2 <= |s| && NoCutBetween(s, p, q, q2)
    ensures SplitFrom(s, p, q) == SplitFrom(s, p, q2)
    decreases q2 - q
  {
    if q < q2 {
      assert !CutAllowed(s, p, q);
      SkipNoCut(s, p, q + 1, q2);
    }
  }

  /** The split loop, having found no cut since the piece began at `p`,
      yields pieces that some sequence of cuts describes. */
  lemma {:induction false} SplitFromAs(s: string, p: nat, q: nat)
    requires p <= q <= |s| && NoCutBetween(s, p, p, q)
    ensures exists cuts :: SplitsAs(s, p, cuts, SplitFrom(s, p, q))
    decreases |s| - q, q - p
  {
    if q == |s| {
      assert SplitsAs(s, p, [], SplitFrom(s, p, q));
    } else if CutAllowed(s, p, q) {
      var e := RuleAt(s, q).value;
      CutAtRule(s, p, q, e);
      SplitFromAs(s, e, e);
      var rest :| SplitsAs(s, e, rest, SplitFrom(s, e, e));
      var cuts := [Cut(q, e)] + rest;
      var pieces := SplitFrom(s, p, q);
      assert cuts[1..] == rest && pieces[1..] == SplitFrom(s, e, e);
      assert SplitsAs(s, p, cuts, pieces);
    } else {
      SplitMoveOn(s, p, q);
      SplitFromAs(s, p, q + 1);
    }
  }

  /** Any pieces that cuts describe are the ones the split yields. */
  lemma {:induction false} SplitsAsUnique(s: string, p: nat, cuts: seq<Cut>, pieces: seq<string>)
    requires p <= |s| && SplitsAs(s, p, cuts, pieces)
    ensures pieces == SplitFrom(s, p, p)
    decreases |cuts|
  {
    if cuts == [] {
      SkipNoCut(s, p, p, |s|);
    } else {
      var c := cuts[0];
      SkipNoCut(s, p, p, c.at);
      CutAtRule(s, p, c.at, c.end);
      SplitsAsUnique(s, c.end, cuts[1..], pieces[1..]);
    }
  }

  /** `s.split(/^-*$/gm)` for every non-empty `s`: its pieces are exactly
      those obtained by cutting at the leftmost allowed rule line, again and
      again from where each cut rule's dashes end. */
  lemma SplitCharacterised(s: string, pieces: seq<string>)
    requires s != []
    ensures pieces == SplitAtRules(s) <==> exists cuts :: SplitsAs(s, 0, cuts, pieces)
  {
    SplitFromAs(s, 0, 0);
    if cs :| SplitsAs(s, 0, cs, pieces) {
      SplitsAsUnique(s, 0, cs, pieces);
    }
  }

  /** A line of nothing but dashes, possibly none: the text a cut removes. */
  predicate Dashes(r: string) {
    forall k | 0 <= k < |r| :: r[k] == '-'
  }

  /** The pieces with the removed rule texts between them. */
  function Weave(pieces: seq<string>, rules: seq<string>): (w: string)
    requires |pieces| == |rules| + 1
    ensures |w| >= |pieces[0]|
    decreases |rules|
  {
    if rules == [] then pieces[0]
    else pieces[0] + rules[0] + Weave(pieces[1..], rules[1..])
  }

  /** The texts that `cuts` remove. */
  function RuleTexts(s: string, cuts: seq<Cut>): (rules: seq<string>)
    requires forall i | 0 <= i < |cuts| :: cuts[i].at <= cuts[i].end <= |s|
    ensures |rules| == |cuts|
    ensures forall i | 0 <= i < |cuts| :: rules[i] == s[cuts[i].at..cuts[i].end]
  {
    seq(|cuts|, i requires 0 <= i < |cuts| => s[cuts[i].at..cuts[i].end])
  }

  /** Every cut of a split removes a rule line's dashes. */
  lemma {:induction false} CutsInText(s: string, p: nat, cuts: seq<Cut>, pieces: seq<string>)
    requires p <= |s| && SplitsAs(s, p, cuts, pieces)
    ensures forall i | 0 <= i < |cuts| :: cuts[i].at <= cuts[i].end <= |s|
    ensures forall i | 0 <= i < |cuts| :: Dashes(s[cuts[i].at..cuts[i].end])
    decreases |cuts|
  {
    if cuts != [] {
      var c := cuts[0];
      RunEndFacts(s, c.at, '-');
      assert Dashes(s[c.at..c.end]);
      CutsInText(s, c.end, cuts[1..], pieces[1..]);
      forall i | 1 <= i < |cuts|
        ensures cuts[i].at <= cuts[i].end <= |s| && Dashes(s[cuts[i].at..cuts[i].end])
      {
        assert cuts[i] == cuts[1..][i - 1];
      }
    }
  }

  /** The pieces of a split, with the rule texts it cut put back between
      them, give back the text it started from. */
  lemma {:induction false} WeaveCuts(s: string, p: nat, cuts: seq<Cut>, pieces: seq<string>)
    requires p <= |s| && SplitsAs(s, p, cuts, pieces)
    ensures forall i | 0 <= i < |cuts| :: cuts[i].at <= cuts[i].end <= |s|
    ensures Weave(pieces, RuleTexts(s, cuts)) == s[p..]
    decreases |cuts|
  {
    CutsInText(s, p, cuts, pieces);
    if cuts != [] {
      var c := cuts[0];
      WeaveCuts(s, c.end, cuts[1..], pieces[1..]);
      assert RuleTexts(s, cuts)[1..] == RuleTexts(s, cuts[1..]);
      assert s[p..] == s[p..c.at] + s[c.at..c.end] + s[c.end..];
    }
  }

  /** Nothing is lost by the split: for every non-empty text there are
      rule texts, each made only of dashes, that put back between the
      pieces rebuild the text. */
  lemma SplitRebuilds(s: string)
    requires s != []
    ensures var pieces := SplitAtRules(s);
            exists rules :: |rules| + 1 == |pieces|
                            && (forall i | 0 <= i < |rules| :: Dashes(rules[i]))
                            && Weave(pieces, rules) == s
  {
    var pieces := SplitAtRules(s);
    SplitCharacterised(s, pieces);
    var cuts :| SplitsAs(s, 0, cuts, pieces);
    WeaveCuts(s, 0, cuts, pieces);
    CutsInText(s, 0, cuts, pieces);
    var rules := RuleTexts(s, cuts);
    assert s[0..] == s;
    assert |rules| + 1 == |pieces| && (forall i | 0 <= i < |rules| :: Dashes(rules[i])) && Weave(pieces, rules) == s;
  }
}
