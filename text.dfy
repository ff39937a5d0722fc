/**
 * The JavaScript string and array operations that the wrapper chains together
 * when it builds argument lists and reads the tool's reports:
 * `String.prototype.split` with a string separator, `Array.prototype.join`,
 * `Array.prototype.slice` with negative indices, `String.prototype.startsWith`
 * and the "drop empty lines" filter.
 */
module Text {

  datatype Option<+T> = None | Some(value: T)

  /** The tool's line separator, and the separator the parsers re-join lines with. */
  const CRLF: string := "\r\n"
  const LF: string := "\n"

  /** The characters a JavaScript regular expression treats as ending a line:
      `.` does not match them, `^` and `$` (with the `m` flag) match next to them. */
  predicate IsLineTerminator(c: char) {
    c == '\n' || c == '\r' || c == '\U{2028}' || c == '\U{2029}'
  }

  predicate NoLineTerminator(s: string) {
    forall k | 0 <= k < |s| :: !IsLineTerminator(s[k])
  }

  predicate OccursAt(s: string, pattern: string, i: nat) {
    i + |pattern| <= |s| && forall k | 0 <= k < |pattern| :: s[i + k] == pattern[k]
  }

  /** `s.includes(pattern)` */
  predicate Occurs(s: string, pattern: string) {
    exists i | 0 <= i <= |s| - |pattern| :: OccursAt(s, pattern, i)
  }

  /** `s.startsWith(prefix)` */
  predicate StartsWith(s: string, prefix: string) {
    |prefix| <= |s| && s[..|prefix|] == prefix
  }

  /** `s.split(sep)` for a non-empty string separator: cut at the leftmost
      occurrences, which do not overlap; `"".split(sep)` is `[""]`. */
  function Split(s: string, sep: string): (parts: seq<string>)
    requires sep != []
    ensures |parts| >= 1
    decreases |s|
  {
    if |s| < |sep| then [s]
    else if s[..|sep|] == sep then [[]] + Split(s[|sep|..], sep)
    else
      var rest := Split(s[1..], sep);
      [[s[0]] + rest[0]] + rest[1..]
  }

  /** `parts.join(sep)` */
  function Join(parts: seq<string>, sep: string): string
    decreases |parts|
  {
    if |parts| == 0 then []
    else if |parts| == 1 then parts[0]
    else parts[0] + sep + Join(parts[1..], sep)
  }

  /** The index `Array.prototype.slice` derives from a possibly negative argument. */
  function RelativeIndex(k: int, length: nat): (r: nat)
    ensures r <= length
  {
    if k < 0 then (if length + k < 0 then 0 else length + k)
    else if k > length then length
    else k
  }

  /** `xs.slice(start, end)` */
  function Slice<T>(xs: seq<T>, start: int, end: int): (r: seq<T>)
    ensures |r| <= |xs|
  {
    var from := RelativeIndex(start, |xs|);
    var to := RelativeIndex(end, |xs|);
    if from < to then xs[from..to] else []
  }

  /** `lines.filter((line) => line !== "")` */
  function DropEmpty(lines: seq<string>): (r: seq<string>)
    ensures forall k | 0 <= k < |r| :: r[k] != []
    ensures forall k | 0 <= k < |lines| :: lines[k] != [] ==> lines[k] in r
    ensures forall line | line in r :: line in lines
  {
    if lines == [] then []
    else if lines[0] == [] then DropEmpty(lines[1..])
    else [lines[0]] + DropEmpty(lines[1..])
  }

  /** Splitting and re-joining with the same separator gives the string back. */
  lemma {:induction false} JoinSplit(s: string, sep: string)
    requires sep != []
    ensures Join(Split(s, sep), sep) == s
    decreases |s|
  {
    if |s| < |sep| {
    } else if s[..|sep|] == sep {
      var tail := s[|sep|..];
      JoinSplit(tail, sep);
      JoinConsEmpty(Split(tail, sep), sep);
      assert s == sep + tail;
    } else {
      var rest := Split(s[1..], sep);
      JoinSplit(s[1..], sep);
      JoinConsHead(s[0], rest, sep);
      assert s == [s[0]] + s[1..];
    }
  }

  /** An empty first part leaves just the separator in front. */
  lemma JoinConsEmpty(parts: seq<string>, sep: string)
    requires parts != []
    ensures Join([[]] + parts, sep) == sep + Join(parts, sep)
  {
    assert ([[]] + parts)[1..] == parts;
  }

  /** A character put in front of the first part comes out in front of the
      joined text. */
  lemma JoinConsHead(c: char, parts: seq<string>, sep: string)
    requires parts != []
    ensures Join([[c] + parts[0]] + parts[1..], sep) == [c] + Join(parts, sep)
  {
    var q := [[c] + parts[0]] + parts[1..];
    assert q[1..] == parts[1..];
  }

  /** A string without "\r\n" is a single part. */
  lemma {:induction false} SplitCrlfNone(a: string)
    requires !Occurs(a, CRLF)
    ensures Split(a, CRLF) == [a]
    decreases |a|
  {
    if |a| >= 2 {
      assert !OccursAt(a, CRLF, 0);
      assert !Occurs(a[1..], CRLF) by {
        forall i: nat | OccursAt(a[1..], CRLF, i) ensures OccursAt(a, CRLF, i + 1) {
          assert a[1..][i..i + 2] == a[i + 1..i + 3];
        }
      }
      SplitCrlfNone(a[1..]);
      assert [a[0]] + a[1..] == a;
    }
  }

  /** A part without "\r\n" followed by "\r\n" is cut off exactly there,
      even when it ends in a lone "\r". */
  lemma {:induction false} SplitCrlfFirst(a: string, rest: string)
    requires !Occurs(a, CRLF)
    ensures Split(a + CRLF + rest, CRLF) == [a] + Split(rest, CRLF)
    decreases |a|
  {
    var s := a + CRLF + rest;
    if a == [] {
      assert s[..2] == CRLF && s[2..] == rest;
    } else {
      assert s[..2] != CRLF by {
        if |a| >= 2 {
          assert !OccursAt(a, CRLF, 0);
          assert s[..2] == a[..2];
        } else {
          assert s[1] == '\r';
        }
      }
      assert !Occurs(a[1..], CRLF) by {
        forall i: nat | OccursAt(a[1..], CRLF, i) ensures OccursAt(a, CRLF, i + 1) {
          assert a[1..][i..i + 2] == a[i + 1..i + 3];
        }
      }
      assert s[1..] == a[1..] + CRLF + rest;
      SplitCrlfFirst(a[1..], rest);
      assert [a[0]] + a[1..] == a;
    }
  }

  /** Joining lines that hold no "\r\n" and splitting again gives the lines back. */
  lemma {:induction false} SplitJoinCrlf(lines: seq<string>)
    requires |lines| >= 1
    requires forall k | 0 <= k < |lines| :: !Occurs(lines[k], CRLF)
    ensures Split(Join(lines, CRLF), CRLF) == lines
    decreases |lines|
  {
    if |lines| == 1 {
      SplitCrlfNone(lines[0]);
    } else {
      SplitJoinCrlf(lines[1..]);
      SplitCrlfFirst(lines[0], Join(lines[1..], CRLF));
      assert lines == [lines[0]] + lines[1..];
    }
  }

  lemma NoLineTerminatorNoCrlf(s: string)
    requires NoLineTerminator(s)
    ensures !Occurs(s, CRLF)
  {
    forall i | 0 <= i <= |s| - 2 ensures !OccursAt(s, CRLF, i) {
      assert !IsLineTerminator(s[i]) && CRLF[0] == '\r';
    }
  }

  lemma JoinAppend(xs: seq<string>, ys: seq<string>, sep: string)
    requires xs != [] && ys != []
    ensures Join(xs + ys, sep) == Join(xs, sep) + sep + Join(ys, sep)
    decreases |xs|
  {
    if |xs| == 1 {
      assert (xs + ys)[1..] == ys;
    } else {
      assert (xs + ys)[1..] == xs[1..] + ys;
      JoinAppend(xs[1..], ys, sep);
    }
  }

  lemma NoLineTerminatorAppend(a: string, b: string)
    requires NoLineTerminator(a) && NoLineTerminator(b)
    ensures NoLineTerminator(a + b)
  {
    forall k | 0 <= k < |a + b| ensures !IsLineTerminator((a + b)[k]) {
      if k < |a| {
        assert (a + b)[k] == a[k];
      } else {
        assert (a + b)[k] == b[k - |a|];
      }
    }
  }

  /** A piece of one line that `.+` can capture. */
  predicate LineValue(v: string) {
    v != [] && NoLineTerminator(v)
  }

  /** Lines none of which holds a line terminator. */
  predicate SingleLines(lines: seq<string>) {
    forall k | 0 <= k < |lines| :: NoLineTerminator(lines[k])
  }

  /** Lines none of which holds "\r\n". */
  predicate CrlfFree(lines: seq<string>) {
    forall k | 0 <= k < |lines| :: !Occurs(lines[k], CRLF)
  }

  lemma SingleLinesAppend(xs: seq<string>, ys: seq<string>)
    requires SingleLines(xs) && SingleLines(ys)
    ensures SingleLines(xs + ys)
  {
    forall k | 0 <= k < |xs + ys| ensures NoLineTerminator((xs + ys)[k]) {
      if k < |xs| {
        assert (xs + ys)[k] == xs[k];
      } else {
        assert (xs + ys)[k] == ys[k - |xs|];
      }
    }
  }

  lemma CrlfFreeAppend(xs: seq<string>, ys: seq<string>)
    requires CrlfFree(xs) && CrlfFree(ys)
    ensures CrlfFree(xs + ys)
  {
    forall k | 0 <= k < |xs + ys| ensures !Occurs((xs + ys)[k], CRLF) {
      if k < |xs| {
        assert (xs + ys)[k] == xs[k];
      } else {
        assert (xs + ys)[k] == ys[k - |xs|];
      }
    }
  }

  lemma SingleLinesCrlfFree(lines: seq<string>)
    requires SingleLines(lines)
    ensures CrlfFree(lines)
  {
    forall k | 0 <= k < |lines| ensures !Occurs(lines[k], CRLF) {
      NoLineTerminatorNoCrlf(lines[k]);
    }
  }
}
