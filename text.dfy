/**
 * The string primitives the runbook parser relies on, written out so that
 * their behaviour is explicit: ECMAScript `trim`, `indexOf` for one
 * character, `startsWith`, ASCII lowering, the `^[ \t]` indentation tests,
 * `split`/`join` on one separator and the `\r\n` to `\n` normalisation.
 */
module Text {

  datatype Option<+T> = None | Some(value: T)

  /** The characters ECMAScript's `String.prototype.trim` removes:
      WhiteSpace (TAB, VT, FF, ZWNBSP and category Zs) and LineTerminator. */
  predicate IsWhitespace(c: char)
  {
    || c == '\t' || c == '\n' || c == '\U{000B}' || c == '\U{000C}' || c == '\r'
    || c == ' ' || c == '\U{00A0}' || c == '\U{1680}'
    || ('\U{2000}' <= c <= '\U{200A}')
    || c == '\U{2028}' || c == '\U{2029}' || c == '\U{202F}' || c == '\U{205F}'
    || c == '\U{3000}' || c == '\U{FEFF}'
  }

  predicate AllWhitespace(s: string)
  {
    forall k :: 0 <= k < |s| ==> IsWhitespace(s[k])
  }

  /** `s` with its leading whitespace removed: a suffix of `s` that starts
      with a non-whitespace character (or is empty). */
  function TrimStart(s: string): (r: string)
    ensures |r| <= |s| && r == s[|s| - |r|..]
    ensures AllWhitespace(s[..|s| - |r|])
    ensures r == [] || !IsWhitespace(r[0])
  {
    s[WhitespaceLength(s)..]
  }

  /** The length of the leading run of whitespace of `s`. */
  function WhitespaceLength(s: string): (n: nat)
    ensures n <= |s| && AllWhitespace(s[..n])
    ensures n == |s| || !IsWhitespace(s[n])
  {
    if |s| > 0 && IsWhitespace(s[0]) then
      var n := 1 + WhitespaceLength(s[1..]);
      assert s[..n] == [s[0]] + s[1..][..n - 1];
      n
    else 0
  }

  /** `s` with its trailing whitespace removed: a prefix of `s` that ends
      with a non-whitespace character (or is empty). */
  function TrimEnd(s: string): (r: string)
    ensures |r| <= |s| && r == s[..|r|]
    ensures AllWhitespace(s[|r|..])
    ensures r == [] || !IsWhitespace(r[|r| - 1])
  {
    if |s| > 0 && IsWhitespace(s[|s| - 1]) then
      var r := TrimEnd(s[..|s| - 1]);
      assert s[|r|..] == s[..|s| - 1][|r|..] + [s[|s| - 1]];
      r
    else s
  }

  /** ECMAScript `s.trim()`: `s` without its leading and trailing
      whitespace. */
  function Trim(s: string): (r: string)
    ensures r == "" <==> AllWhitespace(s)
    ensures r != "" ==> !IsWhitespace(r[0]) && !IsWhitespace(r[|r| - 1])
  {
    TrimBlank(s);
    TrimEnd(TrimStart(s))
  }

  lemma TrimBlank(s: string)
    ensures TrimEnd(TrimStart(s)) == "" <==> AllWhitespace(s)
  {
    var front := TrimStart(s);
    var cut := |s| - |front|;
    if front != "" {
      assert !IsWhitespace(s[cut]);
    } else {
      assert s[..cut] == s;
    }
  }

  /** A text that starts with a character other than whitespace keeps
      that character in front when trimmed. */
  lemma TrimKeepsFirst(s: string)
    requires |s| > 0 && !IsWhitespace(s[0])
    ensures Trim(s) != "" && Trim(s)[0] == s[0]
  {
    assert TrimStart(s) == s;
  }

  /** Trimming removes whitespace only: a character that is not whitespace
      occurs in `s` exactly when it occurs in `Trim(s)`. */
  lemma TrimKeepsChar(s: string, c: char)
    requires !IsWhitespace(c)
    ensures c in s <==> c in Trim(s)
  {
    var front := TrimStart(s);
    SplitKeepsChar(s, |s| - |front|, c);
    SplitKeepsChar(front, |TrimEnd(front)|, c);
  }

  /** A character that is not whitespace occurs in `s` exactly when it
      occurs in `s[..cut]` or `s[cut..]`, and not in the all-whitespace one. */
  lemma SplitKeepsChar(s: string, cut: nat, c: char)
    requires cut <= |s| && !IsWhitespace(c)
    ensures AllWhitespace(s[..cut]) ==> (c in s <==> c in s[cut..])
    ensures AllWhitespace(s[cut..]) ==> (c in s <==> c in s[..cut])
  {
    assert s == s[..cut] + s[cut..];
  }

  /** Trimming is idempotent. */
  lemma TrimTrim(s: string)
    ensures Trim(Trim(s)) == Trim(s)
  {
    var t := Trim(s);
    if t != "" {
      assert TrimStart(t) == t;
      assert TrimEnd(t) == t;
    }
  }

  /** Lowering leaves every whitespace character alone and turns no letter
      into whitespace. */
  lemma LowerKeepsWhitespace(c: char)
    ensures IsWhitespace(LowerAscii(c)) <==> IsWhitespace(c)
  {
  }

  /** Trimming the front commutes with ASCII lowering. */
  lemma TrimStartLower(s: string)
    ensures TrimStart(ToLowerAscii(s)) == ToLowerAscii(TrimStart(s))
  {
    WhitespaceLengthLower(s);
    var n := WhitespaceLength(s);
    assert ToLowerAscii(s)[n..] == ToLowerAscii(s[n..]);
  }

  lemma {:induction false} WhitespaceLengthLower(s: string)
    ensures WhitespaceLength(ToLowerAscii(s)) == WhitespaceLength(s)
    decreases |s|
  {
    var t := ToLowerAscii(s);
    if |s| > 0 {
      LowerKeepsWhitespace(s[0]);
      if IsWhitespace(s[0]) {
        assert t[1..] == ToLowerAscii(s[1..]);
        WhitespaceLengthLower(s[1..]);
      }
    }
  }

  /** Trimming the end commutes with ASCII lowering. */
  lemma {:induction false} TrimEndLower(s: string)
    ensures TrimEnd(ToLowerAscii(s)) == ToLowerAscii(TrimEnd(s))
    decreases |s|
  {
    var t := ToLowerAscii(s);
    if |s| > 0 {
      LowerKeepsWhitespace(s[|s| - 1]);
      if IsWhitespace(s[|s| - 1]) {
        assert t[..|t| - 1] == ToLowerAscii(s[..|s| - 1]);
        TrimEndLower(s[..|s| - 1]);
      }
    }
  }

  /** Trimming and ASCII lowering can be applied in either order. */
  lemma TrimLower(s: string)
    ensures Trim(ToLowerAscii(s)) == ToLowerAscii(Trim(s))
  {
    TrimStartLower(s);
    TrimEndLower(TrimStart(s));
  }

  /** ECMAScript `s.startsWith(prefix)`. */
  predicate StartsWith(s: string, prefix: string)
  {
    |prefix| <= |s| && s[..|prefix|] == prefix
  }

  /** ECMAScript `s.indexOf(c)` for a one-character needle, with `None`
      standing for `-1`: the position of the first occurrence of `c`. */
  function IndexOf(s: string, c: char): (r: Option<nat>)
    ensures r.None? <==> c !in s
    ensures r.Some? ==> r.value < |s| && s[r.value] == c && c !in s[..r.value]
  {
    if |s| == 0 then None
    else if s[0] == c then Some(0)
    else
      match IndexOf(s[1..], c)
      case None => None
      case Some(i) =>
        assert s[1..][..i] == s[1..i + 1];
        assert s[..i + 1] == [s[0]] + s[1..i + 1];
        Some(i + 1)
  }

  function LowerAscii(c: char): (d: char)
  {
    if 'A' <= c <= 'Z' then (c as int + 32) as char else c
  }

  /** `toLowerCase` restricted to ASCII letters: every other character is
      kept. */
  function ToLowerAscii(s: string): (r: string)
    ensures |r| == |s|
    ensures forall k :: 0 <= k < |s| ==> r[k] == LowerAscii(s[k])
    ensures forall c :: c in r ==> !('A' <= c <= 'Z')
  {
    seq(|s|, k requires 0 <= k < |s| => LowerAscii(s[k]))
  }

  /** The test `/^[ \t]/`. */
  predicate HasIndent(s: string)
  {
    |s| > 0 && (s[0] == ' ' || s[0] == '\t')
  }

  /** The replacement `s.replace(/^[ \t]+/, "")`: the suffix of `s` that
      starts after its leading spaces and tabs. */
  function StripIndent(s: string): (r: string)
    ensures |r| <= |s| && r == s[|s| - |r|..]
    ensures AllIndent(s[..|s| - |r|])
    ensures !HasIndent(r)
  {
    s[IndentLength(s)..]
  }

  /** The length of the leading run of spaces and tabs of `s`. */
  function IndentLength(s: string): (n: nat)
    ensures n <= |s| && AllIndent(s[..n])
    ensures n == |s| || (s[n] != ' ' && s[n] != '\t')
  {
    if HasIndent(s) then
      var n := 1 + IndentLength(s[1..]);
      assert s[..n] == [s[0]] + s[1..][..n - 1];
      n
    else 0
  }

  /** `s` consists of spaces and tabs only. */
  predicate AllIndent(s: string)
  {
    forall k :: 0 <= k < |s| ==> s[k] == ' ' || s[k] == '\t'
  }

  /** Number of occurrences of `c` in `s`. */
  function Count(s: string, c: char): nat
  {
    if |s| == 0 then 0 else (if s[0] == c then 1 else 0) + Count(s[1..], c)
  }

  lemma {:induction false} CountAppend(a: string, b: string, c: char)
    ensures Count(a + b, c) == Count(a, c) + Count(b, c)
  {
    if |a| == 0 {
      assert a + b == b;
    } else {
      assert (a + b)[1..] == a[1..] + b;
      CountAppend(a[1..], b, c);
    }
  }

  /** ECMAScript `s.split(sep)` for a one-character separator: the pieces
      between consecutive separators, at least one of them. */
  function Split(s: string, sep: char): (parts: seq<string>)
    ensures |parts| >= 1
    ensures forall p :: p in parts ==> sep !in p
    decreases |s|
  {
    match IndexOf(s, sep)
    case None => [s]
    case Some(i) => [s[..i]] + Split(s[i + 1..], sep)
  }

  /** ECMAScript `parts.join(sep)` for a one-character separator: pieces
      free of the separator come out with exactly one between neighbours. */
  function Join(parts: seq<string>, sep: char): (r: string)
    ensures |parts| >= 1 && (forall p :: p in parts ==> sep !in p) ==> Count(r, sep) == |parts| - 1
  {
    if |parts| == 0 then ""
    else if |parts| == 1 then
      assert parts[0] in parts;
      if sep !in parts[0] then CountAbsent(parts[0], sep); parts[0] else parts[0]
    else
      var tail := Join(parts[1..], sep);
      assert parts[0] in parts;
      assert forall p :: p in parts[1..] ==> p in parts;
      if sep !in parts[0] then
        CountSeparated(parts[0], tail, sep);
        parts[0] + [sep] + tail
      else parts[0] + [sep] + tail
  }

  /** Joining the pieces of a split gives back the original text. */
  lemma {:induction false} JoinSplit(s: string, sep: char)
    ensures Join(Split(s, sep), sep) == s
    decreases |s|
  {
    match IndexOf(s, sep)
    case None =>
    case Some(i) =>
      var rest := Split(s[i + 1..], sep);
      JoinSplit(s[i + 1..], sep);
      assert Split(s, sep) == [s[..i]] + rest;
      assert (Split(s, sep))[1..] == rest;
      assert s == s[..i] + [sep] + s[i + 1..];
  }

  /** Splitting a join of separator-free pieces gives back the pieces. */
  lemma {:induction false} SplitJoin(parts: seq<string>, sep: char)
    requires |parts| >= 1
    requires forall p :: p in parts ==> sep !in p
    ensures Split(Join(parts, sep), sep) == parts
  {
    if |parts| == 1 {
      assert IndexOf(parts[0], sep).None?;
    } else {
      assert parts[0] in parts;
      assert Join(parts, sep) == parts[0] + [sep] + Join(parts[1..], sep);
      SplitAt(parts[0], Join(parts[1..], sep), sep);
      forall p | p in parts[1..] ensures sep !in p {
        assert p in parts;
      }
      SplitJoin(parts[1..], sep);
      assert parts == [parts[0]] + parts[1..];
    }
  }

  /** A split has one piece more than the text has separators. */
  lemma {:induction false} SplitCount(s: string, sep: char)
    ensures |Split(s, sep)| == Count(s, sep) + 1
    decreases |s|
  {
    match IndexOf(s, sep)
    case None =>
      CountAbsent(s, sep);
    case Some(i) =>
      SplitCount(s[i + 1..], sep);
      assert s == s[..i] + [sep] + s[i + 1..];
      CountSeparated(s[..i], s[i + 1..], sep);
  }

  lemma {:induction false} CountAbsent(s: string, c: char)
    requires c !in s
    ensures Count(s, c) == 0
  {
    if |s| > 0 {
      CountAbsent(s[1..], c);
    }
  }

  /** A piece free of the separator, the separator, then the rest. */
  lemma CountSeparated(head: string, rest: string, sep: char)
    requires sep !in head
    ensures Count(head + [sep] + rest, sep) == 1 + Count(rest, sep)
  {
    CountAppend(head + [sep], rest, sep);
    CountAppend(head, [sep], sep);
    CountAbsent(head, sep);
    assert Count([sep], sep) == 1 by { assert [sep][1..] == []; }
  }

  /** `s.replace(/\r\n/g, "\n")`: every CRLF pair, scanned left to right,
      becomes a single LF. */
  function NormalizeNewlines(s: string): (r: string)
    ensures |r| <= |s|
    decreases |s|
  {
    if |s| >= 2 && s[0] == '\r' && s[1] == '\n' then "\n" + NormalizeNewlines(s[2..])
    else if |s| == 0 then ""
    else [s[0]] + NormalizeNewlines(s[1..])
  }

  /** Normalisation keeps every line break, so the lines of the normalised
      text are numbered as the lines of the original. */
  lemma {:induction false} NormalizeKeepsLineBreaks(s: string)
    ensures Count(NormalizeNewlines(s), '\n') == Count(s, '\n')
    decreases |s|
  {
    if |s| >= 2 && s[0] == '\r' && s[1] == '\n' {
      NormalizeKeepsLineBreaks(s[2..]);
      assert ("\n" + NormalizeNewlines(s[2..]))[1..] == NormalizeNewlines(s[2..]);
      assert s[1..][1..] == s[2..];
    } else if |s| > 0 {
      NormalizeKeepsLineBreaks(s[1..]);
      assert ([s[0]] + NormalizeNewlines(s[1..]))[1..] == NormalizeNewlines(s[1..]);
    }
  }

  /** Text without carriage returns is left as it is. */
  lemma {:induction false} NormalizeWithoutCarriageReturn(s: string)
    requires '\r' !in s
    ensures NormalizeNewlines(s) == s
    decreases |s|
  {
    if |s| > 0 {
      assert s[0] in s;
      assert forall c :: c in s[1..] ==> c in s;
      NormalizeWithoutCarriageReturn(s[1..]);
      assert s == [s[0]] + s[1..];
    }
  }

  /** A line of the source as it stands before its line feed: one
      carriage return right before the line feed belongs to the CRLF pair
      and goes; any other carriage return stays. */
  function WithoutTrailingCarriageReturn(line: string): (r: string)
    ensures '\n' !in line ==> '\n' !in r
  {
    if |line| > 0 && line[|line| - 1] == '\r' then line[..|line| - 1] else line
  }

  /** Text without line feeds has no CRLF pair to rewrite. */
  lemma {:induction false} NormalizeWithoutLineFeed(s: string)
    requires '\n' !in s
    ensures NormalizeNewlines(s) == s
    decreases |s|
  {
    if |s| > 0 {
      assert s[0] in s;
      assert forall c :: c in s[1..] ==> c in s;
      NormalizeWithoutLineFeed(s[1..]);
      assert s == [s[0]] + s[1..];
    }
  }

  /** Rewriting a line and its line feed, at index `i`: the line loses
      the carriage return right before the line feed, if any, and the rest
      of the text is rewritten on its own. */
  lemma {:induction false} NormalizeLine(s: string, i: nat)
    requires i < |s| && s[i] == '\n' && '\n' !in s[..i]
    ensures NormalizeNewlines(s) == WithoutTrailingCarriageReturn(s[..i]) + "\n" + NormalizeNewlines(s[i + 1..])
    decreases i
  {
    if i == 0 {
      assert NormalizeNewlines(s) == [s[0]] + NormalizeNewlines(s[1..]);
      assert s[..i] == [];
    } else if i == 1 && s[0] == '\r' {
      assert s[..i] == "\r";
    } else {
      assert !(s[0] == '\r' && s[1] == '\n') by {
        if i >= 2 {
          assert s[1] in s[..i];
        }
      }
      SliceShift(s, i);
      assert forall c :: c in s[1..i] ==> c in s[..i];
      NormalizeLine(s[1..], i - 1);
      NormalizeLineCons(s, i);
    }
  }

  /** The step of `NormalizeLine` for a line that does not start a CRLF
      pair: its first character is kept. */
  lemma NormalizeLineCons(s: string, i: nat)
    requires 1 <= i < |s| && s[..i] != "\r" && !(s[0] == '\r' && s[1] == '\n')
    requires NormalizeNewlines(s[1..]) == WithoutTrailingCarriageReturn(s[1..i]) + "\n" + NormalizeNewlines(s[i + 1..])
    ensures NormalizeNewlines(s) == WithoutTrailingCarriageReturn(s[..i]) + "\n" + NormalizeNewlines(s[i + 1..])
  {
    assert s[..i][1..] == s[1..i];
    WithoutTrailingCarriageReturnCons(s[..i]);
    Regroup(s[0], NormalizeNewlines(s), NormalizeNewlines(s[1..]), WithoutTrailingCarriageReturn(s[1..i]),
      NormalizeNewlines(s[i + 1..]), WithoutTrailingCarriageReturn(s[..i]));
  }

  lemma Regroup(c: char, whole: string, tail: string, line: string, rest: string, longer: string)
    requires whole == [c] + tail && tail == line + "\n" + rest && longer == [c] + line
    ensures whole == longer + "\n" + rest
  {
    assert [c] + (line + "\n" + rest) == ([c] + line) + "\n" + rest;
  }

  lemma SliceShift(s: string, i: nat)
    requires 1 <= i < |s|
    ensures s[1..][..i - 1] == s[1..i] == s[..i][1..] && s[1..][i..] == s[i + 1..]
  {
  }

  lemma WithoutTrailingCarriageReturnCons(line: string)
    requires |line| >= 1 && line != "\r"
    ensures WithoutTrailingCarriageReturn(line) == [line[0]] + WithoutTrailingCarriageReturn(line[1..])
  {
    if |line| >= 2 {
      assert line[1..][|line| - 2] == line[|line| - 1];
      if line[|line| - 1] == '\r' {
        assert line[..|line| - 1] == [line[0]] + line[1..][..|line| - 2];
      } else {
        assert line == [line[0]] + line[1..];
      }
    }
  }

  /** The lines of a text after the CRLF rewrite, given the pieces between
      its line feeds: each piece but the last loses the carriage return
      right before its line feed. */
  function RewrittenLines(parts: seq<string>): (r: seq<string>)
    ensures |r| == |parts|
  {
    if |parts| <= 1 then parts else [WithoutTrailingCarriageReturn(parts[0])] + RewrittenLines(parts[1..])
  }

  /** Piece by piece: every line but the last loses a carriage return right
      before its line feed, and the last is kept as it is. */
  lemma {:induction false} RewrittenLinesAt(parts: seq<string>, k: nat)
    requires k < |parts|
    ensures RewrittenLines(parts)[k] == if k < |parts| - 1 then WithoutTrailingCarriageReturn(parts[k]) else parts[k]
  {
    if |parts| > 1 && k > 0 {
      RewrittenLinesAt(parts[1..], k - 1);
    }
  }

  /** Splitting the rewritten text at line feeds gives the lines of the
      original with their CRLF pairs rewritten. */
  lemma {:induction false} SplitNormalized(s: string)
    ensures Split(NormalizeNewlines(s), '\n') == RewrittenLines(Split(s, '\n'))
    decreases |s|
  {
    match IndexOf(s, '\n')
    case None =>
      NormalizeWithoutLineFeed(s);
    case Some(i) =>
      var line, rest := s[..i], s[i + 1..];
      NormalizeLine(s, i);
      SplitAt(WithoutTrailingCarriageReturn(line), NormalizeNewlines(rest), '\n');
      SplitNormalized(rest);
      assert |Split(rest, '\n')| >= 1;
  }

  /** Splitting a piece free of the separator, the separator and the
      rest. */
  lemma SplitAt(head: string, rest: string, sep: char)
    requires sep !in head
    ensures Split(head + [sep] + rest, sep) == [head] + Split(rest, sep)
  {
    var s := head + [sep] + rest;
    assert s[|head|] == sep && s[..|head|] == head && s[|head| + 1..] == rest;
    assert IndexOf(s, sep) == Some(|head|);
  }
}
