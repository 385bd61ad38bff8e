/**
 * How `parseDSL` reads one line: blank, comment, a line without `:`, or a
 * `keyword: value` directive with the keyword trimmed and lowered and the
 * value trimmed.
 */
module LineClassifier {
  import opened Text

  datatype LineKind =
    | Blank
    | Comment
    | NoDelimiter
    | Directive(keyword: string, value: string)

  /** The keywords of the `knownKeywords` set; they are also exactly the
      keywords the directive switch accepts. */
  const KnownKeywords: set<string> := {"title", "description", "step", "note", "command"}

  predicate IsCommentText(line: string)
  {
    StartsWith(line, "//") || StartsWith(line, "#")
  }

  /** The keyword of a directive: the text before the first `:`, trimmed
      and lowered. */
  function KeywordOf(head: string): (kw: string)
    requires ':' !in head
    ensures |kw| == |Trim(head)|
    ensures forall k :: 0 <= k < |kw| ==> kw[k] == LowerAscii(Trim(head)[k])
    ensures kw == "" <==> AllWhitespace(head)
    ensures forall c :: c in kw ==> c != ':' && !('A' <= c <= 'Z')
  {
    TrimKeepsChar(head, ':');
    var t := Trim(head);
    var kw := ToLowerAscii(t);
    assert forall k :: 0 <= k < |t| ==> t[k] != ':';
    kw
  }

  /** The classification of the raw line `raw`: blank exactly when it is
      all whitespace, a comment exactly when its trimmed text starts with
      `//` or `#`. */
  function Classify(raw: string): (k: LineKind)
    ensures k == Blank <==> AllWhitespace(raw)
    ensures k == Comment <==> !AllWhitespace(raw) && IsCommentText(Trim(raw))
  {
    var line := Trim(raw);
    if line == "" then Blank
    else if IsCommentText(line) then Comment
    else
      match IndexOf(line, ':')
      case None => NoDelimiter
      case Some(d) => Directive(KeywordOf(line[..d]), Trim(line[d + 1..]))
  }

  /** Any other line is a directive exactly when it contains a `:`. */
  lemma DirectiveIffColon(raw: string)
    requires !AllWhitespace(raw) && !IsCommentText(Trim(raw))
    ensures Classify(raw).Directive? <==> ':' in raw
    ensures !Classify(raw).Directive? ==> Classify(raw) == NoDelimiter
  {
    TrimKeepsChar(raw, ':');
  }

  /** A line whose trimmed text is `head:tail`, with no `:` in `head` and
      no comment prefix, is the directive keyed by `head` trimmed and
      lowered, with `tail` trimmed as its value. */
  lemma DirectiveSplit(raw: string, head: string, tail: string)
    requires Trim(raw) == head + ":" + tail && ':' !in head
    requires !IsCommentText(Trim(raw))
    ensures Classify(raw) == Directive(KeywordOf(head), Trim(tail))
  {
    var line := Trim(raw);
    assert line[|head|] == ':';
    assert line[..|head|] == head;
    assert line[|head| + 1..] == tail;
    assert IndexOf(line, ':') == Some(|head|);
  }

  /** Every directive arises that way: its line splits at a `:` into a head
      without `:`, giving the keyword, and a tail, giving the value. */
  lemma DirectiveParts(raw: string)
    requires Classify(raw).Directive?
    ensures exists head, tail ::
      && Trim(raw) == head + ":" + tail && ':' !in head
      && Classify(raw) == Directive(KeywordOf(head), Trim(tail))
  {
    var line := Trim(raw);
    var d := IndexOf(line, ':').value;
    var head, tail := line[..d], line[d + 1..];
    SplitAtColon(line, d);
    DirectiveSplit(raw, head, tail);
  }

  lemma SplitAtColon(line: string, d: nat)
    requires d < |line| && line[d] == ':'
    ensures line == line[..d] + ":" + line[d + 1..]
  {
  }

  /** The keyword ignores the ASCII case of the head. */
  lemma KeywordIgnoresCase(head1: string, head2: string)
    requires ':' !in head1 && ':' !in head2
    requires ToLowerAscii(head1) == ToLowerAscii(head2)
    ensures KeywordOf(head1) == KeywordOf(head2)
  {
    TrimLower(head1);
    TrimLower(head2);
  }

  /** Two directive lines that differ only in the ASCII case of the text
      before the `:` classify alike. */
  lemma DirectiveIgnoresCase(raw1: string, raw2: string, head1: string, head2: string, tail: string)
    requires Trim(raw1) == head1 + ":" + tail && Trim(raw2) == head2 + ":" + tail
    requires ':' !in head1 && ':' !in head2
    requires ToLowerAscii(head1) == ToLowerAscii(head2)
    requires !IsCommentText(Trim(raw1))
    ensures Classify(raw1) == Classify(raw2)
  {
    CommentIgnoresCase(head1, head2, tail);
    DirectiveSplit(raw1, head1, tail);
    DirectiveSplit(raw2, head2, tail);
    KeywordIgnoresCase(head1, head2);
  }

  /** The comment prefixes contain no letter, so the case of the head does
      not decide whether a line is a comment. */
  lemma CommentIgnoresCase(head1: string, head2: string, tail: string)
    requires ToLowerAscii(head1) == ToLowerAscii(head2)
    ensures IsCommentText(head1 + ":" + tail) <==> IsCommentText(head2 + ":" + tail)
  {
    var a, b := head1 + ":" + tail, head2 + ":" + tail;
    assert |a| == |b|;
    forall k | 0 <= k < 2 && k < |a|
      ensures a[k] == '/' <==> b[k] == '/'
      ensures a[k] == '#' <==> b[k] == '#'
    {
      if k < |head1| {
        assert LowerAscii(head1[k]) == ToLowerAscii(head1)[k] == ToLowerAscii(head2)[k] == LowerAscii(head2[k]);
      }
    }
  }

  /** A comment starts with `/` or `#`. */
  lemma CommentStart(line: string)
    requires IsCommentText(line)
    ensures |line| > 0 && (line[0] == '/' || line[0] == '#')
  {
    if StartsWith(line, "//") {
      assert line[..2][0] == '/';
    } else {
      assert line[..1][0] == '#';
    }
  }

  /** A head that starts with `/` or `#`, the first character of a
      comment, never gives a known keyword. */
  lemma CommentHeadNotKnown(head: string)
    requires ':' !in head && (head == "" || head[0] == '/' || head[0] == '#')
    ensures KeywordOf(head) !in KnownKeywords
  {
    if head != "" {
      TrimKeepsFirst(head);
      var kw := KeywordOf(head);
      assert kw[0] == LowerAscii(head[0]) == head[0];
      forall w | w in KnownKeywords ensures kw != w {
        assert 'a' <= w[0] <= 'z';
      }
    }
  }
}
