module QuotedReply {
  /**
   `separateQuotedReply` and `cleanAngleBracketQuoting` of `pkg/parse/email.go`.  The regular
   expressions are predicates on trimmed lines.
   */

  import opened EmailReplies
  import opened GoStrings

  datatype Patterns = Patterns(forwarded: string -> bool, onWrote: string -> bool, originalMessage: string -> bool,
                               outlookFrom: string -> bool, outlookSent: string -> bool)

  // ---------- where a reply begins ----------

  predicate IsQuoted(line: string) {
    line != "" && line[0] == '>'
  }

  /** A From line with a Sent or Date line among the five lines behind it, outside a forwarded message. */
  predicate IsOutlookBlock(ts: seq<string>, p: Patterns, i: nat)
    requires i < |ts|
  {
    && (forall k :: 0 <= k < i ==> !p.forwarded(ts[k]))
    && p.outlookFrom(ts[i])
    && exists j :: i < j < |ts| && j < i + 6 && p.outlookSent(ts[j])
  }

  /** Only quoted and empty lines from `a` up to `b`. */
  predicate OnlyQuotes(ts: seq<string>, a: nat, b: nat) {
    forall k :: a <= k < b && k < |ts| ==> IsQuoted(ts[k]) || ts[k] == ""
  }

  predicate SentAt(ts: seq<string>, p: Patterns, j: nat) {
    j < |ts| && p.outlookSent(ts[j])
  }

  /** So the five lines behind a From line are looked at, one by one, and no sixth. */
  lemma FiveLinesAhead(ts: seq<string>, p: Patterns, i: nat)
    requires i < |ts| && p.outlookFrom(ts[i]) && forall k :: 0 <= k < i ==> !p.forwarded(ts[k])
    ensures IsOutlookBlock(ts, p, i) <==>
      || SentAt(ts, p, i + 1) || SentAt(ts, p, i + 2) || SentAt(ts, p, i + 3)
      || SentAt(ts, p, i + 4) || SentAt(ts, p, i + 5)
  {
  }

  /** Without a From line, and behind a forward marker, there is no such block. */
  lemma NoBlockWhen(ts: seq<string>, p: Patterns, i: nat, k: nat)
    requires i < |ts| && (!p.outlookFrom(ts[i]) || (k < i && p.forwarded(ts[k])))
    ensures !IsOutlookBlock(ts, p, i)
  {
  }

  /** Three quoted lines among five, with nothing between them but empty lines. */
  predicate IsQuotedRun(ts: seq<string>, i: nat)
    requires i < |ts|
  {
    && IsQuoted(ts[i]) && i + 2 < |ts|
    && exists a, b :: i < a < b < |ts| && b < i + 5 && IsQuoted(ts[a]) && IsQuoted(ts[b]) && OnlyQuotes(ts, i, b)
  }

  predicate QuoteAt(ts: seq<string>, j: nat) {
    j < |ts| && ts[j] != "" && ts[j][0] == '>'
  }

  predicate EmptyAt(ts: seq<string>, j: nat) {
    j < |ts| && ts[j] == ""
  }

  /** The six ways in which the four lines behind a quoted one make a run of three with it. */
  lemma SixRuns(ts: seq<string>, i: nat)
    requires i < |ts|
    ensures IsQuotedRun(ts, i) <==>
      && QuoteAt(ts, i) && i + 2 < |ts|
      && (|| (QuoteAt(ts, i + 1) && QuoteAt(ts, i + 2))
          || (QuoteAt(ts, i + 1) && EmptyAt(ts, i + 2) && QuoteAt(ts, i + 3))
          || (QuoteAt(ts, i + 1) && EmptyAt(ts, i + 2) && EmptyAt(ts, i + 3) && QuoteAt(ts, i + 4))
          || (EmptyAt(ts, i + 1) && QuoteAt(ts, i + 2) && QuoteAt(ts, i + 3))
          || (EmptyAt(ts, i + 1) && QuoteAt(ts, i + 2) && EmptyAt(ts, i + 3) && QuoteAt(ts, i + 4))
          || (EmptyAt(ts, i + 1) && EmptyAt(ts, i + 2) && QuoteAt(ts, i + 3) && QuoteAt(ts, i + 4)))
  {
    if QuoteAt(ts, i) && i + 2 < |ts| {
      RunIsCounted(ts, i);
      CountAhead(ts, i);
    }
  }

  /** The count, line by line. */
  lemma CountAhead(ts: seq<string>, i: nat)
    requires i + 2 < |ts|
    ensures var e := Near(|ts|, i);
      QuotedFrom(ts, i + 1, e) >= 2 <==>
          || (QuoteAt(ts, i + 1) && QuoteAt(ts, i + 2))
          || (QuoteAt(ts, i + 1) && EmptyAt(ts, i + 2) && QuoteAt(ts, i + 3))
          || (QuoteAt(ts, i + 1) && EmptyAt(ts, i + 2) && EmptyAt(ts, i + 3) && QuoteAt(ts, i + 4))
          || (EmptyAt(ts, i + 1) && QuoteAt(ts, i + 2) && QuoteAt(ts, i + 3))
          || (EmptyAt(ts, i + 1) && QuoteAt(ts, i + 2) && EmptyAt(ts, i + 3) && QuoteAt(ts, i + 4))
          || (EmptyAt(ts, i + 1) && EmptyAt(ts, i + 2) && QuoteAt(ts, i + 3) && QuoteAt(ts, i + 4))
  {
    var e := Near(|ts|, i);
    QuotedStep(ts, i + 1, e);
    QuotedStep(ts, i + 2, e);
    QuotedStep(ts, i + 3, e);
    QuotedStep(ts, i + 4, e);
    QuotedStep(ts, i + 5, e);
    hide QuotedFrom;
  }

  lemma QuotedStep(ts: seq<string>, j: nat, e: nat)
    requires e <= |ts|
    ensures QuotedFrom(ts, j, e) ==
      if j >= e then 0
      else if QuoteAt(ts, j) then 1 + QuotedFrom(ts, j + 1, e)
      else if EmptyAt(ts, j) then QuotedFrom(ts, j + 1, e)
      else 0
  {
  }

  /** What a line is and what stands before it decide: a forward marker is no split, and four rules make one. */
  lemma SplitRules(ts: seq<string>, p: Patterns, i: nat)
    requires i < |ts|
    ensures p.forwarded(ts[i]) ==> !IsSplit(ts, p, i)
    ensures !p.forwarded(ts[i]) && (p.onWrote(ts[i]) || p.originalMessage(ts[i])) ==> IsSplit(ts, p, i)
    ensures !p.forwarded(ts[i]) && !p.onWrote(ts[i]) && !p.originalMessage(ts[i]) ==>
      (IsSplit(ts, p, i) <==> IsOutlookBlock(ts, p, i) || IsQuotedRun(ts, i))
  {
  }

  /** An attribution line, an original-message line, or an Outlook block. */
  predicate IsHeaded(ts: seq<string>, p: Patterns, i: nat)
    requires i < |ts|
  {
    p.onWrote(ts[i]) || p.originalMessage(ts[i]) || IsOutlookBlock(ts, p, i)
  }

  /** The quoted reply may begin here. */
  predicate IsSplit(ts: seq<string>, p: Patterns, i: nat)
    requires i < |ts|
  {
    !p.forwarded(ts[i]) && (IsHeaded(ts, p, i) || IsQuotedRun(ts, i))
  }

  ghost predicate NoSplit(ts: seq<string>, p: Patterns) {
    forall i :: 0 <= i < |ts| ==> !IsSplit(ts, p, i)
  }

  /** The first place where a reply may begin. */
  ghost predicate IsFirstSplit(ts: seq<string>, p: Patterns, i: nat) {
    i < |ts| && IsSplit(ts, p, i) && forall k :: 0 <= k < i ==> !IsSplit(ts, p, k)
  }

  // ---------- the count of quoted lines ----------

  /** The quoted lines from `j` on, up to `e` or a line that is neither quoted nor empty. */
  function QuotedFrom(ts: seq<string>, j: nat, e: nat): nat
    requires e <= |ts|
    decreases e - j
  {
    if j >= e then 0
    else if IsQuoted(ts[j]) then 1 + QuotedFrom(ts, j + 1, e)
    else if ts[j] == "" then QuotedFrom(ts, j + 1, e)
    else 0
  }

  ghost predicate HasOne(ts: seq<string>, j: nat, e: nat) {
    exists b :: j <= b < e && b < |ts| && IsQuoted(ts[b]) && OnlyQuotes(ts, j, b)
  }

  ghost predicate HasTwo(ts: seq<string>, j: nat, e: nat) {
    exists a, b :: j <= a < b < e && b < |ts| && IsQuoted(ts[a]) && IsQuoted(ts[b]) && OnlyQuotes(ts, j, b)
  }

  lemma {:induction false} OneQuoted(ts: seq<string>, j: nat, e: nat)
    requires e <= |ts|
    ensures QuotedFrom(ts, j, e) >= 1 <==> HasOne(ts, j, e)
    decreases e - j
  {
    if j < e {
      OneQuoted(ts, j + 1, e);
      if IsQuoted(ts[j]) {
        assert OnlyQuotes(ts, j, j);
        assert HasOne(ts, j, e);
      } else {
        if ts[j] == "" && HasOne(ts, j + 1, e) {
          var b :| j + 1 <= b < e && IsQuoted(ts[b]) && OnlyQuotes(ts, j + 1, b);
          assert OnlyQuotes(ts, j, b);
        }
        if HasOne(ts, j, e) {
          var b :| j <= b < e && IsQuoted(ts[b]) && OnlyQuotes(ts, j, b);
          assert OnlyQuotes(ts, j + 1, b);
        }
      }
    }
  }

  lemma OnlyQuotesStep(ts: seq<string>, j: nat, b: nat)
    requires j < b && j < |ts|
    ensures OnlyQuotes(ts, j, b) <==> (IsQuoted(ts[j]) || ts[j] == "") && OnlyQuotes(ts, j + 1, b)
  {
  }

  lemma {:induction false} TwoAreFound(ts: seq<string>, j: nat, e: nat)
    requires e <= |ts| && QuotedFrom(ts, j, e) >= 2
    ensures HasTwo(ts, j, e)
    decreases e - j
  {
    hide OnlyQuotes, IsQuoted;
    if IsQuoted(ts[j]) {
      OneQuoted(ts, j + 1, e);
      var b :| j + 1 <= b < e && IsQuoted(ts[b]) && OnlyQuotes(ts, j + 1, b);
      OnlyQuotesStep(ts, j, b);
    } else {
      TwoAreFound(ts, j + 1, e);
      var a, b :| j + 1 <= a < b < e && IsQuoted(ts[a]) && IsQuoted(ts[b]) && OnlyQuotes(ts, j + 1, b);
      OnlyQuotesStep(ts, j, b);
    }
  }

  lemma {:induction false} TwoAreCounted(ts: seq<string>, j: nat, e: nat)
    requires e <= |ts| && HasTwo(ts, j, e)
    ensures QuotedFrom(ts, j, e) >= 2
    decreases e - j
  {
    hide OnlyQuotes, IsQuoted;
    var a, b :| j <= a < b < e && IsQuoted(ts[a]) && IsQuoted(ts[b]) && OnlyQuotes(ts, j, b);
    OnlyQuotesStep(ts, j, b);
    if a == j {
      OneQuoted(ts, j + 1, e);
    } else {
      TwoAreCounted(ts, j + 1, e);
    }
  }

  function Near(n: nat, i: nat): (e: nat)
    ensures e <= n
  {
    if i + 5 < n then i + 5 else n
  }

  /** The count of the inner loop decides whether there is a run of quoted lines. */
  lemma RunIsCounted(ts: seq<string>, i: nat)
    requires i + 2 < |ts| && IsQuoted(ts[i])
    ensures IsQuotedRun(ts, i) <==> 1 + QuotedFrom(ts, i + 1, Near(|ts|, i)) >= 3
  {
    hide OnlyQuotes, IsQuoted, QuotedFrom;
    if 1 + QuotedFrom(ts, i + 1, Near(|ts|, i)) >= 3 {
      TwoAreFound(ts, i + 1, Near(|ts|, i));
      var a, b :| i + 1 <= a < b < Near(|ts|, i) && IsQuoted(ts[a]) && IsQuoted(ts[b]) && OnlyQuotes(ts, i + 1, b);
      OnlyQuotesStep(ts, i, b);
    }
    if IsQuotedRun(ts, i) {
      var a, b :| i < a < b < |ts| && b < i + 5 && IsQuoted(ts[a]) && IsQuoted(ts[b]) && OnlyQuotes(ts, i, b);
      OnlyQuotesStep(ts, i, b);
      assert HasTwo(ts, i + 1, Near(|ts|, i));
      TwoAreCounted(ts, i + 1, Near(|ts|, i));
    }
  }

  // ---------- cleaning quoted lines ----------

  predicate IsQuoteOrSpace(c: char) {
    c == '>' || IsSpace(c)
  }

  /** A line without the quote marks and blanks in front and the blanks behind. */
  ghost predicate IsCleaned(line: string, r: string) {
    exists lo, hi :: CleanedAt(line, r, lo, hi)
  }

  /** `r` is the line without quote marks and blanks in front of `lo` and blanks from `hi` on. */
  ghost predicate CutAt(line: string, r: string, lo: nat, hi: nat) {
    && lo <= hi <= |line| && r == line[lo..hi]
    && (forall k :: 0 <= k < lo ==> IsQuoteOrSpace(line[k]))
    && (forall k :: hi <= k < |line| ==> IsSpace(line[k]))
    && (r != "" ==> !IsSpace(r[0]) && !IsSpace(r[|r| - 1]))
  }

  ghost predicate CleanedAt(line: string, r: string, lo: nat, hi: nat) {
    CutAt(line, r, lo, hi) && !IsQuoted(r)
  }

  lemma FirstCut(line: string) returns (lo: nat, hi: nat)
    ensures CutAt(line, TrimSpace(line), lo, hi)
  {
    lo, hi := TrimSpaceCuts(line);
    hide SkipSpace, TrimEnd, IsSpace;
    assert forall k :: 0 <= k < lo ==> line[..lo][k] == line[k];
    assert forall k :: hi <= k < |line| ==> line[hi..][k - hi] == line[k];
  }

  lemma CutsInside(line: string, tail: string, lo: nat, hi: nat, a: nat, b: nat)
    requires lo < hi <= |line| && line[lo] == '>' && tail == line[lo + 1..hi] && a <= b <= |tail|
    requires AllSpace(tail[..a]) && AllSpace(tail[b..])
    requires forall k :: 0 <= k < lo ==> IsQuoteOrSpace(line[k])
    requires forall k :: hi <= k < |line| ==> IsSpace(line[k])
    ensures tail[a..b] == line[lo + 1 + a..lo + 1 + b]
    ensures forall k :: 0 <= k < lo + 1 + a ==> IsQuoteOrSpace(line[k])
    ensures forall k :: lo + 1 + b <= k < |line| ==> IsSpace(line[k])
  {
    hide IsSpace;
    assert forall k :: 0 <= k < |tail| ==> tail[k] == line[lo + 1 + k];
    forall k | lo < k < lo + 1 + a ensures IsSpace(line[k]) {
      assert tail[..a][k - lo - 1] == line[k];
    }
    forall k | lo + 1 + b <= k < hi ensures IsSpace(line[k]) {
      assert tail[b..][k - lo - 1 - b] == line[k];
    }
  }

  /** One more quote mark and the blanks behind it. */
  lemma NextCut(line: string, r: string, lo: nat, hi: nat) returns (lo2: nat, hi2: nat)
    requires CutAt(line, r, lo, hi) && IsQuoted(r)
    ensures CutAt(line, TrimSpace(r[1..]), lo2, hi2)
  {
    var tail := r[1..];
    var a, b := TrimSpaceCuts(tail);
    lo2, hi2 := lo + 1 + a, lo + 1 + b;
    assert r[0] == line[lo];
    CutsInside(line, tail, lo, hi, a, b);
  }

  lemma TrimSpaceShortens(s: string)
    ensures |TrimSpace(s)| <= |s|
  {
    var a, b := TrimSpaceCuts(s);
  }

  /** The loop of `cleanAngleBracketQuoting` on one line. */
  method CleanLine(line: string) returns (trimmed: string)
    ensures IsCleaned(line, trimmed)
  {
    hide TrimSpace, CutAt;
    ghost var lo, hi := FirstCut(line);
    trimmed := TrimSpace(line);
    while IsQuoted(trimmed)
      invariant lo >= 0 && hi >= 0 && CutAt(line, trimmed, lo, hi)
      decreases |trimmed|
    {
      lo, hi := NextCut(line, trimmed, lo, hi);
      TrimSpaceShortens(trimmed[1..]);
      trimmed := trimmed[1..];
      trimmed := TrimSpace(trimmed);
    }
    assert CleanedAt(line, trimmed, lo, hi);
  }

  /** There is only one such line. */
  lemma {:induction false} CleanedIsUnique(line: string, r: string, s: string)
    requires IsCleaned(line, r) && IsCleaned(line, s)
    ensures r == s
  {
    var lo: nat, hi: nat :| CleanedAt(line, r, lo, hi);
    var a: nat, b: nat :| CleanedAt(line, s, a, b);
    if r != "" {
      assert r[0] == line[lo] && r[|r| - 1] == line[hi - 1];
    }
    if s != "" {
      assert s[0] == line[a] && s[|s| - 1] == line[b - 1];
    }
  }

  function DropQuotes(s: string): string {
    if s != "" && s[0] == '>' then DropQuotes(s[1..]) else s
  }

  lemma {:induction false} DropAllQuotes(a: string, b: string)
    requires (forall k :: 0 <= k < |a| ==> a[k] == '>') && !IsQuoted(b)
    ensures DropQuotes(a + b) == b
    decreases |a|
  {
    if a == "" {
      assert a + b == b;
    } else {
      assert (a + b)[1..] == a[1..] + b;
      DropAllQuotes(a[1..], b);
    }
  }

  lemma {:induction false} NonSpaceOfQuotes(s: string)
    requires forall k :: 0 <= k < |s| ==> IsQuoteOrSpace(s[k])
    ensures forall k :: 0 <= k < |NonSpace(s)| ==> NonSpace(s)[k] == '>'
  {
    if s != "" {
      NonSpaceOfQuotes(s[..|s| - 1]);
    }
  }

  lemma {:induction false} NonSpaceFirst(r: string)
    requires r != "" && !IsSpace(r[0])
    ensures NonSpace(r) != "" && NonSpace(r)[0] == r[0]
  {
    if |r| > 1 {
      NonSpaceFirst(r[..|r| - 1]);
    } else {
      assert NonSpace(r[..0]) == "";
    }
  }

  /** A cleaned line has all characters but the quote marks it began with. */
  lemma CleanedKeepsCharacters(line: string, r: string)
    requires IsCleaned(line, r)
    ensures NonSpace(r) == DropQuotes(NonSpace(line))
  {
    var lo: nat, hi: nat :| CleanedAt(line, r, lo, hi);
    var a, b := line[..lo], line[hi..];
    assert line == a + r + b;
    NonSpaceOfQuotes(a);
    NonSpaceOfSpace(b);
    if r != "" {
      NonSpaceFirst(r);
    }
    hide CleanedAt, NonSpace;
    NonSpaceAppend(a + r, b);
    NonSpaceAppend(a, r);
    assert NonSpace(a) + NonSpace(r) + "" == NonSpace(a) + NonSpace(r);
    assert r == "" ==> NonSpace(r) == "" by { NonSpaceOfSpace(""); }
    DropAllQuotes(NonSpace(a), NonSpace(r));
  }

  /** Line by line `r` is the text cleaned. */
  ghost predicate IsCleanedText(text: string, r: string) {
    && |Lines(r)| == |Lines(text)|
    && forall i :: 0 <= i < |Lines(text)| ==> IsCleaned(Lines(text)[i], Lines(r)[i])
  }

  lemma CleanedHasNoBreak(line: string, r: string)
    requires IsCleaned(line, r) && '\n' !in line
    ensures '\n' !in r
  {
    var lo: nat, hi: nat :| CleanedAt(line, r, lo, hi);
    assert forall k :: 0 <= k < |r| ==> r[k] == line[lo + k];
  }

  method CleanAngleBracketQuoting(quotedText: string) returns (r: string)
    ensures IsCleanedText(quotedText, r)
  {
    hide *;
    var lines := Split(quotedText, "\n");
    ghost var before := lines;
    for i := 0 to |lines|
      invariant |lines| == |before|
      invariant forall k :: 0 <= k < i ==> IsCleaned(before[k], lines[k])
      invariant forall k :: i <= k < |lines| ==> lines[k] == before[k]
    {
      var trimmed := CleanLine(lines[i]);
      lines := lines[i := trimmed];
    }
    r := Join(lines, "\n");
    CleanedLinesAre(quotedText, lines);
  }

  lemma CleanedLinesAre(text: string, lines: seq<string>)
    requires |lines| == |Split(text, "\n")|
    requires forall k :: 0 <= k < |lines| ==> IsCleaned(Split(text, "\n")[k], lines[k])
    ensures IsCleanedText(text, Join(lines, "\n"))
  {
    hide IsCleaned, Join;
    forall k | 0 <= k < |lines| ensures '\n' !in lines[k] {
      SplitHasNone(text, '\n', k);
      CleanedHasNoBreak(Split(text, "\n")[k], lines[k]);
    }
    JoinSplit(lines, '\n');
  }

  /** The characters of the lines without the quote marks each begins with. */
  function Unquoted(lines: seq<string>): string {
    if lines == [] then "" else Unquoted(lines[..|lines| - 1]) + DropQuotes(NonSpace(lines[|lines| - 1]))
  }

  lemma {:induction false} UnquotedLines(lines: seq<string>, cleaned: seq<string>)
    requires |lines| == |cleaned| && forall k :: 0 <= k < |lines| ==> IsCleaned(lines[k], cleaned[k])
    ensures NonSpace(Join(cleaned, "\n")) == Unquoted(lines)
  {
    hide IsCleaned, NonSpace, DropQuotes;
    if |lines| > 0 {
      var n := |lines| - 1;
      UnquotedLines(lines[..n], cleaned[..n]);
      CleanedKeepsCharacters(lines[n], cleaned[n]);
      if n == 0 {
        assert lines[..0] == [] && "" + NonSpace(cleaned[0]) == NonSpace(cleaned[0]);
      } else {
        var front := Join(cleaned[..n], "\n");
        NonSpaceAppend(front + "\n", cleaned[n]);
        NonSpaceAppend(front, "\n");
        NonSpaceOfSpace("\n");
        assert NonSpace(front) + "" == NonSpace(front);
      }
    } else {
      NonSpaceOfSpace("");
    }
  }

  /** Cleaning loses nothing but white space and the quote marks at the beginning of each line. */
  lemma CleaningKeepsCharacters(text: string, r: string)
    requires IsCleanedText(text, r)
    ensures NonSpace(r) == Unquoted(Lines(text))
  {
    UnquotedLines(Lines(text), Lines(r));
    SplitJoin(r, "\n");
  }

  /** Cleaned lines are clean: a second time changes nothing. */
  lemma CleaningIsFinal(text: string, r: string, again: string)
    requires IsCleanedText(text, r) && IsCleanedText(r, again)
    ensures again == r
  {
    forall i | 0 <= i < |Lines(r)| ensures Lines(again)[i] == Lines(r)[i] {
      var lo: nat, hi: nat :| CleanedAt(Lines(text)[i], Lines(r)[i], lo, hi);
      assert CleanedAt(Lines(r)[i], Lines(r)[i], 0, |Lines(r)[i]|);
      CleanedIsUnique(Lines(r)[i], Lines(r)[i], Lines(again)[i]);
    }
    assert Lines(again) == Lines(r);
    SplitJoin(r, "\n");
    SplitJoin(again, "\n");
  }

  // ---------- separating ----------

  /** The two parts when the reply begins at line `i`. */
  ghost predicate IsSeparated(text: string, p: Patterns, i: nat, newContent: string, quotedContent: string)
    requires i < |Lines(text)|
  {
    var quoted := TrimSpace(Join(Lines(text)[i..], "\n"));
    && newContent == TrimSpace(Join(Lines(text)[..i], "\n"))
    && if IsHeaded(TrimmedLines(text), p, i) then quotedContent == quoted else IsCleanedText(quoted, quotedContent)
  }

  /** The look-ahead for a Sent or Date line. */
  method SentFollows(lines: seq<string>, ghost ts: seq<string>, p: Patterns, i: nat) returns (found: bool)
    requires i < |lines| == |ts| && forall k :: 0 <= k < |ts| ==> ts[k] == TrimSpace(lines[k])
    ensures found <==> exists j :: i < j < |ts| && j < i + 6 && p.outlookSent(ts[j])
  {
    var j := i + 1;
    while j < |lines| && j < i + 6
      invariant i < j && forall k :: i < k < j && k < |ts| ==> !p.outlookSent(ts[k])
    {
      if p.outlookSent(TrimSpace(lines[j])) {
        return true;
      }
      j := j + 1;
    }
    return false;
  }

  /** The look-ahead that counts quoted lines. */
  method CountQuoted(lines: seq<string>, ghost ts: seq<string>, i: nat) returns (consecutiveQuoted: nat)
    requires i < |lines| == |ts| && forall k :: 0 <= k < |ts| ==> ts[k] == TrimSpace(lines[k])
    ensures consecutiveQuoted == 1 + QuotedFrom(ts, i + 1, Near(|ts|, i))
  {
    hide TrimSpace;
    consecutiveQuoted := 1;
    var j := i + 1;
    while j < |lines| && j < i + 5
      invariant i < j
      invariant consecutiveQuoted + QuotedFrom(ts, j, Near(|ts|, i)) == 1 + QuotedFrom(ts, i + 1, Near(|ts|, i))
    {
      if IsQuoted(TrimSpace(lines[j])) {
        consecutiveQuoted := consecutiveQuoted + 1;
      } else if TrimSpace(lines[j]) != "" {
        break;
      }
      j := j + 1;
    }
  }

  lemma RunNeeds(ts: seq<string>, i: nat)
    requires i < |ts|
    ensures IsQuotedRun(ts, i) ==> IsQuoted(ts[i]) && i + 2 < |ts|
  {
  }

  datatype Method = OnWrote | OriginalMessage | OutlookBlock | AngleBracket

  method SeparateQuotedReply(text: string, p: Patterns)
      returns (newContent: string, quotedContent: string, detected: bool, ghost at: nat)
    ensures !detected ==> NoSplit(TrimmedLines(text), p) && newContent == text && quotedContent == ""
    ensures detected ==> IsFirstSplit(TrimmedLines(text), p, at) && IsSeparated(text, p, at, newContent, quotedContent)
  {
    var lines := Lines(text);
    ghost var ts := TrimmedLines(text);
    var afterForwardMarker := false;
    hide Lines, TrimmedLines, TrimSpace, IsCleanedText, IsQuotedRun;
    for i := 0 to |lines|
      invariant afterForwardMarker <==> exists k :: 0 <= k < i && p.forwarded(ts[k])
      invariant forall k :: 0 <= k < i ==> !IsSplit(ts, p, k)
    {
      var trimmed := TrimSpace(lines[i]);
      if p.forwarded(trimmed) {
        afterForwardMarker := true;
        continue;
      }
      var detectionMethod: seq<Method> := [];
      RunNeeds(ts, i);
      if p.onWrote(trimmed) {
        detectionMethod := [OnWrote];
      } else if p.originalMessage(trimmed) {
        detectionMethod := [OriginalMessage];
      } else {
        if !afterForwardMarker && p.outlookFrom(trimmed) {
          var sent := SentFollows(lines, ts, p, i);
          if sent {
            detectionMethod := [OutlookBlock];
          }
        }
        if detectionMethod == [] && IsQuoted(trimmed) && i + 2 < |lines| {
          var consecutiveQuoted := CountQuoted(lines, ts, i);
          RunIsCounted(ts, i);
          if consecutiveQuoted >= 3 {
            detectionMethod := [AngleBracket];
          }
        }
      }
      assert detectionMethod == [AngleBracket] <==> !IsHeaded(ts, p, i) && IsQuotedRun(ts, i);
      assert detectionMethod == [] <==> !IsSplit(ts, p, i);
      if detectionMethod != [] {
        newContent := TrimSpace(Join(lines[..i], "\n"));
        quotedContent := TrimSpace(Join(lines[i..], "\n"));
        if detectionMethod == [AngleBracket] {
          quotedContent := CleanAngleBracketQuoting(quotedContent);
        }
        return newContent, quotedContent, true, i;
      }
    }
    return text, "", false, 0;
  }

  /** Apart from white space nothing is lost, and of quoted lines only the marks they begin with. */
  lemma SeparationKeepsCharacters(text: string, p: Patterns, i: nat, newContent: string, quotedContent: string)
    requires i < |Lines(text)| && IsSeparated(text, p, i, newContent, quotedContent)
    ensures var quoted := TrimSpace(Join(Lines(text)[i..], "\n"));
      && NonSpace(newContent) + NonSpace(quoted) == NonSpace(text)
      && NonSpace(quotedContent) ==
         if IsHeaded(TrimmedLines(text), p, i) then NonSpace(quoted) else Unquoted(Lines(quoted))
  {
    var ls := Lines(text);
    NonSpaceTrimSpace(Join(ls[..i], "\n"));
    NonSpaceTrimSpace(Join(ls[i..], "\n"));
    SplitJoin(text, "\n");
    PartsKeepCharacters(ls, i);
    if !IsHeaded(TrimmedLines(text), p, i) {
      CleaningKeepsCharacters(TrimSpace(Join(ls[i..], "\n")), quotedContent);
    }
  }

  lemma {:induction false} PartsKeepCharacters(ls: seq<string>, i: nat)
    requires i < |ls|
    ensures NonSpace(Join(ls[..i], "\n")) + NonSpace(Join(ls[i..], "\n")) == NonSpace(Join(ls, "\n"))
  {
    hide NonSpace, Join;
    var a, b := Join(ls[..i], "\n"), Join(ls[i..], "\n");
    if i > 0 {
      assert ls == ls[..i] + ls[i..];
      JoinAppend(ls[..i], ls[i..], "\n");
      NonSpaceAppend(a + "\n", b);
      NonSpaceAppend(a, "\n");
      NonSpaceOfSpace("\n");
      assert NonSpace(a) + "" == NonSpace(a);
    } else {
      assert ls[0..] == ls && ls[..0] == [];
      assert NonSpace(Join([], "\n")) == "" by { NoCharacters(); }
      assert "" + NonSpace(b) == NonSpace(b);
    }
  }

  lemma NoCharacters()
    ensures NonSpace(Join([], "\n")) == ""
  {
  }

  // ---------- nothing quoted is left ----------

  /** No marker matches an empty line. */
  ghost predicate EmptyIsNoMark(p: Patterns) {
    !p.forwarded("") && !p.onWrote("") && !p.originalMessage("")
  }

  lemma {:induction false} SplitOfPrefix(ts: seq<string>, p: Patterns, i: nat, n: nat)
    requires i < n <= |ts| && IsSplit(ts[..n], p, i)
    ensures IsSplit(ts, p, i)
  {
    var us := ts[..n];
    if IsOutlookBlock(us, p, i) {
      var j :| i < j < |us| && j < i + 6 && p.outlookSent(us[j]);
      assert p.outlookSent(ts[j]);
      forall k | 0 <= k < i ensures !p.forwarded(ts[k]) {
        assert us[k] == ts[k];
      }
    }
    if IsQuotedRun(us, i) {
      var a, b :| i < a < b < |us| && b < i + 5 && IsQuoted(us[a]) && IsQuoted(us[b]) && OnlyQuotes(us, i, b);
      forall k | i <= k < b && k < |ts| ensures IsQuoted(ts[k]) || ts[k] == "" {
        assert us[k] == ts[k];
      }
      assert OnlyQuotes(ts, i, b);
    }
  }

  lemma NoSplitInPrefix(ts: seq<string>, p: Patterns, n: nat)
    requires n <= |ts| && forall k :: 0 <= k < n ==> !IsSplit(ts, p, k)
    ensures NoSplit(ts[..n], p)
  {
    hide IsSplit;
    forall i | 0 <= i < n ensures !IsSplit(ts[..n], p, i) {
      if IsSplit(ts[..n], p, i) {
        SplitOfPrefix(ts, p, i, n);
      }
    }
  }

  lemma BlockBehindEmpty(ts: seq<string>, p: Patterns, i: nat)
    requires EmptyIsNoMark(p) && i < |ts| && IsOutlookBlock(ts, p, i)
    ensures IsOutlookBlock([""] + ts, p, i + 1)
  {
    var us := [""] + ts;
    var j :| i < j < |ts| && j < i + 6 && p.outlookSent(ts[j]);
    assert p.outlookSent(us[j + 1]);
    forall k | 0 <= k < i + 1 ensures !p.forwarded(us[k]) {
      assert k > 0 ==> us[k] == ts[k - 1];
    }
  }

  lemma RunBehindEmpty(ts: seq<string>, i: nat)
    requires i < |ts| && IsQuotedRun(ts, i)
    ensures IsQuotedRun([""] + ts, i + 1)
  {
    var us := [""] + ts;
    hide IsQuoted;
    var a, b :| i < a < b < |ts| && b < i + 5 && IsQuoted(ts[a]) && IsQuoted(ts[b]) && OnlyQuotes(ts, i, b);
    assert IsQuoted(us[a + 1]) && IsQuoted(us[b + 1]);
    forall k | i + 1 <= k < b + 1 && k < |us| ensures IsQuoted(us[k]) || us[k] == "" {
      assert us[k] == ts[k - 1];
    }
    assert OnlyQuotes(us, i + 1, b + 1);
  }

  lemma SplitBehindEmpty(ts: seq<string>, p: Patterns, i: nat)
    requires EmptyIsNoMark(p) && i < |ts| && IsSplit(ts, p, i)
    ensures IsSplit([""] + ts, p, i + 1)
  {
    hide IsOutlookBlock, IsQuotedRun;
    if IsOutlookBlock(ts, p, i) {
      BlockBehindEmpty(ts, p, i);
    }
    if IsQuotedRun(ts, i) {
      RunBehindEmpty(ts, i);
    }
  }

  lemma NoSplitBehindEmpty(ts: seq<string>, p: Patterns)
    requires EmptyIsNoMark(p) && NoSplit([""] + ts, p)
    ensures NoSplit(ts, p)
  {
    hide IsSplit, EmptyIsNoMark;
    forall i | 0 <= i < |ts| ensures !IsSplit(ts, p, i) {
      assert !IsSplit([""] + ts, p, i + 1);
      if IsSplit(ts, p, i) {
        SplitBehindEmpty(ts, p, i);
      }
    }
  }

  /** White space at either end of a text makes no place for a reply go away or come. */
  lemma {:induction false} NoSplitWithin(text: string, p: Patterns, lo: nat, hi: nat)
    requires EmptyIsNoMark(p) && NoSplit(TrimmedLines(text), p)
    requires lo <= hi <= |text| && AllSpace(text[..lo]) && AllSpace(text[hi..])
    ensures NoSplit(TrimmedLines(text[lo..hi]), p)
    decreases |text|
  {
    hide TrimmedLines, NoSplit, EmptyIsNoMark, IsSpace;
    if hi < |text| {
      var n := |text| - 1;
      assert text == text[..n] + [text[n]] && IsSpace(text[n]) by { assert text[hi..][n - hi] == text[n]; }
      TrimmedLinesSnoc(text[..n], text[n]);
      NoSplitInFront(TrimmedLines(text[..n]), p);
      assert text[..n][..lo] == text[..lo] && text[..n][lo..hi] == text[lo..hi];
      assert text[..n][hi..] == text[hi..][..n - hi];
      NoSplitWithin(text[..n], p, lo, hi);
    } else if lo > 0 {
      assert text == [text[0]] + text[1..] && IsSpace(text[0]) by { assert text[..lo][0] == text[0]; }
      TrimmedLinesCons(text[1..], text[0]);
      NoSplitBehind(TrimmedLines(text[1..]), p);
      assert text[1..][lo - 1..hi - 1] == text[lo..hi] && text[1..][hi - 1..] == text[hi..];
      assert text[1..][..lo - 1] == text[..lo][1..];
      NoSplitWithin(text[1..], p, lo - 1, hi - 1);
    } else {
      assert text[0..|text|] == text;
    }
  }

  lemma NoSplitInFront(ts: seq<string>, p: Patterns)
    ensures NoSplit(ts + [""], p) ==> NoSplit(ts, p)
  {
    assert (ts + [""])[..|ts|] == ts;
    if NoSplit(ts + [""], p) {
      NoSplitInPrefix(ts + [""], p, |ts|);
    }
  }

  lemma NoSplitBehind(ts: seq<string>, p: Patterns)
    requires EmptyIsNoMark(p)
    ensures NoSplit([""] + ts, p) ==> NoSplit(ts, p)
  {
    if NoSplit([""] + ts, p) {
      NoSplitBehindEmpty(ts, p);
    }
  }

  lemma LinesInFront(text: string, p: Patterns, i: nat)
    requires EmptyIsNoMark(p) && IsFirstSplit(TrimmedLines(text), p, i)
    ensures NoSplit(TrimmedLines(Join(Lines(text)[..i], "\n")), p)
  {
    var front := Join(Lines(text)[..i], "\n");
    if i > 0 {
      LinesBefore(text, i);
      NoSplitInPrefix(TrimmedLines(text), p, i);
      hide Lines, Join, NoSplit;
      assert TrimmedLines(front) == TrimmedLines(text)[..i];
    } else {
      SplitWhole("", '\n');
      TrimSpaceIs("", 0, 0);
      assert TrimmedLines(front) == [""];
    }
  }

  /** The new content holds no quoted reply any more: separating it again gives it back whole. */
  lemma NewContentIsFinal(text: string, p: Patterns, i: nat, newContent: string, quotedContent: string)
    requires EmptyIsNoMark(p) && IsFirstSplit(TrimmedLines(text), p, i)
    requires IsSeparated(text, p, i, newContent, quotedContent)
    ensures NoSplit(TrimmedLines(newContent), p)
  {
    LinesInFront(text, p, i);
    var front := Join(Lines(text)[..i], "\n");
    var lo, hi := TrimSpaceCuts(front);
    hide TrimSpace, NoSplit, Join, Lines, TrimmedLines, IsFirstSplit;
    NoSplitWithin(front, p, lo, hi);
  }
}
