/**
 `normalizeWhitespace` of `pkg/parse/email.go`.  Five passes over the text, the last one repeated,
 are shown to compute what one pass with a small state does.
 */
module EmailWhitespace {
  import opened GoStrings

  // ---------- the text in one pass ----------

  /** A run of white space: blanks only, one line break, or more. */
  datatype Gap = NoGap | Blank | OneLine | TwoLines

  /** What has been read: nothing but white space, or a gap behind some character. */
  datatype State = Fresh | Inside(gap: Gap)

  function Widen(g: Gap, c: char): Gap {
    if c == '\n' then (if g == OneLine || g == TwoLines then TwoLines else OneLine)
    else if g == NoGap then Blank
    else g
  }

  function Render(g: Gap): string {
    match g
    case NoGap => ""
    case Blank => " "
    case OneLine => "\n"
    case TwoLines => "\n\n"
  }

  function Lead(s: State): string {
    match s
    case Fresh => ""
    case Inside(g) => Render(g)
  }

  function Next(s: State, c: char): State {
    if !IsSpace(c) then Inside(NoGap)
    else if s == Fresh then Fresh
    else Inside(Widen(s.gap, c))
  }

  function After(s: State, t: string): State {
    if t == "" then s else Next(After(s, t[..|t| - 1]), t[|t| - 1])
  }

  function Out(s: State, t: string): string {
    if t == "" then ""
    else
      var front, c := t[..|t| - 1], t[|t| - 1];
      if IsSpace(c) then Out(s, front) else Out(s, front) + Lead(After(s, front)) + [c]
  }

  /** Gaps become one blank, one line break or two; those at the ends go. */
  function Canonical(t: string): string {
    Out(Fresh, t)
  }

  /** Line ends: CR LF, CR and LF each end one line. */
  function UnixLines(t: string): string {
    if t == "" then ""
    else if t[0] == '\r' then "\n" + UnixLines(if |t| > 1 && t[1] == '\n' then t[2..] else t[1..])
    else [t[0]] + UnixLines(t[1..])
  }

  /** The white space at `j` is a blank between two characters. */
  predicate SingleBlank(s: string, j: nat)
    requires j < |s|
  {
    s[j] == ' ' && 0 < j && j + 1 < |s| && !IsSpace(s[j - 1]) && !IsSpace(s[j + 1])
  }

  ghost predicate Tidy(s: string) {
    forall j :: 0 <= j < |s| && IsSpace(s[j]) ==> s[j] == '\n' || SingleBlank(s, j)
  }

  ghost predicate NoTriple(s: string) {
    forall j: nat :: !OccursAt(s, "\n\n\n", j)
  }

  /** No CR or tab, no double blank, no blank at a line's end, no triple line break, nothing to trim. */
  ghost predicate Clean(s: string) {
    Tidy(s) && NoTriple(s) && (s != "" ==> !IsSpace(s[0]) && !IsSpace(s[|s| - 1]))
  }

  // ---------- facts about the pass ----------

  lemma {:induction false} AfterAppend(s: State, a: string, b: string)
    ensures After(s, a + b) == After(After(s, a), b)
    ensures Out(s, a + b) == Out(s, a) + Out(After(s, a), b)
  {
    if b == "" {
      assert a + b == a;
    } else {
      var front := b[..|b| - 1];
      AfterAppend(s, a, front);
      assert (a + b)[..|a + b| - 1] == a + front;
      if !IsSpace(b[|b| - 1]) {
        FrontMoves(Out(s, a), Out(After(s, a), front), Lead(After(s, a + front)), [b[|b| - 1]]);
      }
    }
  }

  lemma {:induction false} SpaceOut(s: State, t: string)
    requires AllSpace(t)
    ensures Out(s, t) == ""
    ensures s == Fresh ==> After(s, t) == Fresh
  {
    if t != "" {
      SpaceOut(s, t[..|t| - 1]);
    }
  }

  ghost predicate NoBreak(t: string) {
    forall j :: 0 <= j < |t| ==> t[j] != '\n'
  }

  lemma {:induction false} BlanksAfter(s: State, t: string)
    requires AllSpace(t) && NoBreak(t) && t != ""
    ensures After(s, t) == if s == Inside(NoGap) then Inside(Blank) else s
  {
    var front := t[..|t| - 1];
    if front != "" {
      BlanksAfter(s, front);
    } else {
      assert After(s, front) == s;
    }
  }

  lemma {:induction false} WordOut(s: State, w: string)
    requires NoSpace(w) && w != ""
    ensures Out(s, w) == Lead(s) + w && After(s, w) == Inside(NoGap)
  {
    var front, c := w[..|w| - 1], w[|w| - 1];
    assert w == front + [c];
    if front != "" {
      WordOut(s, front);
      assert Out(s, w) == Lead(s) + front + "" + [c];
      hide Out, Lead;
      assert Lead(s) + front + "" + [c] == Lead(s) + w;
    } else {
      assert Out(s, front) == "" && After(s, front) == s;
      assert Out(s, w) == "" + Lead(s) + [c];
      hide Out, Lead;
      assert "" + Lead(s) + [c] == Lead(s) + w;
    }
  }

  lemma {:induction false} OutKeepsCharacters(s: State, t: string)
    ensures NonSpace(Out(s, t)) == NonSpace(t)
  {
    if t != "" {
      var front, c := t[..|t| - 1], t[|t| - 1];
      OutKeepsCharacters(s, front);
      if !IsSpace(c) {
        var lead := Lead(After(s, front));
        assert Out(s, t) == Out(s, front) + lead + [c] && AllSpace(lead);
        hide Out, After, IsSpace;
        GapAndCharacter(Out(s, front), lead, c);
      }
    }
  }

  lemma GapAndCharacter(a: string, lead: string, c: char)
    requires AllSpace(lead) && !IsSpace(c)
    ensures NonSpace(a + lead + [c]) == NonSpace(a) + [c]
  {
    hide NonSpace;
    NonSpaceAppend(a + lead, [c]);
    NonSpaceAppend(a, lead);
    NonSpaceOfSpace(lead);
    NonSpaceOfWord([c]);
    assert NonSpace(a) + "" == NonSpace(a);
  }

  /** A clean text is what the pass makes of it. */
  lemma {:induction false} CleanPrefix(t: string, k: nat)
    requires Clean(t) && 0 < k <= |t|
    ensures Out(Fresh, t[..k]) + Lead(After(Fresh, t[..k])) == t[..k]
    ensures After(Fresh, t[..k]) != Fresh
  {
    var c, front := t[k - 1], t[..k - 1];
    assert t[..k][..k - 1] == front && t[..k] == front + [c];
    if k == 1 {
      assert Out(Fresh, front) == "" && After(Fresh, front) == Fresh;
      assert "" + "" + [c] + "" == [c];
    } else {
      CleanPrefix(t, k - 1);
      if IsSpace(c) {
        GapGrows(t, k, After(Fresh, front).gap, Out(Fresh, front));
      } else {
        assert Out(Fresh, t[..k]) == front + [c];
        assert front + [c] + "" == front + [c];
      }
    }
  }

  lemma BlanksStandAlone(t: string, n: nat)
    requires Tidy(t) && 0 < n < |t|
    ensures !(t[n - 1] == ' ' && IsSpace(t[n])) && !(IsSpace(t[n - 1]) && t[n] == ' ')
  {
    assert t[n] == ' ' ==> SingleBlank(t, n);
    assert t[n - 1] == ' ' ==> SingleBlank(t, n - 1);
  }

  lemma NoThreeBreaks(t: string, n: nat)
    requires NoTriple(t) && 2 <= n < |t|
    ensures !(t[n - 2] == t[n - 1] == t[n] == '\n')
  {
    assert !OccursAt(t, "\n\n\n", n - 2);
    assert t[n - 2..n + 1] == [t[n - 2], t[n - 1], t[n]];
  }

  lemma RenderEnds(before: string, g: Gap, front: string)
    requires before + Render(g) == front
    ensures g == Blank ==> front != "" && front[|front| - 1] == ' '
    ensures g == OneLine ==> front != "" && front[|front| - 1] == '\n'
    ensures g == TwoLines ==> |front| > 1 && front[|front| - 2] == front[|front| - 1] == '\n'
  {
  }

  lemma GapGrows(t: string, k: nat, g: Gap, before: string)
    requires Clean(t) && 1 < k <= |t| && IsSpace(t[k - 1]) && before + Render(g) == t[..k - 1]
    ensures before + Render(Widen(g, t[k - 1])) == t[..k]
  {
    var n, c := k - 1, t[k - 1];
    RenderEnds(before, g, t[..n]);
    BlanksStandAlone(t, n);
    if n >= 2 {
      NoThreeBreaks(t, n);
    }
    assert c == '\n' || SingleBlank(t, n);
    assert t[..k] == t[..n] + [c];
    hide Clean, NoTriple, Tidy;
    assert g == OneLine ==> before + "\n\n" == t[..n] + "\n";
    assert g == NoGap ==> before == t[..n];
  }

  lemma CleanIsCanonical(t: string)
    requires Clean(t)
    ensures Canonical(t) == t
  {
    if t != "" {
      CleanPrefix(t, |t|);
      assert t[..|t|] == t;
      assert Out(Fresh, t) + "" == Out(Fresh, t);
    }
  }

  // ---------- line ends ----------

  lemma {:induction false} LineEndsInTwoPasses(t: string)
    ensures ReplaceAll(ReplaceAll(t, "\r\n", "\n"), "\r", "\n") == UnixLines(t)
    decreases |t|
  {
    hide ReplaceAll;
    if t != "" {
      var crlf := |t| > 1 && t[..2] == "\r\n";
      assert crlf <==> OccursAt(t, "\r\n", 0);
      var rest := if crlf then t[2..] else t[1..];
      var first := if crlf then '\n' else t[0];
      ReplaceAllStep(t, "\r\n", "\n");
      var a := ReplaceAll(rest, "\r\n", "\n");
      var whole := [first] + a;
      assert ReplaceAll(t, "\r\n", "\n") == whole;
      ReplaceAllStep(whole, "\r", "\n");
      assert whole[1..] == a && whole[..1] == [first];
      assert OccursAt(whole, "\r", 0) <==> first == '\r';
      LineEndsInTwoPasses(rest);
    } else {
      NothingToReplace("\r\n");
      NothingToReplace("\r");
    }
  }

  lemma NothingToReplace(was: string)
    requires was != ""
    ensures ReplaceAll("", was, "\n") == ""
  {
    assert Index("", was) == -1;
  }

  lemma {:induction false} UnixLinesKeepCharacters(t: string)
    ensures NonSpace(UnixLines(t)) == NonSpace(t)
    decreases |t|
  {
    if t != "" {
      var k := if t[0] == '\r' && |t| > 1 && t[1] == '\n' then 2 else 1;
      UnixLinesKeepCharacters(t[k..]);
      assert t == t[..k] + t[k..];
      NonSpaceAppend(t[..k], t[k..]);
      if t[0] == '\r' {
        NonSpaceOfSpace(t[..k]);
        NonSpaceAppend("\n", UnixLines(t[k..]));
        NonSpaceOfSpace("\n");
      } else {
        NonSpaceAppend([t[0]], UnixLines(t[1..]));
      }
    }
  }

  lemma {:induction false} NoReturnsToReplace(t: string)
    requires '\r' !in t
    ensures UnixLines(t) == t
    decreases |t|
  {
    if t != "" {
      NoReturnsToReplace(t[1..]);
    }
  }

  // ---------- lines ----------

  function TidyLine(line: string): string {
    Join(Fields(line), " ")
  }

  function TidyLines(lines: seq<string>): (r: seq<string>)
    ensures |r| == |lines| && forall i :: 0 <= i < |lines| ==> r[i] == TidyLine(lines[i])
  {
    seq(|lines|, i requires 0 <= i < |lines| => TidyLine(lines[i]))
  }

  /** A blank read in this state makes no difference. */
  predicate Absorbs(s: State) {
    s == Fresh || s.gap == OneLine || s.gap == TwoLines
  }

  /** Read from `s`, both come out the same, and the same is left when the line ends. */
  ghost predicate SameLine(s: State, a: string, b: string) {
    Out(s, a) == Out(s, b) && Next(After(s, a), '\n') == Next(After(s, b), '\n')
  }

  lemma SameLineAfter(s: State, head: string, head2: string, a: string, b: string)
    requires Out(s, head) == Out(s, head2) && After(s, head) == After(s, head2) && SameLine(After(s, head), a, b)
    ensures SameLine(s, head + a, head2 + b)
  {
    AfterAppend(s, head, a);
    AfterAppend(s, head2, b);
  }

  /** The words that are left, each behind a blank. */
  function MoreWords(ws: seq<string>): string {
    if ws == [] then "" else " " + Join(ws, " ")
  }

  lemma FirstWord(w: string, ws: seq<string>)
    ensures Join([w] + ws, " ") == w + MoreWords(ws)
  {
    if ws != [] {
      JoinCons(w, ws, " ");
      assert w + " " + Join(ws, " ") == w + (" " + Join(ws, " "));
    } else {
      assert [w] + ws == [w] && w + "" == w;
    }
  }

  lemma BlankLine(s: State, gap: string)
    requires AllSpace(gap) && NoBreak(gap) && (Absorbs(s) || s == Inside(NoGap))
    ensures SameLine(s, gap, "")
  {
    SpaceOut(s, gap);
    if gap != "" {
      BlanksAfter(s, gap);
    }
  }

  lemma OneBlank(s: State)
    ensures Out(s, " ") == ""
    ensures s == Inside(NoGap) ==> After(s, " ") == Inside(Blank)
  {
    SpaceOut(s, " ");
    if s == Inside(NoGap) {
      BlanksAfter(s, " ");
    }
  }

  /** A word behind blanks, inside a line and at its start. */
  lemma WordBehindGap(s: State, gap: string, word: string, rest: string, rest2: string)
    requires AllSpace(gap) && NoBreak(gap) && NoSpace(word) && word != "" && SameLine(Inside(NoGap), rest, rest2)
    ensures s == Inside(NoGap) && gap != "" ==> SameLine(s, gap + (word + rest), " " + (word + rest2))
    ensures Absorbs(s) ==> SameLine(s, gap + (word + rest), word + rest2)
  {
    SpaceOut(s, gap);
    if gap != "" {
      BlanksAfter(s, gap);
    }
    OneBlank(s);
    var t := if Absorbs(s) then s else Inside(Blank);
    WordOut(t, word);
    hide Out, SameLine, Next, IsSpace;
    SameLineAfter(t, word, word, rest, rest2);
    if Absorbs(s) {
      assert Out(s, "") == "" && After(s, "") == s by { NothingRead(s); }
      SameLineAfter(s, gap, "", word + rest, word + rest2);
      assert "" + (word + rest2) == word + rest2;
    } else if s == Inside(NoGap) && gap != "" {
      SameLineAfter(s, gap, " ", word + rest, word + rest2);
    }
  }

  lemma NothingRead(s: State)
    ensures Out(s, "") == "" && After(s, "") == s
  {
  }

  lemma WordsBegin(line: string, i: nat, sp: seq<Span>)
    requires NoBreak(line) && AreWords(line, i, sp) && sp != []
    ensures i <= sp[0].lo < sp[0].hi <= |line|
    ensures AllSpace(line[i..sp[0].lo]) && NoBreak(line[i..sp[0].lo])
    ensures NoSpace(line[sp[0].lo..sp[0].hi])
    ensures line[i..] == line[i..sp[0].lo] + (line[sp[0].lo..sp[0].hi] + line[sp[0].hi..])
    ensures Join(Slices(line, sp), " ") == line[sp[0].lo..sp[0].hi] + MoreWords(Slices(line, sp[1..]))
    ensures AreWords(line, sp[0].hi, sp[1..]) && (sp[1..] != [] ==> sp[0].hi < sp[1..][0].lo)
  {
    if |sp| > 1 {
      WordAt(line, i, sp, 1);
    }
    var word := line[sp[0].lo..sp[0].hi];
    assert Slices(line, sp) == [word] + Slices(line, sp[1..]);
    FirstWord(word, Slices(line, sp[1..]));
  }

  /** Behind a word: the rest of the line and its words. */
  lemma {:induction false} RestOfLine(line: string, i: nat, sp: seq<Span>)
    requires NoBreak(line) && AreWords(line, i, sp) && (sp != [] ==> i < sp[0].lo)
    ensures SameLine(Inside(NoGap), line[i..], MoreWords(Slices(line, sp)))
    decreases |sp|
  {
    if sp == [] {
      BlankLine(Inside(NoGap), line[i..]);
    } else {
      WordsBegin(line, i, sp);
      RestOfLine(line, sp[0].hi, sp[1..]);
      hide SameLine, AreWords, Join;
      WordBehindGap(Inside(NoGap), line[i..sp[0].lo], line[sp[0].lo..sp[0].hi], line[sp[0].hi..],
                    MoreWords(Slices(line, sp[1..])));
    }
  }

  /** Joining the words of a line by blanks changes nothing for the pass. */
  lemma LineIsSame(s: State, line: string)
    requires NoBreak(line) && Absorbs(s)
    ensures SameLine(s, line, TidyLine(line))
  {
    var sp := Spans(line, 0);
    assert line[0..] == line;
    if sp == [] {
      BlankLine(s, line);
    } else {
      WordsBegin(line, 0, sp);
      RestOfLine(line, sp[0].hi, sp[1..]);
      hide SameLine, AreWords, Join;
      WordBehindGap(s, line[0..sp[0].lo], line[sp[0].lo..sp[0].hi], line[sp[0].hi..],
                    MoreWords(Slices(line, sp[1..])));
    }
  }

  lemma BreakAfter(s: State, line: string)
    ensures Out(s, line + "\n") == Out(s, line) && After(s, line + "\n") == Next(After(s, line), '\n')
    ensures Absorbs(After(s, line + "\n"))
  {
    assert (line + "\n")[..|line|] == line;
  }

  lemma LineThenRest(s: State, line: string, line2: string, rest: string, rest2: string)
    requires SameLine(s, line, line2)
    requires Out(After(s, line + "\n"), rest) == Out(After(s, line + "\n"), rest2)
    ensures Out(s, line + "\n" + rest) == Out(s, line2 + "\n" + rest2)
  {
    BreakAfter(s, line);
    BreakAfter(s, line2);
    AfterAppend(s, line + "\n", rest);
    AfterAppend(s, line2 + "\n", rest2);
  }

  lemma TidyLinesCons(line: string, rest: seq<string>)
    ensures TidyLines([line] + rest) == [TidyLine(line)] + TidyLines(rest)
  {
    hide TidyLine;
  }

  lemma {:induction false} FirstLine(lines: seq<string>)
    requires |lines| > 1
    ensures Join(lines, "\n") == lines[0] + "\n" + Join(lines[1..], "\n")
    ensures Join(TidyLines(lines), "\n") == TidyLine(lines[0]) + "\n" + Join(TidyLines(lines[1..]), "\n")
  {
    hide *;
    var line, rest := lines[0], lines[1..];
    assert lines == [line] + rest;
    TidyLinesCons(line, rest);
    JoinCons(line, rest, "\n");
    JoinCons(TidyLine(line), TidyLines(rest), "\n");
  }

  ghost predicate NoBreaks(lines: seq<string>) {
    forall i :: 0 <= i < |lines| ==> NoBreak(lines[i])
  }

  lemma {:induction false} LinesAreSame(s: State, lines: seq<string>)
    requires Absorbs(s) && lines != [] && NoBreaks(lines)
    ensures Out(s, Join(TidyLines(lines), "\n")) == Out(s, Join(lines, "\n"))
    decreases |lines|
  {
    var line, rest := lines[0], lines[1..];
    assert NoBreak(line) && NoBreaks(rest);
    hide NoBreak, NoBreaks, Out, After, SameLine, TidyLine, Absorbs;
    LineIsSame(s, line);
    if rest == [] {
      assert TidyLines(lines) == [TidyLine(line)];
      SameLineOut(s, line, TidyLine(line));
    } else {
      FirstLine(lines);
      BreakAfter(s, line);
      hide Join, TidyLines;
      LinesAreSame(After(s, line + "\n"), rest);
      LineThenRest(s, line, TidyLine(line), Join(rest, "\n"), Join(TidyLines(rest), "\n"));
    }
  }

  lemma SameLineOut(s: State, a: string, b: string)
    requires SameLine(s, a, b)
    ensures Out(s, a) == Out(s, b)
  {
  }

  // ---------- line breaks ----------

  lemma BreaksAfter(s: State)
    ensures Out(s, "\n\n\n") == "" == Out(s, "\n\n") && After(s, "\n\n\n") == After(s, "\n\n")
  {
    SpaceOut(s, "\n\n\n");
    SpaceOut(s, "\n\n");
    assert "\n\n\n"[..2] == "\n\n" && "\n\n"[..1] == "\n" && "\n"[..0] == "";
  }

  /** Shortening runs of line breaks changes nothing for the pass. */
  lemma {:induction false} CollapseIsSame(s: State, t: string)
    ensures Out(s, ReplaceAll(t, "\n\n\n", "\n\n")) == Out(s, t)
    decreases |t|
  {
    var i := Index(t, "\n\n\n");
    if i != -1 {
      var a, rest := t[..i], t[i + 3..];
      var r := ReplaceAll(rest, "\n\n\n", "\n\n");
      assert OccursAt(t, "\n\n\n", i);
      assert t == a + "\n\n\n" + rest;
      BreaksAfter(After(s, a));
      CollapseIsSame(After(s, a + "\n\n\n"), rest);
      AfterAppend(s, a, "\n\n\n");
      AfterAppend(s, a, "\n\n");
      AfterAppend(s, a + "\n\n\n", rest);
      AfterAppend(s, a + "\n\n", r);
    }
  }

  lemma {:induction false} CollapseShortens(t: string)
    ensures |ReplaceAll(t, "\n\n\n", "\n\n")| <= |t|
    ensures Index(t, "\n\n\n") != -1 ==> |ReplaceAll(t, "\n\n\n", "\n\n")| < |t|
    decreases |t|
  {
    var i := Index(t, "\n\n\n");
    if i != -1 {
      CollapseShortens(t[i + 3..]);
    }
  }

  // ---------- tidiness ----------

  lemma TidyWithBreaks(a: string, breaks: string, b: string)
    requires breaks != "" && (forall j :: 0 <= j < |breaks| ==> breaks[j] == '\n')
    ensures Tidy(a + breaks + b) <==> Tidy(a) && Tidy(b)
  {
    var t := a + breaks + b;
    var n, m := |a|, |a| + |breaks|;
    assert forall j :: 0 <= j < n ==> t[j] == a[j];
    assert forall j :: n <= j < m ==> t[j] == '\n';
    assert forall j :: 0 <= j < |b| ==> t[m + j] == b[j];
    forall j | 0 <= j < n && IsSpace(a[j]) ensures SingleBlank(t, j) <==> SingleBlank(a, j) {
    }
    forall j | 0 <= j < |b| && IsSpace(b[j]) ensures SingleBlank(t, m + j) <==> SingleBlank(b, j) {
      assert j > 0 ==> t[m + j - 1] == b[j - 1];
      assert j + 1 < |b| ==> t[m + j + 1] == b[j + 1];
    }
    hide SingleBlank, IsSpace;
    if Tidy(t) {
      forall j | 0 <= j < n && IsSpace(a[j]) ensures a[j] == '\n' || SingleBlank(a, j) {
        assert t[j] == a[j];
      }
      forall j | 0 <= j < |b| && IsSpace(b[j]) ensures b[j] == '\n' || SingleBlank(b, j) {
        assert t[m + j] == b[j];
      }
    }
    if Tidy(a) && Tidy(b) {
      forall j | 0 <= j < |t| && IsSpace(t[j]) ensures t[j] == '\n' || SingleBlank(t, j) {
        if j < n {
          assert a[j] == t[j];
        } else if j >= m {
          assert b[j - m] == t[m + (j - m)];
        }
      }
    }
  }

  /** Words joined by blanks: tidy, and nothing to trim. */
  lemma {:induction false} WordsAreTidy(ws: seq<string>)
    requires forall k :: 0 <= k < |ws| ==> ws[k] != "" && NoSpace(ws[k])
    ensures Tidy(Join(ws, " "))
    ensures ws != [] ==> Join(ws, " ") != "" && !IsSpace(Join(ws, " ")[|Join(ws, " ")| - 1])
  {
    if |ws| > 1 {
      var front, last := ws[..|ws| - 1], ws[|ws| - 1];
      WordsAreTidy(front);
      OneMoreWord(Join(front, " "), last);
    }
  }

  lemma OneMoreWord(a: string, w: string)
    requires Tidy(a) && a != "" && !IsSpace(a[|a| - 1]) && NoSpace(w) && w != ""
    ensures Tidy(a + " " + w)
  {
    var t := a + " " + w;
    assert forall j :: |a| < j < |t| ==> t[j] == w[j - |a| - 1];
    assert t[|a| + 1] == w[0] && t[|a| - 1] == a[|a| - 1];
    forall j | 0 <= j < |t| && IsSpace(t[j]) ensures t[j] == '\n' || SingleBlank(t, j) {
      if j < |a| {
        assert t[j] == a[j];
      }
    }
  }

  lemma LineIsTidy(line: string)
    ensures Tidy(TidyLine(line))
  {
    forall k | 0 <= k < |Fields(line)| ensures Fields(line)[k] != "" && NoSpace(Fields(line)[k]) {
      FieldIsWord(line, k);
    }
    WordsAreTidy(Fields(line));
  }

  ghost predicate AllTidy(lines: seq<string>) {
    forall k :: 0 <= k < |lines| ==> Tidy(lines[k])
  }

  lemma {:induction false} LinesAreTidy(lines: seq<string>)
    requires AllTidy(lines)
    ensures Tidy(Join(lines, "\n"))
  {
    if |lines| > 1 {
      var front, last := lines[..|lines| - 1], lines[|lines| - 1];
      assert AllTidy(front) && Tidy(last);
      hide Tidy, AllTidy;
      LinesAreTidy(front);
      TidyWithBreaks(Join(front, "\n"), "\n", last);
    } else if |lines| == 1 {
      assert Tidy(lines[0]);
    }
  }

  lemma {:induction false} CollapseIsTidy(t: string)
    requires Tidy(t)
    ensures Tidy(ReplaceAll(t, "\n\n\n", "\n\n"))
    decreases |t|
  {
    var i := Index(t, "\n\n\n");
    if i != -1 {
      assert OccursAt(t, "\n\n\n", i);
      var a, rest := t[..i], t[i + 3..];
      assert t == a + "\n\n\n" + rest;
      hide Tidy;
      TidyWithBreaks(a, "\n\n\n", rest);
      CollapseIsTidy(rest);
      TidyWithBreaks(a, "\n\n", ReplaceAll(rest, "\n\n\n", "\n\n"));
    }
  }

  /** The last step: what is left is clean, and the same for the pass. */
  lemma TrimmedIsClean(t: string)
    requires Tidy(t) && Index(t, "\n\n\n") == -1
    ensures Clean(TrimSpace(t)) && Canonical(TrimSpace(t)) == Canonical(t)
  {
    var lo, hi := TrimSpaceCuts(t);
    CutIsClean(t, lo, hi);
    hide *;
    CutIsSame(t, lo, hi);
  }

  lemma {:induction false} CutIsSame(t: string, lo: nat, hi: nat)
    requires lo <= hi <= |t| && AllSpace(t[..lo]) && AllSpace(t[hi..])
    ensures Canonical(t[lo..hi]) == Canonical(t)
  {
    hide *;
    var r := t[lo..hi];
    CanonicalIs(r);
    CanonicalIs(t);
    SpaceOut(Fresh, t[..lo]);
    SpaceOut(After(Fresh, t[..hi]), t[hi..]);
    AfterAppend(Fresh, t[..lo], r);
    AfterAppend(Fresh, t[..hi], t[hi..]);
    assert t == t[..hi] + t[hi..] && t[..hi] == t[..lo] + r;
    assert Out(Fresh, t[..hi]) + "" == Out(Fresh, t[..hi]);
    assert "" + Out(Fresh, r) == Out(Fresh, r);
  }

  lemma CanonicalIs(t: string)
    ensures Canonical(t) == Out(Fresh, t)
  {
  }

  lemma CutIsClean(t: string, lo: nat, hi: nat)
    requires Tidy(t) && Index(t, "\n\n\n") == -1 && lo <= hi <= |t|
    requires t[lo..hi] != "" ==> !IsSpace(t[lo]) && !IsSpace(t[hi - 1])
    ensures Clean(t[lo..hi])
  {
    var r := t[lo..hi];
    forall j | 0 <= j < |r| && IsSpace(r[j]) ensures r[j] == '\n' || SingleBlank(r, j) {
      assert r[j] == t[lo + j];
      assert t[lo + j] == '\n' || SingleBlank(t, lo + j);
    }
    forall j: nat ensures !OccursAt(r, "\n\n\n", j) {
      assert !OccursAt(t, "\n\n\n", lo + j);
      OccursInCut(t, lo, hi, "\n\n\n", j);
    }
  }

  lemma OccursInCut(t: string, lo: nat, hi: nat, sub: string, j: nat)
    requires lo <= hi <= |t|
    ensures OccursAt(t[lo..hi], sub, j) ==> OccursAt(t, sub, lo + j)
  {
    var n := j + |sub|;
    if n <= hi - lo {
      forall k | 0 <= k < |sub| ensures t[lo..hi][j..n][k] == t[lo + j..lo + n][k] {
      }
      assert t[lo..hi][j..n] == t[lo + j..lo + n];
    }
  }

  // ---------- the function ----------

  lemma LinesHaveNoBreaks(t: string)
    ensures NoBreaks(Split(t, "\n"))
  {
    forall i | 0 <= i < |Split(t, "\n")| ensures NoBreak(Split(t, "\n")[i]) {
      SplitHasNone(t, '\n', i);
    }
  }

  /** Every step from the text with Unix line ends to the tidied lines. */
  lemma TidiedText(t: string)
    ensures Canonical(Join(TidyLines(Split(t, "\n")), "\n")) == Canonical(t)
    ensures Tidy(Join(TidyLines(Split(t, "\n")), "\n"))
  {
    var lines := Split(t, "\n");
    SplitJoin(t, "\n");
    LinesHaveNoBreaks(t);
    LinesAreSame(Fresh, lines);
    forall k | 0 <= k < |lines| ensures Tidy(TidyLine(lines[k])) {
      LineIsTidy(lines[k]);
    }
    LinesAreTidy(TidyLines(lines));
  }

  method NormalizeWhitespace(text: string) returns (r: string)
    ensures r == Canonical(UnixLines(text))
    ensures Clean(r)
    ensures NonSpace(r) == NonSpace(text)
  {
    LineEndsInTwoPasses(text);
    UnixLinesKeepCharacters(text);
    OutKeepsCharacters(Fresh, UnixLines(text));
    CanonicalIs(UnixLines(text));
    hide *;
    var t := ReplaceAll(text, "\r\n", "\n");
    t := ReplaceAll(t, "\r", "\n");
    ghost var unix := t;
    TidiedText(t);
    var lines := Split(t, "\n");
    ghost var before := lines;
    for i := 0 to |lines|
      invariant |lines| == |before|
      invariant forall k :: 0 <= k < i ==> lines[k] == TidyLines(before)[k]
      invariant forall k :: i <= k < |lines| ==> lines[k] == before[k]
    {
      TidyLineIs(lines[i]);
      var line := Join(Fields(lines[i]), " ");
      lines := lines[i := line];
    }
    assert lines == TidyLines(before);
    t := Join(lines, "\n");
    while Index(t, "\n\n\n") != -1
      invariant Canonical(t) == Canonical(unix) && Tidy(t)
      decreases |t|
    {
      CollapseIsSame(Fresh, t);
      CollapseIsTidy(t);
      CollapseShortens(t);
      CanonicalIs(t);
      CanonicalIs(ReplaceAll(t, "\n\n\n", "\n\n"));
      t := ReplaceAll(t, "\n\n\n", "\n\n");
    }
    TrimmedIsClean(t);
    r := TrimSpace(t);
    CleanIsCanonical(r);
  }

  lemma TidyLineIs(line: string)
    ensures TidyLine(line) == Join(Fields(line), " ")
  {
  }

  lemma GapKeepsClean(a: string, g: Gap, c: char)
    requires Clean(a) && a != "" && !IsSpace(c)
    ensures Clean(a + Render(g) + [c])
  {
    var n, t := |a|, a + Render(g) + [c];
    assert forall j :: 0 <= j < n ==> t[j] == a[j];
    forall j | 0 <= j < |t| && IsSpace(t[j]) ensures t[j] == '\n' || SingleBlank(t, j) {
      if j < n {
        assert a[j] == '\n' || SingleBlank(a, j);
      }
    }
    forall j: nat ensures !OccursAt(t, "\n\n\n", j) {
      assert j + 3 <= n ==> !OccursAt(a, "\n\n\n", j) && t[j..j + 3] == a[j..j + 3];
      assert n - 1 < j + 3 <= |t| ==> t[j..j + 3] == [t[j], t[j + 1], t[j + 2]];
    }
  }

  /** The pass leaves nothing but clean text. */
  lemma {:induction false} CanonicalIsClean(t: string)
    ensures Clean(Canonical(t))
    ensures Canonical(t) == "" <==> After(Fresh, t) == Fresh
  {
    if t != "" {
      var front, c := t[..|t| - 1], t[|t| - 1];
      CanonicalIsClean(front);
      var a, s := Canonical(front), After(Fresh, front);
      if !IsSpace(c) {
        if a == "" {
          assert a + Lead(s) + [c] == [c];
        } else {
          GapKeepsClean(a, s.gap, c);
        }
      }
    }
  }

  /**
   `normalizeWhitespace` gives a text back unchanged exactly when it is clean already; so using it
   twice changes nothing more.
   */
  lemma FixedExactlyWhenClean(t: string)
    ensures Canonical(UnixLines(t)) == t <==> Clean(t)
    ensures Canonical(UnixLines(Canonical(UnixLines(t)))) == Canonical(UnixLines(t))
  {
    var r := Canonical(UnixLines(t));
    CanonicalIsClean(UnixLines(t));
    if Clean(t) {
      CleanHasNoReturns(t);
      NoReturnsToReplace(t);
      CleanIsCanonical(t);
    }
    CleanHasNoReturns(r);
    NoReturnsToReplace(r);
    CleanIsCanonical(r);
  }

  lemma CleanHasNoReturns(t: string)
    requires Clean(t)
    ensures '\r' !in t
  {
    forall j | 0 <= j < |t| ensures t[j] != '\r' {
      assert IsSpace(t[j]) ==> t[j] == '\n' || SingleBlank(t, j);
    }
  }
}
