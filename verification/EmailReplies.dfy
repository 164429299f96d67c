/**
 `stripConferencingBoilerplate` of `pkg/parse/email.go`, and what the quoted-reply functions need
 of lines and of the white space around them.
 */
module EmailReplies {
  import opened GoStrings

  function Lines(text: string): (r: seq<string>)
    ensures |r| > 0
  {
    Split(text, "\n")
  }

  /** The lines without the white space around them. */
  function TrimmedLines(text: string): (r: seq<string>)
    ensures |r| == |Lines(text)| && forall i :: 0 <= i < |r| ==> r[i] == TrimSpace(Lines(text)[i])
  {
    seq(|Lines(text)|, i requires 0 <= i < |Lines(text)| => TrimSpace(Lines(text)[i]))
  }

  // ---------- white space at the ends of a text ----------

  lemma SpaceAround(a: string, b: string)
    requires AllSpace(a) && AllSpace(b)
    ensures AllSpace(a + b)
  {
  }

  lemma TrimSpaceOf(a: string, r: string, b: string)
    requires AllSpace(a) && AllSpace(b) && (r != "" ==> !IsSpace(r[0]) && !IsSpace(r[|r| - 1]))
    ensures TrimSpace(a + r + b) == r
  {
    var s, lo, hi := a + r + b, |a|, |a| + |r|;
    assert s[..lo] == a && s[hi..] == b && s[lo..hi] == r;
    hide *;
    TrimSpaceIs(s, lo, hi);
  }

  lemma TrimSpaceLonger(l: string, c: char)
    requires IsSpace(c)
    ensures TrimSpace(l + [c]) == TrimSpace(l) == TrimSpace([c] + l)
  {
    var lo, hi := TrimSpaceCuts(l);
    var a, r, b := l[..lo], l[lo..hi], l[hi..];
    assert AllSpace([c]) && (r != "" ==> !IsSpace(r[0]) && !IsSpace(r[|r| - 1]));
    hide *;
    assert l + [c] == a + r + (b + [c]);
    assert [c] + l == ([c] + a) + r + b;
    SpaceAround(b, [c]);
    SpaceAround([c], a);
    TrimSpaceOf(a, r, b + [c]);
    TrimSpaceOf([c] + a, r, b);
  }

  /** One more character at the end: a new line, or the last one gets longer. */
  lemma {:induction false} SplitSnoc(s: string, c: char)
    ensures c == '\n' ==> Lines(s + [c]) == Lines(s) + [""]
    ensures c != '\n' ==> Lines(s + [c]) == Lines(s)[..|Lines(s)| - 1] + [Lines(s)[|Lines(s)| - 1] + [c]]
    decreases |s|
  {
    if Index(s, "\n") == -1 {
      LastLineGrows(s, c);
    } else {
      var i := Index(s, "\n");
      FoundAt(s, i);
      var head, rest := s[..i], s[i + 1..];
      SplitSnoc(rest, c);
      hide *;
      assert s == head + "\n" + rest;
      LinesBehind(head, rest, c);
    }
  }

  /** A line in front changes only the front. */
  lemma {:induction false} LinesBehind(head: string, rest: string, c: char)
    requires '\n' !in head
    ensures Lines(head + "\n" + rest) == [head] + Lines(rest)
    ensures Lines(head + "\n" + rest + [c]) == [head] + Lines(rest + [c])
    ensures [head] + (Lines(rest) + [""]) == [head] + Lines(rest) + [""]
    ensures var ls, all := Lines(rest), [head] + Lines(rest);
      [head] + (ls[..|ls| - 1] + [ls[|ls| - 1] + [c]]) == all[..|all| - 1] + [all[|all| - 1] + [c]]
  {
    SplitHead(head, '\n', rest);
    SplitHead(head, '\n', rest + [c]);
    hide Split;
    assert head + "\n" + rest + [c] == head + "\n" + (rest + [c]);
  }

  lemma LastLineGrows(s: string, c: char)
    requires Index(s, "\n") == -1
    ensures c == '\n' ==> Lines(s + [c]) == Lines(s) + [""]
    ensures c != '\n' ==> Lines(s + [c]) == Lines(s)[..|Lines(s)| - 1] + [Lines(s)[|Lines(s)| - 1] + [c]]
  {
    NotFoundNotIn(s);
    SplitWhole(s, '\n');
    if c == '\n' {
      SplitHead(s, '\n', "");
      assert s + [c] == s + "\n" + "";
      SplitWhole("", '\n');
    } else {
      SplitWhole(s + [c], '\n');
    }
  }

  lemma NotFoundNotIn(s: string)
    requires Index(s, "\n") == -1
    ensures '\n' !in s
  {
    forall k | 0 <= k < |s| ensures s[k] != '\n' {
      assert !OccursAt(s, "\n", k);
      assert s[k..k + 1] == [s[k]];
    }
  }

  lemma FoundAt(s: string, i: nat)
    requires Index(s, "\n") == i
    ensures i < |s| && s[i] == '\n' && '\n' !in s[..i]
  {
    assert s[i..i + 1] == "\n";
    forall k | 0 <= k < i ensures s[k] != '\n' {
      assert !OccursAt(s, "\n", k);
      assert s[k..k + 1] == [s[k]];
    }
  }

  lemma SplitCons(s: string, c: char)
    ensures c == '\n' ==> Lines([c] + s) == [""] + Lines(s)
    ensures c != '\n' ==> Lines([c] + s) == [[c] + Lines(s)[0]] + Lines(s)[1..]
  {
    if c == '\n' {
      SplitHead("", '\n', s);
      assert [c] + s == "" + "\n" + s;
    } else if Index(s, "\n") == -1 {
      NotFoundNotIn(s);
      hide Split, Index;
      SplitWhole(s, '\n');
      SplitWhole([c] + s, '\n');
    } else {
      var i := Index(s, "\n");
      FoundAt(s, i);
      var head, rest := s[..i], s[i + 1..];
      hide *;
      assert s == head + "\n" + rest;
      FirstLineGrows(head, rest, c);
    }
  }

  lemma {:induction false} FirstLineGrows(head: string, rest: string, c: char)
    requires '\n' !in head && c != '\n'
    ensures Lines(head + "\n" + rest) == [head] + Lines(rest)
    ensures Lines([c] + (head + "\n" + rest)) == [[c] + head] + Lines(rest)
  {
    SplitHead(head, '\n', rest);
    SplitHead([c] + head, '\n', rest);
    hide Split;
    assert [c] + (head + "\n" + rest) == [c] + head + "\n" + rest;
  }

  /** White space at the end of a text adds at most an empty trimmed line. */
  lemma TrimmedLinesSnoc(s: string, c: char)
    requires IsSpace(c)
    ensures TrimmedLines(s + [c]) == TrimmedLines(s) || TrimmedLines(s + [c]) == TrimmedLines(s) + [""]
  {
    var before, after := TrimmedLines(s), TrimmedLines(s + [c]);
    SplitSnoc(s, c);
    if c == '\n' {
      TrimSpaceIs("", 0, 0);
      assert after == before + [""];
    } else {
      TrimSpaceLonger(Lines(s)[|Lines(s)| - 1], c);
      assert after == before;
    }
  }

  lemma TrimmedLinesCons(s: string, c: char)
    requires IsSpace(c)
    ensures TrimmedLines([c] + s) == TrimmedLines(s) || TrimmedLines([c] + s) == [""] + TrimmedLines(s)
  {
    var before, after := TrimmedLines(s), TrimmedLines([c] + s);
    SplitCons(s, c);
    if c == '\n' {
      TrimSpaceIs("", 0, 0);
      assert after == [""] + before;
    } else {
      TrimSpaceLonger(Lines(s)[0], c);
      assert after == before;
    }
  }

  // ---------- boilerplate ----------

  predicate IsTrail(c: char) {
    c == ' ' || c == '\t' || c == '\n'
  }

  /** The first line that is a marker, or the number of lines. */
  function FirstMarker(ls: seq<string>, marker: string -> bool, i: nat): (r: nat)
    requires i <= |ls|
    ensures i <= r <= |ls|
    ensures forall k :: i <= k < r ==> !marker(TrimSpace(ls[k]))
    ensures r < |ls| ==> marker(TrimSpace(ls[r]))
    decreases |ls| - i
  {
    if i == |ls| || marker(TrimSpace(ls[i])) then i else FirstMarker(ls, marker, i + 1)
  }

  /** The lines before the first marker, without white space at the end; a text without marker as it is. */
  function Stripped(text: string, marker: string -> bool): string {
    var i := FirstMarker(Lines(text), marker, 0);
    if i == |Lines(text)| then text else TrimRight(Join(Lines(text)[..i], "\n"), IsTrail)
  }

  ghost predicate NoMarker(text: string, marker: string -> bool) {
    forall i :: 0 <= i < |Lines(text)| ==> !marker(TrimmedLines(text)[i])
  }

  lemma {:induction false} TrimmingAddsNoMarker(s: string, marker: string -> bool)
    requires NoMarker(s, marker)
    ensures NoMarker(TrimRight(s, IsTrail), marker)
  {
    if s != "" && IsTrail(s[|s| - 1]) {
      var front, c := s[..|s| - 1], s[|s| - 1];
      assert s == front + [c];
      TrimmedLinesSnoc(front, c);
      forall i | 0 <= i < |TrimmedLines(front)| ensures !marker(TrimmedLines(front)[i]) {
        assert TrimmedLines(front)[i] == TrimmedLines(s)[i];
      }
      TrimmingAddsNoMarker(front, marker);
      assert TrimRight(s, IsTrail) == TrimRight(front, IsTrail);
    } else {
      assert TrimRight(s, IsTrail) == s;
    }
  }

  lemma LinesBefore(text: string, i: nat)
    requires 0 < i <= |Lines(text)|
    ensures Lines(Join(Lines(text)[..i], "\n")) == Lines(text)[..i]
  {
    forall k | 0 <= k < i ensures '\n' !in Lines(text)[..i][k] {
      SplitHasNone(text, '\n', k);
    }
    JoinSplit(Lines(text)[..i], '\n');
  }

  lemma KeptHasNoMarker(text: string, marker: string -> bool, i: nat)
    requires 0 < i <= FirstMarker(Lines(text), marker, 0)
    ensures NoMarker(Join(Lines(text)[..i], "\n"), marker)
  {
    var kept := Join(Lines(text)[..i], "\n");
    LinesBefore(text, i);
    hide Lines, Join;
    forall k | 0 <= k < |Lines(kept)| ensures !marker(TrimmedLines(kept)[k]) {
      assert Lines(kept)[k] == Lines(text)[k];
    }
  }

  lemma NoMarkerIsKept(text: string, marker: string -> bool)
    requires NoMarker(text, marker)
    ensures Stripped(text, marker) == text
  {
    assert forall k :: 0 <= k < |Lines(text)| ==> TrimmedLines(text)[k] == TrimSpace(Lines(text)[k]);
  }

  /** What is kept holds no marker any more, so stripping twice strips no more. */
  lemma StrippedIsFinal(text: string, marker: string -> bool)
    ensures Stripped(text, marker) != "" ==> NoMarker(Stripped(text, marker), marker)
    ensures Stripped(Stripped(text, marker), marker) == Stripped(text, marker)
  {
    var ls, r := Lines(text), Stripped(text, marker);
    var i := FirstMarker(ls, marker, 0);
    if i == |ls| {
      assert forall k :: 0 <= k < |ls| ==> TrimmedLines(text)[k] == TrimSpace(ls[k]);
      assert NoMarker(r, marker);
      NoMarkerIsKept(r, marker);
    } else if i == 0 {
      assert r == "";
      assert Stripped("", marker) == "";
    } else {
      KeptHasNoMarker(text, marker, i);
      hide *;
      assert r == TrimRight(Join(ls[..i], "\n"), IsTrail) by { StrippedAt(text, marker); }
      TrimmingAddsNoMarker(Join(ls[..i], "\n"), marker);
      NoMarkerIsKept(r, marker);
    }
  }

  lemma StrippedAt(text: string, marker: string -> bool)
    ensures var i := FirstMarker(Lines(text), marker, 0);
      i < |Lines(text)| ==> Stripped(text, marker) == TrimRight(Join(Lines(text)[..i], "\n"), IsTrail)
  {
  }

  /** Some pattern of the list matches. */
  function Matches(markers: seq<string -> bool>, line: string): bool {
    exists i :: 0 <= i < |markers| && markers[i](line)
  }

  /** One marker that matches is enough, and there is no other way. */
  lemma MatchesOne(first: string -> bool, rest: seq<string -> bool>, line: string)
    ensures Matches([first] + rest, line) <==> first(line) || Matches(rest, line)
    ensures !Matches([], line)
  {
    var all := [first] + rest;
    assert all[0] == first;
    assert forall i :: 0 <= i < |rest| ==> all[i + 1] == rest[i];
    if first(line) {
      assert all[0](line);
    }
    if i :| 0 <= i < |rest| && rest[i](line) {
      assert all[i + 1](line);
    }
  }

  function AnyOf(markers: seq<string -> bool>): string -> bool {
    line => Matches(markers, line)
  }

  /** The text before line `k` when the scan is there. */
  ghost predicate ScanAt(text: string, start: nat, k: nat) {
    && start <= |text| && k < |Lines(text)|
    && Lines(text[start..]) == Lines(text)[k..]
    && (if k == 0 then start == 0 else text[..start] == Join(Lines(text)[..k], "\n") + "\n")
  }

  lemma ScanStarts(text: string)
    ensures ScanAt(text, 0, 0)
  {
    assert text[0..] == text && Lines(text)[0..] == Lines(text);
  }

  lemma TrimTrail(s: string)
    ensures TrimRight(s + "\n", IsTrail) == TrimRight(s, IsTrail)
  {
    assert (s + "\n")[..|s|] == s;
  }

  lemma NoLineIsLeft(text: string, start: nat, k: nat)
    requires ScanAt(text, start, k) && Index(text[start..], "\n") == -1
    ensures k + 1 == |Lines(text)| && Lines(text)[k] == text[start..]
  {
    NotFoundNotIn(text[start..]);
    SplitWhole(text[start..], '\n');
    assert Lines(text)[k..][0] == Lines(text)[k];
  }

  lemma ScanMoves(text: string, start: nat, k: nat, end: nat)
    requires ScanAt(text, start, k) && Index(text[start..], "\n") == end
    ensures start + end < |text| && Lines(text)[k] == text[start..start + end]
    ensures k + 1 < |Lines(text)| && ScanAt(text, start + end + 1, k + 1)
  {
    var rest := text[start..];
    FoundAt(rest, end);
    var line, tail := rest[..end], rest[end + 1..];
    assert rest == line + "\n" + tail && line == text[start..start + end] && tail == text[start + end + 1..];
    SplitHead(line, '\n', tail);
    hide Index, IndexFrom, Split;
    var ls := Lines(text);
    assert ls[k..][0] == ls[k];
    assert ls[k + 1..] == ls[k..][1..] == Lines(tail);
    assert text[..start + end + 1] == text[..start] + line + "\n";
    JoinedGrows(ls, k);
  }

  lemma JoinedGrows(ls: seq<string>, k: nat)
    requires k < |ls|
    ensures Join(ls[..k + 1], "\n") == if k == 0 then ls[0] else Join(ls[..k], "\n") + "\n" + ls[k]
  {
    assert ls[..k + 1] == ls[..k] + [ls[k]];
    JoinSnoc(ls[..k], ls[k], "\n");
  }

  lemma StrippedHere(text: string, start: nat, k: nat, marker: string -> bool)
    requires ScanAt(text, start, k) && FirstMarker(Lines(text), marker, 0) == k
    ensures Stripped(text, marker) == TrimRight(text[..start], IsTrail)
  {
    if k == 0 {
      assert text[..0] == "" && Lines(text)[..0] == [];
    } else {
      TrimTrail(Join(Lines(text)[..k], "\n"));
    }
  }

  lemma MarkerStep(ls: seq<string>, marker: string -> bool, k: nat)
    requires k < |ls|
    ensures FirstMarker(ls, marker, k) == if marker(TrimSpace(ls[k])) then k else FirstMarker(ls, marker, k + 1)
    ensures FirstMarker(ls, marker, |ls|) == |ls|
  {
  }

  lemma NothingToStrip(text: string, marker: string -> bool)
    requires FirstMarker(Lines(text), marker, 0) == |Lines(text)|
    ensures Stripped(text, marker) == text
  {
  }

  /** The loop over the patterns. */
  method MatchesAny(markers: seq<string -> bool>, line: string) returns (found: bool)
    ensures found == AnyOf(markers)(line)
  {
    for i := 0 to |markers|
      invariant forall j :: 0 <= j < i ==> !markers[j](line)
    {
      if markers[i](line) {
        return true;
      }
    }
    return false;
  }

  /** The line of the scan, and where the scan goes from it. */
  ghost predicate LineHere(text: string, start: nat, k: nat, end: int, line: string, marker: string -> bool) {
    && k < |Lines(text)| && line == TrimSpace(Lines(text)[k])
    && (marker(line) ==> FirstMarker(Lines(text), marker, k) == k)
    && (end == -1 && !marker(line) ==> FirstMarker(Lines(text), marker, k) == |Lines(text)|)
    && (end != -1 && !marker(line) ==>
          && 0 <= end && k + 1 < |Lines(text)| && ScanAt(text, start + end + 1, k + 1)
          && FirstMarker(Lines(text), marker, k + 1) == FirstMarker(Lines(text), marker, k))
  }

  lemma LineHereIs(text: string, start: nat, k: nat, end: int, line: string, marker: string -> bool)
    requires LineHere(text, start, k, end, line, marker)
    ensures marker(line) ==> FirstMarker(Lines(text), marker, k) == k <= |Lines(text)|
    ensures end == -1 && !marker(line) ==> FirstMarker(Lines(text), marker, k) == |Lines(text)|
    ensures end != -1 && !marker(line) ==>
          && 0 <= end && k + 1 < |Lines(text)| && ScanAt(text, start + end + 1, k + 1)
          && FirstMarker(Lines(text), marker, k + 1) == FirstMarker(Lines(text), marker, k)
  {
  }

  lemma LastLineHere(text: string, start: nat, k: nat, marker: string -> bool)
    requires ScanAt(text, start, k) && Index(text[start..], "\n") == -1
    ensures LineHere(text, start, k, -1, TrimSpace(text[start..]), marker)
  {
    NoLineIsLeft(text, start, k);
    MarkerStep(Lines(text), marker, k);
  }

  lemma NextLineHere(text: string, start: nat, k: nat, end: nat, marker: string -> bool)
    requires ScanAt(text, start, k) && Index(text[start..], "\n") == end
    ensures start + end < |text| && LineHere(text, start, k, end, TrimSpace(text[start..start + end]), marker)
  {
    ScanMoves(text, start, k, end);
    hide ScanAt, Lines, Index, TrimSpace, FirstMarker;
    MarkerStep(Lines(text), marker, k);
  }

  method LineAt(text: string, start: nat, ghost k: nat, ghost marker: string -> bool) returns (end: int, line: string)
    requires start <= |text| && ScanAt(text, start, k)
    ensures LineHere(text, start, k, end, line, marker)
    ensures end == -1 || (0 <= end && start + end < |text|)
  {
    hide *;
    end := Index(text[start..], "\n");
    if end == -1 {
      LastLineHere(text, start, k, marker);
      line := TrimSpace(text[start..]);
    } else {
      NextLineHere(text, start, k, end, marker);
      line := TrimSpace(text[start..start + end]);
    }
  }

  method StripConferencingBoilerplate(text: string, markers: seq<string -> bool>) returns (r: string)
    ensures r == Stripped(text, AnyOf(markers))
  {
    hide *;
    ghost var marker := AnyOf(markers);
    var start := 0;
    ghost var k := 0;
    ScanStarts(text);
    while start <= |text|
      invariant start <= |text| && k < |Lines(text)| && ScanAt(text, start, k)
      invariant FirstMarker(Lines(text), marker, k) == FirstMarker(Lines(text), marker, 0)
      decreases |text| - start
    {
      var end, line := LineAt(text, start, k, marker);
      LineHereIs(text, start, k, end, line, marker);
      var found := MatchesAny(markers, line);
      if found {
        StrippedHere(text, start, k, marker);
        return TrimRight(text[..start], IsTrail);
      }
      if end == -1 {
        NothingToStrip(text, marker);
        break;
      }
      start := start + end + 1;
      k := k + 1;
    }
    return text;
  }

  lemma {:induction false} TrimRightKeepsCharacters(s: string)
    ensures NonSpace(TrimRight(s, IsTrail)) == NonSpace(s)
  {
    if s != "" && IsTrail(s[|s| - 1]) {
      TrimRightKeepsCharacters(s[..|s| - 1]);
      assert NonSpace(s) == NonSpace(s[..|s| - 1]) + "";
      assert TrimRight(s, IsTrail) == TrimRight(s[..|s| - 1], IsTrail);
    } else {
      assert TrimRight(s, IsTrail) == s;
    }
  }

  /** Of the lines before the marker no character is lost. */
  lemma StrippedKeepsCharacters(text: string, marker: string -> bool)
    ensures NonSpace(Stripped(text, marker)) == NonSpace(Join(Lines(text)[..FirstMarker(Lines(text), marker, 0)], "\n"))
  {
    var i := FirstMarker(Lines(text), marker, 0);
    if i == |Lines(text)| {
      assert Lines(text)[..i] == Lines(text);
      SplitJoin(text, "\n");
    } else {
      TrimRightKeepsCharacters(Join(Lines(text)[..i], "\n"));
    }
  }
}
