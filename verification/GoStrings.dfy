/**
 The string functions of the Go standard library that the modelled packages call, and the
 facts about them that the proofs need.  A string is a sequence of characters.
 */
module GoStrings {

  // ---------- white space ----------

  /** The characters `unicode.IsSpace` accepts. */
  predicate IsSpace(c: char) {
    || '\t' <= c <= '\r'
    || c == ' '
    || c == '\U{85}' || c == '\U{a0}' || c == '\U{1680}'
    || '\U{2000}' <= c <= '\U{200a}'
    || c == '\U{2028}' || c == '\U{2029}' || c == '\U{202f}' || c == '\U{205f}' || c == '\U{3000}'
  }

  /** The White_Space characters of Unicode, one by one. */
  lemma SpacesAre(c: char)
    ensures IsSpace(c) <==>
            c in {'\U{9}', '\U{a}', '\U{b}', '\U{c}', '\U{d}', '\U{20}', '\U{85}', '\U{a0}', '\U{1680}',
                  '\U{2000}', '\U{2001}', '\U{2002}', '\U{2003}', '\U{2004}', '\U{2005}', '\U{2006}', '\U{2007}',
                  '\U{2008}', '\U{2009}', '\U{200a}', '\U{2028}', '\U{2029}', '\U{202f}', '\U{205f}', '\U{3000}'}
  {
  }

  ghost predicate AllSpace(s: string) {
    forall i :: 0 <= i < |s| ==> IsSpace(s[i])
  }

  ghost predicate NoSpace(s: string) {
    forall i :: 0 <= i < |s| ==> !IsSpace(s[i])
  }

  /** The string without its white space: what the conservation theorems compare. */
  function NonSpace(s: string): string {
    if s == "" then ""
    else NonSpace(s[..|s| - 1]) + (if IsSpace(s[|s| - 1]) then "" else [s[|s| - 1]])
  }

  lemma {:induction false} NonSpaceAppend(a: string, b: string)
    ensures NonSpace(a + b) == NonSpace(a) + NonSpace(b)
  {
    if b == "" {
      assert a + b == a;
    } else {
      var c := b[..|b| - 1];
      assert (a + b)[..|a + b| - 1] == a + c;
      NonSpaceAppend(a, c);
    }
  }

  lemma {:induction false} NonSpaceOfSpace(s: string)
    requires AllSpace(s)
    ensures NonSpace(s) == ""
  {
    if s != "" {
      NonSpaceOfSpace(s[..|s| - 1]);
    }
  }

  lemma {:induction false} NonSpaceOfWord(s: string)
    requires NoSpace(s)
    ensures NonSpace(s) == s
  {
    if s != "" {
      NonSpaceOfWord(s[..|s| - 1]);
    }
  }

  lemma Assoc(a: string, b: string, c: string)
    ensures (a + b) + c == a + (b + c)
  {
  }

  // ---------- search ----------

  predicate OccursAt(s: string, sub: string, i: nat) {
    i + |sub| <= |s| && s[i..i + |sub|] == sub
  }

  /** The first occurrence of `sub` at or after `i`, or -1. */
  function IndexFrom(s: string, sub: string, i: nat): (r: int)
    ensures r == -1 || (i <= r && OccursAt(s, sub, r))
    ensures forall k: nat :: i <= k && (r == -1 || k < r) ==> !OccursAt(s, sub, k)
    decreases |s| - i
  {
    if i + |sub| > |s| then -1
    else if OccursAt(s, sub, i) then i
    else if i == |s| then -1
    else IndexFrom(s, sub, i + 1)
  }

  /** `strings.Index`. */
  function Index(s: string, sub: string): (r: int)
    ensures r == -1 || (0 <= r && OccursAt(s, sub, r))
    ensures forall k: nat :: r == -1 || k < r ==> !OccursAt(s, sub, k)
  {
    IndexFrom(s, sub, 0)
  }

  lemma IndexIs(s: string, sub: string, i: nat)
    requires OccursAt(s, sub, i)
    requires forall k: nat :: k < i ==> !OccursAt(s, sub, k)
    ensures Index(s, sub) == i
  {
  }

  // ---------- split and join ----------

  /** `strings.Split` for a separator that is not empty. */
  function Split(s: string, sep: string): (parts: seq<string>)
    requires sep != ""
    ensures |parts| > 0
    decreases |s|
  {
    var i := Index(s, sep);
    if i == -1 then [s] else [s[..i]] + Split(s[i + |sep|..], sep)
  }

  /** `strings.Join`. */
  function Join(parts: seq<string>, sep: string): string {
    if |parts| == 0 then ""
    else if |parts| == 1 then parts[0]
    else Join(parts[..|parts| - 1], sep) + sep + parts[|parts| - 1]
  }

  lemma JoinSnoc(parts: seq<string>, last: string, sep: string)
    ensures Join(parts + [last], sep) == if parts == [] then last else Join(parts, sep) + sep + last
  {
    assert (parts + [last])[..|parts|] == parts;
  }

  lemma ConcatSnoc(parts: seq<string>, last: string)
    ensures Join(parts + [last], "") == Join(parts, "") + last
  {
    JoinSnoc(parts, last, "");
  }

  lemma {:induction false} JoinCons(head: string, parts: seq<string>, sep: string)
    requires parts != []
    ensures Join([head] + parts, sep) == head + sep + Join(parts, sep)
  {
    var whole := [head] + parts;
    if |parts| == 1 {
      assert whole[..1] == [head];
    } else {
      var front := parts[..|parts| - 1];
      assert whole[..|whole| - 1] == [head] + front;
      JoinCons(head, front, sep);
    }
  }

  /** Joining two runs of parts. */
  lemma {:induction false} JoinAppend(a: seq<string>, b: seq<string>, sep: string)
    requires a != [] && b != []
    ensures Join(a + b, sep) == Join(a, sep) + sep + Join(b, sep)
  {
    var front, last := b[..|b| - 1], b[|b| - 1];
    JoinSnoc(a + front, last, sep);
    assert a + b == (a + front) + [last];
    if front == [] {
      assert a + front == a;
    } else {
      JoinAppend(a, front, sep);
      assert Join(b, sep) == Join(front, sep) + sep + last;
      Reassociate(Join(a, sep), sep, Join(front, sep), sep + last);
    }
  }

  lemma Reassociate(a: string, b: string, c: string, d: string)
    ensures (a + b + c) + d == a + b + (c + d)
  {
  }

  lemma Cut(s: string, i: nat, j: nat)
    requires i <= j <= |s|
    ensures s == s[..i] + s[i..j] + s[j..]
  {
  }

  lemma {:induction false} SplitJoin(s: string, sep: string)
    requires sep != ""
    ensures Join(Split(s, sep), sep) == s
    decreases |s|
  {
    var i := Index(s, sep);
    if i == -1 {
    } else {
      assert OccursAt(s, sep, i);
      var head, rest := s[..i], s[i + |sep|..];
      var parts := Split(rest, sep);
      assert Split(s, sep) == [head] + parts;
      SplitJoin(rest, sep);
      JoinCons(head, parts, sep);
      Cut(s, i, i + |sep|);
    }
  }

  /** The offset at which part `i` starts in the joined string. */
  function PartStart(parts: seq<string>, sepLen: nat, i: nat): nat
    requires i <= |parts|
  {
    if i == 0 then 0 else PartStart(parts, sepLen, i - 1) + |parts[i - 1]| + sepLen
  }

  lemma {:induction false} JoinPrefix(parts: seq<string>, sep: string, i: nat)
    requires 0 < i <= |parts|
    ensures |Join(parts[..i], sep)| + |sep| == PartStart(parts, |sep|, i)
    ensures Join(parts[..i], sep) <= Join(parts, sep)
  {
    if i > 1 {
      JoinPrefix(parts, sep, i - 1);
      assert parts[..i][..i - 1] == parts[..i - 1];
    }
    if i < |parts| {
      assert parts == parts[..i] + parts[i..];
      JoinAppend(parts[..i], parts[i..], sep);
    } else {
      assert parts[..i] == parts;
    }
  }

  /** Part `i` sits at `PartStart` in the joined string. */
  lemma PartAt(parts: seq<string>, sep: string, i: nat)
    requires i < |parts|
    ensures var p := PartStart(parts, |sep|, i); var s := Join(parts, sep);
            p + |parts[i]| <= |s| && s[p..p + |parts[i]|] == parts[i]
  {
    JoinPrefix(parts, sep, i + 1);
    assert parts[..i + 1] == parts[..i] + [parts[i]];
    JoinSnoc(parts[..i], parts[i], sep);
    if i > 0 {
      JoinPrefix(parts, sep, i);
    }
    var p := PartStart(parts, |sep|, i);
    assert Join(parts[..i + 1], sep)[p..] == parts[i];
  }

  lemma {:induction false} PartStartAdds(parts: seq<string>, sepLen: nat, i: nat, j: nat)
    requires i < j <= |parts|
    ensures PartStart(parts, sepLen, i) + |parts[i]| + sepLen <= PartStart(parts, sepLen, j)
  {
    if i + 1 < j {
      PartStartAdds(parts, sepLen, i, j - 1);
    }
  }

  // ---------- fields ----------

  /** The end of the run of white space that starts at `i`. */
  function SkipSpace(s: string, i: nat): (j: nat)
    requires i <= |s|
    ensures i <= j <= |s|
    ensures AllSpace(s[i..j])
    ensures j < |s| ==> !IsSpace(s[j])
    decreases |s| - i
  {
    if i < |s| && IsSpace(s[i]) then
      var j := SkipSpace(s, i + 1);
      assert s[i..j] == [s[i]] + s[i + 1..j];
      j
    else i
  }

  /** The end of the word that starts at `i`. */
  function SkipWord(s: string, i: nat): (j: nat)
    requires i <= |s|
    ensures i <= j <= |s|
    ensures NoSpace(s[i..j])
    ensures j < |s| ==> IsSpace(s[j])
    decreases |s| - i
  {
    if i < |s| && !IsSpace(s[i]) then
      var j := SkipWord(s, i + 1);
      assert s[i..j] == [s[i]] + s[i + 1..j];
      j
    else i
  }

  datatype Span = Span(lo: nat, hi: nat)

  /** `sp` are the words of `s` from `i` on: white space in front of each and after the last one. */
  ghost predicate AreWords(s: string, i: nat, sp: seq<Span>)
    decreases |sp|
  {
    && i <= |s|
    && if sp == [] then AllSpace(s[i..]) else
         && i <= sp[0].lo < sp[0].hi <= |s|
         && AllSpace(s[i..sp[0].lo])
         && NoSpace(s[sp[0].lo..sp[0].hi])
         && (sp[0].hi < |s| ==> IsSpace(s[sp[0].hi]))
         && AreWords(s, sp[0].hi, sp[1..])
  }

  /** The words of `s` from offset `i` on, as spans. */
  function Spans(s: string, i: nat): (sp: seq<Span>)
    requires i <= |s|
    ensures AreWords(s, i, sp)
    decreases |s| - i
  {
    var lo := SkipSpace(s, i);
    if lo == |s| then
      assert s[i..lo] == s[i..];
      []
    else
      var hi := SkipWord(s, lo);
      var rest := Spans(s, hi);
      assert ([Span(lo, hi)] + rest)[1..] == rest;
      [Span(lo, hi)] + rest
  }

  /** Where the white space in front of word `k` begins. */
  function GapStart(i: nat, sp: seq<Span>, k: nat): nat
    requires k <= |sp|
  {
    if k == 0 then i else sp[k - 1].hi
  }

  lemma {:induction false} WordAt(s: string, i: nat, sp: seq<Span>, k: nat)
    requires AreWords(s, i, sp) && k < |sp|
    ensures i <= GapStart(i, sp, k) <= sp[k].lo < sp[k].hi <= |s|
    ensures k > 0 ==> GapStart(i, sp, k) < sp[k].lo
    ensures AllSpace(s[GapStart(i, sp, k)..sp[k].lo])
    ensures NoSpace(s[sp[k].lo..sp[k].hi])
    decreases k
  {
    if k > 0 {
      WordAt(s, sp[0].hi, sp[1..], k - 1);
      if k == 1 {
        assert s[sp[1].lo..sp[1].hi][0] == s[sp[1].lo];
      }
    }
  }

  function Slice(s: string, w: Span): string {
    if w.lo <= w.hi <= |s| then s[w.lo..w.hi] else ""
  }

  function Slices(s: string, sp: seq<Span>): (ws: seq<string>)
    ensures |ws| == |sp|
  {
    seq(|sp|, k requires 0 <= k < |sp| => Slice(s, sp[k]))
  }

  /** `strings.Fields`. */
  function Fields(s: string): (ws: seq<string>)
    ensures |ws| == |Spans(s, 0)|
  {
    Slices(s, Spans(s, 0))
  }

  lemma FieldIsWord(s: string, k: nat)
    requires k < |Fields(s)|
    ensures Fields(s)[k] != "" && NoSpace(Fields(s)[k])
  {
    WordAt(s, 0, Spans(s, 0), k);
  }

  lemma NonSpaceGapWord(gap: string, word: string, tail: string)
    requires AllSpace(gap) && NoSpace(word)
    ensures NonSpace(gap + (word + tail)) == word + NonSpace(tail)
  {
    NonSpaceAppend(gap, word + tail);
    NonSpaceAppend(word, tail);
    NonSpaceOfSpace(gap);
    NonSpaceOfWord(word);
  }

  lemma JoinWordFirst(word: string, rest: seq<string>)
    ensures Join([word] + rest, "") == word + Join(rest, "")
  {
    if rest == [] {
      assert [word] + rest == [word];
    } else {
      JoinCons(word, rest, "");
    }
  }

  lemma {:induction false} WordsConserve(s: string, i: nat, sp: seq<Span>)
    requires AreWords(s, i, sp)
    ensures NonSpace(s[i..]) == Join(Slices(s, sp), "")
    decreases |sp|
  {
    if sp == [] {
      NonSpaceOfSpace(s[i..]);
    } else {
      var lo, hi := sp[0].lo, sp[0].hi;
      assert NonSpace(s[i..]) == s[lo..hi] + NonSpace(s[hi..]) by {
        assert s[i..] == s[i..lo] + (s[lo..hi] + s[hi..]);
        NonSpaceGapWord(s[i..lo], s[lo..hi], s[hi..]);
      }
      assert Join(Slices(s, sp), "") == s[lo..hi] + Join(Slices(s, sp[1..]), "") by {
        assert Slices(s, sp) == [s[lo..hi]] + Slices(s, sp[1..]);
        JoinWordFirst(s[lo..hi], Slices(s, sp[1..]));
      }
      WordsConserve(s, hi, sp[1..]);
    }
  }

  /** `strings.Fields` loses nothing but white space. */
  lemma FieldsConserve(s: string)
    ensures NonSpace(s) == Join(Fields(s), "")
  {
    assert s[0..] == s;
    WordsConserve(s, 0, Spans(s, 0));
  }

  /** Putting white space between words changes nothing but the white space. */
  lemma {:induction false} NonSpaceJoin(ws: seq<string>, sep: string)
    requires AllSpace(sep)
    ensures NonSpace(Join(ws, sep)) == NonSpace(Join(ws, ""))
  {
    if |ws| > 1 {
      var front, last := ws[..|ws| - 1], ws[|ws| - 1];
      NonSpaceJoin(front, sep);
      NonSpaceAppend(Join(front, sep) + sep, last);
      NonSpaceAppend(Join(front, sep), sep);
      NonSpaceOfSpace(sep);
      NonSpaceAppend(Join(front, "") + "", last);
      assert Join(front, "") + "" == Join(front, "");
    }
  }

  // ---------- trimming ----------

  /** The end of `s` without its trailing characters out of `cut`. */
  function TrimEnd(s: string, cut: char -> bool): (n: nat)
    ensures n <= |s|
    ensures n > 0 ==> !cut(s[n - 1])
    ensures forall i :: n <= i < |s| ==> cut(s[i])
  {
    if s == "" || !cut(s[|s| - 1]) then |s| else TrimEnd(s[..|s| - 1], cut)
  }

  /** `strings.TrimRight` for a set of characters. */
  function TrimRight(s: string, cut: char -> bool): string {
    s[..TrimEnd(s, cut)]
  }

  /** `strings.TrimSpace`. */
  function TrimSpace(s: string): string {
    TrimRight(s[SkipSpace(s, 0)..], IsSpace)
  }

  /** `TrimSpace` cuts white space off both ends and nothing else. */
  lemma TrimSpaceCuts(s: string) returns (lo: nat, hi: nat)
    ensures lo <= hi <= |s| && TrimSpace(s) == s[lo..hi]
    ensures AllSpace(s[..lo]) && AllSpace(s[hi..])
    ensures TrimSpace(s) != "" ==> !IsSpace(s[lo]) && !IsSpace(s[hi - 1])
  {
    lo := SkipSpace(s, 0);
    assert s[0..lo] == s[..lo];
    hi := lo + TrimEnd(s[lo..], IsSpace);
  }

  lemma NonSpaceTrimSpace(s: string)
    ensures NonSpace(TrimSpace(s)) == NonSpace(s)
  {
    var lo, hi := TrimSpaceCuts(s);
    hide *;
    Cut(s, lo, hi);
    NonSpaceAppend(s[..lo] + s[lo..hi], s[hi..]);
    NonSpaceAppend(s[..lo], s[lo..hi]);
    NonSpaceOfSpace(s[..lo]);
    NonSpaceOfSpace(s[hi..]);
    assert "" + NonSpace(s[lo..hi]) + "" == NonSpace(s[lo..hi]);
  }

  // ---------- replacing ----------

  /** `strings.ReplaceAll` for a string to replace that is not empty. */
  function ReplaceAll(s: string, was: string, now: string): string
    requires was != ""
    decreases |s|
  {
    var i := Index(s, was);
    if i == -1 then s else s[..i] + now + ReplaceAll(s[i + |was|..], was, now)
  }

  lemma OccursLater(s: string, sub: string, k: nat)
    requires s != ""
    ensures OccursAt(s, sub, k + 1) <==> OccursAt(s[1..], sub, k)
  {
    if k + 1 + |sub| <= |s| {
      assert s[k + 1..k + 1 + |sub|] == s[1..][k..k + |sub|];
    }
  }

  lemma IndexLater(s: string, sub: string)
    requires s != "" && !OccursAt(s, sub, 0)
    ensures Index(s[1..], sub) == if Index(s, sub) == -1 then -1 else Index(s, sub) - 1
  {
    hide OccursAt, IndexFrom;
    var i := Index(s, sub);
    forall k: nat | i == -1 || k < i - 1 ensures !OccursAt(s[1..], sub, k) {
      OccursLater(s, sub, k);
    }
    if i != -1 {
      OccursLater(s, sub, i - 1);
      IndexIs(s[1..], sub, i - 1);
    }
  }

  lemma {:induction false} ReplaceAllHere(s: string, was: string, now: string)
    requires was != "" && OccursAt(s, was, 0)
    ensures ReplaceAll(s, was, now) == now + ReplaceAll(s[|was|..], was, now)
  {
    IndexIs(s, was, 0);
    hide OccursAt, Index, ReplaceAll;
    ReplaceAllAt(s, was, now, 0);
    assert s[..0] + now == now;
  }

  lemma {:induction false} ReplaceAllAt(s: string, was: string, now: string, i: nat)
    requires was != "" && Index(s, was) == i
    ensures i + |was| <= |s| && ReplaceAll(s, was, now) == s[..i] + now + ReplaceAll(s[i + |was|..], was, now)
  {
    hide OccursAt, Index;
    OccursWithin(s, was, i);
  }

  lemma {:induction false} ReplaceAllNone(s: string, was: string, now: string)
    requires was != "" && Index(s, was) == -1
    ensures ReplaceAll(s, was, now) == s
  {
    hide Index;
  }

  lemma {:induction false} ReplaceAllLater(s: string, was: string, now: string)
    requires was != "" && s != "" && !OccursAt(s, was, 0)
    ensures ReplaceAll(s, was, now) == [s[0]] + ReplaceAll(s[1..], was, now)
  {
    hide OccursAt, Index, ReplaceAll;
    IndexLater(s, was);
    var i := Index(s, was);
    assert s == [s[0]] + s[1..];
    if i == -1 {
      ReplaceAllNone(s, was, now);
      ReplaceAllNone(s[1..], was, now);
    } else {
      ReplaceAllAt(s, was, now, i);
      ReplaceAllAt(s[1..], was, now, i - 1);
      assert s[1..][i - 1 + |was|..] == s[i + |was|..];
      assert s[..i] == [s[0]] + s[1..][..i - 1];
      FrontMoves([s[0]], s[1..][..i - 1], now, ReplaceAll(s[i + |was|..], was, now));
    }
  }

  lemma OccursWithin(s: string, sub: string, i: nat)
    ensures OccursAt(s, sub, i) ==> i + |sub| <= |s|
  {
  }

  /** Replacing character by character: either the string stands here or this character stays. */
  lemma {:induction false} ReplaceAllStep(s: string, was: string, now: string)
    requires was != "" && s != ""
    ensures ReplaceAll(s, was, now) ==
      if OccursAt(s, was, 0) then now + ReplaceAll(s[|was|..], was, now)
      else [s[0]] + ReplaceAll(s[1..], was, now)
  {
    hide ReplaceAll;
    if OccursAt(s, was, 0) {
      ReplaceAllHere(s, was, now);
    } else {
      ReplaceAllLater(s, was, now);
    }
  }

  lemma FrontMoves(a: string, b: string, c: string, d: string)
    ensures a + b + c + d == a + (b + c + d)
  {
  }

  /** Splitting at one character leaves none of it. */
  lemma {:induction false} SplitHasNone(s: string, c: char, i: nat)
    requires i < |Split(s, [c])|
    ensures c !in Split(s, [c])[i]
    decreases |s|
  {
    var k := Index(s, [c]);
    var end := if k == -1 then |s| else k;
    forall j | 0 <= j < end ensures s[j] != c {
      assert !OccursAt(s, [c], j);
      assert s[j..j + 1] == [s[j]];
    }
    if i > 0 {
      SplitHasNone(s[k + 1..], c, i - 1);
    }
  }

  // ---------- lines ----------

  lemma SplitHead(part: string, c: char, rest: string)
    requires c !in part
    ensures Split(part + [c] + rest, [c]) == [part] + Split(rest, [c])
  {
    var s, n := part + [c] + rest, |part|;
    assert s[n..n + 1] == [c];
    forall k: nat | k < n ensures !OccursAt(s, [c], k) {
      assert s[k] == part[k];
      assert s[k..k + 1] == [s[k]];
    }
    IndexIs(s, [c], n);
    assert s[..n] == part && s[n + 1..] == rest;
  }

  lemma SplitWhole(s: string, c: char)
    requires c !in s
    ensures Split(s, [c]) == [s]
  {
    var i := Index(s, [c]);
    if i != -1 {
      FoundIn(s, c, i);
    }
  }

  lemma FoundIn(s: string, c: char, i: nat)
    requires OccursAt(s, [c], i)
    ensures c in s
  {
    assert s[i..i + 1] == [s[i]];
  }

  /** Splitting undoes joining when no part holds the separator. */
  lemma {:induction false} JoinSplit(parts: seq<string>, c: char)
    requires parts != [] && (forall i :: 0 <= i < |parts| ==> c !in parts[i])
    ensures Split(Join(parts, [c]), [c]) == parts
  {
    if |parts| == 1 {
      SplitWhole(parts[0], c);
    } else {
      assert parts == [parts[0]] + parts[1..];
      JoinCons(parts[0], parts[1..], [c]);
      JoinSplit(parts[1..], c);
      SplitHead(parts[0], c, Join(parts[1..], [c]));
    }
  }

  /** What `TrimSpace` returns is known by its ends. */
  lemma TrimSpaceIs(s: string, lo: nat, hi: nat)
    requires lo <= hi <= |s| && AllSpace(s[..lo]) && AllSpace(s[hi..])
    requires lo < hi ==> !IsSpace(s[lo]) && !IsSpace(s[hi - 1])
    ensures TrimSpace(s) == s[lo..hi]
  {
    var a, b := TrimSpaceCuts(s);
    hide SkipSpace, TrimEnd, TrimSpace;
    assert forall k :: 0 <= k < lo ==> IsSpace(s[..lo][k]) && s[..lo][k] == s[k];
    assert forall k :: hi <= k < |s| ==> IsSpace(s[hi..][k - hi]) && s[hi..][k - hi] == s[k];
    assert forall k :: 0 <= k < a ==> IsSpace(s[..a][k]) && s[..a][k] == s[k];
    assert forall k :: b <= k < |s| ==> IsSpace(s[b..][k - b]) && s[b..][k - b] == s[k];
  }
}
