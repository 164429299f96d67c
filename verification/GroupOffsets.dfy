module GroupOffsets {
  /**
   When a group of paragraphs is what stands in its range of the text: exactly when it skips no
   empty paragraph, or when all it has behind the first one is a lone line break that ends the text.
   */

  import opened GoStrings
  import opened ChunkRuns
  import opened ParagraphGroups

  /** The paragraphs `[f, l]` have no empty one between them. */
  ghost predicate NoEmptyPara(ps: seq<string>, f: nat, l: nat) {
    forall i :: f <= i <= l && i < |ps| ==> ps[i] != ""
  }

  ghost predicate OnlyEmpty(ps: seq<string>, e: nat, l: nat) {
    forall i :: e <= i < l && i < |ps| ==> ps[i] == ""
  }

  /** Behind its first empty paragraph the group has one line break, and nothing follows. */
  ghost predicate EndsInLoneBreak(ps: seq<string>, f: nat, l: nat) {
    && l + 1 == |ps| && ps[l] == "\n"
    && exists e: nat :: f < e < l && NoEmptyPara(ps, f, e - 1) && OnlyEmpty(ps, e, l)
  }

  /** The group of the paragraphs `[f, l]`, as the chunker makes it. */
  ghost predicate IsGroup(ps: seq<string>, f: nat, l: nat, c: RawChunk) {
    && f <= l < |ps| && ps[f] != "" && ps[l] != ""
    && c == RawChunk(GroupText(ps, f, l + 1), PartStart(ps, 2, f), PartStart(ps, 2, f) + |GroupText(ps, f, l + 1)|)
  }

  lemma GroupOkIsGroup(ps: seq<string>, opts: Options, k: nat, c: RawChunk, f: nat, l: nat)
    requires GroupOk(ps, opts, k, c, f, l)
    ensures IsGroup(ps, f, l, c)
  {
    hide GroupText, PartStart, NextPara, Limit;
  }

  // ---------- line breaks at the beginning of a paragraph ----------

  predicate StartsWithBreaks(p: string) {
    p != "" && p[0] == '\n' && (|p| > 1 ==> p[1] == '\n')
  }

  /** A paragraph begins with nothing but line breaks only as a lone one at the end of the text. */
  ghost predicate BreaksComeLast(ps: seq<string>) {
    forall i :: 0 <= i < |ps| && StartsWithBreaks(ps[i]) ==> ps[i] == "\n" && i + 1 == |ps|
  }

  lemma {:induction false} SplitBreaks(s: string, i: nat)
    requires i < |Split(s, SEP)| && StartsWithBreaks(Split(s, SEP)[i])
    ensures Split(s, SEP)[i] == "\n" && i + 1 == |Split(s, SEP)|
    decreases |s|
  {
    var k := Index(s, SEP);
    if k == -1 {
      BreaksAtFront(s);
    } else if i > 0 {
      assert OccursAt(s, SEP, k);
      SplitBreaks(s[k + 2..], i - 1);
    } else {
      NoBreaksAtFront(s, k);
    }
  }

  lemma NoBreaksAtFront(s: string, k: nat)
    requires Index(s, SEP) == k
    ensures !StartsWithBreaks(s[..k])
  {
    BreaksAtFront(s);
    assert OccursAt(s, SEP, k);
    assert s[k..k + 2][0] == '\n';
    assert k > 1 ==> s[..k][1] == s[1];
    hide Index;
  }

  lemma BreaksAtFront(s: string)
    ensures |s| > 1 && s[0] == s[1] == '\n' ==> Index(s, SEP) == 0
  {
    if |s| > 1 && s[0] == s[1] == '\n' {
      assert s[0..2] == SEP;
      IndexIs(s, SEP, 0);
    }
  }

  lemma SplitBreaksComeLast(s: string)
    ensures BreaksComeLast(Split(s, SEP))
  {
    forall i | 0 <= i < |Split(s, SEP)| && StartsWithBreaks(Split(s, SEP)[i])
      ensures Split(s, SEP)[i] == "\n" && i + 1 == |Split(s, SEP)|
    {
      SplitBreaks(s, i);
    }
  }

  // ---------- groups without an empty paragraph ----------

  lemma GroupIsJoin(ps: seq<string>, f: nat, e: nat)
    requires f <= e <= |ps| && "" !in ps[f..e]
    ensures GroupText(ps, f, e) == Join(ps[f..e], SEP)
  {
    NonEmptyIsAll(ps[f..e]);
  }

  lemma StandsAt(text: string, a: nat, run: string, c: RawChunk)
    requires c == RawChunk(run, a, a + |run|)
    ensures Exact(text, 0, c) <==> a + |run| <= |text| && text[a..a + |run|] == run
  {
  }

  lemma NoEmptyIsExact(text: string, ps: seq<string>, f: nat, l: nat, c: RawChunk)
    requires Join(ps, SEP) == text && IsGroup(ps, f, l, c) && NoEmptyPara(ps, f, l)
    ensures Exact(text, 0, c)
  {
    assert "" !in ps[f..l + 1];
    hide NoEmptyPara, Exact, Join, PartStart, GroupText;
    GroupIsJoin(ps, f, l + 1);
    JoinAt(ps, f, l + 1);
    StandsAt(text, PartStart(ps, 2, f), Join(ps[f..l + 1], SEP), c);
  }

  // ---------- groups with one ----------

  lemma {:induction false} NonEmptyAppend(a: seq<string>, b: seq<string>)
    ensures NonEmpty(a + b) == NonEmpty(a) + NonEmpty(b)
  {
    if b == [] {
      assert a + b == a;
    } else {
      hide *;
      var front, last := b[..|b| - 1], b[|b| - 1];
      NonEmptyAppend(a, front);
      NonEmptySnoc(a + front, last);
      NonEmptySnoc(front, last);
      PartsAssoc(a, front, [last]);
      assert b == front + [last];
      PartsAssoc(NonEmpty(a), NonEmpty(front), if last == "" then [] else [last]);
    }
  }

  lemma PartsAssoc(a: seq<string>, b: seq<string>, c: seq<string>)
    ensures (a + b) + c == a + (b + c)
  {
  }

  lemma {:induction false} NonEmptyOfEmpty(a: seq<string>)
    requires forall i :: 0 <= i < |a| ==> a[i] == ""
    ensures NonEmpty(a) == []
  {
    if a != [] {
      NonEmptyOfEmpty(a[..|a| - 1]);
    }
  }

  /** `e` is the first empty paragraph of the group, `q` the first behind it that is not. */
  ghost predicate Gap(ps: seq<string>, f: nat, e: nat, q: nat, l: nat) {
    f < e < q <= l < |ps| && NoEmptyPara(ps, f, e - 1) && OnlyEmpty(ps, e, q) && ps[q] != ""
  }

  lemma GapParts(ps: seq<string>, f: nat, e: nat, q: nat, l: nat)
    requires Gap(ps, f, e, q, l)
    ensures NonEmpty(ps[f..l + 1]) == ps[f..e] + NonEmpty(ps[q..l + 1])
    ensures NonEmpty(ps[q..l + 1]) != [] && NonEmpty(ps[q..l + 1])[0] == ps[q]
  {
    var a, b, d := ps[f..e], ps[e..q], ps[q..l + 1];
    GapSlices(ps, f, e, q, l);
    hide *;
    NonEmptyIsAll(a);
    NonEmptyOfEmpty(b);
    NonEmptyAppend(a, b + d);
    NonEmptyAppend(b, d);
    NonEmptyAppend([ps[q]], ps[q + 1..l + 1]);
    NonEmptyIsAll([ps[q]]);
    assert [] + NonEmpty(d) == NonEmpty(d);
  }

  lemma GapSlices(ps: seq<string>, f: nat, e: nat, q: nat, l: nat)
    requires Gap(ps, f, e, q, l)
    ensures f <= e < q <= l < |ps|
    ensures "" !in ps[f..e] && (forall i :: 0 <= i < q - e ==> ps[e..q][i] == "") && ps[q] != ""
    ensures ps[f..l + 1] == ps[f..e] + (ps[e..q] + ps[q..l + 1])
    ensures ps[q..l + 1] == [ps[q]] + ps[q + 1..l + 1]
  {
  }

  lemma {:induction false} FirstPart(parts: seq<string>, sep: string)
    requires parts != []
    ensures parts[0] <= Join(parts, sep)
  {
    if |parts| > 1 {
      assert parts == [parts[0]] + parts[1..];
      JoinCons(parts[0], parts[1..], sep);
    }
  }

  /** The group: its paragraphs before the gap, one separator, and the paragraphs behind it. */
  lemma GroupAcrossGap(ps: seq<string>, f: nat, e: nat, q: nat, l: nat) returns (rest: string)
    requires Gap(ps, f, e, q, l)
    ensures GroupText(ps, f, l + 1) == Join(ps[f..e], SEP) + SEP + rest
    ensures ps[q] <= rest && (q == l ==> rest == ps[q])
  {
    var d := NonEmpty(ps[q..l + 1]);
    GapParts(ps, f, e, q, l);
    rest := Join(d, SEP);
    assert ps[f..e] != [];
    if q == l {
      assert ps[q..l + 1] == [ps[q]];
      NonEmptyIsAll([ps[q]]);
    }
    hide NonEmpty;
    JoinAppend(ps[f..e], d, SEP);
    FirstPart(d, SEP);
  }

  /** The text: the same paragraphs, and two separators at least. */
  lemma TextAcrossGap(text: string, ps: seq<string>, f: nat, e: nat, q: nat, l: nat)
    requires Join(ps, SEP) == text && Gap(ps, f, e, q, l)
    ensures var a, run := PartStart(ps, 2, f), Join(ps[f..e], SEP) + SEP + SEP;
            a + |run| <= |text| && text[a..a + |run|] == run
  {
    assert ps[e] == "";
    assert ps[f..e + 2] == ps[f..e] + [""] + [ps[e + 1]];
    hide PartStart, Join, NoEmptyPara, OnlyEmpty;
    TwoMore(ps[f..e], ps[e + 1]);
    JoinAt(ps, f, e + 2);
    var front, whole, a := Join(ps[f..e], SEP) + SEP + SEP, Join(ps[f..e + 2], SEP), PartStart(ps, 2, f);
    assert text[a..a + |whole|] == front + ps[e + 1];
    FrontOf(text, a, front, ps[e + 1]);
  }

  lemma TwoMore(parts: seq<string>, last: string)
    requires parts != []
    ensures Join(parts + [""] + [last], SEP) == Join(parts, SEP) + SEP + SEP + last
  {
    hide Join;
    JoinSnoc(parts, "", SEP);
    JoinSnoc(parts + [""], last, SEP);
    var front := Join(parts, SEP) + SEP;
    assert front + "" == front;
  }

  lemma FrontOf(text: string, a: nat, front: string, tail: string)
    requires a + |front + tail| <= |text| && text[a..a + |front + tail|] == front + tail
    ensures text[a..a + |front|] == front
  {
    assert text[a..a + |front|] == text[a..a + |front + tail|][..|front|];
  }

  lemma CharAt(text: string, a: nat, run: string, i: nat)
    requires a + |run| <= |text| && text[a..a + |run|] == run && i < |run|
    ensures text[a + i] == run[i]
  {
    assert text[a..a + |run|][i] == text[a + i];
  }

  /** Which rest can stand where the text has a separator. */
  lemma RestAtSeparator(text: string, a: nat, front: string, rest: string, first: string, c: RawChunk)
    requires a + |front| + 4 <= |text| && text[a..a + |front| + 4] == front + SEP + SEP
    requires c == RawChunk(front + SEP + rest, a, a + |front + SEP + rest|)
    requires first <= rest && first != ""
    ensures Exact(text, 0, c) ==> StartsWithBreaks(first)
    ensures rest == "\n" ==> Exact(text, 0, c)
  {
    var n, run, stands := |front|, front + SEP + rest, front + SEP + SEP;
    assert text[a..a + |stands|] == stands;
    assert stands[n + 2] == '\n' && stands[n + 3] == '\n';
    assert run[n + 2] == first[0] && (|first| > 1 ==> run[n + 3] == first[1]);
    CharAt(text, a, stands, n + 2);
    CharAt(text, a, stands, n + 3);
    StandsAt(text, a, run, c);
    hide Exact;
    if Exact(text, 0, c) {
      CharAt(text, a, run, n + 2);
      if |first| > 1 {
        CharAt(text, a, run, n + 3);
      }
    }
    if rest == "\n" {
      assert run == stands[..n + 3];
      forall i | 0 <= i < |run| ensures text[a..a + |run|][i] == run[i] {
        CharAt(text, a, stands, i);
      }
      assert text[a..a + |run|] == run;
    }
  }

  lemma GapIsExact(text: string, ps: seq<string>, f: nat, e: nat, q: nat, l: nat, c: RawChunk)
    requires Join(ps, SEP) == text && BreaksComeLast(ps) && IsGroup(ps, f, l, c) && Gap(ps, f, e, q, l)
    ensures Exact(text, 0, c) <==> q == l && l + 1 == |ps| && ps[l] == "\n"
  {
    hide GroupText, Join, PartStart, Exact, NoEmptyPara, OnlyEmpty;
    var rest := GroupAcrossGap(ps, f, e, q, l);
    TextAcrossGap(text, ps, f, e, q, l);
    RestAtSeparator(text, PartStart(ps, 2, f), Join(ps[f..e], SEP), rest, ps[q], c);
  }

  lemma FirstEmpty(ps: seq<string>, f: nat, l: nat) returns (e: nat)
    requires f <= l < |ps| && ps[f] != "" && ps[l] != "" && !NoEmptyPara(ps, f, l)
    ensures f < e < l && ps[e] == "" && NoEmptyPara(ps, f, e - 1)
  {
    e := f + 1;
    while ps[e] != ""
      invariant f < e <= l && NoEmptyPara(ps, f, e - 1)
      decreases l - e
    {
      e := e + 1;
    }
  }

  lemma {:induction false} OnlyEmptyUpTo(ps: seq<string>, i: nat, l: nat)
    requires i <= l < |ps| && ps[l] != ""
    ensures NextPara(ps, i) <= l && OnlyEmpty(ps, i, NextPara(ps, i))
    decreases l - i
  {
    if ps[i] == "" {
      OnlyEmptyUpTo(ps, i + 1, l);
    }
  }

  /** A group is what stands in its range exactly under this condition. */
  lemma GroupExact(text: string, ps: seq<string>, f: nat, l: nat, c: RawChunk)
    requires Join(ps, SEP) == text && BreaksComeLast(ps) && IsGroup(ps, f, l, c)
    ensures Exact(text, 0, c) <==> NoEmptyPara(ps, f, l) || EndsInLoneBreak(ps, f, l)
  {
    hide Exact, GroupText, PartStart, Join, BreaksComeLast;
    if NoEmptyPara(ps, f, l) {
      NoEmptyIsExact(text, ps, f, l, c);
    } else {
      var e := FirstEmpty(ps, f, l);
      OnlyEmptyUpTo(ps, e, l);
      var q := NextPara(ps, e);
      GapIsExact(text, ps, f, e, q, l, c);
      if EndsInLoneBreak(ps, f, l) {
        var e' :| f < e' < l && NoEmptyPara(ps, f, e' - 1) && OnlyEmpty(ps, e', l);
        assert ps[e'] == "";
      }
    }
  }
}
