// Splitting a changelog at its H2 headings, to count tokens section by section.
module Sections {

  // An H2 heading starts at p: the start of a line, two `#`, then a space or tab.
  predicate HeadingAt(content: string, p: int) {
    0 <= p && p + 2 < |content| && (p == 0 || content[p - 1] == '\n')
    && content[p] == '#' && content[p + 1] == '#' && (content[p + 2] == ' ' || content[p + 2] == '\t')
  }

  function Flatten(sections: seq<string>): string {
    if sections == [] then "" else Flatten(sections[..|sections| - 1]) + sections[|sections| - 1]
  }

  // Where section k starts.
  function Offset(sections: seq<string>, k: nat): nat
    requires k <= |sections|
  {
    |Flatten(sections[..k])|
  }

  // One of the sections ends at p.
  ghost predicate EndsAt(sections: seq<string>, p: int) {
    exists k :: 0 < k <= |sections| && Offset(sections, k) == p
  }

  // One of the sections after the first starts at p.
  ghost predicate StartsInside(sections: seq<string>, p: int) {
    exists k :: 0 < k < |sections| && Offset(sections, k) == p
  }

  // The sections are not empty, make up the content, and their boundaries are exactly the headings after position 0.
  ghost predicate SplitsAtHeadings(content: string, sections: seq<string>) {
    (forall k :: 0 <= k < |sections| ==> sections[k] != "")
    && Flatten(sections) == content
    && (content == "" <==> sections == [])
    && forall p :: p > 0 ==> (StartsInside(sections, p) <==> HeadingAt(content, p))
  }

  function Total(encode: string -> nat, sections: seq<string>): nat {
    if sections == [] then 0
    else Total(encode, sections[..|sections| - 1]) + encode(sections[|sections| - 1])
  }

  lemma PushFlatten(sections: seq<string>, s: string)
    ensures Flatten(sections + [s]) == Flatten(sections) + s
  {
    assert (sections + [s])[..|sections|] == sections;
  }

  lemma PushOffset(sections: seq<string>, s: string, k: nat)
    requires k <= |sections|
    ensures Offset(sections + [s], k) == Offset(sections, k)
  {
    assert (sections + [s])[..k] == sections[..k];
  }

  lemma WholeOffset(sections: seq<string>)
    ensures Offset(sections, |sections|) == |Flatten(sections)|
  {
    assert sections[..|sections|] == sections;
  }

  lemma PushStarts(sections: seq<string>, s: string, p: int)
    ensures StartsInside(sections + [s], p) <==> EndsAt(sections, p)
    ensures EndsAt(sections + [s], p) <==> EndsAt(sections, p) || p == |Flatten(sections)| + |s|
  {
    var more := sections + [s];
    PushFlatten(sections, s);
    WholeOffset(more);
    if EndsAt(sections, p) {
      var k :| 0 < k <= |sections| && Offset(sections, k) == p;
      PushOffset(sections, s, k);
    }
    if k: nat :| 0 < k < |more| && Offset(more, k) == p {
      PushOffset(sections, s, k);
    }
  }

  // The test on the text of a line is the heading test at its start.
  predicate IsHeadingLine(line: string) {
    |line| >= 3 && line[0] == '#' && line[1] == '#' && line[2] != '#' && (line[2] == ' ' || line[2] == '\t')
  }

  lemma LineHeading(content: string, lineStart: nat, i: nat)
    requires lineStart <= i <= |content| && (i == |content| || content[i] == '\n')
    requires lineStart == 0 || content[lineStart - 1] == '\n'
    requires forall j :: lineStart <= j < i ==> content[j] != '\n'
    ensures IsHeadingLine(content[lineStart..i]) <==> HeadingAt(content, lineStart)
    ensures forall p :: lineStart < p <= i ==> !HeadingAt(content, p)
  {
    var line := content[lineStart..i];
    assert forall j :: 0 <= j < |line| ==> line[j] == content[lineStart + j];
    forall p | lineStart < p <= i ensures !HeadingAt(content, p) {
      assert content[p - 1] != '\n';
    }
  }

  // The headings before `scanned` are the starts of the sections so far and of the one that is open.
  ghost predicate Scanned(content: string, sections: seq<string>, sectionStart: int, scanned: int) {
    0 <= sectionStart < |content|
    && (forall k :: 0 <= k < |sections| ==> sections[k] != "")
    && Flatten(sections) == content[..sectionStart]
    && forall p :: p > 0 ==> (EndsAt(sections, p) <==> p < scanned && HeadingAt(content, p))
  }

  lemma PastLine(content: string, sections: seq<string>, sectionStart: int, lineStart: int, next: int)
    requires Scanned(content, sections, sectionStart, lineStart) && 0 <= lineStart < next
    requires lineStart > 0 ==> !HeadingAt(content, lineStart)
    requires forall p :: lineStart < p < next ==> !HeadingAt(content, p)
    ensures Scanned(content, sections, sectionStart, next)
  {
  }

  lemma PastHeading(content: string, sections: seq<string>, sectionStart: int, lineStart: int, next: int)
    requires Scanned(content, sections, sectionStart, lineStart) && sectionStart < lineStart < next
    requires HeadingAt(content, lineStart)
    requires forall p :: lineStart < p < next ==> !HeadingAt(content, p)
    ensures Scanned(content, sections + [content[sectionStart..lineStart]], lineStart, next)
  {
    var section := content[sectionStart..lineStart];
    var more := sections + [section];
    PushFlatten(sections, section);
    forall p | p > 0 ensures EndsAt(more, p) <==> p < next && HeadingAt(content, p) {
      PushStarts(sections, section, p);
    }
  }

  lemma AllScanned(content: string, sections: seq<string>, sectionStart: int)
    requires Scanned(content, sections, sectionStart, |content| + 1)
    ensures SplitsAtHeadings(content, sections + [content[sectionStart..]])
  {
    var rest := content[sectionStart..];
    PushFlatten(sections, rest);
    forall p | p > 0 ensures StartsInside(sections + [rest], p) <==> HeadingAt(content, p) {
      PushStarts(sections, rest, p);
    }
  }

  method SplitAtHeadings(content: string) returns (sections: seq<string>)
    requires content != ""
    ensures SplitsAtHeadings(content, sections)
  {
    sections := [];
    var lineStart, sectionStart := 0, 0;
    for i := 0 to |content| + 1
      invariant 0 <= sectionStart <= lineStart <= i
      invariant sectionStart == lineStart ==> lineStart == 0
      invariant lineStart <= |content| ==> (lineStart == 0 || content[lineStart - 1] == '\n')
      invariant forall j :: lineStart <= j < i && j < |content| ==> content[j] != '\n'
      invariant i == |content| + 1 ==> lineStart == i
      invariant Scanned(content, sections, sectionStart, lineStart)
    {
      if i == |content| || content[i] == '\n' {
        LineHeading(content, lineStart, i);
        var line := content[lineStart..i];
        if IsHeadingLine(line) {
          if lineStart > sectionStart {
            PastHeading(content, sections, sectionStart, lineStart, i + 1);
            sections := sections + [content[sectionStart..lineStart]];
          } else {
            PastLine(content, sections, sectionStart, lineStart, i + 1);
          }
          sectionStart := lineStart;
        } else {
          PastLine(content, sections, sectionStart, lineStart, i + 1);
        }
        lineStart := i + 1;
      }
    }
    AllScanned(content, sections, sectionStart);
    sections := sections + [content[sectionStart..]];
  }

  // The total is a sum.
  lemma {:induction false} TotalAdds(encode: string -> nat, a: seq<string>, b: seq<string>)
    ensures Total(encode, a + b) == Total(encode, a) + Total(encode, b) && Total(encode, []) == 0
    ensures forall s :: Total(encode, [s]) == encode(s)
    decreases |b|
  {
    forall s ensures Total(encode, [s]) == encode(s) {
      assert [s][..0] == [];
    }
    if b == [] {
      assert a + b == a;
    } else {
      assert (a + b)[..|a + b| - 1] == a + b[..|b| - 1];
      TotalAdds(encode, a, b[..|b| - 1]);
    }
  }

  // The total over the one split there is.
  method ExactTokensBySection(encode: string -> nat, content: string) returns (total: nat)
    ensures exists sections :: SplitsAtHeadings(content, sections)
    ensures forall sections :: SplitsAtHeadings(content, sections) ==> total == Total(encode, sections)
  {
    var parts: seq<string> := [];
    total := 0;
    if content != "" {
      parts := SplitAtHeadings(content);
      for i := 0 to |parts|
        invariant total == Total(encode, parts[..i])
      {
        assert parts[..i + 1][..i] == parts[..i];
        total := total + encode(parts[i]);
      }
      assert parts[..|parts|] == parts;
    }
    assert SplitsAtHeadings(content, parts);
    forall sections | SplitsAtHeadings(content, sections) ensures sections == parts {
      SectionsDetermined(content, sections, parts);
    }
  }

  // ---------- The split is determined ----------

  ghost predicate SplitsAt(content: string, sections: seq<string>, boundary: int -> bool) {
    (forall k :: 0 <= k < |sections| ==> sections[k] != "")
    && Flatten(sections) == content
    && forall p :: p > 0 ==> (StartsInside(sections, p) <==> boundary(p) && p < |content|)
  }

  lemma {:induction false} OffsetsIncrease(sections: seq<string>, j: nat, k: nat)
    requires j < k <= |sections| && forall i :: 0 <= i < |sections| ==> sections[i] != ""
    ensures Offset(sections, j) < Offset(sections, k)
    decreases k
  {
    assert sections[..k][..k - 1] == sections[..k - 1];
    if j < k - 1 {
      OffsetsIncrease(sections, j, k - 1);
    }
  }

  lemma LastStart(content: string, sections: seq<string>, boundary: int -> bool, p: int)
    requires SplitsAt(content, sections, boundary) && sections != []
    requires p > 0 && boundary(p) && p < |content|
    ensures p <= Offset(sections, |sections| - 1)
  {
    assert StartsInside(sections, p);
    var k :| 0 < k < |sections| && Offset(sections, k) == p;
    if k < |sections| - 1 {
      OffsetsIncrease(sections, k, |sections| - 1);
    }
  }

  lemma LastIsBoundary(content: string, sections: seq<string>, boundary: int -> bool)
    requires SplitsAt(content, sections, boundary) && |sections| > 1
    ensures var last := Offset(sections, |sections| - 1);
            0 < last < |content| && boundary(last)
  {
    var n := |sections| - 1;
    OffsetsIncrease(sections, 0, n);
    assert StartsInside(sections, Offset(sections, n));
  }

  // The front sections start where they started.
  lemma FrontOffset(sections: seq<string>, k: nat)
    requires k < |sections| - 1 && forall i :: 0 <= i < |sections| ==> sections[i] != ""
    ensures Offset(sections[..|sections| - 1], k) == Offset(sections, k) < Offset(sections, |sections| - 1)
  {
    assert sections[..|sections| - 1][..k] == sections[..k];
    OffsetsIncrease(sections, k, |sections| - 1);
  }

  lemma FrontStarts(sections: seq<string>, p: int)
    requires sections != [] && forall i :: 0 <= i < |sections| ==> sections[i] != ""
    requires p > 0
    ensures var n := |sections| - 1;
            StartsInside(sections[..n], p) <==> StartsInside(sections, p) && p < Offset(sections, n)
  {
    var n := |sections| - 1;
    var front := sections[..n];
    if StartsInside(front, p) {
      var k :| 0 < k < |front| && Offset(front, k) == p;
      FrontOffset(sections, k);
    }
    if StartsInside(sections, p) && p < Offset(sections, n) {
      var k :| 0 < k < |sections| && Offset(sections, k) == p;
      FrontOffset(sections, k);
    }
  }

  lemma DropLast(content: string, sections: seq<string>, boundary: int -> bool)
    requires SplitsAt(content, sections, boundary) && sections != []
    ensures var n := |sections| - 1;
            var last := Offset(sections, n);
            last <= |content| && sections[n] == content[last..] && SplitsAt(content[..last], sections[..n], boundary)
  {
    var n := |sections| - 1;
    var last, front := Offset(sections, n), sections[..n];
    assert content == Flatten(front) + sections[n];
    assert Flatten(front) == content[..last];
    forall p | p > 0 ensures StartsInside(front, p) <==> boundary(p) && p < last {
      FrontStarts(sections, p);
    }
  }

  lemma EmptySplit(content: string, sections: seq<string>, boundary: int -> bool)
    requires SplitsAt(content, sections, boundary)
    ensures sections == [] <==> content == ""
  {
    if sections != [] {
      assert sections[|sections| - 1] != "";
    }
  }

  lemma {:induction false} SplitUnique(content: string, a: seq<string>, b: seq<string>, boundary: int -> bool)
    requires SplitsAt(content, a, boundary) && SplitsAt(content, b, boundary)
    ensures a == b
    decreases |a|
  {
    if a == [] || b == [] {
      EmptySplit(content, a, boundary);
      EmptySplit(content, b, boundary);
    } else {
      var x, y := Offset(a, |a| - 1), Offset(b, |b| - 1);
      if x < y {
        LastIsBoundary(content, b, boundary);
        LastStart(content, a, boundary, y);
      } else if y < x {
        LastIsBoundary(content, a, boundary);
        LastStart(content, b, boundary, x);
      }
      DropLast(content, a, boundary);
      DropLast(content, b, boundary);
      SplitUnique(content[..x], a[..|a| - 1], b[..|b| - 1], boundary);
      assert a == a[..|a| - 1] + [a[|a| - 1]] && b == b[..|b| - 1] + [b[|b| - 1]];
    }
  }

  // Only one list of sections splits a content at its headings.
  lemma SectionsDetermined(content: string, a: seq<string>, b: seq<string>)
    requires SplitsAtHeadings(content, a) && SplitsAtHeadings(content, b)
    ensures a == b
  {
    var boundary := (p: int) => HeadingAt(content, p);
    SplitUnique(content, a, b, boundary);
  }
}
