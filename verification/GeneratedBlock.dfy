/** The generated block in a Gradle file, plugins/with-android-release.js:43-53. */
module GeneratedBlock {
  import opened Wrappers

  const END_PREFIX := "// End "

  function TrimStart(s: string): string {
    if s != "" && White(s[0]) then TrimStart(s[1..]) else s
  }

  function TrimEnd(s: string): (t: string)
    ensures t <= s
    ensures t != "" ==> !White(t[|t| - 1])
    ensures forall i :: |t| <= i < |s| ==> White(s[i])
  {
    if s != "" && White(s[|s| - 1]) then TrimEnd(s[..|s| - 1]) else s
  }

  function Trim(s: string): string {
    TrimEnd(TrimStart(s))
  }

  predicate AllWhite(s: string) {
    forall i :: 0 <= i < |s| ==> White(s[i])
  }

  lemma {:induction false} TrimStartIsRest(s: string) returns (lead: string)
    ensures s == lead + TrimStart(s) && AllWhite(lead)
    ensures TrimStart(s) != "" ==> !White(TrimStart(s)[0])
  {
    if s != "" && White(s[0]) {
      var rest := TrimStartIsRest(s[1..]);
      lead := [s[0]] + rest;
      HeadAndTail(s);
      ConcatAssociative([s[0]], rest, TrimStart(s));
    } else {
      lead := "";
    }
  }

  /** trim takes the white space off both ends and nothing else. */
  lemma TrimIsTheMiddle(s: string) returns (lead: string, trail: string)
    ensures s == lead + Trim(s) + trail && AllWhite(lead) && AllWhite(trail)
    ensures Trim(s) != "" ==> !White(Trim(s)[0]) && !White(Trim(s)[|Trim(s)| - 1])
  {
    lead := TrimStartIsRest(s);
    var rest := TrimStart(s);
    trail := rest[|Trim(s)|..];
    assert rest == Trim(s) + trail;
    ConcatAssociative(lead, Trim(s), trail);
  }

  /** The block of a marker written as a line comment: the text, trimmed, and the end marker of that name. */
  lemma BlockOfComment(name: string, generated: string)
    ensures Block("// " + name, generated) == Trim(generated) + "\n" + ("// End " + name)
  {
    assert ("// " + name)[3..] == name;
  }

  predicate OccursAt(s: string, pattern: string, i: nat) {
    i + |pattern| <= |s| && s[i..i + |pattern|] == pattern
  }

  function IndexOf(s: string, pattern: string, from: nat): (i: int)
    requires from <= |s|
    ensures i == -1 || (from <= i <= |s| && OccursAt(s, pattern, i))
    ensures forall k :: from <= k < (if i == -1 then |s| + 1 else i) ==> !OccursAt(s, pattern, k)
    decreases |s| - from
  {
    if OccursAt(s, pattern, from) then from
    else if from == |s| then -1 else IndexOf(s, pattern, from + 1)
  }

  /** slice(3) */
  function EndMarker(marker: string): string {
    END_PREFIX + if |marker| < 3 then "" else marker[3..]
  }

  function Block(marker: string, generated: string): string {
    Trim(generated) + "\n" + EndMarker(marker)
  }

  /** None: the marker is there and its end marker is not. */
  function Update(contents: string, marker: string, generated: string): Option<string> {
    var start := IndexOf(contents, marker, 0);
    if start == -1 then Some(TrimEnd(contents) + "\n\n" + Block(marker, generated) + "\n")
    else
      var end := IndexOf(contents, EndMarker(marker), start);
      if end == -1 then None
      else Some(contents[..start] + Block(marker, generated) + contents[end + |EndMarker(marker)|..])
  }

  /** A generated text the next update can find again: it starts with the marker, and the end
      marker after it is the first one. */
  ghost predicate Findable(marker: string, generated: string) {
    '\n' !in marker && marker <= Trim(generated) &&
    forall i: nat :: !OccursAt(Trim(generated), EndMarker(marker), i)
  }

  lemma FirstIndex(s: string, pattern: string, from: nat, i: nat)
    requires from <= i && OccursAt(s, pattern, i)
    requires forall k :: from <= k < i ==> !OccursAt(s, pattern, k)
    ensures IndexOf(s, pattern, from) == i
  {}

  lemma OccurrenceReads(s: string, pattern: string, i: nat, j: nat)
    requires OccursAt(s, pattern, i) && j < |pattern|
    ensures s[i + j] in pattern
  {
    assert s[i + j] == s[i..i + |pattern|][j];
  }

  /** An occurrence of a one-line pattern before a line break lies before it. */
  lemma OccurrenceInLine(front: string, back: string, pattern: string, i: nat)
    requires '\n' !in pattern && i <= |front|
    ensures OccursAt(front + "\n" + back, pattern, i) <==> OccursAt(front, pattern, i)
  {
    var s := front + "\n" + back;
    if OccursAt(s, pattern, i) {
      if i + |pattern| > |front| { OccurrenceReads(s, pattern, i, |front| - i); }
      assert s[i..i + |pattern|] == front[i..i + |pattern|];
    }
    if OccursAt(front, pattern, i) { assert s[i..i + |pattern|] == front[i..i + |pattern|]; }
  }

  lemma Shifted(front: string, s: string, pattern: string, i: nat)
    ensures OccursAt(front + s, pattern, |front| + i) <==> OccursAt(s, pattern, i)
  {
    if i + |pattern| <= |s| {
      assert (front + s)[|front| + i..|front| + i + |pattern|] == s[i..i + |pattern|];
    }
  }

  /** In front + block + back the block's own end marker is the first one after its start. */
  lemma EndIsFound(front: string, marker: string, generated: string, back: string)
    requires Findable(marker, generated)
    ensures IndexOf(front + Block(marker, generated) + back, EndMarker(marker), |front|) ==
            |front| + |Trim(generated)| + 1
  {
    var g, e := Trim(generated), EndMarker(marker);
    var s := front + Block(marker, generated) + back;
    assert s == front + (g + "\n" + (e + back));
    var end := |front| + |g| + 1;
    assert s[end..end + |e|] == e;
    forall k | |front| <= k < end ensures !OccursAt(s, e, k) {
      Shifted(front, g + "\n" + (e + back), e, k - |front|);
      OccurrenceInLine(g, e + back, e, k - |front|);
    }
    FirstIndex(s, e, |front|, end);
  }

  /** A block that is found where it was put is replaced whole and alone. */
  lemma ReplaceBlock(front: string, marker: string, written: string, generated: string, back: string)
    requires Findable(marker, written)
    requires IndexOf(front + Block(marker, written) + back, marker, 0) == |front|
    ensures Update(front + Block(marker, written) + back, marker, generated) ==
            Some(front + Block(marker, generated) + back)
  {
    var s := front + Block(marker, written) + back;
    EndIsFound(front, marker, written, back);
    assert s[..|front|] == front;
    assert s[|front| + |Block(marker, written)|..] == back;
  }

  lemma MarkerOpensBlock(front: string, marker: string, written: string, back: string)
    requires Findable(marker, written)
    ensures OccursAt(front + Block(marker, written) + back, marker, |front|)
  {
    var s := front + Block(marker, written) + back;
    assert s[|front|..|front| + |marker|] == Trim(written)[..|marker|];
  }

  lemma PrefixOccurrence(s: string, front: string, pattern: string, k: nat)
    requires front <= s && OccursAt(front, pattern, k)
    ensures OccursAt(s, pattern, k)
  {
    assert s[k..k + |pattern|] == front[k..k + |pattern|];
  }

  lemma NotAtLineBreak(s: string, pattern: string, k: nat)
    requires pattern != "" && '\n' !in pattern && k < |s| && s[k] == '\n'
    ensures !OccursAt(s, pattern, k)
  {
    if OccursAt(s, pattern, k) { OccurrenceReads(s, pattern, k, 0); }
  }

  /** Text without the marker and a blank line after it hold no marker. */
  lemma NothingBeforeBlock(contents: string, t: string, rest: string, marker: string, k: nat)
    requires t <= contents && marker != "" && '\n' !in marker && k < |t| + 2
    requires IndexOf(contents, marker, 0) == -1
    ensures !OccursAt(t + "\n" + ("\n" + rest), marker, k)
  {
    var s := t + "\n" + ("\n" + rest);
    if k < |t| {
      OccurrenceInLine(t, "\n" + rest, marker, k);
      if OccursAt(t, marker, k) { PrefixOccurrence(contents, t, marker, k); }
    } else {
      NotAtLineBreak(s, marker, k);
    }
  }

  lemma Regroup(t: string, block: string)
    ensures t + "\n\n" + block + "\n" == t + "\n" + ("\n" + (block + "\n"))
  {}

  lemma AppendedMarkerIsFound(contents: string, marker: string, written: string)
    requires Findable(marker, written) && IndexOf(contents, marker, 0) == -1
    ensures var front := TrimEnd(contents) + "\n\n";
            IndexOf(front + Block(marker, written) + "\n", marker, 0) == |front|
  {
    var t, rest := TrimEnd(contents), Block(marker, written) + "\n";
    var s := t + "\n\n" + Block(marker, written) + "\n";
    MarkerOpensBlock(t + "\n\n", marker, written, "\n");
    Regroup(t, Block(marker, written));
    assert marker != "" by { assert !OccursAt(contents, marker, 0); }
    forall k: nat | k < |t| + 2 ensures !OccursAt(s, marker, k) {
      NothingBeforeBlock(contents, t, rest, marker, k);
    }
    FirstIndex(s, marker, 0, |t| + 2);
  }

  lemma OccurrenceCopied(s: string, t: string, pattern: string, k: nat)
    requires OccursAt(s, pattern, k) && k + |pattern| <= |t|
    requires forall i :: k <= i < k + |pattern| ==> t[i] == s[i]
    ensures OccursAt(t, pattern, k)
  {
    assert t[k..k + |pattern|] == s[k..k + |pattern|];
  }

  /** An occurrence before start that reaches past it only reads the marker standing there. */
  lemma ReplacedMarkerIsFound(contents: string, marker: string, written: string, back: string, start: nat)
    requires Findable(marker, written) && IndexOf(contents, marker, 0) == start
    ensures IndexOf(contents[..start] + Block(marker, written) + back, marker, 0) == start
  {
    var s := contents[..start] + Block(marker, written) + back;
    MarkerOpensBlock(contents[..start], marker, written, back);
    SameMarker(contents, s, marker, start);
    forall k: nat | k < start ensures !OccursAt(s, marker, k) {
      if OccursAt(s, marker, k) { OccurrenceCopied(s, contents, marker, k); }
    }
    FirstIndex(s, marker, 0, start);
  }

  lemma SameMarker(s: string, t: string, marker: string, start: nat)
    requires start <= |s| && start <= |t| && s[..start] == t[..start]
    requires OccursAt(s, marker, start) && OccursAt(t, marker, start)
    ensures forall i :: 0 <= i < start + |marker| ==> t[i] == s[i]
  {
    forall i | 0 <= i < start + |marker| ensures t[i] == s[i] {
      if i < start {
        assert s[..start][i] == t[..start][i];
      } else {
        assert s[start..start + |marker|][i - start] == t[start..start + |marker|][i - start];
      }
    }
  }

  /** The last update decides: whatever the contents, updating with one text and then another is
      updating with the other; the first must be findable, the second may be anything. */
  lemma LastUpdateWins(contents: string, marker: string, written: string, generated: string)
    requires Findable(marker, written)
    ensures Update(contents, marker, written).None? <==> Update(contents, marker, generated).None?
    ensures Update(contents, marker, written).Some? ==>
              Update(Update(contents, marker, written).value, marker, generated) == Update(contents, marker, generated)
  {
    if IndexOf(contents, marker, 0) == -1 {
      AppendWins(contents, marker, written, generated);
    } else if Update(contents, marker, written).Some? {
      var front, block, back := OutsideIsPreserved(contents, marker, written);
      ReplacedMarkerIsFound(contents, marker, written, back, |front|);
      ReplaceBlock(front, marker, written, generated, back);
    }
  }

  lemma AppendWins(contents: string, marker: string, written: string, generated: string)
    requires Findable(marker, written) && IndexOf(contents, marker, 0) == -1
    ensures Update(Update(contents, marker, written).value, marker, generated) == Update(contents, marker, generated)
  {
    AppendedMarkerIsFound(contents, marker, written);
    ReplaceBlock(TrimEnd(contents) + "\n\n", marker, written, generated, "\n");
  }

  /** Running the same update again changes nothing. */
  lemma UpdateIsIdempotent(contents: string, marker: string, generated: string)
    requires Findable(marker, generated) && Update(contents, marker, generated).Some?
    ensures var once := Update(contents, marker, generated).value;
            Update(once, marker, generated) == Some(once)
  {
    LastUpdateWins(contents, marker, generated, generated);
  }

  /** Only the old block changes: it is the text from the first marker through the first end
      marker after it, and what stands before and after comes out as it was. */
  lemma OutsideIsPreserved(contents: string, marker: string, generated: string)
      returns (front: string, block: string, back: string)
    requires IndexOf(contents, marker, 0) != -1 && Update(contents, marker, generated).Some?
    ensures contents == front + block + back && |front| == IndexOf(contents, marker, 0)
    ensures forall other :: Update(contents, marker, other) == Some(front + Block(marker, other) + back)
    ensures marker <= block + back && |EndMarker(marker)| <= |block|
    ensures IndexOf(block, EndMarker(marker), 0) == |block| - |EndMarker(marker)|
  {
    var e := EndMarker(marker);
    var start := IndexOf(contents, marker, 0);
    var end := IndexOf(contents, e, start);
    front, block, back := contents[..start], contents[start..end + |e|], contents[end + |e|..];
    ThreeParts(contents, start, end + |e|);
    PrefixThere(contents, marker, start);
    EndClosesBlock(contents, e, start, end);
    SameEnds(contents, marker, generated, start, end);
  }

  lemma ThreeParts(s: string, i: nat, j: nat)
    requires i <= j <= |s|
    ensures s == s[..i] + s[i..j] + s[j..] && s[i..j] + s[j..] == s[i..]
  {}

  lemma PrefixThere(s: string, pattern: string, i: nat)
    requires OccursAt(s, pattern, i)
    ensures pattern <= s[i..]
  {
    assert s[i..i + |pattern|] == s[i..][..|pattern|];
  }

  /** Where the block is cut out does not depend on what replaces it. */
  lemma SameEnds(contents: string, marker: string, generated: string, start: nat, end: int)
    requires IndexOf(contents, marker, 0) == start && IndexOf(contents, EndMarker(marker), start) == end
    requires Update(contents, marker, generated).Some?
    ensures end >= 0
    ensures forall other :: Update(contents, marker, other) ==
              Some(contents[..start] + Block(marker, other) + contents[end + |EndMarker(marker)|..])
  {}

  lemma SliceOfSlice(s: string, a: nat, b: nat, i: nat, j: nat)
    requires a <= b <= |s| && i <= j <= b - a
    ensures s[a..b][i..j] == s[a + i..a + j]
  {
    assert forall k :: 0 <= k < j - i ==> s[a..b][i..j][k] == s[a..b][i + k];
  }

  lemma OccurrenceInSlice(s: string, a: nat, b: nat, pattern: string, k: nat)
    requires a <= b <= |s|
    ensures OccursAt(s[a..b], pattern, k) <==> k + |pattern| <= b - a && OccursAt(s, pattern, a + k)
  {
    if k + |pattern| <= b - a { SliceOfSlice(s, a, b, k, k + |pattern|); }
  }

  lemma EndClosesBlock(contents: string, e: string, start: nat, end: nat)
    requires start <= |contents| && IndexOf(contents, e, start) == end
    ensures IndexOf(contents[start..end + |e|], e, 0) == end - start
  {
    var block := contents[start..end + |e|];
    OccurrenceInSlice(contents, start, end + |e|, e, end - start);
    forall k: nat | k < end - start ensures !OccursAt(block, e, k) {
      OccurrenceInSlice(contents, start, end + |e|, e, k);
    }
    FirstIndex(block, e, 0, end - start);
  }
}
