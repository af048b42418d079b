/**
 * The end of the payload renderer: the phase lines inserted after the ID line,
 * the loop that collapses blank lines, and the final trim.
 */
module PayloadText {
  import opened Prelude

  const NL: char := '\n'

  // ------------------------------------------------------------- the blank-line loop

  predicate TripleAt(t: string, i: int) {
    0 <= i && i + 3 <= |t| && t[i] == NL && t[i + 1] == NL && t[i + 2] == NL
  }

  ghost predicate HasTriple(t: string) {
    exists i :: TripleAt(t, i)
  }

  /** strings.ReplaceAll of three newlines by two: left to right, no overlaps. */
  function ReplaceTriples(t: string): string {
    if |t| == 0 then []
    else if TripleAt(t, 0) then [NL, NL] + ReplaceTriples(t[3..])
    else [t[0]] + ReplaceTriples(t[1..])
  }

  /**
   * The normal form: keep a newline only when fewer than two newlines stand
   * right before it. run counts those.
   */
  function Collapse(t: string, run: nat): string {
    if |t| == 0 then []
    else if t[0] != NL then [t[0]] + Collapse(t[1..], 0)
    else if run < 2 then [NL] + Collapse(t[1..], run + 1)
    else Collapse(t[1..], run + 1)
  }

  lemma {:induction false} RunsBeyondTwo(t: string, run: nat)
    requires run >= 2
    ensures Collapse(t, run) == Collapse(t, 2)
    decreases |t|
  {
    if |t| > 0 && t[0] == NL {
      RunsBeyondTwo(t[1..], run + 1);
      RunsBeyondTwo(t[1..], 3);
    }
  }

  lemma CollapseThree(t: string, run: nat)
    requires TripleAt(t, 0)
    ensures Collapse(t, run) == Collapse([NL, NL] + t[3..], run)
  {
    var rest, two := t[3..], [NL, NL] + t[3..];
    assert t[1..][1..][1..] == rest && two[1..][1..] == rest;
    assert t[1..][0] == NL && t[1..][1..][0] == NL && two[1..][0] == NL;
    assert Collapse(t[1..][1..], run + 2) == Collapse(rest, run + 3);
    RunsBeyondTwo(rest, run + 2);
    RunsBeyondTwo(rest, run + 3);
  }

  lemma TwoThen(u: string, v: string, run: nat)
    requires forall r: nat :: Collapse(u, r) == Collapse(v, r)
    ensures Collapse([NL, NL] + u, run) == Collapse([NL, NL] + v, run)
  {
    var a, b := [NL, NL] + u, [NL, NL] + v;
    assert a[1..][1..] == u && b[1..][1..] == v;
    assert a[1..][0] == NL && b[1..][0] == NL;
    assert Collapse(a[1..], run + 1) == Collapse(b[1..], run + 1);
  }

  /** A replacement pass does not change the normal form. */
  lemma {:induction false} PassKeepsNormalForm(t: string, run: nat)
    ensures Collapse(ReplaceTriples(t), run) == Collapse(t, run)
    decreases |t|
  {
    if |t| > 0 {
      if TripleAt(t, 0) {
        CollapseThree(t, run);
        forall r: nat ensures Collapse(ReplaceTriples(t[3..]), r) == Collapse(t[3..], r) {
          PassKeepsNormalForm(t[3..], r);
        }
        TwoThen(ReplaceTriples(t[3..]), t[3..], run);
      } else {
        var after := [t[0]] + ReplaceTriples(t[1..]);
        assert after[1..] == ReplaceTriples(t[1..]);
        PassKeepsNormalForm(t[1..], 0);
        PassKeepsNormalForm(t[1..], run + 1);
      }
    }
  }

  /** A pass over a text with a triple shortens it. */
  lemma {:induction false} PassShortens(t: string)
    ensures |ReplaceTriples(t)| <= |t|
    ensures HasTriple(t) ==> |ReplaceTriples(t)| < |t|
    decreases |t|
  {
    if |t| > 0 {
      if TripleAt(t, 0) {
        PassShortens(t[3..]);
      } else {
        PassShortens(t[1..]);
        if i :| TripleAt(t, i) {
          assert TripleAt(t[1..], i - 1);
        }
      }
    }
  }

  /** run newlines end what was already kept, none of them part of a triple with t. */
  predicate FewLeading(t: string, run: nat) {
    (|t| > 0 && t[0] == NL ==> run < 2) && (|t| > 1 && t[0] == NL && t[1] == NL ==> run < 1)
  }

  lemma {:induction false} NormalFormIsFixed(t: string, run: nat)
    requires !HasTriple(t) && FewLeading(t, run)
    ensures Collapse(t, run) == t
    decreases |t|
  {
    if |t| > 0 {
      forall i | TripleAt(t[1..], i) ensures false {
        assert TripleAt(t, i + 1);
      }
      assert !TripleAt(t, 0);
      NormalFormIsFixed(t[1..], if t[0] == NL then run + 1 else 0);
    }
  }

  method CollapseBlankLines(input: string) returns (text: string)
    ensures text == Collapse(input, 0)
    ensures !HasTriple(text)
  {
    text := input;
    while ContainsTriple(text)
      invariant Collapse(text, 0) == Collapse(input, 0)
      decreases |text|
    {
      PassShortens(text);
      PassKeepsNormalForm(text, 0);
      text := ReplaceTriples(text);
    }
    NormalFormIsFixed(text, 0);
  }

  lemma TripleInTail(t: string)
    requires |t| > 0 && !TripleAt(t, 0)
    ensures HasTriple(t) <==> HasTriple(t[1..])
  {
    if i :| TripleAt(t, i) {
      assert TripleAt(t[1..], i - 1);
    }
    if i :| TripleAt(t[1..], i) {
      assert TripleAt(t, i + 1);
    }
  }

  predicate ContainsTriple(t: string)
    ensures ContainsTriple(t) <==> HasTriple(t)
  {
    if |t| == 0 then false
    else if TripleAt(t, 0) then true
    else
      TripleInTail(t);
      ContainsTriple(t[1..])
  }

  // ---------------------------------------------------- the normal form, run by run

  /** The characters that are not newlines, in order. */
  function Letters(t: string): string {
    if |t| == 0 then [] else (if t[0] == NL then [] else [t[0]]) + Letters(t[1..])
  }

  /** Lengths of the newline runs: one before each letter and one at the end. */
  function Runs(t: string): (rs: seq<nat>)
    ensures |rs| > 0
  {
    if |t| == 0 then [0]
    else
      var rest := Runs(t[1..]);
      if t[0] == NL then [rest[0] + 1] + rest[1..] else [0] + rest
  }

  function Min(a: nat, b: nat): nat {
    if a < b then a else b
  }

  /** A text is its letters and its runs: nothing else is in it. */
  lemma {:induction false} LettersAndRunsDetermine(t: string, u: string)
    requires Letters(t) == Letters(u) && Runs(t) == Runs(u)
    ensures t == u
    decreases |t| + |u|
  {
    if |t| > 0 && |u| > 0 {
      assert (t[0] == NL) == (Runs(t)[0] > 0) && (u[0] == NL) == (Runs(u)[0] > 0);
      if t[0] == NL {
        SameTailAfterNewline(Runs(t[1..]), Runs(u[1..]));
        assert Letters(t) == Letters(t[1..]) && Letters(u) == Letters(u[1..]);
      } else {
        assert Runs(t)[1..] == Runs(t[1..]) && Runs(u)[1..] == Runs(u[1..]);
        assert Letters(t)[0] == t[0] && Letters(u)[0] == u[0];
        assert Letters(t)[1..] == Letters(t[1..]) && Letters(u)[1..] == Letters(u[1..]);
      }
      LettersAndRunsDetermine(t[1..], u[1..]);
    }
  }

  lemma SameTailAfterNewline(a: seq<nat>, b: seq<nat>)
    requires |a| > 0 && |b| > 0 && [a[0] + 1] + a[1..] == [b[0] + 1] + b[1..]
    ensures a == b
  {
    var x, y := [a[0] + 1] + a[1..], [b[0] + 1] + b[1..];
    assert x[0] == y[0] && x[1..] == a[1..] && y[1..] == b[1..];
    assert a == [a[0]] + a[1..] && b == [b[0]] + b[1..];
  }

  lemma {:induction false} CollapseKeepsLetters(t: string, run: nat)
    ensures Letters(Collapse(t, run)) == Letters(t)
    decreases |t|
  {
    if |t| > 0 {
      CollapseKeepsLetters(t[1..], if t[0] == NL then run + 1 else 0);
      var c := Collapse(t, run);
      assert t[0] != NL || run < 2 ==> c == [t[0]] + c[1..];
    }
  }

  /** after is before with run more newlines in front, of which Min(run, 2) are not part of it, and every run capped. */
  predicate CapsRuns(before: seq<nat>, after: seq<nat>, run: nat)
    requires |before| > 0
  {
    && |after| == |before|
    && after[0] + Min(run, 2) == Min(before[0] + run, 2)
    && after[1..] == Capped(before[1..])
  }

  lemma CapsAtLetter(before: seq<nat>, after: seq<nat>, run: nat)
    requires |before| > 0 && CapsRuns(before, after, 0)
    ensures CapsRuns([0] + before, [0] + after, run)
  {
    assert after == [after[0]] + after[1..] && before == [before[0]] + before[1..];
    assert Capped(before) == [Min(before[0], 2)] + Capped(before[1..]);
  }

  lemma RunsAtLetter(c: char, t: string)
    requires c != NL
    ensures Runs([c] + t) == [0] + Runs(t)
  {
  }

  lemma RunsAtNewline(t: string)
    ensures Runs([NL] + t) == [Runs(t)[0] + 1] + Runs(t)[1..]
  {
  }

  lemma {:induction false} CollapseCapsRuns(t: string, run: nat)
    ensures CapsRuns(Runs(t), Runs(Collapse(t, run)), run)
    decreases |t|
  {
    if |t| > 0 {
      var tail, next := t[1..], if t[0] == NL then run + 1 else 0;
      CollapseCapsRuns(tail, next);
      var rest := Collapse(tail, next);
      if t[0] != NL {
        RunsAtLetter(t[0], rest);
        CapsAtLetter(Runs(tail), Runs(rest), run);
      } else if run < 2 {
        RunsAtNewline(rest);
      }
    }
  }

  function Capped(rs: seq<nat>): seq<nat> {
    seq(|rs|, i requires 0 <= i < |rs| => Min(rs[i], 2))
  }

  lemma CappedByParts(before: seq<nat>, after: seq<nat>)
    requires |after| == |before| > 0 && after[0] == Min(before[0], 2) && after[1..] == Capped(before[1..])
    ensures after == Capped(before)
  {
    forall i | 0 < i < |before| ensures after[i] == Min(before[i], 2) {
      assert after[i] == after[1..][i - 1] && before[i] == before[1..][i - 1];
    }
  }

  /** Every maximal run of k newlines becomes min(k, 2); every other character stays, in order. */
  lemma CollapseByRuns(t: string)
    ensures Letters(Collapse(t, 0)) == Letters(t)
    ensures Runs(Collapse(t, 0)) == Capped(Runs(t))
  {
    CollapseKeepsLetters(t, 0);
    CollapseCapsRuns(t, 0);
    CappedByParts(Runs(t), Runs(Collapse(t, 0)));
  }

  // ------------------------------------------------------------------- phase lines

  function SplitLines(t: string): (ls: seq<string>)
    ensures |ls| > 0
  {
    if |t| == 0 then [""]
    else
      var rest := SplitLines(t[1..]);
      if t[0] == NL then [""] + rest else [[t[0]] + rest[0]] + rest[1..]
  }

  function JoinLines(ls: seq<string>): string {
    if |ls| == 0 then ""
    else if |ls| == 1 then ls[0]
    else ls[0] + [NL] + JoinLines(ls[1..])
  }

  lemma {:induction false} JoinSplit(t: string)
    ensures JoinLines(SplitLines(t)) == t
    decreases |t|
  {
    if |t| > 0 {
      JoinSplit(t[1..]);
      var rest := SplitLines(t[1..]);
      if t[0] == NL {
        assert SplitLines(t)[1..] == rest;
      } else {
        assert SplitLines(t)[1..] == rest[1..];
      }
    }
  }

  const ID_PREFIX := "ID: "

  predicate IsIdLine(line: string) {
    |line| >= 4 && line[..4] == ID_PREFIX
  }

  /** Index of the first ID line, or the number of lines. */
  function FirstId(ls: seq<string>): (i: nat)
    ensures i <= |ls|
    ensures forall k | 0 <= k < i :: !IsIdLine(ls[k])
    ensures i < |ls| ==> IsIdLine(ls[i])
  {
    if |ls| == 0 || IsIdLine(ls[0]) then 0 else 1 + FirstId(ls[1..])
  }

  /** The lines with the phase lines right after the first ID line, if there is one. */
  function WithPhaseLines(ls: seq<string>, extra: seq<string>): seq<string> {
    var i := FirstId(ls);
    if i == |ls| then ls else ls[..i + 1] + extra + ls[i + 1..]
  }

  function ExtraLines(phaseLine: string, summary: Option<string>): seq<string> {
    [phaseLine] + (if summary.Some? && summary.value != "" then ["Group Summary: " + summary.value] else [])
  }

  /** The text before the clean-up; phaseLine is None for a record outside any group. */
  function Inserted(text: string, phaseLine: Option<string>, summary: Option<string>): string {
    if phaseLine.None? then text
    else JoinLines(WithPhaseLines(SplitLines(text), ExtraLines(phaseLine.value, summary)))
  }

  /** The extra lines follow the first ID line, and taking them out again gives the text back. */
  lemma InsertionIsUndone(text: string, extra: seq<string>)
    ensures var ls, i := SplitLines(text), FirstId(SplitLines(text));
      var w := WithPhaseLines(ls, extra);
      if i == |ls| then JoinLines(w) == text
      else
        && |w| == |ls| + |extra| && w[i] == ls[i] && w[i + 1..i + 1 + |extra|] == extra
        && JoinLines(w[..i + 1] + w[i + 1 + |extra|..]) == text
  {
    JoinSplit(text);
    var ls, i := SplitLines(text), FirstId(SplitLines(text));
    if i < |ls| {
      var w := WithPhaseLines(ls, extra);
      assert w[..i + 1] + w[i + 1 + |extra|..] == ls;
    }
  }

  /** A text without an ID line stays as it is. */
  lemma InsertedNowhere(text: string, phaseLine: string, summary: Option<string>)
    requires forall k | 0 <= k < |SplitLines(text)| :: !("ID: " <= SplitLines(text)[k])
    ensures Inserted(text, Some(phaseLine), summary) == text
  {
    JoinSplit(text);
    forall k | 0 <= k < |SplitLines(text)| ensures !IsIdLine(SplitLines(text)[k]) {
      IdLineStarts(SplitLines(text)[k]);
    }
  }

  lemma IdLineStarts(line: string)
    ensures IsIdLine(line) <==> "ID: " <= line
  {
    if "ID: " <= line {
      assert line[..4] == "ID: ";
    }
  }

  /** The phase line, and the summary when there is one to show, come right behind the first ID line. */
  lemma InsertedBehindId(text: string, phaseLine: string, summary: Option<string>, i: nat)
    requires i < |SplitLines(text)| && "ID: " <= SplitLines(text)[i]
    requires forall k | 0 <= k < i :: !("ID: " <= SplitLines(text)[k])
    ensures
      var ls := SplitLines(text);
      var more := if summary == None || summary == Some("") then [] else ["Group Summary: " + summary.value];
      Inserted(text, Some(phaseLine), summary) == JoinLines(ls[..i + 1] + ([phaseLine] + more) + ls[i + 1..])
  {
    FirstIdIs(SplitLines(text), i);
    ExtraLinesAre(phaseLine, summary);
  }

  lemma FirstIdIs(ls: seq<string>, i: nat)
    requires i < |ls| && "ID: " <= ls[i] && forall k | 0 <= k < i :: !("ID: " <= ls[k])
    ensures FirstId(ls) == i
  {
    forall k | 0 <= k <= i ensures IsIdLine(ls[k]) <==> "ID: " <= ls[k] {
      IdLineStarts(ls[k]);
    }
  }

  lemma ExtraLinesAre(phaseLine: string, summary: Option<string>)
    ensures var more := if summary == None || summary == Some("") then [] else ["Group Summary: " + summary.value];
      ExtraLines(phaseLine, summary) == [phaseLine] + more
  {
  }

  method InsertPhaseLines(text: string, phaseLine: string, summary: Option<string>) returns (result: string)
    ensures result == Inserted(text, Some(phaseLine), summary)
  {
    var lines := SplitLines(text);
    ghost var all := lines;
    var i := 0;
    while i < |lines|
      invariant i <= |lines| && lines == all
      invariant forall k | 0 <= k < i :: !IsIdLine(all[k])
    {
      if IsIdLine(lines[i]) {
        var newLines := lines[..i + 1];
        newLines := newLines + [phaseLine];
        if summary.Some? && summary.value != "" {
          newLines := newLines + ["Group Summary: " + summary.value];
        }
        newLines := newLines + lines[i + 1..];
        assert FirstId(all) == i;
        assert newLines == all[..i + 1] + ExtraLines(phaseLine, summary) + all[i + 1..];
        lines := newLines;
        break;
      }
      i := i + 1;
    }
    result := JoinLines(lines);
  }

  // -------------------------------------------------------------------------- trim

  /** unicode.IsSpace. */
  predicate IsSpace(c: char) {
    || '\t' <= c <= '\r' || c == ' ' || c == '\U{85}' || c == '\U{A0}' || c == '\U{1680}'
    || '\U{2000}' <= c <= '\U{200A}' || c == '\U{2028}' || c == '\U{2029}' || c == '\U{202F}' || c == '\U{205F}' || c == '\U{3000}'
  }

  predicate NoEdgeSpace(t: string) {
    |t| > 0 ==> !IsSpace(t[0]) && !IsSpace(t[|t| - 1])
  }

  function TrimLeft(t: string): string {
    if |t| > 0 && IsSpace(t[0]) then TrimLeft(t[1..]) else t
  }

  function TrimRight(t: string): string {
    if |t| > 0 && IsSpace(t[|t| - 1]) then TrimRight(t[..|t| - 1]) else t
  }

  function Trim(t: string): string {
    TrimRight(TrimLeft(t))
  }

  ghost predicate AllSpace(t: string) {
    forall i | 0 <= i < |t| :: IsSpace(t[i])
  }

  lemma {:induction false} LeftSplit(t: string) returns (pre: string)
    ensures t == pre + TrimLeft(t) && AllSpace(pre)
    ensures |TrimLeft(t)| > 0 ==> !IsSpace(TrimLeft(t)[0])
    decreases |t|
  {
    if |t| > 0 && IsSpace(t[0]) {
      var p := LeftSplit(t[1..]);
      pre := [t[0]] + p;
    } else {
      pre := [];
    }
  }

  lemma {:induction false} RightSplit(t: string) returns (post: string)
    ensures t == TrimRight(t) + post && AllSpace(post)
    ensures |TrimRight(t)| > 0 ==> !IsSpace(TrimRight(t)[|TrimRight(t)| - 1])
    decreases |t|
  {
    if |t| > 0 && IsSpace(t[|t| - 1]) {
      var p := RightSplit(t[..|t| - 1]);
      post := p + [t[|t| - 1]];
    } else {
      post := [];
    }
  }

  /** Trimming removes whitespace at both ends and nothing else. */
  lemma TrimSplits(t: string) returns (pre: string, post: string)
    ensures t == pre + Trim(t) + post && AllSpace(pre) && AllSpace(post) && NoEdgeSpace(Trim(t))
  {
    pre := LeftSplit(t);
    post := RightSplit(TrimLeft(t));
  }

  /** The phase lines of a grouped record, and the clean-up every record gets. */
  method FinishPayload(text: string, phaseLine: Option<string>, summary: Option<string>) returns (payload: string)
    ensures !HasTriple(payload) && NoEdgeSpace(payload)
    ensures payload == Trim(Collapse(Inserted(text, phaseLine, summary), 0))
    ensures phaseLine == None ==> payload == Trim(Collapse(text, 0))
  {
    var whole := text;
    if phaseLine.Some? {
      whole := InsertPhaseLines(text, phaseLine.value, summary);
    }
    var collapsed := CollapseBlankLines(whole);
    payload := Trim(collapsed);
    ghost var pre, post := TrimSplits(collapsed);
    forall i | TripleAt(payload, i) ensures false {
      assert TripleAt(collapsed, |pre| + i);
    }
  }
}
