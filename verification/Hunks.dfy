// The diff of a configuration file, cut into hunks. A patch tool that trusts nothing but the hunks
// and the old file gets the new file back.
module Hunks {
  import opened Values

  datatype Kind = Equal | Delete | Insert

  /** One step of an edit script; an index is -1 on the side the step does not touch. */
  datatype Op = Op(kind: Kind, oldIdx: int, newIdx: int)

  /** Lines of the old and of the new file the script has passed. */
  function Olds(ops: seq<Op>): nat {
    if ops == [] then 0 else Olds(ops[..|ops| - 1]) + if ops[|ops| - 1].kind == Insert then 0 else 1
  }

  function News(ops: seq<Op>): nat {
    if ops == [] then 0 else News(ops[..|ops| - 1]) + if ops[|ops| - 1].kind == Delete then 0 else 1
  }

  /** The script walks through both files line by line; what it calls equal is equal. */
  ghost predicate Script(ops: seq<Op>, src: seq<string>, dst: seq<string>) {
    && Olds(ops) == |src| && News(ops) == |dst|
    && forall i | 0 <= i < |ops| :: StepOk(ops, i, src, dst)
  }

  ghost predicate StepOk(ops: seq<Op>, i: nat, src: seq<string>, dst: seq<string>)
    requires i < |ops|
  {
    var o, n, op := Olds(ops[..i]), News(ops[..i]), ops[i];
    match op.kind
    case Equal => op.oldIdx == o < |src| && op.newIdx == n < |dst| && src[o] == dst[n]
    case Delete => op.oldIdx == o < |src| && op.newIdx == -1
    case Insert => op.oldIdx == -1 && op.newIdx == n < |dst|
  }

  datatype Line = Line(kind: Kind, text: string)

  /** A hunk with its header; the starts count lines from 1. */
  datatype Hunk = Hunk(oldStart: nat, oldCount: nat, newStart: nat, newCount: nat, body: seq<Line>)

  // ---- Applying a patch ---------------------------------------------------------------------

  /** What a body adds to the new file, and where it leaves the old one. */
  datatype Applied = Refused | Applied(out: seq<string>, end: nat)

  function ApplyBody(src: seq<string>, at: nat, body: seq<Line>): Applied
    decreases |body|
  {
    if body == [] then Applied([], at)
    else
      var l := body[0];
      if l.kind != Insert && !(at < |src| && src[at] == l.text) then Refused
      else
        var rest := ApplyBody(src, if l.kind == Insert then at else at + 1, body[1..]);
        if rest.Refused? then Refused
        else Applied((if l.kind == Delete then [] else [l.text]) + rest.out, rest.end)
  }

  /** The lines a body quotes of the old file, and those it gives the new one. */
  function OldSide(body: seq<Line>): seq<string> {
    if body == [] then []
    else (if body[0].kind == Insert then [] else [body[0].text]) + OldSide(body[1..])
  }

  function NewSide(body: seq<Line>): seq<string> {
    if body == [] then []
    else (if body[0].kind == Delete then [] else [body[0].text]) + NewSide(body[1..])
  }

  /** A body applies exactly where the old file has the lines it quotes, and puts its new side there. */
  lemma {:induction false} AppliesIs(src: seq<string>, at: nat, body: seq<Line>)
    requires at <= |src|
    ensures
      var quoted := OldSide(body);
      ApplyBody(src, at, body) ==
        if quoted <= src[at..] then Applied(NewSide(body), at + |quoted|) else Refused
    decreases |body|
  {
    if body != [] {
      var l, rest := body[0], OldSide(body[1..]);
      if l.kind == Insert {
        AppliesIs(src, at, body[1..]);
      } else if at < |src| && src[at] == l.text {
        AppliesIs(src, at + 1, body[1..]);
        assert src[at..] == [src[at]] + src[at + 1..];
        PrefixAfter(l.text, rest, src[at + 1..]);
      }
    }
  }

  lemma PrefixAfter(first: string, a: seq<string>, b: seq<string>)
    ensures [first] + a <= [first] + b <==> a <= b
  {
    assert ([first] + a)[1..] == a && ([first] + b)[1..] == b;
    if [first] + a <= [first] + b {
      assert forall i | 0 <= i < |a| :: a[i] == ([first] + a)[i + 1] == ([first] + b)[i + 1] == b[i];
    }
  }

  /** A strict patch tool: positions and counts of every header must agree with the body, and every
      line the body quotes must stand in the old file. */
  function Patch(src: seq<string>, hunks: seq<Hunk>, oldPos: nat, newPos: nat): Option<seq<string>>
    requires oldPos <= |src|
  {
    if hunks == [] then Some(src[oldPos..])
    else
      var h := hunks[0];
      var at := h.oldStart - 1;
      if !(oldPos <= at <= |src| && h.newStart - 1 == newPos + (at - oldPos)) then None
      else
        var body := ApplyBody(src, at, h.body);
        if !(body.Applied? && body.end <= |src| && body.end - at == h.oldCount && |body.out| == h.newCount) then None
        else
          var rest := Patch(src, hunks[1..], body.end, newPos + (at - oldPos) + |body.out|);
          if rest.None? then None else Some(src[oldPos..at] + body.out + rest.value)
  }

  // ---- Rendering a hunk ---------------------------------------------------------------------

  function Body(ops: seq<Op>, src: seq<string>, dst: seq<string>): seq<Line>
    requires forall o | o in ops :: Within(o, src, dst)
  {
    if ops == [] then []
    else
      var o := ops[|ops| - 1];
      assert o in ops && Within(o, src, dst);
      Body(ops[..|ops| - 1], src, dst)
        + [Line(o.kind, if o.kind == Insert then dst[o.newIdx] else src[o.oldIdx])]
  }

  predicate Within(o: Op, src: seq<string>, dst: seq<string>) {
    && -1 <= o.oldIdx < |src| && -1 <= o.newIdx < |dst|
    && (o.oldIdx >= 0 <==> o.kind != Insert) && (o.newIdx >= 0 <==> o.kind != Delete)
  }

  /** The first index on one side, or -1. */
  function FirstOld(ops: seq<Op>): int {
    if ops == [] then -1
    else if FirstOld(ops[..|ops| - 1]) >= 0 then FirstOld(ops[..|ops| - 1])
    else ops[|ops| - 1].oldIdx
  }

  function FirstNew(ops: seq<Op>): int {
    if ops == [] then -1
    else if FirstNew(ops[..|ops| - 1]) >= 0 then FirstNew(ops[..|ops| - 1])
    else ops[|ops| - 1].newIdx
  }

  function Rendered(ops: seq<Op>, src: seq<string>, dst: seq<string>): Hunk
    requires forall o | o in ops :: Within(o, src, dst)
  {
    Hunk(if FirstOld(ops) >= 0 then FirstOld(ops) + 1 else 1, Olds(ops),
         if FirstNew(ops) >= 0 then FirstNew(ops) + 1 else 1, News(ops), Body(ops, src, dst))
  }

  method RenderHunk(ops: seq<Op>, src: seq<string>, dst: seq<string>) returns (h: Hunk)
    requires forall o | o in ops :: Within(o, src, dst)
    ensures h == Rendered(ops, src, dst)
  {
    var oldStart, newStart, oldCount, newCount := 0, 0, 0, 0;
    var body: seq<Line> := [];
    var foundOld, foundNew := false, false;
    for i := 0 to |ops|
      invariant oldCount == Olds(ops[..i]) && newCount == News(ops[..i]) && body == Body(ops[..i], src, dst)
      invariant foundOld == (FirstOld(ops[..i]) >= 0) && oldStart == if foundOld then FirstOld(ops[..i]) else 0
      invariant foundNew == (FirstNew(ops[..i]) >= 0) && newStart == if foundNew then FirstNew(ops[..i]) else 0
    {
      var o := ops[i];
      assert ops[..i + 1][..i] == ops[..i];
      assert o in ops;
      if o.oldIdx >= 0 {
        if !foundOld {
          oldStart, foundOld := o.oldIdx, true;
        }
        oldCount := oldCount + 1;
      }
      if o.newIdx >= 0 {
        if !foundNew {
          newStart, foundNew := o.newIdx, true;
        }
        newCount := newCount + 1;
      }
      body := body + [Line(o.kind, if o.kind == Insert then dst[o.newIdx] else src[o.oldIdx])];
    }
    assert ops[..|ops|] == ops;
    h := Hunk(oldStart + 1, oldCount, newStart + 1, newCount, body);
  }

  // ---- Cutting the script -------------------------------------------------------------------

  const CONTEXT := 3

  /** Equal lines a hunk may bridge between two changes. */
  const BRIDGE := 2 * CONTEXT

  ghost predicate AllEqual(ops: seq<Op>, from: int, to: int) {
    forall t | from <= t < to && 0 <= t < |ops| :: ops[t].kind == Equal
  }

  ghost predicate HasChange(ops: seq<Op>, from: int, to: int) {
    exists t | from <= t < to && 0 <= t < |ops| :: ops[t].kind != Equal
  }

  /** No more than six equal lines follow each other at `t`. */
  ghost predicate ChangeSoon(ops: seq<Op>, t: int) {
    HasChange(ops, t, t + 7)
  }

  /** A stretch of the script that becomes one hunk. */
  type Cut = (nat, nat)

  /** One cut: it begins and ends with at most three equal lines around a change, and bridges at most
      six equal lines between two changes. */
  ghost predicate CutOk(ops: seq<Op>, c: Cut) {
    && c.0 < c.1 <= |ops|
    && (c.0 == 0 || ops[c.0].kind == Equal)
    && HasChange(ops, c.0, c.1) && HasChange(ops, c.0, c.0 + 4) && HasChange(ops, c.1 - 4, c.1)
    && (forall t | c.0 <= t <= c.1 - 7 :: ChangeSoon(ops, t))
  }

  /** The three lines before the first change and after the last one, as far as the script has them. */
  ghost predicate FullContext(ops: seq<Op>, c: Cut) {
    (c.0 == 0 || AllEqual(ops, c.0, c.0 + 3)) && (c.1 == |ops| || AllEqual(ops, c.1 - 3, c.1))
  }

  function End(cuts: seq<Cut>): nat {
    if cuts == [] then 0 else cuts[|cuts| - 1].1
  }

  /** The cuts are in order and do not meet, and the script changes nothing between them. */
  ghost predicate Chain(ops: seq<Op>, cuts: seq<Cut>) {
    cuts != [] ==>
      var init, c := cuts[..|cuts| - 1], cuts[|cuts| - 1];
      && Chain(ops, init)
      && CutOk(ops, c) && FullContext(ops, c)
      && End(init) <= c.0 && (init != [] ==> End(init) < c.0)
      && AllEqual(ops, End(init), c.0)
  }

  /** The cuts hold every change of the script. */
  ghost predicate CutsOk(ops: seq<Op>, cuts: seq<Cut>) {
    Chain(ops, cuts) && End(cuts) <= |ops| && AllEqual(ops, End(cuts), |ops|)
  }

  method NextCut(ops: seq<Op>, i: nat) returns (c: Cut)
    requires i < |ops| && ops[i].kind != Equal
    requires i > 0 ==> ops[i - 1].kind == Equal
    ensures c.0 <= i < c.1 <= |ops| && CutOk(ops, c)
    ensures AllEqual(ops, c.0, i) && i - c.0 <= CONTEXT
    ensures c.0 == 0 || i - c.0 == 3 || ops[c.0 - 1].kind != Equal
    ensures c.1 == |ops| || AllEqual(ops, c.1 - 3, c.1)
    ensures AllEqual(ops, c.1, c.1 + CONTEXT + 1)
  {
    var start := i;
    while start > 0 && ops[start - 1].kind == Equal && i - start < CONTEXT
      invariant 0 <= start <= i && i - start <= CONTEXT
      invariant AllEqual(ops, start, i)
    {
      start := start - 1;
    }
    var end, gap := i, 0;
    ghost var last := i;
    while end < |ops|
      invariant i <= end <= |ops| && 0 <= gap <= BRIDGE
      invariant if end == i then gap == 0 && last == i else i <= last == end - 1 - gap
      invariant ops[last].kind != Equal && AllEqual(ops, last + 1, end)
      invariant forall t | i <= t <= end - BRIDGE - 1 :: ChangeSoon(ops, t)
      invariant end < |ops| || last == end - 1 - gap
    {
      if ops[end].kind == Equal {
        gap := gap + 1;
        if gap > BRIDGE {
          break;
        }
      } else {
        gap := 0;
        last := end;
      }
      end := end + 1;
      assert ChangeSoon(ops, end - BRIDGE - 1) by {
        assert end - BRIDGE - 1 <= last < end && ops[last].kind != Equal;
      }
    }
    var trailing := 0;
    while end - trailing > i && ops[end - trailing - 1].kind == Equal
      invariant 0 <= trailing <= end - 1 - last
    {
      trailing := trailing + 1;
    }
    if trailing > CONTEXT {
      end := end - (trailing - CONTEXT);
    }
    c := (start, end);
    forall t | start <= t <= end - BRIDGE - 1
      ensures ChangeSoon(ops, t)
    {
      if t < i {
        assert t <= i < t + BRIDGE + 1 && ops[i].kind != Equal;
      }
    }
    assert start <= i < start + 4 && i < end && ops[i].kind != Equal;
    assert end - 4 <= last < end && ops[last].kind != Equal;
  }

  ghost predicate AllWithin(ops: seq<Op>, src: seq<string>, dst: seq<string>) {
    forall o | o in ops :: Within(o, src, dst)
  }

  /** Every cut is rendered as its hunk. */
  ghost predicate HunksOf(ops: seq<Op>, cuts: seq<Cut>, src: seq<string>, dst: seq<string>, hunks: seq<Hunk>)
    requires AllWithin(ops, src, dst)
  {
    && |hunks| == |cuts|
    && forall k | 0 <= k < |cuts| ::
         && cuts[k].0 < cuts[k].1 <= |ops|
         && AllWithin(ops[cuts[k].0..cuts[k].1], src, dst)
         && hunks[k] == Rendered(ops[cuts[k].0..cuts[k].1], src, dst)
  }

  method BuildHunks(ops: seq<Op>, src: seq<string>, dst: seq<string>) returns (hunks: seq<Hunk>)
    requires AllWithin(ops, src, dst)
    ensures exists cuts :: CutsOk(ops, cuts) && HunksOf(ops, cuts, src, dst, hunks)
  {
    hunks := [];
    ghost var cuts: seq<Cut> := [];
    var i := 0;
    while i < |ops|
      invariant End(cuts) <= i <= |ops|
      invariant Chain(ops, cuts) && AllEqual(ops, End(cuts), i)
      invariant cuts != [] ==> AllEqual(ops, End(cuts), End(cuts) + CONTEXT + 1)
      invariant HunksOf(ops, cuts, src, dst, hunks)
    {
      if ops[i].kind == Equal {
        i := i + 1;
      } else {
        BeforeChange(ops, End(cuts), i, cuts != []);
        var c := NextCut(ops, i);
        var h := RenderHunk(ops[c.0..c.1], src, dst);
        HunksSnoc(ops, cuts, src, dst, hunks, c, h);
        ChainSnoc(ops, cuts, i, c);
        hunks, cuts := hunks + [h], cuts + [c];
        i := c.1;
      }
    }
  }

  lemma BeforeChange(ops: seq<Op>, end: nat, i: nat, some: bool)
    requires end <= i < |ops| && ops[i].kind != Equal
    requires AllEqual(ops, end, i) && (some ==> AllEqual(ops, end, end + CONTEXT + 1))
    requires !some ==> end == 0
    ensures i > 0 ==> ops[i - 1].kind == Equal
    ensures some ==> end < i - CONTEXT
  {
  }

  /** The cut around the next change, with its context, fits behind the cuts so far. */
  lemma ChainSnoc(ops: seq<Op>, cuts: seq<Cut>, i: nat, c: Cut)
    requires Chain(ops, cuts) && CutOk(ops, c) && c.0 <= i < c.1
    requires End(cuts) <= i && AllEqual(ops, End(cuts), i) && (cuts != [] ==> End(cuts) < i - CONTEXT)
    requires AllEqual(ops, c.0, i) && i - c.0 <= CONTEXT
    requires c.0 == 0 || i - c.0 == 3 || ops[c.0 - 1].kind != Equal
    requires c.1 == |ops| || AllEqual(ops, c.1 - 3, c.1)
    ensures Chain(ops, cuts + [c]) && End(cuts + [c]) == c.1
  {
    assert (cuts + [c])[..|cuts|] == cuts;
  }

  lemma HunksSnoc(ops: seq<Op>, cuts: seq<Cut>, src: seq<string>, dst: seq<string>, hunks: seq<Hunk>, c: Cut, h: Hunk)
    requires AllWithin(ops, src, dst) && HunksOf(ops, cuts, src, dst, hunks)
    requires c.0 < c.1 <= |ops| && AllWithin(ops[c.0..c.1], src, dst) && h == Rendered(ops[c.0..c.1], src, dst)
    ensures HunksOf(ops, cuts + [c], src, dst, hunks + [h])
  {
    assert forall k | 0 <= k < |cuts| :: (cuts + [c])[k] == cuts[k] && (hunks + [h])[k] == hunks[k];
  }

  // ---- The round trip -----------------------------------------------------------------------

  lemma ScriptWithin(ops: seq<Op>, src: seq<string>, dst: seq<string>)
    requires Script(ops, src, dst)
    ensures AllWithin(ops, src, dst)
  {
    forall o | o in ops
      ensures Within(o, src, dst)
    {
      var i :| 0 <= i < |ops| && ops[i] == o;
      assert StepOk(ops, i, src, dst);
    }
  }

  /** Where both files stand after the first `i` steps. */
  ghost function OldAt(ops: seq<Op>, i: nat): nat
    requires i <= |ops|
  {
    Olds(ops[..i])
  }

  ghost function NewAt(ops: seq<Op>, i: nat): nat
    requires i <= |ops|
  {
    News(ops[..i])
  }

  lemma StepAt(ops: seq<Op>, i: nat)
    requires i < |ops|
    ensures OldAt(ops, i + 1) == OldAt(ops, i) + if ops[i].kind == Insert then 0 else 1
    ensures NewAt(ops, i + 1) == NewAt(ops, i) + if ops[i].kind == Delete then 0 else 1
  {
    assert ops[..i + 1][..i] == ops[..i];
  }

  lemma {:induction false} AtMost(ops: seq<Op>, i: nat, j: nat)
    requires i <= j <= |ops|
    ensures OldAt(ops, i) <= OldAt(ops, j) && NewAt(ops, i) <= NewAt(ops, j)
    decreases j
  {
    if i < j {
      AtMost(ops, i, j - 1);
      StepAt(ops, j - 1);
    }
  }

  /** A stretch without changes is the same text in both files. */
  lemma {:induction false} EqualStretch(ops: seq<Op>, src: seq<string>, dst: seq<string>, i: nat, j: nat)
    requires Script(ops, src, dst) && i <= j <= |ops| && AllEqual(ops, i, j)
    ensures OldAt(ops, i) <= OldAt(ops, j) <= |src| && NewAt(ops, i) <= NewAt(ops, j) <= |dst|
    ensures OldAt(ops, j) - OldAt(ops, i) == j - i == NewAt(ops, j) - NewAt(ops, i)
    ensures src[OldAt(ops, i)..OldAt(ops, j)] == dst[NewAt(ops, i)..NewAt(ops, j)]
    decreases j
  {
    AtMost(ops, j, |ops|);
    assert ops[..|ops|] == ops;
    if i < j {
      EqualStretch(ops, src, dst, i, j - 1);
      StepAt(ops, j - 1);
      assert StepOk(ops, j - 1, src, dst);
      SliceSnoc(src, OldAt(ops, i), OldAt(ops, j - 1));
      SliceSnoc(dst, NewAt(ops, i), NewAt(ops, j - 1));
    }
  }

  lemma SliceSnoc(s: seq<string>, i: nat, j: nat)
    requires i <= j < |s|
    ensures s[i..j + 1] == s[i..j] + [s[j]]
  {
  }

  lemma BodyFront(ops: seq<Op>, src: seq<string>, dst: seq<string>)
    requires AllWithin(ops, src, dst) && ops != []
    ensures AllWithin([ops[0]], src, dst) && AllWithin(ops[1..], src, dst)
    ensures Body(ops, src, dst) == Body([ops[0]], src, dst) + Body(ops[1..], src, dst)
  {
    var n := |ops| - 1;
    if n > 0 {
      BodyFront(ops[..n], src, dst);
      assert ops[..n][1..] == ops[1..][..n - 1];
    } else {
      assert ops == [ops[0]];
    }
  }

  /** Applying the body of a cut walks both files through the cut. */
  lemma {:induction false} ApplyCut(ops: seq<Op>, src: seq<string>, dst: seq<string>, i: nat, j: nat)
    requires Script(ops, src, dst) && i <= j <= |ops| && AllWithin(ops[i..j], src, dst)
    ensures OldAt(ops, i) <= OldAt(ops, j) <= |src| && NewAt(ops, i) <= NewAt(ops, j) <= |dst|
    ensures ApplyBody(src, OldAt(ops, i), Body(ops[i..j], src, dst))
      == Applied(dst[NewAt(ops, i)..NewAt(ops, j)], OldAt(ops, j))
    decreases j - i
  {
    AtMost(ops, i, j);
    AtMost(ops, j, |ops|);
    assert ops[..|ops|] == ops;
    if i < j {
      var cut := ops[i..j];
      assert cut[0] == ops[i] && cut[1..] == ops[i + 1..j];
      BodyFront(cut, src, dst);
      ApplyCut(ops, src, dst, i + 1, j);
      StepAt(ops, i);
      assert StepOk(ops, i, src, dst);
      var l := Line(ops[i].kind, if ops[i].kind == Insert then dst[ops[i].newIdx] else src[ops[i].oldIdx]);
      assert Body([ops[i]], src, dst) == [l];
      ApplyStep(ops, src, dst, i, j);
      ApplyFront(src, OldAt(ops, i), l, Body(ops[i + 1..j], src, dst));
    }
  }

  lemma ApplyFront(src: seq<string>, at: nat, l: Line, rest: seq<Line>)
    requires l.kind == Insert || (at < |src| && src[at] == l.text)
    ensures
      var below := ApplyBody(src, if l.kind == Insert then at else at + 1, rest);
      ApplyBody(src, at, [l] + rest) ==
        if below.Refused? then Refused
        else Applied((if l.kind == Delete then [] else [l.text]) + below.out, below.end)
  {
    assert ([l] + rest)[1..] == rest;
  }

  lemma ApplyStep(ops: seq<Op>, src: seq<string>, dst: seq<string>, i: nat, j: nat)
    requires Script(ops, src, dst) && i < j <= |ops| && StepOk(ops, i, src, dst)
    ensures NewAt(ops, i) <= NewAt(ops, i + 1) <= NewAt(ops, j) <= |dst|
    ensures dst[NewAt(ops, i)..NewAt(ops, j)]
      == (if ops[i].kind == Delete then [] else [dst[ops[i].newIdx]]) + dst[NewAt(ops, i + 1)..NewAt(ops, j)]
  {
    StepAt(ops, i);
    AtMost(ops, i + 1, j);
    AtMost(ops, j, |ops|);
    assert ops[..|ops|] == ops;
  }

  /** What the chain says of its `k`-th cut. */
  lemma {:induction false} ChainAt(ops: seq<Op>, cuts: seq<Cut>, k: nat)
    requires Chain(ops, cuts) && k < |cuts|
    ensures CutOk(ops, cuts[k]) && End(cuts[..k]) <= cuts[k].0 && AllEqual(ops, End(cuts[..k]), cuts[k].0)
    ensures End(cuts[..k + 1]) == cuts[k].1
  {
    if k < |cuts| - 1 {
      ChainAt(ops, cuts[..|cuts| - 1], k);
      assert cuts[..|cuts| - 1][..k] == cuts[..k] && cuts[..|cuts| - 1][..k + 1] == cuts[..k + 1];
    }
  }

  /** The headers name the lines where the body begins, on both sides. */
  lemma HeaderStarts(ops: seq<Op>, src: seq<string>, dst: seq<string>, c: Cut)
    requires Script(ops, src, dst) && CutOk(ops, c) && AllWithin(ops[c.0..c.1], src, dst)
    ensures
      var h := Rendered(ops[c.0..c.1], src, dst);
      && h.oldStart == OldAt(ops, c.0) + 1 && h.oldCount == OldAt(ops, c.1) - OldAt(ops, c.0)
      && h.newStart == NewAt(ops, c.0) + 1 && h.newCount == NewAt(ops, c.1) - NewAt(ops, c.0)
  {
    CountsOf(ops, src, dst, c.0, c.1);
    if c.0 > 0 {
      StepAt(ops, c.0);
      AtMost(ops, c.0 + 1, c.1);
    } else {
      assert ops[..0] == [];
    }
  }

  lemma {:induction false} CountsOf(ops: seq<Op>, src: seq<string>, dst: seq<string>, i: nat, j: nat)
    requires Script(ops, src, dst) && i <= j <= |ops|
    ensures Olds(ops[i..j]) == OldAt(ops, j) - OldAt(ops, i)
    ensures News(ops[i..j]) == NewAt(ops, j) - NewAt(ops, i)
    ensures FirstOld(ops[i..j]) == if Olds(ops[i..j]) > 0 then OldAt(ops, i) else -1
    ensures FirstNew(ops[i..j]) == if News(ops[i..j]) > 0 then NewAt(ops, i) else -1
    decreases j
  {
    if i < j {
      CountsOf(ops, src, dst, i, j - 1);
      assert ops[i..j][..j - 1 - i] == ops[i..j - 1];
      StepAt(ops, j - 1);
      assert StepOk(ops, j - 1, src, dst);
    }
  }

  /** From position `p` on, the script is these cuts, rendered as these hunks. */
  ghost predicate Ahead(ops: seq<Op>, src: seq<string>, dst: seq<string>, p: nat, cuts: seq<Cut>, hunks: seq<Hunk>)
    decreases |cuts|
  {
    && |cuts| == |hunks| && p <= |ops|
    && if cuts == [] then AllEqual(ops, p, |ops|)
       else
         var c := cuts[0];
         && CutOk(ops, c) && p <= c.0 && AllEqual(ops, p, c.0)
         && AllWithin(ops[c.0..c.1], src, dst) && hunks[0] == Rendered(ops[c.0..c.1], src, dst)
         && Ahead(ops, src, dst, c.1, cuts[1..], hunks[1..])
  }

  lemma {:induction false} AheadFrom(ops: seq<Op>, src: seq<string>, dst: seq<string>, cuts: seq<Cut>,
                                     hunks: seq<Hunk>, k: nat)
    requires AllWithin(ops, src, dst) && CutsOk(ops, cuts) && HunksOf(ops, cuts, src, dst, hunks) && k <= |cuts|
    ensures Ahead(ops, src, dst, End(cuts[..k]), cuts[k..], hunks[k..])
    decreases |cuts| - k
  {
    if k < |cuts| {
      AheadFrom(ops, src, dst, cuts, hunks, k + 1);
      ChainAt(ops, cuts, k);
      assert cuts[k..][1..] == cuts[k + 1..] && hunks[k..][1..] == hunks[k + 1..];
    } else {
      assert cuts[..k] == cuts;
    }
  }

  lemma {:induction false} PatchAhead(ops: seq<Op>, src: seq<string>, dst: seq<string>, p: nat, cuts: seq<Cut>,
                                      hunks: seq<Hunk>)
    requires Script(ops, src, dst) && Ahead(ops, src, dst, p, cuts, hunks)
    ensures OldAt(ops, p) <= |src| && NewAt(ops, p) <= |dst|
    ensures Patch(src, hunks, OldAt(ops, p), NewAt(ops, p)) == Some(dst[NewAt(ops, p)..])
    decreases |cuts|
  {
    if cuts == [] {
      EqualStretch(ops, src, dst, p, |ops|);
      assert ops[..|ops|] == ops;
      assert src[OldAt(ops, p)..] == src[OldAt(ops, p)..OldAt(ops, |ops|)];
      assert dst[NewAt(ops, p)..] == dst[NewAt(ops, p)..NewAt(ops, |ops|)];
    } else {
      PatchAhead(ops, src, dst, cuts[0].1, cuts[1..], hunks[1..]);
      PatchCut(ops, src, dst, p, cuts[0], hunks[0], hunks[1..]);
      assert [hunks[0]] + hunks[1..] == hunks;
    }
  }

  lemma PatchCut(ops: seq<Op>, src: seq<string>, dst: seq<string>, p: nat, c: Cut, h: Hunk, rest: seq<Hunk>)
    requires Script(ops, src, dst) && CutOk(ops, c) && p <= c.0 && AllEqual(ops, p, c.0)
    requires AllWithin(ops[c.0..c.1], src, dst) && h == Rendered(ops[c.0..c.1], src, dst)
    requires OldAt(ops, c.1) <= |src| && NewAt(ops, c.1) <= |dst|
    requires Patch(src, rest, OldAt(ops, c.1), NewAt(ops, c.1)) == Some(dst[NewAt(ops, c.1)..])
    ensures OldAt(ops, p) <= |src| && NewAt(ops, p) <= |dst|
    ensures Patch(src, [h] + rest, OldAt(ops, p), NewAt(ops, p)) == Some(dst[NewAt(ops, p)..])
  {
    EqualStretch(ops, src, dst, p, c.0);
    ApplyCut(ops, src, dst, c.0, c.1);
    HeaderStarts(ops, src, dst, c);
    PatchStep(src, dst, h, rest, OldAt(ops, p), NewAt(ops, p), OldAt(ops, c.0), NewAt(ops, c.0),
      OldAt(ops, c.1), NewAt(ops, c.1));
  }

  /** One hunk: `p` to `a` is untouched text, `a` to `b` the hunk itself. */
  lemma PatchStep(src: seq<string>, dst: seq<string>, h: Hunk, rest: seq<Hunk>,
                  oldP: nat, newP: nat, oldA: nat, newA: nat, oldB: nat, newB: nat)
    requires oldP <= oldA <= oldB <= |src| && newP <= newA <= newB <= |dst| && oldA - oldP == newA - newP
    requires src[oldP..oldA] == dst[newP..newA]
    requires h.oldStart == oldA + 1 && h.oldCount == oldB - oldA && h.newStart == newA + 1 && h.newCount == newB - newA
    requires ApplyBody(src, oldA, h.body) == Applied(dst[newA..newB], oldB)
    requires Patch(src, rest, oldB, newB) == Some(dst[newB..])
    ensures Patch(src, [h] + rest, oldP, newP) == Some(dst[newP..])
  {
    assert ([h] + rest)[0] == h && ([h] + rest)[1..] == rest;
    assert dst[newP..] == dst[newP..newA] + dst[newA..newB] + dst[newB..];
  }

  /** The round trip: the old file, patched with its diff, is the new file. */
  lemma PatchRoundTrip(ops: seq<Op>, src: seq<string>, dst: seq<string>, cuts: seq<Cut>, hunks: seq<Hunk>)
    requires Script(ops, src, dst) && AllWithin(ops, src, dst)
    requires CutsOk(ops, cuts) && HunksOf(ops, cuts, src, dst, hunks)
    ensures Patch(src, hunks, 0, 0) == Some(dst)
  {
    AheadFrom(ops, src, dst, cuts, hunks, 0);
    PatchAhead(ops, src, dst, 0, cuts, hunks);
    assert hunks[0..] == hunks && cuts[0..] == cuts && ops[..0] == [] && dst[0..] == dst;
  }

  // ---- From the line diff to the hunks ------------------------------------------------------

  /** `n` lines the diff library reports as equal, deleted or inserted. */
  datatype Run = Run(kind: Kind, n: nat)

  /** The runs describe the two files: between them they use up both. */
  predicate RunsOk(runs: seq<Run>, src: seq<string>, dst: seq<string>)
    decreases |runs|
  {
    if runs == [] then src == [] && dst == []
    else
      var r := runs[0];
      var o, n := if r.kind == Insert then 0 else r.n, if r.kind == Delete then 0 else r.n;
      && o <= |src| && n <= |dst|
      && (r.kind == Equal ==> src[..o] == dst[..n])
      && RunsOk(runs[1..], src[o..], dst[n..])
  }

  /** The script so far stands at line `oi` of the old and `ni` of the new file. */
  ghost predicate ScriptTo(ops: seq<Op>, src: seq<string>, dst: seq<string>, oi: nat, ni: nat) {
    && Olds(ops) == oi <= |src| && News(ops) == ni <= |dst|
    && forall i | 0 <= i < |ops| :: StepOk(ops, i, src, dst)
  }

  lemma ScriptSnoc(ops: seq<Op>, src: seq<string>, dst: seq<string>, op: Op)
    requires ScriptTo(ops, src, dst, Olds(ops), News(ops)) && StepOk(ops + [op], |ops|, src, dst)
    ensures ScriptTo(ops + [op], src, dst,
      Olds(ops) + if op.kind == Insert then 0 else 1, News(ops) + if op.kind == Delete then 0 else 1)
  {
    assert (ops + [op])[..|ops|] == ops;
    forall i | 0 <= i < |ops|
      ensures StepOk(ops + [op], i, src, dst)
    {
      assert StepOk(ops, i, src, dst);
      assert (ops + [op])[..i] == ops[..i];
    }
  }

  /** One run, step by step. */
  method RunOps(ops: seq<Op>, r: Run, src: seq<string>, dst: seq<string>, oi: nat, ni: nat) returns (more: seq<Op>)
    requires ScriptTo(ops, src, dst, oi, ni)
    requires r.kind != Insert ==> oi + r.n <= |src|
    requires r.kind != Delete ==> ni + r.n <= |dst|
    requires r.kind == Equal ==> src[oi..oi + r.n] == dst[ni..ni + r.n]
    ensures
      var o, n := if r.kind == Insert then oi else oi + r.n, if r.kind == Delete then ni else ni + r.n;
      ScriptTo(more, src, dst, o, n)
  {
    more := ops;
    var o, n := oi, ni;
    for j := 0 to r.n
      invariant o == (if r.kind == Insert then oi else oi + j) && n == if r.kind == Delete then ni else ni + j
      invariant ScriptTo(more, src, dst, o, n)
    {
      var op := Op(r.kind, if r.kind == Insert then -1 else o, if r.kind == Delete then -1 else n);
      if r.kind == Equal {
        assert src[oi..oi + r.n][j] == dst[ni..ni + r.n][j];
      }
      assert (more + [op])[..|more|] == more;
      ScriptSnoc(more, src, dst, op);
      more := more + [op];
      o := if r.kind == Insert then o else o + 1;
      n := if r.kind == Delete then n else n + 1;
    }
  }

  method DiffOps(runs: seq<Run>, src: seq<string>, dst: seq<string>) returns (ops: seq<Op>)
    requires RunsOk(runs, src, dst)
    ensures Script(ops, src, dst)
  {
    ops := [];
    var oi: nat, ni: nat := 0, 0;
    assert src[0..] == src && dst[0..] == dst && runs[0..] == runs;
    for k := 0 to |runs|
      invariant oi <= |src| && ni <= |dst| && RunsOk(runs[k..], src[oi..], dst[ni..])
      invariant ScriptTo(ops, src, dst, oi, ni)
    {
      var r := runs[k];
      NextRunAt(runs, k, src, dst, oi, ni);
      ops := RunOps(ops, r, src, dst, oi, ni);
      oi := if r.kind == Insert then oi else oi + r.n;
      ni := if r.kind == Delete then ni else ni + r.n;
    }
  }

  lemma NextRunAt(runs: seq<Run>, k: nat, src: seq<string>, dst: seq<string>, oi: nat, ni: nat)
    requires k < |runs| && oi <= |src| && ni <= |dst| && RunsOk(runs[k..], src[oi..], dst[ni..])
    ensures
      var r := runs[k];
      var o, n := if r.kind == Insert then oi else oi + r.n, if r.kind == Delete then ni else ni + r.n;
      && o <= |src| && n <= |dst|
      && (r.kind == Equal ==> src[oi..o] == dst[ni..n])
      && RunsOk(runs[k + 1..], src[o..], dst[n..])
  {
    NextRun(runs[k..], src, dst, oi, ni);
    assert runs[k..][1..] == runs[k + 1..];
  }

  lemma Resume(s: seq<string>, i: nat, n: nat)
    requires i + n <= |s|
    ensures s[i..][..n] == s[i..i + n] && s[i..][n..] == s[i + n..]
  {
  }

  lemma NextRun(runs: seq<Run>, src: seq<string>, dst: seq<string>, oi: nat, ni: nat)
    requires runs != [] && oi <= |src| && ni <= |dst| && RunsOk(runs, src[oi..], dst[ni..])
    ensures
      var r := runs[0];
      var o, n := if r.kind == Insert then oi else oi + r.n, if r.kind == Delete then ni else ni + r.n;
      && o <= |src| && n <= |dst|
      && (r.kind == Equal ==> src[oi..o] == dst[ni..n])
      && RunsOk(runs[1..], src[o..], dst[n..])
  {
    var r := runs[0];
    var o, n := if r.kind == Insert then 0 else r.n, if r.kind == Delete then 0 else r.n;
    Resume(src, oi, o);
    Resume(dst, ni, n);
  }

  /** The hunks of two files, line by line, are a patch from one to the other. */
  method DiffLines(src: seq<string>, dst: seq<string>, runs: seq<Run>) returns (hunks: seq<Hunk>)
    requires RunsOk(runs, src, dst)
    ensures Patch(src, hunks, 0, 0) == Some(dst)
  {
    var ops := DiffOps(runs, src, dst);
    ScriptWithin(ops, src, dst);
    hunks := BuildHunks(ops, src, dst);
    ghost var cuts :| CutsOk(ops, cuts) && HunksOf(ops, cuts, src, dst, hunks);
    PatchRoundTrip(ops, src, dst, cuts, hunks);
  }

  // ---- Lines --------------------------------------------------------------------------------

  function JoinLines(lines: seq<string>): string {
    if lines == [] then "" else lines[0] + ("\n" + JoinLines(lines[1..]))
  }

  /** The lines of a text; what follows the last line break is a line if it is not empty. */
  function Lines(s: string): seq<string> {
    if s == "" then []
    else
      var rest := Lines(s[1..]);
      if s[0] == '\n' then [""] + rest
      else if rest == [] then [[s[0]]]
      else [[s[0]] + rest[0]] + rest[1..]
  }

  /** A text with its last line ended. */
  function Ended(s: string): string {
    if s == "" || s[|s| - 1] == '\n' then s else s + "\n"
  }

  lemma EndedFront(s: string)
    requires s != ""
    ensures |s| > 1 || s[0] == '\n' ==> Ended(s) == [s[0]] + Ended(s[1..])
  {
    assert s == [s[0]] + s[1..];
  }

  /** What is put before the first line is put before the text. */
  lemma JoinPrefixed(c: string, first: string, rest: seq<string>)
    ensures JoinLines([c + first] + rest) == c + JoinLines([first] + rest)
  {
    var tail := "\n" + JoinLines(rest);
    assert ([c + first] + rest)[1..] == rest && ([first] + rest)[1..] == rest;
    assert (c + first) + tail == c + (first + tail);
  }

  lemma {:induction false} LinesJoin(s: string)
    ensures JoinLines(Lines(s)) == Ended(s) && (s != "" ==> Lines(s) != [])
  {
    if s != "" {
      LinesJoin(s[1..]);
      EndedFront(s);
      var rest := Lines(s[1..]);
      if s[0] == '\n' {
        assert ([""] + rest)[1..] == rest;
      } else if rest == [] {
        assert s == [s[0]] && [s][1..] == [];
      } else {
        assert rest == [rest[0]] + rest[1..];
        JoinPrefixed([s[0]], rest[0], rest[1..]);
      }
    }
  }

  /** Ending the last line does not make another one. */
  lemma {:induction false} LinesOfEnded(s: string)
    ensures Lines(Ended(s)) == Lines(s)
  {
    if |s| == 1 && s[0] != '\n' {
      var e := Ended(s);
      assert e[1..] == "\n" && "\n"[1..] == "" && s[1..] == "";
      assert Lines("\n") == [""];
      var rest := [""];
      assert [s[0]] + rest[0] == [s[0]] && rest[1..] == [];
      assert e[0] == s[0];
    } else if |s| > 1 {
      LinesOfEnded(s[1..]);
      assert Ended(s)[1..] == Ended(s[1..]);
    }
  }

  /** Joining gives the text back exactly when its last line is ended; and texts that differ in that alone
      have the same lines, so that no diff of lines can tell them apart. */
  lemma LinesTell(a: string, b: string)
    ensures JoinLines(Lines(a)) == a <==> a == "" || a[|a| - 1] == '\n'
    ensures Lines(a) == Lines(b) <==> Ended(a) == Ended(b)
  {
    LinesJoin(a);
    LinesJoin(b);
    LinesOfEnded(a);
    LinesOfEnded(b);
  }

  lemma {:induction false} PlainLine(cur: string)
    requires '\n' !in cur
    ensures Lines(cur) == if cur == "" then [] else [cur]
  {
    if cur != "" {
      PlainLine(cur[1..]);
      assert cur == [cur[0]] + cur[1..];
      if |cur| == 1 {
        assert cur[1..] == "" && cur == [cur[0]];
      } else {
        var rest := [cur[1..]];
        assert [[cur[0]] + rest[0]] + rest[1..] == [cur];
      }
    }
  }

  lemma {:induction false} FirstLine(cur: string, after: string)
    requires '\n' !in cur
    ensures Lines(cur + ("\n" + after)) == [cur] + Lines(after)
  {
    var s := cur + ("\n" + after);
    if cur == "" {
      assert s == "\n" + after && s[1..] == after;
    } else {
      FirstLine(cur[1..], after);
      assert s[0] == cur[0] && s[1..] == cur[1..] + ("\n" + after);
      assert cur == [cur[0]] + cur[1..];
      var rest := [cur[1..]] + Lines(after);
      assert rest[1..] == Lines(after);
    }
  }

  method SplitLines(s: string) returns (lines: seq<string>)
    ensures lines == Lines(s)
    ensures forall l | l in lines :: '\n' !in l
  {
    lines := [];
    var cur := "";
    assert cur + s[0..] == s;
    for i := 0 to |s|
      invariant '\n' !in cur && forall l | l in lines :: '\n' !in l
      invariant Lines(s) == lines + Lines(cur + s[i..])
    {
      assert s[i..] == [s[i]] + s[i + 1..];
      if s[i] == '\n' {
        FirstLine(cur, s[i + 1..]);
        lines := lines + [cur];
        cur := "";
        assert cur + s[i + 1..] == s[i + 1..];
      } else {
        assert cur + s[i..] == cur + [s[i]] + s[i + 1..];
        cur := cur + [s[i]];
      }
    }
    assert cur + s[|s|..] == cur;
    PlainLine(cur);
    if cur != "" {
      lines := lines + [cur];
    }
  }

  /** The diff of two texts. Patching the old lines gives the new text, if and only if that is empty or ends
      with a line break; otherwise it gives the new text with one. */
  method UnifiedDiff(src: string, dst: string, runs: seq<Run>) returns (hunks: seq<Hunk>)
    requires RunsOk(runs, Lines(src), Lines(dst))
    ensures
      var patched := Patch(Lines(src), hunks, 0, 0);
      && patched.Some? && JoinLines(patched.value) == Ended(dst)
      && (JoinLines(patched.value) == dst <==> dst == "" || dst[|dst| - 1] == '\n')
  {
    var before := SplitLines(src);
    var after := SplitLines(dst);
    hunks := DiffLines(before, after, runs);
    LinesJoin(dst);
  }
}
