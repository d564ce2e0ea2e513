// The repair that runs over an edited file: wherever the printer only moved comments, the original
// lines come back. On lines, given the line diff of the two texts.
module KeepComments {
  datatype Kind = Equal | Delete | Insert

  datatype Diff = Diff(kind: Kind, lines: seq<string>)

  /** White space as Unicode has it. */
  predicate IsSpace(c: char) {
    || c == ' ' || '\t' <= c <= '\r' || c == '\U{85}' || c == '\U{A0}' || c == '\U{1680}'
    || '\U{2000}' <= c <= '\U{200A}' || c == '\U{2028}' || c == '\U{2029}'
    || c == '\U{202F}' || c == '\U{205F}' || c == '\U{3000}'
  }

  lemma AsciiSpace(c: char)
    requires c < '\U{80}'
    ensures IsSpace(c) <==> c in [' ', '\t', '\n', '\U{0B}', '\U{0C}', '\r']
  {
  }

  /** A comment, or a line with nothing on it. */
  predicate IsComment(line: string) {
    line == "" || line[0] == '#' || (IsSpace(line[0]) && IsComment(line[1..]))
  }

  /** White space at the start of the line, up to its end or to a `#`. */
  ghost predicate BlankUpTo(line: string, n: nat) {
    n <= |line| && (n == |line| || line[n] == '#') && forall i | 0 <= i < n :: IsSpace(line[i])
  }

  lemma {:induction false} CommentIs(line: string)
    ensures IsComment(line) <==> exists n: nat :: BlankUpTo(line, n)
  {
    if line == "" || line[0] == '#' {
      assert BlankUpTo(line, 0);
    } else {
      var rest := line[1..];
      CommentIs(rest);
      if IsComment(line) {
        var n: nat :| BlankUpTo(rest, n);
        assert BlankUpTo(line, n + 1);
      }
      if n: nat :| BlankUpTo(line, n) {
        assert n > 0 && IsSpace(line[0]);
        assert BlankUpTo(rest, n - 1);
      }
    }
  }

  /** The lines that are configuration. */
  function Real(lines: seq<string>): seq<string> {
    if lines == [] then []
    else Real(lines[..|lines| - 1]) + if IsComment(lines[|lines| - 1]) then [] else [lines[|lines| - 1]]
  }

  lemma {:induction false} RealAppend(a: seq<string>, b: seq<string>)
    ensures Real(a + b) == Real(a) + Real(b)
  {
    if b == [] {
      assert a + b == a;
    } else {
      var n := |b| - 1;
      RealAppend(a, b[..n]);
      assert (a + b)[..|a + b| - 1] == a + b[..n];
    }
  }

  /** The text on one side of a diff: what is equal, and what is only there. */
  function Side(diffs: seq<Diff>, only: Kind): seq<string> {
    if diffs == [] then []
    else
      var d := diffs[|diffs| - 1];
      Side(diffs[..|diffs| - 1], only) + if d.kind == Equal || d.kind == only then d.lines else []
  }

  method OnlyComments(block: seq<string>) returns (only: bool)
    ensures only <==> Real(block) == []
  {
    for i := 0 to |block|
      invariant Real(block[..i]) == []
    {
      assert block[..i + 1][..i] == block[..i];
      if !IsComment(block[i]) {
        assert block == block[..i + 1] + block[i + 1..];
        RealAppend(block[..i + 1], block[i + 1..]);
        return false;
      }
    }
    assert block[..|block|] == block;
    return true;
  }

  /** What becomes of a run of differences: the deleted lines if neither side has a real line, else the
      inserted ones. */
  function Kept(del: seq<string>, ins: seq<string>): seq<string> {
    if Real(del) == [] && Real(ins) == [] then del else ins
  }

  method Flush(out: seq<string>, del: seq<string>, ins: seq<string>) returns (r: seq<string>)
    ensures r == out + Kept(del, ins)
  {
    var noneLost := OnlyComments(del);
    var noneNew := OnlyComments(ins);
    r := out + if noneLost && noneNew then del else ins;
  }

  predicate IsRun(diffs: seq<Diff>) {
    forall d | d in diffs :: d.kind != Equal
  }

  /** The text written so far, and the two sides of the run that has not ended yet. */
  datatype Pending = Pending(out: seq<string>, del: seq<string>, ins: seq<string>) {
    function Flushed(): seq<string> {
      out + Kept(del, ins)
    }

    function Then(d: Diff): Pending {
      match d.kind
      case Equal => Pending(Flushed() + d.lines, [], [])
      case Delete => Pending(out, del + d.lines, ins)
      case Insert => Pending(out, del, ins + d.lines)
    }
  }

  function After(diffs: seq<Diff>): Pending {
    if diffs == [] then Pending([], [], []) else After(diffs[..|diffs| - 1]).Then(diffs[|diffs| - 1])
  }

  /** The repaired text. */
  function Repair(diffs: seq<Diff>): seq<string> {
    After(diffs).Flushed()
  }

  lemma AfterSnoc(diffs: seq<Diff>, d: Diff)
    ensures After(diffs + [d]) == After(diffs).Then(d)
  {
    assert (diffs + [d])[..|diffs|] == diffs;
  }

  lemma SideSnoc(diffs: seq<Diff>, d: Diff, only: Kind)
    ensures Side(diffs + [d], only) ==
      if d.kind == Equal || d.kind == only then Side(diffs, only) + d.lines else Side(diffs, only)
  {
    assert (diffs + [d])[..|diffs|] == diffs;
  }

  lemma Associate(a: seq<string>, b: seq<string>, c: seq<string>)
    ensures a + (b + c) == a + b + c
  {
  }

  /** A run on its own. */
  lemma {:induction false} AfterRun(run: seq<Diff>)
    requires IsRun(run)
    ensures After(run) == Pending([], Side(run, Delete), Side(run, Insert))
  {
    if run != [] {
      var front, d := run[..|run| - 1], run[|run| - 1];
      assert d in run;
      AfterRun(front);
    }
  }

  /** `p`, with `text` written before it. */
  function Behind(text: seq<string>, p: Pending): Pending {
    Pending(text + p.out, p.del, p.ins)
  }

  lemma ThenBehind(text: seq<string>, p: Pending, d: Diff)
    ensures Behind(text, p).Flushed() == text + p.Flushed()
    ensures Behind(text, p).Then(d) == Behind(text, p.Then(d))
  {
    Associate(text, p.out, Kept(p.del, p.ins));
    Associate(text, p.Flushed(), d.lines);
  }

  lemma Regroup(a: seq<Diff>, b: seq<Diff>)
    requires b != []
    ensures b[..|b| - 1] + [b[|b| - 1]] == b && a + b[..|b| - 1] + [b[|b| - 1]] == a + b
  {
  }

  lemma BehindSnoc(all: seq<Diff>, text: seq<string>, b: seq<Diff>, d: Diff)
    requires After(all) == Behind(text, After(b))
    ensures After(all + [d]) == Behind(text, After(b + [d]))
  {
    AfterSnoc(all, d);
    AfterSnoc(b, d);
    ThenBehind(text, After(b), d);
  }

  lemma AfterEqualLines(a: seq<Diff>, d: Diff)
    requires d.kind == Equal
    ensures After(a + [d]) == Behind(Repair(a) + d.lines, After([])) && Repair(a + [d]) == Repair(a) + d.lines
  {
    AfterSnoc(a, d);
    var text := Repair(a) + d.lines;
    assert text + [] == text;
  }

  /** What is equal divides: what comes after it does not depend on what came before. */
  lemma {:induction false} AfterEqual(a: seq<Diff>, d: Diff, b: seq<Diff>)
    requires d.kind == Equal
    ensures After(a + [d] + b) == Behind(Repair(a) + d.lines, After(b))
  {
    if b == [] {
      AfterEqualLines(a, d);
      assert a + [d] + b == a + [d];
    } else {
      var front, last := b[..|b| - 1], b[|b| - 1];
      AfterEqual(a, d, front);
      BehindSnoc(a + [d] + front, Repair(a) + d.lines, front, last);
      Regroup(a + [d], b);
    }
  }

  lemma RepairAtEqual(a: seq<Diff>, d: Diff, b: seq<Diff>)
    requires d.kind == Equal
    ensures Repair(a + [d] + b) == Repair(a) + d.lines + Repair(b)
  {
    AfterEqual(a, d, b);
    ThenBehind(Repair(a) + d.lines, After(b), d);
  }

  /** What follows a list that ends in equal lines is repaired on its own. */
  lemma RepairFrom(a: seq<Diff>, b: seq<Diff>)
    requires a != [] ==> a[|a| - 1].kind == Equal
    ensures Repair(a + b) == Repair(a) + Repair(b)
  {
    if a == [] {
      assert a + b == b && [] + Repair(b) == Repair(b);
    } else {
      var front, d := a[..|a| - 1], a[|a| - 1];
      assert a == front + [d];
      RepairAtEqual(front, d, b);
      AfterEqualLines(front, d);
    }
  }

  lemma EqualFirst(d: Diff, rest: seq<Diff>)
    requires d.kind == Equal
    ensures Repair([d] + rest) == d.lines + Repair(rest)
  {
    assert [] + [d] == [d] && Repair([]) + d.lines == d.lines;
    RepairAtEqual([], d, rest);
  }

  lemma RegroupAt(a: seq<Diff>, b: seq<Diff>)
    requires b != []
    ensures [b[0]] + b[1..] == b && a + [b[0]] + b[1..] == a + b
  {
  }

  /** What comes before equal lines is repaired on its own. */
  lemma RepairTo(a: seq<Diff>, b: seq<Diff>)
    requires b != [] ==> b[0].kind == Equal
    ensures Repair(a + b) == Repair(a) + Repair(b)
  {
    if b == [] {
      assert a + b == a && Repair(a) + [] == Repair(a);
    } else {
      RegroupAt(a, b);
      RepairAtEqual(a, b[0], b[1..]);
      EqualFirst(b[0], b[1..]);
      Associate(Repair(a), b[0].lines, Repair(b[1..]));
    }
  }

  /** Wherever it stands: a run of which no side has a real line comes back as it was, any other stays as
      edited, and neither what comes before nor what comes after matters. */
  lemma EveryRun(a: seq<Diff>, run: seq<Diff>, b: seq<Diff>)
    requires IsRun(run)
    requires (a != [] ==> a[|a| - 1].kind == Equal) && (b != [] ==> b[0].kind == Equal)
    ensures
      var del, ins := Side(run, Delete), Side(run, Insert);
      Repair(a + run + b) == Repair(a) + (if Real(del) == [] && Real(ins) == [] then del else ins) + Repair(b)
  {
    AfterRun(run);
    assert Repair(run) == [] + Kept(Side(run, Delete), Side(run, Insert)) == Kept(Side(run, Delete), Side(run, Insert));
    RepairTo(a + run, b);
    RepairFrom(a, run);
  }

  lemma FlushReal(p: Pending)
    ensures Real(p.Flushed()) == Real(p.out) + Real(p.ins)
  {
    RealAppend(p.out, Kept(p.del, p.ins));
  }

  /** No real line of the edit is lost, changed or moved. */
  lemma {:induction false} AfterIsReal(diffs: seq<Diff>)
    ensures Real(After(diffs).out) + Real(After(diffs).ins) == Real(Side(diffs, Insert))
  {
    if diffs != [] {
      var front, d := diffs[..|diffs| - 1], diffs[|diffs| - 1];
      var p := After(front);
      AfterIsReal(front);
      assert diffs == front + [d];
      SideSnoc(front, d, Insert);
      if d.kind == Equal {
        FlushReal(p);
        RealAppend(p.Flushed(), d.lines);
        RealAppend(Side(front, Insert), d.lines);
      } else if d.kind == Insert {
        RealAppend(p.ins, d.lines);
        RealAppend(Side(front, Insert), d.lines);
        Associate(Real(p.out), Real(p.ins), Real(d.lines));
      }
    }
  }

  /** Nothing but comments was deleted or inserted. */
  predicate OnlyMoved(diffs: seq<Diff>) {
    forall d | d in diffs && d.kind != Equal :: Real(d.lines) == []
  }

  /** An edit that only touched comments is undone entirely. */
  lemma {:induction false} AfterUndoes(diffs: seq<Diff>)
    requires OnlyMoved(diffs)
    ensures
      var p := After(diffs);
      Real(p.del) == [] && Real(p.ins) == [] && p.out + p.del == Side(diffs, Delete)
  {
    if diffs != [] {
      var front, d := diffs[..|diffs| - 1], diffs[|diffs| - 1];
      var p := After(front);
      assert d in diffs && diffs == front + [d];
      AfterUndoes(front);
      SideSnoc(front, d, Delete);
      if d.kind == Delete {
        RealAppend(p.del, d.lines);
        Associate(p.out, p.del, d.lines);
      } else if d.kind == Insert {
        RealAppend(p.ins, d.lines);
      }
    }
  }

  /** Every run of which neither side has a real line comes back as it was; all else stays as edited. */
  method KeepComments(original: seq<string>, edited: seq<string>, diffs: seq<Diff>) returns (out: seq<string>)
    requires Side(diffs, Delete) == original && Side(diffs, Insert) == edited
    ensures out == if original == [] then edited else Repair(diffs)
    ensures Real(out) == Real(edited)
    ensures original != [] && OnlyMoved(diffs) ==> out == original
  {
    if original == [] {
      return edited;
    }
    out := [];
    var del: seq<string>, ins: seq<string> := [], [];
    for i := 0 to |diffs|
      invariant Pending(out, del, ins) == After(diffs[..i])
    {
      var d := diffs[i];
      assert diffs[..i + 1] == diffs[..i] + [d];
      AfterSnoc(diffs[..i], d);
      match d.kind {
        case Equal =>
          out := Flush(out, del, ins);
          out, del, ins := out + d.lines, [], [];
        case Delete =>
          del := del + d.lines;
        case Insert =>
          ins := ins + d.lines;
      }
    }
    assert diffs[..|diffs|] == diffs;
    AfterIsReal(diffs);
    FlushReal(After(diffs));
    if OnlyMoved(diffs) {
      AfterUndoes(diffs);
    }
    out := Flush(out, del, ins);
  }
}
