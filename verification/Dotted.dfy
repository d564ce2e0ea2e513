// Paths as the forms and the reports write them: keys joined by dots.
module Dotted {
  function Split(s: string): (segs: seq<string>)
    ensures segs != []
  {
    if s == "" then [""]
    else
      var rest := Split(s[1..]);
      if s[0] == '.' then [""] + rest else Onto(s[0], rest)
  }

  function Onto(c: char, segs: seq<string>): seq<string>
    requires segs != []
  {
    [[c] + segs[0]] + segs[1..]
  }

  function Join(segs: seq<string>): string
    requires segs != []
  {
    if |segs| == 1 then segs[0] else segs[0] + "." + Join(segs[1..])
  }

  lemma {:induction false} JoinSplit(s: string)
    ensures Join(Split(s)) == s
  {
    if s != "" {
      JoinSplit(s[1..]);
      var rest, segs := Split(s[1..]), Split(s);
      if s[0] == '.' {
        assert segs[1..] == rest;
        assert Join(segs) == "." + s[1..];
      } else if |rest| > 1 {
        assert segs[1..] == rest[1..];
        assert Join(segs) == [s[0]] + rest[0] + "." + Join(rest[1..]) == [s[0]] + s[1..];
      }
      assert Join(segs) == [s[0]] + s[1..];
    }
  }

  /** Keys without dots come back as they went in. */
  lemma {:induction false} SplitJoin(segs: seq<string>)
    requires segs != [] && forall k | k in segs :: '.' !in k
    ensures Split(Join(segs)) == segs
  {
    if |segs| == 1 {
      SplitPlain(segs[0]);
    } else {
      SplitJoin(segs[1..]);
      SplitFirst(segs[0], Join(segs[1..]));
      assert segs[0] + ("." + Join(segs[1..])) == Join(segs);
    }
  }

  lemma {:induction false} JoinCut(segs: seq<string>, n: nat)
    requires 0 < n < |segs|
    ensures Join(segs) == Join(segs[..n]) + "." + Join(segs[n..])
  {
    if n > 1 {
      JoinCut(segs[1..], n - 1);
      assert segs[1..][..n - 1] == segs[..n][1..] && segs[1..][n - 1..] == segs[n..];
      var a, b := Join(segs[..n][1..]), Join(segs[n..]);
      assert segs[0] + "." + (a + "." + b) == (segs[0] + "." + a) + "." + b;
    }
  }

  lemma {:induction false} SplitPlain(k: string)
    requires '.' !in k
    ensures Split(k) == [k]
  {
    if k != "" {
      SplitPlain(k[1..]);
      assert [k[0]] + k[1..] == k;
    }
  }

  lemma {:induction false} SplitFirst(k: string, rest: string)
    requires '.' !in k
    ensures Split(k + ("." + rest)) == [k] + Split(rest)
  {
    var s := k + ("." + rest);
    if k == "" {
      assert s == "." + rest && s[1..] == rest;
    } else {
      SplitFirst(k[1..], rest);
      assert s[1..] == k[1..] + ("." + rest);
      assert [k[0]] + k[1..] == k;
    }
  }

  lemma OntoFirst(c: char, segs: seq<string>, more: seq<string>)
    requires segs != []
    ensures Onto(c, segs + more) == Onto(c, segs) + more
  {
    assert (segs + more)[1..] == segs[1..] + more;
  }

  /** A joined path splits into the segments of what was joined. */
  lemma {:induction false} SplitBoth(a: string, b: string)
    ensures Split(a + ("." + b)) == Split(a) + Split(b)
  {
    var s := a + ("." + b);
    if a == "" {
      assert s == "." + b && s[1..] == b;
    } else {
      SplitBoth(a[1..], b);
      assert s[0] == a[0] && s[1..] == a[1..] + ("." + b);
      OntoFirst(a[0], Split(a[1..]), Split(b));
      assert [""] + (Split(a[1..]) + Split(b)) == [""] + Split(a[1..]) + Split(b);
    }
  }

  /** The segments of all keys of a path. */
  function Segments(p: seq<string>): seq<string> {
    if p == [] then [] else Split(p[0]) + Segments(p[1..])
  }

  lemma {:induction false} SplitIsPlain(s: string)
    ensures forall k | k in Split(s) :: '.' !in k
  {
    if s != "" {
      SplitIsPlain(s[1..]);
    }
  }

  lemma {:induction false} SegmentsArePlain(p: seq<string>)
    ensures forall k | k in Segments(p) :: '.' !in k
  {
    if p != [] {
      SplitIsPlain(p[0]);
      SegmentsArePlain(p[1..]);
    }
  }

  lemma {:induction false} SplitJoined(p: seq<string>)
    requires p != []
    ensures Split(Join(p)) == Segments(p)
  {
    if |p| == 1 {
      assert Segments(p[1..]) == [];
    } else {
      SplitJoined(p[1..]);
      SplitBoth(p[0], Join(p[1..]));
      assert p[0] + ("." + Join(p[1..])) == Join(p);
    }
  }

  /** `splitDot`: the empty path has no segments. */
  method SplitDot(s: string) returns (out: seq<string>)
    ensures out == if s == "" then [] else Split(s)
  {
    if s == "" {
      return [];
    }
    out := [];
    var cur := "";
    assert s[0..] == s && "" + Split(s)[0] == Split(s)[0];
    for i := 0 to |s|
      invariant Split(s) == Carried(out, cur, s[i..])
    {
      CarryOne(out, cur, s[i..]);
      assert s[i..][1..] == s[i + 1..];
      if s[i] == '.' {
        out := out + [cur];
        cur := "";
      } else {
        cur := cur + [s[i]];
      }
    }
    assert s[|s|..] == "" && cur + "" == cur;
    out := out + [cur];
  }

  /** What the loop of `SplitDot` still returns when `rest` is left to read. */
  function Carried(out: seq<string>, cur: string, rest: string): seq<string> {
    out + [cur + Split(rest)[0]] + Split(rest)[1..]
  }

  lemma CarryOne(out: seq<string>, cur: string, rest: string)
    requires rest != ""
    ensures Carried(out, cur, rest) ==
      if rest[0] == '.' then Carried(out + [cur], "", rest[1..]) else Carried(out, cur + [rest[0]], rest[1..])
  {
    var below := Split(rest[1..]);
    if rest[0] == '.' {
      assert cur + "" == cur && "" + below[0] == below[0];
      assert Split(rest)[1..] == [below[0]] + below[1..];
    } else {
      assert cur + ([rest[0]] + below[0]) == cur + [rest[0]] + below[0];
      assert Split(rest)[1..] == below[1..];
    }
  }
}
