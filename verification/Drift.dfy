// Whether a hook's patch is still in effect: apply it to the live object and see whether anything
// changes. The patches are JSON Merge Patches (RFC 7396), section 2 of which is `MergePatch`.
module Drift {
  import opened Values
  import Dotted

  function MergePatch(target: Value, patch: Value): Value
    decreases patch
  {
    match patch
    case Map(p) =>
      var t := if target.Map? then target.m else map[];
      Map(map k | k in t.Keys + p.Keys && !(k in p && p[k].Null?) ::
        if k in p then
          assert p[k] in p.Values;
          MergePatch(if k in t then t[k] else Null, p[k])
        else t[k])
    case _ => patch
  }

  /** A patch that has been applied changes nothing any more. */
  lemma {:induction false} PatchTwice(target: Value, patch: Value)
    ensures MergePatch(MergePatch(target, patch), patch) == MergePatch(target, patch)
    decreases patch
  {
    if patch.Map? {
      var p, once := patch.m, MergePatch(target, patch).m;
      var t := if target.Map? then target.m else map[];
      var twice := MergePatch(Map(once), patch).m;
      forall k | k in p && !p[k].Null?
        ensures twice[k] == once[k]
      {
        assert p[k] in p.Values;
        PatchTwice(if k in t then t[k] else Null, p[k]);
      }
      assert twice.Keys == once.Keys;
      assert twice == once;
    }
  }

  function Join(prefix: string, key: string): string {
    if prefix == "" then key else prefix + "." + key
  }

  /** A member that is missing reads as null. */
  function Member(m: Tree, k: string): Value {
    if k in m then m[k] else Null
  }

  /** The fields that differ, as dotted paths. */
  function Differences(prefix: string, a: Value, b: Value): set<string>
    decreases b, 1
  {
    if a.Map? && b.Map? then
      (set k, d | k in b.m && d in DifferencesAt(prefix, a.m, b, k) :: d) +
      set k | k in a.m && k !in b.m :: Join(prefix, k)
    else if a == b then {}
    else {prefix}
  }

  function DifferencesAt(prefix: string, a: Tree, b: Value, k: string): set<string>
    requires b.Map? && k in b.m
    decreases b, 0
  {
    assert b.m[k] in b.m.Values;
    Differences(Join(prefix, k), Member(a, k), b.m[k])
  }

  /** `b` without the null members that it has and `a` does not. */
  function WithoutAddedNulls(a: Value, b: Value): Value
    decreases b
  {
    if a.Map? && b.Map? then
      Map(map k | k in b.m && (k in a.m || !b.m[k].Null?) ::
        assert b.m[k] in b.m.Values;
        if k in a.m then WithoutAddedNulls(a.m[k], b.m[k]) else b.m[k])
    else b
  }

  /** The walk over the two objects finds every change but one: null members that appear. */
  lemma {:induction false} NoDifferences(prefix: string, a: Value, b: Value)
    ensures Differences(prefix, a, b) == {} <==> WithoutAddedNulls(a, b) == a
    decreases b
  {
    if a.Map? && b.Map? {
      var w := WithoutAddedNulls(a, b).m;
      forall k | k in b.m
        ensures k in a.m ==>
          (Differences(Join(prefix, k), a.m[k], b.m[k]) == {} <==> WithoutAddedNulls(a.m[k], b.m[k]) == a.m[k])
        ensures k !in a.m ==> (Differences(Join(prefix, k), Null, b.m[k]) == {} <==> b.m[k].Null?)
      {
        assert b.m[k] in b.m.Values;
        if k in a.m {
          NoDifferences(Join(prefix, k), a.m[k], b.m[k]);
        }
      }
      if Differences(prefix, a, b) == {} {
        NoneAtAll(prefix, a, b);
        assert w.Keys == a.m.Keys;
        assert w == a.m;
      }
      if w == a.m {
        assert forall k | k in a.m :: k in b.m;
        forall k | k in b.m
          ensures Differences(Join(prefix, k), Member(a.m, k), b.m[k]) == {}
        {
          assert k in a.m <==> k in w;
        }
      }
    }
  }

  lemma NoneAtAll(prefix: string, a: Value, b: Value)
    requires a.Map? && b.Map? && Differences(prefix, a, b) == {}
    ensures forall k | k in a.m :: k in b.m
    ensures forall k | k in b.m :: Differences(Join(prefix, k), Member(a.m, k), b.m[k]) == {}
  {
    forall k | k in a.m
      ensures k in b.m
    {
      assert k !in b.m ==> Join(prefix, k) in Differences(prefix, a, b);
    }
    forall k | k in b.m
      ensures Differences(Join(prefix, k), Member(a.m, k), b.m[k]) == {}
    {
      forall d
        ensures d !in DifferencesAt(prefix, a.m, b, k)
      {
        assert d in DifferencesAt(prefix, a.m, b, k) ==> d in Differences(prefix, a, b);
      }
      assert DifferencesAt(prefix, a.m, b, k) == {};
    }
  }

  // ----- Which fields are named -----

  function Walk(v: Value, p: Path): Option<Value> {
    if p == [] then Some(v) else if v.Map? then Get(v.m, p) else None
  }

  predicate Mapping(v: Option<Value>) {
    v.Some? && v.value.Map?
  }

  predicate BothMappings(a: Value, b: Value, p: Path) {
    Mapping(Walk(a, p)) && Mapping(Walk(b, p))
  }

  /** Both objects have mappings above `p`, and there they differ: not two mappings, and not a null
      that appears. */
  ghost predicate Changed(a: Value, b: Value, p: Path) {
    && (forall i | 0 <= i < |p| :: BothMappings(a, b, p[..i]))
    && !BothMappings(a, b, p)
    && Walk(a, p) != Walk(b, p) && !(Walk(a, p) == None && Walk(b, p) == Some(Null))
  }

  function JoinAll(prefix: string, p: Path): string
    decreases |p|
  {
    if p == [] then prefix else JoinAll(Join(prefix, p[0]), p[1..])
  }

  /** The name of a path is its keys joined by dots. */
  lemma {:induction false} JoinAllIsDotted(prefix: string, p: Path)
    requires p != [] && (prefix == "" ==> p[0] != "" || |p| == 1)
    ensures JoinAll(prefix, p) == if prefix == "" then Dotted.Join(p) else prefix + "." + Dotted.Join(p)
    decreases |p|
  {
    var here := Join(prefix, p[0]);
    if |p| > 1 {
      JoinAllIsDotted(here, p[1..]);
      var rest := Dotted.Join(p[1..]);
      assert prefix + "." + (p[0] + "." + rest) == prefix + "." + p[0] + "." + rest;
    } else {
      assert JoinAll(here, p[1..]) == here;
    }
  }

  ghost predicate Names(prefix: string, a: Value, b: Value, d: string, p: Path) {
    d == JoinAll(prefix, p) && Changed(a, b, p)
  }

  lemma WalkBelow(m: Tree, k: string, q: Path)
    ensures Walk(Map(m), [k] + q) == if k in m then Walk(m[k], q) else None
  {
    assert ([k] + q)[1..] == q;
    if q != [] {
      NothingInside(q);
    }
  }

  lemma NothingInside(q: Path)
    requires q != []
    ensures Get(map[], q) == None
  {
  }

  lemma ChangedBelow(a: Tree, b: Tree, k: string, q: Path)
    ensures Changed(Map(a), Map(b), [k] + q) <==>
      if k in b then Changed(Member(a, k), b[k], q) else q == [] && k in a
  {
    var p := [k] + q;
    WalkBelow(a, k, q);
    WalkBelow(b, k, q);
    assert p[..0] == [] && q[..0] == [];
    forall i | 0 <= i < |q|
      ensures p[..i + 1] == [k] + q[..i]
      ensures BothMappings(Map(a), Map(b), p[..i + 1]) <==> k in a && k in b && BothMappings(a[k], b[k], q[..i])
    {
      assert p[..i + 1] == [k] + q[..i];
      WalkBelow(a, k, q[..i]);
      WalkBelow(b, k, q[..i]);
    }
    var above := forall i | 0 <= i < |p| :: BothMappings(Map(a), Map(b), p[..i]);
    var inside := forall i | 0 <= i < |q| :: k in a && k in b && BothMappings(a[k], b[k], q[..i]);
    assert BothMappings(Map(a), Map(b), p[..0]);
    if above {
      forall i | 0 <= i < |q|
        ensures k in a && k in b && BothMappings(a[k], b[k], q[..i])
      {
        assert BothMappings(Map(a), Map(b), p[..i + 1]);
      }
    }
    if inside {
      forall i | 0 <= i < |p|
        ensures BothMappings(Map(a), Map(b), p[..i])
      {
        if i > 0 {
          assert BothMappings(a[k], b[k], q[..i - 1]);
        }
      }
    }
    if q != [] {
      assert !BothMappings(Member(a, k), Null, q[..0]) && !BothMappings(Null, Member(b, k), q[..0]);
    }
  }

  lemma AboveIsMapping(a: Value, b: Value, p: Path)
    requires Changed(a, b, p)
    ensures p != [] <==> a.Map? && b.Map?
  {
    assert p != [] ==> p[..0] == [] && BothMappings(a, b, p[..0]);
  }

  /** What is reported is exactly the names of the changed paths. */
  lemma {:induction false} ReportedIsChanged(prefix: string, a: Value, b: Value, d: string)
    ensures d in Differences(prefix, a, b) <==> exists p :: Names(prefix, a, b, d, p)
    decreases b
  {
    if a.Map? && b.Map? {
      if d in Differences(prefix, a, b) {
        if k :| k in b.m && d in DifferencesAt(prefix, a.m, b, k) {
          assert b.m[k] in b.m.Values;
          ReportedIsChanged(Join(prefix, k), Member(a.m, k), b.m[k], d);
          var q :| Names(Join(prefix, k), Member(a.m, k), b.m[k], d, q);
          NamedBelow(prefix, a.m, b.m, d, k, q);
        } else {
          var k :| k in a.m && k !in b.m && d == Join(prefix, k);
          NamedBelow(prefix, a.m, b.m, d, k, []);
        }
      }
      if p :| Names(prefix, a, b, d, p) {
        var k, q := p[0], p[1..];
        assert p == [k] + q;
        NamedBelow(prefix, a.m, b.m, d, k, q);
        if k in b.m {
          assert b.m[k] in b.m.Values;
          ReportedIsChanged(Join(prefix, k), Member(a.m, k), b.m[k], d);
          assert d in DifferencesAt(prefix, a.m, b, k);
        }
      }
    } else {
      assert Names(prefix, a, b, d, []) <==> d == prefix && a != b;
      forall p | Changed(a, b, p)
        ensures p == []
      {
        AboveIsMapping(a, b, p);
      }
    }
  }

  lemma NamedBelow(prefix: string, a: Tree, b: Tree, d: string, k: string, q: Path)
    ensures Names(prefix, Map(a), Map(b), d, [k] + q) <==>
      if k in b then Names(Join(prefix, k), Member(a, k), b[k], d, q)
      else q == [] && k in a && d == Join(prefix, k)
  {
    ChangedBelow(a, b, k, q);
    assert ([k] + q)[1..] == q;
    assert JoinAll(prefix, [k] + q) == JoinAll(Join(prefix, k), q);
  }

  /** A merge patch adds no null member. */
  lemma {:induction false} PatchAddsNoNulls(target: Value, patch: Value)
    ensures WithoutAddedNulls(target, MergePatch(target, patch)) == MergePatch(target, patch)
    decreases patch
  {
    if patch.Map? && target.Map? {
      var after := MergePatch(target, patch);
      forall k | k in after.m && k in target.m
        ensures WithoutAddedNulls(target.m[k], after.m[k]) == after.m[k]
      {
        if k in patch.m {
          assert patch.m[k] in patch.m.Values;
          PatchAddsNoNulls(target.m[k], patch.m[k]);
        } else {
          WithoutFromItself(target.m[k]);
        }
      }
      forall k | k in after.m && after.m[k].Null?
        ensures k in target.m
      {
        assert k in patch.m && !patch.m[k].Null? ==> !MergePatch(Member(target.m, k), patch.m[k]).Null?;
      }
      assert WithoutAddedNulls(target, after).m == after.m;
    }
  }

  lemma {:induction false} WithoutFromItself(v: Value)
    ensures WithoutAddedNulls(v, v) == v
    decreases v
  {
    if v.Map? {
      forall k | k in v.m
        ensures WithoutAddedNulls(v.m[k], v.m[k]) == v.m[k]
      {
        assert v.m[k] in v.m.Values;
        WithoutFromItself(v.m[k]);
      }
    }
  }

  /** For a merge patch the check is exact: no field is reported if and only if applying it changes nothing. */
  lemma MergeCheckIsExact(live: Value, patch: Value)
    ensures Differences("", live, MergePatch(live, patch)) == {} <==> MergePatch(live, patch) == live
  {
    NoDifferences("", live, MergePatch(live, patch));
    PatchAddsNoNulls(live, patch);
  }

  lemma JustAppliedIsSatisfied(live: Value, patch: Value)
    ensures var after := MergePatch(live, patch);
      Differences("", after, MergePatch(after, patch)) == {}
  {
    PatchTwice(live, patch);
    MergeCheckIsExact(MergePatch(live, patch), patch);
  }

  /** A JSON patch that adds a null member is reported as being in effect before it is. */
  lemma AddedNullIsMissed(live: Tree, k: string)
    requires k !in live
    ensures Map(live[k := Null]) != Map(live) && Differences("", Map(live), Map(live[k := Null])) == {}
  {
    var after := live[k := Null];
    var w := WithoutAddedNulls(Map(live), Map(after)).m;
    forall j | j in live
      ensures WithoutAddedNulls(live[j], after[j]) == live[j]
    {
      WithoutFromItself(live[j]);
    }
    assert w == live;
    assert k in after;
    NoDifferences("", Map(live), Map(after));
  }

  /** Appends the fields that differ, the members taken in any order. */
  method Diff(prefix: string, a: Value, b: Value, out: seq<string>) returns (res: seq<string>)
    ensures forall d :: d in res <==> d in out || d in Differences(prefix, a, b)
    decreases b
  {
    res := out;
    if a.Map? && b.Map? {
      var todo := b.m.Keys;
      while todo != {}
        invariant todo <= b.m.Keys
        invariant forall d :: d in res <==>
          d in out || exists k :: k in b.m && k !in todo && d in DifferencesAt(prefix, a.m, b, k)
        decreases todo
      {
        var k :| k in todo;
        assert b.m[k] in b.m.Values;
        ghost var before := res;
        res := Diff(Join(prefix, k), Member(a.m, k), b.m[k], res);
        assert forall d :: d in res <==> d in before || d in DifferencesAt(prefix, a.m, b, k);
        todo := todo - {k};
      }
      todo := a.m.Keys - b.m.Keys;
      ghost var walked := res;
      while todo != {}
        invariant todo <= a.m.Keys - b.m.Keys
        invariant forall d :: d in res <==>
          d in walked || exists k :: k in a.m.Keys - b.m.Keys - todo && d == Join(prefix, k)
        decreases todo
      {
        var k :| k in todo;
        res := res + [Join(prefix, k)];
        todo := todo - {k};
      }
      return;
    }
    if a != b {
      res := res + [prefix];
    }
  }

  datatype Status = Satisfied | Drifted | Unknown

  datatype Patch =
    | MergeDoc(doc: Option<Value>)      // none when the text is no document
    | JsonDoc(result: Option<Value>)    // what the library makes of the live object; none on an error
    | Strategic

  function Apply(live: Value, patch: Patch): Option<Value> {
    match patch
    case MergeDoc(doc) => if doc.Some? then Some(MergePatch(live, doc.value)) else None
    case JsonDoc(result) => result
    case Strategic => None
  }

  /** One finding. `live` is none without a connection, without the object, or on an error. */
  method CheckOne(live: Option<Value>, patch: Patch) returns (status: Status, paths: seq<string>)
    ensures status == Unknown <==> live.None? || Apply(live.value, patch).None?
    ensures status == Unknown <==> live.None? || (match patch
      case MergeDoc(doc) => doc.None?
      case JsonDoc(result) => result.None?
      case Strategic => true)
    ensures status == Satisfied ==>
      paths == [] && WithoutAddedNulls(live.value, Apply(live.value, patch).value) == live.value
    ensures status == Drifted ==>
      paths != [] && WithoutAddedNulls(live.value, Apply(live.value, patch).value) != live.value
    ensures status != Unknown ==>
      forall d :: d in paths <==> exists p :: Names("", live.value, Apply(live.value, patch).value, d, p)
    ensures status != Unknown && patch.MergeDoc? ==>
      (status == Satisfied <==> MergePatch(live.value, patch.doc.value) == live.value)
    ensures status != Unknown && patch.JsonDoc? ==>
      (status == Satisfied <==> WithoutAddedNulls(live.value, patch.result.value) == live.value)
  {
    if live.None? || Apply(live.value, patch).None? {
      return Unknown, [];
    }
    var after := Apply(live.value, patch).value;
    paths := Diff("", live.value, after, []);
    forall d
      ensures d in paths <==> exists p :: Names("", live.value, after, d, p)
    {
      ReportedIsChanged("", live.value, after, d);
    }
    NoDifferences("", live.value, after);
    assert paths != [] ==> paths[0] in paths;
    if patch.MergeDoc? {
      MergeCheckIsExact(live.value, patch.doc.value);
    }
    status := if paths == [] then Satisfied else Drifted;
  }
}
