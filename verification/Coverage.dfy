// Whether a hook still has anything to do: it is skipped when the object that the chart renders already
// carries every value its patches set.
module Coverage {
  import opened Values
  import opened Leaves
  import opened Edits
  import Dotted
  import Drift

  /** How values print, and what amount a printed quantity stands for. */
  datatype Notation = Notation(sprint: Value -> string, quantity: string -> Option<int>)

  predicate SameValue(no: Notation, a: Value, b: Value) {
    a == b ||
    var qa, qb := no.quantity(no.sprint(a)), no.quantity(no.sprint(b));
    if qa.Some? && qb.Some? then qa == qb else no.sprint(a) == no.sprint(b)
  }

  /** Two quantities of different amounts, or two values that print differently and are not both quantities. */
  predicate Differs(no: Notation, a: Value, b: Value) {
    var qa, qb := no.quantity(no.sprint(a)), no.quantity(no.sprint(b));
    match (qa, qb)
    case (Some(x), Some(y)) => x != y
    case _ => no.sprint(a) != no.sprint(b)
  }

  /** Values count as the same exactly when they do not differ: equal amounts do, and equal prints. */
  lemma SameOrDiffers(no: Notation, a: Value, b: Value)
    ensures SameValue(no, a, b) <==> !Differs(no, a, b)
    ensures no.sprint(a) == no.sprint(b) ==> SameValue(no, a, b)
    ensures
      var qa, qb := no.quantity(no.sprint(a)), no.quantity(no.sprint(b));
      qa.Some? && qb.Some? ==> (SameValue(no, a, b) <==> qa.value == qb.value)
  {
  }

  // ----- Reading a path -----

  /** How many of the segments name the longest existing key; 0 when none does. */
  function LongestKey(m: Tree, segs: seq<string>, n: nat): (r: nat)
    requires n <= |segs|
    ensures r <= n && (r > 0 ==> Dotted.Join(segs[..r]) in m)
    ensures forall j | r < j <= n :: Dotted.Join(segs[..j]) !in m
  {
    if n == 0 then 0
    else if Dotted.Join(segs[..n]) in m then n
    else LongestKey(m, segs, n - 1)
  }

  function Cut(s: string, at: char): (r: Option<(string, string)>)
    ensures r.Some? ==> s == r.value.0 + [at] + r.value.1 && at !in r.value.0
    ensures r.None? ==> at !in s
  {
    if s == "" then None
    else if s[0] == at then Some(("", s[1..]))
    else
      var rest := Cut(s[1..], at);
      if rest.None? then None else Some(([s[0]] + rest.value.0, rest.value.1))
  }

  /** The key=value pairs inside the braces; none when one of them has no equals sign. */
  function Wanted(s: string): Option<map<string, string>>
    decreases |s|
  {
    var comma := Cut(s, ',');
    var first := if comma.Some? then comma.value.0 else s;
    var pair := Cut(first, '=');
    if pair.None? then None
    else if comma.None? then Some(map[pair.value.0 := pair.value.1])
    else
      var rest := Wanted(comma.value.1);
      if rest.None? then None else Some(map[pair.value.0 := pair.value.1] + rest.value)
  }

  predicate Selector(seg: string) {
    seg != "" && seg[0] == '{' && seg[|seg| - 1] == '}'
  }

  predicate Selected(no: Notation, item: Value, want: map<string, string>) {
    item.Map? && forall k | k in want :: no.sprint(Drift.Member(item.m, k)) == want[k]
  }

  function FirstSelected(no: Notation, items: seq<Value>, want: map<string, string>): (r: Option<Value>)
    ensures r.Some? ==> r.value in items
  {
    if items == [] then None
    else if Selected(no, items[0], want) then Some(items[0])
    else FirstSelected(no, items[1..], want)
  }

  function ValueAt(no: Notation, cur: Value, segs: seq<string>): Option<Value>
    decreases |segs|
  {
    if segs == [] then Some(cur)
    else
      match cur
      case Map(m) =>
        var n := LongestKey(m, segs, |segs|);
        if n == 0 then None else ValueAt(no, m[Dotted.Join(segs[..n])], segs[n..])
      case List(items) =>
        if !Selector(segs[0]) then None
        else
          var want := Wanted(segs[0][1..|segs[0]| - 1]);
          var item := if want.None? then None else FirstSelected(no, items, want.value);
          if item.None? then None else ValueAt(no, item.value, segs[1..])
      case _ => None
  }

  // ----- Items of a list -----

  lemma {:induction false} CutAt(front: string, at: char, back: string)
    requires at !in front
    ensures Cut(front + [at] + back, at) == Some((front, back)) && Cut(front, at) == None
  {
    var s := front + [at] + back;
    if front != "" {
      CutAt(front[1..], at, back);
      assert s[1..] == front[1..] + [at] + back && [front[0]] + front[1..] == front;
    } else {
      assert s[1..] == back;
    }
  }

  /** Pairs are separated by commas, and a later one for the same key counts; a piece without an equals sign
      makes the whole unreadable. */
  lemma WantedPair(k: string, v: string, more: string)
    requires '=' !in k && ',' !in k && ',' !in v
    ensures Wanted(k + "=" + v) == Some(map[k := v])
    ensures
      var rest := Wanted(more);
      Wanted(k + "=" + v + "," + more) == if rest.None? then None else Some(map[k := v] + rest.value)
    ensures Wanted(k) == None && Wanted(k + "," + more) == None
  {
    var pair := k + "=" + v;
    assert ',' !in pair;
    CutAt(pair, ',', more);
    CutAt(k, ',', more);
    CutAt(k, '=', v);
    assert pair + "," + more == pair + [','] + more && k + "," + more == k + [','] + more;
  }

  /** A mapping whose members print as wanted; one that is missing prints as null does. */
  ghost predicate Bears(no: Notation, item: Value, want: map<string, string>) {
    item.Map? && forall k | k in want :: want[k] == no.sprint(if k in item.m then item.m[k] else Null)
  }

  ghost predicate FirstBearing(no: Notation, items: seq<Value>, want: map<string, string>, i: nat) {
    i < |items| && Bears(no, items[i], want) && forall j | 0 <= j < i :: !Bears(no, items[j], want)
  }

  lemma {:induction false} FirstSelectedIs(no: Notation, items: seq<Value>, want: map<string, string>)
    ensures
      var r := FirstSelected(no, items, want);
      if r.Some? then exists i: nat :: FirstBearing(no, items, want, i) && items[i] == r.value
      else forall item | item in items :: !Bears(no, item, want)
  {
    if items != [] {
      assert Selected(no, items[0], want) <==> Bears(no, items[0], want);
      if Bears(no, items[0], want) {
        assert FirstBearing(no, items, want, 0);
      } else {
        FirstSelectedIs(no, items[1..], want);
        var r := FirstSelected(no, items[1..], want);
        if r.Some? {
          var i: nat :| FirstBearing(no, items[1..], want, i) && items[1..][i] == r.value;
          assert FirstBearing(no, items, want, i + 1);
        } else {
          assert items == [items[0]] + items[1..];
        }
      }
    }
  }

  /** A selector reads on in the first item that bears what is wanted, and nowhere else. */
  lemma SelectorReads(no: Notation, items: seq<Value>, inner: string, want: map<string, string>, rest: seq<string>)
    requires Wanted(inner) == Some(want)
    ensures forall i: nat | FirstBearing(no, items, want, i) ::
      ValueAt(no, List(items), ["{" + inner + "}"] + rest) == ValueAt(no, items[i], rest)
    ensures (forall item | item in items :: !Bears(no, item, want)) ==>
      ValueAt(no, List(items), ["{" + inner + "}"] + rest) == None
  {
    var seg := "{" + inner + "}";
    assert seg[1..|seg| - 1] == inner && ([seg] + rest)[1..] == rest;
    FirstSelectedIs(no, items, want);
  }

  /** Any other segment reads nothing in a list. */
  lemma OnlySelectorsRead(no: Notation, items: seq<Value>, segs: seq<string>)
    requires segs != [] && ValueAt(no, List(items), segs).Some?
    ensures
      var seg := segs[0];
      |seg| >= 2 && seg[0] == '{' && seg[|seg| - 1] == '}' && Wanted(seg[1..|seg| - 1]).Some?
  {
  }

  predicate Carries(no: Notation, obj: Tree, path: string, want: Value) {
    var got := ValueAt(no, Map(obj), Dotted.Split(path));
    got.Some? && SameValue(no, got.value, want)
  }

  /** Whether the chart's object carries everything that is set, and what it lacks. */
  method PatchCovered(no: Notation, obj: Option<Tree>, sets: map<string, Value>)
      returns (ok: bool, missing: set<string>)
    ensures ok <==> sets != map[] && obj.Some? && forall path | path in sets :: Carries(no, obj.value, path, sets[path])
    ensures obj.Some? ==> missing == set path | path in sets && !Carries(no, obj.value, path, sets[path])
    ensures obj.None? ==> missing == sets.Keys
  {
    missing := {};
    if sets == map[] {
      return false, {};
    }
    var todo := sets.Keys;
    while todo != {}
      invariant todo <= sets.Keys
      invariant obj.Some? ==>
        missing == set path | path in sets.Keys - todo && !Carries(no, obj.value, path, sets[path])
      invariant obj.None? ==> missing == sets.Keys - todo
      decreases todo
    {
      var path :| path in todo;
      if obj.None? || !Carries(no, obj.value, path, sets[path]) {
        missing := missing + {path};
      }
      todo := todo - {path};
    }
    ok := missing == {};
    if ok && obj.Some? {
      forall path | path in sets
        ensures Carries(no, obj.value, path, sets[path])
      {
        assert path !in missing;
      }
    }
  }

  // ----- What a merge patch sets -----

  function KeyBelow(prefix: string, k: string): string {
    if prefix != "" then prefix + "." + k else k
  }

  /** The name under which `Flatten` writes the leaf at `p`. */
  function NameOf(prefix: string, p: Path): string
    decreases |p|
  {
    if p == [] then prefix else NameOf(KeyBelow(prefix, p[0]), p[1..])
  }

  ghost predicate Names(prefix: string, m: Tree, name: string, v: Value) {
    exists p :: LeafAt(m, p, v) && NameOf(prefix, p) == name
  }

  /** Every entry names a leaf and holds its value, and every leaf is named. */
  ghost predicate Flattened(sets: map<string, Value>, patch: Tree) {
    && (forall name | name in sets :: Names("", patch, name, sets[name]))
    && (forall p, v | LeafAt(patch, p, v) :: NameOf("", p) in sets)
  }

  method Flatten(prefix: string, m: Tree, out: map<string, Value>) returns (res: map<string, Value>)
    ensures out.Keys <= res.Keys
    ensures forall name | name in res ::
      (name in out && res[name] == out[name]) || Names(prefix, m, name, res[name])
    ensures forall p, v | LeafAt(m, p, v) :: NameOf(prefix, p) in res
    decreases Map(m)
  {
    res := out;
    var todo := m.Keys;
    while todo != {}
      invariant todo <= m.Keys && out.Keys <= res.Keys
      invariant forall name | name in res ::
        (name in out && res[name] == out[name]) || Names(prefix, m, name, res[name])
      invariant forall p, v | LeafAt(m, p, v) && p[0] !in todo :: NameOf(prefix, p) in res
      decreases todo
    {
      var k :| k in todo;
      ghost var before := res;
      if IsLeaf(m[k]) {
        res := res[KeyBelow(prefix, k) := m[k]];
        LeafHere(prefix, m, k);
      } else {
        assert m[k] in m.Values;
        res := Flatten(KeyBelow(prefix, k), m[k].m, res);
        forall name | name in res && !(name in before && res[name] == before[name])
          ensures Names(prefix, m, name, res[name])
        {
          var p :| LeafAt(m[k].m, p, res[name]) && NameOf(KeyBelow(prefix, k), p) == name;
          LeafBelow(prefix, m, k, p, res[name]);
        }
        forall p, v | LeafAt(m, p, v) && p[0] == k
          ensures NameOf(prefix, p) in res
        {
          assert LeafAt(m[k].m, p[1..], v);
        }
      }
      todo := todo - {k};
    }
  }

  lemma LeafHere(prefix: string, m: Tree, k: string)
    requires k in m && IsLeaf(m[k])
    ensures LeafAt(m, [k], m[k]) && NameOf(prefix, [k]) == KeyBelow(prefix, k)
    ensures forall p, v | LeafAt(m, p, v) && p[0] == k :: p == [k] && v == m[k]
  {
  }

  lemma LeafBelow(prefix: string, m: Tree, k: string, p: Path, v: Value)
    requires k in m && !IsLeaf(m[k]) && LeafAt(m[k].m, p, v)
    ensures LeafAt(m, [k] + p, v) && NameOf(prefix, [k] + p) == NameOf(KeyBelow(prefix, k), p)
  {
    assert ([k] + p)[1..] == p;
  }

  // ----- Patches whose keys read back as they were written -----

  predicate Plain(k: string) {
    k != "" && '.' !in k && !Selector(k)
  }

  predicate PlainPatch(patch: Tree)
    decreases Map(patch)
  {
    forall k | k in patch :: Plain(k) && (IsLeaf(patch[k]) || (assert patch[k] in patch.Values; PlainPatch(patch[k].m)))
  }

  /** No mapping of the object that the patch reaches has a key with a dot in it. */
  predicate Undotted(obj: Tree, patch: Tree)
    decreases Map(patch)
  {
    && (forall k | k in obj :: '.' !in k)
    && forall k | k in patch && !IsLeaf(patch[k]) ::
      assert patch[k] in patch.Values; Undotted(SubTree(obj, k), patch[k].m)
  }

  lemma {:induction false} LeafKeys(patch: Tree, p: Path, v: Value)
    requires PlainPatch(patch) && LeafAt(patch, p, v)
    ensures forall k | k in p :: Plain(k)
    decreases |p|
  {
    if !IsLeaf(patch[p[0]]) {
      LeafKeys(patch[p[0]].m, p[1..], v);
    }
    assert p == [p[0]] + p[1..];
  }

  lemma {:induction false} LeafUnique(m: Tree, p: Path, v: Value, w: Value)
    requires LeafAt(m, p, v) && LeafAt(m, p, w)
    ensures v == w
    decreases |p|
  {
    if !IsLeaf(m[p[0]]) {
      LeafUnique(m[p[0]].m, p[1..], v, w);
    }
  }

  /** A name is the joined path, unless the path starts below an empty key. */
  lemma {:induction false} NameIsJoin(prefix: string, p: Path)
    requires p != [] && (prefix != "" || p[0] != "" || |p| == 1)
    ensures NameOf(prefix, p) == KeyBelow(prefix, Dotted.Join(p))
    decreases |p|
  {
    if |p| > 1 {
      NameIsJoin(KeyBelow(prefix, p[0]), p[1..]);
      Reprefix(prefix, p[0], Dotted.Join(p[1..]));
    }
  }

  lemma Reprefix(prefix: string, k: string, rest: string)
    ensures prefix + "." + k + "." + rest == prefix + "." + (k + "." + rest)
  {
  }

  /** No two leaves of the patch have the same name, and none lies below an empty key. */
  ghost predicate Telling(patch: Tree) {
    && ("" in patch ==> IsLeaf(patch[""]))
    && forall p, v, q, w | LeafAt(patch, p, v) && LeafAt(patch, q, w) && Dotted.Join(p) == Dotted.Join(q) :: p == q
  }

  lemma LeafName(patch: Tree, p: Path, v: Value)
    requires Telling(patch) && LeafAt(patch, p, v)
    ensures NameOf("", p) == Dotted.Join(p)
  {
    NameIsJoin("", p);
  }

  /** What was flattened is found under the joined path of every leaf. */
  lemma FlattenedHolds(sets: map<string, Value>, patch: Tree, p: Path, v: Value)
    requires Telling(patch) && Flattened(sets, patch) && LeafAt(patch, p, v)
    ensures Dotted.Join(p) in sets && sets[Dotted.Join(p)] == v
  {
    LeafName(patch, p, v);
    var name := Dotted.Join(p);
    var q :| LeafAt(patch, q, sets[name]) && NameOf("", q) == name;
    LeafName(patch, q, sets[name]);
    LeafUnique(patch, p, v, sets[name]);
  }

  /** Where the object has the next key of the path, no longer run of segments is a key; where it has not,
      no run is one. */
  predicate ReadAsKeys(obj: Tree, p: Path)
    decreases |p|
  {
    p != [] ==>
      var segs, own := Dotted.Segments(p), |Dotted.Split(p[0])|;
      && (forall j | 1 <= j <= |segs| && (j > own || p[0] !in obj) :: Dotted.Join(segs[..j]) !in obj)
      && (p[0] in obj && obj[p[0]].Map? ==> ReadAsKeys(obj[p[0]].m, p[1..]))
      && (p[0] in obj && obj[p[0]].List? && |p| > 1 ==> !Selector(Dotted.Segments(p[1..])[0]))
  }

  lemma LongestIsOwn(obj: Tree, p: Path)
    requires p != [] && ReadAsKeys(obj, p)
    ensures
      var segs, own := Dotted.Segments(p), |Dotted.Split(p[0])|;
      && LongestKey(obj, segs, |segs|) == (if p[0] in obj then own else 0)
      && Dotted.Join(segs[..own]) == p[0] && segs[own..] == Dotted.Segments(p[1..])
  {
    var segs, own := Dotted.Segments(p), Dotted.Split(p[0]);
    assert segs[..|own|] == own && segs[|own|..] == Dotted.Segments(p[1..]);
    Dotted.JoinSplit(p[0]);
    var n := LongestKey(obj, segs, |segs|);
    assert n > 0 ==> Dotted.Join(segs[..n]) in obj;
  }

  /** Although keys are looked for by their segments, the path then leads through the object key by key. */
  lemma {:induction false} ReadsOwnKeys(no: Notation, obj: Tree, p: Path)
    requires p != [] && ReadAsKeys(obj, p)
    ensures ValueAt(no, Map(obj), Dotted.Segments(p)) == Get(obj, p)
    decreases |p|
  {
    LongestIsOwn(obj, p);
    if p[0] in obj && |p| > 1 {
      var rest := Dotted.Segments(p[1..]);
      assert rest != [];
      assert ValueAt(no, Map(obj), Dotted.Segments(p)) == ValueAt(no, obj[p[0]], rest);
      if obj[p[0]].Map? {
        ReadsOwnKeys(no, obj[p[0]].m, p[1..]);
      }
    }
  }

  /** Every leaf of the patch is read in the object by its own keys. */
  ghost predicate Readable(obj: Tree, patch: Tree) {
    forall p, v | LeafAt(patch, p, v) :: ReadAsKeys(obj, p)
  }

  /** The path by which segments are read. */
  function Followed(obj: Tree, segs: seq<string>): Option<Path>
    decreases |segs|
  {
    var n := LongestKey(obj, segs, |segs|);
    if n == 0 then None
    else
      var key := Dotted.Join(segs[..n]);
      if n == |segs| then Some([key])
      else if !obj[key].Map? then None
      else
        var rest := Followed(obj[key].m, segs[n..]);
        if rest.None? then None else Some([key] + rest.value)
  }

  /** Whatever the keys: what is read under a name stands in the object at a path of that name. */
  lemma {:induction false} ReadsSomePath(no: Notation, obj: Tree, segs: seq<string>) returns (p: Path)
    requires segs != [] && ValueAt(no, Map(obj), segs).Some? && forall s | s in segs :: !Selector(s)
    ensures p != [] && Dotted.Join(p) == Dotted.Join(segs) && Get(obj, p) == ValueAt(no, Map(obj), segs)
    ensures Followed(obj, segs) == Some(p)
    decreases |segs|
  {
    var n := LongestKey(obj, segs, |segs|);
    var key := Dotted.Join(segs[..n]);
    if n == |segs| {
      assert segs[..n] == segs && segs[n..] == [];
      p := [key];
    } else {
      var rest := segs[n..];
      assert ValueAt(no, Map(obj), segs) == ValueAt(no, obj[key], rest);
      assert forall s | s in rest :: s in segs;
      assert rest[0] in segs;
      var q := ReadsSomePath(no, obj[key].m, rest);
      p := [key] + q;
      assert p[1..] == q;
      Dotted.JoinCut(segs, n);
    }
  }

  /** A run of segments that joins to a key is the key's own. */
  lemma RunOfKey(p: Path, n: nat)
    requires p != [] && 0 < n <= |Dotted.Segments(p)| && Dotted.Join(Dotted.Segments(p)[..n]) == p[0]
    ensures n == |Dotted.Split(p[0])|
  {
    var run := Dotted.Segments(p)[..n];
    Dotted.SegmentsArePlain(p);
    assert forall k | k in run :: k in Dotted.Segments(p);
    Dotted.SplitJoin(run);
  }

  lemma OwnRun(p: Path)
    requires p != []
    ensures
      var segs, own := Dotted.Segments(p), |Dotted.Split(p[0])|;
      0 < own <= |segs| && Dotted.Join(segs[..own]) == p[0] && segs[own..] == Dotted.Segments(p[1..])
  {
    var segs, own := Dotted.Segments(p), Dotted.Split(p[0]);
    assert segs[..|own|] == own && segs[|own|..] == Dotted.Segments(p[1..]);
    Dotted.JoinSplit(p[0]);
  }

  lemma FollowsFirst(obj: Tree, p: Path)
    requires p != [] && Followed(obj, Dotted.Segments(p)).Some?
    requires Followed(obj, Dotted.Segments(p)).value[..1] == p[..1]
    ensures
      var segs, own := Dotted.Segments(p), |Dotted.Split(p[0])|;
      LongestKey(obj, segs, |segs|) == own && Dotted.Join(segs[..own]) == p[0] && segs[own..] == Dotted.Segments(p[1..])
  {
    var segs := Dotted.Segments(p);
    OwnRun(p);
    assert Followed(obj, segs).value[0] == p[0];
    RunOfKey(p, LongestKey(obj, segs, |segs|));
  }

  lemma {:induction false} FollowedIsRead(obj: Tree, p: Path)
    requires p != [] && Followed(obj, Dotted.Segments(p)) == Some(p)
    ensures Get(obj, p).Some? && ReadAsKeys(obj, p)
    decreases |p|
  {
    var segs := Dotted.Segments(p);
    FollowsFirst(obj, p);
    if |p| > 1 {
      assert Dotted.Segments(p[1..]) != [];
      var rest := Followed(obj[p[0]].m, Dotted.Segments(p[1..]));
      assert [p[0]] + rest.value == p && rest.value == p[1..];
      FollowedIsRead(obj[p[0]].m, p[1..]);
    }
  }

  lemma {:induction false} ReadIsFollowed(obj: Tree, p: Path)
    requires p != [] && Get(obj, p).Some? && ReadAsKeys(obj, p)
    ensures Followed(obj, Dotted.Segments(p)) == Some(p)
    decreases |p|
  {
    LongestIsOwn(obj, p);
    if |p| == 1 {
      assert Dotted.Segments(p[1..]) == [] && [p[0]] == p;
    } else {
      assert Dotted.Segments(p[1..]) != [];
      ReadIsFollowed(obj[p[0]].m, p[1..]);
      assert [p[0]] + p[1..] == p;
    }
  }

  /** The reading follows a path exactly when the object has something there and each of its keys is the
      one that is read. */
  lemma FollowsItself(obj: Tree, p: Path)
    requires p != []
    ensures Followed(obj, Dotted.Segments(p)) == Some(p) <==> Get(obj, p).Some? && ReadAsKeys(obj, p)
  {
    if Followed(obj, Dotted.Segments(p)) == Some(p) {
      FollowedIsRead(obj, p);
    } else if Get(obj, p).Some? && ReadAsKeys(obj, p) {
      ReadIsFollowed(obj, p);
    }
  }

  /** An accepted leaf is answered by the place that is followed; that is its own if and only if the object
      has something at its own place and reads it by its own keys. */
  lemma AcceptedAtItsPlace(no: Notation, obj: Tree, p: KeyPath, v: Value) returns (q: KeyPath)
    requires Carries(no, obj, Dotted.Join(p), v) && forall s | s in Dotted.Segments(p) :: !Selector(s)
    ensures Followed(obj, Dotted.Segments(p)) == Some(q) && Dotted.Join(q) == Dotted.Join(p)
    ensures Get(obj, q).Some? && SameValue(no, Get(obj, q).value, v)
    ensures q == p <==> Get(obj, p).Some? && ReadAsKeys(obj, p)
  {
    Dotted.SplitJoined(p);
    Dotted.JoinSplit(Dotted.Join(p));
    q := ReadsSomePath(no, obj, Dotted.Segments(p));
    FollowsItself(obj, p);
  }

  // ----- Keys without dots -----

  lemma {:induction false} PlainSegments(p: Path)
    requires forall k | k in p :: '.' !in k
    ensures Dotted.Segments(p) == p
  {
    if p != [] {
      Dotted.SplitPlain(p[0]);
      PlainSegments(p[1..]);
      assert [p[0]] + p[1..] == p;
    }
  }

  lemma JoinHasDot(segs: seq<string>, n: nat)
    requires 2 <= n <= |segs|
    ensures '.' in Dotted.Join(segs[..n])
  {
    var s := segs[..n];
    assert Dotted.Join(s) == s[0] + "." + Dotted.Join(s[1..]);
    assert Dotted.Join(s)[|s[0]|] == '.';
  }

  lemma {:induction false} PlainIsRead(obj: Tree, patch: Tree, p: Path, v: Value)
    requires PlainPatch(patch) && Undotted(obj, patch) && LeafAt(patch, p, v)
    ensures ReadAsKeys(obj, p)
    decreases |p|
  {
    LeafKeys(patch, p, v);
    PlainSegments(p);
    PlainSegments(p[1..]);
    Dotted.SplitPlain(p[0]);
    forall j | 1 <= j <= |p| && (j > 1 || p[0] !in obj)
      ensures Dotted.Join(p[..j]) !in obj
    {
      if j > 1 {
        JoinHasDot(p, j);
      }
    }
    if |p| == 1 {
      assert p[1..] == [];
    } else {
      assert p[1] in p && Plain(p[1]);
      if p[0] in obj && obj[p[0]].Map? {
        PlainIsRead(obj[p[0]].m, patch[p[0]].m, p[1..], v);
      }
    }
  }

  /** Patches whose keys have no dots are read by their own keys, in objects whose keys have none either. */
  lemma PlainIsReadable(obj: Tree, patch: Tree)
    requires PlainPatch(patch)
    ensures Telling(patch) && (Undotted(obj, patch) ==> Readable(obj, patch))
  {
    forall p, v, q, w | LeafAt(patch, p, v) && LeafAt(patch, q, w) && Dotted.Join(p) == Dotted.Join(q)
      ensures p == q
    {
      LeafKeys(patch, p, v);
      LeafKeys(patch, q, w);
      Dotted.SplitJoin(p);
      Dotted.SplitJoin(q);
    }
    if Undotted(obj, patch) {
      forall p, v | LeafAt(patch, p, v)
        ensures ReadAsKeys(obj, p)
      {
        PlainIsRead(obj, patch, p, v);
      }
    }
  }

  // ----- Covered, and what that means for the patch -----

  /** The object carries every leaf of the patch, mapping by mapping. */
  predicate CoveredBy(no: Notation, obj: Tree, patch: Tree)
    decreases Map(patch)
  {
    forall k | k in patch ::
      k in obj &&
      if IsLeaf(patch[k]) then SameValue(no, obj[k], patch[k])
      else obj[k].Map? && (assert patch[k] in patch.Values; CoveredBy(no, obj[k].m, patch[k].m))
  }

  ghost predicate EachLeafCovered(no: Notation, obj: Tree, patch: Tree) {
    forall p, v | LeafAt(patch, p, v) :: Get(obj, p).Some? && SameValue(no, Get(obj, p).value, v)
  }

  lemma {:induction false} SomeLeaf(m: Tree) returns (p: Path, v: Value)
    requires m != map[]
    ensures LeafAt(m, p, v)
    decreases Map(m)
  {
    var k :| k in m;
    if IsLeaf(m[k]) {
      p, v := [k], m[k];
    } else {
      assert m[k] in m.Values;
      var q;
      q, v := SomeLeaf(m[k].m);
      LeafBelow("", m, k, q, v);
      p := [k] + q;
    }
  }

  lemma LeavesBelow(no: Notation, obj: Tree, patch: Tree, k: string)
    requires EachLeafCovered(no, obj, patch) && k in patch && !IsLeaf(patch[k])
    ensures k in obj && obj[k].Map? && EachLeafCovered(no, obj[k].m, patch[k].m)
  {
    forall p, v | LeafAt(patch[k].m, p, v)
      ensures Get(SubTree(obj, k), p).Some? && SameValue(no, Get(SubTree(obj, k), p).value, v)
      ensures k in obj
    {
      LeafBelow("", patch, k, p, v);
      assert Get(obj, [k] + p) == if k in obj then Get(SubTree(obj, k), ([k] + p)[1..]) else None;
    }
    var p, v := SomeLeaf(patch[k].m);
  }

  lemma {:induction false} LeavesAreAll(no: Notation, obj: Tree, patch: Tree)
    requires EachLeafCovered(no, obj, patch)
    ensures CoveredBy(no, obj, patch)
    decreases Map(patch)
  {
    forall k | k in patch
      ensures k in obj
      ensures IsLeaf(patch[k]) ==> SameValue(no, obj[k], patch[k])
      ensures !IsLeaf(patch[k]) ==> obj[k].Map? && CoveredBy(no, obj[k].m, patch[k].m)
    {
      if IsLeaf(patch[k]) {
        assert LeafAt(patch, [k], patch[k]);
      } else {
        assert patch[k] in patch.Values;
        LeavesBelow(no, obj, patch, k);
        LeavesAreAll(no, obj[k].m, patch[k].m);
      }
    }
  }

  lemma {:induction false} AllAreLeaves(no: Notation, obj: Tree, patch: Tree, p: Path, v: Value)
    requires CoveredBy(no, obj, patch) && LeafAt(patch, p, v)
    ensures Get(obj, p).Some? && SameValue(no, Get(obj, p).value, v)
    decreases |p|
  {
    if !IsLeaf(patch[p[0]]) {
      AllAreLeaves(no, obj[p[0]].m, patch[p[0]].m, p[1..], v);
    }
  }

  /** What is read under a leaf's joined path is what stands at the leaf's place. */
  lemma LeafCarried(no: Notation, obj: Tree, patch: Tree, p: Path, v: Value)
    requires Readable(obj, patch) && LeafAt(patch, p, v)
    ensures Carries(no, obj, Dotted.Join(p), v) <==> Get(obj, p).Some? && SameValue(no, Get(obj, p).value, v)
  {
    Dotted.SplitJoined(p);
    ReadsOwnKeys(no, obj, p);
  }

  lemma CarriedLeaves(no: Notation, obj: Tree, patch: Tree, sets: map<string, Value>)
    requires Telling(patch) && Readable(obj, patch) && Flattened(sets, patch)
    requires forall path | path in sets :: Carries(no, obj, path, sets[path])
    ensures CoveredBy(no, obj, patch)
  {
    forall p, v | LeafAt(patch, p, v)
      ensures Get(obj, p).Some? && SameValue(no, Get(obj, p).value, v)
    {
      FlattenedHolds(sets, patch, p, v);
      LeafCarried(no, obj, patch, p, v);
    }
    LeavesAreAll(no, obj, patch);
  }

  lemma LeavesCarried(no: Notation, obj: Tree, patch: Tree, sets: map<string, Value>, path: string)
    requires Telling(patch) && Readable(obj, patch) && Flattened(sets, patch)
    requires CoveredBy(no, obj, patch) && path in sets
    ensures Carries(no, obj, path, sets[path])
  {
    var p :| LeafAt(patch, p, sets[path]) && NameOf("", p) == path;
    LeafName(patch, p, sets[path]);
    AllAreLeaves(no, obj, patch, p, sets[path]);
    LeafCarried(no, obj, patch, p, sets[path]);
  }

  /** The paths that `PatchCovered` reads say just that. */
  lemma CarriedIsCovered(no: Notation, obj: Tree, patch: Tree, sets: map<string, Value>)
    requires Telling(patch) && Readable(obj, patch) && Flattened(sets, patch)
    ensures (forall path | path in sets :: Carries(no, obj, path, sets[path])) <==> CoveredBy(no, obj, patch)
  {
    if forall path | path in sets :: Carries(no, obj, path, sets[path]) {
      CarriedLeaves(no, obj, patch, sets);
    } else {
      var path :| path in sets && !Carries(no, obj, path, sets[path]);
      if CoveredBy(no, obj, patch) {
        LeavesCarried(no, obj, patch, sets, path);
      }
    }
  }

  /** The same mappings with the same keys, and fields that are the same value. */
  predicate Unchanged(no: Notation, a: Value, b: Value)
    decreases a
  {
    if a.Map? && b.Map? then
      a.m.Keys == b.m.Keys && forall k | k in a.m :: assert a.m[k] in a.m.Values; Unchanged(no, a.m[k], b.m[k])
    else SameValue(no, a, b)
  }

  predicate RemovesNothing(patch: Tree)
    decreases Map(patch)
  {
    forall k | k in patch ::
      !patch[k].Null? && (IsLeaf(patch[k]) || (assert patch[k] in patch.Values; RemovesNothing(patch[k].m)))
  }

  lemma {:induction false} UnchangedItself(no: Notation, v: Value)
    ensures Unchanged(no, v, v)
    decreases v
  {
    if v.Map? {
      forall k | k in v.m
        ensures Unchanged(no, v.m[k], v.m[k])
      {
        assert v.m[k] in v.m.Values;
        UnchangedItself(no, v.m[k]);
      }
    }
  }

  /** A covered patch that removes nothing leaves every field as it is; one that removes does not. */
  lemma {:induction false} CoveredIsNoOp(no: Notation, obj: Tree, patch: Tree)
    requires CoveredBy(no, obj, patch)
    ensures Unchanged(no, Map(obj), Drift.MergePatch(Map(obj), Map(patch))) <==> RemovesNothing(patch)
    decreases Map(patch)
  {
    var after := Drift.MergePatch(Map(obj), Map(patch)).m;
    forall k | k in patch && !patch[k].Null?
      ensures k in after && after[k] == Drift.MergePatch(obj[k], patch[k])
      ensures Unchanged(no, obj[k], after[k]) <==> IsLeaf(patch[k]) || RemovesNothing(patch[k].m)
    {
      assert patch[k] in patch.Values;
      if IsLeaf(patch[k]) {
        LeafIsNoOp(no, obj[k], patch[k]);
      } else {
        CoveredIsNoOp(no, obj[k].m, patch[k].m);
      }
    }
    forall k | k in obj && k !in patch
      ensures Unchanged(no, obj[k], after[k])
    {
      UnchangedItself(no, obj[k]);
    }
    assert forall k | k in patch && patch[k].Null? :: k in obj && k !in after;
    assert after.Keys == obj.Keys <==> forall k | k in patch :: !patch[k].Null?;
  }

  lemma LeafIsNoOp(no: Notation, v: Value, leaf: Value)
    requires IsLeaf(leaf) && !leaf.Null? && SameValue(no, v, leaf)
    ensures Unchanged(no, v, Drift.MergePatch(v, leaf))
  {
    if leaf.Map? && v.Map? {
      assert Drift.MergePatch(v, leaf).m == v.m;
      UnchangedItself(no, v);
    }
  }

  // ----- The hooks -----

  datatype OpKind = Add | Replace | AnotherOp

  datatype JsonOp = JsonOp(op: OpKind, path: string, value: Value)

  /** A strategic merge patch is flattened like a merge patch; only the API server treats its lists otherwise. */
  datatype PatchBody = Merge(doc: Tree, strategic: bool) | Ops(ops: seq<JsonOp>) | Malformed

  datatype HookAction =
    | WaitRollout
    | KubectlPatch(resource: string, name: string, body: PatchBody)
    | OtherAction

  function ReplaceAll(s: string, code: char, plain: char): string {
    if |s| < 2 then s
    else if s[0] == '~' && s[1] == code then [plain] + ReplaceAll(s[2..], code, plain)
    else [s[0]] + ReplaceAll(s[1..], code, plain)
  }

  /** A token of a JSON pointer as its key. */
  function Unescape(s: string): string {
    ReplaceAll(ReplaceAll(s, '1', '/'), '0', '~')
  }

  function Tokens(p: string): (r: seq<string>)
    ensures r != []
    decreases |p|
  {
    var found := Cut(p, '/');
    if found.None? then [p] else [found.value.0] + Tokens(found.value.1)
  }

  method JsonPointerToDotted(p: string) returns (path: string)
    ensures path == PointerPath(p)
  {
    var tokens := Tokens(if p != "" && p[0] == '/' then p[1..] else p);
    var parts := tokens;
    for i := 0 to |parts|
      invariant |parts| == |tokens|
      invariant forall j | 0 <= j < |tokens| :: parts[j] == if j < i then Unescape(tokens[j]) else tokens[j]
    {
      parts := parts[i := Unescape(parts[i])];
    }
    assert parts == Keys(tokens);
    path := Dotted.Join(parts);
  }

  function Keys(tokens: seq<string>): (r: seq<string>)
    ensures |r| == |tokens| && forall j | 0 <= j < |r| :: r[j] == Unescape(tokens[j])
  {
    seq(|tokens|, j requires 0 <= j < |tokens| => Unescape(tokens[j]))
  }

  function PointerKeys(p: string): KeyPath {
    Keys(Tokens(if p != "" && p[0] == '/' then p[1..] else p))
  }

  function PointerPath(p: string): string {
    Dotted.Join(PointerKeys(p))
  }

  /** A key as a pointer spells it: section 3 of RFC 6901. */
  function Escape(s: string): string {
    if s == "" then ""
    else (if s[0] == '~' then "~0" else if s[0] == '/' then "~1" else [s[0]]) + Escape(s[1..])
  }

  function TildesOnly(s: string): string {
    if s == "" then ""
    else (if s[0] == '~' then "~0" else [s[0]]) + TildesOnly(s[1..])
  }

  lemma {:induction false} SlashesBack(s: string)
    ensures ReplaceAll(Escape(s), '1', '/') == TildesOnly(s)
  {
    if s != "" {
      SlashesBack(s[1..]);
      var e, rest := Escape(s), Escape(s[1..]);
      if s[0] == '~' {
        assert e[1..] == "0" + rest;
        assert e[1..][1..] == rest;
        assert |e[1..]| < 2 ==> rest == "";
      } else if s[0] == '/' {
        assert e[2..] == rest;
      } else {
        assert e[1..] == rest;
      }
    }
  }

  lemma {:induction false} TildesBack(s: string)
    ensures ReplaceAll(TildesOnly(s), '0', '~') == s
  {
    if s != "" {
      TildesBack(s[1..]);
      var e, rest := TildesOnly(s), TildesOnly(s[1..]);
      if s[0] == '~' {
        assert e[2..] == rest;
      } else {
        assert e[1..] == rest;
      }
    }
  }

  /** Every key comes back from the pointer token that stands for it. */
  lemma UnescapeEscape(s: string)
    ensures Unescape(Escape(s)) == s
  {
    SlashesBack(s);
    TildesBack(s);
  }

  lemma {:induction false} NoSlash(s: string)
    ensures '/' !in Escape(s)
  {
    if s != "" {
      NoSlash(s[1..]);
    }
  }

  /** The pointer to a place. */
  function PointerTo(p: Path): string {
    if p == [] then "" else "/" + (Escape(p[0]) + PointerTo(p[1..]))
  }

  lemma FirstToken(first: string, more: string)
    requires '/' !in first
    ensures Tokens(first) == [first] && Tokens(first + ("/" + more)) == [first] + Tokens(more)
  {
    CutAt(first, '/', more);
    assert first + ("/" + more) == first + ['/'] + more;
  }

  /** A pointer leads back to the keys it was made from, slashes and tildes in them included. */
  lemma {:induction false} PointerBack(p: KeyPath)
    ensures PointerKeys(PointerTo(p)) == p
    decreases |p|
  {
    var first, rest := Escape(p[0]), PointerTo(p[1..]);
    NoSlash(p[0]);
    assert PointerTo(p)[1..] == first + rest;
    if |p| == 1 {
      FirstToken(first, "");
      assert first + rest == first;
      OneKey(p[0]);
    } else {
      PointerBack(p[1..]);
      var more := rest[1..];
      assert rest == "/" + more;
      FirstToken(first, more);
      FirstKey(p[0], Tokens(more));
      assert p == [p[0]] + p[1..];
    }
  }

  lemma OneKey(k: string)
    ensures Keys([Escape(k)]) == [k]
  {
    UnescapeEscape(k);
  }

  lemma FirstKey(k: string, tokens: seq<string>)
    ensures Keys([Escape(k)] + tokens) == [k] + Keys(tokens)
  {
    UnescapeEscape(k);
  }

  predicate Writes(op: JsonOp) {
    op.op.Add? || op.op.Replace?
  }

  predicate Settable(ops: seq<JsonOp>) {
    ops == [] || (Writes(ops[|ops| - 1]) && Settable(ops[..|ops| - 1]))
  }


  lemma {:induction false} SettableIs(ops: seq<JsonOp>)
    ensures Settable(ops) <==> forall op | op in ops :: !op.op.AnotherOp?
  {
    if ops != [] {
      var n := |ops| - 1;
      SettableIs(ops[..n]);
      assert ops == ops[..n] + [ops[n]];
    }
  }

  /** What a list of add and replace operations sets; the last one at a path counts. */
  function SetByOps(ops: seq<JsonOp>): map<string, Value> {
    if ops == [] then map[]
    else
      var last := ops[|ops| - 1];
      SetByOps(ops[..|ops| - 1])[PointerPath(last.path) := last.value]
  }

  lemma SetOneMore(ops: seq<JsonOp>, i: nat)
    requires i < |ops|
    ensures SetByOps(ops[..i + 1]) == SetByOps(ops[..i])[PointerPath(ops[i].path) := ops[i].value]
    ensures Settable(ops[..i + 1]) <==> Writes(ops[i]) && Settable(ops[..i])
  {
    assert ops[..i + 1][..i] == ops[..i];
  }

  method SetsOfOps(ops: seq<JsonOp>) returns (err: bool, sets: map<string, Value>)
    ensures err <==> !Settable(ops)
    ensures !err ==> sets == SetByOps(ops)
  {
    err, sets := false, map[];
    for i := 0 to |ops|
      invariant Settable(ops[..i]) && sets == SetByOps(ops[..i])
    {
      if !Writes(ops[i]) {
        SettableIs(ops);
        return true, sets;
      }
      SetOneMore(ops, i);
      var path := JsonPointerToDotted(ops[i].path);
      sets := sets[path := ops[i].value];
    }
    assert ops[..|ops|] == ops;
  }

  method SetsOfDoc(doc: Tree) returns (sets: map<string, Value>)
    ensures Flattened(sets, doc)
  {
    sets := Flatten("", doc, map[]);
  }

  method Sets(body: PatchBody) returns (err: bool, sets: map<string, Value>)
    ensures err <==> body.Malformed? || (body.Ops? && !Settable(body.ops))
    ensures body.Ops? ==> (err <==> exists op :: op in body.ops && op.op.AnotherOp?)
    ensures body.Merge? ==> Flattened(sets, body.doc)
    ensures body.Ops? && !err ==> sets == SetByOps(body.ops)
  {
    err, sets := body.Malformed?, map[];
    if body.Merge? {
      sets := SetsOfDoc(body.doc);
    } else if body.Ops? {
      err, sets := SetsOfOps(body.ops);
      SettableIs(body.ops);
    }
  }

  /** The rendered manifest, document by document; none for what is no mapping. */
  type Manifest = seq<Option<Tree>>

  function Text(m: Tree, k: string): string {
    var v := Drift.Member(m, k);
    if v.Scalar? && v.kind == String then v.text else ""
  }

  predicate IsObject(fold: (string, string) -> bool, doc: Option<Tree>, resource: string, name: string) {
    doc.Some? && fold(Text(doc.value, "kind"), resource) && Text(SubTree(doc.value, "metadata"), "name") == name
  }

  /** `v` is the text `t`; what is no text counts as the empty one. */
  ghost predicate TextIs(v: Option<Value>, t: string) {
    v == Some(Scalar(String, t)) || (t == "" && forall s :: v != Some(Scalar(String, s)))
  }

  /** The document has the kind and the name that are asked for. */
  ghost predicate IsNamed(fold: (string, string) -> bool, doc: Option<Tree>, resource: string, name: string) {
    && doc.Some? && TextIs(Get(doc.value, ["metadata", "name"]), name)
    && exists kind :: TextIs(Get(doc.value, ["kind"]), kind) && fold(kind, resource)
  }

  lemma NamedIsObject(fold: (string, string) -> bool, doc: Option<Tree>, resource: string, name: string)
    ensures IsObject(fold, doc, resource, name) <==> IsNamed(fold, doc, resource, name)
  {
    if doc.Some? {
      TextOf(doc.value, "kind");
      TextOf(SubTree(doc.value, "metadata"), "name");
      assert Get(doc.value, ["metadata", "name"]) == Get(SubTree(doc.value, "metadata"), ["name"]) by {
        assert ["metadata", "name"][1..] == ["name"];
      }
    }
  }

  lemma TextOf(m: Tree, k: string)
    ensures forall t :: TextIs(Get(m, [k]), t) <==> t == Text(m, k)
  {
    var v := Get(m, [k]);
    if v.Some? && v.value.Scalar? && v.value.kind == String {
      assert v == Some(Scalar(String, v.value.text));
    }
  }

  function ObjectOf(fold: (string, string) -> bool, docs: Manifest, resource: string, name: string): Option<Tree> {
    if docs == [] then None
    else if IsObject(fold, docs[0], resource, name) then docs[0]
    else ObjectOf(fold, docs[1..], resource, name)
  }

  method ManifestObject(fold: (string, string) -> bool, docs: Manifest, resource: string, name: string)
      returns (obj: Option<Tree>)
    ensures obj == ObjectOf(fold, docs, resource, name)
    ensures obj.Some? ==> exists i | 0 <= i < |docs| ::
      && docs[i] == obj && IsNamed(fold, docs[i], resource, name)
      && forall j | 0 <= j < i :: !IsNamed(fold, docs[j], resource, name)
    ensures obj.None? ==> forall j | 0 <= j < |docs| :: !IsNamed(fold, docs[j], resource, name)
  {
    for i := 0 to |docs|
      invariant ObjectOf(fold, docs[i..], resource, name) == ObjectOf(fold, docs, resource, name)
      invariant forall j | 0 <= j < i :: !IsNamed(fold, docs[j], resource, name)
    {
      NamedIsObject(fold, docs[i], resource, name);
      if IsObject(fold, docs[i], resource, name) {
        return docs[i];
      }
      assert docs[i..][1..] == docs[i + 1..];
    }
    obj := None;
  }

  predicate Holds(no: Notation, obj: Tree, p: KeyPath, v: Value) {
    Get(obj, p).Some? && SameValue(no, Get(obj, p).value, v)
  }

  /** The operations write under names that tell their places apart and read as their own keys. */
  ghost predicate LegibleOps(obj: Option<Tree>, ops: seq<JsonOp>) {
    && (forall op, other | op in ops && other in ops && PointerPath(op.path) == PointerPath(other.path) ::
          PointerKeys(op.path) == PointerKeys(other.path))
    && (obj.Some? ==> forall op | op in ops :: ReadAsKeys(obj.value, PointerKeys(op.path)))
  }

  /** A patch whose dotted paths read back as its own keys. */
  ghost predicate Legible(obj: Option<Tree>, body: PatchBody) {
    match body
    case Merge(doc, _) => Telling(doc) && (obj.Some? ==> Readable(obj.value, doc))
    case Ops(ops) => LegibleOps(obj, ops)
    case Malformed => true
  }

  /** No later operation writes at the same place. */
  predicate LastAt(ops: seq<JsonOp>, i: nat)
    requires i < |ops|
  {
    forall j | i < j < |ops| :: PointerKeys(ops[j].path) != PointerKeys(ops[i].path)
  }

  predicate Covered(no: Notation, obj: Option<Tree>, body: PatchBody) {
    obj.Some? &&
    match body
    case Merge(doc, _) => doc != map[] && CoveredBy(no, obj.value, doc)
    case Ops(ops) =>
      && ops != [] && Settable(ops)
      && forall i | 0 <= i < |ops| && LastAt(ops, i) :: Holds(no, obj.value, PointerKeys(ops[i].path), ops[i].value)
    case Malformed => false
  }

  /** No later operation writes under the same name. */
  predicate LastNamed(ops: seq<JsonOp>, i: nat)
    requires i < |ops|
  {
    forall j | i < j < |ops| :: PointerPath(ops[j].path) != PointerPath(ops[i].path)
  }

  lemma {:induction false} LastCounts(ops: seq<JsonOp>, i: nat)
    requires i < |ops| && LastNamed(ops, i)
    ensures PointerPath(ops[i].path) in SetByOps(ops) && SetByOps(ops)[PointerPath(ops[i].path)] == ops[i].value
  {
    var front := ops[..|ops| - 1];
    if i < |front| {
      assert LastNamed(front, i);
      LastCounts(front, i);
    }
  }

  lemma NamedStill(ops: seq<JsonOp>, i: nat)
    requires i < |ops| - 1 && LastNamed(ops[..|ops| - 1], i)
    requires PointerPath(ops[|ops| - 1].path) != PointerPath(ops[i].path)
    ensures LastNamed(ops, i)
  {
    var front := ops[..|ops| - 1];
    assert forall j | i < j < |front| :: front[j] == ops[j];
  }

  lemma SetBefore(ops: seq<JsonOp>, path: string)
    requires ops != [] && path in SetByOps(ops) && path != PointerPath(ops[|ops| - 1].path)
    ensures
      var front := SetByOps(ops[..|ops| - 1]);
      path in front && front[path] == SetByOps(ops)[path]
  {
  }

  lemma {:induction false} SetByLast(ops: seq<JsonOp>, path: string) returns (i: nat)
    requires path in SetByOps(ops)
    ensures i < |ops| && LastNamed(ops, i) && PointerPath(ops[i].path) == path && SetByOps(ops)[path] == ops[i].value
  {
    if PointerPath(ops[|ops| - 1].path) == path {
      i := |ops| - 1;
    } else {
      SetBefore(ops, path);
      i := SetByLast(ops[..|ops| - 1], path);
      NamedStill(ops, i);
    }
  }

  lemma CarriesIsHolds(no: Notation, obj: Tree, p: KeyPath, v: Value)
    requires ReadAsKeys(obj, p)
    ensures Carries(no, obj, Dotted.Join(p), v) <==> Holds(no, obj, p, v)
  {
    Dotted.SplitJoined(p);
    ReadsOwnKeys(no, obj, p);
  }

  lemma LastIsLast(obj: Option<Tree>, ops: seq<JsonOp>, i: nat)
    requires LegibleOps(obj, ops) && i < |ops|
    ensures LastNamed(ops, i) <==> LastAt(ops, i)
  {
    assert ops[i] in ops && forall j | i < j < |ops| :: ops[j] in ops;
  }

  /** The paths that a list of operations sets are all carried if and only if the object holds, at every
      place written, the last value written there. */
  lemma OpsCarried(no: Notation, obj: Tree, ops: seq<JsonOp>)
    requires LegibleOps(Some(obj), ops) && Settable(ops)
    ensures
      var sets := SetByOps(ops);
      (forall path | path in sets :: Carries(no, obj, path, sets[path])) <==>
      (forall i | 0 <= i < |ops| && LastAt(ops, i) :: Holds(no, obj, PointerKeys(ops[i].path), ops[i].value))
  {
    var sets := SetByOps(ops);
    forall i | 0 <= i < |ops| && LastAt(ops, i)
      ensures
        var path := PointerPath(ops[i].path);
        path in sets && (Carries(no, obj, path, sets[path]) <==> Holds(no, obj, PointerKeys(ops[i].path), ops[i].value))
    {
      LastIsLast(Some(obj), ops, i);
      LastCounts(ops, i);
      assert ops[i] in ops;
      CarriesIsHolds(no, obj, PointerKeys(ops[i].path), ops[i].value);
    }
    forall path | path in sets
      ensures exists i :: 0 <= i < |ops| && LastAt(ops, i) && PointerPath(ops[i].path) == path
    {
      var i := SetByLast(ops, path);
      LastIsLast(Some(obj), ops, i);
    }
  }

  lemma {:induction false} SetBySome(ops: seq<JsonOp>)
    ensures SetByOps(ops) == map[] <==> ops == []
  {
    if ops != [] {
      assert PointerPath(ops[|ops| - 1].path) in SetByOps(ops);
    }
  }

  /** What `PatchCovered` answers for the paths a patch sets. */
  predicate Answers(no: Notation, obj: Option<Tree>, sets: map<string, Value>) {
    sets != map[] && obj.Some? && forall path | path in sets :: Carries(no, obj.value, path, sets[path])
  }

  lemma MergeAnswers(no: Notation, obj: Option<Tree>, doc: Tree, strategic: bool, sets: map<string, Value>)
    requires Flattened(sets, doc) && Legible(obj, Merge(doc, strategic))
    ensures Answers(no, obj, sets) <==> Covered(no, obj, Merge(doc, strategic))
  {
    if doc != map[] {
      var p, v := SomeLeaf(doc);
      assert NameOf("", p) in sets;
    }
    if obj.Some? {
      CarriedIsCovered(no, obj.value, doc, sets);
    }
  }

  lemma OpsAnswer(no: Notation, obj: Option<Tree>, ops: seq<JsonOp>)
    requires Settable(ops) && LegibleOps(obj, ops)
    ensures Answers(no, obj, SetByOps(ops)) <==> Covered(no, obj, Ops(ops))
  {
    SetBySome(ops);
    if obj.Some? {
      OpsCarried(no, obj.value, ops);
    }
  }

  method BodyCovered(no: Notation, obj: Option<Tree>, body: PatchBody) returns (ok: bool)
    ensures body.Malformed? || (body.Ops? && !Settable(body.ops)) ==> !ok
    ensures Legible(obj, body) ==> (ok <==> Covered(no, obj, body))
    ensures body.Ops? && Settable(body.ops) ==> (ok <==> Answers(no, obj, SetByOps(body.ops)))
  {
    var err, sets := Sets(body);
    if err {
      return false;
    }
    var missing;
    ok, missing := PatchCovered(no, obj, sets);
    if Legible(obj, body) {
      if body.Merge? {
        MergeAnswers(no, obj, body.doc, body.strategic, sets);
      } else {
        OpsAnswer(no, obj, body.ops);
      }
    }
  }

  // ----- What a covered list of operations would do -----

  /** Each operation writes its value at its keys; a pointer starts with a slash. */
  function Writings(ops: seq<JsonOp>): seq<Entry> {
    if ops == [] then []
    else
      var last := ops[|ops| - 1];
      Writings(ops[..|ops| - 1]) + [(PointerKeys(last.path), last.value)]
  }

  lemma {:induction false} FoldFrame(obj: Tree, ls: seq<Entry>, p: KeyPath)
    requires forall l | l in ls :: Apart(l.0, p)
    ensures Get(FoldSet(obj, ls), p) == Get(obj, p)
  {
    if ls != [] {
      var front, last := ls[..|ls| - 1], ls[|ls| - 1];
      assert last in ls;
      FoldFrame(obj, front, p);
      SetFrame(FoldSet(obj, front), last.0, last.1, p);
    }
  }

  lemma {:induction false} SetHeld(no: Notation, obj: Tree, t: Tree, p: KeyPath, v: Value)
    requires Unchanged(no, Map(obj), Map(t)) && Get(t, p) == Get(obj, p) && Holds(no, obj, p, v) && !v.Map?
    ensures Unchanged(no, Map(obj), Map(Set(t, p, v)))
    decreases |p|
  {
    var k := p[0];
    assert obj[k] in obj.Values;
    if |p| > 1 {
      SetHeld(no, obj[k].m, t[k].m, p[1..], v);
    }
    forall j | j in obj && j != k
      ensures Unchanged(no, obj[j], Set(t, p, v)[j])
    {
      assert obj[j] in obj.Values;
    }
  }

  lemma {:induction false} HeldChangesNothing(no: Notation, obj: Tree, ls: seq<Entry>)
    requires PairwiseApart(ls) && forall l | l in ls :: Holds(no, obj, l.0, l.1) && !l.1.Map?
    ensures Unchanged(no, Map(obj), Map(FoldSet(obj, ls)))
  {
    if ls == [] {
      UnchangedItself(no, Map(obj));
    } else {
      var front, last := ls[..|ls| - 1], ls[|ls| - 1];
      assert last in ls;
      HeldChangesNothing(no, obj, front);
      FoldFrame(obj, front, last.0);
      SetHeld(no, obj, FoldSet(obj, front), last.0, last.1);
    }
  }

  /** No lists and no directives: such a strategic merge patch does what a merge patch does. */
  predicate NoLists(doc: Tree)
    decreases Map(doc)
  {
    forall k | k in doc ::
      && (k == "" || k[0] != '$') && !doc[k].List?
      && (IsLeaf(doc[k]) || (assert doc[k] in doc.Values; NoLists(doc[k].m)))
  }

  /** A patch that takes nothing away: no nulls, or operations at places apart that write no mappings. */
  ghost predicate OnlySets(body: PatchBody) {
    match body
    case Merge(doc, strategic) => RemovesNothing(doc) && (strategic ==> NoLists(doc))
    case Ops(ops) => PairwiseApart(Writings(ops)) && forall op | op in ops :: !op.value.Map? && "/" <= op.path
    case Malformed => true
  }

  /** The object after a patch; of strategic ones only those without lists. */
  function Patched(obj: Tree, body: PatchBody): Value {
    match body
    case Merge(doc, _) => Drift.MergePatch(Map(obj), Map(doc))
    case Ops(ops) => Map(FoldSet(obj, Writings(ops)))
    case Malformed => Map(obj)
  }

  lemma {:induction false} WritingsAre(ops: seq<JsonOp>)
    ensures |Writings(ops)| == |ops|
    ensures forall i | 0 <= i < |ops| :: Writings(ops)[i] == (PointerKeys(ops[i].path), ops[i].value)
  {
    if ops != [] {
      WritingsAre(ops[..|ops| - 1]);
    }
  }

  /** A covered patch that only sets leaves every field as it is. */
  lemma NothingChanges(no: Notation, obj: Tree, body: PatchBody)
    requires Covered(no, Some(obj), body) && OnlySets(body)
    ensures Unchanged(no, Map(obj), Patched(obj, body))
  {
    match body
    case Merge(doc, _) => CoveredIsNoOp(no, obj, doc);
    case Malformed =>
    case Ops(ops) =>
      var ls := Writings(ops);
      WritingsAre(ops);
      forall l | l in ls
        ensures Holds(no, obj, l.0, l.1) && !l.1.Map?
      {
        var i :| 0 <= i < |ls| && ls[i] == l;
        forall j | i < j < |ops|
          ensures PointerKeys(ops[j].path) != PointerKeys(ops[i].path)
        {
          ApartFromItself(ls[i].0);
          assert Apart(ls[i].0, ls[j].0);
        }
        assert LastAt(ops, i) && ops[i] in ops;
      }
      HeldChangesNothing(no, obj, ls);
  }

  function TargetOf(fold: (string, string) -> bool, manifest: Option<Manifest>, a: HookAction): Option<Tree>
    requires a.KubectlPatch?
  {
    if manifest.Some? then ObjectOf(fold, manifest.value, a.resource, a.name) else None
  }

  predicate NothingToDo(no: Notation, fold: (string, string) -> bool, manifest: Option<Manifest>, a: HookAction) {
    a.WaitRollout? || (a.KubectlPatch? && Covered(no, TargetOf(fold, manifest, a), a.body))
  }

  ghost predicate LegibleAction(fold: (string, string) -> bool, manifest: Option<Manifest>, a: HookAction) {
    a.KubectlPatch? ==> Legible(TargetOf(fold, manifest, a), a.body)
  }

  ghost predicate AllLegible(fold: (string, string) -> bool, manifest: Option<Manifest>, actions: seq<HookAction>) {
    forall i | 0 <= i < |actions| :: LegibleAction(fold, manifest, actions[i])
  }

  /** What a yes or a no to one action means. */
  ghost predicate Tells(no: Notation, fold: (string, string) -> bool, manifest: Option<Manifest>, a: HookAction,
                        ok: bool)
  {
    && (LegibleAction(fold, manifest, a) ==> (ok <==> NothingToDo(no, fold, manifest, a)))
    && (ok ==> !a.OtherAction?)
  }

  /** One action of a hook, with the manifest at hand if it can be had. */
  method ActionCovered(no: Notation, fold: (string, string) -> bool, manifest: Option<Manifest>, a: HookAction)
      returns (ok: bool)
    ensures Tells(no, fold, manifest, a, ok)
  {
    if a.WaitRollout? {
      return true;
    }
    if a.OtherAction? || manifest.None? {
      return false;
    }
    var obj := ManifestObject(fold, manifest.value, a.resource, a.name);
    ok := BodyCovered(no, obj, a.body);
  }

  /** The patch asks for `v` at `p`: a leaf of a merge patch, or the last value that operations write there. */
  ghost predicate Asks(body: PatchBody, p: KeyPath, v: Value) {
    match body
    case Merge(doc, _) => LeafAt(doc, p, v)
    case Ops(ops) => exists i :: 0 <= i < |ops| && LastAt(ops, i) && PointerKeys(ops[i].path) == p && ops[i].value == v
    case Malformed => false
  }

  /** The object has a value at `p`, and it does not differ from `v`. */
  predicate ReadsAlike(no: Notation, obj: Option<Tree>, p: KeyPath, v: Value) {
    obj.Some? && Get(obj.value, p).Some? && !Differs(no, Get(obj.value, p).value, v)
  }

  lemma CoveredReadsAlike(no: Notation, obj: Option<Tree>, body: PatchBody, p: KeyPath, v: Value)
    requires Covered(no, obj, body) && Asks(body, p, v)
    ensures ReadsAlike(no, obj, p, v)
  {
    if body.Merge? {
      AllAreLeaves(no, obj.value, body.doc, p, v);
    }
    assert Holds(no, obj.value, p, v);
    SameOrDiffers(no, Get(obj.value, p).value, v);
  }

  /** Whatever the patches ask for, their objects have: a hook that sets another amount is not skipped. */
  ghost predicate AllReadAlike(no: Notation, fold: (string, string) -> bool, manifest: Option<Manifest>,
                               actions: seq<HookAction>)
  {
    forall i, p, v | 0 <= i < |actions| && actions[i].KubectlPatch? && Asks(actions[i].body, p, v) ::
      LegibleAction(fold, manifest, actions[i]) ==> ReadsAlike(no, TargetOf(fold, manifest, actions[i]), p, v)
  }

  lemma ToldReadsAlike(no: Notation, fold: (string, string) -> bool, manifest: Option<Manifest>,
                       actions: seq<HookAction>)
    requires forall i | 0 <= i < |actions| :: Tells(no, fold, manifest, actions[i], true)
    ensures AllReadAlike(no, fold, manifest, actions)
  {
    forall i, p, v | 0 <= i < |actions| && actions[i].KubectlPatch? && Asks(actions[i].body, p, v)
      ensures LegibleAction(fold, manifest, actions[i]) ==>
        ReadsAlike(no, TargetOf(fold, manifest, actions[i]), p, v)
    {
      assert Tells(no, fold, manifest, actions[i], true);
      if LegibleAction(fold, manifest, actions[i]) {
        CoveredReadsAlike(no, TargetOf(fold, manifest, actions[i]), actions[i].body, p, v);
      }
    }
  }

  /** The skipped patches that only set would have changed nothing. */
  ghost predicate NoneMissed(no: Notation, fold: (string, string) -> bool, manifest: Option<Manifest>,
                             actions: seq<HookAction>)
  {
    forall i | 0 <= i < |actions| && actions[i].KubectlPatch? && OnlySets(actions[i].body) ::
      var obj := TargetOf(fold, manifest, actions[i]);
      obj.Some? && Unchanged(no, Map(obj.value), Patched(obj.value, actions[i].body))
  }

  lemma NothingMissed(no: Notation, fold: (string, string) -> bool, manifest: Option<Manifest>,
                      actions: seq<HookAction>)
    requires forall i | 0 <= i < |actions| :: NothingToDo(no, fold, manifest, actions[i])
    ensures NoneMissed(no, fold, manifest, actions)
  {
    forall i | 0 <= i < |actions| && actions[i].KubectlPatch? && OnlySets(actions[i].body)
      ensures
        var obj := TargetOf(fold, manifest, actions[i]);
        obj.Some? && Unchanged(no, Map(obj.value), Patched(obj.value, actions[i].body))
    {
      assert NothingToDo(no, fold, manifest, actions[i]);
      NothingChanges(no, TargetOf(fold, manifest, actions[i]).value, actions[i].body);
    }
  }

  /** How many of the first `n` actions are patches. */
  function Patches(actions: seq<HookAction>, n: nat): nat
    requires n <= |actions|
  {
    if n == 0 then 0 else Patches(actions, n - 1) + if actions[n - 1].KubectlPatch? then 1 else 0
  }

  lemma {:induction false} PatchesMean(actions: seq<HookAction>, n: nat)
    requires n <= |actions|
    ensures Patches(actions, n) > 0 <==> exists i | 0 <= i < n :: actions[i].KubectlPatch?
  {
    if n > 0 {
      PatchesMean(actions, n - 1);
    }
  }

  /** The hook has a patch, and none of its actions has anything to do. */
  predicate NothingLeft(no: Notation, fold: (string, string) -> bool, manifest: Option<Manifest>,
                        actions: seq<HookAction>)
  {
    && (exists i | 0 <= i < |actions| :: actions[i].KubectlPatch?)
    && forall i | 0 <= i < |actions| :: NothingToDo(no, fold, manifest, actions[i])
  }

  /** The first `n` actions were answered with yes, and the next one, if there is one, with no. */
  ghost predicate Answered(no: Notation, fold: (string, string) -> bool, manifest: Option<Manifest>,
                           actions: seq<HookAction>, n: nat)
  {
    && n <= |actions|
    && (forall i | 0 <= i < n :: Tells(no, fold, manifest, actions[i], true))
    && (n < |actions| ==> Tells(no, fold, manifest, actions[n], false))
  }

  /** What it means that a hook is skipped: patches that are read by their own keys have nothing left to do,
      and would have changed nothing; and a hook with any other action is never skipped. */
  ghost predicate SkipMeans(no: Notation, fold: (string, string) -> bool, manifest: Option<Manifest>,
                            actions: seq<HookAction>, skip: bool)
  {
    && (skip ==> forall i | 0 <= i < |actions| :: !actions[i].OtherAction?)
    && (skip ==> AllReadAlike(no, fold, manifest, actions))
    && (AllLegible(fold, manifest, actions) ==>
          && (skip <==> NothingLeft(no, fold, manifest, actions))
          && (skip ==> NoneMissed(no, fold, manifest, actions)))
  }

  lemma AnswersMean(no: Notation, fold: (string, string) -> bool, manifest: Option<Manifest>,
                    actions: seq<HookAction>, n: nat, skip: bool)
    requires Answered(no, fold, manifest, actions, n)
    requires skip == (n == |actions| && Patches(actions, n) > 0)
    ensures SkipMeans(no, fold, manifest, actions, skip)
  {
    PatchesMean(actions, n);
    if n == |actions| {
      ToldReadsAlike(no, fold, manifest, actions);
    }
    if AllLegible(fold, manifest, actions) {
      if n == |actions| {
        forall i | 0 <= i < |actions|
          ensures NothingToDo(no, fold, manifest, actions[i])
        {
          assert Tells(no, fold, manifest, actions[i], true) && LegibleAction(fold, manifest, actions[i]);
        }
        NothingMissed(no, fold, manifest, actions);
      } else {
        assert LegibleAction(fold, manifest, actions[n]);
        assert !NothingToDo(no, fold, manifest, actions[n]);
      }
    }
  }

  ghost predicate ToldUpTo(no: Notation, fold: (string, string) -> bool, manifest: Option<Manifest>,
                           actions: seq<HookAction>, n: nat)
    requires n <= |actions|
  {
    n == 0 ||
    (ToldUpTo(no, fold, manifest, actions, n - 1) && Tells(no, fold, manifest, actions[n - 1], true))
  }

  lemma {:induction false} ToldMeans(no: Notation, fold: (string, string) -> bool, manifest: Option<Manifest>,
                                     actions: seq<HookAction>, n: nat)
    requires n <= |actions| && ToldUpTo(no, fold, manifest, actions, n)
    ensures forall i | 0 <= i < n :: Tells(no, fold, manifest, actions[i], true)
  {
    if n > 0 {
      ToldMeans(no, fold, manifest, actions, n - 1);
    }
  }

  /** Goes through the actions up to the first that is not covered, and counts the patches. */
  method CoveredActions(no: Notation, fold: (string, string) -> bool, manifest: Option<Manifest>,
                        actions: seq<HookAction>) returns (all: bool, covered: nat, ghost n: nat)
    ensures n <= |actions| && (all <==> n == |actions|) && covered == Patches(actions, n)
    ensures ToldUpTo(no, fold, manifest, actions, n)
    ensures n < |actions| ==> Tells(no, fold, manifest, actions[n], false)
  {
    covered, n := 0, 0;
    for i := 0 to |actions|
      invariant n == i
      invariant ToldUpTo(no, fold, manifest, actions, i)
      invariant covered == Patches(actions, i)
    {
      var ok := ActionCovered(no, fold, manifest, actions[i]);
      if !ok {
        return false, covered, i;
      }
      if actions[i].KubectlPatch? {
        covered := covered + 1;
      }
      n := i + 1;
    }
    all := true;
  }

  /** Whether a hook is skipped. `manifest` is none when it cannot be had. */
  method HookCoverage(no: Notation, fold: (string, string) -> bool, manifest: Option<Manifest>,
                      actions: seq<HookAction>) returns (skip: bool)
    ensures SkipMeans(no, fold, manifest, actions, skip)
  {
    var all, covered;
    ghost var n;
    all, covered, n := CoveredActions(no, fold, manifest, actions);
    skip := all && covered > 0;
    ToldMeans(no, fold, manifest, actions, n);
    AnswersMean(no, fold, manifest, actions, n, skip);
  }

  // ----- Where coverage says too much -----

  /** A null in a patch prints like the text "<nil>": the field is taken for covered, and would be removed. */
  lemma NullIsNoText(no: Notation, k: string)
    requires no.sprint(Null) == no.sprint(Scalar(String, "<nil>")) && no.quantity(no.sprint(Null)) == None
    ensures var obj, patch := (map[k := Scalar(String, "<nil>")]), (map[k := Null]);
      CoveredBy(no, obj, patch) && Drift.MergePatch(Map(obj), Map(patch)) == Map(map[])
  {
    var obj: Tree, patch: Tree := map[k := Scalar(String, "<nil>")], map[k := Null];
    assert Drift.MergePatch(Map(obj), Map(patch)).m == map[];
  }

  /** A key of the object with a dot in it answers for two keys of the patch. */
  lemma DottedKeyAnswers(no: Notation, v: Value)
    requires IsLeaf(v) && !v.Null?
    ensures var obj, patch := (map["a.b" := v]), (map["a" := Map(map["b" := v])]);
      && Carries(no, obj, "a.b", v)
      && !Unchanged(no, Map(obj), Drift.MergePatch(Map(obj), Map(patch)))
  {
    var obj: Tree, patch: Tree := map["a.b" := v], map["a" := Map(map["b" := v])];
    var segs := ["a", "b"];
    assert Dotted.Join(segs) == "a.b" by {
      assert segs[1..] == ["b"];
    }
    Dotted.SplitJoin(segs);
    assert segs[..2] == segs && LongestKey(obj, segs, 2) == 2 && segs[2..] == [];
    assert "a" in Drift.MergePatch(Map(obj), Map(patch)).m;
    assert "a" !in obj;
  }
}
