// A parsed YAML document with everything a round trip through a plain map would lose: the order of
// the keys, the comments attached to them and the style they were written in.
module YamlNodes {
  import opened Values

  datatype Comments = Comments(head: string, line: string, foot: string)

  const NO_COMMENTS := Comments("", "", "")

  /** What a node that is not a mapping can hold. */
  type LeafValue = v: Value | !v.Map? witness Null

  datatype Yaml =
    | Leaf(value: LeafValue, comments: Comments)
    | Mapping(pairs: seq<Pair>, flow: bool, comments: Comments)

  datatype Pair = Pair(key: string, keyComments: Comments, value: Yaml)

  const EMPTY := Mapping([], false, NO_COMMENTS)

  /** The value a decoder reads from the node. */
  function Decode(y: Yaml): Value
    decreases y, 1
  {
    match y
    case Leaf(v, _) => v
    case Mapping(pairs, _, _) => Map(DecodePairs(pairs))
  }

  function DecodePairs(pairs: seq<Pair>): Tree
    decreases pairs, 0
  {
    if pairs == [] then map[] else DecodePairs(pairs[1..])[pairs[0].key := Decode(pairs[0].value)]
  }

  /** The position of `key`, or the number of pairs where it is missing. */
  function Find(pairs: seq<Pair>, key: string): (i: nat)
    ensures i <= |pairs|
    ensures i < |pairs| ==> pairs[i].key == key
    ensures forall j | 0 <= j < i :: pairs[j].key != key
  {
    if pairs == [] || pairs[0].key == key then 0 else 1 + Find(pairs[1..], key)
  }

  /** A mapping key occurs once (section 3.2.1.3 of the YAML 1.2 specification); a decoder refuses
      anything else. */
  predicate Distinct(pairs: seq<Pair>) {
    forall i, j | 0 <= i < j < |pairs| :: pairs[i].key != pairs[j].key
  }

  predicate WellFormed(y: Yaml)
    decreases y
  {
    y.Mapping? ==> Distinct(y.pairs) && forall p | p in y.pairs :: WellFormed(p.value)
  }

  /** The pair of `key` gets `v`; a new pair goes to the end. */
  function Put(pairs: seq<Pair>, key: string, v: Yaml): seq<Pair> {
    var i := Find(pairs, key);
    if i < |pairs| then pairs[i := pairs[i].(value := v)]
    else pairs + [Pair(key, NO_COMMENTS, v)]
  }

  function Remove(pairs: seq<Pair>, key: string): seq<Pair> {
    var i := Find(pairs, key);
    if i < |pairs| then pairs[..i] + pairs[i + 1..] else pairs
  }

  function SetComments(y: Yaml, head: string, line: string): Yaml {
    y.(comments := y.comments.(head := head, line := line))
  }

  /** The mapping under `key`, or the new one `SetIn` puts there. */
  function ChildOf(pairs: seq<Pair>, key: string): (c: Yaml)
    ensures c.Mapping?
  {
    var i := Find(pairs, key);
    if i < |pairs| && pairs[i].value.Mapping? then pairs[i].value else EMPTY
  }

  /** The edit `SetNodeValue` makes: `v` at `path`, everything else as it was. */
  function SetIn(y: Yaml, path: Path, v: Yaml): (r: Yaml)
    requires y.Mapping? && path != []
    ensures r.Mapping?
    decreases |path|
  {
    var i := Find(y.pairs, path[0]);
    var child :=
      if |path| > 1 then SetIn(ChildOf(y.pairs, path[0]), path[1..], v)
      else if i < |y.pairs| then
        SetComments(v, y.pairs[i].value.comments.head, y.pairs[i].value.comments.line)
      else v;
    y.(pairs := Put(y.pairs, path[0], child), flow := false)
  }

  /** The edit `DeleteNodeValue` makes: `path` and the mappings it leaves empty are taken out. */
  function DeleteIn(y: Yaml, path: Path): (r: Yaml)
    requires y.Mapping? && path != []
    ensures r.Mapping?
    decreases |path|
  {
    var i := Find(y.pairs, path[0]);
    if i == |y.pairs| then y
    else if |path| == 1 then y.(pairs := Remove(y.pairs, path[0]))
    else if !y.pairs[i].value.Mapping? then y
    else
      var child := DeleteIn(y.pairs[i].value, path[1..]);
      y.(pairs := if child.pairs == [] then Remove(y.pairs, path[0]) else Put(y.pairs, path[0], child))
  }

  // ---- The edits, read through a decoder ----------------------------------------------------

  function Decoded(y: Yaml): Tree
    requires y.Mapping?
  {
    DecodePairs(y.pairs)
  }

  lemma {:induction false} DecodedAt(pairs: seq<Pair>, key: string)
    ensures key in DecodePairs(pairs) <==> Find(pairs, key) < |pairs|
    ensures key in DecodePairs(pairs) ==> DecodePairs(pairs)[key] == Decode(pairs[Find(pairs, key)].value)
  {
    if pairs != [] && pairs[0].key != key {
      DecodedAt(pairs[1..], key);
    }
  }

  lemma {:induction false} DecodedPut(pairs: seq<Pair>, key: string, v: Yaml)
    ensures DecodePairs(Put(pairs, key, v)) == DecodePairs(pairs)[key := Decode(v)]
  {
    var put := Put(pairs, key, v);
    if pairs != [] && pairs[0].key != key {
      DecodedPut(pairs[1..], key, v);
      assert put[1..] == Put(pairs[1..], key, v) && put[0] == pairs[0];
    } else if pairs != [] {
      assert put[1..] == pairs[1..];
    } else {
      assert put[1..] == [];
    }
  }

  lemma {:induction false} DecodedRemove(pairs: seq<Pair>, key: string)
    requires Distinct(pairs)
    ensures DecodePairs(Remove(pairs, key)) == DecodePairs(pairs) - {key}
  {
    var left := Remove(pairs, key);
    forall k
      ensures At(DecodePairs(left), k) == if k == key then None else At(DecodePairs(pairs), k)
    {
      DecodedAt(left, k);
      DecodedAt(pairs, k);
      if k == key {
        RemoveGone(pairs, key);
      } else {
        RemoveFind(pairs, key, k);
      }
    }
    SameTree(DecodePairs(left), DecodePairs(pairs) - {key});
  }

  lemma DecodedEmpty(pairs: seq<Pair>)
    ensures DecodePairs(pairs) == map[] <==> pairs == []
  {
    if pairs != [] {
      assert pairs[0].key in DecodePairs(pairs);
    }
  }

  lemma {:induction false} DecodedAppend(pairs: seq<Pair>, p: Pair)
    requires p.key !in DecodePairs(pairs)
    ensures DecodePairs(pairs + [p]) == DecodePairs(pairs)[p.key := Decode(p.value)]
  {
    if pairs != [] {
      DecodedAppend(pairs[1..], p);
      assert (pairs + [p])[1..] == pairs[1..] + [p];
    } else {
      assert ([] + [p])[1..] == [];
    }
  }

  /** A document of one key is one pair. */
  lemma OnePair(pairs: seq<Pair>, k: string, v: Value)
    requires Distinct(pairs) && DecodePairs(pairs) == map[k := v]
    ensures |pairs| == 1 && pairs[0].key == k && Decode(pairs[0].value) == v
  {
    forall i | 0 <= i < |pairs|
      ensures pairs[i].key == k
    {
      DecodedAt(pairs, pairs[i].key);
      FindIs(pairs, pairs[i].key, i);
    }
    DecodedAt(pairs, k);
  }

  /** Editing the document is editing the values it decodes to. */
  lemma {:induction false} SetInIsSet(y: Yaml, path: Path, v: Yaml)
    requires y.Mapping? && path != []
    ensures Decoded(SetIn(y, path, v)) == Set(Decoded(y), path, Decode(v))
    decreases |path|
  {
    var key := path[0];
    DecodedAt(y.pairs, key);
    if |path| > 1 {
      var child := ChildOf(y.pairs, key);
      SetInIsSet(child, path[1..], v);
      assert Decoded(child) == SubTree(Decoded(y), key);
      DecodedPut(y.pairs, key, SetIn(child, path[1..], v));
    } else {
      var i := Find(y.pairs, key);
      var w := if i < |y.pairs| then
        SetComments(v, y.pairs[i].value.comments.head, y.pairs[i].value.comments.line) else v;
      DecodedPut(y.pairs, key, w);
    }
  }

  lemma {:induction false} DeleteInIsDelete(y: Yaml, path: Path)
    requires y.Mapping? && WellFormed(y) && path != []
    ensures Decoded(DeleteIn(y, path)) == Delete(Decoded(y), path)
    decreases |path|
  {
    var key, i := path[0], Find(y.pairs, path[0]);
    DecodedAt(y.pairs, key);
    DecodedRemove(y.pairs, key);
    if i < |y.pairs| && |path| > 1 && y.pairs[i].value.Mapping? {
      assert y.pairs[i] in y.pairs;
      DeleteInIsDelete(y.pairs[i].value, path[1..]);
      var child := DeleteIn(y.pairs[i].value, path[1..]);
      DecodedEmpty(child.pairs);
      DecodedPut(y.pairs, key, child);
    }
  }

  lemma {:induction false} SetInWellFormed(y: Yaml, path: Path, v: Yaml)
    requires y.Mapping? && path != [] && WellFormed(y) && WellFormed(v)
    ensures WellFormed(SetIn(y, path, v))
    decreases |path|
  {
    if |path| > 1 {
      var i := Find(y.pairs, path[0]);
      assert i < |y.pairs| ==> y.pairs[i] in y.pairs;
      SetInWellFormed(ChildOf(y.pairs, path[0]), path[1..], v);
    }
  }

  lemma {:induction false} DeleteInWellFormed(y: Yaml, path: Path)
    requires y.Mapping? && path != [] && WellFormed(y)
    ensures WellFormed(DeleteIn(y, path))
    decreases |path|
  {
    var i := Find(y.pairs, path[0]);
    if i < |y.pairs| && |path| > 1 && y.pairs[i].value.Mapping? {
      assert y.pairs[i] in y.pairs;
      DeleteInWellFormed(y.pairs[i].value, path[1..]);
    }
  }

  // ---- What the edits leave alone -----------------------------------------------------------

  /** The pair a path names: its key with the key's comments, and the node below. */
  function PairAt(y: Yaml, path: Path): Option<Pair>
    requires path != []
    decreases |path|
  {
    if y.Leaf? then None
    else
      var i := Find(y.pairs, path[0]);
      if i == |y.pairs| then None
      else if |path| == 1 then Some(y.pairs[i])
      else PairAt(y.pairs[i].value, path[1..])
  }

  /** Apart from the edited path, every pair keeps its comments, its style and its value. */
  lemma {:induction false} SetInFrame(y: Yaml, path: Path, v: Yaml, q: Path)
    requires y.Mapping? && Apart(path, q)
    ensures path != [] && q != [] && PairAt(SetIn(y, path, v), q) == PairAt(y, q)
    decreases |path|
  {
    var i := Find(y.pairs, path[0]);
    PutFind(y.pairs, path[0], SetIn(y, path, v).pairs[i].value, q[0]);
    if path[0] == q[0] {
      SetInFrame(ChildOf(y.pairs, path[0]), path[1..], v, q[1..]);
    }
  }

  /** On the way to the edited path every key keeps its own comments. */
  lemma {:induction false} SetInOnTheWay(y: Yaml, path: Path, v: Yaml, q: Path)
    requires y.Mapping? && path != [] && q != [] && q <= path
    ensures PairAt(SetIn(y, path, v), q).Some?
    ensures PairAt(y, q).Some? ==>
      PairAt(SetIn(y, path, v), q).value.keyComments == PairAt(y, q).value.keyComments
    decreases |path|
  {
    var i := Find(y.pairs, path[0]);
    PutFind(y.pairs, path[0], SetIn(y, path, v).pairs[i].value, q[0]);
    if |q| > 1 {
      assert path == [path[0]] + path[1..] && q == [q[0]] + q[1..];
      SetInOnTheWay(ChildOf(y.pairs, path[0]), path[1..], v, q[1..]);
    }
  }

  /** What is kept at `q`: the pair with all its comments where `apart`, and the comments of its key where
      the pair remains. */
  predicate KeptAt(before: Yaml, after: Yaml, q: KeyPath, apart: bool) {
    && (apart ==> PairAt(after, q) == PairAt(before, q))
    && (PairAt(before, q).Some? && PairAt(after, q).Some? ==>
          PairAt(after, q).value.keyComments == PairAt(before, q).value.keyComments)
  }

  lemma SetOneKeeps(y: Yaml, p: KeyPath, v: Yaml, q: KeyPath)
    requires y.Mapping? && !(p < q)
    ensures PairAt(y, q).Some? ==> PairAt(SetIn(y, p, v), q).Some?
    ensures KeptAt(y, SetIn(y, p, v), q, Apart(p, q))
  {
    ApartIsNoPrefix(p, q);
    if Apart(p, q) {
      SetInFrame(y, p, v, q);
    } else {
      SetInOnTheWay(y, p, v, q);
    }
  }

  /** The value written takes over the leading and trailing comment of the value it replaces. */
  lemma {:induction false} SetInWritten(y: Yaml, path: Path, v: Yaml)
    requires y.Mapping? && path != []
    ensures PairAt(SetIn(y, path, v), path).Some?
    ensures
      var replaced := PairAt(y, path);
      PairAt(SetIn(y, path, v), path).value.value ==
        if replaced.None? then v
        else SetComments(v, replaced.value.value.comments.head, replaced.value.value.comments.line)
    decreases |path|
  {
    var i := Find(y.pairs, path[0]);
    PutFind(y.pairs, path[0], SetIn(y, path, v).pairs[i].value, path[0]);
    if |path| > 1 {
      SetInWritten(ChildOf(y.pairs, path[0]), path[1..], v);
    }
  }

  lemma DeleteBeside(y: Yaml, path: Path, q: Path)
    requires y.Mapping? && path != [] && q != [] && path[0] != q[0]
    ensures PairAt(DeleteIn(y, path), q) == PairAt(y, q)
  {
    var i := Find(y.pairs, path[0]);
    RemoveFind(y.pairs, path[0], q[0]);
    if i < |y.pairs| && |path| > 1 && y.pairs[i].value.Mapping? {
      PutFind(y.pairs, path[0], DeleteIn(y.pairs[i].value, path[1..]), q[0]);
    }
  }

  lemma RemoveGone(pairs: seq<Pair>, key: string)
    requires Distinct(pairs)
    ensures Find(Remove(pairs, key), key) == |Remove(pairs, key)|
  {
    var left, k := Remove(pairs, key), Find(pairs, key);
    assert forall j | 0 <= j < |left| :: left[j] == pairs[if j < k then j else j + 1];
    FindIs(left, key, |left|);
  }

  /** A removal touches nothing apart from its path either. */
  lemma {:induction false} DeleteInFrame(y: Yaml, path: Path, q: Path)
    requires y.Mapping? && WellFormed(y) && Apart(path, q)
    ensures path != [] && q != [] && PairAt(DeleteIn(y, path), q) == PairAt(y, q)
    decreases |path|
  {
    var i := Find(y.pairs, path[0]);
    if path[0] != q[0] {
      DeleteBeside(y, path, q);
    } else if i < |y.pairs| && y.pairs[i].value.Mapping? {
      assert y.pairs[i] in y.pairs;
      DeleteInFrame(y.pairs[i].value, path[1..], q[1..]);
      RemoveGone(y.pairs, path[0]);
      PutFind(y.pairs, path[0], DeleteIn(y.pairs[i].value, path[1..]), path[0]);
    }
  }

  /** What a removal leaves was there before, with the comments of its key. */
  lemma {:induction false} DeleteInKeeps(y: Yaml, path: Path, q: Path)
    requires y.Mapping? && WellFormed(y) && path != [] && q != []
    ensures
      var before, after := PairAt(y, q), PairAt(DeleteIn(y, path), q);
      after.Some? ==> before.Some? && after.value.keyComments == before.value.keyComments
    decreases |path|
  {
    var i := Find(y.pairs, path[0]);
    if path[0] != q[0] {
      DeleteBeside(y, path, q);
    } else if i < |y.pairs| {
      RemoveGone(y.pairs, path[0]);
      if |path| > 1 && y.pairs[i].value.Mapping? {
        assert y.pairs[i] in y.pairs;
        PutFind(y.pairs, path[0], DeleteIn(y.pairs[i].value, path[1..]), path[0]);
        if |q| > 1 {
          DeleteInKeeps(y.pairs[i].value, path[1..], q[1..]);
        }
      }
    }
  }

  // ---- The order of the keys ------------------------------------------------------------------

  function Names(pairs: seq<Pair>): (r: seq<string>)
    ensures |r| == |pairs| && forall i | 0 <= i < |r| :: r[i] == pairs[i].key
  {
    seq(|pairs|, i requires 0 <= i < |pairs| => pairs[i].key)
  }

  /** The keys of the mapping at `q`, in their order. */
  function NamesAt(y: Yaml, q: Path): seq<string>
    decreases |q|
  {
    if y.Leaf? then []
    else if q == [] then Names(y.pairs)
    else
      var i := Find(y.pairs, q[0]);
      if i == |y.pairs| then [] else NamesAt(y.pairs[i].value, q[1..])
  }

  /** A write keeps the order of the keys in every mapping it does not replace; a new key goes to the end. */
  lemma {:induction false} SetInOrder(y: Yaml, path: Path, v: Yaml, q: Path)
    requires y.Mapping? && path != [] && !(path <= q)
    ensures NamesAt(y, q) <= NamesAt(SetIn(y, path, v), q)
    decreases |path|
  {
    var i := Find(y.pairs, path[0]);
    var child := SetIn(y, path, v).pairs[i].value;
    if q == [] {
      assert Names(y.pairs) <= Names(Put(y.pairs, path[0], child));
    } else {
      PutFind(y.pairs, path[0], child, q[0]);
      if path[0] == q[0] {
        assert path == [path[0]] + path[1..] && q == [q[0]] + q[1..];
        assert |path| > 1;
        SetInOrder(ChildOf(y.pairs, path[0]), path[1..], v, q[1..]);
      }
    }
  }

  /** `a` is what is left of `b`, in the same order, when the keys that are not in `a` are taken out. */
  predicate Thinned(a: seq<string>, b: seq<string>) {
    if b == [] then a == []
    else Thinned(a, b[1..]) || (a != [] && a[0] == b[0] && Thinned(a[1..], b[1..]))
  }

  lemma {:induction false} ThinnedItself(a: seq<string>)
    ensures Thinned(a, a) && Thinned([], a)
  {
    if a != [] {
      ThinnedItself(a[1..]);
    }
  }

  lemma {:induction false} ThinnedOne(a: seq<string>, i: nat)
    requires i < |a|
    ensures Thinned(a[..i] + a[i + 1..], a)
  {
    var b := a[..i] + a[i + 1..];
    if i == 0 {
      assert b == a[1..];
      ThinnedItself(a[1..]);
    } else {
      ThinnedOne(a[1..], i - 1);
      assert b[0] == a[0] && b[1..] == a[1..][..i - 1] + a[1..][i..];
    }
  }

  lemma NamesRemoved(pairs: seq<Pair>, key: string)
    ensures Thinned(Names(Remove(pairs, key)), Names(pairs))
  {
    var i := Find(pairs, key);
    if i < |pairs| {
      ThinnedOne(Names(pairs), i);
      assert Names(Remove(pairs, key)) == Names(pairs)[..i] + Names(pairs)[i + 1..];
    } else {
      ThinnedItself(Names(pairs));
    }
  }

  lemma NamesPut(pairs: seq<Pair>, key: string, v: Yaml)
    requires Find(pairs, key) < |pairs|
    ensures Names(Put(pairs, key, v)) == Names(pairs)
  {
  }

  /** A removal keeps the order of the keys that stay, in every mapping. */
  lemma {:induction false} DeleteInOrder(y: Yaml, path: Path, q: Path)
    requires y.Mapping? && WellFormed(y) && path != []
    ensures Thinned(NamesAt(DeleteIn(y, path), q), NamesAt(y, q))
    decreases |path|, 1
  {
    var i := Find(y.pairs, path[0]);
    if i == |y.pairs| {
      ThinnedItself(NamesAt(y, q));
    } else if q != [] {
      DeleteOrderBelow(y, path, q, i);
    } else {
      ThinnedItself(NamesAt(y, q));
      NamesRemoved(y.pairs, path[0]);
      if |path| > 1 && y.pairs[i].value.Mapping? {
        NamesPut(y.pairs, path[0], DeleteIn(y.pairs[i].value, path[1..]));
      }
    }
  }

  lemma DeleteOrderBelow(y: Yaml, path: Path, q: Path, i: nat)
    requires y.Mapping? && WellFormed(y) && path != [] && q != [] && i == Find(y.pairs, path[0]) < |y.pairs|
    ensures Thinned(NamesAt(DeleteIn(y, path), q), NamesAt(y, q))
    decreases |path|, 0
  {
    ThinnedItself(NamesAt(y, q));
    if path[0] != q[0] {
      RemoveFind(y.pairs, path[0], q[0]);
    } else {
      RemoveGone(y.pairs, path[0]);
    }
    if |path| > 1 && y.pairs[i].value.Mapping? {
      var child := DeleteIn(y.pairs[i].value, path[1..]);
      PutFind(y.pairs, path[0], child, q[0]);
      if path[0] == q[0] {
        assert y.pairs[i] in y.pairs;
        DeleteInOrder(y.pairs[i].value, path[1..], q[1..]);
      }
    }
  }

  lemma FindIs(pairs: seq<Pair>, key: string, i: nat)
    requires i <= |pairs| && (i < |pairs| ==> pairs[i].key == key)
    requires forall j | 0 <= j < i :: pairs[j].key != key
    ensures Find(pairs, key) == i
  {
    var f := Find(pairs, key);
    assert f < |pairs| ==> pairs[f].key == key;
  }

  lemma PutFind(pairs: seq<Pair>, key: string, v: Yaml, other: string)
    ensures Find(Put(pairs, key, v), key) == Find(pairs, key)
    ensures other != key ==>
      var i, j := Find(pairs, other), Find(Put(pairs, key, v), other);
      if i < |pairs| then i == j && Put(pairs, key, v)[j] == pairs[i] else j == |Put(pairs, key, v)|
  {
    var put, i := Put(pairs, key, v), Find(pairs, other);
    assert forall j | 0 <= j < |pairs| :: put[j].key == pairs[j].key;
    FindIs(put, key, Find(pairs, key));
    if other != key {
      FindIs(put, other, if i < |pairs| then i else |put|);
    }
  }

  lemma RemoveFind(pairs: seq<Pair>, key: string, other: string)
    requires other != key
    ensures
      var i, j := Find(pairs, other), Find(Remove(pairs, key), other);
      if i < |pairs| then j < |Remove(pairs, key)| && Remove(pairs, key)[j] == pairs[i] else j == |Remove(pairs, key)|
  {
    var left, k, i := Remove(pairs, key), Find(pairs, key), Find(pairs, other);
    assert forall j | 0 <= j < |left| :: left[j] == pairs[if j < k then j else j + 1];
    FindIs(left, other, if i == |pairs| then |left| else if i < k then i else i - 1);
  }
}
