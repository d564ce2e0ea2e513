// Splitting the old configuration files into one file per section. The first slice is the base and
// keeps its comments; the later ones are written into it leaf by leaf. What the files mean together
// must not change, and this module says exactly when it does not.
module Migrate {
  import opened Values
  import opened Leaves
  import opened Merge
  import opened Sections
  import Y = YamlNodes

  /** A slice as parsed; `None` is the empty file. */
  type Slice = s: Option<Y.Yaml> | s.Some? ==> s.value.Mapping? && Y.WellFormed(s.value) witness None

  function ValuesOf(s: Slice): Tree {
    if s.None? then map[] else Y.Decoded(s.value)
  }

  /** What the section documents hold together after the slices: each laid over the ones before. */
  function Built(slices: seq<Slice>): Tree {
    if slices == [] then map[]
    else Overlay(Built(slices[..|slices| - 1]), ValuesOf(slices[|slices| - 1]))
  }

  /** What the slices mean. */
  function Meant(slices: seq<Slice>): Tree {
    MergeAll(slices)
  }

  /** `general.yaml` is written twice: for a section called "general" and for the general keys. */
  predicate Collides(t: Tree) {
    GENERAL in t && exists g | g in t :: IsGeneral(g)
  }

  /** What of `t` reaches the files: the general keys overwrite a section called "general". */
  function Kept(t: Tree): Tree {
    if Collides(t) then t - {GENERAL} else t
  }

  /** Per section key one document holding that key alone. */
  ghost predicate Holds(docs: map<string, Y.Yaml>, t: Tree) {
    && docs.Keys == t.Keys
    && forall k | k in docs ::
         docs[k].Mapping? && Y.WellFormed(docs[k]) && Y.Decoded(docs[k]) == map[k := t[k]]
  }

  // ---- Comments -----------------------------------------------------------------------------

  /** What `doc` keeps of `base` at `q` after writes at the paths `written`: the pair with everything attached
      to it where the writes are apart from it, the comments of its key unless a value around it was replaced,
      and the order of the keys below it. */
  ghost predicate StaysAt(base: Y.Yaml, doc: Y.Yaml, written: set<Path>, q: KeyPath) {
    && ((forall p | p in written :: Apart(p, q)) ==> Y.PairAt(doc, q) == Y.PairAt(base, q))
    && (Y.PairAt(base, q).Some? && (forall p | p in written :: !(p < q)) ==>
          Y.PairAt(doc, q).Some? && Y.PairAt(doc, q).value.keyComments == Y.PairAt(base, q).value.keyComments)
    && ((forall p | p in written :: !(p <= q)) ==> Y.NamesAt(base, q) <= Y.NamesAt(doc, q))
  }

  /** The section documents keep of `base` what the writes leave alone. */
  ghost predicate BaseStays(base: Y.Yaml, docs: map<string, Y.Yaml>, written: set<Path>) {
    forall q: KeyPath :: StaysAt(base, DocumentOf(docs, q[0]), written, q)
  }

  lemma StaysAfterWrite(base: Y.Yaml, doc: Y.Yaml, written: set<Path>, p: KeyPath, v: Y.Yaml, q: KeyPath)
    requires doc.Mapping? && StaysAt(base, doc, written, q)
    ensures StaysAt(base, Y.SetIn(doc, p, v), written + {p}, q)
  {
    if !(p < q) {
      Y.SetOneKeeps(doc, p, v, q);
    }
    if !(p <= q) {
      Y.SetInOrder(doc, p, v, q);
    }
    ApartIsNoPrefix(p, q);
  }

  lemma BaseStaysAfter(base: Y.Yaml, docs: map<string, Y.Yaml>, edited: map<string, Y.Yaml>, written: set<Path>,
                       p: KeyPath, v: Y.Yaml)
    requires BaseStays(base, docs, written) && DocumentOf(docs, p[0]).Mapping?
    requires edited == docs[p[0] := Y.SetIn(DocumentOf(docs, p[0]), p, v)]
    ensures BaseStays(base, edited, written + {p})
  {
    forall q: KeyPath
      ensures StaysAt(base, DocumentOf(edited, q[0]), written + {p}, q)
    {
      if q[0] == p[0] {
        StaysAfterWrite(base, DocumentOf(docs, p[0]), written, p, v, q);
      } else {
        StaysBeside(base, DocumentOf(docs, q[0]), written, p, q);
      }
    }
  }

  lemma StaysBeside(base: Y.Yaml, doc: Y.Yaml, written: set<Path>, p: KeyPath, q: KeyPath)
    requires StaysAt(base, doc, written, q) && p[0] != q[0]
    ensures StaysAt(base, doc, written + {p}, q)
  {
  }

  /** At `q` both documents read the same, comments included. */
  ghost predicate SameAt(a: Y.Yaml, b: Y.Yaml, q: KeyPath) {
    Y.PairAt(a, q) == Y.PairAt(b, q) && Y.NamesAt(a, q) == Y.NamesAt(b, q)
  }

  lemma NothingAt(y: Y.Yaml, q: KeyPath)
    requires y.Mapping? && q[0] !in Y.Decoded(y)
    ensures SameAt(y, Y.EMPTY, q)
  {
    Y.DecodedAt(y.pairs, q[0]);
  }

  /** A document of one pair reads like the document the pair is in. */
  lemma OnePairAt(y: Y.Yaml, i: nat, q: KeyPath)
    requires y.Mapping? && i == Y.Find(y.pairs, q[0]) < |y.pairs|
    ensures SameAt(Y.EMPTY.(pairs := [y.pairs[i]]), y, q)
  {
    Y.FindIs([y.pairs[i]], q[0], 0);
  }

  lemma AppendedAt(general: Y.Yaml, pair: Y.Pair, q: KeyPath)
    requires general.Mapping? && Y.Find(general.pairs, pair.key) == |general.pairs|
    ensures
      var r := general.(pairs := general.pairs + [pair]);
      SameAt(r, if q[0] == pair.key then Y.EMPTY.(pairs := [pair]) else general, q)
  {
    var all, i := general.pairs + [pair], Y.Find(general.pairs, q[0]);
    assert forall j | 0 <= j < |general.pairs| :: all[j] == general.pairs[j];
    if q[0] == pair.key {
      Y.FindIs(all, q[0], |general.pairs|);
      Y.FindIs([pair], q[0], 0);
    } else {
      Y.FindIs(all, q[0], if i < |general.pairs| then i else |all|);
    }
  }

  method SplitTopLevel(root: Y.Yaml) returns (docs: map<string, Y.Yaml>)
    requires root.Mapping? && Y.WellFormed(root)
    ensures Holds(docs, Y.Decoded(root)) && BaseStays(root, docs, {})
  {
    docs := map[];
    for i := 0 to |root.pairs|
      invariant docs.Keys == (set j | 0 <= j < i :: root.pairs[j].key)
      invariant forall j | 0 <= j < i :: docs[root.pairs[j].key] == Y.EMPTY.(pairs := [root.pairs[j]])
    {
      docs := docs[root.pairs[i].key := Y.EMPTY.(pairs := [root.pairs[i]])];
    }
    forall k
      ensures k in docs <==> k in Y.Decoded(root)
      ensures k in docs ==>
        docs[k].Mapping? && Y.WellFormed(docs[k]) && Y.Decoded(docs[k]) == map[k := Y.Decoded(root)[k]]
    {
      var i := Y.Find(root.pairs, k);
      Y.DecodedAt(root.pairs, k);
      if i < |root.pairs| {
        assert root.pairs[i] in root.pairs;
        Y.DecodedAppend([], root.pairs[i]);
        assert docs[k].pairs == [] + [root.pairs[i]];
      }
    }
    forall q: KeyPath
      ensures StaysAt(root, DocumentOf(docs, q[0]), {}, q)
    {
      SplitStays(root, docs, q);
    }
  }

  lemma SplitStays(root: Y.Yaml, docs: map<string, Y.Yaml>, q: KeyPath)
    requires root.Mapping? && Y.WellFormed(root)
    requires docs.Keys == (set j | 0 <= j < |root.pairs| :: root.pairs[j].key)
    requires forall j | 0 <= j < |root.pairs| :: docs[root.pairs[j].key] == Y.EMPTY.(pairs := [root.pairs[j]])
    ensures StaysAt(root, DocumentOf(docs, q[0]), {}, q)
  {
    var i := Y.Find(root.pairs, q[0]);
    if i < |root.pairs| {
      OnePairAt(root, i, q);
    } else {
      Y.DecodedAt(root.pairs, q[0]);
      NothingAt(root, q);
    }
  }

  function Encode(v: Value): (y: Y.Yaml)
    requires IsLeaf(v)
    ensures Y.Decode(y) == v && Y.WellFormed(y)
  {
    if v.Map? then Y.EMPTY else Y.Leaf(v, Y.NO_COMMENTS)
  }

  /** Writes one leaf into the document of its section. */
  method WriteLeaf(docs: map<string, Y.Yaml>, path: KeyPath, v: Value, ghost t: Tree, ghost base: Y.Yaml,
                   ghost written: set<Path>)
    returns (edited: map<string, Y.Yaml>)
    requires Holds(docs, t) && IsLeaf(v) && BaseStays(base, docs, written)
    ensures Holds(edited, Set(t, path, v)) && BaseStays(base, edited, written + {path})
  {
    var top := path[0];
    var doc := if top in docs then docs[top] else Y.EMPTY;
    Y.SetInIsSet(doc, path, Encode(v));
    Y.SetInWellFormed(doc, path, Encode(v));
    SetLocal(t, Y.Decoded(doc), path, v);
    edited := docs[top := Y.SetIn(doc, path, Encode(v))];
    BaseStaysAfter(base, docs, edited, written, path, Encode(v));
  }

  lemma SetLocal(t: Tree, d: Tree, path: Path, v: Value)
    requires path != [] && d == if path[0] in t then map[path[0] := t[path[0]]] else map[]
    ensures Set(d, path, v) == map[path[0] := Set(t, path, v)[path[0]]]
  {
    assert SubTree(d, path[0]) == SubTree(t, path[0]);
  }

  /** Writes one override slice into the documents. */
  method Override(docs: map<string, Y.Yaml>, s: Tree, ghost t: Tree, ghost base: Y.Yaml, ghost written: set<Path>)
    returns (edited: map<string, Y.Yaml>, ghost all: set<Path>)
    requires Holds(docs, t) && BaseStays(base, docs, written)
    ensures Holds(edited, Overlay(t, s)) && BaseStays(base, edited, all)
    ensures forall p :: p in all <==> p in written || HasLeaf(s, p)
  {
    var leaves := FlattenLeaves(s, []);
    assert Lists(leaves, s) by {
      forall l | l in leaves ensures LeafAt(s, l.0, l.1) { assert l.0[0..] == l.0; }
      forall p, v | LeafAt(s, p, v) ensures (p, v) in leaves { assert [] + p == p; }
    }
    edited, all := docs, written;
    for i := 0 to |leaves|
      invariant Holds(edited, FoldSet(t, leaves[..i])) && BaseStays(base, edited, all)
      invariant all == written + Places(leaves[..i])
    {
      assert leaves[i] in leaves;
      LeafIsLeaf(s, leaves[i].0, leaves[i].1);
      assert leaves[..i + 1][..i] == leaves[..i];
      edited := WriteLeaf(edited, leaves[i].0, leaves[i].1, FoldSet(t, leaves[..i]), base, all);
      PlacesSnoc(leaves, i);
      all := all + {leaves[i].0};
    }
    assert leaves[..|leaves|] == leaves;
    FoldIsOverlay(t, leaves, s);
    PlacesAreLeaves(leaves, s);
  }

  ghost predicate HasLeaf(s: Tree, p: Path) {
    exists v :: LeafAt(s, p, v)
  }

  /** The paths of a list of leaves. */
  function Places(leaves: seq<Entry>): set<Path> {
    set l | l in leaves :: l.0
  }

  lemma PlacesSnoc(leaves: seq<Entry>, i: nat)
    requires i < |leaves|
    ensures Places(leaves[..i + 1]) == Places(leaves[..i]) + {leaves[i].0}
  {
    assert leaves[..i + 1] == leaves[..i] + [leaves[i]];
  }

  lemma PlacesAreLeaves(leaves: seq<Entry>, s: Tree)
    requires Lists(leaves, s)
    ensures forall p :: p in Places(leaves) <==> HasLeaf(s, p)
  {
    forall p
      ensures p in Places(leaves) <==> HasLeaf(s, p)
    {
      if HasLeaf(s, p) {
        var v :| LeafAt(s, p, v);
        assert (p, v) in leaves;
      }
    }
  }

  lemma {:induction false} LeafIsLeaf(s: Tree, p: Path, v: Value)
    requires LeafAt(s, p, v)
    ensures IsLeaf(v)
    decreases |p|
  {
    if !IsLeaf(s[p[0]]) {
      LeafIsLeaf(s[p[0]].m, p[1..], v);
    }
  }

  /** The files hold exactly `t`, each key in the file that owns it. */
  predicate FilesHold(files: Files, t: Tree) {
    Owned(files) && (forall k | k in t :: Stored(files, k) == Some(t[k]))
    && forall f | f in files :: forall k | k in Y.Decoded(files[f]) :: k in t
  }

  method BuildSectionFiles(slices: seq<Slice>) returns (files: Files, ghost written: set<Path>)
    ensures FilesHold(files, Kept(Built(slices))) && CommentsStay(slices, files, written)
  {
    var docs: map<string, Y.Yaml> := map[];
    ghost var base := BaseOf(slices);
    written := {};
    for i := 0 to |slices|
      invariant Holds(docs, Built(slices[..i])) && (i > 0 ==> BaseStays(base, docs, written))
      invariant i == 0 ==> docs == map[]
      invariant forall p :: p in written <==> OverriddenAt(slices, i, p)
    {
      assert slices[..i + 1][..i] == slices[..i];
      if slices[i].Some? {
        if i == 0 {
          docs := SplitTopLevel(slices[0].value);
          OverlayOnNothing(ValuesOf(slices[0]));
        } else {
          docs, written := Override(docs, ValuesOf(slices[i]), Built(slices[..i]), base, written);
        }
      } else if i == 0 {
        assert BaseStays(base, docs, written);
      }
    }
    assert slices[..|slices|] == slices;
    files := Partition(docs, Built(slices));
    FilesStay(base, docs, files, written, Collides(Built(slices)));
  }

  lemma FilesStay(base: Y.Yaml, docs: map<string, Y.Yaml>, files: Files, written: set<Path>, collide: bool)
    requires BaseStays(base, docs, written) && SameFiles(docs, files, collide)
    ensures BaseInFiles(base, files, written, collide)
  {
    forall q: KeyPath | q[0] != GENERAL || !collide
      ensures StaysAt(base, DocumentOf(files, OwnerFile(q[0])), written, q)
    {
      StaysWhereSame(base, DocumentOf(docs, q[0]), DocumentOf(files, OwnerFile(q[0])), written, q);
    }
  }

  lemma StaysWhereSame(base: Y.Yaml, doc: Y.Yaml, file: Y.Yaml, written: set<Path>, q: KeyPath)
    requires StaysAt(base, doc, written, q) && SameAt(file, doc, q)
    ensures StaysAt(base, file, written, q)
  {
  }

  /** The files keep of `base` what the writes leave alone, but for a section the general keys overwrite. */
  ghost predicate BaseInFiles(base: Y.Yaml, files: Files, written: set<Path>, collide: bool) {
    forall q: KeyPath | q[0] != GENERAL || !collide ::
      StaysAt(base, DocumentOf(files, OwnerFile(q[0])), written, q)
  }

  /** The slice whose comments are kept: the first one, if it is there. */
  function BaseOf(slices: seq<Slice>): Y.Yaml {
    if slices != [] && slices[0].Some? then slices[0].value else Y.EMPTY
  }

  /** One of the slices after the first, up to `n`, has a leaf at `p`. */
  ghost predicate OverriddenAt(slices: seq<Slice>, n: nat, p: Path) {
    exists i :: 0 < i < n && i < |slices| && HasLeaf(ValuesOf(slices[i]), p)
  }

  /** Every pair of the first slice stands in its file as it stood, comments and order included, but for what
      later slices write there; a section called "general" is lost beside the general keys. */
  ghost predicate CommentsStay(slices: seq<Slice>, files: Files, written: set<Path>) {
    && (forall p :: p in written <==> OverriddenAt(slices, |slices|, p))
    && BaseInFiles(BaseOf(slices), files, written, Collides(Built(slices)))
  }

  /** The files read as the documents do, but for a section the general keys overwrite. */
  ghost predicate SameFiles(docs: map<string, Y.Yaml>, files: Files, collide: bool) {
    forall q: KeyPath | q[0] != GENERAL || !collide ::
      SameAt(DocumentOf(files, OwnerFile(q[0])), DocumentOf(docs, q[0]), q)
  }

  /** The general document reads as the documents of the general keys that are done. */
  ghost predicate GeneralReads(docs: map<string, Y.Yaml>, todo: set<string>, general: Y.Yaml) {
    forall q: KeyPath | IsGeneral(q[0]) && q[0] !in todo :: SameAt(general, DocumentOf(docs, q[0]), q)
  }

  /** Sorts the documents into files. */
  method Partition(docs: map<string, Y.Yaml>, ghost t: Tree) returns (files: Files)
    requires Holds(docs, t)
    ensures FilesHold(files, Kept(t)) && SameFiles(docs, files, Collides(t))
  {
    var general, sections := Separate(docs, t);
    files := if |general.pairs| > 0 then sections[GENERAL := general] else sections;
    ghost var g, u := KeptIs(t);
    Y.DecodedEmpty(general.pairs);
    PartedIsSorted(docs, t, g, general, sections, files);
    PartitionHolds(docs, t, g, general, files, u);
    SortedReads(docs, t, g, general, files, Collides(t));
  }

  /** The keys that are done: the general ones in one document, the others in their own. */
  ghost predicate Parted(docs: map<string, Y.Yaml>, t: Tree, todo: set<string>, general: Y.Yaml, sections: Files) {
    && (forall f :: f in sections <==> f in docs && f !in todo && !IsGeneral(f))
    && (forall f | f in sections :: sections[f] == docs[f])
    && general.Mapping? && Y.WellFormed(general) && Y.Decoded(general) == GeneralPart(t, todo)
    && GeneralReads(docs, todo, general)
  }

  lemma GeneralJoins(docs: map<string, Y.Yaml>, t: Tree, todo: set<string>, general: Y.Yaml, sections: Files, k: string,
                     after: Y.Yaml)
    requires Parted(docs, t, todo, general, sections) && k in todo && k in docs && k in t && IsGeneral(k)
    requires after.Mapping? && Y.WellFormed(after) && Y.Decoded(after) == Y.Decoded(general)[k := t[k]]
    requires Appended(general, docs[k], k, after)
    ensures Parted(docs, t, todo - {k}, after, sections)
  {
    GeneralStep(t, todo, k);
    GeneralReadsOn(docs, todo, general, after, k);
  }

  lemma SectionJoins(docs: map<string, Y.Yaml>, t: Tree, todo: set<string>, general: Y.Yaml, sections: Files, k: string)
    requires Parted(docs, t, todo, general, sections) && k in todo && k in docs && k in t && !IsGeneral(k)
    ensures Parted(docs, t, todo - {k}, general, sections[k := docs[k]])
  {
    GeneralStep(t, todo, k);
    GeneralReadsOn(docs, todo, general, general, k);
  }

  lemma PartedIsSorted(docs: map<string, Y.Yaml>, t: Tree, g: Tree, general: Y.Yaml, sections: Files, files: Files)
    requires Holds(docs, t) && general.Mapping? && Y.WellFormed(general) && Y.Decoded(general) == g
    requires forall k :: k in g <==> k in t && IsGeneral(k)
    requires forall k | k in g :: g[k] == t[k]
    requires forall f :: f in sections <==> f in docs && !IsGeneral(f)
    requires forall f | f in sections :: sections[f] == docs[f]
    requires files == if g != map[] then sections[GENERAL := general] else sections
    ensures Sorted(docs, t, g, general, files)
  {
  }

  /** The general keys in one document, the others in their own; the keys taken in any order. */
  method Separate(docs: map<string, Y.Yaml>, ghost t: Tree) returns (general: Y.Yaml, sections: Files)
    requires Holds(docs, t)
    ensures Parted(docs, t, {}, general, sections)
  {
    sections, general := map[], Y.EMPTY;
    var todo := docs.Keys;
    NothingParted(docs, t);
    while todo != {}
      invariant todo <= docs.Keys && Parted(docs, t, todo, general, sections)
      decreases todo
    {
      var k :| k in todo;
      if IsGeneral(k) {
        ghost var before := general;
        general := AppendSection(general, docs[k], k, t[k]);
        GeneralJoins(docs, t, todo, before, sections, k, general);
      } else {
        SectionJoins(docs, t, todo, general, sections, k);
        sections := sections[k := docs[k]];
      }
      todo := todo - {k};
    }
  }

  lemma NothingParted(docs: map<string, Y.Yaml>, t: Tree)
    requires docs.Keys == t.Keys
    ensures Parted(docs, t, docs.Keys, Y.EMPTY, map[])
  {
    forall q: KeyPath | q[0] !in docs
      ensures SameAt(Y.EMPTY, DocumentOf(docs, q[0]), q)
    {
    }
  }

  /** The general keys of `t` that are no longer to be done. */
  function GeneralPart(t: Tree, todo: set<string>): Tree {
    map k | k in t && IsGeneral(k) && k !in todo :: t[k]
  }

  lemma GeneralStep(t: Tree, todo: set<string>, k: string)
    requires k in t && k in todo
    ensures GeneralPart(t, todo - {k}) ==
      if IsGeneral(k) then GeneralPart(t, todo)[k := t[k]] else GeneralPart(t, todo)
  {
  }

  method AppendSection(general: Y.Yaml, doc: Y.Yaml, k: string, ghost v: Value) returns (r: Y.Yaml)
    requires general.Mapping? && Y.WellFormed(general) && k !in Y.Decoded(general)
    requires doc.Mapping? && Y.WellFormed(doc) && Y.Decoded(doc) == map[k := v]
    ensures r.Mapping? && Y.WellFormed(r) && Y.Decoded(r) == Y.Decoded(general)[k := v]
    ensures Appended(general, doc, k, r)
  {
    Y.OnePair(doc.pairs, k, v);
    assert doc.pairs == [doc.pairs[0]];
    Y.DecodedAppend(general.pairs, doc.pairs[0]);
    Y.DecodedAt(general.pairs, k);
    r := general.(pairs := general.pairs + doc.pairs);
    forall q: KeyPath
      ensures SameAt(r, if q[0] == k then doc else general, q)
    {
      AppendedAt(general, doc.pairs[0], q);
      assert Y.PairAt(doc, q) == Y.PairAt(Y.EMPTY.(pairs := doc.pairs), q);
      assert Y.NamesAt(doc, q) == Y.NamesAt(Y.EMPTY.(pairs := doc.pairs), q);
    }
  }

  /** `files` are the documents sorted: `g`, the general keys, in one file, every other key in its own. */
  ghost predicate Sorted(docs: map<string, Y.Yaml>, t: Tree, g: Tree, general: Y.Yaml, files: Files) {
    && Holds(docs, t)
    && (forall k :: k in g <==> k in t && IsGeneral(k))
    && (forall k | k in g :: g[k] == t[k])
    && general.Mapping? && Y.WellFormed(general) && Y.Decoded(general) == g
    && (forall f :: f in files <==> IsGeneralFile(g, f) || (f in docs && !IsGeneral(f)))
    && forall f | f in files :: files[f] == if IsGeneralFile(g, f) then general else docs[f]
  }

  lemma SortedReads(docs: map<string, Y.Yaml>, t: Tree, g: Tree, general: Y.Yaml, files: Files, collide: bool)
    requires Sorted(docs, t, g, general, files) && GeneralReads(docs, {}, general)
    requires collide == Collides(t)
    ensures SameFiles(docs, files, collide)
  {
    forall q: KeyPath | q[0] != GENERAL || !collide
      ensures SameAt(DocumentOf(files, OwnerFile(q[0])), DocumentOf(docs, q[0]), q)
    {
      if IsGeneral(q[0]) {
        GeneralAt(docs, t, g, general, files, GENERAL, q);
      } else {
        assert Collides(t) <==> GENERAL in t && g != map[] by {
          assert forall k :: k in g <==> IsGeneral(k) && k in t;
        }
        SectionAt(docs, t, g, general, files, q);
      }
    }
  }

  lemma GeneralAt(docs: map<string, Y.Yaml>, t: Tree, g: Tree, general: Y.Yaml, files: Files, f: string, q: KeyPath)
    requires Sorted(docs, t, g, general, files) && f == GENERAL && IsGeneral(q[0])
    requires SameAt(general, DocumentOf(docs, q[0]), q)
    ensures SameAt(DocumentOf(files, f), DocumentOf(docs, q[0]), q)
  {
    if g == map[] {
      assert q[0] !in g && q[0] !in docs;
      GeneralIsNoGeneralKey();
      if f in docs {
        NothingAt(docs[f], q);
      }
    }
  }

  lemma SectionAt(docs: map<string, Y.Yaml>, t: Tree, g: Tree, general: Y.Yaml, files: Files, q: KeyPath)
    requires Sorted(docs, t, g, general, files) && !IsGeneral(q[0]) && (IsGeneralFile(g, q[0]) ==> q[0] !in t)
    ensures SameAt(DocumentOf(files, q[0]), DocumentOf(docs, q[0]), q)
  {
    if IsGeneralFile(g, q[0]) {
      NothingAt(general, q);
    }
  }

  /** The document after a section was appended to it. */
  ghost predicate Appended(general: Y.Yaml, doc: Y.Yaml, k: string, r: Y.Yaml) {
    forall q: KeyPath :: SameAt(r, if q[0] == k then doc else general, q)
  }

  lemma GeneralReadsOn(docs: map<string, Y.Yaml>, todo: set<string>, before: Y.Yaml, after: Y.Yaml, k: string)
    requires GeneralReads(docs, todo, before) && k in todo && k in docs
    requires if IsGeneral(k) then Appended(before, docs[k], k, after) else after == before
    ensures GeneralReads(docs, todo - {k}, after)
  {
    forall q: KeyPath | IsGeneral(q[0]) && q[0] !in todo - {k}
      ensures SameAt(after, DocumentOf(docs, q[0]), q)
    {
      if q[0] != k {
        assert SameAt(before, DocumentOf(docs, q[0]), q);
      }
      if IsGeneral(k) {
        assert SameAt(after, if q[0] == k then docs[k] else before, q);
      }
    }
  }

  predicate IsGeneralFile(g: Tree, f: string) {
    f == GENERAL && g != map[]
  }

  lemma SortedFile(docs: map<string, Y.Yaml>, t: Tree, g: Tree, general: Y.Yaml, files: Files, f: string)
    requires Sorted(docs, t, g, general, files) && f in files
    ensures files[f].Mapping? && Y.WellFormed(files[f])
    ensures Y.Decoded(files[f]) == if IsGeneralFile(g, f) then g else map[f := t[f]]
    ensures forall k | k in Y.Decoded(files[f]) :: OwnerFile(k) == f && k in t && (k == GENERAL ==> g == map[])
  {
    GeneralIsNoGeneralKey();
  }

  lemma SortedOwned(docs: map<string, Y.Yaml>, t: Tree, g: Tree, general: Y.Yaml, files: Files)
    requires Sorted(docs, t, g, general, files)
    ensures Owned(files)
  {
    forall f | f in files
      ensures files[f].Mapping? && Y.WellFormed(files[f])
      ensures forall k | k in Y.Decoded(files[f]) :: OwnerFile(k) == f
    {
      SortedFile(docs, t, g, general, files, f);
    }
  }

  lemma SortedKey(docs: map<string, Y.Yaml>, t: Tree, g: Tree, general: Y.Yaml, files: Files, k: string)
    requires Sorted(docs, t, g, general, files) && Owned(files)
    requires k in t && (k == GENERAL ==> g == map[])
    ensures Stored(files, k) == Some(t[k])
  {
    GeneralIsNoGeneralKey();
    SortedFile(docs, t, g, general, files, OwnerFile(k));
  }

  lemma PartitionHolds(docs: map<string, Y.Yaml>, t: Tree, g: Tree, general: Y.Yaml, files: Files, u: Tree)
    requires Sorted(docs, t, g, general, files)
    requires forall k :: k in u <==> k in t && (k == GENERAL ==> g == map[])
    requires forall k | k in u :: u[k] == t[k]
    ensures FilesHold(files, u)
  {
    SortedOwned(docs, t, g, general, files);
    forall k | k in u
      ensures Stored(files, k) == Some(u[k])
    {
      SortedKey(docs, t, g, general, files, k);
    }
    forall f, k | f in files && k in Y.Decoded(files[f])
      ensures k in u
    {
      SortedFile(docs, t, g, general, files, f);
    }
  }

  lemma GeneralIsNoGeneralKey()
    ensures !IsGeneral(GENERAL)
  {
  }

  lemma KeptIs(t: Tree) returns (g: Tree, u: Tree)
    ensures g == GeneralPart(t, {}) && u == Kept(t)
    ensures forall k :: k in g <==> k in t && IsGeneral(k)
    ensures forall k | k in g :: g[k] == t[k]
    ensures forall k :: k in u <==> k in t && (k == GENERAL ==> g == map[])
    ensures forall k | k in u :: u[k] == t[k]
  {
    g, u := GeneralPart(t, {}), Kept(t);
    assert Collides(t) <==> GENERAL in t && g != map[] by {
      assert forall k :: k in g <==> IsGeneral(k) && k in t;
    }
  }

  /** Whatever order the files are merged in, they mean `t`. */
  lemma HeldIsEffective(files: Files, t: Tree, order: seq<string>)
    requires FilesHold(files, t) && forall f | f in files :: f in order
    ensures Effective(order, files) == t
  {
    forall k
      ensures At(t, k) == if OwnerFile(k) in order then Stored(files, k) else None
    {
      assert k in t ==> Stored(files, k) == Some(t[k]);
    }
    EffectiveIs(order, files, t);
  }

  lemma {:induction false} SameKeys(slices: seq<Slice>)
    ensures Built(slices).Keys == Meant(slices).Keys
  {
    if slices != [] {
      SameKeys(slices[..|slices| - 1]);
    }
  }

  /** Migration keeps the meaning of the configuration: whatever order the new files are merged in,
      they mean what the slices meant, if and only if writing the overrides built what merging them
      means and no section is called "general" beside the general keys. */
  lemma MigrationKeepsMeaning(slices: seq<Slice>, files: Files, order: seq<string>)
    requires FilesHold(files, Kept(Built(slices)))
    requires forall f | f in files :: f in order
    ensures Effective(order, files) == Meant(slices) <==>
      Built(slices) == Meant(slices) && !Collides(Meant(slices))
  {
    SameKeys(slices);
    var t := Kept(Built(slices));
    HeldIsEffective(files, t, order);
    if Collides(Built(slices)) {
      assert GENERAL !in t && GENERAL in Meant(slices);
    }
  }

  /** One override, laid over a base: a condition on the two files alone. */
  lemma OneOverride(base: Slice, override: Slice, files: Files, order: seq<string>)
    requires base.Some? && override.Some?
    requires FilesHold(files, Kept(Built([base, override])))
    requires forall f | f in files :: f in order
    ensures Effective(order, files) == Meant([base, override]) <==>
      !Clobbers(ValuesOf(base), ValuesOf(override)) && !Collides(Meant([base, override]))
  {
    var slices := [base, override];
    MigrationKeepsMeaning(slices, files, order);
    assert slices[..1] == [base] && [base][..0] == [];
    OverlayOnNothing(ValuesOf(base));
    MergeNothing(ValuesOf(base));
    assert Built([base][..0]) == map[] && MergeAll([base][..0]) == map[];
    assert Built([base]) == ValuesOf(base) == Meant([base]);
    OverlayIsMerge(ValuesOf(base), ValuesOf(override));
    assert Built(slices) == Overlay(ValuesOf(base), ValuesOf(override));
    assert Meant(slices) == DeepMerge(ValuesOf(base), ValuesOf(override));
  }

  /** No override clobbers a mapping of what the slices before it mean. */
  predicate NoneClobbers(slices: seq<Slice>) {
    slices != [] ==>
      && NoneClobbers(slices[..|slices| - 1])
      && !Clobbers(Meant(slices[..|slices| - 1]), ValuesOf(slices[|slices| - 1]))
  }

  /** The documents mean what the slices mean, and did so after every slice before. */
  predicate BuiltAsMeant(slices: seq<Slice>) {
    && Built(slices) == Meant(slices)
    && (slices != [] ==> BuiltAsMeant(slices[..|slices| - 1]))
  }

  /** The documents follow the meaning through every slice exactly when no override clobbers. */
  lemma {:induction false} BuiltIsMeant(slices: seq<Slice>)
    ensures BuiltAsMeant(slices) <==> NoneClobbers(slices)
  {
    if slices != [] {
      var init, s := slices[..|slices| - 1], slices[|slices| - 1];
      BuiltIsMeant(init);
      OverlayIsMerge(Meant(init), ValuesOf(s));
      MergeNothing(Meant(init));
    }
  }

  // ---- What the overrides forget, read off the slices -----------------------------------------

  /** What merging shows at `p`: the last slice with something there decides, unless a leaf above came after. */
  function MeantView(slices: seq<Slice>, p: KeyPath): Option<Value> {
    if slices == [] then None
    else
      var s := ValuesOf(slices[|slices| - 1]);
      if Get(s, p).Some? then View(Get(s, p))
      else if PlainAbove(s, p) then None
      else MeantView(slices[..|slices| - 1], p)
  }

  /** What writing shows at `p`: an empty mapping above counts like a leaf. */
  function BuiltView(slices: seq<Slice>, p: KeyPath): Option<Value> {
    if slices == [] then None
    else
      var s := ValuesOf(slices[|slices| - 1]);
      if Get(s, p).Some? then View(Get(s, p))
      else if PlainAbove(s, p) || EmptyAbove(s, p) then None
      else BuiltView(slices[..|slices| - 1], p)
  }

  lemma {:induction false} ViewsAre(slices: seq<Slice>, p: KeyPath)
    ensures View(Get(Meant(slices), p)) == MeantView(slices, p)
    ensures View(Get(Built(slices), p)) == BuiltView(slices, p)
  {
    if slices != [] {
      var front, s := slices[..|slices| - 1], ValuesOf(slices[|slices| - 1]);
      ViewsAre(front, p);
      MergeView(Meant(front), s, p);
      OverlayView(Built(front), s, p);
      MergeNothing(Meant(front));
    }
  }

  /** Slice `m` has something at `p`, and no later slice has anything there or a leaf above it. */
  predicate LastWord(slices: seq<Slice>, p: KeyPath, m: nat)
    requires m < |slices|
  {
    && Get(ValuesOf(slices[m]), p).Some?
    && forall l | m < l < |slices| :: Get(ValuesOf(slices[l]), p).None? && !PlainAbove(ValuesOf(slices[l]), p)
  }

  /** What the last word on `p` put there is emptied away by a later slice and not written again. */
  predicate Forgotten(slices: seq<Slice>, p: KeyPath) {
    exists m, e | 0 <= m < e < |slices| :: LastWord(slices, p, m) && EmptyAbove(ValuesOf(slices[e]), p)
  }

  lemma {:induction false} HasLastWord(slices: seq<Slice>, p: KeyPath)
    ensures MeantView(slices, p).Some? <==> exists m | 0 <= m < |slices| :: LastWord(slices, p, m)
  {
    if slices != [] {
      var n := |slices| - 1;
      var front, s := slices[..n], ValuesOf(slices[n]);
      HasLastWord(front, p);
      NothingBelowALeaf(s, p);
      if Get(s, p).Some? {
        assert LastWord(slices, p, n);
      } else {
        LastWordsOf(slices, p);
      }
    }
  }

  lemma {:induction false} ForgottenIs(slices: seq<Slice>, p: KeyPath)
    ensures MeantView(slices, p) != BuiltView(slices, p) <==> Forgotten(slices, p)
  {
    if slices != [] {
      var n := |slices| - 1;
      var front, s := slices[..n], ValuesOf(slices[n]);
      ForgottenIs(front, p);
      HasLastWord(front, p);
      NothingBelowALeaf(s, p);
      if Get(s, p).None? {
        LastWordsOf(slices, p);
        if EmptyAbove(s, p) && Forgotten(slices, p) {
          var m, e :| 0 <= m < e < |slices| && LastWord(slices, p, m) && EmptyAbove(ValuesOf(slices[e]), p);
          assert LastWord(front, p, m);
        }
        if EmptyAbove(s, p) && MeantView(front, p).Some? {
          var m :| 0 <= m < |front| && LastWord(front, p, m);
          assert LastWord(slices, p, m);
        }
      }
    }
  }

  lemma LastWordsOf(slices: seq<Slice>, p: KeyPath)
    requires slices != [] && Get(ValuesOf(slices[|slices| - 1]), p).None?
    ensures
      var n := |slices| - 1;
      forall m | 0 <= m < n :: LastWord(slices, p, m) <==>
        LastWord(slices[..n], p, m) && !PlainAbove(ValuesOf(slices[n]), p)
  {
  }

  /** For any number of slices: writing the overrides builds what merging them means, if and only if no
      override forgets anything. */
  lemma NothingForgotten(slices: seq<Slice>)
    ensures Built(slices) == Meant(slices) <==> forall p: KeyPath :: !Forgotten(slices, p)
  {
    forall p: KeyPath
      ensures View(Get(Built(slices), p)) == View(Get(Meant(slices), p)) <==> !Forgotten(slices, p)
    {
      ViewsAre(slices, p);
      ForgottenIs(slices, p);
    }
    if forall p: KeyPath :: !Forgotten(slices, p) {
      SameViews(Built(slices), Meant(slices));
    }
  }

  /** The files in the order in which a map happens to yield them. */
  method FileOrder(files: Files) returns (order: seq<string>)
    ensures forall f :: f in order <==> f in files
  {
    order := [];
    var todo := files.Keys;
    while todo != {}
      invariant todo <= files.Keys
      invariant forall f :: f in order <==> f in files && f !in todo
      decreases todo
    {
      var f :| f in todo;
      order, todo := order + [f], todo - {f};
    }
  }

  predicate Named(slices: seq<Slice>, k: string) {
    exists i | 0 <= i < |slices| :: k in ValuesOf(slices[i])
  }

  lemma {:induction false} MeantKeys(slices: seq<Slice>, k: string)
    ensures k in Meant(slices) <==> Named(slices, k)
  {
    if slices != [] {
      var n := |slices| - 1;
      MeantKeys(slices[..n], k);
      assert forall i | 0 <= i < n :: slices[..n][i] == slices[i];
    }
  }

  /** Some slice has a section called "general", and some slice a general key. */
  predicate NamesCollide(slices: seq<Slice>) {
    Named(slices, GENERAL) && exists i | 0 <= i < |slices| :: exists g | g in ValuesOf(slices[i]) :: IsGeneral(g)
  }

  lemma CollidesIsNames(slices: seq<Slice>)
    ensures Collides(Meant(slices)) <==> NamesCollide(slices)
  {
    MeantKeys(slices, GENERAL);
    if Collides(Meant(slices)) {
      var g :| g in Meant(slices) && IsGeneral(g);
      MeantKeys(slices, g);
    }
    if NamesCollide(slices) {
      var i :| 0 <= i < |slices| && exists g | g in ValuesOf(slices[i]) :: IsGeneral(g);
      var g :| g in ValuesOf(slices[i]) && IsGeneral(g);
      MeantKeys(slices, g);
    }
  }

  /** No clobbering on the way is enough for nothing to be forgotten in the end. */
  lemma NoneClobbersIsEnough(slices: seq<Slice>)
    requires NoneClobbers(slices)
    ensures forall p: KeyPath :: !Forgotten(slices, p)
  {
    BuiltIsMeant(slices);
    NothingForgotten(slices);
  }

  /** It is more than is needed: a scalar that replaces the emptied mapping makes up for it. */
  lemma ReplacedAnyway(base: Slice, emptied: Slice, replaced: Slice, k: string, below: Tree, v: Value)
    requires base.Some? && emptied.Some? && replaced.Some? && below != map[] && !v.Map?
    requires ValuesOf(base) == map[k := Map(below)] && ValuesOf(emptied) == map[k := Map(map[])]
    requires ValuesOf(replaced) == map[k := v]
    ensures !NoneClobbers([base, emptied, replaced])
    ensures Built([base, emptied, replaced]) == Meant([base, emptied, replaced])
  {
    var two, three := [base, emptied], [base, emptied, replaced];
    assert three[..2] == two && two[..1] == [base];
    EmptyOverrideReplaces(base, emptied, k, below);
    assert Built(three) == Overlay(Built(two), ValuesOf(replaced)) == map[k := v];
    assert Meant(three) == DeepMerge(Meant(two), ValuesOf(replaced)) == map[k := v];
    assert Built(two)[k] != Meant(two)[k];
    BuiltIsMeant(two);
    assert !NoneClobbers(two);
  }

  /** The migration up to the point where anything is written: it goes on exactly when no override forgets
      anything and no section collides with the general file, and then the new files mean what the old ones
      meant, in whatever order they will be listed. */
  method MigrateToSections(slices: seq<Slice>) returns (err: bool, files: Files, ghost written: set<Path>)
    ensures FilesHold(files, Kept(Built(slices))) && CommentsStay(slices, files, written)
    ensures err <==> (exists p: KeyPath :: Forgotten(slices, p)) || NamesCollide(slices)
    ensures NoneClobbers(slices) && !NamesCollide(slices) ==> !err
    ensures !err ==> forall manifest | (forall f | f in files :: f in manifest) ::
      Effective(manifest, files) == Meant(slices)
  {
    files, written := BuildSectionFiles(slices);
    var order := FileOrder(files);
    var before := MergeToMap(slices);
    var after := MergeToMap(Listed(order, files));
    MigrationKeepsMeaning(slices, files, order);
    NothingForgotten(slices);
    CollidesIsNames(slices);
    err := before != after;
    if NoneClobbers(slices) {
      NoneClobbersIsEnough(slices);
    }
    if !err {
      forall manifest | forall f | f in files :: f in manifest
        ensures Effective(manifest, files) == Meant(slices)
      {
        MigrationKeepsMeaning(slices, files, manifest);
      }
    }
  }

  /** An override that empties a mapping: merging leaves the mapping alone, migrating replaces it. */
  lemma EmptyOverrideReplaces(base: Slice, override: Slice, k: string, below: Tree)
    requires base.Some? && override.Some? && below != map[]
    requires ValuesOf(base) == map[k := Map(below)] && ValuesOf(override) == map[k := Map(map[])]
    ensures Meant([base, override]) == map[k := Map(below)]
    ensures Built([base, override]) == map[k := Map(map[])]
  {
    var slices := [base, override];
    assert slices[..1] == [base] && [base][..0] == [];
    OverlayOnNothing(ValuesOf(base));
    MergeNothing(ValuesOf(base));
    assert Built([base][..0]) == map[] && MergeAll([base][..0]) == map[];
    assert Built([base]) == ValuesOf(base) == Meant([base]);
    assert Built(slices) == Overlay(ValuesOf(base), ValuesOf(override));
    assert Meant(slices) == DeepMerge(ValuesOf(base), ValuesOf(override));
    MergeNothing(below);
  }

  /** A section named like the file of the general keys is lost as soon as there is a general key. */
  lemma GeneralSectionIsLost(v: Value, w: Value)
    ensures var t := map[GENERAL := v, "serverName" := w];
      Collides(t) && Kept(t) == map["serverName" := w]
  {
    var t: Tree := map[GENERAL := v, "serverName" := w];
    GeneralIsNoGeneralKey();
    assert IsGeneral("serverName");
    assert "serverName" in t;
  }
}
