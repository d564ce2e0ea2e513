// Changes made on the settings page, the edits of the configuration they become, and what the page
// shows afterwards.
module Tasks {
  import opened Values
  import opened Leaves
  import opened Edits
  import opened TaskFields

  type Fields = map<string, Field>

  /** Per field its new value; null means back to the default. */
  type Changes = map<string, Value>

  datatype Plan = Plan(writes: seq<Entry>, removals: seq<KeyPath>)

  /** The configuration after the plan: first the writes, then the removals with emptied parents. */
  function Applied(values: Tree, plan: Plan): Tree {
    DeleteAll(FoldSet(values, plan.writes), plan.removals)
  }

  function Nulls(ps: seq<KeyPath>): (r: seq<Entry>)
    ensures |r| == |ps| && forall i | 0 <= i < |r| :: r[i] == (ps[i], Null)
  {
    if ps == [] then [] else Nulls(ps[..|ps| - 1]) + [(ps[|ps| - 1], Null)]
  }

  function AllEdits(plan: Plan): seq<Entry> {
    plan.writes + Nulls(plan.removals)
  }

  predicate NoNulls(ls: seq<Entry>) {
    forall i | 0 <= i < |ls| :: !ls[i].1.Null?
  }

  lemma {:induction false} WritesAreEdits(t: Tree, ls: seq<Entry>)
    requires NoNulls(ls)
    ensures FoldSet(t, ls) == EditAll(t, ls)
  {
    if ls != [] {
      WritesAreEdits(t, ls[..|ls| - 1]);
    }
  }

  lemma {:induction false} RemovalsAreEdits(t: Tree, ls: seq<Entry>, ps: seq<KeyPath>)
    ensures DeleteAll(EditAll(t, ls), ps) == EditAll(t, ls + Nulls(ps))
  {
    if ps == [] {
      assert ls + Nulls(ps) == ls;
    } else {
      var front := ps[..|ps| - 1];
      RemovalsAreEdits(t, ls, front);
      assert (ls + Nulls(ps))[..|ls| + |front|] == ls + Nulls(front);
    }
  }

  lemma AppliedIsEditAll(values: Tree, plan: Plan)
    requires NoNulls(plan.writes)
    ensures Applied(values, plan) == EditAll(values, AllEdits(plan))
  {
    WritesAreEdits(values, plan.writes);
    RemovalsAreEdits(values, plan.writes, plan.removals);
  }

  // ----- Fields that do not get in each other's way -----

  predicate Separate(f: Field, g: Field) {
    match (f.source, g.source)
    case (AtValue(p), AtValue(q)) => Apart(p, q)
    case (AtValue(p), InBlock(c, _, _)) => Apart(p, AdditionalPath(c))
    case (InBlock(c, _, _), AtValue(q)) => Apart(AdditionalPath(c), q)
    case (InBlock(c, k, j), InBlock(d, l, i)) => c == d ==> Apart(k, l) && j == i
  }

  /** Where a field has its value, or the blocks it is set in. */
  function Place(f: Field): KeyPath {
    match f.source
    case AtValue(p) => p
    case InBlock(c, _, _) => AdditionalPath(c)
  }

  lemma SeparateIs(f: Field, g: Field)
    ensures Separate(f, g) <==>
      if f.source.InBlock? && g.source.InBlock? && f.source.component == g.source.component then
        !(f.source.key <= g.source.key) && !(g.source.key <= f.source.key) && f.source.json == g.source.json
      else !(Place(f) <= Place(g)) && !(Place(g) <= Place(f))
  {
    ApartIsNoPrefix(Place(f), Place(g));
    if f.source.InBlock? && g.source.InBlock? {
      ApartIsNoPrefix(f.source.key, g.source.key);
    }
  }

  /** No field's place lies on the way to another's; one form of text per component. */
  predicate Clear(fields: Fields) {
    forall a, b | a in fields && b in fields && a != b :: Separate(fields[a], fields[b])
  }

  predicate InComponent(fields: Fields, id: string, c: string) {
    id in fields && fields[id].source.InBlock? && fields[id].source.component == c
  }

  /** A change to a block: what prints like the default takes the key away. */
  function Normal(tx: Text, f: Field, v: Value): Value {
    if v.Null? || LikeDefault(tx, f, v) then Null else v
  }

  function TextPath(c: string, json: bool): KeyPath {
    if json then BlockPath(c) else BlockPath(c) + ["config"]
  }

  function TextOf(tx: Text, json: bool, b: Tree): Value {
    Scalar(String, tx.render(json, b))
  }

  /** The changes of each component's block, and nothing else. */
  ghost predicate BlockEdits(tx: Text, fields: Fields, changes: Changes, edits: map<string, seq<Entry>>) {
    && (forall id | id in changes && id in fields && fields[id].source.InBlock? ::
      fields[id].source.component in edits &&
      (fields[id].source.key, Normal(tx, fields[id], changes[id])) in edits[fields[id].source.component])
    && (forall c | c in edits :: PairwiseApart(edits[c]))
    && (forall c, e | c in edits && e in edits[c] :: EditFrom(fields, changes, c, e.0))
  }

  ghost predicate EditFrom(fields: Fields, changes: Changes, c: string, key: KeyPath) {
    exists id :: id in changes && InComponent(fields, id, c) && fields[id].source.key == key
  }

  /** The place that an edit of the plan writes belongs to a changed field. */
  ghost predicate PlaceFrom(fields: Fields, changes: Changes, p: KeyPath) {
    exists id :: id in changes && id in fields && PlaceOf(fields[id], p)
  }

  predicate PlaceOf(f: Field, p: KeyPath) {
    match f.source
    case AtValue(path) => p == path
    case InBlock(c, _, json) => p == BlockPath(c) || (!json && p == TextPath(c, json))
  }

  /** The edit that a changed field asks of the configuration. */
  ghost predicate Planned(tx: Text, values: Tree, f: Field, v: Value, plan: Plan, edits: map<string, seq<Entry>>) {
    match f.source
    case AtValue(path) => (path, v) in AllEdits(plan)
    case InBlock(c, _, json) =>
      && c in edits
      && var b := EditAll(OwnBlock(tx, values, c), edits[c]);
        (if b == map[] then (BlockPath(c), Null) else (TextPath(c, json), TextOf(tx, json, b))) in AllEdits(plan)
  }

  /** `plan` is what `changes` become, the changes of each block made in the order `edits`. */
  ghost predicate PlanFor(tx: Text, values: Tree, fields: Fields, changes: Changes, plan: Plan,
                          edits: map<string, seq<Entry>>)
  {
    && changes.Keys <= fields.Keys
    && BlockEdits(tx, fields, changes, edits)
    && NoNulls(plan.writes) && PairwiseApart(AllEdits(plan))
    && (forall e | e in AllEdits(plan) :: PlaceFrom(fields, changes, e.0))
    && (forall id | id in changes :: Planned(tx, values, fields[id], changes[id], plan, edits))
  }

  // ----- The laws -----

  /** Everything about one call: the configuration before, the page's fields, the changes, the plan. */
  datatype Job = Job(values: Tree, fields: Fields, changes: Changes, plan: Plan, edits: map<string, seq<Entry>>)

  ghost predicate Done(tx: Text, job: Job) {
    PlanFor(tx, job.values, job.fields, job.changes, job.plan, job.edits)
  }

  function Result(job: Job): Tree {
    Applied(job.values, job.plan)
  }

  /** What a place apart from all changed fields holds stays. */
  lemma ElsewhereUnchanged(tx: Text, job: Job, q: KeyPath)
    requires Done(tx, job)
    requires forall id, p: KeyPath | id in job.changes && PlaceOf(job.fields[id], p) :: Apart(p, q)
    ensures Get(Result(job), q) == Get(job.values, q)
  {
    AppliedIsEditAll(job.values, job.plan);
    forall e | e in AllEdits(job.plan)
      ensures Apart(e.0, q)
    {
      assert PlaceFrom(job.fields, job.changes, e.0);
    }
    UneditedKeys(job.values, AllEdits(job.plan), q);
  }

  lemma EditHolds(tx: Text, job: Job, e: Entry)
    requires Done(tx, job) && e in AllEdits(job.plan)
    ensures Get(Result(job), e.0) == Kept(e.1)
  {
    AppliedIsEditAll(job.values, job.plan);
    EditedKeys(job.values, AllEdits(job.plan));
  }

  lemma BelowBlock(c: string, p: KeyPath, q: KeyPath)
    requires p == BlockPath(c) || p == BlockPath(c) + ["config"]
    ensures Apart(AdditionalPath(c), q) ==> Apart(p, q)
    ensures Apart(q, AdditionalPath(c)) ==> Apart(q, p)
  {
    assert p == AdditionalPath(c) + p[2..] && q + [] == q;
    if Apart(AdditionalPath(c), q) {
      ApartBelow(AdditionalPath(c), p[2..], q, []);
    }
    if Apart(q, AdditionalPath(c)) {
      ApartBelow(q, [], AdditionalPath(c), p[2..]);
    }
  }

  /** A field's own place is apart from the places of every other field outside its block. */
  lemma PlacesApart(f: Field, g: Field, p: KeyPath, q: KeyPath)
    requires Separate(f, g) && PlaceOf(f, p) && PlaceOf(g, q)
    requires f.source.InBlock? && g.source.InBlock? ==> f.source.component != g.source.component
    ensures Apart(p, q)
  {
    match (f.source, g.source)
    case (AtValue(a), AtValue(b)) =>
    case (AtValue(a), InBlock(c, _, _)) => BelowBlock(c, q, a);
    case (InBlock(c, _, _), AtValue(b)) => BelowBlock(c, p, b);
    case (InBlock(c, _, _), InBlock(d, _, _)) =>
  }

  /** No place of a field lies in another block of component `c`. */
  lemma OtherBlockApart(f: Field, p: KeyPath, c: string, name: string)
    requires PlaceOf(f, p) && name != BLOCK
    requires f.source.AtValue? ==> Apart(p, AdditionalPath(c))
    ensures Apart(p, [c, ADDITIONAL, name])
  {
    var q := [c, ADDITIONAL, name];
    if f.source.AtValue? {
      ApartBelow(p, [], AdditionalPath(c), [name]);
      assert p + [] == p && AdditionalPath(c) + [name] == q;
    } else {
      var d := f.source.component;
      assert Apart([BLOCK], [name]);
      assert Apart([ADDITIONAL, BLOCK], [ADDITIONAL, name]) by {
        assert [ADDITIONAL, BLOCK][1..] == [BLOCK] && [ADDITIONAL, name][1..] == [name];
      }
      assert BlockPath(d)[1..] == [ADDITIONAL, BLOCK] && q[1..] == [ADDITIONAL, name];
      assert Apart(BlockPath(d), q);
      ApartBelow(BlockPath(d), p[3..], q, []);
      assert BlockPath(d) + p[3..] == p && q + [] == q;
    }
  }

  /** A block reads back as it was written, and as empty where it was removed. */
  lemma BlockReads(tx: Text, t: Tree, c: string, json: bool, b: Tree)
    requires Faithful(tx)
    requires if b == map[] then Get(t, BlockPath(c)) == None else Get(t, TextPath(c, json)) == Some(TextOf(tx, json, b))
    ensures OwnBlock(tx, t, c) == b
  {
    GetBelow(t, BlockPath(c), "config");
    assert tx.render(json, b) != "";
    assert b != map[] ==> TextIn(Get(t, BlockPath(c))) == tx.render(json, b);
  }

  /** The block a change was made in reads back with all its changes. */
  lemma BlockAfter(tx: Text, job: Job, id: string)
    requires Faithful(tx) && Done(tx, job) && id in job.changes && job.fields[id].source.InBlock?
    ensures var c := job.fields[id].source.component;
      c in job.edits && OwnBlock(tx, Result(job), c) == EditAll(OwnBlock(tx, job.values, c), job.edits[c])
  {
    var f := job.fields[id];
    var c, json := f.source.component, f.source.json;
    assert Planned(tx, job.values, f, job.changes[id], job.plan, job.edits);
    var b := EditAll(OwnBlock(tx, job.values, c), job.edits[c]);
    if b == map[] {
      EditHolds(tx, job, (BlockPath(c), Null));
    } else {
      EditHolds(tx, job, (TextPath(c, json), TextOf(tx, json, b)));
    }
    BlockReads(tx, Result(job), c, json, b);
  }

  /** No change is made at a field's place or in its block. */
  predicate Untouched(job: Job, id: string)
    requires id in job.fields
  {
    id !in job.changes &&
    (job.fields[id].source.InBlock? ==>
      forall other | other in job.changes :: !InComponent(job.fields, other, job.fields[id].source.component))
  }

  lemma PlaceUnchanged(tx: Text, job: Job, id: string, q: KeyPath)
    requires Clear(job.fields) && Done(tx, job)
    requires id in job.fields && PlaceOf(job.fields[id], q) && Untouched(job, id)
    ensures Get(Result(job), q) == Get(job.values, q)
  {
    forall other, p: KeyPath | other in job.changes && PlaceOf(job.fields[other], p)
      ensures Apart(p, q)
    {
      assert Separate(job.fields[other], job.fields[id]);
      PlacesApart(job.fields[other], job.fields[id], p, q);
    }
    ElsewhereUnchanged(tx, job, q);
  }

  /** No other block of a component with a field is touched. */
  lemma OtherPlaceUnchanged(tx: Text, job: Job, id: string, name: string, q: KeyPath)
    requires Clear(job.fields) && Done(tx, job)
    requires id in job.fields && job.fields[id].source.InBlock? && name != BLOCK
    requires q == [job.fields[id].source.component, ADDITIONAL, name]
    ensures Get(Result(job), q) == Get(job.values, q)
  {
    var c := job.fields[id].source.component;
    forall other, p: KeyPath | other in job.changes && PlaceOf(job.fields[other], p)
      ensures Apart(p, q)
    {
      assert other != id ==> Separate(job.fields[other], job.fields[id]);
      OtherBlockApart(job.fields[other], p, c, name);
    }
    ElsewhereUnchanged(tx, job, q);
  }

  lemma OtherBlockUnchanged(tx: Text, job: Job, id: string, c: string, name: string)
    requires Clear(job.fields) && Done(tx, job) && name != BLOCK
    requires id in job.fields && job.fields[id].source.InBlock? && job.fields[id].source.component == c
    ensures BlockOf(tx, Result(job), c, name) == BlockOf(tx, job.values, c, name)
  {
    OtherPlaceUnchanged(tx, job, id, name, [c, ADDITIONAL, name]);
  }

  lemma ElsewhereStays(tx: Text, job: Job, id: string, c: string, key: KeyPath)
    requires Clear(job.fields) && Done(tx, job)
    requires id in job.fields && job.fields[id].source.InBlock? && job.fields[id].source.component == c
    ensures SetterOf(tx, Result(job), c, key) == SetterOf(tx, job.values, c, key)
  {
    forall name | name != BLOCK
      ensures BlockOf(tx, Result(job), c, name) == BlockOf(tx, job.values, c, name)
    {
      OtherBlockUnchanged(tx, job, id, c, name);
    }
    SameSetter(tx, Result(job), job.values, c, key);
  }

  lemma SameSetter(tx: Text, a: Tree, b: Tree, c: string, key: KeyPath)
    requires forall name | name != BLOCK :: BlockOf(tx, a, c, name) == BlockOf(tx, b, c, name)
    ensures SetterOf(tx, a, c, key) == SetterOf(tx, b, c, key)
  {
    assert forall name :: Sets(tx, a, c, key, name) <==> Sets(tx, b, c, key, name);
    if SetElsewhere(tx, b, c, key) {
      SomeIsFirst(tx, b, c, key);
      var name :| FirstToSet(tx, b, c, key, name);
      assert FirstToSet(tx, a, c, key, name);
      SetterIs(tx, a, c, key, name);
      SetterIs(tx, b, c, key, name);
    }
  }

  /** What a field shows after it was changed to `v`. */
  function Expected(tx: Text, f: Field, v: Value): Reading {
    if v.Null? || (f.source.InBlock? && LikeDefault(tx, f, v)) then Shown(f.default, true)
    else Shown(Some(v), f.source.AtValue? && LikeDefault(tx, f, v))
  }

  /** What a block field shows, from what decides it. */
  lemma ReadsFrom(tx: Text, values: Tree, f: Field, own: Tree, setter: Option<(string, Value)>)
    requires f.source.InBlock? && OwnBlock(tx, values, f.source.component) == own
    requires setter == SetterOf(tx, values, f.source.component, f.source.key)
    ensures ReadingOf(tx, values, f) ==
      if setter.Some? then Elsewhere(setter.value.0, setter.value.1)
      else if Get(own, f.source.key).None? then Shown(f.default, true)
      else Shown(Get(own, f.source.key), false)
  {
  }

  lemma KeyInBlock(tx: Text, job: Job, id: string, c: string)
    requires Done(tx, job) && id in job.changes && InComponent(job.fields, id, c) && c in job.edits
    ensures Get(EditAll(OwnBlock(tx, job.values, c), job.edits[c]), job.fields[id].source.key) ==
      Kept(Normal(tx, job.fields[id], job.changes[id]))
  {
    var f := job.fields[id];
    var e: Entry := (f.source.key, Normal(tx, f, job.changes[id]));
    assert e in job.edits[c];
    EditedKeys(OwnBlock(tx, job.values, c), job.edits[c]);
  }

  /** The printed value is that of the default. */
  predicate PrintsLikeDefault(tx: Text, f: Field, v: Value) {
    match f.default
    case None => false
    case Some(d) => tx.sprint(d) == tx.sprint(v)
  }

  /** What a changed field shows and where its value stands: a Helm value shows the new one, marked as the
      default exactly when it prints like it; a key of a block shows it and stands in the block, unless it was
      reset or prints like the default, and then the key is gone. */
  ghost predicate ShowsChange(tx: Text, values: Tree, f: Field, v: Value) {
    var shown := ReadingOf(tx, values, f);
    match f.source
    case AtValue(path) =>
      if v.Null? then shown == Shown(f.default, true) && Get(values, path) == None
      else shown == Shown(Some(v), PrintsLikeDefault(tx, f, v)) && Get(values, path) == Some(v)
    case InBlock(c, key, _) =>
      if v.Null? || PrintsLikeDefault(tx, f, v) then
        shown == Shown(f.default, true) && Get(OwnBlock(tx, values, c), key) == None
      else shown == Shown(Some(v), false) && Get(OwnBlock(tx, values, c), key) == Some(v)
  }

  /** A changed field shows its new value, or the default when it was reset to it. */
  lemma ChangedReadsBack(tx: Text, job: Job, id: string)
    requires Faithful(tx) && Clear(job.fields) && Done(tx, job)
    requires id in job.changes && ReadingOf(tx, job.values, job.fields[id]).Shown?
    ensures ReadingOf(tx, Result(job), job.fields[id]) == Expected(tx, job.fields[id], job.changes[id])
    ensures ShowsChange(tx, Result(job), job.fields[id], job.changes[id])
  {
    var f, v := job.fields[id], job.changes[id];
    match f.source
    case AtValue(path) =>
      ChangedValueReadsBack(tx, job, id);
      assert Planned(tx, job.values, f, v, job.plan, job.edits);
      EditHolds(tx, job, (path, v));
    case InBlock(c, key, _) =>
      ChangedKeyReadsBack(tx, job, id, c);
      BlockAfter(tx, job, id);
      KeyInBlock(tx, job, id, c);
  }

  lemma ChangedValueReadsBack(tx: Text, job: Job, id: string)
    requires Done(tx, job) && id in job.changes && job.fields[id].source.AtValue?
    ensures ReadingOf(tx, Result(job), job.fields[id]) == Expected(tx, job.fields[id], job.changes[id])
  {
    var f, v := job.fields[id], job.changes[id];
    assert Planned(tx, job.values, f, v, job.plan, job.edits);
    EditHolds(tx, job, (f.source.path, v));
  }

  lemma ChangedKeyReadsBack(tx: Text, job: Job, id: string, c: string)
    requires Faithful(tx) && Clear(job.fields) && Done(tx, job)
    requires id in job.changes && InComponent(job.fields, id, c)
    requires ReadingOf(tx, job.values, job.fields[id]).Shown?
    ensures ReadingOf(tx, Result(job), job.fields[id]) == Expected(tx, job.fields[id], job.changes[id])
  {
    var f := job.fields[id];
    BlockAfter(tx, job, id);
    ElsewhereStays(tx, job, id, c, f.source.key);
    KeyInBlock(tx, job, id, c);
    ReadsFrom(tx, job.values, f, OwnBlock(tx, job.values, c), SetterOf(tx, job.values, c, f.source.key));
    ReadsFrom(tx, Result(job), f, EditAll(OwnBlock(tx, job.values, c), job.edits[c]), None);
  }

  /** The case in which a change is accepted and not shown: a block with an empty name sets the key. */
  lemma UnnamedBlockWins(tx: Text, job: Job, id: string, found: Value)
    requires Clear(job.fields) && Done(tx, job) && id in job.changes && job.fields[id].source.InBlock?
    requires ReadingOf(tx, job.values, job.fields[id]) == Elsewhere("", found)
    ensures ReadingOf(tx, Result(job), job.fields[id]) == Elsewhere("", found)
  {
    var f := job.fields[id];
    ElsewhereStays(tx, job, id, f.source.component, f.source.key);
  }

  lemma KeyBesideChanges(tx: Text, job: Job, id: string, c: string)
    requires Clear(job.fields) && Done(tx, job) && c in job.edits
    requires InComponent(job.fields, id, c) && id !in job.changes
    ensures Get(EditAll(OwnBlock(tx, job.values, c), job.edits[c]), job.fields[id].source.key) ==
      Get(OwnBlock(tx, job.values, c), job.fields[id].source.key)
  {
    var key := job.fields[id].source.key;
    forall e | e in job.edits[c]
      ensures Apart(e.0, key)
    {
      assert EditFrom(job.fields, job.changes, c, e.0);
      var other :| other in job.changes && InComponent(job.fields, other, c) && job.fields[other].source.key == e.0;
      assert Separate(job.fields[other], job.fields[id]);
    }
    UneditedKeys(OwnBlock(tx, job.values, c), job.edits[c], key);
  }

  /** Every other field shows what it showed before. */
  lemma OthersReadTheSame(tx: Text, job: Job, id: string)
    requires Faithful(tx) && Clear(job.fields) && Done(tx, job)
    requires id in job.fields && id !in job.changes
    ensures ReadingOf(tx, Result(job), job.fields[id]) == ReadingOf(tx, job.values, job.fields[id])
  {
    if job.fields[id].source.AtValue? {
      PlaceUnchanged(tx, job, id, job.fields[id].source.path);
    } else {
      OtherKeyReadsTheSame(tx, job, id, job.fields[id].source.component);
    }
  }

  lemma OtherKeyReadsTheSame(tx: Text, job: Job, id: string, c: string)
    requires Faithful(tx) && Clear(job.fields) && Done(tx, job)
    requires InComponent(job.fields, id, c) && id !in job.changes
    ensures ReadingOf(tx, Result(job), job.fields[id]) == ReadingOf(tx, job.values, job.fields[id])
  {
    var f := job.fields[id];
    var before := OwnBlock(tx, job.values, c);
    ElsewhereStays(tx, job, id, c, f.source.key);
    var setter := SetterOf(tx, job.values, c, f.source.key);
    ReadsFrom(tx, job.values, f, before, setter);
    if Untouched(job, id) {
      PlaceUnchanged(tx, job, id, BlockPath(c));
      ReadsFrom(tx, Result(job), f, before, setter);
    } else {
      var other :| other in job.changes && InComponent(job.fields, other, c);
      BlockAfter(tx, job, other);
      KeyBesideChanges(tx, job, id, c);
      ReadsFrom(tx, Result(job), f, EditAll(before, job.edits[c]), setter);
    }
  }

  // ----- On and off again -----

  /** A list whose places all overlap has no more than one entry. */
  lemma OnlyOne(es: seq<Entry>, e: Entry)
    requires PairwiseApart(es) && e in es
    requires forall d | d in es :: !Apart(d.0, e.0) && !Apart(e.0, d.0)
    ensures es == [e]
  {
    var i :| 0 <= i < |es| && es[i] == e;
    var j := if i == 0 then |es| - 1 else 0;
    assert es[j] in es;
    assert j == i;
  }

  lemma EditOne(b: Tree, e: Entry)
    ensures EditAll(b, [e]) == Edit(b, e)
  {
    assert [e][..0] == [];
  }

  /** Writing below a place where nothing stands is writing a mapping there. */
  lemma {:induction false} SetBelow(m: Tree, p: KeyPath, k: string, v: Value)
    requires Get(m, p) == None
    ensures Set(m, p + [k], v) == Set(m, p, Map(map[k := v]))
    decreases |p|
  {
    assert (p + [k])[1..] == p[1..] + [k];
    if |p| == 1 {
      assert SubTree(m, p[0]) == map[];
      assert Set(map[], [k], v) == map[k := v];
    } else {
      SetBelow(SubTree(m, p[0]), p[1..], k, v);
    }
  }

  lemma {:induction false} NotApartBelow(p: Path, s: Path)
    ensures !Apart(p, p + s) && !Apart(p + s, p)
    decreases |p|
  {
    if p != [] {
      NotApartBelow(p[1..], s);
      assert (p + s)[1..] == p[1..] + s;
    }
  }

  lemma BlockPlacesOverlap(c: string, p: KeyPath, q: KeyPath)
    requires p == BlockPath(c) || p == BlockPath(c) + ["config"]
    requires q == BlockPath(c) || q == BlockPath(c) + ["config"]
    ensures !Apart(p, q) && !Apart(q, p)
  {
    NotApartBelow(BlockPath(c), ["config"]);
    ApartFromItself(p);
    ApartFromItself(q);
  }

  lemma KeyOfOne(fields: Fields, changes: Changes, id: string, c: string, key: KeyPath)
    requires EditFrom(fields, changes, c, key) && InComponent(fields, id, c) && changes.Keys == {id}
    ensures key == fields[id].source.key
  {
    var from :| from in changes && InComponent(fields, from, c) && fields[from].source.key == key;
    assert from == id;
  }

  /** A job that changes one block field edits one key of the block. */
  lemma OneKeyEdited(tx: Text, job: Job, id: string, c: string)
    requires Done(tx, job) && InComponent(job.fields, id, c) && job.changes.Keys == {id} && c in job.edits
    ensures job.edits[c] == [(job.fields[id].source.key, Normal(tx, job.fields[id], job.changes[id]))]
  {
    var e: Entry := (job.fields[id].source.key, Normal(tx, job.fields[id], job.changes[id]));
    assert e in job.edits[c];
    forall d | d in job.edits[c]
      ensures !Apart(d.0, e.0) && !Apart(e.0, d.0)
    {
      assert EditFrom(job.fields, job.changes, c, d.0);
      KeyOfOne(job.fields, job.changes, id, c, d.0);
      ApartFromItself(e.0);
    }
    OnlyOne(job.edits[c], e);
  }

  /** And it makes one edit of the configuration. */
  lemma OnePlaceEdited(tx: Text, job: Job, id: string, c: string, e: Entry)
    requires Done(tx, job) && InComponent(job.fields, id, c) && job.changes.Keys == {id}
    requires e in AllEdits(job.plan) && (e.0 == BlockPath(c) || e.0 == TextPath(c, job.fields[id].source.json))
    ensures Result(job) == Edit(job.values, e)
  {
    forall d | d in AllEdits(job.plan)
      ensures !Apart(d.0, e.0) && !Apart(e.0, d.0)
    {
      assert PlaceFrom(job.fields, job.changes, d.0);
      var from :| from in job.changes && from in job.fields && PlaceOf(job.fields[from], d.0);
      assert from == id;
      BlockPlacesOverlap(c, d.0, e.0);
    }
    OnlyOne(AllEdits(job.plan), e);
    EditOne(job.values, e);
    AppliedIsEditAll(job.values, job.plan);
  }

  /** Switched on where there is no block: one text is written. */
  lemma SwitchedOn(tx: Text, job: Job, id: string, c: string)
    requires Done(tx, job) && InComponent(job.fields, id, c) && job.changes.Keys == {id}
    requires Get(job.values, BlockPath(c)) == None && !Normal(tx, job.fields[id], job.changes[id]).Null?
    ensures var f, v := job.fields[id], job.changes[id]; var b := Set(map[], f.source.key, v);
      Result(job) == Set(job.values, TextPath(c, f.source.json), TextOf(tx, f.source.json, b))
  {
    var f, v := job.fields[id], job.changes[id];
    var b := Set(map[], f.source.key, v);
    assert Planned(tx, job.values, f, v, job.plan, job.edits);
    OneKeyEdited(tx, job, id, c);
    EditOne(map[], (f.source.key, v));
    assert OwnBlock(tx, job.values, c) == map[];
    assert f.source.key[0] in b;
    OnePlaceEdited(tx, job, id, c, (TextPath(c, f.source.json), TextOf(tx, f.source.json, b)));
  }

  /** Switched off where the block holds that setting alone: the block is removed. */
  lemma SwitchedOff(tx: Text, job: Job, id: string, c: string, v: Value)
    requires Done(tx, job) && InComponent(job.fields, id, c) && job.changes.Keys == {id}
    requires OwnBlock(tx, job.values, c) == Set(map[], job.fields[id].source.key, v)
    requires Normal(tx, job.fields[id], job.changes[id]).Null?
    ensures Result(job) == Delete(job.values, BlockPath(c))
  {
    var key := job.fields[id].source.key;
    assert Planned(tx, job.values, job.fields[id], job.changes[id], job.plan, job.edits);
    OneKeyEdited(tx, job, id, c);
    EditOne(Set(map[], key, v), (key, Null));
    DeleteNothing(key);
    DeleteUndoesSet(map[], key, v);
    OnePlaceEdited(tx, job, id, c, (BlockPath(c), Null));
  }

  /** Switching a setting on and off again leaves no block behind, and the configuration as it was but for
      mappings that were empty on the way. */
  lemma OnAndOffLeavesNothing(tx: Text, on: Job, off: Job, id: string, c: string)
    requires Faithful(tx) && Done(tx, on) && Done(tx, off)
    requires off.values == Result(on) && off.fields == on.fields
    requires InComponent(on.fields, id, c) && on.changes.Keys == {id} && off.changes.Keys == {id}
    requires !Normal(tx, on.fields[id], on.changes[id]).Null? && Normal(tx, on.fields[id], off.changes[id]).Null?
    requires Get(on.values, BlockPath(c)) == None
    ensures Get(Result(off), BlockPath(c)) == None
    ensures Result(off) == Delete(on.values, BlockPath(c)) <==> !LeafOnTheWay(on.values, BlockPath(c))
  {
    var f, v := on.fields[id], on.changes[id];
    var json, b := f.source.json, Set(map[], f.source.key, v);
    var text := TextOf(tx, json, b);
    SwitchedOn(tx, on, id, c);
    GetSet(on.values, TextPath(c, json), text);
    assert f.source.key[0] in b;
    BlockReads(tx, off.values, c, json, b);
    SwitchedOff(tx, off, id, c, v);
    GetDelete(off.values, BlockPath(c));
    if json {
      DeleteUndoesSet(on.values, BlockPath(c), text);
    } else {
      SetBelow(on.values, BlockPath(c), "config", text);
      DeleteUndoesSet(on.values, BlockPath(c), Map(map["config" := text]));
    }
  }
}
