// Turning the changes of the settings page into a plan of edits.
module TaskPlan {
  import opened Values
  import opened Leaves
  import opened Edits
  import opened TaskFields
  import opened Tasks

  ghost predicate PathsApart(ps: seq<KeyPath>) {
    forall i, j | 0 <= i < j < |ps| :: Apart(ps[i], ps[j])
  }

  /** No place of the plan lies on the way to another. */
  ghost predicate PlacesOk(plan: Plan) {
    && PairwiseApart(plan.writes) && PathsApart(plan.removals)
    && forall i, j | 0 <= i < |plan.writes| && 0 <= j < |plan.removals| :: Apart(plan.writes[i].0, plan.removals[j])
  }

  lemma PlacesOkMeans(plan: Plan)
    requires PlacesOk(plan)
    ensures PairwiseApart(AllEdits(plan))
  {
    var all, n := AllEdits(plan), |plan.writes|;
    assert forall i | 0 <= i < |all| :: all[i].0 == if i < n then plan.writes[i].0 else plan.removals[i - n];
    forall i, j | 0 <= i < j < |all|
      ensures Apart(all[i].0, all[j].0)
    {
      if i < n && j >= n {
        assert Apart(plan.writes[i].0, plan.removals[j - n]);
      } else if i >= n {
        assert Apart(plan.removals[i - n], plan.removals[j - n]);
      }
    }
  }

  /** `e` is one of the plan's edits. */
  predicate Has(plan: Plan, e: Entry) {
    if e.1.Null? then e.0 in plan.removals else e in plan.writes
  }

  lemma HasIsEdit(plan: Plan, e: Entry)
    requires NoNulls(plan.writes)
    ensures Has(plan, e) <==> e in AllEdits(plan)
  {
    var all, n := AllEdits(plan), |plan.writes|;
    if Has(plan, e) {
      if e.1.Null? {
        var i :| 0 <= i < |plan.removals| && plan.removals[i] == e.0;
        assert all[n + i] == e;
      } else {
        var i :| 0 <= i < n && plan.writes[i] == e;
        assert all[i] == e;
      }
    }
    if e in all {
      var i :| 0 <= i < |all| && all[i] == e;
      assert i >= n ==> all[i] == (plan.removals[i - n], Null);
    }
  }

  /** The plan with one more edit. */
  function With(plan: Plan, e: Entry): Plan {
    if e.1.Null? then plan.(removals := plan.removals + [e.0]) else plan.(writes := plan.writes + [e])
  }

  /** A place apart from all places of the plan. */
  ghost predicate Free(plan: Plan, p: KeyPath) {
    forall d: Entry | Has(plan, d) :: Apart(d.0, p)
  }

  lemma AddEdit(plan: Plan, e: Entry)
    requires NoNulls(plan.writes) && PlacesOk(plan) && Free(plan, e.0)
    ensures NoNulls(With(plan, e).writes) && PlacesOk(With(plan, e))
    ensures forall d: Entry :: Has(With(plan, e), d) <==> Has(plan, d) || d == e
  {
    forall i | 0 <= i < |plan.writes|
      ensures Apart(plan.writes[i].0, e.0)
    {
      assert Has(plan, plan.writes[i]);
    }
    forall j | 0 <= j < |plan.removals|
      ensures Apart(plan.removals[j], e.0) && Apart(e.0, plan.removals[j])
    {
      assert Has(plan, (plan.removals[j], Null));
      ApartBothWays(plan.removals[j], e.0);
    }
  }

  /** An edit that changed Helm values ask for, among the fields `ids`. */
  ghost predicate OfValue(fields: Fields, changes: Changes, ids: set<string>, e: Entry) {
    exists id :: id in ids && id in changes && id in fields && fields[id].source == AtValue(e.0) && changes[id] == e.1
  }

  ghost predicate Refused(tx: Text, values: Tree, fields: Fields, valid: (Field, Value) -> bool, id: string, v: Value) {
    || id !in fields
    || fields[id].locked
    || (!v.Null? && !valid(fields[id], v))
    || (fields[id].source.InBlock? && NamedSetter(tx, values, fields[id].source.component, fields[id].source.key))
  }

  /** Another block sets the key, and the source can tell so by its name: an empty one reads like none. */
  ghost predicate NamedSetter(tx: Text, values: Tree, component: string, key: KeyPath) {
    var setter := SetterOf(tx, values, component, key);
    setter.Some? && setter.value.0 != ""
  }

  /** The plan holds the edits of the Helm values among the changes `ids`, and nothing else. */
  ghost predicate ValuesGathered(fields: Fields, changes: Changes, ids: set<string>, plan: Plan) {
    && NoNulls(plan.writes) && PlacesOk(plan)
    && forall e: Entry :: Has(plan, e) <==> OfValue(fields, changes, ids, e)
  }

  lemma GatherValue(fields: Fields, changes: Changes, ids: set<string>, plan: Plan, id: string)
    requires Clear(fields) && ValuesGathered(fields, changes, ids, plan)
    requires id in changes && id in fields && id !in ids && fields[id].source.AtValue?
    ensures ValuesGathered(fields, changes, ids + {id}, With(plan, (fields[id].source.path, changes[id])))
  {
    var e: Entry := (fields[id].source.path, changes[id]);
    forall d: Entry | Has(plan, d)
      ensures Apart(d.0, e.0)
    {
      var other :| other in ids && other in changes && other in fields && fields[other].source == AtValue(d.0) &&
        changes[other] == d.1;
      assert Separate(fields[other], fields[id]);
    }
    AddEdit(plan, e);
    forall d: Entry
      ensures OfValue(fields, changes, ids + {id}, d) <==> OfValue(fields, changes, ids, d) || d == e
    {
      OfOneMore(fields, changes, ids, id, d);
    }
  }

  lemma OfOneMore(fields: Fields, changes: Changes, ids: set<string>, id: string, d: Entry)
    requires id in changes && id in fields
    ensures OfValue(fields, changes, ids + {id}, d) <==>
      OfValue(fields, changes, ids, d) || (fields[id].source == AtValue(d.0) && changes[id] == d.1)
  {
    if OfValue(fields, changes, ids, d) {
      var other :| other in ids && other in changes && other in fields && fields[other].source == AtValue(d.0) &&
        changes[other] == d.1;
      assert other in ids + {id};
    }
    assert id in ids + {id};
  }

  lemma SkipValue(fields: Fields, changes: Changes, ids: set<string>, plan: Plan, id: string)
    requires ValuesGathered(fields, changes, ids, plan)
    requires id in changes && id in fields && fields[id].source.InBlock?
    ensures ValuesGathered(fields, changes, ids + {id}, plan)
  {
    forall d: Entry
      ensures OfValue(fields, changes, ids + {id}, d) <==> OfValue(fields, changes, ids, d)
    {
      OfOneMore(fields, changes, ids, id, d);
    }
  }

  // ----- The blocks -----

  /** The changes `ids` of component `c` are made in the order `es`. */
  ghost predicate KeysGathered(tx: Text, fields: Fields, changes: Changes, ids: set<string>, c: string,
                               es: seq<Entry>)
  {
    && PairwiseApart(es)
    && forall e: Entry :: e in es <==> OfKey(tx, fields, changes, ids, c, e)
  }

  ghost predicate OfKey(tx: Text, fields: Fields, changes: Changes, ids: set<string>, c: string, e: Entry) {
    exists id :: id in ids && id in changes && InComponent(fields, id, c) && fields[id].source.key == e.0 &&
      Normal(tx, fields[id], changes[id]) == e.1
  }

  ghost predicate Touched(fields: Fields, changes: Changes, ids: set<string>, c: string) {
    exists id :: id in ids && id in changes && InComponent(fields, id, c)
  }

  ghost predicate BlocksGathered(tx: Text, values: Tree, fields: Fields, changes: Changes, ids: set<string>,
                                 blocks: map<string, Tree>, edits: map<string, seq<Entry>>) {
    && blocks.Keys == edits.Keys
    && (forall c :: c in edits <==> Touched(fields, changes, ids, c))
    && forall c | c in edits :: BlockGathered(tx, values, fields, changes, ids, c, blocks[c], edits[c])
  }

  ghost predicate BlockGathered(tx: Text, values: Tree, fields: Fields, changes: Changes, ids: set<string>,
                                c: string, b: Tree, es: seq<Entry>) {
    KeysGathered(tx, fields, changes, ids, c, es) && b == EditAll(OwnBlock(tx, values, c), es)
  }

  lemma GatherKey(tx: Text, fields: Fields, changes: Changes, ids: set<string>, c: string, es: seq<Entry>, id: string)
    requires Clear(fields) && KeysGathered(tx, fields, changes, ids, c, es)
    requires id in changes && id !in ids && InComponent(fields, id, c)
    ensures KeysGathered(tx, fields, changes, ids + {id}, c,
      es + [(fields[id].source.key, Normal(tx, fields[id], changes[id]))])
  {
    var e: Entry := (fields[id].source.key, Normal(tx, fields[id], changes[id]));
    forall i | 0 <= i < |es|
      ensures Apart(es[i].0, e.0)
    {
      assert es[i] in es && OfKey(tx, fields, changes, ids, c, es[i]);
      var other :| other in ids && other in changes && InComponent(fields, other, c) &&
        fields[other].source.key == es[i].0;
      assert Separate(fields[other], fields[id]);
    }
    forall d: Entry
      ensures d in es + [e] <==> OfKey(tx, fields, changes, ids + {id}, c, d)
    {
      KeyOneMore(tx, fields, changes, ids, id, c, d);
    }
  }

  lemma KeyOneMore(tx: Text, fields: Fields, changes: Changes, ids: set<string>, id: string, c: string, d: Entry)
    requires id in changes && id in fields
    ensures OfKey(tx, fields, changes, ids + {id}, c, d) <==>
      (OfKey(tx, fields, changes, ids, c, d) ||
       (InComponent(fields, id, c) && fields[id].source.key == d.0 && Normal(tx, fields[id], changes[id]) == d.1))
  {
    if OfKey(tx, fields, changes, ids, c, d) {
      var other :| other in ids && other in changes && InComponent(fields, other, c) &&
        fields[other].source.key == d.0 &&
        Normal(tx, fields[other], changes[other]) == d.1;
      assert other in ids + {id};
    }
    assert id in ids + {id};
  }

  lemma TouchedOneMore(fields: Fields, changes: Changes, ids: set<string>, id: string, c: string)
    requires id in changes && id in fields
    ensures Touched(fields, changes, ids + {id}, c) <==> Touched(fields, changes, ids, c) || InComponent(fields, id, c)
  {
    if Touched(fields, changes, ids, c) {
      var other :| other in ids && other in changes && InComponent(fields, other, c);
      assert other in ids + {id};
    }
    assert id in ids + {id};
  }

  /** A component that a change does not concern. */
  lemma SkipKeys(tx: Text, fields: Fields, changes: Changes, ids: set<string>, id: string, c: string, es: seq<Entry>)
    requires KeysGathered(tx, fields, changes, ids, c, es)
    requires id in changes && id in fields && !InComponent(fields, id, c)
    ensures KeysGathered(tx, fields, changes, ids + {id}, c, es)
  {
    forall d: Entry
      ensures OfKey(tx, fields, changes, ids + {id}, c, d) <==> OfKey(tx, fields, changes, ids, c, d)
    {
      KeyOneMore(tx, fields, changes, ids, id, c, d);
    }
  }

  function OwnOr<T>(m: map<string, T>, c: string, otherwise: T): T {
    if c in m then m[c] else otherwise
  }

  lemma GatherOwn(tx: Text, values: Tree, fields: Fields, changes: Changes, ids: set<string>,
                  c: string, b: Tree, es: seq<Entry>, id: string, e: Entry)
    requires Clear(fields) && BlockGathered(tx, values, fields, changes, ids, c, b, es)
    requires id in changes && id !in ids && InComponent(fields, id, c)
    requires e == (fields[id].source.key, Normal(tx, fields[id], changes[id]))
    ensures BlockGathered(tx, values, fields, changes, ids + {id}, c, Edit(b, e), es + [e])
  {
    GatherKey(tx, fields, changes, ids, c, es, id);
    EditSnoc(OwnBlock(tx, values, c), es, e);
  }

  /** The block of a component as gathered so far; as it stands where no change concerned it. */
  lemma StartOrGoOn(tx: Text, values: Tree, fields: Fields, changes: Changes, ids: set<string>,
                    blocks: map<string, Tree>, edits: map<string, seq<Entry>>, c: string)
    requires BlocksGathered(tx, values, fields, changes, ids, blocks, edits)
    ensures
      var own, es := OwnOr(blocks, c, OwnBlock(tx, values, c)), OwnOr(edits, c, []);
      BlockGathered(tx, values, fields, changes, ids, c, own, es)
  {
    if c !in edits {
      forall d: Entry
        ensures !OfKey(tx, fields, changes, ids, c, d)
      {
        assert !Touched(fields, changes, ids, c);
      }
    }
  }

  lemma GatherBlock(tx: Text, values: Tree, fields: Fields, changes: Changes, ids: set<string>,
                    blocks: map<string, Tree>, edits: map<string, seq<Entry>>, id: string, c: string, e: Entry)
    requires Clear(fields) && BlocksGathered(tx, values, fields, changes, ids, blocks, edits)
    requires id in changes && id !in ids && InComponent(fields, id, c)
    requires e == (fields[id].source.key, Normal(tx, fields[id], changes[id]))
    ensures BlocksGathered(tx, values, fields, changes, ids + {id},
                           blocks[c := Edit(OwnOr(blocks, c, OwnBlock(tx, values, c)), e)],
                           edits[c := OwnOr(edits, c, []) + [e]])
  {
    StartOrGoOn(tx, values, fields, changes, ids, blocks, edits, c);
    var own, es := OwnOr(blocks, c, OwnBlock(tx, values, c)), OwnOr(edits, c, []);
    GatherOwn(tx, values, fields, changes, ids, c, own, es, id, e);
    OthersGathered(tx, values, fields, changes, ids, blocks, edits, id, c);
    OneBlockMore(tx, values, fields, changes, ids + {id}, blocks, edits, c, Edit(own, e), es + [e]);
  }

  lemma OneBlockMore(tx: Text, values: Tree, fields: Fields, changes: Changes, ids: set<string>,
                     blocks: map<string, Tree>, edits: map<string, seq<Entry>>, c: string, b: Tree, es: seq<Entry>)
    requires blocks.Keys == edits.Keys
    requires forall d :: Touched(fields, changes, ids, d) <==> d in edits || d == c
    requires forall d | d in edits && d != c :: BlockGathered(tx, values, fields, changes, ids, d, blocks[d], edits[d])
    requires BlockGathered(tx, values, fields, changes, ids, c, b, es)
    ensures BlocksGathered(tx, values, fields, changes, ids, blocks[c := b], edits[c := es])
  {
  }

  lemma OthersGathered(tx: Text, values: Tree, fields: Fields, changes: Changes, ids: set<string>,
                       blocks: map<string, Tree>, edits: map<string, seq<Entry>>, id: string, c: string)
    requires BlocksGathered(tx, values, fields, changes, ids, blocks, edits)
    requires id in changes && InComponent(fields, id, c)
    ensures forall d :: Touched(fields, changes, ids + {id}, d) <==> d in edits || d == c
    ensures forall d | d in edits && d != c ::
      BlockGathered(tx, values, fields, changes, ids + {id}, d, blocks[d], edits[d])
  {
    forall d
      ensures Touched(fields, changes, ids + {id}, d) <==> Touched(fields, changes, ids, d) || d == c
    {
      TouchedOneMore(fields, changes, ids, id, d);
    }
    forall d | d in edits && d != c
      ensures BlockGathered(tx, values, fields, changes, ids + {id}, d, blocks[d], edits[d])
    {
      assert BlockGathered(tx, values, fields, changes, ids, d, blocks[d], edits[d]);
      SkipKeys(tx, fields, changes, ids, id, d, edits[d]);
    }
  }

  lemma EditSnoc(b: Tree, es: seq<Entry>, e: Entry)
    ensures EditAll(b, es + [e]) == Edit(EditAll(b, es), e)
  {
    assert (es + [e])[..|es + [e]| - 1] == es;
  }

  lemma SkipBlocks(tx: Text, values: Tree, fields: Fields, changes: Changes, ids: set<string>,
                   blocks: map<string, Tree>, edits: map<string, seq<Entry>>, id: string)
    requires BlocksGathered(tx, values, fields, changes, ids, blocks, edits)
    requires id in changes && id in fields && fields[id].source.AtValue?
    ensures BlocksGathered(tx, values, fields, changes, ids + {id}, blocks, edits)
  {
    forall d
      ensures Touched(fields, changes, ids + {id}, d) <==> Touched(fields, changes, ids, d)
      ensures d in edits ==> KeysGathered(tx, fields, changes, ids + {id}, d, edits[d])
    {
      TouchedOneMore(fields, changes, ids, id, d);
      if d in edits {
        SkipKeys(tx, fields, changes, ids, id, d, edits[d]);
      }
    }
  }

  /** The form of each component's text is that of its changed fields. */
  ghost predicate Forms(fields: Fields, changes: Changes, ids: set<string>, blocks: map<string, Tree>,
                        isJSON: map<string, bool>)
  {
    && isJSON.Keys == blocks.Keys
    && forall id | id in ids && id in changes && id in fields && fields[id].source.InBlock? ::
      fields[id].source.component in isJSON && isJSON[fields[id].source.component] == fields[id].source.json
  }

  lemma FormsKeep(fields: Fields, changes: Changes, ids: set<string>, blocks: map<string, Tree>,
                  isJSON: map<string, bool>,
                  id: string, c: string, b: Tree)
    requires Clear(fields) && Forms(fields, changes, ids, blocks, isJSON)
    requires id in changes && id !in ids && InComponent(fields, id, c)
    ensures Forms(fields, changes, ids + {id}, blocks[c := b], isJSON[c := fields[id].source.json])
  {
    forall other | other in ids && other in changes && InComponent(fields, other, c)
      ensures fields[other].source.json == fields[id].source.json
    {
      assert Separate(fields[other], fields[id]);
    }
  }

  /** Goes through the changes in any order. */
  method Gather(tx: Text, values: Tree, fields: Fields, changes: Changes, valid: (Field, Value) -> bool)
      returns (err: bool, plan: Plan, blocks: map<string, Tree>, isJSON: map<string, bool>,
               ghost edits: map<string, seq<Entry>>)
    requires Clear(fields)
    ensures err <==> exists id :: id in changes && Refused(tx, values, fields, valid, id, changes[id])
    ensures !err ==> ValuesGathered(fields, changes, changes.Keys, plan)
    ensures !err ==> BlocksGathered(tx, values, fields, changes, changes.Keys, blocks, edits)
    ensures !err ==> Forms(fields, changes, changes.Keys, blocks, isJSON)
  {
    err, plan, blocks, isJSON, edits := false, Plan([], []), map[], map[], map[];
    var todo := changes.Keys;
    ghost var done := {};
    while todo != {}
      invariant done == changes.Keys - todo && todo <= changes.Keys
      invariant forall id | id in done :: !Refused(tx, values, fields, valid, id, changes[id])
      invariant ValuesGathered(fields, changes, done, plan)
      invariant BlocksGathered(tx, values, fields, changes, done, blocks, edits)
      invariant Forms(fields, changes, done, blocks, isJSON)
      decreases todo
    {
      var id :| id in todo;
      var refused := Refuse(tx, values, fields, valid, id, changes[id]);
      if refused {
        return true, plan, blocks, isJSON, edits;
      }
      var f := fields[id];
      if f.source.AtValue? {
        GatherValue(fields, changes, done, plan, id);
        SkipBlocks(tx, values, fields, changes, done, blocks, edits, id);
        plan := With(plan, (f.source.path, changes[id]));
      } else {
        var c := f.source.component;
        var e: Entry := (f.source.key, Normal(tx, f, changes[id]));
        var b := Edit(OwnOr(blocks, c, OwnBlock(tx, values, c)), e);
        SkipValue(fields, changes, done, plan, id);
        GatherBlock(tx, values, fields, changes, done, blocks, edits, id, c, e);
        FormsKeep(fields, changes, done, blocks, isJSON, id, c, b);
        blocks, isJSON := blocks[c := b], isJSON[c := f.source.json];
        edits := edits[c := OwnOr(edits, c, []) + [e]];
      }
      todo, done := todo - {id}, done + {id};
    }
    assert done == changes.Keys;
  }

  method Refuse(tx: Text, values: Tree, fields: Fields, valid: (Field, Value) -> bool, id: string, v: Value)
      returns (refused: bool)
    ensures refused <==> Refused(tx, values, fields, valid, id, v)
  {
    if id !in fields || fields[id].locked || (!v.Null? && !valid(fields[id], v)) {
      return true;
    }
    refused := false;
    if fields[id].source.InBlock? {
      var setter := FindElsewhere(tx, values, fields[id].source.component, fields[id].source.key);
      refused := setter.Some? && setter.value.0 != "";
    }
  }

  // ----- One edit per block -----

  function BlockEdit(tx: Text, c: string, b: Tree, json: bool): Entry {
    if b == map[] then (BlockPath(c), Null) else (TextPath(c, json), TextOf(tx, json, b))
  }

  ghost predicate OfBlock(tx: Text, blocks: map<string, Tree>, isJSON: map<string, bool>, cs: set<string>, e: Entry) {
    exists c :: c in cs && c in blocks && c in isJSON && e == BlockEdit(tx, c, blocks[c], isJSON[c])
  }

  ghost predicate BlocksPlanned(tx: Text, fields: Fields, changes: Changes, blocks: map<string, Tree>,
                                isJSON: map<string, bool>,
                                cs: set<string>, plan: Plan) {
    && NoNulls(plan.writes) && PlacesOk(plan)
    && forall e: Entry :: Has(plan, e) <==>
      (OfValue(fields, changes, changes.Keys, e) || OfBlock(tx, blocks, isJSON, cs, e))
  }

  lemma BlockPlaces(tx: Text, c: string, b: Tree, json: bool)
    ensures var p := BlockEdit(tx, c, b, json).0; p == BlockPath(c) || p == BlockPath(c) + ["config"]
  {
  }

  lemma BlockPlaceFree(tx: Text, fields: Fields, changes: Changes, blocks: map<string, Tree>, isJSON: map<string, bool>,
                       cs: set<string>, plan: Plan, c: string, e: Entry)
    requires Clear(fields) && BlocksPlanned(tx, fields, changes, blocks, isJSON, cs, plan)
    requires c !in cs && c in blocks && c in isJSON && e == BlockEdit(tx, c, blocks[c], isJSON[c])
    requires Touched(fields, changes, changes.Keys, c)
    ensures Free(plan, e.0)
  {
    var id :| id in changes.Keys && id in changes && InComponent(fields, id, c);
    BlockPlaces(tx, c, blocks[c], isJSON[c]);
    forall d: Entry | Has(plan, d)
      ensures Apart(d.0, e.0)
    {
      if OfBlock(tx, blocks, isJSON, cs, d) {
        var other :| other in cs && other in blocks && other in isJSON &&
          d == BlockEdit(tx, other, blocks[other], isJSON[other]);
        BlockPlaces(tx, other, blocks[other], isJSON[other]);
        assert d.0[0] == other && e.0[0] == c;
      } else {
        assert OfValue(fields, changes, changes.Keys, d);
        var other :| other in changes && other in fields && fields[other].source == AtValue(d.0);
        assert Separate(fields[other], fields[id]);
        BelowBlock(c, e.0, d.0);
      }
    }
  }

  lemma PlanOneMore(tx: Text, fields: Fields, changes: Changes, blocks: map<string, Tree>, isJSON: map<string, bool>,
                    cs: set<string>, plan: Plan, c: string, e: Entry)
    requires Clear(fields) && BlocksPlanned(tx, fields, changes, blocks, isJSON, cs, plan)
    requires c !in cs && c in blocks && c in isJSON && e == BlockEdit(tx, c, blocks[c], isJSON[c])
    requires Touched(fields, changes, changes.Keys, c)
    ensures BlocksPlanned(tx, fields, changes, blocks, isJSON, cs + {c}, With(plan, e))
  {
    BlockPlaceFree(tx, fields, changes, blocks, isJSON, cs, plan, c, e);
    AddEdit(plan, e);
    forall d: Entry
      ensures OfBlock(tx, blocks, isJSON, cs + {c}, d) <==> OfBlock(tx, blocks, isJSON, cs, d) || d == e
    {
      if OfBlock(tx, blocks, isJSON, cs, d) {
        var other :| other in cs && other in blocks && other in isJSON &&
          d == BlockEdit(tx, other, blocks[other], isJSON[other]);
        assert other in cs + {c};
      }
      assert c in cs + {c};
    }
  }

  /** Adds the edits of the blocks, the components taken in any order. */
  method PlanBlocks(tx: Text, fields: Fields, changes: Changes, blocks: map<string, Tree>, isJSON: map<string, bool>,
                    gathered: Plan)
      returns (plan: Plan)
    requires Clear(fields) && ValuesGathered(fields, changes, changes.Keys, gathered)
    requires isJSON.Keys == blocks.Keys && forall c | c in blocks :: Touched(fields, changes, changes.Keys, c)
    ensures BlocksPlanned(tx, fields, changes, blocks, isJSON, blocks.Keys, plan)
  {
    plan := gathered;
    var todo := blocks.Keys;
    ghost var done := {};
    while todo != {}
      invariant done == blocks.Keys - todo && todo <= blocks.Keys
      invariant BlocksPlanned(tx, fields, changes, blocks, isJSON, done, plan)
      decreases todo
    {
      var c :| c in todo;
      var e := BlockEdit(tx, c, blocks[c], isJSON[c]);
      PlanOneMore(tx, fields, changes, blocks, isJSON, done, plan, c, e);
      plan := With(plan, e);
      todo, done := todo - {c}, done + {c};
    }
    assert done == blocks.Keys;
  }

  lemma BlockEditsGathered(tx: Text, values: Tree, fields: Fields, changes: Changes,
                           blocks: map<string, Tree>, edits: map<string, seq<Entry>>)
    requires BlocksGathered(tx, values, fields, changes, changes.Keys, blocks, edits)
    ensures BlockEdits(tx, fields, changes, edits)
  {
    forall id | id in changes && id in fields && fields[id].source.InBlock?
      ensures fields[id].source.component in edits
      ensures (fields[id].source.key, Normal(tx, fields[id], changes[id])) in edits[fields[id].source.component]
    {
      var c := fields[id].source.component;
      assert InComponent(fields, id, c) && Touched(fields, changes, changes.Keys, c);
      assert BlockGathered(tx, values, fields, changes, changes.Keys, c, blocks[c], edits[c]);
      var e: Entry := (fields[id].source.key, Normal(tx, fields[id], changes[id]));
      assert OfKey(tx, fields, changes, changes.Keys, c, e);
    }
    forall c | c in edits
      ensures PairwiseApart(edits[c]) && forall e | e in edits[c] :: EditFrom(fields, changes, c, e.0)
    {
      assert BlockGathered(tx, values, fields, changes, changes.Keys, c, blocks[c], edits[c]);
      forall e | e in edits[c]
        ensures EditFrom(fields, changes, c, e.0)
      {
        assert OfKey(tx, fields, changes, changes.Keys, c, e);
      }
    }
  }

  lemma PlacesPlanned(tx: Text, values: Tree, fields: Fields, changes: Changes, blocks: map<string, Tree>,
                      isJSON: map<string, bool>,
                      edits: map<string, seq<Entry>>, plan: Plan, e: Entry)
    requires BlocksGathered(tx, values, fields, changes, changes.Keys, blocks, edits)
    requires Forms(fields, changes, changes.Keys, blocks, isJSON)
    requires BlocksPlanned(tx, fields, changes, blocks, isJSON, blocks.Keys, plan) && Has(plan, e)
    ensures PlaceFrom(fields, changes, e.0)
  {
    if OfBlock(tx, blocks, isJSON, blocks.Keys, e) {
      var c :| c in blocks.Keys && c in blocks && c in isJSON && e == BlockEdit(tx, c, blocks[c], isJSON[c]);
      assert Touched(fields, changes, changes.Keys, c);
      var id :| id in changes.Keys && id in changes && InComponent(fields, id, c);
      assert PlaceOf(fields[id], e.0);
    } else {
      assert OfValue(fields, changes, changes.Keys, e);
      var id :| id in changes.Keys && id in changes && id in fields && fields[id].source == AtValue(e.0);
      assert PlaceOf(fields[id], e.0);
    }
  }

  lemma ChangePlanned(tx: Text, values: Tree, fields: Fields, changes: Changes, blocks: map<string, Tree>,
                      isJSON: map<string, bool>,
                      edits: map<string, seq<Entry>>, plan: Plan, id: string)
    requires BlocksGathered(tx, values, fields, changes, changes.Keys, blocks, edits)
    requires Forms(fields, changes, changes.Keys, blocks, isJSON)
    requires BlocksPlanned(tx, fields, changes, blocks, isJSON, blocks.Keys, plan)
    requires id in changes && id in fields
    ensures Planned(tx, values, fields[id], changes[id], plan, edits)
  {
    match fields[id].source
    case AtValue(path) =>
      assert OfValue(fields, changes, changes.Keys, (path, changes[id]));
      HasIsEdit(plan, (path, changes[id]));
    case InBlock(c, _, json) =>
      assert InComponent(fields, id, c) && Touched(fields, changes, changes.Keys, c);
      assert BlockGathered(tx, values, fields, changes, changes.Keys, c, blocks[c], edits[c]);
      var e := BlockEdit(tx, c, blocks[c], isJSON[c]);
      assert OfBlock(tx, blocks, isJSON, blocks.Keys, e);
      HasIsEdit(plan, e);
  }

  lemma PlanIsFor(tx: Text, values: Tree, fields: Fields, changes: Changes, blocks: map<string, Tree>,
                  isJSON: map<string, bool>,
                  edits: map<string, seq<Entry>>, plan: Plan)
    requires changes.Keys <= fields.Keys
    requires BlocksGathered(tx, values, fields, changes, changes.Keys, blocks, edits)
    requires Forms(fields, changes, changes.Keys, blocks, isJSON)
    requires BlocksPlanned(tx, fields, changes, blocks, isJSON, blocks.Keys, plan)
    ensures PlanFor(tx, values, fields, changes, plan, edits)
  {
    BlockEditsGathered(tx, values, fields, changes, blocks, edits);
    PlacesOkMeans(plan);
    forall e | e in AllEdits(plan)
      ensures PlaceFrom(fields, changes, e.0)
    {
      HasIsEdit(plan, e);
      PlacesPlanned(tx, values, fields, changes, blocks, isJSON, edits, plan, e);
    }
    forall id | id in changes
      ensures Planned(tx, values, fields[id], changes[id], plan, edits)
    {
      ChangePlanned(tx, values, fields, changes, blocks, isJSON, edits, plan, id);
    }
  }

  lemma TouchedBlocks(tx: Text, values: Tree, fields: Fields, changes: Changes, blocks: map<string, Tree>,
                      edits: map<string, seq<Entry>>)
    requires BlocksGathered(tx, values, fields, changes, changes.Keys, blocks, edits)
    ensures forall c | c in blocks :: Touched(fields, changes, changes.Keys, c)
  {
  }

  lemma AcceptedIsShown(tx: Text, values: Tree, fields: Fields, valid: (Field, Value) -> bool, id: string, v: Value)
    requires !Refused(tx, values, fields, valid, id, v)
    ensures id in fields
    ensures
      var r := ReadingOf(tx, values, fields[id]);
      r.Shown? || r.name == ""
  {
  }

  /** Changes become a plan unless one of them is unknown, locked, not valid, or set in another block. */
  method Write(tx: Text, values: Tree, fields: Fields, changes: Changes, valid: (Field, Value) -> bool)
      returns (err: bool, plan: Plan, ghost edits: map<string, seq<Entry>>)
    requires Clear(fields)
    ensures err <==> exists id :: id in changes && Refused(tx, values, fields, valid, id, changes[id])
    ensures !err ==> PlanFor(tx, values, fields, changes, plan, edits)
    ensures !err ==> forall id | id in changes ::
      var r := ReadingOf(tx, values, fields[id]);
      r.Shown? || r.name == ""
  {
    var blocks, isJSON;
    err, plan, blocks, isJSON, edits := Gather(tx, values, fields, changes, valid);
    if err {
      return;
    }
    forall id | id in changes
      ensures id in fields
      ensures
        var r := ReadingOf(tx, values, fields[id]);
        r.Shown? || r.name == ""
    {
      AcceptedIsShown(tx, values, fields, valid, id, changes[id]);
    }
    TouchedBlocks(tx, values, fields, changes, blocks, edits);
    plan := PlanBlocks(tx, fields, changes, blocks, isJSON, plan);
    PlanIsFor(tx, values, fields, changes, blocks, isJSON, edits, plan);
  }
}
