// The settings page for people who do not know the chart: where each setting lives and how it is read.
module TaskFields {
  import opened Values
  import opened Leaves
  import opened Edits

  /** The block of a component's additional configuration that the page owns. */
  const BLOCK := "matrixctrl-tasks"

  const ADDITIONAL := "additional"

  /** A setting is a Helm value, or a key of a service's own configuration, kept as text in a block. */
  datatype Source =
    | AtValue(path: KeyPath)
    | InBlock(component: string, key: KeyPath, json: bool)

  datatype Field = Field(source: Source, default: Option<Value>, locked: bool)

  /** How values and texts are printed and texts read. */
  datatype Text = Text(sprint: Value -> string, render: (bool, Tree) -> string, parse: string -> Option<Tree>)

  /** What is printed is read back. */
  ghost predicate Faithful(tx: Text) {
    forall json, b :: tx.render(json, b) != "" && tx.parse(tx.render(json, b)) == Some(b)
  }

  function AdditionalPath(component: string): KeyPath {
    [component, ADDITIONAL]
  }

  function BlockPath(component: string): KeyPath {
    [component, ADDITIONAL, BLOCK]
  }

  /** The text of a block: the entry itself, or its key "config". */
  function TextIn(entry: Option<Value>): string {
    if entry.None? then ""
    else if entry.value.Scalar? && entry.value.kind == String then entry.value.text
    else
      var config := if entry.value.Map? then At(entry.value.m, "config") else None;
      if config.Some? && config.value.Scalar? && config.value.kind == String then config.value.text else ""
  }

  /** One block as a tree; empty where there is none, or none that can be read. */
  function BlockOf(tx: Text, values: Tree, component: string, name: string): Tree {
    var text := TextIn(Get(values, [component, ADDITIONAL, name]));
    var doc := if text == "" then None else tx.parse(text);
    if doc.Some? then doc.value else map[]
  }

  function OwnBlock(tx: Text, values: Tree, component: string): Tree {
    BlockOf(tx, values, component, BLOCK)
  }

  /** The block `name` is another one than the page's own, and sets the key. */
  predicate Sets(tx: Text, values: Tree, component: string, key: KeyPath, name: string) {
    name != BLOCK && Get(BlockOf(tx, values, component, name), key).Some?
  }

  /** Another block sets the key. */
  ghost predicate SetElsewhere(tx: Text, values: Tree, component: string, key: KeyPath) {
    exists name :: Sets(tx, values, component, key, name)
  }

  function Names(values: Tree, component: string): set<string> {
    MapAt(values, AdditionalPath(component)).Keys
  }

  function MapAt(m: Tree, p: KeyPath): Tree {
    var v := Get(m, p);
    if v.Some? && v.value.Map? then v.value.m else map[]
  }

  /** A member is read by one key more. */
  lemma {:induction false} GetBelow(m: Tree, p: KeyPath, k: string)
    ensures Get(m, p + [k]) == At(MapAt(m, p), k)
    decreases |p|
  {
    assert (p + [k])[1..] == p[1..] + [k];
    if |p| > 1 {
      GetBelow(SubTree(m, p[0]), p[1..], k);
    }
  }

  lemma NamesAreAll(tx: Text, values: Tree, component: string, name: string)
    requires name !in Names(values, component)
    ensures BlockOf(tx, values, component, name) == map[]
  {
    GetBelow(values, AdditionalPath(component), name);
    assert AdditionalPath(component) + [name] == [component, ADDITIONAL, name];
  }

  // ----- The order of names -----

  predicate Less(a: string, b: string) {
    b != "" && (a == "" || a[0] < b[0] || (a[0] == b[0] && Less(a[1..], b[1..])))
  }

  lemma {:induction false} LessOrders(a: string, b: string)
    ensures Less(a, b) ==> !Less(b, a)
    ensures !Less(a, b) && !Less(b, a) ==> a == b
    decreases |a|
  {
    if a != "" && b != "" && a[0] == b[0] {
      LessOrders(a[1..], b[1..]);
      assert a == [a[0]] + a[1..] && b == [b[0]] + b[1..];
    }
  }

  lemma {:induction false} LessTransitive(a: string, b: string, c: string)
    requires Less(a, b) && Less(b, c)
    ensures Less(a, c)
    decreases |a|
  {
    if a != "" && a[0] == b[0] == c[0] {
      LessTransitive(a[1..], b[1..], c[1..]);
    }
  }

  predicate Least(names: set<string>, n: string) {
    n in names && forall m | m in names && m != n :: Less(n, m)
  }

  method FindLeast(names: set<string>) returns (n: string)
    requires names != {}
    ensures Least(names, n)
  {
    n :| n in names;
    var todo := names - {n};
    while todo != {}
      invariant todo <= names && n in names && n !in todo
      invariant forall m | m in names - todo && m != n :: Less(n, m)
      decreases todo
    {
      var m :| m in todo;
      LessOrders(n, m);
      if Less(m, n) {
        forall other | other in names - todo && other != n
          ensures Less(m, other)
        {
          LessTransitive(m, n, other);
        }
        n := m;
      }
      todo := todo - {m};
    }
  }

  lemma {:induction false} HasLeast(names: set<string>)
    requires names != {}
    ensures exists n :: Least(names, n)
  {
    var n :| n in names;
    var rest := names - {n};
    if rest == {} {
      assert names == {n} && Least(names, n);
    } else {
      HasLeast(rest);
      var m :| Least(rest, m);
      LessOrders(n, m);
      if Less(n, m) {
        forall other | other in rest && other != m
          ensures Less(n, other)
        {
          LessTransitive(n, m, other);
        }
        assert Least(names, n);
      } else {
        assert Least(names, m);
      }
    }
  }

  // ----- The block that sets a key -----

  /** The first of the other blocks, in the order of their names, that sets the key. */
  ghost predicate FirstToSet(tx: Text, values: Tree, component: string, key: KeyPath, name: string) {
    && Sets(tx, values, component, key, name)
    && forall other | Sets(tx, values, component, key, other) && other != name :: Less(name, other)
  }

  lemma SomeIsFirst(tx: Text, values: Tree, component: string, key: KeyPath)
    requires SetElsewhere(tx, values, component, key)
    ensures exists name :: FirstToSet(tx, values, component, key, name)
  {
    var setting := set name | name in Names(values, component) && Sets(tx, values, component, key, name);
    forall name | Sets(tx, values, component, key, name)
      ensures name in setting
    {
      if name !in Names(values, component) {
        NamesAreAll(tx, values, component, name);
      }
    }
    HasLeast(setting);
    var n :| Least(setting, n);
    assert FirstToSet(tx, values, component, key, n);
  }

  lemma FirstIsOne(tx: Text, values: Tree, component: string, key: KeyPath, a: string, b: string)
    requires FirstToSet(tx, values, component, key, a) && FirstToSet(tx, values, component, key, b)
    ensures a == b
  {
    LessOrders(a, b);
  }

  /** The block that sets the key instead of the page, and its value. */
  ghost function SetterOf(tx: Text, values: Tree, component: string, key: KeyPath): Option<(string, Value)> {
    if !SetElsewhere(tx, values, component, key) then None
    else
      SomeIsFirst(tx, values, component, key);
      var name :| FirstToSet(tx, values, component, key, name);
      Some((name, Get(BlockOf(tx, values, component, name), key).value))
  }

  lemma SetterIs(tx: Text, values: Tree, component: string, key: KeyPath, name: string)
    requires FirstToSet(tx, values, component, key, name)
    ensures SetterOf(tx, values, component, key) == Some((name, Get(BlockOf(tx, values, component, name), key).value))
  {
    var other := SetterOf(tx, values, component, key).value.0;
    FirstIsOne(tx, values, component, key, name, other);
  }

  /** Looks through the other blocks in the order of their names. */
  method FindElsewhere(tx: Text, values: Tree, component: string, key: KeyPath)
      returns (found: Option<(string, Value)>)
    ensures found == SetterOf(tx, values, component, key)
    ensures found.Some? <==> SetElsewhere(tx, values, component, key)
  {
    var todo := Names(values, component) - {BLOCK};
    forall name | name !in Names(values, component)
      ensures !Sets(tx, values, component, key, name)
    {
      NamesAreAll(tx, values, component, name);
    }
    while todo != {}
      invariant todo <= Names(values, component)
      invariant forall name | Sets(tx, values, component, key, name) :: name in todo
      invariant BLOCK !in todo
      decreases todo
    {
      var name := FindLeast(todo);
      var v := Get(BlockOf(tx, values, component, name), key);
      if v.Some? {
        assert Sets(tx, values, component, key, name);
        SetterIs(tx, values, component, key, name);
        return Some((name, v.value));
      }
      todo := todo - {name};
    }
    found := None;
  }

  /** What a field shows: a value of its own, the default, or the value another block sets, not to be edited. */
  datatype Reading =
    | Shown(value: Option<Value>, isDefault: bool)
    | Elsewhere(name: string, found: Value)

  predicate LikeDefault(tx: Text, f: Field, v: Value) {
    f.default.Some? && tx.sprint(v) == tx.sprint(f.default.value)
  }

  ghost function ReadingOf(tx: Text, values: Tree, f: Field): Reading {
    match f.source
    case AtValue(path) =>
      var v := Get(values, path);
      if v.None? || v.value.Null? then Shown(f.default, true) else Shown(Some(v.value), LikeDefault(tx, f, v.value))
    case InBlock(component, key, _) =>
      var setter := SetterOf(tx, values, component, key);
      if setter.Some? then Elsewhere(setter.value.0, setter.value.1)
      else
        var v := Get(OwnBlock(tx, values, component), key);
        if v.None? then Shown(f.default, true) else Shown(Some(v.value), false)
  }

  method Read(tx: Text, values: Tree, f: Field) returns (r: Reading)
    ensures r == ReadingOf(tx, values, f)
  {
    match f.source
    case AtValue(path) =>
      var v := Get(values, path);
      if v.None? || v.value.Null? {
        return Shown(f.default, true);
      }
      r := Shown(Some(v.value), LikeDefault(tx, f, v.value));
    case InBlock(component, key, _) =>
      var elsewhere := FindElsewhere(tx, values, component, key);
      if elsewhere.Some? {
        return Elsewhere(elsewhere.value.0, elsewhere.value.1);
      }
      var v := Get(OwnBlock(tx, values, component), key);
      r := if v.None? then Shown(f.default, true) else Shown(Some(v.value), false);
  }

  // ----- Editing a block -----

  /** Null takes the key away, any other value is written. */
  function Edit(b: Tree, e: Entry): Tree {
    if e.1.Null? then Delete(b, e.0) else Set(b, e.0, e.1)
  }

  function EditAll(b: Tree, es: seq<Entry>): Tree {
    if es == [] then b else Edit(EditAll(b, es[..|es| - 1]), es[|es| - 1])
  }

  function Kept(v: Value): Option<Value> {
    if v.Null? then None else Some(v)
  }

  lemma EditAt(b: Tree, e: Entry)
    ensures Get(Edit(b, e), e.0) == Kept(e.1)
  {
    GetSet(b, e.0, e.1);
    GetDelete(b, e.0);
  }

  lemma EditBeside(b: Tree, e: Entry, q: KeyPath)
    requires Apart(e.0, q)
    ensures Get(Edit(b, e), q) == Get(b, q)
  {
    SetFrame(b, e.0, e.1, q);
    DeleteFrame(b, e.0, q);
  }

  /** Every edited key reads as edited; keys apart from all of them read as before. */
  lemma {:induction false} EditedKeys(b: Tree, es: seq<Entry>)
    requires PairwiseApart(es)
    ensures forall e | e in es :: Get(EditAll(b, es), e.0) == Kept(e.1)
  {
    if es != [] {
      var front, last := es[..|es| - 1], es[|es| - 1];
      EditedKeys(b, front);
      EditAt(EditAll(b, front), last);
      forall i | 0 <= i < |front|
        ensures Get(EditAll(b, es), front[i].0) == Kept(front[i].1)
      {
        ApartBothWays(front[i].0, last.0);
        EditBeside(EditAll(b, front), last, front[i].0);
      }
    }
  }

  lemma {:induction false} UneditedKeys(b: Tree, es: seq<Entry>, q: KeyPath)
    requires forall e | e in es :: Apart(e.0, q)
    ensures Get(EditAll(b, es), q) == Get(b, q)
  {
    if es != [] {
      UneditedKeys(b, es[..|es| - 1], q);
      EditBeside(EditAll(b, es[..|es| - 1]), es[|es| - 1], q);
    }
  }

  lemma {:induction false} ApartBothWays(p: Path, q: Path)
    ensures Apart(p, q) <==> Apart(q, p)
    decreases |p|
  {
    if p != [] && q != [] && p[0] == q[0] {
      ApartBothWays(p[1..], q[1..]);
    }
  }

  /** Places below two paths that part are themselves apart. */
  lemma {:induction false} ApartBelow(p: Path, r: Path, q: Path, s: Path)
    requires Apart(p, q)
    ensures Apart(p + r, q + s)
    decreases |p|
  {
    assert (p + r)[1..] == p[1..] + r && (q + s)[1..] == q[1..] + s;
    if p[0] == q[0] {
      ApartBelow(p[1..], r, q[1..], s);
    }
  }
}
