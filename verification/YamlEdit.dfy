// The node tree itself, edited in place: the objects the parser builds, `SetNodeValue` changes and
// the encoder prints. `View` is the document a node stands for.
module YamlEdit {
  import opened Values
  import Y = YamlNodes

  class Node {
    var mapping: bool
    var value: Y.LeafValue
    var keys: seq<(string, Y.Comments)>
    var children: seq<Node>
    var flow: bool
    var comments: Y.Comments

    ghost var View: Y.Yaml
    ghost var Repr: set<Node>

    /** The node and everything below it form a tree of their own, and `View` describes it. */
    ghost predicate Valid()
      reads this, Repr
      decreases Repr
      ensures Valid() ==> this in Repr
    {
      && this in Repr
      && |keys| == |children|
      && (forall i | 0 <= i < |children| ::
        children[i] in Repr && children[i].Repr <= Repr && this !in children[i].Repr)
      && (forall i, j | 0 <= i < j < |children| :: children[i].Repr !! children[j].Repr)
      && (forall i | 0 <= i < |children| :: children[i].Valid())
      && if mapping then
           && View.Mapping? && View.flow == flow && View.comments == comments
           && |View.pairs| == |keys|
           && (forall i | 0 <= i < |keys| :: View.pairs[i] == Y.Pair(keys[i].0, keys[i].1, children[i].View))
         else View == Y.Leaf(value, comments)
    }

    constructor EmptyMapping()
      ensures Valid() && fresh(Repr)
      ensures mapping && View == Y.EMPTY
    {
      mapping, value, keys, children := true, Null, [], [];
      flow, comments := false, Y.NO_COMMENTS;
      View, Repr := Y.EMPTY, {this};
    }

    constructor Scalar(v: Y.LeafValue, c: Y.Comments)
      ensures Valid() && fresh(Repr)
      ensures View == Y.Leaf(v, c)
    {
      mapping, value, keys, children := false, v, [], [];
      flow, comments := false, c;
      View, Repr := Y.Leaf(v, c), {this};
    }

    /** Builds the tree of a document. */
    static method Parse(y: Y.Yaml) returns (n: Node)
      ensures n.Valid() && fresh(n.Repr) && n.View == y && n.mapping == y.Mapping?
      decreases y
    {
      if y.Leaf? {
        n := new Node.Scalar(y.value, y.comments);
        return;
      }
      n := new Node.EmptyMapping();
      for i := 0 to |y.pairs|
        invariant n.Valid() && n.mapping && fresh(n.Repr)
        invariant n.View == Y.EMPTY.(pairs := n.View.pairs)
        invariant n.View.pairs == y.pairs[..i]
      {
        var p := y.pairs[i];
        var c := Parse(p.value);
        n.AppendPair(p.key, p.keyComments, c);
      }
      n.Restyle(y.flow, y.comments);
    }

    /** The document the tree is printed as. */
    method ToYaml() returns (y: Y.Yaml)
      requires Valid()
      ensures y == View
      decreases Repr
    {
      if !mapping {
        return Y.Leaf(value, comments);
      }
      var pairs: seq<Y.Pair> := [];
      for i := 0 to |keys|
        invariant pairs == View.pairs[..i]
      {
        var below := children[i].ToYaml();
        pairs := pairs + [Y.Pair(keys[i].0, keys[i].1, below)];
      }
      y := Y.Mapping(pairs, flow, comments);
    }

    method Restyle(f: bool, c: Y.Comments)
      requires Valid() && mapping
      modifies this
      ensures Valid() && mapping && Repr == old(Repr) && View == old(View).(flow := f, comments := c)
    {
      flow, comments := f, c;
      View := View.(flow := f, comments := c);
    }

    /** The index of a key, -1 where it is missing. */
    static ghost function Position(y: Y.Yaml, key: string): (i: int)
      requires y.Mapping?
      ensures -1 <= i < |y.pairs|
    {
      var i := Y.Find(y.pairs, key);
      if i < |y.pairs| then i else -1
    }

    method FindKey(key: string) returns (i: int)
      requires Valid() && mapping
      ensures i == Position(View, key)
    {
      i := 0;
      while i < |keys|
        invariant 0 <= i <= |keys|
        invariant forall j | 0 <= j < i :: View.pairs[j].key != key
      {
        if keys[i].0 == key {
          return;
        }
        i := i + 1;
      }
      i := -1;
    }

    /** Makes `c` the value of the pair at `i`. */
    method Replace(i: nat, c: Node)
      requires Valid() && mapping && c.Valid() && c.Repr !! Repr && i < |keys|
      modifies this
      ensures Valid() && mapping && Repr == old(Repr) + c.Repr
      ensures keys == old(keys) && children == old(children)[i := c]
      ensures View == old(View).(flow := false, pairs := old(View).pairs[i := old(View).pairs[i].(value := c.View)])
    {
      flow := false;
      children := children[i := c];
      View := View.(flow := false, pairs := View.pairs[i := View.pairs[i].(value := c.View)]);
      Repr := Repr + c.Repr;
    }

    /** Adds a pair at the end. */
    method AppendPair(key: string, keyComments: Y.Comments, c: Node)
      requires Valid() && mapping && c.Valid() && c.Repr !! Repr
      modifies this
      ensures Valid() && mapping && Repr == old(Repr) + c.Repr
      ensures keys == old(keys) + [(key, keyComments)] && children == old(children) + [c]
      ensures View == old(View).(pairs := old(View).pairs + [Y.Pair(key, keyComments, c.View)])
    {
      keys := keys + [(key, keyComments)];
      children := children + [c];
      View := View.(pairs := View.pairs + [Y.Pair(key, keyComments, c.View)]);
      Repr := Repr + c.Repr;
    }

    /** The pair at `i` gets the value `c`, or a new pair does where `FindKey` found none. */
    method Put(i: int, key: string, c: Node)
      requires Valid() && mapping && c.Valid() && c.Repr !! Repr
      requires i == Position(View, key)
      modifies this
      ensures Valid() && mapping && Repr == old(Repr) + c.Repr
      ensures var at := Y.Find(old(View).pairs, key); at < |children| && children[at] == c
      ensures View == old(View).(flow := false, pairs := Y.Put(old(View).pairs, key, c.View))
    {
      if i >= 0 {
        Replace(i, c);
      } else {
        Restyle(false, comments);
        AppendPair(key, Y.NO_COMMENTS, c);
      }
    }

    method TakeComments(head: string, line: string)
      requires Valid()
      modifies this
      ensures Valid() && Repr == old(Repr) && View == Y.SetComments(old(View), head, line)
    {
      comments := comments.(head := head, line := line);
      View := View.(comments := comments);
    }

    /** `Valid`, but for what it says about the child at `i`. */
    ghost predicate ValidBut(i: nat)
      reads this, Repr
    {
      && this in Repr
      && mapping && View.Mapping? && View.flow == flow && View.comments == comments
      && i < |keys| == |children| == |View.pairs|
      && (forall j | 0 <= j < |keys| && j != i ::
            children[j] in Repr && children[j].Repr <= Repr && this !in children[j].Repr)
      && (forall j, k | 0 <= j < k < |keys| && j != i && k != i :: children[j].Repr !! children[k].Repr)
      && (forall j | 0 <= j < |keys| && j != i ::
            children[j].Valid() && View.pairs[j] == Y.Pair(keys[j].0, keys[j].1, children[j].View))
      && View.pairs[i].key == keys[i].0 && View.pairs[i].keyComments == keys[i].1
    }

    /** An edit below the child at `i` leaves its siblings as they were. */
    twostate lemma SiblingsStand(i: nat)
      requires old(Valid()) && mapping && i < |old(children)| && unchanged(this)
      requires forall j | 0 <= j < |children| && j != i :: forall o | o in old(children[j].Repr) :: unchanged(o)
      ensures ValidBut(i)
      ensures forall j | 0 <= j < |children| && j != i :: children[j].Repr == old(children[j].Repr)
    {
    }

    /** Takes in what an edit made of the child at `i`. */
    ghost method Adopt(i: nat)
      requires ValidBut(i) && children[i].Valid() && this !in children[i].Repr
      requires forall j | 0 <= j < |children| && j != i :: children[j].Repr !! children[i].Repr
      modifies this`Repr, this`View
      ensures Valid() && Repr == old(Repr) + children[i].Repr
      ensures View == old(View).(pairs := old(View).pairs[i := old(View).pairs[i].(value := children[i].View)])
    {
      Repr := Repr + children[i].Repr;
      View := View.(pairs := View.pairs[i := View.pairs[i].(value := children[i].View)]);
    }

    /** Edits the mapping at `i`. */
    method SetBelow(i: nat, path: Path, v: Node)
      requires Valid() && mapping && |path| > 1
      requires i < |children| && children[i].mapping
      requires v.Valid() && v.Repr !! Repr
      modifies Repr, v
      ensures Valid() && mapping
      ensures old(View).pairs[i].value.Mapping?
      ensures View == old(View).(pairs := old(View).pairs[i := old(View).pairs[i].(value :=
          Y.SetIn(old(View).pairs[i].value, path[1..], old(v.View)))])
      ensures fresh(Repr - old(Repr) - old(v.Repr))
      decreases |path|, 0
    {
      var child := children[i];
      assert View.pairs[i].value == child.View;
      child.SetIn(path[1..], v);
      SiblingsStand(i);
      Adopt(i);
    }

    /** Makes sure a mapping stands under `key`, in place of a leaf if need be. */
    method Descend(idx: int, key: string) returns (i: nat)
      requires Valid() && mapping
      requires idx == Position(View, key)
      modifies this
      ensures Valid() && mapping && fresh(Repr - old(Repr))
      ensures View == old(View).(flow := false, pairs := Y.Put(old(View).pairs, key, Y.ChildOf(old(View).pairs, key)))
      ensures i == Y.Find(old(View).pairs, key) && i < |children| && children[i].mapping
    {
      if idx >= 0 && children[idx].mapping {
        flow := false;
        View := View.(flow := false);
        i := idx;
      } else {
        var child := new Node.EmptyMapping();
        Put(idx, key, child);
        i := if idx >= 0 then idx else |keys| - 1;
      }
    }

    lemma PutTwice(pairs: seq<Y.Pair>, key: string, a: Y.Yaml, b: Y.Yaml)
      ensures
        var once := Y.Put(pairs, key, a);
        var i := Y.Find(pairs, key);
        i < |once| && once[i].value == a && once[i := once[i].(value := b)] == Y.Put(pairs, key, b)
    {
    }

    method SetNested(idx: int, path: Path, v: Node)
      requires Valid() && mapping && |path| > 1
      requires idx == Position(View, path[0])
      requires v.Valid() && v.Repr !! Repr
      modifies Repr, v
      ensures Valid() && mapping
      ensures View == Y.SetIn(old(View), path, old(v.View))
      ensures fresh(Repr - old(Repr) - old(v.Repr))
      decreases |path|, 1
    {
      var i := Descend(idx, path[0]);
      SetBelow(i, path, v);
      var child := Y.ChildOf(old(View).pairs, path[0]);
      PutTwice(old(View).pairs, path[0], child, Y.SetIn(child, path[1..], old(v.View)));
    }

    method SetIn(path: Path, v: Node)
      requires Valid() && mapping && path != []
      requires v.Valid() && v.Repr !! Repr
      modifies Repr, v
      ensures Valid() && mapping
      ensures View == Y.SetIn(old(View), path, old(v.View))
      ensures fresh(Repr - old(Repr) - old(v.Repr))
      decreases |path|, 2
    {
      var idx := FindKey(path[0]);
      if |path| > 1 {
        SetNested(idx, path, v);
      } else {
        if idx >= 0 {
          v.TakeComments(children[idx].comments.head, children[idx].comments.line);
        }
        Put(idx, path[0], v);
      }
    }

    /** Takes the pair at `i` out. */
    method RemoveAt(i: nat)
      requires Valid() && mapping && i < |keys|
      modifies this
      ensures Valid() && mapping && Repr == old(Repr)
      ensures View == old(View).(pairs := old(View).pairs[..i] + old(View).pairs[i + 1..])
    {
      keys := keys[..i] + keys[i + 1..];
      children := children[..i] + children[i + 1..];
      View := View.(pairs := View.pairs[..i] + View.pairs[i + 1..]);
    }

    method DeleteBelow(i: nat, path: Path) returns (emptied: bool)
      requires Valid() && mapping && |path| > 1
      requires i < |children| && children[i].mapping
      modifies Repr
      ensures Valid() && mapping && fresh(Repr - old(Repr)) && keys == old(keys)
      ensures old(View).pairs[i].value.Mapping?
      ensures
        var child := Y.DeleteIn(old(View).pairs[i].value, path[1..]);
        && View == old(View).(pairs := old(View).pairs[i := old(View).pairs[i].(value := child)])
        && (emptied <==> child.pairs == [])
      decreases |path|, 0
    {
      var child := children[i];
      assert View.pairs[i].value == child.View;
      child.DeleteIn(path[1..]);
      SiblingsStand(i);
      Adopt(i);
      emptied := |child.keys| == 0;
    }

    method DeleteNested(idx: nat, path: Path)
      requires Valid() && mapping && |path| > 1
      requires idx < |children| && idx == Position(View, path[0]) && children[idx].mapping
      modifies Repr
      ensures Valid() && mapping && fresh(Repr - old(Repr))
      ensures View == Y.DeleteIn(old(View), path)
      decreases |path|, 1
    {
      ghost var pairs := View.pairs;
      var emptied := DeleteBelow(idx, path);
      if emptied {
        RemoveAt(idx);
        assert View.pairs == pairs[..idx] + pairs[idx + 1..];
      }
    }

    method DeleteIn(path: Path)
      requires Valid() && mapping && path != []
      modifies Repr
      ensures Valid() && mapping && fresh(Repr - old(Repr))
      ensures View == Y.DeleteIn(old(View), path)
      decreases |path|, 2
    {
      var idx := FindKey(path[0]);
      if idx < 0 {
        return;
      }
      assert View.pairs[idx].value == children[idx].View;
      if |path| == 1 {
        RemoveAt(idx);
      } else if children[idx].mapping {
        DeleteNested(idx, path);
      }
    }
  }
}
