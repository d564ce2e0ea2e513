// The merge that turns the configuration files into the values handed to Helm, key by key.
module Merge {
  import opened Values
  import Y = YamlNodes

  /** Merges `src` into `dst`, the keys of `src` taken in any order. */
  method MergeInto(dst: Tree, src: Tree) returns (merged: Tree)
    ensures merged == DeepMerge(dst, src)
    decreases Map(src)
  {
    merged := dst;
    var todo := src.Keys;
    while todo != {}
      invariant todo <= src.Keys
      invariant merged.Keys == dst.Keys + (src.Keys - todo)
      invariant forall k | k in merged ::
        merged[k] == if k in src && k !in todo then DeepMerge(dst, src)[k] else dst[k]
    {
      var k :| k in todo;
      var v := src[k];
      if k in merged && merged[k].Map? && v.Map? {
        assert v in src.Values;
        var below := MergeInto(merged[k].m, v.m);
        v := Map(below);
      }
      merged := merged[k := v];
      todo := todo - {k};
    }
  }

  /** The files merged in order, the later one winning; a missing file is skipped. */
  function MergeAll(files: seq<Option<Y.Yaml>>): Tree
    requires forall f | f in files && f.Some? :: f.value.Mapping?
  {
    if files == [] then map[]
    else
      var last := files[|files| - 1];
      var before := MergeAll(files[..|files| - 1]);
      if last.None? then before else DeepMerge(before, Y.Decoded(last.value))
  }

  method MergeToMap(files: seq<Option<Y.Yaml>>) returns (merged: Tree)
    requires forall f | f in files && f.Some? :: f.value.Mapping?
    ensures merged == MergeAll(files)
  {
    merged := map[];
    for i := 0 to |files|
      invariant merged == MergeAll(files[..i])
    {
      assert files[..i + 1][..i] == files[..i];
      if files[i].Some? {
        merged := MergeInto(merged, Y.Decoded(files[i].value));
      }
    }
    assert files[..|files|] == files;
  }
}
