// The configuration repository: one file per section, each owning its top-level keys, and a
// manifest saying which files count.
module Sections {
  import opened Values
  import opened Merge
  import Y = YamlNodes

  /** Keys that belong to no single component; they share one file. */
  const GENERAL_KEYS: seq<string> :=
    ["serverName", "labels", "certManager", "ingress", "matrixTools", "global", "deploymentMarkers", "imagePullSecrets"]

  const GENERAL := "general"

  predicate Among(keys: seq<string>, key: string) {
    keys != [] && (keys[0] == key || Among(keys[1..], key))
  }

  predicate IsGeneral(top: string) {
    Among(GENERAL_KEYS, top)
  }

  function OwnerFile(top: string): string {
    if IsGeneral(top) then GENERAL else top
  }

  type Files = map<string, Y.Yaml>

  /** Every file is a mapping a decoder accepts, and holds only the keys it owns. */
  predicate Owned(files: Files) {
    forall f | f in files ::
      && files[f].Mapping? && Y.WellFormed(files[f])
      && forall k | k in Y.Decoded(files[f]) :: OwnerFile(k) == f
  }

  /** A file's document; an empty one where there is none. */
  function DocumentOf(files: Files, f: string): Y.Yaml {
    if f in files then files[f] else Y.EMPTY
  }

  /** What the repository holds under a top-level key. */
  function Stored(files: Files, k: string): Option<Value>
    requires Owned(files)
  {
    var f := OwnerFile(k);
    if f in files && k in Y.Decoded(files[f]) then Some(Y.Decoded(files[f])[k]) else None
  }

  function Listed(manifest: seq<string>, files: Files): (r: seq<Option<Y.Yaml>>)
    requires Owned(files)
    ensures |r| == |manifest|
    ensures forall i | 0 <= i < |r| :: r[i] == if manifest[i] in files then Some(files[manifest[i]]) else None
  {
    seq(|manifest|, i requires 0 <= i < |manifest| =>
      if manifest[i] in files then Some(files[manifest[i]]) else None)
  }

  /** The configuration in effect: the listed files merged in the order of the manifest. */
  function Effective(manifest: seq<string>, files: Files): Tree
    requires Owned(files)
  {
    MergeAll(Listed(manifest, files))
  }

  /** The order of the manifest does not matter: a key is in effect as its owner stores it, if the
      owner is listed at all. */
  lemma {:induction false} EffectiveAt(manifest: seq<string>, files: Files, k: string)
    requires Owned(files)
    ensures At(Effective(manifest, files), k) == if OwnerFile(k) in manifest then Stored(files, k) else None
  {
    if manifest != [] {
      var init, last := manifest[..|manifest| - 1], manifest[|manifest| - 1];
      EffectiveAt(init, files, k);
      assert manifest == init + [last];
      assert Listed(manifest, files)[..|init|] == Listed(init, files);
      if last in files && last == OwnerFile(k) && Stored(files, k).Some? && Stored(files, k).value.Map? {
        MergeSelf(Stored(files, k).value.m);
      }
    }
  }

  /** Two repositories that store the same keys under listed owners are in effect the same. */
  lemma EffectiveIs(manifest: seq<string>, files: Files, t: Tree)
    requires Owned(files)
    requires forall k :: At(t, k) == if OwnerFile(k) in manifest then Stored(files, k) else None
    ensures Effective(manifest, files) == t
  {
    var e := Effective(manifest, files);
    forall k
      ensures At(e, k) == At(t, k)
    {
      EffectiveAt(manifest, files, k);
    }
    SameTree(e, t);
  }
}
