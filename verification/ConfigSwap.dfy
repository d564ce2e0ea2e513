// Putting an archived configuration repository in place of the present one. The directory itself is a
// mount point and stays; its entries are moved aside, the archive's are moved in, and a failure on the
// way moves everything back.
module ConfigSwap {
  datatype Dir = Root | Staging | Aside

  /** Names the swap uses inside the repository itself. */
  const RESERVED := {".matrixctrl-restore-new", ".matrixctrl-restore-old"}

  function Names(s: seq<string>): set<string> {
    set n | n in s
  }

  lemma NamesFrom(s: seq<string>, i: nat)
    requires i < |s|
    ensures Names(s[i..]) == {s[i]} + Names(s[i + 1..])
  {
    assert s[i..] == [s[i]] + s[i + 1..];
  }

  predicate Distinct(s: seq<string>) {
    forall i, j | 0 <= i < j < |s| :: s[i] != s[j]
  }

  /** Directory `d` with entry `name`, holding `e`, moved between two directories. */
  function Moved<T>(m: map<string, T>, d: Dir, from: Dir, to: Dir, name: string, e: T): map<string, T> {
    if d == from then m - {name} else if d == to then m[name := e] else m
  }

  ghost predicate PartOf<T>(part: map<string, T>, whole: map<string, T>) {
    forall n | n in part :: n in whole && part[n] == whole[n]
  }

  /** Every entry of `whole` is in one of the two, with its contents. */
  ghost predicate Kept<T>(whole: map<string, T>, one: map<string, T>, other: map<string, T>) {
    forall n | n in whole :: (n in one && one[n] == whole[n]) || (n in other && other[n] == whole[n])
  }

  /** The entries of `before` that `after` does not have as they were. */
  ghost function Missing<T>(before: map<string, T>, after: map<string, T>): set<string> {
    set n | n in before && !(n in after && after[n] == before[n])
  }

  lemma KeptOver<T>(whole: map<string, T>, one: map<string, T>, other: map<string, T>, n: string)
    requires Kept(whole, one, other) && one.Keys !! other.Keys && n in one
    ensures Kept(whole, one - {n}, other[n := one[n]]) && (one - {n}).Keys !! other[n := one[n]].Keys
  {
  }

  /** Every entry of `left` is still there, unless that of `before` came back in its place. */
  ghost predicate CameBack<T>(left: map<string, T>, before: map<string, T>, after: map<string, T>) {
    forall n | n in left :: n in after && (after[n] == left[n] || (n in before && after[n] == before[n]))
  }

  /** The entries of `whole` that neither of the two has as they were. */
  ghost function Lost<T>(whole: map<string, T>, one: map<string, T>, other: map<string, T>): set<string> {
    set n | n in whole && !(n in one && one[n] == whole[n]) && !(n in other && other[n] == whole[n])
  }

  lemma Fits(small: set<string>, large: set<string>)
    requires small <= large
    ensures |small| <= |large|
  {
    if n :| n in small {
      Fits(small - {n}, large - {n});
    }
  }

  /** The three directories, entry by entry; `T` is a file or a whole subtree. */
  class Repository<T> {
    var root: map<string, T>
    var staging: map<string, T>
    var aside: map<string, T>
    /** Renames and listings that failed, and whether a rename replaced an entry that was there. */
    ghost var failed: nat
    ghost var collided: bool

    constructor (root: map<string, T>)
      ensures this.root == root && staging == map[] && aside == map[] && failed == 0 && !collided
    {
      this.root, staging, aside := root, map[], map[];
      failed, collided := 0, false;
    }

    function In(d: Dir): (m: map<string, T>)
      reads this
      ensures (d == Root ==> m == root) && (d == Staging ==> m == staging) && (d == Aside ==> m == aside)
    {
      match d
      case Root => root
      case Staging => staging
      case Aside => aside
    }

    /** Reads the names in a directory. */
    method List() returns (err: bool)
      modifies this`failed
      ensures failed == old(failed) + if err then 1 else 0
    {
      err := *;
      if err {
        failed := failed + 1;
      }
    }

    /** Moves one entry; it happens entirely or not at all. */
    method Rename(from: Dir, to: Dir, name: string) returns (err: bool)
      requires from != to
      modifies this
      ensures err ==> failed == old(failed) + 1 && collided == old(collided)
      ensures err ==> root == old(root) && staging == old(staging) && aside == old(aside)
      ensures !err ==> failed == old(failed) && name in old(In(from))
      ensures !err ==> (collided <==> old(collided) || name in old(In(to)))
      ensures !err ==> root == Moved(old(root), Root, from, to, name, old(In(from))[name])
      ensures !err ==> staging == Moved(old(staging), Staging, from, to, name, old(In(from))[name])
      ensures !err ==> aside == Moved(old(aside), Aside, from, to, name, old(In(from))[name])
    {
      err := *;
      if name !in In(from) {
        err := true;
      }
      if err {
        failed := failed + 1;
        return;
      }
      collided := collided || name in In(to);
      var e := In(from)[name];
      root := Moved(root, Root, from, to, name, e);
      staging := Moved(staging, Staging, from, to, name, e);
      aside := Moved(aside, Aside, from, to, name, e);
    }

    /** Moves the entries `names` back from where they were put aside, going on when one of them fails. */
    method RestoreBack(names: seq<string>, ghost before: map<string, T>)
      requires Kept(before, root, aside) && PartOf(aside, before) && aside.Keys == Names(names)
      modifies this
      ensures Kept(before, root, aside) && PartOf(aside, before) && staging == old(staging)
      ensures PartOf(old(root), before) ==> PartOf(root, before)
      ensures old(root).Keys !! old(aside).Keys && Distinct(names) ==>
        collided == old(collided)
      ensures failed - old(failed) >= |aside.Keys|
      ensures CameBack(old(root), before, root)
      ensures !collided ==> !old(collided) && PartOf(old(root), root)
    {
      ghost var stuck: set<string> := {};
      for i := 0 to |names|
        invariant Kept(before, root, aside) && PartOf(aside, before) && staging == old(staging)
        invariant PartOf(old(root), before) ==> PartOf(root, before)
        invariant old(root).Keys !! old(aside).Keys ==> root.Keys !! aside.Keys && collided == old(collided)
        invariant CameBack(old(root), before, root)
        invariant !collided ==> !old(collided) && PartOf(old(root), root)
        invariant aside.Keys <= stuck + Names(names[i..])
        invariant |stuck| <= failed - old(failed)
      {
        NamesFrom(names, i);
        var err := Rename(Aside, Root, names[i]);
        if err {
          stuck := stuck + {names[i]};
        }
      }
      Fits(aside.Keys, stuck);
    }

    /** Moves the placed entries out again, going on when one of them fails. */
    method TakeOut(placed: seq<string>, ghost archive: map<string, T>)
      requires root.Keys == Names(placed) && root.Keys !! staging.Keys && Kept(archive, root, staging)
      modifies this
      ensures Kept(archive, root, staging)
      ensures aside == old(aside) && collided == old(collided)
      ensures failed - old(failed) >= |root.Keys|
    {
      ghost var stuck: set<string> := {};
      for i := 0 to |placed|
        invariant Kept(archive, root, staging)
        invariant aside == old(aside) && collided == old(collided)
        invariant root.Keys !! staging.Keys
        invariant root.Keys <= stuck + Names(placed[i..])
        invariant |stuck| <= failed - old(failed)
      {
        NamesFrom(placed, i);
        ghost var one, other := root, staging;
        var err := Rename(Root, Staging, placed[i]);
        if err {
          stuck := stuck + {placed[i]};
        } else {
          KeptOver(archive, one, other, placed[i]);
        }
      }
      Fits(root.Keys, stuck);
    }

    /** Moves every entry of the repository aside, in the order the directory lists them. */
    method MoveAside() returns (moved: seq<string>, err: bool)
      requires aside == map[]
      modifies this
      ensures Kept(old(root), root, aside) && PartOf(root, old(root)) && PartOf(aside, old(root))
      ensures root.Keys !! aside.Keys && Distinct(moved) && aside.Keys == Names(moved)
      ensures staging == old(staging) && collided == old(collided)
      ensures failed == old(failed) + if err then 1 else 0
      ensures !err ==> root == map[] && aside == old(root)
    {
      var rest := root.Keys;
      moved, err := [], false;
      while rest != {}
        invariant Kept(old(root), root, aside) && PartOf(root, old(root)) && PartOf(aside, old(root))
        invariant root.Keys == rest && rest !! aside.Keys && Distinct(moved) && aside.Keys == Names(moved)
        invariant staging == old(staging) && collided == old(collided) && failed == old(failed)
        decreases rest
      {
        var n :| n in rest;
        err := Rename(Root, Aside, n);
        if err {
          return;
        }
        rest, moved := rest - {n}, moved + [n];
      }
      assert aside == old(root);
    }

    /** Moves the archive's entries in, in the order the staging directory lists them. */
    method Place(ghost archive: map<string, T>) returns (placed: seq<string>, err: bool)
      requires root == map[] && staging == archive
      modifies this
      ensures aside == old(aside) && collided == old(collided) && Kept(archive, root, staging)
      ensures root.Keys !! staging.Keys && root.Keys == Names(placed)
      ensures failed == old(failed) + if err then 1 else 0
      ensures !err ==> root == archive
    {
      var rest := staging.Keys;
      placed, err := [], false;
      while rest != {}
        invariant aside == old(aside) && collided == old(collided) && failed == old(failed)
        invariant Kept(archive, root, staging) && PartOf(root, archive) && PartOf(staging, archive)
        invariant staging.Keys == rest && root.Keys == archive.Keys - rest && root.Keys == Names(placed)
        decreases rest
      {
        var n :| n in rest;
        err := Rename(Staging, Root, n);
        if err {
          return;
        }
        rest, placed := rest - {n}, placed + [n];
      }
      assert root == archive;
    }

    /** Removes the two directories of the swap, whatever is left in them. */
    method Cleanup()
      modifies this`staging, this`aside
      ensures staging == map[] && aside == map[]
    {
      staging, aside := map[], map[];
    }

    /** Moves everything out and the archive in; a failure on the way is undone. */
    method Swap(archive: map<string, T>) returns (err: bool)
      requires aside == map[] && staging == archive
      modifies this
      ensures !err ==> root == archive && failed == old(failed) && collided == old(collided)
      ensures err ==> failed > old(failed) && Kept(old(root), root, aside) && |aside.Keys| < failed - old(failed)
      ensures err && failed == old(failed) + 1 ==> root == old(root) && collided == old(collided)
      ensures err && !collided ==> Kept(archive, root, staging)
      ensures err ==> |Lost(archive, root, staging)| < failed - old(failed)
      ensures err ==> forall n | n in Lost(archive, root, staging) ::
        n in root && n in old(root) && root[n] == old(root)[n]
    {
      ghost var before := root;
      err := List();
      if err {
        return;
      }
      var moved;
      moved, err := MoveAside();
      if err {
        RestoreBack(moved, before);
        return;
      }
      err := List();
      if err {
        RestoreBack(moved, before);
        return;
      }
      var placed;
      placed, err := Place(archive);
      if err {
        TakeOut(placed, archive);
        ghost var left := root;
        RestoreBack(moved, before);
        Fits(Lost(archive, root, staging), left.Keys);
      }
    }

    /**
     * Replaces the repository's entries with those of the archive. Any rename may fail, any
     * directory may not be readable; `writable` tells whether the archive's copy can be written out.
     */
    method RestoreConfigRepo(archive: map<string, T>, writable: bool) returns (err: bool)
      requires root.Keys !! RESERVED
      modifies this
      ensures err <==> archive != map[] && (!writable || archive.Keys * RESERVED != {} || failed > old(failed))
      ensures !err && archive != map[] ==> root == archive
      ensures archive == map[] ==> !err && root == old(root)
      ensures archive.Keys * RESERVED != {} ==> err && root == old(root)
      ensures err && failed - old(failed) <= 1 ==> root == old(root)
      ensures failed - old(failed) <= 1 ==> collided == old(collided)
      ensures archive != map[] ==> staging == map[] && aside == map[]
      ensures archive == map[] ==> staging == old(staging) && aside == old(aside)
      ensures err && root != old(root) ==> |Missing(old(root), root)| < failed - old(failed)
    {
      if archive == map[] {
        return false;
      }
      staging, aside := map[], map[];
      if archive.Keys * RESERVED != {} || !writable {
        staging := *;
        Cleanup();
        return true;
      }
      staging := archive;
      err := Swap(archive);
      if err {
        Fits(Missing(old(root), root), aside.Keys);
      }
      Cleanup();
    }
  }
}
