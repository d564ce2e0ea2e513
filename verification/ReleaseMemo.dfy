// The memo of decoded releases. A read probes the newest secret's identity, answers from the memo when
// the memo was made from that very identity, and decodes the revision otherwise; meanwhile other reads
// do the same and Helm goes on writing secrets.
module ReleaseMemo {
  import opened Values
  import opened ReleaseProbe

  datatype Info = Info(revision: nat, status: string, chart: string, deployedAt: int)

  datatype Memo = Memo(identity: Identity, info: Info)

  type Cache = map<string, Memo>

  function Recall(cache: Cache, name: string, id: Identity): Option<Info> {
    if name in cache && cache[name].identity == id then Some(cache[name].info) else None
  }

  class Client {
    var relCache: Cache

    constructor ()
      ensures relCache == map[]
    {
      relCache := map[];
    }

    method MemoisedReleaseInfo(name: string, id: Identity) returns (info: Option<Info>)
      ensures info == Recall(relCache, name, id)
    {
      if name !in relCache || relCache[name].identity != id {
        return None;
      }
      info := Some(relCache[name].info);
    }

    method StoreReleaseInfo(name: string, id: Identity, info: Info)
      modifies this
      ensures relCache == old(relCache)[name := Memo(id, info)]
      ensures forall other :: Recall(relCache, name, other) == if other == id then Some(info) else None
    {
      relCache := relCache[name := Memo(id, info)];
    }

    method InvalidateRelease(name: string)
      modifies this
      ensures relCache == old(relCache) - {name}
      ensures forall id :: Recall(relCache, name, id) == None
    {
      relCache := relCache - {name};
    }
  }

  // ----- The cluster, the memo and any number of reads at once -----

  /** A release secret: the labels that change, and what its payload decodes to. */
  datatype Secret = Secret(status: string, modifiedAt: string, info: Info)

  type Secrets = map<nat, Secret>

  /**
   * One read. `since` is what the probed revision has decoded to, at the probe or at any moment after
   * it; no step looks at it.
   */
  datatype Read =
    | Probed(release: string, id: Identity, since: set<Info>)
    | Decoded(release: string, id: Identity, since: set<Info>, info: Info)
    | Answered(release: string, since: set<Info>, info: Info)

  datatype World = World(cluster: map<string, Secrets>, used: set<Identity>, cache: Cache, calls: map<nat, Read>)

  datatype Action =
    | Write(release: string, rev: nat, secret: Secret)
    | Trim(release: string, rev: nat)
    | Probe(t: nat, release: string, rev: nat)
    | Hit(t: nat)
    | Decode(t: nat)
    | Store(t: nat)
    | SlowRead(t: nat, release: string, rev: nat)
    | Invalidate(release: string)

  function Id(release: string, rev: nat, s: Secret): Identity {
    Identity(rev, s.status, s.modifiedAt, SecretName(release, rev))
  }

  function In(cluster: map<string, Secrets>, release: string): Secrets {
    if release in cluster then cluster[release] else map[]
  }

  predicate IsNewest(secrets: Secrets, rev: nat) {
    rev in secrets && forall r | r in secrets :: r <= rev
  }

  predicate Enabled(w: World, a: Action) {
    match a
    case Write(_, _, _) => true
    case Trim(_, _) => true
    case Invalidate(_) => true
    case Probe(t, release, rev) => t !in w.calls && IsNewest(In(w.cluster, release), rev)
    case Hit(t) => t in w.calls && w.calls[t].Probed? && Recall(w.cache, w.calls[t].release, w.calls[t].id).Some?
    case Decode(t) =>
      && t in w.calls && w.calls[t].Probed?
      && w.calls[t].id.revision >= 0 && w.calls[t].id.revision in In(w.cluster, w.calls[t].release)
    case Store(t) => t in w.calls && w.calls[t].Decoded?
    case SlowRead(t, release, rev) =>
      (t in w.calls ==> w.calls[t].Probed? && w.calls[t].release == release) && IsNewest(In(w.cluster, release), rev)
  }

  /** The history a read keeps, after revision `rev` was written. */
  function Observe(r: Read, release: string, rev: nat, info: Info): Read {
    match r
    case Probed(rel, id, since) =>
      if rel == release && id.revision == rev then Probed(rel, id, since + {info}) else r
    case Decoded(rel, id, since, decoded) =>
      if rel == release && id.revision == rev then Decoded(rel, id, since + {info}, decoded) else r
    case Answered(_, _, _) => r
  }

  function Apply(w: World, a: Action): World
    requires Enabled(w, a)
  {
    match a
    case Write(release, rev, s) =>
      World(w.cluster[release := In(w.cluster, release)[rev := s]], w.used + {Id(release, rev, s)}, w.cache,
            map t | t in w.calls :: Observe(w.calls[t], release, rev, s.info))
    case Trim(release, rev) =>
      w.(cluster := w.cluster[release := In(w.cluster, release) - {rev}])
    case Invalidate(release) => w.(cache := w.cache - {release})
    case Probe(t, release, rev) =>
      var s := In(w.cluster, release)[rev];
      w.(calls := w.calls[t := Probed(release, Id(release, rev, s), {s.info})])
    case Hit(t) =>
      var r := w.calls[t];
      w.(calls := w.calls[t := Answered(r.release, r.since, Recall(w.cache, r.release, r.id).value)])
    case Decode(t) =>
      var r := w.calls[t];
      w.(calls := w.calls[t := Decoded(r.release, r.id, r.since, In(w.cluster, r.release)[r.id.revision].info)])
    case Store(t) =>
      var r := w.calls[t];
      World(w.cluster, w.used, w.cache[r.release := Memo(r.id, r.info)],
            w.calls[t := Answered(r.release, r.since, r.info)])
    case SlowRead(t, release, rev) =>
      var info := In(w.cluster, release)[rev].info;
      w.(calls := w.calls[t := Answered(release, {info}, info)])
  }

  /** Helm never writes a secret under labels that were used before. */
  predicate Fresh(w: World, a: Action) {
    a.Write? ==> Id(a.release, a.rev, a.secret) !in w.used
  }

  // ----- The invariant -----

  /** Whatever secret has this identity now decodes to `info`; and none will be given it again. */
  predicate Sound(w: World, release: string, id: Identity, info: Info) {
    && id in w.used
    && (id.revision in In(w.cluster, release) && Id(release, id.revision, In(w.cluster, release)[id.revision]) == id ==>
      In(w.cluster, release)[id.revision].info == info)
  }

  predicate Recorded(w: World) {
    forall release, rev | release in w.cluster && rev in w.cluster[release] ::
      Id(release, rev, w.cluster[release][rev]) in w.used
  }

  predicate CacheSound(w: World) {
    forall release | release in w.cache :: Sound(w, release, w.cache[release].identity, w.cache[release].info)
  }

  /** What a read under way has seen so far is complete: it holds whatever the revision decodes to now. */
  predicate ReadOk(w: World, r: Read) {
    match r
    case Probed(release, id, since) =>
      && id in w.used
      && (id.revision in In(w.cluster, release) ==> In(w.cluster, release)[id.revision].info in since)
      && (release in w.cache && w.cache[release].identity == id ==> w.cache[release].info in since)
    case Decoded(release, id, since, info) => info in since && Sound(w, release, id, info)
    case Answered(_, since, info) => info in since
  }

  /** A value one read is about to store under `q`'s identity is one that `q` may answer with. */
  predicate Agree(q: Read, r: Read) {
    q.Probed? && r.Decoded? && q.release == r.release && q.id == r.id ==> r.info in q.since
  }

  predicate Inv(w: World) {
    && Recorded(w)
    && CacheSound(w)
    && (forall t | t in w.calls :: ReadOk(w, w.calls[t]))
    && (forall t, u | t in w.calls && u in w.calls :: Agree(w.calls[t], w.calls[u]))
  }

  lemma WriteKeepsSound(w: World, a: Action, release: string, id: Identity, info: Info)
    requires a.Write? && Fresh(w, a) && Sound(w, release, id, info)
    ensures Sound(Apply(w, a), release, id, info)
  {
  }

  lemma WriteKeepsRead(w: World, a: Action, r: Read)
    requires a.Write? && Fresh(w, a) && ReadOk(w, r)
    ensures ReadOk(Apply(w, a), Observe(r, a.release, a.rev, a.secret.info))
  {
    if r.Decoded? {
      WriteKeepsSound(w, a, r.release, r.id, r.info);
    }
  }

  lemma WriteKeeps(w: World, a: Action)
    requires Inv(w) && a.Write? && Fresh(w, a)
    ensures Inv(Apply(w, a))
  {
    var w' := Apply(w, a);
    assert Recorded(w');
    forall release | release in w'.cache
      ensures Sound(w', release, w'.cache[release].identity, w'.cache[release].info)
    {
      WriteKeepsSound(w, a, release, w.cache[release].identity, w.cache[release].info);
    }
    forall t | t in w'.calls
      ensures ReadOk(w', w'.calls[t])
    {
      WriteKeepsRead(w, a, w.calls[t]);
    }
    forall t, u | t in w'.calls && u in w'.calls
      ensures Agree(w'.calls[t], w'.calls[u])
    {
      assert Agree(w.calls[t], w.calls[u]);
    }
  }

  lemma ForgettingKeeps(w: World, a: Action)
    requires Inv(w) && (a.Trim? || a.Invalidate?)
    ensures Inv(Apply(w, a))
  {
  }

  lemma ProbeKeeps(w: World, a: Action)
    requires Inv(w) && a.Probe? && Enabled(w, a)
    ensures Inv(Apply(w, a))
  {
    assert Id(a.release, a.rev, In(w.cluster, a.release)[a.rev]) in w.used;
  }

  lemma AnswerKeeps(w: World, a: Action)
    requires Inv(w) && (a.Hit? || a.SlowRead?) && Enabled(w, a)
    ensures Inv(Apply(w, a))
  {
  }

  lemma DecodeKeeps(w: World, a: Action)
    requires Inv(w) && a.Decode? && Enabled(w, a)
    ensures Inv(Apply(w, a))
  {
  }

  lemma StoreKeeps(w: World, a: Action)
    requires Inv(w) && a.Store? && Enabled(w, a)
    ensures Inv(Apply(w, a))
  {
  }

  lemma StepKeeps(w: World, a: Action)
    requires Inv(w) && Enabled(w, a) && Fresh(w, a)
    ensures Inv(Apply(w, a))
  {
    match a
    case Write(_, _, _) => WriteKeeps(w, a);
    case Trim(_, _) => ForgettingKeeps(w, a);
    case Invalidate(_) => ForgettingKeeps(w, a);
    case Probe(_, _, _) => ProbeKeeps(w, a);
    case Hit(_) => AnswerKeeps(w, a);
    case Decode(_) => DecodeKeeps(w, a);
    case Store(_) => StoreKeeps(w, a);
    case SlowRead(_, _, _) => AnswerKeeps(w, a);
  }

  // ----- Whole runs -----

  /** A process that has just started, over whatever Helm has written before. */
  predicate Start(w: World) {
    w.cache == map[] && w.calls == map[] && Recorded(w)
  }

  predicate Run(ws: seq<World>, acts: seq<Action>) {
    && |ws| == |acts| + 1
    && Start(ws[0])
    && forall i | 0 <= i < |acts| ::
      Enabled(ws[i], acts[i]) && Fresh(ws[i], acts[i]) && ws[i + 1] == Apply(ws[i], acts[i])
  }

  lemma {:induction false} RunKeeps(ws: seq<World>, acts: seq<Action>, k: nat)
    requires Run(ws, acts) && k < |ws|
    ensures Inv(ws[k])
  {
    if k > 0 {
      RunKeeps(ws, acts, k - 1);
      StepKeeps(ws[k - 1], acts[k - 1]);
      assert ws[k - 1 + 1] == ws[k];
    }
  }

  /** At some moment from `i` to `k` the revision decoded to `info`. */
  ghost predicate HeldBetween(ws: seq<World>, i: nat, k: nat, release: string, rev: nat, info: Info)
    requires k < |ws|
  {
    exists m | i <= m <= k :: Held(ws[m], release, rev, info)
  }

  predicate Held(w: World, release: string, rev: nat, info: Info) {
    rev in In(w.cluster, release) && In(w.cluster, release)[rev].info == info
  }

  /** What a call under way records is what its revision has decoded to since the probe. */
  ghost predicate Tracked(ws: seq<World>, i: nat, k: nat, release: string, rev: nat, r: Read)
    requires k < |ws|
  {
    !r.Answered? ==>
      && r.release == release && r.id.revision == rev
      && forall info | info in r.since :: HeldBetween(ws, i, k, release, rev, info)
  }

  lemma StepTracks(ws: seq<World>, acts: seq<Action>, i: nat, t: nat, release: string, rev: nat, k: nat)
    requires Run(ws, acts) && i < k < |acts|
    requires t in ws[k].calls && Tracked(ws, i, k, release, rev, ws[k].calls[t])
    ensures t in ws[k + 1].calls && Tracked(ws, i, k + 1, release, rev, ws[k + 1].calls[t])
  {
    var r, r' := ws[k].calls[t], ws[k + 1].calls[t];
    if !r'.Answered? {
      forall info | info in r'.since
        ensures HeldBetween(ws, i, k + 1, release, rev, info)
      {
        if info in r.since {
          var m :| i <= m <= k && Held(ws[m], release, rev, info);
          assert Held(ws[m], release, rev, info);
        } else {
          assert Held(ws[k + 1], release, rev, info);
        }
      }
    }
  }

  lemma {:induction false} CallTracks(ws: seq<World>, acts: seq<Action>, i: nat, t: nat, release: string, rev: nat,
                                      k: nat)
    requires Run(ws, acts) && i < k < |ws| && acts[i] == Probe(t, release, rev)
    ensures t in ws[k].calls && Tracked(ws, i, k, release, rev, ws[k].calls[t])
  {
    if k == i + 1 {
      assert Held(ws[i], release, rev, In(ws[i].cluster, release)[rev].info);
    } else {
      CallTracks(ws, acts, i, t, release, rev, k - 1);
      StepTracks(ws, acts, i, t, release, rev, k - 1);
      assert ws[k - 1 + 1] == ws[k];
    }
  }

  /**
   * Whatever is written meanwhile and whatever other reads store, an answer from the memo or from a
   * fresh decode is what the revision found newest decoded to at some moment of this very call.
   */
  lemma AnswerWasTrue(ws: seq<World>, acts: seq<Action>, i: nat, j: nat, t: nat, release: string, rev: nat)
    requires Run(ws, acts) && i < j < |acts|
    requires acts[i] == Probe(t, release, rev) && (acts[j] == Hit(t) || acts[j] == Store(t))
    ensures IsNewest(In(ws[i].cluster, release), rev)
    ensures t in ws[j + 1].calls && HeldBetween(ws, i, j, release, rev, ws[j + 1].calls[t].info)
  {
    CallTracks(ws, acts, i, t, release, rev, j);
    RunKeeps(ws, acts, j);
    assert ReadOk(ws[j], ws[j].calls[t]);
    assert ws[j + 1] == Apply(ws[j], acts[j]);
  }

  /** With no write to the release during the call, that is what the slow read returns. */
  lemma AnswerIsNewest(ws: seq<World>, acts: seq<Action>, i: nat, j: nat, t: nat, release: string, rev: nat)
    requires Run(ws, acts) && i < j < |acts|
    requires acts[i] == Probe(t, release, rev) && (acts[j] == Hit(t) || acts[j] == Store(t))
    requires forall m | i <= m <= j :: In(ws[m].cluster, release) == In(ws[i].cluster, release)
    ensures t in ws[j + 1].calls && IsNewest(In(ws[j].cluster, release), rev)
    ensures ws[j + 1].calls[t].info == In(ws[j].cluster, release)[rev].info
  {
    AnswerWasTrue(ws, acts, i, j, t, release, rev);
    var m :| i <= m <= j && Held(ws[m], release, rev, ws[j + 1].calls[t].info);
    assert In(ws[m].cluster, release) == In(ws[i].cluster, release);
  }

  /** At some moment from `i` to `j` the newest revision decoded to `info`. */
  ghost predicate WasNewest(ws: seq<World>, i: nat, j: nat, release: string, info: Info)
    requires j < |ws|
  {
    exists m | i <= m <= j :: NewestHolds(ws[m], release, info)
  }

  ghost predicate NewestHolds(w: World, release: string, info: Info) {
    exists rev :: IsNewest(In(w.cluster, release), rev) && In(w.cluster, release)[rev].info == info
  }

  /** Revision `rev` is rewritten with `info` while a newer one stands. */
  predicate Rewritten(w: World, a: Action, release: string, rev: nat, info: Info) {
    && a.Write? && a.release == release && a.rev == rev && a.secret.info == info
    && exists r | r in In(w.cluster, release) :: r > rev
  }

  ghost predicate Overtaken(ws: seq<World>, acts: seq<Action>, i: nat, j: nat, release: string, rev: nat, info: Info)
    requires j <= |acts| && j < |ws|
  {
    exists k | i <= k < j :: Rewritten(ws[k], acts[k], release, rev, info)
  }

  /** What a revision holds that was newest at `i`, it held as the newest, unless it was written while a
      newer one stood. */
  lemma {:induction false} HeldAsNewest(ws: seq<World>, acts: seq<Action>, i: nat, m: nat, j: nat, release: string,
                                        rev: nat, info: Info)
    requires Run(ws, acts) && i <= m <= j <= |acts|
    requires IsNewest(In(ws[i].cluster, release), rev) && Held(ws[m], release, rev, info)
    requires !Overtaken(ws, acts, i, j, release, rev, info)
    ensures WasNewest(ws, i, j, release, info)
    decreases m
  {
    if m == i {
      assert NewestHolds(ws[i], release, info);
    } else {
      var a := acts[m - 1];
      assert ws[m] == Apply(ws[m - 1], a);
      if a.Write? && a.release == release && a.rev == rev {
        assert !Rewritten(ws[m - 1], a, release, rev, info);
        assert IsNewest(In(ws[m].cluster, release), rev);
        assert NewestHolds(ws[m], release, info);
      } else {
        assert Held(ws[m - 1], release, rev, info);
        HeldAsNewest(ws, acts, i, m - 1, j, release, rev, info);
      }
    }
  }

  /** What a revision holds stood there at `i` or was written there since. */
  lemma {:induction false} WrittenThere(ws: seq<World>, acts: seq<Action>, i: nat, m: nat, release: string, rev: nat,
                                        info: Info)
      returns (k: nat)
    requires Run(ws, acts) && i <= m <= |acts| && Held(ws[m], release, rev, info)
    requires forall r | r in In(ws[i].cluster, release) :: In(ws[i].cluster, release)[r].info != info
    ensures i <= k < m && acts[k].Write? && acts[k].release == release && acts[k].rev == rev &&
      acts[k].secret.info == info
    decreases m
  {
    var a := acts[m - 1];
    assert ws[m] == Apply(ws[m - 1], a);
    if a.Write? && a.release == release && a.rev == rev {
      k := m - 1;
    } else {
      assert Held(ws[m - 1], release, rev, info);
      k := WrittenThere(ws, acts, i, m - 1, release, rev, info);
    }
  }

  /** No newer revision than `rev` goes away during the call. */
  predicate NewerStay(acts: seq<Action>, i: nat, j: nat, release: string, rev: nat)
    requires j <= |acts|
  {
    forall k | i <= k < j && acts[k].Trim? && acts[k].release == release :: acts[k].rev <= rev
  }

  lemma {:induction false} NewerStays(ws: seq<World>, acts: seq<Action>, k: nat, m: nat, release: string, rev: nat,
                                      r: nat)
    requires Run(ws, acts) && k <= m <= |acts| && NewerStay(acts, k, m, release, rev)
    requires r in In(ws[k].cluster, release) && r > rev
    ensures r in In(ws[m].cluster, release)
    decreases m
  {
    if k < m {
      NewerStays(ws, acts, k, m - 1, release, rev, r);
      assert ws[m] == Apply(ws[m - 1], acts[m - 1]);
    }
  }

  /** Every write to the release during the call has contents of its own. */
  predicate OwnContents(ws: seq<World>, acts: seq<Action>, i: nat, j: nat, release: string)
    requires i < |ws| && j <= |acts|
  {
    && (forall k, l | i <= k < l < j && acts[k].Write? && acts[l].Write? &&
          acts[k].release == release && acts[l].release == release :: acts[k].secret.info != acts[l].secret.info)
    && (forall k, r | i <= k < j && acts[k].Write? && acts[k].release == release && r in In(ws[i].cluster, release) ::
          acts[k].secret.info != In(ws[i].cluster, release)[r].info)
  }

  lemma OvertakenIsNever(ws: seq<World>, acts: seq<Action>, i: nat, j: nat, release: string, rev: nat, info: Info)
    requires Run(ws, acts) && i <= j <= |acts|
    requires OwnContents(ws, acts, i, j, release) && NewerStay(acts, i, j, release, rev)
    requires Overtaken(ws, acts, i, j, release, rev, info)
    ensures !WasNewest(ws, i, j, release, info)
  {
    var k :| i <= k < j && Rewritten(ws[k], acts[k], release, rev, info);
    var r :| r in In(ws[k].cluster, release) && r > rev;
    forall m, other | i <= m <= j && IsNewest(In(ws[m].cluster, release), other)
      ensures In(ws[m].cluster, release)[other].info != info
    {
      NotWhileOvertaken(ws, acts, i, j, release, rev, info, k, r, m, other);
    }
  }

  lemma NotWhileOvertaken(ws: seq<World>, acts: seq<Action>, i: nat, j: nat, release: string, rev: nat, info: Info,
                          k: nat, r: nat, m: nat, other: nat)
    requires Run(ws, acts) && i <= k < j <= |acts| && i <= m <= j
    requires OwnContents(ws, acts, i, j, release) && NewerStay(acts, i, j, release, rev)
    requires Rewritten(ws[k], acts[k], release, rev, info) && r in In(ws[k].cluster, release) && r > rev
    requires IsNewest(In(ws[m].cluster, release), other)
    ensures In(ws[m].cluster, release)[other].info != info
  {
    if In(ws[m].cluster, release)[other].info == info {
      assert Held(ws[m], release, other, info);
      var l := WrittenThere(ws, acts, i, m, release, other, info);
      assert l == k;
      NewerStays(ws, acts, k, m, release, rev, r);
      assert false;
    }
  }

  /** Exactly when an answer was the newest release at some moment of its call: the probed revision was not
      given these contents while a newer one stood. */
  lemma AnswerWasNewest(ws: seq<World>, acts: seq<Action>, i: nat, j: nat, t: nat, release: string, rev: nat)
    requires Run(ws, acts) && i < j < |acts|
    requires acts[i] == Probe(t, release, rev) && (acts[j] == Hit(t) || acts[j] == Store(t))
    ensures t in ws[j + 1].calls && ws[j + 1].calls[t].Answered?
    ensures var info := ws[j + 1].calls[t].info;
      && (!Overtaken(ws, acts, i, j, release, rev, info) ==> WasNewest(ws, i, j, release, info))
      && (OwnContents(ws, acts, i, j, release) && NewerStay(acts, i, j, release, rev) ==>
            (WasNewest(ws, i, j, release, info) <==> !Overtaken(ws, acts, i, j, release, rev, info)))
  {
    AnswerWasTrue(ws, acts, i, j, t, release, rev);
    assert ws[j + 1] == Apply(ws[j], acts[j]);
    var info := ws[j + 1].calls[t].info;
    if !Overtaken(ws, acts, i, j, release, rev, info) {
      var m :| i <= m <= j && Held(ws[m], release, rev, info);
      HeldAsNewest(ws, acts, i, m, j, release, rev, info);
    } else if OwnContents(ws, acts, i, j, release) && NewerStay(acts, i, j, release, rev) {
      OvertakenIsNever(ws, acts, i, j, release, rev, info);
    }
  }

  /** The memo never answers for a secret that stands with something else than its contents. */
  lemma HitDecodesTheSecret(ws: seq<World>, acts: seq<Action>, k: nat, release: string, rev: nat)
    requires Run(ws, acts) && k < |ws| && rev in In(ws[k].cluster, release)
    ensures var s := In(ws[k].cluster, release)[rev];
      var hit := Recall(ws[k].cache, release, Id(release, rev, s));
      hit.Some? ==> hit.value == s.info
  {
    RunKeeps(ws, acts, k);
  }

  /** What the probe sees of a release: one label per secret, in the order the API lists them. */
  predicate Lists(items: seq<Label>, release: string, secrets: Secrets) {
    && (forall i | 0 <= i < |items| :: exists rev | rev in secrets :: items[i] == LabelOf(release, rev, secrets[rev]))
    && (forall rev | rev in secrets :: LabelOf(release, rev, secrets[rev]) in items)
  }

  function LabelOf(release: string, rev: nat, s: Secret): Label {
    Label(SecretName(release, rev), Decimal(rev), s.status, s.modifiedAt)
  }

  /** The probe's answer is the identity of the newest secret. */
  lemma ProbeSeesNewest(items: seq<Label>, i: nat, release: string, secrets: Secrets)
    requires Lists(items, release, secrets) && forall rev | rev in secrets :: rev <= MAX_INT
    requires i < |items| && Newest(items, i)
    ensures exists rev :: IsNewest(secrets, rev) && IdentityOf(items[i]) == Some(Id(release, rev, secrets[rev]))
  {
    var rev :| rev in secrets && items[i] == LabelOf(release, rev, secrets[rev]);
    AtoiOfDecimal(rev);
    forall r | r in secrets
      ensures r <= rev
    {
      AtoiOfDecimal(r);
      var j :| 0 <= j < |items| && items[j] == LabelOf(release, r, secrets[r]);
      assert Revision(items[j]) == r;
    }
    assert IsNewest(secrets, rev);
  }

  /** The run of `acts` from `w`; none when some action is not enabled. */
  function Play(w: World, acts: seq<Action>): Option<World>
    decreases |acts|
  {
    if acts == [] then Some(w)
    else if Enabled(w, acts[0]) then Play(Apply(w, acts[0]), acts[1..])
    else None
  }

  lemma PlayStep(w: World, a: Action, acts: seq<Action>)
    requires Enabled(w, a)
    ensures Play(w, [a] + acts) == Play(Apply(w, a), acts)
  {
    assert ([a] + acts)[1..] == acts;
  }

  lemma WriteOver(w: World, release: string, rev: nat, before: Secret, s: Secret)
    requires w.cluster == map[release := map[rev := before]]
    ensures Apply(w, Write(release, rev, s)).cluster == map[release := map[rev := s]]
  {
    assert In(w.cluster, release)[rev := s] == map[rev := s];
  }

  /** The action list of `ReusedIdentityMisleads`. */
  function Reuse(release: string, rev: nat, s: Secret, between: Secret): seq<Action> {
    [Write(release, rev, s)] + ([Probe(0, release, rev)] + ([Write(release, rev, between)] + ([Decode(0)] +
    ([Store(0)] + ([Write(release, rev, s)] + ([Probe(1, release, rev)] + ([Hit(1)] + [])))))))
  }

  /**
   * That labels are never used again is needed: were a secret rewritten and then given its first labels
   * and contents again, a read that probed first and decoded in between would leave the wrong contents
   * under them, and the next read would get those.
   */
  lemma ReusedIdentityMisleads(release: string, rev: nat, s: Secret, between: Secret)
    requires Id(release, rev, s) != Id(release, rev, between) && s.info != between.info
    ensures var end := Play(World(map[], {}, map[], map[]), Reuse(release, rev, s, between));
      && end.Some?
      && In(end.value.cluster, release) == map[rev := s]
      && 1 in end.value.calls && end.value.calls[1] == Answered(release, {s.info}, between.info)
  {
    var id := Id(release, rev, s);
    var w0 := World(map[], {}, map[], map[]);
    var w1 := Apply(w0, Write(release, rev, s));
    assert w1.cluster == map[release := map[rev := s]];
    var w2 := Apply(w1, Probe(0, release, rev));
    assert w2.calls == map[0 := Probed(release, id, {s.info})];
    var w3 := Apply(w2, Write(release, rev, between));
    WriteOver(w2, release, rev, s, between);
    assert {s.info} + {between.info} == {s.info, between.info};
    assert w3.calls == map[0 := Probed(release, id, {s.info, between.info})];
    var w4 := Apply(w3, Decode(0));
    var w5 := Apply(w4, Store(0));
    assert w5.cache == map[release := Memo(id, between.info)];
    var w6 := Apply(w5, Write(release, rev, s));
    WriteOver(w5, release, rev, between, s);
    var w7 := Apply(w6, Probe(1, release, rev));
    assert w7.calls[1] == Probed(release, id, {s.info});
    var w8 := Apply(w7, Hit(1));
    var none: seq<Action> := [];
    var last1 := [Hit(1)] + none;
    var last2 := [Probe(1, release, rev)] + last1;
    var last3 := [Write(release, rev, s)] + last2;
    var last4 := [Store(0)] + last3;
    var last5 := [Decode(0)] + last4;
    var last6 := [Write(release, rev, between)] + last5;
    var last7 := [Probe(0, release, rev)] + last6;
    PlayStep(w7, Hit(1), none);
    PlayStep(w6, Probe(1, release, rev), last1);
    PlayStep(w5, Write(release, rev, s), last2);
    PlayStep(w4, Store(0), last3);
    PlayStep(w3, Decode(0), last4);
    PlayStep(w2, Write(release, rev, between), last5);
    PlayStep(w1, Probe(0, release, rev), last6);
    PlayStep(w0, Write(release, rev, s), last7);
  }

  /** The newest revision, if any, decodes to something else than `info`. */
  ghost predicate NotNewest(w: World, release: string, info: Info) {
    forall rev | IsNewest(In(w.cluster, release), rev) :: In(w.cluster, release)[rev].info != info
  }

  ghost predicate NeverNewest(ws: seq<World>, release: string, info: Info) {
    forall k | 0 <= k < |ws| :: NotNewest(ws[k], release, info)
  }

  /** A run goes on with an action that is enabled. */
  lemma GoOn(ws: seq<World>, acts: seq<Action>, a: Action, w: World, release: string, info: Info)
    requires Run(ws, acts) && NeverNewest(ws, release, info)
    requires Enabled(ws[|acts|], a) && Fresh(ws[|acts|], a) && w == Apply(ws[|acts|], a)
    requires NotNewest(w, release, info)
    ensures Run(ws + [w], acts + [a]) && NeverNewest(ws + [w], release, info)
  {
    var more, all := ws + [w], acts + [a];
    assert more[0] == ws[0];
    forall i | 0 <= i < |all|
      ensures Enabled(more[i], all[i]) && Fresh(more[i], all[i]) && more[i + 1] == Apply(more[i], all[i])
    {
      if i < |acts| {
        assert more[i] == ws[i] && more[i + 1] == ws[i + 1] && all[i] == acts[i];
      }
    }
  }

  /** A revision is written, probed, and a newer one is written. */
  lemma ProbedThenUpgraded(release: string, rev: nat, s: Secret, newer: Secret, info: Info)
      returns (ws: seq<World>, acts: seq<Action>, w: World)
    requires s.info != info && newer.info != info
    ensures Run(ws, acts) && NeverNewest(ws, release, info) && |acts| == 3 && acts[1] == Probe(0, release, rev) &&
      w == ws[3]
    ensures In(w.cluster, release) == map[rev := s, rev + 1 := newer]
    ensures w.used == {Id(release, rev, s), Id(release, rev + 1, newer)}
    ensures 0 in w.calls && w.calls[0] == Probed(release, Id(release, rev, s), {s.info})
  {
    var w0 := World(map[], {}, map[], map[]);
    ws, acts := [w0], [];
    var w1 := Apply(w0, Write(release, rev, s));
    assert In(w1.cluster, release) == map[rev := s];
    GoOn(ws, acts, Write(release, rev, s), w1, release, info);
    ws, acts := ws + [w1], acts + [Write(release, rev, s)];
    var w2 := Apply(w1, Probe(0, release, rev));
    GoOn(ws, acts, Probe(0, release, rev), w2, release, info);
    ws, acts := ws + [w2], acts + [Probe(0, release, rev)];
    w := Apply(w2, Write(release, rev + 1, newer));
    assert In(w.cluster, release) == map[rev := s, rev + 1 := newer];
    assert rev + 1 in In(w.cluster, release);
    GoOn(ws, acts, Write(release, rev + 1, newer), w, release, info);
    ws, acts := ws + [w], acts + [Write(release, rev + 1, newer)];
  }

  /**
   * What the answer was at some moment need not have been the newest release at any: while a read is
   * between its probe and its decode, an upgrade adds a revision and then supersedes the probed one.
   */
  lemma SupersededAnswer(release: string, rev: nat, s: Secret, newer: Secret, superseded: Secret)
      returns (ws: seq<World>, acts: seq<Action>)
    requires Id(release, rev, s) != Id(release, rev, superseded)
    requires s.info != superseded.info && newer.info != superseded.info
    ensures Run(ws, acts) && |acts| == 6 && acts[1] == Probe(0, release, rev) && acts[5] == Store(0)
    ensures 0 in ws[6].calls && ws[6].calls[0].Answered? && ws[6].calls[0].info == superseded.info
    ensures NeverNewest(ws, release, superseded.info)
  {
    var w, info := World(map[], {}, map[], map[]), superseded.info;
    ws, acts, w := ProbedThenUpgraded(release, rev, s, newer, info);
    var w4 := Supersede(ws, acts, w, release, rev, s, newer, superseded);
    ws, acts := ws + [w4], acts + [Write(release, rev, superseded)];
    ws, acts := DecodeAndStore(ws, acts, w4, release, rev, info);
  }

  /** The probed revision is rewritten while a newer one stands. */
  lemma Supersede(ws: seq<World>, acts: seq<Action>, w: World, release: string, rev: nat,
                  s: Secret, newer: Secret, superseded: Secret) returns (after: World)
    requires Run(ws, acts) && NeverNewest(ws, release, superseded.info) && w == ws[|acts|]
    requires In(w.cluster, release) == map[rev := s, rev + 1 := newer] && newer.info != superseded.info
    requires Id(release, rev, superseded) !in w.used
    requires 0 in w.calls && w.calls[0] == Probed(release, Id(release, rev, s), {s.info})
    ensures Run(ws + [after], acts + [Write(release, rev, superseded)])
    ensures NeverNewest(ws + [after], release, superseded.info)
    ensures rev in In(after.cluster, release) && In(after.cluster, release)[rev] == superseded
    ensures 0 in after.calls && after.calls[0].Probed? && after.calls[0].release == release
    ensures after.calls[0].id.revision == rev
  {
    after := Apply(w, Write(release, rev, superseded));
    assert In(after.cluster, release) == map[rev := superseded, rev + 1 := newer];
    assert rev + 1 in In(after.cluster, release);
    GoOn(ws, acts, Write(release, rev, superseded), after, release, superseded.info);
  }

  /** A read that decodes and stores ends with what its revision held. */
  lemma DecodeAndStore(before: seq<World>, soFar: seq<Action>, w: World, release: string, rev: nat, info: Info)
      returns (ws: seq<World>, acts: seq<Action>)
    requires Run(before, soFar) && NeverNewest(before, release, info) && w == before[|soFar|]
    requires 0 in w.calls && w.calls[0].Probed? && w.calls[0].release == release && w.calls[0].id.revision == rev
    requires rev in In(w.cluster, release) && In(w.cluster, release)[rev].info == info
    ensures Run(ws, acts) && NeverNewest(ws, release, info)
    ensures acts == soFar + [Decode(0)] + [Store(0)]
    ensures 0 in ws[|acts|].calls && ws[|acts|].calls[0].Answered? && ws[|acts|].calls[0].info == info
  {
    var w5 := Apply(w, Decode(0));
    assert NotNewest(w, release, info);
    GoOn(before, soFar, Decode(0), w5, release, info);
    ws, acts := before + [w5], soFar + [Decode(0)];
    var w6 := Apply(w5, Store(0));
    GoOn(ws, acts, Store(0), w6, release, info);
    ws, acts := ws + [w6], acts + [Store(0)];
  }
}
