// Reading Helm's release secrets from their labels alone: which revision a secret holds, and which is
// the newest one.
module ReleaseProbe {
  import opened Values

  /** What one secret's name and labels show without decoding its payload. */
  datatype Label = Label(secretName: string, version: string, status: string, modifiedAt: string)

  datatype Identity = Identity(revision: int, status: string, modifiedAt: string, secretName: string)

  const MAX_INT := 0x7FFF_FFFF_FFFF_FFFF

  predicate Digit(c: char) {
    '0' <= c <= '9'
  }

  predicate Digits(s: string) {
    forall i | 0 <= i < |s| :: Digit(s[i])
  }

  function Number(s: string): (n: nat)
    requires Digits(s)
  {
    if s == [] then 0 else 10 * Number(s[..|s| - 1]) + (s[|s| - 1] as int - '0' as int)
  }

  /** A number as the machine word `int` reads it: an optional sign, digits, and no overflow. */
  function Atoi(s: string): Option<int> {
    var body := if s != [] && (s[0] == '+' || s[0] == '-') then s[1..] else s;
    if body == [] || !Digits(body) then None
    else
      var size: int := Number(body);
      var n := if s[0] == '-' then -size else size;
      if -MAX_INT - 1 <= n <= MAX_INT then Some(n) else None
  }

  /** Digits after an optional sign are read as that number while it fits 64 bits; nothing else is read. */
  lemma AtoiIs(sign: string, digits: string)
    requires sign in ["", "+", "-"] && digits != "" && Digits(digits)
    ensures
      var v := if sign == "-" then 0 - Number(digits) else Number(digits);
      Atoi(sign + digits) ==
        if -0x8000_0000_0000_0000 <= v <= 0x7FFF_FFFF_FFFF_FFFF then Some(v) else None
  {
    assert sign == "" ==> sign + digits == digits && Digit(digits[0]);
    assert sign != "" ==> (sign + digits)[1..] == digits;
  }

  lemma AtoiReads(s: string)
    requires Atoi(s).Some?
    ensures exists sign, digits :: s == sign + digits && sign in ["", "+", "-"] && digits != "" && Digits(digits)
  {
    if s[0] == '+' || s[0] == '-' {
      assert s == [s[0]] + s[1..];
      assert [s[0]] == "+" || [s[0]] == "-";
    } else {
      assert s == "" + s;
    }
  }

  /** Where the last ".v" begins. */
  function LastDotV(s: string): (r: Option<nat>)
    ensures r.Some? ==> r.value + 2 <= |s| && s[r.value] == '.' && s[r.value + 1] == 'v'
    ensures forall i | (if r.Some? then r.value else -1) < i < |s| - 1 :: !(s[i] == '.' && s[i + 1] == 'v')
  {
    if |s| < 2 then None
    else if s[|s| - 2] == '.' && s[|s| - 1] == 'v' then Some(|s| - 2)
    else LastDotV(s[..|s| - 1])
  }

  function RevisionOf(secretName: string, versionLabel: string): Option<int> {
    var fromLabel := Atoi(versionLabel);
    if fromLabel.Some? then fromLabel
    else
      var i := LastDotV(secretName);
      if i.Some? then Atoi(secretName[i.value + 2..]) else None
  }

  /** A revision number written out, as Helm writes it in the label and in the secret's name. */
  function Decimal(n: nat): (s: string)
    ensures s != [] && Digits(s) && Number(s) == n
  {
    var last := [('0' as int + n % 10) as char];
    if n < 10 then last
    else
      var s := Decimal(n / 10) + last;
      assert s[..|s| - 1] == Decimal(n / 10);
      s
  }

  function SecretName(release: string, revision: nat): string {
    "sh.helm.release.v1." + release + ".v" + Decimal(revision)
  }

  lemma {:induction false} DigitsHideNoDotV(front: string, digits: string)
    requires Digits(digits)
    ensures LastDotV(front + ".v" + digits) == Some(|front|)
  {
    var s := front + ".v" + digits;
    if digits == [] {
      assert s == front + ".v";
    } else {
      var shorter := digits[..|digits| - 1];
      assert s[..|s| - 1] == front + ".v" + shorter;
      assert Digit(s[|s| - 1]);
      DigitsHideNoDotV(front, shorter);
    }
  }

  lemma AtoiOfDecimal(n: nat)
    requires n <= MAX_INT
    ensures Atoi(Decimal(n)) == Some(n)
  {
    assert Digit(Decimal(n)[0]);
  }

  /** Either source alone is enough to recognise a revision. */
  lemma RevisionOfHelmSecret(release: string, n: nat, versionLabel: string)
    requires n <= MAX_INT
    requires versionLabel == Decimal(n) || Atoi(versionLabel).None?
    ensures RevisionOf(SecretName(release, n), versionLabel) == Some(n)
  {
    AtoiOfDecimal(n);
    if Atoi(versionLabel).None? {
      var front := "sh.helm.release.v1." + release;
      DigitsHideNoDotV(front, Decimal(n));
      assert SecretName(release, n)[|front| + 2..] == Decimal(n);
    }
  }

  /** The identity a listed secret has, if it is a revision at all. */
  function IdentityOf(l: Label): Option<Identity> {
    var rev := RevisionOf(l.secretName, l.version);
    if rev.Some? then Some(Identity(rev.value, l.status, l.modifiedAt, l.secretName)) else None
  }

  function Revision(l: Label): int {
    var id := IdentityOf(l);
    if id.Some? then id.value.revision else -1
  }

  /** Entry `i` is the highest revision of the list, and the first of those. */
  predicate Newest(items: seq<Label>, i: nat)
    requires i < |items|
  {
    && 0 <= Revision(items[i])
    && (forall j | 0 <= j < |items| :: Revision(items[j]) <= Revision(items[i]))
    && (forall j | 0 <= j < i :: Revision(items[j]) < Revision(items[i]))
  }

  method ProbeNewest(items: seq<Label>) returns (best: Option<Identity>)
    ensures best.Some? ==> exists i: nat | i < |items| :: Newest(items, i) && IdentityOf(items[i]) == best
    ensures best.None? <==> forall i | 0 <= i < |items| :: Revision(items[i]) < 0
  {
    var found := Identity(-1, "", "", "");
    ghost var at: nat := 0;
    for k := 0 to |items|
      invariant -1 <= found.revision
      invariant forall j | 0 <= j < k :: Revision(items[j]) <= found.revision
      invariant found.revision >= 0 ==> at < k && IdentityOf(items[at]) == Some(found)
      invariant found.revision >= 0 ==> forall j | 0 <= j < at :: Revision(items[j]) < found.revision
    {
      var rev := RevisionOf(items[k].secretName, items[k].version);
      if rev.None? || rev.value <= found.revision {
        continue;
      }
      found := Identity(rev.value, items[k].status, items[k].modifiedAt, items[k].secretName);
      at := k;
    }
    if found.revision < 0 {
      return None;
    }
    assert Newest(items, at);
    best := Some(found);
  }
}
