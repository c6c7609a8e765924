/** Candidate records and the loosely typed JSON values that travel between the
    dashboard and the API routes. A `Profile` is the typed row of the Candidate
    table; a `Value` is what a JSON payload (`newData`, an update object) holds
    for one column, before the database checks it against the column's type. */
module Values {

  datatype Option<T> = None | Some(value: T) {
    function GetOr(default: T): T {
      match this
      case Some(v) => v
      case None => default
    }
  }

  /** The ten editable columns of a candidate. */
  datatype Key =
    | FullName | Email | Birthdate | Gender | Experience
    | Skills | Address | FitScore | Strengths | Weaknesses

  const AllKeys: set<Key> :=
    {FullName, Email, Birthdate, Gender, Experience, Skills, Address, FitScore, Strengths, Weaknesses}

  lemma AllKeysComplete()
    ensures forall k: Key :: k in AllKeys
  {
    forall k: Key ensures k in AllKeys {
      match k
      case FullName => case Email => case Birthdate => case Gender => case Experience =>
      case Skills => case Address => case FitScore => case Strengths => case Weaknesses =>
    }
  }

  /** A JSON value as it can appear for one column. */
  datatype Value = VNull | VStr(s: string) | VNum(n: int) | VList(items: seq<string>)

  /** The typed candidate columns. Dates are kept as their ISO text. */
  datatype Profile = Profile(
    full_name: string,
    email: string,
    birthdate: Option<string>,
    gender: Option<string>,
    experience: Option<int>,
    skills: seq<string>,
    address: Option<string>,
    fit_score: Option<int>,
    strengths: seq<string>,
    weaknesses: seq<string>)

  function OptStr(o: Option<string>): Value {
    match o
    case Some(s) => VStr(s)
    case None => VNull
  }

  function OptNum(o: Option<int>): Value {
    match o
    case Some(n) => VNum(n)
    case None => VNull
  }

  /** The column `k` of `p`, as a JSON value (a null column reads as `VNull`). */
  function Read(p: Profile, k: Key): Value {
    match k
    case FullName => VStr(p.full_name)
    case Email => VStr(p.email)
    case Birthdate => OptStr(p.birthdate)
    case Gender => OptStr(p.gender)
    case Experience => OptNum(p.experience)
    case Skills => VList(p.skills)
    case Address => OptStr(p.address)
    case FitScore => OptNum(p.fit_score)
    case Strengths => VList(p.strengths)
    case Weaknesses => VList(p.weaknesses)
  }

  /** The database accepts `v` for column `k`: required text columns take a string,
      the date column a non-empty date text or null, optional text columns a string
      or null, numeric columns a number or null, list columns a list. */
  predicate Fits(k: Key, v: Value) {
    match k
    case FullName => v.VStr?
    case Email => v.VStr?
    case Birthdate => v.VNull? || (v.VStr? && v.s != "")
    case Gender => v.VNull? || v.VStr?
    case Experience => v.VNull? || v.VNum?
    case Skills => v.VList?
    case Address => v.VNull? || v.VStr?
    case FitScore => v.VNull? || v.VNum?
    case Strengths => v.VList?
    case Weaknesses => v.VList?
  }

  predicate AllFit(data: map<Key, Value>) {
    forall k | k in data :: Fits(k, data[k])
  }

  function StrOf(v: Value): string requires v.VStr? || v.VNull? {
    if v.VStr? then v.s else ""
  }

  function OptStrOf(v: Value): Option<string> {
    if v.VStr? then Some(v.s) else None
  }

  function OptNumOf(v: Value): Option<int> {
    if v.VNum? then Some(v.n) else None
  }

  function ListOf(v: Value): seq<string> {
    if v.VList? then v.items else []
  }

  /** The value written to column `k`: the one in `data` if present, else the old one. */
  function Column(p: Profile, data: map<Key, Value>, k: Key): Value {
    if k in data then data[k] else Read(p, k)
  }

  /** A write of the object `data` onto the row `p`, as the database performs an
      update (or a create, when `data` names every column): `None` when some value
      does not fit its column, otherwise the row with exactly the named columns
      replaced. */
  function ApplyUpdate(p: Profile, data: map<Key, Value>): (r: Option<Profile>)
    ensures r.Some? <==> AllFit(data)
    ensures r.Some? ==> forall k :: Read(r.value, k) == Column(p, data, k)
  {
    if !AllFit(data) then None
    else
      var q := Profile(
        StrOf(Column(p, data, FullName)),
        StrOf(Column(p, data, Email)),
        OptStrOf(Column(p, data, Birthdate)),
        OptStrOf(Column(p, data, Gender)),
        OptNumOf(Column(p, data, Experience)),
        ListOf(Column(p, data, Skills)),
        OptStrOf(Column(p, data, Address)),
        OptNumOf(Column(p, data, FitScore)),
        ListOf(Column(p, data, Strengths)),
        ListOf(Column(p, data, Weaknesses)));
      Some(q)
  }

  /** A row is determined by its columns. */
  lemma {:induction false} ProfileByColumns(p: Profile, q: Profile)
    requires forall k :: Read(p, k) == Read(q, k)
    ensures p == q
  {
    assert Read(p, FullName) == Read(q, FullName);
    assert Read(p, Email) == Read(q, Email);
    assert Read(p, Birthdate) == Read(q, Birthdate);
    assert Read(p, Gender) == Read(q, Gender);
    assert Read(p, Experience) == Read(q, Experience);
    assert Read(p, Skills) == Read(q, Skills);
    assert Read(p, Address) == Read(q, Address);
    assert Read(p, FitScore) == Read(q, FitScore);
    assert Read(p, Strengths) == Read(q, Strengths);
    assert Read(p, Weaknesses) == Read(q, Weaknesses);
  }

  /** A write that names every column does not depend on the row it overwrites. */
  lemma {:induction false} FullWriteIgnoresRow(p: Profile, q: Profile, data: map<Key, Value>)
    requires forall k :: k in data
    ensures ApplyUpdate(p, data) == ApplyUpdate(q, data)
  {
    if AllFit(data) {
      var a, b := ApplyUpdate(p, data).value, ApplyUpdate(q, data).value;
      forall k ensures Read(a, k) == Read(b, k) { }
      ProfileByColumns(a, b);
    }
  }

  /** JavaScript truthiness of a JSON value (an array is always truthy). */
  predicate Truthy(v: Value) {
    match v
    case VNull => false
    case VStr(s) => s != ""
    case VNum(n) => n != 0
    case VList(_) => true
  }

  predicate NoDups<T(==)>(s: seq<T>) {
    forall i, j | 0 <= i < j < |s| :: s[i] != s[j]
  }

  /** `Array.from(new Set(s))`: the elements of `s` in order of first occurrence. */
  function Dedup<T(==)>(s: seq<T>): (r: seq<T>)
    decreases |s|
  {
    if s == [] then []
    else
      var d := Dedup(s[..|s| - 1]);
      if s[|s| - 1] in d then d else d + [s[|s| - 1]]
  }

  /** The position of the first occurrence of `x` in `s`. */
  function FirstIndex<T(==)>(s: seq<T>, x: T): (i: nat)
    requires x in s
    ensures i < |s| && s[i] == x && x !in s[..i]
  {
    if s[0] == x then 0
    else
      var i := 1 + FirstIndex(s[1..], x);
      assert s[..i] == [s[0]] + s[1..][..i - 1];
      i
  }

  /** A first occurrence is the first occurrence. */
  lemma FirstIndexAt<T>(s: seq<T>, x: T, i: nat)
    requires i < |s| && s[i] == x && x !in s[..i]
    ensures FirstIndex(s, x) == i
  {
    var j := FirstIndex(s, x);
    assert forall k | 0 <= k < i :: s[..i][k] == s[k];
    assert forall k | 0 <= k < j :: s[..j][k] == s[k];
  }

  lemma FirstIndexPrefix<T>(a: seq<T>, b: seq<T>, x: T)
    requires x in a
    ensures FirstIndex(a + b, x) == FirstIndex(a, x)
  {
    var k := FirstIndex(a, x);
    assert (a + b)[..k] == a[..k];
    FirstIndexAt(a + b, x, k);
  }

  lemma FirstIndexAfter<T>(a: seq<T>, b: seq<T>, x: T)
    requires x !in a && x in b
    ensures FirstIndex(a + b, x) == |a| + FirstIndex(b, x)
  {
    var k := FirstIndex(b, x);
    assert (a + b)[..|a| + k] == a + b[..k];
    FirstIndexAt(a + b, x, |a| + k);
  }

  /** Dedup keeps exactly the elements of its input, once each. */
  lemma {:induction false} DedupSpec<T>(s: seq<T>)
    ensures NoDups(Dedup(s))
    ensures forall x :: x in Dedup(s) <==> x in s
    decreases |s|
  {
    if s != [] {
      var init := s[..|s| - 1];
      DedupSpec(init);
      assert s == init + [s[|s| - 1]];
    }
  }

  lemma DedupKeepsIn<T>(s: seq<T>, x: T)
    requires x in Dedup(s)
    ensures x in s
  {
    DedupSpec(s);
  }

  /** Dedup lists the elements in the order of their first occurrences. */
  lemma {:induction false} DedupOrder<T>(s: seq<T>)
    ensures forall i, j | 0 <= i < j < |Dedup(s)| ::
      Dedup(s)[i] in s && Dedup(s)[j] in s && FirstIndex(s, Dedup(s)[i]) < FirstIndex(s, Dedup(s)[j])
    decreases |s|
  {
    if s != [] {
      var init := s[..|s| - 1];
      var y := s[|s| - 1];
      DedupOrder(init);
      DedupSpec(init);
      assert s == init + [y];
      var d := Dedup(init);
      forall k | 0 <= k < |d| ensures d[k] in init && FirstIndex(s, d[k]) == FirstIndex(init, d[k]) {
        DedupKeepsIn(init, d[k]);
        FirstIndexPrefix(init, [y], d[k]);
      }
      if y !in d {
        FirstIndexAt(s, y, |init|);
      }
    }
  }

  /** Dedup of a list that is already free of repeats leaves it alone. */
  lemma {:induction false} DedupOfDistinct<T>(s: seq<T>)
    requires NoDups(s)
    ensures Dedup(s) == s
    decreases |s|
  {
    if s != [] {
      var init := s[..|s| - 1];
      DedupOfDistinct(init);
      assert s[|s| - 1] !in init;
      assert s == init + [s[|s| - 1]];
    }
  }

  /** Dedup keeps the first occurrences in order: the de-duplicated `a + b`
      begins with the de-duplicated `a`. */
  lemma {:induction false} DedupKeepsPrefix<T>(a: seq<T>, b: seq<T>)
    ensures |Dedup(a + b)| >= |Dedup(a)| && Dedup(a + b)[..|Dedup(a)|] == Dedup(a)
    decreases |b|
  {
    if b == [] {
      assert a + b == a;
    } else {
      var b' := b[..|b| - 1];
      assert (a + b)[..|a + b| - 1] == a + b';
      DedupKeepsPrefix(a, b');
    }
  }
}
