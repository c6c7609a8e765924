/** The duplicate-resolution route: for each reported duplicate, in order, load the
    existing upload and its candidate, then merge the new data into the candidate,
    replace the candidate's columns, or create a new candidate with an upload that
    points at the existing file.

    The database's answers that the model cannot compute are inputs: for each item
    an `ItemEnv` says whether the first write (the update, or the candidate
    insert) or the second write (the upload insert of `create_new`) throws, and
    the message the database gives when it rejects a value for its column. */
module ProcessRoute {
  import opened Values
  import opened CandidateStore

  /** One element of the request's `duplicates` array. */
  datatype DuplicateProcess = DuplicateProcess(existingCvId: Id, newData: map<Key, Value>, mode: string)

  /** A `Some` fault is the message of the exception that write throws. */
  datatype ItemEnv = ItemEnv(firstFault: Option<string>, secondFault: Option<string>, rejection: string)

  datatype ItemStatus = Merged | Replaced | CreatedNew(newCandidateId: Id) | ItemError(message: string)

  datatype ItemResult = ItemResult(existingCvId: Id, status: ItemStatus)

  /** An item either yields its result or throws, which ends the request. */
  datatype ItemOutcome = Done(result: ItemResult) | Thrown(message: string)

  datatype ProcessResponse = Results(results: seq<ItemResult>) | Failure(status: int, message: string)

  const MergeMode := "merge"
  const ReplaceMode := "replace"
  const CreateNewMode := "create_new"
  const NotFoundMessage := "Existing CV or candidate not found"
  const InvalidModeMessage := "Invalid mode"
  const InvalidPayloadMessage := "Missing or invalid duplicates data"
  const InternalErrorMessage := "Internal server error"
  const Processed := "processed"

  predicate KnownMode(mode: string) {
    mode == MergeMode || mode == ReplaceMode || mode == CreateNewMode
  }

  /** The merged value of one column: a list is appended to the old list (a column
      that is not a list counts as empty) and repeats are dropped, first occurrence
      first; anything else replaces the old value. */
  function MergeValue(prev: Value, v: Value): Value {
    if v.VList? then VList(Dedup(ListOf(prev) + v.items)) else v
  }

  /** The merge update object: one entry per key of `newData`. */
  function MergeData(p: Profile, newData: map<Key, Value>): (r: map<Key, Value>)
    ensures r.Keys == newData.Keys
  {
    map k | k in newData :: MergeValue(Read(p, k), newData[k])
  }

  /** `newData[k] ?? d`: the default when the key is absent or null. */
  function Coalesce(newData: map<Key, Value>, k: Key, d: Value): Value {
    if k in newData && !newData[k].VNull? then newData[k] else d
  }

  /** One column of the full update object of `replace` and of the candidate
      created by `create_new`: the defaults for missing values are an empty name
      and email, empty lists, score 0 and null otherwise, and the date is kept
      only when truthy. */
  function ReplaceColumn(newData: map<Key, Value>, k: Key): Value {
    match k
    case FullName => Coalesce(newData, FullName, VStr(""))
    case Email => Coalesce(newData, Email, VStr(""))
    case Birthdate => if Birthdate in newData && Truthy(newData[Birthdate]) then newData[Birthdate] else VNull
    case Gender => Coalesce(newData, Gender, VNull)
    case Experience => Coalesce(newData, Experience, VNull)
    case Skills => Coalesce(newData, Skills, VList([]))
    case Address => Coalesce(newData, Address, VNull)
    case FitScore => Coalesce(newData, FitScore, VNum(0))
    case Strengths => Coalesce(newData, Strengths, VList([]))
    case Weaknesses => Coalesce(newData, Weaknesses, VList([]))
  }

  /** The full update object: every column. */
  function ReplaceData(newData: map<Key, Value>): (r: map<Key, Value>)
    ensures forall k :: k in r && r[k] == ReplaceColumn(newData, k)
  {
    AllKeysComplete();
    map k | k in AllKeys :: ReplaceColumn(newData, k)
  }

  /** Any row: a write of `ReplaceData` names every column, so the row it starts
      from does not matter (see `FullWriteIgnoresRow`). */
  const Blank := Profile("", "", None, None, None, [], None, None, [], [])

  /** The existing upload `existingCvId` and its candidate, when both are found. */
  function Lookup(db: Db, existingCvId: Id): (r: Option<(CvUpload, Candidate)>)
    ensures r.Some? ==> r.value.0 in db.uploads && r.value.0.id == existingCvId
    ensures r.Some? ==> r.value.0.candidate_id in db.candidates && r.value.1 == db.candidates[r.value.0.candidate_id]
  {
    var found := FindUpload(db.uploads, existingCvId);
    if found.Some? && found.value.candidate_id in db.candidates then
      Some((found.value, db.candidates[found.value.candidate_id]))
    else None
  }

  /** `prisma.candidate.update` of the row `id` with the checked write `write`. */
  function UpdateStep(db: Db, id: Id, write: Option<Profile>, env: ItemEnv, result: ItemResult): (Db, ItemOutcome)
    requires id in db.candidates
  {
    match write
    case None => (db, Thrown(env.rejection))
    case Some(p) =>
      if env.firstFault.Some? then (db, Thrown(env.firstFault.value))
      else (SetProfile(db, id, p), Done(result))
  }

  /** One item of the loop. An item that is not found, or has an unknown mode, is
      reported and changes nothing; a write that throws ends the request, with the
      writes already made kept. */
  function ResolveItem(db: Db, item: DuplicateProcess, env: ItemEnv): (r: (Db, ItemOutcome))
    ensures r.1.Done? ==> r.1.result.existingCvId == item.existingCvId
    ensures r.1.Done? && r.1.result.status.ItemError? <==>
      Lookup(db, item.existingCvId).None? || !KnownMode(item.mode)
    ensures r.1.Done? && r.1.result.status.ItemError? ==> r.0 == db
    ensures ValidDb(db) ==> ValidDb(r.0)
  {
    var id := item.existingCvId;
    match Lookup(db, id)
    case None => (db, Done(ItemResult(id, ItemError(NotFoundMessage))))
    case Some((cv, candidate)) =>
      if item.mode == MergeMode then
        UpdateStep(db, cv.candidate_id, ApplyUpdate(candidate.profile, MergeData(candidate.profile, item.newData)),
                   env, ItemResult(id, Merged))
      else if item.mode == ReplaceMode then
        UpdateStep(db, cv.candidate_id, ApplyUpdate(candidate.profile, ReplaceData(item.newData)),
                   env, ItemResult(id, Replaced))
      else if item.mode == CreateNewMode then
        match ApplyUpdate(Blank, ReplaceData(item.newData))
        case None => (db, Thrown(env.rejection))
        case Some(p) =>
          if env.firstFault.Some? then (db, Thrown(env.firstFault.value))
          else
            var (db1, c) := AddCandidate(db, p);
            if env.secondFault.Some? then (db1, Thrown(env.secondFault.value))
            else
              var (db2, _) := AddUpload(db1, c.id, cv.job_id, cv.file_url, "", Processed);
              (db2, Done(ItemResult(id, CreatedNew(c.id))))
      else (db, Done(ItemResult(id, ItemError(InvalidModeMessage))))
  }

  datatype Progress = Progress(db: Db, results: seq<ItemResult>, thrown: Option<string>)

  /** The loop over the items, as a fold: it stops at the first item that throws. */
  function ResolveAll(db: Db, items: seq<DuplicateProcess>, envs: seq<ItemEnv>): Progress
    requires |envs| == |items|
    decreases |items|
  {
    if items == [] then Progress(db, [], None)
    else
      var n := |items| - 1;
      var prev := ResolveAll(db, items[..n], envs[..n]);
      if prev.thrown.Some? then prev
      else
        var (db', o) := ResolveItem(prev.db, items[n], envs[n]);
        match o
        case Done(res) => Progress(db', prev.results + [res], None)
        case Thrown(m) => Progress(db', prev.results, Some(m))
  }

  /** The response: a missing or non-array `duplicates` is refused with the
      validation message; a thrown error answers 500 with its message, or the
      generic one when the message is empty. The store keeps every write made. */
  function ProcessSpec(db: Db, duplicates: Option<seq<DuplicateProcess>>, envs: seq<ItemEnv>)
    : (r: (Db, ProcessResponse))
    requires duplicates.Some? ==> |envs| == |duplicates.value|
  {
    match duplicates
    case None => (db, Failure(500, InvalidPayloadMessage))
    case Some(items) =>
      var run := ResolveAll(db, items, envs);
      match run.thrown
      case Some(m) => (run.db, Failure(500, if m == "" then InternalErrorMessage else m))
      case None => (run.db, Results(run.results))
  }

  lemma ResolveAllStep(db: Db, items: seq<DuplicateProcess>, envs: seq<ItemEnv>, i: nat)
    requires |envs| == |items| && i < |items|
    ensures var prev := ResolveAll(db, items[..i], envs[..i]);
      ResolveAll(db, items[..i + 1], envs[..i + 1]) ==
        if prev.thrown.Some? then prev
        else
          var (db', o) := ResolveItem(prev.db, items[i], envs[i]);
          match o
          case Done(res) => Progress(db', prev.results + [res], None)
          case Thrown(m) => Progress(db', prev.results, Some(m))
  {
    assert items[..i + 1][..i] == items[..i];
    assert envs[..i + 1][..i] == envs[..i];
  }

  /** Once an item has thrown, the later items are never looked at. */
  lemma {:induction false} ThrownStays(db: Db, items: seq<DuplicateProcess>, envs: seq<ItemEnv>, k: nat)
    requires |envs| == |items| && k <= |items|
    requires ResolveAll(db, items[..k], envs[..k]).thrown.Some?
    ensures ResolveAll(db, items, envs) == ResolveAll(db, items[..k], envs[..k])
    decreases |items| - k
  {
    if k < |items| {
      ResolveAllStep(db, items, envs, k);
      ThrownStays(db, items, envs, k + 1);
    } else {
      assert items[..k] == items && envs[..k] == envs;
    }
  }

  /** The resolution loop keeps the store well formed after every item, so each
      item is handled on a well-formed store. */
  lemma {:induction false} ResolveAllKeepsValid(db: Db, items: seq<DuplicateProcess>, envs: seq<ItemEnv>)
    requires |envs| == |items|
    requires ValidDb(db)
    ensures ValidDb(ResolveAll(db, items, envs).db)
    decreases |items|
  {
    if items != [] {
      var n := |items| - 1;
      ResolveAllKeepsValid(db, items[..n], envs[..n]);
    }
  }

  /** The `for ... in newData` loop that builds the merge update object. */
  method BuildMergeUpdate(candidate: Profile, newData: map<Key, Value>) returns (updated: map<Key, Value>)
    ensures updated == MergeData(candidate, newData)
  {
    updated := map[];
    var rest := newData.Keys;
    while rest != {}
      invariant rest <= newData.Keys
      invariant updated.Keys == newData.Keys - rest
      invariant forall k | k in updated :: updated[k] == MergeValue(Read(candidate, k), newData[k])
      decreases rest
    {
      var key :| key in rest;
      var val := newData[key];
      if val.VList? {
        var oldArr := ListOf(Read(candidate, key));
        updated := updated[key := VList(Dedup(oldArr + val.items))];
      } else {
        updated := updated[key := val];
      }
      rest := rest - {key};
    }
  }

  method ResolveOne(store: Store, item: DuplicateProcess, env: ItemEnv) returns (outcome: ItemOutcome)
    modifies store
    ensures (store.State(), outcome) == ResolveItem(old(store.State()), item, env)
  {
    var id := item.existingCvId;
    var found := Lookup(store.State(), id);
    if found.None? {
      return Done(ItemResult(id, ItemError(NotFoundMessage)));
    }
    var (cv, candidate) := found.value;
    if item.mode == MergeMode || item.mode == ReplaceMode {
      var data, status;
      if item.mode == MergeMode {
        data := BuildMergeUpdate(candidate.profile, item.newData);
        status := Merged;
      } else {
        data := ReplaceData(item.newData);
        status := Replaced;
      }
      var write := ApplyUpdate(candidate.profile, data);
      if write.None? {
        return Thrown(env.rejection);
      }
      if env.firstFault.Some? {
        return Thrown(env.firstFault.value);
      }
      store.UpdateCandidate(cv.candidate_id, write.value);
      outcome := Done(ItemResult(id, status));
    } else if item.mode == CreateNewMode {
      var write := ApplyUpdate(Blank, ReplaceData(item.newData));
      if write.None? {
        return Thrown(env.rejection);
      }
      if env.firstFault.Some? {
        return Thrown(env.firstFault.value);
      }
      var c := store.CreateCandidate(write.value);
      if env.secondFault.Some? {
        return Thrown(env.secondFault.value);
      }
      var _ := store.CreateUpload(c.id, cv.job_id, cv.file_url, "", Processed);
      outcome := Done(ItemResult(id, CreatedNew(c.id)));
    } else {
      outcome := Done(ItemResult(id, ItemError(InvalidModeMessage)));
    }
  }

  method ResolveItems(store: Store, items: seq<DuplicateProcess>, envs: seq<ItemEnv>)
    returns (results: seq<ItemResult>, thrown: Option<string>)
    requires |envs| == |items|
    modifies store
    ensures ResolveAll(old(store.State()), items, envs) == Progress(store.State(), results, thrown)
  {
    ghost var db0 := store.State();
    results, thrown := [], None;
    var i := 0;
    while i < |items| && thrown.None?
      invariant 0 <= i <= |items|
      invariant ResolveAll(db0, items[..i], envs[..i]) == Progress(store.State(), results, thrown)
    {
      ResolveAllStep(db0, items, envs, i);
      var o := ResolveOne(store, items[i], envs[i]);
      match o {
        case Done(res) => results := results + [res];
        case Thrown(m) => thrown := Some(m);
      }
      i := i + 1;
    }
    if thrown.Some? {
      ThrownStays(db0, items, envs, i);
    } else {
      assert items[..i] == items && envs[..i] == envs;
    }
  }

  /** The route: the store ends as the specification says and the response is the
      specified one; a well-formed store stays well formed. */
  method Process(store: Store, duplicates: Option<seq<DuplicateProcess>>, envs: seq<ItemEnv>)
    returns (resp: ProcessResponse)
    requires duplicates.Some? ==> |envs| == |duplicates.value|
    requires store.Valid()
    modifies store
    ensures (store.State(), resp) == ProcessSpec(old(store.State()), duplicates, envs)
    ensures store.Valid()
  {
    if duplicates.None? {
      return Failure(500, InvalidPayloadMessage);
    }
    ResolveAllKeepsValid(store.State(), duplicates.value, envs);
    var results, thrown := ResolveItems(store, duplicates.value, envs);
    if thrown.Some? {
      var m := thrown.value;
      resp := Failure(500, if m == "" then InternalErrorMessage else m);
    } else {
      resp := Results(results);
    }
  }
}
