/** What the duplicate-resolution route guarantees. */
module ProcessProperties {
  import opened Values
  import opened CandidateStore
  import opened ProcessRoute
  import Ingest = UploadCvRoute

  /** The response lists one result per item handled, in item order, each under
      that item's `existingCvId`; when nothing threw, every item has one. */
  lemma {:induction false} ResultsFollowItems(db: Db, items: seq<DuplicateProcess>, envs: seq<ItemEnv>)
    requires |envs| == |items|
    ensures var run := ResolveAll(db, items, envs);
      && |run.results| <= |items|
      && (forall i | 0 <= i < |run.results| :: run.results[i].existingCvId == items[i].existingCvId)
      && (run.thrown.None? ==> |run.results| == |items|)
    decreases |items|
  {
    if items != [] {
      var n := |items| - 1;
      ResultsFollowItems(db, items[..n], envs[..n]);
      var prev := ResolveAll(db, items[..n], envs[..n]);
      if prev.thrown.None? {
        var o := ResolveItem(prev.db, items[n], envs[n]).1;
        if o.Done? {
          var rs := prev.results + [o.result];
          assert ResolveAll(db, items, envs).results == rs;
          forall i | 0 <= i < |rs| ensures rs[i].existingCvId == items[i].existingCvId {
            if i < |prev.results| {
              assert items[..n][i] == items[i];
            }
          }
        }
      }
    }
  }

  /** A `duplicates` that is missing or not an array is refused before any item
      is looked at, with status 500. */
  lemma InvalidPayloadTouchesNothing(db: Db, envs: seq<ItemEnv>)
    ensures ProcessSpec(db, None, envs) == (db, Failure(500, "Missing or invalid duplicates data"))
  {
  }

  /** An item whose upload or candidate is missing is reported and changes nothing. */
  lemma MissingRowIsReported(db: Db, item: DuplicateProcess, env: ItemEnv)
    requires ValidDb(db)
    requires forall u | u in db.uploads && u.id == item.existingCvId :: u.candidate_id !in db.candidates
    ensures ResolveItem(db, item, env) ==
      (db, Done(ItemResult(item.existingCvId, ItemError("Existing CV or candidate not found"))))
  {
  }

  /** An item with any other mode is reported and changes nothing. */
  lemma UnknownModeIsReported(db: Db, item: DuplicateProcess, env: ItemEnv)
    requires Lookup(db, item.existingCvId).Some? && !KnownMode(item.mode)
    ensures ResolveItem(db, item, env) == (db, Done(ItemResult(item.existingCvId, ItemError("Invalid mode"))))
  {
  }

  /** `merge` changes only the existing candidate, and of it only the columns named
      in `newData`: a list column becomes the de-duplicated union of the old list
      and the new one, anything else takes the new value. No row is created. */
  lemma MergeChangesNamedColumns(db: Db, item: DuplicateProcess, env: ItemEnv)
    requires item.mode == "merge"
    requires ResolveItem(db, item, env).1.Done?
    requires Lookup(db, item.existingCvId).Some?
    ensures var (cv, prior) := Lookup(db, item.existingCvId).value;
      var db' := ResolveItem(db, item, env).0;
      && ResolveItem(db, item, env).1.result.status == Merged
      && db'.uploads == db.uploads && db'.candidates.Keys == db.candidates.Keys
      && (forall id | id in db.candidates && id != cv.candidate_id :: db'.candidates[id] == db.candidates[id])
      && (forall k :: Read(db'.candidates[cv.candidate_id].profile, k) ==
            if k in item.newData then MergeValue(Read(prior.profile, k), item.newData[k]) else Read(prior.profile, k))
  {
  }

  /** Dedup of a list that already holds every element of `b` and no repeats adds nothing. */
  lemma {:induction false} DedupAbsorbs<T>(a: seq<T>, b: seq<T>)
    requires NoDups(a) && forall x | x in b :: x in a
    ensures Dedup(a + b) == a
    decreases |b|
  {
    if b == [] {
      assert a + b == a;
      DedupOfDistinct(a);
    } else {
      var b' := b[..|b| - 1];
      assert (a + b)[..|a + b| - 1] == a + b';
      DedupAbsorbs(a, b');
    }
  }

  /** A merged list keeps the old list first, without its repeats and in its
      order, then adds the new elements it lacks, in the order they first occur in
      the new list; every element appears once, and nothing else appears. */
  lemma MergedListIsOrderedUnion(prev: seq<string>, items: seq<string>)
    ensures var r := MergeValue(VList(prev), VList(items)).items;
      var n := |Dedup(prev)|;
      && NoDups(r)
      && |r| >= n && r[..n] == Dedup(prev)
      && (forall x :: x in r <==> x in prev || x in items)
      && (forall i | n <= i < |r| :: r[i] !in prev && r[i] in items)
      && (forall i, j | n <= i < j < |r| ::
            r[i] in items && r[j] in items && FirstIndex(items, r[i]) < FirstIndex(items, r[j]))
  {
    var s := prev + items;
    var r := Dedup(s);
    var n := |Dedup(prev)|;
    DedupSpec(s);
    DedupSpec(prev);
    DedupKeepsPrefix(prev, items);
    DedupOrder(s);
    forall i | n <= i < |r| ensures r[i] !in prev && r[i] in items {
      forall k | 0 <= k < n ensures Dedup(prev)[k] != r[i] {
        assert Dedup(prev)[k] == r[k];
      }
      assert r[i] in r;
    }
    forall i, j | n <= i < j < |r|
      ensures r[i] in items && r[j] in items && FirstIndex(items, r[i]) < FirstIndex(items, r[j])
    {
      FirstIndexAfter(prev, items, r[i]);
      FirstIndexAfter(prev, items, r[j]);
    }
  }

  /** Merging the same data a second time changes nothing more. */
  lemma {:induction false} MergeTwiceIsOnce(p: Profile, newData: map<Key, Value>)
    requires ApplyUpdate(p, MergeData(p, newData)).Some?
    ensures var q := ApplyUpdate(p, MergeData(p, newData)).value;
      ApplyUpdate(q, MergeData(q, newData)) == Some(q)
  {
    var q := ApplyUpdate(p, MergeData(p, newData)).value;
    forall k | k in newData && newData[k].VList?
      ensures MergeValue(Read(q, k), newData[k]) == Read(q, k)
    {
      var merged := Dedup(ListOf(Read(p, k)) + newData[k].items);
      DedupSpec(ListOf(Read(p, k)) + newData[k].items);
      DedupAbsorbs(merged, newData[k].items);
    }
    assert AllFit(MergeData(q, newData));
    var q2 := ApplyUpdate(q, MergeData(q, newData)).value;
    ProfileByColumns(q2, q);
  }

  /** A merge example: the old skills ["Go"] merged with
      ["Go", "Rust"] become ["Go", "Rust"], while an empty proposed name still
      overwrites the old name. */
  lemma MergeExample()
    ensures var p := Profile("An", "an@example.com", None, None, None, ["Go"], None, Some(80), [], []);
      var q := ApplyUpdate(p, MergeData(p, map[Skills := VList(["Go", "Rust"]), FullName := VStr("")]));
      q.Some? && q.value.skills == ["Go", "Rust"] && q.value.full_name == ""
  {
    var p := Profile("An", "an@example.com", None, None, None, ["Go"], None, Some(80), [], []);
    assert Dedup(["Go"] + ["Go", "Rust"]) == ["Go", "Rust"] by {
      var s := ["Go"] + ["Go", "Rust"];
      assert s[..2][..1] == ["Go"];
      assert s[..2] == ["Go", "Go"];
      assert s[..1] == ["Go"];
      assert Dedup(s[..1]) == ["Go"] by { assert s[..1][..0] == []; }
    }
  }

  /** `replace` rewrites every column of the existing candidate with the defaulted
      new data, whatever the row held before, so it yields the very row `create_new`
      would create; no row is created. */
  lemma ReplaceRewritesEveryColumn(db: Db, item: DuplicateProcess, env: ItemEnv)
    requires item.mode == "replace"
    requires ResolveItem(db, item, env).1.Done?
    requires Lookup(db, item.existingCvId).Some?
    ensures var (cv, prior) := Lookup(db, item.existingCvId).value;
      var db' := ResolveItem(db, item, env).0;
      && ResolveItem(db, item, env).1.result.status == Replaced
      && db'.uploads == db.uploads && db'.candidates.Keys == db.candidates.Keys
      && (forall id | id in db.candidates && id != cv.candidate_id :: db'.candidates[id] == db.candidates[id])
      && (forall k :: Read(db'.candidates[cv.candidate_id].profile, k) == ReplaceData(item.newData)[k])
      && Some(db'.candidates[cv.candidate_id].profile) == ApplyUpdate(Blank, ReplaceData(item.newData))
  {
    var (cv, prior) := Lookup(db, item.existingCvId).value;
    FullWriteIgnoresRow(prior.profile, Blank, ReplaceData(item.newData));
  }

  /** The replace defaults: a missing or null name or email becomes "", a missing
      gender, experience or address null, a missing list [], a missing score 0,
      and a falsy date null; a truthy date and every other non-null given value
      are kept. */
  lemma ReplaceDefaults(newData: map<Key, Value>)
    ensures var r := ReplaceData(newData);
      && (FullName !in newData || newData[FullName].VNull? ==> r[FullName] == VStr(""))
      && (Email !in newData || newData[Email].VNull? ==> r[Email] == VStr(""))
      && (Gender !in newData ==> r[Gender] == VNull)
      && (Experience !in newData ==> r[Experience] == VNull)
      && (Address !in newData ==> r[Address] == VNull)
      && (Skills !in newData || newData[Skills].VNull? ==> r[Skills] == VList([]))
      && (Strengths !in newData || newData[Strengths].VNull? ==> r[Strengths] == VList([]))
      && (Weaknesses !in newData || newData[Weaknesses].VNull? ==> r[Weaknesses] == VList([]))
      && (FitScore !in newData || newData[FitScore].VNull? ==> r[FitScore] == VNum(0))
      && (Birthdate !in newData || !Truthy(newData[Birthdate]) ==> r[Birthdate] == VNull)
      && (Birthdate in newData && Truthy(newData[Birthdate]) ==> r[Birthdate] == newData[Birthdate])
      && (forall k | k in newData && !newData[k].VNull? && k != Birthdate :: r[k] == newData[k])
  {
  }

  /** `create_new` leaves the existing candidate and upload alone and adds exactly
      one candidate, with the replace defaults, and one upload with the existing
      upload's job and file, an empty hash and status `processed`. */
  lemma CreateNewAddsOneOfEach(db: Db, item: DuplicateProcess, env: ItemEnv)
    requires ValidDb(db)
    requires item.mode == "create_new"
    requires ResolveItem(db, item, env).1.Done?
    requires Lookup(db, item.existingCvId).Some?
    ensures var (cv, prior) := Lookup(db, item.existingCvId).value;
      var (db', o) := ResolveItem(db, item, env);
      && o.result.status.CreatedNew?
      && var id := o.result.status.newCandidateId;
      && id !in db.candidates && id in db'.candidates
      && db'.candidates == db.candidates[id := db'.candidates[id]]
      && Some(db'.candidates[id].profile) == ApplyUpdate(Blank, ReplaceData(item.newData))
      && |db'.uploads| == |db.uploads| + 1 && db'.uploads[..|db.uploads|] == db.uploads
      && var u := db'.uploads[|db.uploads|];
         u.candidate_id == id && u.job_id == cv.job_id && u.file_url == cv.file_url
         && u.hash == "" && u.status == "processed"
  {
    var (db', o) := ResolveItem(db, item, env);
    assert db'.uploads[..|db.uploads|] == db.uploads;
  }

  /** Column by column, the replace defaults leave a duplicate's `newData` as it was
      reported, which is the new candidate's column. */
  lemma ReplaceKeepsReportedColumn(parsed: Ingest.ParsedCv, fit: Ingest.FitAssessment, k: Key)
    ensures ReplaceData(Ingest.NewDataOf(parsed, fit))[k] == Read(Ingest.NewProfile(parsed, fit), k)
  {
    match k
    case FullName => case Email => case Birthdate => case Gender => case Experience =>
    case Skills => case Address => case FitScore => case Strengths => case Weaknesses =>
  }

  /** Resolving a reported duplicate with `create_new` creates the very candidate
      the ingestion would have created had the file not been a duplicate. */
  lemma {:induction false} CreateNewMatchesIngestion(parsed: Ingest.ParsedCv, fit: Ingest.FitAssessment)
    ensures ApplyUpdate(Blank, ReplaceData(Ingest.NewDataOf(parsed, fit))) == Some(Ingest.NewProfile(parsed, fit))
  {
    var data := ReplaceData(Ingest.NewDataOf(parsed, fit));
    var want := Ingest.NewProfile(parsed, fit);
    forall k ensures data[k] == Read(want, k) {
      ReplaceKeepsReportedColumn(parsed, fit, k);
    }
    assert AllFit(data);
    var got := ApplyUpdate(Blank, data).value;
    ProfileByColumns(got, want);
  }

  /** A write that throws ends the request with a 500: the later items are not
      handled, and the writes of the earlier items stay. */
  lemma ThrowEndsRequest(db: Db, items: seq<DuplicateProcess>, envs: seq<ItemEnv>, i: nat)
    requires |envs| == |items| && i < |items|
    requires ResolveAll(db, items[..i], envs[..i]).thrown.None?
    requires ResolveItem(ResolveAll(db, items[..i], envs[..i]).db, items[i], envs[i]).1.Thrown?
    ensures var before := ResolveAll(db, items[..i], envs[..i]).db;
      var (db', o) := ResolveItem(before, items[i], envs[i]);
      ProcessSpec(db, Some(items), envs) ==
        (db', Failure(500, if o.message == "" then "Internal server error" else o.message))
  {
    ResolveAllStep(db, items, envs, i);
    ThrownStays(db, items, envs, i + 1);
  }

  /** A thrown write never undoes anything: the store after the request is the
      store after the items before it, plus (for `create_new`) the candidate that
      was inserted before the upload insert threw. */
  lemma ThrowWritesAtMostTheCandidate(db: Db, item: DuplicateProcess, env: ItemEnv)
    requires ValidDb(db)
    requires ResolveItem(db, item, env).1.Thrown?
    ensures var db' := ResolveItem(db, item, env).0;
      && db'.uploads == db.uploads
      && (db' == db || (item.mode == "create_new" && env.secondFault.Some? &&
            |db'.candidates.Keys - db.candidates.Keys| == 1 &&
            forall id | id in db.candidates :: id in db'.candidates && db'.candidates[id] == db.candidates[id]))
  {
    var db' := ResolveItem(db, item, env).0;
    if db' != db {
      var p := ApplyUpdate(Blank, ReplaceData(item.newData)).value;
      var (db1, c) := AddCandidate(db, p);
      assert db1.candidates.Keys - db.candidates.Keys == {c.id};
    }
  }
}
