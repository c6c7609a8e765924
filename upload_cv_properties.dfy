/** What the ingestion route guarantees, for every choice `findFirst` may make. */
module UploadCvProperties {
  import opened Values
  import opened CandidateStore
  import opened UploadCvRoute

  /** Extending a store is transitive. */
  lemma ExtendsTrans(a: Db, b: Db, c: Db)
    requires Extends(a, b) && Extends(b, c)
    ensures Extends(a, c)
  {
    assert c.uploads[..|a.uploads|] == c.uploads[..|b.uploads|][..|a.uploads|];
  }

  /** One file never removes or changes a row, and keeps the store well formed. */
  lemma IngestFileOnlyAdds(db: Db, jobId: Id, f: CvFile, e: FileEnv, h: string, pick: Option<CvUpload>)
    requires ValidDb(db)
    ensures ValidDb(IngestFile(db, jobId, f, e, h, pick).0)
    ensures Extends(db, IngestFile(db, jobId, f, e, h, pick).0)
  {
    if e.storage.SavedAt? && e.extraction.Extracted? && pick.None? && e.candidateFault.None? {
      var (db1, c) := AddCandidate(db, NewProfile(e.extraction.parsed, e.extraction.fit));
      if e.uploadFault.None? {
        var (db2, _) := AddUpload(db1, c.id, jobId, e.storage.url, h, Processed);
        ExtendsTrans(db, db1, db2);
      }
    }
  }

  /** A batch never removes or changes an existing candidate or upload, and keeps
      the store well formed, whatever happens to its files. */
  lemma {:induction false} BatchOnlyAdds(db: Db, jobId: Id, files: seq<CvFile>, envs: seq<FileEnv>,
                                         hashOf: seq<bv8> -> string, picks: seq<Option<CvUpload>>)
    requires |envs| == |files| == |picks| && ValidDb(db)
    ensures ValidDb(RunBatch(db, jobId, files, envs, hashOf, picks).db)
    ensures Extends(db, RunBatch(db, jobId, files, envs, hashOf, picks).db)
    decreases |files|
  {
    if files != [] {
      var n := |files| - 1;
      BatchOnlyAdds(db, jobId, files[..n], envs[..n], hashOf, picks[..n]);
      var run := RunBatch(db, jobId, files[..n], envs[..n], hashOf, picks[..n]);
      if !Halted(run) {
        IngestFileOnlyAdds(run.db, jobId, files[n], envs[n], hashOf(files[n].content), picks[n]);
        ExtendsTrans(db, run.db, IngestFile(run.db, jobId, files[n], envs[n], hashOf(files[n].content), picks[n]).0);
      }
    }
  }

  /** Files are handled in input order, one outcome each: the i-th outcome is about
      the i-th file, only the last outcome can be the escaping exception, and a
      batch that was not cut short has an outcome for every file. */
  lemma {:induction false} OutcomesFollowFiles(db: Db, jobId: Id, files: seq<CvFile>, envs: seq<FileEnv>,
                                               hashOf: seq<bv8> -> string, picks: seq<Option<CvUpload>>)
    requires |envs| == |files| == |picks|
    ensures var run := RunBatch(db, jobId, files, envs, hashOf, picks);
      && |run.outcomes| <= |files|
      && (forall i | 0 <= i < |run.outcomes| :: run.outcomes[i].FileName() == files[i].name)
      && (forall i | 0 <= i < |run.outcomes| - 1 :: !run.outcomes[i].Aborted?)
      && (!Halted(run) ==> |run.outcomes| == |files|)
    decreases |files|
  {
    if files != [] {
      var n := |files| - 1;
      OutcomesFollowFiles(db, jobId, files[..n], envs[..n], hashOf, picks[..n]);
    }
  }

  /** Outcomes other than the escaping exception land in exactly one of the three lists. */
  lemma {:induction false} ListsPartitionOutcomes(os: seq<FileOutcome>)
    requires forall i | 0 <= i < |os| :: !os[i].Aborted?
    ensures |NewCvs(os)| + |Duplicates(os)| + |Errors(os)| == |os|
    decreases |os|
  {
    if os != [] {
      ListsPartitionOutcomes(os[..|os| - 1]);
    }
  }

  /** Every file of a batch that was not cut short ends in exactly one of
      `new_cvs`, `duplicates` and `errors`. */
  lemma EveryFileAccountedFor(db: Db, jobId: Id, files: seq<CvFile>, envs: seq<FileEnv>,
                              hashOf: seq<bv8> -> string, picks: seq<Option<CvUpload>>)
    requires |envs| == |files| == |picks|
    requires !Halted(RunBatch(db, jobId, files, envs, hashOf, picks))
    ensures var os := RunBatch(db, jobId, files, envs, hashOf, picks).outcomes;
      |NewCvs(os)| + |Duplicates(os)| + |Errors(os)| == |files|
  {
    OutcomesFollowFiles(db, jobId, files, envs, hashOf, picks);
    var os := RunBatch(db, jobId, files, envs, hashOf, picks).outcomes;
    assert os != [] ==> !os[|os| - 1].Aborted?;
    ListsPartitionOutcomes(os);
  }

  /** A failed extraction (upload, parse, score or delete) records the file's name
      and message and writes nothing. */
  lemma ExtractionFailureWritesNothing(db: Db, jobId: Id, f: CvFile, e: FileEnv, h: string, pick: Option<CvUpload>)
    requires e.storage.SavedAt? && e.extraction.ExtractionFailed?
    ensures IngestFile(db, jobId, f, e, h, pick) == (db, Failed(FileError(f.name, e.extraction.message)))
  {
  }

  /** A file that matches an existing upload writes nothing; the report names a
      matching row, the file, the reason (`hash` exactly when the row's hash is the
      file's), the row's candidate and file, and the data a new candidate would get. */
  lemma DuplicateWritesNothing(db: Db, jobId: Id, f: CvFile, e: FileEnv, h: string, pick: Option<CvUpload>)
    requires PickOk(db, e, h, pick)
    requires IngestFile(db, jobId, f, e, h, pick).1.Duplicate?
    ensures var (db', o) := IngestFile(db, jobId, f, e, h, pick);
      && db' == db && pick.Some?
      && pick.value in db.uploads && QueryMatches(db, h, e.extraction.parsed.email, pick.value)
      && o.item.existingCvId == pick.value.id && o.item.file_name == f.name
      && (o.item.reason == ByHash <==> pick.value.hash == h)
      && o.item.existing.old_cv_url == pick.value.file_url
      && (pick.value.candidate_id in db.candidates ==>
            o.item.existing.name == db.candidates[pick.value.candidate_id].profile.full_name &&
            o.item.existing.email == db.candidates[pick.value.candidate_id].profile.email)
      && o.item.newData == NewDataOf(e.extraction.parsed, e.extraction.fit)
  {
  }

  /** A reported `email` reason means the row really matched through its
      candidate: the candidate exists and its email is the extracted one, or the
      extracted email was empty and the filter was dropped. */
  lemma EmailReasonMeansCandidateMatch(db: Db, jobId: Id, f: CvFile, e: FileEnv, h: string, pick: Option<CvUpload>)
    requires PickOk(db, e, h, pick)
    requires IngestFile(db, jobId, f, e, h, pick).1.Duplicate?
    requires IngestFile(db, jobId, f, e, h, pick).1.item.reason == ByEmail
    ensures pick.Some? && pick.value.candidate_id in db.candidates
    ensures var email := EmailFilter(e.extraction.parsed.email);
      email.None? || db.candidates[pick.value.candidate_id].profile.email == email.value
  {
  }

  /** A file whose content hash is already stored is always caught as a duplicate. */
  lemma StoredHashIsAlwaysCaught(db: Db, jobId: Id, f: CvFile, e: FileEnv, h: string, pick: Option<CvUpload>, u: CvUpload)
    requires e.storage.SavedAt? && e.extraction.Extracted?
    requires u in db.uploads && u.hash == h
    requires PickOk(db, e, h, pick)
    ensures IngestFile(db, jobId, f, e, h, pick).1.Duplicate?
    ensures IngestFile(db, jobId, f, e, h, pick).0 == db
  {
    assert u in Matching(db, h, e.extraction.parsed.email, db.uploads);
  }

  /** A file with no match creates exactly one candidate, with the defaults of a new
      CV, and one upload that links it to the job under the file's hash and url,
      with status `processed`. */
  lemma NewFileAddsCandidateAndUpload(db: Db, jobId: Id, f: CvFile, e: FileEnv, h: string, pick: Option<CvUpload>)
    requires ValidDb(db)
    requires IngestFile(db, jobId, f, e, h, pick).1.Ingested?
    ensures var (db', o) := IngestFile(db, jobId, f, e, h, pick);
      var c := o.candidate;
      && e.storage.SavedAt? && e.extraction.Extracted?
      && c.id !in db.candidates && db'.candidates == db.candidates[c.id := c]
      && (forall v | v in db.uploads :: v.candidate_id != c.id)
      && c.profile == NewProfile(e.extraction.parsed, e.extraction.fit)
      && |db'.uploads| == |db.uploads| + 1 && db'.uploads[..|db.uploads|] == db.uploads
      && var u := db'.uploads[|db.uploads|];
         u.candidate_id == c.id && u.job_id == jobId && u.hash == h && u.status == "processed"
         && u.file_url == e.storage.url
  {
    var (db', o) := IngestFile(db, jobId, f, e, h, pick);
    assert db'.uploads[..|db.uploads|] == db.uploads;
  }

  /** An upload insert that fails after the candidate insert leaves the candidate
      row in place and records an error for the file. */
  lemma UploadFaultKeepsCandidate(db: Db, jobId: Id, f: CvFile, e: FileEnv, h: string)
    requires ValidDb(db)
    requires e.storage.SavedAt? && e.extraction.Extracted?
    requires e.candidateFault.None? && e.uploadFault.Some?
    ensures var (db', o) := IngestFile(db, jobId, f, e, h, None);
      && o == Failed(FileError(f.name, e.uploadFault.value))
      && db'.uploads == db.uploads
      && |db'.candidates.Keys - db.candidates.Keys| == 1
      && forall id | id in db'.candidates.Keys - db.candidates.Keys ::
           db'.candidates[id].profile == NewProfile(e.extraction.parsed, e.extraction.fit)
  {
    var (db1, c) := AddCandidate(db, NewProfile(e.extraction.parsed, e.extraction.fit));
    assert db1.candidates.Keys - db.candidates.Keys == {c.id};
  }

  /** Rows commit before the next file is checked: a second copy of a file that was
      just ingested (same bytes, so same hash, read with the same email) is
      reported as a duplicate of the first copy's upload, with reason `hash`,
      whichever row `findFirst` returns. */
  lemma SecondCopyIsHashDuplicate(db: Db, jobId: Id, f1: CvFile, e1: FileEnv, f2: CvFile, e2: FileEnv,
                                  h: string, pick1: Option<CvUpload>, pick2: Option<CvUpload>)
    requires ValidDb(db)
    requires PickOk(db, e1, h, pick1)
    requires IngestFile(db, jobId, f1, e1, h, pick1).1.Ingested?
    requires e2.storage.SavedAt? && e2.extraction.Extracted?
    requires e2.extraction.parsed.email == e1.extraction.parsed.email
    requires PickOk(IngestFile(db, jobId, f1, e1, h, pick1).0, e2, h, pick2)
    ensures var db1 := IngestFile(db, jobId, f1, e1, h, pick1).0;
      var (db2, o) := IngestFile(db1, jobId, f2, e2, h, pick2);
      && db2 == db1
      && o.Duplicate? && o.item.reason == ByHash
      && o.item.existingCvId == db1.uploads[|db1.uploads| - 1].id
  {
    var email := e1.extraction.parsed.email;
    var (db1, o1) := IngestFile(db, jobId, f1, e1, h, pick1);
    NewFileAddsCandidateAndUpload(db, jobId, f1, e1, h, pick1);
    var c := o1.candidate;
    var newRow := db1.uploads[|db.uploads|];
    assert db1.uploads == db.uploads + [newRow];
    assert Matching(db, h, email, db.uploads) == [];
    OldRowsStillMiss(db, db1, h, email, c);
    var m := Matching(db1, h, email, db1.uploads);
    assert newRow in m;
    forall u | u in m ensures u == newRow {
      assert u in db.uploads + [newRow];
    }
    var (db2, o) := IngestFile(db1, jobId, f2, e2, h, pick2);
    assert pick2 == Some(newRow);
  }

  /** Adding a candidate that no stored upload refers to does not make a stored
      upload match. */
  lemma OldRowsStillMiss(db: Db, db1: Db, h: string, email: Option<string>, c: Candidate)
    requires db1.candidates == db.candidates[c.id := c]
    requires forall u | u in db.uploads :: u.candidate_id != c.id
    requires forall u | u in db.uploads :: !QueryMatches(db, h, email, u)
    ensures forall u | u in db.uploads :: !QueryMatches(db1, h, email, u)
  {
    forall u | u in db.uploads ensures !QueryMatches(db1, h, email, u) {
      assert !QueryMatches(db, h, email, u);
    }
  }

  /** `findFirst` has no order, so the reason depends on the row it returns: when a
      row with the same hash and a row of a candidate with the same email both
      match, either reason can be reported. */
  lemma ReasonDependsOnChoice()
    ensures var p := Profile("An", "an@example.com", None, None, None, [], None, Some(70), [], []);
      var db := Db(map[0 := Candidate(0, p, 0)],
                   [CvUpload(1, 0, 7, "/uploads/a.pdf", "aa", "processed", 1),
                    CvUpload(2, 0, 7, "/uploads/b.pdf", "bb", "processed", 2)],
                   map[7 := Job(7, "Dev", "", "")], 3, 3);
      var parsed := ParsedCv(None, Some("an@example.com"), None, None, None, None, None);
      var e := FileEnv(SavedAt("/uploads/c.pdf"), Extracted(parsed, FitAssessment(None, None, None)), None, None);
      && PickOk(db, e, "aa", Some(db.uploads[0])) && PickOk(db, e, "aa", Some(db.uploads[1]))
      && IngestFile(db, 7, CvFile("c.pdf", []), e, "aa", Some(db.uploads[0])).1.item.reason == ByHash
      && IngestFile(db, 7, CvFile("c.pdf", []), e, "aa", Some(db.uploads[1])).1.item.reason == ByEmail
  {
  }

  // ----- The email filter when the extraction found no email -----

  /** As written, a CV whose extracted email is missing or empty matches every
      stored upload that has a candidate, whatever its hash. */
  lemma MissingEmailMatchesEveryUpload(db: Db, h: string, email: Option<string>, u: CvUpload)
    requires email.None? || email == Some("")
    requires u in db.uploads && u.candidate_id in db.candidates
    ensures u in Matching(db, h, email, db.uploads)
  {
  }

  /** A concrete case: one stored CV, a new file with different content and no
      email is reported as a duplicate of it, with reason `email`. */
  lemma MissingEmailReportedAsEmailDuplicate()
    ensures var p := Profile("An", "an@example.com", None, None, None, [], None, Some(70), [], []);
      var db := Db(map[0 := Candidate(0, p, 0)], [CvUpload(1, 0, 7, "/uploads/a.pdf", "aa", "processed", 1)],
                   map[7 := Job(7, "Dev", "", "")], 2, 2);
      var parsed := ParsedCv(Some("Binh"), None, None, None, None, None, None);
      var e := FileEnv(SavedAt("/uploads/b.pdf"), Extracted(parsed, FitAssessment(None, None, None)), None, None);
      && Matching(db, "bb", None, db.uploads) == db.uploads
      && PickOk(db, e, "bb", Some(db.uploads[0]))
      && IngestFile(db, 7, CvFile("b.pdf", []), e, "bb", Some(db.uploads[0])).1.item.reason == ByEmail
  {
  }

  /** The intended filter: without an email, only the hash can match. */
  lemma IntendedMatchNeedsEmailOrHash(db: Db, h: string, email: Option<string>, u: CvUpload)
    ensures EmailFilter(email).None? ==> (IntendedMatch(db, h, email, u) <==> u.hash == h)
    ensures EmailFilter(email).Some? ==> (IntendedMatch(db, h, email, u) <==> QueryMatches(db, h, email, u))
  {
  }

  /** The request checks come before any file: a missing job or an empty file list
      is a 400, an unknown job a 404 naming it, and neither touches the store;
      otherwise the answer is the batch's lists, or a 500 when an exception
      escaped the loop. */
  lemma RequestChecksComeFirst(db: Db, req: UploadRequest, envs: seq<FileEnv>,
                               hashOf: seq<bv8> -> string, picks: seq<Option<CvUpload>>)
    requires |envs| == |req.files| == |picks|
    ensures var (db', resp) := UploadSpec(db, req, envs, hashOf, picks);
      && (req.jobId.None? || |req.files| == 0 ==> db' == db && resp == Rejected(400, "Missing job_id or files"))
      && (req.jobId.Some? && |req.files| > 0 && req.jobId.value !in db.jobs ==>
            db' == db && resp == Rejected(404, "Job not found: " + IdText(req.jobId.value)))
      && (req.jobId.Some? && |req.files| > 0 && req.jobId.value in db.jobs ==>
            var run := RunBatch(db, req.jobId.value, req.files, envs, hashOf, picks);
            && db' == run.db
            && (resp.Batch? <==> !Halted(run))
            && (resp.Rejected? ==> resp == Rejected(500, "Internal server error"))
            && (resp.Batch? ==> resp.new_cvs == NewCvs(run.outcomes) && resp.errors == Errors(run.outcomes)
                                && resp.duplicates == Duplicates(run.outcomes)))
  {
  }
}
