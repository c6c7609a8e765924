/** The CV ingestion route: validate the request, then take the files one at a
    time: store the file, fingerprint it, extract and score it, look for an
    existing upload with the same fingerprint or the same candidate email, and
    either report a duplicate or insert a candidate and its upload.

    Everything outside the store is an input: the fingerprint function (SHA-256 in
    the source) is the parameter `hashOf`; for each file a `FileEnv` says where the
    storage collaborator saved it (or that saving failed), what the extraction
    service returned, and whether either insert failed. The unordered `findFirst`
    is a choice among the matching rows; the ghost `picks` record which. */
module UploadCvRoute {
  import opened Values
  import opened CandidateStore

  datatype CvFile = CvFile(name: string, content: seq<bv8>)

  /** What the extraction service made of a CV; every field may be missing. */
  datatype ParsedCv = ParsedCv(
    full_name: Option<string>,
    email: Option<string>,
    birthdate: Option<string>,
    gender: Option<string>,
    experience: Option<int>,
    skills: Option<seq<string>>,
    address: Option<string>)

  /** What the scoring call returned; every field may be missing. */
  datatype FitAssessment = FitAssessment(
    fit_score: Option<int>,
    strengths: Option<seq<string>>,
    weaknesses: Option<seq<string>>)

  /** The upload, parse, score and delete calls, as one outcome. */
  datatype Extraction = Extracted(parsed: ParsedCv, fit: FitAssessment) | ExtractionFailed(message: string)

  datatype Storage = SavedAt(url: string) | SaveFailed

  /** The environment's answers for one file. A `Some` fault is the message of the
      exception that insert throws. */
  datatype FileEnv = FileEnv(
    storage: Storage,
    extraction: Extraction,
    candidateFault: Option<string>,
    uploadFault: Option<string>)

  datatype Reason = ByHash | ByEmail {
    function Name(): string {
      match this
      case ByHash => "hash"
      case ByEmail => "email"
    }
  }

  datatype ExistingSummary = ExistingSummary(name: string, email: string, old_cv_url: string)

  datatype DuplicateItem = DuplicateItem(
    existingCvId: Id,
    file_name: string,
    reason: Reason,
    existing: ExistingSummary,
    newData: map<Key, Value>)

  datatype FileError = FileError(file_name: string, message: string)

  /** How one file ended. `Aborted` is the exception that escapes the loop (the file
      could not be written to storage) and ends the whole request. */
  datatype FileOutcome =
    | Ingested(file_name: string, candidate: Candidate)
    | Duplicate(item: DuplicateItem)
    | Failed(error: FileError)
    | Aborted(file_name: string)
  {
    function FileName(): string {
      match this
      case Ingested(n, _) => n
      case Duplicate(d) => d.file_name
      case Failed(e) => e.file_name
      case Aborted(n) => n
    }
  }

  datatype UploadRequest = UploadRequest(jobId: Option<Id>, files: seq<CvFile>)

  datatype UploadResponse =
    | Batch(new_cvs: seq<Candidate>, duplicates: seq<DuplicateItem>, errors: seq<FileError>)
    | Rejected(status: int, error: string)

  const MissingInputMessage := "Missing job_id or files"
  const JobNotFoundPrefix := "Job not found: "
  const InternalErrorMessage := "Internal server error"
  const Processed := "processed"

  /** `x ? value : null` on a date text: the empty text counts as missing. */
  function Falsy0Str(o: Option<string>): Option<string> {
    if o.Some? && o.value != "" then o else None
  }

  /** `x ? parseInt(x) : null` on a number: zero counts as missing. */
  function Falsy0Num(o: Option<int>): Option<int> {
    if o.Some? && o.value != 0 then o else None
  }

  /** The candidate row created for a new CV, with its defaults: empty name and
      email, no date for a missing or empty one, empty lists, score 0, no
      experience for a missing or zero one. */
  function NewProfile(p: ParsedCv, f: FitAssessment): Profile {
    Profile(
      p.full_name.GetOr(""),
      p.email.GetOr(""),
      Falsy0Str(p.birthdate),
      p.gender,
      Falsy0Num(p.experience),
      p.skills.GetOr([]),
      p.address,
      Some(f.fit_score.GetOr(0)),
      f.strengths.GetOr([]),
      f.weaknesses.GetOr([]))
  }

  /** One column of a duplicate item's `newData`, with the same defaults as a new
      candidate. Gender and address are `undefined` when missing, and so absent
      from the JSON (`None` here). */
  function ReportedColumn(p: ParsedCv, f: FitAssessment, k: Key): Option<Value> {
    match k
    case FullName => Some(VStr(p.full_name.GetOr("")))
    case Email => Some(VStr(p.email.GetOr("")))
    case Birthdate => Some(OptStr(Falsy0Str(p.birthdate)))
    case Gender => if p.gender.Some? then Some(VStr(p.gender.value)) else None
    case Experience => Some(OptNum(Falsy0Num(p.experience)))
    case Skills => Some(VList(p.skills.GetOr([])))
    case Address => if p.address.Some? then Some(VStr(p.address.value)) else None
    case FitScore => Some(VNum(f.fit_score.GetOr(0)))
    case Strengths => Some(VList(f.strengths.GetOr([])))
    case Weaknesses => Some(VList(f.weaknesses.GetOr([])))
  }

  /** The `newData` of a duplicate item, as it reaches the resolver. */
  function NewDataOf(p: ParsedCv, f: FitAssessment): map<Key, Value> {
    map k | k in AllKeys && ReportedColumn(p, f, k).Some? :: ReportedColumn(p, f, k).value
  }

  /** The duplicate's `newData` carries the very columns a new candidate would get. */
  lemma NewDataIsNewProfile(p: ParsedCv, f: FitAssessment)
    ensures forall k | k in NewDataOf(p, f) :: NewDataOf(p, f)[k] == Read(NewProfile(p, f), k)
    ensures forall k :: k in NewDataOf(p, f) <==>
      (k == Gender ==> p.gender.Some?) && (k == Address ==> p.address.Some?)
  {
    AllKeysComplete();
  }

  /** `parsedData.email || undefined`: an empty or missing email drops the filter. */
  function EmailFilter(email: Option<string>): Option<string> {
    if email.Some? && email.value != "" then email else None
  }

  /** The `findFirst` filter as written: same hash, OR a candidate whose email
      matches the filter; with the filter dropped, `{candidate: {}}` matches every
      upload that has a candidate. */
  predicate QueryMatches(db: Db, h: string, email: Option<string>, u: CvUpload) {
    || u.hash == h
    || (u.candidate_id in db.candidates &&
        (EmailFilter(email).None? ||
         db.candidates[u.candidate_id].profile.email == EmailFilter(email).value))
  }

  /** The filter as evidently intended: the email only takes part when there is one. */
  predicate IntendedMatch(db: Db, h: string, email: Option<string>, u: CvUpload) {
    || u.hash == h
    || (EmailFilter(email).Some? && u.candidate_id in db.candidates &&
        db.candidates[u.candidate_id].profile.email == EmailFilter(email).value)
  }

  /** The rows `findFirst` may return. */
  function Matching(db: Db, h: string, email: Option<string>, us: seq<CvUpload>): (r: seq<CvUpload>)
    ensures forall u :: u in r <==> u in us && QueryMatches(db, h, email, u)
  {
    if us == [] then []
    else
      var rest := Matching(db, h, email, us[1..]);
      assert forall u :: u in us <==> u == us[0] || u in us[1..];
      if QueryMatches(db, h, email, us[0]) then [us[0]] + rest else rest
  }

  /** A duplicate report for the matched row `u`. */
  function DuplicateOf(db: Db, u: CvUpload, name: string, h: string, p: ParsedCv, f: FitAssessment)
    : DuplicateItem
  {
    var existing :=
      if u.candidate_id in db.candidates then
        var c := db.candidates[u.candidate_id].profile;
        ExistingSummary(c.full_name, c.email, u.file_url)
      else ExistingSummary("", "", u.file_url);
    DuplicateItem(u.id, name, if u.hash == h then ByHash else ByEmail, existing, NewDataOf(p, f))
  }

  /** The choice `findFirst` made for a file is legitimate: no row when none
      matches, otherwise one of the matching rows; no choice when the query is
      never reached. */
  ghost predicate PickOk(db: Db, e: FileEnv, h: string, pick: Option<CvUpload>) {
    if e.storage.SavedAt? && e.extraction.Extracted? then
      var m := Matching(db, h, e.extraction.parsed.email, db.uploads);
      if m == [] then pick.None? else pick.Some? && pick.value in m
    else pick.None?
  }

  /** One pass of the loop body, given the row `findFirst` returned. */
  function IngestFile(db: Db, jobId: Id, f: CvFile, e: FileEnv, h: string, pick: Option<CvUpload>)
    : (Db, FileOutcome)
  {
    match e.storage
    case SaveFailed => (db, Aborted(f.name))
    case SavedAt(url) =>
      match e.extraction
      case ExtractionFailed(m) => (db, Failed(FileError(f.name, m)))
      case Extracted(p, fit) =>
        if pick.Some? then (db, Duplicate(DuplicateOf(db, pick.value, f.name, h, p, fit)))
        else if e.candidateFault.Some? then (db, Failed(FileError(f.name, e.candidateFault.value)))
        else
          var (db1, c) := AddCandidate(db, NewProfile(p, fit));
          if e.uploadFault.Some? then (db1, Failed(FileError(f.name, e.uploadFault.value)))
          else
            var (db2, _) := AddUpload(db1, c.id, jobId, url, h, Processed);
            (db2, Ingested(f.name, c))
  }

  datatype BatchRun = BatchRun(db: Db, outcomes: seq<FileOutcome>)

  predicate Halted(run: BatchRun) {
    |run.outcomes| > 0 && run.outcomes[|run.outcomes| - 1].Aborted?
  }

  /** The loop over the files, in order, up to the first exception that escapes it. */
  function RunBatch(db: Db, jobId: Id, files: seq<CvFile>, envs: seq<FileEnv>,
                    hashOf: seq<bv8> -> string, picks: seq<Option<CvUpload>>): BatchRun
    requires |envs| == |files| == |picks|
    decreases |files|
  {
    if files == [] then BatchRun(db, [])
    else
      var n := |files| - 1;
      var run := RunBatch(db, jobId, files[..n], envs[..n], hashOf, picks[..n]);
      if Halted(run) then run
      else
        var (db', o) := IngestFile(run.db, jobId, files[n], envs[n], hashOf(files[n].content), picks[n]);
        BatchRun(db', run.outcomes + [o])
  }

  /** Every choice made along the batch was legitimate in the store as it then was. */
  ghost predicate PicksOk(db: Db, jobId: Id, files: seq<CvFile>, envs: seq<FileEnv>,
                          hashOf: seq<bv8> -> string, picks: seq<Option<CvUpload>>)
    requires |envs| == |files| == |picks|
    decreases |files|
  {
    if files == [] then true
    else
      var n := |files| - 1;
      var run := RunBatch(db, jobId, files[..n], envs[..n], hashOf, picks[..n]);
      && PicksOk(db, jobId, files[..n], envs[..n], hashOf, picks[..n])
      && (Halted(run) || PickOk(run.db, envs[n], hashOf(files[n].content), picks[n]))
  }

  function NewCvs(os: seq<FileOutcome>): seq<Candidate> {
    if os == [] then []
    else NewCvs(os[..|os| - 1]) + (if os[|os| - 1].Ingested? then [os[|os| - 1].candidate] else [])
  }

  function Duplicates(os: seq<FileOutcome>): seq<DuplicateItem> {
    if os == [] then []
    else Duplicates(os[..|os| - 1]) + (if os[|os| - 1].Duplicate? then [os[|os| - 1].item] else [])
  }

  function Errors(os: seq<FileOutcome>): seq<FileError> {
    if os == [] then []
    else Errors(os[..|os| - 1]) + (if os[|os| - 1].Failed? then [os[|os| - 1].error] else [])
  }

  /** The route's answer: the three lists, or a 500 when an exception escaped. */
  function Respond(run: BatchRun): UploadResponse {
    if Halted(run) then Rejected(500, InternalErrorMessage)
    else Batch(NewCvs(run.outcomes), Duplicates(run.outcomes), Errors(run.outcomes))
  }

  /** The whole route: request checks first, then the batch. */
  function UploadSpec(db: Db, req: UploadRequest, envs: seq<FileEnv>,
                      hashOf: seq<bv8> -> string, picks: seq<Option<CvUpload>>): (Db, UploadResponse)
    requires |envs| == |req.files| == |picks|
  {
    if req.jobId.None? || |req.files| == 0 then (db, Rejected(400, MissingInputMessage))
    else if req.jobId.value !in db.jobs then (db, Rejected(404, JobNotFoundPrefix + IdText(req.jobId.value)))
    else
      var run := RunBatch(db, req.jobId.value, req.files, envs, hashOf, picks);
      (run.db, Respond(run))
  }

  /** Once an exception has escaped, the files after it change nothing. */
  lemma {:induction false} HaltedStays(db: Db, jobId: Id, files: seq<CvFile>, envs: seq<FileEnv>,
                                       hashOf: seq<bv8> -> string, picks: seq<Option<CvUpload>>, k: nat)
    requires |envs| == |files| == |picks| && k <= |files|
    requires Halted(RunBatch(db, jobId, files[..k], envs[..k], hashOf, picks[..k]))
    ensures RunBatch(db, jobId, files, envs, hashOf, picks) == RunBatch(db, jobId, files[..k], envs[..k], hashOf, picks[..k])
    ensures PicksOk(db, jobId, files[..k], envs[..k], hashOf, picks[..k]) ==> PicksOk(db, jobId, files, envs, hashOf, picks)
    decreases |files|
  {
    if k < |files| {
      var n := |files| - 1;
      assert files[..n][..k] == files[..k] && envs[..n][..k] == envs[..k] && picks[..n][..k] == picks[..k];
      HaltedStays(db, jobId, files[..n], envs[..n], hashOf, picks[..n], k);
    } else {
      assert files[..k] == files && envs[..k] == envs && picks[..k] == picks;
    }
  }

  /** The batch over one more file is the batch so far followed by that file. */
  lemma BatchStep(db: Db, jobId: Id, files: seq<CvFile>, envs: seq<FileEnv>, hashOf: seq<bv8> -> string,
                  picks: seq<Option<CvUpload>>, pick: Option<CvUpload>, i: nat)
    requires i < |files| == |envs| && |picks| == i
    requires !Halted(RunBatch(db, jobId, files[..i], envs[..i], hashOf, picks))
    ensures var run := RunBatch(db, jobId, files[..i], envs[..i], hashOf, picks);
            var step := IngestFile(run.db, jobId, files[i], envs[i], hashOf(files[i].content), pick);
            && RunBatch(db, jobId, files[..i + 1], envs[..i + 1], hashOf, picks + [pick])
               == BatchRun(step.0, run.outcomes + [step.1])
            && (PicksOk(db, jobId, files[..i + 1], envs[..i + 1], hashOf, picks + [pick]) <==>
                PicksOk(db, jobId, files[..i], envs[..i], hashOf, picks) &&
                PickOk(run.db, envs[i], hashOf(files[i].content), pick))
  {
    assert files[..i + 1][..i] == files[..i] && envs[..i + 1][..i] == envs[..i];
    assert (picks + [pick])[..i] == picks;
  }

  /** One pass of the loop body over the store: the file's outcome, with the row
      `findFirst` returned. */
  method IngestOne(store: Store, jobId: Id, file: CvFile, env: FileEnv, hash: string)
    returns (outcome: FileOutcome, ghost pick: Option<CvUpload>)
    requires store.Valid()
    modifies store
    ensures store.Valid() && store.jobs == old(store.jobs)
    ensures PickOk(old(store.State()), env, hash, pick)
    ensures (store.State(), outcome) == IngestFile(old(store.State()), jobId, file, env, hash, pick)
  {
    pick := None;
    if env.storage.SaveFailed? {
      return Aborted(file.name), pick;
    }
    var url := env.storage.url;
    match env.extraction {
      case ExtractionFailed(m) =>
        outcome := Failed(FileError(file.name, m));
      case Extracted(parsed, fit) =>
        var matching := Matching(store.State(), hash, parsed.email, store.uploads);
        if |matching| > 0 {
          assert matching[0] in matching;
          var existing :| existing in matching;
          pick := Some(existing);
          outcome := Duplicate(DuplicateOf(store.State(), existing, file.name, hash, parsed, fit));
        } else if env.candidateFault.Some? {
          outcome := Failed(FileError(file.name, env.candidateFault.value));
        } else {
          var candidate := store.CreateCandidate(NewProfile(parsed, fit));
          if env.uploadFault.Some? {
            outcome := Failed(FileError(file.name, env.uploadFault.value));
          } else {
            var _ := store.CreateUpload(candidate.id, jobId, url, hash, Processed);
            outcome := Ingested(file.name, candidate);
          }
        }
    }
  }

  /** The per-file loop: the files in order, until one raises an exception that
      escapes the loop. */
  method RunFiles(store: Store, jobId: Id, files: seq<CvFile>, envs: seq<FileEnv>, hashOf: seq<bv8> -> string)
    returns (newCvs: seq<Candidate>, duplicates: seq<DuplicateItem>, errors: seq<FileError>,
             halted: bool, ghost picks: seq<Option<CvUpload>>)
    requires |envs| == |files|
    requires store.Valid()
    modifies store
    ensures store.Valid() && store.jobs == old(store.jobs) && |picks| == |files|
    ensures PicksOk(old(store.State()), jobId, files, envs, hashOf, picks)
    ensures var run := RunBatch(old(store.State()), jobId, files, envs, hashOf, picks);
      && store.State() == run.db && halted == Halted(run)
      && newCvs == NewCvs(run.outcomes) && duplicates == Duplicates(run.outcomes) && errors == Errors(run.outcomes)
  {
    ghost var db0 := store.State();
    picks := [];
    ghost var outcomes: seq<FileOutcome> := [];
    newCvs, duplicates, errors, halted := [], [], [], false;
    var i := 0;
    while i < |files| && !halted
      invariant 0 <= i <= |files| && |picks| == i
      invariant store.Valid() && store.jobs == db0.jobs
      invariant RunBatch(db0, jobId, files[..i], envs[..i], hashOf, picks) == BatchRun(store.State(), outcomes)
      invariant halted == Halted(BatchRun(store.State(), outcomes))
      invariant PicksOk(db0, jobId, files[..i], envs[..i], hashOf, picks)
      invariant newCvs == NewCvs(outcomes) && duplicates == Duplicates(outcomes) && errors == Errors(outcomes)
    {
      var outcome, pick := IngestOne(store, jobId, files[i], envs[i], hashOf(files[i].content));
      BatchStep(db0, jobId, files, envs, hashOf, picks, pick, i);
      OutcomeStep(store.State(), outcomes, outcome);
      picks := picks + [pick];
      outcomes := outcomes + [outcome];
      match outcome {
        case Ingested(_, c) => newCvs := newCvs + [c];
        case Duplicate(d) => duplicates := duplicates + [d];
        case Failed(e) => errors := errors + [e];
        case Aborted(_) => halted := true;
      }
      i := i + 1;
    }
    picks := PadPicks(db0, jobId, files, envs, hashOf, picks);
  }

  /** The three lists and the halt flag after one more outcome. */
  lemma OutcomeStep(db: Db, os: seq<FileOutcome>, o: FileOutcome)
    ensures NewCvs(os + [o]) == NewCvs(os) + (if o.Ingested? then [o.candidate] else [])
    ensures Duplicates(os + [o]) == Duplicates(os) + (if o.Duplicate? then [o.item] else [])
    ensures Errors(os + [o]) == Errors(os) + (if o.Failed? then [o.error] else [])
    ensures Halted(BatchRun(db, os + [o])) == o.Aborted?
  {
    assert (os + [o])[..|os|] == os;
  }

  /** The choices for a loop that ended, padded with `None` for the files it never
      reached: the batch and the legitimacy of the choices are those of the loop. */
  lemma PadPicks(db: Db, jobId: Id, files: seq<CvFile>, envs: seq<FileEnv>, hashOf: seq<bv8> -> string,
                 picks: seq<Option<CvUpload>>) returns (all: seq<Option<CvUpload>>)
    requires |envs| == |files| && |picks| <= |files|
    requires var i := |picks|;
      i == |files| || Halted(RunBatch(db, jobId, files[..i], envs[..i], hashOf, picks))
    requires PicksOk(db, jobId, files[..|picks|], envs[..|picks|], hashOf, picks)
    ensures |all| == |files|
    ensures RunBatch(db, jobId, files, envs, hashOf, all) == RunBatch(db, jobId, files[..|picks|], envs[..|picks|], hashOf, picks)
    ensures PicksOk(db, jobId, files, envs, hashOf, all)
  {
    var i := |picks|;
    all := picks + seq(|files| - i, _ => None);
    assert all[..i] == picks;
    if i == |files| {
      assert files[..i] == files && envs[..i] == envs && all == picks;
    } else {
      HaltedStays(db, jobId, files, envs, hashOf, all, i);
    }
  }

  /** The route itself, over the store it updates in place. */
  method UploadCv(store: Store, req: UploadRequest, envs: seq<FileEnv>, hashOf: seq<bv8> -> string)
    returns (resp: UploadResponse, ghost picks: seq<Option<CvUpload>>)
    requires |envs| == |req.files|
    requires store.Valid()
    modifies store
    ensures store.Valid()
    ensures |picks| == |req.files|
    ensures req.jobId.Some? && req.jobId.value in old(store.State()).jobs ==>
      PicksOk(old(store.State()), req.jobId.value, req.files, envs, hashOf, picks)
    ensures (store.State(), resp) == UploadSpec(old(store.State()), req, envs, hashOf, picks)
  {
    picks := seq(|req.files|, _ => None);
    if req.jobId.None? || |req.files| == 0 {
      return Rejected(400, MissingInputMessage), picks;
    }
    if req.jobId.value !in store.jobs {
      return Rejected(404, JobNotFoundPrefix + IdText(req.jobId.value)), picks;
    }
    var newCvs, duplicates, errors, halted;
    newCvs, duplicates, errors, halted, picks := RunFiles(store, req.jobId.value, req.files, envs, hashOf);
    if halted {
      resp := Rejected(500, InternalErrorMessage);
    } else {
      resp := Batch(newCvs, duplicates, errors);
    }
  }
}
