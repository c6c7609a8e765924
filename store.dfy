/** The persistence boundary both CV routes share: the Candidate, CvUpload and Job
    tables. `Db` is a snapshot of the tables; the pure functions on it say what one
    create or update does, and the `Store` class holds the tables that the routes
    change in place. Ids for candidates and uploads come from one fresh-id supply,
    and the clock that stamps `created_at` advances on every insert. */
module CandidateStore {
  import opened Values

  type Id = nat

  /** The text of an id, as it appears in messages: its decimal digits. */
  function IdText(id: Id): (r: string)
    ensures |r| > 0 && forall i | 0 <= i < |r| :: '0' <= r[i] <= '9'
  {
    var digit := ['0' + (id % 10) as char];
    if id < 10 then digit else IdText(id / 10) + digit
  }

  datatype Candidate = Candidate(id: Id, profile: Profile, created_at: nat)

  datatype CvUpload = CvUpload(
    id: Id,
    candidate_id: Id,
    job_id: Id,
    file_url: string,
    hash: string,
    status: string,
    created_at: nat)

  datatype Job = Job(id: Id, title: string, description: string, requirements: string)

  datatype Db = Db(
    candidates: map<Id, Candidate>,
    uploads: seq<CvUpload>,
    jobs: map<Id, Job>,
    nextId: Id,
    clock: nat)

  /** Every stored candidate sits under its own id; every id handed out so far is
      below `nextId`; upload ids are unique. */
  ghost predicate ValidDb(db: Db) {
    && (forall id | id in db.candidates :: db.candidates[id].id == id && id < db.nextId)
    && (forall i | 0 <= i < |db.uploads| ::
          db.uploads[i].id < db.nextId && db.uploads[i].candidate_id < db.nextId)
    && (forall i, j | 0 <= i < j < |db.uploads| :: db.uploads[i].id != db.uploads[j].id)
  }

  /** The store after the tables gained rows but lost or changed none of `db`'s:
      every old candidate is still there with the same row, and the old uploads
      are a prefix of the new ones. */
  ghost predicate Extends(db: Db, db': Db) {
    && db.jobs == db'.jobs
    && (forall id | id in db.candidates :: id in db'.candidates && db'.candidates[id] == db.candidates[id])
    && |db.uploads| <= |db'.uploads| && db'.uploads[..|db.uploads|] == db.uploads
    && db.nextId <= db'.nextId
  }

  /** `prisma.candidate.create`: a new row under a fresh id. */
  function AddCandidate(db: Db, p: Profile): (r: (Db, Candidate))
    ensures r.1.profile == p && r.0.candidates == db.candidates[r.1.id := r.1]
    ensures r.0.uploads == db.uploads && r.0.jobs == db.jobs
    ensures ValidDb(db) ==> r.1.id !in db.candidates && ValidDb(r.0) && Extends(db, r.0)
    ensures ValidDb(db) ==> forall u | u in db.uploads :: u.id != r.1.id && u.candidate_id != r.1.id
  {
    var c := Candidate(db.nextId, p, db.clock);
    (db.(candidates := db.candidates[c.id := c], nextId := db.nextId + 1, clock := db.clock + 1), c)
  }

  /** `prisma.cvUpload.create`: a new upload row, appended, under a fresh id. */
  function AddUpload(db: Db, candidateId: Id, jobId: Id, url: string, hash: string, status: string)
    : (r: (Db, CvUpload))
    ensures r.0.uploads == db.uploads + [r.1] && r.0.candidates == db.candidates && r.0.jobs == db.jobs
    ensures r.1.candidate_id == candidateId && r.1.job_id == jobId && r.1.file_url == url
    ensures r.1.hash == hash && r.1.status == status
    ensures ValidDb(db) && candidateId < db.nextId ==> ValidDb(r.0) && Extends(db, r.0)
    ensures ValidDb(db) ==> r.1.id !in db.candidates && forall u | u in db.uploads :: u.id != r.1.id
  {
    var u := CvUpload(db.nextId, candidateId, jobId, url, hash, status, db.clock);
    (db.(uploads := db.uploads + [u], nextId := db.nextId + 1, clock := db.clock + 1), u)
  }

  /** `prisma.candidate.update`: the row `id` gets the columns of `p`; nothing else moves. */
  function SetProfile(db: Db, id: Id, p: Profile): (r: Db)
    requires id in db.candidates
    ensures r.candidates.Keys == db.candidates.Keys && r.candidates[id].profile == p
    ensures forall other | other in db.candidates && other != id :: r.candidates[other] == db.candidates[other]
    ensures r.uploads == db.uploads && r.jobs == db.jobs && r.nextId == db.nextId
    ensures ValidDb(db) ==> ValidDb(r)
  {
    db.(candidates := db.candidates[id := db.candidates[id].(profile := p)])
  }

  /** `prisma.cvUpload.findUnique` by id. */
  function FindUpload(uploads: seq<CvUpload>, id: Id): (r: Option<CvUpload>)
    ensures r.Some? <==> exists i | 0 <= i < |uploads| :: uploads[i].id == id
    ensures r.Some? ==> r.value in uploads && r.value.id == id
  {
    if uploads == [] then None
    else if uploads[0].id == id then Some(uploads[0])
    else FindUpload(uploads[1..], id)
  }

  /** The tables, updated in place by the two CV routes. */
  class Store {
    var candidates: map<Id, Candidate>
    var uploads: seq<CvUpload>
    var jobs: map<Id, Job>
    var nextId: Id
    var clock: nat

    function State(): Db
      reads this
    {
      Db(candidates, uploads, jobs, nextId, clock)
    }

    ghost predicate Valid()
      reads this
    {
      ValidDb(State())
    }

    constructor (db: Db)
      ensures State() == db
    {
      candidates, uploads, jobs, nextId, clock := db.candidates, db.uploads, db.jobs, db.nextId, db.clock;
    }

    method CreateCandidate(p: Profile) returns (c: Candidate)
      modifies this
      ensures (State(), c) == AddCandidate(old(State()), p)
    {
      c := Candidate(nextId, p, clock);
      candidates := candidates[c.id := c];
      nextId, clock := nextId + 1, clock + 1;
    }

    method CreateUpload(candidateId: Id, jobId: Id, url: string, hash: string, status: string)
      returns (u: CvUpload)
      modifies this
      ensures (State(), u) == AddUpload(old(State()), candidateId, jobId, url, hash, status)
    {
      u := CvUpload(nextId, candidateId, jobId, url, hash, status, clock);
      uploads := uploads + [u];
      nextId, clock := nextId + 1, clock + 1;
    }

    method UpdateCandidate(id: Id, p: Profile)
      requires id in candidates
      modifies this
      ensures State() == SetProfile(old(State()), id, p)
    {
      candidates := candidates[id := candidates[id].(profile := p)];
    }
  }
}
