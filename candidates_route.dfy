/** The candidates listing endpoint: one page of candidates in table order, the
    total count, and for each candidate the file of its current CV, which is its
    most recent processed upload. */
module CandidatesRoute {
  import opened Values
  import opened CandidateStore
  import Ingest = UploadCvRoute
  import Pagination
  import UploadCvProperties

  /** A listed candidate: the row, the uploads the query includes with it (at most
      one: its latest processed upload) and the `file_url` taken from it. */
  datatype Listed = Listed(candidate: Candidate, cv_uploads: seq<CvUpload>, file_url: Option<string>)

  /** The JSON answer, or the failure of the query (a negative `skip` or `take`, or
      a page or limit that is not a number), which the framework answers with 500. */
  datatype ListResponse =
    | Listing(candidates: seq<Listed>, total: nat, page: int, limit: int)
    | QueryFailed

  const DefaultPage := "1"
  const DefaultLimit := "10"

  /** `parseInt(param || default)`: a missing or empty parameter reads as the
      default; `None` is NaN. */
  function Param(raw: Option<string>, default: string, parseInt: string -> Option<int>): Option<int> {
    if raw.None? || raw.value == "" then parseInt(default) else parseInt(raw.value)
  }

  predicate IsCurrentCv(u: CvUpload, id: Id) {
    u.status == Ingest.Processed && u.candidate_id == id
  }

  /** The included `cv_uploads`: the candidate's processed upload with the latest
      `created_at`, if it has any. */
  function LatestProcessed(uploads: seq<CvUpload>, id: Id): (r: Option<CvUpload>)
    ensures r.None? <==> forall v | v in uploads :: !IsCurrentCv(v, id)
    ensures r.Some? ==> r.value in uploads && IsCurrentCv(r.value, id)
    ensures r.Some? ==> forall v | v in uploads && IsCurrentCv(v, id) :: v.created_at <= r.value.created_at
    decreases |uploads|
  {
    if uploads == [] then None
    else
      var init := uploads[..|uploads| - 1];
      var last := uploads[|uploads| - 1];
      assert uploads == init + [last];
      var r := LatestProcessed(init, id);
      if IsCurrentCv(last, id) && (r.None? || last.created_at > r.value.created_at) then Some(last)
      else r
  }

  /** The row as it is listed: `{...c, file_url: c.cv_uploads[0]?.file_url ?? null}`,
      where `cv_uploads` holds the candidate's latest processed upload, if any. */
  function ListOne(c: Candidate, uploads: seq<CvUpload>): (r: Listed)
    ensures r.candidate == c
    ensures r.file_url.None? <==> forall v | v in uploads :: !IsCurrentCv(v, c.id)
    ensures r.file_url.Some? ==> exists v | v in uploads && IsCurrentCv(v, c.id) ::
      && r.file_url.value == v.file_url
      && forall w | w in uploads && IsCurrentCv(w, c.id) :: w.created_at <= v.created_at
    ensures |r.cv_uploads| <= 1 && (r.cv_uploads == [] <==> r.file_url.None?)
    ensures r.cv_uploads != [] ==>
      var u := r.cv_uploads[0];
      && u in uploads && IsCurrentCv(u, c.id) && r.file_url == Some(u.file_url)
      && forall w | w in uploads && IsCurrentCv(w, c.id) :: w.created_at <= u.created_at
  {
    match LatestProcessed(uploads, c.id)
    case Some(u) => Listed(c, [u], Some(u.file_url))
    case None => Listed(c, [], None)
  }

  /** `findMany({skip, take})` over the table in its own order. */
  function Window(table: seq<Candidate>, skip: nat, take: nat): (r: seq<Candidate>)
    ensures |r| == if skip >= |table| then 0 else if take < |table| - skip then take else |table| - skip
    ensures forall i | 0 <= i < |r| :: r[i] == table[skip + i]
  {
    if skip >= |table| then []
    else if take < |table| - skip then table[skip..skip + take]
    else table[skip..]
  }

  /** The GET handler. */
  function ListCandidates(table: seq<Candidate>, uploads: seq<CvUpload>,
                          pageRaw: Option<string>, limitRaw: Option<string>,
                          parseInt: string -> Option<int>): (r: ListResponse)
    ensures r.Listing? ==> r.total == |table|
  {
    var page := Param(pageRaw, DefaultPage, parseInt);
    var limit := Param(limitRaw, DefaultLimit, parseInt);
    if page.None? || limit.None? then QueryFailed
    else
      var skip := (page.value - 1) * limit.value;
      if skip < 0 || limit.value < 0 then QueryFailed
      else
        var rows := Window(table, skip, limit.value);
        Listing(seq(|rows|, i requires 0 <= i < |rows| => ListOne(rows[i], uploads)), |table|, page.value, limit.value)
  }

  /** A listing holds the rows `(page - 1) * limit` onwards, at most `limit` of
      them, in table order, each with its current CV; `total` counts every row. */
  lemma ListingIsThePage(table: seq<Candidate>, uploads: seq<CvUpload>,
                         pageRaw: Option<string>, limitRaw: Option<string>,
                         parseInt: string -> Option<int>)
    ensures var r := ListCandidates(table, uploads, pageRaw, limitRaw, parseInt);
      r.Listing? ==>
        var skip := (r.page - 1) * r.limit;
        && skip >= 0 && r.limit >= 0 && r.total == |table|
        && |r.candidates| == (if skip >= |table| then 0 else if r.limit < |table| - skip then r.limit else |table| - skip)
        && forall i | 0 <= i < |r.candidates| :: r.candidates[i] == ListOne(table[skip + i], uploads)
  {
  }

  /** Without parameters the first page of ten is listed. */
  lemma DefaultsListFirstTen(table: seq<Candidate>, uploads: seq<CvUpload>, parseInt: string -> Option<int>)
    requires parseInt(DefaultPage) == Some(1) && parseInt(DefaultLimit) == Some(10)
    ensures var r := ListCandidates(table, uploads, None, None, parseInt);
      && r.Listing? && r.page == 1 && r.limit == 10
      && |r.candidates| == (if |table| < 10 then |table| else 10)
      && forall i | 0 <= i < |r.candidates| :: r.candidates[i].candidate == table[i]
  {
  }

  /** A query the database refuses: a page before the first, or a negative limit. */
  lemma NegativeSkipFails(table: seq<Candidate>, uploads: seq<CvUpload>,
                          pageRaw: Option<string>, limitRaw: Option<string>, parseInt: string -> Option<int>)
    requires Param(pageRaw, DefaultPage, parseInt) == Some(0)
    requires Param(limitRaw, DefaultLimit, parseInt).Some? && Param(limitRaw, DefaultLimit, parseInt).value > 0
    ensures ListCandidates(table, uploads, pageRaw, limitRaw, parseInt) == QueryFailed
  {
  }

  /** An upload that is not processed never becomes the current CV. */
  lemma {:induction false} UnprocessedNeverCounts(uploads: seq<CvUpload>, u: CvUpload, id: Id)
    requires u.status != Ingest.Processed
    ensures LatestProcessed(uploads + [u], id) == LatestProcessed(uploads, id)
  {
    assert (uploads + [u])[..|uploads + [u]| - 1] == uploads;
  }

  /** A processed upload newer than every other upload of its candidate becomes
      the current CV. */
  lemma {:induction false} NewestProcessedIsCurrent(uploads: seq<CvUpload>, u: CvUpload)
    requires u.status == Ingest.Processed
    requires forall v | v in uploads && v.candidate_id == u.candidate_id :: v.created_at < u.created_at
    ensures LatestProcessed(uploads + [u], u.candidate_id) == Some(u)
  {
    assert (uploads + [u])[..|uploads + [u]| - 1] == uploads;
  }

  /** After a file is ingested as a new candidate, that candidate is listed with
      the file just stored. */
  lemma IngestedCandidateShowsItsFile(db: Db, jobId: Id, f: Ingest.CvFile, e: Ingest.FileEnv, h: string,
                                      pick: Option<CvUpload>)
    requires ValidDb(db)
    requires Ingest.IngestFile(db, jobId, f, e, h, pick).1.Ingested?
    ensures var (db', o) := Ingest.IngestFile(db, jobId, f, e, h, pick);
      ListOne(o.candidate, db'.uploads).file_url == Some(e.storage.url)
  {
    UploadCvProperties.NewFileAddsCandidateAndUpload(db, jobId, f, e, h, pick);
    var (db', o) := Ingest.IngestFile(db, jobId, f, e, h, pick);
    var u := db'.uploads[|db.uploads|];
    assert db'.uploads == db.uploads + [u];
    NewestProcessedIsCurrent(db.uploads, u);
  }

  /** With a positive limit, row `i` of the table is listed on page
      `i / limit + 1`, at position `i % limit`. That page lies within the pager's
      range: the pager showing it lists its number, and Next leads to it from the
      first page. */
  lemma RowOnItsPage(table: seq<Candidate>, uploads: seq<CvUpload>, limit: nat, i: nat,
                     pageRaw: Option<string>, limitRaw: Option<string>, parseInt: string -> Option<int>)
    requires limit > 0 && i < |table|
    requires Param(pageRaw, DefaultPage, parseInt) == Some(i / limit + 1)
    requires Param(limitRaw, DefaultLimit, parseInt) == Some(limit)
    ensures var r := ListCandidates(table, uploads, pageRaw, limitRaw, parseInt);
      && r.Listing? && i % limit < |r.candidates|
      && r.candidates[i % limit].candidate == table[i]
      && var totalPages := Pagination.TotalPages(r.total, r.limit);
      && 1 <= r.page <= totalPages
      && Pagination.Lists(Pagination.PageNumbers(r.page, totalPages), r.page)
      && forall p | 1 <= p < r.page :: Pagination.NextTarget(p, totalPages) == Some(p + 1)
  {
    PageArithmetic(i, limit, |table|);
    var page := i / limit + 1;
    ListedRow(table, uploads, limit, i, pageRaw, limitRaw, parseInt);
    Pagination.PageNumbersWellFormed(page, Pagination.TotalPages(|table|, limit));
  }

  /** The listing part of `RowOnItsPage`: row `i` is at position `i % limit` of
      page `i / limit + 1`. */
  lemma ListedRow(table: seq<Candidate>, uploads: seq<CvUpload>, limit: nat, i: nat,
                  pageRaw: Option<string>, limitRaw: Option<string>, parseInt: string -> Option<int>)
    requires limit > 0 && i < |table|
    requires Param(pageRaw, DefaultPage, parseInt) == Some(i / limit + 1)
    requires Param(limitRaw, DefaultLimit, parseInt) == Some(limit)
    ensures var r := ListCandidates(table, uploads, pageRaw, limitRaw, parseInt);
      && r.Listing? && r.page == i / limit + 1 && r.limit == limit && r.total == |table|
      && i % limit < |r.candidates| && r.candidates[i % limit].candidate == table[i]
  {
    PageArithmetic(i, limit, |table|);
    ListedAt(table, uploads, i / limit + 1, limit, i % limit, pageRaw, limitRaw, parseInt);
  }

  /** Position `j` of a page holds the row `(page - 1) * limit + j` of the table. */
  lemma ListedAt(table: seq<Candidate>, uploads: seq<CvUpload>, page: nat, limit: nat, j: nat,
                 pageRaw: Option<string>, limitRaw: Option<string>, parseInt: string -> Option<int>)
    requires page >= 1 && j < limit && (page - 1) * limit + j < |table|
    requires Param(pageRaw, DefaultPage, parseInt) == Some(page)
    requires Param(limitRaw, DefaultLimit, parseInt) == Some(limit)
    ensures var r := ListCandidates(table, uploads, pageRaw, limitRaw, parseInt);
      && r.Listing? && r.page == page && r.limit == limit && r.total == |table|
      && j < |r.candidates| && r.candidates[j].candidate == table[(page - 1) * limit + j]
  {
    var skip := (page - 1) * limit;
    var rows := Window(table, skip, limit);
    assert j < |rows| && rows[j] == table[skip + j];
  }

  lemma PageArithmetic(i: nat, limit: nat, total: nat)
    requires limit > 0 && i < total
    ensures (i / limit) * limit + i % limit == i && i % limit < limit
    ensures i / limit + 1 <= Pagination.TotalPages(total, limit)
  {
    var q := i / limit;
    var tp := Pagination.TotalPages(total, limit);
    assert q * limit <= i;
    if q + 1 > tp {
      MulMonotone(tp, q, limit);
    }
  }

  lemma MulMonotone(a: nat, b: nat, c: nat)
    requires a <= b
    ensures a * c <= b * c
  {
    assert b * c == a * c + (b - a) * c;
  }
}
