/** The upload drawer: the chosen job, the list of chosen files, the checks made
    before sending, and what happens with the route's answer. */
module UploadDrawer {
  import opened Values
  import opened CandidateStore
  import Ingest = UploadCvRoute

  const NoJobMessage := "Please select a job position"
  const NoFilesMessage := "Please upload at least one CV file"
  const DuplicateNamePrefix := "Duplicate file name detected: "
  const UploadSuccessMessage := "Upload thành công!"
  const UploadFailedMessage := "Failed to upload CVs"
  const ServiceFailedMessage := "Upload failed"

  function Names(files: seq<Ingest.CvFile>): (r: seq<string>)
    ensures |r| == |files| && forall i | 0 <= i < |files| :: r[i] == files[i].name
  {
    seq(|files|, i requires 0 <= i < |files| => files[i].name)
  }

  /** The loop of `handleSubmit` over the file names: the first name that was
      already seen, if any. The names before it are all different. */
  method FirstRepeatedName(files: seq<Ingest.CvFile>) returns (repeated: Option<string>)
    ensures repeated.None? <==> NoDups(Names(files))
    ensures repeated.Some? ==> exists j | 0 <= j < |files| ::
      && files[j].name == repeated.value
      && repeated.value in Names(files[..j])
      && NoDups(Names(files[..j]))
  {
    var seen: set<string> := {};
    var i := 0;
    while i < |files|
      invariant 0 <= i <= |files|
      invariant seen == set k | 0 <= k < i :: files[k].name
      invariant NoDups(Names(files[..i]))
    {
      if files[i].name in seen {
        assert files[i].name in Names(files[..i]) by {
          var k :| 0 <= k < i && files[k].name == files[i].name;
          assert Names(files[..i])[k] == files[i].name;
        }
        assert !NoDups(Names(files)) by {
          var k :| 0 <= k < i && files[k].name == files[i].name;
          assert Names(files)[k] == Names(files)[i];
        }
        return Some(files[i].name);
      }
      seen := seen + {files[i].name};
      assert Names(files[..i + 1]) == Names(files[..i]) + [files[i].name];
      i := i + 1;
    }
    assert files[..i] == files;
    repeated := None;
  }

  /** `removeFile`: every file but the `index`-th, in order (an index past the end
      removes nothing). */
  function RemoveAt(files: seq<Ingest.CvFile>, index: int): (r: seq<Ingest.CvFile>)
    ensures 0 <= index < |files| ==> |r| == |files| - 1
    ensures 0 <= index < |files| ==> forall k | 0 <= k < index :: r[k] == files[k]
    ensures 0 <= index < |files| ==> forall k | index <= k < |r| :: r[k] == files[k + 1]
    ensures !(0 <= index < |files|) ==> r == files
  {
    if 0 <= index < |files| then files[..index] + files[index + 1..] else files
  }

  /** Removing a file loses exactly that file. */
  lemma RemoveAtLosesOneFile(files: seq<Ingest.CvFile>, index: int)
    requires 0 <= index < |files|
    ensures multiset(RemoveAt(files, index)) + multiset{files[index]} == multiset(files)
  {
    assert files == files[..index] + [files[index]] + files[index + 1..];
  }

  /** The answer to the upload request: the route's response, or a failure of the
      request itself with its message. */
  datatype UploadReply = Answered(response: Ingest.UploadResponse) | RequestFailed(message: string)

  datatype Notice = ErrorToast(text: string) | SuccessToast(text: string) | NoToast

  /** The toast for a failed upload. The service throws an error carrying the
      `message` field of an error response, or "Upload failed" when it has none;
      the upload route puts its text under `error`, so every error response ends
      as "Upload failed". A request that fails before any response keeps its own
      message. An empty message falls back to "Failed to upload CVs". */
  function FailureText(reply: UploadReply): (r: string)
    requires !(reply.Answered? && reply.response.Batch?)
    ensures reply.Answered? ==> r == ServiceFailedMessage
    ensures reply.RequestFailed? && reply.message != "" ==> r == reply.message
    ensures reply.RequestFailed? && reply.message == "" ==> r == UploadFailedMessage
  {
    var m := if reply.Answered? then ServiceFailedMessage else reply.message;
    if m != "" then m else UploadFailedMessage
  }

  /** As written, the route's reason for rejecting an upload never reaches the
      user: an unknown job and a missing file list show the same toast. */
  lemma RouteErrorNeverShown(jobId: Id)
    ensures var notFound := Ingest.Rejected(404, Ingest.JobNotFoundPrefix + IdText(jobId));
      && FailureText(Answered(notFound)) == ServiceFailedMessage
      && FailureText(Answered(notFound)) != notFound.error
      && FailureText(Answered(notFound)) == FailureText(Answered(Ingest.Rejected(400, Ingest.MissingInputMessage)))
  {
    var notFound := Ingest.Rejected(404, Ingest.JobNotFoundPrefix + IdText(jobId));
    assert notFound.error[0] == 'J';
  }

  /** The toast the service evidently meant to give: the route's `error` text,
      with the same fallbacks. */
  function IntendedFailureText(reply: UploadReply): (r: string)
    requires !(reply.Answered? && reply.response.Batch?)
    ensures reply.Answered? && reply.response.error != "" ==> r == reply.response.error
    ensures reply.Answered? && reply.response.error == "" ==> r == ServiceFailedMessage
    ensures reply.RequestFailed? ==> r == FailureText(reply)
  {
    if reply.Answered? then
      (if reply.response.error != "" then reply.response.error else ServiceFailedMessage)
    else FailureText(reply)
  }

  /** With the intended reading, every rejection the route can send is shown with
      its own text, so the toasts for different rejections differ. */
  lemma IntendedFailureTextShowsRouteError(db: Db, req: Ingest.UploadRequest, envs: seq<Ingest.FileEnv>,
                                           hashOf: seq<bv8> -> string, picks: seq<Option<CvUpload>>)
    requires |envs| == |req.files| == |picks|
    requires Ingest.UploadSpec(db, req, envs, hashOf, picks).1.Rejected?
    ensures var resp := Ingest.UploadSpec(db, req, envs, hashOf, picks).1;
      IntendedFailureText(Answered(resp)) == resp.error
  {
  }

  class Drawer {
    var selectedJob: string
    var files: seq<Ingest.CvFile>
    var result: Option<Ingest.UploadResponse>
    var duplicateModalOpen: bool
    var closed: bool

    constructor ()
      ensures selectedJob == "" && files == [] && result == None
      ensures !duplicateModalOpen && !closed
    {
      selectedJob, files, result := "", [], None;
      duplicateModalOpen, closed := false, false;
    }

    /** `handleFileUpload`: the newly chosen files go after the ones already listed. */
    method AddFiles(chosen: seq<Ingest.CvFile>)
      modifies this
      ensures files == old(files) + chosen
      ensures selectedJob == old(selectedJob) && result == old(result)
      ensures duplicateModalOpen == old(duplicateModalOpen) && closed == old(closed)
    {
      files := files + chosen;
    }

    method RemoveFile(index: int)
      modifies this
      ensures files == RemoveAt(old(files), index)
      ensures selectedJob == old(selectedJob) && result == old(result)
      ensures duplicateModalOpen == old(duplicateModalOpen) && closed == old(closed)
    {
      files := RemoveAt(files, index);
    }

    /** `handleSubmit`. The checks run in order: a job, then at least one file, then
        distinct names; a failed check only shows its message. After a successful
        upload the files and the job are cleared; the duplicate dialog opens when
        duplicates were reported, and otherwise the drawer closes. A
        failed upload keeps the files and the job. */
    method Submit(reply: UploadReply) returns (notice: Notice, sent: bool)
      modifies this
      ensures old(selectedJob) == "" ==> !sent && notice == ErrorToast(NoJobMessage) && unchanged(this)
      ensures old(selectedJob) != "" && old(files) == [] ==>
        !sent && notice == ErrorToast(NoFilesMessage) && unchanged(this)
      ensures old(selectedJob) != "" && old(files) != [] && !NoDups(Names(old(files))) ==>
        && !sent && unchanged(this)
        && exists j | 0 <= j < |old(files)| ::
             && notice == ErrorToast(DuplicateNamePrefix + old(files)[j].name)
             && old(files)[j].name in Names(old(files)[..j])
             && NoDups(Names(old(files)[..j]))
      ensures sent <==> old(selectedJob) != "" && old(files) != [] && NoDups(Names(old(files)))
      ensures sent && reply.Answered? && reply.response.Batch? ==>
        && files == [] && selectedJob == "" && result == Some(reply.response)
        && duplicateModalOpen == (old(duplicateModalOpen) || |reply.response.duplicates| > 0)
        && closed == (old(closed) || |reply.response.duplicates| == 0)
        && notice == (if |reply.response.duplicates| > 0 then NoToast else SuccessToast(UploadSuccessMessage))
      ensures sent && !(reply.Answered? && reply.response.Batch?) ==>
        notice == ErrorToast(FailureText(reply)) && unchanged(this)
    {
      sent := false;
      if selectedJob == "" {
        return ErrorToast(NoJobMessage), false;
      }
      if |files| == 0 {
        return ErrorToast(NoFilesMessage), false;
      }
      var repeated := FirstRepeatedName(files);
      if repeated.Some? {
        return ErrorToast(DuplicateNamePrefix + repeated.value), false;
      }
      sent := true;
      if reply.Answered? && reply.response.Batch? {
        result := Some(reply.response);
        files := [];
        selectedJob := "";
        if |reply.response.duplicates| > 0 {
          duplicateModalOpen := true;
          notice := NoToast;
        } else {
          notice := SuccessToast(UploadSuccessMessage);
          closed := true;
        }
      } else {
        notice := ErrorToast(FailureText(reply));
      }
    }
  }
}
