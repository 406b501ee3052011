/** Decoding of the video-generation API's replies (src/services/veo.ts):
    `generateVideoTask` turns the submit reply into a task id or an error,
    `checkStatus` turns the status reply into a task status or an error.
    The HTTP exchange is an input: either the parsed reply body or the
    transport error it raised. */
module Veo {
  import opened Wrappers

  const ApiErrorPrefix: string := "Veo API Error: "
  const StatusErrorPrefix: string := "Veo Status Error: "
  const NoUrlsText: string := "Veo API returned success but no video URLs"
  const EmptyListText: string := "Veo API returned empty video URL list"
  const ParseFailedText: string := "Failed to parse Veo video URLs"

  /** The body of a `POST /generate` reply; `None` is an absent field. */
  datatype GenerateReply = GenerateReply(code: Option<int>, msg: Option<string>, taskId: string)

  /** The `data` object of a `GET /record-info` reply. */
  datatype StatusData = StatusData(successFlag: Option<int>, resultUrls: Option<string>)

  datatype StatusReply = StatusReply(code: Option<int>, msg: Option<string>, data: StatusData)

  /** `'generating' | 'success' | 'failed'`, the success carrying its video URL. */
  datatype TaskStatus = Generating | Succeeded(videoUrl: string) | Failed

  /** A value interpolated into a template literal: an absent field reads `undefined`. */
  function Render(v: Option<string>): string {
    match v
    case Some(s) => s
    case None => "undefined"
  }

  /** `!data.resultUrls` for a string field: absent or empty. */
  predicate Falsy(v: Option<string>) {
    v.None? || |v.value| == 0
  }

  /** `generateVideoTask`: the task id when the reply's code is exactly 200,
      otherwise an error carrying the reply's message; a transport error is
      re-thrown as it is. */
  function GenerateVideoTask(response: Result<GenerateReply, string>): (r: Result<string, string>)
    ensures response.Failure? ==> r == Failure(response.error)
    ensures response.Success? ==>
              (r.Success? <==> response.value.code == Some(200))
    ensures response.Success? && r.Success? ==> r.value == response.value.taskId
    ensures response.Success? && r.Failure? ==> r.error == ApiErrorPrefix + Render(response.value.msg)
  {
    match response
    case Failure(e) => Failure(e)
    case Success(reply) =>
      if reply.code == Some(200) then Success(reply.taskId)
      else Failure(ApiErrorPrefix + Render(reply.msg))
  }

  /** The `successFlag == 1` branch. `parse` stands for `JSON.parse` applied to
      the field and yields the list of URLs, or `None` when it throws or the
      value is not a list. The inner empty-list error is caught by the
      surrounding handler and replaced. */
  function DecodeUrls(resultUrls: Option<string>, parse: string -> Option<seq<string>>): (r: Result<TaskStatus, string>)
    ensures r.Failure? ==> r.error == NoUrlsText || r.error == ParseFailedText
    ensures r.Success? ==> r.value.Succeeded?
  {
    if Falsy(resultUrls) then Failure(NoUrlsText)
    else
      var inner: Result<TaskStatus, string> :=
        match parse(resultUrls.value)
        case None => Failure(ParseFailedText)
        case Some(urls) => if |urls| == 0 then Failure(EmptyListText) else Success(Succeeded(urls[0]));
      if inner.Failure? then Failure(ParseFailedText) else inner
  }

  /** `checkStatus`. */
  function CheckStatus(response: Result<StatusReply, string>, parse: string -> Option<seq<string>>): (r: Result<TaskStatus, string>)
    ensures response.Failure? ==> r == Failure(response.error)
  {
    match response
    case Failure(e) => Failure(e)
    case Success(reply) =>
      if reply.code == Some(200) then
        match reply.data.successFlag
        case Some(0) => Success(Generating)
        case Some(1) => DecodeUrls(reply.data.resultUrls, parse)
        case _ => Success(Failed)
      else Failure(StatusErrorPrefix + Render(reply.msg))
  }

  // ---------------------------------------------------------------------
  // Properties

  /** The status reply decodes case by case: a non-200 code is an error with
      the reply's message; flag 0 is still generating; flag 1 needs a present,
      parseable, non-empty URL list and yields its first element; every other
      flag, or none, is a failed task. */
  lemma CheckStatusCases(reply: StatusReply, parse: string -> Option<seq<string>>)
    ensures var r := CheckStatus(Success(reply), parse);
            var flag := reply.data.successFlag;
            var urls := reply.data.resultUrls;
            && (reply.code != Some(200) ==> r == Failure(StatusErrorPrefix + Render(reply.msg)))
            && (reply.code == Some(200) && flag == Some(0) ==> r == Success(Generating))
            && (reply.code == Some(200) && flag != Some(0) && flag != Some(1) ==> r == Success(Failed))
            && (reply.code == Some(200) && flag == Some(1) && Falsy(urls) ==> r == Failure(NoUrlsText))
            && (reply.code == Some(200) && flag == Some(1) && !Falsy(urls) ==>
                  match parse(urls.value)
                  case None => r == Failure(ParseFailedText)
                  case Some(list) => r == (if |list| == 0 then Failure(ParseFailedText) else Success(Succeeded(list[0]))))
  {
  }

  /** A task is reported done only with the first URL of a non-empty list
      read from a present `resultUrls` under flag 1 and code 200. */
  lemma SuccessOnlyFromUrls(reply: StatusReply, parse: string -> Option<seq<string>>)
    requires CheckStatus(Success(reply), parse).Success?
    requires CheckStatus(Success(reply), parse).value.Succeeded?
    ensures reply.code == Some(200) && reply.data.successFlag == Some(1)
    ensures var urls := reply.data.resultUrls;
            && !Falsy(urls)
            && parse(urls.value).Some? && |parse(urls.value).value| > 0
            && CheckStatus(Success(reply), parse).value.videoUrl == parse(urls.value).value[0]
  {
  }

  /** For a reply that arrived, the empty-list error never reaches the caller:
      it is always replaced by the parse-failure message. */
  lemma EmptyListErrorReplaced(reply: StatusReply, parse: string -> Option<seq<string>>)
    ensures CheckStatus(Success(reply), parse) != Failure(EmptyListText)
  {
    var r := CheckStatus(Success(reply), parse);
    if r.Failure? && reply.code != Some(200) {
      assert |r.error| >= |StatusErrorPrefix|;
      assert r.error[..|StatusErrorPrefix|] == StatusErrorPrefix;
      assert EmptyListText[..|StatusErrorPrefix|] != StatusErrorPrefix by {
        assert EmptyListText[4] == 'A';
        assert StatusErrorPrefix[4] == 'S';
      }
    }
  }

  /** The status error keeps the reply's message recoverable: distinct
      messages give distinct errors. */
  lemma StatusErrorInjective(m1: Option<string>, m2: Option<string>)
    requires StatusErrorPrefix + Render(m1) == StatusErrorPrefix + Render(m2)
    ensures Render(m1) == Render(m2)
  {
    var a := StatusErrorPrefix + Render(m1);
    assert a[|StatusErrorPrefix|..] == Render(m1);
    assert (StatusErrorPrefix + Render(m2))[|StatusErrorPrefix|..] == Render(m2);
  }

  /** A code of 200 is needed both for a task id and for a decoded status. */
  lemma CodeGatesEverything(g: GenerateReply, s: StatusReply, parse: string -> Option<seq<string>>)
    requires g.code != Some(200) && s.code != Some(200)
    ensures GenerateVideoTask(Success(g)).Failure?
    ensures CheckStatus(Success(s), parse).Failure?
  {
  }
}
