/**
 * `TgRestClient\RestResponse`, the response of the older `RestClient` API.
 * The client switches header capture off, so the whole transport content is
 * the body; there are no header lines.
 */
module RestResponses {
  import opened Wrappers
  import opened Bytes
  import opened Transport
  import Seqs
  import Codec
  import RestRequests
  import Responses

  /** The fields of a `RestResponse`; `None` stands for PHP's NULL. */
  datatype RestResponseState = RestResponseState(
    error: Option<string>,
    url: Option<string>,
    info: Option<Responses.Info>,
    httpCode: int,
    body: Option<seq<byte>>)

  const NotRun := RestResponseState(None, None, None, -1, None)

  /** `setCurlResult` for a transfer that ended with `res`: no cut at `header_size`. */
  function Filled(res: TransferResult): (s: RestResponseState)
    ensures s.error == Some(res.error) && s.url == Some(res.effectiveUrl)
  {
    if PhpEmpty(res.error) then
      RestResponseState(Some(res.error), Some(res.effectiveUrl),
                        Some(Responses.CurlInfo(res.contentType, res.headerSize)), res.httpCode, Some(res.content))
    else
      RestResponseState(Some(res.error), Some(res.effectiveUrl), Some(Responses.EmptyInfo), 0, Some([]))
  }

  /**
   * The two outcomes: on success the code, the info and the whole content;
   * on an error code 0, empty info and an empty body.
   */
  lemma FilledOutcomes(res: TransferResult)
    ensures PhpEmpty(res.error) ==>
              && Filled(res).httpCode == res.httpCode
              && Filled(res).info == Some(Responses.CurlInfo(res.contentType, res.headerSize))
              && Filled(res).body == Some(res.content)
    ensures !PhpEmpty(res.error) ==>
              Filled(res).httpCode == 0 && Filled(res).info == Some(Responses.EmptyInfo) && Filled(res).body == Some([])
  {
  }

  /**
   * The two kinds of response agree on everything they share: the body of a
   * `RestResponse` is the header block and body of a `Response` put together.
   */
  lemma AgreesWithResponse(res: TransferResult, headers: Option<seq<seq<byte>>>)
    requires PhpEmpty(res.error)
    ensures var rest := Filled(res);
      var full := Responses.Filled(res, headers);
      && rest.error == full.error && rest.url == full.url && rest.info == full.info && rest.httpCode == full.httpCode
      && rest.body.value == Seqs.Prefix(res.content, res.headerSize) + full.body.value
  {
    Responses.FilledOnSuccess(res, headers);
  }

  /** `getDecodedBody`: NULL for a NULL or empty body, else the decoding of the body as it is. */
  function DecodedBody<J>(s: RestResponseState, decode: seq<byte> -> J): (r: Option<J>)
    ensures r.None? <==> s.body.None? || |s.body.value| == 0
  {
    if s.body.None? || s.body.value == [] then None else Some(decode(s.body.value))
  }

  /**
   * `getDecodedBody` on a response filled from a transfer: the decoding of the
   * whole content, exactly when the transfer succeeded with non-empty content;
   * NULL before a run.
   */
  lemma DecodedBodyOfFilled<J>(res: TransferResult, decode: seq<byte> -> J)
    ensures DecodedBody(Filled(res), decode) == if PhpEmpty(res.error) && res.content != [] then Some(decode(res.content)) else None
    ensures DecodedBody(NotRun, decode) == None
  {
    FilledOutcomes(res);
  }

  class RestResponse {
    const request: RestRequests.RestRequest
    var error: Option<string>
    var url: Option<string>
    var info: Option<Responses.Info>
    var httpCode: int
    var body: Option<seq<byte>>
    /** How many times the response has been filled from a transfer. */
    ghost var fills: nat

    function State(): RestResponseState
      reads this
    {
      RestResponseState(error, url, info, httpCode, body)
    }

    /** A new response belongs to its request and has not run. */
    constructor (request: RestRequests.RestRequest)
      ensures this.request == request && State() == NotRun && fills == 0
    {
      this.request := request;
      error := None;
      url := None;
      info := None;
      httpCode := -1;
      body := None;
      fills := 0;
    }

    function GetDecodedBody<J>(decode: seq<byte> -> J): Option<J>
      reads this
    {
      DecodedBody(State(), decode)
    }

    /** `setCurlResult`, reading the request's handle through the caching `getCurl`. */
    method SetCurlResult(transfer: Transfer, json: Codec.JsonEncoder)
      modifies this, request
      ensures request.State() == RestRequests.Materialized(request.httpMethod, request.url, old(request.State()), json)
      ensures request.curl.Some? && State() == Filled(transfer(request.curl.value))
      ensures fills == old(fills) + 1
    {
      var h := request.GetCurl(json);
      var res := transfer(h);
      error := Some(res.error);
      url := Some(res.effectiveUrl);
      if PhpEmpty(res.error) {
        httpCode := res.httpCode;
        info := Some(Responses.CurlInfo(res.contentType, res.headerSize));
        body := Some(res.content);
      } else {
        httpCode := 0;
        info := Some(Responses.EmptyInfo);
        body := Some([]);
      }
      fills := fills + 1;
    }
  }
}
