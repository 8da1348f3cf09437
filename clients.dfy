/**
 * `TgRestClient\Client`: a batch of requests registered with their responses,
 * run together. The transfers themselves are a function from handle to
 * outcome; `run` prepares every handle, then fills every response.
 */
module Clients {
  import opened Wrappers
  import opened Transport
  import Codec
  import Requests
  import Responses

  /** What `run` sets on each handle: the response header is kept in the output, which is returned. */
  function Armed(h: Handle): (r: Handle)
    ensures r.captureHeader && r.returnTransfer
  {
    h.(captureHeader := true, returnTransfer := true)
  }

  /** A request's state after the first loop of `run`: handle built (or taken from the cache) and armed. */
  function Scheduled(httpMethod: string, url: Url, s: Requests.RequestState, json: Codec.JsonEncoder): (r: Requests.RequestState)
    ensures r.curl.Some?
  {
    var m := Requests.Materialized(httpMethod, url, s, json);
    m.(curl := Some(Armed(m.curl.value)))
  }

  /**
   * Arming is done once: a request registered twice, or run again, keeps the
   * handle it already has.
   */
  lemma ScheduledIdempotent(httpMethod: string, url: Url, s: Requests.RequestState, json: Codec.JsonEncoder)
    ensures var once := Scheduled(httpMethod, url, s, json);
      && Requests.Materialized(httpMethod, url, once, json) == once
      && Scheduled(httpMethod, url, once, json) == once
  {
  }

  class Client {
    var requests: seq<Requests.Request>
    var responses: seq<Responses.Response>

    /** Requests and responses run in parallel, and every response is a distinct object. */
    ghost predicate Valid()
      reads this
    {
      && |requests| == |responses|
      && (forall i :: 0 <= i < |responses| ==> responses[i].request == requests[i])
      && (forall i, j :: 0 <= i < j < |responses| ==> responses[i] != responses[j])
    }

    constructor ()
      ensures Valid() && requests == [] && responses == []
      ensures GetRequestCount() == 0
    {
      requests := [];
      responses := [];
    }

    /** Registers a request: appends it and a new response bound to it, and returns that response. */
    method AddCall(request: Requests.Request) returns (rc: Responses.Response)
      requires Valid()
      modifies this
      ensures Valid()
      ensures fresh(rc) && rc.request == request && rc.State() == Responses.NotRun && rc.fills == 0
      ensures requests == old(requests) + [request] && responses == old(responses) + [rc]
      ensures GetRequestCount() == old(GetRequestCount()) + 1
    {
      rc := new Responses.Response(request);
      requests := requests + [request];
      responses := responses + [rc];
    }

    function GetRequests(): seq<Requests.Request>
      reads this
    {
      requests
    }

    function GetResponses(): seq<Responses.Response>
      reads this
    {
      responses
    }

    /** The number of registered calls: one response per request in a valid batch. */
    function GetRequestCount(): (n: nat)
      reads this
      ensures n == |GetRequests()|
      ensures Valid() ==> n == |GetResponses()|
    {
      |requests|
    }

    /**
     * `run`: a no-op on an empty batch. Otherwise every request's handle is
     * built and armed, then every response is filled exactly once from the
     * transfer of its request's handle. Returns the responses in
     * registration order.
     */
    method Run(transfer: Transfer, json: Codec.JsonEncoder) returns (rs: seq<Responses.Response>)
      requires Valid()
      modifies requests, responses
      ensures rs == responses && GetRequestCount() == old(GetRequestCount())
      ensures forall r :: r in requests ==> r.State() == Scheduled(r.httpMethod, r.url, old(r.State()), json)
      ensures forall k :: 0 <= k < |responses| ==>
                && requests[k].curl.Some?
                && responses[k].State() == Responses.Filled(transfer(requests[k].curl.value), old(responses[k].headers))
                && responses[k].fills == old(responses[k].fills) + 1
    {
      if |requests| > 0 {
        PrepareHandles(json);
        CollectResults(transfer, json);
      }
      rs := responses;
    }

    /** The first loop of `run`: `getCurl` on every request, then arm the handle. */
    method PrepareHandles(json: Codec.JsonEncoder)
      requires Valid()
      modifies requests
      ensures forall r :: r in requests ==> r.State() == Scheduled(r.httpMethod, r.url, old(r.State()), json)
    {
      var i := 0;
      while i < |requests|
        invariant 0 <= i <= |requests|
        invariant forall r :: r in requests ==>
                    r.State() == if r in requests[..i] then Scheduled(r.httpMethod, r.url, old(r.State()), json) else old(r.State())
      {
        var r := requests[i];
        ArmOne(i, json);
        if r in requests[..i] {
          ScheduledIdempotent(r.httpMethod, r.url, old(r.State()), json);
        }
        assert requests[..i + 1] == requests[..i] + [r];
        i := i + 1;
      }
      assert requests[..i] == requests;
    }

    /** One iteration of the first loop: `getCurl`, then arm the handle. */
    method ArmOne(i: nat, json: Codec.JsonEncoder)
      requires i < |requests|
      modifies requests[i]
      ensures requests[i].State() == Scheduled(requests[i].httpMethod, requests[i].url, old(requests[i].State()), json)
    {
      var r := requests[i];
      var h := r.GetCurl(json);
      r.curl := Some(Armed(h));
    }

    /** The second loop of `run`: `setCurlResult` on every response, in registration order. */
    method CollectResults(transfer: Transfer, json: Codec.JsonEncoder)
      requires Valid()
      requires forall r :: r in requests ==> r.curl.Some?
      modifies requests, responses
      ensures forall r :: r in requests ==> r.State() == old(r.State())
      ensures forall k :: 0 <= k < |responses| ==>
                && requests[k].curl.Some?
                && responses[k].State() == Responses.Filled(transfer(requests[k].curl.value), old(responses[k].headers))
                && responses[k].fills == old(responses[k].fills) + 1
    {
      var j := 0;
      while j < |responses|
        invariant 0 <= j <= |responses|
        invariant forall k :: 0 <= k < |requests| ==> requests[k].State() == old(requests[k].State())
        invariant forall k :: 0 <= k < j ==>
                    && requests[k].curl.Some?
                    && responses[k].State() == Responses.Filled(transfer(requests[k].curl.value), old(responses[k].headers))
                    && responses[k].fills == old(responses[k].fills) + 1
        invariant forall k :: j <= k < |responses| ==>
                    responses[k].State() == old(responses[k].State()) && responses[k].fills == old(responses[k].fills)
      {
        assert requests[j] in requests;
        FillOne(j, transfer, json);
        j := j + 1;
      }
    }

    /** One iteration of the second loop: `setCurlResult` on response `j`. */
    method FillOne(j: nat, transfer: Transfer, json: Codec.JsonEncoder)
      requires Valid() && j < |responses| && requests[j].curl.Some?
      modifies requests[j], responses[j]
      ensures requests[j].State() == old(requests[j].State())
      ensures responses[j].State() == Responses.Filled(transfer(requests[j].curl.value), old(responses[j].headers))
      ensures responses[j].fills == old(responses[j].fills) + 1
    {
      responses[j].SetCurlResult(transfer, json);
    }
  }

  /**
   * `Request::execute`: a batch of one. The returned response is bound to the
   * request and filled once from the transfer of its armed handle.
   */
  method Execute(request: Requests.Request, transfer: Transfer, json: Codec.JsonEncoder) returns (rc: Responses.Response)
    modifies request
    ensures fresh(rc) && rc.request == request && rc.fills == 1
    ensures request.State() == Scheduled(request.httpMethod, request.url, old(request.State()), json)
    ensures request.curl.Some? && rc.State() == Responses.Filled(transfer(request.curl.value), None)
  {
    var client := new Client();
    rc := client.AddCall(request);
    var rs := client.Run(transfer, json);
    assert client.responses[0] == rc && client.requests[0] == request;
  }
}
