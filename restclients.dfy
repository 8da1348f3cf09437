/**
 * `TgRestClient\RestClient`, the older batch API: one process-wide map of
 * default headers, the `addX` shorthands that build a `RestRequest` with a
 * fixed header precedence, and `run`.
 */
module RestClients {
  import opened Wrappers
  import opened Transport
  import OrderedMap
  import Headers
  import Codec
  import Requests
  import RestRequests
  import RestResponses

  type HeaderMap = Headers.HeaderMap

  /** The `'User-Agent'` that `run` sets on every handle. */
  const RUN_USER_AGENT := "RestClient/1.0"

  /** `addHeaders($headers)` on a header map: every entry of an array, nothing for anything else. */
  function AddAll(m: HeaderMap, hs: Option<HeaderMap>): HeaderMap
  {
    if hs.None? then m else OrderedMap.PutAll(m, hs.value)
  }

  /**
   * The headers of a request built by `addGet`, `addPut`, `addPost`,
   * `addDelete` or `addHead`: the defaults, then the `Content-Type`, then the
   * per-call headers.
   */
  function CallHeaders(defaults: Option<HeaderMap>, contentType: string, headers: Option<HeaderMap>): HeaderMap
  {
    AddAll(OrderedMap.Put(AddAll([], defaults), Headers.CONTENT_TYPE, contentType), headers)
  }

  /**
   * The precedence of the `addX` methods: a per-call header beats the
   * `contentType` argument, which beats the defaults.
   */
  lemma CallHeadersPrecedence(defaults: Option<HeaderMap>, contentType: string, headers: Option<HeaderMap>, name: string)
    requires defaults.Some? ==> OrderedMap.Unique(defaults.value)
    requires headers.Some? ==> OrderedMap.Unique(headers.value)
    ensures OrderedMap.Get(CallHeaders(defaults, contentType, headers), name) ==
              if headers.Some? && name in OrderedMap.Keys(headers.value) then OrderedMap.Get(headers.value, name)
              else if name == Headers.CONTENT_TYPE then Some(contentType)
              else if defaults.Some? then OrderedMap.Get(defaults.value, name)
              else None
  {
    var base := AddAll([], defaults);
    if defaults.Some? {
      OrderedMap.GetPutAll([], defaults.value, name);
    }
    var typed := OrderedMap.Put(base, Headers.CONTENT_TYPE, contentType);
    OrderedMap.GetPut(base, Headers.CONTENT_TYPE, contentType, name);
    if headers.Some? {
      OrderedMap.GetPutAll(typed, headers.value, name);
    }
  }

  /**
   * The `addX` and shorthand calls without their optional arguments: the
   * request is sent as `application/json` and otherwise carries the defaults.
   */
  lemma CallHeadersDefaultArguments(defaults: Option<HeaderMap>, name: string)
    requires defaults.Some? ==> OrderedMap.Unique(defaults.value)
    ensures OrderedMap.Get(CallHeaders(defaults, Headers.TYPE_JSON, Some([])), name) ==
              if name == Headers.CONTENT_TYPE then Some(Headers.TYPE_JSON)
              else if defaults.Some? then OrderedMap.Get(defaults.value, name)
              else None
  {
    CallHeadersPrecedence(defaults, Headers.TYPE_JSON, Some([]), name);
  }

  /** With no defaults and no per-call headers, the request carries the `Content-Type` alone. */
  lemma CallHeadersBare(contentType: string)
    ensures CallHeaders(None, contentType, None) == [(Headers.CONTENT_TYPE, contentType)]
  {
  }

  /** `RestClient::$defaultHeaders`: NULL until the first `setDefaultHeader`. */
  class RestDefaults {
    var table: Option<HeaderMap>

    ghost predicate Valid()
      reads this
    {
      table.Some? ==> OrderedMap.Unique(table.value)
    }

    constructor ()
      ensures table == None && Valid()
    {
      table := None;
    }

    /** `setDefaultHeader($name, $value)`: start from an empty array if needed, then assign. */
    method SetDefaultHeader(name: string, value: string)
      requires Valid()
      modifies this
      ensures Valid()
      ensures table == Some(OrderedMap.Put(old(table).GetOr([]), name, value))
    {
      var t := if table.None? then [] else table.value;
      OrderedMap.UniquePut(t, name, value);
      table := Some(OrderedMap.Put(t, name, value));
    }

    /**
     * `addDefaultHeaders($headers)` as written: it calls the static method
     * `setHeader`, which `RestClient` does not have, so the first entry of a
     * non-empty array raises an `Error`. Anything else never reaches the call.
     */
    method AddDefaultHeaders(headers: Option<HeaderMap>) returns (outcome: Outcome<PhpError>)
      requires Valid()
      modifies this
      ensures Valid() && table == old(table)
      ensures outcome.Fail? <==> headers.Some? && |headers.value| > 0
      ensures outcome.Fail? ==> outcome.error == UndefinedMethod("RestClient::setHeader")
    {
      outcome := Pass;
      if headers.Some? && |headers.value| > 0 {
        outcome := Fail(UndefinedMethod("RestClient::setHeader"));
      }
    }

    /** `addDefaultHeaders` as intended: one `setDefaultHeader` per entry, in order. */
    method AddDefaultHeadersCorrected(headers: Option<HeaderMap>)
      requires Valid()
      modifies this
      ensures Valid()
      ensures headers.None? || |headers.value| == 0 ==> table == old(table)
      ensures headers.Some? && |headers.value| > 0 ==> table == Some(OrderedMap.PutAll(old(table).GetOr([]), headers.value))
    {
      if headers.Some? {
        var hs := headers.value;
        ghost var t0 := table;
        ghost var base := t0.GetOr([]);
        var i := 0;
        while i < |hs|
          invariant 0 <= i <= |hs|
          invariant Valid()
          invariant i == 0 ==> table == t0
          invariant i > 0 ==> table == Some(OrderedMap.PutAll(base, hs[..i]))
        {
          AddOne(base, hs, i);
          i := i + 1;
        }
        assert hs[..i] == hs;
      }
    }

    /** One step of the corrected `addDefaultHeaders` loop. */
    method AddOne(ghost base: HeaderMap, hs: HeaderMap, i: nat)
      requires Valid() && i < |hs|
      requires i == 0 ==> table.GetOr([]) == base
      requires i > 0 ==> table == Some(OrderedMap.PutAll(base, hs[..i]))
      modifies this
      ensures Valid() && table == Some(OrderedMap.PutAll(base, hs[..i + 1]))
    {
      SetDefaultHeader(hs[i].0, hs[i].1);
      OrderedMap.PutAllStep(base, hs, i);
    }
  }

  /**
   * As written, `addDefaultHeaders` stops with an error and the defaults stay
   * unset; as intended, the given header reaches the defaults.
   */
  method AddDefaultHeadersFails() returns (outcome: Outcome<PhpError>, asWritten: Option<HeaderMap>, asIntended: Option<HeaderMap>)
    ensures outcome == Fail(UndefinedMethod("RestClient::setHeader"))
    ensures asWritten == None
    ensures asIntended == Some([(Headers.AUTHORIZATION, "Bearer t")])
  {
    var given: HeaderMap := [(Headers.AUTHORIZATION, "Bearer t")];
    var written := new RestDefaults();
    outcome := written.AddDefaultHeaders(Some(given));
    asWritten := written.table;

    var intended := new RestDefaults();
    intended.AddDefaultHeadersCorrected(Some(given));
    assert given[1..] == [];
    asIntended := intended.table;
  }

  /** What `run` sets on each handle: no header in the output, output returned, a fixed user agent. */
  function Armed(h: Handle): (r: Handle)
    ensures !r.captureHeader && r.returnTransfer && r.userAgent == Some(RUN_USER_AGENT)
  {
    h.(captureHeader := false, returnTransfer := true, userAgent := Some(RUN_USER_AGENT))
  }

  function Scheduled(httpMethod: string, url: string, s: RestRequests.RestRequestState, json: Codec.JsonEncoder): (r: RestRequests.RestRequestState)
    ensures r.curl.Some?
  {
    var m := RestRequests.Materialized(httpMethod, url, s, json);
    m.(curl := Some(Armed(m.curl.value)))
  }

  lemma ScheduledIdempotent(httpMethod: string, url: string, s: RestRequests.RestRequestState, json: Codec.JsonEncoder)
    ensures var once := Scheduled(httpMethod, url, s, json);
      && RestRequests.Materialized(httpMethod, url, once, json) == once
      && Scheduled(httpMethod, url, once, json) == once
  {
  }

  class RestClient {
    var requests: seq<RestRequests.RestRequest>
    var responses: seq<RestResponses.RestResponse>

    ghost predicate Valid()
      reads this
    {
      && |requests| == |responses|
      && (forall i :: 0 <= i < |responses| ==> responses[i].request == requests[i])
      && (forall i, j :: 0 <= i < j < |responses| ==> responses[i] != responses[j])
    }

    constructor ()
      ensures Valid() && requests == [] && responses == []
      ensures GetRequestCount() == 0
    {
      requests := [];
      responses := [];
    }

    /** Registers a request: appends it and a new response bound to it, and returns that response. */
    method AddCall(request: RestRequests.RestRequest) returns (rc: RestResponses.RestResponse)
      requires Valid()
      modifies this
      ensures Valid()
      ensures fresh(rc) && rc.request == request && rc.State() == RestResponses.NotRun && rc.fills == 0
      ensures requests == old(requests) + [request] && responses == old(responses) + [rc]
      ensures GetRequestCount() == old(GetRequestCount()) + 1
    {
      rc := new RestResponses.RestResponse(request);
      requests := requests + [request];
      responses := responses + [rc];
    }

    /** The request every `addX` builds and registers. */
    method AddRequest(httpMethod: string, url: string, body: Codec.Body, contentType: string,
                      headers: Option<HeaderMap>, defaultHeaders: Option<HeaderMap>) returns (rc: RestResponses.RestResponse)
      requires Valid()
      modifies this
      ensures Valid()
      ensures fresh(rc) && fresh(rc.request) && rc.State() == RestResponses.NotRun && rc.fills == 0
      ensures rc.request.httpMethod == httpMethod && rc.request.url == url
      ensures rc.request.State() ==
                RestRequests.RestRequestState(CallHeaders(defaultHeaders, contentType, headers), body,
                                              RestRequests.DEFAULT_TIMEOUT, None)
      ensures requests == old(requests) + [rc.request] && responses == old(responses) + [rc]
    {
      var request := new RestRequests.RestRequest(httpMethod, url);
      request.AddHeaders(defaultHeaders);
      request.SetHeader(Headers.CONTENT_TYPE, contentType);
      request.AddHeaders(headers);
      request.SetBody(body);
      rc := AddCall(request);
    }

    method AddGet(url: string, contentType: string := Headers.TYPE_JSON,
                  headers: Option<HeaderMap> := Some([]), nameonly defaults: RestDefaults)
      returns (rc: RestResponses.RestResponse)
      requires Valid()
      modifies this
      ensures Valid()
      ensures fresh(rc) && fresh(rc.request) && rc.State() == RestResponses.NotRun && rc.fills == 0
      ensures rc.request.httpMethod == Requests.GET && rc.request.url == url
      ensures rc.request.State() ==
                RestRequests.RestRequestState(CallHeaders(defaults.table, contentType, headers), Codec.Null,
                                              RestRequests.DEFAULT_TIMEOUT, None)
      ensures requests == old(requests) + [rc.request] && responses == old(responses) + [rc]
    {
      rc := AddRequest(Requests.GET, url, Codec.Null, contentType, headers, defaults.table);
    }

    method AddPut(url: string, body: Codec.Body, contentType: string := Headers.TYPE_JSON,
                  headers: Option<HeaderMap> := Some([]), nameonly defaults: RestDefaults)
      returns (rc: RestResponses.RestResponse)
      requires Valid()
      modifies this
      ensures Valid()
      ensures fresh(rc) && fresh(rc.request) && rc.State() == RestResponses.NotRun && rc.fills == 0
      ensures rc.request.httpMethod == Requests.PUT && rc.request.url == url
      ensures rc.request.State() ==
                RestRequests.RestRequestState(CallHeaders(defaults.table, contentType, headers), body,
                                              RestRequests.DEFAULT_TIMEOUT, None)
      ensures requests == old(requests) + [rc.request] && responses == old(responses) + [rc]
    {
      rc := AddRequest(Requests.PUT, url, body, contentType, headers, defaults.table);
    }

    method AddPost(url: string, body: Codec.Body, contentType: string := Headers.TYPE_JSON,
                   headers: Option<HeaderMap> := Some([]), nameonly defaults: RestDefaults)
      returns (rc: RestResponses.RestResponse)
      requires Valid()
      modifies this
      ensures Valid()
      ensures fresh(rc) && fresh(rc.request) && rc.State() == RestResponses.NotRun && rc.fills == 0
      ensures rc.request.httpMethod == Requests.POST && rc.request.url == url
      ensures rc.request.State() ==
                RestRequests.RestRequestState(CallHeaders(defaults.table, contentType, headers), body,
                                              RestRequests.DEFAULT_TIMEOUT, None)
      ensures requests == old(requests) + [rc.request] && responses == old(responses) + [rc]
    {
      rc := AddRequest(Requests.POST, url, body, contentType, headers, defaults.table);
    }

    method AddDelete(url: string, contentType: string := Headers.TYPE_JSON,
                     headers: Option<HeaderMap> := Some([]), nameonly defaults: RestDefaults)
      returns (rc: RestResponses.RestResponse)
      requires Valid()
      modifies this
      ensures Valid()
      ensures fresh(rc) && fresh(rc.request) && rc.State() == RestResponses.NotRun && rc.fills == 0
      ensures rc.request.httpMethod == Requests.DELETE && rc.request.url == url
      ensures rc.request.State() ==
                RestRequests.RestRequestState(CallHeaders(defaults.table, contentType, headers), Codec.Null,
                                              RestRequests.DEFAULT_TIMEOUT, None)
      ensures requests == old(requests) + [rc.request] && responses == old(responses) + [rc]
    {
      rc := AddRequest(Requests.DELETE, url, Codec.Null, contentType, headers, defaults.table);
    }

    method AddHead(url: string, contentType: string := Headers.TYPE_JSON,
                   headers: Option<HeaderMap> := Some([]), nameonly defaults: RestDefaults)
      returns (rc: RestResponses.RestResponse)
      requires Valid()
      modifies this
      ensures Valid()
      ensures fresh(rc) && fresh(rc.request) && rc.State() == RestResponses.NotRun && rc.fills == 0
      ensures rc.request.httpMethod == Requests.HEAD && rc.request.url == url
      ensures rc.request.State() ==
                RestRequests.RestRequestState(CallHeaders(defaults.table, contentType, headers), Codec.Null,
                                              RestRequests.DEFAULT_TIMEOUT, None)
      ensures requests == old(requests) + [rc.request] && responses == old(responses) + [rc]
    {
      rc := AddRequest(Requests.HEAD, url, Codec.Null, contentType, headers, defaults.table);
    }

    function GetRequests(): seq<RestRequests.RestRequest>
      reads this
    {
      requests
    }

    function GetResponses(): seq<RestResponses.RestResponse>
      reads this
    {
      responses
    }

    /** The number of registered calls: one response per request in a valid batch. */
    function GetRequestCount(): (n: nat)
      reads this
      ensures n == |GetRequests()|
      ensures Valid() ==> n == |GetResponses()|
    {
      |requests|
    }

    /**
     * `run`: a no-op on an empty batch. Otherwise every request's handle is
     * built, cached and armed, then every response is filled exactly once.
     * Returns the responses in registration order.
     */
    method Run(transfer: Transfer, json: Codec.JsonEncoder) returns (rs: seq<RestResponses.RestResponse>)
      requires Valid()
      modifies requests, responses
      ensures rs == responses && GetRequestCount() == old(GetRequestCount())
      ensures forall r :: r in requests ==> r.State() == Scheduled(r.httpMethod, r.url, old(r.State()), json)
      ensures forall k :: 0 <= k < |responses| ==>
                && requests[k].curl.Some?
                && responses[k].State() == RestResponses.Filled(transfer(requests[k].curl.value))
                && responses[k].fills == old(responses[k].fills) + 1
    {
      if |requests| > 0 {
        PrepareHandles(json);
        CollectResults(transfer, json);
      }
      rs := responses;
    }

    /** The first loop of `run`: `getCurl` on every request, then arm the handle. */
    method PrepareHandles(json: Codec.JsonEncoder)
      requires Valid()
      modifies requests
      ensures forall r :: r in requests ==> r.State() == Scheduled(r.httpMethod, r.url, old(r.State()), json)
    {
      var i := 0;
      while i < |requests|
        invariant 0 <= i <= |requests|
        invariant forall r :: r in requests ==>
                    r.State() == if r in requests[..i] then Scheduled(r.httpMethod, r.url, old(r.State()), json) else old(r.State())
      {
        var r := requests[i];
        ArmOne(i, json);
        if r in requests[..i] {
          ScheduledIdempotent(r.httpMethod, r.url, old(r.State()), json);
        }
        assert requests[..i + 1] == requests[..i] + [r];
        i := i + 1;
      }
      assert requests[..i] == requests;
    }

    /** One iteration of the first loop: `getCurl`, then arm the handle. */
    method ArmOne(i: nat, json: Codec.JsonEncoder)
      requires i < |requests|
      modifies requests[i]
      ensures requests[i].State() == Scheduled(requests[i].httpMethod, requests[i].url, old(requests[i].State()), json)
    {
      var r := requests[i];
      var h := r.GetCurl(json);
      r.curl := Some(Armed(h));
    }

    /** The second loop of `run`: fetch each handle again, then `setCurlResult`, in registration order. */
    method CollectResults(transfer: Transfer, json: Codec.JsonEncoder)
      requires Valid()
      requires forall r :: r in requests ==> r.curl.Some?
      modifies requests, responses
      ensures forall r :: r in requests ==> r.State() == old(r.State())
      ensures forall k :: 0 <= k < |responses| ==>
                && requests[k].curl.Some?
                && responses[k].State() == RestResponses.Filled(transfer(requests[k].curl.value))
                && responses[k].fills == old(responses[k].fills) + 1
    {
      var j := 0;
      while j < |responses|
        invariant 0 <= j <= |responses|
        invariant forall k :: 0 <= k < |requests| ==> requests[k].State() == old(requests[k].State())
        invariant forall k :: 0 <= k < j ==>
                    && requests[k].curl.Some?
                    && responses[k].State() == RestResponses.Filled(transfer(requests[k].curl.value))
                    && responses[k].fills == old(responses[k].fills) + 1
        invariant forall k :: j <= k < |responses| ==>
                    responses[k].State() == old(responses[k].State()) && responses[k].fills == old(responses[k].fills)
      {
        assert requests[j] in requests;
        FillOne(j, transfer, json);
        j := j + 1;
      }
    }

    /** One iteration of the second loop: `getCurl` (served from the cache), then `setCurlResult`. */
    method FillOne(j: nat, transfer: Transfer, json: Codec.JsonEncoder)
      requires Valid() && j < |responses| && requests[j].curl.Some?
      modifies requests[j], responses[j]
      ensures requests[j].State() == old(requests[j].State())
      ensures responses[j].State() == RestResponses.Filled(transfer(requests[j].curl.value))
      ensures responses[j].fills == old(responses[j].fills) + 1
    {
      var response := responses[j];
      var request := response.request;
      var _ := request.GetCurl(json);
      response.SetCurlResult(transfer, json);
    }
  }

  /** The shorthands: a fresh client, one call, one run; the call's response is returned. */
  method Single(httpMethod: string, url: string, body: Codec.Body, contentType: string, headers: Option<HeaderMap>,
                defaultHeaders: Option<HeaderMap>, transfer: Transfer, json: Codec.JsonEncoder)
    returns (rc: RestResponses.RestResponse)
    ensures fresh(rc) && fresh(rc.request) && rc.fills == 1
    ensures rc.request.httpMethod == httpMethod && rc.request.url == url
    ensures rc.request.State() ==
              Scheduled(httpMethod, url,
                        RestRequests.RestRequestState(CallHeaders(defaultHeaders, contentType, headers), body,
                                                      RestRequests.DEFAULT_TIMEOUT, None), json)
    ensures rc.request.curl.Some? && rc.State() == RestResponses.Filled(transfer(rc.request.curl.value))
  {
    var client := new RestClient();
    rc := client.AddRequest(httpMethod, url, body, contentType, headers, defaultHeaders);
    RunOne(client, rc, transfer, json);
  }

  /** `run` on a client that holds one call. */
  method RunOne(client: RestClient, rc: RestResponses.RestResponse, transfer: Transfer, json: Codec.JsonEncoder)
    requires client.Valid() && client.requests == [rc.request] && client.responses == [rc]
    modifies rc, rc.request
    ensures rc.request.State() == Scheduled(rc.request.httpMethod, rc.request.url, old(rc.request.State()), json)
    ensures rc.request.curl.Some? && rc.State() == RestResponses.Filled(transfer(rc.request.curl.value))
    ensures rc.fills == old(rc.fills) + 1
  {
    var rs := client.Run(transfer, json);
    assert rc.request in client.requests && client.responses[0] == rc;
  }

  method Get(url: string, contentType: string := Headers.TYPE_JSON,
             headers: Option<HeaderMap> := Some([]), nameonly defaults: RestDefaults,
             nameonly transfer: Transfer, nameonly json: Codec.JsonEncoder) returns (rc: RestResponses.RestResponse)
    ensures fresh(rc) && rc.fills == 1 && rc.request.httpMethod == Requests.GET && rc.request.url == url
    ensures rc.request.State() ==
              Scheduled(Requests.GET, url,
                        RestRequests.RestRequestState(CallHeaders(defaults.table, contentType, headers), Codec.Null,
                                                      RestRequests.DEFAULT_TIMEOUT, None), json)
    ensures rc.request.curl.Some? && rc.State() == RestResponses.Filled(transfer(rc.request.curl.value))
  {
    rc := Single(Requests.GET, url, Codec.Null, contentType, headers, defaults.table, transfer, json);
  }

  method Put(url: string, body: Codec.Body, contentType: string := Headers.TYPE_JSON,
             headers: Option<HeaderMap> := Some([]), nameonly defaults: RestDefaults,
             nameonly transfer: Transfer, nameonly json: Codec.JsonEncoder) returns (rc: RestResponses.RestResponse)
    ensures fresh(rc) && rc.fills == 1 && rc.request.httpMethod == Requests.PUT && rc.request.url == url
    ensures rc.request.State() ==
              Scheduled(Requests.PUT, url,
                        RestRequests.RestRequestState(CallHeaders(defaults.table, contentType, headers), body,
                                                      RestRequests.DEFAULT_TIMEOUT, None), json)
    ensures rc.request.curl.Some? && rc.State() == RestResponses.Filled(transfer(rc.request.curl.value))
  {
    rc := Single(Requests.PUT, url, body, contentType, headers, defaults.table, transfer, json);
  }

  method Post(url: string, body: Codec.Body, contentType: string := Headers.TYPE_JSON,
              headers: Option<HeaderMap> := Some([]), nameonly defaults: RestDefaults,
              nameonly transfer: Transfer, nameonly json: Codec.JsonEncoder) returns (rc: RestResponses.RestResponse)
    ensures fresh(rc) && rc.fills == 1 && rc.request.httpMethod == Requests.POST && rc.request.url == url
    ensures rc.request.State() ==
              Scheduled(Requests.POST, url,
                        RestRequests.RestRequestState(CallHeaders(defaults.table, contentType, headers), body,
                                                      RestRequests.DEFAULT_TIMEOUT, None), json)
    ensures rc.request.curl.Some? && rc.State() == RestResponses.Filled(transfer(rc.request.curl.value))
  {
    rc := Single(Requests.POST, url, body, contentType, headers, defaults.table, transfer, json);
  }

  method Delete(url: string, contentType: string := Headers.TYPE_JSON,
                headers: Option<HeaderMap> := Some([]), nameonly defaults: RestDefaults,
                nameonly transfer: Transfer, nameonly json: Codec.JsonEncoder) returns (rc: RestResponses.RestResponse)
    ensures fresh(rc) && rc.fills == 1 && rc.request.httpMethod == Requests.DELETE && rc.request.url == url
    ensures rc.request.State() ==
              Scheduled(Requests.DELETE, url,
                        RestRequests.RestRequestState(CallHeaders(defaults.table, contentType, headers), Codec.Null,
                                                      RestRequests.DEFAULT_TIMEOUT, None), json)
    ensures rc.request.curl.Some? && rc.State() == RestResponses.Filled(transfer(rc.request.curl.value))
  {
    rc := Single(Requests.DELETE, url, Codec.Null, contentType, headers, defaults.table, transfer, json);
  }

  method Head(url: string, contentType: string := Headers.TYPE_JSON,
              headers: Option<HeaderMap> := Some([]), nameonly defaults: RestDefaults,
              nameonly transfer: Transfer, nameonly json: Codec.JsonEncoder) returns (rc: RestResponses.RestResponse)
    ensures fresh(rc) && rc.fills == 1 && rc.request.httpMethod == Requests.HEAD && rc.request.url == url
    ensures rc.request.State() ==
              Scheduled(Requests.HEAD, url,
                        RestRequests.RestRequestState(CallHeaders(defaults.table, contentType, headers), Codec.Null,
                                                      RestRequests.DEFAULT_TIMEOUT, None), json)
    ensures rc.request.curl.Some? && rc.State() == RestResponses.Filled(transfer(rc.request.curl.value))
  {
    rc := Single(Requests.HEAD, url, Codec.Null, contentType, headers, defaults.table, transfer, json);
  }
}
