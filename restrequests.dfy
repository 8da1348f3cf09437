/**
 * `TgRestClient\RestRequest`, the request of the older `RestClient` API: no
 * default headers of its own, a timeout, and PUT and POST as the only methods
 * with a body. Its `createCurl` configures a handle but returns nothing.
 */
module RestRequests {
  import opened Wrappers
  import opened Transport
  import Bytes
  import OrderedMap
  import Headers
  import Codec
  import Requests

  type HeaderMap = Headers.HeaderMap

  const DEFAULT_TIMEOUT := 5

  /** The fields of a `RestRequest` that change after construction. */
  datatype RestRequestState = RestRequestState(headers: HeaderMap, body: Codec.Body, timeout: int, curl: Option<Handle>)

  /** The methods that `RestRequest::createCurl` sends a body with; there is no PATCH branch. */
  predicate HasBody(httpMethod: string)
  {
    httpMethod == Requests.PUT || httpMethod == Requests.POST
  }

  /** The handle `createCurl` configures: like `Request`'s, with the request's own timeout. */
  function RestHandle(httpMethod: string, url: string, s: RestRequestState, json: Codec.JsonEncoder): Handle
  {
    Requests.BuiltHandle(httpMethod, url, Some(s.timeout), HasBody(httpMethod), s.headers, s.body, json)
  }

  /** `createCurl`'s effect on the request: `Content-Length` for PUT and POST. */
  function AfterCreate(httpMethod: string, s: RestRequestState, json: Codec.JsonEncoder): RestRequestState
  {
    s.(headers := Requests.PreparedHeaders(HasBody(httpMethod), s.headers, s.body, json))
  }

  /**
   * Calling `createCurl` again, as the uncached `getCurl` does on every call,
   * leaves the header map and the configured handle as the first call made
   * them.
   */
  lemma AfterCreateIdempotent(httpMethod: string, url: string, s: RestRequestState, json: Codec.JsonEncoder)
    ensures var once := AfterCreate(httpMethod, s, json);
      && AfterCreate(httpMethod, once, json) == once
      && RestHandle(httpMethod, url, once, json) == RestHandle(httpMethod, url, s, json)
  {
    Requests.PreparedIdempotent(HasBody(httpMethod), s.headers, s.body, json);
    var once := AfterCreate(httpMethod, s, json);
    assert RestHandle(httpMethod, url, once, json).headerLines == RestHandle(httpMethod, url, s, json).headerLines;
  }

  /** The state after the caching `getCurl`: built once, then taken from the cache. */
  function Materialized(httpMethod: string, url: string, s: RestRequestState, json: Codec.JsonEncoder): (r: RestRequestState)
    ensures r.curl.Some?
  {
    if s.curl.Some? then s
    else AfterCreate(httpMethod, s, json).(curl := Some(RestHandle(httpMethod, url, s, json)))
  }

  class RestRequest {
    const httpMethod: string
    const url: string
    var headers: HeaderMap
    var body: Codec.Body
    var timeout: int
    var curl: Option<Handle>

    function State(): RestRequestState
      reads this
    {
      RestRequestState(headers, body, timeout, curl)
    }

    /** A new request has no headers, no body, a five-second timeout and no handle. */
    constructor (httpMethod: string, url: string)
      ensures this.httpMethod == httpMethod && this.url == url
      ensures State() == RestRequestState([], Codec.Null, DEFAULT_TIMEOUT, None)
    {
      this.httpMethod := httpMethod;
      this.url := url;
      headers := [];
      body := Codec.Null;
      timeout := DEFAULT_TIMEOUT;
      curl := None;
    }

    function GetTimeout(): int
      reads this
    {
      timeout
    }

    method SetTimeout(t: int)
      modifies this
      ensures GetTimeout() == t
      ensures headers == old(headers) && body == old(body) && curl == old(curl)
    {
      timeout := t;
    }

    /** `$this->headers[$name] = $value` */
    method SetHeader(name: string, value: string)
      modifies this
      ensures headers == OrderedMap.Put(old(headers), name, value)
      ensures body == old(body) && timeout == old(timeout) && curl == old(curl)
    {
      headers := OrderedMap.Put(headers, name, value);
    }

    /** One `setHeader` per entry, in order; a non-array argument changes nothing. */
    method AddHeaders(hs: Option<HeaderMap>)
      modifies this
      ensures headers == if hs.None? then old(headers) else OrderedMap.PutAll(old(headers), hs.value)
      ensures body == old(body) && timeout == old(timeout) && curl == old(curl)
    {
      if hs.Some? {
        var m := hs.value;
        ghost var base := headers;
        var i := 0;
        while i < |m|
          invariant 0 <= i <= |m|
          invariant headers == OrderedMap.PutAll(base, m[..i])
          invariant body == old(body) && timeout == old(timeout) && curl == old(curl)
        {
          SetHeader(m[i].0, m[i].1);
          OrderedMap.PutAllStep(base, m, i);
          i := i + 1;
        }
        assert m[..i] == m;
      }
    }

    method SetBody(b: Codec.Body)
      modifies this
      ensures body == b && headers == old(headers) && timeout == old(timeout) && curl == old(curl)
    {
      body := b;
    }

    /** The body as sent: the same codec as `Request`'s. */
    method GetStringifiedBody(json: Codec.JsonEncoder) returns (rc: string)
      ensures rc == Requests.WireBody(headers, body, json)
    {
      rc := Codec.StringifyBody(body, OrderedMap.Get(headers, Headers.CONTENT_TYPE), json);
    }

    /**
     * `createCurl` as written: it writes `Content-Length` for PUT and POST and
     * configures a handle, then ends without returning it.
     */
    method CreateCurl(json: Codec.JsonEncoder)
      modifies this
      ensures State() == AfterCreate(httpMethod, old(State()), json)
    {
      var _ := CreateHandle(json);
    }

    /** The handle-building part of `createCurl`, with the handle it configures returned. */
    method CreateHandle(json: Codec.JsonEncoder) returns (h: Handle)
      modifies this
      ensures State() == AfterCreate(httpMethod, old(State()), json)
      ensures h == RestHandle(httpMethod, url, old(State()), json)
    {
      var postFields: Option<string> := None;
      if HasBody(httpMethod) {
        var b := GetStringifiedBody(json);
        postFields := Some(b);
        SetHeader(Headers.CONTENT_LENGTH, Bytes.Decimal(Bytes.ByteLength(b)));
      }
      var lines := RenderHeaderLines(headers);
      h := Handle(httpMethod, url, Some(timeout), postFields, lines, false, false, None);
    }

    /**
     * `getCurl` as written: `createCurl` returns NULL, so the cache stays
     * empty, the handle returned is NULL, and every call runs `createCurl`
     * again.
     */
    method GetCurlAsWritten(json: Codec.JsonEncoder) returns (h: Option<Handle>)
      modifies this
      ensures old(curl).None? ==> h.None? && State() == AfterCreate(httpMethod, old(State()), json)
      ensures old(curl).Some? ==> h == old(curl) && State() == old(State())
    {
      if curl.None? {
        CreateCurl(json);
        curl := None;
      }
      h := curl;
    }

    /** `getCurl` as intended: build the handle on first use and cache it. */
    method GetCurl(json: Codec.JsonEncoder) returns (h: Handle)
      modifies this
      ensures State() == Materialized(httpMethod, url, old(State()), json)
      ensures curl == Some(h)
    {
      if curl.None? {
        h := CreateHandle(json);
        curl := Some(h);
      } else {
        h := curl.value;
      }
    }
  }

  /**
   * As written, `getCurl` hands NULL to curl on every call; as intended, the
   * first call caches the handle and the second returns that same handle.
   */
  method GetCurlReturnsNull(json: Codec.JsonEncoder)
    returns (asWritten: Option<Handle>, again: Option<Handle>, asIntended: Handle, cached: Handle)
    ensures asWritten.None? && again.None?
    ensures asIntended == cached && asIntended.httpMethod == Requests.POST
  {
    var written := new RestRequest(Requests.POST, "https://example.com/users");
    asWritten := written.GetCurlAsWritten(json);
    again := written.GetCurlAsWritten(json);

    var intended := new RestRequest(Requests.POST, "https://example.com/users");
    asIntended := intended.GetCurl(json);
    cached := intended.GetCurl(json);
  }
}
