/**
 * `TgRestClient\Request`: a method, a URL, an ordered header map seeded from
 * the default-header table, a body and a lazily built curl handle. The
 * functions on request state here are shared with `RestRequest`.
 */
module Requests {
  import opened Wrappers
  import opened Bytes
  import OrderedMap
  import opened Transport
  import Headers
  import Codec

  const HEAD := "HEAD"
  const GET := "GET"
  const OPTIONS := "OPTIONS"
  const PATCH := "PATCH"
  const POST := "POST"
  const PUT := "PUT"
  const DELETE := "DELETE"

  type HeaderMap = Headers.HeaderMap

  /** The fields of a request that change after construction. */
  datatype RequestState = RequestState(headers: HeaderMap, body: Codec.Body, curl: Option<Handle>)

  /** The methods that `Request::createCurl` sends a body with. */
  predicate HasBody(httpMethod: string)
  {
    httpMethod == PATCH || httpMethod == PUT || httpMethod == POST
  }

  /** The body string sent for the given headers: the codec under their `Content-Type`. */
  function WireBody(headers: HeaderMap, body: Codec.Body, json: Codec.JsonEncoder): string
  {
    Codec.Encoded(body, OrderedMap.Get(headers, Headers.CONTENT_TYPE), json)
  }

  /** The header map after `createCurl`: with a body, `Content-Length` holds the body's byte length. */
  function PreparedHeaders(withBody: bool, headers: HeaderMap, body: Codec.Body, json: Codec.JsonEncoder): HeaderMap
  {
    if withBody then OrderedMap.Put(headers, Headers.CONTENT_LENGTH, Decimal(ByteLength(WireBody(headers, body, json))))
    else headers
  }

  /** The handle `createCurl` configures, from the request as it was before the call. */
  function BuiltHandle(httpMethod: string, url: string, timeout: Option<int>, withBody: bool,
                       headers: HeaderMap, body: Codec.Body, json: Codec.JsonEncoder): Handle
  {
    Handle(httpMethod, url, timeout,
           if withBody then Some(WireBody(headers, body, json)) else None,
           HeaderLines(PreparedHeaders(withBody, headers, body, json)),
           false, false, None)
  }

  /**
   * Only a request with a body gets `Content-Length`, and it reads back as the
   * number of bytes actually posted; no other header changes.
   */
  lemma ContentLength(withBody: bool, headers: HeaderMap, body: Codec.Body, json: Codec.JsonEncoder, name: string)
    ensures var prepared := PreparedHeaders(withBody, headers, body, json);
      var posted := BuiltHandle("", "", None, withBody, headers, body, json).postFields;
      && (withBody ==> posted.Some? && OrderedMap.Get(prepared, Headers.CONTENT_LENGTH) == Some(Decimal(ByteLength(posted.value))))
      && (withBody ==> DecimalValue(OrderedMap.Get(prepared, Headers.CONTENT_LENGTH).value) == |Utf8(posted.value)|)
      && (!withBody ==> prepared == headers && posted.None?)
      && (name != Headers.CONTENT_LENGTH ==> OrderedMap.Get(prepared, name) == OrderedMap.Get(headers, name))
  {
    if withBody {
      var wire := WireBody(headers, body, json);
      OrderedMap.GetPut(headers, Headers.CONTENT_LENGTH, Decimal(ByteLength(wire)), Headers.CONTENT_LENGTH);
      OrderedMap.GetPut(headers, Headers.CONTENT_LENGTH, Decimal(ByteLength(wire)), name);
      DecimalRoundTrip(ByteLength(wire));
    }
  }

  /**
   * Preparing twice is preparing once: the second `Content-Length` write
   * stores the same value where the first one put it.
   */
  lemma PreparedIdempotent(withBody: bool, headers: HeaderMap, body: Codec.Body, json: Codec.JsonEncoder)
    ensures var once := PreparedHeaders(withBody, headers, body, json);
      && PreparedHeaders(withBody, once, body, json) == once
      && BuiltHandle("", "", None, withBody, once, body, json) == BuiltHandle("", "", None, withBody, headers, body, json)
  {
    if withBody {
      var length := Decimal(ByteLength(WireBody(headers, body, json)));
      OrderedMap.GetPut(headers, Headers.CONTENT_LENGTH, length, Headers.CONTENT_TYPE);
      OrderedMap.PutPut(headers, Headers.CONTENT_LENGTH, length);
    }
  }

  /** The state after `getCurl`: built once, then returned from the cache. */
  function Materialized(httpMethod: string, url: Url, s: RequestState, json: Codec.JsonEncoder): (r: RequestState)
    ensures r.curl.Some?
  {
    if s.curl.Some? then s
    else
      RequestState(PreparedHeaders(HasBody(httpMethod), s.headers, s.body, json), s.body,
                   Some(BuiltHandle(httpMethod, url.text, None, HasBody(httpMethod), s.headers, s.body, json)))
  }

  /** `getCurl` is idempotent: a second call finds the cached handle and changes nothing. */
  lemma MaterializedIdempotent(httpMethod: string, url: Url, s: RequestState, json: Codec.JsonEncoder)
    ensures Materialized(httpMethod, url, Materialized(httpMethod, url, s, json), json) == Materialized(httpMethod, url, s, json)
    ensures s.curl.Some? ==> Materialized(httpMethod, url, s, json) == s
  {
  }

  class Request {
    const httpMethod: string
    const url: Url
    var headers: HeaderMap
    var body: Codec.Body
    var curl: Option<Handle>

    function State(): RequestState
      reads this
    {
      RequestState(headers, body, curl)
    }

    /** A new request carries the default headers resolved for its host, no body and no handle. */
    constructor (httpMethod: string, url: Url, defaults: Headers.DefaultHeaders)
      requires defaults.Valid()
      modifies defaults
      ensures defaults.Valid() && defaults.table == Some(Headers.Initialized(old(defaults.table)))
      ensures this.httpMethod == httpMethod && this.url == url
      ensures State() == RequestState(Headers.Resolve(defaults.table.value, url.host), Codec.Null, None)
    {
      var hs := defaults.GetHeaders(url.host);
      this.httpMethod := httpMethod;
      this.url := url;
      headers := hs;
      body := Codec.Null;
      curl := None;
    }

    /** `$this->headers[$name] = $value` */
    method SetHeader(name: string, value: string)
      modifies this
      ensures headers == OrderedMap.Put(old(headers), name, value)
      ensures body == old(body) && curl == old(curl)
    {
      headers := OrderedMap.Put(headers, name, value);
    }

    /** One `setHeader` per entry, in order; a non-array argument changes nothing. */
    method AddHeaders(hs: Option<HeaderMap>)
      modifies this
      ensures headers == if hs.None? then old(headers) else OrderedMap.PutAll(old(headers), hs.value)
      ensures body == old(body) && curl == old(curl)
    {
      if hs.Some? {
        var m := hs.value;
        ghost var base := headers;
        var i := 0;
        while i < |m|
          invariant 0 <= i <= |m|
          invariant headers == OrderedMap.PutAll(base, m[..i])
          invariant body == old(body) && curl == old(curl)
        {
          SetHeader(m[i].0, m[i].1);
          OrderedMap.PutAllStep(base, m, i);
          i := i + 1;
        }
        assert m[..i] == m;
      }
    }

    method SetBody(b: Codec.Body)
      modifies this
      ensures body == b && headers == old(headers) && curl == old(curl)
    {
      body := b;
    }

    /** The body as sent, encoded according to this request's `Content-Type` header. */
    method GetStringifiedBody(json: Codec.JsonEncoder) returns (rc: string)
      ensures rc == WireBody(headers, body, json)
    {
      rc := Codec.StringifyBody(body, OrderedMap.Get(headers, Headers.CONTENT_TYPE), json);
    }

    /**
     * `createCurl`: PATCH, PUT and POST post the stringified body and record
     * its length in `Content-Length`; then every header becomes a line.
     * The handle's timeout is unset: the code reads a property `Request` does
     * not declare.
     */
    method CreateCurl(json: Codec.JsonEncoder) returns (h: Handle)
      modifies this
      ensures headers == PreparedHeaders(HasBody(httpMethod), old(headers), body, json)
      ensures body == old(body) && curl == old(curl)
      ensures h == BuiltHandle(httpMethod, url.text, None, HasBody(httpMethod), old(headers), body, json)
    {
      var postFields: Option<string> := None;
      if HasBody(httpMethod) {
        var b := GetStringifiedBody(json);
        postFields := Some(b);
        SetHeader(Headers.CONTENT_LENGTH, Decimal(ByteLength(b)));
      }
      var lines := RenderHeaderLines(headers);
      h := Handle(httpMethod, url.text, None, postFields, lines, false, false, None);
    }

    /** `getCurl`: build the handle on first use and cache it. */
    method GetCurl(json: Codec.JsonEncoder) returns (h: Handle)
      modifies this
      ensures State() == Materialized(httpMethod, url, old(State()), json)
      ensures curl == Some(h)
    {
      if curl.None? {
        h := CreateCurl(json);
        curl := Some(h);
      } else {
        h := curl.value;
      }
    }
  }

  /** The shorthands without a body: only the method differs. */
  method Head(url: Url, defaults: Headers.DefaultHeaders) returns (r: Request)
    requires defaults.Valid()
    modifies defaults
    ensures fresh(r) && defaults.Valid() && defaults.table == Some(Headers.Initialized(old(defaults.table)))
    ensures r.httpMethod == HEAD && r.url == url
    ensures r.State() == RequestState(Headers.Resolve(defaults.table.value, url.host), Codec.Null, None)
  {
    r := new Request(HEAD, url, defaults);
  }

  method Get(url: Url, defaults: Headers.DefaultHeaders) returns (r: Request)
    requires defaults.Valid()
    modifies defaults
    ensures fresh(r) && defaults.Valid() && defaults.table == Some(Headers.Initialized(old(defaults.table)))
    ensures r.httpMethod == GET && r.url == url
    ensures r.State() == RequestState(Headers.Resolve(defaults.table.value, url.host), Codec.Null, None)
  {
    r := new Request(GET, url, defaults);
  }

  method Options(url: Url, defaults: Headers.DefaultHeaders) returns (r: Request)
    requires defaults.Valid()
    modifies defaults
    ensures fresh(r) && defaults.Valid() && defaults.table == Some(Headers.Initialized(old(defaults.table)))
    ensures r.httpMethod == OPTIONS && r.url == url
    ensures r.State() == RequestState(Headers.Resolve(defaults.table.value, url.host), Codec.Null, None)
  {
    r := new Request(OPTIONS, url, defaults);
  }

  method Delete(url: Url, defaults: Headers.DefaultHeaders) returns (r: Request)
    requires defaults.Valid()
    modifies defaults
    ensures fresh(r) && defaults.Valid() && defaults.table == Some(Headers.Initialized(old(defaults.table)))
    ensures r.httpMethod == DELETE && r.url == url
    ensures r.State() == RequestState(Headers.Resolve(defaults.table.value, url.host), Codec.Null, None)
  {
    r := new Request(DELETE, url, defaults);
  }

  /** The shorthands with a body: the method, and the body set on the new request. */
  method Post(url: Url, body: Codec.Body, defaults: Headers.DefaultHeaders) returns (r: Request)
    requires defaults.Valid()
    modifies defaults
    ensures fresh(r) && defaults.Valid() && defaults.table == Some(Headers.Initialized(old(defaults.table)))
    ensures r.httpMethod == POST && r.url == url
    ensures r.State() == RequestState(Headers.Resolve(defaults.table.value, url.host), body, None)
  {
    r := new Request(POST, url, defaults);
    r.SetBody(body);
  }

  method Put(url: Url, body: Codec.Body, defaults: Headers.DefaultHeaders) returns (r: Request)
    requires defaults.Valid()
    modifies defaults
    ensures fresh(r) && defaults.Valid() && defaults.table == Some(Headers.Initialized(old(defaults.table)))
    ensures r.httpMethod == PUT && r.url == url
    ensures r.State() == RequestState(Headers.Resolve(defaults.table.value, url.host), body, None)
  {
    r := new Request(PUT, url, defaults);
    r.SetBody(body);
  }

  method Patch(url: Url, body: Codec.Body, defaults: Headers.DefaultHeaders) returns (r: Request)
    requires defaults.Valid()
    modifies defaults
    ensures fresh(r) && defaults.Valid() && defaults.table == Some(Headers.Initialized(old(defaults.table)))
    ensures r.httpMethod == PATCH && r.url == url
    ensures r.State() == RequestState(Headers.Resolve(defaults.table.value, url.host), body, None)
  {
    r := new Request(PATCH, url, defaults);
    r.SetBody(body);
  }
}

