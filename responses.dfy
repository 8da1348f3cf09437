/**
 * `TgRestClient\Response`: the outcome of one `Request`. It starts in a
 * "not run" state and is filled once from the curl handle of its request:
 * the raw output is cut at `header_size` into header lines and body.
 */
module Responses {
  import opened Wrappers
  import opened Bytes
  import Seqs
  import opened Transport
  import Headers
  import Codec
  import Requests

  /** `curl_getinfo($curl)` as far as the client reads it, or the empty array of an error. */
  datatype Info = EmptyInfo | CurlInfo(contentType: Option<string>, headerSize: nat)

  /** The fields of a response; `None` stands for PHP's NULL. */
  datatype ResponseState = ResponseState(
    error: Option<string>,
    url: Option<string>,
    info: Option<Info>,
    httpCode: int,
    body: Option<seq<byte>>,
    headers: Option<seq<seq<byte>>>)

  /** The state of a response whose request has not run. */
  const NotRun := ResponseState(None, None, None, -1, None, None)

  const CR: byte := 13
  const LF: byte := 10
  const COLON: byte := 58

  /** `explode("\n", str_replace("\r", '', $block))` */
  function HeaderBlock(block: seq<byte>): seq<seq<byte>>
  {
    Seqs.Split(Seqs.Without(block, CR), LF)
  }

  /**
   * The header lines hold no CR and no LF, there is at least one, and joining
   * them with LF gives back the header block without its CRs.
   */
  lemma HeaderBlockRoundTrip(block: seq<byte>)
    ensures var lines := HeaderBlock(block);
      && |lines| >= 1
      && Seqs.Join(lines, LF) == Seqs.Without(block, CR)
      && forall k :: 0 <= k < |lines| ==> CR !in lines[k] && LF !in lines[k]
  {
    var stripped := Seqs.Without(block, CR);
    Seqs.JoinSplit(stripped, LF);
    Seqs.SplitPiecesFree(stripped, LF);
    var lines := HeaderBlock(block);
    forall k | 0 <= k < |lines| ensures CR !in lines[k] {
      SplitPiecesWithin(stripped, LF, CR, k);
    }
  }

  /** A byte absent from a string is absent from every piece of its `explode`. */
  lemma {:induction false} SplitPiecesWithin(s: seq<byte>, sep: byte, x: byte, k: nat)
    requires x !in s && k < |Seqs.Split(s, sep)|
    ensures x !in Seqs.Split(s, sep)[k]
    decreases |s|
  {
    if sep in s {
      var i := Seqs.FirstIndex(s, sep);
      if k > 0 {
        SplitPiecesWithin(s[i + 1..], sep, x, k - 1);
      }
    }
  }

  /**
   * `setCurlResult` for a transfer that ended with `res`: the error and the
   * effective URL are always recorded; an empty error means success.
   */
  function Filled(res: TransferResult, headers: Option<seq<seq<byte>>>): (s: ResponseState)
    ensures s.error == Some(res.error) && s.url == Some(res.effectiveUrl)
  {
    if PhpEmpty(res.error) then
      ResponseState(Some(res.error), Some(res.effectiveUrl), Some(CurlInfo(res.contentType, res.headerSize)),
               res.httpCode, Some(Seqs.Suffix(res.content, res.headerSize)),
               Some(HeaderBlock(Seqs.Prefix(res.content, res.headerSize))))
    else
      ResponseState(Some(res.error), Some(res.effectiveUrl), Some(EmptyInfo), 0, Some([]), headers)
  }

  /** On a transport error: code 0, empty info, empty body, and the header lines untouched. */
  lemma FilledOnError(res: TransferResult, headers: Option<seq<seq<byte>>>)
    requires !PhpEmpty(res.error)
    ensures var s := Filled(res, headers);
      && s.httpCode == 0 && s.info == Some(EmptyInfo) && s.body == Some([]) && s.headers == headers
  {
  }

  /**
   * On success the content is cut at `header_size`: the body is what follows,
   * the header lines rejoined give what precedes without its CRs, and nothing
   * of the content is lost.
   */
  lemma FilledOnSuccess(res: TransferResult, headers: Option<seq<seq<byte>>>)
    requires PhpEmpty(res.error)
    ensures var s := Filled(res, headers);
      var block := Seqs.Prefix(res.content, res.headerSize);
      && s.httpCode == res.httpCode
      && s.body.Some? && s.headers.Some?
      && block + s.body.value == res.content
      && Seqs.Join(s.headers.value, LF) == Seqs.Without(block, CR)
      && (res.headerSize <= |res.content| ==> |s.body.value| == |res.content| - res.headerSize)
  {
    Seqs.PrefixSuffix(res.content, res.headerSize);
    HeaderBlockRoundTrip(Seqs.Prefix(res.content, res.headerSize));
  }

  // ---------------------------------------------------------------------------
  // Reading a response

  /** `getContentType`: `info['content_type']` when it is set, NULL otherwise. */
  function ContentType(s: ResponseState): Option<string>
  {
    if s.info.Some? && s.info.value.CurlInfo? then s.info.value.contentType else None
  }

  /** The content type is the transport's after a success, and NULL before a run or after an error. */
  lemma ContentTypeStates(res: TransferResult, headers: Option<seq<seq<byte>>>)
    ensures ContentType(NotRun) == None
    ensures ContentType(Filled(res, headers)) == if PhpEmpty(res.error) then res.contentType else None
  {
  }

  /** A line that `getHeader(name)` accepts: it starts with `name:`, compared in lower case. */
  predicate Matches(line: seq<byte>, name: string)
  {
    Seqs.StartsWith(Lower(line), Lower(Utf8(name)) + [COLON])
  }

  /** The trimmed text after `name:` */
  function ValueAfter(line: seq<byte>, name: string): seq<byte>
  {
    Trim(Seqs.Suffix(line, ByteLength(name) + 1))
  }

  /** The value of the first matching line, NULL when no line matches. */
  function FindHeader(lines: seq<seq<byte>>, name: string): Option<seq<byte>>
  {
    if |lines| == 0 then None
    else if Matches(lines[0], name) then Some(ValueAfter(lines[0], name))
    else FindHeader(lines[1..], name)
  }

  /** The index of the first line that matches, `|lines|` when none does. */
  function FirstMatch(lines: seq<seq<byte>>, name: string): (k: nat)
    ensures k <= |lines|
    ensures forall j :: 0 <= j < k ==> !Matches(lines[j], name)
    ensures k < |lines| ==> Matches(lines[k], name)
  {
    if |lines| == 0 then 0
    else if Matches(lines[0], name) then 0
    else
      var k := FirstMatch(lines[1..], name);
      assert forall j :: 1 <= j < k + 1 ==> lines[j] == lines[1..][j - 1];
      k + 1
  }

  /**
   * `getHeader` reads the first line whose name matches, and NULL means no
   * line matches.
   */
  lemma {:induction false} FindHeaderFirst(lines: seq<seq<byte>>, name: string)
    ensures var k := FirstMatch(lines, name);
      FindHeader(lines, name) == if k == |lines| then None else Some(ValueAfter(lines[k], name))
    ensures FindHeader(lines, name).None? <==> forall i :: 0 <= i < |lines| ==> !Matches(lines[i], name)
    decreases |lines|
  {
    if |lines| > 0 && !Matches(lines[0], name) {
      FindHeaderFirst(lines[1..], name);
    }
  }

  /**
   * `getHeader($name)`: with no name (NULL or `''`) the first line, the status
   * line; otherwise the case-insensitive lookup. Before a run or after an
   * error there are no lines, and the answer is NULL.
   */
  function HeaderLookup(headers: Option<seq<seq<byte>>>, name: Option<string>): Option<seq<byte>>
  {
    if headers.None? then None
    else if name.None? || name.value == "" then
      if |headers.value| == 0 then None else Some(headers.value[0])
    else FindHeader(headers.value, name.value)
  }

  /** The lookup ignores the case of the name asked for. */
  lemma {:induction false} FindHeaderIgnoresCase(lines: seq<seq<byte>>, name: string, name': string)
    requires Lower(Utf8(name)) == Lower(Utf8(name'))
    ensures FindHeader(lines, name) == FindHeader(lines, name')
    decreases |lines|
  {
    if |lines| > 0 {
      assert |Utf8(name)| == |Lower(Utf8(name))| == |Utf8(name')|;
      assert Matches(lines[0], name) == Matches(lines[0], name');
      assert ValueAfter(lines[0], name) == ValueAfter(lines[0], name');
      FindHeaderIgnoresCase(lines[1..], name, name');
    }
  }

  /** The bytes of `HTTP/2 200`, `server: cloudflare` and `cloudflare`. */
  const StatusLine: seq<byte> := [72, 84, 84, 80, 47, 50, 32, 50, 48, 48]
  const ServerLine: seq<byte> := [115, 101, 114, 118, 101, 114, 58, 32, 99, 108, 111, 117, 100, 102, 108, 97, 114, 101]
  const Cloudflare: seq<byte> := [99, 108, 111, 117, 100, 102, 108, 97, 114, 101]

  /**
   * Asked for `Server`, a response whose lines are a status line and
   * `server: cloudflare` answers `cloudflare`: the name matches in any case
   * and the value is trimmed.
   */
  lemma ServerHeaderExample()
    ensures HeaderLookup(Some([StatusLine, ServerLine]), Some("Server")) == Some(Cloudflare)
  {
    ServerNeedle();
    assert Lower(StatusLine)[0] == 104;
    assert !Matches(StatusLine, "Server");
    ServerLineMatches();
    ServerValue();
    var lines: seq<seq<byte>> := [StatusLine, ServerLine];
    assert lines[1..] == [ServerLine];
    assert FindHeader(lines[1..], "Server") == Some(Cloudflare);
    assert FindHeader(lines, "Server") == Some(Cloudflare);
  }

  /** The prefix `getHeader('Server')` looks for: `server:`. */
  lemma ServerNeedle()
    ensures ByteLength("Server") == 6
    ensures Lower(Utf8("Server")) + [COLON] == [115, 101, 114, 118, 101, 114, 58]
  {
    Utf8OfAscii("Server");
  }

  /** `server: cloudflare` is a `Server` line. */
  lemma ServerLineMatches()
    ensures Matches(ServerLine, "Server")
  {
    ServerNeedle();
    assert Lower(ServerLine)[..7] == [115, 101, 114, 118, 101, 114, 58];
  }

  /** Its value, once trimmed, is `cloudflare`. */
  lemma ServerValue()
    ensures ValueAfter(ServerLine, "Server") == Cloudflare
  {
    ServerNeedle();
    ServerLineRest();
    TrimLeftSkips([32], Cloudflare);
    CloudflareTrimmed();
  }

  /** What follows `server:` is a space and `cloudflare`. */
  lemma ServerLineRest()
    ensures Seqs.Suffix(ServerLine, 7) == [32] + Cloudflare
  {
  }

  /** `cloudflare` neither starts nor ends with a byte that `trim` removes. */
  lemma CloudflareTrimmed()
    ensures TrimLeft(Cloudflare) == Cloudflare && TrimRight(Cloudflare) == Cloudflare
  {
    assert !IsTrimmed(Cloudflare[0]) && !IsTrimmed(Cloudflare[|Cloudflare| - 1]);
  }

  /** `getJsonDecodedBody`: NULL for a NULL or empty body, else the decoding of the trimmed body. */
  function JsonDecodedBody<J>(s: ResponseState, decode: seq<byte> -> J): (r: Option<J>)
    ensures r.None? <==> s.body.None? || |s.body.value| == 0
  {
    if s.body.None? || s.body.value == [] then None else Some(decode(Trim(s.body.value)))
  }

  /** White space around a JSON body does not change what it decodes to. */
  lemma JsonDecodedIgnoresPadding<J>(s: ResponseState, w1: seq<byte>, w2: seq<byte>, decode: seq<byte> -> J)
    requires s.body.Some? && |s.body.value| > 0
    requires forall i :: 0 <= i < |w1| ==> IsTrimmed(w1[i])
    requires forall i :: 0 <= i < |w2| ==> IsTrimmed(w2[i])
    ensures JsonDecodedBody(s.(body := Some(w1 + s.body.value + w2)), decode) == JsonDecodedBody(s, decode)
  {
    TrimPadding(w1, s.body.value, w2);
  }

  /** What `getBody` hands back: the JSON decoding, or the raw body. */
  datatype BodyView<J> = Decoded(decoded: Option<J>) | Raw(raw: Option<seq<byte>>)

  predicate IsJsonContent(contentType: Option<string>)
  {
    contentType.Some? && Seqs.StartsWith(contentType.value, Headers.TYPE_JSON)
  }

  /** `getBody`: decoded exactly when the content type starts with `application/json`. */
  function ResponseBody<J>(s: ResponseState, decode: seq<byte> -> J): (r: BodyView<J>)
    ensures r.Decoded? <==> IsJsonContent(ContentType(s))
    ensures r.Decoded? ==> r.decoded == JsonDecodedBody(s, decode)
    ensures r.Raw? ==> r.raw == s.body
  {
    if IsJsonContent(ContentType(s)) then Decoded(JsonDecodedBody(s, decode)) else Raw(s.body)
  }

  /**
   * `getBody` and `getJsonDecodedBody` on a response filled from a transfer:
   * after a success, the part of the content after `header_size` is decoded,
   * trimmed, when the transport's content type starts with `application/json`
   * and is returned as it is otherwise; after an error the body is `''` and is
   * returned raw; before a run it is NULL.
   */
  lemma BodyOfFilled<J>(res: TransferResult, headers: Option<seq<seq<byte>>>, decode: seq<byte> -> J)
    ensures var s := Filled(res, headers);
      var rest := Seqs.Suffix(res.content, res.headerSize);
      && (PhpEmpty(res.error) ==>
            && JsonDecodedBody(s, decode) == (if rest == [] then None else Some(decode(Trim(rest))))
            && ResponseBody(s, decode) ==
                 if IsJsonContent(res.contentType) then Decoded(JsonDecodedBody(s, decode)) else Raw(Some(rest)))
      && (!PhpEmpty(res.error) ==> JsonDecodedBody(s, decode) == None && ResponseBody(s, decode) == Raw(Some([])))
    ensures ResponseBody(NotRun, decode) == Raw(None)
  {
    ContentTypeStates(res, headers);
  }

  class Response {
    const request: Requests.Request
    var error: Option<string>
    var url: Option<string>
    var info: Option<Info>
    var httpCode: int
    var body: Option<seq<byte>>
    var headers: Option<seq<seq<byte>>>
    /** How many times the response has been filled from a transfer. */
    ghost var fills: nat

    function State(): ResponseState
      reads this
    {
      ResponseState(error, url, info, httpCode, body, headers)
    }

    /** A new response belongs to its request and has not run. */
    constructor (request: Requests.Request)
      ensures this.request == request && State() == NotRun && fills == 0
    {
      this.request := request;
      error := None;
      url := None;
      info := None;
      httpCode := -1;
      body := None;
      headers := None;
      fills := 0;
    }

    function GetContentType(): Option<string>
      reads this
    {
      ContentType(State())
    }

    function GetJsonDecodedBody<J>(decode: seq<byte> -> J): Option<J>
      reads this
    {
      JsonDecodedBody(State(), decode)
    }

    function GetBody<J>(decode: seq<byte> -> J): BodyView<J>
      reads this
    {
      ResponseBody(State(), decode)
    }

    /** `getHeader`: the status line, or a search of the lines that returns at the first match. */
    method GetHeader(name: Option<string>) returns (r: Option<seq<byte>>)
      ensures r == HeaderLookup(headers, name)
    {
      if headers.None? {
        return None;
      }
      var lines := headers.value;
      if name.None? || name.value == "" {
        if |lines| == 0 {
          return None;
        }
        return Some(lines[0]);
      }
      var needle := Lower(Utf8(name.value)) + [COLON];
      var i := 0;
      while i < |lines|
        invariant 0 <= i <= |lines|
        invariant FindHeader(lines[i..], name.value) == FindHeader(lines, name.value)
      {
        if Seqs.StartsWith(Lower(lines[i]), needle) {
          return Some(Trim(Seqs.Suffix(lines[i], ByteLength(name.value) + 1)));
        }
        assert lines[i..][1..] == lines[i + 1..];
        i := i + 1;
      }
      return None;
    }

    /**
     * `setCurlResult`: fetch the request's (cached) handle, read the finished
     * transfer and fill every field from it.
     */
    method SetCurlResult(transfer: Transfer, json: Codec.JsonEncoder)
      modifies this, request
      ensures request.State() == Requests.Materialized(request.httpMethod, request.url, old(request.State()), json)
      ensures request.curl.Some? && State() == Filled(transfer(request.curl.value), old(headers))
      ensures fills == old(fills) + 1
    {
      var h := request.GetCurl(json);
      var res := transfer(h);
      error := Some(res.error);
      url := Some(res.effectiveUrl);
      if PhpEmpty(res.error) {
        httpCode := res.httpCode;
        info := Some(CurlInfo(res.contentType, res.headerSize));
        headers := Some(HeaderBlock(Seqs.Prefix(res.content, res.headerSize)));
        body := Some(Seqs.Suffix(res.content, res.headerSize));
      } else {
        httpCode := 0;
        info := Some(EmptyInfo);
        body := Some([]);
      }
      fills := fills + 1;
    }
  }
}
