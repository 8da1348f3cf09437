# php-rest-client in Dafny

This project models `technicalguru/php-rest-client`, a small curl-based REST client, and
proves properties of the model. The client has two APIs:

- **The newer API.** `Request` starts with the process-wide default headers that `Headers`
  keeps per host, plus a `'*'` entry for every host. A `Response` is filled from one curl
  transfer. `Client` runs a batch of requests.
- **The older API.** `RestClient` has one map of default headers and the `addGet` / `addPut` /
  `addPost` / `addDelete` / `addHead` builders. Its requests are `RestRequest`s and its
  responses are `RestResponse`s.

The modules follow the source files:

| module | models |
|---|---|
| `OrderedMap` (orderedmap.dfy) | PHP arrays with string keys: an ordered list of pairs. Assigning an existing key keeps its position; a new key is appended. `PutAll` is a `foreach` of assignments, and also `array_merge`. |
| `Headers` (headers.dfy) | `src/TgRestClient/Headers.php`: the default-header table, its lazy initialisation and the `'*'`/host merge. |
| `Codec` (codec.dfy) | `getStringifiedBody`, shared by `Request` and `RestRequest`: the body datatype, the `Content-Type` dispatch and `rawurlencode` (sections 2.1 and 2.3 of RFC 3986). |
| `Transport` (transport.dfy) | the curl handle as a record of the options the client sets, `name: value` header lines, and a transfer's outcome. |
| `Requests` (requests.dfy) | `src/TgRestClient/Request.php` |
| `Responses` (responses.dfy) | `src/TgRestClient/Response.php` |
| `Clients` (clients.dfy) | `src/TgRestClient/Client.php` and `Request::execute` |
| `RestRequests`, `RestResponses`, `RestClients` | `RestRequest.php`, `RestResponse.php`, `RestClient.php` |
| `Bytes`, `Seqs`, `Wrappers` | UTF-8, `strtolower`, `trim`, decimal rendering, `explode`/`implode`, `substr`, `str_replace`, `Option` |

Objects whose fields the PHP code updates are Dafny classes: `DefaultHeaders`, `Request`,
`Response`, `Client`, `RestDefaults`, `RestRequest`, `RestResponse` and `RestClient`. Each
method is specified against a pure function of the old state; the lemmas state what the
source promises about those functions.

Things outside the client are parameters:

- The curl transfer is a function `Transport.Transfer` from a handle to its outcome: the
  error string, the effective URL, the HTTP code, the content type, `header_size` and the
  raw content.
- `json_encode` and `json_decode` are function parameters.
- A URL comes with its host already extracted (`Transport.Url`).

A response carries a ghost counter `fills`, so "every response is filled exactly once" can be
stated.

## Model

| member | source | states |
|---|---|---|
| OrderedMap.GetPut | src/TgRestClient/Request.php:79-82 | After `$headers[$n] = $v`, `$n` reads `$v` and every other name reads as before. |
| OrderedMap.KeysPut | src/TgRestClient/Request.php:79-82 | An existing name keeps its position and a new name is appended; no other key moves. |
| OrderedMap.PutPut | src/TgRestClient/Request.php:79-82 | Writing the same entry twice is writing it once. |
| OrderedMap.UniquePut | src/TgRestClient/Request.php:79-82 | An assignment keeps the map free of duplicate keys. |
| OrderedMap.PutAllSnoc | src/TgRestClient/Request.php:89-96 | Assigning the entries of `n + [e]` means assigning those of `n`, then `e`. |
| OrderedMap.GetPutAll | src/TgRestClient/Headers.php:73-76 | After `array_merge($m, $n)`, a key of `n` reads its `n` value and any other key reads its `m` value. |
| OrderedMap.KeysPutAll | src/TgRestClient/Headers.php:73-76 | `array_merge` keeps `m`'s keys in order, then appends `n`'s new keys in `n`'s order. |
| OrderedMap.PutAllIntoEmpty | src/TgRestClient/Headers.php:73 | Merging a PHP array into the empty array gives that array back. |
| OrderedMap.UniquePutAll | src/TgRestClient/Headers.php:73-76 | A merge into a PHP array is a PHP array. |
| Headers.InitialTableWellFormed | src/TgRestClient/Headers.php:32-38 | The table built on first use has a `'*'` entry and no duplicate keys. |
| Headers.BuiltInResolve | src/TgRestClient/Headers.php:31-41 | Before any write, every host gets exactly `Content-Type: application/json` and `User-Agent: RestClient/1.0 (https://github.com/technicalguru/php-rest-client)`, in that order. |
| Headers.ResolveWithoutHostEntry | src/TgRestClient/Headers.php:72-74 | `getHeaders` for a host without an entry of its own equals the `'*'` defaults. |
| Headers.ResolveGet | src/TgRestClient/Headers.php:73-76 | A host value overrides the `'*'` value for the same name; any other name reads as in `'*'`. |
| Headers.ResolveKeys | src/TgRestClient/Headers.php:73-76 | The merged names are the `'*'` names in `'*'` order, then the host-only names. |
| Headers.SetThenResolve | src/TgRestClient/Headers.php:60-63 | After `setDefaultHeader($h, $n, $v)`, `getHeaders($h)[$n] == $v`. |
| Headers.LazyInitKeepsBuiltIns | src/TgRestClient/Headers.php:61-62 | A first write to any host other than `'*'` keeps the built-in `'*'` defaults. |
| Headers.WithDefaultOtherHosts | src/TgRestClient/Headers.php:62 | `setDefaultHeader($h, ...)` leaves the entry of every other host key unchanged. |
| Headers.WithDefaultWellFormed | src/TgRestClient/Headers.php:62 | A write keeps the table well formed: unique keys, a `'*'` entry, and every entry a PHP array. |
| Headers.WithDefaultsEntry | src/TgRestClient/Headers.php:48-51 | One `setDefaultHeader($host, ...)` per entry leaves the host's own map equal to the old map with every entry assigned in order. |
| Headers.DefaultHeaders.constructor | src/TgRestClient/Headers.php:31-32 | The table starts as NULL. |
| Headers.DefaultHeaders.GetDefaultHeaders | src/TgRestClient/Headers.php:31-41 | Initialise on first use, then return the table; an initialised table is not changed. |
| Headers.DefaultHeaders.SetDefaultHeader | src/TgRestClient/Headers.php:60-63 | The new table is the initialised old table with `[$host][$name] = $value`. |
| Headers.DefaultHeaders.GetHeaders | src/TgRestClient/Headers.php:70-78 | Returns the `'*'`/host merge; the table changes only by its lazy initialisation. |
| Headers.DefaultHeaders.AddDefaultHeaders | src/TgRestClient/Headers.php:47-53 | As written, with a two-argument call: a non-array or an empty array is a no-op, and a non-empty array raises `ArgumentCountError` before any write. |
| Headers.DefaultHeaders.AddDefaultHeadersForHost | src/TgRestClient/Headers.php:47-53 | Corrected: a non-array or empty argument changes nothing; otherwise one `setDefaultHeader($host, ...)` per entry, in order. |
| Headers.AddDefaultHeadersLosesHeaders | src/TgRestClient/Headers.php:50 | Counterexample: after `addDefaultHeaders('example.com', ['Authorization' => 'Bearer t'])` as written, the host has no `Authorization` header; as intended, it has `Bearer t`. |
| Codec.RawUrlDecode | src/TgRestClient/Request.php:165 | `rawurlencode` can be inverted: percent-decoding gives back the UTF-8 bytes of the text (sections 2.1 and 2.3 of RFC 3986). |
| Codec.DecodeEncodeBytes | src/TgRestClient/Request.php:165 | Percent-decoding inverts percent-encoding on any byte string. |
| Codec.EncodeByte | src/TgRestClient/Request.php:165 | An unreserved byte stays itself; any other byte becomes `%` and two hex digits; the output holds only unreserved characters and `%`. |
| Codec.FormRoundTrip | src/TgRestClient/Request.php:163-167 | A form-encoded body split on `&` and `=` and percent-decoded gives back every key/value pair, as UTF-8, in order. |
| Codec.AccumulatedJoin | src/TgRestClient/Request.php:164-167 | Building `'&' . k=v` per entry leaves a leading `&` followed by the pairs joined with `&`. |
| Codec.FormLoop | src/TgRestClient/Request.php:164-166 | The accumulator loop's result is the `&`-prefixed concatenation of the encoded pairs. |
| Codec.EncodedNull | src/TgRestClient/Request.php:151-153 | A body that loosely equals NULL encodes to `''` under any content type. |
| Codec.EncodedScalar | src/TgRestClient/Request.php:172-175 | A non-empty string or number encodes to itself, whatever the content type. |
| Codec.EncodedForm | src/TgRestClient/Request.php:163-167 | Under `application/x-www-form-urlencoded`, an array or object encodes as `rawurlencode(k)=rawurlencode(v)` pairs joined by `&`, with no leading `&`. |
| Codec.EncodedJson | src/TgRestClient/Request.php:161-162 | Under `application/json` or `text/json`, a non-empty array or object encodes through the JSON encoder. |
| Codec.EncodedOther | src/TgRestClient/Request.php:168-171 | Under any other type, an object encodes as its `__toString`, and a plain array as `''`. |
| Codec.StringifyBody | src/TgRestClient/Request.php:150-179 | The imperative `getStringifiedBody` computes the codec function, including the form accumulator loop and the `substr(…, 1)`. |
| Transport.HeaderLineParts | src/TgRestClient/Request.php:136-138 | A header line is the name, `': '` and the value, in that order. |
| Transport.RenderHeaderLines | src/TgRestClient/Request.php:135-139 | The loop produces one `name: value` line per header entry, in map order. |
| Requests.ContentLength | src/TgRestClient/Request.php:129-133 | With a body, `Content-Length` reads back as the byte length of the posted body; without one, the map and postfields are untouched; no other header changes. |
| Requests.PreparedIdempotent | src/TgRestClient/Request.php:129-139 | Preparing twice is preparing once, and the second handle equals the first. |
| Requests.MaterializedIdempotent | src/TgRestClient/Request.php:112-117 | `getCurl` builds the handle once; a later call changes nothing. |
| Requests.Request.constructor | src/TgRestClient/Request.php:33-39 | A new request carries `Headers::getHeaders(host)`, a NULL body and no handle. |
| Requests.Request.SetHeader | src/TgRestClient/Request.php:79-82 | The header map becomes `Put(old, name, value)`; body and handle are unchanged. |
| Requests.Request.AddHeaders | src/TgRestClient/Request.php:89-96 | One `setHeader` per entry, in order; a non-array changes nothing. |
| Requests.Request.SetBody | src/TgRestClient/Request.php:103-106 | Sets the body and nothing else. |
| Requests.Request.GetStringifiedBody | src/TgRestClient/Request.php:150-179 | The body encoded under the request's own `Content-Type`. |
| Requests.Request.CreateCurl | src/TgRestClient/Request.php:123-142 | PATCH, PUT and POST post the body and write `Content-Length`; the handle carries the header lines of the updated map and no timeout. |
| Requests.Request.GetCurl | src/TgRestClient/Request.php:112-117 | Builds the handle on first use and caches it; the new state is `Materialized` of the old one. |
| Requests.Head | src/TgRestClient/Request.php:199-201 | A HEAD request with the host's default headers, no body and no handle. |
| Requests.Get | src/TgRestClient/Request.php:208-210 | Likewise for GET. |
| Requests.Options | src/TgRestClient/Request.php:253-255 | Likewise for OPTIONS. |
| Requests.Delete | src/TgRestClient/Request.php:262-264 | Likewise for DELETE. |
| Requests.Post | src/TgRestClient/Request.php:218-222 | A POST request with the defaults and the given body. |
| Requests.Put | src/TgRestClient/Request.php:230-234 | Likewise for PUT. |
| Requests.Patch | src/TgRestClient/Request.php:242-246 | Likewise for PATCH. |
| Responses.Response.constructor | src/TgRestClient/Response.php:26-34 | A new response belongs to its request, has code -1 and every other field NULL. |
| Responses.FilledOnError | src/TgRestClient/Response.php:155-159 | On a transport error: code 0, empty info, `''` body, and the header lines left as they were. |
| Responses.FilledOnSuccess | src/TgRestClient/Response.php:147-154 | On success, the first `header_size` bytes followed by the body is the whole content; the header lines joined with LF give that prefix without its CRs. |
| Responses.Filled | src/TgRestClient/Response.php:145-146 | Whatever the outcome, the error string and the effective URL are recorded. |
| Responses.HeaderBlockRoundTrip | src/TgRestClient/Response.php:152-153 | `explode("\n", str_replace("\r", '', $b))` gives at least one line, no line holds a CR or an LF, and joining with LF gives the block without its CRs. |
| Responses.ContentTypeStates | src/TgRestClient/Response.php:72-76 | `getContentType` is NULL before a run and after an error, and the transport's content type after a success. |
| Responses.FindHeaderFirst | src/TgRestClient/Response.php:103-108 | `getHeader($n)` returns the trimmed value of the first line that starts with `$n:`, and NULL exactly when no line does. |
| Responses.FindHeaderIgnoresCase | src/TgRestClient/Response.php:104-105 | Names that are equal in lower case find the same header. |
| Responses.ServerHeaderExample | tests/TgRestClient/ClientTest.php:21 | Asked for `Server`, the lines `HTTP/2 200` and `server: cloudflare` give `cloudflare`. |
| Responses.Response.GetHeader | src/TgRestClient/Response.php:99-109 | The search loop with early return computes the lookup: the status line for a NULL or empty name, NULL before a run. |
| Responses.ResponseBody | src/TgRestClient/Response.php:124-129 | `getBody` decodes exactly when the content type starts with `application/json`; otherwise it returns the raw body. What that gives after a run is stated by `Responses.BodyOfFilled`. |
| Responses.JsonDecodedBody | src/TgRestClient/Response.php:135-137 | `getJsonDecodedBody` returns NULL without decoding exactly when the body is NULL or empty; otherwise it returns `json_decode`'s result for the trimmed body, which may itself be NULL. |
| Responses.BodyOfFilled | src/TgRestClient/Response.php:124-137 | After a successful transfer, `getJsonDecodedBody` is the decoding of the trimmed content after `header_size` (NULL when that part is empty), and `getBody` is that decoding when the transport's content type starts with `application/json` and the raw part otherwise. After an error, `getBody` is `''` and `getJsonDecodedBody` NULL; before a run `getBody` is NULL. |
| Responses.JsonDecodedIgnoresPadding | src/TgRestClient/Response.php:136 | White space around a non-empty body does not change the decoding. |
| Responses.Response.SetCurlResult | src/TgRestClient/Response.php:142-160 | Fetches the cached handle and fills every field from its transfer, exactly once. |
| Clients.Client.constructor | src/TgRestClient/Client.php:18-21 | A new client has no requests and no responses. |
| Clients.Client.AddCall | src/TgRestClient/Client.php:28-33 | Appends the request and a fresh response bound to it; earlier entries are unchanged and the two sequences stay parallel. |
| Clients.Client.GetRequestCount | src/TgRestClient/Client.php:76-78 | `getRequestCount() == count(getRequests())`, and in a valid client it is also the number of responses. The constructor starts it at 0, `addCall` raises it by one, and `run` leaves it unchanged. |
| Clients.Client.Run | src/TgRestClient/Client.php:40-70 | Nothing happens on an empty batch. Otherwise every handle is built and armed, each response is filled exactly once from its own request's transfer, and the responses come back in registration order. |
| Clients.Client.PrepareHandles | src/TgRestClient/Client.php:44-49 | The first loop leaves every request scheduled, even one registered twice. |
| Clients.Client.CollectResults | src/TgRestClient/Client.php:59-60 | The second loop fills each response once and leaves the requests as they are. |
| Clients.ScheduledIdempotent | src/TgRestClient/Client.php:44-49 | Scheduling twice is scheduling once. |
| Clients.Armed | src/TgRestClient/Client.php:46-47 | `run` keeps the header in the output and returns the transfer. |
| Clients.Execute | src/TgRestClient/Request.php:186-191 | `execute` runs a batch of one and returns that request's response, filled once. |
| RestRequests.RestRequest.constructor | src/TgRestClient/RestRequest.php:29-36 | A new request has no headers, a NULL body, a 5-second timeout and no handle. |
| RestRequests.RestRequest.SetTimeout | src/TgRestClient/RestRequest.php:111-113 | `getTimeout()` after `setTimeout(t)` returns `t`; nothing else changes. |
| RestRequests.RestRequest.SetHeader | src/TgRestClient/RestRequest.php:83-85 | Last write wins; the other fields are unchanged. |
| RestRequests.RestRequest.AddHeaders | src/TgRestClient/RestRequest.php:91-97 | One `setHeader` per entry; a non-array changes nothing. |
| RestRequests.RestRequest.SetBody | src/TgRestClient/RestRequest.php:103-105 | Sets the body and nothing else. |
| RestRequests.RestRequest.GetStringifiedBody | src/TgRestClient/RestRequest.php:155-184 | The same codec as `Request`'s. |
| RestRequests.RestRequest.CreateCurl | src/TgRestClient/RestRequest.php:130-147 | Only PUT and POST get a body and `Content-Length`; nothing is returned. |
| RestRequests.RestRequest.CreateHandle | src/TgRestClient/RestRequest.php:130-146 | The handle `createCurl` configures, with the request's own timeout. |
| RestRequests.AfterCreateIdempotent | src/TgRestClient/RestRequest.php:136-146 | Running `createCurl` again leaves the header map and the handle as the first run made them. |
| RestRequests.RestRequest.GetCurlAsWritten | src/TgRestClient/RestRequest.php:119-124 | As written: the cache stays empty, NULL is returned, and every call repeats `createCurl`. |
| RestRequests.RestRequest.GetCurl | src/TgRestClient/RestRequest.php:119-124 | Corrected: builds the handle once and caches it. |
| RestRequests.GetCurlReturnsNull | src/TgRestClient/RestRequest.php:130-147 | Counterexample: two calls of the as-written `getCurl` both give NULL, while the corrected one gives the same handle twice. |
| RestResponses.RestResponse.constructor | src/TgRestClient/RestResponse.php:23-30 | A new response belongs to its request, has code -1 and its other fields NULL. |
| RestResponses.FilledOutcomes | src/TgRestClient/RestResponse.php:91-105 | On success: code, info and the whole content as body. On an error: code 0, empty info, `''` body. |
| RestResponses.AgreesWithResponse | src/TgRestClient/RestResponse.php:96-99 | For the same raw content (a common transfer result, which the two clients never share in practice, since one asks curl for headers and the other does not), on success both response kinds record the same error, URL, info and code, and a `RestResponse` body is a `Response`'s header block followed by its body. |
| RestResponses.DecodedBody | src/TgRestClient/RestResponse.php:84-86 | `getDecodedBody` returns NULL without decoding exactly when the body is NULL or empty; otherwise it returns `json_decode`'s result for the body, which may itself be NULL. |
| RestResponses.DecodedBodyOfFilled | src/TgRestClient/RestResponse.php:84-86 | After a run, `getDecodedBody` is the decoding of the whole content exactly when the transfer succeeded with non-empty content, and NULL otherwise; before a run it is NULL. |
| RestResponses.RestResponse.SetCurlResult | src/TgRestClient/RestResponse.php:91-105 | Fills the fields from the transfer of the request's handle, exactly once. |
| RestClients.CallHeadersPrecedence | src/TgRestClient/RestClient.php:57-60 | In a request built by `addX`, a per-call header beats the `contentType` argument, which beats the defaults; any other name is absent. |
| RestClients.CallHeadersDefaultArguments | src/TgRestClient/RestClient.php:56-60 | Without the optional `$contentType = 'application/json'` and `$headers = array()`, the request's Content-Type is `application/json` and every other header is the default's, if any. |
| RestClients.CallHeadersBare | src/TgRestClient/RestClient.php:58-59 | A NULL default table and no per-call headers leave `Content-Type` as the only header. |
| RestClients.RestDefaults.constructor | src/TgRestClient/RestClient.php:12 | The default map starts as NULL. |
| RestClients.RestDefaults.SetDefaultHeader | src/TgRestClient/RestClient.php:42-47 | Start from an empty array if NULL, then assign `[$name] = $value`. |
| RestClients.RestDefaults.AddDefaultHeaders | src/TgRestClient/RestClient.php:29-35 | As written: a non-array or empty argument is a no-op; a non-empty array raises an undefined-method error before any write. |
| RestClients.RestDefaults.AddDefaultHeadersCorrected | src/TgRestClient/RestClient.php:29-35 | Corrected: one `setDefaultHeader` per entry, in order. |
| RestClients.AddDefaultHeadersFails | src/TgRestClient/RestClient.php:32 | Counterexample: as written the call fails and the defaults stay NULL; as intended they hold the given header. |
| RestClients.RestClient.constructor | src/TgRestClient/RestClient.php:20-23 | A new client has no requests and no responses. |
| RestClients.RestClient.AddCall | src/TgRestClient/RestClient.php:210-215 | Appends the request and a fresh bound response, in parallel, and returns it. |
| RestClients.RestClient.AddGet | src/TgRestClient/RestClient.php:56-62 | A GET with `CallHeaders` headers, a NULL body and a 5-second timeout, registered at the end. As in the source, `contentType` defaults to `application/json` and `headers` to an empty array. |
| RestClients.RestClient.AddPut | src/TgRestClient/RestClient.php:87-94 | A PUT with `CallHeaders` headers and the given body. |
| RestClients.RestClient.AddPost | src/TgRestClient/RestClient.php:120-127 | A POST with `CallHeaders` headers and the given body. |
| RestClients.RestClient.AddDelete | src/TgRestClient/RestClient.php:152-158 | A DELETE with `CallHeaders` headers and a NULL body. |
| RestClients.RestClient.AddHead | src/TgRestClient/RestClient.php:182-188 | A HEAD with `CallHeaders` headers and a NULL body. |
| RestClients.RestClient.GetRequestCount | src/TgRestClient/RestClient.php:258-260 | `getRequestCount() == count(getRequests())`, and in a valid client it is also the number of responses. The constructor starts it at 0, `addCall` raises it by one, and `run` leaves it unchanged. |
| RestClients.Armed | src/TgRestClient/RestClient.php:228-230 | `run` turns header capture off, returns the transfer and sets the `RestClient/1.0` user agent. |
| RestClients.ScheduledIdempotent | src/TgRestClient/RestClient.php:226-232 | Scheduling twice is scheduling once. |
| RestClients.RestClient.Run | src/TgRestClient/RestClient.php:222-256 | Nothing happens on an empty batch. Otherwise every handle is built and armed, each response is filled exactly once, and the responses come back in registration order. |
| RestClients.RestClient.CollectResults | src/TgRestClient/RestClient.php:242-250 | The second loop fills each response once and leaves the requests as they are. |
| RestClients.Get | src/TgRestClient/RestClient.php:72-77 | A fresh client with one GET call, run once; that call's response is returned. `contentType` and `headers` have the source's defaults. |
| RestClients.Put | src/TgRestClient/RestClient.php:105-110 | Likewise for PUT with a body. |
| RestClients.Post | src/TgRestClient/RestClient.php:138-143 | Likewise for POST with a body. |
| RestClients.Delete | src/TgRestClient/RestClient.php:168-173 | Likewise for DELETE. |
| RestClients.Head | src/TgRestClient/RestClient.php:198-203 | Likewise for HEAD. |
| Bytes.DecimalRoundTrip | src/TgRestClient/Request.php:132 | The decimal rendering of a length reads back as that length. |
| Bytes.TrimIdempotent | src/TgRestClient/Response.php:136 | `trim` applied twice is `trim` once. |
| Bytes.TrimPadding | src/TgRestClient/Response.php:136 | `trim` removes any white space added around a text. |
| Seqs.JoinSplit | src/TgRestClient/Response.php:153 | `implode($sep, explode($sep, $s)) == $s`. |
| Seqs.SplitJoin | src/TgRestClient/Response.php:153 | `explode` inverts `implode` on pieces that do not contain the separator. |
| Seqs.PrefixSuffix | src/TgRestClient/Response.php:152-154 | Cutting the content at `header_size` loses nothing. |

## Left out

- curl itself: the surrounding code is modelled, but `curl_init`, `curl_setopt`, `curl_multi_*` and the `curl_multi_exec`/`curl_multi_select` polling loop are not. A handle is a record of the options the client sets, and a transfer is a total function from handle to outcome. Because transfers run concurrently and are observed only through that function, the order of the transfers cannot be observed; the order in which responses are filled is modelled as the loop order.
- Timeouts: `CURLOPT_TIMEOUT` is recorded in the handle, but its wall-clock effect is not modelled. The `run($timeout)` and `execute($timeout)` arguments are unused by the source and are left out, although their doc comments promise that the run is aborted after the timeout.
- JSON: `json_encode` and `json_decode` are parameters, so nothing is proved about JSON syntax. A NULL that `json_decode` returns (invalid JSON, or the literal `null`) is a value of the decoder's result type `J`; the model's `None` for a decoded body stands only for the NULL returned without decoding.
- URL parsing: `TgUtils\URL` is not part of this model. A request's URL comes with its host given by the caller.
- PHP type juggling: the body is a datatype (`Null`, `Str`, `Num`, `Arr`, `Obj`). Booleans, nested arrays and `is_numeric` on arbitrary strings are left out. `$body != NULL` is modelled for the empty string, the empty array and a zero number.
- `array_merge` renumbering of integer keys: header names are strings, so it is left out.
- `RestClients.RestClient.Run` uses the caching `RestRequests.RestRequest.GetCurl`. The as-written `getCurl` returns NULL, and `curl_setopt(NULL, …)` throws a `TypeError` in PHP 8; that failure is not modelled beyond `RestRequests.GetCurlReturnsNull` (see Findings).
- RestResponses.RestResponse.SetCurlResult: uses the corrected `getCurl`. As written it passes NULL to `curl_error`/`curl_getinfo`, which throws a `TypeError` in PHP 8; this is not modelled.
- RestClients.RestClient.CollectResults: uses the corrected `getCurl`, so the `TypeError` the as-written NULL handle raises is not modelled.
- RestClients.Get: runs through the corrected `getCurl`; the `TypeError` of the as-written NULL handle is not modelled.
- RestClients.Put: runs through the corrected `getCurl`; the `TypeError` of the as-written NULL handle is not modelled.
- RestClients.Post: runs through the corrected `getCurl`; the `TypeError` of the as-written NULL handle is not modelled.
- RestClients.Delete: runs through the corrected `getCurl`; the `TypeError` of the as-written NULL handle is not modelled.
- RestClients.Head: runs through the corrected `getCurl`; the `TypeError` of the as-written NULL handle is not modelled.
- Request-side text: bodies, URLs and header values are Dafny strings, so they are UTF-8 text only. A binary or non-UTF-8 payload cannot be expressed, although `strlen` and `rawurlencode` act on raw bytes.
- Content-Length: the model stores the header as the decimal text of the byte length. PHP stores the integer `strlen` returns and curl renders it; the header line on the wire is the same.
- `Request::createCurl` reads `$this->timeout`, which `Request` does not declare. PHP reads NULL, so the handle's timeout is `None`.
- `RestRequest` header values are rendered as strings; a non-string value is not modelled.
- The plain getters (`getMethod`, `getUrl`, `getHeaders`, `getBody`/`getRawBody` of the raw fields, `getError`, `getInfo`, `getHttpCode`, `getRequest`, `getRequests`, `getResponses`) are the class fields or `const`s themselves and carry no contract of their own.
- Duplicate registration: the source does not check for it, and neither does the model. `PrepareHandles` is proved for a request registered twice.

## Findings

| source | as written | input that shows it | evidently intended | confidence | as-written member | corrected member |
|---|---|---|---|---|---|---|
| src/TgRestClient/Headers.php:50 | `self::setDefaultHeader($name, $value)` passes two of the three arguments, so the first entry raises `ArgumentCountError`, and no header reaches the table. | `addDefaultHeaders('example.com', ['Authorization' => 'Bearer t'])` | `self::setDefaultHeader($host, $name, $value)` for each entry | not executed | Headers.DefaultHeaders.AddDefaultHeaders (shown by Headers.AddDefaultHeadersLosesHeaders) | Headers.DefaultHeaders.AddDefaultHeadersForHost |
| src/TgRestClient/RestClient.php:32 | `self::setHeader($name, $value)` calls a static method that `RestClient` does not have, so the first entry raises `Error`. | `RestClient::addDefaultHeaders(['Authorization' => 'Bearer t'])` | `self::setDefaultHeader($name, $value)` for each entry | not executed | RestClients.RestDefaults.AddDefaultHeaders (shown by RestClients.AddDefaultHeadersFails) | RestClients.RestDefaults.AddDefaultHeadersCorrected |
| src/TgRestClient/RestRequest.php:130-147 | `createCurl` configures a handle but has no `return`, so `getCurl` caches NULL, returns NULL and rebuilds on every call. | `(new RestRequest('POST', $url))->getCurl()` twice | `return $rc;` at the end of `createCurl` | not executed | RestRequests.RestRequest.GetCurlAsWritten (shown by RestRequests.GetCurlReturnsNull) | RestRequests.RestRequest.GetCurl |
