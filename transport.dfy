/**
 * What the client hands to curl and what it reads back. A curl handle is a
 * record of the options the client sets; the transfer itself is a function
 * from a handle to its outcome.
 */
module Transport {
  import opened Wrappers
  import opened Bytes

  /** A parsed URL: the text given, and the host that `TgUtils\URL::getHost` extracts from it. */
  datatype Url = Url(text: string, host: string)

  /** The options set on a curl handle. */
  datatype Handle = Handle(
    httpMethod: string,           // CURLOPT_CUSTOMREQUEST
    url: string,                  // CURLOPT_URL
    timeout: Option<int>,         // CURLOPT_TIMEOUT
    postFields: Option<string>,   // CURLOPT_POSTFIELDS
    headerLines: seq<string>,     // CURLOPT_HTTPHEADER
    captureHeader: bool,          // CURLOPT_HEADER
    returnTransfer: bool,         // CURLOPT_RETURNTRANSFER
    userAgent: Option<string>)    // CURLOPT_USERAGENT

  /**
   * What curl reports for a finished transfer: `curl_error`, the effective
   * URL, the HTTP code, the `content_type` and `header_size` entries of
   * `curl_getinfo`, and `curl_multi_getcontent`.
   */
  datatype TransferResult = TransferResult(
    error: string,
    effectiveUrl: string,
    httpCode: int,
    contentType: Option<string>,
    headerSize: nat,
    content: seq<byte>)

  type Transfer = Handle -> TransferResult

  /** `empty($error)`: PHP treats both `''` and `'0'` as empty. */
  predicate PhpEmpty(s: string)
  {
    s == "" || s == "0"
  }

  /** `$name.': '.$value` */
  function HeaderLine(name: string, value: string): string
  {
    name + ": " + value
  }

  /** The line shows its name, then `": "`, then its value. */
  lemma HeaderLineParts(name: string, value: string)
    ensures var line := HeaderLine(name, value);
      && |line| == |name| + 2 + |value|
      && line[..|name|] == name
      && line[|name|..|name| + 2] == ": "
      && line[|name| + 2..] == value
  {
  }

  /** One `name: value` line per entry, in map order. */
  function HeaderLines(m: seq<(string, string)>): (lines: seq<string>)
    ensures |lines| == |m|
    ensures forall i :: 0 <= i < |m| ==> lines[i] == HeaderLine(m[i].0, m[i].1)
  {
    seq(|m|, i requires 0 <= i < |m| => HeaderLine(m[i].0, m[i].1))
  }

  /** The `foreach` that builds `CURLOPT_HTTPHEADER` by appending `$headers[] = ...`. */
  method RenderHeaderLines(m: seq<(string, string)>) returns (lines: seq<string>)
    ensures lines == HeaderLines(m)
  {
    lines := [];
    var i := 0;
    while i < |m|
      invariant 0 <= i <= |m|
      invariant |lines| == i
      invariant forall k :: 0 <= k < i ==> lines[k] == HeaderLine(m[k].0, m[k].1)
    {
      lines := lines + [HeaderLine(m[i].0, m[i].1)];
      i := i + 1;
    }
  }
}

