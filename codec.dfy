/**
 * The request-body codec shared by `Request` and `RestRequest`
 * (`getStringifiedBody`): a body value and the request's `Content-Type`
 * header give the string sent on the wire.
 */
module Codec {
  import opened Wrappers
  import opened Bytes
  import Seqs
  import Headers

  /**
   * A request body as PHP may hold it. A number carries the text PHP renders
   * for it; an array or object carries its (public) fields in order, and an
   * object also the result of its `__toString`.
   */
  datatype Body =
    | Null
    | Str(s: string)
    | Num(text: string)
    | Arr(entries: seq<(string, string)>)
    | Obj(fields: seq<(string, string)>, asString: string)

  /** The abstract `json_encode` of an array of fields. */
  type JsonEncoder = seq<(string, string)> -> string

  /**
   * `$body != NULL` is false: NULL, the empty string, an empty array and a
   * zero number compare loosely equal to NULL; an object never does.
   */
  predicate LooselyNull(b: Body)
  {
    match b
    case Null => true
    case Str(s) => s == ""
    case Num(t) => t == "0" || t == "-0"
    case Arr(e) => |e| == 0
    case Obj(_, _) => false
  }

  predicate IsJsonType(contentType: Option<string>)
  {
    contentType == Some(Headers.TYPE_JSON) || contentType == Some("text/json")
  }

  predicate IsFormType(contentType: Option<string>)
  {
    contentType == Some(Headers.TYPE_X_WWW_FORM_URLENCODED)
  }

  // ---------------------------------------------------------------------------
  // rawurlencode: percent-encoding of RFC 3986, section 2.1, leaving exactly
  // the unreserved characters of section 2.3 as they are.

  /** ALPHA / DIGIT / "-" / "." / "_" / "~" (RFC 3986, section 2.3). */
  predicate Unreserved(b: int)
  {
    (65 <= b <= 90) || (97 <= b <= 122) || (48 <= b <= 57) || b == 45 || b == 46 || b == 95 || b == 126
  }

  /** The characters `rawurlencode` can produce. */
  predicate UrlSafe(c: char)
  {
    Unreserved(c as int) || c == '%'
  }

  function HexDigit(d: nat): (c: char)
    requires d < 16
    ensures Unreserved(c as int)
  {
    if d < 10 then ('0' as int + d) as char else ('A' as int + d - 10) as char
  }

  /** The value of an upper-case hexadecimal digit, if `c` is one. */
  function HexValue(c: char): (r: Option<nat>)
    ensures r.Some? ==> r.value < 16 && HexDigit(r.value) == c
  {
    if '0' <= c <= '9' then Some(c as int - '0' as int)
    else if 'A' <= c <= 'F' then Some(c as int - 'A' as int + 10)
    else None
  }

  /** One encoded byte: itself when unreserved, `%XX` (upper-case hex) otherwise. */
  function EncodeByte(b: byte): (r: string)
    ensures Unreserved(b) ==> r == [b as char]
    ensures !Unreserved(b) ==> |r| == 3 && r[0] == '%'
    ensures forall i :: 0 <= i < |r| ==> UrlSafe(r[i])
  {
    if Unreserved(b) then [b as char] else ['%', HexDigit(b / 16), HexDigit(b % 16)]
  }

  function EncodeBytes(bs: seq<byte>): (r: string)
    ensures forall i :: 0 <= i < |r| ==> UrlSafe(r[i])
  {
    if |bs| == 0 then "" else EncodeByte(bs[0]) + EncodeBytes(bs[1..])
  }

  /** PHP's `rawurlencode` of a text: its UTF-8 bytes, percent-encoded. */
  function RawUrlEncode(s: string): (r: string)
    ensures forall i :: 0 <= i < |r| ==> UrlSafe(r[i])
  {
    EncodeBytes(Utf8(s))
  }

  /** Percent-decoding of `rawurlencode` output; None on any other character or a broken escape. */
  function PercentDecode(s: string): Option<seq<byte>>
  {
    if |s| == 0 then Some([])
    else if s[0] == '%' then
      if |s| < 3 || HexValue(s[1]).None? || HexValue(s[2]).None? then None
      else
        var rest := PercentDecode(s[3..]);
        if rest.None? then None else Some([HexValue(s[1]).value * 16 + HexValue(s[2]).value] + rest.value)
    else if Unreserved(s[0] as int) then
      var rest := PercentDecode(s[1..]);
      if rest.None? then None else Some([s[0] as int] + rest.value)
    else None
  }

  /** Decoding reads one encoded byte off the front and carries on with the rest. */
  lemma DecodeStep(b: byte, rest: string)
    ensures PercentDecode(EncodeByte(b) + rest) ==
              if PercentDecode(rest).None? then None else Some([b] + PercentDecode(rest).value)
  {
    if Unreserved(b) {
      var s := [b as char] + rest;
      assert s[0] == b as char && s[1..] == rest;
    } else {
      DecodeEscape(b / 16, b % 16, rest);
    }
  }

  /** A `%XX` escape decodes to the byte its two digits spell. */
  lemma DecodeEscape(hi: nat, lo: nat, rest: string)
    requires hi < 16 && lo < 16
    ensures PercentDecode(['%', HexDigit(hi), HexDigit(lo)] + rest) ==
              if PercentDecode(rest).None? then None else Some([hi * 16 + lo] + PercentDecode(rest).value)
  {
    var s := ['%', HexDigit(hi), HexDigit(lo)] + rest;
    assert s[0] == '%' && s[1] == HexDigit(hi) && s[2] == HexDigit(lo) && s[3..] == rest;
    assert HexValue(HexDigit(hi)) == Some(hi);
    assert HexValue(HexDigit(lo)) == Some(lo);
  }

  lemma {:induction false} DecodeEncodeBytes(bs: seq<byte>)
    ensures PercentDecode(EncodeBytes(bs)) == Some(bs)
  {
    if |bs| > 0 {
      DecodeEncodeBytes(bs[1..]);
      DecodeStep(bs[0], EncodeBytes(bs[1..]));
      assert bs == [bs[0]] + bs[1..];
    }
  }

  /** `rawurlencode` loses nothing: decoding gives back the UTF-8 bytes of the text. */
  lemma RawUrlDecode(s: string)
    ensures PercentDecode(RawUrlEncode(s)) == Some(Utf8(s))
  {
    DecodeEncodeBytes(Utf8(s));
  }

  // ---------------------------------------------------------------------------
  // application/x-www-form-urlencoded

  /** `rawurlencode($key).'='.rawurlencode($value)` */
  function FormPair(e: (string, string)): string
  {
    RawUrlEncode(e.0) + "=" + RawUrlEncode(e.1)
  }

  function FormPairs(entries: seq<(string, string)>): (ps: seq<string>)
    ensures |ps| == |entries|
    ensures forall i :: 0 <= i < |entries| ==> ps[i] == FormPair(entries[i])
  {
    seq(|entries|, i requires 0 <= i < |entries| => FormPair(entries[i]))
  }

  /** The encoded pairs, in iteration order, joined by `&` with no leading `&`. */
  function FormEncoded(entries: seq<(string, string)>): string
  {
    Seqs.Join(FormPairs(entries), '&')
  }

  /** Reads one `key=value` piece back into the bytes of key and value. */
  function DecodePair(piece: string): Option<(seq<byte>, seq<byte>)>
  {
    var kv := Seqs.Split(piece, '=');
    if |kv| != 2 then None
    else
      var k := PercentDecode(kv[0]);
      var v := PercentDecode(kv[1]);
      if k.None? || v.None? then None else Some((k.value, v.value))
  }

  function DecodePairs(pieces: seq<string>): Option<seq<(seq<byte>, seq<byte>)>>
  {
    if |pieces| == 0 then Some([])
    else
      var p := DecodePair(pieces[0]);
      var rest := DecodePairs(pieces[1..]);
      if p.None? || rest.None? then None else Some([p.value] + rest.value)
  }

  /** A form-urlencoded string read back into (key, value) byte strings. */
  function FormDecode(s: string): Option<seq<(seq<byte>, seq<byte>)>>
  {
    if s == "" then Some([]) else DecodePairs(Seqs.Split(s, '&'))
  }

  /** The UTF-8 bytes of every key and value, in order. */
  function EntryBytes(entries: seq<(string, string)>): (r: seq<(seq<byte>, seq<byte>)>)
    ensures |r| == |entries|
    ensures forall i :: 0 <= i < |entries| ==> r[i] == (Utf8(entries[i].0), Utf8(entries[i].1))
  {
    seq(|entries|, i requires 0 <= i < |entries| => (Utf8(entries[i].0), Utf8(entries[i].1)))
  }

  lemma NoSeparatorIn(s: string, c: char)
    requires forall i :: 0 <= i < |s| ==> UrlSafe(s[i])
    requires !UrlSafe(c)
    ensures c !in s
  {
  }

  lemma DecodeFormPair(e: (string, string))
    ensures DecodePair(FormPair(e)) == Some((Utf8(e.0), Utf8(e.1)))
    ensures '&' !in FormPair(e)
  {
    var k := RawUrlEncode(e.0);
    var v := RawUrlEncode(e.1);
    NoSeparatorIn(k, '=');
    NoSeparatorIn(v, '=');
    NoSeparatorIn(k, '&');
    NoSeparatorIn(v, '&');
    assert Seqs.Join([k, v], '=') == FormPair(e);
    Seqs.SplitJoin([k, v], '=');
    RawUrlDecode(e.0);
    RawUrlDecode(e.1);
  }

  lemma {:induction false} DecodeFormPairs(entries: seq<(string, string)>)
    ensures DecodePairs(FormPairs(entries)) == Some(EntryBytes(entries))
  {
    if |entries| > 0 {
      DecodeFormPair(entries[0]);
      assert FormPairs(entries)[1..] == FormPairs(entries[1..]);
      DecodeFormPairs(entries[1..]);
      assert EntryBytes(entries) == [EntryBytes(entries)[0]] + EntryBytes(entries[1..]);
    }
  }

  /** Form encoding round-trips: decoding gives back every key and value, in order. */
  lemma FormRoundTrip(entries: seq<(string, string)>)
    ensures FormDecode(FormEncoded(entries)) == Some(EntryBytes(entries))
  {
    var ps := FormPairs(entries);
    if |entries| == 0 {
      assert FormEncoded(entries) == "";
    } else {
      forall i | 0 <= i < |ps| ensures '&' !in ps[i] {
        DecodeFormPair(entries[i]);
      }
      Seqs.SplitJoin(ps, '&');
      DecodeFormPairs(entries);
      if FormEncoded(entries) == "" {
        DecodeFormPair(entries[0]);
        FormEncodedNonEmpty(entries);
      }
    }
  }

  /** Every pair holds its `=`, so a non-empty array never encodes to the empty string. */
  lemma FormEncodedNonEmpty(entries: seq<(string, string)>)
    requires |entries| > 0
    ensures |FormEncoded(entries)| >= |FormPair(entries[0])| >= 1
  {
    var ps := FormPairs(entries);
    if |ps| > 1 {
      assert FormEncoded(entries) == ps[0] + ['&'] + Seqs.Join(ps[1..], '&');
    }
  }

  /** What the accumulator of the form loop holds: `'&'` before every encoded pair. */
  function Accumulated(ps: seq<string>): string
  {
    if |ps| == 0 then "" else Accumulated(ps[..|ps| - 1]) + "&" + ps[|ps| - 1]
  }

  lemma {:induction false} AccumulatedJoin(ps: seq<string>)
    requires |ps| > 0
    ensures Accumulated(ps) == "&" + Seqs.Join(ps, '&')
    decreases |ps|
  {
    var qs := ps[..|ps| - 1];
    var p := ps[|ps| - 1];
    assert ps == qs + [p];
    if |qs| == 0 {
      assert Accumulated(qs) == "";
    } else {
      AccumulatedJoin(qs);
      Seqs.JoinSnoc(qs, p, '&');
    }
  }

  // ---------------------------------------------------------------------------
  // getStringifiedBody

  /** The encoding of an array or object body, decided by the `Content-Type`. */
  function Structured(entries: seq<(string, string)>, contentType: Option<string>, json: JsonEncoder,
                      asString: Option<string>): string
  {
    if IsJsonType(contentType) then json(entries)
    else if IsFormType(contentType) then FormEncoded(entries)
    else asString.GetOr("")
  }

  /** What `getStringifiedBody` returns for `body` under the given `Content-Type` header value. */
  function Encoded(body: Body, contentType: Option<string>, json: JsonEncoder): string
  {
    if LooselyNull(body) then ""
    else
      match body
      case Null => ""
      case Str(s) => s
      case Num(t) => t
      case Arr(e) => Structured(e, contentType, json, None)
      case Obj(f, s) => Structured(f, contentType, json, Some(s))
  }

  /** NULL, `''`, an empty array and a zero number encode to `''`. */
  lemma EncodedNull(body: Body, contentType: Option<string>, json: JsonEncoder)
    requires LooselyNull(body)
    ensures Encoded(body, contentType, json) == ""
  {
  }

  /** A string or number is sent as it is, whatever the `Content-Type`. */
  lemma EncodedScalar(body: Body, contentType: Option<string>, contentType': Option<string>, json: JsonEncoder)
    requires body.Str? || body.Num?
    requires !LooselyNull(body)
    ensures Encoded(body, contentType, json) == Encoded(body, contentType', json)
    ensures Encoded(body, contentType, json) == if body.Str? then body.s else body.text
  {
  }

  /**
   * Under the form type, an array or object is sent as its form encoding,
   * which decodes back to its fields' bytes.
   */
  lemma EncodedForm(body: Body, json: JsonEncoder)
    requires body.Arr? || body.Obj?
    ensures var entries := if body.Arr? then body.entries else body.fields;
      var wire := Encoded(body, Some(Headers.TYPE_X_WWW_FORM_URLENCODED), json);
      && wire == FormEncoded(entries)
      && FormDecode(wire) == Some(EntryBytes(entries))
  {
    var entries := if body.Arr? then body.entries else body.fields;
    FormRoundTrip(entries);
  }

  /** Under a JSON type, an array or object goes through the JSON encoder. */
  lemma EncodedJson(body: Body, contentType: Option<string>, json: JsonEncoder)
    requires body.Arr? || body.Obj?
    requires !LooselyNull(body) && IsJsonType(contentType)
    ensures Encoded(body, contentType, json) == json(if body.Arr? then body.entries else body.fields)
  {
  }

  /** Under any other type, an object gives its `__toString` and a plain array `''`. */
  lemma EncodedOther(body: Body, contentType: Option<string>, json: JsonEncoder)
    requires body.Arr? || body.Obj?
    requires !IsJsonType(contentType) && !IsFormType(contentType)
    ensures Encoded(body, contentType, json) == if body.Obj? then body.asString else ""
  {
  }

  /**
   * `getStringifiedBody`: the form case builds `'&'.pair` for every entry in
   * an accumulator and then drops the first character.
   */
  method StringifyBody(body: Body, contentType: Option<string>, json: JsonEncoder) returns (rc: string)
    ensures rc == Encoded(body, contentType, json)
  {
    rc := "";
    if !LooselyNull(body) {
      if body.Arr? || body.Obj? {
        var entries := if body.Arr? then body.entries else body.fields;
        if IsJsonType(contentType) {
          rc := json(entries);
        } else if IsFormType(contentType) {
          rc := FormLoop(entries);
          if |entries| > 0 {
            AccumulatedJoin(FormPairs(entries));
          }
          rc := Seqs.Suffix(rc, 1);
        } else if body.Obj? {
          rc := body.asString;
        }
      }
      if body.Str? {
        rc := body.s;
      } else if body.Num? {
        rc := body.text;
      }
    }
  }

  /** The form loop of `getStringifiedBody`: `'&'` and the encoded pair, appended per entry. */
  method FormLoop(entries: seq<(string, string)>) returns (acc: string)
    ensures acc == Accumulated(FormPairs(entries))
  {
    acc := "";
    var i := 0;
    while i < |entries|
      invariant 0 <= i <= |entries|
      invariant acc == Accumulated(FormPairs(entries[..i]))
    {
      assert FormPairs(entries[..i + 1])[..i] == FormPairs(entries[..i]);
      acc := acc + "&" + FormPair(entries[i]);
      i := i + 1;
    }
    assert entries[..i] == entries;
  }
}
