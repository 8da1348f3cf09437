/**
 * Byte strings as PHP holds them, and the few byte-level library functions the
 * client relies on: the UTF-8 bytes of a text (what `strlen` counts), ASCII
 * lower-casing (`strtolower`), `trim`, and the decimal rendering of an integer
 * (what PHP produces when an `int` is concatenated into a string).
 */
module Bytes {

  type byte = b: int | 0 <= b < 256

  /** The UTF-8 encoding of one character (RFC 3629, section 3). */
  function Utf8Char(c: char): (bs: seq<byte>)
    ensures 1 <= |bs| <= 4
    ensures c as int < 0x80 <==> |bs| == 1
    ensures c as int < 0x80 ==> bs == [c as int]
    ensures c as int >= 0x80 ==> forall i :: 0 <= i < |bs| ==> bs[i] >= 0x80
  {
    var n := c as int;
    if n < 0x80 then [n]
    else if n < 0x800 then [0xC0 + n / 64, 0x80 + n % 64]
    else if n < 0x10000 then [0xE0 + n / 4096, 0x80 + (n / 64) % 64, 0x80 + n % 64]
    else [0xF0 + n / 262144, 0x80 + (n / 4096) % 64, 0x80 + (n / 64) % 64, 0x80 + n % 64]
  }

  /** The bytes PHP stores for a text: its UTF-8 encoding. */
  function Utf8(s: string): (bs: seq<byte>)
    ensures |bs| >= |s|
  {
    if |s| == 0 then [] else Utf8Char(s[0]) + Utf8(s[1..])
  }

  /** A text made of ASCII characters only. */
  predicate IsAscii(s: string)
  {
    forall i :: 0 <= i < |s| ==> s[i] as int < 0x80
  }

  /** The UTF-8 bytes of an ASCII text are its character codes, one byte each. */
  lemma {:induction false} Utf8OfAscii(s: string)
    requires IsAscii(s)
    ensures |Utf8(s)| == |s|
    ensures forall i :: 0 <= i < |s| ==> Utf8(s)[i] == s[i] as int
  {
    if |s| > 0 {
      Utf8OfAscii(s[1..]);
    }
  }

  lemma {:induction false} Utf8Append(s: string, t: string)
    ensures Utf8(s + t) == Utf8(s) + Utf8(t)
  {
    if |s| == 0 {
      assert s + t == t;
    } else {
      assert (s + t)[1..] == s[1..] + t;
      Utf8Append(s[1..], t);
    }
  }

  /** `strlen` of a PHP string holding the text `s`. */
  function ByteLength(s: string): nat
  {
    |Utf8(s)|
  }

  /** PHP's `strtolower` on one byte: only `A`..`Z` change. */
  function LowerByte(b: byte): (r: byte)
    ensures 65 <= b <= 90 ==> r == b + 32
    ensures !(65 <= b <= 90) ==> r == b
  {
    if 65 <= b <= 90 then b + 32 else b
  }

  function Lower(s: seq<byte>): (r: seq<byte>)
    ensures |r| == |s|
    ensures forall i :: 0 <= i < |s| ==> r[i] == LowerByte(s[i])
  {
    seq(|s|, i requires 0 <= i < |s| => LowerByte(s[i]))
  }

  /** The bytes `trim` removes: space, tab, LF, CR, NUL and vertical tab. */
  predicate IsTrimmed(b: byte)
  {
    b == 32 || b == 9 || b == 10 || b == 13 || b == 0 || b == 11
  }

  function TrimLeft(s: seq<byte>): (r: seq<byte>)
    ensures |r| <= |s| && r == s[|s| - |r|..]
    ensures forall i :: 0 <= i < |s| - |r| ==> IsTrimmed(s[i])
    ensures |r| > 0 ==> !IsTrimmed(r[0])
  {
    if |s| > 0 && IsTrimmed(s[0]) then
      var r := TrimLeft(s[1..]);
      assert forall i :: 1 <= i < |s| - |r| ==> s[i] == s[1..][i - 1];
      r
    else s
  }

  function TrimRight(s: seq<byte>): (r: seq<byte>)
    ensures |r| <= |s| && r == s[..|r|]
    ensures forall i :: |r| <= i < |s| ==> IsTrimmed(s[i])
    ensures |r| > 0 ==> !IsTrimmed(r[|r| - 1])
  {
    if |s| > 0 && IsTrimmed(s[|s| - 1]) then TrimRight(s[..|s| - 1]) else s
  }

  /** PHP's `trim`: the maximal slice with no trimmed byte at either end. */
  function Trim(s: seq<byte>): (r: seq<byte>)
  {
    TrimRight(TrimLeft(s))
  }

  lemma TrimIsSlice(s: seq<byte>)
    ensures exists i, j ::
              && 0 <= i <= j <= |s| && Trim(s) == s[i..j]
              && (forall k :: 0 <= k < i ==> IsTrimmed(s[k]))
              && (forall k :: j <= k < |s| ==> IsTrimmed(s[k]))
  {
    var l := TrimLeft(s);
    var i := |s| - |l|;
    var j := i + |TrimRight(l)|;
    assert Trim(s) == s[i..j];
  }

  lemma TrimIdempotent(s: seq<byte>)
    ensures Trim(Trim(s)) == Trim(s)
  {
    var t := Trim(s);
    if |t| > 0 {
      assert TrimLeft(t) == t;
      assert TrimRight(t) == t;
    }
  }

  /** Leading bytes that `trim` removes do not change what `TrimLeft` leaves. */
  lemma {:induction false} TrimLeftSkips(w: seq<byte>, c: seq<byte>)
    requires forall i :: 0 <= i < |w| ==> IsTrimmed(w[i])
    ensures TrimLeft(w + c) == TrimLeft(c)
  {
    if |w| > 0 {
      assert (w + c)[1..] == w[1..] + c;
      TrimLeftSkips(w[1..], c);
    } else {
      assert w + c == c;
    }
  }

  lemma {:induction false} TrimRightSkips(c: seq<byte>, w: seq<byte>)
    requires forall i :: 0 <= i < |w| ==> IsTrimmed(w[i])
    ensures TrimRight(c + w) == TrimRight(c)
    decreases |w|
  {
    if |w| > 0 {
      var w' := w[..|w| - 1];
      assert (c + w)[..|c + w| - 1] == c + w';
      TrimRightSkips(c, w');
    } else {
      assert c + w == c;
    }
  }

  lemma {:induction false} TrimLeftAppend(c: seq<byte>, w: seq<byte>)
    requires |TrimLeft(c)| > 0
    ensures TrimLeft(c + w) == TrimLeft(c) + w
  {
    if IsTrimmed(c[0]) {
      assert (c + w)[1..] == c[1..] + w;
      TrimLeftAppend(c[1..], w);
    }
  }

  /** `trim` ignores any padding of trimmed bytes around a text. */
  lemma TrimPadding(w1: seq<byte>, c: seq<byte>, w2: seq<byte>)
    requires forall i :: 0 <= i < |w1| ==> IsTrimmed(w1[i])
    requires forall i :: 0 <= i < |w2| ==> IsTrimmed(w2[i])
    ensures Trim(w1 + c + w2) == Trim(c)
  {
    assert w1 + c + w2 == w1 + (c + w2);
    TrimLeftSkips(w1, c + w2);
    if |TrimLeft(c)| > 0 {
      TrimLeftAppend(c, w2);
      TrimRightSkips(TrimLeft(c), w2);
    } else {
      TrimLeftSkips(c, w2);
      TrimLeftSkips(w2, []);
      assert w2 + [] == w2;
    }
  }

  function DigitChar(d: nat): (c: char)
    requires d < 10
    ensures '0' <= c <= '9' && c as int - '0' as int == d
  {
    ('0' as int + d) as char
  }

  /** The decimal text PHP renders for a non-negative integer. */
  function Decimal(n: nat): (s: string)
    ensures |s| >= 1
    ensures forall i :: 0 <= i < |s| ==> '0' <= s[i] <= '9'
    ensures |s| > 1 ==> s[0] != '0'
  {
    if n < 10 then [DigitChar(n)] else Decimal(n / 10) + [DigitChar(n % 10)]
  }

  /** Reads back a string of decimal digits. */
  function DecimalValue(s: string): nat
    requires forall i :: 0 <= i < |s| ==> '0' <= s[i] <= '9'
  {
    if |s| == 0 then 0
    else DecimalValue(s[..|s| - 1]) * 10 + (s[|s| - 1] as int - '0' as int)
  }

  /** The rendering is exact: the digits read back as the same number. */
  lemma {:induction false} DecimalRoundTrip(n: nat)
    ensures DecimalValue(Decimal(n)) == n
  {
    var s := Decimal(n);
    if n < 10 {
      assert s[..|s| - 1] == [];
    } else {
      DecimalRoundTrip(n / 10);
      assert s[..|s| - 1] == Decimal(n / 10);
      assert s[|s| - 1] == DigitChar(n % 10);
    }
  }
}
