/** Percent coding of UTF-16 text: the functions behind lib_js/querystring.js.
    Text is a list of UTF-16 code units, bytes are integers below 256. */
module PercentText {
  import opened Options
  import opened Slices

  predicate Units(s: seq<int>) { forall i | 0 <= i < |s| :: 0 <= s[i] < 0x10000 }

  // ---- hex digits -------------------------------------------------------------------

  /** unhexTable, with -1 for everything that is not a hex digit. */
  function Unhex(c: int): int {
    if 48 <= c <= 57 then c - 48 else if 65 <= c <= 70 then c - 55 else if 97 <= c <= 102 then c - 87 else -1
  }

  function HexUpper(d: int): int { if d < 10 then 48 + d else 55 + d }

  /** hexTable[b]: `%HH` in upper case. */
  function Escape1(b: int): seq<int> { [37, HexUpper(b / 16), HexUpper(b % 16)] }

  lemma UnhexHex(b: int)
    requires 0 <= b < 256
    ensures 16 * Unhex(HexUpper(b / 16)) + Unhex(HexUpper(b % 16)) == b
    ensures Unhex(HexUpper(b / 16)) >= 0 && Unhex(HexUpper(b % 16)) >= 0
  {}

  // ---- section 3 of RFC 3629 ------------------------------------------------------------

  /** The UTF-8 bytes of a code point. */
  function Utf8(v: int): seq<int> {
    if v < 0x80 then [v]
    else if v < 0x800 then [0xC0 + v / 64, 0x80 + v % 64]
    else if v < 0x10000 then [0xE0 + v / 4096, 0x80 + v / 64 % 64, 0x80 + v % 64]
    else [0xF0 + v / 262144, 0x80 + v / 4096 % 64, 0x80 + v / 64 % 64, 0x80 + v % 64]
  }

  predicate Surrogate(c: int) { 0xD800 <= c < 0xE000 }

  predicate High(c: int) { 0xD800 <= c < 0xDC00 }

  predicate Low(c: int) { 0xDC00 <= c < 0xE000 }

  /** The code point of two units that stand for one; only the low ten bits of
      each count. */
  function Paired(c: int, d: int): int { 0x10000 + c % 0x400 * 0x400 + d % 0x400 }

  /** How many units the first character takes, and its code point. */
  function Width(s: seq<int>): (n: int)
    requires s != []
    ensures 1 <= n <= |s|
  {
    if Surrogate(s[0]) && |s| > 1 then 2 else 1
  }

  function Point(s: seq<int>): int
    requires s != []
  {
    if Surrogate(s[0]) && |s| > 1 then Paired(s[0], s[1]) else s[0]
  }

  predicate WellFormed(s: seq<int>)
    decreases |s|
  {
    s == [] || (
      && 0 <= s[0] < 0x10000
      && (Surrogate(s[0]) ==> |s| > 1 && High(s[0]) && Low(s[1]))
      && WellFormed(Rest(s, Width(s))))
  }

  function Encoded(s: seq<int>): seq<int>
    decreases |s|
  {
    if s == [] then [] else Utf8(Point(s)) + Encoded(Rest(s, Width(s)))
  }

  // ---- QueryString.escape --------------------------------------------------------------------

  /** Characters that stay as they are: ! ' ( ) * - . _ ~, digits and letters. */
  predicate NoEscape(c: int) {
    c == 33 || 39 <= c <= 42 || c == 45 || c == 46 || 48 <= c <= 57 || 65 <= c <= 90 || c == 95 || 97 <= c <= 122
        || c == 126
  }

  function EscapeBytes(bytes: seq<int>): (r: seq<int>)
    ensures |r| == 3 * |bytes|
  {
    seq(3 * |bytes|, i requires 0 <= i < 3 * |bytes| => Escape1(bytes[i / 3])[i % 3])
  }

  function EscapePoint(v: int): seq<int> { if NoEscape(v) then [v] else EscapeBytes(Utf8(v)) }

  function Prefixed(a: seq<int>, o: Option<seq<int>>): Option<seq<int>> {
    match o
    case None => None
    case Some(b) => Some(a + b)
  }

  /** One character at a time; a surrogate at the very end is ERR_INVALID_URI. */
  function Escaped(s: seq<int>): Option<seq<int>>
    decreases |s|
  {
    if s == [] then Some([])
    else if Surrogate(s[0]) && |s| == 1 then None
    else Prefixed(EscapePoint(Point(s)), Escaped(Rest(s, Width(s))))
  }

  // ---- unescapeBuffer ------------------------------------------------------------------------

  predicate Triple(s: seq<int>) { |s| >= 3 && s[0] == 37 && Unhex(s[1]) >= 0 && Unhex(s[2]) >= 0 }

  /** What unescapeBuffer makes of the front of s: how many units it reads, and
      the bytes it writes. After a "%" that starts no escape, the units it has
      looked at are copied without being looked at again. */
  function Taken(s: seq<int>): (n: int)
    requires s != []
    ensures 1 <= n <= |s|
  {
    if s[0] != 37 || |s| < 3 then 1 else if Unhex(s[1]) < 0 then 2 else 3
  }

  function Written(s: seq<int>, spaces: bool): (r: seq<int>)
    requires s != []
    ensures |r| == if Triple(s) then 1 else Taken(s)
  {
    if spaces && s[0] == 43 then [32]
    else if s[0] != 37 || |s| < 3 then [s[0] % 256]
    else if Unhex(s[1]) < 0 then [37, s[1] % 256]
    else if Unhex(s[2]) < 0 then [37, s[1] % 256, s[2] % 256]
    else [16 * Unhex(s[1]) + Unhex(s[2])]
  }

  function Unescaped(s: seq<int>, spaces: bool): seq<int>
    decreases |s|
  {
    if s == [] then [] else Written(s, spaces) + Unescaped(Rest(s, Taken(s)), spaces)
  }

  // ---- decodeURIComponent, section 15.1.3 of ECMA-262 edition 5.1 ------------------------------

  /** The byte of the escape at position k. */
  function Octet(s: seq<int>, k: int): Option<int>
    requires 0 <= k
  {
    if k + 2 < |s| && s[k] == 37 && Unhex(s[k + 1]) >= 0 && Unhex(s[k + 2]) >= 0
    then Some(16 * Unhex(s[k + 1]) + Unhex(s[k + 2])) else None
  }

  /** A continuation byte's six bits. */
  function Tail(s: seq<int>, k: int): Option<int>
    requires 0 <= k
  {
    match Octet(s, k)
    case None => None
    case Some(b) => if 0x80 <= b < 0xC0 then Some(b - 0x80) else None
  }

  /** A code point as units. */
  function FromPoint(v: int): seq<int> {
    if v < 0x10000 then [v] else [0xD800 + (v - 0x10000) / 0x400, 0xDC00 + (v - 0x10000) % 0x400]
  }

  /** The character at the front: the units read, and its code point. */
  function Front(s: seq<int>): (r: Option<(int, int)>)
    requires s != []
    ensures r.Some? ==> 1 <= r.value.0 <= |s|
  {
    if s[0] != 37 then Some((1, s[0]))
    else
      match Octet(s, 0)
      case None => None
      case Some(b) =>
        if b < 0x80 then Some((3, b))
        else if 0xC2 <= b < 0xE0 then
          (match Tail(s, 3) case None => None case Some(x) => Some((6, (b - 0xC0) * 64 + x)))
        else if 0xE0 <= b < 0xF0 then
          (match Tail(s, 3)
           case None => None
           case Some(x) =>
             match Tail(s, 6)
             case None => None
             case Some(y) =>
               var v := (b - 0xE0) * 4096 + x * 64 + y;
               if v < 0x800 || Surrogate(v) then None else Some((9, v)))
        else if 0xF0 <= b < 0xF5 then
          (match Tail(s, 3)
           case None => None
           case Some(x) =>
             match Tail(s, 6)
             case None => None
             case Some(y) =>
               match Tail(s, 9)
               case None => None
               case Some(z) =>
                 var v := (b - 0xF0) * 262144 + x * 4096 + y * 64 + z;
                 if v < 0x10000 || v > 0x10FFFF then None else Some((12, v)))
        else None
  }

  /** None is a URIError. */
  function DecodeUri(s: seq<int>): Option<seq<int>>
    decreases |s|
  {
    if s == [] then Some([])
    else
      match Front(s)
      case None => None
      case Some(f) => Prefixed(FromPoint(f.1), DecodeUri(Rest(s, f.0)))
  }
}
