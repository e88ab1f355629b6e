/** Percent-encoding of URI components as JavaScript's `encodeURIComponent`
    performs it (section 2.1 of RFC 3986: each octet of the UTF-8 form of a
    character outside the unreserved set is written `%XY` with upper-case
    hexadecimal digits), its inverse `decodeURIComponent`, the `split`/`join`
    pair on a separator character, and the `toUrl` helper that four screens
    copy: trim, pass absolute URLs through, otherwise strip leading slashes,
    encode each path segment and prefix a base. */
module Uri {
  import opened Common
  import opened Strings

  /** The characters `encodeURIComponent` leaves as they are. */
  predicate Unreserved(c: char) {
    ('A' <= c <= 'Z') || ('a' <= c <= 'z') || ('0' <= c <= '9') ||
    c == '-' || c == '_' || c == '.' || c == '!' || c == '~' || c == '*' ||
    c == '\'' || c == '(' || c == ')'
  }

  const HexDigits: string := "0123456789ABCDEF"

  function HexDigit(n: int): (c: char)
    requires 0 <= n < 16
    ensures Unreserved(c) && c != '%'
  {
    HexDigits[n]
  }

  /** The value of a hexadecimal digit of either case, as `decodeURIComponent`
      reads it. */
  function HexValue(c: char): (r: Option<int>)
    ensures r.Some? ==> 0 <= r.value < 16
  {
    if '0' <= c <= '9' then Some(c as int - '0' as int)
    else if 'A' <= c <= 'F' then Some(c as int - 'A' as int + 10)
    else if 'a' <= c <= 'f' then Some(c as int - 'a' as int + 10)
    else None
  }

  lemma HexValueOfDigit(n: int)
    requires 0 <= n < 16
    ensures HexValue(HexDigit(n)) == Some(n)
  {
  }

  predicate IsByte(b: int) { 0 <= b < 256 }

  /** The UTF-8 octets of one Unicode scalar value. */
  function Utf8(c: char): (bs: seq<int>)
    ensures 1 <= |bs| <= 4
    ensures forall i :: 0 <= i < |bs| ==> IsByte(bs[i])
  {
    var cp := c as int;
    if cp < 0x80 then [cp]
    else if cp < 0x800 then [0xC0 + cp / 64, 0x80 + cp % 64]
    else if cp < 0x10000 then [0xE0 + cp / 4096, 0x80 + (cp / 64) % 64, 0x80 + cp % 64]
    else [0xF0 + cp / 262144, 0x80 + (cp / 4096) % 64, 0x80 + (cp / 64) % 64, 0x80 + cp % 64]
  }

  function PercentByte(b: int): (s: string)
    requires IsByte(b)
    ensures |s| == 3 && s[0] == '%'
  {
    ['%', HexDigit(b / 16), HexDigit(b % 16)]
  }

  function PercentBytes(bs: seq<int>): (s: string)
    requires forall i :: 0 <= i < |bs| ==> IsByte(bs[i])
    ensures |s| == 3 * |bs|
  {
    if bs == [] then [] else PercentByte(bs[0]) + PercentBytes(bs[1..])
  }

  function EncodeChar(c: char): string {
    if Unreserved(c) then [c] else PercentBytes(Utf8(c))
  }

  /** `encodeURIComponent`. */
  function Encode(s: string): (r: string)
    ensures |r| >= |s|
  {
    if s == [] then [] else EncodeChar(s[0]) + Encode(s[1..])
  }

  predicate EncodedAlphabet(s: string) {
    forall i :: 0 <= i < |s| ==> Unreserved(s[i]) || s[i] == '%'
  }

  lemma {:induction false} PercentBytesAlphabet(bs: seq<int>)
    requires forall i :: 0 <= i < |bs| ==> IsByte(bs[i])
    ensures EncodedAlphabet(PercentBytes(bs))
  {
    if bs != [] {
      PercentBytesAlphabet(bs[1..]);
    }
  }

  /** Every character `encodeURIComponent` emits is unreserved or '%'; in
      particular it never emits the path separator '/'. */
  lemma {:induction false} EncodeAlphabet(s: string)
    ensures EncodedAlphabet(Encode(s))
    ensures '/' !in Encode(s)
  {
    if s != [] {
      EncodeAlphabet(s[1..]);
      if !Unreserved(s[0]) {
        PercentBytesAlphabet(Utf8(s[0]));
      }
      assert EncodedAlphabet(EncodeChar(s[0]));
    }
    assert forall i :: 0 <= i < |Encode(s)| ==> Encode(s)[i] != '/';
  }

  /** Unreserved text is left unchanged by the encoder. */
  lemma {:induction false} EncodeUnreserved(s: string)
    requires forall i :: 0 <= i < |s| ==> Unreserved(s[i])
    ensures Encode(s) == s
  {
    if s != [] {
      EncodeUnreserved(s[1..]);
    }
  }

  // ---------------------------------------------------------------------
  // decodeURIComponent

  /** The octet written `%XY` at position `k` of `s`. */
  function ByteAt(s: string, k: nat): (r: Option<int>)
    ensures r.Some? ==> IsByte(r.value)
  {
    if k + 3 <= |s| && s[k] == '%' then
      match (HexValue(s[k + 1]), HexValue(s[k + 2]))
      case (Some(h), Some(l)) => Some(16 * h + l)
      case _ => None
    else None
  }

  /** The `n` octets written as `%XY` groups at the start of `s`. */
  function Bytes(s: string, n: nat): (r: Option<seq<int>>)
    ensures r.Some? ==> |r.value| == n && forall i :: 0 <= i < n ==> IsByte(r.value[i])
  {
    if n == 0 then Some([])
    else match ByteAt(s, 0)
      case None => None
      case Some(b) =>
        if |s| < 3 then None
        else match Bytes(s[3..], n - 1)
          case None => None
          case Some(bs) => Some([b] + bs)
  }

  /** How many octets a UTF-8 sequence with this leading octet has; 0 for an
      octet that cannot lead one. */
  function SequenceLength(lead: int): nat {
    if lead < 0x80 then 1
    else if 0xC2 <= lead < 0xE0 then 2
    else if 0xE0 <= lead < 0xF0 then 3
    else if 0xF0 <= lead < 0xF5 then 4
    else 0
  }

  predicate IsContinuation(b: int) { 0x80 <= b < 0xC0 }

  predicate IsScalar(cp: int) { (0 <= cp < 0xD800) || (0xE000 <= cp < 0x110000) }

  /** The code point a well-formed UTF-8 sequence stands for, or None for an
      overlong form, a surrogate or a malformed sequence. */
  function DecodeUtf8(bs: seq<int>): Option<char> {
    if |bs| == 1 && 0 <= bs[0] < 0x80 then Some(bs[0] as char)
    else if |bs| == 2 && 0xC2 <= bs[0] < 0xE0 && IsContinuation(bs[1]) then
      Some(((bs[0] - 0xC0) * 64 + (bs[1] - 0x80)) as char)
    else if |bs| == 3 && 0xE0 <= bs[0] < 0xF0 && IsContinuation(bs[1]) && IsContinuation(bs[2]) then
      var cp := (bs[0] - 0xE0) * 4096 + (bs[1] - 0x80) * 64 + (bs[2] - 0x80);
      if 0x800 <= cp && IsScalar(cp) then Some(cp as char) else None
    else if |bs| == 4 && 0xF0 <= bs[0] < 0xF5 && IsContinuation(bs[1]) && IsContinuation(bs[2]) &&
            IsContinuation(bs[3]) then
      var cp := (bs[0] - 0xF0) * 262144 + (bs[1] - 0x80) * 4096 + (bs[2] - 0x80) * 64 + (bs[3] - 0x80);
      if 0x10000 <= cp < 0x110000 then Some(cp as char) else None
    else None
  }

  function Cons(c: char, r: Option<string>): Option<string> {
    match r
    case Some(s) => Some([c] + s)
    case None => None
  }

  /** `decodeURIComponent`; None where it throws a URIError. */
  function Decode(s: string): Option<string>
    decreases |s|
  {
    if s == [] then Some([])
    else if s[0] != '%' then Cons(s[0], Decode(s[1..]))
    else match ByteAt(s, 0)
      case None => None
      case Some(lead) =>
        var n := SequenceLength(lead);
        if n == 0 || |s| < 3 * n then None
        else match Bytes(s, n)
          case None => None
          case Some(bs) =>
            match DecodeUtf8(bs)
            case None => None
            case Some(c) => Cons(c, Decode(s[3 * n..]))
  }

  lemma AppendAssoc<T>(a: seq<T>, b: seq<T>, c: seq<T>)
    ensures (a + b) + c == a + (b + c)
  {
  }

  lemma PercentByteValue(b: int, rest: string)
    requires IsByte(b)
    ensures ByteAt(PercentByte(b) + rest, 0) == Some(b)
  {
    var hi, lo := b / 16, b % 16;
    var s := PercentByte(b) + rest;
    assert s[0] == '%' && s[1] == HexDigit(hi) && s[2] == HexDigit(lo);
    HexValueOfDigit(hi);
    HexValueOfDigit(lo);
    assert 16 * hi + lo == b;
  }

  /** The first percent group of `PercentBytes(bs) + rest` is the first
      octet's, and what follows it is the rest of the octets and the text. */
  lemma PercentBytesHead(bs: seq<int>, rest: string)
    requires 1 <= |bs| && forall i :: 0 <= i < |bs| ==> IsByte(bs[i])
    ensures var s := PercentBytes(bs) + rest;
      3 <= |s| && s[0] == '%' && ByteAt(s, 0) == Some(bs[0]) && s[3..] == PercentBytes(bs[1..]) + rest
  {
    var head := PercentByte(bs[0]);
    var tail := PercentBytes(bs[1..]) + rest;
    var p := PercentBytes(bs);
    assert p == head + PercentBytes(bs[1..]);
    AppendAssoc(head, PercentBytes(bs[1..]), rest);
    PercentByteValue(bs[0], tail);
    assert (head + tail)[3..] == tail;
  }

  lemma {:induction false} BytesOfPercentBytes(bs: seq<int>, rest: string)
    requires forall i :: 0 <= i < |bs| ==> IsByte(bs[i])
    ensures Bytes(PercentBytes(bs) + rest, |bs|) == Some(bs)
  {
    if bs != [] {
      PercentBytesHead(bs, rest);
      BytesOfPercentBytes(bs[1..], rest);
      assert [bs[0]] + bs[1..] == bs;
    }
  }

  lemma Utf8Two(cp: int)
    requires 0x80 <= cp < 0x800
    ensures var bs := [0xC0 + cp / 64, 0x80 + cp % 64];
      SequenceLength(bs[0]) == 2 && IsContinuation(bs[1]) && (bs[0] - 0xC0) * 64 + (bs[1] - 0x80) == cp
  {
  }

  lemma Utf8Three(cp: int)
    requires 0x800 <= cp < 0x10000
    ensures var bs := [0xE0 + cp / 4096, 0x80 + (cp / 64) % 64, 0x80 + cp % 64];
      SequenceLength(bs[0]) == 3 && IsContinuation(bs[1]) && IsContinuation(bs[2]) &&
      (bs[0] - 0xE0) * 4096 + (bs[1] - 0x80) * 64 + (bs[2] - 0x80) == cp
  {
    assert cp / 64 == (cp / 4096) * 64 + (cp / 64) % 64;
  }

  lemma Utf8Four(cp: int)
    requires 0x10000 <= cp < 0x110000
    ensures var bs := [0xF0 + cp / 262144, 0x80 + (cp / 4096) % 64, 0x80 + (cp / 64) % 64, 0x80 + cp % 64];
      SequenceLength(bs[0]) == 4 && IsContinuation(bs[1]) && IsContinuation(bs[2]) && IsContinuation(bs[3]) &&
      (bs[0] - 0xF0) * 262144 + (bs[1] - 0x80) * 4096 + (bs[2] - 0x80) * 64 + (bs[3] - 0x80) == cp
  {
    assert cp / 64 == (cp / 4096) * 64 + (cp / 64) % 64;
    assert cp / 4096 == (cp / 262144) * 64 + (cp / 4096) % 64;
  }

  lemma Utf8RoundTrip(c: char)
    ensures SequenceLength(Utf8(c)[0]) == |Utf8(c)|
    ensures DecodeUtf8(Utf8(c)) == Some(c)
  {
    var cp := c as int;
    if cp < 0x80 {
    } else if cp < 0x800 {
      Utf8Two(cp);
    } else if cp < 0x10000 {
      Utf8Three(cp);
    } else {
      Utf8Four(cp);
    }
  }

  /** One step of the decoder over a well-formed percent-encoded sequence. */
  lemma DecodeStep(s: string, bs: seq<int>, c: char)
    requires 1 <= |bs| && 3 * |bs| <= |s| && s[0] == '%'
    requires ByteAt(s, 0) == Some(bs[0]) && SequenceLength(bs[0]) == |bs|
    requires Bytes(s, |bs|) == Some(bs) && DecodeUtf8(bs) == Some(c)
    ensures Decode(s) == Cons(c, Decode(s[3 * |bs|..]))
  {
  }

  /** The percent-encoded form of octets, followed by more text, begins
      with those octets and leaves the text after them. */
  lemma PercentBytesShape(bs: seq<int>, rest: string)
    requires 1 <= |bs| && forall i :: 0 <= i < |bs| ==> IsByte(bs[i])
    ensures var s := PercentBytes(bs) + rest;
      3 * |bs| <= |s| && s[0] == '%' && ByteAt(s, 0) == Some(bs[0]) &&
      Bytes(s, |bs|) == Some(bs) && s[3 * |bs|..] == rest
  {
    PercentBytesHead(bs, rest);
    BytesOfPercentBytes(bs, rest);
    var p := PercentBytes(bs);
    assert (p + rest)[|p|..] == rest;
  }

  /** Percent-encoded octets of a well-formed sequence decode to the one
      character they stand for. */
  lemma DecodePercentBytes(bs: seq<int>, c: char, rest: string)
    requires 1 <= |bs| && forall i :: 0 <= i < |bs| ==> IsByte(bs[i])
    requires SequenceLength(bs[0]) == |bs| && DecodeUtf8(bs) == Some(c)
    ensures Decode(PercentBytes(bs) + rest) == Cons(c, Decode(rest))
  {
    PercentBytesShape(bs, rest);
    DecodeStep(PercentBytes(bs) + rest, bs, c);
  }

  /** Decoding the encoding of one character gives that character back and
      leaves the rest of the text to decode. */
  lemma DecodeEncodeChar(c: char, rest: string)
    ensures Decode(EncodeChar(c) + rest) == Cons(c, Decode(rest))
  {
    if !Unreserved(c) {
      Utf8RoundTrip(c);
      DecodePercentBytes(Utf8(c), c, rest);
    } else {
      assert (EncodeChar(c) + rest)[1..] == rest;
    }
  }

  /** `decodeURIComponent(encodeURIComponent(s)) === s`. */
  lemma {:induction false} DecodeEncode(s: string)
    ensures Decode(Encode(s)) == Some(s)
  {
    if s != [] {
      DecodeEncodeChar(s[0], Encode(s[1..]));
      DecodeEncode(s[1..]);
      assert [s[0]] + s[1..] == s;
    }
  }

  // ---------------------------------------------------------------------
  // split and join

  /** `s.split(sep)`: never empty; "" splits into [""]. */
  function Split(s: string, sep: char): (r: seq<string>)
    ensures |r| >= 1
  {
    if s == [] then [[]]
    else if s[0] == sep then [[]] + Split(s[1..], sep)
    else var t := Split(s[1..], sep); [[s[0]] + t[0]] + t[1..]
  }

  /** `xs.join(sep)`. */
  function Join(xs: seq<string>, sep: char): string {
    if |xs| == 0 then []
    else if |xs| == 1 then xs[0]
    else xs[0] + [sep] + Join(xs[1..], sep)
  }

  lemma {:induction false} SplitPieces(s: string, sep: char)
    ensures forall k :: 0 <= k < |Split(s, sep)| ==> sep !in Split(s, sep)[k]
  {
    if s != [] {
      SplitPieces(s[1..], sep);
    }
  }

  /** Joining the pieces of a split restores the text. */
  lemma {:induction false} JoinSplit(s: string, sep: char)
    ensures Join(Split(s, sep), sep) == s
  {
    if s != [] {
      JoinSplit(s[1..], sep);
      var t := Split(s[1..], sep);
      if s[0] == sep {
        assert Split(s, sep)[1..] == t;
      } else if |t| == 1 {
        assert Join(Split(s, sep), sep) == [s[0]] + t[0];
      } else {
        var u := Split(s, sep);
        assert u[1..] == t[1..];
        assert Join(u, sep) == [s[0]] + (t[0] + [sep] + Join(t[1..], sep));
      }
    }
  }

  lemma {:induction false} SplitPrepend(c: char, s: string, sep: char)
    requires c != sep
    ensures var t := Split(s, sep); Split([c] + s, sep) == [[c] + t[0]] + t[1..]
  {
    assert ([c] + s)[1..] == s;
  }

  lemma {:induction false} SplitAppendPiece(x: string, rest: string, sep: char)
    requires sep !in x
    ensures var t := Split(rest, sep);
      Split(x + rest, sep) == [x + t[0]] + t[1..]
    decreases |x|
  {
    if x == [] {
      assert x + rest == rest;
      var t := Split(rest, sep);
      assert t == [t[0]] + t[1..];
      assert x + t[0] == t[0];
    } else {
      assert x + rest == [x[0]] + (x[1..] + rest);
      SplitAppendPiece(x[1..], rest, sep);
      SplitPrepend(x[0], x[1..] + rest, sep);
      assert [x[0]] + (x[1..] + Split(rest, sep)[0]) == x + Split(rest, sep)[0];
    }
  }

  /** Splitting a join of separator-free pieces gives the pieces back. */
  lemma {:induction false} SplitJoin(xs: seq<string>, sep: char)
    requires |xs| >= 1
    requires forall k :: 0 <= k < |xs| ==> sep !in xs[k]
    ensures Split(Join(xs, sep), sep) == xs
  {
    if |xs| == 1 {
      SplitAppendPiece(xs[0], [], sep);
      assert xs[0] + [] == xs[0];
    } else {
      SplitJoin(xs[1..], sep);
      var rest := [sep] + Join(xs[1..], sep);
      assert Join(xs, sep) == xs[0] + rest;
      SplitAppendPiece(xs[0], rest, sep);
      assert rest[0] == sep && rest[1..] == Join(xs[1..], sep);
      assert Split(rest, sep) == [[]] + xs[1..];
      assert xs[0] + [] == xs[0];
    }
  }

  // ---------------------------------------------------------------------
  // toUrl

  function EncodeAll(parts: seq<string>): (r: seq<string>)
    ensures |r| == |parts|
    ensures forall k :: 0 <= k < |r| ==> r[k] == Encode(parts[k])
  {
    if parts == [] then [] else [Encode(parts[0])] + EncodeAll(parts[1..])
  }

  /** Decodes each piece; None when any piece does not decode. */
  function DecodeAll(parts: seq<string>): Option<seq<string>> {
    if parts == [] then Some([])
    else match (Decode(parts[0]), DecodeAll(parts[1..]))
      case (Some(p), Some(ps)) => Some([p] + ps)
      case _ => None
  }

  lemma {:induction false} DecodeAllEncodeAll(parts: seq<string>)
    ensures DecodeAll(EncodeAll(parts)) == Some(parts)
  {
    if parts != [] {
      DecodeEncode(parts[0]);
      DecodeAllEncodeAll(parts[1..]);
      assert EncodeAll(parts)[1..] == EncodeAll(parts[1..]);
      assert [parts[0]] + parts[1..] == parts;
    }
  }

  /** `v.replace(/^\/+/, '')` */
  function StripLeadingSlashes(v: string): (r: string)
    ensures |r| <= |v| && r == v[|v| - |r|..]
    ensures r == [] || r[0] != '/'
    ensures forall i :: 0 <= i < |v| - |r| ==> v[i] == '/'
  {
    if v != [] && v[0] == '/' then StripLeadingSlashes(v[1..]) else v
  }

  predicate IsAbsolute(v: string) {
    StartsWith(v, "http://") || StartsWith(v, "https://")
  }

  /** The path a relative URL built from `base` stands for: the text after
      the base, split on '/', each segment decoded, joined back with '/'. */
  function PathOf(base: string, url: string): Option<string> {
    if !StartsWith(url, base) then None
    else match DecodeAll(Split(url[|base|..], '/'))
      case Some(parts) => Some(Join(parts, '/'))
      case None => None
  }

  lemma EncodedPieces(parts: seq<string>)
    ensures forall k :: 0 <= k < |EncodeAll(parts)| ==> '/' !in EncodeAll(parts)[k]
  {
    forall k | 0 <= k < |parts| ensures '/' !in EncodeAll(parts)[k] {
      EncodeAlphabet(parts[k]);
    }
  }

  /** `toUrl(base, value)` for `value` given as text (`String(value ?? '')`).
      Blank text gives ''; an absolute http(s) URL comes back trimmed; any
      other text gives `base` followed by its path, from which the path with
      its leading slashes removed can be recovered exactly. */
  function ToUrl(base: string, value: string): (r: string)
    ensures Trim(value) == [] ==> r == []
    ensures Trim(value) != [] && IsAbsolute(Trim(value)) ==> r == Trim(value)
    ensures Trim(value) != [] && !IsAbsolute(Trim(value)) ==>
      StartsWith(r, base) && PathOf(base, r) == Some(StripLeadingSlashes(Trim(value)))
  {
    var v := Trim(value);
    if v == [] then []
    else if IsAbsolute(v) then v
    else
      var clean := StripLeadingSlashes(v);
      var parts := Split(clean, '/');
      var encoded := Join(EncodeAll(parts), '/');
      var r := base + encoded;
      assert r[..|base|] == base && r[|base|..] == encoded;
      EncodedPieces(parts);
      SplitJoin(EncodeAll(parts), '/');
      DecodeAllEncodeAll(parts);
      JoinSplit(clean, '/');
      r
  }

  /** The relative form of `toUrl` puts exactly as many '/' after the base as
      the stripped path has: the separators between segments, and no more. */
  lemma RelativeSegments(base: string, value: string)
    requires Trim(value) != [] && !IsAbsolute(Trim(value))
    ensures var clean := StripLeadingSlashes(Trim(value));
      Split(ToUrl(base, value)[|base|..], '/') == EncodeAll(Split(clean, '/'))
  {
    var clean := StripLeadingSlashes(Trim(value));
    var parts := Split(clean, '/');
    EncodedPieces(parts);
    SplitJoin(EncodeAll(parts), '/');
    assert ToUrl(base, value)[|base|..] == Join(EncodeAll(parts), '/');
  }
}
