/**
 * The few pieces of Python's built-in string and bytes behaviour that the
 * ledger relies on: `"0" * n`, `str.startswith`, the slice `s[-n:]`,
 * `bytes.fromhex` (and its inverse `bytes.hex`) and `str.strip()`.
 */
module PyBuiltins {

  newtype byte = x: int | 0 <= x < 256

  function Max(a: int, b: int): int { if a >= b then a else b }

  function Min(a: int, b: int): int { if a <= b then a else b }

  /** `c * n` for a one-character string `c`; Python gives "" for n <= 0. */
  function Repeat(c: char, n: int): (r: string)
    ensures |r| == Max(n, 0)
    ensures forall i :: 0 <= i < |r| ==> r[i] == c
  {
    seq(Max(n, 0), _ => c)
  }

  /** `s.startswith(prefix)` */
  predicate StartsWith(s: string, prefix: string)
    ensures StartsWith(s, prefix) <==> |prefix| <= |s| && forall i :: 0 <= i < |prefix| ==> s[i] == prefix[i]
  {
    |prefix| <= |s| && s[..|prefix|] == prefix
  }

  /** `s[-n:]` for n > 0: the last n characters, or all of s when it is shorter. */
  function TakeLast(s: string, n: nat): (r: string)
    requires n > 0
    ensures |r| == Min(n, |s|)
    ensures s == s[..|s| - |r|] + r
  {
    if |s| <= n then s else s[|s| - n..]
  }

  // ---------------------------------------------------------------------
  // bytes.fromhex / bytes.hex
  // ---------------------------------------------------------------------

  /** The ASCII whitespace that `bytes.fromhex` skips between byte pairs. */
  predicate IsAsciiSpace(c: char) {
    c == ' ' || 9 <= c as int <= 13
  }

  /** The value of one hexadecimal digit, either case; None for anything else. */
  function HexDigitValue(c: char): (r: Option<nat>)
    ensures r.Some? ==> r.value < 16
  {
    if '0' <= c <= '9' then Some(c as int - '0' as int)
    else if 'a' <= c <= 'f' then Some(c as int - 'a' as int + 10)
    else if 'A' <= c <= 'F' then Some(c as int - 'A' as int + 10)
    else None
  }

  /**
   * `bytes.fromhex(s)`: whitespace may separate byte pairs, each pair is two
   * hex digits of either case; anything else (an odd digit count, whitespace
   * inside a pair, a non-hex or non-ASCII character) raises ValueError, which
   * is None here.
   */
  function FromHex(s: string): (r: Option<seq<byte>>)
    ensures r.Some? ==> 2 * |r.value| <= |s|
    decreases |s|
  {
    if |s| == 0 then Some([])
    else if IsAsciiSpace(s[0]) then FromHex(s[1..])
    else if |s| < 2 || HexDigitValue(s[0]).None? || HexDigitValue(s[1]).None? then None
    else
      match FromHex(s[2..])
      case None => None
      case Some(rest) =>
        Some([(16 * HexDigitValue(s[0]).value + HexDigitValue(s[1]).value) as byte] + rest)
  }

  function LowerHexDigit(d: nat): (c: char)
    requires d < 16
    ensures HexDigitValue(c) == Some(d) && !IsAsciiSpace(c)
  {
    if d < 10 then ('0' as int + d) as char else ('a' as int + d - 10) as char
  }

  /** `bytes.hex()`: two lower-case hex digits per byte. */
  function ToHex(bs: seq<byte>): (s: string)
    ensures |s| == 2 * |bs|
  {
    if bs == [] then []
    else [LowerHexDigit(bs[0] as int / 16), LowerHexDigit(bs[0] as int % 16)] + ToHex(bs[1..])
  }

  /** `bytes.fromhex(b.hex()) == b` for every byte string. */
  lemma {:induction false} FromHexToHex(bs: seq<byte>)
    ensures FromHex(ToHex(bs)) == Some(bs)
  {
    if bs != [] {
      var s := ToHex(bs);
      FromHexToHex(bs[1..]);
      assert s[2..] == ToHex(bs[1..]);
      var hi, lo := bs[0] as int / 16, bs[0] as int % 16;
      assert HexDigitValue(s[0]) == Some(hi) && HexDigitValue(s[1]) == Some(lo);
      assert (16 * hi + lo) as byte == bs[0];
      assert [bs[0]] + bs[1..] == bs;
    }
  }

  /** Leading ASCII whitespace never changes what `bytes.fromhex` decodes. */
  lemma {:induction false} FromHexSkipsLeadingSpace(ws: string, s: string)
    requires forall i :: 0 <= i < |ws| ==> IsAsciiSpace(ws[i])
    ensures FromHex(ws + s) == FromHex(s)
  {
    if ws != [] {
      var w := ws + s;
      assert w[0] == ws[0] && IsAsciiSpace(w[0]);
      assert w[1..] == ws[1..] + s;
      assert FromHex(w) == FromHex(w[1..]);
      FromHexSkipsLeadingSpace(ws[1..], s);
    } else {
      assert ws + s == s;
    }
  }

  // ---------------------------------------------------------------------
  // str.strip()
  // ---------------------------------------------------------------------

  /** The characters for which Python's `str.isspace()` is true. */
  predicate IsWhitespace(c: char) {
    var k := c as int;
    (9 <= k <= 13) || (28 <= k <= 32) || k == 0x85 || k == 0xA0 || k == 0x1680
    || (0x2000 <= k <= 0x200A) || k == 0x2028 || k == 0x2029 || k == 0x202F
    || k == 0x205F || k == 0x3000
  }

  /** `s.lstrip()`: drops the leading whitespace and nothing else. */
  function TrimStart(s: string): (r: string)
    ensures |r| <= |s| && r == s[|s| - |r|..]
    ensures forall i :: 0 <= i < |s| - |r| ==> IsWhitespace(s[i])
    ensures r != [] ==> !IsWhitespace(r[0])
  {
    if |s| > 0 && IsWhitespace(s[0]) then TrimStart(s[1..]) else s
  }

  /** `s.rstrip()`: drops the trailing whitespace and nothing else. */
  function TrimEnd(s: string): (r: string)
    ensures |r| <= |s| && r == s[..|r|]
    ensures forall i :: |r| <= i < |s| ==> IsWhitespace(s[i])
    ensures r != [] ==> !IsWhitespace(r[|r| - 1])
  {
    if |s| > 0 && IsWhitespace(s[|s| - 1]) then TrimEnd(s[..|s| - 1]) else s
  }

  /** `s.strip()` */
  function Strip(s: string): (r: string)
    ensures |r| <= |s|
    ensures r != [] ==> !IsWhitespace(r[0]) && !IsWhitespace(r[|r| - 1])
  {
    TrimEnd(TrimStart(s))
  }

  /** `s.strip()` is empty exactly when `s` is all whitespace. */
  lemma StripEmptyIffAllWhitespace(s: string)
    ensures Strip(s) == [] <==> forall k :: 0 <= k < |s| ==> IsWhitespace(s[k])
  {
    var t := TrimStart(s);
    if t != [] {
      assert t[0] == s[|s| - |t|];
      assert TrimEnd(t)[0] == t[0];
    }
  }

  lemma TrimStartKeeps(r: string)
    requires r == [] || !IsWhitespace(r[0])
    ensures TrimStart(r) == r
  {
  }

  lemma TrimEndKeeps(r: string)
    requires r == [] || !IsWhitespace(r[|r| - 1])
    ensures TrimEnd(r) == r
  {
  }

  /** Stripping twice is stripping once. */
  lemma StripIdempotent(s: string)
    ensures Strip(Strip(s)) == Strip(s)
  {
    var t := TrimStart(s);
    var r := TrimEnd(t);
    if r != [] {
      assert r[0] == t[0];
    }
    TrimStartKeeps(r);
    TrimEndKeeps(r);
  }

  datatype Option<+T> = None | Some(value: T) {
    function GetOr(default: T): T {
      match this
      case Some(v) => v
      case None => default
    }
  }
}
