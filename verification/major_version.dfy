/** The major-version test `isVNPart`. The source asks Go's formatted scanner
    to read "v%d" from the segment and accepts the segment when that read
    succeeds. The read is a PREFIX scan: a literal `v`, then the scanner skips
    spaces (a newline stops it), takes an optional `+` or `-`, and needs at
    least one ASCII decimal digit; it consumes every digit that follows and the
    signed value must fit Go's 64-bit `int`. Whatever follows the digits is
    never looked at, so `v2mod` and `v1"` pass while `gomobile-v2` does not. */
module MajorVersion {
  import opened GoStrings

  /** What the scan leaves in `v`: an error, or the number it read. */
  datatype Scan = ScanError | Scanned(value: int)

  const TwoTo63: int := 0x8000_0000_0000_0000

  predicate IsDigit(b: Byte) {
    '0' <= b <= '9'
  }

  predicate AllDigits(d: GoString) {
    forall i :: 0 <= i < |d| ==> IsDigit(d[i])
  }

  /** Byte width of a leading rune that the scanner skips as space before a
      number, or 0. These are the UTF-8 encodings of the runes of the Go
      scanner's space table: U+0009, U+000B-U+000D, U+0020, U+0085, U+00A0,
      U+1680, U+2000-U+200A, U+2028, U+2029, U+202F, U+205F, U+3000. A newline
      (U+000A) is not skipped: the scan fails there, which the caller sees as
      "no digit follows". */
  function SpaceWidth(t: GoString): (w: nat)
    ensures w <= |t|
    ensures w > 0 ==> !IsDigit(t[0]) && t[0] != '+' && t[0] != '-'
  {
    if |t| == 0 then 0
    else
      var b0 := t[0] as int;
      if b0 == 0x09 || b0 == 0x0B || b0 == 0x0C || b0 == 0x0D || b0 == 0x20 then 1
      else if |t| < 2 then 0
      else
        var b1 := t[1] as int;
        if b0 == 0xC2 && (b1 == 0x85 || b1 == 0xA0) then 2
        else if |t| < 3 then 0
        else
          var b2 := t[2] as int;
          if b0 == 0xE1 && b1 == 0x9A && b2 == 0x80 then 3
          else if b0 == 0xE2 && b1 == 0x80 && (0x80 <= b2 <= 0x8A || b2 == 0xA8 || b2 == 0xA9 || b2 == 0xAF) then 3
          else if b0 == 0xE2 && b1 == 0x81 && b2 == 0x9F then 3
          else if b0 == 0xE3 && b1 == 0x80 && b2 == 0x80 then 3
          else 0
  }

  /** The input after the scanner has skipped leading spaces. */
  function SkipSpaces(t: GoString): (u: GoString)
    ensures |u| <= |t|
    decreases |t|
  {
    var w := SpaceWidth(t);
    if w == 0 then t else SkipSpaces(t[w..])
  }

  /** The maximal run of ASCII digits at the front of `u`. */
  function LeadingDigits(u: GoString): (d: GoString)
    ensures d <= u
    ensures AllDigits(d)
    ensures |d| < |u| ==> !IsDigit(u[|d|])
    decreases |u|
  {
    if |u| > 0 && IsDigit(u[0]) then [u[0]] + LeadingDigits(u[1..]) else []
  }

  function DigitValue(b: Byte): (n: nat)
    ensures IsDigit(b) ==> n < 10
  {
    if IsDigit(b) then b as int - '0' as int else 0
  }

  /** The number a run of decimal digits denotes (only ever applied to a
      run of digits). */
  function DecimalValue(d: GoString): (n: nat)
    decreases |d|
  {
    if |d| == 0 then 0
    else 10 * DecimalValue(d[..|d| - 1]) + DigitValue(d[|d| - 1])
  }

  /** `fmt.Fscanf(strings.NewReader(s), "v%d", &v)` with a 64-bit `int`:
      the literal `v` must be the first byte, then `%d` reads the rest. */
  function ScanVersion(s: GoString): (r: Scan)
    ensures r.Scanned? ==> |s| >= 2 && s[0] == 'v'
    ensures r.Scanned? ==> exists k :: 1 <= k < |s| && IsDigit(s[k])
    ensures r.Scanned? ==> -TwoTo63 <= r.value < TwoTo63
  {
    if |s| == 0 || s[0] != 'v' then ScanError
    else
      SkippedHasDigit(s);
      ScanSigned(SkipSpaces(s[1..]))
  }

  /** The scanner only ever drops a prefix: what it leaves is a suffix. */
  lemma {:induction false} SkipSpacesSuffix(t: GoString)
    ensures SkipSpaces(t) == t[|t| - |SkipSpaces(t)|..]
    decreases |t|
  {
    var w := SpaceWidth(t);
    if w > 0 {
      var u := SkipSpaces(t[w..]);
      SkipSpacesSuffix(t[w..]);
      assert t[w..][|t| - w - |u|..] == t[|t| - |u|..];
    }
  }

  /** A number read after the `v` has a digit somewhere after the `v`. */
  lemma SkippedHasDigit(s: GoString)
    requires |s| > 0
    ensures ScanSigned(SkipSpaces(s[1..])).Scanned? ==> exists k :: 1 <= k < |s| && IsDigit(s[k])
  {
    var t := s[1..];
    var u := SkipSpaces(t);
    if ScanSigned(u).Scanned? {
      SkipSpacesSuffix(t);
      var signed := |u| > 0 && (u[0] == '+' || u[0] == '-');
      var j := if signed then 1 else 0;
      var d := LeadingDigits(if signed then u[1..] else u);
      assert |d| > 0 && IsDigit(d[0]);
      assert u[j] == d[0];
      var k := 1 + |t| - |u| + j;
      assert s[k] == u[j];
    }
  }

  /** `%d` once spaces are skipped: an optional sign, then at least one digit;
      the digits are taken greedily and the value must fit in 64 bits. */
  function ScanSigned(t: GoString): (r: Scan)
    ensures r.Scanned? ==> |t| > 0
    ensures r.Scanned? ==> -TwoTo63 <= r.value < TwoTo63
  {
    var signed := |t| > 0 && (t[0] == '+' || t[0] == '-');
    var d := LeadingDigits(if signed then t[1..] else t);
    if |d| == 0 then ScanError
    else
      var magnitude := DecimalValue(d) as int;
      var value := if signed && t[0] == '-' then -magnitude else magnitude;
      if -TwoTo63 <= value < TwoTo63 then Scanned(value) else ScanError
  }

  /** `isVNPart`: the scan succeeded. */
  predicate IsVNPart(s: GoString): (b: bool)
    ensures b ==> |s| >= 2 && s[0] == 'v'
    ensures b ==> exists k :: 1 <= k < |s| && IsDigit(s[k])
  {
    ScanVersion(s).Scanned?
  }

  /** `v` followed by nothing, or by a byte that is neither a space, a sign nor
      a digit, is not a version segment: `v`, `vx`, `v.`, `v"`. */
  lemma RejectsWithoutNumber(s: GoString)
    requires |s| >= 1 && s[0] == 'v'
    requires |s| == 1 || (SpaceWidth(s[1..]) == 0 && !IsDigit(s[1]) && s[1] != '+' && s[1] != '-')
    ensures ScanVersion(s) == ScanError
    ensures !IsVNPart(s)
  {
    var t := s[1..];
    assert SkipSpaces(t) == t;
    assert LeadingDigits(t) == [];
  }

  /** "v", a run of digits whose value fits, and anything that does not begin
      with a digit: scanned as exactly that number. In particular every `vN`
      and `vN"` segment with N below 2^63 is a version segment. */
  lemma AcceptsVersionPrefix(d: GoString, rest: GoString)
    requires |d| > 0 && AllDigits(d)
    requires DecimalValue(d) < TwoTo63
    requires |rest| == 0 || !IsDigit(rest[0])
    ensures ScanVersion(['v'] + d + rest) == Scanned(DecimalValue(d))
  {
    var t := d + rest;
    AfterLeadingByte('v', t);
    assert ['v'] + d + rest == ['v'] + t;
    NoSpaceBeforeDigit(t);
    ScanDigitsThenStop(d, rest);
  }

  /** A digit run too large for a 64-bit `int` makes the scan fail, so such
      a segment is not a version segment. */
  lemma RejectsOverflow(d: GoString, rest: GoString)
    requires |d| > 0 && AllDigits(d)
    requires DecimalValue(d) >= TwoTo63
    requires |rest| == 0 || !IsDigit(rest[0])
    ensures ScanVersion(['v'] + d + rest) == ScanError
  {
    var t := d + rest;
    AfterLeadingByte('v', t);
    assert ['v'] + d + rest == ['v'] + t;
    NoSpaceBeforeDigit(t);
    assert t[0] == d[0];
    DigitsThenStop(d, rest);
  }

  /** Nothing is skipped in front of a digit. */
  lemma NoSpaceBeforeDigit(t: GoString)
    requires |t| > 0 && IsDigit(t[0])
    ensures SkipSpaces(t) == t
  {
  }

  /** An unsigned digit run that fits is read as its value. */
  lemma ScanDigitsThenStop(d: GoString, rest: GoString)
    requires |d| > 0 && AllDigits(d)
    requires DecimalValue(d) < TwoTo63
    requires |rest| == 0 || !IsDigit(rest[0])
    ensures ScanSigned(d + rest) == Scanned(DecimalValue(d))
  {
    var t := d + rest;
    assert t[0] == d[0];
    DigitsThenStop(d, rest);
    assert LeadingDigits(t) == d;
  }

  lemma AfterLeadingByte(b: Byte, t: GoString)
    ensures ([b] + t)[0] == b && ([b] + t)[1..] == t
  {
  }

  /** The maximal digit run of `d + rest` is `d` when `rest` does not begin
      with a digit. */
  lemma {:induction false} DigitsThenStop(d: GoString, rest: GoString)
    requires AllDigits(d)
    requires |rest| == 0 || !IsDigit(rest[0])
    ensures LeadingDigits(d + rest) == d
    decreases |d|
  {
    if |d| == 0 {
      assert d + rest == rest;
    } else {
      assert (d + rest)[1..] == d[1..] + rest;
      DigitsThenStop(d[1..], rest);
      assert d == [d[0]] + d[1..];
    }
  }

  /** Appending a closing quote never changes what the scan reads: the quote
      is neither space, sign nor digit, and it cannot complete a multi-byte
      space rune. */
  lemma ScanIgnoresQuote(s: GoString)
    ensures ScanVersion(s + [Quote]) == ScanVersion(s)
  {
    if |s| > 0 && s[0] == 'v' {
      var sq := s + [Quote];
      assert sq[1..] == s[1..] + [Quote];
      SkipSpacesQuote(s[1..]);
      ScanSignedQuote(SkipSpaces(s[1..]));
    }
  }

  lemma ScanSignedQuote(t: GoString)
    ensures ScanSigned(t + [Quote]) == ScanSigned(t)
  {
    var tq := t + [Quote];
    if |t| > 0 && (t[0] == '+' || t[0] == '-') {
      assert tq[0] == t[0];
      assert tq[1..] == t[1..] + [Quote];
      DigitsQuote(t[1..]);
    } else {
      if |t| > 0 {
        assert tq[0] == t[0];
      }
      DigitsQuote(t);
    }
  }

  /** A version segment stays one, and any other segment stays rejected,
      when a closing quote is appended. */
  lemma QuoteKeepsVerdict(s: GoString)
    ensures IsVNPart(s + [Quote]) <==> IsVNPart(s)
  {
    ScanIgnoresQuote(s);
  }

  lemma SpaceWidthQuote(t: GoString)
    ensures SpaceWidth(t + [Quote]) == SpaceWidth(t)
  {
    var tq := t + [Quote];
    assert tq[..|t|] == t;
    assert tq[|t|] == Quote;
  }

  lemma {:induction false} SkipSpacesQuote(t: GoString)
    ensures SkipSpaces(t + [Quote]) == SkipSpaces(t) + [Quote]
    decreases |t|
  {
    SpaceWidthQuote(t);
    var w := SpaceWidth(t);
    if w > 0 {
      assert (t + [Quote])[w..] == t[w..] + [Quote];
      SkipSpacesQuote(t[w..]);
    }
  }

  lemma {:induction false} DigitsQuote(u: GoString)
    ensures LeadingDigits(u + [Quote]) == LeadingDigits(u)
    decreases |u|
  {
    if |u| == 0 {
      assert u + [Quote] == [Quote];
    } else {
      assert (u + [Quote])[0] == u[0];
      assert (u + [Quote])[1..] == u[1..] + [Quote];
      DigitsQuote(u[1..]);
    }
  }
}
