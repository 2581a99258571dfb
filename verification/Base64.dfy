/**
 * Base 64: the encoder with its line wrapping and padding, the decoder, the length
 * computation, and the round trip.  Text is a sequence of ASCII codes.
 */
module Base64 {
  import opened Bytes

  const CR: Byte := 13
  const LF: Byte := 10
  const NUL: Byte := 0
  const PAD: Byte := '=' as int
  const SIZE_T := 0x1_0000_0000_0000_0000

  /** The two characters for 62 and 63, and the option bits. */
  datatype Encoding = Encoding(c62: Byte, c63: Byte, wrap: nat, pad: bool, ignoreCrud: bool)

  /** An encoding as the three-character string that describes it. */
  function Describe(c62: char, c63: char, options: char): Encoding
    requires c62 as int < 256 && c63 as int < 256
  {
    var f := options as int;
    Encoding(c62 as int, c63 as int, f % 4, f / 4 % 2 == 1, f / 8 % 2 == 1)
  }

  const MIME := Describe('+', '/', 'N')
  const PEM := Describe('+', '/', 'E')
  const URL := Describe('-', '_', '@')

  predicate Alphanumeric(c: Byte) {
    'A' as int <= c <= 'Z' as int || 'a' as int <= c <= 'z' as int || '0' as int <= c <= '9' as int
  }

  /** The two extra characters are distinct from each other and from everything with a meaning of its own. */
  predicate Proper(e: Encoding) {
    && e.c62 != e.c63
    && !Alphanumeric(e.c62) && e.c62 !in [CR, LF, NUL, PAD]
    && !Alphanumeric(e.c63) && e.c63 !in [CR, LF, NUL, PAD]
  }

  function MaxLine(e: Encoding): int {
    if e.wrap == 1 then 64 else if e.wrap == 2 then 76 else -1
  }

  /** The space needed for `bsize` bytes, in 64-bit unsigned arithmetic. */
  function EncLen(bsize: nat, e: Encoding): nat {
    WithBreaks(Body(bsize, e), MaxLine(e))
  }

  function Body(bsize: nat, e: Encoding): nat {
    (bsize + 2) / 3 * 4 - (if e.pad then 0 else 2 - (bsize + 2) % 3)
  }

  function WithBreaks(n: nat, w: int): nat {
    if w == 64 then (n + (n - 1) % SIZE_T / 64 * 2) % SIZE_T
    else if w == 76 then (n + (n - 1) % SIZE_T / 76 * 2) % SIZE_T
    else n
  }

  /** The character for a six-bit value. */
  function GetEnc(b: int, e: Encoding): (c: Byte)
    requires 0 <= b < 64
  {
    if b == 62 then e.c62 else if b == 63 then e.c63
    else if b < 26 then 'A' as int + b else if b < 52 then 'a' as int + (b - 26) else '0' as int + (b - 52)
  }

  const UPPER := "ABCDEFGHIJKLMNOPQRSTUVWXYZ"
  const LOWER := "abcdefghijklmnopqrstuvwxyz"
  const DIGITS := "0123456789"

  /** The values up to 61 stand for the letters and digits of table 1 of RFC 4648, in its order. */
  lemma Alphabet(b: int, e: Encoding)
    requires 0 <= b < 62
    ensures |UPPER| == 26 && |LOWER| == 26 && |DIGITS| == 10
    ensures GetEnc(b, e) == (if b < 26 then UPPER[b] else if b < 52 then LOWER[b - 26] else DIGITS[b - 52]) as int
  {
    if b < 26 { Uppercase(b); } else if b < 52 { Lowercase(b - 26); }
  }

  lemma Uppercase(i: int)
    requires 0 <= i < 26
    ensures UPPER[i] as int == 65 + i
  {
    if i > 13 { assert UPPER[14] == 'O' && UPPER[25] == 'Z'; }
  }

  lemma Lowercase(i: int)
    requires 0 <= i < 26
    ensures LOWER[i] as int == 97 + i
  {
    if i > 13 { assert LOWER[14] == 'o' && LOWER[25] == 'z'; }
  }

  /** Where padding is asked for, the text is filled up to a multiple of four with the pad character. */
  lemma PadsToFour(n: nat, e: Encoding)
    ensures e.pad ==> (SextetCount(n) + |Padding(n, e)|) % 4 == 0 && |Padding(n, e)| < 3
    ensures !e.pad ==> Padding(n, e) == []
    ensures forall c :: c in Padding(n, e) ==> c == 61
  {
  }

  /** The last two characters of the three encodings, and the pad character. */
  lemma LastCharacters()
    ensures GetEnc(62, MIME) == 43 && GetEnc(63, MIME) == 47 && GetEnc(62, PEM) == 43 && GetEnc(63, PEM) == 47
    ensures GetEnc(62, URL) == 45 && GetEnc(63, URL) == 95 && PAD == 61
  {
  }

  // ---------- what the text is ----------

  function SextetCount(n: nat): nat {
    n / 3 * 4 + (if n % 3 == 0 then 0 else n % 3 + 1)
  }

  /** The j-th group of six bits of the input, as section 4 of RFC 4648 numbers them. */
  function Sextet(bin: seq<Byte>, j: nat): (v: int)
    requires j < SextetCount(|bin|)
    ensures 0 <= v < 64
  {
    var i := j / 4 * 3;
    match j % 4
    case 0 => bin[i] / 4
    case 1 => bin[i] % 4 * 16 + (if i + 1 < |bin| then bin[i + 1] / 16 else 0)
    case 2 => bin[i + 1] % 16 * 4 + (if i + 2 < |bin| then bin[i + 2] / 64 else 0)
    case _ => bin[i + 2] % 64
  }

  function Chars(bin: seq<Byte>, e: Encoding): (r: seq<Byte>)
    ensures |r| == SextetCount(|bin|)
  {
    seq(SextetCount(|bin|), j requires 0 <= j < SextetCount(|bin|) => GetEnc(Sextet(bin, j), e))
  }

  function Padding(n: nat, e: Encoding): seq<Byte> {
    if !e.pad || n % 3 == 0 then [] else if n % 3 == 1 then [PAD, PAD] else [PAD]
  }

  /** The position in the current line after `n` characters, as the encoder counts it. */
  function Column(n: nat, w: int): (c: nat) {
    if n == 0 then 0 else (if w > 0 && Column(n - 1, w) >= w then 0 else Column(n - 1, w)) + 1
  }

  /** A line that has reached `w` characters is broken before the next one. */
  function Break(n: nat, w: int): seq<Byte> {
    if w > 0 && Column(n, w) >= w then [CR, LF] else []
  }

  /** Text broken into lines of `w` characters. */
  function Lines(s: seq<Byte>, w: int): seq<Byte> {
    if s == [] then [] else
    var front := s[..|s| - 1];
    Lines(front, w) + Break(|front|, w) + [s[|s| - 1]]
  }

  function Text(bin: seq<Byte>, e: Encoding): seq<Byte> {
    Lines(Chars(bin, e) + Padding(|bin|, e), MaxLine(e))
  }

  // ---------- lengths ----------

  /** How many lines are full and broken after `n` characters. */
  function LinesBroken(n: nat, w: int): nat {
    if n == 0 then 0 else LinesBroken(n - 1, w) + (if Break(n - 1, w) == [] then 0 else 1)
  }

  /** The characters are those of the broken lines and those of the current one, which is not empty. */
  lemma {:induction false} ColumnSplits(n: nat, w: int)
    requires n > 0 && (w == 64 || w == 76)
    ensures n == (if w == 64 then 64 * LinesBroken(n, w) else 76 * LinesBroken(n, w)) + Column(n, w)
    ensures 1 <= Column(n, w) <= w
  {
    if n > 1 { ColumnSplits(n - 1, w); }
  }

  lemma Quotient64(n: int, q: int, r: int)
    requires n == 64 * q + r && 0 <= r < 64
    ensures n / 64 == q && n % 64 == r
  {
  }

  lemma Quotient76(n: int, q: int, r: int)
    requires n == 76 * q + r && 0 <= r < 76
    ensures n / 76 == q && n % 76 == r
  {
  }

  lemma Quotient4(n: int, q: int, r: int)
    requires n == 4 * q + r && 0 <= r < 4
    ensures n / 4 == q && n % 4 == r
  {
  }

  /** Lines are broken after every `w` characters that are followed by another. */
  lemma BreaksEvery(n: nat, w: int)
    requires w == 64 || w == 76
    ensures Break(n, w) != [] <==> n > 0 && (if w == 64 then n % 64 else n % 76) == 0
  {
    if n > 0 {
      ColumnSplits(n, w);
      var q, c := LinesBroken(n, w), Column(n, w);
      var (line, left) := if c == w then (q + 1, 0) else (q, c);
      if w == 64 { Quotient64(n, line, left); } else { Quotient76(n, line, left); }
    }
  }

  lemma {:induction false} LinesLength(s: seq<Byte>, w: int)
    ensures |Lines(s, w)| == |s| + 2 * LinesBroken(|s|, w)
  {
    if s != [] { LinesLength(s[..|s| - 1], w); }
  }

  lemma {:induction false} PlainLength(s: seq<Byte>)
    ensures Lines(s, -1) == s
  {
    if s != [] {
      PlainLength(s[..|s| - 1]);
    }
  }

  lemma BodyLength(n: nat, e: Encoding)
    ensures SextetCount(n) + |Padding(n, e)| == Body(n, e)
    ensures 0 < n < 0x1000_0000_0000_0000 ==> 0 < SextetCount(n) + |Padding(n, e)| < 0x2000_0000_0000_0000
  {
  }

  lemma Fits(n: nat)
    requires n < SIZE_T
    ensures n % SIZE_T == n
  {
  }

  lemma NoOverflow64(n: nat, q: nat, c: nat)
    requires 0 < n < 0x2000_0000_0000_0000 && n == 64 * q + c && 1 <= c <= 64
    ensures WithBreaks(n, 64) == n + 2 * q
  {
    Fits(n - 1);
    Quotient64(n - 1, q, c - 1);
    Fits(n + 2 * q);
  }

  lemma NoOverflow76(n: nat, q: nat, c: nat)
    requires 0 < n < 0x2000_0000_0000_0000 && n == 76 * q + c && 1 <= c <= 76
    ensures WithBreaks(n, 76) == n + 2 * q
  {
    Fits(n - 1);
    Quotient76(n - 1, q, c - 1);
    Fits(n + 2 * q);
  }

  lemma {:induction false} WrappedLength(body: seq<Byte>, w: int)
    requires 0 < |body| < 0x2000_0000_0000_0000 && (w == 64 || w == 76)
    ensures |Lines(body, w)| == WithBreaks(|body|, w)
  {
    LinesLength(body, w);
    ColumnSplits(|body|, w);
    var q, c := LinesBroken(|body|, w), Column(|body|, w);
    if w == 64 { NoOverflow64(|body|, q, c); } else { NoOverflow76(|body|, q, c); }
  }

  /** The text is exactly as long as ep_b64_enc_len says. */
  lemma TextLength(bin: seq<Byte>, e: Encoding)
    requires |bin| < 0x1000_0000_0000_0000 && (bin != [] || MaxLine(e) < 0)
    ensures |Text(bin, e)| == EncLen(|bin|, e)
  {
    var body := Chars(bin, e) + Padding(|bin|, e);
    BodyLength(|bin|, e);
    if MaxLine(e) > 0 {
      WrappedLength(body, MaxLine(e));
    } else {
      PlainLength(body);
    }
  }

  /** For no input at all a wrapping encoding asks for more room than there is. */
  lemma EmptyNeedsEverything(e: Encoding)
    requires MaxLine(e) > 0
    ensures EncLen(0, e) > 0x100_0000_0000_0000
  {
  }

  // ---------- decoding ----------

  const ILLEGAL := -1
  const IGNORE := -2

  /** The decoding map; later entries overwrite earlier ones. */
  function DecodeChar(c: Byte, e: Encoding): int {
    if e.pad && c == PAD then IGNORE
    else if e.wrap != 0 && (c == CR || c == LF) then IGNORE
    else if c == e.c63 then 63
    else if c == e.c62 then 62
    else if 'A' as int <= c <= 'Z' as int then c - 'A' as int
    else if 'a' as int <= c <= 'z' as int then c - 'a' as int + 26
    else if '0' as int <= c <= '9' as int then c - '0' as int + 52
    else if e.ignoreCrud then IGNORE else ILLEGAL
  }

  /** What is illegal, and what is passed over. */
  lemma DecodesNothing(c: Byte, e: Encoding)
    requires Proper(e)
    ensures DecodeChar(c, e) == ILLEGAL <==>
      && !Alphanumeric(c) && c != e.c62 && c != e.c63 && !(e.pad && c == 61)
      && !(e.wrap != 0 && (c == 13 || c == 10)) && !e.ignoreCrud
    ensures DecodeChar(c, e) == IGNORE <==>
      && !Alphanumeric(c) && c != e.c62 && c != e.c63
      && ((e.pad && c == 61) || (e.wrap != 0 && (c == 13 || c == 10)) || e.ignoreCrud)
  {
  }

  datatype DecodeResult = Decoded(bin: seq<Byte>) | BadEncoding

  /** The decoder's variables: bytes written, position modulo 4, bits carried. */
  datatype Partial = Partial(out: seq<Byte>, state: nat, nextb: nat)

  /** The carried bits, shifted up, leave room for the bits of the next character: adding is or-ing. */
  predicate Carries(d: Partial) {
    match d.state % 4
    case 0 => true
    case 1 => d.nextb <= 252
    case 2 => d.nextb <= 240
    case _ => d.nextb <= 192
  }

  lemma NextInGroup(j: nat)
    ensures (j + 1) / 4 == j / 4 + (if j % 4 == 3 then 1 else 0)
    ensures (j + 1) % 4 == if j % 4 == 3 then 0 else j % 4 + 1
  {
    var q, r := j / 4, j % 4;
    if r == 3 { Quotient4(j + 1, q + 1, 0); } else { Quotient4(j + 1, q, r + 1); }
  }

  function Accept(d: Partial, v: int): (r: Partial)
    requires Carries(d) && 0 <= v < 64
    ensures Carries(r)
  {
    NextInGroup(d.state);
    match d.state % 4
    case 0 => Partial(d.out, d.state + 1, v * 4)
    case 1 => Partial(d.out + [d.nextb + v / 16], d.state + 1, v % 16 * 16)
    case 2 => Partial(d.out + [d.nextb + v / 4], d.state + 1, v % 4 * 64)
    case _ => Partial(d.out + [d.nextb + v], d.state + 1, d.nextb)
  }

  function DecodeFrom(txt: seq<Byte>, d: Partial, bsize: nat, e: Encoding): DecodeResult
    requires Carries(d)
  {
    if txt == [] || txt[0] == NUL || |d.out| >= bsize then Decoded(d.out) else
    var v := DecodeChar(txt[0], e);
    if v == ILLEGAL then BadEncoding
    else if v == IGNORE then DecodeFrom(txt[1..], d, bsize, e)
    else DecodeFrom(txt[1..], Accept(d, v), bsize, e)
  }

  function Decode(txt: seq<Byte>, bsize: nat, e: Encoding): DecodeResult {
    DecodeFrom(txt, Partial([], 0, 0), bsize, e)
  }

  // ---------- what is refused ----------

  /** How many characters stand for six bits. */
  function Accepted(txt: seq<Byte>, e: Encoding): nat {
    if txt == [] then 0 else (if DecodeChar(txt[0], e) >= 0 then 1 else 0) + Accepted(txt[1..], e)
  }

  /** After `n` characters, three bytes are written for every four. */
  ghost predicate Written(d: Partial, n: nat) {
    d.state == n && |d.out| == n * 3 / 4
  }

  /**
   * The character at `j` is the first illegal one and comes before any null byte; `n`
   * characters were accepted before this text, and there is room for what comes before `j`.
   */
  ghost predicate IllegalAt(txt: seq<Byte>, n: nat, j: nat, bsize: nat, e: Encoding) {
    && j < |txt| && DecodeChar(txt[j], e) == ILLEGAL && (forall i :: 0 <= i <= j ==> txt[i] != NUL)
    && (forall i :: 0 <= i < j ==> DecodeChar(txt[i], e) != ILLEGAL)
    && (n + Accepted(txt[..j], e)) * 3 / 4 < bsize
  }

  lemma AcceptWrites(d: Partial, v: int, n: nat)
    requires Carries(d) && 0 <= v < 64 && Written(d, n)
    ensures Written(Accept(d, v), n + 1)
  {
    var q, r := n / 4, n % 4;
    ThreeQuarters(n, q, r);
    if r == 3 { ThreeQuarters(n + 1, q + 1, 0); } else { ThreeQuarters(n + 1, q, r + 1); }
  }

  lemma ThreeQuarters(n: nat, q: nat, r: nat)
    requires n == 4 * q + r && r < 4
    ensures n * 3 / 4 == 3 * q + if r == 0 then 0 else r - 1
  {
    Quotient4(n * 3, 3 * q + (if r == 0 then 0 else r - 1), if r == 0 then 0 else 4 - r);
  }

  lemma {:induction false} IllegalLater(txt: seq<Byte>, n: nat, m: nat, j: nat, bsize: nat, e: Encoding)
    requires txt != [] && txt[0] != NUL && DecodeChar(txt[0], e) != ILLEGAL
    requires m == n + if DecodeChar(txt[0], e) >= 0 then 1 else 0
    ensures IllegalAt(txt, n, j + 1, bsize, e) <==> IllegalAt(txt[1..], m, j, bsize, e)
  {
    var rest := txt[1..];
    if j + 1 <= |txt| {
      assert txt[..j + 1][1..] == rest[..j] && txt[..j + 1][0] == txt[0];
      assert Accepted(txt[..j + 1], e) + n == Accepted(rest[..j], e) + m;
    }
    if IllegalAt(txt, n, j + 1, bsize, e) {
      forall i | 0 <= i <= j ensures rest[i] != NUL { assert txt[i + 1] != NUL; }
      forall i | 0 <= i < j ensures DecodeChar(rest[i], e) != ILLEGAL { assert DecodeChar(txt[i + 1], e) != ILLEGAL; }
    }
    if IllegalAt(rest, m, j, bsize, e) {
      forall i | 0 <= i <= j + 1 ensures txt[i] != NUL { if i > 0 { assert rest[i - 1] != NUL; } }
      forall i | 0 <= i < j + 1 ensures DecodeChar(txt[i], e) != ILLEGAL {
        if i > 0 { assert DecodeChar(rest[i - 1], e) != ILLEGAL; }
      }
    }
  }

  lemma {:induction false} RefusedFrom(txt: seq<Byte>, d: Partial, n: nat, bsize: nat, e: Encoding, j: nat)
    requires Carries(d) && Written(d, n) && IllegalAt(txt, n, j, bsize, e)
    ensures DecodeFrom(txt, d, bsize, e).BadEncoding?
  {
    assert txt[0] != NUL;
    assert n * 3 / 4 < bsize;
    if j > 0 {
      var v := DecodeChar(txt[0], e);
      assert v != ILLEGAL;
      IllegalLater(txt, n, n + (if v >= 0 then 1 else 0), j - 1, bsize, e);
      if v >= 0 { AcceptWrites(d, v, n); }
      RefusedFrom(txt[1..], if v >= 0 then Accept(d, v) else d, n + (if v >= 0 then 1 else 0), bsize, e, j - 1);
    }
  }

  lemma {:induction false} RefusalFrom(txt: seq<Byte>, d: Partial, n: nat, bsize: nat, e: Encoding) returns (j: nat)
    requires Carries(d) && Written(d, n) && DecodeFrom(txt, d, bsize, e).BadEncoding?
    ensures IllegalAt(txt, n, j, bsize, e)
    decreases |txt|
  {
    var v := DecodeChar(txt[0], e);
    if v == ILLEGAL {
      j := 0;
    } else {
      if v >= 0 { AcceptWrites(d, v, n); }
      var m := n + if v >= 0 then 1 else 0;
      j := RefusalFrom(txt[1..], if v >= 0 then Accept(d, v) else d, m, bsize, e);
      IllegalLater(txt, n, m, j, bsize, e);
      j := j + 1;
    }
  }

  /** Text is refused if and only if an illegal character comes before a null byte and before the room is used up. */
  lemma RefusedExactly(txt: seq<Byte>, bsize: nat, e: Encoding)
    ensures Decode(txt, bsize, e).BadEncoding? <==> exists j :: IllegalAt(txt, 0, j, bsize, e)
  {
    var d := Partial([], 0, 0);
    if Decode(txt, bsize, e).BadEncoding? {
      var j := RefusalFrom(txt, d, 0, bsize, e);
    }
    if exists j :: IllegalAt(txt, 0, j, bsize, e) {
      var j :| IllegalAt(txt, 0, j, bsize, e);
      RefusedFrom(txt, d, 0, bsize, e, j);
    }
  }

  // ---------- the round trip ----------

  lemma DecodesEncoded(v: int, e: Encoding)
    requires Proper(e) && 0 <= v < 64
    ensures DecodeChar(GetEnc(v, e), e) == v && GetEnc(v, e) !in [CR, LF, NUL, PAD]
  {
  }

  /** Ignored characters change nothing. */
  lemma {:induction false} DecodeSkips(a: seq<Byte>, junk: seq<Byte>, b: seq<Byte>, d: Partial, bsize: nat, e: Encoding)
    requires Carries(d) && forall i :: 0 <= i < |junk| ==> junk[i] != NUL && DecodeChar(junk[i], e) == IGNORE
    ensures DecodeFrom(a + junk + b, d, bsize, e) == DecodeFrom(a + b, d, bsize, e)
    decreases |a| + |junk|
  {
    if a != [] {
      assert (a + junk + b)[1..] == a[1..] + junk + b && (a + b)[1..] == a[1..] + b;
      var v := DecodeChar(a[0], e);
      DecodeSkips(a[1..], junk, b, if 0 <= v < 64 then Accept(d, v) else d, bsize, e);
    } else if junk != [] {
      assert (a + junk + b)[1..] == a + junk[1..] + b;
      DecodeSkips(a, junk[1..], b, d, bsize, e);
    } else {
      assert a + junk + b == a + b;
    }
  }

  /** Line breaks change nothing. */
  lemma {:induction false} DecodeLines(s: seq<Byte>, b: seq<Byte>, d: Partial, bsize: nat, e: Encoding)
    requires Carries(d)
    ensures DecodeFrom(Lines(s, MaxLine(e)) + b, d, bsize, e) == DecodeFrom(s + b, d, bsize, e)
  {
    if s != [] {
      var front, last, w := s[..|s| - 1], [s[|s| - 1]], MaxLine(e);
      var junk := Break(|front|, w);
      assert Lines(s, w) + b == Lines(front, w) + junk + (last + b);
      DecodeSkips(Lines(front, w), junk, last + b, d, bsize, e);
      DecodeLines(front, last + b, d, bsize, e);
      assert front + (last + b) == s + b;
    }
  }

  /** How many bytes are complete after `q` groups and `r` characters. */
  function Whole(q: nat, r: nat): nat {
    3 * q + (if r == 0 then 0 else r - 1)
  }

  /** The decoder after `j` characters of the encoding of `bin`: `q` groups and `r` characters. */
  ghost predicate Tracks(d: Partial, bin: seq<Byte>, j: nat, q: nat, r: nat) {
    && j == 4 * q + r && r < 4 && j <= SextetCount(|bin|) && Whole(q, r) <= |bin|
    && Carries(d) && d.state == j && d.out == bin[..Whole(q, r)] && Pending(d.nextb, bin, 3 * q, r)
  }

  /** The bits carried after `r` characters of the group that starts at byte `i`. */
  ghost predicate Pending(nextb: nat, bin: seq<Byte>, i: nat, r: nat) {
    match r
    case 0 => true
    case 1 => i < |bin| && nextb == bin[i] / 4 * 4
    case 2 => i < |bin| && nextb == if i + 1 < |bin| then bin[i + 1] / 16 * 16 else 0
    case _ => i + 1 < |bin| && nextb == if i + 2 < |bin| then bin[i + 2] / 64 * 64 else 0
  }

  /** Two bytes meet in the second character of a group, and in the third. */
  lemma BytesMeet(a: Byte, b: Byte)
    ensures var v := a % 4 * 16 + b / 16; a / 4 * 4 + v / 16 == a && v % 16 * 16 == b / 16 * 16
    ensures var v := a % 16 * 4 + b / 64; a / 16 * 16 + v / 4 == a && v % 4 * 64 == b / 64 * 64
    ensures a / 64 * 64 + a % 64 == a
  {
    var x, y := b / 16, b / 64;
    Quotient16(a % 4 * 16 + x, a % 4, x);
    Quotient4(a % 16 * 4 + y, a % 16, y);
  }

  lemma Quotient16(n: int, q: int, r: int)
    requires n == 16 * q + r && 0 <= r < 16
    ensures n / 16 == q && n % 16 == r
  {
  }

  lemma FirstNext(d: Partial, bin: seq<Byte>, j: nat, q: nat)
    requires Tracks(d, bin, j, q, 0) && j < SextetCount(|bin|)
    ensures Tracks(Accept(d, Sextet(bin, j)), bin, j + 1, q, 1)
  {
    Quotient4(j, q, 0);
  }

  lemma SecondNext(d: Partial, bin: seq<Byte>, j: nat, q: nat)
    requires Tracks(d, bin, j, q, 1) && j < SextetCount(|bin|)
    ensures Tracks(Accept(d, Sextet(bin, j)), bin, j + 1, q, 2)
  {
    Quotient4(j, q, 1);
    var i := 3 * q;
    BytesMeet(bin[i], if i + 1 < |bin| then bin[i + 1] else 0);
    assert bin[..i + 1] == bin[..i] + [bin[i]];
  }

  lemma ThirdNext(d: Partial, bin: seq<Byte>, j: nat, q: nat)
    requires Tracks(d, bin, j, q, 2) && j < SextetCount(|bin|)
    ensures Tracks(Accept(d, Sextet(bin, j)), bin, j + 1, q, 3)
  {
    Quotient4(j, q, 2);
    var i := 3 * q + 1;
    BytesMeet(bin[i], if i + 1 < |bin| then bin[i + 1] else 0);
    assert bin[..i + 1] == bin[..i] + [bin[i]];
  }

  lemma FourthNext(d: Partial, bin: seq<Byte>, j: nat, q: nat)
    requires Tracks(d, bin, j, q, 3) && j < SextetCount(|bin|)
    ensures Tracks(Accept(d, Sextet(bin, j)), bin, j + 1, q + 1, 0)
  {
    Quotient4(j, q, 3);
    var i := 3 * q + 2;
    BytesMeet(bin[i], 0);
    assert bin[..i + 1] == bin[..i] + [bin[i]];
  }

  lemma TracksNext(d: Partial, bin: seq<Byte>, j: nat, q: nat, r: nat) returns (q': nat, r': nat)
    requires Tracks(d, bin, j, q, r) && j < SextetCount(|bin|)
    ensures Tracks(Accept(d, Sextet(bin, j)), bin, j + 1, q', r')
  {
    match r
    case 0 => FirstNext(d, bin, j, q); q', r' := q, 1;
    case 1 => SecondNext(d, bin, j, q); q', r' := q, 2;
    case 2 => ThirdNext(d, bin, j, q); q', r' := q, 3;
    case _ => FourthNext(d, bin, j, q); q', r' := q + 1, 0;
  }

  lemma TracksEnd(d: Partial, bin: seq<Byte>, j: nat, q: nat, r: nat, bsize: nat)
    requires Tracks(d, bin, j, q, r) && bsize >= |bin| && (j == SextetCount(|bin|) || |d.out| >= bsize)
    ensures d.out == bin
  {
    assert j == SextetCount(|bin|) ==> Whole(q, r) == |bin|;
    assert bin[..|bin|] == bin;
  }

  lemma {:induction false} DecodesOne(rest: seq<Byte>, v: int, d: Partial, bsize: nat, e: Encoding)
    requires Proper(e) && Carries(d) && 0 <= v < 64 && |d.out| < bsize
    ensures DecodeFrom([GetEnc(v, e)] + rest, d, bsize, e) == DecodeFrom(rest, Accept(d, v), bsize, e)
  {
    DecodesEncoded(v, e);
    assert ([GetEnc(v, e)] + rest)[1..] == rest;
  }

  lemma CharsFrom(bin: seq<Byte>, j: nat, e: Encoding)
    requires j < SextetCount(|bin|)
    ensures Chars(bin, e)[j..] == [GetEnc(Sextet(bin, j), e)] + Chars(bin, e)[j + 1..]
  {
  }

  lemma DecodesNext(bin: seq<Byte>, j: nat, q: nat, r: nat, d: Partial, bsize: nat, e: Encoding, rest: seq<Byte>)
    returns (next: Partial, q': nat, r': nat)
    requires Proper(e) && Tracks(d, bin, j, q, r) && j < SextetCount(|bin|) && |d.out| < bsize
    requires rest == Chars(bin, e)[j..]
    ensures Tracks(next, bin, j + 1, q', r') && rest != [] && rest[1..] == Chars(bin, e)[j + 1..]
    ensures DecodeFrom(rest, d, bsize, e) == DecodeFrom(rest[1..], next, bsize, e)
  {
    CharsFrom(bin, j, e);
    DecodesOne(rest[1..], Sextet(bin, j), d, bsize, e);
    next := Accept(d, Sextet(bin, j));
    q', r' := TracksNext(d, bin, j, q, r);
  }

  lemma {:induction false} DecodesEnd(bin: seq<Byte>, j: nat, q: nat, r: nat, d: Partial, bsize: nat, e: Encoding,
    rest: seq<Byte>)
    requires Tracks(d, bin, j, q, r) && bsize >= |bin| && (rest == [] || |d.out| >= bsize)
    requires rest == Chars(bin, e)[j..]
    ensures DecodeFrom(rest, d, bsize, e) == Decoded(bin)
  {
    TracksEnd(d, bin, j, q, r, bsize);
  }

  lemma {:induction false} DecodesRest(bin: seq<Byte>, j: nat, q: nat, r: nat, d: Partial, bsize: nat, e: Encoding,
    rest: seq<Byte>, result: DecodeResult)
    requires Proper(e) && Tracks(d, bin, j, q, r) && bsize >= |bin| && rest == Chars(bin, e)[j..]
    requires result == DecodeFrom(rest, d, bsize, e)
    ensures result == Decoded(bin)
    decreases rest
  {
    if rest != [] && |d.out| < bsize {
      var next, q', r' := DecodesNext(bin, j, q, r, d, bsize, e, rest);
      DecodesRest(bin, j + 1, q', r', next, bsize, e, rest[1..], result);
    } else {
      DecodesEnd(bin, j, q, r, d, bsize, e, rest);
    }
  }

  /** Decoding the text of any bytes gives the bytes back. */
  lemma RoundTrip(bin: seq<Byte>, bsize: nat, e: Encoding)
    requires Proper(e) && bsize >= |bin|
    ensures Decode(Text(bin, e), bsize, e) == Decoded(bin)
  {
    var chars, pads, d := Chars(bin, e), Padding(|bin|, e), Partial([], 0, 0);
    assert Text(bin, e) + [] == Text(bin, e) && chars + pads + [] == chars + pads && chars + [] == chars;
    DecodeLines(chars + pads, [], d, bsize, e);
    DecodeSkips(chars, pads, [], d, bsize, e);
    assert chars[0..] == chars && bin[..0] == [];
    DecodesRest(bin, 0, 0, 0, d, bsize, e, chars, DecodeFrom(chars, d, bsize, e));
  }

  /** The three standard encodings are proper ones. */
  lemma StandardEncodings()
    ensures Proper(MIME) && Proper(PEM) && Proper(URL)
    ensures MaxLine(MIME) == 76 && MIME.pad && MIME.ignoreCrud
    ensures MaxLine(PEM) == 64 && PEM.pad && !PEM.ignoreCrud
    ensures MaxLine(URL) == -1 && !URL.pad && !URL.ignoreCrud
  {
  }

  // ---------- the code ----------

  datatype EncodeResult = Encoded(txt: seq<Byte>) | Overflow

  /** The text after one more character. */
  lemma {:induction false} EmitOne(s: seq<Byte>, c: Byte, w: int)
    ensures Lines(s + [c], w) == Lines(s, w) + Break(|s|, w) + [c]
  {
    assert (s + [c])[..|s|] == s;
  }

  /** The characters written for byte `bx`, given the byte before it. */
  function Part(bin: seq<Byte>, bx: nat, e: Encoding): seq<Byte>
    requires bx < |bin|
  {
    match bx % 3
    case 0 => [GetEnc(bin[bx] / 4, e)]
    case 1 => [GetEnc(bin[bx - 1] % 4 * 16 + bin[bx] / 16, e)]
    case _ => [GetEnc(bin[bx - 1] % 16 * 4 + bin[bx] / 64, e), GetEnc(bin[bx] % 64, e)]
  }

  /** The character for the bits left over after the last byte. */
  function LastPart(bin: seq<Byte>, e: Encoding): seq<Byte> {
    match |bin| % 3
    case 0 => []
    case 1 => [GetEnc(bin[|bin| - 1] % 4 * 16, e)]
    case _ => [GetEnc(bin[|bin| - 1] % 16 * 4, e)]
  }

  /** All characters written before byte `bx` is looked at. */
  function Parts(bin: seq<Byte>, bx: nat, e: Encoding): seq<Byte>
    requires bx <= |bin|
  {
    if bx == 0 then [] else Parts(bin, bx - 1, e) + Part(bin, bx - 1, e)
  }

  lemma {:induction false} PartsLength(bin: seq<Byte>, bx: nat, e: Encoding)
    requires bx <= |bin|
    ensures |Parts(bin, bx, e)| == bx / 3 * 4 + bx % 3
  {
    if bx > 0 { PartsLength(bin, bx - 1, e); }
  }

  /** The characters of a part are the next one or two of the body. */
  lemma PartSextets(bin: seq<Byte>, bx: nat, e: Encoding)
    requires bx < |bin|
    ensures var n, part, chars := bx / 3 * 4 + bx % 3, Part(bin, bx, e), Chars(bin, e);
            && 1 <= |part| <= 2 && n + |part| <= |chars|
            && part[0] == chars[n] && (|part| == 2 ==> part[1] == chars[n + 1])
  {
    var q, r := bx / 3, bx % 3;
    Quotient4(4 * q + r, q, r);
    if r == 2 { Quotient4(4 * q + 3, q, 3); }
  }

  lemma Extends(s: seq<Byte>, part: seq<Byte>, t: seq<Byte>)
    requires s <= t && 1 <= |part| <= 2 && |s| + |part| <= |t|
    requires part[0] == t[|s|] && (|part| == 2 ==> part[1] == t[|s| + 1])
    ensures s + part <= t
  {
  }

  lemma PartFollows(bin: seq<Byte>, bx: nat, e: Encoding, s: seq<Byte>)
    requires bx < |bin| && s <= Chars(bin, e) && |s| == bx / 3 * 4 + bx % 3
    ensures s + Part(bin, bx, e) <= Chars(bin, e)
  {
    PartSextets(bin, bx, e);
    Extends(s, Part(bin, bx, e), Chars(bin, e));
  }

  lemma {:induction false} PartsAre(bin: seq<Byte>, bx: nat, e: Encoding, s: seq<Byte>)
    requires bx <= |bin| && s == Parts(bin, bx, e)
    ensures s <= Chars(bin, e)
  {
    if bx > 0 {
      var front := Parts(bin, bx - 1, e);
      PartsAre(bin, bx - 1, e, front);
      PartsLength(bin, bx - 1, e);
      PartFollows(bin, bx - 1, e, front);
    }
  }

  /** Byte by byte or group by group, the characters are the same. */
  lemma {:induction false} PartsAreChars(bin: seq<Byte>, e: Encoding)
    ensures Parts(bin, |bin|, e) + LastPart(bin, e) == Chars(bin, e)
  {
    PartsAre(bin, |bin|, e, Parts(bin, |bin|, e));
    PartsLength(bin, |bin|, e);
    LastSextet(bin, e);
    Completes(Parts(bin, |bin|, e), LastPart(bin, e), Chars(bin, e));
  }

  lemma Completes(s: seq<Byte>, last: seq<Byte>, t: seq<Byte>)
    requires s <= t && |s| + |last| == |t| && |last| <= 1 && (last != [] ==> last[0] == t[|s|])
    ensures s + last == t
  {
  }

  lemma LastSextet(bin: seq<Byte>, e: Encoding)
    ensures var n, last := |bin| / 3 * 4 + |bin| % 3, LastPart(bin, e);
            n + |last| == |Chars(bin, e)| && (last != [] ==> last[0] == Chars(bin, e)[n])
  {
    var q, r := |bin| / 3, |bin| % 3;
    Quotient4(4 * q + r, q, r);
  }

  /** The bits of the last byte still to be written. */
  predicate Carry(bin: seq<Byte>, bx: nat, nextc: int)
    requires bx <= |bin|
  {
    match bx % 3
    case 0 => true
    case 1 => nextc == bin[bx - 1] % 4 * 16
    case _ => nextc == bin[bx - 1] % 16 * 4
  }

  /** What the encoder has written, with `n` characters of the body in all. */
  ghost predicate Laid(s: seq<Byte>, txt: seq<Byte>, lx: int, w: int) {
    txt == Lines(s, w) && lx == Column(|s|, w)
  }

  /** One more character, with a line break before it if the line is full. */
  lemma LayOne(s: seq<Byte>, txt: seq<Byte>, lx: int, w: int, c: Byte)
    requires Laid(s, txt, lx, w)
    ensures Laid(s + [c], (if w > 0 && lx >= w then txt + [CR, LF] else txt) + [c],
      (if w > 0 && lx >= w then 0 else lx) + 1, w)
  {
    EmitOne(s, c, w);
    assert Lines(s, w) + [] == Lines(s, w);
  }

  /** Inside a group of four, after `r` of its characters, there is no line break. */
  lemma InsideGroup(g: nat, r: nat, w: int)
    requires 1 <= r < 4 && (w == 64 || w == 76 || w == -1)
    ensures !(w > 0 && Column(4 * g + r, w) >= w)
  {
    if w > 0 {
      ColumnSplits(4 * g + r, w);
      var q := LinesBroken(4 * g + r, w);
      assert Column(4 * g + r, w) == w ==> r == 4 * ((if w == 64 then 16 * (q + 1) else 19 * (q + 1)) - g);
    }
  }

  lemma {:induction false} LayInside(g: nat, r: nat, s: seq<Byte>, txt: seq<Byte>, lx: int, w: int, tail: seq<Byte>)
    requires Laid(s, txt, lx, w) && (w == 64 || w == 76 || w == -1)
    requires |s| == 4 * g + r && r + |tail| <= 4 && (r == 0 ==> tail == [])
    ensures Laid(s + tail, txt + tail, lx + |tail|, w)
    decreases |tail|
  {
    if tail == [] {
      assert s + tail == s && txt + tail == txt;
    } else {
      InsideGroup(g, r, w);
      LayOne(s, txt, lx, w, tail[0]);
      LayInside(g, r + 1, s + [tail[0]], txt + [tail[0]], lx + 1, w, tail[1..]);
      assert [tail[0]] + tail[1..] == tail;
      Regroup(s, [tail[0]], tail[1..]);
      Regroup(txt, [tail[0]], tail[1..]);
    }
  }

  /** A part is one character, or the last two of a group. */
  lemma LayPart(g: nat, r: nat, s: seq<Byte>, txt: seq<Byte>, lx: int, w: int, part: seq<Byte>)
    requires Laid(s, txt, lx, w) && (w == 64 || w == 76 || w == -1)
    requires |s| == 4 * g + r && 1 <= |part| && r + |part| <= 4
    ensures var full := w > 0 && lx >= w;
            Laid(s + part, (if full then txt + [CR, LF] else txt) + part, (if full then 0 else lx) + |part|, w)
  {
    LayOne(s, txt, lx, w, part[0]);
    var full := w > 0 && lx >= w;
    var before := if full then txt + [CR, LF] else txt;
    LayInside(g, r + 1, s + [part[0]], before + [part[0]], (if full then 0 else lx) + 1, w, part[1..]);
    assert [part[0]] + part[1..] == part;
    Regroup(s, [part[0]], part[1..]);
    Regroup(before, [part[0]], part[1..]);
  }

  /** The characters one iteration of the encoder's loop writes. */
  method EncodeByte(bin: seq<Byte>, bx: nat, nextc0: int, e: Encoding) returns (part: seq<Byte>, nextc: int)
    requires bx < |bin| && Carry(bin, bx, nextc0)
    ensures Carry(bin, bx + 1, nextc) && part == Part(bin, bx, e)
  {
    nextc := nextc0;
    match bx % 3 {
      case 0 =>
        part, nextc := [GetEnc(bin[bx] / 4, e)], bin[bx] % 4 * 16;
      case 1 =>
        part, nextc := [GetEnc(nextc + bin[bx] / 16, e)], bin[bx] % 16 * 4;
      case _ =>
        part := [GetEnc(nextc + bin[bx] / 64, e)];
        part := part + [GetEnc(bin[bx] % 64, e)];
    }
  }

  /** The final character and the padding. */
  method EncodeEnd(bin: seq<Byte>, nextc: int, e: Encoding) returns (tail: seq<Byte>)
    requires Carry(bin, |bin|, nextc)
    ensures tail == LastPart(bin, e) + Padding(|bin|, e)
  {
    tail := [];
    if |bin| % 3 != 0 {
      tail := tail + [GetEnc(nextc, e)];
      if e.pad {
        tail := tail + [PAD];
        if |bin| % 3 == 1 { tail := tail + [PAD]; }
      }
    }
  }

  lemma TailFits(bin: seq<Byte>, e: Encoding)
    ensures var tail := LastPart(bin, e) + Padding(|bin|, e); |bin| % 3 + |tail| <= 4 && (|bin| % 3 == 0 ==> tail == [])
  {
  }

  lemma {:induction false} TextEnds(bin: seq<Byte>, txt: seq<Byte>, lx: int, e: Encoding)
    requires Laid(Parts(bin, |bin|, e), txt, lx, MaxLine(e))
    ensures txt + (LastPart(bin, e) + Padding(|bin|, e)) == Text(bin, e)
  {
    var s, last, pad := Parts(bin, |bin|, e), LastPart(bin, e), Padding(|bin|, e);
    PartsLength(bin, |bin|, e);
    TailFits(bin, e);
    LayInside(|bin| / 3, |bin| % 3, s, txt, lx, MaxLine(e), last + pad);
    PartsAreChars(bin, e);
    Regroup(s, last, pad);
  }

  lemma LayByte(bin: seq<Byte>, bx: nat, txt: seq<Byte>, lx: int, e: Encoding)
    requires bx < |bin| && Laid(Parts(bin, bx, e), txt, lx, MaxLine(e))
    ensures var w, part := MaxLine(e), Part(bin, bx, e);
            var full := w > 0 && lx >= w;
            Laid(Parts(bin, bx + 1, e), (if full then txt + [CR, LF] else txt) + part,
              (if full then 0 else lx) + |part|, w)
  {
    PartsLength(bin, bx, e);
    LayPart(bx / 3, bx % 3, Parts(bin, bx, e), txt, lx, MaxLine(e), Part(bin, bx, e));
  }

  /** The encoder's loop, byte by byte. */
  method EncodeBody(bin: seq<Byte>, e: Encoding) returns (txt: seq<Byte>)
    ensures txt == Text(bin, e)
  {
    txt := [];
    var bx, lx, nextc := 0, 0, 0;
    while bx < |bin|
      invariant bx <= |bin| && Carry(bin, bx, nextc) && Laid(Parts(bin, bx, e), txt, lx, MaxLine(e))
    {
      var part;
      part, nextc := EncodeByte(bin, bx, nextc, e);
      LayByte(bin, bx, txt, lx, e);
      if MaxLine(e) > 0 && lx >= MaxLine(e) {
        txt, lx := txt + [CR, LF], 0;
      }
      txt, lx := txt + part, lx + |part|;
      bx := bx + 1;
    }
    var tail := EncodeEnd(bin, nextc, e);
    TextEnds(bin, txt, lx, e);
    txt := txt + tail;
  }

  /** ep_b64_encode: the text, or a refusal when the buffer of `tsize` is too small. */
  method Encode(bin: seq<Byte>, tsize: nat, e: Encoding) returns (r: EncodeResult)
    ensures r.Overflow? <==> tsize < EncLen(|bin|, e) + 1
    ensures r.Encoded? ==> r.txt == Text(bin, e)
  {
    if tsize < EncLen(|bin|, e) + 1 { return Overflow; }
    var txt := EncodeBody(bin, e);
    r := Encoded(txt);
  }

  /** ep_b64_decode. */
  method DecodeText(txt: seq<Byte>, bsize: nat, e: Encoding) returns (r: DecodeResult)
    ensures r == Decode(txt, bsize, e)
    ensures r.BadEncoding? <==> exists j :: IllegalAt(txt, 0, j, bsize, e)
  {
    RefusedExactly(txt, bsize, e);
    r := DecodeLoop(txt, bsize, e);
  }

  /** The loop over the characters. */
  method DecodeLoop(txt: seq<Byte>, bsize: nat, e: Encoding) returns (r: DecodeResult)
    ensures r == Decode(txt, bsize, e)
  {
    var bin: seq<Byte> := [];
    var tx: nat, state: nat, nextb: nat := 0, 0, 0;
    assert txt[0..] == txt;
    while tx < |txt| && txt[tx] != NUL && |bin| < bsize
      invariant tx <= |txt| && Carries(Partial(bin, state, nextb))
      invariant Decode(txt, bsize, e) == DecodeFrom(txt[tx..], Partial(bin, state, nextb), bsize, e)
    {
      var v := DecodeChar(txt[tx], e);
      assert txt[tx..][0] == txt[tx] && txt[tx..][1..] == txt[tx + 1..];
      tx := tx + 1;
      if v == ILLEGAL { return BadEncoding; }
      if v != IGNORE {
        match state % 4 {
          case 0 => nextb := v * 4;
          case 1 => bin, nextb := bin + [nextb + v / 16], v % 16 * 16;
          case 2 => bin, nextb := bin + [nextb + v / 4], v % 4 * 64;
          case _ => bin := bin + [nextb + v];
        }
        state := state + 1;
      }
    }
    r := Decoded(bin);
  }

  /**
   * For the standard encodings, encoding non-empty input and decoding the text is the
   * identity, and the length is the one announced.
   */
  lemma StandardRoundTrip(bin: seq<Byte>, e: Encoding)
    requires e in [MIME, PEM, URL] && 0 < |bin| < 0x1000_0000_0000_0000
    ensures Decode(Text(bin, e), |bin|, e) == Decoded(bin) && |Text(bin, e)| == EncLen(|bin|, e)
  {
    StandardEncodings();
    RoundTrip(bin, |bin|, e);
    TextLength(bin, e);
  }
}
