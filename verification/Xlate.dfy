/**
 * Byte strings in external form: characters written as escapes on the way out, escapes
 * of several styles understood on the way in, and when the two undo each other.
 */
module Xlate {
  import opened Bytes

  /** The styles of escape, and what else is to be escaped. */
  datatype How = How(percent: bool, bslash: bool, amper: bool, plus: bool, equal: bool, eightBit: bool, nprint: bool)

  const PERCENT: Byte := '%' as int
  const PLUS: Byte := '+' as int
  const EQUAL: Byte := '=' as int
  const BSLASH: Byte := '\\' as int
  const AMPER: Byte := '&' as int
  const SEMI: Byte := ';' as int
  const LOWX: Byte := 'x' as int

  predicate IsDigit(c: Byte) { '0' as int <= c <= '9' as int }

  predicate IsHex(c: Byte) { IsDigit(c) || 'A' as int <= c <= 'F' as int || 'a' as int <= c <= 'f' as int }

  predicate IsOctal(c: Byte) { '0' as int <= c <= '7' as int }

  predicate IsPrint(c: Byte) { 32 <= c < 127 }

  // ---------- going out ----------

  function EscapeChar(how: How): Byte {
    if how.percent then PERCENT else if how.bslash then BSLASH else if how.equal then EQUAL
    else if how.plus then PLUS else EQUAL
  }

  predicate MustEscape(c: Byte, forbid: set<Byte>, how: How) {
    (c >= 128 && how.eightBit) || c == EscapeChar(how) || c == 0 || (how.nprint && !IsPrint(c)) || c in forbid
  }

  function HexChar(v: nat): (c: Byte)
    requires v < 16
  {
    if v < 10 then '0' as int + v else 'A' as int + (v - 10)
  }

  function Escape(c: Byte, how: How): seq<Byte> {
    [EscapeChar(how)] + (if EscapeChar(how) == BSLASH then [LOWX] else []) + [HexChar(c / 16), HexChar(c % 16)]
  }

  function OutOne(c: Byte, forbid: set<Byte>, how: How): (r: seq<Byte>)
    ensures r != []
  {
    if MustEscape(c, forbid, how) then Escape(c, how) else [c]
  }

  function Out(s: seq<Byte>, forbid: set<Byte>, how: How): seq<Byte> {
    if s == [] then [] else OutOne(s[0], forbid, how) + Out(s[1..], forbid, how)
  }

  const HEX := "0123456789ABCDEF"

  /**
   * A character is passed through unless it is null, the escape character or forbidden, or has
   * the high bit or is unprintable where such are to be escaped.
   */
  lemma PassedExactly(c: Byte, forbid: set<Byte>, how: How)
    ensures OutOne(c, forbid, how) == [c] <==>
      !(c == 0 || c == EscapeChar(how) || c in forbid || (how.eightBit && c >= 128) ||
        (how.nprint && (c < 32 || c > 126)))
  {
  }

  /** An escape is its character, an x after a backslash, and the value in upper-case hexadecimal. */
  lemma EscapeIs(c: Byte, how: How)
    ensures |HEX| == 16
    ensures var hex: seq<Byte> := [HEX[c / 16] as int, HEX[c % 16] as int];
      Escape(c, how) ==
        if how.percent then ['%' as int] + hex
        else if how.bslash then ['\\' as int, 'x' as int] + hex
        else if how.plus && !how.equal then ['+' as int] + hex
        else ['=' as int] + hex
  {
  }

  /** The characters a single one may become. */
  lemma OneComesOut(c: Byte, forbid: set<Byte>, how: How, x: Byte)
    requires x in OutOne(c, forbid, how)
    ensures x != 0 && (how.eightBit ==> x < 128) && (how.nprint ==> IsPrint(x))
    ensures x in forbid ==> MustEscape(c, forbid, how) && x in Escape(c, how)
  {
  }

  lemma {:induction false} ComesFrom(s: seq<Byte>, forbid: set<Byte>, how: How, x: Byte) returns (c: Byte)
    requires x in Out(s, forbid, how)
    ensures c in s && x in OutOne(c, forbid, how)
  {
    if x in OutOne(s[0], forbid, how) {
      c := s[0];
    } else {
      c := ComesFrom(s[1..], forbid, how, x);
    }
  }

  /** No null byte comes out, nor, where they are to be escaped, a character with the high bit or an unprintable one. */
  lemma NothingRaw(s: seq<Byte>, forbid: set<Byte>, how: How, x: Byte)
    requires x in Out(s, forbid, how)
    ensures x != 0 && (how.eightBit ==> x < 128) && (how.nprint ==> IsPrint(x))
  {
    var c := ComesFrom(s, forbid, how, x);
    OneComesOut(c, forbid, how, x);
  }

  /** No escape that is needed is written with a forbidden character. */
  ghost predicate EscapesAllowed(forbid: set<Byte>, how: How) {
    forall c: Byte, x: Byte :: MustEscape(c, forbid, how) && x in Escape(c, how) ==> x !in forbid
  }

  ghost predicate NothingForbidden(s: seq<Byte>, forbid: set<Byte>, how: How) {
    forall x :: x in Out(s, forbid, how) ==> x !in forbid
  }

  /** Nothing forbidden comes out of any string if and only if no escape needs it. */
  lemma ForbiddenExactly(forbid: set<Byte>, how: How)
    ensures (forall s :: NothingForbidden(s, forbid, how)) <==> EscapesAllowed(forbid, how)
  {
    if EscapesAllowed(forbid, how) {
      forall s, x | x in Out(s, forbid, how) ensures x !in forbid {
        var c := ComesFrom(s, forbid, how, x);
        if x in forbid { OneComesOut(c, forbid, how, x); }
      }
    } else {
      var c: Byte, x: Byte :| MustEscape(c, forbid, how) && x in Escape(c, how) && x in forbid;
      var s: seq<Byte> := [c];
      assert s[1..] == [] && Out(s, forbid, how) == Escape(c, how) + [];
      assert x in Out(s, forbid, how) && !NothingForbidden(s, forbid, how);
    }
  }

  /** Forbidding the digit nought keeps nothing out: the null byte becomes an escape with two of them. */
  lemma ForbiddenComesOut(how: How)
    ensures var nought: Byte := '0' as int; nought in Out([0], {nought}, how)
  {
    var nought: Byte := '0' as int;
    assert [0][1..] == [] && Out([0], {nought}, how) == Escape(0, how) + [];
    assert HexChar(0) == nought;
  }

  // ---------- coming in ----------

  /** A character of the text, which is followed by a null byte. */
  function At(txt: seq<Byte>, i: nat): Byte {
    if i < |txt| then txt[i] else 0
  }

  function FromHex(c: Byte): (v: nat)
    requires IsHex(c)
    ensures v < 16
  {
    if IsDigit(c) then c - '0' as int else c % 16 + 9
  }

  predicate HexPair(txt: seq<Byte>, i: nat) {
    IsHex(At(txt, i)) && IsHex(At(txt, i + 1))
  }

  function PairValue(txt: seq<Byte>, i: nat): Byte
    requires HexPair(txt, i)
  {
    FromHex(At(txt, i)) * 16 + FromHex(At(txt, i + 1))
  }

  /** What the start of the text stands for, and how much of it that is. */
  datatype Token = Token(c: Byte, n: nat)

  predicate HexStyle(c: Byte, how: How) {
    (c == PERCENT && how.percent) || (c == PLUS && how.plus) || (c == EQUAL && how.equal)
  }

  function Octal(txt: seq<Byte>): (t: Token)
    requires IsOctal(At(txt, 1))
    ensures 2 <= t.n <= |txt|
  {
    var d1 := At(txt, 1) - '0' as int;
    if !IsOctal(At(txt, 2)) then Token(d1, 2) else
    var d2 := d1 * 8 + (At(txt, 2) - '0' as int);
    if !IsOctal(At(txt, 3)) then Token(d2, 3) else
    Token((d2 * 8 + (At(txt, 3) - '0' as int)) % 256, 4)
  }

  function Backslash(txt: seq<Byte>): (t: Token)
    requires txt != []
    ensures 1 <= t.n <= |txt|
  {
    var d := At(txt, 1);
    if d == 'a' as int then Token(7, 2)
    else if d == 'b' as int then Token(8, 2)
    else if d == 'n' as int then Token(10, 2)
    else if d == 'f' as int then Token(12, 2)
    else if d == 'r' as int then Token(13, 2)
    else if d == 'v' as int then Token(11, 2)
    else if d == BSLASH || d == '\'' as int || d == '"' as int then Token(d, 2)
    else if d == LOWX then (if HexPair(txt, 2) then Token(PairValue(txt, 2), 4) else Token(LOWX, 2))
    else if IsOctal(d) then Octal(txt)
    else Token(BSLASH, 1)
  }

  /** What follows a backslash, and what the two are read as. */
  lemma BackslashIs(txt: seq<Byte>)
    requires |txt| >= 2 && txt[0] == BSLASH
    ensures var d := txt[1];
      && (d == 'a' as int ==> Backslash(txt) == Token(7, 2)) && (d == 'b' as int ==> Backslash(txt) == Token(8, 2))
      && (d == 'n' as int ==> Backslash(txt) == Token(10, 2)) && (d == 'v' as int ==> Backslash(txt) == Token(11, 2))
      && (d == 'f' as int ==> Backslash(txt) == Token(12, 2)) && (d == 'r' as int ==> Backslash(txt) == Token(13, 2))
      && (d in [92, 39, 34] ==> Backslash(txt) == Token(d, 2))
      && (d !in [97, 98, 110, 118, 102, 114, 92, 39, 34, 120] && !(48 <= d <= 55) ==> Backslash(txt) == Token(92, 1))
    ensures txt[1] == 'x' as int && |txt| >= 4 && IsHex(txt[2]) && IsHex(txt[3]) ==>
      Backslash(txt) == Token(16 * FromHex(txt[2]) + FromHex(txt[3]), 4)
    ensures txt[1] == 'x' as int && !(|txt| >= 4 && IsHex(txt[2]) && IsHex(txt[3])) ==>
      Backslash(txt) == Token('x' as int, 2)
  {
  }

  /** Up to three octal digits are read, and their value is taken modulo 256. */
  lemma OctalIs(txt: seq<Byte>, n: nat)
    requires 1 <= n <= 3 && |txt| >= n + 1 && txt[0] == BSLASH
    requires (forall i :: 1 <= i <= n ==> 48 <= txt[i] <= 55) && (n < 3 ==> !(48 <= At(txt, n + 1) <= 55))
    ensures Backslash(txt).n == n + 1
    ensures var a: int, b: int, c: int := txt[1] - 48, At(txt, 2) - 48, At(txt, 3) - 48;
      var value: int := if n == 1 then a else if n == 2 then 8 * a + b else (64 * a + 8 * b + c) % 256;
      Backslash(txt).c == value
  {
    assert 48 <= txt[1] <= 55;
    if n >= 2 { assert 48 <= txt[2] <= 55; }
    if n >= 3 { assert 48 <= txt[3] <= 55; }
  }

  /** Hexadecimal digits may be in either case. */
  lemma HexDigits(c: Byte)
    requires IsHex(c)
    ensures FromHex(c) == if c <= 57 then c - 48 else if c <= 70 then c - 65 + 10 else c - 97 + 10
    ensures 48 <= c <= 57 || 65 <= c <= 70 || 97 <= c <= 102
  {
  }

  /** How far a name goes: up to a semicolon, the end, or 31 characters. */
  function NameLength(txt: seq<Byte>, m: nat): (r: nat)
    requires m <= 31
    ensures m <= r <= 31 && (r < 31 ==> At(txt, 1 + r) == 0 || At(txt, 1 + r) == SEMI)
    decreases 31 - m
  {
    if m == 31 || At(txt, 1 + m) == 0 || At(txt, 1 + m) == SEMI then m else NameLength(txt, m + 1)
  }

  function Ampersand(txt: seq<Byte>): (t: Token)
    requires txt != []
    ensures 1 <= t.n <= |txt|
  {
    var m := NameLength(txt, 0);
    if At(txt, 1 + m) != SEMI then Token(AMPER, 1) else
    var name := txt[1..1 + m];
    Token(Named(name), m + 2)
  }

  const GT: seq<Byte> := ['g' as int, 't' as int]
  const LT: seq<Byte> := ['l' as int, 't' as int]
  const AMP: seq<Byte> := ['a' as int, 'm' as int, 'p' as int]

  /** The character written for a name; one that matches nothing leaves the ampersand in place. */
  function Named(name: seq<Byte>): Byte {
    if name == AMP then AMPER else if name == GT then '>' as int else if name == LT then '<' as int else AMPER
  }

  function First(txt: seq<Byte>, how: How): (t: Token)
    requires txt != []
    ensures 1 <= t.n <= |txt|
  {
    var c := txt[0];
    if HexStyle(c, how) && HexPair(txt, 1) then Token(PairValue(txt, 1), 3)
    else if c == BSLASH && how.bslash then Backslash(txt)
    else if c == AMPER && how.amper then Ampersand(txt)
    else Token(c, 1)
  }

  /** At most `room` characters, up to the null byte or the stop character. */
  function InFrom(txt: seq<Byte>, room: nat, stop: Byte, how: How): (r: seq<Byte>)
    ensures |r| <= room
    decreases |txt|
  {
    if txt == [] || txt[0] == 0 || txt[0] == stop || room == 0 then [] else
    var t := First(txt, how);
    [t.c] + InFrom(txt[t.n..], room - 1, stop, how)
  }

  /** One place is for the null byte; counted down before it is compared, a size of nought is no limit. */
  function Room(olen: nat): nat {
    if olen == 0 then 0xffff_ffff_ffff_ffff else olen - 1
  }

  function In(txt: seq<Byte>, olen: nat, stop: Byte, how: How): seq<Byte> {
    InFrom(txt, Room(olen), stop, how)
  }

  /** The characters and the null byte fit in the buffer, unless there is no buffer. */
  lemma FitsExactly(olen: nat)
    ensures (forall txt, stop, how :: |In(txt, olen, stop, how)| + 1 <= olen) <==> olen >= 1
  {
    if olen == 0 {
      var how := How(false, false, false, false, false, false, false);
      assert |In([], olen, 0, how)| + 1 > olen;
    }
  }

  /** A hexadecimal escape of a style asked for is one character; not asked for, or without two digits, it stays. */
  lemma HexRead(txt: seq<Byte>, how: How)
    requires txt != []
    ensures var c := txt[0];
      var style := (c == 37 && how.percent) || (c == 43 && how.plus) || (c == 61 && how.equal);
      && (style && |txt| >= 3 && IsHex(txt[1]) && IsHex(txt[2]) ==>
            First(txt, how) == Token(16 * FromHex(txt[1]) + FromHex(txt[2]), 3))
      && (!(style && |txt| >= 3 && IsHex(txt[1]) && IsHex(txt[2])) && c !in [92, 38] ==> First(txt, how) == Token(c, 1))
      && ((c == 92 && !how.bslash) || (c == 38 && !how.amper) ==> First(txt, how) == Token(c, 1))
      && (c == 92 && how.bslash ==> First(txt, how) == Backslash(txt))
  {
  }

  /** Reading stops at a null byte, at the stop character, and when the room is used up; else a token comes in. */
  lemma InOneAtATime(txt: seq<Byte>, room: nat, stop: Byte, how: How)
    ensures InFrom(txt, room, stop, how) == [] <==> txt == [] || txt[0] == 0 || txt[0] == stop || room == 0
  {
  }

  // ---------- named characters ----------

  /** The name of an escape: short enough, and without what ends it. */
  ghost predicate IsName(name: seq<Byte>) {
    |name| <= 31 && forall i :: 0 <= i < |name| ==> name[i] != 0 && name[i] != SEMI
  }

  lemma {:induction false} NameLengthIs(txt: seq<Byte>, m: nat, len: nat)
    requires m <= len <= 31 && At(txt, 1 + len) == SEMI
    requires forall j :: m < j <= len ==> At(txt, j) != 0 && At(txt, j) != SEMI
    ensures NameLength(txt, m) == len
    decreases len - m
  {
    if m < len { NameLengthIs(txt, m + 1, len); }
  }

  /** Every name, known or not, is read as one character. */
  lemma NameRead(name: seq<Byte>, rest: seq<Byte>, how: How)
    requires how.amper && IsName(name)
    ensures First([AMPER] + name + [SEMI] + rest, how) == Token(Named(name), |name| + 2)
  {
    var txt := [AMPER] + name + [SEMI] + rest;
    forall j | 0 < j <= |name| ensures At(txt, j) == name[j - 1] {
    }
    NameLengthIs(txt, 0, |name|);
    assert txt[1..1 + |name|] == name;
  }

  /** What is documented: three names stand for characters, all others are tossed. */
  function Documented(name: seq<Byte>): seq<Byte> {
    if name == AMP then [AMPER] else if name == GT then ['>' as int] else if name == LT then ['<' as int] else []
  }

  /** Of a name and the text behind it nothing is lost but the name, and one character comes out for it. */
  lemma NameComesIn(name: seq<Byte>, rest: seq<Byte>, room: nat, stop: Byte, how: How)
    requires how.amper && IsName(name) && stop != AMPER
    ensures InFrom([AMPER] + name + [SEMI] + rest, room + 1, stop, how) == [Named(name)] + InFrom(rest, room, stop, how)
  {
    var txt := [AMPER] + name + [SEMI] + rest;
    NameRead(name, rest, how);
    assert txt[|name| + 2..] == rest;
  }

  /** Without a semicolon within 31 characters and before the end, the ampersand stands for itself. */
  lemma NoName(txt: seq<Byte>, how: How)
    requires txt != [] && txt[0] == AMPER && how.amper
    requires forall j :: 0 < j <= 32 && At(txt, j) == SEMI ==> exists i :: 0 < i < j && At(txt, i) == 0
    ensures First(txt, how) == Token(AMPER, 1)
  {
    var m := NameLength(txt, 0);
    NoEndBefore(txt, 0);
    assert At(txt, 1 + m) != SEMI;
  }

  lemma {:induction false} NoEndBefore(txt: seq<Byte>, m: nat)
    requires m <= 31
    ensures forall j :: m < j <= NameLength(txt, m) ==> At(txt, j) != 0 && At(txt, j) != SEMI
    decreases 31 - m
  {
    if m < 31 && At(txt, 1 + m) != 0 && At(txt, 1 + m) != SEMI { NoEndBefore(txt, m + 1); }
  }

  /** The code does what is documented if and only if the name is one of the three. */
  lemma NamesExact(name: seq<Byte>, rest: seq<Byte>, how: How)
    requires how.amper && IsName(name)
    ensures [First([AMPER] + name + [SEMI] + rest, how).c] == Documented(name) <==> name in [AMP, GT, LT]
  {
    NameRead(name, rest, how);
  }

  /** The escape `&nbsp;` is documented to disappear, and is read as an ampersand. */
  lemma UnknownNameStays(room: nat, how: How)
    requires how.amper
    ensures var nbsp: seq<Byte> := ['n' as int, 'b' as int, 's' as int, 'p' as int];
            Documented(nbsp) == [] && InFrom([AMPER] + nbsp + [SEMI], room + 1, 0, how) == [AMPER]
  {
    var nbsp: seq<Byte> := ['n' as int, 'b' as int, 's' as int, 'p' as int];
    NameComesIn(nbsp, [], room, 0, how);
    assert [AMPER] + nbsp + [SEMI] + [] == [AMPER] + nbsp + [SEMI];
  }

  // ---------- when coming in undoes going out ----------

  /** The escape is understood, and no other character that is passed through can be taken for one, nor for the end. */
  predicate Safe(forbid: set<Byte>, stop: Byte, how: How) {
    && (how.percent || how.bslash || how.equal || how.plus)
    && MustEscape(stop, forbid, how) && stop != EscapeChar(how)
    && (forall a: Byte :: HexStyle(a, how) && !MustEscape(a, forbid, how) ==> forall h: Byte :: IsHex(h) ==>
      MustEscape(h, forbid, how))
    && (how.bslash ==> MustEscape(BSLASH, forbid, how))
    && (how.amper ==> MustEscape(AMPER, forbid, how) || MustEscape(SEMI, forbid, how))
  }

  lemma HexBack(v: nat)
    requires v < 16
    ensures IsHex(HexChar(v)) && FromHex(HexChar(v)) == v
  {
  }

  /** An escape is read as the character it was written for. */
  lemma EscapeRead(c: Byte, rest: seq<Byte>, how: How)
    requires how.percent || how.bslash || how.equal || how.plus
    ensures First(Escape(c, how) + rest, how) == Token(c, |Escape(c, how)|)
  {
    HexBack(c / 16);
    HexBack(c % 16);
    var txt := Escape(c, how) + rest;
    var at := if EscapeChar(how) == BSLASH then 2 else 1;
    assert At(txt, at) == HexChar(c / 16) && At(txt, at + 1) == HexChar(c % 16);
  }

  /** What comes out starts with an escape or with a character that is passed through. */
  lemma {:induction false} OutStarts(s: seq<Byte>, forbid: set<Byte>, how: How)
    ensures var c := At(Out(s, forbid, how), 0); c == 0 || c == EscapeChar(how) || !MustEscape(c, forbid, how)
  {
  }

  lemma {:induction false} NoSemicolon(s: seq<Byte>, forbid: set<Byte>, how: How)
    requires MustEscape(SEMI, forbid, how)
    ensures SEMI !in Out(s, forbid, how)
  {
    if s != [] { NoSemicolon(s[1..], forbid, how); }
  }

  /** A character that is passed through is read as itself. */
  lemma {:induction false} PlainRead(c: Byte, s: seq<Byte>, forbid: set<Byte>, stop: Byte, how: How)
    requires Safe(forbid, stop, how) && !MustEscape(c, forbid, how)
    ensures First([c] + Out(s, forbid, how), how) == Token(c, 1)
  {
    var txt := [c] + Out(s, forbid, how);
    if HexStyle(c, how) {
      OutStarts(s, forbid, how);
      assert At(txt, 1) == At(Out(s, forbid, how), 0);
    } else if c == AMPER && how.amper {
      NoSemicolon(s, forbid, how);
      assert At(txt, 1 + NameLength(txt, 0)) != SEMI;
    }
  }

  /** One character comes in for its text `one`, and then what follows. */
  lemma {:induction false} InOne(one: seq<Byte>, rest: seq<Byte>, room: nat, stop: Byte, how: How, c: Byte)
    requires one != [] && one[0] != 0 && one[0] != stop && First(one + rest, how) == Token(c, |one|)
    ensures InFrom(one + rest, room + 1, stop, how) == [c] + InFrom(rest, room, stop, how)
  {
    assert (one + rest)[|one|..] == rest;
  }

  /** The text of a character is read as that character. */
  lemma {:induction false} OneBack(c: Byte, s: seq<Byte>, forbid: set<Byte>, stop: Byte, how: How)
    requires Safe(forbid, stop, how)
    ensures var one := OutOne(c, forbid, how);
            && one[0] != 0 && one[0] != stop && First(one + Out(s, forbid, how), how) == Token(c, |one|)
  {
    if MustEscape(c, forbid, how) {
      EscapeRead(c, Out(s, forbid, how), how);
    } else {
      PlainRead(c, s, forbid, stop, how);
    }
  }

  /** What is read from the text of `s` from its `j`-th character on. */
  function From(s: seq<Byte>, j: nat, room: nat, forbid: set<Byte>, stop: Byte, how: How): seq<Byte>
    requires j <= |s| && j <= room
  {
    InFrom(Out(s[j..], forbid, how), room - j, stop, how)
  }

  lemma {:induction false} NextBack(s: seq<Byte>, j: nat, room: nat, forbid: set<Byte>, stop: Byte, how: How)
    requires Safe(forbid, stop, how) && j < |s| && j < room
    ensures From(s, j, room, forbid, stop, how) == [s[j]] + From(s, j + 1, room, forbid, stop, how)
  {
    var c, rest := s[j], s[j + 1..];
    assert s[j..][1..] == rest;
    OneBack(c, rest, forbid, stop, how);
    InOne(OutOne(c, forbid, how), Out(rest, forbid, how), room - j - 1, stop, how, c);
  }

  /** One element at a time, all of them. */
  lemma {:induction false} Unrolled(parts: seq<seq<Byte>>, s: seq<Byte>, j: nat)
    requires |parts| == |s| + 1 && parts[|s|] == [] && j <= |s|
    requires forall i :: 0 <= i < |s| ==> parts[i] == [s[i]] + parts[i + 1]
    ensures parts[j] == s[j..]
    decreases |s| - j
  {
    if j < |s| { Unrolled(parts, s, j + 1); }
  }

  lemma {:induction false} ReadBack(s: seq<Byte>, room: nat, forbid: set<Byte>, stop: Byte, how: How)
    requires Safe(forbid, stop, how)
    ensures InFrom(Out(s, forbid, how), room, stop, how) == s[..if |s| < room then |s| else room]
  {
    var n := if |s| < room then |s| else room;
    var parts := seq(n + 1, j requires 0 <= j <= n => From(s, j, room, forbid, stop, how));
    forall i | 0 <= i < n ensures parts[i] == [s[i]] + parts[i + 1] { NextBack(s, i, room, forbid, stop, how); }
    assert s[0..] == s && s[..n][0..] == s[..n];
    Unrolled(parts, s[..n], 0);
  }

  /** Two or three characters that are read as one do not come back. */
  lemma {:induction false} Swallowed(s: seq<Byte>, stop: Byte, how: How)
    requires 2 <= |s| <= 3 && First(s, how).n == |s|
    ensures InFrom(s, 3, stop, how) != s
  {
    assert s[|s|..] == [];
  }

  /** Unless it is safe, some string of at most three characters does not survive. */
  lemma Unsafe(forbid: set<Byte>, stop: Byte, how: How) returns (s: seq<Byte>)
    requires !Safe(forbid, stop, how)
    ensures |s| <= 3 && InFrom(Out(s, forbid, how), 3, stop, how) != s
  {
    var esc := EscapeChar(how);
    if !(how.percent || how.bslash || how.equal || how.plus) {
      s := [0];
      assert Out(s, forbid, how)[0] == esc;
    } else if stop == esc || !MustEscape(stop, forbid, how) {
      s := [stop];
      assert Out(s, forbid, how)[0] == stop;
    } else if how.bslash && !MustEscape(BSLASH, forbid, how) {
      s := [BSLASH, BSLASH];
      OutPlain(s, forbid, how);
      Swallowed(s, stop, how);
    } else if how.amper && !MustEscape(AMPER, forbid, how) && !MustEscape(SEMI, forbid, how) {
      s := [AMPER, SEMI];
      OutPlain(s, forbid, how);
      assert NameLength(s, 0) == 0;
      Swallowed(s, stop, how);
    } else {
      var a: Byte, h: Byte :| HexStyle(a, how) && !MustEscape(a, forbid, how) && IsHex(h) &&
        !MustEscape(h, forbid, how);
      s := [a, h, h];
      OutPlain(s, forbid, how);
      Swallowed(s, stop, how);
    }
  }

  lemma {:induction false} OutPlain(s: seq<Byte>, forbid: set<Byte>, how: How)
    requires forall i :: 0 <= i < |s| ==> !MustEscape(s[i], forbid, how)
    ensures Out(s, forbid, how) == s
  {
    if s != [] { OutPlain(s[1..], forbid, how); }
  }

  /** Every string survives going out and coming in, as far as the buffer goes, exactly when it is safe. */
  lemma RoundTripExact(forbid: set<Byte>, stop: Byte, how: How)
    ensures (forall s, olen: nat {:trigger Survives(s, olen, forbid, stop, how)} :: olen >= 1 ==>
      Survives(s, olen, forbid, stop, how))
            <==> Safe(forbid, stop, how)
  {
    if Safe(forbid, stop, how) {
      forall s, olen: nat | olen >= 1 ensures Survives(s, olen, forbid, stop, how) {
        ReadBack(s, olen - 1, forbid, stop, how);
      }
    } else {
      var s := Unsafe(forbid, stop, how);
      assert s[..|s|] == s;
      assert !Survives(s, 4, forbid, stop, how);
    }
  }

  predicate Survives(s: seq<Byte>, olen: nat, forbid: set<Byte>, stop: Byte, how: How)
    requires olen >= 1
  {
    In(Out(s, forbid, how), olen, stop, how) == s[..if |s| < olen - 1 then |s| else olen - 1]
  }

  /** With one style for both ways and no stop character it is safe, whatever is forbidden. */
  lemma OneStyleSafe(how: How, forbid: set<Byte>)
    requires (if how.percent then 1 else 0) + (if how.bslash then 1 else 0) + (if how.equal then 1 else 0) +
      (if how.plus then 1 else 0) == 1
    requires !how.amper
    ensures Safe(forbid, 0, how)
  {
  }

  // ---------- the code ----------

  lemma {:induction false} OutStep(s: seq<Byte>, i: nat, forbid: set<Byte>, how: How)
    requires i < |s|
    ensures Out(s[i..], forbid, how) == OutOne(s[i], forbid, how) + Out(s[i + 1..], forbid, how)
  {
    assert s[i..][1..] == s[i + 1..];
  }

  lemma InStep(out: seq<Byte>, txt: seq<Byte>, room: nat, stop: Byte, how: How)
    requires txt != [] && txt[0] != 0 && txt[0] != stop && room > 0
    ensures var t := First(txt, how);
            out + InFrom(txt, room, stop, how) == out + [t.c] + InFrom(txt[t.n..], room - 1, stop, how)
  {
    var t := First(txt, how);
    Regroup(out, [t.c], InFrom(txt[t.n..], room - 1, stop, how));
  }

  /** What is written for one character, and how much. */
  method PutOne(c: Byte, forbid: set<Byte>, how: How) returns (one: seq<Byte>, n: nat)
    ensures one == OutOne(c, forbid, how) && n == |one|
  {
    if MustEscape(c, forbid, how) {
      one := [EscapeChar(how)];
      if EscapeChar(how) == BSLASH { one := one + [LOWX]; }
      one := one + [HexChar(c / 16), HexChar(c % 16)];
      n := 3 + (if EscapeChar(how) == BSLASH then 1 else 0);
    } else {
      one, n := [c], 1;
    }
  }

  /** ep_xlate_out: the text and the count that is returned. */
  method XlateOut(s: seq<Byte>, forbid: set<Byte>, how: How) returns (out: seq<Byte>, osize: nat)
    ensures out == Out(s, forbid, how) && osize == |out|
    ensures forall x :: x in out ==> x != 0 && (how.eightBit ==> x < 128) && (how.nprint ==> IsPrint(x))
  {
    forall x | x in Out(s, forbid, how)
      ensures x != 0 && (how.eightBit ==> x < 128) && (how.nprint ==> IsPrint(x))
    {
      NothingRaw(s, forbid, how, x);
    }
    out, osize := [], 0;
    assert s[0..] == s;
    for i := 0 to |s|
      invariant out + Out(s[i..], forbid, how) == Out(s, forbid, how) && osize == |out|
    {
      var one, n := PutOne(s[i], forbid, how);
      OutStep(s, i, forbid, how);
      Regroup(out, one, Out(s[i + 1..], forbid, how));
      out, osize := out + one, osize + n;
    }
    assert s[|s|..] == [] && out + [] == out;
  }

  /** ep_xlate_in: the bytes before the null byte that ends them. */
  method XlateIn(txt: seq<Byte>, olen: nat, stop: Byte, how: How) returns (out: seq<Byte>)
    ensures out == In(txt, olen, stop, how)
  {
    out := [];
    var rest, ol := txt, Room(olen);
    while rest != [] && rest[0] != 0 && rest[0] != stop && ol > 0
      invariant out + InFrom(rest, ol, stop, how) == In(txt, olen, stop, how)
      decreases |rest|
    {
      InStep(out, rest, ol, stop, how);
      var t := First(rest, how);
      out, rest, ol := out + [t.c], rest[t.n..], ol - 1;
    }
    assert out + [] == out;
  }
}
