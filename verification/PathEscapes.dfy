/** What the check of public paths comes to, told from the bytes of a path: escapes written out, characters in UTF-8,
    and which segments climb. */
module PathEscapes {
  import opened Common
  import opened PublicPath

  // ---------------------------------------------------------------- writing escapes

  const UPPER := "0123456789ABCDEF"
  const LOWER := "0123456789abcdef"

  type Nibble = n: int | 0 <= n < 16

  function Digit(n: Nibble, upper: bool): (b: Byte) {
    var b := (if upper then UPPER else LOWER)[n] as int;
    assert UPPER[n] as int < 128 && LOWER[n] as int < 128;
    b
  }

  predicate IsDigit(b: Byte) { exists n: Nibble, upper: bool :: b == Digit(n, upper) }

  /** A byte as a percent sign and two digits, each in either case. */
  function Escape(b: Byte, first: bool, second: bool): Path { [PERCENT, Digit(b / 16, first), Digit(b % 16, second)] }

  /** `raw` spells `p`: every byte is itself, or an escape; a percent sign is always one. */
  ghost predicate Spells(raw: Path, p: Path)
    decreases |p|
  {
    if p == [] then raw == []
    else
      || (raw != [] && raw[0] == p[0] != PERCENT && Spells(raw[1..], p[1..]))
      || (|raw| >= 3 && (exists x, y :: raw[..3] == Escape(p[0], x, y)) && Spells(raw[3..], p[1..]))
  }

  lemma {:induction false} DigitIsHex(n: Nibble, upper: bool)
    ensures IsHex(Digit(n, upper)) && HexValue(Digit(n, upper)) == n
  {
  }

  /** For each byte, and either case of each digit. */
  lemma {:induction false} EscapeReadsBack(b: Byte, x: bool, y: bool, rest: Path)
    ensures Decode(Escape(b, x, y) + rest) == [b] + Decode(rest)
  {
    hide HexValue, IsHex, Digit;
    DigitIsHex(b / 16, x);
    DigitIsHex(b % 16, y);
    var p := Escape(b, x, y) + rest;
    assert p[0] == PERCENT && p[1] == Digit(b / 16, x) && p[2] == Digit(b % 16, y) && p[3..] == rest;
  }

  /** What spells a path decodes to it, whatever comes after. */
  lemma {:induction false} SpellingReadsBack(raw: Path, p: Path, rest: Path)
    requires Spells(raw, p)
    ensures Decode(raw + rest) == p + Decode(rest)
    decreases |p|
  {
    hide Escape, Decode;
    if p == [] {
      assert raw + rest == rest && p + Decode(rest) == Decode(rest);
    } else {
      var n := if raw != [] && raw[0] == p[0] != PERCENT && Spells(raw[1..], p[1..]) then 1 else 3;
      var more := raw[n..] + rest;
      SpellingReadsBack(raw[n..], p[1..], rest);
      assert raw + rest == raw[..n] + more;
      if n == 1 {
        PlainReadsBack(p[0], more);
        assert raw[..1] == [p[0]];
      } else {
        var x, y :| raw[..3] == Escape(p[0], x, y);
        EscapeReadsBack(p[0], x, y, more);
      }
      assert [p[0]] + (p[1..] + Decode(rest)) == p + Decode(rest);
    }
  }

  lemma {:induction false} PlainReadsBack(b: Byte, rest: Path)
    requires b != PERCENT
    ensures Decode([b] + rest) == [b] + Decode(rest)
  {
    hide IsHex, HexValue;
    assert ([b] + rest)[1..] == rest;
  }

  function EscapeAll(p: Path): Path { if p == [] then [] else Escape(p[0], true, true) + EscapeAll(p[1..]) }

  lemma {:induction false} EscapeAllReadsBack(p: Path)
    ensures Decode(EscapeAll(p)) == p
  {
    if p != [] {
      EscapeAllReadsBack(p[1..]);
      EscapeReadsBack(p[0], true, true, EscapeAll(p[1..]));
      hide Decode, Escape;
    }
  }

  /** An escape starts at `i`. */
  predicate EscapeAt(p: Path, i: int)
      { 0 <= i && i + 2 < |p| && p[i] == PERCENT && IsDigit(p[i + 1]) && IsDigit(p[i + 2]) }

  lemma {:induction false} HexIsDigit(b: Byte)
    ensures IsHex(b) <==> IsDigit(b)
  {
    if IsHex(b) {
      DigitOf(HexValue(b));
      assert b == Digit(HexValue(b), b < 0x60);
    }
    if IsDigit(b) {
      var n: Nibble, upper: bool :| b == Digit(n, upper);
      DigitIsHex(n, upper);
    }
  }

  lemma {:induction false} DigitOf(n: Nibble)
    ensures UPPER[n] as int == if n < 10 then 0x30 + n else 0x41 + n - 10
    ensures LOWER[n] as int == if n < 10 then 0x30 + n else 0x61 + n - 10
  {
  }

  /** A path is its own decoding exactly when there is no escape in it: nothing else is ever changed. */
  lemma {:induction false} UnchangedExactly(p: Path)
    ensures Decode(p) == p <==> forall i :: !EscapeAt(p, i)
  {
    hide IsHex, HexValue, IsDigit;
    if p != [] {
      if |p| >= 3 {
        HexIsDigit(p[1]);
        HexIsDigit(p[2]);
      }
      if Escaped(p) {
        assert EscapeAt(p, 0);
        DecodingShrinks(p[3..]);
      } else {
        UnchangedExactly(p[1..]);
        assert p == [p[0]] + p[1..];
        assert forall i :: i > 0 ==> (EscapeAt(p, i) <==> EscapeAt(p[1..], i - 1));
        assert !EscapeAt(p, 0);
        if i :| EscapeAt(p[1..], i) { assert EscapeAt(p, i + 1); }
      }
    }
  }

  lemma {:induction false} DecodeUnfolds(p: Path)
    requires p != []
    ensures Escaped(p) ==> |p| >= 3 && Decode(p) == Decode(p[..3]) + Decode(p[3..])
    ensures !Escaped(p) ==> Decode(p) == [p[0]] + Decode(p[1..])
  {
    hide IsHex, HexValue;
    if Escaped(p) {
      var e := p[..3];
      assert e[0] == p[0] && e[1] == p[1] && e[2] == p[2] && e[3..] == [];
    }
  }

  /** Whether an escape starts a path does not depend on what follows, if that starts with no digit. */
  lemma {:induction false} SameStart(a: Path, rest: Path)
    requires a != [] && (rest != [] ==> !IsHex(rest[0]))
    ensures var p := a + rest;
      && p != [] && (Escaped(p) <==> Escaped(a)) && p[0] == a[0] && p[1..] == a[1..] + rest
      && (Escaped(a) ==> |a| >= 3 && p[..3] == a[..3] && p[3..] == a[3..] + rest)
  {
    hide IsHex;
    var p := a + rest;
    if |a| == 2 && |p| >= 3 { assert p[2] == rest[0]; }
    if |a| == 1 && |p| >= 3 { assert p[1] == rest[0]; }
    if |a| >= 3 { assert p[1] == a[1] && p[2] == a[2]; }
  }

  /** No escape reaches across a byte that is no digit. */
  lemma {:induction false} DecodeJoins(a: Path, rest: Path)
    requires rest != [] ==> !IsHex(rest[0])
    ensures Decode(a + rest) == Decode(a) + Decode(rest)
  {
    hide IsHex, Decode, Escaped;
    if a == [] {
      assert a + rest == rest;
      DecodeNothing();
      assert Decode(a) + Decode(rest) == Decode(rest);
    } else {
      SameStart(a, rest);
      DecodeUnfolds(a);
      DecodeUnfolds(a + rest);
      if Escaped(a) {
        DecodeJoins(a[3..], rest);
        assert Decode(a[..3]) + (Decode(a[3..]) + Decode(rest)) == Decode(a) + Decode(rest);
      } else {
        DecodeJoins(a[1..], rest);
        assert [a[0]] + (Decode(a[1..]) + Decode(rest)) == Decode(a) + Decode(rest);
      }
    }
  }

  lemma {:induction false} DecodeNothing()
    ensures Decode([]) == []
  {
  }

  // ---------------------------------------------------------------- segments that climb

  /** Dots of a segment with nothing, a slash or matrix parameters after them. */
  predicate EndsSegment(tail: Path) { tail == [] || tail[0] == SLASH || tail[0] == SEMICOLON }

  ghost predicate ClimbsAt(p: Path, a: Path, dots: Path, tail: Path) {
    p == a + [SLASH] + dots + tail && (dots == [DOT] || dots == [DOT, DOT]) && EndsSegment(tail)
  }

  ghost predicate ClimbsUp(p: Path) { exists a, dots, tail :: ClimbsAt(p, a, dots, tail) }

  /** The same with the slash, the dots and what ends the segment spelled in any way. */
  ghost predicate SpelledClimb(raw: Path, a: Path, slash: Path, dots: Path, end: Path, rest: Path) {
    && raw == a + (slash + (dots + (end + rest)))
    && Spells(slash, [SLASH]) && (Spells(dots, [DOT]) || Spells(dots, [DOT, DOT]))
    && ((end == [] && rest == []) || Spells(end, [SLASH]) || Spells(end, [SEMICOLON]))
  }

  lemma {:induction false} StartsNoDigit(slash: Path)
    requires Spells(slash, [SLASH])
    ensures slash != [] && !IsHex(slash[0])
  {
    hide Digit;
  }

  lemma {:induction false} SpelledClimbClimbs(raw: Path, a: Path, slash: Path, dots: Path, end: Path, rest: Path)
    requires SpelledClimb(raw, a, slash, dots, end, rest)
    ensures ClimbsUp(Decode(raw))
  {
    hide Spells, Decode, IsHex;
    var plain: Path := if Spells(dots, [DOT]) then [DOT] else [DOT, DOT];
    var tail := Decode(end + rest);
    assert EndsSegment(tail) by {
      if end == [] && rest == [] {
        assert end + rest == [];
        DecodeNothing();
      } else if Spells(end, [SLASH]) {
        SpellingReadsBack(end, [SLASH], rest);
      } else {
        SpellingReadsBack(end, [SEMICOLON], rest);
      }
    }
    SpellingReadsBack(dots, plain, end + rest);
    SpellingReadsBack(slash, [SLASH], dots + (end + rest));
    StartsNoDigit(slash);
    DecodeJoins(a, slash + (dots + (end + rest)));
    assert Decode(raw) == Decode(a) + ([SLASH] + (plain + tail)) == Decode(a) + [SLASH] + plain + tail;
    assert ClimbsAt(Decode(raw), Decode(a), plain, tail);
  }

  lemma {:induction false} FirstSegment(dots: Path, tail: Path)
    requires (dots == [DOT] || dots == [DOT, DOT]) && EndsSegment(tail)
    ensures Segments(dots + tail) != [] && !Ordinary(Segments(dots + tail)[0])
  {
    var p := dots + tail;
    var i, k := IndexOf(p, SLASH), IndexOf(p[..IndexOf(p, SLASH)], SEMICOLON);
    assert forall j :: 0 <= j < |dots| ==> p[j] == DOT;
    assert i >= |dots|;
    var segment := p[..i];
    assert Segments(p)[0] == segment;
    assert forall j :: 0 <= j < |dots| ==> segment[j] == DOT;
    if tail == [] || tail[0] == SLASH {
      FirstIndex(p, SLASH, |dots|);
      FirstIndex(segment, SEMICOLON, |dots|);
    } else {
      assert p[|dots|] == SEMICOLON;
      assert segment[|dots|] == SEMICOLON;
      FirstIndex(segment, SEMICOLON, |dots|);
    }
    assert segment[..|dots|] == dots;
  }

  lemma {:induction false} ClimbIsAmbiguous(p: Path)
    requires ClimbsUp(p)
    ensures !Unambiguous(p)
  {
    hide Segments, Ordinary;
    var a, dots, tail :| ClimbsAt(p, a, dots, tail);
    assert p == a + [SLASH] + (dots + tail);
    FirstSegment(dots, tail);
    SegmentsSplit(a, dots + tail);
    assert Segments(p)[|Segments(a)|] == Segments(dots + tail)[0];
  }

  function DecodeTimes(raw: Path, n: nat): Path { if n == 0 then raw else Decode(DecodeTimes(raw, n - 1)) }

  function Decodings(n: nat): (r: seq<Rewrite>)
    ensures |r| == n
  {
    seq(n, i => PercentDecode)
  }

  lemma {:induction false} DecodeTimesIs(raw: Path, n: nat)
    ensures ApplyAll(raw, Decodings(n)) == DecodeTimes(raw, n)
    decreases n
  {
    hide Decode;
    if n > 0 {
      assert Decodings(n)[1..] == Decodings(n - 1);
      DecodeTimesIs(Decode(raw), n - 1);
      DecodeFirst(raw, n - 1);
    }
  }

  lemma {:induction false} DecodeFirst(raw: Path, n: nat)
    ensures DecodeTimes(Decode(raw), n) == Decode(DecodeTimes(raw, n))
  {
    hide Decode;
    if n > 0 { DecodeFirst(raw, n - 1); }
  }

  /** No way of writing a segment of one dot or two, plain or escaped in either case, before or after any number of
      decodings, is accepted for an app that is not public as a whole. */
  lemma {:induction false} ClimbIsRefused(prefixes: seq<Path>, raw: Path, n: nat, a: Path, slash: Path, dots: Path,
      end: Path,
                                          rest: Path)
    requires [SLASH] !in prefixes && SpelledClimb(DecodeTimes(raw, n), a, slash, dots, end, rest)
    ensures !Accepted(prefixes, raw)
  {
    hide SpelledClimb, Decode, Accepted, Unambiguous, Public, ClimbsUp;
    SpelledClimbClimbs(DecodeTimes(raw, n), a, slash, dots, end, rest);
    ClimbIsAmbiguous(Decode(DecodeTimes(raw, n)));
    if Accepted(prefixes, raw) {
      AcceptedStaysPublic(prefixes, raw, Decodings(n));
      DecodeTimesIs(raw, n);
      assert false;
    }
  }

  // ---------------------------------------------------------------- paths without escapes

  /** The slashes-free end of a prefix, as its owner wrote it: any number of slashes may follow. */
  ghost predicate Under(prefixes: seq<Path>, p: Path) {
    || p in prefixes
    || exists q, n: nat :: q + Slashes(n) in prefixes && (q == [] || q[|q| - 1] != SLASH) && q + [SLASH] <= p
  }

  function Slashes(n: nat): (s: Path)
    ensures |s| == n && forall i :: 0 <= i < n ==> s[i] == SLASH
  {
    seq(n, i => SLASH)
  }

  lemma {:induction false} StripsSlashes(q: Path, n: nat)
    requires q == [] || q[|q| - 1] != SLASH
    ensures RStripSlashes(q + Slashes(n)) == q
  {
    if n == 0 {
      assert q + Slashes(0) == q;
    } else {
      var p := q + Slashes(n);
      assert p[..|p| - 1] == q + Slashes(n - 1);
      StripsSlashes(q, n - 1);
    }
  }

  lemma {:induction false} SlashesStripped(p: Path) returns (n: nat)
    ensures p == RStripSlashes(p) + Slashes(n)
    ensures var q := RStripSlashes(p); q == [] || q[|q| - 1] != SLASH
  {
    if p != [] && p[|p| - 1] == SLASH {
      n := SlashesStripped(p[..|p| - 1]);
      n := n + 1;
      assert Slashes(n) == Slashes(n - 1) + [SLASH];
      assert p == p[..|p| - 1] + [SLASH];
    } else {
      n := 0;
      assert p == p + Slashes(0);
    }
  }

  lemma {:induction false} PublicExactly(prefixes: seq<Path>, p: Path)
    ensures Public(prefixes, p) <==> Under(prefixes, p)
  {
    hide RStripSlashes;
    if Public(prefixes, p) {
      var i :| 0 <= i < |prefixes| && (p == prefixes[i] || RStripSlashes(prefixes[i]) + [SLASH] <= p);
      var n := SlashesStripped(prefixes[i]);
      if p != prefixes[i] { assert RStripSlashes(prefixes[i]) + Slashes(n) in prefixes; }
    }
    if p !in prefixes && Under(prefixes, p) {
      var q, n: nat :| q + Slashes(n) in prefixes && (q == [] || q[|q| - 1] != SLASH) && q + [SLASH] <= p;
      var i :| 0 <= i < |prefixes| && prefixes[i] == q + Slashes(n);
      StripsSlashes(q, n);
    }
  }

  /** Where segment `i` lies in the path. */
  lemma {:induction false} SegmentAt(p: Path, i: nat) returns (a: Path, tail: Path)
    requires 0 < i < |Segments(p)|
    ensures p == a + [SLASH] + Segments(p)[i] + tail && (tail == [] || tail[0] == SLASH)
  {
    hide Segments, IndexOf;
    SegmentsUnfold(p);
    var k := IndexOf(p, SLASH);
    var first, rest := p[..k], p[k + 1..];
    assert p == first + [SLASH] + rest;
    if i == 1 {
      a := first;
      var segment;
      segment, tail := StartOf(rest);
      assert p == a + [SLASH] + (segment + tail) == a + [SLASH] + segment + tail;
    } else {
      var b;
      b, tail := SegmentAt(rest, i - 1);
      a := first + [SLASH] + b;
      var segment := Segments(rest)[i - 1];
      assert p == first + [SLASH] + (b + [SLASH] + segment + tail) == a + [SLASH] + segment + tail;
    }
  }

  lemma {:induction false} StartOf(p: Path) returns (segment: Path, tail: Path)
    ensures Segments(p) != [] && Segments(p)[0] == segment && p == segment + tail
    ensures tail == [] || tail[0] == SLASH
  {
    hide Segments, IndexOf;
    SegmentsUnfold(p);
    var k := IndexOf(p, SLASH);
    segment, tail := p[..k], p[k..];
    if k == |p| { assert segment == p; }
  }

  lemma {:induction false} OrdinaryExactly(p: Path)
    requires Rooted(p)
    ensures AllOrdinary(p) <==> !ClimbsUp(p)
  {
    hide Segments, Ordinary;
    if a, dots, tail :| ClimbsAt(p, a, dots, tail) {
      assert p == a + [SLASH] + (dots + tail);
      FirstSegment(dots, tail);
      SegmentsSplit(a, dots + tail);
      assert Segments(p)[|Segments(a)|] == Segments(dots + tail)[0];
    }
    if i :| 0 <= i < |Segments(p)| && !Ordinary(Segments(p)[i]) {
      RootIsOrdinary(p);
      var a, tail := SegmentAt(p, i);
      var segment := Segments(p)[i];
      DotsFirst(segment);
      var k := IndexOf(segment, SEMICOLON);
      assert p == a + [SLASH] + segment[..k] + (segment[k..] + tail);
      assert ClimbsAt(p, a, segment[..k], segment[k..] + tail);
    }
  }

  lemma {:induction false} RootIsOrdinary(p: Path)
    requires Rooted(p)
    ensures Segments(p) != [] && Ordinary(Segments(p)[0])
  {
    FirstIndex(p, SLASH, 0);
  }

  lemma {:induction false} DotsFirst(segment: Path)
    requires !Ordinary(segment)
    ensures var k := IndexOf(segment, SEMICOLON);
      (segment[..k] == [DOT] || segment[..k] == [DOT, DOT]) && (k < |segment| ==> segment[k] == SEMICOLON)
  {
  }

  /** A raw path that spells a path without percent signs is accepted exactly when it is ASCII without a hash or a
      question mark, and the path is text, has no control character and no backslash, starts with one slash, has no
      segment that climbs, and is one of the public prefixes or under one. */
  lemma {:induction false} SpelledExactly(prefixes: seq<Path>, raw: Path, p: Path)
    requires [SLASH] !in prefixes && Spells(raw, p) && PERCENT !in p
    ensures Accepted(prefixes, raw) <==>
      && (forall b :: b in raw ==> b < 0x80 && b != HASH && b != QUESTION)
      && (exists text :: EncodeAll(text) == p)
      && (forall b :: b in p ==> 0x20 <= b && b != 0x7F && b != BACKSLASH)
      && [SLASH] <= p && !([SLASH, SLASH] <= p) && !ClimbsUp(p) && Under(prefixes, p)
  {
    hide Public, Under, ClimbsUp, Decode, Utf8, Unambiguous, PlainRaw, Allowed, Rooted, Spells, EncodeAll;
    SpellingReadsBack(raw, p, []);
    DecodeNothing();
    assert raw + [] == raw && p + [] == p;
    NoPercentStays(p);
    PublicExactly(prefixes, p);
    UnambiguousExactly(p);
    AllowedIn(raw, p);
    Utf8Exactly(p);
    if Utf8(p) {
      assert Unquote(raw) == Some(p) && Unquote(p) == Some(p);
      assert Rest(prefixes, p, MAX_CHECKS) <==> Good(prefixes, p);
    }
  }

  lemma {:induction false} UnambiguousExactly(p: Path)
    ensures Unambiguous(p) <==> Rooted(p) && (forall i :: 0 <= i < |p| ==> Allowed(p[i])) && !ClimbsUp(p)
  {
    hide ClimbsUp, AllOrdinary;
    if Rooted(p) { OrdinaryExactly(p); }
  }

  lemma {:induction false} AllowedIn(raw: Path, p: Path)
    ensures PlainRaw(raw) <==> forall b :: b in raw ==> b < 0x80 && b != HASH && b != QUESTION
    ensures (forall i :: 0 <= i < |p| ==> Allowed(p[i])) <==> forall b :: b in p ==>
      0x20 <= b && b != 0x7F && b != BACKSLASH
    ensures Rooted(p) <==> [SLASH] <= p && !([SLASH, SLASH] <= p)
  {
    assert forall i :: 0 <= i < |raw| ==> raw[i] in raw;
    assert forall i :: 0 <= i < |p| ==> p[i] in p;
  }

  lemma {:induction false} NoPercentStays(p: Path)
    requires PERCENT !in p
    ensures Decode(p) == p
  {
    if p != [] {
      NoPercentStays(p[1..]);
      assert p == [p[0]] + p[1..];
    }
  }

  // ---------------------------------------------------------------- characters in UTF-8

  /** What a character may be: no surrogate, nothing past U+10FFFF. */
  type Scalar = n: int | 0 <= n < 0xD800 || 0xE000 <= n < 0x11_0000

  /** Six bits of a character in a byte that continues it. */
  function Six(n: nat): Byte { 0x80 + n % 64 }

  function Encode(c: Scalar): Path {
    if c < 0x80 then [c]
    else if c < 0x800 then [0xC0 + c / 64, Six(c)]
    else if c < 0x1_0000 then [0xE0 + c / 64 / 64, Six(c / 64), Six(c)]
    else [0xF0 + c / 64 / 64 / 64, Six(c / 64 / 64), Six(c / 64), Six(c)]
  }

  function EncodeAll(text: seq<Scalar>): Path { if text == [] then [] else Encode(text[0]) + EncodeAll(text[1..]) }

  lemma {:induction false} EncodedLength(c: Scalar, rest: Path)
    ensures CharLength(Encode(c) + rest) == |Encode(c)|
  {
    var p := Encode(c) + rest;
    assert forall i :: 0 <= i < |Encode(c)| ==> p[i] == Encode(c)[i];
  }

  lemma {:induction false} EncodedIsUtf8(text: seq<Scalar>)
    ensures Utf8(EncodeAll(text))
  {
    hide CharLength, Encode;
    if text != [] {
      var rest := EncodeAll(text[1..]);
      var p := Encode(text[0]) + rest;
      EncodedLength(text[0], rest);
      EncodedIsUtf8(text[1..]);
      assert p[|Encode(text[0])|..] == rest;
      NotEmpty(text[0]);
    }
  }

  lemma {:induction false} NotEmpty(c: Scalar)
    ensures Encode(c) != []
  {
  }

  /** More bits in front of six. */
  function Join(high: nat, b: int): (c: nat)
    requires 0x80 <= b <= 0xBF
    ensures c / 64 == high && 0x80 + c % 64 == b
  {
    high * 64 + (b - 0x80)
  }

  lemma {:induction false} CharacterAt(p: Path) returns (c: Scalar)
    requires CharLength(p) > 0
    ensures Encode(c) == p[..CharLength(p)]
  {
    var n := CharLength(p);
    if n == 1 {
      c := p[0];
    } else {
      assert forall i :: 1 <= i < n ==> Continues(p, i);
      hide Join;
      var lead: int := p[0];
      if n == 2 {
        c := Join(lead - 0xC0, p[1]);
      } else if n == 3 {
        c := Join(Join(lead - 0xE0, p[1]), p[2]);
      } else {
        c := Join(Join(Join(lead - 0xF0, p[1]), p[2]), p[3]);
      }
    }
  }

  /** What may be decoded to a string: exactly the encodings of sequences of characters. */
  lemma {:induction false} Utf8Exactly(p: Path)
    ensures Utf8(p) <==> exists text :: EncodeAll(text) == p
    decreases |p|
  {
    hide CharLength, Encode;
    if Utf8(p) {
      if p == [] {
        assert EncodeAll([]) == p;
      } else {
        var n := CharLength(p);
        var c := CharacterAt(p);
        Utf8Exactly(p[n..]);
        var rest :| EncodeAll(rest) == p[n..];
        assert ([c] + rest)[1..] == rest;
        assert EncodeAll([c] + rest) == p[..n] + p[n..] == p;
      }
    }
    if text :| EncodeAll(text) == p { EncodedIsUtf8(text); }
  }

  // ---------------------------------------------------------------- what removing dot segments does

  /** A segment that is no dots, and the two dots after it, cancel. */
  lemma {:induction false} UpCancels(segment: Path, rest: Path, out: Path)
    requires SLASH !in segment && segment != [DOT] && segment != [DOT, DOT]
    ensures RemoveDots([SLASH] + segment + [SLASH, DOT, DOT, SLASH] + rest, out) == RemoveDots([SLASH] + rest, out)
  {
    hide RemoveDots, WithoutLast, StartsWith, IsDots;
    var up := [SLASH, DOT, DOT, SLASH] + rest;
    var input := [SLASH] + segment + up;
    assert input == [SLASH] + segment + [SLASH, DOT, DOT, SLASH] + rest;
    SegmentMoves(segment, up, out);
    LastGone(out, segment);
    UpStep(rest, out + ([SLASH] + segment));
  }

  lemma {:induction false} UpStep(rest: Path, out: Path)
    ensures RemoveDots([SLASH, DOT, DOT, SLASH] + rest, out) == RemoveDots([SLASH] + rest, WithoutLast(out))
  {
    hide WithoutLast;
    var input := [SLASH, DOT, DOT, SLASH] + rest;
    assert input[3..] == [SLASH] + rest && input[0] == SLASH && input[1] == DOT && input[2] == DOT && input[3] == SLASH;
    assert StartsWith(input, [SLASH, DOT, DOT, SLASH]);
  }

  lemma {:induction false} SegmentMoves(segment: Path, up: Path, out: Path)
    requires SLASH !in segment && segment != [DOT] && segment != [DOT, DOT] && up != [] && up[0] == SLASH
    ensures RemoveDots([SLASH] + segment + up, out) == RemoveDots(up, out + ([SLASH] + segment))
  {
    hide StartsWith;
    var input := [SLASH] + segment + up;
    assert input[1..] == segment + up;
    FirstIndex(segment + up, SLASH, |segment|);
    assert input[..Head(input)] == [SLASH] + segment && input[Head(input)..] == up;
    NoDotsAhead(segment, up, input);
  }

  lemma {:induction false} StartingSegment(input: Path, d: Path)
    requires SLASH !in d
    ensures StartsWith(input, [SLASH] + d + [SLASH]) ==>
      input != [] && IndexOf(input[1..], SLASH) == |d| && input[1..][..|d|] == d
  {
    if StartsWith(input, [SLASH] + d + [SLASH]) {
      var q := [SLASH] + d + [SLASH];
      assert forall i :: 0 <= i < |d| ==> input[1..][i] == q[i + 1] == d[i] && d[i] in d;
      assert input[1..][|d|] == q[|d| + 1] == SLASH;
      FirstIndex(input[1..], SLASH, |d|);
    }
  }

  /** A segment that is no dots starts none of the removals. */
  lemma {:induction false} NoDotsAhead(segment: Path, up: Path, input: Path)
    requires SLASH !in segment && segment != [DOT] && segment != [DOT, DOT]
    requires up != [] && up[0] == SLASH && input == [SLASH] + segment + up
    ensures !StartsWith(input, [DOT, DOT, SLASH]) && !StartsWith(input, [DOT, SLASH]) && !IsDots(input)
    ensures !StartsWith(input, [SLASH, DOT, SLASH]) && !StartsWith(input, [SLASH, DOT, DOT, SLASH])
    ensures input != [SLASH, DOT] && input != [SLASH, DOT, DOT]
  {
    assert input[1..] == segment + up && input[|segment| + 1] == SLASH;
    FirstIndex(input[1..], SLASH, |segment|);
    assert input[1..][..|segment|] == segment;
    StartsOtherwise(input, [DOT, DOT, SLASH]);
    StartsOtherwise(input, [DOT, SLASH]);
    StartingSegment(input, [DOT]);
    StartingSegment(input, [DOT, DOT]);
    assert [SLASH] + [DOT] + [SLASH] == [SLASH, DOT, SLASH];
    assert [SLASH] + [DOT, DOT] + [SLASH] == [SLASH, DOT, DOT, SLASH];
    hide IndexOf, StartsWith;
  }

  lemma {:induction false} StartsOtherwise(input: Path, prefix: Path)
    requires input != [] && prefix != [] && input[0] != prefix[0]
    ensures !StartsWith(input, prefix)
  {
  }

  lemma {:induction false} LastGone(out: Path, segment: Path)
    requires SLASH !in segment
    ensures WithoutLast(out + ([SLASH] + segment)) == out
  {
    var p := out + ([SLASH] + segment);
    if segment == [] {
      assert p[..|p| - 1] == out;
    } else {
      var init := segment[..|segment| - 1];
      assert p[|p| - 1] == segment[|segment| - 1] && segment[|segment| - 1] in segment;
      assert p[..|p| - 1] == out + ([SLASH] + init);
      LastGone(out, init);
    }
  }

  /** There is nothing above the root. */
  lemma {:induction false} UpAtTheRoot(rest: Path)
    ensures RemoveDots([SLASH, DOT, DOT, SLASH] + rest, []) == RemoveDots([SLASH] + rest, [])
  {
    hide RemoveDots;
    UpStep(rest, []);
  }

  lemma {:induction false} HereIsNothing(rest: Path, out: Path)
    ensures RemoveDots([SLASH, DOT, SLASH] + rest, out) == RemoveDots([SLASH] + rest, out)
  {
    var input := [SLASH, DOT, SLASH] + rest;
    assert input[2..] == [SLASH] + rest && input[0] == SLASH && input[1] == DOT && input[2] == SLASH;
  }
}
