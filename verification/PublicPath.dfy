/** Which raw request paths are public: repeated percent-decoding (section 2.1 of RFC 3986) until nothing changes, every
    form on the way being checked. Paths are sequences of bytes, decoded strings in UTF-8 (section 3 of RFC 3629). */
module PublicPath {
  import opened Common

  type Byte = n: int | 0 <= n < 256

  type Path = seq<Byte>

  const PERCENT: Byte := 0x25
  const SLASH: Byte := 0x2F
  const DOT: Byte := 0x2E
  const SEMICOLON: Byte := 0x3B
  const HASH: Byte := 0x23
  const QUESTION: Byte := 0x3F
  const BACKSLASH: Byte := 0x5C

  // ---------------------------------------------------------------- percent-decoding

  predicate IsHex(b: Byte) { 0x30 <= b <= 0x39 || 0x41 <= b <= 0x46 || 0x61 <= b <= 0x66 }

  function HexValue(b: Byte): int
    requires IsHex(b)
  {
    if b <= 0x39 then b - 0x30 else if b <= 0x46 then b - 0x41 + 10 else b - 0x61 + 10
  }

  predicate Escaped(p: Path) { |p| >= 3 && p[0] == PERCENT && IsHex(p[1]) && IsHex(p[2]) }

  /** Escapes become their bytes; a percent sign that starts none stays. */
  function Decode(p: Path): Path {
    if p == [] then []
    else if Escaped(p) then [16 * HexValue(p[1]) + HexValue(p[2])] + Decode(p[3..])
    else [p[0]] + Decode(p[1..])
  }

  predicate Continues(p: Path, i: nat) { i < |p| && 0x80 <= p[i] <= 0xBF }

  /** The length of the UTF-8 character at the start, or 0: no overlong forms, no surrogates, nothing past U+10FFFF. */
  function CharLength(p: Path): (n: nat)
    ensures n <= |p|
  {
    if p == [] then 0
    else if p[0] <= 0x7F then 1
    else if 0xC2 <= p[0] <= 0xDF && Continues(p, 1) then 2
    else if 0xE0 <= p[0] <= 0xEF && Continues(p, 1) && Continues(p, 2)
            && (p[0] == 0xE0 ==> p[1] >= 0xA0) && (p[0] == 0xED ==> p[1] <= 0x9F) then 3
    else if 0xF0 <= p[0] <= 0xF4 && Continues(p, 1) && Continues(p, 2) && Continues(p, 3)
            && (p[0] == 0xF0 ==> p[1] >= 0x90) && (p[0] == 0xF4 ==> p[1] <= 0x8F) then 4
    else 0
  }

  predicate Utf8(p: Path)
    decreases |p|
  {
    p == [] || (CharLength(p) > 0 && Utf8(p[CharLength(p)..]))
  }

  /** Strict decoding to a string. */
  function Unquote(p: Path): Option<Path> { if Utf8(Decode(p)) then Some(Decode(p)) else None }

  // ---------------------------------------------------------------- one form

  function IndexOf(p: Path, b: Byte): (i: nat)
    ensures i <= |p| && (i < |p| ==> p[i] == b)
    ensures forall k :: 0 <= k < i ==> p[k] != b
  {
    if p == [] || p[0] == b then 0 else 1 + IndexOf(p[1..], b)
  }

  /** The pieces between slashes. */
  function Segments(p: Path): seq<Path> {
    var i := IndexOf(p, SLASH);
    if i == |p| then [p] else [p[..i]] + Segments(p[i + 1..])
  }

  predicate IsDots(segment: Path) { segment == [DOT] || segment == [DOT, DOT] }

  /** A segment that is no traversal, with its matrix parameters or without. */
  predicate Ordinary(segment: Path) { !IsDots(segment[..IndexOf(segment, SEMICOLON)]) }

  predicate Allowed(b: Byte) { (0x20 <= b <= 0x7E && b != BACKSLASH) || b >= 0x80 }

  predicate Rooted(p: Path) { |p| >= 1 && p[0] == SLASH && !(|p| >= 2 && p[1] == SLASH) }

  predicate AllOrdinary(p: Path) { forall i :: 0 <= i < |Segments(p)| ==> Ordinary(Segments(p)[i]) }

  predicate Unambiguous(p: Path) { Rooted(p) && (forall i :: 0 <= i < |p| ==> Allowed(p[i])) && AllOrdinary(p) }

  function RStripSlashes(p: Path): Path {
    if p != [] && p[|p| - 1] == SLASH then RStripSlashes(p[..|p| - 1]) else p
  }

  /** Under one of the public prefixes. */
  predicate Public(prefixes: seq<Path>, p: Path) {
    exists i :: 0 <= i < |prefixes| && (p == prefixes[i] || RStripSlashes(prefixes[i]) + [SLASH] <= p)
  }

  predicate Good(prefixes: seq<Path>, p: Path) { Unambiguous(p) && Public(prefixes, p) }

  // ---------------------------------------------------------------- the whole check

  const MAX_CHECKS := 8

  predicate Rest(prefixes: seq<Path>, form: Path, checks: nat)
    decreases checks
  {
    && checks > 0 && Good(prefixes, form) && Unquote(form).Some?
    && (Unquote(form).value == form || Rest(prefixes, Unquote(form).value, checks - 1))
  }

  predicate PlainRaw(raw: Path) { forall i :: 0 <= i < |raw| ==> raw[i] < 0x80 && raw[i] != HASH && raw[i] != QUESTION }

  predicate Accepted(prefixes: seq<Path>, raw: Path) {
    [SLASH] in prefixes || (PlainRaw(raw) && Unquote(raw).Some? && Rest(prefixes, Unquote(raw).value, MAX_CHECKS))
  }

  /** `is_public_request_path`. */
  method IsPublicRequestPath(prefixes: seq<Path>, raw: Path) returns (r: bool)
    ensures r <==> Accepted(prefixes, raw)
  {
    hide Good, Decode, Utf8;
    if [SLASH] in prefixes { return true; }
    if HASH in raw || QUESTION in raw { return false; }
    if exists i :: 0 <= i < |raw| && raw[i] >= 0x80 { return false; }
    var first := Unquote(raw);
    if first == None { return false; }
    var path := first.value;
    for n := 0 to MAX_CHECKS
      invariant Rest(prefixes, path, MAX_CHECKS - n) <==> Rest(prefixes, first.value, MAX_CHECKS)
    {
      if !Good(prefixes, path) { return false; }
      var decoded := Unquote(path);
      if decoded == None { return false; }
      if decoded.value == path { return true; }
      path := decoded.value;
    }
    r := false;
  }

  // ---------------------------------------------------------------- acceptance, exactly

  /** The string after `n + 1` decodings of the raw path. */
  function Form(raw: Path, n: nat): Option<Path> {
    if n == 0 then Unquote(raw) else if Form(raw, n - 1) == None then None else Unquote(Form(raw, n - 1).value)
  }

  ghost predicate GoodUpTo(prefixes: seq<Path>, raw: Path, n: nat) {
    forall i :: 0 <= i <= n ==> Form(raw, i).Some? && Good(prefixes, Form(raw, i).value)
  }

  ghost predicate SettlesAt(prefixes: seq<Path>, raw: Path, n: nat) {
    GoodUpTo(prefixes, raw, n) && Form(raw, n + 1) == Form(raw, n)
  }

  /** For an app that is not public as a whole, a path is accepted exactly when its decodings reach one that no longer
      changes within the forms checked, and every form up to it is good. */
  lemma {:induction false} AcceptedExactly(prefixes: seq<Path>, raw: Path)
    requires [SLASH] !in prefixes
    ensures Accepted(prefixes, raw) <==> PlainRaw(raw) && exists n :: 0 <= n < 8 && SettlesAt(prefixes, raw, n)
  {
    hide Good, Decode, Utf8, PlainRaw;
    assert forall n :: 0 <= n && SettlesAt(prefixes, raw, n) ==> Form(raw, 0).Some?;
    if Form(raw, 0).Some? {
      RestExactly(prefixes, raw, 0, MAX_CHECKS);
      if Rest(prefixes, Form(raw, 0).value, MAX_CHECKS) {
        var n :| 0 <= n < MAX_CHECKS && SettlesFrom(prefixes, raw, 0, n);
        assert SettlesAt(prefixes, raw, n);
      }
      if n :| 0 <= n < MAX_CHECKS && SettlesAt(prefixes, raw, n) {
        assert SettlesFrom(prefixes, raw, 0, n);
      }
    }
  }

  ghost predicate SettlesFrom(prefixes: seq<Path>, raw: Path, k: nat, n: nat) {
    && (forall i :: k <= i <= n ==> Form(raw, i).Some? && Good(prefixes, Form(raw, i).value))
    && Form(raw, n + 1) == Form(raw, n)
  }

  lemma {:induction false} RestExactly(prefixes: seq<Path>, raw: Path, k: nat, checks: nat)
    requires Form(raw, k).Some?
    ensures Rest(prefixes, Form(raw, k).value, checks) <==>
      exists n :: k <= n < k + checks && SettlesFrom(prefixes, raw, k, n)
    decreases checks
  {
    hide Good, Decode, Utf8;
    if checks > 0 {
      var form := Form(raw, k).value;
      assert Form(raw, k + 1) == Unquote(form);
      if Unquote(form).Some? {
        var next := k + 1;
        RestExactly(prefixes, raw, next, checks - 1);
        if Good(prefixes, form) {
          if n :| next <= n < k + checks && SettlesFrom(prefixes, raw, next, n) {
            assert SettlesFrom(prefixes, raw, k, n);
          }
        }
        if n :| k <= n < k + checks && SettlesFrom(prefixes, raw, k, n) {
          assert Good(prefixes, form);
          if n > k { assert SettlesFrom(prefixes, raw, next, n); }
        }
        if Unquote(form).value == form && Good(prefixes, form) { assert SettlesFrom(prefixes, raw, k, k); }
      }
    }
  }

  // ---------------------------------------------------------------- decoding

  /** A decoding that changes anything takes at least two bytes away. */
  lemma {:induction false} DecodingShrinks(p: Path)
    ensures Decode(p) == p || |Decode(p)| + 2 <= |p|
  {
    if p != [] {
      if Escaped(p) {
        DecodingShrinks(p[3..]);
      } else {
        DecodingShrinks(p[1..]);
        assert p == [p[0]] + p[1..];
      }
    }
  }

  /** The bound on the number of forms refuses nothing short: a path whose forms are all good and that is still refused
      loses at least two bytes with each of the forms checked. */
  lemma {:induction false} OnlyDeepNestingIsRefused(prefixes: seq<Path>, raw: Path)
    requires PlainRaw(raw) && GoodUpTo(prefixes, raw, MAX_CHECKS) && !Accepted(prefixes, raw)
    ensures |raw| >= |Form(raw, MAX_CHECKS).value| + 2 * MAX_CHECKS
  {
    hide Good, Decode, Utf8, PlainRaw;
    AcceptedExactly(prefixes, raw);
    DecodingShrinks(raw);
    FormsShrink(prefixes, raw, MAX_CHECKS);
  }

  lemma {:induction false} FormsShrink(prefixes: seq<Path>, raw: Path, n: nat)
    requires n <= MAX_CHECKS && GoodUpTo(prefixes, raw, MAX_CHECKS) && Form(raw, 0).Some?
    requires forall k :: 0 <= k < MAX_CHECKS ==> !SettlesAt(prefixes, raw, k)
    ensures Form(raw, n).Some? && |Form(raw, 0).value| >= |Form(raw, n).value| + 2 * n
  {
    hide Good, Decode, Utf8;
    if n > 0 {
      FormsShrink(prefixes, raw, n - 1);
      assert GoodUpTo(prefixes, raw, n - 1);
      assert !SettlesAt(prefixes, raw, n - 1);
      assert Form(raw, n).Some?;
      DecodingShrinks(Form(raw, n - 1).value);
    }
  }

  lemma {:induction false} EscapedBefore(a: Path, b: Byte, c: Path)
    requires a != [] && b != PERCENT && !IsHex(b)
    ensures var p := a + [b] + c;
      Escaped(p) == Escaped(a) && p[0] == a[0] && p[1..] == a[1..] + [b] + c
      && (Escaped(a) ==> p[1] == a[1] && p[2] == a[2] && p[3..] == a[3..] + [b] + c)
  {
    var p := a + [b] + c;
    if |a| == 1 { assert p[1] == b; }
    if |a| == 2 { assert p[2] == b; }
    if |a| >= 3 { assert p[1] == a[1] && p[2] == a[2]; }
  }

  /** No escape reaches across a byte that is neither a digit nor a percent sign. */
  lemma {:induction false} DecodeSplits(a: Path, b: Byte, c: Path)
    requires b != PERCENT && !IsHex(b)
    ensures Decode(a + [b] + c) == Decode(a) + [b] + Decode(c)
  {
    hide HexValue;
    var p := a + [b] + c;
    if a == [] {
      assert p[0] == b && p[1..] == c;
    } else {
      EscapedBefore(a, b, c);
      hide Escaped;
      if Escaped(a) { DecodeSplits(a[3..], b, c); } else { DecodeSplits(a[1..], b, c); }
    }
  }

  // ---------------------------------------------------------------- segments

  lemma {:induction false} FirstIndex(p: Path, b: Byte, i: nat)
    requires i <= |p| && (i < |p| ==> p[i] == b) && forall k :: 0 <= k < i ==> p[k] != b
    ensures IndexOf(p, b) == i
  {
    if i > 0 { FirstIndex(p[1..], b, i - 1); }
  }

  lemma {:induction false} SegmentsSplit(a: Path, c: Path)
    ensures Segments(a + [SLASH] + c) == Segments(a) + Segments(c)
  {
    hide IndexOf, Segments;
    var p := a + [SLASH] + c;
    var i := IndexOf(a, SLASH);
    FirstIndex(p, SLASH, i);
    SegmentsUnfold(p);
    SegmentsUnfold(a);
    assert p[..i] == a[..i];
    if i == |a| {
      assert p[i + 1..] == c;
      assert a[..i] == a;
    } else {
      var rest := a[i + 1..];
      assert p[i + 1..] == rest + [SLASH] + c;
      SegmentsSplit(rest, c);
      assert [a[..i]] + (Segments(rest) + Segments(c)) == [a[..i]] + Segments(rest) + Segments(c);
    }
  }

  lemma {:induction false} SegmentsUnfold(p: Path)
    ensures var i := IndexOf(p, SLASH);
      Segments(p) == if i == |p| then [p] else [p[..i]] + Segments(p[i + 1..])
  {
  }

  ghost predicate NoDots(p: Path) { forall i :: 0 <= i < |Segments(p)| ==> !IsDots(Segments(p)[i]) }

  lemma {:induction false} NoDotsSplit(a: Path, c: Path)
    ensures NoDots(a + [SLASH] + c) <==> NoDots(a) && NoDots(c)
  {
    hide Segments, IsDots;
    SegmentsSplit(a, c);
    var whole, left, right := Segments(a + [SLASH] + c), Segments(a), Segments(c);
    assert forall i :: 0 <= i < |left| ==> whole[i] == left[i];
    assert forall i :: 0 <= i < |right| ==> whole[|left| + i] == right[i];
    assert forall i :: |left| <= i < |whole| ==> whole[i] == right[i - |left|];
  }

  lemma {:induction false} NoDotsAlone(p: Path)
    requires IndexOf(p, SLASH) == |p|
    ensures NoDots(p) <==> !IsDots(p)
  {
    assert Segments(p)[0] == p;
  }

  /** A dot segment is one after decoding too. */
  lemma {:induction false} DotsSurviveDecoding(p: Path)
    requires NoDots(Decode(p))
    ensures NoDots(p)
    decreases |p|
  {
    hide Decode, Segments, NoDots, IsDots;
    var i := IndexOf(p, SLASH);
    if i < |p| {
      var a, c := p[..i], p[i + 1..];
      assert p == a + [SLASH] + c;
      DecodeSplits(a, SLASH, c);
      NoDotsSplit(Decode(a), Decode(c));
      NoDotsSplit(a, c);
      FirstIndex(a, SLASH, i);
      DotsSurviveDecoding(a);
      DotsSurviveDecoding(c);
    } else {
      NoDotsAlone(p);
      DotsDecodeToDots(p);
    }
  }

  lemma {:induction false} DotsDecodeToDots(p: Path)
    ensures IsDots(p) ==> Decode(p) == p && !NoDots(p)
  {
    if IsDots(p) {
      assert Decode(p[1..]) == p[1..] by { if |p| == 2 { assert p[1..][1..] == []; } }
      assert p == [p[0]] + p[1..];
      FirstIndex(p, SLASH, |p|);
      assert Segments(p)[0] == p;
    }
  }

  // ---------------------------------------------------------------- dot-segment removal, section 5.2.4 of RFC 3986

  /** The output without its last segment and that segment's slash. */
  function WithoutLast(out: Path): Path {
    if out == [] then [] else if out[|out| - 1] == SLASH then out[..|out| - 1] else WithoutLast(out[..|out| - 1])
  }

  predicate StartsWith(p: Path, prefix: Path) { prefix <= p }

  /** The first segment with its slash: up to the next slash. */
  function Head(input: Path): (i: nat)
    requires input != []
    ensures 0 < i <= |input|
  {
    1 + IndexOf(input[1..], SLASH)
  }

  /** Steps 2A to 2E, from the input buffer to the output buffer. */
  function RemoveDots(input: Path, out: Path): Path
    decreases |input|
  {
    if input == [] then out
    else if StartsWith(input, [DOT, DOT, SLASH]) then RemoveDots(input[3..], out)
    else if StartsWith(input, [DOT, SLASH]) then RemoveDots(input[2..], out)
    else if StartsWith(input, [SLASH, DOT, SLASH]) then RemoveDots(input[2..], out)
    else if input == [SLASH, DOT] then RemoveDots([SLASH], out)
    else if StartsWith(input, [SLASH, DOT, DOT, SLASH]) then RemoveDots(input[3..], WithoutLast(out))
    else if input == [SLASH, DOT, DOT] then RemoveDots([SLASH], WithoutLast(out))
    else if IsDots(input) then RemoveDots([], out)
    else RemoveDots(input[Head(input)..], out + input[..Head(input)])
  }

  /** What starts with a dot segment has one. */
  lemma {:induction false} StartsWithDots(p: Path, dots: Path)
    requires IsDots(dots)
    ensures p == dots || StartsWith(p, dots + [SLASH]) ==> !NoDots(p)
  {
    var i := IndexOf(p, SLASH);
    if p == dots {
      FirstIndex(p, SLASH, |p|);
      NoDotsAlone(p);
    } else if StartsWith(p, dots + [SLASH]) {
      assert p[..|dots|] == dots && p[|dots|] == SLASH by { assert (dots + [SLASH])[|dots|] == SLASH; }
      FirstIndex(p, SLASH, |dots|);
      assert Segments(p)[0] == dots;
    }
  }

  /** No step but the last applies to an input without dot segments. */
  lemma {:induction false} OnlyTheLastStep(input: Path)
    requires NoDots(input) || (input != [] && input[0] == SLASH && NoDots(input[1..]))
    ensures !StartsWith(input, [DOT, DOT, SLASH]) && !StartsWith(input, [DOT, SLASH]) && !IsDots(input)
    ensures !StartsWith(input, [SLASH, DOT, SLASH]) && !StartsWith(input, [SLASH, DOT, DOT, SLASH])
    ensures input != [SLASH, DOT] && input != [SLASH, DOT, DOT]
  {
    hide NoDots;
    if input != [] && input[0] == SLASH {
      assert [SLASH] + input[1..] == [] + [SLASH] + input[1..] == input;
      NoDotsSplit([], input[1..]);
      StartsWithDots(input[1..], [DOT]);
      StartsWithDots(input[1..], [DOT, DOT]);
      assert [DOT] + [SLASH] == [DOT, SLASH] && [DOT, DOT] + [SLASH] == [DOT, DOT, SLASH];
      Drop(input, [SLASH, DOT, SLASH]);
      Drop(input, [SLASH, DOT, DOT, SLASH]);
    } else {
      StartsWithDots(input, [DOT]);
      StartsWithDots(input, [DOT, DOT]);
      assert [DOT] + [SLASH] == [DOT, SLASH] && [DOT, DOT] + [SLASH] == [DOT, DOT, SLASH];
    }
  }

  lemma {:induction false} Drop(p: Path, prefix: Path)
    requires prefix != []
    ensures StartsWith(p, prefix) ==> StartsWith(p[1..], prefix[1..])
  {
  }

  /** No dot segment, not counting the slash at the front. */
  ghost predicate Clean(input: Path) {
    input == [] || NoDots(input) || (input[0] == SLASH && NoDots(input[1..]))
  }

  lemma {:induction false} CleanRest(input: Path)
    requires Clean(input) && input != []
    ensures Clean(input[Head(input)..])
  {
    hide NoDots;
    var i := Head(input);
    var rest := input[i..];
    if rest != [] {
      assert rest[0] == SLASH && input[1..] == input[1..i] + [SLASH] + rest[1..];
      NoDotsSplit(input[1..i], rest[1..]);
      assert input == input[..i] + [SLASH] + rest[1..];
      NoDotsSplit(input[..i], rest[1..]);
    }
  }

  /** Removal leaves a path without dot segments as it is. */
  lemma {:induction false} NothingToRemove(input: Path, out: Path)
    requires Clean(input)
    ensures RemoveDots(input, out) == out + input
    decreases |input|
  {
    if input != [] {
      OnlyTheLastStep(input);
      CleanRest(input);
      hide Clean, StartsWith, IsDots, Head;
      var i := Head(input);
      NothingToRemove(input[i..], out + input[..i]);
      assert out + input[..i] + input[i..] == out + input;
    }
  }

  // ---------------------------------------------------------------- an accepted path stays public

  /** What something behind the check may do to a path. */
  datatype Rewrite = PercentDecode | RemoveDotSegments

  function Apply(p: Path, rewrite: Rewrite): Path {
    match rewrite
    case PercentDecode => Decode(p)
    case RemoveDotSegments => RemoveDots(p, [])
  }

  function ApplyAll(p: Path, rewrites: seq<Rewrite>): Path
    decreases |rewrites|
  {
    if rewrites == [] then p else ApplyAll(Apply(p, rewrites[0]), rewrites[1..])
  }

  lemma {:induction false} OrdinaryMeansNoDots(p: Path)
    requires Unambiguous(p)
    ensures NoDots(p)
  {
    forall i | 0 <= i < |Segments(p)| ensures !IsDots(Segments(p)[i]) {
      var segment := Segments(p)[i];
      assert Ordinary(segment);
      if IsDots(segment) { FirstIndex(segment, SEMICOLON, |segment|); }
    }
  }

  /** From a form the check would go on to accept, every rewriting leads to another one. */
  lemma {:induction false} RestIsClosed(prefixes: seq<Path>, form: Path, checks: nat, rewrites: seq<Rewrite>)
    requires Rest(prefixes, form, checks)
    ensures Good(prefixes, ApplyAll(form, rewrites)) && Good(prefixes, Decode(ApplyAll(form, rewrites)))
    decreases |rewrites|
  {
    hide Decode, RemoveDots, Utf8, Unambiguous, Public;
    if rewrites == [] {
      assert checks > 1 || Decode(form) == form;
    } else {
      match rewrites[0]
      case PercentDecode =>
        RestIsClosed(prefixes, Decode(form), if Decode(form) == form then checks else checks - 1, rewrites[1..]);
      case RemoveDotSegments =>
        OrdinaryMeansNoDots(form);
        NothingToRemove(form, []);
        assert [] + form == form;
        RestIsClosed(prefixes, form, checks, rewrites[1..]);
    }
  }

  /** The promise behind the check: whatever sequence of percent-decodings and dot-segment removals an accepted path
      goes through, of any length, the result decodes to a path that is public and unambiguous, and unless nothing has
      been decoded yet, it is one itself. */
  lemma {:induction false} AcceptedStaysPublic(prefixes: seq<Path>, raw: Path, rewrites: seq<Rewrite>)
    requires Accepted(prefixes, raw) && [SLASH] !in prefixes
    ensures var result := ApplyAll(raw, rewrites);
      Good(prefixes, Decode(result)) && (result == raw || Good(prefixes, result))
    decreases |rewrites|
  {
    hide Decode, RemoveDots, Utf8, Unambiguous, Public, PlainRaw;
    var first := Decode(raw);
    if rewrites != [] {
      match rewrites[0]
      case PercentDecode => RestIsClosed(prefixes, first, MAX_CHECKS, rewrites[1..]);
      case RemoveDotSegments =>
        OrdinaryMeansNoDots(first);
        DotsSurviveDecoding(raw);
        NothingToRemove(raw, []);
        assert [] + raw == raw;
        AcceptedStaysPublic(prefixes, raw, rewrites[1..]);
    }
  }
}
