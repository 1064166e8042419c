/** Version tags and the order the update walk compares them by.

    A release tag is "v" followed by dot-separated integers; a release candidate adds "-rc.N".
    Any other tag name is not a version tag. */
module Versions {

  datatype Key = Key(numbers: seq<nat>, rank: nat, candidate: nat)

  // ---------------------------------------------------------------- reading a tag name

  predicate IsDigit(c: char) { '0' <= c <= '9' }

  predicate Digits(s: string) { forall i :: 0 <= i < |s| ==> IsDigit(s[i]) }

  predicate AllDigits(s: string) { s != "" && Digits(s) }

  function ToNat(s: string): nat
    requires Digits(s)
  {
    if s == "" then 0 else
      var last := s[|s| - 1];
      assert IsDigit(last);
      10 * ToNat(s[..|s| - 1]) + (last as int - '0' as int)
  }

  /** Index of the first `c` in `s`, or |s|. */
  function IndexOf(s: string, c: char): (i: nat)
    ensures i <= |s|
    ensures i < |s| ==> s[i] == c
    ensures c !in s[..i]
  {
    if s == "" || s[0] == c then 0 else
      var rest := IndexOf(s[1..], c);
      assert s[..rest + 1] == [s[0]] + s[1..][..rest];
      1 + rest
  }

  function SplitDots(s: string): (parts: seq<string>)
    ensures parts != []
    decreases |s|
  {
    var i := IndexOf(s, '.');
    if i == |s| then [s] else [s[..i]] + SplitDots(s[i + 1..])
  }

  predicate AllNumeric(parts: seq<string>) { forall i :: 0 <= i < |parts| ==> AllDigits(parts[i]) }

  predicate IsVersion(s: string) { AllNumeric(SplitDots(s)) }

  const RC := "-rc."

  /** Index of the first "-rc." in `s`, or |s| when there is none: where partition("-rc.") cuts. */
  function RcIndex(s: string): (i: nat)
    ensures i <= |s|
    ensures i < |s| ==> RC <= s[i..]
  {
    if s == "" || RC <= s then 0 else 1 + RcIndex(s[1..])
  }

  predicate IsRelease(name: string) { name != "" && name[0] == 'v' && IsVersion(name[1..]) }

  predicate IsCandidate(name: string) {
    name != "" && name[0] == 'v' &&
    var i := RcIndex(name[1..]);
    i < |name| - 1 && IsVersion(name[1..][..i]) && AllDigits(name[1..][i + 4..])
  }

  predicate IsVersionTag(name: string) { IsRelease(name) || IsCandidate(name) }

  function Numbers(parts: seq<string>): seq<nat>
    requires AllNumeric(parts)
  {
    if parts == [] then [] else [ToNat(parts[0])] + Numbers(parts[1..])
  }

  function VersionKey(name: string): Key
    requires IsVersionTag(name)
  {
    if IsCandidate(name) then
      var i := RcIndex(name[1..]);
      Key(Numbers(SplitDots(name[1..][..i])), 0, ToNat(name[1..][i + 4..]))
    else
      Key(Numbers(SplitDots(name[1..])), 1, 0)
  }

  // ---------------------------------------------------------------- the order on keys

  predicate NumbersLess(a: seq<nat>, b: seq<nat>) {
    if |b| == 0 then false
    else if |a| == 0 then true
    else if a[0] != b[0] then a[0] < b[0]
    else NumbersLess(a[1..], b[1..])
  }

  predicate Less(a: Key, b: Key) {
    || NumbersLess(a.numbers, b.numbers)
    || (a.numbers == b.numbers && (a.rank < b.rank || (a.rank == b.rank && a.candidate < b.candidate)))
  }

  lemma NumbersIrreflexive(a: seq<nat>)
    ensures !NumbersLess(a, a)
  {
    if a != [] { NumbersIrreflexive(a[1..]); }
  }

  lemma {:induction false} NumbersTransitive(a: seq<nat>, b: seq<nat>, c: seq<nat>)
    requires NumbersLess(a, b) && NumbersLess(b, c)
    ensures NumbersLess(a, c)
  {
    if a != [] && a[0] == b[0] == c[0] { NumbersTransitive(a[1..], b[1..], c[1..]); }
  }

  lemma {:induction false} NumbersTotal(a: seq<nat>, b: seq<nat>)
    ensures NumbersLess(a, b) || a == b || NumbersLess(b, a)
  {
    if a != [] && b != [] && a[0] == b[0] {
      NumbersTotal(a[1..], b[1..]);
      assert a == [a[0]] + a[1..] && b == [b[0]] + b[1..];
    }
  }

  /** Keys are strictly and totally ordered, the shape every claim about the walk rests on. */
  lemma {:induction false} KeyOrder(a: Key, b: Key, c: Key)
    ensures !Less(a, a)
    ensures Less(a, b) && Less(b, c) ==> Less(a, c)
    ensures Less(a, b) || a == b || Less(b, a)
  {
    NumbersIrreflexive(a.numbers);
    NumbersTotal(a.numbers, b.numbers);
    if Less(a, b) && Less(b, c) {
      if NumbersLess(a.numbers, b.numbers) && NumbersLess(b.numbers, c.numbers) {
        NumbersTransitive(a.numbers, b.numbers, c.numbers);
      }
    }
  }

  // ---------------------------------------------------------------- candidates and their release

  lemma {:induction false} VersionCharacters(s: string)
    requires IsVersion(s)
    ensures forall c :: c in s ==> IsDigit(c) || c == '.'
    decreases |s|
  {
    var i := IndexOf(s, '.');
    if i == |s| {
      assert AllDigits(SplitDots(s)[0]);
    } else {
      assert AllDigits(SplitDots(s)[0]);
      assert SplitDots(s)[1..] == SplitDots(s[i + 1..]);
      assert AllNumeric(SplitDots(s)[1..]);
      VersionCharacters(s[i + 1..]);
      assert s == s[..i] + [s[i]] + s[i + 1..];
    }
  }

  lemma {:induction false} RcIndexAfter(s: string, rest: string)
    requires '-' !in s
    ensures RcIndex(s + RC + rest) == |s|
  {
    if s == "" {
      assert s + RC + rest == RC + rest;
      assert RC <= RC + rest;
    } else {
      var whole := s + RC + rest;
      assert whole[0] == s[0] != '-';
      assert whole[1..] == s[1..] + RC + rest;
      RcIndexAfter(s[1..], rest);
    }
  }

  lemma {:induction false} NoRc(s: string)
    requires '-' !in s
    ensures RcIndex(s) == |s|
  {
    if s != "" {
      assert RC[0] == '-';
      NoRc(s[1..]);
    }
  }

  /** A release sorts after its own candidates, and the candidates sort by number:
      v1.2.0-rc.1 < v1.2.0-rc.2 < v1.2.0. */
  lemma {:induction false} CandidatesPrecedeTheirRelease(release: string, low: string, high: string)
    requires IsRelease(release) && AllDigits(low) && AllDigits(high) && ToNat(low) < ToNat(high)
    ensures IsCandidate(release + RC + low) && IsCandidate(release + RC + high)
    ensures !IsCandidate(release)
    ensures Less(VersionKey(release + RC + low), VersionKey(release + RC + high))
    ensures Less(VersionKey(release + RC + high), VersionKey(release))
  {
    var version := release[1..];
    VersionCharacters(version);
    NoRc(version);
    CandidateKey(release, low);
    CandidateKey(release, high);
  }

  lemma CandidateKey(release: string, number: string)
    requires IsRelease(release) && AllDigits(number)
    ensures IsCandidate(release + RC + number)
    ensures VersionKey(release + RC + number) == Key(Numbers(SplitDots(release[1..])), 0, ToNat(number))
  {
    var version := release[1..];
    var name := release + RC + number;
    VersionCharacters(version);
    assert name[1..] == version + RC + number;
    RcIndexAfter(version, number);
    assert name[1..][..|version|] == version;
    assert name[1..][|version| + 4..] == number;
  }
}
