/** Version tags as they are written: which names are version tags, and that numbers are read as they are meant. */
module VersionNames {
  import opened Versions

  // ---------------------------------------------------------------- writing a name

  const DIGITS := "0123456789"

  /** A number in decimal, without leading zeros. */
  function Decimal(n: nat): string {
    if n < 10 then [DIGITS[n]] else Decimal(n / 10) + [DIGITS[n % 10]]
  }

  function JoinDots(parts: seq<string>): string
    requires parts != []
  {
    if |parts| == 1 then parts[0] else parts[0] + "." + JoinDots(parts[1..])
  }

  function Decimals(numbers: seq<nat>): (parts: seq<string>)
    ensures |parts| == |numbers|
  {
    seq(|numbers|, i requires 0 <= i < |numbers| => Decimal(numbers[i]))
  }

  function ReleaseName(numbers: seq<nat>): string
    requires numbers != []
  {
    "v" + JoinDots(Decimals(numbers))
  }

  function CandidateName(numbers: seq<nat>, candidate: nat): string
    requires numbers != []
  {
    ReleaseName(numbers) + "-rc." + Decimal(candidate)
  }

  // ---------------------------------------------------------------- reading it back

  lemma {:induction false} DecimalReadsBack(n: nat)
    ensures AllDigits(Decimal(n)) && ToNat(Decimal(n)) == n
  {
    assert forall d :: 0 <= d < 10 ==> IsDigit(DIGITS[d]) && DIGITS[d] as int - '0' as int == d;
    if n < 10 {
      assert Decimal(n)[..0] == "";
    } else {
      DecimalReadsBack(n / 10);
      var init := Decimal(n / 10);
      assert Decimal(n)[..|init|] == init;
    }
  }

  /** Leading zeros do not count. */
  lemma {:induction false} ZerosDoNotCount(s: string)
    requires Digits(s)
    ensures Digits("0" + s) && ToNat("0" + s) == ToNat(s)
  {
    var z := "0" + s;
    assert forall i :: 0 < i < |z| ==> z[i] == s[i - 1];
    if s == "" {
      assert z[..0] == "";
    } else {
      var init := s[..|s| - 1];
      ZerosDoNotCount(init);
      assert z[..|z| - 1] == "0" + init;
    }
  }

  lemma {:induction false} SplitJoins(parts: seq<string>)
    requires parts != [] && forall i :: 0 <= i < |parts| ==> '.' !in parts[i]
    ensures SplitDots(JoinDots(parts)) == parts
  {
    var s := JoinDots(parts);
    if |parts| == 1 {
      NoDotNoSplit(s);
    } else {
      var rest := JoinDots(parts[1..]);
      SplitJoins(parts[1..]);
      FirstDot(parts[0], rest);
      assert s[..|parts[0]|] == parts[0] && s[|parts[0]| + 1..] == rest;
    }
  }

  lemma {:induction false} NoDotNoSplit(s: string)
    requires '.' !in s
    ensures SplitDots(s) == [s]
  {
    NoDot(s);
  }

  lemma {:induction false} NoDot(s: string)
    requires '.' !in s
    ensures IndexOf(s, '.') == |s|
  {
    if s != "" { NoDot(s[1..]); }
  }

  lemma {:induction false} FirstDot(part: string, rest: string)
    requires '.' !in part
    ensures IndexOf(part + "." + rest, '.') == |part|
  {
    var s := part + "." + rest;
    if part != "" {
      assert s[0] == part[0] && s[1..] == part[1..] + "." + rest;
      FirstDot(part[1..], rest);
    }
  }

  lemma {:induction false} JoinSplits(s: string)
    ensures JoinDots(SplitDots(s)) == s
    decreases |s|
  {
    hide IndexOf, SplitDots, JoinDots;
    SplitUnfolds(s);
    var i := IndexOf(s, '.');
    if i == |s| {
      JoinUnfolds([s]);
    } else {
      var rest := s[i + 1..];
      JoinSplits(rest);
      JoinUnfolds(SplitDots(s));
      assert SplitDots(s)[1..] == SplitDots(rest);
      assert s == s[..i] + "." + rest;
    }
  }

  lemma {:induction false} SplitUnfolds(s: string)
    ensures var i := IndexOf(s, '.'); SplitDots(s) == if i == |s| then [s] else [s[..i]] + SplitDots(s[i + 1..])
  {
  }

  lemma {:induction false} JoinUnfolds(parts: seq<string>)
    requires parts != []
    ensures JoinDots(parts) == if |parts| == 1 then parts[0] else parts[0] + "." + JoinDots(parts[1..])
  {
  }

  lemma {:induction false} DigitsAreNoDots(part: string)
    requires AllDigits(part)
    ensures '.' !in part && '-' !in part
  {
  }

  /** The names of releases: "v", and runs of digits with a dot between each two. */
  lemma {:induction false} ReleaseExactly(name: string)
    ensures IsRelease(name) <==> exists parts :: parts != [] && AllNumeric(parts) && name == "v" + JoinDots(parts)
  {
    hide AllDigits;
    if IsRelease(name) {
      var parts := SplitDots(name[1..]);
      JoinSplits(name[1..]);
      assert name == "v" + JoinDots(parts);
    }
    if parts :| parts != [] && AllNumeric(parts) && name == "v" + JoinDots(parts) {
      forall i | 0 <= i < |parts| ensures '.' !in parts[i] { DigitsAreNoDots(parts[i]); }
      SplitJoins(parts);
      assert name[1..] == JoinDots(parts);
    }
  }

  /** The names of candidates: a release's, "-rc." and a run of digits. */
  lemma {:induction false} CandidateExactly(name: string)
    ensures IsCandidate(name) <==>
      exists release, number :: IsRelease(release) && AllDigits(number) && name == release + RC + number
  {
    hide IsVersion, AllDigits, RcIndex;
    if IsCandidate(name) {
      var release, number := CandidateParts(name);
    }
    if release, number :| IsRelease(release) && AllDigits(number) && name == release + RC + number {
      CandidateKey(release, number);
    }
  }

  lemma {:induction false} CandidateParts(name: string) returns (release: string, number: string)
    requires IsCandidate(name)
    ensures IsRelease(release) && AllDigits(number) && name == release + RC + number
  {
    hide IsVersion, AllDigits, RcIndex;
    var version := name[1..];
    var i := RcIndex(version);
    assert RC <= version[i..] by { RcIsThere(version); }
    release, number := [name[0]] + version[..i], version[i + 4..];
    assert release[1..] == version[..i];
    CutAtRc(version, i);
    Rejoin(name[0], version[..i], number);
    assert name == [name[0]] + version;
  }

  lemma {:induction false} Rejoin(c: char, a: string, b: string)
    ensures [c] + (a + (RC + b)) == ([c] + a) + RC + b
  {
  }

  lemma {:induction false} CutAtRc(s: string, i: nat)
    requires i <= |s| && RC <= s[i..]
    ensures i + 4 <= |s| && s == s[..i] + (RC + s[i + 4..])
  {
    assert s[i..][..4] == RC;
  }

  lemma {:induction false} RcIsThere(s: string)
    requires RcIndex(s) < |s|
    ensures RC <= s[RcIndex(s)..]
  {
    hide RcIndex;
  }

  lemma {:induction false} NumbersOf(numbers: seq<nat>)
    ensures AllNumeric(Decimals(numbers)) && Numbers(Decimals(numbers)) == numbers
  {
    forall i | 0 <= i < |numbers| ensures AllDigits(Decimals(numbers)[i]) { DecimalReadsBack(numbers[i]); }
    if numbers != [] {
      DecimalReadsBack(numbers[0]);
      NumbersOf(numbers[1..]);
      assert Decimals(numbers)[1..] == Decimals(numbers[1..]);
    }
  }

  /** A name says its numbers: `v1.9` is below `v1.10`, whose key has a ten in it and not a one and a zero. */
  lemma {:induction false} KeySaysNumbers(numbers: seq<nat>, candidate: nat)
    requires numbers != []
    ensures var release, rc := ReleaseName(numbers), CandidateName(numbers, candidate);
      && IsRelease(release) && VersionKey(release) == Key(numbers, 1, 0)
      && IsCandidate(rc) && VersionKey(rc) == Key(numbers, 0, candidate)
  {
    hide Decimal, AllDigits;
    var parts := Decimals(numbers);
    NumbersOf(numbers);
    forall i | 0 <= i < |parts| ensures '.' !in parts[i] { DigitsAreNoDots(parts[i]); }
    SplitJoins(parts);
    var release := ReleaseName(numbers);
    assert release[1..] == JoinDots(parts);
    assert !IsCandidate(release) by { hide *; ReleaseIsNoCandidate(release); }
    DecimalReadsBack(candidate);
    CandidateKey(release, Decimal(candidate));
    assert CandidateName(numbers, candidate) == release + RC + Decimal(candidate);
  }

  lemma {:induction false} ReleaseIsNoCandidate(name: string)
    requires IsRelease(name)
    ensures !IsCandidate(name)
  {
    VersionCharacters(name[1..]);
    NoRc(name[1..]);
  }

  /** Versions are compared number by number; where one ends first, it is the lower. */
  lemma {:induction false} LessExactly(a: seq<nat>, b: seq<nat>)
    ensures NumbersLess(a, b) <==>
      exists k :: 0 <= k < |b| && k <= |a| && a[..k] == b[..k] && (k == |a| || a[k] < b[k])
  {
    if b != [] && a != [] && a[0] == b[0] {
      LessExactly(a[1..], b[1..]);
      if NumbersLess(a, b) {
        var k :| 0 <= k < |b| - 1 && k <= |a| - 1 && a[1..][..k] == b[1..][..k]
          && (k == |a| - 1 || a[1..][k] < b[1..][k]);
        assert a[..k + 1] == [a[0]] + a[1..][..k] && b[..k + 1] == [b[0]] + b[1..][..k];
      }
      if k :| 0 <= k < |b| && k <= |a| && a[..k] == b[..k] && (k == |a| || a[k] < b[k]) {
        assert a[1..][..k - 1] == a[..k][1..] && b[1..][..k - 1] == b[..k][1..];
      }
    } else if NumbersLess(a, b) {
      assert a[..0] == b[..0];
    } else if k :| 0 <= k < |b| && k <= |a| && a[..k] == b[..k] && (k == |a| || a[k] < b[k]) {
      if k > 0 { assert a[..k][0] == b[..k][0]; }
    }
  }
}
