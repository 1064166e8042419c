/** App ids: twelve base-58 digits of a 72-bit draw; and app names. */
module AppId {

  /** The characters from `low` to `high`, in order. */
  function Run(low: char, high: char): (s: string)
    requires low <= high <= '~'
    ensures |s| == high as int - low as int + 1
    ensures forall i :: 0 <= i < |s| ==> s[i] as int == low as int + i
  {
    seq(high as int - low as int + 1, i requires 0 <= i <= high as int - low as int => (low as int + i) as char)
  }

  /** Digits and letters in ASCII order, without 0, I, O and l. */
  function Alphabet(): (s: string)
    ensures |s| == 58
  {
    Run('1', '9') + Run('A', 'H') + Run('J', 'N') + Run('P', 'Z') + Run('a', 'k') + Run('m', 'z')
  }

  lemma {:induction false} AlphabetIs()
    ensures Alphabet() == "123456789ABCDEFGHJKLMNPQRSTUVWXYZabcdefghijkmnopqrstuvwxyz"
  {
    FirstRuns();
    LastRuns();
    hide Run;
    assert "123456789" + "ABCDEFGH" == "123456789ABCDEFGH";
    assert "123456789ABCDEFGH" + "JKLMN" == "123456789ABCDEFGHJKLMN";
    assert "123456789ABCDEFGHJKLMN" + "PQRSTUVWXYZ" == "123456789ABCDEFGHJKLMNPQRSTUVWXYZ";
    assert "123456789ABCDEFGHJKLMNPQRSTUVWXYZ" + "abcdefghijk" == "123456789ABCDEFGHJKLMNPQRSTUVWXYZabcdefghijk";
  }

  lemma {:induction false} FirstRuns()
    ensures Run('1', '9') == "123456789" && Run('A', 'H') == "ABCDEFGH" && Run('J', 'N') == "JKLMN"
  {
  }

  lemma {:induction false} LastRuns()
    ensures Run('P', 'Z') == "PQRSTUVWXYZ" && Run('a', 'k') == "abcdefghijk" && Run('m', 'z') == "mnopqrstuvwxyz"
  {
  }

  const ID_LENGTH := 12

  // ---------------------------------------------------------------- digits

  predicate InAlphabet(c: char) { Digit(c) >= 0 }

  /** What a character stands for, or -1. */
  function Digit(c: char): (d: int)
    ensures -1 <= d < 58
  {
    if '1' <= c <= '9' then c as int - '1' as int
    else if 'A' <= c <= 'H' then c as int - 'A' as int + 9
    else if 'J' <= c <= 'N' then c as int - 'J' as int + 17
    else if 'P' <= c <= 'Z' then c as int - 'P' as int + 22
    else if 'a' <= c <= 'k' then c as int - 'a' as int + 33
    else if 'm' <= c <= 'z' then c as int - 'm' as int + 44
    else -1
  }

  lemma DigitOfSymbol(d: int)
    requires 0 <= d < 58
    ensures Digit(Alphabet()[d]) == d
  {
  }

  lemma SymbolOfDigit(c: char)
    ensures InAlphabet(c) ==> Alphabet()[Digit(c)] == c
    ensures c in Alphabet() <==> InAlphabet(c)
  {
    if c in Alphabet() {
      var d :| 0 <= d < 58 && Alphabet()[d] == c;
      DigitOfSymbol(d);
    }
  }

  // ---------------------------------------------------------------- encoding

  function Pow(k: nat): (p: nat)
    ensures p > 0
  {
    if k == 0 then 1 else 58 * Pow(k - 1)
  }

  /** The low `k` digits of `n`, the highest first. */
  function Encode(n: nat, k: nat): (s: string)
    ensures |s| == k
  {
    if k == 0 then "" else Encode(n / 58, k - 1) + [Alphabet()[n % 58]]
  }

  predicate IsValid(s: string) { |s| == ID_LENGTH && forall i :: 0 <= i < |s| ==> InAlphabet(s[i]) }

  /** Reading the digits back. */
  function Decode(s: string): (n: nat)
    requires forall i :: 0 <= i < |s| ==> InAlphabet(s[i])
  {
    if s == "" then 0 else
      assert InAlphabet(s[|s| - 1]);
      58 * Decode(s[..|s| - 1]) + Digit(s[|s| - 1])
  }

  function Reversed(s: string): (r: string)
    ensures |r| == |s|
  {
    if s == "" then "" else [s[|s| - 1]] + Reversed(s[..|s| - 1])
  }

  /** `_encode_base58_padded`: the digits come out lowest first and are reversed. */
  method EncodePadded(n: nat) returns (s: string)
    ensures s == Encode(n, ID_LENGTH)
  {
    hide Alphabet;
    var rest := n;
    var chars := "";
    for i := 0 to ID_LENGTH
      invariant Encode(n, ID_LENGTH) == Encode(rest, ID_LENGTH - i) + Reversed(chars)
    {
      var digit := rest % 58;
      assert (chars + [Alphabet()[digit]])[..|chars|] == chars;
      assert Encode(rest, ID_LENGTH - i) + Reversed(chars)
          == Encode(rest / 58, ID_LENGTH - i - 1) + ([Alphabet()[digit]] + Reversed(chars));
      rest := rest / 58;
      chars := chars + [Alphabet()[digit]];
    }
    s := Reversed(chars);
  }

  // ---------------------------------------------------------------- round trips

  lemma {:induction false} DivisionStep(n: nat, p: nat)
    requires p > 0
    ensures 58 * (n / 58 % p) + n % 58 == n % (58 * p)
  {
    var q, r := n / 58 / p, n / 58 % p;
    assert n == 58 * (p * q + r) + n % 58;
    assert n == (58 * p) * q + (58 * r + n % 58) by { assert 58 * (p * q) == (58 * p) * q; }
    Remainder(n, 58 * p, q, 58 * r + n % 58);
  }

  lemma {:induction false} Multiples(m: nat, d: int, k: int)
    ensures d >= k ==> m * d >= m * k
  {
  }

  lemma {:induction false} Remainder(n: nat, m: nat, q: int, r: nat)
    requires m > 0 && n == m * q + r && r < m
    ensures n % m == r
  {
    var d := n / m - q;
    assert n % m == r - m * d by { assert m * (n / m) == m * q + m * d; }
    Multiples(m, d, 1);
    Multiples(m, -d, 1);
  }

  /** Reading the digits back gives the number, as far as they reach. */
  lemma {:induction false} EncodedDecodes(n: nat, k: nat)
    ensures forall i :: 0 <= i < k ==> InAlphabet(Encode(n, k)[i])
    ensures Decode(Encode(n, k)) == n % Pow(k)
  {
    hide Alphabet, Digit;
    if k > 0 {
      EncodedDecodes(n / 58, k - 1);
      DigitOfSymbol(n % 58);
      var s := Encode(n, k);
      assert s[..k - 1] == Encode(n / 58, k - 1);
      DivisionStep(n, Pow(k - 1));
    }
  }

  lemma {:induction false} DecodedEncodes(s: string)
    requires forall i :: 0 <= i < |s| ==> InAlphabet(s[i])
    ensures Encode(Decode(s), |s|) == s && Decode(s) < Pow(|s|)
  {
    hide Alphabet, Digit;
    if s != "" {
      var init, c := s[..|s| - 1], s[|s| - 1];
      DecodedEncodes(init);
      SymbolOfDigit(c);
      assert Decode(s) == 58 * Decode(init) + Digit(c);
      assert Decode(s) / 58 == Decode(init) && Decode(s) % 58 == Digit(c);
      assert s == init + [c];
    }
  }

  /** Every draw gives a valid id that reads back as the draw modulo 58 to the 12th, every valid id comes from a draw,
      and two draws collide exactly when they are congruent. */
  lemma {:induction false} IdsExactly(n: nat, m: nat, s: string)
    ensures IsValid(Encode(n, ID_LENGTH)) && Decode(Encode(n, ID_LENGTH)) == n % Pow(ID_LENGTH)
    ensures Encode(n, ID_LENGTH) == Encode(m, ID_LENGTH) <==> n % Pow(ID_LENGTH) == m % Pow(ID_LENGTH)
    ensures IsValid(s) ==> Encode(Decode(s), ID_LENGTH) == s && Decode(s) < Pow(ID_LENGTH)
  {
    hide Digit, Pow, Decode, Encode;
    EncodedDecodes(n, ID_LENGTH);
    EncodedDecodes(m, ID_LENGTH);
    DecodedEncodes(Encode(n, ID_LENGTH));
    DecodedEncodes(Encode(m, ID_LENGTH));
    if IsValid(s) { DecodedEncodes(s); }
  }

  // ---------------------------------------------------------------- how evenly the draws fall

  const DRAWS: nat := 0x100_0000_0000_0000_0000

  lemma PowTwelve()
    ensures Pow(ID_LENGTH) == 1449225352009601191936
  {
    assert Pow(4) == 11316496 by { assert Pow(2) == 3364; assert Pow(3) == 195112; }
    assert Pow(6) == 38068692544 by { assert Pow(5) == 656356768; }
    assert Pow(8) == 128063081718016 by { assert Pow(7) == 2207984167552; }
    assert Pow(10) == 430804206899405824 by { assert Pow(9) == 7427658739644928; }
    assert Pow(12) == 1449225352009601191936 by { assert Pow(11) == 24986644000165537792; }
  }

  /** The draws that give one id. */
  ghost predicate DrawsTo(n: nat, s: string) { n < DRAWS && Encode(n, ID_LENGTH) == s }

  /** Of the 2^72 draws, every valid id gets three or four, the fourth if it still fits: no id is likelier than 1 in
      2^70. */
  lemma {:induction false} ThreeOrFourDraws(s: string, n: nat)
    requires IsValid(s)
    ensures var v, p := Decode(s), Pow(ID_LENGTH);
      && (DrawsTo(n, s) <==> n == v || n == v + p || n == v + 2 * p || (n == v + 3 * p && v + 3 * p < DRAWS))
  {
    hide Encode, Decode, Pow;
    var v, p := Decode(s), Pow(ID_LENGTH);
    PowTwelve();
    IdsExactly(n, v, s);
    Remainder(v, p, 0, v);
    if DrawsTo(n, s) {
      var q := n / p;
      assert n == p * q + v;
      Multiples(p, q, 4);
    }
    if n == v + p { Remainder(n, p, 1, v); }
    if n == v + 2 * p { Remainder(n, p, 2, v); }
    if n == v + 3 * p { Remainder(n, p, 3, v); }
  }

  // ---------------------------------------------------------------- names

  predicate Alphanumeric(c: char) { 'a' <= c <= 'z' || '0' <= c <= '9' }

  /** The language of the pattern between its anchors: a label of lowercase letters, digits and inner hyphens. */
  predicate IsLabel(s: string) {
    && s != "" && Alphanumeric(s[0]) && Alphanumeric(s[|s| - 1])
    && forall i :: 0 <= i < |s| ==> Alphanumeric(s[i]) || s[i] == '-'
  }

  const LETTERS_AND_DIGITS := "abcdefghijklmnopqrstuvwxyz0123456789"

  lemma {:induction false} AlphanumericExactly(c: char)
    ensures Alphanumeric(c) <==> c in LETTERS_AND_DIGITS
  {
    assert forall i :: 0 <= i < 26 ==> LETTERS_AND_DIGITS[i] as int == 'a' as int + i;
    assert forall i :: 26 <= i < 36 ==> LETTERS_AND_DIGITS[i] as int == '0' as int + i - 26;
    if 'a' <= c <= 'z' { assert c == LETTERS_AND_DIGITS[c as int - 'a' as int]; }
    if '0' <= c <= '9' { assert c == LETTERS_AND_DIGITS[c as int - '0' as int + 26]; }
  }

  /** The two ways through the pattern: one letter or digit, or two with any of them and hyphens between. */
  lemma {:induction false} LabelExactly(s: string)
    ensures IsLabel(s) <==>
      || (|s| == 1 && Alphanumeric(s[0]))
      || (|s| >= 2 && Alphanumeric(s[0]) && Alphanumeric(s[|s| - 1])
          && forall c :: c in s[1..|s| - 1] ==> Alphanumeric(c) || c == '-')
  {
    hide Alphanumeric;
    if |s| >= 2 {
      var middle := s[1..|s| - 1];
      assert forall i :: 0 < i < |s| - 1 ==> s[i] == middle[i - 1];
    }
  }

  /** Where `$` matches: at the end, and before a final newline. */
  predicate AtEnd(s: string, i: nat) { i == |s| || (i + 1 == |s| && s[i] == '\n') }

  /** `is_valid_app_name`: the pattern matches from the start up to somewhere the final anchor holds. */
  predicate IsValidAppName(s: string) { exists i: nat :: i <= |s| && AtEnd(s, i) && IsLabel(s[..i]) }

  /** A valid name is a label, or a label and a newline; it is a label exactly when it has no newline. */
  lemma {:induction false} ValidNameExactly(s: string)
    ensures IsValidAppName(s) <==> IsLabel(s) || (s != "" && s[|s| - 1] == '\n' && IsLabel(s[..|s| - 1]))
    ensures IsValidAppName(s) ==> (IsLabel(s) <==> '\n' !in s)
  {
    assert s[..|s|] == s;
    if IsLabel(s) { assert AtEnd(s, |s|); }
    if s != "" && s[|s| - 1] == '\n' && IsLabel(s[..|s| - 1]) { assert AtEnd(s, |s| - 1); }
  }
}
