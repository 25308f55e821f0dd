/** IBAN check digits (ISO 13616-1:2007) over the MOD 97-10 system of ISO/IEC 7064:2003. */
module Iban {
  import opened Common

  // ----- The code: slices, the translation table, and integer parsing -----

  predicate IsDigit(c: char) { '0' <= c <= '9' }
  predicate IsLetter(c: char) { 'A' <= c <= 'Z' }
  predicate IsAlnum(c: char) { IsDigit(c) || IsLetter(c) }
  predicate Alnum(s: string) { forall c :: c in s ==> IsAlnum(c) }

  /** The slices `s[:n]` and `s[n:]`, which clamp to the length. */
  function UpTo(s: string, n: nat): string { if n <= |s| then s[..n] else s }
  function From(s: string, n: nat): string { if n <= |s| then s[n..] else [] }

  function DigitChar(d: nat): char
    requires d < 10
  {
    '0' + d as char
  }

  /** Digits stand for themselves, letters for 10 to 35, other characters are left alone. */
  function Translated(c: char): string {
    if IsLetter(c) then
      var n := c as int - 'A' as int + 10;
      [DigitChar(n / 10), DigitChar(n % 10)]
    else [c]
  }

  function Translate(s: string): string {
    if s == [] then [] else Translate(s[..|s| - 1]) + Translated(s[|s| - 1])
  }

  function NumberIban(iban: string): string {
    Translate(From(iban, 4) + UpTo(iban, 4))
  }

  predicate IsSpace(c: char) {
    c == ' ' || '\t' <= c <= '\r' || 0x1c <= c as int <= 0x1f
  }

  function StripLeft(s: string): string {
    if s != [] && IsSpace(s[0]) then StripLeft(s[1..]) else s
  }

  function StripRight(s: string): string {
    if s != [] && IsSpace(s[|s| - 1]) then StripRight(s[..|s| - 1]) else s
  }

  /** Digits, with single underscores allowed between them. */
  function ParseDigits(s: string): Option<nat> {
    if s == [] || !IsDigit(s[|s| - 1]) then None
    else
      var d := s[|s| - 1] as int - '0' as int;
      var init := s[..|s| - 1];
      if init == [] then Some(d)
      else
        match ParseDigits(if init[|init| - 1] == '_' then init[..|init| - 1] else init)
        case None => None
        case Some(n) => Some(10 * n + d)
  }

  /** `int` on ASCII text: surrounding white space, an optional sign, then digits. */
  function ParseInt(s: string): Option<int> {
    var t := StripRight(StripLeft(s));
    var signed := t != [] && (t[0] == '+' || t[0] == '-');
    match ParseDigits(if signed then t[1..] else t)
    case None => None
    case Some(n) =>
      var value: int := if signed && t[0] == '-' then 0 - n else n;
      Some(value)
  }

  /** A number below one hundred, padded to two digits. */
  function Padded(n: nat): string
    requires n < 100
  {
    [DigitChar(n / 10), DigitChar(n % 10)]
  }

  /** The generated check digits, or None where the conversion raises. */
  function GenerateCheckDigits(iban: string): Option<string> {
    match ParseInt(NumberIban(UpTo(iban, 2) + "00" + From(iban, 4)))
    case None => None
    case Some(n) => Some(Padded(98 - n % 97))
  }

  predicate ValidIban(iban: string) {
    match ParseInt(NumberIban(iban))
    case None => false
    case Some(n) => n % 97 == 1
  }

  datatype Verdict = Accepted | InvalidIban | UnsupportedCountry | ConversionError

  function Upper(s: string): string {
    seq(|s|, i requires 0 <= i < |s| => if 'a' <= s[i] <= 'z' then s[i] - 32 as char else s[i])
  }

  function IbanValidator(value: string, supported: set<string>): Verdict {
    if !ValidIban(value) then InvalidIban
    else
      match GenerateCheckDigits(value)
      case None => ConversionError
      case Some(check) =>
        if check != From(UpTo(value, 4), 2) then InvalidIban
        else if Upper(UpTo(value, 2)) !in supported then UnsupportedCountry
        else Accepted
  }

  // ----- The number an alphanumeric string stands for -----

  function Code(c: char): nat {
    if IsDigit(c) then c as int - '0' as int else if IsLetter(c) then c as int - 'A' as int + 10 else 0
  }

  /** A letter takes two decimal places, a digit one. */
  function Shift(n: int, c: char): int { if IsLetter(c) then 100 * n else 10 * n }

  function Value(s: string): nat {
    if s == [] then 0
    else Shift(Value(s[..|s| - 1]), s[|s| - 1]) + Code(s[|s| - 1])
  }

  /** The number `n` with as many zeros appended as `s` takes decimal places. */
  function Shifted(n: int, s: string): int {
    if s == [] then n else Shift(Shifted(n, s[..|s| - 1]), s[|s| - 1])
  }

  lemma {:induction false} ValueConcat(s: string, t: string)
    ensures Value(s + t) == Shifted(Value(s), t) + Value(t)
  {
    if t == [] {
      assert s + t == s;
    } else {
      ValueConcat(s, t[..|t| - 1]);
      assert (s + t)[..|s + t| - 1] == s + t[..|t| - 1];
    }
  }

  lemma {:induction false} ShiftedDifference(m: int, n: int, t: string)
    ensures Shifted(m, t) - Shifted(n, t) == Shifted(m - n, t)
  {
    if t != [] {
      ShiftedDifference(m, n, t[..|t| - 1]);
    }
  }

  /** The text ends in a digit and parses to `n`; the empty text stands for zero. */
  predicate Reads(t: string, n: int) {
    if t == [] then n == 0 else IsDigit(t[0]) && IsDigit(t[|t| - 1]) && n >= 0 && ParseDigits(t) == Some(n)
  }

  lemma ReadsAppend(t: string, n: int, d: nat)
    requires Reads(t, n) && d < 10
    ensures Reads(t + [DigitChar(d)], 10 * n + d)
  {
    assert (t + [DigitChar(d)])[..|t|] == t;
  }

  lemma ReadsLetter(t: string, n: int, c: char)
    requires Reads(t, n) && IsLetter(c)
    ensures Reads(t + Translated(c), 100 * n + Code(c))
  {
    var tens, ones := Code(c) / 10, Code(c) % 10;
    ReadsAppend(t, n, tens);
    ReadsAppend(t + [DigitChar(tens)], 10 * n + tens, ones);
    assert Translated(c) == [DigitChar(tens), DigitChar(ones)];
    assert t + [DigitChar(tens)] + [DigitChar(ones)] == t + Translated(c);
  }

  /** Parsing the translation of an alphanumeric string yields its number. */
  lemma {:induction false} TranslateParses(s: string)
    requires Alnum(s)
    ensures Reads(Translate(s), Value(s)) && |Translate(s)| >= |s|
  {
    hide ParseDigits;
    if s != [] {
      var init, c := s[..|s| - 1], s[|s| - 1];
      assert c in s;
      TranslateParses(init);
      if IsDigit(c) {
        ReadsAppend(Translate(init), Value(init), Code(c));
        assert [DigitChar(Code(c))] == Translated(c);
      } else {
        ReadsLetter(Translate(init), Value(init), c);
      }
    }
  }

  lemma ParsesToValue(s: string)
    requires Alnum(s) && s != []
    ensures ParseInt(Translate(s)) == Some(Value(s))
  {
    TranslateParses(s);
    var t := Translate(s);
    assert !IsSpace(t[0]) && !IsSpace(t[|t| - 1]);
    assert StripRight(StripLeft(t)) == t;
  }

  // ----- The table and the parser, by what they do -----

  const ALPHABET := "0123456789ABCDEFGHIJKLMNOPQRSTUVWXYZ"

  lemma AlphabetChars(k: nat)
    requires k < 36
    ensures ALPHABET[k] == if k < 10 then DigitChar(k) else 'A' + (k - 10) as char
  {
  }

  lemma CharPosition(c: char, k: nat)
    requires k < 36 && c == if k < 10 then DigitChar(k) else 'A' + (k - 10) as char
    ensures IsAlnum(c) && Code(c) == k
  {
  }

  /** Each character of the alphabet stands for its position in it. */
  lemma AlphabetPositions(k: nat)
    requires k < 36
    ensures ParseInt(Translate([ALPHABET[k]])) == Some(k)
    ensures Code(ALPHABET[k]) == k && Value([ALPHABET[k]]) == k
  {
    AlphabetChars(k);
    hide ALPHABET, ParseInt, Translate, Value, IsAlnum, Code;
    var c := ALPHABET[k];
    CharPosition(c, k);
    AppendValue("", c);
    assert Value("") == 0 by { EmptyValue(); }
    assert "" + [c] == [c];
    ParsesToValue([c]);
  }

  lemma EmptyValue()
    ensures Value("") == 0
  {
  }

  lemma AlphabetHolds(c: char)
    ensures IsAlnum(c) ==> c in ALPHABET
  {
    assert IsDigit(c) ==> ALPHABET[c as int - '0' as int] == c;
    assert IsLetter(c) ==> ALPHABET[c as int - 'A' as int + 10] == c;
  }

  /** A character outside the alphabet is left alone, and longer texts are translated piece by piece. */
  lemma OthersUntranslated(c: char)
    requires c !in ALPHABET
    ensures Translate([c]) == [c]
  {
    AlphabetHolds(c);
    assert [c][..0] == "";
  }

  lemma {:induction false} TranslateConcat(s: string, t: string)
    ensures Translate(s + t) == Translate(s) + Translate(t)
  {
    hide Translated;
    if t == [] {
      assert s + t == s;
    } else {
      TranslateConcat(s, t[..|t| - 1]);
      assert (s + t)[..|s + t| - 1] == s + t[..|t| - 1];
    }
  }

  /** White space in ASCII: tabulators and line breaks, the four separators, and the space. */
  lemma SpaceCodes(c: char)
    ensures IsSpace(c) <==> c as int in {9, 10, 11, 12, 13, 28, 29, 30, 31, 32}
  {
  }

  predicate Blank(s: string) { forall c :: c in s ==> IsSpace(c) }

  lemma {:induction false} StripLeftBlank(pre: string, s: string)
    requires Blank(pre)
    ensures StripLeft(pre + s) == StripLeft(s)
  {
    if pre == [] {
      assert pre + s == s;
    } else {
      assert pre[0] in pre && (pre + s)[1..] == pre[1..] + s;
      StripLeftBlank(pre[1..], s);
    }
  }

  lemma {:induction false} StripRightBlank(s: string, post: string)
    requires Blank(post)
    ensures StripRight(s + post) == StripRight(s)
  {
    if post == [] {
      assert s + post == s;
    } else {
      assert post[|post| - 1] in post && (s + post)[..|s + post| - 1] == s + post[..|post| - 1];
      StripRightBlank(s, post[..|post| - 1]);
    }
  }

  /** Digits in groups, one underscore between two groups. */
  predicate Grouped(s: string) {
    && s != [] && s[0] != '_' && s[|s| - 1] != '_'
    && (forall c :: c in s ==> IsDigit(c) || c == '_')
    && (forall i :: 0 <= i < |s| - 1 && s[i] == '_' ==> s[i + 1] != '_')
  }

  /** The text without its underscores. */
  function Plain(s: string): string {
    if s == [] then [] else Plain(s[..|s| - 1]) + if s[|s| - 1] == '_' then [] else [s[|s| - 1]]
  }

  lemma OneGroup(d: char)
    requires IsDigit(d)
    ensures Grouped([d]) && Value(Plain([d])) == Code(d)
  {
    assert [d][..0] == "";
    assert Plain("") == "" && Plain([d]) == "" + [d];
    AppendValue("", d);
  }

  lemma EndsInDigit(s: string)
    ensures s == [] || !IsDigit(s[|s| - 1]) ==> !Grouped(s)
  {
  }

  lemma PlainMore(rest: string, init: string, d: char)
    requires init != [] && IsDigit(d)
    requires rest == if init[|init| - 1] == '_' then init[..|init| - 1] else init
    ensures Value(Plain(init + [d])) == 10 * Value(Plain(rest)) + Code(d)
  {
    assert (init + [d])[..|init|] == init;
    assert Plain(init + [d]) == Plain(init) + [d];
    assert Plain(init) == Plain(rest);
    AppendValue(Plain(rest), d);
  }

  /** Exactly grouped digits parse, to the number of the digits. */
  lemma {:induction false} ParseDigitsIff(s: string)
    ensures ParseDigits(s).Some? <==> Grouped(s)
    ensures Grouped(s) ==> ParseDigits(s) == Some(Value(Plain(s)))
  {
    hide Grouped, Plain, Value;
    EndsInDigit(s);
    if s != [] && IsDigit(s[|s| - 1]) {
      var init, d := s[..|s| - 1], s[|s| - 1];
      assert s == init + [d];
      if init == [] {
        assert s == [d];
        OneGroup(d);
      } else {
        var rest := if init[|init| - 1] == '_' then init[..|init| - 1] else init;
        ParseDigitsIff(rest);
        GroupedMore(rest, init, d);
        PlainMore(rest, init, d);
      }
    }
  }

  lemma GroupedMore(rest: string, init: string, d: char)
    requires init != [] && IsDigit(d)
    requires rest == if init[|init| - 1] == '_' then init[..|init| - 1] else init
    ensures Grouped(init + [d]) <==> Grouped(rest)
  {
    var s := init + [d];
    if Grouped(rest) {
      forall c | c in s ensures IsDigit(c) || c == '_' {
        assert c in rest || c == '_' || c == d;
      }
    }
    if Grouped(s) {
      forall c | c in rest ensures IsDigit(c) || c == '_' {
        assert c in s;
      }
      assert init[|init| - 1] == s[|init| - 1] && s[0] == init[0];
      assert |init| >= 2 && init[|init| - 1] == '_' ==> s[|init| - 2] == init[|init| - 2];
      forall i | 0 <= i < |rest| - 1 && rest[i] == '_' ensures rest[i + 1] != '_' {
        assert s[i] == rest[i] && s[i + 1] == rest[i + 1];
      }
    }
  }

  function Signed(sign: string, n: int): int { if sign == "-" then -n else n }

  /** Grouped digits may carry a sign and stand between white space. */
  lemma ParseIntReads(pre: string, sign: string, t: string, post: string)
    requires Blank(pre) && Blank(post) && Grouped(t) && sign in {"", "+", "-"}
    ensures ParseInt(pre + sign + t + post) == Some(Signed(sign, Value(Plain(t))))
  {
    hide StripLeft, StripRight, ParseDigits, Value, Plain;
    var u := sign + t;
    assert t[0] in t && t[|t| - 1] in t;
    assert pre + sign + t + post == pre + (u + post);
    StripLeftBlank(pre, u + post);
    NothingToStrip(u, post);
    ParseDigitsIff(t);
    assert sign != "" ==> u[1..] == t;
    assert sign == "" ==> u == t;
  }

  lemma NothingToStrip(u: string, post: string)
    requires u != [] && !IsSpace(u[0]) && !IsSpace(u[|u| - 1]) && Blank(post)
    ensures StripLeft(u + post) == u + post && StripRight(u + post) == u
  {
    StripRightBlank(u, post);
  }

  lemma {:induction false} LeftBlank(s: string) returns (pre: string)
    ensures Blank(pre) && s == pre + StripLeft(s)
  {
    if s != [] && IsSpace(s[0]) {
      pre := LeftBlank(s[1..]);
      pre := [s[0]] + pre;
    } else {
      pre := [];
    }
  }

  lemma {:induction false} RightBlank(s: string) returns (post: string)
    ensures Blank(post) && s == StripRight(s) + post
  {
    if s != [] && IsSpace(s[|s| - 1]) {
      post := RightBlank(s[..|s| - 1]);
      post := post + [s[|s| - 1]];
    } else {
      post := [];
    }
  }

  /** And nothing else parses. */
  lemma ParseIntOnly(s: string) returns (pre: string, sign: string, t: string, post: string)
    requires ParseInt(s).Some?
    ensures Blank(pre) && Blank(post) && Grouped(t) && sign in {"", "+", "-"} && s == pre + sign + t + post
  {
    hide StripLeft, StripRight, ParseDigits, Grouped;
    pre := LeftBlank(s);
    post := RightBlank(StripLeft(s));
    var u := StripRight(StripLeft(s));
    var signed := u != [] && (u[0] == '+' || u[0] == '-');
    sign, t := if signed then [u[0]] else "", if signed then u[1..] else u;
    ParseDigitsIff(t);
    assert u == sign + t;
  }

  const LOWER := "abcdefghijklmnopqrstuvwxyz"
  const UPPER := "ABCDEFGHIJKLMNOPQRSTUVWXYZ"

  lemma CaseChars(k: nat)
    requires k < 26
    ensures LOWER[k] == 'a' + k as char && UPPER[k] == 'A' + k as char
  {
  }

  /** Small letters become the capitals at their position, whatever else there is stays. */
  lemma UpperPositions(s: string, i: nat)
    requires i < |s|
    ensures |Upper(s)| == |s|
    ensures 'a' <= s[i] <= 'z' ==> Upper(s)[i] == UPPER[s[i] as int - 'a' as int]
    ensures !('a' <= s[i] <= 'z') ==> Upper(s)[i] == s[i]
  {
    if 'a' <= s[i] <= 'z' {
      CaseChars(s[i] as int - 'a' as int);
    }
  }

  function Rotated(iban: string): string { From(iban, 4) + UpTo(iban, 4) }

  lemma ValidIff(iban: string)
    requires Alnum(iban) && iban != []
    ensures ValidIban(iban) <==> Value(Rotated(iban)) % 97 == 1
  {
    ParsesToValue(Rotated(iban));
  }

  /** Other texts: what counts is the signed number between the white space, if that is all there is. */
  lemma ValidOtherwise(iban: string, pre: string, sign: string, t: string, post: string)
    requires Blank(pre) && Blank(post) && Grouped(t) && sign in {"", "+", "-"}
    requires Translate(Rotated(iban)) == pre + sign + t + post
    ensures ValidIban(iban) <==> Signed(sign, Value(Plain(t))) % 97 == 1
  {
    hide Value, Plain, ParseInt, Translate;
    ParseIntReads(pre, sign, t, post);
  }

  lemma GeneratedOtherwise(iban: string, pre: string, sign: string, t: string, post: string)
    requires Blank(pre) && Blank(post) && Grouped(t) && sign in {"", "+", "-"}
    requires Translate(Rotated(UpTo(iban, 2) + "00" + From(iban, 4))) == pre + sign + t + post
    ensures GenerateCheckDigits(iban) == Some(Padded(98 - Signed(sign, Value(Plain(t))) % 97))
  {
    hide Value, Plain, ParseInt, Translate;
    ParseIntReads(pre, sign, t, post);
  }

  // ----- Round trip and uniqueness -----

  predicate TwoDigits(s: string) { |s| == 2 && IsDigit(s[0]) && IsDigit(s[1]) }

  lemma AppendValue(p: string, x: char)
    ensures Value(p + [x]) == Shift(Value(p), x) + Code(x)
  {
    assert (p + [x])[..|p|] == p;
  }

  lemma TwoDigitValue(s: string, check: string)
    requires TwoDigits(check)
    ensures Value(check) == 10 * Code(check[0]) + Code(check[1])
    ensures Value(s + check) == 100 * Value(s) + Value(check)
  {
    var none, c, d := "", check[0], check[1];
    AppendValue(none, c);
    AppendValue(none + [c], d);
    assert check == none + [c] + [d];
    AppendValue(s, c);
    AppendValue(s + [c], d);
    assert s + check == s + [c] + [d];
  }

  lemma PaddedValue(n: nat)
    requires n < 100
    ensures TwoDigits(Padded(n)) && Value(Padded(n)) == n
  {
    TwoDigitValue("", Padded(n));
  }

  lemma ModComplement(n: int)
    ensures (n + (98 - n % 97)) % 97 == 1
  {
  }

  /** The digits a country and a BBAN call for: two digits from 02 to 98 that complete the number to one
      modulo 97. */
  lemma {:induction false} GeneratedDigits(country: string, before: string, bban: string)
    requires |country| == 2 && |before| == 2 && Alnum(country) && Alnum(bban)
    ensures var g := GenerateCheckDigits(country + before + bban);
      && g.Some? && TwoDigits(g.value)
      && 2 <= Value(g.value) <= 98
      && (100 * Value(bban + country) + Value(g.value)) % 97 == 1
  {
    hide Value, Translate, ParseInt, Padded;
    var zeroed := UpTo(country + before + bban, 2) + "00" + From(country + before + bban, 4);
    assert zeroed == country + "00" + bban;
    assert Rotated(zeroed) == bban + country + "00";
    TwoDigitValue(bban + country, "00");
    ParsesToValue(bban + country + "00");
    ModComplement(100 * Value(bban + country));
    PaddedValue(98 - 100 * Value(bban + country) % 97);
    PaddedValue(0);
  }

  lemma ValidWithCheck(country: string, check: string, bban: string)
    requires |country| == 2 && Alnum(country) && Alnum(bban) && TwoDigits(check)
    ensures ValidIban(country + check + bban) <==> (100 * Value(bban + country) + Value(check)) % 97 == 1
  {
    hide Value, ValidIban;
    var iban := country + check + bban;
    assert Rotated(iban) == bban + country + check;
    ValidIff(iban);
    TwoDigitValue(bban + country, check);
  }

  /** Writing the generated digits at positions 2 and 3 gives a valid IBAN, for every country, every
      BBAN and whatever stood there before. */
  lemma RoundTrip(country: string, before: string, bban: string)
    requires |country| == 2 && |before| == 2 && Alnum(country) && Alnum(bban)
    ensures GenerateCheckDigits(country + before + bban).Some?
    ensures ValidIban(country + GenerateCheckDigits(country + before + bban).value + bban)
  {
    hide Value, GenerateCheckDigits, ValidIban;
    GeneratedDigits(country, before, bban);
    var g := GenerateCheckDigits(country + before + bban).value;
    ValidWithCheck(country, g, bban);
  }

  lemma ModUnique(n: int, x: int, y: int)
    requires (n + x) % 97 == 1 == (n + y) % 97 && 2 <= x <= 98 && 2 <= y <= 98
    ensures x == y
  {
  }

  lemma SameTwoDigits(s: string, t: string)
    requires TwoDigits(s) && TwoDigits(t) && Value(s) == Value(t)
    ensures s == t
  {
    hide Value;
    TwoDigitValue("", s);
    TwoDigitValue("", t);
    assert Code(s[0]) == Code(t[0]) && Code(s[1]) == Code(t[1]);
    assert s == [s[0], s[1]] && t == [t[0], t[1]];
  }

  /** A valid IBAN whose check digits lie from 02 to 98 carries exactly the generated ones. */
  lemma CheckDigitsUnique(country: string, check: string, bban: string)
    requires |country| == 2 && Alnum(country) && Alnum(bban) && TwoDigits(check) && 2 <= Value(check) <= 98
    requires ValidIban(country + check + bban)
    ensures GenerateCheckDigits(country + check + bban) == Some(check)
  {
    hide Value, GenerateCheckDigits, ValidIban;
    GeneratedDigits(country, check, bban);
    ValidWithCheck(country, check, bban);
    var g := GenerateCheckDigits(country + check + bban).value;
    ModUnique(100 * Value(bban + country), Value(check), Value(g));
    SameTwoDigits(check, g);
  }

  /** The validator passes the checksum of exactly one pair of check characters per country and BBAN,
      the generated one, and then only the country decides. */
  lemma ValidatorAcceptsOnePair(country: string, check: string, bban: string, before: string, supported: set<string>)
    requires |country| == 2 && |check| == 2 && |before| == 2 && Alnum(country) && Alnum(check) && Alnum(bban)
    ensures IbanValidator(country + check + bban, supported) ==
      if Some(check) != GenerateCheckDigits(country + before + bban) then InvalidIban
      else if country in supported then Accepted
      else UnsupportedCountry
  {
    hide Value, GenerateCheckDigits, ValidIban;
    var value := country + check + bban;
    assert From(UpTo(value, 4), 2) == check && UpTo(value, 2) == country;
    forall i | 0 <= i < 2 ensures Upper(country)[i] == country[i] {
      assert country[i] in country;
    }
    assert Upper(country) == country;
    CheckDigitsIgnored(country, check, before, bban);
    RoundTrip(country, before, bban);
  }

  /** Generation does not look at what stands at positions 2 and 3. */
  lemma CheckDigitsIgnored(country: string, check: string, before: string, bban: string)
    requires |country| == 2 && |check| == 2 && |before| == 2
    ensures GenerateCheckDigits(country + check + bban) == GenerateCheckDigits(country + before + bban)
  {
    assert UpTo(country + check + bban, 2) == country == UpTo(country + before + bban, 2);
    assert From(country + check + bban, 4) == bban == From(country + before + bban, 4);
  }

  // ----- Error detection -----

  /** Appending zeros to a number that 97 does not divide never makes it divisible. */
  lemma {:induction false} ShiftedNonZero(n: int, t: string)
    requires n % 97 != 0
    ensures Shifted(n, t) % 97 != 0
  {
    if t != [] {
      ShiftedNonZero(n, t[..|t| - 1]);
      TenIsNoZeroDivisor(Shifted(n, t[..|t| - 1]));
      TenIsNoZeroDivisor(10 * Shifted(n, t[..|t| - 1]));
    }
  }

  lemma TenIsNoZeroDivisor(n: int)
    ensures (10 * n) % 97 == 0 ==> n % 97 == 0
  {
    if (10 * n) % 97 == 0 {
      // 10 * 68 == 680 == 7 * 97 + 1
      var k := 10 * n / 97;
      assert n == 97 * (68 * k - 7 * n);
    }
  }

  predicate SameKind(x: char, y: char) {
    (IsDigit(x) && IsDigit(y)) || (IsLetter(x) && IsLetter(y))
  }

  lemma ModDifference(a: int, b: int)
    ensures a % 97 == b % 97 <==> (a - b) % 97 == 0
  {
  }

  lemma TailKeepsDifference(m: int, n: int, v: int, t: string)
    requires (m - n) % 97 != 0
    ensures (Shifted(m, t) + v) % 97 != (Shifted(n, t) + v) % 97
  {
    hide Shifted;
    ShiftedDifference(m, n, t);
    ShiftedNonZero(m - n, t);
    ModDifference(Shifted(m, t) + v, Shifted(n, t) + v);
  }

  /** Two numbers that differ modulo 97 still differ with the same tail appended. */
  lemma DifferentFronts(p: string, q: string, t: string)
    requires (Value(p) - Value(q)) % 97 != 0
    ensures Value(p + t) % 97 != Value(q + t) % 97
  {
    hide Value, Shifted;
    ValueConcat(p, t);
    ValueConcat(q, t);
    TailKeepsDifference(Value(p), Value(q), Value(t), t);
  }

  /** A substitution inside the kind changes the number modulo 97. */
  lemma SubstitutionChangesNumber(r: string, j: nat, y: char)
    requires j < |r| && SameKind(r[j], y) && r[j] != y
    ensures Value(r[j := y]) % 97 != Value(r) % 97
  {
    hide Value;
    var p, x, t := r[..j], r[j], r[j + 1..];
    AppendValue(p, x);
    AppendValue(p, y);
    DifferentFronts(p + [y], p + [x], t);
    assert r == p + [x] + t && r[j := y] == p + [y] + t;
  }

  lemma SwapDifference(p: string, x: char, y: char)
    requires SameKind(x, y) && x != y
    ensures (Value(p + [y] + [x]) - Value(p + [x] + [y])) % 97 != 0
  {
    hide Value;
    AppendValue(p, x);
    AppendValue(p + [x], y);
    AppendValue(p, y);
    AppendValue(p + [y], x);
    var d := Code(x) - Code(y);
    SmallFactor(d, -9);
    SmallFactor(d, -99);
    assert Value(p + [y] + [x]) - Value(p + [x] + [y]) == d * if IsDigit(x) then -9 else -99;
  }

  /** So does exchanging two different neighbours of the same kind. */
  lemma TranspositionChangesNumber(r: string, j: nat)
    requires j + 1 < |r| && SameKind(r[j], r[j + 1]) && r[j] != r[j + 1]
    ensures Value(r[j := r[j + 1]][j + 1 := r[j]]) % 97 != Value(r) % 97
  {
    hide Value;
    var p, x, y, t := r[..j], r[j], r[j + 1], r[j + 2..];
    SwapDifference(p, x, y);
    DifferentFronts(p + [y] + [x], p + [x] + [y], t);
    assert r == p + [x] + [y] + t && r[j := y][j + 1 := x] == p + [y] + [x] + t;
  }

  /** Where a position of the IBAN ends up in the rotated string. */
  function RotatedIndex(n: nat, i: nat): nat
    requires i < n
  {
    if i >= 4 then i - 4 else if n >= 4 then n - 4 + i else i
  }

  lemma RotatedUpdate(iban: string, i: nat, c: char)
    requires i < |iban|
    ensures |Rotated(iban)| == |iban| && RotatedIndex(|iban|, i) < |iban|
    ensures Rotated(iban)[RotatedIndex(|iban|, i)] == iban[i]
    ensures Rotated(iban[i := c]) == Rotated(iban)[RotatedIndex(|iban|, i) := c]
  {
  }

  /** From a valid IBAN of any length, replacing one digit by another digit or one letter by another
      letter, anywhere, is always detected. */
  lemma SubstitutionDetected(iban: string, i: nat, c: char)
    requires Alnum(iban) && ValidIban(iban) && i < |iban| && SameKind(iban[i], c) && iban[i] != c
    ensures !ValidIban(iban[i := c])
  {
    hide Value, ValidIban, Rotated;
    RotatedUpdate(iban, i, c);
    ValidIff(iban);
    SubstitutionChangesNumber(Rotated(iban), RotatedIndex(|iban|, i), c);
    assert Alnum(iban[i := c]);
    ValidIff(iban[i := c]);
  }

  /** Exchanging two adjacent different characters of the same kind is always detected, inside the BBAN
      and inside the first four characters. */
  lemma TranspositionDetected(iban: string, i: nat)
    requires Alnum(iban) && ValidIban(iban) && i + 1 < |iban| && i != 3
    requires SameKind(iban[i], iban[i + 1]) && iban[i] != iban[i + 1]
    ensures !ValidIban(iban[i := iban[i + 1]][i + 1 := iban[i]])
  {
    hide Value, ValidIban, Rotated;
    var x, y := iban[i], iban[i + 1];
    var swapped := iban[i := y][i + 1 := x];
    RotatedUpdate(iban, i, y);
    RotatedUpdate(iban, i + 1, x);
    RotatedUpdate(iban[i := y], i + 1, x);
    ValidIff(iban);
    TranspositionChangesNumber(Rotated(iban), RotatedIndex(|iban|, i));
    assert Alnum(swapped);
    ValidIff(swapped);
  }

  /** Exchanging the fourth and the fifth character moves them to the two ends of the number. */
  lemma ExchangedEnds(iban: string)
    requires Alnum(iban) && ValidIban(iban) && 5 <= |iban| && SameKind(iban[3], iban[4]) && iban[3] != iban[4]
    ensures ValidIban(iban[3 := iban[4]][4 := iban[3]]) <==> Shifted(1, Rotated(iban)[1..]) % 97 == 1
  {
    hide Value, ValidIban, Shifted;
    var x, y := iban[3], iban[4];
    var swapped := iban[3 := y][4 := x];
    var mid := iban[5..] + iban[..3];
    assert Rotated(iban) == [y] + (mid + [x]) && Rotated(swapped) == [x] + (mid + [y]);
    assert Alnum(swapped);
    ValidIff(iban);
    ValidIff(swapped);
    assert Rotated(iban)[1..] == mid + [x];
    EndsDifference(x, mid, y);
  }

  /** Exchanging the two ends moves the number by a multiple of the power between them less one. */
  lemma EndsDifference(x: char, mid: string, y: char)
    requires SameKind(x, y) && x != y
    ensures Value([x] + (mid + [y])) % 97 == Value([y] + (mid + [x])) % 97 <==> Shifted(1, mid + [x]) % 97 == 1
  {
    hide Value, Shifted;
    EndsValue(y, mid, x);
    EndsValue(x, mid, y);
    SameKindShifts(Code(x), mid, x, y);
    EndsArithmetic(Code(x), Code(y), Shift(Value(mid), x), mid + [x]);
  }

  lemma SameKindShifts(n: int, mid: string, x: char, y: char)
    requires SameKind(x, y)
    ensures Shifted(n, mid + [x]) == Shifted(n, mid + [y])
  {
    assert (mid + [y])[..|mid|] == mid == (mid + [x])[..|mid|];
  }

  lemma EndsArithmetic(x: int, y: int, v: int, t: string)
    requires -97 < x - y < 97 && x != y
    ensures (Shifted(x, t) + v + y) % 97 == (Shifted(y, t) + v + x) % 97 <==> Shifted(1, t) % 97 == 1
  {
    hide Shifted;
    ShiftedDifference(x, y, t);
    ShiftedProduct(x - y, t);
    ModDifference(Shifted(x, t) + v + y, Shifted(y, t) + v + x);
    SmallFactor(x - y, Shifted(1, t) - 1);
    ModDifference(Shifted(1, t), 1);
  }

  lemma EndsValue(first: char, mid: string, last: char)
    ensures Value([first] + (mid + [last])) == Shifted(Code(first), mid + [last]) + Shift(Value(mid), last) + Code(last)
  {
    hide Shifted;
    AppendValue("", first);
    assert "" + [first] == [first];
    AppendValue(mid, last);
    ValueConcat([first], mid + [last]);
  }

  lemma {:induction false} ShiftedProduct(d: int, t: string)
    ensures Shifted(d, t) == d * Shifted(1, t)
    ensures Shifted(d, t) - d == d * (Shifted(1, t) - 1)
  {
    if t != [] {
      var k := Shifted(1, t[..|t| - 1]);
      ShiftedProduct(d, t[..|t| - 1]);
      assert d * (100 * k) == 100 * (d * k) && d * (10 * k) == 10 * (d * k);
    }
  }

  lemma Subtract(m: int, n: int, k: int)
    ensures (m - n) * k == m * k - n * k
  {
  }

  lemma Associate(a: int, b: int, c: int)
    ensures a * (b * c) == (a * b) * c
  {
  }

  /** 97 is prime: it divides a product with a small non-zero factor only through the other factor. */
  lemma SmallFactor(d: int, m: int)
    requires -97 < d < 97 && d != 0
    ensures (d * m) % 97 == 0 <==> m % 97 == 0
  {
    var r := m % 97;
    var q := m / 97;
    assert d * m == 97 * (d * q) + d * r by {
      assert m == 97 * q + r;
      Distribute(d, q, r);
    }
    assert (d * m) % 97 == (d * r) % 97 by { ModShift(d * r, d * q); }
    if r != 0 {
      NoDivisor(if d < 0 then -d else d, r);
      Subtract(0, d, r);
      ModNegate(d * r);
    }
  }

  lemma Distribute(d: int, q: int, r: int)
    ensures d * (97 * q + r) == 97 * (d * q) + d * r
  {
  }

  lemma ModNegate(a: int)
    ensures (-a) % 97 == 0 <==> a % 97 == 0
  {
  }

  lemma ModShift(a: int, k: int)
    ensures (97 * k + a) % 97 == a % 97
  {
  }

  /** With 97 == q * a + r, divisibility of a * b passes to r * b. */
  lemma Descend(a: nat, b: nat)
    requires a > 0
    ensures (a * b) % 97 == 0 ==> ((97 % a) * b) % 97 == 0
  {
    if (a * b) % 97 == 0 {
      var q, k := 97 / a, a * b / 97;
      assert 97 % a == 97 - q * a;
      Expand(q, a, b, k);
      ModShift(0, b - q * k);
    }
  }

  /** No product of two numbers from 1 to 96 is divisible by 97. */
  lemma {:induction false} NoDivisor(a: nat, b: nat)
    requires 0 < a < 97 && 0 < b < 97
    ensures (a * b) % 97 != 0
    decreases a
  {
    if a > 1 {
      PrimeRemainder(a);
      NoDivisor(97 % a, b);
      Descend(a, b);
    }
  }

  lemma Expand(q: int, a: int, b: int, k: int)
    requires a * b == 97 * k
    ensures (97 - q * a) * b == 97 * (b - q * k)
  {
    assert (q * a) * b == q * (a * b) by { Associate(q, a, b); }
    assert (97 - q * a) * b == 97 * b - (q * a) * b by { Subtract(97, q * a, b); }
    assert q * (97 * k) == 97 * (q * k);
  }

  lemma PrimeRemainder(a: nat)
    requires 1 < a < 97
    ensures 97 % a != 0
  {
    var q := 97 / a;
    assert 97 == q * a + 97 % a;
    if a < 10 {
      assert a == 2 || a == 3 || a == 4 || a == 5 || a == 6 || a == 7 || a == 8 || a == 9;
    } else {
      assert q == 1 || q == 2 || q == 3 || q == 4 || q == 5 || q == 6 || q == 7 || q == 8 || q == 9;
    }
  }

  // ----- Exchanging a digit and a letter -----

  /** The only digits and letters that can trade places: twice the digit is nine times the letter's code
      modulo 97. */
  predicate Twins(d: char, l: char) {
    (d == '1' && l == 'B') || (d == '2' && l == 'M') || (d == '3' && l == 'X')
  }

  predicate Congruent(m: int, n: int) {
    m % 97 == n % 97
  }

  lemma TailKeepsCongruence(m: int, n: int, v: int, t: string)
    requires Congruent(m, n)
    ensures Congruent(Shifted(m, t) + v, Shifted(n, t) + v)
  {
    hide Shifted;
    ModDifference(m, n);
    ShiftedDifference(m, n, t);
    ShiftedProduct(m - n, t);
    MultipleOfProduct(m - n, Shifted(1, t));
    ModDifference(Shifted(m, t) + v, Shifted(n, t) + v);
  }

  lemma SameFronts(p: string, q: string, t: string)
    requires Congruent(Value(p), Value(q))
    ensures Congruent(Value(p + t), Value(q + t))
  {
    hide Value, Shifted, Congruent;
    ValueConcat(p, t);
    ValueConcat(q, t);
    TailKeepsCongruence(Value(p), Value(q), Value(t), t);
  }

  lemma MultipleOfProduct(d: int, k: int)
    requires d % 97 == 0
    ensures (d * k) % 97 == 0
  {
    var q := d / 97;
    assert d * k == 97 * (q * k) + 0 by {
      Distribute(k, q, 0);
      assert k * (97 * q + 0) == d * k && k * q == q * k;
    }
    ModShift(0, q * k);
  }

  lemma MixedDifference(p: string, d: char, l: char)
    requires IsDigit(d) && IsLetter(l)
    ensures Value(p + [l] + [d]) - Value(p + [d] + [l]) == 9 * Code(l) - 99 * Code(d)
  {
    hide Value;
    AppendValue(p, d);
    AppendValue(p + [d], l);
    AppendValue(p, l);
    AppendValue(p + [l], d);
  }

  lemma SmallMultiples(d: int, l: int)
    requires 0 <= d <= 9 && 10 <= l <= 35
    ensures (9 * l - 99 * d) % 97 == 0 <==> (d == 1 && l == 11) || (d == 2 && l == 22) || (d == 3 && l == 33)
  {
    ModShift(9 * l - 2 * d, -d);
    assert (9 * l - 99 * d) % 97 == 0 <==>
      9 * l - 2 * d == 97 || 9 * l - 2 * d == 2 * 97 || 9 * l - 2 * d == 3 * 97;
  }

  /** A digit and a letter next to each other can trade places without changing the number modulo 97,
      whatever stands around them, exactly when they are twins. */
  lemma MixedTranspositionIff(p: string, d: char, l: char, t: string)
    requires IsDigit(d) && IsLetter(l)
    ensures Value(p + [l] + [d] + t) % 97 == Value(p + [d] + [l] + t) % 97 <==> Twins(d, l)
  {
    hide Value;
    MixedDifference(p, d, l);
    SmallMultiples(Code(d), Code(l));
    if Twins(d, l) {
      ModDifference(Value(p + [l] + [d]), Value(p + [d] + [l]));
      SameFronts(p + [l] + [d], p + [d] + [l], t);
    } else {
      DifferentFronts(p + [l] + [d], p + [d] + [l], t);
    }
  }

  /** For instance `1B` and `B1`, which even stand for the same number. */
  lemma MixedTranspositionCollides(p: string, t: string)
    ensures Value(p + "1B" + t) == Value(p + "B1" + t)
  {
    hide Value, Shifted;
    MixedDifference(p, '1', 'B');
    assert p + ['1'] + ['B'] == p + "1B" && p + ['B'] + ['1'] == p + "B1";
    ValueConcat(p + "1B", t);
    ValueConcat(p + "B1", t);
  }

  lemma AdjacentNumberIff(r: string, j: nat)
    requires Alnum(r) && j + 1 < |r| && r[j] != r[j + 1]
    ensures Value(r[j := r[j + 1]][j + 1 := r[j]]) % 97 == Value(r) % 97
       <==> Twins(r[j], r[j + 1]) || Twins(r[j + 1], r[j])
  {
    hide Value;
    var p, x, y, t := r[..j], r[j], r[j + 1], r[j + 2..];
    assert x in r && y in r;
    if SameKind(x, y) {
      TranspositionChangesNumber(r, j);
    } else {
      assert r == p + [x] + [y] + t && r[j := y][j + 1 := x] == p + [y] + [x] + t;
      if IsDigit(x) {
        MixedTranspositionIff(p, x, y, t);
      } else {
        MixedTranspositionIff(p, y, x, t);
      }
    }
  }

  /** Exchanging two adjacent different characters of a valid IBAN, inside the BBAN or inside the first
      four, goes undetected exactly when they are a digit and its twin letter. */
  lemma TranspositionUndetectedIff(iban: string, i: nat)
    requires Alnum(iban) && ValidIban(iban) && i + 1 < |iban| && i != 3 && iban[i] != iban[i + 1]
    ensures ValidIban(iban[i := iban[i + 1]][i + 1 := iban[i]])
        <==> Twins(iban[i], iban[i + 1]) || Twins(iban[i + 1], iban[i])
  {
    hide Value, ValidIban, Rotated, Twins;
    var x, y := iban[i], iban[i + 1];
    var swapped := iban[i := y][i + 1 := x];
    RotatedUpdate(iban, i, y);
    RotatedUpdate(iban, i + 1, x);
    RotatedUpdate(iban[i := y], i + 1, x);
    RotatedAlnum(iban);
    ValidIff(iban);
    AdjacentNumberIff(Rotated(iban), RotatedIndex(|iban|, i));
    assert Alnum(swapped);
    ValidIff(swapped);
  }

  lemma RotatedAlnum(iban: string)
    requires Alnum(iban)
    ensures Alnum(Rotated(iban))
  {
  }

  // ----- The order of ten modulo 97 -----

  /** The product modulo 97. */
  function Times(x: int, y: int): (r: nat)
    ensures r < 97
  {
    x * y % 97
  }

  /** The power of ten, modulo 97. */
  function Power(k: nat): (r: nat)
    ensures r < 97
  {
    if k == 0 then 1 else Times(10, Power(k - 1))
  }

  lemma TimesSwap(x: int, y: int, z: int)
    ensures Times(x, Times(y, z)) == Times(y, Times(x, z))
  {
    assert x * (y * z) == y * (x * z) by {
      Associate(x, y, z);
      Associate(y, x, z);
    }
    assert Times(x, Times(y, z)) == x * (y * z) % 97 by { TimesMod(x, y * z); }
    assert Times(y, Times(x, z)) == y * (x * z) % 97 by { TimesMod(y, x * z); }
  }

  lemma TimesOne(x: nat)
    requires x < 97
    ensures Times(x, 1) == x == Times(1, x)
  {
  }

  lemma {:induction false} PowerAdds(a: nat, b: nat)
    ensures Power(a + b) == Times(Power(a), Power(b))
  {
    hide Times;
    if b == 0 {
      TimesOne(Power(a));
    } else {
      PowerAdds(a, b - 1);
      TimesSwap(10, Power(a), Power(b - 1));
    }
  }

  lemma TimesMod(c: int, n: int)
    ensures (c * (n % 97)) % 97 == (c * n) % 97
  {
    var q := n / 97;
    Distribute(c, q, n % 97);
    ModShift(c * (n % 97), c * q);
  }

  lemma Double(k: nat, r: nat)
    requires Power(k) == r
    ensures Power(k + k) == Times(r, r)
  {
    hide Power, Times;
    PowerAdds(k, k);
  }

  lemma FirstPowers()
    ensures Power(0) == 1 && Power(1) == 10 && Power(2) == 3 && Power(3) == 30
  {
  }

  lemma Powers()
    ensures Power(1) == 10 && Power(2) == 3 && Power(3) == 30 && Power(4) == 9 && Power(6) == 27 && Power(8) == 81
    ensures Power(12) == 50 && Power(16) == 62 && Power(24) == 75 && Power(32) == 61 && Power(48) == 96
    ensures Power(96) == 1
  {
    hide Power;
    FirstPowers();
    Double(2, 3);
    Double(3, 30);
    Double(4, 9);
    Double(6, 27);
    Double(8, 81);
    Double(12, 50);
    Double(16, 62);
    Double(24, 75);
    Double(48, 96);
  }

  lemma PowerStep(k: nat, n: nat)
    requires Power(k) == 1
    ensures Power(k + n) == Power(n)
  {
    hide Power, Times;
    PowerAdds(k, n);
    TimesOne(Power(n));
  }

  lemma OneMore(m: int, k: int)
    ensures m * k == k + (m - 1) * k
  {
  }

  /** With 96 == m * k + r, a power of ten that returns to one after k steps does so after r steps. */
  lemma {:induction false} PowerReturns(k: nat, m: nat, r: nat)
    requires Power(k) == 1
    ensures m * k + r >= 0 && Power(m * k + r) == Power(r)
  {
    hide Power;
    if m > 0 {
      PowerReturns(k, m - 1, r);
      OneMore(m, k);
      PowerStep(k, (m - 1) * k + r);
    }
  }

  lemma {:induction false} NotOneBefore(k: nat)
    requires 0 < k < 96
    ensures Power(k) != 1
    decreases k
  {
    hide Power;
    Powers();
    if 96 % k != 0 {
      NotOneBefore(96 % k);
      if Power(k) == 1 {
        PowerReturns(k, 96 / k, 96 % k);
      }
    } else {
      DivisorsOf96(k);
    }
  }

  lemma DivisorsOf96(k: nat)
    requires 0 < k < 96 && 96 % k == 0
    ensures k in {1, 2, 3, 4, 6, 8, 12, 16, 24, 32, 48}
  {
    var q := 96 / k;
    assert 96 == q * k;
    if k >= 10 {
      assert q in {2, 3, 4, 5, 6, 7, 8, 9};
    }
  }

  lemma PowerIsOneIff(k: nat)
    ensures Power(k) == 1 <==> k % 96 == 0
  {
    hide Power;
    Powers();
    PowerReturns(96, k / 96, k % 96);
    assert 96 * (k / 96) == (k / 96) * 96;
    if k % 96 != 0 {
      NotOneBefore(k % 96);
    } else {
      PowerReturns(96, 0, 0);
      ZeroPower();
    }
  }

  lemma ZeroPower()
    ensures Power(0) == 1
  {
  }

  /** The decimal places that `s` takes. */
  function Places(s: string): nat {
    if s == [] then 0 else Places(s[..|s| - 1]) + if IsLetter(s[|s| - 1]) then 2 else 1
  }

  lemma {:induction false} ShiftedIsPower(s: string)
    ensures Shifted(1, s) % 97 == Power(Places(s))
    ensures |s| <= Places(s) <= 2 * |s|
  {
    if s != [] {
      var n := Shifted(1, s[..|s| - 1]);
      ShiftedIsPower(s[..|s| - 1]);
      TimesMod(10, n);
      TimesMod(10, 10 * n);
      assert 10 * (10 * n) == 100 * n;
    }
  }

  /** Exchanging the last check digit with the first character of the BBAN, both of the same kind, goes
      undetected exactly when the decimal places behind the first of them are a multiple of 96. */
  lemma TranspositionAcrossTheFront(iban: string)
    requires Alnum(iban) && ValidIban(iban) && 5 <= |iban| && SameKind(iban[3], iban[4]) && iban[3] != iban[4]
    ensures ValidIban(iban[3 := iban[4]][4 := iban[3]]) <==> Places(Rotated(iban)[1..]) % 96 == 0
  {
    hide Value, ValidIban, Shifted, Rotated, Power, Places;
    ExchangedEnds(iban);
    RotatedUpdate(iban, 4, iban[4]);
    ShiftedIsPower(Rotated(iban)[1..]);
    PowerIsOneIff(Places(Rotated(iban)[1..]));
  }

  /** Up to 48 characters, and the longest IBAN has 34, that exchange is always detected too. */
  lemma ShortTranspositionDetected(iban: string)
    requires Alnum(iban) && ValidIban(iban) && 5 <= |iban| <= 48 && SameKind(iban[3], iban[4]) && iban[3] != iban[4]
    ensures !ValidIban(iban[3 := iban[4]][4 := iban[3]])
  {
    hide Value, ValidIban, Rotated, Places;
    TranspositionAcrossTheFront(iban);
    RotatedUpdate(iban, 4, iban[4]);
    ShiftedIsPower(Rotated(iban)[1..]);
  }
}
