/**
 * The `comments_numb` template filter: the Russian phrase that announces how
 * many comments a post has ("нет комментариев", "21 комментарий",
 * "3 комментария", "15 комментариев").
 *
 * The filter receives a Python `int`. Python's `%` by a positive divisor never
 * returns a negative remainder, which is also what Dafny's `%` does, so
 * `value % 10` is written as it stands. `f'{value}'` is `Show(value)`.
 */
module UserFilters {
  import opened Optional

  const NoComments: string := "нет комментариев"
  /** Genitive plural: 0, 5-20, 25-30, ... comments. */
  const NounMany: string := "комментариев"
  /** Nominative singular: 1, 21, 31, ... comments. */
  const NounOne: string := "комментарий"
  /** Genitive singular: 2-4, 22-24, ... comments. */
  const NounFew: string := "комментария"

  // ---------------------------------------------------------------------------
  // Decimal rendering of an integer, as Python's f'{value}' writes it
  // ---------------------------------------------------------------------------

  predicate IsDigit(c: char) {
    '0' <= c <= '9'
  }

  function DigitChar(d: nat): (c: char)
    requires d < 10
    ensures IsDigit(c)
  {
    (d + '0' as int) as char
  }

  function DigitValue(c: char): (d: nat)
    requires IsDigit(c)
    ensures d < 10 && DigitChar(d) == c
  {
    c as int - '0' as int
  }

  /** The decimal digits of `n`, most significant first, without leading zeros. */
  function Digits(n: nat): (r: string)
    ensures |r| >= 1
    ensures forall i :: 0 <= i < |r| ==> IsDigit(r[i])
    ensures r[0] == '0' <==> n == 0
  {
    if n < 10 then [DigitChar(n)] else Digits(n / 10) + [DigitChar(n % 10)]
  }

  /** The text Python's f'{value}' produces for an int. */
  function Show(v: int): (r: string)
    ensures |r| >= 1
    ensures ' ' !in r
    ensures r[0] == '-' || IsDigit(r[0])
  {
    if v < 0 then "-" + Digits(-v) else Digits(v)
  }

  /** Reads a non-empty run of decimal digits; None for anything else. */
  function ParseNat(s: string): (r: Option<nat>)
    ensures r.Some? <==> |s| > 0 && forall i :: 0 <= i < |s| ==> IsDigit(s[i])
  {
    if |s| == 0 || !IsDigit(s[|s| - 1]) then None
    else if |s| == 1 then Some(DigitValue(s[0]))
    else
      match ParseNat(s[..|s| - 1])
      case None => None
      case Some(m) => Some(10 * m + DigitValue(s[|s| - 1]))
  }

  /** Reads an optional minus sign followed by decimal digits. */
  function ParseInt(s: string): (r: Option<int>) {
    if |s| > 0 && s[0] == '-' then
      match ParseNat(s[1..])
      case None => None
      case Some(m) => Some(-(m as int))
    else
      match ParseNat(s)
      case None => None
      case Some(m) => Some(m)
  }

  lemma {:induction false} DigitsRoundTrip(n: nat)
    ensures ParseNat(Digits(n)) == Some(n)
  {
    if n >= 10 {
      var s := Digits(n);
      assert s[..|s| - 1] == Digits(n / 10);
      DigitsRoundTrip(n / 10);
    }
  }

  /** The rendering of a number reads back as that number. */
  lemma ShowRoundTrip(v: int)
    ensures ParseInt(Show(v)) == Some(v)
  {
    if v < 0 {
      assert Show(v)[1..] == Digits(-v);
      DigitsRoundTrip(-v);
    } else {
      DigitsRoundTrip(v);
    }
  }

  /** Two numbers are rendered alike only when they are equal. */
  lemma ShowInjective(v: int, w: int)
    requires Show(v) == Show(w)
    ensures v == w
  {
    ShowRoundTrip(v);
    ShowRoundTrip(w);
  }

  // ---------------------------------------------------------------------------
  // The filter as written
  // ---------------------------------------------------------------------------

  /** A rendered number starts with a digit or a minus sign, never with the "н" of "нет". */
  lemma PhraseIsNotNoComments(v: int, w: string)
    ensures Show(v) + " " + w != NoComments
  {
    assert NoComments[0] == 'н';
    assert (Show(v) + " " + w)[0] == Show(v)[0];
  }

  /** `comments_numb(value)`: the if/elif chain of the filter, branch for branch. */
  function CommentsNumb(value: int): (r: string)
  {
    var remainder := value % 10;
    if value == 0 then NoComments
    else if remainder == 0 || remainder >= 5 || (10 <= value <= 19) then Show(value) + " " + NounMany
    else if remainder == 1 then Show(value) + " " + NounOne
    else Show(value) + " " + NounFew
  }

  /** "нет комментариев" is printed for zero and for nothing else. */
  lemma OnlyZeroHasNoComments(v: int)
    ensures CommentsNumb(v) == NoComments <==> v == 0
  {
    if v != 0 {
      SuffixOfPhrase(v);
      PhraseIsNotNoComments(v, CommentsNumb(v)[|Show(v)| + 1..]);
    }
  }

  /** Every nonzero count is written as its decimal rendering, a space, and one of the three nouns. */
  lemma CountedPhrase(v: int)
    requires v != 0
    ensures var r, k := CommentsNumb(v), |Show(v)| + 1;
      |r| > k && r[..k] == Show(v) + " " && r[k..] in {NounMany, NounOne, NounFew}
  {
    var r, k := CommentsNumb(v), |Show(v)| + 1;
    assert r[..k] == Show(v) + " ";
  }

  /** The case split of the filter, stated per case. */
  lemma NounChoice(v: int)
    ensures 10 <= v <= 19 ==> CommentsNumb(v) == Show(v) + " " + NounMany
    ensures v != 0 && (v % 10 == 0 || v % 10 >= 5) ==> CommentsNumb(v) == Show(v) + " " + NounMany
    ensures !(10 <= v <= 19) && v % 10 == 1 ==> CommentsNumb(v) == Show(v) + " " + NounOne
    ensures !(10 <= v <= 19) && 2 <= v % 10 <= 4 ==> CommentsNumb(v) == Show(v) + " " + NounFew
  {
  }

  /** What the filter prints for small counts. */
  lemma Samples()
    ensures CommentsNumb(0) == "нет комментариев"
    ensures CommentsNumb(1) == "1 комментарий"
    ensures CommentsNumb(11) == "11 комментариев"
    ensures CommentsNumb(21) == "21 комментарий"
  {
    ShowSamples();
    assert CommentsNumb(1) == Show(1) + " " + NounOne;
    assert CommentsNumb(11) == Show(11) + " " + NounMany;
    assert CommentsNumb(21) == Show(21) + " " + NounOne;
  }

  /** What the filter prints past one hundred: 111 and 112 are not treated as teens. */
  lemma HundredsSamples()
    ensures CommentsNumb(101) == "101 комментарий"
    ensures CommentsNumb(111) == "111 комментарий"
    ensures CommentsNumb(112) == "112 комментария"
  {
    ShowSamples();
    assert CommentsNumb(101) == Show(101) + " " + NounOne;
    assert CommentsNumb(111) == Show(111) + " " + NounOne;
    assert CommentsNumb(112) == Show(112) + " " + NounFew;
  }

  lemma ShowSamples()
    ensures Show(1) == "1" && Show(11) == "11" && Show(21) == "21"
    ensures Show(101) == "101" && Show(111) == "111" && Show(112) == "112"
  {
    assert Digits(1) == "1";
    assert Digits(2) == "2";
    assert Digits(10) == Digits(1) + "0" == "10";
    assert Digits(11) == Digits(1) + "1" == "11";
    assert Digits(21) == Digits(2) + "1" == "21";
    assert Digits(101) == Digits(10) + "1" == "101";
    assert Digits(111) == Digits(11) + "1" == "111";
    assert Digits(112) == Digits(11) + "2" == "112";
  }

  /** The words after the number, for a nonzero count. */
  function Suffix(v: int): (r: string)
    requires v != 0
  {
    CommentsNumb(v)[|Show(v)|..]
  }

  /** From 20 on, the noun depends on the last digit alone. */
  lemma SuffixByLastDigit(v: int, w: int)
    requires v >= 20 && w >= 20 && v % 10 == w % 10
    ensures Suffix(v) == Suffix(w)
  {
    SuffixOfPhrase(v);
    SuffixOfPhrase(w);
  }

  lemma SuffixOfPhrase(v: int)
    requires v != 0
    ensures var noun := CommentsNumb(v)[|Show(v)| + 1..];
      Suffix(v) == " " + noun && CommentsNumb(v) == Show(v) + " " + noun
  {
    var r := CommentsNumb(v);
    var noun := r[|Show(v)| + 1..];
    assert r == Show(v) + " " + noun;
  }

  lemma SuffixPeriodic(v: int)
    requires v >= 20
    ensures Suffix(v) == Suffix(v + 10)
  {
    SuffixByLastDigit(v, v + 10);
  }

  // ---------------------------------------------------------------------------
  // Reading the phrase back
  // ---------------------------------------------------------------------------

  /** The longest prefix of `s` that holds no space. */
  function BeforeSpace(s: string): (r: string)
    ensures |r| <= |s| && r == s[..|r|] && ' ' !in r
    ensures |r| < |s| ==> s[|r|] == ' '
  {
    if s == [] || s[0] == ' ' then [] else [s[0]] + BeforeSpace(s[1..])
  }

  lemma BeforeSpaceOfJoin(a: string, w: string)
    requires ' ' !in a
    ensures BeforeSpace(a + " " + w) == a
  {
    var s := a + " " + w;
    assert s[..|a|] == a && s[|a|] == ' ';
  }

  /** The count a phrase of the filter announces. */
  function ReadCount(s: string): (r: Option<int>) {
    if s == NoComments then Some(0) else ParseInt(BeforeSpace(s))
  }

  /** The phrase names exactly the count it was made from. */
  lemma ReadCountInverse(v: int)
    ensures ReadCount(CommentsNumb(v)) == Some(v)
  {
    if v != 0 {
      var r := CommentsNumb(v);
      OnlyZeroHasNoComments(v);
      SuffixOfPhrase(v);
      BeforeSpaceOfJoin(Show(v), r[|Show(v)| + 1..]);
      ShowRoundTrip(v);
    }
  }

  // ---------------------------------------------------------------------------
  // Russian plural categories (CLDR rules for integers) as the reference
  // ---------------------------------------------------------------------------

  datatype PluralCategory = One | Few | Many

  /** CLDR, Russian, integer n: one if n%10 = 1 and n%100 != 11; few if n%10 in 2..4 and n%100 not in 12..14; many otherwise. */
  function RussianCategory(n: nat): (r: PluralCategory) {
    if n % 10 == 1 && n % 100 != 11 then One
    else if 2 <= n % 10 <= 4 && !(12 <= n % 100 <= 14) then Few
    else Many
  }

  function Noun(c: PluralCategory): (r: string) {
    match c
    case One => NounOne
    case Few => NounFew
    case Many => NounMany
  }

  lemma LastDigitOfLastTwo(v: nat)
    ensures v % 100 % 10 == v % 10
    ensures v < 100 ==> v % 100 == v
  {
    var q, r := v / 100, v % 100;
    assert v == 100 * q + r;
    assert v == 10 * (10 * q) + r;
  }

  /**
   * The filter agrees with the Russian plural rules for a positive count
   * exactly when the count is not 111-114, 211-214, ... (a number of hundreds
   * followed by 11 to 14).
   */
  lemma MatchesCldrUnlessHundredTeen(v: int)
    requires v > 0
    ensures CommentsNumb(v) == Show(v) + " " + Noun(RussianCategory(v))
        <==> !(v >= 100 && 11 <= v % 100 <= 14)
  {
    LastDigitOfLastTwo(v);
    if v >= 100 && 11 <= v % 100 <= 14 {
      assert CommentsNumb(v)[|Show(v)| + 1..] != NounMany;
    }
  }

  /** 111 is a counterexample: the filter says "комментарий" where Russian wants "комментариев". */
  lemma HundredElevenMisdeclined()
    ensures CommentsNumb(111) == "111 комментарий"
    ensures RussianCategory(111) == Many
    ensures CommentsNumb(111) != Show(111) + " " + Noun(RussianCategory(111))
  {
    HundredsSamples();
  }

  /** The filter with the 11-14 test made on the last two digits, as the plural rules ask. */
  function CommentsNumbCldr(value: int): (r: string)
  {
    var remainder := value % 10;
    if value == 0 then NoComments
    else if remainder == 0 || remainder >= 5 || (11 <= value % 100 <= 14) then Show(value) + " " + NounMany
    else if remainder == 1 then Show(value) + " " + NounOne
    else Show(value) + " " + NounFew
  }

  /** The corrected filter follows the plural rules for every positive count. */
  lemma CorrectedFollowsCldr(v: int)
    requires v > 0
    ensures CommentsNumbCldr(v) == Show(v) + " " + Noun(RussianCategory(v))
  {
    LastDigitOfLastTwo(v);
  }

  /** Below 100 the corrected filter prints what the original prints. */
  lemma CorrectedAgreesBelowHundred(v: int)
    requires 0 <= v < 100
    ensures CommentsNumbCldr(v) == CommentsNumb(v)
  {
    LastDigitOfLastTwo(v);
  }
}
