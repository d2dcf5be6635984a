/** The reward key written to the ledger's `description` column:
    "CG-BC" + clan id + "-" + day as matched + month capitalised + two year characters. */
module RewardKey {
  import opened Options
  import opened Text

  function DigitChar(d: nat): (c: char)
    requires d < 10
    ensures IsDigit(c) && (c == '0' <==> d == 0)
  {
    "0123456789"[d]
  }

  function DigitValue(c: char): (d: nat)
    requires IsDigit(c)
    ensures d < 10 && DigitChar(d) == c
  {
    c as int - '0' as int
  }

  /** Decimal rendering of a number, as a template literal or `toString` writes it. */
  function NatToString(n: nat): (s: string)
    ensures 1 <= |s| && AllDigits(s)
    ensures |s| == 1 <==> n < 10
    ensures s[0] == '0' <==> n == 0
    decreases n
  {
    if n < 10 then [DigitChar(n)] else NatToString(n / 10) + [DigitChar(n % 10)]
  }

  /** The number a string of decimal digits denotes. */
  function ParseNat(s: string): nat
    requires AllDigits(s)
  {
    if s == [] then 0 else ParseNat(s[..|s| - 1]) * 10 + DigitValue(s[|s| - 1])
  }

  lemma {:induction false} ParseNatToString(n: nat)
    ensures ParseNat(NatToString(n)) == n
    decreases n
  {
    if n >= 10 {
      var s := NatToString(n);
      assert s[..|s| - 1] == NatToString(n / 10);
      ParseNatToString(n / 10);
    }
  }

  /** `slice(-2)`: the last two characters, or the whole string when it is shorter. */
  function LastTwo(s: string): (r: string)
    ensures |r| == if |s| < 2 then |s| else 2
    ensures s == s[..|s| - |r|] + r
  {
    if |s| <= 2 then s else s[|s| - 2..]
  }

  /** The year part of the key: the last two characters of the matched year, or of the
      current year when the message named none. */
  function YearSuffix(year: Option<string>, currentYear: nat): string {
    match year
    case Some(y) => LastTwo(y)
    case None => LastTwo(NatToString(currentYear))
  }

  /** `charAt(0).toUpperCase() + slice(1).toLowerCase()`. A matched month is three ASCII
      letters, for which the ASCII mappings are the JavaScript ones. */
  function Capitalize(s: string): (r: string)
    ensures |r| == |s|
    ensures (forall i :: 0 <= i < |s| ==> IsAsciiLetter(s[i])) ==>
      && AsciiLower(r) == AsciiLower(s)
      && (|s| > 0 ==> 'A' <= r[0] <= 'Z')
      && (forall i :: 1 <= i < |r| ==> 'a' <= r[i] <= 'z')
  {
    if s == [] then [] else [AsciiUpperChar(s[0])] + AsciiLower(s[1..])
  }

  /** The parts a key is assembled from, with the month already capitalised and the
      year already cut to its suffix. */
  datatype KeyParts = KeyParts(clan: nat, day: string, month: string, yy: string)

  function Assemble(k: KeyParts): string {
    "CG-BC" + NatToString(k.clan) + "-" + k.day + k.month + k.yy
  }

  /** The parts of the key for one clan gathering: the month capitalised and the year cut
      to its suffix. */
  function PartsOf(clan: nat, day: string, month: string, year: Option<string>, currentYear: nat): KeyParts {
    KeyParts(clan, day, Capitalize(month), YearSuffix(year, currentYear))
  }

  /** The ledger description for one clan gathering. */
  function Key(clan: nat, day: string, month: string, year: Option<string>, currentYear: nat): string {
    Assemble(PartsOf(clan, day, month, year, currentYear))
  }

  /** Index of the first `-` in `s` at or after `i`, or `|s|`. */
  function FindDash(s: string, i: nat): (j: nat)
    requires i <= |s|
    ensures i <= j <= |s|
    ensures forall k :: i <= k < j ==> s[k] != '-'
    ensures j < |s| ==> s[j] == '-'
    decreases |s| - i
  {
    if i == |s| || s[i] == '-' then i else FindDash(s, i + 1)
  }

  lemma FindDashAt(s: string, i: nat, j: nat)
    requires i <= j < |s| && s[j] == '-'
    requires forall k :: i <= k < j ==> s[k] != '-'
    ensures FindDash(s, i) == j
    decreases j - i
  {
    if i < j {
      FindDashAt(s, i + 1, j);
    }
  }

  /** Reads a key back: after the `CG-BC` prefix, the clan digits run up to the first `-`;
      from the end, two characters of year and three of month; what is left is the day. */
  function Parse(key: string): Option<KeyParts> {
    if |key| < 5 || key[..5] != "CG-BC" then None else ParseRest(key[5..])
  }

  function ParseRest(rest: string): Option<KeyParts> {
    var d := FindDash(rest, 0);
    if d == 0 || d == |rest| || !AllDigits(rest[..d]) || |rest| - d - 1 < 5 then None
    else
      var tail := rest[d + 1..];
      Some(KeyParts(ParseNat(rest[..d]), tail[..|tail| - 5],
                    tail[|tail| - 5..|tail| - 2], tail[|tail| - 2..]))
  }

  lemma SplitTail(day: string, month: string, yy: string)
    requires |month| == 3 && |yy| == 2
    ensures var t := day + month + yy;
      t[..|t| - 5] == day && t[|t| - 5..|t| - 2] == month && t[|t| - 2..] == yy
  {
    var t := day + month + yy;
    assert t[..|t| - 5] == day;
    forall i | 0 <= i < 3 ensures t[|t| - 5..|t| - 2][i] == month[i] {
      assert t[|t| - 5 + i] == month[i];
    }
    assert t[|t| - 2..] == yy;
  }

  lemma SplitAtDash(c: string, tail: string)
    requires AllDigits(c) && 1 <= |c|
    ensures var rest := c + "-" + tail;
      FindDash(rest, 0) == |c| && rest[..|c|] == c && rest[|c| + 1..] == tail
  {
    var rest := c + "-" + tail;
    assert forall i :: 0 <= i < |c| ==> rest[i] == c[i];
    FindDashAt(rest, 0, |c|);
    assert rest[..|c|] == c;
    assert rest[|c| + 1..] == tail;
  }

  /** Parsing a key past its fixed prefix. */
  lemma ParseAfterPrefix(rest: string)
    ensures Parse("CG-BC" + rest) == ParseRest(rest)
  {
    var key := "CG-BC" + rest;
    assert |key| >= 5 && key[..5] == "CG-BC" && key[5..] == rest;
  }

  /** Parsing what follows the prefix: a numeral, a dash and a tail of at least five
      characters. The numeral is the clan; the tail splits from its end. */
  lemma ParseOfParts(c: string, tail: string)
    requires AllDigits(c) && 1 <= |c| && |tail| >= 5
    ensures ParseRest(c + "-" + tail)
         == Some(KeyParts(ParseNat(c), tail[..|tail| - 5], tail[|tail| - 5..|tail| - 2], tail[|tail| - 2..]))
  {
    var rest := c + "-" + tail;
    SplitAtDash(c, tail);
    assert FindDash(rest, 0) == |c| && rest[..|c|] == c && rest[|c| + 1..] == tail;
  }

  /** Parsing inverts assembling whenever the month has three characters and the year
      suffix two: the key loses none of its parts. */
  lemma {:induction false} ParseAssemble(k: KeyParts)
    requires |k.month| == 3 && |k.yy| == 2
    ensures Parse(Assemble(k)) == Some(k)
  {
    var c := NatToString(k.clan);
    var tail := k.day + k.month + k.yy;
    assert Assemble(k) == "CG-BC" + (c + "-" + tail);
    ParseAfterPrefix(c + "-" + tail);
    ParseOfParts(c, tail);
    ParseNatToString(k.clan);
    SplitTail(k.day, k.month, k.yy);
  }

  /** Two gatherings share a ledger entry exactly when they agree on the clan, the day as
      written, the month up to case and the year suffix. */
  lemma KeyInjective(a: KeyParts, b: KeyParts)
    requires |a.month| == 3 && |a.yy| == 2 && |b.month| == 3 && |b.yy| == 2
    ensures Assemble(a) == Assemble(b) <==> a == b
  {
    ParseAssemble(a);
    ParseAssemble(b);
  }

  /** From year ten on, the current year contributes its last two decimal digits. */
  lemma {:induction false} CurrentYearSuffix(y: nat)
    requires y >= 10
    ensures YearSuffix(None, y) == [DigitChar((y / 10) % 10), DigitChar(y % 10)]
  {
    var s := NatToString(y);
    var t := NatToString(y / 10);
    assert s == t + [DigitChar(y % 10)];
    if y / 10 >= 10 {
      assert t == NatToString(y / 100) + [DigitChar((y / 10) % 10)];
    }
    assert t[|t| - 1] == DigitChar((y / 10) % 10);
  }

  /** Appending a digit: the number of the longer numeral has that digit as its last
      decimal digit, and the shorter numeral's number as its quotient by ten. */
  lemma {:induction false} LastDigit(s: string)
    requires AllDigits(s) && |s| >= 1
    ensures ParseNat(s) % 10 == DigitValue(s[|s| - 1])
    ensures ParseNat(s) / 10 == ParseNat(s[..|s| - 1])
  {
    var front, d := ParseNat(s[..|s| - 1]), DigitValue(s[|s| - 1]);
    assert ParseNat(s) == front * 10 + d;
    AppendDigit(front, d);
  }

  lemma AppendDigit(a: nat, d: nat)
    requires d < 10
    ensures (a * 10 + d) % 10 == d && (a * 10 + d) / 10 == a
  {
  }

  /** The last two digits of a four-digit year, as numbers. */
  lemma FourDigitYearDigits(ys: string)
    requires |ys| == 4 && AllDigits(ys)
    ensures DigitValue(ys[3]) == ParseNat(ys) % 10
    ensures DigitValue(ys[2]) == (ParseNat(ys) / 10) % 10
  {
    LastDigit(ys);
    var front := ys[..3];
    assert front[|front| - 1] == ys[2];
    LastDigit(front);
  }

  /** A message that names a four-digit year and one that names none give the same key
      exactly when the named year and the current year agree in their last two digits:
      "13 Nov 2025", "13 Nov 1925" and "13 Nov" in 2025 are one gathering. */
  lemma NamedYearMeetsCurrentYear(ys: string, y: nat)
    requires |ys| == 4 && AllDigits(ys) && y >= 10
    ensures YearSuffix(Some(ys), y) == YearSuffix(None, y) <==> ParseNat(ys) % 100 == y % 100
  {
    CurrentYearSuffix(y);
    FourDigitYearDigits(ys);
    var v := ParseNat(ys);
    assert YearSuffix(Some(ys), y) == [ys[2], ys[3]];
    if YearSuffix(Some(ys), y) == YearSuffix(None, y) {
      assert DigitValue(ys[2]) == (y / 10) % 10 && DigitValue(ys[3]) == y % 10;
      TwoDigitsDetermineRemainder(v, y);
    }
    if v % 100 == y % 100 {
      RemainderDeterminesTwoDigits(v, y);
      assert ys[2] == DigitChar((y / 10) % 10) && ys[3] == DigitChar(y % 10);
    }
  }

  /** The tens and units digits of a number are those of its remainder by a hundred. */
  lemma DigitsOfRemainder(a: nat)
    ensures (a / 10) % 10 == (a % 100) / 10 && a % 10 == (a % 100) % 10
  {
    var q, r := a / 100, a % 100;
    assert a == 100 * q + r;
    assert r == 10 * (r / 10) + r % 10;
    assert a == 10 * (10 * q + r / 10) + r % 10;
    assert a / 10 == 10 * q + r / 10;
    assert a % 10 == r % 10;
  }

  lemma TwoDigitsDetermineRemainder(a: nat, b: nat)
    requires (a / 10) % 10 == (b / 10) % 10 && a % 10 == b % 10
    ensures a % 100 == b % 100
  {
    DigitsOfRemainder(a);
    DigitsOfRemainder(b);
    var ra, rb := a % 100, b % 100;
    assert ra == 10 * (ra / 10) + ra % 10;
    assert rb == 10 * (rb / 10) + rb % 10;
  }

  lemma RemainderDeterminesTwoDigits(a: nat, b: nat)
    requires a % 100 == b % 100
    ensures (a / 10) % 10 == (b / 10) % 10 && a % 10 == b % 10
  {
    DigitsOfRemainder(a);
    DigitsOfRemainder(b);
  }

  /** The day is not normalised: "05 Nov" and "5 Nov" are different gatherings. */
  lemma DayIsNotNormalised(clan: nat, currentYear: nat)
    requires currentYear >= 10
    ensures Key(clan, "05", "Nov", None, currentYear) != Key(clan, "5", "Nov", None, currentYear)
  {
    var a := PartsOf(clan, "05", "Nov", None, currentYear);
    var b := PartsOf(clan, "5", "Nov", None, currentYear);
    CurrentYearSuffix(currentYear);
    KeyInjective(a, b);
  }

  /** The month is normalised: only its letters, not their case, enter the key. */
  lemma MonthCaseIgnored(clan: nat, day: string, m1: string, m2: string, year: Option<string>, y: nat)
    requires |m1| == |m2| == 3 && AsciiLower(m1) == AsciiLower(m2)
    requires forall i :: 0 <= i < 3 ==> IsAsciiLetter(m1[i]) && IsAsciiLetter(m2[i])
    ensures Key(clan, day, m1, year, y) == Key(clan, day, m2, year, y)
  {
    assert AsciiLower(m1)[0] == AsciiLowerChar(m1[0]);
    assert AsciiLower(m2)[0] == AsciiLowerChar(m2[0]);
    assert AsciiUpperChar(m1[0]) == AsciiUpperChar(m2[0]);
    assert AsciiLower(m1[1..]) == AsciiLower(m1)[1..];
    assert AsciiLower(m2[1..]) == AsciiLower(m2)[1..];
  }

  /** The worked example: day `13`, month `nov`, no year, in 2025, for clan 7. */
  lemma ExampleKey()
    ensures Key(7, "13", "nov", None, 2025) == "CG-BC7-13Nov25"
  {
    ExampleYear();
    ExampleMonth();
    assert NatToString(7) == "7";
    assert Key(7, "13", "nov", None, 2025) == "CG-BC" + "7" + "-" + "13" + "Nov" + "25";
  }

  lemma ExampleYear()
    ensures YearSuffix(None, 2025) == "25"
  {
    CurrentYearSuffix(2025);
    assert (2025 / 10) % 10 == 2 && 2025 % 10 == 5;
  }

  lemma ExampleMonth()
    ensures Capitalize("nov") == "Nov"
  {
    assert AsciiUpperChar('n') == 'N';
    assert AsciiLower("ov")[0] == 'o' && AsciiLower("ov")[1] == 'v';
    assert AsciiLower("ov") == "ov";
  }
}
