/** The two date patterns of the message handler, as leftmost-match searches over the
    message text:
      command pattern   (\d{1,2})\s*(jan|feb|...|dec)(?:\s*(\d{4}))?        flag i
      automatic pattern (?:date:\s*)?(\d{1,2})\s*(jan|...|dec)(?:\s*(\d{4}))? flag i
    A match is described by its start and its three capture groups. */
module DatePattern {
  import opened Options
  import opened Text

  /** A successful match: where it starts, the day digits, the month letters as written,
      and the four year digits when the optional group took part. */
  datatype DateMatch = DateMatch(start: nat, day: string, month: string, year: Option<string>)

  /** The capture groups alone, which is all the award path reads of a match. */
  datatype Captures = Captures(day: string, month: string, year: Option<string>)

  function CapturesOf(m: Option<DateMatch>): Option<Captures> {
    match m
    case None => None
    case Some(d) => Some(Captures(d.day, d.month, d.year))
  }

  const Months: seq<string> :=
    ["jan", "feb", "mar", "apr", "may", "jun", "jul", "aug", "sep", "oct", "nov", "dec"]

  predicate AllSpaces(s: string) {
    forall i :: 0 <= i < |s| ==> IsSpace(s[i])
  }

  /** The month alternation matches the three characters at `q`. */
  predicate MonthAt(s: string, q: nat) {
    q + 3 <= |s| && AsciiLower(s[q..q + 3]) in Months
  }

  /** `\d{4}` matches at `r`. */
  predicate FourDigitsAt(s: string, r: nat) {
    r + 4 <= |s| && AllDigits(s[r..r + 4])
  }

  lemma MonthStartsWithLetter(s: string, q: nat)
    requires MonthAt(s, q)
    ensures IsAsciiLetter(s[q]) && !IsDigit(s[q]) && !IsSpace(s[q])
  {
    assert AsciiLower(s[q..q + 3])[0] == AsciiLowerChar(s[q]);
  }

  /** `\s*` run greedily from `i`: the first index at or after `i` that is not a space. */
  function SkipSpaces(s: string, i: nat): (j: nat)
    requires i <= |s|
    ensures i <= j <= |s|
    ensures AllSpaces(s[i..j])
    ensures j == |s| || !IsSpace(s[j])
    decreases |s| - i
  {
    if i < |s| && IsSpace(s[i]) then SkipSpaces(s, i + 1) else i
  }

  /** The command pattern tried at position `p`. The digit group is greedy; giving back the
      second digit never helps, because a digit can start neither `\s*` nor a month.
      `\s*` is greedy and a month never starts with a space, so no other split exists. */
  function MatchAt(s: string, p: nat): Option<DateMatch> {
    if p < |s| && IsDigit(s[p]) then
      var n := if p + 1 < |s| && IsDigit(s[p + 1]) then 2 else 1;
      var q := SkipSpaces(s, p + n);
      if MonthAt(s, q) then
        Some(DateMatch(p, s[p..p + n], s[q..q + 3], YearGroup(s, q + 3)))
      else None
    else None
  }

  /** Reference definition of the mandatory part of the pattern at `p`: `n` digits, then
      `k` spaces, then a month. A backtracking matcher may try any such split. */
  ghost predicate CoreAt(s: string, p: nat, n: nat, k: nat) {
    1 <= n <= 2 && p + n + k <= |s|
    && AllDigits(s[p..p + n]) && AllSpaces(s[p + n..p + n + k]) && MonthAt(s, p + n + k)
  }

  /** Reference definition of the optional year group after the month ending at `e`. */
  ghost predicate YearAt(s: string, e: nat, k: nat) {
    e + k <= |s| && AllSpaces(s[e..e + k]) && FourDigitsAt(s, e + k)
  }

  lemma SpacesThenNonSpace(s: string, i: nat, k: nat)
    requires i <= |s| && i + k <= |s| && AllSpaces(s[i..i + k])
    requires i + k == |s| || !IsSpace(s[i + k])
    ensures SkipSpaces(s, i) == i + k
    decreases k
  {
    if k > 0 {
      assert IsSpace(s[i..i + k][0]);
      assert s[i + 1..i + 1 + (k - 1)] == s[i..i + k][1..];
      SpacesThenNonSpace(s, i + 1, k - 1);
    }
  }

  /** Reference definition of the optional year group after the month ending at `e`
      capturing `y`: the greedy `?` takes the group whenever some split of it matches. */
  ghost predicate YearGroupAfter(s: string, e: nat, y: Option<string>) {
    && (y.Some? <==> exists k :: YearAt(s, e, k))
    && (forall k :: YearAt(s, e, k) ==> y == Some(s[e + k..e + k + 4]))
  }

  /** What the greedy year group of MatchAt captures after the month ending at `e`. */
  function YearGroup(s: string, e: nat): Option<string>
    requires e <= |s|
  {
    var r := SkipSpaces(s, e);
    if FourDigitsAt(s, r) then Some(s[r..r + 4]) else None
  }

  lemma YearGroupIsGreedy(s: string, e: nat)
    requires e <= |s|
    ensures YearGroupAfter(s, e, YearGroup(s, e))
  {
    var r := SkipSpaces(s, e);
    forall k | YearAt(s, e, k)
      ensures r == e + k
    {
      assert IsDigit(s[e + k..e + k + 4][0]);
      DigitsAndLettersAreNotSpaces(s[e + k]);
      SpacesThenNonSpace(s, e, k);
    }
    if FourDigitsAt(s, r) {
      assert YearAt(s, e, r - e);
    }
  }

  /** Whichever split of the mandatory part a backtracking matcher finds, MatchAt captures
      the same groups. */
  lemma MatchAtOfSplit(s: string, p: nat, n: nat, k: nat)
    requires CoreAt(s, p, n, k)
    ensures MatchAt(s, p) ==
      Some(DateMatch(p, s[p..p + n], s[p + n + k..p + n + k + 3], YearGroup(s, p + n + k + 3)))
  {
    CoreSplitIsUnique(s, p, n, k);
  }

  /** A match found by MatchAt is a split of the mandatory part. */
  lemma MatchAtHasSplit(s: string, p: nat)
    requires MatchAt(s, p).Some?
    ensures exists n, k :: CoreAt(s, p, n, k)
  {
    var n := if p + 1 < |s| && IsDigit(s[p + 1]) then 2 else 1;
    var q := SkipSpaces(s, p + n);
    assert AllDigits(s[p..p + n]);
    assert CoreAt(s, p, n, q - p - n);
  }

  /** What MatchAt captures for any split of the mandatory part. */
  lemma SplitCaptures(s: string, p: nat, n: nat, k: nat)
    requires CoreAt(s, p, n, k)
    ensures MatchAt(s, p).Some? && MatchAt(s, p).value.start == p
    ensures MatchAt(s, p).value.day == s[p..p + n]
    ensures MatchAt(s, p).value.month == s[p + n + k..p + n + k + 3]
    ensures YearGroupAfter(s, p + n + k + 3, MatchAt(s, p).value.year)
  {
    MatchAtOfSplit(s, p, n, k);
    YearGroupIsGreedy(s, p + n + k + 3);
  }

  /** MatchAt agrees with the backtracking reading of the pattern: it succeeds exactly when
      some split matches, every split captures the same day and month, and the year group
      is captured as the greedy optional group prescribes. */
  lemma {:induction false} MatchAtIsPatternMatch(s: string, p: nat)
    ensures MatchAt(s, p).Some? <==> exists n, k :: CoreAt(s, p, n, k)
    ensures forall n, k :: CoreAt(s, p, n, k) ==>
      && MatchAt(s, p).Some?
      && MatchAt(s, p).value.start == p
      && MatchAt(s, p).value.day == s[p..p + n]
      && MatchAt(s, p).value.month == s[p + n + k..p + n + k + 3]
      && YearGroupAfter(s, p + n + k + 3, MatchAt(s, p).value.year)
  {
    if MatchAt(s, p).Some? {
      MatchAtHasSplit(s, p);
    }
    forall n, k | CoreAt(s, p, n, k)
      ensures MatchAt(s, p).Some? && MatchAt(s, p).value.start == p
      ensures MatchAt(s, p).value.day == s[p..p + n]
      ensures MatchAt(s, p).value.month == s[p + n + k..p + n + k + 3]
      ensures YearGroupAfter(s, p + n + k + 3, MatchAt(s, p).value.year)
    {
      SplitCaptures(s, p, n, k);
    }
  }

  /** The only split of the mandatory part is the greedy one MatchAt takes. */
  lemma CoreSplitIsUnique(s: string, p: nat, n: nat, k: nat)
    requires CoreAt(s, p, n, k)
    ensures p < |s| && IsDigit(s[p])
    ensures n == (if p + 1 < |s| && IsDigit(s[p + 1]) then 2 else 1)
    ensures SkipSpaces(s, p + n) == p + n + k
  {
    assert IsDigit(s[p..p + n][0]);
    MonthStartsWithLetter(s, p + n + k);
    if n == 1 && k > 0 {
      // the character after a single digit is a space, hence not a digit
      assert s[p + 1..p + 1 + k][0] == s[p + 1];
      DigitsAndLettersAreNotSpaces(s[p + 1]);
    }
    if n == 2 {
      assert IsDigit(s[p..p + n][1]);
    }
    SpacesThenNonSpace(s, p + n, k);
  }

  /** `String.prototype.match` with the command pattern, searching from `from`:
      the match that starts leftmost, or none. */
  function Search(s: string, from: nat): (r: Option<DateMatch>)
    requires from <= |s|
    ensures r.Some? ==> from <= r.value.start <= |s| && MatchAt(s, r.value.start) == r
    ensures r.Some? ==> forall q :: from <= q < r.value.start ==> MatchAt(s, q).None?
    ensures r.None? ==> forall q :: from <= q <= |s| ==> MatchAt(s, q).None?
    decreases |s| - from
  {
    if MatchAt(s, from).Some? then MatchAt(s, from)
    else if from == |s| then None
    else Search(s, from + 1)
  }

  /** The command pattern's match over a whole message. */
  function FindDate(s: string): Option<DateMatch> {
    Search(s, 0)
  }

  /** The optional `date:` prefix of the automatic pattern matches at `p`. */
  predicate DateLabelAt(s: string, p: nat) {
    p + 5 <= |s| && AsciiLower(s[p..p + 5]) == "date:"
  }

  /** The automatic pattern tried at `p`: the optional prefix is tried first (greedy `?`),
      then the pattern without it. */
  function AutoMatchAt(s: string, p: nat): Option<DateMatch> {
    if DateLabelAt(s, p) && MatchAt(s, SkipSpaces(s, p + 5)).Some? then
      var m := MatchAt(s, SkipSpaces(s, p + 5)).value;
      Some(m.(start := p))
    else MatchAt(s, p)
  }

  function AutoSearch(s: string, from: nat): Option<DateMatch>
    requires from <= |s|
    decreases |s| - from
  {
    if AutoMatchAt(s, from).Some? then AutoMatchAt(s, from)
    else if from == |s| then None
    else AutoSearch(s, from + 1)
  }

  /** The automatic pattern's match over a whole message. */
  function FindAutoDate(s: string): Option<DateMatch> {
    AutoSearch(s, 0)
  }

  lemma LabelIsNotDigit(s: string, p: nat)
    requires DateLabelAt(s, p)
    ensures forall i :: p <= i < p + 5 ==> !IsDigit(s[i])
  {
    forall i | p <= i < p + 5 ensures !IsDigit(s[i]) {
      assert AsciiLower(s[p..p + 5])[i - p] == AsciiLowerChar(s[i]);
    }
  }

  /** No match starts at a character that is not a digit, so the search runs past them. */
  lemma {:induction false} SearchSkipsNonDigits(s: string, from: nat, q: nat)
    requires from <= q <= |s| && MatchAt(s, q).Some?
    requires forall i :: from <= i < q ==> !IsDigit(s[i])
    ensures Search(s, from) == MatchAt(s, q)
    decreases q - from
  {
    if from < q {
      SearchSkipsNonDigits(s, from + 1, q);
    }
  }

  /** The optional `date:` prefix only moves where a match starts: from any position the
      automatic pattern captures the same day, month and year as the command pattern. */
  lemma {:induction false} AutoSearchCapturesAsSearch(s: string, from: nat)
    requires from <= |s|
    ensures CapturesOf(AutoSearch(s, from)) == CapturesOf(Search(s, from))
    decreases |s| - from
  {
    if MatchAt(s, from).Some? {
      if DateLabelAt(s, from) {
        LabelIsNotDigit(s, from);
      }
    } else if DateLabelAt(s, from) && MatchAt(s, SkipSpaces(s, from + 5)).Some? {
      var q := SkipSpaces(s, from + 5);
      LabelIsNotDigit(s, from);
      // between the label and the digits there are only label characters and spaces
      forall i | from + 5 <= i < q ensures !IsDigit(s[i]) {
        assert s[from + 5..q][i - from - 5] == s[i];
        DigitsAndLettersAreNotSpaces(s[i]);
      }
      SearchSkipsNonDigits(s, from, q);
    } else if from < |s| {
      AutoSearchCapturesAsSearch(s, from + 1);
    }
  }

  lemma FindAutoDateCapturesAsFindDate(s: string)
    ensures CapturesOf(FindAutoDate(s)) == CapturesOf(FindDate(s))
  {
    AutoSearchCapturesAsSearch(s, 0);
  }

  /** What any match captures: one or two digits, three ASCII letters naming a month,
      and four digits for the year. */
  lemma {:induction false} MatchShape(s: string, p: nat)
    requires MatchAt(s, p).Some?
    ensures var m := MatchAt(s, p).value;
      && 1 <= |m.day| <= 2 && AllDigits(m.day)
      && |m.month| == 3 && AsciiLower(m.month) in Months
      && (forall i :: 0 <= i < 3 ==> IsAsciiLetter(m.month[i]))
      && (m.year.Some? ==> |m.year.value| == 4 && AllDigits(m.year.value))
  {
    var m := MatchAt(s, p).value;
    forall i | 0 <= i < 3 ensures IsAsciiLetter(m.month[i]) {
      assert AsciiLower(m.month)[i] == AsciiLowerChar(m.month[i]);
    }
  }
}
