# Clan gathering awards for the bash points bot

This project models the clan gathering path of the Discord "bash points" bot in Dafny. A
captain writes a date, either as the command `!cg 13 Nov` / `!clangathering 13 Nov` or in a
plain message. The bot then awards three points to every member of the captain's clan, once
per reward key.

The model covers the following, each with its proofs:

- **Classification of a message** (`Classifier`):
  - bot messages are ignored;
  - a message starting with `!` is dispatched on its lower-cased first space-separated token;
  - any other message goes to automatic detection.
- **The two date patterns** (`DatePattern`):
  - the command pattern `(\d{1,2})\s*(jan|…|dec)(?:\s*(\d{4}))?` with flag `i`, as a
    leftmost-match search over the text;
  - the automatic pattern, which adds an optional `date:` prefix.

  A search is proved to return the leftmost position where the pattern matches. Each match
  is proved to capture the groups a backtracking matcher would give: every split of the
  digits and spaces, the greedy optional year, and the same captures for both patterns.
- **The reward key** (`RewardKey`): `CG-BC<clan id>-<day as written><Month><yy>`. The model
  gives an inverse parser and proves the key injective. From injectivity it follows that the
  day is not normalised. A separate lemma proves that a named year and the current year give
  the same year suffix exactly when their last two digits agree.
- **The award protocol** (`ClanGathering`), as a pure function of the store's two tables.
  The steps run in this order:
  1. the lookup of the author;
  2. the captain title and clan checks;
  3. the in-flight guard;
  4. the ledger check;
  5. the clan snapshot;
  6. the ledger insert, which comes before any balance change;
  7. the best-effort loop that adds three to each member's balance, counting successes and
     failures.

  Each store operation that can fail takes its failure from an `Oracle` parameter.
- **The running bot** (`ClanBot`):
  - a `Store` class holding the `members` map and the `points` ledger, with the uniqueness
    constraint on descriptions;
  - a `Bot` class holding the in-flight set of reward keys.

  Its methods change this state step by step, loop included. Each is proved to leave exactly
  the state and outcome that the functions of `ClanGathering` and `Handler` prescribe.
- **The message handler** (`Handler`), as a function, plus lemmas relating the
  classification to the award path.

## Model

| member | source | states |
|---|---|---|
| Text.LowerChar | index.js:49 | `toLowerCase` on one character turns a character into a space exactly when it is a space, so lowering never moves a token boundary |
| Text.AsciiLowerChar | index.js:302 | under the non-unicode `i` flag, a character folds to a small ASCII letter exactly when it is an ASCII letter |
| Text.DigitsAndLettersAreNotSpaces | index.js:302 | `\d`, `\s` and the month letters are disjoint classes, which is what makes the pattern's split unique |
| DatePattern.SkipSpaces | index.js:302 | greedy `\s*`: the returned index ends a run of spaces and is not followed by a space |
| DatePattern.MonthStartsWithLetter | index.js:302 | a month alternative starts with an ASCII letter, never a digit or a space |
| DatePattern.SpacesThenNonSpace | index.js:302 | a run of `k` spaces followed by a non-space is exactly what greedy `\s*` consumes |
| DatePattern.YearGroupIsGreedy | index.js:302 | the optional `(?:\s*(\d{4}))?` group captures four digits exactly when some run of spaces followed by four digits follows the month, and then captures those |
| DatePattern.CoreSplitIsUnique | index.js:302 | any split of the mandatory part into 1–2 digits, spaces and a month is the greedy one |
| DatePattern.MatchAtOfSplit | index.js:302 | for any split of the mandatory part, the match at that position captures that split's day and month |
| DatePattern.MatchAtHasSplit | index.js:302 | a match at a position comes from some split of the mandatory part |
| DatePattern.SplitCaptures | index.js:302 | for any split, the match starts there, captures that day and month, and takes the greedy year group |
| DatePattern.MatchAtIsPatternMatch | index.js:302 | the pattern matches at `p` exactly when some split exists; every split yields the same day, month and greedy year |
| DatePattern.Search | index.js:302 | `String.prototype.match` returns the leftmost match: nothing matches between the search start and the returned position, and no result means no position matches |
| DatePattern.SearchSkipsNonDigits | index.js:302 | a search runs past characters that are not digits to the next position that matches |
| DatePattern.LabelIsNotDigit | index.js:325 | the characters of the `date:` prefix are not digits |
| DatePattern.AutoSearchCapturesAsSearch | index.js:325 | the optional `date:\s*` prefix only moves where the automatic match starts: from any position it captures the same day, month and year as the command pattern |
| DatePattern.FindAutoDateCapturesAsFindDate | index.js:325-326 | the automatic pattern on a whole message finds a date exactly when the command pattern does, with the same groups |
| DatePattern.MatchAt | index.js:302 | the command pattern tried at one position, taking the greedy split; `MatchAtIsPatternMatch` proves it agrees with every split a backtracking matcher may try |
| DatePattern.YearGroup | index.js:302 | the greedy optional year group; `YearGroupIsGreedy` relates it to its reference definition |
| DatePattern.FindDate | index.js:302 | `content.match` with the command pattern: the leftmost match (see `Search`) |
| DatePattern.AutoMatchAt | index.js:325 | the automatic pattern at one position, trying the optional `date:\s*` prefix first |
| DatePattern.AutoSearch | index.js:325-326 | the leftmost automatic match from a position; `AutoSearchCapturesAsSearch` relates it to `Search` |
| DatePattern.FindAutoDate | index.js:326 | `content.match(datePattern)` over the whole message |
| DatePattern.MatchShape | index.js:302 | a match captures 1–2 digits, three ASCII letters naming a month, and four digits for the year when present |
| RewardKey.NatToString | index.js:59 | the clan id as written in the template literal is a non-empty numeral, one digit exactly below ten, with a leading `0` only for zero itself |
| RewardKey.ParseNatToString | index.js:59 | the decimal rendering of the clan id denotes the id |
| RewardKey.YearSuffix | index.js:34 | the matched year's last two characters, or the current year's; see `CurrentYearSuffix` and `NamedYearMeetsCurrentYear` |
| RewardKey.Key | index.js:59 | the ledger description `CG-BC<clan>-<day><Month><yy>`; it is `Assemble` of `PartsOf`, and `ParseAssemble` and `KeyInjective` state what it determines |
| RewardKey.LastTwo | index.js:34 | `slice(-2)` keeps the last two characters, or the whole string when it is shorter |
| RewardKey.Capitalize | index.js:33 | capitalising keeps the length; for a word of ASCII letters (every matched month) the result is the same word up to case, with a capital first letter and small letters after it |
| RewardKey.FindDash | index.js:59 | the first `-` at or after a position, used to read the clan id back |
| RewardKey.FindDashAt | index.js:59 | the first `-` is found where it is |
| RewardKey.SplitTail | index.js:59 | the day, month and year parts are recovered from the end of the key |
| RewardKey.SplitAtDash | index.js:59 | the clan digits run up to the first `-` after the prefix |
| RewardKey.ParseAfterPrefix | index.js:59 | reading a key past its fixed prefix `CG-BC` |
| RewardKey.ParseOfParts | index.js:59 | after the prefix, the clan digits up to the first `-` give the clan id, and the tail splits from its end into day, month and year |
| RewardKey.ParseAssemble | index.js:59 | parsing inverts building the key: clan, day, month and year suffix are all recovered |
| RewardKey.KeyInjective | index.js:59 | two gatherings share a ledger description exactly when clan, day as written, capitalised month and year suffix agree |
| RewardKey.CurrentYearSuffix | index.js:34 | with no year in the message, the key carries the current year's last two decimal digits |
| RewardKey.AppendDigit | index.js:34 | appending a digit to a number: the digit is the remainder by ten, the number the quotient |
| RewardKey.LastDigit | index.js:34 | the last digit of a numeral is its number modulo ten |
| RewardKey.FourDigitYearDigits | index.js:34 | the last two characters of a four-digit year are its tens and units digits |
| RewardKey.DigitsOfRemainder | index.js:34 | the tens and units digits of a number are those of its remainder by a hundred |
| RewardKey.TwoDigitsDetermineRemainder | index.js:34 | equal tens and units digits mean an equal remainder by a hundred |
| RewardKey.RemainderDeterminesTwoDigits | index.js:34 | an equal remainder by a hundred means equal tens and units digits |
| RewardKey.NamedYearMeetsCurrentYear | index.js:34 | a named year and the current year give the same year suffix exactly when the two years agree modulo 100 |
| RewardKey.DayIsNotNormalised | index.js:32 | `05 Nov` and `5 Nov` are different gatherings |
| RewardKey.MonthCaseIgnored | index.js:33 | months that differ only in letter case give the same key |
| RewardKey.ExampleKey | index.js:59 | clan 7, `13 nov`, no year, in 2025 gives `CG-BC7-13Nov25` |
| RewardKey.ExampleYear | index.js:34 | in 2025 a message without a year gives the suffix `25` |
| RewardKey.ExampleMonth | index.js:33 | the month `nov` is written `Nov` |
| ClanGathering.SingletonIsUnique | index.js:41 | a one-element result set has a single member |
| ClanGathering.Lookup | index.js:37-46 | `.ilike(...).single()` yields a member exactly when the query succeeds and exactly one row matches case-insensitively, and then yields that row |
| ClanGathering.Captain | index.js:37-57 | an authorised captain is a row of the members table |
| ClanGathering.CaptainTitleIgnoresCase | index.js:49 | worked examples of the title check: `Captain Bash` and `CAPTAIN BASH` are accepted, `Member` and a missing title are refused |
| ClanGathering.CaptainTitleAnyCase | index.js:49 | the title check accepts a title exactly when it spells `captain bash` up to the case of its ASCII letters, so it refuses every other title |
| ClanGathering.SameUser | index.js:40 | `ilike` without wildcards: two usernames match when they are equal after lowering |
| ClanGathering.IsCaptainTitle | index.js:49 | the title is present and lowers to `captain bash` |
| ClanGathering.HasClan | index.js:54 | `clan_id` is truthy: present and not zero |
| ClanGathering.Balance | index.js:148 | `bash_points || 0`: a null balance reads as zero |
| ClanGathering.HasEntry | index.js:72-83 | the ledger check: some entry carries the key |
| ClanGathering.LedgerUnique | index.js:134 | the uniqueness constraint on `description` that makes the store answer 23505 |
| ClanGathering.ClanSnapshot | index.js:97-100 | the members read by `.eq('clan_id', clan)` before any update |
| ClanGathering.Credited | index.js:146-166 | the members table after the loop, from the snapshot balances; its properties are in `AwardedEffect` and `CreditedKeepsIdentity`, and `CreditClan` is proved to leave it |
| ClanGathering.GatheringEntry | index.js:124-130 | the ledger row: the captain as member and organiser, 3 points, the key |
| ClanGathering.InsertStatusOf | index.js:122-139 | the insert's answer: a failed request, a uniqueness violation for a present key, or success; `Store.Insert` is proved to answer it |
| ClanGathering.AfterCheck | index.js:96-166 | the steps after the ledger check; `AfterCheckShape` and `RaceSettledByLedger` state what they do |
| ClanGathering.Locked | index.js:70-166 | the steps while the key is held; `LockedShape` states what they do and `RunLocked` is proved to perform them |
| ClanGathering.RequestKey | index.js:59 | the reward key of an authorised captain's request |
| ClanGathering.Award | index.js:31-68 | one call of the award path: authorisation, the guard, then `Locked`; its properties are `AuthorisationGate`, `GuardStopsDuplicates`, `OnlyAwardsWrite`, `AwardedEffect`, `LedgerStaysUnique`, `RepeatedRequestAlreadyAwarded` and `SameKeyNeverAwardedAgain`, and `ProcessClanGathering` is proved to perform it |
| ClanGathering.AfterCheckShape | index.js:96-166 | after the ledger check, the call either appends the gathering entry and credits the clan, or leaves the store unchanged |
| ClanGathering.LockedShape | index.js:70-166 | while the key is held, the call never ends in a refusal or `InFlight`; only an award changes the store, and only when the key was absent from the ledger |
| ClanGathering.AwardShape | index.js:31-68 | a call with no authorised captain is refused without changes; for a captain, a held key gives `InFlight` and a free key runs the locked steps |
| ClanGathering.AuthorisationGate | index.js:43-57 | the call is refused (not registered, not captain, no clan) exactly when the author is not a uniquely registered captain with a truthy clan id, and a refusal changes nothing |
| ClanGathering.GuardStopsDuplicates | index.js:61-65 | for an authorised captain, the call stops as in flight exactly when its key is held, and then changes nothing |
| ClanGathering.OnlyAwardsWrite | index.js:78-140 | every early exit leaves the store unchanged: ledger check error, existing key, member fetch error, empty clan, duplicate key, insert error |
| ClanGathering.ExistingKeyOrEmptyClan | index.js:83-110 | a ledger that already holds the key, or a clan with no members, means no entry and no balance change |
| ClanGathering.AwardedEffect | index.js:121-166 | a completed award appended exactly one entry with the captain as member and organiser, 3 points and the key. Each clan member whose update succeeded holds its snapshot balance (null as 0) plus 3; every other row is untouched. The counters add up to the clan size, and the failures are the failed updates |
| ClanGathering.LockedEffect | index.js:121-166 | the same effect as `AwardedEffect`, for the steps run while the key is held |
| ClanGathering.CreditedRows | index.js:146-166 | after crediting a clan, each clan member whose update did not fail holds its balance (null as 0) plus 3, and every other row is as it was |
| ClanGathering.CountsCoverSnapshot | index.js:142-166 | every snapshot member is counted exactly once, as a success or as a failure |
| ClanGathering.AwardedCounts | index.js:156-163 | the counters of a completed award are the numbers of snapshot members whose update succeeded and failed |
| ClanGathering.CountKeyAppend | index.js:121-130 | appending one entry adds one occurrence of its own description and none of any other |
| ClanGathering.CountKeyHasEntry | index.js:72-83 | the ledger check finds a key exactly when the key occurs at least once |
| ClanGathering.UniqueLedgerHoldsKeyAtMostOnce | index.js:134 | under the store's uniqueness constraint, each key occurs at most once |
| ClanGathering.AppendKeepsUnique | index.js:121-130 | inserting an entry whose description is absent keeps descriptions unique |
| ClanGathering.LedgerStaysUnique | index.js:121-140 | every path of the call keeps the ledger's descriptions unique |
| ClanGathering.CreditedKeepsIdentity | index.js:148-154 | balance updates change no row's username, title or clan, and add or remove no row |
| ClanGathering.AwardKeepsCaptain | index.js:37-57 | an award changes no one's registration, title or clan, so the same lookups give the same answers afterwards |
| ClanGathering.RepeatedRequestAlreadyAwarded | index.js:71-94 | idempotence: repeating an awarded request answers "already awarded", changes nothing, and the key occurs exactly once |
| ClanGathering.SameKeyNeverAwardedAgain | index.js:61-94 | idempotence by reward key: after an award, any later call whose key is the same (another captain of the same clan, the month in another case, or a named year that meets the current one) never awards and leaves the store unchanged, whatever fails; so does a later call with no authorised captain |
| ClanGathering.RaceSettledByLedger | index.js:121-140 | of two calls that both passed the ledger check for one key, the second never awards and leaves the store as the first left it. If it reaches the insert it gets the duplicate-key error (23505), or the other insert error when its insert fails on its own, and the key occurs exactly once |
| Classifier.FirstToken | index.js:187 | `split(' ')[0]` is the prefix of the text up to the first U+0020 space, and contains no such space |
| Classifier.CommandToken | index.js:187 | `content.toLowerCase().split(' ')[0]` |
| Classifier.IsCommand | index.js:186 | the message starts with `!` |
| Classifier.IsClanGatheringCommand | index.js:300 | the token is `!clangathering` or `!cg` |
| Classifier.Classify | index.js:181-326 | the dispatch of one message; `BotsIgnored`, `CommandsNeverAutomatic`, `ClanGatheringCommand` and `AutomaticDetection` state its cases |
| Classifier.BotsIgnored | index.js:183 | a message is ignored exactly when its author is a bot |
| Classifier.CommandsNeverAutomatic | index.js:186-320 | a message starting with `!` never reaches automatic detection. Unless its token is `!cg`/`!clangathering`, it is dispatched on the token alone: a read-only command, or unknown |
| Classifier.ClanGatheringCommand | index.js:300-315 | `!cg`/`!clangathering` without a date gives the format error (both directions); with a date it carries the command pattern's leftmost match |
| Classifier.AutomaticDetection | index.js:324-330 | a message without `!` goes to automatic detection, finds a date exactly when the command pattern would, and carries the same groups |
| Classifier.CommandTokenIgnoresCase | index.js:187 | `!CG 13 Nov` is dispatched as `!cg` |
| Handler.AwardPathSilentExactlyInFlight | index.js:62-65 | on either award path the bot sends no reply exactly when the author is an authorised captain whose key another call holds (the source only logs it), and then the store is unchanged; every other award outcome is answered |
| Handler.Handle | index.js:181-354 | the `messageCreate` handler as a function of the tables; `HandleMessage` is proved to perform it |
| Handler.OnlyClanGatheringWrites | index.js:181-354 | whatever the message, the store changes only through a completed clan gathering award |
| Handler.MissingDateIsFormatError | index.js:309-312 | `!cg` with no date gets the format hint; the store and the guard are not consulted |
| Handler.CommandsSkipAutomaticPath | index.js:324 | for a `!` message, the automatic path's captain lookup never matters |
| Handler.AutomaticPathIgnoresNonCaptains | index.js:333-346 | in automatic detection, a message from anyone but a registered captain with a clan is passed over silently |
| Handler.CommandExampleHasDate | index.js:302 | `!cg 13 Nov` contains a date for the command pattern |
| Handler.CommandExampleToken | index.js:187 | the token of `!cg 13 Nov` is `!cg` |
| Handler.CommandExampleClassified | index.js:300-314 | `!cg 13 Nov` from a person is a clan gathering command with a date |
| Handler.NonCaptainCommandRefused | index.js:48-52 | a registered non-captain writing `!cg 13 Nov` is refused as not captain, the store is unchanged, and automatic detection does not also try it |
| ClanBot.Store.constructor | index.js:7 | a store starts from tables whose ledger descriptions are unique |
| ClanBot.Store.Insert | index.js:121-140 | the ledger insert fails when the request fails, otherwise refuses a duplicate description (23505), and otherwise appends the entry; it keeps descriptions unique |
| ClanBot.Store.SetBalance | index.js:151-154 | the update sets one row's balance unless it fails; matching no row is not an error |
| ClanBot.CreditStep | index.js:146-166 | one more iteration of the loop is one more balance update |
| ClanBot.CountStep | index.js:156-163 | one more iteration adds one to exactly one of the two counters |
| ClanBot.Bot.constructor | index.js:19 | the in-flight set starts empty |
| ClanBot.Bot.TryEnter | index.js:62-68 | the guard lets the call in exactly when its key is not in flight, and the key is in flight afterwards |
| ClanBot.Bot.Release | index.js:173-177 | the `finally` block removes the key from the in-flight set |
| ClanBot.Bot.CreditClan | index.js:142-166 | the loop leaves the ledger unchanged and every snapshot member's balance as `Credited` prescribes; success and failure counts equal the numbers of snapshot members whose update succeeded and failed |
| ClanBot.Bot.RunLocked | index.js:70-166 | the steps under the key leave exactly the outcome and tables that `Locked` prescribes, and keep the ledger unique |
| ClanBot.Bot.Guarded | index.js:61-178 | a key in flight gives `InFlight` without changes; otherwise the locked steps run, and the in-flight set ends as it began |
| ClanBot.Bot.ProcessClanGathering | index.js:31-179 | the method leaves exactly the outcome and tables that `Award` prescribes for the in-flight set it found, restores that set, and keeps the ledger unique |
| ClanBot.Bot.HandleMessage | index.js:181-354 | the handler leaves exactly the reply and tables that `Handle` prescribes |

## Left out

- Discord I/O is not modelled: the client, message delivery, the text of replies, and console
  logging. Replies are reduced to `Reply` and `Outcome` values.
- The Supabase client becomes two in-memory tables. An `Oracle` parameter supplies each
  query's failure.
  - `.single()` is modelled as "exactly one row".
  - `clan_id` is modelled as a natural number (or null).
- ClanGathering.SameUser: `ilike` folds case with `Text.Lower`, which lowers only ASCII
  letters and the Kelvin sign. Two usernames that differ only in the case of other letters
  (`É` and `é`) are different users in the model, but the same user for the store. The `%`
  and `_` wildcards a username may contain are not modelled either.
- ClanBot.Bot.Release: the key is released when the call ends. The source releases it two
  seconds later through `setTimeout` (index.js:175-177), so within those two seconds a
  repeated request meets `InFlight` in the source, but the ledger check in the model. The
  race lemma covers both orders.
- Clan name lookups (index.js:85-91, 112-119) are not modelled. They only change reply text.
- The read-only commands `!checkdb`, `!mypoints`, `!listusers`, `!help` and `!debugschema`
  are modelled only as having no store effect.
- The fallback pattern at index.js:306 is not modelled. Each of its matches contains a match
  of the command pattern (index.js:302), and it runs only after that pattern has failed, so
  it never finds a date.
- The `catch` blocks around the whole award (index.js:170-172) and around the automatic path
  (index.js:346-348) are not modelled. The per-member `catch` (index.js:162-165) is modelled:
  a thrown exception there is one more failed update.
- `updated_at` timestamps are not modelled.
- The clock is a `currentYear` parameter.
- ClanBot.Bot.CreditClan: the loop visits the snapshot members in an unspecified order,
  which the model does not fix. The end state does not depend on the order.
- Concurrency between awaits is not modelled. Interleavings of two calls are stated on the
  pure functions: `RaceSettledByLedger` covers two calls past the ledger check, and
  `Award`'s `inFlight` argument covers a held key. Two awards with different keys for one
  clan that run at the same time can lose increments, because each writes its own snapshot
  balance plus 3 (index.js:148-154); `AwardedEffect` describes sequential calls only.
- Text.LowerChar: `toLowerCase` is modelled on ASCII letters and the Kelvin sign only. Other
  non-ASCII characters are kept as they are. Against the bot's ASCII constants (the title and
  the command names) this decides every comparison the way the full mapping would. Between
  two usernames it does not (see the SameUser line).
- JavaScript number precision is not modelled: balances are unbounded integers.
- The daily participation award is not part of the code: the comment at index.js:352-353
  records that it was removed.
