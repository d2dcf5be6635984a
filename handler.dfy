/** The `messageCreate` handler as a function of the store's contents: classification,
    then the clan gathering path (by command, or by automatic detection for captains). */
module Handler {
  import opened Text
  import opened DatePattern
  import opened Classifier
  import opened ClanGathering

  /** What the bot answers. */
  datatype Reply =
    | NoReply
    | DateFormatHint
    | ReadOnlyReply(command: string)
    | AwardReply(outcome: Outcome)

  datatype HandleResult = HandleResult(reply: Reply, db: Db)

  /** The answer to an award call: a call stopped by the in-flight guard is only logged,
      every other outcome is answered. */
  function AwardAnswer(out: Outcome): Reply {
    if out.InFlight? then NoReply else AwardReply(out)
  }

  /** One message. `autoLookupFails` is the failure of the extra captain lookup the
      automatic path makes before it enters the award path; its error is ignored. */
  function Handle(db: Db, inFlight: set<string>, m: Message, currentYear: nat, o: Oracle, autoLookupFails: bool): HandleResult {
    match Classify(m)
    case Ignored => HandleResult(NoReply, db)
    case ReadOnlyCommand(c) => HandleResult(ReadOnlyReply(c), db)
    case UnknownCommand => HandleResult(NoReply, db)
    case FormatError => HandleResult(DateFormatHint, db)
    case CommandAward(d) =>
      var res := Award(db, inFlight, Request(m.username, d, currentYear), o);
      HandleResult(AwardAnswer(res.outcome), res.db)
    case AutoCandidate(d) =>
      if Captain(db.members, m.username, autoLookupFails).Some? then
        var res := Award(db, inFlight, Request(m.username, d, currentYear), o);
        HandleResult(AwardAnswer(res.outcome), res.db)
      else HandleResult(NoReply, db)
    case NoDate => HandleResult(NoReply, db)
  }

  /** On the award path the bot stays silent exactly when the guard stopped the call
      because the author is a captain whose key another call holds, and a silent call
      leaves the store as it was. */
  lemma AwardPathSilentExactlyInFlight(db: Db, inFlight: set<string>, m: Message, y: nat, o: Oracle, a: bool, d: DateMatch)
    requires Classify(m) == CommandAward(d)
          || (Classify(m) == AutoCandidate(d) && Captain(db.members, m.username, a).Some?)
    ensures var res := Handle(db, inFlight, m, y, o, a);
      var c := Captain(db.members, m.username, o.lookupFails);
      && (res.reply == NoReply <==>
            c.Some? && RequestKey(db.members[c.value], Request(m.username, d, y)) in inFlight)
      && (res.reply == NoReply ==> res.db == db)
  {
    var r := Request(m.username, d, y);
    AwardShape(db, inFlight, r, o);
    var c := Captain(db.members, m.username, o.lookupFails);
    if c.Some? {
      LockedShape(db, c.value, db.members[c.value].clan.value, RequestKey(db.members[c.value], r), o);
    }
  }

  /** Only the clan gathering path writes to the store, and only by completing an award;
      bot messages, the read-only commands, unknown commands, a `!cg` without a date and
      messages without a date leave it as it was. */
  lemma OnlyClanGatheringWrites(db: Db, inFlight: set<string>, m: Message, y: nat, o: Oracle, a: bool)
    ensures var res := Handle(db, inFlight, m, y, o, a);
      res.db != db ==> res.reply.AwardReply? && res.reply.outcome.Awarded?
  {
    var r := Handle(db, inFlight, m, y, o, a);
    match Classify(m)
    case CommandAward(d) =>
      var res := Award(db, inFlight, Request(m.username, d, y), o);
      OnlyAwardsWrite(db, inFlight, Request(m.username, d, y), o);
      assert r == HandleResult(AwardAnswer(res.outcome), res.db);
    case AutoCandidate(d) =>
      var res := Award(db, inFlight, Request(m.username, d, y), o);
      OnlyAwardsWrite(db, inFlight, Request(m.username, d, y), o);
      if Captain(db.members, m.username, a).Some? {
        assert r == HandleResult(AwardAnswer(res.outcome), res.db);
      } else {
        assert r.db == db;
      }
    case _ =>
      assert r.db == db;
  }

  /** A `!cg` or `!clangathering` message with no date gets the format hint, and neither
      the guard nor the store is consulted. */
  lemma MissingDateIsFormatError(db: Db, inFlight: set<string>, m: Message, y: nat, o: Oracle, a: bool)
    requires !m.fromBot && IsCommand(m.content) && IsClanGatheringCommand(CommandToken(m.content))
    requires FindDate(m.content).None?
    ensures Handle(db, inFlight, m, y, o, a) == HandleResult(DateFormatHint, db)
  {
    ClanGatheringCommand(m);
  }

  /** Commands and automatic detection exclude each other: for a message starting with `!`
      the automatic path's captain check is never made, so its outcome cannot matter. */
  lemma CommandsSkipAutomaticPath(db: Db, inFlight: set<string>, m: Message, y: nat, o: Oracle)
    requires IsCommand(m.content)
    ensures Handle(db, inFlight, m, y, o, false) == Handle(db, inFlight, m, y, o, true)
  {
    if !m.fromBot {
      CommandsNeverAutomatic(m);
    }
  }

  /** In the automatic path a message from anyone but a registered captain with a clan is
      passed over in silence. */
  lemma AutomaticPathIgnoresNonCaptains(db: Db, inFlight: set<string>, m: Message, y: nat, o: Oracle, a: bool)
    requires !m.fromBot && !IsCommand(m.content)
    requires Captain(db.members, m.username, a).None?
    ensures Handle(db, inFlight, m, y, o, a) == HandleResult(NoReply, db)
  {
  }

  lemma CommandExampleHasDate()
    ensures FindDate("!cg 13 Nov").Some?
  {
    var s := "!cg 13 Nov";
    assert IsDigit(s[4]) && IsDigit(s[5]) && IsSpace(s[6]) && !IsSpace(s[7]);
    assert SkipSpaces(s, 7) == 7;
    assert SkipSpaces(s, 6) == 7;
    assert s[7..10] == "Nov";
    assert AsciiLower("Nov") == "nov";
    assert MonthAt(s, 7);
    assert MatchAt(s, 4).Some?;
  }

  lemma CommandExampleToken()
    ensures CommandToken("!cg 13 Nov") == "!cg"
  {
    assert Lower("!cg 13 Nov") == "!cg 13 nov";
    assert FirstToken("!cg 13 nov") == "!cg";
  }

  lemma CommandExampleClassified(m: Message)
    requires !m.fromBot && m.content == "!cg 13 Nov"
    ensures Classify(m).CommandAward?
  {
    CommandExampleHasDate();
    CommandExampleToken();
    ClanGatheringCommand(m);
  }

  /** A registered member without the captain title who writes `!cg 13 Nov` is refused as
      a command and is not also tried by automatic detection, though the text holds a date. */
  lemma NonCaptainCommandRefused(db: Db, inFlight: set<string>, m: Message, y: nat, o: Oracle, a: bool)
    requires !m.fromBot && m.content == "!cg 13 Nov"
    requires Lookup(db.members, m.username, o.lookupFails).Some?
    requires !IsCaptainTitle(db.members[Lookup(db.members, m.username, o.lookupFails).value].title)
    ensures Handle(db, inFlight, m, y, o, a) == HandleResult(AwardReply(NotCaptain), db)
  {
    CommandExampleClassified(m);
  }
}
