/** The clan gathering award protocol as a function of the store's contents: who may award,
    the in-flight guard, the ledger check, the insert that comes before any balance
    change, and the best-effort credit of every clan member. Each store operation that can
    fail takes its failure from an oracle, so every path is a function of the inputs. */
module ClanGathering {
  import opened Options
  import opened Text
  import opened DatePattern
  import opened RewardKey

  /** A row of the `members` table; the map key is the row's `id`. A `null` column is `None`. */
  datatype Member = Member(username: string, title: Option<string>, clan: Option<nat>, balance: Option<int>)

  /** A row of the `points` ledger; `description` carries the reward key. */
  datatype PointsEntry = PointsEntry(memberId: nat, organiserId: nat, points: int, description: string)

  /** The store's two tables. */
  datatype Db = Db(members: map<nat, Member>, points: seq<PointsEntry>)

  /** Points written in the ledger entry and added to each clan member's balance. */
  const GatheringPoints: int := 3

  /** Which store operations fail on this call: the captain lookup, the ledger check, the
      clan member fetch, the ledger insert for reasons other than a duplicate key, and the
      balance update of the members listed. */
  datatype Oracle = Oracle(lookupFails: bool, checkFails: bool, membersFails: bool,
                           insertFails: bool, updateFails: set<nat>)

  /** How a call ends. Every outcome but InFlight is answered with a reply. */
  datatype Outcome =
    | NotRegistered | NotCaptain | NoClan
    | InFlight
    | CheckError | AlreadyAwarded | MembersError | NoMembers
    | DuplicateKey | InsertError
    | Awarded(successCount: nat, failCount: nat)

  /** Who asked, the date the message named, and the year the clock reads. */
  datatype Request = Request(username: string, date: DateMatch, currentYear: nat)

  datatype AwardResult = AwardResult(outcome: Outcome, db: Db)

  // ----- queries -----

  /** `ilike` without wildcards: equality after lowering. */
  predicate SameUser(a: string, b: string) {
    Lower(a) == Lower(b)
  }

  function Matches(members: map<nat, Member>, username: string): set<nat> {
    set id | id in members && SameUser(members[id].username, username)
  }

  lemma SingletonIsUnique(s: set<nat>)
    requires |s| == 1
    ensures forall a, b :: a in s && b in s ==> a == b
  {
    var x :| x in s;
    assert |s - {x}| == 0;
  }

  /** `.ilike('discord_username', username).single()`: a member only when exactly one row
      matches and the query itself does not fail. */
  function Lookup(members: map<nat, Member>, username: string, fails: bool): (r: Option<nat>)
    ensures r.Some? <==> !fails && |Matches(members, username)| == 1
    ensures r.Some? ==> r.value in members && Matches(members, username) == {r.value}
  {
    var ids := Matches(members, username);
    if fails || |ids| != 1 then None
    else
      SingletonIsUnique(ids);
      var id :| id in ids;
      Some(id)
  }

  /** `title && title.toLowerCase() === 'captain bash'`. */
  predicate IsCaptainTitle(title: Option<string>) {
    title.Some? && Lower(title.value) == "captain bash"
  }

  /** The title check ignores letter case, and any other title is refused. */
  lemma CaptainTitleIgnoresCase()
    ensures IsCaptainTitle(Some("Captain Bash")) && IsCaptainTitle(Some("CAPTAIN BASH"))
    ensures !IsCaptainTitle(Some("Member")) && !IsCaptainTitle(None)
  {
    var a, b := "Captain Bash", "CAPTAIN BASH";
    forall i | 0 <= i < |a| ensures Lower(a)[i] == "captain bash"[i] {
      assert Lower(a)[i] == LowerChar(a[i]);
    }
    forall i | 0 <= i < |b| ensures Lower(b)[i] == "captain bash"[i] {
      assert Lower(b)[i] == LowerChar(b[i]);
    }
    assert Lower(a) == "captain bash" && Lower(b) == "captain bash";
    assert |Lower("Member")| != |"captain bash"|;
  }

  /** The title check for any title: it accepts a title exactly when the title spells
      `captain bash` up to the case of its ASCII letters. */
  lemma CaptainTitleAnyCase(t: string)
    ensures IsCaptainTitle(Some(t)) <==> AsciiLower(t) == "captain bash"
  {
    var target := "captain bash";
    if |t| == |target| {
      forall i | 0 <= i < |t|
        ensures Lower(t)[i] == target[i] <==> AsciiLower(t)[i] == target[i]
      {
        assert Lower(t)[i] == LowerChar(t[i]);
        assert AsciiLower(t)[i] == AsciiLowerChar(t[i]);
        assert target[i] != 'k';
      }
      if Lower(t) == target {
        assert forall i :: 0 <= i < |t| ==> AsciiLower(t)[i] == target[i];
      }
      if AsciiLower(t) == target {
        assert forall i :: 0 <= i < |t| ==> Lower(t)[i] == target[i];
      }
    }
  }

  /** A truthy `clan_id`: present and not zero. */
  predicate HasClan(clan: Option<nat>) {
    clan.Some? && clan.value != 0
  }

  /** `bash_points || 0`. */
  function Balance(b: Option<int>): int {
    match b
    case None => 0
    case Some(v) => v
  }

  predicate HasEntry(points: seq<PointsEntry>, key: string) {
    exists i :: 0 <= i < |points| && points[i].description == key
  }

  /** The uniqueness constraint the store puts on `description`. */
  predicate LedgerUnique(points: seq<PointsEntry>) {
    forall i, j :: 0 <= i < j < |points| ==> points[i].description != points[j].description
  }

  /** Number of ledger entries carrying `key`. */
  function CountKey(points: seq<PointsEntry>, key: string): nat {
    if points == [] then 0
    else CountKey(points[..|points| - 1], key) + (if points[|points| - 1].description == key then 1 else 0)
  }

  /** `.eq('clan_id', clan)` on `members`: the rows read before any update. */
  function ClanSnapshot(members: map<nat, Member>, clan: nat): map<nat, Member> {
    map id | id in members && members[id].clan == Some(clan) :: members[id]
  }

  /** The members table after the loop: every snapshot row whose update did not fail holds
      its snapshot balance plus the gathering points; every other row is as it was. */
  function Credited(members: map<nat, Member>, snap: map<nat, Member>, failing: set<nat>): map<nat, Member> {
    map id | id in members ::
      if id in snap && id !in failing
      then members[id].(balance := Some(Balance(snap[id].balance) + GatheringPoints))
      else members[id]
  }

  function GatheringEntry(captainId: nat, key: string): PointsEntry {
    PointsEntry(captainId, captainId, GatheringPoints, key)
  }

  /** What the store answers to the ledger insert: a request that fails on its own (the
      oracle) never reaches the table; one that does is refused with a uniqueness
      violation (code 23505) when the description is already there. */
  datatype InsertStatus = Inserted | UniqueViolation | InsertFailed

  function InsertStatusOf(points: seq<PointsEntry>, key: string, fails: bool): InsertStatus {
    if fails then InsertFailed
    else if HasEntry(points, key) then UniqueViolation
    else Inserted
  }

  // ----- the protocol -----

  /** The steps after the ledger check: fetch the clan, insert the ledger entry, then
      credit the members. Another handler may have written the ledger since the check. */
  function AfterCheck(db: Db, captainId: nat, clan: nat, key: string, o: Oracle): AwardResult {
    if o.membersFails then AwardResult(MembersError, db)
    else
      var snap := ClanSnapshot(db.members, clan);
      if |snap| == 0 then AwardResult(NoMembers, db)
      else
        match InsertStatusOf(db.points, key, o.insertFails)
        case UniqueViolation => AwardResult(DuplicateKey, db)
        case InsertFailed => AwardResult(InsertError, db)
        case Inserted =>
          AwardResult(Awarded(|snap.Keys - o.updateFails|, |snap.Keys * o.updateFails|),
                      Db(Credited(db.members, snap, o.updateFails), db.points + [GatheringEntry(captainId, key)]))
  }

  /** The steps run while the key is held in the in-flight set. */
  function Locked(db: Db, captainId: nat, clan: nat, key: string, o: Oracle): AwardResult {
    if o.checkFails then AwardResult(CheckError, db)
    else if HasEntry(db.points, key) then AwardResult(AlreadyAwarded, db)
    else AfterCheck(db, captainId, clan, key, o)
  }

  /** The captain a request acts for, when registration, title and clan all check out. */
  function Captain(members: map<nat, Member>, username: string, lookupFails: bool): (r: Option<nat>)
    ensures r.Some? ==> r.value in members
  {
    match Lookup(members, username, lookupFails)
    case None => None
    case Some(id) =>
      if IsCaptainTitle(members[id].title) && HasClan(members[id].clan) then Some(id) else None
  }

  /** The reward key of a request made by an authorised captain. */
  function RequestKey(captain: Member, r: Request): string
    requires HasClan(captain.clan)
  {
    Key(captain.clan.value, r.date.day, r.date.month, r.date.year, r.currentYear)
  }

  /** One call of the award path, given the keys other calls hold in flight. */
  function Award(db: Db, inFlight: set<string>, r: Request, o: Oracle): AwardResult {
    match Lookup(db.members, r.username, o.lookupFails)
    case None => AwardResult(NotRegistered, db)
    case Some(id) =>
      var captain := db.members[id];
      if !IsCaptainTitle(captain.title) then AwardResult(NotCaptain, db)
      else if !HasClan(captain.clan) then AwardResult(NoClan, db)
      else
        var key := RequestKey(captain, r);
        if key in inFlight then AwardResult(InFlight, db)
        else Locked(db, id, captain.clan.value, key, o)
  }

  // ----- properties -----

  /** The three authorisation outcomes. */
  predicate IsRefusal(out: Outcome) {
    out.NotRegistered? || out.NotCaptain? || out.NoClan?
  }

  /** The steps after the check either append the gathering entry and credit the clan, or
      leave the store as it was. */
  lemma AfterCheckShape(db: Db, captainId: nat, clan: nat, key: string, o: Oracle)
    ensures var res := AfterCheck(db, captainId, clan, key, o);
      && !IsRefusal(res.outcome) && !res.outcome.InFlight?
      && !res.outcome.CheckError? && !res.outcome.AlreadyAwarded?
      && (!res.outcome.Awarded? ==> res.db == db)
      && (res.outcome.Awarded? ==>
            && !HasEntry(db.points, key)
            && res.db == Db(Credited(db.members, ClanSnapshot(db.members, clan), o.updateFails),
                            db.points + [GatheringEntry(captainId, key)]))
  {
  }

  lemma LockedShape(db: Db, captainId: nat, clan: nat, key: string, o: Oracle)
    ensures var res := Locked(db, captainId, clan, key, o);
      && !IsRefusal(res.outcome) && !res.outcome.InFlight?
      && (!res.outcome.Awarded? ==> res.db == db)
      && (res.outcome.Awarded? ==>
            && !HasEntry(db.points, key)
            && res.db == Db(Credited(db.members, ClanSnapshot(db.members, clan), o.updateFails),
                            db.points + [GatheringEntry(captainId, key)]))
  {
    AfterCheckShape(db, captainId, clan, key, o);
  }

  lemma AwardShape(db: Db, inFlight: set<string>, r: Request, o: Oracle)
    ensures var res := Award(db, inFlight, r, o);
      var c := Captain(db.members, r.username, o.lookupFails);
      && (c.None? ==> IsRefusal(res.outcome) && res.db == db)
      && (c.Some? ==>
            var key := RequestKey(db.members[c.value], r);
            && (key in inFlight ==> res == AwardResult(InFlight, db))
            && (key !in inFlight ==> res == Locked(db, c.value, db.members[c.value].clan.value, key, o)))
  {
  }

  /** The authorisation exits: the call is refused exactly when the author is not a
      registered captain with a clan, and then nothing in the store changes. */
  lemma AuthorisationGate(db: Db, inFlight: set<string>, r: Request, o: Oracle)
    ensures var res := Award(db, inFlight, r, o);
      && (IsRefusal(res.outcome) <==> Captain(db.members, r.username, o.lookupFails).None?)
      && (IsRefusal(res.outcome) ==> res.db == db)
  {
    AwardShape(db, inFlight, r, o);
    var c := Captain(db.members, r.username, o.lookupFails);
    if c.Some? {
      LockedShape(db, c.value, db.members[c.value].clan.value, RequestKey(db.members[c.value], r), o);
    }
  }

  /** The in-flight guard: an authorised call whose key another call holds stops without
      touching the store; with the key free the guard never stops it. */
  lemma GuardStopsDuplicates(db: Db, inFlight: set<string>, r: Request, o: Oracle)
    requires Captain(db.members, r.username, o.lookupFails).Some?
    ensures var key := RequestKey(db.members[Captain(db.members, r.username, o.lookupFails).value], r);
      var res := Award(db, inFlight, r, o);
      (res.outcome == InFlight <==> key in inFlight) && (key in inFlight ==> res.db == db)
  {
    AwardShape(db, inFlight, r, o);
    var c := Captain(db.members, r.username, o.lookupFails);
    LockedShape(db, c.value, db.members[c.value].clan.value, RequestKey(db.members[c.value], r), o);
  }

  /** Only a completed award writes to the store; every other exit, including each
      failure of the ledger insert, leaves ledger and balances as they were. */
  lemma OnlyAwardsWrite(db: Db, inFlight: set<string>, r: Request, o: Oracle)
    ensures !Award(db, inFlight, r, o).outcome.Awarded? ==> Award(db, inFlight, r, o).db == db
  {
    AwardShape(db, inFlight, r, o);
    var c := Captain(db.members, r.username, o.lookupFails);
    if c.Some? {
      LockedShape(db, c.value, db.members[c.value].clan.value, RequestKey(db.members[c.value], r), o);
    }
  }

  /** A ledger already holding the key, or a clan with no members, means no entry and no
      balance change. */
  lemma ExistingKeyOrEmptyClan(db: Db, captainId: nat, clan: nat, key: string, o: Oracle)
    requires HasEntry(db.points, key) || |ClanSnapshot(db.members, clan)| == 0
    ensures !Locked(db, captainId, clan, key, o).outcome.Awarded?
    ensures Locked(db, captainId, clan, key, o).db == db
  {
  }

  /** What a completed award did: it ran for an authorised captain whose key was free and
      absent from the ledger; it appended exactly one entry (the captain as member and
      organiser, three points, the key); each clan member whose update succeeded holds its
      snapshot balance plus three (null read as 0), every other member is untouched; and
      the two counters add up to the clan's size. */
  lemma {:induction false} AwardedEffect(db: Db, inFlight: set<string>, r: Request, o: Oracle)
    requires Award(db, inFlight, r, o).outcome.Awarded?
    ensures Captain(db.members, r.username, o.lookupFails).Some?
    ensures var id := Captain(db.members, r.username, o.lookupFails).value;
      var clan := db.members[id].clan.value;
      var key := RequestKey(db.members[id], r);
      var res := Award(db, inFlight, r, o);
      && key !in inFlight && !HasEntry(db.points, key)
      && res.db.points == db.points + [PointsEntry(id, id, 3, key)]
      && res.db.members.Keys == db.members.Keys
      && (forall m :: m in db.members ==>
            res.db.members[m] == if db.members[m].clan == Some(clan) && m !in o.updateFails
                                 then db.members[m].(balance := Some(Balance(db.members[m].balance) + 3))
                                 else db.members[m])
      && res.outcome.successCount + res.outcome.failCount == |ClanSnapshot(db.members, clan)|
      && res.outcome.failCount == |ClanSnapshot(db.members, clan).Keys * o.updateFails|
  {
    AwardShape(db, inFlight, r, o);
    var id := Captain(db.members, r.username, o.lookupFails).value;
    var clan := db.members[id].clan.value;
    var key := RequestKey(db.members[id], r);
    assert key !in inFlight && Award(db, inFlight, r, o) == Locked(db, id, clan, key, o);
    LockedEffect(db, id, clan, key, o);
  }

  /** The same effect, stated for the steps run while the key is held. */
  lemma LockedEffect(db: Db, id: nat, clan: nat, key: string, o: Oracle)
    requires Locked(db, id, clan, key, o).outcome.Awarded?
    ensures var res := Locked(db, id, clan, key, o);
      && !HasEntry(db.points, key)
      && res.db.points == db.points + [PointsEntry(id, id, 3, key)]
      && res.db.members.Keys == db.members.Keys
      && (forall m :: m in db.members ==>
            res.db.members[m] == if db.members[m].clan == Some(clan) && m !in o.updateFails
                                 then db.members[m].(balance := Some(Balance(db.members[m].balance) + 3))
                                 else db.members[m])
      && res.outcome.successCount + res.outcome.failCount == |ClanSnapshot(db.members, clan)|
      && res.outcome.failCount == |ClanSnapshot(db.members, clan).Keys * o.updateFails|
  {
    LockedShape(db, id, clan, key, o);
    CreditedRows(db.members, clan, o.updateFails);
    CountsCoverSnapshot(ClanSnapshot(db.members, clan), o.updateFails);
    AwardedCounts(db, id, clan, key, o);
  }

  /** The members table after crediting a clan, row by row. */
  lemma CreditedRows(members: map<nat, Member>, clan: nat, failing: set<nat>)
    ensures var m' := Credited(members, ClanSnapshot(members, clan), failing);
      && m'.Keys == members.Keys
      && forall m :: m in members ==>
           m'[m] == if members[m].clan == Some(clan) && m !in failing
                    then members[m].(balance := Some(Balance(members[m].balance) + 3))
                    else members[m]
  {
  }

  /** Every snapshot member is counted once: as a success or as a failure. */
  lemma CountsCoverSnapshot(snap: map<nat, Member>, failing: set<nat>)
    ensures |snap.Keys - failing| + |snap.Keys * failing| == |snap|
  {
    assert snap.Keys == (snap.Keys - failing) + (snap.Keys * failing);
    assert |snap.Keys| == |snap|;
  }

  /** The counters of a completed award, read off the steps after the check. */
  lemma AwardedCounts(db: Db, id: nat, clan: nat, key: string, o: Oracle)
    requires Locked(db, id, clan, key, o).outcome.Awarded?
    ensures var out := Locked(db, id, clan, key, o).outcome;
      var snap := ClanSnapshot(db.members, clan);
      out.successCount == |snap.Keys - o.updateFails| && out.failCount == |snap.Keys * o.updateFails|
  {
  }

  lemma {:induction false} CountKeyAppend(points: seq<PointsEntry>, e: PointsEntry, key: string)
    ensures CountKey(points + [e], key) == CountKey(points, key) + (if e.description == key then 1 else 0)
  {
    assert (points + [e])[..|points|] == points;
  }

  lemma {:induction false} CountKeyHasEntry(points: seq<PointsEntry>, key: string)
    ensures CountKey(points, key) > 0 <==> HasEntry(points, key)
    decreases |points|
  {
    if points != [] {
      var front := points[..|points| - 1];
      CountKeyHasEntry(front, key);
      if HasEntry(points, key) && points[|points| - 1].description != key {
        var i :| 0 <= i < |points| && points[i].description == key;
        assert front[i].description == key;
      }
      if HasEntry(front, key) {
        var i :| 0 <= i < |front| && front[i].description == key;
        assert points[i].description == key;
      }
    }
  }

  /** With the store's uniqueness constraint, a key has at most one ledger entry. */
  lemma {:induction false} UniqueLedgerHoldsKeyAtMostOnce(points: seq<PointsEntry>, key: string)
    requires LedgerUnique(points)
    ensures CountKey(points, key) <= 1
    decreases |points|
  {
    if points != [] {
      var front := points[..|points| - 1];
      assert LedgerUnique(front);
      UniqueLedgerHoldsKeyAtMostOnce(front, key);
      if points[|points| - 1].description == key {
        forall i | 0 <= i < |front| ensures front[i].description != key {
          assert front[i] == points[i];
        }
        CountKeyHasEntry(front, key);
      }
    }
  }

  /** Every path keeps the ledger's descriptions unique: an entry is appended only for a
      key the ledger lacks. */
  lemma LedgerStaysUnique(db: Db, inFlight: set<string>, r: Request, o: Oracle)
    requires LedgerUnique(db.points)
    ensures LedgerUnique(Award(db, inFlight, r, o).db.points)
  {
    AwardShape(db, inFlight, r, o);
    var c := Captain(db.members, r.username, o.lookupFails);
    if c.Some? {
      var key := RequestKey(db.members[c.value], r);
      LockedShape(db, c.value, db.members[c.value].clan.value, key, o);
      if !HasEntry(db.points, key) {
        AppendKeepsUnique(db.points, GatheringEntry(c.value, key));
      }
    }
  }

  lemma AppendKeepsUnique(points: seq<PointsEntry>, e: PointsEntry)
    requires LedgerUnique(points) && !HasEntry(points, e.description)
    ensures LedgerUnique(points + [e])
  {
    var p := points + [e];
    forall i, j | 0 <= i < j < |p| ensures p[i].description != p[j].description {
      if j == |points| {
        assert p[i] == points[i];
      } else {
        assert p[i] == points[i] && p[j] == points[j];
      }
    }
  }

  lemma CreditedKeepsIdentity(members: map<nat, Member>, snap: map<nat, Member>, failing: set<nat>)
    ensures var m' := Credited(members, snap, failing);
      m'.Keys == members.Keys
      && forall id :: id in members ==>
           m'[id].username == members[id].username && m'[id].title == members[id].title
           && m'[id].clan == members[id].clan
  {
  }

  lemma {:induction false} AwardKeepsCaptain(db: Db, inFlight: set<string>, r: Request, o: Oracle, username: string, fails: bool)
    ensures var db' := Award(db, inFlight, r, o).db;
      && Lookup(db'.members, username, fails) == Lookup(db.members, username, fails)
      && (forall id :: id in db.members ==>
            id in db'.members && db'.members[id].title == db.members[id].title
            && db'.members[id].clan == db.members[id].clan)
  {
    var res := Award(db, inFlight, r, o);
    AwardShape(db, inFlight, r, o);
    var c := Captain(db.members, r.username, o.lookupFails);
    if c.Some? {
      var clan := db.members[c.value].clan.value;
      LockedShape(db, c.value, clan, RequestKey(db.members[c.value], r), o);
      CreditedKeepsIdentity(db.members, ClanSnapshot(db.members, clan), o.updateFails);
      assert Matches(res.db.members, username) == Matches(db.members, username);
    }
  }

  /** Idempotence: once a call has awarded a gathering, the same request again (whatever
      keys are in flight, as long as its lookup and ledger check go through) answers
      "already awarded", changes nothing, and the ledger holds the key exactly once. */
  lemma {:induction false} RepeatedRequestAlreadyAwarded(db: Db, f1: set<string>, f2: set<string>, r: Request, o1: Oracle, o2: Oracle)
    requires Award(db, f1, r, o1).outcome.Awarded?
    requires LedgerUnique(db.points)
    requires !o2.lookupFails && !o2.checkFails
    requires var id := Captain(db.members, r.username, o1.lookupFails);
      id.Some? && RequestKey(db.members[id.value], r) !in f2
    ensures var db1 := Award(db, f1, r, o1).db;
      var second := Award(db1, f2, r, o2);
      && second.outcome == AlreadyAwarded
      && second.db == db1
      && CountKey(second.db.points, RequestKey(db.members[Captain(db.members, r.username, o1.lookupFails).value], r)) == 1
  {
    var db1 := Award(db, f1, r, o1).db;
    var id := Captain(db.members, r.username, o1.lookupFails).value;
    var key := RequestKey(db.members[id], r);
    AwardedEffect(db, f1, r, o1);
    AwardKeepsCaptain(db, f1, r, o1, r.username, o2.lookupFails);
    AwardKeepsCaptain(db, f1, r, o1, r.username, o1.lookupFails);
    assert Lookup(db1.members, r.username, o2.lookupFails) == Some(id);
    assert db1.points[|db.points|].description == key;
    assert HasEntry(db1.points, key);
    LedgerStaysUnique(db, f1, r, o1);
    UniqueLedgerHoldsKeyAtMostOnce(db1.points, key);
    CountKeyHasEntry(db1.points, key);
  }

  /** Idempotence by reward key: once a call has awarded a key, no later call whose key is
      the same (another captain of the clan, another spelling of the same date, a named year
      that meets the current one) awards again, whatever fails, and none changes the store.
      A later call with no authorised captain changes nothing either. */
  lemma {:induction false} SameKeyNeverAwardedAgain(db: Db, f1: set<string>, r1: Request, o1: Oracle,
                                                    f2: set<string>, r2: Request, o2: Oracle)
    requires Award(db, f1, r1, o1).outcome.Awarded?
    ensures var db1 := Award(db, f1, r1, o1).db;
      var k1 := RequestKey(db.members[Captain(db.members, r1.username, o1.lookupFails).value], r1);
      var c2 := Captain(db1.members, r2.username, o2.lookupFails);
      (c2.None? || RequestKey(db1.members[c2.value], r2) == k1) ==>
        !Award(db1, f2, r2, o2).outcome.Awarded? && Award(db1, f2, r2, o2).db == db1
  {
    AwardedEffect(db, f1, r1, o1);
    var db1 := Award(db, f1, r1, o1).db;
    var k1 := RequestKey(db.members[Captain(db.members, r1.username, o1.lookupFails).value], r1);
    assert db1.points[|db.points|].description == k1;
    assert HasEntry(db1.points, k1);
    AwardShape(db1, f2, r2, o2);
    var c2 := Captain(db1.members, r2.username, o2.lookupFails);
    if c2.Some? && RequestKey(db1.members[c2.value], r2) == k1 {
      ExistingKeyOrEmptyClan(db1, c2.value, db1.members[c2.value].clan.value, k1, o2);
    }
  }

  /** Two handlers that both passed the ledger check before either inserted (the guard
      bypassed, or two processes): the second never awards, leaves the first one's store
      untouched, and the ledger holds the key once. When the second gets as far as the
      insert, it meets the uniqueness violation, unless its insert fails on its own. */
  lemma {:induction false} RaceSettledByLedger(db: Db, a: nat, b: nat, clanA: nat, clanB: nat, key: string, oa: Oracle, ob: Oracle)
    requires LedgerUnique(db.points) && !HasEntry(db.points, key)
    requires AfterCheck(db, a, clanA, key, oa).outcome.Awarded?
    ensures var first := AfterCheck(db, a, clanA, key, oa);
      var second := AfterCheck(first.db, b, clanB, key, ob);
      && !second.outcome.Awarded?
      && second.db == first.db
      && (!ob.membersFails && |ClanSnapshot(first.db.members, clanB)| > 0 ==>
            second.outcome == if ob.insertFails then InsertError else DuplicateKey)
      && CountKey(second.db.points, key) == 1
  {
    var first := AfterCheck(db, a, clanA, key, oa);
    var n := |db.points|;
    assert first.db.points == db.points + [GatheringEntry(a, key)];
    assert first.db.points[n].description == key;
    assert HasEntry(first.db.points, key);
    CountKeyAppend(db.points, GatheringEntry(a, key), key);
    CountKeyHasEntry(db.points, key);
  }
}
