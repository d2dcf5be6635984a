/** The running bot: the store's tables, the process-wide set of reward keys in flight,
    and the handler that changes them step by step. Each method is proved to leave the
    state that the functions of ClanGathering and Handler prescribe. */
module ClanBot {
  import opened Options
  import opened DatePattern
  import opened Classifier
  import opened ClanGathering
  import opened Handler

  /** The store's `members` and `points` tables, with the uniqueness constraint the store
      enforces on `points.description`. */
  class Store {
    var members: map<nat, Member>
    var points: seq<PointsEntry>

    ghost predicate Valid()
      reads this
    {
      LedgerUnique(points)
    }

    function State(): Db
      reads this
    {
      Db(members, points)
    }

    constructor (members0: map<nat, Member>, points0: seq<PointsEntry>)
      requires LedgerUnique(points0)
      ensures Valid() && members == members0 && points == points0
    {
      members, points := members0, points0;
    }

    /** `.from('points').insert(e)`: refused when `fails`, refused with a uniqueness
        violation when the ledger already holds `e.description`, appended otherwise. */
    method Insert(e: PointsEntry, fails: bool) returns (status: InsertStatus)
      requires Valid()
      modifies this
      ensures Valid() && members == old(members)
      ensures status == InsertStatusOf(old(points), e.description, fails)
      ensures points == if status == Inserted then old(points) + [e] else old(points)
    {
      if fails {
        status := InsertFailed;
      } else if HasEntry(points, e.description) {
        status := UniqueViolation;
      } else {
        AppendKeepsUnique(points, e);
        points := points + [e];
        status := Inserted;
      }
    }

    /** `.from('members').update({ bash_points: balance }).eq('id', id)`: matching no row
        is not an error. */
    method SetBalance(id: nat, balance: int, fails: bool) returns (ok: bool)
      modifies this
      ensures ok == !fails && points == old(points)
      ensures members == if ok && id in old(members)
                         then old(members)[id := old(members)[id].(balance := Some(balance))]
                         else old(members)
    {
      ok := !fails;
      if ok && id in members {
        members := members[id := members[id].(balance := Some(balance))];
      }
    }
  }

  /** The snapshot rows the loop has reached. */
  function Restrict(snap: map<nat, Member>, done: set<nat>): map<nat, Member> {
    map id | id in snap && id in done :: snap[id]
  }

  /** One turn of the loop: crediting one more snapshot member is one balance update. */
  lemma CreditStep(before: map<nat, Member>, snap: map<nat, Member>, failing: set<nat>, done: set<nat>, id: nat)
    requires id in snap && id !in done
    ensures var now := Credited(before, Restrict(snap, done), failing);
      Credited(before, Restrict(snap, done + {id}), failing)
      == if id !in failing && id in now
         then now[id := now[id].(balance := Some(Balance(snap[id].balance) + GatheringPoints))]
         else now
  {
    var now := Credited(before, Restrict(snap, done), failing);
    var next := Credited(before, Restrict(snap, done + {id}), failing);
    if id !in failing && id in now {
      assert next == now[id := now[id].(balance := Some(Balance(snap[id].balance) + GatheringPoints))];
    } else {
      assert next == now;
    }
  }

  lemma CountStep(done: set<nat>, failing: set<nat>, id: nat)
    requires id !in done
    ensures |(done + {id}) - failing| == |done - failing| + (if id in failing then 0 else 1)
    ensures |(done + {id}) * failing| == |done * failing| + (if id in failing then 1 else 0)
  {
    if id in failing {
      assert (done + {id}) - failing == done - failing;
      assert (done + {id}) * failing == (done * failing) + {id};
    } else {
      assert (done + {id}) - failing == (done - failing) + {id};
      assert (done + {id}) * failing == done * failing;
    }
  }

  class Bot {
    /** Reward keys whose award is under way in this process. */
    var processing: set<string>
    const store: Store

    constructor (store: Store)
      ensures this.store == store && processing == {}
    {
      this.store := store;
      processing := {};
    }

    /** The guard: claim `key` unless another call holds it. */
    method TryEnter(key: string) returns (entered: bool)
      modifies this`processing
      ensures entered == (key !in old(processing))
      ensures processing == old(processing) + {key}
    {
      entered := key !in processing;
      processing := processing + {key};
    }

    /** The `finally` block: the key is given back once the call is over. */
    method Release(key: string)
      modifies this`processing
      ensures processing == old(processing) - {key}
    {
      processing := processing - {key};
    }

    /** The best-effort loop: each member of the snapshot gets its snapshot balance plus
        three, one update at a time; a failed update is counted and the loop goes on. */
    method CreditClan(snap: map<nat, Member>, failing: set<nat>) returns (successCount: nat, failCount: nat)
      modifies store
      ensures store.points == old(store.points)
      ensures store.members == Credited(old(store.members), snap, failing)
      ensures successCount == |snap.Keys - failing| && failCount == |snap.Keys * failing|
    {
      successCount, failCount := 0, 0;
      var todo := snap.Keys;
      ghost var done: set<nat> := {};
      ghost var before := store.members;
      assert Restrict(snap, done) == map[];
      assert Credited(before, map[], failing) == before;
      while todo != {}
        invariant todo !! done && todo + done == snap.Keys
        invariant store.points == old(store.points)
        invariant store.members == Credited(before, Restrict(snap, done), failing)
        invariant successCount == |done - failing| && failCount == |done * failing|
        decreases |todo|
      {
        var id :| id in todo;
        var ok := store.SetBalance(id, Balance(snap[id].balance) + GatheringPoints, id in failing);
        CreditStep(before, snap, failing, done, id);
        CountStep(done, failing, id);
        if ok {
          successCount := successCount + 1;
        } else {
          failCount := failCount + 1;
        }
        todo := todo - {id};
        done := done + {id};
      }
      assert Restrict(snap, done) == snap;
    }

    /** Everything between claiming the key and releasing it. It may only run while the
        key is held, and it cannot touch the guard set. */
    method RunLocked(captainId: nat, clan: nat, key: string, o: Oracle) returns (outcome: Outcome)
      requires key in processing && store.Valid()
      modifies store
      ensures store.Valid()
      ensures AwardResult(outcome, store.State()) == Locked(old(store.State()), captainId, clan, key, o)
    {
      if o.checkFails {
        return CheckError;
      }
      if HasEntry(store.points, key) {
        return AlreadyAwarded;
      }
      if o.membersFails {
        return MembersError;
      }
      var snap := ClanSnapshot(store.members, clan);
      if |snap| == 0 {
        return NoMembers;
      }
      var status := store.Insert(GatheringEntry(captainId, key), o.insertFails);
      if status == UniqueViolation {
        return DuplicateKey;
      } else if status == InsertFailed {
        return InsertError;
      }
      var successCount, failCount := CreditClan(snap, o.updateFails);
      outcome := Awarded(successCount, failCount);
    }

    /** Claim the key, run the award while it is held, give it back. A key another call
        holds stops the call here. */
    method Guarded(captainId: nat, clan: nat, key: string, o: Oracle) returns (outcome: Outcome)
      requires store.Valid()
      modifies this`processing, store
      ensures store.Valid() && processing == old(processing)
      ensures AwardResult(outcome, store.State())
           == if key in old(processing) then AwardResult(InFlight, old(store.State()))
              else Locked(old(store.State()), captainId, clan, key, o)
    {
      ghost var p0 := processing;
      var entered := TryEnter(key);
      if !entered {
        assert processing == p0;
        return InFlight;
      }
      outcome := RunLocked(captainId, clan, key, o);
      Release(key);
      assert processing == (p0 + {key}) - {key} == p0;
    }

    /** `processClanGathering`: authorise, claim the key, run the award, release the key. */
    method ProcessClanGathering(username: string, date: DateMatch, currentYear: nat, o: Oracle) returns (outcome: Outcome)
      requires store.Valid()
      modifies this`processing, store
      ensures store.Valid() && processing == old(processing)
      ensures AwardResult(outcome, store.State())
           == Award(old(store.State()), old(processing), Request(username, date, currentYear), o)
    {
      var found := Lookup(store.members, username, o.lookupFails);
      if found.None? {
        return NotRegistered;
      }
      var captainId := found.value;
      var captain := store.members[captainId];
      if !IsCaptainTitle(captain.title) {
        return NotCaptain;
      }
      if !HasClan(captain.clan) {
        return NoClan;
      }
      var key := RequestKey(captain, Request(username, date, currentYear));
      outcome := Guarded(captainId, captain.clan.value, key, o);
    }

    /** The `messageCreate` handler. */
    method HandleMessage(m: Message, currentYear: nat, o: Oracle, autoLookupFails: bool) returns (reply: Reply)
      requires store.Valid()
      modifies this`processing, store
      ensures store.Valid() && processing == old(processing)
      ensures HandleResult(reply, store.State())
           == Handle(old(store.State()), old(processing), m, currentYear, o, autoLookupFails)
    {
      match Classify(m)
      case Ignored =>
        reply := NoReply;
      case ReadOnlyCommand(c) =>
        reply := ReadOnlyReply(c);
      case UnknownCommand =>
        reply := NoReply;
      case FormatError =>
        reply := DateFormatHint;
      case CommandAward(d) =>
        var outcome := ProcessClanGathering(m.username, d, currentYear, o);
        reply := AwardAnswer(outcome);
      case AutoCandidate(d) =>
        if Captain(store.members, m.username, autoLookupFails).Some? {
          var outcome := ProcessClanGathering(m.username, d, currentYear, o);
          reply := AwardAnswer(outcome);
        } else {
          reply := NoReply;
        }
      case NoDate =>
        reply := NoReply;
    }
  }
}
