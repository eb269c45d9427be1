/**
 * The job that keeps account standings current (standing.py): blocks are refreshed for
 * every named account on every run, global locks on a rotation with a budget per run.
 */
module Standing {
  import opened Options
  import opened Policy
  import opened Repository
  import opened Arithmetic
  import WorkQueue

  /** What asking CentralAuth about one account can bring. */
  datatype LockLookup =
    | LookupFailed
    | ReasonFailed                            // locked, but the log could not be read
    | Unlocked
    | LockedFor(reason: Option<string>)

  predicate Completes(lookup: LockLookup) {
    lookup.Unlocked? || lookup.LockedFor?
  }

  // ---- The rotation -----------------------------------------------------------

  /** `lock_checked_at` order with never-checked first. */
  predicate NoLater(a: Option<int>, b: Option<int>) {
    a.None? || (b.Some? && a.value <= b.value)
  }

  predicate LockIsDue(record: StandingRecord, cutoff: int) {
    record.lockCheckedAt.None? || record.lockCheckedAt.value < cutoff
  }

  /** What lock_check_candidates may return: the first `limit` due accounts, ties in any order. */
  predicate IsLockCandidates(known: map<int, StandingRecord>, cutoff: int, limit: nat, ids: seq<int>) {
    && |ids| <= limit
    && (forall i, j :: 0 <= i < j < |ids| ==> ids[i] != ids[j])
    && (forall i :: 0 <= i < |ids| ==> ids[i] in known && LockIsDue(known[ids[i]], cutoff))
    && (forall i, j :: 0 <= i < j < |ids| ==> NoLater(known[ids[i]].lockCheckedAt, known[ids[j]].lockCheckedAt))
    && (forall other :: other in known && LockIsDue(known[other], cutoff) && other !in ids ==>
          |ids| == limit && forall i :: 0 <= i < |ids| ==>
              NoLater(known[ids[i]].lockCheckedAt, known[other].lockCheckedAt))
  }

  function Unseen(named: seq<int>, known: map<int, StandingRecord>): (unseen: seq<int>)
    ensures |unseen| <= |named|
  {
    if named == [] then []
    else if named[0] in known then Unseen(named[1..], known)
    else [named[0]] + Unseen(named[1..], known)
  }

  function ToSet(ids: seq<int>): set<int> {
    set id | id in ids
  }

  /** Accounts whose lock is read this run: the candidates, then new accounts within what is left of the budget. */
  function Due(named: seq<int>, known: map<int, StandingRecord>, candidates: seq<int>, budget: nat): set<int> {
    var picked := ToSet(candidates);
    var left := if |picked| < budget then budget - |picked| else 0;
    var unseen := Unseen(named, known);
    picked + ToSet(unseen[..WorkQueue.Min(left, |unseen|)])
  }

  // ---- One account ---------------------------------------------------------------

  /** The record written for an account MediaWiki answered for. */
  function Refreshed(id: int, previous: Option<StandingRecord>, block: AccountStanding, due: bool, lookup: LockLookup,
                     now: int): StandingRecord {
    var locked := previous.Some? && previous.value.standing.globallyLocked;
    var reason := if previous.Some? then previous.value.standing.lockReason else None;
    var checkedAt := if previous.Some? then previous.value.lockCheckedAt else None;
    var base := block.(userId := id);
    if due && lookup.Unlocked? then
      StandingRecord(base.(globallyLocked := false, lockReason := None), Some(now))
    else if due && lookup.LockedFor? then
      StandingRecord(base.(globallyLocked := true, lockReason := lookup.reason), Some(now))
    else if due && lookup.ReasonFailed? then
      StandingRecord(base.(globallyLocked := true, lockReason := reason), checkedAt)
    else
      StandingRecord(base.(globallyLocked := locked, lockReason := reason), checkedAt)
  }

  function Lookup(known: map<int, StandingRecord>, id: int): Option<StandingRecord> {
    if id in known then Some(known[id]) else None
  }

  /** What a run keeps of an account, if anything: refreshed if answered for, else as it was. */
  function Entry(id: int, known: map<int, StandingRecord>, answers: map<int, AccountStanding>, due: set<int>,
                 lookups: int -> LockLookup, now: int): Option<StandingRecord>
  {
    if id in answers then Some(Refreshed(id, Lookup(known, id), answers[id], id in due, lookups(id), now))
    else Lookup(known, id)
  }

  /** The wiki's records after a run. */
  function Synced(named: seq<int>, known: map<int, StandingRecord>, answers: map<int, AccountStanding>, due: set<int>,
                  lookups: int -> LockLookup, now: int): map<int, StandingRecord>
  {
    map id | id in named && Entry(id, known, answers, due, lookups, now).Some? ::
      Entry(id, known, answers, due, lookups, now).value
  }

  // ---- The job ---------------------------------------------------------------------

  /** Records read from the table carry the id they are filed under. */
  predicate FiledById(known: map<int, StandingRecord>) {
    forall id :: id in known ==> known[id].standing.userId == id
  }

  /** The records of one run in the order the job writes them. */
  function RecordsOf(named: seq<int>, known: map<int, StandingRecord>, answers: map<int, AccountStanding>,
                     due: set<int>,
                     lookups: int -> LockLookup, now: int): seq<StandingRecord>
  {
    if named == [] then []
    else
      var entry := Entry(named[|named| - 1], known, answers, due, lookups, now);
      RecordsOf(named[..|named| - 1], known, answers, due, lookups, now) + if entry.Some? then [entry.value] else []
  }

  /** The accounts whose lock is looked up. */
  function AskedOf(named: seq<int>, answers: map<int, AccountStanding>, due: set<int>): seq<int> {
    if named == [] then []
    else
      AskedOf(named[..|named| - 1], answers, due) +
      if named[|named| - 1] in answers && named[|named| - 1] in due then [named[|named| - 1]] else []
  }

  lemma EntryIsFiledById(id: int, known: map<int, StandingRecord>, answers: map<int, AccountStanding>, due: set<int>,
                         lookups: int -> LockLookup, now: int)
    requires FiledById(known)
    ensures var entry := Entry(id, known, answers, due, lookups, now); entry.Some? ==> entry.value.standing.userId == id
  {}

  lemma WantedAppend(records: seq<StandingRecord>, record: StandingRecord)
    ensures WantedStanding(records + [record]) == WantedStanding(records)[record.standing.userId := record]
  {
    assert (records + [record])[..|records|] == records;
  }

  lemma OneMoreRecord(records: seq<StandingRecord>, table: map<int, StandingRecord>, id: int,
                      entry: Option<StandingRecord>)
    requires WantedStanding(records) == table && |records| == |table| && id !in table
    requires entry.Some? ==> entry.value.standing.userId == id
    ensures var more, grown := records + if entry.Some? then [entry.value]
            else [], if entry.Some? then table[id := entry.value] else table;
            WantedStanding(more) == grown && |more| == |grown|
  {
    if entry.Some? { WantedAppend(records, entry.value); } else { assert records + [] == records; }
  }

  lemma OneMoreNamed(rest: seq<int>, id: int, known: map<int, StandingRecord>, answers: map<int, AccountStanding>,
                     due: set<int>, lookups: int -> LockLookup, now: int)
    requires id !in rest
    ensures var before, entry := Synced(rest, known, answers, due, lookups, now),
            Entry(id, known, answers, due, lookups, now);
            && id !in before
            && Synced(rest + [id], known, answers, due, lookups, now) == if entry.Some? then before[id := entry.value]
               else before
  {}

  lemma {:induction false} RecordsFillTheTable(named: seq<int>, known: map<int, StandingRecord>, answers: map<int,
                                               AccountStanding>,
                                               due: set<int>, lookups: int -> LockLookup, now: int)
    requires FiledById(known) && StrictlyAscending(named)
    ensures WantedStanding(RecordsOf(named, known, answers, due, lookups, now))
            == Synced(named, known, answers, due, lookups, now)
    ensures |RecordsOf(named, known, answers, due, lookups, now)| == |Synced(named, known, answers, due, lookups, now)|
  {
    if named != [] {
      var rest, id := named[..|named| - 1], named[|named| - 1];
      RecordsFillTheTable(rest, known, answers, due, lookups, now);
      OneMoreNamed(rest, id, known, answers, due, lookups, now);
      EntryIsFiledById(id, known, answers, due, lookups, now);
      OneMoreRecord(RecordsOf(rest, known, answers, due, lookups, now), Synced(rest, known, answers, due, lookups, now),
                    id, Entry(id, known, answers, due, lookups, now));
      assert named == rest + [id];
    }
  }

  lemma {:induction false} AskedMembers(named: seq<int>, answers: map<int, AccountStanding>, due: set<int>)
    ensures forall id :: id in AskedOf(named, answers, due) <==> id in named && id in answers && id in due
  {
    if named != [] {
      assert named == named[..|named| - 1] + [named[|named| - 1]];
      AskedMembers(named[..|named| - 1], answers, due);
    }
  }

  /** Every due account that was answered for is asked about once, nobody else is. */
  lemma {:induction false} AskedOnce(named: seq<int>, answers: map<int, AccountStanding>, due: set<int>)
    requires StrictlyAscending(named)
    ensures forall id :: id in AskedOf(named, answers, due) <==> id in named && id in answers && id in due
    ensures StrictlyAscending(AskedOf(named, answers, due))
  {
    AskedMembers(named, answers, due);
    if named != [] {
      var rest := named[..|named| - 1];
      AskedOnce(rest, answers, due);
      var asked := AskedOf(rest, answers, due);
      forall k | 0 <= k < |asked|
        ensures asked[k] < named[|named| - 1]
      {
        assert asked[k] in asked;
        var i :| 0 <= i < |rest| && rest[i] == asked[k];
        assert named[i] == rest[i];
      }
    }
  }

  lemma {:induction false} ToSetSize(ids: seq<int>)
    ensures |ToSet(ids)| <= |ids|
    ensures (forall i, j :: 0 <= i < j < |ids| ==> ids[i] != ids[j]) ==> |ToSet(ids)| == |ids|
  {
    if ids != [] {
      var rest := ids[..|ids| - 1];
      assert ToSet(ids) == ToSet(rest) + {ids[|ids| - 1]};
      ToSetSize(rest);
    }
  }

  lemma AskedFitsDue(named: seq<int>, answers: map<int, AccountStanding>, due: set<int>)
    requires StrictlyAscending(named)
    ensures |AskedOf(named, answers, due)| <= |due|
  {
    var asked := AskedOf(named, answers, due);
    AskedOnce(named, answers, due);
    ToSetSize(asked);
    SubsetIsSmaller(ToSet(asked), due);
  }

  lemma UnionSize(a: set<int>, b: set<int>)
    ensures |a + b| <= |a| + |b|
  {
    assert |a + b| == |a| + |b| - |a * b|;
  }

  lemma DueFitsBudget(named: seq<int>, known: map<int, StandingRecord>, candidates: seq<int>, budget: nat)
    requires |candidates| <= budget
    ensures |Due(named, known, candidates, budget)| <= budget
  {
    var picked := ToSet(candidates);
    ToSetSize(candidates);
    var left := if |picked| < budget then budget - |picked| else 0;
    var extra := Unseen(named, known)[..WorkQueue.Min(left, |Unseen(named, known)|)];
    ToSetSize(extra);
    UnionSize(picked, ToSet(extra));
    assert |extra| <= left && Due(named, known, candidates, budget) == picked + ToSet(extra);
  }

  /** A lock is due when it was never checked, or last checked before the cutoff. */
  lemma OldChecksAreDue(record: StandingRecord, now: int, recheck: int)
    ensures LockIsDue(record, now - recheck)
            <==> record.lockCheckedAt.None? || record.lockCheckedAt.value + recheck < now
  {}

  lemma {:induction false} UnseenAreTheNew(named: seq<int>, known: map<int, StandingRecord>)
    ensures forall id :: id in Unseen(named, known) <==> id in named && id !in known
    ensures StrictlyAscending(named) ==> StrictlyAscending(Unseen(named, known))
  {
    if named != [] {
      UnseenAreTheNew(named[1..], known);
      var rest := Unseen(named[1..], known);
      if StrictlyAscending(named) {
        forall k | 0 <= k < |rest|
          ensures named[0] < rest[k]
        {
          assert rest[k] in rest;
          var j :| 0 <= j < |named[1..]| && named[1..][j] == rest[k];
          assert named[j + 1] == rest[k];
        }
      }
    }
  }

  /**
   * Who is due: every candidate, and accounts nobody has tracked yet, all of them if they fit
   * what the candidates leave of the budget; if not, the budget is used up.
   */
  lemma NewAccountsFillTheBudget(named: seq<int>, known: map<int, StandingRecord>, candidates: seq<int>, budget: nat)
    requires StrictlyAscending(named) && |candidates| <= budget
    requires forall i, j :: 0 <= i < j < |candidates| ==> candidates[i] != candidates[j]
    requires forall i :: 0 <= i < |candidates| ==> candidates[i] in known
    ensures var due := Due(named, known, candidates, budget);
            && (forall id :: id in candidates ==> id in due)
            && (forall id :: id in due ==> id in candidates || (id in named && id !in known))
            && ((forall id :: id in named && id !in known ==> id in due) || |due| == budget)
  {
    var picked, unseen, due := ToSet(candidates), Unseen(named, known), Due(named, known, candidates, budget);
    UnseenAreTheNew(named, known);
    ToSetSize(candidates);
    var taken := unseen[..WorkQueue.Min(budget - |picked|, |unseen|)];
    assert due == picked + ToSet(taken);
    forall id | id in taken
      ensures id in unseen
    {}
    if |taken| == |unseen| {
      assert taken == unseen;
    } else {
      ToSetSize(taken);
      assert picked !! ToSet(taken);
    }
  }

  /** No run reads more locks than its budget. */
  lemma AskedFitsBudget(named: seq<int>, known: map<int, StandingRecord>, candidates: seq<int>, budget: nat,
                        answers: map<int, AccountStanding>)
    requires |candidates| <= budget && StrictlyAscending(named)
    ensures |AskedOf(named, answers, Due(named, known, candidates, budget))| <= budget
  {
    DueFitsBudget(named, known, candidates, budget);
    AskedFitsDue(named, answers, Due(named, known, candidates, budget));
  }

  function RowsOf(synced: map<int, StandingRecord>, now: int): map<int, StandingRow> {
    map id | id in synced :: StandingRow(synced[id], now)
  }

  lemma RecordsWriteSynced(named: seq<int>, known: map<int, StandingRecord>, answers: map<int, AccountStanding>,
                           due: set<int>, lookups: int -> LockLookup, now: int)
    requires FiledById(known) && StrictlyAscending(named)
    ensures var records, synced := RecordsOf(named, known, answers, due, lookups, now),
            Synced(named, known, answers, due, lookups, now);
            && StandingRows(records, now) == RowsOf(synced, now)
            && |records| == |synced| == |StandingRows(records, now)|
  {
    RecordsFillTheTable(named, known, answers, due, lookups, now);
    assert RowsOf(Synced(named, known, answers, due, lookups, now), now).Keys
        == Synced(named, known, answers, due, lookups, now).Keys;
  }

  /** How many of these lookups completed. */
  function CompletedOf(asked: seq<int>, lookups: int -> LockLookup): nat {
    if asked == [] then 0
    else CompletedOf(asked[..|asked| - 1], lookups) + if Completes(lookups(asked[|asked| - 1])) then 1 else 0
  }

  /** The accounts of which CentralAuth said that they are not locked, or locked and why. */
  function Answered(asked: seq<int>, lookups: int -> LockLookup): set<int> {
    set id | id in asked && (lookups(id).Unlocked? || lookups(id).LockedFor?)
  }

  /** Checks are counted account by account. */
  lemma {:induction false} CompletedAreCounted(asked: seq<int>, lookups: int -> LockLookup)
    requires forall i, j :: 0 <= i < j < |asked| ==> asked[i] != asked[j]
    ensures CompletedOf(asked, lookups) == |Answered(asked, lookups)|
  {
    if asked != [] {
      var n := |asked| - 1;
      CompletedAreCounted(asked[..n], lookups);
      assert Answered(asked, lookups)
          == Answered(asked[..n], lookups) + if Completes(lookups(asked[n])) then {asked[n]} else {};
      assert asked[n] !in asked[..n];
    }
  }

  datatype Report = Unreachable | Report(tracked: nat, added: nat, removed: nat, locksChecked: nat)

  /** One account of the loop: its record, and whether its lock was asked for and read. */
  method RefreshOne(id: int, previous: Option<StandingRecord>, block: AccountStanding, isDue: bool, lookup: LockLookup,
                    now: int)
    returns (record: StandingRecord, checked: bool)
    ensures record == Refreshed(id, previous, block, isDue, lookup, now)
    ensures checked <==> isDue && Completes(lookup)
  {
    var locked := previous.Some? && previous.value.standing.globallyLocked;
    var lockReason := if previous.Some? then previous.value.standing.lockReason else None;
    var lockCheckedAt := if previous.Some? then previous.value.lockCheckedAt else None;
    checked := false;
    if isDue {
      match lookup {
        case LookupFailed =>
        case ReasonFailed => locked := true;
        case Unlocked => locked, lockReason, lockCheckedAt, checked := false, None, Some(now), true;
        case LockedFor(reason) => locked, lockReason, lockCheckedAt, checked := true, reason, Some(now), true;
      }
    }
    record := StandingRecord(block.(userId := id, globallyLocked := locked, lockReason := lockReason), lockCheckedAt);
  }

  /** The loop over the named accounts. */
  method CollectRecords(named: seq<int>, known: map<int, StandingRecord>, blocks: map<int, AccountStanding>,
                        due: set<int>,
                        lookups: int -> LockLookup, now: int)
    returns (records: seq<StandingRecord>, asked: seq<int>, locksChecked: nat)
    ensures records == RecordsOf(named, known, blocks, due, lookups, now)
    ensures asked == AskedOf(named, blocks, due)
    ensures locksChecked == CompletedOf(asked, lookups)
  {
    records, asked, locksChecked := [], [], 0;
    for i := 0 to |named|
      invariant records == RecordsOf(named[..i], known, blocks, due, lookups, now)
      invariant asked == AskedOf(named[..i], blocks, due)
      invariant locksChecked == CompletedOf(asked, lookups)
    {
      assert named[..i + 1][..i] == named[..i];
      var id := named[i];
      var previous := Lookup(known, id);
      if id !in blocks {
        if previous.Some? {
          records := records + [previous.value];
        }
      } else {
        var record, checked := RefreshOne(id, previous, blocks[id], id in due, lookups(id), now);
        if id in due {
          assert (asked + [id])[..|asked|] == asked;
          asked := asked + [id];
        }
        if checked {
          locksChecked := locksChecked + 1;
        }
        records := records + [record];
      }
    }
    assert named[..|named|] == named;
  }

  /** What a run with these inputs reports, asks and leaves in the table. */
  ghost predicate RunDone(before: map<Scoped, StandingRow>, after: map<Scoped, StandingRow>, wiki: string,
                          named: seq<int>,
                          known: map<int, StandingRecord>, answers: map<int, AccountStanding>, due: set<int>,
                          lookups: int -> LockLookup, now: int, dryRun: bool, report: Report, asked: seq<int>)
  {
    var synced := Synced(named, known, answers, due, lookups, now);
    && report.Report?
    && asked == AskedOf(named, answers, due)
    && report.tracked == |synced|
    && if dryRun then after == before && report.added == report.removed == report.locksChecked == 0
       else
         && Replaces(before, after, wiki, RowsOf(synced, now))
         && report.added == |synced.Keys - known.Keys| && report.removed == |known.Keys - synced.Keys|
         && |synced| == |known| + report.added - report.removed
         && report.locksChecked == CompletedOf(asked, lookups)
  }

  /** Counting rows is counting records. */
  lemma CountedByKeys(synced: map<int, StandingRecord>, known: map<int, StandingRecord>, now: int)
    ensures RowsOf(synced, now).Keys == synced.Keys && |RowsOf(synced, now)| == |synced|
    ensures |synced| == |known| + |synced.Keys - known.Keys| - |known.Keys - synced.Keys|
  {
    assert RowsOf(synced, now).Keys == synced.Keys;
    ReplacementCount(known.Keys, synced.Keys);
  }

  method NamedAccounts(repository: Repository, wiki: string) returns (named: seq<int>)
    ensures StrictlyAscending(named)
    ensures forall id :: id in named <==> NamedBy(repository.results, repository.results.Keys, wiki, id)
  {
    named := repository.NamedContributorIds(wiki);
  }

  /** The run once the named accounts and their blocks are known. */
  method SyncNamed(repository: Repository, wiki: string, named: seq<int>, answers: map<int, AccountStanding>,
                   candidates: seq<int>,
                   lookups: int -> LockLookup, now: int, budget: nat, dryRun: bool)
    returns (report: Report, asked: seq<int>)
    requires StrictlyAscending(named) && |candidates| <= budget
    modifies repository`standing
    ensures var known := old(repository.StandingRecords(wiki));
            RunDone(old(repository.standing), repository.standing, wiki, named, known, answers,
                    Due(named, known, candidates, budget), lookups, now, dryRun, report, asked)
    ensures |asked| <= budget
  {
    var known := repository.StandingRecords(wiki);
    var due := Due(named, known, candidates, budget);
    AskedFitsBudget(named, known, candidates, budget, answers);
    RecordsWriteSynced(named, known, answers, due, lookups, now);
    var records, askedNow, locksChecked := CollectRecords(named, known, answers, due, lookups, now);
    asked := askedNow;
    if dryRun {
      return Report(|records|, 0, 0, 0), asked;
    }
    var added, removed := repository.ReplaceStanding(now, wiki, records);
    report := Report(|records|, added, removed, locksChecked);
    CountedByKeys(Synced(named, known, answers, due, lookups, now), known, now);
  }

  /**
   * One run for one wiki. `answers` is the block pass, absent when it
   * failed; `candidates` is what the rotation query returned. `asked` lists the accounts
   * whose lock was looked up, in order.
   */
  method SyncWiki(repository: Repository, wiki: string, answers: Option<map<int, AccountStanding>>,
                  candidates: seq<int>,
                  lookups: int -> LockLookup, now: int, recheck: int, budget: nat, dryRun: bool)
    returns (report: Report, asked: seq<int>, named: seq<int>)
    requires IsLockCandidates(repository.StandingRecords(wiki), now - recheck, budget, candidates)
    modifies repository`standing
    ensures StrictlyAscending(named)
    ensures forall id :: id in named <==> NamedBy(repository.results, repository.results.Keys, wiki, id)
    ensures answers.None? ==> report.Unreachable? && asked == [] && repository.standing == old(repository.standing)
    ensures answers.Some? ==>
              var known := old(repository.StandingRecords(wiki));
              RunDone(old(repository.standing), repository.standing, wiki, named, known, answers.value,
                      Due(named, known, candidates, budget), lookups, now, dryRun, report, asked)
    ensures |asked| <= budget
  {
    assert |candidates| <= budget;
    named := NamedAccounts(repository, wiki);
    if answers.None? {
      return Unreachable, [], named;
    }
    report, asked := SyncNamed(repository, wiki, named, answers.value, candidates, lookups, now, budget, dryRun);
  }
}
