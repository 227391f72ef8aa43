/**
 * One media asset: its registry row and stored binary, an upload that may stop anywhere, and any
 * number of cleanup replicas reconciling abandoned uploads and purging expired assets.
 */
module MediaAssets {
  import opened Wrappers

  datatype FailureCode = Abandoned | UploadFailure

  /** `storageKey` is the key of the asset's binary, which is the same for the asset's whole life. */
  datatype Row = Row(provider: Option<nat>, failure: Option<FailureCode>, hasKey: bool, stored: bool, updatedAt: int)

  // ----- the guarded updates of the row -----

  function MarkedFailed(row: Option<Row>, code: FailureCode, now: int): Option<Row>
  {
    if row.Some? then Some(row.value.(failure := Some(code), updatedAt := now)) else None
  }

  predicate IsPending(row: Option<Row>)
  {
    row.Some? && row.value.provider == None && row.value.failure == None
  }

  predicate IsStale(row: Option<Row>, staleBefore: int)
  {
    IsPending(row) && row.value.updatedAt <= staleBefore
  }

  function Completed(row: Option<Row>, provider: nat, now: int): Option<Row>
  {
    if IsPending(row) then Some(row.value.(provider := Some(provider), updatedAt := now)) else row
  }

  function Claimed(row: Option<Row>, staleBefore: int, now: int): Option<Row>
  {
    if IsStale(row, staleBefore) then Some(row.value.(failure := Some(Abandoned), updatedAt := now)) else row
  }

  predicate MayClear(row: Option<Row>)
  {
    row.Some? && row.value.provider == None && row.value.failure == Some(Abandoned) && row.value.hasKey
  }

  function Cleared(row: Option<Row>, now: int): Option<Row>
  {
    if MayClear(row) then Some(row.value.(hasKey := false, stored := false, updatedAt := now)) else row
  }

  class AssetRegistry {
    var row: Option<Row>

    /** The row an upload creates before it stages the binary. */
    method Create(keyed: bool, now: int) returns (created: bool)
      modifies this
      ensures created == (old(row) == None)
      ensures row == if created then Some(Row(None, None, keyed, false, now)) else old(row)
    {
      created := row == None;
      if created {
        row := Some(Row(None, None, keyed, false, now));
      }
    }

    /** `markAssetFailed`: unconditional, but for a row that is already gone. */
    method MarkAssetFailed(now: int)
      modifies this
      ensures row == MarkedFailed(old(row), UploadFailure, now)
      ensures row == if old(row) == None then None
                     else Some(Row(old(row).value.provider, Some(UploadFailure), old(row).value.hasKey, old(row).value.stored, now))
    {
      if row.Some? {
        row := Some(row.value.(failure := Some(UploadFailure), updatedAt := now));
      }
    }

    /** The final update of `upload`: refused once somebody has failed or finished the asset. */
    method Complete(provider: nat, now: int) returns (done: bool)
      modifies this
      ensures done == IsPending(old(row)) && row == Completed(old(row), provider, now)
      ensures done <==> old(row).Some? && old(row).value.provider == None && old(row).value.failure == None
      ensures row == if done then Some(Row(Some(provider), None, old(row).value.hasKey, old(row).value.stored, now)) else old(row)
    {
      done := row.Some? && row.value.provider == None && row.value.failure == None;
      if done {
        row := Some(row.value.(provider := Some(provider), updatedAt := now));
      }
    }

    /** The claim of `reconcileStaleUploads` on a row that is still stale. */
    method ClaimAbandoned(staleBefore: int, now: int) returns (claimed: bool)
      modifies this
      ensures claimed == IsStale(old(row), staleBefore) && row == Claimed(old(row), staleBefore, now)
      ensures claimed <==> && old(row).Some? && old(row).value.provider == None && old(row).value.failure == None
                           && old(row).value.updatedAt <= staleBefore
      ensures row == if claimed then Some(Row(None, Some(Abandoned), old(row).value.hasKey, old(row).value.stored, now))
                     else old(row)
    {
      claimed := row.Some? && row.value.provider == None && row.value.failure == None && row.value.updatedAt <= staleBefore;
      if claimed {
        row := Some(row.value.(failure := Some(Abandoned), updatedAt := now));
      }
    }

    /** The last update of `reconcileStaleUploads`. */
    method ClearKey(now: int) returns (cleared: bool)
      modifies this
      ensures cleared == MayClear(old(row)) && row == Cleared(old(row), now)
      ensures cleared <==> && old(row).Some? && old(row).value.provider == None && old(row).value.hasKey
                           && old(row).value.failure == Some(Abandoned)
      ensures row == if cleared then Some(Row(None, Some(Abandoned), false, false, now)) else old(row)
    {
      cleared := row.Some? && row.value.provider == None && row.value.failure == Some(Abandoned) && row.value.hasKey;
      if cleared {
        row := Some(row.value.(hasKey := false, stored := false, updatedAt := now));
      }
    }
  }

  // ----- the protocol -----

  datatype Upload =
    | NotStarted
    | Staging(keyed: bool)  // the row exists; the binary is being written under the key, if there is one
    | Staged             // written; `storedAt` comes next
    | Sending
    | Accepted(provider: nat)
    | Failing            // about to mark the row failed
    | Finished           // returned, or stopped

  /** A cleanup replica working on the asset, with what its query saw. */
  datatype Cleaner =
    | Found(abandoned: bool, hasKey: bool)
    | Discarding
    | Clearing
    | Expired(hasKey: bool)
    | Deleting

  datatype State = State(row: Option<Row>, binary: bool, upload: Upload, cleaners: map<nat, Cleaner>)

  const START := State(None, false, NotStarted, map[])

  datatype Action =
    | CreateRow(keyed: bool, now: int)
    | WriteBinary
    | EndStaging(ok: bool)
    | StoreTime(ok: bool, now: int)
    | Send(provider: Option<nat>)
    | Finish(now: int)
    | Fail(now: int)
    | StopUpload
    | FindStale(k: nat, staleBefore: int)
    | ClaimStale(k: nat, staleBefore: int, now: int)
    | Discard(k: nat, ok: bool)
    | Clear(k: nat, now: int)
    | FindExpired(k: nat)
    | DiscardExpired(k: nat, ok: bool)
    | Delete(k: nat)
    | StopCleaner(k: nat)

  function CleanerOf(a: Action): Option<nat>
  {
    match a
    case ClaimStale(k, _, _) => Some(k)
    case Discard(k, _) => Some(k)
    case Clear(k, _) => Some(k)
    case DiscardExpired(k, _) => Some(k)
    case Delete(k) => Some(k)
    case StopCleaner(k) => Some(k)
    case _ => None
  }

  predicate Enabled(s: State, a: Action)
  {
    && (CleanerOf(a).Some? ==> CleanerOf(a).value in s.cleaners)
    && match a
       case CreateRow(_, _) => s.upload.NotStarted? && s.row == None
       case WriteBinary => s.upload.Staging?
       case EndStaging(_) => s.upload.Staging?
       case StoreTime(_, _) => s.upload.Staged?
       case Send(_) => s.upload.Sending?
       case Finish(_) => s.upload.Accepted?
       case Fail(_) => s.upload.Failing?
       case StopUpload => !s.upload.NotStarted?
       case FindStale(k, staleBefore) =>
         k !in s.cleaners && (IsStale(s.row, staleBefore) || MayClear(s.row))
       case ClaimStale(k, _, _) => s.cleaners[k].Found? && !s.cleaners[k].abandoned
       case Discard(k, _) => s.cleaners[k].Discarding? || (s.cleaners[k].Found? && s.cleaners[k].abandoned)
       case Clear(k, _) => s.cleaners[k].Clearing?
       case FindExpired(k) => k !in s.cleaners && s.row.Some?
       case DiscardExpired(k, _) => s.cleaners[k].Expired?
       case Delete(k) => s.cleaners[k].Deleting?
       case StopCleaner(k) => true
  }

  function NextUpload(s: State, a: Action): Upload
    requires Enabled(s, a)
  {
    match a
    case CreateRow(keyed, _) => Staging(keyed)
    case EndStaging(ok) => if ok then Staged else Failing
    case StoreTime(ok, _) => if ok && s.row.Some? then Sending else Failing
    case Send(provider) => if provider.Some? then Accepted(provider.value) else Failing
    case Finish(_) => Finished
    case Fail(_) => Finished
    case StopUpload => Finished
    case _ => s.upload
  }

  function NextRow(s: State, a: Action): Option<Row>
    requires Enabled(s, a)
  {
    match a
    case CreateRow(keyed, now) => Some(Row(None, None, keyed, false, now))
    case StoreTime(ok, now) => if ok && s.row.Some? then Some(s.row.value.(stored := true, updatedAt := now)) else s.row
    case Finish(now) => Completed(s.row, s.upload.provider, now)
    case Fail(now) => MarkedFailed(s.row, UploadFailure, now)
    case ClaimStale(_, staleBefore, now) => Claimed(s.row, staleBefore, now)
    case Clear(_, now) => Cleared(s.row, now)
    case Delete(_) => None
    case _ => s.row
  }

  /** The upload writes under its own key, whatever the row says; `discard` without a key touches none. */
  function NextBinary(s: State, a: Action): bool
    requires Enabled(s, a)
  {
    match a
    case WriteBinary => s.binary || s.upload.keyed
    case Discard(_, ok) => s.binary && !ok
    case DiscardExpired(k, ok) => s.binary && !(ok && s.cleaners[k].hasKey)
    case _ => s.binary
  }

  function NextCleaner(s: State, a: Action): Option<Cleaner>
    requires Enabled(s, a) && CleanerOf(a).Some?
  {
    match a
    case ClaimStale(k, staleBefore, _) => if IsStale(s.row, staleBefore) && s.cleaners[k].hasKey then Some(Discarding) else None
    case Discard(_, ok) => if ok then Some(Clearing) else None
    case DiscardExpired(_, ok) => if ok then Some(Deleting) else None
    case _ => None
  }

  function CleanersMoved(s: State, a: Action): map<nat, Cleaner>
    requires Enabled(s, a)
  {
    if CleanerOf(a) == None then s.cleaners
    else if NextCleaner(s, a).Some? then s.cleaners[CleanerOf(a).value := NextCleaner(s, a).value]
    else s.cleaners - {CleanerOf(a).value}
  }

  function NextCleaners(s: State, a: Action): map<nat, Cleaner>
    requires Enabled(s, a)
  {
    match a
    case FindStale(k, _) => s.cleaners[k := Found(s.row.value.failure == Some(Abandoned), s.row.value.hasKey)]
    case FindExpired(k) => s.cleaners[k := Expired(s.row.value.hasKey)]
    case _ => CleanersMoved(s, a)
  }

  function Apply(s: State, a: Action): State
    requires Enabled(s, a)
  {
    State(NextRow(s, a), NextBinary(s, a), NextUpload(s, a), NextCleaners(s, a))
  }

  ghost predicate IsRun(s: State, actions: seq<Action>, t: State)
    decreases |actions|
  {
    if actions == [] then s == t
    else Enabled(s, actions[0]) && IsRun(Apply(s, actions[0]), actions[1..], t)
  }

  // ----- never both completed and failed -----

  /** Only the upload itself completes the asset, as its last step. */
  predicate Consistent(s: State)
  {
    s.row.Some? && s.row.value.provider.Some? ==> s.upload.Finished? && s.row.value.failure == None
  }

  lemma ConsistentKept(s: State, a: Action)
    requires Enabled(s, a) && Consistent(s)
    ensures Consistent(Apply(s, a))
  {
    hide NextBinary, NextCleaners;
  }

  lemma {:induction false} NeverCompletedAndFailed(s: State, actions: seq<Action>, t: State)
    requires IsRun(s, actions, t) && Consistent(s)
    ensures Consistent(t)
    ensures t.row.Some? ==> !(t.row.value.provider.Some? && t.row.value.failure.Some?)
    decreases |actions|
  {
    hide Enabled, Apply;
    if actions != [] {
      ConsistentKept(s, actions[0]);
      NeverCompletedAndFailed(Apply(s, actions[0]), actions[1..], t);
    }
  }

  // ----- what uploads and cleanups achieve -----

  /** The provider the upload is about to record is one that accepted the binary. */
  predicate Sent(s: State, sends: set<nat>)
  {
    && (s.upload.Accepted? ==> s.upload.provider in sends)
    && (s.row.Some? && s.row.value.provider.Some? ==> s.row.value.provider.value in sends)
  }

  function SendOf(a: Action): set<nat>
  {
    match a
    case Send(Some(provider)) => {provider}
    case _ => {}
  }

  lemma SentKept(s: State, a: Action, sends: set<nat>)
    requires Enabled(s, a) && Sent(s, sends)
    ensures Sent(Apply(s, a), sends + SendOf(a))
  {
    hide NextBinary, NextCleaners;
  }

  lemma {:induction false} SentOverRuns(s: State, actions: seq<Action>, t: State, sends: set<nat>)
    requires IsRun(s, actions, t) && Sent(s, sends)
    requires forall provider :: Send(Some(provider)) in actions ==> provider in sends
    ensures Sent(t, sends)
    decreases |actions|
  {
    hide Enabled, Apply, Sent;
    if actions != [] {
      assert SendOf(actions[0]) <= sends;
      SentKept(s, actions[0], sends);
      assert sends + SendOf(actions[0]) == sends;
      SentOverRuns(Apply(s, actions[0]), actions[1..], t, sends);
    }
  }

  /** A completed asset carries the provider id of an accepted send of its run. */
  lemma CompletedWithItsSend(actions: seq<Action>, t: State)
    requires IsRun(START, actions, t) && t.row.Some? && t.row.value.provider.Some?
    ensures Send(Some(t.row.value.provider.value)) in actions
  {
    hide IsRun;
    var sends := set a | a in actions && a.Send? && a.provider.Some? :: a.provider.value;
    SentOverRuns(START, actions, t, sends);
    var a :| a in actions && a.Send? && a.provider.Some? && a.provider.value == t.row.value.provider.value;
    assert a == Send(Some(t.row.value.provider.value));
  }

  lemma Then(s: State, a: Action, rest: seq<Action>, t: State)
    requires Enabled(s, a) && IsRun(Apply(s, a), rest, t)
    ensures IsRun(s, [a] + rest, t)
  {
    assert ([a] + rest)[1..] == rest;
  }

  /** Nobody interferes and nothing fails: the row is completed, stored, and last written at the end. */
  lemma UndisturbedUploadCompletes(keyed: bool, provider: nat, created: int, stored: int, done: int)
    ensures IsRun(START,
                  [CreateRow(keyed, created), WriteBinary, EndStaging(true), StoreTime(true, stored), Send(Some(provider)),
                   Finish(done)],
                  State(Some(Row(Some(provider), None, keyed, true, done)), keyed, Finished, map[]))
  {
    hide IsRun;
    var s1 := State(Some(Row(None, None, keyed, false, created)), false, Staging(keyed), map[]);
    var s2 := s1.(binary := keyed);
    var s3 := s2.(upload := Staged);
    var s4 := State(Some(Row(None, None, keyed, true, stored)), keyed, Sending, map[]);
    var s5 := s4.(upload := Accepted(provider));
    var t := State(Some(Row(Some(provider), None, keyed, true, done)), keyed, Finished, map[]);
    NoStep(t);
    Then(s5, Finish(done), [], t);
    assert [Finish(done)] + [] == [Finish(done)];
    Then(s4, Send(Some(provider)), [Finish(done)], t);
    Then(s3, StoreTime(true, stored), [Send(Some(provider)), Finish(done)], t);
    Then(s2, EndStaging(true), [StoreTime(true, stored), Send(Some(provider)), Finish(done)], t);
    Then(s1, WriteBinary, [EndStaging(true), StoreTime(true, stored), Send(Some(provider)), Finish(done)], t);
    Then(START, CreateRow(keyed, created),
         [WriteBinary, EndStaging(true), StoreTime(true, stored), Send(Some(provider)), Finish(done)], t);
    assert [CreateRow(keyed, created)]
         + [WriteBinary, EndStaging(true), StoreTime(true, stored), Send(Some(provider)), Finish(done)]
        == [CreateRow(keyed, created), WriteBinary, EndStaging(true), StoreTime(true, stored), Send(Some(provider)), Finish(done)];
  }

  lemma NoStep(s: State)
    ensures IsRun(s, [], s)
  {
  }

  /** Whatever step of the upload fails, its next one marks the row failed and ends it. */
  lemma FailureIsRecorded(s: State, a: Action, now: int)
    requires Enabled(s, a) && s.row.Some?
    requires a == EndStaging(false) || a == Send(None) || (a.StoreTime? && !a.ok)
    ensures var t := Apply(Apply(s, a), Fail(now));
            && t.upload == Finished && t.binary == s.binary && t.cleaners == s.cleaners
            && t.row == Some(s.row.value.(failure := Some(UploadFailure), updatedAt := now))
  {
  }

  lemma Twice(cleaners: map<nat, Cleaner>, k: nat, c: Cleaner, d: Cleaner)
    ensures cleaners[k := c][k := d] == cleaners[k := d]
    ensures k !in cleaners ==> cleaners[k := c] - {k} == cleaners
  {
  }

  lemma DiscardAndClear(s: State, k: nat, cleared: int)
    requires k !in s.cleaners && MayClear(s.row)
    ensures IsRun(s.(cleaners := s.cleaners[k := Discarding]), [Discard(k, true), Clear(k, cleared)],
                  s.(row := Some(Row(None, Some(Abandoned), false, false, cleared)), binary := false))
  {
    hide IsRun, NextUpload;
    var s1 := s.(cleaners := s.cleaners[k := Discarding]);
    var s2 := s.(binary := false, cleaners := s.cleaners[k := Clearing]);
    var t := s.(row := Some(Row(None, Some(Abandoned), false, false, cleared)), binary := false);
    assert NextUpload(s1, Discard(k, true)) == s.upload && NextUpload(s2, Clear(k, cleared)) == s.upload by {
      KeepsUpload(s1, Discard(k, true));
      KeepsUpload(s2, Clear(k, cleared));
    }
    Twice(s.cleaners, k, Discarding, Clearing);
    Twice(s.cleaners, k, Clearing, Clearing);
    NoStep(t);
    Then(s2, Clear(k, cleared), [], t);
    assert [Clear(k, cleared)] + [] == [Clear(k, cleared)];
    Then(s1, Discard(k, true), [Clear(k, cleared)], t);
    assert [Discard(k, true)] + [Clear(k, cleared)] == [Discard(k, true), Clear(k, cleared)];
  }

  lemma KeepsUpload(s: State, a: Action)
    requires Enabled(s, a) && (CleanerOf(a).Some? || a.FindStale? || a.FindExpired?)
    ensures NextUpload(s, a) == s.upload
  {
  }

  /** A stale keyed upload, found by a free replica: four steps leave a failed row without key and no binary. */
  lemma StaleUploadIsCleaned(s: State, k: nat, staleBefore: int, claimed: int, cleared: int)
    requires k !in s.cleaners && s.row.Some? && s.row.value.provider == None && s.row.value.failure == None
    requires s.row.value.updatedAt <= staleBefore && s.row.value.hasKey
    ensures IsRun(s, [FindStale(k, staleBefore), ClaimStale(k, staleBefore, claimed), Discard(k, true), Clear(k, cleared)],
                  s.(row := Some(Row(None, Some(Abandoned), false, false, cleared)), binary := false))
  {
    hide IsRun, NextUpload;
    var s1 := s.(cleaners := s.cleaners[k := Found(false, true)]);
    var s2 := s.(row := Some(s.row.value.(failure := Some(Abandoned), updatedAt := claimed)));
    var t := s.(row := Some(Row(None, Some(Abandoned), false, false, cleared)), binary := false);
    DiscardAndClear(s2, k, cleared);
    Twice(s.cleaners, k, Found(false, true), Discarding);
    KeepsUpload(s1, ClaimStale(k, staleBefore, claimed));
    Then(s1, ClaimStale(k, staleBefore, claimed), [Discard(k, true), Clear(k, cleared)], t);
    KeepsUpload(s, FindStale(k, staleBefore));
    Then(s, FindStale(k, staleBefore), [ClaimStale(k, staleBefore, claimed)] + [Discard(k, true), Clear(k, cleared)], t);
    assert [FindStale(k, staleBefore)] + ([ClaimStale(k, staleBefore, claimed)] + [Discard(k, true), Clear(k, cleared)])
        == [FindStale(k, staleBefore), ClaimStale(k, staleBefore, claimed), Discard(k, true), Clear(k, cleared)];
  }

  /** An expired asset, found by a free replica: its row goes, and with its key also its binary. */
  lemma ExpiredAssetIsPurged(s: State, k: nat)
    requires k !in s.cleaners && s.row.Some?
    ensures IsRun(s, [FindExpired(k), DiscardExpired(k, true), Delete(k)],
                  s.(row := None, binary := s.binary && !s.row.value.hasKey))
  {
    hide IsRun, NextUpload;
    var s1 := s.(cleaners := s.cleaners[k := Expired(s.row.value.hasKey)]);
    var s2 := s1.(binary := s.binary && !s.row.value.hasKey, cleaners := s.cleaners[k := Deleting]);
    var t := s.(row := None, binary := s.binary && !s.row.value.hasKey);
    Twice(s.cleaners, k, Expired(s.row.value.hasKey), Deleting);
    Twice(s.cleaners, k, Deleting, Deleting);
    KeepsUpload(s2, Delete(k));
    KeepsUpload(s1, DiscardExpired(k, true));
    KeepsUpload(s, FindExpired(k));
    NoStep(t);
    Then(s2, Delete(k), [], t);
    assert [Delete(k)] + [] == [Delete(k)];
    Then(s1, DiscardExpired(k, true), [Delete(k)], t);
    Then(s, FindExpired(k), [DiscardExpired(k, true), Delete(k)], t);
    assert [FindExpired(k)] + [DiscardExpired(k, true), Delete(k)]
        == [FindExpired(k), DiscardExpired(k, true), Delete(k)];
  }

  // ----- a binary keeps its row while staging is prompt -----

  /** Nobody finds the row stale or expired before staging has ended. */
  predicate Prompt(s: State, a: Action)
  {
    a.FindStale? || a.FindExpired? ==> !s.upload.Staging?
  }

  ghost predicate IsPromptRun(s: State, actions: seq<Action>, t: State)
    decreases |actions|
  {
    if actions == [] then s == t
    else Enabled(s, actions[0]) && Prompt(s, actions[0]) && IsPromptRun(Apply(s, actions[0]), actions[1..], t)
  }

  predicate Gone(c: Cleaner)
  {
    c.Clearing? || c.Deleting? || (c.Expired? && !c.hasKey)
  }

  /** A stored binary has a row that holds its key; replicas past their discard know it gone for good. */
  ghost predicate Held(s: State)
  {
    && (s.binary ==> s.row.Some? && s.row.value.hasKey)
    && (s.upload.NotStarted? || s.upload.Staging? ==> s.cleaners == map[])
    && (s.upload.NotStarted? ==> s.row == None)
    && (forall k :: k in s.cleaners && Gone(s.cleaners[k]) ==> !s.binary)
    && (s.upload.Staging? ==> IsPending(s.row) && s.upload.keyed == s.row.value.hasKey)
  }

  lemma HeldKept(s: State, a: Action)
    requires Enabled(s, a) && Prompt(s, a) && Held(s)
    ensures Held(Apply(s, a))
  {
    hide NextUpload, NextRow, NextBinary, NextCleaners;
    var t := Apply(s, a);
    BinaryHeld(s, a);
    UploadOrder(s, a);
    forall k | k in t.cleaners && Gone(t.cleaners[k])
      ensures !t.binary
    {
      GoneStaysGone(s, a, k);
    }
  }

  lemma BinaryHeld(s: State, a: Action)
    requires Enabled(s, a) && Held(s)
    ensures NextBinary(s, a) ==> NextRow(s, a).Some? && NextRow(s, a).value.hasKey
  {
  }

  lemma UploadOrder(s: State, a: Action)
    requires Enabled(s, a) && Prompt(s, a) && Held(s)
    ensures NextUpload(s, a).NotStarted? || NextUpload(s, a).Staging? ==> NextCleaners(s, a) == map[]
    ensures NextUpload(s, a).NotStarted? ==> NextRow(s, a) == None
    ensures NextUpload(s, a).Staging? ==>
              IsPending(NextRow(s, a)) && NextUpload(s, a).keyed == NextRow(s, a).value.hasKey
  {
  }

  lemma GoneStaysGone(s: State, a: Action, k: nat)
    requires Enabled(s, a) && Prompt(s, a) && Held(s)
    requires k in NextCleaners(s, a) && Gone(NextCleaners(s, a)[k])
    ensures !NextBinary(s, a)
  {
  }

  lemma {:induction false} BinaryKeepsItsRow(s: State, actions: seq<Action>, t: State)
    requires IsPromptRun(s, actions, t) && Held(s)
    ensures Held(t)
    decreases |actions|
  {
    hide Enabled, Apply, Prompt, Held;
    if actions != [] {
      HeldKept(s, actions[0]);
      BinaryKeepsItsRow(Apply(s, actions[0]), actions[1..], t);
    }
  }

  /**
   * When staging ends before the row is stale or expired: every stored binary has a row still
   * holding its key, and a step that deletes the row or clears its key finds the binary gone.
   */
  lemma NoOrphanBinary(actions: seq<Action>, t: State, a: Action)
    requires IsPromptRun(START, actions, t)
    ensures t.binary ==> t.row.Some? && t.row.value.hasKey
    ensures Enabled(t, a) && Prompt(t, a) && t.row.Some? && t.row.value.hasKey
            && !(Apply(t, a).row.Some? && Apply(t, a).row.value.hasKey)
            ==> !t.binary
  {
    hide IsPromptRun;
    BinaryKeepsItsRow(START, actions, t);
    if Enabled(t, a) && Prompt(t, a) {
      HeldKept(t, a);
      if t.row.Some? && t.row.value.hasKey && !(Apply(t, a).row.Some? && Apply(t, a).row.value.hasKey) {
        KeyLeavesWithoutWrites(t, a);
      }
    }
  }

  lemma KeyLeavesWithoutWrites(s: State, a: Action)
    requires Enabled(s, a) && s.row.Some? && s.row.value.hasKey
    requires !(NextRow(s, a).Some? && NextRow(s, a).value.hasKey)
    ensures NextBinary(s, a) == s.binary
  {
  }

  // ----- and not otherwise -----

  lemma PromptRunFrom(s: State, a: Action, actions: seq<Action>, t: State)
    requires Enabled(s, a) && Prompt(s, a) && IsPromptRun(Apply(s, a), actions, t)
    ensures IsPromptRun(s, [a] + actions, t)
  {
    hide Enabled, Apply, Prompt;
    assert ([a] + actions)[0] == a && ([a] + actions)[1..] == actions;
  }

  predicate IsOrphan(s: State)
  {
    s.binary && !(s.row.Some? && s.row.value.hasKey)
  }

  /** However prompt everybody is from now on, a binary may lose its key, or its whole row. */
  ghost predicate MayOrphan(s: State, purged: bool)
  {
    exists actions, t :: IsPromptRun(s, actions, t) && IsOrphan(t) && (t.row == None <==> purged)
  }

  lemma OrphanLater(s: State, a: Action, purged: bool)
    requires Enabled(s, a) && Prompt(s, a) && MayOrphan(Apply(s, a), purged)
    ensures MayOrphan(s, purged)
  {
    hide Enabled, Apply, IsPromptRun, Prompt, IsOrphan;
    var actions, t :| IsPromptRun(Apply(s, a), actions, t) && IsOrphan(t) && (t.row == None <==> purged);
    PromptRunFrom(s, a, actions, t);
  }

  lemma OrphanNow(s: State)
    requires IsOrphan(s)
    ensures MayOrphan(s, s.row == None)
  {
    assert IsPromptRun(s, [], s);
  }

  /** A replica is about to discard the binary of an abandoned asset while staging is still writing. */
  lemma OrphanWhileDiscarding(s: State, k: nat)
    requires s.upload == Staging(true) && MayClear(s.row)
    requires k in s.cleaners && s.cleaners[k].Discarding?
    ensures MayOrphan(s, false)
  {
    hide MayOrphan;
    var s1 := Apply(s, Discard(k, true));
    var s2 := Apply(s1, WriteBinary);
    OrphanNow(Apply(s2, Clear(k, 0)));
    OrphanLater(s2, Clear(k, 0), false);
    OrphanLater(s1, WriteBinary, false);
    OrphanLater(s, Discard(k, true), false);
  }

  /** A replica found a pending, keyed row stale while staging is still writing: it ends without its key. */
  lemma OrphanWhenStale(s: State, k: nat, staleBefore: int)
    requires s.upload == Staging(true) && IsStale(s.row, staleBefore) && s.row.value.hasKey
    requires k in s.cleaners && s.cleaners[k] == Found(false, true)
    ensures MayOrphan(s, false)
  {
    hide MayOrphan;
    OrphanWhileDiscarding(Apply(s, ClaimStale(k, staleBefore, 0)), k);
    OrphanLater(s, ClaimStale(k, staleBefore, 0), false);
  }

  /** A replica found it expired: it ends without its row. */
  lemma OrphanWhenExpired(s: State, k: nat)
    requires s.upload == Staging(true) && s.row.Some? && s.row.value.hasKey
    requires k in s.cleaners && s.cleaners[k] == Expired(true)
    ensures MayOrphan(s, true)
  {
    hide MayOrphan;
    var s1 := Apply(s, DiscardExpired(k, true));
    var s2 := Apply(s1, WriteBinary);
    OrphanNow(Apply(s2, Delete(k)));
    OrphanLater(s2, Delete(k), true);
    OrphanLater(s1, WriteBinary, true);
    OrphanLater(s, DiscardExpired(k, true), true);
  }

  /** However the replicas and the upload go on, no binary loses its row or its key. */
  ghost predicate Safe(s: State)
  {
    forall future, t :: IsPromptRun(s, future, t) ==> !IsOrphan(t)
  }

  lemma OrphanIsUnsafe(s: State, purged: bool)
    requires MayOrphan(s, purged)
    ensures !Safe(s)
  {
  }

  lemma HeldIsSafe(s: State)
    requires Held(s)
    ensures Safe(s)
  {
    hide IsPromptRun;
    forall future, t | IsPromptRun(s, future, t)
      ensures !IsOrphan(t)
    {
      BinaryKeepsItsRow(s, future, t);
    }
  }

  /**
   * While staging has been prompt, finding a keyed asset stale or expired is safe for its binary,
   * whatever follows, if and only if staging has ended.
   */
  lemma FindIsSafeExactly(past: seq<Action>, s: State, a: Action)
    requires IsPromptRun(START, past, s) && Enabled(s, a) && (a.FindStale? || a.FindExpired?)
    requires s.row.Some? && s.row.value.hasKey
    ensures Safe(Apply(s, a)) <==> !s.upload.Staging?
  {
    hide IsPromptRun, MayOrphan, Safe;
    BinaryKeepsItsRow(START, past, s);
    var found := Apply(s, a);
    if !s.upload.Staging? {
      HeldKept(s, a);
      HeldIsSafe(found);
    } else if a.FindStale? {
      OrphanWhenStale(found, a.k, a.staleBefore);
      OrphanIsUnsafe(found, false);
    } else {
      OrphanWhenExpired(found, a.k);
      OrphanIsUnsafe(found, true);
    }
  }

  lemma {:induction false} PromptRunIsRun(s: State, actions: seq<Action>, t: State)
    requires IsPromptRun(s, actions, t)
    ensures IsRun(s, actions, t)
    decreases |actions|
  {
    hide Enabled, Apply, Prompt;
    if actions != [] {
      PromptRunIsRun(Apply(s, actions[0]), actions[1..], t);
    }
  }

  lemma RunFrom(s: State, a: Action, actions: seq<Action>, t: State)
    requires Enabled(s, a) && IsRun(Apply(s, a), actions, t)
    ensures IsRun(s, [a] + actions, t)
  {
    hide Enabled, Apply;
    assert ([a] + actions)[0] == a && ([a] + actions)[1..] == actions;
  }

  /** So slow staging does leave orphans: an early claim loses the key, an early purge the row. */
  lemma SlowStagingOrphans(purged: bool)
    ensures exists actions, t :: IsRun(START, actions, t) && IsOrphan(t) && (t.row == None <==> purged)
  {
    hide IsRun, IsPromptRun, IsOrphan;
    var create, find := CreateRow(true, 0), if purged then FindExpired(0) else FindStale(0, 0);
    var s1 := Apply(START, create);
    var s2 := Apply(s1, find);
    if purged {
      OrphanWhenExpired(s2, 0);
    } else {
      OrphanWhenStale(s2, 0, 0);
    }
    var actions, t :| IsPromptRun(s2, actions, t) && IsOrphan(t) && (t.row == None <==> purged);
    PromptRunIsRun(s2, actions, t);
    RunFrom(s1, find, actions, t);
    RunFrom(START, create, [find] + actions, t);
  }
}
