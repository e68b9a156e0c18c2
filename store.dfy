/**
 * The submission record and its persistence. The record is stored as two
 * independent blobs, the form/meta blob and the share blob, under their own
 * storage keys; the share blob holds the distinct-group set as an array.
 * Storage is modelled as decoded blobs per key rather than JSON text.
 */
module Store {
  import opened Wrappers
  import opened Text
  import opened ShareRules
  import opened SubmissionLog

  /** The submission record (`currentSubmission`) as a value. */
  datatype Submission = Submission(
    id: Option<string>,
    playerId: Option<string>,
    playerName: Option<string>,
    region: Option<string>,
    membership: Option<string>,
    walletAmount: real,
    currency: string,
    shareData: ShareProgress,
    winKey: Option<string>,
    timestamp: int)

  /** The form/meta blob: every field of the record except the share data. */
  datatype FormBlob = FormBlob(
    id: Option<string>,
    playerId: Option<string>,
    playerName: Option<string>,
    region: Option<string>,
    membership: Option<string>,
    walletAmount: real,
    currency: string,
    winKey: Option<string>,
    timestamp: int)

  /** The share blob as read back; any of its fields may be missing. */
  datatype ShareBlob = ShareBlob(
    totalShares: Option<int>,
    uniqueGroups: Option<seq<string>>,
    lastShareTimestamp: Option<int>)

  /**
   * Local storage under the program's four keys (`ffGiveawayFormData`,
   * `ffGiveawayShareData`, `ffGiveawaySubmissions`, `ffGiveawayUniqueGroups`);
   * each key is absent or holds a decoded blob. The fourth key is declared by
   * the program but never read or written.
   */
  datatype Storage = Storage(
    formData: Option<FormBlob>,
    shareData: Option<ShareBlob>,
    submissions: Option<seq<LogEntry>>,
    uniqueGroups: Option<seq<string>>)

  /**
   * The record a page starts from before anything is loaded, at clock reading
   * `now`: within the caps, not unlocked, and holding no key.
   */
  function InitialSubmission(now: int): (s: Submission)
    ensures Bounded(s.shareData) && !IsUnlocked(s.shareData) && NormalGroups(s.shareData)
    ensures !Truthy(s.winKey) && s.timestamp == now
  {
    Submission(None, None, None, None, None, 0.0, "LKR", ShareProgress(0, {}, 0), None, now)
  }

  /** The form/meta blob `saveData` writes: copying it back onto the record changes nothing. */
  function FormBlobOf(s: Submission): (b: FormBlob)
    ensures WithFormBlob(s, b) == s
  {
    FormBlob(s.id, s.playerId, s.playerName, s.region, s.membership, s.walletAmount, s.currency, s.winKey, s.timestamp)
  }

  /**
   * The admin-log summary of a record, keyed by the record's id; the group set
   * is reduced to its size, so a capped record logs capped counts.
   */
  function LogEntryOf(s: Submission): (e: LogEntry)
    ensures e.id == s.id && e.winKey == s.winKey
    ensures Bounded(s.shareData) ==> e.totalShares <= MaxTotalShares && e.uniqueGroups <= MaxUniqueGroups
  {
    LogEntry(s.id, s.playerId, s.membership, s.winKey, s.shareData.totalShares, |s.shareData.uniqueGroups|, s.timestamp)
  }

  /** The stored submissions list, or the empty list when the key is absent. */
  function LogOf(st: Storage): seq<LogEntry> {
    st.submissions.GetOr([])
  }

  predicate Distinct(a: seq<string>) {
    forall i, j :: 0 <= i < j < |a| ==> a[i] != a[j]
  }

  /** The elements of an array, as a set (`new Set(array)`). */
  function SetOf(a: seq<string>): set<string> {
    set g | g in a
  }

  /** `b` is the share blob written for `p`: every field present, the set as a duplicate-free array. */
  predicate EncodesProgress(b: ShareBlob, p: ShareProgress) {
    && b.totalShares == Some(p.totalShares)
    && b.lastShareTimestamp == Some(p.lastShareTimestamp)
    && b.uniqueGroups.Some?
    && Distinct(b.uniqueGroups.value)
    && SetOf(b.uniqueGroups.value) == p.uniqueGroups
  }

  /**
   * Reading a share blob back: a missing count or timestamp reads as 0, a
   * missing array as empty; the set never has more groups than the array has
   * entries.
   */
  function ProgressFromBlob(b: ShareBlob): (p: ShareProgress)
    ensures |p.uniqueGroups| <= |b.uniqueGroups.GetOr([])|
    ensures forall g :: g in p.uniqueGroups <==> g in b.uniqueGroups.GetOr([])
  {
    SetOfSize(b.uniqueGroups.GetOr([]));
    ShareProgress(b.totalShares.GetOr(0), SetOf(b.uniqueGroups.GetOr([])), b.lastShareTimestamp.GetOr(0))
  }

  /** Copying every field of a form blob onto the record, leaving the share data alone. */
  function WithFormBlob(s: Submission, b: FormBlob): Submission {
    s.(id := b.id, playerId := b.playerId, playerName := b.playerName, region := b.region,
       membership := b.membership, walletAmount := b.walletAmount, currency := b.currency,
       winKey := b.winKey, timestamp := b.timestamp)
  }

  /**
   * The record after `loadData` runs on record `s` with storage `st`: a stored
   * form blob is restored exactly, a stored share blob is read back, and an
   * absent blob leaves its part of `s` as it was.
   */
  function Loaded(s: Submission, st: Storage): (r: Submission)
    ensures st.formData.Some? ==> FormBlobOf(r) == st.formData.value
    ensures st.formData.None? ==> FormBlobOf(r) == FormBlobOf(s)
    ensures st.shareData.None? ==> r.shareData == s.shareData
  {
    var withForm := if st.formData.Some? then WithFormBlob(s, st.formData.value) else s;
    if st.shareData.Some? then withForm.(shareData := ProgressFromBlob(st.shareData.value)) else withForm
  }

  /**
   * `after` is the storage `saveData` leaves when it saves `s` over `before`:
   * both blobs rewritten, and the log upserted only when the record holds a
   * (truthy) key.
   */
  predicate SavedFrom(before: Storage, after: Storage, s: Submission)
    ensures SavedFrom(before, after, s) ==> Loaded(s, after) == s
  {
    && after.formData == Some(FormBlobOf(s))
    && after.shareData.Some? && EncodesProgress(after.shareData.value, s.shareData)
    && after.submissions == (if Truthy(s.winKey) then Some(Upserted(LogOf(before), LogEntryOf(s))) else before.submissions)
    && after.uniqueGroups == before.uniqueGroups
  }

  /** `Array.from(set)`: the elements of the set, each once, in some order. */
  method ArrayFrom(groups: set<string>) returns (a: seq<string>)
    ensures Distinct(a) && SetOf(a) == groups
    ensures |a| == |groups|
  {
    a := [];
    var rest := groups;
    while rest != {}
      invariant rest <= groups
      invariant Distinct(a) && SetOf(a) == groups - rest
      invariant |a| + |rest| == |groups|
      decreases |rest|
    {
      var g :| g in rest;
      assert SetOf(a + [g]) == SetOf(a) + {g};
      a := a + [g];
      rest := rest - {g};
    }
  }

  /**
   * Save then load restores the record exactly, identity, wallet, key, counts,
   * group contents and timestamp, whatever record the loading page started from.
   */
  lemma SaveLoadRoundTrip(before: Storage, after: Storage, s: Submission, start: Submission)
    requires SavedFrom(before, after, s)
    ensures Loaded(start, after) == s
  {
  }

  /** Each missing field of a stored share blob loads as its own default, whatever the other fields hold. */
  lemma MissingShareFieldsDefault(s: Submission, st: Storage)
    requires st.shareData.Some?
    ensures st.shareData.value.totalShares.None? ==> Loaded(s, st).shareData.totalShares == 0
    ensures st.shareData.value.uniqueGroups.None? ==> Loaded(s, st).shareData.uniqueGroups == {}
    ensures st.shareData.value.lastShareTimestamp.None? ==> Loaded(s, st).shareData.lastShareTimestamp == 0
  {
  }

  /** With neither blob stored, loading leaves the record as it was. */
  lemma LoadWithoutBlobsKeepsRecord(s: Submission, st: Storage)
    requires st.formData.None? && st.shareData.None?
    ensures Loaded(s, st) == s
  {
  }

  /** A stored array that repeats a group loads as a set smaller than the array. */
  lemma LoadCollapsesRepeatedGroups(s: Submission, st: Storage, i: nat, j: nat)
    requires st.shareData.Some? && st.shareData.value.uniqueGroups.Some?
    requires var a := st.shareData.value.uniqueGroups.value; i < j < |a| && a[i] == a[j]
    ensures |Loaded(s, st).shareData.uniqueGroups| < |st.shareData.value.uniqueGroups.value|
  {
    var a := st.shareData.value.uniqueGroups.value;
    var rest := a[..j] + a[j + 1..];
    assert SetOf(a) == SetOf(rest) by {
      forall g | g in a ensures g in rest {
        var k :| 0 <= k < |a| && a[k] == g;
        if k < j { assert rest[k] == g; }
        else if k == j { assert rest[i] == g; }
        else { assert rest[k - 1] == g; }
      }
    }
    SetOfSize(rest);
  }

  /** Saving only writes the submissions log when the record holds a key. */
  lemma SaveWithoutKeyLeavesLog(before: Storage, after: Storage, s: Submission)
    requires SavedFrom(before, after, s)
    requires !Truthy(s.winKey)
    ensures after.submissions == before.submissions
  {
  }

  /** Saving the same record twice leaves the same log and form blob as saving it once. */
  lemma SaveTwiceSameLog(before: Storage, middle: Storage, after: Storage, s: Submission)
    requires SavedFrom(before, middle, s) && SavedFrom(middle, after, s)
    ensures after.submissions == middle.submissions
    ensures after.formData == middle.formData
  {
    if Truthy(s.winKey) {
      UpsertIdempotent(LogOf(before), LogEntryOf(s));
    }
  }

  /** The logged group count equals the size of the set the share blob stores. */
  lemma LoggedCountMatchesStoredArray(b: ShareBlob, s: Submission)
    requires EncodesProgress(b, s.shareData)
    ensures LogEntryOf(s).uniqueGroups == |b.uniqueGroups.value|
  {
    DistinctArraySize(b.uniqueGroups.value);
  }

  /** The set of an array's elements is never larger than the array. */
  lemma {:induction false} SetOfSize(a: seq<string>)
    ensures |SetOf(a)| <= |a|
  {
    if a != [] {
      var init := a[..|a| - 1];
      SetOfSize(init);
      assert SetOf(a) == SetOf(init) + {a[|a| - 1]};
    }
  }

  /** A duplicate-free array has as many elements as the set of its elements. */
  lemma {:induction false} DistinctArraySize(a: seq<string>)
    requires Distinct(a)
    ensures |SetOf(a)| == |a|
  {
    if a != [] {
      var init := a[..|a| - 1];
      assert Distinct(init);
      DistinctArraySize(init);
      assert SetOf(a) == SetOf(init) + {a[|a| - 1]};
      assert a[|a| - 1] !in SetOf(init);
    }
  }
}
