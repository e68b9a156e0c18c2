/**
 * The page's mutable state: the in-memory submission record and the local
 * storage it is saved to, as one object. Its methods perform the share,
 * unlock, save, load and log steps in place, field by field, and each is
 * proved to agree with the pure rules of `ShareRules`, `KeyGen`,
 * `SubmissionLog` and `Store`.
 */
module Giveaway {
  import opened Wrappers
  import opened Text
  import opened ShareRules
  import opened KeyGen
  import opened SubmissionLog
  import opened Store

  class Session {
    var id: Option<string>
    var playerId: Option<string>
    var playerName: Option<string>
    var region: Option<string>
    var membership: Option<string>
    var walletAmount: real
    var currency: string
    // the three fields of the record's `shareData` object
    var totalShares: int
    var uniqueGroups: set<string>
    var lastShareTimestamp: int
    var winKey: Option<string>
    var timestamp: int
    /** The browser's local storage. */
    var storage: Storage

    function Progress(): ShareProgress
      reads this
    {
      ShareProgress(totalShares, uniqueGroups, lastShareTimestamp)
    }

    /** The record as a value. */
    function Current(): Submission
      reads this
    {
      Submission(id, playerId, playerName, region, membership, walletAmount, currency, Progress(), winKey, timestamp)
    }

    /** The record's initial value, at clock reading `now`, over the given storage. */
    constructor (storage: Storage, now: int)
      ensures Current() == InitialSubmission(now)
      ensures this.storage == storage
    {
      id, playerId, playerName, region, membership := None, None, None, None, None;
      walletAmount, currency := 0.0, "LKR";
      totalShares, uniqueGroups, lastShareTimestamp := 0, {}, 0;
      winKey, timestamp := None, now;
      this.storage := storage;
    }

    /** `loadData`: each blob that is present overwrites its part of the record. */
    method LoadData()
      modifies this
      ensures Current() == Loaded(old(Current()), old(storage))
      ensures storage == old(storage)
    {
      ghost var start := Current();
      if storage.formData.Some? {
        var loadedFormData := storage.formData.value;
        id := loadedFormData.id;
        playerId := loadedFormData.playerId;
        playerName := loadedFormData.playerName;
        region := loadedFormData.region;
        membership := loadedFormData.membership;
        walletAmount := loadedFormData.walletAmount;
        currency := loadedFormData.currency;
        winKey := loadedFormData.winKey;
        timestamp := loadedFormData.timestamp;
        assert Current() == WithFormBlob(start, loadedFormData);
      }
      ghost var withForm := Current();
      if storage.shareData.Some? {
        var loadedShareData := storage.shareData.value;
        totalShares := loadedShareData.totalShares.GetOr(0);
        uniqueGroups := SetOf(loadedShareData.uniqueGroups.GetOr([]));
        lastShareTimestamp := loadedShareData.lastShareTimestamp.GetOr(0);
        assert Current() == withForm.(shareData := ProgressFromBlob(loadedShareData));
      }
    }

    /** `saveData`: both blobs written, then the log upserted if the record holds a key. */
    method SaveData()
      modifies this`storage
      ensures SavedFrom(old(storage), storage, Current())
    {
      storage := storage.(formData := Some(FormBlobOf(Current())));
      var groups := ArrayFrom(uniqueGroups);
      storage := storage.(shareData := Some(ShareBlob(Some(totalShares), Some(groups), Some(lastShareTimestamp))));
      if Truthy(winKey) {
        UpdateSubmissionLog();
      }
    }

    /** `updateSubmissionLog`: replace the entry with this record's id, or append one. */
    method UpdateSubmissionLog()
      modifies this`storage
      ensures storage == old(storage).(submissions := Some(Upserted(LogOf(old(storage)), LogEntryOf(Current()))))
    {
      var submissions := LogOf(storage);
      var existingIndex := IndexOfId(submissions, id);
      var logEntry := LogEntryOf(Current());
      if existingIndex > -1 {
        submissions := submissions[existingIndex := logEntry];
      } else {
        submissions := submissions + [logEntry];
      }
      storage := storage.(submissions := Some(submissions));
    }

    /**
     * `unlockMembershipKey`: generate and save a key only if none is held,
     * then record the submission in the log in either case.
     */
    method UnlockMembershipKey(randomBytes: seq<byte>)
      requires |randomBytes| == KeyBytes
      modifies this
      ensures winKey == KeyAfterUnlock(old(winKey), randomBytes)
      ensures Current() == old(Current()).(winKey := winKey)
      ensures !Truthy(old(winKey)) ==> SavedFrom(old(storage), storage, Current())
      ensures Truthy(old(winKey)) ==>
        storage == old(storage).(submissions := Some(Upserted(LogOf(old(storage)), LogEntryOf(Current()))))
    {
      if !Truthy(winKey) {
        var key := GenerateKey(randomBytes);
        winKey := Some(key);
        SaveData();
        UpdateSubmissionLog();
        UpsertIdempotent(LogOf(old(storage)), LogEntryOf(Current()));
      } else {
        UpdateSubmissionLog();
      }
    }

    /** The unlock check at the end of `updateProgressUI`. */
    method UpdateProgress(randomBytes: seq<byte>)
      requires |randomBytes| == KeyBytes
      modifies this
      ensures Current() == old(Current()).(winKey := winKey)
      ensures winKey == if IsUnlocked(Progress()) then KeyAfterUnlock(old(winKey), randomBytes) else old(winKey)
      ensures !IsUnlocked(Progress()) ==> storage == old(storage)
      ensures IsUnlocked(Progress()) && !Truthy(old(winKey)) ==> SavedFrom(old(storage), storage, Current())
      ensures IsUnlocked(Progress()) && Truthy(old(winKey)) ==>
        storage == old(storage).(submissions := Some(Upserted(LogOf(old(storage)), LogEntryOf(Current()))))
    {
      if |uniqueGroups| >= MaxUniqueGroups && totalShares >= MaxTotalShares {
        UnlockMembershipKey(randomBytes);
      }
    }

    /**
     * Saving and then running the unlock check leaves storage as one save of
     * the final record: when a key was held already, the second log upsert
     * repeats the first.
     */
    method SaveAndUpdateProgress(randomBytes: seq<byte>)
      requires |randomBytes| == KeyBytes
      modifies this
      ensures Current() == old(Current()).(winKey := winKey)
      ensures winKey == if IsUnlocked(Progress()) then KeyAfterUnlock(old(winKey), randomBytes) else old(winKey)
      ensures SavedFrom(old(storage), storage, Current())
    {
      SaveData();
      UpdateProgress(randomBytes);
      if IsUnlocked(Progress()) && Truthy(old(winKey)) {
        UpsertIdempotent(LogOf(old(storage)), LogEntryOf(Current()));
      }
    }

    /**
     * The two counters of `incrementShare`, each moved on its own: the group set
     * gains the normalised label if it is new, non-empty and below the cap, and
     * the total gains one below its cap.
     */
    method CountShare(normalizedGroup: string) returns (countedAsUnique: bool, countedAsTotal: bool)
      modifies this`uniqueGroups, this`totalShares
      ensures countedAsUnique == CountsAsUnique(old(Progress()), normalizedGroup)
      ensures countedAsTotal == (old(totalShares) < MaxTotalShares)
      ensures uniqueGroups == if countedAsUnique then old(uniqueGroups) + {normalizedGroup} else old(uniqueGroups)
      ensures totalShares == if countedAsTotal then old(totalShares) + 1 else old(totalShares)
    {
      countedAsUnique := false;
      if normalizedGroup != "" && |uniqueGroups| < MaxUniqueGroups {
        if normalizedGroup !in uniqueGroups {
          uniqueGroups := uniqueGroups + {normalizedGroup};
          countedAsUnique := true;
        }
      }

      countedAsTotal := false;
      if totalShares < MaxTotalShares {
        totalShares := totalShares + 1;
        countedAsTotal := true;
      }
    }

    /** A counted share: the attempt's time is committed, then the record is saved and the unlock check runs. */
    method CommitShare(now: int, randomBytes: seq<byte>)
      requires |randomBytes| == KeyBytes
      modifies this
      ensures Progress() == old(Progress()).(lastShareTimestamp := now)
      ensures Current() == old(Current()).(shareData := Progress(), winKey := winKey)
      ensures winKey == if IsUnlocked(Progress()) then KeyAfterUnlock(old(winKey), randomBytes) else old(winKey)
      ensures SavedFrom(old(storage), storage, Current())
    {
      lastShareTimestamp := now;
      SaveAndUpdateProgress(randomBytes);
    }

    /**
     * `incrementShare`: the rate gate, the two independently capped counters,
     * the commit of the timestamp, the save, the unlock check, and the
     * rejection reason when nothing was counted.
     */
    method IncrementShare(groupName: string, now: int, randomBytes: seq<byte>) returns (outcome: ShareOutcome)
      requires |randomBytes| == KeyBytes
      modifies this
      ensures ShareResult(Progress(), outcome) == ShareStep(old(Progress()), groupName, now)
      ensures Current() == old(Current()).(shareData := Progress(), winKey := winKey)
      ensures outcome != Counted ==> winKey == old(winKey) && storage == old(storage)
      ensures outcome == Counted ==>
        winKey == if IsUnlocked(Progress()) then KeyAfterUnlock(old(winKey), randomBytes) else old(winKey)
      ensures outcome == Counted ==> SavedFrom(old(storage), storage, Current())
    {
      ghost var step := ShareStep(Progress(), groupName, now);
      if now - lastShareTimestamp < MinShareTimeMs {
        assert step == ShareResult(Progress(), RateLimited);
        return RateLimited;
      }
      ghost var before := Progress();
      var normalizedGroup := NormalizeGroup(groupName);
      var countedAsUnique, countedAsTotal := CountShare(normalizedGroup);

      if countedAsTotal || countedAsUnique {
        assert step == ShareResult(Progress().(lastShareTimestamp := now), Counted);
        CommitShare(now, randomBytes);
        outcome := Counted;
        assert ShareResult(Progress(), outcome) == step;
      } else {
        assert Progress() == before;
        if totalShares >= MaxTotalShares && |uniqueGroups| >= MaxUniqueGroups {
          outcome := AlreadyMet;
        } else {
          outcome := DuplicateOrCapped;
        }
        assert step == ShareResult(before, outcome);
        assert Current() == old(Current());
      }
    }

    /** The debug "share" button: one more share below the cap, with no rate gate and no group. */
    method DebugShare(randomBytes: seq<byte>)
      requires |randomBytes| == KeyBytes
      modifies this
      ensures Progress() == DebugShareStep(old(Progress()))
      ensures Current() == old(Current()).(shareData := Progress(), winKey := winKey)
      ensures old(totalShares) >= MaxTotalShares ==> winKey == old(winKey) && storage == old(storage)
      ensures old(totalShares) < MaxTotalShares ==>
        && winKey == (if IsUnlocked(Progress()) then KeyAfterUnlock(old(winKey), randomBytes) else old(winKey))
        && SavedFrom(old(storage), storage, Current())
    {
      if totalShares < MaxTotalShares {
        totalShares := totalShares + 1;
        SaveAndUpdateProgress(randomBytes);
      }
    }

    /** The debug "group" button: adds `debug-group-<now>` below the cap, unnormalised and with no rate gate. */
    method DebugGroup(now: int, randomBytes: seq<byte>)
      requires |randomBytes| == KeyBytes
      modifies this
      ensures Progress() == DebugGroupStep(old(Progress()), now)
      ensures Current() == old(Current()).(shareData := Progress(), winKey := winKey)
      ensures |old(uniqueGroups)| >= MaxUniqueGroups ==> winKey == old(winKey) && storage == old(storage)
      ensures |old(uniqueGroups)| < MaxUniqueGroups ==>
        && winKey == (if IsUnlocked(Progress()) then KeyAfterUnlock(old(winKey), randomBytes) else old(winKey))
        && SavedFrom(old(storage), storage, Current())
    {
      if |uniqueGroups| < MaxUniqueGroups {
        uniqueGroups := uniqueGroups + {DebugGroupLabel(now)};
        SaveAndUpdateProgress(randomBytes);
      }
    }
  }

  /**
   * A reload: the record is saved, a new page starts from the initial record
   * over the same storage and loads it, and ends up with the saved record.
   */
  method Reload(page: Session, now: int) returns (next: Session)
    modifies page`storage
    ensures next.Current() == page.Current()
    ensures next.storage == page.storage
  {
    page.SaveData();
    next := new Session(page.storage, now);
    next.LoadData();
    SaveLoadRoundTrip(old(page.storage), page.storage, page.Current(), InitialSubmission(now));
  }
}
