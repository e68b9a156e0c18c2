/**
 * The share-progress rules of the giveaway as pure functions: the anti-abuse
 * rate gate, label normalisation, the two independently capped counters, the
 * rejection reasons, the unlock predicate and the two debug increments.
 * The `Session` class in module `Giveaway` performs these steps in place and
 * is proved to agree with them.
 */
module ShareRules {
  import opened Text

  const MaxUniqueGroups := 8
  const MaxTotalShares := 18
  /** Minimum time between two counted shares, in milliseconds. */
  const MinShareTimeMs := 5000

  /** The `shareData` part of a submission. */
  datatype ShareProgress = ShareProgress(totalShares: int, uniqueGroups: set<string>, lastShareTimestamp: int)

  /** What a share attempt reports to the page, in place of the error text it writes. */
  datatype ShareOutcome = RateLimited | Counted | AlreadyMet | DuplicateOrCapped

  datatype ShareResult = ShareResult(progress: ShareProgress, outcome: ShareOutcome)

  /** Both counters within their caps. */
  predicate Bounded(p: ShareProgress) {
    0 <= p.totalShares <= MaxTotalShares && |p.uniqueGroups| <= MaxUniqueGroups
  }

  /**
   * Both requirements met: the condition on which the membership key is
   * unlocked. Once it holds, no label can add a distinct group.
   */
  predicate IsUnlocked(p: ShareProgress)
    ensures IsUnlocked(p) ==> forall group :: !CountsAsUnique(p, group)
  {
    |p.uniqueGroups| >= MaxUniqueGroups && p.totalShares >= MaxTotalShares
  }

  /**
   * The group label as it is tracked for uniqueness: trimmed, then lower-cased.
   * The result has no whitespace at either end and no capital letter.
   */
  function NormalizeGroup(groupName: string): (group: string)
    ensures |group| <= |groupName|
    ensures Unpadded(group)
    ensures forall i :: 0 <= i < |group| ==> !IsUpper(group[i])
  {
    ToLower(Trim(groupName))
  }

  /** Whether an (already normalised) label adds a new distinct group: adding it grows the set by one, within the cap. */
  predicate CountsAsUnique(p: ShareProgress, group: string)
    ensures CountsAsUnique(p, group) ==> |p.uniqueGroups + {group}| == |p.uniqueGroups| + 1 <= MaxUniqueGroups
  {
    group != "" && |p.uniqueGroups| < MaxUniqueGroups && group !in p.uniqueGroups
  }

  /** One share attempt for `groupName` at time `now` (milliseconds). */
  function ShareStep(p: ShareProgress, groupName: string, now: int): (r: ShareResult)
    ensures r.outcome == RateLimited <==> now - p.lastShareTimestamp < MinShareTimeMs
    ensures r.outcome != Counted ==> r.progress == p
    ensures r.outcome == Counted ==> r.progress.lastShareTimestamp == now
    ensures p.totalShares <= r.progress.totalShares && p.uniqueGroups <= r.progress.uniqueGroups
    ensures Bounded(p) ==> Bounded(r.progress)
  {
    if now - p.lastShareTimestamp < MinShareTimeMs then
      ShareResult(p, RateLimited)
    else
      var group := NormalizeGroup(groupName);
      var countedAsUnique := CountsAsUnique(p, group);
      var countedAsTotal := p.totalShares < MaxTotalShares;
      if countedAsUnique || countedAsTotal then
        var groups := if countedAsUnique then p.uniqueGroups + {group} else p.uniqueGroups;
        var total := if countedAsTotal then p.totalShares + 1 else p.totalShares;
        ShareResult(ShareProgress(total, groups, now), Counted)
      else if p.totalShares >= MaxTotalShares && |p.uniqueGroups| >= MaxUniqueGroups then
        ShareResult(p, AlreadyMet)
      else
        ShareResult(p, DuplicateOrCapped)
  }

  /**
   * Once past the rate gate, every attempt below the total cap adds exactly one
   * share, whatever its label: new, a repeat, or empty after trimming.
   */
  lemma TotalCountsEveryAttempt(p: ShareProgress, groupName: string, now: int)
    requires now - p.lastShareTimestamp >= MinShareTimeMs
    ensures var r := ShareStep(p, groupName, now);
      && (p.totalShares < MaxTotalShares ==> r.outcome == Counted && r.progress.totalShares == p.totalShares + 1)
      && (p.totalShares >= MaxTotalShares ==> r.progress.totalShares == p.totalShares)
  {
  }

  /**
   * The distinct-group set gains the normalised label exactly when the label is
   * non-empty, not yet present and the set is below its cap; otherwise it is
   * unchanged.
   */
  lemma GroupsGainOnlyNewLabels(p: ShareProgress, groupName: string, now: int)
    ensures var r := ShareStep(p, groupName, now);
      r.progress.uniqueGroups ==
        if r.outcome != RateLimited && CountsAsUnique(p, NormalizeGroup(groupName))
        then p.uniqueGroups + {NormalizeGroup(groupName)}
        else p.uniqueGroups
  {
  }

  /** The timestamp is committed, and the attempt reported as counted, exactly when a counter moved. */
  lemma CountedIffCounterMoved(p: ShareProgress, groupName: string, now: int)
    ensures var r := ShareStep(p, groupName, now);
      r.outcome == Counted <==>
        (r.progress.totalShares != p.totalShares || r.progress.uniqueGroups != p.uniqueGroups)
  {
  }

  /**
   * An attempt past the rate gate that moves no counter is reported as "already
   * met" precisely when both requirements are met, and as "duplicate or capped"
   * otherwise.
   */
  lemma RejectionReason(p: ShareProgress, groupName: string, now: int)
    requires ShareStep(p, groupName, now).outcome !in {RateLimited, Counted}
    ensures ShareStep(p, groupName, now).outcome == AlreadyMet <==> IsUnlocked(p)
    ensures ShareStep(p, groupName, now).outcome == DuplicateOrCapped <==> !IsUnlocked(p)
  {
  }

  /** A second attempt less than the minimum interval after a counted one is rejected and changes nothing. */
  lemma TooSoonAfterCountIsRejected(p: ShareProgress, first: string, t1: int, second: string, t2: int)
    requires ShareStep(p, first, t1).outcome == Counted
    requires t2 - t1 < MinShareTimeMs
    ensures var q := ShareStep(p, first, t1).progress;
      ShareStep(q, second, t2) == ShareResult(q, RateLimited)
  {
  }

  /** Within the caps, the unlock predicate means both counters sit exactly at their caps. */
  lemma UnlockedMeansAtCaps(p: ShareProgress)
    requires Bounded(p)
    ensures IsUnlocked(p) <==> p.totalShares == MaxTotalShares && |p.uniqueGroups| == MaxUniqueGroups
  {
  }

  /** Once unlocked, a share attempt past the rate gate only reports that the requirements are met. */
  lemma UnlockedAttemptsAreAlreadyMet(p: ShareProgress, groupName: string, now: int)
    requires IsUnlocked(p)
    requires now - p.lastShareTimestamp >= MinShareTimeMs
    ensures ShareStep(p, groupName, now) == ShareResult(p, AlreadyMet)
  {
  }

  /** Two labels that differ only in the case of ASCII letters. */
  predicate SameUpToCase(a: string, b: string) {
    |a| == |b| && forall i :: 0 <= i < |a| ==> LowerChar(a[i]) == LowerChar(b[i])
  }

  lemma {:induction false} TrimStartUpToCase(a: string, b: string)
    requires SameUpToCase(a, b)
    ensures SameUpToCase(TrimStart(a), TrimStart(b))
  {
    if a != [] {
      assert LowerChar(a[0]) == LowerChar(b[0]);
      if IsJsWhitespace(a[0]) || IsJsWhitespace(b[0]) {
        assert a[0] == b[0];
        TrimStartUpToCase(a[1..], b[1..]);
      }
    }
  }

  lemma {:induction false} TrimEndUpToCase(a: string, b: string)
    requires SameUpToCase(a, b)
    ensures SameUpToCase(TrimEnd(a), TrimEnd(b))
  {
    if a != [] {
      var n := |a| - 1;
      assert LowerChar(a[n]) == LowerChar(b[n]);
      if IsJsWhitespace(a[n]) || IsJsWhitespace(b[n]) {
        assert a[n] == b[n];
        TrimEndUpToCase(a[..n], b[..n]);
      }
    }
  }

  /** Labels that differ only in ASCII case track as the same group. */
  lemma CaseIsFolded(a: string, b: string)
    requires SameUpToCase(a, b)
    ensures NormalizeGroup(a) == NormalizeGroup(b)
  {
    TrimStartUpToCase(a, b);
    TrimEndUpToCase(TrimStart(a), TrimStart(b));
  }

  /** Whitespace around a label does not change the group it tracks as. */
  lemma PaddingIsIgnored(pre: string, groupName: string, post: string)
    requires AllWhitespace(pre) && AllWhitespace(post)
    ensures NormalizeGroup(pre + groupName + post) == NormalizeGroup(groupName)
  {
    TrimIgnoresPadding(pre, groupName, post);
  }

  /**
   * A label that, after case and whitespace folding, names a group already
   * counted leaves the distinct-group set unchanged, yet still adds a share
   * while the total is below its cap.
   */
  lemma FoldedRepeatCountsOnlyTowardTotal(p: ShareProgress, member: string, pre: string, groupName: string, post: string, now: int)
    requires member in p.uniqueGroups && NormalizeGroup(member) == member
    requires SameUpToCase(groupName, member)
    requires AllWhitespace(pre) && AllWhitespace(post)
    requires now - p.lastShareTimestamp >= MinShareTimeMs
    ensures var r := ShareStep(p, pre + groupName + post, now);
      && r.progress.uniqueGroups == p.uniqueGroups
      && r.progress.totalShares == (if p.totalShares < MaxTotalShares then p.totalShares + 1 else p.totalShares)
  {
    var padded := pre + groupName + post;
    PaddingIsIgnored(pre, groupName, post);
    CaseIsFolded(groupName, member);
    assert NormalizeGroup(padded) == member;
    assert !CountsAsUnique(p, NormalizeGroup(padded));
    GroupsGainOnlyNewLabels(p, padded, now);
    TotalCountsEveryAttempt(p, padded, now);
  }

  /** One attempt of a sequence of share attempts. */
  datatype Attempt = Attempt(groupName: string, now: int)

  /**
   * The progress after a sequence of share attempts, in order. The committed
   * timestamp is always the starting one or the time of one of the attempts.
   */
  function RunShares(p: ShareProgress, attempts: seq<Attempt>): (q: ShareProgress)
    ensures q.lastShareTimestamp == p.lastShareTimestamp
      || exists k :: 0 <= k < |attempts| && attempts[k].now == q.lastShareTimestamp
    decreases |attempts|
  {
    if attempts == [] then p
    else
      var earlier := attempts[..|attempts| - 1];
      var last := attempts[|attempts| - 1];
      var before := RunShares(p, earlier);
      var r := ShareStep(before, last.groupName, last.now).progress;
      assert r.lastShareTimestamp != p.lastShareTimestamp ==>
          exists k :: 0 <= k < |attempts| && attempts[k].now == r.lastShareTimestamp by {
        if r.lastShareTimestamp == last.now {
          assert attempts[|attempts| - 1].now == r.lastShareTimestamp;
        } else if r.lastShareTimestamp != p.lastShareTimestamp {
          var k :| 0 <= k < |earlier| && earlier[k].now == before.lastShareTimestamp;
          assert attempts[k].now == r.lastShareTimestamp;
        }
      }
      r
  }

  /** Every tracked group is a non-empty label already in normal form. */
  predicate NormalGroups(p: ShareProgress) {
    forall g :: g in p.uniqueGroups ==> g != "" && NormalizeGroup(g) == g
  }

  /** A share attempt only ever adds a normalised, non-empty label. */
  lemma ShareStepKeepsNormalGroups(p: ShareProgress, groupName: string, now: int)
    requires NormalGroups(p)
    ensures NormalGroups(ShareStep(p, groupName, now).progress)
  {
    NormalLabel(NormalizeGroup(groupName));
    GroupsGainOnlyNewLabels(p, groupName, now);
  }

  /** Every group a run of share attempts tracks is a normalised, non-empty label. */
  lemma {:induction false} RunSharesKeepsNormalGroups(p: ShareProgress, attempts: seq<Attempt>)
    requires NormalGroups(p)
    ensures NormalGroups(RunShares(p, attempts))
    decreases |attempts|
  {
    if attempts != [] {
      var earlier := attempts[..|attempts| - 1];
      var last := attempts[|attempts| - 1];
      RunSharesKeepsNormalGroups(p, earlier);
      ShareStepKeepsNormalGroups(RunShares(p, earlier), last.groupName, last.now);
    }
  }

  /** No sequence of share attempts takes either counter past its cap, and neither counter ever decreases. */
  lemma {:induction false} RunSharesStaysBounded(p: ShareProgress, attempts: seq<Attempt>)
    requires Bounded(p)
    ensures Bounded(RunShares(p, attempts))
    ensures p.totalShares <= RunShares(p, attempts).totalShares
    ensures p.uniqueGroups <= RunShares(p, attempts).uniqueGroups
    decreases |attempts|
  {
    if attempts != [] {
      RunSharesStaysBounded(p, attempts[..|attempts| - 1]);
    }
  }

  /** The debug "share" button: one more share below the cap, no rate gate, no group. */
  function DebugShareStep(p: ShareProgress): (r: ShareProgress)
    ensures Bounded(p) ==> Bounded(r)
    ensures r.uniqueGroups == p.uniqueGroups && r.lastShareTimestamp == p.lastShareTimestamp
  {
    if p.totalShares < MaxTotalShares then p.(totalShares := p.totalShares + 1) else p
  }

  /** The fixed start of every debug group label. */
  const DebugGroupPrefix := "debug-group-"

  lemma DebugGroupPrefixHasNoCapitals()
    ensures |DebugGroupPrefix| == 12
    ensures forall i :: 0 <= i < |DebugGroupPrefix| ==> !IsUpper(DebugGroupPrefix[i])
  {
  }

  /** A label with no padding and no capital letter is already in normal form. */
  lemma NormalLabel(name: string)
    requires Unpadded(name)
    requires forall i :: 0 <= i < |name| ==> !IsUpper(name[i])
    ensures NormalizeGroup(name) == name
  {
    TrimPadded([], name, []);
    assert [] + name + [] == name;
  }

  /**
   * The label the debug "group" button adds: `debug-group-` followed by the
   * clock reading. It is already in normal form, so a real share naming the
   * same label tracks as the same group.
   */
  function DebugGroupLabel(now: int): (name: string)
    ensures NormalizeGroup(name) == name
  {
    var digits := NumberString(now);
    var groupName := DebugGroupPrefix + digits;
    DebugGroupPrefixHasNoCapitals();
    assert Unpadded(groupName) by {
      assert groupName[|groupName| - 1] == digits[|digits| - 1];
    }
    assert forall i :: 0 <= i < |groupName| ==> !IsUpper(groupName[i]) by {
      forall i | 0 <= i < |groupName| ensures !IsUpper(groupName[i]) {
        if i >= 12 {
          assert groupName[i] == digits[i - 12];
        } else {
          assert groupName[i] == DebugGroupPrefix[i];
        }
      }
    }
    NormalLabel(groupName);
    groupName
  }

  /** Distinct clock readings give distinct debug labels, so each press names a new group. */
  lemma DebugGroupLabelInjective(m: int, n: int)
    requires DebugGroupLabel(m) == DebugGroupLabel(n)
    ensures m == n
  {
    var name := DebugGroupLabel(m);
    assert name == DebugGroupPrefix + NumberString(m);
    assert name == DebugGroupPrefix + NumberString(n);
    assert NumberString(m) == name[12..];
    assert NumberString(n) == name[12..];
    NumberStringValue(m);
    NumberStringValue(n);
  }

  /** The debug "group" button: one more distinct group below the cap, no rate gate, no normalisation. */
  function DebugGroupStep(p: ShareProgress, now: int): (r: ShareProgress)
    ensures Bounded(p) ==> Bounded(r)
    ensures r.totalShares == p.totalShares && r.lastShareTimestamp == p.lastShareTimestamp
  {
    if |p.uniqueGroups| < MaxUniqueGroups then p.(uniqueGroups := p.uniqueGroups + {DebugGroupLabel(now)}) else p
  }

  /**
   * The debug increments ignore the rate gate: below the cap they count even
   * when the last counted share was moments ago.
   */
  lemma DebugBypassesRateGate(p: ShareProgress, now: int)
    requires now - p.lastShareTimestamp < MinShareTimeMs
    requires p.totalShares < MaxTotalShares
    requires |p.uniqueGroups| < MaxUniqueGroups
    ensures ShareStep(p, DebugGroupLabel(now), now).outcome == RateLimited
    ensures DebugShareStep(p).totalShares == p.totalShares + 1
    ensures DebugGroupLabel(now) in DebugGroupStep(p, now).uniqueGroups
  {
  }

  /**
   * Once the rate gate is open, each debug button moves its counter exactly as
   * a real share would: the share button as the total of any attempt, the
   * group button as an attempt naming the debug label.
   */
  lemma DebugMatchesRealShare(p: ShareProgress, now: int, groupName: string, t: int)
    requires t - p.lastShareTimestamp >= MinShareTimeMs
    ensures DebugShareStep(p).totalShares == ShareStep(p, groupName, t).progress.totalShares
    ensures DebugGroupStep(p, now).uniqueGroups == ShareStep(p, DebugGroupLabel(now), t).progress.uniqueGroups
  {
    GroupsGainOnlyNewLabels(p, DebugGroupLabel(now), t);
    TotalCountsEveryAttempt(p, groupName, t);
  }

  /** The debug group button, too, only adds a normalised, non-empty label. */
  lemma DebugGroupStepKeepsNormalGroups(p: ShareProgress, now: int)
    requires NormalGroups(p)
    ensures NormalGroups(DebugGroupStep(p, now))
  {
    assert DebugGroupLabel(now) == DebugGroupPrefix + NumberString(now);
  }
}
