/**
 * The permanent submissions list kept for the admin view: summarised entries
 * keyed by submission id, upserted (replaced in place, or appended) whenever
 * a submission holding a key is saved.
 */
module SubmissionLog {
  import opened Wrappers

  /** One summarised submission; the distinct-group set is recorded only by its size. */
  datatype LogEntry = LogEntry(
    id: Option<string>,
    playerId: Option<string>,
    membership: Option<string>,
    winKey: Option<string>,
    totalShares: int,
    uniqueGroups: nat,
    timestamp: int)

  /** `findIndex` by id: the first index whose entry carries `id`, or -1 when none does. */
  function IndexOfId(log: seq<LogEntry>, id: Option<string>): (k: int)
    ensures -1 <= k < |log|
    ensures k == -1 <==> forall i :: 0 <= i < |log| ==> log[i].id != id
    ensures k >= 0 ==> log[k].id == id && forall i :: 0 <= i < k ==> log[i].id != id
  {
    if log == [] then -1
    else if log[0].id == id then 0
    else
      var k := IndexOfId(log[1..], id);
      if k == -1 then -1 else k + 1
  }

  /**
   * The log after `updateSubmissionLog` records `entry`: the entry is in it,
   * the log grows by at most one, and every entry for another id survives.
   */
  function Upserted(log: seq<LogEntry>, entry: LogEntry): (r: seq<LogEntry>)
    ensures entry in r
    ensures |log| <= |r| <= |log| + 1
    ensures forall e :: e in log && e.id != entry.id ==> e in r
  {
    var existingIndex := IndexOfId(log, entry.id);
    if existingIndex > -1 then
      var r := log[existingIndex := entry];
      assert r[existingIndex] == entry;
      assert forall i :: 0 <= i < |log| && i != existingIndex ==> r[i] == log[i];
      r
    else
      var r := log + [entry];
      assert r[|log|] == entry;
      assert forall i :: 0 <= i < |log| ==> r[i] == log[i];
      r
  }

  /**
   * An id already in the log has its first entry replaced in place and the
   * length kept; an id not in the log gets exactly one new entry at the end.
   * Every other entry is untouched.
   */
  lemma UpsertReplacesOrAppends(log: seq<LogEntry>, entry: LogEntry)
    ensures var r := Upserted(log, entry); var k := IndexOfId(log, entry.id);
      && (k >= 0 ==> |r| == |log| && r[k] == entry)
      && (k == -1 ==> |r| == |log| + 1 && r[|log|] == entry)
      && (forall i :: 0 <= i < |log| && i != k ==> r[i] == log[i])
  {
  }

  /** After an upsert, looking the id up finds the new entry. */
  lemma UpsertIsFound(log: seq<LogEntry>, entry: LogEntry)
    ensures var r := Upserted(log, entry);
      IndexOfId(r, entry.id) == (if IndexOfId(log, entry.id) >= 0 then IndexOfId(log, entry.id) else |log|)
  {
    var r := Upserted(log, entry);
    var k := IndexOfId(log, entry.id);
    var want := if k >= 0 then k else |log|;
    assert r[want] == entry;
  }

  /** A later upsert with the same id overrides an earlier one. */
  lemma UpsertLastWriteWins(log: seq<LogEntry>, first: LogEntry, second: LogEntry)
    requires first.id == second.id
    ensures Upserted(Upserted(log, first), second) == Upserted(log, second)
  {
    UpsertIsFound(log, first);
  }

  /** Upserting the same entry twice gives the same log as upserting it once. */
  lemma UpsertIdempotent(log: seq<LogEntry>, entry: LogEntry)
    ensures Upserted(Upserted(log, entry), entry) == Upserted(log, entry)
  {
    UpsertLastWriteWins(log, entry, entry);
  }

  /** No two entries share an id. */
  predicate UniqueIds(log: seq<LogEntry>) {
    forall i, j :: 0 <= i < j < |log| ==> log[i].id != log[j].id
  }

  /** Upserting keeps the log free of duplicate ids. */
  lemma UpsertKeepsIdsUnique(log: seq<LogEntry>, entry: LogEntry)
    requires UniqueIds(log)
    ensures UniqueIds(Upserted(log, entry))
  {
    var r := Upserted(log, entry);
    var k := IndexOfId(log, entry.id);
    forall i, j | 0 <= i < j < |r| ensures r[i].id != r[j].id {
      if k >= 0 {
        if i != k && j != k {
          assert r[i] == log[i] && r[j] == log[j];
        } else if i == k {
          assert r[j] == log[j] && log[k].id == entry.id;
        } else {
          assert r[i] == log[i] && log[k].id == entry.id;
        }
      } else {
        if j == |log| {
          assert r[i] == log[i];
        } else {
          assert r[i] == log[i] && r[j] == log[j];
        }
      }
    }
  }
}
