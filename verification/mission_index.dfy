/** The bounded index of missions that the terminal interface keeps. */
module MissionIndex {
  import opened Seqs
  import opened Sorting
  import opened Text
  import opened LockedStore

  const MAX_RECORDS: nat := 500

  /** body is everything but the run id and the time, as it is after redaction and bounding. */
  datatype Record = Record(runId: string, created: int, body: string)

  /** What reading the file gives; an empty file has no records. */
  datatype Content = Missing | Corrupt | Records(records: seq<Record>)

  predicate Earlier(a: Record, b: Record) {
    a.created < b.created
  }

  /** The record takes the place of the first one with its run id, or goes to the end. */
  function Upsert(s: seq<Record>, r: Record): (t: seq<Record>)
    ensures |s| <= |t| <= |s| + 1
  {
    if |s| == 0 then [r]
    else if s[0].runId == r.runId then [r] + s[1..]
    else [s[0]] + Upsert(s[1..], r)
  }

  function Saved(s: seq<Record>, r: Record): seq<Record> {
    Last(Sort(Upsert(s, r), Earlier), MAX_RECORDS)
  }

  function Stored(c: Content): seq<Record>
    requires !c.Corrupt?
  {
    if c.Missing? then [] else c.records
  }

  /** A save in which every call to the system succeeds; the time of the save plays no part. */
  function Applied(c: Content, r: Record, now: int): Content {
    if Trim(r.runId) == "" || c.Corrupt? then c else Records(Saved(Stored(c), r))
  }

  // ------------------------------------------------------------ the object

  class Index {
    var file: Content

    constructor ()
      ensures file == Missing
    {
      file := Missing;
    }

    /** lands says whether the new file reaches its rename. */
    method Save(record: Record, lands: bool) returns (ok: bool)
      modifies this
      ensures ok <==> Trim(record.runId) != "" && !old(file).Corrupt? && lands
      ensures file == if ok then Applied(old(file), record, 0) else old(file)
    {
      hide Trim, Sort, Last, Upsert;
      if Trim(record.runId) == "" || file.Corrupt? {
        return false;
      }
      var records := Stored(file);
      records := Place(records, record);
      records := Sort(records, Earlier);
      records := Trimmed(records);
      ok := lands;
      if lands {
        file := Records(records);
      }
    }
  }

  method Place(before: seq<Record>, record: Record) returns (records: seq<Record>)
    ensures records == Upsert(before, record)
  {
    records := before;
    var updated := false;
    for index := 0 to |records|
      invariant records == before && !updated
      invariant Upsert(before, record) == before[..index] + Upsert(before[index..], record)
    {
      assert before[index..][1..] == before[index + 1..];
      if records[index].runId == record.runId {
        records := records[index := record];
        updated := true;
        break;
      }
    }
    if !updated {
      records := records + [record];
    }
  }

  method Trimmed(records: seq<Record>) returns (kept: seq<Record>)
    ensures kept == Last(records, MAX_RECORDS)
  {
    kept := records;
    if |kept| > MAX_RECORDS {
      kept := kept[|kept| - MAX_RECORDS..];
    }
  }

  // ------------------------------------------------------------ what a save keeps

  ghost predicate Unique(s: seq<Record>) {
    forall i, j :: 0 <= i < j < |s| ==> s[i].runId != s[j].runId
  }

  ghost predicate WellFormed(s: seq<Record>) {
    Unique(s) && Sorted(s, Earlier) && |s| <= 500
  }

  ghost predicate Has(s: seq<Record>, runId: string) {
    exists i :: 0 <= i < |s| && s[i].runId == runId
  }

  lemma {:induction false} UpsertNew(s: seq<Record>, r: Record)
    requires !Has(s, r.runId)
    ensures Upsert(s, r) == s + [r]
  {
    if |s| > 0 {
      assert forall i :: 0 <= i < |s[1..]| ==> s[1..][i] == s[i + 1];
      UpsertNew(s[1..], r);
    }
  }

  lemma {:induction false} UpsertKnown(s: seq<Record>, r: Record) returns (k: nat)
    requires Has(s, r.runId)
    ensures k < |s| && s[k].runId == r.runId && Upsert(s, r) == s[k := r]
  {
    if s[0].runId == r.runId {
      k := 0;
    } else {
      var i :| 0 <= i < |s| && s[i].runId == r.runId;
      assert s[1..][i - 1].runId == r.runId;
      var j := UpsertKnown(s[1..], r);
      k := j + 1;
      assert [s[0]] + s[1..][j := r] == s[k := r];
    }
  }

  lemma UpsertIsUnique(s: seq<Record>, r: Record)
    requires Unique(s)
    ensures Unique(Upsert(s, r)) && r in Upsert(s, r)
  {
    if Has(s, r.runId) {
      var k := UpsertKnown(s, r);
      assert Upsert(s, r)[k] == r;
    } else {
      UpsertNew(s, r);
      assert Upsert(s, r)[|s|] == r;
    }
  }

  lemma {:induction false} InsertIsUnique(s: seq<Record>, r: Record)
    requires Unique(s) && !Has(s, r.runId)
    ensures Unique(Insert(s, r, Earlier))
  {
    var k := InsertPlaces(s, r, Earlier);
  }

  lemma {:induction false} SortIsUnique(s: seq<Record>)
    requires Unique(s)
    ensures Unique(Sort(s, Earlier))
  {
    if |s| > 0 {
      var front, last := s[..|s| - 1], s[|s| - 1];
      SortIsUnique(front);
      SortHas(front, last.runId);
      InsertIsUnique(Sort(front, Earlier), last);
    }
  }

  lemma SortHas(s: seq<Record>, runId: string)
    ensures Has(Sort(s, Earlier), runId) <==> Has(s, runId)
  {
    SortPermutes(s, Earlier);
    SameMembers(s, Sort(s, Earlier), runId);
    SameMembers(Sort(s, Earlier), s, runId);
  }

  lemma SameMembers(a: seq<Record>, b: seq<Record>, runId: string)
    requires multiset(a) == multiset(b)
    ensures Has(a, runId) ==> Has(b, runId)
  {
    if Has(a, runId) {
      var i :| 0 <= i < |a| && a[i].runId == runId;
      assert a[i] in multiset(b);
      var j :| 0 <= j < |b| && b[j] == a[i];
    }
  }

  /** Run ids stay unique, records stay in time order, and there are never more than the bound. */
  lemma SaveKeepsWellFormed(s: seq<Record>, r: Record)
    requires WellFormed(s)
    ensures WellFormed(Saved(s, r))
  {
    UpsertIsUnique(s, r);
    SortIsUnique(Upsert(s, r));
    SortSorts(Upsert(s, r), Earlier);
  }

  ghost predicate LostOnly(t: seq<Record>, all: seq<Record>, gone: Record) {
    && multiset(t) + multiset{gone} == multiset(all)
    && forall i :: 0 <= i < |t| ==> gone.created <= t[i].created
  }

  /** A save leaves what was there with the record put in, less at most one record, which is an oldest one. */
  lemma SaveDropsOnlyAnOldest(s: seq<Record>, r: Record)
    requires WellFormed(s)
    ensures var t := Saved(s, r);
            || multiset(t) == multiset(Upsert(s, r))
            || (|s| == MAX_RECORDS && !Has(s, r.runId)
                && exists gone: Record :: LostOnly(t, s + [r], gone))
  {
    hide Sort, Upsert, Unique, Sorted;
    var u := Sort(Upsert(s, r), Earlier);
    SortPermutes(Upsert(s, r), Earlier);
    if |u| > MAX_RECORDS {
      OverflowIsNew(s, r);
      FirstIsOldest(Upsert(s, r));
      assert u == [u[0]] + Saved(s, r);
      assert multiset(u) == multiset{u[0]} + multiset(Saved(s, r));
      assert LostOnly(Saved(s, r), s + [r], u[0]);
    }
  }

  lemma OverflowIsNew(s: seq<Record>, r: Record)
    requires |s| <= MAX_RECORDS < |Upsert(s, r)|
    ensures !Has(s, r.runId) && Upsert(s, r) == s + [r] && |s| == MAX_RECORDS
  {
    if Has(s, r.runId) {
      var k := UpsertKnown(s, r);
      assert false;
    }
    UpsertNew(s, r);
  }

  lemma FirstIsOldest(s: seq<Record>)
    ensures var u := Sort(s, Earlier); forall i :: 0 <= i < |u| ==> u[0].created <= u[i].created
  {
    SortSorts(s, Earlier);
  }

  lemma KnownSaveIsRepeatable(t: seq<Record>, r: Record)
    requires WellFormed(t) && r in t
    ensures Saved(t, r) == t
  {
    var i :| 0 <= i < |t| && t[i] == r;
    var k := UpsertKnown(t, r);
    assert k == i;
    assert t[k := r] == t;
    SortOfSorted(t, Earlier);
  }

  lemma SortOneMore(s: seq<Record>, r: Record)
    requires Sorted(s, Earlier)
    ensures Sort(s + [r], Earlier) == Insert(s, r, Earlier)
  {
    assert (s + [r])[..|s|] == s;
    SortOfSorted(s, Earlier);
  }

  /** Saving the same record again changes nothing, even when it was at once too old to be kept. */
  lemma SaveIsIdempotent(s: seq<Record>, r: Record)
    requires WellFormed(s)
    ensures Saved(Saved(s, r), r) == Saved(s, r)
  {
    hide Sort, Insert, Upsert, Unique;
    var t, u := Saved(s, r), Sort(Upsert(s, r), Earlier);
    SaveKeepsWellFormed(s, r);
    if |u| <= MAX_RECORDS {
      UpsertIsUnique(s, r);
      SortPermutes(Upsert(s, r), Earlier);
      assert r in multiset(u);
      KnownSaveIsRepeatable(t, r);
    } else {
      OverflowIsNew(s, r);
      SortOneMore(s, r);
      var k := InsertPlaces(s, r, Earlier);
      if k > 0 {
        assert t[k - 1] == r;
        KnownSaveIsRepeatable(t, r);
      } else {
        assert t == s;
      }
    }
  }

  // ------------------------------------------------------------ whole runs

  function SavedAll(saves: seq<Record>): seq<Record> {
    if |saves| == 0 then [] else Saved(SavedAll(saves[..|saves| - 1]), saves[|saves| - 1])
  }

  lemma {:induction false} SavedRecordsWereSaved(saves: seq<Record>, runId: string)
    requires Has(Last(Sort(saves, Earlier), MAX_RECORDS), runId)
    ensures Has(saves, runId)
  {
    var all := Sort(saves, Earlier);
    var i :| 0 <= i < |Last(all, MAX_RECORDS)| && Last(all, MAX_RECORDS)[i].runId == runId;
    assert Last(all, MAX_RECORDS)[i] in all;
    SortHas(saves, runId);
  }

  /** After saves of pairwise distinct runs the index is the last records of all ever saved, in stable time order. */
  lemma {:induction false} IndexIsTheLatest(saves: seq<Record>)
    requires Unique(saves)
    ensures SavedAll(saves) == Last(Sort(saves, Earlier), 500)
  {
    if |saves| > 0 {
      var before, r := saves[..|saves| - 1], saves[|saves| - 1];
      IndexIsTheLatest(before);
      var s, all := SavedAll(before), Sort(before, Earlier);
      if Has(s, r.runId) {
        SavedRecordsWereSaved(before, r.runId);
      }
      UpsertNew(s, r);
      SortSorts(before, Earlier);
      SortOneMore(s, r);
      LastOfInsert(all, r, Earlier, MAX_RECORDS);
    }
  }

  function At(time: int): Record -> bool {
    (r: Record) => r.created == time
  }

  /** The time-sort of all saves is a permutation in time order in which saves of one time stay in save order. */
  lemma TimeSortIsStable(saves: seq<Record>, time: int)
    ensures var all := Sort(saves, Earlier);
            && multiset(all) == multiset(saves) && Sorted(all, Earlier)
            && Filter(all, At(time)) == Filter(saves, At(time))
  {
    SortPermutes(saves, Earlier);
    SortSorts(saves, Earlier);
    SortIsStable(saves, Earlier, At(time));
  }

  function RecordsOf(done: seq<Done<Record>>): seq<Record> {
    seq(|done|, i requires 0 <= i < |done| => done[i].request)
  }

  ghost predicate AllNamed(saves: seq<Record>) {
    forall i :: 0 <= i < |saves| ==> Trim(saves[i].runId) != ""
  }

  lemma {:induction false} AloneIsSavedAll(done: seq<Done<Record>>)
    requires AllNamed(RecordsOf(done))
    ensures Alone(Missing, done, Applied) == if |done| == 0 then Missing else Records(SavedAll(RecordsOf(done)))
  {
    if |done| > 0 {
      var before := done[..|done| - 1];
      assert RecordsOf(done)[..|done| - 1] == RecordsOf(before);
      assert RecordsOf(done)[|done| - 1] == done[|done| - 1].request;
      assert AllNamed(RecordsOf(before)) by {
        forall i | 0 <= i < |before| ensures Trim(RecordsOf(before)[i].runId) != "" {
          assert RecordsOf(done)[i] == RecordsOf(before)[i];
        }
      }
      AloneIsSavedAll(before);
    }
  }

  /** The same for saves racing from any number of processes: none is lost. */
  lemma RacingSavesAreAllKept(s: State<Content, Record>, steps: seq<Step<Record>>)
    requires s.content == Missing && Quiet(s) && Runs(s, steps, Applied)
    requires var saves := RecordsOf(Effects(s, steps, Applied)); Unique(saves) && AllNamed(saves)
    ensures var content := After(s, steps, Applied).content;
            && !content.Corrupt?
            && Stored(content) == Last(Sort(RecordsOf(Effects(s, steps, Applied)), Earlier), 500)
  {
    NoUpdateIsLost(s, steps, Applied);
    var done := Effects(s, steps, Applied);
    AloneIsSavedAll(done);
    IndexIsTheLatest(RecordsOf(done));
  }
}
