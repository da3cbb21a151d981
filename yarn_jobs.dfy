/**
 * The list logic of YarnJobListServlet.doGet: the jobs the resource manager
 * reports are split into running and other jobs, each part is sorted by
 * application id in descending order, the list is capped at 100 entries,
 * the query id of every Hive job is read back from its job name, the ids
 * are looked up in the query table, and every listed job is tagged with
 * `existdb`.
 *
 * A job is one of the maps the resource manager client returns: its id,
 * state and name never change, and the servlet adds the `existdb` entry to
 * the map in place.
 */
module YarnJobs {
  import opened Wrappers
  import opened JavaStrings
  import opened Sinks
  import HiveService

  const Limit: nat := 100
  const RunningState: string := "RUNNING"
  const HiveEngine: string := "hive"

  class Job {
    const id: string
    const state: string
    const name: string
    /** The `existdb` entry: absent until the servlet tags the job. */
    var existdb: Option<bool>

    constructor(id: string, state: string, name: string)
      ensures this.id == id && this.state == state && this.name == name && existdb.None?
    {
      this.id := id;
      this.state := state;
      this.name := name;
      existdb := None;
    }
  }

  // ---------------------------------------------------------------------
  // String.compareTo

  /**
   * `a.compareTo(b)`: the difference of the first differing characters, or
   * of the lengths when one string is a prefix of the other.
   */
  function CompareTo(a: string, b: string): int {
    if a == [] || b == [] then |a| - |b|
    else if a[0] != b[0] then a[0] as int - b[0] as int
    else CompareTo(a[1..], b[1..])
  }

  /** Swapping the arguments negates the comparison, and only equal strings compare as zero. */
  lemma {:induction false} CompareToAntisymmetric(a: string, b: string)
    ensures CompareTo(a, b) == -CompareTo(b, a)
    ensures CompareTo(a, b) == 0 <==> a == b
  {
    if a != [] && b != [] && a[0] == b[0] {
      CompareToAntisymmetric(a[1..], b[1..]);
      assert a == [a[0]] + a[1..] && b == [b[0]] + b[1..];
    }
  }

  lemma {:induction false} CompareToTransitive(a: string, b: string, c: string)
    requires CompareTo(a, b) >= 0 && CompareTo(b, c) >= 0
    ensures CompareTo(a, c) >= 0
  {
    if a != [] && b != [] && c != [] && a[0] == b[0] && b[0] == c[0] {
      CompareToTransitive(a[1..], b[1..], c[1..]);
    }
  }

  // ---------------------------------------------------------------------
  // Partition and sort

  /** The jobs whose state is "RUNNING", in their order. */
  function Running(jobs: seq<Job>): (r: seq<Job>)
    ensures forall j :: j in r ==> j in jobs && j.state == RunningState
  {
    if jobs == [] then []
    else (if jobs[0].state == RunningState then [jobs[0]] else []) + Running(jobs[1..])
  }

  /** The other jobs, in their order. */
  function NotRunning(jobs: seq<Job>): (r: seq<Job>)
    ensures forall j :: j in r ==> j in jobs && j.state != RunningState
  {
    if jobs == [] then []
    else (if jobs[0].state != RunningState then [jobs[0]] else []) + NotRunning(jobs[1..])
  }

  /** Every job lands in exactly one of the two parts. */
  lemma {:induction false} PartitionIsPermutation(jobs: seq<Job>)
    ensures multiset(Running(jobs)) + multiset(NotRunning(jobs)) == multiset(jobs)
  {
    if jobs != [] {
      PartitionIsPermutation(jobs[1..]);
      assert jobs == [jobs[0]] + jobs[1..];
    }
  }

  /** Sorted by id in descending order, the comparator `(a, b) -> b.id.compareTo(a.id)` of the servlet. */
  predicate SortedById(s: seq<Job>) {
    forall i, j :: 0 <= i < j < |s| ==> CompareTo(s[i].id, s[j].id) >= 0
  }

  /** Places x ahead of the first job whose id is not greater, keeping equal ids in their order. */
  function Insert(x: Job, t: seq<Job>): (r: seq<Job>)
    ensures multiset(r) == multiset(t) + multiset{x}
  {
    if t == [] then [x]
    else if CompareTo(x.id, t[0].id) >= 0 then [x] + t
    else
      assert t == [t[0]] + t[1..];
      [t[0]] + Insert(x, t[1..])
  }

  /** `list.sort(...)` with the servlet's comparator: a stable insertion sort by id, descending. */
  function SortById(s: seq<Job>): (r: seq<Job>)
    ensures multiset(r) == multiset(s) && |r| == |s|
  {
    if s == [] then []
    else
      assert s == [s[0]] + s[1..];
      var r := Insert(s[0], SortById(s[1..]));
      assert |r| == |multiset(r)|;
      r
  }

  /** Every job of s has an id not greater than b. */
  predicate Dominates(b: string, s: seq<Job>) {
    forall k :: 0 <= k < |s| ==> CompareTo(b, s[k].id) >= 0
  }

  lemma {:induction false} InsertDominated(b: string, x: Job, t: seq<Job>)
    requires Dominates(b, t) && CompareTo(b, x.id) >= 0
    ensures Dominates(b, Insert(x, t))
  {
    if t != [] && CompareTo(x.id, t[0].id) < 0 {
      InsertDominated(b, x, t[1..]);
      var r := Insert(x, t);
      assert r == [t[0]] + Insert(x, t[1..]);
      forall k | 0 <= k < |r| ensures CompareTo(b, r[k].id) >= 0 {
        if k > 0 {
          assert r[k] == Insert(x, t[1..])[k - 1];
        }
      }
    }
  }

  lemma ConsSorted(y: Job, s: seq<Job>)
    requires Dominates(y.id, s) && SortedById(s)
    ensures SortedById([y] + s)
  {
    var r := [y] + s;
    forall i, j | 0 <= i < j < |r| ensures CompareTo(r[i].id, r[j].id) >= 0 {
      if i == 0 {
        assert r[j] == s[j - 1];
      } else {
        assert r[i] == s[i - 1] && r[j] == s[j - 1];
      }
    }
  }

  lemma {:induction false} InsertSorted(x: Job, t: seq<Job>)
    requires SortedById(t)
    ensures SortedById(Insert(x, t))
  {
    if t == [] {
    } else if CompareTo(x.id, t[0].id) >= 0 {
      forall k | 0 <= k < |t| ensures CompareTo(x.id, t[k].id) >= 0 {
        if k > 0 {
          CompareToTransitive(x.id, t[0].id, t[k].id);
        }
      }
      ConsSorted(x, t);
    } else {
      var tail := t[1..];
      assert SortedById(tail) by {
        forall i, j | 0 <= i < j < |tail| ensures CompareTo(tail[i].id, tail[j].id) >= 0 {
          assert tail[i] == t[i + 1] && tail[j] == t[j + 1];
        }
      }
      InsertSorted(x, tail);
      CompareToAntisymmetric(x.id, t[0].id);
      assert Dominates(t[0].id, tail) by {
        forall k | 0 <= k < |tail| ensures CompareTo(t[0].id, tail[k].id) >= 0 {
          assert tail[k] == t[k + 1];
        }
      }
      InsertDominated(t[0].id, x, tail);
      ConsSorted(t[0], Insert(x, tail));
    }
  }

  /** The servlet's sort orders the part by id, descending, and keeps every job of it. */
  lemma {:induction false} SortByIdSorted(s: seq<Job>)
    ensures SortedById(SortById(s))
  {
    if s != [] {
      SortByIdSorted(s[1..]);
      InsertSorted(s[0], SortById(s[1..]));
    }
  }

  // ---------------------------------------------------------------------
  // The cap at 100 jobs

  /** The running jobs, sorted as the servlet sorts them. */
  function RunningPart(jobs: seq<Job>): seq<Job> {
    SortById(Running(jobs))
  }

  /** The other jobs, sorted as the servlet sorts them. */
  function OtherPart(jobs: seq<Job>): seq<Job> {
    SortById(NotRunning(jobs))
  }

  lemma PartsLength(jobs: seq<Job>)
    ensures |RunningPart(jobs)| == |Running(jobs)|
    ensures |RunningPart(jobs)| + |OtherPart(jobs)| == |jobs|
  {
    PartsCover(jobs);
  }

  lemma PartsCover(jobs: seq<Job>)
    ensures multiset(RunningPart(jobs)) + multiset(OtherPart(jobs)) == multiset(jobs)
    ensures |RunningPart(jobs)| + |OtherPart(jobs)| == |jobs|
  {
    PartitionIsPermutation(jobs);
    assert |multiset(jobs)| == |RunningPart(jobs)| + |OtherPart(jobs)|;
  }

  /**
   * The list lines 61-68 build, as written: more than 100 jobs are replaced
   * by the running jobs and then the first `100 - running` other jobs; with
   * more than 100 running jobs `subList(0, 100 - running)` has a negative
   * bound and throws.
   */
  function LimitedListAsWritten(jobs: seq<Job>): (r: Option<seq<Job>>)
    ensures r.None? <==> |jobs| > Limit && |Running(jobs)| > Limit
    ensures r.Some? ==> r.value == LimitedList(jobs)
  {
    if |jobs| <= Limit then Some(jobs)
    else
      var running, others := RunningPart(jobs), OtherPart(jobs);
      PartsCover(jobs);
      if |running| > Limit then None else Some(running + others[..Limit - |running|])
  }

  /** 101 running jobs make the servlet throw instead of listing 100 of them. */
  lemma ManyRunningJobsThrow(j: Job)
    requires j.state == RunningState
    ensures var jobs := seq(Limit + 1, _ => j);
      LimitedListAsWritten(jobs).None? && |LimitedList(jobs)| == Limit
  {
    var jobs := seq(Limit + 1, _ => j);
    AllRunning(jobs);
  }

  lemma {:induction false} AllRunning(jobs: seq<Job>)
    requires forall j :: j in jobs ==> j.state == RunningState
    ensures Running(jobs) == jobs
  {
    if jobs != [] {
      AllRunning(jobs[1..]);
      assert jobs == [jobs[0]] + jobs[1..];
    }
  }

  /**
   * The cap as intended: at most 100 jobs, running jobs first, each part
   * sorted by id descending; a list of at most 100 jobs is kept as it came.
   */
  function LimitedList(jobs: seq<Job>): (r: seq<Job>)
    ensures |r| == if |jobs| <= Limit then |jobs| else Limit
  {
    if |jobs| <= Limit then jobs
    else
      var running, others := RunningPart(jobs), OtherPart(jobs);
      PartsLength(jobs);
      if |running| >= Limit then running[..Limit] else running + others[..Limit - |running|]
  }

  lemma MultisetPrefix(s: seq<Job>, k: nat)
    requires k <= |s|
    ensures multiset(s[..k]) <= multiset(s)
  {
    assert s == s[..k] + s[k..];
  }

  lemma SortedSlice(s: seq<Job>, lo: nat, hi: nat)
    requires lo <= hi <= |s| && SortedById(s)
    ensures SortedById(s[lo..hi])
  {
    var t := s[lo..hi];
    forall i, j | 0 <= i < j < |t| ensures CompareTo(t[i].id, t[j].id) >= 0 {
      assert t[i] == s[lo + i] && t[j] == s[lo + j];
    }
  }

  /** The two sorted parts: running jobs, then the others, each sorted by id descending. */
  lemma SortedParts(jobs: seq<Job>)
    ensures forall y :: y in RunningPart(jobs) ==> y.state == RunningState
    ensures forall y :: y in OtherPart(jobs) ==> y.state != RunningState
    ensures SortedById(RunningPart(jobs)) && SortedById(OtherPart(jobs))
  {
    var running, others := RunningPart(jobs), OtherPart(jobs);
    SortByIdSorted(Running(jobs));
    SortByIdSorted(NotRunning(jobs));
    forall y | y in running ensures y.state == RunningState {
      assert y in multiset(Running(jobs));
    }
    forall y | y in others ensures y.state != RunningState {
      assert y in multiset(NotRunning(jobs));
    }
  }

  /** How many running jobs a list of more than 100 jobs keeps. */
  function RunningKept(jobs: seq<Job>): (n: nat)
    ensures n <= Limit && n <= |Running(jobs)|
    ensures n == Limit || n == |Running(jobs)|
  {
    if |Running(jobs)| < Limit then |Running(jobs)| else Limit
  }

  /** Over 100 jobs, the capped list is a prefix of the running part followed by a prefix of the rest. */
  lemma LimitedListSplit(jobs: seq<Job>)
    requires |jobs| > Limit
    ensures RunningKept(jobs) <= |RunningPart(jobs)| && Limit - RunningKept(jobs) <= |OtherPart(jobs)|
    ensures LimitedList(jobs) == RunningPart(jobs)[..RunningKept(jobs)] + OtherPart(jobs)[..Limit - RunningKept(jobs)]
  {
    PartsLength(jobs);
    var running := RunningPart(jobs);
    if |running| >= Limit {
      assert RunningKept(jobs) == Limit;
    } else {
      assert RunningKept(jobs) == |running| && running[..|running|] == running;
    }
  }

  /** The capped list holds only jobs of the input, none more often than there, and a short list is kept as it came. */
  lemma LimitedListFromInput(jobs: seq<Job>)
    ensures multiset(LimitedList(jobs)) <= multiset(jobs)
    ensures |jobs| <= Limit ==> LimitedList(jobs) == jobs
  {
    if |jobs| > Limit {
      LimitedListSplit(jobs);
      PrefixesFromParts(jobs, RunningKept(jobs), Limit - RunningKept(jobs), LimitedList(jobs));
    }
  }

  lemma PrefixesFromParts(jobs: seq<Job>, n: nat, m: nat, r: seq<Job>)
    requires n <= |RunningPart(jobs)| && m <= |OtherPart(jobs)|
    requires r == RunningPart(jobs)[..n] + OtherPart(jobs)[..m]
    ensures multiset(r) <= multiset(jobs)
  {
    PartsCover(jobs);
    MultisetPrefix(RunningPart(jobs), n);
    MultisetPrefix(OtherPart(jobs), m);
  }

  /**
   * Over 100 jobs, the capped list starts with the running jobs (all of
   * them, or the first 100) and each of its two parts is sorted by id
   * descending.
   */
  lemma LimitedListOrder(jobs: seq<Job>)
    requires |jobs| > Limit
    ensures var r, n := LimitedList(jobs), RunningKept(jobs);
      && (forall i :: 0 <= i < |r| ==> (r[i].state == RunningState <==> i < n))
      && SortedById(r[..n]) && SortedById(r[n..])
  {
    SortedParts(jobs);
    LimitedListSplit(jobs);
    RunningThenOthers(RunningPart(jobs), OtherPart(jobs), RunningKept(jobs), Limit - RunningKept(jobs), LimitedList(jobs));
  }

  lemma RunningThenOthers(running: seq<Job>, others: seq<Job>, n: nat, m: nat, r: seq<Job>)
    requires n <= |running| && m <= |others| && r == running[..n] + others[..m]
    requires forall y :: y in running ==> y.state == RunningState
    requires forall y :: y in others ==> y.state != RunningState
    requires SortedById(running) && SortedById(others)
    ensures forall i :: 0 <= i < |r| ==> (r[i].state == RunningState <==> i < n)
    ensures SortedById(r[..n]) && SortedById(r[n..])
  {
    assert r[..n] == running[..n] && r[n..] == others[..m];
    SortedSlice(running, 0, n);
    SortedSlice(others, 0, m);
    forall i | 0 <= i < |r| ensures r[i].state == RunningState <==> i < n {
      if i < n {
        assert r[i] == running[i];
      } else {
        assert r[i] == others[i - n];
      }
    }
  }

  // ---------------------------------------------------------------------
  // The query id of a Hive job

  /** How the query id is read from a job name. */
  datatype Extraction =
    | NotHiveJob
    | Extracted(queryId: string)
    /** `substring` past the end of the name: StringIndexOutOfBoundsException. */
    | OutOfBounds

  /**
   * A name with the Hive job prefix loses the prefix, and the user name and
   * '-' after it when the request carries a user.
   */
  function Extract(name: string, prefix: string, userName: Option<string>): (r: Extraction)
    ensures r.NotHiveJob? <==> !StartsWith(name, prefix)
    ensures r.Extracted? ==> EndsWith(name, r.queryId)
    ensures r.OutOfBounds? ==> userName.Some? && |name| < |prefix| + |userName.value| + 1
  {
    if !StartsWith(name, prefix) then NotHiveJob
    else
      var k := if userName.None? then |prefix| else |prefix| + |userName.value| + 1;
      if k > |name| then OutOfBounds else Extracted(name[k..])
  }

  /** The id read back from the name Hive gives a job is the query id the job was named after. */
  lemma ExtractInvertsJobName(prefix: string, userName: Option<string>, queryId: string)
    ensures Extract(HiveService.JobName(prefix, userName, queryId), prefix, userName) == Extracted(queryId)
  {
    var name := HiveService.JobName(prefix, userName, queryId);
    assert name[|name| - |queryId|..] == queryId;
  }

  /** Conversely, a name the id is read from is the name Hive gives that query, when the user part is there. */
  lemma JobNameInvertsExtract(name: string, prefix: string, userName: Option<string>)
    requires Extract(name, prefix, userName).Extracted?
    requires userName.Some? ==> StartsWith(name, prefix + userName.value + "-")
    ensures HiveService.JobName(prefix, userName, Extract(name, prefix, userName).queryId) == name
  {
    var k := if userName.None? then |prefix| else |prefix| + |userName.value| + 1;
    assert name == name[..k] + name[k..];
  }

  /** The ids the first loop collects, in list order. */
  function QueryIds(jobs: seq<Job>, prefix: string, userName: Option<string>): seq<string> {
    if jobs == [] then []
    else
      var last := Extract(jobs[|jobs| - 1].name, prefix, userName);
      QueryIds(jobs[..|jobs| - 1], prefix, userName) + (if last.Extracted? then [last.queryId] else [])
  }

  /** The collected ids are exactly the ids read from the listed jobs. */
  lemma {:induction false} QueryIdsAreExtracted(jobs: seq<Job>, prefix: string, userName: Option<string>, q: string)
    ensures q in QueryIds(jobs, prefix, userName) <==>
      exists j :: j in jobs && Extract(j.name, prefix, userName) == Extracted(q)
  {
    if jobs != [] {
      var front := jobs[..|jobs| - 1];
      QueryIdsAreExtracted(front, prefix, userName, q);
      assert jobs == front + [jobs[|jobs| - 1]];
      if exists j :: j in jobs && Extract(j.name, prefix, userName) == Extracted(q) {
        var j :| j in jobs && Extract(j.name, prefix, userName) == Extracted(q);
        if j !in front {
          assert j == jobs[|jobs| - 1];
        }
      }
    }
  }

  /**
   * Lines 72-85: the query ids of the Hive jobs in the list, or the
   * exception of a name too short for the user part.
   */
  method CollectQueryIds(jobs: seq<Job>, prefix: string, userName: Option<string>) returns (ids: Option<seq<string>>)
    ensures ids.None? <==> exists j :: j in jobs && Extract(j.name, prefix, userName).OutOfBounds?
    ensures ids.Some? ==> ids.value == QueryIds(jobs, prefix, userName)
  {
    var collected: seq<string> := [];
    var i := 0;
    while i < |jobs|
      invariant i <= |jobs|
      invariant collected == QueryIds(jobs[..i], prefix, userName)
      invariant forall k :: 0 <= k < i ==> !Extract(jobs[k].name, prefix, userName).OutOfBounds?
    {
      var e := Extract(jobs[i].name, prefix, userName);
      if e.OutOfBounds? {
        return None;
      }
      assert jobs[..i + 1][..i] == jobs[..i];
      if e.Extracted? {
        collected := collected + [e.queryId];
      }
      i := i + 1;
    }
    assert jobs[..i] == jobs;
    return Some(collected);
  }

  // ---------------------------------------------------------------------
  // The query table lookup and the tags

  /** A Hive query of the datasource with this id is recorded in the query table. */
  predicate Recorded(stored: seq<HistoryRecord>, datasource: string, queryId: string) {
    exists r :: r in stored && r.engine == HiveEngine && r.datasource == datasource && r.queryId == queryId
  }

  /**
   * `SELECT ... FROM query WHERE engine='hive' and datasource=... and
   * query_id IN (...)`: the ids among `ids` that the table records. An
   * `IN ()` list is not valid SQL, so there is at least one id.
   */
  function SearchHiveQueries(stored: seq<HistoryRecord>, datasource: string, ids: seq<string>): (found: seq<string>)
    requires ids != []
    ensures forall q :: q in found <==> q in ids && Recorded(stored, datasource, q)
  {
    if stored == [] then []
    else
      var front, r := stored[..|stored| - 1], stored[|stored| - 1];
      assert stored == front + [r];
      SearchHiveQueries(front, datasource, ids) +
        (if r.engine == HiveEngine && r.datasource == datasource && r.queryId in ids then [r.queryId] else [])
  }

  /** The tag of one job: a Hive job whose query id was found. */
  function ExistDb(name: string, prefix: string, userName: Option<string>, found: seq<string>): bool {
    var e := Extract(name, prefix, userName);
    e.Extracted? && e.queryId in found
  }

  /** Lines 99-116: every job in the list gets its `existdb` entry. */
  method TagJobs(jobs: seq<Job>, prefix: string, userName: Option<string>, found: seq<string>)
    modifies set j | j in jobs
    ensures forall j :: j in jobs ==> j.existdb == Some(ExistDb(j.name, prefix, userName, found))
  {
    var i := 0;
    while i < |jobs|
      invariant i <= |jobs|
      invariant forall k :: 0 <= k < i ==> jobs[k].existdb == Some(ExistDb(jobs[k].name, prefix, userName, found))
    {
      var j := jobs[i];
      var e := Extract(j.name, prefix, userName);
      if e.Extracted? {
        if e.queryId in found {
          j.existdb := Some(true);
        } else {
          j.existdb := Some(false);
        }
      } else {
        j.existdb := Some(false);
      }
      i := i + 1;
    }
  }

  /** The outcome of the servlet's list logic: the listed jobs, or the exception thrown. */
  datatype Listing = Listed(jobs: seq<Job>) | Failed

  /**
   * The list logic of doGet from the resource manager's jobs: cap (which
   * throws with more than 100 running jobs), collect the query ids, look them up unless there are none, and tag every listed
   * job with whether its query is recorded for this datasource.
   */
  method ListJobs(jobs: seq<Job>, prefix: string, userName: Option<string>, datasource: string,
                  stored: seq<HistoryRecord>)
    returns (r: Listing)
    modifies set j | j in jobs
    ensures r.Failed? <==>
      || LimitedListAsWritten(jobs).None?
      || exists j :: j in LimitedList(jobs) && Extract(j.name, prefix, userName).OutOfBounds?
    ensures r.Listed? ==> LimitedListAsWritten(jobs) == Some(r.jobs)
    ensures r.Listed? ==> forall j :: j in r.jobs ==>
      var e := Extract(j.name, prefix, userName);
      j.existdb == Some(e.Extracted? && Recorded(stored, datasource, e.queryId))
    ensures forall j :: j in jobs && (r.Failed? || j !in LimitedList(jobs)) ==> j.existdb == old(j.existdb)
  {
    var capped := LimitedListAsWritten(jobs);
    if capped.None? {
      return Failed;
    }
    var limited := capped.value;
    LimitedListFromInput(jobs);
    forall j | j in limited ensures j in jobs {
      assert j in multiset(limited);
    }
    var ids := CollectQueryIds(limited, prefix, userName);
    if ids.None? {
      return Failed;
    }
    var found: seq<string> := [];
    if ids.value != [] {
      found := SearchHiveQueries(stored, datasource, ids.value);
    }
    TagJobs(limited, prefix, userName, found);
    forall j | j in limited
      ensures var e := Extract(j.name, prefix, userName);
        ExistDb(j.name, prefix, userName, found) == (e.Extracted? && Recorded(stored, datasource, e.queryId))
    {
      var e := Extract(j.name, prefix, userName);
      if e.Extracted? {
        QueryIdsAreExtracted(limited, prefix, userName, e.queryId);
      }
    }
    return Listed(limited);
  }
}
