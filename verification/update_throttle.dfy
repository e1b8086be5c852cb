/** The automatic update check: what its cache keeps it from doing too often. */
module UpdateThrottle {
  import opened Seqs
  import opened Versions

  /** 24 hours in nanoseconds. */
  const DAY: int := 24 * 3600 * 1_000_000_000

  /** A timestamp that was never set is None. */
  datatype Cache = Cache(checkedAt: Option<int>, latest: string, promptedAt: Option<int>, prompted: string)

  const BLANK: Cache := Cache(None, "", None, "")

  /** One invocation; fetched is what the release server would answer, accepts what the user would type. */
  datatype Invocation = Invocation(now: int, current: string, fetched: Option<string>, accepts: bool, installs: bool)

  /** What an invocation did: the answer of the fetch it made, the version it offered, the version it installed. */
  datatype Outcome = Outcome(fetched: Option<string>, offered: Option<string>, installed: Option<string>)

  predicate Recent(now: int, timestamp: Option<int>) {
    timestamp.Some? && timestamp.value <= now && now - timestamp.value < DAY
  }

  // ------------------------------------------------------------ one invocation, as a value

  /** The cache file with working reads and writes; None is a file that cannot be read. */
  type Stored = Option<Cache>

  function Read(stored: Stored): Cache {
    if stored.Some? then stored.value else BLANK
  }

  predicate Fetches(stored: Stored, i: Invocation) {
    Parsed(i.current).Some? && (stored.None? || !Recent(i.now, stored.value.checkedAt))
  }

  function Checked(stored: Stored, i: Invocation): Cache {
    if Fetches(stored, i) && i.fetched.Some? then Read(stored).(checkedAt := Some(i.now), latest := i.fetched.value)
    else Read(stored)
  }

  predicate Offers(stored: Stored, i: Invocation) {
    var cache := Checked(stored, i);
    && Newer(i.current, cache.latest)
    && !(Fetches(stored, i) && i.fetched.None?)
    && !(cache.prompted == cache.latest && Recent(i.now, cache.promptedAt))
  }

  function After(stored: Stored, i: Invocation): Stored {
    var cache := Checked(stored, i);
    if Offers(stored, i) then Some(cache.(promptedAt := Some(i.now), prompted := cache.latest))
    else if Fetches(stored, i) && i.fetched.Some? then Some(cache)
    else stored
  }

  // ------------------------------------------------------------ the code

  class CacheFile {
    var stored: Stored

    constructor ()
      ensures stored == None
    {
      stored := None;
    }

    method RunAutomaticUpdate(i: Invocation) returns (updated: bool, outcome: Outcome)
      modifies this
      ensures stored == After(old(stored), i)
      ensures outcome.fetched == if Fetches(old(stored), i) then i.fetched else None
      ensures outcome.offered == if Offers(old(stored), i) then Some(Checked(old(stored), i).latest) else None
      ensures outcome.installed == if i.accepts then outcome.offered else None
      ensures outcome.offered.Some? ==> Newer(i.current, outcome.offered.value)
      ensures updated <==> outcome.installed.Some? && i.installs
    {
      hide Parsed, Precedes;
      outcome := Outcome(None, None, None);
      var current := ParseStableVersion(i.current);
      if current.None? {
        return false, outcome;
      }
      var cache := if stored.Some? then stored.value else BLANK;
      if stored.None? || !Recent(i.now, cache.checkedAt) {
        outcome := outcome.(fetched := i.fetched);
        if i.fetched.None? {
          return false, outcome;
        }
        cache := cache.(checkedAt := Some(i.now), latest := i.fetched.value);
        stored := Some(cache);
      }
      var newer := NewerStableVersion(i.current, cache.latest);
      if newer != Some(true) {
        return false, outcome;
      }
      if cache.prompted == cache.latest && Recent(i.now, cache.promptedAt) {
        return false, outcome;
      }
      outcome := outcome.(offered := Some(cache.latest));
      cache := cache.(promptedAt := Some(i.now), prompted := cache.latest);
      stored := Some(cache);
      if !i.accepts {
        return false, outcome;
      }
      outcome := outcome.(installed := Some(cache.latest));
      updated := i.installs;
    }
  }

  // ------------------------------------------------------------ many invocations

  function AfterAll(stored: Stored, run: seq<Invocation>): Stored {
    if |run| == 0 then stored else After(AfterAll(stored, run[..|run| - 1]), run[|run| - 1])
  }

  predicate OffersAt(stored: Stored, run: seq<Invocation>, k: nat)
    requires k < |run|
  {
    Offers(AfterAll(stored, run[..k]), run[k])
  }

  function OfferedAt(stored: Stored, run: seq<Invocation>, k: nat): string
    requires k < |run|
  {
    Checked(AfterAll(stored, run[..k]), run[k]).latest
  }

  predicate FetchedAt(stored: Stored, run: seq<Invocation>, k: nat)
    requires k < |run|
  {
    Fetches(AfterAll(stored, run[..k]), run[k]) && run[k].fetched.Some?
  }

  ghost predicate ClockNeverTurnsBack(run: seq<Invocation>) {
    forall i, j :: 0 <= i < j < |run| ==> run[i].now <= run[j].now
  }

  /** What the cache still knows of an offer of a version at a time: either the offer itself or a later one of it,
      unless another version was fetched since; or another offer, and a fetch since, which is stale or a day newer. */
  ghost predicate Remembers(stored: Stored, version: string, at: int, now: int) {
    && stored.Some?
    && stored.value.checkedAt.Some? && stored.value.checkedAt.value <= now
    && stored.value.promptedAt.Some? && stored.value.promptedAt.value <= now
    && var cache := stored.value;
       if cache.prompted == version then
         at <= cache.promptedAt.value && (cache.latest != version ==> at <= cache.checkedAt.value)
       else (cache.latest != version && at <= cache.checkedAt.value) || at + DAY <= cache.checkedAt.value
  }

  lemma OfferIsRemembered(stored: Stored, i: Invocation)
    requires Offers(stored, i)
    ensures Remembers(After(stored, i), Checked(stored, i).latest, i.now, i.now)
  {
    hide Parsed, Precedes;
  }

  lemma MemoryLasts(stored: Stored, version: string, at: int, before: int, i: Invocation)
    requires at <= before <= i.now && Remembers(stored, version, at, before)
    ensures Remembers(After(stored, i), version, at, i.now)
    ensures Offers(stored, i) && Checked(stored, i).latest == version ==> at + DAY <= i.now
  {
    hide Newer, Parsed;
  }

  lemma {:induction false} OfferStaysRemembered(stored: Stored, run: seq<Invocation>, k: nat)
    requires ClockNeverTurnsBack(run) && k < |run| && OffersAt(stored, run, k)
    ensures Remembers(AfterAll(stored, run), OfferedAt(stored, run, k), run[k].now, run[|run| - 1].now)
    decreases |run|
  {
    hide Remembers, Offers, Checked, After;
    var before, last := run[..|run| - 1], run[|run| - 1];
    if k == |run| - 1 {
      OfferIsRemembered(AfterAll(stored, before), last);
    } else {
      assert before[..k] == run[..k];
      OfferStaysRemembered(stored, before, k);
      MemoryLasts(AfterAll(stored, before), OfferedAt(stored, run, k), run[k].now, before[|before| - 1].now, last);
    }
  }

  /** Two offers of one version are a day apart, whatever was fetched and offered in between and whichever
      binaries asked. */
  lemma OffersAreADayApart(stored: Stored, run: seq<Invocation>, j: nat, k: nat)
    requires ClockNeverTurnsBack(run) && j < k < |run|
    requires OffersAt(stored, run, j) && OffersAt(stored, run, k)
    requires OfferedAt(stored, run, j) == OfferedAt(stored, run, k)
    ensures run[j].now + 86_400_000_000_000 <= run[k].now
  {
    hide Remembers, Offers, Checked, AfterAll;
    var before := run[..k];
    assert before[..j] == run[..j];
    OfferStaysRemembered(stored, before, j);
    MemoryLasts(AfterAll(stored, before), OfferedAt(stored, run, j), run[j].now, before[|before| - 1].now, run[k]);
  }

  ghost predicate Dated(stored: Stored, at: int, now: int) {
    stored.Some? && stored.value.checkedAt.Some? && at <= stored.value.checkedAt.value <= now
  }

  lemma DateLasts(stored: Stored, at: int, before: int, i: Invocation)
    requires at <= before <= i.now && Dated(stored, at, before)
    ensures Dated(After(stored, i), at, i.now)
    ensures Fetches(stored, i) ==> at + DAY <= i.now
  {
    hide Newer, Parsed;
  }

  lemma {:induction false} FetchStaysDated(stored: Stored, run: seq<Invocation>, k: nat)
    requires ClockNeverTurnsBack(run) && k < |run| && FetchedAt(stored, run, k)
    ensures Dated(AfterAll(stored, run), run[k].now, run[|run| - 1].now)
    decreases |run|
  {
    hide Newer, Parsed;
    var before, last := run[..|run| - 1], run[|run| - 1];
    if k < |run| - 1 {
      assert before[..k] == run[..k];
      FetchStaysDated(stored, before, k);
      DateLasts(AfterAll(stored, before), run[k].now, before[|before| - 1].now, last);
    }
  }

  /** After a successful fetch no fetch is even tried for a day. */
  lemma FetchesAreADayApart(stored: Stored, run: seq<Invocation>, j: nat, k: nat)
    requires ClockNeverTurnsBack(run) && j < k < |run|
    requires FetchedAt(stored, run, j) && Fetches(AfterAll(stored, run[..k]), run[k])
    ensures run[j].now + 86_400_000_000_000 <= run[k].now
  {
    hide Fetches, AfterAll, Checked;
    var before := run[..k];
    assert before[..j] == run[..j];
    FetchStaysDated(stored, before, j);
    DateLasts(AfterAll(stored, before), run[j].now, before[|before| - 1].now, run[k]);
  }

  // ------------------------------------------------------------ exactly when

  /** A fetch is tried at k in a run that began without a cache. */
  predicate Tries(run: seq<Invocation>, k: nat)
    requires k < |run|
  {
    Fetches(AfterAll(None, run[..k]), run[k])
  }

  /** The last successful fetch before n. */
  ghost predicate LastFetch(run: seq<Invocation>, n: nat, j: nat)
    requires n <= |run|
  {
    j < n && FetchedAt(None, run, j) && forall i: nat :: j < i < n ==> !FetchedAt(None, run, i)
  }

  ghost predicate LastOffer(run: seq<Invocation>, n: nat, j: nat)
    requires n <= |run|
  {
    j < n && OffersAt(None, run, j) && forall i: nat :: j < i < n ==> !OffersAt(None, run, i)
  }

  ghost predicate NoneFetched(run: seq<Invocation>, n: nat)
    requires n <= |run|
  {
    forall i: nat :: i < n ==> !FetchedAt(None, run, i)
  }

  ghost predicate NoneOffered(run: seq<Invocation>, n: nat)
    requires n <= |run|
  {
    forall i: nat :: i < n ==> !OffersAt(None, run, i)
  }

  /** The cache after n invocations is the last successful fetch and the last offer, if there were any. */
  ghost predicate CacheOf(run: seq<Invocation>, n: nat, stored: Stored)
    requires n <= |run|
  {
    if stored.None? then NoneFetched(run, n) && NoneOffered(run, n)
    else
      var c := stored.value;
      && (exists j: nat :: LastFetch(run, n, j) && c.checkedAt == Some(run[j].now) && run[j].fetched == Some(c.latest))
      && if c.promptedAt.None? then NoneOffered(run, n)
         else exists j: nat ::
           LastOffer(run, n, j) && c.promptedAt == Some(run[j].now) && c.prompted == OfferedAt(None, run, j)
  }

  lemma LastsStep(run: seq<Invocation>, n: nat)
    requires n < |run|
    ensures FetchedAt(None, run, n) ==> LastFetch(run, n + 1, n)
    ensures OffersAt(None, run, n) ==> LastOffer(run, n + 1, n)
    ensures !FetchedAt(None, run, n) ==> (NoneFetched(run, n) ==> NoneFetched(run, n + 1))
    ensures !OffersAt(None, run, n) ==> (NoneOffered(run, n) ==> NoneOffered(run, n + 1))
    ensures !FetchedAt(None, run, n) ==> forall j: nat :: LastFetch(run, n, j) ==> LastFetch(run, n + 1, j)
    ensures !OffersAt(None, run, n) ==> forall j: nat :: LastOffer(run, n, j) ==> LastOffer(run, n + 1, j)
  {
    hide FetchedAt, OffersAt;
  }

  lemma NothingIsNewerThanNothing(current: string)
    ensures !Newer(current, "")
  {
  }

  /** What one invocation does to the cache, in terms of what it fetched and offered. */
  lemma StepOfCache(stored: Stored, i: Invocation)
    ensures var fetched, offered, next := Fetches(stored, i) && i.fetched.Some?, Offers(stored, i), After(stored, i);
            && (stored.None? && !fetched ==> next.None? && !offered)
            && (stored.Some? || fetched ==>
                  && next.Some?
                  && next.value.checkedAt == (if fetched then Some(i.now) else stored.value.checkedAt)
                  && next.value.latest == (if fetched then i.fetched.value else stored.value.latest)
                  && next.value.promptedAt == (if offered then Some(i.now) else Read(stored).promptedAt)
                  && next.value.prompted == (if offered then next.value.latest else Read(stored).prompted))
            && (offered ==> Checked(stored, i).latest == next.value.latest)
  {
    hide Newer, Parsed;
    NothingIsNewerThanNothing(i.current);
  }

  lemma {:induction false} CacheIsTheLast(run: seq<Invocation>, n: nat)
    requires n <= |run|
    ensures CacheOf(run, n, AfterAll(None, run[..n]))
  {
    hide Fetches, Offers, Checked, After;
    if n > 0 {
      var m := n - 1;
      CacheIsTheLast(run, m);
      var stored := AfterAll(None, run[..m]);
      assert run[..n][..m] == run[..m] && run[..n][m] == run[m];
      StepOfCache(stored, run[m]);
      LastsStep(run, m);
    }
  }

  /** An invocation of a stable version tries to fetch if and only if no fetch has succeeded within 24 hours. */
  lemma FetchesExactlyDaily(run: seq<Invocation>, k: nat)
    requires ClockNeverTurnsBack(run) && k < |run|
    ensures Tries(run, k) <==>
              && Parsed(run[k].current).Some?
              && forall j: nat :: j < k && FetchedAt(None, run, j) ==> run[j].now + 86_400_000_000_000 <= run[k].now
  {
    hide Parsed, FetchedAt, AfterAll, OffersAt, OfferedAt, LastOffer;
    CacheIsTheLast(run, k);
  }

  /** The version of the last successful fetch, the one of the invocation itself included. */
  ghost predicate LatestIs(run: seq<Invocation>, k: nat, version: string)
    requires k < |run|
  {
    exists j: nat :: LastFetch(run, k + 1, j) && run[j].fetched == Some(version)
  }

  /** The last offer was of this version and not 24 hours ago. */
  ghost predicate HeldBack(run: seq<Invocation>, k: nat, version: string)
    requires k < |run|
  {
    exists j: nat ::
      LastOffer(run, k, j) && OfferedAt(None, run, j) == version && run[k].now < run[j].now + 86_400_000_000_000
  }

  lemma CheckedIsLatest(run: seq<Invocation>, k: nat, version: string)
    requires k < |run|
    ensures LatestIs(run, k, version) ==> Checked(AfterAll(None, run[..k]), run[k]).latest == version
    ensures (forall v: string :: !LatestIs(run, k, v)) ==> Checked(AfterAll(None, run[..k]), run[k]).latest == ""
  {
    hide Newer, Parsed, Recent, OffersAt, OfferedAt, LastOffer, NoneOffered, AfterAll;
    CacheIsTheLast(run, k);
    LastsStep(run, k);
    var stored := AfterAll(None, run[..k]);
    if FetchedAt(None, run, k) {
      assert LatestIs(run, k, run[k].fetched.value);
    } else if stored.Some? {
      var j: nat :| LastFetch(run, k, j) && run[j].fetched == Some(stored.value.latest);
      assert LatestIs(run, k, stored.value.latest);
    }
  }

  lemma HeldBackExactly(run: seq<Invocation>, k: nat, version: string)
    requires ClockNeverTurnsBack(run) && k < |run|
    ensures var cache := Read(AfterAll(None, run[..k]));
            HeldBack(run, k, version) <==> cache.prompted == version && Recent(run[k].now, cache.promptedAt)
  {
    hide FetchedAt, OffersAt, OfferedAt, AfterAll, LastFetch, NoneFetched;
    CacheIsTheLast(run, k);
    assert forall i: nat, j: nat :: LastOffer(run, k, i) && LastOffer(run, k, j) ==> i == j;
  }

  /** It offers if and only if its own fetch, if it tried one, did not fail, the last version fetched is newer, and
      the last offer was of another version or is 24 hours ago. */
  lemma OffersExactlyDaily(run: seq<Invocation>, k: nat)
    requires ClockNeverTurnsBack(run) && k < |run|
    ensures OffersAt(None, run, k) <==>
              && !(Tries(run, k) && run[k].fetched.None?)
              && exists version: string ::
                   LatestIs(run, k, version) && Newer(run[k].current, version) && !HeldBack(run, k, version)
    ensures OffersAt(None, run, k) ==> LatestIs(run, k, OfferedAt(None, run, k))
  {
    hide Newer, Parsed, Recent, LatestIs, HeldBack, AfterAll;
    var stored := AfterAll(None, run[..k]);
    var latest := Checked(stored, run[k]).latest;
    CheckedIsLatest(run, k, latest);
    forall version: string | LatestIs(run, k, version) ensures version == latest {
      CheckedIsLatest(run, k, version);
    }
    HeldBackExactly(run, k, latest);
    NothingIsNewerThanNothing(run[k].current);
  }
}
