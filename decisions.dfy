/** The decisions CommandState takes, as functions of what it reads: whether an
    invocation may be healed this tick, which replica doHealing keeps as its
    best, which replicas it tests and kills, when it asks for one more replica,
    when the logged median snapshot is refreshed, and what a whole tick requests. */
module HealingDecisions {
  import opened Gasw
  import opened Configuration
  import opened PhaseEstimator

  // ---------------------------------------------------------------------------
  // canDoHealingForJobs and hasFinished

  /** Whether a minor-status list reports Finished (hasFinished's anyMatch). */
  function AnyFinished(cps: seq<Checkpoint>): (r: bool)
    ensures r <==> exists i :: 0 <= i < |cps| && cps[i].status == Known(Finished)
  {
    if cps == [] then false
    else cps[0].status == Known(Finished) || AnyFinished(cps[1..])
  }

  /** hasFinished: whether the job has reported Finished; a failed read of its minor
      statuses propagates. */
  function HasFinished(job: Job): (r: Fetch<bool>)
    ensures r == DaoError <==> job.minorStatuses == DaoError
    ensures r.Fetched? ==>
              (r.value <==> exists i :: 0 <= i < |job.minorStatuses.value| && job.minorStatuses.value[i].status == Known(Finished))
  {
    match job.minorStatuses
    case DaoError => DaoError
    case Fetched(cps) => Fetched(AnyFinished(cps))
  }

  /** The last loop of canDoHealingForJobs: reads each active job's minor statuses
      in turn, stopping at the first finished job or the first failed read. */
  function NoneFinished(active: seq<Job>): (r: Fetch<bool>)
    ensures (forall i :: 0 <= i < |active| ==> active[i].minorStatuses.Fetched?) ==>
              r == Fetched(forall i :: 0 <= i < |active| ==> !AnyFinished(active[i].minorStatuses.value))
    ensures r == DaoError ==> exists i :: 0 <= i < |active| && active[i].minorStatuses == DaoError
  {
    if active == [] then Fetched(true)
    else
      match HasFinished(active[0])
      case DaoError => DaoError
      case Fetched(finished) =>
        if finished then Fetched(false)
        else
          var rest := NoneFinished(active[1..]);
          assert forall i :: 1 <= i < |active| ==> active[i] == active[1..][i - 1];
          rest
  }

  /** A job that is replicating or not RUNNING: the invocation is in a transitional state. */
  predicate Unsettled(job: Job)
  {
    job.replicating || job.status != Running
  }

  /** What canDoHealingForJobs returns: first the jobs' own fields, then the minor statuses;
      DaoError is the DAOException it lets through. */
  function HealingAllowed(active: seq<Job>, failed: seq<Job>): Fetch<bool>
  {
    if exists i :: 0 <= i < |active| && Unsettled(active[i]) then Fetched(false)
    else if exists i :: 0 <= i < |failed| && failed[i].replicating then Fetched(false)
    else NoneFinished(active)
  }

  /** When every lookup succeeds, healing is refused exactly when an active job is
      replicating or not RUNNING, a failed job is replicating, or an active job has
      reported Finished. */
  lemma HealingAllowedExactly(active: seq<Job>, failed: seq<Job>)
    requires forall i :: 0 <= i < |active| ==> active[i].minorStatuses.Fetched?
    ensures HealingAllowed(active, failed) == Fetched(!(
              (exists i :: 0 <= i < |active| && Unsettled(active[i])) ||
              (exists i :: 0 <= i < |failed| && failed[i].replicating) ||
              (exists i :: 0 <= i < |active| && AnyFinished(active[i].minorStatuses.value))))
  {
  }

  /** A failed read makes the guard throw only when the jobs' own fields let it reach the reads. */
  lemma HealingAllowedFailsOnlyOnRead(active: seq<Job>, failed: seq<Job>)
    requires HealingAllowed(active, failed) == DaoError
    ensures forall i :: 0 <= i < |active| ==> !Unsettled(active[i])
    ensures forall i :: 0 <= i < |failed| ==> !failed[i].replicating
    ensures exists i :: 0 <= i < |active| && active[i].minorStatuses == DaoError
  {
  }

  /** When the guard lets an invocation through, it has read every active job's minor
      statuses, so the scan that follows reaches every replica. */
  lemma GuardPassMeansAllReadable(active: seq<Job>, failed: seq<Job>)
    requires HealingAllowed(active, failed) == Fetched(true)
    ensures ReadablePrefix(active) == |active|
  {
    NoneFinishedReadsAll(active);
  }

  lemma {:induction false} NoneFinishedReadsAll(active: seq<Job>)
    requires NoneFinished(active) == Fetched(true)
    ensures forall i :: 0 <= i < |active| ==> active[i].minorStatuses.Fetched?
  {
    if active != [] {
      NoneFinishedReadsAll(active[1..]);
      assert forall i :: 1 <= i < |active| ==> active[i] == active[1..][i - 1];
    }
  }

  // ---------------------------------------------------------------------------
  // doHealing's scan

  /** What doHealing compares of a replica: its estimation and last status code. */
  datatype Estimated = Estimated(estimation: int, statusCode: int)

  /** killReplicaIfNecessary's test of `evaluated` against `best`: evaluated is in an
      earlier phase and its estimation / best's is at least the blocked coefficient. */
  predicate ShouldKill(evaluated: Estimated, best: Estimated, c: Fraction)
  {
    evaluated.statusCode < best.statusCode && QuotientAtLeast(evaluated.estimation, best.estimation, c)
  }

  /** The index doHealing holds as bestJob after seeing every replica: a later replica
      replaces it only with a strictly smaller estimation. */
  function BestIndex(es: seq<Estimated>): (b: nat)
    requires |es| > 0
    ensures b < |es|
  {
    if |es| == 1 then 0
    else
      var prev := BestIndex(es[..|es| - 1]);
      if es[|es| - 1].estimation < es[prev].estimation then |es| - 1 else prev
  }

  /** One call of killReplicaIfNecessary: `victim` tested against `against`, the best at that moment. */
  datatype Comparison = Comparison(victim: nat, against: nat)

  function Tested(es: seq<Estimated>, n: nat): Comparison
    requires 0 < n < |es|
  {
    var prev := BestIndex(es[..n]);
    if es[n].estimation < es[prev].estimation then Comparison(prev, n) else Comparison(n, prev)
  }

  /** The comparisons doHealing makes, in order: one per replica after the first. */
  function Comparisons(es: seq<Estimated>): (cs: seq<Comparison>)
    requires |es| > 0
    ensures forall k :: 0 <= k < |cs| ==> cs[k].victim < |es| && cs[k].against < |es|
  {
    if |es| == 1 then []
    else Comparisons(es[..|es| - 1]) + [Tested(es, |es| - 1)]
  }

  /** The comparisons among `cs` that end in a KILL_REPLICA, in order. */
  function Kills(es: seq<Estimated>, cs: seq<Comparison>, c: Fraction): (ks: seq<Comparison>)
    requires forall k :: 0 <= k < |cs| ==> cs[k].victim < |es| && cs[k].against < |es|
    ensures forall x :: x in ks <==> x in cs && ShouldKill(es[x.victim], es[x.against], c)
  {
    if cs == [] then []
    else
      var x := cs[|cs| - 1];
      Kills(es, cs[..|cs| - 1], c) + (if ShouldKill(es[x.victim], es[x.against], c) then [x] else [])
  }

  function Victims(cs: seq<Comparison>): set<nat>
  {
    set k | 0 <= k < |cs| :: cs[k].victim
  }

  /** The kept replica has the smallest estimation, and is the earliest of those that do. */
  lemma {:induction false} BestIsEarliestMinimum(es: seq<Estimated>)
    requires |es| > 0
    ensures forall j :: 0 <= j < |es| ==> es[BestIndex(es)].estimation <= es[j].estimation
    ensures forall j :: 0 <= j < BestIndex(es) ==> es[BestIndex(es)].estimation < es[j].estimation
  {
    if |es| > 1 {
      var p := es[..|es| - 1];
      BestIsEarliestMinimum(p);
      assert forall j :: 0 <= j < |p| ==> p[j] == es[j];
    }
  }

  /** One step of the scan: replica n meets the best of the replicas before it; the
      one with the smaller estimation (the earlier one on a tie) becomes the best and
      the other is tested against it. */
  lemma TestedIsStep(es: seq<Estimated>, n: nat)
    requires 0 < n < |es|
    ensures var x := Tested(es, n);
      && x.against == BestIndex(es[..n + 1])
      && x.victim != x.against
      && (x.victim == n || x.victim == BestIndex(es[..n]))
      && (x.against == n || x.against == BestIndex(es[..n]))
      && es[x.against].estimation <= es[x.victim].estimation
  {
    var q := es[..n + 1];
    assert q[..n] == es[..n];
    assert q[n] == es[n];
    assert forall j :: 0 <= j < n ==> q[j] == es[j];
  }

  /** The k-th comparison is the one made when replica k + 1 is read. */
  lemma {:induction false} ComparisonAt(es: seq<Estimated>, k: nat)
    requires k + 1 < |es|
    ensures |Comparisons(es)| == |es| - 1 && Comparisons(es)[k] == Tested(es, k + 1)
  {
    var n := |es| - 1;
    var p := es[..n];
    ComparisonsLength(es);
    if k + 1 < n {
      ComparisonAt(p, k);
      assert p[..k + 1] == es[..k + 1];
      assert p[k + 1] == es[k + 1];
    }
  }

  lemma {:induction false} ComparisonsLength(es: seq<Estimated>)
    requires |es| > 0
    ensures |Comparisons(es)| == |es| - 1
  {
    if |es| > 1 {
      ComparisonsLength(es[..|es| - 1]);
    }
  }

  /** The tested replicas are exactly the replicas other than the final best, each once. */
  lemma {:induction false} VictimsAreTheOthers(es: seq<Estimated>)
    requires |es| > 0
    ensures var cs := Comparisons(es);
      && (forall v :: v in Victims(cs) ==> v < |es| && v != BestIndex(es))
      && (forall j :: 0 <= j < |es| && j != BestIndex(es) ==> j in Victims(cs))
      && (forall k1, k2 :: 0 <= k1 < k2 < |cs| ==> cs[k1].victim != cs[k2].victim)
  {
    var n := |es| - 1;
    if n > 0 {
      var p := es[..n];
      VictimsAreTheOthers(p);
      ComparisonsLength(p);
      var cs, before := Comparisons(es), Comparisons(p);
      var x := Tested(es, n);
      TestedIsStep(es, n);
      assert es[..n + 1] == es;
      assert cs == before + [x];
      assert forall k :: 0 <= k < |before| ==> cs[k] == before[k];
      assert Victims(cs) == Victims(before) + {x.victim} by {
        forall v | v in Victims(cs) ensures v in Victims(before) + {x.victim} {
          var k :| 0 <= k < |cs| && cs[k].victim == v;
          if k < |before| {
            assert before[k].victim == v;
          }
        }
        forall v | v in Victims(before) ensures v in Victims(cs) {
          var k :| 0 <= k < |before| && before[k].victim == v;
          assert cs[k].victim == v;
        }
        assert cs[|before|].victim == x.victim;
      }
      forall k | 0 <= k < |before|
        ensures before[k].victim < n && before[k].victim != BestIndex(p)
      {
        assert before[k].victim in Victims(before);
      }
    }
  }

  /** Every replica but the final best is tested exactly once and the final best never is;
      each test is against the best replica at that moment, whose estimation is no larger. */
  lemma ComparisonsTestEachOtherReplicaOnce(es: seq<Estimated>)
    requires |es| > 0
    ensures var cs := Comparisons(es);
      && |cs| == |es| - 1
      && (forall v :: v in Victims(cs) ==> v < |es| && v != BestIndex(es))
      && (forall j :: 0 <= j < |es| && j != BestIndex(es) ==> j in Victims(cs))
      && (forall k1, k2 :: 0 <= k1 < k2 < |cs| ==> cs[k1].victim != cs[k2].victim)
      && (forall k :: 0 <= k < |cs| ==>
            var x := cs[k];
            && x.victim != x.against
            && es[x.against].estimation <= es[x.victim].estimation
            && x.against == BestIndex(es[..Max(x.victim, x.against) + 1]))
  {
    ComparisonsLength(es);
    VictimsAreTheOthers(es);
    var cs := Comparisons(es);
    forall k | 0 <= k < |cs|
      ensures var x := cs[k];
        && x.victim != x.against
        && es[x.against].estimation <= es[x.victim].estimation
        && x.against == BestIndex(es[..Max(x.victim, x.against) + 1])
    {
      ComparisonAt(es, k);
      TestedIsStep(es, k + 1);
      assert Max(cs[k].victim, cs[k].against) == k + 1;
    }
  }

  /** Kills only looks at the replicas the comparisons name. */
  lemma {:induction false} KillsIgnoreLaterReplicas(es: seq<Estimated>, e: Estimated, cs: seq<Comparison>, c: Fraction)
    requires forall k :: 0 <= k < |cs| ==> cs[k].victim < |es| && cs[k].against < |es|
    ensures Kills(es + [e], cs, c) == Kills(es, cs, c)
  {
    if cs != [] {
      KillsIgnoreLaterReplicas(es, e, cs[..|cs| - 1], c);
      var x := cs[|cs| - 1];
      assert (es + [e])[x.victim] == es[x.victim] && (es + [e])[x.against] == es[x.against];
    }
  }

  /** Reading one more replica changes the best one only on a strictly smaller estimation,
      and adds at most the kill decided by its own comparison. */
  lemma ScanStep(es: seq<Estimated>, e: Estimated, c: Fraction)
    requires |es| > 0
    ensures var es', b := es + [e], BestIndex(es);
      var x := Tested(es', |es|);
      && BestIndex(es') == (if e.estimation < es[b].estimation then |es| else b)
      && x == (if e.estimation < es[b].estimation then Comparison(b, |es|) else Comparison(|es|, b))
      && Kills(es', Comparisons(es'), c) ==
           Kills(es, Comparisons(es), c) + (if ShouldKill(es'[x.victim], es'[x.against], c) then [x] else [])
  {
    var es' := es + [e];
    assert es'[..|es|] == es;
    KillsIgnoreLaterReplicas(es, e, Comparisons(es), c);
  }

  lemma KillRequestsAppend(jobs: seq<Job>, ks: seq<Comparison>, x: Comparison)
    requires forall k :: 0 <= k < |ks| ==> ks[k].victim < |jobs|
    requires x.victim < |jobs|
    ensures KillRequests(jobs, ks + [x]) == KillRequests(jobs, ks) + [StatusRequest(jobs[x.victim].id, KillReplica)]
  {
  }

  lemma EstimatesOfStep(jobs: seq<Job>, n: nat, m: Medians, now: int)
    requires n < |jobs| && forall k :: 0 <= k <= n ==> jobs[k].minorStatuses.Fetched?
    ensures EstimatesOf(jobs, n + 1, m, now) == EstimatesOf(jobs, n, m, now) + [EstimatedOf(jobs[n], m, now)]
  {
  }

  /** doHealing's scan after one more replica, stated on the jobs it reads: the requests
      grow by the kill of that replica's comparison, if any, and the best replica
      changes only on a strictly smaller estimation. */
  lemma ScanRequestsStep(jobs: seq<Job>, n: nat, m: Medians, now: int, c: Fraction)
    requires 0 < n < |jobs| && forall k :: 0 <= k <= n ==> jobs[k].minorStatuses.Fetched?
    ensures var es, es' := EstimatesOf(jobs, n, m, now), EstimatesOf(jobs, n + 1, m, now);
      var b := BestIndex(es);
      var x := Tested(es', n);
      && es'[n] == EstimatedOf(jobs[n], m, now) && es'[b] == es[b]
      && BestIndex(es') == (if es'[n].estimation < es[b].estimation then n else b)
      && x == (if es'[n].estimation < es[b].estimation then Comparison(b, n) else Comparison(n, b))
      && KillRequests(jobs, Kills(es', Comparisons(es'), c)) ==
           KillRequests(jobs, Kills(es, Comparisons(es), c)) +
           (if ShouldKill(es'[x.victim], es'[x.against], c) then [StatusRequest(jobs[x.victim].id, KillReplica)] else [])
  {
    var es := EstimatesOf(jobs, n, m, now);
    var e := EstimatedOf(jobs[n], m, now);
    EstimatesOfStep(jobs, n, m, now);
    ScanStep(es, e, c);
    var x := Tested(es + [e], n);
    var ks := Kills(es, Comparisons(es), c);
    if ShouldKill((es + [e])[x.victim], (es + [e])[x.against], c) {
      KillRequestsAppend(jobs, ks, x);
    } else {
      assert ks + [] == ks;
    }
  }

  /** The scan's state after its first replica: that replica is the best and nothing is killed. */
  lemma ScanFirstReplica(jobs: seq<Job>, m: Medians, now: int, c: Fraction)
    requires 0 < |jobs| && jobs[0].minorStatuses.Fetched?
    ensures var es := EstimatesOf(jobs, 1, m, now);
      && es[0] == EstimatedOf(jobs[0], m, now)
      && BestIndex(es) == 0 && KillRequests(jobs, Kills(es, Comparisons(es), c)) == []
  {
  }

  /** The final best replica never receives KILL_REPLICA, and every kill is of a replica
      in a strictly earlier phase that is slow enough against the best of its moment. */
  lemma BestIsNeverKilled(es: seq<Estimated>, c: Fraction)
    requires |es| > 0
    ensures var ks := Kills(es, Comparisons(es), c);
      && (forall x :: x in ks ==> x.victim != BestIndex(es))
      && (forall x :: x in ks ==> ShouldKill(es[x.victim], es[x.against], c))
  {
    ComparisonsTestEachOtherReplicaOnce(es);
    var cs := Comparisons(es);
    forall x | x in Kills(es, cs, c) ensures x.victim != BestIndex(es) {
      var k :| 0 <= k < |cs| && cs[k] == x;
      assert x.victim in Victims(cs);
    }
  }

  /** Replicas that are all in the same phase are never killed in favour of one another,
      however far apart their estimations are. */
  lemma SamePhaseIsNeverKilled(es: seq<Estimated>, c: Fraction)
    requires |es| > 0
    requires forall i :: 0 <= i < |es| ==> es[i].statusCode == es[0].statusCode
    ensures Kills(es, Comparisons(es), c) == []
  {
    NoKillsWithinOnePhase(es, Comparisons(es), c);
  }

  lemma {:induction false} NoKillsWithinOnePhase(es: seq<Estimated>, cs: seq<Comparison>, c: Fraction)
    requires forall k :: 0 <= k < |cs| ==> cs[k].victim < |es| && cs[k].against < |es|
    requires forall i :: 0 <= i < |es| ==> es[i].statusCode == es[0].statusCode
    ensures Kills(es, cs, c) == []
  {
    if cs != [] {
      NoKillsWithinOnePhase(es, cs[..|cs| - 1], c);
      var x := cs[|cs| - 1];
      assert es[x.victim].statusCode == es[x.against].statusCode;
    }
  }

  /** doHealing's REPLICATE test on the best replica. */
  predicate ShouldReplicate(activeCount: int, failedCount: int, best: Estimated, m: Medians,
                            policy: HealingPolicy, retryCount: int)
  {
    && activeCount < policy.maxReplicas
    && failedCount < retryCount
    && QuotientAtLeast(best.estimation, m.Sum(), policy.blockedCoefficient)
  }

  // ---------------------------------------------------------------------------
  // doHealing as a function of the replicas it reads

  /** How many leading jobs have readable minor statuses; the JobPhases of the first
      one that has not throws, and doHealing stops there. */
  function ReadablePrefix(jobs: seq<Job>): (n: nat)
    ensures n <= |jobs|
    ensures forall k :: 0 <= k < n ==> jobs[k].minorStatuses.Fetched?
    ensures n < |jobs| ==> jobs[n].minorStatuses == DaoError
  {
    if jobs == [] || jobs[0].minorStatuses == DaoError then 0
    else
      var n := 1 + ReadablePrefix(jobs[1..]);
      assert forall k :: 1 <= k < |jobs| ==> jobs[k] == jobs[1..][k - 1];
      n
  }

  function EstimatedOf(job: Job, m: Medians, now: int): Estimated
    requires job.minorStatuses.Fetched?
  {
    var cps := job.minorStatuses.value;
    Estimated(Estimate(cps, m, now), StatusCode(LastReached(cps)))
  }

  /** The estimations doHealing computes for the first n jobs. */
  function EstimatesOf(jobs: seq<Job>, n: nat, m: Medians, now: int): (es: seq<Estimated>)
    requires n <= |jobs| && forall k :: 0 <= k < n ==> jobs[k].minorStatuses.Fetched?
    ensures |es| == n
  {
    seq(n, k requires 0 <= k < n => EstimatedOf(jobs[k], m, now))
  }

  function KillRequests(jobs: seq<Job>, ks: seq<Comparison>): (rs: seq<StatusRequest>)
    requires forall k :: 0 <= k < |ks| ==> ks[k].victim < |jobs|
    ensures |rs| == |ks|
  {
    seq(|ks|, k requires 0 <= k < |ks| => StatusRequest(jobs[ks[k].victim].id, KillReplica))
  }

  /** KILL_REPLICA requests, then at most one REPLICATE, last. */
  predicate KillsThenReplicate(rs: seq<StatusRequest>)
  {
    forall i :: 0 <= i < |rs| ==> rs[i].status == KillReplica || (rs[i].status == Replicate && i == |rs| - 1)
  }

  /** Every request names one of the jobs. */
  predicate NameOnly(rs: seq<StatusRequest>, jobs: seq<Job>)
  {
    forall r :: r in rs ==> exists j :: 0 <= j < |jobs| && jobs[j].id == r.jobId
  }

  /** The status requests doHealing makes for one invocation: KILL_REPLICA for the
      replicas it kills, in order, then REPLICATE for the best one if it is due. A
      failed minor-status read abandons the invocation after the kills made so far. */
  function HealingRequests(jobs: seq<Job>, failed: seq<Job>, m: Medians,
                           policy: HealingPolicy, retryCount: int, now: int): (rs: seq<StatusRequest>)
    ensures KillsThenReplicate(rs) && NameOnly(rs, jobs)
  {
    var n := ReadablePrefix(jobs);
    if n == 0 then []
    else
      var es := EstimatesOf(jobs, n, m, now);
      var kills := KillRequests(jobs, Kills(es, Comparisons(es), policy.blockedCoefficient));
      var best := BestIndex(es);
      if n == |jobs| && ShouldReplicate(|jobs|, |failed|, es[best], m, policy, retryCount)
      then kills + [StatusRequest(jobs[best].id, Replicate)]
      else kills
  }

  /** A replica whose minor statuses cannot be read ends doHealing with the kills made so far. */
  lemma HealingStopsAtUnreadable(jobs: seq<Job>, failed: seq<Job>, m: Medians,
                                 policy: HealingPolicy, retryCount: int, now: int, i: nat)
    requires i < |jobs| && jobs[i].minorStatuses == DaoError
    requires forall k :: 0 <= k < i ==> jobs[k].minorStatuses.Fetched?
    ensures i == 0 ==> HealingRequests(jobs, failed, m, policy, retryCount, now) == []
    ensures i > 0 ==> var es := EstimatesOf(jobs, i, m, now);
      HealingRequests(jobs, failed, m, policy, retryCount, now) ==
        KillRequests(jobs, Kills(es, Comparisons(es), policy.blockedCoefficient))
  {
    assert ReadablePrefix(jobs) == i;
  }

  /** At most one REPLICATE per invocation, as its last request, for the best replica; never
      when the invocation already has maxReplicas replicas or has used up its retries. */
  lemma ReplicateAtMostOnceBelowCap(jobs: seq<Job>, failed: seq<Job>, m: Medians,
                                    policy: HealingPolicy, retryCount: int, now: int)
    ensures var rs := HealingRequests(jobs, failed, m, policy, retryCount, now);
      && (forall i :: 0 <= i < |rs| && rs[i].status == Replicate ==>
            && i == |rs| - 1
            && |jobs| < policy.maxReplicas
            && |failed| < retryCount
            && ReadablePrefix(jobs) == |jobs| > 0
            && rs[i].jobId == jobs[BestIndex(EstimatesOf(jobs, |jobs|, m, now))].id)
  {
  }

  /** With every replica readable, REPLICATE is requested exactly when the best replica is
      blocked against the sum of the medians and there is room and retry budget. */
  lemma ReplicateExactlyWhenBlocked(jobs: seq<Job>, failed: seq<Job>, m: Medians,
                                    policy: HealingPolicy, retryCount: int, now: int)
    requires |jobs| > 0 && ReadablePrefix(jobs) == |jobs|
    ensures var es := EstimatesOf(jobs, |jobs|, m, now);
      var rs := HealingRequests(jobs, failed, m, policy, retryCount, now);
      (exists i :: 0 <= i < |rs| && rs[i].status == Replicate) <==>
        ShouldReplicate(|jobs|, |failed|, es[BestIndex(es)], m, policy, retryCount)
  {
    var es := EstimatesOf(jobs, |jobs|, m, now);
    var rs := HealingRequests(jobs, failed, m, policy, retryCount, now);
    var kills := KillRequests(jobs, Kills(es, Comparisons(es), policy.blockedCoefficient));
    assert forall i :: 0 <= i < |kills| ==> kills[i].status == KillReplica;
    if ShouldReplicate(|jobs|, |failed|, es[BestIndex(es)], m, policy, retryCount) {
      assert rs[|rs| - 1].status == Replicate;
    }
  }

  /** Under the built-in defaults (maxReplicas 2, blockedCoefficient 2) only an invocation
      with a single replica can be replicated: it is, exactly when it has retries left and
      its estimate is at least twice the sum of the medians. */
  lemma DefaultsReplicateOnlyALoneBlockedReplica(jobs: seq<Job>, failed: seq<Job>, m: Medians,
                                                 retryCount: int, now: int)
    requires |jobs| > 0 && ReadablePrefix(jobs) == |jobs|
    ensures var rs := HealingRequests(jobs, failed, m, DefaultPolicy, retryCount, now);
      var e := EstimatedOf(jobs[0], m, now).estimation;
      && ((exists i :: 0 <= i < |rs| && rs[i].status == Replicate) <==>
            |jobs| == 1 && |failed| < retryCount && QuotientAtLeast(e, m.Sum(), Fraction(2, 1)))
      && (m.Sum() > 0 ==> (QuotientAtLeast(e, m.Sum(), Fraction(2, 1)) <==> e >= 2 * m.Sum()))
  {
    ReplicateExactlyWhenBlocked(jobs, failed, m, DefaultPolicy, retryCount, now);
    if |jobs| == 1 {
      var es := EstimatesOf(jobs, 1, m, now);
      assert BestIndex(es) == 0;
    }
  }

  /** Every KILL_REPLICA names a readable replica other than the best one, and (for
      distinct job ids) never the best replica's id. */
  lemma KillsSpareTheBest(jobs: seq<Job>, failed: seq<Job>, m: Medians,
                          policy: HealingPolicy, retryCount: int, now: int)
    requires ReadablePrefix(jobs) > 0
    requires forall i, j :: 0 <= i < j < |jobs| ==> jobs[i].id != jobs[j].id
    ensures var n := ReadablePrefix(jobs);
      var es := EstimatesOf(jobs, n, m, now);
      var rs := HealingRequests(jobs, failed, m, policy, retryCount, now);
      forall i :: 0 <= i < |rs| && rs[i].status == KillReplica ==> rs[i].jobId != jobs[BestIndex(es)].id
  {
    var n := ReadablePrefix(jobs);
    var es := EstimatesOf(jobs, n, m, now);
    var best := BestIndex(es);
    var ks := Kills(es, Comparisons(es), policy.blockedCoefficient);
    var kills := KillRequests(jobs, ks);
    var rs := HealingRequests(jobs, failed, m, policy, retryCount, now);
    BestIsNeverKilled(es, policy.blockedCoefficient);
    assert rs == kills || rs == kills + [StatusRequest(jobs[best].id, Replicate)];
    forall i | 0 <= i < |rs| && rs[i].status == KillReplica ensures rs[i].jobId != jobs[best].id {
      assert i < |kills| && rs[i] == kills[i];
      assert ks[i] in ks;
      assert ks[i].victim != best && ks[i].victim < n;
    }
  }


  // ---------------------------------------------------------------------------
  // logTimesIfNecessary, isChangeGreaterThanPercentage, printAndUpdateStats

  function Min(a: int, b: int): int
  {
    if a <= b then a else b
  }

  /** isChangeGreaterThanPercentage: min / max < 1 - percentage / 100, in doubles. When the
      larger value is non-zero this is the relative gap between the two values, read as
      real numbers; 0 / 0 is NaN, which is below nothing. */
  function IsChangeGreaterThanPercentage(v1: int, v2: int, percentage: int): (r: bool)
    ensures Max(v1, v2) != 0 ==>
              (r <==> (Min(v1, v2) as real) / (Max(v1, v2) as real) < 1.0 - (percentage as real) / 100.0)
    ensures v1 == 0 && v2 == 0 ==> !r
  {
    QuotientBelowIsDivision(Min(v1, v2), Max(v1, v2), Fraction(100 - percentage, 100));
    QuotientBelow(Min(v1, v2), Max(v1, v2), Fraction(100 - percentage, 100))
  }

  /** A value has not drifted from itself, for any non-negative percentage. */
  lemma NoChangeFromItself(v: int, percentage: int)
    requires percentage >= 0
    ensures !IsChangeGreaterThanPercentage(v, v, percentage)
  {
    if v > 0 {
      assert v * 100 >= (100 - percentage) * v;
    } else if v < 0 {
      assert v * 100 <= (100 - percentage) * v;
    }
  }

  const StatKeys: set<string> := {"setup", "input", "execution", "output"}

  /** The shape of lastLoggedTimes: nothing logged yet, or one entry per phase. */
  predicate LoggedShape(logged: map<string, int>)
  {
    logged == map[] || logged.Keys == StatKeys
  }

  /** The map printAndUpdateStats leaves. */
  function StatsMap(m: Medians): (r: map<string, int>)
    ensures r.Keys == StatKeys && "setup" in r
  {
    map["setup" := m.setup, "input" := m.input, "execution" := m.execution, "output" := m.output]
  }

  /** Whether some current median has drifted from the logged one. */
  predicate SomeMedianDrifted(logged: map<string, int>, m: Medians, percentage: int)
    requires logged.Keys == StatKeys
  {
    || IsChangeGreaterThanPercentage(logged["setup"], m.setup, percentage)
    || IsChangeGreaterThanPercentage(logged["input"], m.input, percentage)
    || IsChangeGreaterThanPercentage(logged["execution"], m.execution, percentage)
    || IsChangeGreaterThanPercentage(logged["output"], m.output, percentage)
  }

  /** lastLoggedTimes after logTimesIfNecessary. */
  function LoggedAfter(logged: map<string, int>, m: Medians, percentage: int): (r: map<string, int>)
    requires LoggedShape(logged)
    ensures LoggedShape(r) && r != map[]
  {
    if logged == map[] then StatsMap(m)
    else if SomeMedianDrifted(logged, m, percentage) then StatsMap(m)
    else logged
  }

  /** After logTimesIfNecessary, no current median has drifted from the logged snapshot:
      either nothing had drifted, or the snapshot was refreshed to the current medians. */
  lemma LoggedSnapshotTracksMedians(logged: map<string, int>, m: Medians, percentage: int)
    requires LoggedShape(logged) && percentage >= 0
    ensures !SomeMedianDrifted(LoggedAfter(logged, m, percentage), m, percentage)
  {
    var r := LoggedAfter(logged, m, percentage);
    if r == StatsMap(m) {
      NoChangeFromItself(m.setup, percentage);
      NoChangeFromItself(m.input, percentage);
      NoChangeFromItself(m.execution, percentage);
      NoChangeFromItself(m.output, percentage);
    }
  }

  /** The snapshot is overwritten with all four medians exactly on the first call or when
      some median has drifted; otherwise it is left as it was. */
  lemma LogRefreshesExactlyOnDrift(logged: map<string, int>, m: Medians, percentage: int)
    requires LoggedShape(logged)
    ensures var r := LoggedAfter(logged, m, percentage);
      && (logged == map[] ==> r == StatsMap(m))
      && (logged != map[] && SomeMedianDrifted(logged, m, percentage) ==>
            r.Keys == StatKeys && r["setup"] == m.setup && r["input"] == m.input
            && r["execution"] == m.execution && r["output"] == m.output)
      && (logged != map[] && !SomeMedianDrifted(logged, m, percentage) ==> r == logged)
  {
  }

  /** Logging the same medians twice changes nothing the second time. */
  lemma LoggingIsIdempotent(logged: map<string, int>, m: Medians, percentage: int)
    requires LoggedShape(logged)
    ensures LoggedAfter(LoggedAfter(logged, m, percentage), m, percentage) == LoggedAfter(logged, m, percentage)
  {
    var r := LoggedAfter(logged, m, percentage);
    assert r.Keys == StatKeys;
  }

  // ---------------------------------------------------------------------------
  // replicateJobs' loop over the running jobs

  /** What getActiveJobsByInvocationID and getFailedJobsByInvocationID return for one running job. */
  datatype InvocationJobs = InvocationJobs(active: seq<Job>, failed: seq<Job>)

  /** How a tick ends: normally, with a DAOException caught by replicateJobs, or with
      getMedianValue failing on an empty sample list (an exception the source does not catch). */
  datatype TickEnd = Normal | DaoFailure | EmptySamples

  datatype TickOutcome = TickOutcome(requests: seq<StatusRequest>, end: TickEnd)

  /** The requests of the loop over the running jobs, each looked up by invocation;
      the first DAOException ends the tick, keeping the requests already made. */
  function HealInvocations(lookups: seq<Fetch<InvocationJobs>>, m: Medians,
                           policy: HealingPolicy, retryCount: int, now: int): (t: TickOutcome)
    ensures t.end != EmptySamples
  {
    if lookups == [] then TickOutcome([], Normal)
    else
      var before := HealInvocations(lookups[..|lookups| - 1], m, policy, retryCount, now);
      if before.end == DaoFailure then before
      else
        match lookups[|lookups| - 1]
        case DaoError => TickOutcome(before.requests, DaoFailure)
        case Fetched(inv) =>
          match HealingAllowed(inv.active, inv.failed)
          case DaoError => TickOutcome(before.requests, DaoFailure)
          case Fetched(can) =>
            if can then
              TickOutcome(before.requests + HealingRequests(inv.active, inv.failed, m, policy, retryCount, now), Normal)
            else before
  }

  /** Once a lookup has failed, the later running jobs are not looked at. */
  lemma {:induction false} FailureEndsTick(lookups: seq<Fetch<InvocationJobs>>, i: nat, m: Medians,
                                           policy: HealingPolicy, retryCount: int, now: int)
    requires i <= |lookups|
    requires HealInvocations(lookups[..i], m, policy, retryCount, now).end == DaoFailure
    ensures HealInvocations(lookups, m, policy, retryCount, now) == HealInvocations(lookups[..i], m, policy, retryCount, now)
  {
    if i < |lookups| {
      var p := lookups[..|lookups| - 1];
      assert p[..i] == lookups[..i];
      FailureEndsTick(p, i, m, policy, retryCount, now);
    } else {
      assert lookups[..i] == lookups;
    }
  }

  function ActiveIds(lookups: seq<Fetch<InvocationJobs>>): set<string>
  {
    set i, j | 0 <= i < |lookups| && lookups[i].Fetched? && 0 <= j < |lookups[i].value.active|
             :: lookups[i].value.active[j].id
  }

  /** A tick only requests status changes for jobs some invocation lookup returned as active:
      decisions never reach outside the invocations it looked at. */
  lemma {:induction false} TickTouchesOnlyActiveJobs(lookups: seq<Fetch<InvocationJobs>>, m: Medians,
                                                     policy: HealingPolicy, retryCount: int, now: int)
    ensures forall r :: r in HealInvocations(lookups, m, policy, retryCount, now).requests ==> r.jobId in ActiveIds(lookups)
  {
    if lookups != [] {
      var p := lookups[..|lookups| - 1];
      TickTouchesOnlyActiveJobs(p, m, policy, retryCount, now);
      assert ActiveIds(p) <= ActiveIds(lookups) by {
        forall i | 0 <= i < |p| ensures p[i] == lookups[i] { }
      }
      var last := lookups[|lookups| - 1];
      if last.Fetched? {
        var inv := last.value;
        forall r | r in HealingRequests(inv.active, inv.failed, m, policy, retryCount, now)
          ensures r.jobId in ActiveIds(lookups)
        {
          var j :| 0 <= j < |inv.active| && inv.active[j].id == r.jobId;
          assert lookups[|lookups| - 1].value.active[j].id == r.jobId;
        }
      }
    }
  }
}
