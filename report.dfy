/**
 * The statistics aggregator (`ReportServiceImpl.getStatistics`): counts by
 * status over the list `findAll()` returns, and the success rate.
 *
 * The rate is a Java `double`; here it is an exact `real`.
 */
module Report {
  import opened Wrappers
  import opened Status
  import opened Entity
  import opened EmailStore

  /** `EmailStatisticsResponse`. */
  datatype Statistics = Statistics(
    totalEmails: nat,
    totalSent: nat,
    totalFailed: nat,
    totalQueued: nat,
    successRate: real)

  /** `all.stream().filter(e -> e.getStatus() == s).count()`; a null status matches no `s`. */
  function CountStatus(all: seq<EmailRow>, s: EmailStatus): (n: nat)
    ensures n <= |all|
  {
    if all == [] then 0
    else (if all[0].status == Some(s) then 1 else 0) + CountStatus(all[1..], s)
  }

  /** The statuses of the records, in order. */
  function Statuses(all: seq<EmailRow>): seq<Option<EmailStatus>>
  {
    seq(|all|, i requires 0 <= i < |all| => all[i].status)
  }

  /** Each count is the number of records carrying exactly that status. */
  lemma {:induction false} CountIsMultiplicity(all: seq<EmailRow>, s: EmailStatus)
    ensures CountStatus(all, s) == multiset(Statuses(all))[Some(s)]
  {
    if all != [] {
      CountIsMultiplicity(all[1..], s);
      assert Statuses(all) == [all[0].status] + Statuses(all[1..]);
    }
  }

  /** The three named buckets are disjoint, so together they never exceed the total. */
  lemma {:induction false} BucketsWithinTotal(all: seq<EmailRow>)
    ensures CountStatus(all, Sent) + CountStatus(all, Failed) + CountStatus(all, Queued) <= |all|
  {
    if all != [] {
      BucketsWithinTotal(all[1..]);
    }
  }

  /** Records whose status is null or a further constant fall only in the total. */
  predicate InNamedBucket(r: EmailRow)
  {
    r.status == Some(Sent) || r.status == Some(Failed) || r.status == Some(Queued)
  }

  /** The buckets add up to the total exactly when every record is SENT, FAILED or QUEUED. */
  lemma {:induction false} BucketsCoverTotal(all: seq<EmailRow>)
    ensures CountStatus(all, Sent) + CountStatus(all, Failed) + CountStatus(all, Queued) == |all|
      <==> forall i :: 0 <= i < |all| ==> InNamedBucket(all[i])
  {
    if all != [] {
      BucketsCoverTotal(all[1..]);
      BucketsWithinTotal(all[1..]);
      if forall i :: 0 <= i < |all[1..]| ==> InNamedBucket(all[1..][i]) {
        assert InNamedBucket(all[0]) ==> forall i :: 0 <= i < |all| ==> InNamedBucket(all[i]) by {
          if InNamedBucket(all[0]) {
            forall i | 0 <= i < |all| ensures InNamedBucket(all[i]) {
              if i > 0 { assert all[i] == all[1..][i - 1]; }
            }
          }
        }
      } else {
        var j :| 0 <= j < |all[1..]| && !InNamedBucket(all[1..][j]);
        assert !InNamedBucket(all[j + 1]);
      }
    }
  }

  /**
   * `total == 0 ? 0.0 : (sent * 100.0) / total`: the percentage of records
   * sent, which is 0 for an empty store and never leaves [0, 100].
   */
  function SuccessRate(sent: nat, total: nat): (rate: real)
    requires sent <= total
    ensures 0.0 <= rate <= 100.0
    ensures total == 0 ==> rate == 0.0
    ensures total > 0 && sent == total ==> rate == 100.0
    ensures total > 0 ==> rate * (total as real) == (sent as real) * 100.0
  {
    if total == 0 then 0.0
    else
      var t := total as real;
      assert (sent as real * 100.0) / t <= (t * 100.0) / t;
      (sent as real * 100.0) / t
  }

  /** `getStatistics()` over the list `all` that `findAll()` returned. */
  function GetStatistics(all: seq<EmailRow>): (st: Statistics)
    ensures st.totalEmails == |all|
    ensures st.totalSent == CountStatus(all, Sent)
    ensures st.totalFailed == CountStatus(all, Failed)
    ensures st.totalQueued == CountStatus(all, Queued)
    ensures st.totalSent + st.totalFailed + st.totalQueued <= st.totalEmails
    ensures st.successRate == SuccessRate(st.totalSent, st.totalEmails)
  {
    var sent := CountStatus(all, Sent);
    BucketsWithinTotal(all);
    Statistics(|all|, sent, CountStatus(all, Failed), CountStatus(all, Queued), SuccessRate(sent, |all|))
  }

  /** Over the list `findAll()` returns, the total is the number of stored records and the buckets stay within it. */
  lemma StatisticsOfStore(repo: EmailRepository)
    requires repo.Valid()
    ensures var st := GetStatistics(repo.FindAll());
      && st.totalEmails == |repo.rows|
      && st.totalSent + st.totalFailed + st.totalQueued <= |repo.rows|
  {
  }

  /** The figures the report's unit tests expect: 60.0, 100.0 and 0 for no records. */
  lemma StatisticsExamples(r: EmailRow)
    ensures var sent, failed, queued := r.(status := Some(Sent)), r.(status := Some(Failed)), r.(status := Some(Queued));
      && GetStatistics([sent, sent, sent, failed, queued]) == Statistics(5, 3, 1, 1, 60.0)
      && GetStatistics([sent, sent]).successRate == 100.0
      && GetStatistics([]) == Statistics(0, 0, 0, 0, 0.0)
  {
    var sent, failed, queued := r.(status := Some(Sent)), r.(status := Some(Failed)), r.(status := Some(Queued));
    var s1 := [queued];
    var s2 := [failed] + s1;
    var s3 := [sent] + s2;
    var s4 := [sent] + s3;
    var five := [sent] + s4;
    assert s1[1..] == [] && s2[1..] == s1 && s3[1..] == s2 && s4[1..] == s3 && five[1..] == s4;
    assert CountStatus(s1, Sent) == 0 && CountStatus(s1, Failed) == 0 && CountStatus(s1, Queued) == 1;
    assert CountStatus(s2, Sent) == 0 && CountStatus(s2, Failed) == 1 && CountStatus(s2, Queued) == 1;
    assert CountStatus(s3, Sent) == 1 && CountStatus(s3, Failed) == 1 && CountStatus(s3, Queued) == 1;
    assert CountStatus(s4, Sent) == 2 && CountStatus(s4, Failed) == 1 && CountStatus(s4, Queued) == 1;
    assert CountStatus(five, Sent) == 3 && CountStatus(five, Failed) == 1 && CountStatus(five, Queued) == 1;
    assert five == [sent, sent, sent, failed, queued];
    var two := [sent, sent];
    assert two[1..] == [sent] && [sent][1..] == [];
    assert CountStatus(two, Sent) == 2;
  }
}
