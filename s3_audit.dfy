/**
 * The auditor: for every listed bucket, an encryption check (PASS or FAIL), a
 * public-access-block check (PASS, WARN or FAIL), and a running count of the
 * buckets for which both checks pass.
 *
 * The provider's answers are inputs: an `Observation` holds what the two read
 * calls return for one listed bucket.
 */
module Audit {
  import opened Wrappers
  import opened PublicAccess

  datatype Verdict = Pass | Warn | Fail

  /** One rule of a returned encryption configuration; `sseAlgorithm` is None
      when the rule carries no default-encryption algorithm. */
  datatype EncRule = EncRule(sseAlgorithm: Option<string>)

  /** What the encryption read returns: a configuration, a client error (the
      provider's way of saying "not configured"), or any other exception. */
  datatype EncResponse =
    | EncReturned(rules: seq<EncRule>)
    | EncClientError
    | EncOtherError

  /** What the public-access-block read returns. */
  datatype PabResponse =
    | PabReturned(config: BlockConfig)
    | PabClientError
    | PabOtherError

  datatype Observation = Observation(name: string, encryption: EncResponse, publicAccess: PabResponse)

  /** A check either reaches a verdict or raises an exception it does not catch. */
  datatype Checked = Judged(verdict: Verdict) | Raised

  /** The per-bucket result the auditor reports. */
  datatype Report = Report(name: string, encryption: Verdict, publicAccess: Verdict, fullyCompliant: bool)

  /** A run either prints its summary or stops at the bucket whose check raised. */
  datatype AuditOutcome = Summary(compliant: nat, total: nat) | AuditAborted(index: nat)

  /** The encryption check. A configuration whose first rule names a default
      algorithm passes; a client error fails; an empty rule list or a missing
      key makes the nested lookup raise an exception that is not caught. */
  function EncryptionCheck(r: EncResponse): (c: Checked)
    ensures c != Judged(Warn)
    ensures c == Judged(Pass) <==> r.EncReturned? && |r.rules| > 0 && r.rules[0].sseAlgorithm.Some?
    ensures c == Judged(Fail) <==> r.EncClientError?
  {
    match r
    case EncReturned(rules) =>
      if |rules| > 0 && rules[0].sseAlgorithm.Some? then Judged(Pass) else Raised
    case EncClientError => Judged(Fail)
    case EncOtherError => Raised
  }

  /** `all([...])` over the four settings, each read with a default of false. */
  function AllBlocked(config: BlockConfig): (b: bool)
    ensures b <==> forall i :: 0 <= i < |FLAG_KEYS| ==> FLAG_KEYS[i] in config && config[FLAG_KEYS[i]]
  {
    var b := Setting(config, FLAG_KEYS[0]) && Setting(config, FLAG_KEYS[1])
             && Setting(config, FLAG_KEYS[2]) && Setting(config, FLAG_KEYS[3]);
    assert b ==> forall i :: 0 <= i < |FLAG_KEYS| ==> FLAG_KEYS[i] in config && config[FLAG_KEYS[i]] by {
      if b {
        forall i | 0 <= i < |FLAG_KEYS| ensures FLAG_KEYS[i] in config && config[FLAG_KEYS[i]] {
          assert i == 0 || i == 1 || i == 2 || i == 3;
        }
      }
    }
    b
  }

  /** The public-access-block check. */
  function PublicAccessCheck(r: PabResponse): (c: Checked)
    ensures c == Judged(Fail) <==> r.PabClientError?
    ensures c.Raised? <==> r.PabOtherError?
    ensures r.PabReturned? ==> c == Judged(Pass) || c == Judged(Warn)
    ensures c == Judged(Pass) <==>
      r.PabReturned? && forall i :: 0 <= i < |FLAG_KEYS| ==> FLAG_KEYS[i] in r.config && r.config[FLAG_KEYS[i]]
  {
    match r
    case PabReturned(config) => if AllBlocked(config) then Judged(Pass) else Judged(Warn)
    case PabClientError => Judged(Fail)
    case PabOtherError => Raised
  }

  /** Auditing this bucket raises an uncaught exception (the encryption check
      runs first, so its exception pre-empts the second read). */
  predicate Raises(o: Observation) {
    EncryptionCheck(o.encryption).Raised? || PublicAccessCheck(o.publicAccess).Raised?
  }

  /** Both checks pass. */
  predicate FullyCompliant(o: Observation) {
    EncryptionCheck(o.encryption) == Judged(Pass) && PublicAccessCheck(o.publicAccess) == Judged(Pass)
  }

  /** The report of a bucket whose checks both reach a verdict. */
  function ReportOf(o: Observation): (r: Report)
    requires !Raises(o)
    ensures r.name == o.name
    ensures r.encryption != Warn
    ensures r.fullyCompliant <==> r.encryption == Pass && r.publicAccess == Pass
    ensures r.fullyCompliant <==> FullyCompliant(o)
  {
    Report(o.name, EncryptionCheck(o.encryption).verdict, PublicAccessCheck(o.publicAccess).verdict,
           FullyCompliant(o))
  }

  /** The number of fully compliant buckets, counted from the front of the list. */
  function CountCompliant(s: seq<Observation>): (n: nat)
    ensures n <= |s|
    decreases |s|
  {
    if |s| == 0 then 0
    else CountCompliant(s[..|s| - 1]) + (if FullyCompliant(s[|s| - 1]) then 1 else 0)
  }

  /** The positions of the fully compliant buckets. */
  ghost function CompliantPositions(s: seq<Observation>): set<int> {
    set i | 0 <= i < |s| && FullyCompliant(s[i])
  }

  /** The counter is the size of the filtered list. */
  lemma {:induction false} CountIsFilteredCount(s: seq<Observation>)
    ensures CountCompliant(s) == |CompliantPositions(s)|
    decreases |s|
  {
    if |s| > 0 {
      var n := |s| - 1;
      var front := s[..n];
      CountIsFilteredCount(front);
      var rest := if FullyCompliant(s[n]) then {n} else {};
      assert CompliantPositions(s) == CompliantPositions(front) + rest by {
        forall i ensures i in CompliantPositions(s) <==> i in CompliantPositions(front) + rest {
          if 0 <= i < n {
            assert front[i] == s[i];
          }
        }
      }
      assert n !in CompliantPositions(front);
    }
  }

  /** Between any two points of the run the counter never decreases and grows
      by at most one per bucket. */
  lemma {:induction false} CountGrowsByAtMostOne(s: seq<Observation>, j: nat, k: nat)
    requires j <= k <= |s|
    ensures CountCompliant(s[..j]) <= CountCompliant(s[..k]) <= CountCompliant(s[..j]) + (k - j)
    decreases k - j
  {
    if j < k {
      CountGrowsByAtMostOne(s, j, k - 1);
      assert s[..k][..k - 1] == s[..k - 1];
    }
  }

  /** The audit loop. Each bucket is checked with both flags starting false;
      the counter goes up only when both checks passed; an uncaught exception
      ends the run without a summary. */
  method AuditBuckets(buckets: seq<Observation>) returns (reports: seq<Report>, outcome: AuditOutcome)
    ensures outcome.Summary? <==> forall i :: 0 <= i < |buckets| ==> !Raises(buckets[i])
    ensures outcome.Summary? ==>
      outcome.compliant == CountCompliant(buckets) && outcome.total == |buckets| && |reports| == |buckets|
    ensures outcome.AuditAborted? ==>
      outcome.index < |buckets| && Raises(buckets[outcome.index]) && |reports| == outcome.index
    ensures forall i :: 0 <= i < |reports| ==> i < |buckets| && !Raises(buckets[i]) && reports[i] == ReportOf(buckets[i])
  {
    var compliantCount := 0;
    var totalBuckets := |buckets|;
    reports := [];
    var i := 0;
    while i < |buckets|
      invariant 0 <= i <= |buckets|
      invariant |reports| == i
      invariant forall j :: 0 <= j < i ==> !Raises(buckets[j]) && reports[j] == ReportOf(buckets[j])
      invariant compliantCount == CountCompliant(buckets[..i])
    {
      var bucket := buckets[i];
      var encryptionOk := false;
      var publicBlockOk := false;

      var encryption: Verdict;
      match bucket.encryption {
        case EncReturned(rules) =>
          if |rules| == 0 || rules[0].sseAlgorithm.None? {
            // the nested lookup raises IndexError or KeyError, not a ClientError
            outcome := AuditAborted(i);
            return;
          }
          encryption := Pass;
          encryptionOk := true;
        case EncClientError =>
          encryption := Fail;
        case EncOtherError =>
          outcome := AuditAborted(i);
          return;
      }

      var publicAccess: Verdict;
      match bucket.publicAccess {
        case PabReturned(config) =>
          var allBlocked := AllBlocked(config);
          if allBlocked {
            publicAccess := Pass;
            publicBlockOk := true;
          } else {
            publicAccess := Warn;
          }
        case PabClientError =>
          publicAccess := Fail;
        case PabOtherError =>
          outcome := AuditAborted(i);
          return;
      }

      if encryptionOk && publicBlockOk {
        compliantCount := compliantCount + 1;
      }
      reports := reports + [Report(bucket.name, encryption, publicAccess, encryptionOk && publicBlockOk)];
      assert buckets[..i + 1][..i] == buckets[..i];
      i := i + 1;
    }
    assert buckets[..i] == buckets;
    outcome := Summary(compliantCount, totalBuckets);
  }
}
