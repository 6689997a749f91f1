/**
 * The contract the two scripts share: a bucket the provisioner set up with a
 * policy is classified by the auditor as the provisioner's docstring promises
 * (full: PASS, none: FAIL, partial: WARN).
 */
module EndToEnd {
  import opened Wrappers
  import opened PublicAccess
  import opened Audit
  import opened Provision

  /** What the encryption read returns for a bucket with this encryption setting. */
  function EncryptionResponse(e: Option<string>): EncResponse {
    match e
    case None => EncClientError
    case Some(algorithm) => EncReturned([EncRule(Some(algorithm))])
  }

  /** What the public-access-block read returns for a bucket with this block. */
  function BlockResponse(b: Option<PabFlags>): PabResponse {
    match b
    case None => PabClientError
    case Some(f) => PabReturned(ConfigOf(f))
  }

  /** The auditor's two reads of bucket `name` in account `r`; a missing bucket
      answers both with a client error. */
  function Observe(r: Remote, name: string): Observation {
    if name in r then Observation(name, EncryptionResponse(r[name].encryption), BlockResponse(r[name].block))
    else Observation(name, EncClientError, PabClientError)
  }

  /** The auditor's reads of the named buckets, in order. */
  function Survey(r: Remote, names: seq<string>): (obs: seq<Observation>)
    ensures |obs| == |names|
    ensures forall i :: 0 <= i < |names| ==> obs[i] == Observe(r, names[i])
  {
    seq(|names|, i requires 0 <= i < |names| => Observe(r, names[i]))
  }

  /** The verdict the provisioner's docstring announces for each policy. */
  function IntendedVerdict(p: Policy): Verdict {
    match p
    case Full => Pass
    case Partial => Warn
    case NoBlock => Fail
  }

  /** The posture each policy is meant to leave is classified as announced. */
  lemma PolicyGetsIntendedVerdict(p: Policy)
    ensures PublicAccessCheck(BlockResponse(PolicyFlags(p))) == Judged(IntendedVerdict(p))
  {
    match p
    case Full =>
      assert forall i :: 0 <= i < |FLAG_KEYS| ==> FLAG_KEYS[i] in ConfigOf(FULL_BLOCK) && ConfigOf(FULL_BLOCK)[FLAG_KEYS[i]];
    case Partial =>
      assert !ConfigOf(PARTIAL_BLOCK)[FLAG_KEYS[1]];
    case NoBlock =>
  }

  /** After a completed provisioning run, auditing any specified bucket gives
      the verdict its policy announces, and encryption is as before the run or
      the provider's default for a new bucket. */
  lemma ProvisionedBucketsAuditAsIntended(r0: Remote, specs: seq<BucketSpec>, answers: seq<Answers>,
                                          region: string, d: Defaults, i: nat)
    requires |answers| == |specs| && i < |specs|
    requires DistinctNames(specs) && DeletesSettle(r0, specs, answers, d)
    requires Run(r0, specs, answers, region, d).outcome.Completed?
    ensures var o := Observe(Run(r0, specs, answers, region, d).remote, specs[i].name);
      && PublicAccessCheck(o.publicAccess) == Judged(IntendedVerdict(specs[i].policy))
      && o.encryption == EncryptionResponse(if specs[i].name in r0 then r0[specs[i].name].encryption else d.encryption)
  {
    RunSettles(r0, specs, answers, region, d, i);
    PolicyGetsIntendedVerdict(specs[i].policy);
  }

  /** A "none" bucket whose delete raised because it had no configuration (the
      swallowed error) still audits as FAIL, and the run goes on. */
  lemma SwallowedDeleteStillFails(r: Remote, spec: BucketSpec, ans: Answers, region: string, d: Defaults)
    requires spec.policy == NoBlock && ans.create != CreateRejected && ans.delete == Failed
    requires BlockBefore(r, spec.name, d) == None
    ensures var s := ProvisionBucket(r, spec, ans, region, d);
      s.ok && PublicAccessCheck(Observe(s.remote, spec.name).publicAccess) == Judged(Fail)
  {
  }

  /** The end-to-end scenario: the three test buckets deployed into an account
      that had none of them, then audited. The block verdicts are PASS, FAIL and
      WARN; encryption passes on all three exactly when the provider encrypts
      new buckets by default; and only the fully blocked bucket can count, so
      the summary is "0 of 3" without default encryption and "1 of 3" with it. */
  lemma DeployThenAudit(accountId: string, region: string, answers: seq<Answers>, before: Remote, d: Defaults)
    requires |answers| == 3
    requires Run(before, DeploySpecs(accountId), answers, region, d).outcome.Completed?
    requires DeletesSettle(before, DeploySpecs(accountId), answers, d)
    requires forall i :: 0 <= i < 3 ==> DeploySpecs(accountId)[i].name !in before
    ensures var specs := DeploySpecs(accountId);
      var obs := Survey(Run(before, specs, answers, region, d).remote, [specs[0].name, specs[1].name, specs[2].name]);
      var enc := if d.encryption.Some? then Pass else Fail;
      && (forall i :: 0 <= i < 3 ==> !Raises(obs[i]))
      && ReportOf(obs[0]) == Report(specs[0].name, enc, Pass, d.encryption.Some?)
      && ReportOf(obs[1]) == Report(specs[1].name, enc, Fail, false)
      && ReportOf(obs[2]) == Report(specs[2].name, enc, Warn, false)
      && CountCompliant(obs) == (if d.encryption.Some? then 1 else 0)
  {
    var specs := DeploySpecs(accountId);
    DeploySpecsDistinct(accountId);
    var r1 := Run(before, specs, answers, region, d).remote;
    ProvisionedBucketsAuditAsIntended(before, specs, answers, region, d, 0);
    ProvisionedBucketsAuditAsIntended(before, specs, answers, region, d, 1);
    ProvisionedBucketsAuditAsIntended(before, specs, answers, region, d, 2);
    ThreeBucketSummary(Survey(r1, [specs[0].name, specs[1].name, specs[2].name]), d.encryption);
  }

  /** The audit of three buckets that share an encryption setting and whose
      block verdicts are PASS, FAIL and WARN. */
  lemma ThreeBucketSummary(obs: seq<Observation>, e: Option<string>)
    requires |obs| == 3
    requires forall i :: 0 <= i < 3 ==> obs[i].encryption == EncryptionResponse(e)
    requires PublicAccessCheck(obs[0].publicAccess) == Judged(Pass)
    requires PublicAccessCheck(obs[1].publicAccess) == Judged(Fail)
    requires PublicAccessCheck(obs[2].publicAccess) == Judged(Warn)
    ensures var enc := if e.Some? then Pass else Fail;
      && (forall i :: 0 <= i < 3 ==> !Raises(obs[i]))
      && ReportOf(obs[0]) == Report(obs[0].name, enc, Pass, e.Some?)
      && ReportOf(obs[1]) == Report(obs[1].name, enc, Fail, false)
      && ReportOf(obs[2]) == Report(obs[2].name, enc, Warn, false)
      && CountCompliant(obs) == (if e.Some? then 1 else 0)
  {
    assert obs[..1][..0] == [];
    assert obs[..2][..1] == obs[..1];
    assert obs[..3][..2] == obs[..2];
    assert obs[..3] == obs;
    assert CountCompliant(obs[..1]) == (if FullyCompliant(obs[0]) then 1 else 0);
    assert CountCompliant(obs[..2]) == CountCompliant(obs[..1]);
  }
}
