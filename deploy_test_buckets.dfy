/**
 * The provisioner: a fixed list of three bucket specifications, each created
 * (an "already owned by you" answer counts as success) and then given one of
 * three public-access-block postures.
 *
 * The remote account is a value, a map from bucket name to `Bucket`, that every
 * provider call transforms. What the provider answers to each call is an input
 * (`Answers`, one per specification).
 */
module Provision {
  import opened Wrappers
  import opened PublicAccess

  /** The three postures: the source's "full", "partial" and "none". */
  datatype Policy = Full | Partial | NoBlock

  datatype BucketSpec = BucketSpec(name: string, policy: Policy)

  const COMPLIANT_PREFIX: string := "grce-audit-compliant"
  const NO_BLOCK_PREFIX: string := "grce-audit-no-block"
  const PARTIAL_PREFIX: string := "grce-audit-partial"

  /** Every bucket name is a fixed prefix, a dash and the account id. */
  function BucketName(prefix: string, accountId: string): string {
    prefix + "-" + accountId
  }

  /** Splits a name built with `prefix` back into its account id. */
  function AccountOf(name: string, prefix: string): Option<string> {
    if |name| > |prefix| && name[..|prefix|] == prefix && name[|prefix|] == '-'
    then Some(name[|prefix| + 1..])
    else None
  }

  /** The account id can be recovered from every name `BucketName` builds. */
  lemma NameRoundTrip(prefix: string, accountId: string)
    ensures AccountOf(BucketName(prefix, accountId), prefix) == Some(accountId)
  {
    var name := BucketName(prefix, accountId);
    assert name[..|prefix|] == prefix;
    assert name[|prefix| + 1..] == accountId;
  }

  /** The literal list of buckets to deploy, in processing order. */
  function DeploySpecs(accountId: string): (specs: seq<BucketSpec>)
    ensures |specs| == 3
    ensures AccountOf(specs[0].name, COMPLIANT_PREFIX) == Some(accountId) && specs[0].policy == Full
    ensures AccountOf(specs[1].name, NO_BLOCK_PREFIX) == Some(accountId) && specs[1].policy == NoBlock
    ensures AccountOf(specs[2].name, PARTIAL_PREFIX) == Some(accountId) && specs[2].policy == Partial
  {
    NameRoundTrip(COMPLIANT_PREFIX, accountId);
    NameRoundTrip(NO_BLOCK_PREFIX, accountId);
    NameRoundTrip(PARTIAL_PREFIX, accountId);
    [BucketSpec(BucketName(COMPLIANT_PREFIX, accountId), Full),
     BucketSpec(BucketName(NO_BLOCK_PREFIX, accountId), NoBlock),
     BucketSpec(BucketName(PARTIAL_PREFIX, accountId), Partial)]
  }

  predicate DistinctNames(specs: seq<BucketSpec>) {
    forall i, j :: 0 <= i < j < |specs| ==> specs[i].name != specs[j].name
  }

  /** The three deployed buckets are three different buckets, whatever the account id. */
  lemma DeploySpecsDistinct(accountId: string)
    ensures DistinctNames(DeploySpecs(accountId))
  {
    var specs := DeploySpecs(accountId);
    // the prefixes first differ at position 11: 'c', 'n', 'p'
    assert specs[0].name[11] == 'c';
    assert specs[1].name[11] == 'n';
    assert specs[2].name[11] == 'p';
  }

  // ---------------------------------------------------------------- the remote side

  /** The provider's default region, the one that takes a bare create request. */
  const DEFAULT_REGION: string := "us-east-1"

  datatype CreateRequest = CreateRequest(bucket: string, locationConstraint: Option<string>)

  /** The region a bucket created by `req` lands in. */
  function RegionOf(req: CreateRequest): string {
    req.locationConstraint.GetOr(DEFAULT_REGION)
  }

  /** A request whose location constraint does not name the default region, the
      one form of constraint the provider refuses. The create answers are inputs,
      so this is a fact about the request, not a provider decision. */
  predicate Accepted(req: CreateRequest) {
    req.locationConstraint != Some(DEFAULT_REGION)
  }

  /** The create request the provisioner sends for `name` in `region`. */
  function CreateRequestFor(name: string, region: string): (req: CreateRequest)
    ensures req.bucket == name
    ensures req.locationConstraint.None? <==> region == DEFAULT_REGION
    ensures req.locationConstraint.Some? ==> req.locationConstraint.value == region
    ensures Accepted(req) && RegionOf(req) == region
  {
    if region == DEFAULT_REGION then CreateRequest(name, None)
    else CreateRequest(name, Some(region))
  }

  datatype Bucket = Bucket(region: string, block: Option<PabFlags>, encryption: Option<string>)

  /** Bucket name to bucket, for every bucket of the account. */
  type Remote = map<string, Bucket>

  /** The public-access block and encryption the provider gives a new bucket. */
  datatype Defaults = Defaults(block: Option<PabFlags>, encryption: Option<string>)

  function Entry(r: Remote, name: string): Option<Bucket> {
    if name in r then Some(r[name]) else None
  }

  /** The public-access block bucket `name` has once a create for it has gone
      through: its own, or the provider's default for a new bucket. */
  function BlockBefore(r: Remote, name: string, d: Defaults): Option<PabFlags> {
    if name in r then r[name].block else d.block
  }

  /** A "none" policy reaches its posture when the delete goes through, or when
      there is nothing to delete (the swallowed error of a missing configuration). */
  predicate DeleteLeavesNoBlock(r: Remote, spec: BucketSpec, ans: Answers, d: Defaults) {
    spec.policy == NoBlock ==> ans.delete == Ok || BlockBefore(r, spec.name, d) == None
  }

  /** A create that the provider answers with success or "already owned by
      you": afterwards the bucket exists, and an existing bucket is untouched. */
  function CreateEffect(r: Remote, req: CreateRequest, d: Defaults): (r': Remote)
    ensures req.bucket in r'
    ensures forall k :: k != req.bucket ==> Entry(r', k) == Entry(r, k)
  {
    if req.bucket in r then r
    else r[req.bucket := Bucket(RegionOf(req), d.block, d.encryption)]
  }

  /** A successful put: the bucket now holds the settings the dictionary describes. */
  function PutEffect(r: Remote, name: string, config: BlockConfig): (r': Remote)
    requires name in r
    ensures name in r'
    ensures forall k :: k != name ==> Entry(r', k) == Entry(r, k)
  {
    r[name := r[name].(block := Some(FlagsOf(config)))]
  }

  /** A successful delete: the bucket no longer has a public-access block. */
  function DeleteEffect(r: Remote, name: string): (r': Remote)
    requires name in r
    ensures name in r'
    ensures forall k :: k != name ==> Entry(r', k) == Entry(r, k)
  {
    r[name := r[name].(block := None)]
  }

  /** The provider's answer to a create: success, the caught "already owned by
      you" error, or any other error, which the source does not catch. */
  datatype CreateAnswer = Created | AlreadyOwnedByYou | CreateRejected

  datatype Reply = Ok | Failed

  /** What the provider answers to the calls made for one specification. */
  datatype Answers = Answers(create: CreateAnswer, put: Reply, delete: Reply)

  datatype Call =
    | CreateCall(request: CreateRequest)
    | PutCall(bucket: string, config: BlockConfig)
    | DeleteCall(bucket: string)

  const FULL_BLOCK: PabFlags := PabFlags(true, true, true, true)
  const PARTIAL_BLOCK: PabFlags := PabFlags(true, false, false, false)

  /** The posture each policy is meant to leave: all four settings, only
      BlockPublicAcls, or no configuration at all. */
  function PolicyFlags(p: Policy): Option<PabFlags> {
    match p
    case Full => Some(FULL_BLOCK)
    case Partial => Some(PARTIAL_BLOCK)
    case NoBlock => None
  }

  /** The second call a policy issues once the bucket exists. */
  function PolicyCall(spec: BucketSpec): Call {
    match spec.policy
    case Full => PutCall(spec.name, ConfigOf(FULL_BLOCK))
    case Partial => PutCall(spec.name, ConfigOf(PARTIAL_BLOCK))
    case NoBlock => DeleteCall(spec.name)
  }

  /** Bucket `after` has the posture `spec` asks for, and otherwise is the bucket
      `before` was, or a new bucket in `region` with the provider's defaults. */
  predicate Settled(after: Option<Bucket>, before: Option<Bucket>, spec: BucketSpec, region: string, d: Defaults) {
    && after.Some?
    && after.value.block == PolicyFlags(spec.policy)
    && (before.Some? ==> after.value.region == before.value.region && after.value.encryption == before.value.encryption)
    && (before.None? ==> after.value.region == region && after.value.encryption == d.encryption)
  }

  datatype Step = Step(remote: Remote, calls: seq<Call>, ok: bool)

  /** The two steps for one specification. */
  function ProvisionBucket(r: Remote, spec: BucketSpec, ans: Answers, region: string, d: Defaults): (s: Step)
    // only an uncaught create error or a failed put stops the run; a failed delete is swallowed
    ensures s.ok <==> ans.create != CreateRejected && (spec.policy == NoBlock || ans.put == Ok)
    // the calls: the create request, then the policy's call unless the create raised
    ensures s.calls == if ans.create == CreateRejected then [CreateCall(CreateRequestFor(spec.name, region))]
                       else [CreateCall(CreateRequestFor(spec.name, region)), PolicyCall(spec)]
    ensures ans.create != CreateRejected ==> spec.name in s.remote
    ensures s.ok && DeleteLeavesNoBlock(r, spec, ans, d) ==>
      Settled(Entry(s.remote, spec.name), Entry(r, spec.name), spec, region, d)
    // no other bucket is touched
    ensures forall k :: k != spec.name ==> Entry(s.remote, k) == Entry(r, k)
    // a bucket that already has its posture is left exactly as it is
    ensures spec.name in r && r[spec.name].block == PolicyFlags(spec.policy) ==> s.remote == r
  {
    FlagsOfConfigOf(FULL_BLOCK);
    FlagsOfConfigOf(PARTIAL_BLOCK);
    var req := CreateRequestFor(spec.name, region);
    if ans.create == CreateRejected then Step(r, [CreateCall(req)], false)
    else
      var r1 := CreateEffect(r, req, d);
      var calls := [CreateCall(req), PolicyCall(spec)];
      match spec.policy
      case Full =>
        Step(if ans.put == Ok then PutEffect(r1, spec.name, ConfigOf(FULL_BLOCK)) else r1, calls, ans.put == Ok)
      case Partial =>
        Step(if ans.put == Ok then PutEffect(r1, spec.name, ConfigOf(PARTIAL_BLOCK)) else r1, calls, ans.put == Ok)
      case NoBlock =>
        Step(if ans.delete == Ok then DeleteEffect(r1, spec.name) else r1, calls, true)
  }

  /** "Already owned by you" does not stop the bucket's processing: it goes on
      exactly as after a fresh create, policy call included. */
  lemma AlreadyOwnedContinues(r: Remote, spec: BucketSpec, ans: Answers, region: string, d: Defaults)
    requires ans.create == AlreadyOwnedByYou
    ensures ProvisionBucket(r, spec, ans, region, d) == ProvisionBucket(r, spec, ans.(create := Created), region, d)
    ensures ProvisionBucket(r, spec, ans, region, d).calls[1] == PolicyCall(spec)
  {
  }

  datatype RunOutcome = Completed | RunAborted(index: nat)

  datatype Trace = Trace(remote: Remote, calls: seq<Call>, outcome: RunOutcome)

  /** The specifications processed one after another, from `r0`, until one of
      them raises. */
  function Run(r0: Remote, specs: seq<BucketSpec>, answers: seq<Answers>, region: string, d: Defaults): (t: Trace)
    requires |answers| == |specs|
    ensures t.outcome.RunAborted? ==> t.outcome.index < |specs|
    decreases |specs|
  {
    if |specs| == 0 then Trace(r0, [], Completed)
    else
      var n := |specs| - 1;
      var t := Run(r0, specs[..n], answers[..n], region, d);
      if t.outcome.RunAborted? then t
      else
        var s := ProvisionBucket(t.remote, specs[n], answers[n], region, d);
        Trace(s.remote, t.calls + s.calls, if s.ok then Completed else RunAborted(n))
  }

  /** How many specifications the run reached. */
  function Reached(t: Trace, n: nat): nat {
    if t.outcome.RunAborted? then t.outcome.index + 1 else n
  }

  /** Once a prefix of the run has aborted, the later specifications change nothing. */
  lemma {:induction false} AbortPersists(r0: Remote, specs: seq<BucketSpec>, answers: seq<Answers>,
                                         region: string, d: Defaults, k: nat)
    requires |answers| == |specs| && k <= |specs|
    requires Run(r0, specs[..k], answers[..k], region, d).outcome.RunAborted?
    ensures Run(r0, specs, answers, region, d) == Run(r0, specs[..k], answers[..k], region, d)
    decreases |specs|
  {
    if k < |specs| {
      var n := |specs| - 1;
      assert specs[..n][..k] == specs[..k];
      assert answers[..n][..k] == answers[..k];
      AbortPersists(r0, specs[..n], answers[..n], region, d, k);
    } else {
      assert specs[..k] == specs;
      assert answers[..k] == answers;
    }
  }

  /** The create requests, in the order they were sent. */
  function Creates(calls: seq<Call>): seq<CreateRequest> {
    if calls == [] then []
    else (if calls[0].CreateCall? then [calls[0].request] else []) + Creates(calls[1..])
  }

  lemma {:induction false} CreatesAppend(a: seq<Call>, b: seq<Call>)
    ensures Creates(a + b) == Creates(a) + Creates(b)
  {
    if a != [] {
      assert (a + b)[1..] == a[1..] + b;
      CreatesAppend(a[1..], b);
    } else {
      assert a + b == b;
    }
  }

  /** One specification sends exactly one create request, for its own bucket. */
  lemma StepCreates(r: Remote, spec: BucketSpec, ans: Answers, region: string, d: Defaults)
    ensures Creates(ProvisionBucket(r, spec, ans, region, d).calls) == [CreateRequestFor(spec.name, region)]
  {
    var calls := ProvisionBucket(r, spec, ans, region, d).calls;
    assert calls[1..] == [] || calls[1..] == [PolicyCall(spec)];
    if |calls| == 2 {
      assert calls[1..][1..] == [];
      assert Creates(calls[1..]) == [];
    }
  }

  /** The buckets are processed in list order, each exactly once: the run sends
      one create request per specification it reaches, in order. */
  lemma {:induction false} RunCreatesInOrder(r0: Remote, specs: seq<BucketSpec>, answers: seq<Answers>,
                                             region: string, d: Defaults)
    requires |answers| == |specs|
    ensures var t := Run(r0, specs, answers, region, d);
      && Reached(t, |specs|) <= |specs|
      && |Creates(t.calls)| == Reached(t, |specs|)
      && forall i :: 0 <= i < Reached(t, |specs|) ==> Creates(t.calls)[i] == CreateRequestFor(specs[i].name, region)
    decreases |specs|
  {
    if |specs| > 0 {
      var n := |specs| - 1;
      var front := specs[..n];
      var t := Run(r0, front, answers[..n], region, d);
      RunCreatesInOrder(r0, front, answers[..n], region, d);
      if t.outcome.Completed? {
        var s := ProvisionBucket(t.remote, specs[n], answers[n], region, d);
        CreatesAppend(t.calls, s.calls);
        StepCreates(t.remote, specs[n], answers[n], region, d);
        var all := Creates(t.calls) + [CreateRequestFor(specs[n].name, region)];
        assert Creates(Run(r0, specs, answers, region, d).calls) == all;
        forall i | 0 <= i < |specs| ensures all[i] == CreateRequestFor(specs[i].name, region) {
          if i < n {
            assert front[i] == specs[i];
          }
        }
      } else {
        forall i | 0 <= i < Reached(t, n) ensures Creates(t.calls)[i] == CreateRequestFor(specs[i].name, region) {
          assert front[i] == specs[i];
        }
      }
    }
  }

  /** A bucket no specification names is left as it was. */
  lemma {:induction false} RunFrame(r0: Remote, specs: seq<BucketSpec>, answers: seq<Answers>,
                                    region: string, d: Defaults, k: string)
    requires |answers| == |specs|
    requires forall i :: 0 <= i < |specs| ==> specs[i].name != k
    ensures Entry(Run(r0, specs, answers, region, d).remote, k) == Entry(r0, k)
    decreases |specs|
  {
    if |specs| > 0 {
      var n := |specs| - 1;
      RunFrame(r0, specs[..n], answers[..n], region, d, k);
    }
  }

  /** Every "none" specification reaches its posture from account `r0`. */
  predicate DeletesSettle(r0: Remote, specs: seq<BucketSpec>, answers: seq<Answers>, d: Defaults)
    requires |answers| == |specs|
  {
    forall i :: 0 <= i < |specs| ==> DeleteLeavesNoBlock(r0, specs[i], answers[i], d)
  }

  /** After a run that completed, every specified bucket exists with the posture
      its policy asks for (for "none" provided the delete went through or there
      was nothing to delete). */
  lemma {:induction false} RunSettles(r0: Remote, specs: seq<BucketSpec>, answers: seq<Answers>,
                                      region: string, d: Defaults, i: nat)
    requires |answers| == |specs| && i < |specs|
    requires DistinctNames(specs)
    requires Run(r0, specs, answers, region, d).outcome.Completed?
    requires DeleteLeavesNoBlock(r0, specs[i], answers[i], d)
    ensures Settled(Entry(Run(r0, specs, answers, region, d).remote, specs[i].name), Entry(r0, specs[i].name),
                    specs[i], region, d)
    decreases |specs|
  {
    var n := |specs| - 1;
    var t := Run(r0, specs[..n], answers[..n], region, d);
    if i == n {
      RunFrame(r0, specs[..n], answers[..n], region, d, specs[n].name);
    } else {
      RunSettles(r0, specs[..n], answers[..n], region, d, i);
    }
  }

  /** Re-running on buckets that already have their postures changes nothing,
      whatever the provider answers. */
  lemma {:induction false} RunFromSettled(r: Remote, specs: seq<BucketSpec>, answers: seq<Answers>,
                                          region: string, d: Defaults)
    requires |answers| == |specs|
    requires forall i :: 0 <= i < |specs| ==> specs[i].name in r && r[specs[i].name].block == PolicyFlags(specs[i].policy)
    ensures Run(r, specs, answers, region, d).remote == r
    decreases |specs|
  {
    if |specs| > 0 {
      var n := |specs| - 1;
      RunFromSettled(r, specs[..n], answers[..n], region, d);
    }
  }

  /** Running the provisioner a second time leaves the account as the first
      completed run left it. */
  lemma ReRunIdempotent(r0: Remote, specs: seq<BucketSpec>, first: seq<Answers>, second: seq<Answers>,
                        region: string, d: Defaults)
    requires |first| == |specs| && |second| == |specs|
    requires DistinctNames(specs) && DeletesSettle(r0, specs, first, d)
    requires Run(r0, specs, first, region, d).outcome.Completed?
    ensures var r1 := Run(r0, specs, first, region, d).remote;
      Run(r1, specs, second, region, d).remote == r1
  {
    var r1 := Run(r0, specs, first, region, d).remote;
    forall i | 0 <= i < |specs|
      ensures specs[i].name in r1 && r1[specs[i].name].block == PolicyFlags(specs[i].policy)
    {
      RunSettles(r0, specs, first, region, d, i);
    }
    RunFromSettled(r1, specs, second, region, d);
  }

  /** One pass of the loop: create the bucket, then apply its policy. `ok` is
      false when a call raised an exception the script does not catch. */
  method ProvisionOne(r: Remote, spec: BucketSpec, ans: Answers, region: string, d: Defaults)
    returns (after: Remote, calls: seq<Call>, ok: bool)
    ensures Step(after, calls, ok) == ProvisionBucket(r, spec, ans, region, d)
  {
    var name := spec.name;
    after := r;
    ok := true;

    // Step 1: create the bucket
    var req := CreateRequestFor(name, region);
    calls := [CreateCall(req)];
    if ans.create == CreateRejected {
      ok := false;
      return;
    }
    // Created, or BucketAlreadyOwnedByYou caught: either way the bucket is there
    after := CreateEffect(after, req, d);

    // Step 2: apply the public-access-block policy
    match spec.policy {
      case Full =>
        calls := calls + [PutCall(name, ConfigOf(FULL_BLOCK))];
        if ans.put == Failed {
          ok := false;
          return;
        }
        after := PutEffect(after, name, ConfigOf(FULL_BLOCK));
      case Partial =>
        calls := calls + [PutCall(name, ConfigOf(PARTIAL_BLOCK))];
        if ans.put == Failed {
          ok := false;
          return;
        }
        after := PutEffect(after, name, ConfigOf(PARTIAL_BLOCK));
      case NoBlock =>
        calls := calls + [DeleteCall(name)];
        if ans.delete == Ok {
          after := DeleteEffect(after, name);
        }
        // a failed delete is swallowed
    }
  }

  /** The provisioning script: create each listed bucket, then apply its
      public-access-block policy; an uncaught error ends the run. */
  method DeployTestBuckets(accountId: string, region: string, answers: seq<Answers>, before: Remote, defaults: Defaults)
    returns (after: Remote, calls: seq<Call>, outcome: RunOutcome)
    requires |answers| == 3
    ensures Trace(after, calls, outcome) == Run(before, DeploySpecs(accountId), answers, region, defaults)
    ensures outcome.Completed? && DeletesSettle(before, DeploySpecs(accountId), answers, defaults) ==>
      forall i :: 0 <= i < 3 ==>
        var name := DeploySpecs(accountId)[i].name;
        name in after && after[name].block == PolicyFlags(DeploySpecs(accountId)[i].policy)
  {
    var specs := DeploySpecs(accountId);
    after, calls, outcome := before, [], Completed;
    var i := 0;
    while i < |specs|
      invariant 0 <= i <= |specs|
      invariant Trace(after, calls, Completed) == Run(before, specs[..i], answers[..i], region, defaults)
    {
      assert specs[..i + 1][..i] == specs[..i];
      assert answers[..i + 1][..i] == answers[..i];
      var ok;
      var stepCalls;
      after, stepCalls, ok := ProvisionOne(after, specs[i], answers[i], region, defaults);
      calls := calls + stepCalls;
      if !ok {
        outcome := RunAborted(i);
        AbortPersists(before, specs, answers, region, defaults, i + 1);
        return;
      }
      i := i + 1;
    }
    assert specs[..i] == specs;
    assert answers[..i] == answers;
    if DeletesSettle(before, specs, answers, defaults) {
      DeploySpecsDistinct(accountId);
      forall j | 0 <= j < 3
        ensures specs[j].name in after && after[specs[j].name].block == PolicyFlags(specs[j].policy)
      {
        RunSettles(before, specs, answers, region, defaults, j);
      }
    }
  }
}
