# S3 audit: a verified model of the auditor and the test-bucket provisioner

This project models the decision core of two small S3 account-hygiene scripts.

- **The auditor** (`s3_audit.py`, module `Audit` in `s3_audit.dfy`) lists the buckets of an account.
  For each one it runs two read checks. The encryption check is binary: PASS or FAIL.
  The public-access-block (PAB) check has three outcomes: PASS, WARN or FAIL.
  A running counter counts the buckets where both checks pass. The final summary is the pair
  (compliant count, total buckets).
- **The provisioner** (`deploy_test_buckets.py`, module `Provision` in `deploy_test_buckets.dfy`)
  walks a fixed list of three bucket specifications. For each one it creates the bucket and then
  applies one of three PAB policies:
  - `full` puts all four settings;
  - `partial` puts only BlockPublicAcls;
  - `none` deletes the configuration, and any error from the delete is ignored.

Two modules are shared. `PublicAccess` (`public_access.dfy`) holds the four PAB settings and the
dictionary that carries them. `Wrappers` (`wrappers.dfy`) holds `Option`. The module `EndToEnd`
(`end_to_end.dfy`) connects the two scripts: a bucket provisioned with a policy is audited with the
verdict the provisioner's docstring announces (full: PASS, none: FAIL, partial: WARN).

How the provider is modelled:

- Nothing calls a network. What the provider answers is an input.
  - For the auditor, an `Observation` holds what the two reads return for one listed bucket:
    a configuration, a `ClientError`, or any other exception.
  - For the provisioner, an `Answers` value per specification holds the answers to create, put and delete.
- The account the provisioner changes is a value: a map from bucket name to `Bucket` (region,
  PAB settings, encryption). The loop threads this map through, step by step. `CreateEffect`,
  `PutEffect` and `DeleteEffect` are the provider's side of each call.
- An exception that a script does not catch ends that script's run. The model shows this as
  `AuditAborted(i)` or `RunAborted(i)`, where `i` is the bucket being processed. An aborted audit
  prints no summary.
- Every error boto3 reports as `ClientError` is a client error here. That includes "not
  configured", access denial, and a throttling error that reaches the script, so on the auditor's
  read calls they give FAIL.
- A `Created` answer and a caught `BucketAlreadyOwnedByYou` answer have the same effect: afterwards
  the bucket exists, and a bucket that already existed is left unchanged.
- Whatever public-access block and encryption the provider gives a new bucket is a parameter
  (`Defaults`).

Two behaviours of the auditor are worth stating outright:

- **Encryption check.** Only `Rules[0]` is read (s3_audit.py:48). If the rule list is empty, or
  the first rule has no default algorithm, the lookup raises an exception that is not a
  `ClientError`, and the audit ends, even if a later rule has an algorithm (`EncryptionCheck`).
- **Permission denial.** boto3 reports a denied read as a `ClientError`. The auditor catches it, so
  the check gives FAIL and the audit goes on.

A failed delete is ignored and leaves the bucket's block as it was. So the `none` policy reaches
"no configuration" when the delete goes through, or when there was nothing to delete: the bucket's
own block, or the provider's default block for a new bucket, is absent (`BlockBefore`). The lemmas
that promise that posture assume exactly this (`DeleteLeavesNoBlock`, `DeletesSettle`). A delete
that fails for another reason on a bucket that has a block leaves that block in place.

## Model

| member | source | states |
|---|---|---|
| `Audit.EncryptionCheck` | s3_audit.py:42-52 | Never WARN. PASS exactly when a configuration is returned whose first rule names a default algorithm. FAIL exactly on a client error. An empty rule list, a missing algorithm or any other exception ends the audit instead of giving a verdict. |
| `Audit.AllBlocked` | s3_audit.py:60-66 | True exactly when all four settings are present in the dictionary and true. A missing key counts as false. |
| `Audit.PublicAccessCheck` | s3_audit.py:54-75 | FAIL exactly on a client error. A returned configuration gives PASS or WARN, never FAIL. PASS exactly when all four settings are present and true. Only a non-`ClientError` exception gives no verdict. |
| `Audit.ReportOf` | s3_audit.py:77-79 | A bucket's report is fully compliant exactly when both verdicts are PASS, so a WARN never counts. The encryption verdict is never WARN. |
| `Audit.CountCompliant` | s3_audit.py:77-83 | The compliant count never exceeds the number of buckets. |
| `Audit.CountIsFilteredCount` | s3_audit.py:77-79 | The counter equals the number of positions whose bucket passes both checks. |
| `Audit.CountGrowsByAtMostOne` | s3_audit.py:34-79 | Between any two points of the loop the counter never decreases, and it grows by at most one per bucket. |
| `Audit.AuditBuckets` | s3_audit.py:28-83 | The loop reports every bucket in order. Each report depends on that bucket alone, because both flags start false on every pass. The run prints its summary exactly when no check raises. The summary is (the filtered count, the number of listed buckets). Otherwise the run stops at the first bucket whose check raises, having reported exactly the buckets before it. |
| `PublicAccess.ConfigOf` | deploy_test_buckets.py:84-92 | A put request's dictionary has exactly the four setting names as keys. |
| `PublicAccess.FlagsOfConfigOf` | deploy_test_buckets.py:84-106 | Sending settings as a dictionary and reading the dictionary back, missing keys as false, returns the same four settings. |
| `Provision.NameRoundTrip` | deploy_test_buckets.py:41-54 | A name built as prefix, dash, account id splits back into that prefix and account id. |
| `Provision.DeploySpecs` | deploy_test_buckets.py:41-54 | There are three specifications, in this order: "grce-audit-compliant" with policy full, "grce-audit-no-block" with policy none, "grce-audit-partial" with policy partial. Each name is its prefix, a dash and the account id. |
| `Provision.DeploySpecsDistinct` | deploy_test_buckets.py:41-54 | The three names are pairwise different for every account id. |
| `Provision.CreateRequestFor` | deploy_test_buckets.py:63-71 | The request has no LocationConstraint exactly when the region is "us-east-1". Otherwise the constraint is the region. The provider accepts the request, and the bucket lands in the configured region. |
| `Provision.ProvisionBucket` | deploy_test_buckets.py:59-117 | One specification's two steps. They stop the run exactly when the create raises an error other than "already owned", or when a put fails. A failed delete never stops the run. The calls sent are the create request, then the policy's put or delete. After a success the bucket has its policy's posture (for none, when the delete went through or there was nothing to delete). No other bucket changes. A bucket that already has its posture is left unchanged. |
| `Provision.AlreadyOwnedContinues` | deploy_test_buckets.py:64-79 | A "BucketAlreadyOwnedByYou" answer leads to the same calls and the same state as a fresh create, including the PAB call. |
| `Provision.Run` | deploy_test_buckets.py:59-117 | The run over the list aborts, if at all, at a position inside the list. |
| `Provision.AbortPersists` | deploy_test_buckets.py:59-76 | Once a bucket's processing raises, the later specifications are never processed. |
| `Provision.RunCreatesInOrder` | deploy_test_buckets.py:59-71 | The create requests sent are exactly one per specification reached, in list order, each shaped for the configured region. |
| `Provision.RunFrame` | deploy_test_buckets.py:59-117 | A bucket that no specification names is untouched. |
| `Provision.RunSettles` | deploy_test_buckets.py:81-117 | After a completed run, each specified bucket exists with its policy's posture: full (true, true, true, true), partial (true, false, false, false), none absent, the last when its delete went through or there was nothing to delete. Its region and encryption are what they were, or, for a new bucket, the configured region and the provider's default encryption. |
| `Provision.RunFromSettled` | deploy_test_buckets.py:73-117 | From an account whose buckets already have their postures, a run changes nothing, whatever the provider answers. |
| `Provision.ReRunIdempotent` | deploy_test_buckets.py:73-117 | After a completed first run in which every "none" delete went through or had nothing to delete, a second run leaves the account exactly as the first left it. |
| `Provision.ProvisionOne` | deploy_test_buckets.py:60-117 | The loop body for one bucket, step by step, computes exactly `ProvisionBucket`. |
| `Provision.DeployTestBuckets` | deploy_test_buckets.py:41-117 | The script's final account state, calls sent and outcome are those of `Run` over the three specifications. A completed run whose "none" delete went through, or had nothing to delete, leaves each of the three buckets with its policy's posture. |
| `EndToEnd.PolicyGetsIntendedVerdict` | deploy_test_buckets.py:5-8 | The posture each policy is meant to leave is classified by the auditor as announced: full PASS, partial WARN, none FAIL. |
| `EndToEnd.ProvisionedBucketsAuditAsIntended` | deploy_test_buckets.py:41-117 | After a completed provisioning run (each "none" delete went through or had nothing to delete), auditing any specified bucket gives the PAB verdict its policy announces. Its encryption read shows the bucket's earlier encryption, or the provider's default for a new bucket. |
| `EndToEnd.SwallowedDeleteStillFails` | deploy_test_buckets.py:109-117 | A "none" bucket whose delete raised because it had no configuration does not stop the run and still audits as FAIL. |
| `EndToEnd.DeployThenAudit` | deploy_test_buckets.py:3-8 | Deploying the three test buckets into an account that has none of them, then auditing them, gives PAB verdicts PASS, FAIL and WARN. Encryption is PASS on all three exactly when the provider encrypts new buckets. The summary count is 0 without default encryption and 1 with it. The "none" delete may also have raised, when new buckets get no default block. |
| `EndToEnd.ThreeBucketSummary` | s3_audit.py:34-83 | When three buckets share an encryption setting and have PAB verdicts PASS, FAIL and WARN, only the first can count. The count is 1 exactly when encryption passes, else 0. |

## Left out

- Client construction. Building the boto3 S3 and STS clients and the session, and looking up the
  ambient credentials, account id and region, are foreign calls. The account id and the region are
  parameters.
- An unset region. If `region_name` is `None`, the create call passes `None` as constraint. The
  model's region is always a string.
- Printed output. The text of the printed lines is not modelled. The auditor's per-bucket lines are
  `Report` values, and its summary is the pair (`compliant`, `total`).
- The algorithm name. The default-encryption algorithm (e.g. "AES256") is only printed, so reports
  do not carry it.
- Pagination. The listing of buckets is the given `seq` of observations, and no pagination is
  modelled. The scripts themselves retry nothing; botocore's built-in retries and timeouts are not
  modelled, and only the error that finally reaches the script is.
- Outer response keys. The model takes the keys `ServerSideEncryptionConfiguration`, `Rules` and
  `PublicAccessBlockConfiguration` as always present whenever a read returns. Only a missing first
  rule or a missing default algorithm is modelled as a failed lookup.
- Other policy strings. A `public_block` value other than the three strings would skip step 2. The
  fixed list never holds one, so `Policy` has three values.
- Provider-side validation. The provider's answer to a create is an input and does not depend on
  the request. `Accepted` (no explicit "us-east-1" constraint) is stated only as a fact about the
  requests the provisioner builds, not as a provider decision. An "already owned by you" answer for
  a bucket the map lacks records the bucket as created.
