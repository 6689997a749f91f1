/**
 * The public-access-block (PAB) configuration of an S3 bucket: four independent
 * boolean settings. The provisioner sends it as a dictionary keyed by setting
 * name, the provider keeps the four booleans, and the auditor reads a
 * dictionary back.
 */
module PublicAccess {

  datatype PabFlags = PabFlags(
    blockPublicAcls: bool,
    ignorePublicAcls: bool,
    blockPublicPolicy: bool,
    restrictPublicBuckets: bool)

  /** A configuration as it travels in a request or a response. */
  type BlockConfig = map<string, bool>

  /** The four setting names, in the order both scripts list them. */
  const FLAG_KEYS: seq<string> :=
    ["BlockPublicAcls", "IgnorePublicAcls", "BlockPublicPolicy", "RestrictPublicBuckets"]

  /** `config.get(key, False)`: a setting missing from the dictionary reads as false. */
  function Setting(config: BlockConfig, key: string): bool {
    if key in config then config[key] else false
  }

  /** The dictionary that carries `f` in a put request or a get response. */
  function ConfigOf(f: PabFlags): (config: BlockConfig)
    ensures config.Keys == set i | 0 <= i < |FLAG_KEYS| :: FLAG_KEYS[i]
  {
    map[FLAG_KEYS[0] := f.blockPublicAcls,
        FLAG_KEYS[1] := f.ignorePublicAcls,
        FLAG_KEYS[2] := f.blockPublicPolicy,
        FLAG_KEYS[3] := f.restrictPublicBuckets]
  }

  /** The four settings a dictionary describes, each missing key counting as false. */
  function FlagsOf(config: BlockConfig): PabFlags {
    PabFlags(Setting(config, FLAG_KEYS[0]), Setting(config, FLAG_KEYS[1]),
             Setting(config, FLAG_KEYS[2]), Setting(config, FLAG_KEYS[3]))
  }

  /** Sending a configuration and reading it back loses nothing. */
  lemma FlagsOfConfigOf(f: PabFlags)
    ensures FlagsOf(ConfigOf(f)) == f
  {
  }
}
