/**
 * The `buildTypes { release { ... } debug { ... } }` block
 * (android/app/build.gradle.kts, lines 98-122): which signing configuration
 * each build type uses, and the whole script's signing decision end to end.
 */
module BuildTypes {
  import opened Lookups
  import opened KeystoreProperties
  import opened ReleaseSigning

  /** The two build types the script configures; there is no other. */
  datatype BuildType = Release | Debug

  /** The signing configuration a build type ends up with. The debug
      configuration comes from the Android Gradle plugin and is opaque here. */
  datatype Choice = UseRelease(config: Signing) | UseDebug

  /** How the script's configuration ends: a signing configuration for each
      build type, or the exception thrown while loading `key.properties`. */
  datatype Outcome = Configured(release: Choice, debug: Choice) | LoadFailed

  /** Kotlin's `s?.isNotEmpty() == true`: non-null and non-empty. */
  predicate IsNotEmpty(s: Option<string>)
  {
    s.Some? && |s.value| > 0
  }

  /** The condition of lines 102-105 on the release configuration. */
  predicate ReleaseUsable(release: Signing)
  {
    release.storeFile.Some?
    && IsNotEmpty(release.storePassword)
    && IsNotEmpty(release.keyAlias)
    && IsNotEmpty(release.keyPassword)
  }

  /**
   * Lines 101-112 and 119-121. Release: the release configuration when its
   * store file is set and its three credentials are non-empty, the debug
   * configuration otherwise. Debug: always the debug configuration. There is
   * no third outcome and no error.
   */
  function Select(buildType: BuildType, release: Signing): (c: Choice)
    ensures c == UseRelease(release) || c == UseDebug
    ensures buildType == Debug ==> c == UseDebug
    ensures buildType == Release ==>
      (c.UseRelease? <==>
        release.storeFile.Some?
        && release.storePassword.Some? && release.storePassword.value != ""
        && release.keyAlias.Some? && release.keyAlias.value != ""
        && release.keyPassword.Some? && release.keyPassword.value != "")
  {
    match buildType
    case Release => if ReleaseUsable(release) then UseRelease(release) else UseDebug
    case Debug => UseDebug
  }

  /**
   * The script's signing decision as a whole: load `key.properties` if it
   * exists (lines 22-26), build the release configuration (lines 49-84) and
   * select a configuration for each build type (lines 98-122). An existing
   * `key.properties` that cannot be loaded stops the script before any
   * signing configuration is built.
   */
  method EvaluateSigning(env: map<string, string>, file: KeyFile) returns (outcome: Outcome)
    ensures outcome.LoadFailed? <==> file.Unreadable?
    ensures outcome.Configured? ==> outcome.debug == UseDebug
    ensures outcome.Configured? ==>
      outcome.release == Select(Release, ReleaseFields(env, LoadedEntries(file).value))
    ensures outcome.Configured? ==>
      (outcome.release.UseRelease? <==>
        IsNotEmpty(Resolve(env, LoadedEntries(file).value, StorePassword))
        && IsNotEmpty(Resolve(env, LoadedEntries(file).value, KeyAlias))
        && IsNotEmpty(Resolve(env, LoadedEntries(file).value, KeyPassword)))
  {
    var keystoreProperties := LoadKeystoreProperties(file);
    if keystoreProperties.None? {
      return LoadFailed;
    }
    var releaseConfig := new SigningConfig("release");
    releaseConfig.ConfigureRelease(env, keystoreProperties.value);
    outcome := Configured(Select(Release, releaseConfig.Snapshot()), Select(Debug, releaseConfig.Snapshot()));
  }

  /** Since the store file is never null after construction, the release
      decision depends only on the three resolved credentials. */
  lemma ReleaseDependsOnlyOnCredentials(env: map<string, string>, props: map<string, string>)
    ensures Select(Release, ReleaseFields(env, props)).UseRelease? <==>
      IsNotEmpty(Resolve(env, props, StorePassword))
      && IsNotEmpty(Resolve(env, props, KeyAlias))
      && IsNotEmpty(Resolve(env, props, KeyPassword))
  {
  }

  /** An empty `STORE_FILE` is only null-checked: with the credentials set,
      the release configuration is still chosen, with `file("")`. */
  lemma EmptyStoreFileDoesNotForceFallback(env: map<string, string>, props: map<string, string>)
    requires "STORE_FILE" in env && env["STORE_FILE"] == ""
    requires IsNotEmpty(Resolve(env, props, StorePassword))
    requires IsNotEmpty(Resolve(env, props, KeyAlias))
    requires IsNotEmpty(Resolve(env, props, KeyPassword))
    ensures Select(Release, ReleaseFields(env, props)).UseRelease?
    ensures ReleaseFields(env, props).storeFile == Some(File(""))
  {
  }

  /** A credential that no source supplies sends the release build to the
      debug configuration. */
  lemma UnresolvedCredentialFallsBack(env: map<string, string>, props: map<string, string>, f: Field)
    requires f != StoreFile
    requires EnvName(f) !in env && PropKey(f) !in props
    ensures Select(Release, ReleaseFields(env, props)) == UseDebug
  {
  }

  /** The debug build type ignores the release values entirely. */
  lemma DebugIgnoresRelease(a: Signing, b: Signing)
    ensures Select(Debug, a) == Select(Debug, b) == UseDebug
  {
  }

  /** Every field supplied by the environment with non-empty credentials:
      the release build uses exactly the environment's values, whatever
      `key.properties` holds. */
  lemma AllFromEnvironment(env: map<string, string>, props: map<string, string>)
    requires "STORE_FILE" in env && "STORE_PASSWORD" in env && "KEY_ALIAS" in env && "KEY_PASSWORD" in env
    requires env["STORE_PASSWORD"] != "" && env["KEY_ALIAS"] != "" && env["KEY_PASSWORD"] != ""
    ensures Select(Release, ReleaseFields(env, props))
      == UseRelease(Signing(Some(File(env["STORE_FILE"])), Some(env["STORE_PASSWORD"]),
                            Some(env["KEY_ALIAS"]), Some(env["KEY_PASSWORD"])))
  {
  }

  /** No environment, every field in `key.properties` with non-empty
      credentials: the release build uses the file's values. */
  lemma AllFromProperties(props: map<string, string>)
    requires "storeFile" in props && "storePassword" in props && "keyAlias" in props && "keyPassword" in props
    requires props["storePassword"] != "" && props["keyAlias"] != "" && props["keyPassword"] != ""
    ensures Select(Release, ReleaseFields(map[], props))
      == UseRelease(Signing(Some(File(props["storeFile"])), Some(props["storePassword"]),
                            Some(props["keyAlias"]), Some(props["keyPassword"])))
  {
  }

  /** The store file from the environment, the credentials from the file:
      resolution is per field, not per source. */
  lemma MixedSources(env: map<string, string>, props: map<string, string>)
    requires "STORE_FILE" in env
    requires "STORE_PASSWORD" !in env && "KEY_ALIAS" !in env && "KEY_PASSWORD" !in env
    requires "storePassword" in props && "keyAlias" in props && "keyPassword" in props
    requires props["storePassword"] != "" && props["keyAlias"] != "" && props["keyPassword"] != ""
    ensures Select(Release, ReleaseFields(env, props))
      == UseRelease(Signing(Some(File(env["STORE_FILE"])), Some(props["storePassword"]),
                            Some(props["keyAlias"]), Some(props["keyPassword"])))
  {
  }
}
