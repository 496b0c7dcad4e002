/**
 * The `signingConfigs { create("release") { ... } }` block
 * (android/app/build.gradle.kts, lines 49-84): each of the four fields is
 * resolved from the environment first and from `key.properties` second, and
 * the resolved values are assigned to the release signing configuration.
 */
module ReleaseSigning {
  import opened Lookups
  import opened KeystoreProperties

  /** What Gradle's `file(path)` yields: never null. */
  datatype File = File(path: string)

  /** The keystore used when neither source names one. */
  const DefaultStoreFile: string := "mahakka.keystore"

  /** The four fields of a signing configuration. */
  datatype Field = StoreFile | StorePassword | KeyAlias | KeyPassword

  /** The environment variable consulted first for a field. */
  function EnvName(f: Field): string
  {
    match f
    case StoreFile => "STORE_FILE"
    case StorePassword => "STORE_PASSWORD"
    case KeyAlias => "KEY_ALIAS"
    case KeyPassword => "KEY_PASSWORD"
  }

  /** The `key.properties` key consulted second for a field. */
  function PropKey(f: Field): string
  {
    match f
    case StoreFile => "storeFile"
    case StorePassword => "storePassword"
    case KeyAlias => "keyAlias"
    case KeyPassword => "keyPassword"
  }

  /**
   * Lines 53-56: `System.getenv(EnvName(f)) ?: keystoreProperties.getProperty(PropKey(f))`.
   * A defined environment variable wins, even when it is empty; otherwise the
   * properties value; otherwise null.
   */
  function Resolve(env: map<string, string>, props: map<string, string>, f: Field): (r: Option<string>)
    ensures EnvName(f) in env ==> r == Some(env[EnvName(f)])
    ensures EnvName(f) !in env && PropKey(f) in props ==> r == Some(props[PropKey(f)])
    ensures r.None? <==> EnvName(f) !in env && PropKey(f) !in props
  {
    var lookups := [Lookup(env, EnvName(f)), Lookup(props, PropKey(f))];
    assert FirstNonNull(lookups, 0) || FirstNonNull(lookups, 1) || Chain(lookups).None?;
    Chain(lookups)
  }

  /** A value snapshot of a signing configuration's four nullable fields. */
  datatype Signing = Signing(
    storeFile: Option<File>,
    storePassword: Option<string>,
    keyAlias: Option<string>,
    keyPassword: Option<string>)

  /** A configuration just created by `signingConfigs.create`: nothing set. */
  const Unset: Signing := Signing(None, None, None, None)

  /** The credential field `f` of a snapshot (the store file is not a string). */
  function Credential(s: Signing, f: Field): Option<string>
    requires f != StoreFile
  {
    match f
    case StorePassword => s.storePassword
    case KeyAlias => s.keyAlias
    case KeyPassword => s.keyPassword
  }

  /** Lines 66-77: a field is assigned only when a value was resolved. */
  function AssignIfResolved(prior: Option<string>, resolved: Option<string>): (r: Option<string>)
    ensures resolved.Some? ==> r == resolved
    ensures resolved.None? ==> r == prior
  {
    if resolved.Some? then resolved else prior
  }

  /**
   * The release configuration the block of lines 49-84 produces from an unset
   * configuration: the store file is never null, being the resolved path or
   * the default keystore, and each credential is exactly its resolved value.
   */
  function ReleaseFields(env: map<string, string>, props: map<string, string>): (s: Signing)
    ensures s.storeFile.Some?
    ensures s.storeFile == Some(File(
      if EnvName(StoreFile) in env then env[EnvName(StoreFile)]
      else if PropKey(StoreFile) in props then props[PropKey(StoreFile)]
      else DefaultStoreFile))
    ensures forall f :: f != StoreFile ==>
      Credential(s, f) == (if EnvName(f) in env then Some(env[EnvName(f)])
                           else if PropKey(f) in props then Some(props[PropKey(f)])
                           else None)
  {
    var storeFile := Resolve(env, props, StoreFile);
    Signing(
      Some(File(storeFile.GetOr(DefaultStoreFile))),
      AssignIfResolved(Unset.storePassword, Resolve(env, props, StorePassword)),
      AssignIfResolved(Unset.keyAlias, Resolve(env, props, KeyAlias)),
      AssignIfResolved(Unset.keyPassword, Resolve(env, props, KeyPassword)))
  }

  /** A Gradle signing configuration, whose fields the script assigns in place. */
  class SigningConfig {
    const name: string
    var storeFile: Option<File>
    var storePassword: Option<string>
    var keyAlias: Option<string>
    var keyPassword: Option<string>

    /** `signingConfigs.create(name)`: a configuration with nothing set. */
    constructor (name: string)
      ensures this.name == name
      ensures Snapshot() == Unset
    {
      this.name := name;
      storeFile, storePassword, keyAlias, keyPassword := None, None, None, None;
    }

    /** The current values of the four fields. */
    function Snapshot(): Signing
      reads this
    {
      Signing(storeFile, storePassword, keyAlias, keyPassword)
    }

    /**
     * The body of `create("release") { ... }`, lines 53-77: resolve the four
     * fields, then assign the store file unconditionally and each credential
     * only when it was resolved.
     */
    method ConfigureRelease(env: map<string, string>, props: Properties)
      modifies this
      ensures storeFile == Some(File(Resolve(env, props.entries, StoreFile).GetOr(DefaultStoreFile)))
      ensures storePassword == AssignIfResolved(old(storePassword), Resolve(env, props.entries, StorePassword))
      ensures keyAlias == AssignIfResolved(old(keyAlias), Resolve(env, props.entries, KeyAlias))
      ensures keyPassword == AssignIfResolved(old(keyPassword), Resolve(env, props.entries, KeyPassword))
      ensures old(Snapshot()) == Unset ==> Snapshot() == ReleaseFields(env, props.entries)
    {
      var storeFileEnv := Elvis(Lookup(env, "STORE_FILE"), props.GetProperty("storeFile"));
      var storePasswordEnv := Elvis(Lookup(env, "STORE_PASSWORD"), props.GetProperty("storePassword"));
      var keyAliasEnv := Elvis(Lookup(env, "KEY_ALIAS"), props.GetProperty("keyAlias"));
      var keyPasswordEnv := Elvis(Lookup(env, "KEY_PASSWORD"), props.GetProperty("keyPassword"));

      if storeFileEnv.Some? {
        storeFile := Some(File(storeFileEnv.value));
      } else {
        storeFile := Some(File(DefaultStoreFile));
      }
      if storePasswordEnv.Some? {
        storePassword := Some(storePasswordEnv.value);
      }
      if keyAliasEnv.Some? {
        keyAlias := Some(keyAliasEnv.value);
      }
      if keyPasswordEnv.Some? {
        keyPassword := Some(keyPasswordEnv.value);
      }
    }
  }

  /** An environment variable that is defined but empty still shadows the
      properties file: the elvis operator only skips null. */
  lemma EmptyEnvironmentValueShadows(env: map<string, string>, props: map<string, string>, f: Field)
    requires EnvName(f) in env && env[EnvName(f)] == ""
    ensures Resolve(env, props, f) == Some("")
  {
  }

  /** Each field is resolved on its own: its value depends only on its own
      environment variable and its own properties key. */
  lemma ResolutionIsPerField(env: map<string, string>, props: map<string, string>,
                             env': map<string, string>, props': map<string, string>, f: Field)
    requires EnvName(f) in env <==> EnvName(f) in env'
    requires EnvName(f) in env ==> env[EnvName(f)] == env'[EnvName(f)]
    requires PropKey(f) in props <==> PropKey(f) in props'
    requires PropKey(f) in props ==> props[PropKey(f)] == props'[PropKey(f)]
    ensures Resolve(env, props, f) == Resolve(env', props', f)
  {
  }

  /** With `key.properties` missing, every field resolves from the environment
      alone, and the store file still gets its default. */
  lemma MissingKeyFileResolvesFromEnvironment(env: map<string, string>, f: Field)
    ensures Resolve(env, LoadedEntries(Missing).value, f) == Lookup(env, EnvName(f))
    ensures ReleaseFields(env, LoadedEntries(Missing).value).storeFile ==
      Some(File(if "STORE_FILE" in env then env["STORE_FILE"] else DefaultStoreFile))
  {
  }
}
