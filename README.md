# Release signing resolution of the mahakka Android build

This project models, in Dafny, the only behaviour in the app's Gradle build
script `android/app/build.gradle.kts`: how the release signing credentials are
resolved and which signing configuration each build type uses.

- **Credential sources.** `key.properties` is loaded into a
  `java.util.Properties` object only when the file exists; a missing file
  leaves an empty table and is not an error (`KeystoreProperties`).
- **Release configuration.** Each of the four fields (`storeFile`,
  `storePassword`, `keyAlias`, `keyPassword`) is resolved as
  `System.getenv(NAME) ?: keystoreProperties.getProperty(key)`. The store file
  is then always assigned, falling back to `file("mahakka.keystore")`; the three
  credentials are assigned only when a value was resolved (`ReleaseSigning`).
- **Build types.** `release` uses the release configuration when its store
  file is non-null and its three credentials are non-null and non-empty,
  otherwise the debug configuration; `debug` always uses the debug
  configuration (`BuildTypes`).

Kotlin's nullable values are `Option`, and the elvis operator `?:` is `Elvis`.
A chain `a ?: b ?: ...` is `Chain`, whose contract states that it yields
the first non-null entry. The process environment and the parsed
`key.properties` are `map<string, string>` snapshots. What is on disk at
`key.properties` is a `KeyFile`: `Missing`, `Present` with the map it
parses to, or `Unreadable`. Gradle's `file(path)` is the datatype `File`, which is never null.
The plugin-supplied debug configuration is the opaque choice `UseDebug`.

The `Properties` table and the release `SigningConfig` are classes, because
the script updates them in place. `Properties.Load` merges the pairs it reads.
`SigningConfig.ConfigureRelease` assigns the four fields under the script's
conditions. Their pure counterparts are `LoadedEntries` and `ReleaseFields`.
These are the pure functions that the selection and the lemmas talk about.

Behaviour of the script worth noting:
- An environment variable that is set to `""` shadows the `key.properties`
  value. The elvis operator only falls through on null; empty is not treated
  as absent (`EmptyEnvironmentValueShadows`).
- The store file is only null-checked, and after construction it is never
  null. So the store file never decides the release outcome, and an empty
  `STORE_FILE` still leads to the release configuration
  (`EmptyStoreFileDoesNotForceFallback`).
- There are exactly two build types (`BuildType`), `release` and `debug`.
- A `key.properties` that is missing is skipped silently, but one that exists
  and cannot be opened or parsed makes the script throw (`KeyFile.Unreadable`,
  `Outcome.LoadFailed`).
- Each field has two sources: environment, then `key.properties`. Only the
  store file has a built-in default.

## Model

| member | source | states |
|---|---|---|
| Lookups.Lookup | android/app/build.gradle.kts:53-56 | `System.getenv(name)` and `getProperty(key)` are non-null exactly when the name is defined in their snapshot, and then they are its value |
| Lookups.Chain | android/app/build.gradle.kts:53-56 | an elvis chain is null iff every entry is null; otherwise it is the first non-null entry, whatever later entries hold |
| KeystoreProperties.Properties.constructor | android/app/build.gradle.kts:22 | a new `Properties` table holds no keys |
| KeystoreProperties.Properties.Load | android/app/build.gradle.kts:24-26 | loading puts every pair read into the table, and pairs read replace existing values for their keys |
| KeystoreProperties.LoadedEntries | android/app/build.gradle.kts:22-26 | loading fails exactly when `key.properties` exists but cannot be read; otherwise the credential table holds the file's pairs, or no keys at all when the file is missing |
| KeystoreProperties.LoadKeystoreProperties | android/app/build.gradle.kts:22-26 | the fresh table is loaded only when the file exists; a missing file gives the empty table and no error; an unreadable file makes the load fail |
| KeystoreProperties.MissingFileIsEmptySource | android/app/build.gradle.kts:22-26 | a missing `key.properties` gives the same table as an existing file with no keys, so every lookup in it is null |
| ReleaseSigning.Resolve | android/app/build.gradle.kts:53-56 | a field is its environment variable's value when that is defined (even if empty), else its `key.properties` value, else null |
| ReleaseSigning.AssignIfResolved | android/app/build.gradle.kts:66-77 | a credential becomes the resolved value when one was resolved, and otherwise keeps its prior value |
| ReleaseSigning.ReleaseFields | android/app/build.gradle.kts:49-77 | the release configuration's store file is never null: it is the environment path, else the properties path, else `mahakka.keystore`; each credential is its environment value, else its properties value, else null |
| ReleaseSigning.SigningConfig.constructor | android/app/build.gradle.kts:50 | `create("release")` yields a configuration with all four fields unset |
| ReleaseSigning.SigningConfig.ConfigureRelease | android/app/build.gradle.kts:53-77 | the store file is set to `file(resolved)` or to `file("mahakka.keystore")`; each credential is overwritten only when resolved and kept otherwise; from an unset configuration the result is `ReleaseFields` |
| ReleaseSigning.EmptyEnvironmentValueShadows | android/app/build.gradle.kts:53-56 | a variable defined as `""` resolves to `""`, whatever `key.properties` holds |
| ReleaseSigning.ResolutionIsPerField | android/app/build.gradle.kts:53-56 | a field's resolved value depends only on its own environment variable and its own properties key, so different fields can come from different sources |
| ReleaseSigning.MissingKeyFileResolvesFromEnvironment | android/app/build.gradle.kts:22-65 | without `key.properties`, each field resolves from the environment alone, and the store file falls back to `mahakka.keystore` |
| BuildTypes.Select | android/app/build.gradle.kts:98-122 | the outcome is always one of two: the release configuration or debug. `debug` always gets debug. `release` gets the release configuration iff the store file is non-null and the three credentials are non-null and non-empty |
| BuildTypes.EvaluateSigning | android/app/build.gradle.kts:22-122 | end to end, the script fails exactly when `key.properties` exists but cannot be loaded. Otherwise the debug build type uses debug signing, and the release build type uses the constructed release configuration iff the three resolved credentials are non-empty |
| BuildTypes.ReleaseDependsOnlyOnCredentials | android/app/build.gradle.kts:58-112 | once the release configuration is built, the release outcome depends only on the three resolved credentials, because the store file is never null |
| BuildTypes.EmptyStoreFileDoesNotForceFallback | android/app/build.gradle.kts:58-105 | an empty `STORE_FILE` with non-empty credentials still selects the release configuration, whose store file is `file("")` |
| BuildTypes.UnresolvedCredentialFallsBack | android/app/build.gradle.kts:66-112 | a credential that neither source supplies makes the release build fall back to debug signing |
| BuildTypes.DebugIgnoresRelease | android/app/build.gradle.kts:119-121 | the debug build type uses debug signing whatever the release values are |
| BuildTypes.AllFromEnvironment | android/app/build.gradle.kts:53-112 | with all four variables set and the three credential variables non-empty, the release build uses exactly the environment's four values, whatever `key.properties` holds |
| BuildTypes.AllFromProperties | android/app/build.gradle.kts:53-112 | with no variables set and all four keys in `key.properties`, the three credentials non-empty, the release build uses the file's four values |
| BuildTypes.MixedSources | android/app/build.gradle.kts:53-112 | with only `STORE_FILE` set and the three non-empty credentials in `key.properties`, the release build uses the environment's store file with the file's credentials |

## Left out

- Plugin declarations, SDK, NDK and version constants, `compileOptions`, `kotlinOptions`, `defaultConfig`, minification and proguard settings, and the `flutter {}` block: these are static declarations with no behaviour.
- The `local.properties` load (lines 14-19): the script never reads the table after loading it.
- File-system access and the `.properties` text format: an existing `key.properties` is given as the map it parses to, or as `Unreadable` when opening or parsing it throws; which files fail to open or parse is not modelled. The process environment is a map snapshot.
- `signingConfigs.getByName`: the model passes the release configuration on directly and treats the debug one as opaque. The contents of the debug configuration are supplied by the Android Gradle plugin and are not visible in the script.
- The `println` diagnostics (lines 60-83, 106, 110): they are log output only. The returned `Choice` records which branch was taken.
- Idempotence of resolution and selection has no lemma, because every member involved is a pure function of its inputs.
