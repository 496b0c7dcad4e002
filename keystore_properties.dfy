/**
 * The `key.properties` credential source (android/app/build.gradle.kts,
 * lines 22-26): a `java.util.Properties` object that is filled from the file
 * only when the file exists. Reading and parsing the file are outside the
 * model: an existing file is given as the key/value map it parses to, or as
 * unreadable when opening or parsing it throws.
 */
module KeystoreProperties {
  import opened Lookups

  /** What the file system holds at `key.properties`: nothing, a file that
      parses to a key/value map, or a path that exists but cannot be opened by
      `inputStream()` or holds text that `load` rejects (a malformed `\uXXXX`
      escape). In the last case the script throws. */
  datatype KeyFile = Missing | Present(parsed: map<string, string>) | Unreadable

  /** A `java.util.Properties` table, updated in place by `Load`. */
  class Properties {
    var entries: map<string, string>

    /** `Properties()`: an empty table. */
    constructor ()
      ensures entries == map[]
    {
      entries := map[];
    }

    /** `load(stream)`: every pair read is put into the table, later pairs
        replacing earlier values for the same key. */
    method Load(stream: map<string, string>)
      modifies this
      ensures entries == old(entries) + stream
    {
      entries := entries + stream;
    }

    /** `getProperty(key)`: the stored value, or null for a key never set. */
    function GetProperty(key: string): Option<string>
      reads this
    {
      Lookup(entries, key)
    }
  }

  /** The table the script ends up with: the parsed file, or nothing at all
      when the file does not exist; null when loading throws. */
  function LoadedEntries(file: KeyFile): (m: Option<map<string, string>>)
    ensures m.None? <==> file.Unreadable?
    ensures file.Present? ==> m == Some(file.parsed)
    ensures file.Missing? ==> m.Some? && m.value.Keys == {}
  {
    match file
    case Missing => Some(map[])
    case Present(parsed) => Some(parsed)
    case Unreadable => None
  }

  /** Lines 22-26: create the table and load `key.properties` only if it
      exists. A missing file is not an error; a file that exists but cannot be
      opened or parsed makes the load throw, which ends the script: `None`. */
  method LoadKeystoreProperties(file: KeyFile) returns (props: Option<Properties>)
    ensures props.None? <==> file.Unreadable?
    ensures props.Some? ==> fresh(props.value) && Some(props.value.entries) == LoadedEntries(file)
  {
    if file.Unreadable? {
      return None;
    }
    var table := new Properties();
    if file.Present? {
      table.Load(file.parsed);
      assert table.entries == file.parsed;
    }
    props := Some(table);
  }

  /** A missing `key.properties` answers every lookup the way an existing
      file without any keys does: with null. */
  lemma MissingFileIsEmptySource(key: string)
    ensures LoadedEntries(Missing) == LoadedEntries(Present(map[]))
    ensures LoadedEntries(Missing).Some? && key !in LoadedEntries(Missing).value
  {
  }
}
