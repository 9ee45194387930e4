/** The limits that the deployment configures, and what they mean for a key. */
module Configuration {
  const I32_MAX: nat := 0x7FFF_FFFF
  const QUERY_CONCURRENCY: nat := 16

  datatype Config = Config(
    maxBackupSize: nat,
    maxKeySize: nat,
    maxDatastoreKeySize: nat,
    compressionEnabled: bool,
    datastoreEnabled: bool,
    maxSyncUploads: nat,
    maxSyncManifestEntries: nat)

  const DATASTORE: string := "dataStore/"

  predicate IsDatastoreKey(key: string) {
    DATASTORE <= key
  }

  function MaxSizeForKey(cfg: Config, key: string): nat {
    if IsDatastoreKey(key) then cfg.maxDatastoreKeySize else cfg.maxKeySize
  }

  predicate Blocked(cfg: Config, key: string) {
    IsDatastoreKey(key) && !cfg.datastoreEnabled
  }
}
