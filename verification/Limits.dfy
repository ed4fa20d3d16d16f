/** The configured limits and what the spool may assume of them. */
module Limits {
  import opened Finite

  const MAX_SPOOL_BYTES: nat := 8_589_934_592
  const MAX_SPOOL_RECORDS: nat := 1_000_000
  const MAX_RETENTION_SECONDS: nat := 2_592_000
  const MAX_BATCH_BYTES: nat := 4_194_304
  const MAX_BATCH_RECORDS: nat := 1_024

  /** The `[spool]` section of the configuration file. */
  datatype SpoolLimits = SpoolLimits(
    maxBytes: nat, maxRecords: nat, retentionSeconds: nat, batchMaxBytes: nat, batchMaxRecords: nat)

  /** What the spool is opened with. */
  datatype Config = Config(
    maxBytes: nat, maxRecords: nat, retentionMs: int, batchMaxBytes: nat, batchMaxRecords: nat)

  /** The limits part of `validate_shape`. */
  predicate ValidLimits(l: SpoolLimits) {
    && 1_048_576 <= l.maxBytes <= MAX_SPOOL_BYTES
    && 1 <= l.maxRecords <= MAX_SPOOL_RECORDS
    && 60 <= l.retentionSeconds <= MAX_RETENTION_SECONDS
    && 1 <= l.batchMaxBytes <= MAX_BATCH_BYTES
    && 1 <= l.batchMaxRecords <= MAX_BATCH_RECORDS
    && l.batchMaxBytes <= l.maxBytes
    && l.batchMaxRecords <= l.maxRecords
  }

  /** `spool_config`: None where the retention does not fit in 64 bits. */
  function SpoolConfig(l: SpoolLimits): Option<Config> {
    if l.retentionSeconds * 1_000 > U64_MAX || l.retentionSeconds * 1_000 > I64_MAX then None
    else Some(Config(l.maxBytes, l.maxRecords, l.retentionSeconds * 1_000, l.batchMaxBytes, l.batchMaxRecords))
  }

  /** `validate_config` of the spool. */
  predicate SpoolAccepts(c: Config) {
    && c.maxBytes != 0 && c.maxRecords != 0 && c.retentionMs > 0
    && c.batchMaxBytes != 0 && c.batchMaxRecords != 0 && c.batchMaxRecords <= c.maxRecords
  }

  /** A configuration that came through `validate_shape` and `spool_config`. */
  predicate Configured(c: Config) {
    && 1_048_576 <= c.maxBytes <= MAX_SPOOL_BYTES
    && 1 <= c.maxRecords <= MAX_SPOOL_RECORDS
    && 60_000 <= c.retentionMs <= 2_592_000_000
    && 1 <= c.batchMaxBytes <= MAX_BATCH_BYTES
    && 1 <= c.batchMaxRecords <= MAX_BATCH_RECORDS
    && c.batchMaxBytes <= c.maxBytes
    && c.batchMaxRecords <= c.maxRecords
  }

  /** The limits as documented: 1 MiB to 8 GiB, up to a million records, a minute to thirty days, batches of
      up to 4 MiB and 1024 items that fit the spool. The spool keeps the retention in milliseconds and
      everything else as it is. */
  lemma LimitsAsDocumented(l: SpoolLimits)
    ensures ValidLimits(l) <==>
            && 1024 * 1024 <= l.maxBytes <= 8 * 1024 * 1024 * 1024 && 1 <= l.maxRecords <= 1000 * 1000
            && 60 <= l.retentionSeconds <= 30 * 24 * 60 * 60
            && 1 <= l.batchMaxBytes <= 4 * 1024 * 1024 && l.batchMaxBytes <= l.maxBytes
            && 1 <= l.batchMaxRecords <= 1024 && l.batchMaxRecords <= l.maxRecords
    ensures ValidLimits(l) ==>
              && SpoolConfig(l).Some? && SpoolConfig(l).value.retentionMs == 1000 * l.retentionSeconds
              && SpoolConfig(l).value.maxBytes == l.maxBytes && SpoolConfig(l).value.maxRecords == l.maxRecords
              && SpoolConfig(l).value.batchMaxBytes == l.batchMaxBytes
              && SpoolConfig(l).value.batchMaxRecords == l.batchMaxRecords
  {
  }

  /** Limits that validate always convert, the spool never refuses the result, and the result
      carries the bounds the spool arithmetic relies on. */
  lemma ValidLimitsAreAccepted(l: SpoolLimits)
    ensures ValidLimits(l) ==>
              SpoolConfig(l).Some? && SpoolAccepts(SpoolConfig(l).value) && Configured(SpoolConfig(l).value)
    ensures SpoolConfig(l).Some? && Configured(SpoolConfig(l).value) ==> ValidLimits(l)
  {
  }
}
