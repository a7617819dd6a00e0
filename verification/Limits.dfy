/** The protocol's bounds and error codes. Times are milliseconds. */
module Limits {

  const MAX_MESSAGE_BYTES := 32 * 1024
  const MAX_CHUNK_BYTES := 64 * 1024
  const MAX_FILE_BYTES := 1024 * 1024 * 1024
  const MAX_CHUNKS := 16384
  const MAX_ACTIVE_TRANSFERS := 16
  const MAX_QUEUED := 100
  const MAX_STORED_BYTES := 16 * 1024 * 1024
  const MAX_BATCH := 32
  const MAX_MISSING_RANGES := 1024
  const MAX_MANIFEST_BYTES := 4096

  const MSG_TTL := 14 * 24 * 3600 * 1000
  const MAILBOX_TTL := 365 * 24 * 3600 * 1000
  const UPLOAD_TTL := 24 * 3600 * 1000
  const UPLOAD_TTL_MAX := 7 * 24 * 3600 * 1000
  const COMPLETE_TTL := 14 * 24 * 3600 * 1000
  const REPLAY_WINDOW := 90 * 1000
  const MAX_CLOCK_SKEW := 30_000

  datatype ErrorCode =
    | InvalidRequest
    | AuthFailed
    | ReplayDetected
    | ExpiredRequest
    | MailboxNotFound
    | MessageTooLarge
    | QuotaExceeded
    | TransferNotFound
    | TransferExpired
    | ChunkInvalid
    | ChunkConflict
    | ChunkOutOfRange
    | RateLimited
    | StorageUnavailable
    | TransferConflict
    | HashMismatch
    | PayloadTooLarge
    | BatchTooLarge
    | ShortBody
}
