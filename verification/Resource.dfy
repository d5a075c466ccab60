/** The configured limits of a node and the ranges they must stay in. */
module Resource {

  /** Bounds that are not configured: the keys a limiter remembers, and the hops of a ghost forward. */
  const MAX_TRACKED_IDENTITIES := 4096
  const MAX_GHOST_HOPS := 5

  datatype Limits = Limits(
    connectionsPerSource: int, connectionsGlobal: int,
    concurrentHandshakes: int, concurrentRequests: int, concurrentRequestsPerIdentity: int,
    handshakeFailuresPerWindow: int, handshakeFailureWindowSeconds: int, handshakeCooldownSeconds: int,
    requestsPerMinute: int, requestBurst: int,
    heldMessagesPerUser: int, heldBytesPerUser: int,
    heldMessagesPerMailbox: int, heldBytesPerMailbox: int,
    heldMessagesGlobal: int, heldBytesGlobal: int,
    replayRecordsPerUser: int, replayRecordsGlobal: int,
    routesPerIdentity: int, mailboxOwnersGlobal: int,
    outboxMessages: int, outboxBytes: int)
  {
    /** The ranges Limits.Validate enforces for the limits modelled here. */
    predicate Valid() {
      && 1 <= connectionsPerSource <= 64
      && 1 <= connectionsGlobal <= 512
      && 1 <= concurrentHandshakes <= 256
      && 1 <= concurrentRequests <= 128
      && 1 <= concurrentRequestsPerIdentity <= 32
      && 1 <= handshakeFailuresPerWindow <= 100
      && 1 <= handshakeFailureWindowSeconds <= 3600
      && 1 <= handshakeCooldownSeconds <= 3600
      && 1 <= requestsPerMinute <= 60000
      && 272 <= requestBurst <= 10000
      && 1 <= heldMessagesPerUser <= 4096
      && 1 <= heldBytesPerUser <= 128 * 1024 * 1024
      && 1 <= heldMessagesPerMailbox <= 8192
      && 1 <= heldBytesPerMailbox <= 512 * 1024 * 1024
      && 1 <= heldMessagesGlobal <= 1000000
      && 1 <= heldBytesGlobal <= 8 * 1024 * 1024 * 1024
      && 1 <= replayRecordsPerUser <= 100000
      && 1 <= replayRecordsGlobal <= 2000000
      && 1 <= routesPerIdentity <= 1024
      && 1 <= mailboxOwnersGlobal <= 500000
      && 1 <= outboxMessages <= 100000
      && 1 <= outboxBytes <= 1024 * 1024 * 1024
      && connectionsPerSource <= connectionsGlobal
      && concurrentHandshakes <= connectionsGlobal
      && concurrentRequests <= connectionsGlobal
      && concurrentRequestsPerIdentity <= concurrentRequests
    }
  }
}
