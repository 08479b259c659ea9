/** The record that travels from the gateway to its subscribers (apps/ingest-gateway/envelope.go). */
module Envelope {

  /** The three ingest statuses are the firewall's; topics are compared by name, as on the bus. */
  datatype RawEventEnvelope = RawEventEnvelope(
    eventId: string,
    sourceId: string,
    transport: string,
    rawRef: string,
    rawSha256: string,
    rawLengthBytes: nat,
    ingestStatus: string)

  const TOPIC_RAW := "raw_events"
  const TOPIC_QUARANTINED := "quarantined_events"
  const TOPIC_REJECTED := "rejected_events"
}
