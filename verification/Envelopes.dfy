/** The parts of an envelope that routing looks at. */
module Envelopes {
  import opened Wrappers
  import opened Bytes

  datatype EnvelopeType = Request | Response | Event | Error | StreamChunk | Cancel

  datatype Envelope = Envelope(
    typ: EnvelopeType, correlation: ByteString, capability: Option<Utf8Text>, streamEnd: bool, body: ByteString)
}
