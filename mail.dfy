/**
 * A parsed e-mail message as the backend reads it. The `email` package does
 * the parsing; a message here carries what its accessors return.
 */
module Mail {
  import opened Wrappers
  import EmailClean

  /** One entry of `msg.walk()`: its content type, whether its decoded payload is non-empty, and the text that decoding, HTML unescaping and tag stripping produce from it. */
  datatype MimePart = MimePart(contentType: string, hasPayload: bool, text: string)

  /** A multipart message lists the parts in `walk()` order; a single-part message has one payload. */
  datatype MessageBody = Multipart(parts: seq<MimePart>) | Singlepart(part: MimePart)

  /**
   * The headers the backend reads (`None` = header absent) and, for each
   * address header, the `(name, addr)` pairs `email.utils.getaddresses`
   * yields for it. A header read with `msg.get` is a `str`, or an
   * `email.header.Header` object when its raw bytes are not ASCII.
   */
  datatype Message = Message(
    gmailLabels: Option<EmailClean.Value>,
    date: Option<EmailClean.Value>,
    subject: Option<EmailClean.Value>,
    addresses: map<string, seq<(string, string)>>,
    body: MessageBody)
}
