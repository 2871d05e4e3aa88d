/** The records the scanner handles. Everything the IMAP library, the MIME
    parser and the HTML parser produce is an input value here. */
module Mailbox {
  import opened Wrappers

  datatype Address = Address(name: string, address: string)

  /** The envelope the IMAP server returns for a message; every field may be
      missing. */
  datatype Envelope = Envelope(
    from: Option<seq<Address>>,
    to: Option<seq<Address>>,
    replyTo: Option<seq<Address>>,
    date: Option<string>,
    subject: Option<string>)

  /** An attachment as the MIME parser reports it; passed through unread. */
  datatype Attachment = Attachment(filename: Option<string>, contentType: string, content: seq<bv8>)

  /** The `parsedData` object attached to a mail by `getEmailContent`. */
  datatype ParsedData = ParsedData(
    subject: Option<string>,
    contentHTML: Option<string>,
    content: string,
    attachments: seq<Attachment>,
    links: Option<seq<string>>)

  /** A message object as the envelope fetch yields it: its sequence number,
      its envelope, and `parsedData` once `getEmailContent` has set it. */
  datatype Mail = Mail(seqNum: nat, envelope: Option<Envelope>, parsedData: Option<ParsedData>)

  /** What the MIME parser and the HTML parser make of a message source:
      `innerText` is the parser's flattening of `html` (with `<style>` text
      kept), taken as given. */
  datatype ParsedEmail = ParsedEmail(
    subject: Option<string>,
    html: Option<string>,
    attachments: seq<Attachment>,
    innerText: string)

  /** The outcome of `fetchOne(mail.seq, ...)` for one mail. */
  datatype FetchOutcome =
    | FetchThrew              // the fetch rejected
    | NoMessage               // the fetch resolved to null or undefined
    | ParseThrew              // `simpleParser` or `parse` threw on the fetched source
    | Fetched(parsed: ParsedEmail)

  /** One record of the scanner's output (`getEmailsData`). */
  datatype NormalizedEmail = NormalizedEmail(
    id: nat,
    from: Option<seq<Address>>,
    to: Option<seq<Address>>,
    replyTo: Option<seq<Address>>,
    date: Option<string>,
    content: string,
    contentHTML: Option<string>,
    links: Option<seq<string>>,
    attachments: seq<Attachment>,
    subject: Option<string>)

  /** The exceptions that escape the modelled operations. */
  datatype ScanError =
    | CannotReadSource        // `message.source` on a null message
    | CannotParse             // the MIME or HTML parser threw
    | CannotReadLinks         // `mail?.parsedData.links` on a mail without parsedData
}
