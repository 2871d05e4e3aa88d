/** `getEmailsData` (ImapScanner.js:41-62): flatten each mail into one
    output record. */
module EmailsData {
  import opened Wrappers
  import opened Mailbox

  /** `insideData?.field` for the envelope fields. */
  function EnvelopeFrom(m: Mail): Option<seq<Address>> { if m.envelope.Some? then m.envelope.value.from else None }
  function EnvelopeTo(m: Mail): Option<seq<Address>> { if m.envelope.Some? then m.envelope.value.to else None }
  function EnvelopeReplyTo(m: Mail): Option<seq<Address>> { if m.envelope.Some? then m.envelope.value.replyTo else None }
  function EnvelopeDate(m: Mail): Option<string> { if m.envelope.Some? then m.envelope.value.date else None }

  /** The `parsedData` fields a record carries, put back together. */
  function RecordParsedData(rec: NormalizedEmail): ParsedData
  {
    ParsedData(rec.subject, rec.contentHTML, rec.content, rec.attachments, rec.links)
  }

  /** The loop of ImapScanner.js:45-59. `mail?.parsedData.links` throws for a
      mail without `parsedData`, and the partial list is lost with it. */
  method GetEmailsData(mails: seq<Mail>) returns (r: Result<seq<NormalizedEmail>, ScanError>)
    ensures r.Success? <==> forall i :: 0 <= i < |mails| ==> mails[i].parsedData.Some?
    ensures r.Failure? ==> r.error == CannotReadLinks
    ensures r.Success? ==> |r.value| == |mails|
    ensures r.Success? ==> forall i :: 0 <= i < |mails| ==>
      var rec, mail := r.value[i], mails[i];
      && rec.id == mail.seqNum
      && rec.from == EnvelopeFrom(mail) && rec.to == EnvelopeTo(mail)
      && rec.replyTo == EnvelopeReplyTo(mail) && rec.date == EnvelopeDate(mail)
      && rec.subject == mail.parsedData.value.subject
      && rec.content == mail.parsedData.value.content
      && rec.contentHTML == mail.parsedData.value.contentHTML
      && rec.links == mail.parsedData.value.links
      && rec.attachments == mail.parsedData.value.attachments
    ensures r.Success? ==> forall i :: 0 <= i < |mails| ==> RecordParsedData(r.value[i]) == mails[i].parsedData.value
  {
    var data: seq<NormalizedEmail> := [];
    for i := 0 to |mails|
      invariant |data| == i
      invariant forall j :: 0 <= j < i ==> mails[j].parsedData.Some?
      invariant forall j :: 0 <= j < i ==>
        var rec, mail := data[j], mails[j];
        && rec.id == mail.seqNum
        && rec.from == EnvelopeFrom(mail) && rec.to == EnvelopeTo(mail)
        && rec.replyTo == EnvelopeReplyTo(mail) && rec.date == EnvelopeDate(mail)
        && rec.subject == mail.parsedData.value.subject
        && rec.content == mail.parsedData.value.content
        && rec.contentHTML == mail.parsedData.value.contentHTML
        && rec.links == mail.parsedData.value.links
        && rec.attachments == mail.parsedData.value.attachments
    {
      var mail := mails[i];
      match mail.parsedData
      case None =>
        return Failure(CannotReadLinks);
      case Some(parsed) =>
        var record := NormalizedEmail(
          mail.seqNum, EnvelopeFrom(mail), EnvelopeTo(mail), EnvelopeReplyTo(mail), EnvelopeDate(mail),
          parsed.content, parsed.contentHTML, parsed.links, parsed.attachments, parsed.subject);
        data := data + [record];
    }
    return Success(data);
  }
}
