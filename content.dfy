/** `getEmailContent` (ImapScanner.js:101-147): fetch each selected mail's
    source and attach its `parsedData` in place. The fetch results are
    inputs, one per mail, in list order. */
module Content {
  import opened Wrappers
  import opened Mailbox
  import opened CleanUp
  import opened Links

  /** The `data` object built for a fetched message (ImapScanner.js:128-143). */
  function ParsedDataOf(p: ParsedEmail): ParsedData
  {
    var content := CleanText(p.innerText);
    ParsedData(p.subject, p.html, content, p.attachments, GetAllLinksFromHtml(content))
  }

  /** Whether an outcome throws out of the loop: a fetch that resolved to
      nothing (reading `message.source`), or a source the parsers reject.
      Both happen outside the `try`. */
  predicate IsFatal(f: FetchOutcome)
  {
    f.NoMessage? || f.ParseThrew?
  }

  /** The exception a fatal outcome raises. */
  function FatalError(f: FetchOutcome): (e: ScanError)
    requires IsFatal(f)
    ensures e == CannotReadSource <==> f.NoMessage?
    ensures e == CannotParse <==> f.ParseThrew?
  {
    if f.NoMessage? then CannotReadSource else CannotParse
  }

  /** Index of the first fatal outcome, where the loop stops;
      `|fetches|` if there is none. */
  function FirstFatal(fetches: seq<FetchOutcome>): (k: nat)
    ensures k <= |fetches|
    ensures forall i :: 0 <= i < k ==> !IsFatal(fetches[i])
    ensures k < |fetches| ==> IsFatal(fetches[k])
  {
    if fetches == [] || IsFatal(fetches[0]) then 0 else 1 + FirstFatal(fetches[1..])
  }

  /** One mail after its turn in the loop, given how a fetched message is
      turned into its `parsedData`. */
  function Updated(m: Mail, f: FetchOutcome, parse: ParsedEmail -> ParsedData): Mail
  {
    match f
    case Fetched(p) => m.(parsedData := Some(parse(p)))
    case _ => m
  }

  /** One mail after its turn in `getEmailContent`. */
  function Enriched(m: Mail, f: FetchOutcome): Mail
  {
    Updated(m, f, ParsedDataOf)
  }

  /** The loop of ImapScanner.js:102-145, with the step that turns a fetched
      message into its `parsedData` as a parameter. A mail whose fetch throws
      is skipped and keeps what it had; a fetch that resolves to nothing is
      only logged, and reading its `source` then throws out of the whole
      call, after the mails before it have already been updated; so does a
      source the parsers reject. */
  method UpdateMails(mails: array<Mail>, fetches: seq<FetchOutcome>, parse: ParsedEmail -> ParsedData)
    returns (result: Result<(), ScanError>)
    requires |fetches| == mails.Length
    modifies mails
    ensures result.Success? <==> forall k :: 0 <= k < |fetches| ==> !IsFatal(fetches[k])
    ensures result.Failure? ==> FirstFatal(fetches) < |fetches| && result.error == FatalError(fetches[FirstFatal(fetches)])
    ensures forall i :: 0 <= i < mails.Length ==>
      mails[i] == if i < FirstFatal(fetches) then Updated(old(mails[i]), fetches[i], parse) else old(mails[i])
  {
    var i := 0;
    while i < mails.Length
      invariant 0 <= i <= FirstFatal(fetches)
      invariant forall j :: 0 <= j < i ==> mails[j] == Updated(old(mails[j]), fetches[j], parse)
      invariant forall j :: i <= j < mails.Length ==> mails[j] == old(mails[j])
    {
      var mail := mails[i];
      var fetched := fetches[i];
      if fetched.NoMessage? {
        return Failure(CannotReadSource);
      }
      if fetched.ParseThrew? {
        return Failure(CannotParse);
      }
      if fetched.Fetched? {
        mails[i] := mail.(parsedData := Some(parse(fetched.parsed)));
      }
      i := i + 1;
    }
    return Success(());
  }

  /** `getEmailContent`: the loop above with the clean-up chain and the link
      scanner as the parse step. */
  method GetEmailContent(mails: array<Mail>, fetches: seq<FetchOutcome>) returns (result: Result<(), ScanError>)
    requires |fetches| == mails.Length
    modifies mails
    ensures result.Success? <==> forall k :: 0 <= k < |fetches| ==> !IsFatal(fetches[k])
    ensures result.Failure? ==> FirstFatal(fetches) < |fetches| && result.error == FatalError(fetches[FirstFatal(fetches)])
    ensures forall i :: 0 <= i < mails.Length ==>
      mails[i] == if i < FirstFatal(fetches) then Enriched(old(mails[i]), fetches[i]) else old(mails[i])
  {
    result := UpdateMails(mails, fetches, ParsedDataOf);
  }

  /** What the loop does to each mail: sequence number and envelope stay;
      an outcome other than a fetched message leaves the mail as it was; a fetched message gets
      cleaned text free of tabs and newlines and the links found in that
      text. */
  lemma EnrichedFacts(m: Mail, f: FetchOutcome)
    ensures Enriched(m, f).seqNum == m.seqNum && Enriched(m, f).envelope == m.envelope
    ensures !f.Fetched? ==> Enriched(m, f) == m
    ensures f.Fetched? ==>
      var data := Enriched(m, f).parsedData;
      && data.Some?
      && data.value.subject == f.parsed.subject
      && data.value.contentHTML == f.parsed.html
      && data.value.attachments == f.parsed.attachments
      && data.value.content == CleanText(f.parsed.innerText)
      && '\t' !in data.value.content && '\n' !in data.value.content
      && data.value.links == GetAllLinksFromHtml(data.value.content)
  {
  }
}
