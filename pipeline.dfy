/** `init` (ImapScanner.js:30-39): select, fetch and parse, flatten.
    Connecting and taking the mailbox lock are left out; the server's
    answers are inputs. */
module Pipeline {
  import opened Wrappers
  import opened Mailbox
  import opened CleanUp
  import opened Links
  import opened Selection
  import opened Content
  import opened EmailsData
  import opened Sequences

  /** `init` with the selection as written (`how == AsWritten`) or with the
      containment test spelt `includes` (`how == AsIntended`).
      `fetches[i]` is the answer to `fetchOne` for the i-th selected mail;
      messages straight from the envelope fetch carry no `parsedData`. A
      mail whose fetch throws is skipped by `getEmailContent` and then makes
      `getEmailsData` throw, so the run fails instead of leaving it out. */
  method Init(messagesCount: nat, messageLimit: int, total: nat, fetched: seq<Mail>, filter: Option<string>,
              fetches: seq<FetchOutcome>, how: Containment)
    returns (r: Result<seq<NormalizedEmail>, ScanError>)
    requires |fetches| == |Select(total, fetched, filter, how)|
    requires forall i :: 0 <= i < |fetched| ==> fetched[i].parsedData.None?
    ensures r.Success? <==> forall k :: 0 <= k < |fetches| ==> fetches[k].Fetched?
    ensures r.Failure? ==>
      r.error == if FirstFatal(fetches) < |fetches| then FatalError(fetches[FirstFatal(fetches)]) else CannotReadLinks
    ensures r.Success? ==>
      var selected := Select(total, fetched, filter, how);
      && |r.value| == |selected|
      && forall i :: 0 <= i < |selected| ==>
        && r.value[i].id == selected[i].seqNum
        && r.value[i].subject == fetches[i].parsed.subject
        && r.value[i].content == CleanText(fetches[i].parsed.innerText)
        && r.value[i].links == GetAllLinksFromHtml(r.value[i].content)
  {
    var selected := SelectCandidates(messagesCount, messageLimit, total, fetched, filter, how);
    r := FetchAndFlatten(selected, fetches, ParsedDataOf);
  }

  /** The last two steps of `init`: `getEmailContent` on the selected mails,
      with `parse` turning a fetched message into its `parsedData`, then
      `getEmailsData`. */
  method FetchAndFlatten(selected: seq<Mail>, fetches: seq<FetchOutcome>, parse: ParsedEmail -> ParsedData)
    returns (r: Result<seq<NormalizedEmail>, ScanError>)
    requires |fetches| == |selected|
    requires forall i :: 0 <= i < |selected| ==> selected[i].parsedData.None?
    ensures r.Success? <==> forall k :: 0 <= k < |fetches| ==> fetches[k].Fetched?
    ensures r.Failure? ==>
      r.error == if FirstFatal(fetches) < |fetches| then FatalError(fetches[FirstFatal(fetches)]) else CannotReadLinks
    ensures r.Success? ==>
      && |r.value| == |selected|
      && forall i :: 0 <= i < |selected| ==>
        && r.value[i].id == selected[i].seqNum
        && r.value[i].subject == parse(fetches[i].parsed).subject
        && r.value[i].content == parse(fetches[i].parsed).content
        && r.value[i].links == parse(fetches[i].parsed).links
  {
    var mails := new Mail[|selected|](i requires 0 <= i < |selected| => selected[i]);
    var content := UpdateMails(mails, fetches, parse);
    if content.Failure? {
      return Failure(content.error);
    }
    r := GetEmailsData(mails[..]);
  }

  /** The first step of `init`: `getLastEmailsIds`, or its corrected
      selection. What it returns still has no `parsedData`. */
  method SelectCandidates(messagesCount: nat, messageLimit: int, total: nat, fetched: seq<Mail>,
                          filter: Option<string>, how: Containment)
    returns (selected: seq<Mail>)
    requires forall i :: 0 <= i < |fetched| ==> fetched[i].parsedData.None?
    ensures selected == Select(total, fetched, filter, how)
    ensures forall i :: 0 <= i < |selected| ==> selected[i].parsedData.None?
  {
    if how == AsWritten {
      selected := GetLastEmailsIds(messagesCount, messageLimit, total, fetched, filter);
    } else {
      selected := GetMailsFromRangeIntended(total, fetched, filter);
    }
    CollectIsSubsequence(fetched, filter, how);
    SelectedComeFromFetched(selected, fetched);
  }

  lemma {:induction false} SelectedComeFromFetched(a: seq<Mail>, b: seq<Mail>)
    requires IsSubsequence(a, b)
    requires forall i :: 0 <= i < |b| ==> b[i].parsedData.None?
    ensures forall i :: 0 <= i < |a| ==> a[i].parsedData.None?
    decreases |b|
  {
    if a != [] {
      if a[0] == b[0] && IsSubsequence(a[1..], b[1..]) {
        SelectedComeFromFetched(a[1..], b[1..]);
        assert forall i :: 1 <= i < |a| ==> a[i] == a[1..][i - 1];
      } else {
        SelectedComeFromFetched(a, b[1..]);
      }
    }
  }
}
