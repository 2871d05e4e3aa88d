/** The envelope selection of `getMailsFromRange` (ImapScanner.js:156-206)
    and the window computation around it in `getLastEmailsIds`
    (ImapScanner.js:64-99). The server's answers (the message count and the
    envelopes of `1:total`) are inputs; an error of the envelope stream in
    the middle of the loop is caught like any other throw, so it is
    modelled by the sequence of envelopes simply ending there. */
module Selection {
  import opened Wrappers
  import opened Strings
  import opened Sequences
  import opened Mailbox
  import opened Window

  /** JavaScript truthiness of `SEARCH_OPTIONS.title`: missing or `""` is
      falsy. */
  predicate Truthy(filter: Option<string>)
  {
    filter.Some? && filter.value != ""
  }

  /** `message?.envelope?.subject`. */
  function Title(m: Mail): Option<string>
  {
    if m.envelope.Some? then m.envelope.value.subject else None
  }

  /** `!emailTitle` is false: a subject that is present and not empty. */
  predicate HasTitle(m: Mail)
  {
    Title(m).Some? && Title(m).value != ""
  }

  /** The intended filter of ImapScanner.js:184-195: a falsy filter keeps
      nothing, `*` keeps everything, any other filter keeps the messages
      whose lower-cased subject contains the lower-cased filter. */
  predicate MatchesFilter(filter: Option<string>, title: string)
  {
    Truthy(filter) && (filter.value == "*" || Includes(Lower(title), Lower(filter.value)))
  }

  /** What the loop body does with one message. */
  datatype Verdict = Keep | Skip | Abort

  /** How the containment test at ImapScanner.js:194 behaves: as written,
      `lowerTitle.indcludes` is not a function and the call throws; as
      intended, it is `includes`. */
  datatype Containment = AsWritten | AsIntended

  /** The loop body for one message (ImapScanner.js:181-197). A missing or
      empty subject throws; so does the misspelt call. */
  function Decide(filter: Option<string>, m: Mail, how: Containment): Verdict
  {
    if !HasTitle(m) then Abort
    else if !Truthy(filter) then Skip
    else if filter.value == "*" then Keep
    else if how == AsWritten then Abort
    else if Includes(Lower(Title(m).value), Lower(filter.value)) then Keep
    else Skip
  }

  /** The messages the loop pushes before the first throw. */
  function Collect(ms: seq<Mail>, filter: Option<string>, how: Containment): seq<Mail>
  {
    if ms == [] then []
    else
      match Decide(filter, ms[0], how)
      case Abort => []
      case Keep => [ms[0]] + Collect(ms[1..], filter, how)
      case Skip => Collect(ms[1..], filter, how)
  }

  /** The selection for a mailbox of `total` messages whose envelope fetch
      yields `fetched`: nothing at all when the mailbox is empty. */
  function Select(total: nat, fetched: seq<Mail>, filter: Option<string>, how: Containment): seq<Mail>
  {
    if total == 0 then [] else Collect(fetched, filter, how)
  }

  /** The loop of ImapScanner.js:170-205: push the kept messages; the first
      throw leaves the loop and the messages pushed so far are returned. */
  method SelectMails(total: nat, fetched: seq<Mail>, filter: Option<string>, how: Containment)
    returns (mails: seq<Mail>)
    ensures mails == Select(total, fetched, filter, how)
  {
    mails := [];
    if total == 0 {
      return;
    }
    var i := 0;
    while i < |fetched|
      invariant 0 <= i <= |fetched|
      invariant mails + Collect(fetched[i..], filter, how) == Collect(fetched, filter, how)
    {
      var verdict := Decide(filter, fetched[i], how);
      assert fetched[i..][1..] == fetched[i + 1..];
      if verdict == Abort {
        break;
      }
      if verdict == Keep {
        mails := mails + [fetched[i]];
      }
      i := i + 1;
    }
  }

  /** Length of the longest prefix of messages that all have a subject. */
  function TitledPrefix(ms: seq<Mail>): (n: nat)
    ensures n <= |ms|
    ensures forall i :: 0 <= i < n ==> HasTitle(ms[i])
    ensures n < |ms| ==> !HasTitle(ms[n])
  {
    if ms != [] && HasTitle(ms[0]) then 1 + TitledPrefix(ms[1..]) else 0
  }

  /** The messages of `ms` that match the filter, in order. */
  function KeepMatching(ms: seq<Mail>, filter: Option<string>): seq<Mail>
  {
    if ms == [] then []
    else if HasTitle(ms[0]) && MatchesFilter(filter, Title(ms[0]).value) then [ms[0]] + KeepMatching(ms[1..], filter)
    else KeepMatching(ms[1..], filter)
  }

  /** The selection is an order-preserving subsequence of the fetched
      messages. */
  lemma {:induction false} CollectIsSubsequence(ms: seq<Mail>, filter: Option<string>, how: Containment)
    ensures IsSubsequence(Collect(ms, filter, how), ms)
  {
    if ms != [] {
      CollectIsSubsequence(ms[1..], filter, how);
      var rest := Collect(ms[1..], filter, how);
      match Decide(filter, ms[0], how)
      case Abort =>
      case Keep => assert ([ms[0]] + rest)[1..] == rest;
      case Skip =>
    }
  }

  /** As intended, selection stops at the first message without a subject
      and keeps exactly the matching messages before it. */
  lemma {:induction false} IntendedCollect(ms: seq<Mail>, filter: Option<string>)
    ensures Collect(ms, filter, AsIntended) == KeepMatching(ms[..TitledPrefix(ms)], filter)
  {
    if ms != [] {
      IntendedCollect(ms[1..], filter);
      if HasTitle(ms[0]) {
        assert ms[..TitledPrefix(ms)][1..] == ms[1..][..TitledPrefix(ms[1..])];
      }
    }
  }

  /** As written, a wildcard filter keeps every message up to the first one
      without a subject, and every other filter keeps nothing. */
  lemma {:induction false} AsWrittenCollect(ms: seq<Mail>, filter: Option<string>)
    ensures filter == Some("*") ==> Collect(ms, filter, AsWritten) == ms[..TitledPrefix(ms)]
    ensures filter != Some("*") ==> Collect(ms, filter, AsWritten) == []
  {
    if ms != [] {
      AsWrittenCollect(ms[1..], filter);
      if HasTitle(ms[0]) {
        assert ms[..TitledPrefix(ms)] == [ms[0]] + ms[1..][..TitledPrefix(ms[1..])];
      }
    }
  }

  /** `m` is among the messages a filter keeps exactly when it is in the
      list, has a subject and matches. */
  lemma {:induction false} KeepMatchingMembers(ms: seq<Mail>, filter: Option<string>, m: Mail)
    ensures m in KeepMatching(ms, filter) <==> m in ms && HasTitle(m) && MatchesFilter(filter, Title(m).value)
  {
    if ms != [] {
      KeepMatchingMembers(ms[1..], filter, m);
      assert ms == [ms[0]] + ms[1..];
    }
  }

  /** `getMailsFromRange(min, max)` as written. `min` and `max` are not
      used: the fetch always asks for the whole mailbox. */
  method GetMailsFromRange(min: int, max: int, total: nat, fetched: seq<Mail>, filter: Option<string>)
    returns (mails: seq<Mail>)
    ensures mails == Select(total, fetched, filter, AsWritten)
    ensures total == 0 ==> mails == []
    ensures total > 0 && filter == Some("*") ==> mails == fetched[..TitledPrefix(fetched)]
    ensures filter != Some("*") ==> mails == []
  {
    mails := SelectMails(total, fetched, filter, AsWritten);
    AsWrittenCollect(fetched, filter);
  }

  /** `getMailsFromRange` with the containment test spelt `includes`. */
  method GetMailsFromRangeIntended(total: nat, fetched: seq<Mail>, filter: Option<string>)
    returns (mails: seq<Mail>)
    ensures mails == Select(total, fetched, filter, AsIntended)
    ensures total == 0 ==> mails == []
    ensures total > 0 ==> mails == KeepMatching(fetched[..TitledPrefix(fetched)], filter)
    ensures IsSubsequence(mails, fetched)
  {
    mails := SelectMails(total, fetched, filter, AsIntended);
    IntendedCollect(fetched, filter);
    CollectIsSubsequence(fetched, filter, AsIntended);
  }

  /** The filter semantics of the intended selection: a falsy filter keeps
      nothing; `*` keeps every message up to the first one without a
      subject; any other filter keeps, from those, the messages whose subject
      contains it, ignoring ASCII case. */
  lemma IntendedFilterSemantics(total: nat, fetched: seq<Mail>, filter: Option<string>, m: Mail)
    requires total > 0
    ensures !Truthy(filter) ==> Select(total, fetched, filter, AsIntended) == []
    ensures filter == Some("*") ==> Select(total, fetched, filter, AsIntended) == fetched[..TitledPrefix(fetched)]
    ensures m in Select(total, fetched, filter, AsIntended) <==>
      m in fetched[..TitledPrefix(fetched)] && MatchesFilter(filter, Title(m).value)
  {
    IntendedCollect(fetched, filter);
    KeepMatchingMembers(fetched[..TitledPrefix(fetched)], filter, m);
    if !Truthy(filter) || filter == Some("*") {
      AsWrittenCollect(fetched, filter);
      TypoOnlyMattersForSubstringFilters(fetched, filter);
    }
  }

  /** The misspelt call changes nothing for a falsy or wildcard filter. */
  lemma {:induction false} TypoOnlyMattersForSubstringFilters(ms: seq<Mail>, filter: Option<string>)
    requires !Truthy(filter) || filter == Some("*")
    ensures Collect(ms, filter, AsWritten) == Collect(ms, filter, AsIntended)
  {
    if ms != [] {
      TypoOnlyMattersForSubstringFilters(ms[1..], filter);
    }
  }

  /** `getLastEmailsIds`: computes the window, then selects. The result does
      not depend on the message count or the limit. */
  method GetLastEmailsIds(messagesCount: nat, messageLimit: int, total: nat, fetched: seq<Mail>, filter: Option<string>)
    returns (mails: seq<Mail>)
    ensures mails == Select(total, fetched, filter, AsWritten)
  {
    var startPosition, endPosition := LastEmailsWindow(messagesCount, messageLimit);
    mails := GetMailsFromRange(startPosition, endPosition, total, fetched, filter);
  }

  function WithSubject(seqNum: nat, subject: string): Mail
  {
    Mail(seqNum, Some(Envelope(None, None, None, None, Some(subject))), None)
  }

  lemma ExampleTitlesContainInvoice()
    ensures Includes(Lower("Your Invoice #2"), Lower("invoice"))
    ensures Includes(Lower("INVOICE READY"), Lower("invoice"))
    ensures !Includes(Lower("Receipt"), Lower("invoice"))
  {
    assert Lower("invoice") == "invoice";
    assert Lower("Your Invoice #2") == "your invoice #2";
    assert OccursAt("your invoice #2", "invoice", 5);
    assert Lower("INVOICE READY") == "invoice ready";
    assert OccursAt("invoice ready", "invoice", 0);
    assert Lower("Receipt")[0] == 'r';
    assert !OccursAt(Lower("Receipt"), "invoice", 0);
  }

  /** The misspelt call at work: with the filter `invoice` and the subjects
      "Your Invoice #2", "INVOICE READY" and "Receipt", the source selects
      nothing, where the intended test selects the first two. */
  lemma MisspeltIncludesDropsMatches()
    ensures var fetched := [WithSubject(1, "Your Invoice #2"), WithSubject(2, "INVOICE READY"), WithSubject(3, "Receipt")];
      && Select(3, fetched, Some("invoice"), AsWritten) == []
      && Select(3, fetched, Some("invoice"), AsIntended) == fetched[..2]
  {
    var fetched := [WithSubject(1, "Your Invoice #2"), WithSubject(2, "INVOICE READY"), WithSubject(3, "Receipt")];
    var filter := Some("invoice");
    ExampleTitlesContainInvoice();
    assert Decide(filter, fetched[0], AsWritten) == Abort;
    assert Decide(filter, fetched[0], AsIntended) == Keep;
    assert Decide(filter, fetched[1], AsIntended) == Keep;
    assert Decide(filter, fetched[2], AsIntended) == Skip;
    assert fetched[1..][0] == fetched[1] && fetched[1..][1..] == [fetched[2]];
    assert Collect([fetched[2]], filter, AsIntended) == [];
    assert Collect(fetched[1..], filter, AsIntended) == [fetched[1]];
  }
}
