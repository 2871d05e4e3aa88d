/** The scan window of `getLastEmailsIds` (ImapScanner.js:84-92) and the
    range `getMailsFromRange` actually fetches (ImapScanner.js:174). */
module Window {

  /** The window `getLastEmailsIds` computes from the message count and
      `MAX_SCAN_LAST_EMAILS`. */
  function ScanWindow(messagesCount: nat, messageLimit: int): (int, int)
  {
    if messagesCount > messageLimit then (messagesCount - messageLimit, messagesCount)
    else (1, messageLimit)
  }

  method LastEmailsWindow(messagesCount: nat, messageLimit: int) returns (startPosition: int, endPosition: int)
    ensures (startPosition, endPosition) == ScanWindow(messagesCount, messageLimit)
    ensures messagesCount > messageLimit ==> startPosition == messagesCount - messageLimit && endPosition == messagesCount
    ensures messagesCount <= messageLimit ==> startPosition == 1 && endPosition == messageLimit
    ensures startPosition >= 1
    ensures messageLimit > 0 ==> startPosition <= endPosition
  {
    startPosition := 1;
    endPosition := messageLimit;
    if messagesCount > messageLimit {
      startPosition := messagesCount - messageLimit;
      endPosition := messagesCount;
    }
  }

  /** The window starts at a real sequence number and, for a positive limit,
      is never empty; it never ends past the last message when the mailbox is
      larger than the limit. */
  lemma ScanWindowBounds(messagesCount: nat, messageLimit: int)
    ensures ScanWindow(messagesCount, messageLimit).0 >= 1
    ensures messageLimit > 0 ==> ScanWindow(messagesCount, messageLimit).0 <= ScanWindow(messagesCount, messageLimit).1
    ensures messagesCount > messageLimit ==> ScanWindow(messagesCount, messageLimit).1 == messagesCount
  {
  }

  /** Number of sequence numbers in `[lo, hi]` that exist in a mailbox of
      `count` messages: the fetch clamps the end to the message count. */
  function ClampedSize(lo: int, hi: int, count: nat): nat
  {
    var top := if hi < count then hi else count;
    if top < lo then 0 else top - lo + 1
  }

  /** As written, a mailbox larger than the limit gets a window of
      `limit + 1` messages: ten messages and a limit of three give 7..10. */
  lemma ScanWindowOneTooWide(messagesCount: nat, messageLimit: nat)
    requires messagesCount > messageLimit
    ensures ClampedSize(ScanWindow(messagesCount, messageLimit).0, ScanWindow(messagesCount, messageLimit).1, messagesCount)
      == messageLimit + 1
  {
  }

  /** The window the configuration name and the log line promise: the last
      `messageLimit` messages. */
  function IntendedScanWindow(messagesCount: nat, messageLimit: int): (int, int)
  {
    if messagesCount > messageLimit then (messagesCount - messageLimit + 1, messagesCount)
    else (1, messageLimit)
  }

  /** The range the envelope fetch asks for, `1:${total || 1}`: the whole
      mailbox, whatever window was computed. */
  function FetchedRange(totalMessages: nat): (nat, nat)
  {
    (1, if totalMessages == 0 then 1 else totalMessages)
  }

  /** The fetch ignores the window: with 1000 messages and a limit of 10 the
      window is 990..1000, yet all 1000 envelopes are fetched and
      filtered. */
  lemma FetchIgnoresWindow()
    ensures ScanWindow(1000, 10) == (990, 1000)
    ensures FetchedRange(1000) == (1, 1000)
    ensures ClampedSize(1, 1000, 1000) == 1000
  {
  }

  /** The range meant to be fetched: the intended window, its end clamped to
      the message count. */
  function IntendedFetchRange(messagesCount: nat, messageLimit: int): (nat, nat)
    requires messageLimit > 0
  {
    var (lo, hi) := IntendedScanWindow(messagesCount, messageLimit);
    (lo, if hi < messagesCount then hi else messagesCount)
  }

  /** For a positive limit, the intended range holds exactly
      `min(messagesCount, messageLimit)` messages, and they are the most
      recent ones. */
  lemma IntendedRangeIsLastMessages(messagesCount: nat, messageLimit: int)
    requires messageLimit > 0
    ensures var (lo, hi) := IntendedFetchRange(messagesCount, messageLimit);
      var wanted := if messagesCount < messageLimit then messagesCount else messageLimit;
      && lo >= 1
      && hi <= messagesCount
      && ClampedSize(lo, hi, messagesCount) == wanted
      && (messagesCount > 0 ==> hi == messagesCount && lo == messagesCount - wanted + 1)
  {
  }
}
